/** The version-bound values of a governed READ conversation. Every `Valid` predicate is the check a
    frozen dataclass makes in its constructor: a value for which it is false cannot be built, the
    constructor raises `ValueError` instead. */
module ReadContext {
  import opened Basics

  /** An instant in microseconds together with the offset it was written in. Only offset 0 prints
      with the `Z` suffix that the constructors demand of a timestamp. */
  datatype Timestamp = Timestamp(micros: int, offsetMinutes: int) {
    predicate IsUtcIso() { offsetMinutes == 0 }
  }

  predicate AllNonEmpty(values: seq<string>) {
    forall i :: 0 <= i < |values| ==> values[i] != ""
  }

  // ---------------------------------------------------------------- slots and frames

  datatype SlotState = RESOLVED | CONFLICTED | CLEARED

  datatype Provenance = EXPLICIT | CONFIRMED | INHERITED | MODEL_CANDIDATE | INHERITED_LEGACY

  datatype Span = Span(start: int, end: int)

  datatype SlotBinding = SlotBinding(
    name: string,
    value: Option<string>,
    candidates: seq<string>,
    state: SlotState,
    provenance: Provenance,
    sourceTurnId: string,
    sourceSpan: Option<Span>,
    issues: seq<string>)
  {
    predicate Valid() {
      && name != ""
      && sourceTurnId != ""
      && (state == RESOLVED ==> value.Some? && value.value != "")
      && (state == CLEARED ==> value.None?)
      && AllNonEmpty(candidates)
      && AllNonEmpty(issues)
      && (sourceSpan.Some? ==> 0 <= sourceSpan.value.start <= sourceSpan.value.end)
    }
  }

  datatype FrameStatus = COLLECTING | READY | FRAME_CONFLICTED | STALE

  datatype Frame = Frame(
    frameId: string,
    capabilityId: string,
    slots: map<string, SlotBinding>,
    status: FrameStatus,
    createdTurnId: string,
    updatedTurnId: string,
    registrySnapshotId: string,
    capabilityVersion: string)
  {
    predicate Valid() {
      && frameId != "" && capabilityId != "" && createdTurnId != "" && updatedTurnId != ""
      && registrySnapshotId != "" && capabilityVersion != ""
      && (forall n :: n in slots ==> n != "" && slots[n].name == n && slots[n].Valid())
      && (status == READY ==> forall n :: n in slots ==> slots[n].state == RESOLVED)
    }
  }

  // ---------------------------------------------------------------- entity choice sets

  datatype EntityStatus = ACTIVE | INACTIVE

  datatype CandidateView = CandidateView(
    index: int,
    canonicalCode: string,
    displayName: string,
    distinguishing: seq<(string, string)>,
    matchKind: string,
    status: EntityStatus,
    orgScopes: seq<(string, string)>)
  {
    predicate Valid() {
      && canonicalCode != ""
      && (forall i :: 0 <= i < |distinguishing| ==> distinguishing[i].0 != "")
      && (forall i :: 0 <= i < |orgScopes| ==> orgScopes[i].0 != "")
    }
  }

  datatype EntityChoiceSet = EntityChoiceSet(
    candidateSetId: string,
    objectType: string,
    targetCapabilityId: string,
    targetSlot: string,
    mention: string,
    candidates: seq<CandidateView>,
    snapshotId: string,
    provider: string,
    createdAt: Timestamp,
    expiresAt: Timestamp,
    principalId: string,
    registrySnapshotId: string,
    sourceExtractedAt: Option<string>)
  {
    predicate Valid() {
      && candidateSetId != "" && objectType != "" && targetCapabilityId != "" && targetSlot != ""
      && snapshotId != "" && principalId != "" && registrySnapshotId != ""
      && createdAt.IsUtcIso() && expiresAt.IsUtcIso()
      && candidates != []
      && (forall i :: 0 <= i < |candidates| ==> candidates[i].Valid() && candidates[i].index == i + 1)
    }
  }

  // ---------------------------------------------------------------- pending interactions

  datatype PlannerGoal = PlannerGoal(
    capabilityId: string,
    parameters: seq<(string, string)>,
    missing: seq<string>)
  {
    ghost predicate Valid() {
      && capabilityId != ""
      && (forall i :: 0 <= i < |parameters| ==> parameters[i].0 != "" && parameters[i].1 != "")
      && (forall i, j :: 0 <= i < j < |parameters| ==> parameters[i].0 != parameters[j].0)
      && AllNonEmpty(missing)
    }
  }

  datatype PendingKind =
    | SLOT_CLARIFICATION
    | CAPABILITY_CHOICE
    | BATCH_CONFIRMATION
    | PLANNER_CONFIRMATION
    | ENTITY_CHOICE

  datatype Pending = Pending(
    kind: PendingKind,
    frameId: string,
    stateVersion: int,
    registrySnapshotId: string,
    expiresAt: Timestamp,
    expectedFields: seq<string>,
    capabilityIds: seq<string>,
    batchRef: Option<string>,
    plannerRef: Option<string>,
    plannerGoals: seq<PlannerGoal>,
    entityChoice: Option<EntityChoiceSet>)
  {
    ghost predicate Valid() {
      && frameId != "" && registrySnapshotId != ""
      && expiresAt.IsUtcIso()
      && stateVersion >= 0
      && AllNonEmpty(expectedFields) && Distinct(expectedFields)
      && AllNonEmpty(capabilityIds) && Distinct(capabilityIds)
      && (forall i :: 0 <= i < |plannerGoals| ==> plannerGoals[i].Valid())
      && (forall i, j :: 0 <= i < j < |plannerGoals| ==>
            plannerGoals[i].capabilityId != plannerGoals[j].capabilityId)
      && PayloadMatchesKind()
      && (kind != ENTITY_CHOICE ==> entityChoice.None?)
    }

    /** A reference that is missing or empty counts as absent (Python truthiness). */
    static predicate Given(ref: Option<string>) { ref.Some? && ref.value != "" }

    ghost predicate PayloadMatchesKind() {
      match kind
      case SLOT_CLARIFICATION =>
        expectedFields != [] && capabilityIds == [] && !Given(batchRef) && !Given(plannerRef) && plannerGoals == []
      case CAPABILITY_CHOICE =>
        expectedFields == [] && capabilityIds != [] && !Given(batchRef) && !Given(plannerRef) && plannerGoals == []
      case BATCH_CONFIRMATION =>
        expectedFields == [] && capabilityIds == [] && Given(batchRef) && !Given(plannerRef) && plannerGoals == []
      case PLANNER_CONFIRMATION =>
        expectedFields == [] && capabilityIds == [] && !Given(batchRef) && Given(plannerRef) && plannerGoals != []
      case ENTITY_CHOICE =>
        && capabilityIds == [] && !Given(batchRef) && !Given(plannerRef) && plannerGoals == []
        && entityChoice.Some? && entityChoice.value.Valid()
        && expectedFields == [entityChoice.value.targetSlot]
    }

    function BindingKey(): (string, int, string) { (frameId, stateVersion, registrySnapshotId) }
  }

  function SlotClarification(frameId: string, expectedFields: seq<string>, stateVersion: int,
                             registrySnapshotId: string, expiresAt: Timestamp): Pending
  {
    Pending(SLOT_CLARIFICATION, frameId, stateVersion, registrySnapshotId, expiresAt,
            expectedFields, [], None, None, [], None)
  }

  function CapabilityChoice(frameId: string, capabilityIds: seq<string>, stateVersion: int,
                            registrySnapshotId: string, expiresAt: Timestamp): Pending
  {
    Pending(CAPABILITY_CHOICE, frameId, stateVersion, registrySnapshotId, expiresAt,
            [], capabilityIds, None, None, [], None)
  }

  function BatchConfirmation(frameId: string, batchRef: string, stateVersion: int,
                             registrySnapshotId: string, expiresAt: Timestamp): Pending
  {
    Pending(BATCH_CONFIRMATION, frameId, stateVersion, registrySnapshotId, expiresAt,
            [], [], Some(batchRef), None, [], None)
  }

  function PlannerConfirmation(frameId: string, plannerRef: string, goals: seq<PlannerGoal>, stateVersion: int,
                               registrySnapshotId: string, expiresAt: Timestamp): Pending
  {
    Pending(PLANNER_CONFIRMATION, frameId, stateVersion, registrySnapshotId, expiresAt,
            [], [], None, Some(plannerRef), goals, None)
  }

  function EntityChoicePending(frameId: string, choice: EntityChoiceSet, stateVersion: int,
                               registrySnapshotId: string, expiresAt: Timestamp): Pending
  {
    Pending(ENTITY_CHOICE, frameId, stateVersion, registrySnapshotId, expiresAt,
            [choice.targetSlot], [], None, None, [], Some(choice))
  }

  /** What the constructor accepts through each factory, told from the arguments. */
  lemma FactoriesAccept(frameId: string, version: int, snapshotId: string, expiresAt: Timestamp, names: seq<string>, ref: string,
                        goals: seq<PlannerGoal>, choice: EntityChoiceSet)
    ensures var common := frameId != "" && snapshotId != "" && expiresAt.offsetMinutes == 0 && version >= 0;
            var listed := names != [] && "" !in names && forall i, j :: 0 <= i < j < |names| ==> names[i] != names[j];
            && (SlotClarification(frameId, names, version, snapshotId, expiresAt).Valid() <==> common && listed)
            && (CapabilityChoice(frameId, names, version, snapshotId, expiresAt).Valid() <==> common && listed)
            && (BatchConfirmation(frameId, ref, version, snapshotId, expiresAt).Valid() <==> common && ref != "")
            && (PlannerConfirmation(frameId, ref, goals, version, snapshotId, expiresAt).Valid() <==>
                  && common && ref != "" && goals != [] && (forall i :: 0 <= i < |goals| ==> goals[i].Valid())
                  && forall i, j :: 0 <= i < j < |goals| ==> goals[i].capabilityId != goals[j].capabilityId)
            && (EntityChoicePending(frameId, choice, version, snapshotId, expiresAt).Valid() <==> common && choice.Valid())
  {
    hide EntityChoiceSet.Valid, PlannerGoal.Valid;
    assert AllNonEmpty(names) <==> "" !in names;
    ChoiceNamesItsSlot(choice);
  }

  /** A set of entities to choose from is accepted exactly when nothing that binds it is empty, both its times are UTC,
      and its candidates, at least one, are numbered from one and carry codes and named attributes. */
  lemma ChoiceAccepted(c: EntityChoiceSet)
    ensures c.Valid() <==>
            && "" !in {c.candidateSetId, c.objectType, c.targetCapabilityId, c.targetSlot, c.snapshotId, c.principalId, c.registrySnapshotId}
            && c.createdAt.offsetMinutes == 0 && c.expiresAt.offsetMinutes == 0 && |c.candidates| >= 1
            && forall i :: 0 <= i < |c.candidates| ==>
                 var v := c.candidates[i];
                 && v.index == i + 1 && v.canonicalCode != ""
                 && (forall p :: p in v.distinguishing ==> p.0 != "") && forall p :: p in v.orgScopes ==> p.0 != ""
  {
    forall i | 0 <= i < |c.candidates|
      ensures c.candidates[i].Valid() <==>
                var v := c.candidates[i];
                v.canonicalCode != "" && (forall p :: p in v.distinguishing ==> p.0 != "") && forall p :: p in v.orgScopes ==> p.0 != ""
    {
      ViewAccepted(c.candidates[i]);
    }
  }

  lemma ViewAccepted(v: CandidateView)
    ensures v.Valid() <==>
            v.canonicalCode != "" && (forall p :: p in v.distinguishing ==> p.0 != "") && forall p :: p in v.orgScopes ==> p.0 != ""
  {
    if v.Valid() {
      forall p | p in v.distinguishing ensures p.0 != "" { var i :| 0 <= i < |v.distinguishing| && v.distinguishing[i] == p; }
      forall p | p in v.orgScopes ensures p.0 != "" { var i :| 0 <= i < |v.orgScopes| && v.orgScopes[i] == p; }
    }
  }

  lemma ChoiceNamesItsSlot(choice: EntityChoiceSet)
    ensures choice.Valid() ==> choice.targetSlot != ""
  {}

  // ---------------------------------------------------------------- the persisted state

  datatype ReadState = ReadState(
    activeFrame: Option<Frame>,
    pending: Option<Pending>,
    stateVersion: int,
    recentFrames: seq<Frame>,
    clarifyRounds: map<string, int>)
  {
    ghost predicate Valid() {
      && (activeFrame.Some? ==> activeFrame.value.Valid())
      && (pending.Some? ==> pending.value.Valid())
      && stateVersion >= 0
      && |recentFrames| <= 2
      && (forall i :: 0 <= i < |recentFrames| ==> recentFrames[i].Valid())
      && (forall c :: c in clarifyRounds ==> clarifyRounds[c] >= 0)
    }
  }

  const EMPTY_STATE := ReadState(None, None, 0, [], map[])
}
