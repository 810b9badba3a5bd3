/** Whole conversations: the orchestrator's steps on the persisted READ state, and what holds over any
    run of them from any sound state. */
module Conversation {
  import opened Basics
  import opened ReadContext
  import opened Candidates
  import opened Reducer
  import opened ReducerLaws
  import opened ReducerInvariant
  import opened DecisionGate
  import opened ReadDecision

  type Catalog = map<string, CapabilityDescriptor>

  ghost predicate CatalogOk(cat: Catalog) {
    forall id :: id in cat ==> cat[id].capabilityId == id && DescriptorOk(cat[id])
  }

  // ---------------------------------------------------------------- the steps

  datatype Turn = Turn(
    candidates: CandidateSet,
    capabilityId: string,
    snapshotId: string,
    capabilityVersion: string,
    turnId: string,
    serverTime: Timestamp)

  /** What the orchestrator may hang on a reduced state before it is persisted. */
  datatype FollowUp =
    | NoFollowUp
    | BatchOffer(batchRef: string, expiresAt: Timestamp)
    | EntityOffer(choice: EntityChoiceSet)

  datatype ChoicePayload = Capabilities(ids: seq<string>) | PlannerGoals(plannerRef: string, goals: seq<PlannerGoal>)

  datatype Event =
    | ReadTurn(turn: Turn, followUp: FollowUp)
    | NonReadTurn(rounds: Option<map<string, int>>)
    | ChoiceOffered(payload: ChoicePayload, snapshotId: string, expiresAt: Timestamp, syntheticFrameId: string)
    | PlannerConfirmed
    | EntityRefused
    | EntityReoffered(newChoice: EntityChoiceSet, leaseSnapshotId: string)
    | Unchanged

  predicate OwnedByReducer(pending: Pending) {
    pending.kind == SLOT_CLARIFICATION || pending.kind == ENTITY_CHOICE
  }

  /** A pending choice, batch or plan never survives the turn that follows it. */
  function WithoutForeignPending(s: ReadState): ReadState {
    if s.pending.Some? && !OwnedByReducer(s.pending.value) then s.(pending := None) else s
  }

  function RequestOf(cat: Catalog, s: ReadState, turn: Turn): Request
    requires turn.capabilityId in cat
  {
    Request(WithoutForeignPending(s), turn.candidates, cat[turn.capabilityId], turn.snapshotId,
            turn.capabilityVersion, turn.turnId, turn.serverTime)
  }

  function Follow(next: ReadState, followUp: FollowUp): Option<ReadState>
    requires next.activeFrame.Some?
  {
    var frame := next.activeFrame.value;
    match followUp
    case NoFollowUp => Some(next)
    case BatchOffer(batchRef, expiresAt) =>
      if frame.status != READY then None
      else Some(next.(pending := Some(BatchConfirmation(frame.frameId, batchRef, next.stateVersion,
                                                        frame.registrySnapshotId, expiresAt))))
    case EntityOffer(choice) =>
      if frame.status == READY then None
      else Some(next.(pending := Some(EntityChoicePending(frame.frameId, choice, next.stateVersion,
                                                          frame.registrySnapshotId, choice.expiresAt))))
  }

  /** A state is only handed on when every constructor accepted it. */
  ghost function Constructed(s: ReadState): Option<ReadState> {
    if s.Valid() then Some(s) else None
  }

  ghost function OfferedChoice(s: ReadState, e: Event): ReadState
    requires e.ChoiceOffered?
  {
    var frameId := if s.activeFrame.Some? then s.activeFrame.value.frameId else e.syntheticFrameId;
    var pending :=
      match e.payload
      case Capabilities(ids) => CapabilityChoice(frameId, ids, s.stateVersion + 1, e.snapshotId, e.expiresAt)
      case PlannerGoals(plannerRef, goals) =>
        PlannerConfirmation(frameId, plannerRef, goals, s.stateVersion + 1, e.snapshotId, e.expiresAt);
    ReadState(s.activeFrame, Some(pending), s.stateVersion + 1, s.recentFrames, map[])
  }

  predicate AwaitsEntity(s: ReadState) { s.pending.Some? && s.pending.value.kind == ENTITY_CHOICE }

  /** The persisted state after one step; `None` when the step is not possible or a constructor raises,
      in which case nothing is persisted. */
  ghost function Step(cat: Catalog, valid: Validity, s: ReadState, e: Event): Option<ReadState> {
    match e
    case ReadTurn(turn, followUp) =>
      if turn.capabilityId !in cat then None
      else
        var reduced := Reduce(valid, RequestOf(cat, s, turn));
        if reduced.Raise? then None
        else
          var followed := Follow(reduced.value.nextState, followUp);
          if followed.None? then None else Constructed(followed.value)
    case NonReadTurn(rounds) =>
      Constructed(ReadState(s.activeFrame, None, s.stateVersion + 1, s.recentFrames,
                            if rounds.Some? && rounds.value != map[] then rounds.value else s.clarifyRounds))
    case ChoiceOffered(_, _, _, _) => Constructed(OfferedChoice(s, e))
    case PlannerConfirmed =>
      if s.pending.Some? && s.pending.value.kind == PLANNER_CONFIRMATION
      then Some(s.(pending := None, stateVersion := s.stateVersion + 1)) else None
    case EntityRefused =>
      if AwaitsEntity(s) then Some(ReadState(s.activeFrame, None, s.stateVersion + 1, s.recentFrames, map[])) else None
    case EntityReoffered(choice, snapshotId) =>
      if AwaitsEntity(s)
      then Constructed(ReadState(s.activeFrame,
                                 Some(EntityChoicePending(s.pending.value.frameId, choice, s.stateVersion + 1,
                                                          snapshotId, choice.expiresAt)),
                                 s.stateVersion + 1, s.recentFrames, map[]))
      else None
    case Unchanged => Some(s)
  }

  /** The state a read turn starts from: a question of the reducer stays, any other pending interaction is dropped. */
  predicate StartsFrom(s: ReadState, prior: ReadState) {
    && prior.activeFrame == s.activeFrame && prior.stateVersion == s.stateVersion && prior.recentFrames == s.recentFrames
    && prior.clarifyRounds == s.clarifyRounds
    && prior.pending ==
       if s.pending.Some? && (s.pending.value.kind == SLOT_CLARIFICATION || s.pending.value.kind == ENTITY_CHOICE) then s.pending else None
  }

  /** What is pending once the turn's own result has been followed up. */
  predicate FollowedUp(next: ReadState, followUp: FollowUp, pending: Option<Pending>) {
    && next.activeFrame.Some?
    && var frame := next.activeFrame.value;
    match followUp
    case NoFollowUp => pending == next.pending
    case BatchOffer(batchRef, expiresAt) =>
      && frame.status == READY
      && pending == Some(Pending(BATCH_CONFIRMATION, frame.frameId, next.stateVersion, frame.registrySnapshotId, expiresAt,
                                 [], [], Some(batchRef), None, [], None))
    case EntityOffer(choice) =>
      && frame.status != READY
      && pending == Some(Pending(ENTITY_CHOICE, frame.frameId, next.stateVersion, frame.registrySnapshotId, choice.expiresAt,
                                 [choice.targetSlot], [], None, None, [], Some(choice)))
  }

  /** A read turn reduces the state it starts from; it is possible exactly when the capability is in the catalog,
      no constructor raises, and the frame's status admits what follows up. */
  lemma ReadStepExactly(cat: Catalog, valid: Validity, s: ReadState, turn: Turn, followUp: FollowUp, t: ReadState)
    ensures Step(cat, valid, s, ReadTurn(turn, followUp)) == Some(t) <==>
            && t.Valid() && turn.capabilityId in cat
            && exists prior ::
                 && StartsFrom(s, prior)
                 && var reduced := Reduce(valid, Request(prior, turn.candidates, cat[turn.capabilityId], turn.snapshotId,
                                                         turn.capabilityVersion, turn.turnId, turn.serverTime));
                 && reduced.Ok? && FollowedUp(reduced.value.nextState, followUp, t.pending)
                 && t == reduced.value.nextState.(pending := t.pending)
  {
    hide Reduced, ReadState.Valid;
    var prior := WithoutForeignPending(s);
    assert StartsFrom(s, prior);
    assert forall other :: StartsFrom(s, other) ==> other == prior;
  }

  /** Every other step, told field by field: it leaves the frames alone, is possible exactly when its conditions
      hold and the constructors accept the state it leaves, and counts the version unless it changes nothing. */
  lemma OtherStepExactly(cat: Catalog, valid: Validity, s: ReadState, e: Event, t: ReadState)
    requires !e.ReadTurn? && s.Valid()
    ensures Step(cat, valid, s, e) == Some(t) <==>
            && t.Valid() && t.activeFrame == s.activeFrame && t.recentFrames == s.recentFrames
            && t.stateVersion == s.stateVersion + (if e.Unchanged? then 0 else 1)
            && match e
               case NonReadTurn(rounds) =>
                 t.pending.None? && t.clarifyRounds == if rounds.Some? && rounds.value != map[] then rounds.value else s.clarifyRounds
               case ChoiceOffered(payload, snapshotId, expiresAt, syntheticFrameId) =>
                 && t.clarifyRounds == map[] && t.pending.Some?
                 && var p := t.pending.value;
                 && p.frameId == (if s.activeFrame.Some? then s.activeFrame.value.frameId else syntheticFrameId)
                 && p.stateVersion == s.stateVersion + 1 && p.registrySnapshotId == snapshotId && p.expiresAt == expiresAt
                 && p.expectedFields == [] && p.batchRef.None? && p.entityChoice.None?
                 && (if payload.Capabilities?
                     then p.kind == CAPABILITY_CHOICE && p.capabilityIds == payload.ids && p.plannerRef.None? && p.plannerGoals == []
                     else p.kind == PLANNER_CONFIRMATION && p.capabilityIds == [] && p.plannerRef == Some(payload.plannerRef)
                          && p.plannerGoals == payload.goals)
               case PlannerConfirmed =>
                 s.pending.Some? && s.pending.value.kind == PLANNER_CONFIRMATION && t.pending.None? && t.clarifyRounds == s.clarifyRounds
               case EntityRefused =>
                 s.pending.Some? && s.pending.value.kind == ENTITY_CHOICE && t.pending.None? && t.clarifyRounds == map[]
               case EntityReoffered(choice, snapshotId) =>
                 && s.pending.Some? && s.pending.value.kind == ENTITY_CHOICE && t.clarifyRounds == map[]
                 && t.pending == Some(Pending(ENTITY_CHOICE, s.pending.value.frameId, s.stateVersion + 1, snapshotId, choice.expiresAt,
                                              [choice.targetSlot], [], None, None, [], Some(choice)))
               case _ => t.pending == s.pending && t.clarifyRounds == s.clarifyRounds
  {
    hide Reduced, Reduce, Frame.Valid, Pending.Valid;
  }

  /** The state after a run of steps from `start`, which may be the empty state, a migrated one, or any state
      that was stored before. */
  ghost function Run(cat: Catalog, valid: Validity, start: ReadState, events: seq<Event>): Option<ReadState> {
    if events == [] then Some(start)
    else
      var before := Run(cat, valid, start, events[..|events| - 1]);
      if before.None? then None else Step(cat, valid, before.value, events[|events| - 1])
  }

  // ---------------------------------------------------------------- provenance

  /** A turn offered exactly this value for this slot of this capability, from a source other than the
      model, and the value passed the semantic check. */
  ghost predicate Justifies(cat: Catalog, valid: Validity, e: Event, capabilityId: string, slot: SlotBinding) {
    && e.ReadTurn? && e.turn.turnId == slot.sourceTurnId && e.turn.capabilityId == capabilityId
    && slot.value.Some? && capabilityId in cat
    && exists i :: 0 <= i < |cat[capabilityId].inputs| && cat[capabilityId].inputs[i].name == slot.name
                   && OfferedBy(valid, e.turn.candidates, cat[capabilityId].inputs[i], slot.value.value)
  }

  ghost predicate OfferedBy(valid: Validity, candidates: CandidateSet, input: InputDescriptor, value: string) {
    valid(input, value) && exists c :: c in candidates.ForSlot(input.name) && c.source != MODEL && c.value == value
  }

  ghost predicate Justified(cat: Catalog, valid: Validity, events: seq<Event>, capabilityId: string, slot: SlotBinding) {
    exists k :: 0 <= k < |events| && Justifies(cat, valid, events[k], capabilityId, slot)
  }

  /** The value already stood in the state the run started from, and was no migrated one there. */
  ghost predicate CarriedOver(start: ReadState, capabilityId: string, slot: SlotBinding) {
    && start.activeFrame.Some? && start.activeFrame.value.capabilityId == capabilityId
    && slot.name in start.activeFrame.value.slots
    && Proper(start.activeFrame.value.slots[slot.name]) && SameOrigin(slot, start.activeFrame.value.slots[slot.name])
  }

  /** Resolved, and not merely migrated. */
  predicate Proper(slot: SlotBinding) { slot.state == RESOLVED && slot.provenance != INHERITED_LEGACY }

  ghost predicate Accounted(cat: Catalog, valid: Validity, start: ReadState, events: seq<Event>, capabilityId: string, slot: SlotBinding) {
    Justified(cat, valid, events, capabilityId, slot) || CarriedOver(start, capabilityId, slot)
  }

  ghost predicate FrameAccounted(cat: Catalog, valid: Validity, start: ReadState, events: seq<Event>, frame: Frame) {
    forall n :: n in frame.slots && Proper(frame.slots[n]) ==> Accounted(cat, valid, start, events, frame.capabilityId, frame.slots[n])
  }

  /** A resolved slot after an input was processed is offered by this turn, the prior one, or a migrated one. */
  lemma OutcomeJustified(valid: Validity, input: InputDescriptor, prior: Option<SlotBinding>,
                         candidates: CandidateSet, mode: SlotMode, turnId: string)
    requires prior.Some? ==> prior.value.name == input.name
    ensures var slot := OutcomeOf(valid, input, prior, ValidOnly(valid, input, candidates.ForSlot(input.name)), mode, turnId).slot;
            slot.Some? && Proper(slot.value) ==>
              || (slot.value.sourceTurnId == turnId && slot.value.name == input.name && slot.value.value.Some?
                  && OfferedBy(valid, candidates, input, slot.value.value.value))
              || (prior.Some? && Proper(prior.value) && SameOrigin(slot.value, prior.value))
  {
    var good := ValidOnly(valid, input, candidates.ForSlot(input.name));
    var selected := OfferOf(good, mode.expected).Selected();
    SelectedIsEvidenced(good, mode.expected);
    ValidOnlyMembers(valid, input, candidates.ForSlot(input.name));
    if selected != [] { assert selected[0] in selected; }
  }

  predicate SameOrigin(a: SlotBinding, b: SlotBinding) {
    a.name == b.name && a.value == b.value && a.sourceTurnId == b.sourceTurnId
  }

  lemma AccountedGrows(cat: Catalog, valid: Validity, start: ReadState, events: seq<Event>, e: Event, capabilityId: string,
                       slot: SlotBinding, other: SlotBinding)
    requires Accounted(cat, valid, start, events, capabilityId, slot) && SameOrigin(slot, other)
    ensures Accounted(cat, valid, start, events + [e], capabilityId, other)
  {
    if Justified(cat, valid, events, capabilityId, slot) {
      var k :| 0 <= k < |events| && Justifies(cat, valid, events[k], capabilityId, slot);
      assert (events + [e])[k] == events[k];
      assert Justifies(cat, valid, events[k], capabilityId, other);
    }
  }

  // ---------------------------------------------------------------- the invariant of a run

  ghost predicate TurnDataOk(turn: Turn) {
    && turn.turnId != "" && turn.snapshotId != "" && turn.capabilityVersion != ""
    && (forall n, c :: n in turn.candidates.slots && c in turn.candidates.slots[n] ==> CandidateOk(c))
  }

  ghost predicate EventsOk(events: seq<Event>) {
    forall k :: 0 <= k < |events| && events[k].ReadTurn? ==> TurnDataOk(events[k].turn)
  }

  function Advancing(events: seq<Event>): nat {
    if events == [] then 0
    else Advancing(events[..|events| - 1]) + (if events[|events| - 1].Unchanged? then 0 else 1)
  }

  /** The slots of a frame of the catalog fit, and READY means complete. */
  ghost predicate FrameOk(cat: Catalog, frame: Frame) {
    frame.capabilityId in cat ==>
      && SlotsFit(cat[frame.capabilityId], frame.slots)
      && (frame.status == READY ==> Complete(cat[frame.capabilityId], frame.slots))
  }

  /** Every pending interaction belongs to this version of the state and to this frame; a question for
      slots also belongs to the frame's registry snapshot. */
  ghost predicate PendingBound(s: ReadState) {
    s.pending.Some? ==>
      && s.pending.value.stateVersion == s.stateVersion
      && (s.activeFrame.Some? ==> s.pending.value.frameId == s.activeFrame.value.frameId)
      && (s.pending.value.kind == SLOT_CLARIFICATION ==>
            s.activeFrame.Some? && s.pending.value.registrySnapshotId == s.activeFrame.value.registrySnapshotId)
  }

  ghost predicate StateOk(cat: Catalog, s: ReadState) {
    && s.Valid()
    && (s.activeFrame.Some? ==> FrameOk(cat, s.activeFrame.value))
    && PendingBound(s)
  }

  lemma RequestIsOk(cat: Catalog, s: ReadState, turn: Turn)
    requires CatalogOk(cat) && TurnDataOk(turn) && turn.capabilityId in cat && StateOk(cat, s)
    ensures TurnOk(RequestOf(cat, s, turn)) && PriorOk(RequestOf(cat, s, turn))
  {}

  /** A completed read turn leaves a sound state, whatever is hung on it afterwards. */
  lemma ReadTurnKeeps(cat: Catalog, valid: Validity, s: ReadState, e: Event)
    requires CatalogOk(cat) && StateOk(cat, s) && e.ReadTurn? && TurnDataOk(e.turn)
    requires Step(cat, valid, s, e).Some?
    ensures StateOk(cat, Step(cat, valid, s, e).value)
    ensures Step(cat, valid, s, e).value.stateVersion == s.stateVersion + 1
  {
    hide Reduced, Open, Justifies;
    RequestIsOk(cat, s, e.turn);
    TurnInvariant(valid, RequestOf(cat, s, e.turn));
  }

  lemma StepKeeps(cat: Catalog, valid: Validity, s: ReadState, e: Event)
    requires CatalogOk(cat) && StateOk(cat, s) && (e.ReadTurn? ==> TurnDataOk(e.turn))
    requires Step(cat, valid, s, e).Some?
    ensures StateOk(cat, Step(cat, valid, s, e).value)
    ensures Step(cat, valid, s, e).value.stateVersion == s.stateVersion + (if e.Unchanged? then 0 else 1)
  {
    hide Reduced, Reduce, Follow, SlotsFit;
    if e.ReadTurn? { ReadTurnKeeps(cat, valid, s, e); }
  }

  lemma EmptyIsOk(cat: Catalog)
    ensures StateOk(cat, EMPTY_STATE)
  {}

  /** Over any run from a sound state: the state stays constructible, its version counts the steps that
      changed it, at most two frames are remembered, a READY frame is complete, and a pending interaction
      always belongs to the current frame and version. */
  lemma {:induction false} RunInvariant(cat: Catalog, valid: Validity, start: ReadState, events: seq<Event>)
    requires CatalogOk(cat) && StateOk(cat, start) && EventsOk(events) && Run(cat, valid, start, events).Some?
    ensures StateOk(cat, Run(cat, valid, start, events).value)
    ensures Run(cat, valid, start, events).value.stateVersion == start.stateVersion + Advancing(events)
  {
    if events != [] {
      var init := events[..|events| - 1];
      RunInvariant(cat, valid, start, init);
      StepKeeps(cat, valid, Run(cat, valid, start, init).value, events[|events| - 1]);
    }
  }

  /** No read turn reachable from a sound state raises, given the server's clock in UTC. */
  lemma ReachableTurnsComplete(cat: Catalog, valid: Validity, start: ReadState, events: seq<Event>, turn: Turn)
    requires CatalogOk(cat) && StateOk(cat, start) && EventsOk(events) && Run(cat, valid, start, events).Some?
    requires TurnDataOk(turn) && turn.capabilityId in cat && turn.serverTime.IsUtcIso()
    ensures Run(cat, valid, start, events + [ReadTurn(turn, NoFollowUp)]).Some?
  {
    hide Reduced, StateOk, CatalogOk, TurnDataOk, TurnOk, PriorOk, EventsOk, MintsClarification, ReadState.Valid;
    var e := ReadTurn(turn, NoFollowUp);
    assert (events + [e])[..|events|] == events;
    RunInvariant(cat, valid, start, events);
    var s := Run(cat, valid, start, events).value;
    RequestIsOk(cat, s, turn);
    RaisesExactlyWhen(valid, RequestOf(cat, s, turn));
  }

  lemma ReducedPendingIsOwn(valid: Validity, req: Request)
    requires req.prior.pending.Some? ==> OwnedByReducer(req.prior.pending.value)
    ensures var pending := Reduced(valid, req).nextState.pending;
            pending.Some? ==> OwnedByReducer(pending.value)
  {
    hide LoopEnd, AskedFields, NextFrame, FailsRebind;
  }

  /** A capability choice, a batch or a plan awaiting confirmation is gone after the next step that changes the
      state: any such pending interaction was offered by the last changing step itself. */
  lemma ForeignPendingLivesOneStep(cat: Catalog, valid: Validity, s: ReadState, e: Event)
    requires Step(cat, valid, s, e).Some?
    requires var pending := Step(cat, valid, s, e).value.pending; pending.Some? && !OwnedByReducer(pending.value)
    ensures || (e.Unchanged? && s.pending == Step(cat, valid, s, e).value.pending)
            || e.ChoiceOffered?
            || (e.ReadTurn? && e.followUp.BatchOffer?
                && Step(cat, valid, s, e).value.pending.value.batchRef == Some(e.followUp.batchRef))
  {
    hide Reduced, ReadState.Valid;
    if e.ReadTurn? { ReducedPendingIsOwn(valid, RequestOf(cat, s, e.turn)); }
  }

  // ---------------------------------------------------------------- whole-run provenance

  lemma ReadTurnJustifies(cat: Catalog, valid: Validity, start: ReadState, events: seq<Event>, s: ReadState, e: Event)
    requires CatalogOk(cat) && StateOk(cat, s) && e.ReadTurn? && TurnDataOk(e.turn) && e.turn.capabilityId in cat
    requires s.activeFrame.Some? ==> FrameAccounted(cat, valid, start, events, s.activeFrame.value)
    requires Reduce(valid, RequestOf(cat, s, e.turn)).Ok?
    ensures FrameAccounted(cat, valid, start, events + [e], Reduced(valid, RequestOf(cat, s, e.turn)).nextState.activeFrame.value)
  {
    hide Reduced, OutcomeOf, OfferedBy, StateOk;
    var req := RequestOf(cat, s, e.turn);
    var frame := Reduced(valid, req).nextState.activeFrame.value;
    RequestIsOk(cat, s, e.turn);
    TurnInvariant(valid, req);
    forall n | n in frame.slots && Proper(frame.slots[n])
      ensures Accounted(cat, valid, start, events + [e], frame.capabilityId, frame.slots[n])
    {
      SlotJustifies(cat, valid, start, events, s, e, n);
    }
  }

  lemma SlotJustifies(cat: Catalog, valid: Validity, start: ReadState, events: seq<Event>, s: ReadState, e: Event, n: string)
    requires CatalogOk(cat) && e.ReadTurn? && e.turn.capabilityId in cat
    requires TurnOk(RequestOf(cat, s, e.turn)) && PriorOk(RequestOf(cat, s, e.turn))
    requires s.activeFrame.Some? ==> FrameAccounted(cat, valid, start, events, s.activeFrame.value)
    requires var frame := Reduced(valid, RequestOf(cat, s, e.turn)).nextState.activeFrame.value;
             SlotsFit(cat[e.turn.capabilityId], frame.slots) && n in frame.slots && Proper(frame.slots[n])
    ensures var frame := Reduced(valid, RequestOf(cat, s, e.turn)).nextState.activeFrame.value;
            Accounted(cat, valid, start, events + [e], e.turn.capabilityId, frame.slots[n])
  {
    hide Reduced, OutcomeOf, OfferedBy, TurnOk, FrameAccounted, Accounted, NamesDistinct;
    var req := RequestOf(cat, s, e.turn);
    var d, slot := req.descriptor, Reduced(valid, req).nextState.activeFrame.value.slots[n];
    var i :| 0 <= i < |d.inputs| && d.inputs[i].name == n && SlotFits(d.inputs[i], slot);
    assert NamesDistinct(d.inputs) by { TurnNames(req); }
    NextSlot(valid, req, i);
    PriorSlotFits(req, i);
    var prior := PriorSlot(req, n);
    assert TurnOutcome(valid, req, d.inputs[i]).slot == Some(slot);
    OutcomeJustified(valid, d.inputs[i], prior, req.candidates, ModeIn(req, n), req.turnId);
    if prior.Some? && Proper(prior.value) && SameOrigin(slot, prior.value) {
      PriorComesFromState(cat, s, e.turn, n);
      PriorAccounted(cat, valid, start, events, s, e.turn.capabilityId, n);
      AccountedGrows(cat, valid, start, events, e, d.capabilityId, prior.value, slot);
    } else {
      TurnAccounts(cat, valid, start, events, e, slot, i);
    }
  }

  lemma TurnNames(req: Request)
    requires TurnOk(req)
    ensures NamesDistinct(req.descriptor.inputs)
  {}

  lemma PriorComesFromState(cat: Catalog, s: ReadState, turn: Turn, n: string)
    requires CatalogOk(cat) && turn.capabilityId in cat && PriorSlot(RequestOf(cat, s, turn), n).Some?
    ensures && s.activeFrame.Some? && s.activeFrame.value.capabilityId == turn.capabilityId
            && Lookup(s.activeFrame.value.slots, n) == PriorSlot(RequestOf(cat, s, turn), n)
  {}

  lemma PriorAccounted(cat: Catalog, valid: Validity, start: ReadState, events: seq<Event>, s: ReadState, capabilityId: string, n: string)
    requires s.activeFrame.Some? && FrameAccounted(cat, valid, start, events, s.activeFrame.value)
    requires s.activeFrame.value.capabilityId == capabilityId && n in s.activeFrame.value.slots && Proper(s.activeFrame.value.slots[n])
    ensures Accounted(cat, valid, start, events, capabilityId, s.activeFrame.value.slots[n])
  {}

  lemma TurnAccounts(cat: Catalog, valid: Validity, start: ReadState, events: seq<Event>, e: Event, slot: SlotBinding, i: nat)
    requires e.ReadTurn? && e.turn.capabilityId in cat && i < |cat[e.turn.capabilityId].inputs|
    requires slot.sourceTurnId == e.turn.turnId && slot.value.Some?
    requires var input := cat[e.turn.capabilityId].inputs[i];
             input.name == slot.name && OfferedBy(valid, e.turn.candidates, input, slot.value.value)
    ensures Accounted(cat, valid, start, events + [e], e.turn.capabilityId, slot)
  {
    assert Justifies(cat, valid, e, e.turn.capabilityId, slot);
    assert (events + [e])[|events|] == e;
  }

  lemma FrameAccountedGrows(cat: Catalog, valid: Validity, start: ReadState, events: seq<Event>, e: Event, frame: Frame)
    requires FrameAccounted(cat, valid, start, events, frame)
    ensures FrameAccounted(cat, valid, start, events + [e], frame)
  {
    forall n | n in frame.slots && Proper(frame.slots[n])
      ensures Accounted(cat, valid, start, events + [e], frame.capabilityId, frame.slots[n])
    {
      AccountedGrows(cat, valid, start, events, e, frame.capabilityId, frame.slots[n], frame.slots[n]);
    }
  }

  /** Only a read turn touches the active frame. */
  lemma OnlyReadTurnsTouchTheFrame(cat: Catalog, valid: Validity, s: ReadState, e: Event)
    requires Step(cat, valid, s, e).Some?
    ensures !e.ReadTurn? ==> Step(cat, valid, s, e).value.activeFrame == s.activeFrame
    ensures e.ReadTurn? ==>
              && e.turn.capabilityId in cat && Reduce(valid, RequestOf(cat, s, e.turn)).Ok?
              && Step(cat, valid, s, e).value.activeFrame == Reduced(valid, RequestOf(cat, s, e.turn)).nextState.activeFrame
  {
    hide Reduced;
  }

  lemma RunUnfolds(cat: Catalog, valid: Validity, start: ReadState, init: seq<Event>, e: Event)
    requires Run(cat, valid, start, init + [e]).Some?
    ensures Run(cat, valid, start, init).Some?
    ensures Run(cat, valid, start, init + [e]) == Step(cat, valid, Run(cat, valid, start, init).value, e)
  {
    assert (init + [e])[..|init|] == init;
  }

  lemma StartAccounted(cat: Catalog, valid: Validity, start: ReadState)
    requires start.Valid() && start.activeFrame.Some?
    ensures FrameAccounted(cat, valid, start, [], start.activeFrame.value)
  {}

  /** After any run, every resolved slot of the active frame, migrated ones apart, goes back to a turn of that
      run, or stood in the state the run started from. */
  lemma {:induction false} RunAccounts(cat: Catalog, valid: Validity, start: ReadState, events: seq<Event>)
    requires CatalogOk(cat) && StateOk(cat, start) && EventsOk(events) && Run(cat, valid, start, events).Some?
    requires Run(cat, valid, start, events).value.activeFrame.Some?
    ensures FrameAccounted(cat, valid, start, events, Run(cat, valid, start, events).value.activeFrame.value)
  {
    hide FrameAccounted, Step, Reduced, StateOk;
    if events == [] {
      OkIsValid(cat, start);
      StartAccounted(cat, valid, start);
    } else {
      var init, e := events[..|events| - 1], events[|events| - 1];
      assert events == init + [e];
      RunUnfolds(cat, valid, start, init, e);
      var s := Run(cat, valid, start, init).value;
      RunInvariant(cat, valid, start, init);
      OnlyReadTurnsTouchTheFrame(cat, valid, s, e);
      if s.activeFrame.Some? { RunAccounts(cat, valid, start, init); }
      if e.ReadTurn? {
        assert TurnDataOk(e.turn);
        ReadTurnJustifies(cat, valid, start, init, s, e);
      } else {
        FrameAccountedGrows(cat, valid, start, init, e, s.activeFrame.value);
      }
    }
  }

  lemma OkIsValid(cat: Catalog, s: ReadState)
    requires StateOk(cat, s)
    ensures s.Valid()
  {}

  /** What the gate decides on a turn taken in state `s`. */
  ghost function DecisionAfter(cat: Catalog, valid: Validity, s: ReadState, turn: Turn, authority: Authority): Decision
    requires turn.capabilityId in cat
  {
    var req := RequestOf(cat, s, turn);
    Decide(Some(Reduced(valid, req)), authority, OwnCandidate(req))
  }

  /** The empty state, or a migrated one: nothing in it was established by this system. */
  ghost predicate Unestablished(start: ReadState) {
    start.activeFrame.Some? ==>
      forall n :: n in start.activeFrame.value.slots ==> start.activeFrame.value.slots[n].provenance == INHERITED_LEGACY
  }

  /** Whole-run provenance: whenever a turn of a run is answered by SELECT, each parameter is the value of
      a resolved slot, and that value was offered for that slot by a source other than the model, and was
      valid, in the turn of this run that the slot names, for the same capability. A run that starts from a
      state with established values may also carry such a value over; from the empty state or a migrated one
      there is none to carry. */
  lemma SelectedParametersHaveProvenance(cat: Catalog, valid: Validity, start: ReadState, events: seq<Event>, turn: Turn,
                                         authority: Authority, name: string)
    requires CatalogOk(cat) && StateOk(cat, start) && EventsOk(events) && Run(cat, valid, start, events).Some?
    requires TurnDataOk(turn) && turn.capabilityId in cat
    requires var s := Run(cat, valid, start, events).value;
             && Reduce(valid, RequestOf(cat, s, turn)).Ok?
             && DecisionAfter(cat, valid, s, turn, authority).SELECT?
             && name in DecisionAfter(cat, valid, s, turn, authority).parameters
    ensures var s := Run(cat, valid, start, events).value;
            var decision := DecisionAfter(cat, valid, s, turn, authority);
            var frame := Reduced(valid, RequestOf(cat, s, turn)).nextState.activeFrame.value;
            && decision.capabilityId == turn.capabilityId
            && name in frame.slots && frame.slots[name].name == name
            && frame.slots[name].value == Some(decision.parameters[name])
            && Accounted(cat, valid, start, events + [ReadTurn(turn, NoFollowUp)], turn.capabilityId, frame.slots[name])
            && (Unestablished(start) ==>
                  Justified(cat, valid, events + [ReadTurn(turn, NoFollowUp)], turn.capabilityId, frame.slots[name]))
  {
    hide Reduced, FrameAccounted, Decide, StateOk, Justified, Frame.Valid, SlotsFit;
    var s := Run(cat, valid, start, events).value;
    RunInvariant(cat, valid, start, events);
    if s.activeFrame.Some? { RunAccounts(cat, valid, start, events); }
    ReadTurnJustifies(cat, valid, start, events, s, ReadTurn(turn, NoFollowUp));
    TurnSelectsFromSlots(cat, valid, s, turn, authority, name);
    var frame := Reduced(valid, RequestOf(cat, s, turn)).nextState.activeFrame.value;
    IsAccounted(cat, valid, start, events + [ReadTurn(turn, NoFollowUp)], frame, name);
  }

  lemma IsAccounted(cat: Catalog, valid: Validity, start: ReadState, events: seq<Event>, frame: Frame, n: string)
    requires FrameAccounted(cat, valid, start, events, frame) && n in frame.slots && Proper(frame.slots[n])
    ensures Accounted(cat, valid, start, events, frame.capabilityId, frame.slots[n])
    ensures Unestablished(start) ==> Justified(cat, valid, events, frame.capabilityId, frame.slots[n])
  {}

  lemma TurnSelectsFromSlots(cat: Catalog, valid: Validity, s: ReadState, turn: Turn, authority: Authority, name: string)
    requires CatalogOk(cat) && TurnDataOk(turn) && turn.capabilityId in cat && StateOk(cat, s)
    requires Reduce(valid, RequestOf(cat, s, turn)).Ok?
    requires DecisionAfter(cat, valid, s, turn, authority).SELECT?
    requires name in DecisionAfter(cat, valid, s, turn, authority).parameters
    ensures var decision := DecisionAfter(cat, valid, s, turn, authority);
            var frame := Reduced(valid, RequestOf(cat, s, turn)).nextState.activeFrame.value;
            && decision.capabilityId == turn.capabilityId
            && frame.capabilityId == turn.capabilityId
            && name in frame.slots && Proper(frame.slots[name]) && frame.slots[name].name == name
            && frame.slots[name].value == Some(decision.parameters[name])
  {
    var req := RequestOf(cat, s, turn);
    var r := Reduced(valid, req);
    RequestIsOk(cat, s, turn);
    TurnInvariant(valid, req);
    hide Reduced, StateOk, SlotsFit, Open;
    SelectIsFrameDecision(r, authority, OwnCandidate(req));
    SelectComesFromSlots(r.operation, r.nextState, r.nextState.activeFrame.value, authority, name);
  }

  lemma SelectIsFrameDecision(r: Resolution, authority: Authority, candidates: Option<CapabilityCandidates>)
    requires r.nextState.activeFrame.Some? && Decide(Some(r), authority, candidates).SELECT?
    ensures Decide(Some(r), authority, candidates) ==
            FrameDecision(r.operation, r.nextState, r.nextState.activeFrame.value, authority)
  {}

  /** Whatever card the authority shows, a selected parameter is the value of a resolved slot. */
  lemma SelectComesFromSlots(operation: Operation, state: ReadState, frame: Frame, authority: Authority, name: string)
    requires FrameDecision(operation, state, frame, authority).SELECT?
    requires name in FrameDecision(operation, state, frame, authority).parameters
    ensures var decision := FrameDecision(operation, state, frame, authority);
            && decision.capabilityId == frame.capabilityId && frame.status == READY && state.pending.None?
            && name in frame.slots && frame.slots[name].state == RESOLVED
            && frame.slots[name].value == Some(decision.parameters[name])
  {
    var cards := CardsNamed(authority.cards, frame.capabilityId);
    NeverSelects(cards[0].inputs, frame.slots, |cards[0].inputs|);
    CollectedFromSlots(cards[0].inputs, frame.slots, |cards[0].inputs|, name);
  }

  lemma {:induction false} NeverSelects(inputs: seq<InputDescriptor>, slots: map<string, SlotBinding>, n: nat)
    requires n <= |inputs|
    ensures ParametersUpTo(inputs, slots, n).refused.Some? ==> !ParametersUpTo(inputs, slots, n).refused.value.SELECT?
  {
    if n > 0 { NeverSelects(inputs, slots, n - 1); }
  }

  lemma {:induction false} CollectedFromSlots(inputs: seq<InputDescriptor>, slots: map<string, SlotBinding>, n: nat, name: string)
    requires n <= |inputs| && name in ParametersUpTo(inputs, slots, n).parameters
    ensures name in slots && slots[name].state == RESOLVED
    ensures slots[name].value == Some(ParametersUpTo(inputs, slots, n).parameters[name])
  {
    if n > 0 && name in ParametersUpTo(inputs, slots, n - 1).parameters {
      CollectedFromSlots(inputs, slots, n - 1, name);
    }
  }

  // ---------------------------------------------------------------- non-interference of model output

  ghost predicate SameTurn(a: Turn, b: Turn) {
    SameEvidence(a.candidates, b.candidates) && a == b.(candidates := a.candidates)
  }

  ghost predicate SameEvent(e: Event, f: Event) {
    if e.ReadTurn? then f.ReadTurn? && SameTurn(e.turn, f.turn) && e.followUp == f.followUp else e == f
  }

  /** Two runs that may differ only in what the model proposed along the way. */
  ghost predicate SameRun(a: seq<Event>, b: seq<Event>) {
    |a| == |b| && forall k :: 0 <= k < |a| ==> SameEvent(a[k], b[k])
  }

  lemma StepIgnoresModel(cat: Catalog, valid: Validity, s: ReadState, e: Event, f: Event)
    requires SameEvent(e, f)
    ensures Step(cat, valid, s, e) == Step(cat, valid, s, f)
  {
    hide Reduced, SameEvidence;
    if e.ReadTurn? && e.turn.capabilityId in cat {
      ModelIsAdvisory(valid, RequestOf(cat, s, e.turn), RequestOf(cat, s, f.turn));
    }
  }

  /** Such runs persist the same state after every step. */
  lemma {:induction false} ModelCannotSteer(cat: Catalog, valid: Validity, start: ReadState, a: seq<Event>, b: seq<Event>)
    requires SameRun(a, b)
    ensures Run(cat, valid, start, a) == Run(cat, valid, start, b)
  {
    hide Step, SameEvent;
    if a != [] {
      var initA, initB := a[..|a| - 1], b[..|b| - 1];
      assert SameRun(initA, initB);
      ModelCannotSteer(cat, valid, start, initA, initB);
      if Run(cat, valid, start, initA).Some? {
        StepIgnoresModel(cat, valid, Run(cat, valid, start, initA).value, a[|a| - 1], b[|b| - 1]);
      }
    }
  }

  /** And every turn taken after them is decided alike, with the same parameters. */
  lemma ModelCannotSteerDecisions(cat: Catalog, valid: Validity, start: ReadState, a: seq<Event>, b: seq<Event>, turnA: Turn, turnB: Turn,
                                  authority: Authority)
    requires SameRun(a, b) && SameTurn(turnA, turnB) && Run(cat, valid, start, a).Some? && turnA.capabilityId in cat
    ensures Run(cat, valid, start, b).Some?
    ensures DecisionAfter(cat, valid, Run(cat, valid, start, a).value, turnA, authority) ==
            DecisionAfter(cat, valid, Run(cat, valid, start, b).value, turnB, authority)
  {
    ModelCannotSteer(cat, valid, start, a, b);
    var s := Run(cat, valid, start, a).value;
    ModelIsAdvisory(valid, RequestOf(cat, s, turnA), RequestOf(cat, s, turnB));
  }
}
