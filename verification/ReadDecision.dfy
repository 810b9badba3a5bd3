/** The decision a reduced turn leads to under the server's current authority. */
module ReadDecision {
  import opened Basics
  import opened ReadContext
  import opened Candidates
  import opened Reducer
  import opened ReducerLaws
  import opened ReducerInvariant
  import opened ReducerStatus
  import opened DecisionGate

  type Parameters = map<string, string>

  datatype Decision =
    | SELECT(capabilityId: string, parameters: Parameters)
    | CLARIFY(askedFor: Option<string>, missing: seq<string>)
    | REJECT(errorType: string)
    | SHOW_OPTIONS(options: seq<string>)
    | ESCALATE_TO_PLANNER

  datatype Purpose = AMBIGUITY | MULTI_GOAL

  datatype CapabilityCandidates = CapabilityCandidates(capabilityIds: seq<string>, snapshotId: string, purpose: Purpose)

  predicate ExecutableRead(card: Card, authority: Authority) {
    && card.registrySnapshotId == authority.snapshotId
    && card.capabilityId in authority.capabilityIds
    && card.sideEffect == "none" && !card.requiresApproval && card.dataClassification == "internal"
  }

  function CardsNamed(cards: seq<Card>, id: string): seq<Card> {
    if cards == [] then []
    else (if cards[0].capabilityId == id then [cards[0]] else []) + CardsNamed(cards[1..], id)
  }

  // ---------------------------------------------------------------- candidate capabilities

  function Firsts(ids: seq<string>): seq<string> { AppendAllUnique([], ids) }

  predicate Unrepeated(ids: seq<string>) { forall i, j | 0 <= i < j < |ids| :: ids[i] != ids[j] }

  predicate UniquelyExecutable(authority: Authority, id: string) {
    var matching := CardsNamed(authority.cards, id);
    |matching| == 1 && ExecutableRead(matching[0], authority)
  }

  /** `None` lets the turn go on to its frame. */
  function CandidateDecision(candidates: Option<CapabilityCandidates>, authority: Authority): Option<Decision> {
    if candidates.None? then None
    else
      var c := candidates.value;
      if c.snapshotId != authority.snapshotId then Some(REJECT("CONTEXT_SNAPSHOT_DRIFT"))
      else if c.purpose == AMBIGUITY && !Unrepeated(c.capabilityIds) then Some(REJECT("CONTEXT_CANDIDATE_DUPLICATE"))
      else if exists i | 0 <= i < |Firsts(c.capabilityIds)| :: !UniquelyExecutable(authority, Firsts(c.capabilityIds)[i]) then
        Some(REJECT("READ_CONTEXT_VISIBILITY_DENIED"))
      else if c.purpose == MULTI_GOAL then Some(ESCALATE_TO_PLANNER)
      else if |Firsts(c.capabilityIds)| > 1 then Some(SHOW_OPTIONS(Firsts(c.capabilityIds)))
      else None
  }

  // ---------------------------------------------------------------- fields to ask for, parameters to run with

  predicate NeedsAnswer(input: InputDescriptor, slots: map<string, SlotBinding>) {
    || (input.required && !ResolvedIn(slots, input.name))
    || (input.name in slots && slots[input.name].state == CONFLICTED)
  }

  /** The fields a clarification names, after the first `n` inputs. */
  function FieldsUpTo(inputs: seq<InputDescriptor>, slots: map<string, SlotBinding>, n: nat): seq<string>
    requires n <= |inputs|
  {
    if n == 0 then []
    else
      var fields := FieldsUpTo(inputs, slots, n - 1);
      var input := inputs[n - 1];
      var withRequired := if input.required && !ResolvedIn(slots, input.name) then fields + [input.name] else fields;
      if input.name in slots && slots[input.name].state == CONFLICTED then AppendUnique(withRequired, input.name)
      else withRequired
  }

  datatype Building = Building(parameters: Parameters, refused: Option<Decision>)

  /** The parameters collected from the first `n` inputs, or the refusal that stopped the collection. */
  function ParametersUpTo(inputs: seq<InputDescriptor>, slots: map<string, SlotBinding>, n: nat): Building
    requires n <= |inputs|
  {
    if n == 0 then Building(map[], None)
    else
      var before := ParametersUpTo(inputs, slots, n - 1);
      var input := inputs[n - 1];
      var slot := Lookup(slots, input.name);
      var usable := slot.Some? && slot.value.state == RESOLVED && slot.value.value.Some?;
      if before.refused.Some? then before
      else if input.required && !usable then before.(refused := Some(CLARIFY(None, [])))
      else if slot.None? then before
      else if !usable then before.(refused := Some(REJECT("CONTEXT_SLOT_INVALID")))
      else if slot.value.provenance == MODEL_CANDIDATE then before.(refused := Some(REJECT("CONTEXT_MODEL_CANDIDATE")))
      else before.(parameters := before.parameters[input.name := slot.value.value.value])
  }

  method ClarificationFields(inputs: seq<InputDescriptor>, slots: map<string, SlotBinding>) returns (fields: seq<string>)
    ensures fields == FieldsUpTo(inputs, slots, |inputs|)
  {
    fields := [];
    for i := 0 to |inputs|
      invariant fields == FieldsUpTo(inputs, slots, i)
    {
      if inputs[i].required && !ResolvedIn(slots, inputs[i].name) { fields := fields + [inputs[i].name]; }
      if inputs[i].name in slots && slots[inputs[i].name].state == CONFLICTED {
        fields := AppendUnique(fields, inputs[i].name);
      }
    }
  }

  method BuildParameters(inputs: seq<InputDescriptor>, slots: map<string, SlotBinding>) returns (b: Building)
    ensures b == ParametersUpTo(inputs, slots, |inputs|)
  {
    b := Building(map[], None);
    for i := 0 to |inputs|
      invariant b == ParametersUpTo(inputs, slots, i) && b.refused.None?
    {
      var slot := Lookup(slots, inputs[i].name);
      var usable := slot.Some? && slot.value.state == RESOLVED && slot.value.value.Some?;
      if inputs[i].required && !usable {
        b := b.(refused := Some(CLARIFY(None, [])));
      } else if slot.Some? {
        if !usable {
          b := b.(refused := Some(REJECT("CONTEXT_SLOT_INVALID")));
        } else if slot.value.provenance == MODEL_CANDIDATE {
          b := b.(refused := Some(REJECT("CONTEXT_MODEL_CANDIDATE")));
        } else {
          b := b.(parameters := b.parameters[inputs[i].name := slot.value.value.value]);
        }
      }
      if b.refused.Some? {
        RefusalSticks(inputs, slots, i + 1, |inputs|);
        return;
      }
    }
  }

  lemma {:induction false} RefusalSticks(inputs: seq<InputDescriptor>, slots: map<string, SlotBinding>, n: nat, m: nat)
    requires n <= m <= |inputs| && ParametersUpTo(inputs, slots, n).refused.Some?
    ensures ParametersUpTo(inputs, slots, m) == ParametersUpTo(inputs, slots, n)
  {
    if n < m { RefusalSticks(inputs, slots, n, m - 1); }
  }

  // ---------------------------------------------------------------- the decision

  predicate HasUnregisteredSlot(inputs: seq<InputDescriptor>, slots: map<string, SlotBinding>) {
    exists n | n in slots :: FindInput(inputs, n).None?
  }

  function FrameDecision(operation: Operation, state: ReadState, frame: Frame, authority: Authority): Decision {
    var cards := CardsNamed(authority.cards, frame.capabilityId);
    if frame.registrySnapshotId != authority.snapshotId then REJECT("CONTEXT_SNAPSHOT_DRIFT")
    else if |cards| != 1 then REJECT("VISIBILITY_DENIED")
    else if !ExecutableRead(cards[0], authority) then REJECT("READ_CONTEXT_VISIBILITY_DENIED")
    else if HasUnregisteredSlot(cards[0].inputs, frame.slots) then REJECT("CONTEXT_TECHNICAL_FIELD")
    else if operation == NEW_MULTI_GOAL then ESCALATE_TO_PLANNER
    else if frame.status != READY || state.pending.Some? then
      CLARIFY(Some(frame.capabilityId), FieldsUpTo(cards[0].inputs, frame.slots, |cards[0].inputs|))
    else
      var built := ParametersUpTo(cards[0].inputs, frame.slots, |cards[0].inputs|);
      if built.refused.Some? then built.refused.value else SELECT(frame.capabilityId, built.parameters)
  }

  function Decide(resolution: Option<Resolution>, authority: Authority,
                  candidates: Option<CapabilityCandidates>): Decision
  {
    var early := CandidateDecision(candidates, authority);
    if early.Some? then early.value
    else if resolution.None? || resolution.value.nextState.activeFrame.None? then CLARIFY(None, [])
    else FrameDecision(resolution.value.operation, resolution.value.nextState,
                       resolution.value.nextState.activeFrame.value, authority)
  }

  // ---------------------------------------------------------------- what is read off a frame

  lemma {:induction false} FieldsAreExactlyUnanswered(inputs: seq<InputDescriptor>, slots: map<string, SlotBinding>, n: nat)
    requires NamesDistinct(inputs) && n <= |inputs|
    ensures forall f :: f in FieldsUpTo(inputs, slots, n) <==>
              exists i :: 0 <= i < n && inputs[i].name == f && NeedsAnswer(inputs[i], slots)
    ensures Distinct(FieldsUpTo(inputs, slots, n))
  {
    if n > 0 {
      FieldsAreExactlyUnanswered(inputs, slots, n - 1);
      assert inputs[n - 1].name !in FieldsUpTo(inputs, slots, n - 1);
      FieldsStep(inputs, slots, n);
      var before := FieldsUpTo(inputs, slots, n - 1);
      assert forall k :: 0 <= k < |before| ==> before[k] in before;
    }
  }

  lemma FieldsStep(inputs: seq<InputDescriptor>, slots: map<string, SlotBinding>, n: nat)
    requires 0 < n <= |inputs| && inputs[n - 1].name !in FieldsUpTo(inputs, slots, n - 1)
    ensures FieldsUpTo(inputs, slots, n) == FieldsUpTo(inputs, slots, n - 1)
              + (if NeedsAnswer(inputs[n - 1], slots) then [inputs[n - 1].name] else [])
  {}

  /** Slots whose values may be sent to an executor. */
  ghost predicate AllUsable(slots: map<string, SlotBinding>) {
    forall n :: n in slots ==> slots[n].state == RESOLVED && slots[n].value.Some? && slots[n].provenance != MODEL_CANDIDATE
  }

  lemma {:induction false} ParametersAreExactlyTheSlots(inputs: seq<InputDescriptor>, slots: map<string, SlotBinding>, n: nat)
    requires n <= |inputs| && AllUsable(slots)
    requires forall i :: 0 <= i < n && inputs[i].required ==> inputs[i].name in slots
    ensures ParametersUpTo(inputs, slots, n).refused.None?
    ensures forall p :: p in ParametersUpTo(inputs, slots, n).parameters <==>
              p in slots && exists i :: 0 <= i < n && inputs[i].name == p
    ensures forall p :: p in ParametersUpTo(inputs, slots, n).parameters ==>
              slots[p].value == Some(ParametersUpTo(inputs, slots, n).parameters[p])
  {
    if n > 0 {
      ParametersAreExactlyTheSlots(inputs, slots, n - 1);
      var before, after := ParametersUpTo(inputs, slots, n - 1), ParametersUpTo(inputs, slots, n);
      assert inputs[n - 1].name in slots || after == before;
    }
  }

  lemma {:induction false} FindInputFinds(inputs: seq<InputDescriptor>, name: string)
    ensures FindInput(inputs, name).Some? <==> exists i :: 0 <= i < |inputs| && inputs[i].name == name
  {
    if inputs != [] {
      FindInputFinds(inputs[1..], name);
      if i :| 0 < i < |inputs| && inputs[i].name == name { assert inputs[1..][i - 1].name == name; }
      if i :| 0 <= i < |inputs[1..]| && inputs[1..][i].name == name { assert inputs[i + 1].name == name; }
    }
  }

  // ---------------------------------------------------------------- exactness of the gate

  /** The turn's capability has one visible card, it is executable, and it declares the turn's inputs. */
  ghost predicate Authorises(authority: Authority, req: Request) {
    && authority.snapshotId == req.snapshotId
    && UniquelyExecutable(authority, req.descriptor.capabilityId)
    && CardsNamed(authority.cards, req.descriptor.capabilityId)[0].inputs == req.descriptor.inputs
  }

  /** The candidate set the orchestrator passes along with a reduced turn. */
  function OwnCandidate(req: Request): Option<CapabilityCandidates> {
    Some(CapabilityCandidates([req.descriptor.capabilityId], req.snapshotId, AMBIGUITY))
  }

  function SlotValues(slots: map<string, SlotBinding>): Parameters {
    map n | n in slots && slots[n].value.Some? :: slots[n].value.value
  }

  lemma OwnCandidatePasses(authority: Authority, req: Request)
    requires Authorises(authority, req)
    ensures CandidateDecision(OwnCandidate(req), authority).None?
  {
    AppendOneUnique([], req.descriptor.capabilityId);
    assert Firsts([req.descriptor.capabilityId]) == [req.descriptor.capabilityId];
  }

  lemma NeverMultiGoal(valid: Validity, req: Request)
    ensures Reduced(valid, req).operation != NEW_MULTI_GOAL
  {}

  ghost predicate ReadyFrame(d: CapabilityDescriptor, state: ReadState, frame: Frame) {
    && state.pending.None?
    && (forall n :: n in frame.slots ==> frame.slots[n].state == RESOLVED)
    && (forall i :: 0 <= i < |d.inputs| && d.inputs[i].required ==> d.inputs[i].name in frame.slots)
  }

  ghost predicate AllDeclared(d: CapabilityDescriptor, slots: map<string, SlotBinding>) {
    forall n :: n in slots ==> Declared(d, n)
  }

  ghost predicate HoldsModelGuess(slots: map<string, SlotBinding>) {
    exists n :: n in slots && slots[n].provenance == MODEL_CANDIDATE
  }

  /** A clarification of this capability naming exactly the inputs that are required but unresolved, or
      in conflict. */
  ghost predicate AsksForExactly(decision: Decision, d: CapabilityDescriptor, slots: map<string, SlotBinding>) {
    && decision.CLARIFY? && decision.askedFor == Some(d.capabilityId)
    && forall f :: f in decision.missing <==>
         exists i :: 0 <= i < |d.inputs| && d.inputs[i].name == f && NeedsAnswer(d.inputs[i], slots)
  }

  lemma UnregisteredExactly(d: CapabilityDescriptor, slots: map<string, SlotBinding>)
    ensures HasUnregisteredSlot(d.inputs, slots) <==> !AllDeclared(d, slots)
  {
    forall n | n in slots ensures FindInput(d.inputs, n).Some? <==> Declared(d, n) { FindInputFinds(d.inputs, n); }
  }

  /** Among resolved slots the only refusal is for a model guess. */
  lemma {:induction false} GuessesAreRefused(inputs: seq<InputDescriptor>, slots: map<string, SlotBinding>, n: nat)
    requires n <= |inputs|
    requires forall k :: k in slots ==> slots[k].state == RESOLVED && slots[k].value.Some?
    requires forall i :: 0 <= i < n && inputs[i].required ==> inputs[i].name in slots
    ensures ParametersUpTo(inputs, slots, n).refused ==
            if exists i :: 0 <= i < n && inputs[i].name in slots && slots[inputs[i].name].provenance == MODEL_CANDIDATE
            then Some(REJECT("CONTEXT_MODEL_CANDIDATE")) else None
  {
    if n > 0 { GuessesAreRefused(inputs, slots, n - 1); }
  }

  /** What the gate decides for any frame of a capability the authority lets run: an undeclared slot is
      refused; a READY frame is selected with exactly its slot values, or refused if it holds a model guess;
      for every other frame exactly what is unanswered is asked for. */
  lemma FrameDecisionIsExact(d: CapabilityDescriptor, operation: Operation, state: ReadState, frame: Frame, authority: Authority)
    requires NamesDistinct(d.inputs) && frame.Valid() && frame.capabilityId == d.capabilityId
    requires operation != NEW_MULTI_GOAL
    requires authority.snapshotId == frame.registrySnapshotId && UniquelyExecutable(authority, d.capabilityId)
    requires CardsNamed(authority.cards, d.capabilityId)[0].inputs == d.inputs
    requires frame.status == READY ==> ReadyFrame(d, state, frame)
    ensures var decision := FrameDecision(operation, state, frame, authority);
            if !AllDeclared(d, frame.slots) then decision == REJECT("CONTEXT_TECHNICAL_FIELD")
            else if frame.status != READY then AsksForExactly(decision, d, frame.slots)
            else if HoldsModelGuess(frame.slots) then decision == REJECT("CONTEXT_MODEL_CANDIDATE")
            else decision == SELECT(d.capabilityId, SlotValues(frame.slots))
  {
    hide FieldsUpTo, ParametersUpTo, CardsNamed, HasUnregisteredSlot, ExecutableRead, AllDeclared, HoldsModelGuess, SlotValues, NeedsAnswer;
    var inputs := d.inputs;
    UnregisteredExactly(d, frame.slots);
    FieldsAreExactlyUnanswered(inputs, frame.slots, |inputs|);
    if frame.status == READY && AllDeclared(d, frame.slots) { ReadyParameters(d, frame.slots); }
  }

  lemma ReadyParameters(d: CapabilityDescriptor, slots: map<string, SlotBinding>)
    requires AllDeclared(d, slots) && forall n :: n in slots ==> slots[n].state == RESOLVED && slots[n].value.Some?
    requires forall i :: 0 <= i < |d.inputs| && d.inputs[i].required ==> d.inputs[i].name in slots
    ensures ParametersUpTo(d.inputs, slots, |d.inputs|).refused ==
            if HoldsModelGuess(slots) then Some(REJECT("CONTEXT_MODEL_CANDIDATE")) else None
    ensures !HoldsModelGuess(slots) ==> ParametersUpTo(d.inputs, slots, |d.inputs|).parameters == SlotValues(slots)
  {
    hide ParametersUpTo;
    GuessesAreRefused(d.inputs, slots, |d.inputs|);
    if HoldsModelGuess(slots) {
      var n :| n in slots && slots[n].provenance == MODEL_CANDIDATE;
      assert Declared(d, n);
    } else {
      ParametersAreExactlyTheSlots(d.inputs, slots, |d.inputs|);
      assert ParametersUpTo(d.inputs, slots, |d.inputs|).parameters == SlotValues(slots);
    }
  }

  /** For a turn the server authorises, the gate selects exactly when the frame is READY, and then runs
      with exactly the values of the frame's slots, which cover every required input. Otherwise it asks,
      and asks for exactly what is unanswered, unless a migrated slot is no input of the capability. */
  lemma GateIsExact(valid: Validity, req: Request, authority: Authority)
    requires TurnOk(req) && PriorOk(req) && Reduce(valid, req).Ok? && Authorises(authority, req)
    ensures var frame := Reduced(valid, req).nextState.activeFrame.value;
            var decision := Decide(Some(Reduced(valid, req)), authority, OwnCandidate(req));
            && (frame.status == READY ==>
                  && decision == SELECT(req.descriptor.capabilityId, SlotValues(frame.slots))
                  && (forall i :: 0 <= i < |req.descriptor.inputs| && req.descriptor.inputs[i].required ==>
                        req.descriptor.inputs[i].name in decision.parameters))
            && (frame.status != READY ==>
                  if AllDeclared(req.descriptor, frame.slots) then AsksForExactly(decision, req.descriptor, frame.slots)
                  else decision == REJECT("CONTEXT_TECHNICAL_FIELD"))
  {
    hide Reduced, Open, CardsNamed, FrameDecision, SlotsFit, Frame.Valid, HoldsModelGuess, AllDeclared;
    var r := Reduced(valid, req);
    TurnInvariant(valid, req);
    OwnCandidatePasses(authority, req);
    NeverMultiGoal(valid, req);
    if r.nextState.activeFrame.value.status == READY { ReadyNamesInputs(valid, req); }
    FrameDecisionIsExact(req.descriptor, r.operation, r.nextState, r.nextState.activeFrame.value, authority);
  }

  /** A READY frame of a turn holds slots of declared inputs only, and no model guess. */
  lemma ReadyNamesInputs(valid: Validity, req: Request)
    requires TurnOk(req) && PriorOk(req) && Reduced(valid, req).nextState.activeFrame.value.status == READY
    ensures var slots := Reduced(valid, req).nextState.activeFrame.value.slots;
            && AllDeclared(req.descriptor, slots) && !HoldsModelGuess(slots)
            && forall n :: n in slots ==> slots[n].value.Some?
  {
    ReadyExactlyWhen(valid, req);
    var slots := Reduced(valid, req).nextState.activeFrame.value.slots;
    assert slots == LoopEnd(valid, req).slots;
    hide Reduced, Open, LoopEnd;
    forall n | n in slots ensures Declared(req.descriptor, n) && slots[n].value.Some? && slots[n].provenance != MODEL_CANDIDATE {
      ReadySlotsAreUsable(valid, req, n);
    }
  }

  // ---------------------------------------------------------------- fail closed

  lemma {:induction false} FirstsAre(values: seq<string>, ids: seq<string>)
    requires Distinct(values)
    ensures Distinct(AppendAllUnique(values, ids)) && values <= AppendAllUnique(values, ids)
    ensures forall id :: id in AppendAllUnique(values, ids) <==> id in values || id in ids
    decreases |ids|
  {
    if ids != [] {
      FirstsAre(AppendUnique(values, ids[0]), ids[1..]);
      assert forall id :: id in ids <==> id == ids[0] || id in ids[1..];
    }
  }

  /** Candidates of another snapshot, candidates the ambiguity step repeats and candidates that are not
      uniquely executable are refused, each with its own error, before anything else is looked at. */
  lemma CandidatesFailClosed(resolution: Option<Resolution>, authority: Authority, c: CapabilityCandidates)
    ensures var decision := Decide(resolution, authority, Some(c));
            && (c.snapshotId != authority.snapshotId ==> decision == REJECT("CONTEXT_SNAPSHOT_DRIFT"))
            && (c.snapshotId == authority.snapshotId && c.purpose == AMBIGUITY && !Distinct(c.capabilityIds) ==>
                  decision == REJECT("CONTEXT_CANDIDATE_DUPLICATE"))
            && (c.snapshotId == authority.snapshotId && (c.purpose == AMBIGUITY ==> Distinct(c.capabilityIds))
                && (exists id :: id in c.capabilityIds && !UniquelyExecutable(authority, id)) ==>
                  decision == REJECT("READ_CONTEXT_VISIBILITY_DENIED"))
  {
    FirstsAre([], c.capabilityIds);
    if id :| id in c.capabilityIds && !UniquelyExecutable(authority, id) {
      assert id in Firsts(c.capabilityIds);
      var i :| 0 <= i < |Firsts(c.capabilityIds)| && Firsts(c.capabilityIds)[i] == id;
    }
  }

  /** Whatever was reduced, only uniquely executable capabilities of the current snapshot are offered,
      escalated, asked about or selected: options are exactly the distinct candidates, at least two of them. */
  lemma OnlyExecutableIsNamed(resolution: Option<Resolution>, authority: Authority, candidates: Option<CapabilityCandidates>)
    ensures var decision := Decide(resolution, authority, candidates);
            && (decision.SHOW_OPTIONS? ==>
                  && candidates.Some? && candidates.value.purpose == AMBIGUITY && |decision.options| > 1 && Distinct(decision.options)
                  && (forall id :: id in decision.options <==> id in candidates.value.capabilityIds)
                  && (forall id :: id in decision.options ==> UniquelyExecutable(authority, id)))
            && (decision.SELECT? ==> UniquelyExecutable(authority, decision.capabilityId))
            && (decision.CLARIFY? && decision.askedFor.Some? ==> UniquelyExecutable(authority, decision.askedFor.value))
            && (!decision.REJECT? && candidates.Some? ==>
                  candidates.value.snapshotId == authority.snapshotId
                  && forall id :: id in candidates.value.capabilityIds ==> UniquelyExecutable(authority, id))
  {
    if candidates.Some? {
      var c := candidates.value;
      FirstsAre([], c.capabilityIds);
      var firsts := Firsts(c.capabilityIds);
      CandidatesFailClosed(resolution, authority, c);
      assert forall id :: id in firsts <==> id in c.capabilityIds;
    }
    FrameNamesExecutable(resolution, authority);
    hide FrameDecision, UniquelyExecutable, AppendAllUnique;
  }

  lemma FrameNamesExecutable(resolution: Option<Resolution>, authority: Authority)
    ensures resolution.Some? && resolution.value.nextState.activeFrame.Some? ==>
              var frame := resolution.value.nextState.activeFrame.value;
              var decision := FrameDecision(resolution.value.operation, resolution.value.nextState, frame, authority);
              && !decision.SHOW_OPTIONS?
              && (decision.SELECT? ==> UniquelyExecutable(authority, decision.capabilityId))
              && (decision.CLARIFY? && decision.askedFor.Some? ==> UniquelyExecutable(authority, decision.askedFor.value))
  {
    if resolution.Some? && resolution.value.nextState.activeFrame.Some? {
      var frame := resolution.value.nextState.activeFrame.value;
      var cards := CardsNamed(authority.cards, frame.capabilityId);
      if |cards| == 1 { RefusalKinds(cards[0].inputs, frame.slots, |cards[0].inputs|); }
    }
  }

  /** Parameter collection stops with a refusal or a clarification that names no capability. */
  lemma {:induction false} RefusalKinds(inputs: seq<InputDescriptor>, slots: map<string, SlotBinding>, n: nat)
    requires n <= |inputs|
    ensures var refused := ParametersUpTo(inputs, slots, n).refused;
            refused.Some? ==> refused.value.REJECT? || refused.value == CLARIFY(None, [])
  {
    if n > 0 { RefusalKinds(inputs, slots, n - 1); }
  }
}
