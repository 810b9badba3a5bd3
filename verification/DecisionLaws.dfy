/** Every decision of the gate exactly when it is made, told from the cards, the candidates and the slots. */
module DecisionLaws {
  import opened Basics
  import opened ReadContext
  import opened Candidates
  import opened Reducer
  import opened ReducerLaws
  import opened ReducerInvariant
  import opened DecisionGate
  import opened ReadDecision

  // ---------------------------------------------------------------- what may run

  ghost predicate OnlyCardAt(cards: seq<Card>, id: string, j: nat) {
    && j < |cards| && cards[j].capabilityId == id
    && forall k :: 0 <= k < |cards| && k != j ==> cards[k].capabilityId != id
  }

  /** The only card of this capability. */
  ghost predicate OnlyCard(authority: Authority, id: string, card: Card) {
    exists j: nat :: OnlyCardAt(authority.cards, id, j) && authority.cards[j] == card
  }

  /** It is of the current snapshot, in the executable set, without side effect or approval, and internal. */
  ghost predicate MayRun(authority: Authority, id: string, card: Card) {
    && OnlyCard(authority, id, card)
    && card.registrySnapshotId == authority.snapshotId && id in authority.capabilityIds
    && card.sideEffect == "none" && !card.requiresApproval && card.dataClassification == "internal"
  }

  ghost predicate Runnable(authority: Authority, id: string) { exists card :: MayRun(authority, id, card) }

  lemma {:induction false} NoneNamed(cards: seq<Card>, id: string)
    ensures CardsNamed(cards, id) == [] <==> forall k :: 0 <= k < |cards| ==> cards[k].capabilityId != id
  {
    if cards != [] {
      NoneNamed(cards[1..], id);
      assert forall k :: 0 < k < |cards| ==> cards[k] == cards[1..][k - 1];
    }
  }

  lemma {:induction false} OneNamed(cards: seq<Card>, id: string, j: nat)
    requires OnlyCardAt(cards, id, j)
    ensures CardsNamed(cards, id) == [cards[j]]
  {
    if j == 0 {
      NoneNamed(cards[1..], id);
    } else {
      assert forall k :: 0 <= k < |cards[1..]| ==> cards[1..][k] == cards[k + 1];
      OneNamed(cards[1..], id, j - 1);
    }
  }

  lemma {:induction false} NamedOnce(cards: seq<Card>, id: string) returns (j: nat)
    requires |CardsNamed(cards, id)| == 1
    ensures OnlyCardAt(cards, id, j)
  {
    if cards[0].capabilityId == id {
      NoneNamed(cards[1..], id);
      j := 0;
      assert forall k :: 0 < k < |cards| ==> cards[k] == cards[1..][k - 1];
    } else {
      var i := NamedOnce(cards[1..], id);
      j := i + 1;
      assert forall k :: 0 < k < |cards| ==> cards[k] == cards[1..][k - 1];
    }
  }

  lemma OnlyCardExactly(authority: Authority, id: string)
    ensures |CardsNamed(authority.cards, id)| == 1 <==> exists card :: OnlyCard(authority, id, card)
    ensures forall card :: OnlyCard(authority, id, card) <==> CardsNamed(authority.cards, id) == [card]
  {
    hide CardsNamed;
    if |CardsNamed(authority.cards, id)| == 1 {
      var j := NamedOnce(authority.cards, id);
      OneNamed(authority.cards, id, j);
      assert OnlyCard(authority, id, authority.cards[j]);
    }
    forall card | OnlyCard(authority, id, card) ensures CardsNamed(authority.cards, id) == [card] {
      var j: nat :| OnlyCardAt(authority.cards, id, j) && authority.cards[j] == card;
      OneNamed(authority.cards, id, j);
    }
  }

  lemma RunnableExactly(authority: Authority, id: string)
    ensures UniquelyExecutable(authority, id) <==> Runnable(authority, id)
  {
    hide CardsNamed, OnlyCard;
    OnlyCardExactly(authority, id);
    if UniquelyExecutable(authority, id) {
      var card := CardsNamed(authority.cards, id)[0];
      assert CardsNamed(authority.cards, id) == [card];
      NamedIs(authority, id, card);
      assert MayRun(authority, id, card);
    }
    if Runnable(authority, id) {
      var card :| MayRun(authority, id, card);
      NamedIs(authority, id, card);
    }
  }

  lemma NamedIs(authority: Authority, id: string, card: Card)
    requires OnlyCard(authority, id, card)
    ensures card.capabilityId == id
  {}

  // ---------------------------------------------------------------- the candidates

  /** The candidates let the frame decide: there are none, or at most one, which may run now. */
  ghost predicate LeavesToFrame(authority: Authority, candidates: Option<CapabilityCandidates>) {
    candidates.None?
    || (&& candidates.value.snapshotId == authority.snapshotId && candidates.value.purpose == AMBIGUITY
        && |candidates.value.capabilityIds| <= 1
        && forall id :: id in candidates.value.capabilityIds ==> Runnable(authority, id))
  }

  lemma {:induction false} FirstsOfDistinct(values: seq<string>, ids: seq<string>)
    requires Distinct(values + ids)
    ensures AppendAllUnique(values, ids) == values + ids
    decreases |ids|
  {
    if ids != [] {
      FirstIsNew(values, ids);
      assert values + [ids[0]] + ids[1..] == values + ids;
      FirstsOfDistinct(values + [ids[0]], ids[1..]);
    } else {
      assert values + ids == values;
    }
  }

  lemma FirstIsNew(values: seq<string>, ids: seq<string>)
    requires ids != []
    ensures Distinct(values + ids) ==> ids[0] !in values
  {
    if ids[0] in values {
      var i :| 0 <= i < |values| && values[i] == ids[0];
      assert (values + ids)[i] == (values + ids)[|values|];
    }
  }

  /** What the candidates decide, and in which order they are offered. */
  lemma CandidatesExactly(authority: Authority, c: CapabilityCandidates)
    ensures CandidateDecision(Some(c), authority) ==
            if c.snapshotId != authority.snapshotId then Some(REJECT("CONTEXT_SNAPSHOT_DRIFT"))
            else if c.purpose == AMBIGUITY && !Distinct(c.capabilityIds) then Some(REJECT("CONTEXT_CANDIDATE_DUPLICATE"))
            else if exists id :: id in c.capabilityIds && !Runnable(authority, id) then Some(REJECT("READ_CONTEXT_VISIBILITY_DENIED"))
            else if c.purpose == MULTI_GOAL then Some(ESCALATE_TO_PLANNER)
            else if |c.capabilityIds| >= 2 then Some(SHOW_OPTIONS(c.capabilityIds))
            else None
  {
    hide UniquelyExecutable, Runnable, AppendAllUnique, Distinct;
    var ids, firsts := c.capabilityIds, Firsts(c.capabilityIds);
    FirstsAreTheIds(ids);
    if exists i :: 0 <= i < |firsts| && !UniquelyExecutable(authority, firsts[i]) {
      var i :| 0 <= i < |firsts| && !UniquelyExecutable(authority, firsts[i]);
      RunnableExactly(authority, firsts[i]);
      assert firsts[i] in firsts;
    }
    if id :| id in ids && !Runnable(authority, id) {
      RunnableExactly(authority, id);
      var i :| 0 <= i < |firsts| && firsts[i] == id;
    }
    UnrepeatedIsDistinct(ids);
  }

  lemma FirstsAreTheIds(ids: seq<string>)
    ensures forall id :: id in Firsts(ids) <==> id in ids
    ensures Distinct(ids) ==> Firsts(ids) == ids
  {
    FirstsAre([], ids);
    assert [] + ids == ids;
    if Distinct(ids) { FirstsOfDistinct([], ids); }
  }

  lemma UnrepeatedIsDistinct(ids: seq<string>)
    ensures Unrepeated(ids) <==> Distinct(ids)
  {}

  /** Options are shown exactly when several distinct candidates of the current snapshot may run and one of them
      is meant; they are the candidates, in their order. */
  lemma ShownExactly(resolution: Option<Resolution>, authority: Authority, candidates: Option<CapabilityCandidates>, options: seq<string>)
    ensures Decide(resolution, authority, candidates) == SHOW_OPTIONS(options) <==>
            && candidates.Some? && candidates.value.snapshotId == authority.snapshotId && candidates.value.purpose == AMBIGUITY
            && candidates.value.capabilityIds == options && Distinct(options) && |options| >= 2
            && forall id :: id in options ==> Runnable(authority, id)
  {
    hide FrameDecision, CandidateDecision, Runnable;
    if candidates.Some? { CandidatesExactly(authority, candidates.value); }
    NoCandidates(authority);
    FrameNamesExecutable(resolution, authority);
  }

  lemma NoCandidates(authority: Authority)
    ensures CandidateDecision(None, authority).None?
  {}

  /** A turn goes to the planner exactly when several goals were found that may all run, or when its frame was
      reduced as one of several goals. */
  lemma EscalatedExactly(resolution: Option<Resolution>, authority: Authority, candidates: Option<CapabilityCandidates>)
    ensures Decide(resolution, authority, candidates) == ESCALATE_TO_PLANNER <==>
            || (&& candidates.Some? && candidates.value.snapshotId == authority.snapshotId && candidates.value.purpose == MULTI_GOAL
                && forall id :: id in candidates.value.capabilityIds ==> Runnable(authority, id))
            || (&& LeavesToFrame(authority, candidates) && resolution.Some? && resolution.value.nextState.activeFrame.Some?
                && resolution.value.operation == NEW_MULTI_GOAL
                && var frame := resolution.value.nextState.activeFrame.value;
                && frame.registrySnapshotId == authority.snapshotId
                && exists card :: MayRun(authority, frame.capabilityId, card) && RegistersAll(card.inputs, frame.slots))
  {
    hide FrameDecision, CandidateDecision, Runnable, RegistersAll, MayRun;
    if candidates.Some? { CandidatesExactly(authority, candidates.value); AtMostOneIsDistinct(candidates.value.capabilityIds); }
    NoCandidates(authority);
    if resolution.Some? && resolution.value.nextState.activeFrame.Some? {
      FrameEscalates(resolution.value.operation, resolution.value.nextState, resolution.value.nextState.activeFrame.value, authority);
    }
  }

  lemma AtMostOneIsDistinct(ids: seq<string>)
    ensures |ids| <= 1 ==> Distinct(ids)
  {}

  // ---------------------------------------------------------------- the frame

  /** Every slot belongs to an input of the card. */
  ghost predicate RegistersAll(inputs: seq<InputDescriptor>, slots: map<string, SlotBinding>) {
    forall n :: n in slots ==> exists i :: 0 <= i < |inputs| && inputs[i].name == n
  }

  lemma RegisteredExactly(inputs: seq<InputDescriptor>, slots: map<string, SlotBinding>)
    ensures HasUnregisteredSlot(inputs, slots) <==> !RegistersAll(inputs, slots)
  {
    forall n ensures FindInput(inputs, n).Some? <==> exists i :: 0 <= i < |inputs| && inputs[i].name == n { FindInputFinds(inputs, n); }
  }

  /** The card the frame is decided by. */
  ghost predicate Governs(authority: Authority, frame: Frame, card: Card) {
    && frame.registrySnapshotId == authority.snapshotId
    && MayRun(authority, frame.capabilityId, card) && RegistersAll(card.inputs, frame.slots)
  }

  lemma GovernedFrame(operation: Operation, state: ReadState, frame: Frame, authority: Authority, card: Card)
    requires Governs(authority, frame, card)
    ensures FrameDecision(operation, state, frame, authority) ==
            if operation == NEW_MULTI_GOAL then ESCALATE_TO_PLANNER
            else if frame.status != READY || state.pending.Some? then
              CLARIFY(Some(frame.capabilityId), FieldsUpTo(card.inputs, frame.slots, |card.inputs|))
            else
              var built := ParametersUpTo(card.inputs, frame.slots, |card.inputs|);
              if built.refused.Some? then built.refused.value else SELECT(frame.capabilityId, built.parameters)
  {
    hide CardsNamed, OnlyCard, FieldsUpTo, ParametersUpTo, HasUnregisteredSlot, RegistersAll;
    OnlyCardExactly(authority, frame.capabilityId);
    NamedIs(authority, frame.capabilityId, card);
    RegisteredExactly(card.inputs, frame.slots);
  }

  lemma UngovernedFrame(operation: Operation, state: ReadState, frame: Frame, authority: Authority)
    requires forall card :: !Governs(authority, frame, card)
    ensures FrameDecision(operation, state, frame, authority) ==
            if frame.registrySnapshotId != authority.snapshotId then REJECT("CONTEXT_SNAPSHOT_DRIFT")
            else if forall card :: !OnlyCard(authority, frame.capabilityId, card) then REJECT("VISIBILITY_DENIED")
            else if !Runnable(authority, frame.capabilityId) then REJECT("READ_CONTEXT_VISIBILITY_DENIED")
            else REJECT("CONTEXT_TECHNICAL_FIELD")
  {
    hide CardsNamed, OnlyCard, FieldsUpTo, ParametersUpTo, HasUnregisteredSlot, RegistersAll, Runnable;
    var id := frame.capabilityId;
    OnlyCardExactly(authority, id);
    RunnableExactly(authority, id);
    if |CardsNamed(authority.cards, id)| == 1 {
      var card := CardsNamed(authority.cards, id)[0];
      assert CardsNamed(authority.cards, id) == [card];
      NamedIs(authority, id, card);
      RegisteredExactly(card.inputs, frame.slots);
      assert !Governs(authority, frame, card);
    }
  }

  lemma FrameEscalates(operation: Operation, state: ReadState, frame: Frame, authority: Authority)
    ensures FrameDecision(operation, state, frame, authority) == ESCALATE_TO_PLANNER <==>
            && operation == NEW_MULTI_GOAL && frame.registrySnapshotId == authority.snapshotId
            && exists card :: MayRun(authority, frame.capabilityId, card) && RegistersAll(card.inputs, frame.slots)
  {
    hide FrameDecision, RegistersAll, Runnable, OnlyCard, MayRun, ParametersUpTo, FieldsUpTo;
    forall card | frame.registrySnapshotId == authority.snapshotId && MayRun(authority, frame.capabilityId, card)
                  && RegistersAll(card.inputs, frame.slots)
      ensures Governs(authority, frame, card)
    {}
    if card :| Governs(authority, frame, card) {
      GovernedFrame(operation, state, frame, authority, card);
      RefusalKinds(card.inputs, frame.slots, |card.inputs|);
    } else {
      UngovernedFrame(operation, state, frame, authority);
    }
  }

  // ---------------------------------------------------------------- the parameters of a READY frame

  predicate HasValue(slots: map<string, SlotBinding>, name: string) {
    name in slots && slots[name].state == RESOLVED && slots[name].value.Some?
  }

  /** The input can be sent as it stands, or left out. */
  predicate Sendable(input: InputDescriptor, slots: map<string, SlotBinding>) {
    if input.name in slots then HasValue(slots, input.name) && slots[input.name].provenance != MODEL_CANDIDATE else !input.required
  }

  /** The first input that cannot be sent, and what it is refused with. */
  ghost predicate StopsAt(inputs: seq<InputDescriptor>, slots: map<string, SlotBinding>, i: nat, refusal: Decision)
    requires i < |inputs|
  {
    && (forall j :: 0 <= j < i ==> Sendable(inputs[j], slots)) && !Sendable(inputs[i], slots)
    && refusal == if HasValue(slots, inputs[i].name) then REJECT("CONTEXT_MODEL_CANDIDATE")
                  else if inputs[i].required then CLARIFY(None, []) else REJECT("CONTEXT_SLOT_INVALID")
  }

  lemma {:induction false} RefusedExactly(inputs: seq<InputDescriptor>, slots: map<string, SlotBinding>, n: nat)
    requires n <= |inputs|
    ensures ParametersUpTo(inputs, slots, n).refused.None? <==> forall i :: 0 <= i < n ==> Sendable(inputs[i], slots)
    ensures forall i, r :: 0 <= i < n && StopsAt(inputs, slots, i, r) ==> ParametersUpTo(inputs, slots, n).refused == Some(r)
  {
    if n > 0 { RefusedExactly(inputs, slots, n - 1); }
  }

  lemma {:induction false} SomeStop(inputs: seq<InputDescriptor>, slots: map<string, SlotBinding>, n: nat) returns (i: nat, r: Decision)
    requires n <= |inputs| && exists k :: 0 <= k < n && !Sendable(inputs[k], slots)
    ensures i < n && StopsAt(inputs, slots, i, r)
  {
    if exists k :: 0 <= k < n - 1 && !Sendable(inputs[k], slots) {
      i, r := SomeStop(inputs, slots, n - 1);
    } else {
      i := n - 1;
      r := if HasValue(slots, inputs[i].name) then REJECT("CONTEXT_MODEL_CANDIDATE")
           else if inputs[i].required then CLARIFY(None, []) else REJECT("CONTEXT_SLOT_INVALID");
    }
  }

  ghost predicate AllSendable(inputs: seq<InputDescriptor>, slots: map<string, SlotBinding>) {
    forall i :: 0 <= i < |inputs| ==> Sendable(inputs[i], slots)
  }

  lemma SentExactly(inputs: seq<InputDescriptor>, slots: map<string, SlotBinding>)
    requires RegistersAll(inputs, slots) && AllSendable(inputs, slots)
    ensures Sends(slots, ParametersUpTo(inputs, slots, |inputs|).parameters)
  {
    hide ParametersUpTo;
    forall n | n in slots ensures slots[n].state == RESOLVED && slots[n].value.Some? && slots[n].provenance != MODEL_CANDIDATE {
      var i :| 0 <= i < |inputs| && inputs[i].name == n;
      assert Sendable(inputs[i], slots);
    }
    forall i | 0 <= i < |inputs| && inputs[i].required ensures inputs[i].name in slots { assert Sendable(inputs[i], slots); }
    ParametersAreExactlyTheSlots(inputs, slots, |inputs|);
  }

  // ---------------------------------------------------------------- what the frame decides

  /** A frame is selected exactly when the candidates leave the decision to it, one card may run it and declares
      its slots, it is READY with nothing pending, and every input can be sent; it is then sent with exactly
      its slot values. */
  lemma SelectedExactly(resolution: Option<Resolution>, authority: Authority, candidates: Option<CapabilityCandidates>,
                        id: string, parameters: Parameters)
    ensures Decide(resolution, authority, candidates) == SELECT(id, parameters) <==>
            && LeavesToFrame(authority, candidates) && resolution.Some? && resolution.value.nextState.activeFrame.Some?
            && var frame := resolution.value.nextState.activeFrame.value;
            && resolution.value.operation != NEW_MULTI_GOAL && frame.status == READY && resolution.value.nextState.pending.None?
            && frame.capabilityId == id
            && (exists card :: Governs(authority, frame, card) && AllSendable(card.inputs, frame.slots))
            && Sends(frame.slots, parameters)
  {
    hide FrameDecision, CandidateDecision, Runnable, Governs, AllSendable;
    if candidates.Some? { CandidatesExactly(authority, candidates.value); AtMostOneIsDistinct(candidates.value.capabilityIds); }
    NoCandidates(authority);
    if resolution.Some? && resolution.value.nextState.activeFrame.Some? {
      FrameSelects(resolution.value.operation, resolution.value.nextState, resolution.value.nextState.activeFrame.value, authority, id, parameters);
    }
  }

  lemma FrameSelects(operation: Operation, state: ReadState, frame: Frame, authority: Authority, id: string, parameters: Parameters)
    ensures FrameDecision(operation, state, frame, authority) == SELECT(id, parameters) <==>
            && operation != NEW_MULTI_GOAL && frame.status == READY && state.pending.None? && frame.capabilityId == id
            && (exists card :: Governs(authority, frame, card) && AllSendable(card.inputs, frame.slots))
            && Sends(frame.slots, parameters)
  {
    hide FrameDecision, ParametersUpTo, FieldsUpTo, AllSendable, Runnable, OnlyCard, Sends, MayRun, RegistersAll;
    if card :| Governs(authority, frame, card) {
      GovernedFrame(operation, state, frame, authority, card);
      RefusalKinds(card.inputs, frame.slots, |card.inputs|);
      forall other | Governs(authority, frame, other) ensures other == card { OnlyOneGoverns(authority, frame, other, card); }
      AllSendableExactly(card.inputs, frame.slots);
      if AllSendable(card.inputs, frame.slots) {
        SentExactly(card.inputs, frame.slots);
        SameValues(frame.slots, ParametersUpTo(card.inputs, frame.slots, |card.inputs|).parameters, parameters);
      }
    } else {
      UngovernedFrame(operation, state, frame, authority);
    }
  }

  lemma AllSendableExactly(inputs: seq<InputDescriptor>, slots: map<string, SlotBinding>)
    ensures ParametersUpTo(inputs, slots, |inputs|).refused.None? <==> AllSendable(inputs, slots)
  {
    hide ParametersUpTo;
    RefusedExactly(inputs, slots, |inputs|);
  }

  lemma OnlyOneGoverns(authority: Authority, frame: Frame, a: Card, b: Card)
    requires Governs(authority, frame, a) && Governs(authority, frame, b)
    ensures a == b
  {
    hide OnlyCard, RegistersAll;
    OnlyOneCard(authority, frame.capabilityId, a, b);
  }

  /** Exactly the values of the slots. */
  ghost predicate Sends(slots: map<string, SlotBinding>, parameters: Parameters) {
    parameters.Keys == slots.Keys && forall n :: n in slots ==> slots[n].value == Some(parameters[n])
  }

  lemma SameValues(slots: map<string, SlotBinding>, a: Parameters, b: Parameters)
    requires Sends(slots, a)
    ensures Sends(slots, b) <==> a == b
  {}

  /** An input a clarification asks for: required and without a value, or in conflict. */
  predicate Unanswered(input: InputDescriptor, slots: map<string, SlotBinding>) {
    || (input.required && (input.name in slots ==> slots[input.name].state != RESOLVED))
    || (input.name in slots && slots[input.name].state == CONFLICTED)
  }

  /** Every other decision of a frame that is left to decide: a frame under another snapshot, without its one card,
      whose card may not run it or does not declare its slots is refused, each with its own error; one that
      is not READY asks for exactly what is unanswered; one with an input that cannot be sent stops at the first. */
  lemma FrameDecidesExactly(resolution: Option<Resolution>, authority: Authority, candidates: Option<CapabilityCandidates>, card: Card)
    requires LeavesToFrame(authority, candidates)
    ensures var d := Decide(resolution, authority, candidates);
            if resolution.None? || resolution.value.nextState.activeFrame.None? then d == CLARIFY(None, [])
            else
              var frame, state := resolution.value.nextState.activeFrame.value, resolution.value.nextState;
              if frame.registrySnapshotId != authority.snapshotId then d == REJECT("CONTEXT_SNAPSHOT_DRIFT")
              else if forall c :: !OnlyCard(authority, frame.capabilityId, c) then d == REJECT("VISIBILITY_DENIED")
              else if !Runnable(authority, frame.capabilityId) then d == REJECT("READ_CONTEXT_VISIBILITY_DENIED")
              else OnlyCard(authority, frame.capabilityId, card) ==>
                if !RegistersAll(card.inputs, frame.slots) then d == REJECT("CONTEXT_TECHNICAL_FIELD")
                else if resolution.value.operation == NEW_MULTI_GOAL then d == ESCALATE_TO_PLANNER
                else if frame.status != READY || state.pending.Some? then AsksWhatIsUnanswered(d, frame, card.inputs)
                else if AllSendable(card.inputs, frame.slots) then d.SELECT?
                else exists i :: 0 <= i < |card.inputs| && StopsAt(card.inputs, frame.slots, i, d)
  {
    hide FrameDecision, CandidateDecision, Runnable, AllSendable, OnlyCard, RegistersAll, StopsAt;
    if candidates.Some? { CandidatesExactly(authority, candidates.value); AtMostOneIsDistinct(candidates.value.capabilityIds); }
    NoCandidates(authority);
    if resolution.Some? && resolution.value.nextState.activeFrame.Some? {
      FrameDecides(resolution.value.operation, resolution.value.nextState, resolution.value.nextState.activeFrame.value, authority, card);
    }
  }

  ghost predicate AsksWhatIsUnanswered(d: Decision, frame: Frame, inputs: seq<InputDescriptor>) {
    && d.CLARIFY? && d.askedFor == Some(frame.capabilityId)
    && (NamesDistinct(inputs) ==>
          && Distinct(d.missing)
          && forall f :: f in d.missing <==> exists i :: 0 <= i < |inputs| && inputs[i].name == f && Unanswered(inputs[i], frame.slots))
  }

  lemma FieldsAreUnanswered(frame: Frame, inputs: seq<InputDescriptor>)
    ensures AsksWhatIsUnanswered(CLARIFY(Some(frame.capabilityId), FieldsUpTo(inputs, frame.slots, |inputs|)), frame, inputs)
  {
    if NamesDistinct(inputs) {
      FieldsAreExactlyUnanswered(inputs, frame.slots, |inputs|);
      forall i | 0 <= i < |inputs| ensures NeedsAnswer(inputs[i], frame.slots) == Unanswered(inputs[i], frame.slots) {}
    }
  }

  lemma OnlyOneCard(authority: Authority, id: string, a: Card, b: Card)
    requires OnlyCard(authority, id, a) && OnlyCard(authority, id, b)
    ensures a == b
  {}

  lemma FrameDecides(operation: Operation, state: ReadState, frame: Frame, authority: Authority, card: Card)
    ensures var d := FrameDecision(operation, state, frame, authority);
            if frame.registrySnapshotId != authority.snapshotId then d == REJECT("CONTEXT_SNAPSHOT_DRIFT")
            else if forall c :: !OnlyCard(authority, frame.capabilityId, c) then d == REJECT("VISIBILITY_DENIED")
            else if !Runnable(authority, frame.capabilityId) then d == REJECT("READ_CONTEXT_VISIBILITY_DENIED")
            else OnlyCard(authority, frame.capabilityId, card) ==>
              if !RegistersAll(card.inputs, frame.slots) then d == REJECT("CONTEXT_TECHNICAL_FIELD")
              else if operation == NEW_MULTI_GOAL then d == ESCALATE_TO_PLANNER
              else if frame.status != READY || state.pending.Some? then AsksWhatIsUnanswered(d, frame, card.inputs)
              else if AllSendable(card.inputs, frame.slots) then d.SELECT?
              else exists i :: 0 <= i < |card.inputs| && StopsAt(card.inputs, frame.slots, i, d)
  {
    hide FrameDecision, FieldsUpTo, ParametersUpTo, AsksWhatIsUnanswered, StopsAt, Runnable, OnlyCard, RegistersAll, Governs;
    RunsItsOnlyCard(authority, frame, card);
    if Governs(authority, frame, card) { GovernedFrame(operation, state, frame, authority, card); }
    if forall c :: !Governs(authority, frame, c) { UngovernedFrame(operation, state, frame, authority); }
    FieldsAreUnanswered(frame, card.inputs);
    RefusedExactly(card.inputs, frame.slots, |card.inputs|);
    if !AllSendable(card.inputs, frame.slots) {
      var i, r := SomeStop(card.inputs, frame.slots, |card.inputs|);
    }
  }

  /** A capability that may run, may run by its only card. */
  lemma RunsItsOnlyCard(authority: Authority, frame: Frame, card: Card)
    ensures frame.registrySnapshotId == authority.snapshotId && Runnable(authority, frame.capabilityId)
            && OnlyCard(authority, frame.capabilityId, card) ==>
              (Governs(authority, frame, card) <==> RegistersAll(card.inputs, frame.slots))
              && (!RegistersAll(card.inputs, frame.slots) ==> forall c :: !Governs(authority, frame, c))
    ensures (frame.registrySnapshotId != authority.snapshotId || !Runnable(authority, frame.capabilityId)) ==>
              forall c :: !Governs(authority, frame, c)
    ensures Runnable(authority, frame.capabilityId) ==> exists c :: OnlyCard(authority, frame.capabilityId, c)
  {
    hide RegistersAll;
    forall c | OnlyCard(authority, frame.capabilityId, card) && OnlyCard(authority, frame.capabilityId, c) ensures c == card {
      OnlyOneCard(authority, frame.capabilityId, c, card);
    }
    hide OnlyCard;
  }
}
