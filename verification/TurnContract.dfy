/** The whole of one turn, told from the request and from the slots it leaves: the operation it reports, the
    question it closes, keeps or asks, the status of its frame, and its issues. */
module TurnContract {
  import opened Basics
  import opened ReadContext
  import opened Candidates
  import opened Reducer
  import opened ReducerLaws
  import opened ReducerInvariant
  import opened ReducerStatus
  import opened TurnSlots

  // ---------------------------------------------------------------- answers and replacements

  /** The input was asked for, is not cleared, and gets one value. */
  ghost predicate Answers(valid: Validity, req: Request, input: InputDescriptor) {
    AskedFor(req, input.name) && input.name !in req.candidates.clearSlots && exists v :: Undisputed(valid, req, input, v)
  }

  ghost predicate Answered(valid: Validity, req: Request) {
    exists i :: 0 <= i < |req.descriptor.inputs| && Answers(valid, req, req.descriptor.inputs[i])
  }

  /** The input gets one value, and its slot is not what it was. */
  ghost predicate Replaces(valid: Validity, req: Request, input: InputDescriptor) {
    && !TooLateFor(req, input.name) && input.name !in req.candidates.clearSlots
    && (exists v :: Undisputed(valid, req, input, v))
    && NextSlotOf(valid, req, input.name) != SlotBefore(req, input.name)
  }

  lemma OutcomeFlags(valid: Validity, req: Request, i: nat)
    requires NamesDistinct(req.descriptor.inputs) && i < |req.descriptor.inputs|
    ensures TurnOutcome(valid, req, req.descriptor.inputs[i]).confirmedPending <==> Answers(valid, req, req.descriptor.inputs[i])
    ensures TurnOutcome(valid, req, req.descriptor.inputs[i]).deterministicChanged <==> Replaces(valid, req, req.descriptor.inputs[i])
    ensures TurnOutcome(valid, req, req.descriptor.inputs[i]).changed <==>
              var input := req.descriptor.inputs[i];
              || NextSlotOf(valid, req, input.name) != SlotBefore(req, input.name)
              || (!TooLateFor(req, input.name) && input.name !in req.candidates.clearSlots && Disputed(valid, req, input))
  {
    hide NamesDistinct, Reduced, Open, PriorSlot, SlotBefore, ModeIn, NextSlotOf, Undisputed, Disputed, Preferred, Evidenced, AskedFor, TooLateFor,
         ValuesFrom, Offer.Selected, Offer.Explicit, SourceSpan, ResolvedSlot, ConflictedSlot;
    var input := req.descriptor.inputs[i];
    NextSlotIsOutcome(valid, req, i);
    OpeningIs(req, input.name);
    HowMany(valid, req, input, AskedFor(req, input.name));
    OneOfThree(req, input.name);
  }

  lemma OneOfThree(req: Request, name: string)
    ensures !(AskedFor(req, name) && TooLateFor(req, name))
  {}

  lemma FlagsExactly(valid: Validity, req: Request)
    requires NamesDistinct(req.descriptor.inputs)
    ensures LoopEnd(valid, req).confirmedPending <==> Answered(valid, req)
    ensures LoopEnd(valid, req).deterministicChanged <==>
              exists i :: 0 <= i < |req.descriptor.inputs| && Replaces(valid, req, req.descriptor.inputs[i])
  {
    hide Open, TurnInputOf, AfterInputs, Answers, Replaces, OutcomeOf, NamesDistinct;
    var o, inputs := Open(req), req.descriptor.inputs;
    LoopFlags(valid, TurnInputOf(req, o), LoopStart(o), inputs, |inputs|);
    forall i | 0 <= i < |inputs|
      ensures TurnOutcomeFrom(valid, TurnInputOf(req, o), LoopStart(o), inputs[i]).confirmedPending <==> Answers(valid, req, inputs[i])
      ensures TurnOutcomeFrom(valid, TurnInputOf(req, o), LoopStart(o), inputs[i]).deterministicChanged <==> Replaces(valid, req, inputs[i])
    {
      OutcomeFlags(valid, req, i);
      SameOutcome(valid, req, inputs[i]);
      assert TurnOutcomeFrom(valid, TurnInputOf(req, o), LoopStart(o), inputs[i]) == TurnOutcome(valid, req, inputs[i]);
    }
  }

  lemma SameOutcome(valid: Validity, req: Request, input: InputDescriptor)
    ensures TurnOutcomeFrom(valid, TurnInputOf(req, Open(req)), LoopStart(Open(req)), input) == TurnOutcome(valid, req, input)
  {
    hide OutcomeOf, Open;
  }

  /** A slot is reported as changed exactly when it is not what it was, or is in dispute. */
  lemma ReportedAsChanged(valid: Validity, req: Request, i: nat)
    requires NamesDistinct(req.descriptor.inputs) && i < |req.descriptor.inputs|
    ensures var input := req.descriptor.inputs[i];
            input.name in Reduced(valid, req).changedSlots <==>
              || NextSlotOf(valid, req, input.name) != SlotBefore(req, input.name)
              || (!TooLateFor(req, input.name) && input.name !in req.candidates.clearSlots && Disputed(valid, req, input))
  {
    ChangedExactly(valid, req, i);
    OutcomeFlags(valid, req, i);
    hide Reduced, NextSlotOf, TurnOutcome, TooLateFor;
  }

  /** Slots of names the capability does not declare stand as they are. */
  lemma UndeclaredSlotsStay(valid: Validity, req: Request, n: string)
    requires NamesDistinct(req.descriptor.inputs) && !Declared(req.descriptor, n)
    ensures NextSlotOf(valid, req, n) == SlotBefore(req, n)
  {
    var o, inputs := Open(req), req.descriptor.inputs;
    LoopBySlot(valid, TurnInputOf(req, o), LoopStart(o), inputs, |inputs|, n);
    OpeningIs(req, n);
  }

  // ---------------------------------------------------------------- the operation

  predicate Switching(req: Request) { req.prior.activeFrame.Some? && !SameCapability(req) }

  /** Every operation exactly when it is reported. */
  lemma OperationExactly(valid: Validity, req: Request)
    requires NamesDistinct(req.descriptor.inputs)
    ensures Reduced(valid, req).operation ==
            if Switching(req) then SWITCH_CAPABILITY
            else if req.candidates.clearSlots != [] then CLEAR_SLOT
            else if Answered(valid, req) then CONFIRM_PENDING
            else if QuestionStands(req) && !InTime(req) then REJECT_PENDING
            else if req.prior.activeFrame.Some?
                    && exists i :: 0 <= i < |req.descriptor.inputs| && Replaces(valid, req, req.descriptor.inputs[i]) then REPLACE_SLOT
            else CONTINUE_FRAME
  {
    FlagsExactly(valid, req);
    hide LoopEnd, Answered, Replaces, NextPending, NextFrame, AskedFields, FailsRebind;
  }

  // ---------------------------------------------------------------- the question that is still open

  /** The earlier question, when this turn neither answers it nor comes too late for it. */
  ghost function StillOpen(valid: Validity, req: Request): Option<Pending> {
    if QuestionStands(req) && InTime(req) && (req.candidates.clearSlots != [] || !Answered(valid, req)) then req.prior.pending
    else None
  }

  /** The fields of a question the turn came too late for. */
  function Reasked(req: Request): seq<string> {
    if QuestionStands(req) && !InTime(req) then req.prior.pending.value.expectedFields else []
  }

  /** The frame was bound to another registry snapshot. */
  predicate Drifted(req: Request) {
    SameCapability(req) && !NewVersion(req) && req.prior.activeFrame.value.registrySnapshotId != req.snapshotId
  }

  /** Slots that are good under any snapshot: resolved, valid, declared, none migrated and none required missing. */
  ghost predicate AllGood(valid: Validity, d: CapabilityDescriptor, slots: map<string, SlotBinding>) {
    && (forall n :: n in slots ==>
          && slots[n].state == RESOLVED && slots[n].provenance != INHERITED_LEGACY && slots[n].value.Some?
          && exists i :: 0 <= i < |d.inputs| && d.inputs[i].name == n && valid(d.inputs[i], slots[n].value.value))
    && (forall i :: 0 <= i < |d.inputs| && d.inputs[i].required ==> d.inputs[i].name in slots)
  }

  /** A drifted frame must be asked about again unless nothing is open and all its slots are good. */
  ghost predicate MustRevalidate(valid: Validity, req: Request) {
    Drifted(req)
    && !(StillOpen(valid, req).None? && AllGood(valid, req.descriptor, Reduced(valid, req).nextState.activeFrame.value.slots))
  }

  lemma RebindableExactly(valid: Validity, d: CapabilityDescriptor, slots: map<string, SlotBinding>, pending: Option<Pending>)
    requires NamesDistinct(d.inputs)
    ensures SnapshotCanRebind(valid, d, slots, pending) <==> pending.None? && AllGood(valid, d, slots)
  {
    forall i | 0 <= i < |d.inputs| ensures FindInput(d.inputs, d.inputs[i].name) == Some(d.inputs[i]) { FindsDeclared(d.inputs, i); }
    forall n | n in slots && FindInput(d.inputs, n).Some?
      ensures exists i :: 0 <= i < |d.inputs| && d.inputs[i].name == n && FindInput(d.inputs, n) == Some(d.inputs[i])
    {
      var i :| 0 <= i < |d.inputs| && d.inputs[i] == FindInput(d.inputs, n).value;
    }
    hide FindInput, NamesDistinct;
    if SnapshotCanRebind(valid, d, slots, pending) {
      forall n | n in slots
        ensures slots[n].value.Some? && exists i :: 0 <= i < |d.inputs| && d.inputs[i].name == n && valid(d.inputs[i], slots[n].value.value)
      {
        assert RebindableSlot(valid, d.inputs, n, slots[n]);
      }
    }
  }

  lemma OpenQuestionIs(valid: Validity, req: Request)
    requires NamesDistinct(req.descriptor.inputs)
    ensures var o, s := Open(req), LoopEnd(valid, req);
            && PendingAfterAnswers(req, o, s) == StillOpen(valid, req)
            && o.rejectedFields == Reasked(req) && o.stale == NewVersion(req) && o.snapshotMismatch == Drifted(req)
            && FailsRebind(valid, req, o, s) == MustRevalidate(valid, req)
  {
    hide LoopEnd, Answered, SnapshotCanRebind, NextPending, StatusOf, Reduced, AllGood, NamesDistinct, Replaces;
    FlagsExactly(valid, req);
    ReducedIs(valid, req);
    var o, s := Open(req), LoopEnd(valid, req);
    assert PendingAfterAnswers(req, o, s) == StillOpen(valid, req);
    RebindableExactly(valid, req.descriptor, s.slots, PendingAfterAnswers(req, o, s));
  }

  // ---------------------------------------------------------------- the status

  ghost predicate MissingRequired(d: CapabilityDescriptor, slots: map<string, SlotBinding>, n: string) {
    && (exists i :: 0 <= i < |d.inputs| && d.inputs[i].name == n && d.inputs[i].required)
    && (n in slots ==> slots[n].state != RESOLVED)
  }

  lemma UnresolvedExactly(d: CapabilityDescriptor, slots: map<string, SlotBinding>)
    ensures forall n :: n in Unresolved(d.inputs, slots) <==> MissingRequired(d, slots, n)
    ensures Unresolved(d.inputs, slots) == [] <==> forall n :: !MissingRequired(d, slots, n)
    ensures NamesDistinct(d.inputs) ==> Distinct(Unresolved(d.inputs, slots))
  {
    UnresolvedNames(d.inputs, slots);
    var names := Unresolved(d.inputs, slots);
    if names != [] { assert names[0] in names; }
  }

  /** Every status of the next frame exactly when it has it. */
  lemma StatusExactly(valid: Validity, req: Request)
    requires NamesDistinct(req.descriptor.inputs)
    ensures var frame := Reduced(valid, req).nextState.activeFrame.value;
            frame.status ==
            if NewVersion(req) || MustRevalidate(valid, req) || req.descriptor.sideEffect != "none" then STALE
            else if exists n :: n in frame.slots && frame.slots[n].state == CONFLICTED then FRAME_CONFLICTED
            else if exists n :: MissingRequired(req.descriptor, frame.slots, n) then COLLECTING
            else if Reasked(req) != [] || StillOpen(valid, req).Some? then COLLECTING
            else if exists n :: n in frame.slots && frame.slots[n].provenance == INHERITED_LEGACY then STALE
            else READY
  {
    OpenQuestionIs(valid, req);
    var o, s := Open(req), LoopEnd(valid, req);
    UnresolvedExactly(req.descriptor, s.slots);
    assert Reduced(valid, req).nextState.activeFrame.value.slots == s.slots;
    assert Reduced(valid, req).nextState.activeFrame.value.status == StatusOf(valid, req, o, s);
    hide Reduced, LoopEnd, Open, MustRevalidate, StillOpen, Reasked, NewVersion, Unresolved, MissingRequired, FailsRebind, PendingAfterAnswers;
  }

  /** READY, told from the request and the slots the turn leaves: the capability only reads, its version is the one
      the frame had, no answer came too late, no question is still open, and the slots are complete. A new
      registry snapshot does not matter then. */
  lemma ReadyExactly(valid: Validity, req: Request)
    requires TurnOk(req) && PriorOk(req)
    ensures var frame := Reduced(valid, req).nextState.activeFrame.value;
            frame.status == READY <==>
            && req.descriptor.sideEffect == "none" && !NewVersion(req) && Reasked(req) == [] && StillOpen(valid, req).None?
            && Complete(req.descriptor, frame.slots)
  {
    hide Reduced, Open, LoopEnd, StillOpen, Reasked, PendingAfterAnswers, Complete, PriorOk, SameVersion;
    DistinctNames(req);
    ReadyExactlyWhen(valid, req);
    OpenQuestionIs(valid, req);
    ReducedIs(valid, req);
    VersionIs(req);
  }

  lemma VersionIs(req: Request)
    ensures NewVersion(req) <==> !SameVersion(req)
  {}

  // ---------------------------------------------------------------- the question after the turn

  /** A question for slots, put to the frame of the next state and open for fifteen minutes. */
  predicate AsksAfresh(req: Request, next: ReadState, fields: seq<string>) {
    && next.activeFrame.Some? && next.pending.Some?
    && var p := next.pending.value;
    && p.kind == SLOT_CLARIFICATION && p.expectedFields == fields
    && p.frameId == next.activeFrame.value.frameId && p.stateVersion == next.stateVersion && p.registrySnapshotId == req.snapshotId
    && p.expiresAt.micros == req.serverTime.micros + 900000000 && p.expiresAt.offsetMinutes == req.serverTime.offsetMinutes
    && p.capabilityIds == [] && p.batchRef.None? && p.plannerRef.None? && p.plannerGoals == [] && p.entityChoice.None?
  }

  /** The same question as before, put to the next state. */
  predicate AsksOn(req: Request, next: ReadState) {
    && next.activeFrame.Some? && req.prior.pending.Some?
    && next.pending == Some(req.prior.pending.value.(frameId := next.activeFrame.value.frameId, stateVersion := next.stateVersion,
                                                     registrySnapshotId := req.snapshotId))
  }

  /** A discarded answer is asked for again; a question that is still open stays, with its fields and expiry;
      otherwise exactly the missing required inputs are asked for, each once, unless the frame is stale. */
  lemma QuestionExactly(valid: Validity, req: Request)
    requires NamesDistinct(req.descriptor.inputs)
    ensures var next := Reduced(valid, req).nextState;
            var slots := next.activeFrame.value.slots;
            if Reasked(req) != [] then AsksAfresh(req, next, Reasked(req))
            else if StillOpen(valid, req).Some? && !MustRevalidate(valid, req) then AsksOn(req, next)
            else if !NewVersion(req) && !MustRevalidate(valid, req) && exists n :: MissingRequired(req.descriptor, slots, n) then
              && next.pending.Some? && AsksAfresh(req, next, next.pending.value.expectedFields)
              && Distinct(next.pending.value.expectedFields)
              && forall n :: n in next.pending.value.expectedFields <==> MissingRequired(req.descriptor, slots, n)
            else next.pending.None?
  {
    hide Reduced, LoopEnd, Open, MustRevalidate, NewVersion, Unresolved, MissingRequired, FailsRebind, PendingAfterAnswers, StatusOf,
         StillOpen, Reasked, FrameIdOf, NextPending, NamesDistinct;
    var o, s := Open(req), LoopEnd(valid, req);
    OpenQuestionIs(valid, req);
    StatusExactly(valid, req);
    UnresolvedExactly(req.descriptor, s.slots);
    ReducedIs(valid, req);
    PendingIs(valid, req, o, s);
    FromPrior(valid, req);
  }

  lemma ReducedIs(valid: Validity, req: Request)
    ensures var o, s, next := Open(req), LoopEnd(valid, req), Reduced(valid, req).nextState;
            && next.activeFrame.value.slots == s.slots && next.pending == NextPending(valid, req, o, s)
            && next.activeFrame.value.frameId == FrameIdOf(req, o) && next.activeFrame.value.status == StatusOf(valid, req, o, s)
            && next.stateVersion == req.prior.stateVersion + 1
  {
    hide LoopEnd, StatusOf, NextPending;
  }

  lemma FromPrior(valid: Validity, req: Request)
    ensures StillOpen(valid, req).Some? ==> StillOpen(valid, req) == req.prior.pending
  {}

  lemma PendingIs(valid: Validity, req: Request, o: Opening, s: LoopState)
    ensures var kept, missing := PendingAfterAnswers(req, o, s), Unresolved(req.descriptor.inputs, s.slots);
            NextPending(valid, req, o, s) ==
            if o.rejectedFields != [] then Some(FreshClarification(req, o, o.rejectedFields))
            else if kept.Some? && !FailsRebind(valid, req, o, s) then
              Some(kept.value.(frameId := FrameIdOf(req, o), stateVersion := req.prior.stateVersion + 1, registrySnapshotId := req.snapshotId))
            else if StatusOf(valid, req, o, s) != READY && !o.stale && !FailsRebind(valid, req, o, s) && missing != [] then
              Some(FreshClarification(req, o, missing))
            else None
  {
    hide FailsRebind, PendingAfterAnswers, StatusOf, FrameIdOf, Unresolved;
  }

  /** An answered question is closed, and only then: in a turn that stays on its capability, version and
      snapshot, in time for the question and with nothing to clear, the question is closed exactly when some
      input it asked for gets one value. Then the frame is READY exactly when its slots are complete, and
      otherwise what is missing is asked for afresh; with no such input the question stays as it was. */
  lemma AnswerClosesQuestion(valid: Validity, req: Request)
    requires TurnOk(req) && PriorOk(req) && req.descriptor.sideEffect == "none" && req.candidates.clearSlots == []
    requires SameCapability(req) && !NewVersion(req) && req.prior.activeFrame.value.registrySnapshotId == req.snapshotId
    requires InTime(req)
    ensures var next := Reduced(valid, req).nextState;
            var frame := next.activeFrame.value;
            if exists i, v :: 0 <= i < |req.descriptor.inputs| && req.descriptor.inputs[i].name in req.prior.pending.value.expectedFields
                              && Undisputed(valid, req, req.descriptor.inputs[i], v)
            then
              && (frame.status == READY <==> Complete(req.descriptor, frame.slots))
              && (if exists n :: MissingRequired(req.descriptor, frame.slots, n) then
                    && next.pending.Some? && AsksAfresh(req, next, next.pending.value.expectedFields)
                    && Distinct(next.pending.value.expectedFields)
                    && forall n :: n in next.pending.value.expectedFields <==> MissingRequired(req.descriptor, frame.slots, n)
                  else next.pending.None?)
            else AsksOn(req, next) && frame.status != READY
  {
    hide Reduced, Undisputed, AsksAfresh, AsksOn, InTime, Reasked, StillOpen, MustRevalidate, NewVersion, SameCapability, PriorOk,
         SlotsFit, MissingRequired, Complete;
    DistinctNames(req);
    InTimeFacts(valid, req);
    QuestionExactly(valid, req);
    StatusExactly(valid, req);
    SlotsLeft(valid, req);
    CompleteExactly(req.descriptor, Reduced(valid, req).nextState.activeFrame.value.slots);
  }

  lemma DistinctNames(req: Request)
    requires TurnOk(req)
    ensures NamesDistinct(req.descriptor.inputs)
  {}

  lemma InTimeFacts(valid: Validity, req: Request)
    requires req.candidates.clearSlots == [] && InTime(req) && SameCapability(req) && !NewVersion(req)
    requires req.prior.activeFrame.value.registrySnapshotId == req.snapshotId
    ensures Reasked(req) == [] && !MustRevalidate(valid, req) && req.prior.pending.Some?
    ensures StillOpen(valid, req) ==
            if exists i, v :: 0 <= i < |req.descriptor.inputs| && req.descriptor.inputs[i].name in req.prior.pending.value.expectedFields
                              && Undisputed(valid, req, req.descriptor.inputs[i], v)
            then None else req.prior.pending
  {
    hide Undisputed;
    if i, v :| 0 <= i < |req.descriptor.inputs| && req.descriptor.inputs[i].name in req.prior.pending.value.expectedFields
               && Undisputed(valid, req, req.descriptor.inputs[i], v)
    {
      assert Answers(valid, req, req.descriptor.inputs[i]);
    }
  }

  lemma SlotsLeft(valid: Validity, req: Request)
    requires TurnOk(req) && PriorOk(req)
    ensures SlotsFit(req.descriptor, Reduced(valid, req).nextState.activeFrame.value.slots)
  {
    NextSlotsFit(valid, req);
  }

  lemma CompleteExactly(d: CapabilityDescriptor, slots: map<string, SlotBinding>)
    requires SlotsFit(d, slots)
    ensures Complete(d, slots) <==>
              && (forall n :: n in slots ==> slots[n].state != CONFLICTED && slots[n].provenance != INHERITED_LEGACY)
              && forall n :: !MissingRequired(d, slots, n)
  {
    if (forall n :: n in slots ==> slots[n].state != CONFLICTED && slots[n].provenance != INHERITED_LEGACY)
       && (forall n :: !MissingRequired(d, slots, n))
    {
      forall i | 0 <= i < |d.inputs| && d.inputs[i].required ensures d.inputs[i].name in slots {
        assert !MissingRequired(d, slots, d.inputs[i].name);
      }
      forall n | n in slots ensures slots[n].state == RESOLVED {
        assert !MissingRequired(d, slots, n);
      }
    }
    if Complete(d, slots) {
      forall n ensures !MissingRequired(d, slots, n) {}
    }
  }

  // ---------------------------------------------------------------- the frame

  /** The rest of the next state. */
  lemma FrameExactly(valid: Validity, req: Request)
    ensures var next := Reduced(valid, req).nextState;
            var frame, prior := next.activeFrame.value, req.prior.activeFrame;
            && frame.capabilityId == req.descriptor.capabilityId && frame.updatedTurnId == req.turnId
            && frame.registrySnapshotId == req.snapshotId && frame.capabilityVersion == req.capabilityVersion
            && frame.frameId == (if SameCapability(req) then prior.value.frameId else req.descriptor.capabilityId + ":" + req.turnId)
            && frame.createdTurnId == (if SameCapability(req) then prior.value.createdTurnId else req.turnId)
            && next.stateVersion == req.prior.stateVersion + 1 && next.clarifyRounds == map[]
            && (!Switching(req) ==> next.recentFrames == req.prior.recentFrames)
  {
    hide LoopEnd, StatusOf, NextPending;
  }
}
