/** When a turn makes its frame READY, what it asks for otherwise, and what a switch of capability keeps. */
module ReducerStatus {
  import opened Basics
  import opened ReadContext
  import opened Candidates
  import opened Reducer
  import opened ReducerLaws
  import opened ReducerInvariant

  lemma OutcomeIsValid(valid: Validity, input: InputDescriptor, prior: Option<SlotBinding>, raw: seq<Candidate>,
                       mode: SlotMode, turnId: string)
    requires !mode.rejected
    ensures var slot := OutcomeOf(valid, input, prior, ValidOnly(valid, input, raw), mode, turnId).slot;
            slot.Some? && slot.value.state == RESOLVED && slot.value.provenance != INHERITED_LEGACY ==>
              && slot.value.value.Some? && valid(input, slot.value.value.value)
              && slot.value.provenance != MODEL_CANDIDATE
  {
    var good := ValidOnly(valid, input, raw);
    var selected := OfferOf(good, mode.expected).Selected();
    SelectedIsEvidenced(good, mode.expected);
    ValidOnlyMembers(valid, input, raw);
    if selected != [] { assert selected[0] in selected; }
  }

  /** Unless an answer was rejected, every resolved value but a migrated one passed the semantic check in
      this very turn, and none is marked as a model guess. */
  lemma ResolvedValuesAreValid(valid: Validity, req: Request, i: nat)
    requires TurnOk(req) && PriorOk(req) && i < |req.descriptor.inputs| && Open(req).rejectedFields == []
    ensures var input, slots := req.descriptor.inputs[i], LoopEnd(valid, req).slots;
            ResolvedIn(slots, input.name) && slots[input.name].provenance != INHERITED_LEGACY ==>
              && slots[input.name].value.Some? && valid(input, slots[input.name].value.value)
              && slots[input.name].provenance != MODEL_CANDIDATE
  {
    var input := req.descriptor.inputs[i];
    NextSlot(valid, req, i);
    PriorSlotFits(req, i);
    OutcomeIsValid(valid, input, PriorSlot(req, input.name), req.candidates.ForSlot(input.name), ModeIn(req, input.name), req.turnId);
    assert Lookup(LoopEnd(valid, req).slots, input.name) == TurnOutcome(valid, req, input).slot;
  }

  lemma {:induction false} FindsDeclared(inputs: seq<InputDescriptor>, i: nat)
    requires NamesDistinct(inputs) && i < |inputs|
    ensures FindInput(inputs, inputs[i].name) == Some(inputs[i])
  {
    if i > 0 {
      assert inputs[0].name != inputs[i].name;
      assert NamesDistinct(inputs[1..]) by {
        forall a, b | 0 <= a < b < |inputs[1..]| ensures inputs[1..][a].name != inputs[1..][b].name {
          assert inputs[a + 1].name != inputs[b + 1].name;
        }
      }
      FindsDeclared(inputs[1..], i - 1);
    }
  }

  /** Complete and valid slots with nothing pending survive a change of the registry snapshot. */
  lemma CompleteRebinds(valid: Validity, req: Request, pending: Option<Pending>)
    requires TurnOk(req) && PriorOk(req) && Open(req).rejectedFields == [] && pending.None?
    requires Complete(req.descriptor, LoopEnd(valid, req).slots)
    ensures SnapshotCanRebind(valid, req.descriptor, LoopEnd(valid, req).slots, pending)
  {
    var inputs, slots := req.descriptor.inputs, LoopEnd(valid, req).slots;
    NextSlotsFit(valid, req);
    forall i | 0 <= i < |inputs|
      ensures ResolvedIn(slots, inputs[i].name) && slots[inputs[i].name].provenance != INHERITED_LEGACY ==>
                StillValid(valid, inputs[i], slots[inputs[i].name])
    {
      ResolvedValuesAreValid(valid, req, i);
    }
    forall n | n in slots ensures RebindableSlot(valid, inputs, n, slots[n]) {
      var i :| 0 <= i < |inputs| && inputs[i].name == n && SlotFits(inputs[i], slots[n]);
      FindsDeclared(inputs, i);
    }
  }

  predicate SameVersion(req: Request) {
    req.prior.activeFrame.Some? && req.prior.activeFrame.value.capabilityId == req.descriptor.capabilityId ==>
      req.prior.activeFrame.value.capabilityVersion == req.capabilityVersion
  }

  lemma StaleExactly(req: Request)
    ensures Open(req).stale <==> !SameVersion(req)
  {}

  /** In a READY frame every slot is that of a declared input with a value that passed the semantic check in
      this turn, and is not marked as a model guess. */
  lemma ReadySlotsAreUsable(valid: Validity, req: Request, n: string)
    requires TurnOk(req) && PriorOk(req)
    requires Open(req).rejectedFields == [] && Complete(req.descriptor, LoopEnd(valid, req).slots)
    requires n in LoopEnd(valid, req).slots
    ensures var slot := LoopEnd(valid, req).slots[n];
            && slot.value.Some? && slot.provenance != MODEL_CANDIDATE
            && exists i :: 0 <= i < |req.descriptor.inputs| && req.descriptor.inputs[i].name == n
                           && valid(req.descriptor.inputs[i], slot.value.value)
  {
    var d, slots := req.descriptor, LoopEnd(valid, req).slots;
    NextSlotsFit(valid, req);
    var i :| 0 <= i < |d.inputs| && d.inputs[i].name == n && SlotFits(d.inputs[i], slots[n]);
    ResolvedValuesAreValid(valid, req, i);
  }

  /** The frame becomes READY exactly when the capability only reads, its version has not changed, no answer
      was rejected, no question is left unanswered, and the slots are complete: all resolved, none migrated, one
      for every required input. A new registry snapshot does not matter then. */
  lemma ReadyExactlyWhen(valid: Validity, req: Request)
    requires TurnOk(req) && PriorOk(req)
    ensures var o, s := Open(req), LoopEnd(valid, req);
            Reduced(valid, req).nextState.activeFrame.value.status == READY <==>
              && req.descriptor.sideEffect == "none" && SameVersion(req)
              && o.rejectedFields == [] && PendingAfterAnswers(req, o, s).None?
              && Complete(req.descriptor, s.slots)
  {
    var o, s := Open(req), LoopEnd(valid, req);
    var stale, pending := o.stale || FailsRebind(valid, req, o, s), PendingForStatus(valid, req, o, s);
    NextSlotsFit(valid, req);
    ReadyMeans(req.descriptor, s.slots, stale, pending);
    StaleExactly(req);
    hide Open, LoopEnd, DeriveStatus, SnapshotCanRebind, NextPending, SameVersion;
    assert Reduced(valid, req).nextState.activeFrame.value.status == DeriveStatus(req.descriptor, s.slots, stale, pending);
    if o.rejectedFields == [] && PendingAfterAnswers(req, o, s).None? && Complete(req.descriptor, s.slots) {
      CompleteRebinds(valid, req, PendingAfterAnswers(req, o, s));
    }
  }

  /** A question the turn asks itself is for exactly the required inputs without a resolved slot, or, when an
      answer was rejected, for the fields of that answer again; it is open for fifteen minutes. */
  lemma QuestionIsExact(valid: Validity, req: Request)
    requires TurnOk(req) && PriorOk(req) && MintsClarification(valid, req)
    ensures var r := Reduced(valid, req);
            && r.nextState.pending.Some? && r.nextState.pending.value.kind == SLOT_CLARIFICATION
            && r.nextState.pending.value.expiresAt.micros == req.serverTime.micros + 900000000
            && var asked := r.nextState.pending.value.expectedFields;
            && asked != [] && Distinct(asked)
            && (Open(req).rejectedFields != [] ==> asked == req.prior.pending.value.expectedFields)
            && (Open(req).rejectedFields == [] ==>
                  forall n :: n in asked <==>
                    exists i :: 0 <= i < |req.descriptor.inputs| && req.descriptor.inputs[i].name == n
                                && req.descriptor.inputs[i].required && !ResolvedIn(LoopEnd(valid, req).slots, n))
  {
    var o, s := Open(req), LoopEnd(valid, req);
    OpeningFacts(req);
    AskedAreNames(valid, req, o, s);
    UnresolvedNames(req.descriptor.inputs, s.slots);
    RejectedFieldsAre(req);
    hide Open, LoopEnd, StatusOf, FailsRebind, Unresolved, PendingAfterAnswers, NextFrame;
  }

  lemma RejectedFieldsAre(req: Request)
    ensures Open(req).rejectedFields != [] ==>
              req.prior.pending.Some? && Open(req).rejectedFields == req.prior.pending.value.expectedFields
  {}

  /** A switch of capability carries nothing over: the frame left behind becomes the first recent one, and
      every slot of the new frame comes from this turn. */
  lemma SwitchStartsAfresh(valid: Validity, req: Request, n: string)
    requires TurnOk(req) && req.prior.activeFrame.Some?
    requires req.prior.activeFrame.value.capabilityId != req.descriptor.capabilityId
    ensures var next := Reduced(valid, req).nextState;
            && next.recentFrames != [] && next.recentFrames[0] == req.prior.activeFrame.value
            && (|req.prior.recentFrames| > 0 ==> next.recentFrames[1..] == req.prior.recentFrames[..1])
            && (n in next.activeFrame.value.slots ==> next.activeFrame.value.slots[n].sourceTurnId == req.turnId)
  {
    SwitchOpens(req);
    FirstOfTwo(req.prior.activeFrame.value, req.prior.recentFrames);
    SwitchedSlot(valid, req, n);
    hide Open, LoopStart, LoopEnd, NextPending, StatusOf, FirstTwo, FailsRebind, MissingIssues, AskedFields, TurnOk;
  }

  lemma FirstOfTwo(first: Frame, rest: seq<Frame>)
    ensures var two := FirstTwo([first] + rest);
            two != [] && two[0] == first && (|rest| > 0 ==> two[1..] == rest[..1])
  {}

  lemma SwitchOpens(req: Request)
    requires req.prior.activeFrame.Some? && req.prior.activeFrame.value.capabilityId != req.descriptor.capabilityId
    ensures var o := Open(req);
            && LoopStart(o).slots == map[] && o.recentFrames == FirstTwo([req.prior.activeFrame.value] + req.prior.recentFrames)
  {}

  lemma SwitchedSlot(valid: Validity, req: Request, n: string)
    requires TurnOk(req) && LoopStart(Open(req)).slots == map[]
    ensures n in LoopEnd(valid, req).slots ==> LoopEnd(valid, req).slots[n].sourceTurnId == req.turnId
  {
    hide Open, LoopStart, OutcomeOf;
    var o, inputs := Open(req), req.descriptor.inputs;
    LoopBySlot(valid, TurnInputOf(req, o), LoopStart(o), inputs, |inputs|, n);
    assert n in LoopEnd(valid, req).slots ==> Lookup(LoopEnd(valid, req).slots, n) == Some(LoopEnd(valid, req).slots[n]);
    if i :| 0 <= i < |inputs| && inputs[i].name == n {
      FromNothing(valid, inputs[i], ValidOnly(valid, inputs[i], req.candidates.ForSlot(n)), ModeIn(req, n), req.turnId);
    }
  }

  lemma FromNothing(valid: Validity, input: InputDescriptor, good: seq<Candidate>, mode: SlotMode, turnId: string)
    ensures var slot := OutcomeOf(valid, input, None, good, mode, turnId).slot;
            slot.Some? ==> slot.value.sourceTurnId == turnId
  {}
}
