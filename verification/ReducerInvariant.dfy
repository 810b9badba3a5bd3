/** The state invariant of one turn: which constructors can refuse, what the next state is bound to,
    and when a slot may change. */
module ReducerInvariant {
  import opened Basics
  import opened ReadContext
  import opened Candidates
  import opened Reducer
  import opened ReducerLaws

  ghost predicate DescriptorOk(d: CapabilityDescriptor) {
    d.capabilityId != "" && NamesDistinct(d.inputs) && forall i :: 0 <= i < |d.inputs| ==> d.inputs[i].name != ""
  }

  /** A constructible slot of a declared input. Only a migrated one may be cleared without being required. */
  ghost predicate SlotFits(input: InputDescriptor, slot: SlotBinding) {
    && slot.Valid() && slot.name == input.name
    && (slot.state == CLEARED ==> input.required || slot.provenance == INHERITED_LEGACY)
  }

  ghost predicate Declared(d: CapabilityDescriptor, name: string) {
    exists i :: 0 <= i < |d.inputs| && d.inputs[i].name == name
  }

  /** Constructible slots of declared inputs; a migrated frame may also hold slots its capability does not
      declare. */
  ghost predicate SlotsFit(d: CapabilityDescriptor, slots: map<string, SlotBinding>) {
    forall n :: n in slots ==>
      || (exists i :: 0 <= i < |d.inputs| && d.inputs[i].name == n && SlotFits(d.inputs[i], slots[n]))
      || (!Declared(d, n) && slots[n].provenance == INHERITED_LEGACY && slots[n].Valid() && slots[n].name == n)
  }

  ghost predicate CandidateOk(c: Candidate) {
    c.value != "" && (c.span.Some? ==> 0 <= c.span.value.start <= c.span.value.end)
  }

  /** What the orchestrator hands to the reducer: named identifiers and extracted candidates. */
  ghost predicate TurnOk(req: Request) {
    && DescriptorOk(req.descriptor)
    && req.turnId != "" && req.snapshotId != "" && req.capabilityVersion != ""
    && (forall n, c :: n in req.candidates.slots && c in req.candidates.slots[n] ==> CandidateOk(c))
  }

  /** The prior state was constructed, and its frame belongs to the catalog the turn is read against. */
  ghost predicate PriorOk(req: Request) {
    && req.prior.Valid()
    && (req.prior.activeFrame.Some? && req.prior.activeFrame.value.capabilityId == req.descriptor.capabilityId ==>
          SlotsFit(req.descriptor, req.prior.activeFrame.value.slots))
  }

  // ---------------------------------------------------------------- every slot a turn builds is sound

  lemma {:induction false} SourceSpanIsSome(cands: seq<Candidate>, value: string)
    ensures SourceSpan(cands, value).Some? ==> exists c :: c in cands && c.span == SourceSpan(cands, value)
  {
    if cands != [] {
      if cands[0].source != MODEL && cands[0].value == value { assert cands[0] in cands; }
      else { SourceSpanIsSome(cands[1..], value); }
    }
  }

  lemma OfferedFits(input: InputDescriptor, prior: Option<SlotBinding>, offer: Offer, good: seq<Candidate>, turnId: string)
    requires input.name != "" && turnId != "" && offer.Selected() != []
    requires AllNonEmpty(offer.Selected())
    requires forall c :: c in good ==> CandidateOk(c)
    ensures SlotFits(input, OfferedOutcome(input.name, prior, offer, good, turnId).slot.value)
  {
    SourceSpanIsSome(good, offer.Selected()[0]);
  }

  lemma SelectedNonEmpty(good: seq<Candidate>, expected: bool)
    requires forall c :: c in good ==> CandidateOk(c)
    ensures AllNonEmpty(OfferOf(good, expected).Selected())
  {
    SelectedIsEvidenced(good, expected);
    var selected := OfferOf(good, expected).Selected();
    assert forall i :: 0 <= i < |selected| ==> selected[i] in selected;
  }

  lemma OutcomeFits(valid: Validity, input: InputDescriptor, prior: Option<SlotBinding>,
                    good: seq<Candidate>, mode: SlotMode, turnId: string)
    requires input.name != "" && turnId != "" && forall c :: c in good ==> CandidateOk(c)
    requires prior.Some? ==> SlotFits(input, prior.value)
    ensures var slot := OutcomeOf(valid, input, prior, good, mode, turnId).slot;
            slot.Some? ==> SlotFits(input, slot.value)
  {
    SelectedNonEmpty(good, mode.expected);
    if OfferOf(good, mode.expected).Selected() != [] {
      OfferedFits(input, prior, OfferOf(good, mode.expected), good, turnId);
    }
  }

  lemma GoodOk(valid: Validity, req: Request, input: InputDescriptor)
    requires TurnOk(req)
    ensures forall c :: c in Evidenced(valid, req, input) ==> CandidateOk(c)
  {
    ValidOnlyMembers(valid, input, req.candidates.ForSlot(input.name));
  }

  lemma NextSlotsFit(valid: Validity, req: Request)
    requires TurnOk(req) && PriorOk(req)
    ensures SlotsFit(req.descriptor, LoopEnd(valid, req).slots)
  {
    var o, inputs := Open(req), req.descriptor.inputs;
    var slots := LoopEnd(valid, req).slots;
    forall n | n in slots
      ensures (exists i :: 0 <= i < |inputs| && inputs[i].name == n && SlotFits(inputs[i], slots[n]))
              || (!Declared(req.descriptor, n) && slots[n].provenance == INHERITED_LEGACY && slots[n].Valid() && slots[n].name == n)
    {
      LoopBySlot(valid, TurnInputOf(req, o), LoopStart(o), inputs, |inputs|, n);
      assert Lookup(slots, n) == Some(slots[n]);
      if i :| 0 <= i < |inputs| && inputs[i].name == n {
        PriorSlotFits(req, i);
        GoodOk(valid, req, inputs[i]);
        OutcomeFits(valid, inputs[i], PriorSlot(req, n), Evidenced(valid, req, inputs[i]), ModeIn(req, n), req.turnId);
        assert TurnOutcomeFrom(valid, TurnInputOf(req, o), LoopStart(o), inputs[i]) == TurnOutcome(valid, req, inputs[i]);
        assert SlotFits(inputs[i], slots[n]);
      }
    }
  }

  // ---------------------------------------------------------------- the status and the pending interaction

  lemma {:induction false} UnresolvedNames(inputs: seq<InputDescriptor>, slots: map<string, SlotBinding>)
    ensures forall n :: n in Unresolved(inputs, slots) <==>
              exists i :: 0 <= i < |inputs| && inputs[i].name == n && inputs[i].required && !ResolvedIn(slots, n)
    ensures NamesDistinct(inputs) ==> Distinct(Unresolved(inputs, slots))
  {
    if inputs != [] {
      UnresolvedNames(inputs[1..], slots);
      var rest := Unresolved(inputs[1..], slots);
      forall n ensures n in Unresolved(inputs, slots) <==>
                exists i :: 0 <= i < |inputs| && inputs[i].name == n && inputs[i].required && !ResolvedIn(slots, n)
      {
        if n in rest {
          var i :| 0 <= i < |inputs[1..]| && inputs[1..][i].name == n && inputs[1..][i].required && !ResolvedIn(slots, n);
          assert inputs[i + 1].name == n;
        }
        if i :| 0 < i < |inputs| && inputs[i].name == n && inputs[i].required && !ResolvedIn(slots, n) {
          assert inputs[1..][i - 1].name == n;
        }
      }
      if NamesDistinct(inputs) {
        assert NamesDistinct(inputs[1..]) by {
          forall i, j | 0 <= i < j < |inputs[1..]| ensures inputs[1..][i].name != inputs[1..][j].name {
            assert inputs[i + 1].name != inputs[j + 1].name;
          }
        }
        assert inputs[0].name !in rest;
        assert forall i :: 0 <= i < |rest| ==> rest[i] in rest;
      }
    }
  }

  lemma ReadyUnfolds(d: CapabilityDescriptor, slots: map<string, SlotBinding>, stale: bool, pending: Option<Pending>)
    ensures DeriveStatus(d, slots, stale, pending) == READY <==>
              !stale && d.sideEffect == "none" && pending.None? && Unresolved(d.inputs, slots) == []
              && (forall n :: n in slots ==> slots[n].state != CONFLICTED)
              && (forall n :: n in slots ==> slots[n].provenance != INHERITED_LEGACY)
  {}

  lemma NoneUnresolved(inputs: seq<InputDescriptor>, slots: map<string, SlotBinding>)
    ensures Unresolved(inputs, slots) == [] <==>
              forall i :: 0 <= i < |inputs| && inputs[i].required ==> ResolvedIn(slots, inputs[i].name)
  {
    UnresolvedNames(inputs, slots);
    var names := Unresolved(inputs, slots);
    if names != [] {
      assert names[0] in names;
    } else {
      forall i | 0 <= i < |inputs| && inputs[i].required ensures ResolvedIn(slots, inputs[i].name) {
        assert inputs[i].name !in names;
      }
    }
  }

  /** Every slot resolved, none of them migrated, every required input among them. */
  ghost predicate Complete(d: CapabilityDescriptor, slots: map<string, SlotBinding>) {
    && (forall n :: n in slots ==> slots[n].state == RESOLVED && slots[n].provenance != INHERITED_LEGACY)
    && (forall i :: 0 <= i < |d.inputs| && d.inputs[i].required ==> d.inputs[i].name in slots)
  }

  /** READY means: a reading capability, not stale, nothing pending, complete slots. */
  lemma ReadyMeans(d: CapabilityDescriptor, slots: map<string, SlotBinding>, stale: bool, pending: Option<Pending>)
    requires SlotsFit(d, slots)
    ensures DeriveStatus(d, slots, stale, pending) == READY <==>
              !stale && d.sideEffect == "none" && pending.None? && Complete(d, slots)
  {
    ReadyUnfolds(d, slots, stale, pending);
    NoneUnresolved(d.inputs, slots);
    forall n | n in slots && slots[n].provenance != INHERITED_LEGACY
      ensures Unresolved(d.inputs, slots) == [] && slots[n].state != CONFLICTED ==> slots[n].state == RESOLVED
    {
      var i :| 0 <= i < |d.inputs| && d.inputs[i].name == n && SlotFits(d.inputs[i], slots[n]);
    }
  }

  /** The turn asks a question of its own instead of carrying an earlier one over. */
  predicate MintsClarification(valid: Validity, req: Request) {
    var o, s := Open(req), LoopEnd(valid, req);
    o.rejectedFields != [] || (PendingForStatus(valid, req, o, s).None? && AskedFields(valid, req, o, s) != [])
  }

  /** A question asked by the turn itself is well formed, its timestamp apart. */
  lemma FreshIsValid(req: Request, o: Opening, fields: seq<string>)
    requires TurnOk(req) && req.prior.stateVersion >= 0 && FrameIdOf(req, o) != ""
    requires fields != [] && AllNonEmpty(fields) && Distinct(fields)
    ensures FreshClarification(req, o, fields).Valid() <==> req.serverTime.IsUtcIso()
  {}

  lemma AskedAreNames(valid: Validity, req: Request, o: Opening, s: LoopState)
    requires DescriptorOk(req.descriptor)
    ensures AllNonEmpty(AskedFields(valid, req, o, s)) && Distinct(AskedFields(valid, req, o, s))
  {
    UnresolvedNames(req.descriptor.inputs, s.slots);
    var asked := AskedFields(valid, req, o, s);
    forall i | 0 <= i < |asked| ensures asked[i] != "" { assert asked[i] in asked; }
  }

  lemma OpeningFacts(req: Request)
    requires TurnOk(req) && PriorOk(req)
    ensures var o := Open(req);
            && FrameIdOf(req, o) != ""
            && (o.pending.Some? ==> o.pending == req.prior.pending && o.rejectedFields == [])
            && AllNonEmpty(o.rejectedFields) && Distinct(o.rejectedFields)
            && |o.recentFrames| <= 2 && (forall i :: 0 <= i < |o.recentFrames| ==> o.recentFrames[i].Valid())
            && (o.active.Some? ==> o.active.value.Valid())
  {}

  lemma NextPendingValid(valid: Validity, req: Request)
    requires TurnOk(req) && PriorOk(req)
    ensures var pending := NextPending(valid, req, Open(req), LoopEnd(valid, req));
            pending.Some? ==> (pending.value.Valid() <==> req.serverTime.IsUtcIso() || !MintsClarification(valid, req))
  {
    var o, s := Open(req), LoopEnd(valid, req);
    var before, asked := PendingForStatus(valid, req, o, s), AskedFields(valid, req, o, s);
    OpeningFacts(req);
    AskedAreNames(valid, req, o, s);
    if o.rejectedFields != [] {
      FreshIsValid(req, o, o.rejectedFields);
    } else if before.Some? {
      assert before == req.prior.pending;
    } else if asked != [] {
      FreshIsValid(req, o, asked);
    }
  }

  lemma NextFrameValid(valid: Validity, req: Request)
    requires TurnOk(req) && PriorOk(req)
    ensures NextFrame(valid, req, Open(req), LoopEnd(valid, req)).Valid()
  {
    var o, s := Open(req), LoopEnd(valid, req);
    OpeningFacts(req);
    NextSlotsFit(valid, req);
    ReadyMeans(req.descriptor, s.slots, o.stale || FailsRebind(valid, req, o, s), PendingForStatus(valid, req, o, s));
  }

  lemma MintingLeavesPending(valid: Validity, req: Request)
    ensures NextPending(valid, req, Open(req), LoopEnd(valid, req)).None? ==> !MintsClarification(valid, req)
  {
  }

  /** With a fixed catalog the only constructor a turn can trip is the timestamp of a question it asks
      itself, and it trips exactly when the server time was not given in UTC. */
  lemma RaisesExactlyWhen(valid: Validity, req: Request)
    requires TurnOk(req) && PriorOk(req)
    ensures Reduce(valid, req).Raise? <==> !req.serverTime.IsUtcIso() && MintsClarification(valid, req)
  {
    hide NextFrame, NextPending, MintsClarification, LoopEnd, Open, SlotsFit, DescriptorOk;
    OpeningFacts(req);
    NextFrameValid(valid, req);
    NextPendingValid(valid, req);
    MintingLeavesPending(valid, req);
  }

  /** What a completed turn hands on: the version grows by one, a READY frame carries no pending
      interaction and only resolved slots covering all required inputs, and any pending interaction is
      bound to exactly this frame, this version and this snapshot. */
  lemma TurnInvariant(valid: Validity, req: Request)
    requires TurnOk(req) && PriorOk(req) && Reduce(valid, req).Ok?
    ensures var next := Reduced(valid, req).nextState;
            var frame := next.activeFrame.value;
            && next.Valid() && next.activeFrame.Some?
            && next.stateVersion == req.prior.stateVersion + 1
            && |next.recentFrames| <= 2
            && frame.capabilityId == req.descriptor.capabilityId && frame.updatedTurnId == req.turnId
            && frame.registrySnapshotId == req.snapshotId && frame.capabilityVersion == req.capabilityVersion
            && SlotsFit(req.descriptor, frame.slots)
            && (frame.status == READY ==> next.pending.None? && Complete(req.descriptor, frame.slots))
            && (next.pending.Some? ==>
                  next.pending.value.BindingKey() == (frame.frameId, next.stateVersion, frame.registrySnapshotId))
  {
    hide LoopEnd, SlotsFit, FailsRebind, PendingForStatus, DeriveStatus, Unresolved;
    var o, s := Open(req), LoopEnd(valid, req);
    NextSlotsFit(valid, req);
    ReadyMeans(req.descriptor, s.slots, o.stale || FailsRebind(valid, req, o, s), PendingForStatus(valid, req, o, s));
  }

  // ---------------------------------------------------------------- the slot frame rule

  /** A non-model candidate of this turn, valid for the input. */
  ghost predicate OfferedThisTurn(valid: Validity, req: Request, input: InputDescriptor, value: string) {
    exists c :: c in req.candidates.ForSlot(input.name) && c.source != MODEL && c.value == value && valid(input, value)
  }

  function ValueOf(slot: Option<SlotBinding>): Option<string> {
    if slot.Some? then slot.value.value else None
  }

  function NextSlotOf(valid: Validity, req: Request, name: string): Option<SlotBinding> {
    Lookup(Reduced(valid, req).nextState.activeFrame.value.slots, name)
  }

  lemma OfferedMeansEvidenced(valid: Validity, req: Request, input: InputDescriptor, value: string)
    requires value in OfferOf(Evidenced(valid, req, input), ModeIn(req, input.name).expected).Selected()
    ensures OfferedThisTurn(valid, req, input, value)
  {
    SelectedIsEvidenced(Evidenced(valid, req, input), ModeIn(req, input.name).expected);
    ValidOnlyMembers(valid, input, req.candidates.ForSlot(input.name));
  }

  /** Why the value of a slot can differ after an input was processed. */
  lemma ValueChangeCauses(valid: Validity, input: InputDescriptor, prior: Option<SlotBinding>,
                          good: seq<Candidate>, mode: SlotMode, turnId: string)
    requires prior.Some? && prior.value.state == RESOLVED ==> prior.value.value.Some?
    ensures var selected := OfferOf(good, mode.expected).Selected();
            var was, now := ValueOf(prior), ValueOf(OutcomeOf(valid, input, prior, good, mode, turnId).slot);
            now != was ==>
              || (now.None? && mode.cleared)
              || (|selected| == 1 && now == Some(selected[0]))
              || (now.None? && |selected| > 1)
              || (now.None? && was.Some? && !valid(input, was.value))
  {}

  /** A turn that stays on its capability changes the value of a slot only because valid non-model
      evidence offered the new value, because such evidence contradicted itself, because the user cleared
      the slot, or because the old value is no longer valid. */
  lemma SlotFrameRule(valid: Validity, req: Request, i: nat)
    requires TurnOk(req) && PriorOk(req) && i < |req.descriptor.inputs|
    requires var input := req.descriptor.inputs[i];
             ValueOf(NextSlotOf(valid, req, input.name)) != ValueOf(PriorSlot(req, input.name))
    ensures var input := req.descriptor.inputs[i];
            var was, now := ValueOf(PriorSlot(req, input.name)), ValueOf(NextSlotOf(valid, req, input.name));
            || (now.Some? && OfferedThisTurn(valid, req, input, now.value))
            || (now.None? && Contradicted(valid, req, input))
            || (now.None? && input.name in req.candidates.clearSlots)
            || (now.None? && was.Some? && !valid(input, was.value))
  {
    var input := req.descriptor.inputs[i];
    var good, mode := Evidenced(valid, req, input), ModeIn(req, input.name);
    NextSlot(valid, req, i);
    PriorSlotFits(req, i);
    ValueChangeCauses(valid, input, PriorSlot(req, input.name), good, mode, req.turnId);
    var selected := OfferOf(good, mode.expected).Selected();
    forall k | 0 <= k < |selected| ensures OfferedThisTurn(valid, req, input, selected[k]) {
      assert selected[k] in selected;
      OfferedMeansEvidenced(valid, req, input, selected[k]);
    }
    SelectedDistinct(good, mode.expected);
    assert |selected| > 1 ==> selected[0] != selected[1];
  }

  ghost predicate Contradicted(valid: Validity, req: Request, input: InputDescriptor) {
    exists v, w :: v != w && OfferedThisTurn(valid, req, input, v) && OfferedThisTurn(valid, req, input, w)
  }

  lemma PriorSlotFits(req: Request, i: nat)
    requires TurnOk(req) && PriorOk(req) && i < |req.descriptor.inputs|
    ensures var slot := PriorSlot(req, req.descriptor.inputs[i].name);
            slot.Some? ==> SlotFits(req.descriptor.inputs[i], slot.value)
  {
    var inputs := req.descriptor.inputs;
    var slot := PriorSlot(req, inputs[i].name);
    if slot.Some? {
      var j :| 0 <= j < |inputs| && inputs[j].name == inputs[i].name && SlotFits(inputs[j], slot.value);
      assert i == j;
    }
  }

  lemma SelectedDistinct(good: seq<Candidate>, expected: bool)
    ensures Distinct(OfferOf(good, expected).Selected())
  {
    var offer := OfferOf(good, expected);
    ValuesFromMembers(good, EXPLICIT_CORRECTION);
    ValuesFromMembers(good, CONFIRMATION);
    ValuesFromMembers(good, DETERMINISTIC_LABEL);
    WithoutDistinct(offer.confirmations, offer.corrections);
    WithoutMembers(offer.confirmations, offer.corrections);
    var rest := Offer.Without(offer.confirmations, offer.corrections);
    forall i, j | 0 <= i < j < |offer.Explicit()| ensures offer.Explicit()[i] != offer.Explicit()[j] {
      if i < |offer.corrections| <= j {
        assert offer.corrections[i] in offer.corrections;
        assert rest[j - |offer.corrections|] in rest;
      }
    }
  }

  lemma {:induction false} WithoutDistinct(values: seq<string>, excluded: seq<string>)
    requires Distinct(values)
    ensures Distinct(Offer.Without(values, excluded))
  {
    if values != [] {
      WithoutDistinct(values[1..], excluded);
      WithoutMembers(values[1..], excluded);
      var rest := Offer.Without(values[1..], excluded);
      assert forall i :: 0 <= i < |rest| ==> rest[i] in rest;
    }
  }

  /** An answer that comes too late, or was given to another frame, version or registry snapshot, changes
      no slot it was asked for, and none of these slots is reported as changed. */
  lemma LateAnswerChangesNothing(valid: Validity, req: Request, name: string)
    requires NamesDistinct(req.descriptor.inputs)
    requires req.prior.pending.Some? && name in req.prior.pending.value.expectedFields
    requires req.prior.activeFrame.Some?
    requires req.prior.activeFrame.value.capabilityId == req.descriptor.capabilityId
    requires req.prior.activeFrame.value.capabilityVersion == req.capabilityVersion
    requires req.serverTime.micros >= req.prior.pending.value.expiresAt.micros
             || req.prior.pending.value.BindingKey() != (req.prior.activeFrame.value.frameId, req.prior.stateVersion, req.snapshotId)
    ensures NextSlotOf(valid, req, name) == Lookup(req.prior.activeFrame.value.slots, name)
    ensures forall i :: 0 <= i < |req.descriptor.inputs| && req.descriptor.inputs[i].name == name ==>
              !TurnOutcome(valid, req, req.descriptor.inputs[i]).changed && name !in Reduced(valid, req).changedSlots
  {
    var o, inputs := Open(req), req.descriptor.inputs;
    assert name in o.rejectedFields;
    LateSlots(valid, req, o, name);
    if i :| 0 <= i < |inputs| && inputs[i].name == name {
      ChangedExactly(valid, req, i);
    }
  }

  lemma LateSlots(valid: Validity, req: Request, o: Opening, name: string)
    requires NamesDistinct(req.descriptor.inputs) && o == Open(req) && name in o.rejectedFields
    ensures NextSlotOf(valid, req, name) == PriorSlot(req, name)
    ensures forall i :: 0 <= i < |req.descriptor.inputs| && req.descriptor.inputs[i].name == name ==>
              !TurnOutcome(valid, req, req.descriptor.inputs[i]).changed
  {
    hide Open, StatusOf, NextPending;
    LoopBySlot(valid, TurnInputOf(req, o), LoopStart(o), req.descriptor.inputs, |req.descriptor.inputs|, name);
  }

  /** A turn without usable evidence and without requests to clear. */
  ghost predicate EvidenceFree(valid: Validity, req: Request) {
    && req.candidates.clearSlots == []
    && forall i, c :: 0 <= i < |req.descriptor.inputs| && c in Evidenced(valid, req, req.descriptor.inputs[i]) ==> c.source == MODEL
  }

  /** With nothing pending, an evidence-free turn keeps every valid resolved value together with the turn
      and the place it came from, and leaves migrated slots as they are. */
  lemma QuietTurnKeepsValues(valid: Validity, req: Request, i: nat)
    requires TurnOk(req) && PriorOk(req) && EvidenceFree(valid, req) && req.prior.pending.None?
    requires i < |req.descriptor.inputs|
    ensures var input := req.descriptor.inputs[i];
            var was, now := PriorSlot(req, input.name), NextSlotOf(valid, req, input.name);
            && now == InheritOutcome(valid, input, was).slot
            && (was.Some? && was.value.provenance == INHERITED_LEGACY ==> now == was)
            && (was.Some? && was.value.provenance != INHERITED_LEGACY && was.value.state == RESOLVED
                && valid(input, was.value.value.value) ==>
                  now.Some? && now.value == was.value.(provenance := INHERITED))
  {
    hide Reduced, Evidenced, LoopStart, TurnOutcome, NextSlotOf;
    var input := req.descriptor.inputs[i];
    PriorSlotFits(req, i);
    QuietOutcome(valid, req, i);
    NextSlotIsOutcome(valid, req, i);
    Inheriting(valid, input, PriorSlot(req, input.name));
  }

  lemma NextSlotIsOutcome(valid: Validity, req: Request, i: nat)
    requires NamesDistinct(req.descriptor.inputs) && i < |req.descriptor.inputs|
    ensures NextSlotOf(valid, req, req.descriptor.inputs[i].name) == TurnOutcome(valid, req, req.descriptor.inputs[i]).slot
  {
    NextSlot(valid, req, i);
  }

  lemma Inheriting(valid: Validity, input: InputDescriptor, was: Option<SlotBinding>)
    requires was.Some? ==> SlotFits(input, was.value)
    ensures var now := InheritOutcome(valid, input, was).slot;
            && (was.Some? && was.value.provenance == INHERITED_LEGACY ==> now == was)
            && (was.Some? && was.value.provenance != INHERITED_LEGACY && was.value.state == RESOLVED
                && valid(input, was.value.value.value) ==>
                  now.Some? && now.value == was.value.(provenance := INHERITED))
  {}

  lemma QuietOutcome(valid: Validity, req: Request, i: nat)
    requires TurnOk(req) && EvidenceFree(valid, req) && req.prior.pending.None? && i < |req.descriptor.inputs|
    ensures var input := req.descriptor.inputs[i];
            TurnOutcome(valid, req, input) == InheritOutcome(valid, input, PriorSlot(req, input.name))
  {
    var input := req.descriptor.inputs[i];
    EvidenceIsSelected(Evidenced(valid, req, input), ModeIn(req, input.name).expected);
  }

  /** A second quiet turn in a row reports no changed slot of the capability: the first one has already
      marked every kept value as inherited and dropped every invalid one. */
  lemma SecondQuietTurnChangesNothing(valid: Validity, first: Request, second: Request, i: nat)
    requires TurnOk(first) && PriorOk(first) && EvidenceFree(valid, first) && first.prior.pending.None?
    requires TurnOk(second) && EvidenceFree(valid, second) && second.prior.pending.None?
    requires second.descriptor == first.descriptor
    requires second.prior.activeFrame == Reduced(valid, first).nextState.activeFrame
    requires i < |first.descriptor.inputs|
    ensures first.descriptor.inputs[i].name !in Reduced(valid, second).changedSlots
    ensures NextSlotOf(valid, second, first.descriptor.inputs[i].name) == NextSlotOf(valid, first, first.descriptor.inputs[i].name)
  {
    hide Reduced, OutcomeOf, InheritOutcome, Open, EvidenceFree, SlotFits;
    var input, o := first.descriptor.inputs[i], Open(second);
    PriorSlotFits(first, i);
    QuietTurnKeepsValues(valid, first, i);
    CarriedOver(valid, first, second, input.name);
    InheritTwice(valid, input, PriorSlot(first, input.name));
    QuietOutcome(valid, second, i);
    NextSlot(valid, second, i);
    ChangedExactly(valid, second, i);
  }

  /** The next turn of the same capability starts from the slots this one left. */
  lemma CarriedOver(valid: Validity, first: Request, second: Request, name: string)
    requires second.descriptor == first.descriptor
    requires second.prior.activeFrame == Reduced(valid, first).nextState.activeFrame
    ensures PriorSlot(second, name) == NextSlotOf(valid, first, name)
  {
    hide LoopEnd, StatusOf, NextPending;
  }

  /** Inheriting a second time changes nothing any more. */
  lemma InheritTwice(valid: Validity, input: InputDescriptor, prior: Option<SlotBinding>)
    requires prior.Some? ==> SlotFits(input, prior.value)
    ensures var kept := InheritOutcome(valid, input, prior).slot;
            InheritOutcome(valid, input, kept).slot == kept && !InheritOutcome(valid, input, kept).changed
  {}

  /** A slot is reported as changed exactly when its own outcome says so. */
  lemma ChangedExactly(valid: Validity, req: Request, i: nat)
    requires NamesDistinct(req.descriptor.inputs) && i < |req.descriptor.inputs|
    ensures req.descriptor.inputs[i].name in Reduced(valid, req).changedSlots <==>
              TurnOutcome(valid, req, req.descriptor.inputs[i]).changed
  {
    hide OutcomeOf, Open, StatusOf, NextPending, NextFrame;
    var o := Open(req);
    LoopChanged(valid, TurnInputOf(req, o), LoopStart(o), req.descriptor.inputs, |req.descriptor.inputs|, i);
    assert TurnOutcomeFrom(valid, TurnInputOf(req, o), LoopStart(o), req.descriptor.inputs[i])
        == TurnOutcome(valid, req, req.descriptor.inputs[i]);
  }
}
