/** What one turn does to a slot, told from the request alone: what was offered, what was asked, what was
    cleared and what stood there before. */
module TurnSlots {
  import opened Basics
  import opened ReadContext
  import opened Candidates
  import opened Reducer
  import opened ReducerLaws
  import opened ReducerInvariant

  // ---------------------------------------------------------------- what the request says

  /** A valid value from this source. */
  ghost predicate Offered(valid: Validity, req: Request, input: InputDescriptor, source: Source, value: string) {
    exists c :: c in req.candidates.ForSlot(input.name) && c.source == source && c.value == value && valid(input, value)
  }

  /** A correction or a confirmation of the user. */
  ghost predicate Stated(valid: Validity, req: Request, input: InputDescriptor, value: string) {
    Offered(valid, req, input, EXPLICIT_CORRECTION, value) || Offered(valid, req, input, CONFIRMATION, value)
  }

  /** What the user stated outweighs every label; labels count when nothing was stated; a model never counts. */
  ghost predicate Preferred(valid: Validity, req: Request, input: InputDescriptor, value: string) {
    || Stated(valid, req, input, value)
    || (Offered(valid, req, input, DETERMINISTIC_LABEL, value) && forall v :: !Stated(valid, req, input, v))
  }

  ghost predicate Undisputed(valid: Validity, req: Request, input: InputDescriptor, value: string) {
    Preferred(valid, req, input, value) && forall v :: Preferred(valid, req, input, v) ==> v == value
  }

  ghost predicate Disputed(valid: Validity, req: Request, input: InputDescriptor) {
    exists v, w :: v != w && Preferred(valid, req, input, v) && Preferred(valid, req, input, w)
  }

  predicate SameCapability(req: Request) {
    req.prior.activeFrame.Some? && req.prior.activeFrame.value.capabilityId == req.descriptor.capabilityId
  }

  predicate NewVersion(req: Request) {
    SameCapability(req) && req.prior.activeFrame.value.capabilityVersion != req.capabilityVersion
  }

  /** The earlier question, unless the turn leaves its capability or its version. */
  predicate QuestionStands(req: Request) {
    req.prior.pending.Some? && (req.prior.activeFrame.None? || SameCapability(req)) && !NewVersion(req)
  }

  /** It was put to this frame, version and snapshot, and is still open. */
  predicate InTime(req: Request) {
    && req.prior.pending.Some? && req.prior.activeFrame.Some?
    && req.prior.pending.value.frameId == req.prior.activeFrame.value.frameId
    && req.prior.pending.value.stateVersion == req.prior.stateVersion
    && req.prior.pending.value.registrySnapshotId == req.snapshotId
    && req.serverTime.micros < req.prior.pending.value.expiresAt.micros
  }

  predicate AskedFor(req: Request, name: string) {
    QuestionStands(req) && InTime(req) && name in req.prior.pending.value.expectedFields
  }

  predicate TooLateFor(req: Request, name: string) {
    QuestionStands(req) && !InTime(req) && name in req.prior.pending.value.expectedFields
  }

  function SlotBefore(req: Request, name: string): Option<SlotBinding> {
    if SameCapability(req) then Lookup(req.prior.activeFrame.value.slots, name) else None
  }

  lemma OpeningIs(req: Request, name: string)
    ensures PriorSlot(req, name) == SlotBefore(req, name)
    ensures ModeIn(req, name) == SlotMode(TooLateFor(req, name), AskedFor(req, name), name in req.candidates.clearSlots)
  {}

  // ---------------------------------------------------------------- the values put forward

  lemma OfferedExactly(valid: Validity, req: Request, input: InputDescriptor, source: Source, value: string)
    ensures value in ValuesFrom(Evidenced(valid, req, input), source) <==> Offered(valid, req, input, source, value)
  {
    ValuesFromMembers(Evidenced(valid, req, input), source);
    ValidOnlyMembers(valid, input, req.candidates.ForSlot(input.name));
  }

  /** The values a turn puts forward for an input are exactly the preferred ones, each once. */
  lemma SelectedExactly(valid: Validity, req: Request, input: InputDescriptor, expected: bool)
    ensures var offer := OfferOf(Evidenced(valid, req, input), expected);
            && Distinct(offer.Selected())
            && (forall v :: v in offer.Selected() <==> Preferred(valid, req, input, v))
            && (offer.Explicit() != [] <==> exists v :: Stated(valid, req, input, v))
  {
    var good := Evidenced(valid, req, input);
    var offer := OfferOf(good, expected);
    SelectedDistinct(good, expected);
    WithoutMembers(offer.confirmations, offer.corrections);
    forall v
      ensures v in offer.Explicit() <==> Stated(valid, req, input, v)
      ensures v in offer.deterministic <==> Offered(valid, req, input, DETERMINISTIC_LABEL, v)
    {
      OfferedExactly(valid, req, input, EXPLICIT_CORRECTION, v);
      OfferedExactly(valid, req, input, CONFIRMATION, v);
      OfferedExactly(valid, req, input, DETERMINISTIC_LABEL, v);
    }
    hide Stated, Offered, ValuesFrom, Offer.Explicit;
    if offer.Explicit() != [] { assert offer.Explicit()[0] in offer.Explicit(); }
  }

  lemma HowMany(valid: Validity, req: Request, input: InputDescriptor, expected: bool)
    ensures var selected := OfferOf(Evidenced(valid, req, input), expected).Selected();
            && (selected == [] <==> forall v :: !Preferred(valid, req, input, v))
            && (|selected| == 1 <==> exists v :: Undisputed(valid, req, input, v))
            && (|selected| == 1 ==> Undisputed(valid, req, input, selected[0]))
            && (|selected| > 1 <==> Disputed(valid, req, input))
  {
    SelectedExactly(valid, req, input, expected);
    hide Preferred, Offer.Selected, OfferOf;
    var selected := OfferOf(Evidenced(valid, req, input), expected).Selected();
    if selected != [] { assert selected[0] in selected; }
    if |selected| == 1 { assert Undisputed(valid, req, input, selected[0]); }
    if |selected| > 1 { assert selected[0] in selected && selected[1] in selected && selected[0] != selected[1]; }
  }

  // ---------------------------------------------------------------- where the value stood

  /** The place of the first candidate with this value that is no model guess. */
  ghost predicate FirstPlace(cands: seq<Candidate>, value: string, span: Option<Span>) {
    exists k :: 0 <= k < |cands| && cands[k].source != MODEL && cands[k].value == value && cands[k].span == span
                && forall j :: 0 <= j < k ==> cands[j].source == MODEL || cands[j].value != value
  }

  lemma {:induction false} SpanIsFirstPlace(cands: seq<Candidate>, value: string)
    requires exists c :: c in cands && c.source != MODEL && c.value == value
    ensures FirstPlace(cands, value, SourceSpan(cands, value))
  {
    if cands[0].source != MODEL && cands[0].value == value {
      assert cands[0].span == SourceSpan(cands, value);
    } else {
      SpanIsFirstPlace(cands[1..], value);
      var k :| 0 <= k < |cands[1..]| && cands[1..][k].source != MODEL && cands[1..][k].value == value
               && cands[1..][k].span == SourceSpan(cands[1..], value)
               && forall j :: 0 <= j < k ==> cands[1..][j].source == MODEL || cands[1..][j].value != value;
      assert cands[k + 1] == cands[1..][k];
      assert forall j :: 0 < j < k + 1 ==> cands[j] == cands[1..][j - 1];
    }
  }

  ghost predicate HasValue(cands: seq<Candidate>, value: string) {
    exists c :: c in cands && c.source != MODEL && c.value == value
  }

  lemma SpanSnoc(cands: seq<Candidate>, last: Candidate, value: string)
    ensures SourceSpan(cands + [last], value) ==
            if HasValue(cands, value) then SourceSpan(cands, value)
            else if last.source != MODEL && last.value == value then last.span else None
    ensures !HasValue(cands, value) ==> SourceSpan(cands, value) == None
  {
    SourceSpanAppend(cands, last, value);
    SpanAbsent(cands, value);
  }

  lemma {:induction false} SpanOfValid(valid: Validity, input: InputDescriptor, cands: seq<Candidate>, value: string)
    requires valid(input, value)
    ensures SourceSpan(ValidOnly(valid, input, cands), value) == SourceSpan(cands, value)
    ensures HasValue(ValidOnly(valid, input, cands), value) <==> HasValue(cands, value)
  {
    ValidOnlyMembers(valid, input, cands);
    hide SourceSpan;
    if cands != [] {
      var init, last := cands[..|cands| - 1], cands[|cands| - 1];
      SpanOfValid(valid, input, init, value);
      assert cands == init + [last];
      SpanSnoc(init, last, value);
      var good := ValidOnly(valid, input, init);
      hide HasValue;
      SpanSnoc(good, last, value);
      assert ValidOnly(valid, input, cands) == if valid(input, last.value) then good + [last] else good + [];
      assert good + [] == good;
    }
  }

  // ---------------------------------------------------------------- the slot after the turn

  /** A slot in dispute shows the contradicting values, each once, and no value of its own. */
  ghost predicate InDispute(valid: Validity, req: Request, input: InputDescriptor, slot: SlotBinding) {
    && slot.name == input.name && slot.state == CONFLICTED && slot.value.None? && slot.provenance == EXPLICIT
    && slot.sourceTurnId == req.turnId && slot.sourceSpan.None?
    && Distinct(slot.candidates) && (forall v :: v in slot.candidates <==> Preferred(valid, req, input, v))
    && slot.issues == [if exists v :: Stated(valid, req, input, v) then "conflicting_explicit_values"
                       else "conflicting_deterministic_values"]
  }

  /** A slot that was settled in this turn: confirmed when it answers a question, fills a cleared slot or was
      confirmed without a correction, and explicit otherwise. */
  ghost predicate SettledAs(valid: Validity, req: Request, input: InputDescriptor, slot: SlotBinding, value: string) {
    && slot.name == input.name && slot.state == RESOLVED && slot.value == Some(value) && slot.candidates == [value]
    && slot.sourceTurnId == req.turnId && slot.issues == []
    && FirstPlace(req.candidates.ForSlot(input.name), value, slot.sourceSpan)
    && slot.provenance ==
       if || AskedFor(req, input.name)
          || (SlotBefore(req, input.name).Some? && SlotBefore(req, input.name).value.state == CLEARED)
          || ((exists v :: Offered(valid, req, input, CONFIRMATION, v))
              && forall v :: !Offered(valid, req, input, EXPLICIT_CORRECTION, v))
       then CONFIRMED else EXPLICIT
  }

  lemma ResolvedIsSettled(valid: Validity, req: Request, input: InputDescriptor, value: string)
    requires Undisputed(valid, req, input, value)
    ensures var offer := OfferOf(Evidenced(valid, req, input), AskedFor(req, input.name));
            && offer.Selected() == [value]
            && SettledAs(valid, req, input, ResolvedSlot(input.name, offer, SlotBefore(req, input.name),
                                                         SourceSpan(Evidenced(valid, req, input), value), req.turnId), value)
  {
    var offer := OfferOf(Evidenced(valid, req, input), AskedFor(req, input.name));
    hide Offer.Selected, Offered, FirstPlace, Evidenced, SourceSpan, AskedFor, SlotBefore, Preferred, Undisputed;
    OnlySelected(valid, req, input, AskedFor(req, input.name), value);
    PlaceOfUndisputed(valid, req, input, value);
    Sources(valid, req, input);
  }

  lemma OnlySelected(valid: Validity, req: Request, input: InputDescriptor, expected: bool, value: string)
    requires Undisputed(valid, req, input, value)
    ensures OfferOf(Evidenced(valid, req, input), expected).Selected() == [value]
  {
    hide Offer.Selected, Preferred, OfferOf, Evidenced;
    HowMany(valid, req, input, expected);
  }

  lemma PlaceOfUndisputed(valid: Validity, req: Request, input: InputDescriptor, value: string)
    requires Undisputed(valid, req, input, value)
    ensures FirstPlace(req.candidates.ForSlot(input.name), value, SourceSpan(Evidenced(valid, req, input), value))
  {
    var cands := req.candidates.ForSlot(input.name);
    SpanOfValid(valid, input, cands, value);
    SpanIsFirstPlace(cands, value);
  }

  lemma Sources(valid: Validity, req: Request, input: InputDescriptor)
    ensures var good := Evidenced(valid, req, input);
            && (ValuesFrom(good, EXPLICIT_CORRECTION) == [] <==> forall v :: !Offered(valid, req, input, EXPLICIT_CORRECTION, v))
            && (ValuesFrom(good, CONFIRMATION) != [] <==> exists v :: Offered(valid, req, input, CONFIRMATION, v))
  {
    var good := Evidenced(valid, req, input);
    forall v, source ensures v in ValuesFrom(good, source) <==> Offered(valid, req, input, source, v) {
      OfferedExactly(valid, req, input, source, v);
    }
    hide Offered, ValuesFrom;
    if ValuesFrom(good, EXPLICIT_CORRECTION) != [] { assert ValuesFrom(good, EXPLICIT_CORRECTION)[0] in ValuesFrom(good, EXPLICIT_CORRECTION); }
    if ValuesFrom(good, CONFIRMATION) != [] { assert ValuesFrom(good, CONFIRMATION)[0] in ValuesFrom(good, CONFIRMATION); }
  }

  /** Nothing was offered: migrated and unresolved slots stand as they are, a valid value is inherited, a value
      that has become invalid is dropped. */
  ghost predicate CarriedOn(valid: Validity, input: InputDescriptor, was: Option<SlotBinding>, now: Option<SlotBinding>) {
    if was.None? || was.value.provenance == INHERITED_LEGACY || was.value.state != RESOLVED then now == was
    else if was.value.value.Some? && valid(input, was.value.value.value) then now == Some(was.value.(provenance := INHERITED))
    else now.None?
  }

  /** The slot of every declared input after any turn. */
  lemma SlotAfterTurn(valid: Validity, req: Request, i: nat)
    requires TurnOk(req) && PriorOk(req) && i < |req.descriptor.inputs|
    ensures var input := req.descriptor.inputs[i];
            var was, now := SlotBefore(req, input.name), NextSlotOf(valid, req, input.name);
            if TooLateFor(req, input.name) then now == was
            else if input.name in req.candidates.clearSlots then
              now == if input.required then Some(SlotBinding(input.name, None, [], CLEARED, EXPLICIT, req.turnId, None, [])) else None
            else if Disputed(valid, req, input) then now.Some? && InDispute(valid, req, input, now.value)
            else if exists v :: Preferred(valid, req, input, v) then
              now.Some? && exists v :: Undisputed(valid, req, input, v) && SettledAs(valid, req, input, now.value, v)
            else CarriedOn(valid, input, was, now)
  {
    var input := req.descriptor.inputs[i];
    NextSlotIsOutcome(valid, req, i);
    OpeningIs(req, input.name);
    PriorSlotFits(req, i);
    hide Reduced, Open, TooLateFor, AskedFor, TurnOk, PriorOk, PriorSlot, SlotBefore, ModeIn, NextSlotOf;
    OutcomeIs(valid, req, input);
  }

  lemma OutcomeIs(valid: Validity, req: Request, input: InputDescriptor)
    requires SlotBefore(req, input.name).Some? ==> SlotBefore(req, input.name).value.name == input.name
    ensures var was := SlotBefore(req, input.name);
            var mode := SlotMode(TooLateFor(req, input.name), AskedFor(req, input.name), input.name in req.candidates.clearSlots);
            var now := OutcomeOf(valid, input, was, Evidenced(valid, req, input), mode, req.turnId).slot;
            if TooLateFor(req, input.name) then now == was
            else if input.name in req.candidates.clearSlots then
              now == if input.required then Some(SlotBinding(input.name, None, [], CLEARED, EXPLICIT, req.turnId, None, [])) else None
            else if Disputed(valid, req, input) then now.Some? && InDispute(valid, req, input, now.value)
            else if exists v :: Preferred(valid, req, input, v) then
              now.Some? && exists v :: Undisputed(valid, req, input, v) && SettledAs(valid, req, input, now.value, v)
            else CarriedOn(valid, input, was, now)
  {
    hide Preferred, Disputed, Undisputed, SettledAs, TooLateFor, AskedFor, SlotBefore, Evidenced, OfferOf, Offer.Selected, Offer.Explicit, SourceSpan;
    var asked := AskedFor(req, input.name);
    HowMany(valid, req, input, asked);
    SelectedExactly(valid, req, input, asked);
    var selected := OfferOf(Evidenced(valid, req, input), asked).Selected();
    if |selected| == 1 { ResolvedIsSettled(valid, req, input, selected[0]); }
  }
}
