/** What one turn of the reducer keeps: slot by slot, against model guesses, and as a state invariant. */
module ReducerLaws {
  import opened Basics
  import opened ReadContext
  import opened Candidates
  import opened Reducer

  // ---------------------------------------------------------------- the loop, slot by slot

  function PriorSlot(req: Request, name: string): Option<SlotBinding> {
    Lookup(LoopStart(Open(req)).slots, name)
  }

  function ModeIn(req: Request, name: string): SlotMode {
    TurnInputOf(req, Open(req)).ModeOf(name)
  }

  /** The candidates of the turn that count for an input. */
  function Evidenced(valid: Validity, req: Request, input: InputDescriptor): seq<Candidate> {
    ValidOnly(valid, input, req.candidates.ForSlot(input.name))
  }

  /** What the turn does to the slot of one input, as if it were the only one. */
  function TurnOutcome(valid: Validity, req: Request, input: InputDescriptor): SlotOutcome {
    OutcomeOf(valid, input, PriorSlot(req, input.name), Evidenced(valid, req, input), ModeIn(req, input.name), req.turnId)
  }

  function TurnOutcomeFrom(valid: Validity, turn: TurnInput, start: LoopState, input: InputDescriptor): SlotOutcome {
    OutcomeOf(valid, input, Lookup(start.slots, input.name), ValidOnly(valid, input, turn.candidates.ForSlot(input.name)),
              turn.ModeOf(input.name), turn.turnId)
  }

  lemma StepBusiness(valid: Validity, turn: TurnInput, s: LoopState, input: InputDescriptor)
    ensures var out := TurnOutcomeFrom(valid, turn, s, input);
            var r := InputStep(valid, turn, s, input);
            && r.slots == PutSlot(s.slots, input.name, out.slot)
            && r.changed == s.changed + (if out.changed then [input.name] else [])
            && r.confirmedPending == (s.confirmedPending || out.confirmedPending)
            && r.deterministicChanged == (s.deterministicChanged || out.deterministicChanged)
  {
    hide OutcomeOf, NotesOf, ValidOnly;
  }

  /** The loop changes each slot by its own outcome, independently of the other inputs. */
  lemma {:induction false} LoopBySlot(valid: Validity, turn: TurnInput, start: LoopState,
                                      inputs: seq<InputDescriptor>, n: nat, name: string)
    requires NamesDistinct(inputs) && n <= |inputs|
    ensures forall i :: 0 <= i < n && inputs[i].name == name ==>
              Lookup(AfterInputs(valid, turn, start, inputs, n).slots, name) ==
              TurnOutcomeFrom(valid, turn, start, inputs[i]).slot
    ensures (forall i :: 0 <= i < n ==> inputs[i].name != name) ==>
              Lookup(AfterInputs(valid, turn, start, inputs, n).slots, name) == Lookup(start.slots, name)
  {
    hide InputStep, TurnOutcomeFrom;
    if n > 0 {
      LoopBySlot(valid, turn, start, inputs, n - 1, name);
      var before := AfterInputs(valid, turn, start, inputs, n - 1);
      if inputs[n - 1].name == name {
        StepChanged(valid, turn, before, start, inputs[n - 1]);
      } else {
        StepBusiness(valid, turn, before, inputs[n - 1]);
      }
    }
  }

  /** The loop reports a name as changed exactly when the outcome of its input says so. */
  lemma {:induction false} LoopChanged(valid: Validity, turn: TurnInput, start: LoopState,
                                       inputs: seq<InputDescriptor>, n: nat, i: nat)
    requires NamesDistinct(inputs) && n <= |inputs| && i < |inputs| && start.changed == []
    ensures inputs[i].name in AfterInputs(valid, turn, start, inputs, n).changed <==>
              i < n && TurnOutcomeFrom(valid, turn, start, inputs[i]).changed
  {
    hide InputStep, TurnOutcomeFrom;
    if n > 0 {
      LoopChanged(valid, turn, start, inputs, n - 1, i);
      LoopBySlot(valid, turn, start, inputs, n - 1, inputs[n - 1].name);
      StepChanged(valid, turn, AfterInputs(valid, turn, start, inputs, n - 1), start, inputs[n - 1]);
      assert inputs[n - 1].name == inputs[i].name <==> i == n - 1;
    }
  }

  lemma StepChanged(valid: Validity, turn: TurnInput, s: LoopState, start: LoopState, input: InputDescriptor)
    requires Lookup(s.slots, input.name) == Lookup(start.slots, input.name)
    ensures InputStep(valid, turn, s, input).slots ==
              PutSlot(s.slots, input.name, TurnOutcomeFrom(valid, turn, start, input).slot)
    ensures InputStep(valid, turn, s, input).changed ==
              s.changed + (if TurnOutcomeFrom(valid, turn, start, input).changed then [input.name] else [])
    ensures InputStep(valid, turn, s, input).confirmedPending ==
              (s.confirmedPending || TurnOutcomeFrom(valid, turn, start, input).confirmedPending)
    ensures InputStep(valid, turn, s, input).deterministicChanged ==
              (s.deterministicChanged || TurnOutcomeFrom(valid, turn, start, input).deterministicChanged)
  {
    hide OutcomeOf, NotesOf, ValidOnly;
  }

  /** A pending interaction is answered, or a slot settled anew, exactly when the outcome of some input is. */
  lemma {:induction false} LoopFlags(valid: Validity, turn: TurnInput, start: LoopState, inputs: seq<InputDescriptor>, n: nat)
    requires NamesDistinct(inputs) && n <= |inputs|
    ensures AfterInputs(valid, turn, start, inputs, n).confirmedPending <==>
              start.confirmedPending || exists i :: 0 <= i < n && TurnOutcomeFrom(valid, turn, start, inputs[i]).confirmedPending
    ensures AfterInputs(valid, turn, start, inputs, n).deterministicChanged <==>
              start.deterministicChanged || exists i :: 0 <= i < n && TurnOutcomeFrom(valid, turn, start, inputs[i]).deterministicChanged
  {
    hide InputStep, TurnOutcomeFrom;
    if n > 0 {
      LoopFlags(valid, turn, start, inputs, n - 1);
      LoopBySlot(valid, turn, start, inputs, n - 1, inputs[n - 1].name);
      StepChanged(valid, turn, AfterInputs(valid, turn, start, inputs, n - 1), start, inputs[n - 1]);
    }
  }

  /** The slots of the next frame, read off input by input. */
  lemma NextSlot(valid: Validity, req: Request, i: nat)
    requires NamesDistinct(req.descriptor.inputs) && i < |req.descriptor.inputs|
    ensures var frame := Reduced(valid, req).nextState.activeFrame;
            Lookup(frame.value.slots, req.descriptor.inputs[i].name) == TurnOutcome(valid, req, req.descriptor.inputs[i]).slot
  {
    var o := Open(req);
    LoopBySlot(valid, TurnInputOf(req, o), LoopStart(o), req.descriptor.inputs, |req.descriptor.inputs|,
               req.descriptor.inputs[i].name);
  }

  // ---------------------------------------------------------------- values and where they come from

  lemma {:induction false} ValuesFromMembers(cands: seq<Candidate>, source: Source)
    ensures forall v :: v in ValuesFrom(cands, source) <==> exists c :: c in cands && c.source == source && c.value == v
    ensures Distinct(ValuesFrom(cands, source))
  {
    if cands != [] {
      var init, last := cands[..|cands| - 1], cands[|cands| - 1];
      ValuesFromMembers(init, source);
      assert cands == init + [last];
      forall v ensures v in ValuesFrom(cands, source) <==> exists c :: c in cands && c.source == source && c.value == v {
        if last.source == source && v == last.value { assert last in cands; }
      }
    }
  }

  lemma {:induction false} ValidOnlyMembers(valid: Validity, input: InputDescriptor, cands: seq<Candidate>)
    ensures forall c :: c in ValidOnly(valid, input, cands) <==> c in cands && valid(input, c.value)
  {
    if cands != [] {
      var init, last := cands[..|cands| - 1], cands[|cands| - 1];
      ValidOnlyMembers(valid, input, init);
      assert cands == init + [last];
    }
  }

  lemma {:induction false} WithoutMembers(values: seq<string>, excluded: seq<string>)
    ensures forall v :: v in Offer.Without(values, excluded) <==> v in values && v !in excluded
  {
    if values != [] { WithoutMembers(values[1..], excluded); }
  }

  /** A value is put forward only by a candidate that is not a model guess. */
  lemma SelectedIsEvidenced(good: seq<Candidate>, expected: bool)
    ensures forall v :: v in OfferOf(good, expected).Selected() ==>
              exists c :: c in good && c.source != MODEL && c.value == v
  {
    var offer := OfferOf(good, expected);
    ValuesFromMembers(good, EXPLICIT_CORRECTION);
    ValuesFromMembers(good, CONFIRMATION);
    ValuesFromMembers(good, DETERMINISTIC_LABEL);
    WithoutMembers(offer.confirmations, offer.corrections);
  }

  /** Conversely, a turn with any non-model candidate puts some value forward. */
  lemma EvidenceIsSelected(good: seq<Candidate>, expected: bool)
    ensures OfferOf(good, expected).Selected() == [] <==> forall c :: c in good ==> c.source == MODEL
  {
    var offer := OfferOf(good, expected);
    ValuesFromMembers(good, EXPLICIT_CORRECTION);
    ValuesFromMembers(good, CONFIRMATION);
    ValuesFromMembers(good, DETERMINISTIC_LABEL);
    WithoutMembers(offer.confirmations, offer.corrections);
    SelectedIsEvidenced(good, expected);
    forall c | c in good && c.source != MODEL ensures offer.Selected() != [] {
      assert c.value in offer.corrections || c.value in offer.confirmations || c.value in offer.deterministic;
      assert c.value in offer.confirmations ==>
          c.value in offer.corrections || c.value in Offer.Without(offer.confirmations, offer.corrections);
    }
    if offer.Selected() != [] {
      assert offer.Selected()[0] in offer.Selected();
    }
  }

  // ---------------------------------------------------------------- model output is advisory only

  lemma {:induction false} ValidOnlyWithoutModel(valid: Validity, input: InputDescriptor, cands: seq<Candidate>)
    ensures WithoutModel(ValidOnly(valid, input, cands)) == ValidOnly(valid, input, WithoutModel(cands))
  {
    if cands != [] {
      var init, last := cands[..|cands| - 1], cands[|cands| - 1];
      ValidOnlyWithoutModel(valid, input, init);
      var goodInit := ValidOnly(valid, input, init);
      if valid(input, last.value) { WithoutModelAppend(goodInit, last); } else { assert goodInit + [] == goodInit; }
      if last.source != MODEL {
        assert (WithoutModel(init) + [last])[..|WithoutModel(init)|] == WithoutModel(init);
        assert ValidOnly(valid, input, WithoutModel(init)) + [] == ValidOnly(valid, input, WithoutModel(init));
      }
    }
  }

  lemma {:induction false} ValuesFromWithoutModel(cands: seq<Candidate>, source: Source)
    requires source != MODEL
    ensures ValuesFrom(WithoutModel(cands), source) == ValuesFrom(cands, source)
  {
    if cands != [] {
      var init, last := cands[..|cands| - 1], cands[|cands| - 1];
      ValuesFromWithoutModel(init, source);
      if last.source != MODEL { assert (WithoutModel(init) + [last])[..|WithoutModel(init)|] == WithoutModel(init); }
    }
  }

  lemma {:induction false} SourceSpanAppend(cands: seq<Candidate>, last: Candidate, value: string)
    ensures SourceSpan(cands + [last], value) ==
            if exists c :: c in cands && c.source != MODEL && c.value == value then SourceSpan(cands, value)
            else if last.source != MODEL && last.value == value then last.span else None
  {
    if cands == [] {
      assert cands + [last] == [last] && [last][1..] == [];
    } else {
      assert (cands + [last])[1..] == cands[1..] + [last];
      SourceSpanAppend(cands[1..], last, value);
      assert forall c :: c in cands <==> c == cands[0] || c in cands[1..];
    }
  }

  lemma {:induction false} SourceSpanWithoutModel(cands: seq<Candidate>, value: string)
    ensures SourceSpan(WithoutModel(cands), value) == SourceSpan(cands, value)
  {
    if cands != [] {
      var init, last := cands[..|cands| - 1], cands[|cands| - 1];
      SourceSpanWithoutModel(init, value);
      WithoutModelMembers(init);
      assert cands == init + [last];
      SourceSpanAppend(init, last, value);
      if last.source != MODEL { SourceSpanAppend(WithoutModel(init), last, value); }
      else { SpanAbsent(init, value); }
    }
  }

  lemma {:induction false} SpanAbsent(cands: seq<Candidate>, value: string)
    ensures (forall c :: c in cands ==> c.source == MODEL || c.value != value) ==> SourceSpan(cands, value) == None
  {
    if cands != [] { SpanAbsent(cands[1..], value); }
  }

  /** The outcome for a slot is decided by the non-model candidates alone. */
  lemma OutcomeIgnoresModel(valid: Validity, input: InputDescriptor, prior: Option<SlotBinding>,
                            a: seq<Candidate>, b: seq<Candidate>, mode: SlotMode, turnId: string)
    requires WithoutModel(a) == WithoutModel(b)
    ensures OutcomeOf(valid, input, prior, ValidOnly(valid, input, a), mode, turnId) ==
            OutcomeOf(valid, input, prior, ValidOnly(valid, input, b), mode, turnId)
  {
    var goodA, goodB := ValidOnly(valid, input, a), ValidOnly(valid, input, b);
    ValidOnlyWithoutModel(valid, input, a);
    ValidOnlyWithoutModel(valid, input, b);
    forall s: Source | s != MODEL ensures ValuesFrom(goodA, s) == ValuesFrom(goodB, s) {
      ValuesFromWithoutModel(goodA, s);
      ValuesFromWithoutModel(goodB, s);
    }
    assert OfferOf(goodA, mode.expected) == OfferOf(goodB, mode.expected);
    forall v ensures SourceSpan(goodA, v) == SourceSpan(goodB, v) {
      SourceSpanWithoutModel(goodA, v);
      SourceSpanWithoutModel(goodB, v);
    }
  }

  /** Two turns that may differ in what the model proposed, and in nothing else. */
  ghost predicate SameButForModel(a: Request, b: Request) {
    && SameEvidence(a.candidates, b.candidates)
    && a == b.(candidates := a.candidates)
  }

  ghost predicate SameBusiness(a: LoopState, b: LoopState) {
    && a.slots == b.slots && a.changed == b.changed
    && a.confirmedPending == b.confirmedPending && a.deterministicChanged == b.deterministicChanged
  }

  lemma {:induction false} LoopIgnoresModel(valid: Validity, a: TurnInput, b: TurnInput, sa: LoopState, sb: LoopState,
                                            inputs: seq<InputDescriptor>, n: nat)
    requires SameEvidence(a.candidates, b.candidates) && a == b.(candidates := a.candidates)
    requires SameBusiness(sa, sb) && n <= |inputs|
    ensures SameBusiness(AfterInputs(valid, a, sa, inputs, n), AfterInputs(valid, b, sb, inputs, n))
  {
    hide InputStep, OutcomeOf;
    if n > 0 {
      LoopIgnoresModel(valid, a, b, sa, sb, inputs, n - 1);
      var input := inputs[n - 1];
      var ra, rb := AfterInputs(valid, a, sa, inputs, n - 1), AfterInputs(valid, b, sb, inputs, n - 1);
      OutcomeIgnoresModel(valid, input, Lookup(ra.slots, input.name),
                          a.candidates.ForSlot(input.name), b.candidates.ForSlot(input.name),
                          a.ModeOf(input.name), a.turnId);
      StepBusiness(valid, a, ra, input);
      StepBusiness(valid, b, rb, input);
    }
  }

  /** Model output is advisory: it can change the issues and the evidence of a turn, and nothing else. */
  lemma ModelIsAdvisory(valid: Validity, a: Request, b: Request)
    requires SameButForModel(a, b)
    ensures Reduced(valid, a).nextState == Reduced(valid, b).nextState
    ensures Reduced(valid, a).operation == Reduced(valid, b).operation
    ensures Reduced(valid, a).changedSlots == Reduced(valid, b).changedSlots
  {
    LoopIgnoresModel(valid, TurnInputOf(a, Open(a)), TurnInputOf(b, Open(b)), LoopStart(Open(a)), LoopStart(Open(b)),
                     a.descriptor.inputs, |a.descriptor.inputs|);
    var sa, sb := LoopEnd(valid, a), LoopEnd(valid, b);
    assert SameBusiness(sa, sb);
    CloseIgnoresNotes(valid, a, b, sa, sb);
  }

  lemma CloseIgnoresNotes(valid: Validity, a: Request, b: Request, sa: LoopState, sb: LoopState)
    requires SameButForModel(a, b) && SameBusiness(sa, sb)
    ensures Close(valid, a, Open(a), sa).nextState == Close(valid, b, Open(b), sb).nextState
    ensures Close(valid, a, Open(a), sa).operation == Close(valid, b, Open(b), sb).operation
    ensures Close(valid, a, Open(a), sa).changedSlots == Close(valid, b, Open(b), sb).changedSlots
  {
    var oa, ob := Open(a), Open(b);
    assert oa == ob.(issues := oa.issues);
    assert PendingAfterAnswers(a, oa, sa) == PendingAfterAnswers(b, ob, sb);
    assert FailsRebind(valid, a, oa, sa) == FailsRebind(valid, b, ob, sb);
    assert PendingForStatus(valid, a, oa, sa) == PendingForStatus(valid, b, ob, sb);
    assert StatusOf(valid, a, oa, sa) == StatusOf(valid, b, ob, sb);
    assert AskedFields(valid, a, oa, sa) == AskedFields(valid, b, ob, sb);
  }
}
