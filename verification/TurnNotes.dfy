/** The issues and the evidence one turn reports, told from the request. */
module TurnNotes {
  import opened Basics
  import opened ReadContext
  import opened Candidates
  import opened Reducer
  import opened ReducerLaws
  import opened ReducerInvariant
  import opened TurnSlots
  import opened TurnContract

  // ---------------------------------------------------------------- through the loop

  /** What the pass over one input adds to the notes, as if it were the only one. */
  function NotesFrom(valid: Validity, turn: TurnInput, start: LoopState, input: InputDescriptor): Notes {
    var raw := turn.candidates.ForSlot(input.name);
    var good, mode := ValidOnly(valid, input, raw), turn.ModeOf(input.name);
    var own := NotesOf(valid, input, Lookup(start.slots, input.name), good, mode, turn.turnId);
    Notes(InvalidIssues(valid, input, raw) + own.issues,
          InvalidEvidence(valid, input, raw) + (if mode.rejected then [] else Advisory(input.name, ValuesFrom(good, MODEL))) + own.evidence)
  }

  lemma {:induction false} AppendedMembers<T>(values: seq<T>, more: seq<T>, x: T)
    ensures x in AppendAllUnique(values, more) <==> x in values || x in more
    decreases |more|
  {
    if more != [] { AppendedMembers(AppendUnique(values, more[0]), more[1..], x); }
  }

  lemma StepNotes(valid: Validity, turn: TurnInput, s: LoopState, start: LoopState, input: InputDescriptor, x: string)
    requires Lookup(s.slots, input.name) == Lookup(start.slots, input.name)
    ensures x in InputStep(valid, turn, s, input).issues <==> x in s.issues || x in NotesFrom(valid, turn, start, input).issues
    ensures InputStep(valid, turn, s, input).evidence == s.evidence + NotesFrom(valid, turn, start, input).evidence
  {
    hide OutcomeOf, NotesOf, ValidOnly, InvalidIssues, InvalidEvidence, ValuesFrom, AppendAllUnique, Advisory;
    var raw := turn.candidates.ForSlot(input.name);
    var good, mode := ValidOnly(valid, input, raw), turn.ModeOf(input.name);
    var own := NotesOf(valid, input, Lookup(s.slots, input.name), good, mode, turn.turnId);
    var checked := AppendAllUnique(s.issues, InvalidIssues(valid, input, raw));
    AppendedMembers(s.issues, InvalidIssues(valid, input, raw), x);
    AppendedMembers(checked, own.issues, x);
  }

  lemma {:induction false} LoopNotes(valid: Validity, turn: TurnInput, start: LoopState, inputs: seq<InputDescriptor>, n: nat,
                                     x: string, e: Evidence)
    requires NamesDistinct(inputs) && n <= |inputs|
    ensures x in AfterInputs(valid, turn, start, inputs, n).issues <==>
              x in start.issues || exists i :: 0 <= i < n && x in NotesFrom(valid, turn, start, inputs[i]).issues
    ensures e in AfterInputs(valid, turn, start, inputs, n).evidence <==>
              e in start.evidence || exists i :: 0 <= i < n && e in NotesFrom(valid, turn, start, inputs[i]).evidence
  {
    hide InputStep, NotesFrom;
    if n > 0 {
      LoopNotes(valid, turn, start, inputs, n - 1, x, e);
      LoopBySlot(valid, turn, start, inputs, n - 1, inputs[n - 1].name);
      StepNotes(valid, turn, AfterInputs(valid, turn, start, inputs, n - 1), start, inputs[n - 1], x);
    }
  }

  // ---------------------------------------------------------------- invalid candidates and model guesses

  ghost predicate InvalidOffer(valid: Validity, req: Request, input: InputDescriptor, value: string, source: Source) {
    exists c :: c in req.candidates.ForSlot(input.name) && c.value == value && c.source == source && !valid(input, value)
  }

  lemma {:induction false} InvalidMembers(valid: Validity, input: InputDescriptor, cands: seq<Candidate>, x: string, e: Evidence)
    ensures x in InvalidIssues(valid, input, cands) <==>
              exists c :: c in cands && !valid(input, c.value) && x == "invalid_semantic_value:" + input.name + ":" + c.value
    ensures e in InvalidEvidence(valid, input, cands) <==>
              exists c :: c in cands && !valid(input, c.value)
                          && e == Evidence(Some(input.name), Some(c.value), c.source.Name(), "invalid_semantic_value")
  {
    if cands != [] {
      var init, last := cands[..|cands| - 1], cands[|cands| - 1];
      InvalidMembers(valid, input, init, x, e);
      assert forall c :: c in cands <==> c in init || c == last;
      hide InvalidIssue;
      LastInvalid(valid, input, cands);
      InvalidIssueIs(input.name, last.value);
    }
  }

  lemma InvalidIssueIs(name: string, value: string)
    ensures InvalidIssue(name, value) == "invalid_semantic_value:" + name + ":" + value
  {}

  lemma LastInvalid(valid: Validity, input: InputDescriptor, cands: seq<Candidate>)
    requires cands != []
    ensures var init, last := cands[..|cands| - 1], cands[|cands| - 1];
            && InvalidIssues(valid, input, cands) ==
               InvalidIssues(valid, input, init) + (if valid(input, last.value) then [] else [InvalidIssue(input.name, last.value)])
            && InvalidEvidence(valid, input, cands) ==
               InvalidEvidence(valid, input, init)
               + (if valid(input, last.value) then []
                  else [Evidence(Some(input.name), Some(last.value), last.source.Name(), "invalid_semantic_value")])
  {}

  // ---------------------------------------------------------------- what one input is noted for

  /** The input is open to what the turn offers. */
  predicate Listens(req: Request, name: string) { !TooLateFor(req, name) && name !in req.candidates.clearSlots }

  ghost predicate DisputeIssue(valid: Validity, req: Request, input: InputDescriptor, x: string) {
    && Listens(req, input.name) && Disputed(valid, req, input)
    && x == (if exists v :: Stated(valid, req, input, v) then "conflicting_explicit_values" else "conflicting_deterministic_values")
            + ":" + input.name
  }

  /** Nothing is offered, and the value that stood is no longer valid. */
  ghost predicate Lapses(valid: Validity, req: Request, input: InputDescriptor) {
    && Listens(req, input.name) && (forall v :: !Preferred(valid, req, input, v))
    && SlotBefore(req, input.name).Some?
    && var was := SlotBefore(req, input.name).value;
    && was.provenance != INHERITED_LEGACY && was.state == RESOLVED && !(was.value.Some? && valid(input, was.value.value))
  }

  ghost predicate InputIssue(valid: Validity, req: Request, input: InputDescriptor, x: string) {
    || (exists c :: c in req.candidates.ForSlot(input.name) && !valid(input, c.value)
                    && x == "invalid_semantic_value:" + input.name + ":" + c.value)
    || DisputeIssue(valid, req, input, x)
    || (Lapses(valid, req, input)
        && x == "invalid_semantic_value:" + input.name + ":" + SlotBefore(req, input.name).value.value.GetOr("None"))
  }

  ghost predicate Has(valid: Validity, req: Request, input: InputDescriptor, source: Source) {
    exists v :: Offered(valid, req, input, source, v)
  }

  ghost predicate DisputeEvidence(valid: Validity, req: Request, input: InputDescriptor, e: Evidence) {
    && Disputed(valid, req, input) && e.slot == Some(input.name) && e.value == None && e.reason == "conflict"
    && (|| (e.source == "EXPLICIT_CORRECTION" && Has(valid, req, input, EXPLICIT_CORRECTION))
        || (e.source == "CONFIRMATION" && Has(valid, req, input, CONFIRMATION))
        || (e.source == "DETERMINISTIC_LABEL" && !Has(valid, req, input, EXPLICIT_CORRECTION) && !Has(valid, req, input, CONFIRMATION)))
  }

  /** A settled value is evidenced by its strongest source, and by a confirmation beside a correction. */
  ghost predicate SettledEvidence(valid: Validity, req: Request, input: InputDescriptor, slot: SlotBinding, e: Evidence) {
    && e.slot == Some(input.name) && e.value == slot.value
    && (|| (e.reason == (if slot.provenance == CONFIRMED then "confirmed" else "explicit")
            && e.source == if Has(valid, req, input, EXPLICIT_CORRECTION) then "EXPLICIT_CORRECTION"
                           else if Has(valid, req, input, CONFIRMATION) then "CONFIRMATION" else "DETERMINISTIC_LABEL")
        || (e.reason == "coequal_explicit_evidence" && e.source == "CONFIRMATION"
            && Has(valid, req, input, EXPLICIT_CORRECTION) && Has(valid, req, input, CONFIRMATION)))
  }

  ghost predicate CarriedEvidence(valid: Validity, req: Request, input: InputDescriptor, e: Evidence) {
    && SlotBefore(req, input.name).Some?
    && var was := SlotBefore(req, input.name).value;
    && e.slot == Some(input.name) && e.value == was.value
    && if was.provenance == INHERITED_LEGACY then e.source == "INHERITED_LEGACY" && e.reason == "requires_revalidation"
       else was.state == RESOLVED && e.source == "INHERITED"
            && e.reason == if was.value.Some? && valid(input, was.value.value) then "active_confirmed_value" else "invalid_semantic_value"
  }

  ghost predicate InputEvidence(valid: Validity, req: Request, input: InputDescriptor, now: Option<SlotBinding>, e: Evidence) {
    || (exists c :: c in req.candidates.ForSlot(input.name) && !valid(input, c.value)
                    && e == Evidence(Some(input.name), Some(c.value), c.source.Name(), "invalid_semantic_value"))
    || (!TooLateFor(req, input.name) && exists v :: Offered(valid, req, input, MODEL, v)
                                                   && e == Evidence(Some(input.name), Some(v), "MODEL_CANDIDATE", "advisory_only"))
    || if TooLateFor(req, input.name) then e == Evidence(Some(input.name), None, "SYSTEM", "stale_pending_answer_discarded")
       else if input.name in req.candidates.clearSlots then
         e == Evidence(Some(input.name), None, "EXPLICIT", if input.required then "slot_cleared" else "optional_slot_cleared")
       else if exists v :: Preferred(valid, req, input, v) then
         || DisputeEvidence(valid, req, input, e)
         || (!Disputed(valid, req, input) && now.Some? && SettledEvidence(valid, req, input, now.value, e))
       else CarriedEvidence(valid, req, input, e)
  }

  lemma OwnIssues(valid: Validity, req: Request, input: InputDescriptor, x: string)
    ensures var mode := SlotMode(TooLateFor(req, input.name), AskedFor(req, input.name), input.name in req.candidates.clearSlots);
            x in NotesOf(valid, input, SlotBefore(req, input.name), Evidenced(valid, req, input), mode, req.turnId).issues <==>
              || DisputeIssue(valid, req, input, x)
              || (Lapses(valid, req, input)
                  && x == "invalid_semantic_value:" + input.name + ":" + SlotBefore(req, input.name).value.value.GetOr("None"))
  {
    hide Preferred, Disputed, Undisputed, Stated, TooLateFor, AskedFor, SlotBefore, Evidenced, ValuesFrom, Offer.Selected, Offer.Explicit,
         SourceSpan, ConflictEvidence, ResolveEvidence, ResolvedSlot;
    var asked := AskedFor(req, input.name);
    HowMany(valid, req, input, asked);
    SelectedExactly(valid, req, input, asked);
  }

  lemma OwnEvidence(valid: Validity, req: Request, input: InputDescriptor, e: Evidence)
    ensures var was, good := SlotBefore(req, input.name), Evidenced(valid, req, input);
            var mode := SlotMode(TooLateFor(req, input.name), AskedFor(req, input.name), input.name in req.candidates.clearSlots);
            e in NotesOf(valid, input, was, good, mode, req.turnId).evidence <==>
              if TooLateFor(req, input.name) then e == Evidence(Some(input.name), None, "SYSTEM", "stale_pending_answer_discarded")
              else if input.name in req.candidates.clearSlots then
                e == Evidence(Some(input.name), None, "EXPLICIT", if input.required then "slot_cleared" else "optional_slot_cleared")
              else if exists v :: Preferred(valid, req, input, v) then
                var now := OutcomeOf(valid, input, was, good, mode, req.turnId).slot;
                || DisputeEvidence(valid, req, input, e)
                || (!Disputed(valid, req, input) && now.Some? && SettledEvidence(valid, req, input, now.value, e))
              else CarriedEvidence(valid, req, input, e)
  {
    hide Preferred, Disputed, Undisputed, TooLateFor, AskedFor, SlotBefore, Evidenced, OfferOf, Offer.Selected, SourceSpan, ConflictEvidence,
         ResolveEvidence, ResolvedSlot, DisputeEvidence, SettledEvidence;
    var asked, good := AskedFor(req, input.name), Evidenced(valid, req, input);
    HowMany(valid, req, input, asked);
    DisputeNoted(valid, req, input, asked, e);
    var offer := OfferOf(good, asked);
    if offer.Selected() != [] {
      SettledNoted(valid, req, input, asked, ResolvedSlot(input.name, offer, SlotBefore(req, input.name),
                                                          SourceSpan(good, offer.Selected()[0]), req.turnId), e);
    }
  }

  lemma DisputeNoted(valid: Validity, req: Request, input: InputDescriptor, asked: bool, e: Evidence)
    ensures DisputeEvidence(valid, req, input, e) <==>
            Disputed(valid, req, input) && e in ConflictEvidence(input.name, OfferOf(Evidenced(valid, req, input), asked))
  {
    hide Disputed, Offered, Evidenced, ValuesFrom, Offer.Selected, Offer.Explicit;
    Sources(valid, req, input);
    SelectedExactly(valid, req, input, asked);
    if v :| Offered(valid, req, input, EXPLICIT_CORRECTION, v) { assert Stated(valid, req, input, v); }
    if v :| Offered(valid, req, input, CONFIRMATION, v) { assert Stated(valid, req, input, v); }
    assert (exists v :: Stated(valid, req, input, v)) <==> Has(valid, req, input, EXPLICIT_CORRECTION) || Has(valid, req, input, CONFIRMATION);
    var notes := ConflictEvidence(input.name, OfferOf(Evidenced(valid, req, input), asked));
    var correction, confirmation, labels :=
      Evidence(Some(input.name), None, "EXPLICIT_CORRECTION", "conflict"), Evidence(Some(input.name), None, "CONFIRMATION", "conflict"),
      Evidence(Some(input.name), None, "DETERMINISTIC_LABEL", "conflict");
    assert e in notes <==>
        || (e == correction && Has(valid, req, input, EXPLICIT_CORRECTION))
        || (e == confirmation && Has(valid, req, input, CONFIRMATION))
        || (e == labels && !Has(valid, req, input, EXPLICIT_CORRECTION) && !Has(valid, req, input, CONFIRMATION));
  }

  lemma SettledNoted(valid: Validity, req: Request, input: InputDescriptor, asked: bool, slot: SlotBinding, e: Evidence)
    ensures SettledEvidence(valid, req, input, slot, e) <==>
            e in ResolveEvidence(input.name, OfferOf(Evidenced(valid, req, input), asked), slot)
  {
    hide Offered, Evidenced, ValuesFrom;
    Sources(valid, req, input);
  }

  lemma AdvisoryMembers(valid: Validity, req: Request, input: InputDescriptor, e: Evidence)
    ensures e in Advisory(input.name, ValuesFrom(Evidenced(valid, req, input), MODEL)) <==>
            exists v :: Offered(valid, req, input, MODEL, v) && e == Evidence(Some(input.name), Some(v), "MODEL_CANDIDATE", "advisory_only")
  {
    var values := ValuesFrom(Evidenced(valid, req, input), MODEL);
    var notes := Advisory(input.name, values);
    forall v ensures v in values <==> Offered(valid, req, input, MODEL, v) { OfferedExactly(valid, req, input, MODEL, v); }
    hide Offered, ValuesFrom, Evidenced;
    if v :| v in values && e == Evidence(Some(input.name), Some(v), "MODEL_CANDIDATE", "advisory_only") {
      var i :| 0 <= i < |values| && values[i] == v;
      assert notes[i] == e;
    }
    if i :| 0 <= i < |notes| && notes[i] == e { assert values[i] in values; }
  }

  /** What the turn notes for one input. */
  lemma InputNotes(valid: Validity, req: Request, i: nat, x: string, e: Evidence)
    requires NamesDistinct(req.descriptor.inputs) && i < |req.descriptor.inputs|
    ensures var input := req.descriptor.inputs[i];
            var notes := NotesFrom(valid, TurnInputOf(req, Open(req)), LoopStart(Open(req)), input);
            && (x in notes.issues <==> InputIssue(valid, req, input, x))
            && (e in notes.evidence <==> InputEvidence(valid, req, input, NextSlotOf(valid, req, input.name), e))
  {
    hide NotesOf, OutcomeOf, Offered, Preferred, Disputed, DisputeIssue, Lapses, DisputeEvidence, SettledEvidence, CarriedEvidence, Open, Reduced,
         InvalidIssues, InvalidEvidence, Advisory, ValuesFrom, ValidOnly, NextSlotOf, PriorSlot, SlotBefore, TooLateFor, AskedFor, NamesDistinct;
    var input := req.descriptor.inputs[i];
    InvalidMembers(valid, input, req.candidates.ForSlot(input.name), x, e);
    AdvisoryMembers(valid, req, input, e);
    OwnIssues(valid, req, input, x);
    OwnEvidence(valid, req, input, e);
    NextSlotIsOutcome(valid, req, i);
    OpeningIs(req, input.name);
    NotesFromIs(valid, req, input);
  }

  lemma NotesFromIs(valid: Validity, req: Request, input: InputDescriptor)
    ensures var raw, good, mode := req.candidates.ForSlot(input.name), Evidenced(valid, req, input), ModeIn(req, input.name);
            var own := NotesOf(valid, input, PriorSlot(req, input.name), good, mode, req.turnId);
            NotesFrom(valid, TurnInputOf(req, Open(req)), LoopStart(Open(req)), input) ==
            Notes(InvalidIssues(valid, input, raw) + own.issues,
                  InvalidEvidence(valid, input, raw) + (if mode.rejected then [] else Advisory(input.name, ValuesFrom(good, MODEL))) + own.evidence)
  {
    hide NotesOf, Open, InvalidIssues, InvalidEvidence, Advisory, ValuesFrom, ValidOnly;
  }

  // ---------------------------------------------------------------- the turn

  /** The turn still asks about its required inputs. */
  ghost predicate Inquires(valid: Validity, req: Request) { !NewVersion(req) && !MustRevalidate(valid, req) }

  ghost predicate MissingIssue(valid: Validity, req: Request, x: string) {
    && Inquires(valid, req)
    && exists n :: MissingRequired(req.descriptor, Reduced(valid, req).nextState.activeFrame.value.slots, n) && x == "missing_required:" + n
  }

  lemma MissingNoted(fields: seq<string>, x: string)
    ensures x in MissingIssues(fields) <==> exists n :: n in fields && x == "missing_required:" + n
  {
    if n :| n in fields && x == "missing_required:" + n {
      var i :| 0 <= i < |fields| && fields[i] == n;
      assert MissingIssues(fields)[i] == x;
    }
  }

  /** The issues of a turn are exactly: those of the extraction, a new version, a late answer, what each input is
      noted for, a required revalidation, and one for every missing required input. */
  lemma IssuesExactly(valid: Validity, req: Request, x: string)
    requires NamesDistinct(req.descriptor.inputs)
    ensures x in Reduced(valid, req).issues <==>
            || x in req.candidates.discardReasons
            || (NewVersion(req) && x == "capability_version_mismatch")
            || (QuestionStands(req) && !InTime(req) && x == "pending_binding_invalid")
            || (exists i :: 0 <= i < |req.descriptor.inputs| && InputIssue(valid, req, req.descriptor.inputs[i], x))
            || (MustRevalidate(valid, req) && x == "snapshot_revalidation_required")
            || MissingIssue(valid, req, x)
  {
    hide InputIssue, NotesFrom, LoopEnd, FailsRebind, MissingRequired, NextFrame, NextPending, StatusOf, MustRevalidate, NamesDistinct;
    var o, s, inputs := Open(req), LoopEnd(valid, req), req.descriptor.inputs;
    OpenQuestionIs(valid, req);
    LoopIssues(valid, req, x);
    AskedExactly(valid, req, x);
    AppendedMembers(if FailsRebind(valid, req, o, s) then AppendUnique(s.issues, "snapshot_revalidation_required") else s.issues,
                    MissingIssues(AskedFields(valid, req, o, s)), x);
    OpeningIssues(req, x);
    hide Open, AskedFields, MissingIssues, AppendAllUnique, MissingIssue, QuestionStands, InTime, NewVersion;
  }

  lemma OpeningIssues(req: Request, x: string)
    ensures x in Open(req).issues <==>
            || x in req.candidates.discardReasons
            || (NewVersion(req) && x == "capability_version_mismatch")
            || (QuestionStands(req) && !InTime(req) && x == "pending_binding_invalid")
  {}

  lemma LoopIssues(valid: Validity, req: Request, x: string)
    requires NamesDistinct(req.descriptor.inputs)
    ensures x in LoopEnd(valid, req).issues <==>
            x in Open(req).issues || exists i :: 0 <= i < |req.descriptor.inputs| && InputIssue(valid, req, req.descriptor.inputs[i], x)
  {
    hide InputIssue, InputEvidence, NotesFrom, Open, AfterInputs, NamesDistinct, Reduced;
    var o, inputs := Open(req), req.descriptor.inputs;
    var e := Evidence(None, None, "", "");
    LoopNotes(valid, TurnInputOf(req, o), LoopStart(o), inputs, |inputs|, x, e);
    forall i | 0 <= i < |inputs|
      ensures x in NotesFrom(valid, TurnInputOf(req, o), LoopStart(o), inputs[i]).issues <==> InputIssue(valid, req, inputs[i], x)
    {
      InputNotes(valid, req, i, x, e);
    }
  }

  lemma LoopEvidence(valid: Validity, req: Request, e: Evidence)
    requires NamesDistinct(req.descriptor.inputs)
    ensures e in LoopEnd(valid, req).evidence <==>
            e in Open(req).evidence
            || exists i :: 0 <= i < |req.descriptor.inputs|
                           && InputEvidence(valid, req, req.descriptor.inputs[i], NextSlotOf(valid, req, req.descriptor.inputs[i].name), e)
  {
    hide InputIssue, InputEvidence, NotesFrom, Open, AfterInputs, NamesDistinct, Reduced, NextSlotOf;
    var o, inputs := Open(req), req.descriptor.inputs;
    LoopNotes(valid, TurnInputOf(req, o), LoopStart(o), inputs, |inputs|, "", e);
    forall i | 0 <= i < |inputs|
      ensures e in NotesFrom(valid, TurnInputOf(req, o), LoopStart(o), inputs[i]).evidence <==>
              InputEvidence(valid, req, inputs[i], NextSlotOf(valid, req, inputs[i].name), e)
    {
      InputNotes(valid, req, i, "", e);
    }
  }

  lemma AskedExactly(valid: Validity, req: Request, x: string)
    requires NamesDistinct(req.descriptor.inputs)
    ensures x in MissingIssues(AskedFields(valid, req, Open(req), LoopEnd(valid, req))) <==> MissingIssue(valid, req, x)
  {
    hide LoopEnd, FailsRebind, MustRevalidate, NamesDistinct, MissingIssues, NewVersion, Unresolved, MissingRequired, Open, Reduced;
    var o, s := Open(req), LoopEnd(valid, req);
    OpenQuestionIs(valid, req);
    StatusExactly(valid, req);
    ReducedIs(valid, req);
    UnresolvedExactly(req.descriptor, s.slots);
    MissingNoted(AskedFields(valid, req, o, s), x);
    hide StatusOf;
  }

  /** The evidence of a turn is exactly: a switch of capability, what each input is noted for, and a new
      registry snapshot that the frame was bound to. */
  lemma EvidenceExactly(valid: Validity, req: Request, e: Evidence)
    requires NamesDistinct(req.descriptor.inputs)
    ensures e in Reduced(valid, req).evidence <==>
            || (Switching(req) && e == Evidence(None, None, "DETERMINISTIC_LABEL", "capability_switch"))
            || (exists i :: 0 <= i < |req.descriptor.inputs|
                            && InputEvidence(valid, req, req.descriptor.inputs[i], NextSlotOf(valid, req, req.descriptor.inputs[i].name), e))
            || (Drifted(req) && !MustRevalidate(valid, req) && e == Evidence(None, None, "SYSTEM", "snapshot_rebound"))
  {
    hide InputEvidence, LoopEnd, FailsRebind, NextFrame, NextPending, StatusOf, MustRevalidate, NamesDistinct, AskedFields, NextSlotOf, Drifted;
    OpenQuestionIs(valid, req);
    LoopEvidence(valid, req, e);
  }
}
