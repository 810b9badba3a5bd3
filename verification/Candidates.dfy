/** Candidate evidence for the slots of one capability: what a turn offers to the reducer. */
module Candidates {
  import opened Basics
  import opened ReadContext

  datatype InputDescriptor = InputDescriptor(name: string, semanticType: string, required: bool)

  datatype CapabilityDescriptor = CapabilityDescriptor(
    capabilityId: string,
    inputs: seq<InputDescriptor>,
    sideEffect: string)

  /** Stands for `is_semantically_valid`: length bounds and regular expressions are not modelled. */
  type Validity = (InputDescriptor, string) -> bool

  datatype Source = DETERMINISTIC_LABEL | EXPLICIT_CORRECTION | CONFIRMATION | MODEL {
    function Name(): string {
      match this
      case DETERMINISTIC_LABEL => "DETERMINISTIC_LABEL"
      case EXPLICIT_CORRECTION => "EXPLICIT_CORRECTION"
      case CONFIRMATION => "CONFIRMATION"
      case MODEL => "MODEL_CANDIDATE"
    }
  }

  datatype Candidate = Candidate(slot: string, value: string, source: Source, span: Option<Span>)

  datatype CandidateSet = CandidateSet(
    slots: map<string, seq<Candidate>>,
    clearSlots: seq<string>,
    discardReasons: seq<string>)
  {
    function ForSlot(name: string): seq<Candidate> {
      if name in slots then slots[name] else []
    }
  }

  ghost predicate NamesDistinct(inputs: seq<InputDescriptor>) {
    forall i, j :: 0 <= i < j < |inputs| ==> inputs[i].name != inputs[j].name
  }

  // ---------------------------------------------------------------- what the model is allowed to influence

  /** The candidates of a slot with every model guess removed, in order. */
  function WithoutModel(cands: seq<Candidate>): seq<Candidate> {
    if cands == [] then []
    else if cands[|cands| - 1].source == MODEL then WithoutModel(cands[..|cands| - 1])
    else WithoutModel(cands[..|cands| - 1]) + [cands[|cands| - 1]]
  }

  /** Two candidate sets that may differ in model guesses and discard notes only. */
  ghost predicate SameEvidence(a: CandidateSet, b: CandidateSet) {
    && a.clearSlots == b.clearSlots
    && forall n :: WithoutModel(a.ForSlot(n)) == WithoutModel(b.ForSlot(n))
  }

  // ---------------------------------------------------------------- extraction

  /** One hit of a deterministic pattern in the utterance. */
  datatype Hit = Hit(value: string, source: Source, span: Span)

  /** One goal proposed by the language model. */
  datatype Goal = Goal(capabilityHint: Option<string>, parameters: seq<(string, string)>)

  datatype Extraction = Extraction(bySlot: map<string, seq<Candidate>>, discards: seq<string>)

  /** Semantic validity, `str.strip` and the list of fields a model may never supply, with the reason
      for each. */
  datatype TextRules = TextRules(
    valid: Validity,
    strip: string -> string,
    prohibited: string -> Option<string>)

  function AppendIfValid(rules: TextRules, e: Extraction, input: InputDescriptor, value: string,
                         source: Source, span: Option<Span>): Extraction
    requires input.name in e.bySlot
  {
    if rules.strip(value) == "" || !rules.valid(input, value) then
      e.(discards := AppendUnique(e.discards, "invalid_semantic_value:" + input.name + ":" + value))
    else
      var candidate := Candidate(input.name, rules.strip(value), source, span);
      e.(bySlot := e.bySlot[input.name := AppendUnique(e.bySlot[input.name], candidate)])
  }

  function FindInput(inputs: seq<InputDescriptor>, name: string): (r: Option<InputDescriptor>)
    ensures r.Some? ==> r.value in inputs && r.value.name == name
  {
    if inputs == [] then None
    else if inputs[0].name == name then Some(inputs[0])
    else FindInput(inputs[1..], name)
  }

  ghost predicate Covers(e: Extraction, inputs: seq<InputDescriptor>) {
    forall i :: i in inputs ==> i.name in e.bySlot
  }

  /** The non-model candidates under every name are the same in both. */
  ghost predicate SameHits(a: Extraction, b: Extraction) {
    a.bySlot.Keys == b.bySlot.Keys
    && forall n :: n in a.bySlot ==> WithoutModel(a.bySlot[n]) == WithoutModel(b.bySlot[n])
  }

  lemma WithoutModelAppend(cands: seq<Candidate>, last: Candidate)
    ensures WithoutModel(cands + [last]) ==
            if last.source == MODEL then WithoutModel(cands) else WithoutModel(cands) + [last]
  {
    assert (cands + [last])[..|cands|] == cands;
  }

  lemma {:induction false} WithoutModelMembers(cands: seq<Candidate>)
    ensures forall c :: c in WithoutModel(cands) <==> c in cands && c.source != MODEL
  {
    if cands != [] {
      var init, last := cands[..|cands| - 1], cands[|cands| - 1];
      WithoutModelMembers(init);
      assert cands == init + [last];
    }
  }

  /** The first `k` hits of one input. */
  function HitsOf(rules: TextRules, start: Extraction, input: InputDescriptor, own: seq<Hit>, k: nat): (e: Extraction)
    requires k <= |own| && input.name in start.bySlot
    ensures e.bySlot.Keys == start.bySlot.Keys
  {
    if k == 0 then start
    else
      var h := own[k - 1];
      AppendIfValid(rules, HitsOf(rules, start, input, own, k - 1), input, h.value, h.source, Some(h.span))
  }

  /** The hits of the first `i` inputs. */
  function HitsUpTo(rules: TextRules, start: Extraction, inputs: seq<InputDescriptor>,
                    hits: map<string, seq<Hit>>, i: nat): (e: Extraction)
    requires i <= |inputs| && Covers(start, inputs)
    ensures e.bySlot.Keys == start.bySlot.Keys
  {
    if i == 0 then start
    else
      var own := if inputs[i - 1].name in hits then hits[inputs[i - 1].name] else [];
      HitsOf(rules, HitsUpTo(rules, start, inputs, hits, i - 1), inputs[i - 1], own, |own|)
  }

  method AppendHits(rules: TextRules, start: Extraction, inputs: seq<InputDescriptor>,
                    hits: map<string, seq<Hit>>) returns (e: Extraction)
    requires Covers(start, inputs)
    ensures e == HitsUpTo(rules, start, inputs, hits, |inputs|)
  {
    e := start;
    for i := 0 to |inputs|
      invariant e == HitsUpTo(rules, start, inputs, hits, i)
    {
      var own := if inputs[i].name in hits then hits[inputs[i].name] else [];
      ghost var before := e;
      for k := 0 to |own|
        invariant e == HitsOf(rules, before, inputs[i], own, k)
      {
        e := AppendIfValid(rules, e, inputs[i], own[k].value, own[k].source, Some(own[k].span));
      }
    }
  }

  predicate Accepted(rules: TextRules, input: InputDescriptor, value: string) {
    rules.strip(value) != "" && rules.valid(input, value)
  }

  /** The model proposes the candidate by this parameter: for a declared field it may supply, with an acceptable value. */
  ghost predicate Proposes(rules: TextRules, inputs: seq<InputDescriptor>, name: string, value: string, slot: string, c: Candidate) {
    && slot == name && rules.prohibited(name).None? && FindInput(inputs, name).Some?
    && Accepted(rules, FindInput(inputs, name).value, value) && c == Candidate(name, rules.strip(value), MODEL, None)
  }

  /** Why the parameter is discarded. */
  ghost predicate DiscardedFor(rules: TextRules, inputs: seq<InputDescriptor>, name: string, value: string, reason: string) {
    if rules.prohibited(name).Some? then reason == rules.prohibited(name).value
    else if FindInput(inputs, name).None? then reason == "unknown_input:" + name
    else !Accepted(rules, FindInput(inputs, name).value, value) && reason == "invalid_semantic_value:" + name + ":" + value
  }

  /** One proposed parameter: noted as discarded, or added as the model's own candidate. */
  method AppendParameter(rules: TextRules, before: Extraction, descriptor: CapabilityDescriptor, name: string, value: string)
    returns (e: Extraction)
    requires Covers(before, descriptor.inputs)
    ensures SameHits(before, e)
    ensures forall n, c :: n in before.bySlot ==>
              (c in e.bySlot[n] <==> c in before.bySlot[n] || Proposes(rules, descriptor.inputs, name, value, n, c))
    ensures forall x :: x in e.discards <==> x in before.discards || DiscardedFor(rules, descriptor.inputs, name, value, x)
  {
    var reason := rules.prohibited(name);
    if reason.Some? { return before.(discards := AppendUnique(before.discards, reason.value)); }
    var found := FindInput(descriptor.inputs, name);
    if found.None? { return before.(discards := AppendUnique(before.discards, "unknown_input:" + name)); }
    e := AppendProposal(rules, before, found.value, value);
  }

  method AppendProposal(rules: TextRules, before: Extraction, input: InputDescriptor, value: string) returns (e: Extraction)
    requires input.name in before.bySlot
    ensures SameHits(before, e)
    ensures forall n, c :: n in before.bySlot ==>
              (c in e.bySlot[n] <==>
                 c in before.bySlot[n]
                 || (n == input.name && Accepted(rules, input, value) && c == Candidate(input.name, rules.strip(value), MODEL, None)))
    ensures forall x :: x in e.discards <==>
              x in before.discards || (!Accepted(rules, input, value) && x == "invalid_semantic_value:" + input.name + ":" + value)
  {
    WithoutModelAppend(before.bySlot[input.name], Candidate(input.name, rules.strip(value), MODEL, None));
    hide WithoutModel;
    e := AppendIfValid(rules, before, input, value, MODEL, None);
  }

  /** Parameter `j` of goal `i` belongs to this capability and comes before parameter `p` of goal `g`. */
  predicate Seen(capabilityId: string, goals: seq<Goal>, g: nat, p: nat, i: nat, j: nat) {
    && i < |goals| && j < |goals[i].parameters| && goals[i].capabilityHint == Some(capabilityId)
    && (i < g || (i == g && j < p))
  }

  /** What the parameters seen so far have added and discarded. */
  ghost predicate AddedSoFar(rules: TextRules, d: CapabilityDescriptor, goals: seq<Goal>, start: Extraction, e: Extraction, g: nat, p: nat) {
    && SameHits(start, e)
    && (forall n, c :: n in start.bySlot ==>
          (c in e.bySlot[n] <==>
             || c in start.bySlot[n]
             || exists i: nat, j: nat :: Seen(d.capabilityId, goals, g, p, i, j)
                               && Proposes(rules, d.inputs, goals[i].parameters[j].0, goals[i].parameters[j].1, n, c)))
    && (forall x :: x in e.discards <==>
          || x in start.discards
          || exists i: nat, j: nat :: Seen(d.capabilityId, goals, g, p, i, j)
                            && DiscardedFor(rules, d.inputs, goals[i].parameters[j].0, goals[i].parameters[j].1, x))
  }

  lemma OneParameterMore(rules: TextRules, d: CapabilityDescriptor, goals: seq<Goal>, start: Extraction, before: Extraction, e: Extraction,
                         g: nat, p: nat)
    requires AddedSoFar(rules, d, goals, start, before, g, p) && g < |goals| && p < |goals[g].parameters|
    requires goals[g].capabilityHint == Some(d.capabilityId) && SameHits(before, e)
    requires var (name, value) := goals[g].parameters[p];
             && (forall n, c :: n in before.bySlot ==>
                   (c in e.bySlot[n] <==> c in before.bySlot[n] || Proposes(rules, d.inputs, name, value, n, c)))
             && forall x :: x in e.discards <==> x in before.discards || DiscardedFor(rules, d.inputs, name, value, x)
    ensures AddedSoFar(rules, d, goals, start, e, g, p + 1)
  {
    hide Proposes, DiscardedFor, WithoutModel;
    assert Seen(d.capabilityId, goals, g, p + 1, g, p);
    forall i: nat, j: nat ensures Seen(d.capabilityId, goals, g, p + 1, i, j) <==> Seen(d.capabilityId, goals, g, p, i, j) || (i == g && j == p) {}
    hide Seen;
  }

  lemma NextGoal(rules: TextRules, d: CapabilityDescriptor, goals: seq<Goal>, start: Extraction, e: Extraction, g: nat, p: nat)
    requires AddedSoFar(rules, d, goals, start, e, g, p) && g < |goals|
    requires goals[g].capabilityHint != Some(d.capabilityId) || p == |goals[g].parameters|
    ensures AddedSoFar(rules, d, goals, start, e, g + 1, 0)
  {
    hide Proposes, DiscardedFor, WithoutModel;
    forall i: nat, j: nat ensures Seen(d.capabilityId, goals, g + 1, 0, i, j) <==> Seen(d.capabilityId, goals, g, p, i, j) {}
    hide Seen;
  }

  /** Whatever goals the model proposes, the deterministic evidence already collected stays exactly as it was.
      Added are exactly the acceptable values that goals for this very capability propose for declared fields
      a model may supply, all marked as the model's own; every other proposal is discarded with its reason. */
  method AppendGoals(rules: TextRules, start: Extraction, descriptor: CapabilityDescriptor, goals: seq<Goal>)
    returns (e: Extraction)
    requires Covers(start, descriptor.inputs)
    ensures AddedSoFar(rules, descriptor, goals, start, e, |goals|, 0)
    ensures SameHits(start, e)
    ensures forall n, c :: n in e.bySlot && c in e.bySlot[n] && c.source != MODEL ==> c in start.bySlot[n]
  {
    hide Proposes, DiscardedFor, Seen;
    e := start;
    NothingAdded(rules, descriptor, goals, start);
    for g := 0 to |goals|
      invariant AddedSoFar(rules, descriptor, goals, start, e, g, 0)
    {
      var parameters := goals[g].parameters;
      if goals[g].capabilityHint == Some(descriptor.capabilityId) {
        for p := 0 to |parameters|
          invariant AddedSoFar(rules, descriptor, goals, start, e, g, p)
        {
          ghost var before := e;
          e := AppendParameter(rules, e, descriptor, parameters[p].0, parameters[p].1);
          OneParameterMore(rules, descriptor, goals, start, before, e, g, p);
        }
        NextGoal(rules, descriptor, goals, start, e, g, |parameters|);
      } else {
        NextGoal(rules, descriptor, goals, start, e, g, 0);
      }
    }
    forall n, c | n in e.bySlot && c in e.bySlot[n] && c.source != MODEL ensures c in start.bySlot[n] {
      WithoutModelMembers(e.bySlot[n]);
      WithoutModelMembers(start.bySlot[n]);
      assert c in WithoutModel(e.bySlot[n]);
    }
  }

  lemma NothingAdded(rules: TextRules, d: CapabilityDescriptor, goals: seq<Goal>, start: Extraction)
    ensures AddedSoFar(rules, d, goals, start, start, 0, 0)
  {}

  // ---------------------------------------------------------------- extraction as a whole

  function NoCandidates(inputs: seq<InputDescriptor>, discards: seq<string>): (e: Extraction)
    ensures Covers(e, inputs)
  {
    Extraction(map i | i in inputs :: i.name := [], discards)
  }

  /** The evidence of a turn in which the model proposed nothing. */
  function DeterministicEvidence(rules: TextRules, descriptor: CapabilityDescriptor,
                                 hits: map<string, seq<Hit>>, clear: seq<string>): CandidateSet
  {
    var e := HitsUpTo(rules, NoCandidates(descriptor.inputs, []), descriptor.inputs, hits, |descriptor.inputs|);
    CandidateSet(e.bySlot, clear, e.discards)
  }

  /** Extraction with a model envelope offers the same deterministic evidence as extraction without
      one: the envelope reaches the reducer through model candidates and discard notes only. */
  method ExtractContextCandidates(rules: TextRules, descriptor: CapabilityDescriptor, hits: map<string, seq<Hit>>,
                                  clear: seq<string>, envelopeDiscards: seq<string>, goals: seq<Goal>)
    returns (cs: CandidateSet)
    ensures SameEvidence(cs, DeterministicEvidence(rules, descriptor, hits, clear))
    ensures var evidence := HitsUpTo(rules, NoCandidates(descriptor.inputs, envelopeDiscards), descriptor.inputs, hits, |descriptor.inputs|);
            AddedSoFar(rules, descriptor, goals, evidence, Extraction(cs.slots, cs.discardReasons), |goals|, 0)
  {
    var e := AppendHits(rules, NoCandidates(descriptor.inputs, envelopeDiscards), descriptor.inputs, hits);
    HitsIgnoreDiscards(rules, descriptor.inputs, hits, envelopeDiscards, |descriptor.inputs|);
    e := AppendGoals(rules, e, descriptor, goals);
    cs := CandidateSet(e.bySlot, clear, e.discards);
  }

  lemma {:induction false} HitsIgnoreDiscards(rules: TextRules, inputs: seq<InputDescriptor>,
                                              hits: map<string, seq<Hit>>, discards: seq<string>, i: nat)
    requires i <= |inputs|
    ensures HitsUpTo(rules, NoCandidates(inputs, discards), inputs, hits, i).bySlot ==
            HitsUpTo(rules, NoCandidates(inputs, []), inputs, hits, i).bySlot
  {
    if i > 0 {
      HitsIgnoreDiscards(rules, inputs, hits, discards, i - 1);
      var own := if inputs[i - 1].name in hits then hits[inputs[i - 1].name] else [];
      InputHitsIgnoreDiscards(rules, HitsUpTo(rules, NoCandidates(inputs, discards), inputs, hits, i - 1),
                              HitsUpTo(rules, NoCandidates(inputs, []), inputs, hits, i - 1), inputs[i - 1], own, |own|);
    }
  }

  lemma {:induction false} InputHitsIgnoreDiscards(rules: TextRules, a: Extraction, b: Extraction,
                                                   input: InputDescriptor, own: seq<Hit>, k: nat)
    requires k <= |own| && input.name in a.bySlot && a.bySlot == b.bySlot
    ensures HitsOf(rules, a, input, own, k).bySlot == HitsOf(rules, b, input, own, k).bySlot
  {
    if k > 0 { InputHitsIgnoreDiscards(rules, a, b, input, own, k - 1); }
  }

  // ---------------------------------------------------------------- what is extracted, exactly

  function CandidateOf(rules: TextRules, input: InputDescriptor, h: Hit): Candidate {
    Candidate(input.name, rules.strip(h.value), h.source, Some(h.span))
  }

  /** One of the first `k` hits offers the candidate. */
  ghost predicate OfferedBy(rules: TextRules, input: InputDescriptor, own: seq<Hit>, k: nat, c: Candidate)
    requires k <= |own|
  {
    exists j :: 0 <= j < k && Accepted(rules, input, own[j].value) && c == CandidateOf(rules, input, own[j])
  }

  lemma OneHitMore(rules: TextRules, e: Extraction, input: InputDescriptor, own: seq<Hit>, k: nat, n: string, c: Candidate)
    requires 0 < k <= |own| && input.name in e.bySlot && n in e.bySlot
    ensures c in AppendIfValid(rules, e, input, own[k - 1].value, own[k - 1].source, Some(own[k - 1].span)).bySlot[n] <==>
              c in e.bySlot[n] || (n == input.name && Accepted(rules, input, own[k - 1].value) && c == CandidateOf(rules, input, own[k - 1]))
    ensures OfferedBy(rules, input, own, k, c) <==>
              OfferedBy(rules, input, own, k - 1, c) || (Accepted(rules, input, own[k - 1].value) && c == CandidateOf(rules, input, own[k - 1]))
  {}

  lemma {:induction false} HitsOfExactly(rules: TextRules, start: Extraction, input: InputDescriptor, own: seq<Hit>, k: nat,
                                         n: string, c: Candidate)
    requires k <= |own| && input.name in start.bySlot && n in start.bySlot
    ensures c in HitsOf(rules, start, input, own, k).bySlot[n] <==>
              c in start.bySlot[n] || (n == input.name && OfferedBy(rules, input, own, k, c))
  {
    if k > 0 {
      HitsOfExactly(rules, start, input, own, k - 1, n, c);
      OneHitMore(rules, HitsOf(rules, start, input, own, k - 1), input, own, k, n, c);
    }
  }

  function OwnHits(hits: map<string, seq<Hit>>, input: InputDescriptor): seq<Hit> {
    if input.name in hits then hits[input.name] else []
  }

  lemma {:induction false} HitsUpToExactly(rules: TextRules, start: Extraction, inputs: seq<InputDescriptor>,
                                           hits: map<string, seq<Hit>>, i: nat, k: nat, c: Candidate)
    requires NamesDistinct(inputs) && Covers(start, inputs) && i <= |inputs| && k < |inputs|
    ensures inputs[k] in inputs && inputs[k].name in HitsUpTo(rules, start, inputs, hits, i).bySlot
    ensures c in HitsUpTo(rules, start, inputs, hits, i).bySlot[inputs[k].name] <==>
              c in start.bySlot[inputs[k].name]
              || (k < i && OfferedBy(rules, inputs[k], OwnHits(hits, inputs[k]), |OwnHits(hits, inputs[k])|, c))
  {
    hide OfferedBy, HitsOf;
    if i > 0 {
      HitsUpToExactly(rules, start, inputs, hits, i - 1, k, c);
      var own := OwnHits(hits, inputs[i - 1]);
      HitsOfExactly(rules, HitsUpTo(rules, start, inputs, hits, i - 1), inputs[i - 1], own, |own|, inputs[k].name, c);
      assert inputs[k].name == inputs[i - 1].name <==> k == i - 1;
    }
  }

  /** The deterministic evidence for an input is exactly its pattern hits that are nonempty once trimmed and
      semantically valid, each with its own source and span. */
  lemma EvidenceIsExactlyTheHits(rules: TextRules, descriptor: CapabilityDescriptor, hits: map<string, seq<Hit>>,
                                 clear: seq<string>, k: nat, c: Candidate)
    requires NamesDistinct(descriptor.inputs) && k < |descriptor.inputs|
    ensures var input := descriptor.inputs[k];
            c in DeterministicEvidence(rules, descriptor, hits, clear).ForSlot(input.name) <==>
              exists j :: 0 <= j < |OwnHits(hits, input)| && Accepted(rules, input, OwnHits(hits, input)[j].value)
                          && c == CandidateOf(rules, input, OwnHits(hits, input)[j])
  {
    HitsUpToExactly(rules, NoCandidates(descriptor.inputs, []), descriptor.inputs, hits, |descriptor.inputs|, k, c);
  }

  ghost predicate RejectedHit(rules: TextRules, input: InputDescriptor, own: seq<Hit>, k: nat, x: string)
    requires k <= |own|
  {
    exists j :: 0 <= j < k && !Accepted(rules, input, own[j].value)
                && x == "invalid_semantic_value:" + input.name + ":" + own[j].value
  }

  lemma {:induction false} RejectedHits(rules: TextRules, start: Extraction, input: InputDescriptor, own: seq<Hit>, k: nat, x: string)
    requires k <= |own| && input.name in start.bySlot
    ensures x in HitsOf(rules, start, input, own, k).discards <==> x in start.discards || RejectedHit(rules, input, own, k, x)
  {
    if k > 0 {
      RejectedHits(rules, start, input, own, k - 1, x);
      assert RejectedHit(rules, input, own, k, x) <==>
          RejectedHit(rules, input, own, k - 1, x)
          || (!Accepted(rules, input, own[k - 1].value) && x == "invalid_semantic_value:" + input.name + ":" + own[k - 1].value);
      hide RejectedHit;
    }
  }

  /** Discarded are exactly the hits that are empty once trimmed or semantically invalid. */
  lemma {:induction false} DiscardsAreExactlyTheBadHits(rules: TextRules, start: Extraction, inputs: seq<InputDescriptor>,
                                                       hits: map<string, seq<Hit>>, i: nat, x: string)
    requires Covers(start, inputs) && i <= |inputs|
    ensures x in HitsUpTo(rules, start, inputs, hits, i).discards <==>
              || x in start.discards
              || exists k :: 0 <= k < i && RejectedHit(rules, inputs[k], OwnHits(hits, inputs[k]), |OwnHits(hits, inputs[k])|, x)
  {
    hide RejectedHit, HitsOf;
    if i > 0 {
      DiscardsAreExactlyTheBadHits(rules, start, inputs, hits, i - 1, x);
      var own := OwnHits(hits, inputs[i - 1]);
      RejectedHits(rules, HitsUpTo(rules, start, inputs, hits, i - 1), inputs[i - 1], own, |own|, x);
    }
  }
}
