/** One concrete turn, which asks for the open items of customer 1000 in company code 1000 without a key date. */
module OpenItems {
  import opened Basics
  import opened ReadContext
  import opened Candidates
  import opened Reducer
  import opened ReducerLaws
  import opened ReducerInvariant
  import opened ReducerStatus
  import opened DecisionGate
  import opened ReadDecision
  import opened Execution

  const ACCEPTS_TEXT: Validity := (input, value) => value != ""
  const TEXT_CONFORMS: Shape := (capability, name, value) => value != ""

  const CUSTOMER := InputDescriptor("customer", "sapnexus:CustomerNumber", true)
  const COMPANY := InputDescriptor("companyCode", "sapnexus:CompanyCode", true)
  const KEY_DATE := InputDescriptor("keydate", "sapnexus:KeyDate", false)

  const RECEIVABLES := CapabilityDescriptor("FI.AR.GetOpenItems", [CUSTOMER, COMPANY, KEY_DATE], "none")

  function Labelled(name: string): Candidate { Candidate(name, "1000", DETERMINISTIC_LABEL, None) }

  const UTTERANCE := CandidateSet(map["customer" := [Labelled("customer")], "companyCode" := [Labelled("companyCode")]], [], [])

  const TURN := Request(EMPTY_STATE, UTTERANCE, RECEIVABLES, "snapshot", "1.0.0", "turn-1", Timestamp(0, 0))

  const RECORD := CapabilityRecord("active", "Function", "1.0.0", "none", false, "REST_JSON", "open-items", [CUSTOMER, COMPANY, KEY_DATE])

  const CALLER := Caller(Some("user"), Some("snapshot"),
                         Some(Sources(Some("snapshot"), true, [("FI.AR.GetOpenItems", RECORD)],
                                      [("open-items", RawBinding("REST_JSON", "none"))], {"FI.AR.GetOpenItems"})))

  lemma TurnIsSound()
    ensures TurnOk(TURN) && PriorOk(TURN)
  {}

  lemma LabelOffers(c: Candidate)
    requires c.source == DETERMINISTIC_LABEL
    ensures OfferOf([c], false).Selected() == [c.value] && OfferOf([c], false).SelectedSource() == DETERMINISTIC_LABEL
  {
    assert [c][..0] == [];
    assert ValuesFrom([c], DETERMINISTIC_LABEL) == [c.value];
    assert ValuesFrom([c], EXPLICIT_CORRECTION) == [] && ValuesFrom([c], CONFIRMATION) == [];
  }

  lemma LabelResolves(input: InputDescriptor, c: Candidate)
    requires c.source == DETERMINISTIC_LABEL
    ensures OutcomeOf(ACCEPTS_TEXT, input, None, [c], SlotMode(false, false, false), "turn-1") ==
            SlotOutcome(Some(ResolvedSlot(input.name, OfferOf([c], false), None, SourceSpan([c], c.value), "turn-1")), true, false, true)
  {
    LabelOffers(c);
    hide Offer.Selected, OfferOf;
  }

  lemma OneLabelSelects(input: InputDescriptor)
    requires input.name == "customer" || input.name == "companyCode"
    ensures var out := TurnOutcome(ACCEPTS_TEXT, TURN, input);
            && out.slot.Some? && out.slot.value.state == RESOLVED && out.slot.value.provenance == EXPLICIT
            && !out.confirmedPending
  {
    var c := Labelled(input.name);
    LabelOffers(c);
    LabelResolves(input, c);
    assert [c][..0] == [];
    assert ValidOnly(ACCEPTS_TEXT, input, [c]) == [c];
    hide ValidOnly, OfferOf, Offer.Selected, OutcomeOf;
    assert Evidenced(ACCEPTS_TEXT, TURN, input) == [c];
    assert PriorSlot(TURN, input.name) == None && ModeIn(TURN, input.name) == SlotMode(false, false, false);
  }

  lemma NoDateStated()
    ensures TurnOutcome(ACCEPTS_TEXT, TURN, KEY_DATE) == SlotOutcome(None, false, false, false)
  {}

  /** The turn makes its frame READY with both required slots and without a key date. */
  lemma TurnIsReady()
    ensures var next := Reduced(ACCEPTS_TEXT, TURN).nextState;
            && Reduce(ACCEPTS_TEXT, TURN).Ok? && next.activeFrame.value.status == READY
            && next.activeFrame.value.slots.Keys == {"customer", "companyCode"}
  {
    TurnIsSound();
    var slots := LoopEnd(ACCEPTS_TEXT, TURN).slots;
    LoopSlots();
    NextSlotsFit(ACCEPTS_TEXT, TURN);
    ReadyExactlyWhen(ACCEPTS_TEXT, TURN);
    RaisesExactlyWhen(ACCEPTS_TEXT, TURN);
    hide LoopEnd, StatusOf, NextPending, Frame.Valid, Reduce, SlotsFit;
    assert Open(TURN).rejectedFields == [] && PendingAfterAnswers(TURN, Open(TURN), LoopEnd(ACCEPTS_TEXT, TURN)).None?;
  }

  lemma LoopSlots()
    ensures var slots := LoopEnd(ACCEPTS_TEXT, TURN).slots;
            && slots.Keys == {"customer", "companyCode"} && Complete(RECEIVABLES, slots)
  {
    hide LoopEnd, TurnOutcome, TURN, ACCEPTS_TEXT, Complete;
    var slots := LoopEnd(ACCEPTS_TEXT, TURN).slots;
    OneLabelSelects(CUSTOMER);
    OneLabelSelects(COMPANY);
    NoDateStated();
    DeclaredSlots();
    forall n | n !in {"customer", "companyCode", "keydate"} ensures n !in slots { UndeclaredSlot(n); }
    assert slots.Keys == {"customer", "companyCode"};
    TwoSlotsComplete(slots);
  }

  lemma TwoSlotsComplete(slots: map<string, SlotBinding>)
    requires slots.Keys == {"customer", "companyCode"}
    requires forall n :: n in slots ==> slots[n].state == RESOLVED && slots[n].provenance == EXPLICIT
    ensures Complete(RECEIVABLES, slots)
  {}

  lemma DeclaredSlots()
    ensures var slots := LoopEnd(ACCEPTS_TEXT, TURN).slots;
            && Lookup(slots, "customer") == TurnOutcome(ACCEPTS_TEXT, TURN, CUSTOMER).slot
            && Lookup(slots, "companyCode") == TurnOutcome(ACCEPTS_TEXT, TURN, COMPANY).slot
            && Lookup(slots, "keydate") == TurnOutcome(ACCEPTS_TEXT, TURN, KEY_DATE).slot
  {
    TurnIsSound();
    assert RECEIVABLES.inputs == [CUSTOMER, COMPANY, KEY_DATE];
    assert Reduced(ACCEPTS_TEXT, TURN).nextState.activeFrame.value.slots == LoopEnd(ACCEPTS_TEXT, TURN).slots;
    hide Reduced, LoopEnd, TurnOutcome, ACCEPTS_TEXT, UTTERANCE;
    NextSlot(ACCEPTS_TEXT, TURN, 0);
    NextSlot(ACCEPTS_TEXT, TURN, 1);
    NextSlot(ACCEPTS_TEXT, TURN, 2);
  }

  lemma UndeclaredSlot(n: string)
    requires n !in {"customer", "companyCode", "keydate"}
    ensures n !in LoopEnd(ACCEPTS_TEXT, TURN).slots
  {
    var o := Open(TURN);
    TurnIsSound();
    assert LoopStart(o).slots == map[];
    assert forall i :: 0 <= i < 3 ==> RECEIVABLES.inputs[i].name != n;
    hide OutcomeOf, ValidOnly, AfterInputs, Open, LoopStart, ACCEPTS_TEXT, UTTERANCE;
    LoopBySlot(ACCEPTS_TEXT, TurnInputOf(TURN, o), LoopStart(o), RECEIVABLES.inputs, 3, n);
  }

  lemma RegistryBacksTurn()
    ensures RegistryBacks(TURN, "open-items", "user", CALLER) && ShapeFollows(ACCEPTS_TEXT, TEXT_CONFORMS, RECEIVABLES)
  {
    OnlyRecord("FI.AR.GetOpenItems", RECORD);
    OnlyRecord("open-items", RawBinding("REST_JSON", "none"));
  }

  lemma OnlyRecord<T>(id: string, value: T)
    ensures CurrentRecord([(id, value)], id) == Some(value)
  {
    assert [(id, value)][1..] == [] && RecordsOf<T>([], id) == [];
    assert RecordsOf([(id, value)], id) == [value] + RecordsOf([(id, value)][1..], id);
  }

  lemma MintingSucceeds(hash: string -> string, traceId: string, mintedOn: string)
    requires forall t :: hash(t) != ""
    ensures Minted(hash, ACCEPTS_TEXT, TURN, traceId, mintedOn, "user", "open-items").Ok?
  {
    hide Reduced, MintedPlan;
    TurnIsReady();
  }

  lemma DateIsDeclared(mintedOn: string, slots: map<string, SlotBinding>)
    requires mintedOn != ""
    ensures DefaultsDeclared(TEXT_CONFORMS, RECEIVABLES, slots, mintedOn)
  {
    assert RECEIVABLES.inputs[2].name == "keydate";
  }

  /** The plan minted for this turn passes preflight on the day it was minted, and on no other. */
  lemma PlanPassesOnItsDayOnly(hash: string -> string, traceId: string, mintedOn: string, checkedOn: string)
    requires mintedOn != "" && forall t :: hash(t) != ""
    ensures Minted(hash, ACCEPTS_TEXT, TURN, traceId, mintedOn, "user", "open-items").Ok?
    ensures MintedPasses(hash, ACCEPTS_TEXT, TEXT_CONFORMS, TURN, traceId, mintedOn, checkedOn, "user", "open-items", CALLER)
            <==> mintedOn == checkedOn
  {
    hide *;
    TurnIsSound();
    TurnIsReady();
    RegistryBacksTurn();
    MintingSucceeds(hash, traceId, mintedOn);
    DateIsDeclared(mintedOn, Reduced(ACCEPTS_TEXT, TURN).nextState.activeFrame.value.slots);
    KeyDateIsDefaulted();
    MintedPassesExactlyWhen(hash, ACCEPTS_TEXT, TEXT_CONFORMS, TURN, traceId, mintedOn, checkedOn, "user", "open-items", CALLER);
  }

  lemma KeyDateIsDefaulted()
    ensures TURN.descriptor == RECEIVABLES && RECEIVABLES.capabilityId in OPEN_ITEMS_CAPABILITY_IDS
  {}
}
