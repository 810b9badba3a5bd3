/** From the first turn to the gateway: where every executed parameter comes from. */
module AcceptedRuns {
  import opened Basics
  import opened ReadContext
  import opened Candidates
  import opened ReducerInvariant
  import opened ReadDecision
  import opened Conversation
  import opened Execution

  /** Whatever plan preflight accepts against the state a run has reached, each of its parameters is a default
      of the day for a name without a slot, or the value of a slot that a turn of the run, or the state it
      started from, accounts for; a run from the empty state or a migrated one accounts for it by a turn. */
  lemma ExecutedParametersAreAccounted(cat: Catalog, valid: Validity, start: ReadState, events: seq<Event>, hash: string -> string,
                                       conforms: Shape, today: string, plan: CallPlan, binding: Binding, caller: Caller, n: string)
    requires CatalogOk(cat) && StateOk(cat, start) && EventsOk(events) && Run(cat, valid, start, events).Some?
    requires Preflight(hash, conforms, today, plan, binding, Run(cat, valid, start, events), caller)
    requires plan.capabilityId in cat && n in plan.parameters
    ensures var slots := Run(cat, valid, start, events).value.activeFrame.value.slots;
            if n in slots then
              && slots[n].value == Some(plan.parameters[n])
              && Accounted(cat, valid, start, events, plan.capabilityId, slots[n])
              && (Unestablished(start) ==> Justified(cat, valid, events, plan.capabilityId, slots[n]))
            else
              && n in DefaultsFor(plan.capabilityId, today)
              && plan.parameters[n] == DefaultsFor(plan.capabilityId, today)[n]
  {
    hide Run, Preflight, FrameAccounted, Accounted, Unestablished, Justified, ReadState.Valid, SlotsFit, CatalogOk, EventsOk;
    var s := Run(cat, valid, start, events).value;
    AcceptedParametersAreForced(hash, conforms, today, plan, binding, s, caller);
    RunInvariant(cat, valid, start, events);
    RunAccounts(cat, valid, start, events);
    var frame := s.activeFrame.value;
    if n in frame.slots {
      IsAccounted(cat, valid, start, events, frame, n);
    } else {
      assert n !in SlotValues(frame.slots);
    }
  }
}
