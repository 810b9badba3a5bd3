/** Every conversation that is stored after each step and loaded before the next one goes on as if it had
    never been stored. */
module PersistedRuns {
  import opened Basics
  import opened ReadContext
  import opened Candidates
  import opened Reducer
  import opened Conversation
  import Persistence
  import StatePersistence

  /** Entity choices come as the resolution service issues them. */
  ghost predicate ChoicesInForm(e: Event) {
    && (e.ReadTurn? && e.followUp.EntityOffer? ==> StatePersistence.ChoiceInForm(e.followUp.choice))
    && (e.EntityReoffered? ==> StatePersistence.ChoiceInForm(e.newChoice))
  }

  /** A turn keeps a pending interaction, moved to the new version, or asks for slots. */
  lemma ReducedInForm(valid: Validity, req: Request)
    requires StatePersistence.InForm(req.prior)
    ensures StatePersistence.InForm(Reduced(valid, req).nextState)
  {
    hide LoopEnd, AskedFields, NextFrame, FailsRebind, StatePersistence.ChoiceInForm;
  }

  lemma StepInForm(cat: Catalog, valid: Validity, s: ReadState, e: Event)
    requires StatePersistence.InForm(s) && ChoicesInForm(e) && Step(cat, valid, s, e).Some?
    ensures StatePersistence.InForm(Step(cat, valid, s, e).value)
  {
    hide Reduced, ReadState.Valid, StatePersistence.ChoiceInForm;
    if e.ReadTurn? { ReducedInForm(valid, RequestOf(cat, s, e.turn)); }
  }

  lemma {:induction false} RunInForm(cat: Catalog, valid: Validity, start: ReadState, events: seq<Event>)
    requires StatePersistence.InForm(start) && Run(cat, valid, start, events).Some? && forall i :: 0 <= i < |events| ==> ChoicesInForm(events[i])
    ensures StatePersistence.InForm(Run(cat, valid, start, events).value)
  {
    if events != [] {
      var n := |events| - 1;
      RunInForm(cat, valid, start, events[..n]);
      hide Step, ChoicesInForm;
      StepInForm(cat, valid, Run(cat, valid, start, events[..n]).value, events[n]);
    }
  }

  /** A run whose state is written to its store after every step and read back before the next one. */
  ghost function StoredRun(order: Persistence.Order, clock: StatePersistence.Clock, cat: Catalog, valid: Validity, start: ReadState,
                           events: seq<Event>): Option<ReadState>
    requires Persistence.Lists(order)
  {
    if events == [] then Some(start)
    else
      var before := StoredRun(order, clock, cat, valid, start, events[..|events| - 1]);
      if before.None? then None
      else
        var loaded := StatePersistence.StateFromDict(clock, StatePersistence.StateToDict(order, clock, before.value));
        if loaded.Raise? then None else Step(cat, valid, loaded.value, events[|events| - 1])
  }

  /** Storing loses nothing: the stored run reaches the state of the run in memory, step for step. */
  lemma {:induction false} StoringIsTransparent(order: Persistence.Order, clock: StatePersistence.Clock, cat: Catalog, valid: Validity,
                                                start: ReadState, events: seq<Event>)
    requires Persistence.Lists(order) && StatePersistence.Exact(clock)
    requires StateOk(cat, start) && StatePersistence.InForm(start)
    requires CatalogOk(cat) && EventsOk(events) && forall i :: 0 <= i < |events| ==> ChoicesInForm(events[i])
    ensures StoredRun(order, clock, cat, valid, start, events) == Run(cat, valid, start, events)
  {
    if events != [] {
      var init := events[..|events| - 1];
      StoringIsTransparent(order, clock, cat, valid, start, init);
      if Run(cat, valid, start, init).Some? {
        RunInvariant(cat, valid, start, init);
        RunInForm(cat, valid, start, init);
        hide Step, ChoicesInForm, ReadState.Valid, FrameOk, StatePersistence.InForm, StatePersistence.StateToDict, StatePersistence.StateFromDict;
        StatePersistence.StateRoundTrip(order, clock, Run(cat, valid, start, init).value);
      }
    }
  }
}
