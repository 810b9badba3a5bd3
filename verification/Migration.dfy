/** Contexts of the old schema, taken over as stale frames, and how long their values stay unusable. */
module Migration {
  import opened Basics
  import opened ReadContext
  import opened Candidates
  import opened Reducer
  import opened ReducerLaws
  import opened ReducerInvariant
  import opened ReducerStatus
  import opened ReadDecision
  import opened DecisionGate
  import opened Conversation

  /** The last decision of an old context; `None` stands for a context without one, or one that does not
      decode strictly. */
  datatype LastContext = LastContext(capabilityId: string, parameters: map<string, string>, missing: seq<string>, decisionType: string)

  function LegacySlot(name: string, value: Option<string>, turnId: string): SlotBinding {
    SlotBinding(name, value, if value.Some? then [value.value] else [], if value.Some? then RESOLVED else CLEARED,
                INHERITED_LEGACY, turnId, None, [])
  }

  function LegacySlots(last: LastContext, turnId: string): map<string, SlotBinding> {
    var names := last.parameters.Keys + (set m | m in last.missing);
    map n | n in names :: LegacySlot(n, Lookup(last.parameters, n), turnId)
  }

  predicate Decodes(last: LastContext) {
    && (last.decisionType == "SELECT" || last.decisionType == "CLARIFY") && last.capabilityId != ""
    && (forall n | n in last.parameters :: n != "" && last.parameters[n] != "")
    && (forall n | n in last.missing :: n != "")
  }

  /** `migrate_legacy_context` */
  function MigrateLegacy(legacy: Option<LastContext>, snapshotId: string, turnId: string): Result<ReadState> {
    if snapshotId == "" || turnId == "" then Raise("ValueError")
    else if legacy.None? || !Decodes(legacy.value) then Ok(EMPTY_STATE)
    else
      var last := legacy.value;
      Ok(ReadState(Some(Frame("legacy:" + last.capabilityId + ":" + turnId, last.capabilityId, LegacySlots(last, turnId), STALE,
                              turnId, turnId, snapshotId, "legacy")),
                   None, 0, [], map[]))
  }

  /** Migration fails closed: whatever the old context held, the state it gives passes every constructor and
      is a sound start for any catalog, and nothing in it counts as established. */
  lemma MigratedIsSound(cat: Catalog, legacy: Option<LastContext>, snapshotId: string, turnId: string)
    requires MigrateLegacy(legacy, snapshotId, turnId).Ok?
    ensures var s := MigrateLegacy(legacy, snapshotId, turnId).value; StateOk(cat, s) && Unestablished(s)
  {
    var s := MigrateLegacy(legacy, snapshotId, turnId).value;
    if s.activeFrame.Some? {
      var frame := s.activeFrame.value;
      forall n | n in frame.slots ensures frame.slots[n].Valid() && frame.slots[n].name == n {
        assert AllNonEmpty(frame.slots[n].candidates);
      }
      assert frame.frameId[0] == 'l';
      if frame.capabilityId in cat {
        var d := cat[frame.capabilityId];
        forall n | n in frame.slots && Declared(d, n)
          ensures exists i :: 0 <= i < |d.inputs| && d.inputs[i].name == n && SlotFits(d.inputs[i], frame.slots[n])
        {
          var i :| 0 <= i < |d.inputs| && d.inputs[i].name == n;
          assert SlotFits(d.inputs[i], frame.slots[n]);
        }
      }
    }
  }

  /** What a context that decodes is migrated to: a stale frame for its capability, under this snapshot and turn,
      whose slots are exactly the old parameters with their values and the other missing names without one, all
      marked as migrated. Anything else is migrated to the empty state. */
  lemma MigratedFrame(legacy: Option<LastContext>, snapshotId: string, turnId: string, n: string)
    ensures MigrateLegacy(legacy, snapshotId, turnId).Raise? <==> snapshotId == "" || turnId == ""
    ensures MigrateLegacy(legacy, snapshotId, turnId).Ok? ==>
              var s := MigrateLegacy(legacy, snapshotId, turnId).value;
              && s.pending.None? && s.stateVersion == 0 && s.recentFrames == [] && s.clarifyRounds == map[]
              && (s.activeFrame.Some? <==>
                    && legacy.Some?
                    && var last := legacy.value;
                    && last.capabilityId != "" && (last.decisionType == "SELECT" || last.decisionType == "CLARIFY")
                    && "" !in last.parameters && "" !in last.parameters.Values && "" !in last.missing)
              && (s.activeFrame.Some? ==>
                    var frame, last := s.activeFrame.value, legacy.value;
                    && frame.frameId == "legacy:" + last.capabilityId + ":" + turnId && frame.capabilityId == last.capabilityId
                    && frame.status == STALE && frame.createdTurnId == turnId && frame.updatedTurnId == turnId
                    && frame.registrySnapshotId == snapshotId && frame.capabilityVersion == "legacy"
                    && Lookup(frame.slots, n) ==
                       if n in last.parameters then
                         Some(SlotBinding(n, Some(last.parameters[n]), [last.parameters[n]], RESOLVED, INHERITED_LEGACY, turnId, None, []))
                       else if n in last.missing then Some(SlotBinding(n, None, [], CLEARED, INHERITED_LEGACY, turnId, None, []))
                       else None)
  {
    if legacy.Some? {
      assert "" in legacy.value.parameters.Values <==> exists k :: k in legacy.value.parameters && legacy.value.parameters[k] == "";
    }
  }

  // ---------------------------------------------------------------- a migrated value stays unusable

  /** A turn leaves a migrated slot migrated exactly when it discards its answer to it, or neither clears it
      nor brings any usable non-model evidence for it; and it never makes one. */
  lemma MigratedExactly(valid: Validity, req: Request, i: nat)
    requires TurnOk(req) && PriorOk(req) && i < |req.descriptor.inputs|
    ensures var input := req.descriptor.inputs[i];
            var was, now := PriorSlot(req, input.name), NextSlotOf(valid, req, input.name);
            (now.Some? && now.value.provenance == INHERITED_LEGACY) <==>
              && was.Some? && was.value.provenance == INHERITED_LEGACY
              && (ModeIn(req, input.name).rejected
                  || (input.name !in req.candidates.clearSlots
                      && forall c :: c in Evidenced(valid, req, input) ==> c.source == MODEL))
  {
    var input := req.descriptor.inputs[i];
    var good, mode := Evidenced(valid, req, input), ModeIn(req, input.name);
    NextSlotIsOutcome(valid, req, i);
    EvidenceIsSelected(good, mode.expected);
    hide Open, Reduced, PriorSlot, Evidenced, NextSlotOf, TurnOk, PriorOk;
    MigratedOutcome(valid, input, PriorSlot(req, input.name), good, mode, req.turnId);
    assert mode.cleared <==> input.name in req.candidates.clearSlots;
  }

  lemma MigratedOutcome(valid: Validity, input: InputDescriptor, prior: Option<SlotBinding>, good: seq<Candidate>, mode: SlotMode, turnId: string)
    ensures var slot := OutcomeOf(valid, input, prior, good, mode, turnId).slot;
            (slot.Some? && slot.value.provenance == INHERITED_LEGACY) <==>
              && prior.Some? && prior.value.provenance == INHERITED_LEGACY
              && (mode.rejected || (!mode.cleared && OfferOf(good, mode.expected).Selected() == []))
  {
    hide ValuesFrom, SourceSpan;
  }

  /** After any run from a migrated context: a READY frame holds no migrated value, and every value in it was
      offered, validly and not by the model, in a turn of that run for the same capability. */
  lemma ReadyOnlyOnFreshEvidence(cat: Catalog, valid: Validity, legacy: Option<LastContext>, snapshotId: string, turnId: string,
                                 events: seq<Event>, n: string)
    requires CatalogOk(cat) && EventsOk(events) && MigrateLegacy(legacy, snapshotId, turnId).Ok?
    requires Run(cat, valid, MigrateLegacy(legacy, snapshotId, turnId).value, events).Some?
    requires var frame := Run(cat, valid, MigrateLegacy(legacy, snapshotId, turnId).value, events).value.activeFrame;
             frame.Some? && frame.value.capabilityId in cat && frame.value.status == READY && n in frame.value.slots
    ensures var frame := Run(cat, valid, MigrateLegacy(legacy, snapshotId, turnId).value, events).value.activeFrame.value;
            Proper(frame.slots[n]) && Justified(cat, valid, events, frame.capabilityId, frame.slots[n])
  {
    hide MigrateLegacy, Run, Unestablished, FrameAccounted, ReadState.Valid, SlotsFit, Justified;
    var start := MigrateLegacy(legacy, snapshotId, turnId).value;
    MigratedIsSound(cat, legacy, snapshotId, turnId);
    RunInvariant(cat, valid, start, events);
    RunAccounts(cat, valid, start, events);
    var frame := Run(cat, valid, start, events).value.activeFrame.value;
    IsAccounted(cat, valid, start, events, frame, n);
  }
}
