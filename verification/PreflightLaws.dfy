/** Preflight accepts exactly when the binding, the persisted state and the registry as it stands now all say
    the same, told from their fields. */
module PreflightLaws {
  import opened Basics
  import opened ReadContext
  import opened Candidates
  import opened Reducer
  import opened ReducerInvariant
  import opened DecisionGate
  import opened ReadDecision
  import opened Execution

  // ---------------------------------------------------------------- the only record of an identity

  lemma {:induction false} NoRecord<T>(values: seq<(string, T)>, id: string)
    ensures RecordsOf(values, id) == [] <==> forall k :: 0 <= k < |values| ==> values[k].0 != id
  {
    if values != [] {
      NoRecord(values[1..], id);
      assert forall k :: 0 < k < |values| ==> values[k] == values[1..][k - 1];
    }
  }

  lemma {:induction false} RecordAt<T>(values: seq<(string, T)>, id: string, j: nat)
    requires OnlyAt(values, id, j)
    ensures RecordsOf(values, id) == [values[j].1]
  {
    if j == 0 {
      NoRecord(values[1..], id);
    } else {
      assert forall k :: 0 <= k < |values[1..]| ==> values[1..][k] == values[k + 1];
      RecordAt(values[1..], id, j - 1);
    }
  }

  lemma {:induction false} FoundOnce<T>(values: seq<(string, T)>, id: string) returns (j: nat)
    requires |RecordsOf(values, id)| == 1
    ensures OnlyAt(values, id, j)
  {
    if values[0].0 == id {
      NoRecord(values[1..], id);
      j := 0;
    } else {
      var i := FoundOnce(values[1..], id);
      j := i + 1;
    }
    assert forall k :: 0 < k < |values| ==> values[k] == values[1..][k - 1];
  }

  lemma CurrentExactly<T>(values: seq<(string, T)>, id: string)
    ensures CurrentRecord(values, id).Some? ==> Unique(values, id, CurrentRecord(values, id).value)
    ensures forall record :: Unique(values, id, record) ==> CurrentRecord(values, id) == Some(record)
  {
    hide RecordsOf;
    if |RecordsOf(values, id)| == 1 {
      var j := FoundOnce(values, id);
      RecordAt(values, id, j);
    }
    forall record | Unique(values, id, record) ensures CurrentRecord(values, id) == Some(record) {
      var j: nat :| OnlyAt(values, id, j) && values[j].1 == record;
      RecordAt(values, id, j);
    }
  }

  // ---------------------------------------------------------------- what preflight compares

  /** The binding was made for this state and this plan. */
  ghost predicate Bound(hash: string -> string, plan: CallPlan, binding: Binding, state: ReadState, frame: Frame) {
    && state == binding.readState && state.activeFrame == Some(frame) && state.pending.None?
    && state.stateVersion == binding.stateVersion
    && frame.status == READY && frame.updatedTurnId == binding.turnId && frame.frameId == binding.frameId
    && frame.registrySnapshotId == binding.registrySnapshotId && frame.capabilityVersion == binding.capabilityVersion
    && binding.turnId != "" && binding.principalId != "" && binding.executorBindingId != ""
    && plan.kind == "Function" && !plan.requiresApproval && plan.capabilityId == frame.capabilityId
    && HashCallPlan(hash, plan) == binding.callPlanHash
  }

  /** The caller's registry has exactly one record of the capability and one of its executor: active, a function
      of the frame's version, without side effect or approval, run by the binding's executor, visible for
      execution, and the executor of the same type and without side effect. */
  ghost predicate Permits(sources: Sources, capabilityId: string, version: string, executorId: string, record: CapabilityRecord,
                          executor: RawBinding)
  {
    && Unique(sources.capabilities, capabilityId, record)
    && record.status == "active" && record.kind == "Function" && record.version == version
    && record.sideEffect == "none" && !record.requiresApproval && record.executorBindingId == executorId
    && capabilityId in sources.executionIds
    && Unique(sources.bindings, executorId, executor)
    && executor.bindingType == record.executorType && executor.sideEffect == "none"
  }

  /** The slots are those of the record's inputs: distinctly named, resolved, of the declared shape, none required missing. */
  ghost predicate Fills(conforms: Shape, capabilityId: string, inputs: seq<InputDescriptor>, slots: map<string, SlotBinding>) {
    && NamesDistinct(inputs)
    && (forall i :: 0 <= i < |inputs| && inputs[i].required ==> inputs[i].name in slots)
    && forall n :: n in slots ==>
         && (exists i :: 0 <= i < |inputs| && inputs[i].name == n)
         && slots[n].state == RESOLVED && slots[n].value.Some? && conforms(capabilityId, n, slots[n].value.value)
  }

  /** What a parameter must be: its slot's value, or the default of the day for a name without a slot. */
  function Due(capabilityId: string, slots: map<string, SlotBinding>, today: string, n: string): Option<string> {
    if n in slots && slots[n].value.Some? then slots[n].value
    else if n == "unit" && capabilityId == "MM.Inventory.GetAvailability" then Some("EA")
    else if n == "keydate" && (capabilityId == "FI.AR.GetOpenItems" || capabilityId == "FI.AP.GetOpenItems") then Some(today)
    else None
  }

  /** The plan sends exactly what is due, and every parameter is a declared input of the declared shape. */
  ghost predicate SendsWhatIsDue(conforms: Shape, plan: CallPlan, inputs: seq<InputDescriptor>, slots: map<string, SlotBinding>, today: string) {
    && (forall n :: Lookup(plan.parameters, n) == Due(plan.capabilityId, slots, today, n))
    && forall n :: n in plan.parameters ==>
         (exists i :: 0 <= i < |inputs| && inputs[i].name == n) && conforms(plan.capabilityId, n, plan.parameters[n])
  }

  lemma DueExactly(capabilityId: string, slots: map<string, SlotBinding>, today: string, parameters: Parameters)
    ensures parameters == WithDefaults(capabilityId, SlotValues(slots), today) <==>
            forall n :: Lookup(parameters, n) == Due(capabilityId, slots, today, n)
  {
    var expected := WithDefaults(capabilityId, SlotValues(slots), today);
    forall n ensures Lookup(expected, n) == Due(capabilityId, slots, today, n) {}
    hide WithDefaults, Due, SlotValues;
    if forall n :: Lookup(parameters, n) == Due(capabilityId, slots, today, n) {
      forall n ensures n in parameters <==> n in expected
               ensures n in parameters ==> parameters[n] == expected[n]
      {
        assert Lookup(parameters, n) == Lookup(expected, n);
      }
    }
  }

  lemma SentExactly(conforms: Shape, plan: CallPlan, inputs: seq<InputDescriptor>, slots: map<string, SlotBinding>, today: string)
    requires Fills(conforms, plan.capabilityId, inputs, slots)
    ensures ParametersCurrent(conforms, plan, inputs, WithDefaults(plan.capabilityId, SlotValues(slots), today)) <==>
            SendsWhatIsDue(conforms, plan, inputs, slots, today)
  {
    var expected := WithDefaults(plan.capabilityId, SlotValues(slots), today);
    DueExactly(plan.capabilityId, slots, today, plan.parameters);
    forall n | n in slots ensures n in expected {}
    hide WithDefaults, SlotValues, Due;
    assert RequiredNames(inputs) <= expected.Keys;
    forall n ensures n in InputNames(inputs) <==> exists i :: 0 <= i < |inputs| && inputs[i].name == n {}
  }

  lemma FilledExactly(conforms: Shape, capabilityId: string, inputs: seq<InputDescriptor>, slots: map<string, SlotBinding>)
    ensures SlotsCurrent(conforms, capabilityId, inputs, slots) <==> Fills(conforms, capabilityId, inputs, slots)
  {
    forall n ensures n in InputNames(inputs) <==> exists i :: 0 <= i < |inputs| && inputs[i].name == n {}
    forall n ensures n in RequiredNames(inputs) <==> exists i :: 0 <= i < |inputs| && inputs[i].required && inputs[i].name == n {}
    if RequiredNames(inputs) <= slots.Keys {
      forall i | 0 <= i < |inputs| && inputs[i].required ensures inputs[i].name in slots { assert inputs[i].name in RequiredNames(inputs); }
    }
  }

  lemma GovernedExactly(binding: Binding, capabilityId: string, sources: Sources)
    ensures GovernanceCurrent(binding, capabilityId, sources) <==>
            exists record, executor :: Permits(sources, capabilityId, binding.capabilityVersion, binding.executorBindingId, record, executor)
    ensures forall record, executor ::
              Permits(sources, capabilityId, binding.capabilityVersion, binding.executorBindingId, record, executor) ==>
                CurrentRecord(sources.capabilities, capabilityId) == Some(record)
  {
    CurrentExactly(sources.capabilities, capabilityId);
    CurrentExactly(sources.bindings, binding.executorBindingId);
    hide CurrentRecord, Unique;
    if GovernanceCurrent(binding, capabilityId, sources) {
      assert Permits(sources, capabilityId, binding.capabilityVersion, binding.executorBindingId,
                     CurrentRecord(sources.capabilities, capabilityId).value,
                     CurrentRecord(sources.bindings, binding.executorBindingId).value);
    }
  }

  /** Preflight accepts a plan exactly when the binding was made for it, for the persisted state and for this
      principal and snapshot, the caller's registry permits the capability now, the slots fill the inputs
      the registry declares now, and the plan sends exactly what is due today. */
  lemma AcceptedExactly(hash: string -> string, conforms: Shape, today: string, plan: CallPlan, binding: Binding,
                        persisted: Option<ReadState>, caller: Caller)
    ensures Preflight(hash, conforms, today, plan, binding, persisted, caller) <==>
            && persisted.Some? && persisted.value.activeFrame.Some? && caller.sources.Some?
            && var frame, sources := persisted.value.activeFrame.value, caller.sources.value;
            && Bound(hash, plan, binding, persisted.value, frame)
            && caller.principalId == Some(binding.principalId) && caller.snapshotId == Some(frame.registrySnapshotId)
            && sources.contractsValid && sources.contractsSnapshot == caller.snapshotId
            && exists record, executor ::
                 && Permits(sources, plan.capabilityId, frame.capabilityVersion, binding.executorBindingId, record, executor)
                 && Fills(conforms, plan.capabilityId, record.inputs, frame.slots)
                 && SendsWhatIsDue(conforms, plan, record.inputs, frame.slots, today)
  {
    hide HashCallPlan, GovernanceCurrent, SlotsCurrent, ParametersCurrent, Permits, Fills, SendsWhatIsDue, CurrentRecord, WithDefaults, SlotValues;
    if persisted.Some? && persisted.value.activeFrame.Some? && caller.sources.Some? {
      var frame, sources := persisted.value.activeFrame.value, caller.sources.value;
      GovernedExactly(binding, plan.capabilityId, sources);
      forall record, executor | Permits(sources, plan.capabilityId, binding.capabilityVersion, binding.executorBindingId, record, executor)
        ensures SlotsCurrent(conforms, plan.capabilityId, record.inputs, frame.slots) <==> Fills(conforms, plan.capabilityId, record.inputs, frame.slots)
        ensures Fills(conforms, plan.capabilityId, record.inputs, frame.slots) ==>
                  (ParametersCurrent(conforms, plan, record.inputs, WithDefaults(plan.capabilityId, SlotValues(frame.slots), today))
                   <==> SendsWhatIsDue(conforms, plan, record.inputs, frame.slots, today))
      {
        FilledExactly(conforms, plan.capabilityId, record.inputs, frame.slots);
        if Fills(conforms, plan.capabilityId, record.inputs, frame.slots) { SentExactly(conforms, plan, record.inputs, frame.slots, today); }
      }
    }
  }

  lemma MintedIsBound(hash: string -> string, valid: Validity, req: Request, traceId: string, mintedOn: string,
                      principalId: string, executorBindingId: string)
    requires TurnOk(req) && PriorOk(req) && Reduce(valid, req).Ok?
    requires Reduced(valid, req).nextState.activeFrame.value.status == READY
    requires Minted(hash, valid, req, traceId, mintedOn, principalId, executorBindingId).Ok?
    ensures var binding := Minted(hash, valid, req, traceId, mintedOn, principalId, executorBindingId).value;
            var state := Reduced(valid, req).nextState;
            && Bound(hash, MintedPlan(valid, req, traceId, mintedOn), binding, state, state.activeFrame.value)
            && binding.principalId == principalId && binding.executorBindingId == executorBindingId
            && state.activeFrame.value.capabilityVersion == req.capabilityVersion
            && state.activeFrame.value.registrySnapshotId == req.snapshotId
            && MintedPlan(valid, req, traceId, mintedOn) ==
               CallPlan(traceId, req.descriptor.capabilityId, "Function", MintedPlan(valid, req, traceId, mintedOn).parameters,
                        "validate_before_execute", "agent", false)
  {
    hide Reduced, HashCallPlan, WithDefaults, SlotValues;
    TurnInvariant(valid, req);
  }

  /** The plan minted for a READY turn, whatever has become of the registry since: it passes exactly when the
      caller is still this principal under this snapshot, the registry still permits the capability in this
      version with this executor, and the slots and the plan fit the inputs it declares on that day. */
  lemma MintedPassesUnderAnyRegistry(hash: string -> string, valid: Validity, conforms: Shape, req: Request,
                                     traceId: string, mintedOn: string, checkedOn: string,
                                     principalId: string, executorBindingId: string, caller: Caller)
    requires TurnOk(req) && PriorOk(req) && Reduce(valid, req).Ok?
    requires Reduced(valid, req).nextState.activeFrame.value.status == READY
    requires Minted(hash, valid, req, traceId, mintedOn, principalId, executorBindingId).Ok?
    ensures var slots := Reduced(valid, req).nextState.activeFrame.value.slots;
            MintedPasses(hash, valid, conforms, req, traceId, mintedOn, checkedOn, principalId, executorBindingId, caller) <==>
            && caller.principalId == Some(principalId) && caller.snapshotId == Some(req.snapshotId) && caller.sources.Some?
            && caller.sources.value.contractsValid && caller.sources.value.contractsSnapshot == caller.snapshotId
            && exists record, executor ::
                 && Permits(caller.sources.value, req.descriptor.capabilityId, req.capabilityVersion, executorBindingId, record, executor)
                 && Fills(conforms, req.descriptor.capabilityId, record.inputs, slots)
                 && SendsWhatIsDue(conforms, MintedPlan(valid, req, traceId, mintedOn), record.inputs, slots, checkedOn)
  {
    hide *;
    MintedIsBound(hash, valid, req, traceId, mintedOn, principalId, executorBindingId);
    PassesMeans(hash, valid, conforms, req, traceId, mintedOn, checkedOn, principalId, executorBindingId, caller);
    AcceptedExactly(hash, conforms, checkedOn, MintedPlan(valid, req, traceId, mintedOn),
                    Minted(hash, valid, req, traceId, mintedOn, principalId, executorBindingId).value,
                    Some(Reduced(valid, req).nextState), caller);
  }

  lemma PassesMeans(hash: string -> string, valid: Validity, conforms: Shape, req: Request,
                    traceId: string, mintedOn: string, checkedOn: string,
                    principalId: string, executorBindingId: string, caller: Caller)
    requires Minted(hash, valid, req, traceId, mintedOn, principalId, executorBindingId).Ok?
    ensures MintedPasses(hash, valid, conforms, req, traceId, mintedOn, checkedOn, principalId, executorBindingId, caller) <==>
            Preflight(hash, conforms, checkedOn, MintedPlan(valid, req, traceId, mintedOn),
                      Minted(hash, valid, req, traceId, mintedOn, principalId, executorBindingId).value,
                      Some(Reduced(valid, req).nextState), caller)
  {
    hide Preflight, Minted, MintedPlan, Reduced;
  }
}
