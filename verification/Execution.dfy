/** From a decided READ turn to its execution: the plan and the binding minted for it, and the preflight
    that re-checks both, by separate code, before any gateway call. */
module Execution {
  import opened Basics
  import opened ReadContext
  import opened Candidates
  import opened Reducer
  import opened ReducerLaws
  import opened ReducerInvariant
  import opened ReducerStatus
  import opened DecisionGate
  import opened ReadDecision
  import opened CanonicalJson

  // ---------------------------------------------------------------- call plans and their hash

  datatype CallPlan = CallPlan(
    agentTraceId: string,
    capabilityId: string,
    kind: string,
    parameters: Parameters,
    validationPolicy: string,
    createdBy: string,
    requiresApproval: bool)

  function CreateCallPlan(traceId: string, capabilityId: string, parameters: Parameters, kind: string): CallPlan {
    CallPlan(traceId, capabilityId, kind, parameters, "validate_before_execute", "agent", kind == "Action")
  }

  const PLAN_KEYS := ["agentTraceId", "capabilityId", "kind", "parameters", "validationPolicy", "createdBy", "requiresApproval"]

  ghost function PlanValues(plan: CallPlan): (values: seq<Json>)
    ensures |values| == 7 && forall i :: 0 <= i < 7 ==> WellFormed(values[i])
  {
    [JString(plan.agentTraceId), JString(plan.capabilityId), JString(plan.kind), MapJson(plan.parameters),
     JString(plan.validationPolicy), JString(plan.createdBy), JBool(plan.requiresApproval)]
  }

  lemma PlanKeysDistinct()
    ensures |PLAN_KEYS| == 7 && Distinct(PLAN_KEYS)
  {}

  /** `CallPlan.to_dict`. */
  ghost function PlanJson(plan: CallPlan): (j: Json)
    ensures j.JObject? && WellFormed(j)
  {
    PlanKeysDistinct();
    var values := PlanValues(plan);
    var fields := seq(7, i requires 0 <= i < 7 => (PLAN_KEYS[i], values[i]));
    assert KeysDistinct(fields);
    assert forall i :: 0 <= i < |fields| ==> WellFormed(fields[i].1);
    JObject(fields)
  }

  ghost function HashCallPlan(hash: string -> string, plan: CallPlan): string {
    hash(Encode(PlanJson(plan)))
  }

  /** The entries of the dict that is hashed. */
  lemma PlanEntries(plan: CallPlan)
    ensures PlanJson(plan).fields ==
            [("agentTraceId", JString(plan.agentTraceId)), ("capabilityId", JString(plan.capabilityId)), ("kind", JString(plan.kind)),
             ("parameters", MapJson(plan.parameters)), ("validationPolicy", JString(plan.validationPolicy)),
             ("createdBy", JString(plan.createdBy)), ("requiresApproval", JBool(plan.requiresApproval))]
  {}

  lemma SamePlanJson(p: CallPlan, q: CallPlan)
    requires Same(PlanJson(p), PlanJson(q))
    ensures p == q
  {
    SameAligned(PlanJson(p), PlanJson(q));
    var a, b := PlanValues(p), PlanValues(q);
    forall i | 0 <= i < 7 ensures Same(a[i], b[i]) {
      assert PlanJson(p).fields[i].1 == a[i] && PlanJson(q).fields[i].1 == b[i];
    }
    SamePlanValues(p, q);
  }

  lemma SamePlanValues(p: CallPlan, q: CallPlan)
    requires forall i :: 0 <= i < 7 ==> Same(PlanValues(p)[i], PlanValues(q)[i])
    ensures p == q
  {
    var a, b := PlanValues(p), PlanValues(q);
    assert Same(a[0], b[0]) && Same(a[1], b[1]) && Same(a[2], b[2]) && Same(a[3], b[3]);
    assert Same(a[4], b[4]) && Same(a[5], b[5]) && Same(a[6], b[6]);
    ListingsOfMaps(MapJson(p.parameters), p.parameters, MapJson(q.parameters), q.parameters);
  }

  /** The plan hash names its plan. */
  lemma PlanHashFaithful(hash: string -> string, p: CallPlan, q: CallPlan)
    requires CollisionFree(hash)
    ensures HashCallPlan(hash, p) == HashCallPlan(hash, q) <==> p == q
  {
    if HashCallPlan(hash, p) == HashCallPlan(hash, q) {
      CanonicalTextIsFaithful(PlanJson(p), PlanJson(q));
      SamePlanJson(p, q);
    }
  }

  // ---------------------------------------------------------------- capability defaults

  const INVENTORY_CAPABILITY_ID := "MM.Inventory.GetAvailability"
  const OPEN_ITEMS_CAPABILITY_IDS := {"FI.AR.GetOpenItems", "FI.AP.GetOpenItems"}

  function DefaultsFor(capabilityId: string, today: string): Parameters {
    (if capabilityId == INVENTORY_CAPABILITY_ID then map["unit" := "EA"] else map[])
    + (if capabilityId in OPEN_ITEMS_CAPABILITY_IDS then map["keydate" := today] else map[])
  }

  /** A value the caller stated always wins over a default. */
  function WithDefaults(capabilityId: string, parameters: Parameters, today: string): Parameters {
    DefaultsFor(capabilityId, today) + parameters
  }

  /** The parameter dict the defaults are filled into. */
  class ParameterTable {
    var entries: Parameters

    constructor (initial: Parameters)
      ensures entries == initial
    {
      entries := initial;
    }

    method SetDefault(name: string, value: string)
      modifies this
      ensures entries == map[name := value] + old(entries)
    {
      if name !in entries { entries := entries[name := value]; }
    }

    method ApplyCapabilityDefaults(capabilityId: string, today: string)
      modifies this
      ensures entries == WithDefaults(capabilityId, old(entries), today)
    {
      if capabilityId == INVENTORY_CAPABILITY_ID { SetDefault("unit", "EA"); }
      if capabilityId in OPEN_ITEMS_CAPABILITY_IDS { SetDefault("keydate", today); }
    }
  }

  // ---------------------------------------------------------------- the binding

  datatype Binding = Binding(
    turnId: string,
    frameId: string,
    stateVersion: int,
    registrySnapshotId: string,
    principalId: string,
    capabilityVersion: string,
    executorBindingId: string,
    callPlanHash: string,
    readState: ReadState)
  {
    predicate Valid() {
      && turnId != "" && frameId != "" && registrySnapshotId != "" && principalId != ""
      && capabilityVersion != "" && executorBindingId != "" && callPlanHash != "" && stateVersion >= 0
    }

    ghost predicate Validates(hash: string -> string, plan: CallPlan, persisted: Option<ReadState>) {
      && turnId != "" && principalId != ""
      && readState.activeFrame.Some?
      && var frame := readState.activeFrame.value;
      && frame.status == READY
      && frame.updatedTurnId == turnId
      && frame.frameId == frameId
      && frame.registrySnapshotId == registrySnapshotId
      && frame.capabilityVersion == capabilityVersion
      && executorBindingId != ""
      && readState.stateVersion == stateVersion
      && readState.pending.None?
      && (persisted.None? || persisted.value == readState)
      && plan.kind == "Function" && !plan.requiresApproval
      && plan.capabilityId == frame.capabilityId
      && HashCallPlan(hash, plan) == callPlanHash
    }
  }

  /** `ReadExecutionBinding.create`: raises without an active frame or with an empty field. */
  ghost function CreateBinding(hash: string -> string, turnId: string, principalId: string, plan: CallPlan,
                               state: ReadState, executorBindingId: string): Result<Binding>
  {
    if state.activeFrame.None? then Raise("READ execution binding requires an active frame")
    else
      var frame := state.activeFrame.value;
      var b := Binding(turnId, frame.frameId, state.stateVersion, frame.registrySnapshotId, principalId,
                       frame.capabilityVersion, executorBindingId, HashCallPlan(hash, plan), state);
      if b.Valid() then Ok(b) else Raise("ValueError")
  }

  // ---------------------------------------------------------------- the registry as preflight reads it

  datatype CapabilityRecord = CapabilityRecord(
    status: string,
    kind: string,
    version: string,
    sideEffect: string,
    requiresApproval: bool,
    executorType: string,
    executorBindingId: string,
    inputs: seq<InputDescriptor>)

  /** `contractsSnapshot` is the snapshot the semantic contracts are built for, absent when building them
      raises; `executionIds` are the capabilities visible for execution. */
  datatype Sources = Sources(
    contractsSnapshot: Option<string>,
    contractsValid: bool,
    capabilities: seq<(string, CapabilityRecord)>,
    bindings: seq<(string, RawBinding)>,
    executionIds: set<string>)

  type Shape = (string, string, string) -> bool

  datatype Caller = Caller(principalId: Option<string>, snapshotId: Option<string>, sources: Option<Sources>)

  function RecordsOf<T>(values: seq<(string, T)>, id: string): seq<T> {
    if values == [] then []
    else (if values[0].0 == id then [values[0].1] else []) + RecordsOf(values[1..], id)
  }

  /** The unique record with this identity. */
  function CurrentRecord<T>(values: seq<(string, T)>, id: string): Option<T> {
    var matches := RecordsOf(values, id);
    if |matches| == 1 then Some(matches[0]) else None
  }

  /** Governance of the capability and of its executor, as they stand now. */
  ghost predicate GovernanceCurrent(binding: Binding, capabilityId: string, sources: Sources) {
    var record := CurrentRecord(sources.capabilities, capabilityId);
    && record.Some?
    && record.value.status == "active" && record.value.kind == "Function"
    && record.value.version == binding.capabilityVersion
    && record.value.sideEffect == "none" && !record.value.requiresApproval
    && record.value.executorBindingId == binding.executorBindingId
    && capabilityId in sources.executionIds
    && var executor := CurrentRecord(sources.bindings, binding.executorBindingId);
    && executor.Some?
    && executor.value.bindingType == record.value.executorType
    && executor.value.sideEffect == "none"
  }

  function InputNames(inputs: seq<InputDescriptor>): set<string> {
    set i | 0 <= i < |inputs| :: inputs[i].name
  }

  function RequiredNames(inputs: seq<InputDescriptor>): set<string> {
    set i | 0 <= i < |inputs| && inputs[i].required :: inputs[i].name
  }

  /** The slots of the persisted frame are complete, resolved and of the declared shape. */
  ghost predicate SlotsCurrent(conforms: Shape, capabilityId: string, inputs: seq<InputDescriptor>, slots: map<string, SlotBinding>) {
    && NamesDistinct(inputs)
    && RequiredNames(inputs) <= slots.Keys
    && forall n :: n in slots ==>
         && n in InputNames(inputs) && slots[n].state == RESOLVED && slots[n].value.Some?
         && conforms(capabilityId, n, slots[n].value.value)
  }

  ghost predicate ParametersCurrent(conforms: Shape, plan: CallPlan, inputs: seq<InputDescriptor>, expected: Parameters) {
    && RequiredNames(inputs) <= expected.Keys
    && plan.parameters.Keys <= InputNames(inputs)
    && (forall n :: n in plan.parameters ==> conforms(plan.capabilityId, n, plan.parameters[n]))
    && plan.parameters == expected
  }

  /** `_valid_current_read_authority` on the day `today`. */
  ghost predicate Preflight(hash: string -> string, conforms: Shape, today: string, plan: CallPlan, binding: Binding,
                            persisted: Option<ReadState>, caller: Caller)
  {
    && persisted.Some? && caller.principalId.Some? && caller.snapshotId.Some? && caller.sources.Some?
    && binding.Validates(hash, plan, persisted)
    && binding.principalId == caller.principalId.value
    && binding.registrySnapshotId == caller.snapshotId.value
    && caller.sources.value.contractsValid && caller.sources.value.contractsSnapshot == caller.snapshotId
    && GovernanceCurrent(binding, plan.capabilityId, caller.sources.value)
    && persisted.value.activeFrame.Some?
    && var inputs := CurrentRecord(caller.sources.value.capabilities, plan.capabilityId).value.inputs;
    && var slots := persisted.value.activeFrame.value.slots;
    && SlotsCurrent(conforms, plan.capabilityId, inputs, slots)
    && ParametersCurrent(conforms, plan, inputs, WithDefaults(plan.capabilityId, SlotValues(slots), today))
  }

  // ---------------------------------------------------------------- what preflight can accept

  /** For one persisted state, preflight accepts at most one parameter map: the values of the resolved
      slots, completed by the defaults of the day. */
  lemma AcceptedParametersAreForced(hash: string -> string, conforms: Shape, today: string, plan: CallPlan,
                                    binding: Binding, persisted: ReadState, caller: Caller)
    requires Preflight(hash, conforms, today, plan, binding, Some(persisted), caller)
    ensures persisted.pending.None? && persisted.activeFrame.Some?
    ensures caller.principalId == Some(binding.principalId)
    ensures caller.snapshotId == Some(persisted.activeFrame.value.registrySnapshotId)
    ensures persisted.stateVersion == binding.stateVersion && persisted.activeFrame.value.updatedTurnId == binding.turnId
    ensures var frame := persisted.activeFrame.value;
            && plan.capabilityId == frame.capabilityId && frame.status == READY
            && plan.parameters == WithDefaults(frame.capabilityId, SlotValues(frame.slots), today)
            && forall n :: n in frame.slots ==>
                 frame.slots[n].state == RESOLVED && n in plan.parameters && frame.slots[n].value == Some(plan.parameters[n])
  {
    var frame := persisted.activeFrame.value;
    var inputs := CurrentRecord(caller.sources.value.capabilities, plan.capabilityId).value.inputs;
    assert SlotsCurrent(conforms, plan.capabilityId, inputs, frame.slots);
    assert ParametersCurrent(conforms, plan, inputs, WithDefaults(plan.capabilityId, SlotValues(frame.slots), today));
  }

  /** A binding vouches for one plan only. */
  lemma BindingNamesOnePlan(hash: string -> string, binding: Binding, p: CallPlan, q: CallPlan, s: Option<ReadState>, t: Option<ReadState>)
    requires CollisionFree(hash) && binding.Validates(hash, p, s) && binding.Validates(hash, q, t)
    ensures p == q
  {
    PlanHashFaithful(hash, p, q);
  }

  /** A binding minted for a state with a pending interaction, as the batch path does, never passes. */
  lemma PendingBindingNeverPasses(hash: string -> string, turnId: string, principalId: string, plan: CallPlan,
                                  state: ReadState, executorBindingId: string, other: CallPlan, persisted: Option<ReadState>)
    requires CreateBinding(hash, turnId, principalId, plan, state, executorBindingId).Ok?
    ensures state.pending.Some? ==>
              !CreateBinding(hash, turnId, principalId, plan, state, executorBindingId).value.Validates(hash, other, persisted)
  {}

  // ---------------------------------------------------------------- mint and accept agree

  /** Every resolved value of a READY frame passed the semantic check in this very turn. */
  lemma ReadyValuesAreValid(valid: Validity, req: Request, i: nat)
    requires TurnOk(req) && PriorOk(req) && Reduce(valid, req).Ok? && i < |req.descriptor.inputs|
    requires Reduced(valid, req).nextState.activeFrame.value.status == READY
    ensures var frame := Reduced(valid, req).nextState.activeFrame.value;
            var input := req.descriptor.inputs[i];
            input.name in frame.slots ==>
              frame.slots[input.name].value.Some? && valid(input, frame.slots[input.name].value.value)
  {
    ReadyRejectsNothing(valid, req);
    TurnInvariant(valid, req);
    ResolvedValuesAreValid(valid, req, i);
  }

  lemma ReadyRejectsNothing(valid: Validity, req: Request)
    requires Reduced(valid, req).nextState.activeFrame.value.status == READY
    ensures Open(req).rejectedFields == []
  {
    var o, s := Open(req), LoopEnd(valid, req);
    ReadyUnfolds(req.descriptor, s.slots, o.stale || FailsRebind(valid, req, o, s), PendingForStatus(valid, req, o, s));
  }

  /** The registry still says what it said when the turn was decided. */
  ghost predicate RegistryBacks(req: Request, executorBindingId: string, principalId: string, caller: Caller) {
    && executorBindingId != ""
    && caller.principalId == Some(principalId) && caller.snapshotId == Some(req.snapshotId) && caller.sources.Some?
    && caller.sources.value.contractsValid && caller.sources.value.contractsSnapshot == caller.snapshotId
    && var record := CurrentRecord(caller.sources.value.capabilities, req.descriptor.capabilityId);
    && record.Some?
    && record.value.status == "active" && record.value.kind == "Function"
    && record.value.version == req.capabilityVersion
    && record.value.sideEffect == "none" && !record.value.requiresApproval
    && record.value.executorBindingId == executorBindingId
    && record.value.inputs == req.descriptor.inputs
    && req.descriptor.capabilityId in caller.sources.value.executionIds
    && var executor := CurrentRecord(caller.sources.value.bindings, executorBindingId);
    && executor.Some? && executor.value.bindingType == record.value.executorType && executor.value.sideEffect == "none"
  }

  /** The shape check accepts whatever the reducer accepts. */
  ghost predicate ShapeFollows(valid: Validity, conforms: Shape, d: CapabilityDescriptor) {
    forall i, v :: 0 <= i < |d.inputs| && valid(d.inputs[i], v) ==> conforms(d.capabilityId, d.inputs[i].name, v)
  }

  /** Every default that fills a gap is itself a declared input of the declared shape. */
  ghost predicate DefaultsDeclared(conforms: Shape, d: CapabilityDescriptor, slots: map<string, SlotBinding>, today: string) {
    forall n :: n in DefaultsFor(d.capabilityId, today) && n !in slots ==>
      n in InputNames(d.inputs) && conforms(d.capabilityId, n, DefaultsFor(d.capabilityId, today)[n])
  }

  /** The plan and the binding the orchestrator mints when a turn selects. */
  ghost function MintedPlan(valid: Validity, req: Request, traceId: string, today: string): CallPlan {
    CreateCallPlan(traceId, req.descriptor.capabilityId,
                   WithDefaults(req.descriptor.capabilityId,
                                SlotValues(Reduced(valid, req).nextState.activeFrame.value.slots), today), "Function")
  }

  ghost function Minted(hash: string -> string, valid: Validity, req: Request, traceId: string, today: string,
                        principalId: string, executorBindingId: string): Result<Binding>
  {
    CreateBinding(hash, req.turnId, principalId, MintedPlan(valid, req, traceId, today),
                  Reduced(valid, req).nextState, executorBindingId)
  }

  /** The slots of a READY frame meet the preflight's own reading of the registry. */
  lemma ReadySlotsCurrent(valid: Validity, conforms: Shape, req: Request)
    requires TurnOk(req) && PriorOk(req) && Reduce(valid, req).Ok? && ShapeFollows(valid, conforms, req.descriptor)
    requires Reduced(valid, req).nextState.activeFrame.value.status == READY
    ensures var slots := Reduced(valid, req).nextState.activeFrame.value.slots;
            && SlotsCurrent(conforms, req.descriptor.capabilityId, req.descriptor.inputs, slots)
            && SlotValues(slots).Keys == slots.Keys
  {
    var d := req.descriptor;
    var slots := Reduced(valid, req).nextState.activeFrame.value.slots;
    TurnInvariant(valid, req);
    forall n | n in slots
      ensures n in InputNames(d.inputs) && slots[n].value.Some? && conforms(d.capabilityId, n, slots[n].value.value)
    {
      var i :| 0 <= i < |d.inputs| && d.inputs[i].name == n && SlotFits(d.inputs[i], slots[n]);
      ReadyValuesAreValid(valid, req, i);
    }
  }

  /** The rebuilt parameters agree with the minted ones unless the day changed under a defaulted date. */
  lemma DefaultsAgree(capabilityId: string, values: Parameters, minted: string, now: string)
    ensures WithDefaults(capabilityId, values, minted) == WithDefaults(capabilityId, values, now) <==>
              minted == now || capabilityId !in OPEN_ITEMS_CAPABILITY_IDS || "keydate" in values
  {
    var a, b := WithDefaults(capabilityId, values, minted), WithDefaults(capabilityId, values, now);
    if capabilityId in OPEN_ITEMS_CAPABILITY_IDS && "keydate" !in values {
      assert a["keydate"] == minted && b["keydate"] == now;
    }
    if minted == now || capabilityId !in OPEN_ITEMS_CAPABILITY_IDS || "keydate" in values {
      assert a == b;
    }
  }

  /** The plan and binding minted for the turn on one day pass preflight on another. */
  ghost predicate MintedPasses(hash: string -> string, valid: Validity, conforms: Shape, req: Request,
                               traceId: string, mintedOn: string, checkedOn: string,
                               principalId: string, executorBindingId: string, caller: Caller)
  {
    var binding := Minted(hash, valid, req, traceId, mintedOn, principalId, executorBindingId);
    && binding.Ok?
    && Preflight(hash, conforms, checkedOn, MintedPlan(valid, req, traceId, mintedOn), binding.value,
                 Some(Reduced(valid, req).nextState), caller)
  }

  /** Mint and accept agree: the plan and binding minted for a turn the gate selects pass the preflight of
      the same principal under an unchanged registry exactly when every default that was filled in is a
      declared input of the declared shape, and no defaulted date has gone out of date. */
  lemma MintedPassesExactlyWhen(hash: string -> string, valid: Validity, conforms: Shape, req: Request,
                                traceId: string, mintedOn: string, checkedOn: string,
                                principalId: string, executorBindingId: string, caller: Caller)
    requires TurnOk(req) && PriorOk(req) && Reduce(valid, req).Ok?
    requires Reduced(valid, req).nextState.activeFrame.value.status == READY
    requires RegistryBacks(req, executorBindingId, principalId, caller) && ShapeFollows(valid, conforms, req.descriptor)
    requires Minted(hash, valid, req, traceId, mintedOn, principalId, executorBindingId).Ok?
    ensures var slots := Reduced(valid, req).nextState.activeFrame.value.slots;
            MintedPasses(hash, valid, conforms, req, traceId, mintedOn, checkedOn, principalId, executorBindingId, caller)
            <==>
            && DefaultsDeclared(conforms, req.descriptor, slots, mintedOn)
            && (mintedOn == checkedOn || req.descriptor.capabilityId !in OPEN_ITEMS_CAPABILITY_IDS || "keydate" in slots)
  {
    hide Reduced, ParametersCurrent, DefaultsDeclared, WithDefaults, SlotsCurrent, HashCallPlan, SlotValues, ShapeFollows, CurrentRecord;
    var d := req.descriptor;
    var state := Reduced(valid, req).nextState;
    var slots := state.activeFrame.value.slots;
    var plan := MintedPlan(valid, req, traceId, mintedOn);
    var binding := Minted(hash, valid, req, traceId, mintedOn, principalId, executorBindingId).value;
    TurnInvariant(valid, req);
    ReadySlotsCurrent(valid, conforms, req);
    DefaultsAgree(d.capabilityId, SlotValues(slots), mintedOn, checkedOn);
    assert binding.Validates(hash, plan, Some(state));
    assert GovernanceCurrent(binding, plan.capabilityId, caller.sources.value);
    ParametersCurrentExactlyWhen(conforms, plan, d, slots, mintedOn, checkedOn);
  }

  lemma ParametersCurrentExactlyWhen(conforms: Shape, plan: CallPlan, d: CapabilityDescriptor,
                                     slots: map<string, SlotBinding>, mintedOn: string, checkedOn: string)
    requires SlotsCurrent(conforms, d.capabilityId, d.inputs, slots) && SlotValues(slots).Keys == slots.Keys
    requires plan.capabilityId == d.capabilityId
    requires plan.parameters == WithDefaults(d.capabilityId, SlotValues(slots), mintedOn)
    ensures ParametersCurrent(conforms, plan, d.inputs, WithDefaults(d.capabilityId, SlotValues(slots), checkedOn))
            <==>
            && DefaultsDeclared(conforms, d, slots, mintedOn)
            && WithDefaults(d.capabilityId, SlotValues(slots), mintedOn) == WithDefaults(d.capabilityId, SlotValues(slots), checkedOn)
  {
    var defaults := DefaultsFor(d.capabilityId, mintedOn);
    forall n | n in plan.parameters
      ensures n in slots || n in defaults
      ensures n in slots ==> plan.parameters[n] == slots[n].value.value
      ensures n !in slots ==> plan.parameters[n] == defaults[n]
    {}
    forall n | n in defaults && n !in slots
      ensures n in plan.parameters && plan.parameters[n] == defaults[n]
    {}
  }
}
