/** The approval record of a WRITE action, its state chain, and the gateway calls it authorises. */
module Approval {
  import opened Basics
  import CanonicalJson
  import Execution

  type Parameters = map<string, string>

  /** `compute_parameter_hash`; `CanonicalJson` proves it faithful when SHA-256 does not collide. */
  type ParameterHash = Parameters -> string

  ghost predicate Faithful(hash: ParameterHash) { forall a, b :: hash(a) == hash(b) ==> a == b }

  datatype State = PENDING | APPROVED | EXECUTED | REJECTED

  datatype Transition = Transition(
    fromState: Option<State>,
    toState: State,
    event: string,
    timestamp: int,
    actor: string,
    evidenceRef: string)

  datatype Record = Record(
    approvalId: string,
    capabilityId: string,
    parameterSnapshotHash: string,
    parameters: Parameters,
    approver: string,
    approvedAt: int,
    expiresAt: int,
    status: State,
    registrySnapshotId: string,
    capabilityVersion: string,
    approvalSubjectHash: string,
    transitions: seq<Transition>)

  /** What an approval is about; nothing may change it. */
  datatype Subject = Subject(
    approvalId: string, capabilityId: string, parameters: Parameters, parameterSnapshotHash: string,
    approver: string, expiresAt: int, registrySnapshotId: string, capabilityVersion: string, approvalSubjectHash: string)

  function SubjectOf(r: Record): Subject {
    Subject(r.approvalId, r.capabilityId, r.parameters, r.parameterSnapshotHash, r.approver, r.expiresAt,
            r.registrySnapshotId, r.capabilityVersion, r.approvalSubjectHash)
  }

  // ---------------------------------------------------------------- transitions

  function Create(hash: ParameterHash, approvalId: string, capabilityId: string, parameters: Parameters, approver: string,
                  now: int, ttl: int, registrySnapshotId: string, capabilityVersion: string, subjectHash: string): Record
  {
    Record(approvalId, capabilityId, hash(parameters), parameters, approver, now, now + ttl, PENDING,
           registrySnapshotId, capabilityVersion, subjectHash,
           [Transition(None, PENDING, "approval-created", now, approver, "")])
  }

  function Migrate(r: Record, target: State, allowedFrom: set<State>, event: string, evidenceRef: string, now: int): Result<Record> {
    if r.status !in allowedFrom then Raise("InvalidApprovalTransition")
    else
      var migration := Transition(Some(r.status), target, event, now, r.approver, evidenceRef);
      var stamped := if target == APPROVED then r.(approvedAt := now) else r;
      Ok(stamped.(status := target, transitions := r.transitions + [migration]))
  }

  function Approve(r: Record, evidenceRef: string, now: int): Result<Record> {
    Migrate(r, APPROVED, {PENDING}, "approved", evidenceRef, now)
  }

  function MarkExecuted(r: Record, evidenceRef: string, now: int): Result<Record> {
    Migrate(r, EXECUTED, {APPROVED}, "executed", evidenceRef, now)
  }

  function Reject(r: Record, evidenceRef: string, now: int): Result<Record> {
    Migrate(r, REJECTED, {PENDING, APPROVED}, "rejected", evidenceRef, now)
  }

  datatype Operation = APPROVE | MARK_EXECUTED | REJECT

  function Apply(r: Record, op: Operation, evidenceRef: string, now: int): Result<Record> {
    match op
    case APPROVE => Approve(r, evidenceRef, now)
    case MARK_EXECUTED => MarkExecuted(r, evidenceRef, now)
    case REJECT => Reject(r, evidenceRef, now)
  }

  /** Operations tried one after the other; one that raises leaves the caller with the record it had. */
  function Run(r: Record, ops: seq<(Operation, string, int)>): Record
    decreases |ops|
  {
    if ops == [] then r
    else Run(Apply(r, ops[0].0, ops[0].1, ops[0].2).GetOr(r), ops[1..])
  }

  // ---------------------------------------------------------------- histories

  /** The states a record went through, oldest first. */
  function Path(transitions: seq<Transition>): seq<State> {
    seq(|transitions|, i requires 0 <= i < |transitions| => transitions[i].toState)
  }

  function EventFor(state: State): string {
    match state
    case PENDING => "approval-created"
    case APPROVED => "approved"
    case EXECUTED => "executed"
    case REJECTED => "rejected"
  }

  predicate Lifecycle(path: seq<State>) {
    || path == [PENDING]
    || path == [PENDING, APPROVED]
    || path == [PENDING, REJECTED]
    || path == [PENDING, APPROVED, EXECUTED]
    || path == [PENDING, APPROVED, REJECTED]
  }

  /** The chain is linked from creation to the current status and tells the whole story of the record. */
  ghost predicate History(hash: ParameterHash, r: Record) {
    && Lifecycle(Path(r.transitions))
    && r.transitions[|r.transitions| - 1].toState == r.status
    && r.transitions[0].fromState == None
    && (forall i :: 1 <= i < |r.transitions| ==> r.transitions[i].fromState == Some(r.transitions[i - 1].toState))
    && (forall i :: 0 <= i < |r.transitions| ==>
          r.transitions[i].event == EventFor(r.transitions[i].toState) && r.transitions[i].actor == r.approver)
    && (if |r.transitions| >= 2 && r.transitions[1].toState == APPROVED then r.approvedAt == r.transitions[1].timestamp
        else r.approvedAt == r.transitions[0].timestamp)
    && r.parameterSnapshotHash == hash(r.parameters)
  }

  lemma CreatedHistory(hash: ParameterHash, approvalId: string, capabilityId: string, parameters: Parameters, approver: string,
                       now: int, ttl: int, registrySnapshotId: string, capabilityVersion: string, subjectHash: string)
    ensures History(hash, Create(hash, approvalId, capabilityId, parameters, approver, now, ttl,
                                 registrySnapshotId, capabilityVersion, subjectHash))
    ensures var r := Create(hash, approvalId, capabilityId, parameters, approver, now, ttl, registrySnapshotId, capabilityVersion, subjectHash);
            r.status == PENDING && r.parameters == parameters && r.approvedAt == now && r.expiresAt == now + ttl
  {}

  lemma PathSnoc(transitions: seq<Transition>, last: Transition)
    ensures Path(transitions + [last]) == Path(transitions) + [last.toState]
  {}

  lemma ApplyKeepsHistory(hash: ParameterHash, r: Record, op: Operation, evidenceRef: string, now: int)
    requires History(hash, r)
    ensures var next := Apply(r, op, evidenceRef, now).GetOr(r);
            && History(hash, next) && SubjectOf(next) == SubjectOf(r) && r.transitions <= next.transitions
  {
    var next := Apply(r, op, evidenceRef, now).GetOr(r);
    var path := Path(r.transitions);
    assert path[|path| - 1] == r.status;
    if next != r {
      PathSnoc(r.transitions, next.transitions[|r.transitions|]);
    }
  }

  /** Whatever is tried on a record after its creation, in whatever order: the chain stays one of the five
      lifecycles, linked and ending in the status, entries are only ever added, the subject of the approval
      never changes, and the recorded hash stays the hash of the recorded parameters. */
  lemma {:induction false} ReachableHistory(hash: ParameterHash, r: Record, ops: seq<(Operation, string, int)>)
    requires History(hash, r)
    ensures History(hash, Run(r, ops)) && SubjectOf(Run(r, ops)) == SubjectOf(r) && r.transitions <= Run(r, ops).transitions
    decreases |ops|
  {
    if ops != [] {
      ApplyKeepsHistory(hash, r, ops[0].0, ops[0].1, ops[0].2);
      ReachableHistory(hash, Apply(r, ops[0].0, ops[0].1, ops[0].2).GetOr(r), ops[1..]);
    }
  }

  /** A record is executed exactly when its chain reads pending, approved, executed; then, as after a
      rejection, nothing can be done with it any more. */
  lemma ExecutedAfterApproved(hash: ParameterHash, r: Record, op: Operation, evidenceRef: string, now: int)
    requires History(hash, r)
    ensures r.status == EXECUTED <==> Path(r.transitions) == [PENDING, APPROVED, EXECUTED]
    ensures r.status == EXECUTED || r.status == REJECTED ==> Apply(r, op, evidenceRef, now).Raise?
    ensures r.status == PENDING <==> |r.transitions| == 1
  {
    var path := Path(r.transitions);
    assert path[|path| - 1] == r.status;
  }

  /** Each of the five lifecycles is really reached. */
  lemma EveryLifecycleOccurs(r: Record, path: seq<State>, evidenceRef: string, now: int) returns (ops: seq<(Operation, string, int)>)
    requires Lifecycle(path) && Path(r.transitions) == [PENDING] && r.status == PENDING
    ensures Path(Run(r, ops).transitions) == path
  {
    var approve, execute, reject := (APPROVE, evidenceRef, now), (MARK_EXECUTED, evidenceRef, now), (REJECT, evidenceRef, now);
    ops := if |path| == 1 then [] else if path[1] == REJECTED then [reject] else if |path| == 2 then [approve]
           else if path[2] == EXECUTED then [approve, execute] else [approve, reject];
    if |ops| == 2 {
      assert ops[1..] == [ops[1]] && [ops[1]][1..] == [];
      var one := Apply(r, APPROVE, evidenceRef, now).value;
      var two := Apply(one, ops[1].0, evidenceRef, now).value;
      assert Run(two, []) == two;
      assert Run(one, [ops[1]]) == two;
      assert Run(r, ops) == two;
    } else if |ops| == 1 {
      assert ops[1..] == [];
      assert Run(Apply(r, ops[0].0, evidenceRef, now).value, []) == Apply(r, ops[0].0, evidenceRef, now).value;
    }
  }

  // ---------------------------------------------------------------- the gateway

  datatype ValidationResult = ValidationResult(traceId: string, capabilityId: string, success: bool)

  datatype ExecutionResult = ExecutionResult(traceId: string, success: bool, errorType: string)

  datatype Call =
    | ApproveCall(capabilityId: string, approved: Record, reply: string)
    | ExecuteCall(capabilityId: string, parameters: Parameters, approvalId: string, parameterSnapshotHash: string,
                  result: ExecutionResult)

  /** The gateway answers as it likes; the log records what it was asked and what it answered. */
  class Gateway {
    ghost var log: seq<Call>

    method Approve(capabilityId: string, approved: Record) returns (reply: string)
      modifies this
      ensures log == old(log) + [ApproveCall(capabilityId, approved, reply)]
    {
      reply := *;
      log := log + [ApproveCall(capabilityId, approved, reply)];
    }

    method Execute(capabilityId: string, parameters: Parameters, approvalId: string, parameterSnapshotHash: string)
      returns (result: ExecutionResult)
      modifies this
      ensures log == old(log) + [ExecuteCall(capabilityId, parameters, approvalId, parameterSnapshotHash, result)]
    {
      result := *;
      log := log + [ExecuteCall(capabilityId, parameters, approvalId, parameterSnapshotHash, result)];
    }
  }

  // ---------------------------------------------------------------- continuing an action

  /** `Completed` is the outcome that is narrated; narration is not modelled. */
  datatype Outcome =
    | Failure(errorType: string, record: Record)
    | Rejected(record: Record)
    | ExecuteFailed(errorType: string, record: Record)
    | Completed(record: Record)

  datatype Request = Request(plan: Execution.CallPlan, validation: ValidationResult, record: Record, decision: string,
                             approveTime: int, executeTime: int)

  /** The approval is for this very action: same capability, same parameters, and their hash. */
  predicate Matches(hash: ParameterHash, q: Request) {
    && q.plan.kind == "Action" && q.record.status == PENDING && q.validation.success
    && q.validation.capabilityId == q.plan.capabilityId && q.plan.capabilityId == q.record.capabilityId
    && q.plan.parameters == q.record.parameters && q.record.parameterSnapshotHash == hash(q.record.parameters)
  }

  predicate Authorised(hash: ParameterHash, q: Request) { Matches(hash, q) && q.decision == "approve" }

  /** The calls of one continued action, in order, and what it reports. */
  ghost predicate Conducted(hash: ParameterHash, q: Request, calls: seq<Call>, outcome: Outcome) {
    if !Authorised(hash, q) then
      && calls == []
      && (if Matches(hash, q) && q.decision == "reject"
          then Reject(q.record, "", q.approveTime).Ok? && outcome == Rejected(Reject(q.record, "", q.approveTime).value)
          else outcome.Failure? && outcome.record == q.record)
    else
      var approval := Approve(q.record, "gateway-validate:" + q.validation.traceId, q.approveTime);
      && approval.Ok?
      && 1 <= |calls| <= 2
      && calls[0].ApproveCall?
      && calls[0] == ApproveCall(q.plan.capabilityId, approval.value, calls[0].reply)
      && (|calls| == 2 <==> calls[0].reply == q.record.approvalId)
      && (|calls| == 1 ==> outcome == Failure("APPROVAL_REGISTRATION_FAILED", approval.value))
      && (|calls| == 2 ==>
            && calls[1].ExecuteCall?
            && calls[1] == ExecuteCall(q.plan.capabilityId, q.plan.parameters, q.record.approvalId,
                                       q.record.parameterSnapshotHash, calls[1].result)
            && (if calls[1].result.success
                then
                  var done := MarkExecuted(approval.value, "gateway-execute:" + calls[1].result.traceId, q.executeTime);
                  done.Ok? && outcome == Completed(done.value)
                else outcome == ExecuteFailed(calls[1].result.errorType, approval.value)))
  }

  method ContinueAction(hash: ParameterHash, q: Request, gateway: Gateway) returns (outcome: Outcome)
    modifies gateway
    ensures old(gateway.log) <= gateway.log
    ensures Conducted(hash, q, gateway.log[|old(gateway.log)|..], outcome)
    ensures outcome.Failure? ==>
              outcome.errorType ==
              if q.plan.kind != "Action" || q.record.status != PENDING || !q.validation.success then "APPROVAL_REQUIRED"
              else if q.validation.capabilityId != q.plan.capabilityId || q.plan.capabilityId != q.record.capabilityId
                      || q.plan.parameters != q.record.parameters || q.record.parameterSnapshotHash != hash(q.record.parameters)
              then "APPROVAL_VERSION_MISMATCH"
              else if q.decision != "approve" then "INVALID_APPROVAL_DECISION"
              else "APPROVAL_REGISTRATION_FAILED"
  {
    var plan, validation, record := q.plan, q.validation, q.record;
    if plan.kind != "Action" || record.status != PENDING { return Failure("APPROVAL_REQUIRED", record); }
    if !validation.success { return Failure("APPROVAL_REQUIRED", record); }
    if validation.capabilityId != plan.capabilityId { return Failure("APPROVAL_VERSION_MISMATCH", record); }
    if plan.capabilityId != record.capabilityId { return Failure("APPROVAL_VERSION_MISMATCH", record); }
    if || plan.parameters != record.parameters
       || hash(plan.parameters) != record.parameterSnapshotHash
       || hash(record.parameters) != record.parameterSnapshotHash
    {
      return Failure("APPROVAL_VERSION_MISMATCH", record);
    }
    if q.decision == "reject" {
      return Rejected(Reject(record, "", q.approveTime).value);
    }
    if q.decision != "approve" { return Failure("INVALID_APPROVAL_DECISION", record); }
    var approved := Approve(record, "gateway-validate:" + validation.traceId, q.approveTime).value;
    var registered := gateway.Approve(plan.capabilityId, approved);
    if registered != approved.approvalId { return Failure("APPROVAL_REGISTRATION_FAILED", approved); }
    var execution := gateway.Execute(plan.capabilityId, plan.parameters, approved.approvalId, approved.parameterSnapshotHash);
    if !execution.success { return ExecuteFailed(execution.errorType, approved); }
    outcome := Completed(MarkExecuted(approved, "gateway-execute:" + execution.traceId, q.executeTime).value);
  }

  // ---------------------------------------------------------------- what the log shows

  /** The gateway is asked to execute only right after it registered the approval of exactly that action. */
  ghost predicate ExecutionsApproved(hash: ParameterHash, log: seq<Call>) {
    forall i :: 0 <= i < |log| && log[i].ExecuteCall? ==>
      && i > 0 && log[i - 1].ApproveCall?
      && var approved := log[i - 1].approved;
      && approved.status == APPROVED && log[i - 1].reply == approved.approvalId
      && log[i].approvalId == approved.approvalId
      && log[i].capabilityId == approved.capabilityId == log[i - 1].capabilityId
      && log[i].parameters == approved.parameters
      && log[i].parameterSnapshotHash == approved.parameterSnapshotHash == hash(log[i].parameters)
  }

  lemma ConductedExecutionsApproved(hash: ParameterHash, log: seq<Call>, q: Request, calls: seq<Call>, outcome: Outcome)
    requires ExecutionsApproved(hash, log) && Conducted(hash, q, calls, outcome)
    ensures ExecutionsApproved(hash, log + calls)
  {
    var all := log + calls;
    forall i | 0 <= i < |all| && all[i].ExecuteCall?
      ensures i > 0 && all[i - 1].ApproveCall?
      ensures all[i - 1].approved.status == APPROVED && all[i - 1].reply == all[i - 1].approved.approvalId
      ensures all[i].approvalId == all[i - 1].approved.approvalId
      ensures all[i].capabilityId == all[i - 1].approved.capabilityId == all[i - 1].capabilityId
      ensures all[i].parameters == all[i - 1].approved.parameters
      ensures all[i].parameterSnapshotHash == all[i - 1].approved.parameterSnapshotHash == hash(all[i].parameters)
    {
      if i < |log| {
        assert log[i].ExecuteCall?;
      } else {
        assert all[i] == calls[i - |log|];
      }
    }
  }

  /** One continued action: the record it takes, the calls it makes, and the record it leaves. */
  datatype Turn = Turn(request: Request, calls: seq<Call>, outcome: Outcome)

  ghost predicate Turns(hash: ParameterHash, turns: seq<Turn>) {
    forall i :: 0 <= i < |turns| ==> Conducted(hash, turns[i].request, turns[i].calls, turns[i].outcome)
  }

  function LogOf(turns: seq<Turn>): seq<Call> {
    if turns == [] then [] else LogOf(turns[..|turns| - 1]) + turns[|turns| - 1].calls
  }

  /** Over any number of actions, for any records and decisions: no execution without its approval. */
  lemma {:induction false} NoExecutionWithoutApproval(hash: ParameterHash, turns: seq<Turn>)
    requires Turns(hash, turns)
    ensures ExecutionsApproved(hash, LogOf(turns))
  {
    if turns != [] {
      var k := |turns| - 1;
      NoExecutionWithoutApproval(hash, turns[..k]);
      ConductedExecutionsApproved(hash, LogOf(turns[..k]), turns[k].request, turns[k].calls, turns[k].outcome);
    }
  }

  /** The record left is the record taken, moved on by at most two regular transitions. */
  lemma ConductedKeepsHistory(hash: ParameterHash, q: Request, calls: seq<Call>, outcome: Outcome)
    requires Conducted(hash, q, calls, outcome) && History(hash, q.record)
    ensures History(hash, outcome.record) && SubjectOf(outcome.record) == SubjectOf(q.record)
    ensures q.record.transitions <= outcome.record.transitions
  {
    if Authorised(hash, q) {
      var evidence := "gateway-validate:" + q.validation.traceId;
      ApplyKeepsHistory(hash, q.record, APPROVE, evidence, q.approveTime);
      var approved := Approve(q.record, evidence, q.approveTime).value;
      assert Apply(q.record, APPROVE, evidence, q.approveTime) == Ok(approved);
      if |calls| == 2 {
        ApplyKeepsHistory(hash, approved, MARK_EXECUTED, "gateway-execute:" + calls[1].result.traceId, q.executeTime);
      }
    } else {
      ApplyKeepsHistory(hash, q.record, REJECT, "", q.approveTime);
    }
  }

  /** The record once it was approved, told field by field. */
  function ApprovedRecord(q: Request): Record {
    q.record.(status := APPROVED, approvedAt := q.approveTime,
              transitions := q.record.transitions + [Transition(Some(PENDING), APPROVED, "approved", q.approveTime, q.record.approver,
                                                                "gateway-validate:" + q.validation.traceId)])
  }

  /** Every outcome exactly when it is reported, with the calls made for it and the record it leaves, told from
      plan, validation, record and decision. Nothing is called unless everything fits and the decision is to
      approve; a fitting rejection, and nothing else, leaves the record rejected. */
  lemma OutcomesExactly(hash: ParameterHash, q: Request, calls: seq<Call>, outcome: Outcome)
    requires Conducted(hash, q, calls, outcome)
    ensures var plan, validation, record := q.plan, q.validation, q.record;
            var fits := && plan.kind == "Action" && record.status == PENDING && validation.success
                        && validation.capabilityId == plan.capabilityId && plan.capabilityId == record.capabilityId
                        && plan.parameters == record.parameters && record.parameterSnapshotHash == hash(record.parameters);
            if fits && q.decision == "reject" then
              && calls == []
              && outcome == Rejected(record.(status := REJECTED, transitions := record.transitions +
                                             [Transition(Some(PENDING), REJECTED, "rejected", q.approveTime, record.approver, "")]))
            else if !fits || q.decision != "approve" then calls == [] && outcome.Failure? && outcome.record == record
            else
              && 1 <= |calls| <= 2
              && calls[0].ApproveCall? && calls[0].capabilityId == plan.capabilityId && calls[0].approved == ApprovedRecord(q)
              && if calls[0].reply != record.approvalId then
                   |calls| == 1 && outcome == Failure("APPROVAL_REGISTRATION_FAILED", ApprovedRecord(q))
                 else
                   && |calls| == 2
                   && calls[1].ExecuteCall? && calls[1].capabilityId == plan.capabilityId && calls[1].parameters == plan.parameters
                   && calls[1].approvalId == record.approvalId && calls[1].parameterSnapshotHash == record.parameterSnapshotHash
                   && outcome ==
                      if calls[1].result.success then
                        Completed(ApprovedRecord(q).(status := EXECUTED, transitions := ApprovedRecord(q).transitions +
                          [Transition(Some(APPROVED), EXECUTED, "executed", q.executeTime, record.approver,
                                      "gateway-execute:" + calls[1].result.traceId)]))
                      else ExecuteFailed(calls[1].result.errorType, ApprovedRecord(q))
  {
    if Matches(hash, q) && q.decision == "approve" && |calls| == 2 { assert calls[1].ExecuteCall?; }
  }

  /** The record ends executed exactly when the gateway was asked to execute and reported success; a
      rejection, an unknown decision and every mismatch make no call at all. */
  lemma ExecutedExactlyWhen(hash: ParameterHash, q: Request, calls: seq<Call>, outcome: Outcome)
    requires Conducted(hash, q, calls, outcome)
    ensures outcome.Completed? <==> (exists call :: call in calls && call.ExecuteCall? && call.result.success)
    ensures outcome.Completed? ==> outcome.record.status == EXECUTED
    ensures calls != [] <==> Authorised(hash, q)
    ensures q.decision == "reject" ==> calls == []
  {
    if outcome.Completed? { assert calls[1] in calls; }
  }

  // ---------------------------------------------------------------- one record, many attempts

  /** The caller hands every action the record the previous one left. */
  ghost predicate Threaded(turns: seq<Turn>) {
    forall i :: 0 < i < |turns| ==> turns[i].request.record == turns[i - 1].outcome.record
  }

  lemma {:induction false} SettledStays(hash: ParameterHash, turns: seq<Turn>, i: nat, j: nat)
    requires Turns(hash, turns) && Threaded(turns) && i <= j < |turns|
    requires turns[i].request.record.status != PENDING
    ensures turns[j].request.record.status != PENDING
  {
    if i < j {
      SettledStays(hash, turns, i, j - 1);
      assert Conducted(hash, turns[j - 1].request, turns[j - 1].calls, turns[j - 1].outcome);
    }
  }

  /** A caller that keeps the record it is given back calls the gateway in one attempt at most, so the
      action is executed at most once, however often it is continued. */
  lemma CalledOnce(hash: ParameterHash, turns: seq<Turn>, i: nat, j: nat)
    requires Turns(hash, turns) && Threaded(turns) && i < j < |turns|
    requires turns[i].calls != []
    ensures turns[j].calls == []
  {
    assert Conducted(hash, turns[i].request, turns[i].calls, turns[i].outcome);
    assert turns[i + 1].request.record.status != PENDING;
    SettledStays(hash, turns, i + 1, j);
    assert Conducted(hash, turns[j].request, turns[j].calls, turns[j].outcome);
  }

  /** A refused action stays refused: in the hands of a caller that threads the record no later attempt calls the
      gateway, and the record stays as the refusal left it. */
  lemma {:induction false} RefusalIsFinal(hash: ParameterHash, turns: seq<Turn>, i: nat, j: nat)
    requires Turns(hash, turns) && Threaded(turns) && i <= j < |turns| && turns[i].outcome.Rejected?
    ensures turns[j].outcome.record == turns[i].outcome.record && turns[j].outcome.record.status == REJECTED
    ensures i < j ==> turns[j].calls == [] && turns[j].outcome.Failure?
  {
    assert Conducted(hash, turns[j].request, turns[j].calls, turns[j].outcome);
    OutcomesExactly(hash, turns[j].request, turns[j].calls, turns[j].outcome);
    hide Conducted;
    if i < j { RefusalIsFinal(hash, turns, i, j - 1); }
  }

  function Executions(log: seq<Call>): nat {
    if log == [] then 0 else Executions(log[..|log| - 1]) + if log[|log| - 1].ExecuteCall? then 1 else 0
  }

  predicate Succeeded(call: Call) { call.ExecuteCall? && call.result.success }

  lemma NoCallNoExecution(log: seq<Call>)
    requires |log| <= 2 && (|log| > 0 ==> log[0].ApproveCall?)
    ensures Executions(log) <= 1
  {
    if log != [] {
      assert log[..|log| - 1][..0] == [];
      assert |log| == 2 ==> log[..1][0].ApproveCall?;
    }
  }

  /** The record `last` that `first` has become, and the calls made for it: at most one execution, of the
      record's own parameters and hash, none while it is pending, and executed exactly after success. */
  ghost predicate ExecutedAtMostOnce(hash: ParameterHash, first: Record, last: Record, log: seq<Call>) {
    && SubjectOf(last) == SubjectOf(first)
    && (last.status == PENDING ==> log == [])
    && Executions(log) <= 1
    && (forall call :: call in log && call.ExecuteCall? ==>
          && call.capabilityId == first.capabilityId && call.parameters == first.parameters
          && call.approvalId == first.approvalId && call.parameterSnapshotHash == hash(first.parameters))
    && (last.status == EXECUTED <==> exists call :: call in log && Succeeded(call))
  }

  /** The whole life of one pending record in the hands of a caller that threads it: the gateway is asked to
      execute at most once, with the record's own parameters and hash, and the record ends executed
      exactly when that call succeeded. */
  lemma {:induction false} ExecutedOnceAndRecorded(hash: ParameterHash, turns: seq<Turn>)
    requires Turns(hash, turns) && Threaded(turns) && turns != []
    requires History(hash, turns[0].request.record) && turns[0].request.record.status == PENDING
    ensures History(hash, turns[|turns| - 1].outcome.record)
    ensures ExecutedAtMostOnce(hash, turns[0].request.record, turns[|turns| - 1].outcome.record, LogOf(turns))
  {
    hide History, Conducted, ExecutedAtMostOnce;
    var k := |turns| - 1;
    var before, t := turns[..k], turns[k];
    assert LogOf(turns) == LogOf(before) + t.calls;
    assert Conducted(hash, t.request, t.calls, t.outcome);
    if k == 0 {
      FirstTurn(hash, t, t.request.record);
      assert LogOf(turns) == t.calls;
    } else {
      ExecutedOnceAndRecorded(hash, before);
      NextTurn(hash, turns[0].request.record, LogOf(before), t);
    }
    ConductedKeepsHistory(hash, t.request, t.calls, t.outcome);
  }

  lemma FirstTurn(hash: ParameterHash, t: Turn, first: Record)
    requires Conducted(hash, t.request, t.calls, t.outcome) && History(hash, t.request.record)
    requires t.request.record.status == PENDING && SubjectOf(t.request.record) == SubjectOf(first)
    ensures ExecutedAtMostOnce(hash, first, t.outcome.record, t.calls)
  {
    OneTurnFromPending(hash, t);
    NoCallNoExecution(t.calls);
    ConductedKeepsHistory(hash, t.request, t.calls, t.outcome);
    hide History, Conducted, Executions;
  }

  lemma NextTurn(hash: ParameterHash, first: Record, log: seq<Call>, t: Turn)
    requires Conducted(hash, t.request, t.calls, t.outcome) && History(hash, t.request.record)
    requires ExecutedAtMostOnce(hash, first, t.request.record, log)
    ensures ExecutedAtMostOnce(hash, first, t.outcome.record, log + t.calls)
  {
    hide History, Conducted, Executions;
    if t.request.record.status == PENDING {
      FirstTurn(hash, t, first);
      assert log + t.calls == t.calls;
    } else {
      NothingForSettled(hash, t);
      assert log + t.calls == log;
    }
  }

  lemma NothingForSettled(hash: ParameterHash, t: Turn)
    requires Conducted(hash, t.request, t.calls, t.outcome) && t.request.record.status != PENDING
    ensures t.calls == [] && t.outcome.record == t.request.record
  {}

  lemma OneTurnFromPending(hash: ParameterHash, t: Turn)
    requires Conducted(hash, t.request, t.calls, t.outcome) && t.request.record.status == PENDING
    ensures |t.calls| <= 2 && (t.calls != [] ==> t.calls[0].ApproveCall?)
    ensures t.outcome.record.status == PENDING ==> t.calls == []
    ensures t.outcome.record.status == EXECUTED <==> exists call :: call in t.calls && Succeeded(call)
    ensures forall call :: call in t.calls && call.ExecuteCall? ==>
              var r := t.request.record;
              && call.capabilityId == r.capabilityId && call.parameters == r.parameters
              && call.approvalId == r.approvalId && call.parameterSnapshotHash == hash(r.parameters)
  {
    ExecutedExactlyWhen(hash, t.request, t.calls, t.outcome);
    if exists call :: call in t.calls && Succeeded(call) { assert t.outcome.Completed?; }
    if |t.calls| == 2 && t.calls[1].result.success { assert Succeeded(t.calls[1]) && t.calls[1] in t.calls; }
  }

  /** Without that discipline the guarantee is gone: the same pending record continued twice executes twice. */
  lemma ReplayExecutesTwice(hash: ParameterHash, q: Request, calls: seq<Call>, outcome: Outcome)
    requires Conducted(hash, q, calls, outcome) && |calls| == 2
    ensures Turns(hash, [Turn(q, calls, outcome), Turn(q, calls, outcome)])
    ensures LogOf([Turn(q, calls, outcome), Turn(q, calls, outcome)]) == calls + calls
    ensures calls[1].ExecuteCall?
  {
    var t := Turn(q, calls, outcome);
    assert [t, t][..1] == [t] && [t][..0] == [];
    assert LogOf([t]) == [] + calls;
  }

  /** `hash` is the hash of the canonical JSON text of the parameters. */
  ghost predicate Canonical(sha: string -> string, hash: ParameterHash) {
    forall m :: hash(m) == CanonicalJson.ParameterHash(sha, m)
  }

  lemma CanonicalHashIsFaithful(sha: string -> string, hash: ParameterHash)
    requires CanonicalJson.CollisionFree(sha) && Canonical(sha, hash)
    ensures Faithful(hash)
  {
    forall a, b | hash(a) == hash(b) ensures a == b {
      CanonicalJson.ParameterHashFaithful(sha, CanonicalJson.MapJson(a), a, CanonicalJson.MapJson(b), b);
    }
  }

  /** The hash sent along with an execution pins its parameters: no others have it. */
  lemma HashPinsParameters(sha: string -> string, hash: ParameterHash, log: seq<Call>, i: nat, other: Parameters)
    requires CanonicalJson.CollisionFree(sha) && Canonical(sha, hash)
    requires ExecutionsApproved(hash, log) && i < |log| && log[i].ExecuteCall?
    ensures hash(other) == log[i].parameterSnapshotHash <==> other == log[i].parameters
  {
    CanonicalHashIsFaithful(sha, hash);
    assert log[i - 1].ApproveCall?;
    assert log[i].parameterSnapshotHash == hash(log[i].parameters);
  }
}
