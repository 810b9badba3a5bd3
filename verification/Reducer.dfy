/** One turn of the governed READ reducer: a function that says what the turn yields, and the loop over
    the capability's inputs proved to compute it. */
module Reducer {
  import opened Basics
  import opened ReadContext
  import opened Candidates

  datatype Operation =
    | CONTINUE_FRAME | REPLACE_SLOT | CLEAR_SLOT | SWITCH_CAPABILITY
    | CONFIRM_PENDING | REJECT_PENDING | NEW_MULTI_GOAL

  datatype Evidence = Evidence(slot: Option<string>, value: Option<string>, source: string, reason: string)

  datatype Request = Request(
    prior: ReadState,
    candidates: CandidateSet,
    descriptor: CapabilityDescriptor,
    snapshotId: string,
    capabilityVersion: string,
    turnId: string,
    serverTime: Timestamp)

  datatype Resolution = Resolution(
    nextState: ReadState,
    operation: Operation,
    changedSlots: seq<string>,
    issues: seq<string>,
    evidence: seq<Evidence>)

  // ---------------------------------------------------------------- candidate values of one input

  /** The candidates of one slot that pass the semantic check. */
  function ValidOnly(valid: Validity, input: InputDescriptor, cands: seq<Candidate>): seq<Candidate> {
    if cands == [] then []
    else
      var init, last := cands[..|cands| - 1], cands[|cands| - 1];
      ValidOnly(valid, input, init) + (if valid(input, last.value) then [last] else [])
  }

  function InvalidIssue(name: string, value: string): string {
    "invalid_semantic_value:" + name + ":" + value
  }

  function InvalidIssues(valid: Validity, input: InputDescriptor, cands: seq<Candidate>): seq<string> {
    if cands == [] then []
    else
      var init, last := cands[..|cands| - 1], cands[|cands| - 1];
      InvalidIssues(valid, input, init)
      + (if valid(input, last.value) then [] else [InvalidIssue(input.name, last.value)])
  }

  function InvalidEvidence(valid: Validity, input: InputDescriptor, cands: seq<Candidate>): seq<Evidence> {
    if cands == [] then []
    else
      var init, last := cands[..|cands| - 1], cands[|cands| - 1];
      InvalidEvidence(valid, input, init)
      + (if valid(input, last.value) then []
         else [Evidence(Some(input.name), Some(last.value), last.source.Name(), "invalid_semantic_value")])
  }

  /** The distinct values offered by one source, in order of first appearance. */
  function ValuesFrom(cands: seq<Candidate>, source: Source): seq<string> {
    if cands == [] then []
    else
      var init, last := cands[..|cands| - 1], cands[|cands| - 1];
      if last.source == source then AppendUnique(ValuesFrom(init, source), last.value)
      else ValuesFrom(init, source)
  }

  /** Where the first non-model candidate with this value stood in the utterance. */
  function SourceSpan(cands: seq<Candidate>, value: string): Option<Span> {
    if cands == [] then None
    else if cands[0].source != MODEL && cands[0].value == value then cands[0].span
    else SourceSpan(cands[1..], value)
  }

  method ValidatedCandidates(valid: Validity, input: InputDescriptor, cands: seq<Candidate>,
                             issues: seq<string>, evidence: seq<Evidence>)
    returns (good: seq<Candidate>, issues': seq<string>, evidence': seq<Evidence>)
    ensures good == ValidOnly(valid, input, cands)
    ensures issues' == AppendAllUnique(issues, InvalidIssues(valid, input, cands))
    ensures evidence' == evidence + InvalidEvidence(valid, input, cands)
  {
    good, issues', evidence' := [], issues, evidence;
    for i := 0 to |cands|
      invariant good == ValidOnly(valid, input, cands[..i])
      invariant issues' == AppendAllUnique(issues, InvalidIssues(valid, input, cands[..i]))
      invariant evidence' == evidence + InvalidEvidence(valid, input, cands[..i])
    {
      assert cands[..i + 1][..i] == cands[..i];
      assert InvalidIssues(valid, input, cands[..i]) + [] == InvalidIssues(valid, input, cands[..i]);
      if valid(input, cands[i].value) {
        good := good + [cands[i]];
      } else {
        AppendAllUniqueSnoc(issues, InvalidIssues(valid, input, cands[..i]), InvalidIssue(input.name, cands[i].value));
        issues' := AppendUnique(issues', InvalidIssue(input.name, cands[i].value));
        evidence' := evidence' + [Evidence(Some(input.name), Some(cands[i].value), cands[i].source.Name(),
                                           "invalid_semantic_value")];
      }
    }
    assert cands[..|cands|] == cands;
  }

  method UniqueValues(cands: seq<Candidate>, source: Source) returns (values: seq<string>)
    ensures values == ValuesFrom(cands, source)
  {
    values := [];
    for i := 0 to |cands|
      invariant values == ValuesFrom(cands[..i], source)
    {
      assert cands[..i + 1][..i] == cands[..i];
      if cands[i].source == source {
        values := AppendUnique(values, cands[i].value);
      }
    }
    assert cands[..|cands|] == cands;
  }

  // ---------------------------------------------------------------- what one input does to its slot

  /** How the turn treats one input: its pending answer was rejected, it is expected by a live pending
      interaction, the user asked to clear it. */
  datatype SlotMode = SlotMode(rejected: bool, expected: bool, cleared: bool)

  datatype SlotOutcome = SlotOutcome(
    slot: Option<SlotBinding>,
    changed: bool,
    confirmedPending: bool,
    deterministicChanged: bool)

  /** The values a turn puts forward for a slot, by source. */
  datatype Offer = Offer(
    corrections: seq<string>,
    confirmations: seq<string>,
    deterministic: seq<string>,
    expected: bool)
  {
    function Explicit(): seq<string> { corrections + Without(confirmations, corrections) }

    static function Without(values: seq<string>, excluded: seq<string>): seq<string> {
      if values == [] then []
      else (if values[0] in excluded then [] else [values[0]]) + Without(values[1..], excluded)
    }

    /** `explicit_values or pending_values or deterministic` */
    function Selected(): seq<string> {
      var pendingValues := if expected then deterministic else [];
      if Explicit() != [] then Explicit()
      else if pendingValues != [] then pendingValues
      else deterministic
    }

    function SelectedSource(): Source {
      if corrections != [] then EXPLICIT_CORRECTION
      else if confirmations != [] then CONFIRMATION
      else DETERMINISTIC_LABEL
    }
  }

  function OfferOf(good: seq<Candidate>, expected: bool): Offer {
    Offer(ValuesFrom(good, EXPLICIT_CORRECTION), ValuesFrom(good, CONFIRMATION),
          ValuesFrom(good, DETERMINISTIC_LABEL), expected)
  }

  function ClearedSlot(name: string, turnId: string): SlotBinding {
    SlotBinding(name, None, [], CLEARED, EXPLICIT, turnId, None, [])
  }

  function ConflictIssue(offer: Offer): string {
    if offer.Explicit() != [] then "conflicting_explicit_values" else "conflicting_deterministic_values"
  }

  function ConflictedSlot(name: string, offer: Offer, turnId: string): SlotBinding {
    SlotBinding(name, None, offer.Selected(), CONFLICTED, EXPLICIT, turnId, None, [ConflictIssue(offer)])
  }

  function ResolvedSlot(name: string, offer: Offer, prior: Option<SlotBinding>, span: Option<Span>,
                        turnId: string): SlotBinding
    requires offer.Selected() != []
  {
    var value := offer.Selected()[0];
    var wasCleared := prior.Some? && prior.value.state == CLEARED;
    var provenance :=
      if wasCleared || offer.expected || offer.SelectedSource() == CONFIRMATION then CONFIRMED else EXPLICIT;
    SlotBinding(name, Some(value), [value], RESOLVED, provenance, turnId, span, [])
  }

  function InheritedSlot(prior: SlotBinding): SlotBinding {
    prior.(state := RESOLVED, provenance := INHERITED)
  }

  predicate StillValid(valid: Validity, input: InputDescriptor, slot: SlotBinding) {
    slot.value.Some? && valid(input, slot.value.value)
  }

  /** Nothing was offered this turn: a resolved value is kept as inherited while it stays valid. */
  function InheritOutcome(valid: Validity, input: InputDescriptor, prior: Option<SlotBinding>): SlotOutcome {
    if prior.None? || prior.value.provenance == INHERITED_LEGACY || prior.value.state != RESOLVED then
      SlotOutcome(prior, false, false, false)
    else if !StillValid(valid, input, prior.value) then SlotOutcome(None, true, false, false)
    else
      var inherited := Some(InheritedSlot(prior.value).(name := input.name));
      SlotOutcome(inherited, inherited != prior, false, false)
  }

  function ClearOutcome(input: InputDescriptor, prior: Option<SlotBinding>, turnId: string): SlotOutcome {
    var replacement := if input.required then Some(ClearedSlot(input.name, turnId)) else None;
    SlotOutcome(replacement, replacement != prior, false, false)
  }

  /** One value was offered, or several that contradict each other. */
  function OfferedOutcome(name: string, prior: Option<SlotBinding>, offer: Offer, good: seq<Candidate>,
                          turnId: string): SlotOutcome
    requires offer.Selected() != []
  {
    if |offer.Selected()| > 1 then SlotOutcome(Some(ConflictedSlot(name, offer, turnId)), true, false, false)
    else
      var replacement := Some(ResolvedSlot(name, offer, prior, SourceSpan(good, offer.Selected()[0]), turnId));
      SlotOutcome(replacement, replacement != prior, offer.expected, replacement != prior)
  }

  function OutcomeOf(valid: Validity, input: InputDescriptor, prior: Option<SlotBinding>,
                     good: seq<Candidate>, mode: SlotMode, turnId: string): SlotOutcome
  {
    var offer := OfferOf(good, mode.expected);
    if mode.rejected then SlotOutcome(prior, false, false, false)
    else if mode.cleared then ClearOutcome(input, prior, turnId)
    else if offer.Selected() != [] then OfferedOutcome(input.name, prior, offer, good, turnId)
    else InheritOutcome(valid, input, prior)
  }

  // ---------------------------------------------------------------- what one input leaves in the notes

  datatype Notes = Notes(issues: seq<string>, evidence: seq<Evidence>)

  function Advisory(name: string, values: seq<string>): seq<Evidence> {
    seq(|values|, i requires 0 <= i < |values| => Evidence(Some(name), Some(values[i]), "MODEL_CANDIDATE", "advisory_only"))
  }

  function ConflictEvidence(name: string, offer: Offer): seq<Evidence> {
    if offer.Explicit() != [] then
      (if offer.corrections != [] then [Evidence(Some(name), None, "EXPLICIT_CORRECTION", "conflict")] else [])
      + (if offer.confirmations != [] then [Evidence(Some(name), None, "CONFIRMATION", "conflict")] else [])
    else [Evidence(Some(name), None, "DETERMINISTIC_LABEL", "conflict")]
  }

  function Shown(value: Option<string>): string {
    if value.Some? then value.value else "None"
  }

  function InheritNotes(valid: Validity, input: InputDescriptor, prior: Option<SlotBinding>): Notes {
    var name := input.name;
    if prior.None? then Notes([], [])
    else if prior.value.provenance == INHERITED_LEGACY then
      Notes([], [Evidence(Some(name), prior.value.value, "INHERITED_LEGACY", "requires_revalidation")])
    else if prior.value.state != RESOLVED then Notes([], [])
    else if !StillValid(valid, input, prior.value) then
      Notes([InvalidIssue(name, Shown(prior.value.value))],
            [Evidence(Some(name), prior.value.value, "INHERITED", "invalid_semantic_value")])
    else Notes([], [Evidence(Some(name), prior.value.value, "INHERITED", "active_confirmed_value")])
  }

  function ResolveEvidence(name: string, offer: Offer, slot: SlotBinding): seq<Evidence> {
    [Evidence(Some(name), slot.value, offer.SelectedSource().Name(),
              if slot.provenance == CONFIRMED then "confirmed" else "explicit")]
    + (if offer.corrections != [] && offer.confirmations != []
       then [Evidence(Some(name), slot.value, "CONFIRMATION", "coequal_explicit_evidence")] else [])
  }

  function ClearEvidence(input: InputDescriptor): Evidence {
    Evidence(Some(input.name), None, "EXPLICIT", if input.required then "slot_cleared" else "optional_slot_cleared")
  }

  function OfferedNotes(name: string, prior: Option<SlotBinding>, offer: Offer, good: seq<Candidate>,
                        turnId: string): Notes
    requires offer.Selected() != []
  {
    if |offer.Selected()| > 1 then Notes([ConflictIssue(offer) + ":" + name], ConflictEvidence(name, offer))
    else
      Notes([], ResolveEvidence(name, offer, ResolvedSlot(name, offer, prior, SourceSpan(good, offer.Selected()[0]), turnId)))
  }

  /** The notes a turn adds for one input, after those of the semantic check and of the model guesses. */
  function NotesOf(valid: Validity, input: InputDescriptor, prior: Option<SlotBinding>,
                   good: seq<Candidate>, mode: SlotMode, turnId: string): Notes
  {
    var offer := OfferOf(good, mode.expected);
    if mode.rejected then Notes([], [Evidence(Some(input.name), None, "SYSTEM", "stale_pending_answer_discarded")])
    else if mode.cleared then Notes([], [ClearEvidence(input)])
    else if offer.Selected() != [] then OfferedNotes(input.name, prior, offer, good, turnId)
    else InheritNotes(valid, input, prior)
  }

  // ---------------------------------------------------------------- the loop over the inputs

  /** Everything the loop reads but does not change. */
  datatype TurnInput = TurnInput(
    candidates: CandidateSet,
    pending: Option<Pending>,
    rejectedFields: seq<string>,
    turnId: string)
  {
    function ModeOf(name: string): SlotMode {
      SlotMode(name in rejectedFields,
               pending.Some? && name in pending.value.expectedFields,
               name in candidates.clearSlots)
    }
  }

  datatype LoopState = LoopState(
    slots: map<string, SlotBinding>,
    changed: seq<string>,
    issues: seq<string>,
    evidence: seq<Evidence>,
    confirmedPending: bool,
    deterministicChanged: bool)

  function PutSlot(slots: map<string, SlotBinding>, name: string, slot: Option<SlotBinding>): map<string, SlotBinding> {
    if slot.Some? then slots[name := slot.value] else slots - {name}
  }

  function Applied(s: LoopState, name: string, out: SlotOutcome, notes: Notes): LoopState {
    LoopState(
      PutSlot(s.slots, name, out.slot),
      s.changed + (if out.changed then [name] else []),
      AppendAllUnique(s.issues, notes.issues),
      s.evidence + notes.evidence,
      s.confirmedPending || out.confirmedPending,
      s.deterministicChanged || out.deterministicChanged)
  }

  function Checked(valid: Validity, turn: TurnInput, s: LoopState, input: InputDescriptor): LoopState {
    var raw := turn.candidates.ForSlot(input.name);
    s.(issues := AppendAllUnique(s.issues, InvalidIssues(valid, input, raw)),
       evidence := s.evidence + InvalidEvidence(valid, input, raw))
  }

  function InputStep(valid: Validity, turn: TurnInput, s: LoopState, input: InputDescriptor): LoopState {
    var good := ValidOnly(valid, input, turn.candidates.ForSlot(input.name));
    var prior := Lookup(s.slots, input.name);
    var mode := turn.ModeOf(input.name);
    var checked := Checked(valid, turn, s, input);
    var advised := if mode.rejected then checked
                   else checked.(evidence := checked.evidence + Advisory(input.name, ValuesFrom(good, MODEL)));
    Applied(advised, input.name, OutcomeOf(valid, input, prior, good, mode, turn.turnId),
            NotesOf(valid, input, prior, good, mode, turn.turnId))
  }

  /** The state of the loop after the first `n` inputs. */
  function AfterInputs(valid: Validity, turn: TurnInput, start: LoopState, inputs: seq<InputDescriptor>, n: nat): LoopState
    requires n <= |inputs|
  {
    if n == 0 then start
    else InputStep(valid, turn, AfterInputs(valid, turn, start, inputs, n - 1), inputs[n - 1])
  }

  // ---------------------------------------------------------------- before the loop

  datatype Opening = Opening(
    active: Option<Frame>,
    recentFrames: seq<Frame>,
    pending: Option<Pending>,
    rejectedFields: seq<string>,
    switching: bool,
    stale: bool,
    snapshotMismatch: bool,
    operation: Operation,
    issues: seq<string>,
    evidence: seq<Evidence>)

  predicate PendingIsCurrent(pending: Pending, active: Option<Frame>, state: ReadState, snapshotId: string,
                             serverTime: Timestamp)
  {
    && active.Some?
    && pending.BindingKey() == (active.value.frameId, state.stateVersion, snapshotId)
    && serverTime.micros < pending.expiresAt.micros
  }

  function FirstTwo(frames: seq<Frame>): seq<Frame> {
    if |frames| <= 2 then frames else frames[..2]
  }

  function Open(req: Request): Opening {
    var prior := req.prior;
    var switching := prior.activeFrame.Some? && prior.activeFrame.value.capabilityId != req.descriptor.capabilityId;
    var active := if switching then None else prior.activeFrame;
    var versionMismatch := active.Some? && active.value.capabilityVersion != req.capabilityVersion;
    var pending := if switching || versionMismatch then None else prior.pending;
    var rejected := pending.Some? && !PendingIsCurrent(pending.value, active, prior, req.snapshotId, req.serverTime);
    var issues := if versionMismatch then AppendUnique(req.candidates.discardReasons, "capability_version_mismatch")
                  else req.candidates.discardReasons;
    Opening(
      active,
      if switching then FirstTwo([prior.activeFrame.value] + prior.recentFrames) else prior.recentFrames,
      if rejected then None else pending,
      if rejected then pending.value.expectedFields else [],
      switching,
      versionMismatch,
      active.Some? && !versionMismatch && active.value.registrySnapshotId != req.snapshotId,
      if switching then SWITCH_CAPABILITY else if rejected then REJECT_PENDING else CONTINUE_FRAME,
      if rejected then AppendUnique(issues, "pending_binding_invalid") else issues,
      if switching then [Evidence(None, None, "DETERMINISTIC_LABEL", "capability_switch")] else [])
  }

  function TurnInputOf(req: Request, o: Opening): TurnInput {
    TurnInput(req.candidates, o.pending, o.rejectedFields, req.turnId)
  }

  function LoopStart(o: Opening): LoopState {
    LoopState(if o.active.Some? then o.active.value.slots else map[], [], o.issues, o.evidence, false, false)
  }

  // ---------------------------------------------------------------- after the loop

  predicate ResolvedIn(slots: map<string, SlotBinding>, name: string) {
    name in slots && slots[name].state == RESOLVED
  }

  /** Names of the required inputs that have no resolved slot, in the order of the descriptor. */
  function Unresolved(inputs: seq<InputDescriptor>, slots: map<string, SlotBinding>): seq<string> {
    if inputs == [] then []
    else
      (if inputs[0].required && !ResolvedIn(slots, inputs[0].name) then [inputs[0].name] else [])
      + Unresolved(inputs[1..], slots)
  }

  function DeriveStatus(descriptor: CapabilityDescriptor, slots: map<string, SlotBinding>, stale: bool,
                        pending: Option<Pending>): FrameStatus
  {
    if stale || descriptor.sideEffect != "none" then STALE
    else if exists n | n in slots :: slots[n].state == CONFLICTED then FRAME_CONFLICTED
    else if Unresolved(descriptor.inputs, slots) != [] then COLLECTING
    else if pending.Some? then COLLECTING
    else if exists n | n in slots :: slots[n].provenance == INHERITED_LEGACY then STALE
    else READY
  }

  predicate RebindableSlot(valid: Validity, inputs: seq<InputDescriptor>, name: string, slot: SlotBinding) {
    var input := FindInput(inputs, name);
    && input.Some?
    && slot.state == RESOLVED
    && slot.provenance != INHERITED_LEGACY
    && StillValid(valid, input.value, slot)
  }

  predicate SnapshotCanRebind(valid: Validity, descriptor: CapabilityDescriptor, slots: map<string, SlotBinding>,
                              pending: Option<Pending>)
  {
    && pending.None?
    && (forall n | n in slots :: RebindableSlot(valid, descriptor.inputs, n, slots[n]))
    && (forall i | 0 <= i < |descriptor.inputs| && descriptor.inputs[i].required ::
          var name := descriptor.inputs[i].name;
          ResolvedIn(slots, name) && StillValid(valid, descriptor.inputs[i], slots[name]))
  }

  function ExpiresAt(serverTime: Timestamp): Timestamp {
    serverTime.(micros := serverTime.micros + 15 * 60 * 1000000)
  }

  function FrameIdFor(capabilityId: string, turnId: string): string {
    capabilityId + ":" + turnId
  }

  function ClosingOperation(req: Request, o: Opening, s: LoopState): Operation {
    if req.candidates.clearSlots != [] && !o.switching then CLEAR_SLOT
    else if s.confirmedPending && !o.switching then CONFIRM_PENDING
    else if s.deterministicChanged && o.active.Some? && !o.switching && o.operation == CONTINUE_FRAME then REPLACE_SLOT
    else o.operation
  }

  /** The pending interaction once answers of this turn have been taken into account. */
  function PendingAfterAnswers(req: Request, o: Opening, s: LoopState): Option<Pending> {
    if req.candidates.clearSlots == [] && s.confirmedPending && !o.switching then None else o.pending
  }

  predicate FailsRebind(valid: Validity, req: Request, o: Opening, s: LoopState) {
    o.snapshotMismatch && !SnapshotCanRebind(valid, req.descriptor, s.slots, PendingAfterAnswers(req, o, s))
  }

  function FrameIdOf(req: Request, o: Opening): string {
    if o.active.Some? then o.active.value.frameId else FrameIdFor(req.descriptor.capabilityId, req.turnId)
  }

  function FreshClarification(req: Request, o: Opening, fields: seq<string>): Pending {
    SlotClarification(FrameIdOf(req, o), fields, req.prior.stateVersion + 1, req.snapshotId, ExpiresAt(req.serverTime))
  }

  /** The pending interaction the frame status is derived from. */
  function PendingForStatus(valid: Validity, req: Request, o: Opening, s: LoopState): Option<Pending> {
    if o.rejectedFields != [] then Some(FreshClarification(req, o, o.rejectedFields))
    else if FailsRebind(valid, req, o, s) then None
    else PendingAfterAnswers(req, o, s)
  }

  function StatusOf(valid: Validity, req: Request, o: Opening, s: LoopState): FrameStatus {
    DeriveStatus(req.descriptor, s.slots, o.stale || FailsRebind(valid, req, o, s), PendingForStatus(valid, req, o, s))
  }

  /** The required fields the turn asks for. */
  function AskedFields(valid: Validity, req: Request, o: Opening, s: LoopState): seq<string> {
    if StatusOf(valid, req, o, s) != READY && !o.stale && !FailsRebind(valid, req, o, s)
    then Unresolved(req.descriptor.inputs, s.slots) else []
  }

  function NextPending(valid: Validity, req: Request, o: Opening, s: LoopState): Option<Pending> {
    var before := PendingForStatus(valid, req, o, s);
    var asked := AskedFields(valid, req, o, s);
    var pending := if before.None? && asked != [] then Some(FreshClarification(req, o, asked)) else before;
    if pending.None? then None
    else Some(pending.value.(frameId := FrameIdOf(req, o), stateVersion := req.prior.stateVersion + 1,
                             registrySnapshotId := req.snapshotId))
  }

  function NextFrame(valid: Validity, req: Request, o: Opening, s: LoopState): Frame {
    Frame(FrameIdOf(req, o), req.descriptor.capabilityId, s.slots, StatusOf(valid, req, o, s),
          if o.active.Some? then o.active.value.createdTurnId else req.turnId,
          req.turnId, req.snapshotId, req.capabilityVersion)
  }

  function MissingIssues(fields: seq<string>): seq<string> {
    seq(|fields|, i requires 0 <= i < |fields| => "missing_required:" + fields[i])
  }

  function Close(valid: Validity, req: Request, o: Opening, s: LoopState): Resolution {
    var failsRebind := FailsRebind(valid, req, o, s);
    Resolution(
      ReadState(Some(NextFrame(valid, req, o, s)), NextPending(valid, req, o, s), req.prior.stateVersion + 1,
                o.recentFrames, map[]),
      ClosingOperation(req, o, s),
      s.changed,
      AppendAllUnique(if failsRebind then AppendUnique(s.issues, "snapshot_revalidation_required") else s.issues,
                      MissingIssues(AskedFields(valid, req, o, s))),
      if o.snapshotMismatch && !failsRebind then s.evidence + [Evidence(None, None, "SYSTEM", "snapshot_rebound")]
      else s.evidence)
  }

  // ---------------------------------------------------------------- the whole turn

  function LoopEnd(valid: Validity, req: Request): LoopState {
    var o := Open(req);
    AfterInputs(valid, TurnInputOf(req, o), LoopStart(o), req.descriptor.inputs, |req.descriptor.inputs|)
  }

  function Reduced(valid: Validity, req: Request): (r: Resolution)
    ensures r.nextState.activeFrame.Some?
    ensures r.nextState.stateVersion == req.prior.stateVersion + 1
  {
    Close(valid, req, Open(req), LoopEnd(valid, req))
  }

  /** The turn as the source sees it: the resolution, or the exception of a constructor that refuses
      one of the values the turn builds. Every value it builds is part of the next state. */
  ghost function Reduce(valid: Validity, req: Request): Result<Resolution> {
    if Reduced(valid, req).nextState.Valid() then Ok(Reduced(valid, req)) else Raise("ValueError")
  }

  /** One pass of the loop body of the source, branch by branch. */
  method ReduceInput(valid: Validity, turn: TurnInput, s: LoopState, input: InputDescriptor) returns (r: LoopState)
    ensures r == InputStep(valid, turn, s, input)
  {
    var name := input.name;
    var prior := Lookup(s.slots, name);
    var good, issues, evidence := ValidatedCandidates(valid, input, turn.candidates.ForSlot(name), s.issues, s.evidence);
    var corrections := UniqueValues(good, EXPLICIT_CORRECTION);
    var confirmations := UniqueValues(good, CONFIRMATION);
    var deterministic := UniqueValues(good, DETERMINISTIC_LABEL);
    var modelValues := UniqueValues(good, MODEL);
    r := s.(issues := issues, evidence := evidence);
    if name in turn.rejectedFields {
      assert s.slots == PutSlot(s.slots, name, prior);
      r := r.(evidence := evidence + [Evidence(Some(name), None, "SYSTEM", "stale_pending_answer_discarded")]);
      return;
    }
    r := r.(evidence := evidence + Advisory(name, modelValues));
    var expected := turn.pending.Some? && name in turn.pending.value.expectedFields;
    var offer := Offer(corrections, confirmations, deterministic, expected);
    if name in turn.candidates.clearSlots {
      r := ClearInput(r, input, prior, turn.turnId);
    } else if offer.Selected() != [] {
      r := OfferInput(r, name, prior, offer, good, turn.turnId);
    } else {
      r := InheritInput(valid, r, input, prior);
    }
  }

  method ClearInput(s: LoopState, input: InputDescriptor, prior: Option<SlotBinding>, turnId: string)
    returns (r: LoopState)
    requires prior == Lookup(s.slots, input.name)
    ensures r == Applied(s, input.name, ClearOutcome(input, prior, turnId), Notes([], [ClearEvidence(input)]))
  {
    assert s.slots == PutSlot(s.slots, input.name, prior);
    r := s.(evidence := s.evidence + [ClearEvidence(input)]);
    if !input.required {
      if prior.Some? { r := r.(slots := s.slots - {input.name}, changed := s.changed + [input.name]); }
    } else {
      var replacement := ClearedSlot(input.name, turnId);
      if Some(replacement) != prior {
        r := r.(slots := s.slots[input.name := replacement], changed := s.changed + [input.name]);
      }
    }
  }

  method OfferInput(s: LoopState, name: string, prior: Option<SlotBinding>, offer: Offer, good: seq<Candidate>,
                    turnId: string) returns (r: LoopState)
    requires prior == Lookup(s.slots, name) && offer.Selected() != []
    ensures r == Applied(s, name, OfferedOutcome(name, prior, offer, good, turnId),
                         OfferedNotes(name, prior, offer, good, turnId))
  {
    var selected := offer.Selected();
    assert s.changed + [] == s.changed;
    if |selected| > 1 {
      var issue := ConflictIssue(offer) + ":" + name;
      r := s.(slots := s.slots[name := ConflictedSlot(name, offer, turnId)],
              changed := s.changed + [name],
              issues := AppendUnique(s.issues, issue),
              evidence := s.evidence + ConflictEvidence(name, offer));
      AppendOneUnique(s.issues, issue);
    } else {
      var replacement := ResolvedSlot(name, offer, prior, SourceSpan(good, selected[0]), turnId);
      assert s.slots == PutSlot(s.slots, name, prior);
      r := s.(evidence := s.evidence + ResolveEvidence(name, offer, replacement),
              confirmedPending := s.confirmedPending || offer.expected);
      if Some(replacement) != prior {
        r := r.(slots := s.slots[name := replacement], changed := s.changed + [name], deterministicChanged := true);
      }
    }
  }

  /** The end of the loop body: nothing was offered for the slot this turn. */
  method InheritInput(valid: Validity, s: LoopState, input: InputDescriptor, prior: Option<SlotBinding>)
    returns (r: LoopState)
    requires prior == Lookup(s.slots, input.name)
    ensures r == Applied(s, input.name, InheritOutcome(valid, input, prior), InheritNotes(valid, input, prior))
  {
    var name := input.name;
    assert s.slots == PutSlot(s.slots, name, prior);
    assert s.changed + [] == s.changed && s.evidence + [] == s.evidence;
    r := s;
    if prior.None? {
    } else if prior.value.provenance == INHERITED_LEGACY {
      r := s.(evidence := s.evidence + [Evidence(Some(name), prior.value.value, "INHERITED_LEGACY", "requires_revalidation")]);
    } else if prior.value.state == RESOLVED {
      if !StillValid(valid, input, prior.value) {
        var issue := InvalidIssue(name, Shown(prior.value.value));
        AppendOneUnique(s.issues, issue);
        r := s.(slots := s.slots - {name}, changed := s.changed + [name],
                issues := AppendUnique(s.issues, issue),
                evidence := s.evidence + [Evidence(Some(name), prior.value.value, "INHERITED", "invalid_semantic_value")]);
      } else {
        var inherited := InheritedSlot(prior.value).(name := name);
        r := s.(evidence := s.evidence + [Evidence(Some(name), prior.value.value, "INHERITED", "active_confirmed_value")]);
        if Some(inherited) != prior {
          r := r.(slots := s.slots[name := inherited], changed := s.changed + [name]);
        }
      }
    }
  }

  method ReduceContext(valid: Validity, req: Request) returns (r: Resolution)
    ensures r == Reduced(valid, req)
  {
    var o := Open(req);
    var s := LoopStart(o);
    var inputs := req.descriptor.inputs;
    for n := 0 to |inputs|
      invariant s == AfterInputs(valid, TurnInputOf(req, o), LoopStart(o), inputs, n)
    {
      s := ReduceInput(valid, TurnInputOf(req, o), s, inputs[n]);
    }
    r := Close(valid, req, o, s);
  }
}
