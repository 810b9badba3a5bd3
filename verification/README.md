# A verified model of SAP Nexus

SAP Nexus answers business questions against an ERP system through a governed agent. Its core folds each user
turn into a versioned conversation state, decides whether a READ capability may run and with which parameters,
and re-checks plan and state right before execution. Around that core stand a registry parser, an approval chain
for WRITE actions, a snapshot store for master data, an identity registry and several small algorithms.

This project models that logic in Dafny and proves what it promises. Code that works by updating variables or
fields is a `method` or a `class`, proved against a specification function or relation; pure code is functions and
lemmas. `dafny verify dfyconfig.toml` checks everything.

## Modules

- `Basics`, `Numerals`: optional values, results of code that may raise, Python's order on strings, sorting,
  decimal numerals.
- `ReadContext`, `Candidates`, `Reducer`, `ReducerLaws`, `ReducerInvariant`, `ReducerStatus`: the turn reducer. The
  loop of the source is a method proved to compute `Reduced`; the other three modules say what `Reduced` means.
- `TurnSlots`, `TurnContract`, `TurnNotes`: the same turn told from the request alone: every slot, the operation, the
  question, the status, the issues and the evidence, without a word of how they are computed.
- `DecisionGate`, `ReadDecision`, `DecisionLaws`: the fail-closed gate from a reduced frame to a decision, and every
  decision exactly when it is made.
- `Conversation`, `Migration`: runs of turns and of the orchestrator's steps between them, from any sound state: the
  empty one, a loaded one, or one migrated from a context of the old schema.
- `Persistence`, `StatePersistence`, `PersistedRuns`: the JSON form of the state, and runs that are stored and
  loaded between steps.
- `CanonicalJson`, `Execution`, `Approval`: canonical JSON, the hashes over it, the binding of a plan and its
  preflight, the approval chain and the gateway's call log. `PreflightLaws` says exactly what preflight accepts.
  `AcceptedRuns` joins runs and preflight; `OpenItems` is
  one concrete turn from utterance to preflight.
- `YamlLines`, `SimpleYaml`, `YamlPrinter`, `YamlRoundTrip`, `YamlInverse`: the indentation-stack parser of the
  registry's private subset of YAML (which is not YAML 1.2) and its canonical printer. `YamlComments`: what the
  parser does with comments, blank lines and everything else the printer never writes.
- `SnapshotStore`, `SnapshotLaws`, `SnapshotRows`: the transactional master-data importer, what any run of it keeps,
  and what its readers see, field by field.
- `ImpactAnalysis`, `Identity`, `LikePattern`, `Replenishment`, `Expansion`: the impact worklist, the identity
  registry, LIKE escaping, the replenishment gap and the expansion of multi-valued parameters.

## Where the code and what is said about it part ways

The model follows the code. Each point has a lemma with the exact condition or a concrete input.

- A batch of master data that has been superseded cannot be published again: the unique content hash refuses it,
  although master-data/README.md:97 offers re-import of an export as a way back. A dry run of the same import
  reports no problem (`SupersededContentNeverReturns`; `RollbackRuns` and `RollbackIsRefused` are a run that tries
  it). Validation also lets through batches the tables refuse, because an entity lists a language, an alias or an
  organisational scope twice (`PublishedExactlyWhen`).
- The identity registry promises "never a silent merge". An object that has a valid identity of its own gets it when
  it is first resolved exactly when its set was not settled before and no alias registered before shares a token
  with it (`OwnIdentityExactlyWhen`). The type is such a token, so the first alias of a type captures every set of
  that type not seen before and blocks aliases for any other identity of the type (`AliasMergesStrangers`,
  `AliasCapturesItsType`, `OneAliasedIdentityPerType`); an identifier shared across types captures as well
  (`AliasMergesAcrossTypes`).
- The replenishment proposal is said to stay within the required quantity. It does exactly when the supply is not
  negative (`ProposalWithinRequirement`); with a stock line of minus five a plan for ten becomes a proposal for
  fifteen (`NegativeStockExceedsRequirement`, `FifteenIsProposed`).
- A READ binding minted for a batch carries a pending confirmation, and a binding with a pending interaction never
  validates (`PendingBindingNeverPasses`); mint and accept agree on the path without a batch.
- A plan with a defaulted key date stops passing preflight when the day changes (`MintedPassesExactlyWhen`;
  `PlanPassesOnItsDayOnly` is such a plan).
- The registry parser looks up a header line by its text, so two equal header lines share the container kind of
  the first one. Parsing inverts printing exactly when equal header lines head the same kind (`RoundTrip`);
  `EqualHeadersRaise` is a document on which it raises.
- A snapshot id is made of the coverage's names and colons, so names with colons can share one (`ColonsCollide`);
  without colons in system and client it names coverage and hash prefix (`SnapshotIdExactly`).
- A reducer turn raises exactly when it asks a question of its own under a server time that is not UTC
  (`RaisesExactlyWhen`).

## Model

| member | source | states |
|---|---|---|
| Candidates.AppendGoals | agent/sap_nexus_agent/context_candidates.py:77-112 | The deterministic candidates stay exactly as they were; added are exactly the acceptable values that goals for this capability propose for declared, permitted fields, marked as the model's; every other proposal is discarded with its reason |
| Candidates.ExtractContextCandidates | agent/sap_nexus_agent/context_candidates.py:77-112 | Extraction with a model envelope offers the same non-model evidence as extraction without one, and beside it exactly the proposals AppendGoals admits |
| Candidates.EvidenceIsExactlyTheHits | agent/sap_nexus_agent/context_candidates.py:87-89 | The deterministic evidence of an input is exactly its nonempty, semantically valid pattern hits, with source and span |
| Candidates.DiscardsAreExactlyTheBadHits | agent/sap_nexus_agent/context_candidates.py:196-209 | Discarded with its reason is exactly every hit that is empty once trimmed or semantically invalid |
| Reducer.ValidatedCandidates | agent/sap_nexus_agent/context_reducer.py:400-413 | The loop keeps exactly the semantically valid candidates, and notes every other one once as an issue and each time as evidence |
| Reducer.UniqueValues | agent/sap_nexus_agent/context_reducer.py:416-427 | The loop yields the values of one source specified by ValuesFrom, whose members and distinctness ValuesFromMembers proves |
| ReducerLaws.ValuesFromMembers | agent/sap_nexus_agent/context_reducer.py:416-427 | The values of a source are exactly those its candidates offer, each once |
| Reducer.ReduceInput | agent/sap_nexus_agent/context_reducer.py:112-264 | One pass of the loop body, branch by branch, has the combined slot outcome and notes that the laws below are about |
| Reducer.ClearInput | agent/sap_nexus_agent/context_reducer.py:137-158 | Clearing removes an optional slot, replaces a required one, and reports a change only if something changed |
| Reducer.OfferInput | agent/sap_nexus_agent/context_reducer.py:160-227 | Offered values resolve the slot, or put it in conflict when they contradict each other, with the evidence for it |
| Reducer.InheritInput | agent/sap_nexus_agent/context_reducer.py:229-256 | A slot nothing was offered for is inherited while it stays valid and dropped otherwise |
| Reducer.ReduceContext | agent/sap_nexus_agent/context_reducer.py:69-346 | The whole imperative turn yields the resolution that every law of the reducer is proved about |
| TurnSlots.SelectedExactly | agent/sap_nexus_agent/context_reducer.py:116-160 | The values put forward for an input are exactly the preferred ones, each once: what the user corrected or confirmed outweighs every label, and a model never counts |
| TurnSlots.SlotAfterTurn | agent/sap_nexus_agent/context_reducer.py:112-264 | The slot of every declared input after any turn, from the request: a late answer leaves it, a clear empties it, a dispute shows the contradicting values, one preferred value settles it with provenance and place, and otherwise it is inherited, dropped or left |
| TurnContract.UndeclaredSlotsStay | agent/sap_nexus_agent/context_reducer.py:112-264 | Slots the capability does not declare stand as they are |
| TurnContract.ReportedAsChanged | agent/sap_nexus_agent/context_reducer.py:137-256 | A slot is reported as changed exactly when it is not what it was or is in dispute |
| TurnContract.OperationExactly | agent/sap_nexus_agent/context_reducer.py:69-105 | Each of the operations exactly when it is reported, told from the request and the slots before and after |
| TurnContract.QuestionExactly | agent/sap_nexus_agent/context_reducer.py:258-332 | A discarded answer is asked for again, an open question stays with its fields and expiry, and otherwise exactly the missing required inputs are asked for, for fifteen minutes |
| TurnContract.AnswerClosesQuestion | agent/sap_nexus_agent/context_reducer.py:258-332 | In time, on the same capability, version and snapshot, a question is closed exactly when an input it asked for gets one value; then READY iff the slots are complete, and otherwise what is missing is asked for afresh |
| TurnContract.ReadyExactly | agent/sap_nexus_agent/context_reducer.py:266-366 | READY exactly when the capability only reads, its version is unchanged, no answer came too late, no question is still open and the slots are complete; a new registry snapshot does not matter then |
| TurnContract.StatusExactly | agent/sap_nexus_agent/context_reducer.py:349-366 | Each status of the next frame exactly when it has it |
| TurnContract.FrameExactly | agent/sap_nexus_agent/context_reducer.py:275-346 | The rest of the next state: ids, turns, snapshot, version, rounds and recent frames |
| TurnNotes.IssuesExactly | agent/sap_nexus_agent/context_reducer.py:69-332 | The issues of a turn are exactly those of the extraction, a new version, a late answer, invalid, contradicting or lapsed values, a required revalidation and each missing required input |
| TurnNotes.EvidenceExactly | agent/sap_nexus_agent/context_reducer.py:69-346 | The evidence of a turn is exactly a switch, what each input is noted for with its source, and a rebound snapshot |
| ReducerLaws.LoopBySlot | agent/sap_nexus_agent/context_reducer.py:112-264 | The loop gives each slot its own outcome, independently of the other inputs, and leaves undeclared slots alone |
| ReducerInvariant.ChangedExactly | agent/sap_nexus_agent/context_reducer.py:112-264 | A slot is reported as changed exactly when its own outcome changed it |
| ReducerLaws.SelectedIsEvidenced | agent/sap_nexus_agent/context_reducer.py:116-160 | A value is put forward only by a candidate that is not a model guess |
| ReducerLaws.EvidenceIsSelected | agent/sap_nexus_agent/context_reducer.py:116-160 | Nothing is put forward exactly when all valid candidates are model guesses |
| ReducerLaws.OutcomeIgnoresModel | agent/sap_nexus_agent/context_reducer.py:116-135 | The outcome of a slot, its value, provenance and span included, depends on the non-model candidates alone |
| ReducerLaws.ModelIsAdvisory | agent/sap_nexus_agent/context_reducer.py:69-346 | Two turns that differ only in model candidates reach the same next state, operation and changed slots |
| ReducerInvariant.NextSlotsFit | agent/sap_nexus_agent/context_reducer.py:112-264 | Every slot a turn leaves passes its constructor and belongs to a declared input; only a migrated slot the turn did not touch may be undeclared or an optional cleared one |
| ReducerInvariant.ReadyMeans | agent/sap_nexus_agent/context_reducer.py:349-366 | A status is READY exactly when the capability only reads, nothing is stale or pending, and the slots are complete: all resolved, none migrated, one for every required input |
| ReducerInvariant.RaisesExactlyWhen | agent/sap_nexus_agent/context_reducer.py:266-346 | With a fixed catalog a turn raises exactly when it asks a question of its own under a time that is not UTC |
| ReducerStatus.QuestionIsExact | agent/sap_nexus_agent/context_reducer.py:281-332 | A question of the turn's own is for exactly the unresolved required inputs, or again for the fields of a rejected answer, and is open for fifteen minutes |
| ReducerStatus.SwitchStartsAfresh | agent/sap_nexus_agent/context_reducer.py:69-111 | A switch of capability carries no slot over and files the frame left behind as the first recent one |
| ReducerInvariant.TurnInvariant | agent/sap_nexus_agent/context_reducer.py:281-346 | Version grows by one, at most two recent frames, READY is complete and has no pending, a pending is bound to exactly this frame, version and snapshot |
| ReducerInvariant.SlotFrameRule | agent/sap_nexus_agent/context_reducer.py:112-264 | A turn changes the value of a slot only by valid non-model evidence, contradicting evidence, an explicit clear, or loss of validity |
| ReducerInvariant.LateAnswerChangesNothing | agent/sap_nexus_agent/context_reducer.py:98-105 | The answer to an expired or wrongly bound question changes no slot it was asked for, and reports none as changed |
| ReducerInvariant.QuietTurnKeepsValues | agent/sap_nexus_agent/context_reducer.py:229-256 | With nothing pending an evidence-free turn keeps every valid resolved value with its source turn and span, and leaves migrated slots exactly as they are |
| ReducerInvariant.SecondQuietTurnChangesNothing | agent/sap_nexus_agent/context_reducer.py:229-256 | A second evidence-free turn in a row reports no changed slot and leaves every slot as it was |
| ReducerStatus.ReadySlotsAreUsable | agent/sap_nexus_agent/context_reducer.py:349-366 | Every slot of complete slots is a declared input's, with a value that passed the semantic check in this turn and is no model guess |
| DecisionGate.UniqueIndex | agent/sap_nexus_agent/context_decision_gate.py:597-628 | The index holds exactly the records whose nonempty identity occurs once |
| DecisionGate.ProjectEligible | agent/sap_nexus_agent/context_decision_gate.py:327-383 | The collected ids are exactly the capabilities with one executable card, one active record and one matching read-only binding |
| DecisionGate.EligibleExactly | agent/sap_nexus_agent/context_decision_gate.py:327-383 | A capability is eligible exactly when it has one card that is not hidden, fit for execution, of this snapshot, one active record, and one executor of its type without side effect |
| ReadDecision.ClarificationFields | agent/sap_nexus_agent/context_decision_gate.py:631-639 | The loop yields the fields that FieldsAreExactlyUnanswered characterises |
| ReadDecision.FieldsAreExactlyUnanswered | agent/sap_nexus_agent/context_decision_gate.py:631-639 | The fields asked for are exactly the inputs that are required and unresolved, or in conflict, each once |
| ReadDecision.BuildParameters | agent/sap_nexus_agent/context_decision_gate.py:217-236 | The loop yields the parameters, or the first refusal, that ParametersAreExactlyTheSlots and CollectedFromSlots are about |
| ReadDecision.ParametersAreExactlyTheSlots | agent/sap_nexus_agent/context_decision_gate.py:217-236 | With usable slots nothing is refused and the parameters are exactly the slots of declared inputs with their values |
| ReadDecision.FrameDecisionIsExact | agent/sap_nexus_agent/context_decision_gate.py:160-236 | For any frame of an executable capability: an undeclared slot is refused, READY with a model guess is refused, READY otherwise is SELECT with exactly its slot values, and anything else a CLARIFY for exactly what is unanswered |
| ReadDecision.GateIsExact | agent/sap_nexus_agent/context_decision_gate.py:160-236 | For any reduced turn under an authority that shows one executable card: SELECT with exactly the slot values, covering every required input, iff READY; else CLARIFY for exactly what is unanswered, or a refusal of an undeclared migrated slot |
| ReadDecision.CandidatesFailClosed | agent/sap_nexus_agent/context_decision_gate.py:239-284 | Candidates of another snapshot, repeated ones and ones that are not uniquely executable are refused, each with its own error |
| ReadDecision.OnlyExecutableIsNamed | agent/sap_nexus_agent/context_decision_gate.py:160-284 | Only uniquely executable capabilities of the current snapshot are ever offered, escalated, asked about or selected; options are exactly the distinct candidates |
| DecisionLaws.RunnableExactly | agent/sap_nexus_agent/context_decision_gate.py:287-297 | Uniquely executable means: exactly one card of this id, of the current snapshot, in the executable set, without side effect or approval, internal |
| DecisionLaws.ShownExactly | agent/sap_nexus_agent/context_decision_gate.py:239-284 | SHOW_OPTIONS exactly when at least two distinct candidates of the current snapshot may all run and one of them is meant, and then with these, in their order |
| DecisionLaws.EscalatedExactly | agent/sap_nexus_agent/context_decision_gate.py:160-284 | ESCALATE_TO_PLANNER exactly when several goals were found that may all run, or the frame itself was reduced as one of several |
| DecisionLaws.SelectedExactly | agent/sap_nexus_agent/context_decision_gate.py:160-236 | SELECT exactly when the candidates leave the decision to a READY frame with nothing pending whose one card may run and declares its slots, and every input can be sent; with exactly the slot values |
| DecisionLaws.FrameDecidesExactly | agent/sap_nexus_agent/context_decision_gate.py:160-236 | Every other decision left to the frame: each refusal with its own error, a question for exactly what is unanswered, or a stop at the first input that cannot be sent |
| Conversation.StepKeeps | agent/sap_nexus_agent/orchestrator.py:957-1278 | Every step of the orchestrator, read turn or pending-clearing, keeps the state invariant and counts the version |
| Conversation.ReadStepExactly | agent/sap_nexus_agent/orchestrator.py:957-1278 | A read turn reduces the state without a foreign pending interaction, and is possible exactly when no constructor raises and the frame's status admits what follows up |
| Conversation.OtherStepExactly | agent/sap_nexus_agent/orchestrator.py:1482-1575 | Every other step told field by field, possible exactly when its conditions hold and the constructors accept the state |
| Conversation.RunInvariant | agent/sap_nexus_agent/orchestrator.py:1482-1575 | Over any run from a sound state: constructible, version grown by the number of advancing steps, READY complete, pending bound to frame and version |
| Conversation.ReachableTurnsComplete | agent/sap_nexus_agent/context_reducer.py:69-346 | After any run from a sound state, a read turn with a UTC clock raises in no constructor |
| Conversation.ForeignPendingLivesOneStep | agent/sap_nexus_agent/orchestrator.py:1482-1575 | A choice, batch or plan awaiting confirmation is gone after the next step that changes the state; only a step that leaves the whole state unchanged carries it on |
| Conversation.RunAccounts | agent/sap_nexus_agent/context_reducer.py:112-256 | After any run every resolved slot that is not a migrated one was offered, validly and not by the model, in the turn of the run it names, for the same capability, or stood in the state the run started from |
| Conversation.SelectedParametersHaveProvenance | agent/sap_nexus_agent/orchestrator.py:1181-1233 | Whole-run provenance: each parameter of a SELECT is a resolved slot's value with such an origin; from the empty state or a migrated one, always in a turn of the run itself |
| Conversation.ModelCannotSteer | agent/sap_nexus_agent/context_reducer.py:116-135 | Two runs that differ only in model candidates persist the same state after every step |
| Conversation.ModelCannotSteerDecisions | agent/sap_nexus_agent/context_decision_gate.py:160-236 | And every later turn is decided alike, with the same parameters |
| Migration.MigratedIsSound | agent/sap_nexus_agent/context_migration.py:11-74 | Migration of any old context fails closed: the state passes every constructor, suits any catalog, and nothing in it counts as established |
| Migration.MigratedFrame | agent/sap_nexus_agent/context_migration.py:11-74 | A context that decodes becomes a stale frame whose slots are exactly the old parameters and missing names, all marked as migrated; anything else becomes the empty state |
| Migration.MigratedExactly | agent/sap_nexus_agent/context_reducer.py:137-234 | A turn leaves a slot migrated exactly when it was and the turn discards its answer to it, or neither clears it nor brings usable non-model evidence for it |
| Migration.ReadyOnlyOnFreshEvidence | agent/sap_nexus_agent/context_reducer.py:349-366 | After any run from a migrated context a READY frame holds no migrated value: every value was offered, validly and not by the model, in a turn of that run |
| Persistence.SlotRoundTrip | agent/sap_nexus_agent/read_context.py:109-138 | Every constructible slot comes back from its dict |
| Persistence.SlotReadExactly | agent/sap_nexus_agent/read_context.py:70-138 | A dict is read as a slot exactly when every entry is that of the slot and the constructor accepts it |
| Persistence.FrameRoundTrip | agent/sap_nexus_agent/read_context.py:179-217 | Every constructible frame comes back from its dict, in whatever order its slots are listed |
| Persistence.FrameReadExactly | agent/sap_nexus_agent/read_context.py:141-217 | A dict is read as a frame exactly when every entry is that of the frame and the constructor accepts it |
| ReadContext.FactoriesAccept | agent/sap_nexus_agent/read_context.py:286-447 | What each factory of a pending interaction accepts, told from its arguments |
| ReadContext.ChoiceAccepted | agent/sap_nexus_agent/entity_resolution/models.py:100-145 | A set of entities to choose from is accepted exactly when nothing that binds it is empty, its times are UTC, and its candidates are numbered from one and carry codes |
| StatePersistence.GoalRoundTrip | agent/sap_nexus_agent/read_context.py:245-270 | Every planner goal comes back, its parameters in order |
| StatePersistence.ViewRoundTrip | agent/sap_nexus_agent/entity_resolution/models.py:72-97 | A candidate view comes back exactly when its distinguishing attributes are key-sorted without repetition |
| StatePersistence.ChoiceRoundTrip | agent/sap_nexus_agent/entity_resolution/models.py:145-185 | A choice set comes back exactly when its views are key-sorted and its extraction time is not an empty text |
| StatePersistence.PendingRoundTrip | agent/sap_nexus_agent/read_context.py:449-517 | A pending interaction of any of the five kinds comes back exactly when the references its kind does not use are absent and its choice set is in form |
| StatePersistence.StateRoundTrip | agent/sap_nexus_agent/read_context.py:563-596 | A valid state comes back from its dict exactly when its pending interaction is in form |
| StatePersistence.LoadedStateIsStable | agent/sap_nexus_agent/read_context.py:575-596 | Whatever dict was loaded, the state satisfies every constructor and from then on round-trips unchanged |
| StatePersistence.PendingReadMeans | agent/sap_nexus_agent/read_context.py:471-517 | A dict is read as a pending interaction only with exactly the names of its kind, and then says what the interaction says |
| StatePersistence.StateReadMeans | agent/sap_nexus_agent/read_context.py:575-596 | A dict is read as a state entry by entry, with the defaults for what is absent and through every constructor |
| PersistedRuns.StoringIsTransparent | agent/sap_nexus_agent/read_context.py:563-596 | A run from any sound state in form that is stored and loaded between all steps reaches the same states as a run in memory |
| CanonicalJson.CanonicalTextIsFaithful | agent/sap_nexus_agent/approval.py:121-129 | Two JSON values have the same canonical text exactly when they are the same JSON value, kind included, whatever the insertion order of their dicts |
| CanonicalJson.EncodePrefix | agent/sap_nexus_agent/approval.py:121-129 | Canonical texts can be read off the front of a longer text without ambiguity |
| CanonicalJson.TwoFields | agent/sap_nexus_agent/approval.py:121-129 | Fields stand in the order of their keys, whichever was inserted first, without white space |
| CanonicalJson.ParameterHashFaithful | agent/sap_nexus_agent/approval.py:121-129 | With a collision-free hash, equal parameter hashes mean equal parameters, in both directions and for any insertion order |
| Execution.PlanHashFaithful | agent/sap_nexus_agent/conversation_context.py:230-235 | The plan hash names exactly its plan |
| Execution.ParameterTable.ApplyCapabilityDefaults | agent/sap_nexus_agent/orchestrator.py:86-97 | Defaults fill only what the caller left out; stated values stay |
| Execution.AcceptedParametersAreForced | agent/sap_nexus_agent/orchestrator.py:469-576 | For one persisted state preflight accepts only the resolved slots plus the defaults of the day, with nothing pending, and only the principal, snapshot, version and turn of the binding |
| Execution.BindingNamesOnePlan | agent/sap_nexus_agent/conversation_context.py:237-260 | A binding validates at most one plan |
| Execution.PendingBindingNeverPasses | agent/sap_nexus_agent/orchestrator.py:1187-1223 | A binding minted for a state with a pending interaction validates no plan at all |
| Execution.ReadyValuesAreValid | agent/sap_nexus_agent/context_reducer.py:229-256 | Every value of a READY frame passed the semantic check in this very turn |
| Execution.DefaultsAgree | agent/sap_nexus_agent/orchestrator.py:86-97 | Parameters rebuilt on another day agree with the minted ones exactly when no key date was defaulted |
| Execution.MintedPassesExactlyWhen | agent/sap_nexus_agent/orchestrator.py:469-576 | What is minted for a selected turn passes preflight under an unchanged registry exactly when every filled default is a declared input of the declared shape and no defaulted date is out of date |
| PreflightLaws.AcceptedExactly | agent/sap_nexus_agent/orchestrator.py:469-576 | Preflight accepts exactly when the binding was made for this plan and persisted state, principal and snapshot agree, the registry has one active record of this version and one executor that permit it, the slots fill its inputs, and the plan sends exactly what is due today |
| PreflightLaws.MintedPassesUnderAnyRegistry | agent/sap_nexus_agent/orchestrator.py:469-576 | For the plan of a READY turn the same iff under whatever the registry has become |
| OpenItems.PlanPassesOnItsDayOnly | agent/sap_nexus_agent/orchestrator.py:86-97 | The plan minted for a concrete READY turn on open items without a key date passes preflight on the day it was minted and on no other |
| AcceptedRuns.ExecutedParametersAreAccounted | agent/sap_nexus_agent/orchestrator.py:469-576 | For any run, every parameter of a plan that preflight accepts against the state reached is a slot value a turn of the run, or the starting state, accounts for, or a default of the day for a name without a slot |
| Approval.ReachableHistory | agent/sap_nexus_agent/approval.py:213-274 | Whatever is tried on a record, its chain stays linked, append-only, one of five lifecycles and ends in its status; its subject and the correctness of its hash never change |
| Approval.ExecutedAfterApproved | agent/sap_nexus_agent/approval.py:247-274 | Executed exactly when the chain reads pending, approved, executed; executed and rejected records refuse every operation |
| Approval.EveryLifecycleOccurs | agent/sap_nexus_agent/approval.py:247-274 | Each of the five lifecycles is reached from a pending record |
| Approval.ContinueAction | agent/sap_nexus_agent/orchestrator.py:2278-2391 | The calls added to the gateway's log, and the outcome, are those of Conducted; each failure has the error type of the first check it fails |
| Approval.OutcomesExactly | agent/sap_nexus_agent/orchestrator.py:2278-2391 | Every outcome exactly when it is reported, from plan, validation, record and decision, with the calls made and the record left, transition by transition; only a fitting rejection leaves it rejected |
| Approval.RefusalIsFinal | agent/sap_nexus_agent/orchestrator.py:2331-2342 | After a refusal no later attempt on the threaded record calls the gateway, and the record stays rejected |
| Approval.NoExecutionWithoutApproval | agent/sap_nexus_agent/orchestrator.py:2343-2364 | Over any number of actions an execute call stands only right after the registered approval with the same id, capability, parameters and correct hash |
| Approval.ExecutedOnceAndRecorded | agent/sap_nexus_agent/orchestrator.py:2323-2391 | Over any number of actions on one threaded record: at most one execute call, with the record's own capability, parameters, id and hash, none while it is pending, and the record ends executed exactly when that call succeeded |
| Approval.ConductedKeepsHistory | agent/sap_nexus_agent/orchestrator.py:2343-2391 | The record an action leaves is the record it took, moved on by regular transitions |
| Approval.CalledOnce | agent/sap_nexus_agent/orchestrator.py:2278-2391 | A caller that threads the returned record reaches the gateway in one attempt at most |
| Approval.ReplayExecutesTwice | agent/sap_nexus_agent/orchestrator.py:2278-2391 | Replaying the same pending record makes the calls twice: once-only holds per record chain, not across replays |
| Approval.HashPinsParameters | agent/sap_nexus_agent/approval.py:121-129 | The hash sent with an execution belongs to its parameters and to no others |
| SimpleYaml.FindNextContainer | scripts/validate_registry_contract.py:737-744 | The scan yields the kind of container of the next content line after the first line with this text |
| YamlComments.KindExactly | scripts/validate_registry_contract.py:737-744 | A header heads a list exactly when the first visible line after its first occurrence is a list item, and an empty dict when nothing visible follows |
| SimpleYaml.Reader.PopDeeper | scripts/validate_registry_contract.py:698-699 | The stack loses exactly the entries at or beyond the indentation |
| SimpleYaml.Reader.PutField | scripts/validate_registry_contract.py:708-733 | A key gets its scalar, or a fresh container that is pushed, or the call fails, with the whole new state |
| SimpleYaml.Reader.ReadLine | scripts/validate_registry_contract.py:694-733 | One line changes nodes and stack as Step says, including the virtual indentation of a dashed key |
| SimpleYaml.Reader.Parse | scripts/validate_registry_contract.py:688-734 | The mutating parser is ParseLines, for which the round trip is proved |
| YamlLines.ShowReadsBack | scripts/validate_registry_contract.py:754-761 | A plain scalar is read back from its text |
| YamlRoundTrip.DenotesOne | scripts/validate_registry_contract.py:688-734 | The containers built denote at most one document |
| YamlRoundTrip.HeadersAgreeExactly | scripts/validate_registry_contract.py:737-744 | Every header gets the kind its own children need exactly when equal header lines head the same kind |
| YamlInverse.RoundTrip | scripts/validate_registry_contract.py:688-761 | Parsing the canonical printing of a document gives the document back exactly when equal header lines head the same kind, and raises otherwise |
| YamlInverse.EqualHeadersRaise | scripts/validate_registry_contract.py:737-744 | A printable document with two equal headers, one over a map and one over a list, on whose printing the parser raises |
| YamlComments.CommentsAreFree | scripts/validate_registry_contract.py:688-744 | A blank line or a comment, told by its characters, may be put anywhere without changing the parse, error or not |
| YamlComments.CommentedRoundTrip | scripts/validate_registry_contract.py:688-761 | The round trip for every printing with comments and blank lines between its lines |
| YamlComments.TrailingSpaceIsFree | scripts/validate_registry_contract.py:694-699 | White space at the end of a line that is no header changes nothing |
| YamlComments.ColonIsNeeded | scripts/validate_registry_contract.py:747-751 | A visible line that is neither comment nor list item and has no colon stops every parse |
| YamlComments.KeyValueExactly | scripts/validate_registry_contract.py:747-751 | Key and value are what stands before and after the first colon, stripped; without a colon the call raises |
| YamlComments.FieldLineAssigns | scripts/validate_registry_contract.py:724-733 | A `key: value` line sets that key of the innermost open dict, new or not, and leaves everything else as it was |
| YamlComments.SetEntryKeepsOrder | scripts/validate_registry_contract.py:724-733 | Assigning keeps the order in which keys were first inserted |
| YamlComments.NoKeyTwice | scripts/validate_registry_contract.py:688-734 | Whatever text is parsed, no dict of the result has a key twice |
| YamlComments.SplitsExactly | scripts/validate_registry_contract.py:689 | A text is split at every line boundary of `str.splitlines`, and only there |
| ImpactAnalysis.Seeds | agent/sap_nexus_agent/impact_analysis.py:50-63 | The loop collects exactly the capabilities where the change enters |
| ImpactAnalysis.LocalIs | agent/sap_nexus_agent/impact_analysis.py:28-34 | The local name is what stands behind the first colon |
| ImpactAnalysis.Close | agent/sap_nexus_agent/impact_analysis.py:65-80 | Whatever is popped, the worklist visits exactly the capabilities reachable from the seeds and exactly their facts, although it skips facts seen before |
| ImpactAnalysis.Analyze | agent/sap_nexus_agent/impact_analysis.py:43-92 | The report lists, sorted and once each, exactly the reachable capabilities and facts, and the active approvals of these capabilities |
| LikePattern.EscapeFuses | agent/sap_nexus_agent/master_data/provider.py:104-106 | The three sequential replacements amount to one map over the characters |
| LikePattern.EscapingIsExact | agent/sap_nexus_agent/master_data/provider.py:266-273 | Under the like predicate of section 8.5 of ISO/IEC 9075-2 the pattern matches a text exactly when the query stands in it literally, and is never malformed |
| LikePattern.UnescapedIsNotExact | agent/sap_nexus_agent/master_data/provider.py:104-106 | Without escaping that fails |
| Identity.ComputeIdentity | agent/sap_nexus_agent/identity.py:28-50 | The loop feeds the hash the canonical stream of the nonempty identifiers, or refuses an empty type or set |
| Identity.StreamInjective | agent/sap_nexus_agent/identity.py:41-50 | Without NUL, and without `=` in keys, equal streams mean the same type and the same identifiers, in both directions |
| Identity.EqualsInKeyCollides | agent/sap_nexus_agent/identity.py:41-50 | With `=` in a key two different sets share a stream |
| Identity.NulInValueCollides | agent/sap_nexus_agent/identity.py:41-50 | With NUL in a value two different sets share a stream |
| Identity.IdentityRegistry.Resolve | agent/sap_nexus_agent/identity.py:74-99 | Known set, then aliases, then a new identity, with both tables after the call and the two errors |
| Identity.IdentityRegistry.RegisterAlias | agent/sap_nexus_agent/identity.py:101-122 | Refused exactly when something known about the set contradicts the identity, and then nothing changes |
| Identity.IdentityRegistry.IdentityFor | agent/sap_nexus_agent/identity.py:124-130 | The known identity, the only alias hit, none, or a conflict |
| Identity.RunExtends | agent/sap_nexus_agent/identity.py:59-130 | Over any sequence of calls a known set or token never changes its identity |
| Identity.OnceSettledAlwaysDirect | agent/sap_nexus_agent/identity.py:74-99 | A set that was settled once resolves directly to the same identity forever |
| Identity.OwnIdentityExactlyWhen | agent/sap_nexus_agent/identity.py:7-12 | In any run from an empty registry an object gets its own new identity exactly when its set was not settled before and no alias registered before, for whatever type, shares a token with it |
| Identity.ResolutionExactly | agent/sap_nexus_agent/identity.py:74-99 | Every outcome of a resolution exactly when it is returned, told from the calls before: direct, the identity the sharing aliases agree on, a conflict, a new identity or an error |
| Identity.RegistrationExactly | agent/sap_nexus_agent/identity.py:101-122 | A registration is refused exactly when an earlier call settled the set for another identity, or an alias of another identity shares a token |
| Identity.OneAliasedIdentityPerType | agent/sap_nexus_agent/identity.py:68-122 | After the first alias of a type no alias of that type can be registered for another identity |
| Identity.AliasCapturesItsType | agent/sap_nexus_agent/identity.py:68-99 | After it every unknown set of the type resolves to the aliased identity, or conflicts, exactly when its tokens allow |
| Identity.AliasMergesStrangers | agent/sap_nexus_agent/identity.py:7-12 | A concrete run in which a stranger silently gets another object's identity |
| Identity.AliasMergesAcrossTypes | agent/sap_nexus_agent/identity.py:7-12 | A concrete run in which an alias of a customer gives its identity to a supplier with the same tax number |
| Identity.KeySetInjective | agent/sap_nexus_agent/identity.py:67-72 | Token sets of plain inputs are equal exactly when type and nonempty identifiers are |
| Identity.WithoutAliasesIdentitiesAreExact | agent/sap_nexus_agent/identity.py:74-99 | In any run without aliases two inputs share an identity exactly when they have the same type and identifiers |
| Replenishment.ComputeReplenishmentGap | agent/sap_nexus_agent/replenishment.py:86-145 | Gap plus supply is the requirement, the supply is exactly what counts by the date, included and excluded lines are exactly these |
| Replenishment.SupplyIsTotal | agent/sap_nexus_agent/replenishment.py:136 | The supply is the sum of the included lines |
| Replenishment.OneLineMore | agent/sap_nexus_agent/replenishment.py:105-134 | What one more line does: WB always counts, BA and BE count when dated no later than the target and are excluded otherwise, nothing else does anything |
| Replenishment.SupplyIgnoresOrder | agent/sap_nexus_agent/replenishment.py:105-136 | The supply does not depend on the order of the lines |
| Replenishment.LaterTargetIncludesMore | agent/sap_nexus_agent/replenishment.py:117-134 | A later target date only adds included lines and, without negative quantities, only adds supply |
| Replenishment.TextOrderIsCalendarOrder | agent/sap_nexus_agent/replenishment.py:123-124 | Comparing full-date texts (section 5.6 of RFC 3339) compares dates, as section 5.1 promises |
| Replenishment.FormatDenotes | agent/sap_nexus_agent/replenishment.py:44-48 | The rendered text denotes exactly the quantity |
| Replenishment.FormatIsCanonical | agent/sap_nexus_agent/replenishment.py:44-48 | Two quantities have the same text exactly when they are the same number, however many places they were computed with |
| Replenishment.PrepareReplenishmentGap | agent/sap_nexus_agent/orchestrator.py:1625-1738 | Every outcome exactly when it applies, told from plan and reply; a proposal is the same plan with the text of the shortage as quantity and the compared unit |
| Replenishment.ProposalWithinRequirement | agent/sap_nexus_agent/orchestrator.py:1731-1738 | A proposed quantity is positive, and within the requirement exactly when the supply is not negative |
| Replenishment.NegativeStockExceedsRequirement | agent/sap_nexus_agent/orchestrator.py:1729-1737 | With a stock line of minus five, whatever is proposed for a plan for ten is a plan for fifteen |
| Replenishment.FifteenIsProposed | agent/sap_nexus_agent/orchestrator.py:1729-1737 | Such a proposal exists, and its shortage is positive |
| SnapshotStore.ValidateBatch | agent/sap_nexus_agent/master_data/importer.py:76-161 | No error is collected exactly when the batch is publishable: complete, full, self-covering, ruled, valid entities with distinct codes |
| SnapshotStore.ValidateEntities | agent/sap_nexus_agent/master_data/importer.py:113-160 | No error is collected exactly when every entity is valid and all codes are distinct |
| SnapshotStore.Store.ImportSnapshot | agent/sap_nexus_agent/master_data/importer.py:171-264 | The committed tables after an import cut off after any number of statements: untouched, or those of the whole transaction |
| SnapshotLaws.RunExactly | agent/sap_nexus_agent/master_data/importer.py:219-252 | The inserts succeed exactly when no primary key repeats or is taken, and every check and foreign key holds; then they add just these rows |
| SnapshotLaws.PublishedExactlyWhen | agent/sap_nexus_agent/master_data/importer.py:202-264 | A publishable batch is published exactly when its snapshot id is new and no entity lists a language, alias or scope twice |
| SnapshotLaws.PublishedSnapshots | agent/sap_nexus_agent/master_data/importer.py:253-261 | The new snapshot is active, the active one of the same coverage superseded, every other one untouched |
| SnapshotLaws.TablesAreTheirPublications | agent/sap_nexus_agent/master_data/importer.py:171-264 | After any run the tables are those of its publications replayed alone: errors, dry runs, lost connections, violations and repetitions leave no trace |
| SnapshotLaws.OneActiveSnapshot | db/migrations/0001_master_data.sql:18-40 | Over any run at most one snapshot of a coverage is active and none is left loading |
| SnapshotLaws.ReplacedView | db/migrations/0001_master_data.sql:119-149 | After a publication readers of the coverage see exactly its rows and other coverages see what they saw |
| SnapshotLaws.ReadersSeeLastPublished | master-data/README.md:101-105 | Over any run readers of a coverage see one whole batch: the document published last |
| SnapshotRows.ReadersSeeTheDocument | agent/sap_nexus_agent/master_data/importer.py:219-252 | Over any run readers see exactly what the document published last says of each entity, description, alias and scope, field by field |
| SnapshotRows.VisibleRowsObeyTheirRule | agent/sap_nexus_agent/master_data/importer.py:113-160 | Over any run every visible row obeys the rule of its object type |
| SnapshotRows.OneOfficialName | agent/sap_nexus_agent/master_data/importer.py:130-141 | Over any run every visible entity has exactly one official description |
| SnapshotRows.SnapshotOfTheDocument | agent/sap_nexus_agent/master_data/importer.py:202-218 | A publication adds exactly one snapshot row: coverage, hash and extraction time of the batch, active |
| SnapshotRows.AcceptedBatch | agent/sap_nexus_agent/master_data/importer.py:76-112 | An import without errors was given a complete full batch that covers itself, of a known type, with distinct codes |
| SnapshotRows.ReportsWhatItReplaces | agent/sap_nexus_agent/master_data/importer.py:186-264 | A completed import names its snapshot, its number of entities, and exactly the snapshot it supersedes |
| SnapshotRows.SnapshotIdExactly | agent/sap_nexus_agent/master_data/importer.py:181 | Without a colon in system and client a snapshot id names its coverage and hash prefix |
| SnapshotRows.ColonsCollide | agent/sap_nexus_agent/master_data/importer.py:181 | With a colon two coverages can share an id |
| SnapshotLaws.RepetitionIsNoOp | agent/sap_nexus_agent/master_data/importer.py:186-194 | An import is reported as a repetition exactly when its content hash is the one in force for the coverage, and then changes nothing |
| SnapshotLaws.SupersededContentNeverReturns | master-data/README.md:97 | Content that is no longer in force is never published again; every such import raises, while its dry run reports no error |
| SnapshotLaws.RollbackRuns | master-data/README.md:97 | A concrete run: two exports published one over the other, the first one again as a dry run without error, and in earnest, which raises |
| SnapshotLaws.RollbackIsRefused | master-data/README.md:97 | However patient the connection, that run can end in no other way |
| SnapshotLaws.PublishedInRunExactlyWhen | agent/sap_nexus_agent/master_data/importer.py:202-264 | In any run an import of a publishable batch on a connection that lasts is published exactly when no earlier import published the same snapshot id and nothing is listed twice |
| Expansion.Product | agent/sap_nexus_agent/orchestrator.py:173 | Entry i of the product picks the mixed-radix digits of i, the last pool fastest |
| Expansion.ExpandCombinations | agent/sap_nexus_agent/orchestrator.py:159-177 | As many combinations as choices; combination i is the base outside the multi keys and the values picked by the digits of i on them |
| Expansion.ExactlyTheReadings | agent/sap_nexus_agent/orchestrator.py:159-177 | The combinations are exactly the single-valued readings of the request |
| Expansion.EveryChoiceOccurs | agent/sap_nexus_agent/orchestrator.py:173-176 | Every choice of positions stands at the index it ranks |
| Expansion.NoCombinationTwice | agent/sap_nexus_agent/orchestrator.py:159-177 | Combinations are pairwise distinct exactly when no list repeats a value, or a list is empty |

## Left out

- Regular expressions, Chinese keywords and semantic validity: extraction hits are inputs, and `is_semantically_valid` and the SHACL shape check are arbitrary predicates; mint and accept agreement assumes that the shape check accepts what the reducer accepts.
- SHA-256: an arbitrary function, assumed free of collisions where a lemma says so.
- The text of timestamps: an instant is a number of microseconds with an offset, only offset 0 passes the constructors, and persistence takes any clock that reads back what it shows; years beyond 9999 do not occur.
- Duplicate input names, and frames whose established slots do not fit the catalog, such as after a descriptor changed its inputs: with them a READY frame can carry a cleared optional slot and its constructor raises. Migrated slots need not fit.
- Old contexts that do not decode strictly (`_legacy_last_context`) are an absent context.
- The extra candidates added by rules in `build_read_context_candidates`, the entity resolution service, and `_verify_explicit_identifier_slots`: their results are arbitrary candidates and choice sets of a turn.
- The branches of `_resolve_non_slot_pending` that all drop the pending interaction are one step; whether a reply confirms a plan is an input.
- LoadedStateIsStable: covers dicts whose numbers and texts have the types the code itself writes; `int(...)` and `str(...)` of other values are refused in the model, and errors of wrong types count as `ValueError`.
- The order in which dicts list slots matters for no result; it is an arbitrary parameter of the round trip.
- Digits outside ASCII in the registry parser's scalars, and reading the file itself.
- ComputeReplenishmentGap: quantities are exact; the 28 digits of Python's decimal context and the decimals NaN and Infinity are not modelled, and which texts Python reads as numbers is a parameter.
- Trimming and upper-casing of MRP indicators, labels and the explanatory text of a gap calculation.
- ImportSnapshot: imports are serial, cut off after any statement; extra keys of a batch document, and descriptions, aliases or scopes that are no objects (on which the original raises), are not modelled.
- Case folding in the database maps one character to one character, as a parameter of the like predicate.
- The WRITE approval's expiry (`is_expired`), its trace file and its time-to-live setting; continuing an action does not consult the expiry.
- ContinueAction: narration after a completed action is not modelled; it changes neither the record nor the log.
- IssuesExactly: says, as EvidenceExactly does, what a turn reports and not in which order; the order is that of the method ReduceContext.
- The planner, `SelectionExecutionBinding`, `search` staging and ranking, building the impact graph from files, rerank, recall, HTTP, CLI and the Next frontend.
