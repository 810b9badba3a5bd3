/** Pending interactions, entity choice sets and whole conversation states in JSON, and exactly which of them
    come back as they were written. */
module StatePersistence {
  import opened Basics
  import opened CanonicalJson
  import opened ReadContext
  import opened Persistence

  // ---------------------------------------------------------------- planner goals

  type Pairs = seq<(string, string)>

  function PairFields(pairs: Pairs): Fields {
    seq(|pairs|, i requires 0 <= i < |pairs| => (pairs[i].0, JString(pairs[i].1)))
  }

  /** Every entry of a dict of texts, in its order. */
  function PairsOf(fields: Fields, read: Json -> Result<string>): Result<Pairs> {
    if fields == [] then Ok([])
    else
      var before :- PairsOf(fields[..|fields| - 1], read);
      var name :- NonEmpty(JString(fields[|fields| - 1].0));
      var value :- read(fields[|fields| - 1].1);
      Ok(before + [(name, value)])
  }

  lemma {:induction false} PairsRead(pairs: Pairs, read: Json -> Result<string>)
    requires forall i :: 0 <= i < |pairs| ==> pairs[i].0 != "" && read(JString(pairs[i].1)) == Ok(pairs[i].1)
    ensures PairsOf(PairFields(pairs), read) == Ok(pairs)
  {
    if pairs != [] {
      var n := |pairs| - 1;
      PairsRead(pairs[..n], read);
      assert PairFields(pairs)[..n] == PairFields(pairs[..n]);
      assert pairs == pairs[..n] + [pairs[n]];
    }
  }

  function GoalFields(g: PlannerGoal): Fields {
    [("capabilityId", JString(g.capabilityId)), ("parameters", JObject(PairFields(g.parameters))), ("missing", TextList(g.missing))]
  }

  function GoalToDict(g: PlannerGoal): Json { JObject(GoalFields(g)) }

  ghost function BuiltGoal(g: PlannerGoal): Result<PlannerGoal> { if g.Valid() then Ok(g) else Raise("ValueError") }

  ghost function GoalFromDict(j: Json): Result<PlannerGoal> {
    var raw :- Object(j);
    if NamesOf(raw) != {"capabilityId", "parameters", "missing"} then Raise("ValueError")
    else
      var rawParameters :- Object(Get(raw, "parameters", JNull));
      var capabilityId :- NonEmpty(Get(raw, "capabilityId", JNull));
      var parameters :- PairsOf(rawParameters, NonEmpty);
      var missing :- Strings(Get(raw, "missing", JNull));
      BuiltGoal(PlannerGoal(capabilityId, parameters, missing))
  }

  lemma GoalFieldsRead(g: PlannerGoal)
    ensures var raw := GoalFields(g);
            && NamesOf(raw) == {"capabilityId", "parameters", "missing"}
            && Get(raw, "capabilityId", JNull) == JString(g.capabilityId)
            && Get(raw, "parameters", JNull) == JObject(PairFields(g.parameters))
            && Get(raw, "missing", JNull) == TextList(g.missing)
  {
    hide Get, TextList, PairFields;
    var raw := GoalFields(g);
    GetAt(raw, 0, JNull);
    GetAt(raw, 1, JNull);
    GetAt(raw, 2, JNull);
    assert raw[0].0 in NamesOf(raw) && raw[1].0 in NamesOf(raw) && raw[2].0 in NamesOf(raw);
  }

  lemma GoalRoundTrip(g: PlannerGoal)
    requires g.Valid()
    ensures GoalFromDict(GoalToDict(g)) == Ok(g)
  {
    GoalFieldsRead(g);
    PairsRead(g.parameters, NonEmpty);
    StringsOf(g.missing);
    hide Get, GoalFields, NamesOf, PairFields, PairsOf, Strings, TextList;
  }

  // ---------------------------------------------------------------- candidate views

  function Position(pairs: Pairs, key: string): (i: nat)
    ensures i <= |pairs| && (i < |pairs| ==> pairs[i].0 == key)
    ensures forall j :: 0 <= j < i ==> pairs[j].0 != key
  {
    if pairs == [] || pairs[0].0 == key then 0 else 1 + Position(pairs[1..], key)
  }

  /** `dict(pairs)`: a repeated key keeps its place and takes the last value. */
  function DictOf(pairs: Pairs): Pairs {
    if pairs == [] then []
    else
      var dict, last := DictOf(pairs[..|pairs| - 1]), pairs[|pairs| - 1];
      var i := Position(dict, last.0);
      if i < |dict| then dict[i := last] else dict + [last]
  }

  ghost predicate DistinctKeys(pairs: Pairs) { forall i, j :: 0 <= i < j < |pairs| ==> pairs[i].0 != pairs[j].0 }

  lemma {:induction false} DictOfDistinct(pairs: Pairs)
    ensures DistinctKeys(DictOf(pairs))
    ensures forall i :: 0 <= i < |DictOf(pairs)| ==> DictOf(pairs)[i] in pairs
  {
    if pairs != [] {
      var before := pairs[..|pairs| - 1];
      DictOfDistinct(before);
      assert forall p :: p in before ==> p in pairs;
    }
  }

  lemma {:induction false} DictOfDistinctKeys(pairs: Pairs)
    requires DistinctKeys(pairs)
    ensures DictOf(pairs) == pairs
  {
    if pairs != [] {
      DictOfDistinctKeys(pairs[..|pairs| - 1]);
    }
  }

  lemma PairFieldsDistinct(pairs: Pairs)
    requires DistinctKeys(pairs)
    ensures KeysDistinct(PairFields(pairs))
  {}

  /** The distinguishing attributes stand in the order of their keys, each key once: the order in which the
      resolution service builds them. */
  ghost predicate KeySorted(pairs: Pairs) { forall i, j :: 0 <= i < j < |pairs| ==> Before(pairs[i].0, pairs[j].0) }

  lemma {:induction false} SortSorted(fields: Fields)
    requires FieldsAscending(fields)
    ensures SortFields(fields) == fields
  {
    if fields != [] {
      SortSorted(fields[1..]);
      assert fields[1..] != [] ==> Before(fields[0].0, fields[1..][0].0);
    }
  }

  /** What the distinguishing attributes are after being written and read. */
  ghost predicate Reread(fields: Fields, pairs: Pairs) { PairsOf(SortFields(fields), Text) == Ok(pairs) }

  lemma PairKey(fields: Fields, pairs: Pairs, read: Json -> Result<string>, i: nat)
    requires PairsOf(fields, read) == Ok(pairs) && i < |fields|
    ensures |pairs| == |fields| && pairs[i].0 == fields[i].0 && pairs[i].0 != ""
    decreases |fields|
  {
    if i < |fields| - 1 {
      var before := PairsOf(fields[..|fields| - 1], read).value;
      PairKey(fields[..|fields| - 1], before, read, i);
    } else if |fields| > 1 {
      var before := PairsOf(fields[..|fields| - 1], read).value;
      PairKey(fields[..|fields| - 1], before, read, 0);
    }
  }

  lemma NoPairs(pairs: Pairs, read: Json -> Result<string>)
    requires PairsOf([], read) == Ok(pairs)
    ensures pairs == []
  {}

  /** Whatever dict is read, its attributes come out key-sorted. */
  lemma RereadIsSorted(fields: Fields, pairs: Pairs)
    requires KeysDistinct(fields) && Reread(fields, pairs)
    ensures KeySorted(pairs)
  {
    SortAscending(fields);
    var sorted := SortFields(fields);
    if sorted == [] {
      NoPairs(pairs, Text);
    } else {
      PairKey(sorted, pairs, Text, 0);
      forall i, j | 0 <= i < j < |pairs| ensures Before(pairs[i].0, pairs[j].0) {
        PairKey(sorted, pairs, Text, i);
        PairKey(sorted, pairs, Text, j);
      }
    }
  }

  lemma SortedRereads(pairs: Pairs)
    requires KeySorted(pairs) && forall i :: 0 <= i < |pairs| ==> pairs[i].0 != ""
    ensures DictOf(pairs) == pairs && Reread(PairFields(pairs), pairs)
  {
    forall i, j | 0 <= i < j < |pairs| ensures pairs[i].0 != pairs[j].0 { BeforeIrreflexive(pairs[i].0); }
    DictOfDistinctKeys(pairs);
    SortSorted(PairFields(pairs));
    PairsRead(pairs, Text);
  }

  function StatusName(s: EntityStatus): string { if s == ACTIVE then "active" else "inactive" }

  function StatusNamed(t: string): Result<EntityStatus> {
    if t == "active" then Ok(ACTIVE) else if t == "inactive" then Ok(INACTIVE) else Raise("ValueError")
  }

  function ScopeToDict(s: (string, string)): Json { JObject([("field", JString(s.0)), ("value", JString(s.1))]) }

  function ScopeFromDict(j: Json): Result<(string, string)> {
    var raw :- Object(j);
    var field :- Text(Get(raw, "field", JNull));
    var value :- Text(Get(raw, "value", JNull));
    Ok((field, value))
  }

  lemma ScopeRoundTrip(s: (string, string))
    ensures ScopeFromDict(ScopeToDict(s)) == Ok(s)
  {
    var raw := ScopeToDict(s).fields;
    GetAt(raw, 0, JNull);
    GetAt(raw, 1, JNull);
  }

  function ScopesJson(scopes: Pairs): Json { JList(seq(|scopes|, i requires 0 <= i < |scopes| => ScopeToDict(scopes[i]))) }

  lemma ScopesRead(scopes: Pairs)
    ensures List(ScopesJson(scopes), ScopeFromDict) == Ok(scopes)
  {
    forall i | 0 <= i < |scopes| ensures ScopeFromDict(ScopesJson(scopes).items[i]) == Ok(scopes[i]) { ScopeRoundTrip(scopes[i]); }
    hide ScopeFromDict, ScopeToDict;
    MapAllOf(ScopesJson(scopes).items, ScopeFromDict, scopes);
  }

  function ViewFields(v: CandidateView): Fields {
    [("index", JInt(v.index)), ("canonicalCode", JString(v.canonicalCode)), ("displayName", JString(v.displayName)),
     ("distinguishing", JObject(PairFields(DictOf(v.distinguishing)))), ("matchKind", JString(v.matchKind)),
     ("status", JString(StatusName(v.status))), ("orgScopes", ScopesJson(v.orgScopes))]
  }

  function ViewToDict(v: CandidateView): Json { JObject(ViewFields(v)) }

  function BuiltView(v: CandidateView): Result<CandidateView> { if v.Valid() then Ok(v) else Raise("ValueError") }

  function ViewFromDict(j: Json): Result<CandidateView> {
    var raw :- Object(j);
    var distinguishing :- Object(Or(Get(raw, "distinguishing", JNull), JObject([])));
    var index :- Integer(Get(raw, "index", JInt(0)));
    var code :- NonEmpty(Get(raw, "canonicalCode", JNull));
    var displayName :- Text(Or(Get(raw, "displayName", JNull), JString("")));
    var pairs :- PairsOf(SortFields(distinguishing), Text);
    var matchKind :- Text(Or(Get(raw, "matchKind", JNull), JString("")));
    var statusText :- NonEmpty(Get(raw, "status", JNull));
    var status :- StatusNamed(statusText);
    var scopes :- List(Or(Get(raw, "orgScopes", JNull), JList([])), ScopeFromDict);
    BuiltView(CandidateView(index, code, displayName, pairs, matchKind, status, scopes))
  }

  lemma ViewFieldsRead(v: CandidateView)
    ensures var raw := ViewFields(v);
            && Get(raw, "index", JInt(0)) == JInt(v.index) && Get(raw, "canonicalCode", JNull) == JString(v.canonicalCode)
            && Get(raw, "displayName", JNull) == JString(v.displayName)
            && Get(raw, "distinguishing", JNull) == JObject(PairFields(DictOf(v.distinguishing)))
            && Get(raw, "matchKind", JNull) == JString(v.matchKind)
            && Get(raw, "status", JNull) == JString(StatusName(v.status))
            && Get(raw, "orgScopes", JNull) == ScopesJson(v.orgScopes)
  {
    hide Get, PairFields, DictOf, StatusName, ScopesJson;
    var raw := ViewFields(v);
    GetAt(raw, 0, JInt(0));
    GetAt(raw, 1, JNull);
    GetAt(raw, 2, JNull);
    GetAt(raw, 3, JNull);
    GetAt(raw, 4, JNull);
    GetAt(raw, 5, JNull);
    GetAt(raw, 6, JNull);
  }

  /** A candidate view comes back exactly when its attributes are key-sorted. */
  lemma ViewRoundTrip(v: CandidateView)
    requires v.Valid()
    ensures ViewFromDict(ViewToDict(v)) == Ok(v) <==> KeySorted(v.distinguishing)
  {
    ViewFieldsRead(v);
    ScopesRead(v.orgScopes);
    assert StatusNamed(StatusName(v.status)) == Ok(v.status) && StatusName(v.status) != "";
    DictOfDistinct(v.distinguishing);
    PairFieldsDistinct(DictOf(v.distinguishing));
    if KeySorted(v.distinguishing) { SortedRereads(v.distinguishing); }
    OrKeeps(v.displayName, PairFields(DictOf(v.distinguishing)), ScopesJson(v.orgScopes).items);
    OrKeeps(v.matchKind, [], []);
    hide Or, Falsy, KeySorted, Get, ViewFields, StatusName, StatusNamed, ScopesJson, List, SortFields, PairFields, PairsOf, DictOf, KeysDistinct;
    if ViewFromDict(ViewToDict(v)) == Ok(v) {
      RereadIsSorted(PairFields(DictOf(v.distinguishing)), v.distinguishing);
    }
  }

  /** Every candidate view that is read is key-sorted. */
  lemma ViewReadIsSorted(j: Json)
    requires WellFormed(j) && ViewFromDict(j).Ok?
    ensures KeySorted(ViewFromDict(j).value.distinguishing) && ViewFromDict(j).value.Valid()
  {
    WellFormedField(j.fields, "distinguishing", JNull);
    RereadIsSorted(Or(Get(j.fields, "distinguishing", JNull), JObject([])).fields, ViewFromDict(j).value.distinguishing);
  }

  lemma {:induction false} WellFormedField(fields: Fields, key: string, default: Json)
    requires WellFormed(default) && forall i :: 0 <= i < |fields| ==> WellFormed(fields[i].1)
    ensures WellFormed(Get(fields, key, default))
  {
    if fields != [] && fields[0].0 != key { WellFormedField(fields[1..], key, default); }
  }

  // ---------------------------------------------------------------- choice sets

  /** How instants are written and read; the texts themselves are not modelled. */
  datatype Clock = Clock(show: Timestamp -> string, read: string -> Option<Timestamp>)

  ghost predicate Exact(clock: Clock) {
    forall t: Timestamp :: t.IsUtcIso() ==> clock.show(t) != "" && clock.read(clock.show(t)) == Some(t)
  }

  function TimeOf(clock: Clock, j: Json): Result<Timestamp> {
    var text :- NonEmpty(j);
    if clock.read(text).Some? then Ok(clock.read(text).value) else Raise("ValueError")
  }

  lemma TimeRead(clock: Clock, t: Timestamp)
    requires Exact(clock) && t.IsUtcIso()
    ensures TimeOf(clock, JString(clock.show(t))) == Ok(t)
  {}

  function ViewsJson(views: seq<CandidateView>): Json { JList(seq(|views|, i requires 0 <= i < |views| => ViewToDict(views[i]))) }

  ghost predicate ViewsSorted(views: seq<CandidateView>) { forall i :: 0 <= i < |views| ==> KeySorted(views[i].distinguishing) }

  lemma {:induction false} MapAllAt<T>(items: seq<Json>, read: Json -> Result<T>, i: nat)
    requires MapAll(items, read).Ok? && i < |items|
    ensures |MapAll(items, read).value| == |items| && read(items[i]) == Ok(MapAll(items, read).value[i])
  {
    var n := |items| - 1;
    if i < n {
      MapAllAt(items[..n], read, i);
    } else if n > 0 {
      MapAllAt(items[..n], read, 0);
    }
  }

  lemma ViewsRead(views: seq<CandidateView>)
    requires forall i :: 0 <= i < |views| ==> views[i].Valid()
    ensures List(ViewsJson(views), ViewFromDict) == Ok(views) <==> ViewsSorted(views)
  {
    var items := ViewsJson(views).items;
    forall i | 0 <= i < |views| ensures ViewFromDict(items[i]) == Ok(views[i]) <==> KeySorted(views[i].distinguishing) {
      ViewRoundTrip(views[i]);
    }
    hide ViewFromDict, ViewToDict, KeySorted;
    if ViewsSorted(views) { MapAllOf(items, ViewFromDict, views); }
    if MapAll(items, ViewFromDict) == Ok(views) {
      forall i | 0 <= i < |views| ensures ViewFromDict(items[i]) == Ok(views[i]) { MapAllAt(items, ViewFromDict, i); }
    }
  }

  function ChoiceFields(clock: Clock, c: EntityChoiceSet): Fields {
    [("candidateSetId", JString(c.candidateSetId)), ("objectType", JString(c.objectType)),
     ("targetCapabilityId", JString(c.targetCapabilityId)), ("targetSlot", JString(c.targetSlot)), ("mention", JString(c.mention)),
     ("candidates", ViewsJson(c.candidates)), ("snapshotId", JString(c.snapshotId)), ("provider", JString(c.provider)),
     ("createdAt", JString(clock.show(c.createdAt))), ("expiresAt", JString(clock.show(c.expiresAt))),
     ("principalId", JString(c.principalId)), ("registrySnapshotId", JString(c.registrySnapshotId)),
     ("sourceExtractedAt", Optional(c.sourceExtractedAt))]
  }

  function ChoiceToDict(clock: Clock, c: EntityChoiceSet): Json { JObject(ChoiceFields(clock, c)) }

  function BuiltChoice(c: EntityChoiceSet): Result<EntityChoiceSet> { if c.Valid() then Ok(c) else Raise("ValueError") }

  function ChoiceFromDict(clock: Clock, j: Json): Result<EntityChoiceSet> {
    var raw :- Object(j);
    var setId :- NonEmpty(Get(raw, "candidateSetId", JNull));
    var objectType :- NonEmpty(Get(raw, "objectType", JNull));
    var capability :- NonEmpty(Get(raw, "targetCapabilityId", JNull));
    var slot :- NonEmpty(Get(raw, "targetSlot", JNull));
    var mention :- Text(Or(Get(raw, "mention", JNull), JString("")));
    var views :- List(Get(raw, "candidates", JNull), ViewFromDict);
    var snapshot :- NonEmpty(Get(raw, "snapshotId", JNull));
    var provider :- Text(Or(Get(raw, "provider", JNull), JString("")));
    var created :- TimeOf(clock, Get(raw, "createdAt", JNull));
    var expires :- TimeOf(clock, Get(raw, "expiresAt", JNull));
    var principal :- NonEmpty(Get(raw, "principalId", JNull));
    var registry :- NonEmpty(Get(raw, "registrySnapshotId", JNull));
    var extracted :- OptionalText(Or(Get(raw, "sourceExtractedAt", JNull), JNull));
    BuiltChoice(EntityChoiceSet(setId, objectType, capability, slot, mention, views, snapshot, provider, created, expires,
                                principal, registry, extracted))
  }

  lemma ChoiceTargetRead(clock: Clock, c: EntityChoiceSet)
    ensures var raw := ChoiceFields(clock, c);
            && Get(raw, "candidateSetId", JNull) == JString(c.candidateSetId)
            && Get(raw, "objectType", JNull) == JString(c.objectType)
            && Get(raw, "targetCapabilityId", JNull) == JString(c.targetCapabilityId)
            && Get(raw, "targetSlot", JNull) == JString(c.targetSlot)
  {
    hide Get, ViewsJson, Optional;
    var raw := ChoiceFields(clock, c);
    GetAt(raw, 0, JNull);
    GetAt(raw, 1, JNull);
    GetAt(raw, 2, JNull);
    GetAt(raw, 3, JNull);
  }

  lemma ChoiceContentRead(clock: Clock, c: EntityChoiceSet)
    ensures var raw := ChoiceFields(clock, c);
            && Get(raw, "mention", JNull) == JString(c.mention)
            && Get(raw, "candidates", JNull) == ViewsJson(c.candidates)
            && Get(raw, "snapshotId", JNull) == JString(c.snapshotId)
            && Get(raw, "provider", JNull) == JString(c.provider)
  {
    hide Get, ViewsJson, Optional;
    var raw := ChoiceFields(clock, c);
    GetAt(raw, 4, JNull);
    GetAt(raw, 5, JNull);
    GetAt(raw, 6, JNull);
    GetAt(raw, 7, JNull);
  }

  lemma ChoiceOriginRead(clock: Clock, c: EntityChoiceSet)
    ensures var raw := ChoiceFields(clock, c);
            && Get(raw, "createdAt", JNull) == JString(clock.show(c.createdAt))
            && Get(raw, "expiresAt", JNull) == JString(clock.show(c.expiresAt))
            && Get(raw, "principalId", JNull) == JString(c.principalId)
            && Get(raw, "registrySnapshotId", JNull) == JString(c.registrySnapshotId)
            && Get(raw, "sourceExtractedAt", JNull) == Optional(c.sourceExtractedAt)
  {
    hide Get, ViewsJson, Optional;
    var raw := ChoiceFields(clock, c);
    GetAt(raw, 8, JNull);
    GetAt(raw, 9, JNull);
    GetAt(raw, 10, JNull);
    GetAt(raw, 11, JNull);
    GetAt(raw, 12, JNull);
  }

  /** The form in which the service issues choice sets: sorted attributes, and no empty extraction time. */
  ghost predicate ChoiceInForm(c: EntityChoiceSet) { ViewsSorted(c.candidates) && c.sourceExtractedAt != Some("") }

  /** A choice set comes back exactly when it is in the form in which the service issues it. */
  lemma ChoiceRoundTrip(clock: Clock, c: EntityChoiceSet)
    requires Exact(clock) && c.Valid()
    ensures ChoiceFromDict(clock, ChoiceToDict(clock, c)) == Ok(c) <==> ChoiceInForm(c)
  {
    ChoiceTargetRead(clock, c);
    ChoiceContentRead(clock, c);
    ChoiceOriginRead(clock, c);
    OrKeeps(c.mention, [], []);
    OrKeeps(c.provider, [], []);
    TimeRead(clock, c.createdAt);
    TimeRead(clock, c.expiresAt);
    ViewsRead(c.candidates);
    assert OptionalText(Or(Optional(c.sourceExtractedAt), JNull)) ==
           Ok(if c.sourceExtractedAt == Some("") then None else c.sourceExtractedAt);
    hide Get, ChoiceFields, TimeOf, List, ViewsJson, ViewsSorted, Or, Falsy, OptionalText, Optional, EntityChoiceSet.Valid;
  }

  lemma ViewsReadSorted(j: Json)
    requires WellFormed(j) && List(j, ViewFromDict).Ok?
    ensures ViewsSorted(List(j, ViewFromDict).value)
  {
    hide ViewFromDict, KeySorted;
    forall i | 0 <= i < |MapAll(j.items, ViewFromDict).value| ensures KeySorted(MapAll(j.items, ViewFromDict).value[i].distinguishing) {
      if j.items != [] {
        MapAllAt(j.items, ViewFromDict, 0);
        MapAllAt(j.items, ViewFromDict, i);
        ViewReadIsSorted(j.items[i]);
      }
    }
  }

  lemma ChoiceParts(clock: Clock, j: Json)
    requires ChoiceFromDict(clock, j).Ok?
    ensures var c := ChoiceFromDict(clock, j).value;
            && c.Valid() && List(Get(j.fields, "candidates", JNull), ViewFromDict) == Ok(c.candidates)
            && OptionalText(Or(Get(j.fields, "sourceExtractedAt", JNull), JNull)) == Ok(c.sourceExtractedAt)
  {
    hide Get, TimeOf, List, Or, Falsy, ViewFromDict, NonEmpty, OptionalText, Text, EntityChoiceSet.Valid;
  }

  lemma ChoiceReadInForm(clock: Clock, j: Json)
    requires WellFormed(j) && ChoiceFromDict(clock, j).Ok?
    ensures ChoiceInForm(ChoiceFromDict(clock, j).value) && ChoiceFromDict(clock, j).value.Valid()
  {
    ChoiceParts(clock, j);
    WellFormedField(j.fields, "candidates", JNull);
    ViewsReadSorted(Get(j.fields, "candidates", JNull));
    hide Get, ChoiceFromDict, List, ViewsSorted, EntityChoiceSet.Valid;
  }

  // ---------------------------------------------------------------- pending interactions

  function KindText(k: PendingKind): string {
    match k
    case SLOT_CLARIFICATION => "SLOT_CLARIFICATION"
    case CAPABILITY_CHOICE => "CAPABILITY_CHOICE"
    case BATCH_CONFIRMATION => "BATCH_CONFIRMATION"
    case PLANNER_CONFIRMATION => "PLANNER_CONFIRMATION"
    case ENTITY_CHOICE => "ENTITY_CHOICE"
  }

  function KindOf(t: string): Result<PendingKind> {
    if t == "SLOT_CLARIFICATION" then Ok(SLOT_CLARIFICATION)
    else if t == "CAPABILITY_CHOICE" then Ok(CAPABILITY_CHOICE)
    else if t == "BATCH_CONFIRMATION" then Ok(BATCH_CONFIRMATION)
    else if t == "PLANNER_CONFIRMATION" then Ok(PLANNER_CONFIRMATION)
    else if t == "ENTITY_CHOICE" then Ok(ENTITY_CHOICE)
    else Raise("ValueError")
  }

  const COMMON := {"kind", "frameId", "stateVersion", "registrySnapshotId", "expiresAt"}

  function PayloadNames(k: PendingKind): set<string> {
    match k
    case SLOT_CLARIFICATION => {"expectedFields"}
    case CAPABILITY_CHOICE => {"capabilityIds"}
    case BATCH_CONFIRMATION => {"batchRef"}
    case PLANNER_CONFIRMATION => {"plannerRef", "plannerGoals"}
    case ENTITY_CHOICE => {"expectedFields", "entityChoice"}
  }

  function GoalsJson(goals: seq<PlannerGoal>): Json { JList(seq(|goals|, i requires 0 <= i < |goals| => GoalToDict(goals[i]))) }

  function PayloadFields(clock: Clock, p: Pending): Fields {
    match p.kind
    case SLOT_CLARIFICATION => [("expectedFields", TextList(p.expectedFields))]
    case CAPABILITY_CHOICE => [("capabilityIds", TextList(p.capabilityIds))]
    case BATCH_CONFIRMATION => [("batchRef", Optional(p.batchRef))]
    case PLANNER_CONFIRMATION => [("plannerRef", Optional(p.plannerRef)), ("plannerGoals", GoalsJson(p.plannerGoals))]
    case ENTITY_CHOICE =>
      [("expectedFields", TextList(p.expectedFields)),
       ("entityChoice", if p.entityChoice.Some? then ChoiceToDict(clock, p.entityChoice.value) else JNull)]
  }

  function PendingFields(clock: Clock, p: Pending): Fields {
    [("kind", JString(KindText(p.kind))), ("frameId", JString(p.frameId)), ("stateVersion", JInt(p.stateVersion)),
     ("registrySnapshotId", JString(p.registrySnapshotId)), ("expiresAt", JString(clock.show(p.expiresAt)))]
    + PayloadFields(clock, p)
  }

  function PendingToDict(clock: Clock, p: Pending): Json { JObject(PendingFields(clock, p)) }

  ghost function BuiltPending(p: Pending): Result<Pending> { if p.Valid() then Ok(p) else Raise("ValueError") }

  function ChoiceOf(clock: Clock, j: Json): Result<Option<EntityChoiceSet>> {
    if !j.JObject? then Ok(None)
    else
      var choice :- ChoiceFromDict(clock, j);
      Ok(Some(choice))
  }

  ghost function PendingFromDict(clock: Clock, j: Json): Result<Pending> {
    var raw :- Object(j);
    var kindText :- Text(Get(raw, "kind", JNull));
    var kind :- KindOf(kindText);
    if NamesOf(raw) != COMMON + PayloadNames(kind) then Raise("ValueError")
    else
      var frameId :- NonEmpty(Get(raw, "frameId", JNull));
      var version :- Integer(Get(raw, "stateVersion", JNull));
      var snapshot :- NonEmpty(Get(raw, "registrySnapshotId", JNull));
      var expires :- TimeOf(clock, Get(raw, "expiresAt", JNull));
      var expected :- Strings(Get(raw, "expectedFields", JList([])));
      var capabilities :- Strings(Get(raw, "capabilityIds", JList([])));
      var batchRef :- OptionalText(Get(raw, "batchRef", JNull));
      var plannerRef :- OptionalText(Get(raw, "plannerRef", JNull));
      var goals :- List(Get(raw, "plannerGoals", JList([])), GoalFromDict);
      var choice :- ChoiceOf(clock, Get(raw, "entityChoice", JNull));
      BuiltPending(Pending(kind, frameId, version, snapshot, expires, expected, capabilities, batchRef, plannerRef, goals, choice))
  }

  lemma {:induction false} GetPast(a: Fields, b: Fields, key: string, default: Json)
    requires forall i :: 0 <= i < |a| ==> a[i].0 != key
    ensures Get(a + b, key, default) == Get(b, key, default)
  {
    if a == [] {
      assert a + b == b;
    } else {
      assert (a + b)[0] == a[0] && (a + b)[1..] == a[1..] + b;
      GetPast(a[1..], b, key, default);
    }
  }

  lemma NamesAppend(a: Fields, b: Fields)
    ensures NamesOf(a + b) == NamesOf(a) + NamesOf(b)
  {
    forall k | k in NamesOf(a) + NamesOf(b) ensures k in NamesOf(a + b) {
      if k in NamesOf(a) {
        var i :| 0 <= i < |a| && a[i].0 == k;
        assert (a + b)[i].0 == k;
      } else {
        var i :| 0 <= i < |b| && b[i].0 == k;
        assert (a + b)[|a| + i].0 == k;
      }
    }
  }

  function CommonFields(clock: Clock, p: Pending): Fields {
    [("kind", JString(KindText(p.kind))), ("frameId", JString(p.frameId)), ("stateVersion", JInt(p.stateVersion)),
     ("registrySnapshotId", JString(p.registrySnapshotId)), ("expiresAt", JString(clock.show(p.expiresAt)))]
  }

  lemma CommonRead(clock: Clock, p: Pending)
    ensures var raw := PendingFields(clock, p);
            && Get(raw, "kind", JNull) == JString(KindText(p.kind)) && Get(raw, "frameId", JNull) == JString(p.frameId)
            && Get(raw, "stateVersion", JNull) == JInt(p.stateVersion)
            && Get(raw, "registrySnapshotId", JNull) == JString(p.registrySnapshotId)
            && Get(raw, "expiresAt", JNull) == JString(clock.show(p.expiresAt))
  {
    hide Get, KindText, PayloadFields;
    var raw := PendingFields(clock, p);
    GetAt(raw, 0, JNull);
    GetAt(raw, 1, JNull);
    GetAt(raw, 2, JNull);
    GetAt(raw, 3, JNull);
    GetAt(raw, 4, JNull);
  }

  lemma CommonNames(clock: Clock, p: Pending)
    ensures NamesOf(CommonFields(clock, p)) == COMMON
  {
    hide KindText;
    var a := CommonFields(clock, p);
    assert a[0].0 in NamesOf(a) && a[1].0 in NamesOf(a) && a[2].0 in NamesOf(a) && a[3].0 in NamesOf(a) && a[4].0 in NamesOf(a);
  }

  lemma PayloadNamesRead(clock: Clock, p: Pending)
    ensures NamesOf(PayloadFields(clock, p)) == PayloadNames(p.kind)
  {
    hide TextList, Optional, GoalsJson, ChoiceToDict;
    var b := PayloadFields(clock, p);
    assert b[0].0 in NamesOf(b);
    if |b| == 2 { assert b[1].0 in NamesOf(b); }
  }

  lemma PayloadOnly(clock: Clock, p: Pending, key: string, default: Json)
    requires key !in COMMON
    ensures Get(PendingFields(clock, p), key, default) == Get(PayloadFields(clock, p), key, default)
    ensures key !in PayloadNames(p.kind) ==> Get(PendingFields(clock, p), key, default) == default
  {
    var a, b := CommonFields(clock, p), PayloadFields(clock, p);
    CommonNames(clock, p);
    PayloadNamesRead(clock, p);
    hide PayloadFields, Get, KindText, PayloadNames;
    assert forall i :: 0 <= i < |a| ==> a[i].0 in NamesOf(a);
    assert forall i :: 0 <= i < |b| ==> b[i].0 in NamesOf(b);
    GetPast(a, b, key, default);
    assert PendingFields(clock, p) == a + b;
    if key !in PayloadNames(p.kind) { GetAbsent(b, key, default); }
  }

  /** What the payload of each kind is read back as; everything the kind does not use reads as absent. */
  lemma PayloadRead(clock: Clock, p: Pending)
    ensures var raw := PendingFields(clock, p);
            && Get(raw, "expectedFields", JList([])) ==
                 (if p.kind == SLOT_CLARIFICATION || p.kind == ENTITY_CHOICE then TextList(p.expectedFields) else JList([]))
            && Get(raw, "capabilityIds", JList([])) == (if p.kind == CAPABILITY_CHOICE then TextList(p.capabilityIds) else JList([]))
            && Get(raw, "batchRef", JNull) == (if p.kind == BATCH_CONFIRMATION then Optional(p.batchRef) else JNull)
            && Get(raw, "plannerRef", JNull) == (if p.kind == PLANNER_CONFIRMATION then Optional(p.plannerRef) else JNull)
            && Get(raw, "plannerGoals", JList([])) == (if p.kind == PLANNER_CONFIRMATION then GoalsJson(p.plannerGoals) else JList([]))
            && Get(raw, "entityChoice", JNull) ==
                 (if p.kind == ENTITY_CHOICE && p.entityChoice.Some? then ChoiceToDict(clock, p.entityChoice.value) else JNull)
  {
    hide TextList, Optional, GoalsJson, ChoiceToDict, PendingFields, Get;
    PayloadOnly(clock, p, "expectedFields", JList([]));
    PayloadOnly(clock, p, "capabilityIds", JList([]));
    PayloadOnly(clock, p, "batchRef", JNull);
    PayloadOnly(clock, p, "plannerRef", JNull);
    PayloadOnly(clock, p, "plannerGoals", JList([]));
    PayloadOnly(clock, p, "entityChoice", JNull);
    var b := PayloadFields(clock, p);
    GetAt(b, 0, JNull);
    GetAt(b, 0, JList([]));
    if |b| == 2 {
      GetAt(b, 1, JNull);
      GetAt(b, 1, JList([]));
    }
  }

  /** References the kind does not use are absent, not empty texts, and a choice set is in form. */
  ghost predicate PendingInForm(p: Pending) {
    && (p.kind != BATCH_CONFIRMATION ==> p.batchRef == None)
    && (p.kind != PLANNER_CONFIRMATION ==> p.plannerRef == None)
    && (p.entityChoice.Some? ==> ChoiceInForm(p.entityChoice.value))
  }

  lemma GoalsRead(goals: seq<PlannerGoal>)
    requires forall i :: 0 <= i < |goals| ==> goals[i].Valid()
    ensures List(GoalsJson(goals), GoalFromDict) == Ok(goals)
  {
    forall i | 0 <= i < |goals| ensures GoalFromDict(GoalsJson(goals).items[i]) == Ok(goals[i]) { GoalRoundTrip(goals[i]); }
    hide GoalFromDict, GoalToDict;
    MapAllOf(GoalsJson(goals).items, GoalFromDict, goals);
  }

  lemma EmptyLists()
    ensures Strings(JList([])) == Ok([]) && List(JList([]), GoalFromDict) == Ok([])
  {}

  lemma ChoiceJson(clock: Clock, c: EntityChoiceSet)
    ensures ChoiceToDict(clock, c).JObject?
  {}

  lemma KindRead(clock: Clock, p: Pending)
    ensures var raw := PendingFields(clock, p);
            KindOf(KindText(p.kind)) == Ok(p.kind) && NamesOf(raw) == COMMON + PayloadNames(p.kind)
  {
    NamesAppend(CommonFields(clock, p), PayloadFields(clock, p));
    CommonNames(clock, p);
    PayloadNamesRead(clock, p);
    hide PayloadFields, NamesOf, PayloadNames;
    assert PendingFields(clock, p) == CommonFields(clock, p) + PayloadFields(clock, p);
  }

  lemma PayloadParsed(clock: Clock, p: Pending)
    requires p.Valid()
    ensures var raw := PendingFields(clock, p);
            && Strings(Get(raw, "expectedFields", JList([]))) == Ok(p.expectedFields)
            && Strings(Get(raw, "capabilityIds", JList([]))) == Ok(p.capabilityIds)
            && OptionalText(Get(raw, "batchRef", JNull)) == Ok(if p.kind == BATCH_CONFIRMATION then p.batchRef else None)
            && OptionalText(Get(raw, "plannerRef", JNull)) == Ok(if p.kind == PLANNER_CONFIRMATION then p.plannerRef else None)
            && List(Get(raw, "plannerGoals", JList([])), GoalFromDict) == Ok(p.plannerGoals)
            && Get(raw, "entityChoice", JNull) ==
                 (if p.entityChoice.Some? then ChoiceToDict(clock, p.entityChoice.value) else JNull)
  {
    PayloadRead(clock, p);
    StringsOf(p.expectedFields);
    StringsOf(p.capabilityIds);
    GoalsRead(p.plannerGoals);
    EmptyLists();
    hide Get, PendingFields, Strings, List, GoalsJson, ChoiceToDict, TextList, GoalFromDict;
  }

  lemma ChoiceParsed(clock: Clock, choice: Option<EntityChoiceSet>)
    requires Exact(clock) && (choice.Some? ==> choice.value.Valid())
    ensures ChoiceOf(clock, if choice.Some? then ChoiceToDict(clock, choice.value) else JNull) == Ok(choice) <==>
            (choice.Some? ==> ChoiceInForm(choice.value))
  {
    if choice.Some? {
      ChoiceRoundTrip(clock, choice.value);
      ChoiceJson(clock, choice.value);
    }
  }

  /** A pending interaction of any kind comes back exactly when it is in form. */
  lemma PendingRoundTrip(clock: Clock, p: Pending)
    requires Exact(clock) && p.Valid()
    ensures PendingFromDict(clock, PendingToDict(clock, p)) == Ok(p) <==> PendingInForm(p)
  {
    CommonRead(clock, p);
    KindRead(clock, p);
    PayloadParsed(clock, p);
    TimeRead(clock, p.expiresAt);
    assert p.entityChoice.Some? ==> p.entityChoice.value.Valid();
    ChoiceParsed(clock, p.entityChoice);
    hide Get, PendingFields, NamesOf, PayloadNames, KindText, KindOf, TimeOf, Strings, List, ChoiceToDict, ChoiceOf,
      ChoiceInForm, OptionalText, GoalFromDict, Pending.Valid;
  }

  /** The exact set of keys leaves no room for a reference of another kind. */
  lemma UnusedAbsent(raw: Fields, k: PendingKind, key: string)
    requires NamesOf(raw) == COMMON + PayloadNames(k) && key !in COMMON + PayloadNames(k)
    ensures Get(raw, key, JNull) == JNull
  {
    assert forall i :: 0 <= i < |raw| ==> raw[i].0 in NamesOf(raw);
    GetAbsent(raw, key, JNull);
  }

  lemma ReadRefs(clock: Clock, j: Json)
    requires PendingFromDict(clock, j).Ok?
    ensures var p := PendingFromDict(clock, j).value;
            && p.Valid()
            && (p.kind != BATCH_CONFIRMATION ==> p.batchRef == None)
            && (p.kind != PLANNER_CONFIRMATION ==> p.plannerRef == None)
            && ChoiceOf(clock, Get(j.fields, "entityChoice", JNull)) == Ok(p.entityChoice)
  {
    hide ChoiceOf, TimeOf, Strings, List, GoalFromDict, Get, KindOf, NamesOf, NonEmpty, Integer, Text, Pending.Valid;
    var raw, p := j.fields, PendingFromDict(clock, j).value;
    if p.kind != BATCH_CONFIRMATION { UnusedAbsent(raw, p.kind, "batchRef"); }
    if p.kind != PLANNER_CONFIRMATION { UnusedAbsent(raw, p.kind, "plannerRef"); }
  }

  lemma PendingReadInForm(clock: Clock, j: Json)
    requires WellFormed(j) && PendingFromDict(clock, j).Ok?
    ensures PendingInForm(PendingFromDict(clock, j).value) && PendingFromDict(clock, j).value.Valid()
  {
    ReadRefs(clock, j);
    WellFormedField(j.fields, "entityChoice", JNull);
    hide PendingFromDict, Get, ChoiceFromDict, ChoiceInForm;
    var choice := Get(j.fields, "entityChoice", JNull);
    if choice.JObject? { ChoiceReadInForm(clock, choice); }
  }

  // ---------------------------------------------------------------- whole states

  function RoundFields(keys: seq<string>, rounds: map<string, int>): Fields
    requires forall k :: k in keys ==> k in rounds
  {
    seq(|keys|, i requires 0 <= i < |keys| => (keys[i], JInt(rounds[keys[i]])))
  }

  function RoundsOf(fields: Fields): Result<map<string, int>> {
    if fields == [] then Ok(map[])
    else
      var before :- RoundsOf(fields[..|fields| - 1]);
      var count :- Integer(fields[|fields| - 1].1);
      Ok(before[fields[|fields| - 1].0 := count])
  }

  lemma {:induction false} RoundsRead(keys: seq<string>, rounds: map<string, int>)
    requires forall k :: k in keys ==> k in rounds
    ensures RoundsOf(RoundFields(keys, rounds)) == Ok(map k | k in keys :: rounds[k])
  {
    if keys != [] {
      var n := |keys| - 1;
      assert forall k :: k in keys[..n] ==> k in keys;
      assert keys[n] in keys;
      RoundsRead(keys[..n], rounds);
      assert RoundFields(keys, rounds)[..n] == RoundFields(keys[..n], rounds);
      assert keys == keys[..n] + [keys[n]];
      assert (map k | k in keys[..n] :: rounds[k])[keys[n] := rounds[keys[n]]] == map k | k in keys :: rounds[k];
    }
  }

  ghost function FramesJson(order: Order, frames: seq<Frame>): Json
    requires Lists(order)
  {
    JList(seq(|frames|, i requires 0 <= i < |frames| => FrameToDict(order, frames[i])))
  }

  ghost function StateFields(order: Order, clock: Clock, s: ReadState): Fields
    requires Lists(order)
  {
    [("activeFrame", if s.activeFrame.Some? then FrameToDict(order, s.activeFrame.value) else JNull),
     ("pendingInteraction", if s.pending.Some? then PendingToDict(clock, s.pending.value) else JNull),
     ("stateVersion", JInt(s.stateVersion)), ("recentFrames", FramesJson(order, s.recentFrames))]
    + if s.clarifyRounds == map[] then []
      else [("clarifyRounds", JObject(RoundFields(SortedKeys(s.clarifyRounds.Keys), s.clarifyRounds)))]
  }

  ghost function StateToDict(order: Order, clock: Clock, s: ReadState): Json
    requires Lists(order)
  {
    JObject(StateFields(order, clock, s))
  }

  ghost function BuiltState(s: ReadState): Result<ReadState> { if s.Valid() then Ok(s) else Raise("ValueError") }

  function OptionalRounds(j: Json): Result<map<string, int>> { if j.JObject? then RoundsOf(j.fields) else Ok(map[]) }

  function RoundsJson(rounds: map<string, int>, keys: seq<string>): Json
    requires forall k :: k in keys ==> k in rounds
  {
    if rounds == map[] then JNull else JObject(RoundFields(keys, rounds))
  }

  function OptionalFrame(j: Json): Result<Option<Frame>> {
    if !j.JObject? then Ok(None)
    else
      var frame :- FrameFromDict(j);
      Ok(Some(frame))
  }

  ghost function OptionalPending(clock: Clock, j: Json): Result<Option<Pending>> {
    if !j.JObject? then Ok(None)
    else
      var pending :- PendingFromDict(clock, j);
      Ok(Some(pending))
  }

  ghost function StateFromDict(clock: Clock, j: Json): Result<ReadState> {
    var raw :- Object(j);
    var rounds :- OptionalRounds(Get(raw, "clarifyRounds", JNull));
    var active :- OptionalFrame(Get(raw, "activeFrame", JNull));
    var pending :- OptionalPending(clock, Get(raw, "pendingInteraction", JNull));
    var version :- Integer(Get(raw, "stateVersion", JInt(0)));
    var recent :- List(Get(raw, "recentFrames", JList([])), FrameFromDict);
    BuiltState(ReadState(active, pending, version, recent, rounds))
  }

  lemma StateFieldsRead(order: Order, clock: Clock, s: ReadState)
    requires Lists(order)
    ensures var raw := StateFields(order, clock, s);
            && Get(raw, "activeFrame", JNull) == (if s.activeFrame.Some? then FrameToDict(order, s.activeFrame.value) else JNull)
            && Get(raw, "pendingInteraction", JNull) == (if s.pending.Some? then PendingToDict(clock, s.pending.value) else JNull)
            && Get(raw, "stateVersion", JInt(0)) == JInt(s.stateVersion)
            && Get(raw, "recentFrames", JList([])) == FramesJson(order, s.recentFrames)
            && Get(raw, "clarifyRounds", JNull) == RoundsJson(s.clarifyRounds, SortedKeys(s.clarifyRounds.Keys))
  {
    hide Get, FrameToDict, PendingToDict, FramesJson, RoundFields, SortedKeys, SortedListing;
    var raw := StateFields(order, clock, s);
    assert raw[0].0 == "activeFrame" && raw[1].0 == "pendingInteraction" && raw[2].0 == "stateVersion" && raw[3].0 == "recentFrames";
    GetAt(raw, 0, JNull);
    GetAt(raw, 1, JNull);
    GetAt(raw, 2, JInt(0));
    GetAt(raw, 3, JList([]));
    if s.clarifyRounds == map[] {
      GetAbsent(raw, "clarifyRounds", JNull);
    } else {
      assert raw[4].0 == "clarifyRounds";
      GetAt(raw, 4, JNull);
    }
  }

  lemma FramesRead(order: Order, frames: seq<Frame>)
    requires Lists(order) && forall i :: 0 <= i < |frames| ==> frames[i].Valid()
    ensures List(FramesJson(order, frames), FrameFromDict) == Ok(frames)
  {
    forall i | 0 <= i < |frames| ensures FrameFromDict(FramesJson(order, frames).items[i]) == Ok(frames[i]) {
      FrameRoundTrip(order, frames[i]);
    }
    hide FrameFromDict, FrameToDict;
    MapAllOf(FramesJson(order, frames).items, FrameFromDict, frames);
  }

  lemma RoundsRoundTrip(rounds: map<string, int>)
    ensures OptionalRounds(RoundsJson(rounds, SortedKeys(rounds.Keys))) == Ok(rounds)
  {
    var keys := SortedKeys(rounds.Keys);
    RoundsRead(keys, rounds);
    assert (map k | k in keys :: rounds[k]) == rounds;
  }

  ghost predicate InForm(s: ReadState) { s.pending.Some? ==> PendingInForm(s.pending.value) }

  lemma ActiveFrameRead(order: Order, frame: Option<Frame>)
    requires Lists(order) && (frame.Some? ==> frame.value.Valid())
    ensures OptionalFrame(if frame.Some? then FrameToDict(order, frame.value) else JNull) == Ok(frame)
  {
    if frame.Some? { FrameRoundTrip(order, frame.value); }
  }

  lemma PendingInteractionRead(clock: Clock, pending: Option<Pending>)
    requires Exact(clock) && (pending.Some? ==> pending.value.Valid())
    ensures OptionalPending(clock, if pending.Some? then PendingToDict(clock, pending.value) else JNull) == Ok(pending) <==>
            (pending.Some? ==> PendingInForm(pending.value))
  {
    if pending.Some? { PendingRoundTrip(clock, pending.value); }
  }

  /** When all other parts are read as they were, the state is if and only if its pending interaction is. */
  lemma StateAssembled(clock: Clock, raw: Fields, s: ReadState)
    requires s.Valid()
    requires OptionalRounds(Get(raw, "clarifyRounds", JNull)) == Ok(s.clarifyRounds)
    requires OptionalFrame(Get(raw, "activeFrame", JNull)) == Ok(s.activeFrame)
    requires Get(raw, "stateVersion", JInt(0)) == JInt(s.stateVersion)
    requires List(Get(raw, "recentFrames", JList([])), FrameFromDict) == Ok(s.recentFrames)
    ensures StateFromDict(clock, JObject(raw)) == Ok(s) <==>
            OptionalPending(clock, Get(raw, "pendingInteraction", JNull)) == Ok(s.pending)
  {
    hide Get, OptionalRounds, OptionalFrame, OptionalPending, List, FrameFromDict, ReadState.Valid;
  }

  /** A conversation state survives being written and read exactly when its pending interaction is in form,
      whatever the order in which its slot dicts list their entries. */
  lemma StateRoundTrip(order: Order, clock: Clock, s: ReadState)
    requires Lists(order) && Exact(clock) && s.Valid()
    ensures StateFromDict(clock, StateToDict(order, clock, s)) == Ok(s) <==> InForm(s)
  {
    StateFieldsRead(order, clock, s);
    ActiveFrameRead(order, s.activeFrame);
    PendingInteractionRead(clock, s.pending);
    FramesRead(order, s.recentFrames);
    RoundsRoundTrip(s.clarifyRounds);
    hide Get, StateFields, StateFromDict, OptionalFrame, OptionalPending, PendingInForm, FramesJson, List, OptionalRounds, RoundsJson,
      FrameToDict, PendingToDict, ReadState.Valid, SortedKeys, Lists, Exact, FrameFromDict;
    StateAssembled(clock, StateFields(order, clock, s), s);
  }

  /** Whatever dict was loaded: the state it gave satisfies every constructor, and from then on it is written
      and read without change. */
  lemma LoadedStateIsStable(order: Order, clock: Clock, j: Json)
    requires Lists(order) && Exact(clock) && WellFormed(j) && StateFromDict(clock, j).Ok?
    ensures var s := StateFromDict(clock, j).value;
            s.Valid() && StateFromDict(clock, StateToDict(order, clock, s)) == Ok(s)
  {
    StateParts(clock, j);
    WellFormedField(j.fields, "pendingInteraction", JNull);
    hide Get, StateFromDict, PendingFromDict, PendingInForm, StateToDict, ReadState.Valid;
    var s, field := StateFromDict(clock, j).value, Get(j.fields, "pendingInteraction", JNull);
    if field.JObject? { PendingReadInForm(clock, field); }
    StateRoundTrip(order, clock, s);
  }

  lemma StateParts(clock: Clock, j: Json)
    requires StateFromDict(clock, j).Ok?
    ensures var s := StateFromDict(clock, j).value;
            s.Valid() && OptionalPending(clock, Get(j.fields, "pendingInteraction", JNull)) == Ok(s.pending)
  {
    hide Get, OptionalFrame, OptionalPending, FrameFromDict, List, OptionalRounds, Integer, ReadState.Valid;
  }

  /** The factories build interactions in form. */
  lemma FactoriesAreInForm(frameId: string, texts: seq<string>, ref: string, goals: seq<PlannerGoal>, choice: EntityChoiceSet,
                           version: int, snapshot: string, expires: Timestamp)
    ensures PendingInForm(SlotClarification(frameId, texts, version, snapshot, expires))
    ensures PendingInForm(CapabilityChoice(frameId, texts, version, snapshot, expires))
    ensures PendingInForm(BatchConfirmation(frameId, ref, version, snapshot, expires))
    ensures PendingInForm(PlannerConfirmation(frameId, ref, goals, version, snapshot, expires))
    ensures PendingInForm(EntityChoicePending(frameId, choice, version, snapshot, expires)) <==> ChoiceInForm(choice)
  {}

  // ---------------------------------------------------------------- what a dict that is read says

  /** A dict is read as a planner goal only if it has exactly these three names, and then says what the goal says. */
  lemma GoalReadMeans(raw: Fields)
    requires GoalFromDict(JObject(raw)).Ok?
    ensures var g := GoalFromDict(JObject(raw)).value;
            && NamesOf(raw) == {"capabilityId", "parameters", "missing"}
            && Get(raw, "capabilityId", JNull) == JString(g.capabilityId) && Get(raw, "missing", JNull) == TextList(g.missing)
            && g.Valid()
  {
    var g := GoalFromDict(JObject(raw)).value;
    StringsExactly(Get(raw, "missing", JNull), g.missing);
  }

  lemma KindTexts(j: Json, kind: PendingKind)
    ensures j == JString(KindText(kind)) <==> j.JString? && KindOf(j.s) == Ok(kind)
  {}

  lemma PendingNames(clock: Clock, raw: Fields)
    requires PendingFromDict(clock, JObject(raw)).Ok?
    ensures var p := PendingFromDict(clock, JObject(raw)).value;
            && Get(raw, "kind", JNull) == JString(KindText(p.kind)) && NamesOf(raw) == COMMON + PayloadNames(p.kind)
  {
    BuiltIsGiven();
    hide Get, NamesOf, Strings, KindText, KindOf, TimeOf, Pending.Valid, BuiltPending, ChoiceOf, GoalFromDict, List, PayloadNames, OptionalText, NonEmpty,
         Integer;
    KindTexts(Get(raw, "kind", JNull), PendingFromDict(clock, JObject(raw)).value.kind);
  }

  lemma BuiltIsGiven()
    ensures forall p :: BuiltPending(p).Ok? ==> BuiltPending(p).value == p && p.Valid()
  {}

  lemma PendingEntries(clock: Clock, raw: Fields)
    requires PendingFromDict(clock, JObject(raw)).Ok?
    ensures var p := PendingFromDict(clock, JObject(raw)).value;
            && p.Valid()
            && NonEmpty(Get(raw, "frameId", JNull)) == Ok(p.frameId) && Integer(Get(raw, "stateVersion", JNull)) == Ok(p.stateVersion)
            && NonEmpty(Get(raw, "registrySnapshotId", JNull)) == Ok(p.registrySnapshotId)
            && TimeOf(clock, Get(raw, "expiresAt", JNull)) == Ok(p.expiresAt)
            && Strings(Get(raw, "expectedFields", JList([]))) == Ok(p.expectedFields)
            && Strings(Get(raw, "capabilityIds", JList([]))) == Ok(p.capabilityIds)
            && OptionalText(Get(raw, "batchRef", JNull)) == Ok(p.batchRef) && OptionalText(Get(raw, "plannerRef", JNull)) == Ok(p.plannerRef)
  {
    BuiltIsGiven();
    hide Get, NamesOf, Strings, KindOf, TimeOf, Pending.Valid, BuiltPending, ChoiceOf, GoalFromDict, List, PayloadNames, OptionalText, NonEmpty, Integer;
  }

  /** A dict is read as a pending interaction only if it has exactly the names of its kind, and then says what the
      interaction says; what its kind does not use is absent from it. */
  lemma PendingReadMeans(clock: Clock, raw: Fields)
    requires PendingFromDict(clock, JObject(raw)).Ok?
    ensures var p := PendingFromDict(clock, JObject(raw)).value;
            && p.Valid()
            && Get(raw, "kind", JNull) == JString(KindText(p.kind)) && Get(raw, "frameId", JNull) == JString(p.frameId)
            && Get(raw, "stateVersion", JNull) == JInt(p.stateVersion)
            && Get(raw, "registrySnapshotId", JNull) == JString(p.registrySnapshotId)
            && TimeOf(clock, Get(raw, "expiresAt", JNull)) == Ok(p.expiresAt)
            && Get(raw, "expectedFields", JList([])) == TextList(p.expectedFields)
            && Get(raw, "capabilityIds", JList([])) == TextList(p.capabilityIds)
            && Get(raw, "batchRef", JNull) == Optional(p.batchRef) && Get(raw, "plannerRef", JNull) == Optional(p.plannerRef)
            && NamesOf(raw) == {"kind", "frameId", "stateVersion", "registrySnapshotId", "expiresAt"} +
               match p.kind
               case SLOT_CLARIFICATION => {"expectedFields"}
               case CAPABILITY_CHOICE => {"capabilityIds"}
               case BATCH_CONFIRMATION => {"batchRef"}
               case PLANNER_CONFIRMATION => {"plannerRef", "plannerGoals"}
               case ENTITY_CHOICE => {"expectedFields", "entityChoice"}
  {
    var p := PendingFromDict(clock, JObject(raw)).value;
    PendingNames(clock, raw);
    PendingEntries(clock, raw);
    hide PendingFromDict, Get, NamesOf, Strings, TextList, KindText, TimeOf, Pending.Valid;
    StringsExactly(Get(raw, "expectedFields", JList([])), p.expectedFields);
    StringsExactly(Get(raw, "capabilityIds", JList([])), p.capabilityIds);
  }

  /** A dict is read as a state entry by entry: no frame or pending interaction where it has no dict for one, version
      0 where it has none, at most two recent frames, no negative round. */
  lemma StateReadMeans(clock: Clock, raw: Fields)
    requires StateFromDict(clock, JObject(raw)).Ok?
    ensures var s := StateFromDict(clock, JObject(raw)).value;
            && s.Valid() && s.stateVersion >= 0 && |s.recentFrames| <= 2 && (forall c :: c in s.clarifyRounds ==> s.clarifyRounds[c] >= 0)
            && Get(raw, "stateVersion", JInt(0)) == JInt(s.stateVersion)
            && (if Get(raw, "activeFrame", JNull).JObject? then s.activeFrame.Some? && FrameFromDict(Get(raw, "activeFrame", JNull)) == Ok(s.activeFrame.value)
                else s.activeFrame.None?)
            && (if Get(raw, "pendingInteraction", JNull).JObject?
                then s.pending.Some? && PendingFromDict(clock, Get(raw, "pendingInteraction", JNull)) == Ok(s.pending.value)
                else s.pending.None?)
            && List(Get(raw, "recentFrames", JList([])), FrameFromDict) == Ok(s.recentFrames)
            && (!Get(raw, "clarifyRounds", JNull).JObject? ==> s.clarifyRounds == map[])
  {
    hide Get, FrameFromDict, PendingFromDict, List, Frame.Valid, Pending.Valid, RoundsOf;
  }
}
