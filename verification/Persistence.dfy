/** How the conversation state is written to JSON and read back. A slot dict may list its entries in any
    order: equality of dicts does not see it. */
module Persistence {
  import opened Basics
  import opened CanonicalJson
  import opened ReadContext

  type Fields = seq<(string, Json)>

  // ---------------------------------------------------------------- reading fields

  /** `raw.get(key, default)` */
  function Get(fields: Fields, key: string, default: Json): Json {
    if fields == [] then default
    else if fields[0].0 == key then fields[0].1
    else Get(fields[1..], key, default)
  }

  lemma {:induction false} GetAt(fields: Fields, i: nat, default: Json)
    requires i < |fields| && forall j :: 0 <= j < i ==> fields[j].0 != fields[i].0
    ensures Get(fields, fields[i].0, default) == fields[i].1
  {
    if i > 0 {
      assert fields[0].0 != fields[i].0 && fields[1..][i - 1] == fields[i];
      GetAt(fields[1..], i - 1, default);
    }
  }

  lemma {:induction false} GetAbsent(fields: Fields, key: string, default: Json)
    requires forall i :: 0 <= i < |fields| ==> fields[i].0 != key
    ensures Get(fields, key, default) == default
  {
    if fields != [] { GetAbsent(fields[1..], key, default); }
  }

  function NamesOf(fields: Fields): set<string> { set i | 0 <= i < |fields| :: fields[i].0 }

  function Object(j: Json): Result<Fields> {
    if j.JObject? then Ok(j.fields) else Raise("ValueError")
  }

  function Text(j: Json): Result<string> {
    if j.JString? then Ok(j.s) else Raise("ValueError")
  }

  /** `_non_empty_string`, `_require` */
  function NonEmpty(j: Json): Result<string> {
    if j.JString? && j.s != "" then Ok(j.s) else Raise("ValueError")
  }

  /** Python counts these values as false. */
  predicate Falsy(j: Json) {
    j == JNull || j == JBool(false) || j == JInt(0) || j == JString("") || j == JList([]) || j == JObject([])
  }

  /** `value or default` */
  function Or(j: Json, default: Json): Json { if Falsy(j) then default else j }

  lemma OrKeeps(s: string, fields: Fields, items: seq<Json>)
    ensures Or(JString(s), JString("")) == JString(s)
    ensures Or(JObject(fields), JObject([])) == JObject(fields)
    ensures Or(JList(items), JList([])) == JList(items)
  {}

  function OptionalText(j: Json): Result<Option<string>> {
    if j == JNull then Ok(None) else if j.JString? then Ok(Some(j.s)) else Raise("ValueError")
  }

  function Integer(j: Json): Result<int> {
    if j.JInt? then Ok(j.n) else Raise("ValueError")
  }

  function MapAll<T>(items: seq<Json>, read: Json -> Result<T>): Result<seq<T>> {
    if items == [] then Ok([])
    else
      var before :- MapAll(items[..|items| - 1], read);
      var last :- read(items[|items| - 1]);
      Ok(before + [last])
  }

  function List<T>(j: Json, read: Json -> Result<T>): Result<seq<T>> {
    if j.JList? then MapAll(j.items, read) else Raise("ValueError")
  }

  /** `_string_tuple` */
  function Strings(j: Json): Result<seq<string>> { List(j, NonEmpty) }

  function TextList(values: seq<string>): Json {
    JList(seq(|values|, i requires 0 <= i < |values| => JString(values[i])))
  }

  function Optional(value: Option<string>): Json { if value.None? then JNull else JString(value.value) }

  lemma {:induction false} MapAllOf<T>(items: seq<Json>, read: Json -> Result<T>, values: seq<T>)
    requires |items| == |values| && forall i :: 0 <= i < |items| ==> read(items[i]) == Ok(values[i])
    ensures MapAll(items, read) == Ok(values)
  {
    if items != [] {
      var n := |items| - 1;
      MapAllOf(items[..n], read, values[..n]);
      assert values == values[..n] + [values[n]];
    }
  }

  lemma StringsOf(values: seq<string>)
    requires AllNonEmpty(values)
    ensures Strings(TextList(values)) == Ok(values)
  {
    MapAllOf(TextList(values).items, NonEmpty, values);
  }

  // ---------------------------------------------------------------- slots

  function SlotStateText(s: SlotState): string {
    match s
    case RESOLVED => "RESOLVED"
    case CONFLICTED => "CONFLICTED"
    case CLEARED => "CLEARED"
  }

  function SlotStateOf(t: string): Result<SlotState> {
    if t == "RESOLVED" then Ok(RESOLVED)
    else if t == "CONFLICTED" then Ok(CONFLICTED)
    else if t == "CLEARED" then Ok(CLEARED)
    else Raise("ValueError")
  }

  function ProvenanceText(p: Provenance): string {
    match p
    case EXPLICIT => "EXPLICIT"
    case CONFIRMED => "CONFIRMED"
    case INHERITED => "INHERITED"
    case MODEL_CANDIDATE => "MODEL_CANDIDATE"
    case INHERITED_LEGACY => "INHERITED_LEGACY"
  }

  function ProvenanceOf(t: string): Result<Provenance> {
    if t == "EXPLICIT" then Ok(EXPLICIT)
    else if t == "CONFIRMED" then Ok(CONFIRMED)
    else if t == "INHERITED" then Ok(INHERITED)
    else if t == "MODEL_CANDIDATE" then Ok(MODEL_CANDIDATE)
    else if t == "INHERITED_LEGACY" then Ok(INHERITED_LEGACY)
    else Raise("ValueError")
  }

  function SpanJson(span: Option<Span>): Json {
    if span.None? then JNull else JList([JInt(span.value.start), JInt(span.value.end)])
  }

  function SpanOf(j: Json): Result<Option<Span>> {
    if j == JNull then Ok(None)
    else if j.JList? && |j.items| == 2 && j.items[0].JInt? && j.items[1].JInt? then
      Ok(Some(Span(j.items[0].n, j.items[1].n)))
    else Raise("ValueError")
  }

  function SlotFields(s: SlotBinding): Fields {
    [("name", JString(s.name)), ("value", Optional(s.value)), ("candidates", TextList(s.candidates)),
     ("state", JString(SlotStateText(s.state))), ("provenance", JString(ProvenanceText(s.provenance))),
     ("sourceTurnId", JString(s.sourceTurnId)), ("sourceSpan", SpanJson(s.sourceSpan)), ("issues", TextList(s.issues))]
  }

  function SlotToDict(s: SlotBinding): Json { JObject(SlotFields(s)) }

  /** Every value is built through the checks of its constructor. */
  function BuiltSlot(s: SlotBinding): Result<SlotBinding> { if s.Valid() then Ok(s) else Raise("ValueError") }

  function SlotFromDict(j: Json): Result<SlotBinding> {
    var raw :- Object(j);
    var span :- SpanOf(Get(raw, "sourceSpan", JNull));
    var name :- NonEmpty(Get(raw, "name", JNull));
    var value :- OptionalText(Get(raw, "value", JNull));
    var candidates :- Strings(Get(raw, "candidates", JList([])));
    var stateText :- Text(Get(raw, "state", JNull));
    var state :- SlotStateOf(stateText);
    var provenanceText :- Text(Get(raw, "provenance", JNull));
    var provenance :- ProvenanceOf(provenanceText);
    var turn :- NonEmpty(Get(raw, "sourceTurnId", JNull));
    var issues :- Strings(Get(raw, "issues", JList([])));
    BuiltSlot(SlotBinding(name, value, candidates, state, provenance, turn, span, issues))
  }

  lemma SlotFieldsRead(s: SlotBinding)
    ensures var raw := SlotFields(s);
            && Get(raw, "name", JNull) == JString(s.name) && Get(raw, "value", JNull) == Optional(s.value)
            && Get(raw, "candidates", JList([])) == TextList(s.candidates)
            && Get(raw, "state", JNull) == JString(SlotStateText(s.state))
            && Get(raw, "provenance", JNull) == JString(ProvenanceText(s.provenance))
            && Get(raw, "sourceTurnId", JNull) == JString(s.sourceTurnId)
            && Get(raw, "sourceSpan", JNull) == SpanJson(s.sourceSpan)
            && Get(raw, "issues", JList([])) == TextList(s.issues)
  {
    hide Get, SlotStateText, ProvenanceText, TextList, SpanJson, Optional;
    var raw := SlotFields(s);
    GetAt(raw, 0, JNull);
    GetAt(raw, 1, JNull);
    GetAt(raw, 2, JList([]));
    GetAt(raw, 3, JNull);
    GetAt(raw, 4, JNull);
    GetAt(raw, 5, JNull);
    GetAt(raw, 6, JNull);
    GetAt(raw, 7, JList([]));
  }

  lemma SlotRoundTrip(s: SlotBinding)
    requires s.Valid()
    ensures SlotFromDict(SlotToDict(s)) == Ok(s)
  {
    SlotFieldsRead(s);
    StringsOf(s.candidates);
    StringsOf(s.issues);
    NamesRead(s);
    hide Get, SlotFields, SlotStateText, SlotStateOf, ProvenanceText, ProvenanceOf, Strings, TextList;
  }

  lemma NamesRead(s: SlotBinding)
    ensures SlotStateOf(SlotStateText(s.state)) == Ok(s.state)
    ensures ProvenanceOf(ProvenanceText(s.provenance)) == Ok(s.provenance)
  {}

  lemma {:induction false} TextsExactly(items: seq<Json>, values: seq<string>)
    ensures MapAll(items, NonEmpty) == Ok(values) <==>
            |items| == |values| && forall i :: 0 <= i < |items| ==> items[i] == JString(values[i]) && values[i] != ""
    decreases |items|
  {
    if items != [] {
      var n := |items| - 1;
      if values != [] {
        TextsExactly(items[..n], values[..|values| - 1]);
        assert values == values[..|values| - 1] + [values[|values| - 1]];
      }
    }
  }

  lemma StringsExactly(j: Json, values: seq<string>)
    ensures Strings(j) == Ok(values) <==> j == TextList(values) && AllNonEmpty(values)
  {
    if j.JList? {
      TextsExactly(j.items, values);
      hide MapAll;
      if |j.items| == |values| && forall i :: 0 <= i < |j.items| ==> j.items[i] == JString(values[i]) {
        assert j.items == TextList(values).items;
      }
    }
  }

  /** A dict is read as a slot exactly when each of its entries is that of the slot, with lists of nonempty texts or
      none at all for candidates and issues, a name, a turn, a known state and provenance, a value where it is
      resolved and none where it is cleared, and an ordered span or none. */
  lemma SlotReadExactly(raw: Fields, s: SlotBinding)
    ensures SlotFromDict(JObject(raw)) == Ok(s) <==>
            && Get(raw, "name", JNull) == JString(s.name) && s.name != ""
            && Get(raw, "sourceTurnId", JNull) == JString(s.sourceTurnId) && s.sourceTurnId != ""
            && Get(raw, "value", JNull) == (if s.value.Some? then JString(s.value.value) else JNull)
            && Get(raw, "candidates", JList([])) == TextList(s.candidates) && AllNonEmpty(s.candidates)
            && Get(raw, "issues", JList([])) == TextList(s.issues) && AllNonEmpty(s.issues)
            && Get(raw, "state", JNull) == JString(SlotStateText(s.state))
            && Get(raw, "provenance", JNull) == JString(ProvenanceText(s.provenance))
            && Get(raw, "sourceSpan", JNull) == SpanJson(s.sourceSpan)
            && (s.state == RESOLVED ==> s.value.Some? && s.value.value != "")
            && (s.state == CLEARED ==> s.value.None?)
            && (s.sourceSpan.Some? ==> 0 <= s.sourceSpan.value.start <= s.sourceSpan.value.end)
  {
    StringsExactly(Get(raw, "candidates", JList([])), s.candidates);
    StringsExactly(Get(raw, "issues", JList([])), s.issues);
    StateTexts(Get(raw, "state", JNull), s.state);
    ProvenanceTexts(Get(raw, "provenance", JNull), s.provenance);
    SpanExactly(Get(raw, "sourceSpan", JNull), s.sourceSpan);
    hide Get, SlotStateText, SlotStateOf, ProvenanceText, ProvenanceOf, Strings, TextList, SpanJson, SpanOf, AllNonEmpty;
  }

  lemma StateTexts(j: Json, state: SlotState)
    ensures j == JString(SlotStateText(state)) <==> j.JString? && SlotStateOf(j.s) == Ok(state)
  {}

  lemma ProvenanceTexts(j: Json, provenance: Provenance)
    ensures j == JString(ProvenanceText(provenance)) <==> j.JString? && ProvenanceOf(j.s) == Ok(provenance)
  {}

  lemma SpanExactly(j: Json, span: Option<Span>)
    ensures SpanOf(j) == Ok(span) <==> j == SpanJson(span)
  {
    if SpanOf(j).Ok? && span.Some? && j.JList? && |j.items| == 2 {
      assert j.items == [j.items[0], j.items[1]];
    }
  }

  // ---------------------------------------------------------------- frames

  /** The order in which a slot dict lists its names. */
  type Order = map<string, SlotBinding> -> seq<string>

  ghost predicate Lists(order: Order) {
    forall m :: Distinct(order(m)) && forall k :: k in order(m) <==> k in m
  }

  function StatusText(s: FrameStatus): string {
    match s
    case COLLECTING => "COLLECTING"
    case READY => "READY"
    case FRAME_CONFLICTED => "CONFLICTED"
    case STALE => "STALE"
  }

  function StatusOf(t: string): Result<FrameStatus> {
    if t == "COLLECTING" then Ok(COLLECTING)
    else if t == "READY" then Ok(READY)
    else if t == "CONFLICTED" then Ok(FRAME_CONFLICTED)
    else if t == "STALE" then Ok(STALE)
    else Raise("ValueError")
  }

  function SlotEntries(keys: seq<string>, m: map<string, SlotBinding>): Fields
    requires forall k :: k in keys ==> k in m
  {
    seq(|keys|, i requires 0 <= i < |keys| => (keys[i], SlotToDict(m[keys[i]])))
  }

  function SlotsOf(fields: Fields): Result<map<string, SlotBinding>> {
    if fields == [] then Ok(map[])
    else
      var before :- SlotsOf(fields[..|fields| - 1]);
      var last := fields[|fields| - 1];
      var name :- NonEmpty(JString(last.0));
      var slot :- SlotFromDict(last.1);
      Ok(before[name := slot])
  }

  lemma {:induction false} SlotsRead(keys: seq<string>, m: map<string, SlotBinding>)
    requires Distinct(keys) && forall k :: k in keys ==> k in m && k != "" && m[k].Valid()
    ensures SlotsOf(SlotEntries(keys, m)) == Ok(map k | k in keys :: m[k])
  {
    hide SlotToDict, SlotFromDict;
    if keys != [] {
      var n := |keys| - 1;
      assert forall k :: k in keys[..n] ==> k in keys;
      assert keys[n] in keys;
      SlotsRead(keys[..n], m);
      SlotRoundTrip(m[keys[n]]);
      assert SlotEntries(keys, m)[..n] == SlotEntries(keys[..n], m);
      assert keys == keys[..n] + [keys[n]];
      assert (map k | k in keys[..n] :: m[k])[keys[n] := m[keys[n]]] == map k | k in keys :: m[k];
    }
  }

  ghost function FrameFields(order: Order, f: Frame): Fields
    requires Lists(order)
  {
    [("frameId", JString(f.frameId)), ("capabilityId", JString(f.capabilityId)),
     ("slots", JObject(SlotEntries(order(f.slots), f.slots))), ("status", JString(StatusText(f.status))),
     ("createdTurnId", JString(f.createdTurnId)), ("updatedTurnId", JString(f.updatedTurnId)),
     ("registrySnapshotId", JString(f.registrySnapshotId)), ("capabilityVersion", JString(f.capabilityVersion))]
  }

  ghost function FrameToDict(order: Order, f: Frame): Json
    requires Lists(order)
  {
    JObject(FrameFields(order, f))
  }

  function BuiltFrame(f: Frame): Result<Frame> { if f.Valid() then Ok(f) else Raise("ValueError") }

  function FrameFromDict(j: Json): Result<Frame> {
    var raw :- Object(j);
    var rawSlots :- Object(Get(raw, "slots", JNull));
    var frameId :- NonEmpty(Get(raw, "frameId", JNull));
    var capabilityId :- NonEmpty(Get(raw, "capabilityId", JNull));
    var slots :- SlotsOf(rawSlots);
    var statusText :- Text(Get(raw, "status", JNull));
    var status :- StatusOf(statusText);
    var created :- NonEmpty(Get(raw, "createdTurnId", JNull));
    var updated :- NonEmpty(Get(raw, "updatedTurnId", JNull));
    var snapshot :- NonEmpty(Get(raw, "registrySnapshotId", JNull));
    var version :- NonEmpty(Get(raw, "capabilityVersion", JNull));
    BuiltFrame(Frame(frameId, capabilityId, slots, status, created, updated, snapshot, version))
  }

  lemma FrameFieldsRead(order: Order, f: Frame)
    requires Lists(order)
    ensures var raw := FrameFields(order, f);
            && Get(raw, "frameId", JNull) == JString(f.frameId) && Get(raw, "capabilityId", JNull) == JString(f.capabilityId)
            && Get(raw, "slots", JNull) == JObject(SlotEntries(order(f.slots), f.slots))
            && Get(raw, "status", JNull) == JString(StatusText(f.status))
            && Get(raw, "createdTurnId", JNull) == JString(f.createdTurnId)
            && Get(raw, "updatedTurnId", JNull) == JString(f.updatedTurnId)
            && Get(raw, "registrySnapshotId", JNull) == JString(f.registrySnapshotId)
            && Get(raw, "capabilityVersion", JNull) == JString(f.capabilityVersion)
  {
    hide Get, StatusText, SlotEntries;
    var raw := FrameFields(order, f);
    GetAt(raw, 0, JNull);
    GetAt(raw, 1, JNull);
    GetAt(raw, 2, JNull);
    GetAt(raw, 3, JNull);
    GetAt(raw, 4, JNull);
    GetAt(raw, 5, JNull);
    GetAt(raw, 6, JNull);
    GetAt(raw, 7, JNull);
  }

  lemma FrameRoundTrip(order: Order, f: Frame)
    requires Lists(order) && f.Valid()
    ensures FrameFromDict(FrameToDict(order, f)) == Ok(f)
  {
    FrameFieldsRead(order, f);
    var keys := order(f.slots);
    assert forall k :: k in keys <==> k in f.slots;
    SlotsRead(keys, f.slots);
    assert (map k | k in keys :: f.slots[k]) == f.slots;
    assert StatusOf(StatusText(f.status)) == Ok(f.status);
    hide Get, FrameFields, SlotEntries, SlotsOf, StatusText, StatusOf;
  }

  lemma StatusTexts(j: Json, status: FrameStatus)
    ensures j == JString(StatusText(status)) <==> j.JString? && StatusOf(j.s) == Ok(status)
  {}

  /** The slots of a dict are read entry by entry; one that cannot be read, or has no name, stops the reading. */
  lemma OneSlotMore(fields: Fields, name: string, j: Json)
    ensures SlotsOf([]) == Ok(map[])
    ensures SlotsOf(fields + [(name, j)]).Ok? <==> SlotsOf(fields).Ok? && name != "" && SlotFromDict(j).Ok?
    ensures SlotsOf(fields + [(name, j)]).Ok? ==> SlotsOf(fields + [(name, j)]).value == SlotsOf(fields).value[name := SlotFromDict(j).value]
  {
    assert (fields + [(name, j)])[..|fields|] == fields;
    hide SlotFromDict;
  }

  /** A dict is read as a frame exactly when each of its entries is that of the frame, none of its texts is empty, every
      slot stands under its own name, and in a READY frame every slot is resolved. */
  lemma FrameReadExactly(raw: Fields, f: Frame)
    ensures FrameFromDict(JObject(raw)) == Ok(f) <==>
            && Get(raw, "frameId", JNull) == JString(f.frameId) && Get(raw, "capabilityId", JNull) == JString(f.capabilityId)
            && Get(raw, "status", JNull) == JString(StatusText(f.status))
            && Get(raw, "createdTurnId", JNull) == JString(f.createdTurnId) && Get(raw, "updatedTurnId", JNull) == JString(f.updatedTurnId)
            && Get(raw, "registrySnapshotId", JNull) == JString(f.registrySnapshotId)
            && Get(raw, "capabilityVersion", JNull) == JString(f.capabilityVersion)
            && "" !in {f.frameId, f.capabilityId, f.createdTurnId, f.updatedTurnId, f.registrySnapshotId, f.capabilityVersion}
            && Get(raw, "slots", JNull).JObject? && SlotsOf(Get(raw, "slots", JNull).fields) == Ok(f.slots)
            && (forall n :: n in f.slots ==> f.slots[n].name == n)
            && (f.status == READY ==> forall n :: n in f.slots ==> f.slots[n].state == RESOLVED)
  {
    StatusTexts(Get(raw, "status", JNull), f.status);
    if Get(raw, "slots", JNull).JObject? { ReadSlotsAreValid(Get(raw, "slots", JNull).fields); }
    hide Get, StatusText, StatusOf, SlotsOf, SlotBinding.Valid;
  }

  lemma {:induction false} ReadSlotsAreValid(fields: Fields)
    ensures SlotsOf(fields).Ok? ==> forall n :: n in SlotsOf(fields).value ==> n != "" && SlotsOf(fields).value[n].Valid()
  {
    if fields != [] {
      ReadSlotsAreValid(fields[..|fields| - 1]);
      ReadSlotIsValid(fields[|fields| - 1].1);
    }
    hide SlotFromDict;
  }

  lemma ReadSlotIsValid(j: Json)
    ensures SlotFromDict(j).Ok? ==> SlotFromDict(j).value.Valid()
  {}
}
