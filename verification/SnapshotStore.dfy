/** Publication of full master-data snapshots into transactional tables. */
module SnapshotStore {
  import opened Basics

  // ---------------------------------------------------------------- batch documents

  /** A field that is missing, or not a string where a string is required, is `None`. */
  type Text = Option<string>

  datatype Description = Description(language: Text, text: Text, official: bool)
  datatype AliasEntry = AliasEntry(alias: Text, source: Text, scope: Text, active: bool)
  datatype OrgScope = OrgScope(field: Text, value: Text)

  /** `descriptions` is `None` when it is not a list. */
  datatype Entity =
    | NotAMapping
    | Entity(canonicalCode: Text, status: Text, descriptions: Option<seq<Description>>, attributes: map<string, string>,
             aliases: seq<AliasEntry>, orgScopes: seq<OrgScope>)

  datatype Declared = Declared(sourceSystems: seq<string>, clients: seq<string>, objectTypes: seq<string>)

  /** `None` stands for a missing key. */
  datatype Batch = Batch(sourceSystem: Text, client: Text, objectType: Text, snapshotKind: Text, coverage: Option<Declared>,
                         sourceExtractedAt: Text)

  /** `entities` is `None` when it is not a list. */
  datatype Document = Document(batch: Option<Batch>, entities: Option<seq<Entity>>)

  datatype Rule = Rule(attributes: set<string>, orgFields: set<string>, languages: set<string>)

  type Rules = map<string, Rule>

  // ---------------------------------------------------------------- what may be published

  predicate Present(t: Text) { t.Some? && t.value != "" }

  predicate Complete(b: Batch) {
    b.sourceSystem.Some? && b.client.Some? && b.objectType.Some? && b.snapshotKind.Some? && b.coverage.Some?
  }

  predicate DeclaresItself(b: Batch)
    requires Complete(b)
  {
    && b.sourceSystem.value in b.coverage.value.sourceSystems
    && b.client.value in b.coverage.value.clients
    && b.objectType.value in b.coverage.value.objectTypes
  }

  predicate ValidDescription(rule: Rule, d: Description) {
    d.language.Some? && d.language.value in rule.languages && Present(d.text)
  }

  predicate ValidAlias(a: AliasEntry) { Present(a.alias) && Present(a.source) && Present(a.scope) }

  predicate ValidScope(rule: Rule, s: OrgScope) { s.field.Some? && s.field.value in rule.orgFields && Present(s.value) }

  function Officials(descriptions: seq<Description>): nat {
    if descriptions == [] then 0
    else Officials(descriptions[..|descriptions| - 1]) + if descriptions[|descriptions| - 1].official then 1 else 0
  }

  ghost predicate ValidEntity(rule: Rule, e: Entity) {
    && e.Entity? && Present(e.canonicalCode)
    && e.status.Some? && (e.status.value == "active" || e.status.value == "inactive")
    && e.descriptions.Some? && e.descriptions.value != []
    && (forall i :: 0 <= i < |e.descriptions.value| ==> ValidDescription(rule, e.descriptions.value[i]))
    && Officials(e.descriptions.value) == 1
    && e.attributes.Keys <= rule.attributes
    && (forall i :: 0 <= i < |e.aliases| ==> ValidAlias(e.aliases[i]))
    && (forall i :: 0 <= i < |e.orgScopes| ==> ValidScope(rule, e.orgScopes[i]))
  }

  function CodeOf(e: Entity): string { if e.Entity? then e.canonicalCode.GetOr("") else "" }

  function Codes(entities: seq<Entity>): seq<string> { seq(|entities|, i requires 0 <= i < |entities| => CodeOf(entities[i])) }

  /** A complete full batch that covers itself, for a known object type, of valid entities with distinct codes. */
  ghost predicate Publishable(rules: Rules, d: Document) {
    && d.batch.Some? && Complete(d.batch.value) && d.batch.value.snapshotKind.value == "full"
    && DeclaresItself(d.batch.value)
    && d.batch.value.objectType.value in rules
    && d.entities.Some? && d.entities.value != []
    && (forall i :: 0 <= i < |d.entities.value| ==> ValidEntity(rules[d.batch.value.objectType.value], d.entities.value[i]))
    && Distinct(Codes(d.entities.value))
  }

  // ---------------------------------------------------------------- validation

  method ValidateDescriptions(rule: Rule, descriptions: seq<Description>) returns (errors: seq<string>)
    ensures errors == [] <==>
            (forall i :: 0 <= i < |descriptions| ==> ValidDescription(rule, descriptions[i])) && Officials(descriptions) == 1
  {
    errors := [];
    var official := 0;
    for i := 0 to |descriptions|
      invariant errors == [] <==> forall k :: 0 <= k < i ==> ValidDescription(rule, descriptions[k])
      invariant official == Officials(descriptions[..i])
    {
      var d := descriptions[i];
      if d.language.None? || d.language.value !in rule.languages { errors := errors + ["language not declared"]; }
      if !Present(d.text) { errors := errors + ["description text must be non-empty"]; }
      assert descriptions[..i + 1][..i] == descriptions[..i];
      official := official + if d.official then 1 else 0;
    }
    assert descriptions[..|descriptions|] == descriptions;
    if official != 1 { errors := errors + ["must have exactly one official description"]; }
  }

  method ValidateAttributes(rule: Rule, attributes: map<string, string>) returns (errors: seq<string>)
    ensures errors == [] <==> attributes.Keys <= rule.attributes
  {
    errors := [];
    var todo := attributes.Keys;
    while todo != {}
      invariant todo <= attributes.Keys
      invariant errors == [] <==> attributes.Keys - todo <= rule.attributes
    {
      var key :| key in todo;
      todo := todo - {key};
      if key !in rule.attributes { errors := errors + ["attribute is not declared"]; }
    }
  }

  method ValidateAliases(aliases: seq<AliasEntry>) returns (errors: seq<string>)
    ensures errors == [] <==> forall i :: 0 <= i < |aliases| ==> ValidAlias(aliases[i])
  {
    errors := [];
    for i := 0 to |aliases|
      invariant errors == [] <==> forall k :: 0 <= k < i ==> ValidAlias(aliases[k])
    {
      if !Present(aliases[i].alias) { errors := errors + ["alias must be non-empty"]; }
      if !Present(aliases[i].source) { errors := errors + ["alias.source is required"]; }
      if !Present(aliases[i].scope) { errors := errors + ["alias.scope is required"]; }
    }
  }

  method ValidateScopes(rule: Rule, scopes: seq<OrgScope>) returns (errors: seq<string>)
    ensures errors == [] <==> forall i :: 0 <= i < |scopes| ==> ValidScope(rule, scopes[i])
  {
    errors := [];
    for i := 0 to |scopes|
      invariant errors == [] <==> forall k :: 0 <= k < i ==> ValidScope(rule, scopes[k])
    {
      if scopes[i].field.None? || scopes[i].field.value !in rule.orgFields { errors := errors + ["org scope field not declared"]; }
      if !Present(scopes[i].value) { errors := errors + ["org scope value must be non-empty"]; }
    }
  }

  /** What is checked of one entity besides its code. */
  method ValidateRest(rule: Rule, e: Entity) returns (errors: seq<string>)
    requires e.Entity? && Present(e.canonicalCode)
    ensures errors == [] <==> ValidEntity(rule, e)
  {
    errors := [];
    if e.status.None? || (e.status.value != "active" && e.status.value != "inactive") {
      errors := errors + ["status must be active or inactive"];
    }
    if e.descriptions.None? || e.descriptions.value == [] {
      errors := errors + ["descriptions must be a non-empty list"];
    } else {
      var found := ValidateDescriptions(rule, e.descriptions.value);
      errors := errors + found;
    }
    var attributes := ValidateAttributes(rule, e.attributes);
    var aliases := ValidateAliases(e.aliases);
    var scopes := ValidateScopes(rule, e.orgScopes);
    errors := errors + attributes + aliases + scopes;
  }

  method ValidateEntities(rule: Rule, entities: seq<Entity>) returns (errors: seq<string>)
    ensures errors == [] <==> (forall i :: 0 <= i < |entities| ==> ValidEntity(rule, entities[i])) && Distinct(Codes(entities))
  {
    hide ValidEntity;
    errors := [];
    var seen: set<string> := {};
    for i := 0 to |entities|
      invariant errors == [] <==> (forall k :: 0 <= k < i ==> ValidEntity(rule, entities[k])) && Distinct(Codes(entities[..i]))
      invariant errors == [] ==> forall code :: code in seen <==> code in Codes(entities[..i])
    {
      var e := entities[i];
      assert Codes(entities[..i + 1]) == Codes(entities[..i]) + [CodeOf(e)];
      DistinctSnoc(Codes(entities[..i]), CodeOf(e));
      if !e.Entity? {
        NotValid(rule, e);
        errors := errors + ["must be a mapping"];
      } else if !Present(e.canonicalCode) {
        NotValid(rule, e);
        errors := errors + ["canonicalCode must be a non-empty string"];
      } else {
        var found := ValidateRest(rule, e);
        if CodeOf(e) in seen { errors := errors + ["canonicalCode duplicates an earlier entity"]; }
        seen := seen + {CodeOf(e)};
        errors := errors + found;
      }
    }
    assert entities[..|entities|] == entities;
  }

  lemma NotValid(rule: Rule, e: Entity)
    requires !e.Entity? || !Present(e.canonicalCode)
    ensures !ValidEntity(rule, e)
  {}

  lemma DistinctSnoc<T>(s: seq<T>, x: T)
    ensures Distinct(s + [x]) <==> Distinct(s) && x !in s
  {
    if Distinct(s + [x]) {
      forall i, j | 0 <= i < j < |s| ensures s[i] != s[j] { assert (s + [x])[i] != (s + [x])[j]; }
      forall i | 0 <= i < |s| ensures s[i] != x { assert (s + [x])[i] != (s + [x])[|s|]; }
    }
  }

  /** The declaration itself; without a complete one nothing else is checked. */
  method ValidateDeclaration(b: Batch) returns (errors: seq<string>)
    ensures errors == [] <==> Complete(b) && b.snapshotKind.value == "full" && DeclaresItself(b)
    ensures Complete(b) || errors != []
  {
    errors := MissingKeys(b);
    if errors != [] { return; }
    if b.snapshotKind.value != "full" { return ["only full snapshots are accepted"]; }
    if b.sourceSystem.value !in b.coverage.value.sourceSystems { errors := errors + ["coverage.sourceSystems must contain batch.sourceSystem"]; }
    if b.client.value !in b.coverage.value.clients { errors := errors + ["coverage.clients must contain batch.client"]; }
    if b.objectType.value !in b.coverage.value.objectTypes { errors := errors + ["coverage.objectTypes must contain batch.objectType"]; }
  }

  method MissingKeys(b: Batch) returns (errors: seq<string>)
    ensures errors == [] <==> Complete(b)
  {
    errors := [];
    if b.sourceSystem.None? { errors := errors + ["batch.sourceSystem is required"]; }
    if b.client.None? { errors := errors + ["batch.client is required"]; }
    if b.objectType.None? { errors := errors + ["batch.objectType is required"]; }
    if b.snapshotKind.None? { errors := errors + ["batch.snapshotKind is required"]; }
    if b.coverage.None? { errors := errors + ["batch.coverage is required"]; }
  }

  /** No error is collected exactly when the batch may be published. */
  method ValidateBatch(rules: Rules, d: Document) returns (errors: seq<string>)
    ensures errors == [] <==> Publishable(rules, d)
  {
    hide ValidEntity, DeclaresItself;
    if d.batch.None? { return ["batch declaration is required"]; }
    var b := d.batch.value;
    errors := ValidateDeclaration(b);
    if !Complete(b) || b.snapshotKind.value != "full" { return; }
    if b.objectType.value !in rules { errors := errors + ["objectType has no entity-resolution rule"]; return; }
    if d.entities.None? || d.entities.value == [] { errors := errors + ["entities must be a non-empty list"]; return; }
    var found := ValidateEntities(rules[b.objectType.value], d.entities.value);
    errors := errors + found;
  }

  // ---------------------------------------------------------------- tables

  datatype Coverage = Coverage(sourceSystem: string, client: string, objectType: string)

  datatype Status = LOADING | ACTIVE | SUPERSEDED

  datatype SnapshotRow = SnapshotRow(coverage: Coverage, contentHash: string, sourceExtractedAt: Text, status: Status)

  datatype EntityId = EntityId(snapshotId: string, coverage: Coverage, code: string)

  /** The primary keys of the four content tables. */
  datatype Key =
    | EntityKey(id: EntityId)
    | DescriptionKey(id: EntityId, language: string)
    | AliasKey(id: EntityId, alias: string)
    | ScopeKey(id: EntityId, field: string, value: string)

  datatype Data =
    | EntityData(status: string, attributes: map<string, string>)
    | DescriptionData(text: string, official: bool)
    | AliasData(source: string, scope: string, active: bool)
    | ScopeData

  type Row = (Key, Data)

  datatype Tables = Tables(snapshots: map<string, SnapshotRow>, content: map<Key, Data>)

  const EMPTY := Tables(map[], map[])

  // ---------------------------------------------------------------- statements

  /** UNIQUE (source_system, client, object_type, content_hash) */
  ghost predicate HashTaken(t: Tables, coverage: Coverage, contentHash: string) {
    exists id :: id in t.snapshots && t.snapshots[id].coverage == coverage && t.snapshots[id].contentHash == contentHash
  }

  ghost function InsertSnapshot(t: Tables, id: string, row: SnapshotRow): Result<Tables> {
    if id in t.snapshots || HashTaken(t, row.coverage, row.contentHash) then Raise("UniqueViolation")
    else Ok(t.(snapshots := t.snapshots[id := row]))
  }

  predicate CheckHolds(row: Row) {
    match row.0
    case EntityKey(id) => id.code != "" && row.1.EntityData? && (row.1.status == "active" || row.1.status == "inactive")
    case DescriptionKey(_, _) => row.1.DescriptionData? && row.1.text != ""
    case AliasKey(_, alias) => row.1.AliasData? && alias != ""
    case ScopeKey(_, _, _) => row.1.ScopeData?
  }

  /** The foreign key: an entity row needs its snapshot, every other row its entity. */
  predicate Referenced(t: Tables, key: Key) {
    if key.EntityKey? then key.id.snapshotId in t.snapshots else EntityKey(key.id) in t.content
  }

  function InsertRow(t: Tables, row: Row): Result<Tables> {
    if row.0 in t.content then Raise("UniqueViolation")
    else if !Referenced(t, row.0) then Raise("ForeignKeyViolation")
    else if !CheckHolds(row) then Raise("CheckViolation")
    else Ok(t.(content := t.content[row.0 := row.1]))
  }

  function Run(t: Tables, rows: seq<Row>): Result<Tables> {
    if rows == [] then Ok(t)
    else
      var before := Run(t, rows[..|rows| - 1]);
      if before.Raise? then before else InsertRow(before.value, rows[|rows| - 1])
  }

  function Supersede(t: Tables, coverage: Coverage): Tables {
    t.(snapshots := map id | id in t.snapshots ::
         if t.snapshots[id].coverage == coverage && t.snapshots[id].status == ACTIVE
         then t.snapshots[id].(status := SUPERSEDED) else t.snapshots[id])
  }

  function Activate(t: Tables, id: string): Tables {
    if id in t.snapshots then t.(snapshots := t.snapshots[id := t.snapshots[id].(status := ACTIVE)]) else t
  }

  // ---------------------------------------------------------------- the rows of a document

  function CoverageOf(d: Document): Coverage {
    if d.batch.None? then Coverage("", "", "")
    else
      Coverage(d.batch.value.sourceSystem.GetOr(""), d.batch.value.client.GetOr(""), d.batch.value.objectType.GetOr(""))
  }

  function DescriptionRows(id: EntityId, descriptions: seq<Description>): seq<Row> {
    seq(|descriptions|, i requires 0 <= i < |descriptions| =>
      (DescriptionKey(id, descriptions[i].language.GetOr("")),
       DescriptionData(descriptions[i].text.GetOr(""), descriptions[i].official)))
  }

  function AliasRows(id: EntityId, aliases: seq<AliasEntry>): seq<Row> {
    seq(|aliases|, i requires 0 <= i < |aliases| =>
      (AliasKey(id, aliases[i].alias.GetOr("")),
       AliasData(aliases[i].source.GetOr(""), aliases[i].scope.GetOr(""), aliases[i].active)))
  }

  function ScopeRows(id: EntityId, scopes: seq<OrgScope>): seq<Row> {
    seq(|scopes|, i requires 0 <= i < |scopes| =>
      (ScopeKey(id, scopes[i].field.GetOr(""), scopes[i].value.GetOr("")), ScopeData))
  }

  function EntityRow(id: EntityId, e: Entity): Row
    requires e.Entity?
  {
    (EntityKey(id), EntityData(e.status.GetOr(""), e.attributes))
  }

  function EntityRows(snapshotId: string, coverage: Coverage, e: Entity): seq<Row> {
    if !e.Entity? then []
    else
      var id := EntityId(snapshotId, coverage, CodeOf(e));
      [EntityRow(id, e)] + DescriptionRows(id, e.descriptions.GetOr([])) + AliasRows(id, e.aliases) + ScopeRows(id, e.orgScopes)
  }

  function RowsOf(snapshotId: string, coverage: Coverage, entities: seq<Entity>): seq<Row> {
    if entities == [] then []
    else RowsOf(snapshotId, coverage, entities[..|entities| - 1]) + EntityRows(snapshotId, coverage, entities[|entities| - 1])
  }

  /** `system:client:type:` and the first twelve digits of the hash. */
  function SnapshotId(coverage: Coverage, contentHash: string): string {
    coverage.sourceSystem + ":" + coverage.client + ":" + coverage.objectType + ":"
    + if |contentHash| < 12 then contentHash else contentHash[..12]
  }

  function NewRow(d: Document, contentHash: string): SnapshotRow {
    SnapshotRow(CoverageOf(d), contentHash, if d.batch.Some? then d.batch.value.sourceExtractedAt else None, LOADING)
  }

  /** The transaction: stage the snapshot and its rows, supersede, activate. */
  ghost function Published(t: Tables, d: Document, contentHash: string): Result<Tables> {
    var coverage := CoverageOf(d);
    var id := SnapshotId(coverage, contentHash);
    var staged := InsertSnapshot(t, id, NewRow(d, contentHash));
    if staged.Raise? then staged
    else
      var filled := Run(staged.value, RowsOf(id, coverage, d.entities.GetOr([])));
      if filled.Raise? then filled else Ok(Activate(Supersede(filled.value, coverage), id))
  }

  /** How many statements the transaction sends. */
  function Statements(d: Document, contentHash: string): nat {
    |RowsOf(SnapshotId(CoverageOf(d), contentHash), CoverageOf(d), d.entities.GetOr([]))| + 3
  }

  lemma {:induction false} RunAppend(t: Tables, a: seq<Row>, b: seq<Row>)
    ensures Run(t, a + b) == if Run(t, a).Raise? then Run(t, a) else Run(Run(t, a).value, b)
    decreases |b|
  {
    if b == [] {
      assert a + b == a;
    } else {
      RunAppend(t, a, b[..|b| - 1]);
      assert (a + b)[..|a + b| - 1] == a + b[..|b| - 1];
    }
  }

  // ---------------------------------------------------------------- the importer

  datatype Report = Report(
    snapshotId: Option<string>,
    entityCount: nat,
    dryRun: bool,
    idempotentReuse: bool,
    superseded: set<string>,
    errors: seq<string>)

  function ActiveOf(t: Tables, coverage: Coverage): set<string> {
    set id | id in t.snapshots && t.snapshots[id].coverage == coverage && t.snapshots[id].status == ACTIVE
  }

  /** The active snapshots that already hold this very content. */
  function Reusable(t: Tables, coverage: Coverage, contentHash: string): set<string> {
    set id | id in ActiveOf(t, coverage) && t.snapshots[id].contentHash == contentHash
  }

  /** Inserts rows until the connection is lost, which happens after `patience` statements. */
  method InsertRows(t: Tables, rows: seq<Row>, patience: nat) returns (r: Result<Tables>, left: nat)
    ensures left <= patience
    ensures r.Ok? ==> r == Run(t, rows) && left + |rows| == patience
    ensures r.Raise? ==> patience < |rows| || Run(t, rows).Raise?
  {
    var work := t;
    left := patience;
    for i := 0 to |rows|
      invariant Run(t, rows[..i]) == Ok(work) && left + i == patience
    {
      assert rows[..i + 1][..i] == rows[..i];
      if left == 0 { return Raise("ConnectionLost"), left; }
      left := left - 1;
      var step := InsertRow(work, rows[i]);
      if step.Raise? {
        assert rows == rows[..i + 1] + rows[i + 1..];
        RunAppend(t, rows[..i + 1], rows[i + 1..]);
        return Raise(step.error), left;
      }
      work := step.value;
    }
    assert rows[..|rows|] == rows;
    r := Ok(work);
  }

  /** One entity: its row, then its descriptions, aliases and organisational scopes. */
  method InsertEntity(t: Tables, snapshotId: string, coverage: Coverage, e: Entity, patience: nat) returns (r: Result<Tables>, left: nat)
    requires e.Entity?
    ensures left <= patience
    ensures r.Ok? ==> r == Run(t, EntityRows(snapshotId, coverage, e)) && left + |EntityRows(snapshotId, coverage, e)| == patience
    ensures r.Raise? ==> patience < |EntityRows(snapshotId, coverage, e)| || Run(t, EntityRows(snapshotId, coverage, e)).Raise?
  {
    hide Run, InsertRow;
    var id := EntityId(snapshotId, coverage, CodeOf(e));
    var head, descriptions, aliases, scopes :=
      [EntityRow(id, e)], DescriptionRows(id, e.descriptions.GetOr([])), AliasRows(id, e.aliases), ScopeRows(id, e.orgScopes);
    RunAppend(t, head, descriptions);
    RunAppend(t, head + descriptions, aliases);
    RunAppend(t, head + descriptions + aliases, scopes);
    r, left := InsertRows(t, head, patience);
    if r.Raise? { return; }
    r, left := InsertRows(r.value, descriptions, left);
    if r.Raise? { return; }
    r, left := InsertRows(r.value, aliases, left);
    if r.Raise? { return; }
    r, left := InsertRows(r.value, scopes, left);
  }

  method InsertEntities(t: Tables, snapshotId: string, coverage: Coverage, entities: seq<Entity>, patience: nat)
    returns (r: Result<Tables>, left: nat)
    requires forall i :: 0 <= i < |entities| ==> entities[i].Entity?
    ensures left <= patience
    ensures r.Ok? ==> r == Run(t, RowsOf(snapshotId, coverage, entities)) && left + |RowsOf(snapshotId, coverage, entities)| == patience
    ensures r.Raise? ==> patience < |RowsOf(snapshotId, coverage, entities)| || Run(t, RowsOf(snapshotId, coverage, entities)).Raise?
  {
    hide Run, EntityRows;
    var work := t;
    left := patience;
    RunNothing(t);
    for i := 0 to |entities|
      invariant Run(t, RowsOf(snapshotId, coverage, entities[..i])) == Ok(work)
      invariant left + |RowsOf(snapshotId, coverage, entities[..i])| == patience
    {
      var step;
      step, left := InsertEntity(work, snapshotId, coverage, entities[i], left);
      assert entities[..i + 1][..i] == entities[..i];
      RunAppend(t, RowsOf(snapshotId, coverage, entities[..i]), EntityRows(snapshotId, coverage, entities[i]));
      if step.Raise? {
        MoreRows(t, snapshotId, coverage, entities, i + 1);
        return step, left;
      }
      work := step.value;
    }
    assert entities[..|entities|] == entities;
    r := Ok(work);
  }

  lemma RunNothing(t: Tables)
    ensures Run(t, []) == Ok(t)
  {}

  lemma {:induction false} MoreRows(t: Tables, snapshotId: string, coverage: Coverage, entities: seq<Entity>, k: nat)
    requires k <= |entities|
    ensures |RowsOf(snapshotId, coverage, entities[..k])| <= |RowsOf(snapshotId, coverage, entities)|
    ensures Run(t, RowsOf(snapshotId, coverage, entities[..k])).Raise? ==> Run(t, RowsOf(snapshotId, coverage, entities)).Raise?
    decreases |entities|
  {
    if k < |entities| {
      var n := |entities| - 1;
      MoreRows(t, snapshotId, coverage, entities[..n], k);
      assert entities[..n][..k] == entities[..k];
      RunAppend(t, RowsOf(snapshotId, coverage, entities[..n]), EntityRows(snapshotId, coverage, entities[n]));
    } else {
      assert entities[..k] == entities;
    }
  }

  /** What one import does to the committed tables. */
  ghost predicate Imported(rules: Rules, hash: Document -> string, d: Document, dryRun: bool, t: Tables, r: Result<Report>, after: Tables) {
    var coverage := CoverageOf(d);
    if !Publishable(rules, d) then
      r.Ok? && r.value.errors != [] && r.value.snapshotId == None && after == t
    else if r.Raise? then
      after == t
    else
      && r.value.errors == [] && r.value.entityCount == |d.entities.value| && r.value.dryRun == dryRun
      && if Reusable(t, coverage, hash(d)) != {} then
           after == t && r.value.idempotentReuse
           && r.value.snapshotId.Some? && r.value.snapshotId.value in Reusable(t, coverage, hash(d))
         else
           && !r.value.idempotentReuse && r.value.snapshotId == Some(SnapshotId(coverage, hash(d)))
           && r.value.superseded == ActiveOf(t, coverage)
           && if dryRun then after == t else Published(t, d, hash(d)) == Ok(after)
  }

  /** An import only raises when the connection is lost, or when a statement of its transaction is refused. */
  ghost predicate Excused(hash: Document -> string, d: Document, dryRun: bool, patience: nat, t: Tables, r: Result<Report>) {
    r.Raise? ==>
      || patience < 2 + Statements(d, hash(d))
      || (Reusable(t, CoverageOf(d), hash(d)) == {} && !dryRun && Published(t, d, hash(d)).Raise?)
  }

  class Store {
    var tables: Tables

    constructor ()
      ensures tables == EMPTY
    {
      tables := EMPTY;
    }

    /** The connection is lost after `patience` statements, so an import can be cut off anywhere. Readers
        see `tables`, which is assigned once, when the transaction commits. */
    method ImportSnapshot(rules: Rules, hash: Document -> string, d: Document, dryRun: bool, patience: nat) returns (r: Result<Report>)
      modifies this
      ensures Imported(rules, hash, d, dryRun, old(tables), r, tables)
      ensures Excused(hash, d, dryRun, patience, old(tables), r)
    {
      var errors := ValidateBatch(rules, d);
      if errors != [] { return Ok(Report(None, 0, dryRun, false, {}, errors)); }
      AllEntities(rules, d);
      hide Publishable, RowsOf, Run;
      var count := |d.entities.value|;
      var coverage := CoverageOf(d);
      var contentHash := hash(d);
      var snapshotId := SnapshotId(coverage, contentHash);
      var left := patience;
      if left == 0 { return Raise("ConnectionLost"); }
      left := left - 1;
      var existing := Reusable(tables, coverage, contentHash);
      if existing != {} {
        var id :| id in existing;
        return Ok(Report(Some(id), count, dryRun, true, {}, []));
      }
      if left == 0 { return Raise("ConnectionLost"); }
      left := left - 1;
      var superseded := ActiveOf(tables, coverage);
      if dryRun { return Ok(Report(Some(snapshotId), count, true, false, superseded, [])); }

      var work := tables;
      if left == 0 { return Raise("ConnectionLost"); }
      left := left - 1;
      var taken := Taken(work, coverage, contentHash);
      if snapshotId in work.snapshots || taken { return Raise("UniqueViolation"); }
      work := work.(snapshots := work.snapshots[snapshotId := NewRow(d, contentHash)]);
      var filled;
      filled, left := InsertEntities(work, snapshotId, coverage, d.entities.value, left);
      if filled.Raise? { return Raise(filled.error); }
      work := filled.value;
      if left == 0 { return Raise("ConnectionLost"); }
      left := left - 1;
      work := Supersede(work, coverage);
      if left == 0 { return Raise("ConnectionLost"); }
      work := Activate(work, snapshotId);
      tables := work;
      r := Ok(Report(Some(snapshotId), count, false, false, superseded, []));
    }
  }

  lemma AllEntities(rules: Rules, d: Document)
    requires Publishable(rules, d)
    ensures d.entities.Some? && d.batch.Some? && forall i :: 0 <= i < |d.entities.value| ==> d.entities.value[i].Entity?
  {}

  /** The unique index on the content hash. */
  method Taken(t: Tables, coverage: Coverage, contentHash: string) returns (taken: bool)
    ensures taken <==> HashTaken(t, coverage, contentHash)
  {
    var todo := t.snapshots.Keys;
    while todo != {}
      invariant todo <= t.snapshots.Keys
      invariant forall id :: id in t.snapshots.Keys - todo ==>
                  t.snapshots[id].coverage != coverage || t.snapshots[id].contentHash != contentHash
    {
      var id :| id in todo;
      todo := todo - {id};
      if t.snapshots[id].coverage == coverage && t.snapshots[id].contentHash == contentHash { return true; }
    }
    taken := false;
  }
}
