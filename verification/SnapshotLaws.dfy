/** What any run of imports keeps, and when an import is published. */
module SnapshotLaws {
  import opened Basics
  import opened SnapshotStore

  // ---------------------------------------------------------------- rows and keys

  function Keys(rows: seq<Row>): seq<Key> { seq(|rows|, i requires 0 <= i < |rows| => rows[i].0) }

  function RowMap(rows: seq<Row>): map<Key, Data> {
    if rows == [] then map[] else RowMap(rows[..|rows| - 1])[rows[|rows| - 1].0 := rows[|rows| - 1].1]
  }

  lemma {:induction false} RowMapKeys(rows: seq<Row>, key: Key)
    ensures key in RowMap(rows) <==> key in Keys(rows)
  {
    if rows != [] {
      var n := |rows| - 1;
      RowMapKeys(rows[..n], key);
      assert Keys(rows) == Keys(rows[..n]) + [rows[n].0];
    }
  }

  /** Every row can be inserted when its turn comes. */
  ghost predicate Insertable(t: Tables, rows: seq<Row>) {
    && Distinct(Keys(rows))
    && forall i :: 0 <= i < |rows| ==> InsertableAt(t, rows, i)
  }

  ghost predicate InsertableAt(t: Tables, rows: seq<Row>, i: nat)
    requires i < |rows|
  {
    && rows[i].0 !in t.content && CheckHolds(rows[i])
    && (Referenced(t, rows[i].0) || (!rows[i].0.EntityKey? && EntityKey(rows[i].0.id) in Keys(rows[..i])))
  }

  lemma InsertableSnoc(t: Tables, rows: seq<Row>, last: Row)
    ensures Insertable(t, rows + [last]) <==>
            Insertable(t, rows) && last.0 !in Keys(rows) && InsertableAt(t, rows + [last], |rows|)
  {
    var all := rows + [last];
    assert Keys(all) == Keys(rows) + [last.0];
    DistinctSnoc(Keys(rows), last.0);
    assert forall i :: 0 <= i < |rows| ==> all[..i] == rows[..i];
    assert forall i :: 0 <= i < |rows| ==> InsertableAt(t, all, i) == InsertableAt(t, rows, i);
    if Insertable(t, all) { assert InsertableAt(t, all, |rows|); }
  }

  /** The transaction inserts all rows exactly when each of them is insertable, and then adds just them. */
  lemma {:induction false} RunExactly(t: Tables, rows: seq<Row>)
    ensures Run(t, rows).Ok? <==> Insertable(t, rows)
    ensures Run(t, rows).Ok? ==> Run(t, rows).value == t.(content := t.content + RowMap(rows))
  {
    if rows == [] {
      assert t.content + RowMap(rows) == t.content;
    } else {
      var n := |rows| - 1;
      var before, last := rows[..n], rows[n];
      RunExactly(t, before);
      InsertableSnoc(t, before, last);
      assert rows == before + [last];
      assert rows[..n] == before;
      if Run(t, before).Ok? {
        var u := Run(t, before).value;
        RowMapKeys(before, last.0);
        RowMapKeys(before, EntityKey(last.0.id));
        assert InsertRow(u, last).Ok? <==> last.0 !in u.content && Referenced(u, last.0) && CheckHolds(last);
        assert u.content[last.0 := last.1] == t.content + RowMap(rows);
      }
    }
  }

  // ---------------------------------------------------------------- the rows of one document

  lemma KeysAppend(a: seq<Row>, b: seq<Row>)
    ensures Keys(a + b) == Keys(a) + Keys(b)
  {}

  lemma DistinctAppend<T>(a: seq<T>, b: seq<T>)
    ensures Distinct(a + b) <==> Distinct(a) && Distinct(b) && forall x :: x in a ==> x !in b
  {
    var all := a + b;
    if Distinct(all) {
      forall i, j | 0 <= i < j < |a| ensures a[i] != a[j] { assert all[i] != all[j]; }
      forall i, j | 0 <= i < j < |b| ensures b[i] != b[j] { assert all[|a| + i] != all[|a| + j]; }
      forall x | x in a ensures x !in b {
        var i :| 0 <= i < |a| && a[i] == x;
        forall j | 0 <= j < |b| ensures b[j] != x { assert all[i] != all[|a| + j]; }
      }
    }
    if Distinct(a) && Distinct(b) && forall x :: x in a ==> x !in b {
      forall i, j | 0 <= i < j < |all| ensures all[i] != all[j] {
        if i < |a| <= j { assert a[i] in a && b[j - |a|] in b; }
      }
    }
  }

  function Languages(ds: seq<Description>): seq<string> { seq(|ds|, i requires 0 <= i < |ds| => ds[i].language.GetOr("")) }

  function AliasNames(aliases: seq<AliasEntry>): seq<string> {
    seq(|aliases|, i requires 0 <= i < |aliases| => aliases[i].alias.GetOr(""))
  }

  function ScopePairs(scopes: seq<OrgScope>): seq<(string, string)> {
    seq(|scopes|, i requires 0 <= i < |scopes| => (scopes[i].field.GetOr(""), scopes[i].value.GetOr("")))
  }

  /** No language, alias or scope is listed twice for the entity. */
  ghost predicate EachOnce(e: Entity) {
    e.Entity? ==>
      Distinct(Languages(e.descriptions.GetOr([]))) && Distinct(AliasNames(e.aliases)) && Distinct(ScopePairs(e.orgScopes))
  }

  lemma DescriptionKeys(id: EntityId, ds: seq<Description>)
    ensures Distinct(Keys(DescriptionRows(id, ds))) <==> Distinct(Languages(ds))
  {
    var keys := Keys(DescriptionRows(id, ds));
    assert forall i, j :: 0 <= i < j < |ds| ==> (keys[i] == keys[j] <==> Languages(ds)[i] == Languages(ds)[j]);
  }

  lemma AliasKeys(id: EntityId, aliases: seq<AliasEntry>)
    ensures Distinct(Keys(AliasRows(id, aliases))) <==> Distinct(AliasNames(aliases))
  {
    var keys := Keys(AliasRows(id, aliases));
    assert forall i, j :: 0 <= i < j < |aliases| ==> (keys[i] == keys[j] <==> AliasNames(aliases)[i] == AliasNames(aliases)[j]);
  }

  lemma ScopeKeys(id: EntityId, scopes: seq<OrgScope>)
    ensures Distinct(Keys(ScopeRows(id, scopes))) <==> Distinct(ScopePairs(scopes))
  {
    var keys := Keys(ScopeRows(id, scopes));
    assert forall i, j :: 0 <= i < j < |scopes| ==> (keys[i] == keys[j] <==> ScopePairs(scopes)[i] == ScopePairs(scopes)[j]);
  }

  ghost predicate Apart<T>(a: seq<T>, b: seq<T>) { forall x :: x in a ==> x !in b }

  lemma JoinFour<T>(x: T, b: seq<T>, c: seq<T>, d: seq<T>)
    requires Apart([x], b) && Apart([x] + b, c) && Apart([x] + b + c, d)
    ensures Distinct([x] + b + c + d) <==> Distinct(b) && Distinct(c) && Distinct(d)
  {
    DistinctAppend([x], b);
    DistinctAppend([x] + b, c);
    DistinctAppend([x] + b + c, d);
  }

  lemma EntityKeysDistinct(snapshotId: string, coverage: Coverage, e: Entity)
    ensures Distinct(Keys(EntityRows(snapshotId, coverage, e))) <==> EachOnce(e)
  {
    if e.Entity? {
      var id := EntityId(snapshotId, coverage, CodeOf(e));
      var ds, as_, ss := DescriptionRows(id, e.descriptions.GetOr([])), AliasRows(id, e.aliases), ScopeRows(id, e.orgScopes);
      assert Keys(EntityRows(snapshotId, coverage, e)) == [EntityKey(id)] + Keys(ds) + Keys(as_) + Keys(ss);
      KeyKinds(id, e);
      hide Keys, Distinct, DescriptionRows, AliasRows, ScopeRows, Apart;
      JoinFour(EntityKey(id), Keys(ds), Keys(as_), Keys(ss));
      DescriptionKeys(id, e.descriptions.GetOr([]));
      AliasKeys(id, e.aliases);
      ScopeKeys(id, e.orgScopes);
    }
  }

  lemma KeyKinds(id: EntityId, e: Entity)
    requires e.Entity?
    ensures var ds, as_, ss := Keys(DescriptionRows(id, e.descriptions.GetOr([]))), Keys(AliasRows(id, e.aliases)), Keys(ScopeRows(id, e.orgScopes));
            Apart([EntityKey(id)], ds) && Apart([EntityKey(id)] + ds, as_) && Apart([EntityKey(id)] + ds + as_, ss)
  {}

  lemma EntityRowsAre(snapshotId: string, coverage: Coverage, e: Entity, key: Key)
    requires key in Keys(EntityRows(snapshotId, coverage, e))
    ensures e.Entity? && key.id == EntityId(snapshotId, coverage, CodeOf(e))
    ensures EntityKey(key.id) == Keys(EntityRows(snapshotId, coverage, e))[0]
  {}

  lemma {:induction false} RowsOfKeys(snapshotId: string, coverage: Coverage, entities: seq<Entity>, key: Key)
    requires key in Keys(RowsOf(snapshotId, coverage, entities))
    ensures key.id.snapshotId == snapshotId && key.id.coverage == coverage && key.id.code in Codes(entities)
  {
    var n := |entities| - 1;
    KeysAppend(RowsOf(snapshotId, coverage, entities[..n]), EntityRows(snapshotId, coverage, entities[n]));
    assert Codes(entities) == Codes(entities[..n]) + [CodeOf(entities[n])];
    if key in Keys(EntityRows(snapshotId, coverage, entities[n])) {
      EntityRowsAre(snapshotId, coverage, entities[n], key);
    } else {
      RowsOfKeys(snapshotId, coverage, entities[..n], key);
    }
  }

  /** With distinct codes, no key of the document repeats exactly when none repeats inside an entity. */
  lemma {:induction false} DocumentKeysDistinct(snapshotId: string, coverage: Coverage, entities: seq<Entity>)
    requires Distinct(Codes(entities)) && forall i :: 0 <= i < |entities| ==> entities[i].Entity?
    ensures Distinct(Keys(RowsOf(snapshotId, coverage, entities))) <==> forall i :: 0 <= i < |entities| ==> EachOnce(entities[i])
  {
    hide EachOnce, EntityRows;
    if entities != [] {
      var n := |entities| - 1;
      var before := entities[..n];
      assert Codes(entities) == Codes(before) + [CodeOf(entities[n])];
      DistinctSnoc(Codes(before), CodeOf(entities[n]));
      DocumentKeysDistinct(snapshotId, coverage, before);
      EntityKeysDistinct(snapshotId, coverage, entities[n]);
      var a, b := RowsOf(snapshotId, coverage, before), EntityRows(snapshotId, coverage, entities[n]);
      KeysAppend(a, b);
      DistinctAppend(Keys(a), Keys(b));
      forall key | key in Keys(a) ensures key !in Keys(b) {
        RowsOfKeys(snapshotId, coverage, before, key);
        if key in Keys(b) { EntityRowsAre(snapshotId, coverage, entities[n], key); }
      }
    }
  }

  lemma EntityRowsPassChecks(rule: Rule, snapshotId: string, coverage: Coverage, e: Entity)
    requires ValidEntity(rule, e)
    ensures forall i :: 0 <= i < |EntityRows(snapshotId, coverage, e)| ==> CheckHolds(EntityRows(snapshotId, coverage, e)[i])
  {
    var id := EntityId(snapshotId, coverage, CodeOf(e));
    var ds, as_, ss := DescriptionRows(id, e.descriptions.GetOr([])), AliasRows(id, e.aliases), ScopeRows(id, e.orgScopes);
    forall i | 0 <= i < |ds| ensures CheckHolds(ds[i]) { assert ValidDescription(rule, e.descriptions.value[i]); }
    forall i | 0 <= i < |as_| ensures CheckHolds(as_[i]) { assert ValidAlias(e.aliases[i]); }
  }

  /** Rows of known snapshots only, which all pass their checks and come after the entity they belong to. */
  ghost predicate Loadable(snapshotId: string, rows: seq<Row>) {
    forall i :: 0 <= i < |rows| ==>
      && CheckHolds(rows[i]) && rows[i].0.id.snapshotId == snapshotId
      && (rows[i].0.EntityKey? || EntityKey(rows[i].0.id) in Keys(rows[..i]))
  }

  lemma LoadableAppend(snapshotId: string, a: seq<Row>, b: seq<Row>)
    requires Loadable(snapshotId, a) && Loadable(snapshotId, b)
    ensures Loadable(snapshotId, a + b)
  {
    var all := a + b;
    forall i | 0 <= i < |all|
      ensures CheckHolds(all[i]) && all[i].0.id.snapshotId == snapshotId
      ensures all[i].0.EntityKey? || EntityKey(all[i].0.id) in Keys(all[..i])
    {
      if i < |a| {
        assert all[..i] == a[..i];
      } else {
        assert all[..i] == a + b[..i - |a|];
        KeysAppend(a, b[..i - |a|]);
        assert all[i] == b[i - |a|];
      }
    }
  }

  lemma EntityLoadable(rule: Rule, snapshotId: string, coverage: Coverage, e: Entity)
    requires ValidEntity(rule, e)
    ensures Loadable(snapshotId, EntityRows(snapshotId, coverage, e))
  {
    var rows := EntityRows(snapshotId, coverage, e);
    EntityRowsPassChecks(rule, snapshotId, coverage, e);
    forall i | 0 <= i < |rows|
      ensures rows[i].0.id.snapshotId == snapshotId
      ensures rows[i].0.EntityKey? || EntityKey(rows[i].0.id) in Keys(rows[..i])
    {
      assert Keys(rows)[i] == rows[i].0;
      EntityRowsAre(snapshotId, coverage, e, rows[i].0);
      if i > 0 { assert Keys(rows[..i])[0] == rows[0].0; }
    }
  }

  lemma {:induction false} DocumentLoadable(rule: Rule, snapshotId: string, coverage: Coverage, entities: seq<Entity>)
    requires forall i :: 0 <= i < |entities| ==> ValidEntity(rule, entities[i])
    ensures Loadable(snapshotId, RowsOf(snapshotId, coverage, entities))
  {
    hide ValidEntity, EntityRows;
    if entities == [] {
      hide RowsOf;
      NoRows(snapshotId, coverage);
    } else {
      var n := |entities| - 1;
      DocumentLoadable(rule, snapshotId, coverage, entities[..n]);
      EntityLoadable(rule, snapshotId, coverage, entities[n]);
      LoadableAppend(snapshotId, RowsOf(snapshotId, coverage, entities[..n]), EntityRows(snapshotId, coverage, entities[n]));
    }
  }

  lemma NoRows(snapshotId: string, coverage: Coverage)
    ensures RowsOf(snapshotId, coverage, []) == []
  {}

  // ---------------------------------------------------------------- the committed tables

  predicate BothActive(a: SnapshotRow, b: SnapshotRow) { a.status == b.status == ACTIVE && a.coverage == b.coverage }

  /** What holds between imports: nothing is loading, one active snapshot a coverage, snapshot ids made from
      coverage and hash, and every row belonging to a snapshot of its coverage. */
  ghost predicate Consistent(t: Tables) { Settled(t) && IdsMatch(t) && OneActive(t) && Owned(t) }

  ghost predicate Settled(t: Tables) { forall id :: id in t.snapshots ==> t.snapshots[id].status != LOADING }

  ghost predicate IdsMatch(t: Tables) {
    forall id :: id in t.snapshots ==> id == SnapshotId(t.snapshots[id].coverage, t.snapshots[id].contentHash)
  }

  ghost predicate OneActive(t: Tables) {
    forall a, b :: a in t.snapshots && b in t.snapshots && BothActive(t.snapshots[a], t.snapshots[b]) ==> a == b
  }

  ghost predicate Owned(t: Tables) {
    forall key :: key in t.content ==> key.id.snapshotId in t.snapshots && t.snapshots[key.id.snapshotId].coverage == key.id.coverage
  }

  function DocumentRows(d: Document, contentHash: string): seq<Row> {
    RowsOf(SnapshotId(CoverageOf(d), contentHash), CoverageOf(d), d.entities.GetOr([]))
  }

  ghost predicate NothingListedTwice(d: Document) {
    forall i :: 0 <= i < |d.entities.GetOr([])| ==> EachOnce(d.entities.GetOr([])[i])
  }

  lemma LoadableInsertable(t: Tables, snapshotId: string, rows: seq<Row>)
    requires Loadable(snapshotId, rows) && snapshotId in t.snapshots
    requires forall key :: key in t.content ==> key.id.snapshotId != snapshotId
    ensures Insertable(t, rows) <==> Distinct(Keys(rows))
  {
    forall i | 0 <= i < |rows| ensures InsertableAt(t, rows, i) {}
  }

  lemma TakenIsKnown(t: Tables, coverage: Coverage, contentHash: string)
    requires Consistent(t) && HashTaken(t, coverage, contentHash)
    ensures SnapshotId(coverage, contentHash) in t.snapshots
  {
    var id :| id in t.snapshots && t.snapshots[id].coverage == coverage && t.snapshots[id].contentHash == contentHash;
  }

  /** A publishable batch is published exactly when its snapshot id is new and no entity of it lists a
      language, an alias or an organisational scope twice; validation checks neither. */
  lemma PublishedExactlyWhen(rules: Rules, t: Tables, d: Document, contentHash: string)
    requires Consistent(t) && Publishable(rules, d)
    ensures Published(t, d, contentHash).Ok? <==>
            SnapshotId(CoverageOf(d), contentHash) !in t.snapshots && NothingListedTwice(d)
    ensures Published(t, d, contentHash).Ok? ==>
            Published(t, d, contentHash).value.content == t.content + RowMap(DocumentRows(d, contentHash))
  {
    hide Publishable, ValidEntity, Consistent, EachOnce, RowsOf, Run, Insertable, Loadable;
    var coverage := CoverageOf(d);
    var id := SnapshotId(coverage, contentHash);
    var rows := DocumentRows(d, contentHash);
    if HashTaken(t, coverage, contentHash) { TakenIsKnown(t, coverage, contentHash); }
    if id !in t.snapshots {
      var staged := t.(snapshots := t.snapshots[id := NewRow(d, contentHash)]);
      PublishableEntities(rules, d, id, coverage);
      NewIdHasNoRows(t, id);
      LoadableInsertable(staged, id, rows);
      RunExactly(staged, rows);
    }
  }

  lemma NewIdHasNoRows(t: Tables, id: string)
    requires Consistent(t) && id !in t.snapshots
    ensures forall key :: key in t.content ==> key.id.snapshotId != id
  {}

  lemma PublishableEntities(rules: Rules, d: Document, id: string, coverage: Coverage)
    requires Publishable(rules, d)
    ensures d.entities.Some? && Loadable(id, RowsOf(id, coverage, d.entities.value))
    ensures Distinct(Keys(RowsOf(id, coverage, d.entities.value))) <==> NothingListedTwice(d)
  {
    hide ValidEntity, RowsOf, EachOnce;
    assert d.entities.GetOr([]) == d.entities.value;
    DocumentLoadable(rules[d.batch.value.objectType.value], id, coverage, d.entities.value);
    AllEntities(rules, d);
    DocumentKeysDistinct(id, coverage, d.entities.value);
  }

  /** The snapshot table after a publication: the new snapshot active, the earlier active one of the same
      coverage superseded, every other snapshot as it was. */
  lemma PublishedSnapshots(t: Tables, d: Document, contentHash: string)
    requires Published(t, d, contentHash).Ok?
    ensures var after, id := Published(t, d, contentHash).value, SnapshotId(CoverageOf(d), contentHash);
            && id !in t.snapshots && after.snapshots.Keys == t.snapshots.Keys + {id}
            && after.snapshots[id] == NewRow(d, contentHash).(status := ACTIVE)
            && forall other :: other in t.snapshots ==>
                 after.snapshots[other] == if other in ActiveOf(t, CoverageOf(d)) then t.snapshots[other].(status := SUPERSEDED)
                                           else t.snapshots[other]
  {
    hide RowsOf, Run;
    var id := SnapshotId(CoverageOf(d), contentHash);
    var staged := t.(snapshots := t.snapshots[id := NewRow(d, contentHash)]);
    RunExactly(staged, DocumentRows(d, contentHash));
  }

  /** `after` is `t` with one new active snapshot, made of the added rows, in place of the active one. */
  ghost predicate Replaces(t: Tables, after: Tables, id: string, row: SnapshotRow, added: map<Key, Data>) {
    && id !in t.snapshots && row.status == ACTIVE && id == SnapshotId(row.coverage, row.contentHash)
    && after.snapshots.Keys == t.snapshots.Keys + {id} && after.snapshots[id] == row
    && (forall other :: other in t.snapshots ==>
          after.snapshots[other] == if other in ActiveOf(t, row.coverage) then t.snapshots[other].(status := SUPERSEDED)
                                    else t.snapshots[other])
    && after.content == t.content + added
    && (forall key :: key in added ==> key.id.snapshotId == id && key.id.coverage == row.coverage)
  }

  lemma PublishedReplaces(rules: Rules, t: Tables, d: Document, contentHash: string)
    requires Consistent(t) && Publishable(rules, d) && Published(t, d, contentHash).Ok?
    ensures Replaces(t, Published(t, d, contentHash).value, SnapshotId(CoverageOf(d), contentHash),
                     NewRow(d, contentHash).(status := ACTIVE), RowMap(DocumentRows(d, contentHash)))
  {
    PublishedExactlyWhen(rules, t, d, contentHash);
    PublishedSnapshots(t, d, contentHash);
    hide Published, RowsOf, Publishable, SnapshotId, RowMap, Consistent, NothingListedTwice;
    var rows := DocumentRows(d, contentHash);
    forall key | key in RowMap(rows)
      ensures key.id.snapshotId == SnapshotId(CoverageOf(d), contentHash) && key.id.coverage == CoverageOf(d)
    {
      RowMapKeys(rows, key);
      RowsOfKeys(SnapshotId(CoverageOf(d), contentHash), CoverageOf(d), d.entities.GetOr([]), key);
    }
  }

  lemma ReplacedOneActive(t: Tables, after: Tables, id: string, row: SnapshotRow, added: map<Key, Data>)
    requires OneActive(t) && Replaces(t, after, id, row, added)
    ensures OneActive(after)
  {
    hide SnapshotId;
    forall a, b | a in after.snapshots && b in after.snapshots && BothActive(after.snapshots[a], after.snapshots[b])
      ensures a == b
    {
      if a != id && b != id { assert BothActive(t.snapshots[a], t.snapshots[b]); }
    }
  }

  lemma ReplacedOwned(t: Tables, after: Tables, id: string, row: SnapshotRow, added: map<Key, Data>)
    requires Owned(t) && Replaces(t, after, id, row, added)
    ensures Owned(after)
  {
    hide SnapshotId;
  }

  lemma ReplacedConsistent(t: Tables, after: Tables, id: string, row: SnapshotRow, added: map<Key, Data>)
    requires Consistent(t) && Replaces(t, after, id, row, added)
    ensures Consistent(after)
  {
    ReplacedOneActive(t, after, id, row, added);
    ReplacedOwned(t, after, id, row, added);
    hide SnapshotId, OneActive, Owned;
  }

  // ---------------------------------------------------------------- what readers see

  function RowsIn(content: map<Key, Data>, ids: set<string>): map<Key, Data> {
    map key | key in content && key.id.snapshotId in ids :: content[key]
  }

  /** The rows of the current-snapshot views for one coverage. */
  function View(t: Tables, coverage: Coverage): map<Key, Data> { RowsIn(t.content, ActiveOf(t, coverage)) }

  lemma ReplacedActive(t: Tables, after: Tables, id: string, row: SnapshotRow, added: map<Key, Data>, coverage: Coverage)
    requires Replaces(t, after, id, row, added)
    ensures ActiveOf(after, coverage) == if coverage == row.coverage then {id} else ActiveOf(t, coverage)
  {
    hide SnapshotId;
  }

  lemma RowsOfNewId(content: map<Key, Data>, added: map<Key, Data>, id: string, ids: set<string>)
    requires forall key :: key in content ==> key.id.snapshotId != id
    requires forall key :: key in added ==> key.id.snapshotId == id
    ensures RowsIn(content + added, {id}) == added
    ensures id !in ids ==> RowsIn(content + added, ids) == RowsIn(content, ids)
  {
    assert RowsIn(content + added, {id}).Keys == added.Keys;
    if id !in ids { assert RowsIn(content + added, ids).Keys == RowsIn(content, ids).Keys; }
  }

  /** After a publication readers of the coverage see exactly the added rows, and readers of every other
      coverage see what they saw before. */
  lemma ReplacedView(t: Tables, after: Tables, id: string, row: SnapshotRow, added: map<Key, Data>, coverage: Coverage)
    requires Consistent(t) && Replaces(t, after, id, row, added)
    ensures View(after, coverage) == if coverage == row.coverage then added else View(t, coverage)
  {
    ReplacedActive(t, after, id, row, added, coverage);
    NewIdHasNoRows(t, id);
    assert id !in ActiveOf(t, coverage);
    RowsOfNewId(t.content, added, id, ActiveOf(t, coverage));
    hide Consistent, ActiveOf, RowsIn, SnapshotId;
  }

  // ---------------------------------------------------------------- runs

  /** One import: dry or not, on a connection that is lost after so many statements, and what it reported. */
  datatype Import = Import(document: Document, dryRun: bool, patience: nat, report: Result<Report>)

  /** Serial imports from the empty tables; `states[i]` is committed before import `i`. */
  ghost predicate Imports(rules: Rules, hash: Document -> string, states: seq<Tables>, calls: seq<Import>) {
    && |states| == |calls| + 1 && states[0] == EMPTY
    && forall i :: 0 <= i < |calls| ==>
         && Imported(rules, hash, calls[i].document, calls[i].dryRun, states[i], calls[i].report, states[i + 1])
         && Excused(hash, calls[i].document, calls[i].dryRun, calls[i].patience, states[i], calls[i].report)
  }

  /** The report says that this import published its document. */
  predicate Publishes(call: Import) {
    call.report.Ok? && call.report.value.errors == [] && !call.report.value.idempotentReuse && !call.dryRun
  }

  function LastPublished(calls: seq<Import>, coverage: Coverage): Option<Document> {
    if calls == [] then None
    else
      var last := calls[|calls| - 1];
      if Publishes(last) && CoverageOf(last.document) == coverage then Some(last.document)
      else LastPublished(calls[..|calls| - 1], coverage)
  }

  /** An import changes the tables only by publishing: errors, dry runs, lost connections, constraint
      violations and repeated content leave them untouched. */
  lemma OnlyPublishingChanges(rules: Rules, hash: Document -> string, call: Import, t: Tables, after: Tables)
    requires Imported(rules, hash, call.document, call.dryRun, t, call.report, after)
    ensures if Publishes(call)
            then Publishable(rules, call.document) && Published(t, call.document, hash(call.document)) == Ok(after)
            else after == t
  {
    hide Publishable, Published;
  }

  lemma {:induction false} RunConsistent(rules: Rules, hash: Document -> string, states: seq<Tables>, calls: seq<Import>, n: nat)
    requires Imports(rules, hash, states, calls) && n <= |calls|
    ensures Consistent(states[n])
  {
    if n > 0 {
      RunConsistent(rules, hash, states, calls, n - 1);
      var call := calls[n - 1];
      OnlyPublishingChanges(rules, hash, call, states[n - 1], states[n]);
      hide Consistent, Published, Publishable;
      if Publishes(call) {
        PublishedReplaces(rules, states[n - 1], call.document, hash(call.document));
        ReplacedConsistent(states[n - 1], states[n], IdOf(hash, call.document),
                           NewRow(call.document, hash(call.document)).(status := ACTIVE), RowMap(DocumentRows(call.document, hash(call.document))));
      }
    }
  }

  /** Whatever was imported, in whatever order and however it was cut off: at most one snapshot of a
      coverage is active, none is left loading. */
  lemma OneActiveSnapshot(rules: Rules, hash: Document -> string, states: seq<Tables>, calls: seq<Import>, n: nat, coverage: Coverage)
    requires Imports(rules, hash, states, calls) && n <= |calls|
    ensures |ActiveOf(states[n], coverage)| <= 1
    ensures forall id :: id in states[n].snapshots ==> states[n].snapshots[id].status != LOADING
  {
    RunConsistent(rules, hash, states, calls, n);
    var active := ActiveOf(states[n], coverage);
    if active != {} {
      var a :| a in active;
      assert forall b :: b in active ==> BothActive(states[n].snapshots[a], states[n].snapshots[b]);
      assert active == {a};
    }
  }

  /** What readers of the coverage see is the document, whole, and its snapshot is the active one. */
  ghost predicate Shows(rules: Rules, hash: Document -> string, t: Tables, coverage: Coverage, last: Option<Document>) {
    match last
    case None => View(t, coverage) == map[] && ActiveOf(t, coverage) == {}
    case Some(d) =>
      && CoverageOf(d) == coverage && Publishable(rules, d)
      && View(t, coverage) == RowMap(DocumentRows(d, hash(d)))
      && ActiveOf(t, coverage) == {IdOf(hash, d)}
      && IdOf(hash, d) in t.snapshots && t.snapshots[IdOf(hash, d)].contentHash == hash(d)
  }

  function Latest(call: Import, coverage: Coverage, before: Option<Document>): Option<Document> {
    if Publishes(call) && CoverageOf(call.document) == coverage then Some(call.document) else before
  }

  lemma ImportShows(rules: Rules, hash: Document -> string, call: Import, t: Tables, after: Tables, coverage: Coverage, last: Option<Document>)
    requires Consistent(t) && Shows(rules, hash, t, coverage, last)
    requires Imported(rules, hash, call.document, call.dryRun, t, call.report, after)
    ensures Shows(rules, hash, after, coverage, Latest(call, coverage, last))
  {
    OnlyPublishingChanges(rules, hash, call, t, after);
    hide Consistent, Published, Publishable, View, RowMap, Imported, RowsOf, SnapshotId;
    if Publishes(call) {
      var d := call.document;
      var id, row, added := IdOf(hash, d), NewRow(d, hash(d)).(status := ACTIVE), RowMap(DocumentRows(d, hash(d)));
      PublishedReplaces(rules, t, d, hash(d));
      ReplacedActive(t, after, id, row, added, coverage);
      ReplacedView(t, after, id, row, added, coverage);
    }
  }

  /** Readers of a coverage always see one whole batch: the rows of the document published last for it, or
      nothing before the first publication. */
  lemma {:induction false} ReadersSeeLastPublished(rules: Rules, hash: Document -> string, states: seq<Tables>, calls: seq<Import>,
                                                   n: nat, coverage: Coverage)
    requires Imports(rules, hash, states, calls) && n <= |calls|
    ensures Shows(rules, hash, states[n], coverage, LastPublished(calls[..n], coverage))
  {
    hide Consistent, Imported, Shows;
    if n == 0 {
      EmptyShows(rules, hash, coverage);
      assert calls[..0] == [];
    } else {
      ReadersSeeLastPublished(rules, hash, states, calls, n - 1, coverage);
      RunConsistent(rules, hash, states, calls, n - 1);
      assert calls[..n][..n - 1] == calls[..n - 1] && calls[..n][n - 1] == calls[n - 1];
      ImportShows(rules, hash, calls[n - 1], states[n - 1], states[n], coverage, LastPublished(calls[..n - 1], coverage));
    }
  }

  lemma EmptyShows(rules: Rules, hash: Document -> string, coverage: Coverage)
    ensures Shows(rules, hash, EMPTY, coverage, None)
  {
    assert ActiveOf(EMPTY, coverage) == {} && View(EMPTY, coverage) == map[];
  }

  // ---------------------------------------------------------------- importing the same content again

  lemma ImportIds(rules: Rules, hash: Document -> string, call: Import, t: Tables, after: Tables)
    requires Imported(rules, hash, call.document, call.dryRun, t, call.report, after)
    ensures after.snapshots.Keys == t.snapshots.Keys + if Publishes(call) then {IdOf(hash, call.document)} else {}
  {
    OnlyPublishingChanges(rules, hash, call, t, after);
    hide Imported, Published, Publishable, SnapshotId;
    if Publishes(call) { PublishedSnapshots(t, call.document, hash(call.document)); }
  }

  lemma {:induction false} KnownIds(rules: Rules, hash: Document -> string, states: seq<Tables>, calls: seq<Import>, n: nat, id: string)
    requires Imports(rules, hash, states, calls) && n <= |calls|
    ensures id in states[n].snapshots <==>
            exists i :: 0 <= i < n && Publishes(calls[i]) && IdOf(hash, calls[i].document) == id
  {
    if n > 0 {
      hide Imported, Excused, Publishes, IdOf;
      KnownIds(rules, hash, states, calls, n - 1, id);
      assert Imported(rules, hash, calls[n - 1].document, calls[n - 1].dryRun, states[n - 1], calls[n - 1].report, states[n]);
      hide Imports;
      ImportIds(rules, hash, calls[n - 1], states[n - 1], states[n]);
    }
  }

  function IdOf(hash: Document -> string, d: Document): string { SnapshotId(CoverageOf(d), hash(d)) }

  /** The content that readers of its coverage see now. */
  predicate InForce(hash: Document -> string, calls: seq<Import>, d: Document) {
    var last := LastPublished(calls, CoverageOf(d));
    last.Some? && hash(last.value) == hash(d)
  }

  lemma ReusableInForce(rules: Rules, hash: Document -> string, states: seq<Tables>, calls: seq<Import>, j: nat, d: Document)
    requires Imports(rules, hash, states, calls) && j <= |calls|
    ensures Reusable(states[j], CoverageOf(d), hash(d)) != {} <==> InForce(hash, calls[..j], d)
  {
    var coverage := CoverageOf(d);
    ReadersSeeLastPublished(rules, hash, states, calls, j, coverage);
    hide Publishable, View, SnapshotId, Imports;
    match LastPublished(calls[..j], coverage)
    case None =>
    case Some(last) =>
      assert IdOf(hash, last) in ActiveOf(states[j], coverage);
      if hash(last) == hash(d) { assert IdOf(hash, last) in Reusable(states[j], coverage, hash(d)); }
  }

  /** An import is reported as a repetition exactly when its content is the one in force, and then changes
      nothing. */
  lemma RepetitionIsNoOp(rules: Rules, hash: Document -> string, states: seq<Tables>, calls: seq<Import>, j: nat)
    requires Imports(rules, hash, states, calls) && j < |calls|
    requires Publishable(rules, calls[j].document) && calls[j].report.Ok?
    ensures calls[j].report.value.idempotentReuse <==> InForce(hash, calls[..j], calls[j].document)
    ensures calls[j].report.value.idempotentReuse ==> states[j + 1] == states[j]
  {
    var d := calls[j].document;
    ReusableInForce(rules, hash, states, calls, j, d);
    assert Imported(rules, hash, d, calls[j].dryRun, states[j], calls[j].report, states[j + 1]);
    hide Publishable, Published, Reusable, Imports, InForce;
  }

  /** Content that was published once and is no longer in force cannot be published again: every later
      attempt to import it, however patient the connection, raises, so rolling back by importing an
      earlier export again does not work. A dry run of the same import reports no problem. */
  lemma SupersededContentNeverReturns(rules: Rules, hash: Document -> string, states: seq<Tables>, calls: seq<Import>, i: nat, j: nat)
    requires Imports(rules, hash, states, calls) && i < j < |calls|
    requires Publishes(calls[i]) && calls[j].document == calls[i].document
    requires !InForce(hash, calls[..j], calls[j].document)
    ensures !calls[j].dryRun ==> calls[j].report.Raise? && states[j + 1] == states[j]
    ensures calls[j].report.Ok? ==> calls[j].report.value.errors == [] && !calls[j].report.value.idempotentReuse
  {
    var d := calls[j].document;
    assert Imported(rules, hash, calls[i].document, calls[i].dryRun, states[i], calls[i].report, states[i + 1]);
    assert Imported(rules, hash, d, calls[j].dryRun, states[j], calls[j].report, states[j + 1]);
    hide Imported;
    OnlyPublishingChanges(rules, hash, calls[i], states[i], states[i + 1]);
    KnownIds(rules, hash, states, calls, j, IdOf(hash, d));
    RunConsistent(rules, hash, states, calls, j);
    PublishedExactlyWhen(rules, states[j], d, hash(d));
    OnlyPublishingChanges(rules, hash, calls[j], states[j], states[j + 1]);
    if calls[j].report.Ok? {
      RepetitionIsNoOp(rules, hash, states, calls, j);
      NoErrors(rules, hash, d, calls[j].dryRun, states[j], calls[j].report, states[j + 1]);
    }
  }

  lemma NoErrors(rules: Rules, hash: Document -> string, d: Document, dryRun: bool, t: Tables, r: Result<Report>, after: Tables)
    requires Imported(rules, hash, d, dryRun, t, r, after) && Publishable(rules, d) && r.Ok?
    ensures r.value.errors == []
  {}

  /** In any run, an import of a publishable document on a connection that lasts is published exactly when
      no earlier import published its snapshot id and it lists nothing twice. */
  lemma PublishedInRunExactlyWhen(rules: Rules, hash: Document -> string, states: seq<Tables>, calls: seq<Import>, j: nat)
    requires Imports(rules, hash, states, calls) && j < |calls| && Publishable(rules, calls[j].document)
    requires !calls[j].dryRun && calls[j].patience >= 2 + Statements(calls[j].document, hash(calls[j].document))
    ensures Publishes(calls[j]) <==>
            NothingListedTwice(calls[j].document)
            && !exists i :: 0 <= i < j && Publishes(calls[i]) && IdOf(hash, calls[i].document) == IdOf(hash, calls[j].document)
  {
    var call := calls[j];
    var d := call.document;
    RunConsistent(rules, hash, states, calls, j);
    PublishedExactlyWhen(rules, states[j], d, hash(d));
    KnownIds(rules, hash, states, calls, j, IdOf(hash, d));
    assert Excused(hash, d, call.dryRun, call.patience, states[j], call.report);
    assert Imported(rules, hash, d, call.dryRun, states[j], call.report, states[j + 1]);
    OnlyPublishingChanges(rules, hash, call, states[j], states[j + 1]);
    ReusableIsKnown(states[j], CoverageOf(d), hash(d));
    hide Publishable, Published, Consistent, Statements, Imports, NothingListedTwice, SnapshotId;
  }

  lemma ReusableIsKnown(t: Tables, coverage: Coverage, contentHash: string)
    requires Consistent(t)
    ensures Reusable(t, coverage, contentHash) != {} ==> SnapshotId(coverage, contentHash) in t.snapshots
  {
    if id :| id in Reusable(t, coverage, contentHash) { assert id == SnapshotId(coverage, contentHash); }
  }

  // ---------------------------------------------------------------- the tables are their publications

  function Publications(calls: seq<Import>): seq<Document> {
    if calls == [] then []
    else
      var last := calls[|calls| - 1];
      Publications(calls[..|calls| - 1]) + if Publishes(last) then [last.document] else []
  }

  ghost function Committed(hash: Document -> string, t: Tables, d: Document): Tables {
    var published := Published(t, d, hash(d));
    if published.Ok? then published.value else t
  }

  ghost function Replay(hash: Document -> string, documents: seq<Document>): Tables {
    if documents == [] then EMPTY
    else Committed(hash, Replay(hash, documents[..|documents| - 1]), documents[|documents| - 1])
  }

  /** The tables after any run are those of its publications alone: failures, dry runs, lost connections
      and repetitions in between leave no trace, then or later. */
  lemma {:induction false} TablesAreTheirPublications(rules: Rules, hash: Document -> string, states: seq<Tables>, calls: seq<Import>, n: nat)
    requires Imports(rules, hash, states, calls) && n <= |calls|
    ensures states[n] == Replay(hash, Publications(calls[..n]))
  {
    if n > 0 {
      TablesAreTheirPublications(rules, hash, states, calls, n - 1);
      OnlyPublishingChanges(rules, hash, calls[n - 1], states[n - 1], states[n]);
      assert calls[..n][..n - 1] == calls[..n - 1];
      hide Imported, Published, Publishable, Publishes, Imports;
      var before := Publications(calls[..n - 1]);
      assert (before + [calls[n - 1].document])[..|before|] == before;
      assert before + [] == before;
    }
  }

  // ---------------------------------------------------------------- a run that tries to roll back

  const DEMO_RULES: Rules := map["sapnexus:Material" := Rule({}, {}, {"en"})]

  function DemoExport(status: string): Document {
    Document(Some(Batch(Some("S4"), Some("100"), Some("sapnexus:Material"), Some("full"),
                        Some(Declared(["S4"], ["100"], ["sapnexus:Material"])), None)),
             Some([Entity(Some("DEMOA1"), Some(status), Some([Description(Some("en"), Some("Seal"), true)]), map[], [], [])]))
  }

  const DEMO_HASH: Document -> string := d => if d == DemoExport("active") then "aaaaaaaaaaaa" else "bbbbbbbbbbbb"

  ghost const AFTER_FIRST := Committed(DEMO_HASH, EMPTY, DemoExport("active"))
  ghost const AFTER_SECOND := Committed(DEMO_HASH, AFTER_FIRST, DemoExport("inactive"))

  const DEMO_COVERAGE := Coverage("S4", "100", "sapnexus:Material")

  ghost function DemoReport(status: string, dryRun: bool, t: Tables): Result<Report> {
    Ok(Report(Some(IdOf(DEMO_HASH, DemoExport(status))), 1, dryRun, false, ActiveOf(t, DEMO_COVERAGE), []))
  }

  /** Publish an export, publish another one over it, import the first one again: dry, then in earnest. */
  ghost function RollbackCalls(patience: nat, report: Result<Report>): seq<Import> {
    [Import(DemoExport("active"), false, 7, DemoReport("active", false, EMPTY)),
     Import(DemoExport("inactive"), false, 7, DemoReport("inactive", false, AFTER_FIRST)),
     Import(DemoExport("active"), true, 2, DemoReport("active", true, AFTER_SECOND)),
     Import(DemoExport("active"), false, patience, report)]
  }

  lemma DemoPublishable(status: string)
    requires status == "active" || status == "inactive"
    ensures Publishable(DEMO_RULES, DemoExport(status)) && NothingListedTwice(DemoExport(status))
  {
    var ds := [Description(Some("en"), Some("Seal"), true)];
    assert ds[..0] == [] && Officials(ds[..0]) == 0 && Officials(ds) == 1;
    assert ValidDescription(DEMO_RULES["sapnexus:Material"], ds[0]);
  }

  lemma DemoCommitted(t: Tables, status: string)
    requires Consistent(t) && (status == "active" || status == "inactive")
    requires IdOf(DEMO_HASH, DemoExport(status)) !in t.snapshots
    ensures Published(t, DemoExport(status), DEMO_HASH(DemoExport(status))) == Ok(Committed(DEMO_HASH, t, DemoExport(status)))
    ensures Consistent(Committed(DEMO_HASH, t, DemoExport(status)))
    ensures ActiveOf(Committed(DEMO_HASH, t, DemoExport(status)), DEMO_COVERAGE) == {IdOf(DEMO_HASH, DemoExport(status))}
    ensures var after := Committed(DEMO_HASH, t, DemoExport(status));
            && after.snapshots.Keys == t.snapshots.Keys + {IdOf(DEMO_HASH, DemoExport(status))}
            && after.snapshots[IdOf(DEMO_HASH, DemoExport(status))].contentHash == DEMO_HASH(DemoExport(status))
  {
    var d := DemoExport(status);
    var contentHash := DEMO_HASH(d);
    DemoPublishable(status);
    PublishedExactlyWhen(DEMO_RULES, t, d, contentHash);
    PublishedReplaces(DEMO_RULES, t, d, contentHash);
    var row, added := NewRow(d, contentHash).(status := ACTIVE), RowMap(DocumentRows(d, contentHash));
    var after := Published(t, d, contentHash).value;
    assert CoverageOf(d) == DEMO_COVERAGE;
    hide Published, Consistent, Publishable, RowMap, DocumentRows, ActiveOf, SnapshotId, NothingListedTwice;
    ReplacedConsistent(t, after, IdOf(DEMO_HASH, d), row, added);
    ReplacedActive(t, after, IdOf(DEMO_HASH, d), row, added, DEMO_COVERAGE);
  }

  lemma DemoHashes()
    ensures DEMO_HASH(DemoExport("active")) == "aaaaaaaaaaaa" && DEMO_HASH(DemoExport("inactive")) == "bbbbbbbbbbbb"
    ensures IdOf(DEMO_HASH, DemoExport("active")) != IdOf(DEMO_HASH, DemoExport("inactive"))
  {
    assert DemoExport("active").entities.value[0] != DemoExport("inactive").entities.value[0];
    assert IdOf(DEMO_HASH, DemoExport("active"))[|IdOf(DEMO_HASH, DemoExport("active"))| - 1] == 'a';
    assert IdOf(DEMO_HASH, DemoExport("inactive"))[|IdOf(DEMO_HASH, DemoExport("inactive"))| - 1] == 'b';
  }

  lemma DemoImported(t: Tables, status: string, dryRun: bool)
    requires Publishable(DEMO_RULES, DemoExport(status))
    requires dryRun || Published(t, DemoExport(status), DEMO_HASH(DemoExport(status))) == Ok(Committed(DEMO_HASH, t, DemoExport(status)))
    requires Reusable(t, DEMO_COVERAGE, DEMO_HASH(DemoExport(status))) == {}
    ensures Imported(DEMO_RULES, DEMO_HASH, DemoExport(status), dryRun, t, DemoReport(status, dryRun, t),
                     if dryRun then t else Committed(DEMO_HASH, t, DemoExport(status)))
  {
    hide Publishable, Published, Reusable, ActiveOf, SnapshotId, Committed, DEMO_HASH;
  }

  lemma EmptyConsistent()
    ensures Consistent(EMPTY) && EMPTY.snapshots == map[] && ActiveOf(EMPTY, DEMO_COVERAGE) == {}
  {}

  lemma RollbackStarts()
    ensures Published(EMPTY, DemoExport("active"), "aaaaaaaaaaaa") == Ok(AFTER_FIRST)
    ensures Published(AFTER_FIRST, DemoExport("inactive"), "bbbbbbbbbbbb") == Ok(AFTER_SECOND)
    ensures Published(AFTER_SECOND, DemoExport("active"), "aaaaaaaaaaaa").Raise?
    ensures Reusable(AFTER_FIRST, DEMO_COVERAGE, "bbbbbbbbbbbb") == {}
    ensures Reusable(AFTER_SECOND, DEMO_COVERAGE, "aaaaaaaaaaaa") == {}
  {
    DemoHashes();
    hide Published, Publishable, Consistent, NothingListedTwice, SnapshotId, Committed, DEMO_HASH;
    EmptyConsistent();
    DemoCommitted(EMPTY, "active");
    DemoCommitted(AFTER_FIRST, "inactive");
    DemoPublishable("active");
    PublishedExactlyWhen(DEMO_RULES, AFTER_SECOND, DemoExport("active"), "aaaaaaaaaaaa");
  }

  /** Such a run exists: both exports are published, the dry run reports no error, and the rollback raises. */
  lemma RollbackRuns(patience: nat)
    ensures Imports(DEMO_RULES, DEMO_HASH, [EMPTY, AFTER_FIRST, AFTER_SECOND, AFTER_SECOND, AFTER_SECOND],
                    RollbackCalls(patience, Raise("UniqueViolation")))
  {
    DemoHashes();
    RollbackStarts();
    DemoPublishable("active");
    DemoPublishable("inactive");
    hide Published, Publishable, SnapshotId, Statements, Committed, DEMO_HASH, Imported, DemoExport, Reusable, NothingListedTwice, Imports;
    EmptyConsistent();
    DemoImported(EMPTY, "active", false);
    DemoImported(AFTER_FIRST, "inactive", false);
    DemoImported(AFTER_SECOND, "active", true);
    RefusedImport(AFTER_SECOND);
    var calls := RollbackCalls(patience, Raise("UniqueViolation"));
    DemoRefusalExcused(patience);
    FourImports(DEMO_RULES, DEMO_HASH, AFTER_FIRST, AFTER_SECOND, AFTER_SECOND, AFTER_SECOND, calls);
  }

  lemma DemoRefusalExcused(patience: nat)
    requires Reusable(AFTER_SECOND, DEMO_COVERAGE, "aaaaaaaaaaaa") == {}
    requires Published(AFTER_SECOND, DemoExport("active"), "aaaaaaaaaaaa").Raise? && DEMO_HASH(DemoExport("active")) == "aaaaaaaaaaaa"
    ensures Excused(DEMO_HASH, DemoExport("active"), false, patience, AFTER_SECOND, Raise("UniqueViolation"))
  {
    hide Published, Reusable, Statements, Committed, DEMO_HASH;
  }

  ghost predicate ImportStep(rules: Rules, hash: Document -> string, call: Import, t: Tables, after: Tables) {
    && Imported(rules, hash, call.document, call.dryRun, t, call.report, after)
    && Excused(hash, call.document, call.dryRun, call.patience, t, call.report)
  }

  lemma FourImports(rules: Rules, hash: Document -> string, a: Tables, b: Tables, c: Tables, d: Tables, calls: seq<Import>)
    requires |calls| == 4
    requires ImportStep(rules, hash, calls[0], EMPTY, a) && ImportStep(rules, hash, calls[1], a, b)
    requires ImportStep(rules, hash, calls[2], b, c) && ImportStep(rules, hash, calls[3], c, d)
    ensures Imports(rules, hash, [EMPTY, a, b, c, d], calls)
  {
    hide Imported, Excused;
  }

  lemma RefusedImport(t: Tables)
    requires Publishable(DEMO_RULES, DemoExport("active"))
    ensures Imported(DEMO_RULES, DEMO_HASH, DemoExport("active"), false, t, Raise("UniqueViolation"), t)
  {
    hide Publishable, Published;
  }

  /** And it can end in no other way. */
  lemma RollbackIsRefused(patience: nat, report: Result<Report>, after: Tables)
    requires Imports(DEMO_RULES, DEMO_HASH, [EMPTY, AFTER_FIRST, AFTER_SECOND, AFTER_SECOND, after], RollbackCalls(patience, report))
    ensures report.Raise? && after == AFTER_SECOND
  {
    DemoHashes();
    RollbackRuns(patience);
    var calls := RollbackCalls(patience, report);
    assert LastPublished(calls[..3], DEMO_COVERAGE) == Some(DemoExport("inactive")) by {
      assert calls[..3][..2] == calls[..2] && calls[..2][1] == calls[1];
    }
    hide Imports, DEMO_HASH;
    SupersededContentNeverReturns(DEMO_RULES, DEMO_HASH, [EMPTY, AFTER_FIRST, AFTER_SECOND, AFTER_SECOND, after], calls, 0, 3);
  }
}
