/** What readers of the snapshot tables see, told from the fields of the document that was published. */
module SnapshotRows {
  import opened Basics
  import opened SnapshotStore
  import opened SnapshotLaws

  // ---------------------------------------------------------------- the rows of one document

  /** The document says so of the entity with this code. */
  ghost predicate Says(d: Document, key: Key, data: Data) {
    exists e :: e in d.entities.GetOr([]) && e.Entity? && EntitySays(e, key, data)
  }

  ghost predicate EntitySays(e: Entity, key: Key, data: Data)
    requires e.Entity?
  {
    && key.id.code == e.canonicalCode.GetOr("")
    && match key
       case EntityKey(_) => data == EntityData(e.status.GetOr(""), e.attributes)
       case DescriptionKey(_, language) =>
         exists x :: x in e.descriptions.GetOr([]) && x.language.GetOr("") == language && data == DescriptionData(x.text.GetOr(""), x.official)
       case AliasKey(_, alias) =>
         exists a :: a in e.aliases && a.alias.GetOr("") == alias && data == AliasData(a.source.GetOr(""), a.scope.GetOr(""), a.active)
       case ScopeKey(_, field, value) =>
         exists s :: s in e.orgScopes && s.field.GetOr("") == field && s.value.GetOr("") == value && data == ScopeData
  }

  lemma EntityRowsSay(snapshotId: string, coverage: Coverage, e: Entity, row: Row)
    requires e.Entity?
    ensures row in EntityRows(snapshotId, coverage, e) <==>
            row.0.id.snapshotId == snapshotId && row.0.id.coverage == coverage && EntitySays(e, row.0, row.1)
  {
    var id := EntityId(snapshotId, coverage, CodeOf(e));
    var ds, as_, ss := DescriptionRows(id, e.descriptions.GetOr([])), AliasRows(id, e.aliases), ScopeRows(id, e.orgScopes);
    DescriptionRowsSay(id, e.descriptions.GetOr([]), row);
    AliasRowsSay(id, e.aliases, row);
    ScopeRowsSay(id, e.orgScopes, row);
    hide DescriptionRows, AliasRows, ScopeRows;
    assert row in EntityRows(snapshotId, coverage, e) <==> row == EntityRow(id, e) || row in ds || row in as_ || row in ss;
  }

  lemma DescriptionRowsSay(id: EntityId, ds: seq<Description>, row: Row)
    ensures row in DescriptionRows(id, ds) <==>
            row.0.DescriptionKey? && row.0.id == id
            && exists x :: x in ds && x.language.GetOr("") == row.0.language && row.1 == DescriptionData(x.text.GetOr(""), x.official)
  {
    var rows := DescriptionRows(id, ds);
    if x :| x in ds && row.0.DescriptionKey? && row.0.id == id && x.language.GetOr("") == row.0.language && row.1 == DescriptionData(x.text.GetOr(""), x.official) {
      var i :| 0 <= i < |ds| && ds[i] == x;
      assert rows[i] == row;
    }
    if i :| 0 <= i < |rows| && rows[i] == row { assert ds[i] in ds; }
  }

  lemma AliasRowsSay(id: EntityId, aliases: seq<AliasEntry>, row: Row)
    ensures row in AliasRows(id, aliases) <==>
            row.0.AliasKey? && row.0.id == id
            && exists a :: a in aliases && a.alias.GetOr("") == row.0.alias && row.1 == AliasData(a.source.GetOr(""), a.scope.GetOr(""), a.active)
  {
    var rows := AliasRows(id, aliases);
    if a :| a in aliases && row.0.AliasKey? && row.0.id == id && a.alias.GetOr("") == row.0.alias && row.1 == AliasData(a.source.GetOr(""), a.scope.GetOr(""), a.active) {
      var i :| 0 <= i < |aliases| && aliases[i] == a;
      assert rows[i] == row;
    }
    if i :| 0 <= i < |rows| && rows[i] == row { assert aliases[i] in aliases; }
  }

  lemma ScopeRowsSay(id: EntityId, scopes: seq<OrgScope>, row: Row)
    ensures row in ScopeRows(id, scopes) <==>
            row.0.ScopeKey? && row.0.id == id
            && exists s :: s in scopes && s.field.GetOr("") == row.0.field && s.value.GetOr("") == row.0.value && row.1 == ScopeData
  {
    var rows := ScopeRows(id, scopes);
    if s :| s in scopes && row.0.ScopeKey? && row.0.id == id && s.field.GetOr("") == row.0.field && s.value.GetOr("") == row.0.value && row.1 == ScopeData {
      var i :| 0 <= i < |scopes| && scopes[i] == s;
      assert rows[i] == row;
    }
    if i :| 0 <= i < |rows| && rows[i] == row { assert scopes[i] in scopes; }
  }

  lemma {:induction false} RowsSay(snapshotId: string, coverage: Coverage, entities: seq<Entity>, row: Row)
    ensures row in RowsOf(snapshotId, coverage, entities) <==>
            row.0.id.snapshotId == snapshotId && row.0.id.coverage == coverage
            && exists e :: e in entities && e.Entity? && EntitySays(e, row.0, row.1)
  {
    hide EntitySays, EntityRows;
    if entities != [] {
      var n := |entities| - 1;
      var last := entities[n];
      RowsSay(snapshotId, coverage, entities[..n], row);
      if last.Entity? { EntityRowsSay(snapshotId, coverage, last, row); } else { NoEntityRows(snapshotId, coverage, last); }
      assert forall e :: e in entities <==> e in entities[..n] || e == last;
    }
  }

  lemma NoEntityRows(snapshotId: string, coverage: Coverage, e: Entity)
    requires !e.Entity?
    ensures EntityRows(snapshotId, coverage, e) == []
  {}

  /** Without a repeated key, the table holds exactly the rows. */
  lemma {:induction false} RowMapHolds(rows: seq<Row>, key: Key, data: Data)
    requires Distinct(Keys(rows))
    ensures Lookup(RowMap(rows), key) == Some(data) <==> (key, data) in rows
  {
    if rows != [] {
      var n := |rows| - 1;
      assert Keys(rows) == Keys(rows[..n]) + [rows[n].0];
      DistinctSnoc(Keys(rows[..n]), rows[n].0);
      RowMapHolds(rows[..n], key, data);
      assert forall i :: 0 <= i < n ==> Keys(rows[..n])[i] == rows[i].0;
      assert (key, data) in rows <==> (key, data) in rows[..n] || (key, data) == rows[n];
      if (key, data) in rows[..n] {
        var i :| 0 <= i < n && rows[..n][i] == (key, data);
        assert Keys(rows[..n])[i] == key;
      }
    }
  }

  // ---------------------------------------------------------------- what readers see

  lemma {:induction false} LastWasPublished(calls: seq<Import>, coverage: Coverage)
    requires LastPublished(calls, coverage).Some?
    ensures exists i :: 0 <= i < |calls| && Publishes(calls[i]) && calls[i].document == LastPublished(calls, coverage).value
  {
    var n := |calls| - 1;
    if !(Publishes(calls[n]) && CoverageOf(calls[n].document) == coverage) {
      LastWasPublished(calls[..n], coverage);
    }
  }

  lemma PublishedListsOnce(rules: Rules, hash: Document -> string, states: seq<Tables>, calls: seq<Import>, i: nat)
    requires Imports(rules, hash, states, calls) && i < |calls| && Publishes(calls[i])
    ensures Publishable(rules, calls[i].document) && NothingListedTwice(calls[i].document)
  {
    RunConsistent(rules, hash, states, calls, i);
    hide Publishable, Published, Consistent, NothingListedTwice, SnapshotId;
    OnlyPublishingChanges(rules, hash, calls[i], states[i], states[i + 1]);
    PublishedExactlyWhen(rules, states[i], calls[i].document, hash(calls[i].document));
  }

  /** After any run, readers of a coverage see exactly what the document published last for it says, field by
      field, under the id of its snapshot: every entity with status and attributes, every description, alias and
      organisational scope, and nothing else. */
  lemma ReadersSeeTheDocument(rules: Rules, hash: Document -> string, states: seq<Tables>, calls: seq<Import>, n: nat,
                              coverage: Coverage, key: Key, data: Data)
    requires Imports(rules, hash, states, calls) && n <= |calls|
    ensures Lookup(View(states[n], coverage), key) == Some(data) <==>
            match LastPublished(calls[..n], coverage)
            case None => false
            case Some(d) => key.id.snapshotId == IdOf(hash, d) && key.id.coverage == coverage && Says(d, key, data)
  {
    hide Imports, Publishable, View, RowMap, RowsOf, NothingListedTwice, EntitySays, SnapshotId;
    ReadersSeeLastPublished(rules, hash, states, calls, n, coverage);
    if d :| LastPublished(calls[..n], coverage) == Some(d) {
      LastWasPublished(calls[..n], coverage);
      var i :| 0 <= i < n && Publishes(calls[i]) && calls[i].document == d;
      PublishedListsOnce(rules, hash, states, calls, i);
      PublishableEntities(rules, d, IdOf(hash, d), coverage);
      assert d.entities.GetOr([]) == d.entities.value;
      RowMapHolds(DocumentRows(d, hash(d)), key, data);
      RowsSay(IdOf(hash, d), coverage, d.entities.value, (key, data));
    }
  }

  // ---------------------------------------------------------------- everything visible obeys its rule

  /** What the rule of the object type demands of one visible row. */
  ghost predicate Obeys(rule: Rule, key: Key, data: Data) {
    && key.id.code != ""
    && match key
       case EntityKey(_) => data.EntityData? && (data.status == "active" || data.status == "inactive") && data.attributes.Keys <= rule.attributes
       case DescriptionKey(_, language) => data.DescriptionData? && language in rule.languages && data.text != ""
       case AliasKey(_, alias) => data.AliasData? && alias != "" && data.source != "" && data.scope != ""
       case ScopeKey(_, field, value) => data.ScopeData? && field in rule.orgFields && value != ""
  }

  lemma ValidRowsObey(rule: Rule, e: Entity, key: Key, data: Data)
    requires ValidEntity(rule, e) && EntitySays(e, key, data)
    ensures Obeys(rule, key, data)
  {
    match key
    case EntityKey(_) =>
    case DescriptionKey(_, _) =>
      var ds := e.descriptions.value;
      var x :| x in ds && x.language.GetOr("") == key.language && data == DescriptionData(x.text.GetOr(""), x.official);
      var i :| 0 <= i < |ds| && ds[i] == x;
      assert ValidDescription(rule, ds[i]);
    case AliasKey(_, _) =>
      var a :| a in e.aliases && a.alias.GetOr("") == key.alias && data == AliasData(a.source.GetOr(""), a.scope.GetOr(""), a.active);
      var i :| 0 <= i < |e.aliases| && e.aliases[i] == a;
      assert ValidAlias(e.aliases[i]);
    case ScopeKey(_, _, _) =>
      var s :| s in e.orgScopes && s.field.GetOr("") == key.field && s.value.GetOr("") == key.value && data == ScopeData;
      var i :| 0 <= i < |e.orgScopes| && e.orgScopes[i] == s;
      assert ValidScope(rule, e.orgScopes[i]);
  }

  lemma PublishableMeans(rules: Rules, d: Document, e: Entity)
    requires Publishable(rules, d) && e in d.entities.GetOr([])
    ensures CoverageOf(d).objectType in rules && ValidEntity(rules[CoverageOf(d).objectType], e)
    ensures Distinct(Codes(d.entities.GetOr([])))
  {
    hide ValidEntity, Codes;
    var i :| 0 <= i < |d.entities.value| && d.entities.value[i] == e;
  }

  /** Whatever was imported in whatever order, every row a reader sees obeys the rule of its object type. */
  lemma VisibleRowsObeyTheirRule(rules: Rules, hash: Document -> string, states: seq<Tables>, calls: seq<Import>, n: nat,
                                 coverage: Coverage, key: Key, data: Data)
    requires Imports(rules, hash, states, calls) && n <= |calls| && Lookup(View(states[n], coverage), key) == Some(data)
    ensures coverage.objectType in rules && Obeys(rules[coverage.objectType], key, data)
  {
    hide Imports, Publishable, View, EntitySays, SnapshotId, ValidEntity, Obeys;
    ReadersSeeTheDocument(rules, hash, states, calls, n, coverage, key, data);
    ReadersSeeLastPublished(rules, hash, states, calls, n, coverage);
    var d := LastPublished(calls[..n], coverage).value;
    var e :| e in d.entities.GetOr([]) && e.Entity? && EntitySays(e, key, data);
    PublishableMeans(rules, d, e);
    ValidRowsObey(rules[coverage.objectType], e, key, data);
  }

  ghost predicate OnlyOfficial(ds: seq<Description>, i: nat) {
    i < |ds| && forall j :: 0 <= j < |ds| ==> (ds[j].official <==> j == i)
  }

  lemma {:induction false} NoOfficial(ds: seq<Description>)
    requires Officials(ds) == 0
    ensures forall i :: 0 <= i < |ds| ==> !ds[i].official
  {
    if ds != [] {
      NoOfficial(ds[..|ds| - 1]);
      assert forall j :: 0 <= j < |ds| - 1 ==> ds[j] == ds[..|ds| - 1][j];
    }
  }

  lemma {:induction false} OneOfficial(ds: seq<Description>) returns (i: nat)
    requires Officials(ds) == 1
    ensures OnlyOfficial(ds, i)
  {
    var k := |ds| - 1;
    if ds[k].official {
      NoOfficial(ds[..k]);
      i := k;
    } else {
      i := OneOfficial(ds[..k]);
    }
    assert forall j :: 0 <= j < k ==> ds[j] == ds[..k][j];
  }

  predicate OfficialIn(view: map<Key, Data>, id: EntityId, language: string) {
    DescriptionKey(id, language) in view && view[DescriptionKey(id, language)].DescriptionData? && view[DescriptionKey(id, language)].official
  }

  lemma SameCodeSameEntity(entities: seq<Entity>, a: Entity, b: Entity)
    requires Distinct(Codes(entities)) && a in entities && b in entities && a.Entity? && b.Entity?
    requires a.canonicalCode.GetOr("") == b.canonicalCode.GetOr("")
    ensures a == b
  {
    var i :| 0 <= i < |entities| && entities[i] == a;
    var j :| 0 <= j < |entities| && entities[j] == b;
    assert Codes(entities)[i] == Codes(entities)[j];
  }

  lemma OfficialExactly(rules: Rules, hash: Document -> string, states: seq<Tables>, calls: seq<Import>, n: nat,
                        coverage: Coverage, id: EntityId, d: Document, e: Entity, language: string)
    requires Imports(rules, hash, states, calls) && n <= |calls| && LastPublished(calls[..n], coverage) == Some(d)
    requires Publishable(rules, d) && e in d.entities.GetOr([]) && e.Entity? && id == EntityId(IdOf(hash, d), coverage, e.canonicalCode.GetOr(""))
    ensures OfficialIn(View(states[n], coverage), id, language) <==>
            exists x :: x in e.descriptions.GetOr([]) && x.language.GetOr("") == language && x.official
  {
    ImportsLength(rules, hash, states, calls);
    hide Imports, View, SnapshotId, ValidEntity;
    var key := DescriptionKey(id, language);
    var view := View(states[n], coverage);
    PublishableMeans(rules, d, e);
    hide Publishable;
    if OfficialIn(view, id, language) {
      ReadersSeeTheDocument(rules, hash, states, calls, n, coverage, key, view[key]);
      var f :| f in d.entities.GetOr([]) && f.Entity? && EntitySays(f, key, view[key]);
      SameCodeSameEntity(d.entities.GetOr([]), e, f);
    }
    if x :| x in e.descriptions.GetOr([]) && x.language.GetOr("") == language && x.official {
      ReadersSeeTheDocument(rules, hash, states, calls, n, coverage, key, DescriptionData(x.text.GetOr(""), true));
      assert EntitySays(e, key, DescriptionData(x.text.GetOr(""), true));
    }
  }

  /** And every entity a reader sees has exactly one official description. */
  lemma OneOfficialName(rules: Rules, hash: Document -> string, states: seq<Tables>, calls: seq<Import>, n: nat, coverage: Coverage, id: EntityId)
    requires Imports(rules, hash, states, calls) && n <= |calls| && EntityKey(id) in View(states[n], coverage)
    ensures exists language :: OfficialIn(View(states[n], coverage), id, language)
                               && forall other :: OfficialIn(View(states[n], coverage), id, other) ==> other == language
  {
    ImportsLength(rules, hash, states, calls);
    hide Imports, View, SnapshotId, Publishable, OfficialIn, EntitySays;
    var view := View(states[n], coverage);
    ReadersSeeTheDocument(rules, hash, states, calls, n, coverage, EntityKey(id), view[EntityKey(id)]);
    ReadersSeeLastPublished(rules, hash, states, calls, n, coverage);
    var d := LastPublished(calls[..n], coverage).value;
    var e :| e in d.entities.GetOr([]) && e.Entity? && EntitySays(e, EntityKey(id), view[EntityKey(id)]);
    SaysOfItsCode(e, EntityKey(id), view[EntityKey(id)]);
    PublishableMeans(rules, d, e);
    var i := OneOfficial(e.descriptions.value);
    var language := e.descriptions.value[i].language.GetOr("");
    forall other ensures OfficialIn(view, id, other) <==> other == language {
      OfficialExactly(rules, hash, states, calls, n, coverage, id, d, e, other);
      OfficialLanguage(e.descriptions.value, i, other);
    }
    assert OfficialIn(view, id, language);
  }

  lemma ImportsLength(rules: Rules, hash: Document -> string, states: seq<Tables>, calls: seq<Import>)
    requires Imports(rules, hash, states, calls)
    ensures |states| == |calls| + 1
  {}

  lemma SaysOfItsCode(e: Entity, key: Key, data: Data)
    requires e.Entity? && EntitySays(e, key, data)
    ensures key.id.code == e.canonicalCode.GetOr("")
  {}

  lemma OfficialLanguage(ds: seq<Description>, i: nat, language: string)
    requires OnlyOfficial(ds, i)
    ensures (exists x :: x in ds && x.language.GetOr("") == language && x.official) <==> language == ds[i].language.GetOr("")
  {
    if x :| x in ds && x.language.GetOr("") == language && x.official {
      var j :| 0 <= j < |ds| && ds[j] == x;
    }
    assert ds[i] in ds;
  }

  // ---------------------------------------------------------------- snapshots and the batches they stand for

  /** The snapshot of the document in force: its coverage, hash and extraction time as the batch gave them, and active. */
  lemma SnapshotOfTheDocument(rules: Rules, hash: Document -> string, states: seq<Tables>, calls: seq<Import>, i: nat)
    requires Imports(rules, hash, states, calls) && i < |calls| && Publishes(calls[i])
    ensures var d := calls[i].document;
            && Publishable(rules, d) && IdOf(hash, d) !in states[i].snapshots
            && states[i + 1].snapshots.Keys == states[i].snapshots.Keys + {IdOf(hash, d)}
            && states[i + 1].snapshots[IdOf(hash, d)] ==
               SnapshotRow(Coverage(d.batch.value.sourceSystem.value, d.batch.value.client.value, d.batch.value.objectType.value),
                           hash(d), d.batch.value.sourceExtractedAt, ACTIVE)
  {
    OnlyPublishingChanges(rules, hash, calls[i], states[i], states[i + 1]);
    hide Published, SnapshotId, Imports;
    PublishedSnapshots(states[i], calls[i].document, hash(calls[i].document));
  }

  /** An import that reports no error was given a full batch with all its fields, which covers itself, is of a known
      object type, and lists at least one entity and no code twice. */
  lemma AcceptedBatch(rules: Rules, hash: Document -> string, states: seq<Tables>, calls: seq<Import>, i: nat)
    requires Imports(rules, hash, states, calls) && i < |calls| && calls[i].report.Ok? && calls[i].report.value.errors == []
    ensures var d := calls[i].document;
            && d.batch.Some? && d.entities.Some? && d.entities.value != []
            && var b := d.batch.value;
            && b.snapshotKind == Some("full") && b.sourceSystem.Some? && b.client.Some? && b.objectType.Some? && b.coverage.Some?
            && b.sourceSystem.value in b.coverage.value.sourceSystems && b.client.value in b.coverage.value.clients
            && b.objectType.value in b.coverage.value.objectTypes && b.objectType.value in rules
            && forall x, y :: 0 <= x < y < |d.entities.value| ==>
                 CodeOf(d.entities.value[x]) != CodeOf(d.entities.value[y])
  {
    var d := calls[i].document;
    assert Imported(rules, hash, d, calls[i].dryRun, states[i], calls[i].report, states[i + 1]);
    hide Published, SnapshotId, Imports, ValidEntity;
    assert Publishable(rules, d);
    var codes := Codes(d.entities.value);
    forall x, y | 0 <= x < y < |d.entities.value| ensures CodeOf(d.entities.value[x]) != CodeOf(d.entities.value[y]) {
      assert codes[x] != codes[y];
    }
  }

  // ---------------------------------------------------------------- snapshot ids

  lemma ColonAt(a: string, x: string, i: nat)
    requires ':' !in a
    ensures (a + ":" + x)[|a|] == ':' && (i < |a| ==> (a + ":" + x)[i] != ':')
  {}

  lemma SplitAtFirstColon(a: string, x: string, b: string, y: string)
    requires ':' !in a && ':' !in b && a + ":" + x == b + ":" + y
    ensures a == b && x == y
  {
    var s, t := a + ":" + x, b + ":" + y;
    ColonAt(a, x, |b|);
    ColonAt(b, y, |a|);
    assert s[..|a|] == a && t[..|b|] == b && s[|a| + 1..] == x && t[|b| + 1..] == y;
  }

  lemma SplitAtHash(a: string, h: string, b: string, k: string)
    requires |h| == |k| && a + ":" + h == b + ":" + k
    ensures a == b && h == k
  {
    var s, t := a + ":" + h, b + ":" + k;
    assert |a| == |b|;
    assert s[..|a|] == a && t[..|b|] == b && s[|a| + 1..] == h && t[|b| + 1..] == k;
  }

  /** Without a colon in the system and the client, a snapshot id names its coverage and the first twelve digits of
      the hash, so imports for different coverages never stand in each other's way. */
  lemma SnapshotIdExactly(c: Coverage, h: string, d: Coverage, k: string)
    requires ':' !in c.sourceSystem && ':' !in c.client && ':' !in d.sourceSystem && ':' !in d.client
    requires |h| >= 12 && |k| >= 12
    ensures SnapshotId(c, h) == SnapshotId(d, k) <==> c == d && h[..12] == k[..12]
  {
    if SnapshotId(c, h) == SnapshotId(d, k) {
      var x, y := c.client + ":" + c.objectType + ":" + h[..12], d.client + ":" + d.objectType + ":" + k[..12];
      assert SnapshotId(c, h) == c.sourceSystem + ":" + x && SnapshotId(d, k) == d.sourceSystem + ":" + y;
      SplitAtFirstColon(c.sourceSystem, x, d.sourceSystem, y);
      assert x == c.client + ":" + (c.objectType + ":" + h[..12]) && y == d.client + ":" + (d.objectType + ":" + k[..12]);
      SplitAtFirstColon(c.client, c.objectType + ":" + h[..12], d.client, d.objectType + ":" + k[..12]);
      SplitAtHash(c.objectType, h[..12], d.objectType, k[..12]);
    }
  }

  /** With a colon two coverages can share an id. */
  lemma ColonsCollide(h: string)
    ensures SnapshotId(Coverage("S4", "100:A", "B"), h) == SnapshotId(Coverage("S4", "100", "A:B"), h)
  {
    var tail := if |h| < 12 then h else h[..12];
    assert "S4" + ":" + "100:A" + ":" + "B" + ":" == "S4" + ":" + "100" + ":" + "A:B" + ":";
  }

  // ---------------------------------------------------------------- what an import reports and how long it takes

  /** A completed import reports the snapshot it stands for, how many entities it lists, and, unless it is a
      repetition, exactly the snapshot in force for its coverage as superseded. */
  lemma ReportsWhatItReplaces(rules: Rules, hash: Document -> string, states: seq<Tables>, calls: seq<Import>, i: nat)
    requires Imports(rules, hash, states, calls) && i < |calls| && calls[i].report.Ok? && calls[i].report.value.errors == []
    ensures var d, report := calls[i].document, calls[i].report.value;
            && report.dryRun == calls[i].dryRun && report.entityCount == |d.entities.GetOr([])|
            && var last := LastPublished(calls[..i], CoverageOf(d));
            if last.Some? && hash(last.value) == hash(d) then report.idempotentReuse && report.snapshotId == Some(IdOf(hash, last.value))
            else
              && !report.idempotentReuse && report.snapshotId == Some(IdOf(hash, d))
              && report.superseded == match last case None => {} case Some(l) => {IdOf(hash, l)}
  {
    var d := calls[i].document;
    ReusableInForce(rules, hash, states, calls, i, d);
    ReadersSeeLastPublished(rules, hash, states, calls, i, CoverageOf(d));
    assert Imported(rules, hash, d, calls[i].dryRun, states[i], calls[i].report, states[i + 1]);
    hide Imports, Publishable, Published, View, SnapshotId;
  }

  /** An import sends one statement for the snapshot, one for each entity, description, alias and scope, and two to
      supersede and activate. */
  lemma StatementsExactly(d: Document, contentHash: string, entities: seq<Entity>, e: Entity)
    requires e.Entity?
    ensures var more := entities + [e];
            Statements(d.(entities := Some(more)), contentHash) ==
            Statements(d.(entities := Some(entities)), contentHash) + 1 + |e.descriptions.GetOr([])| + |e.aliases| + |e.orgScopes|
    ensures Statements(d.(entities := Some([])), contentHash) == 3
  {
    var more := entities + [e];
    assert more[..|more| - 1] == entities && more[|more| - 1] == e;
    hide SnapshotId;
  }
}
