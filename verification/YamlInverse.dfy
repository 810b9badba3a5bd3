/** The parser inverts the printer: the induction over printed documents. */
module YamlInverse {
  import opened Basics
  import opened YamlLines
  import opened SimpleYaml
  import opened YamlPrinter
  import opened YamlRoundTrip

  ghost predicate PrintableField(field: (string, Doc)) { PlainKey(field.0) && Printable(field.1) }

  lemma FieldParts(field: (string, Doc))
    requires PrintableField(field)
    ensures PlainKey(field.0) && Printable(field.1) && (field.1.Leaf? ==> PlainValue(field.1.scalar))
  {}

  ghost predicate PrintableFields(fields: seq<(string, Doc)>) {
    && (forall i, j :: 0 <= i < j < |fields| ==> fields[i].0 != fields[j].0)
    && forall i :: 0 <= i < |fields| ==> PrintableField(fields[i])
  }

  ghost predicate PrintableItem(d: Doc) { Printable(d) && !d.List? && (d.Leaf? ==> PlainItem(d.scalar)) }

  /** Dict node `id` has none of the keys of `fields` yet. */
  ghost predicate AcceptsAll(nodes: seq<Container>, id: nat, fields: seq<(string, Doc)>) {
    id < |nodes| && nodes[id].Dict? && forall i :: 0 <= i < |fields| ==> Accepts(nodes, id, fields[i].0)
  }

  // ---------------------------------------------------------------- the kind of a container

  lemma HeaderKind(lines: seq<string>, off: nat, d: Doc, indent: nat)
    requires off < |lines| && lines[off] in lines && IsHeader(lines[off])
    requires indent >= 2 && !d.Leaf? && Printable(d) && StandsAt(lines, off + 1, PrintChildren(d, indent))
    ensures PrintChildren(d, indent) != [] && off + 1 < |lines| && lines[off + 1] == PrintChildren(d, indent)[0]
    ensures HeaderOk(lines, off) <==> EmptyFor(NextContainer(lines, lines[off]), d)
    ensures !HeaderOk(lines, off) ==> NextContainer(lines, lines[off]) == if d.Map? then Items([]) else Dict([])
  {
    var printed := PrintChildren(d, indent);
    ChildrenStart(d, indent);
    assert lines[off + 1] == lines[off + 1..off + 1 + |printed|][0];
    NextKindIsEmpty(lines, FirstIndex(lines, lines[off]) + 1);
  }

  lemma {:induction false} NextKindIsEmpty(lines: seq<string>, i: nat)
    requires i <= |lines|
    ensures NextKind(lines, i) == Dict([]) || NextKind(lines, i) == Items([])
    decreases |lines| - i
  {
    if i < |lines| && !IsContent(lines[i]) { NextKindIsEmpty(lines, i + 1); }
  }

  // ---------------------------------------------------------------- one field with its children

  /** The run from `m` does to `s` what reading a block of fields should do. */
  ghost predicate ReadsFrom(lines: seq<string>, off: nat, end: nat, m: Machine, s: Machine, indent: int, id: nat,
                            fields: seq<(string, Doc)>)
    requires off <= end <= |lines|
  {
    var r := Run(lines, m, off, end);
    if HeadersOk(lines, off, end) then r.Ok? && GainedFields(s, r.value, id, fields) && SameOpen(s, r.value, indent)
    else r.Raise?
  }

  /** The state right after a header was read. */
  function AfterHeader(lines: seq<string>, raw: string, s: Machine, id: nat, key: string, indent: int): Machine
    requires raw in lines && id < |s.nodes| && s.nodes[id].Dict?
  {
    Machine(s.nodes[id := Dict(s.nodes[id].entries + [(key, Ref(|s.nodes|))])] + [NextContainer(lines, raw)],
            s.stack + [(indent, |s.nodes|)])
  }

  lemma AfterHeaderOpens(lines: seq<string>, raw: string, s: Machine, id: nat, key: string, indent: int, to: int)
    requires raw in lines && id < |s.nodes| && s.nodes[id].Dict? && to > indent
    ensures var n := AfterHeader(lines, raw, s, id, key, indent);
            && PopTo(n.stack, to) == n.stack && Opens(n.stack, to, |s.nodes|)
            && |s.nodes| < |n.nodes| && n.nodes[|s.nodes|] == NextContainer(lines, raw)
  {
    PopPushed(s.stack, indent, |s.nodes|, to);
  }

  lemma HeaderThenChildren(lines: seq<string>, raw: string, s: Machine, id: nat, field: (string, Doc), indent: int, n: Machine)
    requires raw in lines && id < |s.nodes| && s.nodes[id].Dict?
    requires var h := AfterHeader(lines, raw, s, id, field.0, indent);
             && |h.nodes| <= |n.nodes|
             && (forall k :: 0 <= k < |h.nodes| && k != |s.nodes| ==> n.nodes[k] == h.nodes[k])
             && Denotes(n.nodes, |s.nodes|, |n.nodes|, Ref(|s.nodes|), field.1)
             && SameOpen(h, n, indent + 2)
    ensures GainedFields(s, n, id, [field]) && SameOpen(s, n, indent)
  {
    hide Denotes, PopTo;
    var h := AfterHeader(lines, raw, s, id, field.0, indent);
    assert n.nodes[id] == h.nodes[id];
    SameOpenFurther(h, n, indent + 2, indent);
    PopPushed(s.stack, indent, |s.nodes|, indent);
  }

  lemma StepRaisesRunRaises(lines: seq<string>, m: Machine, i: nat, j: nat)
    requires i < j <= |lines| && Step(lines, m, lines[i]).Raise?
    ensures Run(lines, m, i, j).Raise?
  {}

  lemma HeadersFirst(lines: seq<string>, off: nat, end: nat)
    requires off < end <= |lines|
    ensures HeadersOk(lines, off, end) <==> HeaderOk(lines, off) && HeadersOk(lines, off + 1, end)
  {}

  lemma LeafBlock(lines: seq<string>, off: nat, key: string, leaf: Scalar, indent: nat, m: Machine, s: Machine, id: nat)
    requires off < |lines| && !IsHeader(lines[off]) && id < |s.nodes| && s.nodes[id].Dict?
    requires s.stack == PopTo(s.stack, indent)
    requires Step(lines, m, lines[off]) == Ok(s.(nodes := s.nodes[id := Dict(s.nodes[id].entries + [(key, Plain(leaf))])]))
    ensures ReadsFrom(lines, off, off + 1, m, s, indent, id, [(key, Leaf(leaf))])
  {
    hide IsContent, SplitKeyValue, Step, NextContainer;
    var next := Step(lines, m, lines[off]);
    assert Run(lines, m, off, off + 1) == Run(lines, next.value, off + 1, off + 1) == next;
  }

  lemma HeaderBlock(lines: seq<string>, off: nat, end: nat, field: (string, Doc), indent: nat, m: Machine, s: Machine, id: nat)
    requires off < end <= |lines| && lines[off] in lines && id < |s.nodes| && s.nodes[id].Dict?
    requires Step(lines, m, lines[off]) == Ok(AfterHeader(lines, lines[off], s, id, field.0, indent))
    requires HeaderOk(lines, off) ==>
               ReadsChildren(lines, off + 1, end, AfterHeader(lines, lines[off], s, id, field.0, indent), indent + 2, |s.nodes|, field.1)
    requires !HeaderOk(lines, off) ==>
               Run(lines, AfterHeader(lines, lines[off], s, id, field.0, indent), off + 1, end).Raise?
    ensures ReadsFrom(lines, off, end, m, s, indent, id, [field])
  {
    var h := AfterHeader(lines, lines[off], s, id, field.0, indent);
    assert Run(lines, m, off, end) == Run(lines, h, off + 1, end);
    HeadersFirst(lines, off, end);
    if HeadersOk(lines, off, end) {
      HeaderThenChildren(lines, lines[off], s, id, field, indent, Run(lines, h, off + 1, end).value);
    }
  }

  /** A field line at `off` that acts on `s`, followed by the children of its value. */
  lemma {:induction false} FieldBlock(lines: seq<string>, off: nat, field: (string, Doc), indent: nat, m: Machine, s: Machine, id: nat)
    requires PrintableField(field) && off < |lines| && lines[off] in lines
    requires StandsAt(lines, off + 1, PrintChildren(field.1, indent + 2))
    requires IsHeader(lines[off]) <==> !field.1.Leaf?
    requires Accepts(s.nodes, id, field.0) && s.stack == PopTo(s.stack, indent)
    requires Step(lines, m, lines[off]) == PutKeyValue(lines, lines[off], s, id, FieldText(field.0, field.1), indent)
    ensures ReadsFrom(lines, off, off + 1 + |PrintChildren(field.1, indent + 2)|, m, s, indent, id, [field])
    decreases field, 1
  {
    hide ReadsFrom, ReadsChildren, HeadersOk, Run, Step, PutKeyValue, HeaderOk, NextContainer;
    var raw, end := lines[off], off + 1 + |PrintChildren(field.1, indent + 2)|;
    PutsField(lines, raw, s, id, field.0, field.1, indent);
    if field.1.Leaf? {
      LeafBlock(lines, off, field.0, field.1.scalar, indent, m, s, id);
    } else {
      var h := AfterHeader(lines, raw, s, id, field.0, indent);
      HeaderKind(lines, off, field.1, indent + 2);
      AfterHeaderOpens(lines, raw, s, id, field.0, indent, indent + 2);
      if HeaderOk(lines, off) {
        ChildrenReads(lines, off + 1, field.1, indent + 2, h, |s.nodes|);
      } else {
        WrongKindStops(lines, h, field.1, indent + 2, |s.nodes|);
        StepRaisesRunRaises(lines, h, off + 1, end);
      }
      HeaderBlock(lines, off, end, field, indent, m, s, id);
    }
  }

  lemma FieldsAreChildren(lines: seq<string>, off: nat, end: nat, m: Machine, indent: nat, id: nat, fields: seq<(string, Doc)>)
    requires off <= end <= |lines| && id < |m.nodes| && m.nodes[id] == Dict([])
    requires ReadsFields(lines, off, end, m, indent, id, fields)
    ensures ReadsChildren(lines, off, end, m, indent, id, Map(fields))
  {
    if HeadersOk(lines, off, end) { FilledDict(m, Run(lines, m, off, end).value, id, fields); }
  }

  lemma ItemsAreChildren(lines: seq<string>, off: nat, end: nat, m: Machine, indent: nat, id: nat, items: seq<Doc>)
    requires off <= end <= |lines| && id < |m.nodes| && m.nodes[id] == Items([])
    requires ReadsItems(lines, off, end, m, indent, id, items)
    ensures ReadsChildren(lines, off, end, m, indent, id, List(items))
  {
    if HeadersOk(lines, off, end) { FilledList(m, Run(lines, m, off, end).value, id, items); }
  }

  lemma MapPrintable(d: Doc)
    requires Printable(d) && d.Map?
    ensures d.fields != [] && PrintableFields(d.fields)
  {}

  lemma ListPrintable(d: Doc)
    requires Printable(d) && d.List?
    ensures forall i :: 0 <= i < |d.items| ==> PrintableItem(d.items[i])
  {}

  lemma FreshAccepts(nodes: seq<Container>, id: nat, fields: seq<(string, Doc)>)
    requires id < |nodes| && nodes[id] == Dict([])
    ensures AcceptsAll(nodes, id, fields)
  {}

  /** The children of a fresh container of the right kind. */
  lemma {:induction false} ChildrenReads(lines: seq<string>, off: nat, d: Doc, indent: nat, m: Machine, id: nat)
    requires indent >= 2 && !d.Leaf? && Printable(d) && StandsAt(lines, off, PrintChildren(d, indent))
    requires Opens(m.stack, indent, id) && id < |m.nodes| && EmptyFor(m.nodes[id], d)
    ensures ReadsChildren(lines, off, off + |PrintChildren(d, indent)|, m, indent, id, d)
    decreases d, 0
  {
    hide ReadsChildren, ReadsFields, ReadsItems, Printable;
    var end := off + |PrintChildren(d, indent)|;
    if d.Map? {
      MapPrintable(d);
      FreshAccepts(m.nodes, id, d.fields);
      FieldsReads(lines, off, d.fields, indent, m, id);
      FieldsAreChildren(lines, off, end, m, indent, id, d.fields);
    } else {
      ListPrintable(d);
      ItemsReads(lines, off, d.items, indent, m, id);
      ItemsAreChildren(lines, off, end, m, indent, id, d.items);
    }
  }

  // ---------------------------------------------------------------- the fields of a dict

  lemma {:induction false} FieldReads(lines: seq<string>, off: nat, field: (string, Doc), indent: nat, m: Machine, id: nat)
    requires PrintableField(field) && StandsAt(lines, off, PrintField(field, indent, false))
    requires Opens(m.stack, indent, id) && Accepts(m.nodes, id, field.0)
    ensures ReadsFields(lines, off, off + |PrintField(field, indent, false)|, m, indent, id, [field])
    decreases field, 2
  {
    hide ReadsFields, ReadsFrom, HeadersOk, Run, Step, StandsAt, FieldText, PrintChildren, PutKeyValue, IsHeader, PlainKey, Printable;
    FieldParts(field);
    var raw := Lead(indent, false) + FieldText(field.0, field.1);
    var s := m.(stack := PopTo(m.stack, indent));
    StandsHead(lines, off, raw, PrintChildren(field.1, indent + 2));
    StepsField(lines, m, field.0, field.1, indent, id);
    FieldLineIsHeader(field.0, field.1, indent, false);
    PopsCompose(m.stack, indent, indent);
    FieldBlock(lines, off, field, indent, m, s, id);
    FromPopped(lines, off, off + |PrintField(field, indent, false)|, m, indent, id, [field]);
  }

  lemma FromPopped(lines: seq<string>, off: nat, end: nat, m: Machine, indent: int, id: nat, fields: seq<(string, Doc)>)
    requires off <= end <= |lines|
    requires indent >= 0 && ReadsFrom(lines, off, end, m, m.(stack := PopTo(m.stack, indent)), indent, id, fields)
    ensures ReadsFields(lines, off, end, m, indent, id, fields)
  {
    PopsCompose(m.stack, indent, indent);
  }

  lemma RestAccepts(nodes: seq<Container>, nodes': seq<Container>, id: nat, fields: seq<(string, Doc)>, value: Value)
    requires fields != [] && PrintableFields(fields) && AcceptsAll(nodes, id, fields)
    requires id < |nodes'| && nodes'[id] == Dict(nodes[id].entries + [(fields[0].0, value)])
    ensures AcceptsAll(nodes', id, fields[1..]) && PrintableFields(fields[1..])
  {
    forall i | 0 <= i < |fields[1..]| ensures Accepts(nodes', id, fields[1..][i].0) && PrintableField(fields[1..][i]) {
      assert fields[1..][i] == fields[i + 1];
      assert Accepts(nodes, id, fields[i + 1].0);
    }
  }

  lemma StillAccepts(m: Machine, n: Machine, id: nat, fields: seq<(string, Doc)>)
    requires fields != [] && PrintableFields(fields) && AcceptsAll(m.nodes, id, fields) && GainedFields(m, n, id, [fields[0]])
    ensures AcceptsAll(n.nodes, id, fields[1..]) && PrintableFields(fields[1..])
  {
    hide Denotes;
    var e0, e1, one := m.nodes[id].entries, n.nodes[id].entries, [fields[0]];
    assert one[0] == fields[0] && e1[|e0| + 0].0 == one[0].0;
    assert e1 == e0 + [(fields[0].0, e1[|e0|].1)];
    RestAccepts(m.nodes, n.nodes, id, fields, e1[|e0|].1);
  }

  lemma AfterFirst(lines: seq<string>, off: nat, mid: nat, m: Machine, indent: int, id: nat, fields: seq<(string, Doc)>)
    requires off <= mid <= |lines| && fields != [] && PrintableFields(fields) && AcceptsAll(m.nodes, id, fields)
    requires ReadsFields(lines, off, mid, m, indent, id, [fields[0]]) && Run(lines, m, off, mid).Ok?
    requires Opens(m.stack, indent, id)
    ensures var n := Run(lines, m, off, mid).value;
            AcceptsAll(n.nodes, id, fields[1..]) && PrintableFields(fields[1..]) && Opens(n.stack, indent, id)
  {
    hide Denotes, Step, Run, HeaderOk;
    StillAccepts(m, Run(lines, m, off, mid).value, id, fields);
  }

  lemma FirstOf(nodes: seq<Container>, id: nat, fields: seq<(string, Doc)>)
    requires fields != [] && PrintableFields(fields) && AcceptsAll(nodes, id, fields)
    ensures PrintableField(fields[0]) && Accepts(nodes, id, fields[0].0)
  {}

  lemma NothingRead(lines: seq<string>, off: nat, m: Machine, indent: int, id: nat)
    requires off <= |lines| && id < |m.nodes|
    ensures m.nodes[id].Dict? ==> ReadsFields(lines, off, off, m, indent, id, [])
    ensures m.nodes[id].Items? ==> ReadsItems(lines, off, off, m, indent, id, [])
  {}

  lemma {:induction false} FieldsReads(lines: seq<string>, off: nat, fields: seq<(string, Doc)>, indent: nat, m: Machine, id: nat)
    requires PrintableFields(fields) && StandsAt(lines, off, PrintFields(fields, indent))
    requires Opens(m.stack, indent, id) && AcceptsAll(m.nodes, id, fields)
    ensures ReadsFields(lines, off, off + |PrintFields(fields, indent)|, m, indent, id, fields)
    decreases fields, 0
  {
    hide ReadsFields, HeadersOk, Run;
    if fields == [] {
      NothingRead(lines, off, m, indent, id);
    } else {
      var first, rest := PrintField(fields[0], indent, false), PrintFields(fields[1..], indent);
      var mid, end := off + |first|, off + |first| + |rest|;
      StandsSplit(lines, off, first, rest);
      FirstOf(m.nodes, id, fields);
      FieldReads(lines, off, fields[0], indent, m, id);
      if Run(lines, m, off, mid).Ok? {
        AfterFirst(lines, off, mid, m, indent, id, fields);
        FieldsReads(lines, mid, fields[1..], indent, Run(lines, m, off, mid).value, id);
      }
      ReadsFieldsThen(lines, off, mid, end, m, indent, id, [fields[0]], fields[1..]);
      assert [fields[0]] + fields[1..] == fields;
    }
  }

  // ---------------------------------------------------------------- the items of a list

  /** The state in which a dashed field line works: a fresh dict was appended to the list and opened. */
  function ItemStarted(m: Machine, list: nat, indent: int): Machine
    requires list < |m.nodes| && m.nodes[list].Items?
  {
    Machine(m.nodes[list := Items(m.nodes[list].values + [Ref(|m.nodes|)])] + [Dict([])],
            PopTo(m.stack, indent) + [(indent, |m.nodes|)])
  }

  lemma ItemFilled(m: Machine, n: Machine, list: nat, indent: int, fields: seq<(string, Doc)>)
    requires list < |m.nodes| && m.nodes[list].Items?
    requires var s := ItemStarted(m, list, indent);
             GainedFields(s, n, |m.nodes|, fields) && SameOpen(s, n, indent + 2)
    ensures GainedItems(m, n, list, [Map(fields)]) && SameOpen(m, n, indent)
  {
    hide Denotes, PopTo;
    var s := ItemStarted(m, list, indent);
    FilledDict(s, n, |m.nodes|, fields);
    assert n.nodes[list] == s.nodes[list];
    SameOpenFurther(s, n, indent + 2, indent);
    PopPushed(PopTo(m.stack, indent), indent, |m.nodes|, indent);
    PopsCompose(m.stack, indent, indent);
  }

  lemma ItemStartedOpens(m: Machine, list: nat, indent: int)
    requires list < |m.nodes| && m.nodes[list].Items?
    ensures var s := ItemStarted(m, list, indent);
            && PopTo(s.stack, indent + 2) == s.stack && Opens(s.stack, indent + 2, |m.nodes|)
            && s.nodes[|m.nodes|] == Dict([])
  {
    PopPushed(PopTo(m.stack, indent), indent, |m.nodes|, indent + 2);
  }

  lemma LeafItemReads(lines: seq<string>, off: nat, s: Scalar, indent: nat, m: Machine, list: nat)
    requires PlainItem(s) && StandsAt(lines, off, [Spaces(indent) + "- " + Show(s)])
    requires Opens(m.stack, indent, list) && list < |m.nodes| && m.nodes[list].Items?
    ensures ReadsItems(lines, off, off + 1, m, indent, list, [Leaf(s)])
  {
    var raw := Spaces(indent) + "- " + Show(s);
    assert [raw] == [raw] + [];
    StandsHead(lines, off, raw, []);
    StepsLeafItem(lines, m, s, indent, list);
    LeafItemIsNoHeader(s, indent);
    var next := Step(lines, m, raw);
    assert Run(lines, m, off, off + 1) == Run(lines, next.value, off + 1, off + 1) == next;
    PopsCompose(m.stack, indent, indent);
  }

  /** The rest of a map item, once its first field has been read into the fresh dict. */
  lemma RestOfItem(lines: seq<string>, off: nat, mid: nat, end: nat, fields: seq<(string, Doc)>, indent: nat, m: Machine, list: nat)
    requires off <= mid <= end <= |lines| && fields != []
    requires list < |m.nodes| && m.nodes[list].Items?
    requires ReadsFrom(lines, off, mid, m, ItemStarted(m, list, indent), indent + 2, |m.nodes|, [fields[0]])
    requires Run(lines, m, off, mid).Ok? ==>
               ReadsFields(lines, mid, end, Run(lines, m, off, mid).value, indent + 2, |m.nodes|, fields[1..])
    ensures ReadsItems(lines, off, end, m, indent, list, [Map(fields)])
  {
    hide Denotes, Step;
    RunSplit(lines, m, off, mid, end);
    assert HeadersOk(lines, off, end) <==> HeadersOk(lines, off, mid) && HeadersOk(lines, mid, end);
    if HeadersOk(lines, off, end) {
      var n, p := Run(lines, m, off, mid).value, Run(lines, m, off, end).value;
      GainTwice(ItemStarted(m, list, indent), n, p, |m.nodes|, [fields[0]], fields[1..]);
      assert [fields[0]] + fields[1..] == fields;
      ItemFilled(m, p, list, indent, fields);
    }
  }

  lemma AfterFirstOfItem(lines: seq<string>, off: nat, mid: nat, fields: seq<(string, Doc)>, indent: nat, m: Machine, list: nat)
    requires off <= mid <= |lines| && fields != [] && PrintableFields(fields)
    requires list < |m.nodes| && m.nodes[list].Items?
    requires ReadsFrom(lines, off, mid, m, ItemStarted(m, list, indent), indent + 2, |m.nodes|, [fields[0]])
    requires Run(lines, m, off, mid).Ok?
    ensures var n := Run(lines, m, off, mid).value;
            && AcceptsAll(n.nodes, |m.nodes|, fields[1..]) && PrintableFields(fields[1..])
            && Opens(n.stack, indent + 2, |m.nodes|)
  {
    var s := ItemStarted(m, list, indent);
    ItemStartedOpens(m, list, indent);
    FreshAccepts(s.nodes, |m.nodes|, fields);
    StillAccepts(s, Run(lines, m, off, mid).value, |m.nodes|, fields);
  }

  lemma {:induction false} MapItemReads(lines: seq<string>, off: nat, fields: seq<(string, Doc)>, indent: nat, m: Machine, list: nat)
    requires fields != [] && PrintableFields(fields)
    requires StandsAt(lines, off, PrintItem(Map(fields), indent))
    requires Opens(m.stack, indent, list) && list < |m.nodes| && m.nodes[list].Items?
    ensures ReadsItems(lines, off, off + |PrintItem(Map(fields), indent)|, m, indent, list, [Map(fields)])
    decreases fields, 3
  {
    hide ReadsItems, ReadsFields, ReadsFrom, HeadersOk, Run, StandsAt, Printable, PlainKey;
    var field, item := fields[0], |m.nodes|;
    var s := ItemStarted(m, list, indent);
    var first, rest := PrintField(field, indent + 2, true), PrintFields(fields[1..], indent + 2);
    var mid, end := off + |first|, off + |first| + |rest|;
    StandsSplit(lines, off, first, rest);
    ItemStartedOpens(m, list, indent);
    FreshAccepts(s.nodes, item, fields);
    FirstOf(s.nodes, item, fields);
    DashedFieldReads(lines, off, field, indent, m, list);
    if Run(lines, m, off, mid).Ok? {
      AfterFirstOfItem(lines, off, mid, fields, indent, m, list);
      FieldsReads(lines, mid, fields[1..], indent + 2, Run(lines, m, off, mid).value, item);
    }
    RestOfItem(lines, off, mid, end, fields, indent, m, list);
  }

  lemma {:induction false} DashedFieldReads(lines: seq<string>, off: nat, field: (string, Doc), indent: nat, m: Machine, list: nat)
    requires PrintableField(field) && StandsAt(lines, off, PrintField(field, indent + 2, true))
    requires Opens(m.stack, indent, list) && list < |m.nodes| && m.nodes[list].Items?
    ensures ReadsFrom(lines, off, off + |PrintField(field, indent + 2, true)|, m, ItemStarted(m, list, indent),
                      indent + 2, |m.nodes|, [field])
    decreases field, 2
  {
    hide ReadsFrom, HeadersOk, Run, Step, StandsAt, FieldText, PrintChildren, PutKeyValue, IsHeader, PlainKey, Printable;
    FieldParts(field);
    var raw := Lead(indent + 2, true) + FieldText(field.0, field.1);
    StandsHead(lines, off, raw, PrintChildren(field.1, indent + 4));
    StepsDashedField(lines, m, field.0, field.1, indent + 2, list);
    FieldLineIsHeader(field.0, field.1, indent + 2, true);
    ItemStartedOpens(m, list, indent);
    FieldBlock(lines, off, field, indent + 2, m, ItemStarted(m, list, indent), |m.nodes|);
  }

  lemma AfterFirstItem(lines: seq<string>, off: nat, mid: nat, m: Machine, indent: int, list: nat, item: Doc)
    requires off <= mid <= |lines| && Opens(m.stack, indent, list)
    requires ReadsItems(lines, off, mid, m, indent, list, [item]) && Run(lines, m, off, mid).Ok?
    ensures var n := Run(lines, m, off, mid).value;
            Opens(n.stack, indent, list) && list < |n.nodes| && n.nodes[list].Items?
  {}

  lemma {:induction false} ItemReads(lines: seq<string>, off: nat, item: Doc, indent: nat, m: Machine, list: nat)
    requires PrintableItem(item) && StandsAt(lines, off, PrintItem(item, indent))
    requires Opens(m.stack, indent, list) && list < |m.nodes| && m.nodes[list].Items?
    ensures ReadsItems(lines, off, off + |PrintItem(item, indent)|, m, indent, list, [item])
    decreases item, 0
  {
    if item.Leaf? {
      LeafItemReads(lines, off, item.scalar, indent, m, list);
    } else {
      MapPrintable(item);
      MapItemReads(lines, off, item.fields, indent, m, list);
    }
  }

  lemma {:induction false} ItemsReads(lines: seq<string>, off: nat, items: seq<Doc>, indent: nat, m: Machine, list: nat)
    requires (forall i :: 0 <= i < |items| ==> PrintableItem(items[i])) && StandsAt(lines, off, PrintItems(items, indent))
    requires Opens(m.stack, indent, list) && list < |m.nodes| && m.nodes[list].Items?
    ensures ReadsItems(lines, off, off + |PrintItems(items, indent)|, m, indent, list, items)
    decreases items, 0
  {
    hide ReadsItems, HeadersOk, Run;
    if items == [] {
      NothingRead(lines, off, m, indent, list);
    } else {
      var first, rest := PrintItem(items[0], indent), PrintItems(items[1..], indent);
      var mid, end := off + |first|, off + |first| + |rest|;
      StandsSplit(lines, off, first, rest);
      ItemReads(lines, off, items[0], indent, m, list);
      if Run(lines, m, off, mid).Ok? {
        AfterFirstItem(lines, off, mid, m, indent, list, items[0]);
        ItemsReads(lines, mid, items[1..], indent, Run(lines, m, off, mid).value, list);
      }
      ReadsItemsThen(lines, off, mid, end, m, indent, list, [items[0]], items[1..]);
      assert [items[0]] + items[1..] == items;
    }
  }

  // ---------------------------------------------------------------- whole documents

  lemma {:induction false} PrintedLinesUnbroken(d: Doc, indent: nat)
    requires indent >= 2 && Printable(d)
    ensures forall i :: 0 <= i < |PrintChildren(d, indent)| ==> NoLineBreak(PrintChildren(d, indent)[i])
    decreases d, 0
  {
    if d.Map? { FieldsUnbroken(d.fields, indent); }
    if d.List? { ItemsUnbroken(d.items, indent); }
  }

  lemma LineUnbroken(key: string, d: Doc, indent: nat, dashed: bool)
    requires (dashed ==> indent >= 2) && PlainKey(key) && (d.Leaf? ==> PlainValue(d.scalar))
    ensures NoLineBreak(Lead(indent, dashed) + FieldText(key, d))
  {
    hide PlainKey, PlainValue, FieldText;
    FieldTextFacts(key, d);
  }

  lemma {:induction false} FieldUnbroken(field: (string, Doc), indent: nat, dashed: bool)
    requires (dashed ==> indent >= 2) && PrintableField(field)
    ensures forall i :: 0 <= i < |PrintField(field, indent, dashed)| ==> NoLineBreak(PrintField(field, indent, dashed)[i])
    decreases field, 1
  {
    hide Printable, PlainKey, FieldText, NoLineBreak;
    FieldParts(field);
    LineUnbroken(field.0, field.1, indent, dashed);
    PrintedLinesUnbroken(field.1, indent + 2);
  }

  lemma {:induction false} FieldsUnbroken(fields: seq<(string, Doc)>, indent: nat)
    requires forall i :: 0 <= i < |fields| ==> PrintableField(fields[i])
    ensures forall i :: 0 <= i < |PrintFields(fields, indent)| ==> NoLineBreak(PrintFields(fields, indent)[i])
    decreases fields, 0
  {
    if fields != [] {
      FieldUnbroken(fields[0], indent, false);
      FieldsUnbroken(fields[1..], indent);
    }
  }

  lemma {:induction false} ItemsUnbroken(items: seq<Doc>, indent: nat)
    requires forall i :: 0 <= i < |items| ==> PrintableItem(items[i])
    ensures forall i :: 0 <= i < |PrintItems(items, indent)| ==> NoLineBreak(PrintItems(items, indent)[i])
    decreases items, 0
  {
    if items != [] {
      ItemsUnbroken(items[1..], indent);
      ItemUnbroken(items[0], indent);
    }
  }

  lemma {:induction false} ItemUnbroken(item: Doc, indent: nat)
    requires PrintableItem(item)
    ensures forall i :: 0 <= i < |PrintItem(item, indent)| ==> NoLineBreak(PrintItem(item, indent)[i])
    decreases item, 0
  {
    if item.Leaf? {
      ShowReadsBack(item.scalar);
    } else {
      MapPrintable(item);
      FieldUnbroken(item.fields[0], indent + 2, true);
      FieldsUnbroken(item.fields[1..], indent + 2);
    }
  }

  /** The parse succeeded and its root dict is the document. */
  ghost predicate ParsesTo(text: string, d: Doc) {
    var r := ParseLines(SplitLines(text));
    r.Ok? && r.value.nodes != [] && Denotes(r.value.nodes, 0, |r.value.nodes|, Ref(0), d)
  }

  /** Round trip: a printable document is read back from its printing exactly when identical header lines
      always head the same kind of container; otherwise the parser raises. */
  lemma RoundTrip(fields: seq<(string, Doc)>)
    requires Printable(Map(fields))
    ensures ParsesTo(Print(fields), Map(fields)) <==> HeadersAgree(PrintFields(fields, 0))
    ensures ParseLines(SplitLines(Print(fields))).Ok? <==> HeadersAgree(PrintFields(fields, 0))
  {
    var lines := PrintFields(fields, 0);
    MapPrintable(Map(fields));
    FieldsUnbroken(fields, 0);
    SplitJoined(lines);
    RoundTripLines(fields);
    HeadersAgreeExactly(lines);
  }

  lemma RoundTripLines(fields: seq<(string, Doc)>)
    requires PrintableFields(fields)
    ensures var lines := PrintFields(fields, 0);
            var r := ParseLines(lines);
            if HeadersOk(lines, 0, |lines|) then
              r.Ok? && r.value.nodes != [] && Denotes(r.value.nodes, 0, |r.value.nodes|, Ref(0), Map(fields))
            else r.Raise?
  {
    hide ReadsFields, HeadersOk, Run, Step, PrintFields;
    var lines := PrintFields(fields, 0);
    assert lines[0..0 + |lines|] == lines;
    FreshAccepts(START.nodes, 0, fields);
    FieldsReads(lines, 0, fields, 0, START, 0);
    FieldsAreChildren(lines, 0, |lines|, START, 0, 0, fields);
  }

  // ---------------------------------------------------------------- two equal headers of different kinds

  const PORT := Map([("p", Leaf(Text("v")))])
  const PORTS := List([Leaf(Text("v"))])

  /** Two owners of an `x`, which is a map for one and a list for the other. */
  const TWO_OWNERS := [("a", Map([("x", PORT)])), ("b", Map([("x", PORTS)]))]

  lemma TwoOwnersPrinted()
    ensures Printable(Map(TWO_OWNERS))
    ensures PrintFields(TWO_OWNERS, 0) == ["a:", "  x:", "    p: v", "b:", "  x:", "    - v"]
  {
    hide PrintFields, PrintChildren, Printable, FieldText;
    LinesAre();
    LeafPrinted();
    OneFieldPrinted("p", Leaf(Text("v")), 4, []);
    OneFieldPrinted("x", PORT, 2, ["    p: v"]);
    OneFieldPrinted("x", PORTS, 2, ["    - v"]);
    TwoFieldsPrinted("a", Map([("x", PORT)]), ["  x:", "    p: v"], "b", Map([("x", PORTS)]), ["  x:", "    - v"]);
  }

  lemma LinesAre()
    ensures FieldText("p", Leaf(Text("v"))) == "p: v" && Spaces(4) + "p: v" == "    p: v"
    ensures FieldText("x", PORT) == FieldText("x", PORTS) == "x:" && Spaces(2) + "x:" == "  x:"
    ensures FieldText("a", Map([("x", PORT)])) == "a:" && FieldText("b", Map([("x", PORTS)])) == "b:"
    ensures Spaces(0) + "a:" == "a:" && Spaces(0) + "b:" == "b:"
    ensures Spaces(4) + "- " + Show(Text("v")) == "    - v"
  {}

  lemma LeafPrinted()
    ensures Printable(Leaf(Text("v"))) && PrintChildren(Leaf(Text("v")), 6) == []
    ensures Printable(PORTS) && PrintChildren(PORTS, 4) == ["    - v"]
  {
    LinesAre();
    assert PORTS.items[1..] == [] && PrintItems([], 4) == [];
    assert PrintItem(PORTS.items[0], 4) == [Spaces(4) + "- " + Show(Text("v"))];
    assert PrintItems(PORTS.items, 4) == PrintItem(PORTS.items[0], 4) + [];
  }

  lemma OneFieldPrinted(key: string, d: Doc, indent: nat, children: seq<string>)
    requires PlainKey(key) && Printable(d) && PrintChildren(d, indent + 2) == children && indent >= 2
    ensures Printable(Map([(key, d)])) && PrintChildren(Map([(key, d)]), indent) == [Spaces(indent) + FieldText(key, d)] + children
  {
    FieldPrinted((key, d), indent);
  }

  lemma FieldPrinted(field: (string, Doc), indent: nat)
    ensures PrintField(field, indent, false) == [Spaces(indent) + FieldText(field.0, field.1)] + PrintChildren(field.1, indent + 2)
    ensures PrintFields([field], indent) == PrintField(field, indent, false)
  {
    assert [field][1..] == [] && PrintFields([], indent) == [];
    assert PrintFields([field], indent) == PrintField(field, indent, false) + PrintFields([field][1..], indent);
  }

  lemma TwoFieldsPrinted(k: string, c: Doc, cs: seq<string>, l: string, d: Doc, ds: seq<string>)
    requires PlainKey(k) && Printable(c) && PrintChildren(c, 2) == cs
    requires PlainKey(l) && Printable(d) && PrintChildren(d, 2) == ds && k != l
    ensures Printable(Map([(k, c), (l, d)]))
    ensures PrintFields([(k, c), (l, d)], 0) == [Spaces(0) + FieldText(k, c)] + cs + ([Spaces(0) + FieldText(l, d)] + ds)
  {
    FieldPrinted((k, c), 0);
    FieldPrinted((l, d), 0);
    assert [(k, c), (l, d)][1..] == [(l, d)];
    assert PrintFields([(k, c), (l, d)], 0) == PrintField((k, c), 0, false) + PrintFields([(k, c), (l, d)][1..], 0);
  }

  /** The printing of this document is in the subset, but the list under the second `x:` is put in a map,
      as the first one needs, so the parser raises. */
  lemma EqualHeadersRaise()
    ensures Printable(Map(TWO_OWNERS)) && !HeadersAgree(PrintFields(TWO_OWNERS, 0))
    ensures ParseLines(SplitLines(Print(TWO_OWNERS))).Raise?
  {
    hide PrintFields, Printable, HeadersAgree, ParseLines, SplitLines;
    TwoOwnersPrinted();
    HeadersDisagree();
    RoundTrip(TWO_OWNERS);
  }

  lemma HeadersDisagree()
    ensures !HeadersAgree(["a:", "  x:", "    p: v", "b:", "  x:", "    - v"])
  {
    hide *;
    var lines := ["a:", "  x:", "    p: v", "b:", "  x:", "    - v"];
    TwoLinesStart();
    KindAt(lines, 2);
    KindAt(lines, 5);
    SameHeaderTwice(lines, 1, 4);
  }

  lemma TwoLinesStart()
    ensures IsHeader("  x:") && IsContent("    p: v") && !IsDashed(Strip("    p: v"))
    ensures IsContent("    - v") && IsDashed(Strip("    - v"))
  {
    hide IsContent, IsHeader, IsDashed, Strip, FieldText, Spaces, Printable;
    LinesAre();
    FieldLineIsHeader("x", PORT, 2, false);
    FieldLineFacts("p", Leaf(Text("v")), 4, false);
    LeafItemFacts(Text("v"), 4);
  }

  lemma KindAt(lines: seq<string>, i: nat)
    requires i < |lines| && IsContent(lines[i])
    ensures NextKind(lines, i) == if IsDashed(Strip(lines[i])) then Items([]) else Dict([])
  {}

  lemma SameHeaderTwice(lines: seq<string>, i: nat, j: nat)
    requires i < |lines| && j < |lines| && lines[i] == lines[j] && IsHeader(lines[i])
    requires NextKind(lines, i + 1) != NextKind(lines, j + 1)
    ensures !HeadersAgree(lines)
  {}
}
