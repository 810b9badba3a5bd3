/** Documents, their canonical two-space printing, and what one printed line does to the parser. */
module YamlPrinter {
  import opened Basics
  import opened YamlLines
  import opened SimpleYaml

  datatype Doc = Leaf(scalar: Scalar) | Map(fields: seq<(string, Doc)>) | List(items: seq<Doc>)

  /** Nonempty maps with distinct plain keys, nonempty lists, plain scalars. No line of the subset denotes
      a list directly inside a list. */
  ghost predicate Printable(d: Doc) {
    match d
    case Leaf(s) => PlainValue(s)
    case Map(fields) =>
      && fields != []
      && (forall i, j :: 0 <= i < j < |fields| ==> fields[i].0 != fields[j].0)
      && forall i :: 0 <= i < |fields| ==> PlainKey(fields[i].0) && Printable(fields[i].1)
    case List(items) =>
      && items != []
      && forall i :: 0 <= i < |items| ==>
           Printable(items[i]) && !items[i].List? && (items[i].Leaf? ==> PlainItem(items[i].scalar))
  }

  // ---------------------------------------------------------------- printing

  function Lead(indent: nat, dashed: bool): string
    requires dashed ==> indent >= 2
  {
    if dashed then Spaces(indent - 2) + "- " else Spaces(indent)
  }

  function FieldText(key: string, d: Doc): string {
    key + ":" + (if d.Leaf? then " " + Show(d.scalar) else "")
  }

  function PrintField(field: (string, Doc), indent: nat, dashed: bool): seq<string>
    requires dashed ==> indent >= 2
    decreases field, 1
  {
    [Lead(indent, dashed) + FieldText(field.0, field.1)] + PrintChildren(field.1, indent + 2)
  }

  function PrintChildren(d: Doc, indent: nat): seq<string>
    requires indent >= 2
    decreases d, 0
  {
    match d
    case Leaf(_) => []
    case Map(fields) => PrintFields(fields, indent)
    case List(items) => PrintItems(items, indent)
  }

  function PrintFields(fields: seq<(string, Doc)>, indent: nat): seq<string>
    decreases fields, 0
  {
    if fields == [] then []
    else PrintField(fields[0], indent, false) + PrintFields(fields[1..], indent)
  }

  function PrintItem(d: Doc, indent: nat): seq<string>
    decreases d, 1
  {
    match d
    case Leaf(s) => [Spaces(indent) + "- " + Show(s)]
    case Map(fields) =>
      if fields == [] then []
      else PrintField(fields[0], indent + 2, true) + PrintFields(fields[1..], indent + 2)
    case List(_) => []
  }

  function PrintItems(items: seq<Doc>, indent: nat): seq<string>
    decreases items, 0
  {
    if items == [] then [] else PrintItem(items[0], indent) + PrintItems(items[1..], indent)
  }

  /** A whole document is a map printed at the left margin. */
  function Print(fields: seq<(string, Doc)>): string { JoinLines(PrintFields(fields, 0)) }

  // ---------------------------------------------------------------- one printed line, read back

  lemma PaddedContent(n: nat, text: string)
    requires Trimmed(text) && text[0] != '#'
    ensures var raw := Spaces(n) + text; IsContent(raw) && Indent(raw) == n && Strip(raw) == text
  {
    PaddedLine(n, text);
  }

  /** A key, a colon and nothing, or a blank and something visible. */
  lemma KeyTextFacts(key: string, tail: string, value: string)
    requires PlainKey(key) && Strip(tail) == value && NoLineBreak(tail)
    requires tail == "" || !IsSpace(tail[|tail| - 1])
    ensures var text := key + ":" + tail;
            && Trimmed(text) && text[0] != '#' && !IsDashed(text) && ':' in text && NoLineBreak(text)
            && SplitKeyValue(text) == Ok((key, value))
  {
    var text := key + ":" + tail;
    FirstColon(key, tail);
    FindColonBounds(text);
    TrimmedIsStripped(key);
    assert text[|key|] == ':';
    assert text[|text| - 1] == if tail == "" then ':' else tail[|tail| - 1];
    assert key != "" ==> text[0] == key[0];
    assert |key| >= 2 ==> text[..2] == key[..2];
    assert |key| == 1 ==> text[..2] == [key[0], ':'];
  }

  lemma FieldTextFacts(key: string, d: Doc)
    requires PlainKey(key) && (d.Leaf? ==> PlainValue(d.scalar))
    ensures var text := FieldText(key, d);
            && Trimmed(text) && text[0] != '#' && !IsDashed(text) && ':' in text && NoLineBreak(text)
            && SplitKeyValue(text) == Ok((key, if d.Leaf? then Show(d.scalar) else ""))
  {
    hide PlainKey, PlainValue, IsSpace, Show, SplitKeyValue;
    if d.Leaf? {
      var shown := Show(d.scalar);
      ShowReadsBack(d.scalar);
      StripOneBlank(shown);
      assert (" " + shown)[|shown|] == shown[|shown| - 1];
      BlankUnbroken(shown);
      KeyTextFacts(key, " " + shown, shown);
    } else {
      KeyTextFacts(key, "", "");
    }
  }

  lemma BlankUnbroken(s: string)
    requires NoLineBreak(s)
    ensures NoLineBreak(" " + s)
  {}

  /** What a field line is to the parser: where it stands, and what follows the dash if it has one. */
  lemma FieldLineFacts(key: string, d: Doc, indent: nat, dashed: bool)
    requires dashed ==> indent >= 2
    requires PlainKey(key) && (d.Leaf? ==> PlainValue(d.scalar))
    ensures var raw := Lead(indent, dashed) + FieldText(key, d);
            && IsContent(raw)
            && Indent(raw) == (if dashed then indent - 2 else indent)
            && IsDashed(Strip(raw)) == dashed
            && (if dashed then Strip(raw)[2..] else Strip(raw)) == FieldText(key, d)
            && (!dashed ==> ':' in Strip(raw))
  {
    FieldTextFacts(key, d);
    var text := FieldText(key, d);
    if dashed {
      var dash := "- " + text;
      assert dash[|dash| - 1] == text[|text| - 1];
      assert dash[..2] == "- " && dash[2..] == text;
      assert Lead(indent, true) + text == Spaces(indent - 2) + dash;
      PaddedContent(indent - 2, dash);
    } else {
      PaddedContent(indent, text);
    }
  }

  lemma LeafItemFacts(s: Scalar, indent: nat)
    requires PlainItem(s)
    ensures var raw := Spaces(indent) + "- " + Show(s);
            && IsContent(raw) && Indent(raw) == indent && IsDashed(Strip(raw))
            && Strip(raw)[2..] == Show(s) && ':' !in Show(s) && ParseScalar(Show(s)) == s
  {
    ShowReadsBack(s);
    var dash := "- " + Show(s);
    assert dash[|dash| - 1] == Show(s)[|Show(s)| - 1];
    assert dash[..2] == "- " && dash[2..] == Show(s);
    assert Spaces(indent) + "- " + Show(s) == Spaces(indent) + dash;
    PaddedContent(indent, dash);
  }

  /** A header line: a key with nothing behind the colon. */
  predicate IsHeader(raw: string) {
    var text := Strip(raw);
    var body := if IsDashed(text) then text[2..] else text;
    var split := SplitKeyValue(body);
    IsContent(raw) && split.Ok? && split.value.1 == ""
  }

  lemma FieldLineIsHeader(key: string, d: Doc, indent: nat, dashed: bool)
    requires dashed ==> indent >= 2
    requires PlainKey(key) && (d.Leaf? ==> PlainValue(d.scalar))
    ensures IsHeader(Lead(indent, dashed) + FieldText(key, d)) <==> !d.Leaf?
  {
    FieldLineFacts(key, d, indent, dashed);
    FieldTextFacts(key, d);
    if d.Leaf? { ShowReadsBack(d.scalar); }
  }

  lemma LeafItemIsNoHeader(s: Scalar, indent: nat)
    requires PlainItem(s)
    ensures !IsHeader(Spaces(indent) + "- " + Show(s))
  {
    LeafItemFacts(s, indent);
    FindColonBounds(Show(s));
  }

  // ---------------------------------------------------------------- what a line does to the containers

  lemma {:induction false} SetNewEntry(entries: seq<(string, Value)>, key: string, value: Value)
    requires forall i :: 0 <= i < |entries| ==> entries[i].0 != key
    ensures SetEntry(entries, key, value) == entries + [(key, value)]
  {
    if entries != [] {
      SetNewEntry(entries[1..], key, value);
      assert entries == [entries[0]] + entries[1..];
    }
  }

  /** The dict node `id` is open and does not have the key yet. */
  ghost predicate Accepts(nodes: seq<Container>, id: nat, key: string) {
    id < |nodes| && nodes[id].Dict? && forall i :: 0 <= i < |nodes[id].entries| ==> nodes[id].entries[i].0 != key
  }

  lemma PutsField(lines: seq<string>, raw: string, m: Machine, id: nat, key: string, d: Doc, headerIndent: int)
    requires raw in lines && PlainKey(key) && (d.Leaf? ==> PlainValue(d.scalar)) && Accepts(m.nodes, id, key)
    ensures PutKeyValue(lines, raw, m, id, FieldText(key, d), headerIndent) ==
            if d.Leaf? then Ok(m.(nodes := m.nodes[id := Dict(m.nodes[id].entries + [(key, Plain(d.scalar))])]))
            else Ok(Machine(m.nodes[id := Dict(m.nodes[id].entries + [(key, Ref(|m.nodes|))])] + [NextContainer(lines, raw)],
                            m.stack + [(headerIndent, |m.nodes|)]))
  {
    FieldTextFacts(key, d);
    if d.Leaf? { ShowReadsBack(d.scalar); SetNewEntry(m.nodes[id].entries, key, Plain(d.scalar)); }
    else { SetNewEntry(m.nodes[id].entries, key, Ref(|m.nodes|)); }
  }

  /** After popping to `indent`, node `id` is the innermost open container. */
  ghost predicate Opens(stack: Stack, indent: int, id: nat) {
    var popped := PopTo(stack, indent);
    popped != [] && popped[|popped| - 1].1 == id
  }

  lemma StepsField(lines: seq<string>, m: Machine, key: string, d: Doc, indent: nat, id: nat)
    requires var raw := Lead(indent, false) + FieldText(key, d); raw in lines
    requires PlainKey(key) && (d.Leaf? ==> PlainValue(d.scalar)) && Opens(m.stack, indent, id) && Accepts(m.nodes, id, key)
    ensures var raw := Lead(indent, false) + FieldText(key, d);
            Step(lines, m, raw) == PutKeyValue(lines, raw, m.(stack := PopTo(m.stack, indent)), id, FieldText(key, d), indent)
  {
    FieldLineFacts(key, d, indent, false);
  }

  lemma StepsDashedField(lines: seq<string>, m: Machine, key: string, d: Doc, indent: nat, id: nat)
    requires indent >= 2 && var raw := Lead(indent, true) + FieldText(key, d); raw in lines
    requires PlainKey(key) && (d.Leaf? ==> PlainValue(d.scalar))
    requires Opens(m.stack, indent - 2, id) && id < |m.nodes| && m.nodes[id].Items?
    ensures var raw := Lead(indent, true) + FieldText(key, d);
            var item := |m.nodes|;
            var started := Machine(m.nodes[id := Items(m.nodes[id].values + [Ref(item)])] + [Dict([])],
                                  PopTo(m.stack, indent - 2) + [(indent - 2, item)]);
            Step(lines, m, raw) == PutKeyValue(lines, raw, started, item, FieldText(key, d), indent)
  {
    FieldLineFacts(key, d, indent, true);
    FieldTextFacts(key, d);
    hide PopTo, Lead, FieldText, Strip, Indent, IsContent, PlainKey, PlainValue, PutKeyValue, Printable;
  }

  lemma StepsLeafItem(lines: seq<string>, m: Machine, s: Scalar, indent: nat, id: nat)
    requires var raw := Spaces(indent) + "- " + Show(s); raw in lines
    requires PlainItem(s) && Opens(m.stack, indent, id) && id < |m.nodes| && m.nodes[id].Items?
    ensures var raw := Spaces(indent) + "- " + Show(s);
            Step(lines, m, raw) == Ok(Machine(m.nodes[id := Items(m.nodes[id].values + [Plain(s)])], PopTo(m.stack, indent)))
  {
    LeafItemFacts(s, indent);
  }

  // ---------------------------------------------------------------- the first line of a container's children

  ghost predicate StartsAt(lines: seq<string>, indent: nat, dashed: bool) {
    && lines != [] && IsContent(lines[0]) && Indent(lines[0]) == indent
    && IsDashed(Strip(lines[0])) == dashed && (!dashed ==> ':' in Strip(lines[0]))
  }

  lemma StartsWithLine(raw: string, rest: seq<string>, indent: nat, dashed: bool)
    requires IsContent(raw) && Indent(raw) == indent && IsDashed(Strip(raw)) == dashed && (!dashed ==> ':' in Strip(raw))
    ensures StartsAt([raw] + rest, indent, dashed)
  {}

  lemma FieldStart(field: (string, Doc), indent: nat, dashed: bool, rest: seq<string>)
    requires (dashed ==> indent >= 2) && PlainKey(field.0) && (field.1.Leaf? ==> PlainValue(field.1.scalar))
    ensures StartsAt(PrintField(field, indent, dashed) + rest, if dashed then indent - 2 else indent, dashed)
  {
    var raw := Lead(indent, dashed) + FieldText(field.0, field.1);
    var children := PrintChildren(field.1, indent + 2);
    FieldLineFacts(field.0, field.1, indent, dashed);
    StartsWithLine(raw, children + rest, if dashed then indent - 2 else indent, dashed);
    Regroup(raw, children, rest);
  }

  lemma Regroup(raw: string, children: seq<string>, rest: seq<string>)
    ensures [raw] + children + rest == [raw] + (children + rest)
  {}

  lemma FieldsStart(fields: seq<(string, Doc)>, indent: nat)
    requires fields != [] && PlainKey(fields[0].0) && Printable(fields[0].1)
    ensures StartsAt(PrintFields(fields, indent), indent, false)
  {
    FieldStart(fields[0], indent, false, PrintFields(fields[1..], indent));
  }

  lemma ItemStart(item: Doc, indent: nat)
    requires Printable(item) && !item.List? && (item.Leaf? ==> PlainItem(item.scalar))
    ensures StartsAt(PrintItem(item, indent), indent, true)
  {
    if item.Leaf? {
      LeafItemFacts(item.scalar, indent);
    } else {
      FieldStart(item.fields[0], indent + 2, true, PrintFields(item.fields[1..], indent + 2));
    }
  }

  lemma ChildrenStart(d: Doc, indent: nat)
    requires indent >= 2 && !d.Leaf? && Printable(d)
    ensures StartsAt(PrintChildren(d, indent), indent, d.List?)
  {
    if d.Map? {
      FieldsStart(d.fields, indent);
    } else {
      ItemStart(d.items[0], indent);
      assert PrintItems(d.items, indent)[0] == PrintItem(d.items[0], indent)[0];
    }
  }

  /** Children of the other kind than their container stop the parser at their first line. */
  lemma WrongKindStops(lines: seq<string>, m: Machine, d: Doc, indent: nat, id: nat)
    requires indent >= 2 && !d.Leaf? && Printable(d)
    requires PrintChildren(d, indent) != [] && PrintChildren(d, indent)[0] in lines
    requires Opens(m.stack, indent, id) && id < |m.nodes| && m.nodes[id].Items? == d.Map?
    ensures Step(lines, m, PrintChildren(d, indent)[0]).Raise?
  {
    ChildrenStart(d, indent);
    var text := Strip(PrintChildren(d, indent)[0]);
    FindColonBounds(text);
  }
}
