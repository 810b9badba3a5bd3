/** The indentation-stack parser for the registry's private YAML subset (not YAML 1.2), and the canonical
    printer it inverts. Containers are shared and filled in place, so the parser's containers are nodes of
    an arena and a value is a scalar or a reference to a node. */
module SimpleYaml {
  import opened Basics
  import opened YamlLines

  datatype Value = Plain(scalar: Scalar) | Ref(id: nat)

  datatype Container = Dict(entries: seq<(string, Value)>) | Items(values: seq<Value>)

  type Stack = seq<(int, nat)>

  datatype Machine = Machine(nodes: seq<Container>, stack: Stack)

  // ---------------------------------------------------------------- one line

  predicate IsContent(raw: string) {
    Strip(raw) != "" && !(StripLeft(raw) != "" && StripLeft(raw)[0] == '#')
  }

  predicate IsDashed(text: string) { |text| >= 2 && text[..2] == "- " }

  /** `parent[key] = value` on a dict: an existing key keeps its place. */
  function SetEntry(entries: seq<(string, Value)>, key: string, value: Value): seq<(string, Value)> {
    if entries == [] then [(key, value)]
    else if entries[0].0 == key then [(key, value)] + entries[1..]
    else [entries[0]] + SetEntry(entries[1..], key, value)
  }

  function PopTo(stack: Stack, indent: int): Stack {
    if stack != [] && indent <= stack[|stack| - 1].0 then PopTo(stack[..|stack| - 1], indent) else stack
  }

  /** `lines.index(line)`: the first line with this text, not the current one. */
  function FirstIndex(lines: seq<string>, line: string): (i: nat)
    requires line in lines
    ensures i < |lines| && lines[i] == line
  {
    if lines[0] == line then 0 else 1 + FirstIndex(lines[1..], line)
  }

  /** The kind of container the next content line after position `i` belongs to. */
  function NextKind(lines: seq<string>, i: nat): Container
    requires i <= |lines|
    decreases |lines| - i
  {
    if i == |lines| then Dict([])
    else if !IsContent(lines[i]) then NextKind(lines, i + 1)
    else if IsDashed(Strip(lines[i])) then Items([]) else Dict([])
  }

  /** `_next_container(lines, current_line)` */
  function NextContainer(lines: seq<string>, line: string): Container
    requires line in lines
  {
    NextKind(lines, FirstIndex(lines, line) + 1)
  }

  method FindNextContainer(lines: seq<string>, line: string) returns (c: Container)
    requires line in lines
    ensures c == NextContainer(lines, line)
  {
    var i := FirstIndex(lines, line) + 1;
    while i < |lines|
      invariant i <= |lines| && NextKind(lines, i) == NextContainer(lines, line)
    {
      if IsContent(lines[i]) {
        return if IsDashed(Strip(lines[i])) then Items([]) else Dict([]);
      }
      i := i + 1;
    }
    return Dict([]);
  }

  /** Puts the value of a `key: value` text, or the container it heads, under its key in dict node `id`.
      A header pushes its new container at `headerIndent`. */
  function PutKeyValue(lines: seq<string>, raw: string, m: Machine, id: nat, text: string, headerIndent: int): Result<Machine>
    requires raw in lines
  {
    var split := SplitKeyValue(text);
    if split.Raise? then Raise(split.error)
    else if id >= |m.nodes| || m.nodes[id].Items? then Raise("TypeError")
    else
      var (key, value) := split.value;
      var entries := m.nodes[id].entries;
      if value == "" then
        Ok(Machine(m.nodes[id := Dict(SetEntry(entries, key, Ref(|m.nodes|)))] + [NextContainer(lines, raw)],
                   m.stack + [(headerIndent, |m.nodes|)]))
      else Ok(m.(nodes := m.nodes[id := Dict(SetEntry(entries, key, Plain(ParseScalar(value))))]))
  }

  function Step(lines: seq<string>, m: Machine, raw: string): Result<Machine>
    requires raw in lines
  {
    if !IsContent(raw) then Ok(m)
    else
      var indent, text := Indent(raw), Strip(raw);
      var stack := PopTo(m.stack, indent);
      if stack == [] || stack[|stack| - 1].1 >= |m.nodes| then Raise("IndexError")
      else
        var parent := stack[|stack| - 1].1;
        if IsDashed(text) then
          var itemText := text[2..];
          if m.nodes[parent].Dict? then Raise("List item without list parent")
          else if ':' !in itemText then
            Ok(Machine(m.nodes[parent := Items(m.nodes[parent].values + [Plain(ParseScalar(itemText))])], stack))
          else
            var item := |m.nodes|;
            var nodes := m.nodes[parent := Items(m.nodes[parent].values + [Ref(item)])] + [Dict([])];
            PutKeyValue(lines, raw, Machine(nodes, stack + [(indent, item)]), item, itemText, indent + 2)
        else PutKeyValue(lines, raw, m.(stack := stack), parent, text, indent)
  }

  /** The lines from `i` up to `j`, in order. */
  function Run(lines: seq<string>, m: Machine, i: nat, j: nat): Result<Machine>
    requires i <= j <= |lines|
    decreases j - i
  {
    if i == j then Ok(m)
    else
      var next := Step(lines, m, lines[i]);
      if next.Raise? then next else Run(lines, next.value, i + 1, j)
  }

  const START := Machine([Dict([])], [(-1, 0)])

  function ParseLines(lines: seq<string>): Result<Machine> { Run(lines, START, 0, |lines|) }

  // ---------------------------------------------------------------- the parser as the source writes it

  /** The mutable state of one parse: the containers built so far and the stack of open ones. */
  class Reader {
    var nodes: seq<Container>
    var stack: Stack

    function Current(): Machine
      reads this
    {
      Machine(nodes, stack)
    }

    constructor ()
      ensures Current() == START
    {
      nodes, stack := [Dict([])], [(-1, 0)];
    }

    method PopDeeper(indent: int)
      modifies this`stack
      ensures stack == PopTo(old(stack), indent)
    {
      while stack != [] && indent <= stack[|stack| - 1].0
        invariant PopTo(stack, indent) == PopTo(old(stack), indent)
        decreases |stack|
      {
        stack := stack[..|stack| - 1];
      }
    }

    method PutField(lines: seq<string>, raw: string, id: nat, text: string, headerIndent: int) returns (ok: bool)
      requires raw in lines
      modifies this
      ensures ok <==> PutKeyValue(lines, raw, old(Current()), id, text, headerIndent).Ok?
      ensures ok ==> PutKeyValue(lines, raw, old(Current()), id, text, headerIndent) == Ok(Current())
    {
      var split := SplitKeyValue(text);
      if split.Raise? || id >= |nodes| || nodes[id].Items? { return false; }
      var (key, value) := split.value;
      if value == "" {
        var next := FindNextContainer(lines, raw);
        var header := |nodes|;
        nodes := nodes[id := Dict(SetEntry(nodes[id].entries, key, Ref(header)))] + [next];
        stack := stack + [(headerIndent, header)];
      } else {
        nodes := nodes[id := Dict(SetEntry(nodes[id].entries, key, Plain(ParseScalar(value))))];
      }
      ok := true;
    }

    method ReadLine(lines: seq<string>, raw: string) returns (ok: bool)
      requires raw in lines
      modifies this
      ensures ok <==> Step(lines, old(Current()), raw).Ok?
      ensures ok ==> Step(lines, old(Current()), raw) == Ok(Current())
    {
      if !IsContent(raw) { return true; }
      var indent, text := Indent(raw), Strip(raw);
      PopDeeper(indent);
      if stack == [] || stack[|stack| - 1].1 >= |nodes| { return false; }
      var parent := stack[|stack| - 1].1;
      if IsDashed(text) {
        var itemText := text[2..];
        if nodes[parent].Dict? { return false; }
        if ':' !in itemText {
          nodes := nodes[parent := Items(nodes[parent].values + [Plain(ParseScalar(itemText))])];
          return true;
        }
        var item := |nodes|;
        nodes := nodes[parent := Items(nodes[parent].values + [Ref(item)])] + [Dict([])];
        stack := stack + [(indent, item)];
        ok := PutField(lines, raw, item, itemText, indent + 2);
      } else {
        ok := PutField(lines, raw, parent, text, indent);
      }
    }

    /** `_parse_simple_yaml` on a fresh reader. */
    method Parse(text: string) returns (ok: bool)
      requires Current() == START
      modifies this
      ensures ok <==> ParseLines(SplitLines(text)).Ok?
      ensures ok ==> ParseLines(SplitLines(text)) == Ok(Current())
    {
      var lines := SplitLines(text);
      for i := 0 to |lines|
        invariant Run(lines, Current(), i, |lines|) == ParseLines(lines)
      {
        ok := ReadLine(lines, lines[i]);
        if !ok { return; }
      }
      ok := true;
    }
  }
}
