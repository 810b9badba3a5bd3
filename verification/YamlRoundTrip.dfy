/** Parsing the canonical printing of a document gives the document back, exactly when identical header
    lines always head the same kind of container. */
module YamlRoundTrip {
  import opened Basics
  import opened YamlLines
  import opened SimpleYaml
  import opened YamlPrinter

  // ---------------------------------------------------------------- what the arena denotes

  /** Value `v` denotes document `d`, using only nodes from `lo` up to `hi`. */
  ghost predicate Denotes(nodes: seq<Container>, lo: nat, hi: nat, v: Value, d: Doc)
    decreases d
  {
    match d
    case Leaf(s) => v == Plain(s)
    case Map(fields) =>
      && v.Ref? && lo <= v.id < hi <= |nodes| && nodes[v.id].Dict? && |nodes[v.id].entries| == |fields|
      && forall i :: 0 <= i < |fields| ==>
           nodes[v.id].entries[i].0 == fields[i].0 && Denotes(nodes, lo, hi, nodes[v.id].entries[i].1, fields[i].1)
    case List(items) =>
      && v.Ref? && lo <= v.id < hi <= |nodes| && nodes[v.id].Items? && |nodes[v.id].values| == |items|
      && forall i :: 0 <= i < |items| ==> Denotes(nodes, lo, hi, nodes[v.id].values[i], items[i])
  }

  /** A value denotes at most one document. */
  lemma {:induction false} DenotesOne(nodes: seq<Container>, lo: nat, hi: nat, v: Value, d: Doc, e: Doc)
    requires Denotes(nodes, lo, hi, v, d) && Denotes(nodes, lo, hi, v, e)
    ensures d == e
    decreases d
  {
    match d
    case Leaf(_) =>
    case Map(fields) =>
      forall i | 0 <= i < |fields| ensures fields[i] == e.fields[i] {
        DenotesOne(nodes, lo, hi, nodes[v.id].entries[i].1, fields[i].1, e.fields[i].1);
      }
      assert fields == e.fields;
    case List(items) =>
      forall i | 0 <= i < |items| ensures items[i] == e.items[i] {
        DenotesOne(nodes, lo, hi, nodes[v.id].values[i], items[i], e.items[i]);
      }
      assert items == e.items;
  }

  /** Nodes of a finished subtree are never written again. */
  lemma {:induction false} DenotesStays(nodes: seq<Container>, lo: nat, hi: nat, nodes': seq<Container>, lo': nat, hi': nat,
                                        v: Value, d: Doc)
    requires Denotes(nodes, lo, hi, v, d) && lo' <= lo && hi <= hi' <= |nodes'| && hi <= |nodes|
    requires forall k :: lo <= k < hi ==> nodes'[k] == nodes[k]
    ensures Denotes(nodes', lo', hi', v, d)
    decreases d
  {
    match d
    case Leaf(_) =>
    case Map(fields) =>
      forall i | 0 <= i < |fields| ensures Denotes(nodes', lo', hi', nodes[v.id].entries[i].1, fields[i].1) {
        DenotesStays(nodes, lo, hi, nodes', lo', hi', nodes[v.id].entries[i].1, fields[i].1);
      }
    case List(items) =>
      forall i | 0 <= i < |items| ensures Denotes(nodes', lo', hi', nodes[v.id].values[i], items[i]) {
        DenotesStays(nodes, lo, hi, nodes', lo', hi', nodes[v.id].values[i], items[i]);
      }
  }

  // ---------------------------------------------------------------- headers that agree

  /** The header at position `i`, if there is one, gets the kind of container its own children need,
      although the parser looks at the first line with the same text. */
  ghost predicate HeaderOk(lines: seq<string>, i: nat)
    requires i < |lines|
  {
    IsHeader(lines[i]) ==> NextContainer(lines, lines[i]) == NextKind(lines, i + 1)
  }

  ghost predicate HeadersOk(lines: seq<string>, a: nat, b: nat)
    requires a <= b <= |lines|
  {
    forall i :: a <= i < b ==> HeaderOk(lines, i)
  }

  /** Identical header lines always head the same kind of container. */
  ghost predicate HeadersAgree(lines: seq<string>) {
    forall i, j :: 0 <= i < |lines| && 0 <= j < |lines| && lines[i] == lines[j] && IsHeader(lines[i]) ==>
      NextKind(lines, i + 1) == NextKind(lines, j + 1)
  }

  lemma HeadersAgreeExactly(lines: seq<string>)
    ensures HeadersAgree(lines) <==> HeadersOk(lines, 0, |lines|)
  {
    if HeadersOk(lines, 0, |lines|) {
      forall i, j | 0 <= i < |lines| && 0 <= j < |lines| && lines[i] == lines[j] && IsHeader(lines[i])
        ensures NextKind(lines, i + 1) == NextKind(lines, j + 1)
      {
        assert HeaderOk(lines, i) && HeaderOk(lines, j);
      }
    }
    if HeadersAgree(lines) {
      forall i | 0 <= i < |lines| ensures HeaderOk(lines, i) {
        var first := FirstIndex(lines, lines[i]);
      }
    }
  }

  // ---------------------------------------------------------------- runs and stacks

  lemma {:induction false} RunSplit(lines: seq<string>, m: Machine, i: nat, j: nat, k: nat)
    requires i <= j <= k <= |lines|
    ensures Run(lines, m, i, j).Raise? ==> Run(lines, m, i, k).Raise?
    ensures Run(lines, m, i, j).Ok? ==> Run(lines, m, i, k) == Run(lines, Run(lines, m, i, j).value, j, k)
    decreases j - i
  {
    if i < j {
      var next := Step(lines, m, lines[i]);
      if next.Ok? { RunSplit(lines, next.value, i + 1, j, k); }
    }
  }

  lemma {:induction false} PopsCompose(stack: Stack, near: int, far: int)
    requires far <= near
    ensures PopTo(PopTo(stack, near), far) == PopTo(stack, far)
    decreases |stack|
  {
    if stack != [] && near <= stack[|stack| - 1].0 { PopsCompose(stack[..|stack| - 1], near, far); }
  }

  lemma PopPushed(stack: Stack, indent: int, id: nat, to: int)
    ensures to > indent ==> PopTo(stack + [(indent, id)], to) == stack + [(indent, id)]
    ensures to <= indent ==> PopTo(stack + [(indent, id)], to) == PopTo(stack, to)
  {
    assert (stack + [(indent, id)])[..|stack|] == stack;
  }

  /** The printed lines stand at position `off`. */
  ghost predicate StandsAt(lines: seq<string>, off: nat, printed: seq<string>) {
    off + |printed| <= |lines| && lines[off..off + |printed|] == printed
  }

  lemma StandsSplit(lines: seq<string>, off: nat, first: seq<string>, rest: seq<string>)
    requires StandsAt(lines, off, first + rest)
    ensures StandsAt(lines, off, first) && StandsAt(lines, off + |first|, rest)
  {
    var both := lines[off..off + |first| + |rest|];
    assert lines[off..off + |first|] == both[..|first|];
    assert lines[off + |first|..off + |first| + |rest|] == both[|first|..];
  }

  lemma StandsHead(lines: seq<string>, off: nat, raw: string, rest: seq<string>)
    requires StandsAt(lines, off, [raw] + rest)
    ensures lines[off] == raw && raw in lines && StandsAt(lines, off + 1, rest)
  {
    StandsSplit(lines, off, [raw], rest);
    assert lines[off] == lines[off..off + 1][0];
  }

  // ---------------------------------------------------------------- what reading a printed block achieves

  /** From `m` to `n`, dict node `id` has gained exactly `fields`, in new nodes, and nothing else. */
  ghost predicate GainedFields(m: Machine, n: Machine, id: nat, fields: seq<(string, Doc)>) {
    && id < |m.nodes| <= |n.nodes|
    && (forall k :: 0 <= k < |m.nodes| && k != id ==> n.nodes[k] == m.nodes[k])
    && m.nodes[id].Dict? && n.nodes[id].Dict?
    && var old_, new_ := m.nodes[id].entries, n.nodes[id].entries;
    && |new_| == |old_| + |fields|
    && (forall i :: 0 <= i < |old_| ==> new_[i] == old_[i])
    && forall i :: 0 <= i < |fields| ==>
         new_[|old_| + i].0 == fields[i].0 && Denotes(n.nodes, |m.nodes|, |n.nodes|, new_[|old_| + i].1, fields[i].1)
  }

  ghost predicate GainedItems(m: Machine, n: Machine, id: nat, items: seq<Doc>) {
    && id < |m.nodes| <= |n.nodes|
    && (forall k :: 0 <= k < |m.nodes| && k != id ==> n.nodes[k] == m.nodes[k])
    && m.nodes[id].Items? && n.nodes[id].Items?
    && var old_, new_ := m.nodes[id].values, n.nodes[id].values;
    && |new_| == |old_| + |items|
    && (forall i :: 0 <= i < |old_| ==> new_[i] == old_[i])
    && forall i :: 0 <= i < |items| ==> Denotes(n.nodes, |m.nodes|, |n.nodes|, new_[|old_| + i], items[i])
  }

  /** The containers open at `indent` are the same before and after. */
  ghost predicate SameOpen(m: Machine, n: Machine, indent: int) {
    PopTo(n.stack, indent) == PopTo(m.stack, indent)
  }

  lemma SameOpenFurther(m: Machine, n: Machine, near: int, far: int)
    requires SameOpen(m, n, near) && far <= near
    ensures SameOpen(m, n, far)
  {
    PopsCompose(m.stack, near, far);
    PopsCompose(n.stack, near, far);
  }

  /** Reading a block either fills the node as intended, when the headers inside are in order, or raises. */
  ghost predicate ReadsFields(lines: seq<string>, off: nat, end: nat, m: Machine, indent: int, id: nat, fields: seq<(string, Doc)>)
    requires off <= end <= |lines|
  {
    var r := Run(lines, m, off, end);
    if HeadersOk(lines, off, end) then r.Ok? && GainedFields(m, r.value, id, fields) && SameOpen(m, r.value, indent)
    else r.Raise?
  }

  ghost predicate ReadsItems(lines: seq<string>, off: nat, end: nat, m: Machine, indent: int, id: nat, items: seq<Doc>)
    requires off <= end <= |lines|
  {
    var r := Run(lines, m, off, end);
    if HeadersOk(lines, off, end) then r.Ok? && GainedItems(m, r.value, id, items) && SameOpen(m, r.value, indent)
    else r.Raise?
  }

  ghost predicate EmptyFor(c: Container, d: Doc) {
    match d
    case Leaf(_) => false
    case Map(_) => c == Dict([])
    case List(_) => c == Items([])
  }

  /** Reading the children of container `id` makes it denote `d`. */
  ghost predicate ReadsChildren(lines: seq<string>, off: nat, end: nat, m: Machine, indent: int, id: nat, d: Doc)
    requires off <= end <= |lines|
  {
    var r := Run(lines, m, off, end);
    if HeadersOk(lines, off, end) then
      && r.Ok? && id < |m.nodes| <= |r.value.nodes|
      && (forall k :: 0 <= k < |m.nodes| && k != id ==> r.value.nodes[k] == m.nodes[k])
      && Denotes(r.value.nodes, id, |r.value.nodes|, Ref(id), d)
      && SameOpen(m, r.value, indent)
    else r.Raise?
  }

  // ---------------------------------------------------------------- putting blocks together

  lemma GainTwice(m: Machine, n: Machine, p: Machine, id: nat, first: seq<(string, Doc)>, rest: seq<(string, Doc)>)
    requires GainedFields(m, n, id, first) && GainedFields(n, p, id, rest)
    ensures GainedFields(m, p, id, first + rest)
  {
    var e0, e1, e2 := m.nodes[id].entries, n.nodes[id].entries, p.nodes[id].entries;
    var both := first + rest;
    forall i | 0 <= i < |both|
      ensures e2[|e0| + i].0 == both[i].0 && Denotes(p.nodes, |m.nodes|, |p.nodes|, e2[|e0| + i].1, both[i].1)
    {
      if i < |first| {
        assert e2[|e0| + i] == e1[|e0| + i];
        DenotesStays(n.nodes, |m.nodes|, |n.nodes|, p.nodes, |m.nodes|, |p.nodes|, e1[|e0| + i].1, first[i].1);
      } else {
        var j := i - |first|;
        assert e2[|e1| + j] == e2[|e0| + i] && both[i] == rest[j];
        DenotesStays(p.nodes, |n.nodes|, |p.nodes|, p.nodes, |m.nodes|, |p.nodes|, e2[|e1| + j].1, rest[j].1);
      }
    }
  }

  lemma GainItemsTwice(m: Machine, n: Machine, p: Machine, id: nat, first: seq<Doc>, rest: seq<Doc>)
    requires GainedItems(m, n, id, first) && GainedItems(n, p, id, rest)
    ensures GainedItems(m, p, id, first + rest)
  {
    var e0, e1, e2 := m.nodes[id].values, n.nodes[id].values, p.nodes[id].values;
    var both := first + rest;
    forall i | 0 <= i < |both| ensures Denotes(p.nodes, |m.nodes|, |p.nodes|, e2[|e0| + i], both[i]) {
      if i < |first| {
        assert e2[|e0| + i] == e1[|e0| + i];
        DenotesStays(n.nodes, |m.nodes|, |n.nodes|, p.nodes, |m.nodes|, |p.nodes|, e1[|e0| + i], first[i]);
      } else {
        var j := i - |first|;
        assert e2[|e1| + j] == e2[|e0| + i] && both[i] == rest[j];
        DenotesStays(p.nodes, |n.nodes|, |p.nodes|, p.nodes, |m.nodes|, |p.nodes|, e2[|e1| + j], rest[j]);
      }
    }
  }

  /** A filled fresh dict denotes the map of its fields. */
  lemma FilledDict(m: Machine, n: Machine, id: nat, fields: seq<(string, Doc)>)
    requires GainedFields(m, n, id, fields) && m.nodes[id] == Dict([])
    ensures Denotes(n.nodes, id, |n.nodes|, Ref(id), Map(fields))
  {
    var entries := n.nodes[id].entries;
    assert |entries| == |fields| && n.nodes[id].Dict?;
    forall i | 0 <= i < |fields|
      ensures entries[i].0 == fields[i].0 && Denotes(n.nodes, id, |n.nodes|, entries[i].1, fields[i].1)
    {
      assert entries[|m.nodes[id].entries| + i] == entries[i];
      DenotesStays(n.nodes, |m.nodes|, |n.nodes|, n.nodes, id, |n.nodes|, entries[i].1, fields[i].1);
    }
  }

  lemma FilledList(m: Machine, n: Machine, id: nat, items: seq<Doc>)
    requires GainedItems(m, n, id, items) && m.nodes[id] == Items([])
    ensures Denotes(n.nodes, id, |n.nodes|, Ref(id), List(items))
  {
    forall i | 0 <= i < |items| ensures Denotes(n.nodes, id, |n.nodes|, n.nodes[id].values[i], items[i]) {
      DenotesStays(n.nodes, |m.nodes|, |n.nodes|, n.nodes, id, |n.nodes|, n.nodes[id].values[i], items[i]);
    }
  }

  /** Two blocks one after the other. */
  lemma ReadsFieldsThen(lines: seq<string>, a: nat, b: nat, c: nat, m: Machine, indent: int, id: nat,
                        first: seq<(string, Doc)>, rest: seq<(string, Doc)>)
    requires a <= b <= c <= |lines|
    requires ReadsFields(lines, a, b, m, indent, id, first)
    requires Run(lines, m, a, b).Ok? ==> ReadsFields(lines, b, c, Run(lines, m, a, b).value, indent, id, rest)
    ensures ReadsFields(lines, a, c, m, indent, id, first + rest)
  {
    RunSplit(lines, m, a, b, c);
    assert HeadersOk(lines, a, c) <==> HeadersOk(lines, a, b) && HeadersOk(lines, b, c);
    if HeadersOk(lines, a, c) {
      GainTwice(m, Run(lines, m, a, b).value, Run(lines, m, a, c).value, id, first, rest);
    }
  }

  lemma ReadsItemsThen(lines: seq<string>, a: nat, b: nat, c: nat, m: Machine, indent: int, id: nat,
                       first: seq<Doc>, rest: seq<Doc>)
    requires a <= b <= c <= |lines|
    requires ReadsItems(lines, a, b, m, indent, id, first)
    requires Run(lines, m, a, b).Ok? ==> ReadsItems(lines, b, c, Run(lines, m, a, b).value, indent, id, rest)
    ensures ReadsItems(lines, a, c, m, indent, id, first + rest)
  {
    RunSplit(lines, m, a, b, c);
    assert HeadersOk(lines, a, c) <==> HeadersOk(lines, a, b) && HeadersOk(lines, b, c);
    if HeadersOk(lines, a, c) {
      GainItemsTwice(m, Run(lines, m, a, b).value, Run(lines, m, a, c).value, id, first, rest);
    }
  }
}
