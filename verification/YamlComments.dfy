/** What the registry parser does with lines the canonical printer never writes. */
module YamlComments {
  import opened Basics
  import opened YamlLines
  import opened SimpleYaml
  import opened YamlPrinter
  import opened YamlRoundTrip
  import opened YamlInverse

  // ---------------------------------------------------------------- comments and blank lines

  /** Nothing but white space, or white space and then a number sign. */
  ghost predicate BlankOrComment(c: string) {
    || (forall i :: 0 <= i < |c| ==> IsSpace(c[i]))
    || exists p :: 0 <= p < |c| && c[p] == '#' && forall i :: 0 <= i < p ==> IsSpace(c[i])
  }

  /** The first visible character is left standing, and is the last thing to be stripped from the right. */
  lemma {:induction false} StripLeftStops(c: string, p: nat)
    requires p <= |c| && (forall i :: 0 <= i < p ==> IsSpace(c[i])) && (p < |c| ==> !IsSpace(c[p]))
    ensures StripLeft(c) == c[p..]
  {
    if p > 0 {
      StripLeftStops(c[1..], p - 1);
      assert c[1..][p - 1..] == c[p..];
    }
  }

  lemma StrippedBlank(c: string)
    requires BlankOrComment(c)
    ensures !IsContent(c)
  {
    if forall i :: 0 <= i < |c| ==> IsSpace(c[i]) {
      StripLeftStops(c, |c|);
    } else {
      var p :| 0 <= p < |c| && c[p] == '#' && forall i :: 0 <= i < p ==> IsSpace(c[i]);
      StripLeftStops(c, p);
    }
  }

  /** And every other line counts. */
  lemma {:induction false} OtherLinesCount(c: string)
    requires !IsContent(c)
    ensures BlankOrComment(c)
  {
    VisibleFrom(c);
    var p := |c| - |StripLeft(c)|;
    assert p < |c| ==> c[p] == StripLeft(c)[0];
    if StripLeft(c) != "" && StripLeft(c)[0] != '#' { StripRightKeeps(StripLeft(c)); }
  }

  lemma {:induction false} VisibleFrom(c: string)
    ensures |StripLeft(c)| <= |c| && StripLeft(c) == c[|c| - |StripLeft(c)|..]
    ensures forall i :: 0 <= i < |c| - |StripLeft(c)| ==> IsSpace(c[i])
    ensures StripLeft(c) != "" ==> !IsSpace(StripLeft(c)[0])
  {
    if c != "" && IsSpace(c[0]) { VisibleFrom(c[1..]); }
  }

  lemma {:induction false} StripRightKeeps(s: string)
    requires s != "" && !IsSpace(s[0])
    ensures StripRight(s) != ""
  {
    if IsSpace(s[|s| - 1]) { StripRightKeeps(s[..|s| - 1]); }
  }

  /** What a header heads: the first visible line after it is a list item or not; with nothing visible after it
      the container is an empty dict. */
  lemma {:induction false} KindExactly(lines: seq<string>, i: nat, j: nat)
    requires i <= j <= |lines| && (forall k :: i <= k < j ==> BlankOrComment(lines[k]))
    requires j < |lines| ==> !BlankOrComment(lines[j])
    ensures NextKind(lines, i) ==
            if j < |lines| && |Strip(lines[j])| >= 2 && Strip(lines[j])[..2] == "- " then Items([]) else Dict([])
    decreases j - i
  {
    hide Strip, IsContent, BlankOrComment;
    if i < j {
      StrippedBlank(lines[i]);
      KindExactly(lines, i + 1, j);
    } else if j < |lines| && !IsContent(lines[j]) {
      OtherLinesCount(lines[j]);
    }
  }

  function With(lines: seq<string>, k: nat, c: string): seq<string>
    requires k <= |lines|
  {
    lines[..k] + [c] + lines[k..]
  }

  lemma {:induction false} KindWith(lines: seq<string>, k: nat, c: string, i: nat)
    requires k <= |lines| && i <= |lines| && !IsContent(c)
    ensures NextKind(With(lines, k, c), if i <= k then i else i + 1) == NextKind(lines, i)
    decreases |lines| - i
  {
    var more := With(lines, k, c);
    if i > k {
      if i < |lines| {
        assert more[i + 1] == lines[i];
        KindWith(lines, k, c, i + 1);
      }
    } else {
      if i < k {
        assert more[i] == lines[i];
      } else {
        assert more[k] == c;
        if k < |lines| { assert more[k + 1] == lines[k]; }
      }
      if i < |lines| { KindWith(lines, k, c, i + 1); }
    }
  }

  lemma {:induction false} FirstIndexWith(lines: seq<string>, k: nat, c: string, raw: string)
    requires k <= |lines| && raw in lines && raw != c
    ensures raw in With(lines, k, c)
    ensures var i := FirstIndex(lines, raw); FirstIndex(With(lines, k, c), raw) == if i < k then i else i + 1
  {
    var more := With(lines, k, c);
    assert forall i :: 0 <= i < |lines| ==> lines[i] == more[if i < k then i else i + 1];
    if k == 0 {
      assert more[1..] == lines;
    } else {
      assert more[0] == lines[0];
      if lines[0] != raw {
        FirstIndexWith(lines[1..], k - 1, c, raw);
        assert more[1..] == With(lines[1..], k - 1, c);
      }
    }
  }

  lemma ContainerWith(lines: seq<string>, k: nat, c: string, raw: string)
    requires k <= |lines| && raw in lines && !IsContent(c) && IsContent(raw)
    ensures raw in With(lines, k, c) && NextContainer(With(lines, k, c), raw) == NextContainer(lines, raw)
  {
    FirstIndexWith(lines, k, c, raw);
    KindWith(lines, k, c, FirstIndex(lines, raw) + 1);
  }

  lemma StepWith(lines: seq<string>, k: nat, c: string, m: Machine, raw: string)
    requires k <= |lines| && raw in lines && !IsContent(c)
    ensures raw in With(lines, k, c) && Step(With(lines, k, c), m, raw) == Step(lines, m, raw)
  {
    assert forall i :: 0 <= i < |lines| ==> lines[i] == With(lines, k, c)[if i < k then i else i + 1];
    if IsContent(raw) { ContainerWith(lines, k, c, raw); }
  }

  lemma {:induction false} RunWith(lines: seq<string>, k: nat, c: string, m: Machine, i: nat)
    requires i <= |lines| && k <= |lines| && !IsContent(c)
    ensures var more := With(lines, k, c); Run(more, m, if i <= k then i else i + 1, |more|) == Run(lines, m, i, |lines|)
    decreases |lines| - i
  {
    hide Step, IsContent;
    var more := With(lines, k, c);
    if i < |lines| {
      StepWith(lines, k, c, m, lines[i]);
      if Step(lines, m, lines[i]).Ok? { RunWith(lines, k, c, Step(lines, m, lines[i]).value, i + 1); }
    }
    if i == k { SkipsIt(more, m, k); }
    if i == k && i < |lines| {
      RunOn(more, m, k + 1);
      assert more[k + 1] == lines[k];
    }
    if i < k { RunOn(more, m, i); assert more[i] == lines[i]; }
    if i > k && i < |lines| { RunOn(more, m, i + 1); assert more[i + 1] == lines[i]; }
  }

  lemma SkipsIt(lines: seq<string>, m: Machine, k: nat)
    requires k < |lines| && !IsContent(lines[k])
    ensures Run(lines, m, k, |lines|) == Run(lines, m, k + 1, |lines|)
  {}

  lemma RunOn(lines: seq<string>, m: Machine, i: nat)
    requires i < |lines|
    ensures var next := Step(lines, m, lines[i]);
            Run(lines, m, i, |lines|) == if next.Raise? then next else Run(lines, next.value, i + 1, |lines|)
  {}

  /** A blank line or a comment may be put anywhere: the parse does not change, error or not. */
  lemma CommentsAreFree(lines: seq<string>, k: nat, c: string)
    requires k <= |lines| && BlankOrComment(c)
    ensures ParseLines(lines[..k] + [c] + lines[k..]) == ParseLines(lines)
  {
    StrippedBlank(c);
    RunWith(lines, k, c, START, 0);
  }

  /** The lines that are neither blank nor comments. */
  ghost function Uncommented(lines: seq<string>): seq<string> {
    if lines == [] then []
    else Uncommented(lines[..|lines| - 1]) + if BlankOrComment(lines[|lines| - 1]) then [] else [lines[|lines| - 1]]
  }

  lemma {:induction false} UncommentedParsesAlike(lines: seq<string>, rest: seq<string>)
    ensures ParseLines(lines + rest) == ParseLines(Uncommented(lines) + rest)
  {
    hide BlankOrComment, ParseLines;
    if lines == [] {
      assert lines + rest == Uncommented(lines) + rest;
    } else {
      var init, last := lines[..|lines| - 1], lines[|lines| - 1];
      if BlankOrComment(last) {
        CommentsAreFree(init + rest, |init|, last);
        assert (init + rest)[..|init|] + [last] + (init + rest)[|init|..] == lines + rest;
        UncommentedParsesAlike(init, rest);
        assert Uncommented(lines) == Uncommented(init);
      } else {
        UncommentedParsesAlike(init, [last] + rest);
        assert init + ([last] + rest) == lines + rest;
        assert Uncommented(init) + ([last] + rest) == Uncommented(lines) + rest;
      }
    }
  }

  /** The round trip holds for every commented printing: whatever blank lines and comments stand between the
      printed lines, the document is read back exactly when equal header lines head the same kind. */
  lemma CommentedRoundTrip(fields: seq<(string, Doc)>, lines: seq<string>)
    requires Printable(Map(fields)) && Uncommented(lines) == PrintFields(fields, 0)
    requires forall i :: 0 <= i < |lines| ==> NoLineBreak(lines[i])
    ensures ParsesTo(JoinLines(lines), Map(fields)) <==> HeadersAgree(PrintFields(fields, 0))
    ensures ParseLines(SplitLines(JoinLines(lines))).Ok? <==> HeadersAgree(PrintFields(fields, 0))
  {
    hide BlankOrComment, ParseLines, SplitLines, JoinLines, PrintFields, HeadersAgree, Printable, NoLineBreak, Uncommented;
    SplitJoined(lines);
    UncommentedParsesAlike(lines, []);
    assert lines + [] == lines && Uncommented(lines) + [] == Uncommented(lines);
    PrintedSplits(fields);
    RoundTrip(fields);
  }

  lemma PrintedSplits(fields: seq<(string, Doc)>)
    requires Printable(Map(fields))
    ensures SplitLines(Print(fields)) == PrintFields(fields, 0)
  {
    hide PrintFields;
    MapPrintable(Map(fields));
    FieldsUnbroken(fields, 0);
    SplitJoined(PrintFields(fields, 0));
  }

  // ---------------------------------------------------------------- white space at the end of a line

  lemma {:induction false} StripRightIsPrefix(s: string)
    ensures |StripRight(s)| <= |s| && StripRight(s) == s[..|StripRight(s)|]
  {
    if s != "" && IsSpace(s[|s| - 1]) { StripRightIsPrefix(s[..|s| - 1]); }
  }

  lemma ContentByText(raw: string)
    ensures IsContent(raw) <==> Strip(raw) != "" && Strip(raw)[0] != '#'
  {
    StripRightIsPrefix(StripLeft(raw));
  }

  /** The same line to a reader: as deep, with the same text. */
  predicate LooksLike(a: string, b: string) { Indent(a) == Indent(b) && Strip(a) == Strip(b) }

  lemma {:induction false} KindOfLookalike(lines: seq<string>, k: nat, raw: string, i: nat)
    requires k < |lines| && i <= |lines| && LooksLike(raw, lines[k])
    ensures NextKind(lines[k := raw], i) == NextKind(lines, i)
    decreases |lines| - i
  {
    hide Strip, Indent, IsContent;
    ContentByText(raw);
    ContentByText(lines[k]);
    if i < |lines| { KindOfLookalike(lines, k, raw, i + 1); }
  }

  lemma {:induction false} IndexOfLookalike(lines: seq<string>, k: nat, raw: string, header: string)
    requires k < |lines| && header in lines && header != lines[k] && header != raw
    ensures header in lines[k := raw] && FirstIndex(lines[k := raw], header) == FirstIndex(lines, header)
  {
    var more := lines[k := raw];
    var j :| 0 <= j < |lines| && lines[j] == header;
    assert more[j] == header;
    if k > 0 && lines[0] != header {
      IndexOfLookalike(lines[1..], k - 1, raw, header);
      assert more[1..] == lines[1..][k - 1 := raw];
    }
    if k == 0 { assert more[1..] == lines[1..]; }
  }

  lemma HeaderOfLookalike(lines: seq<string>, k: nat, raw: string, header: string)
    requires k < |lines| && LooksLike(raw, lines[k]) && !IsHeader(lines[k]) && header in lines && IsHeader(header)
    ensures header in lines[k := raw] && NextContainer(lines[k := raw], header) == NextContainer(lines, header)
  {
    ContentByText(raw);
    ContentByText(lines[k]);
    hide Strip, Indent, IsContent, SplitKeyValue;
    assert header != raw && header != lines[k];
    IndexOfLookalike(lines, k, raw, header);
    KindOfLookalike(lines, k, raw, FirstIndex(lines, header) + 1);
  }

  /** A line acts through its depth, its text and, as a header, the kind it is looked up to head. */
  lemma PutByText(lines: seq<string>, a: string, more: seq<string>, b: string, m: Machine, id: nat, text: string, headerIndent: int)
    requires a in lines && b in more
    requires SplitKeyValue(text).Ok? && SplitKeyValue(text).value.1 == "" ==> NextContainer(lines, a) == NextContainer(more, b)
    ensures PutKeyValue(lines, a, m, id, text, headerIndent) == PutKeyValue(more, b, m, id, text, headerIndent)
  {
    hide SetEntry, SplitKeyValue, NextContainer, ParseScalar;
  }

  lemma StepByText(lines: seq<string>, a: string, more: seq<string>, b: string, m: Machine)
    requires a in lines && b in more && LooksLike(a, b)
    requires IsHeader(a) ==> NextContainer(lines, a) == NextContainer(more, b)
    ensures Step(lines, m, a) == Step(more, m, b)
  {
    ContentByText(a);
    ContentByText(b);
    hide Strip, Indent, IsContent, SplitKeyValue, PopTo, SetEntry, NextContainer, ParseScalar, PutKeyValue;
    var text := Strip(a);
    var body := if IsDashed(text) then text[2..] else text;
    forall n: Machine, id: nat, headerIndent: int | IsContent(a)
      ensures PutKeyValue(lines, a, n, id, body, headerIndent) == PutKeyValue(more, b, n, id, body, headerIndent)
    {
      PutByText(lines, a, more, b, n, id, body, headerIndent);
    }
  }

  lemma StepOfLookalike(lines: seq<string>, k: nat, raw: string, m: Machine, i: nat)
    requires k < |lines| && i < |lines| && LooksLike(raw, lines[k]) && !IsHeader(lines[k])
    ensures Step(lines[k := raw], m, lines[k := raw][i]) == Step(lines, m, lines[i])
  {
    hide Step, IsHeader, NextContainer;
    if IsHeader(lines[i]) { HeaderOfLookalike(lines, k, raw, lines[i]); }
    StepByText(lines, lines[i], lines[k := raw], lines[k := raw][i], m);
  }

  lemma {:induction false} RunOfLookalike(lines: seq<string>, k: nat, raw: string, m: Machine, i: nat)
    requires k < |lines| && i <= |lines| && LooksLike(raw, lines[k]) && !IsHeader(lines[k])
    ensures Run(lines[k := raw], m, i, |lines|) == Run(lines, m, i, |lines|)
    decreases |lines| - i
  {
    hide Step, LooksLike, IsHeader;
    if i < |lines| {
      StepOfLookalike(lines, k, raw, m, i);
      var next := Step(lines, m, lines[i]);
      if next.Ok? { RunOfLookalike(lines, k, raw, next.value, i + 1); }
      RunOn(lines[k := raw], m, i);
      RunOn(lines, m, i);
    }
  }

  /** White space at the end of a line that is no header changes nothing. (At the end of a header it does:
      the line no longer equals the other headers with the same text.) */
  lemma TrailingSpaceIsFree(lines: seq<string>, k: nat, raw: string)
    requires k < |lines| && LooksLike(raw, lines[k]) && !IsHeader(lines[k])
    ensures ParseLines(lines[k := raw]) == ParseLines(lines)
  {
    RunOfLookalike(lines, k, raw, START, 0);
  }

  // ---------------------------------------------------------------- lines outside the subset

  lemma {:induction false} RunRaises(lines: seq<string>, m: Machine, i: nat, k: nat)
    requires i <= k < |lines| && forall n :: Step(lines, n, lines[k]).Raise?
    ensures Run(lines, m, i, |lines|).Raise?
    decreases k - i
  {
    hide Step;
    RunOn(lines, m, i);
    if i < k && Step(lines, m, lines[i]).Ok? { RunRaises(lines, Step(lines, m, lines[i]).value, i + 1, k); }
  }

  /** A visible line that is neither a comment nor a list item and has no colon stops every parse. */
  lemma ColonIsNeeded(lines: seq<string>, k: nat)
    requires k < |lines| && ':' !in lines[k] && !BlankOrComment(lines[k]) && !IsDashed(Strip(lines[k]))
    ensures ParseLines(lines).Raise?
  {
    var raw := lines[k];
    if !IsContent(raw) { OtherLinesCount(raw); }
    VisibleFrom(raw);
    StripRightIsPrefix(StripLeft(raw));
    assert forall c :: c in Strip(raw) ==> c in raw;
    FindColonBounds(Strip(raw));
    forall n ensures Step(lines, n, raw).Raise? {}
    RunRaises(lines, START, 0, k);
  }

  // ---------------------------------------------------------------- dicts are dicts

  function EntryOf(entries: seq<(string, Value)>, key: string): Option<Value> {
    if entries == [] then None else if entries[0].0 == key then Some(entries[0].1) else EntryOf(entries[1..], key)
  }

  function KeysOf(entries: seq<(string, Value)>): seq<string> { seq(|entries|, i requires 0 <= i < |entries| => entries[i].0) }

  /** Assigning to a key makes it have the value and leaves every other key alone. */
  lemma {:induction false} SetEntryAssigns(entries: seq<(string, Value)>, key: string, value: Value, other: string)
    ensures EntryOf(SetEntry(entries, key, value), other) == if other == key then Some(value) else EntryOf(entries, other)
  {
    if entries != [] && entries[0].0 != key {
      SetEntryAssigns(entries[1..], key, value, other);
      var after := SetEntry(entries[1..], key, value);
      assert ([entries[0]] + after)[1..] == after;
    } else if entries != [] {
      assert ([(key, value)] + entries[1..])[1..] == entries[1..];
    }
  }

  /** And keeps the order in which the keys were first inserted. */
  lemma {:induction false} SetEntryKeepsOrder(entries: seq<(string, Value)>, key: string, value: Value)
    ensures KeysOf(SetEntry(entries, key, value)) == AppendUnique(KeysOf(entries), key)
  {
    hide SetEntry;
    if entries == [] {
      FirstKey([], key, value);
    } else {
      FirstKey(entries, key, value);
      assert KeysOf(entries) == [entries[0].0] + KeysOf(entries[1..]);
      if entries[0].0 != key { SetEntryKeepsOrder(entries[1..], key, value); }
    }
  }

  lemma FirstKey(entries: seq<(string, Value)>, key: string, value: Value)
    ensures entries == [] ==> KeysOf(SetEntry(entries, key, value)) == [key]
    ensures entries != [] ==>
              KeysOf(SetEntry(entries, key, value)) ==
              if entries[0].0 == key then KeysOf(entries) else [entries[0].0] + KeysOf(SetEntry(entries[1..], key, value))
  {}

  ghost predicate KeysOnce(nodes: seq<Container>) {
    forall i :: 0 <= i < |nodes| && nodes[i].Dict? ==> Distinct(KeysOf(nodes[i].entries))
  }

  lemma SetEntryOnce(entries: seq<(string, Value)>, key: string, value: Value)
    requires Distinct(KeysOf(entries))
    ensures Distinct(KeysOf(SetEntry(entries, key, value)))
  {
    SetEntryKeepsOrder(entries, key, value);
  }

  lemma PutKeepsKeysOnce(lines: seq<string>, raw: string, m: Machine, id: nat, text: string, headerIndent: int)
    requires raw in lines && KeysOnce(m.nodes) && PutKeyValue(lines, raw, m, id, text, headerIndent).Ok?
    ensures KeysOnce(PutKeyValue(lines, raw, m, id, text, headerIndent).value.nodes)
  {
    hide SetEntry, SplitKeyValue, NextContainer, ParseScalar, Distinct;
    NothingOnce();
    NextContainerIsEmpty(lines, raw);
    var (key, value) := SplitKeyValue(text).value;
    SetEntryOnce(m.nodes[id].entries, key, if value == "" then Ref(|m.nodes|) else Plain(ParseScalar(value)));
  }

  lemma StepKeepsKeysOnce(lines: seq<string>, m: Machine, raw: string)
    requires raw in lines && KeysOnce(m.nodes) && Step(lines, m, raw).Ok?
    ensures KeysOnce(Step(lines, m, raw).value.nodes)
  {
    hide Strip, Indent, IsContent, PopTo, ParseScalar, Distinct, PutKeyValue;
    NothingOnce();
    var indent, text, stack := Indent(raw), Strip(raw), PopTo(m.stack, Indent(raw));
    if IsContent(raw) && !IsDashed(text) {
      PutKeepsKeysOnce(lines, raw, m.(stack := stack), stack[|stack| - 1].1, text, indent);
    } else if IsContent(raw) && ':' in text[2..] {
      var parent, item := stack[|stack| - 1].1, |m.nodes|;
      var nodes := m.nodes[parent := Items(m.nodes[parent].values + [Ref(item)])] + [Dict([])];
      PutKeepsKeysOnce(lines, raw, Machine(nodes, stack + [(indent, item)]), item, text[2..], indent + 2);
    }
  }

  lemma NothingOnce()
    ensures Distinct(KeysOf([]))
  {}

  lemma NextContainerIsEmpty(lines: seq<string>, raw: string)
    requires raw in lines
    ensures NextContainer(lines, raw) == Dict([]) || NextContainer(lines, raw) == Items([])
  {
    KindIsEmpty(lines, FirstIndex(lines, raw) + 1);
  }

  lemma {:induction false} KindIsEmpty(lines: seq<string>, i: nat)
    requires i <= |lines|
    ensures NextKind(lines, i) == Dict([]) || NextKind(lines, i) == Items([])
    decreases |lines| - i
  {
    if i < |lines| { KindIsEmpty(lines, i + 1); }
  }

  lemma {:induction false} RunKeepsKeysOnce(lines: seq<string>, m: Machine, i: nat, j: nat)
    requires i <= j <= |lines| && KeysOnce(m.nodes) && Run(lines, m, i, j).Ok?
    ensures KeysOnce(Run(lines, m, i, j).value.nodes)
    decreases j - i
  {
    hide Step, KeysOnce;
    if i < j {
      StepKeepsKeysOnce(lines, m, lines[i]);
      RunKeepsKeysOnce(lines, Step(lines, m, lines[i]).value, i + 1, j);
    }
  }

  /** Whatever text is parsed, no dict of the result has a key twice. */
  lemma NoKeyTwice(lines: seq<string>)
    requires ParseLines(lines).Ok?
    ensures KeysOnce(ParseLines(lines).value.nodes)
  {
    NothingOnce();
    RunKeepsKeysOnce(lines, START, 0, |lines|);
  }

  /** A `key: value` line sets that key of the innermost open dict, whether or not the dict had it before,
      and leaves every other entry of every container as it was. */
  lemma FieldLineAssigns(lines: seq<string>, m: Machine, raw: string, key: string, value: string, id: nat, other: string)
    requires raw in lines && IsContent(raw) && !IsDashed(Strip(raw)) && value != ""
    requires SplitKeyValue(Strip(raw)) == Ok((key, value))
    requires Opens(m.stack, Indent(raw), id) && id < |m.nodes| && m.nodes[id].Dict?
    ensures Step(lines, m, raw).Ok?
    ensures var after := Step(lines, m, raw).value.nodes;
            && |after| == |m.nodes| && after[id].Dict?
            && EntryOf(after[id].entries, other) ==
               (if other == key then Some(Plain(ParseScalar(value))) else EntryOf(m.nodes[id].entries, other))
            && forall i :: 0 <= i < |after| && i != id ==> after[i] == m.nodes[i]
  {
    hide SetEntry, Strip, Indent, IsContent, SplitKeyValue, PopTo, NextContainer, ParseScalar, EntryOf;
    SetEntryAssigns(m.nodes[id].entries, key, Plain(ParseScalar(value)), other);
  }

  // ---------------------------------------------------------------- what is read off a line and a text

  lemma {:induction false} StrippedRight(s: string)
    ensures forall i :: |StripRight(s)| <= i < |s| ==> IsSpace(s[i])
    ensures StripRight(s) != "" ==> !IsSpace(StripRight(s)[|StripRight(s)| - 1])
  {
    StripRightIsPrefix(s);
    if s != "" && IsSpace(s[|s| - 1]) { StrippedRight(s[..|s| - 1]); }
  }

  /** Stripping takes white space from both ends, all of it and nothing else. */
  lemma StripExactly(s: string)
    ensures Strip(s) == "" || Trimmed(Strip(s))
    ensures exists i, j :: 0 <= i <= j <= |s| && Strip(s) == s[i..j]
                           && (forall k :: 0 <= k < i ==> IsSpace(s[k])) && forall k :: j <= k < |s| ==> IsSpace(s[k])
  {
    VisibleFrom(s);
    var t := StripLeft(s);
    StrippedRight(t);
    StripRightIsPrefix(t);
    var i, j := |s| - |t|, |s| - |t| + |Strip(s)|;
    assert forall k :: i <= k < |s| ==> s[k] == t[k - i];
    assert Strip(s) == s[i..j];
  }

  /** The key is what stands before the first colon, the value what stands after it, both stripped. */
  lemma KeyValueExactly(k: string, v: string)
    requires ':' !in k
    ensures SplitKeyValue(k + ":" + v) == Ok((Strip(k), Strip(v))) && SplitKeyValue(k).Raise?
  {
    FirstColon(k, v);
    FindColonBounds(k);
  }

  /** The line boundaries of `str.splitlines`. */
  const BREAKS := {'\n', '\r', '\U{B}', '\U{C}', '\U{1C}', '\U{1D}', '\U{1E}', '\U{85}', '\U{2028}', '\U{2029}'}

  lemma {:induction false} BreakAfter(line: string, c: char, rest: string)
    requires (forall i :: 0 <= i < |line| ==> line[i] !in BREAKS) && c in BREAKS
    ensures BreakAt(line + [c] + rest) == Some(|line|)
    ensures BreakAt(line).None?
  {
    var text := line + [c] + rest;
    if line != "" {
      assert text[0] == line[0] && text[1..] == line[1..] + [c] + rest;
      BreakAfter(line[1..], c, rest);
    }
  }

  /** A text is split at every line boundary, a carriage return with its line feed being one, and only there. */
  lemma SplitsExactly(line: string, c: char, rest: string)
    requires (forall i :: 0 <= i < |line| ==> line[i] !in BREAKS) && c in BREAKS
    ensures SplitLines(line) == if line == "" then [] else [line]
    ensures SplitLines(line + [c] + rest) == [line] + SplitLines(if c == '\r' && rest != "" && rest[0] == '\n' then rest[1..] else rest)
  {
    var text := line + [c] + rest;
    BreakAfter(line, c, rest);
    assert text[..|line|] == line && text[|line|] == c;
    assert text[|line| + 1..] == rest;
    if rest != "" {
      assert text[|line| + 1] == rest[0];
      assert text[|line| + 2..] == rest[1..];
    }
  }
}
