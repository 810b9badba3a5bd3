/** Lines of the registry's private YAML subset: what the parser reads off one line of text. */
module YamlLines {
  import opened Basics
  import opened Numerals

  // ---------------------------------------------------------------- white space

  /** `str.isspace` for one character. */
  predicate IsSpace(c: char) {
    || '\U{9}' <= c <= '\U{D}' || '\U{1C}' <= c <= ' ' || c == '\U{85}' || c == '\U{A0}' || c == '\U{1680}'
    || '\U{2000}' <= c <= '\U{200A}' || c == '\U{2028}' || c == '\U{2029}' || c == '\U{202F}'
    || c == '\U{205F}' || c == '\U{3000}'
  }

  function StripLeft(s: string): string {
    if s != "" && IsSpace(s[0]) then StripLeft(s[1..]) else s
  }

  function StripRight(s: string): string {
    if s != "" && IsSpace(s[|s| - 1]) then StripRight(s[..|s| - 1]) else s
  }

  function Strip(s: string): string { StripRight(StripLeft(s)) }

  /** The number of leading blanks. */
  function Indent(s: string): nat {
    if s != "" && s[0] == ' ' then 1 + Indent(s[1..]) else 0
  }

  function Spaces(n: nat): string { seq(n, _ => ' ') }

  /** Begins and ends with something visible. */
  predicate Trimmed(s: string) { s != "" && !IsSpace(s[0]) && !IsSpace(s[|s| - 1]) }

  lemma TrimmedIsStripped(s: string)
    requires s == "" || Trimmed(s)
    ensures Strip(s) == s
  {}

  lemma {:induction false} PaddedLine(n: nat, s: string)
    requires Trimmed(s)
    ensures StripLeft(Spaces(n) + s) == s
    ensures Strip(Spaces(n) + s) == s
    ensures Indent(Spaces(n) + s) == n
  {
    if n == 0 {
      assert Spaces(0) + s == s;
    } else {
      assert (Spaces(n) + s)[1..] == Spaces(n - 1) + s;
      PaddedLine(n - 1, s);
    }
  }

  lemma StripOneBlank(s: string)
    requires s == "" || Trimmed(s)
    ensures Strip(" " + s) == s
  {
    var padded := " " + s;
    assert padded[0] == ' ' && padded[1..] == s;
    assert StripLeft(padded) == StripLeft(s) == s;
  }

  // ---------------------------------------------------------------- keys, values, scalars

  datatype Scalar = Flag(b: bool) | Number(n: nat) | Text(s: string)

  function FindColon(text: string): Option<nat> {
    if text == "" then None
    else if text[0] == ':' then Some(0)
    else
      var rest := FindColon(text[1..]);
      if rest.None? then None else Some(rest.value + 1)
  }

  lemma {:induction false} FindColonBounds(text: string)
    ensures FindColon(text).Some? ==> FindColon(text).value < |text| && text[FindColon(text).value] == ':'
    ensures FindColon(text).None? <==> ':' !in text
  {
    if text != "" && text[0] != ':' { FindColonBounds(text[1..]); }
  }

  lemma {:induction false} FirstColon(key: string, rest: string)
    requires ':' !in key
    ensures FindColon(key + ":" + rest) == Some(|key|)
    ensures (key + ":" + rest)[..|key|] == key && (key + ":" + rest)[|key| + 1..] == rest
  {
    var text := key + ":" + rest;
    if key != "" {
      assert text[0] == key[0];
      assert text[1..] == key[1..] + ":" + rest;
      FirstColon(key[1..], rest);
    }
  }

  /** `_split_key_value` */
  function SplitKeyValue(text: string): Result<(string, string)> {
    FindColonBounds(text);
    var at := FindColon(text);
    if at.None? then Raise("Expected key/value YAML line")
    else Ok((Strip(text[..at.value]), Strip(text[at.value + 1..])))
  }

  /** `_parse_scalar` */
  function ParseScalar(value: string): Scalar {
    if value == "true" then Flag(true)
    else if value == "false" then Flag(false)
    else if value != "" && AllDigits(value) then Number(DigitsValue(value))
    else Text(value)
  }

  function Show(s: Scalar): string {
    match s
    case Flag(b) => if b then "true" else "false"
    case Number(n) => Decimal(n)
    case Text(t) => t
  }

  /** A scalar that can stand after `key: ` and be read back. */
  predicate PlainValue(s: Scalar) {
    s.Text? ==> Trimmed(s.s) && ParseScalar(s.s) == s && NoLineBreak(s.s)
  }

  /** A scalar that can also stand after `- `. */
  predicate PlainItem(s: Scalar) { PlainValue(s) && (s.Text? ==> ':' !in s.s) }

  predicate PlainKey(key: string) {
    && (key == "" || (Trimmed(key) && key[0] != '#'))
    && ':' !in key && !(|key| >= 2 && key[..2] == "- ") && NoLineBreak(key)
  }

  lemma ShowReadsBack(s: Scalar)
    requires PlainValue(s)
    ensures Trimmed(Show(s)) && ParseScalar(Show(s)) == s && NoLineBreak(Show(s))
    ensures PlainItem(s) ==> ':' !in Show(s)
  {
    if s.Number? {
      DecimalReadsBack(s.n);
      assert Show(s)[0] != 't' && Show(s)[0] != 'f';
    }
  }

  // ---------------------------------------------------------------- lines of a text

  predicate IsLineBreak(c: char) {
    || '\n' <= c <= '\r' || '\U{1C}' <= c <= '\U{1E}' || c == '\U{85}' || c == '\U{2028}' || c == '\U{2029}'
  }

  predicate NoLineBreak(s: string) { forall i | 0 <= i < |s| :: !IsLineBreak(s[i]) }

  function BreakAt(text: string): Option<nat> {
    if text == "" then None
    else if IsLineBreak(text[0]) then Some(0)
    else
      var rest := BreakAt(text[1..]);
      if rest.None? then None else Some(rest.value + 1)
  }

  lemma {:induction false} BreakBounds(text: string)
    ensures BreakAt(text).Some? ==> BreakAt(text).value < |text|
  {
    if text != "" && !IsLineBreak(text[0]) { BreakBounds(text[1..]); }
  }

  /** `str.splitlines` */
  function SplitLines(text: string): seq<string>
    decreases |text|
  {
    BreakBounds(text);
    var at := BreakAt(text);
    if text == "" then []
    else if at.None? then [text]
    else
      var width := if text[at.value] == '\r' && at.value + 1 < |text| && text[at.value + 1] == '\n' then 2 else 1;
      [text[..at.value]] + SplitLines(text[at.value + width..])
  }

  function JoinLines(lines: seq<string>): string {
    if lines == [] then "" else lines[0] + "\n" + JoinLines(lines[1..])
  }

  lemma {:induction false} FirstBreak(line: string, rest: string)
    requires NoLineBreak(line)
    ensures BreakAt(line + "\n" + rest) == Some(|line|)
  {
    var text := line + "\n" + rest;
    if line != "" {
      assert text[0] == line[0];
      assert text[1..] == line[1..] + "\n" + rest;
      FirstBreak(line[1..], rest);
    }
  }

  lemma {:induction false} SplitJoined(lines: seq<string>)
    requires forall i :: 0 <= i < |lines| ==> NoLineBreak(lines[i])
    ensures SplitLines(JoinLines(lines)) == lines
  {
    if lines != [] {
      var text := JoinLines(lines);
      FirstBreak(lines[0], JoinLines(lines[1..]));
      SplitJoined(lines[1..]);
      assert text[..|lines[0]|] == lines[0];
      assert text[|lines[0]|] == '\n';
      assert text[|lines[0]| + 1..] == JoinLines(lines[1..]);
      assert lines == [lines[0]] + lines[1..];
    }
  }
}
