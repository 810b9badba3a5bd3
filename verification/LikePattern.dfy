/** Escaping of user input for LIKE, against the like predicate of section 8.5 of ISO/IEC 9075-2 with the
    escape character `\`. Case folding of ILIKE is a parameter. */
module LikePattern {
  import opened Basics

  type Fold = char -> char

  // ---------------------------------------------------------------- the like predicate

  /** Does the pattern match the whole of `s`? A pattern that ends in a bare escape matches nothing. */
  predicate Like(fold: Fold, p: string, s: string)
    decreases |p|
  {
    if p == "" then s == ""
    else if p[0] == '%' then exists k | 0 <= k <= |s| :: Like(fold, p[1..], s[k..])
    else if s == "" then false
    else if p[0] == '_' then Like(fold, p[1..], s[1..])
    else if p[0] == '\\' then |p| >= 2 && fold(p[1]) == fold(s[0]) && Like(fold, p[2..], s[1..])
    else fold(p[0]) == fold(s[0]) && Like(fold, p[1..], s[1..])
  }

  /** No escape character without something to escape: the database accepts the pattern. */
  predicate Accepted(p: string) {
    if p == "" then true
    else if p[0] == '\\' then |p| >= 2 && Accepted(p[2..])
    else Accepted(p[1..])
  }

  predicate SameText(fold: Fold, a: string, b: string) {
    |a| == |b| && forall i | 0 <= i < |a| :: fold(a[i]) == fold(b[i])
  }

  predicate StandsAt(fold: Fold, s: string, i: nat, q: string)
    requires i <= |s|
  {
    i + |q| <= |s| && SameText(fold, q, s[i..i + |q|])
  }

  /** `q` stands somewhere in `s`, as literal text. */
  predicate Contains(fold: Fold, s: string, q: string) {
    exists i | 0 <= i <= |s| :: StandsAt(fold, s, i, q)
  }

  // ---------------------------------------------------------------- escaping

  /** `s.replace(c, sub)` for a single character. */
  function Replace(s: string, c: char, sub: string): string {
    if s == "" then "" else (if s[0] == c then sub else [s[0]]) + Replace(s[1..], c, sub)
  }

  /** `_like_escape`: three passes over the whole string, the escape character first. */
  function LikeEscape(s: string): string {
    Replace(Replace(Replace(s, '\\', "\\\\"), '%', "\\%"), '_', "\\_")
  }

  function EscapeOne(c: char): string {
    if c == '\\' || c == '%' || c == '_' then ['\\', c] else [c]
  }

  lemma {:induction false} ReplaceJoin(a: string, b: string, c: char, sub: string)
    ensures Replace(a + b, c, sub) == Replace(a, c, sub) + Replace(b, c, sub)
  {
    if a == "" {
      assert a + b == b;
    } else {
      assert (a + b)[1..] == a[1..] + b;
      ReplaceJoin(a[1..], b, c, sub);
    }
  }

  lemma ReplaceTwo(x: char, y: char, c: char, sub: string)
    ensures Replace([x], c, sub) == if x == c then sub else [x]
    ensures Replace([x, y], c, sub) == (if x == c then sub else [x]) + (if y == c then sub else [y])
  {
    assert [x][1..] == "" && [x, y][1..] == [y] && [y][1..] == "";
    assert Replace([y], c, sub) == (if y == c then sub else [y]) + "";
  }

  /** The three passes amount to one map over the characters: no pass touches what another one wrote. */
  lemma EscapeFuses(s: string)
    requires s != ""
    ensures LikeEscape(s) == EscapeOne(s[0]) + LikeEscape(s[1..])
  {
    var c, rest := s[0], s[1..];
    var first := Replace([c], '\\', "\\\\");
    var second := Replace(first, '%', "\\%");
    assert s == [c] + rest;
    ReplaceJoin([c], rest, '\\', "\\\\");
    ReplaceJoin(first, Replace(rest, '\\', "\\\\"), '%', "\\%");
    ReplaceJoin(second, Replace(Replace(rest, '\\', "\\\\"), '%', "\\%"), '_', "\\_");
    ReplaceTwo(c, c, '\\', "\\\\");
    ReplaceTwo(c, c, '%', "\\%");
    ReplaceTwo(c, c, '_', "\\_");
    ReplaceTwo('\\', '\\', '%', "\\%");
    ReplaceTwo('\\', '\\', '_', "\\_");
    ReplaceTwo('\\', '%', '_', "\\_");
    assert "\\\\" == ['\\', '\\'] && "\\%" == ['\\', '%'] && "\\_" == ['\\', '_'];
  }

  lemma {:induction false} EscapedIsAccepted(q: string)
    ensures Accepted(LikeEscape(q) + "%")
  {
    if q != "" {
      EscapeFuses(q);
      EscapedIsAccepted(q[1..]);
      var p, tail := LikeEscape(q) + "%", LikeEscape(q[1..]) + "%";
      assert p == EscapeOne(q[0]) + tail;
      assert p[|EscapeOne(q[0])|..] == tail;
    }
  }

  // ---------------------------------------------------------------- exactness

  lemma AnythingMatches(fold: Fold, s: string)
    ensures Like(fold, "%", s)
  {
    assert "%"[1..] == "" && s[|s|..] == "";
    assert Like(fold, "%"[1..], s[|s|..]);
  }

  /** One escaped character of the pattern stands for that character only. */
  lemma EscapedCharMatches(fold: Fold, c: char, tail: string, s: string)
    ensures Like(fold, EscapeOne(c) + tail, s) <==> s != "" && fold(c) == fold(s[0]) && Like(fold, tail, s[1..])
  {
    var p := EscapeOne(c) + tail;
    assert p[|EscapeOne(c)|..] == tail;
  }

  lemma {:induction false} EscapedPrefix(fold: Fold, q: string, s: string)
    ensures Like(fold, LikeEscape(q) + "%", s) <==> |q| <= |s| && SameText(fold, q, s[..|q|])
  {
    if q == "" {
      AnythingMatches(fold, s);
      assert LikeEscape(q) + "%" == "%";
    } else {
      EscapeFuses(q);
      var tail := LikeEscape(q[1..]) + "%";
      assert LikeEscape(q) + "%" == EscapeOne(q[0]) + tail;
      EscapedCharMatches(fold, q[0], tail, s);
      if s != "" {
        EscapedPrefix(fold, q[1..], s[1..]);
        SameTextCons(fold, q, s);
      }
    }
  }

  lemma SameTextCons(fold: Fold, q: string, s: string)
    requires q != "" && s != ""
    ensures (|q| <= |s| && SameText(fold, q, s[..|q|])) <==>
            (fold(q[0]) == fold(s[0]) && |q[1..]| <= |s[1..]| && SameText(fold, q[1..], s[1..][..|q[1..]|]))
  {
    if |q| <= |s| {
      assert forall i :: 0 <= i < |q[1..]| ==> q[1..][i] == q[i + 1] && s[1..][..|q[1..]|][i] == s[..|q|][i + 1];
      if fold(q[0]) == fold(s[0]) && SameText(fold, q[1..], s[1..][..|q[1..]|]) {
        forall i | 0 <= i < |q| ensures fold(q[i]) == fold(s[..|q|][i]) {
          if i > 0 { assert q[1..][i - 1] == q[i]; }
        }
      }
    }
  }

  /** Escaping is exact: `%` + escaped query + `%` matches a text exactly when the query stands in it as
      literal text, and the database never refuses such a pattern. */
  lemma EscapingIsExact(fold: Fold, q: string, s: string)
    ensures Like(fold, "%" + LikeEscape(q) + "%", s) <==> Contains(fold, s, q)
    ensures Accepted("%" + LikeEscape(q) + "%")
  {
    var inner := LikeEscape(q) + "%";
    var p := "%" + LikeEscape(q) + "%";
    assert p == "%" + inner && p[1..] == inner;
    EscapedIsAccepted(q);
    forall k | 0 <= k <= |s|
      ensures Like(fold, inner, s[k..]) <==> StandsAt(fold, s, k, q)
    {
      EscapedPrefix(fold, q, s[k..]);
      if k + |q| <= |s| { assert s[k..][..|q|] == s[k..k + |q|]; }
    }
  }

  /** Without escaping the property fails: the query `_` would match a text it does not stand in. */
  lemma UnescapedIsNotExact(fold: Fold)
    requires fold('_') != fold('a')
    ensures Like(fold, "%" + "_" + "%", "a") && !Contains(fold, "a", "_")
  {
    assert ("%" + "_" + "%")[1..] == "_%" && "_%"[1..] == "%";
    AnythingMatches(fold, "");
    assert "a"[0..] == "a" && "a"[1..] == "";
    assert Like(fold, "_%", "a"[0..]);
    assert !StandsAt(fold, "a", 0, "_") by { assert "a"[0..1] == "a"; }
  }
}
