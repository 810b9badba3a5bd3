/** Shared vocabulary: optional values, results of code that may raise, Python's string order,
    and sequences without repetitions. */
module Basics {

  datatype Option<+T> = None | Some(value: T) {
    function GetOr(default: T): T {
      if Some? then value else default
    }
  }

  /** `Raise` stands for a Python exception leaving the modelled call. */
  datatype Result<+T> = Ok(value: T) | Raise(error: string) {
    function GetOr(default: T): T {
      if Ok? then value else default
    }

    predicate IsFailure() { Raise? }

    function PropagateFailure<U>(): Result<U>
      requires Raise?
    {
      Raise(error)
    }

    function Extract(): T
      requires Ok?
    {
      value
    }
  }

  function Lookup<K, V>(m: map<K, V>, k: K): Option<V> {
    if k in m then Some(m[k]) else None
  }

  // ---------------------------------------------------------------- sequences without repetitions

  ghost predicate Distinct<T>(s: seq<T>) {
    forall i, j :: 0 <= i < j < |s| ==> s[i] != s[j]
  }

  /** Python's `if value not in values: values.append(value)`. */
  function AppendUnique<T(==)>(values: seq<T>, value: T): seq<T> {
    if value in values then values else values + [value]
  }

  function AppendAllUnique<T(==)>(values: seq<T>, more: seq<T>): seq<T>
    decreases |more|
  {
    if more == [] then values else AppendAllUnique(AppendUnique(values, more[0]), more[1..])
  }

  lemma AppendOneUnique<T>(values: seq<T>, value: T)
    ensures AppendAllUnique(values, [value]) == AppendUnique(values, value)
  {
    assert [value][1..] == [];
    assert AppendAllUnique(AppendUnique(values, value), []) == AppendUnique(values, value);
  }

  lemma {:induction false} AppendAllUniqueSnoc<T>(values: seq<T>, more: seq<T>, last: T)
    ensures AppendAllUnique(values, more + [last]) == AppendUnique(AppendAllUnique(values, more), last)
    decreases |more|
  {
    if more == [] {
      assert more + [last] == [last];
      assert AppendAllUnique(AppendUnique(values, last), []) == AppendUnique(values, last);
    } else {
      assert (more + [last])[1..] == more[1..] + [last];
      AppendAllUniqueSnoc(AppendUnique(values, more[0]), more[1..], last);
    }
  }

  // ---------------------------------------------------------------- Python's order on strings

  /** Strict lexicographic order by code point. */
  predicate Before(a: string, b: string) {
    if b == "" then false
    else if a == "" then true
    else if a[0] != b[0] then a[0] < b[0]
    else Before(a[1..], b[1..])
  }

  predicate AtMost(a: string, b: string) { a == b || Before(a, b) }

  lemma BeforeIrreflexive(a: string)
    ensures !Before(a, a)
  {}

  lemma {:induction false} BeforeTotal(a: string, b: string)
    ensures a == b || Before(a, b) || Before(b, a)
  {
    if a != "" && b != "" && a[0] == b[0] {
      BeforeTotal(a[1..], b[1..]);
      assert a == [a[0]] + a[1..] && b == [b[0]] + b[1..];
    }
  }

  lemma {:induction false} BeforeTransitive(a: string, b: string, c: string)
    requires Before(a, b) && Before(b, c)
    ensures Before(a, c)
  {
    if a != "" && a[0] == b[0] && b[0] == c[0] {
      BeforeTransitive(a[1..], b[1..], c[1..]);
    }
  }

  lemma BeforeAsymmetric(a: string, b: string)
    requires Before(a, b)
    ensures !Before(b, a)
  {
    if Before(b, a) {
      BeforeTransitive(a, b, a);
      BeforeIrreflexive(a);
    }
  }

  // ---------------------------------------------------------------- sorted(...) over a set

  ghost predicate Ascending(s: seq<string>) {
    forall i, j :: 0 <= i < j < |s| ==> Before(s[i], s[j])
  }

  ghost predicate SortedListing(s: seq<string>, keys: set<string>) {
    Ascending(s) && (forall k :: k in s <==> k in keys)
  }

  ghost predicate IsLeast(k: string, keys: set<string>) {
    k in keys && forall x :: x in keys ==> AtMost(k, x)
  }

  lemma {:induction false} LeastExists(keys: set<string>)
    requires keys != {}
    ensures exists k :: IsLeast(k, keys)
  {
    var k :| k in keys;
    if keys == {k} {
      assert IsLeast(k, keys);
    } else {
      LeastExists(keys - {k});
      var m :| IsLeast(m, keys - {k});
      BeforeTotal(k, m);
      if Before(k, m) {
        forall x | x in keys ensures AtMost(k, x) {
          if x != k && x != m {
            assert x in keys - {k} && AtMost(m, x);
            BeforeTransitive(k, m, x);
          }
        }
        assert IsLeast(k, keys);
      } else {
        assert IsLeast(m, keys);
      }
    }
  }

  lemma LeastFirst(k: string, rest: seq<string>, keys: set<string>)
    requires IsLeast(k, keys) && SortedListing(rest, keys - {k}) && |rest| == |keys - {k}|
    ensures SortedListing([k] + rest, keys) && |[k] + rest| == |keys|
  {
    var s := [k] + rest;
    forall j | 0 <= j < |rest| ensures Before(k, rest[j]) {
      assert rest[j] in rest;
      assert rest[j] in keys - {k};
    }
    forall i, j | 0 <= i < j < |s| ensures Before(s[i], s[j]) {
      if i == 0 { assert s[j] == rest[j - 1]; } else { assert s[i] == rest[i - 1] && s[j] == rest[j - 1]; }
    }
    forall x ensures x in s <==> x in keys { assert x in s <==> x == k || x in rest; }
  }

  /** `sorted(keys)` for a set of strings. */
  ghost function SortedKeys(keys: set<string>): (s: seq<string>)
    ensures SortedListing(s, keys)
    ensures |s| == |keys|
    decreases |keys|
  {
    if keys == {} then []
    else
      LeastExists(keys);
      var k :| IsLeast(k, keys);
      var rest := SortedKeys(keys - {k});
      LeastFirst(k, rest, keys);
      [k] + rest
  }

  /** There is only one ascending listing of a set, so `sorted` forgets the order it was given. */
  lemma {:induction false} SortedListingUnique(a: seq<string>, b: seq<string>, keys: set<string>)
    requires SortedListing(a, keys) && SortedListing(b, keys)
    ensures a == b
  {
    if a == [] {
      if b != [] { HasMember(b); }
    } else {
      assert a[0] in a;
      assert b != [];
      assert b[0] in b;
      SameHead(a, b, keys);
      forall k ensures k in a[1..] <==> k in keys - {a[0]} { TailMembership(a, keys, k); }
      forall k ensures k in b[1..] <==> k in keys - {a[0]} { TailMembership(b, keys, k); }
      SortedListingUnique(a[1..], b[1..], keys - {a[0]});
      assert a == [a[0]] + a[1..] && b == [b[0]] + b[1..];
    }
  }

  lemma HasMember<T>(s: seq<T>)
    requires s != []
    ensures exists k :: k in s
  {
    assert s[0] in s;
  }

  lemma SameHead(a: seq<string>, b: seq<string>, keys: set<string>)
    requires SortedListing(a, keys) && SortedListing(b, keys) && a != [] && b != []
    ensures a[0] == b[0]
  {
    assert a[0] in a && b[0] in b;
    assert a[0] in b && b[0] in a;
    var i :| 0 <= i < |b| && b[i] == a[0];
    var j :| 0 <= j < |a| && a[j] == b[0];
    if i > 0 && j > 0 {
      BeforeAsymmetric(a[0], a[j]);
    }
  }

  lemma TailMembership(s: seq<string>, keys: set<string>, k: string)
    requires SortedListing(s, keys) && s != []
    ensures k in s[1..] <==> k in keys - {s[0]}
  {
    BeforeIrreflexive(s[0]);
    if k in s[1..] {
      var i :| 0 <= i < |s[1..]| && s[1..][i] == k;
      assert s[i + 1] == k && Before(s[0], s[i + 1]);
      assert k in s;
    }
    if k in keys - {s[0]} {
      assert k in s;
      var i :| 0 <= i < |s| && s[i] == k;
      assert s[1..][i - 1] == k;
    }
  }

  method Least(names: set<string>) returns (k: string)
    requires names != {}
    ensures IsLeast(k, names)
  {
    k :| k in names;
    var todo := names - {k};
    ghost var done := {k};
    while todo != {}
      invariant IsLeast(k, done) && done + todo == names
    {
      var x :| x in todo;
      todo := todo - {x};
      BeforeTotal(x, k);
      if Before(x, k) {
        forall y | y in done ensures AtMost(x, y) {
          if y != k { BeforeTransitive(x, k, y); }
        }
        k := x;
      }
      done := done + {x};
    }
  }

  /** `sorted(names)` */
  method Sorted(names: set<string>) returns (s: seq<string>)
    ensures SortedListing(s, names)
  {
    s := [];
    var rest := names;
    while rest != {}
      invariant rest <= names && Ascending(s)
      invariant forall k :: k in s <==> k in names - rest
      invariant forall i, k :: 0 <= i < |s| && k in rest ==> Before(s[i], k)
    {
      var k := Least(rest);
      assert forall i :: 0 <= i < |s| ==> Before(s[i], k);
      rest := rest - {k};
      s := s + [k];
    }
  }

  // ---------------------------------------------------------------- division

  lemma TimesMonotone(a: nat, b: nat, n: nat)
    requires a <= b
    ensures a * n <= b * n
  {}

  lemma QuotientOf(q: nat, r: nat, n: nat)
    requires r < n
    ensures (q * n + r) / n == q && (q * n + r) % n == r
  {
    assert q * n + r == n * q + r;
    var i := q * n + r;
    assert i == n * (i / n) + i % n;
    if i / n > q { TimesMonotone(q + 1, i / n, n); }
    if i / n < q { TimesMonotone(i / n + 1, q, n); }
  }
}
