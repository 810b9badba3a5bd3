/** Expansion of multi-valued parameters into single-valued combinations. */
module Expansion {
  import opened Basics

  type Params = map<string, string>

  /** The parameters with several values, in the order they were stated; each name occurs once. */
  type Multi = seq<(string, seq<string>)>

  function Names(multi: Multi): seq<string> { seq(|multi|, j requires 0 <= j < |multi| => multi[j].0) }

  function Pools(multi: Multi): seq<seq<string>> { seq(|multi|, j requires 0 <= j < |multi| => multi[j].1) }

  // ---------------------------------------------------------------- mixed-radix positions

  /** In how many ways can one value be picked from every pool? */
  function Choices(pools: seq<seq<string>>): nat {
    if pools == [] then 1 else Choices(pools[..|pools| - 1]) * |pools[|pools| - 1]|
  }

  ghost predicate Positions(pools: seq<seq<string>>, d: seq<nat>) {
    |d| == |pools| && forall j :: 0 <= j < |d| ==> d[j] < |pools[j]|
  }

  lemma QuotientBound(i: nat, c: nat, n: nat)
    requires i < c * n
    ensures n > 0 && i / n < c
  {
    if i / n >= c { TimesMonotone(c, i / n, n); }
  }

  lemma ProductBelow(q: nat, r: nat, c: nat, n: nat)
    requires q < c && r < n
    ensures q * n + r < c * n
  {
    TimesMonotone(q + 1, c, n);
  }

  /** The digits of `i` when pool `j` has radix `|pools[j]|`, the last digit counting fastest. */
  function Digits(pools: seq<seq<string>>, i: nat): (d: seq<nat>)
    requires i < Choices(pools)
    ensures Positions(pools, d)
  {
    if pools == [] then []
    else
      var k := |pools| - 1;
      QuotientBound(i, Choices(pools[..k]), |pools[k]|);
      Digits(pools[..k], i / |pools[k]|) + [i % |pools[k]|]
  }

  function Rank(pools: seq<seq<string>>, d: seq<nat>): (i: nat)
    requires Positions(pools, d)
    ensures i < Choices(pools)
  {
    if pools == [] then 0
    else
      var k := |pools| - 1;
      ProductBelow(Rank(pools[..k], d[..k]), d[k], Choices(pools[..k]), |pools[k]|);
      Rank(pools[..k], d[..k]) * |pools[k]| + d[k]
  }

  lemma {:induction false} DigitsOfRank(pools: seq<seq<string>>, d: seq<nat>)
    requires Positions(pools, d)
    ensures Digits(pools, Rank(pools, d)) == d
  {
    if pools != [] {
      var k := |pools| - 1;
      DigitsOfRank(pools[..k], d[..k]);
      QuotientOf(Rank(pools[..k], d[..k]), d[k], |pools[k]|);
      assert d == d[..k] + [d[k]];
    }
  }

  lemma {:induction false} RankOfDigits(pools: seq<seq<string>>, i: nat)
    requires i < Choices(pools)
    ensures Rank(pools, Digits(pools, i)) == i
  {
    if pools != [] {
      var k := |pools| - 1;
      QuotientBound(i, Choices(pools[..k]), |pools[k]|);
      RankOfDigits(pools[..k], i / |pools[k]|);
      assert Digits(pools, i)[..k] == Digits(pools[..k], i / |pools[k]|);
      assert i == (i / |pools[k]|) * |pools[k]| + i % |pools[k]|;
    }
  }

  lemma {:induction false} NoChoice(pools: seq<seq<string>>)
    ensures Choices(pools) == 0 <==> exists j :: 0 <= j < |pools| && |pools[j]| == 0
  {
    if pools != [] {
      var k := |pools| - 1;
      NoChoice(pools[..k]);
      assert forall j :: 0 <= j < k ==> pools[..k][j] == pools[j];
    }
  }

  // ---------------------------------------------------------------- itertools.product

  function Chosen(pools: seq<seq<string>>, d: seq<nat>): seq<string>
    requires Positions(pools, d)
  {
    seq(|d|, j requires 0 <= j < |d| => pools[j][d[j]])
  }

  function Row(tuple: seq<string>, pool: seq<string>): seq<seq<string>> {
    seq(|pool|, b requires 0 <= b < |pool| => tuple + [pool[b]])
  }

  /** Every tuple continued by every value of one more pool. */
  function Longer(tuples: seq<seq<string>>, pool: seq<string>): (longer: seq<seq<string>>)
    ensures |longer| == |tuples| * |pool|
  {
    if tuples == [] then []
    else Longer(tuples[..|tuples| - 1], pool) + Row(tuples[|tuples| - 1], pool)
  }

  lemma {:induction false} LongerAt(tuples: seq<seq<string>>, pool: seq<string>, a: nat, b: nat)
    requires a < |tuples| && b < |pool|
    ensures a * |pool| + b < |tuples| * |pool|
    ensures Longer(tuples, pool)[a * |pool| + b] == tuples[a] + [pool[b]]
  {
    ProductBelow(a, b, |tuples|, |pool|);
    var k := |tuples| - 1;
    if a < k {
      LongerAt(tuples[..k], pool, a, b);
    } else {
      assert a * |pool| + b == k * |pool| + b;
    }
  }

  method Extend(tuples: seq<seq<string>>, pool: seq<string>) returns (longer: seq<seq<string>>)
    ensures longer == Longer(tuples, pool)
  {
    longer := [];
    for x := 0 to |tuples|
      invariant longer == Longer(tuples[..x], pool)
    {
      ghost var before := longer;
      for y := 0 to |pool|
        invariant longer == before + Row(tuples[x], pool)[..y]
      {
        longer := longer + [tuples[x] + [pool[y]]];
        assert Row(tuples[x], pool)[..y + 1] == Row(tuples[x], pool)[..y] + [tuples[x] + [pool[y]]];
      }
      assert Row(tuples[x], pool)[..|pool|] == Row(tuples[x], pool);
      assert tuples[..x + 1][..x] == tuples[..x];
    }
    assert tuples[..|tuples|] == tuples;
  }

  /** Entry `i` of the product picks the digits of `i`. */
  ghost predicate IsProduct(pools: seq<seq<string>>, tuples: seq<seq<string>>) {
    && |tuples| == Choices(pools)
    && forall i :: 0 <= i < |tuples| ==> tuples[i] == Chosen(pools, Digits(pools, i))
  }

  lemma DigitsSnoc(pools: seq<seq<string>>, pool: seq<string>, i: nat)
    requires i < Choices(pools) * |pool|
    ensures Choices(pools + [pool]) == Choices(pools) * |pool|
    ensures |pool| > 0 && i / |pool| < Choices(pools)
    ensures Digits(pools + [pool], i) == Digits(pools, i / |pool|) + [i % |pool|]
  {
    assert (pools + [pool])[..|pools|] == pools;
    QuotientBound(i, Choices(pools), |pool|);
  }

  lemma EntryOfOnePoolMore(pools: seq<seq<string>>, pool: seq<string>, tuples: seq<seq<string>>, i: nat, q: nat, r: nat)
    requires IsProduct(pools, tuples) && q < |tuples| && r < |pool|
    requires i < |tuples| * |pool| && q == i / |pool| && r == i % |pool| && i == q * |pool| + r
    ensures i < Choices(pools + [pool])
    ensures Longer(tuples, pool)[i] == Chosen(pools + [pool], Digits(pools + [pool], i))
  {
    hide Longer, Digits, Choices, Chosen;
    DigitsSnoc(pools, pool, i);
    LongerAt(tuples, pool, q, r);
    ChosenSnoc(pools, pool, Digits(pools, q), r);
  }

  lemma OnePoolMore(pools: seq<seq<string>>, pool: seq<string>, tuples: seq<seq<string>>)
    requires IsProduct(pools, tuples)
    ensures IsProduct(pools + [pool], Longer(tuples, pool))
  {
    hide Longer, Digits, Chosen;
    assert (pools + [pool])[..|pools|] == pools;
    forall i | 0 <= i < |tuples| * |pool|
      ensures Longer(tuples, pool)[i] == Chosen(pools + [pool], Digits(pools + [pool], i))
    {
      QuotientBound(i, |tuples|, |pool|);
      EntryOfOnePoolMore(pools, pool, tuples, i, i / |pool|, i % |pool|);
    }
  }

  lemma ChosenSnoc(pools: seq<seq<string>>, pool: seq<string>, d: seq<nat>, last: nat)
    requires Positions(pools, d) && last < |pool|
    ensures Positions(pools + [pool], d + [last])
    ensures Chosen(pools + [pool], d + [last]) == Chosen(pools, d) + [pool[last]]
  {}

  /** `itertools.product`, whose last pool advances fastest. */
  method Product(pools: seq<seq<string>>) returns (tuples: seq<seq<string>>)
    ensures IsProduct(pools, tuples)
  {
    tuples := [[]];
    assert pools[..0] == [];
    for k := 0 to |pools|
      invariant IsProduct(pools[..k], tuples)
    {
      OnePoolMore(pools[..k], pools[k], tuples);
      assert pools[..k + 1] == pools[..k] + [pools[k]];
      tuples := Extend(tuples, pools[k]);
    }
    assert pools[..|pools|] == pools;
  }

  // ---------------------------------------------------------------- combinations

  /** `combo` is `base` with every multi-valued parameter set to the value at its position. */
  ghost predicate Combines(base: Params, multi: Multi, d: seq<nat>, combo: Params) {
    && Positions(Pools(multi), d)
    && (forall k :: k in combo <==> k in base || k in Names(multi))
    && (forall k :: k in base && k !in Names(multi) ==> combo[k] == base[k])
    && (forall j :: 0 <= j < |multi| ==> combo[Names(multi)[j]] == multi[j].1[d[j]])
  }

  ghost predicate Expanded(base: Params, multi: Multi, combos: seq<Params>) {
    && |combos| == Choices(Pools(multi))
    && forall i :: 0 <= i < |combos| ==> Combines(base, multi, Digits(Pools(multi), i), combos[i])
  }

  /** `dict(base)` updated with the zipped names and values. */
  method Overlay(base: Params, multi: Multi, d: seq<nat>, values: seq<string>) returns (combo: Params)
    requires Distinct(Names(multi)) && Positions(Pools(multi), d) && values == Chosen(Pools(multi), d)
    ensures Combines(base, multi, d, combo)
  {
    combo := base;
    for j := 0 to |multi|
      invariant forall k :: k in combo <==> k in base || k in Names(multi)[..j]
      invariant forall k :: k in base && k !in Names(multi)[..j] ==> combo[k] == base[k]
      invariant forall m :: 0 <= m < j ==> combo[Names(multi)[m]] == values[m]
    {
      assert Names(multi)[..j + 1] == Names(multi)[..j] + [multi[j].0];
      assert forall m :: 0 <= m < j ==> Names(multi)[m] != Names(multi)[j];
      combo := combo[multi[j].0 := values[j]];
    }
    assert Names(multi)[..|multi|] == Names(multi);
  }

  method ExpandCombinations(base: Params, multi: Multi) returns (combos: seq<Params>)
    requires Distinct(Names(multi))
    ensures Expanded(base, multi, combos)
  {
    if multi == [] {
      assert Pools(multi) == [];
      return [base];
    }
    var tuples := Product(Pools(multi));
    combos := [];
    for i := 0 to |tuples|
      invariant |combos| == i
      invariant forall m :: 0 <= m < i ==> Combines(base, multi, Digits(Pools(multi), m), combos[m])
    {
      var combo := Overlay(base, multi, Digits(Pools(multi), i), tuples[i]);
      combos := combos + [combo];
    }
  }

  // ---------------------------------------------------------------- what the expansion is for

  /** A single-valued reading of the request: one stated value for every multi-valued parameter. */
  ghost predicate Reading(base: Params, multi: Multi, m: Params) {
    && (forall k :: k in m <==> k in base || k in Names(multi))
    && (forall k :: k in base && k !in Names(multi) ==> m[k] == base[k])
    && (forall j :: 0 <= j < |multi| ==> m[Names(multi)[j]] in multi[j].1)
  }

  lemma {:induction false} PositionsOfReading(multi: Multi, m: Params, n: nat) returns (d: seq<nat>)
    requires n <= |multi|
    requires forall j :: 0 <= j < n ==> Names(multi)[j] in m && m[Names(multi)[j]] in multi[j].1
    ensures |d| == n && forall j :: 0 <= j < n ==> d[j] < |multi[j].1| && multi[j].1[d[j]] == m[Names(multi)[j]]
  {
    if n == 0 {
      d := [];
    } else {
      var before := PositionsOfReading(multi, m, n - 1);
      var p :| 0 <= p < |multi[n - 1].1| && multi[n - 1].1[p] == m[Names(multi)[n - 1]];
      d := before + [p];
    }
  }

  lemma CombinationIsReading(base: Params, multi: Multi, d: seq<nat>, m: Params)
    requires Combines(base, multi, d, m)
    ensures Reading(base, multi, m)
  {}

  /** Every choice of positions is expanded, at the index it ranks. */
  lemma EveryChoiceOccurs(base: Params, multi: Multi, combos: seq<Params>, d: seq<nat>)
    requires Expanded(base, multi, combos) && Positions(Pools(multi), d)
    ensures Combines(base, multi, d, combos[Rank(Pools(multi), d)])
  {
    DigitsOfRank(Pools(multi), d);
  }

  lemma SameReading(base: Params, multi: Multi, d: seq<nat>, a: Params, m: Params)
    requires Combines(base, multi, d, a) && Reading(base, multi, m)
    requires forall j :: 0 <= j < |multi| ==> multi[j].1[d[j]] == m[Names(multi)[j]]
    ensures a == m
  {
    forall k | k in a ensures k in m && a[k] == m[k] {
      if k in Names(multi) {
        var j :| 0 <= j < |multi| && Names(multi)[j] == k;
      }
    }
    assert a.Keys == m.Keys;
  }

  /** The combinations are exactly the single-valued readings of the request. */
  lemma ExactlyTheReadings(base: Params, multi: Multi, combos: seq<Params>, m: Params)
    requires Expanded(base, multi, combos)
    ensures m in combos <==> Reading(base, multi, m)
  {
    hide Combines, Choices;
    if m in combos {
      var i :| 0 <= i < |combos| && combos[i] == m;
      CombinationIsReading(base, multi, Digits(Pools(multi), i), m);
    }
    if Reading(base, multi, m) {
      var d := PositionsOfReading(multi, m, |multi|);
      EveryChoiceOccurs(base, multi, combos, d);
      SameReading(base, multi, d, combos[Rank(Pools(multi), d)], m);
    }
  }

  lemma EqualCombinations(base: Params, multi: Multi, d: seq<nat>, e: seq<nat>, a: Params, b: Params)
    requires Combines(base, multi, d, a) && Combines(base, multi, e, b)
    ensures a == b <==> forall j :: 0 <= j < |multi| ==> multi[j].1[d[j]] == multi[j].1[e[j]]
  {
    if forall j :: 0 <= j < |multi| ==> multi[j].1[d[j]] == multi[j].1[e[j]] {
      forall k | k in a ensures k in b && a[k] == b[k] {
        if k in Names(multi) {
          var j :| 0 <= j < |multi| && Names(multi)[j] == k;
        }
      }
      assert a.Keys == b.Keys;
      assert a == b;
    }
  }

  lemma DistinctPools(base: Params, multi: Multi, combos: seq<Params>)
    requires Expanded(base, multi, combos)
    requires forall j :: 0 <= j < |multi| ==> Distinct(multi[j].1)
    ensures Distinct(combos)
  {
    var pools := Pools(multi);
    forall x, y | 0 <= x < y < |combos| ensures combos[x] != combos[y] {
      var d, e := Digits(pools, x), Digits(pools, y);
      RankOfDigits(pools, x);
      RankOfDigits(pools, y);
      assert d != e;
      EqualCombinations(base, multi, d, e, combos[x], combos[y]);
      var j :| 0 <= j < |multi| && d[j] != e[j];
      assert Distinct(multi[j].1);
    }
  }

  lemma RepeatedValue(base: Params, multi: Multi, combos: seq<Params>, j: nat)
    requires Expanded(base, multi, combos) && combos != []
    requires j < |multi| && !Distinct(multi[j].1)
    ensures !Distinct(combos)
  {
    hide Combines, Choices, Digits, Rank;
    var pools := Pools(multi);
    var a, b :| 0 <= a < b < |multi[j].1| && multi[j].1[a] == multi[j].1[b];
    var start := Digits(pools, 0);
    var d, e := start[j := a], start[j := b];
    assert Positions(pools, d) && Positions(pools, e) && d[j] != e[j];
    EveryChoiceOccurs(base, multi, combos, d);
    EveryChoiceOccurs(base, multi, combos, e);
    DigitsOfRank(pools, d);
    DigitsOfRank(pools, e);
    EqualCombinations(base, multi, d, e, combos[Rank(pools, d)], combos[Rank(pools, e)]);
    NotDistinct(combos, Rank(pools, d), Rank(pools, e));
  }

  lemma NotDistinct<T>(s: seq<T>, x: nat, y: nat)
    requires x < |s| && y < |s| && x != y && s[x] == s[y]
    ensures !Distinct(s)
  {}

  /** No combination is proposed twice exactly when no pool repeats a value, or one of them is empty, in
      which case there is no combination at all. */
  lemma NoCombinationTwice(base: Params, multi: Multi, combos: seq<Params>)
    requires Expanded(base, multi, combos)
    ensures Distinct(combos) <==>
            ((forall j :: 0 <= j < |multi| ==> Distinct(multi[j].1)) || (exists j :: 0 <= j < |multi| && multi[j].1 == []))
  {
    var pools := Pools(multi);
    NoChoice(pools);
    assert forall j :: 0 <= j < |multi| ==> pools[j] == multi[j].1;
    if exists j :: 0 <= j < |multi| && multi[j].1 == [] {
      assert combos == [];
    } else if j :| 0 <= j < |multi| && !Distinct(multi[j].1) {
      RepeatedValue(base, multi, combos, j);
    } else {
      DistinctPools(base, multi, combos);
    }
  }
}
