/** The replenishment gap behind a purchase requisition proposal. Decimals are exact: the 28-digit precision of
    Python's default decimal context is not modelled. */
module Replenishment {
  import opened Basics
  import Execution
  import Numerals

  // ---------------------------------------------------------------- decimals

  function Pow10(s: nat): (p: int)
    ensures p > 0
  {
    if s == 0 then 1 else 10 * Pow10(s - 1)
  }

  lemma {:induction false} Pow10Sum(s: nat, t: nat)
    ensures Pow10(s + t) == Pow10(s) * Pow10(t)
  {
    if s > 0 { Pow10Sum(s - 1, t); }
  }

  function Ratio(u: int, p: int): real
    requires p > 0
  {
    u as real / p as real
  }

  datatype Decimal = Decimal(unscaled: int, scale: nat) {
    function Value(): real { Ratio(unscaled, Pow10(scale)) }
  }

  lemma RatioIs(u: int, p: int, x: real)
    requires p > 0 && x * p as real == u as real
    ensures Ratio(u, p) == x
  {}

  lemma RatioTimes(u: int, p: int)
    requires p > 0
    ensures Ratio(u, p) * p as real == u as real
  {}

  lemma CastTimes(a: int, b: int)
    ensures (a * b) as real == a as real * b as real
  {}

  lemma SumOfRatios(u: int, v: int, p: int)
    requires p > 0
    ensures Ratio(u + v, p) == Ratio(u, p) + Ratio(v, p)
  {}

  lemma Reduced(u: int, q: int, p: int)
    requires p > 0 && q > 0
    ensures q * p > 0 && Ratio(u * q, q * p) == Ratio(u, p)
  {
    var x := Ratio(u, p);
    RatioTimes(u, p);
    CastTimes(q, p);
    CastTimes(u, q);
    hide Ratio;
    assert x * (q as real * p as real) == (x * p as real) * q as real;
    RatioIs(u * q, q * p, x);
  }

  /** The same number written with `shift` more decimal places. */
  function Rescale(d: Decimal, shift: nat): (r: Decimal)
    ensures r.Value() == d.Value() && r.scale == d.scale + shift
  {
    Pow10Sum(shift, d.scale);
    Reduced(d.unscaled, Pow10(shift), Pow10(d.scale));
    Decimal(d.unscaled * Pow10(shift), shift + d.scale)
  }

  function Plus(a: Decimal, b: Decimal): (r: Decimal)
    ensures r.Value() == a.Value() + b.Value()
  {
    var x := if a.scale < b.scale then Rescale(a, b.scale - a.scale) else a;
    var y := if b.scale < a.scale then Rescale(b, a.scale - b.scale) else b;
    SumOfRatios(x.unscaled, y.unscaled, Pow10(x.scale));
    Decimal(x.unscaled + y.unscaled, x.scale)
  }

  function Minus(a: Decimal, b: Decimal): (r: Decimal)
    ensures r.Value() == a.Value() - b.Value()
  {
    SumOfRatios(b.unscaled, -b.unscaled, Pow10(b.scale));
    Plus(a, Decimal(-b.unscaled, b.scale))
  }

  const ZERO := Decimal(0, 0)

  // ---------------------------------------------------------------- quantities as text

  lemma Digit(r: nat, p: nat)
    requires p > 0 && r < 10 * p
    ensures r / p < 10 && r == (r / p) * p + r % p
  {}

  /** The decimal places of `r / 10^s`, without trailing zeros. */
  function FractionDigits(r: nat, s: nat): string
    requires 0 < r < Pow10(s)
    decreases s
  {
    var p := Pow10(s - 1);
    Digit(r, p);
    [Numerals.DigitChar(r / p)] + if r % p == 0 then "" else FractionDigits(r % p, s - 1)
  }

  lemma Division(u: nat, p: nat)
    requires p > 0
    ensures 0 <= u / p && 0 <= u % p < p && u == (u / p) * p + u % p
  {}

  function FormatUnsigned(u: nat, s: nat): string {
    var p := Pow10(s);
    Division(u, p);
    if u % p == 0 then Numerals.Decimal(u / p)
    else Numerals.Decimal(u / p) + "." + FractionDigits(u % p, s)
  }

  /** `_format_quantity`: no decimal point for an integral quantity, no trailing zeros otherwise. */
  function FormatQuantity(d: Decimal): string {
    if d.unscaled < 0 then "-" + FormatUnsigned(-d.unscaled, d.scale) else FormatUnsigned(d.unscaled, d.scale)
  }

  function FractionValue(t: string): real {
    if t == "" then 0.0
    else ((if Numerals.IsDigit(t[0]) then (t[0] - '0') as real else 0.0) + FractionValue(t[1..])) / 10.0
  }

  function Point(t: string): (p: nat)
    ensures p <= |t|
    ensures '.' !in t[..p] && (p < |t| ==> t[p] == '.')
  {
    if t == "" || t[0] == '.' then 0 else Point(t[1..]) + 1
  }

  function UnsignedValue(t: string): real {
    var p := Point(t);
    (if Numerals.AllDigits(t[..p]) then Numerals.DigitsValue(t[..p]) else 0) as real
    + if p < |t| then FractionValue(t[p + 1..]) else 0.0
  }

  /** The number a decimal text denotes. */
  function TextValue(t: string): real {
    if t != "" && t[0] == '-' then -UnsignedValue(t[1..]) else UnsignedValue(t)
  }

  lemma DigitAndRest(d: int, rest: int, p: int)
    requires p > 0
    ensures (d as real + Ratio(rest, p)) / 10.0 == Ratio(d * p + rest, 10 * p)
  {
    var x := Ratio(rest, p);
    RatioTimes(rest, p);
    CastTimes(d, p);
    CastTimes(10, p);
    hide Ratio;
    assert ((d as real + x) / 10.0) * (10.0 * p as real) == d as real * p as real + x * p as real;
    RatioIs(d * p + rest, 10 * p, (d as real + x) / 10.0);
  }

  lemma WholeAndRest(whole: int, rest: int, p: int)
    requires p > 0
    ensures whole as real + Ratio(rest, p) == Ratio(whole * p + rest, p)
  {
    var x := Ratio(rest, p);
    RatioTimes(rest, p);
    CastTimes(whole, p);
    hide Ratio;
    assert (whole as real + x) * p as real == whole as real * p as real + x * p as real;
    RatioIs(whole * p + rest, p, whole as real + x);
  }

  lemma FirstDigit(d: nat, rest: string, value: real)
    requires d < 10 && FractionValue(rest) == value
    ensures FractionValue([Numerals.DigitChar(d)] + rest) == (d as real + value) / 10.0
  {
    var t := [Numerals.DigitChar(d)] + rest;
    assert t[0] == Numerals.DigitChar(d) && t[1..] == rest;
  }

  lemma FractionUnfolds(r: nat, s: nat) returns (d: nat, rest: nat, p: nat)
    requires 0 < r < Pow10(s)
    ensures s > 0 && p == Pow10(s - 1) && Pow10(s) == 10 * p
    ensures d < 10 && rest < p && r == d * p + rest
    ensures FractionDigits(r, s) == [Numerals.DigitChar(d)] + if rest == 0 then "" else FractionDigits(rest, s - 1)
  {
    p := Pow10(s - 1);
    d, rest := r / p, r % p;
    Digit(r, p);
  }

  lemma {:induction false} FractionDenotes(r: nat, s: nat)
    requires 0 < r < Pow10(s)
    ensures FractionValue(FractionDigits(r, s)) == Ratio(r, Pow10(s))
    decreases s
  {
    hide Ratio, FractionValue, FractionDigits, Pow10;
    var d, rest, p := FractionUnfolds(r, s);
    DigitAndRest(d, rest, p);
    if rest == 0 {
      WholeRatio(p);
      NoDigits();
      FirstDigit(d, "", 0.0);
    } else {
      FractionDenotes(rest, s - 1);
      FirstDigit(d, FractionDigits(rest, s - 1), Ratio(rest, p));
    }
  }

  lemma NoDigits()
    ensures FractionValue("") == 0.0
  {}

  lemma {:induction false} PointOf(whole: string, tail: string)
    requires Numerals.AllDigits(whole) && (tail == "" || tail[0] == '.')
    ensures Point(whole + tail) == |whole|
  {
    if whole == "" {
      assert whole + tail == tail;
    } else {
      assert (whole + tail)[1..] == whole[1..] + tail;
      PointOf(whole[1..], tail);
    }
  }

  lemma PlainNumberDenotes(n: nat)
    ensures UnsignedValue(Numerals.Decimal(n)) == n as real
    ensures Numerals.Decimal(n)[0] != '-'
  {
    var t := Numerals.Decimal(n);
    Numerals.DecimalReadsBack(n);
    PointOf(t, "");
    assert t + "" == t && t[..|t|] == t;
  }

  lemma PointedNumberDenotes(n: nat, fraction: string)
    ensures UnsignedValue(Numerals.Decimal(n) + "." + fraction) == n as real + FractionValue(fraction)
    ensures (Numerals.Decimal(n) + "." + fraction)[0] != '-'
  {
    var whole := Numerals.Decimal(n);
    var t := whole + "." + fraction;
    Numerals.DecimalReadsBack(n);
    assert t == whole + ("." + fraction);
    PointOf(whole, "." + fraction);
    assert t[..|whole|] == whole && t[|whole| + 1..] == fraction;
    assert t[0] == whole[0] && Numerals.IsDigit(whole[0]);
  }

  lemma NegatedText(t: string)
    requires t == "" || t[0] != '-'
    ensures TextValue(t) == UnsignedValue(t) && TextValue("-" + t) == -UnsignedValue(t)
  {
    assert ("-" + t)[1..] == t;
  }

  lemma NegatedRatio(u: int, p: int)
    requires p > 0
    ensures Ratio(-u, p) == -Ratio(u, p)
  {}

  lemma SplitDenotes(whole: nat, r: nat, s: nat)
    requires r < Pow10(s)
    ensures var t := if r == 0 then Numerals.Decimal(whole) else Numerals.Decimal(whole) + "." + FractionDigits(r, s);
            UnsignedValue(t) == whole as real + Ratio(r, Pow10(s)) && t != "" && t[0] != '-'
  {
    hide Ratio, UnsignedValue, FractionValue, FractionDigits, Numerals.Decimal, Pow10;
    if r == 0 {
      WholeRatio(Pow10(s));
      PlainNumberDenotes(whole);
    } else {
      FractionDenotes(r, s);
      PointedNumberDenotes(whole, FractionDigits(r, s));
    }
  }

  lemma UnsignedFormatDenotes(u: nat, s: nat)
    ensures var t := FormatUnsigned(u, s); UnsignedValue(t) == Ratio(u, Pow10(s)) && t != "" && t[0] != '-'
  {
    hide Ratio, UnsignedValue, FractionDigits, Pow10;
    Division(u, Pow10(s));
    WholeAndRest(u / Pow10(s), u % Pow10(s), Pow10(s));
    SplitDenotes(u / Pow10(s), u % Pow10(s), s);
  }

  lemma WholeRatio(p: int)
    requires p > 0
    ensures Ratio(0, p) == 0.0
  {}

  /** The rendered text denotes exactly the quantity it was rendered from. */
  lemma FormatDenotes(d: Decimal)
    ensures TextValue(FormatQuantity(d)) == d.Value()
  {
    hide Ratio, UnsignedValue, TextValue, FormatUnsigned;
    var magnitude := if d.unscaled < 0 then -d.unscaled else d.unscaled;
    UnsignedFormatDenotes(magnitude, d.scale);
    NegatedText(FormatUnsigned(magnitude, d.scale));
    NegatedRatio(d.unscaled, Pow10(d.scale));
  }

  lemma TenfoldDivision(r: nat, p: nat)
    requires p > 0
    ensures (10 * r) / (10 * p) == r / p && (10 * r) % (10 * p) == 10 * (r % p)
  {
    Division(r, p);
    assert 10 * r == (r / p) * (10 * p) + 10 * (r % p);
    QuotientOf(r / p, 10 * (r % p), 10 * p);
  }

  lemma {:induction false} TenfoldFraction(r: nat, s: nat)
    requires 0 < r < Pow10(s)
    ensures FractionDigits(10 * r, s + 1) == FractionDigits(r, s)
    decreases s
  {
    var d, rest, p := FractionUnfolds(r, s);
    TenfoldDivision(r, p);
    QuotientOf(d, rest, p);
    if rest != 0 { TenfoldFraction(rest, s - 1); }
  }

  lemma TenfoldFormat(u: nat, s: nat)
    ensures FormatUnsigned(10 * u, s + 1) == FormatUnsigned(u, s)
  {
    TenfoldDivision(u, Pow10(s));
    Division(u, Pow10(s));
    if u % Pow10(s) != 0 { TenfoldFraction(u % Pow10(s), s); }
  }

  lemma {:induction false} RescaledFormat(u: nat, s: nat, shift: nat)
    ensures FormatUnsigned(u * Pow10(shift), s + shift) == FormatUnsigned(u, s)
    decreases shift
  {
    hide FormatUnsigned;
    if shift == 0 {
      assert u * Pow10(0) == u;
    } else {
      RescaledFormat(u, s, shift - 1);
      OneMorePlace(u, shift);
      var v := u * Pow10(shift - 1);
      TenfoldFormat(v, s + shift - 1);
      assert u * Pow10(shift) == 10 * v;
    }
  }

  lemma OneMorePlace(u: nat, shift: nat)
    requires shift > 0
    ensures 0 <= u * Pow10(shift - 1) && u * Pow10(shift) == 10 * (u * Pow10(shift - 1))
  {}

  lemma EqualRatio(u: int, v: int, p: int)
    requires p > 0 && Ratio(u, p) == Ratio(v, p)
    ensures u == v
  {
    RatioTimes(u, p);
    RatioTimes(v, p);
  }

  lemma EqualValuesFormatAlike(a: Decimal, b: Decimal)
    requires a.Value() == b.Value() && a.scale <= b.scale
    ensures FormatQuantity(a) == FormatQuantity(b)
  {
    hide Ratio, FormatUnsigned, Pow10;
    var shift := b.scale - a.scale;
    var r := Rescale(a, shift);
    EqualRatio(r.unscaled, b.unscaled, Pow10(b.scale));
    RescaledUnscaled(a, shift);
    SignOfProduct(a.unscaled, Pow10(shift));
    if a.unscaled < 0 {
      RescaledFormat(-a.unscaled, a.scale, shift);
    } else {
      RescaledFormat(a.unscaled, a.scale, shift);
    }
  }

  lemma RescaledUnscaled(d: Decimal, shift: nat)
    ensures Rescale(d, shift) == Decimal(d.unscaled * Pow10(shift), d.scale + shift)
  {}

  lemma SignOfProduct(u: int, p: int)
    requires p > 0
    ensures u < 0 <==> u * p < 0
    ensures (-u) * p == -(u * p)
  {}

  /** The text depends on the number only, not on how many decimal places it was computed with, and
      different numbers have different texts. */
  lemma FormatIsCanonical(a: Decimal, b: Decimal)
    ensures FormatQuantity(a) == FormatQuantity(b) <==> a.Value() == b.Value()
  {
    FormatDenotes(a);
    FormatDenotes(b);
    hide FormatQuantity, Ratio, TextValue;
    if a.Value() == b.Value() {
      if a.scale <= b.scale { EqualValuesFormatAlike(a, b); } else { EqualValuesFormatAlike(b, a); }
    }
  }

  // ---------------------------------------------------------------- supply

  /** One MRP element as the gateway reported it: indicator trimmed and upper-cased, date trimmed, quantity
      absent when it is missing or not a number. */
  datatype RawLine = NotAMapping | RawLine(indicator: string, quantity: Option<Decimal>, date: string)

  datatype SupplyLine = SupplyLine(indicator: string, quantity: Decimal, date: string, included: bool)

  datatype GapCalculation = GapCalculation(
    requiredQuantity: Decimal,
    stock: Decimal,
    included: seq<SupplyLine>,
    excluded: seq<SupplyLine>,
    supplyTotal: Decimal,
    gap: Decimal)

  predicate InTransit(indicator: string) { indicator == "BA" || indicator == "BE" }

  /** Is the element supply at the target date? Stock always is; a requisition or an order only with a date
      not after the target; every other element never. */
  predicate Counts(raw: RawLine, target: string) {
    raw.RawLine? && raw.quantity.Some?
    && (raw.indicator == "WB" || (InTransit(raw.indicator) && raw.date != "" && AtMost(raw.date, target)))
  }

  predicate Late(raw: RawLine, target: string) {
    raw.RawLine? && raw.quantity.Some? && InTransit(raw.indicator) && !Counts(raw, target)
  }

  function Contribution(raw: RawLine, target: string): real {
    if Counts(raw, target) then raw.quantity.value.Value() else 0.0
  }

  /** What is available by the target date. */
  function Supply(lines: seq<RawLine>, target: string): real {
    if lines == [] then 0.0 else Supply(lines[..|lines| - 1], target) + Contribution(lines[|lines| - 1], target)
  }

  function Included(lines: seq<RawLine>, target: string): seq<SupplyLine> {
    if lines == [] then []
    else
      var raw := lines[|lines| - 1];
      Included(lines[..|lines| - 1], target)
      + if Counts(raw, target) then [SupplyLine(raw.indicator, raw.quantity.value, raw.date, true)] else []
  }

  function Excluded(lines: seq<RawLine>, target: string): seq<SupplyLine> {
    if lines == [] then []
    else
      var raw := lines[|lines| - 1];
      Excluded(lines[..|lines| - 1], target)
      + if Late(raw, target) then [SupplyLine(raw.indicator, raw.quantity.value, raw.date, false)] else []
  }

  function Total(lines: seq<SupplyLine>): real {
    if lines == [] then 0.0 else Total(lines[..|lines| - 1]) + lines[|lines| - 1].quantity.Value()
  }

  lemma TotalSnoc(lines: seq<SupplyLine>, last: SupplyLine)
    ensures Total(lines + [last]) == Total(lines) + last.quantity.Value()
  {
    assert (lines + [last])[..|lines|] == lines;
  }

  /** The supply is the sum of the included lines. */
  lemma {:induction false} SupplyIsTotal(lines: seq<RawLine>, target: string)
    ensures Supply(lines, target) == Total(Included(lines, target))
  {
    if lines != [] {
      var raw, before := lines[|lines| - 1], lines[..|lines| - 1];
      SupplyIsTotal(before, target);
      if Counts(raw, target) {
        TotalSnoc(Included(before, target), SupplyLine(raw.indicator, raw.quantity.value, raw.date, true));
      } else {
        assert Included(lines, target) == Included(before, target) + [] == Included(before, target);
      }
    }
  }

  predicate IsStock(line: SupplyLine) { line.indicator == "WB" }

  function TotalOf(lines: seq<SupplyLine>, stock: bool): real {
    if lines == [] then 0.0
    else
      var last := lines[|lines| - 1];
      TotalOf(lines[..|lines| - 1], stock) + if IsStock(last) == stock then last.quantity.Value() else 0.0
  }

  lemma {:induction false} StockAndTransit(lines: seq<SupplyLine>)
    ensures TotalOf(lines, true) + TotalOf(lines, false) == Total(lines)
  {
    if lines != [] { StockAndTransit(lines[..|lines| - 1]); }
  }

  lemma TotalOfSnoc(lines: seq<SupplyLine>, last: SupplyLine, stock: bool)
    ensures TotalOf(lines + [last], stock) == TotalOf(lines, stock) + if IsStock(last) == stock then last.quantity.Value() else 0.0
  {
    assert (lines + [last])[..|lines|] == lines;
  }

  method SumInTransit(lines: seq<SupplyLine>) returns (sum: Decimal)
    ensures sum.Value() == TotalOf(lines, false)
  {
    sum := ZERO;
    for i := 0 to |lines|
      invariant sum.Value() == TotalOf(lines[..i], false)
    {
      assert lines[..i + 1] == lines[..i] + [lines[i]];
      TotalOfSnoc(lines[..i], lines[i], false);
      if !IsStock(lines[i]) { sum := Plus(sum, lines[i].quantity); }
    }
    assert lines[..|lines|] == lines;
  }

  /** The gap and the supply add up to the requirement, and the supply is exactly what counts by the date. */
  method ComputeReplenishmentGap(requiredQuantity: Option<Decimal>, target: string, lines: Option<seq<RawLine>>)
    returns (result: Option<GapCalculation>)
    ensures result.Some? <==> requiredQuantity.Some? && lines.Some?
    ensures result.Some? ==>
              && result.value.requiredQuantity == requiredQuantity.value
              && result.value.included == Included(lines.value, target)
              && result.value.excluded == Excluded(lines.value, target)
              && result.value.stock.Value() == TotalOf(result.value.included, true)
              && result.value.supplyTotal.Value() == Supply(lines.value, target)
              && result.value.gap.Value() + result.value.supplyTotal.Value() == requiredQuantity.value.Value()
  {
    if requiredQuantity.None? || lines.None? { return None; }
    var stock := ZERO;
    var included: seq<SupplyLine>, excluded: seq<SupplyLine> := [], [];
    for i := 0 to |lines.value|
      invariant included == Included(lines.value[..i], target) && excluded == Excluded(lines.value[..i], target)
      invariant stock.Value() == TotalOf(included, true)
    {
      var raw := lines.value[i];
      assert lines.value[..i + 1][..i] == lines.value[..i];
      if raw.RawLine? && raw.indicator != "" && raw.quantity.Some? {
        var qty := raw.quantity.value;
        if raw.indicator == "WB" {
          TotalOfSnoc(included, SupplyLine(raw.indicator, qty, raw.date, true), true);
          stock := Plus(stock, qty);
          included := included + [SupplyLine(raw.indicator, qty, raw.date, true)];
        } else if InTransit(raw.indicator) {
          var inTime := raw.date != "" && AtMost(raw.date, target);
          var line := SupplyLine(raw.indicator, qty, raw.date, inTime);
          TotalOfSnoc(included, line, true);
          if inTime { included := included + [line]; } else { excluded := excluded + [line]; }
        }
      }
    }
    assert lines.value[..|lines.value|] == lines.value;
    var transit := SumInTransit(included);
    StockAndTransit(included);
    SupplyIsTotal(lines.value, target);
    var supply := Plus(stock, transit);
    result := Some(GapCalculation(requiredQuantity.value, stock, included, excluded, supply, Minus(requiredQuantity.value, supply)));
  }

  /** What one more line does, told from its indicator, quantity and date: stock always counts, a requisition or an
      order counts when its date is given and not after the target and is listed as excluded otherwise, and
      no other line does anything. */
  lemma OneLineMore(lines: seq<RawLine>, raw: RawLine, target: string)
    ensures var more := lines + [raw];
            var (supply, included, excluded) := (Supply(lines, target), Included(lines, target), Excluded(lines, target));
            if raw.RawLine? && raw.quantity.Some? && raw.indicator == "WB" then
              && Supply(more, target) == supply + raw.quantity.value.Value()
              && Included(more, target) == included + [SupplyLine("WB", raw.quantity.value, raw.date, true)]
              && Excluded(more, target) == excluded
            else if raw.RawLine? && raw.quantity.Some? && (raw.indicator == "BA" || raw.indicator == "BE") then
              if raw.date != "" && (raw.date == target || Before(raw.date, target)) then
                && Supply(more, target) == supply + raw.quantity.value.Value()
                && Included(more, target) == included + [SupplyLine(raw.indicator, raw.quantity.value, raw.date, true)]
                && Excluded(more, target) == excluded
              else
                && Supply(more, target) == supply && Included(more, target) == included
                && Excluded(more, target) == excluded + [SupplyLine(raw.indicator, raw.quantity.value, raw.date, false)]
            else Supply(more, target) == supply && Included(more, target) == included && Excluded(more, target) == excluded
  {
    var more := lines + [raw];
    assert more[..|more| - 1] == lines && more[|more| - 1] == raw;
    assert Included(lines, target) + [] == Included(lines, target) && Excluded(lines, target) + [] == Excluded(lines, target);
    hide Decimal.Value;
  }

  // ---------------------------------------------------------------- order and dates do what they should

  lemma {:induction false} SupplyWithout(lines: seq<RawLine>, i: nat, target: string)
    requires i < |lines|
    ensures Supply(lines, target) == Supply(lines[..i] + lines[i + 1..], target) + Contribution(lines[i], target)
  {
    var k, without := |lines| - 1, lines[..i] + lines[i + 1..];
    if i == k {
      assert without == lines[..k];
    } else {
      SupplyWithout(lines[..k], i, target);
      assert without[..|without| - 1] == lines[..k][..i] + lines[..k][i + 1..];
      assert without[|without| - 1] == lines[k];
    }
  }

  lemma TakeOut<T>(s: seq<T>, i: nat)
    requires i < |s|
    ensures multiset(s[..i] + s[i + 1..]) == multiset(s) - multiset{s[i]}
  {
    assert s == s[..i] + ([s[i]] + s[i + 1..]);
  }

  /** The supply does not depend on the order in which the elements were reported. */
  lemma {:induction false} SupplyIgnoresOrder(a: seq<RawLine>, b: seq<RawLine>, target: string)
    requires multiset(a) == multiset(b)
    ensures Supply(a, target) == Supply(b, target)
  {
    hide Contribution;
    if a == [] {
      assert |multiset(b)| == 0;
    } else {
      var k := |a| - 1;
      assert a[k] in multiset(b);
      var i :| 0 <= i < |b| && b[i] == a[k];
      var rest := b[..i] + b[i + 1..];
      TakeOut(a, k);
      TakeOut(b, i);
      assert a[..k] + a[k + 1..] == a[..k];
      SupplyIgnoresOrder(a[..k], rest, target);
      SupplyWithout(b, i, target);
    }
  }

  lemma LaterStillCounts(raw: RawLine, target: string, later: string)
    requires AtMost(target, later) && Counts(raw, target)
    ensures Counts(raw, later)
  {
    if raw.indicator != "WB" && raw.date != target && target != later {
      BeforeTransitive(raw.date, target, later);
    }
  }

  ghost predicate NonNegative(lines: seq<RawLine>) {
    forall raw :: raw in lines && raw.RawLine? && raw.quantity.Some? ==> raw.quantity.value.Value() >= 0.0
  }

  /** A later target date only adds included lines, and, without negative quantities, only adds supply. */
  lemma {:induction false} LaterTargetIncludesMore(lines: seq<RawLine>, target: string, later: string)
    requires AtMost(target, later)
    ensures multiset(Included(lines, target)) <= multiset(Included(lines, later))
    ensures NonNegative(lines) ==> 0.0 <= Supply(lines, target) <= Supply(lines, later)
  {
    if lines != [] {
      var raw := lines[|lines| - 1];
      LaterTargetIncludesMore(lines[..|lines| - 1], target, later);
      assert raw in lines;
      assert forall r :: r in lines[..|lines| - 1] ==> r in lines;
      if Counts(raw, target) { LaterStillCounts(raw, target, later); }
    }
  }

  // ---------------------------------------------------------------- the proposal

  /** What the gateway answered to the availability READ. */
  datatype Reply = Reply(success: bool, errorType: string, hasAvailableQuantity: bool, unit: string, lines: Option<seq<RawLine>>)

  /** The numbers Python reads from a text, absent where it cannot. */
  type Reader = string -> Option<Decimal>

  datatype Preparation =
    | ReadFailed(errorType: string)
    | FactInvalid
    | UnitMismatch
    | Sufficient
    | Proposal(plan: Execution.CallPlan)

  function TargetOf(plan: Execution.CallPlan): string { Lookup(plan.parameters, "delivery_date").GetOr("") }

  function UnitOf(plan: Execution.CallPlan): string {
    var unit := Lookup(plan.parameters, "unit").GetOr("");
    if unit == "" then "EA" else unit
  }

  function RequiredOf(read: Reader, plan: Execution.CallPlan): Option<Decimal> {
    read(Lookup(plan.parameters, "quantity").GetOr(""))
  }

  /** A requirement and a supply that can be compared. */
  predicate Comparable(read: Reader, plan: Execution.CallPlan, reply: Reply) {
    && reply.success && reply.hasAvailableQuantity && reply.lines.Some? && RequiredOf(read, plan).Some?
    && (reply.unit == "" || reply.unit == UnitOf(plan))
  }

  /** The requirement that supply by the target date does not cover. */
  function Shortage(read: Reader, plan: Execution.CallPlan, reply: Reply): real
    requires Comparable(read, plan, reply)
  {
    RequiredOf(read, plan).value.Value() - Supply(reply.lines.value, TargetOf(plan))
  }

  /** An action plan for the same capability and parameters, but for the shortage and in the unit compared. */
  ghost predicate ProposesShortage(read: Reader, plan: Execution.CallPlan, reply: Reply, proposal: Execution.CallPlan) {
    && Comparable(read, plan, reply)
    && proposal.capabilityId == plan.capabilityId && proposal.kind == "Action" && proposal.requiresApproval
    && proposal.parameters.Keys == plan.parameters.Keys + {"quantity", "unit"}
    && (forall k :: k in plan.parameters && k != "quantity" && k != "unit" ==> proposal.parameters[k] == plan.parameters[k])
    && proposal.parameters["unit"] == UnitOf(plan)
    && TextValue(proposal.parameters["quantity"]) == Shortage(read, plan, reply)
  }

  /** Every outcome exactly when it is reported, told from plan and reply; a proposal is the same plan with the text
      of the shortage as its quantity and the unit that was compared. */
  method PrepareReplenishmentGap(read: Reader, plan: Execution.CallPlan, reply: Reply, traceId: string) returns (p: Preparation)
    ensures p.ReadFailed? <==> !reply.success
    ensures p.ReadFailed? ==> p.errorType == reply.errorType
    ensures var usable := reply.hasAvailableQuantity && reply.lines.Some? && read(Lookup(plan.parameters, "quantity").GetOr("")).Some?;
            var stated := Lookup(plan.parameters, "unit").GetOr("");
            var unit := if stated == "" then "EA" else stated;
            && (p.FactInvalid? <==> reply.success && !usable)
            && (p.UnitMismatch? <==> reply.success && usable && reply.unit != "" && reply.unit != unit)
            && (p.Sufficient? || p.Proposal? ==>
                  var gap := read(Lookup(plan.parameters, "quantity").GetOr("")).value.Value()
                             - Supply(reply.lines.value, Lookup(plan.parameters, "delivery_date").GetOr(""));
                  && (p.Sufficient? <==> gap <= 0.0)
                  && (p.Proposal? ==> TextValue(Lookup(p.plan.parameters, "quantity").GetOr("")) == gap && Lookup(p.plan.parameters, "unit") == Some(unit)))
    ensures p.Proposal? <==> Comparable(read, plan, reply) && Shortage(read, plan, reply) > 0.0
    ensures p.Proposal? ==> ProposesShortage(read, plan, reply, p.plan) && p.plan.agentTraceId == traceId
  {
    hide TextValue, Supply, Included, Excluded, TotalOf, FormatQuantity;
    if !reply.success { return ReadFailed(reply.errorType); }
    var result := ComputeReplenishmentGap(RequiredOf(read, plan), TargetOf(plan), reply.lines);
    if result.None? || !reply.hasAvailableQuantity { return FactInvalid; }
    if reply.unit != "" && reply.unit != UnitOf(plan) { return UnitMismatch; }
    var gap := result.value.gap;
    SignOf(gap);
    if gap.unscaled <= 0 { return Sufficient; }
    FormatDenotes(gap);
    var parameters := plan.parameters["quantity" := FormatQuantity(gap)];
    parameters := parameters["unit" := UnitOf(plan)];
    p := Proposal(Execution.CreateCallPlan(traceId, plan.capabilityId, parameters, "Action"));
  }

  lemma SignOf(d: Decimal)
    ensures d.Value() <= 0.0 <==> d.unscaled <= 0
  {}

  lemma {:induction false} NoNegativeSupply(lines: seq<RawLine>, target: string)
    requires NonNegative(lines)
    ensures Supply(lines, target) >= 0.0
  {
    if lines != [] {
      assert lines[|lines| - 1] in lines;
      assert forall r :: r in lines[..|lines| - 1] ==> r in lines;
      NoNegativeSupply(lines[..|lines| - 1], target);
    }
  }

  /** A proposed quantity is positive; it stays within the requirement exactly when the supply is not
      negative, as it is when no line is. */
  lemma ProposalWithinRequirement(read: Reader, plan: Execution.CallPlan, reply: Reply, proposal: Execution.CallPlan)
    requires ProposesShortage(read, plan, reply, proposal) && Shortage(read, plan, reply) > 0.0
    ensures 0.0 < TextValue(proposal.parameters["quantity"])
    ensures TextValue(proposal.parameters["quantity"]) <= RequiredOf(read, plan).value.Value()
            <==> Supply(reply.lines.value, TargetOf(plan)) >= 0.0
    ensures NonNegative(reply.lines.value) ==> Supply(reply.lines.value, TargetOf(plan)) >= 0.0
  {
    hide TextValue;
    if NonNegative(reply.lines.value) { NoNegativeSupply(reply.lines.value, TargetOf(plan)); }
  }

  // A plan for ten pieces, answered with a stock line of minus five.

  const TEN_READ: Reader := t => if t == "10" then Some(Decimal(10, 0)) else None

  const PLAN_FOR_TEN :=
    Execution.CreateCallPlan("t", "MM.PR.CreateDraft",
                             map["quantity" := "10", "unit" := "EA", "delivery_date" := "2026-08-01"], "Action")

  const MINUS_FIVE_STOCK := Reply(true, "", true, "EA", Some([RawLine("WB", Some(Decimal(-5, 0)), "")]))

  /** Negative stock, which the availability READ can report, is supply too: ten pieces are required, and
      whatever is proposed for them is a plan for fifteen. */
  lemma NegativeStockExceedsRequirement(proposal: Execution.CallPlan)
    requires ProposesShortage(TEN_READ, PLAN_FOR_TEN, MINUS_FIVE_STOCK, proposal)
    ensures RequiredOf(TEN_READ, PLAN_FOR_TEN).value.Value() == 10.0
    ensures TextValue(proposal.parameters["quantity"]) == 15.0
  {
    hide TextValue;
    NegativeStock(TargetOf(PLAN_FOR_TEN));
  }

  lemma NegativeStock(target: string)
    ensures Supply([RawLine("WB", Some(Decimal(-5, 0)), "")], target) == -5.0
  {
    var lines := [RawLine("WB", Some(Decimal(-5, 0)), "")];
    assert lines[..0] == [];
    assert Supply([], target) == 0.0;
  }

  /** There is such a proposal, and it is what `PrepareReplenishmentGap` answers. */
  lemma FifteenIsProposed()
    ensures var parameters := PLAN_FOR_TEN.parameters["quantity" := FormatQuantity(Decimal(15, 0))];
            && ProposesShortage(TEN_READ, PLAN_FOR_TEN, MINUS_FIVE_STOCK,
                                Execution.CreateCallPlan("t", PLAN_FOR_TEN.capabilityId, parameters, "Action"))
            && Shortage(TEN_READ, PLAN_FOR_TEN, MINUS_FIVE_STOCK) > 0.0
  {
    hide TextValue, FormatQuantity;
    NegativeStock(TargetOf(PLAN_FOR_TEN));
    FormatDenotes(Decimal(15, 0));
  }

  // ---------------------------------------------------------------- full-dates

  /** A date of section 5.6 of RFC 3339, which prints as `YYYY-MM-DD`. */
  datatype FullDate = FullDate(year: nat, month: nat, day: nat) {
    predicate Valid() { year < 10000 && month < 100 && day < 100 }

    function Text(): string { Padded(year, 4) + ("-" + (Padded(month, 2) + ("-" + Padded(day, 2)))) }
  }

  predicate Earlier(a: FullDate, b: FullDate) {
    a.year < b.year || (a.year == b.year && (a.month < b.month || (a.month == b.month && a.day < b.day)))
  }

  function Padded(n: nat, width: nat): string {
    if width == 0 then "" else Padded(n / 10, width - 1) + [Numerals.DigitChar(n % 10)]
  }

  lemma {:induction false} PaddedOrder(n: nat, m: nat, width: nat, x: string, y: string)
    requires n < Pow10(width) && m < Pow10(width)
    ensures Before(Padded(n, width) + x, Padded(m, width) + y) <==> n < m || (n == m && Before(x, y))
  {
    if width == 0 {
      assert Padded(n, 0) + x == x && Padded(m, 0) + y == y;
    } else {
      var c, d := Numerals.DigitChar(n % 10), Numerals.DigitChar(m % 10);
      assert Padded(n, width) + x == Padded(n / 10, width - 1) + ([c] + x);
      assert Padded(m, width) + y == Padded(m / 10, width - 1) + ([d] + y);
      PaddedOrder(n / 10, m / 10, width - 1, [c] + x, [d] + y);
      assert ([c] + x)[1..] == x && ([d] + y)[1..] == y;
      assert c < d <==> n % 10 < m % 10;
    }
  }

  lemma SeparatorOrder(x: string, y: string)
    ensures Before("-" + x, "-" + y) <==> Before(x, y)
  {
    assert ("-" + x)[1..] == x && ("-" + y)[1..] == y;
  }

  /** Comparing the texts of two dates compares the dates. */
  lemma TextOrderIsCalendarOrder(a: FullDate, b: FullDate)
    requires a.Valid() && b.Valid()
    ensures Before(a.Text(), b.Text()) <==> Earlier(a, b)
    ensures AtMost(a.Text(), b.Text()) <==> !Earlier(b, a)
  {
    DateOrder(a, b);
    DateOrder(b, a);
    BeforeTotal(a.Text(), b.Text());
    if a.Text() == b.Text() { BeforeIrreflexive(a.Text()); }
    if Before(a.Text(), b.Text()) { BeforeAsymmetric(a.Text(), b.Text()); }
  }

  lemma DateOrder(a: FullDate, b: FullDate)
    requires a.Valid() && b.Valid()
    ensures Before(a.Text(), b.Text()) <==> Earlier(a, b)
  {
    hide Padded, Before;
    assert Pow10(2) == 100 && Pow10(4) == 10000 by { assert Pow10(3) == 1000; }
    var dayA, dayB := Padded(a.day, 2), Padded(b.day, 2);
    var monthA, monthB := Padded(a.month, 2) + ("-" + dayA), Padded(b.month, 2) + ("-" + dayB);
    PaddedOrder(a.year, b.year, 4, "-" + monthA, "-" + monthB);
    SeparatorOrder(monthA, monthB);
    PaddedOrder(a.month, b.month, 2, "-" + dayA, "-" + dayB);
    SeparatorOrder(dayA, dayB);
    PaddedOrder(a.day, b.day, 2, "", "");
    BeforeIrreflexive("");
    assert dayA + "" == dayA && dayB + "" == dayB;
  }
}
