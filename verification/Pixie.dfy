/**
 The sliding-scale margin (apps/api/src/domains/pixie/pixie.algorithm.ts) over
 exact reals, with the decimal rounding and printing of Number.prototype.toFixed
 (section 21.1.3.3 of ECMA-262).
 */
module Pixie {
  import opened Wrappers

  // ---------------------------------------------------------------- toFixed

  function Abs(x: real): real { if x < 0.0 then -x else x }

  function Pow10(f: nat): (p: int)
    ensures p >= 1
  {
    if f == 0 then 1 else 10 * Pow10(f - 1)
  }

  function Times(a: real, b: real): (r: real)
    ensures a >= 0.0 && b >= 0.0 ==> r >= 0.0
  {
    a * b
  }

  function Scaled(x: real, f: nat): real { Times(x, Pow10(f) as real) }

  /** The number n units of the f-th decimal place make. */
  function Ratio(n: int, f: nat): real { n as real / Pow10(f) as real }

  /** The integer n with n / 10^f nearest to x >= 0, the larger one on a tie. */
  function Nearest(x: real, f: nat): (n: nat)
    requires x >= 0.0
  {
    (Scaled(x, f) + 0.5).Floor
  }

  function Digit(d: nat): char
    requires d < 10
  {
    '0' + d as char
  }

  function Digits(n: nat): string {
    if n < 10 then [Digit(n)] else Digits(n / 10) + [Digit(n % 10)]
  }

  function Zeros(k: nat): string { seq(k, _ => '0') }

  function Padded(n: nat, f: nat): (z: string)
    ensures |z| > f
  {
    var m := Digits(n);
    if |m| <= f then Zeros(f + 1 - |m|) + m else m
  }

  /** The digits of n with a point before the last f of them, zeros in front where there are too few. */
  function Pointed(n: nat, f: nat): string {
    if f == 0 then Digits(n)
    else
      var z := Padded(n, f);
      z[..|z| - f] + "." + z[|z| - f..]
  }

  /** From 10^21 on toFixed hands over to the ordinary, exact conversion to text. */
  datatype Numeral = Text(text: string) | Large(exact: real)

  const LARGE := 1_000_000_000_000_000_000_000.0

  function ToFixed(x: real, f: nat): Numeral {
    if Abs(x) >= LARGE then Large(x)
    else if x < 0.0 then Text("-" + Pointed(Nearest(-x, f), f))
    else Text(Pointed(Nearest(x, f), f))
  }

  predicate IsDigit(c: char) { '0' <= c <= '9' }

  function ReadDigits(s: string): nat
    requires forall c | c in s :: IsDigit(c)
  {
    if s == [] then 0
    else
      var last := s[|s| - 1];
      assert IsDigit(last);
      10 * ReadDigits(s[..|s| - 1]) + (last - '0') as nat
  }

  function PointAt(s: string): (k: nat)
    ensures k <= |s|
    ensures k < |s| ==> s[k] == '.'
    ensures '.' !in s[..k]
  {
    if s == [] || s[0] == '.' then 0
    else
      var k := PointAt(s[1..]);
      assert s[..k + 1] == [s[0]] + s[1..][..k];
      k + 1
  }

  /** A reader of optionally signed decimal numerals; digits are needed before the point, and after it if there is one. */
  function ReadUnsigned(s: string): Option<real> {
    var k := PointAt(s);
    var whole := s[..k];
    var rest := if k < |s| then s[k + 1..] else [];
    if whole == [] || (k < |s| && rest == []) || exists c :: c in whole + rest && !IsDigit(c) then None
    else Some(Ratio(ReadDigits(whole + rest), |rest|))
  }

  function Read(t: Numeral): Option<real> {
    if t.Large? then Some(t.exact)
    else if t.text != [] && t.text[0] == '-' then
      match ReadUnsigned(t.text[1..])
      case None => None
      case Some(v) => Some(-v)
    else ReadUnsigned(t.text)
  }

  lemma {:induction false} DigitsRead(n: nat)
    ensures Digits(n) != [] && forall c | c in Digits(n) :: IsDigit(c)
    ensures ReadDigits(Digits(n)) == n
  {
    if n >= 10 {
      DigitsRead(n / 10);
      var d := Digits(n);
      assert d[..|d| - 1] == Digits(n / 10);
    }
  }

  lemma {:induction false} ZerosRead(k: nat, s: string)
    requires forall c | c in s :: IsDigit(c)
    ensures forall c | c in Zeros(k) + s :: IsDigit(c)
    ensures ReadDigits(Zeros(k) + s) == ReadDigits(s)
    decreases |s|, k
  {
    var t := Zeros(k) + s;
    if s != [] {
      assert t[..|t| - 1] == Zeros(k) + s[..|s| - 1];
      ZerosRead(k, s[..|s| - 1]);
    } else if k > 0 {
      assert t[..|t| - 1] == Zeros(k - 1) + s;
      ZerosRead(k - 1, s);
    } else {
      assert t == s;
    }
  }

  lemma PointIsThere(whole: string, rest: string)
    requires forall c | c in whole :: IsDigit(c)
    ensures PointAt(whole) == |whole|
    ensures PointAt(whole + "." + rest) == |whole|
  {
    var s := whole + "." + rest;
    assert s[|whole|] == '.' && forall i | 0 <= i < |whole| :: s[i] == whole[i] && IsDigit(whole[i]);
    assert forall i | 0 <= i < PointAt(s) :: s[i] in s[..PointAt(s)];
  }

  lemma SplitRead(whole: string, rest: string)
    requires whole != [] && rest != []
    requires forall c | c in whole + rest :: IsDigit(c)
    ensures ReadUnsigned(whole + "." + rest) == Some(Ratio(ReadDigits(whole + rest), |rest|))
  {
    var s := whole + "." + rest;
    assert forall c | c in whole :: c in whole + rest;
    PointIsThere(whole, rest);
    assert s[..|whole|] == whole && s[|whole| + 1..] == rest;
  }

  lemma WholeRead(m: string)
    requires m != [] && forall c | c in m :: IsDigit(c)
    ensures ReadUnsigned(m) == Some(Ratio(ReadDigits(m), 0))
  {
    PointIsThere(m, []);
    assert m[..|m|] + [] == m;
  }

  lemma PaddedRead(n: nat, f: nat)
    ensures forall c | c in Padded(n, f) :: IsDigit(c)
    ensures ReadDigits(Padded(n, f)) == n
  {
    hide Digits, ReadDigits, Zeros, IsDigit;
    var m := Digits(n);
    DigitsRead(n);
    if |m| <= f { ZerosRead(f + 1 - |m|, m); }
  }

  lemma PointIsInPlace(n: nat, f: nat)
    requires f > 0
    ensures var t := Pointed(n, f); |t| > f + 1 && t[|t| - f - 1] == '.'
  {
  }

  lemma PointedRead(n: nat, f: nat)
    ensures Pointed(n, f) != [] && IsDigit(Pointed(n, f)[0])
    ensures ReadUnsigned(Pointed(n, f)) == Some(Ratio(n, f))
  {
    hide Digits, ReadDigits, ReadUnsigned, Padded, Ratio;
    if f == 0 {
      DigitsRead(n);
      WholeRead(Digits(n));
      assert Digits(n)[0] in Digits(n);
    } else {
      var z := Padded(n, f);
      PaddedRead(n, f);
      var whole, rest := z[..|z| - f], z[|z| - f..];
      assert whole + rest == z && z[0] in z;
      SplitRead(whole, rest);
    }
  }

  /** What toFixed prints, read back. */
  function Fixed(x: real, f: nat): real {
    if Abs(x) >= LARGE then x
    else if x < 0.0 then -Ratio(Nearest(-x, f), f)
    else Ratio(Nearest(x, f), f)
  }

  lemma ToFixedReads(x: real, f: nat)
    ensures Read(ToFixed(x, f)) == Some(Fixed(x, f))
    ensures ToFixed(x, f).Large? <==> Abs(x) >= 1_000_000_000_000_000_000_000.0
    ensures ToFixed(x, f).Large? ==> ToFixed(x, f).exact == x
    ensures ToFixed(x, f).Text? && f > 0 ==>
      var t := ToFixed(x, f).text; |t| > f + 1 && t[|t| - f - 1] == '.'
  {
    hide Nearest, Ratio, Pointed, ReadUnsigned;
    if Abs(x) < LARGE {
      var n := Nearest(if x < 0.0 then -x else x, f);
      PointedRead(n, f);
      if f > 0 { PointIsInPlace(n, f); }
      if x < 0.0 { assert ToFixed(x, f).text[1..] == Pointed(n, f); }
    }
  }

  // ---------------------------------------------------------------- rounding

  /** Nearest is off by at most half a unit, and any other integer is further away or an equally far smaller one. */
  lemma NearestIsNearest(x: real, f: nat, m: int)
    requires x >= 0.0
    ensures var scaled, n := Scaled(x, f), Nearest(x, f);
      && -0.5 < n as real - scaled <= 0.5
      && Abs(n as real - scaled) <= Abs(m as real - scaled)
      && (Abs(n as real - scaled) == Abs(m as real - scaled) ==> 0 <= m <= n)
  {
    var scaled := Scaled(x, f);
    var n := Nearest(x, f);
    if m > n { assert m as real >= n as real + 1.0; }
    if m < n { assert m as real <= n as real - 1.0; }
  }

  lemma Over(a: real, b: real, p: real)
    requires p > 0.0
    ensures Times(Abs(a / p - b), p) == Abs(a - Times(b, p))
  {
    assert (a / p - b) * p == a - b * p;
  }

  lemma Grows(a: real, b: real, p: real)
    requires p > 0.0 && a > b
    ensures Times(a, p) > Times(b, p)
  {
    assert (a - b) * p > 0.0;
  }

  lemma Cancels(a: real, b: real, p: real)
    requires p > 0.0 && Times(a, p) <= Times(b, p)
    ensures a <= b
  {
    if a > b { Grows(a, b, p); }
  }

  lemma RatiosGrow(k: int, n: int, f: nat)
    requires 0 <= k <= n
    ensures 0.0 <= Ratio(k, f) <= Ratio(n, f)
  {
    var p := Pow10(f) as real;
    hide Pow10;
    assert Times(Ratio(k, f), p) == k as real && Times(Ratio(n, f), p) == n as real && Times(0.0, p) == 0.0;
    Cancels(Ratio(k, f), Ratio(n, f), p);
    Cancels(0.0, Ratio(k, f), p);
  }

  /** toFixed is off by at most half a unit of its last digit. */
  lemma FixedIsClose(x: real, f: nat)
    ensures Times(Abs(Fixed(x, f) - x), Pow10(f) as real) <= 0.5
  {
    var y := Abs(x);
    NearestIsNearest(y, f, 0);
    Over(Nearest(y, f) as real, y, Pow10(f) as real);
    assert Times(0.0, Pow10(f) as real) == 0.0;
    assert y < LARGE ==> Abs(Fixed(x, f) - x) == Abs(Ratio(Nearest(y, f), f) - y);
  }

  lemma NearestAbove(y: real, f: nat, k: int)
    requires y >= 0.0
    ensures var here, there := Ratio(Nearest(y, f), f), Ratio(k, f);
      && Abs(here - y) <= Abs(there - y)
      && (Abs(here - y) == Abs(there - y) ==> 0.0 <= there <= here)
  {
    var n, p := Nearest(y, f), Pow10(f) as real;
    NearestIsNearest(y, f, k);
    Over(n as real, y, p);
    Over(k as real, y, p);
    hide Pow10, Nearest, Times;
    Cancels(Abs(Ratio(n, f) - y), Abs(Ratio(k, f) - y), p);
    if Abs(Ratio(n, f) - y) == Abs(Ratio(k, f) - y) {
      RatiosGrow(k, n, f);
    }
  }

  /** No other multiple of the unit is nearer, and of two equally near ones toFixed takes the one further from zero. */
  lemma FixedIsNearest(x: real, f: nat, m: int)
    requires Abs(x) < 1_000_000_000_000_000_000_000.0
    ensures var other := Ratio(m, f);
      && Abs(Fixed(x, f) - x) <= Abs(other - x)
      && (Abs(Fixed(x, f) - x) == Abs(other - x) ==> Abs(other) <= Abs(Fixed(x, f)))
  {
    hide Pow10, Nearest;
    var k := if x < 0.0 then -m else m;
    NearestAbove(Abs(x), f, k);
    RatioNegates(m, f);
  }

  lemma RatioNegates(m: int, f: nat)
    ensures Ratio(-m, f) == -Ratio(m, f)
  {
    hide Pow10;
    var p := Pow10(f) as real;
    assert Ratio(-m, f) * p == -Ratio(m, f) * p;
  }

  lemma UnitsGrow(x: real, y: real, f: nat)
    requires 0.0 <= x <= y
    ensures Ratio(Nearest(x, f), f) <= Ratio(Nearest(y, f), f)
  {
    hide Pow10, Times, Ratio;
    if x < y { Grows(y, x, Pow10(f) as real); }
    RatiosGrow(Nearest(x, f), Nearest(y, f), f);
  }

  lemma {:induction false} CastTimes(a: nat, p: int)
    ensures (a * p) as real == a as real * p as real
  {
    if a > 0 {
      CastTimes(a - 1, p);
      assert a * p == (a - 1) * p + p;
      assert a as real * p as real == (a - 1) as real * p as real + p as real;
    }
  }

  lemma WholeIsExact(a: nat, f: nat)
    ensures Ratio(Nearest(a as real, f), f) == a as real
  {
    var p := Pow10(f);
    assert Nearest(a as real, f) == a * p by { CastTimes(a, p); }
    CastTimes(a, p);
    TimesOver(a as real, p as real);
  }

  lemma TimesOver(a: real, p: real)
    requires p > 0.0
    ensures a * p / p == a
  {}

  /** Rounding keeps the order. */
  lemma FixedIsMonotone(x: real, y: real, f: nat)
    requires x <= y
    ensures Fixed(x, f) <= Fixed(y, f)
  {
    hide Pow10, Nearest, Ratio;
    WholeIsExact(1_000_000_000_000_000_000_000, f);
    if 0.0 <= x {
      UnitsGrow(x, y, f);
      if x < LARGE { UnitsGrow(x, LARGE, f); }
    } else if y < 0.0 {
      UnitsGrow(-y, -x, f);
      if -y < LARGE { UnitsGrow(-y, LARGE, f); }
    } else {
      RatiosGrow(0, Nearest(-x, f), f);
      RatiosGrow(0, Nearest(y, f), f);
    }
  }

  // ---------------------------------------------------------------- the margin

  datatype Inputs = Inputs(
    collectivePulls: real, partnerPulls: real, breakpoint: real, baseCost: real, baseCharge: real)

  datatype Error = BreakpointNotPositive | NegativeBase

  datatype Quote = Quote(costPerPull: Numeral, chargePerPull: Numeral, marginPerPull: Numeral, total: Numeral)

  function Cost(collectivePulls: real, breakpoint: real, baseCost: real): real
    requires breakpoint > 0.0
  {
    if collectivePulls >= breakpoint then baseCost
    else
      var ratio := collectivePulls / breakpoint;
      baseCost * (2.0 - ratio)
  }

  function ComputePixieMargin(i: Inputs): Result<Quote, Error> {
    if i.breakpoint <= 0.0 then Err(BreakpointNotPositive)
    else if i.baseCost < 0.0 || i.baseCharge < 0.0 then Err(NegativeBase)
    else
      var costPerPull := Cost(i.collectivePulls, i.breakpoint, i.baseCost);
      var marginPerPull := i.baseCharge - costPerPull;
      var total := Times(marginPerPull, i.partnerPulls);
      Ok(Quote(ToFixed(costPerPull, 4), ToFixed(i.baseCharge, 4), ToFixed(marginPerPull, 4), ToFixed(total, 2)))
  }

  /** The cost slides along the straight line from twice the base at no volume to the base at the breakpoint, and stays there. */
  lemma CostSlides(t: real, breakpoint: real, baseCost: real)
    requires breakpoint > 0.0
    ensures t <= 1.0 ==> Cost(t * breakpoint, breakpoint, baseCost) == (1.0 - t) * (2.0 * baseCost) + t * baseCost
    ensures t >= 1.0 ==> Cost(t * breakpoint, breakpoint, baseCost) == baseCost
  {
    TimesOver(t, breakpoint);
    if t > 1.0 { Grows(t, 1.0, breakpoint); }
    if t < 1.0 { Grows(1.0, t, breakpoint); }
  }

  /** Between two volumes the cost falls by at most baseCost / breakpoint a pull, across the breakpoint too: it is continuous and never rises. */
  lemma CostIsContinuousAndNeverRises(a: real, b: real, breakpoint: real, baseCost: real)
    requires breakpoint > 0.0 && baseCost >= 0.0 && a <= b
    ensures 0.0 <= (Cost(a, breakpoint, baseCost) - Cost(b, breakpoint, baseCost)) * breakpoint <= baseCost * (b - a)
    ensures Cost(b, breakpoint, baseCost) <= Cost(a, breakpoint, baseCost)
  {
    var p, q := Cost(a, breakpoint, baseCost), Cost(b, breakpoint, baseCost);
    var short := Short(a, breakpoint) - Short(b, breakpoint);
    CostTimesBreakpoint(a, breakpoint, baseCost);
    CostTimesBreakpoint(b, breakpoint, baseCost);
    hide Cost;
    assert (p - q) * breakpoint == baseCost * short;
    Scales(baseCost, 0.0, short);
    Scales(baseCost, short, b - a);
    Cancels(0.0, p - q, breakpoint);
  }

  function Short(collectivePulls: real, breakpoint: real): (s: real)
    ensures s >= 0.0
  {
    if collectivePulls >= breakpoint then 0.0 else breakpoint - collectivePulls
  }

  /** The surcharge over the base is proportional to how far the volume falls short of the breakpoint. */
  lemma CostTimesBreakpoint(collectivePulls: real, breakpoint: real, baseCost: real)
    requires breakpoint > 0.0
    ensures (Cost(collectivePulls, breakpoint, baseCost) - baseCost) * breakpoint
      == baseCost * Short(collectivePulls, breakpoint)
  {
    if collectivePulls < breakpoint {
      var ratio := collectivePulls / breakpoint;
      assert (baseCost * (2.0 - ratio) - baseCost) * breakpoint == baseCost * (breakpoint - ratio * breakpoint);
    }
  }

  /** The cost is never below the base, and at most twice the base exactly for volumes that are not negative (or a free base). */
  lemma WhenCostIsBounded(collectivePulls: real, breakpoint: real, baseCost: real)
    requires breakpoint > 0.0 && baseCost >= 0.0
    ensures baseCost <= Cost(collectivePulls, breakpoint, baseCost)
    ensures Cost(collectivePulls, breakpoint, baseCost) <= 2.0 * baseCost <==> collectivePulls >= 0.0 || baseCost == 0.0
  {
    var cost, short := Cost(collectivePulls, breakpoint, baseCost), Short(collectivePulls, breakpoint);
    CostTimesBreakpoint(collectivePulls, breakpoint, baseCost);
    assert collectivePulls >= 0.0 <==> short <= breakpoint;
    hide Cost, Short;
    SurchargeIsBounded(cost - baseCost, breakpoint, baseCost, short);
  }

  /** A surcharge in proportion to the shortfall is at least nothing, and at most the base exactly when the shortfall is at most the breakpoint. */
  lemma SurchargeIsBounded(surcharge: real, breakpoint: real, baseCost: real, short: real)
    requires breakpoint > 0.0 && baseCost >= 0.0 && short >= 0.0 && surcharge * breakpoint == baseCost * short
    ensures surcharge >= 0.0
    ensures surcharge <= baseCost <==> short <= breakpoint || baseCost == 0.0
  {
    assert Times(surcharge, breakpoint) == Times(short, baseCost) && Times(0.0, breakpoint) == 0.0;
    assert Times(breakpoint, baseCost) == Times(baseCost, breakpoint);
    assert baseCost == 0.0 ==> Times(short, baseCost) == 0.0;
    hide Times;
    Cancels(0.0, surcharge, breakpoint);
    if baseCost == 0.0 {
      Cancels(surcharge, 0.0, breakpoint);
    } else if short < breakpoint {
      Grows(breakpoint, short, baseCost);
      Cancels(surcharge, baseCost, breakpoint);
    } else if short == breakpoint {
      Cancels(surcharge, baseCost, breakpoint);
    } else {
      Grows(short, breakpoint, baseCost);
      if surcharge <= baseCost { NoLess(surcharge, baseCost, breakpoint); }
    }
  }

  lemma NoLess(a: real, b: real, p: real)
    requires p > 0.0 && a <= b
    ensures Times(a, p) <= Times(b, p)
  {
    assert (b - a) * p >= 0.0;
  }

  lemma Scales(a: real, b: real, c: real)
    requires a >= 0.0 && b <= c
    ensures a * b <= a * c
  {
    assert a * (c - b) >= 0.0;
  }

  predicate Accepts(i: Inputs) { i.breakpoint > 0.0 && i.baseCost >= 0.0 && i.baseCharge >= 0.0 }

  /** The figures behind a quote, before rounding. */
  function ExactCost(i: Inputs): real
    requires Accepts(i)
  {
    Cost(i.collectivePulls, i.breakpoint, i.baseCost)
  }

  function ExactMargin(i: Inputs): real
    requires Accepts(i)
  {
    i.baseCharge - ExactCost(i)
  }

  function ExactTotal(i: Inputs): real
    requires Accepts(i)
  {
    Times(ExactMargin(i), i.partnerPulls)
  }

  /** Exactly the malformed bases are refused, and a quote's texts read as the roundings of cost, charge, margin and total. */
  lemma QuoteReads(i: Inputs)
    ensures ComputePixieMargin(i).Ok? <==> Accepts(i)
    ensures Accepts(i) ==>
      var q := ComputePixieMargin(i).value;
      && Read(q.costPerPull) == Some(Fixed(ExactCost(i), 4))
      && Read(q.chargePerPull) == Some(Fixed(i.baseCharge, 4))
      && Read(q.marginPerPull) == Some(Fixed(ExactMargin(i), 4))
      && Read(q.total) == Some(Fixed(ExactTotal(i), 2))
  {
    if Accepts(i) {
      hide Cost, Times, ToFixed, Fixed;
      ToFixedReads(ExactCost(i), 4);
      ToFixedReads(i.baseCharge, 4);
      ToFixedReads(ExactMargin(i), 4);
      ToFixedReads(ExactTotal(i), 2);
    }
  }

  lemma Pow10s()
    ensures Pow10(2) == 100 && Pow10(4) == 10_000
  {
    assert Pow10(1) == 10 && Pow10(3) == 10 * Pow10(2);
  }

  lemma FixedPlaces(x: real)
    ensures Abs(Fixed(x, 2) - x) <= 0.005 && Abs(Fixed(x, 4) - x) <= 0.00005
  {
    Pow10s();
    FixedIsClose(x, 2);
    FixedIsClose(x, 4);
  }

  /** The published total against the published margin times the pulls. */
  lemma PublishedTotalIsClose(i: Inputs)
    requires Accepts(i)
    ensures var q := ComputePixieMargin(i).value;
      && Read(q.total).Some? && Read(q.marginPerPull).Some?
      && Abs(Read(q.total).value - Times(Read(q.marginPerPull).value, i.partnerPulls)) <= Abs(i.partnerPulls) * 0.00005 + 0.005
  {
    hide Times, Cost, Fixed, ToFixed;
    QuoteReads(i);
    FixedPlaces(ExactMargin(i));
    FixedPlaces(ExactTotal(i));
    TotalsDiffer(ExactMargin(i), Fixed(ExactMargin(i), 4), i.partnerPulls, Fixed(ExactTotal(i), 2));
  }

  lemma TotalsDiffer(margin: real, published: real, pulls: real, total: real)
    requires Abs(published - margin) <= 0.00005 && Abs(total - Times(margin, pulls)) <= 0.005
    ensures Abs(total - Times(published, pulls)) <= Abs(pulls) * 0.00005 + 0.005
  {
    TotalOfDrift(margin, published - margin, pulls, 0.00005);
  }

  lemma TotalOfDrift(margin: real, drift: real, pulls: real, bound: real)
    requires Abs(drift) <= bound
    ensures Abs(Times(margin + drift, pulls) - Times(margin, pulls)) <= Abs(pulls) * bound
  {
    var moved := drift * pulls;
    assert moved == Times(drift, pulls);
    assert Abs(moved) == Abs(pulls) * Abs(drift);
    Scales(Abs(pulls), Abs(drift), bound);
    assert Times(margin + drift, pulls) == Times(margin, pulls) + moved;
  }

  /** The published parts add up to the published charge but for three half units. */
  lemma PublishedPartsNearlyAddUp(i: Inputs)
    requires Accepts(i)
    ensures var q := ComputePixieMargin(i).value;
      && Read(q.costPerPull).Some? && Read(q.marginPerPull).Some? && Read(q.chargePerPull).Some?
      && Abs(Read(q.costPerPull).value + Read(q.marginPerPull).value - Read(q.chargePerPull).value) <= 0.00015
  {
    QuoteReads(i);
    hide Times, Cost, Fixed, ToFixed;
    FixedPlaces(ExactCost(i));
    FixedPlaces(i.baseCharge);
    FixedPlaces(ExactMargin(i));
  }

  predicate PartsAddUp(q: Quote) {
    var cost, margin, charge := Read(q.costPerPull), Read(q.marginPerPull), Read(q.chargePerPull);
    cost.Some? && margin.Some? && charge.Some? && cost.value + margin.value == charge.value
  }

  /** A price in ten-thousandths, the unit of the last digit published, and where toFixed stops rounding. */
  function Units(x: real): real { x * 10_000.0 }

  const LARGE_UNITS := 10_000_000_000_000_000_000_000_000.0

  function Part(x: real): real { x - x.Floor as real }

  /** Both are printed to the digit, cost and charge having fallen or risen alike, or the margin making up for it. */
  predicate PrintedPartsMeet(cost: real, charge: real) {
    var c, h := Part(cost), Part(charge);
    || (c < 0.5 <==> h < 0.5)
    || h - c > 0.5 || c - h > 0.5
    || (h - c == 0.5 && cost <= charge) || (c - h == 0.5 && charge < cost)
  }

  /** When cost and margin, in units and as published, add up to the charge; from 10^21 on figures are published unrounded. */
  predicate PartsMeet(cost: real, charge: real) {
    var margin := charge - cost;
    if cost < LARGE_UNITS && charge < LARGE_UNITS then PrintedPartsMeet(cost, charge)
    else if cost >= LARGE_UNITS && charge >= LARGE_UNITS then Abs(margin) >= LARGE_UNITS || Part(margin) == 0.0
    else if cost >= LARGE_UNITS then
      if Abs(margin) >= LARGE_UNITS then Part(charge) == 0.0 else Part(cost) == 0.0 && Part(charge) != 0.5
    else if Abs(margin) >= LARGE_UNITS then Part(cost) == 0.0 else Part(charge) == 0.0 && Part(cost) != 0.5
  }

  /** The published parts add up to the published charge to the digit exactly when their fractions of a unit say so. */
  lemma WhenPublishedPartsAddUp(i: Inputs)
    requires Accepts(i)
    ensures PartsAddUp(ComputePixieMargin(i).value) <==> PartsMeet(Units(ExactCost(i)), Units(i.baseCharge))
  {
    hide ExactCost, Fixed, Read, ComputePixieMargin, PartsMeet, Units;
    CostIsNotNegative(i);
    QuoteReads(i);
    FixedPartsMeet(ExactCost(i), i.baseCharge);
  }

  /** In particular a charge of whole ten-thousandths is missed, by one, only if the cost is halfway between two of them and at most the charge. */
  lemma WholeChargesAddUp(cost: real, charge: real)
    requires 0.0 <= cost < LARGE_UNITS && 0.0 <= charge < LARGE_UNITS && Part(charge) == 0.0
    ensures PartsMeet(cost, charge) <==> !(Part(cost) == 0.5 && cost <= charge)
  {
  }

  /** An instance: a cost of 1.00005 and a charge of 2 are published as 1.0001, 2.0000 and a margin of 1.0000. */
  lemma HalfwayCostsMiss(i: Inputs)
    requires Accepts(i) && i.collectivePulls >= i.breakpoint && i.baseCost == 1.00005 && i.baseCharge == 2.0
    ensures !PartsAddUp(ComputePixieMargin(i).value)
  {
    assert ExactCost(i) == 1.00005;
    hide ComputePixieMargin, PartsAddUp, ExactCost, PartsMeet;
    WhenPublishedPartsAddUp(i);
    assert Units(1.00005) == 10_000.5 && Units(2.0) == 20_000.0;
    WholeChargesAddUp(10_000.5, 20_000.0);
  }

  lemma CostIsNotNegative(i: Inputs)
    requires Accepts(i)
    ensures ExactCost(i) >= 0.0
  {
    WhenCostIsBounded(i.collectivePulls, i.breakpoint, i.baseCost);
  }

  /** What is published of a figure, in units. */
  function Published(x: real): real { if Abs(x) >= LARGE_UNITS then x else Rounded(x) as real }

  /** To the nearest integer, halves away from zero. */
  function Rounded(x: real): int {
    if x < 0.0 then -(-x + 0.5).Floor else (x + 0.5).Floor
  }

  lemma FixedIsPublished(x: real)
    ensures Units(Fixed(x, 4)) == Published(Units(x))
  {
    Pow10s();
  }

  lemma FixedPartsMeet(cost: real, charge: real)
    requires 0.0 <= cost && 0.0 <= charge
    ensures Fixed(cost, 4) + Fixed(charge - cost, 4) == Fixed(charge, 4) <==> PartsMeet(Units(cost), Units(charge))
  {
    FixedIsPublished(cost);
    FixedIsPublished(charge - cost);
    FixedIsPublished(charge);
    hide Fixed, Published, PartsMeet;
    assert Units(charge - cost) == Units(charge) - Units(cost);
    PublishedPartsMeet(Units(cost), Units(charge));
  }

  lemma PublishedPartsMeet(cost: real, charge: real)
    requires 0.0 <= cost && 0.0 <= charge
    ensures Published(cost) + Published(charge - cost) == Published(charge) <==> PartsMeet(cost, charge)
  {
    hide Rounded, Part, PrintedPartsMeet;
    var margin := charge - cost;
    if cost < LARGE_UNITS && charge < LARGE_UNITS {
      RoundedPartsMeet(cost, charge);
    } else {
      RoundedIsWhole(margin);
      RoundedIsWhole(charge);
      RoundedIsWhole(cost);
      if cost >= LARGE_UNITS && charge < LARGE_UNITS && Abs(margin) < LARGE_UNITS {
        OnlyCostIsLarge(cost, charge);
      }
      if charge >= LARGE_UNITS && cost < LARGE_UNITS && Abs(margin) < LARGE_UNITS {
        OnlyChargeIsLarge(cost, charge);
      }
    }
  }

  lemma WholeHasNoPart(n: int)
    ensures (n as real).Floor == n && Part(n as real) == 0.0
  {
  }

  lemma RoundedIsWhole(x: real)
    ensures Rounded(x) as real == x <==> Part(x) == 0.0
  {
    WholeHasNoPart(Rounded(x));
    if Part(x) == 0.0 {
      var n := x.Floor;
      assert x == n as real;
      RoundedWhole(n);
    }
  }

  lemma RoundedWhole(n: int)
    ensures Rounded(n as real) == n
  {
  }

  lemma RoundedShifts(n: int, x: real)
    requires 0.0 <= x
    ensures n as real >= x ==> Rounded(n as real - x) == n + (0.5 - x).Floor
    ensures n as real > x ==> Rounded(x - n as real) == -n - (0.5 - x).Floor
  {
    var y := 0.5 - x;
    assert (n as real + y).Floor == n + y.Floor;
  }

  /** Rounding a half up and down again loses one. */
  lemma HalvesMiss(x: real)
    requires 0.0 <= x
    ensures Rounded(x) + (0.5 - x).Floor == if Part(x) == 0.5 then 1 else 0
  {
    var n := x.Floor;
    assert (x + 0.5).Floor == if Part(x) < 0.5 then n else n + 1;
    assert (0.5 - x).Floor == if Part(x) <= 0.5 then -n else -n - 1;
  }

  lemma OnlyCostIsLarge(cost: real, charge: real)
    requires 0.0 <= charge < cost
    ensures cost + Rounded(charge - cost) as real == Rounded(charge) as real <==> Part(cost) == 0.0 && Part(charge) != 0.5
  {
    if Part(cost) == 0.0 {
      assert cost == cost.Floor as real;
      RoundedShifts(cost.Floor, charge);
      HalvesMiss(charge);
    } else {
      WholeHasNoPart(Rounded(charge) - Rounded(charge - cost));
    }
    hide Rounded, Part;
  }

  lemma OnlyChargeIsLarge(cost: real, charge: real)
    requires 0.0 <= cost < charge
    ensures Rounded(cost) as real + Rounded(charge - cost) as real == charge <==> Part(charge) == 0.0 && Part(cost) != 0.5
  {
    if Part(charge) == 0.0 {
      assert charge == charge.Floor as real;
      RoundedShifts(charge.Floor, cost);
      HalvesMiss(cost);
    } else {
      WholeHasNoPart(Rounded(cost) + Rounded(charge - cost));
    }
    hide Rounded, Part;
  }

  lemma RoundedPartsMeet(cost: real, charge: real)
    requires 0.0 <= cost && 0.0 <= charge
    ensures Rounded(cost) as real + Rounded(charge - cost) as real == Rounded(charge) as real <==> PrintedPartsMeet(cost, charge)
  {
    var c, h := Part(cost), Part(charge);
    var whole := charge.Floor - cost.Floor;
    assert Rounded(cost) == cost.Floor + if c < 0.5 then 0 else 1;
    assert Rounded(charge) == charge.Floor + if h < 0.5 then 0 else 1;
    if cost <= charge {
      assert charge - cost == whole as real + (h - c);
      assert Rounded(charge - cost) == whole + if h - c >= 0.5 then 1 else if h - c >= -0.5 then 0 else -1;
    } else {
      assert cost - charge == (-whole) as real + (c - h);
      assert Rounded(charge - cost) == whole - if c - h >= 0.5 then 1 else if c - h >= -0.5 then 0 else -1;
    }
  }

  /** More collective volume never raises the published cost per pull. */
  lemma PublishedCostNeverRises(i: Inputs, more: real)
    requires Accepts(i) && i.collectivePulls <= more
    ensures var before, after := ComputePixieMargin(i).value, ComputePixieMargin(i.(collectivePulls := more)).value;
      && Read(before.costPerPull).Some? && Read(after.costPerPull).Some?
      && Read(after.costPerPull).value <= Read(before.costPerPull).value
  {
    QuoteReads(i);
    QuoteReads(i.(collectivePulls := more));
    CostIsContinuousAndNeverRises(i.collectivePulls, more, i.breakpoint, i.baseCost);
    FixedIsMonotone(ExactCost(i.(collectivePulls := more)), ExactCost(i), 4);
  }
}