/** The mean of the aggregators' prices, rounded half-up once to 14 decimals and printed. */
module AggregatorAverage {
  import opened Basics
  import opened Trades
  import opened Decimal
  import opened RealMath
  import opened RobustStat

  const COMMON_DECIMALS: nat := 14
  const TARGET: nat := 100000000000000

  /** A published price: `price` divided by ten to `decimals`. A nil price is represented by 0. */
  datatype Update = Update(price: int, decimals: nat, time: nat)

  datatype Served = Served(text: string, latest: nat)

  /** An exact rational; big.Rat keeps it in lowest terms, which no result below depends on. */
  datatype Rat = Rat(num: int, den: int)

  predicate Contributes(u: Update) { u.price > 0 }

  function RealPrice(u: Update): real { u.price as real / Pow10(u.decimals) as real }

  function Sum(rows: seq<Update>): real {
    if rows == [] then 0.0
    else Sum(rows[..|rows| - 1]) + if Contributes(rows[|rows| - 1]) then RealPrice(rows[|rows| - 1]) else 0.0
  }

  function Count(rows: seq<Update>): nat {
    if rows == [] then 0 else Count(rows[..|rows| - 1]) + if Contributes(rows[|rows| - 1]) then 1 else 0
  }

  function Latest(rows: seq<Update>): nat {
    if rows == [] then 0
    else
      var l, u := Latest(rows[..|rows| - 1]), rows[|rows| - 1];
      if Contributes(u) && u.time > l then u.time else l
  }

  /** The exact mean of the positive prices. */
  function Mean(rows: seq<Update>): real
    requires Count(rows) > 0
  {
    Sum(rows) / Count(rows) as real
  }

  function HalfUp(num: int, den: int): int
    requires den > 0
  {
    (2 * num + den) / (2 * den)
  }

  ghost predicate Denotes(r: Rat, x: real) { r.den > 0 && r.num as real == x * r.den as real }

  /** `n` is the half-up rounding of `x`. */
  ghost predicate RoundsTo(x: real, n: int) { n as real <= x + 0.5 < n as real + 1.0 }

  lemma HalfUpRounds(r: Rat, x: real)
    requires Denotes(r, x)
    ensures RoundsTo(x, HalfUp(r.num, r.den))
  {
    var n := HalfUp(r.num, r.den);
    var m := (2 * r.num + r.den) % (2 * r.den);
    assert 2 * r.num + r.den == n * (2 * r.den) + m && 0 <= m < 2 * r.den;
    var d := r.den as real;
    CastMul(n, 2 * r.den);
    assert 2.0 * (x * d) + d == n as real * (2.0 * d) + m as real;
    RoundBounds(x, n as real, m as real, d);
  }

  lemma RoundBounds(x: real, n: real, m: real, d: real)
    requires d > 0.0 && 0.0 <= m < 2.0 * d && 2.0 * (x * d) + d == n * (2.0 * d) + m
    ensures n <= x + 0.5 < n + 1.0
  {
    var y, e := x + 0.5 - n, 2.0 * d;
    assert y * e == m;
    if y < 0.0 { MulPositive(-y, e); }
    if y >= 1.0 { MulMonotone(1.0, y, e); }
  }

  function AddRat(a: Rat, b: Rat): Rat { Rat(a.num * b.den + b.num * a.den, a.den * b.den) }

  function MulRat(a: Rat, b: Rat): Rat { Rat(a.num * b.num, a.den * b.den) }

  lemma AddDenotes(a: Rat, x: real, b: Rat, y: real)
    requires Denotes(a, x) && Denotes(b, y)
    ensures Denotes(AddRat(a, b), x + y)
  {
    CastMul(a.num, b.den);
    CastMul(b.num, a.den);
    CastMul(a.den, b.den);
    var s, t := a.den as real, b.den as real;
    assert (x * s) * t + (y * t) * s == (x + y) * (s * t);
  }

  lemma MulDenotes(a: Rat, x: real, b: Rat, y: real)
    requires Denotes(a, x) && Denotes(b, y)
    ensures Denotes(MulRat(a, b), x * y)
  {
    CastMul(a.num, b.num);
    CastMul(a.den, b.den);
    var s, t := a.den as real, b.den as real;
    assert (x * s) * (y * t) == (x * y) * (s * t);
  }

  lemma FracDenotes(num: int, den: int)
    requires den > 0
    ensures Denotes(Rat(num, den), num as real / den as real)
  {
    DivMul(num as real, den as real);
  }

  /** The exact rational sum, how many rows contributed, and the latest time among them. */
  method SumPrices(rows: seq<Update>) returns (sum: Rat, contributed: nat, latest: nat)
    ensures Denotes(sum, Sum(rows)) && contributed == Count(rows) && latest == Latest(rows)
  {
    sum, contributed, latest := Rat(0, 1), 0, 0;
    for i := 0 to |rows|
      invariant Denotes(sum, Sum(rows[..i])) && contributed == Count(rows[..i]) && latest == Latest(rows[..i])
    {
      assert rows[..i + 1][..i] == rows[..i];
      var u := rows[i];
      if u.price <= 0 {
        continue;
      }
      FracDenotes(u.price, Pow10(u.decimals));
      AddDenotes(sum, Sum(rows[..i]), Rat(u.price, Pow10(u.decimals)), RealPrice(u));
      sum := AddRat(sum, Rat(u.price, Pow10(u.decimals)));
      contributed := contributed + 1;
      if u.time > latest {
        latest := u.time;
      }
    }
    assert rows[..|rows|] == rows;
  }

  /** The text is an integer part, a point and 14 digits that together spell `n` hundred-trillionths. */
  ghost predicate Spells(text: string, n: nat) {
    exists whole, frac ::
      && AllDigits(whole) && AllDigits(frac) && whole != [] && |frac| == COMMON_DECIMALS
      && text == whole + "." + frac
      && (|whole| > 1 ==> whole[0] != '0')
      && Value(whole) * TARGET + Value(frac) == n
  }

  method FormatScaledDecimal(avg: nat) returns (text: string)
    ensures Spells(text, avg)
  {
    var intPart, frac := avg / TARGET, avg % TARGET;
    var fracStr := Digits(frac);
    ValueOfDigits(intPart);
    ValueOfDigits(frac);
    NoLeadingZero(intPart);
    TargetIsPower();
    DigitsLength(frac, COMMON_DECIMALS);
    while |fracStr| < COMMON_DECIMALS
      invariant |fracStr| <= COMMON_DECIMALS && AllDigits(fracStr) && Value(fracStr) == frac
    {
      ValuePadded(fracStr);
      fracStr := "0" + fracStr;
    }
    text := Digits(intPart) + "." + fracStr;
    assert Value(Digits(intPart)) * TARGET + Value(fracStr) == avg;
  }

  lemma TargetIsPower()
    ensures Pow10(COMMON_DECIMALS) == TARGET
  {
    Pow10Add(7, 7);
    assert Pow10(7) == 10 * Pow10(6) && Pow10(6) == 10 * Pow10(5) && Pow10(5) == 10 * Pow10(4)
           && Pow10(4) == 10 * Pow10(3) && Pow10(3) == 10 * Pow10(2);
  }

  /** None is ok == false. */
  method AverageAggregatorPrices(rows: seq<Update>) returns (r: Option<Served>)
    ensures r.None? <==> Count(rows) == 0 || Mean(rows) * TARGET as real < 0.5
    ensures r.Some? ==> r.value.latest == Latest(rows)
    ensures r.Some? ==> exists n: nat :: n > 0 && RoundsTo(Mean(rows) * TARGET as real, n) && Spells(r.value.text, n)
  {
    if rows == [] {
      return None;
    }
    var sum, contributed, latest := SumPrices(rows);
    if contributed == 0 {
      return None;
    }
    FracDenotes(TARGET, contributed);
    MulDenotes(sum, Sum(rows), Rat(TARGET, contributed), TARGET as real / contributed as real);
    sum := MulRat(sum, Rat(TARGET, contributed));
    MeanScaled(Sum(rows), contributed as real, TARGET as real);
    HalfUpRounds(sum, Mean(rows) * TARGET as real);
    var avgScaled := HalfUp(sum.num, sum.den);
    if avgScaled <= 0 {
      return None;
    }
    var text := FormatScaledDecimal(avgScaled);
    r := Some(Served(text, latest));
  }

  lemma MeanScaled(s: real, n: real, t: real)
    requires n > 0.0
    ensures s * (t / n) == (s / n) * t
  {
    var x := 1.0 / n;
    assert t / n == t * x && s / n == s * x;
  }

  /** One rounding: the printed price is within half of 10^-14 of the exact mean. */
  lemma PrintedWithinHalfUnit(mean: real, n: int)
    requires RoundsTo(mean * TARGET as real, n)
    ensures Abs(n as real / TARGET as real - mean) <= 0.5 / TARGET as real
  {
    var t := TARGET as real;
    DivMul(n as real, t);
    var gap := n as real / t - mean;
    assert gap * t == n as real - mean * t;
    assert -0.5 <= gap * t <= 0.5;
  }

  function FirstPoint(s: string): nat {
    if s == [] || s[0] == '.' then 0 else 1 + FirstPoint(s[1..])
  }

  lemma {:induction false} FirstPointAfter(whole: string, rest: string)
    requires AllDigits(whole)
    ensures FirstPoint(whole + "." + rest) == |whole|
  {
    if whole != [] {
      assert IsDigit(whole[0]);
      FirstPointAfter(whole[1..], rest);
      assert (whole + "." + rest)[1..] == whole[1..] + "." + rest;
    }
  }

  /** A printed price can be read back: no text spells two numbers. */
  lemma SpellsUnique(text: string, m: nat, n: nat)
    requires Spells(text, m) && Spells(text, n)
    ensures m == n
  {
    var w, f :| AllDigits(w) && AllDigits(f) && w != [] && |f| == COMMON_DECIMALS && text == w + "." + f
                && (|w| > 1 ==> w[0] != '0') && Value(w) * TARGET + Value(f) == m;
    var w', f' :| AllDigits(w') && AllDigits(f') && w' != [] && |f'| == COMMON_DECIMALS && text == w' + "." + f'
                  && (|w'| > 1 ==> w'[0] != '0') && Value(w') * TARGET + Value(f') == n;
    FirstPointAfter(w, f);
    FirstPointAfter(w', f');
    assert w == text[..|w|] && w' == text[..|w'|];
    assert f == text[|w| + 1..] && f' == text[|w'| + 1..];
  }

  // What the sums are.

  lemma {:induction false} SumAppend(a: seq<Update>, b: seq<Update>)
    ensures Sum(a + b) == Sum(a) + Sum(b) && Count(a + b) == Count(a) + Count(b)
  {
    if b == [] {
      assert a + b == a;
    } else {
      var init := b[..|b| - 1];
      SumAppend(a, init);
      assert (a + b)[..|a + b| - 1] == a + init;
    }
  }

  /** One row adds its price in whole units and counts once, or nothing if its price is not positive. */
  lemma SumOne(u: Update)
    ensures u.price > 0 ==> Sum([u]) * Pow10(u.decimals) as real == u.price as real && Count([u]) == 1
    ensures u.price <= 0 ==> Sum([u]) == 0.0 && Count([u]) == 0
  {
    assert [u][..0] == [];
    DivMul(u.price as real, Pow10(u.decimals) as real);
  }

  /** The reported time is the latest among the rows with a positive price, 0 when there is none. */
  lemma {:induction false} LatestExactly(rows: seq<Update>)
    ensures forall i :: 0 <= i < |rows| && rows[i].price > 0 ==> rows[i].time <= Latest(rows)
    ensures Latest(rows) == 0 || exists i :: 0 <= i < |rows| && rows[i].price > 0 && rows[i].time == Latest(rows)
  {
    if rows != [] {
      var init, n := rows[..|rows| - 1], |rows| - 1;
      LatestExactly(init);
      forall i | 0 <= i < |rows| && rows[i].price > 0 ensures rows[i].time <= Latest(rows) { assert i < n ==> init[i] == rows[i]; }
      if i :| 0 <= i < |init| && init[i].price > 0 && init[i].time == Latest(init) { assert rows[i] == init[i]; }
    }
  }
}
