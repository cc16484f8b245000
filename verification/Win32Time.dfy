/** Clock scaling: gettimestamp() of platspec/win32/time.c turns a tick count
    of a given frequency into nanoseconds with 64-bit fixed-point factors. */
module Win32Time {

  const U32 := 0x1_0000_0000
  const U64 := 0x1_0000_0000_0000_0000
  const BILLION := 1000000000

  // ----- products and quotients, kept apart from the rest of the arithmetic

  function Mul(a: nat, b: nat): nat {
    a * b
  }

  function Quot(a: nat, d: nat): nat
    requires d > 0
  {
    a / d
  }

  lemma MulLe(a: nat, b: nat, c: nat)
    requires a <= b
    ensures Mul(a, c) <= Mul(b, c) && Mul(c, a) <= Mul(c, b)
  {
  }

  lemma MulAdd(a: nat, b: nat, c: nat)
    ensures Mul(a + b, c) == Mul(a, c) + Mul(b, c) && Mul(c, a + b) == Mul(c, a) + Mul(c, b)
  {
  }

  lemma MulOne(a: nat)
    ensures Mul(1, a) == a && Mul(a, 1) == a && Mul(0, a) == 0 && Mul(a, 0) == 0
  {
  }

  lemma MulComm(a: nat, b: nat)
    ensures Mul(a, b) == Mul(b, a)
  {
  }

  lemma MulAssoc(a: nat, b: nat, c: nat)
    ensures Mul(Mul(a, b), c) == Mul(a, Mul(b, c))
  {
  }

  lemma QuotBounds(a: nat, d: nat)
    requires d > 0
    ensures Mul(Quot(a, d), d) <= a < Mul(Quot(a, d), d) + d
  {
  }

  /** A quotient is the only number with these bounds. */
  lemma QuotIs(a: nat, d: nat, q: nat)
    requires d > 0 && Mul(q, d) <= a < Mul(q, d) + d
    ensures Quot(a, d) == q
  {
    hide Mul, Quot;
    var p := Quot(a, d);
    QuotBounds(a, d);
    MulAdd(q, 1, d);
    MulAdd(p, 1, d);
    MulOne(d);
    if q < p {
      MulLe(q + 1, p, d);
    } else if p < q {
      MulLe(p + 1, q, d);
    }
  }

  lemma QuotLe(a: nat, b: nat, d: nat)
    requires d > 0 && a <= b
    ensures Quot(a, d) <= Quot(b, d)
  {
    hide Mul, Quot;
    var p, q := Quot(a, d), Quot(b, d);
    QuotBounds(a, d);
    QuotBounds(b, d);
    MulAdd(q, 1, d);
    MulOne(d);
    if q < p {
      MulLe(q + 1, p, d);
    }
  }

  lemma MulCancel(a: nat, b: nat, c: nat)
    requires c > 0 && Mul(a, c) <= Mul(b, c)
    ensures a <= b
  {
    hide Mul;
    MulAdd(b, 1, c);
    MulOne(c);
    if b < a {
      MulLe(b + 1, a, c);
    }
  }

  function Pow2(n: nat): (p: nat)
    ensures p >= 1
  {
    if n == 0 then 1 else 2 * Pow2(n - 1)
  }

  lemma MulTwice(a: nat, b: nat)
    ensures Mul(a, 2 * b) == 2 * Mul(a, b)
  {
  }

  lemma {:induction false} Pow2Sum(a: nat, b: nat)
    ensures Pow2(a + b) == Mul(Pow2(a), Pow2(b))
  {
    hide Mul;
    if b == 0 {
      MulOne(Pow2(a));
    } else {
      Pow2Sum(a, b - 1);
      MulTwice(Pow2(a), Pow2(b - 1));
    }
  }

  lemma Pow2Values()
    ensures Pow2(30) == 0x4000_0000 && Pow2(32) == U32
  {
    assert Pow2(8) == 256;
    assert Pow2(6) == 64;
    Pow2Sum(8, 8);
    Pow2Sum(8, 6);
    Pow2Sum(16, 14);
    Pow2Sum(16, 16);
  }

  lemma Twice(h: nat, d: nat)
    ensures Mul(2 * h, d) == Mul(h, 2 * d)
  {
    MulComm(2, h);
    MulAssoc(h, 2, d);
  }

  /** Halving a quotient doubles the divisor. */
  lemma QuotHalf(a: nat, d: nat)
    requires d > 0
    ensures Quot(a, d) / 2 == Quot(a, 2 * d)
  {
    hide Mul, Quot;
    var q := Quot(a, d);
    var h, e := q / 2, q % 2;
    QuotBounds(a, d);
    MulAdd(2 * h, e, d);
    MulAdd(h, h, d);
    Twice(h, d);
    if e == 1 {
      MulOne(d);
    } else {
      MulOne(d);
    }
    QuotIs(a, 2 * d, h);
  }

  // ----- the static factors

  datatype Factors = Factors(hns: nat, lns: nat, scale: nat)

  /** What the setup establishes for a frequency. */
  ghost predicate Scaled(freq: nat, f: Factors) {
    && freq > 0 && f.scale <= 32
    && f.hns == Quot(BILLION * U32, freq)
    && f.lns == Quot(f.hns, Pow2(32 - f.scale))
    && f.lns < U32
  }

  lemma HnsBound(freq: nat)
    requires freq > 0
    ensures Quot(BILLION * U32, freq) <= BILLION * U32
  {
    hide Mul, Quot;
    var q := Quot(BILLION * U32, freq);
    QuotBounds(BILLION * U32, freq);
    MulLe(1, freq, q);
    MulOne(q);
  }

  lemma MulBound(q: nat)
    requires Mul(q, 0x4000_0000) <= BILLION * U32
    ensures q < U32
  {
  }

  lemma ShiftEnough(a: nat)
    requires a <= BILLION * U32
    ensures Quot(a, Pow2(30)) < U32
  {
    hide Mul, Quot, Pow2;
    Pow2Values();
    QuotLe(a, BILLION * U32, Pow2(30));
    QuotBounds(BILLION * U32, Pow2(30));
    MulBound(Quot(BILLION * U32, Pow2(30)));
  }

  /** The shifting loop.  It stops with a scale between 2 and 32. */
  method Setup(freq: nat) returns (f: Factors)
    requires 0 < freq
    ensures Scaled(freq, f) && 2 <= f.scale <= 32 && f.hns < U64
  {
    hide Mul, Quot;
    var hns := Quot(BILLION * U32, freq);
    HnsBound(freq);
    var lns, scale := hns, 32;
    QuotIs(hns, 1, hns) by {
      MulOne(hns);
    }
    while lns >= U32
      invariant 2 <= scale <= 32 && lns == Quot(hns, Pow2(32 - scale))
      decreases lns
    {
      QuotHalf(hns, Pow2(32 - scale));
      if scale == 2 {
        ShiftEnough(hns);
      }
      lns := lns / 2;
      scale := scale - 1;
    }
    f := Factors(hns, lns, scale);
  }

  // ----- the conversion

  /** The sum before any wrap-around. */
  function Sum(f: Factors, high: nat, low: nat): nat {
    Mul(f.hns, high) + Quot(Mul(f.lns, low), Pow2(f.scale))
  }

  /** The returned expression, in 64-bit arithmetic. */
  function Timestamp(f: Factors, high: nat, low: nat): nat {
    (Mul(f.hns, high) % U64 + Quot(Mul(f.lns, low) % U64, Pow2(f.scale))) % U64
  }

  lemma LargestProduct()
    ensures Mul(U32 - 1, U32 - 1) < U64
  {
  }

  lemma LowProduct(a: nat, b: nat)
    requires a < U32 && b < U32
    ensures Mul(a, b) < U64
  {
    hide Mul;
    MulLe(a, U32 - 1, b);
    MulLe(b, U32 - 1, U32 - 1);
    LargestProduct();
  }

  lemma Unwrapped(n: nat)
    ensures n < U64 ==> n % U64 == n
  {
  }

  lemma LowScaled(freq: nat, f: Factors)
    requires Scaled(freq, f)
    ensures f.lns < U32
  {
  }

  /** The low product always fits; while the total fits 64 bits nothing wraps. */
  lemma NoWrap(freq: nat, f: Factors, high: nat, low: nat)
    requires Scaled(freq, f) && low < U32 && Sum(f, high, low) < U64
    ensures Mul(f.lns, low) < U64
    ensures Timestamp(f, high, low) == Sum(f, high, low)
  {
    hide Mul, Quot, Pow2, Scaled;
    LowScaled(freq, f);
    LowProduct(f.lns, low);
    Unwrapped(Mul(f.lns, low));
    Unwrapped(Mul(f.hns, high));
    Unwrapped(Sum(f, high, low));
  }

  /** The low part never exceeds the step of the high part. */
  lemma LowBelowHigh(freq: nat, f: Factors, low: nat)
    requires Scaled(freq, f) && low < U32
    ensures Quot(Mul(f.lns, low), Pow2(f.scale)) <= f.hns
  {
    hide Mul, Quot, Pow2;
    var s, n := Pow2(f.scale), Pow2(32 - f.scale);
    Pow2Sum(32 - f.scale, f.scale);
    Pow2Values();
    var q := Quot(Mul(f.lns, low), s);
    QuotBounds(Mul(f.lns, low), s);
    MulLe(low, U32, f.lns);
    MulAssoc(f.lns, n, s);
    MulCancel(q, Mul(f.lns, n), s);
    QuotBounds(f.hns, n);
  }

  lemma HighFirst(high: nat, low: nat, high': nat, low': nat)
    requires low < U32 && low' < U32 && high * U32 + low <= high' * U32 + low'
    ensures high < high' || (high == high' && low <= low')
  {
  }

  lemma SumGrows(freq: nat, f: Factors, high: nat, low: nat, high': nat, low': nat)
    requires Scaled(freq, f) && low < U32 && high < high'
    ensures Sum(f, high, low) <= Sum(f, high', low')
  {
    LowBelowHigh(freq, f, low);
    hide Mul, Quot, Pow2, Scaled;
    MulLe(high + 1, high', f.hns);
    MulAdd(high, 1, f.hns);
    MulOne(f.hns);
  }

  /** The timestamp never goes back as the tick count grows, not even where
      the low half of the tick overflows into the high half. */
  lemma Monotone(freq: nat, f: Factors, high: nat, low: nat, high': nat, low': nat)
    requires Scaled(freq, f) && low < U32 && low' < U32
    requires high * U32 + low <= high' * U32 + low'
    requires Sum(f, high', low') < U64
    ensures Timestamp(f, high, low) <= Timestamp(f, high', low')
  {
    HighFirst(high, low, high', low');
    hide Mul, Quot, Pow2, Scaled, Timestamp;
    if high == high' {
      MulLe(low, low', f.lns);
      QuotLe(Mul(f.lns, low), Mul(f.lns, low'), Pow2(f.scale));
    } else {
      SumGrows(freq, f, high, low, high', low');
    }
    NoWrap(freq, f, high, low);
    NoWrap(freq, f, high', low');
  }

  // ----- accuracy

  lemma MulLess(a: nat, b: nat, c: nat)
    requires a < b && c > 0
    ensures Mul(c, a) < Mul(c, b) && Mul(a, c) < Mul(b, c)
  {
    hide Mul;
    MulLe(a + 1, b, c);
    MulAdd(a, 1, c);
    MulOne(c);
  }

  /** The part of the error the high factor causes, scaled by the frequency:
      less than one nanosecond for each unit of the high half. */
  lemma HighError(freq: nat, f: Factors, high: nat)
    requires Scaled(freq, f)
    ensures var exact := Mul(high, BILLION * U32);
            Mul(Mul(f.hns, high), freq) <= exact <= Mul(Mul(f.hns, high), freq) + Mul(high, freq)
    ensures high > 0 ==> Mul(high, BILLION * U32) < Mul(Mul(f.hns, high), freq) + Mul(high, freq)
  {
    hide Mul, Quot;
    var x := BILLION * U32;
    QuotBounds(x, freq);
    MulComm(f.hns, high);
    MulAssoc(high, f.hns, freq);
    MulLe(Mul(f.hns, freq), x, high);
    MulAdd(Mul(f.hns, freq), freq, high);
    if high > 0 {
      MulLess(x, Mul(f.hns, freq) + freq, high);
    } else {
      MulOne(x);
      MulOne(freq);
      MulOne(Mul(f.hns, freq));
    }
  }

  /** One tick costs at most (lns + 1) * 2^(32 - scale) / 2^32 nanoseconds. */
  lemma TickBound(freq: nat, f: Factors)
    requires Scaled(freq, f)
    ensures var n := Pow2(32 - f.scale);
            Mul(Mul(f.lns, n), freq) <= BILLION * U32 < Mul(Mul(f.lns + 1, n), freq)
  {
    hide Mul, Quot, Pow2;
    var n := Pow2(32 - f.scale);
    QuotBounds(BILLION * U32, freq);
    QuotBounds(f.hns, n);
    MulAdd(f.lns, 1, n);
    MulOne(n);
    MulLe(Mul(f.lns, n), f.hns, freq);
    MulLe(f.hns + 1, Mul(f.lns + 1, n), freq);
    MulAdd(f.hns, 1, freq);
    MulOne(freq);
  }

  lemma Words(f: Factors)
    requires f.scale <= 32
    ensures Mul(Pow2(32 - f.scale), Pow2(f.scale)) == U32
  {
    Pow2Sum(32 - f.scale, f.scale);
    Pow2Values();
  }

  lemma BillionWords()
    ensures Mul(BILLION, U32) == BILLION * U32
  {
  }

  lemma Regroup(q: nat, freq: nat, low: nat)
    ensures Mul(Mul(q, U32), freq) == Mul(Mul(q, freq), U32)
    ensures Mul(low, BILLION * U32) == Mul(Mul(BILLION, low), U32)
  {
    hide Mul;
    MulAssoc(q, U32, freq);
    MulComm(U32, freq);
    MulAssoc(q, freq, U32);
    BillionWords();
    MulComm(BILLION, low);
    MulAssoc(low, BILLION, U32);
  }

  /** The low part is not above the exact value. */
  lemma LowNotAbove(freq: nat, f: Factors, low: nat, q: nat)
    requires Scaled(freq, f) && Mul(q, Pow2(f.scale)) <= Mul(f.lns, low)
    ensures Mul(q, freq) <= Mul(BILLION, low)
  {
    hide Mul, Quot, Pow2;
    var s, n := Pow2(f.scale), Pow2(32 - f.scale);
    Words(f);
    TickBound(freq, f);
    // q * 2^32 * freq <= lns * low * n * freq <= BILLION * 2^32 * low
    MulLe(Mul(q, s), Mul(f.lns, low), n);
    MulAssoc(q, s, n);
    MulComm(s, n);
    MulComm(f.lns, low);
    MulAssoc(low, f.lns, n);
    MulLe(Mul(q, U32), Mul(low, Mul(f.lns, n)), freq);
    MulAssoc(low, Mul(f.lns, n), freq);
    MulLe(Mul(Mul(f.lns, n), freq), BILLION * U32, low);
    Regroup(q, freq, low);
    MulCancel(Mul(q, freq), Mul(BILLION, low), U32);
  }

  lemma Reorder(a: nat, b: nat, c: nat, d: nat)
    ensures Mul(b, Mul(Mul(a, c), d)) == Mul(Mul(Mul(a, b), c), d)
  {
    hide Mul;
    MulAssoc(b, Mul(a, c), d);
    MulAssoc(b, a, c);
    MulComm(a, b);
  }

  lemma MulCancelStrict(a: nat, b: nat, c: nat)
    requires Mul(a, c) < Mul(b, c)
    ensures a < b
  {
    hide Mul;
    if b <= a {
      MulLe(b, a, c);
    }
  }

  /** The low part is short of the exact value by less than 2^(32-scale) + 1. */
  lemma LowNotFarBelow(freq: nat, f: Factors, low: nat, q: nat)
    requires Scaled(freq, f) && 0 < low < U32 && Mul(f.lns, low) < Mul(q, Pow2(f.scale)) + Pow2(f.scale)
    ensures Mul(BILLION, low) < Mul(q + Pow2(32 - f.scale) + 1, freq)
  {
    hide Mul, Quot, Pow2;
    var s, n := Pow2(f.scale), Pow2(32 - f.scale);
    var top := q + n + 1;
    Words(f);
    TickBound(freq, f);
    // (lns + 1) * low < (q + n + 1) * 2^scale
    MulAdd(f.lns, 1, low);
    MulOne(low);
    MulAdd(q, n, s);
    MulAdd(q + n, 1, s);
    MulOne(s);
    // BILLION * 2^32 * low < (lns + 1) * n * freq * low <= top * 2^32 * freq
    MulLess(BILLION * U32, Mul(Mul(f.lns + 1, n), freq), low);
    MulLe(Mul(f.lns + 1, low), Mul(top, s), n);
    MulAssoc(top, s, n);
    MulComm(s, n);
    MulLe(Mul(Mul(f.lns + 1, low), n), Mul(top, U32), freq);
    Reorder(f.lns + 1, low, n, freq);
    Regroup(top, freq, low);
    MulCancelStrict(Mul(BILLION, low), Mul(top, freq), U32);
  }

  lemma AsMul(a: nat, b: nat)
    ensures Mul(a, b) == a * b
  {
  }

  lemma ExactSplit(high: nat, low: nat)
    ensures (high * U32 + low) * BILLION == Mul(high, BILLION * U32) + Mul(BILLION, low)
  {
  }

  lemma AccuracyOfSum(freq: nat, f: Factors, high: nat, low: nat)
    requires Scaled(freq, f) && low < U32
    ensures var exact := Mul(high, BILLION * U32) + Mul(BILLION, low);
            var ts := Sum(f, high, low);
            Mul(ts, freq) <= exact < Mul(ts + high + Pow2(32 - f.scale) + 1, freq)
  {
    hide Mul, Quot, Pow2;
    var s, n := Pow2(f.scale), Pow2(32 - f.scale);
    var q := Quot(Mul(f.lns, low), s);
    QuotBounds(Mul(f.lns, low), s);
    HighError(freq, f, high);
    LowNotAbove(freq, f, low, q);
    MulAdd(Mul(f.hns, high), q, freq);
    MulAdd(Mul(f.hns, high) + high, q + n + 1, freq);
    MulAdd(Mul(f.hns, high), high, freq);
    assert Mul(f.hns, high) + high + (q + n + 1) == Sum(f, high, low) + high + n + 1;
    if low > 0 {
      LowNotFarBelow(freq, f, low, q);
    } else {
      MulOne(BILLION);
      MulLe(1, q + n + 1, freq);
      MulOne(freq);
    }
  }

  /** The timestamp is never above the exact tick * 10^9 / freq, and short of it
      by less than the high half of the tick plus 2^(32-scale) + 1. */
  lemma Accuracy(freq: nat, f: Factors, high: nat, low: nat)
    requires Scaled(freq, f) && low < U32 && Sum(f, high, low) < U64
    ensures var exact := (high * 0x1_0000_0000 + low) * 1_000_000_000;
            var ts := Timestamp(f, high, low);
            ts * freq <= exact < (ts + high + Pow2(32 - f.scale) + 1) * freq
  {
    NoWrap(freq, f, high, low);
    var ts, n := Sum(f, high, low), Pow2(32 - f.scale);
    AccuracyOfSum(freq, f, high, low);
    ExactSplit(high, low);
    AsMul(ts, freq);
    AsMul(ts + high + n + 1, freq);
  }

  /** The static variables of gettimestamp(), and the call itself. */
  class Clock {
    var hns: nat
    var lns: nat
    var scale: nat   // 0 until the first call

    constructor ()
      ensures scale == 0
    {
      hns, lns, scale := 0, 0, 0;
    }

    ghost predicate Ready(freq: nat)
      reads this
    {
      scale == 0 || (2 <= scale && Scaled(freq, Factors(hns, lns, scale)))
    }

    /** gettimestamp(); `freq` never changes while the system runs. */
    method GetTimestamp(freq: nat, high: nat, low: nat) returns (ts: nat)
      requires freq > 0 && low < U32 && Ready(freq)
      modifies this
      ensures Ready(freq) && scale != 0 && ts == Timestamp(Factors(hns, lns, scale), high, low)
      ensures old(scale) != 0 ==> hns == old(hns) && lns == old(lns) && scale == old(scale)
    {
      if scale == 0 {
        var f := Setup(freq);
        hns, lns, scale := f.hns, f.lns, f.scale;
      }
      hide *;
      var f := Factors(hns, lns, scale);
      ts := Timestamp(f, high, low);
    }
  }
}
