/** 64-bit division built from a 64/32-bit divide instruction (lib/arithmetic.c).

    Machine words are integers with explicit ranges, and every place where the C
    code can wrap or truncate says so.  A divide error (#DE) is an outcome, so
    that the absence of traps is part of what is proved. */
module Arithmetic {

  const B32: int := 0x1_0000_0000
  const B64: int := 0x1_0000_0000_0000_0000
  const INT64_MIN: int := -0x8000_0000_0000_0000

  type u32 = x: int | 0 <= x < 0x1_0000_0000
  type u64 = x: int | 0 <= x < 0x1_0000_0000_0000_0000
  type i32 = x: int | -0x8000_0000 <= x < 0x8000_0000
  type i64 = x: int | -0x8000_0000_0000_0000 <= x < 0x8000_0000_0000_0000

  /** Result of code that may execute a dividing instruction. */
  datatype Outcome<+T> = Value(value: T) | DivideError

  /** Conversion of a mathematical integer to an unsigned 64-bit word. */
  function ToU64(x: int): (r: u64)
    ensures (x - r) % B64 == 0
    ensures 0 <= x < B64 ==> r == x
  {
    x % B64
  }

  /** Conversion to a signed 64-bit word: the representative congruent to `x`. */
  function ToI64(x: int): (r: i64)
    ensures (x - r) % B64 == 0
    ensures INT64_MIN <= x < -INT64_MIN ==> r == x
  {
    var u := x % B64;
    if u < B64 / 2 then u else u - B64
  }

  /** Conversion to a signed 32-bit word. */
  function ToI32(x: int): (r: i32)
    ensures (x - r) % B32 == 0
    ensures -0x8000_0000 <= x < 0x8000_0000 ==> r == x
  {
    var u := x % B32;
    if u < B32 / 2 then u else u - B32
  }

  /** C's division: the quotient truncated toward zero. */
  function TruncDiv(n: int, d: int): (q: int)
    requires d != 0
    ensures n >= 0 && d > 0 ==> q == n / d
  {
    var a := if n < 0 then -n else n;
    var b := if d < 0 then -d else d;
    if (n < 0) == (d < 0) then a / b else -(a / b)
  }

  /** C's remainder, which takes the sign of the dividend. */
  function TruncRem(n: int, d: int): int
    requires d != 0
  {
    n - d * TruncDiv(n, d)
  }

  // ----- Powers of two

  function Pow2(k: nat): (p: nat)
    ensures p >= 1
  {
    if k == 0 then 1 else 2 * Pow2(k - 1)
  }

  lemma {:induction false} Pow2Add(a: nat, b: nat)
    ensures Pow2(a + b) == Pow2(a) * Pow2(b)
  {
    if a > 0 {
      Pow2Add(a - 1, b);
      assert Pow2(a + b) == 2 * Pow2(a - 1 + b);
    }
  }

  lemma {:induction false} Pow2Monotone(a: nat, b: nat)
    requires a <= b
    ensures Pow2(a) <= Pow2(b)
  {
    if a < b { Pow2Monotone(a, b - 1); }
  }

  lemma Pow2Values()
    ensures Pow2(16) == 0x1_0000 && Pow2(31) == 0x8000_0000 && Pow2(32) == B32
    ensures Pow2(1) == 2 && Pow2(2) == 4 && Pow2(4) == 16 && Pow2(8) == 256
  {
    assert Pow2(8) == 256;
    Pow2Add(8, 8);
    Pow2Add(16, 16);
  }

  // ----- Quotients, characterised without the division operator

  /** q is the floor of n / d. */
  predicate IsQuot(n: int, d: int, q: int) {
    d > 0 && q * d <= n < q * d + d
  }

  lemma MulLe(a: int, b: int, c: int)
    requires a <= b && c >= 0
    ensures a * c <= b * c
  {
  }

  lemma MulLt(a: int, b: int, c: int)
    requires a * c < b * c && c > 0
    ensures a < b
  {
  }

  lemma DivIsQuot(n: int, d: int)
    requires d > 0
    ensures IsQuot(n, d, n / d)
  {
  }

  lemma QuotUnique(n: int, d: int, p: int, q: int)
    requires IsQuot(n, d, p) && IsQuot(n, d, q)
    ensures p == q
  {
    assert (q + 1) * d == q * d + d && (p + 1) * d == p * d + d;
    MulLt(p, q + 1, d);
    MulLt(q, p + 1, d);
  }

  lemma QuotIsDiv(n: int, d: int, q: int)
    requires IsQuot(n, d, q)
    ensures q == n / d
  {
    DivIsQuot(n, d);
    QuotUnique(n, d, q, n / d);
  }

  /** floor(floor(n/a)/b) = floor(n/(a*b)). */
  lemma QuotQuot(n: int, a: int, b: int, p: int, q: int)
    requires IsQuot(n, a, p) && IsQuot(p, b, q)
    ensures IsQuot(n, a * b, q)
  {
    MulLe(q * b, p, a);
    assert q * (a * b) == (q * b) * a;
    MulLe(p + 1, q * b + b, a);
    assert (q * b + b) * a == (q * b) * a + a * b;
    assert (p + 1) * a == p * a + a;
    assert a * b > 0;
  }

  /** A common factor cancels: floor(dp / pg) = floor(d/g). */
  lemma QuotCancel(d: int, p: int, g: int, v: int)
    requires p > 0 && g > 0 && IsQuot(d * p, p * g, v)
    ensures IsQuot(d, g, v)
  {
    assert v * (p * g) == (v * g) * p;
    assert v * (p * g) + p * g == (v * g + g) * p;
    MulLt(d, v * g + g, p);
    assert (d + 1) * p == d * p + p;
    MulLt(v * g, d + 1, p);
  }

  // ----- nlz, divl

  /** Number of leading zero bits of a nonzero word, found by binary search. */
  method Nlz(x0: u32) returns (n: nat)
    requires x0 != 0
    ensures n <= 31
    ensures 0x8000_0000 <= x0 * Pow2(n) < B32
  {
    Pow2Values();
    var x: int := x0;
    n := 0;
    if x <= 0x0000FFFF {
      n, x := NlzStep(x0, n, x, 16, 0x1_0000);
    }
    if x <= 0x00FFFFFF {
      n, x := NlzStep(x0, n, x, 8, 0x100);
    }
    if x <= 0x0FFFFFFF {
      n, x := NlzStep(x0, n, x, 4, 0x10);
    }
    if x <= 0x3FFFFFFF {
      n, x := NlzStep(x0, n, x, 2, 4);
    }
    if x <= 0x7FFFFFFF {
      n, x := NlzStep(x0, n, x, 1, 2);
    }
  }

  /** One step of the search: k more leading zeros, x shifted left by k bits. */
  method NlzStep(ghost x0: int, n: nat, x: int, k: nat, c: nat) returns (n': nat, x': int)
    requires x == x0 * Pow2(n)
    requires c == Pow2(k)
    ensures n' == n + k && x' == x * c && x' == x0 * Pow2(n')
  {
    n', x' := n + k, x * c;
    Pow2Add(n, k);
    assert x0 * (Pow2(n) * Pow2(k)) == (x0 * Pow2(n)) * Pow2(k);
  }

  /** The x86 DIVL instruction: traps unless the quotient fits in 32 bits. */
  method Divl(n: u64, d: u32) returns (r: Outcome<u32>)
    ensures r.DivideError? <==> d == 0 || n >= d * B32
    ensures r.Value? ==> IsQuot(n, d, r.value)
  {
    if d == 0 { return DivideError; }
    var q := n / d;
    DivIsQuot(n, d);
    if q >= B32 {
      MulLe(B32, q, d);
      return DivideError;
    }
    MulLe(q + 1, B32, d);
    assert (q + 1) * d == q * d + d;
    return Value(q);
  }

  // ----- udiv64

  /** Schoolbook step for a 32-bit divisor, and the reason divl cannot trap. */
  lemma SmallDivisor(n: int, d: int, n1: int, n0: int, q1: int, r1: int)
    requires n == B32 * n1 + n0 && 0 <= n0 < B32
    requires n1 == q1 * d + r1 && 0 <= r1 < d
    ensures 0 <= B32 * r1 + n0 < d * B32
    ensures n == (B32 * q1) * d + (B32 * r1 + n0)
  {
    MulLe(r1, d - 1, B32);
    assert B32 * (q1 * d) == (B32 * q1) * d;
  }

  lemma QuotShift(m: int, d: int, q: int, t: int)
    requires IsQuot(m, d, q)
    ensures IsQuot(t * d + m, d, q + t)
  {
    assert (q + t) * d == q * d + t * d;
  }

  /** The normalised divisor: v holds the top 32 significant bits of d. */
  lemma NormalisedDivisor(d: int, p: int, g: int, d1: int, v: int)
    requires p > 0 && g > 0 && p * g == B32 && d >= 0
    requires IsQuot(d, B32, d1) && 0x8000_0000 <= d1 * p < B32
    requires IsQuot(d * p, B32, v)
    ensures IsQuot(d, g, v)
    ensures 0x8000_0000 <= v < B32
    ensures d * p < B64
  {
    QuotCancel(d, p, g, v);
    MulLe(d1 * B32, d, p);
    assert (d1 * B32) * p == (d1 * p) * B32;
    MulLt(d1 * p, v + 1, B32);
    assert g * p == B32;
    MulLt(d1, g, p);
    MulLe(d1 + 1, g, p);
    assert (d1 + 1) * p == d1 * p + p;
    MulLe(d + 1, d1 * B32 + B32, p);
    assert (d1 * B32 + B32) * p == (d1 * p + p) * B32;
    assert (d + 1) * p == d * p + p;
    MulLt(v, B32, B32);
  }

  /** Dividing by the short divisor D instead of d overestimates by at most one,
      provided q * (d - D) <= D. */
  lemma OverestimateByAtMostOne(n: int, d: int, D: int, q: int, f: int)
    requires 0 < D <= d && n >= 0 && IsQuot(n, D, q) && q * (d - D) <= D
    requires IsQuot(n, d, f)
    ensures f <= q <= f + 1
  {
    assert (f + 1) * d == f * d + d && (q + 1) * D == q * D + D;
    assert f >= 0 by { MulLt(-1, f, d); }
    MulLe(D, d, f);
    assert f * D <= f * d;
    MulLt(f, q + 1, D);
    assert q * d == q * D + q * (d - D);
    assert (q - 1) * d == q * d - d;
    MulLt(q - 1, f + 1, d);
  }

  /** The quotient estimate of the large-divisor branch is exact or one too big. */
  lemma QuotientEstimate(n: int, n2: int, d: int, g: int, h: int, v: int, e: int, q: int, f: int)
    requires 0 <= n < B64 && IsQuot(n, 2, n2)
    requires h > 0 && g == 2 * h && 0x8000_0000 <= v && IsQuot(d, g, v)
    requires IsQuot(n2, v, e) && IsQuot(e, h, q) && IsQuot(n, d, f)
    ensures f <= q <= f + 1
  {
    QuotQuot(n2, v, h, e, q);
    QuotQuot(n, 2, v * h, n2, q);
    var D := v * g;
    assert 2 * (v * h) == D;
    MulLe(0x8000_0000, v, g);
    assert q >= 0 by { assert (q + 1) * D == q * D + D; MulLt(-1, q, D); }
    ShortfallIsSmall(n, g, v, d - D, q, D);
    OverestimateByAtMostOne(n, d, D, q, f);
  }

  lemma ShortfallIsSmall(n: int, g: int, v: int, e: int, q: int, D: int)
    requires 0x8000_0000 <= v && g >= 2 && D == v * g
    requires 0 <= e < g && 0 <= n < B64 && q >= 0 && q * D <= n
    ensures q * e <= D
  {
    MulLe(0x8000_0000, v, g);
    MulLe(0x8000_0000 * g, D, q);
    assert (0x8000_0000 * g) * q == 0x8000_0000 * (q * g);
    assert q * g < 2 * B32;
    MulLe(e, g - 1, q);
    assert (g - 1) * q == q * g - q;
    if g == 2 {
      assert q * e <= q;
    } else if g == 3 {
      assert q * e <= 2 * q;
    }
  }

  /** The final test, done modulo 2^64, distinguishes the two possible estimates. */
  lemma CorrectEstimate(n: u64, d: u64, q: int, f: int)
    requires d <= n && IsQuot(n, d, f) && f <= q <= f + 1
    ensures 1 <= q <= B64
    ensures ToU64(n - ToU64((q - 1) * d)) < d <==> q == f + 1
  {
    assert (f + 1) * d == f * d + d && (f - 1) * d == f * d - d;
    MulLt(1, f + 1, d);
    MulLe(1, d, f);
    if q == f {
      MulLe(0, f - 1, d);
    }
  }

  /** Unsigned 64-bit division: traps only for a zero divisor and otherwise
      returns the floor of the exact quotient. */
  method Udiv64(n: u64, d: u64) returns (r: Outcome<u64>)
    ensures r.DivideError? <==> d == 0
    ensures r.Value? ==> IsQuot(n, d, r.value)
  {
    if d / B32 == 0 {
      r := Udiv64Short(n, d);
    } else if n < d {
      r := Value(0);
    } else {
      var d1: u32 := d / B32;
      var s := Nlz(d1);
      ghost var g, h := Pow2(32 - s), Pow2(31 - s);
      Pow2Values();
      Pow2Add(s, 32 - s);
      NormalisedDivisor(d, Pow2(s), g, d1, d * Pow2(s) / B32);
      var v := ToU64(d * Pow2(s)) / B32;
      var e := Divl(n / 2, v);
      assert e.Value?;
      var q := e.value / Pow2(31 - s);
      DivIsQuot(e.value, h);
      DivIsQuot(n, d);
      QuotientEstimate(n, n / 2, d, g, h, v, e.value, q, n / d);
      CorrectEstimate(n, d, q, n / d);
      r := Value(if ToU64(n - ToU64((q - 1) * d)) < d then q - 1 else q);
    }
  }

  /** The branch of udiv64 for divisors below 2^32. */
  method Udiv64Short(n: u64, d: u64) returns (r: Outcome<u64>)
    requires d < B32
    ensures r.DivideError? <==> d == 0
    ensures r.Value? ==> IsQuot(n, d, r.value)
  {
    var b := B32;
    var n1: u32, n0: u32 := n / B32, n % B32;
    if d == 0 { return DivideError; }   // n1 % d0 is itself a division by zero
    var q1, r1 := n1 / d, n1 % d;
    SmallDivisor(n, d, n1, n0, q1, r1);
    MulLe(d, B32, B32);
    var q := Divl(b * r1 + n0, d);
    QuotShift(b * r1 + n0, d, q.value, b * q1);
    QuotRange(n, d, q.value + b * q1);
    return Value(ToU64(q.value + b * q1));
  }

  lemma QuotRange(n: int, d: int, q: int)
    requires n >= 0 && IsQuot(n, d, q)
    ensures 0 <= q <= n
  {
    assert (q + 1) * d == q * d + d;
    MulLt(-1, q, d);
    MulLe(1, d, q);
  }

  // ----- umod64, sdiv64, smod64

  /** Unsigned remainder.  The C function returns 32 bits, so the result is the
      remainder modulo 2^32: exact precisely when the remainder fits. */
  method Umod64(n: u64, d: u64) returns (r: Outcome<u32>)
    ensures r.DivideError? <==> d == 0
    ensures r.Value? ==> r.value == (n % d) % B32
    ensures r.Value? ==> (r.value == n % d <==> n % d < B32)
  {
    var q := Udiv64(n, d);
    if q.DivideError? { return DivideError; }
    QuotRange(n, d, q.value);
    QuotRem(n, d, q.value);
    r := Value(ToU64(n - ToU64(d * q.value)) % B32);
  }

  lemma QuotRem(n: int, d: int, q: int)
    requires IsQuot(n, d, q)
    ensures n - d * q == n % d && 0 <= n - d * q < d
  {
    QuotIsDiv(n, d, q);
  }

  /** umod64 is exact for every dividend if and only if d <= 2^32. */
  lemma Umod64ExactIff(d: u64)
    requires d > 0
    ensures (forall n: u64 :: (n % d) % B32 == n % d) <==> d <= B32
  {
    if d > B32 {
      QuotRem(B32, d, 0);
      var n: u64 := B32;
      assert (n % d) % B32 != n % d;
    } else {
      forall n: u64 ensures (n % d) % B32 == n % d {
        var m := n % d;
        assert 0 <= m < B32;
      }
    }
  }

  /** C's signed division on n != INT64_MIN or d != -1, and its wrapped value there. */
  method Sdiv64(n: i64, d: i64) returns (r: Outcome<i64>)
    ensures r.DivideError? <==> d == 0
    ensures r.Value? ==> r.value == ToI64(TruncDiv(n, d))
    ensures r.Value? ==> (r.value == TruncDiv(n, d) <==> !(n == INT64_MIN && d == -1))
  {
    var nAbs := if n >= 0 then ToU64(n) else ToU64(-(n as int));
    var dAbs := if d >= 0 then ToU64(d) else ToU64(-(d as int));
    var q := Udiv64(nAbs, dAbs);
    if q.DivideError? { return DivideError; }
    QuotIsDiv(nAbs, dAbs, q.value);
    AbsQuotientBound(nAbs, dAbs, q.value);
    r := Value(if (n < 0) == (d < 0) then ToI64(q.value) else ToI64(-(ToI64(q.value) as int)));
  }

  lemma AbsQuotientBound(n: int, d: int, q: int)
    requires 0 <= n <= -INT64_MIN && IsQuot(n, d, q)
    ensures 0 <= q <= -INT64_MIN
    ensures q == -INT64_MIN <==> n == -INT64_MIN && d == 1
  {
    QuotRange(n, d, q);
    if d > 1 {
      MulLe(2, d, q);
    }
  }

  /** The truncated remainder takes the sign of n and is smaller than d. */
  lemma TruncRemBound(n: int, d: int)
    requires d != 0
    ensures var m := if d < 0 then -d else d;
            TruncRem(n, d) == if n < 0 then -((-n) % m) else n % m
  {
    var a := if n < 0 then -n else n;
    var b := if d < 0 then -d else d;
    var q := a / b;
    DivIsQuot(a, b);
    QuotRem(a, b, q);
    assert TruncDiv(n, d) == if (n < 0) == (d < 0) then q else -q;
    assert d * TruncDiv(n, d) == if n < 0 then -(b * q) else b * q;
  }

  /** Signed remainder: the C remainder cut to 32 bits, including for
      INT64_MIN / -1, where the quotient has wrapped. */
  method Smod64(n: i64, d: i64) returns (r: Outcome<i32>)
    ensures r.DivideError? <==> d == 0
    ensures r.Value? ==> r.value == ToI32(TruncRem(n, d))
    ensures r.Value? ==>
      (r.value == TruncRem(n, d) <==> -0x8000_0000 <= TruncRem(n, d) < 0x8000_0000)
  {
    var q := Sdiv64(n, d);
    if q.DivideError? { return DivideError; }
    RemainderSurvivesWrap(n, d);
    r := Value(ToI32(ToI64(n - ToI64(d * q.value))));
  }

  lemma RemainderSurvivesWrap(n: i64, d: i64)
    requires d != 0
    ensures ToI64(n - ToI64(d * ToI64(TruncDiv(n, d)))) == TruncRem(n, d)
  {
    if n == INT64_MIN && d == -1 {
      assert TruncDiv(n, d) == -INT64_MIN;
      assert ToI64(-INT64_MIN) == INT64_MIN;
    } else {
      var a := if n < 0 then -(n as int) else n;
      var b := if d < 0 then -(d as int) else d;
      DivIsQuot(a, b);
      AbsQuotientBound(a, b, a / b);
      QuotRem(a, b, a / b);
      TruncRemBound(n, d);
    }
  }

  /** smod64 is exact for every dividend if and only if |d| <= 2^31. */
  lemma Smod64ExactIff(d: i64)
    requires d != 0
    ensures (forall n: i64 :: ToI32(TruncRem(n, d)) == TruncRem(n, d))
            <==> -0x8000_0000 <= d <= 0x8000_0000
  {
    if -0x8000_0000 <= d <= 0x8000_0000 {
      forall n: i64 ensures ToI32(TruncRem(n, d)) == TruncRem(n, d) {
        TruncRemBound(n, d);
      }
    } else {
      var n: i64 := 0x8000_0000;
      TruncRemBound(n, d);
      var m := if d < 0 then -(d as int) else d;
      QuotRem(n, m, 0);
      assert ToI32(TruncRem(n, d)) != TruncRem(n, d);
    }
  }
}
