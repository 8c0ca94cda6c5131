/** Numbers as text: format_integer() of lib/stdio.c, and the octal fields that
    lib/ustar.c reads back. */
module Octal {
  import opened Basics

  const SPACE: byte := 32
  const PLUS: byte := 43
  const COMMA: byte := 44
  const MINUS: byte := 45
  const ZERO: byte := 48                  // '0'
  const SEVEN: byte := 55                 // '7'

  /** A printf_conversion. */
  datatype Conversion = Conversion(minus: bool, plus: bool, space: bool, pound: bool, zero: bool, group: bool,
      width: nat, precision: int)

  /** An integer_base: its digits, the `x' character or 0, and the group size. */
  datatype Base = Base(digits: seq<byte>, x: byte, group: nat)

  const OCTAL: Base := Base([48, 49, 50, 51, 52, 53, 54, 55], 0, 3)

  /** Octal, decimal or hexadecimal. */
  predicate SomeBase(b: Base) {
    (|b.digits| == 8 || |b.digits| == 10 || |b.digits| == 16) && b.group > 0
  }

  ghost predicate ValidBase(b: Base) {
    && SomeBase(b)
    && (forall i, j :: 0 <= i < j < |b.digits| ==> b.digits[i] != b.digits[j])
    && b.digits[0] == ZERO && (forall i :: 0 <= i < |b.digits| ==> b.digits[i] != COMMA)
  }

  // ----- What digits mean

  /** The number that a text of digits stands for, most significant first; commas
      between digits mean nothing. */
  ghost function Meaning(s: seq<byte>, b: Base): int
    requires ValidBase(b)
  {
    if s == [] then 0
    else
      var c := s[|s| - 1];
      var rest := Meaning(s[..|s| - 1], b);
      if c == COMMA then rest else rest * |b.digits| + DigitOf(c, b)
  }

  ghost function DigitOf(c: byte, b: Base): (d: int)
    requires ValidBase(b)
    ensures c in b.digits ==> 0 <= d < |b.digits| && b.digits[d] == c
    ensures c !in b.digits ==> d == 0
  {
    if c in b.digits then
      var d :| 0 <= d < |b.digits| && b.digits[d] == c;
      d
    else 0
  }

  function Reversed(s: seq<byte>): (r: seq<byte>)
    ensures |r| == |s|
  {
    if s == [] then [] else Reversed(s[1..]) + [s[0]]
  }

  function Repeat(c: byte, n: nat): (r: seq<byte>)
    ensures |r| == n && forall i :: 0 <= i < n ==> r[i] == c
  {
    if n == 0 then [] else [c] + Repeat(c, n - 1)
  }

  /** Leading zeros do not change the meaning. */
  lemma {:induction false} LeadingZeros(n: nat, s: seq<byte>, b: Base)
    requires ValidBase(b)
    ensures Meaning(Repeat(ZERO, n) + s, b) == Meaning(s, b)
  {
    if s != [] {
      LeadingZeros(n, s[..|s| - 1], b);
      assert (Repeat(ZERO, n) + s)[..n + |s| - 1] == Repeat(ZERO, n) + s[..|s| - 1];
    } else {
      assert Repeat(ZERO, n) + s == Repeat(ZERO, n);
      AllZeros(n, b);
    }
  }

  lemma {:induction false} AllZeros(n: nat, b: Base)
    requires ValidBase(b)
    ensures Meaning(Repeat(ZERO, n), b) == 0
  {
    if n > 0 {
      assert Repeat(ZERO, n)[..n - 1] == Repeat(ZERO, n - 1);
      AllZeros(n - 1, b);
      assert DigitOf(ZERO, b) == 0;
    }
  }

  // ----- format_integer()

  /** The lowest digit of value, after a comma where one is due. */
  function LowDigit(value: nat, b: Base, grouped: bool, cnt: nat): seq<byte>
    requires SomeBase(b)
  {
    (if grouped && cnt > 0 && cnt % b.group == 0 then [COMMA] else []) + [b.digits[value % |b.digits|]]
  }

  /** Digits of value, least significant first, with a comma before every group of
      digits but the first; cnt digits are already there. */
  function LowDigits(value: nat, b: Base, grouped: bool, cnt: nat): seq<byte>
    requires SomeBase(b)
  {
    if value == 0 then []
    else LowDigit(value, b, grouped, cnt) + LowDigits(value / |b.digits|, b, grouped, cnt + 1)
  }

  /** Zeros are appended up to the precision, and one more for # in base 8. */
  function Padded(low: seq<byte>, b: Base, c: Conversion): seq<byte> {
    var precision := if c.precision < 0 then 1 else if c.precision < 63 then c.precision else 63;
    var p := low + Repeat(ZERO, if |low| < precision then precision - |low| else 0);
    if c.pound && |b.digits| == 8 && (p == [] || p[|p| - 1] != ZERO) then p + [ZERO] else p
  }

  /** The digits that are output. */
  function Body(value: nat, b: Base, c: Conversion): seq<byte>
    requires SomeBase(b)
  {
    Reversed(Padded(LowDigits(value, b, c.group, 0), b, c))
  }

  function Sign(isSigned: bool, negative: bool, c: Conversion): seq<byte> {
    if !isSigned then []
    else if c.plus then [if negative then MINUS else PLUS]
    else if c.space then [if negative then MINUS else SPACE]
    else if negative then [MINUS]
    else []
  }

  function Prefix(value: nat, b: Base, c: Conversion): seq<byte> {
    if c.pound && value > 0 && b.x != 0 then [ZERO, b.x] else []
  }

  /** Sign, prefix and digits in a field of the given width. */
  function Layout(sign: seq<byte>, prefix: seq<byte>, body: seq<byte>, c: Conversion): (r: seq<byte>)
    ensures |r| >= c.width && |r| >= |body|
  {
    var n := |sign| + |prefix| + |body|;
    var pad := if n < c.width then c.width - n else 0;
    (if !c.minus && !c.zero then Repeat(SPACE, pad) else []) + sign + prefix
    + (if c.zero then Repeat(ZERO, pad) else []) + body + (if c.minus then Repeat(SPACE, pad) else [])
  }

  lemma {:induction false} RepeatNext(c: byte, n: nat)
    ensures Repeat(c, n) + [c] == Repeat(c, n + 1)
  {
  }

  lemma {:induction false} ReversedLast(s: seq<byte>)
    requires s != []
    ensures Reversed(s) == [s[|s| - 1]] + Reversed(s[..|s| - 1])
  {
    if |s| > 1 {
      ReversedLast(s[1..]);
      assert s[1..][..|s| - 2] == s[..|s| - 1][1..];
    }
  }

  /** output_dup(). */
  method OutputDup(ch: byte, cnt: int) returns (out: seq<byte>)
    ensures out == Repeat(ch, if cnt < 0 then 0 else cnt)
  {
    out := [];
    for i := 0 to if cnt < 0 then 0 else cnt
      invariant out == Repeat(ch, i)
    {
      RepeatNext(ch, i);
      out := out + [ch];
    }
  }

  /** The digits in the buffer go out in reverse. */
  method OutputReversed(buf: seq<byte>) returns (out: seq<byte>)
    ensures out == Reversed(buf)
  {
    out := [];
    var cp := |buf|;
    assert buf[..cp] == buf;
    while cp > 0
      invariant 0 <= cp <= |buf| && out + Reversed(buf[..cp]) == Reversed(buf)
    {
      ReversedLast(buf[..cp]);
      assert buf[..cp][..cp - 1] == buf[..cp - 1];
      cp := cp - 1;
      out := out + [buf[cp]];
    }
  }

  lemma {:induction false} LowDigitFirst(buf: seq<byte>, v: nat, b: Base, grouped: bool, cnt: nat)
    requires SomeBase(b) && v > 0
    ensures buf + LowDigits(v, b, grouped, cnt) ==
      (buf + LowDigit(v, b, grouped, cnt)) + LowDigits(v / |b.digits|, b, grouped, cnt + 1)
  {
    var q, m := DivMod(v, |b.digits|);
    var low := LowDigits(q, b, grouped, cnt + 1);
    assert LowDigits(v, b, grouped, cnt) == LowDigit(v, b, grouped, cnt) + low;
  }

  /** Digits are accumulated from the least significant one. */
  method Accumulate(value: nat, b: Base, grouped: bool) returns (buf: seq<byte>)
    requires SomeBase(b)
    ensures buf == LowDigits(value, b, grouped, 0)
  {
    buf := [];
    var v: nat, cnt: nat := value, 0;
    while v > 0
      invariant buf + LowDigits(v, b, grouped, cnt) == LowDigits(value, b, grouped, 0)
      decreases v
    {
      LowDigitFirst(buf, v, b, grouped, cnt);
      ghost var next := buf + LowDigit(v, b, grouped, cnt);
      if grouped && cnt > 0 && cnt % b.group == 0 { buf := buf + [COMMA]; }
      buf := buf + [b.digits[v % |b.digits|]];
      v := v / |b.digits|;
      cnt := cnt + 1;
      assert buf == next;
    }
  }

  /** Zeros are appended to match the precision and the # flag. */
  method Pad(low: seq<byte>, b: Base, c: Conversion) returns (buf: seq<byte>)
    ensures buf == Padded(low, b, c)
  {
    buf := low;
    var precision := if c.precision < 0 then 1 else c.precision;
    while |buf| < precision && |buf| < 63
      invariant |low| <= |buf| && buf == low + Repeat(ZERO, |buf| - |low|)
      invariant |buf| == |low| || |buf| <= (if precision < 63 then precision else 63)
    {
      RepeatNext(ZERO, |buf| - |low|);
      buf := buf + [ZERO];
    }
    if c.pound && |b.digits| == 8 && (buf == [] || buf[|buf| - 1] != ZERO) { buf := buf + [ZERO]; }
  }

  /** format_integer(). */
  method FormatInteger(value: nat, isSigned: bool, negative: bool, b: Base, c: Conversion) returns (out: seq<byte>)
    requires SomeBase(b)
    ensures out == Layout(Sign(isSigned, negative, c), Prefix(value, b, c), Body(value, b, c), c)
  {
    var sign := Sign(isSigned, negative, c);
    var prefix := Prefix(value, b, c);
    var low := Accumulate(value, b, c.group);
    var buf := Pad(low, b, c);
    var pad := c.width - |buf| - |prefix| - |sign|;
    var blanks := OutputDup(SPACE, pad);
    var zeros := OutputDup(ZERO, pad);
    var digits := OutputReversed(buf);
    out := if !c.minus && !c.zero then blanks else [];
    out := out + sign + prefix + (if c.zero then zeros else []);
    out := out + digits + (if c.minus then blanks else []);
  }

  // ----- The digits mean the value

  lemma {:induction false} ReversedAppend(s: seq<byte>, t: seq<byte>)
    ensures Reversed(s + t) == Reversed(t) + Reversed(s)
  {
    if s == [] {
      assert s + t == t;
    } else {
      ReversedAppend(s[1..], t);
      assert (s + t)[1..] == s[1..] + t;
    }
  }

  lemma {:induction false} ReversedZeros(n: nat)
    ensures Reversed(Repeat(ZERO, n)) == Repeat(ZERO, n)
  {
    if n > 0 {
      ReversedZeros(n - 1);
      assert Repeat(ZERO, n)[1..] == Repeat(ZERO, n - 1);
      RepeatNext(ZERO, n - 1);
    }
  }

  lemma {:induction false} DivMod(value: nat, n: nat) returns (q: nat, m: nat)
    requires value > 0 && (n == 8 || n == 10 || n == 16)
    ensures q == value / n && m == value % n && q * n + m == value && m < n && q < value
  {
    q, m := value / n, value % n;
    if n == 8 {} else if n == 10 {} else {}
  }

  lemma {:induction false} ReversedCons(c: byte, s: seq<byte>)
    ensures Reversed([c] + s) == Reversed(s) + [c]
  {
    assert ([c] + s)[1..] == s;
  }

  /** One more digit below those that stand for q. */
  lemma {:induction false} LowDigitMeaning(q: nat, m: nat, rest: seq<byte>, b: Base)
    requires ValidBase(b) && m < |b.digits| && Meaning(Reversed(rest), b) == q
    ensures Meaning(Reversed([b.digits[m]] + rest), b) == q * |b.digits| + m
    ensures Meaning(Reversed([COMMA] + ([b.digits[m]] + rest)), b) == q * |b.digits| + m
  {
    var d := b.digits[m];
    ReversedCons(d, rest);
    MeaningNext(Reversed(rest), d, b);
    assert DigitOf(d, b) == m;
    ReversedCons(COMMA, [d] + rest);
    MeaningComma(Reversed([d] + rest), b);
  }

  lemma {:induction false} LowDigitsMeaning(value: nat, b: Base, grouped: bool, cnt: nat)
    requires ValidBase(b)
    ensures Meaning(Reversed(LowDigits(value, b, grouped, cnt)), b) == value
  {
    if value > 0 {
      var q, m := DivMod(value, |b.digits|);
      var rest := LowDigits(q, b, grouped, cnt + 1);
      LowDigitsMeaning(q, b, grouped, cnt + 1);
      LowDigitMeaning(q, m, rest, b);
      LowDigitsNext(value, b, grouped, cnt, q, m);
    }
  }

  lemma {:induction false} LowDigitsNext(value: nat, b: Base, grouped: bool, cnt: nat, q: nat, m: nat)
    requires SomeBase(b) && value > 0 && |b.digits| > 0 && q == value / |b.digits| && m == value % |b.digits|
    ensures var rest := LowDigits(q, b, grouped, cnt + 1);
            LowDigits(value, b, grouped, cnt) ==
            if grouped && cnt > 0 && cnt % b.group == 0 then [COMMA] + ([b.digits[m]] + rest) else [b.digits[m]] + rest
  {
  }

  lemma {:induction false} MeaningNext(s: seq<byte>, c: byte, b: Base)
    requires ValidBase(b) && c != COMMA
    ensures Meaning(s + [c], b) == Meaning(s, b) * |b.digits| + DigitOf(c, b)
  {
    assert (s + [c])[..|s|] == s;
  }

  lemma {:induction false} MeaningComma(s: seq<byte>, b: Base)
    requires ValidBase(b)
    ensures Meaning(s + [COMMA], b) == Meaning(s, b)
  {
    assert (s + [COMMA])[..|s|] == s;
  }

  lemma {:induction false} PaddedBy(low: seq<byte>, b: Base, c: Conversion) returns (k: nat)
    ensures Padded(low, b, c) == low + Repeat(ZERO, k)
  {
    k := |Padded(low, b, c)| - |low|;
  }

  /** Whatever the flags, width and precision, the digits output stand for the value. */
  lemma {:induction false} BodyMeaning(value: nat, b: Base, c: Conversion)
    requires ValidBase(b)
    ensures Meaning(Body(value, b, c), b) == value
  {
    var low := LowDigits(value, b, c.group, 0);
    var full := Padded(low, b, c);
    LowDigitsMeaning(value, b, c.group, 0);
    var k := PaddedBy(low, b, c);
    ReversedAppend(low, Repeat(ZERO, k));
    ReversedZeros(k);
    LeadingZeros(k, Reversed(low), b);
  }

  // ----- How the text looks

  /** A minus sign stands for a negative number, and for nothing else. */
  lemma {:induction false} SignIs(isSigned: bool, negative: bool, c: Conversion)
    ensures Sign(isSigned, negative, c) ==
            if !isSigned then [] else if negative then [45] else if c.plus then [43] else if c.space then [32] else []
  {
  }

  /** "0x" or the like marks a number that is not 0, in a base that has such a mark. */
  lemma {:induction false} PrefixIs(value: nat, b: Base, c: Conversion)
    ensures Prefix(value, b, c) == [] || Prefix(value, b, c) == [48, b.x]
    ensures Prefix(value, b, c) == [] <==> !c.pound || value == 0 || b.x == 0
  {
  }

  /** The text fills the width: with spaces after it, with zeros before the digits, or
      else with spaces before it. It gets longer than that exactly if a short text is to
      have both. */
  lemma {:induction false} LayoutIs(sign: seq<byte>, prefix: seq<byte>, body: seq<byte>, c: Conversion)
    ensures var r, text := Layout(sign, prefix, body, c), sign + prefix + body;
            && (|r| == (if |text| < c.width then c.width else |text|) <==>
                  !(c.minus && c.zero) || c.width <= |text|)
            && (c.minus && !c.zero ==> text <= r && forall i :: |text| <= i < |r| ==> r[i] == 32)
            && (c.zero && !c.minus ==>
                  && sign + prefix <= r && r[|r| - |body|..] == body
                  && forall i :: |sign + prefix| <= i < |r| - |body| ==> r[i] == 48)
            && (!c.minus && !c.zero ==>
                  && |text| <= |r| && r[|r| - |text|..] == text
                  && forall i :: 0 <= i < |r| - |text| ==> r[i] == 32)
  {
    var n := |sign| + |prefix| + |body|;
    var pad := if n < c.width then c.width - n else 0;
    var r, text := Layout(sign, prefix, body, c), sign + prefix + body;
    if c.minus && !c.zero {
      assert r == text + Repeat(SPACE, pad);
    } else if c.zero && !c.minus {
      assert r == sign + prefix + Repeat(ZERO, pad) + body;
    } else if !c.minus && !c.zero {
      assert r == Repeat(SPACE, pad) + text;
    } else {
      assert |r| == n + pad + pad;
    }
  }

  ghost function DigitCount(s: seq<byte>): nat {
    if s == [] then 0 else (if s[0] == COMMA then 0 else 1) + DigitCount(s[1..])
  }

  /** Position p, counted from the least significant digit, has a comma: the digits
      before it are whole groups. */
  ghost predicate CommaPlace(s: seq<byte>, p: nat, cnt: nat, group: nat)
    requires p < |s| && group > 0
  {
    var n := cnt + DigitCount(s[..p]);
    n > 0 && n % group == 0 && (p == 0 || s[p - 1] != COMMA)
  }

  lemma {:induction false} CountNext(c: byte, s: seq<byte>)
    ensures DigitCount([c] + s) == (if c == COMMA then 0 else 1) + DigitCount(s)
  {
    assert ([c] + s)[1..] == s;
  }

  lemma {:induction false} CountHead(comma: bool, d: byte, s: seq<byte>)
    requires d != COMMA
    ensures DigitCount(if comma then [COMMA] + ([d] + s) else [d] + s) == 1 + DigitCount(s)
  {
    CountNext(d, s);
    CountNext(COMMA, [d] + s);
  }

  /** Places in rest are places behind one more digit, with or without a comma. */
  lemma {:induction false} CommaPlaceLater(comma: bool, d: byte, s: seq<byte>, rest: seq<byte>,
                                           p: nat, cnt: nat, group: nat)
    requires p < |rest| && group > 0 && d != COMMA
    requires s == if comma then [COMMA] + ([d] + rest) else [d] + rest
    ensures CommaPlace(s, |s| - |rest| + p, cnt, group) <==> CommaPlace(rest, p, cnt + 1, group)
  {
    var t := rest[..p];
    assert s[..|s| - |rest| + p] == if comma then [COMMA] + ([d] + t) else [d] + t;
    CountHead(comma, d, t);
  }

  /** With grouping, commas stand between groups, and nowhere else. */
  lemma {:induction false} CommasBetweenGroups(value: nat, b: Base, cnt: nat, p: nat)
    requires ValidBase(b) && p < |LowDigits(value, b, true, cnt)|
    ensures var s := LowDigits(value, b, true, cnt); s[p] == COMMA <==> CommaPlace(s, p, cnt, b.group)
    decreases value
  {
    var q, m := DivMod(value, |b.digits|);
    var s, rest := LowDigits(value, b, true, cnt), LowDigits(q, b, true, cnt + 1);
    var comma, d := cnt > 0 && cnt % b.group == 0, b.digits[m];
    LowDigitsNext(value, b, true, cnt, q, m);
    var n := |s| - |rest|;
    assert n == if comma then 2 else 1;
    if p >= n {
      CommasBetweenGroups(q, b, cnt + 1, p - n);
      CommaPlaceLater(comma, d, s, rest, p - n, cnt, b.group);
    } else if p == 0 {
      assert s[..0] == [];
    }
  }

  /** The most significant digit is not 0. */
  lemma {:induction false} NoLeadingZero(value: nat, b: Base, grouped: bool, cnt: nat)
    requires ValidBase(b) && value > 0
    ensures var s := LowDigits(value, b, grouped, cnt); s != [] && s[|s| - 1] != ZERO && s[|s| - 1] in b.digits
    decreases value
  {
    var q, m := DivMod(value, |b.digits|);
    LowDigitsNext(value, b, grouped, cnt, q, m);
    if q > 0 { NoLeadingZero(q, b, grouped, cnt + 1); }
  }

  /** Zeros lead exactly as far as the precision asks for them, or as the # flag does in
      octal. */
  lemma {:induction false} LeadingZerosAsAsked(value: nat, b: Base, c: Conversion)
    requires ValidBase(b)
    ensures var s := Body(value, b, c);
            && |s| >= (if c.precision < 63 then c.precision else 63)
            && (value > 0 && !c.pound && s != [] && s[0] == ZERO ==> |s| <= c.precision)
            && (value > 0 ==> s != [])
            && (value == 0 && c.precision < 0 ==> s == [ZERO])
            && (c.pound && |b.digits| == 8 ==> s != [] && s[0] == ZERO)
  {
    var low := LowDigits(value, b, c.group, 0);
    var p := Padded(low, b, c);
    if value > 0 { NoLeadingZero(value, b, c.group, 0); }
    if p != [] { ReversedLast(p); }
    if value == 0 && c.precision < 0 {
      assert p == [ZERO] && [ZERO][..0] == [];
    }
  }

  // ----- Octal fields

  function ZeroPadded(width: nat): Conversion {
    Conversion(false, false, false, false, true, false, width, -1)
  }

  /** What snprintf() makes of "%0<width>o". */
  function OctalText(value: nat, width: nat): seq<byte> {
    Layout([], [], Body(value, OCTAL, ZeroPadded(width)), ZeroPadded(width))
  }

  predicate IsDigit(c: byte) {
    ZERO <= c <= SEVEN
  }

  function OctalValue(s: seq<byte>): int {
    if s == [] then 0 else OctalValue(s[..|s| - 1]) * 8 + (s[|s| - 1] - ZERO)
  }

  function Pow8(n: nat): nat {
    if n == 0 then 1 else 8 * Pow8(n - 1)
  }

  ghost predicate Digits(s: seq<byte>) {
    forall i :: 0 <= i < |s| ==> IsDigit(s[i])
  }

  lemma {:induction false} OctalBase()
    ensures ValidBase(OCTAL)
    ensures forall d :: 0 <= d < 8 ==> OCTAL.digits[d] == ZERO + d
  {
  }

  lemma {:induction false} MeaningIsOctal(s: seq<byte>)
    requires Digits(s)
    ensures ValidBase(OCTAL) && Meaning(s, OCTAL) == OctalValue(s)
  {
    OctalBase();
    if s != [] {
      MeaningIsOctal(s[..|s| - 1]);
      var c := s[|s| - 1];
      assert OCTAL.digits[c - ZERO] == c;
    }
  }

  lemma {:induction false} LowDigitsOctal(value: nat, n: nat, cnt: nat)
    requires value < Pow8(n)
    ensures |LowDigits(value, OCTAL, false, cnt)| <= n && Digits(LowDigits(value, OCTAL, false, cnt))
  {
    OctalBase();
    if value > 0 {
      assert n > 0;
      LowDigitsOctal(value / 8, n - 1, cnt + 1);
    }
  }

  lemma {:induction false} ReversedDigits(s: seq<byte>)
    requires Digits(s)
    ensures Digits(Reversed(s))
  {
    if s != [] { ReversedDigits(s[1..]); }
  }

  lemma {:induction false} BodyOctal(value: nat, width: nat)
    requires value < Pow8(width) && width > 0
    ensures |Body(value, OCTAL, ZeroPadded(width))| <= width && Digits(Body(value, OCTAL, ZeroPadded(width)))
  {
    LowDigitsOctal(value, width, 0);
    ReversedDigits(Padded(LowDigits(value, OCTAL, false, 0), OCTAL, ZeroPadded(width)));
  }

  lemma {:induction false} ZeroLayout(body: seq<byte>, width: nat)
    requires |body| <= width
    ensures Layout([], [], body, ZeroPadded(width)) == Repeat(ZERO, width - |body|) + body
  {
  }

  /** A value that fits in the width fills it with digits that mean it. */
  lemma {:induction false} OctalTextOk(value: nat, width: nat)
    requires value < Pow8(width) && width > 0
    ensures |OctalText(value, width)| == width && Digits(OctalText(value, width))
    ensures OctalValue(OctalText(value, width)) == value
  {
    OctalBase();
    BodyOctal(value, width);
    BodyMeaning(value, OCTAL, ZeroPadded(width));
    var body := Body(value, OCTAL, ZeroPadded(width));
    ZeroLayout(body, width);
    ZeroPaddedMeans(body, width);
  }

  /** Zeros in front of digits fill a field without changing its value. */
  lemma {:induction false} ZeroPaddedMeans(body: seq<byte>, width: nat)
    requires Digits(body) && |body| <= width
    ensures var text := Repeat(ZERO, width - |body|) + body;
            ValidBase(OCTAL) && |text| == width && Digits(text) && OctalValue(text) == Meaning(body, OCTAL)
  {
    OctalBase();
    LeadingZeros(width - |body|, body, OCTAL);
    MeaningIsOctal(Repeat(ZERO, width - |body|) + body);
  }

  const ULONG_MAX: nat := 0xffff_ffff

  /** How many octal digits s starts with. */
  function DigitRun(s: seq<byte>): (n: nat)
    ensures n <= |s| && (n < |s| ==> !IsDigit(s[n])) && forall i :: 0 <= i < n ==> IsDigit(s[i])
  {
    if s == [] || !IsDigit(s[0]) then 0 else 1 + DigitRun(s[1..])
  }

  /** An octal field: digits ended by a space or a null byte. */
  function OctalField(s: seq<byte>): Option<nat> {
    var n := DigitRun(s);
    if n == 0 || n == |s| || (s[n] != SPACE && s[n] != 0)
       || OctalValue(s[..n]) < 0 || OctalValue(s[..n]) > ULONG_MAX then None
    else Some(OctalValue(s[..n]))
  }

  lemma {:induction false} RunUnique(s: seq<byte>, n: nat)
    requires n <= |s| && (n < |s| ==> !IsDigit(s[n])) && forall i :: 0 <= i < n ==> IsDigit(s[i])
    ensures DigitRun(s) == n
  {
    if n > 0 { RunUnique(s[1..], n - 1); }
  }

  lemma {:induction false} RunAtLeast(s: seq<byte>, n: nat)
    requires n <= |s| && forall i :: 0 <= i < n ==> IsDigit(s[i])
    ensures DigitRun(s) >= n
  {
    if n > 0 { RunAtLeast(s[1..], n - 1); }
  }

  lemma {:induction false} OctalValueGrows(s: seq<byte>, n: nat)
    requires Digits(s) && n <= |s|
    ensures 0 <= OctalValue(s[..n]) <= OctalValue(s)
    decreases |s|
  {
    if n < |s| {
      OctalValueGrows(s[..|s| - 1], n);
      assert s[..|s| - 1][..n] == s[..n];
    } else {
      assert s[..n] == s;
      if n > 0 { OctalValueGrows(s[..n - 1], n - 1); assert s[..n - 1][..n - 1] == s[..n - 1]; }
    }
  }

  /** parse_octal_field(). */
  method ParseOctalField(s: seq<byte>) returns (r: Option<nat>)
    ensures r == OctalField(s)
    ensures r.Some? ==> IsField(s, r.value)
    ensures r.None? ==> forall v: nat :: !IsField(s, v)
  {
    OctalFieldIff(s);
    var value: nat := 0;
    for ofs := 0 to |s|
      invariant Digits(s[..ofs]) && value == OctalValue(s[..ofs]) <= ULONG_MAX
    {
      var c := s[ofs];
      if ZERO <= c <= SEVEN {
        assert s[..ofs + 1][..ofs] == s[..ofs];
        if value > ULONG_MAX / 8 {
          Overflow(s, ofs);
          return None;
        }
        value := c - ZERO + value * 8;
      } else if c == SPACE || c == 0 {
        RunUnique(s, ofs);
        return if ofs > 0 then Some(value) else None;
      } else {
        RunUnique(s, ofs);
        return None;
      }
    }
    assert s[..|s|] == s;
    RunUnique(s, |s|);
    return None;
  }

  /** Once the value has become too big it stays so. */
  lemma {:induction false} Overflow(s: seq<byte>, k: nat)
    requires k < |s| && Digits(s[..k]) && IsDigit(s[k]) && OctalValue(s[..k]) > ULONG_MAX / 8
    ensures OctalField(s) == None
  {
    var n := DigitRun(s);
    assert forall i :: 0 <= i < k ==> IsDigit(s[..k][i]);
    RunAtLeast(s, k + 1);
    var t := s[..n];
    assert Digits(t) && t[..k + 1] == s[..k + 1] && s[..k + 1][..k] == s[..k];
    OctalValueGrows(t, k + 1);
  }

  // ----- What a field says

  /** s starts with n octal digits, at least one, that stand for v and are followed by a
      space or a null byte. */
  ghost predicate FieldAt(s: seq<byte>, n: nat, v: nat) {
    && 0 < n < |s| && (forall i :: 0 <= i < n ==> 48 <= s[i] <= 55) && (s[n] == 32 || s[n] == 0)
    && ValidBase(OCTAL) && Meaning(s[..n], OCTAL) == v <= 0xffff_ffff
  }

  ghost predicate IsField(s: seq<byte>, v: nat) {
    exists n :: FieldAt(s, n, v)
  }

  /** A field is read if and only if it says something, and then as what it says. */
  lemma {:induction false} OctalFieldIff(s: seq<byte>)
    ensures OctalField(s).Some? ==> IsField(s, OctalField(s).value)
    ensures forall v: nat :: IsField(s, v) ==> OctalField(s) == Some(v)
  {
    if OctalField(s).Some? {
      var n := DigitRun(s);
      MeaningIsOctal(s[..n]);
      assert FieldAt(s, n, OctalField(s).value);
    }
    forall v: nat | IsField(s, v) ensures OctalField(s) == Some(v) {
      var n: nat :| FieldAt(s, n, v);
      RunUnique(s, n);
      MeaningIsOctal(s[..n]);
    }
  }

  /** Printing into an octal field and parsing it gives the value back. */
  lemma {:induction false} FieldRoundTrip(value: nat, width: nat, rest: seq<byte>)
    requires value < Pow8(width) && width > 0 && value <= ULONG_MAX && rest != [] && rest[0] == 0
    ensures OctalField(OctalText(value, width) + rest) == Some(value)
  {
    var t := OctalText(value, width);
    OctalTextOk(value, width);
    RunUnique(t + rest, width);
    assert (t + rest)[..width] == t;
  }
}
