/** Headers of ustar archives (lib/ustar.c), the format of the pax utility in IEEE
    Std 1003.1-2001. */
module Ustar {
  import opened Basics
  import opened Octal

  const HEADER_SIZE: nat := 512
  const INT_MAX: nat := 0x7fff_ffff

  const DOT: byte := 46
  const SLASH: byte := 47

  // Where the fields are, and how long.
  const NAME: nat := 0
  const NAME_SIZE: nat := 100
  const MODE: nat := 100
  const UID: nat := 108
  const GID: nat := 116
  const SIZE: nat := 124
  const SIZE_SIZE: nat := 12
  const MTIME: nat := 136
  const CHKSUM: nat := 148
  const CHKSUM_SIZE: nat := 8
  const TYPEFLAG: nat := 156
  const MAGIC: nat := 257
  const VERSION: nat := 263
  const UNAME: nat := 265
  const GNAME: nat := 297
  const PREFIX: nat := 345

  const USTAR: seq<byte> := [117, 115, 116, 97, 114]
  const ROOT: seq<byte> := [114, 111, 111, 116]

  datatype FileType = Regular | Directory

  function TypeFlag(t: FileType): byte {
    match t
    case Regular => 48
    case Directory => 53
  }

  datatype Parsed = EndOfArchive | File(name: seq<byte>, kind: FileType, size: nat) | Failure(message: string)

  // ----- Names

  /** Starts with "/", "./" or "../". */
  predicate Antisocial(s: seq<byte>) {
    || (|s| >= 1 && s[0] == SLASH)
    || (|s| >= 2 && s[0] == DOT && s[1] == SLASH)
    || (|s| >= 3 && s[0] == DOT && s[1] == DOT && s[2] == SLASH)
  }

  /** What follows the first slash. */
  function AfterSlash(s: seq<byte>): (r: seq<byte>)
    requires SLASH in s
    ensures |r| < |s| && r == s[|s| - |r|..]
  {
    if s[0] == SLASH then s[1..] else AfterSlash(s[1..])
  }

  function Core(s: seq<byte>): (r: seq<byte>)
    ensures |r| <= |s| && r == s[|s| - |r|..] && !Antisocial(r)
    decreases |s|
  {
    if Antisocial(s) then Core(AfterSlash(s)) else s
  }

  /** The name ".". */
  function DotName(): (r: seq<byte>)
    ensures |r| == 1 && r[0] == DOT && !Antisocial(r)
  {
    seq(1, _ => DOT)
  }

  /** A name that is left empty, or as "..", becomes ".". */
  function OrDot(t: seq<byte>): seq<byte> {
    if |t| == 0 || (|t| == 2 && t[0] == DOT && t[1] == DOT) then DotName() else t
  }

  /** The name without its antisocial prefixes. */
  function Strip(s: seq<byte>): seq<byte> {
    OrDot(Core(s))
  }

  /** A stripped name is not stripped any further. */
  lemma {:induction false} StripIdempotent(s: seq<byte>)
    ensures !Antisocial(Strip(s)) && Strip(Strip(s)) == Strip(s)
  {
    var t := Strip(s);
    assert Core(t) == t;
  }

  ghost predicate NoNull(s: seq<byte>) {
    forall i :: 0 <= i < |s| ==> s[i] != 0
  }

  /** One round of stripping. */
  lemma {:induction false} StripRound(s: seq<byte>)
    requires Antisocial(s)
    ensures SLASH in s && |AfterSlash(s)| < |s| && Core(AfterSlash(s)) == Core(s)
    ensures NoNull(s) ==> NoNull(AfterSlash(s))
  {
    var r := AfterSlash(s);
    forall i | 0 <= i < |r| ensures r[i] == s[i + |s| - |r|] { assert r == s[|s| - |r|..]; }
  }

  // ----- What is stripped

  /** Length of the "/", "./" or "../" that s starts with, 0 if there is none. */
  function Piece(s: seq<byte>): (n: nat)
    ensures n <= |s|
  {
    if |s| >= 1 && s[0] == 47 then 1
    else if |s| >= 2 && s[0] == 46 && s[1] == 47 then 2
    else if |s| >= 3 && s[0] == 46 && s[1] == 46 && s[2] == 47 then 3
    else 0
  }

  /** Any number of these, one after the other. */
  predicate Dropped(p: seq<byte>) {
    p == [] || (Piece(p) > 0 && Dropped(p[Piece(p)..]))
  }

  /** r is s without such a beginning, as long as possible, or "." in place of nothing
      and of "..". */
  ghost predicate StripsTo(s: seq<byte>, r: seq<byte>) {
    exists k :: StripsAt(s, k, r)
  }

  ghost predicate StripsAt(s: seq<byte>, k: nat, r: seq<byte>) {
    k <= |s| && Dropped(s[..k]) && Stays(s[k..], r)
  }

  ghost predicate Stays(t: seq<byte>, r: seq<byte>) {
    && Piece(t) == 0
    && if |t| == 0 || (|t| == 2 && t[0] == t[1] == 46) then |r| == 1 && r[0] == 46 else r == t
  }

  /** One round takes away one piece. */
  lemma {:induction false} PieceGoes(s: seq<byte>)
    ensures Antisocial(s) <==> Piece(s) > 0
    ensures Antisocial(s) ==> SLASH in s && AfterSlash(s) == s[Piece(s)..]
  {
    if Antisocial(s) {
      var n := Piece(s);
      assert s[n - 1] == SLASH;
      if n > 1 {
        assert s[1..][n - 2] == SLASH;
        if n == 2 {
          assert AfterSlash(s[1..]) == s[1..][1..];
        } else {
          assert s[1..][1..] == s[2..] && s[2..][0] == SLASH;
          assert AfterSlash(s[2..]) == s[2..][1..];
          assert AfterSlash(s[1..]) == AfterSlash(s[2..]);
        }
      }
    }
  }

  lemma {:induction false} PieceOnly(p: seq<byte>, t: seq<byte>)
    requires Piece(p) > 0
    ensures Piece(p + t) == Piece(p) && (p + t)[Piece(p)..] == p[Piece(p)..] + t
  {
  }

  lemma {:induction false} PieceKept(s: seq<byte>, k: nat)
    requires 0 < Piece(s) <= k <= |s|
    ensures Piece(s[..k]) == Piece(s) && s[..k][Piece(s)..] == s[Piece(s)..][..k - Piece(s)]
    ensures s[k..] == s[Piece(s)..][k - Piece(s)..]
  {
  }

  /** Core() leaves what follows the prefixes. */
  lemma {:induction false} CoreAt(s: seq<byte>) returns (k: nat)
    ensures k <= |s| && Dropped(s[..k]) && Core(s) == s[k..]
    decreases |s|
  {
    PieceGoes(s);
    if Antisocial(s) {
      var n := Piece(s);
      var j := CoreAt(s[n..]);
      k := n + j;
      PieceKept(s, k);
      assert s[..k][n..] == s[n..][..j];
      DroppedMore(s[..k], n);
      assert Core(s) == Core(AfterSlash(s));
    } else {
      k := 0;
      assert s[..0] == [] && s[0..] == s;
    }
  }

  lemma {:induction false} DroppedMore(p: seq<byte>, n: nat)
    requires 0 < n == Piece(p) && Dropped(p[n..])
    ensures Dropped(p)
  {
  }

  lemma {:induction false} StripIs(s: seq<byte>)
    ensures StripsTo(s, Strip(s))
  {
    var k := CoreAt(s);
    PieceGoes(Core(s));
    assert StripsAt(s, k, Strip(s));
  }

  /** What is dropped does not matter. */
  lemma {:induction false} DroppedCore(p: seq<byte>, t: seq<byte>)
    requires Dropped(p)
    ensures Core(p + t) == Core(t)
    decreases |p|
  {
    if p == [] {
      assert p + t == t;
    } else {
      PieceOnly(p, t);
      PieceGoes(p + t);
      DroppedCore(p[Piece(p)..], t);
    }
  }

  lemma {:induction false} StaysIs(t: seq<byte>, r: seq<byte>)
    requires Stays(t, r)
    ensures Core(t) == t && OrDot(t) == r
  {
    PieceGoes(t);
  }

  lemma {:induction false} StripParts(s: seq<byte>, p: seq<byte>, t: seq<byte>, r: seq<byte>)
    requires s == p + t && Dropped(p) && Core(t) == t && OrDot(t) == r
    ensures Strip(s) == r
  {
    DroppedCore(p, t);
  }

  /** There is only one such name. */
  lemma {:induction false} StripOnly(s: seq<byte>, r: seq<byte>)
    requires StripsTo(s, r)
    ensures r == Strip(s)
  {
    var k: nat :| StripsAt(s, k, r);
    StaysIs(s[k..], r);
    assert s == s[..k] + s[k..];
    StripParts(s, s[..k], s[k..], r);
  }

  /** strip_antisocial_prefixes(). */
  method StripPrefixes(fileName: seq<byte>) returns (r: seq<byte>)
    ensures r == Strip(fileName) && StripsTo(fileName, r)
    ensures NoNull(fileName) ==> NoNull(r)
  {
    StripIs(fileName);
    r := fileName;
    while Antisocial(r)
      invariant Core(r) == Core(fileName)
      invariant NoNull(fileName) ==> NoNull(r)
      decreases |r|
    {
      StripRound(r);
      var i := FindSlash(r);
      r := r[i + 1..];
    }
    r := OrDot(r);
  }

  /** strchr (s, '/'). */
  method FindSlash(s: seq<byte>) returns (i: nat)
    requires SLASH in s
    ensures i < |s| && s[i + 1..] == AfterSlash(s)
  {
    i := 0;
    assert s[0..] == s;
    while s[i] != SLASH
      invariant i < |s| && SLASH in s[i..] && AfterSlash(s[i..]) == AfterSlash(s)
      decreases |s| - i
    {
      assert s[i..][1..] == s[i + 1..];
      i := i + 1;
    }
    assert s[i..][1..] == s[i + 1..];
  }

  /** The text up to the first null byte. */
  function CString(s: seq<byte>): (r: seq<byte>)
    ensures |r| <= |s| && r == s[..|r|] && (|r| < |s| ==> s[|r|] == 0)
  {
    if s == [] || s[0] == 0 then [] else [s[0]] + CString(s[1..])
  }

  lemma {:induction false} CStringIs(s: seq<byte>, name: seq<byte>)
    requires NoNull(name) && |name| < |s| && s[..|name|] == name && s[|name|] == 0
    ensures CString(s) == name
  {
    if name != [] {
      assert s[1..][..|name| - 1] == name[1..];
      CStringIs(s[1..], name[1..]);
    }
  }

  // ----- The checksum

  /** Sum of the first n bytes, the checksum field counting as spaces. */
  function Sum(h: seq<byte>, n: nat): nat
    requires n <= |h|
  {
    if n == 0 then 0
    else Sum(h, n - 1) + if CHKSUM <= n - 1 < CHKSUM + CHKSUM_SIZE then SPACE else h[n - 1]
  }

  function Checksum(h: seq<byte>): nat {
    Sum(h, |h|)
  }

  /** The checksum does not depend on the checksum field. */
  lemma {:induction false} SumIgnoresField(g: seq<byte>, h: seq<byte>, n: nat)
    requires n <= |g| == |h|
    requires forall i :: 0 <= i < |g| && !(CHKSUM <= i < CHKSUM + CHKSUM_SIZE) ==> g[i] == h[i]
    ensures Sum(g, n) == Sum(h, n)
  {
    if n > 0 { SumIgnoresField(g, h, n - 1); }
  }

  lemma {:induction false} SumBound(h: seq<byte>, n: nat)
    requires n <= |h|
    ensures Sum(h, n) <= 255 * n
  {
    if n > 0 { SumBound(h, n - 1); }
  }

  ghost function Total(s: seq<byte>): nat {
    if s == [] then 0 else Total(s[..|s| - 1]) + s[|s| - 1]
  }

  lemma {:induction false} TotalNext(h: seq<byte>, from: nat, n: nat)
    requires from < n <= |h|
    ensures Total(h[from..n]) == Total(h[from..n - 1]) + h[n - 1]
  {
    assert h[from..n][..n - 1 - from] == h[from..n - 1];
  }

  lemma {:induction false} SumBefore(h: seq<byte>, n: nat)
    requires n <= 148 <= |h|
    ensures Sum(h, n) == Total(h[0..n])
  {
    if n > 0 {
      SumBefore(h, n - 1);
      TotalNext(h, 0, n);
    }
  }

  lemma {:induction false} SumAfter(h: seq<byte>, n: nat)
    requires 156 <= n <= |h|
    ensures Sum(h, n) == Total(h[0..148]) + 8 * 32 + Total(h[156..n])
  {
    if n > 156 {
      SumAfter(h, n - 1);
      TotalNext(h, 156, n);
    } else {
      SumBefore(h, 148);
      assert Sum(h, 156) == Sum(h, 150) + 6 * 32 && Sum(h, 150) == Sum(h, 148) + 2 * 32 by { EightSpaces(h); }
    }
  }

  lemma {:induction false} EightSpaces(h: seq<byte>)
    requires 156 <= |h|
    ensures Sum(h, 150) == Sum(h, 148) + 2 * 32 && Sum(h, 156) == Sum(h, 150) + 6 * 32
  {
    assert Sum(h, 149) == Sum(h, 148) + 32;
    assert Sum(h, 151) == Sum(h, 150) + 32;
    assert Sum(h, 152) == Sum(h, 151) + 32;
    assert Sum(h, 153) == Sum(h, 152) + 32;
    assert Sum(h, 154) == Sum(h, 153) + 32;
    assert Sum(h, 155) == Sum(h, 154) + 32;
  }

  /** calculate_chksum(): the eight bytes of the checksum itself count as spaces. */
  method CalculateChksum(h: seq<byte>) returns (chksum: nat)
    requires |h| == HEADER_SIZE
    ensures chksum == Checksum(h) == Total(h[0..148]) + 8 * 32 + Total(h[156..512])
  {
    SumAfter(h, |h|);
    chksum := 0;
    for i := 0 to |h|
      invariant chksum == Sum(h, i)
    {
      var inField := i >= CHKSUM && i < CHKSUM + CHKSUM_SIZE;
      chksum := chksum + if inField then SPACE else h[i];
    }
  }

  // ----- Parsing

  function Field(h: seq<byte>, at: nat, size: nat): seq<byte>
    requires at + size <= |h|
  {
    h[at..at + size]
  }

  predicate AllZeros(h: seq<byte>) {
    forall i :: 0 <= i < |h| ==> h[i] == 0
  }

  /** The checks that come before a header's file type, in order. */
  function Validate(h: seq<byte>, chksum: Option<nat>, sum: nat): Option<string>
    requires |h| == HEADER_SIZE
  {
    if Field(h, MAGIC, 6) != USTAR + [0] then Some("not a ustar archive")
    else if h[VERSION] != ZERO || h[VERSION + 1] != ZERO then Some("invalid ustar version")
    else if chksum.None? then Some("corrupt chksum field")
    else if chksum.value != sum then Some("checksum mismatch")
    else if h[NAME + NAME_SIZE - 1] != 0 || h[PREFIX] != 0 then Some("file name too long")
    else None
  }

  /** A valid header's file. */
  function FileOf(flag: byte, name: seq<byte>, size: Option<nat>): Parsed {
    if flag == TypeFlag(Directory) then File(name, Directory, 0)
    else if flag != TypeFlag(Regular) then Failure("unimplemented file type")
    else
      match size
      case None => Failure("corrupt file size field")
      case Some(n) => if n > INT_MAX then Failure("file too large") else File(name, Regular, n)
  }

  /** What a header says. */
  function Parse(h: seq<byte>): Parsed
    requires |h| == HEADER_SIZE
  {
    if AllZeros(h) then EndOfArchive
    else
      match Validate(h, OctalField(Field(h, CHKSUM, CHKSUM_SIZE)), Checksum(h))
      case Some(message) => Failure(message)
      case None => FileOf(h[TYPEFLAG], Strip(CString(Field(h, NAME, NAME_SIZE))), OctalField(Field(h, SIZE, SIZE_SIZE)))
  }

  // ----- What the bytes of a header say

  ghost predicate MagicSaid(h: seq<byte>)
    requires |h| == 512
  {
    h[257] == 117 && h[258] == 115 && h[259] == 116 && h[260] == 97 && h[261] == 114 && h[262] == 0
  }

  ghost predicate VersionSaid(h: seq<byte>)
    requires |h| == 512
  {
    h[263] == 48 && h[264] == 48
  }

  ghost predicate ChksumSaid(h: seq<byte>)
    requires |h| == 512
  {
    exists v :: IsField(h[148..156], v)
  }

  /** The checksum field says the sum of all bytes, itself counting as spaces. */
  ghost predicate SumSaid(h: seq<byte>)
    requires |h| == 512
  {
    IsField(h[148..156], Total(h[0..148]) + 8 * 32 + Total(h[156..512]))
  }

  ghost predicate NameFits(h: seq<byte>)
    requires |h| == 512
  {
    h[99] == 0 && h[345] == 0
  }

  ghost predicate TypeSaid(h: seq<byte>)
    requires |h| == 512
  {
    h[156] == 48 || h[156] == 53
  }

  ghost predicate SizeSaid(h: seq<byte>)
    requires |h| == 512
  {
    h[156] == 48 ==> exists v :: IsField(h[124..136], v)
  }

  ghost predicate SizeFits(h: seq<byte>)
    requires |h| == 512
  {
    h[156] == 48 ==> forall v :: IsField(h[124..136], v) ==> v <= 0x7fff_ffff
  }

  ghost predicate Acceptable(h: seq<byte>)
    requires |h| == 512
  {
    && MagicSaid(h) && VersionSaid(h) && SumSaid(h) && NameFits(h)
    && TypeSaid(h) && SizeSaid(h) && SizeFits(h)
  }

  /** The file that an acceptable header is about. */
  ghost predicate Says(h: seq<byte>, name: seq<byte>, kind: FileType, size: nat)
    requires |h| == 512
  {
    && (kind.Regular? <==> h[156] == 48) && (kind.Directory? <==> h[156] == 53)
    && (if kind.Regular? then IsField(h[124..136], size) else size == 0)
    && exists n: nat :: NameEnds(h, n) && StripsTo(h[..n], name)
  }

  /** The name field holds n bytes before the first null byte. */
  ghost predicate NameEnds(h: seq<byte>, n: nat) {
    n < |h| && h[n] == 0 && forall i :: 0 <= i < n ==> h[i] != 0
  }

  /** is_all_zeros(). */
  method IsAllZeros(block: seq<byte>) returns (r: bool)
    ensures r == AllZeros(block)
  {
    for i := 0 to |block|
      invariant forall j :: 0 <= j < i ==> block[j] == 0
    {
      if block[i] != 0 { return false; }
    }
    return true;
  }

  /** ustar_parse_header(). */
  method ParseHeader(h: seq<byte>) returns (r: Parsed)
    requires |h| == HEADER_SIZE
    ensures r == Parse(h)
    ensures r.EndOfArchive? <==> forall i :: 0 <= i < 512 ==> h[i] == 0
    ensures r.File? <==> Acceptable(h)
    ensures r.File? ==> Says(h, r.name, r.kind, r.size)
  {
    ParseIff(h);
    var zeros := IsAllZeros(h);
    if zeros { return EndOfArchive; }
    if Field(h, MAGIC, 6) != USTAR + [0] { return Failure("not a ustar archive"); }
    if h[VERSION] != ZERO || h[VERSION + 1] != ZERO { return Failure("invalid ustar version"); }
    var chksum := ParseOctalField(Field(h, CHKSUM, CHKSUM_SIZE));
    if chksum.None? { return Failure("corrupt chksum field"); }
    var sum := CalculateChksum(h);
    if chksum.value != sum { return Failure("checksum mismatch"); }
    if h[NAME + NAME_SIZE - 1] != 0 || h[PREFIX] != 0 { return Failure("file name too long"); }
    if h[TYPEFLAG] != TypeFlag(Regular) && h[TYPEFLAG] != TypeFlag(Directory) {
      return Failure("unimplemented file type");
    }
    var size: nat := 0;
    if h[TYPEFLAG] == TypeFlag(Regular) {
      var s := ParseOctalField(Field(h, SIZE, SIZE_SIZE));
      if s.None? { return Failure("corrupt file size field"); }
      if s.value > INT_MAX { return Failure("file too large"); }
      size := s.value;
    }
    var name := StripPrefixes(CString(Field(h, NAME, NAME_SIZE)));
    r := File(name, if h[TYPEFLAG] == TypeFlag(Regular) then Regular else Directory, size);
  }

  // ----- Which headers are accepted

  /** The two fields are read if and only if they say something, and as what they say. */
  lemma {:induction false} FieldsRead(h: seq<byte>)
    requires |h| == 512
    ensures var c := OctalField(Field(h, CHKSUM, CHKSUM_SIZE));
            && (c.Some? <==> ChksumSaid(h)) && (c == Some(Checksum(h)) <==> SumSaid(h))
    ensures var n := OctalField(Field(h, SIZE, SIZE_SIZE));
            && (n.Some? <==> exists v :: IsField(h[124..136], v))
            && (n.Some? ==> IsField(h[124..136], n.value) && forall v :: IsField(h[124..136], v) ==> v == n.value)
  {
    OctalFieldIff(h[148..156]);
    OctalFieldIff(h[124..136]);
    SumAfter(h, 512);
  }

  lemma {:induction false} MagicIff(h: seq<byte>)
    requires |h| == 512
    ensures Field(h, MAGIC, 6) == USTAR + [0] <==> MagicSaid(h)
  {
    var m := USTAR + [0];
    assert |m| == 6 && m[0] == 117 && m[1] == 115 && m[2] == 116 && m[3] == 97 && m[4] == 114 && m[5] == 0;
    var f := Field(h, MAGIC, 6);
    assert forall i :: 0 <= i < 6 ==> f[i] == h[257 + i];
    if MagicSaid(h) { assert forall i :: 0 <= i < 6 ==> f[i] == m[i]; }
    if f == m {
      assert f[0] == h[257] && f[1] == h[258] && f[2] == h[259] && f[3] == h[260] && f[4] == h[261] && f[5] == h[262];
    }
  }

  /** Each of the messages means that the first condition that does not hold is its own. */
  lemma {:induction false} ValidateIff(h: seq<byte>)
    requires |h| == 512
    ensures var r := Validate(h, OctalField(Field(h, CHKSUM, CHKSUM_SIZE)), Checksum(h));
            && (r == Some("not a ustar archive") <==> !MagicSaid(h))
            && (r == Some("invalid ustar version") <==> MagicSaid(h) && !VersionSaid(h))
            && (r == Some("corrupt chksum field") <==> MagicSaid(h) && VersionSaid(h) && !ChksumSaid(h))
            && (r == Some("checksum mismatch") <==> MagicSaid(h) && VersionSaid(h) && ChksumSaid(h) && !SumSaid(h))
            && (r == Some("file name too long") <==> MagicSaid(h) && VersionSaid(h) && SumSaid(h) && !NameFits(h))
            && (r.None? <==> MagicSaid(h) && VersionSaid(h) && SumSaid(h) && NameFits(h))
  {
    MagicIff(h);
    FieldsRead(h);
    Distinct();
  }

  lemma {:induction false} Distinct()
    ensures |"not a ustar archive"| == 19 && |"invalid ustar version"| == 21 && |"corrupt chksum field"| == 20
    ensures |"checksum mismatch"| == 17 && |"file name too long"| == 18 && |"file too large"| == 14
    ensures |"unimplemented file type"| == 23 && |"corrupt file size field"| == 23
    ensures "unimplemented file type" != "corrupt file size field"
  {
    assert "unimplemented file type"[0] == 'u' && "corrupt file size field"[0] == 'c';
  }

  lemma {:induction false} NameRead(h: seq<byte>)
    requires |h| == 512 && NameFits(h)
    ensures var t := CString(Field(h, NAME, NAME_SIZE)); NameEnds(h, |t|) && t == h[..|t|]
  {
    var f := Field(h, NAME, NAME_SIZE);
    var t := CString(f);
    CStringNoNull(f);
    assert f == h[..100] && f[99] == 0;
    assert forall i :: 0 <= i < |t| ==> f[i] == t[i] != 0;
    assert t == h[..|t|];
    forall i | 0 <= i < |t| ensures h[i] != 0 { assert h[i] == t[i]; }
  }

  lemma {:induction false} CStringNoNull(s: seq<byte>)
    ensures NoNull(CString(s))
  {
    if s != [] && s[0] != 0 { CStringNoNull(s[1..]); }
  }

  /** What becomes of a header that passes the first checks. */
  lemma {:induction false} FileOfIff(h: seq<byte>, name: seq<byte>)
    requires |h| == 512
    ensures var r := FileOf(h[TYPEFLAG], name, OctalField(Field(h, SIZE, SIZE_SIZE)));
            && (r.File? <==> TypeSaid(h) && SizeSaid(h) && SizeFits(h)) && !r.EndOfArchive?
            && (r == Failure("unimplemented file type") <==> !TypeSaid(h))
            && (r == Failure("corrupt file size field") <==> TypeSaid(h) && !SizeSaid(h))
            && (r == Failure("file too large") <==> TypeSaid(h) && SizeSaid(h) && !SizeFits(h))
            && (r.File? ==>
                  && r.name == name && (r.kind.Regular? <==> h[156] == 48) && (r.kind.Directory? <==> h[156] == 53)
                  && if r.kind.Regular? then IsField(h[124..136], r.size) else r.size == 0)
  {
    FieldsRead(h);
    Distinct();
  }

  /** A header is accepted if and only if its bytes say all that it must say, and then
      as the file that they say. */
  lemma {:induction false} ParseIff(h: seq<byte>)
    requires |h| == 512
    ensures Parse(h).EndOfArchive? <==> AllZeros(h)
    ensures Parse(h).File? <==> Acceptable(h)
    ensures Parse(h).File? ==> Says(h, Parse(h).name, Parse(h).kind, Parse(h).size)
  {
    ValidateIff(h);
    var t := CString(Field(h, NAME, NAME_SIZE));
    FileOfIff(h, Strip(t));
    if NameFits(h) {
      NameRead(h);
      StripIs(t);
    }
  }

  /** The message is that of the first condition that does not hold. */
  lemma {:induction false} MessageIff(h: seq<byte>)
    requires |h| == 512 && !AllZeros(h)
    ensures Parse(h) == Failure("not a ustar archive") <==> !MagicSaid(h)
    ensures Parse(h) == Failure("invalid ustar version") <==> MagicSaid(h) && !VersionSaid(h)
    ensures Parse(h) == Failure("corrupt chksum field") <==> MagicSaid(h) && VersionSaid(h) && !ChksumSaid(h)
    ensures Parse(h) == Failure("checksum mismatch") <==> MagicSaid(h) && VersionSaid(h) && ChksumSaid(h) && !SumSaid(h)
    ensures Parse(h) == Failure("file name too long") <==> MagicSaid(h) && VersionSaid(h) && SumSaid(h) && !NameFits(h)
    ensures MagicSaid(h) && VersionSaid(h) && SumSaid(h) && NameFits(h) ==>
              && (Parse(h) == Failure("unimplemented file type") <==> !TypeSaid(h))
              && (Parse(h) == Failure("corrupt file size field") <==> TypeSaid(h) && !SizeSaid(h))
              && (Parse(h) == Failure("file too large") <==> TypeSaid(h) && SizeSaid(h) && !SizeFits(h))
  {
    ValidateIff(h);
    FileOfIff(h, Strip(CString(Field(h, NAME, NAME_SIZE))));
    Distinct();
  }

  // ----- Damaged headers

  /** One byte changes the sum. */
  lemma {:induction false} TotalChanged(s: seq<byte>, i: nat, b: byte)
    requires i < |s|
    ensures Total(s[i := b]) == Total(s) - s[i] + b
    decreases |s|
  {
    var n := |s| - 1;
    if i < n {
      TotalChanged(s[..n], i, b);
      assert s[i := b][..n] == s[..n][i := b];
    } else {
      assert s[i := b][..n] == s[..n];
    }
  }

  lemma {:induction false} SumChanged(h: seq<byte>, i: nat, b: byte)
    requires |h| == 512 && i < 512 && !(148 <= i < 156)
    ensures var g := h[i := b];
            Total(g[0..148]) + Total(g[156..512]) == Total(h[0..148]) + Total(h[156..512]) - h[i] + b
  {
    var g := h[i := b];
    if i < 148 {
      assert g[0..148] == h[0..148][i := b] && g[156..512] == h[156..512];
      TotalChanged(h[0..148], i, b);
    } else {
      assert g[0..148] == h[0..148] && g[156..512] == h[156..512][i - 156 := b];
      TotalChanged(h[156..512], i - 156, b);
    }
  }

  /** A header whose checksum is right is refused once any other byte has changed. */
  lemma {:induction false} OneByteChanged(h: seq<byte>, i: nat, b: byte)
    requires |h| == 512 && SumSaid(h) && i < 512 && !(148 <= i < 156) && b != h[i]
    ensures Parse(h[i := b]).Failure?
  {
    var g := h[i := b];
    assert g[148..156] == h[148..156];
    SumChanged(h, i, b);
    OctalFieldIff(h[148..156]);
    assert g[148] != 0 by {
      var n: nat :| FieldAt(h[148..156], n, Total(h[0..148]) + 8 * 32 + Total(h[156..512]));
      assert h[148..156][0] == g[148];
    }
    ParseIff(g);
  }

  // ----- Making

  /** data lies at `at`. */
  ghost predicate Has(h: seq<byte>, at: nat, data: seq<byte>) {
    at + |data| <= |h| && forall i :: 0 <= i < |data| ==> h[at + i] == data[i]
  }

  /** Nothing but the n bytes from `at` on differs. */
  ghost predicate SameBut(g: seq<byte>, h: seq<byte>, at: nat, n: nat) {
    |g| == |h| && forall i :: 0 <= i < |g| && !(at <= i < at + n) ==> g[i] == h[i]
  }

  /** What strlcpy() and snprintf() leave of a text in a field of n bytes. */
  function Terminated(text: seq<byte>, n: nat): (r: seq<byte>)
    requires n > 0
    ensures 0 < |r| <= n
  {
    (if |text| < n then text else text[..n - 1]) + [0]
  }

  /** h with the bytes from `at` on replaced by data. */
  function Written(h: seq<byte>, at: nat, data: seq<byte>): (r: seq<byte>)
    requires at + |data| <= |h|
    ensures |r| == |h|
  {
    h[..at] + data + h[at + |data|..]
  }

  lemma {:induction false} WrittenIs(h: seq<byte>, at: nat, data: seq<byte>)
    requires at + |data| <= |h|
    ensures Has(Written(h, at, data), at, data) && SameBut(h, Written(h, at, data), at, |data|)
  {
  }

  method Put(h: array<byte>, at: nat, data: seq<byte>)
    requires at + |data| <= h.Length
    modifies h
    ensures h[..] == Written(old(h[..]), at, data)
  {
    for i := 0 to |data|
      invariant Has(h[..], at, data[..i]) && SameBut(old(h[..]), h[..], at, i)
    {
      h[at + i] := data[i];
    }
    WrittenIs(old(h[..]), at, data);
    ghost var w := Written(old(h[..]), at, data);
    assert data[..|data|] == data;
    forall k | 0 <= k < h.Length ensures h[k] == w[k] {
      if at <= k < at + |data| { assert h[..][at + (k - at)] == data[k - at] == w[at + (k - at)]; }
    }
  }

  /** The fields that do not depend on the file, beside zeros. */
  ghost predicate HasFixed(h: seq<byte>, mtime: seq<byte>) {
    && Has(h, UID, OctalZeros()) && Has(h, GID, OctalZeros()) && Has(h, MTIME, mtime)
    && Has(h, MAGIC, USTAR + [0]) && Has(h, VERSION, [ZERO, ZERO])
    && Has(h, GNAME, ROOT + [0]) && Has(h, UNAME, ROOT + [0])
  }

  /** "0000000" and its null byte. */
  function OctalZeros(): seq<byte> {
    [48, 48, 48, 48, 48, 48, 48, 0]
  }

  /** All fields but the checksum. */
  ghost predicate HasFields(h: seq<byte>, name: seq<byte>, mode: seq<byte>, size: seq<byte>, mtime: seq<byte>,
      flag: byte)
  {
    HasOwn(h, name, mode, size, flag) && HasFixed(h, mtime)
  }

  /** The texts that snprintf() puts into the octal fields. */
  function ModeText(kind: FileType): (r: seq<byte>)
    ensures |r| <= 8
  {
    Terminated(OctalText(if kind.Regular? then 420 else 493, 7), 8)
  }

  function SizeText(size: nat): (r: seq<byte>)
    ensures |r| <= SIZE_SIZE
  {
    Terminated(OctalText(size, 11), SIZE_SIZE)
  }

  function MtimeText(): (r: seq<byte>)
    ensures |r| <= 12
  {
    Terminated(OctalText(1136102400, 11), 12)
  }

  function ChksumText(chksum: nat): (r: seq<byte>)
    ensures |r| <= CHKSUM_SIZE
  {
    Terminated(OctalText(chksum, 7), CHKSUM_SIZE)
  }

  function WithFixed(h: seq<byte>, mtime: seq<byte>): (r: seq<byte>)
    requires |h| == HEADER_SIZE && |mtime| <= 12
    ensures |r| == |h|
  {
    var h1 := Written(Written(Written(h, UID, OctalZeros()), GID, OctalZeros()), MTIME, mtime);
    var h2 := Written(Written(h1, MAGIC, USTAR + [0]), VERSION, [ZERO, ZERO]);
    Written(Written(h2, GNAME, ROOT + [0]), UNAME, ROOT + [0])
  }

  function Fields(h: seq<byte>, name: seq<byte>, mode: seq<byte>, size: seq<byte>, mtime: seq<byte>,
      flag: byte): (r: seq<byte>)
    requires |h| == HEADER_SIZE && |name| < NAME_SIZE && |mode| <= 8 && |size| <= SIZE_SIZE && |mtime| <= 12
    ensures |r| == |h|
  {
    var h1 := Written(Written(h, NAME, name + [0]), MODE, mode);
    WithFixed(Written(Written(h1, SIZE, size), TYPEFLAG, [flag]), mtime)
  }

  function WithChksum(h: seq<byte>): (r: seq<byte>)
    requires |h| == HEADER_SIZE
    ensures |r| == |h|
  {
    Written(h, CHKSUM, ChksumText(Checksum(h)))
  }

  function Zeros(): (r: seq<byte>)
    ensures |r| == HEADER_SIZE && AllZeros(r)
  {
    seq(HEADER_SIZE, _ => 0)
  }

  /** The header of a file. */
  function Header(name: seq<byte>, kind: FileType, size: nat): (r: seq<byte>)
    requires |name| < NAME_SIZE
    ensures |r| == HEADER_SIZE
  {
    WithChksum(Fields(Zeros(), name, ModeText(kind), SizeText(size), MtimeText(), TypeFlag(kind)))
  }

  /** The value an int has as an unsigned int. */
  function Unsigned(size: int): nat {
    size % 0x1_0000_0000
  }

  method FormatOctal(value: nat, width: nat) returns (text: seq<byte>)
    ensures text == OctalText(value, width)
  {
    text := FormatInteger(value, false, false, OCTAL, ZeroPadded(width));
  }

  method PutFixed(h: array<byte>, mtime: seq<byte>)
    requires h.Length == HEADER_SIZE && |mtime| <= 12
    modifies h
    ensures h[..] == WithFixed(old(h[..]), mtime)
  {
    Put(h, UID, OctalZeros());
    Put(h, GID, OctalZeros());
    Put(h, MTIME, mtime);
    Put(h, MAGIC, USTAR + [0]);
    Put(h, VERSION, [ZERO, ZERO]);
    Put(h, GNAME, ROOT + [0]);
    Put(h, UNAME, ROOT + [0]);
  }

  /** All fields but the checksum are filled in. */
  method PutFields(h: array<byte>, name: seq<byte>, mode: seq<byte>, size: seq<byte>, mtime: seq<byte>, flag: byte)
    requires h.Length == HEADER_SIZE && |name| < NAME_SIZE && |mode| <= 8 && |size| <= SIZE_SIZE && |mtime| <= 12
    modifies h
    ensures h[..] == Fields(old(h[..]), name, mode, size, mtime, flag)
  {
    Put(h, NAME, name + [0]);
    Put(h, MODE, mode);
    Put(h, SIZE, size);
    Put(h, TYPEFLAG, [flag]);
    PutFixed(h, mtime);
  }

  /** memset (h, 0, sizeof *h). */
  method Clear(h: array<byte>)
    requires h.Length == HEADER_SIZE
    modifies h
    ensures h[..] == Zeros()
  {
    for i := 0 to HEADER_SIZE
      invariant forall j :: 0 <= j < i ==> h[j] == 0
    {
      h[i] := 0;
    }
  }

  /** The checksum of everything else is filled in last. */
  method PutChksum(h: array<byte>)
    requires h.Length == HEADER_SIZE
    modifies h
    ensures h[..] == WithChksum(old(h[..]))
  {
    var chksum := CalculateChksum(h[..]);
    var text := FormatOctal(chksum, 7);
    Put(h, CHKSUM, Terminated(text, CHKSUM_SIZE));
  }

  /** ustar_make_header() for a file of `size` bytes, an int. */
  method MakeHeader(fileName: seq<byte>, kind: FileType, size: int, h: array<byte>) returns (ok: bool)
    requires h.Length == HEADER_SIZE && NoNull(fileName)
    modifies h
    ensures ok <==> |Strip(fileName)| <= 99
    ensures ok ==> h[..] == Header(Strip(fileName), kind, Unsigned(size))
    ensures ok ==> exists name :: StripsTo(fileName, name) && Made(h[..], name, kind, size % 0x1_0000_0000)
    ensures !ok ==> h[..] == old(h[..])
  {
    var name := StripPrefixes(fileName);
    if |name| > 99 { return false; }
    var mode := FormatOctal(if kind.Regular? then 420 else 493, 7);
    var sizeText := FormatOctal(Unsigned(size), 11);
    var mtime := FormatOctal(1136102400, 11);
    Clear(h);
    PutFields(h, name, Terminated(mode, 8), Terminated(sizeText, SIZE_SIZE), Terminated(mtime, 12), TypeFlag(kind));
    PutChksum(h);
    HeaderIsMade(name, kind, Unsigned(size));
    ok := true;
  }

  // ----- What the header holds

  lemma {:induction false} FixedOk(h: seq<byte>, mtime: seq<byte>)
    requires |h| == HEADER_SIZE && |mtime| <= 12
    ensures HasFixed(WithFixed(h, mtime), mtime)
    ensures forall i :: 0 <= i < HEADER_SIZE && !InFixed(i) ==> WithFixed(h, mtime)[i] == h[i]
  {
    var h1 := Written(h, UID, OctalZeros());
    var h2 := Written(h1, GID, OctalZeros());
    var h3 := Written(h2, MTIME, mtime);
    var h4 := Written(h3, MAGIC, USTAR + [0]);
    var h5 := Written(h4, VERSION, [ZERO, ZERO]);
    var h6 := Written(h5, GNAME, ROOT + [0]);
    WrittenIs(h, UID, OctalZeros());
    WrittenIs(h1, GID, OctalZeros());
    WrittenIs(h2, MTIME, mtime);
    WrittenIs(h3, MAGIC, USTAR + [0]);
    WrittenIs(h4, VERSION, [ZERO, ZERO]);
    WrittenIs(h5, GNAME, ROOT + [0]);
    WrittenIs(h6, UNAME, ROOT + [0]);
  }

  /** Bytes of the fields that HasFixed() is about. */
  predicate InFixed(i: nat) {
    UID <= i < SIZE || MTIME <= i < CHKSUM || MAGIC <= i < 329
  }

  /** The fields of the file itself, but the checksum. */
  ghost predicate HasOwn(h: seq<byte>, name: seq<byte>, mode: seq<byte>, size: seq<byte>, flag: byte) {
    && |h| == HEADER_SIZE
    && Has(h, NAME, name + [0]) && h[NAME + NAME_SIZE - 1] == 0 && h[PREFIX] == 0
    && Has(h, MODE, mode) && Has(h, SIZE, size) && h[TYPEFLAG] == flag
  }

  lemma {:induction false} NameOk(h: seq<byte>, name: seq<byte>)
    requires h == Zeros() && |name| < NAME_SIZE
    ensures var r := Written(h, NAME, name + [0]);
            Has(r, NAME, name + [0]) && r[NAME + NAME_SIZE - 1] == 0 && r[PREFIX] == 0
  {
    WrittenIs(h, NAME, name + [0]);
    var r := Written(h, NAME, name + [0]);
    assert r[NAME + |name|] == (name + [0])[|name|];
  }

  /** Writing elsewhere leaves a field as it was. */
  lemma {:induction false} HasKept(h: seq<byte>, r: seq<byte>, from: nat, n: nat, at: nat, data: seq<byte>)
    requires SameBut(h, r, from, n) && Has(h, at, data) && (at + |data| <= from || from + n <= at)
    ensures Has(r, at, data)
  {
  }

  lemma {:induction false} OwnOk(h: seq<byte>, name: seq<byte>, mode: seq<byte>, size: seq<byte>, flag: byte)
    requires h == Zeros() && |name| < NAME_SIZE && |mode| <= 8 && |size| <= SIZE_SIZE
    ensures var h1 := Written(Written(h, NAME, name + [0]), MODE, mode);
            HasOwn(Written(Written(h1, SIZE, size), TYPEFLAG, [flag]), name, mode, size, flag)
  {
    var text := name + [0];
    var h1 := Written(h, NAME, text);
    var h2 := Written(h1, MODE, mode);
    var h3 := Written(h2, SIZE, size);
    var h4 := Written(h3, TYPEFLAG, [flag]);
    NameOk(h, name);
    WrittenIs(h1, MODE, mode);
    HasKept(h1, h2, MODE, |mode|, NAME, text);
    WrittenIs(h2, SIZE, size);
    HasKept(h2, h3, SIZE, |size|, NAME, text);
    HasKept(h2, h3, SIZE, |size|, MODE, mode);
    WrittenIs(h3, TYPEFLAG, [flag]);
    HasKept(h3, h4, TYPEFLAG, 1, NAME, text);
    HasKept(h3, h4, TYPEFLAG, 1, MODE, mode);
    HasKept(h3, h4, TYPEFLAG, 1, SIZE, size);
    assert h4[TYPEFLAG + 0] == [flag][0];
  }

  lemma {:induction false} FieldsOk(h: seq<byte>, name: seq<byte>, mode: seq<byte>, size: seq<byte>,
      mtime: seq<byte>, flag: byte)
    requires h == Zeros() && |name| < NAME_SIZE && |mode| <= 8 && |size| <= SIZE_SIZE && |mtime| <= 12
    ensures HasFields(Fields(h, name, mode, size, mtime, flag), name, mode, size, mtime, flag)
  {
    OwnOk(h, name, mode, size, flag);
    var h1 := Written(Written(h, NAME, name + [0]), MODE, mode);
    var g := Written(Written(h1, SIZE, size), TYPEFLAG, [flag]);
    FixedOk(g, mtime);
    OwnKept(g, WithFixed(g, mtime), name, mode, size, flag);
  }

  lemma {:induction false} OwnKept(g: seq<byte>, r: seq<byte>, name: seq<byte>, mode: seq<byte>, size: seq<byte>,
      flag: byte)
    requires HasOwn(g, name, mode, size, flag) && |name| < NAME_SIZE && |mode| <= 8 && |size| <= SIZE_SIZE
    requires |r| == |g| && forall i :: 0 <= i < |g| && !InFixed(i) ==> r[i] == g[i]
    ensures HasOwn(r, name, mode, size, flag)
  {
  }

  lemma {:induction false} ChksumLast(g: seq<byte>, name: seq<byte>, mode: seq<byte>, size: seq<byte>,
      mtime: seq<byte>, flag: byte)
    requires HasFields(g, name, mode, size, mtime, flag)
    requires |name| < NAME_SIZE && |mode| <= 8 && |size| <= SIZE_SIZE && |mtime| <= 12
    ensures HasFields(WithChksum(g), name, mode, size, mtime, flag)
    ensures Has(WithChksum(g), CHKSUM, ChksumText(Checksum(WithChksum(g))))
  {
    var text := ChksumText(Checksum(g));
    WrittenIs(g, CHKSUM, text);
    SumIgnoresField(g, WithChksum(g), |g|);
  }

  // ----- Every byte of a header

  /** The zeros between fields and after them. */
  predicate Between(i: nat) {
    157 <= i < 257 || 270 <= i < 297 || 302 <= i < 512
  }

  /** The header of a file, byte by byte. */
  ghost predicate Made(h: seq<byte>, name: seq<byte>, kind: FileType, size: nat) {
    && |h| == 512 && |name| < 100
    && h[..|name|] == name && (forall i :: |name| <= i < 100 ==> h[i] == 0)
    && h[100..108] == (if kind.Regular? then [48, 48, 48, 48, 54, 52, 52, 0] else [48, 48, 48, 48, 55, 53, 53, 0])
    && h[108..116] == [48, 48, 48, 48, 48, 48, 48, 0] == h[116..124]
    && IsField(h[124..136], size)
    && h[136..148] == [49, 48, 51, 53, 53, 55, 48, 54, 48, 48, 48, 0]
    && SumSaid(h) && h[156] == (if kind.Regular? then 48 else 53)
    && MagicSaid(h) && VersionSaid(h)
    && h[265..270] == [114, 111, 111, 116, 0] == h[297..302]
    && (forall i :: 0 <= i < 512 && Between(i) ==> h[i] == 0)
  }

  lemma {:induction false} WrittenAt(h: seq<byte>, at: nat, data: seq<byte>, i: nat)
    requires at + |data| <= |h| && i < |h|
    ensures Written(h, at, data)[i] == if at <= i < at + |data| then data[i - at] else h[i]
  {
  }

  /** Texts of the same length that stand for the same number are the same. */
  lemma {:induction false} SameDigits(s: seq<byte>, t: seq<byte>)
    requires Digits(s) && Digits(t) && |s| == |t| && OctalValue(s) == OctalValue(t)
    ensures s == t
  {
    if s != [] {
      var n := |s| - 1;
      SameDigits(s[..n], t[..n]);
      assert s == s[..n] + [s[n]] && t == t[..n] + [t[n]];
    }
  }

  lemma {:induction false} ValueNext(s: seq<byte>, n: nat)
    requires n < |s|
    ensures OctalValue(s[..n + 1]) == OctalValue(s[..n]) * 8 + (s[n] as int - 48)
  {
    assert s[..n + 1][..n] == s[..n];
  }

  /** The value of the first four digits. */
  lemma {:induction false} FourDigits(s: seq<byte>, n: nat)
    requires n + 4 <= |s|
    ensures OctalValue(s[..n + 4]) ==
            OctalValue(s[..n]) * 4096 + (s[n] as int - 48) * 512 + (s[n + 1] as int - 48) * 64
            + (s[n + 2] as int - 48) * 8 + (s[n + 3] as int - 48)
  {
    ValueNext(s, n);
    ValueNext(s, n + 1);
    ValueNext(s, n + 2);
    ValueNext(s, n + 3);
  }

  /** A field is filled with the one text that stands for its value. */
  lemma {:induction false} TextIs(value: nat, width: nat, s: seq<byte>)
    requires value < Pow8(width) && width > 0 && |s| == width && Digits(s) && OctalValue(s) == value
    ensures Terminated(OctalText(value, width), width + 1) == s + [0]
  {
    OctalTextOk(value, width);
    SameDigits(OctalText(value, width), s);
  }

  lemma {:induction false} ModeValue(s: seq<byte>, x: byte, y: byte)
    requires |s| == 7 && s[0] == s[1] == s[2] == s[3] == 48 && s[4] == x && s[5] == s[6] == y
    ensures OctalValue(s) == (x as int - 48) * 64 + (y as int - 48) * 9
  {
    assert s[..0] == [] && s[..7] == s;
    FourDigits(s, 0);
    ValueNext(s, 4);
    ValueNext(s, 5);
    ValueNext(s, 6);
  }

  lemma {:induction false} ModeIs(kind: FileType)
    ensures ModeText(kind) == if kind.Regular? then [48, 48, 48, 48, 54, 52, 52, 0] else [48, 48, 48, 48, 55, 53, 53, 0]
  {
    var x: byte, y: byte := if kind.Regular? then 54 else 55, if kind.Regular? then 52 else 53;
    var s: seq<byte> := seq(7, i => if i < 4 then 48 else if i == 4 then x else y);
    ModeValue(s, x, y);
    Powers();
    TextIs(if kind.Regular? then 420 else 493, 7, s);
    assert s + [0] == [48, 48, 48, 48, x, y, y, 0];
  }

  lemma {:induction false} MtimeValue(s: seq<byte>)
    requires |s| == 11 && Digits(s)
    requires s[0] == 49 && s[1] == 48 && s[2] == 51 && s[3] == 53 && s[4] == 53 && s[5] == 55
    requires s[6] == 48 && s[7] == 54 && s[8] == s[9] == s[10] == 48
    ensures OctalValue(s) == 1136102400 && MtimeText() == s + [0]
  {
    assert s[..0] == [] && s[..11] == s;
    FourDigits(s, 0);
    FourDigits(s, 4);
    ValueNext(s, 8);
    ValueNext(s, 9);
    ValueNext(s, 10);
    Powers();
    TextIs(1136102400, 11, s);
  }

  lemma {:induction false} MtimeIs()
    ensures MtimeText() == [49, 48, 51, 53, 53, 55, 48, 54, 48, 48, 48, 0]
  {
    var full: seq<byte> := [49, 48, 51, 53, 53, 55, 48, 54, 48, 48, 48, 0];
    var s: seq<byte> := seq(11, i requires 0 <= i < 11 => full[i]);
    MtimeValue(s);
    assert s + [0] == full;
  }

  lemma {:induction false} FixedZeros(h: seq<byte>, mtime: seq<byte>, i: nat)
    requires |h| == HEADER_SIZE && |mtime| <= 12 && i < 512 && (i < 100 || Between(i))
    ensures WithFixed(h, mtime)[i] == h[i]
  {
    var h1 := Written(h, UID, OctalZeros());
    var h2 := Written(h1, GID, OctalZeros());
    var h3 := Written(h2, MTIME, mtime);
    var h4 := Written(h3, MAGIC, USTAR + [0]);
    var h5 := Written(h4, VERSION, [ZERO, ZERO]);
    var h6 := Written(h5, GNAME, ROOT + [0]);
    WrittenAt(h, UID, OctalZeros(), i);
    WrittenAt(h1, GID, OctalZeros(), i);
    WrittenAt(h2, MTIME, mtime, i);
    WrittenAt(h3, MAGIC, USTAR + [0], i);
    WrittenAt(h4, VERSION, [ZERO, ZERO], i);
    WrittenAt(h5, GNAME, ROOT + [0], i);
    WrittenAt(h6, UNAME, ROOT + [0], i);
  }

  /** Bytes that belong to no field are zeros, and so is the rest of the name field. */
  lemma {:induction false} HeaderZeros(name: seq<byte>, kind: FileType, size: nat, i: nat)
    requires |name| < 100 && (|name| <= i < 100 || (i < 512 && Between(i)))
    ensures Header(name, kind, size)[i] == 0
  {
    var h := Zeros();
    var h1 := Written(h, NAME, name + [0]);
    var h2 := Written(h1, MODE, ModeText(kind));
    var h3 := Written(h2, SIZE, SizeText(size));
    var h4 := Written(h3, TYPEFLAG, [TypeFlag(kind)]);
    var g := WithFixed(h4, MtimeText());
    WrittenAt(h, NAME, name + [0], i);
    WrittenAt(h1, MODE, ModeText(kind), i);
    WrittenAt(h2, SIZE, SizeText(size), i);
    WrittenAt(h3, TYPEFLAG, [TypeFlag(kind)], i);
    FixedZeros(h4, MtimeText(), i);
    WrittenAt(g, CHKSUM, ChksumText(Checksum(g)), i);
  }

  // ----- Round trip

  lemma {:induction false} FieldOf(h: seq<byte>, at: nat, data: seq<byte>)
    requires Has(h, at, data)
    ensures Field(h, at, |data|) == data
  {
  }

  lemma {:induction false} FieldParses(h: seq<byte>, at: nat, value: nat, width: nat)
    requires 0 < width && value < Pow8(width) && value <= ULONG_MAX
    requires Has(h, at, Terminated(OctalText(value, width), width + 1))
    ensures at + width + 1 <= |h| && OctalField(Field(h, at, width + 1)) == Some(value)
  {
    OctalTextOk(value, width);
    FieldOf(h, at, OctalText(value, width) + [0]);
    FieldRoundTrip(value, width, [0]);
  }

  lemma {:induction false} NameField(h: seq<byte>, name: seq<byte>)
    requires |h| >= NAME_SIZE && Has(h, NAME, name + [0]) && NoNull(name) && |name| < NAME_SIZE
    ensures CString(Field(h, NAME, NAME_SIZE)) == name
  {
    var field, data := Field(h, NAME, NAME_SIZE), name + [0];
    forall i | 0 <= i < |data| ensures field[i] == data[i] {
      assert h[NAME + i] == data[i];
    }
    assert field[..|name|] == name;
    CStringIs(field, name);
  }

  lemma {:induction false} Magic(h: seq<byte>, mtime: seq<byte>)
    requires |h| == HEADER_SIZE && HasFixed(h, mtime)
    ensures Field(h, MAGIC, 6) == USTAR + [0] && h[VERSION] == ZERO && h[VERSION + 1] == ZERO
  {
    var magic, version := USTAR + [0], [ZERO, ZERO];
    assert |magic| == 6 && Has(h, MAGIC, magic) && Has(h, VERSION, version);
    FieldOf(h, MAGIC, magic);
    assert version[0] == version[1] == ZERO;
  }

  lemma {:induction false} ParseIs(h: seq<byte>, name: seq<byte>, kind: FileType, n: nat)
    requires |h| == HEADER_SIZE && h[TYPEFLAG] == TypeFlag(kind) && n <= INT_MAX
    requires Validate(h, OctalField(Field(h, CHKSUM, CHKSUM_SIZE)), Checksum(h)).None?
    requires Strip(CString(Field(h, NAME, NAME_SIZE))) == name
    requires OctalField(Field(h, SIZE, SIZE_SIZE)) == Some(n)
    ensures Parse(h) == File(name, kind, if kind.Regular? then n else 0)
  {
    assert h[TYPEFLAG] != 0;
    assert Parse(h) == FileOf(TypeFlag(kind), name, Some(n));
  }

  /** A header with the right magic, version and checksum is read as its fields say. */
  lemma {:induction false} ParseFields(h: seq<byte>, name: seq<byte>, mode: seq<byte>, size: seq<byte>,
      mtime: seq<byte>, kind: FileType, n: nat)
    requires HasFields(h, name, mode, size, mtime, TypeFlag(kind)) && NoNull(name) && |name| < NAME_SIZE
      && Strip(name) == name
    requires OctalField(Field(h, CHKSUM, CHKSUM_SIZE)) == Some(Checksum(h))
    requires OctalField(Field(h, SIZE, SIZE_SIZE)) == Some(n) && n <= INT_MAX
    ensures Parse(h) == File(name, kind, if kind.Regular? then n else 0)
  {
    Magic(h, mtime);
    NameField(h, name);
    ParseIs(h, name, kind, n);
  }

  lemma {:induction false} StripNoNull(s: seq<byte>)
    requires NoNull(s)
    ensures NoNull(Strip(s))
  {
  }

  /** Parsing a header that was made gives back the stripped name, the type, and
      the size, or 0 for a directory. */
  lemma {:induction false} RoundTrip(fileName: seq<byte>, kind: FileType, size: nat)
    requires NoNull(fileName) && |Strip(fileName)| <= 99 && size <= INT_MAX
    ensures Parse(Header(Strip(fileName), kind, size)) == File(Strip(fileName), kind, if kind.Regular? then size else 0)
  {
    var name := Strip(fileName);
    var h := Header(name, kind, size);
    HeaderFields(name, kind, size);
    HeaderNumbers(h, size);
    StripIdempotent(fileName);
    StripNoNull(fileName);
    ParseFields(h, name, ModeText(kind), SizeText(size), MtimeText(), kind, size);
  }

  lemma {:induction false} NamePart(h: seq<byte>, name: seq<byte>)
    requires |h| == 512 && |name| < 100 && Has(h, NAME, name + [0])
    ensures h[..|name|] == name
  {
    var data := name + [0];
    FieldOf(h, NAME, data);
    assert h[..|name|] == data[..|name|] by { assert Field(h, NAME, |data|)[..|name|] == h[..|name|]; }
  }

  lemma {:induction false} RootPart(h: seq<byte>, at: nat)
    requires Has(h, at, ROOT + [0]) && at + 5 <= |h|
    ensures h[at..at + 5] == [114, 111, 111, 116, 0]
  {
    FieldOf(h, at, ROOT + [0]);
    assert ROOT + [0] == [114, 111, 111, 116, 0];
  }

  /** The fields of a made header are there, */
  lemma {:induction false} HeaderFields(name: seq<byte>, kind: FileType, size: nat)
    requires |name| < 100
    ensures var h := Header(name, kind, size);
            && HasFields(h, name, ModeText(kind), SizeText(size), MtimeText(), TypeFlag(kind))
            && Has(h, CHKSUM, ChksumText(Checksum(h)))
  {
    var mode, sizeText, mtime := ModeText(kind), SizeText(size), MtimeText();
    FieldsOk(Zeros(), name, mode, sizeText, mtime, TypeFlag(kind));
    ChksumLast(Fields(Zeros(), name, mode, sizeText, mtime, TypeFlag(kind)), name, mode, sizeText, mtime,
      TypeFlag(kind));
  }

  /** those with numbers say these numbers, */
  lemma {:induction false} HeaderNumbers(h: seq<byte>, size: nat)
    requires |h| == 512 && size <= 0xffff_ffff
    requires Has(h, SIZE, SizeText(size)) && Has(h, CHKSUM, ChksumText(Checksum(h)))
    ensures OctalField(Field(h, CHKSUM, CHKSUM_SIZE)) == Some(Checksum(h))
    ensures OctalField(Field(h, SIZE, SIZE_SIZE)) == Some(size)
    ensures SumSaid(h) && IsField(h[124..136], size)
  {
    SumBound(h, |h|);
    Powers();
    FieldParses(h, CHKSUM, Checksum(h), 7);
    FieldParses(h, SIZE, size, 11);
    FieldsRead(h);
  }

  /** and the others hold these texts. */
  lemma {:induction false} HeaderTexts(h: seq<byte>, kind: FileType)
    requires |h| == 512 && Has(h, MODE, ModeText(kind)) && HasFixed(h, MtimeText())
    ensures h[100..108] == if kind.Regular? then [48, 48, 48, 48, 54, 52, 52, 0] else [48, 48, 48, 48, 55, 53, 53, 0]
    ensures h[108..116] == [48, 48, 48, 48, 48, 48, 48, 0] == h[116..124]
    ensures h[136..148] == [49, 48, 51, 53, 53, 55, 48, 54, 48, 48, 48, 0]
    ensures h[265..270] == [114, 111, 111, 116, 0] == h[297..302] && MagicSaid(h) && VersionSaid(h)
  {
    ModeIs(kind);
    MtimeIs();
    FieldOf(h, MODE, ModeText(kind));
    FieldOf(h, MTIME, MtimeText());
    FieldOf(h, UID, OctalZeros());
    FieldOf(h, GID, OctalZeros());
    Magic(h, MtimeText());
    MagicIff(h);
    RootPart(h, UNAME);
    RootPart(h, GNAME);
  }

  /** A made header holds exactly that. */
  lemma {:induction false} HeaderIsMade(name: seq<byte>, kind: FileType, size: nat)
    requires |name| < 100 && size <= 0xffff_ffff
    ensures Made(Header(name, kind, size), name, kind, size)
  {
    var h := Header(name, kind, size);
    HeaderFields(name, kind, size);
    HeaderNumbers(h, size);
    HeaderTexts(h, kind);
    NamePart(h, name);
    forall i: nat | i < 512 && (|name| <= i < 100 || Between(i)) ensures h[i] == 0 {
      HeaderZeros(name, kind, size, i);
    }
  }

  /** Changing any byte of a made header but those of its checksum makes it fail. */
  lemma {:induction false} MadeThenChanged(name: seq<byte>, kind: FileType, size: nat, i: nat, b: byte)
    requires |name| < 100 && size <= 0xffff_ffff && i < 512 && !(148 <= i < 156)
    requires b != Header(name, kind, size)[i]
    ensures Parse(Header(name, kind, size)[i := b]).Failure?
  {
    HeaderIsMade(name, kind, size);
    OneByteChanged(Header(name, kind, size), i, b);
  }

  lemma {:induction false} Powers()
    ensures Pow8(7) == 2097152 && Pow8(11) == 8589934592
  {
    assert Pow8(4) == 4096;
    assert Pow8(8) == 16777216;
  }
}
