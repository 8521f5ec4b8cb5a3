/** Bytes, fixed-width integers and byte strings, as the Go runtime and `encoding/binary` see them. */
module Bytes {

  type byte = x: int | 0 <= x < 0x100
  type uint32 = x: int | 0 <= x < 0x1_0000_0000
  type uint64 = x: int | 0 <= x < 0x1_0000_0000_0000_0000
  type int32 = x: int | -0x8000_0000 <= x < 0x8000_0000
  type int64 = x: int | -0x8000_0000_0000_0000 <= x < 0x8000_0000_0000_0000

  // A Go string or []byte.
  type Text = seq<byte>

  /** Go's `int32(x)` for any integer x: two's-complement truncation. */
  function Wrap32(x: int): int32 {
    (x + 0x8000_0000) % 0x1_0000_0000 - 0x8000_0000
  }

  /** Go's `int64(x)` for any integer x. */
  function Wrap64(x: int): int64 {
    (x + 0x8000_0000_0000_0000) % 0x1_0000_0000_0000_0000 - 0x8000_0000_0000_0000
  }

  /** The wrapped value is the one in range that differs by a multiple of the modulus. */
  lemma WrapIsCongruent(x: int)
    ensures (Wrap32(x) - x) % 0x1_0000_0000 == 0
    ensures (Wrap64(x) - x) % 0x1_0000_0000_0000_0000 == 0
  {
    DivModUnique(Wrap32(x) - x, 0x1_0000_0000, -((x + 0x8000_0000) / 0x1_0000_0000), 0);
    DivModUnique(Wrap64(x) - x, 0x1_0000_0000_0000_0000,
                 -((x + 0x8000_0000_0000_0000) / 0x1_0000_0000_0000_0000), 0);
  }

  /** Two integers wrap to the same value exactly when they differ by a multiple of the modulus. */
  lemma Wrap32Shift(x: int, k: int)
    ensures Wrap32(x + k * 0x1_0000_0000) == Wrap32(x)
  {
    ModShift(x + 0x8000_0000, k, 0x1_0000_0000);
  }

  lemma Wrap64Shift(x: int, k: int)
    ensures Wrap64(x + k * 0x1_0000_0000_0000_0000) == Wrap64(x)
  {
    ModShift(x + 0x8000_0000_0000_0000, k, 0x1_0000_0000_0000_0000);
  }

  lemma ModShift(x: int, k: int, m: int)
    requires m > 0
    ensures (x + k * m) % m == x % m
  {
    var q, r := x / m, x % m;
    assert x + k * m == (q + k) * m + r;
    DivModUnique(x + k * m, m, q + k, r);
  }

  lemma DivModUnique(x: int, m: int, q: int, r: int)
    requires m > 0 && x == q * m + r && 0 <= r < m
    ensures x / m == q && x % m == r
  {
    var q', r' := x / m, x % m;
    assert q' * m + r' == q * m + r;
    Distribute(q', q, m);
    if q' > q {
      AtLeastOne(q' - q, m);
    } else if q' < q {
      AtLeastOne(q - q', m);
      Distribute(q, q', m);
    }
  }

  lemma Distribute(a: int, b: int, m: int)
    ensures (a - b) * m == a * m - b * m
  {}

  lemma AtLeastOne(k: int, m: int)
    requires k >= 1 && m > 0
    ensures k * m >= m
  {
    Distribute(k, 1, m);
  }

  // ---- Little-endian integers ----

  function Pow256(n: nat): (p: nat)
    ensures p > 0
  {
    if n == 0 then 1 else 256 * Pow256(n - 1)
  }

  lemma Pow256Values()
    ensures Pow256(1) == 0x100
    ensures Pow256(4) == 0x1_0000_0000
    ensures Pow256(8) == 0x1_0000_0000_0000_0000
  {
    assert Pow256(2) == 0x1_0000;
    assert Pow256(4) == 0x1_0000_0000;
    assert Pow256(6) == 0x1_0000_0000_0000;
  }

  /** The unsigned value of a little-endian byte string. */
  function LittleEndian(b: Text): (v: nat)
    ensures v < Pow256(|b|)
  {
    if |b| == 0 then 0 else b[0] + 256 * LittleEndian(b[1..])
  }

  /** The n-byte little-endian encoding of v modulo 256^n. */
  function ToLittleEndian(v: nat, n: nat): (b: Text)
    ensures |b| == n
    decreases n
  {
    if n == 0 then [] else [v % 256] + ToLittleEndian(v / 256, n - 1)
  }

  lemma {:induction false} LittleEndianRoundTrip(v: nat, n: nat)
    requires v < Pow256(n)
    ensures LittleEndian(ToLittleEndian(v, n)) == v
    decreases n
  {
    if n > 0 {
      LittleEndianRoundTrip(v / 256, n - 1);
      assert ToLittleEndian(v, n)[1..] == ToLittleEndian(v / 256, n - 1);
    }
  }

  lemma {:induction false} ToLittleEndianOfBytes(b: Text)
    ensures ToLittleEndian(LittleEndian(b), |b|) == b
  {
    if |b| > 0 {
      ToLittleEndianOfBytes(b[1..]);
      var v := LittleEndian(b);
      DivModUnique(v, 256, LittleEndian(b[1..]), b[0]);
      assert b == [b[0]] + b[1..];
    }
  }

  function U32(b: Text): uint32
    requires |b| == 4
  {
    Pow256Values();
    LittleEndian(b)
  }

  function U64(b: Text): uint64
    requires |b| == 8
  {
    Pow256Values();
    LittleEndian(b)
  }

  /** The lowest byte comes first. */
  lemma LowestByteFirst(b: Text)
    ensures |b| == 4 ==>
              U32(b) == b[0] as int + 0x100 * (b[1] as int) + 0x1_0000 * (b[2] as int) + 0x100_0000 * (b[3] as int)
    ensures |b| == 8 ==> U64(b) == U32(b[..4]) as int + 0x1_0000_0000 * (U32(b[4..]) as int)
  {
    if |b| == 4 {
      FourBytes(b);
      assert b[4..] == [];
    } else if |b| == 8 {
      FourBytes(b);
      FourBytes(b[..4]);
      assert b[..4][4..] == [];
    }
  }

  lemma FourBytes(b: Text)
    requires |b| >= 4
    ensures LittleEndian(b) ==
            b[0] + 0x100 * b[1] + 0x1_0000 * b[2] + 0x100_0000 * b[3] + 0x1_0000_0000 * LittleEndian(b[4..])
  {
    assert b[1..][1..] == b[2..] && b[2..][1..] == b[3..] && b[3..][1..] == b[4..];
    assert LittleEndian(b[2..]) == b[2] + 256 * LittleEndian(b[3..]);
  }

  function PutU32(v: uint32): (b: Text)
    ensures |b| == 4
  {
    ToLittleEndian(v, 4)
  }

  function PutU64(v: uint64): (b: Text)
    ensures |b| == 8
  {
    ToLittleEndian(v, 8)
  }

  /** The bit pattern of a signed integer, as `binary.Write` stores it. */
  function Bits32(v: int32): uint32 {
    if v < 0 then v + 0x1_0000_0000 else v
  }

  function Bits64(v: int64): uint64 {
    if v < 0 then v + 0x1_0000_0000_0000_0000 else v
  }

  lemma FixedRoundTrips()
    ensures forall v: uint32 :: U32(PutU32(v)) == v
    ensures forall v: uint64 :: U64(PutU64(v)) == v
    ensures forall b: Text | |b| == 4 :: PutU32(U32(b)) == b
    ensures forall b: Text | |b| == 8 :: PutU64(U64(b)) == b
  {
    Pow256Values();
    hide LittleEndian, ToLittleEndian, Pow256;
    forall v: uint32 ensures U32(PutU32(v)) == v { LittleEndianRoundTrip(v, 4); }
    forall v: uint64 ensures U64(PutU64(v)) == v { LittleEndianRoundTrip(v, 8); }
    forall b: Text | |b| == 4 ensures PutU32(U32(b)) == b { ToLittleEndianOfBytes(b); }
    forall b: Text | |b| == 8 ensures PutU64(U64(b)) == b { ToLittleEndianOfBytes(b); }
  }

  lemma SignedRoundTrips()
    ensures forall v: int32 :: Wrap32(Bits32(v)) == v
    ensures forall v: int64 :: Wrap64(Bits64(v)) == v
    ensures forall u: uint32 :: Bits32(Wrap32(u)) == u
    ensures forall u: uint64 :: Bits64(Wrap64(u)) == u
  {
  }

  // ---- ASCII case ----

  function LowerByte(c: byte): byte {
    if 0x41 <= c <= 0x5A then c + 0x20 else c
  }

  function Lower(s: Text): (t: Text)
    ensures |t| == |s|
    ensures forall i | 0 <= i < |s| :: t[i] == LowerByte(s[i])
  {
    seq(|s|, i requires 0 <= i < |s| => LowerByte(s[i]))
  }

  // ---- strings.TrimSpace on UTF-8 bytes ----

  /** The UTF-8 encodings of the white-space characters other than the ASCII ones. */
  predicate IsWideSpace(b: Text) {
    || (|b| == 2 && b[0] == 0xC2 && (b[1] == 0x85 || b[1] == 0xA0))
    || (|b| == 3 && b[0] == 0xE1 && b[1] == 0x9A && b[2] == 0x80)
    || (|b| == 3 && b[0] == 0xE2 && b[1] == 0x80
        && (0x80 <= b[2] <= 0x8A || b[2] == 0xA8 || b[2] == 0xA9 || b[2] == 0xAF))
    || (|b| == 3 && b[0] == 0xE2 && b[1] == 0x81 && b[2] == 0x9F)
    || (|b| == 3 && b[0] == 0xE3 && b[1] == 0x80 && b[2] == 0x80)
  }

  predicate IsSpace(b: Text) {
    (|b| == 1 && (0x09 <= b[0] <= 0x0D || b[0] == 0x20)) || IsWideSpace(b)
  }

  predicate StartsWithSpace(s: Text, k: int) {
    0 < k <= |s| && IsSpace(s[..k])
  }

  predicate EndsWithSpace(s: Text, k: int) {
    0 < k <= |s| && IsSpace(s[|s| - k..])
  }

  /** Length of the white-space character s starts with, or 0. */
  function LeadingSpace(s: Text): (n: nat)
    ensures n <= |s| && n <= 3
    ensures n > 0 ==> StartsWithSpace(s, n)
  {
    if StartsWithSpace(s, 1) then 1
    else if StartsWithSpace(s, 2) then 2
    else if StartsWithSpace(s, 3) then 3
    else 0
  }

  function TrailingSpace(s: Text): (n: nat)
    ensures n <= |s| && n <= 3
    ensures n > 0 ==> EndsWithSpace(s, n)
  {
    if EndsWithSpace(s, 1) then 1
    else if EndsWithSpace(s, 2) then 2
    else if EndsWithSpace(s, 3) then 3
    else 0
  }

  function TrimLeft(s: Text): (t: Text)
    ensures LeadingSpace(t) == 0
    decreases |s|
  {
    var n := LeadingSpace(s);
    if n == 0 then s else TrimLeft(s[n..])
  }

  function TrimRight(s: Text): (t: Text)
    ensures TrailingSpace(t) == 0
    decreases |s|
  {
    var n := TrailingSpace(s);
    if n == 0 then s else TrimRight(s[..|s| - n])
  }

  function TrimSpace(s: Text): Text {
    TrimRight(TrimLeft(s))
  }

  lemma {:induction false} TrimRightIsPrefix(s: Text)
    ensures |TrimRight(s)| <= |s| && TrimRight(s) == s[..|TrimRight(s)|]
    decreases |s|
  {
    hide TrailingSpace;
    var n := TrailingSpace(s);
    if n > 0 {
      TrimRightIsPrefix(s[..|s| - n]);
    }
  }

  /** A character that Go's `unicode.IsSpace` accepts. */
  predicate IsSpaceRune(r: int) {
    || 0x09 <= r <= 0x0D || r == 0x20 || r == 0x85 || r == 0xA0 || r == 0x1680 || 0x2000 <= r <= 0x200A
    || r == 0x2028 || r == 0x2029 || r == 0x202F || r == 0x205F || r == 0x3000
  }

  /** The UTF-8 encoding of a character up to U+FFFF. */
  function Utf8(r: int): Text
    requires 0 <= r < 0x1_0000
  {
    if r < 0x80 then [r]
    else if r < 0x800 then [0xC0 + r / 0x40, 0x80 + r % 0x40]
    else [0xE0 + r / 0x1000, 0x80 + r / 0x40 % 0x40, 0x80 + r % 0x40]
  }

  /** The white space of these byte strings is Unicode's. */
  lemma SpacesAreUnicode(b: Text)
    ensures IsSpace(b) <==> exists r: int :: IsSpaceRune(r) && b == Utf8(r)
  {
    if IsSpace(b) {
      var r := RuneOfSpace(b);
    }
    forall r: int | IsSpaceRune(r) ensures IsSpace(Utf8(r)) {
      RuneIsSpace(r);
    }
    hide *;
  }

  lemma RuneOfSpace(b: Text) returns (r: int)
    requires IsSpace(b)
    ensures IsSpaceRune(r) && b == Utf8(r)
  {
    r := if |b| == 1 then b[0] else if |b| == 2 then b[1] else if b[0] == 0xE1 then 0x1680
         else if b[0] == 0xE3 then 0x3000 else if b[1] == 0x81 then 0x205F else 0x1F80 + b[2] as int;
  }

  lemma RuneIsSpace(r: int)
    requires IsSpaceRune(r)
    ensures IsSpace(Utf8(r))
  {}

  /** Nothing but white space. */
  predicate AllSpace(s: Text)
    decreases |s|
  {
    s == [] || (LeadingSpace(s) > 0 && AllSpace(s[LeadingSpace(s)..]))
  }

  /** Trimming cuts white space off both ends, and all of it. */
  lemma TrimSpaceExactly(s: Text) returns (pre: Text, post: Text)
    ensures s == pre + TrimSpace(s) + post && AllSpace(pre) && AllSpace(post)
    ensures forall k :: !StartsWithSpace(TrimSpace(s), k) && !EndsWithSpace(TrimSpace(s), k)
  {
    hide *;
    TrimSpaceIdempotent(s);
    NoSpaceLeft(TrimSpace(s));
    LeftThenRight(s);
    pre := TrimLeftCuts(s);
    post := TrimRightCuts(TrimLeft(s));
    assert pre + (TrimSpace(s) + post) == pre + TrimSpace(s) + post;
  }

  lemma LeftThenRight(s: Text)
    ensures TrimSpace(s) == TrimRight(TrimLeft(s))
  {}

  lemma NoSpaceLeft(t: Text)
    requires LeadingSpace(t) == 0 && TrailingSpace(t) == 0
    ensures forall k :: !StartsWithSpace(t, k) && !EndsWithSpace(t, k)
  {
    hide IsSpace;
    forall k ensures !StartsWithSpace(t, k) && !EndsWithSpace(t, k) {
      if StartsWithSpace(t, k) {
        SpaceIsShort(t[..k]);
        assert false;
      }
      if EndsWithSpace(t, k) {
        SpaceIsShort(t[|t| - k..]);
        assert false;
      }
    }
  }

  lemma SpaceIsShort(b: Text)
    requires IsSpace(b)
    ensures 1 <= |b| <= 3
  {}

  lemma {:induction false} TrimLeftCuts(s: Text) returns (pre: Text)
    ensures s == pre + TrimLeft(s) && AllSpace(pre)
    decreases |s|
  {
    hide *;
    NoSpaceIsAllSpace();
    TrimLeftStep(s);
    pre := [];
    var n := LeadingSpace(s);
    if n > 0 {
      var space, rest := s[..n], s[n..];
      pre := TrimLeftCuts(rest);
      SpaceInFront(space, pre);
      assert (space + pre) + TrimLeft(rest) == space + (pre + TrimLeft(rest)) == s;
      pre := space + pre;
    }
  }

  lemma TrimLeftStep(s: Text)
    ensures var n := LeadingSpace(s);
      if n == 0 then TrimLeft(s) == s else IsSpace(s[..n]) && TrimLeft(s) == TrimLeft(s[n..])
  {}

  lemma NoSpaceIsAllSpace()
    ensures AllSpace([])
  {}

  lemma SpaceInFront(space: Text, t: Text)
    requires IsSpace(space)
    ensures LeadingSpace(space + t) == |space| && AllSpace(space + t) == AllSpace(t)
  {
    FirstSpace(space, t);
    hide LeadingSpace, IsSpace;
    assert (space + t)[|space|..] == t;
  }

  /** No white-space character begins with another one. */
  lemma FirstSpace(space: Text, t: Text)
    requires IsSpace(space)
    ensures LeadingSpace(space + t) == |space| > 0
  {
    assert (space + t)[..|space|] == space;
  }

  lemma {:induction false} TrimRightCuts(s: Text) returns (post: Text)
    ensures s == TrimRight(s) + post && AllSpace(post)
    decreases |s|
  {
    hide IsSpace, TrailingSpace, LeadingSpace, AllSpace;
    NoSpaceIsAllSpace();
    var n := TrailingSpace(s);
    post := [];
    if n > 0 {
      var space := s[|s| - n..];
      post := TrimRightCuts(s[..|s| - n]);
      SpaceInFront(space, []);
      assert s == s[..|s| - n] + space && space + [] == space;
      SpaceBehind(post, space);
      post := post + space;
    }
  }

  lemma {:induction false} SpaceBehind(s: Text, t: Text)
    requires AllSpace(s) && AllSpace(t)
    ensures AllSpace(s + t)
    decreases |s|
  {
    hide IsSpace, LeadingSpace;
    if s == [] {
      assert s + t == t;
    } else {
      var n := LeadingSpace(s);
      SpaceBehind(s[n..], t);
      SpaceInFront(s[..n], s[n..] + t);
      assert s + t == s[..n] + (s[n..] + t);
    }
  }

  lemma PrefixStartsWithSpace(t: Text, l: Text, k: int)
    requires |t| <= |l| && t == l[..|t|] && StartsWithSpace(t, k)
    ensures StartsWithSpace(l, k)
  {
    assert t[..k] == l[..k];
  }

  /** Trimming leaves no white space at either end, so trimming again changes nothing. */
  lemma TrimSpaceIdempotent(s: Text)
    ensures LeadingSpace(TrimSpace(s)) == 0 && TrailingSpace(TrimSpace(s)) == 0
    ensures TrimSpace(TrimSpace(s)) == TrimSpace(s)
  {
    var l, t := TrimLeft(s), TrimSpace(s);
    TrimRightIsPrefix(l);
    if LeadingSpace(t) > 0 {
      PrefixStartsWithSpace(t, l, LeadingSpace(t));
      assert false;
    }
  }
}
