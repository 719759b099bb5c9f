/** Bytes, C strings and big-endian integers: the helper functions at the top of
    the marshaller, each loop proved against a value-level specification. */
module Codec {
  type byte = b: int | 0 <= b < 0x100
  type uint32 = n: int | 0 <= n < 0x1_0000_0000
  type int32 = n: int | -0x8000_0000 <= n < 0x8000_0000

  // ---------------------------------------------------------------- C strings

  /** The number of bytes before the terminator.  A sequence stands for the bytes
      at a `const char *`; a terminator follows its last byte. */
  function StrLen(s: seq<byte>): (n: nat)
    ensures n <= |s|
    ensures forall i :: 0 <= i < n ==> s[i] != 0
    ensures n < |s| ==> s[n] == 0
  {
    if s == [] || s[0] == 0 then 0 else 1 + StrLen(s[1..])
  }

  /** What `strcmp` sees of a buffer. */
  function CStr(s: seq<byte>): seq<byte> {
    s[..StrLen(s)]
  }

  /** The C string `s` cut to at most `n` bytes. */
  function Cut(s: seq<byte>, n: nat): seq<byte> {
    if StrLen(s) <= n then CStr(s) else s[..n]
  }

  function Zeros(n: nat): (z: seq<byte>)
    ensures |z| == n && forall i :: 0 <= i < n ==> z[i] == 0
  {
    seq(n, i => 0)
  }

  /** A string field of the wire format: cut, then padded with zeros. */
  function FixedString(s: seq<byte>, size: nat): (r: seq<byte>)
    ensures |r| == size
  {
    Cut(s, size) + Zeros(size - |Cut(s, size)|)
  }

  lemma StrLenUnique(s: seq<byte>, n: nat)
    requires n <= |s| && (forall i :: 0 <= i < n ==> s[i] != 0) && (n < |s| ==> s[n] == 0)
    ensures StrLen(s) == n
  {
  }

  /** A field is read back as the C string that was written, cut to the field, also when the
      field is followed by the terminator the reader keeps behind it. */
  lemma FixedStringReadBack(s: seq<byte>, size: nat)
    ensures CStr(FixedString(s, size)) == Cut(s, size)
    ensures CStr(FixedString(s, size) + [0]) == Cut(s, size)
  {
    var c := Cut(s, size);
    StrLenUnique(FixedString(s, size), |c|);
    StrLenUnique(FixedString(s, size) + [0], |c|);
  }

  lemma TerminatorInvisible(s: seq<byte>)
    ensures CStr(s + [0]) == CStr(s)
  {
    StrLenUnique(s + [0], StrLen(s));
  }

  lemma CutIdempotent(s: seq<byte>, n: nat)
    ensures Cut(Cut(s, n), n) == Cut(s, n) && CStr(Cut(s, n)) == Cut(s, n) && |Cut(s, n)| <= n
    ensures Cut(s, n) == CStr(s) <==> |CStr(s)| <= n
  {
    StrLenUnique(Cut(s, n), |Cut(s, n)|);
  }

  /** Byte by byte: the string up to its terminator or the end of the field, then zeros. */
  lemma FixedStringBytes(src: seq<byte>, size: nat)
    ensures forall k :: 0 <= k < size ==> FixedString(src, size)[k] == if k < StrLen(src) then src[k] else 0
  {
  }

  method WriteFixedSizeString(src: seq<byte>, buf: array<byte>, tar: nat, size: nat) returns (end: nat)
    requires tar + size <= buf.Length
    modifies buf
    ensures end == tar + size
    ensures buf[..] == old(buf[..tar]) + FixedString(src, size) + old(buf[end..])
    ensures buf[..end] == old(buf[..tar]) + FixedString(src, size)
  {
    ghost var field := FixedString(src, size);
    FixedStringBytes(src, size);
    var i := 0;
    while i < size && (if i < |src| then src[i] else 0) != 0
      invariant 0 <= i <= size && i <= StrLen(src)
      invariant forall k :: tar <= k < tar + i ==> buf[k] == field[k - tar]
      invariant forall k :: 0 <= k < tar || tar + i <= k < buf.Length ==> buf[k] == old(buf[k])
    {
      buf[tar + i] := src[i];
      i := i + 1;
    }
    while i < size
      invariant 0 <= i <= size && (i < size ==> StrLen(src) <= i)
      invariant forall k :: tar <= k < tar + i ==> buf[k] == field[k - tar]
      invariant forall k :: 0 <= k < tar || tar + i <= k < buf.Length ==> buf[k] == old(buf[k])
    {
      buf[tar + i] := 0;
      i := i + 1;
    }
    end := tar + size;
  }

  method ReadFixedSizeString(tar: array<byte>, buf: seq<byte>, src: nat, size: nat) returns (end: nat)
    requires src + size <= |buf| && size <= tar.Length
    modifies tar
    ensures end == src + size
    ensures tar[..] == buf[src..end] + old(tar[size..])
  {
    for i := 0 to size
      invariant tar[..i] == buf[src..src + i]
      invariant forall k :: i <= k < tar.Length ==> tar[k] == old(tar[k])
    {
      tar[i] := buf[src + i];
    }
    end := src + size;
  }

  // ----------------------------------------------------------------- integers

  function Pow2(k: nat): (p: nat)
    ensures p > 0
  {
    if k == 0 then 1 else 2 * Pow2(k - 1)
  }

  function Pow256(k: nat): (p: nat)
    ensures p > 0
  {
    if k == 0 then 1 else 256 * Pow256(k - 1)
  }

  /** The lowest `w` bytes of `u`, most significant first. */
  function BigEndian(u: nat, w: nat): (r: seq<byte>)
    ensures |r| == w
  {
    if w == 0 then [] else BigEndian(u / 256, w - 1) + [u % 256]
  }

  function FromBigEndian(b: seq<byte>): (u: nat)
    ensures u < Pow256(|b|)
  {
    if b == [] then 0 else FromBigEndian(b[..|b| - 1]) * 256 + b[|b| - 1]
  }

  /** Decoding undoes encoding up to the width, at every width. */
  lemma {:induction false} DecodeEncode(u: nat, w: nat)
    ensures FromBigEndian(BigEndian(u, w)) == u % Pow256(w)
  {
    if w == 0 {
    } else {
      DecodeEncode(u / 256, w - 1);
      assert BigEndian(u, w)[..w - 1] == BigEndian(u / 256, w - 1);
      ModDigit(u, Pow256(w - 1));
    }
  }

  lemma ModDigit(u: nat, m: nat)
    requires m > 0
    ensures (u / 256 % m) * 256 + u % 256 == u % (256 * m)
  {
    var q := u / 256 / m;
    var r := u / 256 % m * 256 + u % 256;
    assert u / 256 == q * m + u / 256 % m;
    assert u == q * (256 * m) + r;
    DivModUnique(u, 256 * m, q, r);
  }

  lemma DivModUnique(u: int, m: int, q: int, r: int)
    requires m > 0 && 0 <= r < m && u == q * m + r
    ensures u / m == q && u % m == r
  {
    var d := u / m - q;
    assert d * m == r - u % m;
    MulBounds(d, m);
  }

  lemma MulBounds(d: int, m: int)
    requires m > 0
    ensures d >= 1 ==> d * m >= m
    ensures d <= -1 ==> d * m <= -m
  {
  }

  /** Encoding undoes decoding: every byte string is the encoding of its value. */
  lemma {:induction false} EncodeDecode(b: seq<byte>)
    ensures BigEndian(FromBigEndian(b), |b|) == b
  {
    if b == [] {
    } else {
      var init, last := b[..|b| - 1], b[|b| - 1];
      EncodeDecode(init);
      DivModUnique(FromBigEndian(b), 256, FromBigEndian(init), last);
      assert b == init + [last];
    }
  }

  /** Digit `j` is the value shifted right by the bytes behind it, cut to a byte. */
  lemma {:induction false} BigEndianDigit(u: nat, w: nat, j: nat)
    requires j < w
    ensures BigEndian(u, w)[j] == u / Pow256(w - 1 - j) % 256
  {
    if j < w - 1 {
      BigEndianDigit(u / 256, w - 1, j);
      DivTwice(u, Pow256(w - 2 - j));
    }
  }

  lemma DivTwice(u: nat, p: nat)
    requires p > 0
    ensures u / 256 / p == u / (256 * p)
  {
    var q, r := u / 256 / p, u / 256 % p;
    assert u / 256 == q * p + r;
    assert u == q * (256 * p) + (r * 256 + u % 256);
    DivModUnique(u, 256 * p, q, r * 256 + u % 256);
  }

  function FromBigEndian32(b: seq<byte>): (u: uint32)
    requires |b| == 4
    ensures u == FromBigEndian(b)
  {
    assert Pow256(4) == 0x1_0000_0000 by { assert Pow256(2) == 0x1_0000; }
    FromBigEndian(b)
  }

  lemma DecodeEncode32(u: uint32)
    ensures FromBigEndian32(BigEndian(u, 4)) == u
  {
    DecodeEncode(u, 4);
    assert Pow256(4) == 0x1_0000_0000 by { assert Pow256(2) == 0x1_0000; }
  }

  /** Bitwise or of two naturals. */
  function Or(x: nat, y: nat): nat {
    if x == 0 then y else if y == 0 then x
    else 2 * Or(x / 2, y / 2) + (if x % 2 == 1 || y % 2 == 1 then 1 else 0)
  }

  lemma DoubleProduct(a: nat, p: nat)
    requires a > 0 && p > 0
    ensures a * (2 * p) == 2 * (a * p) && a * p > 0
  {
  }

  lemma OrEven(h: nat, b: nat)
    requires h > 0 && b > 0
    ensures Or(2 * h, b) == 2 * Or(h, b / 2) + b % 2
  {
  }

  /** On disjoint bit ranges the bitwise or is the sum. */
  lemma {:induction false} OrDisjoint(a: nat, k: nat, b: nat)
    requires b < Pow2(k)
    ensures Or(a * Pow2(k), b) == a * Pow2(k) + b
  {
    if k > 0 && a > 0 && b > 0 {
      OrDisjoint(a, k - 1, b / 2);
      var p := Pow2(k - 1);
      var h := a * p;
      DoubleProduct(a, p);
      hide Or;
      OrEven(h, b);
    }
  }

  lemma {:induction false} Pow2Bytes(k: nat)
    ensures Pow2(8 * k) == Pow256(k)
  {
    if k == 0 {
    } else {
      Pow2Bytes(k - 1);
      var n := 8 * (k - 1);
      assert Pow2(n + 2) == 4 * Pow2(n);
      assert Pow2(n + 4) == 16 * Pow2(n);
      assert Pow2(n + 6) == 64 * Pow2(n);
    }
  }

  /** `static_cast` to the unsigned and back to the signed type of 32 bits. */
  function ToUnsigned(v: int32): uint32 {
    if v < 0 then v + 0x1_0000_0000 else v
  }

  function ToSigned(u: uint32): int32 {
    if u < 0x8000_0000 then u else u - 0x1_0000_0000
  }

  method WriteInt(u: nat, w: nat, buf: array<byte>, tar: nat) returns (end: nat)
    requires tar + w <= buf.Length
    modifies buf
    ensures end == tar + w
    ensures buf[..] == old(buf[..tar]) + BigEndian(u, w) + old(buf[end..])
    ensures buf[..end] == old(buf[..tar]) + BigEndian(u, w)
    ensures buf[end..] == old(buf[end..])
  {
    for i := 0 to w
      invariant forall k :: tar <= k < tar + i ==> buf[k] == BigEndian(u, w)[k - tar]
      invariant forall k :: 0 <= k < tar || tar + i <= k < buf.Length ==> buf[k] == old(buf[k])
    {
      BigEndianDigit(u, w, i);
      buf[tar + i] := u / Pow256(w - (i + 1)) % 256;
    }
    end := tar + w;
    assert buf[tar..end] == BigEndian(u, w);
    assert buf[..] == buf[..tar] + buf[tar..end] + buf[end..];
  }

  lemma Spread(hi: nat, b: byte, p: nat)
    requires p > 0
    ensures hi * (256 * p) + b * p == (hi * 256 + b) * p && b * p < 256 * p
  {
    assert (256 - b) * p > 0;
  }

  lemma OrNextByte(hi: nat, b: byte, k: nat)
    ensures Or(hi * Pow256(k + 1), b * Pow256(k)) == (hi * 256 + b) * Pow256(k)
  {
    hide Or;
    Pow2Bytes(k + 1);
    Spread(hi, b, Pow256(k));
    OrDisjoint(hi, 8 * (k + 1), b * Pow256(k));
  }

  method ReadInt(w: nat, buf: seq<byte>, src: nat) returns (value: nat, end: nat)
    requires src + w <= |buf|
    ensures end == src + w
    ensures value == FromBigEndian(buf[src..end])
  {
    value := 0;
    for i := 0 to w
      invariant value == FromBigEndian(buf[src..src + i]) * Pow256(w - i)
    {
      assert buf[src..src + i + 1][..i] == buf[src..src + i];
      OrNextByte(FromBigEndian(buf[src..src + i]), buf[src + i], w - (i + 1));
      value := Or(value, buf[src + i] * Pow256(w - (i + 1)));
    }
    end := src + w;
  }
}
