/** Byte and text vocabulary shared by every part of the model.

    The C++ code stores raw data in `identy::byte` (an unsigned 8-bit value)
    and text in `std::string`, whose characters are also 8-bit. Here a byte is
    a `bv8` and a character of C++ text is a `Char8`, a Dafny `char` below 256,
    so that string literals keep their readable form. Fixed text the library
    writes (labels of the text report) is a plain `string` of ASCII
    characters. Multi-byte integers that
    the source writes with `reinterpret_cast` land in memory little-endian, as
    on the x86 targets the library is built for. */
module Bytes {

  type Byte = bv8
  type Char8 = c: char | c as int < 256

  datatype Option<T> = None | Some(value: T)

  /** The byte a C++ `char` occupies: its code, which for a `Char8` is
      below 256 already. */
  function ByteOf(c: char): Byte {
    (c as int % 256) as bv8
  }

  /** The C++ `char` a byte reads as. */
  function CharOf(b: Byte): Char8 {
    (b as int) as char
  }

  /** Text copied byte for byte, as `buffer.insert(end, s.begin(), s.end())` does. */
  function TextBytes(s: seq<char>): (r: seq<Byte>)
    ensures |r| == |s|
  {
    seq(|s|, i requires 0 <= i < |s| => ByteOf(s[i]))
  }

  /** Bytes read back as text, as `std::string_view(ptr, n)` does. */
  function BytesText(b: seq<Byte>): (r: seq<Char8>)
    ensures |r| == |b|
  {
    seq(|b|, i requires 0 <= i < |b| => CharOf(b[i]))
  }

  lemma CharByteRoundTrip(c: Char8)
    ensures CharOf(ByteOf(c)) == c
  {
    var n := c as int;
    assert n % 256 == n;
    var b := n as bv8;
    assert b as int == n;
  }

  lemma TextBytesRoundTrip(s: seq<Char8>)
    ensures BytesText(TextBytes(s)) == s
  {
    var b := TextBytes(s);
    var r := BytesText(b);
    forall i | 0 <= i < |s| ensures r[i] == s[i] {
      CharByteRoundTrip(s[i]);
    }
  }

  /** The NUL character, and only it, is stored as the zero byte. */
  lemma ByteOfZero(c: Char8)
    ensures ByteOf(c) == 0 <==> c == '\0'
  {
    CharByteRoundTrip(c);
  }

  /** Bytes read as text and copied back are the bytes read. */
  lemma BytesTextRoundTrip(b: seq<Byte>)
    ensures TextBytes(BytesText(b)) == b
  {
    var r := TextBytes(BytesText(b));
    forall i | 0 <= i < |b| ensures r[i] == b[i] {
      ByteCharRoundTrip(b[i]);
    }
  }

  lemma ByteCharRoundTrip(x: Byte)
    ensures ByteOf(CharOf(x)) == x
  {
    var n := x as int;
    assert CharOf(x) as int == n;
    assert n % 256 == n;
  }

  /** Copying two pieces of text is copying their concatenation. */
  lemma TextBytesAppend(a: seq<char>, b: seq<char>)
    ensures TextBytes(a + b) == TextBytes(a) + TextBytes(b)
  {
    var l, r := TextBytes(a + b), TextBytes(a) + TextBytes(b);
    forall i | 0 <= i < |l| ensures l[i] == r[i] {
      if i < |a| {
        assert r[i] == TextBytes(a)[i];
      } else {
        assert r[i] == TextBytes(b)[i - |a|];
      }
    }
  }

  /** Appending is associative. */
  lemma AppendAssoc<T>(a: seq<T>, b: seq<T>, c: seq<T>)
    ensures a + (b + c) == (a + b) + c
  {
  }

  function Zeros(n: nat): (r: seq<Byte>)
    ensures |r| == n
    ensures forall i :: 0 <= i < n ==> r[i] == 0
  {
    seq(n, _ => 0)
  }

  /** A stretch of zero bytes is a run of `Zeros`. */
  lemma ZeroRun(s: seq<Byte>, from: nat, to: nat)
    requires from <= to <= |s|
    requires forall n :: from <= n < to ==> s[n] == 0
    ensures s[from..to] == Zeros(to - from)
  {
  }

  /** A slice of a slice is a slice of the whole. */
  lemma SliceOfSlice(b: seq<Byte>, i: nat, j: nat, k: nat, l: nat)
    requires i <= j <= |b| && k <= l <= j - i
    ensures b[i..j][k..l] == b[i + k..i + l]
  {
    forall n | 0 <= n < l - k ensures b[i..j][k..l][n] == b[i + k..i + l][n] {
    }
  }

  /** Where a prefix of `b` is `x + y`, the piece `y` sits in `b` right after `x`. */
  lemma PieceAfter(b: seq<Byte>, x: seq<Byte>, y: seq<Byte>)
    requires |x| + |y| <= |b| && b[..|x| + |y|] == x + y
    ensures b[..|x|] == x && b[|x|..|x| + |y|] == y
  {
    SliceOfSlice(b, 0, |x| + |y|, 0, |x|);
    SliceOfSlice(b, 0, |x| + |y|, |x|, |x| + |y|);
    assert (x + y)[..|x|] == x && (x + y)[|x|..] == y;
  }

  /** Where `x + y + z` is stored at offset `p`, each piece sits at its own offset. */
  lemma Parts3(b: seq<Byte>, p: nat, x: seq<Byte>, y: seq<Byte>, z: seq<Byte>)
    requires p + |x| + |y| + |z| <= |b| && b[p..p + |x| + |y| + |z|] == x + y + z
    ensures b[p..p + |x|] == x && b[p + |x|..p + |x| + |y|] == y
    ensures b[p + |x| + |y|..p + |x| + |y| + |z|] == z
  {
    var e := p + |x| + |y| + |z|;
    forall i | 0 <= i < |x| ensures b[p + i] == x[i] {
      assert b[p + i] == b[p..e][i] == (x + y + z)[i];
    }
    forall i | 0 <= i < |y| ensures b[p + |x| + i] == y[i] {
      assert b[p + |x| + i] == b[p..e][|x| + i] == (x + y + z)[|x| + i];
    }
    forall i | 0 <= i < |z| ensures b[p + |x| + |y| + i] == z[i] {
      assert b[p + |x| + |y| + i] == b[p..e][|x| + |y| + i] == (x + y + z)[|x| + |y| + i];
    }
  }

  /** A 32-bit value as the four bytes it occupies in little-endian memory. */
  function LE32(x: bv32): (r: seq<Byte>)
    ensures |r| == 4
  {
    [(x & 0xFF) as bv8, ((x >> 8) & 0xFF) as bv8, ((x >> 16) & 0xFF) as bv8, ((x >> 24) & 0xFF) as bv8]
  }

  /** The 32-bit value stored little-endian in four bytes (`std::memcpy` into a dword). */
  function LE32Value(b: seq<Byte>): bv32
    requires |b| == 4
  {
    (b[0] as bv32) | ((b[1] as bv32) << 8) | ((b[2] as bv32) << 16) | ((b[3] as bv32) << 24)
  }

  lemma LE32RoundTrip(x: bv32)
    ensures LE32Value(LE32(x)) == x
  {
  }

  lemma LE32ValueRoundTrip(b: seq<Byte>)
    requires |b| == 4
    ensures LE32(LE32Value(b)) == b
  {
  }

  /** A size as `static_cast<std::uint32_t>`: reduced modulo 2^32. */
  function Truncated(n: nat): (r: nat)
    ensures r < 0x1_0000_0000 && r <= n
    ensures n < 0x1_0000_0000 ==> r == n
  {
    n % 0x1_0000_0000
  }

  /** The same size as a 32-bit word. */
  function U32(n: nat): bv32 {
    Truncated(n) as bv32
  }

  /** A size below 2^32 survives the cast to a 32-bit word. */
  lemma U32Fits(n: nat)
    requires n < 0x1_0000_0000
    ensures U32(n) as int == n
  {
    assert U32(n) == (n % 0x1_0000_0000) as bv32;
    assert ((n % 0x1_0000_0000) as bv32) as int == n by {
      assert n % 0x1_0000_0000 == n;
    }
  }

  /** `s` occurs in `text` at offset `i`. */
  predicate OccursAt<T(==)>(text: seq<T>, s: seq<T>, i: int) {
    0 <= i && i + |s| <= |text| && text[i..i + |s|] == s
  }

  /** `text.find(s) != npos`: a case-sensitive substring search. */
  predicate Contains<T(==)>(text: seq<T>, s: seq<T>) {
    exists i | 0 <= i <= |text| - |s| :: OccursAt(text, s, i)
  }

  /** `text.starts_with(prefix)`. */
  predicate StartsWith<T(==)>(text: seq<T>, prefix: seq<T>) {
    |prefix| <= |text| && text[..|prefix|] == prefix
  }
}
