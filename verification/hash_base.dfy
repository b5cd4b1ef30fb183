/** `identy::hs::Hash<N>` and `identy::hs::compare` (Identy/Identy_hash_base.hxx,
    Identy/Identy_hash.hxx). */
module HashBase {
  import opened Bytes

  /** `Hash<N>`: a plain value holding `N` bytes in `buffer`. The width is the
      template argument, so it is the length of `buffer` here. */
  datatype Hash = Hash(buffer: seq<Byte>)

  /** The `static_assert` on the width: it tests evenness (the message speaks of
      a power of two, the condition does not). */
  predicate Instantiable(width: nat) {
    width % 2 == 0
  }

  type Hash128 = h: Hash | |h.buffer| == 16 witness Hash([0, 0, 0, 0, 0, 0, 0, 0, 0, 0, 0, 0, 0, 0, 0, 0])
  type Hash256 = h: Hash | |h.buffer| == 32 witness Hash(seq(32, _ => 0))
  type Hash512 = h: Hash | |h.buffer| == 64 witness Hash(seq(64, _ => 0))

  /** `Hash<N>{}` or `Hash<N>()`: value-initialisation, every byte zero. */
  function ZeroHash(width: nat): (h: Hash)
    requires Instantiable(width)
    ensures |h.buffer| == width
    ensures forall i :: 0 <= i < width ==> h.buffer[i] == 0
  {
    Hash(Zeros(width))
  }

  /** The three aliases name instantiable widths of 16, 32 and 64 bytes; an odd
      width such as 15 is refused. */
  lemma AliasWidths(h128: Hash128, h256: Hash256, h512: Hash512)
    ensures Instantiable(|h128.buffer|) && |h128.buffer| == 16
    ensures Instantiable(|h256.buffer|) && |h256.buffer| == 32
    ensures Instantiable(|h512.buffer|) && |h512.buffer| == 64
    ensures !Instantiable(15)
  {
  }

  /** `std::memcmp(lhs, rhs, n)` over two equally long buffers, reduced to its
      sign: the first differing byte decides, compared as unsigned. */
  function Memcmp(a: seq<Byte>, b: seq<Byte>): (r: int)
    requires |a| == |b|
    ensures r == -1 || r == 0 || r == 1
    ensures r == 0 <==> a == b
  {
    if a == [] then 0
    else if a[0] < b[0] then -1
    else if a[0] > b[0] then 1
    else
      var r := Memcmp(a[1..], b[1..]);
      assert a == [a[0]] + a[1..] && b == [b[0]] + b[1..];
      r
  }

  /** `hs::compare(lhs, rhs)`: memcmp of the two buffers over `sizeof(lhs.buffer)`;
      both sides are the same `Hash<N>`, hence equally wide. */
  function Compare(lhs: Hash, rhs: Hash): (r: int)
    requires |lhs.buffer| == |rhs.buffer|
    ensures r == -1 || r == 0 || r == 1
    ensures r == 0 <==> lhs == rhs
  {
    Memcmp(lhs.buffer, rhs.buffer)
  }

  /** The sign comes from the first position where the buffers differ. */
  lemma {:induction false} MemcmpFirstDifference(a: seq<Byte>, b: seq<Byte>, i: nat)
    requires |a| == |b| && i < |a|
    requires a[..i] == b[..i] && a[i] != b[i]
    ensures Memcmp(a, b) == (if a[i] < b[i] then -1 else 1)
  {
    if i > 0 {
      assert a[0] == a[..i][0] == b[..i][0] == b[0];
      assert a[1..][..i - 1] == a[..i][1..] == b[..i][1..] == b[1..][..i - 1];
      MemcmpFirstDifference(a[1..], b[1..], i - 1);
    }
  }

  /** Swapping the operands flips the sign. */
  lemma {:induction false} MemcmpAntisymmetric(a: seq<Byte>, b: seq<Byte>)
    requires |a| == |b|
    ensures Memcmp(b, a) == -Memcmp(a, b)
  {
    if a != [] && a[0] == b[0] {
      MemcmpAntisymmetric(a[1..], b[1..]);
    }
  }

  /** A hash compares equal to itself and to any copy of it, and unequal to a
      hash that differs in one byte, such as one with a bit flipped. */
  lemma CompareReflexive(h: Hash, copy: Hash, i: nat, flipped: Byte)
    requires copy == h && i < |h.buffer| && flipped != h.buffer[i]
    ensures Compare(h, h) == 0 && Compare(h, copy) == 0
    ensures Compare(h, Hash(h.buffer[i := flipped])) != 0
  {
    assert h.buffer[i := flipped][i] != h.buffer[i];
  }
}
