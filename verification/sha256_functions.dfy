/** The `constexpr` helpers of `identy::hs::Sha256` (Identy/Identy_sha256.hxx):
    the logical functions of section 4.1.2 of FIPS 180-4 on 32-bit words. */
module Sha256Functions {

  /** `std::rotr(x, n)` on a 32-bit word: the count is taken modulo 32 and a
      count that is a multiple of 32 leaves the word alone. */
  function Rotr(x: bv32, n: bv32): (r: bv32)
    ensures n % 32 == 0 ==> r == x
  {
    var s := n % 32;
    if s == 0 then x else (x >> s) | (x << (32 - s))
  }

  /** `+` on `uint32_t`: addition modulo 2^32, written as a function so that
      every sum in the algorithm is spelled the same way in the model and in
      the hasher. */
  function Add(x: bv32, y: bv32): bv32 {
    x + y
  }

  /** `choose` is Ch(e, f, g): where a bit of `e` is 1 the result has the bit of
      `f`, where it is 0 the bit of `g`. */
  function Choose(e: bv32, f: bv32, g: bv32): (r: bv32)
    ensures r & e == f & e
    ensures r & !e == g & !e
  {
    (e & f) ^ (!e & g)
  }

  /** `majority` is Maj(a, b, c): a bit is set exactly when at least two of the
      three inputs have it set, which is also the xor form used by FIPS 180-4. */
  function Majority(a: bv32, b: bv32, c: bv32): (r: bv32)
    ensures r == (a & b) | (a & c) | (b & c)
    ensures r == (a & b) ^ (a & c) ^ (b & c)
  {
    (a & (b | c)) | (b & c)
  }

  /** `sig0`: σ0 of the message schedule. */
  function Sig0(x: bv32): bv32 {
    Rotr(x, 7) ^ Rotr(x, 18) ^ (x >> 3)
  }

  /** `sig1`: σ1 of the message schedule. */
  function Sig1(x: bv32): bv32 {
    Rotr(x, 17) ^ Rotr(x, 19) ^ (x >> 10)
  }

  /** Σ0, written inline in `transform` as `rotr(a, 2) ^ rotr(a, 13) ^ rotr(a, 22)`. */
  function BigSigma0(x: bv32): bv32 {
    Rotr(x, 2) ^ Rotr(x, 13) ^ Rotr(x, 22)
  }

  /** Σ1, written inline in `transform` as `rotr(e, 6) ^ rotr(e, 11) ^ rotr(e, 25)`. */
  function BigSigma1(x: bv32): bv32 {
    Rotr(x, 6) ^ Rotr(x, 11) ^ Rotr(x, 25)
  }
}
