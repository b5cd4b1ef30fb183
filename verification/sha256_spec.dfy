/** SHA-256 as FIPS 180-4 defines it, and the two-phase (absorb, then
    finalize) view of it that `identy::hs::Sha256` implements
    (Identy/Identy_sha256.cxx). */
module Sha256Spec {
  import opened Bytes
  import opened Sha256Functions

  /** `m_bit_len` is a `std::uint64_t`: additions to it wrap modulo 2^64. */
  const TwoTo64: nat := 0x1_0000_0000_0000_0000

  /** The initial hash value of section 5.3.3, set by `init`. */
  const IV: seq<bv32> := [
    0x6a09e667, 0xbb67ae85, 0x3c6ef372, 0xa54ff53a, 0x510e527f, 0x9b05688c, 0x1f83d9ab, 0x5be0cd19]

  /** The 64 round constants of section 4.2.2 (the `k` table of `transform`). */
  const K: seq<bv32> := [
    0x428a2f98, 0x71374491, 0xb5c0fbcf, 0xe9b5dba5, 0x3956c25b, 0x59f111f1, 0x923f82a4, 0xab1c5ed5,
    0xd807aa98, 0x12835b01, 0x243185be, 0x550c7dc3, 0x72be5d74, 0x80deb1fe, 0x9bdc06a7, 0xc19bf174,
    0xe49b69c1, 0xefbe4786, 0x0fc19dc6, 0x240ca1cc, 0x2de92c6f, 0x4a7484aa, 0x5cb0a9dc, 0x76f988da,
    0x983e5152, 0xa831c66d, 0xb00327c8, 0xbf597fc7, 0xc6e00bf3, 0xd5a79147, 0x06ca6351, 0x14292967,
    0x27b70a85, 0x2e1b2138, 0x4d2c6dfc, 0x53380d13, 0x650a7354, 0x766a0abb, 0x81c2c92e, 0x92722c85,
    0xa2bfe8a1, 0xa81a664b, 0xc24b8b70, 0xc76c51a3, 0xd192e819, 0xd6990624, 0xf40e3585, 0x106aa070,
    0x19a4c116, 0x1e376c08, 0x2748774c, 0x34b0bcb5, 0x391c0cb3, 0x4ed8aa4a, 0x5b9cca4f, 0x682e6ff3,
    0x748f82ee, 0x78a5636f, 0x84c87814, 0x8cc70208, 0x90befffa, 0xa4506ceb, 0xbef9a3f7, 0xc67178f2]

  /** Four bytes read as one big-endian word. */
  function WordBE(b0: Byte, b1: Byte, b2: Byte, b3: Byte): bv32 {
    ((b0 as bv32) << 24) | ((b1 as bv32) << 16) | ((b2 as bv32) << 8) | (b3 as bv32)
  }

  /** Byte `j` of a word in big-endian order, `(val >> (24 - j * 8)) & 0xff`
      in the digest loop of `finalize`. */
  function WordByte(w: bv32, j: nat): Byte
    requires j < 4
  {
    var shift: bv32 := if j == 0 then 24 else if j == 1 then 16 else if j == 2 then 8 else 0;
    ((w >> shift) & 0xFF) as bv8
  }

  /** One word written big-endian. */
  function BE32(w: bv32): (r: seq<Byte>)
    ensures |r| == 4
  {
    [WordByte(w, 0), WordByte(w, 1), WordByte(w, 2), WordByte(w, 3)]
  }

  lemma BE32RoundTrip(w: bv32)
    ensures WordBE(BE32(w)[0], BE32(w)[1], BE32(w)[2], BE32(w)[3]) == w
  {
  }

  /** The low eight bits of a count: what a `uint8_t` keeps when it is
      assigned a wider unsigned value. */
  function LowByte(v: nat): Byte {
    (v % 0x100) as bv8
  }

  /** Byte `n` of a 64-bit count written big-endian: the count shifted right
      by `56 - 8 * n` bits, truncated to a byte. */
  function CountByte(v: nat, n: nat): Byte
    requires n < 8
  {
    var divisor := if n == 0 then 0x100_0000_0000_0000 else if n == 1 then 0x1_0000_0000_0000
      else if n == 2 then 0x100_0000_0000 else if n == 3 then 0x1_0000_0000
      else if n == 4 then 0x100_0000 else if n == 5 then 0x1_0000 else if n == 6 then 0x100 else 1;
    LowByte(v / divisor)
  }

  /** The 64-bit message length written big-endian (section 5.1.1). */
  function BE64(v: nat): (r: seq<Byte>)
    requires v < TwoTo64
    ensures |r| == 8
  {
    seq(8, n requires 0 <= n < 8 => CountByte(v, n))
  }

  /** The first 16 schedule words: the block read as big-endian words. */
  function LoadWords(block: seq<Byte>): (w: seq<bv32>)
    requires |block| == 64
    ensures |w| == 16
    ensures forall t :: 0 <= t < 16 ==> w[t] == WordBE(block[4 * t], block[4 * t + 1], block[4 * t + 2], block[4 * t + 3])
  {
    seq(16, t requires 0 <= t < 16 => WordBE(block[4 * t], block[4 * t + 1], block[4 * t + 2], block[4 * t + 3]))
  }

  /** W_t = σ1(W_{t-2}) + W_{t-7} + σ0(W_{t-15}) + W_{t-16}, from the words before `t`. */
  function ScheduleWord(w: seq<bv32>, t: nat): bv32
    requires 16 <= t <= |w|
  {
    ScheduleMix(w[t - 2], w[t - 7], w[t - 15], w[t - 16])
  }

  function ScheduleMix(w2: bv32, w7: bv32, w15: bv32, w16: bv32): bv32 {
    Add(Add(Add(Sig1(w2), w7), Sig0(w15)), w16)
  }

  /** A schedule word depends only on the words before it. */
  lemma ScheduleWordPrefix(a: seq<bv32>, b: seq<bv32>, t: nat)
    requires 16 <= t <= |a| && t <= |b| && a[..t] == b[..t]
    ensures ScheduleWord(a, t) == ScheduleWord(b, t)
  {
    hide ScheduleMix;
    assert a[t - 2] == b[t - 2] by { assert a[t - 2] == a[..t][t - 2] && b[t - 2] == b[..t][t - 2]; }
    assert a[t - 7] == b[t - 7] by { assert a[t - 7] == a[..t][t - 7] && b[t - 7] == b[..t][t - 7]; }
    assert a[t - 15] == b[t - 15] by { assert a[t - 15] == a[..t][t - 15] && b[t - 15] == b[..t][t - 15]; }
    assert a[t - 16] == b[t - 16] by { assert a[t - 16] == a[..t][t - 16] && b[t - 16] == b[..t][t - 16]; }
  }

  /** Extends a schedule prefix to 64 words, one `ScheduleWord` at a time. */
  function Expand(w: seq<bv32>): (r: seq<bv32>)
    requires 16 <= |w| <= 64
    ensures |r| == 64
    decreases 64 - |w|
  {
    if |w| == 64 then w else Expand(w + [ScheduleWord(w, |w|)])
  }

  /** Extending never changes the words already there. */
  lemma {:induction false} ExpandKeepsPrefix(w: seq<bv32>)
    requires 16 <= |w| <= 64
    ensures Expand(w)[..|w|] == w
    decreases 64 - |w|
  {
    hide ScheduleWord;
    if |w| < 64 {
      var next := w + [ScheduleWord(w, |w|)];
      ExpandKeepsPrefix(next);
      assert Expand(w)[..|w|] == Expand(next)[..|next|][..|w|];
    }
  }

  /** W_0..W_63 of the message schedule (section 6.2.2, step 1). */
  function Schedule(block: seq<Byte>): (w: seq<bv32>)
    requires |block| == 64
    ensures |w| == 64
  {
    Expand(LoadWords(block))
  }

  lemma {:induction false} ExpandRecurrence(w: seq<bv32>, t: nat)
    requires 16 <= |w| <= 64 && 16 <= t < 64
    requires forall j :: 16 <= j < |w| ==> w[j] == ScheduleWord(w, j)
    ensures Expand(w)[t] == ScheduleWord(Expand(w), t)
    decreases 64 - |w|
  {
    hide ScheduleWord;
    if |w| < 64 {
      var w' := w + [ScheduleWord(w, |w|)];
      forall j | 16 <= j < |w'|
        ensures w'[j] == ScheduleWord(w', j)
      {
        assert w'[..j] == w[..j];
        ScheduleWordPrefix(w, w', j);
      }
      ExpandRecurrence(w', t);
    } else {
      assert Expand(w) == w;
    }
  }

  /** The schedule is the one section 6.2.2 defines: the first 16 words are
      the block read big-endian, every later word follows the recurrence. */
  lemma ScheduleIsFips(block: seq<Byte>, t: nat)
    requires |block| == 64 && t < 64
    ensures t < 16 ==> Schedule(block)[t] == WordBE(block[4 * t], block[4 * t + 1], block[4 * t + 2], block[4 * t + 3])
    ensures t >= 16 ==> Schedule(block)[t] == ScheduleWord(Schedule(block), t)
  {
    hide ScheduleWord;
    var w := LoadWords(block);
    if t < 16 {
      ExpandKeepsPrefix(w);
      assert Schedule(block)[t] == Schedule(block)[..16][t];
    } else {
      ExpandRecurrence(w, t);
    }
  }

  /** The eight working variables a..h. */
  datatype Work = Work(a: bv32, b: bv32, c: bv32, d: bv32, e: bv32, f: bv32, g: bv32, h: bv32)

  /** One round of section 6.2.2, step 3. */
  function Round(v: Work, k: bv32, w: bv32): Work {
    var t1 := Add(Add(Add(Add(v.h, BigSigma1(v.e)), Choose(v.e, v.f, v.g)), k), w);
    var t2 := Add(BigSigma0(v.a), Majority(v.a, v.b, v.c));
    Work(Add(t1, t2), v.a, v.b, v.c, Add(v.d, t1), v.e, v.f, v.g)
  }

  /** The working variables after the first `n` rounds with schedule `w`, starting from `h`. */
  function Rounds(h: seq<bv32>, w: seq<bv32>, n: nat): Work
    requires |h| == 8 && |w| == 64 && n <= 64
  {
    if n == 0 then Work(h[0], h[1], h[2], h[3], h[4], h[5], h[6], h[7])
    else Round(Rounds(h, w, n - 1), K[n - 1], w[n - 1])
  }

  /** The compression of one 512-bit block: 64 rounds, then the working
      variables added back into the hash value (section 6.2.2, step 4). */
  function Compress(h: seq<bv32>, block: seq<Byte>): (r: seq<bv32>)
    requires |h| == 8 && |block| == 64
    ensures |r| == 8
  {
    AddWork(h, Rounds(h, Schedule(block), 64))
  }

  /** The compression is the 64 rounds added back into the hash value. */
  lemma CompressIsAddWork(h: seq<bv32>, block: seq<Byte>, v: Work)
    requires |h| == 8 && |block| == 64 && v == Rounds(h, Schedule(block), 64)
    ensures Compress(h, block) == AddWork(h, v)
  {
  }

  /** The `k`-th working variable, counting a as 0 and h as 7. */
  function WorkWord(v: Work, k: nat): bv32
    requires k < 8
  {
    match k
    case 0 => v.a
    case 1 => v.b
    case 2 => v.c
    case 3 => v.d
    case 4 => v.e
    case 5 => v.f
    case 6 => v.g
    case _ => v.h
  }

  /** Each working variable added, modulo 2^32, to the hash word it started from. */
  function AddWork(h: seq<bv32>, v: Work): (r: seq<bv32>)
    requires |h| == 8
    ensures |r| == 8
  {
    seq(8, k requires 0 <= k < 8 => Add(h[k], WorkWord(v, k)))
  }

  /** The hash value after compressing every 64-byte block of `m` in order. */
  function HashBlocks(h: seq<bv32>, m: seq<Byte>): (r: seq<bv32>)
    requires |h| == 8 && |m| % 64 == 0
    ensures |r| == 8
    decreases |m|
  {
    if m == [] then h
    else
      assert |m| >= 64 && |m[64..]| % 64 == 0 by { hide *; }
      HashBlocks(Compress(h, m[..64]), m[64..])
  }

  /** Compressing `m1 + m2` is compressing `m1`, then `m2` from where it ended. */
  lemma {:induction false} HashBlocksAppend(h: seq<bv32>, m1: seq<Byte>, m2: seq<Byte>)
    requires |h| == 8 && |m1| % 64 == 0 && |m2| % 64 == 0
    ensures HashBlocks(h, m1 + m2) == HashBlocks(HashBlocks(h, m1), m2)
    decreases |m1|
  {
    hide Compress;
    if m1 != [] {
      assert (m1 + m2)[..64] == m1[..64];
      assert (m1 + m2)[64..] == m1[64..] + m2;
      HashBlocksAppend(Compress(h, m1[..64]), m1[64..], m2);
    } else {
      assert m1 + m2 == m2;
    }
  }

  lemma HashNoBlocks(h: seq<bv32>)
    requires |h| == 8
    ensures HashBlocks(h, []) == h
  {
  }

  lemma HashOneBlock(h: seq<bv32>, block: seq<Byte>)
    requires |h| == 8 && |block| == 64
    ensures HashBlocks(h, block) == Compress(h, block)
  {
    hide Compress;
    assert block[..64] == block;
    assert block[64..] == [];
  }

  /** The number of zero bytes between the 0x80 byte and the length field: the
      smallest k >= 0 with |m| + 1 + k + 8 a multiple of 64 (section 5.1.1). */
  function PadZeros(len: nat): (k: nat)
    ensures k < 64 && (len + 1 + k + 8) % 64 == 0
  {
    (55 - len) % 64
  }

  /** The padded message of section 5.1.1, with the bit length reduced modulo
      2^64 as the 64-bit `m_bit_len` counter reduces it. */
  function Pad(msg: seq<Byte>): (p: seq<Byte>)
    ensures |p| % 64 == 0 && |msg| < |p| <= |msg| + 72
    ensures p[..|msg|] == msg && p[|msg|] == 0x80
    ensures forall i :: |msg| < i < |p| - 8 ==> p[i] == 0
    ensures p[|p| - 8..] == BE64((8 * |msg|) % TwoTo64)
  {
    msg + [0x80] + Zeros(PadZeros(|msg|)) + BE64((8 * |msg|) % TwoTo64)
  }

  /** The eight hash words written out big-endian: 32 bytes. */
  function Digest(h: seq<bv32>): (r: seq<Byte>)
    requires |h| == 8
    ensures |r| == 32
  {
    seq(32, n requires 0 <= n < 32 => WordByte(h[n / 4], n % 4))
  }

  /** Reading the digest back four bytes at a time gives the hash words, so no
      word is lost or reordered on the way out. */
  lemma DigestRoundTrip(h: seq<bv32>, i: nat)
    requires |h| == 8 && i < 8
    ensures var d := Digest(h); WordBE(d[4 * i], d[4 * i + 1], d[4 * i + 2], d[4 * i + 3]) == h[i]
  {
    var d := Digest(h);
    assert d[4 * i] == BE32(h[i])[0] && d[4 * i + 1] == BE32(h[i])[1];
    assert d[4 * i + 2] == BE32(h[i])[2] && d[4 * i + 3] == BE32(h[i])[3];
    BE32RoundTrip(h[i]);
  }

  /** SHA-256 of `msg`: the reference the incremental hasher is measured against. */
  function Sha256(msg: seq<Byte>): (r: seq<Byte>)
    ensures |r| == 32
  {
    Digest(HashBlocks(IV, Pad(msg)))
  }

  /** The abstract contents of a hasher: `m_state`, the `m_data_len` bytes
      waiting in `m_data`, and `m_bit_len`. */
  datatype Context = Context(h: seq<bv32>, pending: seq<Byte>, bits: nat)

  predicate Ok(c: Context) {
    |c.h| == 8 && |c.pending| < 64 && c.bits < TwoTo64
  }

  /** The context `init` establishes. */
  function Initial(): (c: Context)
    ensures Ok(c)
  {
    Context(IV, [], 0)
  }

  /** One iteration of the `update` loop: store the byte; once 64 are
      waiting, compress them, count 512 more bits and empty the buffer. */
  function AbsorbByte(c: Context, x: Byte): (r: Context)
    requires Ok(c)
    ensures Ok(r)
  {
    if |c.pending| + 1 == 64 then Context(Compress(c.h, c.pending + [x]), [], (c.bits + 512) % TwoTo64)
    else Context(c.h, c.pending + [x], c.bits)
  }

  /** `update(data, len)`: the bytes absorbed one at a time, in order. */
  function Absorb(c: Context, input: seq<Byte>): (r: Context)
    requires Ok(c)
    ensures Ok(r)
    decreases |input|
  {
    if input == [] then c else Absorb(AbsorbByte(c, input[0]), input[1..])
  }

  /** `update(a); update(b)` leaves the hasher as `update(a ++ b)` does. */
  lemma {:induction false} AbsorbAppend(c: Context, a: seq<Byte>, b: seq<Byte>)
    requires Ok(c)
    ensures Absorb(Absorb(c, a), b) == Absorb(c, a + b)
    decreases |a|
  {
    hide Compress;
    if a != [] {
      assert (a + b)[0] == a[0];
      assert (a + b)[1..] == a[1..] + b;
      AbsorbAppend(AbsorbByte(c, a[0]), a[1..], b);
    } else {
      assert a + b == b;
    }
  }

  lemma AbsorbSnoc(c: Context, a: seq<Byte>, x: Byte)
    requires Ok(c)
    ensures Absorb(c, a + [x]) == AbsorbByte(Absorb(c, a), x)
  {
    hide Compress;
    AbsorbAppend(c, a, [x]);
    assert Absorb(Absorb(c, a), [x]) == AbsorbByte(Absorb(c, a), x) by {
      assert [x][1..] == [];
    }
  }

  lemma ModAdd(a: nat, b: nat)
    ensures (a % TwoTo64 + b) % TwoTo64 == (a + b) % TwoTo64
  {
  }

  /** The number of bytes of `msg` that fill whole blocks. */
  function FullPart(len: nat): (q: nat)
    ensures q <= len && q % 64 == 0 && len - q < 64
  {
    len - len % 64
  }

  /** The context a fresh hasher holds after `update(msg)`, stated without
      replaying the bytes: every complete 64-byte block compressed once, in
      order; the remaining `|msg| % 64` bytes waiting in the buffer; the bit
      counter at 8 times the compressed bytes, modulo 2^64. */
  function Consumed(msg: seq<Byte>): (c: Context)
    ensures Ok(c)
  {
    var q := FullPart(|msg|);
    Context(HashBlocks(IV, msg[..q]), msg[q..], (8 * q) % TwoTo64)
  }

  lemma ConsumedFillsBlock(m: seq<Byte>, x: Byte)
    requires |m| % 64 == 63
    ensures AbsorbByte(Consumed(m), x) == Consumed(m + [x])
  {
    hide Compress;
    var q := FullPart(|m|);
    var msg := m + [x];
    assert FullPart(|msg|) == q + 64;
    assert msg[..q + 64] == m[..q] + (m[q..] + [x]);
    HashBlocksAppend(IV, m[..q], m[q..] + [x]);
    HashOneBlock(HashBlocks(IV, m[..q]), m[q..] + [x]);
    ModAdd(8 * q, 512);
    assert msg[q + 64..] == [];
  }

  lemma ConsumedWithinBlock(m: seq<Byte>, x: Byte)
    requires |m| % 64 != 63
    ensures AbsorbByte(Consumed(m), x) == Consumed(m + [x])
  {
    hide Compress;
    var q := FullPart(|m|);
    var msg := m + [x];
    assert FullPart(|msg|) == q;
    assert msg[..q] == m[..q];
    assert msg[q..] == m[q..] + [x];
  }

  /** The `update` invariant: from a fresh hasher, absorbing `msg` yields
      `Consumed(msg)`, so `m_data_len < 64` and `m_bit_len + 8 * m_data_len`
      is 8 times the bytes fed (modulo 2^64), and each block is compressed as
      soon as it fills. */
  lemma {:induction false} AbsorbFromInitial(msg: seq<Byte>)
    ensures Absorb(Initial(), msg) == Consumed(msg)
    decreases |msg|
  {
    hide Compress;
    if msg == [] {
      assert msg[..0] == [];
    } else {
      var m := msg[..|msg| - 1];
      var x := msg[|msg| - 1];
      assert msg == m + [x];
      AbsorbFromInitial(m);
      AbsorbSnoc(Initial(), m, x);
      if |m| % 64 == 63 {
        ConsumedFillsBlock(m, x);
      } else {
        ConsumedWithinBlock(m, x);
      }
    }
  }

  /** The one or two blocks `finalize` compresses: the waiting bytes, 0x80,
      zeros up to byte 56 of the last block, then the total bit length. */
  function FinalBlocks(c: Context): (f: seq<Byte>)
    requires Ok(c)
    ensures |f| == (if |c.pending| < 56 then 64 else 128)
    ensures f[..|c.pending|] == c.pending && f[|c.pending|] == 0x80
    ensures forall i :: |c.pending| < i < |f| - 8 ==> f[i] == 0
    ensures f[|f| - 8..] == BE64((c.bits + 8 * |c.pending|) % TwoTo64)
  {
    c.pending + [0x80] + Zeros(PadZeros(|c.pending|)) + BE64((c.bits + 8 * |c.pending|) % TwoTo64)
  }

  /** How `finalize` lays the blocks out: the waiting bytes and 0x80 open the
      first block; when they leave fewer than eight bytes free (`base` is 64)
      the rest of that block is zeros and a second block starts; the last
      block is zero from `start` to byte 56 and ends with the bit count. */
  lemma FinalBlocksLayout(c: Context, base: nat, start: nat)
    requires Ok(c) && base == (if |c.pending| < 56 then 0 else 64)
    requires start == (if base == 0 then |c.pending| + 1 else 0)
    ensures |FinalBlocks(c)| == base + 64
    ensures FinalBlocks(c)[..|c.pending| + 1] == c.pending + [0x80]
    ensures base == 64 ==> FinalBlocks(c)[..64][|c.pending| + 1..] == Zeros(63 - |c.pending|)
    ensures FinalBlocks(c)[base..][start..56] == Zeros(56 - start)
    ensures FinalBlocks(c)[base..][56..] == BE64((c.bits + 8 * |c.pending|) % TwoTo64)
  {
    var f, L := FinalBlocks(c), |c.pending|;
    assert f[..L + 1] == f[..L] + [f[L]];
    ZeroRun(f, L + 1, |f| - 8);
    if base == 64 {
      assert f[..64][L + 1..] == f[L + 1..|f| - 8][..63 - L];
    }
    assert f[base..][start..56] == f[base + start..|f| - 8];
  }

  /** What `finalize` returns for a hasher holding `c`. */
  function Finalized(c: Context): (r: seq<Byte>)
    requires Ok(c)
    ensures |r| == 32
  {
    Digest(HashBlocks(c.h, FinalBlocks(c)))
  }

  lemma FinalizedParts(c: Context)
    requires Ok(c)
    ensures Finalized(c) == Digest(HashBlocks(c.h, FinalBlocks(c)))
  {
    hide Digest, HashBlocks, FinalBlocks;
  }

  lemma PadZerosModulo(len: nat, q: nat)
    requires q % 64 == 0
    ensures PadZeros(len) == PadZeros(q + len)
  {
    ModShift(55 - len, q / 64);
    assert 55 - (q + len) == (55 - len) - 64 * (q / 64);
  }

  /** Taking a multiple of 64 away keeps the remainder modulo 64. */
  lemma ModShift(x: int, k: int)
    ensures (x - 64 * k) % 64 == x % 64
  {
    var y := x - 64 * k;
    assert y == 64 * (x / 64 - k) + x % 64;
  }

  /** The padded message is the compressed prefix followed by the blocks
      `finalize` builds from what is left. */
  lemma PadSplitsAtConsumed(msg: seq<Byte>)
    ensures Pad(msg) == msg[..FullPart(|msg|)] + FinalBlocks(Consumed(msg))
  {
    hide Compress;
    var q := FullPart(|msg|);
    var P, Q := msg[..q], msg[q..];
    var c := Consumed(msg);
    ModAdd(8 * q, 8 * |Q|);
    assert (c.bits + 8 * |Q|) % TwoTo64 == (8 * |msg|) % TwoTo64;
    PadZerosModulo(|Q|, q);
    assert msg == P + Q;
  }

  /** The incremental hasher computes SHA-256: a fresh context, then `update`
      with `msg` (in one call or, by AbsorbAppend, in any number of pieces),
      then `finalize`, yields the FIPS 180-4 digest of `msg`. */
  lemma IncrementalIsSha256(msg: seq<Byte>)
    ensures Finalized(Absorb(Initial(), msg)) == Sha256(msg)
  {
    hide Compress;
    AbsorbFromInitial(msg);
    PadSplitsAtConsumed(msg);
    HashBlocksAppend(IV, msg[..FullPart(|msg|)], FinalBlocks(Consumed(msg)));
  }
}
