/** `identy::hs::Sha256` (Identy/Identy_sha256.cxx, Identy/Identy_sha256.hxx):
    an incremental SHA-256 hasher whose fields change in place. */
module Sha256Hasher {
  import opened Bytes
  import opened Sha256Functions
  import opened Sha256Spec
  import HashBase

  class Sha256 {
    /** `m_state[8]`: the running hash value. */
    var state: array<bv32>
    /** `m_data[64]`: the block being filled. */
    var data: array<Byte>
    /** `m_data_len`: how many bytes of `data` are waiting. */
    var dataLen: nat
    /** `m_bit_len`: a 64-bit count of the bits already compressed. */
    var bitLen: nat

    predicate Valid()
      reads this
    {
      state.Length == 8 && data.Length == 64 && dataLen < 64 && bitLen < TwoTo64
    }

    /** The hasher as an abstract context; the bytes of `data` past `dataLen`
        are leftovers that nothing reads before overwriting them. */
    function View(): (c: Context)
      requires Valid()
      reads this, state, data
      ensures Ok(c)
    {
      Context(state[..], data[..dataLen], bitLen)
    }

    /** What `Valid` and `View` say about the fields. */
    lemma ViewParts()
      requires Valid()
      ensures state.Length == 8 && data.Length == 64 && dataLen < 64 && bitLen < TwoTo64
      ensures View() == Context(state[..], data[..dataLen], bitLen)
    {
    }

    /** `Sha256()`: allocate the buffers and run `init`. */
    constructor()
      ensures Valid() && View() == Initial()
      ensures fresh(state) && fresh(data)
    {
      state := new bv32[8];
      data := new Byte[64];
      dataLen, bitLen := 0, 0;
      new;
      Init();
    }

    /** `init`: the initial hash value of FIPS 180-4 section 5.3.3, and empty counters. */
    method Init()
      requires state.Length == 8 && data.Length == 64
      modifies this, state
      ensures state == old(state) && data == old(data)
      ensures Valid() && View() == Initial()
    {
      // The eight `m_state[k] = …` of the initial hash value, as one parallel update.
      forall k | 0 <= k < 8 {
        state[k] := IV[k];
      }
      dataLen := 0;
      bitLen := 0;
    }

    /** `update(data, len)`: the bytes go into the hasher one at a time. */
    method Update(input: seq<Byte>)
      requires Valid()
      modifies this, state, data
      ensures state == old(state) && data == old(data)
      ensures Valid() && View() == Absorb(old(View()), input)
    {
      assert input[..0] == [] && Absorb(View(), []) == View();
      hide *;
      var i := 0;
      while i < |input|
        invariant 0 <= i <= |input|
        invariant state == old(state) && data == old(data)
        invariant Valid() && View() == Absorb(old(View()), input[..i])
      {
        Push(input[i]);
        AbsorbSnoc(old(View()), input[..i], input[i]);
        assert input[..i + 1] == input[..i] + [input[i]];
        i := i + 1;
      }
      assert input[..i] == input;
    }

    /** One turn of the loop in `update`: the byte goes into the block buffer;
        a full block is compressed at once, counted as 512 bits, and the
        buffer restarts. */
    method Push(x: Byte)
      requires Valid()
      modifies this, state, data
      ensures state == old(state) && data == old(data)
      ensures Valid() && View() == AbsorbByte(old(View()), x)
    {
      hide Compress;
      ghost var before := View();
      data[dataLen] := x;
      dataLen := dataLen + 1;
      assert data[..dataLen] == before.pending + [x];
      if dataLen == 64 {
        assert data[..] == data[..dataLen];
        Transform();
        bitLen := (bitLen + 512) % TwoTo64;
        dataLen := 0;
      }
    }

    /** `finalize()`: pad the waiting bytes with 0x80, zeros and the 64-bit
        bit count, compress the one or two blocks this makes, and write the
        eight state words out big-endian. The hasher keeps its last state and
        its `m_data_len`, and `m_bit_len` now counts the waiting bytes too. */
    method Finalize() returns (result: HashBase.Hash256)
      requires Valid()
      modifies this, state, data
      ensures state == old(state) && data == old(data) && Valid()
      ensures result.buffer == Finalized(old(View()))
      ensures state[..] == HashBlocks(old(state[..]), FinalBlocks(old(View())))
      ensures dataLen == old(dataLen) && bitLen == (old(bitLen) + old(dataLen) * 8) % TwoTo64
    {
      ghost var c := View();
      ghost var fb := FinalBlocks(c);
      PadFinalBlocks(c, fb);
      assert state.Length == 8;
      hide *;
      result := WriteDigest();
      FinalizedParts(c);
    }

    /** The padding half of `finalize`, up to and including the last `transform`:
        the 0x80 marker after the waiting bytes and, when the bit count no longer
        fits behind it, a block of its own compressed first. */
    method PadFinalBlocks(ghost c: Context, ghost fb: seq<Byte>)
      requires Valid() && c == View() && fb == FinalBlocks(c)
      modifies this, state, data
      ensures state == old(state) && data == old(data) && Valid()
      ensures state[..] == HashBlocks(c.h, fb)
      ensures dataLen == old(dataLen) && bitLen == (old(bitLen) + old(dataLen) * 8) % TwoTo64
    {
      hide *;
      ViewParts();
      HashNoBlocks(c.h);
      ghost var base := if dataLen < 56 then 0 else 64;
      var i := dataLen;
      FinalBlocksLayout(c, base, if base == 0 then i + 1 else 0);
      data[i] := 0x80;
      i := i + 1;
      assert data[..i] == fb[..i] by {
        assert data[..i] == old(data[..dataLen]) + [0x80];
      }
      if i > 56 {
        PadOverflowBlock(fb[..64], i);
        HashOneBlock(c.h, fb[..64]);
        i := 0;
      }
      ghost var h := state[..];
      PadLastBlock(fb[base..], i);
      HashOneBlock(h, fb[base..]);
      HashBlocksAppend(c.h, fb[..base], fb[base..]);
      assert fb[..base] + fb[base..] == fb;
    }

    /** The branch of `finalize` for waiting bytes that leave no room for the
        bit count: zeros to the end of the block, then `transform`. `block` is
        the block this completes, of which the first `i` bytes are in place. */
    method PadOverflowBlock(ghost block: seq<Byte>, i: nat)
      requires state.Length == 8 && data.Length == 64
      requires i <= 64 && |block| == 64 && data[..i] == block[..i] && block[i..] == Zeros(64 - i)
      modifies state, data
      ensures state[..] == Compress(old(state[..]), block)
    {
      hide *;
      ZeroFill(i, 64);
      assert data[..] == block by {
        assert old(data[..])[64..] == [];
        assert block == block[..i] + block[i..];
      }
      Transform();
    }

    /** The rest of `finalize`'s padding: zeros up to byte 56, the bit count
        (which now takes in the waiting bytes) in the last eight bytes, and the
        final `transform`. `last` is the block this completes, of which the
        first `i` bytes are already in place. */
    method PadLastBlock(ghost last: seq<Byte>, i: nat)
      requires Valid() && i <= 56 && |last| == 64 && data[..i] == last[..i]
      requires last[i..56] == Zeros(56 - i)
      requires last[56..] == BE64((bitLen + dataLen * 8) % TwoTo64)
      modifies this, state, data
      ensures state == old(state) && data == old(data) && Valid()
      ensures state[..] == Compress(old(state[..]), last)
      ensures dataLen == old(dataLen) && bitLen == (old(bitLen) + old(dataLen) * 8) % TwoTo64
    {
      hide Compress, BE64, Zeros;
      ZeroFill(i, 56);
      bitLen := (bitLen + dataLen * 8) % TwoTo64;
      WriteLength();
      assert data[..] == last by {
        assert last == last[..i] + last[i..56] + last[56..];
        assert old(data[..])[..i] == data[..i];
      }
      Transform();
    }

    /** The zero-filling loops of `finalize`: `while (i < to) m_data[i++] = 0x00;`. */
    method ZeroFill(from: nat, to: nat)
      requires from <= to <= data.Length
      modifies data
      ensures data[..] == old(data[..])[..from] + Zeros(to - from) + old(data[..])[to..]
    {
      ghost var o := data[..];
      var i := from;
      ZeroStart(o, from);
      while i < to
        invariant from <= i <= to
        invariant data[..] == o[..from] + Zeros(i - from) + o[i..]
      {
        data[i] := 0x00;
        ZeroStep(o, from, i);
        i := i + 1;
      }
    }

    /** Nothing filled yet: the block as it was. */
    lemma ZeroStart(o: seq<Byte>, from: nat)
      requires from <= |o|
      ensures o == o[..from] + Zeros(0) + o[from..]
    {
      assert Zeros(0) == [];
    }

    /** Zeroing byte `i` extends the zero run by one. */
    lemma ZeroStep(o: seq<Byte>, from: nat, i: nat)
      requires from <= i < |o|
      ensures (o[..from] + Zeros(i - from) + o[i..])[i := 0x00] == o[..from] + Zeros(i + 1 - from) + o[i + 1..]
    {
      var a := (o[..from] + Zeros(i - from) + o[i..])[i := 0x00];
      var b := o[..from] + Zeros(i + 1 - from) + o[i + 1..];
      assert forall n | 0 <= n < |a| :: a[n] == b[n];
    }

    /** The eight stores `m_data[63 - k] = m_bit_len >> (8 * k)`, one for each
        position `n` from 56 to 63: the bit count big-endian in the last eight
        bytes of the block, done as one parallel update. */
    method WriteLength()
      requires data.Length == 64 && bitLen < TwoTo64
      modifies data
      ensures data[..] == old(data[..56]) + BE64(bitLen)
    {
      hide CountByte;
      forall n | 56 <= n < 64 {
        data[n] := CountByte(bitLen, n - 56);
      }
    }

    /** The digest loop of `finalize`: byte `j` of every state word, for `j`
        from 0 to 3, into `result.buffer[4 * k + j]`. */
    method WriteDigest() returns (result: HashBase.Hash256)
      requires state.Length == 8
      ensures result.buffer == Digest(state[..])
    {
      var buffer := new Byte[32];
      var j := 0;
      while j < 4
        invariant 0 <= j <= 4
        invariant forall n :: 0 <= n < 32 && n % 4 < j ==> buffer[n] == WordByte(state[n / 4], n % 4)
      {
        // The eight `result.buffer[4 * k + j] = (m_state[k] >> (24 - j * 8)) & 0xff`,
        // one for each position `n` whose byte index `n % 4` is `j`.
        forall n | 0 <= n < 32 && n % 4 == j {
          buffer[n] := WordByte(state[n / 4], j);
        }
        j := j + 1;
      }
      result := HashBase.Hash(buffer[..]);
    }

    /** `hash(bytes)`: a fresh hasher, one `update` with all the bytes, then
        `finalize`; the result is the FIPS 180-4 SHA-256 digest of `bytes`. */
    static method Hash(bytes: seq<Byte>) returns (r: HashBase.Hash256)
      ensures r.buffer == Sha256Spec.Sha256(bytes)
    {
      var ctx := new Sha256();
      ctx.Update(bytes);
      r := ctx.Finalize();
      IncrementalIsSha256(bytes);
    }

    /** `transform(m_data)`: compress the 64 bytes of `data` into `state`.
        Its phases (reading the block, extending the message schedule, the 64
        rounds, adding the working variables back) are the loops of the
        source, each in a method of its own below. */
    method Transform()
      requires state.Length == 8 && data.Length == 64
      modifies state
      ensures state[..] == Compress(old(state[..]), data[..])
    {
      hide *;
      ghost var h0, block := state[..], data[..];
      var m := new bv32[64];
      LoadBlock(m);
      ExtendSchedule(m, data[..]);
      var a, b, c, d, e, f, g, h := RunRounds(m);
      var v := Work(a, b, c, d, e, f, g, h);
      CompressIsAddWork(h0, block, v);
      AddBack(v);
    }

    /** The first loop of `transform`: the block read as 16 big-endian words. */
    method LoadBlock(m: array<bv32>)
      requires data.Length == 64 && m.Length == 64
      modifies m
      ensures m[..16] == LoadWords(data[..])
    {
      var i, j := 0, 0;
      while i < 16
        invariant 0 <= i <= 16 && j == 4 * i
        invariant forall t :: 0 <= t < i ==> m[t] == LoadWords(data[..])[t]
      {
        m[i] := ((data[j] as bv32) << 24) | ((data[j + 1] as bv32) << 16) | ((data[j + 2] as bv32) << 8) | (data[j + 3] as bv32);
        i, j := i + 1, j + 4;
      }
    }

    /** The second loop of `transform`: words 16 to 63 of the message schedule. */
    static method ExtendSchedule(m: array<bv32>, ghost block: seq<Byte>)
      requires |block| == 64 && m.Length == 64 && m[..16] == LoadWords(block)
      modifies m
      ensures m[..] == Schedule(block)
    {
      hide Add, Sig0, Sig1;
      var i := 16;
      while i < 64
        invariant 16 <= i <= 64
        invariant Expand(m[..i]) == Schedule(block)
      {
        m[i] := Add(Add(Add(Sig1(m[i - 2]), m[i - 7]), Sig0(m[i - 15])), m[i - 16]);
        assert m[..i + 1] == m[..i] + [ScheduleWord(m[..i], i)] by {
          assert m[..i][i - 2] == m[i - 2] && m[..i][i - 7] == m[i - 7];
          assert m[..i][i - 15] == m[i - 15] && m[..i][i - 16] == m[i - 16];
        }
        i := i + 1;
      }
    }

    /** The last eight statements of `transform`, `m_state[k] += …` for each
        working variable, done as one parallel update. */
    method AddBack(v: Work)
      requires state.Length == 8
      modifies state
      ensures state[..] == AddWork(old(state[..]), v)
    {
      hide Add;
      forall k | 0 <= k < 8 {
        state[k] := Add(state[k], WorkWord(v, k));
      }
    }

    /** The third loop of `transform`: the 64 rounds on the working variables,
        which start as the current hash value. */
    method RunRounds(m: array<bv32>) returns (a: bv32, b: bv32, c: bv32, d: bv32, e: bv32, f: bv32, g: bv32, h: bv32)
      requires state.Length == 8 && m.Length == 64
      ensures Work(a, b, c, d, e, f, g, h) == Rounds(state[..], m[..], 64)
    {
      hide Add, BigSigma0, BigSigma1, Choose, Majority;
      a, b, c, d := state[0], state[1], state[2], state[3];
      e, f, g, h := state[4], state[5], state[6], state[7];
      var i := 0;
      while i < 64
        invariant 0 <= i <= 64
        invariant Work(a, b, c, d, e, f, g, h) == Rounds(state[..], m[..], i)
      {
        var t1 := Add(Add(Add(Add(h, BigSigma1(e)), Choose(e, f, g)), K[i]), m[i]);
        var t2 := Add(BigSigma0(a), Majority(a, b, c));
        assert m[..][i] == m[i];
        h := g;
        g := f;
        f := e;
        e := Add(d, t1);
        d := c;
        c := b;
        b := a;
        a := Add(t1, t2);
        i := i + 1;
      }
    }
  }
}
