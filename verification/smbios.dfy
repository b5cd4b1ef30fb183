/** The SMBIOS structure table as the library walks it (DMTF SMBIOS
    Reference Specification DSP0134, section 6.1): every structure opens
    with a 4-byte header (type, length, handle), the formatted area is
    `length` bytes from the start of the structure, and a set of
    NUL-terminated strings follows, closed by one more NUL (two NULs when
    the set is empty). The library reads this memory through raw pointers;
    here every read is an index into the table, and a read that would leave
    the table is what ends a string or a scan. */
module SmbiosTables {
  import opened Bytes

  /** Offset of the `length` byte in a structure header. */
  const LengthOffset: nat := 1

  /** `std::string_view(ptr).size()` at offset `p`: the bytes up to the next
      NUL, where the end of the table also ends the string. */
  function CStringLength(b: seq<Byte>, p: nat): (n: nat)
    ensures n > 0 ==> p + n <= |b|
    ensures forall j :: p <= j < p + n ==> b[j] != 0
    ensures p + n < |b| ==> b[p + n] == 0
    decreases |b| - p
  {
    if p >= |b| || b[p] == 0 then 0 else 1 + CStringLength(b, p + 1)
  }

  /** The NUL-terminated string at offset `p`, as text. */
  function CString(b: seq<Byte>, p: nat): (s: seq<Char8>)
    ensures |s| == CStringLength(b, p)
  {
    if p >= |b| then [] else BytesText(b[p..p + CStringLength(b, p)])
  }

  /** The loop `while(--index > 0 && *ptr) ptr += std::string_view(ptr).size() + 1;`
      with `r` the value `index` has after its first decrement: from `p`,
      skip `r` strings, stopping early at an empty string (the NUL that
      closes the set) or at the end of the table. */
  function StringPos(b: seq<Byte>, p: nat, r: nat): (q: nat)
    ensures p <= q
    decreases r
  {
    if r == 0 || p >= |b| || b[p] == 0 then p
    else StringPos(b, p + CStringLength(b, p) + 1, r - 1)
  }

  /** `get_smbios_string(header, index)` for the structure at offset `at`:
      empty for index 0, otherwise the `index`-th string after the formatted
      area, or the empty string once the set has run out. */
  function SmbiosString(b: seq<Byte>, at: nat, index: Byte): seq<Char8>
    requires at + LengthOffset < |b|
  {
    if index == 0 then []
    else CString(b, StringPos(b, at + b[at + LengthOffset] as int, index as int - 1))
  }

  /** A string as a structure stores it: non-empty, with no NUL inside. */
  predicate IsSetString(t: seq<Char8>) {
    |t| > 0 && forall i :: 0 <= i < |t| ==> t[i] != '\0'
  }

  /** The strings of a set, each followed by its NUL. */
  function Joined(strs: seq<seq<Char8>>): (r: seq<Byte>)
    decreases |strs|
  {
    if strs == [] then [] else TextBytes(strs[0]) + [0] + Joined(strs[1..])
  }

  /** The string set of DSP0134 section 6.1.3: the strings, then the NUL
      that closes the set; an empty set is two NULs. */
  function StringSet(strs: seq<seq<Char8>>): (r: seq<Byte>)
    ensures |r| >= 2 && r[|r| - 1] == 0
  {
    if strs == [] then [0, 0] else Joined(strs) + [0]
  }

  /** The length of a stored string followed by a NUL is the length of the
      string. */
  lemma {:induction false} CStringLengthOf(b: seq<Byte>, p: nat, t: seq<Char8>)
    requires p + |t| < |b| && b[p..p + |t|] == TextBytes(t) && b[p + |t|] == 0
    requires forall i :: 0 <= i < |t| ==> t[i] != '\0'
    ensures CStringLength(b, p) == |t|
    decreases |t|
  {
    if t != [] {
      assert b[p] == TextBytes(t)[0] == ByteOf(t[0]);
      ByteOfZero(t[0]);
      assert TextBytes(t)[1..] == TextBytes(t[1..]);
      SliceOfSlice(b, p, p + |t|, 1, |t|);
      hide TextBytes, ByteOf;
      CStringLengthOf(b, p + 1, t[1..]);
    }
  }

  /** A stored string is read back by `CStringLength` and `CString`. */
  lemma CStringOf(b: seq<Byte>, p: nat, t: seq<Char8>)
    requires p + |t| < |b| && b[p..p + |t|] == TextBytes(t) && b[p + |t|] == 0
    requires forall i :: 0 <= i < |t| ==> t[i] != '\0'
    ensures CStringLength(b, p) == |t| && CString(b, p) == t
  {
    CStringLengthOf(b, p, t);
    TextBytesRoundTrip(t);
  }

  /** A stored string followed by its NUL reads back, and its first byte
      is not a NUL. */
  lemma StoredString(b: seq<Byte>, p: nat, t: seq<Char8>)
    requires IsSetString(t)
    requires p + |t| < |b| && b[p..p + |t|] == TextBytes(t) && b[p + |t|] == 0
    ensures b[p] != 0 && CStringLength(b, p) == |t| && CString(b, p) == t
  {
    assert TextBytes(t)[0] == ByteOf(t[0]);
    ByteOfZero(t[0]);
    assert b[p] == b[p..p + |t|][0];
    CStringOf(b, p, t);
  }

  /** A non-empty set of strings stores its first string, then a NUL, then
      the rest. */
  lemma JoinedCons(strs: seq<seq<Char8>>)
    requires strs != []
    ensures Joined(strs) == TextBytes(strs[0]) + [0] + Joined(strs[1..])
  {
  }

  /** A piece, a NUL and a second piece stored from `p` to `e`. */
  lemma SplitAtNul(b: seq<Byte>, p: nat, e: nat, x: seq<Byte>, z: seq<Byte>)
    requires e == p + |x| + 1 + |z| <= |b| && b[p..e] == x + [0] + z
    ensures b[p..p + |x|] == x && b[p + |x|] == 0 && b[p + |x| + 1..e] == z
  {
    var j := x + [0] + z;
    forall i | 0 <= i < |x| ensures b[p..p + |x|][i] == x[i] {
      assert b[p + i] == b[p..e][i] == j[i];
    }
    assert b[p + |x|] == b[p..e][|x|] == j[|x|];
    forall i | 0 <= i < |z| ensures b[p + |x| + 1..e][i] == z[i] {
      assert b[p + |x| + 1 + i] == b[p..e][|x| + 1 + i] == j[|x| + 1 + i];
    }
  }

  /** Where the pieces of a stored set lie: its first string, the NUL after
      it, and the rest of the set. */
  lemma JoinedParts(b: seq<Byte>, p: nat, strs: seq<seq<Char8>>)
    requires strs != []
    requires p + |Joined(strs)| <= |b| && b[p..p + |Joined(strs)|] == Joined(strs)
    ensures var s, q := strs[0], p + |strs[0]| + 1;
      && q + |Joined(strs[1..])| == p + |Joined(strs)|
      && b[p..p + |s|] == TextBytes(s) && b[p + |s|] == 0
      && b[q..q + |Joined(strs[1..])|] == Joined(strs[1..])
  {
    var j, ts, jr := Joined(strs), TextBytes(strs[0]), Joined(strs[1..]);
    JoinedCons(strs);
    hide *;
    SplitAtNul(b, p, p + |j|, ts, jr);
  }

  /** The first string of a stored set reads back, and the rest of the set
      starts right after its NUL. */
  lemma JoinedHead(b: seq<Byte>, p: nat, strs: seq<seq<Char8>>)
    requires strs != [] && IsSetString(strs[0])
    requires p + |Joined(strs)| < |b| && b[p..p + |Joined(strs)|] == Joined(strs)
    ensures var s, q := strs[0], p + |strs[0]| + 1;
      && p < |b| && b[p] != 0 && CStringLength(b, p) == |s| && CString(b, p) == s
      && q + |Joined(strs[1..])| == p + |Joined(strs)|
      && b[q..q + |Joined(strs[1..])|] == Joined(strs[1..])
  {
    hide *;
    JoinedParts(b, p, strs);
    StoredString(b, p, strs[0]);
  }

  /** One step of the string walk. */
  lemma StringPosStep(b: seq<Byte>, p: nat, r: nat)
    ensures r == 0 || p >= |b| || b[p] == 0 ==> StringPos(b, p, r) == p
    ensures r > 0 && p < |b| && b[p] != 0 ==> StringPos(b, p, r) == StringPos(b, p + CStringLength(b, p) + 1, r - 1)
  {
  }

  /** The strings after the first of a list of stored strings are stored
      strings too. */
  lemma SetStringsTail(strs: seq<seq<Char8>>)
    requires strs != [] && forall i :: 0 <= i < |strs| ==> IsSetString(strs[i])
    ensures IsSetString(strs[0]) && forall i :: 0 <= i < |strs[1..]| ==> IsSetString(strs[1..][i])
  {
    hide IsSetString;
    assert IsSetString(strs[0]);
    forall i | 0 <= i < |strs[1..]| ensures IsSetString(strs[1..][i]) {
      assert strs[1..][i] == strs[i + 1];
    }
  }

  /** A set of strings is stored at `p` and closed by a further NUL. */
  predicate StoredAt(b: seq<Byte>, p: nat, strs: seq<seq<Char8>>) {
    && (forall i :: 0 <= i < |strs| ==> IsSetString(strs[i]))
    && p + |Joined(strs)| < |b| && b[p..p + |Joined(strs)|] == Joined(strs) && b[p + |Joined(strs)|] == 0
  }

  /** An empty stored set reads as the empty string. */
  lemma StoredEmpty(b: seq<Byte>, p: nat)
    requires StoredAt(b, p, [])
    ensures p < |b| && b[p] == 0 && CString(b, p) == []
  {
    assert Joined([]) == [];
  }

  /** The first string of a stored set reads back, and the rest of the set
      is stored right after it. */
  lemma StoredCons(b: seq<Byte>, p: nat, strs: seq<seq<Char8>>)
    requires strs != [] && StoredAt(b, p, strs)
    ensures p < |b| && b[p] != 0 && CStringLength(b, p) == |strs[0]| && CString(b, p) == strs[0]
    ensures StoredAt(b, p + |strs[0]| + 1, strs[1..])
  {
    SetStringsTail(strs);
    JoinedHead(b, p, strs);
    hide IsSetString, CStringLength, CString, TextBytes, BytesText;
  }

  /** The walk over a stored set: an empty set reads as the empty string and
      stops the walk; otherwise the first string reads back, the rest of the
      set is stored right after it, and the walk skips it. */
  lemma StoredHead(b: seq<Byte>, p: nat, strs: seq<seq<Char8>>, r: nat)
    requires StoredAt(b, p, strs)
    ensures strs == [] ==> CString(b, p) == [] && StringPos(b, p, r) == p
    ensures strs != [] ==> CString(b, p) == strs[0] && StoredAt(b, p + |strs[0]| + 1, strs[1..])
    ensures StringPos(b, p, 0) == p
    ensures strs != [] && r > 0 ==> StringPos(b, p, r) == StringPos(b, p + |strs[0]| + 1, r - 1)
  {
    hide *;
    StringPosStep(b, p, r);
    StringPosStep(b, p, 0);
    if strs == [] {
      StoredEmpty(b, p);
    } else {
      StoredCons(b, p, strs);
    }
  }

  /** Looking up string `k` (counting from 1) in a stored set of strings:
      `k` within the set gives the `k`-th string, beyond it the empty one. */
  lemma {:induction false} JoinedLookup(b: seq<Byte>, p: nat, strs: seq<seq<Char8>>, k: nat)
    requires forall i :: 0 <= i < |strs| ==> IsSetString(strs[i])
    requires p + |Joined(strs)| < |b| && b[p..p + |Joined(strs)|] == Joined(strs) && b[p + |Joined(strs)|] == 0
    requires k >= 1
    ensures CString(b, StringPos(b, p, k - 1)) == if k <= |strs| then strs[k - 1] else []
    decreases |strs|
  {
    assert StoredAt(b, p, strs);
    hide *;
    StoredLookup(b, p, strs, k);
  }

  /** `JoinedLookup` on a set given by `StoredAt`. */
  lemma {:induction false} StoredLookup(b: seq<Byte>, p: nat, strs: seq<seq<Char8>>, k: nat)
    requires StoredAt(b, p, strs) && k >= 1
    ensures CString(b, StringPos(b, p, k - 1)) == if k <= |strs| then strs[k - 1] else []
    decreases |strs|
  {
    hide *;
    StoredHead(b, p, strs, k - 1);
    if strs != [] && k > 1 {
      StoredLookup(b, p + |strs[0]| + 1, strs[1..], k - 1);
      assert k - 1 <= |strs[1..]| ==> strs[1..][k - 2] == strs[k - 1];
    }
  }

  /** The same for a whole string set as DSP0134 lays it out. */
  lemma StringSetLookup(b: seq<Byte>, p: nat, strs: seq<seq<Char8>>, k: nat)
    requires forall i :: 0 <= i < |strs| ==> IsSetString(strs[i])
    requires p + |StringSet(strs)| <= |b| && b[p..p + |StringSet(strs)|] == StringSet(strs)
    requires k >= 1
    ensures CString(b, StringPos(b, p, k - 1)) == if k <= |strs| then strs[k - 1] else []
  {
    var ss := StringSet(strs);
    if strs == [] {
      assert b[p] == ss[0] == 0;
      assert Joined(strs) == [];
    } else {
      assert ss == Joined(strs) + [0];
      assert b[p..p + |Joined(strs)|] == Joined(strs) by {
        SliceOfSlice(b, p, p + |ss|, 0, |Joined(strs)|);
      }
      assert b[p + |Joined(strs)|] == ss[|Joined(strs)|] == 0;
    }
    JoinedLookup(b, p, strs, k);
  }

  /** `00 00` starts at offset `j`: the end of a string set. */
  predicate DoubleNul(b: seq<Byte>, j: int) {
    0 <= j && j + 1 < |b| && b[j] == 0 && b[j + 1] == 0
  }

  /** The scan that skips a string set: from `q`, the first offset where
      `00 00` starts, or the place the scan gives up because fewer than two
      bytes are left (`while(next + 1 < end && (*next != 0 || *(next + 1) != 0)) next++;`). */
  function Terminator(b: seq<Byte>, q: nat): (r: nat)
    ensures q <= r
    ensures r + 1 < |b| ==> DoubleNul(b, r)
    ensures q + 1 < |b| ==> r + 1 <= |b|
    ensures forall j :: q <= j < r ==> j + 1 < |b| && !DoubleNul(b, j)
    decreases |b| - q
  {
    if q + 1 < |b| && (b[q] != 0 || b[q + 1] != 0) then Terminator(b, q + 1) else q
  }

  /** So the scan stops at the first `00 00` at or after `q`, and when there
      is none it stops with fewer than two bytes left. */
  lemma TerminatorIsFirst(b: seq<Byte>, q: nat, j: nat)
    requires q <= j && DoubleNul(b, j)
    ensures Terminator(b, q) <= j && Terminator(b, q) + 1 < |b|
  {
  }

  /** The scan past a string set: step forward until `00 00` starts, or
      until fewer than two bytes are left. */
  method SkipStrings(b: seq<Byte>, from: nat) returns (next: nat)
    ensures next == Terminator(b, from)
  {
    next := from;
    while next + 1 < |b| && (b[next] != 0 || b[next + 1] != 0)
      invariant from <= next && Terminator(b, next) == Terminator(b, from)
      decreases |b| - next
    {
      next := next + 1;
    }
  }
}
