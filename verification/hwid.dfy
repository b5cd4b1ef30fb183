/** The SMBIOS UUID lookup of Identy/Identy_hwid.cxx: walk the structure
    table to the first System Information structure (DSP0134 section 7.2)
    long enough to hold a UUID, and take the 16 bytes at its offset 08h.
    Every read is a checked index: a header, UUID or terminator read that
    would leave the table ends the walk without a UUID. */
module Hwid {
  import opened Bytes
  import opened Snapshot
  import opened SmbiosTables

  /** `SMBIOS_type_system_information`. */
  const SystemInformationType: Byte := 1
  /** `SMBIOS_system_information_header_length`: the formatted area of a
      System Information structure that holds a UUID. */
  const SystemInformationHeaderLength: Byte := 24
  /** `SMBIOS_uuid_offset`. */
  const UuidOffset: nat := 8

  /** The structure at `p` is one the UUID is taken from. */
  predicate Qualifies(b: seq<Byte>, p: nat) {
    p + LengthOffset < |b| && b[p] == SystemInformationType && b[p + LengthOffset] >= SystemInformationHeaderLength
  }

  /** The UUID of a qualifying structure, when its 16 bytes lie in the table. */
  function UuidAt(b: seq<Byte>, p: nat): (r: Option<Uuid>)
    ensures r.Some? <==> p + UuidOffset + UuidLength <= |b|
    ensures r.Some? ==> r.value == b[p + UuidOffset..p + UuidOffset + UuidLength]
  {
    if p + UuidOffset + UuidLength <= |b| then
      var u: Uuid := b[p + UuidOffset..p + UuidOffset + UuidLength];
      Some(u)
    else None
  }

  /** The structure after the one at `p`: two bytes past the terminator of
      its string set. */
  function NextRecord(b: seq<Byte>, p: nat): (r: nat)
    requires p + LengthOffset < |b|
    ensures p < r
  {
    Terminator(b, p + b[p + LengthOffset] as int) + 2
  }

  /** The structure headers the walk can read from `pos`, in order,
      regardless of their type: an independent description of the walk. */
  function Records(b: seq<Byte>, pos: nat): (rs: seq<nat>)
    ensures forall i :: 0 <= i < |rs| ==> pos <= rs[i] && rs[i] + LengthOffset < |b|
    decreases |b| - pos
  {
    if pos + LengthOffset >= |b| then [] else [pos] + Records(b, NextRecord(b, pos))
  }

  /** What the loop of `get_smbios_uuid_impl` finds from `pos`. */
  function UuidFrom(b: seq<Byte>, pos: nat): Option<Uuid>
    decreases |b| - pos
  {
    if pos + LengthOffset >= |b| then None
    else if Qualifies(b, pos) then UuidAt(b, pos)
    else UuidFrom(b, NextRecord(b, pos))
  }

  /** A UUID the search finds is that of a qualifying structure at or after
      where the search starts. */
  lemma {:induction false} UuidFromQualifies(b: seq<Byte>, pos: nat)
    ensures UuidFrom(b, pos).Some? ==>
      exists p :: pos <= p && Qualifies(b, p) && UuidAt(b, p) == UuidFrom(b, pos)
    decreases |b| - pos
  {
    if pos + LengthOffset < |b| && !Qualifies(b, pos) {
      UuidFromQualifies(b, NextRecord(b, pos));
    }
  }

  /** The bytes the UUID lookup of a table returns: the UUID, or nothing. */
  function UuidBytes(b: seq<Byte>): (r: seq<Byte>)
    ensures |r| == 0 || |r| == UuidLength
  {
    match UuidFrom(b, 0)
    case None => []
    case Some(u) => u
  }

  /** One step of `Records` and `UuidFrom`. */
  lemma RecordsUnfold(b: seq<Byte>, pos: nat)
    requires pos + LengthOffset < |b|
    ensures Records(b, pos) == [pos] + Records(b, NextRecord(b, pos))
    ensures UuidFrom(b, pos) == if Qualifies(b, pos) then UuidAt(b, pos) else UuidFrom(b, NextRecord(b, pos))
  {
  }

  /** The UUID comes from the first qualifying structure the walk reaches,
      and there is none when no structure qualifies. */
  lemma {:induction false} UuidOfFirstQualifying(b: seq<Byte>, pos: nat)
    ensures (forall j :: 0 <= j < |Records(b, pos)| ==> !Qualifies(b, Records(b, pos)[j])) ==> UuidFrom(b, pos) == None
    ensures forall i ::
      (0 <= i < |Records(b, pos)| && Qualifies(b, Records(b, pos)[i])
       && (forall j :: 0 <= j < i ==> !Qualifies(b, Records(b, pos)[j])))
      ==> UuidFrom(b, pos) == UuidAt(b, Records(b, pos)[i])
    decreases |b| - pos
  {
    if pos + LengthOffset < |b| {
      RecordsUnfold(b, pos);
      var rs, next := Records(b, pos), NextRecord(b, pos);
      var rest := Records(b, next);
      assert rs[0] == pos;
      if !Qualifies(b, pos) {
        UuidOfFirstQualifying(b, next);
        hide Records, UuidFrom, UuidAt, NextRecord;
        assert forall i :: 0 < i < |rs| ==> rs[i] == rest[i - 1];
        if forall j :: 0 <= j < |rs| ==> !Qualifies(b, rs[j]) {
          assert forall j :: 0 <= j < |rest| ==> !Qualifies(b, rest[j]) by {
            forall j | 0 <= j < |rest| ensures !Qualifies(b, rest[j]) {
              assert rest[j] == rs[j + 1];
            }
          }
        }
        forall i | 0 <= i < |rs| && Qualifies(b, rs[i]) && (forall j :: 0 <= j < i ==> !Qualifies(b, rs[j]))
          ensures UuidFrom(b, pos) == UuidAt(b, rs[i])
        {
          assert forall j :: 0 <= j < i - 1 ==> !Qualifies(b, rest[j]) by {
            forall j | 0 <= j < i - 1 ensures !Qualifies(b, rest[j]) {
              assert rest[j] == rs[j + 1];
            }
          }
        }
      }
    }
  }

  /** One step of `UuidFrom`, in terms of the bytes the loop of
      `get_smbios_uuid_impl` tests. */
  lemma UuidStep(b: seq<Byte>, pos: nat)
    ensures pos + LengthOffset >= |b| ==> UuidFrom(b, pos) == None
    ensures pos + LengthOffset < |b| && b[pos] == SystemInformationType && b[pos + LengthOffset] >= SystemInformationHeaderLength
      ==> UuidFrom(b, pos) == UuidAt(b, pos)
    ensures pos + LengthOffset < |b| && !(b[pos] == SystemInformationType && b[pos + LengthOffset] >= SystemInformationHeaderLength)
      ==> UuidFrom(b, pos) == UuidFrom(b, Terminator(b, pos + b[pos + LengthOffset] as int) + 2)
  {
    hide UuidAt, Terminator;
  }

  /** A structure that does not qualify passes the search on to the
      structure after the string set that starts at `from`. */
  lemma UuidSkip(b: seq<Byte>, pos: nat, from: nat)
    requires pos + LengthOffset < |b| && from == pos + b[pos + LengthOffset] as int
    requires !(b[pos] == SystemInformationType && b[pos + LengthOffset] >= SystemInformationHeaderLength)
    ensures UuidFrom(b, pos) == UuidFrom(b, Terminator(b, from) + 2)
  {
    UuidStep(b, pos);
  }

  /** `UuidBytes` by cases. */
  lemma UuidBytesCases(b: seq<Byte>)
    ensures UuidFrom(b, 0).None? ==> UuidBytes(b) == []
    ensures UuidFrom(b, 0).Some? ==> UuidBytes(b) == UuidFrom(b, 0).value
  {
    hide UuidFrom;
  }

  /** `get_smbios_uuid_impl` with the result vector holding only the UUID:
      walk the structures, and at the first qualifying one copy its 16 UUID
      bytes one by one. */
  method GetSmbiosUuidImpl(table: seq<Byte>) returns (buffer: seq<Byte>)
    ensures buffer == UuidBytes(table)
  {
    hide *;
    UuidBytesCases(table);
    var pos: nat := 0;
    while pos < |table|
      invariant UuidFrom(table, pos) == UuidFrom(table, 0)
      decreases |table| - pos
    {
      UuidStep(table, pos);
      if pos + LengthOffset >= |table| {
        break;
      }
      if table[pos] == SystemInformationType && table[pos + LengthOffset] >= SystemInformationHeaderLength {
        if pos + UuidOffset + UuidLength > |table| {
          return [];
        }
        buffer := CopyBytes(table, pos + UuidOffset, UuidLength);
        return;
      }
      var from := pos + table[pos + LengthOffset] as int;
      UuidSkip(table, pos, from);
      var next := SkipStrings(table, from);
      pos := next + 2;
    }
    UuidStep(table, pos);
    return [];
  }

  /** `n` bytes from offset `at`, appended one at a time (the
      `emplace_back` loop). */
  method CopyBytes(b: seq<Byte>, at: nat, n: nat) returns (r: seq<Byte>)
    requires at + n <= |b|
    ensures r == b[at..at + n]
  {
    r := [];
    for i := 0 to n
      invariant r == b[at..at + i]
    {
      r := r + [b[at + i]];
    }
  }

  /** `get_smbios_uuid`: no table gives no UUID. */
  method GetSmbiosUuid(table: Option<seq<Byte>>) returns (uuid: seq<Byte>)
    ensures table.None? ==> uuid == []
    ensures table.Some? ==> uuid == UuidBytes(table.value)
  {
    if table.None? {
      return [];
    }
    uuid := GetSmbiosUuidImpl(table.value);
  }

  /** The result as the source builds it: `buffer.resize(table length)`
      first, then the UUID bytes appended by `emplace_back`. */
  function UuidBytesAsWritten(b: seq<Byte>): seq<Byte> {
    match UuidFrom(b, 0)
    case None => []
    case Some(u) => Zeros(|b|) + u
  }

  /** As written, a UUID that is found comes back behind as many zero bytes
      as the table is long, so the result is never the UUID itself. */
  lemma UuidResizeAsWritten(b: seq<Byte>)
    requires UuidFrom(b, 0).Some?
    ensures |UuidBytesAsWritten(b)| == |b| + UuidLength
    ensures UuidBytesAsWritten(b)[..|b|] == Zeros(|b|) && UuidBytesAsWritten(b)[|b|..] == UuidBytes(b)
    ensures UuidBytesAsWritten(b) != UuidBytes(b)
  {
    var u := UuidFrom(b, 0).value;
    UuidFromQualifies(b, 0);
    var p :| 0 <= p && Qualifies(b, p) && UuidAt(b, p) == Some(u);
    assert |b| > 0;
    assert UuidBytesAsWritten(b) == Zeros(|b|) + u;
  }

  /** The offsets the terminator scan `while(next < end && (*next != 0 ||
      *(next + 1) != 0))` reads from `q`, as written. When the last byte of
      the table is a NUL the scan reads the byte after it; what it does next
      depends on memory outside the table, so the list stops there. */
  function ScanReadsAsWritten(b: seq<Byte>, q: nat): seq<nat>
    decreases |b| - q
  {
    if q >= |b| then []
    else if b[q] != 0 then [q] + ScanReadsAsWritten(b, q + 1)
    else if q + 1 >= |b| then [q, q + 1]
    else if b[q + 1] != 0 then [q, q + 1] + ScanReadsAsWritten(b, q + 1)
    else [q, q + 1]
  }

  /** A table ending in a string set that lacks its closing NUL: a type 2
      structure of length 4 holding the one string "\x07". The scan from the
      end of its formatted area reads offset 6 of a 6-byte table. */
  lemma ScanOverreadsAsWritten()
    ensures ScanReadsAsWritten([2, 4, 0, 0, 7, 0], 4) == [4, 5, 6]
  {
    assert ScanReadsAsWritten([2, 4, 0, 0, 7, 0], 5) == [5, 6];
  }

  /** The offsets the scan with the guard `next + 1 < end` reads, the scan
      `Terminator` describes and the rest of the model uses: they all lie in
      the table, and none lies past the pair where `Terminator` stops. */
  function ScanReads(b: seq<Byte>, q: nat): (r: seq<nat>)
    ensures forall i :: 0 <= i < |r| ==> q <= r[i] < |b|
    ensures r != [] ==> r[|r| - 1] <= Terminator(b, q) + 1
    decreases |b| - q
  {
    if q + 1 >= |b| then []
    else if b[q] != 0 then [q] + ScanReads(b, q + 1)
    else if b[q + 1] != 0 then [q, q + 1] + ScanReads(b, q + 1)
    else [q, q + 1]
  }
}
