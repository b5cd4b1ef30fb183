/** The canonical serialisers and the default fingerprint (Identy/Identy_hash.cxx,
    Identy/Identy_hash.hxx): the byte stream a snapshot is hashed from, and the
    SHA-256 of that stream as `default_hash` computes it. */
module Fingerprint {
  import opened Bytes
  import opened Snapshot
  import HashBase
  import Sha256Spec
  import Sha256Hasher

  /** `push_back` of a wider unsigned value into a byte vector keeps its low eight bits. */
  function Low8(x: bv32): Byte {
    (x & 0xFF) as bv8
  }

  /** The three `extended_modern` words as the 12 bytes the array occupies. */
  function ExtendedBytes(e: ExtendedModern): (r: seq<Byte>)
    ensures |r| == 12
  {
    LE32(e[0]) + LE32(e[1]) + LE32(e[2])
  }

  /** The CPU part of the stream: vendor, version, the four characteristic
      bytes, brand string and the instruction-set words. Strings go in without
      a length or a terminator. */
  function CpuBytes(cpu: Cpu): (r: seq<Byte>)
    ensures |r| == 28 + |cpu.vendor| + |cpu.extendedBrandString|
  {
    TextBytes(cpu.vendor) + LE32(cpu.version)
    + [cpu.brandIndex] + [cpu.clflushLineSize] + [Low8(cpu.logicalProcessorsCount)] + [cpu.apicId]
    + TextBytes(cpu.extendedBrandString)
    + LE32(cpu.instructionSet.basic) + LE32(cpu.instructionSet.modern)
    + ExtendedBytes(cpu.instructionSet.extendedModern)
  }

  /** What `serialize_motherboard` returns: the CPU part, then the 2.0-calling
      flag as one byte 1 or 0, the three SMBIOS version bytes, the 16 UUID
      bytes and the raw tables. */
  function MotherboardBytes(mb: Motherboard): seq<Byte> {
    CpuBytes(mb.cpu)
    + [if mb.smbios.is20CallingUsed then 1 else 0]
    + [mb.smbios.majorVersion] + [mb.smbios.minorVersion] + [mb.smbios.dmiVersion]
    + mb.smbios.uuid + mb.smbios.rawTablesData
  }

  /** One drive in `serialize_motherboard_ex`: the enumerator's four bytes,
      then device name and serial, each without a length. */
  function DriveBytes(d: PhysicalDriveInfo): seq<Byte> {
    LE32(BusOrdinal(d.busType)) + TextBytes(d.deviceName) + TextBytes(d.serial)
  }

  /** The drives in list order, none sorted or left out. */
  function DrivesBytes(ds: seq<PhysicalDriveInfo>): seq<Byte> {
    if ds == [] then [] else DrivesBytes(ds[..|ds| - 1]) + DriveBytes(ds[|ds| - 1])
  }

  /** What `serialize_motherboard_ex` returns. */
  function MotherboardExBytes(mb: MotherboardEx): seq<Byte> {
    MotherboardBytes(Base(mb)) + DrivesBytes(mb.drives)
  }

  /** `serialize_motherboard`: the buffer grows field by field. */
  method SerializeMotherboard(board: Motherboard) returns (buffer: seq<Byte>)
    ensures buffer == MotherboardBytes(board)
  {
    hide TextBytes, LE32, ExtendedBytes, Low8;
    buffer := [];
    buffer := buffer + TextBytes(board.cpu.vendor);
    assert buffer == TextBytes(board.cpu.vendor);
    buffer := buffer + LE32(board.cpu.version);
    buffer := buffer + [board.cpu.brandIndex];
    buffer := buffer + [board.cpu.clflushLineSize];
    buffer := buffer + [Low8(board.cpu.logicalProcessorsCount)];
    buffer := buffer + [board.cpu.apicId];
    buffer := buffer + TextBytes(board.cpu.extendedBrandString);
    buffer := buffer + LE32(board.cpu.instructionSet.basic);
    buffer := buffer + LE32(board.cpu.instructionSet.modern);
    buffer := buffer + ExtendedBytes(board.cpu.instructionSet.extendedModern);
    assert buffer == CpuBytes(board.cpu);
    hide CpuBytes;
    buffer := buffer + [if board.smbios.is20CallingUsed then 1 else 0];
    buffer := buffer + [board.smbios.majorVersion];
    buffer := buffer + [board.smbios.minorVersion];
    buffer := buffer + [board.smbios.dmiVersion];
    buffer := buffer + board.smbios.uuid;
    buffer := buffer + board.smbios.rawTablesData;
  }

  /** `serialize_motherboard_ex`: the base board's bytes, then the drive loop. */
  method SerializeMotherboardEx(board: MotherboardEx) returns (buffer: seq<Byte>)
    ensures buffer == MotherboardExBytes(board)
  {
    buffer := SerializeMotherboard(Base(board));
    ghost var base := buffer;
    hide *;
    DrivesStart(board.drives);
    var i := 0;
    while i < |board.drives|
      invariant 0 <= i <= |board.drives|
      invariant buffer == base + DrivesBytes(board.drives[..i])
    {
      var drive := board.drives[i];
      DrivesStep(board.drives, i);
      ghost var before := DrivesBytes(board.drives[..i]);
      buffer := buffer + LE32(BusOrdinal(drive.busType));
      buffer := buffer + TextBytes(drive.deviceName);
      buffer := buffer + TextBytes(drive.serial);
      Append5(base, before, LE32(BusOrdinal(drive.busType)), TextBytes(drive.deviceName), TextBytes(drive.serial));
      i := i + 1;
    }
    DrivesEnd(board);
  }

  /** No drive yet, no drive bytes. */
  lemma DrivesStart(ds: seq<PhysicalDriveInfo>)
    ensures DrivesBytes(ds[..0]) == []
  {
    assert ds[..0] == [];
  }

  /** One more drive appends that drive's bytes. */
  lemma DrivesStep(ds: seq<PhysicalDriveInfo>, i: nat)
    requires i < |ds|
    ensures DrivesBytes(ds[..i + 1]) == DrivesBytes(ds[..i])
      + (LE32(BusOrdinal(ds[i].busType)) + TextBytes(ds[i].deviceName) + TextBytes(ds[i].serial))
  {
    assert ds[..i + 1][..i] == ds[..i];
  }

  /** All drives written: the extended stream. */
  lemma DrivesEnd(mb: MotherboardEx)
    ensures MotherboardBytes(Base(mb)) + DrivesBytes(mb.drives[..|mb.drives|]) == MotherboardExBytes(mb)
  {
    assert mb.drives[..|mb.drives|] == mb.drives;
  }

  /** Regrouping a chain of five appends. */
  lemma Append5(a: seq<Byte>, b: seq<Byte>, x: seq<Byte>, y: seq<Byte>, z: seq<Byte>)
    ensures a + b + x + y + z == a + (b + (x + y + z))
  {
  }

  /** Where the pieces of a chain shaped like the CPU part land. */
  lemma CpuChain(s1: seq<Byte>, w: seq<Byte>, a1: Byte, a2: Byte, a3: Byte, a4: Byte,
                 s2: seq<Byte>, x1: seq<Byte>, x2: seq<Byte>, x3: seq<Byte>)
    requires |w| == 4 && |x1| == 4 && |x2| == 4 && |x3| == 12
    ensures var b := s1 + w + [a1] + [a2] + [a3] + [a4] + s2 + x1 + x2 + x3;
      var v := |s1|;
      var o := v + 8 + |s2|;
      && |b| == o + 20 && b[..v] == s1 && b[v..v + 4] == w
      && b[v + 4] == a1 && b[v + 5] == a2 && b[v + 6] == a3 && b[v + 7] == a4
      && b[v + 8..o] == s2 && b[o..o + 4] == x1 && b[o + 4..o + 8] == x2 && b[o + 8..] == x3
  {
    var b := s1 + w + [a1] + [a2] + [a3] + [a4] + s2 + x1 + x2 + x3;
    var v := |s1|;
    var o := v + 8 + |s2|;
    var t := w + [a1, a2, a3, a4] + s2;
    var y := x1 + x2 + x3;
    CpuRegroup(s1, w, a1, a2, a3, a4, s2, x1, x2, x3);
    Split3(s1, t, y);
    Split3(w, [a1, a2, a3, a4], s2);
    Split3(x1, x2, x3);
    SubSlice(b, v, o, 0, 4);
    SubSlice(b, v, o, 8, |t|);
    SubSlice(b, o, |b|, 0, 4);
    SubSlice(b, o, |b|, 4, 8);
    SubSlice(b, o, |b|, 8, 20);
  }

  /** The CPU chain read as three groups. */
  lemma CpuRegroup(s1: seq<Byte>, w: seq<Byte>, a1: Byte, a2: Byte, a3: Byte, a4: Byte,
                   s2: seq<Byte>, x1: seq<Byte>, x2: seq<Byte>, x3: seq<Byte>)
    ensures s1 + w + [a1] + [a2] + [a3] + [a4] + s2 + x1 + x2 + x3
      == s1 + (w + [a1, a2, a3, a4] + s2) + (x1 + x2 + x3)
  {
  }

  /** Each of three joined pieces is found again at its offset. */
  lemma Split3(p: seq<Byte>, q: seq<Byte>, r: seq<Byte>)
    ensures var b := p + q + r;
      && b[..|p|] == p && b[|p|..|p| + |q|] == q && b[|p| + |q|..] == r
      && b[|p| + |q|..|b|] == r
  {
  }

  /** A slice of a slice is a slice. */
  lemma SubSlice(b: seq<Byte>, i: nat, j: nat, k: nat, l: nat)
    requires i <= j <= |b| && k <= l <= j - i
    ensures b[i..j][k..l] == b[i + k..i + l]
  {
    assert forall m | 0 <= m < l - k :: b[i..j][k..l][m] == b[i + k..i + l][m];
  }

  /** Where the pieces of a chain shaped like the whole stream land after its
      first piece `c`. */
  lemma SmbiosChain(c: seq<Byte>, a1: Byte, a2: Byte, a3: Byte, a4: Byte, u: seq<Byte>, r: seq<Byte>)
    ensures var b := c + [a1] + [a2] + [a3] + [a4] + u + r;
      var n := |c|;
      && |b| == n + 4 + |u| + |r| && b[..n] == c
      && b[n] == a1 && b[n + 1] == a2 && b[n + 2] == a3 && b[n + 3] == a4
      && b[n + 4..n + 4 + |u|] == u && b[n + 4 + |u|..] == r
  {
    var b := c + [a1] + [a2] + [a3] + [a4] + u + r;
    var n := |c|;
    var t := [a1, a2, a3, a4] + u + r;
    assert b == c + t;
    assert b[n..] == t;
    assert t[4..4 + |u|] == u;
    assert b[n + 4..n + 4 + |u|] == t[4..4 + |u|];
  }

  /** Where each field of the CPU part lands: `v` is the vendor length and
      `o` the offset of the instruction-set words, right after the brand
      string. */
  lemma CpuLayout(cpu: Cpu, v: nat, o: nat)
    requires v == |cpu.vendor| && o == v + 8 + |cpu.extendedBrandString|
    ensures var c := CpuBytes(cpu);
      && |c| == o + 20
      && c[..v] == TextBytes(cpu.vendor) && c[v..v + 4] == LE32(cpu.version)
      && c[v + 4] == cpu.brandIndex && c[v + 5] == cpu.clflushLineSize
      && c[v + 6] == Low8(cpu.logicalProcessorsCount) && c[v + 7] == cpu.apicId
      && c[v + 8..o] == TextBytes(cpu.extendedBrandString)
      && c[o..o + 4] == LE32(cpu.instructionSet.basic) && c[o + 4..o + 8] == LE32(cpu.instructionSet.modern)
      && c[o + 8..o + 20] == ExtendedBytes(cpu.instructionSet.extendedModern)
  {
    hide TextBytes, LE32, ExtendedBytes, Low8;
    CpuChain(TextBytes(cpu.vendor), LE32(cpu.version), cpu.brandIndex, cpu.clflushLineSize,
      Low8(cpu.logicalProcessorsCount), cpu.apicId, TextBytes(cpu.extendedBrandString),
      LE32(cpu.instructionSet.basic), LE32(cpu.instructionSet.modern), ExtendedBytes(cpu.instructionSet.extendedModern));
    var c := CpuBytes(cpu);
    assert c[o + 8..o + 20] == c[o + 8..];
  }

  /** Where each field lands in the stream: the CPU part (laid out as
      `CpuLayout` says), then the 2.0-calling byte, the three version bytes,
      the UUID and the raw tables. The stream holds nothing else. */
  lemma MotherboardLayout(mb: Motherboard)
    ensures var b := MotherboardBytes(mb);
      var o := |CpuBytes(mb.cpu)|;
      && o == 28 + |mb.cpu.vendor| + |mb.cpu.extendedBrandString|
      && |b| == o + 20 + |mb.smbios.rawTablesData|
      && b[..o] == CpuBytes(mb.cpu)
      && b[o] == (if mb.smbios.is20CallingUsed then 1 else 0)
      && b[o + 1] == mb.smbios.majorVersion && b[o + 2] == mb.smbios.minorVersion && b[o + 3] == mb.smbios.dmiVersion
      && b[o + 4..o + 20] == mb.smbios.uuid && b[o + 20..] == mb.smbios.rawTablesData
  {
    var s := mb.smbios;
    var c := CpuBytes(mb.cpu);
    hide TextBytes, LE32, ExtendedBytes, Low8;
    SmbiosChain(c, if s.is20CallingUsed then 1 else 0, s.majorVersion, s.minorVersion, s.dmiVersion, s.uuid, s.rawTablesData);
  }

  /** The stream is the fixed 48 bytes plus the two strings and the raw tables. */
  lemma MotherboardBytesLength(mb: Motherboard)
    ensures |MotherboardBytes(mb)| == 48 + |mb.cpu.vendor| + |mb.cpu.extendedBrandString| + |mb.smbios.rawTablesData|
  {
    MotherboardLayout(mb);
  }

  /** The bytes ahead of the UUID: the CPU part, the 2.0-calling byte and the
      three version bytes. */
  function HeadBytes(cpu: Cpu, flag: bool, major: Byte, minor: Byte, dmi: Byte): (r: seq<Byte>)
    ensures |r| == |cpu.vendor| + |cpu.extendedBrandString| + 32
  {
    CpuBytes(cpu) + [if flag then 1 else 0] + [major] + [minor] + [dmi]
  }

  /** The stream is the head, then the UUID, then the raw tables. */
  lemma MotherboardSplit(mb: Motherboard)
    ensures MotherboardBytes(mb) == HeadBytes(mb.cpu, mb.smbios.is20CallingUsed, mb.smbios.majorVersion,
      mb.smbios.minorVersion, mb.smbios.dmiVersion) + (mb.smbios.uuid + mb.smbios.rawTablesData)
  {
    hide CpuBytes;
  }

  /** Two boards that differ only in their UUID give streams of the same
      length that differ exactly where the UUID lies: at offset
      `|vendor| + |brand| + 32`, 16 bytes. */
  lemma UuidChangesStream(mb: Motherboard, uuid: Uuid)
    requires uuid != mb.smbios.uuid
    ensures var other := Motherboard(mb.cpu, mb.smbios.(uuid := uuid));
      var at := |mb.cpu.vendor| + |mb.cpu.extendedBrandString| + 32;
      && |MotherboardBytes(other)| == |MotherboardBytes(mb)|
      && MotherboardBytes(other)[..at] == MotherboardBytes(mb)[..at]
      && MotherboardBytes(other)[at..at + 16] == uuid
      && MotherboardBytes(mb)[at..at + 16] == mb.smbios.uuid
      && MotherboardBytes(other)[at + 16..] == MotherboardBytes(mb)[at + 16..]
      && MotherboardBytes(other) != MotherboardBytes(mb)
  {
    var other := Motherboard(mb.cpu, mb.smbios.(uuid := uuid));
    var s := mb.smbios;
    var head := HeadBytes(mb.cpu, s.is20CallingUsed, s.majorVersion, s.minorVersion, s.dmiVersion);
    assert |uuid| == |s.uuid| == 16;
    hide *;
    MotherboardSplit(mb);
    MotherboardSplit(other);
    ThreeParts(head, s.uuid, s.rawTablesData);
    ThreeParts(head, uuid, s.rawTablesData);
  }

  /** The middle of three joined pieces, and what comes before and after it. */
  lemma ThreeParts(h: seq<Byte>, u: seq<Byte>, r: seq<Byte>)
    ensures var b := h + (u + r);
      b[..|h|] == h && b[|h|..|h| + |u|] == u && b[|h| + |u|..] == r
  {
    var b := h + (u + r);
    assert b[|h|..] == u + r;
    assert b[|h|..|h| + |u|] == (u + r)[..|u|];
  }
  /** The extended stream starts with the base board's stream; the drives
      only add bytes after it. */
  lemma ExStreamExtendsBase(mb: MotherboardEx)
    ensures var base := MotherboardBytes(Base(mb));
      && |MotherboardExBytes(mb)| == |base| + |DrivesBytes(mb.drives)|
      && MotherboardExBytes(mb)[..|base|] == base
      && (mb.drives == [] ==> MotherboardExBytes(mb) == base)
  {
    var base := MotherboardBytes(Base(mb));
    hide MotherboardBytes;
    assert (base + DrivesBytes(mb.drives))[..|base|] == base;
  }

  /** Each drive adds its four tag bytes and its two strings, nothing else. */
  lemma {:induction false} DrivesBytesLength(ds: seq<PhysicalDriveInfo>)
    ensures |DrivesBytes(ds)| == 4 * |ds| + Sum(ds)
  {
    if ds != [] {
      DrivesBytesLength(ds[..|ds| - 1]);
    }
  }

  /** The string bytes the drives contribute. */
  function Sum(ds: seq<PhysicalDriveInfo>): nat {
    if ds == [] then 0 else Sum(ds[..|ds| - 1]) + |ds[|ds| - 1].deviceName| + |ds[|ds| - 1].serial|
  }

  /** The drives go in as listed: two drives on different buses give another
      stream when swapped, so callers must sort them for a stable hash. */
  lemma DriveOrderMatters(a: PhysicalDriveInfo, b: PhysicalDriveInfo)
    requires a.busType != b.busType
    ensures DrivesBytes([a, b]) != DrivesBytes([b, a])
  {
    SingleDrive(a);
    SingleDrive(b);
    assert [a, b][..1] == [a] && [b, a][..1] == [b];
    assert DrivesBytes([a, b])[0] == DriveBytes(a)[0] == LE32(BusOrdinal(a.busType))[0];
    assert DrivesBytes([b, a])[0] == DriveBytes(b)[0] == LE32(BusOrdinal(b.busType))[0];
  }

  lemma SingleDrive(d: PhysicalDriveInfo)
    ensures DrivesBytes([d]) == DriveBytes(d)
  {
    assert [d][..0] == [];
  }

  /** `vendor_id` and `product_id` never reach the stream: drives that differ
      only there serialise alike. */
  lemma {:induction false} DriveIdsIgnored(ds: seq<PhysicalDriveInfo>, es: seq<PhysicalDriveInfo>)
    requires |ds| == |es|
    requires forall i :: 0 <= i < |ds| ==>
      ds[i].deviceName == es[i].deviceName && ds[i].serial == es[i].serial && ds[i].busType == es[i].busType
    ensures DrivesBytes(ds) == DrivesBytes(es)
  {
    if ds != [] {
      DriveIdsIgnored(ds[..|ds| - 1], es[..|es| - 1]);
    }
  }

  /** Where `default_hash` runs. On Win32 the stream goes to CryptoAPI, whose
      provider, hash-object and hash-data calls either all succeed or one of
      them fails; without Win32 nothing is hashed. */
  datatype Platform = Win32(cryptoSucceeds: bool) | NotWin32

  /** The value `default_hash(board)` returns on `p`. */
  function DefaultHashOf(p: Platform, mb: Motherboard): (h: HashBase.Hash256) {
    if p == Win32(true) then HashBase.Hash(Sha256Spec.Sha256(MotherboardBytes(mb)))
    else HashBase.ZeroHash(32)
  }

  /** The value `default_hash_ex(board)` returns on `p`. */
  function DefaultHashExOf(p: Platform, mb: MotherboardEx): (h: HashBase.Hash256) {
    if p == Win32(true) then HashBase.Hash(Sha256Spec.Sha256(MotherboardExBytes(mb)))
    else HashBase.ZeroHash(32)
  }

  /** `compute_sha256`: a value-initialised result, overwritten with the
      digest only when every CryptoAPI call succeeds. The digest CryptoAPI
      computes is SHA-256 as FIPS 180-4 defines it, produced here by the
      library's own hasher. */
  method ComputeSha256(cryptoSucceeds: bool, data: seq<Byte>) returns (result: HashBase.Hash256)
    ensures cryptoSucceeds ==> result.buffer == Sha256Spec.Sha256(data)
    ensures !cryptoSucceeds ==> result.buffer == Zeros(32)
  {
    result := HashBase.ZeroHash(32);
    if cryptoSucceeds {
      result := Sha256Hasher.Sha256.Hash(data);
    }
  }

  /** `default_hash(board)`: serialise, then hash on Win32; elsewhere the
      value-initialised `Hash256`. */
  method DefaultHash(p: Platform, board: Motherboard) returns (h: HashBase.Hash256)
    ensures h == DefaultHashOf(p, board)
  {
    if p.Win32? {
      var serialized := SerializeMotherboard(board);
      h := ComputeSha256(p.cryptoSucceeds, serialized);
    } else {
      h := HashBase.ZeroHash(32);
    }
  }

  /** `default_hash_ex(board)`: the same with the extended stream. */
  method DefaultHashEx(p: Platform, board: MotherboardEx) returns (h: HashBase.Hash256)
    ensures h == DefaultHashExOf(p, board)
  {
    if p.Win32? {
      var serialized := SerializeMotherboardEx(board);
      h := ComputeSha256(p.cryptoSucceeds, serialized);
    } else {
      h := HashBase.ZeroHash(32);
    }
  }

  /** Without Win32, or when CryptoAPI fails, every board hashes to 32 zero
      bytes; with a working CryptoAPI the hash is the SHA-256 of the stream. */
  lemma DefaultHashCases(p: Platform, mb: Motherboard, mbx: MotherboardEx)
    ensures p != Win32(true) ==> DefaultHashOf(p, mb).buffer == Zeros(32) && DefaultHashExOf(p, mbx).buffer == Zeros(32)
    ensures p == Win32(true) ==> DefaultHashOf(p, mb).buffer == Sha256Spec.Sha256(MotherboardBytes(mb))
    ensures p == Win32(true) ==> DefaultHashExOf(p, mbx).buffer == Sha256Spec.Sha256(MotherboardExBytes(mbx))
  {
  }

  /** With no drives, the extended hash is the base board's hash. */
  lemma NoDrivesSameHash(p: Platform, mb: MotherboardEx)
    requires mb.drives == []
    ensures DefaultHashExOf(p, mb) == DefaultHashOf(p, Base(mb))
  {
    ExStreamExtendsBase(mb);
  }
}
