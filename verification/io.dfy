/** The writers of Identy/Identy_io.cxx and Identy/Identy_io.hxx: a text
    report, a binary record and the raw hash bytes of a snapshot, each
    written to a caller's output stream. */
module Io {
  import opened Bytes
  import opened Snapshot
  import opened Streams
  import opened Format
  import HashBase
  import Fingerprint

  /** A `bool` occupies one byte in memory, holding 1 or 0. */
  function BoolByte(b: bool): (r: Byte)
    ensures b <==> r == 1
    ensures !b <==> r == 0
  {
    if b then 1 else 0
  }

  // ---------------------------------------------------------------------------
  // The binary record
  // ---------------------------------------------------------------------------

  /** A string as `write_binary` stores it: its size cast to a 32-bit word,
      then that many of its characters. */
  function Counted(t: seq<Char8>): (r: seq<Byte>)
    ensures |r| == 4 + Truncated(|t|)
  {
    LE32(U32(|t|)) + TextBytes(t)[..Truncated(|t|)]
  }

  /** The CPU part of the record, in the order `write_binary_common` writes it. */
  function CpuRecord(cpu: Cpu): (r: seq<Byte>)
    ensures |r| == 43 + Truncated(|cpu.vendor|) + Truncated(|cpu.extendedBrandString|)
                    + Truncated(|cpu.hypervisorSignature|)
  {
    var set_ := cpu.instructionSet;
    Counted(cpu.vendor) + LE32(cpu.version) + [BoolByte(cpu.hypervisorBit)]
      + [cpu.brandIndex] + [cpu.clflushLineSize] + LE32(cpu.logicalProcessorsCount)
      + Counted(cpu.extendedBrandString) + Counted(cpu.hypervisorSignature)
      + LE32(set_.basic) + LE32(set_.modern) + Fingerprint.ExtendedBytes(set_.extendedModern)
  }

  /** The SMBIOS part of the record: the flag, the three version bytes and
      the UUID; the raw tables are not part of it. */
  function SmbiosRecord(s: Smbios): (r: seq<Byte>)
    ensures |r| == 20 && r[4..] == s.uuid
  {
    [BoolByte(s.is20CallingUsed)] + [s.majorVersion] + [s.minorVersion] + [s.dmiVersion] + s.uuid
  }

  function BinaryRecord(cpu: Cpu, s: Smbios): seq<Byte> {
    CpuRecord(cpu) + SmbiosRecord(s)
  }

  /** One drive: the bus type as a 32-bit enumerator value, then the device
      name and the serial as counted strings. */
  function DriveRecord(d: PhysicalDriveInfo): (r: seq<Byte>)
    ensures |r| == 12 + Truncated(|d.deviceName|) + Truncated(|d.serial|)
  {
    LE32(BusOrdinal(d.busType)) + Counted(d.deviceName) + Counted(d.serial)
  }

  function DrivesRecord(ds: seq<PhysicalDriveInfo>): seq<Byte> {
    if ds == [] then [] else DrivesRecord(ds[..|ds| - 1]) + DriveRecord(ds[|ds| - 1])
  }

  /** The extended record: the base record, the drive count as a 32-bit
      word, then every drive in list order. */
  function BinaryRecordEx(mb: MotherboardEx): seq<Byte> {
    BinaryRecord(mb.cpu, mb.smbios) + LE32(U32(|mb.drives|)) + DrivesRecord(mb.drives)
  }

  /** Writes a counted string: the size word, then the characters. */
  method PutCounted(s: OutStream, t: seq<Char8>, ghost c0: seq<Byte>, ghost p0: nat, ghost sent: seq<Byte>, ghost part: seq<Byte>)
    returns (ghost now: seq<Byte>)
    requires Emitted(s, c0, p0, sent + part)
    modifies s
    ensures now == part + Counted(t) && Emitted(s, c0, p0, sent + now)
  {
    var size := Truncated(|t|);
    now := Put(s, LE32(U32(|t|)), c0, p0, sent, part);
    now := Put(s, TextBytes(t)[..size], c0, p0, sent, now);
    assert now == part + Counted(t);
  }

  /** The CPU writes of `write_binary_common`. */
  method PutCpuRecord(s: OutStream, cpu: Cpu, ghost c0: seq<Byte>, ghost p0: nat, ghost sent: seq<Byte>)
    requires Emitted(s, c0, p0, sent)
    modifies s
    ensures Emitted(s, c0, p0, sent + CpuRecord(cpu))
  {
    hide LE32, TextBytes, Counted, Fingerprint.ExtendedBytes, BoolByte, Emitted, Overwrite;
    assert sent + [] == sent;
    ghost var w := PutCounted(s, cpu.vendor, c0, p0, sent, []);
    assert w == Counted(cpu.vendor);
    w := Put(s, LE32(cpu.version), c0, p0, sent, w);
    w := Put(s, [BoolByte(cpu.hypervisorBit)], c0, p0, sent, w);
    w := Put(s, [cpu.brandIndex], c0, p0, sent, w);
    w := Put(s, [cpu.clflushLineSize], c0, p0, sent, w);
    w := Put(s, LE32(cpu.logicalProcessorsCount), c0, p0, sent, w);
    w := PutCounted(s, cpu.extendedBrandString, c0, p0, sent, w);
    w := PutCounted(s, cpu.hypervisorSignature, c0, p0, sent, w);
    w := Put(s, LE32(cpu.instructionSet.basic), c0, p0, sent, w);
    w := Put(s, LE32(cpu.instructionSet.modern), c0, p0, sent, w);
    w := Put(s, Fingerprint.ExtendedBytes(cpu.instructionSet.extendedModern), c0, p0, sent, w);
    assert w == CpuRecord(cpu);
  }

  /** The SMBIOS writes of `write_binary_common`. */
  method PutSmbiosRecord(s: OutStream, smbios: Smbios, ghost c0: seq<Byte>, ghost p0: nat, ghost sent: seq<Byte>)
    requires Emitted(s, c0, p0, sent)
    modifies s
    ensures Emitted(s, c0, p0, sent + SmbiosRecord(smbios))
  {
    hide BoolByte, Emitted, Overwrite;
    assert sent + [] == sent;
    ghost var w := Put(s, [BoolByte(smbios.is20CallingUsed)], c0, p0, sent, []);
    assert w == [BoolByte(smbios.is20CallingUsed)];
    w := Put(s, [smbios.majorVersion], c0, p0, sent, w);
    w := Put(s, [smbios.minorVersion], c0, p0, sent, w);
    w := Put(s, [smbios.dmiVersion], c0, p0, sent, w);
    w := Put(s, smbios.uuid, c0, p0, sent, w);
    assert w == SmbiosRecord(smbios);
  }

  /** `write_binary_common`: a stream that is not good is left alone; a good
      one receives the record at its put position. */
  method WriteBinaryCommon(stream: OutStream, cpu: Cpu, s: Smbios)
    requires stream.Valid()
    modifies stream
    ensures stream.Valid() && stream.good == old(stream.good)
    ensures old(stream.good) ==> stream.content == Overwrite(old(stream.content), old(stream.pos), BinaryRecord(cpu, s))
                                 && stream.pos == old(stream.pos) + |BinaryRecord(cpu, s)|
    ensures !old(stream.good) ==> stream.content == old(stream.content) && stream.pos == old(stream.pos)
  {
    if !stream.good {
      return;
    }
    ghost var c0, p0 := stream.content, stream.pos;
    OverwriteNothing(c0, p0);
    PutCpuRecord(stream, cpu, c0, p0, []);
    assert [] + CpuRecord(cpu) == CpuRecord(cpu) by {
      hide CpuRecord;
    }
    PutSmbiosRecord(stream, s, c0, p0, CpuRecord(cpu));
  }

  /** `write_binary` of a board. */
  method WriteBinary(stream: OutStream, mb: Motherboard)
    requires stream.Valid()
    modifies stream
    ensures stream.Valid() && stream.good == old(stream.good)
    ensures old(stream.good) ==> stream.content == Overwrite(old(stream.content), old(stream.pos), BinaryRecord(mb.cpu, mb.smbios))
                                 && stream.pos == old(stream.pos) + |BinaryRecord(mb.cpu, mb.smbios)|
    ensures !old(stream.good) ==> stream.content == old(stream.content) && stream.pos == old(stream.pos)
  {
    WriteBinaryCommon(stream, mb.cpu, mb.smbios);
  }

  /** The writes for one drive in `write_binary`. */
  method PutDriveRecord(s: OutStream, d: PhysicalDriveInfo, ghost c0: seq<Byte>, ghost p0: nat, ghost sent: seq<Byte>)
    requires Emitted(s, c0, p0, sent)
    modifies s
    ensures Emitted(s, c0, p0, sent + DriveRecord(d))
  {
    hide LE32, Counted, Emitted, Overwrite;
    assert sent + [] == sent;
    ghost var w := Put(s, LE32(BusOrdinal(d.busType)), c0, p0, sent, []);
    assert w == LE32(BusOrdinal(d.busType));
    w := PutCounted(s, d.deviceName, c0, p0, sent, w);
    w := PutCounted(s, d.serial, c0, p0, sent, w);
    assert w == DriveRecord(d);
  }

  /** The drive records of `write_binary` of an extended board, in list order. */
  method PutDrivesRecord(stream: OutStream, drives: seq<PhysicalDriveInfo>, ghost c0: seq<Byte>, ghost p0: nat, ghost sent: seq<Byte>)
    requires Emitted(stream, c0, p0, sent)
    modifies stream
    ensures Emitted(stream, c0, p0, sent + DrivesRecord(drives))
  {
    hide Emitted, Overwrite, DriveRecord;
    ghost var now := sent;
    assert now == sent + DrivesRecord(drives[..0]);
    for i := 0 to |drives|
      invariant now == sent + DrivesRecord(drives[..i]) && Emitted(stream, c0, p0, now)
    {
      PutDriveRecord(stream, drives[i], c0, p0, now);
      assert sent + DrivesRecord(drives[..i + 1]) == now + DriveRecord(drives[i]) by {
        assert drives[..i + 1][..i] == drives[..i];
      }
      now := now + DriveRecord(drives[i]);
    }
    assert drives[..|drives|] == drives;
  }

  /** `write_binary` of an extended board: nothing on a stream that is not
      good; the base record, the drive count, then one record per drive
      otherwise. */
  method WriteBinaryEx(stream: OutStream, mb: MotherboardEx)
    requires stream.Valid()
    modifies stream
    ensures stream.Valid() && stream.good == old(stream.good)
    ensures old(stream.good) ==> stream.content == Overwrite(old(stream.content), old(stream.pos), BinaryRecordEx(mb))
                                 && stream.pos == old(stream.pos) + |BinaryRecordEx(mb)|
    ensures !old(stream.good) ==> stream.content == old(stream.content) && stream.pos == old(stream.pos)
  {
    if !stream.good {
      return;
    }
    ghost var c0, p0 := stream.content, stream.pos;
    WriteBinaryCommon(stream, mb.cpu, mb.smbios);
    ghost var head := BinaryRecord(mb.cpu, mb.smbios);
    assert Emitted(stream, c0, p0, head + []);
    hide BinaryRecord, DrivesRecord;
    var count := U32(|mb.drives|);
    ghost var w := Put(stream, LE32(count), c0, p0, head, []);
    assert head + w == head + LE32(count);
    PutDrivesRecord(stream, mb.drives, c0, p0, head + LE32(count));
  }

  /** The record's size: 63 fixed bytes plus the stored characters of the
      three strings. */
  lemma BinaryRecordLength(cpu: Cpu, s: Smbios)
    ensures |BinaryRecord(cpu, s)| == 63 + Truncated(|cpu.vendor|) + Truncated(|cpu.extendedBrandString|)
                                           + Truncated(|cpu.hypervisorSignature|)
  {
  }

  /** The record ends with the 16 UUID bytes. */
  lemma BinaryRecordEndsWithUuid(cpu: Cpu, s: Smbios)
    ensures var r := BinaryRecord(cpu, s); |r| >= 16 && r[|r| - 16..] == s.uuid
  {
    var c, m := CpuRecord(cpu), SmbiosRecord(s);
    var r := c + m;
    assert r[|r| - 16..] == m[4..];
  }

  /** The record opens with the vendor as a counted string, which reads
      back unchanged when its size fits in 32 bits. */
  lemma BinaryRecordOpensWithVendor(cpu: Cpu, s: Smbios)
    requires |cpu.vendor| < 0x1_0000_0000
    ensures var r := BinaryRecord(cpu, s);
      ReadCounted(r) == Some((cpu.vendor, r[4 + |cpu.vendor|..]))
  {
    var r := BinaryRecord(cpu, s);
    var v := Counted(cpu.vendor);
    var tail, m := CpuRecordTail(cpu), SmbiosRecord(s);
    CpuRecordOpens(cpu);
    assert r == CpuRecord(cpu) + m;
    hide *;
    assert r == v + tail + m;
    AppendThree(v, tail, m);
    ReadCountedRoundTrip(cpu.vendor, tail + m);
  }

  /** What follows the vendor in the CPU part of the record. */
  function CpuRecordTail(cpu: Cpu): seq<Byte> {
    var set_ := cpu.instructionSet;
    LE32(cpu.version) + [BoolByte(cpu.hypervisorBit)]
      + [cpu.brandIndex] + [cpu.clflushLineSize] + LE32(cpu.logicalProcessorsCount)
      + Counted(cpu.extendedBrandString) + Counted(cpu.hypervisorSignature)
      + LE32(set_.basic) + LE32(set_.modern) + Fingerprint.ExtendedBytes(set_.extendedModern)
  }

  /** The CPU part is the vendor's counted string, then the rest. */
  lemma CpuRecordOpens(cpu: Cpu)
    ensures CpuRecord(cpu) == Counted(cpu.vendor) + CpuRecordTail(cpu)
  {
    var set_ := cpu.instructionSet;
    assert CpuRecord(cpu) == Counted(cpu.vendor) + LE32(cpu.version) + [BoolByte(cpu.hypervisorBit)]
      + [cpu.brandIndex] + [cpu.clflushLineSize] + LE32(cpu.logicalProcessorsCount)
      + Counted(cpu.extendedBrandString) + Counted(cpu.hypervisorSignature)
      + LE32(set_.basic) + LE32(set_.modern) + Fingerprint.ExtendedBytes(set_.extendedModern) by {
      hide LE32, Counted, Fingerprint.ExtendedBytes, BoolByte;
    }
    hide *;
    PeelFirst(Counted(cpu.vendor), LE32(cpu.version), [BoolByte(cpu.hypervisorBit)],
      [cpu.brandIndex], [cpu.clflushLineSize], LE32(cpu.logicalProcessorsCount),
      Counted(cpu.extendedBrandString), Counted(cpu.hypervisorSignature),
      LE32(set_.basic), LE32(set_.modern), Fingerprint.ExtendedBytes(set_.extendedModern));
    CpuRecordTailParts(cpu);
  }

  lemma CpuRecordTailParts(cpu: Cpu)
    ensures var set_ := cpu.instructionSet;
      CpuRecordTail(cpu) == LE32(cpu.version) + [BoolByte(cpu.hypervisorBit)]
      + [cpu.brandIndex] + [cpu.clflushLineSize] + LE32(cpu.logicalProcessorsCount)
      + Counted(cpu.extendedBrandString) + Counted(cpu.hypervisorSignature)
      + LE32(set_.basic) + LE32(set_.modern) + Fingerprint.ExtendedBytes(set_.extendedModern)
  {
    hide LE32, Counted, Fingerprint.ExtendedBytes, BoolByte;
  }

  /** A chain of eleven appends is its first piece followed by the other ten. */
  lemma PeelFirst(a: seq<Byte>, x1: seq<Byte>, x2: seq<Byte>, x3: seq<Byte>, x4: seq<Byte>, x5: seq<Byte>,
                  x6: seq<Byte>, x7: seq<Byte>, x8: seq<Byte>, x9: seq<Byte>, x10: seq<Byte>)
    ensures a + x1 + x2 + x3 + x4 + x5 + x6 + x7 + x8 + x9 + x10
      == a + (x1 + x2 + x3 + x4 + x5 + x6 + x7 + x8 + x9 + x10)
  {
    AppendThree(a, x1, x2);
    AppendThree(a, x1 + x2, x3);
    AppendThree(a, x1 + x2 + x3, x4);
    AppendThree(a, x1 + x2 + x3 + x4, x5);
    AppendThree(a, x1 + x2 + x3 + x4 + x5, x6);
    AppendThree(a, x1 + x2 + x3 + x4 + x5 + x6, x7);
    AppendThree(a, x1 + x2 + x3 + x4 + x5 + x6 + x7, x8);
    AppendThree(a, x1 + x2 + x3 + x4 + x5 + x6 + x7 + x8, x9);
    AppendThree(a, x1 + x2 + x3 + x4 + x5 + x6 + x7 + x8 + x9, x10);
  }

  /** Three joined pieces: the first, and what follows it. */
  lemma AppendThree(a: seq<Byte>, b: seq<Byte>, c: seq<Byte>)
    ensures a + b + c == a + (b + c) && (a + b + c)[|a|..] == b + c
  {
  }

  /** The extended record begins with the base record, followed by the
      drive count. */
  lemma BinaryRecordExExtendsBase(mb: MotherboardEx)
    ensures var b, x := BinaryRecord(mb.cpu, mb.smbios), BinaryRecordEx(mb);
      && |x| >= |b| + 4 && x[..|b|] == b && x[|b|..|b| + 4] == LE32(U32(|mb.drives|))
  {
    var b, x := BinaryRecord(mb.cpu, mb.smbios), BinaryRecordEx(mb);
    var n := LE32(U32(|mb.drives|));
    assert x == b + n + DrivesRecord(mb.drives);
    assert x[..|b| + 4] == b + n;
  }

  /** The drives take the sum of their record sizes. */
  lemma {:induction false} DrivesRecordLength(ds: seq<PhysicalDriveInfo>)
    ensures |DrivesRecord(ds)| == DriveRecordSizes(ds)
  {
    if ds != [] {
      DrivesRecordLength(ds[..|ds| - 1]);
    }
  }

  function DriveRecordSizes(ds: seq<PhysicalDriveInfo>): nat {
    if ds == [] then 0 else DriveRecordSizes(ds[..|ds| - 1]) + 12 + Truncated(|ds[|ds| - 1].deviceName|) + Truncated(|ds[|ds| - 1].serial|)
  }

  /** What a drive record stores. */
  datatype DriveFields = DriveFields(busType: BusType, deviceName: seq<Char8>, serial: seq<Char8>)

  /** Reads a counted string at the start of `b`: the text and what follows it. */
  function ReadCounted(b: seq<Byte>): Option<(seq<Char8>, seq<Byte>)> {
    if |b| < 4 then None
    else
      var n := LE32Value(b[..4]) as int;
      if |b| < 4 + n then None else Some((BytesText(b[4..4 + n]), b[4 + n..]))
  }

  /** Reads one drive record back. */
  function ReadDriveRecord(b: seq<Byte>): Option<DriveFields> {
    if |b| < 4 then None
    else match BusOfOrdinal(LE32Value(b[..4]))
      case None => None
      case Some(bus) =>
        match ReadCounted(b[4..])
        case None => None
        case Some(name_rest) =>
          match ReadCounted(name_rest.1)
          case None => None
          case Some(serial_rest) =>
            if serial_rest.1 == [] then Some(DriveFields(bus, name_rest.0, serial_rest.0)) else None
  }

  lemma ReadCountedRoundTrip(t: seq<Char8>, rest: seq<Byte>)
    requires |t| < 0x1_0000_0000
    ensures ReadCounted(Counted(t) + rest) == Some((t, rest))
  {
    var n := |t|;
    var b := Counted(t) + rest;
    assert Counted(t) == LE32(U32(n)) + TextBytes(t) by {
      assert TextBytes(t)[..Truncated(n)] == TextBytes(t);
    }
    LE32RoundTrip(U32(n));
    U32Fits(n);
    hide LE32, U32, Counted;
    assert b[..4] == LE32(U32(n));
    assert b[4..4 + n] == TextBytes(t);
    assert b[4 + n..] == rest;
    TextBytesRoundTrip(t);
  }

  /** A drive record reads back as the bus type, name and serial stored,
      provided both strings' sizes fit in 32 bits. */
  lemma DriveRecordRoundTrip(d: PhysicalDriveInfo)
    requires |d.deviceName| < 0x1_0000_0000 && |d.serial| < 0x1_0000_0000
    ensures ReadDriveRecord(DriveRecord(d)) == Some(DriveFields(d.busType, d.deviceName, d.serial))
  {
    var tag, name, serial := LE32(BusOrdinal(d.busType)), Counted(d.deviceName), Counted(d.serial);
    assert DriveRecord(d) == tag + (name + serial) by {
      hide LE32, Counted;
    }
    hide *;
    LE32RoundTrip(BusOrdinal(d.busType));
    BusOrdinalRoundTrip(d.busType);
    ReadCountedRoundTrip(d.deviceName, serial);
    assert serial + [] == serial;
    ReadCountedRoundTrip(d.serial, []);
    ReadDriveRecordParts(tag, name + serial, d.busType, d.deviceName, serial, d.serial);
  }

  /** A drive record read from its tag and the two counted strings after it. */
  lemma ReadDriveRecordParts(tag: seq<Byte>, rest: seq<Byte>, bus: BusType, name: seq<Char8>, mid: seq<Byte>, serial: seq<Char8>)
    requires |tag| == 4 && BusOfOrdinal(LE32Value(tag)) == Some(bus)
    requires ReadCounted(rest) == Some((name, mid)) && ReadCounted(mid) == Some((serial, []))
    ensures ReadDriveRecord(tag + rest) == Some(DriveFields(bus, name, serial))
  {
    assert (tag + rest)[..4] == tag && (tag + rest)[4..] == rest;
  }

  // ---------------------------------------------------------------------------
  // The text report
  // ---------------------------------------------------------------------------

  /** The CPU lines, one piece per `<<` in `write_text_common`. */
  function CpuText(cpu: Cpu): string {
    "CPU:\n" + cpu.extendedBrandString
      + " Vendor: " + cpu.vendor + "\n"
      + " Cores: " + Decimal(cpu.logicalProcessorsCount as int) + "\n"
      + " Hypervisor present: " + BoolText(cpu.hypervisorBit) + "\n"
      + " Hypervisor signature (if presented) " + cpu.hypervisorSignature + "\n"
  }

  /** The UUID line, formatted in one piece. */
  function UuidLine(u: Uuid): string {
    " SMBIOS UUID: " + UuidText(u) + "\n"
  }

  /** The SMBIOS lines; each `std::format` call is one piece. */
  function SmbiosText(s: Smbios): string {
    "Motherboard:\n" + UuidLine(s.uuid)
      + " SMBIOS Ver: " + (Decimal(s.majorVersion as int) + "." + Decimal(s.minorVersion as int) + "\n")
      + " SMBIOS DMI Ver: " + (Decimal(s.dmiVersion as int) + "\n")
      + " SMBIOS 2.0 calling convention: " + (BoolText(s.is20CallingUsed) + "\n")
  }

  function TextReport(cpu: Cpu, s: Smbios): string {
    CpuText(cpu) + SmbiosText(s)
  }

  const DrivesHeader: string := "Physical Drives:\n"
  const NoDrivesLine: string := " No drives detected or insufficient permissions\n"

  /** The bus line's label: three bus types are named, every other one is
      `Unknown`. */
  function BusLabel(b: BusType): (r: string)
    ensures r == "Unknown\n" <==> !(b == SATA || b == NMVe || b == USB)
  {
    match b
    case SATA => "SATA\n"
    case NMVe => "NVMe\n"
    case USB => "USB\n"
    case _ => "Unknown\n"
  }

  /** The number printed in the heading of the drive at index `i`, as the
      code computes it. */
  function DriveNumberAsWritten(i: nat): nat {
    i + i
  }

  /** The as-written numbering starts at 0 and prints only even numbers, so
      no drive is ever headed 1 and a list of two drives reads 0, 2. */
  lemma DriveNumberAsWrittenSkips()
    ensures DriveNumberAsWritten(0) == 0 && DriveNumberAsWritten(1) == 2
    ensures forall i :: DriveNumberAsWritten(i) % 2 == 0 && DriveNumberAsWritten(i) != 1
  {
  }

  /** The numbering the heading evidently means: drives counted from 1. */
  function DriveNumber(i: nat): nat {
    i + 1
  }

  /** The numbers headed in a list of `k` drives. */
  function Headings(k: nat): set<nat> {
    set i | 0 <= i < k :: DriveNumber(i)
  }

  /** With `DriveNumber`, the headings of a list of `k` drives are exactly
      the numbers 1 to `k`, in increasing order. */
  lemma DriveNumbersCount(k: nat)
    ensures forall n :: n in Headings(k) <==> 1 <= n <= k
    ensures forall i, j :: 0 <= i < j ==> DriveNumber(i) < DriveNumber(j)
  {
    forall n | 1 <= n <= k
      ensures n in Headings(k)
    {
      assert DriveNumber(n - 1) == n;
    }
  }

  /** The lines of the drive at index `i`. */
  function DriveText(i: nat, d: PhysicalDriveInfo): string {
    (" Drive " + Decimal(DriveNumber(i)) + "\n")
      + "  Device: " + d.deviceName + "\n"
      + "  Serial: " + d.serial + "\n"
      + "  Bus Type: " + BusLabel(d.busType)
  }

  function DrivesText(ds: seq<PhysicalDriveInfo>): string {
    if ds == [] then [] else DrivesText(ds[..|ds| - 1]) + DriveText(|ds| - 1, ds[|ds| - 1])
  }

  /** The drives section: its header, then either the no-drives line or
      every drive in list order. */
  function DrivesSection(ds: seq<PhysicalDriveInfo>): string {
    DrivesHeader + (if ds == [] then NoDrivesLine else DrivesText(ds))
  }

  function TextReportEx(mb: MotherboardEx): string {
    TextReport(mb.cpu, mb.smbios) + DrivesSection(mb.drives)
  }

  /** The CPU lines of `write_text_common`. */
  method PutCpuText(stream: OutStream, cpu: Cpu, ghost c0: seq<Byte>, ghost p0: nat, ghost sent: string)
    requires Emitted(stream, c0, p0, TextBytes(sent))
    modifies stream
    ensures Emitted(stream, c0, p0, TextBytes(sent + CpuText(cpu)))
  {
    hide Decimal, BoolText, TextBytes, Emitted, Overwrite;
    assert sent + [] == sent;
    ghost var t := PutText(stream, "CPU:\n", c0, p0, sent, []);
    assert t == "CPU:\n";
    t := PutText(stream, cpu.extendedBrandString, c0, p0, sent, t);
    t := PutText(stream, " Vendor: ", c0, p0, sent, t);
    t := PutText(stream, cpu.vendor, c0, p0, sent, t);
    t := PutText(stream, "\n", c0, p0, sent, t);
    t := PutText(stream, " Cores: ", c0, p0, sent, t);
    t := PutText(stream, Decimal(cpu.logicalProcessorsCount as int), c0, p0, sent, t);
    t := PutText(stream, "\n", c0, p0, sent, t);
    t := PutText(stream, " Hypervisor present: ", c0, p0, sent, t);
    t := PutText(stream, BoolText(cpu.hypervisorBit), c0, p0, sent, t);
    t := PutText(stream, "\n", c0, p0, sent, t);
    t := PutText(stream, " Hypervisor signature (if presented) ", c0, p0, sent, t);
    t := PutText(stream, cpu.hypervisorSignature, c0, p0, sent, t);
    t := PutText(stream, "\n", c0, p0, sent, t);
    assert t == CpuText(cpu);
  }

  /** The SMBIOS lines of `write_text_common`. */
  method PutSmbiosText(stream: OutStream, s: Smbios, ghost c0: seq<Byte>, ghost p0: nat, ghost sent: string)
    requires Emitted(stream, c0, p0, TextBytes(sent))
    modifies stream
    ensures Emitted(stream, c0, p0, TextBytes(sent + SmbiosText(s)))
  {
    hide Decimal, BoolText, UuidLine, TextBytes, Emitted, Overwrite;
    assert sent + [] == sent;
    ghost var t := PutText(stream, "Motherboard:\n", c0, p0, sent, []);
    assert t == "Motherboard:\n";
    t := PutText(stream, UuidLine(s.uuid), c0, p0, sent, t);
    t := PutText(stream, " SMBIOS Ver: ", c0, p0, sent, t);
    t := PutText(stream, Decimal(s.majorVersion as int) + "." + Decimal(s.minorVersion as int) + "\n", c0, p0, sent, t);
    t := PutText(stream, " SMBIOS DMI Ver: ", c0, p0, sent, t);
    t := PutText(stream, Decimal(s.dmiVersion as int) + "\n", c0, p0, sent, t);
    t := PutText(stream, " SMBIOS 2.0 calling convention: ", c0, p0, sent, t);
    t := PutText(stream, BoolText(s.is20CallingUsed) + "\n", c0, p0, sent, t);
    assert t == SmbiosText(s);
  }

  /** `write_text_common` on a good stream that has so far received `sent`. */
  method PutTextReport(stream: OutStream, cpu: Cpu, s: Smbios, ghost c0: seq<Byte>, ghost p0: nat, ghost sent: string)
    requires Emitted(stream, c0, p0, TextBytes(sent))
    modifies stream
    ensures Emitted(stream, c0, p0, TextBytes(sent + TextReport(cpu, s)))
  {
    hide CpuText, SmbiosText, TextBytes, Emitted, Overwrite;
    PutCpuText(stream, cpu, c0, p0, sent);
    PutSmbiosText(stream, s, c0, p0, sent + CpuText(cpu));
    assert sent + CpuText(cpu) + SmbiosText(s) == sent + TextReport(cpu, s);
  }

  /** `write_text` of a board: nothing on a stream that is not good, the
      report at the put position otherwise. */
  method WriteText(stream: OutStream, mb: Motherboard)
    requires stream.Valid()
    modifies stream
    ensures stream.Valid() && stream.good == old(stream.good)
    ensures old(stream.good) ==> stream.content == Overwrite(old(stream.content), old(stream.pos), TextBytes(TextReport(mb.cpu, mb.smbios)))
                                 && stream.pos == old(stream.pos) + |TextReport(mb.cpu, mb.smbios)|
    ensures !old(stream.good) ==> stream.content == old(stream.content) && stream.pos == old(stream.pos)
  {
    if !stream.good {
      return;
    }
    ghost var c0, p0 := stream.content, stream.pos;
    OverwriteNothing(c0, p0);
    PutTextReport(stream, mb.cpu, mb.smbios, c0, p0, []);
    assert [] + TextReport(mb.cpu, mb.smbios) == TextReport(mb.cpu, mb.smbios);
  }

  /** The lines of one drive, written at index `i`. */
  method PutDrive(stream: OutStream, i: nat, d: PhysicalDriveInfo, ghost c0: seq<Byte>, ghost p0: nat, ghost sent: string)
    requires Emitted(stream, c0, p0, TextBytes(sent))
    modifies stream
    ensures Emitted(stream, c0, p0, TextBytes(sent + DriveText(i, d)))
  {
    hide Decimal, TextBytes, Emitted, Overwrite;
    assert sent + [] == sent;
    ghost var t := PutText(stream, " Drive " + Decimal(DriveNumber(i)) + "\n", c0, p0, sent, []);
    assert t == " Drive " + Decimal(DriveNumber(i)) + "\n";
    t := PutText(stream, "  Device: ", c0, p0, sent, t);
    t := PutText(stream, d.deviceName, c0, p0, sent, t);
    t := PutText(stream, "\n", c0, p0, sent, t);
    t := PutText(stream, "  Serial: ", c0, p0, sent, t);
    t := PutText(stream, d.serial, c0, p0, sent, t);
    t := PutText(stream, "\n", c0, p0, sent, t);
    t := PutText(stream, "  Bus Type: ", c0, p0, sent, t);
    match d.busType {
      case SATA => t := PutText(stream, "SATA\n", c0, p0, sent, t);
      case NMVe => t := PutText(stream, "NVMe\n", c0, p0, sent, t);
      case USB => t := PutText(stream, "USB\n", c0, p0, sent, t);
      case _ => t := PutText(stream, "Unknown\n", c0, p0, sent, t);
    }
    assert t == DriveText(i, d);
  }

  /** The drives section of `write_text` of an extended board. */
  method PutDrivesSection(stream: OutStream, drives: seq<PhysicalDriveInfo>, ghost c0: seq<Byte>, ghost p0: nat, ghost sent: string)
    requires Emitted(stream, c0, p0, TextBytes(sent))
    modifies stream
    ensures Emitted(stream, c0, p0, TextBytes(sent + DrivesSection(drives)))
  {
    hide TextBytes, Emitted, Overwrite, DriveText;
    assert sent + [] == sent;
    ghost var t := PutText(stream, DrivesHeader, c0, p0, sent, []);
    assert t == DrivesHeader;
    if drives == [] {
      t := PutText(stream, NoDrivesLine, c0, p0, sent, t);
      assert t == DrivesSection(drives);
      return;
    }
    ghost var head := sent + DrivesHeader;
    ghost var now := head;
    var i := 0;
    while i < |drives|
      invariant 0 <= i <= |drives|
      invariant now == head + DrivesText(drives[..i])
      invariant Emitted(stream, c0, p0, TextBytes(now))
    {
      PutDrive(stream, i, drives[i], c0, p0, now);
      assert head + DrivesText(drives[..i + 1]) == now + DriveText(i, drives[i]) by {
        assert drives[..i + 1][..i] == drives[..i];
      }
      now := now + DriveText(i, drives[i]);
      i := i + 1;
    }
    assert drives[..i] == drives;
    assert now == sent + DrivesSection(drives);
  }

  /** `write_text` of an extended board: nothing on a stream that is not
      good; the report and then the drives section otherwise. */
  method WriteTextEx(stream: OutStream, mb: MotherboardEx)
    requires stream.Valid()
    modifies stream
    ensures stream.Valid() && stream.good == old(stream.good)
    ensures old(stream.good) ==> stream.content == Overwrite(old(stream.content), old(stream.pos), TextBytes(TextReportEx(mb)))
                                 && stream.pos == old(stream.pos) + |TextReportEx(mb)|
    ensures !old(stream.good) ==> stream.content == old(stream.content) && stream.pos == old(stream.pos)
  {
    if !stream.good {
      return;
    }
    ghost var c0, p0 := stream.content, stream.pos;
    OverwriteNothing(c0, p0);
    PutTextReport(stream, mb.cpu, mb.smbios, c0, p0, []);
    assert [] + TextReport(mb.cpu, mb.smbios) == TextReport(mb.cpu, mb.smbios) by {
      hide TextReport;
    }
    PutDrivesSection(stream, mb.drives, c0, p0, TextReport(mb.cpu, mb.smbios));
  }

  /** The UUID line sits right after the CPU lines, `Motherboard:` and the
      UUID label, and its 36 characters read back as the UUID. */
  lemma TextReportShowsUuid(cpu: Cpu, s: Smbios)
    ensures var t, k := TextReport(cpu, s), |CpuText(cpu)| + 27;
      && k + 36 <= |t| && t[k..k + 36] == UuidText(s.uuid)
      && ParseUuidText(t[k..k + 36]) == s.uuid
  {
    hide *;
    var c, m := CpuText(cpu), SmbiosText(s);
    TextReportParts(cpu, s);
    UuidSize(s.uuid);
    SmbiosTextShowsUuid(s);
    SliceOfSecondAt(c, m, 27, 63);
    UuidTextRoundTrip(s.uuid);
  }

  /** The SMBIOS lines carry the UUID's 36 characters after their first 27. */
  lemma SmbiosTextShowsUuid(s: Smbios)
    ensures |SmbiosText(s)| >= 63 && SmbiosText(s)[27..63] == UuidText(s.uuid)
  {
    hide *;
    UuidSize(s.uuid);
    SmbiosTextParts(s);
    UuidLineParts(s.uuid);
    MiddleOfChain("Motherboard:\n", " SMBIOS UUID: ", UuidText(s.uuid), "\n", " SMBIOS Ver: ",
      Decimal(s.majorVersion as int) + "." + Decimal(s.minorVersion as int) + "\n",
      " SMBIOS DMI Ver: ", Decimal(s.dmiVersion as int) + "\n",
      " SMBIOS 2.0 calling convention: ", BoolText(s.is20CallingUsed) + "\n");
  }

  /** In a chain shaped like the SMBIOS lines, the piece `u` sits right after
      `h` and `tag`. */
  lemma MiddleOfChain(h: string, tag: string, u: string, nl: string,
                      x1: string, x2: string, x3: string, x4: string, x5: string, x6: string)
    ensures var b := h + (tag + u + nl) + x1 + x2 + x3 + x4 + x5 + x6;
      var lo := |h| + |tag|;
      lo + |u| <= |b| && b[lo..lo + |u|] == u
  {
    var lo, hi := |h| + |tag|, |h| + |tag| + |u|;
    var a1 := h + (tag + u + nl);
    SliceOfFirst(a1 + x1 + x2 + x3 + x4 + x5, x6, lo, hi);
    SliceOfFirst(a1 + x1 + x2 + x3 + x4, x5, lo, hi);
    SliceOfFirst(a1 + x1 + x2 + x3, x4, lo, hi);
    SliceOfFirst(a1 + x1 + x2, x3, lo, hi);
    SliceOfFirst(a1 + x1, x2, lo, hi);
    SliceOfFirst(a1, x1, lo, hi);
    SliceOfSecondAt(h, tag + u + nl, |tag|, |tag| + |u|);
    SliceOfFirst(tag + u, nl, |tag|, |tag| + |u|);
    SliceOfSecondAt(tag, u, 0, |u|);
    assert u[0..|u|] == u;
  }

  lemma TextReportParts(cpu: Cpu, s: Smbios)
    ensures TextReport(cpu, s) == CpuText(cpu) + SmbiosText(s)
  {
    hide CpuText, SmbiosText;
  }

  lemma UuidSize(u: Uuid)
    ensures |u| == 16
  {
  }

  lemma SmbiosTextParts(s: Smbios)
    ensures SmbiosText(s) == "Motherboard:\n" + (" SMBIOS UUID: " + UuidText(s.uuid) + "\n") + " SMBIOS Ver: "
      + (Decimal(s.majorVersion as int) + "." + Decimal(s.minorVersion as int) + "\n")
      + " SMBIOS DMI Ver: " + (Decimal(s.dmiVersion as int) + "\n")
      + " SMBIOS 2.0 calling convention: " + (BoolText(s.is20CallingUsed) + "\n")
  {
    hide UuidText, Decimal, BoolText;
  }

  lemma UuidLineParts(u: Uuid)
    ensures |"Motherboard:\n"| == 13 && |" SMBIOS UUID: "| == 14 && |UuidText(u)| == 36
  {
    hide UuidText;
  }

  /** A slice inside the second part of a concatenation. */
  lemma SliceOfSecondAt(x: string, y: string, lo: nat, hi: nat)
    requires lo <= hi <= |y|
    ensures (x + y)[|x| + lo..|x| + hi] == y[lo..hi]
  {
    forall n | 0 <= n < hi - lo ensures (x + y)[|x| + lo..|x| + hi][n] == y[lo..hi][n] {
    }
  }

  /** A slice inside the first part of a concatenation. */
  lemma SliceOfFirst(x: string, y: string, lo: nat, hi: nat)
    requires lo <= hi <= |x|
    ensures (x + y)[lo..hi] == x[lo..hi]
  {
    forall n | 0 <= n < hi - lo ensures (x + y)[lo..hi][n] == x[lo..hi][n] {
    }
  }

  /** The lines of the drive at index `i` appear, headed by its number,
      right after the lines of the drives before it. */
  lemma {:induction false} DriveLinesInOrder(ds: seq<PhysicalDriveInfo>, i: nat)
    requires i < |ds|
    ensures var off, d := |DrivesText(ds[..i])|, DriveText(i, ds[i]);
      && off + |d| <= |DrivesText(ds)| && DrivesText(ds)[off..off + |d|] == d
  {
    hide DriveText;
    var init := ds[..|ds| - 1];
    var off, d := |DrivesText(ds[..i])|, DriveText(i, ds[i]);
    var last := DriveText(|ds| - 1, ds[|ds| - 1]);
    assert DrivesText(ds) == DrivesText(init) + last;
    if i == |ds| - 1 {
      assert ds[..i] == init;
      hide DrivesText;
      SliceOfSecond(DrivesText(init), last);
    } else {
      assert init[..i] == ds[..i] && init[i] == ds[i];
      DriveLinesInOrder(init, i);
      hide DrivesText;
      SliceOfFirst(DrivesText(init), last, off, off + |d|);
    }
  }

  lemma SliceOfSecond(x: string, y: string)
    ensures (x + y)[|x|..|x| + |y|] == y
  {
  }

  /** With no drives, the extended report is the report, the header and the
      no-drives line, and without them it reads like the plain report. */
  lemma TextReportExNoDrives(mb: MotherboardEx)
    requires mb.drives == []
    ensures TextReportEx(mb) == TextReport(mb.cpu, mb.smbios) + DrivesHeader + NoDrivesLine
  {
  }

  // ---------------------------------------------------------------------------
  // The hash writer
  // ---------------------------------------------------------------------------

  /** The value of the enumerator `std::ios::end`, which the one-argument
      `seekp` call converts to an absolute position. */
  const IosEnd: int := 2

  /** Stream positions and sizes are signed 64-bit offsets (`std::streamoff`). */
  const StreamOffLimit: int := 0x8000_0000_0000_0000

  /** The part of a stream a write can change. */
  datatype StreamState = StreamState(content: seq<Byte>, pos: nat, good: bool)

  function StateOf(s: OutStream): StreamState
    reads s
  {
    StreamState(s.content, s.pos, s.good)
  }

  predicate ValidState(st: StreamState) {
    st.pos <= |st.content|
  }

  /** What `write_hash` leaves, as written: a stream with fewer than two
      characters fails the seek and then takes nothing; on a longer one a
      put position at most 2 gives a "space" below the hash size and the
      writer returns; beyond position 2 the difference is negative, the
      unsigned comparison lets it through and the hash is written. */
  function HashWriteAsWritten(st: StreamState, buffer: seq<Byte>): (r: StreamState)
    requires ValidState(st)
    ensures ValidState(r) && (r.good ==> st.good)
    ensures r.content == st.content || r.content == Overwrite(st.content, st.pos, buffer)
  {
    if !st.good then st
    else if |st.content| < IosEnd then StreamState(st.content, st.pos, false)
    else if 0 <= IosEnd - st.pos < |buffer| then st
    else StreamState(Overwrite(st.content, st.pos, buffer), st.pos + |buffer|, true)
  }

  /** `write_hash` of a hash, step by step as written: remember `tellp()`,
      `seekp(std::ios::end)`, take `tellp()` again, seek back, compare the
      difference, converted to an unsigned size, with the hash size, write. */
  method WriteHashAsWritten(stream: OutStream, buffer: seq<Byte>)
    requires stream.Valid() && |stream.content| < StreamOffLimit && |buffer| < StreamOffLimit
    modifies stream
    ensures stream.Valid() && StateOf(stream) == HashWriteAsWritten(old(StateOf(stream)), buffer)
  {
    if !stream.good {
      return;
    }
    var currp := stream.TellP();
    stream.SeekP(IosEnd);
    var endp := stream.TellP();
    var space := endp - currp;
    stream.SeekP(currp);
    assert space < 0 ==> space % 0x1_0000_0000_0000_0000 == space + 0x1_0000_0000_0000_0000;
    if space % 0x1_0000_0000_0000_0000 < |buffer| {
      return;
    }
    stream.Write(buffer);
  }

  /** As written, a freshly constructed `std::ostringstream` receives
      nothing and is left failed. */
  lemma FreshStreamGetsNothing(buffer: seq<Byte>)
    ensures HashWriteAsWritten(StreamState([], 0, true), buffer) == StreamState([], 0, false)
  {
  }

  /** As written, a stream holding at least two characters whose put
      position is at most 2 keeps its state and receives nothing, whatever
      the hash size above 2. */
  lemma NearStartGetsNothing(st: StreamState, buffer: seq<Byte>)
    requires ValidState(st) && st.good && |st.content| >= 2 && st.pos <= 2 && |buffer| > 2
    ensures HashWriteAsWritten(st, buffer) == st
  {
  }

  /** The evident intent: a good stream receives the hash bytes at its put
      position, a stream that is not good is left alone. */
  function HashWrite(st: StreamState, buffer: seq<Byte>): (r: StreamState)
    requires ValidState(st)
    ensures ValidState(r) && r.good == st.good
    ensures st.good ==> |r.content| >= st.pos + |buffer| && r.content[st.pos..st.pos + |buffer|] == buffer
                        && r.pos == st.pos + |buffer|
    ensures !st.good ==> r == st
  {
    if st.good then StreamState(Overwrite(st.content, st.pos, buffer), st.pos + |buffer|, true) else st
  }

  /** With the evident intent, a freshly constructed stream holds exactly
      the hash afterwards. */
  lemma FreshStreamGetsHash(buffer: seq<Byte>)
    ensures HashWrite(StreamState([], 0, true), buffer) == StreamState(buffer, |buffer|, true)
  {
    OverwriteAtEnd([], buffer);
  }

  /** Past position 2 the code as written does what was intended. */
  lemma AsWrittenAgreesPastTwo(st: StreamState, buffer: seq<Byte>)
    requires ValidState(st) && |st.content| >= 2 && st.pos > 2
    ensures HashWriteAsWritten(st, buffer) == HashWrite(st, buffer)
  {
  }

  /** `write_hash` of a hash with the evident intent. */
  method WriteHash(stream: OutStream, buffer: seq<Byte>)
    requires stream.Valid()
    modifies stream
    ensures stream.Valid() && StateOf(stream) == HashWrite(old(StateOf(stream)), buffer)
  {
    if !stream.good {
      return;
    }
    stream.Write(buffer);
  }

  /** `write_hash` of a board with the default hash function. */
  method WriteHashOf(stream: OutStream, p: Fingerprint.Platform, mb: Motherboard)
    requires stream.Valid()
    modifies stream
    ensures stream.Valid() && StateOf(stream) == HashWrite(old(StateOf(stream)), Fingerprint.DefaultHashOf(p, mb).buffer)
  {
    var hash := Fingerprint.DefaultHash(p, mb);
    WriteHash(stream, hash.buffer);
  }

  /** `write_hash` of an extended board with the default extended hash function. */
  method WriteHashExOf(stream: OutStream, p: Fingerprint.Platform, mb: MotherboardEx)
    requires stream.Valid()
    modifies stream
    ensures stream.Valid() && StateOf(stream) == HashWrite(old(StateOf(stream)), Fingerprint.DefaultHashExOf(p, mb).buffer)
  {
    var hash := Fingerprint.DefaultHashEx(p, mb);
    WriteHash(stream, hash.buffer);
  }
}
