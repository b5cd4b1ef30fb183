/** The Windows collection layer (Identy/Platform/Identy_hwid_pltimpl_windows.cxx)
    with the operating-system calls replaced by what they return: the
    'RSMB' firmware table buffer, the storage descriptor and NVMe identify
    buffers `DeviceIoControl` fills, and the multi-string list
    `QueryDosDeviceA` fills. Structure layouts and enumerator values not
    spelled out in the repository are those of the Windows SDK header
    winioctl.h. */
module PlatformWindows {
  import opened Bytes
  import opened Snapshot
  import opened SmbiosTables
  import opened Strings

  // ---------------------------------------------------------------------
  // The 'RSMB' firmware table

  /** `RSMB_length_offset`: where the table length sits in the header. */
  const RsmbLengthOffset: nat := 4
  /** `RSMB_table_data_offset`: where the structure table starts. */
  const RsmbTableDataOffset: nat := 8

  /** `SMBIOS_RawData`; every field is zero and the table empty by default. */
  datatype SmbiosRawData = SmbiosRawData(
    used20CallingMethod: Byte,
    majorVersion: Byte,
    minorVersion: Byte,
    dmiRevision: Byte,
    tableData: seq<Byte>)

  const EmptyRawData: SmbiosRawData := SmbiosRawData(0, 0, 0, 0, [])

  /** The table length the header announces (the `memcpy` into a dword). */
  function TableLength(buffer: seq<Byte>): nat
    requires |buffer| >= RsmbTableDataOffset
  {
    LE32Value(buffer[RsmbLengthOffset..RsmbTableDataOffset]) as nat
  }

  /** What `get_smbios_win32` makes of the firmware table buffer. */
  function RsmbData(buffer: seq<Byte>): (r: SmbiosRawData)
    ensures |buffer| < RsmbTableDataOffset ==> r == EmptyRawData
    ensures |buffer| >= RsmbTableDataOffset ==>
      && r.used20CallingMethod == buffer[0] && r.majorVersion == buffer[1]
      && r.minorVersion == buffer[2] && r.dmiRevision == buffer[3]
      && (RsmbTableDataOffset + TableLength(buffer) <= |buffer| ==>
           r.tableData == buffer[RsmbTableDataOffset..RsmbTableDataOffset + TableLength(buffer)])
      && (RsmbTableDataOffset + TableLength(buffer) > |buffer| ==> r.tableData == [])
  {
    if |buffer| < RsmbTableDataOffset then EmptyRawData
    else
      var n := TableLength(buffer);
      SmbiosRawData(buffer[0], buffer[1], buffer[2], buffer[3],
        if RsmbTableDataOffset + n <= |buffer| then buffer[RsmbTableDataOffset..RsmbTableDataOffset + n] else [])
  }

  /** `get_smbios_win32`, given the buffer `GetSystemFirmwareTable` filled
      (empty when it reported a size of 0). */
  method GetSmbiosWin32(buffer: seq<Byte>) returns (result: SmbiosRawData)
    ensures result == RsmbData(buffer)
  {
    if |buffer| == 0 {
      return EmptyRawData;
    }
    result := EmptyRawData;
    if |buffer| >= RsmbTableDataOffset {
      result := result.(used20CallingMethod := buffer[0], majorVersion := buffer[1]);
      result := result.(minorVersion := buffer[2], dmiRevision := buffer[3]);
      var tableLength := LE32Value(buffer[RsmbLengthOffset..RsmbTableDataOffset]) as nat;
      if RsmbTableDataOffset + tableLength <= |buffer| {
        result := result.(tableData := buffer[RsmbTableDataOffset..RsmbTableDataOffset + tableLength]);
      }
    }
  }

  /** The firmware table buffer that carries `d`: the four version bytes,
      the table length as a little-endian dword, then the table. */
  function RsmbBuffer(d: SmbiosRawData): (b: seq<Byte>)
    requires |d.tableData| < 0x1_0000_0000
    ensures |b| == RsmbTableDataOffset + |d.tableData|
  {
    [d.used20CallingMethod, d.majorVersion, d.minorVersion, d.dmiRevision] + LE32(U32(|d.tableData|)) + d.tableData
  }

  /** Decoding gives back what was encoded, whatever follows the table. */
  lemma RsmbRoundTrip(d: SmbiosRawData, trailing: seq<Byte>)
    requires |d.tableData| < 0x1_0000_0000
    ensures RsmbData(RsmbBuffer(d) + trailing) == d
  {
    var n := |d.tableData|;
    var b := RsmbBuffer(d) + trailing;
    var head := [d.used20CallingMethod, d.majorVersion, d.minorVersion, d.dmiRevision];
    assert b == head + LE32(U32(n)) + d.tableData + trailing;
    assert b[RsmbLengthOffset..RsmbTableDataOffset] == LE32(U32(n));
    LE32RoundTrip(U32(n));
    U32Fits(n);
    assert TableLength(b) == n;
    assert b[RsmbTableDataOffset..RsmbTableDataOffset + n] == d.tableData;
  }

  // ---------------------------------------------------------------------
  // The NVMe serial number

  /** `sizeof(StorageProtocolSpecificData)`: ten dwords. */
  const ProtocolSpecificDataSize: nat := 40
  /** `sizeof(StorageProtocolDataDescriptor)`: version, size, then the
      protocol-specific data. */
  const ProtocolDataDescriptorSize: nat := 48
  /** Offset of `ProtocolSpecificData.ProtocolDataOffset` in the descriptor. */
  const ProtocolDataOffsetField: nat := 24
  /** `sizeof(NvmeIdentifyControllerData)`. */
  const IdentifyControllerDataSize: nat := 4096
  /** `output_size`: the descriptor followed by the identify data. */
  const NvmeOutputSize: nat := 4144
  /** `offsetof(NvmeIdentifyControllerData, SN)` and `sizeof(SN)`. */
  const SerialNumberOffsetInIdentify: nat := 4
  const SerialNumberSize: nat := 20

  /** The output buffer of the NVMe identify query, always `output_size` long. */
  type NvmeOutput = s: seq<Byte> | |s| == 4144 witness seq(4144, _ => 0)

  /** `data_offset`: where the identify data starts in the output. */
  function DataOffset(output: NvmeOutput): nat {
    ProtocolDataDescriptorSize - ProtocolSpecificDataSize
    + LE32Value(output[ProtocolDataOffsetField..ProtocolDataOffsetField + 4]) as nat
  }

  /** `get_nvme_serial`, given the output of the query (`None` when
      `DeviceIoControl` failed): the 20-byte serial field of the identify
      data, NULs included, or nothing when the data would not fit in the
      output. */
  function NvmeSerial(output: Option<NvmeOutput>): (s: seq<Char8>)
    ensures output.None? ==> s == []
    ensures output.Some? ==>
      (s != [] <==> LE32Value(output.value[ProtocolDataOffsetField..ProtocolDataOffsetField + 4]) as int
                      <= ProtocolSpecificDataSize)
    ensures s != [] ==> |s| == SerialNumberSize
  {
    match output
    case None => []
    case Some(o) =>
      var dataOffset := DataOffset(o);
      if dataOffset + IdentifyControllerDataSize > |o| then []
      else BytesText(o[dataOffset + SerialNumberOffsetInIdentify..dataOffset + SerialNumberOffsetInIdentify + SerialNumberSize])
  }

  /** The serial number bytes come back as they are stored in the identify
      data. */
  lemma NvmeSerialBytes(output: NvmeOutput)
    requires LE32Value(output[ProtocolDataOffsetField..ProtocolDataOffsetField + 4]) as int <= ProtocolSpecificDataSize
    ensures var at := DataOffset(output) + SerialNumberOffsetInIdentify;
      at + SerialNumberSize <= |output| && TextBytes(NvmeSerial(Some(output))) == output[at..at + SerialNumberSize]
  {
    var at := DataOffset(output) + SerialNumberOffsetInIdentify;
    var field := output[at..at + SerialNumberSize];
    assert NvmeSerial(Some(output)) == BytesText(field);
    hide NvmeSerial, DataOffset, LE32Value, TextBytes, BytesText;
    BytesTextRoundTrip(field);
  }

  // ---------------------------------------------------------------------
  // One drive

  /** `STORAGE_BUS_TYPE` values the mapping looks for. */
  const BusTypeUsb: bv32 := 7
  const BusTypeSata: bv32 := 11
  const BusTypeNvme: bv32 := 17

  /** The `switch(desc.BusType)`. */
  function BusTypeOf(code: bv32): (r: BusType)
    ensures r == NMVe <==> code == BusTypeNvme
    ensures r == SATA <==> code == BusTypeSata
    ensures r == USB <==> code == BusTypeUsb
    ensures r == Other <==> code != BusTypeNvme && code != BusTypeSata && code != BusTypeUsb
  {
    if code == BusTypeNvme then NMVe
    else if code == BusTypeSata then SATA
    else if code == BusTypeUsb then USB
    else Other
  }

  /** `sizeof(STORAGE_DEVICE_DESCRIPTOR)` and the offsets of the two fields
      read from it. */
  const DeviceDescriptorSize: nat := 40
  const SerialNumberOffsetField: nat := 24
  const BusTypeField: nat := 28

  /** `desc` after `memcpy(&desc, buffer, min(sizeof(desc), buffer.size()))`:
      the start of the buffer, zero where the buffer is shorter. */
  function DescriptorCopy(buffer: seq<Byte>): (d: seq<Byte>)
    ensures |d| == DeviceDescriptorSize
    ensures forall i :: 0 <= i < DeviceDescriptorSize ==> d[i] == if i < |buffer| then buffer[i] else 0
  {
    if |buffer| >= DeviceDescriptorSize then buffer[..DeviceDescriptorSize]
    else buffer + Zeros(DeviceDescriptorSize - |buffer|)
  }

  function SerialNumberOffset(buffer: seq<Byte>): nat {
    LE32Value(DescriptorCopy(buffer)[SerialNumberOffsetField..SerialNumberOffsetField + 4]) as nat
  }

  function DescriptorBusType(buffer: seq<Byte>): bv32 {
    LE32Value(DescriptorCopy(buffer)[BusTypeField..BusTypeField + 4])
  }

  /** What the operating system answers for one device: it cannot be
      opened, the descriptor query fails, or the descriptor buffer, with the
      answer to the NVMe identify query should it be asked. */
  datatype DeviceAnswer =
    | CannotOpen
    | QueryFailed
    | Answered(descriptor: seq<Byte>, nvmeOutput: Option<NvmeOutput>)

  /** The serial before trimming: the NVMe serial for an NVMe drive,
      otherwise the NUL-terminated string at `SerialNumberOffset` when that
      is non-zero and inside the buffer, otherwise empty. */
  function RawSerial(descriptor: seq<Byte>, nvmeOutput: Option<NvmeOutput>): seq<Char8> {
    if BusTypeOf(DescriptorBusType(descriptor)) == NMVe then NvmeSerial(nvmeOutput)
    else
      var off := SerialNumberOffset(descriptor);
      if off != 0 && off < |descriptor| then CString(descriptor, off) else []
  }

  /** `get_drive_info(drive_name)`. */
  function DriveInfo(name: seq<Char8>, answer: DeviceAnswer): (r: Option<PhysicalDriveInfo>)
    ensures r.Some? <==> answer.Answered?
    ensures r.Some? ==>
      && r.value.deviceName == name
      && r.value.busType == BusTypeOf(DescriptorBusType(answer.descriptor))
      && r.value.serial == TrimWhitespace(RawSerial(answer.descriptor, answer.nvmeOutput))
      && r.value.vendorId == [] && r.value.productId == []
  {
    match answer
    case Answered(descriptor, nvmeOutput) =>
      Some(PhysicalDriveInfo(name, TrimWhitespace(RawSerial(descriptor, nvmeOutput)), [], [],
                             BusTypeOf(DescriptorBusType(descriptor))))
    case _ => None
  }

  /** A drive found on Windows is never on a virtual, SCSI, ATA or SAS bus,
      and its serial has no surrounding whitespace. */
  lemma DriveInfoShape(name: seq<Char8>, answer: DeviceAnswer)
    requires DriveInfo(name, answer).Some?
    ensures var d := DriveInfo(name, answer).value;
      && d.busType in {NMVe, SATA, USB, Other}
      && (d.serial != [] ==> !IsWhitespace(d.serial[0]) && !IsWhitespace(d.serial[|d.serial| - 1]))
      && TrimWhitespace(d.serial) == d.serial
  {
    var raw := RawSerial(answer.descriptor, answer.nvmeOutput);
    var d := DriveInfo(name, answer).value;
    assert d.serial == TrimWhitespace(raw) && d.busType == BusTypeOf(DescriptorBusType(answer.descriptor));
    hide *;
    TrimIdempotent(raw);
  }

  // ---------------------------------------------------------------------
  // The device list

  /** The prefix of the device names kept. */
  const PhysicalDrivePrefix: seq<Char8> := "PhysicalDrive"

  /** The NUL-terminated names of the list from `p`, up to the empty one
      that ends it (or the end of the buffer). */
  function DeviceNames(b: seq<Byte>, p: nat): seq<seq<Char8>>
    decreases |b| - p
  {
    if p >= |b| || b[p] == 0 then [] else [CString(b, p)] + DeviceNames(b, p + CStringLength(b, p) + 1)
  }

  /** The names that start with "PhysicalDrive", in order. */
  function PhysicalDrives(names: seq<seq<Char8>>): (r: seq<seq<Char8>>)
    ensures |r| <= |names|
    ensures forall x :: x in r <==> x in names && StartsWith(x, PhysicalDrivePrefix)
  {
    if names == [] then []
    else (if StartsWith(names[0], PhysicalDrivePrefix) then [names[0]] else []) + PhysicalDrives(names[1..])
  }

  /** The walk over the list `QueryDosDeviceA` filled, keeping the physical
      drives. */
  method ListPhysicalDrives(b: seq<Byte>) returns (drives: seq<seq<Char8>>)
    ensures drives == PhysicalDrives(DeviceNames(b, 0))
  {
    hide DeviceNames, PhysicalDrives, CString, CStringLength, StartsWith, BytesText;
    drives := [];
    var p: nat := 0;
    while p < |b| && b[p] != 0
      invariant drives + PhysicalDrives(DeviceNames(b, p)) == PhysicalDrives(DeviceNames(b, 0))
      decreases |b| - p
    {
      var name := CString(b, p);
      var next := p + CStringLength(b, p) + 1;
      DeviceNamesStep(b, p);
      PhysicalDrivesCons(name, DeviceNames(b, next));
      if StartsWith(name, PhysicalDrivePrefix) {
        drives := drives + [name];
      }
      p := next;
    }
    DeviceNamesStep(b, p);
  }

  /** One step of the walk over the list. */
  lemma DeviceNamesStep(b: seq<Byte>, p: nat)
    ensures p < |b| && b[p] != 0 ==> DeviceNames(b, p) == [CString(b, p)] + DeviceNames(b, p + CStringLength(b, p) + 1)
    ensures !(p < |b| && b[p] != 0) ==> DeviceNames(b, p) == [] && PhysicalDrives(DeviceNames(b, p)) == []
  {
    hide CString, CStringLength, BytesText;
  }

  /** Filtering a list is filtering its head, then its tail. */
  lemma PhysicalDrivesCons(x: seq<Char8>, xs: seq<seq<Char8>>)
    ensures PhysicalDrives([x] + xs) == (if StartsWith(x, PhysicalDrivePrefix) then [x] else []) + PhysicalDrives(xs)
  {
    assert ([x] + xs)[1..] == xs;
  }

  /** A list written as its names, each closed by a NUL, and one more NUL
      reads back as those names. */
  lemma DeviceNamesOfList(b: seq<Byte>, p: nat, names: seq<seq<Char8>>)
    requires forall i :: 0 <= i < |names| ==> IsSetString(names[i])
    requires p + |Joined(names)| < |b| && b[p..p + |Joined(names)|] == Joined(names) && b[p + |Joined(names)|] == 0
    ensures DeviceNames(b, p) == names
  {
    assert StoredAt(b, p, names);
    hide *;
    StoredDeviceNames(b, p, names);
  }

  /** `DeviceNamesOfList` on a list given by `StoredAt`. */
  lemma {:induction false} StoredDeviceNames(b: seq<Byte>, p: nat, names: seq<seq<Char8>>)
    requires StoredAt(b, p, names)
    ensures DeviceNames(b, p) == names
    decreases |names|
  {
    hide *;
    DeviceNamesStep(b, p);
    if names == [] {
      StoredEmpty(b, p);
    } else {
      StoredCons(b, p, names);
      StoredDeviceNames(b, p + |names[0]| + 1, names[1..]);
      assert names == [names[0]] + names[1..];
    }
  }

  /** The drives `get_drive_info` describes, in order, skipping those it
      cannot. */
  function DriveInfos(names: seq<seq<Char8>>, query: seq<Char8> -> DeviceAnswer): (r: seq<PhysicalDriveInfo>)
    ensures |r| <= |names|
    ensures forall i :: 0 <= i < |r| ==> r[i].deviceName in names
  {
    if names == [] then []
    else
      var init := DriveInfos(names[..|names| - 1], query);
      var last := names[|names| - 1];
      assert forall i :: 0 <= i < |init| ==> init[i].deviceName in names[..|names| - 1];
      init + match DriveInfo(last, query(last)) case Some(d) => [d] case None => []
  }

  /** The loop over the drive names. */
  method CollectDriveInfos(drives: seq<seq<Char8>>, query: seq<Char8> -> DeviceAnswer)
    returns (infos: seq<PhysicalDriveInfo>)
    ensures infos == DriveInfos(drives, query)
  {
    infos := [];
    for i := 0 to |drives|
      invariant infos == DriveInfos(drives[..i], query)
    {
      assert drives[..i + 1][..i] == drives[..i];
      var result := DriveInfo(drives[i], query(drives[i]));
      if result.Some? {
        infos := infos + [result.value];
      }
    }
    assert drives[..|drives|] == drives;
  }

  /** `list_drives_win32`, given what `QueryDosDeviceA` returned (`count`)
      and wrote, and the answers the system gives for each device. */
  method ListDrivesWin32(count: nat, b: seq<Byte>, query: seq<Char8> -> DeviceAnswer)
    returns (infos: seq<PhysicalDriveInfo>)
    ensures count == 0 ==> infos == []
    ensures count != 0 ==> infos == DriveInfos(PhysicalDrives(DeviceNames(b, 0)), query)
    ensures forall i :: 0 <= i < |infos| ==> StartsWith(infos[i].deviceName, PhysicalDrivePrefix)
  {
    if count == 0 {
      return [];
    }
    var drives := ListPhysicalDrives(b);
    infos := CollectDriveInfos(drives, query);
  }
}
