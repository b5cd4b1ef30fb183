/** The Linux collection layer (Identy/Platform/Identy_hwid_pltimpl_linux.cxx):
    the SMBIOS entry-point anchor (DSP0134 sections 5.2.1 and 5.2.2) and the
    classification of the block devices under /sys/block, with the
    directory listing, the sysfs files and the `subsystem` link given as
    input values. */
module PlatformLinux {
  import opened Bytes
  import opened Snapshot
  import opened Strings

  // ---------------------------------------------------------------------
  // The entry point

  /** `SMBIOS_Entry_Type`. */
  datatype SmbiosEntryType = Unknown | Entry32bit | Entry64bit

  /** The anchor strings of the 32-bit and the 64-bit entry point. */
  const Anchor32: seq<Char8> := "_SM_"
  const Anchor64: seq<Char8> := "_SM3_"

  /** `get_smbios_entry_type(data, size)` with `size` the length of `data`:
      the 32-bit anchor is tried first, then the 64-bit one. The two cannot
      both match, so each result means exactly its own anchor. */
  function GetSmbiosEntryType(data: seq<Byte>): (r: SmbiosEntryType)
    ensures r == Entry32bit <==> |data| >= 4 && data[..4] == TextBytes(Anchor32)
    ensures r == Entry64bit <==> |data| >= 5 && data[..5] == TextBytes(Anchor64)
  {
    if |data| >= 4 && data[..4] == TextBytes(Anchor32) then Entry32bit
    else if |data| >= 5 && data[..5] == TextBytes(Anchor64) then
      assert data[..4] != TextBytes(Anchor32) by {
        assert TextBytes(Anchor64)[3] == ByteOf('3') && TextBytes(Anchor32)[3] == ByteOf('_');
        assert data[..4][3] == data[..5][3];
      }
      Entry64bit
    else Unknown
  }

  /** The SMBIOS major and minor version an entry point holds: bytes 6 and
      7 of the 32-bit one, bytes 7 and 8 of the 64-bit one (the packed
      `SMBIOS_EntryPoint32` and `SMBIOS_EntryPoint64`); nothing for an
      unknown anchor or an entry point too short to hold them. */
  function EntryVersions(data: seq<Byte>): (r: Option<(Byte, Byte)>)
    ensures GetSmbiosEntryType(data) == Unknown ==> r.None?
    ensures GetSmbiosEntryType(data) == Entry32bit ==> (r.Some? <==> |data| >= 8) && (r.Some? ==> r.value == (data[6], data[7]))
    ensures GetSmbiosEntryType(data) == Entry64bit ==> (r.Some? <==> |data| >= 9) && (r.Some? ==> r.value == (data[7], data[8]))
  {
    match GetSmbiosEntryType(data)
    case Entry32bit => if |data| >= 8 then Some((data[6], data[7])) else None
    case Entry64bit => if |data| >= 9 then Some((data[7], data[8])) else None
    case Unknown => None
  }

  /** `get_smbios_versions` with the bytes of the entry-point file read in:
      the `(major, minor)` pair it leaves, starting from `(major, minor)`.
      A missing file or an unrecognised entry point leaves them as they are. */
  function SmbiosVersions(file: Option<seq<Byte>>, major: Byte, minor: Byte): (r: (Byte, Byte))
    ensures file.None? ==> r == (major, minor)
    ensures file.Some? && EntryVersions(file.value).Some? ==> r == EntryVersions(file.value).value
    ensures file.Some? && EntryVersions(file.value).None? ==> r == (major, minor)
  {
    match file
    case None => (major, minor)
    case Some(data) =>
      match EntryVersions(data)
      case None => (major, minor)
      case Some(v) => v
  }

  /** `get_smbios_versions` as written: the buffer is sized to the file but
      nothing is read into it, so the anchors are looked for in zeros. */
  function SmbiosVersionsAsWritten(file: Option<seq<Byte>>, major: Byte, minor: Byte): (Byte, Byte) {
    match file
    case None => (major, minor)
    case Some(data) =>
      match EntryVersions(Zeros(|data|))
      case None => (major, minor)
      case Some(v) => v
  }

  /** As written the versions are never changed, even by a well-formed
      32-bit entry point announcing SMBIOS 3.4, which the intended reading
      takes its versions from. */
  lemma SmbiosVersionsNeverReadAsWritten(file: Option<seq<Byte>>, major: Byte, minor: Byte)
    ensures SmbiosVersionsAsWritten(file, major, minor) == (major, minor)
    ensures var ep := TextBytes(Anchor32) + [0, 0x1f, 3, 4];
      SmbiosVersions(Some(ep), major, minor) == (3, 4)
  {
    if file.Some? {
      ZerosHaveNoAnchor(|file.value|);
    }
    Entry34Versions(major, minor);
  }

  /** A buffer of zeros holds neither anchor. */
  lemma ZerosHaveNoAnchor(n: nat)
    ensures GetSmbiosEntryType(Zeros(n)) == Unknown
  {
    var z := Zeros(n);
    assert TextBytes(Anchor32)[0] == ByteOf('_') && TextBytes(Anchor64)[0] == ByteOf('_');
    if n >= 4 {
      assert z[..4][0] == 0;
    }
    if n >= 5 {
      assert z[..5][0] == 0;
    }
  }

  /** A 32-bit entry point announcing SMBIOS 3.4 gives the versions 3 and 4. */
  lemma Entry34Versions(major: Byte, minor: Byte)
    ensures var ep := TextBytes(Anchor32) + [0, 0x1f, 3, 4];
      SmbiosVersions(Some(ep), major, minor) == (3, 4)
  {
    var ep := TextBytes(Anchor32) + [0, 0x1f, 3, 4];
    assert ep[..4] == TextBytes(Anchor32);
  }

  // ---------------------------------------------------------------------
  // Block devices

  /** What /sys/block shows of one device: its name, the files the code
      reads (`None` when the file does not exist) and the name of the
      directory the `device/subsystem` link points to (`None` when there
      is no such link). */
  datatype BlockDevice = BlockDevice(
    name: seq<Char8>,
    serialFile: Option<seq<Char8>>,
    deviceSerialFile: Option<seq<Char8>>,
    vpdPg80File: Option<seq<Char8>>,
    subsystem: Option<seq<Char8>>)

  /** What `std::getline` reads: the text up to the first line feed. */
  function FirstLine(s: seq<Char8>): (r: seq<Char8>)
    ensures |r| <= |s| && r == s[..|r|]
    ensures forall i :: 0 <= i < |r| ==> r[i] != '\n'
    ensures |r| < |s| ==> s[|r|] == '\n'
  {
    if s == [] || s[0] == '\n' then [] else [s[0]] + FirstLine(s[1..])
  }

  /** `read_sysfs_value`: empty for a missing file, otherwise the first line
      with the surrounding whitespace trimmed. */
  function ReadSysfsValue(file: Option<seq<Char8>>): (r: seq<Char8>)
    ensures file.None? ==> r == []
    ensures r != [] ==> !IsWhitespace(r[0]) && !IsWhitespace(r[|r| - 1])
  {
    match file
    case None => []
    case Some(content) => TrimWhitespace(FirstLine(content))
  }

  /** A value read from sysfs is one line of the file: no line feed is left
      in it, and it is a piece of that line. */
  lemma SysfsValueIsOneLine(content: seq<Char8>) returns (start: nat)
    ensures var r := ReadSysfsValue(Some(content));
      && (forall i :: 0 <= i < |r| ==> r[i] != '\n')
      && start + |r| <= |FirstLine(content)| && FirstLine(content)[start..start + |r|] == r
  {
    var line := FirstLine(content);
    assert ReadSysfsValue(Some(content)) == TrimWhitespace(line);
    hide *;
    start := TrimIsInfix(line);
    var r := TrimWhitespace(line);
    forall i | 0 <= i < |r| ensures r[i] != '\n' {
      assert r[i] == line[start + i];
    }
  }

  /** Devices that are never drives: loop devices, RAM disks and
      device-mapper targets. */
  predicate IsSkipped(name: seq<Char8>) {
    StartsWith(name, "loop") || StartsWith(name, "ram") || StartsWith(name, "dm-")
  }

  /** The bus of an "sd" device, by the subsystem its `device` sits in. */
  function SdBusType(subsystem: Option<seq<Char8>>): (r: BusType)
    ensures r == SATA <==> subsystem == Some("scsi") || subsystem == Some("ata")
    ensures r == USB <==> subsystem == Some("usb")
    ensures r == SATA || r == USB || r == Other
  {
    match subsystem
    case None => Other
    case Some(s) =>
      if s == "scsi" || s == "ata" then SATA
      else if s == "usb" then USB
      else Other
  }

  /** The serial of an "sd" device: `device/serial`, or `device/vpd_pg80`
      when the first is empty. */
  function SdSerial(dev: BlockDevice): seq<Char8> {
    var serial := ReadSysfsValue(dev.deviceSerialFile);
    if serial == [] then ReadSysfsValue(dev.vpdPg80File) else serial
  }

  /** The record the loop body of `list_drives_linux` pushes for one device
      as written: `device_name` is never assigned and stays empty. */
  function LinuxDriveInfoAsWritten(dev: BlockDevice): Option<PhysicalDriveInfo> {
    if IsSkipped(dev.name) then None
    else if StartsWith(dev.name, "nvme") then Some(PhysicalDriveInfo([], ReadSysfsValue(dev.serialFile), [], [], NMVe))
    else if StartsWith(dev.name, "sd") then Some(PhysicalDriveInfo([], SdSerial(dev), [], [], SdBusType(dev.subsystem)))
    else None
  }

  /** The record for one device with its name kept, as the Windows layer
      keeps it: skipped devices and names that are neither "nvme…" nor
      "sd…" give nothing; an "nvme…" device is on the NVMe bus with its
      `serial` file; an "sd…" device is on the bus its subsystem names. */
  function LinuxDriveInfo(dev: BlockDevice): (r: Option<PhysicalDriveInfo>)
    ensures r.Some? <==> !IsSkipped(dev.name) && (StartsWith(dev.name, "nvme") || StartsWith(dev.name, "sd"))
    ensures r.Some? ==> r.value.deviceName == dev.name && r.value.vendorId == [] && r.value.productId == []
    ensures r.Some? ==> (r.value.busType == NMVe <==> StartsWith(dev.name, "nvme"))
    ensures r.Some? && StartsWith(dev.name, "nvme") ==> r.value.serial == ReadSysfsValue(dev.serialFile)
    ensures r.Some? && !StartsWith(dev.name, "nvme") ==>
      r.value.busType == SdBusType(dev.subsystem) && r.value.serial == SdSerial(dev)
  {
    if IsSkipped(dev.name) then None
    else if StartsWith(dev.name, "nvme") then
      Some(PhysicalDriveInfo(dev.name, ReadSysfsValue(dev.serialFile), [], [], NMVe))
    else if StartsWith(dev.name, "sd") then
      Some(PhysicalDriveInfo(dev.name, SdSerial(dev), [], [], SdBusType(dev.subsystem)))
    else None
  }

  /** As written, every record comes out without its name, so it differs
      from the record that keeps it, and two drives that differ only in
      their name give the same record. */
  lemma DeviceNameLostAsWritten(dev: BlockDevice, other: BlockDevice)
    requires LinuxDriveInfo(dev).Some?
    ensures LinuxDriveInfoAsWritten(dev).Some? && LinuxDriveInfoAsWritten(dev).value.deviceName == []
    ensures LinuxDriveInfoAsWritten(dev) != LinuxDriveInfo(dev)
    ensures other.(name := dev.name) == dev && LinuxDriveInfo(other).Some?
            && (StartsWith(dev.name, "nvme") <==> StartsWith(other.name, "nvme"))
        ==> LinuxDriveInfoAsWritten(other) == LinuxDriveInfoAsWritten(dev)
  {
    assert dev.name != [];
  }

  /** The drives of a directory listing, in directory order. */
  function LinuxDrives(devs: seq<BlockDevice>): (r: seq<PhysicalDriveInfo>)
    ensures |r| <= |devs|
  {
    if devs == [] then []
    else
      LinuxDrives(devs[..|devs| - 1])
      + match LinuxDriveInfo(devs[|devs| - 1]) case Some(d) => [d] case None => []
  }

  /** Every drive found is a device of the listing, never a skipped one,
      and on none of the virtual, SCSI, ATA or SAS buses. */
  lemma {:induction false} LinuxDrivesShape(devs: seq<BlockDevice>)
    ensures forall i :: 0 <= i < |LinuxDrives(devs)| ==>
      && (exists j :: 0 <= j < |devs| && devs[j].name == LinuxDrives(devs)[i].deviceName)
      && !IsSkipped(LinuxDrives(devs)[i].deviceName)
      && LinuxDrives(devs)[i].busType in {NMVe, SATA, USB, Other}
  {
    if devs != [] {
      var init := devs[..|devs| - 1];
      var last := devs[|devs| - 1];
      LinuxDrivesShape(init);
      var r := LinuxDrives(devs);
      var tail := match LinuxDriveInfo(last) case Some(d) => [d] case None => [];
      assert r == LinuxDrives(init) + tail;
      forall i | 0 <= i < |r|
        ensures (exists j :: 0 <= j < |devs| && devs[j].name == r[i].deviceName)
        ensures !IsSkipped(r[i].deviceName) && r[i].busType in {NMVe, SATA, USB, Other}
      {
        if i < |LinuxDrives(init)| {
          assert r[i] == LinuxDrives(init)[i];
          var j :| 0 <= j < |init| && init[j].name == LinuxDrives(init)[i].deviceName;
          assert devs[j] == init[j];
        } else {
          assert r[i] == LinuxDriveInfo(last).value;
          assert devs[|devs| - 1].name == r[i].deviceName;
        }
      }
      assert r == LinuxDrives(devs);
    } else {
      assert LinuxDrives(devs) == [];
    }
  }

  /** `list_drives_linux`, over the entries of /sys/block in directory
      order. */
  method ListDrivesLinux(devs: seq<BlockDevice>) returns (driveInfos: seq<PhysicalDriveInfo>)
    ensures driveInfos == LinuxDrives(devs)
  {
    driveInfos := [];
    for k := 0 to |devs|
      invariant driveInfos == LinuxDrives(devs[..k])
    {
      assert devs[..k + 1][..k] == devs[..k];
      var dev := devs[k];
      var device := dev.name;
      if StartsWith(device, "loop") || StartsWith(device, "ram") || StartsWith(device, "dm-") {
        continue;
      }
      var info := PhysicalDriveInfo(device, [], [], [], Other);
      if StartsWith(device, "nvme") {
        info := info.(busType := NMVe);
        info := info.(serial := ReadSysfsValue(dev.serialFile));
      } else if StartsWith(device, "sd") {
        if dev.subsystem.Some? {
          var subsystem := dev.subsystem.value;
          if subsystem == "scsi" || subsystem == "ata" {
            info := info.(busType := SATA);
          } else if subsystem == "usb" {
            info := info.(busType := USB);
          } else {
            info := info.(busType := Other);
          }
        } else {
          info := info.(busType := Other);
        }
        info := info.(serial := ReadSysfsValue(dev.deviceSerialFile));
        if info.serial == [] {
          info := info.(serial := ReadSysfsValue(dev.vpdPg80File));
        }
      } else {
        continue;
      }
      driveInfos := driveInfos + [info];
    }
    assert devs[..|devs|] == devs;
  }
}
