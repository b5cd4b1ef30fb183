/** The hardware snapshot the library builds once and then only reads:
    CPU facts, SMBIOS facts and, in the extended form, the physical drives. */
module Snapshot {
  import opened Bytes

  /** `SMBIOS_uuid_length`: a UUID is always exactly 16 bytes. */
  const UuidLength: nat := 16

  type Uuid = s: seq<Byte> | |s| == UuidLength witness [0, 0, 0, 0, 0, 0, 0, 0, 0, 0, 0, 0, 0, 0, 0, 0]

  /** The raw CPUID feature registers kept opaque; `extended_modern` is an array of three words. */
  type ExtendedModern = s: seq<bv32> | |s| == 3 witness [0, 0, 0]

  datatype InstructionSet = InstructionSet(basic: bv32, modern: bv32, extendedModern: ExtendedModern)

  datatype Cpu = Cpu(
    vendor: seq<Char8>,
    version: bv32,
    hypervisorBit: bool,
    brandIndex: Byte,
    clflushLineSize: Byte,
    logicalProcessorsCount: bv32,
    apicId: Byte,
    extendedBrandString: seq<Char8>,
    hypervisorSignature: seq<Char8>,
    instructionSet: InstructionSet)

  datatype Smbios = Smbios(
    is20CallingUsed: bool,
    majorVersion: Byte,
    minorVersion: Byte,
    dmiVersion: Byte,
    uuid: Uuid,
    rawTablesData: seq<Byte>)

  /** `PhysicalDriveInfo::BusType`, with the source's own spelling `NMVe`. */
  datatype BusType = SATA | NMVe | USB | Virtual | Scsi | ATA | SAS | Other

  /** The enumerator's value, which is what `sizeof(bus_type)` bytes of memory hold. */
  function BusOrdinal(b: BusType): (r: bv32)
    ensures r <= 7
  {
    match b
    case SATA => 0
    case NMVe => 1
    case USB => 2
    case Virtual => 3
    case Scsi => 4
    case ATA => 5
    case SAS => 6
    case Other => 7
  }

  function BusOfOrdinal(r: bv32): Option<BusType> {
    if r == 0 then Some(SATA)
    else if r == 1 then Some(NMVe)
    else if r == 2 then Some(USB)
    else if r == 3 then Some(Virtual)
    else if r == 4 then Some(Scsi)
    else if r == 5 then Some(ATA)
    else if r == 6 then Some(SAS)
    else if r == 7 then Some(Other)
    else None
  }

  /** Distinct bus types are stored as distinct values, so the stored tag identifies the bus. */
  lemma BusOrdinalRoundTrip(b: BusType)
    ensures BusOfOrdinal(BusOrdinal(b)) == Some(b)
  {
  }

  datatype PhysicalDriveInfo = PhysicalDriveInfo(
    deviceName: seq<Char8>,
    serial: seq<Char8>,
    vendorId: seq<Char8>,
    productId: seq<Char8>,
    busType: BusType)

  datatype Motherboard = Motherboard(cpu: Cpu, smbios: Smbios)

  datatype MotherboardEx = MotherboardEx(cpu: Cpu, smbios: Smbios, drives: seq<PhysicalDriveInfo>)

  /** The base board an extended snapshot is built on (the copy `serialize_motherboard_ex` makes). */
  function Base(mb: MotherboardEx): Motherboard {
    Motherboard(mb.cpu, mb.smbios)
  }
}
