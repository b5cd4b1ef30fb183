# Identy in Dafny

Identy builds a hardware fingerprint of a machine and judges whether the machine is a virtual one. It reads a snapshot of the hardware:

- the CPU's CPUID data;
- the SMBIOS firmware tables, with the system UUID and the structure strings;
- the physical drives, each with its bus type and serial number.

From that snapshot it does three things:

- it serialises the snapshot into a byte stream and hashes the stream with SHA-256;
- it writes the snapshot as a text report, a binary record or the raw hash bytes;
- it runs a heuristic that collects "VM flags" and scores them into a confidence.

This project models that core in Dafny and proves properties of the model.

| file | module | models |
|---|---|---|
| `bytes.dfy` | `Bytes` | bytes, C++ `char`, little-endian words, the helpers shared by every layer |
| `strings.dfy` | `Strings` | `trim_whitespace` |
| `snapshot.dfy` | `Snapshot` | `Cpu`, `SMBIOS`, `PhysicalDriveInfo`, `Motherboard`, `MotherboardEx` |
| `smbios.dfy` | `SmbiosTables` | SMBIOS structure strings and the scan past a string set (DSP0134 section 6.1.3) |
| `hash_base.dfy` | `HashBase` | `Hash<N>` and `hs::compare` |
| `sha256_functions.dfy`, `sha256_spec.dfy` | `Sha256Functions`, `Sha256Spec` | the SHA-256 helpers and FIPS 180-4 SHA-256 as the reference |
| `sha256.dfy` | `Sha256Hasher` | the class `hs::Sha256`: `init`, `update`, `transform`, `finalize` over its arrays |
| `hash.dfy` | `Fingerprint` | `serialize_motherboard(_ex)`, `compute_sha256`, `default_hash(_ex)` |
| `stream.dfy` | `Streams` | an in-memory `std::ostream`: put position, overwrite, `tellp`, `seekp`, state |
| `format.dfy` | `Format` | the `std::format` renderings the report uses |
| `io.dfy` | `Io` | `write_text`, `write_binary`, `write_hash` |
| `vm_confidence.dfy` | `VmConfidence` | `get_flag_strength`, `calculate_confidence` |
| `vm.dfy` | `Vm` | the VM heuristic: `contains_icase`, the adapter, SMBIOS and drive checks, `DefaultHeuristic(Ex)` |
| `hwid.dfy` | `Hwid` | the SMBIOS UUID lookup `get_smbios_uuid(_impl)` |
| `platform_windows.dfy` | `PlatformWindows` | the RSMB table, the NVMe serial query, `get_drive_info`, `list_drives_win32` |
| `platform_linux.dfy` | `PlatformLinux` | the entry-point anchor, the entry-point versions, `read_sysfs_value`, `list_drives_linux` |

The operating system's answers are inputs to the model. Each of these is given as a value:

- the firmware table buffer;
- the `DeviceIoControl` output buffers;
- the `QueryDosDeviceA` list;
- the `/sys/block` listing;
- the sysfs files;
- the network adapter list;
- whether CryptoAPI succeeds.

Code that updates state in place keeps that form:

- the SHA-256 hasher is a class over arrays;
- the output stream and the heuristic's verdict are classes whose methods change their fields;
- the loops of the source are `while`/`for` loops.

Each loop method is proved against a specification function, and the properties are proved about those functions.

Where the text specification of the library and its code disagree, the model follows the code:

- the fingerprint stream includes the raw SMBIOS tables and the APIC id;
- the drives go into the stream unsorted and unfiltered, in list order.

## Model

| member | source | states |
|---|---|---|
| Strings.FindFirstNotOf | Identy/Identy_string.cxx:12 | the first non-whitespace index, with only whitespace before it; none exactly when the text is all whitespace |
| Strings.FindLastNotOf | Identy/Identy_string.cxx:13 | the last non-whitespace index, with only whitespace after it; none exactly when the text is all whitespace |
| Strings.TrimWhitespace | Identy/Identy_string.cxx:10-20 | the result is empty exactly when the text is all whitespace, and otherwise begins and ends with a non-whitespace character |
| Strings.TrimIsInfix | Identy/Identy_string.cxx:19 | the result is a contiguous piece of the input, and only whitespace is cut on either side |
| Strings.TrimKeepsNonWhitespaceEdges | Identy/Identy_string.cxx:10-20 | a text already starting and ending with non-whitespace is returned whole |
| Strings.TrimIdempotent | Identy/Identy_string.cxx:10-20 | trimming twice gives what trimming once gives |
| Strings.ControlCharactersAreKept | Identy/Identy_string.cxx:7 | only space, tab, CR and LF are trimmed; vertical tab, form feed and NUL are kept |
| Snapshot.BusOrdinalRoundTrip | Identy/Identy_hash.cxx:125-126 | the four bytes stored for a bus type identify the bus type |
| HashBase.ZeroHash | Identy/Identy_hash_base.hxx:26-33 | a value-initialised hash has every one of its bytes zero |
| HashBase.AliasWidths | Identy/Identy_hash_base.hxx:29-58 | the aliases are 16, 32 and 64 bytes wide and pass the width check; an odd width is refused |
| HashBase.Memcmp | Identy/Identy_hash.hxx:297 | the comparison is -1, 0 or 1, and 0 exactly when the buffers are equal |
| HashBase.Compare | Identy/Identy_hash.hxx:294-298 | `compare` is 0 exactly when the two hashes are equal |
| HashBase.MemcmpFirstDifference | Identy/Identy_hash.hxx:297 | the first differing byte decides the sign, compared as unsigned |
| HashBase.MemcmpAntisymmetric | Identy/Identy_hash.hxx:297 | swapping the operands flips the sign |
| HashBase.CompareReflexive | Identy/Identy_hash.hxx:294-298 | a hash equals its copy and differs from itself with any one byte changed |
| Sha256Functions.Rotr | Identy/Identy_sha256.hxx:31-34 | a rotation by a multiple of 32 leaves the word unchanged |
| Sha256Functions.Choose | Identy/Identy_sha256.hxx:36-39 | where `e` has a 1 the result takes the bit of `f`, elsewhere the bit of `g` |
| Sha256Functions.Majority | Identy/Identy_sha256.hxx:41-44 | the source's formula equals FIPS 180-4's Maj, in both its OR and XOR forms |
| Sha256Spec.BE32RoundTrip | Identy/Identy_sha256.cxx:64-88 | a word written as four big-endian bytes reads back as the word |
| Sha256Spec.LoadWords | Identy/Identy_sha256.cxx:112-114 | each of the first 16 schedule words is four block bytes read big-endian |
| Sha256Spec.ScheduleIsFips | Identy/Identy_sha256.cxx:112-118 | the schedule is the one FIPS 180-4 section 6.2.2 defines, word by word |
| Sha256Spec.ExpandKeepsPrefix | Identy/Identy_sha256.cxx:116-118 | extending the schedule never changes the words already computed |
| Sha256Spec.CompressIsAddWork | Identy/Identy_sha256.cxx:150-157 | a compression adds the 64 rounds' working variables back into the state |
| Sha256Spec.HashBlocksAppend | Identy/Identy_sha256.cxx:17-28 | compressing two block runs in a row equals compressing them joined |
| Sha256Spec.Pad | Identy/Identy_sha256.cxx:30-62 | the padded message keeps the input, adds 0x80, zeros and the 64-bit big-endian bit length, and is whole blocks |
| Sha256Spec.DigestRoundTrip | Identy/Identy_sha256.cxx:64-88 | the digest's bytes read back as the eight state words |
| Sha256Spec.AbsorbAppend | Identy/Identy_sha256.cxx:17-28 | two `update` calls equal one `update` with both inputs |
| Sha256Spec.AbsorbFromInitial | Identy/Identy_sha256.cxx:17-28 | after `update(msg)` the state is the hash of the whole blocks, and the rest waits in the buffer |
| Sha256Spec.FinalBlocks | Identy/Identy_sha256.cxx:30-62 | `finalize` pads the waiting bytes into one block, or two when 56 or more wait |
| Sha256Spec.FinalBlocksLayout | Identy/Identy_sha256.cxx:34-60 | where 0x80, the zero runs and the length field land in the last one or two blocks |
| Sha256Spec.PadSplitsAtConsumed | Identy/Identy_sha256.cxx:30-62 | the padded message is the compressed prefix followed by the blocks `finalize` builds |
| Sha256Spec.IncrementalIsSha256 | Identy/Identy_sha256.cxx:5-10 | init, `update(msg)` and `finalize` give exactly the FIPS 180-4 SHA-256 of `msg` |
| Sha256Hasher.Sha256.constructor | Identy/Identy_sha256.cxx:12-15 | a new hasher holds the initial context |
| Sha256Hasher.Sha256.Init | Identy/Identy_sha256.cxx:93-105 | the state is the FIPS 180-4 section 5.3.3 initial value, with empty counters |
| Sha256Hasher.Sha256.Update | Identy/Identy_sha256.cxx:17-28 | the hasher's context becomes the old one with the input absorbed byte by byte |
| Sha256Hasher.Sha256.Push | Identy/Identy_sha256.cxx:20-26 | one loop turn absorbs one byte, compressing a full block and counting its 512 bits |
| Sha256Hasher.Sha256.Finalize | Identy/Identy_sha256.cxx:30-91 | the result is the digest of the state after compressing the final blocks; the bit count grows by the waiting bits, modulo 2^64 |
| Sha256Hasher.Sha256.PadOverflowBlock | Identy/Identy_sha256.cxx:39-45 | when more than 55 bytes wait, the zero-filled block is compressed first |
| Sha256Hasher.Sha256.PadLastBlock | Identy/Identy_sha256.cxx:47-62 | the last block gets zeros up to byte 56 and the bit length, then is compressed |
| Sha256Hasher.Sha256.ZeroFill | Identy/Identy_sha256.cxx:47-49 | the bytes between the two positions become zero and the others stay |
| Sha256Hasher.Sha256.WriteLength | Identy/Identy_sha256.cxx:53-60 | bytes 56 to 63 hold the 64-bit bit count, big-endian |
| Sha256Hasher.Sha256.WriteDigest | Identy/Identy_sha256.cxx:64-88 | the result is the eight state words written big-endian |
| Sha256Hasher.Sha256.Hash | Identy/Identy_sha256.cxx:5-10 | `hash(bytes)` is the FIPS 180-4 SHA-256 of `bytes` |
| Sha256Hasher.Sha256.Transform | Identy/Identy_sha256.cxx:107-158 | the state becomes the compression of the old state with the block |
| Sha256Hasher.Sha256.LoadBlock | Identy/Identy_sha256.cxx:112-114 | the first 16 words are the block read big-endian |
| Sha256Hasher.Sha256.ExtendSchedule | Identy/Identy_sha256.cxx:116-118 | the 64 words are the message schedule of the block |
| Sha256Hasher.Sha256.RunRounds | Identy/Identy_sha256.cxx:120-148 | the working variables after the loop are the 64 rounds of section 6.2.2 |
| Sha256Hasher.Sha256.AddBack | Identy/Identy_sha256.cxx:150-157 | each state word grows by its working variable, modulo 2^32 |
| Fingerprint.CpuBytes | Identy/Identy_hash.cxx:66-90 | the CPU part is 28 bytes plus the vendor and the brand string |
| Fingerprint.SerializeMotherboard | Identy/Identy_hash.cxx:59-105 | the buffer is the board's stream, field by field in the source's order |
| Fingerprint.SerializeMotherboardEx | Identy/Identy_hash.cxx:113-136 | the buffer is the base stream followed by each drive's bus tag, name and serial |
| Fingerprint.CpuLayout | Identy/Identy_hash.cxx:66-90 | where each CPU field lands: vendor, version, the four characteristic bytes, brand string and the three instruction-set words |
| Fingerprint.MotherboardLayout | Identy/Identy_hash.cxx:59-105 | the stream is the CPU part, the 2.0-calling byte, the three version bytes, the UUID and the raw tables, and nothing else |
| Fingerprint.MotherboardBytesLength | Identy/Identy_hash.cxx:59-105 | the stream is 48 fixed bytes plus the two CPU strings and the raw tables |
| Fingerprint.UuidChangesStream | Identy/Identy_hash.cxx:98-99 | boards differing only in the UUID give different streams of equal length |
| Fingerprint.ExStreamExtendsBase | Identy/Identy_hash.cxx:115-120 | the extended stream starts with the base board's stream |
| Fingerprint.DrivesBytesLength | Identy/Identy_hash.cxx:123-133 | each drive adds four tag bytes and its two strings, nothing else |
| Fingerprint.DriveOrderMatters | Identy/Identy_hash.cxx:123-133 | two drives on different buses give another stream when swapped |
| Fingerprint.DriveIdsIgnored | Identy/Identy_hash.cxx:123-133 | `vendor_id` and `product_id` never reach the stream |
| Fingerprint.ComputeSha256 | Identy/Identy_hash.cxx:21-51 | the SHA-256 of the data when CryptoAPI succeeds, 32 zero bytes when any call fails |
| Fingerprint.DefaultHash | Identy/Identy_hash.cxx:140-148 | the SHA-256 of the board's stream on Win32, zeros elsewhere |
| Fingerprint.DefaultHashEx | Identy/Identy_hash.cxx:150-158 | the SHA-256 of the extended stream on Win32, zeros elsewhere |
| Fingerprint.DefaultHashCases | Identy/Identy_hash.cxx:140-158 | off Win32, or when CryptoAPI fails, every board hashes to 32 zero bytes |
| Fingerprint.NoDrivesSameHash | Identy/Identy_hash.cxx:113-136 | with no drives the extended hash equals the base board's hash |
| Streams.Overwrite | Identy/Identy_io.cxx:43-44 | a write at the put position replaces what is there and keeps what is before and after |
| Streams.OverwriteAtEnd | Identy/Identy_io.cxx:43-44 | a write at the end of the buffer appends |
| Streams.OverwriteTwice | Identy/Identy_io.cxx:42-71 | two writes in a row equal one write of both pieces |
| Streams.OutStream.Write | Identy/Identy_io.hxx:75 | a good stream takes the bytes at its put position and advances; a failed one takes nothing |
| Streams.OutStream.SeekP | Identy/Identy_io.hxx:64 | a seek inside the buffer moves the put position, one outside fails the stream |
| Format.Decimal | Identy/Identy_io.cxx:27 | `{}` of a number is its decimal digits with no leading zero |
| Format.DecimalRoundTrip | Identy/Identy_io.cxx:27 | the digits denote the number printed |
| Format.DecimalInjective | Identy/Identy_io.cxx:27 | distinct numbers print differently |
| Format.BoolText | Identy/Identy_io.cxx:16 | `{}` of a bool is "true" exactly when it is true, else "false" |
| Format.Hex2 | Identy/Identy_io.cxx:21 | `{:02x}` of a byte is exactly two lower-case hex digits |
| Format.Hex2RoundTrip | Identy/Identy_io.cxx:21 | the two digits give the byte back |
| Format.HexRunRoundTrip | Identy/Identy_io.cxx:20-24 | a run of hex pairs parses back into the bytes printed |
| Format.UuidText | Identy/Identy_io.cxx:20-24 | the UUID prints as 36 characters, in hex groups of 8-4-4-4-12 |
| Format.UuidTextRoundTrip | Identy/Identy_io.cxx:20-24 | the printed UUID parses back into its 16 bytes |
| Io.BoolByte | Identy/Identy_io.cxx:48 | a bool is stored as 1 exactly when true, else as 0 |
| Io.Counted | Identy/Identy_io.cxx:42-44 | a string is stored as its 32-bit size then its characters |
| Io.CpuRecord | Identy/Identy_io.cxx:42-64 | the CPU part of the record is 43 bytes plus the stored characters |
| Io.SmbiosRecord | Identy/Identy_io.cxx:66-71 | the SMBIOS part is 20 bytes ending with the UUID |
| Io.DriveRecord | Identy/Identy_io.cxx:140-148 | a drive record is 12 bytes plus its stored name and serial |
| Io.WriteBinaryCommon | Identy/Identy_io.cxx:36-72 | a good stream receives the record at its put position; a failed one is untouched |
| Io.WriteBinary | Identy/Identy_io.cxx:123-126 | `write_binary` of a board writes exactly the common record |
| Io.WriteBinaryEx | Identy/Identy_io.cxx:128-150 | the extended record: the base record, the drive count, then each drive's record in order |
| Io.PutDrivesRecord | Identy/Identy_io.cxx:139-149 | the drive loop emits the drive records in list order |
| Io.BinaryRecordLength | Identy/Identy_io.cxx:36-72 | the record is 63 fixed bytes plus the stored characters |
| Io.BinaryRecordEndsWithUuid | Identy/Identy_io.cxx:71 | the record ends with the 16 UUID bytes |
| Io.BinaryRecordOpensWithVendor | Identy/Identy_io.cxx:42-44 | the record opens with the vendor's size and the vendor |
| Io.BinaryRecordExExtendsBase | Identy/Identy_io.cxx:134-137 | the extended record begins with the base record and the drive count |
| Io.DrivesRecordLength | Identy/Identy_io.cxx:139-149 | the drives take the sum of their record sizes |
| Io.ReadCountedRoundTrip | Identy/Identy_io.cxx:42-44 | a stored string reads back with what follows it |
| Io.DriveRecordRoundTrip | Identy/Identy_io.cxx:140-148 | a drive record reads back as its bus type, name and serial |
| Io.BusLabel | Identy/Identy_io.cxx:106-119 | "Unknown" is printed exactly for the buses other than SATA, NVMe and USB |
| Io.DriveNumberAsWrittenSkips | Identy/Identy_io.cxx:101 | as written, the headings are 0, 2, 4, … and never 1 |
| Io.DriveNumbersCount | Identy/Identy_io.cxx:98-101 | the drives are headed 1 to k, increasing |
| Io.PutTextReport | Identy/Identy_io.cxx:10-33 | `write_text_common` emits the CPU lines, then the SMBIOS lines |
| Io.WriteText | Identy/Identy_io.cxx:75-82 | a good stream receives the report; a failed one is untouched |
| Io.PutDrive | Identy/Identy_io.cxx:99-119 | one drive's heading, device, serial and bus lines; the heading uses the corrected number `i + 1`, not the `i + i` the code prints (see Findings) |
| Io.PutDrivesSection | Identy/Identy_io.cxx:92-120 | the section header, then the no-drives line or every drive's lines in order, numbered 1, 2, … as corrected (see Findings) |
| Io.WriteTextEx | Identy/Identy_io.cxx:84-121 | a good stream receives the report and the drives section with the corrected drive numbers (see Findings); a failed one is untouched |
| Io.TextReportShowsUuid | Identy/Identy_io.cxx:19-24 | the UUID line follows the CPU lines and "Motherboard:" |
| Io.DriveLinesInOrder | Identy/Identy_io.cxx:98-120 | drive i's lines appear after those of the drives before it |
| Io.TextReportExNoDrives | Identy/Identy_io.cxx:92-96 | with no drives the report ends with the no-drives line |
| Io.HashWriteAsWritten | Identy/Identy_io.hxx:55-76 | as written, the stream either keeps its content or receives the hash |
| Io.WriteHashAsWritten | Identy/Identy_io.hxx:55-76 | the tellp, seekp and compare steps, as written, leave what `HashWriteAsWritten` describes |
| Io.FreshStreamGetsNothing | Identy/Identy_io.hxx:64-73 | as written, a fresh string stream receives nothing and is left failed |
| Io.NearStartGetsNothing | Identy/Identy_io.hxx:64-73 | as written, a put position at most 2 receives nothing |
| Io.HashWrite | Identy/Identy_io.hxx:55-76 | the evidently intended behaviour (see Findings): a good stream receives the hash bytes at its put position; a failed one is untouched |
| Io.FreshStreamGetsHash | Identy/Identy_io.hxx:55-76 | a fresh stream ends up holding exactly the hash |
| Io.AsWrittenAgreesPastTwo | Identy/Identy_io.hxx:62-75 | past position 2 the code as written does what was intended |
| Io.WriteHash | Identy/Identy_io.hxx:55-76 | the corrected writer: the stream's new state is `HashWrite` of its old one |
| Io.WriteHashOf | Identy/Identy_io.hxx:41-46 | the board's default hash is written by the corrected writer |
| Io.WriteHashExOf | Identy/Identy_io.hxx:48-53 | the extended board's default hash is written by the corrected writer |
| SmbiosTables.CStringLength | Identy/Identy_vm.cxx:154 | the length covers only non-NUL bytes and stops at a NUL or the end |
| SmbiosTables.StringPos | Identy/Identy_vm.cxx:153-155 | the string walk only moves forward |
| SmbiosTables.StringSet | Identy/Identy_vm.cxx:179-190 | a string set ends with a NUL and is at least two bytes long |
| SmbiosTables.CStringOf | Identy/Identy_vm.cxx:154 | a stored NUL-free string reads back as itself |
| SmbiosTables.JoinedLookup | Identy/Identy_vm.cxx:145-158 | string k of a stored set is the k-th string, or empty past the last |
| SmbiosTables.StringSetLookup | Identy/Identy_vm.cxx:145-158 | the same for a string set laid out as DSP0134 section 6.1.3 lays it out |
| SmbiosTables.Terminator | Identy/Identy_vm.cxx:180-184 | the scan stops at the first `00 00` at or after its start, or at the end of the table |
| SmbiosTables.TerminatorIsFirst | Identy/Identy_vm.cxx:182-184 | a `00 00` at or after the start bounds the scan, which stops inside the table |
| SmbiosTables.SkipStrings | Identy/Identy_vm.cxx:180-184 | the loop stops where `Terminator` says |
| VmConfidence.CalculateConfidence | Identy/Identy_vm.cxx:333-372 | the loop's tally and decision give the confidence of the detections |
| VmConfidence.ClassifyBoundaries | Identy/Identy_vm.cxx:355-371 | the threshold cases: one critical flag, two strong, one strong or three medium, one medium or two weak |
| VmConfidence.ClassifyMonotone | Identy/Identy_vm.cxx:355-371 | more counted evidence never lowers the decision |
| VmConfidence.ConfidenceMonotone | Identy/Identy_vm.cxx:333-372 | appending detections never lowers the confidence |
| VmConfidence.TalliesCritical | Identy/Identy_vm.cxx:338-353 | the critical mark is set exactly when some detection is critical |
| VmConfidence.CriticalMeansDefinitely | Identy/Identy_vm.cxx:349-357 | any critical detection makes the verdict "DefinitelyVM" |
| VmConfidence.TalliesAllWeak | Identy/Identy_vm.cxx:338-353 | only weak detections exactly when no medium, strong or critical one is counted |
| VmConfidence.UnlikelyExactly | Identy/Identy_vm.cxx:355-371 | "Unlikely" exactly when there is at most one detection and it is weak |
| Vm.ToLower | Identy/Identy_vm.cxx:76-79 | ASCII capitals become lower-case; every other character stays |
| Vm.SearchICase | Identy/Identy_vm.cxx:95 | the first case-insensitive match at or after the start, or the end when there is none |
| Vm.ContainsICase | Identy/Identy_vm.cxx:86-97 | true exactly when the needle occurs ignoring ASCII case; the empty needle always occurs |
| Vm.ContainsICaseFolds | Identy/Identy_vm.cxx:81-84 | changing the case of either side does not change the answer |
| Vm.HeuristicVerdict.constructor | Identy/Identy_vm.cxx:274 | a new verdict has no detections and "Unlikely" |
| Vm.HeuristicVerdict.Push | Identy/Identy_vm.cxx:108 | a push appends exactly one flag and changes nothing else |
| Vm.CheckNetworkAdapters | Identy/Identy_vm.cxx:102-140 | the verdict receives exactly the adapter flags |
| Vm.AdapterCounts | Identy/Identy_vm.cxx:112-131 | the virtual count is at most the total; each is positive exactly when a matching adapter exists |
| Vm.NetworkFlagsMeaning | Identy/Identy_vm.cxx:102-140 | a refused listing reports that alone; "present" means some adapter is virtual; "only" means every counted one is |
| Vm.GetSmbiosString | Identy/Identy_vm.cxx:145-158 | the loop returns the structure's string of that number |
| Vm.NextStructure | Identy/Identy_vm.cxx:179-190 | the next structure starts after a `00 00`, further on in the table |
| Vm.GetSmbiosManufacturer | Identy/Identy_vm.cxx:160-194 | the loop returns the table's manufacturer |
| Vm.WalkSteps | Identy/Identy_vm.cxx:168-191 | the walk starts at the first structure and each step goes past the next string set |
| Vm.LastNamerMeaning | Identy/Identy_vm.cxx:171-177 | no manufacturer exactly when no visited structure names one; otherwise the last naming one is found |
| Vm.LastManufacturer | Identy/Identy_vm.cxx:168-191 | the walk's result is the string of the last visited structure that names a manufacturer |
| Vm.ManufacturerIsLastNamed | Identy/Identy_vm.cxx:160-194 | the manufacturer is empty when none is named, else the last named structure's string |
| Vm.CheckSmbios | Identy/Identy_vm.cxx:221-240 | the verdict receives exactly the SMBIOS flags |
| Vm.UuidFlags | Identy/Identy_vm.cxx:232-239 | a zero UUID pushes "suspicious" then "totally zeroed"; any other UUID pushes neither |
| Vm.CheckDrive | Identy/Identy_vm.cxx:242-266 | the verdict receives the drive's flags; the count rises exactly for a known VM product |
| Vm.DriveFlagsMeaning | Identy/Identy_vm.cxx:242-266 | each drive flag is pushed exactly under its own condition |
| Vm.DriveCounts | Identy/Identy_vm.cxx:386-393 | each count reaches the number of drives exactly when every drive qualifies |
| Vm.CheckMbCommon | Identy/Identy_vm.cxx:271-295 | a new verdict holding the CPU, SMBIOS and adapter flags, in that order |
| Vm.DefaultHeuristic | Identy/Identy_vm.cxx:374-380 | the common flags and their confidence |
| Vm.CheckDrives | Identy/Identy_vm.cxx:386-389 | every drive's flags in order, and the count of known VM products |
| Vm.CountVirtualBuses | Identy/Identy_vm.cxx:391-393 | the number of drives on a virtual bus; all of them exactly when every drive is |
| Vm.DefaultHeuristicEx | Identy/Identy_vm.cxx:382-406 | the common flags, the drive flags and the two all-drives flags, with their confidence |
| Vm.HyperVIsolationExclusive | Identy/Identy_vm.cxx:276-289 | Hyper-V isolation is reported exactly when `is_hvci` holds, and never with the CPU flags |
| Vm.AllVirtualDrivesAreDefinite | Identy/Identy_vm.cxx:395-403 | all drives on virtual buses, or all known VM products, make the verdict "DefinitelyVM" |
| Hwid.UuidAt | Identy/Identy_hwid.cxx:67-71 | the 16 bytes at offset 8, when they lie in the table |
| Hwid.Records | Identy/Identy_hwid.cxx:63-82 | every structure the walk reaches has a readable header |
| Hwid.UuidFromQualifies | Identy/Identy_hwid.cxx:63-82 | a UUID found is that of a qualifying structure at or after the start of the search |
| Hwid.UuidOfFirstQualifying | Identy/Identy_hwid.cxx:63-84 | the UUID comes from the first qualifying structure, and there is none without one |
| Hwid.GetSmbiosUuidImpl | Identy/Identy_hwid.cxx:55-85 | the result is the UUID the walk finds, or empty |
| Hwid.CopyBytes | Identy/Identy_hwid.cxx:69-71 | the 16 bytes are copied in order |
| Hwid.GetSmbiosUuid | Identy/Identy_hwid.cxx:94-102 | no table gives no UUID; otherwise the table's UUID, as the corrected 16 bytes without the leading zeros of the code as written (see Findings) |
| Hwid.UuidResizeAsWritten | Identy/Identy_hwid.cxx:60-71 | as written, a found UUID comes after as many zero bytes as the table is long |
| Hwid.ScanOverreadsAsWritten | Identy/Identy_hwid.cxx:76-79 | as written, the terminator scan reads one byte past a table missing its final NUL |
| Hwid.ScanReads | Identy/Identy_hwid.cxx:76-79 | with the corrected guard every byte read lies in the table |
| PlatformWindows.RsmbData | Identy/Platform/Identy_hwid_pltimpl_windows.cxx:36-57 | a short buffer gives empty data; otherwise the four header bytes, and the table only when it fits |
| PlatformWindows.GetSmbiosWin32 | Identy/Platform/Identy_hwid_pltimpl_windows.cxx:29-57 | the method returns what `RsmbData` describes |
| PlatformWindows.RsmbRoundTrip | Identy/Platform/Identy_hwid_pltimpl_windows.cxx:41-54 | a buffer built from raw data decodes back to it, whatever follows the table |
| PlatformWindows.NvmeSerial | Identy/Platform/Identy_hwid_pltimpl_windows.cxx:59-112 | empty on a failed query or an out-of-range offset; otherwise the 20 serial bytes |
| PlatformWindows.NvmeSerialBytes | Identy/Platform/Identy_hwid_pltimpl_windows.cxx:97-111 | the serial is the SN field at the announced data offset |
| PlatformWindows.BusTypeOf | Identy/Platform/Identy_hwid_pltimpl_windows.cxx:142-158 | NVMe, SATA and USB exactly for their codes, Other for every other code |
| PlatformWindows.DescriptorCopy | Identy/Platform/Identy_hwid_pltimpl_windows.cxx:139-140 | the descriptor holds the answer's first bytes, zero beyond what was returned |
| PlatformWindows.DriveInfo | Identy/Platform/Identy_hwid_pltimpl_windows.cxx:114-176 | a record exactly when the device answered, with its name, its bus and the trimmed serial |
| PlatformWindows.DriveInfoShape | Identy/Platform/Identy_hwid_pltimpl_windows.cxx:142-169 | a Windows drive is never on a virtual, SCSI, ATA or SAS bus, and its serial is trimmed |
| PlatformWindows.PhysicalDrives | Identy/Platform/Identy_hwid_pltimpl_windows.cxx:194-196 | exactly the names starting with "PhysicalDrive" are kept |
| PlatformWindows.ListPhysicalDrives | Identy/Platform/Identy_hwid_pltimpl_windows.cxx:188-199 | the walk keeps the listed names starting with "PhysicalDrive", in order |
| PlatformWindows.DeviceNamesOfList | Identy/Platform/Identy_hwid_pltimpl_windows.cxx:190-199 | a list written as NUL-closed names plus a final NUL walks back to those names |
| PlatformWindows.DriveInfos | Identy/Platform/Identy_hwid_pltimpl_windows.cxx:201-207 | at most one record per name, each for a listed name |
| PlatformWindows.CollectDriveInfos | Identy/Platform/Identy_hwid_pltimpl_windows.cxx:201-207 | the loop keeps the drives that answered, in order |
| PlatformWindows.ListDrivesWin32 | Identy/Platform/Identy_hwid_pltimpl_windows.cxx:178-210 | an empty answer gives no drives; otherwise every drive found is a "PhysicalDrive" device |
| PlatformLinux.GetSmbiosEntryType | Identy/Platform/Identy_hwid_pltimpl_linux.cxx:12-22 | 32-bit exactly for the "_SM_" anchor, 64-bit exactly for "_SM3_" |
| PlatformLinux.EntryVersions | Identy/Platform/Identy_hwid_pltimpl_linux.cxx:39-60 | the version bytes at the place each entry point holds them; none for an unknown anchor |
| PlatformLinux.SmbiosVersions | Identy/Platform/Identy_hwid_pltimpl_linux.cxx:24-61 | with the file read in as corrected (see Findings): no file or an unrecognised entry point keeps the versions; a recognised entry point supplies them |
| PlatformLinux.SmbiosVersionsNeverReadAsWritten | Identy/Platform/Identy_hwid_pltimpl_linux.cxx:36-39 | as written, the versions never change, even for a valid entry point |
| PlatformLinux.FirstLine | Identy/Platform/Identy_hwid_pltimpl_linux.cxx:95 | `getline` gives the prefix up to the first line feed |
| PlatformLinux.ReadSysfsValue | Identy/Platform/Identy_hwid_pltimpl_linux.cxx:86-100 | a missing file gives ""; a value never begins or ends with whitespace |
| PlatformLinux.SysfsValueIsOneLine | Identy/Platform/Identy_hwid_pltimpl_linux.cxx:93-97 | a value is a piece of the file's first line and holds no line feed |
| PlatformLinux.SdBusType | Identy/Platform/Identy_hwid_pltimpl_linux.cxx:121-140 | SATA exactly for "scsi" and "ata", USB exactly for "usb", else Other |
| PlatformLinux.LinuxDriveInfo | Identy/Platform/Identy_hwid_pltimpl_linux.cxx:107-152 | a record exactly for unskipped "nvme…" and "sd…" devices, on NVMe exactly for "nvme…", with the serial file each reads; the device name is kept, as corrected (see Findings) |
| PlatformLinux.DeviceNameLostAsWritten | Identy/Platform/Identy_hwid_pltimpl_linux.cxx:113-152 | as written, every record's device name is empty, so devices differing only in name look alike |
| PlatformLinux.LinuxDrivesShape | Identy/Platform/Identy_hwid_pltimpl_linux.cxx:102-156 | each drive found is a listed, unskipped device, never on a virtual, SCSI, ATA or SAS bus; the device name is kept, as corrected (see Findings) |
| PlatformLinux.ListDrivesLinux | Identy/Platform/Identy_hwid_pltimpl_linux.cxx:102-156 | the loop returns the directory's drives in directory order |

## Left out

- The operating-system calls are not modelled. Their answers are parameters of the operations:
  - `GetSystemFirmwareTable`;
  - `CreateFileA` and `DeviceIoControl`;
  - `QueryDosDeviceA`;
  - the `/sys/block` directory iterator, `exists`, `read_symlink` and the sysfs files;
  - `list_network_adapters`.
- Two CPUID layers are not part of this model: CPUID itself (`snap_cpu`) and the platform VM layer (`Identy_vm_pltimpl_*.cxx`). The CPU data and the adapter list are inputs.
- CryptoAPI is not modelled. Its success or failure is an input, and on success the model takes the FIPS 180-4 SHA-256 as its result.
- `get_smbios_win32` in Identy/Identy_hwid.cxx ends without returning a value, which is undefined behaviour. The model therefore takes the table `get_smbios_uuid` looks at as an input (`Hwid.GetSmbiosUuid`).
- `get_smbios_linux` (both files): the reading of `/sys/firmware/dmi/tables/DMI` is file I/O and is not modelled.
- The reading of the entry-point file in `get_smbios_versions` is not modelled. `PlatformLinux.SmbiosVersions` takes the file's bytes as an input.
- Unchecked memory reads in the SMBIOS walkers are modelled as checked reads. A header, string or terminator read that would leave the table ends the walk; the source reads past the table there.
- PlatformWindows.DriveInfo: the serial number is read as a checked C string that ends at the buffer's end. The source's `std::string(serial_ptr)` reads past the 1024-byte output buffer when no NUL follows the serial; that read is not modelled.
- Io.PutDrive, Io.PutDrivesSection, Io.WriteTextEx: model the corrected drive heading `i + 1` (`Io.DriveNumber`), not the `i + i` that Identy/Identy_io.cxx:101 prints; `Io.DriveNumberAsWrittenSkips` states the code as written.
- Io.HashWrite, Io.WriteHash, Io.WriteHashOf, Io.WriteHashExOf: model the intended write on any good stream. As written, the `seekp(std::ios::end)` check writes nothing on a fresh stream or at a put position of 2 or less; `Io.HashWriteAsWritten` and `Io.WriteHashAsWritten` state that behaviour.
- Hwid.GetSmbiosUuid: returns the corrected 16 UUID bytes, not the table-length run of zeros followed by the UUID that the code as written returns (`Hwid.UuidResizeAsWritten`).
- PlatformLinux.LinuxDriveInfo, PlatformLinux.LinuxDrivesShape: keep the directory entry's name as the device name, which the Linux source never assigns (`PlatformLinux.DeviceNameLostAsWritten`).
- Snapshot.BusOrdinal, Io.CpuRecord, Io.BinaryRecordLength: the field widths and the `BusType` order are taken from the library's design description, not from a header. The description gives `version` as a 32-bit word and `logical_processors_count` as an integer; the model makes both 32-bit words, written as 4 little-endian bytes and printed in decimal. It also gives `hypervisor_bit`, `extended_modern` as three words, and the enumerators in the order SATA, NMVe, USB, Virtual, SCSI, ATA, SAS, Other. The only `Cpu` declaration in the repository, Identy/Identy_hwid.hxx:33-36, is an older revision with 8-bit `version` and `logical_processors_count`, no `hypervisor_bit` and a one-word `extended_modern`. Under that declaration the CPU record would not be 43 bytes and the fixed part of the binary record would not be 63 bytes.
- HashBase.Memcmp, HashBase.Compare: return only the sign of `std::memcmp` (-1, 0 or 1). The C library may return any negative or positive value.
- The `int` counters of `check_network_adapters` and `DefaultHeuristicEx` are unbounded in the model. They cannot overflow for any realistic adapter or drive list.
- The sizes written by `write_binary` are truncated to 32 bits, as in the source. The round-trip lemmas assume strings shorter than 2^32.
- Only the default hash functors are modelled, not user-supplied ones behind the `IdentyHashFn` concepts. Hash widths other than 16, 32 and 64 bytes are covered only by the width check.
- Streams are in-memory buffers, which always have room. Output-device errors other than a stream that is already failed are not modelled.
- `PlatformLinux.ReadSysfsValue` does not model a file that exists but cannot be opened. The source reads "" from such a file.
- Concurrency and exceptions are not modelled; the library has no shared state.

## Findings

| source | as written | input that shows it | evidently intended | confidence | as-written member | corrected member |
|---|---|---|---|---|---|---|
| Identy/Identy_io.hxx:64-71 | `seekp(std::ios::end)` seeks to absolute position 2 (the enumerator's value), so `space` is not the room left | a fresh `std::ostringstream`: the seek fails the stream and nothing is written | write the hash at the put position of any good stream | high, not executed | Io.FreshStreamGetsNothing | Io.FreshStreamGetsHash |
| Identy/Identy_io.cxx:101 | the drive heading prints `i + i` | a list of two drives is headed "Drive 0" and "Drive 2" | number the drives 1, 2, … (`i + 1`) | high, not executed | Io.DriveNumberAsWrittenSkips | Io.DriveNumbersCount |
| Identy/Identy_hwid.cxx:60-71 | `buffer.resize(table length)` and then `emplace_back` of the UUID bytes | any table with a qualifying System Information structure: the result is that many zeros followed by the UUID | return exactly the 16 UUID bytes | high, not executed | Hwid.UuidResizeAsWritten | Hwid.GetSmbiosUuidImpl |
| Identy/Identy_hwid.cxx:77 | the scan guard `next < end` lets `*(next + 1)` read one byte past the table | the table `02 04 00 00 07 00`: the scan from offset 4 reads offset 6 | guard with `next + 1 < end`, as Identy/Identy_vm.cxx:182 does | high, not executed | Hwid.ScanOverreadsAsWritten | Hwid.ScanReads |
| Identy/Platform/Identy_hwid_pltimpl_linux.cxx:113-152 | `info.device_name` is never assigned | any "sda" or "nvme0n1" device: its record has an empty name | set the name to the directory entry's name, as the Windows layer does | medium, not executed | PlatformLinux.DeviceNameLostAsWritten | PlatformLinux.ListDrivesLinux |
| Identy/Platform/Identy_hwid_pltimpl_linux.cxx:36-39 | the buffer is resized to the file size but never read, so the anchor is looked for in zeros | a 32-bit entry point `_SM_ 00 1f 03 04` leaves the versions unchanged instead of 3.4 | read the file into the buffer before classifying it | high, not executed | PlatformLinux.SmbiosVersionsNeverReadAsWritten | PlatformLinux.SmbiosVersions |
