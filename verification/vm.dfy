/** The checks of the virtual-machine heuristic (Identy/Identy_vm.cxx):
    each looks at one part of the snapshot and pushes the flags it finds onto
    the verdict, and the default heuristics run them in a fixed order and
    score the result. The list of network adapters and whether listing them
    was refused are inputs here: the operating-system query that produces
    them is not part of this model. */
module Vm {
  import opened Bytes
  import opened Snapshot
  import opened SmbiosTables
  import opened VmConfidence

  /** `microsoft_hyperv_sig`. */
  const MicrosoftHvSignature: string := "Microsoft Hv"

  /** `known_hypervisor_signatures`. */
  const KnownHypervisorSignatures: seq<string> :=
    ["KVM", "KVMKVMKVM", "VMwareVMware", "VBoxVBoxVBox", "TCGTCGTCG", "ACRNACRN", "bhyve bhyve", "Xen", MicrosoftHvSignature]

  /** `known_vm_manufacturers`. */
  const KnownVmManufacturers: seq<string> :=
    ["innotek GmbH", "Oracle", "VMware, Inc.", "QEMU", "Xen", "Microsoft Corporation", "Parallels"]

  /** `known_vm_network_adapters`. */
  const KnownVmNetworkAdapters: seq<string> :=
    ["vmware", "vmxnet", "vmnet", "virtualbox", "vbox", "hyper-v", "microsoft hyper-v", "virtio", "red hat virtio",
     "xennet", "xen", "parallels"]

  /** `known_vm_drives_products`. */
  const KnownVmDriveProducts: seq<string> :=
    ["VBOX", "VMWARE", "QEMU", "VIRTUAL", "XEN", "KVM", "RED HAT", "VIRTIO", "MSFT", "MICROSOFT VIRTUAL"]

  /** `suspiciuos_buses`. */
  const UncommonBuses: seq<BusType> := [SAS, Scsi, ATA]

  /** `SMBIOS_type_system_manufacturer`: structure type 1, System Information
      (DSP0134 section 7.2). */
  const SystemInformationType: Byte := 1

  /** `SMBIOS_system_manufacturer_offset`: the Manufacturer string number. */
  const ManufacturerOffset: nat := 4

  // ---------------------------------------------------------------------
  // Case-insensitive search

  /** `ctolower`: ASCII upper-case letters become lower-case, nothing else
      changes. */
  function ToLower(c: char): (r: char)
    ensures 'A' <= c <= 'Z' ==> r as int == c as int + 32
    ensures !('A' <= c <= 'Z') ==> r == c
  {
    if 'A' <= c <= 'Z' then (c as int + 32) as char else c
  }

  /** `char_equal_icase`. */
  predicate CharEqualICase(a: char, b: char) {
    ToLower(a) == ToLower(b)
  }

  /** `sub` matches `s` at offset `i`, ignoring ASCII case. */
  predicate MatchesAtICase(s: string, sub: string, i: nat)
    requires i + |sub| <= |s|
  {
    forall j :: 0 <= j < |sub| ==> CharEqualICase(s[i + j], sub[j])
  }

  /** `std::search` with `char_equal_icase`, from offset `from`: the first
      offset where `sub` matches, or `|s|` (the end) when there is none. */
  function SearchICase(s: string, sub: string, from: nat): (r: nat)
    ensures r == |s| || (from <= r && r + |sub| <= |s| && MatchesAtICase(s, sub, r))
    ensures forall i :: from <= i < r && i + |sub| <= |s| ==> !MatchesAtICase(s, sub, i)
    decreases |s| - from
  {
    if from + |sub| > |s| then |s|
    else if MatchesAtICase(s, sub, from) then from
    else SearchICase(s, sub, from + 1)
  }

  /** `contains_icase`: whether `sub` occurs in `s`, ignoring ASCII case. An
      empty `sub` always occurs and one longer than `s` never does. */
  function ContainsICase(s: string, sub: string): (r: bool)
    ensures sub == [] ==> r
    ensures |sub| > |s| ==> !r
    ensures r <==> exists i :: 0 <= i && i + |sub| <= |s| && MatchesAtICase(s, sub, i)
  {
    if sub == [] then
      assert MatchesAtICase(s, sub, 0);
      true
    else if |sub| > |s| then false
    else SearchICase(s, sub, 0) != |s|
  }

  /** Case does not matter on either side: a text and a needle match where
      their lower-case forms do. */
  lemma ContainsICaseFolds(s: string, sub: string, s': string, sub': string)
    requires |s| == |s'| && forall i :: 0 <= i < |s| ==> ToLower(s[i]) == ToLower(s'[i])
    requires |sub| == |sub'| && forall i :: 0 <= i < |sub| ==> ToLower(sub[i]) == ToLower(sub'[i])
    ensures ContainsICase(s, sub) == ContainsICase(s', sub')
  {
    forall i | 0 <= i && i + |sub| <= |s| ensures MatchesAtICase(s, sub, i) == MatchesAtICase(s', sub', i) {
    }
  }

  // ---------------------------------------------------------------------
  // The verdict

  /** `identy::vm::HeuristicVerdict`: the flags found so far, in the order
      they were pushed, and the confidence. */
  class HeuristicVerdict {
    var detections: seq<VMFlag>
    var confidence: VMConfidence

    /** A value-initialised verdict: no detections, the first confidence. */
    constructor ()
      ensures detections == [] && confidence == Unlikely
    {
      detections := [];
      confidence := Unlikely;
    }

    /** `detections.push_back(f)`. */
    method Push(f: VMFlag)
      modifies this
      ensures detections == old(detections) + [f] && confidence == old(confidence)
    {
      detections := detections + [f];
    }
  }

  // ---------------------------------------------------------------------
  // Network adapters

  /** One entry of the adapter list the platform layer returns. */
  datatype NetworkAdapter = NetworkAdapter(description: seq<Char8>, isLoopback: bool, isTunnel: bool)

  /** The description names a known virtual adapter, ignoring case. */
  predicate IsVirtualAdapter(a: NetworkAdapter) {
    exists k :: 0 <= k < |KnownVmNetworkAdapters| && ContainsICase(a.description, KnownVmNetworkAdapters[k])
  }

  /** An adapter `check_network_adapters` counts: every virtual one, and any
      other that is neither loopback nor tunnel. */
  predicate IsCounted(a: NetworkAdapter) {
    IsVirtualAdapter(a) || (!a.isLoopback && !a.isTunnel)
  }

  /** `virtual_adapters_count` after the loop. */
  function VirtualCount(adapters: seq<NetworkAdapter>): nat {
    if adapters == [] then 0
    else VirtualCount(adapters[..|adapters| - 1]) + (if IsVirtualAdapter(adapters[|adapters| - 1]) then 1 else 0)
  }

  /** `total_adapters_count` after the loop. */
  function TotalCount(adapters: seq<NetworkAdapter>): nat {
    if adapters == [] then 0
    else TotalCount(adapters[..|adapters| - 1]) + (if IsCounted(adapters[|adapters| - 1]) then 1 else 0)
  }

  /** What `check_network_adapters` pushes. */
  function NetworkFlags(adapters: seq<NetworkAdapter>, accessDenied: bool): seq<VMFlag> {
    if accessDenied then [PlatformAccessToNetworkDevicesDenied]
    else
      (if VirtualCount(adapters) > 0 then [PlatformVirtualNetworkAdaptersPresent] else [])
      + (if VirtualCount(adapters) == TotalCount(adapters) && TotalCount(adapters) > 0
         then [PlatformOnlyVirtualNetworkAdapters] else [])
  }

  /** `check_network_adapters`, given the adapter list and whether listing
      the adapters was refused. */
  method CheckNetworkAdapters(verdict: HeuristicVerdict, adapters: seq<NetworkAdapter>, accessDenied: bool)
    modifies verdict
    ensures verdict.detections == old(verdict.detections) + NetworkFlags(adapters, accessDenied)
    ensures verdict.confidence == old(verdict.confidence)
  {
    if accessDenied {
      verdict.Push(PlatformAccessToNetworkDevicesDenied);
      return;
    }
    var virtualCount, totalCount := 0, 0;
    for i := 0 to |adapters|
      invariant virtualCount == VirtualCount(adapters[..i]) && totalCount == TotalCount(adapters[..i])
    {
      assert adapters[..i + 1][..i] == adapters[..i];
      var adapter := adapters[i];
      if IsVirtualAdapter(adapter) {
        virtualCount := virtualCount + 1;
        totalCount := totalCount + 1;
      } else if !adapter.isLoopback && !adapter.isTunnel {
        totalCount := totalCount + 1;
      }
    }
    assert adapters[..|adapters|] == adapters;
    ghost var before := verdict.detections;
    if virtualCount > 0 {
      verdict.Push(PlatformVirtualNetworkAdaptersPresent);
    }
    if virtualCount == totalCount && totalCount > 0 {
      verdict.Push(PlatformOnlyVirtualNetworkAdapters);
    }
  }

  /** The counts against the list: some adapter is virtual, some is counted,
      and every counted one is virtual, exactly when the counts say so. */
  lemma {:induction false} AdapterCounts(adapters: seq<NetworkAdapter>)
    ensures VirtualCount(adapters) <= TotalCount(adapters)
    ensures VirtualCount(adapters) > 0 <==> exists i :: 0 <= i < |adapters| && IsVirtualAdapter(adapters[i])
    ensures TotalCount(adapters) > 0 <==> exists i :: 0 <= i < |adapters| && IsCounted(adapters[i])
    ensures VirtualCount(adapters) == TotalCount(adapters)
        <==> forall i :: 0 <= i < |adapters| && IsCounted(adapters[i]) ==> IsVirtualAdapter(adapters[i])
  {
    hide IsVirtualAdapter;
    if adapters != [] {
      var init, last := adapters[..|adapters| - 1], adapters[|adapters| - 1];
      AdapterCounts(init);
      assert forall i :: 0 <= i < |init| ==> init[i] == adapters[i];
      if exists i :: 0 <= i < |adapters| && IsVirtualAdapter(adapters[i]) {
        var i :| 0 <= i < |adapters| && IsVirtualAdapter(adapters[i]);
        assert i < |init| ==> IsVirtualAdapter(init[i]);
      }
      if exists i :: 0 <= i < |adapters| && IsCounted(adapters[i]) {
        var i :| 0 <= i < |adapters| && IsCounted(adapters[i]);
        assert i < |init| ==> IsCounted(init[i]);
      }
      if VirtualCount(adapters) == TotalCount(adapters) {
        forall i | 0 <= i < |adapters| && IsCounted(adapters[i]) ensures IsVirtualAdapter(adapters[i]) {
          if i < |init| {
            assert IsCounted(init[i]);
          }
        }
      }
    }
  }

  /** What the adapter check reports: a refused listing reports that alone;
      otherwise "present" means at least one adapter is virtual, and "only"
      means some adapter is counted and every counted adapter is virtual. */
  lemma NetworkFlagsMeaning(adapters: seq<NetworkAdapter>, accessDenied: bool)
    ensures accessDenied ==> NetworkFlags(adapters, accessDenied) == [PlatformAccessToNetworkDevicesDenied]
    ensures !accessDenied ==> PlatformAccessToNetworkDevicesDenied !in NetworkFlags(adapters, accessDenied)
    ensures !accessDenied ==>
      ((PlatformVirtualNetworkAdaptersPresent in NetworkFlags(adapters, accessDenied))
       <==> (exists i :: 0 <= i < |adapters| && IsVirtualAdapter(adapters[i])))
    ensures !accessDenied ==>
      ((PlatformOnlyVirtualNetworkAdapters in NetworkFlags(adapters, accessDenied))
       <==> ((exists i :: 0 <= i < |adapters| && IsCounted(adapters[i]))
             && (forall i :: 0 <= i < |adapters| && IsCounted(adapters[i]) ==> IsVirtualAdapter(adapters[i]))))
  {
    AdapterCounts(adapters);
  }

  // ---------------------------------------------------------------------
  // The SMBIOS manufacturer

  /** `get_smbios_string`, walking the string set one string at a time. */
  method GetSmbiosString(b: seq<Byte>, at: nat, index: Byte) returns (s: seq<Char8>)
    requires at + LengthOffset < |b|
    ensures s == SmbiosString(b, at, index)
  {
    hide CString, StringPos, CStringLength, BytesText;
    if index == 0 {
      return [];
    }
    var p: nat := at + b[at + LengthOffset] as int;
    var r: nat := index as int - 1;
    ghost var start, skip := p, r;
    assert SmbiosString(b, at, index) == CString(b, StringPos(b, start, skip));
    hide *;
    while r > 0 && p < |b| && b[p] != 0
      invariant StringPos(b, p, r) == StringPos(b, start, skip)
      decreases r
    {
      StringPosStep(b, p, r);
      p := p + CStringLength(b, p) + 1;
      r := r - 1;
    }
    StringPosStep(b, p, r);
    s := CString(b, p);
  }

  /** The structure at `pos` can be looked at: its `length` byte, and for a
      System Information structure its manufacturer byte, lie in the table. */
  predicate Readable(b: seq<Byte>, pos: nat) {
    pos + LengthOffset < |b| && (b[pos] == SystemInformationType ==> pos + ManufacturerOffset < |b|)
  }

  /** Where the walk goes after the structure at `pos`: two bytes past the
      first `00 00` at or after the end of its formatted area, unless no
      such terminator fits before the end of the table. */
  function NextStructure(b: seq<Byte>, pos: nat): (r: Option<nat>)
    requires pos + LengthOffset < |b|
    ensures r.Some? ==> pos < r.value <= |b| && DoubleNul(b, r.value - 2)
  {
    var next := Terminator(b, pos + b[pos + LengthOffset] as int);
    if next + 2 > |b| then None else Some(next + 2)
  }

  /** The structure at `pos` is a System Information structure with a
      manufacturer string. */
  predicate NamesManufacturer(b: seq<Byte>, pos: nat) {
    pos + ManufacturerOffset < |b| && b[pos] == SystemInformationType && b[pos + ManufacturerOffset] != 0
  }

  /** The manufacturer `get_smbios_manufacturer` ends with when it reaches
      the structure at `pos` holding `cur`. */
  function ManufacturerFrom(b: seq<Byte>, pos: nat, cur: seq<Char8>): seq<Char8>
    decreases |b| - pos
  {
    if !Readable(b, pos) then cur
    else
      var cur' := if NamesManufacturer(b, pos) then SmbiosString(b, pos, b[pos + ManufacturerOffset]) else cur;
      match NextStructure(b, pos)
      case None => cur'
      case Some(next) => ManufacturerFrom(b, next, cur')
  }

  /** The manufacturer string of a structure table. */
  function Manufacturer(b: seq<Byte>): seq<Char8> {
    ManufacturerFrom(b, 0, [])
  }

  /** One step of `ManufacturerFrom`, in terms of the bytes the loop of
      `get_smbios_manufacturer` tests. */
  lemma ManufacturerStep(b: seq<Byte>, pos: nat, cur: seq<Char8>)
    ensures pos + LengthOffset >= |b| ==> ManufacturerFrom(b, pos, cur) == cur
    ensures pos + LengthOffset < |b| && b[pos] == SystemInformationType && pos + ManufacturerOffset >= |b| ==>
      ManufacturerFrom(b, pos, cur) == cur
    ensures pos + LengthOffset < |b| && !(b[pos] == SystemInformationType && pos + ManufacturerOffset >= |b|) ==>
      var cur' := if b[pos] == SystemInformationType && b[pos + ManufacturerOffset] != 0
        then SmbiosString(b, pos, b[pos + ManufacturerOffset]) else cur;
      var next := Terminator(b, pos + b[pos + LengthOffset] as int);
      ManufacturerFrom(b, pos, cur) == if next + 2 > |b| then cur' else ManufacturerFrom(b, next + 2, cur')
  {
    hide SmbiosString, Terminator;
  }

  /** The walk starts at offset 0 with no manufacturer. */
  lemma ManufacturerStart(b: seq<Byte>)
    ensures Manufacturer(b) == ManufacturerFrom(b, 0, [])
  {
  }

  /** `get_smbios_manufacturer`: walk the structures and keep the
      manufacturer string of each System Information structure that names
      one. */
  method GetSmbiosManufacturer(raw: seq<Byte>) returns (manufacturer: seq<Char8>)
    ensures manufacturer == Manufacturer(raw)
  {
    hide *;
    ManufacturerStart(raw);
    var pos := 0;
    manufacturer := [];
    while pos < |raw|
      invariant ManufacturerFrom(raw, pos, manufacturer) == Manufacturer(raw)
      decreases |raw| - pos
    {
      ManufacturerStep(raw, pos, manufacturer);
      if pos + LengthOffset >= |raw| {
        break;
      }
      if raw[pos] == SystemInformationType {
        if pos + ManufacturerOffset >= |raw| {
          break;
        }
        if raw[pos + ManufacturerOffset] != 0 {
          manufacturer := GetSmbiosString(raw, pos, raw[pos + ManufacturerOffset]);
        }
      }
      var next := SkipStrings(raw, pos + raw[pos + LengthOffset] as int);
      if next + 2 > |raw| {
        break;
      }
      pos := next + 2;
    }
    ManufacturerStep(raw, pos, manufacturer);
  }

  /** The structures the walk visits from `pos`, in order. */
  function Walk(b: seq<Byte>, pos: nat): (w: seq<nat>)
    ensures forall i :: 0 <= i < |w| ==> Readable(b, w[i])
    decreases |b| - pos
  {
    if !Readable(b, pos) then []
    else
      match NextStructure(b, pos)
      case None => [pos]
      case Some(next) => [pos] + Walk(b, next)
  }

  /** The walk `w` steps from its `i`-th structure to its next one two
      bytes past the first `00 00` at or after the end of the formatted
      area. */
  predicate StepsFrom(b: seq<Byte>, w: seq<nat>, i: nat) {
    i + 1 < |w| && w[i] + LengthOffset < |b|
    && w[i + 1] == Terminator(b, w[i] + b[w[i] + LengthOffset] as int) + 2
  }

  /** One step of the walk: where it goes after `pos`. */
  lemma WalkUnfold(b: seq<Byte>, pos: nat)
    ensures !Readable(b, pos) ==> Walk(b, pos) == []
    ensures Readable(b, pos) && NextStructure(b, pos).None? ==> Walk(b, pos) == [pos]
    ensures Readable(b, pos) && NextStructure(b, pos).Some? ==>
      var next := NextStructure(b, pos).value;
      next == Terminator(b, pos + b[pos + LengthOffset] as int) + 2 && Walk(b, pos) == [pos] + Walk(b, next)
  {
  }

  /** The walk starts at `pos`, and every step of it goes where the
      terminator scan says. */
  lemma {:induction false} WalkSteps(b: seq<Byte>, pos: nat)
    ensures Walk(b, pos) != [] ==> Walk(b, pos)[0] == pos
    ensures forall i :: 0 <= i < |Walk(b, pos)| - 1 ==> StepsFrom(b, Walk(b, pos), i)
    decreases |b| - pos
  {
    WalkUnfold(b, pos);
    hide Walk, NextStructure, Terminator, SmbiosString, ManufacturerFrom, LastNamer;
    if Readable(b, pos) && NextStructure(b, pos).Some? {
      var w := Walk(b, pos);
      var next := NextStructure(b, pos).value;
      var rest := Walk(b, next);
      WalkSteps(b, next);
      forall i | 0 <= i < |w| - 1 ensures StepsFrom(b, w, i) {
        if i > 0 {
          assert StepsFrom(b, rest, i - 1);
          assert w[i] == rest[i - 1] && w[i + 1] == rest[i];
        }
      }
    }
  }

  /** The last of the structures `w` that names a manufacturer, if any. */
  function LastNamer(b: seq<Byte>, w: seq<nat>): (r: Option<nat>)
    ensures r.Some? ==> NamesManufacturer(b, r.value)
  {
    if w == [] then None
    else match LastNamer(b, w[1..])
      case Some(p) => Some(p)
      case None => if NamesManufacturer(b, w[0]) then Some(w[0]) else None
  }

  /** `LastNamer` finds nothing exactly when no structure names a
      manufacturer, and otherwise one that no later structure follows up. */
  lemma {:induction false} LastNamerMeaning(b: seq<Byte>, w: seq<nat>)
    ensures LastNamer(b, w).None? <==> forall i :: 0 <= i < |w| ==> !NamesManufacturer(b, w[i])
    ensures LastNamer(b, w).Some? ==>
      exists i :: 0 <= i < |w| && w[i] == LastNamer(b, w).value
        && forall j :: i < j < |w| ==> !NamesManufacturer(b, w[j])
  {
    hide NamesManufacturer;
    if w != [] {
      var rest := w[1..];
      LastNamerMeaning(b, rest);
      assert forall j :: 0 <= j < |rest| ==> rest[j] == w[j + 1];
      if LastNamer(b, rest).Some? {
        var i :| 0 <= i < |rest| && rest[i] == LastNamer(b, rest).value
          && forall j :: i < j < |rest| ==> !NamesManufacturer(b, rest[j]);
        assert w[i + 1] == LastNamer(b, w).value;
        assert forall j :: i + 1 < j < |w| ==> !NamesManufacturer(b, w[j]) by {
          forall j | i + 1 < j < |w| ensures !NamesManufacturer(b, w[j]) {
            assert w[j] == rest[j - 1];
          }
        }
      } else if LastNamer(b, w).Some? {
        assert forall j :: 0 < j < |w| ==> !NamesManufacturer(b, w[j]) by {
          forall j | 0 < j < |w| ensures !NamesManufacturer(b, w[j]) {
            assert w[j] == rest[j - 1];
          }
        }
      }
      if forall i :: 0 <= i < |w| ==> !NamesManufacturer(b, w[i]) {
        assert !NamesManufacturer(b, w[0]);
      }
    }
  }

  /** The manufacturer string is that of the last visited structure naming
      one, and what the walk started with when none does. */
  lemma {:induction false} LastManufacturer(b: seq<Byte>, pos: nat, cur: seq<Char8>)
    ensures ManufacturerFrom(b, pos, cur) == match LastNamer(b, Walk(b, pos))
      case None => cur
      case Some(p) => SmbiosString(b, p, b[p + ManufacturerOffset])
    decreases |b| - pos
  {
    hide SmbiosString, Terminator;
    if Readable(b, pos) {
      var w := Walk(b, pos);
      var cur' := if NamesManufacturer(b, pos) then SmbiosString(b, pos, b[pos + ManufacturerOffset]) else cur;
      match NextStructure(b, pos)
      case None =>
        assert w == [pos] && ManufacturerFrom(b, pos, cur) == cur';
        assert w[1..] == [];
      case Some(next) =>
        assert w == [pos] + Walk(b, next) && w[1..] == Walk(b, next);
        assert ManufacturerFrom(b, pos, cur) == ManufacturerFrom(b, next, cur');
        LastManufacturer(b, next, cur');
    }
  }

  /** A structure naming a manufacturer with no later one naming one is the
      one `LastNamer` finds. */
  lemma LastNamerIs(b: seq<Byte>, w: seq<nat>, i: nat)
    requires i < |w| && NamesManufacturer(b, w[i])
    requires forall j :: i < j < |w| ==> !NamesManufacturer(b, w[j])
    ensures LastNamer(b, w) == Some(w[i])
  {
    hide LastNamer;
    LastNamerMeaning(b, w);
    var k :| 0 <= k < |w| && w[k] == LastNamer(b, w).value && forall j :: k < j < |w| ==> !NamesManufacturer(b, w[j]);
    assert k == i;
  }

  /** The manufacturer of a table, by the structures the walk visits. */
  lemma ManufacturerIsLastNamed(b: seq<Byte>)
    ensures (forall i :: 0 <= i < |Walk(b, 0)| ==> !NamesManufacturer(b, Walk(b, 0)[i])) ==> Manufacturer(b) == []
    ensures forall i ::
      (0 <= i < |Walk(b, 0)| && NamesManufacturer(b, Walk(b, 0)[i])
       && (forall j :: i < j < |Walk(b, 0)| ==> !NamesManufacturer(b, Walk(b, 0)[j])))
      ==> Manufacturer(b) == SmbiosString(b, Walk(b, 0)[i], b[Walk(b, 0)[i] + ManufacturerOffset])
  {
    hide Walk, ManufacturerFrom, SmbiosString, LastNamer, Readable;
    var w := Walk(b, 0);
    LastManufacturer(b, 0, []);
    LastNamerMeaning(b, w);
    forall i | 0 <= i < |w| && NamesManufacturer(b, w[i]) && (forall j :: i < j < |w| ==> !NamesManufacturer(b, w[j]))
      ensures Manufacturer(b) == SmbiosString(b, w[i], b[w[i] + ManufacturerOffset])
    {
      LastNamerIs(b, w, i);
    }
  }

  // ---------------------------------------------------------------------
  // The CPU and SMBIOS checks

  /** `text.find(s) != npos` for some `s` of `table`. */
  predicate ContainsAny(text: seq<Char8>, table: seq<string>) {
    exists k :: 0 <= k < |table| && Contains(text, table[k])
  }

  /** `is_hvci`: a Hyper-V isolated guest, whose hypervisor announces itself
      as Microsoft's on a board no known virtual-machine vendor made. */
  predicate IsHvci(cpu: Cpu, smbios: Smbios) {
    cpu.hypervisorBit && cpu.hypervisorSignature == MicrosoftHvSignature
    && !ContainsAny(Manufacturer(smbios.rawTablesData), KnownVmManufacturers)
  }

  /** What the first part of `check_mb_common` pushes. */
  function CpuFlags(cpu: Cpu, smbios: Smbios): seq<VMFlag> {
    if IsHvci(cpu, smbios) then [PlatformHyperVIsolation]
    else
      (if cpu.hypervisorBit then [CpuHypervisorBit] else [])
      + (if ContainsAny(cpu.hypervisorSignature, KnownHypervisorSignatures) then [CpuHypervisorSignature] else [])
  }

  /** The UUID is sixteen zero bytes (`memcmp` against `zeroes`). */
  predicate ZeroUuid(u: Uuid) {
    forall i :: 0 <= i < |u| ==> u[i] == 0
  }

  /** What `check_smbios` pushes. */
  function SmbiosFlags(smbios: Smbios): seq<VMFlag> {
    (if ContainsAny(Manufacturer(smbios.rawTablesData), KnownVmManufacturers) then [SmbiosSuspiciousManufacturer] else [])
    + (if ZeroUuid(smbios.uuid) then [SmbiosSuspiciousUuid, SmbiosUuidTotallyZeroed] else [])
  }

  /** `check_smbios`. */
  method CheckSmbios(smbios: Smbios, verdict: HeuristicVerdict)
    modifies verdict
    ensures verdict.detections == old(verdict.detections) + SmbiosFlags(smbios)
    ensures verdict.confidence == old(verdict.confidence)
  {
    var manufacturer := GetSmbiosManufacturer(smbios.rawTablesData);
    if ContainsAny(manufacturer, KnownVmManufacturers) {
      verdict.Push(SmbiosSuspiciousManufacturer);
    }
    if ZeroUuid(smbios.uuid) {
      verdict.Push(SmbiosSuspiciousUuid);
      verdict.Push(SmbiosUuidTotallyZeroed);
    }
  }

  /** An all-zero UUID pushes "suspicious UUID" and then "UUID totally
      zeroed", last; any other UUID pushes neither. */
  lemma UuidFlags(smbios: Smbios)
    ensures ZeroUuid(smbios.uuid) ==> SmbiosFlags(smbios)[|SmbiosFlags(smbios)| - 2..] == [SmbiosSuspiciousUuid, SmbiosUuidTotallyZeroed]
    ensures !ZeroUuid(smbios.uuid) ==> SmbiosSuspiciousUuid !in SmbiosFlags(smbios) && SmbiosUuidTotallyZeroed !in SmbiosFlags(smbios)
  {
  }

  // ---------------------------------------------------------------------
  // Drives

  /** `vendor_id + " " + product_id` names a known virtual disk, ignoring case. */
  predicate IsKnownVmProduct(d: PhysicalDriveInfo) {
    exists k :: 0 <= k < |KnownVmDriveProducts| && ContainsICase(d.vendorId + " " + d.productId, KnownVmDriveProducts[k])
  }

  /** A serial that is empty or one character repeated. */
  predicate IsSuspiciousSerial(serial: seq<Char8>) {
    serial == [] || forall i :: 0 <= i < |serial| ==> serial[i] == serial[0]
  }

  /** What `check_drive` pushes for one drive. */
  function DriveFlags(d: PhysicalDriveInfo): seq<VMFlag> {
    (if IsKnownVmProduct(d) then [StorageProductIdKnownVm] else [])
    + (if d.busType == Virtual then [StorageBusTypeIsVirtual] else [])
    + (if IsSuspiciousSerial(d.serial) then [StorageSuspiciousSerial] else [])
    + (if d.busType in UncommonBuses then [StorageBusTypeUncommon] else [])
  }

  /** `check_drive`: the counter of known virtual products goes up by one
      exactly when the drive is one. */
  method CheckDrive(d: PhysicalDriveInfo, verdict: HeuristicVerdict, productCount: nat) returns (count: nat)
    modifies verdict
    ensures verdict.detections == old(verdict.detections) + DriveFlags(d)
    ensures verdict.confidence == old(verdict.confidence)
    ensures count == productCount + (if IsKnownVmProduct(d) then 1 else 0)
  {
    ghost var known := if IsKnownVmProduct(d) then [StorageProductIdKnownVm] else [];
    ghost var virtual := if d.busType == Virtual then [StorageBusTypeIsVirtual] else [];
    ghost var serial := if IsSuspiciousSerial(d.serial) then [StorageSuspiciousSerial] else [];
    ghost var uncommon := if d.busType in UncommonBuses then [StorageBusTypeUncommon] else [];
    assert DriveFlags(d) == known + virtual + serial + uncommon;
    ghost var o := verdict.detections;
    hide DriveFlags, ContainsICase, SearchICase, MatchesAtICase;
    count := productCount;
    var fullModelName := d.vendorId + " " + d.productId;
    if exists k :: 0 <= k < |KnownVmDriveProducts| && ContainsICase(fullModelName, KnownVmDriveProducts[k]) {
      verdict.Push(StorageProductIdKnownVm);
      count := count + 1;
    }
    assert verdict.detections == o + known;
    if d.busType == Virtual {
      verdict.Push(StorageBusTypeIsVirtual);
    }
    AppendAssoc(o, known, virtual);
    assert verdict.detections == o + (known + virtual);
    if d.serial == [] || forall i :: 0 <= i < |d.serial| ==> d.serial[i] == d.serial[0] {
      verdict.Push(StorageSuspiciousSerial);
    }
    AppendAssoc(o, known + virtual, serial);
    assert verdict.detections == o + (known + virtual + serial);
    if d.busType in UncommonBuses {
      verdict.Push(StorageBusTypeUncommon);
    }
    AppendAssoc(o, known + virtual + serial, uncommon);
  }

  /** The flags of a drive are each pushed exactly under their own condition. */
  lemma DriveFlagsMeaning(d: PhysicalDriveInfo)
    ensures StorageProductIdKnownVm in DriveFlags(d) <==> IsKnownVmProduct(d)
    ensures StorageBusTypeIsVirtual in DriveFlags(d) <==> d.busType == Virtual
    ensures StorageSuspiciousSerial in DriveFlags(d) <==> IsSuspiciousSerial(d.serial)
    ensures StorageBusTypeUncommon in DriveFlags(d) <==> d.busType == SAS || d.busType == Scsi || d.busType == ATA
    ensures |DriveFlags(d)| <= 4
  {
    var a := if IsKnownVmProduct(d) then [StorageProductIdKnownVm] else [];
    var b := if d.busType == Virtual then [StorageBusTypeIsVirtual] else [];
    var c := if IsSuspiciousSerial(d.serial) then [StorageSuspiciousSerial] else [];
    var e := if d.busType in UncommonBuses then [StorageBusTypeUncommon] else [];
    assert DriveFlags(d) == a + b + c + e by {
      hide IsKnownVmProduct, IsSuspiciousSerial;
    }
    assert d.busType in UncommonBuses <==> d.busType == SAS || d.busType == Scsi || d.busType == ATA;
    hide *;
    InFour(StorageProductIdKnownVm, a, b, c, e);
    InFour(StorageBusTypeIsVirtual, a, b, c, e);
    InFour(StorageSuspiciousSerial, a, b, c, e);
    InFour(StorageBusTypeUncommon, a, b, c, e);
  }

  /** Membership in four joined pieces. */
  lemma InFour<T>(x: T, a: seq<T>, b: seq<T>, c: seq<T>, e: seq<T>)
    ensures x in a + b + c + e <==> x in a || x in b || x in c || x in e
  {
  }

  /** The flags of every drive, in list order. */
  function DrivesFlags(ds: seq<PhysicalDriveInfo>): seq<VMFlag> {
    if ds == [] then [] else DrivesFlags(ds[..|ds| - 1]) + DriveFlags(ds[|ds| - 1])
  }

  /** `product_vm_count` after the drive loop. */
  function ProductCount(ds: seq<PhysicalDriveInfo>): nat {
    if ds == [] then 0 else ProductCount(ds[..|ds| - 1]) + (if IsKnownVmProduct(ds[|ds| - 1]) then 1 else 0)
  }

  /** `virtual_buses`, the `count_if` over the drives. */
  function VirtualBusCount(ds: seq<PhysicalDriveInfo>): nat {
    if ds == [] then 0 else VirtualBusCount(ds[..|ds| - 1]) + (if ds[|ds| - 1].busType == Virtual then 1 else 0)
  }

  /** The known-product count reaches the number of drives exactly when
      every drive is a known virtual product. */
  lemma {:induction false} ProductCountAll(ds: seq<PhysicalDriveInfo>)
    ensures ProductCount(ds) <= |ds|
    ensures ProductCount(ds) == |ds| <==> forall i :: 0 <= i < |ds| ==> IsKnownVmProduct(ds[i])
  {
    hide IsKnownVmProduct, ContainsICase;
    if ds != [] {
      var init, last := ds[..|ds| - 1], ds[|ds| - 1];
      assert ProductCount(ds) == ProductCount(init) + (if IsKnownVmProduct(last) then 1 else 0);
      hide *;
      ProductCountAll(init);
      assert forall i :: 0 <= i < |init| ==> init[i] == ds[i];
    }
  }

  /** The virtual-bus count reaches the number of drives exactly when every
      drive is on a virtual bus. */
  lemma {:induction false} VirtualBusCountAll(ds: seq<PhysicalDriveInfo>)
    ensures VirtualBusCount(ds) <= |ds|
    ensures VirtualBusCount(ds) == |ds| <==> forall i :: 0 <= i < |ds| ==> ds[i].busType == Virtual
  {
    if ds != [] {
      var init, last := ds[..|ds| - 1], ds[|ds| - 1];
      assert VirtualBusCount(ds) == VirtualBusCount(init) + (if last.busType == Virtual then 1 else 0);
      hide *;
      VirtualBusCountAll(init);
      assert forall i :: 0 <= i < |init| ==> init[i] == ds[i];
    }
  }

  /** Each count reaches the number of drives exactly when every drive
      qualifies. */
  lemma DriveCounts(ds: seq<PhysicalDriveInfo>)
    ensures ProductCount(ds) <= |ds| && VirtualBusCount(ds) <= |ds|
    ensures ProductCount(ds) == |ds| <==> forall i :: 0 <= i < |ds| ==> IsKnownVmProduct(ds[i])
    ensures VirtualBusCount(ds) == |ds| <==> forall i :: 0 <= i < |ds| ==> ds[i].busType == Virtual
  {
    ProductCountAll(ds);
    VirtualBusCountAll(ds);
  }

  // ---------------------------------------------------------------------
  // The heuristics

  /** What `check_mb_common` pushes. */
  function CommonFlags(cpu: Cpu, smbios: Smbios, adapters: seq<NetworkAdapter>, accessDenied: bool): seq<VMFlag> {
    CpuFlags(cpu, smbios) + SmbiosFlags(smbios) + NetworkFlags(adapters, accessDenied)
  }

  /** What `DefaultHeuristicEx` pushes after the common checks. */
  function StorageFlags(ds: seq<PhysicalDriveInfo>): seq<VMFlag> {
    DrivesFlags(ds)
    + (if ds != [] && VirtualBusCount(ds) == |ds| then [StorageAllDrivesBusesVirtual] else [])
    + (if ds != [] && ProductCount(ds) == |ds| then [StorageAllDrivesVendorProductKnownVm] else [])
  }

  /** `check_mb_common`. */
  method CheckMbCommon(cpu: Cpu, smbios: Smbios, adapters: seq<NetworkAdapter>, accessDenied: bool)
    returns (verdict: HeuristicVerdict)
    ensures fresh(verdict)
    ensures verdict.detections == CommonFlags(cpu, smbios, adapters, accessDenied) && verdict.confidence == Unlikely
  {
    verdict := new HeuristicVerdict();
    var manufacturer := GetSmbiosManufacturer(smbios.rawTablesData);
    if cpu.hypervisorBit && cpu.hypervisorSignature == MicrosoftHvSignature && !ContainsAny(manufacturer, KnownVmManufacturers) {
      verdict.Push(PlatformHyperVIsolation);
    } else {
      if cpu.hypervisorBit {
        verdict.Push(CpuHypervisorBit);
      }
      if ContainsAny(cpu.hypervisorSignature, KnownHypervisorSignatures) {
        verdict.Push(CpuHypervisorSignature);
      }
    }
    assert verdict.detections == CpuFlags(cpu, smbios);
    CheckSmbios(smbios, verdict);
    CheckNetworkAdapters(verdict, adapters, accessDenied);
  }

  /** `DefaultHeuristic::operator()`. */
  method DefaultHeuristic(mb: Motherboard, adapters: seq<NetworkAdapter>, accessDenied: bool)
    returns (verdict: HeuristicVerdict)
    ensures fresh(verdict)
    ensures verdict.detections == CommonFlags(mb.cpu, mb.smbios, adapters, accessDenied)
    ensures verdict.confidence == Confidence(verdict.detections)
  {
    verdict := CheckMbCommon(mb.cpu, mb.smbios, adapters, accessDenied);
    verdict.confidence := CalculateConfidence(verdict.detections);
  }

  /** The drive loop of `DefaultHeuristicEx`: `check_drive` on every drive
      in order, counting the known virtual products. */
  method CheckDrives(drives: seq<PhysicalDriveInfo>, verdict: HeuristicVerdict) returns (productCount: nat)
    modifies verdict
    ensures verdict.detections == old(verdict.detections) + DrivesFlags(drives)
    ensures verdict.confidence == old(verdict.confidence)
    ensures productCount == ProductCount(drives)
  {
    hide DriveFlags, IsKnownVmProduct, IsSuspiciousSerial, ContainsICase, VirtualBusCount;
    productCount := 0;
    for i := 0 to |drives|
      invariant verdict.detections == old(verdict.detections) + DrivesFlags(drives[..i])
      invariant verdict.confidence == old(verdict.confidence)
      invariant productCount == ProductCount(drives[..i])
    {
      assert drives[..i + 1][..i] == drives[..i];
      productCount := CheckDrive(drives[i], verdict, productCount);
    }
    assert drives[..|drives|] == drives;
  }

  /** `virtual_buses`: the `count_if` over the drives. */
  method CountVirtualBuses(drives: seq<PhysicalDriveInfo>) returns (n: nat)
    ensures n == VirtualBusCount(drives)
    ensures n <= |drives| && (n == |drives| <==> forall i :: 0 <= i < |drives| ==> drives[i].busType == Virtual)
  {
    n := 0;
    for i := 0 to |drives|
      invariant n == VirtualBusCount(drives[..i])
    {
      assert drives[..i + 1][..i] == drives[..i];
      if drives[i].busType == Virtual {
        n := n + 1;
      }
    }
    assert drives[..|drives|] == drives;
    DriveCounts(drives);
  }

  /** `DefaultHeuristicEx::operator()`. */
  method DefaultHeuristicEx(mb: MotherboardEx, adapters: seq<NetworkAdapter>, accessDenied: bool)
    returns (verdict: HeuristicVerdict)
    ensures fresh(verdict)
    ensures verdict.detections == CommonFlags(mb.cpu, mb.smbios, adapters, accessDenied) + StorageFlags(mb.drives)
    ensures verdict.confidence == Confidence(verdict.detections)
  {
    hide CommonFlags, DrivesFlags, VirtualBusCount, ProductCount, CpuFlags, SmbiosFlags, NetworkFlags, DriveFlags, Confidence;
    verdict := CheckMbCommon(mb.cpu, mb.smbios, adapters, accessDenied);
    var productCount := CheckDrives(mb.drives, verdict);
    var virtualBuses := CountVirtualBuses(mb.drives);
    if mb.drives != [] && virtualBuses == |mb.drives| {
      verdict.Push(StorageAllDrivesBusesVirtual);
    }
    if mb.drives != [] && productCount == |mb.drives| {
      verdict.Push(StorageAllDrivesVendorProductKnownVm);
    }
    verdict.confidence := CalculateConfidence(verdict.detections);
  }

  /** Hyper-V isolation is reported exactly when the hypervisor bit is set,
      the signature is Microsoft's and the board names no known
      virtual-machine vendor; it then replaces both CPU flags, and otherwise
      each CPU flag is reported under its own condition. */
  lemma HyperVIsolationExclusive(cpu: Cpu, smbios: Smbios, adapters: seq<NetworkAdapter>, accessDenied: bool)
    ensures var fs := CommonFlags(cpu, smbios, adapters, accessDenied);
      && (PlatformHyperVIsolation in fs <==> IsHvci(cpu, smbios))
      && (IsHvci(cpu, smbios) ==> CpuHypervisorBit !in fs && CpuHypervisorSignature !in fs)
      && (!IsHvci(cpu, smbios) ==> (CpuHypervisorBit in fs <==> cpu.hypervisorBit))
      && (!IsHvci(cpu, smbios) ==>
           (CpuHypervisorSignature in fs <==> ContainsAny(cpu.hypervisorSignature, KnownHypervisorSignatures)))
  {
    var rest := SmbiosFlags(smbios) + NetworkFlags(adapters, accessDenied);
    NoCpuFlagsLater(smbios, adapters, accessDenied);
    hide SmbiosFlags, NetworkFlags, Manufacturer, ContainsAny;
    assert CommonFlags(cpu, smbios, adapters, accessDenied) == CpuFlags(cpu, smbios) + rest;
  }

  /** `check_smbios` pushes only SMBIOS flags. */
  lemma SmbiosFlagsKinds(smbios: Smbios)
    ensures forall f :: f in SmbiosFlags(smbios) ==>
      f == SmbiosSuspiciousManufacturer || f == SmbiosSuspiciousUuid || f == SmbiosUuidTotallyZeroed
  {
    hide Manufacturer, ContainsAny, ZeroUuid;
  }

  /** `check_network_adapters` pushes only network flags. */
  lemma NetworkFlagsKinds(adapters: seq<NetworkAdapter>, accessDenied: bool)
    ensures forall f :: f in NetworkFlags(adapters, accessDenied) ==>
      f == PlatformAccessToNetworkDevicesDenied || f == PlatformVirtualNetworkAdaptersPresent
      || f == PlatformOnlyVirtualNetworkAdapters
  {
    hide VirtualCount, TotalCount;
  }

  /** The SMBIOS and network checks push none of the CPU flags. */
  lemma NoCpuFlagsLater(smbios: Smbios, adapters: seq<NetworkAdapter>, accessDenied: bool)
    ensures var rest := SmbiosFlags(smbios) + NetworkFlags(adapters, accessDenied);
      PlatformHyperVIsolation !in rest && CpuHypervisorBit !in rest && CpuHypervisorSignature !in rest
  {
    SmbiosFlagsKinds(smbios);
    NetworkFlagsKinds(adapters, accessDenied);
    hide SmbiosFlags, NetworkFlags;
  }

  /** Where every drive sits on a virtual bus, or every drive is a known
      virtual product, the extended heuristic is certain. */
  lemma AllVirtualDrivesAreDefinite(mb: MotherboardEx, adapters: seq<NetworkAdapter>, accessDenied: bool)
    requires mb.drives != []
    requires (forall i :: 0 <= i < |mb.drives| ==> mb.drives[i].busType == Virtual)
          || (forall i :: 0 <= i < |mb.drives| ==> IsKnownVmProduct(mb.drives[i]))
    ensures Confidence(CommonFlags(mb.cpu, mb.smbios, adapters, accessDenied) + StorageFlags(mb.drives)) == DefinitelyVM
  {
    DriveCounts(mb.drives);
    hide CommonFlags, DrivesFlags, IsKnownVmProduct, Confidence, Tallies, VirtualBusCount, ProductCount;
    var fs := CommonFlags(mb.cpu, mb.smbios, adapters, accessDenied) + StorageFlags(mb.drives);
    var k := |fs| - 1;
    if ProductCount(mb.drives) != |mb.drives| {
      assert fs[k] == StorageAllDrivesBusesVirtual;
    }
    CriticalMeansDefinitely(fs, k);
  }
}
