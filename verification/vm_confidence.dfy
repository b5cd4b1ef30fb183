/** The flags of the virtual-machine heuristic and how they are scored
    (Identy/Identy_vm.cxx, `get_flag_strength` and `calculate_confidence`):
    every flag has a fixed strength, the strengths found are tallied, and the
    tallies decide the confidence. */
module VmConfidence {

  /** `identy::vm::VMFlags`. */
  datatype VMFlag =
    | CpuHypervisorBit
    | CpuHypervisorSignature
    | SmbiosSuspiciousManufacturer
    | SmbiosSuspiciousUuid
    | SmbiosUuidTotallyZeroed
    | StorageSuspiciousSerial
    | StorageBusTypeIsVirtual
    | StorageAllDrivesBusesVirtual
    | StorageBusTypeUncommon
    | StorageProductIdKnownVm
    | StorageAllDrivesVendorProductKnownVm
    | PlatformWindowsRegistry
    | PlatformLinuxDevices
    | PlatformVirtualNetworkAdaptersPresent
    | PlatformOnlyVirtualNetworkAdapters
    | PlatformAccessToNetworkDevicesDenied
    | PlatformHyperVIsolation

  /** `identy::vm::detail::FlagStrength`. */
  datatype FlagStrength = Weak | Medium | Strong | Critical

  /** `identy::vm::VMConfidence`, from least to most certain. */
  datatype VMConfidence = Unlikely | Possible | Probable | DefinitelyVM

  /** The place of a confidence in that order. */
  function Level(c: VMConfidence): nat {
    match c
    case Unlikely => 0
    case Possible => 1
    case Probable => 2
    case DefinitelyVM => 3
  }

  /** `get_flag_strength`: the fixed table. Every flag is listed there, so
      its `default` case is never taken. */
  function Strength(f: VMFlag): FlagStrength {
    match f
    case PlatformHyperVIsolation => Weak
    case PlatformVirtualNetworkAdaptersPresent => Weak
    case SmbiosSuspiciousUuid => Medium
    case PlatformOnlyVirtualNetworkAdapters => Medium
    case StorageBusTypeUncommon => Medium
    case CpuHypervisorBit => Strong
    case CpuHypervisorSignature => Strong
    case StorageBusTypeIsVirtual => Strong
    case StorageProductIdKnownVm => Strong
    case SmbiosSuspiciousManufacturer => Strong
    case SmbiosUuidTotallyZeroed => Critical
    case StorageAllDrivesBusesVirtual => Critical
    case StorageAllDrivesVendorProductKnownVm => Critical
    case StorageSuspiciousSerial => Medium
    case PlatformWindowsRegistry => Medium
    case PlatformLinuxDevices => Medium
    case PlatformAccessToNetworkDevicesDenied => Medium
  }

  /** The counters `calculate_confidence` keeps: how many weak, medium and
      strong flags it has seen, and whether any was critical. */
  datatype Tally = Tally(weak: nat, medium: nat, strong: nat, critical: bool)

  /** One flag counted into the tally, as the `switch` in the loop does. */
  function Count(t: Tally, f: VMFlag): Tally {
    match Strength(f)
    case Weak => t.(weak := t.weak + 1)
    case Medium => t.(medium := t.medium + 1)
    case Strong => t.(strong := t.strong + 1)
    case Critical => t.(critical := true)
  }

  /** The tally of a list of flags, counted front to back. */
  function Tallies(fs: seq<VMFlag>): Tally {
    if fs == [] then Tally(0, 0, 0, false) else Count(Tallies(fs[..|fs| - 1]), fs[|fs| - 1])
  }

  /** The decision at the end of `calculate_confidence`, in its order of
      precedence. */
  function Classify(t: Tally): VMConfidence {
    if t.critical then DefinitelyVM
    else if t.strong >= 2 then DefinitelyVM
    else if t.strong >= 1 || t.medium >= 3 then Probable
    else if t.medium >= 1 || t.weak >= 2 then Possible
    else Unlikely
  }

  /** The confidence a list of detections earns. */
  function Confidence(fs: seq<VMFlag>): VMConfidence {
    Classify(Tallies(fs))
  }

  /** `calculate_confidence`: tally the detections in one pass, then decide. */
  method CalculateConfidence(detections: seq<VMFlag>) returns (c: VMConfidence)
    ensures c == Confidence(detections)
  {
    var weak, medium, strong := 0, 0, 0;
    var critical := false;
    for i := 0 to |detections|
      invariant Tally(weak, medium, strong, critical) == Tallies(detections[..i])
    {
      assert detections[..i + 1][..i] == detections[..i];
      match Strength(detections[i])
      case Weak => weak := weak + 1;
      case Medium => medium := medium + 1;
      case Strong => strong := strong + 1;
      case Critical => critical := true;
    }
    assert detections[..|detections|] == detections;
    if critical {
      return DefinitelyVM;
    }
    if strong >= 2 {
      return DefinitelyVM;
    }
    if strong >= 1 || medium >= 3 {
      return Probable;
    }
    if medium >= 1 || weak >= 2 {
      return Possible;
    }
    return Unlikely;
  }

  /** The boundary cases of the scoring rules, tallies given as
      (weak, medium, strong, critical). */
  lemma ClassifyBoundaries()
    ensures Classify(Tally(0, 0, 0, false)) == Unlikely
    ensures Classify(Tally(0, 0, 0, true)) == DefinitelyVM
    ensures Classify(Tally(0, 0, 2, false)) == DefinitelyVM
    ensures Classify(Tally(0, 0, 1, false)) == Probable
    ensures Classify(Tally(0, 3, 0, false)) == Probable
    ensures Classify(Tally(0, 1, 0, false)) == Possible
    ensures Classify(Tally(2, 0, 0, false)) == Possible
    ensures Classify(Tally(1, 0, 0, false)) == Unlikely
  {
  }

  /** `t` has counted no more of anything than `u`. */
  predicate AtMost(t: Tally, u: Tally) {
    t.weak <= u.weak && t.medium <= u.medium && t.strong <= u.strong && (t.critical ==> u.critical)
  }

  /** More evidence never lowers the decision. */
  lemma ClassifyMonotone(t: Tally, u: Tally)
    requires AtMost(t, u)
    ensures Level(Classify(t)) <= Level(Classify(u))
  {
  }

  /** Counting more flags only raises the counters. */
  lemma {:induction false} TalliesGrow(fs: seq<VMFlag>, gs: seq<VMFlag>)
    ensures AtMost(Tallies(fs), Tallies(fs + gs))
    decreases |gs|
  {
    if gs != [] {
      var init := gs[..|gs| - 1];
      assert (fs + gs)[..|fs + gs| - 1] == fs + init;
      TalliesGrow(fs, init);
    } else {
      assert fs + gs == fs;
    }
  }

  /** Appending detections never lowers the confidence. */
  lemma ConfidenceMonotone(fs: seq<VMFlag>, gs: seq<VMFlag>)
    ensures Level(Confidence(fs)) <= Level(Confidence(fs + gs))
  {
    TalliesGrow(fs, gs);
    ClassifyMonotone(Tallies(fs), Tallies(fs + gs));
  }

  /** The tally records a critical flag exactly when the list holds one. */
  lemma {:induction false} TalliesCritical(fs: seq<VMFlag>)
    ensures Tallies(fs).critical <==> exists i :: 0 <= i < |fs| && Strength(fs[i]) == Critical
  {
    if fs != [] {
      var init := fs[..|fs| - 1];
      TalliesCritical(init);
      if exists i :: 0 <= i < |init| && Strength(init[i]) == Critical {
        var i :| 0 <= i < |init| && Strength(init[i]) == Critical;
        assert fs[i] == init[i];
      }
      if exists i :: 0 <= i < |fs| && Strength(fs[i]) == Critical {
        var i :| 0 <= i < |fs| && Strength(fs[i]) == Critical;
        if i < |init| {
          assert init[i] == fs[i];
        }
      }
    }
  }

  /** A single critical detection makes the verdict certain, whatever else
      was found. */
  lemma CriticalMeansDefinitely(fs: seq<VMFlag>, i: nat)
    requires i < |fs| && Strength(fs[i]) == Critical
    ensures Confidence(fs) == DefinitelyVM
  {
    TalliesCritical(fs);
  }

  /** The tally of a list of weak flags: only weak ones, as many as the list. */
  lemma {:induction false} TalliesAllWeak(fs: seq<VMFlag>)
    ensures (forall i :: 0 <= i < |fs| ==> Strength(fs[i]) == Weak)
        <==> Tallies(fs).medium == 0 && Tallies(fs).strong == 0 && !Tallies(fs).critical
    ensures (forall i :: 0 <= i < |fs| ==> Strength(fs[i]) == Weak) ==> Tallies(fs).weak == |fs|
  {
    if fs != [] {
      var init := fs[..|fs| - 1];
      TalliesAllWeak(init);
      TalliesGrow(init, [fs[|fs| - 1]]);
      assert init + [fs[|fs| - 1]] == fs;
      if forall i :: 0 <= i < |fs| ==> Strength(fs[i]) == Weak {
        assert forall i :: 0 <= i < |init| ==> Strength(init[i]) == Weak by {
          forall i | 0 <= i < |init| ensures Strength(init[i]) == Weak {
            assert init[i] == fs[i];
          }
        }
      }
      if Tallies(fs).medium == 0 && Tallies(fs).strong == 0 && !Tallies(fs).critical {
        forall i | 0 <= i < |fs| ensures Strength(fs[i]) == Weak {
          if i < |init| {
            assert init[i] == fs[i];
          }
        }
      }
    }
  }

  /** "Unlikely" means at most one detection, and that one weak; in
      particular an empty list of detections is "Unlikely". */
  lemma UnlikelyExactly(fs: seq<VMFlag>)
    ensures Confidence(fs) == Unlikely <==> |fs| <= 1 && forall i :: 0 <= i < |fs| ==> Strength(fs[i]) == Weak
  {
    TalliesAllWeak(fs);
  }
}
