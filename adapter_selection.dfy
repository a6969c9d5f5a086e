/**
 * The adapter-selection rule of the wgpu runtime (`select_adapter` and its
 * nested `select`).
 *
 * The enumerated adapters are given by their device types, in enumeration
 * order; an adapter is identified by its position in that sequence. The two
 * vectors the source fills, `adapters` and `adapters_other`, are sequences of
 * positions. Every `panic!` of the source is a `Panicked` outcome.
 */
module AdapterSelection {
  import opened Wrappers
  import opened Wgpu

  /** The reason selection panics. */
  datatype Failure =
    | ExistingDevice                   // an `Existing` device cannot be created here
    | NotFound(requested: DeviceType)  // no adapter at the requested index
    | NoAdapter                        // `BestAvailable` over no adapter at all

  /** The chosen adapter (its position and type), or the panic. */
  datatype Outcome = Selected(position: nat, deviceType: DeviceType) | Panicked(failure: Failure)

  /** The vector an enumerated adapter is pushed into, if any. */
  datatype Bucket = Adapters | AdaptersOther | Skipped

  /** Whether an adapter's type matches the requested device (`is_same_type`). */
  predicate IsSameType(device: WgpuDevice, deviceType: DeviceType)
    requires !device.Existing?
  {
    match device
    case DiscreteGpu(_) => deviceType == DeviceType.DiscreteGpu
    case IntegratedGpu(_) => deviceType == DeviceType.IntegratedGpu
    case VirtualGpu(_) => deviceType == DeviceType.VirtualGpu
    case Cpu => deviceType == DeviceType.Cpu
    case BestAvailable => true
  }

  /** Where the enumeration loop puts an adapter of the given type. */
  function BucketOf(device: WgpuDevice, deviceType: DeviceType): Bucket
    requires !device.Existing?
  {
    if deviceType == DeviceType.Other then AdaptersOther
    else if IsSameType(device, deviceType) then Adapters
    else Skipped
  }

  /** Every entry of `positions` is a position of `types`. */
  ghost predicate ValidPositions(types: seq<DeviceType>, positions: seq<nat>) {
    forall i :: 0 <= i < |positions| ==> positions[i] < |types|
  }

  /** The positions, in enumeration order, that the loop pushes into bucket `b`. */
  function Positions(device: WgpuDevice, types: seq<DeviceType>, b: Bucket): (r: seq<nat>)
    requires !device.Existing?
    ensures |r| <= |types|
    ensures ValidPositions(types, r)
  {
    if |types| == 0 then []
    else
      var last := |types| - 1;
      Positions(device, types[..last], b) + (if BucketOf(device, types[last]) == b then [last] else [])
  }

  /**
   * The nested `select`: the adapter at index `num` of `adapters`, else the one at
   * the same index `num` of `adaptersOther`, else a panic.
   */
  function Choose(types: seq<DeviceType>, num: nat, adapters: seq<nat>, adaptersOther: seq<nat>,
                  requested: DeviceType): Outcome
    requires ValidPositions(types, adapters) && ValidPositions(types, adaptersOther)
  {
    if |adapters| <= num then
      if |adaptersOther| <= num then Panicked(NotFound(requested))
      else Selected(adaptersOther[num], types[adaptersOther[num]])
    else Selected(adapters[num], types[adapters[num]])
  }

  /** The fixed performance score of a device type used by `BestAvailable`. */
  function Score(deviceType: DeviceType): int {
    match deviceType
    case DiscreteGpu => 5
    case Other => 4
    case IntegratedGpu => 3
    case VirtualGpu => 2
    case Cpu => 1
  }

  /**
   * The index into `candidates` that the strict-maximum scan ends with, starting
   * from no adapter and a current score of -1.
   */
  function MostPerformant(types: seq<DeviceType>, candidates: seq<nat>): (r: Option<nat>)
    requires ValidPositions(types, candidates)
    ensures r.None? <==> |candidates| == 0
    ensures r.Some? ==> r.value < |candidates|
  {
    if |candidates| == 0 then None
    else
      var last := |candidates| - 1;
      var best := MostPerformant(types, candidates[..last]);
      var currentScore := if best.None? then -1 else Score(types[candidates[best.value]]);
      if Score(types[candidates[last]]) > currentScore then Some(last) else best
  }

  /** The outcome of `select_adapter` for the enumerated adapter types. */
  function Selection(types: seq<DeviceType>, device: WgpuDevice): Outcome {
    if device.Existing? then Panicked(ExistingDevice)
    else
      var adapters := Positions(device, types, Adapters);
      var adaptersOther := Positions(device, types, AdaptersOther);
      if device.BestAvailable? then
        var candidates := adapters + adaptersOther;
        match MostPerformant(types, candidates)
        case None => Panicked(NoAdapter)
        case Some(k) => Selected(candidates[k], types[candidates[k]])
      else Choose(types, device.Num(), adapters, adaptersOther, device.Requested())
  }

  // ---------------------------------------------------------------------------
  // The imperative code: the enumeration loop, the scan, and select_adapter.
  // ---------------------------------------------------------------------------

  /** The `for_each` over the enumerated adapters that fills the two vectors. */
  method PartitionAdapters(types: seq<DeviceType>, device: WgpuDevice)
      returns (adapters: seq<nat>, adaptersOther: seq<nat>)
    requires !device.Existing?
    ensures adapters == Positions(device, types, Adapters)
    ensures adaptersOther == Positions(device, types, AdaptersOther)
  {
    adapters, adaptersOther := [], [];
    for i := 0 to |types|
      invariant adapters == Positions(device, types[..i], Adapters)
      invariant adaptersOther == Positions(device, types[..i], AdaptersOther)
    {
      assert types[..i + 1][..i] == types[..i];
      var deviceType := types[i];
      if deviceType == DeviceType.Other {
        adaptersOther := adaptersOther + [i];
      } else {
        var isSameType := IsSameType(device, deviceType);
        if isSameType {
          adapters := adapters + [i];
        }
      }
    }
    assert types[..|types|] == types;
  }

  /** The `BestAvailable` scan with its running `most_performant_adapter` and `current_score`. */
  method ScanMostPerformant(types: seq<DeviceType>, candidates: seq<nat>) returns (best: Option<nat>)
    requires ValidPositions(types, candidates)
    ensures best == MostPerformant(types, candidates)
  {
    best := None;
    var currentScore := -1;
    for i := 0 to |candidates|
      invariant best == MostPerformant(types, candidates[..i])
      invariant currentScore == if best.None? then -1 else Score(types[candidates[best.value]])
    {
      assert candidates[..i + 1][..i] == candidates[..i];
      var score := Score(types[candidates[i]]);
      if score > currentScore {
        best := Some(i);
        currentScore := score;
      }
    }
    assert candidates[..|candidates|] == candidates;
  }

  /** `select_adapter`: the adapter chosen for `device`, or the panic it raises. */
  method SelectAdapter(types: seq<DeviceType>, device: WgpuDevice) returns (r: Outcome)
    ensures r == Selection(types, device)
    ensures device.Existing? ==> r == Panicked(ExistingDevice)
    ensures r.Selected? ==> r.position < |types| && r.deviceType == types[r.position]
  {
    if device.Existing? {
      return Panicked(ExistingDevice);
    }
    var adapters, adaptersOther := PartitionAdapters(types, device);
    if device.BestAvailable? {
      var candidates := adapters + adaptersOther;
      var best := ScanMostPerformant(types, candidates);
      match best
      case None => r := Panicked(NoAdapter);
      case Some(k) => r := Selected(candidates[k], types[candidates[k]]);
    } else {
      r := Choose(types, device.Num(), adapters, adaptersOther, device.Requested());
    }
  }

  // ---------------------------------------------------------------------------
  // Properties of the rule.
  // ---------------------------------------------------------------------------

  /**
   * Partitioning: an adapter goes to `adapters_other` exactly when its type is
   * `Other`, and to `adapters` exactly when it is not `Other` and its type is the
   * requested one (every type, for `BestAvailable`).
   */
  lemma {:induction false} PartitionMembership(device: WgpuDevice, types: seq<DeviceType>, p: nat)
    requires !device.Existing?
    ensures p in Positions(device, types, AdaptersOther) <==> p < |types| && types[p] == DeviceType.Other
    ensures p in Positions(device, types, Adapters) <==>
              p < |types| && types[p] != DeviceType.Other
              && (device.BestAvailable? || types[p] == device.Requested())
  {
    if |types| > 0 {
      var last := |types| - 1;
      PartitionMembership(device, types[..last], p);
      if p < last {
        assert types[..last][p] == types[p];
      }
    }
  }

  /** Both vectors keep enumeration order: their positions strictly increase. */
  lemma {:induction false} PartitionOrdered(device: WgpuDevice, types: seq<DeviceType>, b: Bucket)
    requires !device.Existing?
    ensures forall i, j :: 0 <= i < j < |Positions(device, types, b)| ==>
              Positions(device, types, b)[i] < Positions(device, types, b)[j]
  {
    if |types| > 0 {
      var last := |types| - 1;
      PartitionOrdered(device, types[..last], b);
    }
  }

  /**
   * The by-index rule for `DiscreteGpu(n)`, `IntegratedGpu(n)`, `VirtualGpu(n)`
   * and `Cpu` (n = 0): the n-th matching adapter if there is one, otherwise the
   * n-th `Other` adapter (the same n), otherwise a panic.
   */
  lemma IndexedSelection(types: seq<DeviceType>, device: WgpuDevice)
    requires device.ByIndex()
    ensures var adapters := Positions(device, types, Adapters);
            var adaptersOther := Positions(device, types, AdaptersOther);
            var n := device.Num();
            && (n < |adapters| ==>
                  Selection(types, device) == Selected(adapters[n], device.Requested()))
            && (|adapters| <= n < |adaptersOther| ==>
                  Selection(types, device) == Selected(adaptersOther[n], DeviceType.Other))
            && (|adapters| <= n && |adaptersOther| <= n ==>
                  Selection(types, device) == Panicked(NotFound(device.Requested())))
  {
    var adapters := Positions(device, types, Adapters);
    var adaptersOther := Positions(device, types, AdaptersOther);
    var n := device.Num();
    if n < |adapters| {
      PartitionMembership(device, types, adapters[n]);
    } else if n < |adaptersOther| {
      PartitionMembership(device, types, adaptersOther[n]);
    }
  }

  /**
   * The fallback reuses the requested index: with one discrete adapter followed by
   * two `Other` ones, `DiscreteGpu(1)` gets the second `Other` adapter (position 2),
   * not the first one.
   */
  lemma FallbackUsesSameIndex()
    ensures var types := [DeviceType.DiscreteGpu, DeviceType.Other, DeviceType.Other];
            Selection(types, WgpuDevice.DiscreteGpu(1)) == Selected(2, DeviceType.Other)
  {
    var types := [DeviceType.DiscreteGpu, DeviceType.Other, DeviceType.Other];
    var device := WgpuDevice.DiscreteGpu(1);
    assert types[..2] == [DeviceType.DiscreteGpu, DeviceType.Other];
    assert types[..2][..1] == [DeviceType.DiscreteGpu];
    assert Positions(device, types, Adapters) == [0];
    assert Positions(device, types, AdaptersOther) == [1, 2];
  }

  /**
   * A by-index request that succeeds yields an enumerated adapter whose type is
   * the requested one or `Other`.
   */
  lemma SelectedTypeIsRequestedOrOther(types: seq<DeviceType>, device: WgpuDevice)
    requires device.ByIndex()
    ensures var r := Selection(types, device);
            r.Selected? ==>
              && r.position < |types| && types[r.position] == r.deviceType
              && (r.deviceType == device.Requested() || r.deviceType == DeviceType.Other)
  {
    IndexedSelection(types, device);
  }

  /**
   * The scan returns the first candidate, in candidate order, whose score is the
   * maximum over all candidates.
   */
  lemma {:induction false} MostPerformantIsFirstMaximum(types: seq<DeviceType>, candidates: seq<nat>)
    requires ValidPositions(types, candidates)
    ensures var r := MostPerformant(types, candidates);
            r.Some? ==>
              && (forall j :: 0 <= j < |candidates| ==>
                    Score(types[candidates[j]]) <= Score(types[candidates[r.value]]))
              && (forall j :: 0 <= j < r.value ==>
                    Score(types[candidates[j]]) < Score(types[candidates[r.value]]))
  {
    if |candidates| > 0 {
      var last := |candidates| - 1;
      var prefix := candidates[..last];
      assert ValidPositions(types, prefix);
      MostPerformantIsFirstMaximum(types, prefix);
      var best := MostPerformant(types, prefix);
      if best.Some? {
        assert forall j :: 0 <= j < last ==> candidates[j] == prefix[j];
      }
    }
  }

  /** Different device types have different scores. */
  lemma ScoreInjective(a: DeviceType, b: DeviceType)
    requires Score(a) == Score(b)
    ensures a == b
  {
  }

  /** Every enumerated adapter is a candidate of the `BestAvailable` scan. */
  lemma BestAvailableCandidates(types: seq<DeviceType>, q: nat)
    requires q < |types|
    ensures var candidates := Positions(WgpuDevice.BestAvailable, types, Adapters)
                              + Positions(WgpuDevice.BestAvailable, types, AdaptersOther);
            exists j :: 0 <= j < |candidates| && candidates[j] == q
  {
    var adapters := Positions(WgpuDevice.BestAvailable, types, Adapters);
    var adaptersOther := Positions(WgpuDevice.BestAvailable, types, AdaptersOther);
    var candidates := adapters + adaptersOther;
    PartitionMembership(WgpuDevice.BestAvailable, types, q);
    if types[q] == DeviceType.Other {
      var j :| 0 <= j < |adaptersOther| && adaptersOther[j] == q;
      assert candidates[|adapters| + j] == q;
    } else {
      var j :| 0 <= j < |adapters| && adapters[j] == q;
      assert candidates[j] == q;
    }
  }

  /**
   * In the `BestAvailable` candidate order, two adapters of the same type appear
   * in enumeration order.
   */
  lemma SameTypeCandidatesOrdered(types: seq<DeviceType>, k: nat, j: nat)
    requires var candidates := Positions(WgpuDevice.BestAvailable, types, Adapters)
                               + Positions(WgpuDevice.BestAvailable, types, AdaptersOther);
             k < j < |candidates| && types[candidates[k]] == types[candidates[j]]
    ensures var candidates := Positions(WgpuDevice.BestAvailable, types, Adapters)
                              + Positions(WgpuDevice.BestAvailable, types, AdaptersOther);
            candidates[k] < candidates[j]
  {
    var device := WgpuDevice.BestAvailable;
    var adapters := Positions(device, types, Adapters);
    var adaptersOther := Positions(device, types, AdaptersOther);
    var candidates := adapters + adaptersOther;
    PartitionOrdered(device, types, Adapters);
    PartitionOrdered(device, types, AdaptersOther);
    if j < |adapters| {
      assert candidates[k] == adapters[k] && candidates[j] == adapters[j];
    } else if |adapters| <= k {
      assert candidates[k] == adaptersOther[k - |adapters|];
      assert candidates[j] == adaptersOther[j - |adapters|];
    } else {
      // The first is in `adapters`, the second in `adapters_other`: their types differ.
      PartitionMembership(device, types, adapters[k]);
      PartitionMembership(device, types, adaptersOther[j - |adapters|]);
      assert false;
    }
  }

  /**
   * `BestAvailable` panics exactly when no adapter is enumerated; otherwise it
   * returns an adapter of maximal score over all enumerated adapters, and the
   * earliest enumerated one among those of that score.
   */
  lemma BestAvailableSelection(types: seq<DeviceType>)
    ensures var r := Selection(types, WgpuDevice.BestAvailable);
            && (r.Panicked? <==> |types| == 0)
            && (|types| == 0 ==> r == Panicked(NoAdapter))
            && (r.Selected? ==>
                  && r.position < |types| && types[r.position] == r.deviceType
                  && (forall q :: 0 <= q < |types| ==> Score(types[q]) <= Score(r.deviceType))
                  && (forall q :: 0 <= q < |types| && Score(types[q]) == Score(r.deviceType) ==>
                        r.position <= q))
  {
    var device := WgpuDevice.BestAvailable;
    var candidates := Positions(device, types, Adapters) + Positions(device, types, AdaptersOther);
    assert ValidPositions(types, candidates);
    if |types| > 0 {
      BestAvailableCandidates(types, 0);
      var k := MostPerformant(types, candidates).value;
      var p := candidates[k];
      MostPerformantIsFirstMaximum(types, candidates);
      forall q | 0 <= q < |types|
        ensures Score(types[q]) <= Score(types[p])
        ensures Score(types[q]) == Score(types[p]) ==> p <= q
      {
        BestAvailableCandidates(types, q);
        var j :| 0 <= j < |candidates| && candidates[j] == q;
        if Score(types[q]) == Score(types[p]) {
          ScoreInjective(types[q], types[p]);
          if k < j {
            SameTypeCandidatesOrdered(types, k, j);
          }
        }
      }
    }
  }
}
