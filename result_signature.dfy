/** The signature details of a result (server/controllers/result.ts):
    the canonical text of a scenario, which results with the same scenario
    share, and the ranges that their KPIs span. */
module ResultSignature {
  import opened Wrappers
  import opened Strings
  import opened Interfaces
  import opened Sequences

  // ---------------------------------------------------------------------
  // stableStringify

  /** The position of a key that occurs in an object. */
  function KeyIndex(entries: seq<(string, Json)>, k: string): (i: nat)
    requires k in Keys(entries)
    ensures i < |entries| && entries[i].0 == k
    ensures forall j :: 0 <= j < i ==> entries[j].0 != k
  {
    if entries[0].0 == k then 0
    else
      assert Keys(entries) == [entries[0].0] + Keys(entries[1..]);
      KeyIndex(entries[1..], k) + 1
  }

  /** `stableStringify`: a primitive is printed by `leaf` (the engine's
      `JSON.stringify`), an array as its items in order, an object as its
      entries in sorted key order. */
  function Stringify(v: Json, leaf: Json -> string): (r: string)
    ensures v.JArr? ==> 2 <= |r| && r[0] == '[' && r[|r| - 1] == ']'
    ensures v.JObj? ==> 2 <= |r| && r[0] == '{' && r[|r| - 1] == '}'
    ensures !v.JArr? && !v.JObj? ==> r == leaf(v)
    ensures v.JArr? && v.items == [] ==> r == "[]"
    ensures v.JObj? && v.entries == [] ==> r == "{}"
    decreases v, 2
  {
    match v
    case JArr(items) => "[" + Join(ItemTexts(v, |items|, leaf), ",") + "]"
    case JObj(entries) =>
      var keys := SortStrings(Keys(entries));
      assert forall k :: k in keys ==> k in Keys(entries) by {
        forall k | k in keys ensures k in Keys(entries) {
          assert k in multiset(keys);
        }
      }
      "{" + Join(EntryTexts(v, keys, leaf), ",") + "}"
    case _ => leaf(v)
  }

  /** The texts of the first `n` items of an array. */
  function ItemTexts(v: Json, n: nat, leaf: Json -> string): (r: seq<string>)
    requires v.JArr? && n <= |v.items|
    ensures |r| == n
    decreases v, 1, n
  {
    if n == 0 then [] else ItemTexts(v, n - 1, leaf) + [Stringify(v.items[n - 1], leaf)]
  }

  /** The `"key":value` texts of an object, for the given keys in order. */
  function EntryTexts(v: Json, keys: seq<string>, leaf: Json -> string): (r: seq<string>)
    requires v.JObj? && forall k :: k in keys ==> k in Keys(v.entries)
    ensures |r| == |keys|
    decreases v, 1, |keys|
  {
    if keys == [] then []
    else
      var i := KeyIndex(v.entries, keys[0]);
      ["\"" + keys[0] + "\":" + Stringify(v.entries[i].1, leaf)] + EntryTexts(v, keys[1..], leaf)
  }

  /** An array prints its items in their own order. */
  lemma {:induction false} ItemTextsInOrder(v: Json, n: nat, leaf: Json -> string, i: nat)
    requires v.JArr? && i < n <= |v.items|
    ensures ItemTexts(v, n, leaf)[i] == Stringify(v.items[i], leaf)
  {
    if i < n - 1 {
      ItemTextsInOrder(v, n - 1, leaf, i);
    }
  }

  /** An object prints its keys in sorted order, each with its own value. */
  lemma {:induction false} EntryTextsInOrder(v: Json, keys: seq<string>, leaf: Json -> string, i: nat)
    requires v.JObj? && forall k :: k in keys ==> k in Keys(v.entries)
    requires i < |keys|
    ensures EntryTexts(v, keys, leaf)[i] ==
      "\"" + keys[i] + "\":" + Stringify(v.entries[KeyIndex(v.entries, keys[i])].1, leaf)
  {
    if i > 0 {
      EntryTextsInOrder(v, keys[1..], leaf, i - 1);
    }
  }

  /** In an object whose keys are distinct, the entry found for a key is
      the only one with that key. */
  lemma KeyIndexOfMember(entries: seq<(string, Json)>, e: (string, Json))
    requires DistinctKeys(entries) && e in entries
    ensures e.0 in Keys(entries) && entries[KeyIndex(entries, e.0)] == e
  {
    var j :| 0 <= j < |entries| && entries[j] == e;
    assert Keys(entries)[j] == e.0;
  }

  /** Objects with the same entries in another order print the same
      entries for the same keys. */
  lemma {:induction false} EntryTextsAgree(a: seq<(string, Json)>, b: seq<(string, Json)>, keys: seq<string>, leaf: Json -> string)
    requires DistinctKeys(a) && DistinctKeys(b) && multiset(a) == multiset(b)
    requires forall k :: k in keys ==> k in Keys(a) && k in Keys(b)
    ensures EntryTexts(JObj(a), keys, leaf) == EntryTexts(JObj(b), keys, leaf)
  {
    if keys != [] {
      var k := keys[0];
      var ea := a[KeyIndex(a, k)];
      assert ea in a;
      assert ea in multiset(b);
      KeyIndexOfMember(b, ea);
      EntryTextsAgree(a, b, keys[1..], leaf);
    }
  }

  lemma PermutedKeysDistinct(a: seq<(string, Json)>, b: seq<(string, Json)>)
    requires DistinctKeys(a) && multiset(a) == multiset(b)
    ensures DistinctKeys(b)
    ensures forall k :: k in Keys(a) <==> k in Keys(b)
  {
    assert NoDuplicates(a) by {
      forall i, j | 0 <= i < j < |a| ensures a[i] != a[j] {
        assert a[i].0 != a[j].0;
      }
    }
    PermutationKeepsNoDuplicates(a, b);
    forall i, j | 0 <= i < j < |b| ensures b[i].0 != b[j].0 {
      assert b[i] in multiset(a) && b[j] in multiset(a);
      var i' :| 0 <= i' < |a| && a[i'] == b[i];
      var j' :| 0 <= j' < |a| && a[j'] == b[j];
      assert b[i] != b[j];
      assert i' != j';
      assert a[i'].0 != a[j'].0;
    }
    SameEntriesSameKeys(a, b);
  }

  lemma SameEntriesSameKeys(a: seq<(string, Json)>, b: seq<(string, Json)>)
    requires multiset(a) == multiset(b)
    ensures forall k :: k in Keys(a) <==> k in Keys(b)
  {
    forall k ensures k in Keys(a) <==> k in Keys(b) {
      if k in Keys(a) {
        var i :| 0 <= i < |a| && Keys(a)[i] == k;
        assert a[i] in multiset(b);
        var j :| 0 <= j < |b| && b[j] == a[i];
        assert Keys(b)[j] == k;
      }
      if k in Keys(b) {
        var i :| 0 <= i < |b| && Keys(b)[i] == k;
        assert b[i] in multiset(a);
        var j :| 0 <= j < |a| && a[j] == b[i];
        assert Keys(a)[j] == k;
      }
    }
  }

  /** The sorted keys of an object with distinct keys are strictly sorted. */
  lemma SortedKeysStrict(entries: seq<(string, Json)>)
    requires DistinctKeys(entries)
    ensures StrictlySorted(SortStrings(Keys(entries)))
  {
    var ks := Keys(entries);
    assert NoDuplicates(ks) by {
      forall i, j | 0 <= i < j < |ks| ensures ks[i] != ks[j] {
        assert ks[i] == entries[i].0 && ks[j] == entries[j].0;
      }
    }
    var sorted := SortStrings(ks);
    PermutationKeepsNoDuplicates(ks, sorted);
    SortedDistinctIsStrict(sorted);
  }

  /** The canonical text does not depend on the order in which an object's
      keys were inserted. */
  lemma StringifyIgnoresKeyOrder(a: seq<(string, Json)>, b: seq<(string, Json)>, leaf: Json -> string)
    requires DistinctKeys(a) && multiset(a) == multiset(b)
    ensures Stringify(JObj(a), leaf) == Stringify(JObj(b), leaf)
  {
    PermutedKeysDistinct(a, b);
    var ka := SortStrings(Keys(a));
    var kb := SortStrings(Keys(b));
    SortedKeysStrict(a);
    SortedKeysStrict(b);
    forall k ensures k in ka <==> k in kb {
      assert k in ka <==> k in multiset(ka);
      assert k in kb <==> k in multiset(kb);
      assert k in Keys(a) <==> k in multiset(Keys(a));
      assert k in Keys(b) <==> k in multiset(Keys(b));
    }
    StrictlySortedUnique(ka, kb);
    forall k | k in ka ensures k in Keys(a) && k in Keys(b) {
      assert k in multiset(ka);
    }
    EntryTextsAgree(a, b, ka, leaf);
  }

  // ---------------------------------------------------------------------
  // getKPIRanges

  datatype Kpi =
    | ThermalDiscomfort | EnergyUse | Cost | Emissions | Iaq | TimeRatio | PeakElectricity
    | PeakGas | PeakDistrictHeating

  /** The value of a KPI that the ranges take into account: every value of
      the first seven, only a truthy (present and non-zero) peak gas or
      district heating value. */
  function Reading<A>(r: Result<A>, k: Kpi): (x: Option<real>)
    ensures k != PeakGas && k != PeakDistrictHeating ==> x.Some?
    ensures x.Some? && (k == PeakGas || k == PeakDistrictHeating) ==> x.value != 0.0
  {
    match k
    case ThermalDiscomfort => Some(r.thermalDiscomfort)
    case EnergyUse => Some(r.energyUse)
    case Cost => Some(r.cost)
    case Emissions => Some(r.emissions)
    case Iaq => Some(r.iaq)
    case TimeRatio => Some(r.timeRatio)
    case PeakElectricity => Some(r.peakElectricity)
    case PeakGas => if r.peakGas.Some? && r.peakGas.value != 0.0 then r.peakGas else None
    case PeakDistrictHeating =>
      if r.peakDistrictHeating.Some? && r.peakDistrictHeating.value != 0.0 then r.peakDistrictHeating else None
  }

  /** Where the range of a KPI starts: the target's value, `|| 0.0` for
      the two optional peaks. */
  function Start<A>(target: Result<A>, k: Kpi): real {
    Reading(target, k).GetOr(0.0)
  }

  /** A reading lowers a minimum it falls below. */
  function Lowered(lo: real, x: Option<real>): real {
    if x.Some? && x.value < lo then x.value else lo
  }

  /** A reading raises a maximum it exceeds. */
  function Raised(hi: real, x: Option<real>): real {
    if x.Some? && x.value > hi then x.value else hi
  }

  /** The running minimum of the loop over `results`. */
  function Low<A>(results: seq<Result<A>>, k: Kpi, init: real): real {
    if results == [] then init
    else Lowered(Low(results[..|results| - 1], k, init), Reading(results[|results| - 1], k))
  }

  /** The running maximum of the loop over `results`. */
  function High<A>(results: seq<Result<A>>, k: Kpi, init: real): real {
    if results == [] then init
    else Raised(High(results[..|results| - 1], k, init), Reading(results[|results| - 1], k))
  }

  /** The minimum lies below the start and every reading, and is one of
      them. */
  lemma {:induction false} LowIsMinimum<A>(results: seq<Result<A>>, k: Kpi, init: real)
    ensures Low(results, k, init) <= init
    ensures forall i :: 0 <= i < |results| && Reading(results[i], k).Some? ==>
      Low(results, k, init) <= Reading(results[i], k).value
    ensures Low(results, k, init) == init ||
      exists i :: 0 <= i < |results| && Reading(results[i], k) == Some(Low(results, k, init))
  {
    if results != [] {
      var init' := results[..|results| - 1];
      LowIsMinimum(init', k, init);
      assert forall i :: 0 <= i < |init'| ==> init'[i] == results[i];
    }
  }

  /** The maximum lies above the start and every reading, and is one of
      them. */
  lemma {:induction false} HighIsMaximum<A>(results: seq<Result<A>>, k: Kpi, init: real)
    ensures High(results, k, init) >= init
    ensures forall i :: 0 <= i < |results| && Reading(results[i], k).Some? ==>
      High(results, k, init) >= Reading(results[i], k).value
    ensures High(results, k, init) == init ||
      exists i :: 0 <= i < |results| && Reading(results[i], k) == Some(High(results, k, init))
  {
    if results != [] {
      var init' := results[..|results| - 1];
      HighIsMaximum(init', k, init);
      assert forall i :: 0 <= i < |init'| ==> init'[i] == results[i];
    }
  }

  /** One step of the loop: the running bounds after result `i`. */
  lemma BoundsStep<A>(results: seq<Result<A>>, i: nat, k: Kpi, init: real)
    requires i < |results|
    ensures Low(results[..i + 1], k, init) == Lowered(Low(results[..i], k, init), Reading(results[i], k))
    ensures High(results[..i + 1], k, init) == Raised(High(results[..i], k, init), Reading(results[i], k))
  {
    assert results[..i + 1][..i] == results[..i];
  }

  function KpiRange<A>(results: seq<Result<A>>, target: Result<A>, k: Kpi): Range {
    Range(Low(results, k, Start(target, k)), High(results, k, Start(target, k)))
  }

  /** The range of one KPI in the signature details. */
  function RangeOf(d: SignatureDetails, k: Kpi): Range {
    match k
    case ThermalDiscomfort => d.thermalDiscomfort
    case EnergyUse => d.energyUse
    case Cost => d.cost
    case Emissions => d.emissions
    case Iaq => d.iaq
    case TimeRatio => d.timeRatio
    case PeakElectricity => d.peakElectricity
    case PeakGas => d.peakGas
    case PeakDistrictHeating => d.peakDistrictHeating
  }

  /** A range covers the target's value and every value read from the
      results. */
  predicate Covers<A>(range: Range, results: seq<Result<A>>, target: Result<A>, k: Kpi) {
    range.min <= Start(target, k) <= range.max &&
    forall i :: 0 <= i < |results| && Reading(results[i], k).Some? ==>
      range.min <= Reading(results[i], k).value <= range.max
  }

  /** The range of a KPI is the tightest one covering the target and the
      results: each end is the target's value or one of the readings. */
  lemma KpiRangeIsTight<A>(results: seq<Result<A>>, target: Result<A>, k: Kpi)
    ensures Covers(KpiRange(results, target, k), results, target, k)
    ensures var r := KpiRange(results, target, k);
      (r.min == Start(target, k) || exists i :: 0 <= i < |results| && Reading(results[i], k) == Some(r.min)) &&
      (r.max == Start(target, k) || exists i :: 0 <= i < |results| && Reading(results[i], k) == Some(r.max))
  {
    LowIsMinimum(results, k, Start(target, k));
    HighIsMaximum(results, k, Start(target, k));
  }

  /** The signature details `getKPIRanges` computes: the number of results
      and the range of every KPI. */
  ghost function KpiDetails<A>(results: seq<Result<A>>, target: Result<A>): SignatureDetails {
    SignatureDetails(
      |results|,
      KpiRange(results, target, ThermalDiscomfort),
      KpiRange(results, target, EnergyUse),
      KpiRange(results, target, Cost),
      KpiRange(results, target, Emissions),
      KpiRange(results, target, Iaq),
      KpiRange(results, target, TimeRatio),
      KpiRange(results, target, PeakElectricity),
      KpiRange(results, target, PeakGas),
      KpiRange(results, target, PeakDistrictHeating))
  }

  /** Every range of the details is that KPI's range, so it covers the
      target and the results. */
  lemma KpiDetailsCover<A>(results: seq<Result<A>>, target: Result<A>)
    ensures forall k :: RangeOf(KpiDetails(results, target), k) == KpiRange(results, target, k)
    ensures forall k :: Covers(RangeOf(KpiDetails(results, target), k), results, target, k)
  {
    forall k ensures Covers(KpiRange(results, target, k), results, target, k) {
      KpiRangeIsTight(results, target, k);
    }
  }

  /** The two updates of one KPI in the loop body: a reading below the
      minimum lowers it, one above the maximum raises it; so the running
      bounds over `results[..i]` become those over `results[..i + 1]`. */
  method Widen<A>(results: seq<Result<A>>, i: nat, k: Kpi, ghost init: real, lo: real, hi: real)
    returns (lo': real, hi': real)
    requires i < |results|
    requires lo == Low(results[..i], k, init) && hi == High(results[..i], k, init)
    ensures lo' == Lowered(lo, Reading(results[i], k)) && hi' == Raised(hi, Reading(results[i], k))
    ensures lo' == Low(results[..i + 1], k, init) && hi' == High(results[..i + 1], k, init)
  {
    BoundsStep(results, i, k, init);
    var x := Reading(results[i], k);
    lo', hi' := lo, hi;
    if x.Some? && x.value < lo' {
      lo' := x.value;
    }
    if x.Some? && x.value > hi' {
      hi' := x.value;
    }
  }

  /** `getKPIRanges`: the number of results, and for every KPI the smallest
      and largest value among the target and the results. */
  method GetKpiRanges<A>(results: seq<Result<A>>, result: Result<A>) returns (d: SignatureDetails)
    ensures d.numResults == |results|
    ensures forall k :: RangeOf(d, k) == KpiRange(results, result, k)
    ensures forall k :: Covers(RangeOf(d, k), results, result, k)
  {
    var tdMin, tdMax := result.thermalDiscomfort, result.thermalDiscomfort;
    var energyMin, energyMax := result.energyUse, result.energyUse;
    var costMin, costMax := result.cost, result.cost;
    var emissionsMin, emissionsMax := result.emissions, result.emissions;
    var iaqMin, iaqMax := result.iaq, result.iaq;
    var timeMin, timeMax := result.timeRatio, result.timeRatio;
    var peakElectricityMin, peakElectricityMax := result.peakElectricity, result.peakElectricity;
    var gas := if result.peakGas.Some? && result.peakGas.value != 0.0 then result.peakGas.value else 0.0;
    var peakGasMin, peakGasMax := gas, gas;
    var heating := if result.peakDistrictHeating.Some? && result.peakDistrictHeating.value != 0.0
                   then result.peakDistrictHeating.value else 0.0;
    var peakDistrictHeatingMin, peakDistrictHeatingMax := heating, heating;

    var i := 0;
    while i < |results|
      invariant 0 <= i <= |results|
      invariant tdMin == Low(results[..i], ThermalDiscomfort, Start(result, ThermalDiscomfort))
      invariant tdMax == High(results[..i], ThermalDiscomfort, Start(result, ThermalDiscomfort))
      invariant energyMin == Low(results[..i], EnergyUse, Start(result, EnergyUse))
      invariant energyMax == High(results[..i], EnergyUse, Start(result, EnergyUse))
      invariant costMin == Low(results[..i], Cost, Start(result, Cost))
      invariant costMax == High(results[..i], Cost, Start(result, Cost))
      invariant emissionsMin == Low(results[..i], Emissions, Start(result, Emissions))
      invariant emissionsMax == High(results[..i], Emissions, Start(result, Emissions))
      invariant iaqMin == Low(results[..i], Iaq, Start(result, Iaq))
      invariant iaqMax == High(results[..i], Iaq, Start(result, Iaq))
      invariant timeMin == Low(results[..i], TimeRatio, Start(result, TimeRatio))
      invariant timeMax == High(results[..i], TimeRatio, Start(result, TimeRatio))
      invariant peakElectricityMin == Low(results[..i], PeakElectricity, Start(result, PeakElectricity))
      invariant peakElectricityMax == High(results[..i], PeakElectricity, Start(result, PeakElectricity))
      invariant peakGasMin == Low(results[..i], PeakGas, Start(result, PeakGas))
      invariant peakGasMax == High(results[..i], PeakGas, Start(result, PeakGas))
      invariant peakDistrictHeatingMin == Low(results[..i], PeakDistrictHeating, Start(result, PeakDistrictHeating))
      invariant peakDistrictHeatingMax == High(results[..i], PeakDistrictHeating, Start(result, PeakDistrictHeating))
    {
      tdMin, tdMax := Widen(results, i, ThermalDiscomfort, Start(result, ThermalDiscomfort), tdMin, tdMax);
      energyMin, energyMax := Widen(results, i, EnergyUse, Start(result, EnergyUse), energyMin, energyMax);
      costMin, costMax := Widen(results, i, Cost, Start(result, Cost), costMin, costMax);
      emissionsMin, emissionsMax := Widen(results, i, Emissions, Start(result, Emissions), emissionsMin, emissionsMax);
      iaqMin, iaqMax := Widen(results, i, Iaq, Start(result, Iaq), iaqMin, iaqMax);
      timeMin, timeMax := Widen(results, i, TimeRatio, Start(result, TimeRatio), timeMin, timeMax);
      peakElectricityMin, peakElectricityMax := Widen(results, i, PeakElectricity, Start(result, PeakElectricity), peakElectricityMin, peakElectricityMax);
      peakGasMin, peakGasMax := Widen(results, i, PeakGas, Start(result, PeakGas), peakGasMin, peakGasMax);
      peakDistrictHeatingMin, peakDistrictHeatingMax :=
        Widen(results, i, PeakDistrictHeating, Start(result, PeakDistrictHeating), peakDistrictHeatingMin, peakDistrictHeatingMax);
      i := i + 1;
    }
    assert results[..|results|] == results;

    d := SignatureDetails(
      |results|,
      Range(tdMin, tdMax),
      Range(energyMin, energyMax),
      Range(costMin, costMax),
      Range(emissionsMin, emissionsMax),
      Range(iaqMin, iaqMax),
      Range(timeMin, timeMax),
      Range(peakElectricityMin, peakElectricityMax),
      Range(peakGasMin, peakGasMax),
      Range(peakDistrictHeatingMin, peakDistrictHeatingMax));
    assert d == KpiDetails(results, result);
    KpiDetailsCover(results, result);
  }
}
