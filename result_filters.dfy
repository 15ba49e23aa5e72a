/** Building the filter request that the results table sends to the server
    (client/src/Lib/resultFilters.ts). */
module ResultFilters {
  import opened Wrappers
  import opened Interfaces

  /** A range as the client may hold it: absent, or with absent bounds
      (`undefined` and `null` both read as `None`). */
  datatype Bounds = Bounds(min: Option<real>, max: Option<real>)

  /** The filters that arrive with a change; every part may be missing.
      A scenario value of `None` is `undefined` or `null`. */
  datatype FilterInput = FilterInput(
    scenario: Option<seq<(string, Option<string>)>>,
    tags: Option<seq<string>>,
    cost: Option<Bounds>,
    energy: Option<Bounds>,
    thermalDiscomfort: Option<Bounds>,
    aqDiscomfort: Option<Bounds>)

  /** `ResultFilterRequest`: every key is optional. */
  datatype FilterRequest = FilterRequest(
    buildingTypeUid: Option<string>,
    buildingTypeName: Option<string>,
    tags: Option<seq<string>>,
    scenario: Option<seq<(string, string)>>,
    costMin: Option<real>,
    costMax: Option<real>,
    energyMin: Option<real>,
    energyMax: Option<real>,
    thermalDiscomfortMin: Option<real>,
    thermalDiscomfortMax: Option<real>,
    aqDiscomfortMin: Option<real>,
    aqDiscomfortMax: Option<real>,
    emissionsMin: Option<real>,
    emissionsMax: Option<real>)

  /** The request with no key set, `{}`. */
  const EmptyRequest := FilterRequest(None, None, None, None, None, None, None, None,
                                      None, None, None, None, None, None)

  /** `buildingFacets.find`: the first facet with exactly this name. */
  function FindFacet(facets: seq<ResultFacet>, name: string): (r: Option<nat>)
    ensures r.Some? ==> r.value < |facets| && facets[r.value].buildingTypeName == name
    ensures r.Some? ==> forall k :: 0 <= k < r.value ==> facets[k].buildingTypeName != name
    ensures r.None? ==> forall k :: 0 <= k < |facets| ==> facets[k].buildingTypeName != name
  {
    if facets == [] then None
    else if facets[0].buildingTypeName == name then Some(0)
    else
      var r := FindFacet(facets[1..], name);
      if r.None? then None else Some(r.value + 1)
  }

  /** The scenario entries whose value is neither `undefined`, `null` nor
      the empty string, in order. */
  function KeptEntries(entries: seq<(string, Option<string>)>): (r: seq<(string, string)>)
    ensures |r| <= |entries|
    ensures forall k, v :: (k, v) in r <==> (k, Some(v)) in entries && v != ""
  {
    if entries == [] then []
    else
      var rest := KeptEntries(entries[1..]);
      assert forall e :: e in entries <==> e == entries[0] || e in entries[1..];
      var (k, v) := entries[0];
      if v.Some? && v.value != "" then [(k, v.value)] + rest else rest
  }

  /** Filtering keeps the order: it distributes over concatenation. */
  lemma {:induction false} KeptEntriesConcat(a: seq<(string, Option<string>)>, b: seq<(string, Option<string>)>)
    ensures KeptEntries(a + b) == KeptEntries(a) + KeptEntries(b)
  {
    if a == [] {
      assert a + b == b;
    } else {
      KeptEntriesConcat(a[1..], b);
      assert (a + b)[1..] == a[1..] + b;
    }
  }

  lemma {:induction false} KeptEntriesKeys(entries: seq<(string, Option<string>)>)
    requires DistinctKeys(entries)
    ensures DistinctKeys(KeptEntries(entries))
  {
    if entries != [] {
      KeptEntriesKeys(entries[1..]);
      var rest := KeptEntries(entries[1..]);
      var (k, v) := entries[0];
      if v.Some? && v.value != "" {
        forall j | 0 <= j < |rest| ensures rest[j].0 != k {
          assert rest[j] in rest;
          HeadKeyNotLater(entries, (rest[j].0, Some(rest[j].1)));
        }
        ConsDistinct((k, v.value), rest);
      }
    }
  }

  lemma HeadKeyNotLater(entries: seq<(string, Option<string>)>, x: (string, Option<string>))
    requires DistinctKeys(entries) && entries != [] && x in entries[1..]
    ensures x.0 != entries[0].0
  {
    var i :| 0 <= i < |entries[1..]| && entries[1..][i] == x;
    assert entries[i + 1] == x;
  }

  lemma ConsDistinct<V>(x: (string, V), rest: seq<(string, V)>)
    requires DistinctKeys(rest)
    requires forall j :: 0 <= j < |rest| ==> rest[j].0 != x.0
    ensures DistinctKeys([x] + rest)
  {
    var r := [x] + rest;
    forall i, j | 0 <= i < j < |r| ensures r[i].0 != r[j].0 {
      assert r[j] == rest[j - 1];
      if i > 0 {
        assert r[i] == rest[i - 1];
      }
    }
  }

  /** `assignRange`: each bound that is present sets its own key. */
  function AssignRange(range: Option<Bounds>, min: Option<real>, max: Option<real>): (r: (Option<real>, Option<real>))
    ensures range.None? ==> r == (min, max)
    ensures range.Some? ==> r.0 == (if range.value.min.Some? then range.value.min else min)
    ensures range.Some? ==> r.1 == (if range.value.max.Some? then range.value.max else max)
  {
    if range.None? then (min, max)
    else
      var lo := if range.value.min.Some? then range.value.min else min;
      var hi := if range.value.max.Some? then range.value.max else max;
      (lo, hi)
  }

  /** The scenario object of the request: the kept entries assigned one by
      one onto `{}`; distinct keys make it list them in their order. */
  method ScenarioObject(kept: seq<(string, string)>) returns (scenarioObject: seq<(string, string)>)
    requires DistinctKeys(kept)
    ensures scenarioObject == kept
  {
    scenarioObject := [];
    var i := 0;
    while i < |kept|
      invariant 0 <= i <= |kept|
      invariant scenarioObject == kept[..i]
    {
      assert kept[i].0 !in Keys(scenarioObject) by {
        forall k | 0 <= k < i ensures Keys(scenarioObject)[k] != kept[i].0 {
          assert Keys(scenarioObject)[k] == kept[k].0;
        }
      }
      assert kept[..i + 1] == kept[..i] + [kept[i]];
      scenarioObject := Put(scenarioObject, kept[i].0, kept[i].1);
      i := i + 1;
    }
    assert kept[..|kept|] == kept;
  }

  /** `buildFilterRequest`: the request starts empty and each part of the
      payload that carries something sets its keys. */
  method BuildFilterRequest(buildingTypeName: string, filters: FilterInput, facets: seq<ResultFacet>)
    returns (request: FilterRequest)
    requires filters.scenario.Some? ==> DistinctKeys(filters.scenario.value)
    ensures buildingTypeName == [] ==> request.buildingTypeName.None? && request.buildingTypeUid.None?
    ensures buildingTypeName != [] ==> request.buildingTypeName == Some(buildingTypeName)
    ensures buildingTypeName != [] ==>
      request.buildingTypeUid ==
        (var f := FindFacet(facets, buildingTypeName);
         if f.Some? then Some(facets[f.value].buildingTypeUid) else None)
    ensures var kept := KeptEntries(filters.scenario.GetOr([]));
      request.scenario == (if kept == [] then None else Some(kept))
    ensures request.tags ==
      (if filters.tags.Some? && filters.tags.value != [] then filters.tags else None)
    ensures (request.costMin, request.costMax) == AssignRange(filters.cost, None, None)
    ensures (request.energyMin, request.energyMax) == AssignRange(filters.energy, None, None)
    ensures (request.thermalDiscomfortMin, request.thermalDiscomfortMax) == AssignRange(filters.thermalDiscomfort, None, None)
    ensures (request.aqDiscomfortMin, request.aqDiscomfortMax) == AssignRange(filters.aqDiscomfort, None, None)
    ensures request.emissionsMin.None? && request.emissionsMax.None?
    // a payload that carries nothing yields `{}`
    ensures (buildingTypeName == [] && KeptEntries(filters.scenario.GetOr([])) == [] &&
             (filters.tags.None? || filters.tags.value == []) &&
             filters.cost.None? && filters.energy.None? &&
             filters.thermalDiscomfort.None? && filters.aqDiscomfort.None?) ==> request == EmptyRequest
  {
    request := EmptyRequest;
    if buildingTypeName != [] {
      var facet := FindFacet(facets, buildingTypeName);
      if facet.Some? {
        request := request.(buildingTypeUid := Some(facets[facet.value].buildingTypeUid));
      }
      request := request.(buildingTypeName := Some(buildingTypeName));
    }

    var entries := filters.scenario.GetOr([]);
    var kept := KeptEntries(entries);
    KeptEntriesKeys(entries);
    if |kept| > 0 {
      var scenarioObject := ScenarioObject(kept);
      request := request.(scenario := Some(scenarioObject));
    }

    if filters.tags.Some? && |filters.tags.value| > 0 {
      request := request.(tags := filters.tags);
    }

    var range := AssignRange(filters.cost, request.costMin, request.costMax);
    request := request.(costMin := range.0, costMax := range.1);
    range := AssignRange(filters.energy, request.energyMin, request.energyMax);
    request := request.(energyMin := range.0, energyMax := range.1);
    range := AssignRange(filters.thermalDiscomfort, request.thermalDiscomfortMin, request.thermalDiscomfortMax);
    request := request.(thermalDiscomfortMin := range.0, thermalDiscomfortMax := range.1);
    range := AssignRange(filters.aqDiscomfort, request.aqDiscomfortMin, request.aqDiscomfortMax);
    request := request.(aqDiscomfortMin := range.0, aqDiscomfortMax := range.1);
  }
}
