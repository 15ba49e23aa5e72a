/** The two pure helpers of the results hook: turning a filter request into
    query parameters, and merging a new page into the loaded results
    (client/src/Lib/useResultsApi.ts). */
module ResultsApi {
  import opened Wrappers
  import opened Strings
  import opened Interfaces
  import opened ResultFilters
  import opened TableHelpers

  /** A query parameter value. */
  datatype Param = PStr(s: string) | PNum(n: real)

  /** The query parameters `serializeFilters` can write. */
  datatype ParamKey =
    | BuildingTypeUidKey | BuildingTypeNameKey | TagsKey
    | CostMinKey | CostMaxKey | EnergyMinKey | EnergyMaxKey
    | ThermalDiscomfortMinKey | ThermalDiscomfortMaxKey
    | AqDiscomfortMinKey | AqDiscomfortMaxKey
    | EmissionsMinKey | EmissionsMaxKey
    | ScenarioKey(key: string)

  const ScenarioPrefix := "scenario."

  /** The name a parameter has on the query string. */
  function KeyName(k: ParamKey): string {
    match k
    case BuildingTypeUidKey => "buildingTypeUid"
    case BuildingTypeNameKey => "buildingTypeName"
    case TagsKey => "tags"
    case CostMinKey => "costMin"
    case CostMaxKey => "costMax"
    case EnergyMinKey => "energyMin"
    case EnergyMaxKey => "energyMax"
    case ThermalDiscomfortMinKey => "thermalDiscomfortMin"
    case ThermalDiscomfortMaxKey => "thermalDiscomfortMax"
    case AqDiscomfortMinKey => "aqDiscomfortMin"
    case AqDiscomfortMaxKey => "aqDiscomfortMax"
    case EmissionsMinKey => "emissionsMin"
    case EmissionsMaxKey => "emissionsMax"
    case ScenarioKey(key) => ScenarioPrefix + key
  }

  /** Distinct parameters have distinct names, so the query string holds
      each one once; in particular no `scenario.<key>` clashes with a fixed
      name. */
  lemma KeyNameInjective(a: ParamKey, b: ParamKey)
    requires KeyName(a) == KeyName(b)
    ensures a == b
  {
    if a.ScenarioKey? && b.ScenarioKey? {
      assert KeyName(a)[|ScenarioPrefix|..] == a.key;
      assert KeyName(b)[|ScenarioPrefix|..] == b.key;
    } else if a.ScenarioKey? {
      ScenarioNameNotFixed(a.key, b);
    } else if b.ScenarioKey? {
      ScenarioNameNotFixed(b.key, a);
    }
  }

  lemma ScenarioNameNotFixed(k: string, b: ParamKey)
    requires !b.ScenarioKey?
    ensures KeyName(ScenarioKey(k)) != KeyName(b)
  {
    assert KeyName(ScenarioKey(k))[0] == 's';
  }

  /** The five ranges' bounds, by parameter. */
  predicate IsRangeKey(k: ParamKey) {
    !(k.ScenarioKey? || k.BuildingTypeUidKey? || k.BuildingTypeNameKey? || k.TagsKey?)
  }

  function RangeBound(filters: FilterRequest, k: ParamKey): Option<real>
    requires IsRangeKey(k)
  {
    match k
    case CostMinKey => filters.costMin
    case CostMaxKey => filters.costMax
    case EnergyMinKey => filters.energyMin
    case EnergyMaxKey => filters.energyMax
    case ThermalDiscomfortMinKey => filters.thermalDiscomfortMin
    case ThermalDiscomfortMaxKey => filters.thermalDiscomfortMax
    case AqDiscomfortMinKey => filters.aqDiscomfortMin
    case AqDiscomfortMaxKey => filters.aqDiscomfortMax
    case EmissionsMinKey => filters.emissionsMin
    case EmissionsMaxKey => filters.emissionsMax
  }

  /** The order in which `serializeFilters` calls `assignRange`. */
  const RangeKeys: seq<ParamKey> := [
    CostMinKey, CostMaxKey, EnergyMinKey, EnergyMaxKey,
    ThermalDiscomfortMinKey, ThermalDiscomfortMaxKey,
    AqDiscomfortMinKey, AqDiscomfortMaxKey, EmissionsMinKey, EmissionsMaxKey]

  lemma RangeKeysComplete(k: ParamKey)
    ensures IsRangeKey(k) <==> k in RangeKeys
  {
  }

  /** `serializeFilters`.  The parameters are a map from parameter to
      value; their insertion order is not modelled. */
  method SerializeFilters(filters: FilterRequest) returns (params: map<ParamKey, Param>)
    requires filters.scenario.Some? ==> DistinctKeys(filters.scenario.value)
    ensures HeadFacts(filters, params)
    ensures ScenarioFacts(filters, params)
    ensures RangeFacts(filters, params)
  {
    var head := SerializeHead(filters);
    var withScenario := SerializeScenario(filters, head);
    HeadFactsTransfer(filters, head, withScenario);
    params := SerializeRanges(filters, withScenario);
    HeadFactsTransfer(filters, withScenario, params);
    ScenarioFactsTransfer(filters, withScenario, params);
  }

  method SerializeScenario(filters: FilterRequest, params: map<ParamKey, Param>) returns (r: map<ParamKey, Param>)
    requires filters.scenario.Some? ==> DistinctKeys(filters.scenario.value)
    requires forall k :: k in params ==> k in {BuildingTypeUidKey, BuildingTypeNameKey, TagsKey}
    ensures forall k: ParamKey :: !k.ScenarioKey? ==> SameAt(params, r, k)
    ensures ScenarioFacts(filters, r)
  {
    if filters.scenario.Some? {
      r := AssignScenario(params, filters.scenario.value);
    } else {
      r := params;
    }
  }

  method SerializeRanges(filters: FilterRequest, params: map<ParamKey, Param>) returns (r: map<ParamKey, Param>)
    requires forall k :: k in params ==> !IsRangeKey(k)
    ensures forall k: ParamKey :: !IsRangeKey(k) ==> SameAt(params, r, k)
    ensures RangeFacts(filters, r)
  {
    assert forall k :: k in RangeKeys ==> IsRangeKey(k);
    r := AssignRanges(params, filters, RangeKeys);
    forall k | IsRangeKey(k)
      ensures (k in r <==> RangeBound(filters, k).Some?) &&
              (k in r ==> r[k] == PNum(RangeBound(filters, k).value))
    {
      RangeKeysComplete(k);
    }
    forall k: ParamKey | !IsRangeKey(k)
      ensures SameAt(params, r, k)
    {
      RangeKeysComplete(k);
    }
  }

  /** The first three steps: the building type's uid and name when truthy,
      and the tags joined with ',' when there are any. */
  method SerializeHead(filters: FilterRequest) returns (params: map<ParamKey, Param>)
    ensures HeadFacts(filters, params)
    ensures forall k :: k in params ==> k in {BuildingTypeUidKey, BuildingTypeNameKey, TagsKey}
  {
    params := map[];
    if filters.buildingTypeUid.Some? && filters.buildingTypeUid.value != "" {
      params := params[BuildingTypeUidKey := PStr(filters.buildingTypeUid.value)];
    }
    if filters.buildingTypeName.Some? && filters.buildingTypeName.value != "" {
      params := params[BuildingTypeNameKey := PStr(filters.buildingTypeName.value)];
    }
    if filters.tags.Some? && |filters.tags.value| > 0 {
      params := params[TagsKey := PStr(Join(filters.tags.value, ","))];
    }
  }

  /** Each range bound is written, under its own parameter, exactly when it
      is not `undefined`. */
  ghost predicate RangeFacts(filters: FilterRequest, params: map<ParamKey, Param>) {
    forall k :: IsRangeKey(k) ==>
      (k in params <==> RangeBound(filters, k).Some?) &&
      (k in params ==> params[k] == PNum(RangeBound(filters, k).value))
  }

  /** What the scenario loop of `serializeFilters` writes: `scenario.<key>`
      for exactly the entries with a non-empty value, holding that value. */
  ghost predicate ScenarioFacts(filters: FilterRequest, params: map<ParamKey, Param>) {
    (forall k :: ScenarioKey(k) in params ==>
       filters.scenario.Some? && exists v :: (k, v) in filters.scenario.value && v != "" && params[ScenarioKey(k)] == PStr(v)) &&
    (forall k, v :: filters.scenario.Some? && (k, v) in filters.scenario.value && v != "" ==>
       ScenarioKey(k) in params && params[ScenarioKey(k)] == PStr(v))
  }

  lemma ScenarioFactsTransfer(filters: FilterRequest, m: map<ParamKey, Param>, m': map<ParamKey, Param>)
    requires ScenarioFacts(filters, m)
    requires forall k: ParamKey :: !IsRangeKey(k) ==> SameAt(m, m', k)
    ensures ScenarioFacts(filters, m')
  {
    forall k | ScenarioKey(k) in m'
      ensures filters.scenario.Some? && exists v :: (k, v) in filters.scenario.value && v != "" && m'[ScenarioKey(k)] == PStr(v)
    {
      assert SameAt(m, m', ScenarioKey(k));
    }
    forall k, v | filters.scenario.Some? && (k, v) in filters.scenario.value && v != ""
      ensures ScenarioKey(k) in m' && m'[ScenarioKey(k)] == PStr(v)
    {
      assert SameAt(m, m', ScenarioKey(k));
    }
  }

  lemma HeadFactsTransfer(filters: FilterRequest, m: map<ParamKey, Param>, m': map<ParamKey, Param>)
    requires HeadFacts(filters, m)
    requires forall k: ParamKey :: k in {BuildingTypeUidKey, BuildingTypeNameKey, TagsKey} ==> SameAt(m, m', k)
    ensures HeadFacts(filters, m')
  {
    assert SameAt(m, m', BuildingTypeUidKey) && SameAt(m, m', BuildingTypeNameKey) && SameAt(m, m', TagsKey);
  }

  /** What the first three steps of `serializeFilters` write. */
  ghost predicate HeadFacts(filters: FilterRequest, params: map<ParamKey, Param>) {
    (BuildingTypeUidKey in params <==> filters.buildingTypeUid.Some? && filters.buildingTypeUid.value != "") &&
    (BuildingTypeUidKey in params ==> params[BuildingTypeUidKey] == PStr(filters.buildingTypeUid.value)) &&
    (BuildingTypeNameKey in params <==> filters.buildingTypeName.Some? && filters.buildingTypeName.value != "") &&
    (BuildingTypeNameKey in params ==> params[BuildingTypeNameKey] == PStr(filters.buildingTypeName.value)) &&
    (TagsKey in params <==> filters.tags.Some? && filters.tags.value != []) &&
    (TagsKey in params ==> params[TagsKey] == PStr(Join(filters.tags.value, ",")))
  }

  ghost predicate SameAt(m: map<ParamKey, Param>, m': map<ParamKey, Param>, k: ParamKey) {
    (k in m <==> k in m') && (k in m ==> m[k] == m'[k])
  }

  /** The scenario loop: each entry with a non-empty value is written
      under `scenario.<key>`; no other parameter changes. */
  method AssignScenario(params: map<ParamKey, Param>, entries: seq<(string, string)>)
    returns (r: map<ParamKey, Param>)
    requires forall key :: key in params ==> !key.ScenarioKey?
    ensures forall key: ParamKey :: !key.ScenarioKey? ==> (key in r <==> key in params) && (key in params ==> r[key] == params[key])
    ensures forall k :: ScenarioKey(k) in r ==>
      exists v :: (k, v) in entries && v != "" && r[ScenarioKey(k)] == PStr(v)
    ensures DistinctKeys(entries) ==> forall k, v :: (k, v) in entries && v != "" ==>
      ScenarioKey(k) in r && r[ScenarioKey(k)] == PStr(v)
  {
    r := params;
    var i := 0;
    while i < |entries|
      invariant 0 <= i <= |entries|
      invariant forall key: ParamKey :: !key.ScenarioKey? ==> (key in r <==> key in params) && (key in params ==> r[key] == params[key])
      invariant forall k :: ScenarioKey(k) in r ==>
        exists m :: 0 <= m < i && entries[m].0 == k && entries[m].1 != "" && r[ScenarioKey(k)] == PStr(entries[m].1)
      invariant DistinctKeys(entries) ==> forall m :: 0 <= m < i && entries[m].1 != "" ==>
        ScenarioKey(entries[m].0) in r && r[ScenarioKey(entries[m].0)] == PStr(entries[m].1)
    {
      var (key, value) := entries[i];
      if value != "" {
        r := r[ScenarioKey(key) := PStr(value)];
      }
      i := i + 1;
    }
    forall k | ScenarioKey(k) in r
      ensures exists v :: (k, v) in entries && v != "" && r[ScenarioKey(k)] == PStr(v)
    {
      var m :| 0 <= m < i && entries[m].0 == k && entries[m].1 != "" && r[ScenarioKey(k)] == PStr(entries[m].1);
      assert entries[m] == (k, entries[m].1);
    }
    if DistinctKeys(entries) {
      forall k, v | (k, v) in entries && v != ""
        ensures ScenarioKey(k) in r && r[ScenarioKey(k)] == PStr(v)
      {
        var m :| 0 <= m < |entries| && entries[m] == (k, v);
      }
    }
  }

  /** `assignRange` over the given range parameters: a bound is
      written exactly when it is not `undefined`; no other parameter
      changes. */
  function AssignRanges(params: map<ParamKey, Param>, filters: FilterRequest, keys: seq<ParamKey>): (r: map<ParamKey, Param>)
    requires forall k :: k in keys ==> IsRangeKey(k)
    ensures forall k :: k !in keys ==> (k in r <==> k in params) && (k in params ==> r[k] == params[k])
    ensures forall k :: k in keys ==> (k in r <==> RangeBound(filters, k).Some? || k in params)
    ensures forall k :: k in keys && RangeBound(filters, k).Some? ==> r[k] == PNum(RangeBound(filters, k).value)
    ensures forall k :: k in keys && RangeBound(filters, k).None? && k in params ==> r[k] == params[k]
    decreases |keys|
  {
    if keys == [] then params
    else
      var k := keys[0];
      var bound := RangeBound(filters, k);
      var p := if bound.Some? then params[k := PNum(bound.value)] else params;
      assert forall k' :: k' in keys <==> k' == k || k' in keys[1..];
      AssignRanges(p, filters, keys[1..])
  }

  /** The last item of `items` with this uid, the one a `Map` keyed by uid
      keeps. */
  function LastWithUid<A>(items: seq<Result<A>>, uid: string): (r: Option<Result<A>>)
    ensures r.Some? ==> r.value in items && r.value.uid == uid
    ensures r.None? <==> forall i :: 0 <= i < |items| ==> items[i].uid != uid
  {
    if items == [] then None
    else
      var last := items[|items| - 1];
      assert items == items[..|items| - 1] + [last];
      if last.uid == uid then Some(last) else LastWithUid(items[..|items| - 1], uid)
  }

  /** The item `mergeResults` keeps for a uid: the last incoming one, else
      the last current one. */
  function Merged<A>(current: seq<Result<A>>, incoming: seq<Result<A>>, uid: string): Option<Result<A>> {
    var fromIncoming := LastWithUid(incoming, uid);
    if fromIncoming.Some? then fromIncoming else LastWithUid(current, uid)
  }

  /** `map.set(item.uid, item)` for each item in turn: a key keeps its
      place, takes the last item with that uid, and new uids are appended. */
  method SetAll<A>(entries: seq<(string, Result<A>)>, items: seq<Result<A>>) returns (r: seq<(string, Result<A>)>)
    requires DistinctKeys(entries)
    requires forall m :: 0 <= m < |entries| ==> entries[m].1.uid == entries[m].0
    ensures DistinctKeys(r)
    ensures forall m :: 0 <= m < |r| ==> r[m].1.uid == r[m].0
    ensures forall k :: Get(r, k) == (var last := LastWithUid(items, k); if last.Some? then last else Get(entries, k))
  {
    r := entries;
    var i := 0;
    while i < |items|
      invariant 0 <= i <= |items|
      invariant DistinctKeys(r)
      invariant forall m :: 0 <= m < |r| ==> r[m].1.uid == r[m].0
      invariant forall k :: Get(r, k) == (var last := LastWithUid(items[..i], k); if last.Some? then last else Get(entries, k))
    {
      var item := items[i];
      PutKeepsDistinct(r, item.uid, item);
      ghost var prev := r;
      r := Put(r, item.uid, item);
      SetAllStep(entries, items, i, prev, r);
      PutKeepsUids(prev, item);
      i := i + 1;
    }
    assert items[..i] == items;
  }

  lemma SetAllStep<A>(entries: seq<(string, Result<A>)>, items: seq<Result<A>>, i: nat,
                      r: seq<(string, Result<A>)>, r': seq<(string, Result<A>)>)
    requires i < |items| && r' == Put(r, items[i].uid, items[i])
    requires forall k :: Get(r, k) == (var last := LastWithUid(items[..i], k); if last.Some? then last else Get(entries, k))
    ensures forall k :: Get(r', k) == (var last := LastWithUid(items[..i + 1], k); if last.Some? then last else Get(entries, k))
  {
    assert items[..i + 1][..i] == items[..i];
    forall k ensures Get(r', k) == (var last := LastWithUid(items[..i + 1], k); if last.Some? then last else Get(entries, k)) {
      PutGet(r, items[i].uid, items[i], k);
    }
  }

  /** Setting an item under its own uid keeps every entry keyed by its uid. */
  lemma PutKeepsUids<A>(r: seq<(string, Result<A>)>, item: Result<A>)
    requires forall m :: 0 <= m < |r| ==> r[m].1.uid == r[m].0
    ensures var r' := Put(r, item.uid, item);
      forall m :: 0 <= m < |r'| ==> r'[m].1.uid == r'[m].0
  {
    var r' := Put(r, item.uid, item);
    forall m | 0 <= m < |r'| ensures r'[m].1.uid == r'[m].0 {
      if r'[m] != (item.uid, item) {
        var j :| 0 <= j < |r| && r[j] == r'[m];
      }
    }
  }

  /** The map `mergeResults` builds: keyed by uid, each key once, holding
      the item `Merged` chooses. */
  method BuildUidMap<A>(current: seq<Result<A>>, incoming: seq<Result<A>>) returns (entries: seq<(string, Result<A>)>)
    ensures DistinctKeys(entries)
    ensures forall m :: 0 <= m < |entries| ==> entries[m].1.uid == entries[m].0
    ensures forall k :: Get(entries, k) == Merged(current, incoming, k)
  {
    entries := SetAll([], current);
    entries := SetAll(entries, incoming);
  }

  function Values<K, V>(entries: seq<(K, V)>): (r: seq<V>)
    ensures |r| == |entries| && forall m :: 0 <= m < |entries| ==> r[m] == entries[m].1
  {
    seq(|entries|, m requires 0 <= m < |entries| => entries[m].1)
  }

  /** The comparator of `mergeResults`: later runs first. */
  function ByDateDesc<A>(a: Result<A>, b: Result<A>): int {
    b.dateRun - a.dateRun
  }

  lemma ByDateDescConsistent<A>(s: seq<Result<A>>)
    ensures Consistent(s, ByDateDesc)
  {
  }

  /** `mergeResults`: every uid of the current and incoming results appears
      exactly once; an incoming item replaces a current one with the same
      uid; the list is ordered by run date, latest first, ties in map order. */
  method MergeResults<A>(current: seq<Result<A>>, incoming: seq<Result<A>>) returns (merged: seq<Result<A>>)
    ensures forall i, j :: 0 <= i < j < |merged| ==> merged[i].uid != merged[j].uid
    ensures forall i :: 0 <= i < |merged| ==> Merged(current, incoming, merged[i].uid) == Some(merged[i])
    ensures forall i :: 0 <= i < |current| ==> exists j :: 0 <= j < |merged| && merged[j].uid == current[i].uid
    ensures forall i :: 0 <= i < |incoming| ==> exists j :: 0 <= j < |merged| && merged[j].uid == incoming[i].uid
    ensures forall i, j :: 0 <= i < j < |merged| ==> merged[i].dateRun >= merged[j].dateRun
  {
    var entries := BuildUidMap(current, incoming);
    var values := Values(entries);
    ByDateDescConsistent(values);
    ghost var perm;
    merged, perm := StableSort(values, ByDateDesc);
    forall i, j | 0 <= i < j < |merged| ensures merged[i].uid != merged[j].uid {
      assert merged[i] == entries[perm[i]].1 && merged[j] == entries[perm[j]].1;
    }
    forall i | 0 <= i < |merged| ensures Merged(current, incoming, merged[i].uid) == Some(merged[i]) {
      var m := perm[i];
      assert merged[i] == entries[m].1;
      GetAt(entries, m);
    }
    forall i | 0 <= i < |current| ensures exists j :: 0 <= j < |merged| && merged[j].uid == current[i].uid {
      assert Get(entries, current[i].uid) == Merged(current, incoming, current[i].uid);
      var j := PresentKeyListed(entries, merged, current[i].uid);
    }
    forall i | 0 <= i < |incoming| ensures exists j :: 0 <= j < |merged| && merged[j].uid == incoming[i].uid {
      assert Get(entries, incoming[i].uid) == Merged(current, incoming, incoming[i].uid);
      var j := PresentKeyListed(entries, merged, incoming[i].uid);
    }
    assert forall i :: 0 <= i < |current| ==> exists j :: 0 <= j < |merged| && merged[j].uid == current[i].uid;
    assert forall i :: 0 <= i < |incoming| ==> exists j :: 0 <= j < |merged| && merged[j].uid == incoming[i].uid;
  }

  /** A key of the map is the uid of one of its sorted values. */
  lemma PresentKeyListed<A>(entries: seq<(string, Result<A>)>, merged: seq<Result<A>>, u: string) returns (j: nat)
    requires forall m :: 0 <= m < |entries| ==> entries[m].1.uid == entries[m].0
    requires multiset(merged) == multiset(Values(entries))
    requires Get(entries, u).Some?
    ensures j < |merged| && merged[j].uid == u
  {
    var m :| 0 <= m < |entries| && entries[m] == (u, Get(entries, u).value);
    assert Values(entries)[m] in multiset(merged);
    j :| 0 <= j < |merged| && merged[j] == Values(entries)[m];
  }

  /** With distinct keys, the value at a position is the value under its key. */
  lemma GetAt<V>(entries: seq<(string, V)>, m: nat)
    requires DistinctKeys(entries) && m < |entries|
    ensures Get(entries, entries[m].0) == Some(entries[m].1)
  {
    var r := Get(entries, entries[m].0);
    var i :| 0 <= i < |entries| && entries[i] == (entries[m].0, r.value);
  }
}
