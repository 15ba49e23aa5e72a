/** The records shared by the client and the server (common/interfaces.ts),
    and the JSON values that the document store keeps. */
module Interfaces {
  import opened Wrappers

  /** A JSON value.  Object entries keep their insertion order, as a
      JavaScript object does; a well-formed object has distinct keys. */
  datatype Json =
    | JNull
    | JBool(b: bool)
    | JNum(n: real)
    | JStr(s: string)
    | JArr(items: seq<Json>)
    | JObj(entries: seq<(string, Json)>)

  /** JavaScript truthiness of a JSON value. */
  predicate Truthy(j: Json) {
    match j
    case JNull => false
    case JBool(b) => b
    case JNum(n) => n != 0.0
    case JStr(s) => s != []
    case _ => true
  }

  function Keys<V>(entries: seq<(string, V)>): (ks: seq<string>)
    ensures |ks| == |entries|
    ensures forall i :: 0 <= i < |entries| ==> ks[i] == entries[i].0
  {
    if entries == [] then [] else [entries[0].0] + Keys(entries[1..])
  }

  lemma KeysAppend<V>(entries: seq<(string, V)>, e: (string, V))
    ensures Keys(entries + [e]) == Keys(entries) + [e.0]
  {
    var l, r := Keys(entries + [e]), Keys(entries) + [e.0];
    assert |l| == |r|;
    forall i | 0 <= i < |l| ensures l[i] == r[i] {
      if i < |entries| {
        assert (entries + [e])[i] == entries[i];
      }
    }
  }

  predicate DistinctKeys<V>(entries: seq<(string, V)>) {
    forall i, j :: 0 <= i < j < |entries| ==> entries[i].0 != entries[j].0
  }

  /** Property lookup: the value stored under `k`, if any. */
  function Get<V>(entries: seq<(string, V)>, k: string): (r: Option<V>)
    ensures r.None? <==> k !in Keys(entries)
    ensures r.Some? ==> exists i :: 0 <= i < |entries| && entries[i] == (k, r.value)
  {
    if entries == [] then None
    else if entries[0].0 == k then Some(entries[0].1)
    else
      var r := Get(entries[1..], k);
      assert r.Some? ==> exists i :: 0 <= i < |entries[1..]| && entries[1..][i] == (k, r.value);
      assert r.Some? ==> exists i :: 0 <= i < |entries| && entries[i] == (k, r.value) by {
        if r.Some? {
          var i :| 0 <= i < |entries[1..]| && entries[1..][i] == (k, r.value);
          assert entries[i + 1] == (k, r.value);
        }
      }
      r
  }

  /** The value under the first occurrence of a key. */
  lemma {:induction false} GetAt<V>(entries: seq<(string, V)>, k: string, i: nat)
    requires i < |entries| && entries[i].0 == k
    requires forall j :: 0 <= j < i ==> entries[j].0 != k
    ensures Get(entries, k) == Some(entries[i].1)
  {
    if i > 0 {
      GetAt(entries[1..], k, i - 1);
    }
  }

  /** Property assignment `o[k] = v`: an existing key keeps its position and
      takes the new value; a new key is appended. */
  function Put<V>(entries: seq<(string, V)>, k: string, v: V): (r: seq<(string, V)>)
    ensures k in Keys(entries) ==> Keys(r) == Keys(entries)
    ensures k !in Keys(entries) ==> Keys(r) == Keys(entries) + [k]
    ensures k !in Keys(entries) ==> r == entries + [(k, v)]
    ensures forall i :: 0 <= i < |r| ==> r[i] == (k, v) || r[i] in entries
  {
    if entries == [] then [(k, v)]
    else if entries[0].0 == k then
      var r := [(k, v)] + entries[1..];
      assert r[1..] == entries[1..];
      assert Keys(r) == [k] + Keys(entries[1..]);
      r
    else
      var rest := Put(entries[1..], k, v);
      var r := [entries[0]] + rest;
      assert r[1..] == rest;
      assert Keys(r) == [entries[0].0] + Keys(rest);
      r
  }

  /** Reading back after `Put`: the new value under `k`, every other key
      unchanged. */
  lemma PutGet<V>(entries: seq<(string, V)>, k: string, v: V, k': string)
    ensures Get(Put(entries, k, v), k) == Some(v)
    ensures k' != k ==> Get(Put(entries, k, v), k') == Get(entries, k')
  {
    PutGetSame(entries, k, v);
    if k' != k {
      PutGetOther(entries, k, v, k');
    }
  }

  lemma {:induction false} PutGetSame<V>(entries: seq<(string, V)>, k: string, v: V)
    ensures Get(Put(entries, k, v), k) == Some(v)
  {
    var r := Put(entries, k, v);
    if entries == [] {
      assert r == [(k, v)];
    } else if entries[0].0 == k {
      assert r[0] == (k, v) by {
        assert r == [(k, v)] + entries[1..];
      }
    } else {
      PutGetSame(entries[1..], k, v);
      assert r[0] == entries[0] && r[1..] == Put(entries[1..], k, v) by {
        assert r == [entries[0]] + Put(entries[1..], k, v);
      }
    }
  }

  lemma {:induction false} PutGetOther<V>(entries: seq<(string, V)>, k: string, v: V, k': string)
    requires k' != k
    ensures Get(Put(entries, k, v), k') == Get(entries, k')
  {
    var r := Put(entries, k, v);
    if entries == [] {
      assert r == [(k, v)];
    } else if entries[0].0 == k {
      assert r[0] == (k, v) && r[1..] == entries[1..] by {
        assert r == [(k, v)] + entries[1..];
      }
    } else {
      PutGetOther(entries[1..], k, v, k');
      assert r[0] == entries[0] && r[1..] == Put(entries[1..], k, v) by {
        assert r == [entries[0]] + Put(entries[1..], k, v);
      }
    }
  }

  lemma {:induction false} PutKeepsDistinct<V>(entries: seq<(string, V)>, k: string, v: V)
    requires DistinctKeys(entries)
    ensures DistinctKeys(Put(entries, k, v))
  {
    var r := Put(entries, k, v);
    var ks := Keys(r);
    assert forall i :: 0 <= i < |r| ==> r[i].0 == ks[i];
    forall i, j | 0 <= i < j < |r| ensures r[i].0 != r[j].0 {
      if k in Keys(entries) {
        assert Keys(entries)[i] == entries[i].0 && Keys(entries)[j] == entries[j].0;
      } else {
        var oldKs := Keys(entries);
        if j < |entries| {
          assert oldKs[i] == entries[i].0 && oldKs[j] == entries[j].0;
        } else {
          assert ks[j] == k && ks[i] == oldKs[i];
        }
      }
    }
  }

  datatype Account = Account(
    id: int,
    hashedIdentifier: string,
    displayName: string,
    apiKey: string,
    apiKeySalt: string,
    results: seq<Result<Account>>,
    shareAllResults: Option<bool>,
    oauthProvider: string)

  /** The building type as a result carries it: only its uid and name. */
  datatype BuildingTypeRef = BuildingTypeRef(uid: string, name: string)

  /** A result; `A` is the account view it carries (the full account, or the
      public part that a shared result exposes).  `dateRun` is a timestamp. */
  datatype Result<A> = Result(
    id: int,
    uid: string,
    deleted: bool,
    dateRun: int,
    boptestVersion: string,
    isShared: bool,
    tags: seq<string>,
    thermalDiscomfort: real,
    energyUse: real,
    cost: real,
    emissions: real,
    iaq: real,
    timeRatio: real,
    peakElectricity: real,
    peakGas: Option<real>,
    peakDistrictHeating: Option<real>,
    timePeriod: string,
    controlStep: string,
    electricityPrice: string,
    weatherForecastUncertainty: string,
    forecastParameters: Json,
    scenario: Json,
    account: A,
    buildingType: BuildingTypeRef)

  datatype BuildingType = BuildingType(
    id: int,
    uid: string,
    name: string,
    markdown: Option<string>,
    markdownURL: string,
    pdfURL: string,
    results: seq<Result<Account>>,
    scenarios: Json)

  datatype ResultFacet = ResultFacet(
    buildingTypeUid: string,
    buildingTypeName: string,
    scenario: map<string, seq<string>>,
    tags: seq<string>)

  datatype Range = Range(min: real, max: real)

  datatype FilterRanges = FilterRanges(
    costRange: Range,
    thermalDiscomfortRange: Range,
    aqDiscomfortRange: Range,
    energyRange: Range)

  /** The filter state of a results table; `boptestVersion` is read by the
      client although the shared interface does not declare it. */
  datatype FilterValues = FilterValues(
    scenario: seq<(string, string)>,
    tags: seq<string>,
    cost: Range,
    thermalDiscomfort: Range,
    aqDiscomfort: Range,
    energy: Range,
    boptestVersion: Option<string>)

  datatype SignatureDetails = SignatureDetails(
    numResults: nat,
    thermalDiscomfort: Range,
    energyUse: Range,
    cost: Range,
    emissions: Range,
    iaq: Range,
    timeRatio: Range,
    peakElectricity: Range,
    peakGas: Range,
    peakDistrictHeating: Range)
}
