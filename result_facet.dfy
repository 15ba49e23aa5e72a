/** The per-building-type facets: the scenario values and tags seen in
    results so far, merged as sorted sets (server/models/ResultFacet.ts). */
module ResultFacet {
  import opened Wrappers
  import opened Strings
  import opened Interfaces
  import opened Sequences
  import opened DocumentStore

  const Collection := "resultFacets"

  /** The scenario object of a facet document, in key order. */
  type ScenarioEntries = seq<(string, seq<string>)>

  /** `ResultFacetDocument`, as stored. */
  datatype FacetDocument = FacetDocument(
    buildingTypeUid: string,
    buildingTypeName: string,
    scenario: ScenarioEntries,
    tags: seq<string>)

  // ---------------------------------------------------------------------
  // unionStrings

  /** `set.add(x)` on a set kept in insertion order. */
  function AddToSet(acc: seq<string>, x: string): (r: seq<string>)
    ensures forall y :: y in r <==> y in acc || y == x
  {
    if x in acc then acc else acc + [x]
  }

  /** The set after adding `xs` in order. */
  function AddAll(acc: seq<string>, xs: seq<string>): (r: seq<string>)
    ensures forall y :: y in r <==> y in acc || y in xs
    decreases |xs|
  {
    if xs == [] then acc else AddAll(AddToSet(acc, xs[0]), xs[1..])
  }

  /** The present values; `None` is `null` or `undefined`. */
  function Present(xs: seq<Option<string>>): (r: seq<string>)
    ensures forall y :: y in r <==> Some(y) in xs
  {
    if xs == [] then []
    else
      var rest := Present(xs[1..]);
      assert forall o :: o in xs <==> o == xs[0] || o in xs[1..];
      if xs[0].Some? then [xs[0].value] + rest else rest
  }

  function AllPresent(xs: seq<string>): (r: seq<Option<string>>)
    ensures |r| == |xs| && forall i :: 0 <= i < |xs| ==> r[i] == Some(xs[i])
  {
    if xs == [] then [] else [Some(xs[0])] + AllPresent(xs[1..])
  }

  /** What `unionStrings` returns: the set of the existing and the present
      incoming values, sorted by code unit. */
  function Union(existing: seq<string>, incoming: seq<Option<string>>): seq<string> {
    SortStrings(AddAll(AddAll([], existing), Present(incoming)))
  }

  lemma {:induction false} AddToSetKeepsNoDuplicates(acc: seq<string>, x: string)
    requires NoDuplicates(acc)
    ensures NoDuplicates(AddToSet(acc, x))
  {
  }

  lemma {:induction false} AddAllKeepsNoDuplicates(acc: seq<string>, xs: seq<string>)
    requires NoDuplicates(acc)
    ensures NoDuplicates(AddAll(acc, xs))
    decreases |xs|
  {
    if xs != [] {
      AddToSetKeepsNoDuplicates(acc, xs[0]);
      AddAllKeepsNoDuplicates(AddToSet(acc, xs[0]), xs[1..]);
    }
  }

  /** The union is strictly sorted, and holds exactly the existing values
      and the present incoming ones. */
  lemma UnionFacts(existing: seq<string>, incoming: seq<Option<string>>)
    ensures StrictlySorted(Union(existing, incoming))
    ensures forall x :: x in Union(existing, incoming) <==> x in existing || Some(x) in incoming
  {
    var members := AddAll(AddAll([], existing), Present(incoming));
    AddAllKeepsNoDuplicates([], existing);
    AddAllKeepsNoDuplicates(AddAll([], existing), Present(incoming));
    var r := SortStrings(members);
    PermutationKeepsNoDuplicates(members, r);
    SortedDistinctIsStrict(r);
    forall x ensures x in r <==> x in members {
      assert x in r <==> x in multiset(r);
      assert x in members <==> x in multiset(members);
    }
  }

  /** The union depends on nothing but the members: any two inputs with the
      same members give the same list. */
  lemma UnionByMembers(e1: seq<string>, i1: seq<Option<string>>, e2: seq<string>, i2: seq<Option<string>>)
    requires forall x :: (x in e1 || Some(x) in i1) <==> (x in e2 || Some(x) in i2)
    ensures Union(e1, i1) == Union(e2, i2)
  {
    UnionFacts(e1, i1);
    UnionFacts(e2, i2);
    StrictlySortedUnique(Union(e1, i1), Union(e2, i2));
  }

  /** Adding the same values a second time changes nothing. */
  lemma UnionIdempotent(existing: seq<string>, incoming: seq<Option<string>>)
    ensures Union(Union(existing, incoming), incoming) == Union(existing, incoming)
  {
    var once := Union(existing, incoming);
    UnionFacts(existing, incoming);
    UnionFacts(once, incoming);
    UnionByMembers(once, incoming, existing, incoming);
  }

  /** A union with nothing incoming just sorts and dedupes what exists. */
  lemma UnionOfStrictlySorted(existing: seq<string>)
    requires StrictlySorted(existing)
    ensures Union(existing, []) == existing
  {
    UnionFacts(existing, []);
    StrictlySortedUnique(Union(existing, []), existing);
  }

  /** `unionStrings`: a `Set` seeded with `existing`, a loop adding each
      present incoming value, then `Array.from(set).sort()`. */
  method UnionStrings(existing: seq<string>, incoming: seq<Option<string>>) returns (r: seq<string>)
    ensures r == Union(existing, incoming)
    ensures StrictlySorted(r)
    ensures forall x :: x in r <==> x in existing || Some(x) in incoming
  {
    var members := AddAll([], existing);
    var i := 0;
    while i < |incoming|
      invariant 0 <= i <= |incoming|
      invariant AddAll(members, Present(incoming[i..])) == AddAll(AddAll([], existing), Present(incoming))
    {
      assert incoming[i..] == [incoming[i]] + incoming[i + 1..];
      if incoming[i].Some? {
        assert Present(incoming[i..]) == [incoming[i].value] + Present(incoming[i + 1..]);
        members := AddToSet(members, incoming[i].value);
      } else {
        assert Present(incoming[i..]) == Present(incoming[i + 1..]);
      }
      i := i + 1;
    }
    assert incoming[i..] == [];
    r := SortStrings(members);
    UnionFacts(existing, incoming);
  }

  // ---------------------------------------------------------------------
  // mergeScenario

  /** What `mergeScenario` returns: the existing object, with every key of
      the incoming one set to the union of both value lists. */
  function MergedScenario(existing: ScenarioEntries, incoming: ScenarioEntries): (r: ScenarioEntries)
    decreases |incoming|
  {
    MergeFrom(existing, existing, incoming)
  }

  /** The assignments for `keys`, read against the original `existing`. */
  function MergeFrom(acc: ScenarioEntries, existing: ScenarioEntries, incoming: ScenarioEntries): ScenarioEntries
    decreases |incoming|
  {
    if incoming == [] then acc
    else
      var key := incoming[0].0;
      MergeFrom(Put(acc, key, Union(Get(existing, key).GetOr([]), AllPresent(incoming[0].1))), existing, incoming[1..])
  }

  /** Every key keeps its existing values unless the incoming object has
      it, in which case it holds the union; no other key appears. */
  lemma {:induction false} MergeFromFacts(acc: ScenarioEntries, existing: ScenarioEntries, incoming: ScenarioEntries, k: string)
    requires DistinctKeys(acc) && DistinctKeys(incoming)
    ensures DistinctKeys(MergeFrom(acc, existing, incoming))
    ensures k in Keys(incoming) ==>
      Get(MergeFrom(acc, existing, incoming), k) == Some(Union(Get(existing, k).GetOr([]), AllPresent(Get(incoming, k).value)))
    ensures k !in Keys(incoming) ==> Get(MergeFrom(acc, existing, incoming), k) == Get(acc, k)
    decreases |incoming|
  {
    if incoming != [] {
      var key := incoming[0].0;
      var value := Union(Get(existing, key).GetOr([]), AllPresent(incoming[0].1));
      var next := Put(acc, key, value);
      PutKeepsDistinct(acc, key, value);
      PutGet(acc, key, value, k);
      var rest := incoming[1..];
      assert DistinctKeys(rest) by {
        forall i, j | 0 <= i < j < |rest| ensures rest[i].0 != rest[j].0 {
          assert rest[i] == incoming[i + 1] && rest[j] == incoming[j + 1];
        }
      }
      MergeFromFacts(next, existing, rest, k);
      assert Keys(incoming) == [key] + Keys(rest);
      if k == key {
        assert k !in Keys(rest) by {
          forall i | 0 <= i < |rest| ensures Keys(rest)[i] != k {
            assert rest[i] == incoming[i + 1];
          }
        }
        assert Get(incoming, k) == Some(incoming[0].1);
      } else if k in Keys(incoming) {
        assert Get(incoming, k) == Get(rest, k);
      }
    }
  }

  lemma MergedScenarioFacts(existing: ScenarioEntries, incoming: ScenarioEntries, k: string)
    requires DistinctKeys(existing) && DistinctKeys(incoming)
    ensures DistinctKeys(MergedScenario(existing, incoming))
    ensures k in Keys(incoming) ==>
      Get(MergedScenario(existing, incoming), k) == Some(Union(Get(existing, k).GetOr([]), AllPresent(Get(incoming, k).value)))
    ensures k !in Keys(incoming) ==> Get(MergedScenario(existing, incoming), k) == Get(existing, k)
  {
    MergeFromFacts(existing, existing, incoming, k);
  }

  /** `mergeScenario`: a copy of `existing`, then one assignment per
      incoming key. */
  method MergeScenario(existing: ScenarioEntries, incoming: ScenarioEntries) returns (merged: ScenarioEntries)
    ensures merged == MergedScenario(existing, incoming)
  {
    merged := existing;
    var i := 0;
    while i < |incoming|
      invariant 0 <= i <= |incoming|
      invariant MergeFrom(merged, existing, incoming[i..]) == MergedScenario(existing, incoming)
    {
      var key := incoming[i].0;
      var values := UnionStrings(Get(existing, key).GetOr([]), AllPresent(incoming[i].1));
      assert incoming[i..][1..] == incoming[i + 1..];
      merged := Put(merged, key, values);
      i := i + 1;
    }
    assert incoming[i..] == [];
  }

  // ---------------------------------------------------------------------
  // Documents

  function StringsJson(xs: seq<string>): (r: Json)
    ensures r.JArr? && |r.items| == |xs|
  {
    if xs == [] then JArr([]) else JArr([JStr(xs[0])] + StringsJson(xs[1..]).items)
  }

  /** The string items of a JSON array; anything else reads as `[]`. */
  function JsonStrings(j: Json): seq<string> {
    if j.JArr? then ItemStrings(j.items) else []
  }

  function ItemStrings(items: seq<Json>): seq<string> {
    if items == [] then []
    else
      var rest := ItemStrings(items[1..]);
      if items[0].JStr? then [items[0].s] + rest else rest
  }

  lemma {:induction false} JsonStringsOfStrings(xs: seq<string>)
    ensures JsonStrings(StringsJson(xs)) == xs
  {
    if xs != [] {
      JsonStringsOfStrings(xs[1..]);
      assert StringsJson(xs).items[1..] == StringsJson(xs[1..]).items;
    }
  }

  function ScenarioJson(entries: ScenarioEntries): (r: seq<(string, Json)>)
    ensures Keys(r) == Keys(entries)
  {
    if entries == [] then [] else [(entries[0].0, StringsJson(entries[0].1))] + ScenarioJson(entries[1..])
  }

  function JsonScenario(entries: seq<(string, Json)>): (r: ScenarioEntries)
    ensures Keys(r) == Keys(entries)
  {
    if entries == [] then [] else [(entries[0].0, JsonStrings(entries[0].1))] + JsonScenario(entries[1..])
  }

  lemma {:induction false} JsonScenarioOfScenario(entries: ScenarioEntries)
    ensures JsonScenario(ScenarioJson(entries)) == entries
  {
    if entries != [] {
      JsonScenarioOfScenario(entries[1..]);
      JsonStringsOfStrings(entries[0].1);
    }
  }

  /** The stored form of a facet document. */
  function FacetJson(d: FacetDocument): Json {
    JObj([("buildingTypeUid", JStr(d.buildingTypeUid)), ("buildingTypeName", JStr(d.buildingTypeName)),
          ("scenario", JObj(ScenarioJson(d.scenario))), ("tags", StringsJson(d.tags))])
  }

  function StringField(data: Json, field: string): string {
    if data.JObj? && Get(data.entries, field).Some? && Get(data.entries, field).value.JStr? then
      Get(data.entries, field).value.s
    else ""
  }

  /** The document read back from its stored form; a missing scenario
      reads as `{}` and missing tags as `[]`. */
  function FacetOf(data: Json): (d: FacetDocument)
    ensures !data.JObj? ==> d.scenario == [] && d.tags == []
  {
    var scenario := if data.JObj? && Get(data.entries, "scenario").Some? && Get(data.entries, "scenario").value.JObj? then
      JsonScenario(Get(data.entries, "scenario").value.entries) else [];
    var tags := if data.JObj? && Get(data.entries, "tags").Some? then JsonStrings(Get(data.entries, "tags").value) else [];
    FacetDocument(StringField(data, "buildingTypeUid"), StringField(data, "buildingTypeName"), scenario, tags)
  }

  lemma FacetOfFacetJson(d: FacetDocument)
    ensures FacetOf(FacetJson(d)) == d
  {
    FacetField(d, 0);
    FacetField(d, 1);
    FacetField(d, 2);
    FacetField(d, 3);
    JsonScenarioOfScenario(d.scenario);
    JsonStringsOfStrings(d.tags);
  }

  /** Each field of the stored form reads back as written. */
  lemma FacetField(d: FacetDocument, i: nat)
    requires i < 4
    ensures var e := FacetJson(d).entries;
      Get(e, e[i].0) == Some(e[i].1)
  {
    var e := FacetJson(d).entries;
    assert DistinctKeys(e);
    GetAt(e, e[i].0, i);
  }

  /** The scenario object as the shared `ResultFacet` record holds it: the
      same keys, each with the values the entries give it. */
  function ScenarioMap(entries: ScenarioEntries): (m: map<string, seq<string>>)
    ensures forall k :: k in m <==> k in Keys(entries)
    ensures forall k :: k in m ==> Get(entries, k) == Some(m[k])
  {
    if entries == [] then map[]
    else
      var rest := ScenarioMap(entries[1..]);
      assert Keys(entries) == [entries[0].0] + Keys(entries[1..]);
      rest[entries[0].0 := entries[0].1]
  }

  /** `mapRecordToFacet`. */
  function MapRecordToFacet(data: Json): (r: ResultFacet)
    ensures r.buildingTypeUid == FacetOf(data).buildingTypeUid && r.buildingTypeName == FacetOf(data).buildingTypeName
    ensures r.tags == FacetOf(data).tags
    ensures forall k :: k in r.scenario <==> k in Keys(FacetOf(data).scenario)
    ensures forall k :: k in r.scenario ==> Get(FacetOf(data).scenario, k) == Some(r.scenario[k])
  {
    var d := FacetOf(data);
    ResultFacet(d.buildingTypeUid, d.buildingTypeName, ScenarioMap(d.scenario), d.tags)
  }

  /** Defaults of `mapRecordToFacet`: `data.scenario || {}` and
      `data.tags || []`, so a document whose scenario and tags are missing
      or falsy gives an empty scenario and no tags, and keeps its building
      type. */
  lemma MapRecordDefaults(entries: seq<(string, Json)>)
    requires Get(entries, "scenario").None? || !Truthy(Get(entries, "scenario").value)
    requires Get(entries, "tags").None? || !Truthy(Get(entries, "tags").value)
    ensures var r := MapRecordToFacet(JObj(entries));
      r.scenario == map[] && r.tags == [] &&
      r.buildingTypeUid == StringField(JObj(entries), "buildingTypeUid") &&
      r.buildingTypeName == StringField(JObj(entries), "buildingTypeName")
  {
    var r := MapRecordToFacet(JObj(entries));
    assert FacetOf(JObj(entries)).scenario == [];
    assert r.scenario == map[] by {
      forall k ensures k !in r.scenario {
        assert Keys(FacetOf(JObj(entries)).scenario) == [];
      }
    }
  }

  // ---------------------------------------------------------------------
  // upsertResultFacet

  /** The facet stored for a building type, if any. */
  function ExistingFacet(rows: seq<Record>, uid: string, render: Json -> string): Option<Record> {
    FirstWhere(rows, FieldSelector(Collection, "buildingTypeUid", uid, render))
  }

  /** The document that an upsert writes: the name as given, the scenario
      merged into the stored one, the tags united with the stored ones. */
  function UpsertedDocument(existing: Option<Record>, uid: string, name: string,
                            scenario: ScenarioEntries, tags: seq<string>): FacetDocument
  {
    var prior := if existing.Some? then FacetOf(existing.value.data) else FacetDocument(uid, name, [], []);
    FacetDocument(uid, name, MergedScenario(prior.scenario, scenario), Union(prior.tags, AllPresent(tags)))
  }

  /** `upsertResultFacet`: the facet found by `buildingTypeUid` is
      replaced, or a new one inserted. */
  method UpsertResultFacet(store: DocumentStore, uid: string, name: string, scenario: ScenarioEntries,
                           tags: seq<string>, entropy: array<bv8>, now: int, render: Json -> string)
    returns (r: Outcome<ResultFacet>)
    requires store.Valid() && entropy.Length == 16
    modifies store, entropy
    ensures store.Valid()
    ensures var found := ExistingFacet(old(store.rows), uid, render);
      var doc := UpsertedDocument(found, uid, name, scenario, tags);
      (found.Some? ==>
        var i := FindDoc(old(store.rows), Collection, found.value.docId);
        i.Some? && store.rows == old(store.rows)[i.value := old(store.rows)[i.value].(data := FacetJson(doc), updatedAt := now)] &&
        r == Success(MapRecordToFacet(FacetJson(doc)))) &&
      (found.None? && r.Success? ==>
        |store.rows| == |old(store.rows)| + 1 && store.rows[..|old(store.rows)|] == old(store.rows) &&
        store.rows[|old(store.rows)|].collection == Collection &&
        store.rows[|old(store.rows)|].data == FacetJson(doc) &&
        r == Success(MapRecordToFacet(FacetJson(doc)))) &&
      (r.Failure? ==> found.None? && store.rows == old(store.rows))
    ensures r.Success? ==> r.value.buildingTypeUid == uid && r.value.buildingTypeName == name
  {
    var existing := store.FindOneByField(Collection, "buildingTypeUid", uid, render);
    ghost var rows0 := store.rows;
    assert existing == ExistingFacet(rows0, uid, render);
    var stored := if existing.Some? then FacetOf(existing.value.data) else FacetDocument(uid, name, [], []);
    var nextScenario := MergeScenario(stored.scenario, scenario);
    var nextTags := UnionStrings(stored.tags, AllPresent(tags));
    var document := FacetDocument(uid, name, nextScenario, nextTags);
    assert document == UpsertedDocument(existing, uid, name, scenario, tags);
    FacetOfFacetJson(document);
    if existing.Some? {
      ghost var j :| 0 <= j < |rows0| && rows0[j] == existing.value;
      KeyIsUnique(rows0, Collection, existing.value.docId, j);
      var updated := store.Replace(Collection, existing.value.docId, FacetJson(document), now);
      r := Success(MapRecordToFacet(updated.value.data));
    } else {
      var created := store.Insert(Collection, FacetJson(document), entropy, now);
      if created.Failure? {
        return Failure(created.error);
      }
      r := Success(MapRecordToFacet(created.value.data));
    }
  }
}
