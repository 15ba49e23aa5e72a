/** Building types stored as documents of the `buildingTypes` collection
    (server/models/BuildingType.ts).  The markdown that the server fetches
    from `markdownURL` is a parameter: the text, or `None` when the fetch
    fails. */
module BuildingTypeModel {
  import opened Wrappers
  import opened Strings
  import opened Interfaces
  import opened DocumentStore
  import opened Sequences

  const Collection := "buildingTypes"

  /** `BuildingTypeData`: a building type without `id` and `results`;
      `scenarios` is `None` when the caller left it out. */
  datatype BuildingTypeData = BuildingTypeData(
    uid: string,
    name: string,
    markdownURL: string,
    pdfURL: string,
    scenarios: Option<Json>)

  /** `data.scenarios || {}`. */
  function ScenariosOrEmpty(scenarios: Option<Json>): (r: Json)
    ensures scenarios.Some? && Truthy(scenarios.value) ==> r == scenarios.value
    ensures scenarios.None? || !Truthy(scenarios.value) ==> r == JObj([])
  {
    if scenarios.Some? && Truthy(scenarios.value) then scenarios.value else JObj([])
  }

  /** The stored document; the markdown is `null` when it could not be
      fetched. */
  function Payload(data: BuildingTypeData, markdown: Option<string>): Json {
    JObj([("uid", JStr(data.uid)), ("name", JStr(data.name)),
          ("markdown", if markdown.Some? then JStr(markdown.value) else JNull),
          ("markdownURL", JStr(data.markdownURL)), ("pdfURL", JStr(data.pdfURL)),
          ("scenarios", ScenariosOrEmpty(data.scenarios))])
  }

  function TextField(data: Json, field: string): string {
    if data.JObj? && Get(data.entries, field).Some? && Get(data.entries, field).value.JStr? then
      Get(data.entries, field).value.s
    else ""
  }

  /** `mapRecordToBuildingType`: the numeric id becomes `id`, a missing or
      `null` markdown reads as `null`, and no results are attached. */
  function MapRecordToBuildingType(record: Record): (b: BuildingType)
    ensures b.id == record.numericId && b.results == []
    ensures b.uid == TextField(record.data, "uid") && b.name == TextField(record.data, "name")
  {
    var markdown := if record.data.JObj? then Get(record.data.entries, "markdown") else None;
    var scenarios := if record.data.JObj? then Get(record.data.entries, "scenarios") else None;
    BuildingType(
      record.numericId,
      TextField(record.data, "uid"),
      TextField(record.data, "name"),
      if markdown.Some? && markdown.value.JStr? then Some(markdown.value.s) else None,
      TextField(record.data, "markdownURL"),
      TextField(record.data, "pdfURL"),
      [],
      scenarios.GetOr(JNull))
  }

  /** The stored fields of a payload, each read back as written. */
  lemma PayloadField(data: BuildingTypeData, markdown: Option<string>, i: nat)
    requires i < |Payload(data, markdown).entries|
    ensures var e := Payload(data, markdown).entries;
      Get(e, e[i].0) == Some(e[i].1)
  {
    var e := Payload(data, markdown).entries;
    assert DistinctKeys(e);
    GetAt(e, e[i].0, i);
  }

  /** Reading a stored payload back gives the data it was written from. */
  lemma MapRecordOfPayload(record: Record, data: BuildingTypeData, markdown: Option<string>)
    requires record.data == Payload(data, markdown)
    ensures MapRecordToBuildingType(record) ==
      BuildingType(record.numericId, data.uid, data.name, markdown, data.markdownURL, data.pdfURL, [],
                   ScenariosOrEmpty(data.scenarios))
  {
    PayloadField(data, markdown, 0);
    PayloadField(data, markdown, 1);
    PayloadField(data, markdown, 2);
    PayloadField(data, markdown, 3);
    PayloadField(data, markdown, 4);
    PayloadField(data, markdown, 5);
  }

  function ByUid(uid: string, render: Json -> string): Record -> bool {
    FieldSelector(Collection, "uid", uid, render)
  }

  /** `createBuildingType`: refused when the uid is taken; otherwise the
      payload is inserted. */
  method CreateBuildingType(store: DocumentStore, data: BuildingTypeData, fetched: Option<string>,
                            entropy: array<bv8>, now: int, render: Json -> string)
    returns (r: Outcome<BuildingType>)
    requires store.Valid() && entropy.Length == 16
    modifies store, entropy
    ensures store.Valid()
    ensures FirstWhere(old(store.rows), ByUid(data.uid, render)).Some? ==>
      r == Failure("Building type already exists for uid " + data.uid) && store.rows == old(store.rows)
    ensures r.Success? ==>
      |store.rows| == |old(store.rows)| + 1 && store.rows[..|old(store.rows)|] == old(store.rows) &&
      store.rows[|old(store.rows)|].collection == Collection &&
      store.rows[|old(store.rows)|].data == Payload(data, fetched) &&
      r.value == BuildingType(store.rows[|old(store.rows)|].numericId, data.uid, data.name, fetched,
                              data.markdownURL, data.pdfURL, [], ScenariosOrEmpty(data.scenarios))
    ensures r.Failure? ==> store.rows == old(store.rows)
  {
    var existing := store.FindOneByField(Collection, "uid", data.uid, render);
    if existing.Some? {
      return Failure("Building type already exists for uid " + data.uid);
    }
    var payload := Payload(data, fetched);
    var record := store.Insert(Collection, payload, entropy, now);
    if record.Failure? {
      return Failure(record.error);
    }
    MapRecordOfPayload(record.value, data, fetched);
    r := Success(MapRecordToBuildingType(record.value));
  }

  /** `updateBuildingType`: the stored record with the building's id takes
      the new payload.  A missing record is an error; the second error,
      a replace that finds nothing, cannot occur once the record was found. */
  method UpdateBuildingType(store: DocumentStore, building: BuildingType, newData: BuildingTypeData,
                            fetched: Option<string>, now: int)
    returns (r: Outcome<BuildingType>)
    requires store.Valid()
    modifies store
    ensures store.Valid()
    ensures var found := FirstWhere(old(store.rows), NumericIdSelector(Collection, building.id));
      (found.None? ==>
        r == Failure("Building type with id " + IntToString(building.id) + " not found") &&
        store.rows == old(store.rows)) &&
      (found.Some? ==>
        var i := FindDoc(old(store.rows), Collection, found.value.docId);
        i.Some? &&
        store.rows == old(store.rows)[i.value := old(store.rows)[i.value].(data := Payload(newData, fetched), updatedAt := now)] &&
        r == Success(BuildingType(found.value.numericId, newData.uid, newData.name, fetched,
                                  newData.markdownURL, newData.pdfURL, [], ScenariosOrEmpty(newData.scenarios))))
  {
    var record := store.FindByNumericId(Collection, building.id);
    if record.None? {
      return Failure("Building type with id " + IntToString(building.id) + " not found");
    }
    ghost var rows0 := store.rows;
    ghost var j :| 0 <= j < |rows0| && rows0[j] == record.value;
    KeyIsUnique(rows0, Collection, record.value.docId, j);
    var payload := Payload(newData, fetched);
    var updated := store.Replace(Collection, record.value.docId, payload, now);
    if updated.None? {
      return Failure("Failed to update building type with id " + IntToString(building.id));
    }
    MapRecordOfPayload(updated.value, newData, fetched);
    r := Success(MapRecordToBuildingType(updated.value));
  }

  /** `getBuildingTypeByUid`: a miss is an error. */
  method GetBuildingTypeByUid(store: DocumentStore, uid: string, render: Json -> string)
    returns (r: Outcome<BuildingType>)
    requires store.Valid()
    modifies store
    ensures store.Valid() && store.rows == old(store.rows)
    ensures var found := FirstWhere(store.rows, ByUid(uid, render));
      (found.None? ==> r == Failure("Building type with uid " + uid + " not found")) &&
      (found.Some? ==> r == Success(MapRecordToBuildingType(found.value)))
  {
    var record := store.FindOneByField(Collection, "uid", uid, render);
    if record.None? {
      return Failure("Building type with uid " + uid + " not found");
    }
    r := Success(MapRecordToBuildingType(record.value));
  }

  /** `findBuildingTypeById`: a miss is `null`. */
  method FindBuildingTypeById(store: DocumentStore, id: int) returns (r: Option<BuildingType>)
    requires store.Valid()
    modifies store
    ensures store.Valid() && store.rows == old(store.rows)
    ensures var found := FirstWhere(store.rows, NumericIdSelector(Collection, id));
      (found.None? ==> r.None?) && (found.Some? ==> r == Some(MapRecordToBuildingType(found.value)))
  {
    var record := store.FindByNumericId(Collection, id);
    r := if record.Some? then Some(MapRecordToBuildingType(record.value)) else None;
  }
  /** `records.map(mapRecordToBuildingType)`. */
  function MapRecords(records: seq<Record>): (r: seq<BuildingType>)
    ensures |r| == |records|
    ensures forall i :: 0 <= i < |r| ==> r[i] == MapRecordToBuildingType(records[i])
  {
    if records == [] then [] else [MapRecordToBuildingType(records[0])] + MapRecords(records[1..])
  }

  /** `getBuildingTypes`: every stored building type, in table order. */
  method GetBuildingTypes(store: DocumentStore) returns (r: seq<BuildingType>)
    requires store.Valid()
    modifies store
    ensures store.Valid() && store.rows == old(store.rows)
    ensures r == MapRecords(Filter(store.rows, CollectionSelector(Collection)))
  {
    var records := store.FindAll(Collection);
    r := MapRecords(records);
  }

  /** `findBuildingTypesByIds`: the building types whose id is listed; an
      empty list finds none. */
  method FindBuildingTypesByIds(store: DocumentStore, ids: seq<int>) returns (r: seq<BuildingType>)
    requires store.Valid()
    modifies store
    ensures store.Valid() && store.rows == old(store.rows)
    ensures r == MapRecords(Filter(store.rows, NumericIdsSelector(Collection, ids)))
    ensures forall i :: 0 <= i < |r| ==> r[i].id in ids
    ensures ids == [] ==> r == []
  {
    var records := store.FindByNumericIds(Collection, ids);
    r := MapRecords(records);
    forall i | 0 <= i < |r| ensures r[i].id in ids {
      assert records[i] in records;
    }
  }
}
