/** The document store: one `documents` table of JSON documents grouped
    in collections, with a v4 UUID primary key and a per-collection numeric
    id drawn from a sequence (server/datastore/documentStore.ts).  The
    table is held in memory; what the SQL statements promise is the
    contract of each method. */
module DocumentStore {
  import opened Wrappers
  import opened Strings
  import opened Interfaces
  import opened Sequences

  /** `DocumentRecord`; the two dates are timestamps. */
  datatype Record = Record(
    docId: string,
    numericId: int,
    collection: string,
    data: Json,
    createdAt: int,
    updatedAt: int)

  // ---------------------------------------------------------------------
  // UUIDs

  /** The version nibble of section 4.4 of RFC 4122: `(b & 0x0f) | 0x40`. */
  function SetVersion(b: bv8): (r: bv8)
    ensures r >> 4 == 4 && r & 0x0f == b & 0x0f
  {
    (b & 0x0f) | 0x40
  }

  /** The variant bits of section 4.4 of RFC 4122: `(b & 0x3f) | 0x80`. */
  function SetVariant(b: bv8): (r: bv8)
    ensures r >> 6 == 2 && r & 0x3f == b & 0x3f
  {
    (b & 0x3f) | 0x80
  }

  function HexDigit(n: bv8): (c: char)
    requires n < 16
    ensures IsHexLower(c)
  {
    if n < 10 then ('0' as int + n as int) as char else ('a' as int + n as int - 10) as char
  }

  /** The two lower-case digits of one byte, high nibble first. */
  function ByteDigits(b: bv8): (r: string)
    ensures |r| == 2 && IsHexLower(r[0]) && IsHexLower(r[1])
  {
    [HexDigit(b >> 4), HexDigit(b & 0x0f)]
  }

  /** `bytes.toString('hex')`: two digits per byte. */
  function Hex(bytes: seq<bv8>): (r: string)
    ensures |r| == 2 * |bytes|
    ensures forall i :: 0 <= i < |bytes| ==> r[2 * i] == ByteDigits(bytes[i])[0] && r[2 * i + 1] == ByteDigits(bytes[i])[1]
  {
    if bytes == [] then []
    else ByteDigits(bytes[0]) + Hex(bytes[1..])
  }

  /** Hex text consists of lower-case hex digits only. */
  lemma HexIsLower(bytes: seq<bv8>)
    ensures forall i :: 0 <= i < |Hex(bytes)| ==> IsHexLower(Hex(bytes)[i])
  {
    var hex := Hex(bytes);
    forall i | 0 <= i < |hex| ensures IsHexLower(hex[i]) {
      if i % 2 == 0 {
        assert hex[2 * (i / 2)] == ByteDigits(bytes[i / 2])[0];
      } else {
        assert hex[2 * (i / 2) + 1] == ByteDigits(bytes[i / 2])[1];
      }
    }
  }

  /** The 8-4-4-4-12 grouping of the 32 hex digits. */
  function UuidText(bytes: seq<bv8>): string
    requires |bytes| == 16
  {
    var hex := Hex(bytes);
    hex[..8] + "-" + hex[8..12] + "-" + hex[12..16] + "-" + hex[16..20] + "-" + hex[20..]
  }

  predicate IsDashPosition(i: int) {
    i == 8 || i == 13 || i == 18 || i == 23
  }

  /** The text is 36 characters: dashes at 8, 13, 18 and 23, lower-case hex
      digits everywhere else. */
  lemma UuidTextShape(bytes: seq<bv8>)
    requires |bytes| == 16
    ensures |UuidText(bytes)| == 36
    ensures forall i :: 0 <= i < 36 ==> (UuidText(bytes)[i] == '-' <==> IsDashPosition(i))
    ensures forall i :: 0 <= i < 36 && !IsDashPosition(i) ==> IsHexLower(UuidText(bytes)[i])
  {
    var hex := Hex(bytes);
    var u := UuidText(bytes);
    HexIsLower(bytes);
    forall i | 0 <= i < 36
      ensures (u[i] == '-' <==> IsDashPosition(i))
      ensures !IsDashPosition(i) ==> IsHexLower(u[i])
    {
      if i < 8 { assert u[i] == hex[i]; }
      else if 8 < i < 13 { assert u[i] == hex[i - 1]; }
      else if 13 < i < 18 { assert u[i] == hex[i - 2]; }
      else if 18 < i < 23 { assert u[i] == hex[i - 3]; }
      else if 23 < i { assert u[i] == hex[i - 4]; }
    }
  }

  /** Once the two bytes are set, the text shows version 4 at position 14
      and a variant digit of 8, 9, a or b at position 19. */
  lemma UuidTextVersion(bytes: seq<bv8>)
    requires |bytes| == 16 && bytes[6] >> 4 == 4 && bytes[8] >> 6 == 2
    ensures UuidText(bytes)[14] == '4'
    ensures UuidText(bytes)[19] in "89ab"
  {
    var hex := Hex(bytes);
    var u := UuidText(bytes);
    assert u[14] == hex[12] == ByteDigits(bytes[6])[0] == HexDigit(bytes[6] >> 4);
    assert u[19] == hex[16] == ByteDigits(bytes[8])[0] == HexDigit(bytes[8] >> 4);
    var n := bytes[8] >> 4;
    assert n >> 2 == 2;
    assert n == 8 || n == 9 || n == 10 || n == 11;
  }

  /** `generateUuid`, over the random bytes it is handed: sets the
      version and variant bits in place and renders the 16 bytes. */
  method GenerateUuid(bytes: array<bv8>) returns (uuid: string)
    requires bytes.Length == 16
    modifies bytes
    ensures bytes[6] == SetVersion(old(bytes[6])) && bytes[8] == SetVariant(old(bytes[8]))
    ensures forall i :: 0 <= i < 16 && i != 6 && i != 8 ==> bytes[i] == old(bytes[i])
    ensures uuid == UuidText(bytes[..])
    ensures |uuid| == 36 && uuid[14] == '4' && uuid[19] in "89ab"
  {
    bytes[6] := SetVersion(bytes[6]);
    bytes[8] := SetVariant(bytes[8]);
    uuid := UuidText(bytes[..]);
    UuidTextShape(bytes[..]);
    UuidTextVersion(bytes[..]);
  }

  // ---------------------------------------------------------------------
  // Rows

  /** `numeric_id` as the driver may deliver it. */
  datatype NumericColumn = AsNumber(n: int) | AsText(text: string)

  /** A row as the driver returns it; dates are already timestamps. */
  datatype RawRow = RawRow(
    doc_id: string,
    numeric_id: NumericColumn,
    collection: string,
    data: Json,
    created_at: int,
    updated_at: int)

  /** `mapRow`: the numeric id is taken as is, or parsed in base 10; `None`
      stands for the record whose id would be `NaN`. */
  function MapRow(row: RawRow): (r: Option<Record>)
    ensures row.numeric_id.AsNumber? ==> r.Some? && r.value.numericId == row.numeric_id.n
    ensures row.numeric_id.AsText? ==> (r.Some? <==> ParseInt(row.numeric_id.text).Some?)
    ensures r.Some? ==> (r.value.docId == row.doc_id && r.value.collection == row.collection
      && r.value.data == row.data && r.value.createdAt == row.created_at && r.value.updatedAt == row.updated_at)
  {
    var id := if row.numeric_id.AsNumber? then Some(row.numeric_id.n) else ParseInt(row.numeric_id.text);
    if id.None? then None
    else Some(Record(row.doc_id, id.value, row.collection, row.data, row.created_at, row.updated_at))
  }

  /** A bigint column delivered as its decimal text maps to the same id. */
  lemma MapRowParsesText(row: RawRow, n: nat)
    requires row.numeric_id == AsText(NatToString(n))
    ensures MapRow(row).Some? && MapRow(row).value.numericId == n
  {
    ParseIntOfNatToString(n);
    assert ParseInt(row.numeric_id.text) == Some(n);
  }

  // ---------------------------------------------------------------------
  // The table

  /** `doc_id` is the primary key. */
  predicate DistinctDocIds(rows: seq<Record>) {
    forall i, j :: 0 <= i < j < |rows| ==> rows[i].docId != rows[j].docId
  }

  /** The unique index on `(collection, numeric_id)`. */
  predicate UniqueNumericIds(rows: seq<Record>) {
    forall i, j :: 0 <= i < j < |rows| && rows[i].collection == rows[j].collection ==>
      rows[i].numericId != rows[j].numericId
  }

  /** Every id was drawn from the sequence before its next value. */
  predicate BelowSequence(rows: seq<Record>, next: int) {
    forall i :: 0 <= i < |rows| ==> rows[i].numericId < next
  }

  predicate TableInvariant(rows: seq<Record>, next: int) {
    DistinctDocIds(rows) && UniqueNumericIds(rows) && BelowSequence(rows, next)
  }

  predicate Matches(r: Record, collection: string, docId: string) {
    r.docId == docId && r.collection == collection
  }

  /** The position of the row with this key, if any. */
  function FindDoc(rows: seq<Record>, collection: string, docId: string): (r: Option<nat>)
    ensures r.None? <==> forall i :: 0 <= i < |rows| ==> !Matches(rows[i], collection, docId)
    ensures r.Some? ==> r.value < |rows| && Matches(rows[r.value], collection, docId)
  {
    if rows == [] then None
    else if Matches(rows[0], collection, docId) then Some(0)
    else
      var r := FindDoc(rows[1..], collection, docId);
      if r.None? then
        assert forall i :: 1 <= i < |rows| ==> rows[i] == rows[1..][i - 1];
        None
      else Some(r.value + 1)
  }

  lemma ReplaceKeepsInvariant(rows: seq<Record>, next: int, i: nat, data: Json, now: int)
    requires TableInvariant(rows, next) && i < |rows|
    ensures TableInvariant(rows[i := rows[i].(data := data, updatedAt := now)], next)
  {
  }

  lemma DeleteKeepsInvariant(rows: seq<Record>, next: int, keep: Record -> bool)
    requires TableInvariant(rows, next)
    ensures TableInvariant(Filter(rows, keep), next)
  {
    var r := Filter(rows, keep);
    forall i, j | 0 <= i < j < |r| ensures r[i].docId != r[j].docId
      && (r[i].collection == r[j].collection ==> r[i].numericId != r[j].numericId)
    {
      FilterIndices(rows, keep, i, j);
    }
  }

  /** Two positions of a filtered sequence come from two positions of the
      original, in the same order. */
  lemma {:induction false} FilterIndices<T(!new)>(s: seq<T>, keep: T -> bool, i: nat, j: nat)
    requires i < j < |Filter(s, keep)|
    ensures exists a, b :: 0 <= a < b < |s| && s[a] == Filter(s, keep)[i] && s[b] == Filter(s, keep)[j]
  {
    var rest := Filter(s[1..], keep);
    if keep(s[0]) {
      if i == 0 {
        assert Filter(s, keep)[j] in rest;
        var b :| 0 <= b < |s[1..]| && s[1..][b] == rest[j - 1];
        assert s[0] == Filter(s, keep)[0] && s[b + 1] == Filter(s, keep)[j];
      } else {
        FilterIndices(s[1..], keep, i - 1, j - 1);
        var a, b :| 0 <= a < b < |s[1..]| && s[1..][a] == rest[i - 1] && s[1..][b] == rest[j - 1];
        assert s[a + 1] == Filter(s, keep)[i] && s[b + 1] == Filter(s, keep)[j];
      }
    } else {
      FilterIndices(s[1..], keep, i, j);
      var a, b :| 0 <= a < b < |s[1..]| && s[1..][a] == rest[i] && s[1..][b] == rest[j];
      assert s[a + 1] == Filter(s, keep)[i] && s[b + 1] == Filter(s, keep)[j];
    }
  }

  /** The first row satisfying `p`: a query with `LIMIT 1`, which this
      model answers in table order. */
  function FirstWhere(rows: seq<Record>, p: Record -> bool): (r: Option<Record>)
    ensures r.None? <==> forall i :: 0 <= i < |rows| ==> !p(rows[i])
    ensures r.Some? ==> r.value in rows && p(r.value)
  {
    if rows == [] then None
    else if p(rows[0]) then Some(rows[0])
    else
      var r := FirstWhere(rows[1..], p);
      assert forall i :: 1 <= i < |rows| ==> rows[i] == rows[1..][i - 1];
      r
  }

  /** `data ->> field`: the text of a top-level property, `None` for SQL
      `NULL` (no such property, JSON `null`, or a document that is not an
      object).  `render` is the JSON text of numbers and nested values,
      which is not modelled. */
  function FieldText(data: Json, field: string, render: Json -> string): Option<string> {
    if !data.JObj? then None
    else
      var v := Get(data.entries, field);
      if v.None? then None
      else match v.value
        case JNull => None
        case JStr(s) => Some(s)
        case JBool(b) => Some(if b then "true" else "false")
        case other => Some(render(other))
  }

  // The row conditions of the queries, named so that callers can refer to
  // the very query a method ran.

  function DocSelector(collection: string, docId: string): Record -> bool {
    (x: Record) => Matches(x, collection, docId)
  }

  function NumericIdSelector(collection: string, numericId: int): Record -> bool {
    (x: Record) => x.collection == collection && x.numericId == numericId
  }

  function FieldSelector(collection: string, field: string, value: string, render: Json -> string): Record -> bool {
    (x: Record) => x.collection == collection && FieldText(x.data, field, render) == Some(value)
  }

  function CollectionSelector(collection: string): Record -> bool {
    (x: Record) => x.collection == collection
  }

  function NumericIdsSelector(collection: string, ids: seq<int>): Record -> bool {
    (x: Record) => x.collection == collection && x.numericId in ids
  }

  function Not(p: Record -> bool): Record -> bool {
    (x: Record) => !p(x)
  }

  class DocumentStore {
    /** The `initialized` flag of the store object. */
    var initialized: bool
    /** Whether the sequence, table and indexes exist in the database. */
    var schemaCreated: bool
    var rows: seq<Record>
    /** The next value of `documents_numeric_id_seq`. */
    var nextNumericId: int

    predicate Valid()
      reads this
    {
      (initialized ==> schemaCreated) && (!schemaCreated ==> rows == []) &&
      TableInvariant(rows, nextNumericId)
    }

    /** A store over a database in whatever state it is in. */
    constructor(schema: bool, table: seq<Record>, sequenceNext: int)
      requires !schema ==> table == []
      requires TableInvariant(table, sequenceNext)
      ensures Valid() && !initialized
      ensures schemaCreated == schema && rows == table && nextNumericId == sequenceNext
    {
      initialized := false;
      schemaCreated := schema;
      rows := table;
      nextNumericId := sequenceNext;
    }

    /** `init`: nothing once initialized; otherwise the schema statements
        run in one transaction and the flag is set only after the commit.
        `commitSucceeds` says whether the transaction commits; a failed
        one is rolled back and rethrown. */
    method Init(commitSucceeds: bool) returns (r: Outcome<()>)
      requires Valid()
      modifies this
      ensures Valid()
      ensures rows == old(rows) && nextNumericId == old(nextNumericId)
      ensures old(initialized) ==> r.Success? && initialized && schemaCreated == old(schemaCreated)
      ensures !old(initialized) && commitSucceeds ==> r.Success? && initialized && schemaCreated
      ensures !old(initialized) && !commitSucceeds ==>
        r.Failure? && !initialized && schemaCreated == old(schemaCreated)
    {
      if initialized {
        return Success(());
      }
      if !commitSucceeds {
        return Failure("transaction rolled back");
      }
      schemaCreated := true;
      initialized := true;
      r := Success(());
    }

    /** `ensureInit`, with a commit that succeeds. */
    method EnsureInit()
      requires Valid()
      modifies this
      ensures Valid() && initialized && schemaCreated
      ensures rows == old(rows) && nextNumericId == old(nextNumericId)
    {
      if !initialized {
        var _ := Init(true);
      }
    }

    /** `insert`: a fresh UUID from `entropy`, the next numeric id, both
        dates `now`.  A UUID that is already a key violates the primary
        key and the statement fails; the sequence value is used up either
        way. */
    method Insert(collection: string, data: Json, entropy: array<bv8>, now: int) returns (r: Outcome<Record>)
      requires Valid() && entropy.Length == 16
      modifies this, entropy
      ensures Valid() && initialized
      ensures nextNumericId == old(nextNumericId) + 1
      ensures var docId := UuidText(entropy[..]);
        (r.Failure? <==> exists i :: 0 <= i < |old(rows)| && old(rows)[i].docId == docId)
      ensures r.Failure? ==> rows == old(rows)
      ensures r.Success? ==>
        r.value == Record(UuidText(entropy[..]), old(nextNumericId), collection, data, now, now) &&
        rows == old(rows) + [r.value]
    {
      EnsureInit();
      var docId := GenerateUuid(entropy);
      var numericId := nextNumericId;
      nextNumericId := nextNumericId + 1;
      if exists i :: 0 <= i < |rows| && rows[i].docId == docId {
        return Failure("duplicate key value violates unique constraint");
      }
      var record := Record(docId, numericId, collection, data, now, now);
      rows := rows + [record];
      r := Success(record);
    }

    /** `replace`: `None` when no row has this key; otherwise that row
        takes the new data and `updatedAt`, and nothing else changes. */
    method Replace(collection: string, docId: string, data: Json, now: int) returns (r: Option<Record>)
      requires Valid()
      modifies this
      ensures Valid() && initialized && nextNumericId == old(nextNumericId)
      ensures var i := FindDoc(old(rows), collection, docId);
        (i.None? ==> r.None? && rows == old(rows)) &&
        (i.Some? ==> rows == old(rows)[i.value := old(rows)[i.value].(data := data, updatedAt := now)] &&
                     r == Some(rows[i.value]))
    {
      EnsureInit();
      var i := FindDoc(rows, collection, docId);
      if i.None? {
        return None;
      }
      ReplaceKeepsInvariant(rows, nextNumericId, i.value, data, now);
      rows := rows[i.value := rows[i.value].(data := data, updatedAt := now)];
      r := Some(rows[i.value]);
    }

    /** `delete`: the row with this key goes, the others stay in order. */
    method Delete(collection: string, docId: string)
      requires Valid()
      modifies this
      ensures Valid() && initialized && nextNumericId == old(nextNumericId)
      ensures rows == Filter(old(rows), Not(DocSelector(collection, docId)))
    {
      EnsureInit();
      DeleteKeepsInvariant(rows, nextNumericId, Not(DocSelector(collection, docId)));
      rows := Filter(rows, Not(DocSelector(collection, docId)));
    }

    method FindByDocId(collection: string, docId: string) returns (r: Option<Record>)
      requires Valid()
      modifies this
      ensures Valid() && initialized && rows == old(rows) && nextNumericId == old(nextNumericId)
      ensures r == FirstWhere(rows, DocSelector(collection, docId))
    {
      EnsureInit();
      r := FirstWhere(rows, DocSelector(collection, docId));
    }

    method FindByNumericId(collection: string, numericId: int) returns (r: Option<Record>)
      requires Valid()
      modifies this
      ensures Valid() && initialized && rows == old(rows) && nextNumericId == old(nextNumericId)
      ensures r == FirstWhere(rows, NumericIdSelector(collection, numericId))
    {
      EnsureInit();
      r := FirstWhere(rows, NumericIdSelector(collection, numericId));
    }

    method FindOneByField(collection: string, field: string, value: string, render: Json -> string)
      returns (r: Option<Record>)
      requires Valid()
      modifies this
      ensures Valid() && initialized && rows == old(rows) && nextNumericId == old(nextNumericId)
      ensures r == FirstWhere(rows, FieldSelector(collection, field, value, render))
    {
      EnsureInit();
      r := FirstWhere(rows, FieldSelector(collection, field, value, render));
    }

    method FindManyByField(collection: string, field: string, value: string, render: Json -> string)
      returns (r: seq<Record>)
      requires Valid()
      modifies this
      ensures Valid() && initialized && rows == old(rows) && nextNumericId == old(nextNumericId)
      ensures r == Filter(rows, FieldSelector(collection, field, value, render))
    {
      EnsureInit();
      r := Filter(rows, FieldSelector(collection, field, value, render));
    }

    method FindAll(collection: string) returns (r: seq<Record>)
      requires Valid()
      modifies this
      ensures Valid() && initialized && rows == old(rows) && nextNumericId == old(nextNumericId)
      ensures r == Filter(rows, CollectionSelector(collection))
    {
      EnsureInit();
      r := Filter(rows, CollectionSelector(collection));
    }

    /** `findByNumericIds`: no query at all for an empty id list. */
    method FindByNumericIds(collection: string, ids: seq<int>) returns (r: seq<Record>)
      requires Valid()
      modifies this
      ensures Valid() && initialized && rows == old(rows) && nextNumericId == old(nextNumericId)
      ensures ids == [] ==> r == []
      ensures r == Filter(rows, NumericIdsSelector(collection, ids))
    {
      EnsureInit();
      if |ids| == 0 {
        FilterNoneKept(rows, NumericIdsSelector(collection, ids));
        return [];
      }
      r := Filter(rows, NumericIdsSelector(collection, ids));
    }
  }

  /** Inserting keeps the numeric ids of a collection unique: the new id
      is above every id already in the table. */
  lemma InsertKeepsInvariant(rows: seq<Record>, next: int, record: Record)
    requires TableInvariant(rows, next) && record.numericId == next
    requires forall i :: 0 <= i < |rows| ==> rows[i].docId != record.docId
    ensures TableInvariant(rows + [record], next + 1)
  {
  }

  /** Each key names at most one row: a successful lookup by key finds the
      row at the position `FindDoc` reports. */
  lemma KeyIsUnique(rows: seq<Record>, collection: string, docId: string, j: nat)
    requires DistinctDocIds(rows) && j < |rows| && Matches(rows[j], collection, docId)
    ensures FindDoc(rows, collection, docId) == Some(j)
  {
    var i := FindDoc(rows, collection, docId);
    assert i.Some?;
    assert rows[i.value].docId == rows[j].docId;
  }
}
