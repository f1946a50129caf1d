/** The persistent state the views work on: the `MedicalRecord` table keyed
    by id, the `JSONFile` table, and the media directory as a map from a
    path relative to the media root to what the file holds. The queries the
    views send to the database (the duplicate lookup, `objects.create`,
    ordering by `created_at`) are stated here once. */
module Store {
  import opened Wrappers
  import opened Models

  /** What a file in the media directory holds: a record the create view
      wrote as JSON, or an uploaded file kept as it was sent. */
  datatype StoredFile =
    | RecordFile(id: Id, data: RecordData, createdAt: int)
    | UploadCopy(originalName: string, size: nat)

  /** A row of the `JSONFile` table. */
  datatype JsonFileRow = JsonFileRow(path: string, uploadedAt: int, isValid: bool)

  /** Some record other than `exclude` has the duplicate key `key`: the
      `filter(...)` on the six key columns, with `.exclude(id=...)` when
      given, followed by `.first()`. */
  predicate HasDuplicate(records: map<Id, MedicalRecord>, key: DuplicateKey, exclude: Option<Id>) {
    exists id :: id in records && KeyOf(records[id]) == key && exclude != Some(id)
  }

  /** No two records of the table share a duplicate key. */
  predicate UniqueKeys(records: map<Id, MedicalRecord>) {
    forall a, b :: a in records && b in records && a != b ==> KeyOf(records[a]) != KeyOf(records[b])
  }

  /** The column constraints of the table: heart rate and temperature are
      `NOT NULL`, and age and heart rate are positive-integer columns with a
      `>= 0` check. */
  predicate RowAcceptable(data: RecordData) {
    data.heartRate.Some? && data.temperature.Some? && data.age >= 0 && data.heartRate.value >= 0
  }

  /** The row `objects.create` would insert, or `None` when the database
      refuses it. */
  function ToRow(data: RecordData, createdAt: int, source: DataSource): (row: Option<MedicalRecord>)
    ensures row.Some? <==> RowAcceptable(data)
    ensures row.Some? ==> KeyOf(row.value) == KeyOfData(data)
    ensures row.Some? ==>
      && row.value.bloodPressure == data.bloodPressure
      && row.value.heartRate == data.heartRate.value
      && row.value.temperature == data.temperature.value
      && row.value.symptoms == data.symptoms
      && row.value.createdAt == createdAt
      && row.value.dataSource == source
  {
    if data.heartRate.None? || data.temperature.None? then None
    else if data.age < 0 || data.heartRate.value < 0 then None
    else Some(MedicalRecord(data.patientName, data.age, data.gender, data.height, data.weight,
                            data.bloodPressure, data.heartRate.value, data.temperature.value,
                            data.symptoms, data.diagnosis, createdAt, source))
  }

  /** `objects.create` succeeds: the row is acceptable and its primary key
      is new (the insert is forced, so an existing id is an
      `IntegrityError`). */
  predicate Insertable(records: map<Id, MedicalRecord>, id: Id, data: RecordData) {
    id !in records && RowAcceptable(data)
  }

  /** A table whose keys were unique stays so when a row is added whose key
      no other row has. */
  lemma AddKeepsUniqueKeys(records: map<Id, MedicalRecord>, id: Id, row: MedicalRecord)
    requires UniqueKeys(records)
    requires !HasDuplicate(records, KeyOf(row), Some(id))
    ensures UniqueKeys(records[id := row])
  {
    var updated := records[id := row];
    forall a, b | a in updated && b in updated && a != b
      ensures KeyOf(updated[a]) != KeyOf(updated[b])
    {
      if a == id {
        assert !(b in records && KeyOf(records[b]) == KeyOf(row) && Some(id) != Some(b));
      } else if b == id {
        assert !(a in records && KeyOf(records[a]) == KeyOf(row) && Some(id) != Some(a));
      }
    }
  }

  /** The table is free of duplicates exactly when the lookup, run for each
      stored record with that record excluded, finds nothing. */
  lemma UniqueKeysIffNoLookupHit(records: map<Id, MedicalRecord>)
    ensures UniqueKeys(records) <==>
      forall id :: id in records ==> !HasDuplicate(records, KeyOf(records[id]), Some(id))
  {
    if !UniqueKeys(records) {
      var a, b :| a in records && b in records && a != b && KeyOf(records[a]) == KeyOf(records[b]);
      assert b in records && KeyOf(records[b]) == KeyOf(records[a]) && Some(a) != Some(b);
      assert HasDuplicate(records, KeyOf(records[a]), Some(a));
    }
  }

  /** Removing rows keeps the keys unique. */
  lemma RemoveKeepsUniqueKeys(records: map<Id, MedicalRecord>, gone: set<Id>)
    requires UniqueKeys(records)
    ensures UniqueKeys(records - gone)
  {
  }

  /** `ids` lists records of the table newest first. */
  predicate NewestFirst(ids: seq<Id>, records: map<Id, MedicalRecord>) {
    && (forall i :: 0 <= i < |ids| ==> ids[i] in records)
    && (forall i, j :: 0 <= i < j < |ids| ==>
          records[ids[i]].createdAt >= records[ids[j]].createdAt)
  }

  /** Each id appears once. */
  predicate Distinct(ids: seq<Id>) {
    forall i, j :: 0 <= i < j < |ids| ==> ids[i] != ids[j]
  }

  /** Insert `id` into a list before the first record that is not newer
      than it. */
  function InsertNewest(ids: seq<Id>, id: Id, records: map<Id, MedicalRecord>): (r: seq<Id>)
    requires id in records && forall i :: 0 <= i < |ids| ==> ids[i] in records
    ensures |r| == |ids| + 1
    ensures forall x :: x in r <==> x in ids || x == id
  {
    if ids == [] || records[id].createdAt >= records[ids[0]].createdAt then [id] + ids
    else [ids[0]] + InsertNewest(ids[1..], id, records)
  }

  /** Inserting into a newest-first list keeps it newest first. */
  lemma {:induction false} InsertNewestOrdered(ids: seq<Id>, id: Id, records: map<Id, MedicalRecord>)
    requires id in records && NewestFirst(ids, records)
    ensures NewestFirst(InsertNewest(ids, id, records), records)
  {
    if ids != [] && records[id].createdAt < records[ids[0]].createdAt {
      var rest := InsertNewest(ids[1..], id, records);
      InsertNewestOrdered(ids[1..], id, records);
      var r := [ids[0]] + rest;
      forall k | 0 < k < |r|
        ensures records[ids[0]].createdAt >= records[r[k]].createdAt
      {
        assert r[k] == rest[k - 1];
        assert r[k] in ids[1..] || r[k] == id;
      }
    }
  }

  /** Inserting an id that is not yet listed keeps the list free of
      repeats. */
  lemma {:induction false} InsertNewestDistinct(ids: seq<Id>, id: Id, records: map<Id, MedicalRecord>)
    requires id in records && forall i :: 0 <= i < |ids| ==> ids[i] in records
    requires Distinct(ids) && id !in ids
    ensures Distinct(InsertNewest(ids, id, records))
  {
    if ids != [] && records[id].createdAt < records[ids[0]].createdAt {
      var rest := InsertNewest(ids[1..], id, records);
      InsertNewestDistinct(ids[1..], id, records);
      var r := [ids[0]] + rest;
      forall k | 0 < k < |r|
        ensures r[k] != ids[0]
      {
        assert r[k] == rest[k - 1];
        assert r[k] in ids[1..] || r[k] == id;
      }
    }
  }

  class Database {
    var records: map<Id, MedicalRecord>
    var files: map<string, StoredFile>
    var uploads: map<Id, JsonFileRow>

    /** An empty database and media directory. */
    constructor()
      ensures records == map[] && files == map[] && uploads == map[]
    {
      records := map[];
      files := map[];
      uploads := map[];
    }

    /** `MedicalRecord.objects.create(id=..., ...)`: insert the row, or
        leave the table as it was when the database raises
        `IntegrityError`. */
    method Create(id: Id, data: RecordData, createdAt: int, source: DataSource) returns (ok: bool)
      modifies this
      ensures ok <==> Insertable(old(records), id, data)
      ensures ok ==> records == old(records)[id := ToRow(data, createdAt, source).value]
      ensures !ok ==> records == old(records)
      ensures files == old(files) && uploads == old(uploads)
    {
      var row := ToRow(data, createdAt, source);
      if id in records || row.None? {
        ok := false;
      } else {
        records := records[id := row.value];
        ok := true;
      }
    }

    /** `MedicalRecord.objects.all().order_by('-created_at')`: every id of
        the table once, newest first (records created at the same instant
        come in no particular order). */
    method AllNewestFirst() returns (ids: seq<Id>)
      ensures NewestFirst(ids, records)
      ensures Distinct(ids)
      ensures forall id :: id in records <==> id in ids
    {
      ids := [];
      var rest := records.Keys;
      while rest != {}
        invariant rest <= records.Keys
        invariant NewestFirst(ids, records)
        invariant Distinct(ids)
        invariant forall id :: id in records <==> id in ids || id in rest
        invariant forall id :: id in rest ==> id !in ids
        decreases rest
      {
        var id :| id in rest;
        InsertNewestOrdered(ids, id, records);
        InsertNewestDistinct(ids, id, records);
        ids := InsertNewest(ids, id, records);
        rest := rest - {id};
      }
    }
  }
}
