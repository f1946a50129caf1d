/** The store-changing part of the views: creating a record (in the table,
    in a JSON file or both), uploading a JSON file, editing, deleting,
    searching and listing records. Each view is a method on the `Database`
    whose contract states the new tables and media directory; requests,
    messages and rendering are not modelled, only the outcome the view
    reports. */
module Views {
  import opened Wrappers
  import opened Text
  import opened Models
  import opened Forms
  import opened Store

  // ---------------------------------------------------------------------
  // create_medical_record

  /** The save locations that write a table row, and those that write a
      JSON file. */
  const DB_LOCATIONS: set<string> := {"db", "both"}
  const FILE_LOCATIONS: set<string> := {"file", "both"}

  const RECORD_FILE_PREFIX: string := "medical_json/medical_record_"

  /** Where the create view writes a record's JSON file, relative to the
      media root. */
  function RecordFileName(id: Id): (path: string)
    ensures |path| == |RECORD_FILE_PREFIX| + |id| + 5
    ensures path[..|RECORD_FILE_PREFIX|] == RECORD_FILE_PREFIX
    ensures path[|RECORD_FILE_PREFIX|..|path| - 5] == id
  {
    RECORD_FILE_PREFIX + id + ".json"
  }

  /** Two records never share a file: the name determines the id. */
  lemma RecordFileNameInjective(a: Id, b: Id)
    requires RecordFileName(a) == RecordFileName(b)
    ensures a == b
  {
    var n := |RECORD_FILE_PREFIX|;
    assert a == RecordFileName(a)[n..|RecordFileName(a)| - 5];
  }

  /** A record's file never has the name of an uploaded file's copy: the
      two live in the same directory under different prefixes. */
  lemma RecordFileNotUploadPath(id: Id, fileId: Id, filename: string)
    requires IsUuidText(fileId)
    ensures RecordFileName(id) != MedicalJsonFilePath(fileId, filename)
  {
    var r := RecordFileName(id);
    var u := MedicalJsonFilePath(fileId, filename);
    assert r[21] == 'r';
    assert u == "medical_json/medical_data_" + fileId + ".json";
    assert u[21] == 'd';
  }

  /** The `data_source` the create view stores. */
  function CreateSource(location: string): (source: DataSource)
    ensures source == DbSource <==> location == "db"
  {
    if location == "db" then DbSource else BothSource
  }

  /** `objects.create` runs no choice validation, so every save location but
      `db` stores a data source outside the column's declared choices. */
  lemma CreateSourceUndeclared(location: string)
    ensures CreateSource(location) in DATA_SOURCE_CHOICES <==> location == "db"
  {
  }

  /** What the create view ends with: an invalid form shown again, the
      duplicate warning, or the two flags of what was saved. */
  datatype CreateOutcome = FormInvalid | DuplicateFound | Saved(dbSaved: bool, fileSaved: bool)

  /** `create_medical_record` on a POST. `valid` is the form's
      `is_valid()`; `data` and `location` its cleaned data; `recordId` and
      `now` the values of `uuid4()` and `timezone.now()`. */
  method CreateMedicalRecord(db: Database, valid: bool, location: string, data: RecordData,
                             recordId: Id, now: int) returns (outcome: CreateOutcome)
    modifies db
    ensures !valid ==> outcome == FormInvalid
    ensures valid && location in DB_LOCATIONS && HasDuplicate(old(db.records), KeyOfData(data), None) ==>
      outcome == DuplicateFound
    ensures valid && !(location in DB_LOCATIONS && HasDuplicate(old(db.records), KeyOfData(data), None)) ==>
      outcome == Saved(location in DB_LOCATIONS && Insertable(old(db.records), recordId, data),
                       location in FILE_LOCATIONS)
    ensures db.records ==
      if outcome.Saved? && outcome.dbSaved
      then old(db.records)[recordId := ToRow(data, now, CreateSource(location)).value]
      else old(db.records)
    ensures db.files ==
      if outcome.Saved? && outcome.fileSaved
      then old(db.files)[RecordFileName(recordId) := RecordFile(recordId, data, now)]
      else old(db.files)
    ensures db.uploads == old(db.uploads)
    ensures UniqueKeys(old(db.records)) ==> UniqueKeys(db.records)
  {
    if !valid {
      return FormInvalid;
    }
    ghost var before := db.records;
    var duplicate := false;
    if location in DB_LOCATIONS {
      duplicate := HasDuplicate(db.records, KeyOfData(data), None);
    }
    if duplicate && location in DB_LOCATIONS {
      return DuplicateFound;
    }
    var dbSaved := false;
    if location in DB_LOCATIONS && !duplicate {
      dbSaved := db.Create(recordId, data, now, CreateSource(location));
      if dbSaved && UniqueKeys(before) {
        AddKeepsUniqueKeys(before, recordId, ToRow(data, now, CreateSource(location)).value);
      }
    }
    var fileSaved := false;
    if location in FILE_LOCATIONS {
      db.files := db.files[RecordFileName(recordId) := RecordFile(recordId, data, now)];
      fileSaved := true;
    }
    outcome := Saved(dbSaved, fileSaved);
  }

  // ---------------------------------------------------------------------
  // upload_json_file

  /** The object decoded from an uploaded file, field by field; `None` is a
      key the object does not have. */
  datatype UploadObject = UploadObject(
    patientName: Option<string>,
    age: Option<int>,
    gender: Option<string>,
    height: Option<real>,
    weight: Option<real>,
    bloodPressure: Option<string>,
    heartRate: Option<int>,
    temperature: Option<real>,
    symptoms: Option<string>,
    diagnosis: Option<string>)

  /** The keys an upload must have. */
  predicate HasRequiredFields(o: UploadObject) {
    o.patientName.Some? && o.age.Some? && o.gender.Some? && o.height.Some? && o.weight.Some?
  }

  /** The heart rate and temperature an upload stores when it has none. */
  const UPLOAD_HEART_RATE: int := 0
  const UPLOAD_TEMPERATURE: real := 36.6

  /** The values the upload view looks up and stores: the object's own
      where it has them, the defaults (`''`, 0, 36.6) where it does not. */
  function UploadedData(o: UploadObject): (d: RecordData)
    requires HasRequiredFields(o)
    ensures d.heartRate.Some? && d.temperature.Some?
    ensures KeyOfData(d) ==
      DuplicateKey(o.patientName.value, o.age.value, o.gender.value,
                   o.height.value, o.weight.value, o.diagnosis.GetOr(""))
  {
    RecordData(o.patientName.value, o.age.value, o.gender.value, o.height.value, o.weight.value,
               o.bloodPressure.GetOr(""), Some(o.heartRate.GetOr(UPLOAD_HEART_RATE)),
               Some(o.temperature.GetOr(UPLOAD_TEMPERATURE)), o.symptoms.GetOr(""),
               o.diagnosis.GetOr(""))
  }

  /** An upload of an object with only the required keys is stored with
      every default. */
  lemma UploadDefaults(name: string, age: int, gender: string, height: real, weight: real)
    ensures var o := UploadObject(Some(name), Some(age), Some(gender), Some(height), Some(weight),
                                  None, None, None, None, None);
      UploadedData(o) == RecordData(name, age, gender, height, weight, "", Some(0), Some(36.6), "", "")
  {
  }

  /** What the upload view ends with: the form's error, an unreadable or
      incomplete file, the duplicate warning, success, or the database
      refusing the record after the upload was already saved (an exception
      the view does not catch). */
  datatype UploadOutcome =
    | UploadInvalid(error: FormError)
    | FileError
    | UploadDuplicate
    | Uploaded
    | UploadCrashed

  /** `upload_json_file` on a POST. `parsed` is the result of decoding and
      parsing the file (`None` when `.decode('utf-8')` or `json.loads`
      fails). `fileId`, `pathId` and `recordId` are the three `uuid4()`
      values: the `JSONFile` key, the one in the stored file's name, and the
      record's key. `uploadedAt` and `createdAt` are the two
      `timezone.now()` values: the `JSONFile` default and the record's. */
  method UploadJsonFile(db: Database, file: UploadedFile, parsed: Option<UploadObject>,
                        fileId: Id, pathId: Id, recordId: Id, uploadedAt: int, createdAt: int)
    returns (outcome: UploadOutcome)
    requires IsUuidText(pathId)
    modifies db
    ensures UploadFormCheck(file).Failure? ==>
      && outcome == UploadInvalid(UploadFormCheck(file).error)
      && db.files == old(db.files)
    ensures UploadFormCheck(file).Success? && (parsed.None? || !HasRequiredFields(parsed.value)) ==>
      && outcome == FileError
      && db.files == old(db.files) - {file.name}
    ensures UploadFormCheck(file).Success? && parsed.Some? && HasRequiredFields(parsed.value) ==>
      var data := UploadedData(parsed.value);
      var path := MedicalJsonFilePath(pathId, file.name);
      if HasDuplicate(old(db.records), KeyOfData(data), None) then
        outcome == UploadDuplicate && db.files == old(db.files)
      else
        && (outcome == Uploaded <==> Insertable(old(db.records), recordId, data))
        && (outcome == Uploaded || outcome == UploadCrashed)
        && db.uploads == old(db.uploads)[fileId := JsonFileRow(path, uploadedAt, true)]
        && db.files == old(db.files)[path := UploadCopy(file.name, file.size)]
        && (outcome == Uploaded ==>
              db.records == old(db.records)[recordId := ToRow(data, createdAt, FileSource).value])
    ensures outcome != Uploaded ==> db.records == old(db.records)
    ensures !(outcome == Uploaded || outcome == UploadCrashed) ==> db.uploads == old(db.uploads)
    ensures UniqueKeys(old(db.records)) ==> UniqueKeys(db.records)
  {
    var check := UploadFormCheck(file);
    if check.Failure? {
      return UploadInvalid(check.error);
    }
    if parsed.None? || !HasRequiredFields(parsed.value) {
      // Before the upload is saved its path is its own name under the media
      // root; a file already there is removed.
      db.files := db.files - {file.name};
      return FileError;
    }
    var data := UploadedData(parsed.value);
    if HasDuplicate(db.records, KeyOfData(data), None) {
      return UploadDuplicate;
    }
    ghost var before := db.records;
    var path := MedicalJsonFilePath(pathId, file.name);
    db.uploads := db.uploads[fileId := JsonFileRow(path, uploadedAt, true)];
    db.files := db.files[path := UploadCopy(file.name, file.size)];
    var created := db.Create(recordId, data, createdAt, FileSource);
    if created {
      if UniqueKeys(before) {
        AddKeepsUniqueKeys(before, recordId, ToRow(data, createdAt, FileSource).value);
      }
      outcome := Uploaded;
    } else {
      outcome := UploadCrashed;
    }
  }

  // ---------------------------------------------------------------------
  // edit_record

  /** The record after `form.save()` of the edit form: the ten form fields
      replaced, the creation time and data source kept. */
  function Edited(r: MedicalRecord, data: RecordData): (e: MedicalRecord)
    requires data.heartRate.Some? && data.temperature.Some?
    ensures KeyOf(e) == KeyOfData(data)
    ensures e.createdAt == r.createdAt && e.dataSource == r.dataSource
    ensures e.bloodPressure == data.bloodPressure && e.symptoms == data.symptoms
    ensures e.heartRate == data.heartRate.value && e.temperature == data.temperature.value
  {
    r.(patientName := data.patientName, age := data.age, gender := data.gender,
       height := data.height, weight := data.weight, bloodPressure := data.bloodPressure,
       heartRate := data.heartRate.value, temperature := data.temperature.value,
       symptoms := data.symptoms, diagnosis := data.diagnosis)
  }

  datatype EditOutcome = EditNotFound | EditShown | EditInvalid | EditDuplicate | EditSaved

  /** `edit_record`. `isPost` is the request method; `valid` and `data` the
      edit form's `is_valid()` and cleaned data, in which every field has a
      value (all of them are required there). */
  method EditRecord(db: Database, recordId: Id, isPost: bool, valid: bool, data: RecordData)
    returns (outcome: EditOutcome)
    requires valid ==> data.heartRate.Some? && data.temperature.Some?
    modifies db
    ensures recordId !in old(db.records) ==> outcome == EditNotFound
    ensures outcome == EditSaved <==>
      recordId in old(db.records) && isPost && valid &&
      !HasDuplicate(old(db.records), KeyOfData(data), Some(recordId))
    ensures outcome == EditDuplicate <==>
      recordId in old(db.records) && isPost && valid &&
      HasDuplicate(old(db.records), KeyOfData(data), Some(recordId))
    ensures db.records ==
      if outcome == EditSaved
      then old(db.records)[recordId := Edited(old(db.records)[recordId], data)]
      else old(db.records)
    ensures db.files == old(db.files) && db.uploads == old(db.uploads)
    ensures UniqueKeys(old(db.records)) ==> UniqueKeys(db.records)
  {
    if recordId !in db.records {
      return EditNotFound;
    }
    if !isPost {
      return EditShown;
    }
    if !valid {
      return EditInvalid;
    }
    if HasDuplicate(db.records, KeyOfData(data), Some(recordId)) {
      return EditDuplicate;
    }
    var edited := Edited(db.records[recordId], data);
    if UniqueKeys(db.records) {
      AddKeepsUniqueKeys(db.records, recordId, edited);
    }
    db.records := db.records[recordId := edited];
    outcome := EditSaved;
  }

  /** Saving a record without changing its key is never reported as a
      duplicate when the table's keys are unique, because the lookup
      excludes the record itself; without the exclusion it would find
      itself. */
  lemma ResaveNotDuplicate(records: map<Id, MedicalRecord>, id: Id)
    requires UniqueKeys(records) && id in records
    ensures !HasDuplicate(records, KeyOf(records[id]), Some(id))
    ensures HasDuplicate(records, KeyOf(records[id]), None)
  {
  }

  // ---------------------------------------------------------------------
  // delete_record

  datatype DeleteOutcome = DeleteNotFound | DeleteConfirm | Deleted

  /** `delete_record`: a GET shows the confirmation, a POST deletes exactly
      the record. */
  method DeleteRecord(db: Database, recordId: Id, isPost: bool) returns (outcome: DeleteOutcome)
    modifies db
    ensures recordId !in old(db.records) ==> outcome == DeleteNotFound
    ensures outcome == Deleted <==> recordId in old(db.records) && isPost
    ensures db.records == if outcome == Deleted then old(db.records) - {recordId} else old(db.records)
    ensures db.files == old(db.files) && db.uploads == old(db.uploads)
    ensures UniqueKeys(old(db.records)) ==> UniqueKeys(db.records)
  {
    if recordId !in db.records {
      return DeleteNotFound;
    }
    if !isPost {
      return DeleteConfirm;
    }
    if UniqueKeys(db.records) {
      RemoveKeepsUniqueKeys(db.records, {recordId});
    }
    db.records := db.records - {recordId};
    outcome := Deleted;
  }

  // ---------------------------------------------------------------------
  // search_records and view_medical_records

  /** One entry of the search response. */
  datatype SearchResult = SearchResult(
    id: Id,
    patientName: string,
    age: int,
    gender: string,
    height: real,
    weight: real,
    bloodPressure: string,
    heartRate: int,
    temperature: real,
    symptoms: string,
    diagnosis: string,
    bmi: real,
    createdAt: int)

  /** The entry for one record: the gender as its display label, the BMI
      computed. */
  function ResultOf(id: Id, r: MedicalRecord): (res: SearchResult)
    ensures res.id == id && res.createdAt == r.createdAt
    ensures res.gender == GenderDisplay(r.gender)
  {
    SearchResult(id, r.patientName, r.age, GenderDisplay(r.gender), r.height, r.weight,
                 r.bloodPressure, r.heartRate, r.temperature, r.symptoms, r.diagnosis,
                 Bmi(r), r.createdAt)
  }

  /** `icontains`: the query occurs in the text, ignoring case. */
  predicate IContains(text: string, query: string) {
    Contains(Lower(text), Lower(query))
  }

  /** The search filter: the query in the name, the symptoms, the diagnosis
      or the blood pressure. */
  predicate Matches(r: MedicalRecord, query: string) {
    || IContains(r.patientName, query)
    || IContains(r.symptoms, query)
    || IContains(r.diagnosis, query)
    || IContains(r.bloodPressure, query)
  }

  /** The search filter by position: the lower-cased query occurs at some
      index of one of the four lower-cased fields. */
  lemma MatchesIff(r: MedicalRecord, query: string)
    ensures Matches(r, query) <==>
      || (exists i :: OccursAt(Lower(r.patientName), Lower(query), i))
      || (exists i :: OccursAt(Lower(r.symptoms), Lower(query), i))
      || (exists i :: OccursAt(Lower(r.diagnosis), Lower(query), i))
      || (exists i :: OccursAt(Lower(r.bloodPressure), Lower(query), i))
  {
    ContainsIff(Lower(r.patientName), Lower(query));
    ContainsIff(Lower(r.symptoms), Lower(query));
    ContainsIff(Lower(r.diagnosis), Lower(query));
    ContainsIff(Lower(r.bloodPressure), Lower(query));
  }

  /** The matching is case-insensitive: a query and its lower-case form
      find the same records. */
  lemma MatchesIgnoresCase(r: MedicalRecord, query: string)
    ensures Matches(r, Lower(query)) <==> Matches(r, query)
  {
    LowerIdempotent(query);
  }

  /** Lower-casing twice is lower-casing once. */
  lemma LowerIdempotent(s: string)
    ensures Lower(Lower(s)) == Lower(s)
  {
    forall i | 0 <= i < |s|
      ensures Lower(Lower(s))[i] == Lower(s)[i]
    {
      LowerCharIdempotent(s[i]);
    }
  }

  lemma LowerCharIdempotent(c: char)
    ensures LowerChar(LowerChar(c)) == LowerChar(c)
  {
  }

  /** The ids of a list of results, in order. */
  function IdsOf(results: seq<SearchResult>): (ids: seq<Id>)
    ensures |ids| == |results|
    ensures forall k :: 0 <= k < |results| ==> ids[k] == results[k].id
  {
    seq(|results|, k requires 0 <= k < |results| => results[k].id)
  }

  /** The entries for the matching records among `ids`, in the order of
      `ids`. */
  function SearchOver(ids: seq<Id>, records: map<Id, MedicalRecord>, query: string): (results: seq<SearchResult>)
    requires forall i :: 0 <= i < |ids| ==> ids[i] in records
    ensures |results| <= |ids|
  {
    if ids == [] then []
    else
      var id := ids[|ids| - 1];
      SearchOver(ids[..|ids| - 1], records, query) +
        (if Matches(records[id], query) then [ResultOf(id, records[id])] else [])
  }

  /** `res` is the entry of a record listed in `ids` that matches. */
  predicate SoundEntry(res: SearchResult, ids: seq<Id>, records: map<Id, MedicalRecord>, query: string) {
    && res.id in ids
    && res.id in records
    && Matches(records[res.id], query)
    && res == ResultOf(res.id, records[res.id])
  }

  /** Every entry is that of a listed record that matches. */
  lemma {:induction false} SearchOverSound(ids: seq<Id>, records: map<Id, MedicalRecord>, query: string)
    requires forall i :: 0 <= i < |ids| ==> ids[i] in records
    ensures forall res :: res in SearchOver(ids, records, query) ==> SoundEntry(res, ids, records, query)
  {
    if ids != [] {
      var front := ids[..|ids| - 1];
      SearchOverSound(front, records, query);
      var earlier := SearchOver(front, records, query);
      forall res | res in SearchOver(ids, records, query)
        ensures SoundEntry(res, ids, records, query)
      {
        if res in earlier {
          assert SoundEntry(res, front, records, query);
          assert res.id in front;
        }
      }
    }
  }

  /** Every listed record that matches has an entry. */
  lemma {:induction false} SearchOverComplete(ids: seq<Id>, records: map<Id, MedicalRecord>, query: string)
    requires forall i :: 0 <= i < |ids| ==> ids[i] in records
    ensures forall p :: 0 <= p < |ids| && Matches(records[ids[p]], query) ==>
      ids[p] in IdsOf(SearchOver(ids, records, query))
  {
    if ids != [] {
      var front := ids[..|ids| - 1];
      SearchOverComplete(front, records, query);
      var results := SearchOver(ids, records, query);
      var earlier := SearchOver(front, records, query);
      assert results[..|earlier|] == earlier;
      forall p | 0 <= p < |ids| && Matches(records[ids[p]], query)
        ensures ids[p] in IdsOf(results)
      {
        if p < |ids| - 1 {
          assert ids[p] == front[p];
          var k :| 0 <= k < |earlier| && IdsOf(earlier)[k] == ids[p];
          assert IdsOf(results)[k] == ids[p];
        } else {
          assert IdsOf(results)[|results| - 1] == ids[p];
        }
      }
    }
  }

  /** Entries newest first. */
  predicate EntriesNewestFirst(results: seq<SearchResult>) {
    forall k, l :: 0 <= k < l < |results| ==> results[k].createdAt >= results[l].createdAt
  }

  /** No record has two entries. */
  predicate EntriesDistinct(results: seq<SearchResult>) {
    forall k, l :: 0 <= k < l < |results| ==> results[k].id != results[l].id
  }

  /** Over a newest-first list, the entries are newest first. */
  lemma {:induction false} SearchOverOrdered(ids: seq<Id>, records: map<Id, MedicalRecord>, query: string)
    requires NewestFirst(ids, records)
    ensures EntriesNewestFirst(SearchOver(ids, records, query))
  {
    if ids != [] {
      var front := ids[..|ids| - 1];
      SearchOverOrdered(front, records, query);
      SearchOverSound(front, records, query);
      var earlier := SearchOver(front, records, query);
      var results := SearchOver(ids, records, query);
      var last := ids[|ids| - 1];
      forall k, l | 0 <= k < l < |results|
        ensures results[k].createdAt >= results[l].createdAt
      {
        assert results[k] == earlier[k];
        if l >= |earlier| {
          assert results[l].createdAt == records[last].createdAt;
          assert SoundEntry(earlier[k], front, records, query);
          var p :| 0 <= p < |front| && front[p] == earlier[k].id;
          assert ids[p] == front[p];
        } else {
          assert results[l] == earlier[l];
        }
      }
    }
  }

  /** Over a list without repeats, no record has two entries. */
  lemma {:induction false} SearchOverDistinct(ids: seq<Id>, records: map<Id, MedicalRecord>, query: string)
    requires forall i :: 0 <= i < |ids| ==> ids[i] in records
    requires Distinct(ids)
    ensures EntriesDistinct(SearchOver(ids, records, query))
  {
    if ids != [] {
      var front := ids[..|ids| - 1];
      SearchOverDistinct(front, records, query);
      SearchOverSound(front, records, query);
      var earlier := SearchOver(front, records, query);
      var results := SearchOver(ids, records, query);
      var last := ids[|ids| - 1];
      forall k, l | 0 <= k < l < |results|
        ensures results[k].id != results[l].id
      {
        assert results[k] == earlier[k];
        if l >= |earlier| {
          assert results[l].id == last;
          assert SoundEntry(earlier[k], front, records, query);
          var p :| 0 <= p < |front| && front[p] == earlier[k].id;
          assert ids[p] == front[p];
        } else {
          assert results[l] == earlier[l];
        }
      }
    }
  }

  /** What `search_records` answers for a non-empty query: an entry for
      each matching record and for nothing else, newest first, none twice. */
  predicate SearchAnswer(results: seq<SearchResult>, records: map<Id, MedicalRecord>, query: string) {
    && (forall res :: res in results ==>
          res.id in records && Matches(records[res.id], query) && res == ResultOf(res.id, records[res.id]))
    && (forall id :: id in records && Matches(records[id], query) ==> id in IdsOf(results))
    && EntriesNewestFirst(results)
    && EntriesDistinct(results)
  }

  /** Walking every record newest first gives the search answer. */
  lemma SearchOverAnswers(ids: seq<Id>, records: map<Id, MedicalRecord>, query: string)
    requires NewestFirst(ids, records) && Distinct(ids)
    requires forall id :: id in records ==> id in ids
    ensures SearchAnswer(SearchOver(ids, records, query), records, query)
  {
    var results := SearchOver(ids, records, query);
    SearchOverSound(ids, records, query);
    SearchOverComplete(ids, records, query);
    SearchOverOrdered(ids, records, query);
    SearchOverDistinct(ids, records, query);
    forall res | res in results
      ensures res.id in records && Matches(records[res.id], query)
      ensures res == ResultOf(res.id, records[res.id])
    {
      assert SoundEntry(res, ids, records, query);
    }
    forall id | id in records && Matches(records[id], query)
      ensures id in IdsOf(results)
    {
      var p :| 0 <= p < |ids| && ids[p] == id;
    }
  }

  /** One more listed record adds its entry when it matches. */
  lemma SearchOverStep(ids: seq<Id>, i: int, records: map<Id, MedicalRecord>, query: string)
    requires 0 <= i < |ids| && forall k :: 0 <= k < |ids| ==> ids[k] in records
    ensures SearchOver(ids[..i + 1], records, query) ==
      SearchOver(ids[..i], records, query) +
        (if Matches(records[ids[i]], query) then [ResultOf(ids[i], records[ids[i]])] else [])
  {
    assert ids[..i + 1][..i] == ids[..i];
  }

  /** `search_records`: for an AJAX request with a non-empty query, every
      matching record once, newest first; otherwise nothing. */
  method SearchRecords(db: Database, isAjax: bool, query: string) returns (results: seq<SearchResult>)
    ensures !isAjax || query == [] ==> results == []
    ensures isAjax && query != [] ==> SearchAnswer(results, db.records, query)
  {
    if !isAjax || query == [] {
      return [];
    }
    var ordered := db.AllNewestFirst();
    results := [];
    var i := 0;
    while i < |ordered|
      invariant 0 <= i <= |ordered|
      invariant results == SearchOver(ordered[..i], db.records, query)
    {
      var id := ordered[i];
      var r := db.records[id];
      SearchOverStep(ordered, i, db.records, query);
      if Matches(r, query) {
        results := results + [ResultOf(id, r)];
      }
      i := i + 1;
    }
    assert ordered[..i] == ordered;
    SearchOverAnswers(ordered, db.records, query);
  }

  /** `view_medical_records`: the `source` query parameter (default `db`)
      chooses between the JSON file listing, which is not modelled, and the
      table newest first. */
  method ViewMedicalRecords(db: Database, source: Option<string>)
    returns (showsFiles: bool, ids: seq<Id>)
    ensures showsFiles <==> source == Some("file")
    ensures showsFiles ==> ids == []
    ensures !showsFiles ==>
      && NewestFirst(ids, db.records)
      && Distinct(ids)
      && forall id :: id in db.records <==> id in ids
  {
    if source.GetOr("db") == "file" {
      return true, [];
    }
    showsFiles := false;
    ids := db.AllNewestFirst();
  }
}
