/** The `remove_duplicates.py` maintenance pass: find every duplicate key
    that more than one record shares, keep the oldest record of each such
    group and delete the others from the table. */
module Dedup {
  import opened Models
  import opened Store

  /** The ids of the records with key `key`. */
  function Group(records: map<Id, MedicalRecord>, key: DuplicateKey): (ids: set<Id>)
    ensures forall id :: id in ids <==> id in records && KeyOf(records[id]) == key
  {
    set id | id in records && KeyOf(records[id]) == key
  }

  /** The keys more than one record shares: the `values(...).annotate(
      count=Count('id')).filter(count__gt=1)` query. Every shared key is
      found; `GroupShared` states the converse. */
  function DuplicateGroups(records: map<Id, MedicalRecord>): (keys: set<DuplicateKey>)
    ensures forall a, b :: (a in records && b in records && a != b &&
                            KeyOf(records[a]) == KeyOf(records[b])) ==> KeyOf(records[a]) in keys
  {
    set a, b | a in records && b in records && a != b && KeyOf(records[a]) == KeyOf(records[b])
      :: KeyOf(records[a])
  }

  /** Each key found is shared by two different records. */
  lemma GroupShared(records: map<Id, MedicalRecord>, key: DuplicateKey)
    requires key in DuplicateGroups(records)
    ensures exists a, b :: (a in records && b in records && a != b &&
                            KeyOf(records[a]) == key && KeyOf(records[b]) == key)
  {
  }

  /** A table has no duplicate groups exactly when its keys are unique, so
      a second pass finds nothing to do. */
  lemma NoGroupsIffUnique(records: map<Id, MedicalRecord>)
    ensures DuplicateGroups(records) == {} <==> UniqueKeys(records)
  {
    if DuplicateGroups(records) != {} {
      var key :| key in DuplicateGroups(records);
      GroupShared(records, key);
    }
  }

  /** `keep` is a record of `group` created no later than any other. */
  predicate OldestIn(records: map<Id, MedicalRecord>, group: set<Id>, keep: Id)
    requires group <= records.Keys
  {
    keep in group && forall id :: id in group ==> records[keep].createdAt <= records[id].createdAt
  }

  /** `records.order_by('created_at').first()`: the oldest record of a
      non-empty group. */
  method Oldest(records: map<Id, MedicalRecord>, group: set<Id>) returns (keep: Id)
    requires group != {} && group <= records.Keys
    ensures OldestIn(records, group, keep)
  {
    keep :| keep in group;
    var rest := group - {keep};
    while rest != {}
      invariant rest <= group && keep in group
      invariant forall id :: id in group - rest ==> records[keep].createdAt <= records[id].createdAt
      decreases rest
    {
      var id :| id in rest;
      if records[id].createdAt < records[keep].createdAt {
        keep := id;
      }
      rest := rest - {id};
    }
  }

  /** The table after one group's surplus is deleted: every record of key
      `key` except `keep` is gone. */
  function KeepOne(records: map<Id, MedicalRecord>, key: DuplicateKey, keep: Id): (result: map<Id, MedicalRecord>)
    ensures forall id :: id in result <==> id in records && (KeyOf(records[id]) != key || id == keep)
    ensures forall id :: id in result ==> result[id] == records[id]
  {
    map id | id in records && (KeyOf(records[id]) != key || id == keep) :: records[id]
  }

  /** Handling one group deletes exactly all but one of its records. */
  lemma KeepOneDeletes(records: map<Id, MedicalRecord>, key: DuplicateKey, keep: Id)
    requires keep in Group(records, key)
    ensures |KeepOne(records, key, keep)| == |records| - (|Group(records, key)| - 1)
  {
    var gone := Group(records, key) - {keep};
    assert KeepOne(records, key, keep).Keys == records.Keys - gone;
    assert records.Keys * gone == gone;
  }

  /** The distinct duplicate keys of a table. */
  function KeysOf(records: map<Id, MedicalRecord>): (keys: set<DuplicateKey>)
    ensures forall id :: id in records ==> KeyOf(records[id]) in keys
  {
    set id | id in records :: KeyOf(records[id])
  }

  /** Each of those keys is the key of a record. */
  lemma KeyOfSome(records: map<Id, MedicalRecord>, key: DuplicateKey)
    requires key in KeysOf(records)
    ensures exists id :: id in records && KeyOf(records[id]) == key
  {
  }

  /** Removing one record leaves the keys of the others. */
  lemma KeysOfRemove(records: map<Id, MedicalRecord>, id: Id)
    requires id in records
    ensures KeysOf(records) == KeysOf(records - {id}) + {KeyOf(records[id])}
  {
    var rest := records - {id};
    forall key | key in KeysOf(records)
      ensures key in KeysOf(rest) + {KeyOf(records[id])}
    {
      KeyOfSome(records, key);
      var j :| j in records && KeyOf(records[j]) == key;
      if j != id {
        assert j in rest;
      }
    }
  }

  /** With unique keys, the key of a removed record is not among the keys
      left. */
  lemma KeysOfRemoveUnique(records: map<Id, MedicalRecord>, id: Id)
    requires id in records && UniqueKeys(records)
    ensures KeyOf(records[id]) !in KeysOf(records - {id})
  {
    var rest := records - {id};
    if KeyOf(records[id]) in KeysOf(rest) {
      KeyOfSome(rest, KeyOf(records[id]));
    }
  }

  /** A table with unique keys has as many records as distinct keys. */
  lemma {:induction false} UniqueKeysCount(records: map<Id, MedicalRecord>)
    requires UniqueKeys(records)
    ensures |records| == |KeysOf(records)|
    decreases |records|
  {
    if records != map[] {
      var id :| id in records;
      var rest := records - {id};
      UniqueKeysCount(rest);
      KeysOfRemove(records, id);
      KeysOfRemoveUnique(records, id);
      assert |records| == |rest| + 1;
    }
  }

  /** Nothing was added to `start` or changed in it. */
  predicate SubTable(start: map<Id, MedicalRecord>, records: map<Id, MedicalRecord>) {
    forall id :: id in records ==> id in start && records[id] == start[id]
  }

  /** The records of `start` whose key is outside `done` are all there. */
  predicate OthersKept(start: map<Id, MedicalRecord>, records: map<Id, MedicalRecord>, done: set<DuplicateKey>) {
    forall id :: id in start && KeyOf(start[id]) !in done ==> id in records
  }

  /** Every key of `done` still has a record. */
  predicate Represented(records: map<Id, MedicalRecord>, done: set<DuplicateKey>) {
    forall key :: key in done ==> exists id :: id in records && KeyOf(records[id]) == key
  }

  /** No key of `done` has two records. */
  predicate OneEach(records: map<Id, MedicalRecord>, done: set<DuplicateKey>) {
    forall a, b :: (a in records && b in records && KeyOf(records[a]) in done &&
                    KeyOf(records[a]) == KeyOf(records[b])) ==> a == b
  }

  /** The record kept for a key of `done` is the oldest of that key in
      `start`. */
  predicate OldestKept(start: map<Id, MedicalRecord>, records: map<Id, MedicalRecord>, done: set<DuplicateKey>) {
    forall id, other :: (id in records && KeyOf(records[id]) in done && other in start &&
                         KeyOf(start[other]) == KeyOf(records[id])) ==>
      records[id].createdAt <= start[other].createdAt
  }

  /** The state after the groups in `done` are handled, relative to the
      table `start`. */
  predicate Handled(start: map<Id, MedicalRecord>, records: map<Id, MedicalRecord>, done: set<DuplicateKey>) {
    && SubTable(start, records)
    && OthersKept(start, records, done)
    && Represented(records, done)
    && OneEach(records, done)
    && OldestKept(start, records, done)
  }

  /** Handling one more group keeps `Handled`. */
  lemma KeepOneHandled(start: map<Id, MedicalRecord>, records: map<Id, MedicalRecord>,
                       done: set<DuplicateKey>, key: DuplicateKey, keep: Id)
    requires Handled(start, records, done) && key !in done
    requires Group(records, key) <= records.Keys
    requires OldestIn(records, Group(records, key), keep)
    ensures Handled(start, KeepOne(records, key, keep), done + {key})
  {
    var next := KeepOne(records, key, keep);
    assert SubTable(start, next);
    assert OthersKept(start, next, done + {key});
    KeepOneRepresented(records, done, key, keep);
    KeepOneOneEach(records, done, key, keep);
    KeepOneOldest(start, records, done, key, keep);
  }

  lemma KeepOneRepresented(records: map<Id, MedicalRecord>, done: set<DuplicateKey>, key: DuplicateKey, keep: Id)
    requires Represented(records, done) && key !in done
    requires keep in records && KeyOf(records[keep]) == key
    ensures Represented(KeepOne(records, key, keep), done + {key})
  {
    var next := KeepOne(records, key, keep);
    forall k | k in done + {key}
      ensures exists id :: id in next && KeyOf(next[id]) == k
    {
      if k == key {
        assert keep in next;
      } else {
        var id :| id in records && KeyOf(records[id]) == k;
        assert id in next;
      }
    }
  }

  lemma KeepOneOneEach(records: map<Id, MedicalRecord>, done: set<DuplicateKey>, key: DuplicateKey, keep: Id)
    requires OneEach(records, done)
    ensures OneEach(KeepOne(records, key, keep), done + {key})
  {
  }

  lemma KeepOneOldest(start: map<Id, MedicalRecord>, records: map<Id, MedicalRecord>,
                      done: set<DuplicateKey>, key: DuplicateKey, keep: Id)
    requires SubTable(start, records) && OthersKept(start, records, done) && key !in done
    requires OldestKept(start, records, done)
    requires Group(records, key) <= records.Keys
    requires OldestIn(records, Group(records, key), keep)
    ensures OldestKept(start, KeepOne(records, key, keep), done + {key})
  {
    var next := KeepOne(records, key, keep);
    forall id, other | id in next && KeyOf(next[id]) in done + {key} && other in start &&
        KeyOf(start[other]) == KeyOf(next[id])
      ensures next[id].createdAt <= start[other].createdAt
    {
      if KeyOf(next[id]) == key {
        assert other in Group(records, key);
      }
    }
  }

  /** A pending duplicate key still has records. */
  lemma PendingGroupNonEmpty(start: map<Id, MedicalRecord>, records: map<Id, MedicalRecord>,
                             done: set<DuplicateKey>, key: DuplicateKey)
    requires SubTable(start, records) && OthersKept(start, records, done)
    requires key in DuplicateGroups(start) && key !in done
    ensures Group(records, key) != {}
  {
    GroupShared(start, key);
    var a, b :| a in start && b in start && a != b && KeyOf(start[a]) == key && KeyOf(start[b]) == key;
    assert a in Group(records, key);
  }

  /** Two records of a table that share a key make it a duplicate group. */
  lemma SharedKeysAreGroups(start: map<Id, MedicalRecord>)
    ensures forall a, b :: (a in start && b in start && a != b &&
                            KeyOf(start[a]) == KeyOf(start[b])) ==> KeyOf(start[a]) in DuplicateGroups(start)
  {
  }

  /** What the pass leaves behind, relative to the table `start`: a part of
      it, with unique keys, every key of `start` still present, the oldest
      record kept for each key, and every record whose key was unique
      untouched. */
  predicate Deduplicated(start: map<Id, MedicalRecord>, records: map<Id, MedicalRecord>) {
    && SubTable(start, records)
    && UniqueKeys(records)
    && (forall id :: id in start ==> exists kept :: kept in records && KeyOf(records[kept]) == KeyOf(start[id]))
    && (forall id, other :: (id in records && other in start && KeyOf(start[other]) == KeyOf(records[id])) ==>
          records[id].createdAt <= start[other].createdAt)
    && (forall id :: id in start && KeyOf(start[id]) !in DuplicateGroups(start) ==> id in records)
  }

  /** Once every duplicate group is handled, the table is deduplicated. */
  lemma HandledAll(start: map<Id, MedicalRecord>, records: map<Id, MedicalRecord>)
    requires Handled(start, records, DuplicateGroups(start))
    ensures Deduplicated(start, records)
  {
    HandledUnique(start, records);
    HandledPresent(start, records);
    HandledOldest(start, records);
  }

  lemma HandledUnique(start: map<Id, MedicalRecord>, records: map<Id, MedicalRecord>)
    requires SubTable(start, records) && OneEach(records, DuplicateGroups(start))
    ensures UniqueKeys(records)
  {
    SharedKeysAreGroups(start);
  }

  lemma HandledPresent(start: map<Id, MedicalRecord>, records: map<Id, MedicalRecord>)
    requires SubTable(start, records)
    requires OthersKept(start, records, DuplicateGroups(start)) && Represented(records, DuplicateGroups(start))
    ensures forall id :: id in start ==> exists kept :: kept in records && KeyOf(records[kept]) == KeyOf(start[id])
  {
    forall id | id in start
      ensures exists kept :: kept in records && KeyOf(records[kept]) == KeyOf(start[id])
    {
      if KeyOf(start[id]) !in DuplicateGroups(start) {
        assert id in records;
      }
    }
  }

  lemma HandledOldest(start: map<Id, MedicalRecord>, records: map<Id, MedicalRecord>)
    requires SubTable(start, records) && OldestKept(start, records, DuplicateGroups(start))
    ensures forall id, other :: (id in records && other in start && KeyOf(start[other]) == KeyOf(records[id])) ==>
              records[id].createdAt <= start[other].createdAt
  {
    SharedKeysAreGroups(start);
  }

  /** What is left holds one record per distinct key of `start`. */
  lemma DeduplicatedCount(start: map<Id, MedicalRecord>, records: map<Id, MedicalRecord>)
    requires SubTable(start, records) && UniqueKeys(records)
    requires forall id :: id in start ==> exists kept :: kept in records && KeyOf(records[kept]) == KeyOf(start[id])
    ensures |records| == |KeysOf(start)|
  {
    UniqueKeysCount(records);
    forall key | key in KeysOf(records)
      ensures key in KeysOf(start)
    {
      KeyOfSome(records, key);
      var j :| j in records && KeyOf(records[j]) == key;
      assert j in start;
    }
    forall key | key in KeysOf(start)
      ensures key in KeysOf(records)
    {
      KeyOfSome(start, key);
      var j :| j in start && KeyOf(start[j]) == key;
      var kept :| kept in records && KeyOf(records[kept]) == key;
    }
    assert KeysOf(records) == KeysOf(start);
  }

  /** The pass is idempotent: run again on its own result, it finds no
      duplicate group. */
  lemma SecondPassFindsNothing(start: map<Id, MedicalRecord>, records: map<Id, MedicalRecord>)
    requires Deduplicated(start, records)
    ensures DuplicateGroups(records) == {}
  {
    NoGroupsIffUnique(records);
  }

  /** A table that had unique keys comes out of the pass as it went in. */
  lemma UniqueUntouched(start: map<Id, MedicalRecord>, records: map<Id, MedicalRecord>)
    requires Deduplicated(start, records) && UniqueKeys(start)
    ensures records == start
  {
    NoGroupsIffUnique(start);
    assert records.Keys == start.Keys;
  }

  /** `duplicates.exclude(id=first.id).delete()`: delete every record of
      key `key` but `keep`. */
  method DeleteOthers(db: Database, key: DuplicateKey, keep: Id)
    modifies db
    ensures db.records == KeepOne(old(db.records), key, keep)
    ensures db.files == old(db.files) && db.uploads == old(db.uploads)
  {
    db.records := KeepOne(db.records, key, keep);
  }

  /** `remove_duplicates.py`: for every duplicate group found up front,
      keep the oldest record and delete the rest. */
  method RemoveDuplicates(db: Database)
    modifies db
    ensures Deduplicated(old(db.records), db.records)
    ensures UniqueKeys(old(db.records)) ==> db.records == old(db.records)
    ensures |db.records| == |KeysOf(old(db.records))|
    ensures db.files == old(db.files) && db.uploads == old(db.uploads)
  {
    ghost var start := db.records;
    ghost var all := DuplicateGroups(start);
    var groups := DuplicateGroups(db.records);
    while groups != {}
      invariant groups <= all
      invariant Handled(start, db.records, all - groups)
      invariant db.files == old(db.files) && db.uploads == old(db.uploads)
      decreases groups
    {
      var key :| key in groups;
      var group := Group(db.records, key);
      PendingGroupNonEmpty(start, db.records, all - groups, key);
      var keep := Oldest(db.records, group);
      KeepOneHandled(start, db.records, all - groups, key, keep);
      assert all - groups + {key} == all - (groups - {key});
      DeleteOthers(db, key, keep);
      groups := groups - {key};
    }
    assert all - groups == all;
    HandledAll(start, db.records);
    DeduplicatedCount(start, db.records);
    if UniqueKeys(start) {
      UniqueUntouched(start, db.records);
    }
  }
}
