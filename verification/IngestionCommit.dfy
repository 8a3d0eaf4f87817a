/** When a flush commits, read off its rows: which batches with repeated sources the database
    accepts. */
module IngestionCommit {
  import opened IngestionFlush
  import opened IngestionHistory
  import opened IngestionStore
  import opened Options

  /** Row `i` is of a new source and the first of its batch to bring a natural key not yet stored. */
  ghost predicate BringsKey(r0: map<Id, Record>, b: seq<Row>, i: nat)
    requires i < |b|
  {
    && Classify(r0, b[i]).Fresh? && !KeyTaken(r0, b[i].key)
    && forall h | 0 <= h < i && Classify(r0, b[h]).Fresh? :: b[h].key != b[i].key
  }

  /** Two rows of one new source would both be inserted. */
  ghost predicate SourceClash(r0: map<Id, Record>, b: seq<Row>) {
    exists i, j | 0 <= i < j < |b| :: BringsKey(r0, b, i) && BringsKey(r0, b, j) && b[i].source == b[j].source
  }

  /** Two scored rows update the same stored record. */
  ghost predicate ScoredTwice(r0: map<Id, Record>, b: seq<Row>) {
    exists i, j | 0 <= i < j < |b| ::
      && Classify(r0, b[i]).Changed? && Classify(r0, b[j]) == Classify(r0, b[i])
      && b[i].score.Some? && b[j].score.Some?
  }

  // ---- The INSERT ----

  lemma {:induction false} FirstBringsKey(r0: map<Id, Record>, b: seq<Row>, i: nat) returns (first: nat)
    requires i < |b| && Classify(r0, b[i]).Fresh? && !KeyTaken(r0, b[i].key)
    ensures first <= i && BringsKey(r0, b, first) && b[first].key == b[i].key
    decreases i
  {
    hide Classify;
    if h :| 0 <= h < i && Classify(r0, b[h]).Fresh? && b[h].key == b[i].key {
      first := FirstBringsKey(r0, b, h);
    } else {
      first := i;
    }
  }

  /** A row is among the inserted ones exactly when it should be, and then stored as it was fed. */
  ghost predicate Placed(row: Row, should: bool, done: Insertion) {
    && (row.id in done.inserted <==> should)
    && (row.id in done.inserted ==> row.id in done.records && done.records[row.id] == AsRecord(row))
  }

  /** The rows inserted so far are those that bring a key. */
  ghost predicate InsertedBring(r0: map<Id, Record>, b: seq<Row>, done: Insertion) {
    && (forall i | 0 <= i < |b| :: Placed(b[i], BringsKey(r0, b, i), done))
    && (forall a | a in done.inserted :: exists i | 0 <= i < |b| :: b[i].id == a)
    && done.records.Keys == r0.Keys + done.inserted && (forall a | a in r0 :: done.records[a] == r0[a])
  }

  lemma {:induction false} KeyTakenByRows(r0: map<Id, Record>, b: seq<Row>, done: Insertion, k: Key)
    requires InsertedBring(r0, b, done)
    ensures KeyTaken(done.records, k) <==>
              KeyTaken(r0, k) || exists i | 0 <= i < |b| :: Classify(r0, b[i]).Fresh? && b[i].key == k
  {
    hide Classify;
    if KeyTaken(done.records, k) && !KeyTaken(r0, k) {
      var a :| a in done.records && done.records[a].key == k;
      var i :| 0 <= i < |b| && b[i].id == a;
      assert Placed(b[i], BringsKey(r0, b, i), done);
    }
    if KeyTaken(r0, k) {
      var a :| a in r0 && r0[a].key == k;
      assert done.records[a].key == k;
    } else if i :| 0 <= i < |b| && Classify(r0, b[i]).Fresh? && b[i].key == k {
      var first := FirstBringsKey(r0, b, i);
      assert Placed(b[first], BringsKey(r0, b, first), done);
      assert done.records[b[first].id].key == k;
    }
  }

  lemma {:induction false} SourceTakenByRows(r0: map<Id, Record>, b: seq<Row>, done: Insertion, s: Source)
    requires InsertedBring(r0, b, done) && !SourceTaken(r0, s)
    ensures SourceTaken(done.records, s) <==> exists i | 0 <= i < |b| :: BringsKey(r0, b, i) && b[i].source == s
  {
    hide BringsKey;
    if SourceTaken(done.records, s) {
      var a :| a in done.records && done.records[a].source == s;
      var i :| 0 <= i < |b| && b[i].id == a;
      assert Placed(b[i], BringsKey(r0, b, i), done);
    }
    if i :| 0 <= i < |b| && BringsKey(r0, b, i) && b[i].source == s {
      assert Placed(b[i], BringsKey(r0, b, i), done);
    }
  }

  lemma {:induction false} BringsKeyPrefix(r0: map<Id, Record>, front: seq<Row>, row: Row)
    ensures forall i | 0 <= i < |front| :: BringsKey(r0, front + [row], i) <==> BringsKey(r0, front, i)
  {
    hide Classify;
    var b := front + [row];
    forall i | 0 <= i < |front| ensures BringsKey(r0, b, i) <==> BringsKey(r0, front, i) {
      assert forall h | 0 <= h <= i :: b[h] == front[h];
    }
  }

  lemma {:induction false} BringsKeySoFar(r0: map<Id, Record>, front: seq<Row>, row: Row)
    ensures BringsKey(r0, front + [row], |front|) <==>
              && Classify(r0, row).Fresh? && !KeyTaken(r0, row.key)
              && !exists i | 0 <= i < |front| :: Classify(r0, front[i]).Fresh? && front[i].key == row.key
    ensures SourceClash(r0, front + [row]) <==>
              || SourceClash(r0, front)
              || (BringsKey(r0, front + [row], |front|)
                  && exists i | 0 <= i < |front| :: BringsKey(r0, front, i) && front[i].source == row.source)
  {
    hide Classify;
    BringsKeyPrefix(r0, front, row);
    ClashSoFar(r0, front, row);
    var b := front + [row];
    assert b[|front|] == row && forall i | 0 <= i < |front| :: b[i] == front[i];
  }

  lemma {:induction false} ClashSoFar(r0: map<Id, Record>, front: seq<Row>, row: Row)
    requires forall i | 0 <= i < |front| :: BringsKey(r0, front + [row], i) <==> BringsKey(r0, front, i)
    ensures SourceClash(r0, front + [row]) <==>
              || SourceClash(r0, front)
              || (BringsKey(r0, front + [row], |front|)
                  && exists i | 0 <= i < |front| :: BringsKey(r0, front, i) && front[i].source == row.source)
  {
    hide BringsKey;
    var b := front + [row];
    assert b[|front|] == row && forall i | 0 <= i < |front| :: b[i] == front[i];
  }

  /** The INSERT goes through exactly when no two rows of one new source bring a key each; and then
      the inserted rows are exactly those that bring a key. */
  lemma {:induction false} InsertsExactlyWhen(r0: map<Id, Record>, b: seq<Row>)
    requires FreshIds(r0, b)
    ensures InsertAll(r0, b).Ok? <==> !SourceClash(r0, b)
    ensures InsertAll(r0, b).Ok? ==> InsertedBring(r0, b, InsertAll(r0, b).value)
    decreases |b|
  {
    if b == [] { return; }
    var front, row := b[..|b| - 1], b[|b| - 1];
    assert b == front + [row];
    RowsApart(r0, front, row);
    InsertsExactlyWhen(r0, front);
    BringsKeySoFar(r0, front, row);
    if InsertAll(r0, front).Ok? {
      var done := InsertAll(r0, front).value;
      KeyTakenByRows(r0, front, done, row.key);
      InsertOneMore(r0, front, row, done);
    }
    hide InsertedBring, SourceClash, BringsKey, Classify, FreshIds;
  }

  lemma {:induction false} RowsApart(r0: map<Id, Record>, front: seq<Row>, row: Row)
    requires FreshIds(r0, front + [row])
    ensures FreshIds(r0, front) && row.id !in r0 && forall i | 0 <= i < |front| :: front[i].id != row.id
  {
    assert (front + [row])[|front|] == row && forall i | 0 <= i < |front| :: (front + [row])[i] == front[i];
  }

  lemma {:induction false} InsertOneMore(r0: map<Id, Record>, front: seq<Row>, row: Row, done: Insertion)
    requires InsertedBring(r0, front, done) && row.id !in r0 && forall i | 0 <= i < |front| :: front[i].id != row.id
    requires KeyTaken(done.records, row.key) <==>
               KeyTaken(r0, row.key)
               || exists i | 0 <= i < |front| :: Classify(r0, front[i]).Fresh? && front[i].key == row.key
    ensures var r, last := InsertOne(r0, done, row), BringsKey(r0, front + [row], |front|);
            && (r.Ok? <==>
                  !(last && exists i | 0 <= i < |front| :: BringsKey(r0, front, i) && front[i].source == row.source))
            && (r.Ok? ==> InsertedBring(r0, front + [row], r.value))
  {
    BringsKeySoFar(r0, front, row);
    RowIsNew(r0, front, row, done);
    var last := BringsKey(r0, front + [row], |front|);
    assert last <==> Classify(r0, row).Fresh? && !KeyTaken(done.records, row.key);
    if last {
      assert !SourceTaken(r0, row.source);
      SourceTakenByRows(r0, front, done, row.source);
      KeptWithNewRow(r0, front, row, done);
    } else {
      KeptWithoutRow(r0, front, row, done);
    }
    hide Classify, BringsKey, KeyTaken, SourceTaken, SourceClash, InsertedBring;
  }

  lemma {:induction false} RowIsNew(r0: map<Id, Record>, front: seq<Row>, row: Row, done: Insertion)
    requires InsertedBring(r0, front, done) && row.id !in r0 && forall i | 0 <= i < |front| :: front[i].id != row.id
    ensures row.id !in done.inserted && row.id !in done.records
  {}

  lemma {:induction false} KeptWithoutRow(r0: map<Id, Record>, front: seq<Row>, row: Row, done: Insertion)
    requires InsertedBring(r0, front, done) && row.id !in done.inserted && !BringsKey(r0, front + [row], |front|)
    ensures InsertedBring(r0, front + [row], done)
  {
    BringsKeyPrefix(r0, front, row);
    IdsOfRows(front, row, done.inserted);
    hide BringsKey, Classify, KeyTaken, SourceClash, AsRecord;
    var b := front + [row];
    forall i | 0 <= i < |b| ensures Placed(b[i], BringsKey(r0, b, i), done) {
      if i < |front| { assert Placed(front[i], BringsKey(r0, front, i), done); }
    }
    assert done.inserted <= done.inserted + {row.id};
  }

  lemma {:induction false} KeptWithNewRow(r0: map<Id, Record>, front: seq<Row>, row: Row, done: Insertion)
    requires InsertedBring(r0, front, done) && row.id !in done.records && BringsKey(r0, front + [row], |front|)
    requires forall i | 0 <= i < |front| :: front[i].id != row.id
    ensures InsertedBring(r0, front + [row], Insertion(done.records[row.id := AsRecord(row)], done.inserted + {row.id}))
  {
    var b, done' := front + [row], Insertion(done.records[row.id := AsRecord(row)], done.inserted + {row.id});
    BringsKeyPrefix(r0, front, row);
    IdsOfRows(front, row, done.inserted);
    hide BringsKey, Classify, KeyTaken, SourceClash, AsRecord, Placed;
    forall i | 0 <= i < |b| ensures Placed(b[i], BringsKey(r0, b, i), done') {
      if i < |front| {
        StaysPlaced(front[i], BringsKey(r0, front, i), done, row);
      } else {
        NewlyPlaced(done, row);
      }
    }
  }

  lemma StaysPlaced(earlier: Row, should: bool, done: Insertion, row: Row)
    requires Placed(earlier, should, done) && earlier.id != row.id
    ensures Placed(earlier, should, Insertion(done.records[row.id := AsRecord(row)], done.inserted + {row.id}))
  {
    hide AsRecord;
  }

  lemma NewlyPlaced(done: Insertion, row: Row)
    ensures Placed(row, true, Insertion(done.records[row.id := AsRecord(row)], done.inserted + {row.id}))
  {
    hide AsRecord;
  }

  lemma {:induction false} IdsOfRows(front: seq<Row>, row: Row, ids: set<Id>)
    requires forall a | a in ids :: exists i | 0 <= i < |front| :: front[i].id == a
    ensures forall a | a in ids + {row.id} :: exists i | 0 <= i < |front + [row]| :: (front + [row])[i].id == a
  {
    var b := front + [row];
    forall a | a in ids + {row.id} ensures exists i | 0 <= i < |b| :: b[i].id == a {
      if a in ids {
        var i :| 0 <= i < |front| && front[i].id == a;
        assert b[i].id == a;
      } else {
        assert b[|front|].id == a;
      }
    }
  }

  // ---- The upsert ----

  lemma {:induction false} RepeatsAreRows(r0: map<Id, Record>, inserted: set<Id>, b: seq<Row>)
    requires forall i, j | 0 <= i < j < |b| && b[i].score.Some? && b[j].score.Some?
             && TargetOf(r0, inserted, b[i]).Some? ::
               TargetOf(r0, inserted, b[i]) != TargetOf(r0, inserted, b[j])
    ensures NoRepeats(RelevantScores(r0, inserted, b))
    decreases |b|
  {
    if b == [] { return; }
    var front, row := b[..|b| - 1], b[|b| - 1];
    assert forall i | 0 <= i < |front| :: front[i] == b[i];
    RepeatsAreRows(r0, inserted, front);
    var rel, t := RelevantScores(r0, inserted, front), TargetOf(r0, inserted, row);
    if t.Some? && row.score.Some? {
      ScoredByRows(r0, inserted, front, t.value);
      assert t.value !in ScoredIds(rel);
      forall x | 0 <= x < |rel| ensures rel[x].0 != t.value { assert rel[x].0 in ScoredIds(rel); }
    }
    hide TargetOf, ScoredIds;
  }

  lemma {:induction false} OneTargetPerRow(r0: map<Id, Record>, b: seq<Row>, i: nat, j: nat)
    requires FreshIds(r0, b) && InsertAll(r0, b).Ok? && i < j < |b|
    requires TargetOf(r0, InsertAll(r0, b).value.inserted, b[i]).Some?
    requires TargetOf(r0, InsertAll(r0, b).value.inserted, b[i]) == TargetOf(r0, InsertAll(r0, b).value.inserted, b[j])
    ensures Classify(r0, b[i]).Changed? && Classify(r0, b[j]) == Classify(r0, b[i])
  {
    var a := TargetOf(r0, InsertAll(r0, b).value.inserted, b[i]).value;
    hide TargetOf, InsertAll, Classify;
    if a in r0 {
      TargetIsChanged(r0, b, i, a);
      TargetIsChanged(r0, b, j, a);
    } else {
      NewTargetIsOwn(r0, InsertAll(r0, b).value.inserted, b[i]);
      NewTargetIsOwn(r0, InsertAll(r0, b).value.inserted, b[j]);
      assert false;
    }
  }

  lemma NewTargetIsOwn(r0: map<Id, Record>, inserted: set<Id>, row: Row)
    requires TargetOf(r0, inserted, row).Some?
    ensures TargetOf(r0, inserted, row).value in r0 || TargetOf(r0, inserted, row).value == row.id
  {}

  lemma {:induction false} UpsertsExactlyWhen(r0: map<Id, Record>, b: seq<Row>)
    requires FreshIds(r0, b) && InsertAll(r0, b).Ok?
    ensures NoRepeats(RelevantScores(r0, InsertAll(r0, b).value.inserted, b)) <==> !ScoredTwice(r0, b)
  {
    var inserted := InsertAll(r0, b).value.inserted;
    hide InsertAll, RelevantScores, NoRepeats, TargetOf, Classify, FreshIds;
    if i, j :| 0 <= i < j < |b| && Classify(r0, b[i]).Changed? && Classify(r0, b[j]) == Classify(r0, b[i])
               && b[i].score.Some? && b[j].score.Some? {
      var a := Classify(r0, b[i]).id;
      ChangedIsStored(r0, b[i]);
      TargetIsChanged(r0, b, i, a);
      TargetIsChanged(r0, b, j, a);
      TwoScoresRepeat(r0, inserted, b, i, j, a);
    } else {
      forall i, j | 0 <= i < j < |b| && b[i].score.Some? && b[j].score.Some? && TargetOf(r0, inserted, b[i]).Some?
        ensures TargetOf(r0, inserted, b[i]) != TargetOf(r0, inserted, b[j])
      {
        if TargetOf(r0, inserted, b[i]) == TargetOf(r0, inserted, b[j]) { OneTargetPerRow(r0, b, i, j); }
      }
      RepeatsAreRows(r0, inserted, b);
    }
  }

  lemma ChangedIsStored(r0: map<Id, Record>, row: Row)
    requires Classify(r0, row).Changed?
    ensures Classify(r0, row).id in r0
  {}

  // ---- The flush ----

  /** A flush commits if and only if no two scored rows update one record, and no two rows of one new
      source are each the first to bring a natural key that is still free. */
  lemma {:induction false} FlushCommitsExactlyWhen(st: State, b: seq<Row>)
    requires FreshIds(st.records, b)
    ensures Flushed(st, b).Ok? <==> !SourceClash(st.records, b) && !ScoredTwice(st.records, b)
  {
    InsertsExactlyWhen(st.records, b);
    if InsertAll(st.records, b).Ok? { UpsertsExactlyWhen(st.records, b); }
    hide InsertAll, SourceClash, ScoredTwice, NoRepeats, RelevantScores, InsertedBring, FreshIds;
  }

  /** Two refused batches: two scored corrections of one stored record, and two rows of one new
      source with keys of their own. */
  lemma {:induction false} RefusedBatches(src: Source, key: Key, other: Key, unit: string, s: Score)
    requires other != key
    ensures var c := Content(Some(1.0), Some(1.0), None, None, unit, Complete, None, None);
            var st := State(map[0 := Record(src, key, c)], map[0 := s], [], 0, 0);
            var none := State(map[], map[], [], 0, 0);
            && Flushed(st, [Row(1, src, key, c.(actual := Some(2.0)), Some(s)),
                            Row(2, src, key, c.(actual := Some(3.0)), Some(s))]) == IntegrityError
            && Flushed(none, [Row(1, src, key, c, Some(s)), Row(2, src, other, c, Some(s))]) == IntegrityError
  {
    var c := Content(Some(1.0), Some(1.0), None, None, unit, Complete, None, None);
    var st := State(map[0 := Record(src, key, c)], map[0 := s], [], 0, 0);
    var none := State(map[], map[], [], 0, 0);
    var b := [Row(1, src, key, c.(actual := Some(2.0)), Some(s)), Row(2, src, key, c.(actual := Some(3.0)), Some(s))];
    var b' := [Row(1, src, key, c, Some(s)), Row(2, src, other, c, Some(s))];
    IdOfIs(st.records, 0);
    assert Classify(st.records, b[0]) == Classify(st.records, b[1]) == Changed(0);
    assert Classify(none.records, b'[0]) == Classify(none.records, b'[1]) == Fresh;
    assert BringsKey(none.records, b', 0) && BringsKey(none.records, b', 1);
    hide Classify, BringsKey, Flushed;
    FlushCommitsExactlyWhen(st, b);
    FlushCommitsExactlyWhen(none, b');
  }
}
