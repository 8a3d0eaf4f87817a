/** What ingestion keeps over flushes, over whole runs and when a feed is run again. */
module IngestionLaws {
  import opened IngestionFlush
  import opened IngestionRun
  import opened IngestionStore

  // ---- Conservation: exactly when the counters add up ----

  /** Two rows of the batch update the same stored record. */
  ghost predicate UpdatesTwice(r0: map<Id, Record>, b: seq<Row>) {
    exists i, j | 0 <= i < j < |b| ::
      Classify(r0, b[i]).Changed? && Classify(r0, b[j]).Changed? && Classify(r0, b[i]).id == Classify(r0, b[j]).id
  }

  lemma {:induction false} ChangedIdsAreRows(r0: map<Id, Record>, b: seq<Row>, a: Id)
    ensures a in ChangedIds(r0, b) <==> exists i | 0 <= i < |b| :: Classify(r0, b[i]) == Changed(a)
    decreases |b|
  {
    if b != [] {
      var front := b[..|b| - 1];
      ChangedIdsAreRows(r0, front, a);
      if a in ChangedIds(r0, b) && a !in ChangedIds(r0, front) {
        assert Classify(r0, b[|b| - 1]) == Changed(a);
      }
      if i :| 0 <= i < |front| && Classify(r0, front[i]) == Changed(a) {
        assert Classify(r0, b[i]) == Changed(a);
      }
      if i :| 0 <= i < |b| && Classify(r0, b[i]) == Changed(a) {
        assert i < |front| ==> Classify(r0, front[i]) == Changed(a);
      }
    }
  }

  lemma {:induction false} TwiceSteps(r0: map<Id, Record>, front: seq<Row>, row: Row)
    ensures UpdatesTwice(r0, front + [row]) <==>
              UpdatesTwice(r0, front) || (Classify(r0, row).Changed? && Classify(r0, row).id in ChangedIds(r0, front))
  {
    var b := front + [row];
    assert forall i | 0 <= i < |front| :: b[i] == front[i];
    assert b[|front|] == row;
    if Classify(r0, row).Changed? {
      ChangedIdsAreRows(r0, front, Classify(r0, row).id);
    }
  }

  lemma {:induction false} KindsAreCounted(r0: map<Id, Record>, b: seq<Row>)
    ensures var c := CountKinds(r0, b);
            && c.unseen + c.conflicts + c.changed + c.same == |b|
            && |ChangedIds(r0, b)| <= c.changed
            && (|ChangedIds(r0, b)| == c.changed <==> !UpdatesTwice(r0, b))
    decreases |b|
  {
    if b == [] { return; }
    var front, row := b[..|b| - 1], b[|b| - 1];
    assert front + [row] == b;
    TwiceSteps(r0, front, row);
    ChangedOneMore(r0, front, row);
    KindsAreCounted(r0, front);
    hide CountKinds, ChangedIds, UpdatesTwice, Classify;
  }

  lemma {:induction false} ChangedOneMore(r0: map<Id, Record>, front: seq<Row>, row: Row)
    ensures var c, c', kind := CountKinds(r0, front), CountKinds(r0, front + [row]), Classify(r0, row);
            && c'.unseen + c'.conflicts + c'.changed + c'.same == c.unseen + c.conflicts + c.changed + c.same + 1
            && c'.changed == c.changed + (if kind.Changed? then 1 else 0)
            && ChangedIds(r0, front + [row]) == ChangedIds(r0, front) + (if kind.Changed? then {kind.id} else {})
            && |ChangedIds(r0, front + [row])|
               == |ChangedIds(r0, front)| + if kind.Changed? && kind.id !in ChangedIds(r0, front) then 1 else 0
  {
    assert (front + [row])[..|front|] == front;
    hide Classify;
    if Classify(r0, row).Changed? && Classify(r0, row).id in ChangedIds(r0, front) {
      assert ChangedIds(r0, front + [row]) == ChangedIds(r0, front);
    }
  }

  /** A flush that commits accounts for every row of its batch if and only if no two rows update
      the same stored record: the counter counts updated records, not updating rows. */
  lemma {:induction false} FlushCountsEveryRowExactlyWhen(st: State, b: seq<Row>)
    requires Flushed(st, b).Ok?
    ensures var st' := Flushed(st, b).value;
            (st'.success - st.success) + (st'.skipped - st.skipped) == |b| <==> !UpdatesTwice(st.records, b)
  {
    KindsAreCounted(st.records, b);
  }

  // ---- Issues: one per row, unless the row is quiet ----

  /** The row was unchanged, or was stored as a new COMPLETE record. */
  ghost predicate Quiet(st: State, st': State, row: Row) {
    Classify(st.records, row).Same? || (row.id in st'.records && row.content.status == Complete)
  }

  /** The rows that are not quiet, in batch order. */
  ghost function LoudRows(st: State, st': State, b: seq<Row>): seq<Row>
    decreases |b|
  {
    if b == [] then [] else
    LoudRows(st, st', b[..|b| - 1]) + if Quiet(st, st', b[|b| - 1]) then [] else [b[|b| - 1]]
  }

  /** The row was written to a record. */
  ghost predicate Written(st: State, st': State, row: Row) {
    Classify(st.records, row).Changed? || row.id in st'.records
  }

  /** The issue carries the row's source; it names a record exactly when the row was written, and
      then the one stored under that source; its kind tells what became of the row. */
  ghost predicate Explains(st: State, st': State, issue: Issue, row: Row) {
    && issue.source == row.source
    && (issue.record.Some? <==> Written(st, st', row))
    && (issue.record.Some? ==>
          issue.record.value in st'.records && st'.records[issue.record.value].source == row.source)
    && issue.kind == if Classify(st.records, row).Conflict? then Suspicious
                     else if !Written(st, st', row) then Duplicate
                     else if row.content.status == Complete then Reprocessed
                     else row.content.status
  }

  ghost predicate RowExplained(st: State, st': State, inserted: set<Id>, row: Row) {
    var found := IssueFor(Classify(st.records, row), row.id in inserted, row);
    if Quiet(st, st', row) then found == [] else |found| == 1 && Explains(st, st', found[0], row)
  }

  lemma {:induction false} IssuesExplained(st: State, st': State, inserted: set<Id>, b: seq<Row>)
    requires forall row | row in b :: RowExplained(st, st', inserted, row)
    ensures |IssuesOf(st.records, inserted, b)| == |LoudRows(st, st', b)|
    ensures forall i | 0 <= i < |LoudRows(st, st', b)| ::
              Explains(st, st', IssuesOf(st.records, inserted, b)[i], LoudRows(st, st', b)[i])
    decreases |b|
  {
    if b != [] {
      hide Classify, Quiet, IssueFor, Explains;
      assert RowExplained(st, st', inserted, b[|b| - 1]);
      IssuesExplained(st, st', inserted, b[..|b| - 1]);
    }
  }

  lemma {:induction false} RowIsExplained(st: State, st': State, inserted: set<Id>, row: Row)
    requires row.id in inserted ==> Classify(st.records, row).Fresh?
    requires row.id in st'.records <==> row.id in inserted
    requires row.id in inserted ==> st'.records[row.id].source == row.source
    requires forall a | a in st.records :: a in st'.records && st'.records[a].source == st.records[a].source
    ensures RowExplained(st, st', inserted, row)
  {}

  lemma {:induction false} FlushedSources(st: State, b: seq<Row>)
    requires Flushed(st, b).Ok?
    ensures var st', done := Flushed(st, b).value, InsertAll(st.records, b).value;
            && InsertAll(st.records, b).Ok?
            && st'.records.Keys == done.records.Keys == st.records.Keys + done.inserted
            && (forall a | a in st'.records :: st'.records[a].source == done.records[a].source)
            && (forall a | a in st.records :: done.records[a] == st.records[a])
  {
    var done := InsertAll(st.records, b).value;
    InsertedAreRows(st.records, b);
    UpdateKeepsIdentity(st.records, done.records, b);
    hide InsertAll, UpdateAll, Classify, RelevantScores, IssuesOf, CountKinds, ChangedIds, Upserted;
  }

  lemma {:induction false} FlushedIssues(st: State, b: seq<Row>)
    requires Flushed(st, b).Ok?
    ensures InsertAll(st.records, b).Ok?
    ensures Flushed(st, b).value.issues == st.issues + IssuesOf(st.records, InsertAll(st.records, b).value.inserted, b)
  {
    hide InsertAll, UpdateAll, RelevantScores, IssuesOf, CountKinds, ChangedIds, Upserted;
  }

  lemma {:induction false} FlushExplainsRow(st: State, b: seq<Row>, row: Row)
    requires Flushed(st, b).Ok? && FreshIds(st.records, b) && row in b
    ensures RowExplained(st, Flushed(st, b).value, InsertAll(st.records, b).value.inserted, row)
  {
    hide Flushed, InsertAll, Classify, RowExplained;
    FlushedSources(st, b);
    var inserted := InsertAll(st.records, b).value.inserted;
    var i :| 0 <= i < |b| && b[i] == row;
    if row.id in inserted {
      var j := InsertedIsRow(st.records, b, row.id);
      assert i == j;
    }
    RowIsExplained(st, Flushed(st, b).value, inserted, row);
  }

  /** Of a flush that commits, the issues it appends are, in batch order, one for every row that is
      neither unchanged nor stored as a new COMPLETE record, each explaining its row. */
  lemma {:induction false} OneIssuePerRow(st: State, b: seq<Row>)
    requires Flushed(st, b).Ok? && FreshIds(st.records, b)
    ensures var st' := Flushed(st, b).value;
            var loud := LoudRows(st, st', b);
            && st.issues <= st'.issues && |st'.issues| == |st.issues| + |loud|
            && forall i | 0 <= i < |loud| :: Explains(st, st', st'.issues[|st.issues| + i], loud[i])
  {
    hide *;
    FlushedIssues(st, b);
    var st', done := Flushed(st, b).value, InsertAll(st.records, b).value;
    forall row | row in b ensures RowExplained(st, st', done.inserted, row) { FlushExplainsRow(st, b, row); }
    IssuesExplained(st, st', done.inserted, b);
  }

  // ---- First writer keeps the key, over any flushes ----

  /** `st'` still has every record of `st`, under the same source and identity fields. */
  ghost predicate Keeps(st: State, st': State) {
    forall a | a in st.records ::
      a in st'.records && st'.records[a].source == st.records[a].source && st'.records[a].key == st.records[a].key
  }

  /** Every COMPLETE record satisfies `located` on its identity fields. */
  ghost predicate CompleteAreLocated(records: map<Id, Record>, located: Key -> bool) {
    forall a | a in records && records[a].content.status == Complete :: located(records[a].key)
  }

  ghost predicate RowLocated(row: Row, located: Key -> bool) {
    row.content.status == Complete ==> located(row.key)
  }

  ghost predicate Healthy(st: State, located: Key -> bool) {
    Valid(st) && CompleteAreLocated(st.records, located)
  }

  lemma {:induction false} InsertAllKeepsHealthy(r0: map<Id, Record>, b: seq<Row>, located: Key -> bool)
    requires SourceUnique(r0) && KeyUnique(r0) && CompleteAreLocated(r0, located)
    requires forall i | 0 <= i < |b| :: RowLocated(b[i], located)
    ensures InsertAll(r0, b).Ok? ==>
              var m := InsertAll(r0, b).value.records;
              SourceUnique(m) && KeyUnique(m) && CompleteAreLocated(m, located)
    decreases |b|
  {
    if b != [] && InsertAll(r0, b).Ok? {
      var front, row := b[..|b| - 1], b[|b| - 1];
      InsertAllKeepsHealthy(r0, front, located);
      var done := InsertAll(r0, front).value;
      if Classify(r0, row).Fresh? && !KeyTaken(done.records, row.key) {
        InsertKeepsUnique(done.records, row.id, AsRecord(row));
        assert RowLocated(row, located);
      }
    }
  }

  /** Updates only take the status of a row with the same identity fields. */
  lemma {:induction false} UpdateAllKeepsHealthy(r0: map<Id, Record>, m: map<Id, Record>, b: seq<Row>,
                                                 located: Key -> bool)
    requires SourceUnique(m) && KeyUnique(m) && CompleteAreLocated(m, located)
    requires forall a | a in r0 :: a in m && m[a] == r0[a]
    requires forall i | 0 <= i < |b| :: RowLocated(b[i], located)
    ensures var u := UpdateAll(r0, m, b); SourceUnique(u) && KeyUnique(u) && CompleteAreLocated(u, located)
    decreases |b|
  {
    if b != [] {
      var front, row := b[..|b| - 1], b[|b| - 1];
      UpdateAllKeepsHealthy(r0, m, front, located);
      UpdateKeepsIdentity(r0, m, front);
      if Classify(r0, row).Changed? {
        var a := Classify(r0, row).id;
        UpdateKeepsUnique(UpdateAll(r0, m, front), a, Stored(row.content));
        assert RowLocated(row, located);
        assert UpdateAll(r0, m, front)[a].key == r0[a].key == row.key;
      }
    }
  }

  /** Any flush, repeated sources or not, either commits a healthy store that keeps every record
      and its identity, or changes nothing. */
  lemma {:induction false} FlushKeepsHealthy(st: State, b: seq<Row>, located: Key -> bool)
    requires Healthy(st, located) && Flushed(st, b).Ok?
    requires forall i | 0 <= i < |b| :: RowLocated(b[i], located)
    ensures Healthy(Flushed(st, b).value, located) && Keeps(st, Flushed(st, b).value)
  {
    var done := InsertAll(st.records, b).value;
    var rel := RelevantScores(st.records, done.inserted, b);
    InsertedAreRows(st.records, b);
    InsertAllKeepsHealthy(st.records, b, located);
    UpdateAllKeepsHealthy(st.records, done.records, b, located);
    UpdateKeepsIdentity(st.records, done.records, b);
    RelevantTargets(st.records, done.inserted, b);
    UpsertedKeys(st.scores, rel);
    hide InsertAll, UpdateAll, RelevantScores, ChangedIds, IssuesOf, CountKinds, Upserted,
         SourceUnique, KeyUnique, CompleteAreLocated;
  }

  ghost predicate OutcomesLocated(outs: seq<Outcome>, located: Key -> bool) {
    forall i | 0 <= i < |outs| && outs[i].Ready? :: RowLocated(outs[i].row, located)
  }

  lemma {:induction false} FlushBatchKeepsHealthy(p: Progress, located: Key -> bool)
    requires Healthy(p.state, located) && (forall i | 0 <= i < |p.batch| :: RowLocated(p.batch[i], located))
    ensures var p' := FlushBatch(p); Healthy(p'.state, located) && Keeps(p.state, p'.state) && p'.batch == []
  {
    if p.batch != [] && Flushed(p.state, p.batch).Ok? {
      FlushKeepsHealthy(p.state, p.batch, located);
    }
  }

  lemma {:induction false} FeedKeepsHealthy(st: State, outs: seq<Outcome>, k: nat, located: Key -> bool)
    requires Healthy(st, located) && OutcomesLocated(outs, located)
    ensures var p := FeedAll(st, outs, k);
            && Healthy(p.state, located) && Keeps(st, p.state)
            && (forall i | 0 <= i < |p.batch| :: RowLocated(p.batch[i], located))
    decreases |outs|
  {
    if outs != [] {
      var front, o := outs[..|outs| - 1], outs[|outs| - 1];
      FeedKeepsHealthy(st, front, k, located);
      var p := FeedAll(st, front, k);
      hide Flushed, Healthy;
      if !p.halted && o.Ready? {
        assert RowLocated(o.row, located);
        FlushBatchKeepsHealthy(p.(processed := p.processed + 1, batch := p.batch + [o.row]), located);
      }
    }
  }
}
