/** Sequences of ingestion runs, the agreement between scores and records, and what running the
    same feed again does. */
module IngestionHistory {
  import opened IngestionFlush
  import opened IngestionLaws
  import opened IngestionRun
  import opened IngestionStore
  import opened Options

  // ---- Any number of runs ----

  /** One run: what its feed lines came to, and the batch size. */
  datatype RunInput = RunInput(outs: seq<Outcome>, k: nat)

  ghost function AfterRuns(st: State, runs: seq<RunInput>): State
    decreases |runs|
  {
    if runs == [] then st else
    var last := runs[|runs| - 1];
    RunAll(AfterRuns(st, runs[..|runs| - 1]), last.outs, last.k).state
  }

  lemma {:induction false} RunKeepsHealthy(st: State, outs: seq<Outcome>, k: nat, located: Key -> bool)
    requires Healthy(st, located) && OutcomesLocated(outs, located)
    ensures Healthy(RunAll(st, outs, k).state, located) && Keeps(st, RunAll(st, outs, k).state)
  {
    FeedKeepsHealthy(st, outs, k, located);
    hide Healthy, FeedAll, Flushed;
    if !FeedAll(st, outs, k).halted { FlushBatchKeepsHealthy(FeedAll(st, outs, k), located); }
  }

  /** Over any sequence of runs, interrupted or not, with repeated sources or not: both uniqueness
      constraints hold, no record is ever deleted, and a stored record keeps its source and its
      identity fields. */
  lemma {:induction false} RunsKeepHealthy(st: State, runs: seq<RunInput>, located: Key -> bool)
    requires Healthy(st, located) && forall i | 0 <= i < |runs| :: OutcomesLocated(runs[i].outs, located)
    ensures Healthy(AfterRuns(st, runs), located)
    ensures forall i | 0 <= i <= |runs| :: Keeps(AfterRuns(st, runs[..i]), AfterRuns(st, runs))
    decreases |runs|
  {
    if runs != [] {
      var front, last := runs[..|runs| - 1], runs[|runs| - 1];
      RunsKeepHealthy(st, front, located);
      assert OutcomesLocated(last.outs, located);
      RunKeepsHealthy(AfterRuns(st, front), last.outs, last.k, located);
      hide RunAll, Healthy;
      forall i | 0 <= i <= |runs| ensures Keeps(AfterRuns(st, runs[..i]), AfterRuns(st, runs)) {
        if i == |runs| {
          assert runs[..i] == runs;
        } else {
          assert front[..i] == runs[..i];
          assert Keeps(AfterRuns(st, front[..i]), AfterRuns(st, front));
        }
      }
    }
  }

  // ---- Scores and records agree ----

  /** Whether a record with this identity and content should have a score. */
  predicate ShouldScore(key: Key, c: Content, rules: (Id, int) -> bool) {
    c.status == Complete && c.target.Some? && rules(key.kpi, key.date)
  }

  ghost predicate RowScored(row: Row, rules: (Id, int) -> bool) {
    row.score.Some? <==> ShouldScore(row.key, row.content, rules)
  }

  /** Every score belongs to a stored record, and the records with a score are exactly those that
      should have one. */
  ghost predicate Agreement(st: State, rules: (Id, int) -> bool) {
    && st.scores.Keys <= st.records.Keys
    && forall a | a in st.records :: a in st.scores <==> ShouldScore(st.records[a].key, st.records[a].content, rules)
  }

  lemma {:induction false} ApplyRowKeepsAgreement(st: State, row: Row, rules: (Id, int) -> bool)
    requires Agreement(st, rules) && RowScored(row, rules) && row.id !in st.records
    ensures Agreement(ApplyRow(st, row), rules)
  {}

  lemma {:induction false} ApplyAllKeepsAgreement(st: State, rows: seq<Row>, rules: (Id, int) -> bool)
    requires Valid(st) && FreshIds(st.records, rows)
    requires Agreement(st, rules) && forall i | 0 <= i < |rows| :: RowScored(rows[i], rules)
    ensures Agreement(ApplyAll(st, rows), rules)
    decreases |rows|
  {
    if rows != [] {
      var front, row := rows[..|rows| - 1], rows[|rows| - 1];
      ApplyAllKeepsAgreement(st, front, rules);
      ApplyAllKeepsIdentity(st, front);
      hide Agreement, ApplyRow;
      assert row.id !in ApplyAll(st, front).records;
      ApplyRowKeepsAgreement(ApplyAll(st, front), row, rules);
    }
  }

  /** A whole run keeps the agreement, wherever an exception ends it. */
  lemma {:induction false} RunKeepsAgreement(st: State, outs: seq<Outcome>, k: nat, rules: (Id, int) -> bool)
    requires k > 0 && Valid(st) && FreshIds(st.records, RowsOf(outs)) && WindowsDistinct(RowsOf(outs), k)
    requires Agreement(st, rules) && forall i | 0 <= i < |RowsOf(outs)| :: RowScored(RowsOf(outs)[i], rules)
    ensures Agreement(RunAll(st, outs, k).state, rules)
  {
    var rows, s0 := RowsOf(outs), Start(st).state;
    if Interrupted(outs) {
      InterruptionLosesTheOpenBatch(st, outs, k);
      ApplyAllKeepsAgreement(s0, rows[..Whole(|rows|, k)], rules);
    } else {
      RunRefinesOneByOne(st, outs, k);
      ApplyAllKeepsAgreement(s0, rows, rules);
    }
  }

  // ---- A flush with repeated sources: exactly when the agreement survives ----

  /** A scored update of a record is followed by another update of the same record. */
  ghost predicate ScoreOutlived(r0: map<Id, Record>, b: seq<Row>) {
    exists i, j | 0 <= i < j < |b| ::
      && Classify(r0, b[i]).Changed? && b[i].score.Some?
      && Classify(r0, b[j]).Changed? && Classify(r0, b[j]).id == Classify(r0, b[i]).id
  }

  /** The last row of the batch that updates record `a`. */
  ghost function LastUpdate(r0: map<Id, Record>, b: seq<Row>, a: Id): (r: Option<nat>)
    ensures r.Some? ==> r.value < |b| && Classify(r0, b[r.value]) == Changed(a)
    ensures r.Some? ==> forall j | r.value < j < |b| :: Classify(r0, b[j]) != Changed(a)
    ensures r.None? ==> forall j | 0 <= j < |b| :: Classify(r0, b[j]) != Changed(a)
    decreases |b|
  {
    if b == [] then None
    else if Classify(r0, b[|b| - 1]) == Changed(a) then Some(|b| - 1)
    else
      var r := LastUpdate(r0, b[..|b| - 1], a);
      assert forall j | 0 <= j < |b| - 1 :: b[..|b| - 1][j] == b[j];
      r
  }

  lemma {:induction false} UpdatedByLast(r0: map<Id, Record>, m: map<Id, Record>, b: seq<Row>, a: Id)
    requires a in m
    ensures var i := LastUpdate(r0, b, a);
            && a in UpdateAll(r0, m, b)
            && UpdateAll(r0, m, b)[a] == if i.Some? then m[a].(content := Stored(b[i.value].content)) else m[a]
    decreases |b|
  {
    UpdateKeepsIdentity(r0, m, b);
    if b != [] {
      UpdatedByLast(r0, m, b[..|b| - 1], a);
      UpdateKeepsIdentity(r0, m, b[..|b| - 1]);
    }
  }

  /** A record is among the scored ids exactly when a row that inserts or updates it is scored. */
  lemma {:induction false} ScoredByRows(r0: map<Id, Record>, inserted: set<Id>, b: seq<Row>, a: Id)
    ensures a in ScoredIds(RelevantScores(r0, inserted, b)) <==>
              exists i | 0 <= i < |b| :: TargetOf(r0, inserted, b[i]) == Some(a) && b[i].score.Some?
    decreases |b|
  {
    if b != [] {
      var front, row := b[..|b| - 1], b[|b| - 1];
      ScoredByRows(r0, inserted, front, a);
      assert forall i | 0 <= i < |front| :: front[i] == b[i];
      var t := TargetOf(r0, inserted, row);
      if t.Some? && row.score.Some? {
        ScoredOneMore(RelevantScores(r0, inserted, front), t.value, row.score.value);
        assert a == t.value ==> TargetOf(r0, inserted, b[|front|]) == Some(a);
      } else {
        assert RelevantScores(r0, inserted, b) == RelevantScores(r0, inserted, front);
      }
      hide TargetOf, RelevantScores, ScoredIds;
    }
  }

  /** The row that scores a stored record is the row that updates it. */
  lemma {:induction false} TargetIsChanged(r0: map<Id, Record>, b: seq<Row>, j: nat, a: Id)
    requires FreshIds(r0, b) && InsertAll(r0, b).Ok? && j < |b| && a in r0
    ensures TargetOf(r0, InsertAll(r0, b).value.inserted, b[j]) == Some(a) <==> Classify(r0, b[j]) == Changed(a)
  {
    if b[j].id in InsertAll(r0, b).value.inserted {
      var i := InsertedIsRow(r0, b, b[j].id);
      assert i == j;
    }
  }

  /** Two scored rows of one record give its id twice. */
  lemma {:induction false} TwoScoresRepeat(r0: map<Id, Record>, inserted: set<Id>, b: seq<Row>, i: nat, j: nat, a: Id)
    requires i < j < |b| && b[i].score.Some? && b[j].score.Some?
    requires TargetOf(r0, inserted, b[i]) == TargetOf(r0, inserted, b[j]) == Some(a)
    ensures !NoRepeats(RelevantScores(r0, inserted, b))
    decreases |b|
  {
    var front, row := b[..|b| - 1], b[|b| - 1];
    var rel := RelevantScores(r0, inserted, front);
    if j < |front| {
      TwoScoresRepeat(r0, inserted, front, i, j, a);
      var x, y :| 0 <= x < y < |rel| && rel[x].0 == rel[y].0;
      assert RelevantScores(r0, inserted, b)[x].0 == RelevantScores(r0, inserted, b)[y].0;
    } else {
      assert front[i] == b[i];
      ScoredByRows(r0, inserted, front, a);
      var x :| 0 <= x < |rel| && rel[x].0 == a;
      assert RelevantScores(r0, inserted, b)[x].0 == RelevantScores(r0, inserted, b)[|rel|].0;
    }
  }

  /** The state a flush commits agrees at record `a`. */
  ghost predicate AgreesAt(st: State, a: Id, rules: (Id, int) -> bool) {
    a in st.records && (a in st.scores <==> ShouldScore(st.records[a].key, st.records[a].content, rules))
  }

  /** Which scores a flush leaves: those it writes, and the old ones of records it does not update. */
  lemma {:induction false} ScoresLeft(scores: map<Id, Score>, rel: seq<(Id, Score)>, updated: set<Id>, a: Id)
    ensures a in Upserted(scores, rel) - (updated - ScoredIds(rel))
            <==> a in ScoredIds(rel) || (a in scores && a !in updated)
  {
    UpsertedKeys(scores, rel);
    hide Upserted, ScoredIds;
  }

  /** The committed state, as far as agreement reads it. */
  lemma {:induction false} CommittedAt(st: State, b: seq<Row>, a: Id)
    requires Flushed(st, b).Ok?
    ensures var done, st', i := InsertAll(st.records, b).value, Flushed(st, b).value, LastUpdate(st.records, b, a);
            && st'.records.Keys == done.records.Keys == st.records.Keys + done.inserted
            && (a in done.records ==>
                  st'.records[a]
                  == if i.Some? then done.records[a].(content := Stored(b[i.value].content)) else done.records[a])
            && (a in st'.scores <==>
                  a in ScoredIds(RelevantScores(st.records, done.inserted, b)) || (a in st.scores && i.None?))
  {
    var done := InsertAll(st.records, b).value;
    var rel := RelevantScores(st.records, done.inserted, b);
    hide InsertAll, UpdateAll, RelevantScores, IssuesOf, CountKinds, ChangedIds, Upserted, Classify, ScoredIds, Stored,
         LastUpdate;
    InsertedAreRows(st.records, b);
    UpdateKeepsIdentity(st.records, done.records, b);
    ScoresLeft(st.scores, rel, ChangedIds(st.records, b), a);
    assert a in ChangedIds(st.records, b) <==> LastUpdate(st.records, b, a).Some? by {
      ChangedIdsAreRows(st.records, b, a);
    }
    if a in done.records { UpdatedByLast(st.records, done.records, b, a); }
  }

  lemma {:induction false} InsertedScored(r0: map<Id, Record>, b: seq<Row>, i: nat)
    requires FreshIds(r0, b) && InsertAll(r0, b).Ok? && i < |b| && b[i].id in InsertAll(r0, b).value.inserted
    ensures var inserted := InsertAll(r0, b).value.inserted;
            b[i].id in ScoredIds(RelevantScores(r0, inserted, b)) <==> b[i].score.Some?
  {
    var inserted := InsertAll(r0, b).value.inserted;
    ScoredByRows(r0, inserted, b, b[i].id);
    hide InsertAll, RelevantScores, ScoredIds;
    assert TargetOf(r0, inserted, b[i]) == Some(b[i].id);
    forall j | 0 <= j < |b| && TargetOf(r0, inserted, b[j]) == Some(b[i].id) ensures j == i {}
  }

  lemma {:induction false} InsertedAgrees(st: State, b: seq<Row>, a: Id, rules: (Id, int) -> bool)
    requires Flushed(st, b).Ok? && FreshIds(st.records, b) && st.scores.Keys <= st.records.Keys
    requires (forall i | 0 <= i < |b| :: RowScored(b[i], rules)) && a in InsertAll(st.records, b).value.inserted
    ensures AgreesAt(Flushed(st, b).value, a, rules)
  {
    hide InsertAll, Flushed, RelevantScores, LastUpdate, Classify, ScoredIds;
    assert InsertAll(st.records, b).Ok? by { FlushInserts(st, b); }
    var i := InsertedIsRow(st.records, b, a);
    assert RowScored(b[i], rules);
    assert a !in st.records && LastUpdate(st.records, b, a).None? by { InsertedNotStored(st.records, b, a); }
    InsertedScored(st.records, b, i);
    CommittedAt(st, b, a);
  }

  lemma {:induction false} FlushInserts(st: State, b: seq<Row>)
    requires Flushed(st, b).Ok?
    ensures InsertAll(st.records, b).Ok?
  {}

  lemma {:induction false} InsertedNotStored(r0: map<Id, Record>, b: seq<Row>, a: Id)
    requires InsertAll(r0, b).Ok? && a in InsertAll(r0, b).value.inserted
    ensures a !in r0 && LastUpdate(r0, b, a).None?
  {
    hide InsertAll;
    InsertedAreRows(r0, b);
  }

  lemma {:induction false} StoredScored(r0: map<Id, Record>, b: seq<Row>, a: Id)
    requires FreshIds(r0, b) && InsertAll(r0, b).Ok? && a in r0
    ensures a in ScoredIds(RelevantScores(r0, InsertAll(r0, b).value.inserted, b)) <==>
              exists j | 0 <= j < |b| :: Classify(r0, b[j]) == Changed(a) && b[j].score.Some?
  {
    var inserted := InsertAll(r0, b).value.inserted;
    ScoredByRows(r0, inserted, b, a);
    forall j | 0 <= j < |b| ensures TargetOf(r0, inserted, b[j]) == Some(a) <==> Classify(r0, b[j]) == Changed(a) {
      TargetIsChanged(r0, b, j, a);
    }
    hide InsertAll, RelevantScores, TargetOf, Classify, ScoredIds, FreshIds;
  }

  /** An update by `row` makes the record score-worthy exactly when the row carries a score. */
  lemma {:induction false} UpdateShouldScore(r0: map<Id, Record>, row: Row, a: Id, rules: (Id, int) -> bool)
    requires Classify(r0, row) == Changed(a) && RowScored(row, rules)
    ensures a in r0 && (ShouldScore(r0[a].key, Stored(row.content), rules) <==> row.score.Some?)
  {}

  /** The record after the flush, and whether it should have a score. */
  lemma {:induction false} StoredAfter(st: State, b: seq<Row>, a: Id, rules: (Id, int) -> bool)
    requires Flushed(st, b).Ok? && Agreement(st, rules) && a in st.records
    requires forall i | 0 <= i < |b| :: RowScored(b[i], rules)
    ensures var i, st' := LastUpdate(st.records, b, a), Flushed(st, b).value;
            && a in st'.records
            && (ShouldScore(st'.records[a].key, st'.records[a].content, rules) <==>
                  if i.Some? then b[i.value].score.Some? else a in st.scores)
  {
    FlushInserts(st, b);
    InsertedAreRows(st.records, b);
    CommittedAt(st, b, a);
    var i := LastUpdate(st.records, b, a);
    hide Classify, InsertAll, Flushed, RelevantScores, ScoredIds, ShouldScore, RowScored, Stored;
    if i.Some? { UpdateShouldScore(st.records, b[i.value], a, rules); }
  }

  lemma {:induction false} StoredAgrees(st: State, b: seq<Row>, a: Id, rules: (Id, int) -> bool)
    requires Flushed(st, b).Ok? && FreshIds(st.records, b) && Agreement(st, rules)
    requires (forall i | 0 <= i < |b| :: RowScored(b[i], rules)) && a in st.records
    ensures var i := LastUpdate(st.records, b, a);
            AgreesAt(Flushed(st, b).value, a, rules) <==>
              i.None? || b[i.value].score.Some?
              || (forall j | 0 <= j < |b| && Classify(st.records, b[j]) == Changed(a) :: b[j].score.None?)
  {
    hide Classify, InsertAll, Flushed, RelevantScores, FreshIds, ScoredIds, ShouldScore, RowScored, Agreement,
         LastUpdate;
    FlushInserts(st, b);
    StoredAfter(st, b, a, rules);
    StoredScored(st.records, b, a);
    CommittedAt(st, b, a);
  }

  lemma {:induction false} FlushScoresStored(st: State, b: seq<Row>)
    requires Flushed(st, b).Ok? && st.scores.Keys <= st.records.Keys
    ensures Flushed(st, b).value.scores.Keys <= Flushed(st, b).value.records.Keys
  {
    var done := InsertAll(st.records, b).value;
    InsertedAreRows(st.records, b);
    RelevantTargets(st.records, done.inserted, b);
    hide InsertAll, Flushed, RelevantScores, ChangedIds, LastUpdate, Classify, ScoredIds;
    forall a | a in Flushed(st, b).value.scores ensures a in Flushed(st, b).value.records {
      CommittedAt(st, b, a);
    }
  }

  lemma {:induction false} OutlivedDisagrees(st: State, b: seq<Row>, i: nat, j: nat, rules: (Id, int) -> bool)
    requires Flushed(st, b).Ok? && FreshIds(st.records, b) && Agreement(st, rules)
    requires forall i | 0 <= i < |b| :: RowScored(b[i], rules)
    requires i < j < |b| && Classify(st.records, b[i]).Changed?
             && Classify(st.records, b[j]) == Classify(st.records, b[i])
    requires b[i].score.Some?
    ensures !Agreement(Flushed(st, b).value, rules)
  {
    var r0, a := st.records, Classify(st.records, b[i]).id;
    var inserted, last := InsertAll(r0, b).value.inserted, LastUpdate(r0, b, a).value;
    assert i < last;
    if b[last].score.Some? {
      TargetIsChanged(r0, b, i, a);
      TargetIsChanged(r0, b, last, a);
      TwoScoresRepeat(r0, inserted, b, i, last, a);
      assert false;
    }
    hide InsertAll, Flushed, RelevantScores, LastUpdate, Classify, ShouldScore;
    StoredAgrees(st, b, a, rules);
    CommittedAt(st, b, a);
  }

  lemma {:induction false} NotOutlivedAgrees(st: State, b: seq<Row>, rules: (Id, int) -> bool)
    requires Flushed(st, b).Ok? && FreshIds(st.records, b) && Agreement(st, rules)
    requires (forall i | 0 <= i < |b| :: RowScored(b[i], rules)) && !ScoreOutlived(st.records, b)
    ensures Agreement(Flushed(st, b).value, rules)
  {
    var st', r0 := Flushed(st, b).value, st.records;
    hide Flushed, InsertAll, ShouldScore, Classify, LastUpdate, ScoredIds, RelevantScores, FreshIds, RowScored;
    FlushScoresStored(st, b);
    forall a | a in st'.records ensures AgreesAt(st', a, rules) {
      if a in r0 {
        StoredAgrees(st, b, a, rules);
      } else {
        CommittedAt(st, b, a);
        InsertedAgrees(st, b, a, rules);
      }
    }
  }

  /** Any flush that commits, repeated sources or not, keeps scores and records in agreement if
      and only if no scored update is followed by another update of the same record: the later
      update has no score of its own, yet the record is not counted as stale. */
  lemma {:induction false} FlushKeepsAgreementExactlyWhen(st: State, b: seq<Row>, rules: (Id, int) -> bool)
    requires Flushed(st, b).Ok? && FreshIds(st.records, b) && Agreement(st, rules)
    requires forall i | 0 <= i < |b| :: RowScored(b[i], rules)
    ensures Agreement(Flushed(st, b).value, rules) <==> !ScoreOutlived(st.records, b)
  {
    if i, j :| 0 <= i < j < |b| && Classify(st.records, b[i]).Changed? && b[i].score.Some?
               && Classify(st.records, b[j]).Changed?
               && Classify(st.records, b[j]).id == Classify(st.records, b[i]).id {
      OutlivedDisagrees(st, b, i, j, rules);
    } else {
      NotOutlivedAgrees(st, b, rules);
    }
  }

  /** The phases of a batch of two updates of record 0, the first scored, the second not. */
  lemma {:induction false} TwoUpdates(r0: map<Id, Record>, row1: Row, row2: Row)
    requires Classify(r0, row1) == Classify(r0, row2) == Changed(0) && row1.score.Some? && row2.score.None? && 0 in r0
    ensures var b := [row1, row2];
            && InsertAll(r0, b) == Ok(Insertion(r0, {}))
            && UpdateAll(r0, r0, b) == r0[0 := r0[0].(content := Stored(row2.content))]
            && RelevantScores(r0, {}, b) == [(0, row1.score.value)]
            && ChangedIds(r0, b) == {0} && CountKinds(r0, b) == Counts(0, 0, 2, 0)
  {
    hide Classify, Stored;
    var none: seq<Row> := [];
    OneMoreRow(r0, r0, {}, none, row1);
    OneMoreRow(r0, r0, {}, none + [row1], row2);
    assert none + [row1] + [row2] == [row1, row2];
    hide RelevantScores, ChangedIds, CountKinds, UpdateAll;
    TwoUpdatesBase(r0);
  }

  lemma TwoUpdatesBase(r0: map<Id, Record>)
    ensures InsertAll(r0, []) == Ok(Insertion(r0, {})) && UpdateAll(r0, r0, []) == r0
    ensures RelevantScores(r0, {}, []) == [] && ChangedIds(r0, []) == {} && CountKinds(r0, []) == Counts(0, 0, 0, 0)
  {}

  /** Such a batch: a correction with a value, then one without, both of record 0.  It commits, it
      leaves a score on a MISSING record, and it counts one of its two rows. */
  lemma {:induction false} RepeatedSourceLeavesStaleScore(src: Source, key: Key, unit: string, s: Score)
    ensures var c := Content(Some(1.0), Some(1.0), None, None, unit, Complete, None, None);
            var st := State(map[0 := Record(src, key, c)], map[0 := s], [], 0, 0);
            var b := [Row(1, src, key, c.(actual := Some(2.0)), Some(s)),
                      Row(2, src, key, c.(actual := None, status := Missing), None)];
            && Flushed(st, b).Ok?
            && 0 in Flushed(st, b).value.records && Flushed(st, b).value.records[0].content.status == Missing
            && 0 in Flushed(st, b).value.scores
            && Flushed(st, b).value.success == 1 && Flushed(st, b).value.skipped == 0
  {
    var c := Content(Some(1.0), Some(1.0), None, None, unit, Complete, None, None);
    var st := State(map[0 := Record(src, key, c)], map[0 := s], [], 0, 0);
    var row1 := Row(1, src, key, c.(actual := Some(2.0)), Some(s));
    var row2 := Row(2, src, key, c.(actual := None, status := Missing), None);
    IdOfIs(st.records, 0);
    assert Classify(st.records, row1) == Changed(0) && Classify(st.records, row2) == Changed(0);
    hide Classify, InsertAll, RelevantScores, ChangedIds, CountKinds, UpdateAll, Upserted, IssuesOf;
    TwoUpdates(st.records, row1, row2);
    var rel := RelevantScores(st.records, {}, [row1, row2]);
    assert 0 in ScoredIds(rel) by { assert rel[0].0 == 0; }
    UpsertedKeys(st.scores, rel);
  }
}
