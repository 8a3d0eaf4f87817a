/** One flush: the batch is classified against the records read at its start, then inserted,
    updated, scored and reported phase by phase.  The main result is that for rows of distinct
    sources a flush is the one-row-at-a-time ingester. */
module IngestionFlush {
  import opened IngestionStore
  import opened Options

  datatype Result<T> = Ok(value: T) | IntegrityError

  datatype Insertion = Insertion(records: map<Id, Record>, inserted: set<Id>)

  /** INSERT of the fresh rows with ON CONFLICT DO NOTHING on the natural key alone: a repeated
      source or id still violates its own constraint and fails the statement. */
  ghost function InsertAll(r0: map<Id, Record>, b: seq<Row>): Result<Insertion>
    decreases |b|
  {
    if b == [] then Ok(Insertion(r0, {})) else
    match InsertAll(r0, b[..|b| - 1])
    case IntegrityError => IntegrityError
    case Ok(done) => InsertOne(r0, done, b[|b| - 1])
  }

  ghost function InsertOne(r0: map<Id, Record>, done: Insertion, row: Row): Result<Insertion> {
    if !Classify(r0, row).Fresh? || KeyTaken(done.records, row.key) then Ok(done)
    else if SourceTaken(done.records, row.source) || row.id in done.records then IntegrityError
    else Ok(Insertion(done.records[row.id := AsRecord(row)], done.inserted + {row.id}))
  }

  /** UPDATE of the changed rows, in batch order. */
  ghost function UpdateAll(r0: map<Id, Record>, m: map<Id, Record>, b: seq<Row>): map<Id, Record>
    decreases |b|
  {
    if b == [] then m else UpdateOne(r0, UpdateAll(r0, m, b[..|b| - 1]), b[|b| - 1])
  }

  ghost function UpdateOne(r0: map<Id, Record>, m: map<Id, Record>, row: Row): map<Id, Record> {
    match Classify(r0, row)
    case Changed(a) => if a in m then m[a := m[a].(content := Stored(row.content))] else m
    case _ => m
  }

  /** The stored ids of the changed rows: the values of `id_remap`. */
  ghost function ChangedIds(r0: map<Id, Record>, b: seq<Row>): set<Id>
    decreases |b|
  {
    if b == [] then {} else
      ChangedIds(r0, b[..|b| - 1]) + match Classify(r0, b[|b| - 1]) case Changed(a) => {a} case _ => {}
  }

  ghost function TargetOf(r0: map<Id, Record>, inserted: set<Id>, row: Row): Option<Id> {
    if row.id in inserted then Some(row.id) else
    match Classify(r0, row)
    case Changed(a) => Some(a)
    case _ => None
  }

  /** The scores to upsert, with the record each belongs to. */
  ghost function RelevantScores(r0: map<Id, Record>, inserted: set<Id>, b: seq<Row>): seq<(Id, Score)>
    decreases |b|
  {
    if b == [] then [] else
      RelevantScores(r0, inserted, b[..|b| - 1]) + RelevantOf(r0, inserted, b[|b| - 1])
  }

  ghost function RelevantOf(r0: map<Id, Record>, inserted: set<Id>, row: Row): seq<(Id, Score)> {
    var t := TargetOf(r0, inserted, row);
    if t.Some? && row.score.Some? then [(t.value, row.score.value)] else []
  }

  function Upserted(scores: map<Id, Score>, rel: seq<(Id, Score)>): map<Id, Score>
    decreases |rel|
  {
    if rel == [] then scores
    else Upserted(scores, rel[..|rel| - 1])[rel[|rel| - 1].0 := rel[|rel| - 1].1]
  }

  function ScoredIds(rel: seq<(Id, Score)>): set<Id> {
    set i | 0 <= i < |rel| :: rel[i].0
  }

  /** One INSERT .. ON CONFLICT DO UPDATE may not touch the same record twice. */
  ghost predicate NoRepeats(rel: seq<(Id, Score)>) {
    forall i, j | 0 <= i < j < |rel| :: rel[i].0 != rel[j].0
  }

  /** The issue a row leaves, from how it stood and whether it was inserted. */
  function IssueFor(kind: Kind, inserted: bool, row: Row): seq<Issue> {
    var status := row.content.status;
    match kind
    case Same(_) => []
    case Changed(a) => [Issue(Some(a), if status == Complete then Reprocessed else status, row.source)]
    case Conflict(_) => [Issue(None, Suspicious, row.source)]
    case Fresh =>
      if !inserted then [Issue(None, Duplicate, row.source)]
      else if status == Complete then []
      else [Issue(Some(row.id), status, row.source)]
  }

  ghost function IssuesOf(r0: map<Id, Record>, inserted: set<Id>, b: seq<Row>): seq<Issue>
    decreases |b|
  {
    if b == [] then [] else
      IssuesOf(r0, inserted, b[..|b| - 1]) + IssueFor(Classify(r0, b[|b| - 1]), b[|b| - 1].id in inserted, b[|b| - 1])
  }

  datatype Counts = Counts(unseen: nat, conflicts: nat, changed: nat, same: nat)

  ghost function CountKinds(r0: map<Id, Record>, b: seq<Row>): Counts
    decreases |b|
  {
    if b == [] then Counts(0, 0, 0, 0) else
    var c := CountKinds(r0, b[..|b| - 1]);
    match Classify(r0, b[|b| - 1])
    case Fresh => c.(unseen := c.unseen + 1)
    case Conflict(_) => c.(conflicts := c.conflicts + 1)
    case Changed(_) => c.(changed := c.changed + 1)
    case Same(_) => c.(same := c.same + 1)
  }

  /** The result of a flush that no constraint refuses. */
  ghost function Committed(st: State, b: seq<Row>, done: Insertion, rel: seq<(Id, Score)>): State {
    var r0, updated, c := st.records, ChangedIds(st.records, b), CountKinds(st.records, b);
    State(UpdateAll(r0, done.records, b), Upserted(st.scores, rel) - (updated - ScoredIds(rel)),
          st.issues + IssuesOf(r0, done.inserted, b), st.success + |done.inserted| + |updated| + c.same,
          st.skipped + (c.unseen - |done.inserted|) + c.conflicts)
  }

  /** The whole flush: an IntegrityError rolls everything back. */
  ghost function Flushed(st: State, b: seq<Row>): Result<State> {
    var r0 := st.records;
    match InsertAll(r0, b)
    case IntegrityError => IntegrityError
    case Ok(done) =>
      var rel := RelevantScores(r0, done.inserted, b);
      if NoRepeats(rel) then Ok(Committed(st, b, done, rel)) else IntegrityError
  }

  // ---- The phases commute row by row ----

  lemma {:induction false} UpdateKeepsIdentity(r0: map<Id, Record>, m: map<Id, Record>, b: seq<Row>)
    ensures UpdateAll(r0, m, b).Keys == m.Keys
    ensures forall a | a in m :: UpdateAll(r0, m, b)[a].source == m[a].source && UpdateAll(r0, m, b)[a].key == m[a].key
    decreases |b|
  {
    if b != [] { UpdateKeepsIdentity(r0, m, b[..|b| - 1]); }
  }

  lemma {:induction false} UpdateCommutesWithInsert(r0: map<Id, Record>, m: map<Id, Record>, b: seq<Row>, id: Id,
                                                    r: Record)
    requires id !in r0 && id !in m
    ensures UpdateAll(r0, m[id := r], b) == UpdateAll(r0, m, b)[id := r]
    decreases |b|
  {
    if b != [] {
      UpdateCommutesWithInsert(r0, m, b[..|b| - 1], id, r);
      UpdateKeepsIdentity(r0, m, b[..|b| - 1]);
    }
  }

  /** Only fresh rows are inserted, under their own ids. */
  lemma {:induction false} InsertedAreRows(r0: map<Id, Record>, b: seq<Row>)
    requires InsertAll(r0, b).Ok?
    ensures var done := InsertAll(r0, b).value;
            && done.inserted !! r0.Keys && done.records.Keys == r0.Keys + done.inserted
            && (forall a | a in done.inserted :: exists i | 0 <= i < |b| :: b[i].id == a)
            && (forall a | a in r0 :: done.records[a] == r0[a])
    decreases |b|
  {
    if b != [] {
      var front := b[..|b| - 1];
      InsertedAreRows(r0, front);
      forall i | 0 <= i < |front| ensures front[i].id == b[i].id {}
      assert b[|b| - 1].id == b[|b| - 1].id;
    }
  }

  /** An inserted record is one row of the batch, as it was fed. */
  lemma {:induction false} InsertedIsRow(r0: map<Id, Record>, b: seq<Row>, a: Id) returns (i: nat)
    requires InsertAll(r0, b).Ok? && a in InsertAll(r0, b).value.inserted
    ensures i < |b| && b[i].id == a && Classify(r0, b[i]).Fresh?
    ensures a in InsertAll(r0, b).value.records && InsertAll(r0, b).value.records[a] == AsRecord(b[i])
    decreases |b|
  {
    var front, row := b[..|b| - 1], b[|b| - 1];
    if a in InsertAll(r0, front).value.inserted {
      i := InsertedIsRow(r0, front, a);
    } else {
      i := |b| - 1;
    }
  }

  lemma ScoredOneMore(rel: seq<(Id, Score)>, id: Id, s: Score)
    ensures ScoredIds(rel + [(id, s)]) == ScoredIds(rel) + {id}
  {
    var more := rel + [(id, s)];
    forall x | x in ScoredIds(rel) + {id} ensures x in ScoredIds(more) {
      if x in ScoredIds(rel) {
        var i :| 0 <= i < |rel| && rel[i].0 == x;
        assert more[i].0 == x;
      } else {
        assert more[|rel|].0 == x;
      }
    }
  }

  /** What the scores of a batch can refer to. */
  lemma {:induction false} RelevantTargets(r0: map<Id, Record>, inserted: set<Id>, b: seq<Row>)
    ensures ScoredIds(RelevantScores(r0, inserted, b)) <= inserted + ChangedIds(r0, b)
    ensures ChangedIds(r0, b) <= r0.Keys
    decreases |b|
  {
    if b != [] {
      var front, row := b[..|b| - 1], b[|b| - 1];
      RelevantTargets(r0, inserted, front);
      var t := TargetOf(r0, inserted, row);
      if t.Some? && row.score.Some? {
        ScoredOneMore(RelevantScores(r0, inserted, front), t.value, row.score.value);
      } else {
        assert RelevantScores(r0, inserted, b) == RelevantScores(r0, inserted, front);
      }
    }
  }

  lemma {:induction false} ChangedAreSources(r0: map<Id, Record>, b: seq<Row>, a: Id)
    requires a in ChangedIds(r0, b)
    ensures a in r0 && exists i | 0 <= i < |b| :: b[i].source == r0[a].source
    decreases |b|
  {
    var front := b[..|b| - 1];
    if a in ChangedIds(r0, front) {
      ChangedAreSources(r0, front, a);
      var i :| 0 <= i < |front| && front[i].source == r0[a].source;
      assert b[i].source == r0[a].source;
    } else {
      assert b[|b| - 1].source == r0[a].source;
    }
  }

  /** Rows whose id is not among `extra` do not notice that it was inserted. */
  lemma {:induction false} OtherInsertUnseen(r0: map<Id, Record>, inserted: set<Id>, extra: Id, b: seq<Row>)
    requires forall i | 0 <= i < |b| :: b[i].id != extra
    ensures RelevantScores(r0, inserted + {extra}, b) == RelevantScores(r0, inserted, b)
    ensures IssuesOf(r0, inserted + {extra}, b) == IssuesOf(r0, inserted, b)
    decreases |b|
  {
    if b != [] { OtherInsertUnseen(r0, inserted, extra, b[..|b| - 1]); }
  }

  lemma UpsertedOneMore(scores: map<Id, Score>, rel: seq<(Id, Score)>, id: Id, s: Score)
    ensures Upserted(scores, rel + [(id, s)]) == Upserted(scores, rel)[id := s]
  {
    var more := rel + [(id, s)];
    assert more[..|more| - 1] == rel;
  }

  /** Updates do not change which natural keys and sources are taken. */
  lemma TakenAfterUpdates(r0: map<Id, Record>, m: map<Id, Record>, b: seq<Row>, k: Key, s: Source)
    ensures KeyTaken(UpdateAll(r0, m, b), k) <==> KeyTaken(m, k)
    ensures SourceTaken(UpdateAll(r0, m, b), s) <==> SourceTaken(m, s)
  {
    UpdateKeepsIdentity(r0, m, b);
    var u := UpdateAll(r0, m, b);
    forall a | a in m ensures u[a].key == m[a].key && u[a].source == m[a].source {}
  }

  /** The last row of a batch has an id and a source of its own. */
  lemma LastRowIsApart(r0: map<Id, Record>, front: seq<Row>, row: Row)
    requires DistinctSources(front + [row]) && FreshIds(r0, front + [row])
    ensures DistinctSources(front) && FreshIds(r0, front) && row.id !in r0
    ensures forall i | 0 <= i < |front| :: front[i].source != row.source && front[i].id != row.id
  {
    var b := front + [row];
    forall i | 0 <= i < |front| ensures front[i] == b[i] {}
    assert b[|front|] == row;
  }

  /** The row's own source is not among the records a batch of other sources changed. */
  lemma ChangedApart(r0: map<Id, Record>, front: seq<Row>, row: Row)
    requires SourceUnique(r0) && DistinctSources(front + [row]) && FreshIds(r0, front + [row])
    ensures row.id !in ChangedIds(r0, front)
    ensures Classify(r0, row).Changed? ==> Classify(r0, row).id in r0 && Classify(r0, row).id !in ChangedIds(r0, front)
  {
    LastRowIsApart(r0, front, row);
    if row.id in ChangedIds(r0, front) { ChangedAreSources(r0, front, row.id); }
    if Classify(r0, row).Changed? {
      var a := Classify(r0, row).id;
      if a in ChangedIds(r0, front) { ChangedAreSources(r0, front, a); }
    }
  }

  /** The scores phase for one more row that is inserted or updates record `a`. */
  lemma ScoresOneMore(scores: map<Id, Score>, rel: seq<(Id, Score)>, updated: set<Id>, a: Id, score: Option<Score>)
    requires a !in updated && a !in ScoredIds(rel)
    ensures var more := if score.Some? then rel + [(a, score.value)] else rel;
            && (NoRepeats(rel) ==> NoRepeats(more))
            && Upserted(scores, more) - (updated + {a} - ScoredIds(more))
               == WithScore(Upserted(scores, rel) - (updated - ScoredIds(rel)), a, score)
            && (a !in scores ==>
                  Upserted(scores, more) - (updated - ScoredIds(more))
                  == WithScore(Upserted(scores, rel) - (updated - ScoredIds(rel)), a, score))
  {
    hide *;
    if score.Some? {
      UpsertedOneMore(scores, rel, a, score.value);
      ScoredOneMore(rel, a, score.value);
      RepeatsOneMore(rel, a, score.value);
    } else {
      UpsertedKeys(scores, rel);
    }
    ScoresLeftOneMore(Upserted(scores, rel), ScoredIds(rel), updated, a, score);
  }

  lemma RepeatsOneMore(rel: seq<(Id, Score)>, a: Id, s: Score)
    requires a !in ScoredIds(rel)
    ensures NoRepeats(rel) ==> NoRepeats(rel + [(a, s)])
  {
    forall i | 0 <= i < |rel| ensures rel[i].0 != a { assert rel[i].0 in ScoredIds(rel); }
    hide ScoredIds;
  }

  lemma ScoresLeftOneMore(m: map<Id, Score>, scored: set<Id>, updated: set<Id>, a: Id, score: Option<Score>)
    requires a !in updated && a !in scored
    ensures score.Some? ==>
              m[a := score.value] - (updated + {a} - (scored + {a})) == WithScore(m - (updated - scored), a, score)
    ensures score.Some? ==>
              m[a := score.value] - (updated - (scored + {a})) == WithScore(m - (updated - scored), a, score)
    ensures score.None? ==> m - (updated + {a} - scored) == WithScore(m - (updated - scored), a, score)
    ensures score.None? && a !in m ==> m - (updated - scored) == WithScore(m - (updated - scored), a, score)
  {
    assert updated + {a} - scored == updated - scored + {a};
  }

  lemma {:induction false} UpsertedKeys(scores: map<Id, Score>, rel: seq<(Id, Score)>)
    ensures Upserted(scores, rel).Keys == scores.Keys + ScoredIds(rel)
    decreases |rel|
  {
    if rel != [] {
      var front, last := rel[..|rel| - 1], rel[|rel| - 1];
      UpsertedKeys(scores, front);
      assert rel == front + [(last.0, last.1)];
      UpsertedOneMore(scores, front, last.0, last.1);
      ScoredOneMore(front, last.0, last.1);
    }
  }

  /** Every phase of a batch with one more row, from the phase of the batch without it. */
  lemma {:induction false} OneMoreRow(r0: map<Id, Record>, m: map<Id, Record>, inserted: set<Id>, front: seq<Row>,
                                      row: Row)
    ensures var b := front + [row];
            && UpdateAll(r0, m, b) == UpdateOne(r0, UpdateAll(r0, m, front), row)
            && ChangedIds(r0, b)
               == ChangedIds(r0, front) + (match Classify(r0, row) case Changed(a) => {a} case _ => {})
            && RelevantScores(r0, inserted, b) == RelevantScores(r0, inserted, front) + RelevantOf(r0, inserted, row)
            && IssuesOf(r0, inserted, b)
               == IssuesOf(r0, inserted, front) + IssueFor(Classify(r0, row), row.id in inserted, row)
    ensures var b := front + [row];
            var c := CountKinds(r0, front);
            CountKinds(r0, b) == match Classify(r0, row)
                                 case Fresh => c.(unseen := c.unseen + 1)
                                 case Conflict(_) => c.(conflicts := c.conflicts + 1)
                                 case Changed(_) => c.(changed := c.changed + 1)
                                 case Same(_) => c.(same := c.same + 1)
    ensures InsertAll(r0, front).Ok? ==> InsertAll(r0, front + [row]) == InsertOne(r0, InsertAll(r0, front).value, row)
  {
    var b := front + [row];
    assert b[..|b| - 1] == front && b[|b| - 1] == row;
  }

  /** A commit is known from its phases. */
  lemma {:induction false} FlushFromPhases(st: State, b: seq<Row>, done: Insertion, rel: seq<(Id, Score)>, T: State)
    requires InsertAll(st.records, b) == Ok(done) && RelevantScores(st.records, done.inserted, b) == rel
             && NoRepeats(rel)
    requires UpdateAll(st.records, done.records, b) == T.records
    requires Upserted(st.scores, rel) - (ChangedIds(st.records, b) - ScoredIds(rel)) == T.scores
    requires st.issues + IssuesOf(st.records, done.inserted, b) == T.issues
    requires st.success + |done.inserted| + |ChangedIds(st.records, b)| + CountKinds(st.records, b).same == T.success
    requires st.skipped + (CountKinds(st.records, b).unseen - |done.inserted|) + CountKinds(st.records, b).conflicts
             == T.skipped
    ensures Flushed(st, b) == Ok(T)
  {}

  lemma {:induction false} InsertPhase(r0: map<Id, Record>, front: seq<Row>, row: Row, done: Insertion)
    requires InsertAll(r0, front) == Ok(done) && Classify(r0, row).Fresh?
    requires !KeyTaken(done.records, row.key) && !SourceTaken(done.records, row.source) && row.id !in done.records
    ensures row.id !in done.inserted
    ensures InsertAll(r0, front + [row])
            == Ok(Insertion(done.records[row.id := AsRecord(row)], done.inserted + {row.id}))
    ensures ChangedIds(r0, front + [row]) == ChangedIds(r0, front)
    ensures CountKinds(r0, front + [row]) == CountKinds(r0, front).(unseen := CountKinds(r0, front).unseen + 1)
  {
    hide InsertAll, UpdateAll, RelevantScores, IssuesOf, CountKinds, ChangedIds, Upserted;
    InsertedAreRows(r0, front);
    OneMoreRow(r0, done.records, done.inserted, front, row);
  }

  /** The batch with one more row that is inserted. */
  lemma {:induction false} FlushOneInsert(st: State, S: State, front: seq<Row>, row: Row, done: Insertion,
                                          rel: seq<(Id, Score)>)
    requires InsertAll(st.records, front) == Ok(done) && rel == RelevantScores(st.records, done.inserted, front)
             && NoRepeats(rel)
    requires S == Committed(st, front, done, rel)
    requires row.id !in st.records && row.id !in st.scores && row.id !in ChangedIds(st.records, front)
    requires forall i | 0 <= i < |front| :: front[i].id != row.id
    requires Classify(st.records, row).Fresh? && !KeyTaken(done.records, row.key)
    requires !SourceTaken(done.records, row.source) && row.id !in done.records
    requires Classify(S.records, row).Fresh? && !KeyTaken(S.records, row.key)
    ensures Flushed(st, front + [row]) == Ok(ApplyRow(S, row))
  {
    hide InsertAll, UpdateAll, RelevantScores, IssuesOf, CountKinds, ChangedIds, Upserted;
    var b, r0, id, A := front + [row], st.records, row.id, ApplyRow(S, row);
    var done' := Insertion(done.records[id := AsRecord(row)], done.inserted + {id});
    var rel' := if row.score.Some? then rel + [(id, row.score.value)] else rel;
    InsertPhase(r0, front, row, done);
    assert RelevantScores(r0, done'.inserted, b) == rel' && st.issues + IssuesOf(r0, done'.inserted, b) == A.issues by {
      OneMoreRow(r0, done.records, done'.inserted, front, row);
      OtherInsertUnseen(r0, done.inserted, id, front);
    }
    assert NoRepeats(rel') && Upserted(st.scores, rel') - (ChangedIds(r0, front) - ScoredIds(rel')) == A.scores by {
      RelevantTargets(r0, done.inserted, front);
      ScoresOneMore(st.scores, rel, ChangedIds(r0, front), id, row.score);
    }
    assert UpdateAll(r0, done'.records, b) == A.records by {
      OneMoreRow(r0, done'.records, done.inserted, front, row);
      UpdateCommutesWithInsert(r0, done.records, front, id, AsRecord(row));
    }
    FlushFromPhases(st, b, done', rel', A);
  }

  /** The batch with one more row that updates its stored record. */
  lemma {:induction false} FlushOneUpdate(st: State, S: State, front: seq<Row>, row: Row, done: Insertion,
                                          rel: seq<(Id, Score)>)
    requires InsertAll(st.records, front) == Ok(done) && rel == RelevantScores(st.records, done.inserted, front)
             && NoRepeats(rel)
    requires S == Committed(st, front, done, rel)
    requires Classify(st.records, row).Changed? && row.id !in done.inserted
    requires Classify(st.records, row).id !in ChangedIds(st.records, front)
    requires Classify(S.records, row) == Classify(st.records, row)
    ensures Flushed(st, front + [row]) == Ok(ApplyRow(S, row))
  {
    hide InsertAll, UpdateAll, RelevantScores, IssuesOf, CountKinds, ChangedIds, Upserted;
    var b, r0, a, A := front + [row], st.records, Classify(st.records, row).id, ApplyRow(S, row);
    var rel' := if row.score.Some? then rel + [(a, row.score.value)] else rel;
    assert InsertAll(r0, b) == Ok(done) && RelevantScores(r0, done.inserted, b) == rel'
           && st.issues + IssuesOf(r0, done.inserted, b) == A.issues
           && ChangedIds(r0, b) == ChangedIds(r0, front) + {a} && CountKinds(r0, b).same == CountKinds(r0, front).same
           && CountKinds(r0, b).unseen == CountKinds(r0, front).unseen
           && CountKinds(r0, b).conflicts == CountKinds(r0, front).conflicts by {
      OneMoreRow(r0, done.records, done.inserted, front, row);
    }
    assert NoRepeats(rel') && Upserted(st.scores, rel') - (ChangedIds(r0, front) + {a} - ScoredIds(rel'))
           == A.scores by {
      InsertedAreRows(r0, front);
      RelevantTargets(r0, done.inserted, front);
      ScoresOneMore(st.scores, rel, ChangedIds(r0, front), a, row.score);
    }
    assert UpdateAll(r0, done.records, b) == A.records by {
      InsertedAreRows(r0, front);
      UpdateKeepsIdentity(r0, done.records, front);
      OneMoreRow(r0, done.records, done.inserted, front, row);
    }
    FlushFromPhases(st, b, done, rel', A);
  }

  lemma {:induction false} IdleRow(S: State, row: Row, kind: Kind)
    requires Classify(S.records, row) == kind && !kind.Changed? && (kind.Fresh? ==> KeyTaken(S.records, row.key))
    ensures ApplyRow(S, row) == State(S.records, S.scores, S.issues + IssueFor(kind, false, row),
                                      S.success + (if kind.Same? then 1 else 0),
                                      S.skipped + (if kind.Same? then 0 else 1))
  {}

  /** The batch with one more row that stores nothing. */
  lemma {:induction false} FlushOneIdle(st: State, S: State, front: seq<Row>, row: Row, done: Insertion,
                                        rel: seq<(Id, Score)>)
    requires InsertAll(st.records, front) == Ok(done) && rel == RelevantScores(st.records, done.inserted, front)
             && NoRepeats(rel)
    requires S == Committed(st, front, done, rel)
    requires row.id !in done.inserted && !Classify(st.records, row).Changed?
    requires Classify(S.records, row) == Classify(st.records, row)
    requires Classify(st.records, row).Fresh? ==> KeyTaken(done.records, row.key) && KeyTaken(S.records, row.key)
    ensures Flushed(st, front + [row]) == Ok(ApplyRow(S, row))
  {
    hide InsertAll, UpdateAll, RelevantScores, IssuesOf, CountKinds, ChangedIds, Upserted;
    var b, r0 := front + [row], st.records;
    IdleRow(S, row, Classify(r0, row));
    OneMoreRow(r0, done.records, done.inserted, front, row);
    assert RelevantScores(r0, done.inserted, b) == rel;
    FlushFromPhases(st, b, done, rel, ApplyRow(S, row));
  }

  /** A row stands against the flushed batch as it stands against the records read before it. */
  ghost predicate StandsAlike(st: State, front: seq<Row>, row: Row)
    requires InsertAll(st.records, front).Ok?
  {
    var S, r0, done := ApplyAll(st, front), st.records, InsertAll(st.records, front).value;
    && row.id !in r0 && row.id !in done.records && row.id !in ChangedIds(r0, front)
    && Classify(S.records, row) == Classify(r0, row)
    && (KeyTaken(S.records, row.key) <==> KeyTaken(done.records, row.key))
    && (Classify(r0, row).Fresh? ==> !SourceTaken(done.records, row.source))
    && (Classify(r0, row).Changed? ==> Classify(r0, row).id !in ChangedIds(r0, front))
  }

  /** A row of a source of its own stands alike. */
  lemma {:induction false} SeenByNextRow(st: State, front: seq<Row>, row: Row)
    requires Valid(st) && DistinctSources(front + [row]) && FreshIds(st.records, front + [row])
    requires Flushed(st, front) == Ok(ApplyAll(st, front))
    ensures InsertAll(st.records, front).Ok? && StandsAlike(st, front, row)
  {
    var r0 := st.records;
    LastRowIsApart(r0, front, row);
    ApplyAllOtherSource(st, front, row);
    ChangedApart(r0, front, row);
    var done := InsertAll(r0, front).value;
    InsertedAreRows(r0, front);
    TakenAfterUpdates(r0, done.records, front, row.key, row.source);
  }

  /** One more row that stands alike: flushing it with the others is applying it after them. */
  lemma {:induction false} FlushOneMore(st: State, front: seq<Row>, row: Row)
    requires Valid(st) && Flushed(st, front) == Ok(ApplyAll(st, front)) && StandsAlike(st, front, row)
    requires forall i | 0 <= i < |front| :: front[i].id != row.id
    ensures Flushed(st, front + [row]) == Ok(ApplyRow(ApplyAll(st, front), row))
  {
    hide InsertAll, UpdateAll, RelevantScores, IssuesOf, CountKinds, ChangedIds, Upserted;
    var done := InsertAll(st.records, front).value;
    InsertedAreRows(st.records, front);
    var rel := RelevantScores(st.records, done.inserted, front);
    assert ApplyAll(st, front) == Committed(st, front, done, rel);
    if Classify(st.records, row).Changed? {
      FlushOneUpdate(st, ApplyAll(st, front), front, row, done, rel);
    } else if Classify(st.records, row).Fresh? && !KeyTaken(done.records, row.key) {
      FlushOneInsert(st, ApplyAll(st, front), front, row, done, rel);
    } else {
      FlushOneIdle(st, ApplyAll(st, front), front, row, done, rel);
    }
  }

  lemma {:induction false} FlushNothing(st: State)
    ensures Flushed(st, []) == Ok(ApplyAll(st, []))
  {
    var f := Flushed(st, []).value;
    assert RelevantScores(st.records, {}, []) == [] && ChangedIds(st.records, []) == {};
    assert f.scores == st.scores && f.issues == st.issues;
  }

  /** A flush of rows with distinct sources is exactly the one-row-at-a-time ingester. */
  lemma {:induction false} FlushIsOneByOne(st: State, b: seq<Row>)
    requires Valid(st) && DistinctSources(b) && FreshIds(st.records, b)
    ensures Flushed(st, b) == Ok(ApplyAll(st, b))
    decreases |b|
  {
    if b == [] {
      FlushNothing(st);
    } else {
      var front, row := b[..|b| - 1], b[|b| - 1];
      assert front + [row] == b;
      LastRowIsApart(st.records, front, row);
      FlushIsOneByOne(st, front);
      SeenByNextRow(st, front, row);
      hide Flushed, InsertAll, Classify, ChangedIds;
      FlushOneMore(st, front, row);
    }
  }
}
