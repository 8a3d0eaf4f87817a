/** The ingestion run as it executes: the database tables, the counters and the open batch are
    fields, and each phase of a flush is a loop.  Every method is proved against the flush and run
    functions, so their laws hold of what it leaves behind. */
module Ingester {
  import opened IngestionFlush
  import opened IngestionLaws
  import opened IngestionResolve
  import opened IngestionRun
  import opened IngestionStore
  import opened Options

  const BATCH_SIZE: nat := 1000

  // ---- The groups a batch is split into ----

  ghost function FreshRows(r0: map<Id, Record>, b: seq<Row>): seq<Row>
    decreases |b|
  {
    if b == [] then [] else
    FreshRows(r0, b[..|b| - 1]) + if Classify(r0, b[|b| - 1]).Fresh? then [b[|b| - 1]] else []
  }

  ghost function ChangedRows(r0: map<Id, Record>, b: seq<Row>): seq<(Id, Row)>
    decreases |b|
  {
    if b == [] then [] else
    ChangedRows(r0, b[..|b| - 1]) + match Classify(r0, b[|b| - 1]) case Changed(a) => [(a, b[|b| - 1])] case _ => []
  }

  /** The ids of the unchanged rows, or of the conflicting ones. */
  ghost function IdsOfKind(r0: map<Id, Record>, b: seq<Row>, conflict: bool): set<Id>
    decreases |b|
  {
    if b == [] then {} else
    IdsOfKind(r0, b[..|b| - 1], conflict) + if OfKind(r0, b[|b| - 1], conflict) then {b[|b| - 1].id} else {}
  }

  ghost predicate OfKind(r0: map<Id, Record>, row: Row, conflict: bool) {
    if conflict then Classify(r0, row).Conflict? else Classify(r0, row).Same?
  }

  ghost predicate DistinctIds(b: seq<Row>) {
    forall i, j | 0 <= i < j < |b| :: b[i].id != b[j].id
  }

  /** The stored record each changed row updates, by the row's own id. */
  ghost predicate Remaps(r0: map<Id, Record>, b: seq<Row>, remap: map<Id, Id>) {
    && (forall i | 0 <= i < |b| :: b[i].id in remap <==> Classify(r0, b[i]).Changed?)
    && (forall i | 0 <= i < |b| && b[i].id in remap :: Classify(r0, b[i]) == Changed(remap[b[i].id]))
    && (forall x | x in remap :: exists i | 0 <= i < |b| :: b[i].id == x)
  }

  lemma {:induction false} FreshRowsInsertAlike(r0: map<Id, Record>, b: seq<Row>)
    ensures InsertAll(r0, FreshRows(r0, b)) == InsertAll(r0, b)
    decreases |b|
  {
    if b != [] {
      var front, row := b[..|b| - 1], b[|b| - 1];
      FreshRowsInsertAlike(r0, front);
      if Classify(r0, row).Fresh? {
        assert (FreshRows(r0, front) + [row])[..|FreshRows(r0, front)|] == FreshRows(r0, front);
      } else {
        assert FreshRows(r0, b) == FreshRows(r0, front);
      }
    }
  }

  lemma {:induction false} KindIds(r0: map<Id, Record>, b: seq<Row>, conflict: bool)
    requires DistinctIds(b)
    ensures forall i | 0 <= i < |b| :: b[i].id in IdsOfKind(r0, b, conflict) <==> OfKind(r0, b[i], conflict)
    ensures forall x | x in IdsOfKind(r0, b, conflict) :: exists i | 0 <= i < |b| :: b[i].id == x
    decreases |b|
  {
    hide OfKind;
    if b != [] {
      var front := b[..|b| - 1];
      assert forall i | 0 <= i < |front| :: front[i] == b[i] && front[i].id != b[|b| - 1].id;
      KindIds(r0, front, conflict);
    }
  }

  /** The groups of a batch with one more row. */
  lemma {:induction false} GroupsOneMore(r0: map<Id, Record>, front: seq<Row>, row: Row)
    ensures FreshRows(r0, front + [row]) == FreshRows(r0, front) + if Classify(r0, row).Fresh? then [row] else []
    ensures ChangedRows(r0, front + [row]) ==
              ChangedRows(r0, front) + match Classify(r0, row) case Changed(a) => [(a, row)] case _ => []
    ensures IdsOfKind(r0, front + [row], false)
            == IdsOfKind(r0, front, false) + if Classify(r0, row).Same? then {row.id} else {}
    ensures IdsOfKind(r0, front + [row], true)
            == IdsOfKind(r0, front, true) + if Classify(r0, row).Conflict? then {row.id} else {}
  {
    assert (front + [row])[..|front|] == front;
    hide Classify;
  }

  lemma {:induction false} LastIdIsNew(r0: map<Id, Record>, front: seq<Row>, row: Row, conflict: bool)
    requires DistinctIds(front + [row])
    ensures DistinctIds(front) && row.id !in IdsOfKind(r0, front, conflict)
    ensures forall i | 0 <= i < |front| :: front[i].id != row.id
  {
    var b := front + [row];
    assert b[|front|] == row && forall i | 0 <= i < |front| :: b[i] == front[i];
    KindIds(r0, front, conflict);
  }

  lemma {:induction false} CountsOneMore(r0: map<Id, Record>, front: seq<Row>, row: Row)
    ensures CountKinds(r0, front + [row]).same == CountKinds(r0, front).same + if Classify(r0, row).Same? then 1 else 0
    ensures CountKinds(r0, front + [row]).conflicts ==
              CountKinds(r0, front).conflicts + if Classify(r0, row).Conflict? then 1 else 0
  {
    assert (front + [row])[..|front|] == front;
    hide Classify;
  }

  lemma {:induction false} KindIdsCounted(r0: map<Id, Record>, b: seq<Row>, conflict: bool)
    requires DistinctIds(b)
    ensures |IdsOfKind(r0, b, conflict)| == if conflict then CountKinds(r0, b).conflicts else CountKinds(r0, b).same
    decreases |b|
  {
    if b != [] {
      var front, row := b[..|b| - 1], b[|b| - 1];
      assert front + [row] == b;
      LastIdIsNew(r0, front, row, conflict);
      KindIdsCounted(r0, front, conflict);
      CountsOneMore(r0, front, row);
      GroupsOneMore(r0, front, row);
      hide Classify, DistinctIds, CountKinds, IdsOfKind, FreshRows, ChangedRows;
    }
  }

  ghost function Remapped(r0: map<Id, Record>, remap: map<Id, Id>, row: Row): map<Id, Id> {
    match Classify(r0, row) case Changed(a) => remap[row.id := a] case _ => remap
  }

  lemma NewKeyAddsValue(m: map<Id, Id>, x: Id, a: Id)
    requires x !in m
    ensures m[x := a].Values == m.Values + {a}
  {
    assert x in m[x := a];
    forall y | y in m ensures m[y] in m[x := a].Values { assert m[x := a][y] == m[y]; }
  }

  lemma {:induction false} RemapsOneMore(r0: map<Id, Record>, front: seq<Row>, row: Row, remap: map<Id, Id>)
    requires DistinctIds(front + [row]) && Remaps(r0, front, remap)
    ensures Remaps(r0, front + [row], Remapped(r0, remap, row))
    ensures remap.Values == ChangedIds(r0, front) ==> Remapped(r0, remap, row).Values == ChangedIds(r0, front + [row])
  {
    LastIdIsNew(r0, front, row, false);
    assert row.id !in remap;
    RemapsExtend(r0, front, row, remap);
    if Classify(r0, row).Changed? { NewKeyAddsValue(remap, row.id, Classify(r0, row).id); }
    OneMoreRow(r0, r0, {}, front, row);
    hide Classify, ChangedIds, DistinctIds, Remaps, CountKinds, IssuesOf, RelevantScores, UpdateAll, InsertAll;
  }

  lemma {:induction false} RemapsExtend(r0: map<Id, Record>, front: seq<Row>, row: Row, remap: map<Id, Id>)
    requires Remaps(r0, front, remap) && row.id !in remap && forall i | 0 <= i < |front| :: front[i].id != row.id
    ensures Remaps(r0, front + [row], Remapped(r0, remap, row))
  {
    hide Classify;
    var b := front + [row];
    assert b[|front|] == row && forall i | 0 <= i < |front| :: b[i] == front[i];
  }

  lemma {:induction false} ScoresGrow(r0: map<Id, Record>, inserted: set<Id>, front: seq<Row>, row: Row)
    ensures RelevantScores(r0, inserted, front + [row])
            == RelevantScores(r0, inserted, front) + RelevantOf(r0, inserted, row)
  {
    assert (front + [row])[..|front|] == front;
    hide RelevantOf;
  }

  lemma {:induction false} IssuesGrow(r0: map<Id, Record>, inserted: set<Id>, front: seq<Row>, row: Row)
    ensures IssuesOf(r0, inserted, front + [row]) ==
              IssuesOf(r0, inserted, front) + IssueFor(Classify(r0, row), row.id in inserted, row)
  {
    assert (front + [row])[..|front|] == front;
    hide IssueFor, Classify;
  }

  /** The groups the loop has formed are those of the rows so far. */
  ghost predicate Grouped(r0: map<Id, Record>, b: seq<Row>, toInsert: seq<Row>, toUpdate: seq<(Id, Row)>,
                          sames: set<Id>, conflicts: set<Id>, remap: map<Id, Id>) {
    && toInsert == FreshRows(r0, b) && toUpdate == ChangedRows(r0, b)
    && sames == IdsOfKind(r0, b, false) && conflicts == IdsOfKind(r0, b, true)
    && Remaps(r0, b, remap) && remap.Values == ChangedIds(r0, b)
  }

  /** Each kind of row enlarges its own group. */
  lemma {:induction false} GroupedOneMore(r0: map<Id, Record>, b: seq<Row>, i: nat, toInsert: seq<Row>,
                                          toUpdate: seq<(Id, Row)>, sames: set<Id>, conflicts: set<Id>,
                                          remap: map<Id, Id>)
    requires i < |b| && DistinctIds(b) && Grouped(r0, b[..i], toInsert, toUpdate, sames, conflicts, remap)
    ensures match Classify(r0, b[i])
            case Fresh => Grouped(r0, b[..i + 1], toInsert + [b[i]], toUpdate, sames, conflicts, remap)
            case Conflict(_) => Grouped(r0, b[..i + 1], toInsert, toUpdate, sames, conflicts + {b[i].id}, remap)
            case Changed(a) => Grouped(r0, b[..i + 1], toInsert, toUpdate + [(a, b[i])], sames, conflicts,
                                       remap[b[i].id := a])
            case Same(_) => Grouped(r0, b[..i + 1], toInsert, toUpdate, sames + {b[i].id}, conflicts, remap)
  {
    var front, row := b[..i], b[i];
    assert b[..i + 1] == front + [row] && DistinctIds(front + [row]);
    hide FreshRows, ChangedRows, IdsOfKind, Remaps, ChangedIds, DistinctIds, Classify;
    GroupsOneMore(r0, front, row);
    RemapsOneMore(r0, front, row, remap);
  }

  lemma {:induction false} FreshRowsCounted(r0: map<Id, Record>, b: seq<Row>)
    ensures |FreshRows(r0, b)| == CountKinds(r0, b).unseen
    decreases |b|
  {
    if b != [] { FreshRowsCounted(r0, b[..|b| - 1]); }
  }

  // ---- The statements the database executes ----

  /** INSERT .. ON CONFLICT DO NOTHING on the natural key, RETURNING the inserted ids. */
  method InsertRows(r0: map<Id, Record>, rows: seq<Row>) returns (r: Result<Insertion>)
    requires forall i | 0 <= i < |rows| :: Classify(r0, rows[i]).Fresh?
    ensures r == InsertAll(r0, rows)
  {
    var records: map<Id, Record>, inserted: set<Id> := r0, {};
    var i := 0;
    while i < |rows|
      invariant 0 <= i <= |rows|
      invariant InsertAll(r0, rows[..i]) == Ok(Insertion(records, inserted))
    {
      ghost var done := Insertion(records, inserted);
      assert rows[..i + 1][..i] == rows[..i] && rows[..i + 1][i] == rows[i];
      assert InsertAll(r0, rows[..i + 1]) == InsertOne(r0, done, rows[i]);
      if !KeyTaken(records, rows[i].key) {
        if SourceTaken(records, rows[i].source) || rows[i].id in records {
          StaysRefused(r0, rows, i + 1);
          return IntegrityError;
        }
        records, inserted := records[rows[i].id := AsRecord(rows[i])], inserted + {rows[i].id};
      }
      i := i + 1;
    }
    assert rows[..i] == rows;
    return Ok(Insertion(records, inserted));
  }

  lemma {:induction false} StaysRefused(r0: map<Id, Record>, rows: seq<Row>, i: nat)
    requires i <= |rows| && InsertAll(r0, rows[..i]).IntegrityError?
    ensures InsertAll(r0, rows).IntegrityError?
    decreases |rows| - i
  {
    if i < |rows| {
      assert rows[..i + 1][..i] == rows[..i];
      StaysRefused(r0, rows, i + 1);
    } else {
      assert rows[..i] == rows;
    }
  }

  /** UPDATE by id, once per changed row. */
  method UpdateRows(ghost r0: map<Id, Record>, ghost b: seq<Row>, records: map<Id, Record>, rows: seq<(Id, Row)>)
    returns (records': map<Id, Record>, updated: set<Id>)
    requires rows == ChangedRows(r0, b)
    ensures records' == UpdateAll(r0, records, b) && updated == ChangedIds(r0, b)
  {
    records', updated := records, {};
    var i := 0;
    while i < |rows|
      invariant 0 <= i <= |rows|
      invariant records' == Written(records, rows[..i]) && updated == WrittenIds(rows[..i])
    {
      assert rows[..i + 1][..i] == rows[..i] && rows[..i + 1][i] == rows[i];
      var a, row := rows[i].0, rows[i].1;
      if a in records' { records' := records'[a := records'[a].(content := Stored(row.content))]; }
      updated := updated + {a};
      i := i + 1;
    }
    assert rows[..i] == rows;
    WrittenIsUpdated(r0, records, b);
  }

  function Written(records: map<Id, Record>, rows: seq<(Id, Row)>): map<Id, Record>
    decreases |rows|
  {
    if rows == [] then records else
    var m, last := Written(records, rows[..|rows| - 1]), rows[|rows| - 1];
    if last.0 in m then m[last.0 := m[last.0].(content := Stored(last.1.content))] else m
  }

  function WrittenIds(rows: seq<(Id, Row)>): set<Id>
    decreases |rows|
  {
    if rows == [] then {} else WrittenIds(rows[..|rows| - 1]) + {rows[|rows| - 1].0}
  }

  lemma {:induction false} WrittenIsUpdated(r0: map<Id, Record>, records: map<Id, Record>, b: seq<Row>)
    ensures Written(records, ChangedRows(r0, b)) == UpdateAll(r0, records, b)
    ensures WrittenIds(ChangedRows(r0, b)) == ChangedIds(r0, b)
    decreases |b|
  {
    if b == [] { return; }
    var front, row := b[..|b| - 1], b[|b| - 1];
    var rows, kind := ChangedRows(r0, front), Classify(r0, row);
    assert ChangedRows(r0, b) == rows + if kind.Changed? then [(kind.id, row)] else [];
    if kind.Changed? {
      assert (rows + [(kind.id, row)])[..|rows|] == rows;
    } else {
      assert rows + [] == rows;
    }
    WrittenIsUpdated(r0, records, front);
    hide Classify, Stored, ChangedRows;
  }

  /** INSERT .. ON CONFLICT DO UPDATE: it fails when one record would be written twice. */
  method UpsertScores(scores: map<Id, Score>, rel: seq<(Id, Score)>) returns (ok: bool, scores': map<Id, Score>)
    ensures ok <==> NoRepeats(rel)
    ensures scores' == if ok then Upserted(scores, rel) else scores
  {
    scores' := scores;
    var seen: set<Id> := {};
    var i := 0;
    while i < |rel|
      invariant 0 <= i <= |rel|
      invariant NoRepeats(rel[..i]) && seen == ScoredIds(rel[..i]) && scores' == Upserted(scores, rel[..i])
    {
      assert rel[..i + 1] == rel[..i] + [(rel[i].0, rel[i].1)];
      UpsertedOneMore(scores, rel[..i], rel[i].0, rel[i].1);
      ScoredOneMore(rel[..i], rel[i].0, rel[i].1);
      if rel[i].0 in seen {
        var j :| 0 <= j < i && rel[..i][j].0 == rel[i].0;
        assert rel[j].0 == rel[i].0;
        return false, scores;
      }
      forall j | 0 <= j < i ensures rel[j].0 != rel[i].0 { assert rel[..i][j].0 in ScoredIds(rel[..i]); }
      scores', seen := scores'[rel[i].0 := rel[i].1], seen + {rel[i].0};
      i := i + 1;
    }
    assert rel[..i] == rel;
    ok := true;
  }

  lemma {:induction false} FreshRowsAreFresh(r0: map<Id, Record>, b: seq<Row>)
    ensures forall i | 0 <= i < |FreshRows(r0, b)| :: Classify(r0, FreshRows(r0, b)[i]).Fresh?
    decreases |b|
  {
    if b != [] { FreshRowsAreFresh(r0, b[..|b| - 1]); }
  }

  lemma {:induction false} InsertedRowsAreFresh(r0: map<Id, Record>, b: seq<Row>)
    requires InsertAll(r0, b).Ok? && FreshIds(r0, b)
    ensures forall i | 0 <= i < |b| && b[i].id in InsertAll(r0, b).value.inserted :: Classify(r0, b[i]).Fresh?
  {
    hide InsertAll;
    forall i | 0 <= i < |b| && b[i].id in InsertAll(r0, b).value.inserted ensures Classify(r0, b[i]).Fresh? {
      var j := InsertedIsRow(r0, b, b[i].id);
      assert i == j;
    }
  }

  lemma {:induction false} CountersAdd(r0: map<Id, Record>, b: seq<Row>)
    requires DistinctIds(b)
    ensures |FreshRows(r0, b)| == CountKinds(r0, b).unseen
    ensures |IdsOfKind(r0, b, true)| == CountKinds(r0, b).conflicts
            && |IdsOfKind(r0, b, false)| == CountKinds(r0, b).same
  {
    FreshRowsCounted(r0, b);
    KindIdsCounted(r0, b, true);
    KindIdsCounted(r0, b, false);
  }

  /** What the phases of a flush rely on. */
  lemma {:induction false} FlushNeeds(st: State, b: seq<Row>)
    requires Valid(st) && FreshIds(st.records, b)
    ensures SourceUnique(st.records) && DistinctIds(b)
    ensures InsertAll(st.records, FreshRows(st.records, b)) == InsertAll(st.records, b)
    ensures forall i | 0 <= i < |FreshRows(st.records, b)| :: Classify(st.records, FreshRows(st.records, b)[i]).Fresh?
    ensures |FreshRows(st.records, b)| == CountKinds(st.records, b).unseen
    ensures |IdsOfKind(st.records, b, true)| == CountKinds(st.records, b).conflicts
    ensures |IdsOfKind(st.records, b, false)| == CountKinds(st.records, b).same
  {
    hide InsertAll, FreshRows, IdsOfKind, CountKinds, Classify;
    FreshRowsInsertAlike(st.records, b);
    FreshRowsAreFresh(st.records, b);
    CountersAdd(st.records, b);
  }

  lemma DistinctFreshIds(r0: map<Id, Record>, b: seq<Row>)
    requires FreshIds(r0, b)
    ensures DistinctIds(b)
  {}

  /** When a flush is refused. */
  lemma {:induction false} FlushRefused(st: State, b: seq<Row>)
    ensures InsertAll(st.records, b).IntegrityError? ==> Flushed(st, b).IntegrityError?
    ensures InsertAll(st.records, b).Ok?
            && !NoRepeats(RelevantScores(st.records, InsertAll(st.records, b).value.inserted, b))
            ==> Flushed(st, b).IntegrityError?
  {
    hide InsertAll, RelevantScores, NoRepeats;
  }

  lemma StaleIds(rel: seq<(Id, Score)>, updated: set<Id>, scored: set<Id>)
    requires scored == set i | 0 <= i < |rel| && rel[i].0 in updated :: rel[i].0
    ensures updated - scored == updated - ScoredIds(rel)
  {}

  lemma {:induction false} NothingToFlush(st: State)
    ensures Flushed(st, []) == Ok(st)
  {
    assert RelevantScores(st.records, {}, []) == [] && ChangedIds(st.records, []) == {};
    var f := Flushed(st, []).value;
    assert f.scores == st.scores && f.issues == st.issues;
  }

  // ---- The rows of a feed, as the run meets them ----

  /** Every record beyond the first store came from one of the rows. */
  ghost predicate OnlyAdds(r0: map<Id, Record>, r: map<Id, Record>, rows: seq<Row>) {
    forall a | a in r && a !in r0 :: exists j | 0 <= j < |rows| :: rows[j].id == a
  }

  lemma {:induction false} RowsArePrefix(outs: seq<Outcome>, i: nat)
    requires i <= |outs|
    ensures RowsOf(outs[..i]) <= RowsOf(outs)
    decreases |outs| - i
  {
    if i < |outs| {
      assert outs[..i + 1][..i] == outs[..i];
      RowsArePrefix(outs, i + 1);
    } else {
      assert outs[..i] == outs;
    }
  }

  /** One more line of the feed. */
  lemma {:induction false} FeedSteps(st: State, outs: seq<Outcome>, i: nat, k: nat)
    requires i < |outs| && !Interrupted(outs[..i])
    ensures FeedAll(st, outs[..i + 1], k) == Feed(FeedAll(st, outs[..i], k), outs[i], k)
    ensures Interrupted(outs[..i + 1]) <==> outs[i].Raises?
    ensures RowsOf(outs[..i + 1]) == RowsOf(outs[..i]) + if outs[i].Ready? then [outs[i].row] else []
    ensures RowsOf(outs[..i + 1]) <= RowsOf(outs)
  {
    assert outs[..i + 1][..i] == outs[..i];
    InterruptedSteps(outs[..i + 1]);
    RowsArePrefix(outs, i + 1);
    hide Feed;
  }

  lemma {:induction false} HaltedStays(st: State, outs: seq<Outcome>, i: nat, k: nat)
    requires i <= |outs| && FeedAll(st, outs[..i], k).halted
    ensures FeedAll(st, outs, k).halted && FeedAll(st, outs, k).state == FeedAll(st, outs[..i], k).state
    decreases |outs| - i
  {
    if i < |outs| {
      assert outs[..i + 1][..i] == outs[..i];
      HaltedStays(st, outs, i + 1, k);
    } else {
      assert outs[..i] == outs;
    }
  }

  lemma {:induction false} BatchIsFresh(r0: map<Id, Record>, r: map<Id, Record>, stored: seq<Row>, b: seq<Row>,
                                        all: seq<Row>)
    requires OnlyAdds(r0, r, stored) && stored + b <= all && FreshIds(r0, all)
    ensures FreshIds(r, b)
  {
    forall i | 0 <= i < |stored| + |b| ensures (stored + b)[i] == all[i] {}
    assert forall i | 0 <= i < |b| :: b[i] == all[|stored| + i];
    assert forall i | 0 <= i < |stored| :: stored[i] == all[i];
  }

  lemma {:induction false} FlushAddsRows(st: State, b: seq<Row>, a: Id) returns (j: nat)
    requires Flushed(st, b).Ok? && a in Flushed(st, b).value.records && a !in st.records
    ensures j < |b| && b[j].id == a
  {
    var done := InsertAll(st.records, b).value;
    InsertedAreRows(st.records, b);
    UpdateKeepsIdentity(st.records, done.records, b);
    hide InsertAll, UpdateAll, RelevantScores, ChangedIds, IssuesOf, CountKinds, Upserted, Classify;
    assert a in done.inserted;
    j :| 0 <= j < |b| && b[j].id == a;
  }

  lemma {:induction false} FlushLeavesValid(st: State, b: seq<Row>, r0: map<Id, Record>, stored: seq<Row>)
    requires Valid(st) && OnlyAdds(r0, st.records, stored)
    ensures Flushed(st, b).Ok? ==> Valid(Flushed(st, b).value) && OnlyAdds(r0, Flushed(st, b).value.records, stored + b)
  {
    if Flushed(st, b).Ok? {
      assert Healthy(Flushed(st, b).value, _ => true) by { FlushKeepsHealthy(st, b, _ => true); }
      hide Flushed, Valid;
      forall a | a in Flushed(st, b).value.records && a !in r0
        ensures exists j | 0 <= j < |stored + b| :: (stored + b)[j].id == a
      {
        if a in st.records {
          var j :| 0 <= j < |stored| && stored[j].id == a;
          assert (stored + b)[j].id == a;
        } else {
          var j := FlushAddsRows(st, b, a);
          assert (stored + b)[|stored| + j].id == a;
        }
      }
    }
  }

  lemma {:induction false} RunIsFeed(st: State, outs: seq<Outcome>, k: nat)
    ensures var p := FeedAll(st, outs, k);
            RunAll(st, outs, k) == if p.halted then p else if p.batch == [] then p else
              match Flushed(p.state, p.batch)
              case Ok(st) => p.(state := st, batch := [])
              case IntegrityError => p.(batch := [], halted := true)
    ensures Flushed(FeedAll(st, outs, k).state, []) == Ok(FeedAll(st, outs, k).state)
  {
    NothingToFlush(FeedAll(st, outs, k).state);
  }

  /** A run that is not halted has counted every line with unknown codes. */
  lemma {:induction false} ErrorsAreUnknown(st: State, outs: seq<Outcome>, k: nat)
    ensures !RunAll(st, outs, k).halted ==> RunAll(st, outs, k).errors == UnknownCount(outs)
  {
    FeedCountsUnknown(st, outs, k);
    hide FeedAll, UnknownCount;
  }

  lemma {:induction false} FeedCountsUnknown(st: State, outs: seq<Outcome>, k: nat)
    ensures !FeedAll(st, outs, k).halted ==> FeedAll(st, outs, k).errors == UnknownCount(outs)
    decreases |outs|
  {
    if outs != [] { FeedCountsUnknown(st, outs[..|outs| - 1], k); }
  }

  lemma {:induction false} LineIsFresh(r0: map<Id, Record>, p: Progress, stored: seq<Row>, row: Row, all: seq<Row>)
    requires OnlyAdds(r0, p.state.records, stored) && stored + p.batch + [row] <= all && FreshIds(r0, all)
    ensures FreshIds(p.state.records, p.batch + [row])
  {
    assert stored + p.batch + [row] == stored + (p.batch + [row]);
    BatchIsFresh(r0, p.state.records, stored, p.batch + [row], all);
  }

  /** The rows stored once a line is taken. */
  lemma {:induction false} FeedStores(p: Progress, o: Outcome, r0: map<Id, Record>, stored: seq<Row>)
    returns (stored': seq<Row>)
    requires Valid(p.state) && OnlyAdds(r0, p.state.records, stored) && !p.halted
    ensures var p' := Feed(p, o, BATCH_SIZE);
            !p'.halted ==> !o.Raises? && Valid(p'.state) && OnlyAdds(r0, p'.state.records, stored')
                           && stored' + p'.batch == stored + p.batch + if o.Ready? then [o.row] else []
  {
    stored' := stored;
    if o.Ready? && |p.batch + [o.row]| >= BATCH_SIZE {
      FlushLeavesValid(p.state, p.batch + [o.row], r0, stored);
      stored' := stored + (p.batch + [o.row]);
      hide Flushed, Valid, OnlyAdds;
    }
  }

  datatype RunStatus = Running | Success | PartialSuccess

  class Run {
    var status: RunStatus
    var records: map<Id, Record>
    var scores: map<Id, Score>
    var issues: seq<Issue>
    var processed: nat
    var success: int
    var errors: nat
    var skipped: int
    var batch: seq<Row>

    constructor (records: map<Id, Record>, scores: map<Id, Score>, issues: seq<Issue>)
      ensures this.records == records && this.scores == scores && this.issues == issues
      ensures processed == 0 && success == 0 && errors == 0 && skipped == 0 && batch == [] && status == Running
    {
      status := Running;
      this.records, this.scores, this.issues := records, scores, issues;
      processed, success, errors, skipped, batch := 0, 0, 0, 0, [];
    }

    ghost function Db(): State
      reads this
    {
      State(records, scores, issues, success, skipped)
    }

    /** The stored rows whose source occurs in the batch, by source. */
    method ExistingBySource() returns (existing: map<Source, Id>)
      requires SourceUnique(records)
      ensures forall i | 0 <= i < |batch| ::
                if batch[i].source in existing then IdOf(records, batch[i].source) == Some(existing[batch[i].source])
                else IdOf(records, batch[i].source) == None
    {
      var keys := set i | 0 <= i < |batch| :: batch[i].source;
      existing := map[];
      var todo := records.Keys;
      while todo != {}
        invariant todo <= records.Keys
        invariant forall s | s in existing :: existing[s] in records && records[existing[s]].source == s
        invariant forall a | a in records.Keys - todo && records[a].source in keys :: records[a].source in existing
      {
        var a :| a in todo;
        if records[a].source in keys { existing := existing[records[a].source := a]; }
        todo := todo - {a};
      }
      forall i | 0 <= i < |batch|
        ensures if batch[i].source in existing then IdOf(records, batch[i].source) == Some(existing[batch[i].source])
                else IdOf(records, batch[i].source) == None
      {
        assert batch[i].source in keys;
        if batch[i].source in existing { IdOfIs(records, existing[batch[i].source]); }
      }
    }

    /** Sorts the batch into rows to insert, rows to update, unchanged rows and identity conflicts. */
    method ClassifyBatch()
      returns (toInsert: seq<Row>, toUpdate: seq<(Id, Row)>, sames: set<Id>, conflicts: set<Id>, remap: map<Id, Id>)
      requires SourceUnique(records) && DistinctIds(batch)
      ensures toInsert == FreshRows(records, batch) && toUpdate == ChangedRows(records, batch)
      ensures sames == IdsOfKind(records, batch, false) && conflicts == IdsOfKind(records, batch, true)
      ensures Remaps(records, batch, remap) && remap.Values == ChangedIds(records, batch)
    {
      var existing := ExistingBySource();
      toInsert, toUpdate, sames, conflicts, remap := [], [], {}, {}, map[];
      var i := 0;
      while i < |batch|
        invariant 0 <= i <= |batch| && Grouped(records, batch[..i], toInsert, toUpdate, sames, conflicts, remap)
      {
        hide Grouped, DistinctIds, SourceUnique, ContentChanged;
        var rec := batch[i];
        GroupedOneMore(records, batch, i, toInsert, toUpdate, sames, conflicts, remap);
        if rec.source !in existing {
          toInsert := toInsert + [rec];
        } else {
          var a := existing[rec.source];
          if records[a].key != rec.key {
            conflicts := conflicts + {rec.id};
          } else if ContentChanged(records[a].content, rec.content) {
            toUpdate := toUpdate + [(a, rec)];
            remap := remap[rec.id := a];
          } else {
            sames := sames + {rec.id};
          }
        }
        i := i + 1;
      }
      assert batch[..i] == batch;
    }

    /** The scores of the inserted rows, and those of the updated rows under the stored id. */
    method CollectScores(inserted: set<Id>, remap: map<Id, Id>) returns (rel: seq<(Id, Score)>)
      requires Remaps(records, batch, remap)
      ensures rel == RelevantScores(records, inserted, batch)
    {
      rel := [];
      var i := 0;
      while i < |batch|
        invariant 0 <= i <= |batch|
        invariant rel == RelevantScores(records, inserted, batch[..i])
      {
        var row := batch[i];
        assert batch[..i + 1] == batch[..i] + [row];
        ScoresGrow(records, inserted, batch[..i], row);
        hide RelevantScores;
        if row.score.Some? {
          if row.id in inserted {
            rel := rel + [(row.id, row.score.value)];
          } else if row.id in remap {
            rel := rel + [(remap[row.id], row.score.value)];
          }
        }
        i := i + 1;
      }
      assert batch[..i] == batch;
    }

    /** The data-quality issues of the batch. */
    method CollectIssues(sames: set<Id>, inserted: set<Id>, remap: map<Id, Id>, conflicts: set<Id>)
      returns (found: seq<Issue>)
      requires Remaps(records, batch, remap) && DistinctIds(batch)
      requires sames == IdsOfKind(records, batch, false) && conflicts == IdsOfKind(records, batch, true)
      requires forall i | 0 <= i < |batch| && batch[i].id in inserted :: Classify(records, batch[i]).Fresh?
      ensures found == IssuesOf(records, inserted, batch)
    {
      KindIds(records, batch, false);
      KindIds(records, batch, true);
      found := [];
      var i := 0;
      while i < |batch|
        invariant 0 <= i <= |batch|
        invariant found == IssuesOf(records, inserted, batch[..i])
      {
        hide IdsOfKind, DistinctIds, IssuesOf, Classify;
        var row, status := batch[i], batch[i].content.status;
        assert batch[..i + 1] == batch[..i] + [row];
        IssuesGrow(records, inserted, batch[..i], row);
        if row.id in sames {
        } else if row.id in inserted {
          if status != Complete { found := found + [Issue(Some(row.id), status, row.source)]; }
        } else if row.id in remap {
          found := found + [Issue(Some(remap[row.id]), if status != Complete then status else Reprocessed, row.source)];
        } else if row.id in conflicts {
          found := found + [Issue(None, Suspicious, row.source)];
        } else {
          found := found + [Issue(None, Duplicate, row.source)];
        }
        i := i + 1;
      }
      assert batch[..i] == batch;
    }

    /** The INSERT and the UPDATEs of a flush, with the groups they came from. */
    method StoreRows() returns (r: Result<Insertion>, stored: map<Id, Record>, updated: set<Id>, unseen: int,
                                sames: set<Id>, conflicts: set<Id>, remap: map<Id, Id>)
      requires Valid(Db()) && FreshIds(records, batch)
      ensures r == InsertAll(records, batch)
      ensures r.Ok? ==> stored == UpdateAll(records, r.value.records, batch) && updated == ChangedIds(records, batch)
      ensures unseen == CountKinds(records, batch).unseen
      ensures sames == IdsOfKind(records, batch, false) && |sames| == CountKinds(records, batch).same
      ensures conflicts == IdsOfKind(records, batch, true) && |conflicts| == CountKinds(records, batch).conflicts
      ensures Remaps(records, batch, remap) && remap.Values == ChangedIds(records, batch)
    {
      hide InsertAll, UpdateAll, RelevantScores, CountKinds, ChangedIds, FreshRows, ChangedRows,
           IdsOfKind, Valid, FreshIds, DistinctIds, SourceUnique, Remaps, NoRepeats, Classify, Flushed;
      FlushNeeds(Db(), batch);
      var toInsert, toUpdate;
      toInsert, toUpdate, sames, conflicts, remap := ClassifyBatch();
      unseen := |toInsert|;
      r := InsertRows(records, toInsert);
      stored, updated := records, {};
      if r.Ok? { stored, updated := UpdateRows(records, batch, r.value.records, toUpdate); }
    }

    /** The scores of a flush: the upsert, then the removal of stale ones. */
    method StoreScores(inserted: set<Id>, remap: map<Id, Id>) returns (ok: bool, stored: map<Id, Score>)
      requires Remaps(records, batch, remap) && remap.Values == ChangedIds(records, batch)
      ensures var rel := RelevantScores(records, inserted, batch);
              && (ok <==> NoRepeats(rel))
              && (ok ==> stored == Upserted(scores, rel) - (ChangedIds(records, batch) - ScoredIds(rel)))
    {
      hide RelevantScores, ChangedIds, Remaps, NoRepeats, ScoredIds, Upserted;
      var rel := CollectScores(inserted, remap);
      ok, stored := UpsertScores(scores, rel);
      var scored := set i | 0 <= i < |rel| && rel[i].0 in remap.Values :: rel[i].0;
      assert remap.Values - scored == ChangedIds(records, batch) - ScoredIds(rel) by {
        StaleIds(rel, remap.Values, scored);
      }
      stored := stored - (remap.Values - scored);
    }

    /** One flush.  An integrity error rolls the tables back and ends the run. */
    method Flush() returns (ok: bool)
      requires Valid(Db()) && FreshIds(records, batch)
      modifies this`records, this`scores, this`issues, this`success, this`skipped, this`batch
      ensures ok <==> Flushed(old(Db()), old(batch)).Ok?
      ensures ok ==> Db() == Flushed(old(Db()), old(batch)).value && batch == []
      ensures !ok ==> records == old(records) && scores == old(scores) && issues == old(issues)
    {
      hide InsertAll, UpdateAll, RelevantScores, IssuesOf, CountKinds, ChangedIds, Upserted, FreshRows,
           IdsOfKind, Valid, FreshIds, DistinctIds, SourceUnique, Remaps, NoRepeats, ScoredIds, Classify, Flushed;
      hide KeyUnique, OfKind;
      if |batch| == 0 {
        NothingToFlush(Db());
        return true;
      }
      ghost var st, b := Db(), batch;
      FlushRefused(st, b);
      var r, storedRecords, updated, unseen, sames, conflicts, remap := StoreRows();
      if r.IntegrityError? { return false; }
      var inserted := r.value.inserted;
      skipped := skipped + (unseen - |inserted|) + |conflicts|;
      success := success + |inserted| + |updated| + |sames|;
      var storedScores;
      ok, storedScores := StoreScores(inserted, remap);
      if !ok { return; }
      DistinctFreshIds(records, batch);
      InsertedRowsAreFresh(records, batch);
      var found := CollectIssues(sames, inserted, remap, conflicts);
      records, scores, issues, batch := storedRecords, storedScores, issues + found, [];
      FlushFromPhases(st, b, r.value, RelevantScores(st.records, inserted, b), Db());
    }

    /** Where the run stands. */
    ghost function Standing(): Progress
      reads this
    {
      Progress(Db(), batch, processed, errors, false)
    }

    /** One line: unknown codes are counted and passed over, an exception ends the run, and every
        BATCH_SIZE rows are flushed. */
    method TakeLine(o: Outcome) returns (going: bool)
      requires Valid(Db()) && (o.Ready? ==> FreshIds(records, batch + [o.row]))
      modifies this
      ensures var p := Feed(old(Standing()), o, BATCH_SIZE);
              && (going <==> !p.halted)
              && (going ==> Standing() == p)
              && records == p.state.records && scores == p.state.scores && issues == p.state.issues
      ensures status == old(status)
    {
      hide Flushed, Valid, FreshIds;
      processed := processed + 1;
      match o {
        case Unknown => errors := errors + 1;
        case Raises => return false;
        case Ready(row) =>
          batch := batch + [row];
          if |batch| >= BATCH_SIZE {
            var ok := Flush();
            return ok;
          }
      }
      return true;
    }

    /** After `i` lines the run stands where the run function does; `stored` are the rows flushed. */
    ghost predicate FedTo(s0: State, outs: seq<Outcome>, i: nat, stored: seq<Row>)
      reads this
    {
      && i <= |outs| && Valid(Db()) && !Interrupted(outs[..i])
      && FeedAll(s0, outs[..i], BATCH_SIZE) == Standing()
      && RowsOf(outs[..i]) == stored + batch && OnlyAdds(s0.records, records, stored)
    }

    /** The next line of the feed. */
    method FeedNext(o: Outcome, ghost s0: State, ghost outs: seq<Outcome>, ghost i: nat, ghost stored: seq<Row>)
      returns (going: bool, ghost stored': seq<Row>)
      requires i < |outs| && o == outs[i] && FreshIds(s0.records, RowsOf(outs)) && FedTo(s0, outs, i, stored)
      modifies this
      ensures status == old(status)
      ensures going ==> FedTo(s0, outs, i + 1, stored')
      ensures !going ==>
                var p := FeedAll(s0, outs, BATCH_SIZE);
                p.halted && records == p.state.records && scores == p.state.scores && issues == p.state.issues
    {
      hide Feed, FeedAll, RowsOf, Interrupted, Flushed, Valid, FreshIds, OnlyAdds;
      FeedSteps(s0, outs, i, BATCH_SIZE);
      if o.Ready? { LineIsFresh(s0.records, Standing(), stored, o.row, RowsOf(outs)); }
      stored' := FeedStores(Standing(), o, s0.records, stored);
      going := TakeLine(o);
      if !going { HaltedStays(s0, outs, i + 1, BATCH_SIZE); }
    }

    /** The lines of the feed, one after the other. */
    method FeedLines(L: Lookups, system: string, raws: seq<Raw>, ids: seq<Id>)
      returns (going: bool, ghost stored: seq<Row>)
      requires |ids| == |raws|
      requires batch == [] && processed == 0 && errors == 0 && success == 0 && skipped == 0
      requires Valid(Db()) && FreshIds(records, RowsOf(ResolveAll(L, system, raws, ids)))
      modifies this
      ensures status == old(status)
      ensures var outs := ResolveAll(L, system, raws, ids);
              var p := FeedAll(old(Db()), outs, BATCH_SIZE);
              && (going <==> !p.halted)
              && (going ==> FedTo(old(Db()), outs, |outs|, stored) && outs[..|outs|] == outs)
              && records == p.state.records && scores == p.state.scores && issues == p.state.issues
    {
      ghost var s0, outs := Db(), ResolveAll(L, system, raws, ids);
      stored := [];
      var i := 0;
      assert FedTo(s0, outs, 0, []);
      hide FedTo, FeedAll, RowsOf, Valid, FreshIds, Resolve, ResolveAll;
      while i < |raws|
        invariant 0 <= i <= |raws| && FedTo(s0, outs, i, stored) && status == old(status)
      {
        going, stored := FeedNext(Resolve(L, system, raws[i], ids[i]), s0, outs, i, stored);
        if !going { return; }
        i := i + 1;
      }
      assert outs[..i] == outs;
      FedToTheEnd(s0, outs, stored);
      going := true;
    }

    lemma FedToTheEnd(s0: State, outs: seq<Outcome>, stored: seq<Row>)
      requires FedTo(s0, outs, |outs|, stored)
      ensures outs[..|outs|] == outs && FeedAll(s0, outs, BATCH_SIZE) == Standing()
    {
      assert outs[..|outs|] == outs;
    }

    /** The whole run.  A run that an exception ends is left RUNNING; a finished one is a success only
        if every line's codes were known. */
    method Ingest(L: Lookups, system: string, raws: seq<Raw>, ids: seq<Id>) returns (completed: bool)
      requires |ids| == |raws|
      requires batch == [] && processed == 0 && errors == 0 && success == 0 && skipped == 0 && status == Running
      requires Valid(Db()) && FreshIds(records, RowsOf(ResolveAll(L, system, raws, ids)))
      modifies this
      ensures var p := RunAll(old(Db()), ResolveAll(L, system, raws, ids), BATCH_SIZE);
              && (completed <==> !p.halted)
              && (completed ==> Standing() == p)
              && records == p.state.records && scores == p.state.scores && issues == p.state.issues
              && status == if !completed then Running
                           else if UnknownCount(ResolveAll(L, system, raws, ids)) == 0 then Success
                           else PartialSuccess
    {
      hide FeedAll, RowsOf, Interrupted, Flushed, Valid, FreshIds, OnlyAdds, Resolve, ResolveAll, RunAll;
      ghost var s0, outs := Db(), ResolveAll(L, system, raws, ids);
      ghost var stored;
      completed, stored := FeedLines(L, system, raws, ids);
      if completed { FedToTheEnd(s0, outs, stored); }
      RunIsFeed(s0, outs, BATCH_SIZE);
      if completed {
        BatchIsFresh(s0.records, records, stored, batch, RowsOf(outs));
        completed := Flush();
      }
      if completed {
        ErrorsAreUnknown(s0, outs, BATCH_SIZE);
        status := if errors == 0 then Success else PartialSuccess;
      }
    }
  }
}
