/** Running a feed a second time: the store stays as the first run left it. */
module IngestionRerun {
  import opened IngestionFlush
  import opened IngestionRun
  import opened IngestionStore
  import opened Options

  /** The stored record and score of the row's source are those this row would write. */
  ghost predicate Settled(st: State, row: Row) {
    match Classify(st.records, row)
    case Fresh => KeyTaken(st.records, row.key)
    case Conflict(_) => true
    case Changed(a) =>
      && st.records[a].content == Stored(row.content)
      && (row.score.Some? ==> a in st.scores && st.scores[a] == row.score.value)
      && (row.score.None? ==> a !in st.scores)
    case Same(_) => true
  }

  /** The row ends up counted as a success. */
  ghost predicate Accepted(st: State, row: Row) {
    Classify(st.records, row).Changed? || Classify(st.records, row).Same?
  }

  /** A settled row changes nothing but the counters and the issues, under any new id. */
  lemma {:induction false} SettledRowIsNoop(st: State, row: Row)
    requires Settled(st, row)
    ensures ApplyRow(st, row).records == st.records && ApplyRow(st, row).scores == st.scores
    ensures ApplyRow(st, row).success == st.success + (if Accepted(st, row) then 1 else 0)
    ensures ApplyRow(st, row).skipped == st.skipped + (if Accepted(st, row) then 0 else 1)
  {}

  ghost predicate SettledBy(st: State, st': State, row: Row) {
    && Settled(st', row)
    && st'.success == st.success + (if Accepted(st', row) then 1 else 0)
    && st'.skipped == st.skipped + (if Accepted(st', row) then 0 else 1)
  }

  lemma {:induction false} FreshRowSettles(st: State, row: Row)
    requires Valid(st) && row.id !in st.records && Classify(st.records, row).Fresh?
    ensures SettledBy(st, ApplyRow(st, row), row)
  {
    ApplyRowKeepsValid(st, row);
    if !KeyTaken(st.records, row.key) { IdOfIs(ApplyRow(st, row).records, row.id); }
    hide SourceUnique, KeyUnique;
  }

  lemma {:induction false} StoredRowSettles(st: State, row: Row)
    requires Valid(st) && row.id !in st.records && !Classify(st.records, row).Fresh?
    ensures SettledBy(st, ApplyRow(st, row), row)
  {
    var a := Classify(st.records, row).id;
    ApplyRowKeepsValid(st, row);
    IdOfIs(ApplyRow(st, row).records, a);
    hide SourceUnique, KeyUnique, SourceTaken, KeyTaken;
  }

  /** Feeding a row settles it, and counts it as it will be counted again. */
  lemma {:induction false} ApplyRowSettles(st: State, row: Row)
    requires Valid(st) && row.id !in st.records
    ensures SettledBy(st, ApplyRow(st, row), row)
  {
    if Classify(st.records, row).Fresh? { FreshRowSettles(st, row); } else { StoredRowSettles(st, row); }
  }

  lemma {:induction false} KeyStaysTaken(st: State, row: Row, k: Key)
    requires row.id !in st.records && KeyTaken(st.records, k)
    ensures KeyTaken(ApplyRow(st, row).records, k)
  {
    ApplyRowKeepsIdentity(st, row);
    var a :| a in st.records && st.records[a].key == k;
    assert a in ApplyRow(st, row).records && ApplyRow(st, row).records[a].key == k;
  }

  /** A settled row stays settled while rows of other sources are fed. */
  lemma {:induction false} OtherRowKeepsSettled(st: State, row: Row, settled: Row)
    requires Valid(st) && row.id !in st.records && row.source != settled.source && Settled(st, settled)
    ensures Settled(ApplyRow(st, row), settled) && (Accepted(ApplyRow(st, row), settled) <==> Accepted(st, settled))
  {
    OtherSourceUntouched(st, row, settled.source);
    if KeyTaken(st.records, settled.key) { KeyStaysTaken(st, row, settled.key); }
    hide ApplyRow, KeyTaken, IdOf;
  }

  /** How many of the rows are counted as successes. */
  ghost function CountAccepted(st: State, rows: seq<Row>): nat
    decreases |rows|
  {
    if rows == [] then 0
    else CountAccepted(st, rows[..|rows| - 1]) + if Accepted(st, rows[|rows| - 1]) then 1 else 0
  }

  lemma {:induction false} SameAccepted(st: State, st': State, rows: seq<Row>)
    requires forall i | 0 <= i < |rows| :: Accepted(st', rows[i]) <==> Accepted(st, rows[i])
    ensures CountAccepted(st', rows) == CountAccepted(st, rows)
    decreases |rows|
  {
    if rows != [] {
      var front := rows[..|rows| - 1];
      assert forall i | 0 <= i < |front| :: front[i] == rows[i];
      SameAccepted(st, st', front);
    }
  }

  ghost predicate AllSettled(st: State, rows: seq<Row>) {
    forall i | 0 <= i < |rows| :: Settled(st, rows[i])
  }

  lemma {:induction false} OneMoreSettled(mid: State, front: seq<Row>, row: Row)
    requires Valid(mid) && row.id !in mid.records && AllSettled(mid, front) && DistinctSources(front + [row])
    ensures AllSettled(ApplyRow(mid, row), front + [row])
    ensures CountAccepted(ApplyRow(mid, row), front) == CountAccepted(mid, front)
  {
    var st', rows := ApplyRow(mid, row), front + [row];
    ApplyRowSettles(mid, row);
    hide Settled, Accepted, ApplyRow, Valid;
    forall i | 0 <= i < |front|
      ensures Settled(st', rows[i]) && (Accepted(st', front[i]) <==> Accepted(mid, front[i]))
    {
      assert Settled(mid, front[i]) && rows[i] == front[i] && rows[|front|] == row;
      OtherRowKeepsSettled(mid, row, front[i]);
    }
    SameAccepted(mid, st', front);
  }

  lemma {:induction false} ApplyAllSettles(st: State, rows: seq<Row>)
    requires Valid(st) && FreshIds(st.records, rows) && DistinctSources(rows)
    ensures var st' := ApplyAll(st, rows);
            && AllSettled(st', rows)
            && st'.success == st.success + CountAccepted(st', rows)
            && st'.skipped == st.skipped + |rows| - CountAccepted(st', rows)
    decreases |rows|
  {
    if rows != [] {
      var front, row := rows[..|rows| - 1], rows[|rows| - 1];
      assert rows == front + [row];
      LastRowIsApart(st.records, front, row);
      ApplyAllSettles(st, front);
      var mid := ApplyAll(st, front);
      assert Valid(mid) && row.id !in mid.records by { ApplyAllKeepsIdentity(st, front); }
      hide Settled, Accepted, ApplyRow, Valid, FreshIds, DistinctSources, AllSettled;
      ApplyRowSettles(mid, row);
      OneMoreSettled(mid, front, row);
    }
  }

  /** Feeding settled rows in any state that agrees on records and scores leaves both alone. */
  lemma {:induction false} SettledRowsAreNoop(st: State, rows: seq<Row>)
    requires AllSettled(st, rows)
    ensures var st' := ApplyAll(st, rows);
            && st'.records == st.records && st'.scores == st.scores
            && st'.success == st.success + CountAccepted(st, rows)
            && st'.skipped == st.skipped + |rows| - CountAccepted(st, rows)
    decreases |rows|
  {
    if rows != [] {
      var front, row := rows[..|rows| - 1], rows[|rows| - 1];
      assert forall i | 0 <= i < |front| :: front[i] == rows[i];
      SettledRowsAreNoop(st, front);
      assert Settled(st, row);
      SettledRowIsNoop(ApplyAll(st, front), row);
      hide ApplyRow;
    }
  }

  /** The same feed resolved again: only the ids the rows would be inserted under are new. */
  ghost predicate SameFeed(outs: seq<Outcome>, outs': seq<Outcome>) {
    |outs'| == |outs| && forall i | 0 <= i < |outs| :: SameLine(outs[i], outs'[i])
  }

  predicate SameLine(o: Outcome, o': Outcome) {
    if o.Ready? then o'.Ready? && o'.row == o.row.(id := o'.row.id) else o' == o
  }

  ghost predicate SameRows(rows: seq<Row>, rows': seq<Row>) {
    |rows'| == |rows| && forall i | 0 <= i < |rows| :: rows'[i] == rows[i].(id := rows'[i].id)
  }

  lemma {:induction false} SameFeedSameRows(outs: seq<Outcome>, outs': seq<Outcome>)
    requires SameFeed(outs, outs') && !Interrupted(outs)
    ensures SameRows(RowsOf(outs), RowsOf(outs')) && UnknownCount(outs') == UnknownCount(outs) && !Interrupted(outs')
    decreases |outs|
  {
    forall i | 0 <= i < |outs| ensures !outs'[i].Raises? {
      assert SameLine(outs[i], outs'[i]) && !outs[i].Raises?;
    }
    if outs != [] {
      var n := |outs| - 1;
      assert forall i | 0 <= i < n :: outs[..n][i] == outs[i] && outs'[..n][i] == outs'[i];
      SameFeedSameRows(outs[..n], outs'[..n]);
      assert SameLine(outs[n], outs'[n]);
    }
  }

  lemma {:induction false} IdDoesNotMatter(st: State, row: Row, id: Id)
    ensures Settled(st, row.(id := id)) <==> Settled(st, row)
    ensures Accepted(st, row.(id := id)) <==> Accepted(st, row)
  {}

  lemma {:induction false} IdsDoNotMatter(st: State, rows: seq<Row>, rows': seq<Row>)
    requires SameRows(rows, rows') && AllSettled(st, rows)
    ensures AllSettled(st, rows') && CountAccepted(st, rows') == CountAccepted(st, rows)
    decreases |rows|
  {
    hide Settled, Accepted;
    if rows != [] {
      var n := |rows| - 1;
      assert forall i | 0 <= i < n :: rows[..n][i] == rows[i] && rows'[..n][i] == rows'[i];
      IdsDoNotMatter(st, rows[..n], rows'[..n]);
      assert Settled(st, rows[n]) && rows'[n] == rows[n].(id := rows'[n].id);
      IdDoesNotMatter(st, rows[n], rows'[n].id);
      forall i | 0 <= i < |rows'| ensures Settled(st, rows'[i]) {
        assert i < n ==> Settled(st, rows'[..n][i]);
      }
    }
  }

  /** Running the same feed again, in batches of any size, leaves records and scores exactly as
      they were and reports the same counts, even where storage rounding makes a row look changed
      and sends it through the update path. */
  lemma {:induction false} RerunChangesNothing(st: State, outs: seq<Outcome>, k: nat, outs': seq<Outcome>, k': nat)
    requires k > 0 && k' > 0 && Valid(st) && !Interrupted(outs) && SameFeed(outs, outs')
    requires FreshIds(st.records, RowsOf(outs)) && DistinctSources(RowsOf(outs))
    requires FreshIds(RunAll(st, outs, k).state.records, RowsOf(outs'))
    ensures var p := RunAll(st, outs, k);
            var p' := RunAll(p.state, outs', k');
            && p'.state.records == p.state.records && p'.state.scores == p.state.scores
            && p'.state.success == p.state.success && p'.state.skipped == p.state.skipped
            && p'.errors == p.errors && p'.processed == p.processed && !p'.halted
  {
    var rows, rows' := RowsOf(outs), RowsOf(outs');
    SameFeedSameRows(outs, outs');
    RunRefinesOneByOne(st, outs, k);
    var s1 := RunAll(st, outs, k).state;
    ApplyAllKeepsIdentity(Start(st).state, rows);
    ApplyAllSettles(Start(st).state, rows);
    hide Settled, Accepted, RunAll, RowsOf, ApplyAll, Flushed, UnknownCount, FeedAll;
    forall i, j | 0 <= i < j < |rows'| ensures rows'[i].source != rows'[j].source {
      assert rows'[i].source == rows[i].source && rows'[j].source == rows[j].source;
    }
    RunRefinesOneByOne(s1, outs', k');
    RestartKeepsSettled(s1, rows);
    IdsDoNotMatter(Start(s1).state, rows, rows');
    SettledRowsAreNoop(Start(s1).state, rows');
  }

  lemma {:induction false} RestartKeepsSettled(st: State, rows: seq<Row>)
    requires AllSettled(st, rows)
    ensures AllSettled(Start(st).state, rows) && CountAccepted(Start(st).state, rows) == CountAccepted(st, rows)
  {
    forall i | 0 <= i < |rows| ensures Settled(Start(st).state, rows[i]) { assert Settled(st, rows[i]); }
    SameAccepted(st, Start(st).state, rows);
  }
}
