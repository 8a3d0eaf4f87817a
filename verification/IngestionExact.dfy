/** Exactly which batches a flush treats as the one-row-at-a-time ingester does, repeated sources
    or not. */
module IngestionExact {
  import opened IngestionCommit
  import opened IngestionFlush
  import opened IngestionHistory
  import opened IngestionLaws
  import opened IngestionRun
  import opened IngestionStore
  import opened Options

  /** Row `i` of the batch changes how the later `row` of the same source should be treated: row `i`
      is inserted, or it updates the stored record and `row` is another update of it, or `row` is
      what was stored before but not what row `i` leaves stored. */
  ghost predicate Disturbs(r0: map<Id, Record>, b: seq<Row>, i: nat, row: Row)
    requires i < |b|
  {
    && b[i].source == row.source
    && (BringsKey(r0, b, i) || (Classify(r0, b[i]).Changed? && UnlikeAfter(r0, b[i].content, row)))
  }

  ghost predicate UnlikeAfter(r0: map<Id, Record>, written: Content, row: Row) {
    Classify(r0, row).Changed? || (Classify(r0, row).Same? && ContentChanged(Stored(written), row.content))
  }

  ghost predicate Independent(r0: map<Id, Record>, b: seq<Row>) {
    forall i, j | 0 <= i < j < |b| :: !Disturbs(r0, b, i, b[j])
  }

  lemma {:induction false} IndependentSteps(r0: map<Id, Record>, front: seq<Row>, row: Row)
    ensures Independent(r0, front + [row]) <==>
              Independent(r0, front) && forall i | 0 <= i < |front| :: !Disturbs(r0, front, i, row)
  {
    var b := front + [row];
    BringsKeyPrefix(r0, front, row);
    assert b[|front|] == row;
    forall i, j | 0 <= i < |front| && i < j < |b| ensures Disturbs(r0, b, i, b[j]) <==> Disturbs(r0, front, i, b[j]) {
      assert b[i] == front[i];
    }
    hide Disturbs;
    assert forall i | 0 <= i < |front| :: b[i] == front[i];
    if Independent(r0, b) {
      forall i | 0 <= i < |front| ensures !Disturbs(r0, front, i, row) { assert !Disturbs(r0, b, i, b[|front|]); }
      forall i, j | 0 <= i < j < |front| ensures !Disturbs(r0, front, i, front[j]) { assert !Disturbs(r0, b, i, b[j]); }
    } else {
      var i, j :| 0 <= i < j < |b| && Disturbs(r0, b, i, b[j]);
      assert Disturbs(r0, front, i, b[j]);
    }
  }

  // ---- Independent rows: the flush is one by one ----

  /** After the flush of `front`, stored records are updated by the last row that changes them. */
  lemma {:induction false} StoredNow(st: State, front: seq<Row>, a: Id)
    requires Flushed(st, front) == Ok(ApplyAll(st, front)) && a in st.records
    ensures var S, i := ApplyAll(st, front), LastUpdate(st.records, front, a);
            && a in S.records && S.records[a].key == st.records[a].key && S.records[a].source == st.records[a].source
            && S.records[a].content == if i.Some? then Stored(front[i.value].content) else st.records[a].content
  {
    FlushInserts(st, front);
    InsertedAreRows(st.records, front);
    CommittedAt(st, front, a);
  }

  lemma {:induction false} StoredStandsAlike(st: State, front: seq<Row>, row: Row)
    requires Valid(st) && Flushed(st, front) == Ok(ApplyAll(st, front)) && Valid(ApplyAll(st, front))
    requires !Classify(st.records, row).Fresh? && forall i | 0 <= i < |front| :: !Disturbs(st.records, front, i, row)
    ensures Classify(ApplyAll(st, front).records, row) == Classify(st.records, row)
    ensures Classify(st.records, row).Changed? ==> Classify(st.records, row).id !in ChangedIds(st.records, front)
  {
    var r0, S := st.records, ApplyAll(st, front);
    var a := IdOf(r0, row.source).value;
    var i := LastUpdate(r0, front, a);
    StoredNow(st, front, a);
    IdOfIs(S.records, a);
    if i.Some? {
      assert front[i.value].source == row.source;
      assert !Disturbs(r0, front, i.value, row);
    }
    hide ApplyAll, Flushed, ContentChanged, SourceUnique, KeyUnique;
    if a in ChangedIds(r0, front) { ChangedHasLast(r0, front, a); }
  }

  lemma {:induction false} ChangedHasLast(r0: map<Id, Record>, b: seq<Row>, a: Id)
    requires a in ChangedIds(r0, b)
    ensures LastUpdate(r0, b, a).Some?
  {
    ChangedIdsAreRows(r0, b, a);
  }

  lemma {:induction false} NewSourceStaysNew(st: State, front: seq<Row>, row: Row)
    requires FreshIds(st.records, front) && InsertAll(st.records, front).Ok? && Classify(st.records, row).Fresh?
    requires forall i | 0 <= i < |front| :: !Disturbs(st.records, front, i, row)
    ensures !SourceTaken(InsertAll(st.records, front).value.records, row.source)
  {
    var r0, done := st.records, InsertAll(st.records, front).value;
    InsertsExactlyWhen(r0, front);
    SourceTakenByRows(r0, front, done, row.source);
    hide InsertAll, BringsKey, FreshIds;
    forall i | 0 <= i < |front| && front[i].source == row.source ensures !BringsKey(r0, front, i) {
      assert !Disturbs(r0, front, i, row);
    }
  }

  lemma {:induction false} TakenAlike(st: State, front: seq<Row>, row: Row)
    requires Flushed(st, front) == Ok(ApplyAll(st, front))
    ensures var S, done := ApplyAll(st, front), InsertAll(st.records, front).value;
            && InsertAll(st.records, front).Ok?
            && (KeyTaken(S.records, row.key) <==> KeyTaken(done.records, row.key))
            && (SourceTaken(S.records, row.source) <==> SourceTaken(done.records, row.source))
  {
    hide *;
    FlushedRecords(st, front);
    TakenAfterUpdates(st.records, InsertAll(st.records, front).value.records, front, row.key, row.source);
  }

  lemma {:induction false} NewIdStaysNew(r0: map<Id, Record>, front: seq<Row>, row: Row)
    requires FreshIds(r0, front + [row]) && InsertAll(r0, front).Ok?
    ensures row.id !in r0 && row.id !in InsertAll(r0, front).value.records && row.id !in ChangedIds(r0, front)
  {
    hide *;
    RowsApart(r0, front, row);
    InsertedAreRows(r0, front);
    RelevantTargets(r0, {}, front);
  }

  lemma {:induction false} UndisturbedStandsAlike(st: State, front: seq<Row>, row: Row)
    requires Valid(st) && FreshIds(st.records, front + [row]) && Flushed(st, front) == Ok(ApplyAll(st, front))
    requires forall i | 0 <= i < |front| :: !Disturbs(st.records, front, i, row)
    ensures InsertAll(st.records, front).Ok? && StandsAlike(st, front, row)
  {
    TakenAlike(st, front, row);
    NewIdStaysNew(st.records, front, row);
    hide Flushed, InsertAll, ApplyAll, ChangedIds, Classify, KeyTaken, SourceTaken, Disturbs, FreshIds, Valid;
    RowsApart(st.records, front, row);
    if Classify(st.records, row).Fresh? {
      NewSourceStaysNew(st, front, row);
      UntakenIsFresh(ApplyAll(st, front).records, row);
    } else {
      ApplyAllKeepsIdentity(st, front);
      StoredStandsAlike(st, front, row);
    }
  }

  lemma UntakenIsFresh(records: map<Id, Record>, row: Row)
    ensures Classify(records, row).Fresh? <==> !SourceTaken(records, row.source)
  {}

  lemma FlushedRecords(st: State, b: seq<Row>)
    requires Flushed(st, b).Ok?
    ensures InsertAll(st.records, b).Ok?
    ensures Flushed(st, b).value.records == UpdateAll(st.records, InsertAll(st.records, b).value.records, b)
  {}

  lemma {:induction false} IndependentIsOneByOne(st: State, b: seq<Row>)
    requires Valid(st) && FreshIds(st.records, b) && Independent(st.records, b)
    ensures Flushed(st, b) == Ok(ApplyAll(st, b))
    decreases |b|
  {
    if b == [] {
      FlushNothing(st);
      return;
    }
    var front, row := b[..|b| - 1], b[|b| - 1];
    assert front + [row] == b;
    hide Independent, Disturbs, Flushed, FreshIds, StandsAlike, Valid;
    IndependentSteps(st.records, front, row);
    RowsApart(st.records, front, row);
    IndependentIsOneByOne(st, front);
    UndisturbedStandsAlike(st, front, row);
    FlushOneMore(st, front, row);
  }

  // ---- Rows that disturb each other: counters or issues differ ----

  /** The same records under the same sources and identity fields. */
  ghost predicate SameIdentity(m: map<Id, Record>, m': map<Id, Record>) {
    m.Keys == m'.Keys && forall a | a in m :: m[a].source == m'[a].source && m[a].key == m'[a].key
  }

  lemma {:induction false} SameTaken(m: map<Id, Record>, m': map<Id, Record>, k: Key, s: Source)
    requires SameIdentity(m, m')
    ensures KeyTaken(m, k) <==> KeyTaken(m', k)
    ensures SourceTaken(m, s) <==> SourceTaken(m', s)
  {}

  /** As long as the INSERT goes through, one by one the same rows are inserted. */
  lemma {:induction false} SameInserted(st: State, b: seq<Row>)
    requires Valid(st) && FreshIds(st.records, b) && InsertAll(st.records, b).Ok?
    ensures SameIdentity(ApplyAll(st, b).records, InsertAll(st.records, b).value.records) && Valid(ApplyAll(st, b))
    decreases |b|
  {
    ApplyAllKeepsIdentity(st, b);
    if b == [] { return; }
    var front, row := b[..|b| - 1], b[|b| - 1];
    assert front + [row] == b;
    RowsApart(st.records, front, row);
    SameInserted(st, front);
    InsertedAreRows(st.records, front);
    hide InsertAll, Classify, KeyTaken, SourceTaken, FreshIds, Valid, ApplyRow, InsertOne;
    InsertSteps(st.records, front, row);
    NextInserted(ApplyAll(st, front), st.records, InsertAll(st.records, front).value, row);
  }

  lemma InsertSteps(r0: map<Id, Record>, front: seq<Row>, row: Row)
    requires InsertAll(r0, front + [row]).Ok?
    ensures InsertAll(r0, front).Ok? && InsertOne(r0, InsertAll(r0, front).value, row) == InsertAll(r0, front + [row])
  {
    assert (front + [row])[..|front|] == front;
  }

  lemma {:induction false} NextInserted(S: State, r0: map<Id, Record>, done: Insertion, row: Row)
    requires SameIdentity(S.records, done.records) && InsertOne(r0, done, row).Ok?
    requires r0.Keys <= done.records.Keys && forall a | a in r0 :: done.records[a] == r0[a]
    ensures SameIdentity(ApplyRow(S, row).records, InsertOne(r0, done, row).value.records)
  {
    SameTaken(S.records, done.records, row.key, row.source);
    UntakenIsFresh(S.records, row);
    UntakenIsFresh(r0, row);
    if SourceTaken(r0, row.source) {
      var a :| a in r0 && r0[a].source == row.source;
      assert done.records[a].source == row.source;
    }
    hide KeyTaken;
  }

  /** What the counters of the flush say of the rows so far. */
  ghost function Successes(r0: map<Id, Record>, b: seq<Row>): nat
    requires InsertAll(r0, b).Ok?
  {
    |InsertAll(r0, b).value.inserted| + |ChangedIds(r0, b)| + CountKinds(r0, b).same
  }

  /** What one more row adds to them. */
  ghost function Gain(r0: map<Id, Record>, front: seq<Row>, row: Row): nat
    requires InsertAll(r0, front).Ok?
  {
    match Classify(r0, row)
    case Fresh => if KeyTaken(InsertAll(r0, front).value.records, row.key) then 0 else 1
    case Conflict(_) => 0
    case Changed(a) => if a in ChangedIds(r0, front) then 0 else 1
    case Same(_) => 1
  }

  lemma {:induction false} SuccessesStep(r0: map<Id, Record>, front: seq<Row>, row: Row)
    requires InsertAll(r0, front + [row]).Ok? && row.id !in r0 && forall i | 0 <= i < |front| :: front[i].id != row.id
    ensures InsertAll(r0, front).Ok? && Successes(r0, front + [row]) == Successes(r0, front) + Gain(r0, front, row)
  {
    hide InsertAll, Classify, KeyTaken, ChangedIds, CountKinds;
    InsertSteps(r0, front, row);
    InsertedAreRows(r0, front);
    InsertedStep(r0, InsertAll(r0, front).value, row);
    SameCounted(r0, front, row);
    ChangedOneMore(r0, front, row);
  }

  lemma {:induction false} InsertedStep(r0: map<Id, Record>, done: Insertion, row: Row)
    requires InsertOne(r0, done, row).Ok? && row.id !in done.inserted
    ensures |InsertOne(r0, done, row).value.inserted|
            == |done.inserted| + if Classify(r0, row).Fresh? && !KeyTaken(done.records, row.key) then 1 else 0
  {
    hide Classify, KeyTaken, SourceTaken;
  }

  lemma {:induction false} SameCounted(r0: map<Id, Record>, front: seq<Row>, row: Row)
    ensures CountKinds(r0, front + [row]).same == CountKinds(r0, front).same + if Classify(r0, row).Same? then 1 else 0
  {
    assert (front + [row])[..|front|] == front;
    hide Classify;
  }

  /** How a row stands one by one, against how it stood before the flush. */
  lemma {:induction false} StandsNow(st: State, front: seq<Row>, row: Row)
    requires Valid(st) && FreshIds(st.records, front) && InsertAll(st.records, front).Ok?
    ensures var S, r0 := ApplyAll(st, front), st.records;
            && (KeyTaken(S.records, row.key) <==> KeyTaken(InsertAll(r0, front).value.records, row.key))
            && match Classify(r0, row)
               case Fresh => true
               case Conflict(a) => Classify(S.records, row) == Conflict(a)
               case Changed(a) => Classify(S.records, row) == Changed(a) || Classify(S.records, row) == Same(a)
               case Same(a) => Classify(S.records, row) == Changed(a) || Classify(S.records, row) == Same(a)
  {
    var S, r0 := ApplyAll(st, front), st.records;
    SameInserted(st, front);
    SameTaken(S.records, InsertAll(r0, front).value.records, row.key, row.source);
    ApplyAllKeepsIdentity(st, front);
    if !Classify(r0, row).Fresh? { IdOfIs(S.records, IdOf(r0, row.source).value); }
    hide ApplyAll, InsertAll, ContentChanged, SourceUnique, KeyUnique, KeyTaken, SourceTaken;
  }

  /** One by one every row counts at least as much as in the flush. */
  lemma {:induction false} GainAtMost(st: State, front: seq<Row>, row: Row)
    requires Valid(st) && FreshIds(st.records, front + [row]) && InsertAll(st.records, front + [row]).Ok?
    ensures InsertAll(st.records, front).Ok?
    ensures Gain(st.records, front, row) <= ApplyRow(ApplyAll(st, front), row).success - ApplyAll(st, front).success
  {
    hide InsertAll, Classify, KeyTaken, ChangedIds, FreshIds;
    RowsApart(st.records, front, row);
    InsertSteps(st.records, front, row);
    StandsNow(st, front, row);
    if Classify(st.records, row).Fresh? && Gain(st.records, front, row) == 1 { InsertedIsFreshNow(st, front, row); }
  }

  lemma {:induction false} InsertedIsFreshNow(st: State, front: seq<Row>, row: Row)
    requires Valid(st) && FreshIds(st.records, front) && InsertAll(st.records, front).Ok?
    requires Classify(st.records, row).Fresh? && !KeyTaken(InsertAll(st.records, front).value.records, row.key)
    requires InsertOne(st.records, InsertAll(st.records, front).value, row).Ok?
    ensures Classify(ApplyAll(st, front).records, row).Fresh?
  {
    var S, done := ApplyAll(st, front), InsertAll(st.records, front).value;
    SameInserted(st, front);
    SameTaken(S.records, done.records, row.key, row.source);
    UntakenIsFresh(S.records, row);
    hide ApplyAll, InsertAll;
  }

  lemma {:induction false} SuccessesAtMost(st: State, b: seq<Row>)
    requires Valid(st) && FreshIds(st.records, b) && InsertAll(st.records, b).Ok?
    ensures Successes(st.records, b) <= ApplyAll(st, b).success - st.success
    decreases |b|
  {
    if b == [] { return; }
    var front, row := b[..|b| - 1], b[|b| - 1];
    assert front + [row] == b;
    hide InsertAll, Successes, Gain, FreshIds, ApplyRow;
    RowsApart(st.records, front, row);
    SuccessesStep(st.records, front, row);
    SuccessesAtMost(st, front);
    GainAtMost(st, front, row);
  }

  /** A stored record that no row so far has changed is as it was, one by one too. */
  lemma {:induction false} UnchangedStays(st: State, b: seq<Row>, a: Id)
    requires Valid(st) && FreshIds(st.records, b) && a in st.records && a !in ChangedIds(st.records, b)
    ensures a in ApplyAll(st, b).records && ApplyAll(st, b).records[a] == st.records[a]
    decreases |b|
  {
    if b == [] { return; }
    var front, row := b[..|b| - 1], b[|b| - 1];
    assert front + [row] == b;
    RowsApart(st.records, front, row);
    UnchangedStays(st, front, a);
    ApplyAllKeepsIdentity(st, front);
    var S := ApplyAll(st, front);
    IdOfIs(S.records, a);
    IdOfIs(st.records, a);
    assert row.id !in S.records;
    hide ChangedIds, SourceUnique, KeyUnique, FreshIds, KeyTaken, SourceTaken, ContentChanged;
    NotChangedByLast(st.records, front, row, a);
    if S.records[a].source != row.source { WritesOnlyOwnSource(S, row, a); }
  }

  lemma NotChangedByLast(r0: map<Id, Record>, front: seq<Row>, row: Row, a: Id)
    requires a !in ChangedIds(r0, front + [row])
    ensures a !in ChangedIds(r0, front) && Classify(r0, row) != Changed(a)
  {
    assert (front + [row])[..|front|] == front;
  }

  // ---- Agreement of counters and issues ----

  /** The flush goes through, and its success counter and its issues are those of one by one. */
  ghost predicate Agrees(st: State, b: seq<Row>) {
    && InsertAll(st.records, b).Ok?
    && ApplyAll(st, b).success == st.success + Successes(st.records, b)
    && ApplyAll(st, b).issues == st.issues + IssuesOf(st.records, InsertAll(st.records, b).value.inserted, b)
  }

  /** Where a row counts alike, one by one it leaves at least as many issues as in the flush. */
  lemma {:induction false} RowIssuesAtMost(st: State, front: seq<Row>, row: Row)
    requires Valid(st) && FreshIds(st.records, front + [row]) && InsertAll(st.records, front + [row]).Ok?
    requires InsertAll(st.records, front).Ok?
    requires ApplyRow(ApplyAll(st, front), row).success == ApplyAll(st, front).success + Gain(st.records, front, row)
    ensures var inserted := InsertAll(st.records, front + [row]).value.inserted;
            |IssueFor(Classify(st.records, row), row.id in inserted, row)|
            <= |ApplyRow(ApplyAll(st, front), row).issues| - |ApplyAll(st, front).issues|
  {
    var r0, S := st.records, ApplyAll(st, front);
    RowsApart(r0, front, row);
    InsertSteps(r0, front, row);
    InsertedAreRows(r0, front);
    StandsNow(st, front, row);
    var kind := Classify(r0, row);
    if kind.Changed? {
      assert kind.id !in ChangedIds(r0, front);
      ChangedIsStored(r0, row);
      UnchangedStays(st, front, kind.id);
      SameRecordSameKind(r0, S.records, row);
    }
    hide InsertAll, Classify, KeyTaken, SourceTaken, ChangedIds, FreshIds;
  }

  lemma SameRecordSameKind(m: map<Id, Record>, m': map<Id, Record>, row: Row)
    requires Classify(m, row).Changed?
    requires Classify(m, row).id in m' && m'[Classify(m, row).id] == m[Classify(m, row).id]
    requires match Classify(m', row)
             case Changed(a) => a == Classify(m, row).id
             case Same(a) => a == Classify(m, row).id
             case _ => false
    ensures Classify(m', row) == Classify(m, row)
  {}

  /** The issues of a batch with one more row: those of the batch, and that of the row. */
  lemma {:induction false} IssuesStep(r0: map<Id, Record>, front: seq<Row>, row: Row)
    requires InsertAll(r0, front + [row]).Ok? && forall i | 0 <= i < |front| :: front[i].id != row.id
    ensures var inserted := InsertAll(r0, front + [row]).value.inserted;
            && InsertAll(r0, front).Ok?
            && IssuesOf(r0, inserted, front + [row])
               == IssuesOf(r0, InsertAll(r0, front).value.inserted, front)
                 + IssueFor(Classify(r0, row), row.id in inserted, row)
  {
    InsertSteps(r0, front, row);
    var done, inserted := InsertAll(r0, front).value, InsertAll(r0, front + [row]).value.inserted;
    assert (front + [row])[..|front|] == front;
    assert inserted == done.inserted || inserted == done.inserted + {row.id};
    OtherInsertUnseen(r0, done.inserted, row.id, front);
    hide InsertAll, Classify, IssueFor;
  }

  lemma {:induction false} IssuesAtMost(st: State, b: seq<Row>)
    requires Valid(st) && FreshIds(st.records, b) && InsertAll(st.records, b).Ok?
    requires ApplyAll(st, b).success == st.success + Successes(st.records, b)
    ensures |IssuesOf(st.records, InsertAll(st.records, b).value.inserted, b)| <= |ApplyAll(st, b).issues| - |st.issues|
    decreases |b|
  {
    if b == [] { return; }
    var front, row := b[..|b| - 1], b[|b| - 1];
    assert front + [row] == b;
    hide InsertAll, Successes, Gain, FreshIds, ApplyRow, IssuesOf, IssueFor;
    RowsApart(st.records, front, row);
    SuccessesStep(st.records, front, row);
    SuccessesAtMost(st, front);
    GainAtMost(st, front, row);
    IssuesAtMost(st, front);
    RowIssuesAtMost(st, front, row);
    IssuesStep(st.records, front, row);
  }

  /** One more row counts and is reported as in the flush. */
  ghost predicate RowAgrees(st: State, front: seq<Row>, row: Row) {
    var S := ApplyAll(st, front);
    && InsertAll(st.records, front + [row]).Ok? && InsertAll(st.records, front).Ok?
    && ApplyRow(S, row).success == S.success + Gain(st.records, front, row)
    && ApplyRow(S, row).issues == S.issues + IssueIn(st.records, front, row)
  }

  /** The issue the flush of the batch with one more row reports for that row. */
  ghost function IssueIn(r0: map<Id, Record>, front: seq<Row>, row: Row): seq<Issue>
    requires InsertAll(r0, front + [row]).Ok?
  {
    IssueFor(Classify(r0, row), row.id in InsertAll(r0, front + [row]).value.inserted, row)
  }

  /** Agreement is never regained: it holds of every shorter batch, and of the last row. */
  lemma {:induction false} AgreesBefore(st: State, front: seq<Row>, row: Row)
    requires Valid(st) && FreshIds(st.records, front + [row]) && Agrees(st, front + [row])
    ensures Agrees(st, front) && RowAgrees(st, front, row)
  {
    hide InsertAll, Successes, Gain, FreshIds, ApplyAll, IssuesOf, IssueFor, ApplyRow, Classify, Valid, IssueIn;
    OneMoreApplied(st, front, row);
    SuccessAgreesBefore(st, front, row);
    IssuesAgreeBefore(st, front, row);
  }

  lemma OneMoreApplied(st: State, front: seq<Row>, row: Row)
    ensures ApplyAll(st, front + [row]) == ApplyRow(ApplyAll(st, front), row)
  {
    assert (front + [row])[..|front|] == front;
    hide ApplyRow;
  }

  lemma {:induction false} IssuesAgreeBefore(st: State, front: seq<Row>, row: Row)
    requires Valid(st) && FreshIds(st.records, front + [row])
    requires InsertAll(st.records, front).Ok? && InsertAll(st.records, front + [row]).Ok?
    requires ApplyAll(st, front).success == st.success + Successes(st.records, front)
    requires ApplyRow(ApplyAll(st, front), row).success == ApplyAll(st, front).success + Gain(st.records, front, row)
    requires ApplyRow(ApplyAll(st, front), row).issues
             == st.issues + IssuesOf(st.records, InsertAll(st.records, front + [row]).value.inserted, front + [row])
    ensures ApplyAll(st, front).issues
            == st.issues + IssuesOf(st.records, InsertAll(st.records, front).value.inserted, front)
    ensures ApplyRow(ApplyAll(st, front), row).issues == ApplyAll(st, front).issues + IssueIn(st.records, front, row)
  {
    var S, inserted := ApplyAll(st, front), InsertAll(st.records, front).value.inserted;
    RowsApart(st.records, front, row);
    IssuesGrow(S, row);
    IssuesAtMost(st, front);
    RowIssuesAtMost(st, front, row);
    IssuesStep(st.records, front, row);
    hide *;
    IssueInIs(st.records, front, row);
    var later := ApplyRow(S, row).issues;
    assert later == S.issues + later[|S.issues|..];
    SplitAlike(S.issues, later[|S.issues|..], st.issues + IssuesOf(st.records, inserted, front),
               IssueIn(st.records, front, row));
  }

  lemma IssueInIs(r0: map<Id, Record>, front: seq<Row>, row: Row)
    requires InsertAll(r0, front + [row]).Ok?
    ensures IssueIn(r0, front, row)
            == IssueFor(Classify(r0, row), row.id in InsertAll(r0, front + [row]).value.inserted, row)
  {
    hide InsertAll, Classify, IssueFor;
  }

  lemma SplitAlike(a: seq<Issue>, x: seq<Issue>, b: seq<Issue>, y: seq<Issue>)
    requires a + x == b + y && |a| >= |b| && |x| >= |y|
    ensures a == b && x == y
  {
    assert |a + x| == |b + y|;
    assert a == (a + x)[..|a|] && b == (b + y)[..|b|];
    assert x == (a + x)[|a|..] && y == (b + y)[|b|..];
  }

  lemma {:induction false} SuccessAgreesBefore(st: State, front: seq<Row>, row: Row)
    requires Valid(st) && FreshIds(st.records, front + [row]) && InsertAll(st.records, front + [row]).Ok?
    requires ApplyRow(ApplyAll(st, front), row).success == st.success + Successes(st.records, front + [row])
    ensures InsertAll(st.records, front).Ok? && ApplyAll(st, front).success == st.success + Successes(st.records, front)
    ensures ApplyRow(ApplyAll(st, front), row).success == ApplyAll(st, front).success + Gain(st.records, front, row)
  {
    hide *;
    RowsApart(st.records, front, row);
    SuccessesStep(st.records, front, row);
    SuccessesAtMost(st, front);
    GainAtMost(st, front, row);
  }

  lemma IssuesGrow(st: State, row: Row)
    ensures st.issues <= ApplyRow(st, row).issues
  {}

  // ---- The main result ----

  /** A batch whose counters and issues agree has no row that disturbs another. */
  lemma {:induction false} AgreesIsIndependent(st: State, b: seq<Row>)
    requires Valid(st) && FreshIds(st.records, b) && Agrees(st, b)
    ensures Independent(st.records, b)
    decreases |b|
  {
    if b == [] { return; }
    var front, row := b[..|b| - 1], b[|b| - 1];
    assert front + [row] == b;
    hide Agrees, Independent, Disturbs, FreshIds, InsertAll, ApplyAll, IssueFor, Gain;
    RowsApart(st.records, front, row);
    AgreesBefore(st, front, row);
    AgreesIsIndependent(st, front);
    IndependentIsOneByOne(st, front);
    IndependentSteps(st.records, front, row);
    forall i | 0 <= i < |front| ensures !Disturbs(st.records, front, i, row) {
      if BringsKey(st.records, front, i) {
        AfterInsertDisagrees(st, front, row, i);
      } else {
        AfterUpdateDisagrees(st, front, row, i);
      }
    }
  }

  /** After a row that inserted the source: the flush reports a duplicate, one by one never does. */
  lemma {:induction false} AfterInsertDisagrees(st: State, front: seq<Row>, row: Row, i: nat)
    requires Valid(st) && FreshIds(st.records, front + [row]) && InsertAll(st.records, front + [row]).Ok?
    requires i < |front| && BringsKey(st.records, front, i)
    ensures Disturbs(st.records, front, i, row) ==> !RowAgrees(st, front, row)
  {
    if !Disturbs(st.records, front, i, row) { return; }
    hide InsertAll, Classify, KeyTaken, SourceTaken, FreshIds, ApplyAll, InsertedBring, Valid;
    RowsApart(st.records, front, row);
    InsertSteps(st.records, front, row);
    NowStored(st, front, row, i);
    LateRow(st.records, ApplyAll(st, front), InsertAll(st.records, front).value, row);
  }

  lemma {:induction false} NowStored(st: State, front: seq<Row>, row: Row, i: nat)
    requires Valid(st) && FreshIds(st.records, front) && InsertAll(st.records, front).Ok? && row.id !in st.records
    requires i < |front| && BringsKey(st.records, front, i) && front[i].source == row.source
    requires forall k | 0 <= k < |front| :: front[k].id != row.id
    ensures var done := InsertAll(st.records, front).value;
            && !Classify(ApplyAll(st, front).records, row).Fresh? && Classify(st.records, row).Fresh?
            && SourceTaken(done.records, row.source) && row.id !in done.inserted
  {
    var r0, S, done := st.records, ApplyAll(st, front), InsertAll(st.records, front).value;
    UntakenIsFresh(r0, row);
    UntakenIsFresh(r0, front[i]);
    UntakenIsFresh(S.records, row);
    assert Classify(r0, front[i]).Fresh?;
    hide InsertAll, Classify, KeyTaken, SourceTaken, FreshIds, BringsKey, ApplyAll, InsertedBring, Valid;
    InsertsExactlyWhen(r0, front);
    SourceTakenByRows(r0, front, done, row.source);
    SameInserted(st, front);
    SameTaken(S.records, done.records, row.key, row.source);
    InsertedAreRows(r0, front);
  }

  /** A row of a source that this batch has inserted: the flush skips it, if it goes through. */
  lemma {:induction false} LateRow(r0: map<Id, Record>, S: State, done: Insertion, row: Row)
    requires Classify(r0, row).Fresh? && !Classify(S.records, row).Fresh?
    requires SourceTaken(done.records, row.source) && row.id !in done.inserted && InsertOne(r0, done, row).Ok?
    ensures KeyTaken(done.records, row.key) && row.id !in InsertOne(r0, done, row).value.inserted
    ensures ApplyRow(S, row).success > S.success || ApplyRow(S, row).issues != S.issues + IssueFor(Fresh, false, row)
  {
    hide KeyTaken, SourceTaken;
    assert [Issue(None, Duplicate, row.source)][0] != Issue(None, Suspicious, row.source);
    assert Classify(S.records, row).Conflict? ==>
             ApplyRow(S, row).issues[|S.issues|] != (S.issues + [Issue(None, Duplicate, row.source)])[|S.issues|];
  }

  /** After a row that updated the record: the flush counts a second update nowhere, and a row it
      takes for unchanged changes the record one by one. */
  lemma {:induction false} AfterUpdateDisagrees(st: State, front: seq<Row>, row: Row, i: nat)
    requires Valid(st) && FreshIds(st.records, front + [row]) && InsertAll(st.records, front + [row]).Ok?
    requires Independent(st.records, front) && Flushed(st, front) == Ok(ApplyAll(st, front))
    requires i < |front| && !BringsKey(st.records, front, i)
    ensures Disturbs(st.records, front, i, row) ==> !RowAgrees(st, front, row)
  {
    if !Disturbs(st.records, front, i, row) { return; }
    var r0, S, a := st.records, ApplyAll(st, front), Classify(st.records, front[i]).id;
    hide InsertAll, KeyTaken, SourceTaken, FreshIds, BringsKey, ApplyAll, ContentChanged, Flushed, Independent,
         LastUpdate, ChangedIds;
    RowsApart(r0, front, row);
    InsertSteps(r0, front, row);
    StandsNow(st, front, row);
    StoredNow(st, front, a);
    ChangedIdsAreRows(r0, front, a);
    OnlyUpdate(r0, front, i);
    UpdatedRow(r0, S, front[i], row, a);
  }

  /** Record `a` holds what `first` wrote: a later row of the source that disturbs it is an update. */
  lemma {:induction false} UpdatedRow(r0: map<Id, Record>, S: State, first: Row, row: Row, a: Id)
    requires Classify(r0, first) == Changed(a) && first.source == row.source && UnlikeAfter(r0, first.content, row)
    requires a in S.records && S.records[a].key == r0[a].key && S.records[a].content == Stored(first.content)
    requires match Classify(r0, row)
             case Changed(x) => Classify(S.records, row) == Changed(x) || Classify(S.records, row) == Same(x)
             case Same(x) => Classify(S.records, row) == Changed(x) || Classify(S.records, row) == Same(x)
             case _ => true
    ensures Classify(r0, row) == Changed(a) || (Classify(r0, row) == Same(a) && Classify(S.records, row) == Changed(a))
    ensures ApplyRow(S, row).success == S.success + 1
    ensures Classify(r0, row).Same? ==> |ApplyRow(S, row).issues| == |S.issues| + 1
  {
    assert IdOf(r0, row.source) == Some(a);
    hide ContentChanged, KeyTaken, SourceTaken, Stored;
  }

  lemma {:induction false} OnlyUpdate(r0: map<Id, Record>, b: seq<Row>, i: nat)
    requires Independent(r0, b) && i < |b| && Classify(r0, b[i]).Changed?
    ensures LastUpdate(r0, b, Classify(r0, b[i]).id) == Some(i)
  {
    var a := Classify(r0, b[i]).id;
    var last := LastUpdate(r0, b, a);
    assert last.Some? && i <= last.value;
    assert i < last.value ==> !Disturbs(r0, b, i, b[last.value]);
  }

  /** A flush is the one-row-at-a-time ingester if and only if no row of its batch disturbs a later
      one of the same source. */
  lemma {:induction false} FlushIsOneByOneExactlyWhen(st: State, b: seq<Row>)
    requires Valid(st) && FreshIds(st.records, b)
    ensures Flushed(st, b) == Ok(ApplyAll(st, b)) <==> Independent(st.records, b)
  {
    if Independent(st.records, b) {
      IndependentIsOneByOne(st, b);
    } else if Flushed(st, b) == Ok(ApplyAll(st, b)) {
      FlushedAgrees(st, b);
      AgreesIsIndependent(st, b);
    }
  }

  lemma FlushedAgrees(st: State, b: seq<Row>)
    requires Flushed(st, b) == Ok(ApplyAll(st, b))
    ensures Agrees(st, b)
  {
    hide InsertAll, ApplyAll, ChangedIds, CountKinds, IssuesOf, RelevantScores, UpdateAll, Upserted;
  }

  // ---- Runs of one batch ----

  /** While the rows do not fill a batch they all wait in it. */
  lemma {:induction false} RowsWait(st: State, outs: seq<Outcome>, k: nat)
    requires |RowsOf(outs)| < k && !Interrupted(outs)
    ensures FeedAll(st, outs, k) == Progress(Start(st).state, RowsOf(outs), |outs|, UnknownCount(outs), false)
    decreases |outs|
  {
    if outs != [] {
      InterruptedSteps(outs);
      RowsWait(st, outs[..|outs| - 1], k);
    }
  }

  /** A feed that fills no batch, so that one flush at its end takes it all, ends in the state and
      with the counters of batches of one row if and only if no row of it disturbs a later one. */
  lemma {:induction false} OneBatchIsOneByOneExactlyWhen(st: State, outs: seq<Outcome>, k: nat)
    requires Valid(st) && FreshIds(st.records, RowsOf(outs)) && !Interrupted(outs) && |RowsOf(outs)| < k
    ensures RunAll(st, outs, k) == RunAll(st, outs, 1) <==> Independent(st.records, RowsOf(outs))
  {
    var s0, rows := Start(st).state, RowsOf(outs);
    hide Flushed, ApplyAll, FreshIds, Independent, FeedAll, RowsOf, UnknownCount;
    RowsWait(st, outs, k);
    RunRefinesOneByOne(st, outs, 1);
    FlushIsOneByOneExactlyWhen(s0, rows);
    if rows == [] {
      FlushNothing(s0);
      NothingApplied(s0);
    }
  }
}
