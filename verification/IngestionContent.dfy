/** What a stored record and its score hold of the feed line they come from, column by column. */
module IngestionContent {
  import opened IngestionFlush
  import opened IngestionResolve
  import opened IngestionRun
  import opened IngestionStore
  import opened Options

  // ---- Columns ----

  /** A number with four decimals. */
  predicate FourDecimals(x: real) { (x * 10000.0).Floor as real == x * 10000.0 }

  /** The column holds the number rounded to four decimals, halves away from zero, or null for none. */
  predicate Keeps(column: Option<real>, given: Option<real>) {
    && (column.None? <==> given.None?)
    && (given.Some? ==>
          && FourDecimals(column.value)
          && -0.00005 <= column.value - given.value <= 0.00005
          && (given.value >= 0.0 ==> column.value - given.value > -0.00005)
          && (given.value < 0.0 ==> column.value - given.value < 0.00005))
  }

  /** The column is so close to the number that the row does not count as changed. */
  predicate Near(column: Option<real>, given: Option<real>) {
    && (column.None? <==> given.None?)
    && (given.Some? ==> -0.000001 <= column.value - given.value <= 0.000001)
  }

  /** The record holds what the row brings. */
  predicate Holds(c: Content, given: Content) {
    && Keeps(c.target, given.target) && Keeps(c.actual, given.actual)
    && Keeps(c.numerator, given.numerator) && Keeps(c.denominator, given.denominator)
    && c.unit == given.unit && c.status == given.status
    && c.updatedAt == given.updatedAt && c.production == given.production
  }

  /** The record already said what the row brings. */
  predicate Said(c: Content, given: Content) {
    && Near(c.target, given.target) && Near(c.actual, given.actual)
    && Near(c.numerator, given.numerator) && Near(c.denominator, given.denominator)
    && c.unit == given.unit && c.status == given.status
    && c.updatedAt == given.updatedAt && c.production == given.production
  }

  lemma RoundIsNearest(x: real)
    ensures Keeps(Some(Round4(x)), Some(x))
  {
    var scaled := if x >= 0.0 then x * 10000.0 + 0.5 else -x * 10000.0 + 0.5;
    var whole := scaled.Floor;
    assert whole as real <= scaled < whole as real + 1.0;
    var y := Round4(x);
    assert y * 10000.0 == if x >= 0.0 then whole as real else -(whole as real);
    assert FourDecimals(y) by {
      var n := if x >= 0.0 then whole else -whole;
      assert y * 10000.0 == n as real;
      assert (n as real).Floor == n;
    }
  }

  lemma ColumnKeeps(given: Option<real>)
    ensures Keeps(StoredNumber(given), given)
  {
    if given.Some? { RoundIsNearest(given.value); }
  }

  lemma StoredHolds(given: Content)
    ensures Holds(Stored(given), given)
  {
    ColumnKeeps(given.target);
    ColumnKeeps(given.actual);
    ColumnKeeps(given.numerator);
    ColumnKeeps(given.denominator);
    hide Keeps, StoredNumber;
  }

  lemma SaidExactlyWhen(c: Content, given: Content)
    ensures Said(c, given) <==> !ContentChanged(c, given)
  {}

  // ---- What a row leaves in the tables ----

  /** The score of the record is the row's, or there is none where the row has none. */
  predicate ScoreIs(scores: map<Id, Score>, a: Id, score: Option<Score>) {
    if score.Some? then a in scores && scores[a] == score.value else a !in scores
  }

  predicate SameScore(scores: map<Id, Score>, scores': map<Id, Score>, a: Id) {
    (a in scores <==> a in scores') && (a in scores ==> scores'[a] == scores[a])
  }

  /** A record was stored under the row's source before: it keeps its source and identity, and it takes
      the row's content and score unless the row has another identity or says nothing new. */
  ghost predicate TakesUp(st: State, st': State, row: Row, a: Id)
    requires a in st.records
  {
    && a in st'.records && st'.records[a].source == st.records[a].source && st'.records[a].key == st.records[a].key
    && if st.records[a].key != row.key || Said(st.records[a].content, row.content)
       then st'.records[a] == st.records[a] && SameScore(st.scores, st'.scores, a)
       else Holds(st'.records[a].content, row.content) && ScoreIs(st'.scores, a, row.score)
  }

  /** The row is stored as a new record, with its source, identity, content and score. */
  ghost predicate IsAdded(st': State, row: Row) {
    && row.id in st'.records && st'.records[row.id].source == row.source && st'.records[row.id].key == row.key
    && Holds(st'.records[row.id].content, row.content) && ScoreIs(st'.scores, row.id, row.score)
  }

  /** Another record has the row's natural key, and none has its source. */
  ghost predicate IsTurnedAway(st': State, row: Row) {
    && (exists b | b in st'.records :: st'.records[b].key == row.key)
    && forall b | b in st'.records :: st'.records[b].source != row.source
  }

  /** What became of a row: the record stored under its source took it up, or it was added, or its
      natural key was another record's. */
  ghost predicate Settles(st: State, st': State, row: Row) {
    if SourceKnown(st, row.source) then
      forall a | a in st.records && st.records[a].source == row.source :: TakesUp(st, st', row, a)
    else IsAdded(st', row) || IsTurnedAway(st', row)
  }

  ghost predicate SourceKnown(st: State, s: Source) {
    exists a | a in st.records :: st.records[a].source == s
  }

  /** One row, one by one. */
  lemma {:induction false} RowSettles(st: State, row: Row)
    requires Valid(st) && row.id !in st.records
    ensures Settles(st, ApplyRow(st, row), row)
  {
    var st' := ApplyRow(st, row);
    StoredHolds(row.content);
    if SourceKnown(st, row.source) {
      forall a | a in st.records && st.records[a].source == row.source ensures TakesUp(st, st', row, a) {
        IdOfIs(st.records, a);
        SaidExactlyWhen(st.records[a].content, row.content);
        hide Holds, Said, ContentChanged, Stored, SourceUnique, KeyUnique, KeyTaken, SourceTaken;
      }
    } else {
      NewRowSettles(st, row);
    }
  }

  lemma {:induction false} NewRowSettles(st: State, row: Row)
    requires Valid(st) && row.id !in st.records && !SourceKnown(st, row.source)
    ensures IsAdded(ApplyRow(st, row), row) || IsTurnedAway(ApplyRow(st, row), row)
  {
    assert Classify(st.records, row).Fresh?;
    StoredHolds(row.content);
    hide Holds, Said, ContentChanged, Stored, SourceUnique, KeyUnique;
  }

  // ---- Many rows ----

  /** What became of a row stays so while rows of other sources are fed. */
  lemma {:induction false} SettledStays(st: State, mid: State, row: Row, later: Row)
    requires Settles(st, mid, row) && later.id !in mid.records && later.source != row.source
    ensures Settles(st, ApplyRow(mid, later), row)
  {
    var end := ApplyRow(mid, later);
    hide Holds, Said, ApplyRow;
    if SourceKnown(st, row.source) {
      forall a | a in st.records && st.records[a].source == row.source ensures TakesUp(st, end, row, a) {
        assert TakesUp(st, mid, row, a);
        WritesOnlyOwnSource(mid, later, a);
      }
    } else if IsAdded(mid, row) {
      WritesOnlyOwnSource(mid, later, row.id);
    } else {
      TurnedAwayStays(mid, row, later);
    }
  }

  lemma {:induction false} TurnedAwayStays(mid: State, row: Row, later: Row)
    requires IsTurnedAway(mid, row) && later.id !in mid.records && later.source != row.source
    ensures IsTurnedAway(ApplyRow(mid, later), row)
  {
    ApplyRowKeepsIdentity(mid, later);
    var b :| b in mid.records && mid.records[b].key == row.key;
    assert ApplyRow(mid, later).records[b].key == row.key;
    NewRecordIsOwn(mid, later);
    hide ApplyRow;
  }

  lemma {:induction false} NewRecordIsOwn(mid: State, later: Row)
    requires later.id !in mid.records
    ensures later.id in ApplyRow(mid, later).records ==>
              ApplyRow(mid, later).records[later.id].source == later.source
  {}

  /** What a row finds under its source after rows of other sources is what was there before. */
  lemma {:induction false} SettlesFromStart(st: State, front: seq<Row>, row: Row)
    requires Valid(st) && FreshIds(st.records, front) && forall i | 0 <= i < |front| :: front[i].source != row.source
    requires Settles(ApplyAll(st, front), ApplyRow(ApplyAll(st, front), row), row)
    ensures Settles(st, ApplyRow(ApplyAll(st, front), row), row)
  {
    var mid := ApplyAll(st, front);
    var end := ApplyRow(mid, row);
    ApplyAllOtherSource(st, front, row);
    ApplyAllKeepsIdentity(st, front);
    hide Holds, Said, ApplyRow, ApplyAll, SourceUnique, KeyUnique;
    assert SourceKnown(mid, row.source) <==> SourceKnown(st, row.source) by {
      KnownHasId(mid, row.source);
      KnownHasId(st, row.source);
    }
    forall a | a in st.records && st.records[a].source == row.source ensures TakesUp(st, end, row, a) {
      IdOfIs(st.records, a);
      assert mid.records[a] == st.records[a];
      assert TakesUp(mid, end, row, a);
    }
  }

  lemma KnownHasId(st: State, s: Source)
    ensures SourceKnown(st, s) <==> IdOf(st.records, s).Some?
  {}

  /** After rows of distinct sources, one by one, each row has become what it should. */
  lemma {:induction false} RowsSettle(st: State, rows: seq<Row>, i: nat)
    requires Valid(st) && FreshIds(st.records, rows) && DistinctSources(rows) && i < |rows|
    ensures Settles(st, ApplyAll(st, rows), rows[i])
    decreases |rows|
  {
    var front, last := rows[..|rows| - 1], rows[|rows| - 1];
    assert rows == front + [last];
    hide Settles, ApplyRow;
    LastRowIsApart(st.records, front, last);
    ApplyAllKeepsIdentity(st, front);
    var mid := ApplyAll(st, front);
    assert last.id !in mid.records;
    if i < |front| {
      RowsSettle(st, front, i);
      SettledStays(st, mid, rows[i], last);
    } else {
      RowSettles(mid, last);
      SettlesFromStart(st, front, last);
    }
  }

  /** A flush of rows with distinct sources stores of each row what it brings. */
  lemma {:induction false} FlushStoresRows(st: State, b: seq<Row>, i: nat)
    requires Valid(st) && FreshIds(st.records, b) && DistinctSources(b) && i < |b|
    ensures Flushed(st, b).Ok? && Settles(st, Flushed(st, b).value, b[i])
  {
    FlushIsOneByOne(st, b);
    RowsSettle(st, b, i);
  }

  /** A finished run over a feed of distinct sources stores of each line what it brings, whatever the
      batch size. */
  lemma {:induction false} RunStoresRows(st: State, outs: seq<Outcome>, k: nat, i: nat)
    requires k > 0 && Valid(st) && FreshIds(st.records, RowsOf(outs)) && DistinctSources(RowsOf(outs))
    requires !Interrupted(outs) && i < |RowsOf(outs)|
    ensures Settles(st, RunAll(st, outs, k).state, RowsOf(outs)[i])
  {
    hide RunAll, ApplyAll, RowsOf, Settles, SourceUnique, KeyUnique;
    RunRefinesOneByOne(st, outs, k);
    RowsSettle(Start(st).state, RowsOf(outs), i);
    StartSettles(st, RunAll(st, outs, k).state, RowsOf(outs)[i]);
  }

  /** The counters do not matter. */
  lemma {:induction false} StartSettles(st: State, st': State, row: Row)
    requires Settles(Start(st).state, st', row)
    ensures Settles(st, st', row)
  {
    hide Holds, Said, ScoreIs, SameScore;
    var s0 := Start(st).state;
    assert SourceKnown(st, row.source) <==> SourceKnown(s0, row.source);
    forall a | a in st.records && st.records[a].source == row.source ensures SourceKnown(st, row.source) {}
    if SourceKnown(st, row.source) {
      forall a | a in st.records && st.records[a].source == row.source ensures TakesUp(st, st', row, a) {
        assert TakesUp(s0, st', row, a);
      }
    }
  }

  // ---- From the feed line to the row ----

  /** Assignment i is the first active one of the foreman to the plant whose dates, both included,
      contain the date. */
  ghost predicate FirstCovering(L: Lookups, date: int, foreman: Id, plant: Id, i: nat)
    requires i < |L.assignments|
  {
    IsCovering(L.assignments[i], date, foreman, plant)
    && forall j | 0 <= j < i :: !IsCovering(L.assignments[j], date, foreman, plant)
  }

  predicate IsCovering(a: Assignment, date: int, foreman: Id, plant: Id) {
    && a.active && a.foreman == foreman && a.plant == plant
    && a.start <= date && (a.end.Some? ==> date <= a.end.value)
  }

  /** The foreman is expected at the plant in this shift on the date. */
  ghost predicate IsExpected(L: Lookups, date: int, foreman: Id, plant: Id, shift: Id) {
    exists i | 0 <= i < |L.assignments| ::
      && FirstCovering(L, date, foreman, plant, i)
      && ShiftById(L.shiftList, L.assignments[i].shift).Some?
      && ShiftRotation.ActualShift(date, ShiftById(L.shiftList, L.assignments[i].shift).value, L.shiftList).id == shift
  }

  /** The assignment that decides names a shift that is not among the shifts. */
  ghost predicate NamesNoShift(L: Lookups, date: int, foreman: Id, plant: Id) {
    exists i | 0 <= i < |L.assignments| :: FirstCovering(L, date, foreman, plant, i)
                                           && forall s | s in L.shiftList :: s.id != L.assignments[i].shift
  }

  lemma {:induction false} MatchIsFirst(assignments: seq<Assignment>, date: int, foreman: Id, plant: Id)
    returns (i: nat)
    ensures MatchOf(assignments, date, foreman, plant).None? <==> i == |assignments|
    ensures i <= |assignments| && forall j | 0 <= j < i :: !IsCovering(assignments[j], date, foreman, plant)
    ensures i < |assignments| ==>
              IsCovering(assignments[i], date, foreman, plant)
              && MatchOf(assignments, date, foreman, plant) == Some(assignments[i])
    decreases |assignments|
  {
    i := 0;
    if assignments != [] && !Matches(assignments[0], date, foreman, plant) {
      var rest := MatchIsFirst(assignments[1..], date, foreman, plant);
      i := rest + 1;
      assert forall j | 0 < j < i :: assignments[j] == assignments[1..][j - 1];
    }
  }

  lemma {:induction false} ExpectedExactlyWhen(L: Lookups, date: int, foreman: Id, plant: Id, shift: Id)
    ensures ExpectedShift(L, date, foreman, plant) == Works(shift) <==> IsExpected(L, date, foreman, plant, shift)
    ensures ExpectedShift(L, date, foreman, plant).Unassigned? <==>
              forall i | 0 <= i < |L.assignments| :: !IsCovering(L.assignments[i], date, foreman, plant)
    ensures ExpectedShift(L, date, foreman, plant).NoSuchShift? <==> NamesNoShift(L, date, foreman, plant)
  {
    var i := MatchIsFirst(L.assignments, date, foreman, plant);
    hide MatchOf, IsCovering, ShiftById, ShiftRotation.ActualShift;
    if i < |L.assignments| {
      assert FirstCovering(L, date, foreman, plant, i);
      assert forall j | 0 <= j < |L.assignments| && FirstCovering(L, date, foreman, plant, j) :: j == i;
    }
  }

  /** The quality of a line: an unexpected chief or shift comes first, then a missing value, then a
      value outside the KPI's range, then a target that neither the line nor the plan gives. */
  ghost predicate QualityIs(L: Lookups, raw: Raw, status: Quality)
    requires Known(L, raw)
  {
    var plant, kpi := L.plants[raw.plant], L.kpis[raw.kpi];
    var fits := L.chiefs[raw.chief] == plant.chief
                && IsExpected(L, raw.date, L.foremen[raw.foreman], plant.id, L.shifts[raw.shift].id);
    var inRange := raw.actual.Some? && kpi.minValid <= raw.actual.value <= kpi.maxValid;
    && (status == Suspicious <==> !fits)
    && (status == Missing <==> fits && raw.actual.None?)
    && (status == Invalid <==> fits && raw.actual.Some? && !inRange)
    && (status == NeedsSourceCorrection <==> fits && inRange && raw.target.None? && PlannedTarget(L, raw) == Nothing)
    && (status == Complete <==> fits && inRange && (raw.target.Some? || PlannedTarget(L, raw).One?))
  }

  function PlannedTarget(L: Lookups, raw: Raw): Found<real>
    requires Known(L, raw)
  {
    var plant := L.plants[raw.plant];
    L.targetFor(L.kpis[raw.kpi].id, raw.date, L.foremen[raw.foreman], plant.chief, plant.id)
  }

  /** The row carries the line: every column from its own field, the codes resolved, the plant's chief,
      and the planned target where a COMPLETE line has none. */
  ghost predicate Carries(L: Lookups, system: string, raw: Raw, id: Id, row: Row)
    requires Known(L, raw)
  {
    && row.id == id && row.source.system == system && row.source.recordId == raw.recordId
    && row.key.foreman == L.foremen[raw.foreman] && row.key.kpi == L.kpis[raw.kpi].id
    && row.key.chief == L.plants[raw.plant].chief && row.key.shift == L.shifts[raw.shift].id
    && row.key.date == raw.date && row.key.plant == L.plants[raw.plant].id
    && row.content.actual == raw.actual && row.content.numerator == raw.numerator
    && row.content.denominator == raw.denominator && row.content.unit == raw.unit
    && row.content.updatedAt == raw.updatedAt && row.content.production == raw.production
    && QualityIs(L, raw, row.content.status)
    && row.content.target == (if raw.target.None? && row.content.status == Complete
                              then Some(PlannedTarget(L, raw).value) else raw.target)
  }

  /** The row's score: that of the rule in force on the date, computed from the line's value and target,
      with the KPI's weight; none where the row is not COMPLETE or no rule is in force. */
  ghost predicate ScoredBy(L: Lookups, raw: Raw, row: Row)
    requires Known(L, raw)
  {
    var kpi := L.kpis[raw.kpi];
    match row.score
    case None => row.content.status != Complete || L.ruleFor(kpi.id, raw.date) == Nothing
    case Some(score) =>
      && row.content.status == Complete && L.ruleFor(kpi.id, raw.date).One?
      && raw.actual.Some? && row.content.target.Some?
      && var rule := L.ruleFor(kpi.id, raw.date).value;
      && L.formula(rule, kpi, raw.actual.value, row.content.target.value, raw.numerator, raw.denominator)
         == Some((score.raw, score.capped))
      && score.rule == rule.id && score.version == rule.version && score.weight == kpi.weight
  }

  lemma {:induction false} StatusBeforeIs(L: Lookups, raw: Raw)
    requires Known(L, raw)
    ensures var plant, kpi, foreman := L.plants[raw.plant], L.kpis[raw.kpi], L.foremen[raw.foreman];
            var status := StatusBeforeTarget(L, raw, plant, L.chiefs[raw.chief], L.shifts[raw.shift].id, foreman, kpi);
            var fits := L.chiefs[raw.chief] == plant.chief
                        && IsExpected(L, raw.date, foreman, plant.id, L.shifts[raw.shift].id);
            var inRange := raw.actual.Some? && kpi.minValid <= raw.actual.value <= kpi.maxValid;
            && (status == Suspicious <==> !fits)
            && (status == Missing <==> fits && raw.actual.None?)
            && (status == Invalid <==> fits && raw.actual.Some? && !inRange)
            && (status == Complete <==> fits && inRange)
  {
    ExpectedExactlyWhen(L, raw.date, L.foremen[raw.foreman], L.plants[raw.plant].id, L.shifts[raw.shift].id);
    hide ExpectedShift, IsExpected;
  }

  /** A line that resolves gives the row that carries it. */
  lemma {:induction false} LineIsCarried(L: Lookups, system: string, raw: Raw, id: Id)
    requires Resolve(L, system, raw, id).Ready?
    ensures Known(L, raw)
    ensures Carries(L, system, raw, id, Resolve(L, system, raw, id).row)
    ensures ScoredBy(L, raw, Resolve(L, system, raw, id).row)
  {
    StatusBeforeIs(L, raw);
    ColumnsAreCarried(L, system, raw, id);
    hide StatusBeforeTarget, ExpectedShift, IsExpected, WithRule, IsCarriedAs, ScoredBy;
  }

  /** The row has this status and target, and else the line's fields. */
  predicate IsCarriedAs(
    L: Lookups, system: string, raw: Raw, id: Id, status: Quality, target: Option<real>, row: Row)
    requires Known(L, raw)
  {
    && row.id == id && row.source == Source(system, raw.recordId) && row.key == KeyFor(L, raw)
    && row.content == Content(target, raw.actual, raw.numerator, raw.denominator, raw.unit, status, raw.updatedAt,
                              raw.production)
  }

  lemma {:induction false} ColumnsAreCarried(L: Lookups, system: string, raw: Raw, id: Id)
    requires Known(L, raw)
    ensures forall status, target | status != Complete || raw.actual.Some? ::
              var o := WithRule(L, system, raw, id, status, target);
              o.Ready? ==>
                && IsCarriedAs(L, system, raw, id, status, target, o.row)
                && (status != Complete || target.Some? ==> ScoredBy(L, raw, o.row))
  {}

  /** Chief and shift are as expected and the value is in the KPI's range. */
  ghost predicate InOrder(L: Lookups, raw: Raw)
    requires Known(L, raw)
  {
    var plant, kpi := L.plants[raw.plant], L.kpis[raw.kpi];
    && L.chiefs[raw.chief] == plant.chief
    && IsExpected(L, raw.date, L.foremen[raw.foreman], plant.id, L.shifts[raw.shift].id)
    && raw.actual.Some? && kpi.minValid <= raw.actual.value <= kpi.maxValid
  }

  /** The rule of the KPI and date is ambiguous, or its formula fails on the line. */
  predicate ScoringFails(L: Lookups, raw: Raw, target: real)
    requires Known(L, raw) && raw.actual.Some?
  {
    var kpi := L.kpis[raw.kpi];
    match L.ruleFor(kpi.id, raw.date)
    case Nothing => false
    case Ambiguous => true
    case One(rule) => L.formula(rule, kpi, raw.actual.value, target, raw.numerator, raw.denominator).None?
  }

  /** A line is counted as an error exactly when a code of it is unknown, and ends the run exactly when
      the assignment that decides names no shift, or, for a line in order, the planned target is
      ambiguous or scoring fails. */
  lemma {:induction false} LineFailsExactlyWhen(L: Lookups, system: string, raw: Raw, id: Id)
    ensures Resolve(L, system, raw, id).Unknown? <==>
              raw.plant !in L.plants || raw.chief !in L.chiefs || raw.shift !in L.shifts
              || raw.foreman !in L.foremen || raw.kpi !in L.kpis
    ensures Resolve(L, system, raw, id).Raises? <==>
              Known(L, raw)
              && (NamesNoShift(L, raw.date, L.foremen[raw.foreman], L.plants[raw.plant].id)
                  || (InOrder(L, raw) && TargetOrScoreFails(L, raw)))
  {
    if !Known(L, raw) { return; }
    StatusBeforeIs(L, raw);
    ExpectedExactlyWhen(L, raw.date, L.foremen[raw.foreman], L.plants[raw.plant].id, L.shifts[raw.shift].id);
    hide StatusBeforeTarget, ExpectedShift, IsExpected, NamesNoShift, WithRule;
    WithRuleFails(L, system, raw, id);
  }

  predicate TargetOrScoreFails(L: Lookups, raw: Raw)
    requires Known(L, raw) && raw.actual.Some?
  {
    match raw.target
    case Some(t) => ScoringFails(L, raw, t)
    case None =>
      match PlannedTarget(L, raw)
      case Nothing => false
      case Ambiguous => true
      case One(t) => ScoringFails(L, raw, t)
  }

  lemma {:induction false} WithRuleFails(L: Lookups, system: string, raw: Raw, id: Id)
    requires Known(L, raw)
    ensures forall status, target | status != Complete :: WithRule(L, system, raw, id, status, target).Ready?
    ensures raw.actual.Some? ==>
              forall t :: var o := WithRule(L, system, raw, id, Complete, Some(t));
                          if ScoringFails(L, raw, t) then o.Raises? else o.Ready?
  {}

  // ---- From the feed to the tables ----

  lemma {:induction false} ReadyIsRow(outs: seq<Outcome>, i: nat)
    requires !Interrupted(outs) && i < |outs| && outs[i].Ready?
    ensures outs[i].row in RowsOf(outs)
    decreases |outs|
  {
    InterruptedSteps(outs);
    if i < |outs| - 1 { ReadyIsRow(outs[..|outs| - 1], i); }
  }

  /** A finished run over a feed whose lines have distinct sources: every line with known codes has
      become a row that carries it, column by column, and the tables hold what that row brings. */
  lemma {:induction false} FeedStoresLines(
    L: Lookups, system: string, st: State, raws: seq<Raw>, ids: seq<Id>, k: nat, i: nat)
    requires |ids| == |raws| && i < |raws| && Known(L, raws[i]) && k > 0 && Valid(st)
    requires var outs := ResolveAll(L, system, raws, ids);
             !Interrupted(outs) && FreshIds(st.records, RowsOf(outs)) && DistinctSources(RowsOf(outs))
    ensures Resolve(L, system, raws[i], ids[i]).Ready?
    ensures var row := Resolve(L, system, raws[i], ids[i]).row;
            && Carries(L, system, raws[i], ids[i], row) && ScoredBy(L, raws[i], row)
            && Settles(st, RunAll(st, ResolveAll(L, system, raws, ids), k).state, row)
  {
    var outs := ResolveAll(L, system, raws, ids);
    assert outs[i] == Resolve(L, system, raws[i], ids[i]);
    assert !outs[i].Raises?;
    LineFailsExactlyWhen(L, system, raws[i], ids[i]);
    LineIsCarried(L, system, raws[i], ids[i]);
    ReadyIsRow(outs, i);
    var j :| 0 <= j < |RowsOf(outs)| && RowsOf(outs)[j] == outs[i].row;
    hide Resolve, ResolveAll, RunAll, RowsOf, Settles, Carries, ScoredBy, FreshIds, DistinctSources, Interrupted;
    RunStoresRows(st, outs, k, j);
  }
}
