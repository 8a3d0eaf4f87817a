/** How a feed line becomes a row: code lookups, the assignment that covers the date, the weekly
    shift rotation, and the quality status.  The main result is that no store ever holds two
    COMPLETE records for one KPI, plant, date and shift. */
module IngestionResolve {
  import opened IngestionHistory
  import opened IngestionLaws
  import opened IngestionRerun
  import opened IngestionRun
  import opened IngestionStore
  import opened Options
  import opened ShiftRotation

  datatype Plant = Plant(id: Id, chief: Id)

  datatype Kpi = Kpi(id: Id, minValid: real, maxValid: real, minScore: real, maxScore: real, weight: real)

  datatype Assignment = Assignment(foreman: Id, plant: Id, shift: Id, start: int, end: Option<int>, active: bool)

  datatype Rule = Rule(id: Id, version: int)

  /** A lookup finds one value, none, or more than one. */
  datatype Found<T> = One(value: T) | Nothing | Ambiguous

  /** The reference data of one run.  Targets, rules and formulas are functions of their arguments. */
  datatype Lookups = Lookups(
    plants: map<string, Plant>, chiefs: map<string, Id>, shifts: map<string, Shift>, foremen: map<string, Id>,
    kpis: map<string, Kpi>, shiftList: seq<Shift>, assignments: seq<Assignment>,
    targetFor: (Id, int, Id, Id, Id) -> Found<real>,
    ruleFor: (Id, int) -> Found<Rule>,
    formula: (Rule, Kpi, real, real, Option<real>, Option<real>) -> Option<(real, real)>)

  datatype Raw = Raw(
    recordId: string, plant: string, chief: string, shift: string, foreman: string, kpi: string, date: int,
    target: Option<real>, actual: Option<real>, numerator: Option<real>, denominator: Option<real>,
    unit: string, updatedAt: Option<int>, production: Option<Id>)

  /** The reference tables' constraints: plant ids and shift ids are primary keys, an assignment's
      shift exists, and no two assignments (active or not) share plant, shift and a date. */
  ghost predicate Consistent(L: Lookups) {
    && (forall c, d | c in L.plants && d in L.plants && L.plants[c].id == L.plants[d].id :: L.plants[c] == L.plants[d])
    && ShiftsDistinct(L.shiftList)
    && (forall c | c in L.shifts :: L.shifts[c] in L.shiftList)
    && (forall i | 0 <= i < |L.assignments| :: exists s | s in L.shiftList :: s.id == L.assignments[i].shift)
    && (forall i, j | 0 <= i < j < |L.assignments| :: !Excluded(L.assignments[i], L.assignments[j]))
  }

  predicate Covers(a: Assignment, date: int) {
    a.start <= date && (a.end.None? || a.end.value >= date)
  }

  /** The EXCLUDE constraint's conflict: same plant and shift, and inclusive date ranges that meet. */
  ghost predicate Excluded(a: Assignment, b: Assignment) {
    a.plant == b.plant && a.shift == b.shift && exists date: int :: Covers(a, date) && Covers(b, date)
  }

  // ---- Resolving a line ----

  predicate Matches(a: Assignment, date: int, foreman: Id, plant: Id) {
    a.active && a.foreman == foreman && a.plant == plant && Covers(a, date)
  }

  function MatchOf(assignments: seq<Assignment>, date: int, foreman: Id, plant: Id): (r: Option<Assignment>)
    ensures r.Some? ==> r.value in assignments && Matches(r.value, date, foreman, plant)
    ensures r.None? ==> forall a | a in assignments :: !Matches(a, date, foreman, plant)
    decreases |assignments|
  {
    if assignments == [] then None
    else if Matches(assignments[0], date, foreman, plant) then Some(assignments[0])
    else MatchOf(assignments[1..], date, foreman, plant)
  }

  function ShiftById(shifts: seq<Shift>, id: Id): (r: Option<Shift>)
    ensures r.Some? ==> r.value in shifts && r.value.id == id
    ensures r.None? ==> forall s | s in shifts :: s.id != id
    decreases |shifts|
  {
    if shifts == [] then None else if shifts[0].id == id then Some(shifts[0]) else ShiftById(shifts[1..], id)
  }

  /** What the search for the expected shift comes to: no assignment, the rotated shift, or, when the
      assignment's shift is not among the shifts, an exception nobody catches. */
  datatype Expected = Unassigned | Works(shift: Id) | NoSuchShift

  /** The shift the foreman is expected to work at the plant on the date, if assigned there at all. */
  function ExpectedShift(L: Lookups, date: int, foreman: Id, plant: Id): Expected {
    match MatchOf(L.assignments, date, foreman, plant)
    case None => Unassigned
    case Some(a) =>
      match ShiftById(L.shiftList, a.shift)
      case None => NoSuchShift
      case Some(anchor) => Works(ActualShift(date, anchor, L.shiftList).id)
  }

  /** The search as it runs: the first candidate that matches decides. */
  method ResolveAssignment(L: Lookups, date: int, foreman: Id, plant: Id) returns (expected: Expected)
    ensures expected == ExpectedShift(L, date, foreman, plant)
  {
    var i := 0;
    while i < |L.assignments|
      invariant 0 <= i <= |L.assignments|
      invariant MatchOf(L.assignments, date, foreman, plant) == MatchOf(L.assignments[i..], date, foreman, plant)
    {
      if Matches(L.assignments[i], date, foreman, plant) {
        var anchor := ShiftById(L.shiftList, L.assignments[i].shift);
        return if anchor.None? then NoSuchShift else Works(ActualShift(date, anchor.value, L.shiftList).id);
      }
      i := i + 1;
    }
    return Unassigned;
  }

  /** The status before the target is looked up. */
  function StatusBeforeTarget(L: Lookups, raw: Raw, plant: Plant, chief: Id, shift: Id, foreman: Id,
                              kpi: Kpi): Quality {
    if chief != plant.chief || ExpectedShift(L, raw.date, foreman, plant.id) != Works(shift) then Suspicious
    else if raw.actual.None? then Missing
    else if raw.actual.value < kpi.minValid || raw.actual.value > kpi.maxValid then Invalid
    else Complete
  }

  predicate Known(L: Lookups, raw: Raw) {
    && raw.plant in L.plants && raw.chief in L.chiefs && raw.shift in L.shifts && raw.foreman in L.foremen
    && raw.kpi in L.kpis
  }

  function KeyFor(L: Lookups, raw: Raw): Key
    requires Known(L, raw)
  {
    var plant := L.plants[raw.plant];
    Key(L.foremen[raw.foreman], L.kpis[raw.kpi].id, plant.chief, L.shifts[raw.shift].id, raw.date, plant.id)
  }

  /** One feed line: unknown codes, an exception, or the row to store under `id`. */
  function Resolve(L: Lookups, system: string, raw: Raw, id: Id): Outcome {
    if !Known(L, raw) then Unknown else
    var plant, kpi, foreman := L.plants[raw.plant], L.kpis[raw.kpi], L.foremen[raw.foreman];
    if ExpectedShift(L, raw.date, foreman, plant.id).NoSuchShift? then Raises else
    var status := StatusBeforeTarget(L, raw, plant, L.chiefs[raw.chief], L.shifts[raw.shift].id, foreman, kpi);
    if status == Complete && raw.target.None? then
      match L.targetFor(kpi.id, raw.date, foreman, plant.chief, plant.id)
      case One(t) => WithRule(L, system, raw, id, Complete, Some(t))
      case Nothing => WithRule(L, system, raw, id, NeedsSourceCorrection, None)
      case Ambiguous => Raises
    else WithRule(L, system, raw, id, status, raw.target)
  }

  function WithRule(L: Lookups, system: string, raw: Raw, id: Id, status: Quality, target: Option<real>): Outcome
    requires Known(L, raw) && (status == Complete ==> raw.actual.Some?)
  {
    var kpi := L.kpis[raw.kpi];
    var row := Row(id, Source(system, raw.recordId), KeyFor(L, raw),
                   Content(target, raw.actual, raw.numerator, raw.denominator, raw.unit, status, raw.updatedAt,
                           raw.production),
                   None);
    if status != Complete || target.None? then Ready(row) else
    match L.ruleFor(kpi.id, raw.date)
    case Nothing => Ready(row)
    case Ambiguous => Raises
    case One(rule) =>
      match L.formula(rule, kpi, raw.actual.value, target.value, raw.numerator, raw.denominator)
      case None => Raises
      case Some(score) => Ready(row.(score := Some(Score(rule.id, score.0, score.1, kpi.weight, rule.version))))
  }

  /** A whole feed; line i would be inserted under ids[i]. */
  function ResolveAll(L: Lookups, system: string, raws: seq<Raw>, ids: seq<Id>): (outs: seq<Outcome>)
    requires |ids| == |raws|
    ensures |outs| == |raws| && forall i | 0 <= i < |raws| :: outs[i] == Resolve(L, system, raws[i], ids[i])
  {
    seq(|raws|, i requires 0 <= i < |raws| => Resolve(L, system, raws[i], ids[i]))
  }

  // ---- What a COMPLETE row means ----

  /** The foreman is assigned to the plant on that date, the shift is the one the assignment rotates
      into, and the chief is the plant's. */
  predicate Located(L: Lookups, key: Key) {
    && (exists c | c in L.plants :: L.plants[c] == Plant(key.plant, key.chief))
    && (exists i | 0 <= i < |L.assignments| :: LocatedBy(L, L.assignments[i], key))
  }

  predicate LocatedBy(L: Lookups, a: Assignment, key: Key) {
    Matches(a, key.date, key.foreman, key.plant)
    && var anchor := ShiftById(L.shiftList, a.shift);
       anchor.Some? && ActualShift(key.date, anchor.value, L.shiftList).id == key.shift
  }

  /** A rule resolves for this KPI and date. */
  predicate Ruled(L: Lookups, kpi: Id, date: int) {
    L.ruleFor(kpi, date).One?
  }

  lemma {:induction false} RowIsLocated(L: Lookups, system: string, raw: Raw, id: Id)
    requires Resolve(L, system, raw, id).Ready?
    ensures RowLocated(Resolve(L, system, raw, id).row, k => Located(L, k))
  {
    var row := Resolve(L, system, raw, id).row;
    if row.content.status == Complete {
      assert L.plants[raw.plant] == Plant(row.key.plant, row.key.chief);
      var a := MatchOf(L.assignments, raw.date, row.key.foreman, row.key.plant).value;
      var i :| 0 <= i < |L.assignments| && L.assignments[i] == a;
      assert LocatedBy(L, L.assignments[i], row.key);
    }
  }

  /** Under the foreign key on an assignment's shift the search never fails. */
  lemma {:induction false} SearchNeverFails(L: Lookups, date: int, foreman: Id, plant: Id)
    requires Consistent(L)
    ensures !ExpectedShift(L, date, foreman, plant).NoSuchShift?
  {
    var a := MatchOf(L.assignments, date, foreman, plant);
    if a.Some? {
      var i :| 0 <= i < |L.assignments| && L.assignments[i] == a.value;
      var s :| s in L.shiftList && s.id == L.assignments[i].shift;
    }
  }

  /** A resolved row has a score exactly when it is COMPLETE with a target and a rule. */
  lemma {:induction false} RowIsScored(L: Lookups, system: string, raw: Raw, id: Id)
    requires Resolve(L, system, raw, id).Ready?
    ensures RowScored(Resolve(L, system, raw, id).row, (kpi: Id, date: int) => Ruled(L, kpi, date))
    ensures Resolve(L, system, raw, id).row.content.status == Complete
            ==> Resolve(L, system, raw, id).row.content.target.Some?
  {
    hide StatusBeforeTarget;
  }

  /** The id plays no part in resolving a line. */
  lemma {:induction false} ResolveIgnoresId(L: Lookups, system: string, raw: Raw, id: Id, id': Id)
    ensures SameLine(Resolve(L, system, raw, id), Resolve(L, system, raw, id'))
  {
    hide StatusBeforeTarget;
  }

  /** Two foremen are never located in the same plant and shift on one date. */
  lemma {:induction false} OneForemanPerSlot(L: Lookups, k1: Key, k2: Key)
    requires Consistent(L) && Located(L, k1) && Located(L, k2)
    requires k1.plant == k2.plant && k1.date == k2.date && k1.shift == k2.shift
    ensures k1.foreman == k2.foreman && k1.chief == k2.chief
  {
    var i :| 0 <= i < |L.assignments| && LocatedBy(L, L.assignments[i], k1);
    var j :| 0 <= j < |L.assignments| && LocatedBy(L, L.assignments[j], k2);
    var a, b := L.assignments[i], L.assignments[j];
    var s, t := ShiftById(L.shiftList, a.shift).value, ShiftById(L.shiftList, b.shift).value;
    if s != t { RotationIsInjective(k1.date, s, t, L.shiftList); }
    assert Covers(a, k1.date) && Covers(b, k1.date);
    assert i == j;
  }

  // ---- Runs over resolved feeds ----

  datatype FeedRun = FeedRun(system: string, raws: seq<Raw>, ids: seq<Id>, k: nat)

  function Inputs(L: Lookups, feeds: seq<FeedRun>): (r: seq<RunInput>)
    requires forall i | 0 <= i < |feeds| :: |feeds[i].ids| == |feeds[i].raws|
    ensures |r| == |feeds|
  {
    seq(|feeds|, i requires 0 <= i < |feeds| => RunInput(ResolveAll(L, feeds[i].system, feeds[i].raws, feeds[i].ids),
                                                         feeds[i].k))
  }

  lemma {:induction false} ResolvedFeedIsLocated(L: Lookups, system: string, raws: seq<Raw>, ids: seq<Id>)
    requires |ids| == |raws|
    ensures OutcomesLocated(ResolveAll(L, system, raws, ids), k => Located(L, k))
  {
    var outs := ResolveAll(L, system, raws, ids);
    forall i | 0 <= i < |outs| && outs[i].Ready? ensures RowLocated(outs[i].row, k => Located(L, k)) {
      RowIsLocated(L, system, raws[i], ids[i]);
    }
  }

  /** With the reference data fixed, whatever runs are made, finished or interrupted, with repeated
      or corrected lines: no store they reach holds two COMPLETE records for one KPI, plant, date
      and shift, whoever the foremen are. */
  lemma {:induction false} NoTwoCompleteRecordsPerSlot(L: Lookups, st: State, feeds: seq<FeedRun>, a: Id, b: Id)
    requires Consistent(L) && Healthy(st, k => Located(L, k))
    requires forall i | 0 <= i < |feeds| :: |feeds[i].ids| == |feeds[i].raws|
    requires var records := AfterRuns(st, Inputs(L, feeds)).records;
             && a in records && b in records
             && records[a].content.status == Complete && records[b].content.status == Complete
             && records[a].key.kpi == records[b].key.kpi && records[a].key.plant == records[b].key.plant
             && records[a].key.date == records[b].key.date && records[a].key.shift == records[b].key.shift
    ensures a == b
  {
    var runs := Inputs(L, feeds);
    forall i | 0 <= i < |runs| ensures OutcomesLocated(runs[i].outs, k => Located(L, k)) {
      ResolvedFeedIsLocated(L, feeds[i].system, feeds[i].raws, feeds[i].ids);
    }
    RunsKeepHealthy(st, runs, k => Located(L, k));
    var records := AfterRuns(st, runs).records;
    assert Located(L, records[a].key) && Located(L, records[b].key);
    hide AfterRuns, Located, Consistent;
    OneForemanPerSlot(L, records[a].key, records[b].key);
  }

  /** Running one feed twice over the same reference data leaves records and scores as the first
      run left them, with the same counts. */
  lemma {:induction false} SecondRunChangesNothing(L: Lookups, st: State, first: FeedRun, second: FeedRun)
    requires |first.ids| == |first.raws| && |second.ids| == |first.raws|
    requires second.system == first.system && second.raws == first.raws && first.k > 0 && second.k > 0
    requires Valid(st)
    requires var outs := ResolveAll(L, first.system, first.raws, first.ids);
             && !Interrupted(outs) && FreshIds(st.records, RowsOf(outs)) && DistinctSources(RowsOf(outs))
             && FreshIds(RunAll(st, outs, first.k).state.records,
                         RowsOf(ResolveAll(L, second.system, second.raws, second.ids)))
    ensures var p := RunAll(st, ResolveAll(L, first.system, first.raws, first.ids), first.k);
            var p' := RunAll(p.state, ResolveAll(L, second.system, second.raws, second.ids), second.k);
            && p'.state.records == p.state.records && p'.state.scores == p.state.scores
            && p'.state.success == p.state.success && p'.state.skipped == p.state.skipped && p'.errors == p.errors
  {
    var outs := ResolveAll(L, first.system, first.raws, first.ids);
    var outs' := ResolveAll(L, second.system, second.raws, second.ids);
    forall i | 0 <= i < |outs| ensures SameLine(outs[i], outs'[i]) {
      ResolveIgnoresId(L, first.system, first.raws[i], first.ids[i], second.ids[i]);
    }
    RerunChangesNothing(st, outs, first.k, outs', second.k);
  }
}
