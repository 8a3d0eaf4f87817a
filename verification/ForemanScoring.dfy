/** Foreman scores: the grouping loops over all records, a reference definition that looks at one
    foreman alone, and the page-only computation of the foreman list. */
module ForemanScoring {
  import opened Options

  type Id = nat

  datatype Record = Record(
    foreman: Id, plant: Id, chief: Id, shift: Id, kpi: Id, date: int, complete: bool,
    numerator: Option<real>, denominator: Option<real>, target: Option<real>, actual: Option<real>)

  datatype Filters = Filters(
    dateFrom: int, dateTo: int, plants: Option<set<Id>>, factories: Option<set<Id>>, chiefs: Option<set<Id>>,
    shifts: Option<set<Id>>, kpis: Option<set<Id>>, foremen: Option<set<Id>>)

  predicate Allows(f: Option<set<Id>>, x: Id) { f.None? || x in f.value }

  /** _apply_filters, without the clause on the foreman. */
  predicate PassesOthers(factoryOf: Id -> Id, f: Filters, r: Record) {
    && f.dateFrom <= r.date <= f.dateTo && Allows(f.plants, r.plant) && Allows(f.factories, factoryOf(r.plant))
    && Allows(f.chiefs, r.chief) && Allows(f.shifts, r.shift) && Allows(f.kpis, r.kpi)
  }

  predicate Passes(factoryOf: Id -> Id, f: Filters, r: Record) {
    PassesOthers(factoryOf, f, r) && Allows(f.foremen, r.foreman)
  }

  /** What the formula and the queries of a KPI make of the records of one foreman at one plant. */
  datatype Verdict = NoEntry | Fails | Entered(entry: Entry)

  datatype Entry = Entry(capped: real, raw: real, count: nat)

  datatype Kpi = Kpi(id: Id, weight: real, score: seq<Record> -> Verdict)

  datatype Store = Store(records: seq<Record>, activeKpis: seq<Kpi>, factoryOf: Id -> Id,
                         geometric: seq<(real, real)> -> real)

  // ---- Selecting and grouping ----

  function Selected(s: Store, f: Filters, kpi: Kpi, n: nat): seq<Record>
    requires n <= |s.records|
    decreases n
  {
    if n == 0 then [] else
    var r := s.records[n - 1];
    Selected(s, f, kpi, n - 1) + if r.kpi == kpi.id && r.complete && Passes(s.factoryOf, f, r) then [r] else []
  }

  function Rows(s: Store, f: Filters, kpi: Kpi): seq<Record> { Selected(s, f, kpi, |s.records|) }

  /** The rows of one group, in order. */
  function GroupOf(rows: seq<Record>, foreman: Id, plant: Id): seq<Record>
    decreases |rows|
  {
    if rows == [] then [] else
    var r := rows[|rows| - 1];
    GroupOf(rows[..|rows| - 1], foreman, plant) + if r.foreman == foreman && r.plant == plant then [r] else []
  }

  /** sum(denominator_value): nulls are left out. */
  function DenominatorSum(rows: seq<Record>): real
    decreases |rows|
  {
    if rows == [] then 0.0 else
    var d := rows[|rows| - 1].denominator;
    DenominatorSum(rows[..|rows| - 1]) + if d.Some? then d.value else 0.0
  }

  /** The period score of one group: only a positive denominator gives one. */
  function EntryOf(kpi: Kpi, own: seq<Record>): Option<Entry> {
    if DenominatorSum(own) > 0.0 && kpi.score(own).Entered? then Some(kpi.score(own).entry) else None
  }

  /** GROUP BY foreman, plant. */
  method Group(rows: seq<Record>) returns (groups: map<(Id, Id), seq<Record>>)
    ensures forall f: Id, p: Id :: (f, p) in groups <==> GroupOf(rows, f, p) != []
    ensures forall f: Id, p: Id | (f, p) in groups :: groups[(f, p)] == GroupOf(rows, f, p)
  {
    groups := map[];
    var i := 0;
    while i < |rows|
      invariant 0 <= i <= |rows|
      invariant forall f: Id, p: Id :: (f, p) in groups <==> GroupOf(rows[..i], f, p) != []
      invariant forall f: Id, p: Id | (f, p) in groups :: groups[(f, p)] == GroupOf(rows[..i], f, p)
    {
      var key := (rows[i].foreman, rows[i].plant);
      assert rows[..i + 1][..i] == rows[..i] && rows[..i + 1][i] == rows[i];
      groups := groups[key := (if key in groups then groups[key] else []) + [rows[i]]];
      i := i + 1;
    }
    assert rows[..i] == rows;
  }

  // ---- One foreman alone: the reference ----

  function PlantsIn(rows: seq<Record>): set<Id> { set r | r in rows :: r.plant }

  /** The foreman's entry at each plant that has one. */
  function EntriesOf(rows: seq<Record>, kpi: Kpi, foreman: Id): map<Id, Entry> {
    map p | p in PlantsIn(rows) && EntryOf(kpi, GroupOf(rows, foreman, p)).Some? ::
      EntryOf(kpi, GroupOf(rows, foreman, p)).value
  }

  predicate FailsFor(rows: seq<Record>, kpi: Kpi, foreman: Id) {
    exists p | p in PlantsIn(rows) :: GroupOf(rows, foreman, p) != [] && kpi.score(GroupOf(rows, foreman, p)) == Fails
  }

  ghost predicate AnyPositive(rows: seq<Record>) {
    exists f: Id, p: Id :: DenominatorSum(GroupOf(rows, f, p)) > 0.0
  }

  /** A group fails the computation of the KPI for all, provided some group has a positive
      denominator: without one the formula and its queries are never reached. */
  ghost predicate KpiFails(rows: seq<Record>, kpi: Kpi) {
    AnyPositive(rows) && exists foreman: Id :: FailsFor(rows, kpi, foreman)
  }

  /** The sums over the plants. */
  ghost function TotalOf(m: map<Id, Entry>): Entry
    decreases |m|
  {
    if m.Keys == {} then Entry(0.0, 0.0, 0) else
    var p :| p in m.Keys;
    Plus(TotalOf(m - {p}), m[p])
  }

  function Plus(t: Entry, e: Entry): Entry { Entry(t.capped + e.capped, t.raw + e.raw, t.count + e.count) }

  lemma PlusSwaps(t: Entry, a: Entry, b: Entry)
    ensures Plus(Plus(t, a), b) == Plus(Plus(t, b), a)
  {}

  /** The order in which the plants are added up does not matter. */
  lemma {:induction false} TotalRemoves(m: map<Id, Entry>, p: Id)
    requires p in m
    ensures TotalOf(m) == Plus(TotalOf(m - {p}), m[p])
    decreases |m|
  {
    var q: Id :| q in m.Keys && TotalOf(m) == Plus(TotalOf(m - {q}), m[q]);
    if q != p {
      TotalRemoves(m - {q}, p);
      TotalRemoves(m - {p}, q);
      var rest := m - {q} - {p};
      assert rest == m - {p} - {q};
      assert (m - {q})[p] == m[p] && (m - {p})[q] == m[q];
      hide *;
      PlusSwaps(TotalOf(rest), m[p], m[q]);
    }
  }

  /** One KPI of one foreman: averages over the plants, the weight and the record count. */
  datatype Item = Item(score: real, weight: real, count: nat)

  ghost function AverageItem(m: map<Id, Entry>, weight: real): Item
    requires m != map[]
  {
    Item(TotalOf(m).capped / |m| as real, weight, TotalOf(m).count)
  }

  ghost function ItemsOf(s: Store, f: Filters, foreman: Id, n: nat): seq<Item>
    requires n <= |s.activeKpis|
    decreases n
  {
    if n == 0 then [] else ItemsOf(s, f, foreman, n - 1) + ItemOf(s, f, foreman, n - 1)
  }

  /** What one KPI adds to the foreman's items: one item, or none when no plant has an entry. */
  ghost function ItemOf(s: Store, f: Filters, foreman: Id, n: nat): seq<Item>
    requires n < |s.activeKpis|
  {
    var kpi := s.activeKpis[n];
    var m := EntriesOf(Rows(s, f, kpi), kpi, foreman);
    if m == map[] then [] else [AverageItem(m, kpi.weight)]
  }

  const MIN_COVERED_WEIGHT_RATIO := 0.5
  const WEIGHT_TOLERANCE := 0.5

  datatype GroupScore = GroupScore(total: real, reliable: bool, count: nat, covered: real)

  function SumWeights(items: seq<Item>): real
    decreases |items|
  {
    if items == [] then 0.0 else SumWeights(items[..|items| - 1]) + items[|items| - 1].weight
  }

  function SumCounts(items: seq<Item>): nat
    decreases |items|
  {
    if items == [] then 0 else SumCounts(items[..|items| - 1]) + items[|items| - 1].count
  }

  function Combined(s: Store, items: seq<Item>, totalWeight: real): GroupScore {
    var covered := SumWeights(items);
    var insufficient := covered < totalWeight * MIN_COVERED_WEIGHT_RATIO;
    var components := seq(|items|, i requires 0 <= i < |items| => (items[i].score, items[i].weight));
    GroupScore(if insufficient then 0.0 else s.geometric(components),
               !insufficient && covered >= totalWeight - WEIGHT_TOLERANCE, SumCounts(items), covered)
  }

  /** active_kpi_weight_sum: only the KPI filter counts. */
  function TotalWeight(kpis: seq<Kpi>, chosen: Option<set<Id>>): real
    decreases |kpis|
  {
    if kpis == [] then 0.0 else
    var last := kpis[|kpis| - 1];
    TotalWeight(kpis[..|kpis| - 1], chosen) + if Allows(chosen, last.id) then last.weight else 0.0
  }

  /** The score of one foreman, from that foreman's records only. */
  ghost function ScoreOf(s: Store, f: Filters, foreman: Id): Option<GroupScore> {
    var items := ItemsOf(s, f, foreman, |s.activeKpis|);
    if items == [] then None else Some(Combined(s, items, TotalWeight(s.activeKpis, f.kpis)))
  }

  ghost predicate AnyFailure(s: Store, f: Filters) {
    exists k | 0 <= k < |s.activeKpis| :: KpiFails(Rows(s, f, s.activeKpis[k]), s.activeKpis[k])
  }

  // ---- The computation for all foremen ----

  lemma {:induction false} GroupIsInPlants(rows: seq<Record>, f: Id, p: Id)
    requires GroupOf(rows, f, p) != []
    ensures p in PlantsIn(rows)
    decreases |rows|
  {
    var front, r := rows[..|rows| - 1], rows[|rows| - 1];
    assert rows == front + [r];
    if GroupOf(front, f, p) != [] { GroupIsInPlants(front, f, p); }
  }

  /** The entry arranged under a foreman and a plant. */
  function At(out: map<Id, map<Id, Entry>>, f: Id, p: Id): Option<Entry> {
    if f in out && p in out[f] then Some(out[f][p]) else None
  }

  /** The entry the groups visited so far give a foreman at a plant. */
  function Due(rows: seq<Record>, kpi: Kpi, visited: set<(Id, Id)>, f: Id, p: Id): Option<Entry> {
    if (f, p) in visited then EntryOf(kpi, GroupOf(rows, f, p)) else None
  }

  predicate NoneEmpty(out: map<Id, map<Id, Entry>>) { forall f | f in out :: out[f] != map[] }

  ghost predicate Arranged(rows: seq<Record>, kpi: Kpi, visited: set<(Id, Id)>, out: map<Id, map<Id, Entry>>) {
    && NoneEmpty(out)
    && (forall f: Id, p: Id :: At(out, f, p) == Due(rows, kpi, visited, f, p))
    && (forall f: Id, p: Id | (f, p) in visited :: kpi.score(GroupOf(rows, f, p)) != Fails)
  }

  /** The entry put under its foreman and plant, if there is one. */
  function With(out: map<Id, map<Id, Entry>>, f: Id, p: Id, e: Option<Entry>): map<Id, map<Id, Entry>> {
    if e.Some? then out[f := (if f in out then out[f] else map[])[p := e.value]] else out
  }

  lemma {:induction false} ArrangedOneMore(
    rows: seq<Record>, kpi: Kpi, visited: set<(Id, Id)>, out: map<Id, map<Id, Entry>>, f: Id, p: Id)
    requires Arranged(rows, kpi, visited, out) && kpi.score(GroupOf(rows, f, p)) != Fails
    ensures Arranged(rows, kpi, visited + {(f, p)}, With(out, f, p, EntryOf(kpi, GroupOf(rows, f, p))))
  {
    var e := EntryOf(kpi, GroupOf(rows, f, p));
    hide GroupOf, EntryOf, At, Due, NoneEmpty, With;
    WithIsNotEmpty(out, f, p, e);
    forall f': Id, p': Id ensures At(With(out, f, p, e), f', p') == Due(rows, kpi, visited + {(f, p)}, f', p') {
      AtOneMore(out, f, p, e, f', p');
      DueOneMore(rows, kpi, visited, f, p, f', p');
      assert At(out, f', p') == Due(rows, kpi, visited, f', p');
    }
  }

  lemma WithIsNotEmpty(out: map<Id, map<Id, Entry>>, f: Id, p: Id, e: Option<Entry>)
    requires NoneEmpty(out)
    ensures NoneEmpty(With(out, f, p, e))
  {
    if e.Some? { assert p in With(out, f, p, e)[f]; }
  }

  lemma DueOneMore(rows: seq<Record>, kpi: Kpi, visited: set<(Id, Id)>, f: Id, p: Id, f': Id, p': Id)
    ensures var e := EntryOf(kpi, GroupOf(rows, f, p));
            && Due(rows, kpi, visited + {(f, p)}, f', p')
               == (if f' == f && p' == p then e else Due(rows, kpi, visited, f', p'))
            && (Due(rows, kpi, visited, f, p).Some? ==> e.Some?)
  {
    hide EntryOf, GroupOf;
  }

  lemma AtOneMore(out: map<Id, map<Id, Entry>>, f: Id, p: Id, e: Option<Entry>, f': Id, p': Id)
    ensures At(With(out, f, p, e), f', p') == if e.Some? && f' == f && p' == p then e else At(out, f', p')
  {}

  /** _foreman_plant_kpi_entries: the groups' entries, arranged by foreman and plant.  When no group
      has a positive denominator nothing is evaluated, so nothing can fail. */
  method EntriesByForeman(rows: seq<Record>, kpi: Kpi) returns (failed: bool, out: map<Id, map<Id, Entry>>)
    ensures failed <==> KpiFails(rows, kpi)
    ensures !failed ==> forall f: Id :: f in out <==> EntriesOf(rows, kpi, f) != map[]
    ensures !failed ==> forall f | f in out :: out[f] == EntriesOf(rows, kpi, f)
  {
    var groups := Group(rows);
    failed, out := false, map[];
    var positive := map key | key in groups && DenominatorSum(groups[key]) > 0.0 :: groups[key];
    if positive == map[] {
      PositiveAreGroups(rows, groups, positive);
      NonePositive(rows, kpi);
      return;
    }
    assert AnyPositive(rows) by { PositiveAreGroups(rows, groups, positive); }
    var todo := groups.Keys;
    while todo != {}
      invariant todo <= groups.Keys && Arranged(rows, kpi, groups.Keys - todo, out)
    {
      hide GroupOf, Arranged, FailsFor, AnyPositive, EntryOf, DenominatorSum;
      var key :| key in todo;
      var (f, p) := key;
      assert key == (f, p) && groups[key] == GroupOf(rows, f, p);
      var e := kpi.score(groups[key]);
      if e.Fails? {
        OneFails(rows, kpi, f, p);
        return true, map[];
      }
      var entry := EntryOf(kpi, groups[key]);
      ArrangedOneMore(rows, kpi, groups.Keys - todo, out, f, p);
      assert groups.Keys - (todo - {key}) == groups.Keys - todo + {(f, p)};
      out := With(out, f, p, entry);
      todo := todo - {key};
    }
    assert groups.Keys - todo == groups.Keys;
    ArrangedIsEntries(rows, kpi, groups.Keys, out);
  }

  lemma {:induction false} PositiveAreGroups(
    rows: seq<Record>, groups: map<(Id, Id), seq<Record>>, positive: map<(Id, Id), seq<Record>>)
    requires forall f: Id, p: Id :: (f, p) in groups <==> GroupOf(rows, f, p) != []
    requires forall f: Id, p: Id | (f, p) in groups :: groups[(f, p)] == GroupOf(rows, f, p)
    requires positive == map key | key in groups && DenominatorSum(groups[key]) > 0.0 :: groups[key]
    ensures AnyPositive(rows) <==> positive != map[]
  {
    if f: Id, p: Id :| DenominatorSum(GroupOf(rows, f, p)) > 0.0 {
      assert GroupOf(rows, f, p) != [];
      assert (f, p) in positive;
    }
    hide GroupOf, DenominatorSum;
    if positive != map[] {
      var key :| key in positive.Keys;
      assert key == (key.0, key.1);
      assert groups[key] == GroupOf(rows, key.0, key.1);
    }
  }

  lemma {:induction false} NonePositive(rows: seq<Record>, kpi: Kpi)
    requires !AnyPositive(rows)
    ensures forall f: Id :: EntriesOf(rows, kpi, f) == map[]
  {
    hide GroupOf, DenominatorSum;
  }

  lemma {:induction false} OneFails(rows: seq<Record>, kpi: Kpi, f: Id, p: Id)
    requires GroupOf(rows, f, p) != [] && kpi.score(GroupOf(rows, f, p)) == Fails
    ensures FailsFor(rows, kpi, f)
  {
    GroupIsInPlants(rows, f, p);
  }

  lemma {:induction false} ArrangedIsEntries(
    rows: seq<Record>, kpi: Kpi, visited: set<(Id, Id)>, out: map<Id, map<Id, Entry>>)
    requires Arranged(rows, kpi, visited, out)
    requires forall f: Id, p: Id :: (f, p) in visited <==> GroupOf(rows, f, p) != []
    ensures forall f: Id :: f in out <==> EntriesOf(rows, kpi, f) != map[]
    ensures forall f | f in out :: out[f] == EntriesOf(rows, kpi, f)
    ensures forall f: Id :: !FailsFor(rows, kpi, f)
  {
    forall f: Id
      ensures f in out <==> EntriesOf(rows, kpi, f) != map[]
      ensures f in out ==> out[f] == EntriesOf(rows, kpi, f)
    {
      ArrangedFor(rows, kpi, visited, out, f);
    }
    forall f: Id ensures !FailsFor(rows, kpi, f) {}
  }

  lemma {:induction false} ArrangedFor(
    rows: seq<Record>, kpi: Kpi, visited: set<(Id, Id)>, out: map<Id, map<Id, Entry>>, f: Id)
    requires Arranged(rows, kpi, visited, out)
    requires forall f: Id, p: Id :: (f, p) in visited <==> GroupOf(rows, f, p) != []
    ensures f in out <==> EntriesOf(rows, kpi, f) != map[]
    ensures f in out ==> out[f] == EntriesOf(rows, kpi, f)
  {
    var m := EntriesOf(rows, kpi, f);
    forall p: Id ensures At(out, f, p) == if p in m then Some(m[p]) else None {
      if GroupOf(rows, f, p) != [] { GroupIsInPlants(rows, f, p); } else { assert DenominatorSum([]) == 0.0; }
    }
    hide Due, GroupOf;
    forall p | p in m ensures f in out && p in out[f] && out[f][p] == m[p] { assert At(out, f, p) == Some(m[p]); }
    if f in out {
      forall p | p in out[f] ensures p in m { assert At(out, f, p) == Some(out[f][p]); }
      assert out[f] == m;
    } else {
      assert m == map[];
    }
  }

  lemma PlusAssociates(t: Entry, a: Entry, b: Entry)
    ensures Plus(Plus(t, a), b) == Plus(t, Plus(b, a))
  {}

  lemma PlusZero(t: Entry)
    ensures Plus(t, Entry(0.0, 0.0, 0)) == t && Plus(Entry(0.0, 0.0, 0), t) == t
  {}

  lemma TotalOfNone()
    ensures TotalOf(map[]) == Entry(0.0, 0.0, 0)
  {}

  /** The sums over the plants, in any order. */
  method SumEntries(m: map<Id, Entry>) returns (sum: Entry)
    ensures sum == TotalOf(m)
  {
    hide TotalOf, Plus;
    sum := Entry(0.0, 0.0, 0);
    PlusZero(TotalOf(m));
    var left := m;
    while left != map[]
      invariant left.Keys <= m.Keys && TotalOf(m) == Plus(TotalOf(left), sum)
      decreases |left|
    {
      var p :| p in left;
      TotalRemoves(left, p);
      PlusAssociates(TotalOf(left - {p}), left[p], sum);
      sum := Plus(sum, left[p]);
      left := left - {p};
    }
    TotalOfNone();
    PlusZero(sum);
  }

  /** _equal_weight_plant_average: both averages, the number of plants and of their records. */
  method EqualWeightAverage(m: map<Id, Entry>) returns (capped: real, raw: real, plants: nat, records: nat)
    ensures plants == |m| && records == TotalOf(m).count
    ensures plants == 0 ==> capped == raw == 0.0
    ensures plants > 0 ==> capped == TotalOf(m).capped / |m| as real && raw == TotalOf(m).raw / |m| as real
  {
    var sum := SumEntries(m);
    plants, records := |m|, sum.count;
    if plants == 0 { return 0.0, 0.0, 0, records; }
    capped, raw := sum.capped / plants as real, sum.raw / plants as real;
  }

  function ItemsFor(per: map<Id, seq<Item>>, foreman: Id): seq<Item> {
    if foreman in per then per[foreman] else []
  }

  /** The items gathered so far: those of the first `n` KPIs, and of the next one for the foremen
      in `visited`. */
  ghost predicate Gathered(s: Store, f: Filters, n: nat, visited: set<Id>, per: map<Id, seq<Item>>)
    requires n <= |s.activeKpis| && (visited != {} ==> n < |s.activeKpis|)
  {
    && (forall x | x in per :: per[x] != [])
    && (forall x: Id :: ItemsFor(per, x) == ItemsOf(s, f, x, n) + if x in visited then ItemOf(s, f, x, n) else [])
  }

  lemma {:induction false} GatherOne(s: Store, f: Filters, n: nat, visited: set<Id>, per: map<Id, seq<Item>>, x: Id,
                                     item: Item)
    requires n < |s.activeKpis| && Gathered(s, f, n, visited, per) && x !in visited && ItemOf(s, f, x, n) == [item]
    ensures Gathered(s, f, n, visited + {x}, per[x := ItemsFor(per, x) + [item]])
  {
    hide ItemOf, ItemsOf;
    var per' := per[x := ItemsFor(per, x) + [item]];
    forall y: Id
      ensures ItemsFor(per', y) == ItemsOf(s, f, y, n) + if y in visited + {x} then ItemOf(s, f, y, n) else []
    {
      assert ItemsFor(per, y) == ItemsOf(s, f, y, n) + if y in visited then ItemOf(s, f, y, n) else [];
    }
  }

  /** Once every foreman with an entry is visited, the KPI is done. */
  lemma {:induction false} GatherNext(s: Store, f: Filters, n: nat, visited: set<Id>, per: map<Id, seq<Item>>)
    requires n < |s.activeKpis| && Gathered(s, f, n, visited, per)
    requires forall x: Id | x !in visited :: ItemOf(s, f, x, n) == []
    ensures Gathered(s, f, n + 1, {}, per)
  {
    hide ItemOf;
    forall x: Id ensures ItemsFor(per, x) == ItemsOf(s, f, x, n + 1) + [] {
      assert ItemsFor(per, x) == ItemsOf(s, f, x, n) + if x in visited then ItemOf(s, f, x, n) else [];
    }
  }

  /** One KPI for all foremen. */
  method GatherKpi(s: Store, f: Filters, n: nat, per: map<Id, seq<Item>>)
    returns (failed: bool, per': map<Id, seq<Item>>)
    requires n < |s.activeKpis| && Gathered(s, f, n, {}, per)
    ensures failed <==> KpiFails(Rows(s, f, s.activeKpis[n]), s.activeKpis[n])
    ensures !failed ==> Gathered(s, f, n + 1, {}, per')
  {
    hide Gathered, EntriesOf, KpiFails, Rows;
    var kpi, entries := s.activeKpis[n], map[];
    failed, entries := EntriesByForeman(Rows(s, f, kpi), kpi);
    per' := per;
    if failed { return; }
    var todo := entries.Keys;
    assert entries.Keys - todo == {};
    while todo != {}
      invariant todo <= entries.Keys && Gathered(s, f, n, entries.Keys - todo, per')
    {
      var x :| x in todo;
      var capped, raw, plants, records := EqualWeightAverage(entries[x]);
      var item := Item(capped, kpi.weight, records);
      GatherOne(s, f, n, entries.Keys - todo, per', x, item);
      assert entries.Keys - (todo - {x}) == entries.Keys - todo + {x};
      per' := per'[x := ItemsFor(per', x) + [item]];
      todo := todo - {x};
    }
    assert entries.Keys - todo == entries.Keys;
    GatherNext(s, f, n, entries.Keys, per');
  }

  /** foreman_scores: the loops over KPIs, groups and plants give every foreman exactly the score
      that the foreman's own records give.  None stands for an exception in a formula. */
  method ForemanScores(s: Store, f: Filters) returns (r: Option<map<Id, GroupScore>>)
    ensures r.None? <==> AnyFailure(s, f)
    ensures r.Some? ==>
              forall x: Id ::
                if x in r.value then ScoreOf(s, f, x) == Some(r.value[x]) else ScoreOf(s, f, x) == None
  {
    var totalWeight := TotalWeight(s.activeKpis, f.kpis);
    var failed, per := GatherAll(s, f);
    if failed { return None; }
    GatheredAreScores(s, f, per);
    hide ScoreOf, Combined, Gathered, AnyFailure;
    return Some(map x | x in per :: Combined(s, per[x], totalWeight));
  }

  method GatherAll(s: Store, f: Filters) returns (failed: bool, per: map<Id, seq<Item>>)
    ensures failed <==> AnyFailure(s, f)
    ensures !failed ==> Gathered(s, f, |s.activeKpis|, {}, per)
  {
    per := map[];
    var n := 0;
    while n < |s.activeKpis|
      invariant 0 <= n <= |s.activeKpis| && Gathered(s, f, n, {}, per)
      invariant forall k | 0 <= k < n :: !KpiFails(Rows(s, f, s.activeKpis[k]), s.activeKpis[k])
    {
      hide Gathered, KpiFails, Rows;
      failed, per := GatherKpi(s, f, n, per);
      if failed { return; }
      n := n + 1;
    }
    failed := false;
  }

  lemma {:induction false} GatheredAreScores(s: Store, f: Filters, per: map<Id, seq<Item>>)
    requires Gathered(s, f, |s.activeKpis|, {}, per)
    ensures forall x: Id ::
              ScoreOf(s, f, x)
              == if x in per then Some(Combined(s, per[x], TotalWeight(s.activeKpis, f.kpis))) else None
  {
    hide ItemsOf, Combined;
    forall x: Id
      ensures ScoreOf(s, f, x)
              == if x in per then Some(Combined(s, per[x], TotalWeight(s.activeKpis, f.kpis))) else None
    {
      var items := ItemsOf(s, f, x, |s.activeKpis|);
      assert ItemsFor(per, x) == items + [];
      assert items + [] == items;
    }
  }

  // ---- Page only ----

  /** The same filters, narrowed to the foremen of a page. */
  function Narrowed(f: Filters, page: set<Id>): Filters { f.(foremen := Some(page)) }

  /** The rows of one foreman are the same under two filters that differ only in which other
      foremen they allow. */
  lemma {:induction false} GroupCommutes(s: Store, f: Filters, chosen: Option<set<Id>>, kpi: Kpi, n: nat, foreman: Id,
                                         plant: Id)
    requires n <= |s.records|
    requires Allows(f.foremen, foreman) && Allows(chosen, foreman)
    ensures GroupOf(Selected(s, f.(foremen := chosen), kpi, n), foreman, plant)
            == GroupOf(Selected(s, f, kpi, n), foreman, plant)
    decreases n
  {
    if n == 0 { return; }
    hide PassesOthers, Selected, GroupOf;
    GroupCommutes(s, f, chosen, kpi, n - 1, foreman, plant);
    GroupSelects(s, f, kpi, n, foreman, plant);
    GroupSelects(s, f.(foremen := chosen), kpi, n, foreman, plant);
    OthersAlike(s.factoryOf, f, chosen, s.records[n - 1]);
  }

  lemma OthersAlike(factoryOf: Id -> Id, f: Filters, chosen: Option<set<Id>>, r: Record)
    ensures PassesOthers(factoryOf, f, r) <==> PassesOthers(factoryOf, f.(foremen := chosen), r)
  {}

  lemma {:induction false} GroupSelects(s: Store, f: Filters, kpi: Kpi, n: nat, foreman: Id, plant: Id)
    requires 0 < n <= |s.records|
    ensures var r := s.records[n - 1];
            GroupOf(Selected(s, f, kpi, n), foreman, plant) ==
              GroupOf(Selected(s, f, kpi, n - 1), foreman, plant)
              + if r.kpi == kpi.id && r.complete && Passes(s.factoryOf, f, r)
                   && r.foreman == foreman && r.plant == plant
                then [r] else []
  {
    var rows, r := Selected(s, f, kpi, n - 1), s.records[n - 1];
    hide Passes;
    if r.kpi == kpi.id && r.complete && Passes(s.factoryOf, f, r) {
      assert (rows + [r])[..|rows|] == rows;
    } else {
      assert rows + [] == rows;
    }
  }

  lemma {:induction false} EntriesCommute(s: Store, f: Filters, chosen: Option<set<Id>>, kpi: Kpi, foreman: Id)
    requires Allows(f.foremen, foreman) && Allows(chosen, foreman)
    ensures EntriesOf(Rows(s, f.(foremen := chosen), kpi), kpi, foreman) == EntriesOf(Rows(s, f, kpi), kpi, foreman)
    ensures FailsFor(Rows(s, f.(foremen := chosen), kpi), kpi, foreman) <==> FailsFor(Rows(s, f, kpi), kpi, foreman)
  {
    var a, b := Rows(s, f, kpi), Rows(s, f.(foremen := chosen), kpi);
    forall p: Id ensures GroupOf(a, foreman, p) == GroupOf(b, foreman, p) {
      GroupCommutes(s, f, chosen, kpi, |s.records|, foreman, p);
    }
    hide *;
    SameGroupsSameEntries(a, b, kpi, foreman);
    SameGroupsFailAlike(a, b, kpi, foreman);
  }

  lemma {:induction false} SameGroupsSameEntries(a: seq<Record>, b: seq<Record>, kpi: Kpi, foreman: Id)
    requires forall p: Id :: GroupOf(a, foreman, p) == GroupOf(b, foreman, p)
    ensures EntriesOf(a, kpi, foreman) == EntriesOf(b, kpi, foreman)
  {
    assert DenominatorSum([]) == 0.0;
    hide GroupOf, DenominatorSum, PlantsIn;
    forall p: Id | GroupOf(a, foreman, p) != [] ensures p in PlantsIn(a) && p in PlantsIn(b) {
      GroupIsInPlants(a, foreman, p);
      GroupIsInPlants(b, foreman, p);
    }
  }

  lemma {:induction false} SameGroupsFailAlike(a: seq<Record>, b: seq<Record>, kpi: Kpi, foreman: Id)
    requires forall p: Id :: GroupOf(a, foreman, p) == GroupOf(b, foreman, p)
    ensures FailsFor(a, kpi, foreman) <==> FailsFor(b, kpi, foreman)
  {
    hide GroupOf, PlantsIn;
    forall p: Id | GroupOf(a, foreman, p) != [] ensures p in PlantsIn(a) && p in PlantsIn(b) {
      GroupIsInPlants(a, foreman, p);
      GroupIsInPlants(b, foreman, p);
    }
  }

  lemma {:induction false} ItemsCommute(s: Store, f: Filters, chosen: Option<set<Id>>, foreman: Id, n: nat)
    requires n <= |s.activeKpis| && Allows(f.foremen, foreman) && Allows(chosen, foreman)
    ensures ItemsOf(s, f.(foremen := chosen), foreman, n) == ItemsOf(s, f, foreman, n)
    decreases n
  {
    hide *;
    var g := f.(foremen := chosen);
    ItemsUnfold(s, f, foreman, n);
    ItemsUnfold(s, g, foreman, n);
    if n > 0 {
      ItemsCommute(s, f, chosen, foreman, n - 1);
      ItemCommutes(s, f, chosen, foreman, n - 1);
    }
  }

  lemma ItemsUnfold(s: Store, f: Filters, foreman: Id, n: nat)
    requires n <= |s.activeKpis|
    ensures ItemsOf(s, f, foreman, n)
            == if n == 0 then [] else ItemsOf(s, f, foreman, n - 1) + ItemOf(s, f, foreman, n - 1)
  {
    hide ItemOf;
  }

  lemma {:induction false} ItemCommutes(s: Store, f: Filters, chosen: Option<set<Id>>, foreman: Id, n: nat)
    requires n < |s.activeKpis| && Allows(f.foremen, foreman) && Allows(chosen, foreman)
    ensures ItemOf(s, f.(foremen := chosen), foreman, n) == ItemOf(s, f, foreman, n)
  {
    EntriesCommute(s, f, chosen, s.activeKpis[n], foreman);
    hide EntriesOf, Rows, TotalOf;
  }

  /** A foreman outside the filter has no rows, hence no score. */
  lemma {:induction false} OutsideHasNoItems(s: Store, f: Filters, foreman: Id, n: nat)
    requires n <= |s.activeKpis| && !Allows(f.foremen, foreman)
    ensures ItemsOf(s, f, foreman, n) == []
    decreases n
  {
    if n > 0 {
      OutsideHasNoItems(s, f, foreman, n - 1);
      var kpi := s.activeKpis[n - 1];
      forall p: Id ensures GroupOf(Rows(s, f, kpi), foreman, p) == [] {
        OutsideHasNoRows(s, f, kpi, |s.records|, foreman, p);
      }
      assert EntriesOf(Rows(s, f, kpi), kpi, foreman) == map[];
    }
  }

  lemma {:induction false} OutsideHasNoRows(s: Store, f: Filters, kpi: Kpi, n: nat, foreman: Id, plant: Id)
    requires n <= |s.records| && !Allows(f.foremen, foreman)
    ensures GroupOf(Selected(s, f, kpi, n), foreman, plant) == []
    decreases n
  {
    if n > 0 {
      OutsideHasNoRows(s, f, kpi, n - 1, foreman, plant);
      GroupSelects(s, f, kpi, n, foreman, plant);
      hide PassesOthers, Selected, GroupOf;
    }
  }

  /** Some active KPI makes a score of the foreman's records at some plant that pass the other filters. */
  ghost predicate HasEntry(s: Store, f: Filters, foreman: Id) {
    exists k, plant: Id | 0 <= k < |s.activeKpis| :: EntersAt(s, f, foreman, s.activeKpis[k], plant)
  }

  predicate EntersAt(s: Store, f: Filters, foreman: Id, kpi: Kpi, plant: Id) {
    var own := GroupOf(Rows(s, f.(foremen := None), kpi), foreman, plant);
    EntryOf(kpi, own).Some?
  }

  lemma {:induction false} EntryAtPlant(s: Store, f: Filters, foreman: Id, kpi: Kpi)
    ensures EntriesOf(Rows(s, f.(foremen := None), kpi), kpi, foreman) != map[]
            <==> exists plant: Id :: EntersAt(s, f, foreman, kpi, plant)
  {
    var rows := Rows(s, f.(foremen := None), kpi);
    var m := EntriesOf(rows, kpi, foreman);
    hide Rows, GroupOf;
    assert DenominatorSum([]) == 0.0;
    if m != map[] {
      var plant :| plant in m.Keys;
      assert EntersAt(s, f, foreman, kpi, plant);
    }
    if plant: Id :| EntersAt(s, f, foreman, kpi, plant) {
      GroupIsInPlants(rows, foreman, plant);
      assert plant in m;
    }
  }

  lemma {:induction false} ItemNeedsEntry(s: Store, f: Filters, foreman: Id, n: nat)
    requires n < |s.activeKpis|
    ensures ItemOf(s, f.(foremen := None), foreman, n) != []
            <==> exists plant: Id :: EntersAt(s, f, foreman, s.activeKpis[n], plant)
  {
    EntryAtPlant(s, f, foreman, s.activeKpis[n]);
    hide EntersAt, EntriesOf, Rows, AverageItem;
  }

  lemma {:induction false} ItemsNeedEntries(s: Store, f: Filters, foreman: Id, n: nat)
    requires n <= |s.activeKpis|
    ensures ItemsOf(s, f.(foremen := None), foreman, n) != []
            <==> exists k, plant: Id | 0 <= k < n :: EntersAt(s, f, foreman, s.activeKpis[k], plant)
    decreases n
  {
    hide *;
    ItemsUnfold(s, f.(foremen := None), foreman, n);
    if n > 0 {
      ItemsNeedEntries(s, f, foreman, n - 1);
      ItemNeedsEntry(s, f, foreman, n - 1);
    }
  }

  /** Scoring only the page gives a foreman of the page the score of the full computation if and
      only if there is no foreman filter, or it lets the foreman through, or no active KPI makes a
      score of the foreman's records under the other filters: the page replaces that filter. */
  lemma {:induction false} PageScoreIsFullExactlyWhen(s: Store, f: Filters, page: set<Id>, foreman: Id)
    requires foreman in page
    ensures ScoreOf(s, Narrowed(f, page), foreman) == ScoreOf(s, f, foreman)
            <==> Allows(f.foremen, foreman) || !HasEntry(s, f, foreman)
  {
    var n := |s.activeKpis|;
    ItemsCommute(s, f.(foremen := None), Some(page), foreman, n);
    ItemsNeedEntries(s, f, foreman, n);
    if Allows(f.foremen, foreman) {
      ItemsCommute(s, f, Some(page), foreman, n);
    } else {
      OutsideHasNoItems(s, f, foreman, n);
    }
    hide ItemsOf, Combined, EntersAt;
  }

  /** Such a request: it filters on foreman 2, and its page shows foreman 1, who has one scored
      record with a positive denominator.  The full path gives foreman 1 no score, the page-only path does. */
  lemma {:induction false} ExcludedForemanIsScored(r: Record, kpi: Kpi, geometric: seq<(real, real)> -> real)
    requires r.foreman == 1 && r.kpi == kpi.id && r.complete && kpi.score([r]).Entered?
    requires r.denominator.Some? && r.denominator.value > 0.0
    ensures var s := Store([r], [kpi], (plant: Id) => 0, geometric);
            var f := Filters(r.date, r.date, None, None, None, None, None, Some({2}));
            ScoreOf(s, f, 1).None? && ScoreOf(s, Narrowed(f, {1}), 1).Some?
  {
    var s := Store([r], [kpi], (plant: Id) => 0, geometric);
    var f := Filters(r.date, r.date, None, None, None, None, None, Some({2}));
    var g := f.(foremen := None);
    assert Passes(s.factoryOf, g, r);
    assert Rows(s, g, kpi) == Selected(s, g, kpi, 0) + [r] == [r];
    assert GroupOf([r], 1, r.plant) == GroupOf([], 1, r.plant) + [r] by { assert [r][..0] == []; }
    assert DenominatorSum([r]) == DenominatorSum([]) + r.denominator.value by { assert [r][..0] == []; }
    assert EntersAt(s, f, 1, s.activeKpis[0], r.plant);
    assert HasEntry(s, f, 1);
    OutsideHasNoItems(s, f, 1, |s.activeKpis|);
    assert ScoreOf(s, f, 1).None?;
    PageScoreIsFullExactlyWhen(s, f, {1}, 1);
  }

  /** Where the full computation gets through, so does the page's. */
  lemma {:induction false} PageFailsOnlyIfFullDoes(s: Store, f: Filters, page: set<Id>)
    requires f.foremen.None? && AnyFailure(s, Narrowed(f, page))
    ensures AnyFailure(s, f)
  {
    var g := Narrowed(f, page);
    var k :| 0 <= k < |s.activeKpis| && KpiFails(Rows(s, g, s.activeKpis[k]), s.activeKpis[k]);
    KpiFailsInFull(s, f, page, s.activeKpis[k]);
  }

  lemma {:induction false} KpiFailsInFull(s: Store, f: Filters, page: set<Id>, kpi: Kpi)
    requires f.foremen.None? && KpiFails(Rows(s, Narrowed(f, page), kpi), kpi)
    ensures KpiFails(Rows(s, f, kpi), kpi)
  {
    var g := Narrowed(f, page);
    var x: Id :| FailsFor(Rows(s, g, kpi), kpi, x);
    assert x in page by { if x !in page { OutsideNeverFails(s, g, kpi, x); } }
    EntriesCommute(s, f, Some(page), kpi, x);
    var y: Id, p: Id :| DenominatorSum(GroupOf(Rows(s, g, kpi), y, p)) > 0.0;
    assert y in page by { if y !in page { OutsideHasNoRows(s, g, kpi, |s.records|, y, p); } }
    GroupCommutes(s, f, Some(page), kpi, |s.records|, y, p);
    hide GroupOf, DenominatorSum, FailsFor, Selected;
  }

  lemma {:induction false} OutsideNeverFails(s: Store, f: Filters, kpi: Kpi, foreman: Id)
    requires !Allows(f.foremen, foreman)
    ensures !FailsFor(Rows(s, f, kpi), kpi, foreman)
  {
    forall p: Id ensures GroupOf(Rows(s, f, kpi), foreman, p) == [] {
      OutsideHasNoRows(s, f, kpi, |s.records|, foreman, p);
    }
  }

  // ---- What a score is, over the records ----

  /** The members that satisfy `p`, in order. */
  function Keep<T>(all: seq<T>, p: T -> bool): seq<T>
    decreases |all|
  {
    if all == [] then [] else
    Keep(all[..|all| - 1], p) + if p(all[|all| - 1]) then [all[|all| - 1]] else []
  }

  function Sum(xs: seq<real>): real
    decreases |xs|
  {
    if xs == [] then 0.0 else Sum(xs[..|xs| - 1]) + xs[|xs| - 1]
  }

  function SumOfCounts(xs: seq<nat>): nat
    decreases |xs|
  {
    if xs == [] then 0 else SumOfCounts(xs[..|xs| - 1]) + xs[|xs| - 1]
  }

  /** A COMPLETE record of this KPI, foreman and plant that the request's filters admit. */
  predicate IsOwn(s: Store, f: Filters, kpi: Kpi, foreman: Id, plant: Id, r: Record) {
    && r.complete && r.kpi == kpi.id && r.foreman == foreman && r.plant == plant
    && f.dateFrom <= r.date && r.date <= f.dateTo
    && (f.plants.Some? ==> r.plant in f.plants.value)
    && (f.factories.Some? ==> s.factoryOf(r.plant) in f.factories.value)
    && (f.chiefs.Some? ==> r.chief in f.chiefs.value)
    && (f.shifts.Some? ==> r.shift in f.shifts.value)
    && (f.kpis.Some? ==> r.kpi in f.kpis.value)
    && (f.foremen.Some? ==> r.foreman in f.foremen.value)
  }

  function OwnRecords(s: Store, f: Filters, kpi: Kpi, foreman: Id, plant: Id): seq<Record> {
    Keep(s.records, (r: Record) => IsOwn(s, f, kpi, foreman, plant, r))
  }

  /** A group holds the foreman's own records at the plant, in order. */
  lemma {:induction false} GroupIsOwnRecords(s: Store, f: Filters, kpi: Kpi, foreman: Id, plant: Id)
    ensures GroupOf(Rows(s, f, kpi), foreman, plant) == OwnRecords(s, f, kpi, foreman, plant)
  {
    GroupKeeps(s, f, kpi, foreman, plant, |s.records|);
    assert s.records[..|s.records|] == s.records;
  }

  lemma {:induction false} GroupKeeps(s: Store, f: Filters, kpi: Kpi, foreman: Id, plant: Id, n: nat)
    requires n <= |s.records|
    ensures GroupOf(Selected(s, f, kpi, n), foreman, plant)
            == Keep(s.records[..n], (r: Record) => IsOwn(s, f, kpi, foreman, plant, r))
    decreases n
  {
    if n == 0 { return; }
    hide *;
    GroupKeeps(s, f, kpi, foreman, plant, n - 1);
    GroupSelects(s, f, kpi, n, foreman, plant);
    KeepOneMore(s.records[..n - 1], s.records[n - 1], (r: Record) => IsOwn(s, f, kpi, foreman, plant, r));
    assert s.records[..n - 1] + [s.records[n - 1]] == s.records[..n];
    OwnExactlyWhen(s, f, kpi, foreman, plant, s.records[n - 1]);
  }

  lemma KeepOneMore<T>(all: seq<T>, x: T, p: T -> bool)
    ensures Keep(all + [x], p) == Keep(all, p) + if p(x) then [x] else []
  {
    assert (all + [x])[..|all|] == all;
  }

  lemma OwnExactlyWhen(s: Store, f: Filters, kpi: Kpi, foreman: Id, plant: Id, r: Record)
    ensures IsOwn(s, f, kpi, foreman, plant, r) <==>
              r.kpi == kpi.id && r.complete && Passes(s.factoryOf, f, r) && r.foreman == foreman && r.plant == plant
  {}

  function Denominators(own: seq<Record>): seq<real> {
    seq(|own|, i requires 0 <= i < |own| => if own[i].denominator.Some? then own[i].denominator.value else 0.0)
  }

  lemma {:induction false} DenominatorsAdd(own: seq<Record>)
    ensures DenominatorSum(own) == Sum(Denominators(own))
    decreases |own|
  {
    if own != [] {
      DenominatorsAdd(own[..|own| - 1]);
      assert Denominators(own)[..|own| - 1] == Denominators(own[..|own| - 1]);
    }
  }

  /** The foreman's own records at the plant have a positive denominator and give a score. */
  predicate ScoredAt(s: Store, f: Filters, kpi: Kpi, foreman: Id, plant: Id) {
    var own := OwnRecords(s, f, kpi, foreman, plant);
    Sum(Denominators(own)) > 0.0 && kpi.score(own).Entered?
  }

  function EntryAt(s: Store, f: Filters, kpi: Kpi, foreman: Id, plant: Id): Entry
    requires ScoredAt(s, f, kpi, foreman, plant)
  {
    kpi.score(OwnRecords(s, f, kpi, foreman, plant)).entry
  }

  lemma {:induction false} EntriesAreScored(s: Store, f: Filters, kpi: Kpi, foreman: Id)
    ensures var m := EntriesOf(Rows(s, f, kpi), kpi, foreman);
            && (forall p: Id :: p in m <==> ScoredAt(s, f, kpi, foreman, p))
            && (forall p | p in m :: m[p] == EntryAt(s, f, kpi, foreman, p))
  {
    var rows := Rows(s, f, kpi);
    forall p: Id
      ensures EntryOf(kpi, GroupOf(rows, foreman, p)).Some? <==> ScoredAt(s, f, kpi, foreman, p)
      ensures EntryOf(kpi, GroupOf(rows, foreman, p)).Some? ==>
                && p in PlantsIn(rows)
                && EntryOf(kpi, GroupOf(rows, foreman, p)).value == EntryAt(s, f, kpi, foreman, p)
    {
      EntryIsScored(s, f, kpi, foreman, p);
    }
    hide EntryOf, GroupOf, Rows, ScoredAt, EntryAt;
  }

  lemma {:induction false} EntryIsScored(s: Store, f: Filters, kpi: Kpi, foreman: Id, p: Id)
    ensures var e := EntryOf(kpi, GroupOf(Rows(s, f, kpi), foreman, p));
            && (e.Some? <==> ScoredAt(s, f, kpi, foreman, p))
            && (e.Some? ==> p in PlantsIn(Rows(s, f, kpi)) && e.value == EntryAt(s, f, kpi, foreman, p))
  {
    var own := GroupOf(Rows(s, f, kpi), foreman, p);
    GroupIsOwnRecords(s, f, kpi, foreman, p);
    DenominatorsAdd(own);
    assert own == [] ==> DenominatorSum(own) == 0.0;
    if own != [] { GroupIsInPlants(Rows(s, f, kpi), foreman, p); }
    hide Rows, GroupOf, OwnRecords, DenominatorSum, Denominators, PlantsIn;
  }

  /** Each plant with a score is listed once, and no other. */
  ghost predicate ListsPlants(s: Store, f: Filters, kpi: Kpi, foreman: Id, plants: seq<Id>) {
    && (forall i, j | 0 <= i < j < |plants| :: plants[i] != plants[j])
    && (forall p: Id :: p in plants <==> ScoredAt(s, f, kpi, foreman, p))
  }

  function CappedAt(m: map<Id, Entry>, plants: seq<Id>): seq<real> {
    seq(|plants|, i requires 0 <= i < |plants| => if plants[i] in m then m[plants[i]].capped else 0.0)
  }

  function RawAt(m: map<Id, Entry>, plants: seq<Id>): seq<real> {
    seq(|plants|, i requires 0 <= i < |plants| => if plants[i] in m then m[plants[i]].raw else 0.0)
  }

  function CountsAt(m: map<Id, Entry>, plants: seq<Id>): seq<nat> {
    seq(|plants|, i requires 0 <= i < |plants| => if plants[i] in m then m[plants[i]].count else 0)
  }

  /** The sums over the plants, listed in any order. */
  lemma {:induction false} TotalIsSum(m: map<Id, Entry>) returns (plants: seq<Id>)
    ensures |plants| == |m| && (forall p: Id :: p in plants <==> p in m)
    ensures forall i, j | 0 <= i < j < |plants| :: plants[i] != plants[j]
    ensures TotalOf(m).capped == Sum(CappedAt(m, plants)) && TotalOf(m).count == SumOfCounts(CountsAt(m, plants))
    ensures TotalOf(m).raw == Sum(RawAt(m, plants))
    decreases |m|
  {
    plants := [];
    if m.Keys == {} { return; }
    hide *;
    var p :| p in m.Keys;
    var front := TotalIsSum(m - {p});
    plants := front + [p];
    TotalRemoves(m, p);
    PlusAdds(TotalOf(m - {p}), m[p]);
    OneKeyMore(m, front, p);
    OnePlantMore(m, front, p);
  }

  lemma PlusAdds(t: Entry, e: Entry)
    ensures Plus(t, e).capped == t.capped + e.capped && Plus(t, e).count == t.count + e.count
    ensures Plus(t, e).raw == t.raw + e.raw
  {}

  lemma OneKeyMore(m: map<Id, Entry>, front: seq<Id>, p: Id)
    requires p in m && |front| == |m - {p}| && forall q: Id :: q in front <==> q in m - {p}
    requires forall i, j | 0 <= i < j < |front| :: front[i] != front[j]
    ensures p !in front && |front + [p]| == |m| && forall q: Id :: q in front + [p] <==> q in m
    ensures forall i, j | 0 <= i < j < |front + [p]| :: (front + [p])[i] != (front + [p])[j]
  {
    assert (m - {p}).Keys == m.Keys - {p};
  }

  lemma OnePlantMore(m: map<Id, Entry>, front: seq<Id>, p: Id)
    requires p in m && p !in front
    ensures Sum(CappedAt(m, front + [p])) == Sum(CappedAt(m - {p}, front)) + m[p].capped
    ensures Sum(RawAt(m, front + [p])) == Sum(RawAt(m - {p}, front)) + m[p].raw
    ensures SumOfCounts(CountsAt(m, front + [p])) == SumOfCounts(CountsAt(m - {p}, front)) + m[p].count
  {
    var capped, counts, raw := CappedAt(m, front + [p]), CountsAt(m, front + [p]), RawAt(m, front + [p]);
    assert raw[..|front|] == RawAt(m - {p}, front) && raw[|front|] == m[p].raw;
    assert capped[..|front|] == CappedAt(m - {p}, front) && capped[|front|] == m[p].capped;
    assert counts[..|front|] == CountsAt(m - {p}, front) && counts[|front|] == m[p].count;
  }

  /** The item of one KPI: the plain average of the plants' capped scores, the KPI's weight, and the
      number of records behind them. */
  ghost predicate ItemMeans(s: Store, f: Filters, foreman: Id, kpi: Kpi, item: Item) {
    && item.weight == kpi.weight
    && exists plants: seq<Id> ::
         ListsPlants(s, f, kpi, foreman, plants) && AveragesOver(s, f, foreman, kpi, item, plants)
  }

  ghost predicate AveragesOver(s: Store, f: Filters, foreman: Id, kpi: Kpi, item: Item, plants: seq<Id>)
    requires ListsPlants(s, f, kpi, foreman, plants)
  {
    && plants != []
    && item.score * |plants| as real
       == Sum(seq(|plants|, i requires 0 <= i < |plants| => EntryAt(s, f, kpi, foreman, plants[i]).capped))
    && item.count == SumOfCounts(
         seq(|plants|, i requires 0 <= i < |plants| => EntryAt(s, f, kpi, foreman, plants[i]).count))
  }

  /** The foreman's own records give a score of the KPI at some plant. */
  ghost predicate HasScore(s: Store, f: Filters, kpi: Kpi, foreman: Id) {
    exists p: Id :: ScoredAt(s, f, kpi, foreman, p)
  }

  lemma {:induction false} ItemMeansSo(s: Store, f: Filters, foreman: Id, n: nat)
    requires n < |s.activeKpis|
    ensures var items := ItemOf(s, f, foreman, n);
            && |items| == (if HasScore(s, f, s.activeKpis[n], foreman) then 1 else 0)
            && (items != [] ==> ItemMeans(s, f, foreman, s.activeKpis[n], items[0]))
  {
    var kpi := s.activeKpis[n];
    var m := EntriesOf(Rows(s, f, kpi), kpi, foreman);
    hide EntriesOf, Rows, ScoredAt, EntryAt, TotalOf, ListsPlants, AveragesOver;
    EntriesAreScored(s, f, kpi, foreman);
    if m == map[] { return; }
    var p :| p in m.Keys;
    assert ScoredAt(s, f, kpi, foreman, p);
    EntriesAverage(s, f, foreman, kpi, m);
  }

  lemma {:induction false} EntriesAverage(s: Store, f: Filters, foreman: Id, kpi: Kpi, m: map<Id, Entry>)
    requires m != map[]
    requires forall p: Id :: p in m <==> ScoredAt(s, f, kpi, foreman, p)
    requires forall p | p in m :: m[p] == EntryAt(s, f, kpi, foreman, p)
    ensures ItemMeans(s, f, foreman, kpi, AverageItem(m, kpi.weight))
  {
    hide TotalOf, ScoredAt, EntryAt, AveragesOver, Sum, SumOfCounts, CappedAt, CountsAt;
    var plants := TotalIsSum(m);
    assert ListsPlants(s, f, kpi, foreman, plants);
    AverageMeans(s, f, foreman, kpi, m, plants);
  }

  lemma {:induction false} AverageMeans(
    s: Store, f: Filters, foreman: Id, kpi: Kpi, m: map<Id, Entry>, plants: seq<Id>)
    requires m != map[] && |plants| == |m| && ListsPlants(s, f, kpi, foreman, plants)
    requires forall p: Id :: p in m <==> ScoredAt(s, f, kpi, foreman, p)
    requires forall p | p in m :: m[p] == EntryAt(s, f, kpi, foreman, p)
    requires TotalOf(m).capped == Sum(CappedAt(m, plants)) && TotalOf(m).count == SumOfCounts(CountsAt(m, plants))
    ensures AveragesOver(s, f, foreman, kpi, AverageItem(m, kpi.weight), plants)
  {
    hide TotalOf, ScoredAt, EntryAt, Sum, SumOfCounts;
    assert forall i | 0 <= i < |plants| :: plants[i] in m;
    assert CappedAt(m, plants)
           == seq(|plants|, i requires 0 <= i < |plants| => EntryAt(s, f, kpi, foreman, plants[i]).capped);
    assert CountsAt(m, plants)
           == seq(|plants|, i requires 0 <= i < |plants| => EntryAt(s, f, kpi, foreman, plants[i]).count);
    var total, n := TotalOf(m).capped, |m| as real;
    assert n != 0.0 by { assert |m| > 0; }
    assert total / n * n == total;
  }

  /** The active KPIs with a score of the foreman at some plant, in order. */
  ghost predicate ListsKpis(s: Store, f: Filters, foreman: Id, n: nat, at: seq<nat>)
    requires n <= |s.activeKpis|
  {
    && (forall i | 0 <= i < |at| :: at[i] < n)
    && (forall i, j | 0 <= i < j < |at| :: at[i] < at[j])
    && (forall k | 0 <= k < n :: k in at <==> HasScore(s, f, s.activeKpis[k], foreman))
  }

  /** Item i is that of KPI at[i]. */
  ghost predicate ItemsAt(s: Store, f: Filters, foreman: Id, at: seq<nat>, items: seq<Item>) {
    && |items| == |at|
    && forall i | 0 <= i < |at| ::
         at[i] < |s.activeKpis| && ItemMeans(s, f, foreman, s.activeKpis[at[i]], items[i])
  }

  lemma {:induction false} ItemsMean(s: Store, f: Filters, foreman: Id, n: nat) returns (at: seq<nat>)
    requires n <= |s.activeKpis|
    ensures ListsKpis(s, f, foreman, n, at) && ItemsAt(s, f, foreman, at, ItemsOf(s, f, foreman, n))
    decreases n
  {
    hide *;
    at := [];
    NoItems(s, f, foreman);
    if n > 0 {
      var front := ItemsMean(s, f, foreman, n - 1);
      ItemMeansSo(s, f, foreman, n - 1);
      ItemsUnfold(s, f, foreman, n);
      var one := if HasScore(s, f, s.activeKpis[n - 1], foreman) then [n - 1] else [];
      at := front + one;
      OneMoreKpi(s, f, foreman, n - 1, front);
      OneMoreItem(s, f, foreman, front, ItemsOf(s, f, foreman, n - 1), one, ItemOf(s, f, foreman, n - 1));
    }
  }

  lemma NoItems(s: Store, f: Filters, foreman: Id)
    ensures ListsKpis(s, f, foreman, 0, []) && ItemsAt(s, f, foreman, [], ItemsOf(s, f, foreman, 0))
  {}

  lemma {:induction false} OneMoreItem(
    s: Store, f: Filters, foreman: Id, at: seq<nat>, items: seq<Item>, one: seq<nat>, item: seq<Item>)
    requires ItemsAt(s, f, foreman, at, items) && |one| == |item| <= 1
    requires one != [] ==> one[0] < |s.activeKpis| && ItemMeans(s, f, foreman, s.activeKpis[one[0]], item[0])
    ensures ItemsAt(s, f, foreman, at + one, items + item)
  {
    hide ItemMeans;
  }

  lemma {:induction false} OneMoreKpi(s: Store, f: Filters, foreman: Id, n: nat, front: seq<nat>)
    requires n < |s.activeKpis| && ListsKpis(s, f, foreman, n, front)
    ensures ListsKpis(s, f, foreman, n + 1,
                      front + if HasScore(s, f, s.activeKpis[n], foreman) then [n] else [])
  {
    hide HasScore;
    var one := if HasScore(s, f, s.activeKpis[n], foreman) then [n] else [];
    assert n !in front;
    forall k | 0 <= k <= n ensures k in front + one <==> HasScore(s, f, s.activeKpis[k], foreman) {
      assert k in front + one <==> k in front || k in one;
    }
  }

  function Weights(items: seq<Item>): seq<real> {
    seq(|items|, i requires 0 <= i < |items| => items[i].weight)
  }

  function Counts(items: seq<Item>): seq<nat> {
    seq(|items|, i requires 0 <= i < |items| => items[i].count)
  }

  lemma {:induction false} ItemSums(items: seq<Item>)
    ensures SumWeights(items) == Sum(Weights(items)) && SumCounts(items) == SumOfCounts(Counts(items))
    decreases |items|
  {
    if items != [] {
      ItemSums(items[..|items| - 1]);
      assert Weights(items)[..|items| - 1] == Weights(items[..|items| - 1]);
      assert Counts(items)[..|items| - 1] == Counts(items[..|items| - 1]);
    }
  }

  /** The weights of the KPIs the request admits. */
  function AdmittedWeights(kpis: seq<Kpi>, chosen: Option<set<Id>>): seq<real> {
    seq(|kpis|, k requires 0 <= k < |kpis| =>
      if chosen.Some? && kpis[k].id !in chosen.value then 0.0 else kpis[k].weight)
  }

  lemma {:induction false} TotalWeightIsSum(kpis: seq<Kpi>, chosen: Option<set<Id>>)
    ensures TotalWeight(kpis, chosen) == Sum(AdmittedWeights(kpis, chosen))
    decreases |kpis|
  {
    if kpis != [] {
      TotalWeightIsSum(kpis[..|kpis| - 1], chosen);
      assert AdmittedWeights(kpis, chosen)[..|kpis| - 1] == AdmittedWeights(kpis[..|kpis| - 1], chosen);
    }
  }

  /** A score made of these items, under the weight the request admits: withheld and unreliable where
      they cover less than half of it, else the geometric score of their pairs, and reliable where
      they cover all but half a point of it. */
  ghost predicate ScoresItems(s: Store, score: GroupScore, items: seq<Item>, admitted: real) {
    var covered := Sum(Weights(items));
    && score.covered == covered && score.count == SumOfCounts(Counts(items))
    && (2.0 * covered < admitted ==> score.total == 0.0 && !score.reliable)
    && (2.0 * covered >= admitted ==>
          && (score.reliable <==> covered >= admitted - 0.5)
          && exists pairs: seq<(real, real)> ::
               && score.total == s.geometric(pairs) && |pairs| == |items|
               && forall i | 0 <= i < |items| :: pairs[i] == (items[i].score, items[i].weight))
  }

  lemma {:induction false} CombinedScores(s: Store, items: seq<Item>, admitted: real)
    ensures ScoresItems(s, Combined(s, items, admitted), items, admitted)
  {
    ItemSums(items);
    var pairs := seq(|items|, i requires 0 <= i < |items| => (items[i].score, items[i].weight));
    assert |pairs| == |items| && forall i | 0 <= i < |items| :: pairs[i] == (items[i].score, items[i].weight);
    hide SumWeights, SumCounts, Sum, SumOfCounts;
  }

  /** The score of a foreman over the records: its KPIs are exactly the active ones for which the
      foreman's own records give a score at some plant, each item is the average over exactly those
      plants, and the score is withheld, reliable or not as the covered weight says. */
  lemma {:induction false} ScoreMeans(s: Store, f: Filters, foreman: Id) returns (at: seq<nat>, items: seq<Item>)
    ensures ListsKpis(s, f, foreman, |s.activeKpis|, at) && ItemsAt(s, f, foreman, at, items)
    ensures ScoreOf(s, f, foreman).None? <==> at == []
    ensures at != [] ==>
              ScoresItems(s, ScoreOf(s, f, foreman).value, items, Sum(AdmittedWeights(s.activeKpis, f.kpis)))
  {
    at := ItemsMean(s, f, foreman, |s.activeKpis|);
    items := ItemsOf(s, f, foreman, |s.activeKpis|);
    TotalWeightIsSum(s.activeKpis, f.kpis);
    CombinedScores(s, items, TotalWeight(s.activeKpis, f.kpis));
    hide ItemsOf, Combined, ScoresItems, ItemMeans, ListsKpis, TotalWeight;
  }

  /** The foreman's own records at the plant make the formula or a query of the KPI fail. */
  predicate FailsAt(s: Store, f: Filters, kpi: Kpi, foreman: Id, plant: Id) {
    var own := OwnRecords(s, f, kpi, foreman, plant);
    own != [] && kpi.score(own) == Fails
  }

  predicate PositiveAt(s: Store, f: Filters, kpi: Kpi, foreman: Id, plant: Id) {
    Sum(Denominators(OwnRecords(s, f, kpi, foreman, plant))) > 0.0
  }

  /** The scores cannot be computed exactly when, for some active KPI, some foreman's records at some
      plant fail while some foreman's records at some plant have a positive denominator. */
  lemma {:induction false} FailureExactlyWhen(s: Store, f: Filters)
    ensures AnyFailure(s, f) <==>
              exists k | 0 <= k < |s.activeKpis| ::
                && (exists x: Id, p: Id :: FailsAt(s, f, s.activeKpis[k], x, p))
                && exists x: Id, p: Id :: PositiveAt(s, f, s.activeKpis[k], x, p)
  {
    forall k | 0 <= k < |s.activeKpis|
      ensures KpiFails(Rows(s, f, s.activeKpis[k]), s.activeKpis[k]) <==>
                && (exists x: Id, p: Id :: FailsAt(s, f, s.activeKpis[k], x, p))
                && exists x: Id, p: Id :: PositiveAt(s, f, s.activeKpis[k], x, p)
    {
      KpiFailsExactlyWhen(s, f, s.activeKpis[k]);
    }
    hide KpiFails, FailsAt, PositiveAt, Rows;
  }

  lemma {:induction false} KpiFailsExactlyWhen(s: Store, f: Filters, kpi: Kpi)
    ensures KpiFails(Rows(s, f, kpi), kpi) <==>
              (exists x: Id, p: Id :: FailsAt(s, f, kpi, x, p)) && exists x: Id, p: Id :: PositiveAt(s, f, kpi, x, p)
  {
    var rows := Rows(s, f, kpi);
    forall x: Id, p: Id
      ensures PositiveAt(s, f, kpi, x, p) <==> DenominatorSum(GroupOf(rows, x, p)) > 0.0
      ensures FailsAt(s, f, kpi, x, p) <==> GroupOf(rows, x, p) != [] && kpi.score(GroupOf(rows, x, p)) == Fails
      ensures FailsAt(s, f, kpi, x, p) ==> p in PlantsIn(rows)
    {
      GroupIsOwnRecords(s, f, kpi, x, p);
      DenominatorsAdd(GroupOf(rows, x, p));
      if GroupOf(rows, x, p) != [] { GroupIsInPlants(rows, x, p); }
    }
    hide Rows, GroupOf, DenominatorSum, PositiveAt, FailsAt, PlantsIn;
    if x: Id, p: Id :| FailsAt(s, f, kpi, x, p) { assert FailsFor(rows, kpi, x); }
    if x: Id, p: Id :| PositiveAt(s, f, kpi, x, p) { assert AnyPositive(rows); }
    if x: Id :| FailsFor(rows, kpi, x) {
      var p :| p in PlantsIn(rows) && GroupOf(rows, x, p) != [] && kpi.score(GroupOf(rows, x, p)) == Fails;
      assert FailsAt(s, f, kpi, x, p);
    }
    if x: Id, p: Id :| DenominatorSum(GroupOf(rows, x, p)) > 0.0 { assert PositiveAt(s, f, kpi, x, p); }
  }
}
