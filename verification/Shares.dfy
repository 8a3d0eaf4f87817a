/** Contribution shares: a published work's gain is split evenly over its participants.  Summed
    over all foremen, the shares give back the gains of the works. */
module Shares {
  import opened Options

  type Id = nat

  datatype Work = Work(
    published: bool, smed: bool, amount: Option<real>, currency: Option<string>, minutes: Option<real>,
    workDate: Option<int>, publishedDate: Option<int>)

  /** One participant of one work. */
  datatype Part = Part(work: Id, foreman: Id, lead: bool)

  datatype Store = Store(works: map<Id, Work>, parts: seq<Part>, foremen: set<Id>)

  // ---- Sums over participant rows ----

  /** The weight of the rows with one key. */
  function SumAt(parts: seq<Part>, key: Part -> Id, weight: Part -> real, k: Id): real
    decreases |parts|
  {
    if parts == [] then 0.0 else
    var p := parts[|parts| - 1];
    SumAt(parts[..|parts| - 1], key, weight, k) + if key(p) == k then weight(p) else 0.0
  }

  function SumAll(parts: seq<Part>, weight: Part -> real): real
    decreases |parts|
  {
    if parts == [] then 0.0 else SumAll(parts[..|parts| - 1], weight) + weight(parts[|parts| - 1])
  }

  function SumOver(keys: seq<Id>, f: Id -> real): real
    decreases |keys|
  {
    if keys == [] then 0.0 else SumOver(keys[..|keys| - 1], f) + f(keys[|keys| - 1])
  }

  predicate Distinct(keys: seq<Id>) {
    forall i, j | 0 <= i < j < |keys| :: keys[i] != keys[j]
  }

  lemma {:induction false} SumOverAgrees(keys: seq<Id>, f: Id -> real, g: Id -> real)
    requires forall i | 0 <= i < |keys| :: f(keys[i]) == g(keys[i])
    ensures SumOver(keys, f) == SumOver(keys, g)
    decreases |keys|
  {
    if keys != [] { SumOverAgrees(keys[..|keys| - 1], f, g); }
  }

  /** One more row raises exactly one of the sums. */
  lemma {:induction false} OneKeyRises(keys: seq<Id>, f: Id -> real, g: Id -> real, k: Id, w: real)
    requires Distinct(keys) && forall x | x in keys :: g(x) == f(x) + if x == k then w else 0.0
    ensures SumOver(keys, g) == SumOver(keys, f) + if k in keys then w else 0.0
    decreases |keys|
  {
    if keys != [] {
      var front, last := keys[..|keys| - 1], keys[|keys| - 1];
      assert keys == front + [last];
      OneKeyRises(front, f, g, k, w);
      assert last in keys && last !in front;
    }
  }

  /** Adding up by key loses and repeats nothing. */
  lemma {:induction false} GroupedSum(keys: seq<Id>, parts: seq<Part>, key: Part -> Id, weight: Part -> real)
    requires Distinct(keys) && forall i | 0 <= i < |parts| :: key(parts[i]) in keys
    ensures SumOver(keys, (k: Id) => SumAt(parts, key, weight, k)) == SumAll(parts, weight)
    decreases |parts|
  {
    if parts == [] {
      AllZero(keys, (k: Id) => SumAt(parts, key, weight, k));
    } else {
      var front, p := parts[..|parts| - 1], parts[|parts| - 1];
      assert forall i | 0 <= i < |front| :: front[i] == parts[i];
      GroupedSum(keys, front, key, weight);
      OneKeyRises(keys, (k: Id) => SumAt(front, key, weight, k), (k: Id) => SumAt(parts, key, weight, k), key(p),
                  weight(p));
    }
  }

  lemma {:induction false} AllZero(keys: seq<Id>, f: Id -> real)
    requires forall i | 0 <= i < |keys| :: f(keys[i]) == 0.0
    ensures SumOver(keys, f) == 0.0
    decreases |keys|
  {
    if keys != [] { AllZero(keys[..|keys| - 1], f); }
  }

  // ---- Shares ----

  function CountOf(parts: seq<Part>, work: Id): nat
    decreases |parts|
  {
    if parts == [] then 0 else
    CountOf(parts[..|parts| - 1], work) + if parts[|parts| - 1].work == work then 1 else 0
  }

  lemma {:induction false} ParticipantCounts(parts: seq<Part>, i: nat)
    requires i < |parts|
    ensures CountOf(parts, parts[i].work) > 0
    decreases |parts|
  {
    if i < |parts| - 1 { ParticipantCounts(parts[..|parts| - 1], i); }
  }

  datatype Measure = Money(currency: string) | Minutes

  /** What a published work is worth under a measure. */
  function Worth(s: Store, m: Measure, work: Id): real {
    if work !in s.works || !s.works[work].published then 0.0 else
    var w := s.works[work];
    match m
    case Money(c) => if w.amount.Some? && w.currency == Some(c) then w.amount.value else 0.0
    case Minutes => if w.minutes.Some? then w.minutes.value else 0.0
  }

  /** The share of one participant of a work. */
  function Share(s: Store, m: Measure, work: Id): real {
    if CountOf(s.parts, work) == 0 then 0.0 else Worth(s, m, work) * (1.0 / CountOf(s.parts, work) as real)
  }

  function ByForeman(): Part -> Id { (p: Part) => p.foreman }

  function ByWork(): Part -> Id { (p: Part) => p.work }

  function OnWork(f: Id -> real): Part -> real { (p: Part) => f(p.work) }

  function ShareIn(s: Store, m: Measure): Id -> real { (w: Id) => Share(s, m, w) }

  /** A foreman's total: the shares in the works the foreman takes part in. */
  function Earned(s: Store, m: Measure, foreman: Id): real {
    SumAt(s.parts, ByForeman(), OnWork(ShareIn(s, m)), foreman)
  }

  lemma {:induction false} SharesOfWork(parts: seq<Part>, share: Id -> real, work: Id)
    ensures SumAt(parts, ByWork(), OnWork(share), work) == CountOf(parts, work) as real * share(work)
    decreases |parts|
  {
    if parts != [] { SharesOfWork(parts[..|parts| - 1], share, work); }
  }

  lemma WholeFromShares(n: nat, worth: real)
    requires n > 0
    ensures n as real * (worth * (1.0 / n as real)) == worth
  {
    var x := n as real;
    assert x * (1.0 / x) == 1.0;
    assert x * (worth * (1.0 / x)) == worth * (x * (1.0 / x));
  }

  /** The worth of a work that has a participant. */
  function SharedWorth(s: Store, m: Measure, work: Id): real {
    if CountOf(s.parts, work) > 0 then Worth(s, m, work) else 0.0
  }

  /** The participants of a work together receive the whole of it. */
  lemma {:induction false} WorkIsShared(s: Store, m: Measure, work: Id)
    ensures SumAt(s.parts, ByWork(), OnWork(ShareIn(s, m)), work) == SharedWorth(s, m, work)
  {
    SharesOfWork(s.parts, ShareIn(s, m), work);
    var n := CountOf(s.parts, work);
    hide SumAt, CountOf, Worth;
    if n > 0 { WholeFromShares(n, Worth(s, m, work)); }
  }

  /** Conservation: for every currency and for time, the foremen's totals add up to the worth of
      the published works with a participant.  `foremen` and `works` list every foreman and every
      work once. */
  lemma {:induction false} SharesAreConserved(s: Store, m: Measure, foremen: seq<Id>, works: seq<Id>)
    requires Distinct(foremen) && Distinct(works)
    requires forall i | 0 <= i < |s.parts| :: s.parts[i].foreman in foremen && s.parts[i].work in works
    ensures SumOver(foremen, (x: Id) => Earned(s, m, x)) == SumOver(works, (w: Id) => SharedWorth(s, m, w))
  {
    var share := OnWork(ShareIn(s, m));
    GroupedSum(foremen, s.parts, ByForeman(), share);
    GroupedSum(works, s.parts, ByWork(), share);
    hide SumAt, SumOver, SharedWorth;
    SumOverAgrees(foremen, (x: Id) => Earned(s, m, x), (k: Id) => SumAt(s.parts, ByForeman(), share, k));
    forall i | 0 <= i < |works| ensures SumAt(s.parts, ByWork(), share, works[i]) == SharedWorth(s, m, works[i]) {
      WorkIsShared(s, m, works[i]);
    }
    SumOverAgrees(works, (k: Id) => SumAt(s.parts, ByWork(), share, k), (w: Id) => SharedWorth(s, m, w));
  }

  // ---- Rounding ----

  function Size(x: real): real { if x < 0.0 then -x else x }

  /** round(x, 2): within half a cent. */
  ghost predicate RoundsToCents(round: real -> real) {
    forall x: real :: Size(round(x) - x) <= 0.005
  }

  /** What is displayed: nothing where the foreman has no such gain, else the rounded total. */
  lemma {:induction false} RoundingError(foremen: seq<Id>, exact: Id -> real, shown: Id -> real)
    requires forall i | 0 <= i < |foremen| :: Size(shown(foremen[i]) - exact(foremen[i])) <= 0.005
    ensures Size(SumOver(foremen, shown) - SumOver(foremen, exact)) <= 0.005 * |foremen| as real
    decreases |foremen|
  {
    if foremen != [] { RoundingError(foremen[..|foremen| - 1], exact, shown); }
  }

  /** After rounding, the displayed totals of all foremen are off by at most half a cent per foreman. */
  lemma {:induction false} RoundedSharesAreNearlyConserved(
    s: Store, m: Measure, foremen: seq<Id>, works: seq<Id>, round: real -> real, shown: Id -> real)
    requires RoundsToCents(round) && Distinct(foremen) && Distinct(works)
    requires forall i | 0 <= i < |s.parts| :: s.parts[i].foreman in foremen && s.parts[i].work in works
    requires forall x: Id :: shown(x) == round(Earned(s, m, x)) || shown(x) == Earned(s, m, x)
    ensures Size(SumOver(foremen, shown) - SumOver(works, (w: Id) => SharedWorth(s, m, w))) <= 0.005 * |foremen| as real
  {
    SharesAreConserved(s, m, foremen, works);
    var exact := (x: Id) => Earned(s, m, x);
    hide SumAt, SumOver, SharedWorth, Earned;
    forall i | 0 <= i < |foremen| ensures Size(shown(foremen[i]) - exact(foremen[i])) <= 0.005 {
      assert Size(round(Earned(s, m, foremen[i])) - Earned(s, m, foremen[i])) <= 0.005;
    }
    RoundingError(foremen, exact, shown);
  }

  // ---- The summary of one foreman, as it is accumulated ----

  datatype Summary = Summary(
    total: nat, smed: nat, led: nat, financial: map<string, real>, minutes: real, lastDate: Option<int>)

  /** The published works of the foreman, with the role. */
  function RowsOf(s: Store, foreman: Id, n: nat): seq<Part>
    requires n <= |s.parts|
    decreases n
  {
    if n == 0 then [] else
    var p := s.parts[n - 1];
    RowsOf(s, foreman, n - 1)
    + if InRows(s, foreman, p) then [p] else []
  }

  /** participant_counts: GROUP BY work over the asked-for works. */
  method CountParticipants(parts: seq<Part>, asked: set<Id>) returns (counts: map<Id, nat>)
    ensures forall w: Id :: w in counts <==> w in asked && CountOf(parts, w) > 0
    ensures forall w | w in counts :: counts[w] == CountOf(parts, w)
  {
    counts := map[];
    var i := 0;
    while i < |parts|
      invariant 0 <= i <= |parts|
      invariant forall w: Id :: w in counts <==> w in asked && CountOf(parts[..i], w) > 0
      invariant forall w | w in counts :: counts[w] == CountOf(parts[..i], w)
    {
      var w := parts[i].work;
      assert parts[..i + 1][..i] == parts[..i] && parts[..i + 1][i] == parts[i];
      if w in asked { counts := counts[w := (if w in counts then counts[w] else 0) + 1]; }
      i := i + 1;
    }
    assert parts[..i] == parts;
  }

  function SumRows(s: Store, m: Measure, rows: seq<Part>): real
    decreases |rows|
  {
    if rows == [] then 0.0 else SumRows(s, m, rows[..|rows| - 1]) + Share(s, m, rows[|rows| - 1].work)
  }

  lemma {:induction false} RowsEarn(s: Store, m: Measure, foreman: Id, n: nat)
    requires n <= |s.parts|
    ensures SumRows(s, m, RowsOf(s, foreman, n)) == SumAt(s.parts[..n], ByForeman(), OnWork(ShareIn(s, m)), foreman)
    decreases n
  {
    RowsUnfold(s, m, foreman, n);
    PartsUnfold(s, m, foreman, n);
    hide *;
    if n > 0 {
      RowsEarn(s, m, foreman, n - 1);
      NotInRows(s, m, foreman, n - 1);
    }
  }

  predicate InRows(s: Store, foreman: Id, p: Part) {
    p.foreman == foreman && p.work in s.works && s.works[p.work].published
  }

  lemma {:induction false} RowsUnfold(s: Store, m: Measure, foreman: Id, n: nat)
    requires n <= |s.parts|
    ensures SumRows(s, m, RowsOf(s, foreman, n)) ==
              if n == 0 then 0.0
              else SumRows(s, m, RowsOf(s, foreman, n - 1))
                   + if InRows(s, foreman, s.parts[n - 1]) then Share(s, m, s.parts[n - 1].work) else 0.0
  {
    if n > 0 {
      var rows, p := RowsOf(s, foreman, n - 1), s.parts[n - 1];
      assert (rows + [p])[..|rows|] == rows && rows + [] == rows;
      hide Share;
    }
  }

  lemma {:induction false} PartsUnfold(s: Store, m: Measure, foreman: Id, n: nat)
    requires n <= |s.parts|
    ensures SumAt(s.parts[..n], ByForeman(), OnWork(ShareIn(s, m)), foreman) ==
              if n == 0 then 0.0
              else SumAt(s.parts[..n - 1], ByForeman(), OnWork(ShareIn(s, m)), foreman)
                   + if s.parts[n - 1].foreman == foreman then Share(s, m, s.parts[n - 1].work) else 0.0
  {
    if n > 0 {
      assert s.parts[..n][..n - 1] == s.parts[..n - 1] && s.parts[..n][n - 1] == s.parts[n - 1];
      hide Share;
    }
  }

  lemma NotInRows(s: Store, m: Measure, foreman: Id, i: nat)
    requires i < |s.parts|
    ensures s.parts[i].foreman == foreman && !InRows(s, foreman, s.parts[i]) ==> Share(s, m, s.parts[i].work) == 0.0
    ensures InRows(s, foreman, s.parts[i]) ==> s.parts[i].foreman == foreman
  {}

  lemma {:induction false} RowsArePublished(s: Store, foreman: Id, n: nat)
    requires n <= |s.parts|
    ensures forall i | 0 <= i < |RowsOf(s, foreman, n)| ::
              var p := RowsOf(s, foreman, n)[i]; p in s.parts && p.work in s.works && s.works[p.work].published
    decreases n
  {
    if n > 0 { RowsArePublished(s, foreman, n - 1); }
  }

  function Gain(financial: map<string, real>, c: string): real { if c in financial then financial[c] else 0.0 }

  function DateOf(w: Work): Option<int> { if w.workDate.Some? then w.workDate else w.publishedDate }

  /** The latest of the dates, ignoring missing ones. */
  function Later(a: Option<int>, b: Option<int>): Option<int> {
    if b.None? then a else if a.None? || b.value > a.value then b else a
  }

  /** One round of the loop, on values: the row's share is one part in `n`. */
  function Added(r: Summary, w: Work, lead: bool, n: nat): Summary
    requires n > 0
  {
    var share := 1.0 / n as real;
    Summary(
      r.total, r.smed + (if w.smed then 1 else 0), r.led + (if lead then 1 else 0),
      if w.amount.Some? && w.currency.Some?
      then r.financial[w.currency.value := Gain(r.financial, w.currency.value) + w.amount.value * share]
      else r.financial,
      if w.minutes.Some? then r.minutes + w.minutes.value * share else r.minutes,
      Later(r.lastDate, DateOf(w)))
  }

  /** The amounts of a summary are the foreman's shares in these rows. */
  ghost predicate Adds(s: Store, rows: seq<Part>, r: Summary) {
    && (forall c: string :: Gain(r.financial, c) == SumRows(s, Money(c), rows))
    && r.minutes == SumRows(s, Minutes, rows)
  }

  function CountSmed(s: Store, rows: seq<Part>): nat
    requires forall i | 0 <= i < |rows| :: rows[i].work in s.works
    decreases |rows|
  {
    if rows == [] then 0 else CountSmed(s, rows[..|rows| - 1]) + if s.works[rows[|rows| - 1].work].smed then 1 else 0
  }

  function CountLed(rows: seq<Part>): nat
    decreases |rows|
  {
    if rows == [] then 0 else CountLed(rows[..|rows| - 1]) + if rows[|rows| - 1].lead then 1 else 0
  }

  /** The counts and the date of a summary are those of these rows. */
  ghost predicate Tallies(s: Store, rows: seq<Part>, r: Summary)
    requires forall i | 0 <= i < |rows| :: rows[i].work in s.works
  {
    && r.smed == CountSmed(s, rows) && r.led == CountLed(rows)
    && LatestDate(s, rows, r.lastDate)
  }

  lemma {:induction false} AddedAdds(s: Store, rows: seq<Part>, p: Part, r: Summary)
    requires Adds(s, rows, r) && p.work in s.works && s.works[p.work].published && CountOf(s.parts, p.work) > 0
    ensures Adds(s, rows + [p], Added(r, s.works[p.work], p.lead, CountOf(s.parts, p.work)))
  {
    var more, w, n := rows + [p], s.works[p.work], CountOf(s.parts, p.work);
    var r' := Added(r, w, p.lead, n);
    assert more[..|rows|] == rows && more[|rows|] == p;
    hide CountOf;
    forall c: string ensures Gain(r'.financial, c) == SumRows(s, Money(c), more) {
      assert Gain(r.financial, c) == SumRows(s, Money(c), rows);
      assert Share(s, Money(c), p.work) ==
             if w.amount.Some? && w.currency == Some(c) then w.amount.value * (1.0 / n as real) else 0.0;
    }
    assert Share(s, Minutes, p.work) == if w.minutes.Some? then w.minutes.value * (1.0 / n as real) else 0.0;
  }

  lemma {:induction false} AddedTallies(s: Store, rows: seq<Part>, p: Part, r: Summary, n: nat)
    requires n > 0 && p.work in s.works && forall i | 0 <= i < |rows| :: rows[i].work in s.works
    requires Tallies(s, rows, r)
    ensures Tallies(s, rows + [p], Added(r, s.works[p.work], p.lead, n))
  {
    AddedCounts(r, s.works[p.work], p.lead, n);
    hide Added, DateOf, Later, LatestDate;
    var more := rows + [p];
    assert more[..|rows|] == rows && more[|rows|] == p;
    assert forall i | 0 <= i < |rows| :: more[i] == rows[i];
    DatesOneMore(s, rows, p, r.lastDate);
  }

  lemma AddedCounts(r: Summary, w: Work, lead: bool, n: nat)
    requires n > 0
    ensures var r' := Added(r, w, lead, n);
            && r'.smed == r.smed + (if w.smed then 1 else 0) && r'.led == r.led + (if lead then 1 else 0)
            && r'.lastDate == Later(r.lastDate, DateOf(w))
  {}

  /** The latest date of the rows, if any has a date. */
  ghost predicate LatestDate(s: Store, rows: seq<Part>, d: Option<int>)
    requires forall i | 0 <= i < |rows| :: rows[i].work in s.works
  {
    && (d.Some? ==> exists i | 0 <= i < |rows| :: DateOf(s.works[rows[i].work]) == d)
    && (forall i | 0 <= i < |rows| && DateOf(s.works[rows[i].work]).Some? ::
          d.Some? && DateOf(s.works[rows[i].work]).value <= d.value)
  }

  lemma {:induction false} DatesOneMore(s: Store, rows: seq<Part>, p: Part, d: Option<int>)
    requires p.work in s.works && forall i | 0 <= i < |rows| :: rows[i].work in s.works
    requires LatestDate(s, rows, d)
    ensures LatestDate(s, rows + [p], Later(d, DateOf(s.works[p.work])))
  {
    var more, d' := rows + [p], Later(d, DateOf(s.works[p.work]));
    assert more[|rows|] == p && forall i | 0 <= i < |rows| :: more[i] == rows[i];
    if d'.Some? {
      if d' == d {
        var i :| 0 <= i < |rows| && DateOf(s.works[rows[i].work]) == d;
        assert DateOf(s.works[more[i].work]) == d';
      } else {
        assert DateOf(s.works[more[|rows|].work]) == d';
      }
    }
  }

  lemma {:induction false} RowHasShare(s: Store, p: Part)
    requires p in s.parts
    ensures CountOf(s.parts, p.work) > 0
  {
    var i :| 0 <= i < |s.parts| && s.parts[i] == p;
    ParticipantCounts(s.parts, i);
  }

  lemma {:induction false} AddsAreEarned(s: Store, foreman: Id, r: Summary)
    requires Adds(s, RowsOf(s, foreman, |s.parts|), r)
    ensures forall c: string :: Gain(r.financial, c) == Earned(s, Money(c), foreman)
    ensures r.minutes == Earned(s, Minutes, foreman)
  {
    assert s.parts[..|s.parts|] == s.parts;
    hide RowsOf, SumRows;
    forall c: string ensures Gain(r.financial, c) == Earned(s, Money(c), foreman) {
      RowsEarn(s, Money(c), foreman, |s.parts|);
      assert Gain(r.financial, c) == SumRows(s, Money(c), RowsOf(s, foreman, |s.parts|));
    }
    RowsEarn(s, Minutes, foreman, |s.parts|);
  }

  /** foreman_summary: None for an unknown foreman, else the accumulated totals rounded.  A currency
      is listed with the rounded total of the foreman's shares in it, and left out only where that
      total is zero. */
  method ForemanSummary(s: Store, foreman: Id, round: real -> real) returns (r: Option<Summary>)
    ensures r.Some? <==> foreman in s.foremen
    ensures r.Some? ==> forall c: string ::
              if c in r.value.financial then r.value.financial[c] == round(Earned(s, Money(c), foreman))
              else Earned(s, Money(c), foreman) == 0.0
    ensures r.Some? && RowsOf(s, foreman, |s.parts|) == [] ==>
              r.value == Summary(0, 0, 0, map[], 0.0, None) && Earned(s, Minutes, foreman) == 0.0
    ensures r.Some? && RowsOf(s, foreman, |s.parts|) != [] ==> r.value.minutes == round(Earned(s, Minutes, foreman))
    ensures r.Some? ==> var rows := RowsOf(s, foreman, |s.parts|);
                        && r.value.total == |rows| && (forall i | 0 <= i < |rows| :: rows[i].work in s.works)
                        && Tallies(s, rows, r.value)
  {
    if foreman !in s.foremen { return None; }
    var total := Accumulate(s, foreman);
    if total.total == 0 { return Some(total); }
    hide Earned, RowsOf;
    var financial := map c | c in total.financial :: round(total.financial[c]);
    forall c: string
      ensures if c in financial then financial[c] == round(Earned(s, Money(c), foreman))
              else Earned(s, Money(c), foreman) == 0.0
    {
      assert Gain(total.financial, c) == Earned(s, Money(c), foreman);
    }
    r := Some(total.(financial := financial, minutes := round(total.minutes)));
  }

  /** The loop accumulates exactly the foreman's shares, per currency and in time, and counts the
      foreman's published works. */
  method Accumulate(s: Store, foreman: Id) returns (r: Summary)
    ensures |RowsOf(s, foreman, |s.parts|)| == 0 ==> r == Summary(0, 0, 0, map[], 0.0, None)
    ensures forall c: string :: Gain(r.financial, c) == Earned(s, Money(c), foreman)
    ensures r.minutes == Earned(s, Minutes, foreman)
    ensures var rows := RowsOf(s, foreman, |s.parts|);
            && r.total == |rows| && (forall i | 0 <= i < |rows| :: rows[i].work in s.works) && Tallies(s, rows, r)
  {
    var rows := RowsOf(s, foreman, |s.parts|);
    RowsArePublished(s, foreman, |s.parts|);
    hide RowsOf, Adds, Tallies, Earned;
    r := AddRows(s, rows);
    AddsAreEarned(s, foreman, r);
  }

  method AddRows(s: Store, rows: seq<Part>) returns (r: Summary)
    requires forall i | 0 <= i < |rows| ::
               rows[i] in s.parts && rows[i].work in s.works && s.works[rows[i].work].published
    ensures r.total == |rows| && Adds(s, rows, r) && Tallies(s, rows, r)
    ensures |rows| == 0 ==> r == Summary(0, 0, 0, map[], 0.0, None)
  {
    r := Summary(|rows|, 0, 0, map[], 0.0, None);
    NothingYet(s, rows, r);
    hide Adds, Tallies, CountOf;
    var counts := CountsFor(s, rows);
    var i := 0;
    while i < |rows|
      invariant 0 <= i <= |rows| && r.total == |rows| && (i == 0 ==> r == Summary(|rows|, 0, 0, map[], 0.0, None))
      invariant Adds(s, rows[..i], r) && Tallies(s, rows[..i], r)
    {
      var p := rows[i];
      assert rows[..i + 1] == rows[..i] + [p];
      AddedAdds(s, rows[..i], p, r);
      AddedTallies(s, rows[..i], p, r, counts[p.work]);
      r := AddRow(r, s.works[p.work], p.lead, counts[p.work]);
      i := i + 1;
    }
    assert rows[..i] == rows;
  }

  lemma NothingYet(s: Store, rows: seq<Part>, r: Summary)
    requires r.smed == 0 && r.led == 0 && r.financial == map[] && r.minutes == 0.0 && r.lastDate.None?
    ensures Adds(s, rows[..0], r) && Tallies(s, rows[..0], r)
  {
    assert rows[..0] == [];
  }

  /** The participant counts of the works in the rows. */
  method CountsFor(s: Store, rows: seq<Part>) returns (counts: map<Id, nat>)
    requires forall i | 0 <= i < |rows| :: rows[i] in s.parts
    ensures forall i | 0 <= i < |rows| ::
              rows[i].work in counts && counts[rows[i].work] == CountOf(s.parts, rows[i].work) > 0
  {
    counts := CountParticipants(s.parts, set i | 0 <= i < |rows| :: rows[i].work);
    hide CountOf;
    forall i | 0 <= i < |rows|
      ensures rows[i].work in counts && counts[rows[i].work] == CountOf(s.parts, rows[i].work) > 0
    {
      RowHasShare(s, rows[i]);
    }
  }

  /** The body of the loop. */
  method AddRow(r: Summary, w: Work, lead: bool, n: nat) returns (r': Summary)
    requires n > 0
    ensures r' == Added(r, w, lead, n)
  {
    var share := 1.0 / n as real;
    ghost var expected := Added(r, w, lead, n);
    r' := r;
    if w.smed { r' := r'.(smed := r'.smed + 1); }
    if lead { r' := r'.(led := r'.led + 1); }
    if w.amount.Some? && w.currency.Some? {
      var c := w.currency.value;
      var sum := Gain(r'.financial, c) + w.amount.value * share;
      r' := r'.(financial := r'.financial[c := sum]);
      assert Gain(r'.financial, c) == sum;
      assert expected.financial[c] == sum;
      assert r'.financial == expected.financial;
    }
    if w.minutes.Some? { r' := r'.(minutes := r'.minutes + w.minutes.value * share); }
    var date := DateOf(w);
    if date.Some? && (r'.lastDate.None? || date.value > r'.lastDate.value) { r' := r'.(lastDate := date); }
  }

  // ---- What the totals and counts mean ----

  ghost predicate HasParticipant(s: Store, work: Id) {
    exists i | 0 <= i < |s.parts| :: s.parts[i].work == work
  }

  function RowsOfWork(parts: seq<Part>, work: Id): set<nat> {
    set i | 0 <= i < |parts| && parts[i].work == work
  }

  lemma {:induction false} WorkIsCounted(parts: seq<Part>, work: Id)
    ensures CountOf(parts, work) == |RowsOfWork(parts, work)|
    decreases |parts|
  {
    if parts == [] { return; }
    var n := |parts| - 1;
    WorkIsCounted(parts[..n], work);
    assert RowsOfWork(parts, work) == RowsOfWork(parts[..n], work) + if parts[n].work == work then {n} else {};
  }

  lemma {:induction false} ParticipantExactlyWhen(s: Store, work: Id)
    ensures CountOf(s.parts, work) > 0 <==> HasParticipant(s, work)
  {
    WorkIsCounted(s.parts, work);
    var own := RowsOfWork(s.parts, work);
    hide CountOf;
    if own != {} {
      var i :| i in own;
      assert HasParticipant(s, work);
    }
    if i :| 0 <= i < |s.parts| && s.parts[i].work == work { assert i in own; }
  }

  /** The amount of a published work with a participant, where it is in this currency. */
  ghost function AmountIn(s: Store, c: string, work: Id): real {
    if work in s.works && s.works[work].published && HasParticipant(s, work)
       && s.works[work].currency == Some(c) && s.works[work].amount.Some?
    then s.works[work].amount.value else 0.0
  }

  /** The minutes saved by a published work with a participant. */
  ghost function MinutesIn(s: Store, work: Id): real {
    if work in s.works && s.works[work].published && HasParticipant(s, work) && s.works[work].minutes.Some?
    then s.works[work].minutes.value else 0.0
  }

  /** The foremen's totals in a currency add up to the amounts in it, their minutes to the minutes. */
  lemma {:induction false} TotalsAreThoseOfTheWorks(s: Store, foremen: seq<Id>, works: seq<Id>)
    requires Distinct(foremen) && Distinct(works)
    requires forall i | 0 <= i < |s.parts| :: s.parts[i].foreman in foremen && s.parts[i].work in works
    ensures forall c ::
              SumOver(foremen, (x: Id) => Earned(s, Money(c), x)) == SumOver(works, (w: Id) => AmountIn(s, c, w))
    ensures SumOver(foremen, (x: Id) => Earned(s, Minutes, x)) == SumOver(works, (w: Id) => MinutesIn(s, w))
  {
    forall w: Id ensures CountOf(s.parts, w) > 0 <==> HasParticipant(s, w) { ParticipantExactlyWhen(s, w); }
    hide CountOf, HasParticipant, Earned;
    forall c
      ensures SumOver(foremen, (x: Id) => Earned(s, Money(c), x)) == SumOver(works, (w: Id) => AmountIn(s, c, w))
    {
      SharesAreConserved(s, Money(c), foremen, works);
      SumOverAgrees(works, (w: Id) => SharedWorth(s, Money(c), w), (w: Id) => AmountIn(s, c, w));
    }
    SharesAreConserved(s, Minutes, foremen, works);
    SumOverAgrees(works, (w: Id) => SharedWorth(s, Minutes, w), (w: Id) => MinutesIn(s, w));
  }

  /** Row i makes the foreman a participant of a published work. */
  predicate OwnAt(s: Store, foreman: Id, i: nat)
    requires i < |s.parts|
  {
    s.parts[i].foreman == foreman && s.parts[i].work in s.works && s.works[s.parts[i].work].published
  }

  predicate SmedAt(s: Store, foreman: Id, i: nat)
    requires i < |s.parts|
  {
    OwnAt(s, foreman, i) && s.works[s.parts[i].work].smed
  }

  predicate LedAt(s: Store, foreman: Id, i: nat)
    requires i < |s.parts|
  {
    OwnAt(s, foreman, i) && s.parts[i].lead
  }

  function OwnRows(s: Store, foreman: Id, n: nat): set<nat>
    requires n <= |s.parts|
  {
    set i | 0 <= i < n && OwnAt(s, foreman, i)
  }

  function SmedRows(s: Store, foreman: Id, n: nat): set<nat>
    requires n <= |s.parts|
  {
    set i | 0 <= i < n && SmedAt(s, foreman, i)
  }

  function LedRows(s: Store, foreman: Id, n: nat): set<nat>
    requires n <= |s.parts|
  {
    set i | 0 <= i < n && LedAt(s, foreman, i)
  }

  lemma {:induction false} RowsAreCounted(s: Store, foreman: Id, n: nat)
    requires n <= |s.parts|
    ensures forall i | 0 <= i < |RowsOf(s, foreman, n)| :: RowsOf(s, foreman, n)[i].work in s.works
    ensures |RowsOf(s, foreman, n)| == |OwnRows(s, foreman, n)|
    ensures CountSmed(s, RowsOf(s, foreman, n)) == |SmedRows(s, foreman, n)|
    ensures CountLed(RowsOf(s, foreman, n)) == |LedRows(s, foreman, n)|
    decreases n
  {
    hide RowsOf, CountSmed, CountLed, OwnRows, SmedRows, LedRows, OwnAt, SmedAt, LedAt;
    RowsArePublished(s, foreman, n);
    NoRows(s, foreman);
    if n > 0 {
      RowsAreCounted(s, foreman, n - 1);
      OneMoreCounted(s, foreman, n - 1);
      OneMoreOwn(s, foreman, n - 1);
      OneMoreSmed(s, foreman, n - 1);
      OneMoreLed(s, foreman, n - 1);
    }
  }

  predicate WorksKnown(s: Store, rows: seq<Part>) {
    forall i | 0 <= i < |rows| :: rows[i].work in s.works
  }

  lemma NoRows(s: Store, foreman: Id)
    ensures RowsOf(s, foreman, 0) == [] && CountSmed(s, []) == 0 && CountLed([]) == 0
    ensures OwnRows(s, foreman, 0) == {} && SmedRows(s, foreman, 0) == {} && LedRows(s, foreman, 0) == {}
  {}

  lemma {:induction false} OneMoreCounted(s: Store, foreman: Id, n: nat)
    requires n < |s.parts|
    requires WorksKnown(s, RowsOf(s, foreman, n)) && WorksKnown(s, RowsOf(s, foreman, n + 1))
    ensures var rows, more := RowsOf(s, foreman, n), RowsOf(s, foreman, n + 1);
            && |more| == |rows| + (if OwnAt(s, foreman, n) then 1 else 0)
            && CountSmed(s, more) == CountSmed(s, rows) + (if SmedAt(s, foreman, n) then 1 else 0)
            && CountLed(more) == CountLed(rows) + if LedAt(s, foreman, n) then 1 else 0
  {
    var rows, p := RowsOf(s, foreman, n), s.parts[n];
    assert (rows + [p])[..|rows|] == rows && (rows + [p])[|rows|] == p && rows + [] == rows;
  }

  lemma OneMoreIndex(before: set<nat>, all: set<nat>, n: nat, here: bool)
    requires n !in before && all == before + if here then {n} else {}
    ensures |all| == |before| + if here then 1 else 0
  {}

  lemma OneMoreOwn(s: Store, foreman: Id, n: nat)
    requires n < |s.parts|
    ensures |OwnRows(s, foreman, n + 1)| == |OwnRows(s, foreman, n)| + if OwnAt(s, foreman, n) then 1 else 0
  {
    hide OwnAt;
    OneMoreIndex(OwnRows(s, foreman, n), OwnRows(s, foreman, n + 1), n, OwnAt(s, foreman, n));
  }

  lemma OneMoreSmed(s: Store, foreman: Id, n: nat)
    requires n < |s.parts|
    ensures |SmedRows(s, foreman, n + 1)| == |SmedRows(s, foreman, n)| + if SmedAt(s, foreman, n) then 1 else 0
  {
    hide SmedAt;
    OneMoreIndex(SmedRows(s, foreman, n), SmedRows(s, foreman, n + 1), n, SmedAt(s, foreman, n));
  }

  lemma OneMoreLed(s: Store, foreman: Id, n: nat)
    requires n < |s.parts|
    ensures |LedRows(s, foreman, n + 1)| == |LedRows(s, foreman, n)| + if LedAt(s, foreman, n) then 1 else 0
  {
    hide LedAt;
    OneMoreIndex(LedRows(s, foreman, n), LedRows(s, foreman, n + 1), n, LedAt(s, foreman, n));
  }

  /** The date of an own work: its work date, or the date it was published where it has none. */
  predicate DatedAt(s: Store, foreman: Id, i: nat, d: int)
    requires i < |s.parts|
  {
    OwnAt(s, foreman, i)
    && var w := s.works[s.parts[i].work];
       w.workDate == Some(d) || (w.workDate.None? && w.publishedDate == Some(d))
  }

  lemma {:induction false} RowsAreOwn(s: Store, foreman: Id, n: nat, p: Part)
    requires n <= |s.parts|
    ensures p in RowsOf(s, foreman, n) <==> exists i | 0 <= i < n :: s.parts[i] == p && OwnAt(s, foreman, i)
    decreases n
  {
    if n > 0 { RowsAreOwn(s, foreman, n - 1, p); }
  }

  /** The counts of a summary are those of the foreman's own published works, the SMED ones among them
      and those the foreman leads; its date is the latest of theirs. */
  lemma {:induction false} SummaryMeans(s: Store, foreman: Id, r: Summary)
    requires forall i | 0 <= i < |RowsOf(s, foreman, |s.parts|)| :: RowsOf(s, foreman, |s.parts|)[i].work in s.works
    requires r.total == |RowsOf(s, foreman, |s.parts|)| && Tallies(s, RowsOf(s, foreman, |s.parts|), r)
    ensures r.total == |set i | 0 <= i < |s.parts| && OwnAt(s, foreman, i)|
    ensures r.smed == |set i | 0 <= i < |s.parts| && SmedAt(s, foreman, i)|
    ensures r.led == |set i | 0 <= i < |s.parts| && LedAt(s, foreman, i)|
    ensures r.lastDate.Some? ==> exists i | 0 <= i < |s.parts| :: DatedAt(s, foreman, i, r.lastDate.value)
    ensures forall i, d | 0 <= i < |s.parts| && DatedAt(s, foreman, i, d) :: r.lastDate.Some? && d <= r.lastDate.value
  {
    var rows := RowsOf(s, foreman, |s.parts|);
    RowsAreCounted(s, foreman, |s.parts|);
    hide RowsOf, CountSmed, CountLed, OwnAt;
    if r.lastDate.Some? {
      var j :| 0 <= j < |rows| && DateOf(s.works[rows[j].work]) == r.lastDate;
      RowsAreOwn(s, foreman, |s.parts|, rows[j]);
      var i :| 0 <= i < |s.parts| && s.parts[i] == rows[j] && OwnAt(s, foreman, i);
      assert DatedAt(s, foreman, i, r.lastDate.value);
    }
    forall i, d | 0 <= i < |s.parts| && DatedAt(s, foreman, i, d) ensures r.lastDate.Some? && d <= r.lastDate.value {
      RowsAreOwn(s, foreman, |s.parts|, s.parts[i]);
      var j :| 0 <= j < |rows| && rows[j] == s.parts[i];
      assert DateOf(s.works[rows[j].work]) == Some(d);
    }
  }
}
