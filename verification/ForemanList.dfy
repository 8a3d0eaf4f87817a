/** The foreman list: the path that scores all candidates and the path that scores the page only. */
module ForemanList {
  import opened ForemanScoring
  import opened Options

  /** A published, scored work and one of its foremen. */
  datatype Credit = Credit(foreman: Id, score: int, date: int)

  const BONUS_WINDOW_DAYS := 90
  const MAX_GENERAL_SCORE := 120.0

  predicate Counts(c: Credit, asOf: int) { asOf - BONUS_WINDOW_DAYS <= c.date <= asOf }

  /** The bonus of one foreman: the scores of the foreman's own works in the window. */
  function BonusOf(credits: seq<Credit>, asOf: int, foreman: Id): int
    decreases |credits|
  {
    if credits == [] then 0 else
    var c := credits[|credits| - 1];
    BonusOf(credits[..|credits| - 1], asOf, foreman) + if c.foreman == foreman && Counts(c, asOf) then c.score else 0
  }

  function Found(m: map<Id, int>, x: Id): int { if x in m then m[x] else 0 }

  /** foreman_contribution_bonuses: one pass over the works, grouped by foreman; without a list of
      foremen, all of them are asked for. */
  method Bonuses(credits: seq<Credit>, asOf: int, wanted: Option<set<Id>>) returns (bonuses: map<Id, int>)
    ensures forall x: Id :: Found(bonuses, x) == if Allows(wanted, x) then BonusOf(credits, asOf, x) else 0
  {
    bonuses := map[];
    if wanted == Some({}) { return; }
    var i := 0;
    while i < |credits|
      invariant 0 <= i <= |credits|
      invariant forall x: Id :: Found(bonuses, x) == if Allows(wanted, x) then BonusOf(credits[..i], asOf, x) else 0
    {
      var c := credits[i];
      assert credits[..i + 1][..i] == credits[..i] && credits[..i + 1][i] == c;
      if Counts(c, asOf) && Allows(wanted, c.foreman) {
        bonuses := bonuses[c.foreman := Found(bonuses, c.foreman) + c.score];
      }
      i := i + 1;
    }
    assert credits[..i] == credits;
  }

  // ---- Assignments ----

  datatype Assignment = Assignment(foreman: Id, plant: Id, chief: Id, start: int, end: Option<int>)

  /** The assignments of one foreman, in the order they are read. */
  function AssignmentsOf(all: seq<Assignment>, foreman: Id): seq<Assignment> {
    Keep(all, (a: Assignment) => a.foreman == foreman)
  }

  /** Those in force during the period and, if any are, at the filtered plants, factories and chiefs. */
  function Matching(factoryOf: Id -> Id, f: Filters, own: seq<Assignment>): seq<Assignment> {
    var current := Keep(own, (a: Assignment) => a.start <= f.dateTo && (a.end.None? || a.end.value >= f.dateFrom));
    var matching := Keep(current, (a: Assignment) =>
      Allows(f.factories, factoryOf(a.plant)) && Allows(f.plants, a.plant) && Allows(f.chiefs, a.chief));
    if matching == [] then current else matching
  }

  function AssignedIn(m: map<Id, seq<Assignment>>, x: Id): seq<Assignment> { if x in m then m[x] else [] }

  /** batch_assignments_for_foremen: one pass, grouped by foreman. */
  method AssignmentsByForeman(all: seq<Assignment>, wanted: set<Id>) returns (grouped: map<Id, seq<Assignment>>)
    ensures forall x: Id :: AssignedIn(grouped, x) == if x in wanted then AssignmentsOf(all, x) else []
  {
    grouped := map[];
    if wanted == {} { return; }
    var i := 0;
    while i < |all|
      invariant 0 <= i <= |all|
      invariant forall x: Id :: AssignedIn(grouped, x) == if x in wanted then AssignmentsOf(all[..i], x) else []
    {
      var a := all[i];
      assert all[..i + 1][..i] == all[..i] && all[..i + 1][i] == a;
      if a.foreman in wanted { grouped := grouped[a.foreman := AssignedIn(grouped, a.foreman) + [a]]; }
      i := i + 1;
    }
    assert all[..i] == all;
  }

  /** What the list shows of a foreman. */
  datatype Card = Card(operational: real, bonus: int, general: real, reliable: bool, assignments: seq<Assignment>)

  function CardFrom(score: Option<GroupScore>, bonus: int, assignments: seq<Assignment>): Card {
    var operational := if score.Some? then score.value.total else 0.0;
    var sum := operational + bonus as real;
    Card(operational, bonus, if sum < MAX_GENERAL_SCORE then sum else MAX_GENERAL_SCORE,
         score.Some? && score.value.reliable, assignments)
  }

  /** The card of one foreman, from that foreman's records, works and assignments only. */
  ghost function CardOf(s: Store, f: Filters, credits: seq<Credit>, all: seq<Assignment>, foreman: Id): Card {
    CardFrom(ScoreOf(s, f, foreman), BonusOf(credits, f.dateTo, foreman),
             Matching(s.factoryOf, f, AssignmentsOf(all, foreman)))
  }

  function ScoreIn(scores: map<Id, GroupScore>, x: Id): Option<GroupScore> {
    if x in scores then Some(scores[x]) else None
  }

  /** The filters the scores are computed under: the page-only path puts the page in place of the
      request's own foreman filter. */
  function ScoringFilters(f: Filters, page: set<Id>, full: bool): Filters {
    if full || page == {} then f else Narrowed(f, page)
  }

  /** list_foremen: each card is that of its foreman alone, under the filters of the path taken.
      Without a foreman filter the path makes no difference: whether all candidates are scored
      (`full`) or only the page, the cards are the same, and the page-only path fails on a formula
      only where the full path would. */
  method PageCards(s: Store, f: Filters, credits: seq<Credit>, all: seq<Assignment>,
                   candidates: set<Id>, page: set<Id>, full: bool)
    returns (cards: Option<map<Id, Card>>)
    requires page <= candidates
    ensures cards.Some? ==>
              cards.value.Keys == page
              && forall x: Id | x in page :: cards.value[x] == CardOf(s, ScoringFilters(f, page, full), credits, all, x)
    ensures cards.Some? && f.foremen.None? ==>
              forall x: Id | x in page :: cards.value[x] == CardOf(s, f, credits, all, x)
    ensures cards.None? <==> (full || page != {}) && AnyFailure(s, ScoringFilters(f, page, full))
    ensures cards.None? && f.foremen.None? ==> AnyFailure(s, f)
  {
    hide ScoreOf, AnyFailure, BonusOf, AssignmentsOf;
    var scores: map<Id, GroupScore>, bonuses: map<Id, int> := map[], map[];
    var grouped := AssignmentsByForeman(all, if full then candidates else page);
    if full {
      var r := ForemanScores(s, f);
      if r.None? { return None; }
      scores := r.value;
      bonuses := Bonuses(credits, f.dateTo, Some(candidates));
    } else if page != {} {
      var r := ForemanScores(s, Narrowed(f, page));
      if r.None? {
        if f.foremen.None? { PageFailsOnlyIfFullDoes(s, f, page); }
        return None;
      }
      scores := r.value;
      bonuses := Bonuses(credits, f.dateTo, Some(page));
      if f.foremen.None? {
        forall x: Id | x in page ensures ScoreOf(s, Narrowed(f, page), x) == ScoreOf(s, f, x) {
          PageScoreIsFullExactlyWhen(s, f, page, x);
        }
      }
    }
    return Some(map x | x in page ::
      CardFrom(ScoreIn(scores, x), Found(bonuses, x), Matching(s.factoryOf, f, AssignedIn(grouped, x))));
  }

  // ---- What a card shows, over the rows behind it ----

  function ScoreSum(credits: seq<Credit>): int
    decreases |credits|
  {
    if credits == [] then 0 else ScoreSum(credits[..|credits| - 1]) + credits[|credits| - 1].score
  }

  /** The bonus adds up the foreman's works of the 90 days up to the date, both ends included. */
  lemma {:induction false} BonusIsTheWindow(credits: seq<Credit>, asOf: int, foreman: Id)
    ensures BonusOf(credits, asOf, foreman)
            == ScoreSum(Keep(credits, (c: Credit) => c.foreman == foreman && asOf - 90 <= c.date && c.date <= asOf))
    decreases |credits|
  {
    if credits != [] {
      var front, c := credits[..|credits| - 1], credits[|credits| - 1];
      BonusIsTheWindow(front, asOf, foreman);
      var kept := Keep(front, (c: Credit) => c.foreman == foreman && asOf - 90 <= c.date && c.date <= asOf);
      assert (kept + [c])[..|kept|] == kept && kept + [] == kept;
    }
  }

  /** The general score is the operational score, zero where there is none, plus the bonus, but never
      above 120. */
  lemma CardMeans(score: Option<GroupScore>, bonus: int, assignments: seq<Assignment>)
    ensures var c := CardFrom(score, bonus, assignments);
            && c.operational == (match score case None => 0.0 case Some(g) => g.total)
            && (c.reliable <==> score.Some? && score.value.reliable)
            && c.bonus == bonus && c.assignments == assignments
            && c.general <= 120.0 && c.general <= c.operational + bonus as real
            && (c.general == 120.0 || c.general == c.operational + bonus as real)
  {}

  predicate InForce(f: Filters, foreman: Id, a: Assignment) {
    a.foreman == foreman && a.start <= f.dateTo && (a.end.Some? ==> f.dateFrom <= a.end.value)
  }

  predicate AtFilters(factoryOf: Id -> Id, f: Filters, a: Assignment) {
    && (f.plants.Some? ==> a.plant in f.plants.value)
    && (f.factories.Some? ==> factoryOf(a.plant) in f.factories.value)
    && (f.chiefs.Some? ==> a.chief in f.chiefs.value)
  }

  lemma {:induction false} KeepTwice<T>(all: seq<T>, p: T -> bool, q: T -> bool, both: T -> bool)
    requires forall x :: both(x) <==> p(x) && q(x)
    ensures Keep(Keep(all, p), q) == Keep(all, both)
    decreases |all|
  {
    if all != [] {
      var front, x := all[..|all| - 1], all[|all| - 1];
      hide Keep;
      assert all == front + [x];
      KeepTwice(front, p, q, both);
      KeepOneMore(front, x, p);
      KeepOneMore(front, x, both);
      assert both(x) <==> p(x) && q(x);
      assert Keep(front, p) + [] == Keep(front, p);
      KeepOneMore(Keep(front, p), x, q);
    }
  }

  lemma {:induction false} KeepSome<T>(all: seq<T>, p: T -> bool)
    ensures Keep(all, p) != [] <==> exists i | 0 <= i < |all| :: p(all[i])
    decreases |all|
  {
    if all != [] {
      KeepSome(all[..|all| - 1], p);
      assert all == all[..|all| - 1] + [all[|all| - 1]];
    }
  }

  /** A card lists the foreman's assignments in force during the period that are at the filtered
      plants, factories and chiefs, or all those in force when none is, in the order they are read. */
  lemma {:induction false} MatchingExactlyAs(factoryOf: Id -> Id, f: Filters, all: seq<Assignment>, foreman: Id)
    ensures Matching(factoryOf, f, AssignmentsOf(all, foreman)) ==
              if exists i | 0 <= i < |all| :: InForce(f, foreman, all[i]) && AtFilters(factoryOf, f, all[i])
              then Keep(all, (a: Assignment) => InForce(f, foreman, a) && AtFilters(factoryOf, f, a))
              else Keep(all, (a: Assignment) => InForce(f, foreman, a))
  {
    var current := (a: Assignment) => a.start <= f.dateTo && (a.end.None? || a.end.value >= f.dateFrom);
    var matches := (a: Assignment) =>
      Allows(f.factories, factoryOf(a.plant)) && Allows(f.plants, a.plant) && Allows(f.chiefs, a.chief);
    var inForce := (a: Assignment) => InForce(f, foreman, a);
    var both := (a: Assignment) => InForce(f, foreman, a) && AtFilters(factoryOf, f, a);
    KeepTwice(all, (a: Assignment) => a.foreman == foreman, current, inForce);
    KeepTwice(all, inForce, matches, both);
    KeepSome(all, both);
    assert AssignmentsOf(all, foreman) == Keep(all, (a: Assignment) => a.foreman == foreman);
    hide Keep, InForce, AtFilters, Allows;
    assert Matching(factoryOf, f, AssignmentsOf(all, foreman))
           == if Keep(all, both) == [] then Keep(all, inForce) else Keep(all, both);
    assert forall i | 0 <= i < |all| :: both(all[i]) <==>
             InForce(f, foreman, all[i]) && AtFilters(factoryOf, f, all[i]);
  }
}
