/** Whole ingestion runs: the feed, the batches of `k` rows, and the counters. */
module IngestionRun {
  import opened IngestionFlush
  import opened IngestionStore

  /** What a feed line comes to: unknown codes, a row to store, or an exception that ends the run. */
  datatype Outcome = Unknown | Ready(row: Row) | Raises

  datatype Progress = Progress(state: State, batch: seq<Row>, processed: nat, errors: nat, halted: bool)

  function Start(st: State): Progress {
    Progress(st.(success := 0, skipped := 0), [], 0, 0, false)
  }

  ghost function FlushBatch(p: Progress): Progress {
    if p.batch == [] then p else
    match Flushed(p.state, p.batch)
    case Ok(st) => p.(state := st, batch := [])
    case IntegrityError => p.(batch := [], halted := true)
  }

  ghost function Feed(p: Progress, o: Outcome, k: nat): Progress {
    if p.halted then p else
    match o
    case Unknown => p.(processed := p.processed + 1, errors := p.errors + 1)
    case Raises => p.(processed := p.processed + 1, batch := [], halted := true)
    case Ready(row) =>
      var p' := p.(processed := p.processed + 1, batch := p.batch + [row]);
      if |p'.batch| >= k then FlushBatch(p') else p'
  }

  ghost function FeedAll(st: State, outs: seq<Outcome>, k: nat): Progress
    decreases |outs|
  {
    if outs == [] then Start(st) else Feed(FeedAll(st, outs[..|outs| - 1], k), outs[|outs| - 1], k)
  }

  /** run_ingestion with batches of `k` rows; an exception leaves what was committed before it. */
  ghost function RunAll(st: State, outs: seq<Outcome>, k: nat): Progress {
    var p := FeedAll(st, outs, k);
    if p.halted then p else FlushBatch(p)
  }

  predicate Interrupted(outs: seq<Outcome>) {
    exists i | 0 <= i < |outs| :: outs[i].Raises?
  }

  /** The rows the feed yields before the first exception. */
  function RowsOf(outs: seq<Outcome>): seq<Row>
    decreases |outs|
  {
    if outs == [] then [] else
    var front, o := outs[..|outs| - 1], outs[|outs| - 1];
    if Interrupted(front) || !o.Ready? then RowsOf(front) else RowsOf(front) + [o.row]
  }

  function UnknownCount(outs: seq<Outcome>): nat
    decreases |outs|
  {
    if outs == [] then 0 else UnknownCount(outs[..|outs| - 1]) + if outs[|outs| - 1].Unknown? then 1 else 0
  }

  /** No two rows that fall into the same batch of `k` share a source. */
  ghost predicate WindowsDistinct(rows: seq<Row>, k: nat)
    requires k > 0
  {
    forall i, j | 0 <= i < j < |rows| && i / k == j / k :: rows[i].source != rows[j].source
  }

  // ---- Batched and one-by-one ingestion agree ----

  lemma {:induction false} ApplyAllJoins(st: State, a: seq<Row>, b: seq<Row>)
    ensures ApplyAll(ApplyAll(st, a), b) == ApplyAll(st, a + b)
    decreases |b|
  {
    if b == [] {
      assert a + b == a;
    } else {
      var front, row := b[..|b| - 1], b[|b| - 1];
      assert (a + b)[..|a + b| - 1] == a + front && (a + b)[|a + b| - 1] == row;
      ApplyAllJoins(st, a, front);
    }
  }

  lemma {:induction false} FreshAfter(st: State, a: seq<Row>, b: seq<Row>)
    requires Valid(st) && FreshIds(st.records, a + b)
    ensures FreshIds(st.records, a) && FreshIds(ApplyAll(st, a).records, b) && Valid(ApplyAll(st, a))
  {
    var ab := a + b;
    assert forall i | 0 <= i < |a| :: a[i] == ab[i];
    assert forall i | 0 <= i < |b| :: b[i] == ab[|a| + i];
    ApplyAllKeepsIdentity(st, a);
  }

  lemma MulMonotone(a: nat, b: nat, k: nat)
    requires a <= b
    ensures a * k <= b * k
  {
    assert b * k - a * k == (b - a) * k;
  }

  lemma SameWindow(i: nat, q: nat, m: nat, k: nat)
    requires k > 0 && q == m * k && q <= i < q + k
    ensures i / k == m
  {
    var d := i / k;
    assert i == d * k + i % k;
    if d < m { MulMonotone(d + 1, m, k); }
    if m < d { MulMonotone(m + 1, d, k); }
  }

  /** One more row: either it waits in the batch, or it completes a window and is flushed with it. */
  lemma {:induction false} WindowStep(st: State, rows: seq<Row>, row: Row, k: nat, q: nat, m: nat)
    requires k > 0 && q == m * k && q <= |rows| < q + k
    requires Valid(st) && FreshIds(st.records, rows + [row]) && WindowsDistinct(rows + [row], k)
    ensures Flushed(ApplyAll(st, rows[..q]), rows[q..] + [row]) == Ok(ApplyAll(st, rows + [row]))
  {
    hide ApplyAll, Flushed, Valid, FreshIds;
    var all, b := rows + [row], rows[q..] + [row];
    assert all[..q] == rows[..q] && all == all[..q] + b;
    FreshAfter(st, all[..q], b);
    forall i, j | 0 <= i < j < |b| ensures b[i].source != b[j].source {
      SameWindow(q + i, q, m, k);
      SameWindow(q + j, q, m, k);
      assert all[q + i] == b[i] && all[q + j] == b[j];
    }
    FlushIsOneByOne(ApplyAll(st, all[..q]), b);
    ApplyAllJoins(st, all[..q], b);
  }

  /** The rows that complete batches of `k`. */
  function Whole(n: nat, k: nat): (q: nat)
    requires k > 0
    ensures q <= n < q + k
  {
    n / k * k
  }

  lemma WholeSteps(n: nat, k: nat)
    requires k > 0
    ensures Whole(n + 1, k) == if n + 1 - Whole(n, k) >= k then n + 1 else Whole(n, k)
  {
    var m := n / k;
    if n + 1 - Whole(n, k) >= k {
      SameWindow(n + 1, Whole(n, k) + k, m + 1, k);
    } else {
      SameWindow(n + 1, Whole(n, k), m, k);
    }
  }

  lemma {:induction false} PrefixFacts(st: State, rows: seq<Row>, row: Row, k: nat)
    requires k > 0 && WindowsDistinct(rows + [row], k) && FreshIds(st.records, rows + [row])
    ensures WindowsDistinct(rows, k) && FreshIds(st.records, rows)
  {
    assert forall i | 0 <= i < |rows| :: rows[i] == (rows + [row])[i];
  }

  /** What `FeedAll` has reached after some lines, in terms of the one-by-one ingester. */
  ghost predicate Reached(p: Progress, s0: State, rows: seq<Row>, k: nat)
    requires k > 0
  {
    var q := Whole(|rows|, k);
    p.state == ApplyAll(s0, rows[..q]) && (!p.halted ==> p.batch == rows[q..])
  }

  /** How one more row moves the split between flushed and waiting rows. */
  lemma {:induction false} SplitSteps(rows: seq<Row>, row: Row, k: nat)
    requires k > 0
    ensures var q, all, b := Whole(|rows|, k), rows + [row], rows[Whole(|rows|, k)..] + [row];
            if |b| >= k then all[..Whole(|all|, k)] == all && all[Whole(|all|, k)..] == []
            else all[..Whole(|all|, k)] == rows[..q] && all[Whole(|all|, k)..] == b
  {
    WholeSteps(|rows|, k);
    hide Whole;
    var all := rows + [row];
    assert all[..|all|] == all;
  }

  lemma {:induction false} ReadyLine(p: Progress, s0: State, rows: seq<Row>, row: Row, k: nat)
    requires k > 0 && Valid(s0) && FreshIds(s0.records, rows + [row]) && WindowsDistinct(rows + [row], k)
    requires Reached(p, s0, rows, k) && !p.halted
    ensures var p' := Feed(p, Ready(row), k);
            Reached(p', s0, rows + [row], k) && !p'.halted && p'.processed == p.processed + 1 && p'.errors == p.errors
  {
    SplitSteps(rows, row, k);
    var q, all := Whole(|rows|, k), rows + [row];
    var b := rows[q..] + [row];
    if |b| >= k {
      assert Flushed(ApplyAll(s0, rows[..q]), b) == Ok(ApplyAll(s0, all)) by {
        WindowStep(s0, rows, row, k, q, |rows| / k);
      }
      hide ApplyAll, Flushed, Whole, Valid, FreshIds, WindowsDistinct;
      assert Feed(p, Ready(row), k).state == ApplyAll(s0, all);
    } else {
      hide ApplyAll, Flushed, Whole, Valid, FreshIds, WindowsDistinct;
      assert Feed(p, Ready(row), k).batch == b;
    }
  }

  lemma {:induction false} InterruptedSteps(outs: seq<Outcome>)
    requires outs != []
    ensures Interrupted(outs) <==> Interrupted(outs[..|outs| - 1]) || outs[|outs| - 1].Raises?
  {
    var front := outs[..|outs| - 1];
    if Interrupted(front) {
      var i :| 0 <= i < |front| && front[i].Raises?;
      assert outs[i].Raises?;
    }
  }

  /** While the feed runs, the store is the one-by-one ingester on the whole batches so far, and
      the rows after them wait in the batch; an exception loses exactly the waiting rows. */
  lemma {:induction false} FeedRefinesOneByOne(st: State, outs: seq<Outcome>, k: nat)
    requires k > 0 && Valid(st) && FreshIds(st.records, RowsOf(outs)) && WindowsDistinct(RowsOf(outs), k)
    ensures var p := FeedAll(st, outs, k);
            && Reached(p, Start(st).state, RowsOf(outs), k)
            && (p.halted <==> Interrupted(outs))
            && (!p.halted ==> p.processed == |outs| && p.errors == UnknownCount(outs))
    decreases |outs|
  {
    hide ApplyAll, Flushed, Whole, FreshIds, WindowsDistinct, ApplyRow;
    if outs == [] {
      NothingApplied(Start(st).state);
    } else {
      var front, o := outs[..|outs| - 1], outs[|outs| - 1];
      InterruptedSteps(outs);
      var rows := RowsOf(front);
      if Interrupted(front) || !o.Ready? {
        FeedRefinesOneByOne(st, front, k);
      } else {
        PrefixFacts(st, rows, o.row, k);
        FeedRefinesOneByOne(st, front, k);
        ReadyLine(FeedAll(st, front, k), Start(st).state, rows, o.row, k);
      }
    }
  }

  lemma NothingApplied(st: State)
    ensures ApplyAll(st, []) == st
  {}

  /** A run that no exception ends is the one-by-one ingester on its rows, whatever the batch
      size, as long as no two rows of one batch share a source; and every feed line is counted. */
  lemma {:induction false} RunRefinesOneByOne(st: State, outs: seq<Outcome>, k: nat)
    requires k > 0 && Valid(st) && FreshIds(st.records, RowsOf(outs)) && WindowsDistinct(RowsOf(outs), k)
    requires !Interrupted(outs)
    ensures RunAll(st, outs, k) == Progress(ApplyAll(Start(st).state, RowsOf(outs)), [], |outs|, UnknownCount(outs),
                                            false)
    ensures |outs| == RunAll(st, outs, k).state.success + RunAll(st, outs, k).state.skipped + UnknownCount(outs)
  {
    FeedRefinesOneByOne(st, outs, k);
    var rows, s0 := RowsOf(outs), Start(st).state;
    LastBatch(s0, rows, k);
    EveryRowCounted(s0, rows);
    EveryLineCounted(outs);
    hide ApplyAll, Flushed, RowsOf, FeedAll, UnknownCount;
  }

  lemma {:induction false} LastBatch(s0: State, rows: seq<Row>, k: nat)
    requires k > 0 && Valid(s0) && FreshIds(s0.records, rows) && WindowsDistinct(rows, k)
    ensures var q := Whole(|rows|, k);
            if rows[q..] == [] then ApplyAll(s0, rows[..q]) == ApplyAll(s0, rows)
            else Flushed(ApplyAll(s0, rows[..q]), rows[q..]) == Ok(ApplyAll(s0, rows))
  {
    var q, m := Whole(|rows|, k), |rows| / k;
    assert q == m * k;
    if rows[q..] == [] {
      assert rows[..q] == rows;
      return;
    }
    hide *;
    var front, row := rows[..|rows| - 1], rows[|rows| - 1];
    LastRowSplits(rows, q);
    WindowStep(s0, front, row, k, q, m);
  }

  lemma LastRowSplits(rows: seq<Row>, q: nat)
    requires q < |rows|
    ensures var front, row := rows[..|rows| - 1], rows[|rows| - 1];
            front + [row] == rows && front[q..] + [row] == rows[q..] && front[..q] == rows[..q]
  {}

  lemma {:induction false} EveryRowCounted(st: State, rows: seq<Row>)
    ensures ApplyAll(st, rows).success + ApplyAll(st, rows).skipped == st.success + st.skipped + |rows|
    decreases |rows|
  {
    if rows != [] { EveryRowCounted(st, rows[..|rows| - 1]); }
  }

  lemma {:induction false} EveryLineCounted(outs: seq<Outcome>)
    requires !Interrupted(outs)
    ensures |RowsOf(outs)| + UnknownCount(outs) == |outs|
    decreases |outs|
  {
    if outs != [] {
      var front := outs[..|outs| - 1];
      forall i | 0 <= i < |front| ensures !front[i].Raises? { assert !outs[i].Raises?; }
      EveryLineCounted(front);
    }
  }

  /** A feed of distinct sources gives the same store and the same counters for every batch size. */
  lemma {:induction false} BatchSizeDoesNotMatter(st: State, outs: seq<Outcome>, k1: nat, k2: nat)
    requires k1 > 0 && k2 > 0 && Valid(st) && FreshIds(st.records, RowsOf(outs)) && DistinctSources(RowsOf(outs))
    requires !Interrupted(outs)
    ensures RunAll(st, outs, k1) == RunAll(st, outs, k2)
  {
    RunRefinesOneByOne(st, outs, k1);
    RunRefinesOneByOne(st, outs, k2);
  }

  /** An exception at any line leaves the one-by-one result of the whole batches before it. */
  lemma {:induction false} InterruptionLosesTheOpenBatch(st: State, outs: seq<Outcome>, k: nat)
    requires k > 0 && Valid(st) && FreshIds(st.records, RowsOf(outs)) && WindowsDistinct(RowsOf(outs), k)
    requires Interrupted(outs)
    ensures RunAll(st, outs, k).state == ApplyAll(Start(st).state, RowsOf(outs)[..Whole(|RowsOf(outs)|, k)])
    ensures RunAll(st, outs, k).halted
  {
    FeedRefinesOneByOne(st, outs, k);
  }
}
