/** The two tables behind the anomaly-analysis jobs, and the statements the workers and
    the watchdog commit on them.  `Db` is the value of the tables; class `Database` is the
    database the services update in place, each method proved against a function on `Db`. */
module AnalysisStore {
  import opened Options

  datatype Status =
    | NotAnalyzed
    | Queued
    | Planning
    | CollectingData
    | GeneratingAnalysis
    | Analyzing
    | Completed
    | CompletedWithWarnings
    | Failed

  predicate InProgress(s: Status) {
    s.Queued? || s.Planning? || s.CollectingData? || s.GeneratingAnalysis? || s.Analyzing?
  }

  predicate Final(s: Status) {
    s.Completed? || s.CompletedWithWarnings? || s.Failed?
  }

  type AnomalyId = nat
  type AttemptId = nat

  /** `current` is the claim token: the attempt that may write `status`. */
  datatype Anomaly = Anomaly(status: Status, current: Option<AttemptId>)

  datatype Attempt = Attempt(anomaly: AnomalyId, status: Status, startedAt: int)

  datatype Db = Db(anomalies: map<AnomalyId, Anomaly>, attempts: map<AttemptId, Attempt>)

  predicate Active(db: Db, a: AttemptId, n: AnomalyId) {
    a in db.attempts && db.attempts[a].anomaly == n && InProgress(db.attempts[a].status)
  }

  /** The partial unique index: at most one attempt of an anomaly is in progress. */
  predicate IndexHolds(db: Db) {
    forall a, b | a in db.attempts && b in db.attempts && InProgress(db.attempts[a].status)
                  && InProgress(db.attempts[b].status) && db.attempts[a].anomaly == db.attempts[b].anomaly :: a == b
  }

  predicate Referential(db: Db) {
    forall a | a in db.attempts :: db.attempts[a].anomaly in db.anomalies
  }

  predicate Blocked(db: Db, n: AnomalyId, except: AttemptId) {
    exists b | b in db.attempts :: b != except && Active(db, b, n)
  }

  /** The claim: INSERT of the attempt row, guarded by the index, and the token, in one transaction. */
  function Claimed(db: Db, n: AnomalyId, a: AttemptId, startedAt: int): Db {
    Db(db.anomalies[n := Anomaly(Queued, Some(a))], db.attempts[a := Attempt(n, Queued, startedAt)])
  }

  function WithAttemptStatus(db: Db, a: AttemptId, s: Status): Db
    requires a in db.attempts
  {
    db.(attempts := db.attempts[a := db.attempts[a].(status := s)])
  }

  /** UPDATE anomalies SET analysis_status WHERE id = n AND current_analysis_id = a. */
  function ReportedIfCurrent(db: Db, n: AnomalyId, a: AttemptId, s: Status): Db {
    if n in db.anomalies && db.anomalies[n].current == Some(a)
    then db.(anomalies := db.anomalies[n := db.anomalies[n].(status := s)])
    else db
  }

  predicate Stale(db: Db, a: AttemptId, cutoff: int) {
    a in db.attempts && InProgress(db.attempts[a].status) && db.attempts[a].startedAt < cutoff
  }

  ghost function StaleSet(db: Db, cutoff: int): set<AttemptId> {
    set a | a in db.attempts && Stale(db, a, cutoff)
  }

  /** The tables after the watchdog has failed the attempts in `done`. */
  function Swept(db: Db, done: set<AttemptId>): Db {
    Db(
      map n | n in db.anomalies :: var c := db.anomalies[n].current;
        if c.Some? && c.value in done && c.value in db.attempts && db.attempts[c.value].anomaly == n
        then db.anomalies[n].(status := Failed) else db.anomalies[n],
      map a | a in db.attempts :: if a in done then db.attempts[a].(status := Failed) else db.attempts[a])
  }

  /** One candidate of the watchdog's loop: fail the attempt, then compare-and-set its anomaly. */
  function SweptAttempt(db: Db, a: AttemptId): Db
    requires a in db.attempts
  {
    ReportedIfCurrent(WithAttemptStatus(db, a, Failed), db.attempts[a].anomaly, a, Failed)
  }

  lemma SweptNone(db: Db)
    ensures Swept(db, {}) == db
  {
    assert Swept(db, {}).anomalies == db.anomalies;
    assert Swept(db, {}).attempts == db.attempts;
  }

  lemma SweptReferential(db: Db, done: set<AttemptId>)
    requires Referential(db)
    ensures Referential(Swept(db, done))
    ensures IndexHolds(db) ==> IndexHolds(Swept(db, done))
  {}

  function Members(ids: seq<AttemptId>): set<AttemptId> { set a | a in ids }

  ghost predicate Distinct(ids: seq<AttemptId>) {
    forall i, j | 0 <= i < j < |ids| :: ids[i] != ids[j]
  }

  lemma NextMember(ids: seq<AttemptId>, i: nat)
    requires Distinct(ids) && i < |ids|
    ensures Members(ids[..i + 1]) == Members(ids[..i]) + {ids[i]}
    ensures ids[i] !in Members(ids[..i]) && ids[i] in Members(ids)
  {
    assert ids[..i + 1] == ids[..i] + [ids[i]];
  }

  lemma InStaleSet(db: Db, cutoff: int, a: AttemptId)
    ensures a in StaleSet(db, cutoff) <==> Stale(db, a, cutoff)
  {}

  /** Candidates not swept yet are as they were. */
  lemma SweptLeaves(db: Db, done: set<AttemptId>, a: AttemptId)
    requires a in db.attempts && a !in done
    ensures a in Swept(db, done).attempts && Swept(db, done).attempts[a] == db.attempts[a]
  {}

  /** The loop's order does not matter: failing one more candidate enlarges the swept set. */
  lemma SweptOneMore(db: Db, done: set<AttemptId>, a: AttemptId)
    requires a in db.attempts
    ensures SweptAttempt(Swept(db, done), a) == Swept(db, done + {a})
  {
    var l := SweptAttempt(Swept(db, done), a);
    var r := Swept(db, done + {a});
    assert l.attempts == r.attempts;
    assert l.anomalies.Keys == r.anomalies.Keys;
    forall m | m in db.anomalies ensures l.anomalies[m] == r.anomalies[m] {}
    assert l.anomalies == r.anomalies;
  }

  /** The token of the anomaly names one of these attempts, and the attempt is of this anomaly. */
  predicate HeldBy(db: Db, n: AnomalyId, ids: seq<AttemptId>)
    requires n in db.anomalies
  {
    && db.anomalies[n].current.Some? && db.anomalies[n].current.value in ids
    && db.anomalies[n].current.value in db.attempts && db.attempts[db.anomalies[n].current.value].anomaly == n
  }

  /** What the watchdog's result holds, row by row. */
  lemma SweptMeans(db: Db, cutoff: int)
    ensures forall ids: seq<AttemptId> | Members(ids) == StaleSet(db, cutoff) ::
              && (forall a :: a in ids <==>
                    a in db.attempts && db.attempts[a].startedAt < cutoff && db.attempts[a].status in
                      {Queued, Planning, CollectingData, GeneratingAnalysis, Analyzing})
              && var w := Swept(db, Members(ids));
                 && w.attempts.Keys == db.attempts.Keys && w.anomalies.Keys == db.anomalies.Keys
                 && (forall a | a in w.attempts ::
                       w.attempts[a] == if a in ids then db.attempts[a].(status := Failed) else db.attempts[a])
                 && (forall n | n in w.anomalies ::
                       w.anomalies[n] == if HeldBy(db, n, ids) then db.anomalies[n].(status := Failed)
                                         else db.anomalies[n])
  {
    forall ids: seq<AttemptId> | Members(ids) == StaleSet(db, cutoff)
      ensures forall a :: a in ids <==>
                a in db.attempts && db.attempts[a].startedAt < cutoff && db.attempts[a].status in
                  {Queued, Planning, CollectingData, GeneratingAnalysis, Analyzing}
    {
      forall a ensures a in ids <==> Stale(db, a, cutoff) { assert a in ids <==> a in Members(ids); }
    }
  }

  class Database {
    var anomalies: map<AnomalyId, Anomaly>
    var attempts: map<AttemptId, Attempt>

    ghost function Value(): Db
      reads this
    {
      Db(anomalies, attempts)
    }

    ghost predicate Valid()
      reads this
    {
      IndexHolds(Value()) && Referential(Value())
    }

    /** claim_analysis: false stands for AnalysisInProgressError, with the transaction rolled back. */
    method ClaimAnalysis(n: AnomalyId, a: AttemptId, startedAt: int) returns (ok: bool)
      requires Valid() && n in anomalies && a !in attempts
      modifies this
      ensures Valid()
      ensures ok <==> !old(Blocked(Value(), n, a))
      ensures Value() == if ok then Claimed(old(Value()), n, a, startedAt) else old(Value())
      ensures ok ==>
                && anomalies == old(anomalies)[n := Anomaly(Queued, Some(a))]
                && attempts == old(attempts)[a := Attempt(n, Queued, startedAt)]
    {
      if exists b | b in attempts :: b != a && attempts[b].anomaly == n && InProgress(attempts[b].status) {
        assert exists b | b in attempts :: b != a && Active(Value(), b, n);
        return false;
      }
      assert forall b | b in attempts && b != a :: !Active(Value(), b, n);
      attempts := attempts[a := Attempt(n, Queued, startedAt)];
      anomalies := anomalies[n := Anomaly(Queued, Some(a))];
      ok := true;
    }

    /** The worker's own commit of `analysis.status`: unconditional, but still under the index. */
    method CommitOwnStatus(a: AttemptId, s: Status) returns (ok: bool)
      requires Valid() && a in attempts
      modifies this`attempts
      ensures Valid()
      ensures ok <==> !(InProgress(s) && old(Blocked(Value(), attempts[a].anomaly, a)))
      ensures Value() == if ok then WithAttemptStatus(old(Value()), a, s) else old(Value())
    {
      var n := attempts[a].anomaly;
      if InProgress(s)
         && exists b | b in attempts :: b != a && attempts[b].anomaly == n && InProgress(attempts[b].status) {
        assert exists b | b in attempts :: b != a && Active(Value(), b, n);
        return false;
      }
      assert InProgress(s) ==> forall b | b in attempts && b != a :: !Active(Value(), b, n);
      attempts := attempts[a := attempts[a].(status := s)];
      ok := true;
    }

    /** set_anomaly_status_if_current: compare-and-set on the claim token. */
    method SetAnomalyStatusIfCurrent(n: AnomalyId, a: AttemptId, s: Status) returns (updated: bool)
      requires n in anomalies
      modifies this`anomalies
      ensures Value() == ReportedIfCurrent(old(Value()), n, a, s)
      ensures updated <==> old(anomalies)[n].current == Some(a)
    {
      updated := anomalies[n].current == Some(a);
      if updated {
        anomalies := anomalies[n := anomalies[n].(status := s)];
      }
    }

    /** One candidate of the watchdog: conditional UPDATE of the attempt, then of the anomaly. */
    method ReconcileOne(a: AttemptId, cutoff: int) returns (hit: bool)
      requires Referential(Value()) && a in attempts
      modifies this
      ensures hit <==> old(Stale(Value(), a, cutoff))
      ensures Value() == if hit then SweptAttempt(old(Value()), a) else old(Value())
    {
      hit := InProgress(attempts[a].status) && attempts[a].startedAt < cutoff;
      if hit {
        var n := attempts[a].anomaly;
        attempts := attempts[a := attempts[a].(status := Failed)];
        var _ := SetAnomalyStatusIfCurrent(n, a, Failed);
      }
    }

    /** One round of the watchdog's loop: a candidate read at the start is still stale. */
    method ReconcileNext(a: AttemptId, cutoff: int, ghost before: Db, ghost done: set<AttemptId>)
      requires IndexHolds(before) && Referential(before) && Stale(before, a, cutoff) && a !in done
      requires Value() == Swept(before, done)
      modifies this
      ensures Value() == Swept(before, done + {a})
    {
      SweptLeaves(before, done, a);
      SweptOneMore(before, done, a);
      SweptReferential(before, done);
      hide Swept, SweptAttempt, IndexHolds, Referential;
      var hit := ReconcileOne(a, cutoff);
    }

    /** SELECT of the stale attempts, each listed once, in some order. */
    method StaleAttempts(cutoff: int) returns (ids: seq<AttemptId>)
      ensures Distinct(ids) && Members(ids) == StaleSet(Value(), cutoff)
    {
      ids := [];
      var todo := attempts.Keys;
      while todo != {}
        invariant todo <= attempts.Keys && Distinct(ids)
        invariant forall a | a in ids :: a in attempts.Keys - todo && Stale(Value(), a, cutoff)
        invariant forall a | a in attempts.Keys - todo && Stale(Value(), a, cutoff) :: a in ids
        decreases |todo|
      {
        var a :| a in todo;
        if InProgress(attempts[a].status) && attempts[a].startedAt < cutoff {
          assert a !in ids && Stale(Value(), a, cutoff);
          ids := ids + [a];
        }
        todo := todo - {a};
      }
    }

    /** The first `i` candidates have been failed, and nothing else has changed. */
    ghost predicate SweptTo(before: Db, ids: seq<AttemptId>, i: nat)
      reads this
    {
      i <= |ids| && Value() == Swept(before, Members(ids[..i]))
    }

    /** The watchdog's loop over the candidates. */
    method SweepAll(ids: seq<AttemptId>, cutoff: int)
      requires Valid() && Distinct(ids) && forall i | 0 <= i < |ids| :: Stale(Value(), ids[i], cutoff)
      modifies this
      ensures Value() == Swept(old(Value()), Members(ids))
    {
      hide SweptTo, Swept, IndexHolds, Referential, Stale, Members, Distinct;
      ghost var before := Value();
      SweptToStart(ids);
      var i := 0;
      while i < |ids|
        invariant 0 <= i <= |ids| && SweptTo(before, ids, i)
      {
        SweepNext(ids, i, cutoff, before);
        i := i + 1;
      }
      SweptToEnd(before, ids);
    }

    lemma SweptToStart(ids: seq<AttemptId>)
      ensures SweptTo(Value(), ids, 0)
    {
      SweptNone(Value());
      assert Members(ids[..0]) == {};
    }

    lemma SweptToEnd(before: Db, ids: seq<AttemptId>)
      requires SweptTo(before, ids, |ids|)
      ensures Value() == Swept(before, Members(ids))
    {
      assert ids[..|ids|] == ids;
    }

    method SweepNext(ids: seq<AttemptId>, i: nat, cutoff: int, ghost before: Db)
      requires IndexHolds(before) && Referential(before) && Distinct(ids) && i < |ids| && Stale(before, ids[i], cutoff)
      requires SweptTo(before, ids, i)
      modifies this
      ensures SweptTo(before, ids, i + 1)
    {
      NextMember(ids, i);
      hide Swept, IndexHolds, Referential, Stale, Members, Distinct;
      ReconcileNext(ids[i], cutoff, before, Members(ids[..i]));
    }

    /** reconcile_stale_anomaly_jobs: reads the candidates once, then fails each one that is
        still in progress and stale, and its anomaly if that attempt still holds the token. */
    method ReconcileStaleAnomalyJobs(cutoff: int) returns (recovered: seq<AttemptId>)
      requires Valid()
      modifies this
      ensures Valid()
      ensures Distinct(recovered) && Members(recovered) == StaleSet(old(Value()), cutoff)
      ensures Value() == Swept(old(Value()), Members(recovered))
      ensures forall a :: a in recovered <==>
                a in old(attempts) && old(attempts)[a].startedAt < cutoff && old(attempts)[a].status in
                  {Queued, Planning, CollectingData, GeneratingAnalysis, Analyzing}
      ensures attempts.Keys == old(attempts).Keys && anomalies.Keys == old(anomalies).Keys
      ensures forall a | a in attempts ::
                attempts[a] == if a in recovered then old(attempts)[a].(status := Failed) else old(attempts)[a]
      ensures forall n | n in anomalies ::
                anomalies[n] == if HeldBy(old(Value()), n, recovered) then old(anomalies)[n].(status := Failed)
                                else old(anomalies)[n]
    {
      SweptMeans(Value(), cutoff);
      recovered := StaleAttempts(cutoff);
      forall i | 0 <= i < |recovered| ensures Stale(Value(), recovered[i], cutoff) {
        assert recovered[i] in Members(recovered);
        InStaleSet(Value(), cutoff, recovered[i]);
      }
      SweptReferential(Value(), Members(recovered));
      hide Swept, Stale, StaleSet, IndexHolds, Referential;
      SweepAll(recovered, cutoff);
    }
  }
}
