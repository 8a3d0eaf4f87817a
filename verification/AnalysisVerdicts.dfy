/** A worker and the watchdog on one attempt: when the watchdog's FAILED stands, and when the row
    and the anomaly agree for good. */
module AnalysisVerdicts {
  import opened AnalysisProtocol
  import opened AnalysisStore
  import opened Options

  /** The worker of `a` has nothing left to write but FAILED: it is gone, it has finished, or only
      the report of a FAILED of its own is pending. */
  predicate NothingElseToWrite(w: World, a: AttemptId) {
    a in w.workers && (w.workers[a].Over? || w.workers[a].Finished?
                       || (w.workers[a].Wrote? && w.workers[a].last == Failed))
  }

  /** After the events `a` still owns `n` and shows a status other than FAILED. */
  ghost predicate Replaces(w: World, n: AnomalyId, a: AttemptId, events: seq<Event>) {
    var w' := Run(w, events);
    Owns(w', a, n) && w'.db.anomalies[n].status != Failed
  }

  /** After the events the row of `a` holds a status other than FAILED. */
  ghost predicate ReplacesRow(w: World, a: AttemptId, events: seq<Event>) {
    var w' := Run(w, events);
    a in w'.db.attempts && w'.db.attempts[a].status != Failed
  }

  lemma {:induction false} ReachableKeepsInv(w: World)
    requires Reachable(w)
    ensures Inv(w)
  {
    var ns, events :| w == Run(Initial(ns), events);
    assert Inv(Initial(ns));
    RunKeepsInv(Initial(ns), events);
  }

  /** The owner of an anomaly is one of its attempts, and has a worker past its claim. */
  lemma {:induction false} OwnerIsAttempt(w: World, n: AnomalyId, a: AttemptId)
    requires Inv(w) && Owns(w, a, n)
    ensures a in w.db.attempts && w.db.attempts[a].anomaly == n && a in w.workers && !w.workers[a].Loaded?
    ensures w.workers[a].Ready? || w.workers[a].Wrote? || w.workers[a].Finished? ==> w.workers[a].anomaly == n
  {
    assert AnomalyOk(w, n);
    assert Last(w.log.claims[n]) in w.log.claims[n];
    assert AttemptOk(w, a) && WorkerOk(w, a);
  }

  // ---- The watchdog's FAILED on the anomaly ----

  lemma {:induction false} StandsForAStep(w: World, n: AnomalyId, a: AttemptId, e: Event)
    requires Inv(w) && n in w.db.anomalies && a in w.db.attempts
    requires Owns(w, a, n) ==> w.db.anomalies[n].status == Failed && NothingElseToWrite(w, a)
    ensures var w' := Step(w, e);
            && n in w'.db.anomalies && a in w'.db.attempts
            && (Owns(w', a, n) ==> w'.db.anomalies[n].status == Failed && NothingElseToWrite(w', a))
  {
    OnlyOwnerOrNewClaimChanges(w, e, n);
    assert AttemptOk(w, a) && WorkerOk(w, a);
    if Owns(w, a, n) { OwnerIsAttempt(w, n, a); }
    hide Inv, IndexHolds, AnomalyOk, SweeperOk;
  }

  lemma {:induction false} StandsForever(w: World, n: AnomalyId, a: AttemptId, events: seq<Event>)
    requires Inv(w) && n in w.db.anomalies && a in w.db.attempts
    requires Owns(w, a, n) ==> w.db.anomalies[n].status == Failed && NothingElseToWrite(w, a)
    ensures !Replaces(w, n, a, events)
    decreases |events|
  {
    if events != [] {
      StandsForAStep(w, n, a, events[0]);
      StepKeepsInv(w, events[0]);
      StandsForever(Step(w, events[0]), n, a, events[1..]);
    }
  }

  /** A status other than FAILED that the worker may commit next. */
  function Other(last: Status): Status {
    match last
    case Planning => CollectingData
    case CollectingData => GeneratingAnalysis
    case _ => Completed
  }

  /** A worker that is ready, with the index free, writes and reports another status. */
  lemma {:induction false} FreeWorkerReplaces(w: World, n: AnomalyId, a: AttemptId) returns (events: seq<Event>)
    requires Inv(w) && a in w.db.attempts && w.db.attempts[a].anomaly == n && a in w.workers && w.workers[a].Ready?
    requires !Blocked(w.db, n, a)
    ensures ReplacesRow(w, a, events) && (Owns(w, a, n) ==> Replaces(w, n, a, events))
  {
    assert WorkerOk(w, a) && AttemptOk(w, a);
    var e1, e2 := WriteRow(a, Other(w.workers[a].last)), Report(a);
    events := [e1, e2];
    var w1 := Step(w, e1);
    assert events[1..] == [e2] && Run(w1, [e2]) == Step(w1, e2);
  }

  lemma {:induction false} ReadyWorkerReplaces(w: World, n: AnomalyId, a: AttemptId) returns (events: seq<Event>)
    requires Inv(w) && a in w.db.attempts && w.db.attempts[a].anomaly == n && a in w.workers && w.workers[a].Ready?
    ensures ReplacesRow(w, a, events) && (Owns(w, a, n) ==> Replaces(w, n, a, events))
  {
    if Blocked(w.db, n, a) {
      var e := FreeIndex(w, n, a);
      StepKeepsInv(w, e);
      var rest := FreeWorkerReplaces(Step(w, e), n, a);
      events := [e] + rest;
      assert events[1..] == rest;
    } else {
      events := FreeWorkerReplaces(w, n, a);
    }
  }

  /** A shown FAILED stands, for as long as its owner is not succeeded by a newer claim, if and only
      if the owner's worker has nothing else to write.  Otherwise some continuation replaces it. */
  lemma {:induction false} ShownVerdictStandsExactlyWhen(w: World, n: AnomalyId, a: AttemptId)
    requires Reachable(w) && Owns(w, a, n) && w.db.anomalies[n].status == Failed
    ensures (forall events :: !Replaces(w, n, a, events)) <==> NothingElseToWrite(w, a)
  {
    ReachableKeepsInv(w);
    OwnerIsAttempt(w, n, a);
    if NothingElseToWrite(w, a) {
      forall events ensures !Replaces(w, n, a, events) { StandsForever(w, n, a, events); }
    } else if w.workers[a].Ready? {
      var events := ReadyWorkerReplaces(w, n, a);
      assert Replaces(w, n, a, events);
    } else {
      assert Run(w, [Report(a)]) == Step(w, Report(a));
      assert Replaces(w, n, a, [Report(a)]);
    }
  }

  // ---- The watchdog's FAILED on the row ----

  lemma {:induction false} RowStandsForever(w: World, a: AttemptId, events: seq<Event>)
    requires Inv(w) && a in w.db.attempts && w.db.attempts[a].status == Failed && NothingElseToWrite(w, a)
    ensures !ReplacesRow(w, a, events)
    decreases |events|
  {
    if events != [] {
      var e := events[0];
      assert AttemptOk(w, a) && WorkerOk(w, a);
      StepKeepsInv(w, e);
      assert a in Step(w, e).db.attempts && Step(w, e).db.attempts[a].status == Failed
             && NothingElseToWrite(Step(w, e), a);
      RowStandsForever(Step(w, e), a, events[1..]);
    }
  }

  /** The same condition decides whether a FAILED row stays FAILED, newer claims or not. */
  lemma {:induction false} RowVerdictStandsExactlyWhen(w: World, a: AttemptId)
    requires Reachable(w) && a in w.db.attempts && w.db.attempts[a].status == Failed
    ensures (forall events :: !ReplacesRow(w, a, events)) <==> NothingElseToWrite(w, a)
  {
    ReachableKeepsInv(w);
    assert AttemptOk(w, a) && WorkerOk(w, a);
    var n := w.db.attempts[a].anomaly;
    if NothingElseToWrite(w, a) {
      forall events ensures !ReplacesRow(w, a, events) { RowStandsForever(w, a, events); }
    } else if w.workers[a].Ready? {
      var events := ReadyWorkerReplaces(w, n, a);
      assert ReplacesRow(w, a, events);
    } else {
      var e := Report(a);
      StepKeepsInv(w, e);
      var rest := ReadyWorkerReplaces(Step(w, e), n, a);
      var events := [e] + rest;
      assert events[1..] == rest;
      assert ReplacesRow(w, a, events);
    }
  }

  // ---- Row and anomaly of a finished worker ----

  /** A worker that finished untouched by any watchdog and still owns the anomaly: the anomaly shows
      what the row holds, the worker's last status. */
  lemma {:induction false} UnsweptFinishAgrees(w: World, n: AnomalyId, a: AttemptId)
    requires Reachable(w) && Owns(w, a, n) && a in w.workers && w.workers[a].Finished?
    requires a in w.log.tracks && !w.log.tracks[a].swept
    ensures a in w.db.attempts && w.db.anomalies[n].status == w.db.attempts[a].status == w.workers[a].last
  {
    ReachableKeepsInv(w);
    OwnerIsAttempt(w, n, a);
    assert AttemptOk(w, a) && WorkerOk(w, a);
  }

  /** After the events `a` still owns `n`, which shows another status than the row of `a`. */
  ghost predicate Parts(w: World, n: AnomalyId, a: AttemptId, events: seq<Event>) {
    var w' := Run(w, events);
    Owns(w', a, n) && a in w'.db.attempts && w'.db.anomalies[n].status != w'.db.attempts[a].status
  }

  /** Nothing is left that could part the anomaly from the finished row: the row is FAILED, or the
      anomaly shows it and no watchdog still has to report on the attempt. */
  ghost predicate Concluded(w: World, n: AnomalyId, a: AttemptId)
    requires a in w.workers && w.workers[a].Finished? && n in w.db.anomalies
  {
    || w.workers[a].last == Failed
    || (w.db.anomalies[n].status == w.workers[a].last && forall p | p in w.sweepers :: w.sweepers[p] != a)
  }

  lemma {:induction false} ConcludedForAStep(w: World, n: AnomalyId, a: AttemptId, e: Event)
    requires Inv(w) && n in w.db.anomalies && a in w.db.attempts && a in w.workers && w.workers[a].Finished?
    requires Owns(w, a, n) ==> Concluded(w, n, a)
    ensures var w' := Step(w, e);
            && n in w'.db.anomalies && a in w'.db.attempts && a in w'.workers && w'.workers[a] == w.workers[a]
            && (Owns(w', a, n) ==> Owns(w, a, n) && Concluded(w', n, a))
  {
    OnlyOwnerOrNewClaimChanges(w, e, n);
    assert AttemptOk(w, a) && WorkerOk(w, a);
    if Owns(w, a, n) { OwnerIsAttempt(w, n, a); }
    hide Inv, IndexHolds, AnomalyOk, SweeperOk;
  }

  lemma {:induction false} ConcludedForever(w: World, n: AnomalyId, a: AttemptId, events: seq<Event>)
    requires Inv(w) && n in w.db.anomalies && a in w.db.attempts && a in w.workers && w.workers[a].Finished?
    requires Owns(w, a, n) ==> Concluded(w, n, a)
    ensures !Parts(w, n, a, events)
    decreases |events|
  {
    if events == [] {
      assert WorkerOk(w, a);
      if Owns(w, a, n) { OwnerIsAttempt(w, n, a); }
    } else {
      ConcludedForAStep(w, n, a, events[0]);
      StepKeepsInv(w, events[0]);
      ConcludedForever(Step(w, events[0]), n, a, events[1..]);
    }
  }

  /** Once the owner's worker has finished, row and anomaly agree for good, until a newer claim, if
      and only if the worker's last status is FAILED, or the anomaly shows it and no watchdog is
      between its two commits on the attempt. */
  lemma {:induction false} FinishedAgreesExactlyWhen(w: World, n: AnomalyId, a: AttemptId)
    requires Reachable(w) && Owns(w, a, n) && a in w.workers && w.workers[a].Finished?
    ensures (forall events :: !Parts(w, n, a, events)) <==> Concluded(w, n, a)
  {
    ReachableKeepsInv(w);
    OwnerIsAttempt(w, n, a);
    assert WorkerOk(w, a);
    if Concluded(w, n, a) {
      forall events ensures !Parts(w, n, a, events) { ConcludedForever(w, n, a, events); }
    } else if w.db.anomalies[n].status != w.workers[a].last {
      assert Parts(w, n, a, []);
    } else {
      var p :| p in w.sweepers && w.sweepers[p] == a;
      assert Run(w, [SweepReport(p)]) == Step(w, SweepReport(p));
      assert Parts(w, n, a, [SweepReport(p)]);
    }
  }

  lemma SweptBeforeItReports()
    ensures Step(JUST_CLAIMED, SweepRow(0, 0, 1))
            == Small(Queued, Failed, Ready(0, Queued), map[0 := 0], Track([Queued, Failed], [Queued], true))
  {
    var w := Step(JUST_CLAIMED, SweepRow(0, 0, 1));
    assert w.db.attempts == map[0 := Attempt(0, Failed, 0)];
    assert [Queued] + [Failed] == [Queued, Failed];
    assert w.log.tracks == map[0 := Track([Queued, Failed], [Queued], true)];
  }

  lemma WorkerWritesBetween(t: Track)
    ensures Step(Small(Queued, Failed, Ready(0, Queued), map[0 := 0], t), WriteRow(0, Completed))
            == Small(Queued, Completed, Wrote(0, Completed), map[0 := 0],
                     Track(t.history + [Completed], t.reported, t.swept))
  {
    assert map[0 := Attempt(0, Failed, 0)][0 := Attempt(0, Completed, 0)] == map[0 := Attempt(0, Completed, 0)];
  }

  lemma WorkerReportsBetween(t: Track)
    ensures Step(Small(Queued, Completed, Wrote(0, Completed), map[0 := 0], t), Report(0))
            == Small(Completed, Completed, Finished(0, Completed), map[0 := 0],
                     t.(reported := t.reported + [Completed]))
  {
    assert map[0 := Anomaly(Queued, Some(0))][0 := Anomaly(Completed, Some(0))]
           == map[0 := Anomaly(Completed, Some(0))];
  }

  lemma WatchdogReportsLast(t: Track)
    ensures Step(Small(Completed, Completed, Finished(0, Completed), map[0 := 0], t), SweepReport(0))
            == Small(Failed, Completed, Finished(0, Completed), map[], Track(t.history, t.reported + [Failed], t.swept))
  {
    assert map[0 := 0] - {0} == map[];
  }

  /** Between the watchdog's two commits the worker completes on both tables; the watchdog's second
      commit then shows FAILED over a COMPLETED row, with nobody left to repair it: the earlier
      committer has won on neither table. */
  lemma {:induction false} WatchdogHidesLateResult() returns (w: World)
    ensures w == Run(JUST_CLAIMED, [SweepRow(0, 0, 1), WriteRow(0, Completed), Report(0), SweepReport(0)])
    ensures Reachable(w) && w.workers == map[0 := Finished(0, Completed)] && w.sweepers == map[]
    ensures w.db == Db(map[0 := Anomaly(Failed, Some(0))], map[0 := Attempt(0, Completed, 0)])
    ensures forall events :: !Replaces(w, 0, 0, events)
  {
    JustClaimedIsReachable();
    var w1 := Step(JUST_CLAIMED, SweepRow(0, 0, 1));
    StepIsReachable(JUST_CLAIMED, SweepRow(0, 0, 1));
    SweptBeforeItReports();
    var w2 := Step(w1, WriteRow(0, Completed));
    StepIsReachable(w1, WriteRow(0, Completed));
    var w3 := Step(w2, Report(0));
    StepIsReachable(w2, Report(0));
    var t := Track([Queued, Failed], [Queued], true);
    WorkerWritesBetween(t);
    WorkerReportsBetween(Track(t.history + [Completed], t.reported, true));
    w := Step(w3, SweepReport(0));
    StepIsReachable(w3, SweepReport(0));
    WatchdogReportsLast(Track(t.history + [Completed], t.reported + [Completed], true));
    hide Reachable, Step;
    FourSteps(JUST_CLAIMED, SweepRow(0, 0, 1), WriteRow(0, Completed), Report(0), SweepReport(0));
    ShownVerdictStandsExactlyWhen(w, 0, 0);
  }

  lemma FourSteps(w: World, a: Event, b: Event, c: Event, d: Event)
    ensures Run(w, [a, b, c, d]) == Step(Step(Step(Step(w, a), b), c), d)
  {
    hide Step;
    assert [a, b, c, d][1..] == [b, c, d] && [b, c, d][1..] == [c, d] && [c, d][1..] == [d];
    var w3 := Step(Step(Step(w, a), b), c);
    assert Run(w3, [d]) == Run(Step(w3, d), []);
    assert Run(Step(Step(w, a), b), [c, d]) == Run(w3, [d]);
    assert Run(Step(w, a), [b, c, d]) == Run(Step(Step(w, a), b), [c, d]);
  }
}
