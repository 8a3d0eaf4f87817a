/** Any number of workers and watchdogs over the tables of `AnalysisStore`, interleaved
    commit by commit, with crashes anywhere.  A state is what is committed plus where each
    process stands; `log` records what was committed and is read by no step. */
module AnalysisProtocol {
  import opened AnalysisStore
  import opened Options

  /** Where a worker stands between two of its commits. */
  datatype Worker =
    | Loaded(anomaly: AnomalyId)               // passed the fast check, has not claimed
    | Ready(anomaly: AnomalyId, last: Status)  // about to commit its next own status
    | Wrote(anomaly: AnomalyId, last: Status)  // own row committed, compare-and-set pending
    | Finished(anomaly: AnomalyId, last: Status)  // final status committed and compare-and-set done
    | Over                                     // rejected, aborted or crashed

  /** What one attempt has committed: every status its row held, every status shown on its
      anomaly on its behalf, and whether a watchdog ever failed it. */
  datatype Track = Track(history: seq<Status>, reported: seq<Status>, swept: bool)

  /** `claims` lists the claims of each anomaly in commit order. */
  datatype Log = Log(claims: map<AnomalyId, seq<AttemptId>>, tracks: map<AttemptId, Track>)

  datatype World = World(db: Db, workers: map<AttemptId, Worker>, sweepers: map<nat, AttemptId>, log: Log)

  datatype Event =
    | Request(a: AttemptId, n: AnomalyId)
    | Claim(a: AttemptId, startedAt: int)
    | WriteRow(a: AttemptId, s: Status)
    | Report(a: AttemptId)
    | Crash(a: AttemptId)
    | SweepRow(p: nat, a: AttemptId, cutoff: int)
    | SweepReport(p: nat)
    | SweepCrash(p: nat)

  /** The statuses a worker may commit after `last`: run_analysis in its three modes, with the
      fallback to single context when the model turns out not to support tools. */
  predicate Follows(last: Status, s: Status) {
    match last
    case Queued => s == Analyzing || s == Planning || s == Completed || s == Failed
    case Planning => s == CollectingData
    case CollectingData => s == GeneratingAnalysis || s == Analyzing
    case GeneratingAnalysis => s == Analyzing || Final(s)
    case Analyzing => Final(s)
    case _ => false
  }

  predicate Enabled(w: World, e: Event) {
    match e
    case Request(a, n) => a !in w.workers && n in w.db.anomalies
    case Claim(a, _) => a in w.workers && w.workers[a].Loaded?
    case WriteRow(a, s) => a in w.workers && a in w.db.attempts && w.workers[a].Ready? && Follows(w.workers[a].last, s)
    case Report(a) => a in w.workers && w.workers[a].Wrote?
    case Crash(a) => a in w.workers && !w.workers[a].Finished?
    case SweepRow(p, a, cutoff) => p !in w.sweepers && Stale(w.db, a, cutoff)
    case SweepReport(p) => p in w.sweepers && w.sweepers[p] in w.db.attempts
    case SweepCrash(p) => p in w.sweepers
  }

  predicate Owns(w: World, a: AttemptId, n: AnomalyId) {
    n in w.db.anomalies && w.db.anomalies[n].current == Some(a)
  }

  function NoteClaim(log: Log, n: AnomalyId, a: AttemptId): Log {
    Log(log.claims[n := (if n in log.claims then log.claims[n] else []) + [a]],
        log.tracks[a := Track([Queued], [Queued], false)])
  }

  function NoteRow(log: Log, a: AttemptId, s: Status, bySweep: bool): Log {
    if a in log.tracks
    then var t := log.tracks[a];
         log.(tracks := log.tracks[a := Track(t.history + [s], t.reported, t.swept || bySweep)])
    else log
  }

  function NoteReport(log: Log, a: AttemptId, s: Status): Log {
    if a in log.tracks
    then var t := log.tracks[a]; log.(tracks := log.tracks[a := t.(reported := t.reported + [s])])
    else log
  }

  /** One commit, or one refusal, or one crash. An event that is not enabled changes nothing. */
  function Step(w: World, e: Event): World {
    if !Enabled(w, e) then w else
    match e
    case Request(a, n) =>
      w.(workers := w.workers[a := if InProgress(w.db.anomalies[n].status) then Over else Loaded(n)])
    case Claim(a, startedAt) =>
      var n := w.workers[a].anomaly;
      if Blocked(w.db, n, a) then w.(workers := w.workers[a := Over])
      else World(Claimed(w.db, n, a, startedAt), w.workers[a := Ready(n, Queued)], w.sweepers, NoteClaim(w.log, n, a))
    case WriteRow(a, s) =>
      var n := w.workers[a].anomaly;
      if InProgress(s) && Blocked(w.db, n, a) then w.(workers := w.workers[a := Over])
      else World(WithAttemptStatus(w.db, a, s), w.workers[a := Wrote(n, s)], w.sweepers, NoteRow(w.log, a, s, false))
    case Report(a) =>
      var n, s := w.workers[a].anomaly, w.workers[a].last;
      World(ReportedIfCurrent(w.db, n, a, s), w.workers[a := if Final(s) then Finished(n, s) else Ready(n, s)],
            w.sweepers, if Owns(w, a, n) then NoteReport(w.log, a, s) else w.log)
    case Crash(a) => w.(workers := w.workers[a := Over])
    case SweepRow(p, a, _) =>
      World(WithAttemptStatus(w.db, a, Failed), w.workers, w.sweepers[p := a], NoteRow(w.log, a, Failed, true))
    case SweepReport(p) =>
      var a := w.sweepers[p];
      var n := w.db.attempts[a].anomaly;
      World(ReportedIfCurrent(w.db, n, a, Failed), w.workers, w.sweepers - {p},
            if Owns(w, a, n) then NoteReport(w.log, a, Failed) else w.log)
    case SweepCrash(p) => w.(sweepers := w.sweepers - {p})
  }

  function Run(w: World, events: seq<Event>): World
    decreases |events|
  {
    if events == [] then w else Run(Step(w, events[0]), events[1..])
  }

  function Initial(ns: set<AnomalyId>): World {
    World(Db(map n | n in ns :: Anomaly(NotAnalyzed, None), map[]), map[], map[], Log(map n | n in ns :: [], map[]))
  }

  ghost predicate Reachable(w: World) {
    exists ns, events :: w == Run(Initial(ns), events)
  }

  // ---- What every step keeps ----

  function Last<T>(s: seq<T>): T
    requires s != []
  {
    s[|s| - 1]
  }

  /** The row holds the last status of its history, and the owned anomaly shows the last status
      reported.  For an attempt no watchdog touched, what was
      shown is a prefix of what the row held, and while it owns the anomaly only the status it is
      about to report can be missing. */
  ghost predicate AttemptOk(w: World, a: AttemptId) {
    a in w.db.attempts ==>
      && a in w.workers && !w.workers[a].Loaded?
      && w.db.attempts[a].anomaly in w.db.anomalies
      && a in w.log.tracks
      && var t, n := w.log.tracks[a], w.db.attempts[a].anomaly;
      && t.history != [] && Last(t.history) == w.db.attempts[a].status
      && (Owns(w, a, n) ==> t.reported != [] && Last(t.reported) == w.db.anomalies[n].status)
      && (!t.swept ==>
            && t.reported <= t.history
            && (Owns(w, a, n) && (w.workers[a].Ready? || w.workers[a].Finished?) ==> t.reported == t.history)
            && (Owns(w, a, n) && w.workers[a].Wrote? ==> t.reported + [w.workers[a].last] == t.history))
  }

  /** The token names the last claim, no attempt claims twice, and what an anomaly shows is a
      status that the row of its owner has held. */
  ghost predicate AnomalyOk(w: World, n: AnomalyId) {
    n in w.db.anomalies ==>
      && n in w.log.claims
      && var cs := w.log.claims[n];
      && (forall i, j | 0 <= i < j < |cs| :: cs[i] != cs[j])
      && (forall c | c in cs :: c in w.db.attempts && w.db.attempts[c].anomaly == n)
      && match w.db.anomalies[n].current
         case None => cs == [] && w.db.anomalies[n].status == NotAnalyzed
         case Some(a) =>
           && cs != [] && Last(cs) == a && a in w.log.tracks
           && w.db.anomalies[n].status in w.log.tracks[a].history
  }

  ghost predicate WorkerOk(w: World, a: AttemptId) {
    a in w.workers ==>
      match w.workers[a]
      case Loaded(n) => n in w.db.anomalies
      case Ready(n, s) => a in w.db.attempts && w.db.attempts[a].anomaly == n && InProgress(s)
      case Wrote(n, s) =>
        && a in w.db.attempts && w.db.attempts[a].anomaly == n && (InProgress(s) || Final(s))
        && a in w.log.tracks && s in w.log.tracks[a].history
        && (Final(s) ==> w.db.attempts[a].status == s)
      case Finished(n, s) =>
        && a in w.db.attempts && w.db.attempts[a].anomaly == n && Final(s) && w.db.attempts[a].status == s
        && (Owns(w, a, n) ==> w.db.anomalies[n].status == s || w.db.anomalies[n].status == Failed)
      case Over => true
  }

  ghost predicate SweeperOk(w: World, p: nat) {
    p in w.sweepers ==>
      var a := w.sweepers[p];
      a in w.db.attempts && a in w.log.tracks && w.log.tracks[a].swept && Failed in w.log.tracks[a].history
  }

  ghost predicate Inv(w: World) {
    && IndexHolds(w.db)
    && (forall a :: AttemptOk(w, a))
    && (forall n :: AnomalyOk(w, n))
    && (forall a :: WorkerOk(w, a))
    && (forall p :: SweeperOk(w, p))
  }

  /** The attempt an event acts for. */
  function Actor(w: World, e: Event): AttemptId {
    match e
    case Request(a, _) => a
    case Claim(a, _) => a
    case WriteRow(a, _) => a
    case Report(a) => a
    case Crash(a) => a
    case SweepRow(_, a, _) => a
    case SweepReport(p) => if p in w.sweepers then w.sweepers[p] else 0
    case SweepCrash(p) => if p in w.sweepers then w.sweepers[p] else 0
  }

  lemma KeepsIndex(w: World, e: Event)
    requires Inv(w)
    ensures IndexHolds(Step(w, e).db)
  {
    if Enabled(w, e) {
      match e {
        case Claim(a, _) =>
          var n := w.workers[a].anomaly;
          if !Blocked(w.db, n, a) {
            assert forall b | b in w.db.attempts && b != a :: !Active(w.db, b, n);
          }
        case WriteRow(a, s) =>
          var n := w.workers[a].anomaly;
          assert WorkerOk(w, a);
          if !(InProgress(s) && Blocked(w.db, n, a)) {
            assert InProgress(s) ==> forall b | b in w.db.attempts && b != a :: !Active(w.db, b, n);
          }
        case _ =>
      }
    }
  }

  predicate Sweeps(e: Event) { e.SweepRow? || e.SweepReport? || e.SweepCrash? }

  lemma {:induction false} SweepKeepsAttempt(w: World, e: Event, a: AttemptId)
    requires Inv(w) && Sweeps(e)
    ensures AttemptOk(Step(w, e), a)
  {
    assert AttemptOk(w, a) && WorkerOk(w, a);
    if e.SweepReport? && e.p in w.sweepers { assert SweeperOk(w, e.p); }
    hide Inv, IndexHolds, AnomalyOk, WorkerOk;
  }

  lemma {:induction false} ClaimKeepsAttempt(w: World, e: Event, a: AttemptId)
    requires Inv(w) && e.Claim?
    ensures AttemptOk(Step(w, e), a)
  {
    assert AttemptOk(w, a) && WorkerOk(w, a) && WorkerOk(w, e.a);
    hide Inv, IndexHolds, AnomalyOk, SweeperOk, Blocked;
  }

  lemma {:induction false} ReportKeepsAttempt(w: World, e: Event, a: AttemptId)
    requires Inv(w) && e.Report?
    ensures AttemptOk(Step(w, e), a)
  {
    assert AttemptOk(w, a) && WorkerOk(w, a);
    hide Inv, IndexHolds, AnomalyOk, SweeperOk, Blocked;
  }

  lemma {:induction false} KeepsAttempt(w: World, e: Event, a: AttemptId)
    requires Inv(w)
    ensures AttemptOk(Step(w, e), a)
  {
    if Sweeps(e) {
      SweepKeepsAttempt(w, e, a);
      return;
    }
    if e.Claim? {
      ClaimKeepsAttempt(w, e, a);
      return;
    }
    if e.Report? {
      ReportKeepsAttempt(w, e, a);
      return;
    }
    assert AttemptOk(w, a) && WorkerOk(w, a);
    hide Inv, IndexHolds, AnomalyOk, SweeperOk;
  }

  lemma {:induction false} ClaimKeepsAnomaly(w: World, e: Event, n: AnomalyId)
    requires Inv(w) && e.Claim?
    ensures AnomalyOk(Step(w, e), n)
  {
    assert AnomalyOk(w, n) && AttemptOk(w, e.a) && WorkerOk(w, e.a);
    hide Inv, IndexHolds, SweeperOk;
  }

  lemma {:induction false} SweepKeepsAnomaly(w: World, e: Event, n: AnomalyId)
    requires Inv(w) && Sweeps(e)
    ensures AnomalyOk(Step(w, e), n)
  {
    assert AnomalyOk(w, n) && AttemptOk(w, Actor(w, e));
    if e.SweepReport? { assert SweeperOk(w, e.p); }
    hide Inv, IndexHolds, WorkerOk;
  }

  lemma {:induction false} WriteKeepsAnomaly(w: World, e: Event, n: AnomalyId)
    requires Inv(w) && e.WriteRow?
    ensures AnomalyOk(Step(w, e), n)
  {
    assert AnomalyOk(w, n) && AttemptOk(w, e.a) && WorkerOk(w, e.a);
    hide Inv, IndexHolds, SweeperOk, Blocked;
  }

  lemma {:induction false} KeepsAnomaly(w: World, e: Event, n: AnomalyId)
    requires Inv(w)
    ensures AnomalyOk(Step(w, e), n)
  {
    if e.Claim? {
      ClaimKeepsAnomaly(w, e, n);
    } else if Sweeps(e) {
      SweepKeepsAnomaly(w, e, n);
    } else if e.WriteRow? {
      WriteKeepsAnomaly(w, e, n);
    } else {
      assert AnomalyOk(w, n) && AttemptOk(w, e.a) && WorkerOk(w, e.a);
      hide Inv, IndexHolds, SweeperOk;
    }
  }

  lemma {:induction false} SweepKeepsWorker(w: World, e: Event, a: AttemptId)
    requires Inv(w) && Sweeps(e)
    ensures WorkerOk(Step(w, e), a)
  {
    assert WorkerOk(w, a) && AttemptOk(w, a);
    hide Inv, IndexHolds, AnomalyOk, SweeperOk;
  }

  lemma {:induction false} ReportKeepsWorker(w: World, e: Event, a: AttemptId)
    requires Inv(w) && e.Report?
    ensures WorkerOk(Step(w, e), a)
  {
    assert WorkerOk(w, a) && AttemptOk(w, a) && WorkerOk(w, e.a);
    hide Inv, IndexHolds, AnomalyOk, AttemptOk, SweeperOk;
  }

  lemma {:induction false} KeepsWorker(w: World, e: Event, a: AttemptId)
    requires Inv(w)
    ensures WorkerOk(Step(w, e), a)
  {
    if Sweeps(e) {
      SweepKeepsWorker(w, e, a);
    } else if e.Report? {
      ReportKeepsWorker(w, e, a);
    } else {
      assert WorkerOk(w, a) && AttemptOk(w, a);
      hide Inv, IndexHolds, AnomalyOk, SweeperOk;
    }
  }

  lemma KeepsSweeper(w: World, e: Event, p: nat)
    requires Inv(w)
    ensures SweeperOk(Step(w, e), p)
  {
    var a := Actor(w, e);
    assert SweeperOk(w, p) && AttemptOk(w, a) && WorkerOk(w, a);
  }

  lemma StepKeepsInv(w: World, e: Event)
    requires Inv(w)
    ensures Inv(Step(w, e))
  {
    KeepsIndex(w, e);
    forall a ensures AttemptOk(Step(w, e), a) { KeepsAttempt(w, e, a); }
    forall n ensures AnomalyOk(Step(w, e), n) { KeepsAnomaly(w, e, n); }
    forall a ensures WorkerOk(Step(w, e), a) { KeepsWorker(w, e, a); }
    forall p ensures SweeperOk(Step(w, e), p) { KeepsSweeper(w, e, p); }
  }

  lemma RunKeepsInv(w: World, events: seq<Event>)
    requires Inv(w)
    ensures Inv(Run(w, events))
    decreases |events|
  {
    if events != [] {
      StepKeepsInv(w, events[0]);
      RunKeepsInv(Step(w, events[0]), events[1..]);
    }
  }

  // ---- What a request, a claim and a worker's write come to ----

  /** The anomaly shows no unfinished status, and no attempt of it has one. */
  ghost predicate Free(db: Db, n: AnomalyId)
    requires n in db.anomalies
  {
    && db.anomalies[n].status in {NotAnalyzed, Completed, CompletedWithWarnings, Failed}
    && forall b | b in db.attempts && db.attempts[b].anomaly == n ::
         db.attempts[b].status !in {Queued, Planning, CollectingData, GeneratingAnalysis, Analyzing}
  }

  lemma {:induction false} ClaimDecides(w: World, a: AttemptId, n: AnomalyId, t: int)
    requires Inv(w) && a in w.workers && w.workers[a] == Loaded(n)
    ensures n in w.db.anomalies && a !in w.db.attempts
    ensures var w' := Step(w, Claim(a, t));
            if exists b | b in w.db.attempts && w.db.attempts[b].anomaly == n ::
                 w.db.attempts[b].status in {Queued, Planning, CollectingData, GeneratingAnalysis, Analyzing}
            then w' == w.(workers := w.workers[a := Over])
            else && w'.db.anomalies == w.db.anomalies[n := Anomaly(Queued, Some(a))]
                 && w'.db.attempts == w.db.attempts[a := Attempt(n, Queued, t)]
                 && w'.workers == w.workers[a := Ready(n, Queued)]
  {
    assert WorkerOk(w, a) && AttemptOk(w, a);
    hide Inv, IndexHolds;
    if b :| b in w.db.attempts && w.db.attempts[b].anomaly == n
            && w.db.attempts[b].status in {Queued, Planning, CollectingData, GeneratingAnalysis, Analyzing} {
      assert b != a && Active(w.db, b, n);
    }
  }

  /** A new request that is followed by its claim takes the anomaly if and only if nothing of it is
      in progress, whether it was analysed before or not; otherwise the tables stay as they are. */
  lemma {:induction false} RequestIsAdmittedExactlyWhen(w: World, a: AttemptId, n: AnomalyId, t: int)
    requires Inv(w) && n in w.db.anomalies && a !in w.workers
    ensures var w' := Run(w, [Request(a, n), Claim(a, t)]);
            && (Owns(w', a, n) <==> Free(w.db, n))
            && w'.db == if Free(w.db, n)
                        then Db(w.db.anomalies[n := Anomaly(Queued, Some(a))],
                                w.db.attempts[a := Attempt(n, Queued, t)])
                        else w.db
  {
    var w1 := Step(w, Request(a, n));
    var w2 := Step(w1, Claim(a, t));
    RunTwo(w, Request(a, n), Claim(a, t));
    StepKeepsInv(w, Request(a, n));
    assert !Owns(w, a, n) by { assert AnomalyOk(w, n) && AttemptOk(w, a); }
    hide Inv;
    if !InProgress(w.db.anomalies[n].status) { ClaimDecides(w1, a, n, t); }
  }

  lemma RunTwo(w: World, e1: Event, e2: Event)
    ensures Run(w, [e1, e2]) == Step(Step(w, e1), e2)
  {
    assert [e1, e2][1..] == [e2] && [e2][1..] == [];
    hide Step;
    assert Run(Step(Step(w, e1), e2), []) == Step(Step(w, e1), e2);
  }

  /** A worker between two commits commits a next status unless that status is unfinished and another
      attempt of the anomaly is; it then goes on to report it.  A final status is never refused. */
  lemma {:induction false} WriteCommitsExactlyWhen(w: World, a: AttemptId, s: Status)
    requires Inv(w) && a in w.workers && w.workers[a].Ready? && Follows(w.workers[a].last, s)
    ensures a in w.db.attempts
    ensures var n, w' := w.workers[a].anomaly, Step(w, WriteRow(a, s));
            if InProgress(s) && exists b | b in w.db.attempts && b != a ::
                 w.db.attempts[b].anomaly == n && InProgress(w.db.attempts[b].status)
            then w' == w.(workers := w.workers[a := Over])
            else && w'.db == w.db.(attempts := w.db.attempts[a := w.db.attempts[a].(status := s)])
                 && w'.workers == w.workers[a := Wrote(n, s)]
  {
    assert WorkerOk(w, a);
    hide Inv, IndexHolds;
    var n := w.workers[a].anomaly;
    if b :| b in w.db.attempts && b != a && w.db.attempts[b].anomaly == n && InProgress(w.db.attempts[b].status) {
      assert Active(w.db, b, n);
    }
  }

  /** Reporting writes the anomaly exactly when the attempt still holds the token; the worker goes on
      after an unfinished status and is done after a final one. */
  lemma {:induction false} ReportDecides(w: World, a: AttemptId)
    requires Inv(w) && a in w.workers && w.workers[a].Wrote?
    ensures var n, s, w' := w.workers[a].anomaly, w.workers[a].last, Step(w, Report(a));
            && n in w.db.anomalies && w'.db.attempts == w.db.attempts
            && w'.db.anomalies == (if w.db.anomalies[n].current == Some(a)
                                   then w.db.anomalies[n := Anomaly(s, Some(a))] else w.db.anomalies)
            && w'.workers == w.workers[a := if s in {Completed, CompletedWithWarnings, Failed}
                                            then Finished(n, s) else Ready(n, s)]
  {
    assert WorkerOk(w, a) && AttemptOk(w, a);
    hide Inv, IndexHolds;
  }

  /** A watchdog commits FAILED on exactly the unfinished rows that started before its cutoff. */
  lemma {:induction false} SweepDecides(w: World, p: nat, a: AttemptId, cutoff: int)
    requires p !in w.sweepers
    ensures var w' := Step(w, SweepRow(p, a, cutoff));
            if a in w.db.attempts && w.db.attempts[a].startedAt < cutoff && w.db.attempts[a].status in
                 {Queued, Planning, CollectingData, GeneratingAnalysis, Analyzing}
            then && w'.db == w.db.(attempts := w.db.attempts[a := w.db.attempts[a].(status := Failed)])
                 && w'.sweepers == w.sweepers[p := a] && w'.workers == w.workers
            else w' == w
  {}

  /** A watchdog's second commit shows FAILED exactly where its attempt still holds the token, once; a
      crash of either process takes it away and leaves the tables. */
  lemma {:induction false} SweepReportDecides(w: World, p: nat)
    requires Inv(w) && p in w.sweepers
    ensures var a, w', gone := w.sweepers[p], Step(w, SweepReport(p)), Step(w, SweepCrash(p));
            && a in w.db.attempts && w.db.attempts[a].anomaly in w.db.anomalies
            && var n := w.db.attempts[a].anomaly;
            && w'.db.attempts == w.db.attempts && w'.workers == w.workers && w'.sweepers == w.sweepers - {p}
            && w'.db.anomalies == (if w.db.anomalies[n].current == Some(a)
                                   then w.db.anomalies[n := Anomaly(Failed, Some(a))] else w.db.anomalies)
            && gone.db == w.db && gone.workers == w.workers && gone.sweepers == w.sweepers - {p}
  {
    assert SweeperOk(w, p) && AttemptOk(w, w.sweepers[p]);
    hide Inv, IndexHolds;
  }

  lemma {:induction false} CrashDecides(w: World, a: AttemptId)
    requires a in w.workers
    ensures Step(w, Crash(a)) == if w.workers[a].Finished? then w else w.(workers := w.workers[a := Over])
  {}

  // ---- Safety of every run ----

  /** In every interleaving of workers, crashes and watchdogs: one attempt of an anomaly at most
      is in progress; the token names the last committed claim; the anomaly shows a status its
      owner's row has held; and an attempt no watchdog touched is reported in order, without a
      status its row did not hold at that place. */
  lemma EveryReachableStateIsSafe(w: World)
    requires Reachable(w)
    ensures forall a, b, n :: Active(w.db, a, n) && Active(w.db, b, n) ==> a == b
    ensures forall n | n in w.db.anomalies ::
              n in w.log.claims &&
              w.db.anomalies[n].current == if w.log.claims[n] == [] then None else Some(Last(w.log.claims[n]))
    ensures forall n, a | n in w.db.anomalies && w.db.anomalies[n].current == Some(a) ::
              a in w.log.tracks && w.db.anomalies[n].status in w.log.tracks[a].history
    ensures forall a | a in w.db.attempts ::
              a in w.log.tracks && (w.log.tracks[a].swept || w.log.tracks[a].reported <= w.log.tracks[a].history)
  {
    var ns, events :| w == Run(Initial(ns), events);
    assert Inv(Initial(ns));
    RunKeepsInv(Initial(ns), events);
    forall n | n in w.db.anomalies
      ensures n in w.log.claims
      ensures w.db.anomalies[n].current == if w.log.claims[n] == [] then None else Some(Last(w.log.claims[n]))
      ensures w.db.anomalies[n].current.Some? ==>
                var a := w.db.anomalies[n].current.value;
                a in w.log.tracks && w.db.anomalies[n].status in w.log.tracks[a].history
    {
      assert AnomalyOk(w, n);
    }
    forall a | a in w.db.attempts
      ensures a in w.log.tracks && (w.log.tracks[a].swept || w.log.tracks[a].reported <= w.log.tracks[a].history)
    {
      assert AttemptOk(w, a);
    }
  }

  /** An anomaly row changes only when its owner acts (or a watchdog on the owner's behalf), or
      when a new attempt claims it. */
  lemma OnlyOwnerOrNewClaimChanges(w: World, e: Event, n: AnomalyId)
    requires Inv(w) && n in w.db.anomalies
    ensures n in Step(w, e).db.anomalies
    ensures Step(w, e).db.anomalies[n] == w.db.anomalies[n]
            || Owns(w, Actor(w, e), n)
            || (e.Claim? && Enabled(w, e) && w.workers[e.a] == Loaded(n) && Owns(Step(w, e), e.a, n))
  {
    var a := Actor(w, e);
    assert AttemptOk(w, a) && WorkerOk(w, a);
    if e.SweepReport? { assert SweeperOk(w, e.p); }
  }

  /** Once `b` has claimed the anomaly, no step of any attempt that had claimed before, in any
      continuation, changes what the anomaly shows: however late it runs, its report is lost. */
  lemma {:induction false} EarlierAttemptsStaySilent(
    w: World, n: AnomalyId, b: AttemptId, a: AttemptId, events: seq<Event>, e: Event)
    requires Inv(w) && Owns(w, b, n) && a in w.db.attempts && a != b
    requires Actor(Run(w, events), e) == a
    ensures n in Run(w, events).db.anomalies && !Owns(Run(w, events), a, n)
    ensures n in Step(Run(w, events), e).db.anomalies
    ensures Step(Run(w, events), e).db.anomalies[n] == Run(w, events).db.anomalies[n]
    decreases |events|
  {
    DisownedStaysDisowned(w, n, a, events);
    var w' := Run(w, events);
    RunKeepsInv(w, events);
    assert AttemptOk(w', a);
    OnlyOwnerOrNewClaimChanges(w', e, n);
  }

  lemma {:induction false} DisownedStaysDisowned(w: World, n: AnomalyId, a: AttemptId, events: seq<Event>)
    requires Inv(w) && n in w.db.anomalies && !Owns(w, a, n) && a in w.db.attempts
    ensures n in Run(w, events).db.anomalies && !Owns(Run(w, events), a, n) && a in Run(w, events).db.attempts
    decreases |events|
  {
    if events != [] {
      var e := events[0];
      OnlyOwnerOrNewClaimChanges(w, e, n);
      assert AttemptOk(w, a);
      StepKeepsInv(w, e);
      DisownedStaysDisowned(Step(w, e), n, a, events[1..]);
    }
  }

  // ---- Which anomalies can still leave the in-progress states ----

  /** The owner's row is finished, its worker and every watchdog on it are gone, and nobody who
      passed the fast check earlier is left: the anomaly shows an unfinished status for good. */
  ghost predicate Stranded(w: World, n: AnomalyId) {
    && n in w.db.anomalies && InProgress(w.db.anomalies[n].status) && w.db.anomalies[n].current.Some?
    && var a := w.db.anomalies[n].current.value;
    && a in w.db.attempts && !InProgress(w.db.attempts[a].status)
    && a in w.workers && w.workers[a].Over?
    && (forall p | p in w.sweepers :: w.sweepers[p] != a)
    && (forall b | b in w.workers :: w.workers[b] != Loaded(n))
  }

  lemma StrandedStep(w: World, n: AnomalyId, e: Event)
    requires Inv(w) && Stranded(w, n)
    ensures Stranded(Step(w, e), n) && Step(w, e).db.anomalies[n] == w.db.anomalies[n]
  {
    OnlyOwnerOrNewClaimChanges(w, e, n);
    var a := Actor(w, e);
    assert AttemptOk(w, a) && WorkerOk(w, a);
    if e.SweepReport? { assert SweeperOk(w, e.p); }
  }

  lemma {:induction false} StrandedForever(w: World, n: AnomalyId, events: seq<Event>)
    requires Inv(w) && Stranded(w, n)
    ensures Stranded(Run(w, events), n) && Run(w, events).db.anomalies[n] == w.db.anomalies[n]
    decreases |events|
  {
    if events != [] {
      StrandedStep(w, n, events[0]);
      StepKeepsInv(w, events[0]);
      StrandedForever(Step(w, events[0]), n, events[1..]);
    }
  }

  ghost predicate Settles(w: World, n: AnomalyId, events: seq<Event>) {
    var w' := Run(w, events);
    n in w'.db.anomalies && !InProgress(w'.db.anomalies[n].status)
  }

  lemma Then(w: World, n: AnomalyId, e: Event, rest: seq<Event>)
    requires Settles(Step(w, e), n, rest)
    ensures Settles(w, n, [e] + rest)
  {
    assert ([e] + rest)[1..] == rest;
  }

  lemma FreshKey(keys: set<nat>) returns (p: nat)
    ensures p !in keys
    ensures forall k | k in keys :: k < p
  {
    if keys == {} { return 0; }
    var k :| k in keys;
    var q := FreshKey(keys - {k});
    p := if k < q then q else k + 1;
    assert keys == keys - {k} + {k};
  }

  lemma SweepOwner(w: World, n: AnomalyId, a: AttemptId) returns (events: seq<Event>)
    requires Inv(w) && Owns(w, a, n) && Active(w.db, a, n)
    ensures Settles(w, n, events)
  {
    var p := FreshKey(w.sweepers.Keys);
    var e := SweepRow(p, a, w.db.attempts[a].startedAt + 1);
    var w1 := Step(w, e);
    assert Run(w1, [SweepReport(p)]) == Step(w1, SweepReport(p));
    Then(w, n, e, [SweepReport(p)]);
    events := [e, SweepReport(p)];
    assert events == [e] + [SweepReport(p)];
  }

  /** A watchdog can always free the index for `a`. */
  lemma FreeIndex(w: World, n: AnomalyId, a: AttemptId) returns (e: Event)
    requires Inv(w) && Blocked(w.db, n, a)
    ensures !Blocked(Step(w, e).db, n, a)
    ensures Step(w, e).workers == w.workers && Step(w, e).db.anomalies == w.db.anomalies
    ensures a in w.db.attempts ==> a in Step(w, e).db.attempts && Step(w, e).db.attempts[a] == w.db.attempts[a]
  {
    var b :| b in w.db.attempts && b != a && Active(w.db, b, n);
    var p := FreshKey(w.sweepers.Keys);
    e := SweepRow(p, b, w.db.attempts[b].startedAt + 1);
    forall c | c in w.db.attempts && c != a ensures !Active(Step(w, e).db, c, n) {}
  }

  function NextStatus(last: Status): Status {
    match last
    case Planning => CollectingData
    case CollectingData => GeneratingAnalysis
    case _ => Failed
  }

  lemma ReadyOwner(w: World, n: AnomalyId, a: AttemptId) returns (events: seq<Event>)
    requires Inv(w) && Owns(w, a, n) && a in w.workers && w.workers[a].Ready? && w.workers[a].anomaly == n
    requires !Blocked(w.db, n, a)
    ensures Settles(w, n, events)
  {
    assert WorkerOk(w, a);
    var s := NextStatus(w.workers[a].last);
    var e := WriteRow(a, s);
    var w1 := Step(w, e);
    StepKeepsInv(w, e);
    var rest;
    if Final(s) {
      rest := [Report(a)];
      assert Run(w1, rest) == Step(w1, Report(a));
    } else {
      rest := SweepOwner(w1, n, a);
    }
    Then(w, n, e, rest);
    events := [e] + rest;
  }

  lemma LiveOwner(w: World, n: AnomalyId, a: AttemptId) returns (events: seq<Event>)
    requires Inv(w) && Owns(w, a, n) && a in w.workers && w.workers[a].Ready? && w.workers[a].anomaly == n
    ensures Settles(w, n, events)
  {
    if !Blocked(w.db, n, a) {
      events := ReadyOwner(w, n, a);
    } else {
      var e := FreeIndex(w, n, a);
      StepKeepsInv(w, e);
      var rest := ReadyOwner(Step(w, e), n, a);
      Then(w, n, e, rest);
      events := [e] + rest;
    }
  }

  lemma WaitingClaimer(w: World, n: AnomalyId, b: AttemptId) returns (events: seq<Event>)
    requires Inv(w) && b in w.workers && w.workers[b] == Loaded(n) && !Blocked(w.db, n, b)
    ensures Settles(w, n, events)
  {
    assert WorkerOk(w, b) && AttemptOk(w, b);
    var e := Claim(b, 0);
    StepKeepsInv(w, e);
    var rest := SweepOwner(Step(w, e), n, b);
    Then(w, n, e, rest);
    events := [e] + rest;
  }

  lemma SomeoneCanSettle(w: World, n: AnomalyId) returns (events: seq<Event>)
    requires Inv(w) && n in w.db.anomalies && !Stranded(w, n)
    ensures Settles(w, n, events)
  {
    assert AnomalyOk(w, n);
    if !InProgress(w.db.anomalies[n].status) { return []; }
    var a := w.db.anomalies[n].current.value;
    assert AttemptOk(w, a) && WorkerOk(w, a);
    if Active(w.db, a, n) {
      events := SweepOwner(w, n, a);
    } else if p :| p in w.sweepers && w.sweepers[p] == a {
      events := [SweepReport(p)];
      assert Run(w, events) == Step(w, SweepReport(p));
    } else if b :| b in w.workers && w.workers[b] == Loaded(n) {
      if Blocked(w.db, n, b) {
        var e := FreeIndex(w, n, b);
        StepKeepsInv(w, e);
        var rest := WaitingClaimer(Step(w, e), n, b);
        Then(w, n, e, rest);
        events := [e] + rest;
      } else {
        events := WaitingClaimer(w, n, b);
      }
    } else if w.workers[a].Ready? {
      events := LiveOwner(w, n, a);
    } else {
      var e := Report(a);
      var w1 := Step(w, e);
      StepKeepsInv(w, e);
      var rest := [];
      if InProgress(w.workers[a].last) { rest := LiveOwner(w1, n, a); }
      Then(w, n, e, rest);
      events := [e] + rest;
    }
  }

  /** Recovery is possible exactly when the anomaly is not stranded: for every reachable state,
      some continuation lets the anomaly leave the in-progress statuses if and only if the owner's
      row is unfinished, or its worker, a watchdog on it, or an earlier requester is still there. */
  lemma RecoverableExactlyWhenNotStranded(w: World, n: AnomalyId)
    requires Reachable(w) && n in w.db.anomalies
    ensures (exists events :: Settles(w, n, events)) <==> !Stranded(w, n)
  {
    var ns, before :| w == Run(Initial(ns), before);
    assert Inv(Initial(ns));
    RunKeepsInv(Initial(ns), before);
    if Stranded(w, n) {
      forall events ensures !Settles(w, n, events) { StrandedForever(w, n, events); }
    } else {
      var events := SomeoneCanSettle(w, n);
    }
  }

  lemma {:induction false} RunThenStep(w: World, events: seq<Event>, e: Event)
    ensures Run(w, events + [e]) == Step(Run(w, events), e)
    decreases |events|
  {
    if events == [] {
      assert Run(Step(w, e), []) == Step(w, e);
    } else {
      assert (events + [e])[1..] == events[1..] + [e];
      RunThenStep(Step(w, events[0]), events[1..], e);
    }
  }

  lemma StepIsReachable(w: World, e: Event)
    requires Reachable(w)
    ensures Reachable(Step(w, e))
  {
    var ns, events :| w == Run(Initial(ns), events);
    RunThenStep(Initial(ns), events, e);
  }

  /** One anomaly and one attempt, with nothing else in the tables and no watchdog but `p`. */
  function Small(shown: Status, row: Status, worker: Worker, sweepers: map<nat, AttemptId>, track: Track): World {
    World(Db(map[0 := Anomaly(shown, Some(0))], map[0 := Attempt(0, row, 0)]), map[0 := worker], sweepers,
          Log(map[0 := [0]], map[0 := track]))
  }

  const JUST_CLAIMED := Small(Queued, Queued, Ready(0, Queued), map[], Track([Queued], [Queued], false))

  lemma RequestThenClaim()
    ensures Step(Step(Initial({0}), Request(0, 0)), Claim(0, 0)) == JUST_CLAIMED
  {
    var w0 := Initial({0});
    assert w0.db.anomalies == map[0 := Anomaly(NotAnalyzed, None)] && w0.log.claims == map[0 := []];
    var w1 := Step(w0, Request(0, 0));
    assert w1 == w0.(workers := map[0 := Loaded(0)]);
    assert !Blocked(w1.db, 0, 0);
    var w2 := Step(w1, Claim(0, 0));
    assert w2.db.anomalies == JUST_CLAIMED.db.anomalies && w2.db.attempts == JUST_CLAIMED.db.attempts;
    assert w2.workers == JUST_CLAIMED.workers && w2.sweepers == JUST_CLAIMED.sweepers;
    assert w1.log.claims[0] + [0] == [0];
    assert w2.log.claims == JUST_CLAIMED.log.claims && w2.log.tracks == JUST_CLAIMED.log.tracks;
  }

  lemma JustClaimedIsReachable()
    ensures Reachable(JUST_CLAIMED)
  {
    var w0 := Initial({0});
    assert w0 == Run(w0, []);
    StepIsReachable(w0, Request(0, 0));
    StepIsReachable(Step(w0, Request(0, 0)), Claim(0, 0));
    RequestThenClaim();
  }

  /** A stranded state is reached by a crash between the worker's last two commits: the row is
      COMPLETED, the anomaly shows QUEUED, and no continuation changes it. */
  lemma CrashBetweenLastCommitsStrands() returns (w: World)
    ensures Reachable(w) && Stranded(w, 0)
    ensures 0 in w.db.attempts && w.db.attempts[0].status == Completed
  {
    JustClaimedIsReachable();
    var w0 := JUST_CLAIMED;
    var w1 := Step(w0, WriteRow(0, Completed));
    StepIsReachable(w0, WriteRow(0, Completed));
    assert w1.workers[0] == Wrote(0, Completed) && w1.db.attempts[0].status == Completed;
    w := Step(w1, Crash(0));
    StepIsReachable(w1, Crash(0));
  }

  lemma WatchdogFails()
    ensures Step(Step(JUST_CLAIMED, SweepRow(0, 0, 1)), SweepReport(0))
            == Small(Failed, Failed, Ready(0, Queued), map[], Track([Queued, Failed], [Queued, Failed], true))
  {
    var w1 := Step(JUST_CLAIMED, SweepRow(0, 0, 1));
    assert w1.db.attempts == map[0 := Attempt(0, Failed, 0)];
    assert [Queued] + [Failed] == [Queued, Failed];
    assert w1.log.tracks == map[0 := Track([Queued, Failed], [Queued], true)];
    assert w1 == Small(Queued, Failed, Ready(0, Queued), map[0 := 0], Track([Queued, Failed], [Queued], true));
    assert w1.sweepers - {0} == map[];
  }

  lemma LateWorkerWrites(t: Track)
    ensures Step(Small(Failed, Failed, Ready(0, Queued), map[], t), WriteRow(0, Completed))
            == Small(Failed, Completed, Wrote(0, Completed), map[], Track(t.history + [Completed], t.reported, t.swept))
  {
    assert map[0 := Attempt(0, Failed, 0)][0 := Attempt(0, Completed, 0)] == map[0 := Attempt(0, Completed, 0)];
  }

  lemma LateWorkerReports(t: Track)
    ensures Step(Small(Failed, Completed, Wrote(0, Completed), map[], t), Report(0))
            == Small(Completed, Completed, Finished(0, Completed), map[], t.(reported := t.reported + [Completed]))
  {
    assert map[0 := Anomaly(Failed, Some(0))][0 := Anomaly(Completed, Some(0))]
           == map[0 := Anomaly(Completed, Some(0))];
  }

  /** The watchdog is not final: with no newer claim, the late worker still owns the anomaly, and
      its result replaces the FAILED the watchdog had committed on the row and on the anomaly. */
  lemma LateWorkerReplacesWatchdogVerdict() returns (failed: World, later: World)
    ensures Reachable(failed) && Reachable(later)
    ensures later == Step(Step(failed, WriteRow(0, Completed)), Report(0))
    ensures failed.db == Db(map[0 := Anomaly(Failed, Some(0))], map[0 := Attempt(0, Failed, 0)])
    ensures later.db == Db(map[0 := Anomaly(Completed, Some(0))], map[0 := Attempt(0, Completed, 0)])
  {
    JustClaimedIsReachable();
    StepIsReachable(JUST_CLAIMED, SweepRow(0, 0, 1));
    StepIsReachable(Step(JUST_CLAIMED, SweepRow(0, 0, 1)), SweepReport(0));
    WatchdogFails();
    var t := Track([Queued, Failed], [Queued, Failed], true);
    failed := Small(Failed, Failed, Ready(0, Queued), map[], t);
    StepIsReachable(failed, WriteRow(0, Completed));
    StepIsReachable(Step(failed, WriteRow(0, Completed)), Report(0));
    LateWorkerWrites(t);
    LateWorkerReports(Track(t.history + [Completed], t.reported, t.swept));
    later := Small(Completed, Completed, Finished(0, Completed), map[],
                   Track(t.history + [Completed], t.reported + [Completed], true));
  }
}
