/** One worker run on its own: the order of commits of run_analysis in its three modes.
    The language model is an arbitrary source of replies, passed in. */
module AnalysisService {
  import opened AnalysisProtocol
  import opened AnalysisStore
  import opened Options

  /** What one attempt at a single-context answer meets. */
  datatype Reply = Answer | NotConfigured(demoWorks: bool) | CallFailed | Malformed

  datatype Replies = Replies(first: Reply, second: Reply)

  datatype ToolRun =
    | DemoDisabled
    | Demo
    | Loop(answered: bool, limitReached: bool)
    | UnsupportedWhileCollecting(fallback: Replies)
    | UnsupportedWhileGenerating(fallback: Replies)

  datatype Mode = SingleContext(replies: Replies) | ToolCalling(run: ToolRun)

  datatype Outcome = Outcome(payload: bool, warnings: bool)

  /** A second try follows a failed call or a malformed answer, never a missing configuration. */
  predicate Answered(r: Replies) {
    match r.first
    case Answer => true
    case NotConfigured(demoWorks) => demoWorks
    case _ =>
      match r.second
      case Answer => true
      case NotConfigured(demoWorks) => demoWorks
      case _ => false
  }

  function Expected(m: Mode): Outcome {
    match m
    case SingleContext(r) => Outcome(Answered(r), false)
    case ToolCalling(DemoDisabled) => Outcome(false, false)
    case ToolCalling(Demo) => Outcome(true, false)
    case ToolCalling(Loop(answered, limit)) => Outcome(answered, answered && limit)
    case ToolCalling(UnsupportedWhileCollecting(r)) => Outcome(Answered(r), true)
    case ToolCalling(UnsupportedWhileGenerating(r)) => Outcome(Answered(r), true)
  }

  function FinalStatus(o: Outcome): Status {
    if !o.payload then Failed else if o.warnings then CompletedWithWarnings else Completed
  }

  /** The replies one after the other, as far as they are asked for: the second only after a failed
      or malformed first. */
  function Asked(r: Replies): seq<Reply> {
    if r.first.CallFailed? || r.first.Malformed? then [r.first, r.second] else [r.first]
  }

  predicate GivesPayload(r: Reply) { r == Answer || r == NotConfigured(true) }

  /** The fallback answered, or the mode itself did. */
  predicate Succeeds(m: Mode) {
    match m
    case SingleContext(r) => exists i | 0 <= i < |Asked(r)| :: GivesPayload(Asked(r)[i])
    case ToolCalling(UnsupportedWhileCollecting(r)) => exists i | 0 <= i < |Asked(r)| :: GivesPayload(Asked(r)[i])
    case ToolCalling(UnsupportedWhileGenerating(r)) => exists i | 0 <= i < |Asked(r)| :: GivesPayload(Asked(r)[i])
    case ToolCalling(run) => run == Demo || (run.Loop? && run.answered)
  }

  lemma {:induction false} AnsweredExactlyWhen(r: Replies)
    ensures Answered(r) <==> exists i | 0 <= i < |Asked(r)| :: GivesPayload(Asked(r)[i])
  {
    var a := Asked(r);
    assert |a| == 2 ==> a[1] == r.second;
    assert a[0] == r.first;
    assert GivesPayload(a[0]) || (|a| == 2 && GivesPayload(a[1])) <==> Answered(r);
  }

  /** An analysis ends FAILED exactly when no asked-for reply gives a payload, with warnings exactly
      when it succeeds after a fallback or past a limit, and COMPLETED otherwise. */
  lemma {:induction false} EndsExactlyAs(m: Mode)
    ensures FinalStatus(Expected(m)) ==
              if !Succeeds(m) then Failed
              else if m.ToolCalling? && (m.run.UnsupportedWhileCollecting? || m.run.UnsupportedWhileGenerating?
                                         || (m.run.Loop? && m.run.limitReached))
              then CompletedWithWarnings
              else Completed
  {
    match m
    case SingleContext(r) => AnsweredExactlyWhen(r);
    case ToolCalling(UnsupportedWhileCollecting(r)) => AnsweredExactlyWhen(r);
    case ToolCalling(UnsupportedWhileGenerating(r)) => AnsweredExactlyWhen(r);
    case _ =>
  }

  /** The statuses a mode commits after QUEUED and before the final one. */
  function Passing(m: Mode): seq<Status> {
    match m
    case SingleContext(_) => [Analyzing]
    case ToolCalling(DemoDisabled) => []
    case ToolCalling(Demo) => []
    case ToolCalling(Loop(_, _)) => [Planning, CollectingData, GeneratingAnalysis]
    case ToolCalling(UnsupportedWhileCollecting(_)) => [Planning, CollectingData, Analyzing]
    case ToolCalling(UnsupportedWhileGenerating(_)) => [Planning, CollectingData, GeneratingAnalysis, Analyzing]
  }

  function TrailOf(m: Mode): seq<Status> { [Queued] + Passing(m) + [FinalStatus(Expected(m))] }

  predicate Succeeding(m: Mode, i: nat, last: Status, s: Status) {
    0 < i < |TrailOf(m)| && TrailOf(m)[i - 1] == last && TrailOf(m)[i] == s
  }

  /** A mode and a place at which the one status follows the other. */
  function ModeFor(last: Status, s: Status): (Mode, nat) {
    var ok, bad := Replies(Answer, Answer), Replies(CallFailed, CallFailed);
    match last
    case Queued =>
      if s == Analyzing then (SingleContext(ok), 1)
      else if s == Planning then (ToolCalling(Loop(true, false)), 1)
      else (ToolCalling(if s == Completed then Demo else DemoDisabled), 1)
    case Planning => (ToolCalling(Loop(true, false)), 2)
    case CollectingData =>
      (ToolCalling(if s == Analyzing then UnsupportedWhileCollecting(ok) else Loop(true, false)), 3)
    case GeneratingAnalysis =>
      if s == Analyzing then (ToolCalling(UnsupportedWhileGenerating(ok)), 4)
      else (ToolCalling(Loop(s != Failed, s == CompletedWithWarnings)), 4)
    case _ =>
      if s == CompletedWithWarnings then (ToolCalling(UnsupportedWhileCollecting(ok)), 4)
      else (SingleContext(if s == Failed then bad else ok), 2)
  }

  /** The step system lets a worker commit one status after another exactly when some mode does. */
  lemma {:induction false} FollowsExactlyWhen(last: Status, s: Status)
    ensures Follows(last, s) <==> exists m, i :: Succeeding(m, i, last, s)
  {
    if Follows(last, s) {
      var (m, i) := ModeFor(last, s);
      assert Succeeding(m, i, last, s);
    }
    if m, i :| Succeeding(m, i, last, s) { TrailIsLegal(m); }
  }

  lemma {:induction false} TrailIsLegal(m: Mode)
    ensures Legal(TrailOf(m))
  {
    assert TrailOf(m)[0] == Queued;
  }

  /** Every status in the trail may follow the one before it. */
  ghost predicate Legal(trail: seq<Status>) {
    trail != [] && trail[0] == Queued && forall i | 0 < i < |trail| :: Follows(trail[i - 1], trail[i])
  }

  /** The tables while attempt `a` holds the claim on `n` and both show `s`. */
  ghost function Holding(db: Db, n: AnomalyId, a: AttemptId, startedAt: int, s: Status): Db {
    Db(db.anomalies[n := Anomaly(s, Some(a))], db.attempts[a := Attempt(n, s, startedAt)])
  }

  /** _set_status: own row first, then the anomaly. */
  method SetStatus(db: Database, n: AnomalyId, a: AttemptId, s: Status, ghost base: Db, ghost t: int,
                   ghost trail: seq<Status>)
    returns (ghost trail': seq<Status>)
    requires db.Valid() && n in db.anomalies && a in db.attempts
    requires Legal(trail) && Follows(Last(trail), s) && InProgress(Last(trail))
    requires db.Value() == Holding(base, n, a, t, Last(trail))
    modifies db
    ensures db.Valid() && db.Value() == Holding(base, n, a, t, s) && n in db.anomalies && a in db.attempts
    ensures trail' == trail + [s] && Legal(trail')
  {
    assert !Blocked(db.Value(), n, a) by {
      assert Active(db.Value(), a, n);
    }
    var _ := db.CommitOwnStatus(a, s);
    var _ := db.SetAnomalyStatusIfCurrent(n, a, s);
    trail' := trail + [s];
  }

  /** _run_single_context: ANALYZING, then at most two tries. */
  method RunSingleContext(db: Database, n: AnomalyId, a: AttemptId, r: Replies,
                          ghost base: Db, ghost t: int, ghost trail: seq<Status>)
    returns (answered: bool, ghost trail': seq<Status>)
    requires db.Valid() && n in db.anomalies && a in db.attempts
    requires Legal(trail) && Follows(Last(trail), Analyzing) && InProgress(Last(trail))
    requires db.Value() == Holding(base, n, a, t, Last(trail))
    modifies db
    ensures answered == Answered(r)
    ensures db.Valid() && db.Value() == Holding(base, n, a, t, Analyzing)
    ensures trail' == trail + [Analyzing] && Legal(trail')
  {
    trail' := SetStatus(db, n, a, Analyzing, base, t, trail);
    answered := false;
    var i := 0;
    while i < 2
      invariant 0 <= i <= 2 && !answered
      invariant i > 0 ==> r.first.CallFailed? || r.first.Malformed?
      invariant i > 1 ==> r.second.CallFailed? || r.second.Malformed?
    {
      match (if i == 0 then r.first else r.second) {
        case Answer =>
          answered := true;
          break;
        case NotConfigured(demoWorks) =>
          answered := demoWorks;
          break;
        case _ =>
          i := i + 1;
      }
    }
  }

  method RunToolCalling(db: Database, n: AnomalyId, a: AttemptId, run: ToolRun,
                        ghost base: Db, ghost t: int, ghost trail: seq<Status>)
    returns (o: Outcome, ghost trail': seq<Status>)
    requires db.Valid() && n in db.anomalies && a in db.attempts
    requires Legal(trail) && Last(trail) == Queued
    requires db.Value() == Holding(base, n, a, t, Queued)
    modifies db
    ensures o == Expected(ToolCalling(run))
    ensures trail' == trail + Passing(ToolCalling(run))
    ensures Legal(trail') && InProgress(Last(trail')) && Follows(Last(trail'), FinalStatus(o))
    ensures db.Valid() && db.Value() == Holding(base, n, a, t, Last(trail'))
  {
    hide Legal, Holding, IndexHolds, Referential;
    trail' := trail;
    if run.DemoDisabled? {
      return Outcome(false, false), trail';
    }
    if run.Demo? {
      return Outcome(true, false), trail';
    }
    trail' := SetStatus(db, n, a, Planning, base, t, trail');
    trail' := SetStatus(db, n, a, CollectingData, base, t, trail');
    if run.UnsupportedWhileCollecting? {
      var answered;
      answered, trail' := RunSingleContext(db, n, a, run.fallback, base, t, trail');
      return Outcome(answered, true), trail';
    }
    trail' := SetStatus(db, n, a, GeneratingAnalysis, base, t, trail');
    if run.UnsupportedWhileGenerating? {
      var answered;
      answered, trail' := RunSingleContext(db, n, a, run.fallback, base, t, trail');
      return Outcome(answered, true), trail';
    }
    o := Outcome(run.answered, run.answered && run.limitReached);
  }

  /** run_analysis with no other process running.  A refusal changes nothing; otherwise the row
      and the anomaly both end in the status the outcome calls for, after a trail of commits
      that the step system of `AnalysisProtocol` allows. */
  method RunAnalysis(db: Database, n: AnomalyId, a: AttemptId, startedAt: int, mode: Mode)
    returns (result: Option<Status>, ghost trail: seq<Status>)
    requires db.Valid() && n in db.anomalies && a !in db.attempts
    modifies db
    ensures db.Valid()
    ensures result.None? <==> InProgress(old(db.anomalies)[n].status) || old(Blocked(db.Value(), n, a))
    ensures result.None? ==> db.Value() == old(db.Value())
    ensures result.Some? ==>
              && result.value == FinalStatus(Expected(mode))
              && db.Value() == Holding(old(db.Value()), n, a, startedAt, result.value)
              && trail == TrailOf(mode) && Legal(trail) && Last(trail) == result.value
  {
    trail := [Queued];
    ghost var base := db.Value();
    if InProgress(db.anomalies[n].status) {
      return None, trail;
    }
    var ok := db.ClaimAnalysis(n, a, startedAt);
    if !ok {
      return None, trail;
    }
    assert db.Value() == Holding(base, n, a, startedAt, Queued);
    var o;
    match mode {
      case SingleContext(r) =>
        var answered;
        answered, trail := RunSingleContext(db, n, a, r, base, startedAt, trail);
        o := Outcome(answered, false);
      case ToolCalling(run) =>
        o, trail := RunToolCalling(db, n, a, run, base, startedAt, trail);
    }
    var final := if !o.payload then Failed else if o.warnings then CompletedWithWarnings else Completed;
    trail := SetStatus(db, n, a, final, base, startedAt, trail);
    result := Some(final);
  }
}
