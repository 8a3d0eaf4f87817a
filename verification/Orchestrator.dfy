/** The tool-calling loop of one analysis: its budget, its cache, its tool-call rows, the transcript
    it sends back to the model, and the evidence references it lets through.  What the model says,
    what a tool does and what the clock shows are arbitrary and passed in. */
module Orchestrator {
  import opened Options

  datatype Fault = InvalidToolCall | ToolNotFound | ToolFault(kind: string) | UnexpectedFault | ToolTimeout | LoopLimit

  /** What a tool does if it is run. */
  datatype Effect = Raises(kind: string) | Crashes | Returns(result: string, durationMs: int)

  /** One tool call of an assistant message.  `args` is None when they are not JSON, else their
      canonical text; `code` is the code a row for it would get; `late` is whether the deadline has
      passed when its turn comes. */
  datatype Call = Call(id: string, tool: string, args: Option<string>, effect: Effect, code: string, late: bool)

  datatype Content = Failure(fault: Fault) | Wrapped(code: string, tool: string, result: string)

  datatype Outcome = Success | Error | Timeout

  datatype ToolRow = ToolRow(code: string, step: nat, tool: string, outcome: Outcome, result: Option<string>,
                             fault: Option<Fault>)

  datatype Message =
    | System | User(note: string) | Assistant(calls: seq<Call>) | Answer(callId: string, content: Content)

  datatype Settings = Settings(tools: set<string>, maxToolCalls: int, maxSteps: int, toolTimeoutMs: int)

  datatype Turn = Turn(late: bool, reply: Reply)

  datatype Reply = LlmFails | Unsupported | Says(calls: seq<Call>)

  // ---- One tool call ----

  datatype State = State(cache: map<(string, string), Content>, codes: set<string>, count: nat, rows: seq<ToolRow>)

  const EMPTY := State(map[], {}, 0, [])

  predicate IsCached(s: State, c: Call) {
    c.args.Some? && (c.tool, c.args.value) in s.cache
  }

  function Row(s: State, c: Call, outcome: Outcome, result: Option<string>, fault: Option<Fault>): ToolRow {
    ToolRow(c.code, |s.rows| + 1, RowTool(c), outcome, result, fault)
  }

  const UNKNOWN_TOOL := "(bilinmiyor)"

  function RowTool(c: Call): string { if c.tool == "" then UNKNOWN_TOOL else c.tool }

  function Failed(s: State, c: Call, outcome: Outcome, result: Option<string>, fault: Fault): (State, Content) {
    (s.(rows := s.rows + [Row(s, c, outcome, result, Some(fault))]), Failure(fault))
  }

  /** _execute_tool_call on values. */
  function Executed(s: State, c: Call, t: Settings): (State, Content) {
    if c.args.None? then Failed(s, c, Error, None, InvalidToolCall)
    else if c.tool !in t.tools then Failed(s, c, Error, None, ToolNotFound)
    else if IsCached(s, c) then (s, s.cache[(c.tool, c.args.value)])
    else match c.effect
      case Raises(kind) => Failed(s, c, Error, None, ToolFault(kind))
      case Crashes => Failed(s, c, Error, None, UnexpectedFault)
      case Returns(result, ms) =>
        if ms > t.toolTimeoutMs then Failed(s, c, Timeout, Some(result), ToolTimeout)
        else
          var w := Wrapped(c.code, c.tool, result);
          (State(s.cache[(c.tool, c.args.value) := w], s.codes + {c.code}, s.count + 1,
                 s.rows + [Row(s, c, Success, Some(result), None)]), w)
  }

  /** The answer to a call: past the deadline or the budget it is refused without being run. */
  function Taken(s: State, c: Call, t: Settings): (State, Content) {
    if c.late || s.count >= t.maxToolCalls then (s, Failure(LoopLimit)) else Executed(s, c, t)
  }

  function Successes(rows: seq<ToolRow>): nat
    decreases |rows|
  {
    if rows == [] then 0 else Successes(rows[..|rows| - 1]) + if rows[|rows| - 1].outcome == Success then 1 else 0
  }

  /** A successful row stands behind this content. */
  ghost predicate Backed(rows: seq<ToolRow>, w: Content) {
    w.Wrapped? && exists i | 0 <= i < |rows| ::
      rows[i].outcome == Success && rows[i].code == w.code && rows[i].tool == w.tool && rows[i].result == Some(w.result)
  }

  ghost predicate SucceededAs(rows: seq<ToolRow>, code: string) {
    exists i | 0 <= i < |rows| :: rows[i].outcome == Success && rows[i].code == code
  }

  /** What every state of the loop satisfies. */
  ghost predicate Inv(s: State, t: Settings) {
    && "" !in t.tools
    && s.count == Successes(s.rows)
    && (s.count > 0 ==> s.count <= t.maxToolCalls)
    && (forall i | 0 <= i < |s.rows| :: s.rows[i].step == i + 1)
    && (forall c :: c in s.codes <==> SucceededAs(s.rows, c))
    && (forall k | k in s.cache :: Backed(s.rows, s.cache[k]) && s.cache[k].tool == k.0)
  }

  lemma {:induction false} RowsOneMore(rows: seq<ToolRow>, row: ToolRow)
    ensures Successes(rows + [row]) == Successes(rows) + if row.outcome == Success then 1 else 0
    ensures forall c ::
              SucceededAs(rows + [row], c) <==> SucceededAs(rows, c) || (row.outcome == Success && row.code == c)
    ensures forall w :: Backed(rows, w) ==> Backed(rows + [row], w)
  {
    var more := rows + [row];
    assert more[..|rows|] == rows && more[|rows|] == row;
    forall c | SucceededAs(rows, c) ensures SucceededAs(more, c) {
      var i :| 0 <= i < |rows| && rows[i].outcome == Success && rows[i].code == c;
      assert more[i] == rows[i];
    }
    forall w | Backed(rows, w) ensures Backed(more, w) {
      var i :| 0 <= i < |rows| && rows[i].outcome == Success && rows[i].code == w.code
               && rows[i].tool == w.tool && rows[i].result == Some(w.result);
      assert more[i] == rows[i];
    }
  }

  /** An unsuccessful row. */
  lemma {:induction false} FailedKeepsInv(s: State, t: Settings, row: ToolRow)
    requires Inv(s, t) && row.outcome != Success && row.step == |s.rows| + 1
    ensures Inv(s.(rows := s.rows + [row]), t)
  {
    RowsOneMore(s.rows, row);
    hide Successes, SucceededAs, Backed;
  }

  /** A successful row with its code, its count and its cache entry. */
  lemma {:induction false} SucceededKeepsInv(s: State, t: Settings, key: (string, string), row: ToolRow)
    requires Inv(s, t) && s.count < t.maxToolCalls && key.0 == row.tool
    requires row.outcome == Success && row.step == |s.rows| + 1 && row.result.Some?
    ensures var w := Wrapped(row.code, row.tool, row.result.value);
            var s' := State(s.cache[key := w], s.codes + {row.code}, s.count + 1, s.rows + [row]);
            Inv(s', t) && Backed(s'.rows, w)
  {
    RowsOneMore(s.rows, row);
    var w := Wrapped(row.code, row.tool, row.result.value);
    assert Backed(s.rows + [row], w) by { assert (s.rows + [row])[|s.rows|] == row; }
    hide Successes, SucceededAs, Backed;
  }

  /** Past the deadline or the budget a call is refused. */
  predicate Refused(s: State, c: Call, t: Settings) { c.late || s.count >= t.maxToolCalls }

  predicate FromCache(s: State, c: Call, t: Settings) { c.tool in t.tools && IsCached(s, c) }

  /** The three things a call can do. */
  lemma {:induction false} TakenCases(s: State, c: Call, t: Settings)
    ensures var r := Taken(s, c, t);
            || (r.0 == s && (r.1.Failure? || (FromCache(s, c, t) && r.1 == s.cache[(c.tool, c.args.value)])))
            || (r.1.Failure? && exists row | r.0 == s.(rows := s.rows + [row]) ::
                  row.outcome != Success && row.step == |s.rows| + 1)
            || (c.args.Some? && c.tool in t.tools && s.count < t.maxToolCalls && c.effect.Returns?
                && r.1 == Wrapped(c.code, c.tool, c.effect.result)
                && r.0 == State(s.cache[(c.tool, c.args.value) := r.1], s.codes + {c.code}, s.count + 1,
                                s.rows + [Row(s, c, Success, Some(c.effect.result), None)]))
  {
    var r := Taken(s, c, t);
    if r.0 != s && r.1.Failure? {
      var row := r.0.rows[|s.rows|];
      assert r.0 == s.(rows := s.rows + [row]);
    }
  }

  /** One call keeps the invariant, and a result it reports is backed by a successful row. */
  lemma {:induction false} TakenKeepsInv(s: State, c: Call, t: Settings)
    requires Inv(s, t)
    ensures Inv(Taken(s, c, t).0, t)
    ensures Taken(s, c, t).1.Wrapped? ==>
              Backed(Taken(s, c, t).0.rows, Taken(s, c, t).1) && Taken(s, c, t).1.tool == c.tool
  {
    TakenCases(s, c, t);
    hide Taken, Successes, SucceededAs, Backed;
    var r := Taken(s, c, t);
    if r.0 != s {
      if r.1.Failure? {
        var row :| r.0 == s.(rows := s.rows + [row]) && row.outcome != Success && row.step == |s.rows| + 1;
        FailedKeepsInv(s, t, row);
      } else {
        SucceededKeepsInv(s, t, (c.tool, c.args.value), Row(s, c, Success, Some(c.effect.result), None));
      }
    }
  }

  /** One call adds a row exactly when it is run, rather than refused or served from the cache;
      nothing leaves the cache, and what succeeds enters it. */
  lemma {:induction false} TakenAdds(s: State, c: Call, t: Settings)
    ensures s.rows <= Taken(s, c, t).0.rows
    ensures |Taken(s, c, t).0.rows| == |s.rows| + if Refused(s, c, t) || FromCache(s, c, t) then 0 else 1
    ensures Taken(s, c, t).1.Wrapped? ==>
              IsCached(Taken(s, c, t).0, c) && Taken(s, c, t).0.cache[(c.tool, c.args.value)] == Taken(s, c, t).1
    ensures forall k | k in s.cache :: k in Taken(s, c, t).0.cache && Taken(s, c, t).0.cache[k] == s.cache[k]
  {}

  /** The row that reports a fault: everything but a timeout is an error without a result. */
  predicate Reports(row: ToolRow, s: State, c: Call, fault: Fault) {
    && row.code == c.code && row.step == |s.rows| + 1
    && row.tool == (if c.tool == "" then "(bilinmiyor)" else c.tool) && row.fault == Some(fault)
    && row.outcome == (if fault == ToolTimeout then Timeout else Error)
    && row.result == if fault == ToolTimeout && c.effect.Returns? then Some(c.effect.result) else None
  }

  /** The call got past the deadline, the budget, its arguments, its tool's name and the cache. */
  predicate IsRun(s: State, c: Call, t: Settings) {
    !c.late && s.count < t.maxToolCalls && c.args.Some? && c.tool in t.tools && (c.tool, c.args.value) !in s.cache
  }

  /** Which fault a call is answered with, and when it succeeds: each in exactly one case. */
  lemma {:induction false} CallAnswersExactlyAs(s: State, c: Call, t: Settings)
    requires Inv(s, t)
    ensures var a := Taken(s, c, t).1;
            && (a == Failure(LoopLimit) <==> c.late || s.count >= t.maxToolCalls)
            && (a == Failure(InvalidToolCall) <==> !c.late && s.count < t.maxToolCalls && c.args.None?)
            && (a == Failure(ToolNotFound) <==>
                  !c.late && s.count < t.maxToolCalls && c.args.Some? && c.tool !in t.tools)
            && (forall kind :: a == Failure(ToolFault(kind)) <==> IsRun(s, c, t) && c.effect == Raises(kind))
            && (a == Failure(UnexpectedFault) <==> IsRun(s, c, t) && c.effect == Crashes)
            && (a == Failure(ToolTimeout) <==>
                  IsRun(s, c, t) && c.effect.Returns? && c.effect.durationMs > t.toolTimeoutMs)
    ensures IsRun(s, c, t) && c.effect.Returns? && c.effect.durationMs <= t.toolTimeoutMs ==>
              && Taken(s, c, t).1 == Wrapped(c.code, c.tool, c.effect.result)
              && Taken(s, c, t).0.rows
                 == s.rows + [ToolRow(c.code, |s.rows| + 1, c.tool, Success, Some(c.effect.result), None)]
  {
    if c.args.Some? && IsCached(s, c) { assert Backed(s.rows, s.cache[(c.tool, c.args.value)]); }
    hide Backed, SucceededAs, Successes;
  }

  /** A call that is answered with a fault other than the limit is reported in one row. */
  lemma {:induction false} FaultsAreReported(s: State, c: Call, t: Settings)
    requires Inv(s, t) && Taken(s, c, t).1.Failure? && Taken(s, c, t).1.fault != LoopLimit
    ensures var rows := Taken(s, c, t).0.rows;
            rows == s.rows + [rows[|rows| - 1]] && Reports(rows[|rows| - 1], s, c, Taken(s, c, t).1.fault)
  {
    if c.args.Some? && IsCached(s, c) { assert Backed(s.rows, s.cache[(c.tool, c.args.value)]); }
    hide Backed, SucceededAs, Successes;
  }

  function TakenAll(s: State, calls: seq<Call>, t: Settings): State
    decreases |calls|
  {
    if calls == [] then s else Taken(TakenAll(s, calls[..|calls| - 1], t), calls[|calls| - 1], t).0
  }

  /** The answers to the calls of one message, one each, in order. */
  function AnswersTo(s: State, calls: seq<Call>, t: Settings): (answers: seq<Content>)
    ensures |answers| == |calls|
    decreases |calls|
  {
    if calls == [] then [] else
    var front := calls[..|calls| - 1];
    AnswersTo(s, front, t) + [Taken(TakenAll(s, front, t), calls[|calls| - 1], t).1]
  }

  predicate AnyRefused(s: State, calls: seq<Call>, t: Settings)
    decreases |calls|
  {
    calls != [] && (AnyRefused(s, calls[..|calls| - 1], t)
                    || Refused(TakenAll(s, calls[..|calls| - 1], t), calls[|calls| - 1], t))
  }

  lemma {:induction false} TakenAllKeepsInv(s: State, calls: seq<Call>, t: Settings)
    requires Inv(s, t)
    ensures Inv(TakenAll(s, calls, t), t) && s.rows <= TakenAll(s, calls, t).rows
    ensures forall k | k in s.cache :: k in TakenAll(s, calls, t).cache && TakenAll(s, calls, t).cache[k] == s.cache[k]
    decreases |calls|
  {
    if calls != [] {
      var mid := TakenAll(s, calls[..|calls| - 1], t);
      TakenAllKeepsInv(s, calls[..|calls| - 1], t);
      TakenKeepsInv(mid, calls[|calls| - 1], t);
      TakenAdds(mid, calls[|calls| - 1], t);
      hide Taken, Inv;
    }
  }

  lemma {:induction false} LaterRowsBack(rows: seq<ToolRow>, later: seq<ToolRow>, w: Content)
    requires rows <= later && Backed(rows, w)
    ensures Backed(later, w)
  {
    var i :| 0 <= i < |rows| && rows[i].outcome == Success && rows[i].code == w.code
             && rows[i].tool == w.tool && rows[i].result == Some(w.result);
    assert later[i] == rows[i];
  }

  lemma {:induction false} OneMoreContent(s: State, front: seq<Call>, c: Call, t: Settings)
    ensures var r := Taken(TakenAll(s, front, t), c, t);
            TakenAll(s, front + [c], t) == r.0 && AnswersTo(s, front + [c], t) == AnswersTo(s, front, t) + [r.1]
  {
    assert (front + [c])[..|front|] == front;
    hide Taken;
  }

  /** Every result reported to the model is that of a successful row of the analysis, and the tool
      it names is the one that was asked for. */
  lemma {:induction false} AnswersAreBacked(s: State, calls: seq<Call>, t: Settings, i: nat)
    requires Inv(s, t) && i < |calls| && AnswersTo(s, calls, t)[i].Wrapped?
    ensures Backed(TakenAll(s, calls, t).rows, AnswersTo(s, calls, t)[i])
            && AnswersTo(s, calls, t)[i].tool == calls[i].tool
    decreases |calls|
  {
    var front, last := calls[..|calls| - 1], calls[|calls| - 1];
    hide *;
    assert calls == front + [last];
    OneMoreContent(s, front, last, t);
    var mid := TakenAll(s, front, t);
    TakenAllKeepsInv(s, front, t);
    TakenKeepsInv(mid, last, t);
    TakenAdds(mid, last, t);
    if i < |front| {
      AnswersAreBacked(s, front, t, i);
      LaterRowsBack(mid.rows, TakenAll(s, calls, t).rows, AnswersTo(s, calls, t)[i]);
    }
  }

  /** A call that succeeded once is never run again: whatever calls come between, a later call with
      the same tool and arguments leaves the state as it is and, unless the budget or the deadline
      refuses it, answers with the very content of the first. */
  lemma {:induction false} RepeatsComeFromTheCache(s: State, first: Call, between: seq<Call>, again: Call, t: Settings)
    requires Inv(s, t) && Taken(s, first, t).1.Wrapped? && again.tool == first.tool && again.args == first.args
    ensures var s1 := TakenAll(Taken(s, first, t).0, between, t);
            && Taken(s1, again, t).0 == s1
            && (Taken(s1, again, t).1 == Taken(s, first, t).1
                || (Taken(s1, again, t).1 == Failure(LoopLimit) && (again.late || s1.count >= t.maxToolCalls)))
  {
    TakenKeepsInv(s, first, t);
    TakenAdds(s, first, t);
    WrappedIsKnown(s, first, t);
    TakenAllKeepsInv(Taken(s, first, t).0, between, t);
    hide Inv, TakenAll;
    var s1 := TakenAll(Taken(s, first, t).0, between, t);
    assert IsCached(s1, again) && s1.cache[(again.tool, again.args.value)] == Taken(s, first, t).1;
  }

  lemma {:induction false} WrappedIsKnown(s: State, c: Call, t: Settings)
    requires Taken(s, c, t).1.Wrapped?
    ensures c.tool in t.tools && c.args.Some?
  {}

  // ---- The transcript ----

  /** One assistant message with the answers that follow it. */
  datatype Block = Block(calls: seq<Call>, answers: seq<Content>)

  function AnswersOf(b: Block): seq<Message>
    requires |b.answers| <= |b.calls|
  {
    seq(|b.answers|, i requires 0 <= i < |b.answers| => Answer(b.calls[i].id, b.answers[i]))
  }

  /** Every call of every assistant message is answered once, in order, under its own id. */
  ghost predicate Complete(blocks: seq<Block>) {
    forall i | 0 <= i < |blocks| :: |blocks[i].answers| == |blocks[i].calls|
  }

  function Transcript(blocks: seq<Block>): seq<Message>
    requires Complete(blocks)
    decreases |blocks|
  {
    if blocks == [] then [] else
    var last := blocks[|blocks| - 1];
    Transcript(blocks[..|blocks| - 1]) + [Assistant(last.calls)] + AnswersOf(last)
  }

  lemma TranscriptOneMore(blocks: seq<Block>, b: Block)
    requires Complete(blocks) && |b.answers| == |b.calls|
    ensures Complete(blocks + [b])
            && Transcript(blocks + [b]) == Transcript(blocks) + [Assistant(b.calls)] + AnswersOf(b)
  {
    assert (blocks + [b])[..|blocks|] == blocks;
  }

  /** From this place on the transcript has the model's message and the answers to its calls, one to a
      call, in order and under the call's id. */
  ghost predicate StandsAt(t: seq<Message>, at: nat, b: Block) {
    && |b.answers| == |b.calls| && at + |b.calls| < |t| && t[at] == Assistant(b.calls)
    && forall j | 0 <= j < |b.calls| :: t[at + 1 + j] == Answer(b.calls[j].id, b.answers[j])
  }

  /** The messages of the model stand in the transcript one after the other, each with its answers, and
      nothing between them. */
  lemma {:induction false} TranscriptInOrder(blocks: seq<Block>, i: nat)
    requires Complete(blocks) && i < |blocks|
    ensures Complete(blocks[..i]) && Complete(blocks[..i + 1])
    ensures StandsAt(Transcript(blocks), |Transcript(blocks[..i])|, blocks[i])
    ensures |Transcript(blocks[..i + 1])| == |Transcript(blocks[..i])| + 1 + |blocks[i].calls|
    decreases |blocks|
  {
    var front, last := blocks[..|blocks| - 1], blocks[|blocks| - 1];
    assert blocks == front + [last];
    hide Transcript, AnswersOf, StandsAt;
    TranscriptOneMore(front, last);
    if i < |front| {
      TranscriptInOrder(front, i);
      assert front[..i] == blocks[..i] && front[..i + 1] == blocks[..i + 1] && front[i] == blocks[i];
      StandsInLonger(Transcript(front), [Assistant(last.calls)] + AnswersOf(last), |Transcript(front[..i])|, front[i]);
      assert Transcript(front) + ([Assistant(last.calls)] + AnswersOf(last)) == Transcript(blocks);
    } else {
      assert blocks[..i] == front && blocks[..i + 1] == blocks;
      AnswersInOrder(Transcript(front), last);
    }
  }

  lemma StandsInLonger(t: seq<Message>, more: seq<Message>, at: nat, b: Block)
    requires StandsAt(t, at, b)
    ensures StandsAt(t + more, at, b)
  {}

  lemma AnswersInOrder(before: seq<Message>, b: Block)
    requires |b.answers| == |b.calls|
    ensures var t := before + [Assistant(b.calls)] + AnswersOf(b);
            StandsAt(t, |before|, b) && |t| == |before| + 1 + |b.calls|
  {}

  function AtLeastZero(n: int): nat { if n < 0 then 0 else n }

  /** Every result in the transcript is that of a successful row, for the tool its call asked for. */
  ghost predicate AllBacked(rows: seq<ToolRow>, blocks: seq<Block>) {
    forall i, j | 0 <= i < |blocks| && 0 <= j < |blocks[i].answers| && blocks[i].answers[j].Wrapped? ::
      && Backed(rows, blocks[i].answers[j]) && j < |blocks[i].calls|
      && blocks[i].answers[j].tool == blocks[i].calls[j].tool
  }

  lemma {:induction false} BackedOneMore(s: State, blocks: seq<Block>, calls: seq<Call>, t: Settings)
    requires Inv(s, t) && AllBacked(s.rows, blocks)
    ensures AllBacked(TakenAll(s, calls, t).rows, blocks + [Block(calls, AnswersTo(s, calls, t))])
  {
    var s', more := TakenAll(s, calls, t), blocks + [Block(calls, AnswersTo(s, calls, t))];
    TakenAllKeepsInv(s, calls, t);
    hide Inv, TakenAll, AnswersTo, Backed;
    forall i, j | 0 <= i < |more| && 0 <= j < |more[i].answers| && more[i].answers[j].Wrapped?
      ensures Backed(s'.rows, more[i].answers[j]) && j < |more[i].calls|
              && more[i].answers[j].tool == more[i].calls[j].tool
    {
      if i < |blocks| {
        assert more[i] == blocks[i];
        LaterRowsBack(s.rows, s'.rows, blocks[i].answers[j]);
      } else {
        AnswersAreBacked(s, calls, t, j);
      }
    }
  }

  /** The answers to a message's calls, as they join the transcript. */
  function Told(s: State, calls: seq<Call>, t: Settings): seq<Message> {
    AnswersOf(Block(calls, AnswersTo(s, calls, t)))
  }

  lemma {:induction false} OneMoreAnswer(s: State, front: seq<Call>, c: Call, t: Settings)
    ensures var r := Taken(TakenAll(s, front, t), c, t);
            && TakenAll(s, front + [c], t) == r.0
            && Told(s, front + [c], t) == Told(s, front, t) + [Answer(c.id, r.1)]
    ensures AnyRefused(s, front + [c], t) <==> AnyRefused(s, front, t) || Refused(TakenAll(s, front, t), c, t)
  {
    assert (front + [c])[..|front|] == front;
    hide Taken;
  }

  // ---- The loop on values ----

  /** How the loop ends: the model has no more calls, a limit or a failed request stops it, or the
      model turns out not to support tools. */
  datatype Verdict = Finished | LimitReached | Escapes

  datatype Looped = Looped(state: State, blocks: seq<Block>, verdict: Verdict)

  /** The loop from turn `k` on; `turns(i)` is what the clock and the model do at turn i. */
  function LoopFrom(s: State, t: Settings, turns: nat -> Turn, k: nat): Looped
    decreases AtLeastZero(t.maxSteps) - k
  {
    if turns(k).late || s.count >= t.maxToolCalls || k >= t.maxSteps then Looped(s, [], LimitReached)
    else match turns(k).reply
      case LlmFails => Looped(s, [], LimitReached)
      case Unsupported => Looped(s, [], Escapes)
      case Says(calls) =>
        var s', b := TakenAll(s, calls, t), Block(calls, AnswersTo(s, calls, t));
        if calls == [] then Looped(s', [b], Finished)
        else if AnyRefused(s, calls, t) then Looped(s', [b], LimitReached)
        else After([b], LoopFrom(s', t, turns, k + 1))
  }

  /** What is already said, before what the rest of the loop says. */
  function After(blocks: seq<Block>, rest: Looped): Looped { rest.(blocks := blocks + rest.blocks) }

  lemma AfterJoins(blocks: seq<Block>, b: Block, rest: Looped)
    ensures After(blocks, After([b], rest)) == After(blocks + [b], rest)
  {
    assert blocks + ([b] + rest.blocks) == blocks + [b] + rest.blocks;
  }

  lemma {:induction false} LaterRowsBackAll(rows: seq<ToolRow>, later: seq<ToolRow>, blocks: seq<Block>,
                                            rest: seq<Block>)
    requires rows <= later && AllBacked(rows, blocks) && AllBacked(later, rest)
    ensures AllBacked(later, blocks + rest)
  {
    hide Backed;
    var all := blocks + rest;
    forall i, j | 0 <= i < |all| && 0 <= j < |all[i].answers| && all[i].answers[j].Wrapped?
      ensures Backed(later, all[i].answers[j]) && j < |all[i].calls| && all[i].answers[j].tool == all[i].calls[j].tool
    {
      if i < |blocks| {
        assert all[i] == blocks[i];
        LaterRowsBack(rows, later, blocks[i].answers[j]);
      } else {
        assert all[i] == rest[i - |blocks|];
      }
    }
  }

  lemma {:induction false} OneBlock(s: State, calls: seq<Call>, t: Settings)
    requires Inv(s, t)
    ensures var s', b := TakenAll(s, calls, t), Block(calls, AnswersTo(s, calls, t));
            Inv(s', t) && s.rows <= s'.rows && Complete([b]) && AllBacked(s'.rows, [b])
  {
    hide Inv, TakenAll, AnswersTo, Backed;
    TakenAllKeepsInv(s, calls, t);
    BackedOneMore(s, [], calls, t);
    assert [] + [Block(calls, AnswersTo(s, calls, t))] == [Block(calls, AnswersTo(s, calls, t))];
  }

  lemma CompleteJoins(a: seq<Block>, b: seq<Block>)
    requires Complete(a) && Complete(b)
    ensures Complete(a + b)
  {}

  /** What the loop promises from turn `k` on: it keeps the invariant and the rows, stays within the
      configured steps, answers every call once, tells only results backed by successful rows, and
      finishes only with a message without calls. */
  ghost predicate LoopOk(s: State, t: Settings, k: nat, r: Looped) {
    && Inv(r.state, t) && s.rows <= r.state.rows && |r.blocks| <= AtLeastZero(t.maxSteps - k)
    && Complete(r.blocks) && AllBacked(r.state.rows, r.blocks)
    && (r.verdict.Finished? ==> r.blocks != [] && r.blocks[|r.blocks| - 1].calls == [])
  }

  lemma StopIsOk(s: State, t: Settings, k: nat, v: Verdict)
    requires Inv(s, t) && !v.Finished?
    ensures LoopOk(s, t, k, Looped(s, [], v))
  {
    hide Inv;
  }

  lemma {:induction false} BlockIsOk(s: State, calls: seq<Call>, t: Settings, k: nat, v: Verdict)
    requires Inv(s, t) && k < t.maxSteps && (v.Finished? ==> calls == [])
    ensures LoopOk(s, t, k, Looped(TakenAll(s, calls, t), [Block(calls, AnswersTo(s, calls, t))], v))
  {
    OneBlock(s, calls, t);
    hide Inv, TakenAll, AnswersTo, AllBacked, Complete;
  }

  lemma {:induction false} JoinIsOk(s: State, calls: seq<Call>, t: Settings, k: nat, rest: Looped)
    requires Inv(s, t) && k < t.maxSteps && LoopOk(TakenAll(s, calls, t), t, k + 1, rest)
    ensures LoopOk(s, t, k, After([Block(calls, AnswersTo(s, calls, t))], rest))
  {
    OneBlock(s, calls, t);
    hide Inv, TakenAll, AnswersTo, AllBacked, Complete;
    LaterRowsBackAll(TakenAll(s, calls, t).rows, rest.state.rows, [Block(calls, AnswersTo(s, calls, t))], rest.blocks);
    CompleteJoins([Block(calls, AnswersTo(s, calls, t))], rest.blocks);
  }

  /** Every run of the loop keeps its promises. */
  lemma {:induction false} LoopKeeps(s: State, t: Settings, turns: nat -> Turn, k: nat)
    requires Inv(s, t)
    ensures LoopOk(s, t, k, LoopFrom(s, t, turns, k))
    decreases AtLeastZero(t.maxSteps) - k
  {
    hide LoopOk, TakenAll, AnswersTo, AnyRefused, After;
    StopIsOk(s, t, k, LimitReached);
    StopIsOk(s, t, k, Escapes);
    if !turns(k).late && s.count < t.maxToolCalls && k < t.maxSteps && turns(k).reply.Says? {
      var calls := turns(k).reply.calls;
      assert Inv(TakenAll(s, calls, t), t) by { TakenAllKeepsInv(s, calls, t); }
      hide Inv;
      if calls == [] {
        BlockIsOk(s, calls, t, k, Finished);
      } else if AnyRefused(s, calls, t) {
        BlockIsOk(s, calls, t, k, LimitReached);
      } else {
        LoopKeeps(TakenAll(s, calls, t), t, turns, k + 1);
        JoinIsOk(s, calls, t, k, LoopFrom(TakenAll(s, calls, t), t, turns, k + 1));
      }
    }
  }

  // ---- How the loop ends ----

  /** The state after the calls of these messages, one message after the other. */
  function StateAfter(s: State, blocks: seq<Block>, t: Settings): State
    decreases |blocks|
  {
    if blocks == [] then s else
    TakenAll(StateAfter(s, blocks[..|blocks| - 1], t), blocks[|blocks| - 1].calls, t)
  }

  lemma {:induction false} StateAfterFirst(s: State, b: Block, rest: seq<Block>, t: Settings)
    ensures StateAfter(s, [b] + rest, t) == StateAfter(TakenAll(s, b.calls, t), rest, t)
    decreases |rest|
  {
    hide TakenAll;
    if rest == [] {
      assert [b] + rest == [b] && [b][..0] == [];
    } else {
      var front := rest[..|rest| - 1];
      assert ([b] + rest)[..|rest|] == [b] + front;
      StateAfterFirst(s, b, front, t);
    }
  }

  /** Turn `k` is reached with time, budget and steps left. */
  predicate WithinLimits(s: State, t: Settings, turns: nat -> Turn, k: nat) {
    !turns(k).late && s.count < t.maxToolCalls && k < t.maxSteps
  }

  /** A call of this message was refused for time or budget. */
  predicate HasRefusal(b: Block) {
    exists i | 0 <= i < |b.answers| :: b.answers[i] == Failure(LoopLimit)
  }

  /** Message i was asked for within the limits, is what the model said at its turn, answered in the
      state the messages before it left, and neither empty nor refused, unless it is the last. */
  ghost predicate GoesOn(s: State, t: Settings, turns: nat -> Turn, k: nat, blocks: seq<Block>, i: nat)
    requires i < |blocks|
  {
    && WithinLimits(StateAfter(s, blocks[..i], t), t, turns, k + i)
    && turns(k + i).reply == Says(blocks[i].calls)
    && blocks[i].answers == AnswersTo(StateAfter(s, blocks[..i], t), blocks[i].calls, t)
    && (i < |blocks| - 1 ==> blocks[i].calls != [] && !HasRefusal(blocks[i]))
  }

  /** The last message neither ends the talk nor was cut short. */
  predicate AsksAgain(blocks: seq<Block>) {
    blocks == [] || (blocks[|blocks| - 1].calls != [] && !HasRefusal(blocks[|blocks| - 1]))
  }

  /** The end of the loop, read off the turns and the messages: it finishes exactly on a message
      without calls, escapes exactly when the model refuses tools at a turn within the limits, and
      stops at a limit exactly when a call was refused, or the next turn is beyond a limit or its
      request fails. */
  ghost predicate EndsRightly(s: State, t: Settings, turns: nat -> Turn, k: nat, r: Looped) {
    var m := |r.blocks|;
    && (forall i | 0 <= i < m :: GoesOn(s, t, turns, k, r.blocks, i))
    && r.state == StateAfter(s, r.blocks, t)
    && (r.verdict.Finished? <==> m > 0 && r.blocks[m - 1].calls == [])
    && (r.verdict.Escapes? <==>
          AsksAgain(r.blocks) && WithinLimits(r.state, t, turns, k + m) && turns(k + m).reply == Unsupported)
    && (r.verdict.LimitReached? <==>
          || (m > 0 && HasRefusal(r.blocks[m - 1]))
          || (AsksAgain(r.blocks) && (!WithinLimits(r.state, t, turns, k + m) || turns(k + m).reply == LlmFails)))
  }

  /** Cached answers are results, and tools do not raise the limit. */
  lemma {:induction false} RefusedTellsLimit(s: State, c: Call, t: Settings)
    requires Inv(s, t)
    ensures Taken(s, c, t).1 == Failure(LoopLimit) <==> Refused(s, c, t)
  {
    if c.args.Some? && IsCached(s, c) { assert Backed(s.rows, s.cache[(c.tool, c.args.value)]); }
    hide Backed, SucceededAs, Successes;
  }

  lemma {:induction false} RefusalShows(s: State, calls: seq<Call>, t: Settings)
    requires Inv(s, t)
    ensures AnyRefused(s, calls, t) <==> HasRefusal(Block(calls, AnswersTo(s, calls, t)))
    decreases |calls|
  {
    if calls == [] { return; }
    var front, last := calls[..|calls| - 1], calls[|calls| - 1];
    hide Inv, Taken, Refused, TakenAll;
    RefusalShows(s, front, t);
    TakenAllKeepsInv(s, front, t);
    RefusedTellsLimit(TakenAll(s, front, t), last, t);
    var a, b := AnswersTo(s, front, t), AnswersTo(s, calls, t);
    assert b == a + [Taken(TakenAll(s, front, t), last, t).1];
    assert forall i | 0 <= i < |a| :: b[i] == a[i];
    assert b[|a|] == Taken(TakenAll(s, front, t), last, t).1;
  }

  lemma {:induction false} EndsAtOnce(s: State, t: Settings, turns: nat -> Turn, k: nat)
    requires Inv(s, t) && !(WithinLimits(s, t, turns, k) && turns(k).reply.Says?)
    ensures EndsRightly(s, t, turns, k, LoopFrom(s, t, turns, k))
  {
    hide Inv;
  }

  /** The message is the last one. */
  lemma {:induction false} EndsWithMessage(s: State, t: Settings, turns: nat -> Turn, k: nat, calls: seq<Call>)
    requires Inv(s, t) && WithinLimits(s, t, turns, k) && turns(k).reply == Says(calls)
    requires calls == [] || AnyRefused(s, calls, t)
    ensures EndsRightly(s, t, turns, k, LoopFrom(s, t, turns, k))
  {
    RefusalShows(s, calls, t);
    var b := Block(calls, AnswersTo(s, calls, t));
    StateAfterFirst(s, b, [], t);
    assert [b] + [] == [b] && [b][..0] == [];
    assert calls == [] ==> !AnyRefused(s, calls, t);
    hide Inv, TakenAll, AnyRefused;
  }

  lemma {:induction false} GoesOnLater(
    s: State, t: Settings, turns: nat -> Turn, k: nat, calls: seq<Call>, rest: Looped, i: nat)
    requires WithinLimits(s, t, turns, k) && turns(k).reply == Says(calls)
    requires calls != [] && !HasRefusal(Block(calls, AnswersTo(s, calls, t)))
    requires EndsRightly(TakenAll(s, calls, t), t, turns, k + 1, rest) && i <= |rest.blocks|
    ensures GoesOn(s, t, turns, k, [Block(calls, AnswersTo(s, calls, t))] + rest.blocks, i)
  {
    hide TakenAll, HasRefusal, WithinLimits, AnswersTo;
    var b := Block(calls, AnswersTo(s, calls, t));
    var all := [b] + rest.blocks;
    if i == 0 {
      assert all[..0] == [];
    } else {
      assert GoesOn(TakenAll(s, calls, t), t, turns, k + 1, rest.blocks, i - 1);
      assert all[..i] == [b] + rest.blocks[..i - 1] && all[i] == rest.blocks[i - 1];
      StateAfterFirst(s, b, rest.blocks[..i - 1], t);
      hide StateAfter;
    }
  }

  lemma {:induction false} EndsLater(s: State, t: Settings, turns: nat -> Turn, k: nat, calls: seq<Call>, rest: Looped)
    requires Inv(s, t) && WithinLimits(s, t, turns, k) && turns(k).reply == Says(calls)
    requires calls != [] && !AnyRefused(s, calls, t)
    requires EndsRightly(TakenAll(s, calls, t), t, turns, k + 1, rest)
    ensures EndsRightly(s, t, turns, k, After([Block(calls, AnswersTo(s, calls, t))], rest))
  {
    var b := Block(calls, AnswersTo(s, calls, t));
    var all := [b] + rest.blocks;
    assert !HasRefusal(b) by { RefusalShows(s, calls, t); }
    hide Inv, TakenAll, AnyRefused, HasRefusal, WithinLimits, AnswersTo;
    StateAfterFirst(s, b, rest.blocks, t);
    forall i | 0 <= i < |all| ensures GoesOn(s, t, turns, k, all, i) {
      GoesOnLater(s, t, turns, k, calls, rest, i);
    }
    assert AsksAgain(all) <==> AsksAgain(rest.blocks);
    hide GoesOn, StateAfter, AsksAgain;
  }

  /** Every run of the loop ends as the turns and the refusals make it end. */
  lemma {:induction false} LoopEndsExactlyWhen(s: State, t: Settings, turns: nat -> Turn, k: nat)
    requires Inv(s, t)
    ensures EndsRightly(s, t, turns, k, LoopFrom(s, t, turns, k))
    decreases AtLeastZero(t.maxSteps) - k
  {
    hide EndsRightly, TakenAll, AnswersTo, AnyRefused, After;
    if !(WithinLimits(s, t, turns, k) && turns(k).reply.Says?) {
      EndsAtOnce(s, t, turns, k);
    } else {
      var calls := turns(k).reply.calls;
      assert Inv(TakenAll(s, calls, t), t) by { TakenAllKeepsInv(s, calls, t); }
      hide Inv;
      if calls == [] || AnyRefused(s, calls, t) {
        EndsWithMessage(s, t, turns, k, calls);
      } else {
        LoopEndsExactlyWhen(TakenAll(s, calls, t), t, turns, k + 1);
        EndsLater(s, t, turns, k, calls, LoopFrom(TakenAll(s, calls, t), t, turns, k + 1));
      }
    }
  }

  // ---- Evidence references ----

  datatype Ref = Ref(toolCallId: Option<string>, note: string)

  datatype Item = Item(text: string, refs: seq<Ref>)

  datatype Payload = Payload(findings: seq<Item>, causes: seq<Item>, limitations: seq<string>)

  const CLOSING_NOTE := "Produce the final structured analysis now."

  const DROPPED_NOTE := "Some source references were removed because they match no actual tool call."

  predicate IsGrounded(r: Ref, codes: set<string>) {
    r.toolCallId.Some? && r.toolCallId.value in codes
  }

  function Grounded(refs: seq<Ref>, codes: set<string>): seq<Ref>
    decreases |refs|
  {
    if refs == [] then [] else
    Grounded(refs[..|refs| - 1], codes) + if IsGrounded(refs[|refs| - 1], codes) then [refs[|refs| - 1]] else []
  }

  /** `kept` is `refs` without its ungrounded members: nothing else is lost, added or moved. */
  ghost predicate Sieved(refs: seq<Ref>, kept: seq<Ref>, codes: set<string>, at: seq<nat>) {
    && |at| == |kept|
    && (forall i, j | 0 <= i < j < |at| :: at[i] < at[j])
    && (forall i | 0 <= i < |at| :: at[i] < |refs| && kept[i] == refs[at[i]] && IsGrounded(kept[i], codes))
    && (forall j | 0 <= j < |refs| && IsGrounded(refs[j], codes) :: j in at)
  }

  lemma {:induction false} GroundedIsSieved(refs: seq<Ref>, codes: set<string>) returns (at: seq<nat>)
    ensures Sieved(refs, Grounded(refs, codes), codes, at)
    decreases |refs|
  {
    at := [];
    if refs != [] {
      var front, last := refs[..|refs| - 1], refs[|refs| - 1];
      var at' := GroundedIsSieved(front, codes);
      at := at' + if IsGrounded(last, codes) then [|front|] else [];
      assert refs == front + [last];
      var kept := Grounded(front, codes);
      assert Grounded(refs, codes) == kept + if IsGrounded(last, codes) then [last] else [];
      hide *;
      SievedOneMore(front, kept, last, codes, at');
    }
  }

  lemma {:induction false} SievedOneMore(refs: seq<Ref>, kept: seq<Ref>, last: Ref, codes: set<string>, at: seq<nat>)
    requires Sieved(refs, kept, codes, at)
    ensures Sieved(refs + [last], kept + (if IsGrounded(last, codes) then [last] else []), codes,
                   at + if IsGrounded(last, codes) then [|refs|] else [])
  {
    hide IsGrounded;
    var all, at' := refs + [last], at + if IsGrounded(last, codes) then [|refs|] else [];
    forall j | 0 <= j < |all| && IsGrounded(all[j], codes) ensures j in at' {
      if j < |refs| { assert IsGrounded(refs[j], codes) && j in at; } else { assert at'[|at|] == j; }
    }
  }

  lemma {:induction false} GroundedLength(refs: seq<Ref>, codes: set<string>)
    ensures |Grounded(refs, codes)| <= |refs|
    ensures |Grounded(refs, codes)| == |refs| <==> forall j | 0 <= j < |refs| :: IsGrounded(refs[j], codes)
    decreases |refs|
  {
    if refs != [] {
      var front := refs[..|refs| - 1];
      assert forall j | 0 <= j < |front| :: front[j] == refs[j];
      GroundedLength(front, codes);
      hide IsGrounded;
    }
  }

  predicate AllGrounded(items: seq<Item>, codes: set<string>) {
    forall i, j | 0 <= i < |items| && 0 <= j < |items[i].refs| :: IsGrounded(items[i].refs[j], codes)
  }

  /** Every item keeps its text and its grounded references. */
  predicate CleanedFrom(items: seq<Item>, cleaned: seq<Item>, codes: set<string>) {
    |cleaned| == |items| && forall i | 0 <= i < |items| ::
      cleaned[i] == Item(items[i].text, Grounded(items[i].refs, codes))
  }

  method CleanItems(items: seq<Item>, codes: set<string>) returns (cleaned: seq<Item>, dropped: bool)
    ensures CleanedFrom(items, cleaned, codes) && AllGrounded(cleaned, codes)
    ensures dropped <==> !AllGrounded(items, codes)
  {
    cleaned, dropped := [], false;
    var i := 0;
    while i < |items|
      invariant 0 <= i <= |items| && CleanedFrom(items[..i], cleaned, codes)
      invariant AllGrounded(cleaned, codes) && (dropped <==> !AllGrounded(items[..i], codes))
    {
      var refs := items[i].refs;
      var kept := Grounded(refs, codes);
      ghost var at := GroundedIsSieved(refs, codes);
      GroundedLength(refs, codes);
      ghost var front := items[..i];
      assert items[..i + 1] == front + [items[i]];
      assert AllGrounded(items[..i + 1], codes) <==> AllGrounded(front, codes) && |kept| == |refs| by {
        assert forall x | 0 <= x < i :: items[..i + 1][x] == front[x];
        assert items[..i + 1][i].refs == refs;
      }
      dropped := dropped || |kept| != |refs|;
      cleaned := cleaned + [Item(items[i].text, kept)];
      i := i + 1;
    }
    assert items[..i] == items;
  }

  /** _sanitize_source_refs: afterwards every reference left names a known code, kept references
      are the original ones in the original order, and the note is added exactly when one was dropped. */
  method Sanitize(p: Payload, codes: set<string>) returns (clean: Payload)
    ensures CleanedFrom(p.findings, clean.findings, codes) && CleanedFrom(p.causes, clean.causes, codes)
    ensures AllGrounded(clean.findings, codes) && AllGrounded(clean.causes, codes)
    ensures clean.limitations ==
              if AllGrounded(p.findings, codes) && AllGrounded(p.causes, codes) then p.limitations
              else p.limitations + [DROPPED_NOTE]
  {
    var findings, droppedFinding := CleanItems(p.findings, codes);
    var causes, droppedCause := CleanItems(p.causes, codes);
    clean := Payload(findings, causes, if droppedFinding || droppedCause then p.limitations + [DROPPED_NOTE]
                     else p.limitations);
  }

  /** Every reference names a successful row. */
  ghost predicate NameSuccesses(items: seq<Item>, rows: seq<ToolRow>) {
    forall i, j | 0 <= i < |items| && 0 <= j < |items[i].refs| ::
      items[i].refs[j].toolCallId.Some? && SucceededAs(rows, items[i].refs[j].toolCallId.value)
  }

  // ---- The loop as it runs ----

  /** What one try at the structured answer meets: an error that is caught, the refusal of tools that
      is not, or an answer. */
  datatype Final = Invalid | ToolsUnsupported | Answers(payload: Payload)

  /** The second try follows only a caught error. */
  function Decisive(first: Final, second: Final): Final { if first.Invalid? then second else first }

  datatype Result = Escaped | Done(payload: Option<Payload>, warned: bool)

  class Analysis {
    const settings: Settings
    var cache: map<(string, string), Content>
    var codes: set<string>
    var count: nat
    var callIndex: nat
    var rows: seq<ToolRow>
    var messages: seq<Message>

    constructor (settings: Settings)
      ensures this.settings == settings && Value() == EMPTY && callIndex == 0 && messages == []
    {
      this.settings := settings;
      cache, codes, count, callIndex, rows, messages := map[], {}, 0, 0, [], [];
    }

    ghost function Value(): State
      reads this
    {
      State(cache, codes, count, rows)
    }

    method SaveToolCall(c: Call, outcome: Outcome, result: Option<string>, fault: Option<Fault>)
      requires callIndex == |rows|
      modifies this`callIndex, this`rows, this`codes
      ensures callIndex == |rows|
      ensures rows == old(rows) + [Row(old(Value()), c, outcome, result, fault)]
      ensures codes == if outcome == Success then old(codes) + {c.code} else old(codes)
    {
      callIndex := callIndex + 1;
      rows := rows + [ToolRow(c.code, callIndex, RowTool(c), outcome, result, fault)];
      if outcome == Success { codes := codes + {c.code}; }
    }

    method ExecuteToolCall(c: Call) returns (content: Content)
      requires callIndex == |rows|
      modifies this`cache, this`codes, this`count, this`callIndex, this`rows
      ensures callIndex == |rows| && (Value(), content) == Executed(old(Value()), c, settings)
    {
      if c.args.None? {
        SaveToolCall(c, Error, None, Some(InvalidToolCall));
        return Failure(InvalidToolCall);
      }
      if c.tool !in settings.tools {
        SaveToolCall(c, Error, None, Some(ToolNotFound));
        return Failure(ToolNotFound);
      }
      var key := (c.tool, c.args.value);
      if key in cache { return cache[key]; }
      match c.effect {
        case Raises(kind) =>
          SaveToolCall(c, Error, None, Some(ToolFault(kind)));
          return Failure(ToolFault(kind));
        case Crashes =>
          SaveToolCall(c, Error, None, Some(UnexpectedFault));
          return Failure(UnexpectedFault);
        case Returns(result, ms) =>
          if ms > settings.toolTimeoutMs {
            SaveToolCall(c, Timeout, Some(result), Some(ToolTimeout));
            return Failure(ToolTimeout);
          }
          count := count + 1;
          SaveToolCall(c, Success, Some(result), None);
          content := Wrapped(c.code, c.tool, result);
          cache := cache[key := content];
      }
    }

    /** One call, refused once the budget or the deadline is hit. */
    method TakeCall(c: Call) returns (refused: bool, content: Content)
      requires callIndex == |rows|
      modifies this`cache, this`codes, this`count, this`callIndex, this`rows
      ensures callIndex == |rows| && (Value(), content) == Taken(old(Value()), c, settings)
      ensures refused == Refused(old(Value()), c, settings)
    {
      if c.late || count >= settings.maxToolCalls { return true, Failure(LoopLimit); }
      content := ExecuteToolCall(c);
      refused := false;
    }

    /** The calls of one assistant message: refused or run, each is answered. */
    method AnswerCalls(calls: seq<Call>) returns (limitReached: bool)
      requires callIndex == |rows|
      modifies this
      ensures callIndex == |rows| && Value() == TakenAll(old(Value()), calls, settings)
      ensures messages == old(messages) + Told(old(Value()), calls, settings)
      ensures limitReached == AnyRefused(old(Value()), calls, settings)
    {
      limitReached := false;
      ghost var s0 := Value();
      var i := 0;
      while i < |calls|
        invariant 0 <= i <= |calls| && callIndex == |rows|
        invariant Value() == TakenAll(s0, calls[..i], settings)
        invariant messages == old(messages) + Told(s0, calls[..i], settings)
        invariant limitReached == AnyRefused(s0, calls[..i], settings)
      {
        hide TakenAll, Told, AnyRefused, Taken, Refused;
        ghost var front, told := calls[..i], Told(s0, calls[..i], settings);
        assert calls[..i + 1] == front + [calls[i]];
        OneMoreAnswer(s0, front, calls[i], settings);
        var refused, content := TakeCall(calls[i]);
        limitReached := limitReached || refused;
        messages := messages + [Answer(calls[i].id, content)];
        assert messages == old(messages) + (told + [Answer(calls[i].id, content)]);
        i := i + 1;
      }
      assert calls[..i] == calls;
    }

    /** One message of the model: it joins the transcript, with the answers to its calls. */
    method TakeTurn(calls: seq<Call>, ghost blocks: seq<Block>, ghost opening: seq<Message>)
      returns (limitReached: bool)
      requires callIndex == |rows| && Complete(blocks) && messages == opening + Transcript(blocks)
      modifies this
      ensures callIndex == |rows| && Value() == TakenAll(old(Value()), calls, settings)
      ensures var more := blocks + [Block(calls, AnswersTo(old(Value()), calls, settings))];
              Complete(more) && messages == opening + Transcript(more)
      ensures limitReached == AnyRefused(old(Value()), calls, settings)
    {
      hide TakenAll, AnswersTo, Complete, Transcript, AnswersOf, AnyRefused;
      ghost var block, told := Block(calls, AnswersTo(Value(), calls, settings)), Transcript(blocks);
      TranscriptOneMore(blocks, block);
      messages := messages + [Assistant(calls)];
      limitReached := AnswerCalls(calls);
      assert messages == opening + (told + [Assistant(calls)] + AnswersOf(block));
    }

    /** The loop as it runs: it does what the loop function says, and the transcript is what the
        messages of the model and the answers to their calls make it. */
    method Loop(turns: nat -> Turn) returns (verdict: Verdict, ghost blocks: seq<Block>)
      requires callIndex == |rows|
      modifies this
      ensures callIndex == |rows| && Looped(Value(), blocks, verdict) == LoopFrom(old(Value()), settings, turns, 0)
      ensures Complete(blocks) && messages == old(messages) + Transcript(blocks)
    {
      ghost var s0, opening := Value(), messages;
      var turn := 0;
      blocks := [];
      while true
        invariant 0 <= turn <= AtLeastZero(settings.maxSteps) && callIndex == |rows|
        invariant LoopFrom(s0, settings, turns, 0) == After(blocks, LoopFrom(Value(), settings, turns, turn))
        invariant Complete(blocks) && messages == opening + Transcript(blocks)
        decreases AtLeastZero(settings.maxSteps) - turn
      {
        hide TakenAll, AnswersTo, Complete, Transcript, AnyRefused;
        if turns(turn).late || count >= settings.maxToolCalls || turn >= settings.maxSteps {
          return LimitReached, blocks;
        }
        match turns(turn).reply {
          case LlmFails => return LimitReached, blocks;
          case Unsupported => return Escapes, blocks;
          case Says(calls) =>
            ghost var block := Block(calls, AnswersTo(Value(), calls, settings));
            AfterJoins(blocks, block, LoopFrom(TakenAll(Value(), calls, settings), settings, turns, turn + 1));
            turn := turn + 1;
            var limitReached := TakeTurn(calls, blocks, opening);
            blocks := blocks + [block];
            if calls == [] { return Finished, blocks; }
            if limitReached { return LimitReached, blocks; }
        }
      }
    }

    /** _finalize: at most two tries at a structured answer, whose references are sieved.  A refusal
        of tools is not caught here and escapes. */
    method Finalize(limitReached: bool, first: Final, second: Final) returns (r: Result)
      modifies this`messages
      ensures messages == old(messages) + [User(CLOSING_NOTE)]
      ensures r.Escaped? <==> Decisive(first, second).ToolsUnsupported?
      ensures r.Done? ==>
                (r.payload.Some? <==> Decisive(first, second).Answers?) && r.warned == (r.payload.Some? && limitReached)
      ensures r.Done? && r.payload.Some? ==>
                var p := Decisive(first, second).payload;
                && CleanedFrom(p.findings, r.payload.value.findings, codes)
                && CleanedFrom(p.causes, r.payload.value.causes, codes)
                && AllGrounded(r.payload.value.findings, codes) && AllGrounded(r.payload.value.causes, codes)
                && r.payload.value.limitations ==
                   p.limitations
                   + if AllGrounded(p.findings, codes) && AllGrounded(p.causes, codes) then [] else [DROPPED_NOTE]
    {
      messages := messages + [User(CLOSING_NOTE)];
      var attempt := 1;
      while attempt <= 2
        invariant 1 <= attempt <= 3 && (attempt > 1 ==> first.Invalid?) && (attempt > 2 ==> second.Invalid?)
      {
        match (if attempt == 1 then first else second) {
          case Invalid => attempt := attempt + 1;
          case ToolsUnsupported => return Escaped;
          case Answers(p) =>
            var clean := Sanitize(p, codes);
            return Done(Some(clean), limitReached);
        }
      }
      return Done(None, false);
    }

    /** A whole analysis from the first message to the payload: the budget holds, steps are numbered
        without gaps, the transcript is answered call by call, and every reference in the payload
        names a successful tool call of this analysis. */
    method Run(turns: nat -> Turn, first: Final, second: Final) returns (r: Result, ghost blocks: seq<Block>)
      requires Value() == EMPTY && callIndex == 0 && messages == [] && "" !in settings.tools
      modifies this
      ensures count == Successes(rows) && count <= AtLeastZero(settings.maxToolCalls)
      ensures forall i | 0 <= i < |rows| :: rows[i].step == i + 1
      ensures |blocks| <= AtLeastZero(settings.maxSteps) && Complete(blocks)
      ensures [System, User("context")] + Transcript(blocks) <= messages
      ensures AllBacked(rows, blocks)
      ensures var run := LoopFrom(EMPTY, settings, turns, 0);
              && Value() == run.state && blocks == run.blocks && EndsRightly(EMPTY, settings, turns, 0, run)
              && (r.Escaped? <==> run.verdict.Escapes? || Decisive(first, second).ToolsUnsupported?)
              && (r.Done? && r.payload.Some? ==> r.warned == run.verdict.LimitReached?)
      ensures r.Done? && r.payload.Some? ==>
                && NameSuccesses(r.payload.value.findings, rows) && NameSuccesses(r.payload.value.causes, rows)
    {
      messages := [System, User("context")];
      LoopKeeps(EMPTY, settings, turns, 0);
      LoopEndsExactlyWhen(EMPTY, settings, turns, 0);
      hide EndsRightly;
      var verdict;
      verdict, blocks := Loop(turns);
      if verdict.Escapes? { return Escaped, blocks; }
      r := Finalize(verdict.LimitReached?, first, second);
    }
  }
}
