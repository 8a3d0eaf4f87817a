/** The sliding-window rate limiter.  The clock is read before the lock is taken, so the times of
    one key's calls may go back; how far they may is the skew. */
module RateLimiter {

  datatype Reply = Admitted | Rejected(retryAfter: int) | IndexError

  /** Hits strictly older than the cutoff leave at the front. */
  function Popped(bucket: seq<real>, cutoff: real): (n: nat)
    ensures n <= |bucket|
    ensures forall i | 0 <= i < n :: bucket[i] < cutoff
    ensures n < |bucket| ==> bucket[n] >= cutoff
    decreases |bucket|
  {
    if bucket == [] || bucket[0] >= cutoff then 0 else 1 + Popped(bucket[1..], cutoff)
  }

  function Kept(bucket: seq<real>, now: real, window: real): seq<real> {
    bucket[Popped(bucket, now - window)..]
  }

  function ReplyTo(bucket: seq<real>, now: real, limit: int, window: real): Reply {
    var kept := Kept(bucket, now, window);
    if |kept| < limit then Admitted
    else if kept == [] then IndexError
    else
      var whole := (kept[0] + window - now).Floor + 1;
      Rejected(if whole > 1 then whole else 1)
  }

  function After(bucket: seq<real>, now: real, limit: int, window: real): seq<real> {
    Kept(bucket, now, window) + if |Kept(bucket, now, window)| < limit then [now] else []
  }

  lemma HeadLeaves(bucket: seq<real>, now: real, window: real)
    requires bucket != [] && bucket[0] < now - window
    ensures Kept(bucket[1..], now, window) == Kept(bucket, now, window)
  {}

  /** From `now` on, `wait` is the least whole number of seconds, one at least, after which `oldest`
      has left the window. */
  predicate LeavesAfter(oldest: real, window: real, now: real, wait: int) {
    && wait >= 1 && oldest + window < now + wait as real
    && (wait > 1 ==> oldest + window >= now + (wait - 1) as real)
  }

  /** What a reply says of the bucket it leaves. */
  predicate Tells(reply: Reply, bucket: seq<real>, now: real, limit: int, window: real) {
    match reply
    case Admitted => bucket != [] && bucket[|bucket| - 1] == now && |bucket| <= limit
    case Rejected(wait) => bucket != [] && |bucket| >= limit && LeavesAfter(bucket[0], window, now, wait)
    case IndexError => bucket == [] && limit <= 0
  }

  /** The hits a bucket keeps are its last ones, from the first that is not older than the window. */
  ghost predicate KeepsRecent(bucket: seq<real>, kept: seq<real>, now: real, window: real) {
    && |kept| <= |bucket| && kept == bucket[|bucket| - |kept|..]
    && (forall i | 0 <= i < |bucket| - |kept| :: bucket[i] + window < now)
    && (kept != [] ==> kept[0] + window >= now)
  }

  lemma {:induction false} ReplyTells(bucket: seq<real>, now: real, limit: int, window: real)
    ensures Tells(ReplyTo(bucket, now, limit, window), After(bucket, now, limit, window), now, limit, window)
    ensures var added := if ReplyTo(bucket, now, limit, window).Admitted? then [now] else [];
            exists kept :: KeepsRecent(bucket, kept, now, window) && After(bucket, now, limit, window) == kept + added
  {
    var kept := Kept(bucket, now, window);
    assert KeepsRecent(bucket, kept, now, window);
    hide Kept, KeepsRecent;
    if |kept| >= limit {
      assert kept + [] == kept;
      if kept != [] {
        var slack := kept[0] + window - now;
        assert slack.Floor as real <= slack < slack.Floor as real + 1.0;
      }
    }
  }

  class SlidingWindowLimiter {
    var hits: map<string, seq<real>>

    constructor ()
      ensures hits == map[]
    {
      hits := map[];
    }

    function Bucket(key: string): seq<real>
      reads this
    {
      if key in hits then hits[key] else []
    }

    /** One call, `now` being the time read before the lock was taken. */
    method Check(key: string, limit: int, window: real, now: real) returns (reply: Reply)
      modifies this
      ensures reply == ReplyTo(old(Bucket(key)), now, limit, window)
      ensures Bucket(key) == After(old(Bucket(key)), now, limit, window)
      ensures forall k | k != key :: Bucket(k) == old(Bucket(k))
      ensures Tells(reply, Bucket(key), now, limit, window)
      ensures exists kept :: KeepsRecent(old(Bucket(key)), kept, now, window)
                             && Bucket(key) == kept + if reply.Admitted? then [now] else []
    {
      ReplyTells(Bucket(key), now, limit, window);
      var bucket := Bucket(key);
      hits := hits[key := bucket];
      var cutoff := now - window;
      ghost var all := bucket;
      while bucket != [] && bucket[0] < cutoff
        invariant hits == old(hits)[key := bucket]
        invariant Kept(bucket, now, window) == Kept(all, now, window)
        decreases |bucket|
      {
        HeadLeaves(bucket, now, window);
        bucket := bucket[1..];
        hits := hits[key := bucket];
      }
      assert Kept(bucket, now, window) == bucket;
      hide Kept;
      if |bucket| >= limit {
        if bucket == [] { return IndexError; }
        var whole := (bucket[0] + window - now).Floor + 1;
        return Rejected(if whole > 1 then whole else 1);
      }
      hits := hits[key := bucket + [now]];
      return Admitted;
    }

    method Reset()
      modifies this
      ensures forall k :: Bucket(k) == []
    {
      hits := map[];
    }
  }

  // ---- All calls for one key, in lock order ----

  /** What the calls have left: the admitted hits in lock order, and how many of them have been popped. */
  datatype History = History(hits: seq<real>, popped: nat)

  function Step(h: History, now: real, limit: int, window: real): History
    requires h.popped <= |h.hits|
  {
    var bucket := h.hits[h.popped..];
    History(h.hits + if |Kept(bucket, now, window)| < limit then [now] else [],
            h.popped + Popped(bucket, now - window))
  }

  function Called(times: seq<real>, limit: int, window: real): (h: History)
    ensures h.popped <= |h.hits|
    decreases |times|
  {
    if times == [] then History([], 0)
    else Step(Called(times[..|times| - 1], limit, window), times[|times| - 1], limit, window)
  }

  function BucketAfter(times: seq<real>, limit: int, window: real): seq<real> {
    var h := Called(times, limit, window);
    h.hits[h.popped..]
  }

  lemma {:induction false} OneMoreCall(times: seq<real>, now: real, limit: int, window: real)
    ensures Called(times + [now], limit, window) == Step(Called(times, limit, window), now, limit, window)
  {
    assert (times + [now])[..|times|] == times;
    hide Step;
  }

  /** The history is faithful to the bucket: it replays what `Check` does to it, call by call. */
  lemma {:induction false} HistoryIsBucket(times: seq<real>, now: real, limit: int, window: real)
    ensures BucketAfter(times + [now], limit, window) == After(BucketAfter(times, limit, window), now, limit, window)
    ensures Called(times + [now], limit, window).hits ==
              Called(times, limit, window).hits
              + if ReplyTo(BucketAfter(times, limit, window), now, limit, window).Admitted? then [now] else []
  {
    OneMoreCall(times, now, limit, window);
    hide Popped, Called;
    var h := Called(times, limit, window);
    var n := Popped(h.hits[h.popped..], now - window);
    assert h.hits[h.popped..][n..] == h.hits[h.popped + n..];
    if |Kept(h.hits[h.popped..], now, window)| < limit {
      assert (h.hits + [now])[h.popped + n..] == h.hits[h.popped + n..] + [now];
    }
  }

  /** Times go back by at most `d` from any earlier call. */
  ghost predicate Skewed(times: seq<real>, d: real) {
    forall i, j | 0 <= i < j < |times| :: times[j] >= times[i] - d
  }

  function CountIn(hits: seq<real>, a: real, b: real): nat
    decreases |hits|
  {
    if hits == [] then 0
    else CountIn(hits[..|hits| - 1], a, b) + if a <= hits[|hits| - 1] <= b then 1 else 0
  }

  lemma {:induction false} CountSplits(x: seq<real>, y: seq<real>, a: real, b: real)
    ensures CountIn(x + y, a, b) == CountIn(x, a, b) + CountIn(y, a, b)
    decreases |y|
  {
    if y == [] {
      assert x + y == x;
    } else {
      assert (x + y)[..|x + y| - 1] == x + y[..|y| - 1];
      CountSplits(x, y[..|y| - 1], a, b);
    }
  }

  lemma {:induction false} CountAtMost(hits: seq<real>, a: real, b: real)
    ensures CountIn(hits, a, b) <= |hits|
    ensures (forall i | 0 <= i < |hits| :: hits[i] < a) ==> CountIn(hits, a, b) == 0
    decreases |hits|
  {
    if hits != [] {
      CountAtMost(hits[..|hits| - 1], a, b);
    }
  }

  function AtLeastZero(limit: int): nat { if limit < 0 then 0 else limit }

  /** The bucket never outgrows the limit. */
  lemma {:induction false} BucketIsBounded(times: seq<real>, limit: int, window: real)
    ensures |BucketAfter(times, limit, window)| <= AtLeastZero(limit)
    decreases |times|
  {
    if times == [] { return; }
    var front, now := times[..|times| - 1], times[|times| - 1];
    assert front + [now] == times;
    BucketIsBounded(front, limit, window);
    HistoryIsBucket(front, now, limit, window);
    hide BucketAfter, Popped;
  }

  /** Every popped hit was older than a window at some call. */
  lemma {:induction false} PoppedWasOld(times: seq<real>, limit: int, window: real, i: nat) returns (j: nat)
    requires i < Called(times, limit, window).popped
    ensures j < |times| && Called(times, limit, window).hits[i] + window < times[j]
    decreases |times|
  {
    var front, now := times[..|times| - 1], times[|times| - 1];
    var h := Called(front, limit, window);
    if i < h.popped {
      j := PoppedWasOld(front, limit, window, i);
    } else {
      j := |times| - 1;
      hide Called;
      assert h.hits[h.popped..][i - h.popped] < now - window;
    }
  }

  /** A hit admitted now shares a window less the skew with no popped hit. */
  lemma {:induction false} PoppedAreOlder(times: seq<real>, limit: int, window: real, d: real, a: real, b: real)
    requires times != [] && Skewed(times, d) && b - a <= window - d && times[|times| - 1] <= b && d >= 0.0
    ensures var h := Called(times, limit, window); CountIn(h.hits, a, b) <= AtLeastZero(limit)
  {
    BucketIsBounded(times, limit, window);
    var h := Called(times, limit, window);
    var gone, kept := h.hits[..h.popped], h.hits[h.popped..];
    assert h.hits == gone + kept;
    forall i | 0 <= i < |gone| ensures gone[i] < a {
      var j := PoppedWasOld(times, limit, window, i);
      assert times[|times| - 1] >= times[j] - d;
    }
    hide Called;
    CountSplits(gone, kept, a, b);
    CountAtMost(kept, a, b);
    CountAtMost(gone, a, b);
  }

  lemma SkewedPrefix(front: seq<real>, now: real, d: real)
    requires Skewed(front + [now], d)
    ensures Skewed(front, d)
  {
    assert forall j | 0 <= j < |front| :: front[j] == (front + [now])[j];
  }

  lemma LateHitIsOutside(hits: seq<real>, now: real, a: real, b: real)
    requires now > b
    ensures CountIn(hits + [now], a, b) == CountIn(hits, a, b)
  {
    assert (hits + [now])[..|hits|] == hits;
  }

  lemma OneMoreHit(hits: seq<real>, now: real, a: real, b: real)
    requires a <= now <= b
    ensures CountIn(hits + [now], a, b) == CountIn(hits, a, b) + 1
  {
    assert (hits + [now])[..|hits|] == hits;
  }

  /** If times go back by at most `d`, every closed stretch of length window - d holds at most
      `limit` admitted hits, in whatever order the lock let the calls through. */
  lemma {:induction false} WindowBoundUnderSkew(times: seq<real>, limit: int, window: real, d: real, a: real, b: real)
    requires d >= 0.0 && Skewed(times, d) && b - a <= window - d
    ensures CountIn(Called(times, limit, window).hits, a, b) <= AtLeastZero(limit)
    decreases |times|
  {
    if times == [] { return; }
    var n := |times| - 1;
    var front, now := times[..n], times[n];
    assert front + [now] == times;
    hide *;
    SkewedPrefix(front, now, d);
    WindowBoundUnderSkew(front, limit, window, d, a, b);
    if now <= b {
      PoppedAreOlder(times, limit, window, d, a, b);
    } else {
      HistoryIsBucket(front, now, limit, window);
      assert Called(front, limit, window).hits + [] == Called(front, limit, window).hits;
      LateHitIsOutside(Called(front, limit, window).hits, now, a, b);
    }
  }

  /** With a limit of one the skew does not matter: admitted hits are always more than a window apart. */
  lemma {:induction false} SingleHitsAreApart(times: seq<real>, window: real)
    ensures var h := Called(times, 1, window);
            && (h.hits != [] ==> |h.hits| == h.popped + 1)
            && forall i | 0 < i < |h.hits| :: h.hits[i - 1] + window < h.hits[i]
    decreases |times|
  {
    if times != [] {
      var n := |times| - 1;
      SingleHitsAreApart(times[..n], window);
      assert times == times[..n] + [times[n]];
      OneMoreCall(times[..n], times[n], 1, window);
      hide Called;
      NextHitIsApart(Called(times[..n], 1, window), times[n], window);
    }
  }

  lemma {:induction false} NextHitIsApart(h: History, now: real, window: real)
    requires h.popped <= |h.hits| && (h.hits != [] ==> |h.hits| == h.popped + 1)
    requires forall i | 0 < i < |h.hits| :: h.hits[i - 1] + window < h.hits[i]
    ensures var h' := Step(h, now, 1, window);
            && (h'.hits != [] ==> |h'.hits| == h'.popped + 1)
            && forall i | 0 < i < |h'.hits| :: h'.hits[i - 1] + window < h'.hits[i]
  {
    if h.hits != [] { assert h.hits[h.popped..] == [h.hits[|h.hits| - 1]]; }
  }

  lemma {:induction false} ApartCount(hits: seq<real>, window: real, a: real)
    requires window >= 0.0 && forall i | 0 < i < |hits| :: hits[i - 1] + window < hits[i]
    ensures CountIn(hits, a, a + window) <= 1
    ensures hits != [] && CountIn(hits, a, a + window) == 1 ==> hits[|hits| - 1] >= a
    decreases |hits|
  {
    if hits != [] {
      var front := hits[..|hits| - 1];
      assert forall i | 0 <= i < |front| :: front[i] == hits[i];
      ApartCount(front, window, a);
      if front != [] { assert hits[|hits| - 2] + window < hits[|hits| - 1]; }
    }
  }

  /** `n` calls at time zero. */
  function Zeros(n: nat): (s: seq<real>)
    ensures |s| == n && forall i | 0 <= i < n :: s[i] == 0.0
  {
    seq(n, _ => 0.0)
  }

  lemma {:induction false} ZerosAreAdmitted(n: nat, limit: int, window: real)
    requires n <= limit && window >= 0.0
    ensures Called(Zeros(n), limit, window) == History(Zeros(n), 0)
    decreases n
  {
    if n == 0 { return; }
    var z := Zeros(n - 1);
    assert Zeros(n) == z + [0.0];
    ZerosAreAdmitted(n - 1, limit, window);
    OneMoreCall(z, 0.0, limit, window);
    hide Called;
    assert z[0..] == z && Popped(z, 0.0 - window) == 0;
  }

  lemma {:induction false} CountZeros(n: nat, b: real)
    requires b >= 0.0
    ensures CountIn(Zeros(n), 0.0, b) == n
    decreases n
  {
    if n > 0 {
      assert Zeros(n)[..n - 1] == Zeros(n - 1);
      CountZeros(n - 1, b);
    }
  }

  /** `limit` calls at zero, one just after a window, and one read up to `d` earlier: limit + 1 hits
      within one window. */
  function Overrun(limit: nat, window: real, d: real): seq<real> {
    Zeros(limit) + [window + d] + [window]
  }

  lemma {:induction false} AllPopped(bucket: seq<real>, cutoff: real)
    requires forall i | 0 <= i < |bucket| :: bucket[i] < cutoff
    ensures Popped(bucket, cutoff) == |bucket|
    decreases |bucket|
  {
    if bucket != [] { AllPopped(bucket[1..], cutoff); }
  }

  /** All earlier hits leave, the new one is admitted. */
  lemma {:induction false} StepClears(h: History, now: real, limit: int, window: real)
    requires h.popped <= |h.hits| && limit > 0 && forall i | h.popped <= i < |h.hits| :: h.hits[i] < now - window
    ensures Step(h, now, limit, window) == History(h.hits + [now], |h.hits|)
  {
    AllPopped(h.hits[h.popped..], now - window);
    hide Popped;
  }

  /** The only hit in the bucket is recent: it stays, and the new one joins it. */
  lemma {:induction false} StepJoins(h: History, now: real, limit: int, window: real)
    requires |h.hits| == h.popped + 1 && limit > 1 && h.hits[h.popped] >= now - window
    ensures Step(h, now, limit, window) == History(h.hits + [now], h.popped)
  {}

  lemma {:induction false} OverrunCalls(limit: nat, window: real, d: real)
    requires limit >= 2 && window >= 0.0 && d > 0.0
    ensures Called(Overrun(limit, window, d), limit, window).hits == Overrun(limit, window, d)
  {
    var z := Zeros(limit);
    assert Overrun(limit, window, d) == z + [window + d] + [window];
    hide *;
    ZerosAreAdmitted(limit, limit, window);
    OneMoreCall(z, window + d, limit, window);
    OneMoreCall(z + [window + d], window, limit, window);
    StepClears(History(z, 0), window + d, limit, window);
    StepJoins(History(z + [window + d], limit), window, limit, window);
  }

  lemma {:induction false} OverrunExceeds(limit: nat, window: real, d: real)
    requires limit >= 2 && window >= 0.0 && d > 0.0
    ensures Skewed(Overrun(limit, window, d), d)
    ensures CountIn(Called(Overrun(limit, window, d), limit, window).hits, 0.0, window) == limit + 1
  {
    assert Skewed(Overrun(limit, window, d), d);
    var z, one := Zeros(limit), Zeros(limit) + [window + d];
    assert Overrun(limit, window, d) == one + [window];
    hide *;
    OverrunCalls(limit, window, d);
    CountZeros(limit, window);
    LateHitIsOutside(z, window + d, 0.0, window);
    OneMoreHit(one, window, 0.0, window);
  }

  predicate WithinLimit(times: seq<real>, limit: int, window: real, a: real) {
    CountIn(Called(times, limit, window).hits, a, a + window) <= AtLeastZero(limit)
  }

  /** Every stretch of a full window holds at most `limit` admitted hits. */
  ghost predicate FullWindowHolds(limit: int, window: real, d: real) {
    forall times: seq<real>, a: real | Skewed(times, d) :: WithinLimit(times, limit, window, a)
  }

  /** The full window is guaranteed if and only if the clock readings never go back, or the limit
      leaves at most one hit. */
  lemma {:induction false} FullWindowExactlyWhen(limit: int, window: real, d: real)
    requires window >= 0.0 && d >= 0.0
    ensures FullWindowHolds(limit, window, d) <==> d == 0.0 || limit <= 1
  {
    hide Called, CountIn, Skewed, Overrun;
    if d == 0.0 || limit <= 1 {
      forall times: seq<real>, a: real | Skewed(times, d) ensures WithinLimit(times, limit, window, a) {
        if d == 0.0 {
          WindowBoundUnderSkew(times, limit, window, d, a, a + window);
        } else if limit == 1 {
          SingleHitsAreApart(times, window);
          ApartCount(Called(times, 1, window).hits, window, a);
        } else {
          NothingAdmitted(times, limit, window);
          CountAtMost([], a, a + window);
        }
      }
    } else {
      OverrunExceeds(limit, window, d);
      assert 0.0 + window == window;
      assert !WithinLimit(Overrun(limit, window, d), limit, window, 0.0);
    }
  }

  lemma {:induction false} NothingAdmitted(times: seq<real>, limit: int, window: real)
    requires limit <= 0
    ensures Called(times, limit, window) == History([], 0)
    decreases |times|
  {
    if times != [] { NothingAdmitted(times[..|times| - 1], limit, window); }
  }

  /** A call is rejected exactly when the bucket, once old hits are dropped, already holds `limit`
      hits; no limit below one ever admits a call, it fails on the empty bucket instead. */
  lemma {:induction false} RejectedExactlyWhenFull(times: seq<real>, now: real, limit: int, window: real)
    ensures var bucket := BucketAfter(times, limit, window);
            && (ReplyTo(bucket, now, limit, window).Rejected? <==> limit > 0 && |Kept(bucket, now, window)| == limit)
            && (ReplyTo(bucket, now, limit, window).IndexError? <==> limit <= 0)
  {
    BucketIsBounded(times, limit, window);
    if limit <= 0 { NothingAdmitted(times, limit, window); }
    hide Called, Popped;
  }

  /** The advised delay is the least whole number of seconds, from one on, after which the next
      call for the key is admitted. */
  lemma {:induction false} RetryAfterIsLeast(times: seq<real>, now: real, limit: int, window: real, wait: int)
    requires ReplyTo(BucketAfter(times, limit, window), now, limit, window).Rejected? && wait >= 1
    ensures ReplyTo(BucketAfter(times, limit, window), now, limit, window).retryAfter >= 1
    ensures ReplyTo(BucketAfter(times + [now], limit, window), now + wait as real, limit, window).Admitted?
            <==> wait >= ReplyTo(BucketAfter(times, limit, window), now, limit, window).retryAfter
  {
    RejectedExactlyWhenFull(times, now, limit, window);
    HistoryIsBucket(times, now, limit, window);
    hide Called, BucketAfter;
    var kept := Kept(BucketAfter(times, limit, window), now, window);
    assert BucketAfter(times + [now], limit, window) == kept;
    var slack := kept[0] + window - now;
    assert slack >= 0.0;
    assert Popped(kept, now + wait as real - window) == 0 <==> wait as real <= slack;
    assert wait as real <= slack <==> wait <= slack.Floor;
  }
}
