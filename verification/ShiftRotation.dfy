/** The weekly shift rotation: on any one date it is an injective map on shifts. */
module ShiftRotation {

  datatype Shift = Shift(id: nat, code: string, sequence: int)

  /** 1 January 2024, as a day number. */
  const ROTATION_EPOCH: int := 738886

  /** Insertion after the last shift that is not later. */
  function Insert(s: Shift, sorted: seq<Shift>): seq<Shift>
    decreases |sorted|
  {
    if sorted == [] then [s] else
    var front, last := sorted[..|sorted| - 1], sorted[|sorted| - 1];
    if s.sequence < last.sequence then Insert(s, front) + [last] else sorted + [s]
  }

  /** A stable sort by sequence number. */
  function Ordered(shifts: seq<Shift>): seq<Shift>
    decreases |shifts|
  {
    if shifts == [] then [] else Insert(shifts[|shifts| - 1], Ordered(shifts[..|shifts| - 1]))
  }

  function IndexOf(shifts: seq<Shift>, s: Shift): (i: nat)
    requires s in shifts
    ensures i < |shifts| && shifts[i] == s
    ensures forall j | 0 <= j < i :: shifts[j] != s
    decreases |shifts|
  {
    if shifts[0] == s then 0 else 1 + IndexOf(shifts[1..], s)
  }

  /** Every shift id names one shift. */
  ghost predicate ShiftsDistinct(shifts: seq<Shift>) {
    forall i, j | 0 <= i < j < |shifts| :: shifts[i].id != shifts[j].id
  }

  lemma {:induction false} InsertAddsOne(s: Shift, sorted: seq<Shift>)
    ensures |Insert(s, sorted)| == |sorted| + 1
    ensures forall x :: x in Insert(s, sorted) <==> x == s || x in sorted
    ensures ShiftsDistinct(sorted) && (forall i | 0 <= i < |sorted| :: sorted[i].id != s.id)
            ==> ShiftsDistinct(Insert(s, sorted))
    decreases |sorted|
  {
    if sorted != [] {
      var front, last := sorted[..|sorted| - 1], sorted[|sorted| - 1];
      assert sorted == front + [last];
      InsertAddsOne(s, front);
      if ShiftsDistinct(sorted) && s.sequence < last.sequence
        && (forall i | 0 <= i < |sorted| :: sorted[i].id != s.id) {
        assert forall i | 0 <= i < |front| :: front[i] == sorted[i];
        assert forall x | x in front :: x.id != sorted[|front|].id;
        assert forall i | 0 <= i < |front| + 1 :: Insert(s, front)[i].id != last.id;
      }
    }
  }

  lemma {:induction false} OrderedKeepsShifts(shifts: seq<Shift>)
    ensures |Ordered(shifts)| == |shifts|
    ensures forall x :: x in Ordered(shifts) <==> x in shifts
    ensures ShiftsDistinct(shifts) ==> ShiftsDistinct(Ordered(shifts))
    decreases |shifts|
  {
    if shifts != [] {
      var front, last := shifts[..|shifts| - 1], shifts[|shifts| - 1];
      assert shifts == front + [last];
      OrderedKeepsShifts(front);
      InsertAddsOne(last, Ordered(front));
      if ShiftsDistinct(shifts) {
        forall i | 0 <= i < |front| ensures Ordered(front)[i].id != last.id {
          var x := Ordered(front)[i];
          assert x in front;
          var j :| 0 <= j < |front| && front[j] == x;
          assert shifts[j] == x && shifts[|front|] == last;
        }
      }
    }
  }

  /** The shift an anchor shift works in the week of `date`: one step on every seven days. */
  function ActualShift(date: int, anchor: Shift, shifts: seq<Shift>): (s: Shift)
    requires anchor in shifts
    ensures s in shifts
  {
    OrderedKeepsShifts(shifts);
    var ordered := Ordered(shifts);
    ordered[(IndexOf(ordered, anchor) + (date - ROTATION_EPOCH) / 7) % |ordered|]
  }

  lemma {:induction false} MultipleIsLarge(q: nat, n: nat)
    requires q > 0
    ensures q * n >= n
    decreases q
  {
    if q > 1 {
      MultipleIsLarge(q - 1, n);
      assert q * n == (q - 1) * n + n;
    }
  }

  lemma {:induction false} ModInjective(a: nat, b: nat, w: int, n: nat)
    requires a < n && b < n && a != b
    ensures (a + w) % n != (b + w) % n
  {
    if (a + w) % n == (b + w) % n {
      var q := (a + w) / n - (b + w) / n;
      assert a - b == q * n && b - a == -q * n;
      if q > 0 { MultipleIsLarge(q, n); }
      if q < 0 { MultipleIsLarge(-q, n); }
      assert false;
    }
  }

  /** On any one date two different shifts never rotate into the same shift. */
  lemma {:induction false} RotationIsInjective(date: int, a: Shift, b: Shift, shifts: seq<Shift>)
    requires ShiftsDistinct(shifts) && a in shifts && b in shifts && a != b
    ensures ActualShift(date, a, shifts).id != ActualShift(date, b, shifts).id
  {
    hide *;
    OrderedKeepsShifts(shifts);
    var o, w := Ordered(shifts), (date - ROTATION_EPOCH) / 7;
    ActualAt(date, a, shifts);
    ActualAt(date, b, shifts);
    ModInjective(IndexOf(o, a), IndexOf(o, b), w, |o|);
    PlacesDiffer(o, (IndexOf(o, a) + w) % |o|, (IndexOf(o, b) + w) % |o|);
  }

  lemma ActualAt(date: int, anchor: Shift, shifts: seq<Shift>)
    requires anchor in shifts
    ensures var o := Ordered(shifts);
            && |o| > 0 && anchor in o
            && ActualShift(date, anchor, shifts) == o[(IndexOf(o, anchor) + (date - ROTATION_EPOCH) / 7) % |o|]
  {
    OrderedKeepsShifts(shifts);
    hide Ordered, IndexOf;
  }

  lemma PlacesDiffer(o: seq<Shift>, i: nat, j: nat)
    requires ShiftsDistinct(o) && i < |o| && j < |o| && i != j
    ensures o[i].id != o[j].id
  {}

  // ---- Which shift it is ----

  function WithSequence(shifts: seq<Shift>, q: int): seq<Shift>
    decreases |shifts|
  {
    if shifts == [] then [] else
    WithSequence(shifts[..|shifts| - 1], q)
    + if shifts[|shifts| - 1].sequence == q then [shifts[|shifts| - 1]] else []
  }

  ghost predicate Rising(shifts: seq<Shift>) {
    forall i, j | 0 <= i < j < |shifts| :: shifts[i].sequence <= shifts[j].sequence
  }

  lemma WithSequenceOneMore(shifts: seq<Shift>, s: Shift, q: int)
    ensures WithSequence(shifts + [s], q) == WithSequence(shifts, q) + if s.sequence == q then [s] else []
  {
    assert (shifts + [s])[..|shifts|] == shifts;
  }

  lemma {:induction false} NoneBelow(shifts: seq<Shift>, q: int)
    requires forall i | 0 <= i < |shifts| :: shifts[i].sequence != q
    ensures WithSequence(shifts, q) == []
    decreases |shifts|
  {
    if shifts != [] { NoneBelow(shifts[..|shifts| - 1], q); }
  }

  lemma {:induction false} InsertRises(s: Shift, sorted: seq<Shift>)
    requires Rising(sorted)
    ensures Rising(Insert(s, sorted))
    decreases |sorted|
  {
    if sorted == [] || s.sequence >= sorted[|sorted| - 1].sequence { return; }
    var front, last := sorted[..|sorted| - 1], sorted[|sorted| - 1];
    assert sorted == front + [last];
    InsertRises(s, front);
    InsertAddsOne(s, front);
    assert forall x | x in front :: x.sequence <= last.sequence;
    var more := Insert(s, front);
    assert forall i | 0 <= i < |more| :: more[i] in more;
    hide Insert;
  }

  lemma {:induction false} InsertStaysStable(s: Shift, sorted: seq<Shift>, q: int)
    requires Rising(sorted)
    ensures WithSequence(Insert(s, sorted), q) == WithSequence(sorted, q) + if s.sequence == q then [s] else []
    decreases |sorted|
  {
    if sorted == [] || s.sequence >= sorted[|sorted| - 1].sequence {
      WithSequenceOneMore(sorted, s, q);
      return;
    }
    var front, last := sorted[..|sorted| - 1], sorted[|sorted| - 1];
    assert sorted == front + [last];
    assert Rising(front);
    InsertStaysStable(s, front, q);
    assert Insert(s, sorted) == Insert(s, front) + [last];
    hide *;
    WithSequenceOneMore(Insert(s, front), last, q);
    WithSequenceOneMore(front, last, q);
  }

  /** The shifts are taken in the order of their sequence numbers, those of one number as they are listed. */
  lemma {:induction false} OrderedBySequence(shifts: seq<Shift>)
    ensures Rising(Ordered(shifts))
    ensures forall q :: WithSequence(Ordered(shifts), q) == WithSequence(shifts, q)
    decreases |shifts|
  {
    if shifts != [] {
      var front, last := shifts[..|shifts| - 1], shifts[|shifts| - 1];
      OrderedBySequence(front);
      InsertRises(last, Ordered(front));
      forall q ensures WithSequence(Ordered(shifts), q) == WithSequence(shifts, q) {
        InsertStaysStable(last, Ordered(front), q);
      }
    }
  }

  lemma {:induction false} IndexOfAt(shifts: seq<Shift>, i: nat)
    requires ShiftsDistinct(shifts) && i < |shifts|
    ensures IndexOf(shifts, shifts[i]) == i
  {}

  lemma {:induction false} ModIs(x: int, q: int, r: nat, n: nat)
    requires n > 0 && x == q * n + r && r < n
    ensures x % n == r
  {
    var d := x / n - q;
    assert d * n == r - x % n;
    if d > 0 { MultipleIsLarge(d, n); }
    if d < 0 { MultipleIsLarge(-d, n); }
  }

  lemma {:induction false} ModStep(i: int, n: nat)
    requires n > 0
    ensures (i + 1) % n == if i % n + 1 < n then i % n + 1 else 0
  {
    var q, r := i / n, i % n;
    assert i + 1 == q * n + (r + 1);
    if r + 1 < n {
      ModIs(i + 1, q, r + 1, n);
    } else {
      WholeStep(q, n);
      ModIs(i + 1, q + 1, 0, n);
    }
  }

  lemma WholeStep(q: int, n: nat)
    ensures q * n + n == (q + 1) * n + 0
  {}

  /** The place in the order that is worked in a week, counted from the first. */
  function PlaceIn(date: int, place: nat, n: nat): (i: nat)
    requires n > 0
    ensures i < n
  {
    (place + (date - ROTATION_EPOCH) / 7) % n
  }

  lemma {:induction false} ActualIsPlace(date: int, anchor: Shift, shifts: seq<Shift>)
    requires ShiftsDistinct(shifts) && anchor in shifts
    ensures var o := Ordered(shifts);
            && anchor in o && |o| > 0
            && ActualShift(date, anchor, shifts) == o[PlaceIn(date, IndexOf(o, anchor), |o|)]
            && ActualShift(date, anchor, shifts) in o
            && IndexOf(o, ActualShift(date, anchor, shifts)) == PlaceIn(date, IndexOf(o, anchor), |o|)
  {
    OrderedKeepsShifts(shifts);
    ActualAt(date, anchor, shifts);
    var o := Ordered(shifts);
    assert ActualShift(date, anchor, shifts) == o[PlaceIn(date, IndexOf(o, anchor), |o|)];
    hide *;
    IndexOfAt(o, PlaceIn(date, IndexOf(o, anchor), |o|));
  }

  lemma {:induction false} PlaceAdvances(date: int, place: nat, n: nat)
    requires place < n
    ensures 738886 <= date < 738893 ==> PlaceIn(date, place, n) == place
    ensures PlaceIn(date + 7, place, n) == if PlaceIn(date, place, n) + 1 < n then PlaceIn(date, place, n) + 1 else 0
    ensures (date - 738886) % 7 != 6 ==> PlaceIn(date + 1, place, n) == PlaceIn(date, place, n)
  {
    var week := (date - ROTATION_EPOCH) / 7;
    assert (date + 7 - ROTATION_EPOCH) / 7 == week + 1;
    ModStep(place + week, n);
    ModIs(place, 0, place, n);
  }

  /** In the week that starts on 1 January 2024 every foreman works the assigned shift; each week after
      moves on to the next shift in the order, from the last to the first; and within a week, counted
      from that day, nothing changes. */
  lemma {:induction false} RotationAdvances(date: int, anchor: Shift, shifts: seq<Shift>)
    requires ShiftsDistinct(shifts) && anchor in shifts
    ensures 738886 <= date < 738893 ==> ActualShift(date, anchor, shifts) == anchor
    ensures var o := Ordered(shifts);
            var now, later := ActualShift(date, anchor, shifts), ActualShift(date + 7, anchor, shifts);
            now in o && later == if IndexOf(o, now) + 1 < |o| then o[IndexOf(o, now) + 1] else o[0]
    ensures (date - 738886) % 7 != 6 ==> ActualShift(date + 1, anchor, shifts) == ActualShift(date, anchor, shifts)
  {
    hide *;
    var o := Ordered(shifts);
    ActualIsPlace(date, anchor, shifts);
    ActualIsPlace(date + 7, anchor, shifts);
    ActualIsPlace(date + 1, anchor, shifts);
    PlaceAdvances(date, IndexOf(o, anchor), |o|);
  }
}
