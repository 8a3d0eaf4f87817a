/** The gain a contribution work is shown with, and the key the list query sorts it by.  Two
    separate computations, one in Python and one in SQL: this module says when they agree. */
module GainSort {
  import opened Options

  datatype GainType =
    | CapacityIncrease | LaborSaving | DowntimeReduction | GsfReduction | ScrapReduction | SlowRunningReduction
    | SafetyRiskReduction | EnergyReduction | QualityDefectReduction | OtherGain

  datatype Bucket = Capacity | Reduction | QualitySafetyEnergy | Any

  predicate InBucket(t: GainType, b: Bucket) {
    match b
    case Capacity => t.CapacityIncrease?
    case Reduction => t.DowntimeReduction? || t.GsfReduction? || t.ScrapReduction? || t.SlowRunningReduction?
    case QualitySafetyEnergy => t.QualityDefectReduction? || t.SafetyRiskReduction? || t.EnergyReduction?
    case Any => true
  }

  datatype Gain = Gain(
    id: string, work: nat, kind: GainType, previous: Option<real>, next: Option<real>,
    amount: Option<real>, percent: Option<real>)

  datatype Work = Work(id: nat, manual: bool, ref: Option<string>, gainAmount: Option<real>,
                       savingMinutes: Option<real>)

  /** Rounding to 4 and to 3 places. */
  datatype Rounding = Rounding(to4: real -> real, to3: real -> real)

  function Abs(x: real): real { if x < 0.0 then -x else x }

  /** compute_change: amount and percent. */
  function ComputeChange(r: Rounding, previous: Option<real>, next: Option<real>): (Option<real>, Option<real>) {
    if previous.None? || next.None? then (None, None)
    else
      var amount := r.to4(next.value - previous.value);
      if previous.value == 0.0 then (Some(amount), None)
      else (Some(amount), Some(r.to3(amount / Abs(previous.value) * 100.0)))
  }

  // ---- The gains table ----

  ghost predicate IdsUnique(gains: seq<Gain>) {
    forall i, j | 0 <= i < j < |gains| :: gains[i].id != gains[j].id
  }

  /** The stored changes are those of the stored values. */
  ghost predicate ChangesComputed(r: Rounding, gains: seq<Gain>) {
    forall i | 0 <= i < |gains| ::
      (gains[i].amount, gains[i].percent) == ComputeChange(r, gains[i].previous, gains[i].next)
  }

  function OfWork(gains: seq<Gain>, work: nat): seq<Gain>
    decreases |gains|
  {
    if gains == [] then [] else
    OfWork(gains[..|gains| - 1], work) + if gains[|gains| - 1].work == work then [gains[|gains| - 1]] else []
  }

  function OfOthers(gains: seq<Gain>, work: nat): seq<Gain>
    decreases |gains|
  {
    if gains == [] then [] else
    OfOthers(gains[..|gains| - 1], work) + if gains[|gains| - 1].work != work then [gains[|gains| - 1]] else []
  }

  lemma {:induction false} OthersAreThere(gains: seq<Gain>, work: nat)
    ensures forall g :: g in OfOthers(gains, work) <==> g in gains && g.work != work
    ensures IdsUnique(gains) ==> IdsUnique(OfOthers(gains, work))
    decreases |gains|
  {
    if gains != [] {
      var front, last := gains[..|gains| - 1], gains[|gains| - 1];
      assert gains == front + [last];
      OthersAreThere(front, work);
      if IdsUnique(gains) {
        forall i | 0 <= i < |OfOthers(front, work)| ensures OfOthers(front, work)[i].id != last.id {
          assert OfOthers(front, work)[i] in front;
        }
      }
    }
  }

  /** The row an input becomes. */
  predicate Synced(r: Rounding, g: Gain, work: nat, input: (GainType, Option<real>, Option<real>), id: string) {
    && g.id == id && g.work == work && (g.kind, g.previous, g.next) == input
    && (g.amount, g.percent) == ComputeChange(r, input.1, input.2)
  }

  lemma {:induction false} OthersKeep(r: Rounding, gains: seq<Gain>, work: nat, ids: seq<string>)
    requires IdsUnique(gains) && ChangesComputed(r, gains)
    requires forall i, j | 0 <= i < |ids| && 0 <= j < |gains| :: ids[i] != gains[j].id
    ensures var others := OfOthers(gains, work);
            && IdsUnique(others) && ChangesComputed(r, others)
            && forall j, k | 0 <= k < |ids| && 0 <= j < |others| :: others[j].id != ids[k]
  {
    OthersAreThere(gains, work);
    var others := OfOthers(gains, work);
    hide OfOthers, ComputeChange;
    forall j | 0 <= j < |others|
      ensures (others[j].amount, others[j].percent) == ComputeChange(r, others[j].previous, others[j].next)
      ensures forall k | 0 <= k < |ids| :: others[j].id != ids[k]
    {
      assert others[j] in gains;
    }
  }

  lemma OthersStay(r: Rounding, rows: seq<Gain>, others: seq<Gain>, work: nat,
                   inputs: seq<(GainType, Option<real>, Option<real>)>, ids: seq<string>)
    requires others <= rows && |rows| == |others| + |inputs| && |ids| == |inputs|
    requires forall i | 0 <= i < |inputs| :: Synced(r, rows[|others| + i], work, inputs[i], ids[i])
    ensures forall g: Gain | g.work != work :: g in rows <==> g in others
  {
    var n := |others|;
    forall i | n <= i < |rows| ensures rows[i].work == work {
      assert Synced(r, rows[n + (i - n)], work, inputs[i - n], ids[i - n]);
    }
    hide Synced;
    assert forall i | 0 <= i < n :: rows[i] == others[i];
  }

  class GainTable {
    var rows: seq<Gain>

    ghost predicate Valid(r: Rounding)
      reads this
    {
      IdsUnique(rows) && ChangesComputed(r, rows)
    }

    /** sync_gains: without a list nothing changes; with one, the work's gains are replaced by it. */
    method SyncGains(r: Rounding, work: nat, given: Option<seq<(GainType, Option<real>, Option<real>)>>,
                     ids: seq<string>)
      requires Valid(r) && (given.Some? ==> |ids| == |given.value|)
      requires forall i, j | 0 <= i < j < |ids| :: ids[i] != ids[j]
      requires forall i, j | 0 <= i < |ids| && 0 <= j < |rows| :: ids[i] != rows[j].id
      modifies this
      ensures Valid(r)
      ensures given.None? ==> rows == old(rows)
      ensures given.Some? ==>
                && |rows| == |OfOthers(old(rows), work)| + |given.value| && OfOthers(old(rows), work) <= rows
                && forall i | 0 <= i < |given.value| ::
                     Synced(r, rows[|OfOthers(old(rows), work)| + i], work, given.value[i], ids[i])
      ensures forall g: Gain | g.work != work :: g in rows <==> g in old(rows)
    {
      if given.None? { return; }
      OthersAreThere(rows, work);
      ReplaceGains(r, work, given.value, ids);
      OthersStay(r, rows, OfOthers(old(rows), work), work, given.value, ids);
      hide OfOthers, Valid, Synced;
    }

    /** The work's gains are replaced by the given ones, under new ids, with their changes computed;
        other works' gains stay. */
    method ReplaceGains(r: Rounding, work: nat, inputs: seq<(GainType, Option<real>, Option<real>)>, ids: seq<string>)
      requires Valid(r) && |ids| == |inputs|
      requires forall i, j | 0 <= i < j < |ids| :: ids[i] != ids[j]
      requires forall i, j | 0 <= i < |ids| && 0 <= j < |rows| :: ids[i] != rows[j].id
      modifies this
      ensures Valid(r)
      ensures |rows| == |OfOthers(old(rows), work)| + |inputs| && OfOthers(old(rows), work) <= rows
      ensures forall i | 0 <= i < |inputs| :: Synced(r, rows[|OfOthers(old(rows), work)| + i], work, inputs[i], ids[i])
    {
      ghost var others := OfOthers(rows, work);
      OthersKeep(r, rows, work, ids);
      hide OfOthers, ComputeChange;
      rows := OfOthers(rows, work);
      var i := 0;
      while i < |inputs|
        invariant 0 <= i <= |inputs| && |rows| == |others| + i && others <= rows
        invariant IdsUnique(rows) && ChangesComputed(r, rows)
        invariant forall j | 0 <= j < i :: Synced(r, rows[|others| + j], work, inputs[j], ids[j])
        invariant forall j, k | i <= k < |ids| && 0 <= j < |rows| :: rows[j].id != ids[k]
      {
        var (kind, previous, next) := inputs[i];
        var change := ComputeChange(r, previous, next);
        rows := rows + [Gain(ids[i], work, kind, previous, next, change.0, change.1)];
        i := i + 1;
      }
    }
  }

  // ---- What is shown ----

  /** The first gain of a bucket whose percent is largest in size. */
  function BestIn(gains: seq<Gain>, b: Bucket): (best: Option<Gain>)
    ensures best.Some? ==> best.value.percent.Some?
    decreases |gains|
  {
    if gains == [] then None else
    var best, g := BestIn(gains[..|gains| - 1], b), gains[|gains| - 1];
    if !InBucket(g.kind, b) || g.percent.None? then best
    else if best.None? || Abs(g.percent.value) > Abs(best.value.percent.value) then Some(g)
    else best
  }

  function BestShown(gains: seq<Gain>, b: Bucket): Option<real> {
    var best := BestIn(gains, b);
    if best.None? then None else Some(Abs(best.value.percent.value))
  }

  function AutomaticShown(w: Work, gains: seq<Gain>): Option<real> {
    if w.gainAmount.Some? then w.gainAmount
    else if w.savingMinutes.Some? then w.savingMinutes
    else if BestIn(gains, Capacity).Some? then BestShown(gains, Capacity)
    else if BestIn(gains, Reduction).Some? then BestShown(gains, Reduction)
    else if BestIn(gains, QualitySafetyEnergy).Some? then BestShown(gains, QualitySafetyEnergy)
    else BestShown(gains, Any)
  }

  const GAIN_PREFIX := "gain:"

  predicate IsGainRef(ref: string) { GAIN_PREFIX <= ref }

  function GainById(gains: seq<Gain>, id: string): (g: Option<Gain>)
    ensures g.Some? ==> g.value in gains && g.value.id == id
    ensures g.None? ==> forall x | x in gains :: x.id != id
    decreases |gains|
  {
    if gains == [] then None else if gains[0].id == id then Some(gains[0]) else GainById(gains[1..], id)
  }

  datatype Manual = NotManual | Shows(value: Option<real>)

  /** _resolve_manual_ref. */
  function ManualShown(r: Rounding, w: Work, gains: seq<Gain>): Manual {
    if w.ref.None? || w.ref.value == "" then NotManual
    else if w.ref.value == "financial" && w.gainAmount.Some? then Shows(w.gainAmount)
    else if w.ref.value == "time_saving" && w.savingMinutes.Some? then Shows(w.savingMinutes)
    else if IsGainRef(w.ref.value) then
      match GainById(gains, w.ref.value[|GAIN_PREFIX|..])
      case None => NotManual
      case Some(g) =>
        var change := ComputeChange(r, g.previous, g.next);
        Shows(if change.1.Some? then change.1 else change.0)
    else NotManual
  }

  /** The value resolve_highlighted_gain shows, None when it shows none. */
  function Shown(r: Rounding, w: Work, gains: seq<Gain>): Option<real> {
    var m := if w.manual then ManualShown(r, w, gains) else NotManual;
    if m.Shows? then m.value else AutomaticShown(w, gains)
  }

  // ---- What the query sorts by ----

  /** max(abs(change_percent)) over the gains of a bucket with a percent; null over none. */
  function MaxAbs(gains: seq<Gain>, b: Bucket): Option<real>
    decreases |gains|
  {
    if gains == [] then None else
    var m, g := MaxAbs(gains[1..], b), gains[0];
    if !InBucket(g.kind, b) || g.percent.None? then m
    else if m.None? || m.value < Abs(g.percent.value) then Some(Abs(g.percent.value))
    else m
  }

  function Coalesce(a: Option<real>, b: Option<real>): Option<real> { if a.Some? then a else b }

  /** The gains the second outer join pairs the work with. */
  function Referenced(table: seq<Gain>, w: Work): seq<Gain>
    decreases |table|
  {
    if table == [] then [] else
    Referenced(table[..|table| - 1], w)
    + if table[|table| - 1].work == w.id && w.ref == Some(GAIN_PREFIX + table[|table| - 1].id)
      then [table[|table| - 1]] else []
  }

  /** The result rows of the work: one per referenced gain, or one with nulls. */
  function JoinedRows(table: seq<Gain>, w: Work): seq<Option<Gain>> {
    var matched := Referenced(table, w);
    if matched == [] then [None] else seq(|matched|, i requires 0 <= i < |matched| => Some(matched[i]))
  }

  /** The CASE expression; a null comparison is not true. */
  function SortKey(w: Work, bucket: Bucket -> Option<real>, joined: Option<Gain>): Option<real> {
    var matched := if joined.None? then None else Coalesce(joined.value.percent, joined.value.amount);
    if w.manual && w.ref == Some("financial") && w.gainAmount.Some? then w.gainAmount
    else if w.manual && w.ref == Some("time_saving") && w.savingMinutes.Some? then w.savingMinutes
    else if w.manual && w.ref.Some? && IsGainRef(w.ref.value) && matched.Some? then matched
    else if w.gainAmount.Some? then w.gainAmount
    else if w.savingMinutes.Some? then w.savingMinutes
    else if bucket(Capacity).Some? then bucket(Capacity)
    else if bucket(Reduction).Some? then bucket(Reduction)
    else if bucket(QualitySafetyEnergy).Some? then bucket(QualitySafetyEnergy)
    else bucket(Any)
  }

  // ---- Agreement ----

  function Larger(a: Option<real>, b: Option<real>): Option<real> {
    if a.None? then b else if b.None? then a else if a.value < b.value then b else a
  }

  function SizeIn(g: Gain, b: Bucket): Option<real> {
    if InBucket(g.kind, b) && g.percent.Some? then Some(Abs(g.percent.value)) else None
  }

  lemma {:induction false} MaxAbsAppends(gains: seq<Gain>, g: Gain, b: Bucket)
    ensures MaxAbs(gains + [g], b) == Larger(MaxAbs(gains, b), SizeIn(g, b))
    decreases |gains|
  {
    if gains == [] {
      assert [g][1..] == [];
      assert gains + [g] == [g];
    } else {
      assert (gains + [g])[1..] == gains[1..] + [g];
      MaxAbsAppends(gains[1..], g, b);
    }
  }

  /** The best gain's size is the aggregate's value. */
  lemma {:induction false} BestIsMax(gains: seq<Gain>, b: Bucket)
    ensures BestShown(gains, b) == MaxAbs(gains, b)
    decreases |gains|
  {
    if gains != [] {
      var front, g := gains[..|gains| - 1], gains[|gains| - 1];
      assert gains == front + [g];
      BestIsMax(front, b);
      MaxAbsAppends(front, g, b);
    }
  }

  lemma {:induction false} OfWorkMembers(table: seq<Gain>, work: nat)
    ensures forall g :: g in OfWork(table, work) <==> g in table && g.work == work
    decreases |table|
  {
    if table != [] {
      assert table == table[..|table| - 1] + [table[|table| - 1]];
      OfWorkMembers(table[..|table| - 1], work);
    }
  }

  /** A reference determines the id it names. */
  lemma GainRefs()
    ensures forall id: string :: (GAIN_PREFIX + id)[|GAIN_PREFIX|..] == id && IsGainRef(GAIN_PREFIX + id)
    ensures forall ref: string | IsGainRef(ref) :: ref == GAIN_PREFIX + ref[|GAIN_PREFIX|..]
    ensures !IsGainRef("financial") && !IsGainRef("time_saving") && !IsGainRef("")
  {
    assert "financial"[0] == 'f' && "time_saving"[0] == 't' && GAIN_PREFIX[0] == 'g';
  }

  lemma {:induction false} ReferencedIsOne(table: seq<Gain>, w: Work)
    requires IdsUnique(table)
    ensures |Referenced(table, w)| <= 1
    ensures forall g :: g in Referenced(table, w) <==> g in table && g.work == w.id && w.ref == Some(GAIN_PREFIX + g.id)
    decreases |table|
  {
    if table != [] {
      var front, last := table[..|table| - 1], table[|table| - 1];
      assert table == front + [last];
      ReferencedIsOne(front, w);
      if Referenced(front, w) != [] {
        var g := Referenced(front, w)[0];
        assert g in front;
        assert g.id != last.id;
        GainRefs();
      }
    }
  }

  /** A manual reference to one of the work's own gains that has no previous or no next value. */
  predicate PointsAtBlankGain(w: Work, gains: seq<Gain>) {
    w.manual && w.ref.Some? && IsGainRef(w.ref.value)
    && exists i | 0 <= i < |gains| ::
         GAIN_PREFIX + gains[i].id == w.ref.value && (gains[i].previous.None? || gains[i].next.None?)
  }

  /** What the joined row holds, seen from the display's search by id. */
  lemma {:induction false} JoinFindsTheGain(table: seq<Gain>, w: Work)
    requires IdsUnique(table)
    ensures |JoinedRows(table, w)| == 1
    ensures w.ref.Some? && IsGainRef(w.ref.value) ==>
              JoinedRows(table, w)[0] == GainById(OfWork(table, w.id), w.ref.value[|GAIN_PREFIX|..])
  {
    GainRefs();
    ReferencedIsOne(table, w);
    OfWorkMembers(table, w.id);
    var matched := Referenced(table, w);
    assert forall i | 0 <= i < |matched| :: matched[i] in matched;
    hide Referenced, OfWork;
    if w.ref.Some? && IsGainRef(w.ref.value) {
      var found := GainById(OfWork(table, w.id), w.ref.value[|GAIN_PREFIX|..]);
      if found.Some? { assert found.value in matched; }
    }
  }

  /** The work has no financial gain, no saved time and no gain with a percent. */
  predicate NothingElse(w: Work, gains: seq<Gain>) {
    w.gainAmount.None? && w.savingMinutes.None? && forall g | g in gains :: g.percent.None?
  }

  lemma {:induction false} NoBestExactlyWhen(gains: seq<Gain>, b: Bucket)
    ensures BestIn(gains, b).None? <==> forall g | g in gains && InBucket(g.kind, b) :: g.percent.None?
    decreases |gains|
  {
    if gains != [] {
      assert gains == gains[..|gains| - 1] + [gains[|gains| - 1]];
      NoBestExactlyWhen(gains[..|gains| - 1], b);
    }
  }

  lemma {:induction false} NothingShownExactlyWhen(w: Work, gains: seq<Gain>)
    ensures AutomaticShown(w, gains) == None <==> NothingElse(w, gains)
  {
    NoBestExactlyWhen(gains, Capacity);
    NoBestExactlyWhen(gains, Reduction);
    NoBestExactlyWhen(gains, QualitySafetyEnergy);
    NoBestExactlyWhen(gains, Any);
    hide BestIn;
  }

  /** Each work has one result row, and its sort key is the value shown, except when a manual
      reference names a gain without a computable change: then nothing is shown while the key falls
      back on the other columns, so they agree only if those are empty too. */
  lemma {:induction false} SortKeyIsShownExactlyWhen(r: Rounding, table: seq<Gain>, w: Work)
    requires IdsUnique(table) && ChangesComputed(r, table)
    ensures var gains := OfWork(table, w.id);
            && |JoinedRows(table, w)| == 1
            && (SortKey(w, b => MaxAbs(gains, b), JoinedRows(table, w)[0]) == Shown(r, w, gains)
                <==> !PointsAtBlankGain(w, gains) || NothingElse(w, gains))
  {
    var gains := OfWork(table, w.id);
    JoinFindsTheGain(table, w);
    NothingShownExactlyWhen(w, gains);
    AutomaticIsMax(w, gains);
    if w.manual && w.ref.Some? && IsGainRef(w.ref.value) {
      BlankExactlyWhen(r, table, w);
    } else {
      NoGainRefNoBlank(w, gains);
    }
    GainRefs();
    hide MaxAbs, AutomaticShown, NothingElse, OfWork, JoinedRows, PointsAtBlankGain, ComputeChange, IsGainRef, GainById;
  }

  /** A gain reference is blank exactly when it finds a gain of the work without a change. */
  lemma {:induction false} BlankExactlyWhen(r: Rounding, table: seq<Gain>, w: Work)
    requires IdsUnique(table) && ChangesComputed(r, table) && w.manual && w.ref.Some? && IsGainRef(w.ref.value)
    ensures var gains := OfWork(table, w.id);
            var found := GainById(gains, w.ref.value[|GAIN_PREFIX|..]);
            && (found.None? ==> !PointsAtBlankGain(w, gains))
            && (found.Some? ==>
                  && (found.value.amount, found.value.percent)
                     == ComputeChange(r, found.value.previous, found.value.next)
                  && (PointsAtBlankGain(w, gains) <==> found.value.amount.None?)
                  && (found.value.amount.None? ==> found.value.percent.None?))
  {
    var gains, id := OfWork(table, w.id), w.ref.value[|GAIN_PREFIX|..];
    OfWorkMembers(table, w.id);
    GainRefs();
    var found := GainById(gains, id);
    hide OfWork, PointsAtBlankGain;
    if found.Some? {
      var k :| 0 <= k < |table| && table[k] == found.value;
      assert (table[k].amount, table[k].percent) == ComputeChange(r, table[k].previous, table[k].next);
      BlankIsFound(gains, w, id, found.value, table);
    } else {
      BlankIsNotFound(gains, w, id);
    }
  }

  lemma {:induction false} NoGainRefNoBlank(w: Work, gains: seq<Gain>)
    requires !(w.manual && w.ref.Some? && IsGainRef(w.ref.value))
    ensures !PointsAtBlankGain(w, gains)
  {}

  lemma {:induction false} AutomaticIsMax(w: Work, gains: seq<Gain>)
    ensures AutomaticShown(w, gains) ==
              if w.gainAmount.Some? then w.gainAmount
              else if w.savingMinutes.Some? then w.savingMinutes
              else if MaxAbs(gains, Capacity).Some? then MaxAbs(gains, Capacity)
              else if MaxAbs(gains, Reduction).Some? then MaxAbs(gains, Reduction)
              else if MaxAbs(gains, QualitySafetyEnergy).Some? then MaxAbs(gains, QualitySafetyEnergy)
              else MaxAbs(gains, Any)
  {
    BestIsMax(gains, Capacity);
    BestIsMax(gains, Reduction);
    BestIsMax(gains, QualitySafetyEnergy);
    BestIsMax(gains, Any);
  }

  lemma {:induction false} BlankIsFound(gains: seq<Gain>, w: Work, id: string, g: Gain, table: seq<Gain>)
    requires w.manual && w.ref == Some(GAIN_PREFIX + id) && GainById(gains, id) == Some(g)
    requires IdsUnique(table) && forall x | x in gains :: x in table
    ensures PointsAtBlankGain(w, gains) <==> g.previous.None? || g.next.None?
  {
    GainRefs();
    var k :| 0 <= k < |gains| && gains[k] == g;
    forall i | 0 <= i < |gains| && GAIN_PREFIX + gains[i].id == w.ref.value ensures gains[i] == g {
      assert gains[i] in table && g in table;
    }
    assert GAIN_PREFIX + gains[k].id == w.ref.value;
  }

  lemma {:induction false} BlankIsNotFound(gains: seq<Gain>, w: Work, id: string)
    requires w.ref == Some(GAIN_PREFIX + id) && GainById(gains, id).None?
    ensures !PointsAtBlankGain(w, gains)
  {
    GainRefs();
    assert forall i | 0 <= i < |gains| :: gains[i] in gains;
  }

  /** Such a work: a gain without values, a manual reference to it, and a financial gain of 1.  It
      shows no value and sorts by 1. */
  lemma {:induction false} BlankReferenceSortsOtherwise(r: Rounding, id: string, kind: GainType)
    ensures var table := [Gain(id, 0, kind, None, None, None, None)];
            var w, gains := Work(0, true, Some(GAIN_PREFIX + id), Some(1.0), None), OfWork(table, 0);
            && IdsUnique(table) && ChangesComputed(r, table) && |JoinedRows(table, w)| == 1
            && Shown(r, w, gains) == None && SortKey(w, b => MaxAbs(gains, b), JoinedRows(table, w)[0]) == Some(1.0)
  {
    var g := Gain(id, 0, kind, None, None, None, None);
    var table, w := [g], Work(0, true, Some(GAIN_PREFIX + id), Some(1.0), None);
    GainRefs();
    assert w.ref.value != "financial" && w.ref.value != "time_saving" && w.ref.value != "";
    OneGain(g, w, id);
    hide GainById, OfWork, Referenced, IsGainRef, MaxAbs, AutomaticShown;
  }

  lemma {:induction false} OneGain(g: Gain, w: Work, id: string)
    requires g.id == id && g.work == w.id && w.ref == Some(GAIN_PREFIX + id)
    ensures OfWork([g], w.id) == [g] && JoinedRows([g], w) == [Some(g)]
    ensures GainById([g], w.ref.value[|GAIN_PREFIX|..]) == Some(g)
  {
    GainRefs();
    assert [g][..0] == [];
    assert OfWork([g], w.id) == [] + [g] == [g];
    assert Referenced([g], w) == [] + [g] == [g];
  }

  // ---- What the values mean ----

  /** Rounding to four and to three places is off by at most half a unit of the last place. */
  ghost predicate RoundsClosely(r: Rounding) {
    && (forall x: real :: -0.00005 <= r.to4(x) - x <= 0.00005)
    && (forall x: real :: -0.0005 <= r.to3(x) - x <= 0.0005)
  }

  /** A change is the new value less the old one, and its percent is relative to the size of the old
      value, keeping the sign: both up to rounding, and no percent over a zero. */
  lemma {:induction false} ChangeMeans(r: Rounding, previous: Option<real>, next: Option<real>)
    requires RoundsClosely(r)
    ensures var (amount, percent) := ComputeChange(r, previous, next);
            && (amount.Some? <==> previous.Some? && next.Some?)
            && (percent.Some? <==> previous.Some? && next.Some? && previous.value != 0.0)
            && (amount.Some? ==> -0.00005 <= amount.value - (next.value - previous.value) <= 0.00005)
            && (percent.Some? ==>
                  var base := if previous.value < 0.0 then -previous.value else previous.value;
                  -Times(0.0005, base) <= Times(percent.value, base) - 100.0 * amount.value <= Times(0.0005, base))
  {
    if previous.None? || next.None? { return; }
    var x := next.value - previous.value;
    assert -0.00005 <= r.to4(x) - x <= 0.00005;
    if previous.value != 0.0 { PercentMeans(r, r.to4(x), Abs(previous.value)); }
    hide RoundsClosely, Times;
  }

  function Times(a: real, b: real): real { a * b }

  lemma PercentMeans(r: Rounding, amount: real, base: real)
    requires RoundsClosely(r) && base > 0.0
    ensures var percent := r.to3(amount / base * 100.0);
            -Times(0.0005, base) <= Times(percent, base) - 100.0 * amount <= Times(0.0005, base)
  {
    var exact := amount / base * 100.0;
    PercentOf(amount, base);
    ThirdPlace(r, exact);
    hide *;
    Scaled(r.to3(exact), exact, base);
  }

  lemma ThirdPlace(r: Rounding, x: real)
    requires RoundsClosely(r)
    ensures -0.0005 <= r.to3(x) - x <= 0.0005
  {}

  lemma Scaled(shown: real, exact: real, base: real)
    requires base > 0.0 && -0.0005 <= shown - exact <= 0.0005
    ensures -Times(0.0005, base) <= Times(shown, base) - Times(exact, base) <= Times(0.0005, base)
  {
    hide *;
    Product(shown - exact + 0.0005, base);
    Product(0.0005 - (shown - exact), base);
    Distributes(shown, exact, base);
  }

  lemma Distributes(shown: real, exact: real, base: real)
    ensures Times(shown - exact + 0.0005, base) == Times(shown, base) - Times(exact, base) + Times(0.0005, base)
    ensures Times(0.0005 - (shown - exact), base) == Times(0.0005, base) - Times(shown, base) + Times(exact, base)
  {}

  lemma PercentOf(amount: real, base: real)
    requires base > 0.0
    ensures Times(amount / base * 100.0, base) == 100.0 * amount
  {
    var part := amount / base;
    assert part * base == amount;
    assert part * 100.0 * base == 100.0 * (part * base);
  }

  lemma Product(a: real, b: real)
    requires a >= 0.0 && b > 0.0
    ensures Times(a, b) >= 0.0
  {}

  const REDUCTIONS := {DowntimeReduction, GsfReduction, ScrapReduction, SlowRunningReduction}
  const OTHER_REDUCTIONS := {QualityDefectReduction, SafetyRiskReduction, EnergyReduction}

  lemma BucketsExactlyAs(t: GainType)
    ensures InBucket(t, Capacity) <==> t == CapacityIncrease
    ensures InBucket(t, Reduction) <==> t in REDUCTIONS
    ensures InBucket(t, QualitySafetyEnergy) <==> t in OTHER_REDUCTIONS
    ensures InBucket(t, Any)
  {}

  /** A gain of these kinds has a percent of this size, and none a larger one. */
  predicate IsLargest(gains: seq<Gain>, kinds: GainType -> bool, size: Option<real>) {
    match size
    case None => forall g | g in gains && kinds(g.kind) :: g.percent.None?
    case Some(v) =>
      && (exists g | g in gains :: kinds(g.kind) && (g.percent == Some(v) || g.percent == Some(-v)))
      && (forall g | g in gains && kinds(g.kind) && g.percent.Some? :: -v <= g.percent.value <= v)
  }

  lemma {:induction false} BestIsLargest(gains: seq<Gain>, b: Bucket)
    ensures IsLargest(gains, t => InBucket(t, b), BestShown(gains, b))
    decreases |gains|
  {
    if gains != [] {
      var front, last := gains[..|gains| - 1], gains[|gains| - 1];
      assert gains == front + [last];
      BestIsLargest(front, b);
      BestComesFrom(gains, b);
      hide InBucket;
    }
  }

  lemma {:induction false} BestComesFrom(gains: seq<Gain>, b: Bucket)
    ensures BestIn(gains, b).Some? ==> BestIn(gains, b).value in gains && InBucket(BestIn(gains, b).value.kind, b)
    decreases |gains|
  {
    if gains != [] {
      BestComesFrom(gains[..|gains| - 1], b);
      assert gains == gains[..|gains| - 1] + [gains[|gains| - 1]];
    }
  }

  /** Without a manual reference a work shows its financial gain, else its saved minutes, else the
      largest percent among its capacity gains, else among its reductions, else among its quality,
      safety and energy gains, else among all. */
  lemma {:induction false} AutomaticExactlyAs(w: Work, gains: seq<Gain>)
    ensures w.gainAmount.Some? ==> AutomaticShown(w, gains) == w.gainAmount
    ensures w.gainAmount.None? && w.savingMinutes.Some? ==> AutomaticShown(w, gains) == w.savingMinutes
    ensures w.gainAmount.None? && w.savingMinutes.None? ==>
              exists capacity, reduction, other, any ::
                && IsLargest(gains, t => t == CapacityIncrease, capacity)
                && IsLargest(gains, t => t in REDUCTIONS, reduction)
                && IsLargest(gains, t => t in OTHER_REDUCTIONS, other)
                && IsLargest(gains, t => true, any)
                && AutomaticShown(w, gains) == FirstOf([capacity, reduction, other, any])
  {
    LargestAlike(gains, Capacity, t => t == CapacityIncrease);
    LargestAlike(gains, Reduction, t => t in REDUCTIONS);
    LargestAlike(gains, QualitySafetyEnergy, t => t in OTHER_REDUCTIONS);
    LargestAlike(gains, Any, t => true);
    var all := [BestShown(gains, Capacity), BestShown(gains, Reduction), BestShown(gains, QualitySafetyEnergy),
                BestShown(gains, Any)];
    FirstOfFour(all[0], all[1], all[2], all[3]);
    hide IsLargest, FirstOf, BestIn;
  }

  lemma {:induction false} LargestAlike(gains: seq<Gain>, b: Bucket, kinds: GainType -> bool)
    requires forall t :: kinds(t) <==> InBucket(t, b)
    ensures IsLargest(gains, kinds, BestShown(gains, b))
  {
    BestIsLargest(gains, b);
    hide BestShown, InBucket;
  }

  /** The first that is there. */
  function FirstOf(xs: seq<Option<real>>): Option<real>
    decreases |xs|
  {
    if xs == [] then None else if xs[0].Some? then xs[0] else FirstOf(xs[1..])
  }

  lemma FirstOfFour(a: Option<real>, b: Option<real>, c: Option<real>, d: Option<real>)
    ensures FirstOf([a, b, c, d]) == if a.Some? then a else if b.Some? then b else if c.Some? then c else d
  {
    assert [a, b, c, d][1..] == [b, c, d] && [b, c, d][1..] == [c, d] && [c, d][1..] == [d] && [d][1..] == [];
    assert FirstOf([d]) == d;
    assert FirstOf([c, d]) == if c.Some? then c else d;
    assert FirstOf([b, c, d]) == if b.Some? then b else FirstOf([c, d]);
  }

  /** A manual reference decides what is shown: to the financial gain or the saved minutes, where there
      are any, that value; to one of the work's gains, its percent, over a zero its amount, and nothing
      where a value is missing.  Any other reference leaves the automatic value. */
  lemma {:induction false} ManualExactlyAs(r: Rounding, w: Work, gains: seq<Gain>)
    ensures w.manual && w.ref == Some("financial") && w.gainAmount.Some? ==> Shown(r, w, gains) == w.gainAmount
    ensures w.manual && w.ref == Some("time_saving") && w.savingMinutes.Some? ==> Shown(r, w, gains) == w.savingMinutes
    ensures forall i | 0 <= i < |gains| && w.manual && w.ref == Some("gain:" + gains[i].id) && IdsUnique(gains) ::
              Shown(r, w, gains) ==
                match (gains[i].previous, gains[i].next)
                case (Some(p), Some(n)) =>
                  if p == 0.0 then Some(r.to4(n - p))
                  else Some(r.to3(r.to4(n - p) / (if p < 0.0 then -p else p) * 100.0))
                case _ => None
    ensures !w.manual || w.ref.None? || NamesNothing(w, gains) ==> Shown(r, w, gains) == AutomaticShown(w, gains)
  {
    ManualColumns(r, w, gains);
    forall i | 0 <= i < |gains| && w.manual && w.ref == Some("gain:" + gains[i].id) && IdsUnique(gains)
      ensures Shown(r, w, gains) == ChangeShown(ComputeChange(r, gains[i].previous, gains[i].next))
    {
      ManualGain(r, w, gains, i);
    }
    if w.manual && w.ref.Some? && NamesNothing(w, gains) { ManualNothing(r, w, gains); }
    hide AutomaticShown, NamesNothing, ManualShown;
  }

  lemma ManualColumns(r: Rounding, w: Work, gains: seq<Gain>)
    ensures w.manual && w.ref == Some("financial") && w.gainAmount.Some? ==> Shown(r, w, gains) == w.gainAmount
    ensures w.manual && w.ref == Some("time_saving") && w.savingMinutes.Some? ==> Shown(r, w, gains) == w.savingMinutes
  {
    GainRefs();
    hide AutomaticShown, GainById, IsGainRef;
  }

  function ChangeShown(change: (Option<real>, Option<real>)): Option<real> {
    if change.1.Some? then change.1 else change.0
  }

  lemma {:induction false} ManualGain(r: Rounding, w: Work, gains: seq<Gain>, i: nat)
    requires i < |gains| && w.manual && w.ref == Some("gain:" + gains[i].id) && IdsUnique(gains)
    ensures Shown(r, w, gains) == ChangeShown(ComputeChange(r, gains[i].previous, gains[i].next))
  {
    GainRefs();
    var ref := GAIN_PREFIX + gains[i].id;
    assert w.ref.value == ref && ref[|GAIN_PREFIX|..] == gains[i].id && IsGainRef(ref);
    assert ref != "" && ref != "financial" && ref != "time_saving";
    assert gains[i] in gains;
    assert GainById(gains, gains[i].id) == Some(gains[i]);
    hide GainById, IsGainRef, ComputeChange, AutomaticShown;
  }

  lemma {:induction false} ManualNothing(r: Rounding, w: Work, gains: seq<Gain>)
    requires w.manual && w.ref.Some? && NamesNothing(w, gains)
    ensures ManualShown(r, w, gains) == NotManual
  {
    GainRefs();
    var ref := w.ref.value;
    if IsGainRef(ref) {
      var id := ref[|GAIN_PREFIX|..];
      assert ref == GAIN_PREFIX + id;
      assert GainById(gains, id).None?;
    }
    hide GainById, IsGainRef, ComputeChange, NamesNothing;
  }

  /** The reference is to nothing that the work has. */
  predicate NamesNothing(w: Work, gains: seq<Gain>)
    requires w.ref.Some?
  {
    && (w.ref.value == "financial" ==> w.gainAmount.None?)
    && (w.ref.value == "time_saving" ==> w.savingMinutes.None?)
    && (forall g | g in gains :: w.ref.value != "gain:" + g.id)
  }
}
