/** Performance records, their scores and the data-quality issues, and what feeding one
    resolved row into them means.  `ApplyRow` is the one-row-at-a-time ingester against which
    the batched one is proved. */
module IngestionStore {
  import opened Options

  type Id = nat

  datatype Quality = Complete | Missing | Invalid | NeedsSourceCorrection | Duplicate | Suspicious | Reprocessed

  datatype Source = Source(system: string, recordId: string)

  /** The natural key of a record: its identity fields. */
  datatype Key = Key(foreman: Id, kpi: Id, chief: Id, shift: Id, date: int, plant: Id)

  /** The fields an update may change. */
  datatype Content = Content(
    target: Option<real>, actual: Option<real>, numerator: Option<real>, denominator: Option<real>,
    unit: string, status: Quality, updatedAt: Option<int>, production: Option<Id>)

  datatype Record = Record(source: Source, key: Key, content: Content)

  datatype Score = Score(rule: Id, raw: real, capped: real, weight: real, version: int)

  datatype Issue = Issue(record: Option<Id>, kind: Quality, source: Source)

  /** One resolved feed row, with the id it would be inserted under. */
  datatype Row = Row(id: Id, source: Source, key: Key, content: Content, score: Option<Score>)

  datatype State = State(
    records: map<Id, Record>, scores: map<Id, Score>, issues: seq<Issue>, success: int, skipped: int)

  /** Numeric(14,4): rounded half away from zero. */
  function Round4(x: real): real {
    if x >= 0.0 then (x * 10000.0 + 0.5).Floor as real / 10000.0 else -((-x * 10000.0 + 0.5).Floor as real / 10000.0)
  }

  function StoredNumber(x: Option<real>): Option<real> {
    if x.None? then None else Some(Round4(x.value))
  }

  function Stored(c: Content): Content {
    c.(target := StoredNumber(c.target), actual := StoredNumber(c.actual),
       numerator := StoredNumber(c.numerator), denominator := StoredNumber(c.denominator))
  }

  /** _values_differ on a numeric column: a tolerance of 1e-6, and None differs from any number. */
  predicate NumbersDiffer(a: Option<real>, b: Option<real>) {
    if a.None? || b.None? then a != b
    else a.value - b.value > 0.000001 || b.value - a.value > 0.000001
  }

  predicate ContentChanged(old': Content, new': Content) {
    || NumbersDiffer(old'.target, new'.target) || NumbersDiffer(old'.actual, new'.actual)
    || NumbersDiffer(old'.numerator, new'.numerator) || NumbersDiffer(old'.denominator, new'.denominator)
    || old'.unit != new'.unit || old'.status != new'.status
    || old'.updatedAt != new'.updatedAt || old'.production != new'.production
  }

  // ---- The two uniqueness constraints ----

  ghost predicate SourceUnique(records: map<Id, Record>) {
    forall a, b | a in records && b in records && records[a].source == records[b].source :: a == b
  }

  ghost predicate KeyUnique(records: map<Id, Record>) {
    forall a, b | a in records && b in records && records[a].key == records[b].key :: a == b
  }

  predicate KeyTaken(records: map<Id, Record>, k: Key) {
    exists a | a in records :: records[a].key == k
  }

  predicate SourceTaken(records: map<Id, Record>, s: Source) {
    exists a | a in records :: records[a].source == s
  }

  ghost function IdOf(records: map<Id, Record>, s: Source): (r: Option<Id>)
    ensures r.Some? <==> SourceTaken(records, s)
    ensures r.Some? ==> r.value in records && records[r.value].source == s
  {
    if SourceTaken(records, s) then
      var a :| a in records && records[a].source == s;
      Some(a)
    else None
  }

  datatype Kind = Fresh | Conflict(id: Id) | Changed(id: Id) | Same(id: Id)

  function KindAgainst(id: Id, r: Record, row: Row): Kind {
    if r.key != row.key then Conflict(id)
    else if ContentChanged(r.content, row.content) then Changed(id)
    else Same(id)
  }

  /** How a row stands against the records read at the start of a flush. */
  ghost function Classify(records: map<Id, Record>, row: Row): Kind {
    match IdOf(records, row.source)
    case None => Fresh
    case Some(a) => KindAgainst(a, records[a], row)
  }

  function AsRecord(row: Row): Record {
    Record(row.source, row.key, Stored(row.content))
  }

  function WithScore(scores: map<Id, Score>, id: Id, score: Option<Score>): map<Id, Score> {
    if score.Some? then scores[id := score.value] else scores - {id}
  }

  // ---- The simple ingester ----

  ghost function ApplyRow(st: State, row: Row): State {
    match Classify(st.records, row)
    case Fresh =>
      if KeyTaken(st.records, row.key) then
        st.(issues := st.issues + [Issue(None, Duplicate, row.source)], skipped := st.skipped + 1)
      else
        State(st.records[row.id := AsRecord(row)], WithScore(st.scores, row.id, row.score),
              st.issues + (if row.content.status == Complete then []
                           else [Issue(Some(row.id), row.content.status, row.source)]),
              st.success + 1, st.skipped)
    case Conflict(_) =>
      st.(issues := st.issues + [Issue(None, Suspicious, row.source)], skipped := st.skipped + 1)
    case Changed(a) =>
      var status := row.content.status;
      State(st.records[a := st.records[a].(content := Stored(row.content))], WithScore(st.scores, a, row.score),
            st.issues + [Issue(Some(a), if status == Complete then Reprocessed else status, row.source)],
            st.success + 1, st.skipped)
    case Same(_) => st.(success := st.success + 1)
  }

  ghost function ApplyAll(st: State, rows: seq<Row>): State
    decreases |rows|
  {
    if rows == [] then st else ApplyRow(ApplyAll(st, rows[..|rows| - 1]), rows[|rows| - 1])
  }

  ghost predicate Valid(st: State) {
    SourceUnique(st.records) && KeyUnique(st.records) && st.scores.Keys <= st.records.Keys
  }

  /** uuid4 never repeats: the ids of the rows are new and pairwise different. */
  ghost predicate FreshIds(records: map<Id, Record>, rows: seq<Row>) {
    && (forall i | 0 <= i < |rows| :: rows[i].id !in records)
    && (forall i, j | 0 <= i < j < |rows| :: rows[i].id != rows[j].id)
  }

  ghost predicate DistinctSources(rows: seq<Row>) {
    forall i, j | 0 <= i < j < |rows| :: rows[i].source != rows[j].source
  }

  // ---- What one row leaves alone ----

  lemma {:induction false} InsertKeepsUnique(records: map<Id, Record>, id: Id, r: Record)
    requires SourceUnique(records) && KeyUnique(records) && id !in records
    requires !KeyTaken(records, r.key) && !SourceTaken(records, r.source)
    ensures SourceUnique(records[id := r]) && KeyUnique(records[id := r])
  {}

  lemma {:induction false} UpdateKeepsUnique(records: map<Id, Record>, a: Id, c: Content)
    requires SourceUnique(records) && KeyUnique(records) && a in records
    ensures SourceUnique(records[a := records[a].(content := c)]) && KeyUnique(records[a := records[a].(content := c)])
  {}

  lemma {:induction false} ApplyRowKeepsValid(st: State, row: Row)
    requires Valid(st) && row.id !in st.records
    ensures Valid(ApplyRow(st, row))
  {
    match Classify(st.records, row) {
      case Fresh =>
        if !KeyTaken(st.records, row.key) { InsertKeepsUnique(st.records, row.id, AsRecord(row)); }
      case Changed(a) => UpdateKeepsUnique(st.records, a, Stored(row.content));
      case _ =>
    }
  }

  lemma {:induction false} ApplyRowKeepsIdentity(st: State, row: Row)
    requires row.id !in st.records
    ensures st.records.Keys <= ApplyRow(st, row).records.Keys <= st.records.Keys + {row.id}
    ensures forall a | a in st.records ::
              ApplyRow(st, row).records[a].source == st.records[a].source
              && ApplyRow(st, row).records[a].key == st.records[a].key
  {}

  /** What a row writes: at most its own new record, or the stored record of its source. */
  lemma {:induction false} WritesOnlyOwnSource(st: State, row: Row, a: Id)
    requires row.id !in st.records && a in st.records && st.records[a].source != row.source
    ensures a in ApplyRow(st, row).records && ApplyRow(st, row).records[a] == st.records[a]
    ensures a in ApplyRow(st, row).scores <==> a in st.scores
    ensures a in st.scores ==> ApplyRow(st, row).scores[a] == st.scores[a]
  {}

  /** Under the uniqueness constraint a source has one record, so `IdOf` can only be it. */
  lemma {:induction false} IdOfIs(records: map<Id, Record>, a: Id)
    requires SourceUnique(records) && a in records
    ensures IdOf(records, records[a].source) == Some(a)
  {
    assert SourceTaken(records, records[a].source);
  }

  /** Rows of other sources stand exactly as before. */
  lemma {:induction false} OtherSourceUntouched(st: State, row: Row, other: Source)
    requires Valid(st) && row.id !in st.records && row.source != other
    ensures IdOf(ApplyRow(st, row).records, other) == IdOf(st.records, other)
    ensures var a := IdOf(st.records, other);
            a.Some? ==> ApplyRow(st, row).records[a.value] == st.records[a.value]
                        && (a.value in ApplyRow(st, row).scores <==> a.value in st.scores)
                        && (a.value in st.scores ==> ApplyRow(st, row).scores[a.value] == st.scores[a.value])
  {
    var records' := ApplyRow(st, row).records;
    ApplyRowKeepsIdentity(st, row);
    if SourceTaken(st.records, other) {
      var a := IdOf(st.records, other).value;
      WritesOnlyOwnSource(st, row, a);
      ApplyRowKeepsValid(st, row);
      IdOfIs(records', a);
    }
  }

  /** First writer keeps the key: feeding any rows never removes a record, never rebinds its
      source or identity fields, and keeps both uniqueness constraints. */
  lemma {:induction false} ApplyAllKeepsIdentity(st: State, rows: seq<Row>)
    requires Valid(st) && FreshIds(st.records, rows)
    ensures Valid(ApplyAll(st, rows))
    ensures st.records.Keys <= ApplyAll(st, rows).records.Keys
    ensures forall a | a in ApplyAll(st, rows).records && a !in st.records ::
              exists i | 0 <= i < |rows| :: rows[i].id == a
    ensures forall a | a in st.records ::
              ApplyAll(st, rows).records[a].source == st.records[a].source
              && ApplyAll(st, rows).records[a].key == st.records[a].key
    decreases |rows|
  {
    if rows != [] {
      var front := rows[..|rows| - 1];
      ApplyAllKeepsIdentity(st, front);
      var mid := ApplyAll(st, front);
      forall i | 0 <= i < |front| ensures front[i].id == rows[i].id {}
      assert rows[|rows| - 1].id !in mid.records;
      ApplyRowKeepsValid(mid, rows[|rows| - 1]);
      ApplyRowKeepsIdentity(mid, rows[|rows| - 1]);
    }
  }

  lemma {:induction false} ApplyAllOtherSource(st: State, rows: seq<Row>, other: Row)
    requires Valid(st) && FreshIds(st.records, rows)
    requires forall i | 0 <= i < |rows| :: rows[i].source != other.source
    ensures Classify(ApplyAll(st, rows).records, other) == Classify(st.records, other)
    ensures IdOf(ApplyAll(st, rows).records, other.source) == IdOf(st.records, other.source)
    ensures var a := IdOf(st.records, other.source);
            a.Some? ==>
              && ApplyAll(st, rows).records[a.value] == st.records[a.value]
              && (a.value in ApplyAll(st, rows).scores <==> a.value in st.scores)
              && (a.value in st.scores ==> ApplyAll(st, rows).scores[a.value] == st.scores[a.value])
    decreases |rows|
  {
    if rows != [] {
      var front, last := rows[..|rows| - 1], rows[|rows| - 1];
      ApplyAllOtherSource(st, front, other);
      ApplyAllKeepsIdentity(st, front);
      assert last.id !in ApplyAll(st, front).records;
      OtherSourceUntouched(ApplyAll(st, front), last, other.source);
    }
  }
}
