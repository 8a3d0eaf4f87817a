/** The walk as clients make it: every cursor goes out as a token and comes back through the
    decoding, and the query binds whatever value that gives. */
module CursorWalk {
  import opened Cursors
  import opened Options
  import opened Pagination

  /** A sort column and the id column: the Python value read for a sort value of the table (given by
      its rank in the column's order), the rank at which the database compares a value bound to the
      column, and ids as text. */
  datatype Column = Column(
    show: int -> Value, bind: Value -> int, showId: nat -> string, readId: string -> Option<nat>)

  /** Timestamps, dates and ids are written and read exactly, and only nulls are read as None. */
  ghost predicate Readable(iso: Iso, col: Column) {
    && Exact(iso)
    && (forall v :: !col.show(v).Null?)
    && (forall id: nat :: col.readId(col.showId(id)) == Some(id))
  }

  function Shown(col: Column, value: Option<int>): Value {
    if value.None? then Null else col.show(value.value)
  }

  function Bound(col: Column, v: Value): Option<int> { if v.Null? then None else Some(col.bind(v)) }

  /** next_cursor for the last row of a page. */
  function Issued(iso: Iso, context: Context, col: Column, last: Row): Token {
    EncodeCursor(iso, context, Shown(col, last.value), col.showId(last.id))
  }

  /** The value and id that the next request hands to the query; None when the cursor is refused. */
  function Accepted(iso: Iso, context: Context, col: Column, token: Token): Option<Row> {
    match DecodeCursor(iso, token, context)
    case None => None
    case Some(c) =>
      match col.readId(c.id)
      case None => None
      case Some(id) => Some(Row(Bound(col, c.value), id))
  }

  /** Following the tokens through a series of requests with the same filters and order. */
  ghost function TokenWalked(
    iso: Iso, context: Context, col: Column, dir: Direction, requests: seq<Request>, token: Option<Token>): Walk
    decreases |requests|
  {
    if requests == [] then Walk([], false) else
    var cursor := if token.None? then None else Accepted(iso, context, col, token.value);
    if token.Some? && cursor.None? then Walk([], false) else
    var p := Fetched(dir, requests[0].table, cursor, requests[0].limit);
    if p.next.None? then Walk(p.rows, true) else
    var w := TokenWalked(iso, context, col, dir, requests[1..], Some(Issued(iso, context, col, p.next.value)));
    Walk(p.rows + w.rows, w.completed)
  }

  // ---- Which columns keep their order through a cursor ----

  /** What comes back of a sort value. */
  function Returned(v: Value): Value {
    match v
    case Member(text) => Text(text)
    case Uuid(text) => Text(text)
    case Decimal(x) => Float(x)
    case _ => v
  }

  /** The database compares what comes back of each value as it compares the value. */
  ghost predicate Transparent(col: Column) {
    forall v :: col.bind(Returned(col.show(v))) == v
  }

  /** An issued cursor is accepted by the same list: it names the same id, and the rank at which the
      database compares what comes back of the value. */
  lemma {:induction false} AcceptedIs(iso: Iso, context: Context, col: Column, r: Row)
    requires Readable(iso, col)
    ensures Accepted(iso, context, col, Issued(iso, context, col, r))
            == Some(Row(if r.value.None? then None else Some(col.bind(Returned(col.show(r.value.value)))), r.id))
  {
    var v := Shown(col, r.value);
    CursorRoundTrip(iso, context, v, col.showId(r.id), context);
    ValueRoundTrip(iso, v);
    if r.value.Some? {
      var x := r.value.value;
      assert !col.show(x).Null?;
    }
    assert col.readId(col.showId(r.id)) == Some(r.id);
  }

  /** Through a transparent column the tokens change nothing, whatever the tables are. */
  lemma {:induction false} TokensChangeNothing(
    iso: Iso, context: Context, col: Column, dir: Direction, requests: seq<Request>, cursor: Option<Row>)
    requires Readable(iso, col) && Transparent(col)
    ensures TokenWalked(iso, context, col, dir, requests,
                        if cursor.None? then None else Some(Issued(iso, context, col, cursor.value)))
            == Walked(dir, requests, cursor)
    decreases |requests|
  {
    if requests == [] { return; }
    hide Fetched, Accepted, Issued;
    if cursor.Some? {
      AcceptedIs(iso, context, col, cursor.value);
      var v := cursor.value.value;
      assert v.Some? ==> col.bind(Returned(col.show(v.value))) == v.value;
    }
    TokensChangeNothing(iso, context, col, dir, requests[1..],
                        Fetched(dir, requests[0].table, cursor, requests[0].limit).next);
  }

  /** The table stands still, and every page shows something. */
  ghost predicate Still(requests: seq<Request>, table: set<Row>) {
    Sensible(requests) && forall i | 0 <= i < |requests| :: requests[i].table == table
  }

  /** Every completed walk by tokens over a table that stands still is the table in the query's order. */
  ghost predicate WalksInOrder(iso: Iso, context: Context, col: Column, dir: Direction) {
    forall requests, table | Still(requests, table) ::
      TokenWalked(iso, context, col, dir, requests, None).completed ==>
        TokenWalked(iso, context, col, dir, requests, None).rows == Sorted(dir, table)
  }

  /** Two rows of one sort value. */
  function Twins(v: int): set<Row> { {Row(Some(v), 0), Row(Some(v), 1)} }

  lemma TwinsAreTwo(v: int)
    ensures |Twins(v)| == 2
  {}

  lemma {:induction false} FirstPage(dir: Direction, v: int)
    ensures var p := Fetched(dir, Twins(v), None, 1);
            |p.rows| == 1 && p.next.Some? && p.next.value.value == Some(v)
  {
    TwinsAreTwo(v);
    assert Rest(dir, Twins(v), None) == Twins(v);
    PageFacts(dir, Twins(v), None, 1);
  }

  /** After a cursor of another value, the page has both rows or neither. */
  lemma {:induction false} SecondPage(dir: Direction, v: int, cursor: Row)
    requires cursor.value != Some(v)
    ensures var p := Fetched(dir, Twins(v), Some(cursor), 2);
            p.next.None? && |p.rows| != 1
  {
    var a, b := Row(Some(v), 0), Row(Some(v), 1);
    var rest := Rest(dir, Twins(v), Some(cursor));
    assert KeysetAfter(dir, cursor, a) == True <==> KeysetAfter(dir, cursor, b) == True;
    assert rest == Twins(v) || rest == {};
    TwinsAreTwo(v);
    hide Rest, Twins;
  }

  /** Of two rows whose value comes back as another, a walk shows one or three. */
  lemma {:induction false} TwinsGoWrong(iso: Iso, context: Context, col: Column, dir: Direction, v: int)
    requires Readable(iso, col) && col.bind(Returned(col.show(v))) != v
    ensures var w := TokenWalked(iso, context, col, dir, [Request(Twins(v), 1), Request(Twins(v), 2)], None);
            w.completed && |w.rows| != |Twins(v)|
  {
    hide Fetched, Accepted, Issued, Twins, Returned, Readable;
    var requests, p := [Request(Twins(v), 1), Request(Twins(v), 2)], Fetched(dir, Twins(v), None, 1);
    TwinsAreTwo(v);
    FirstPage(dir, v);
    AcceptedIs(iso, context, col, p.next.value);
    var token := Issued(iso, context, col, p.next.value);
    SecondPage(dir, v, Accepted(iso, context, col, token).value);
    assert requests[1..] == [Request(Twins(v), 2)];
    assert TokenWalked(iso, context, col, dir, requests[1..], Some(token)).completed;
  }

  /** Walking by tokens gives every table in order if and only if the column is transparent. */
  lemma {:induction false} WalksInOrderExactlyWhen(iso: Iso, context: Context, col: Column, dir: Direction)
    requires Readable(iso, col)
    ensures WalksInOrder(iso, context, col, dir) <==> Transparent(col)
  {
    hide TokenWalked, Returned;
    if Transparent(col) {
      forall requests, table | Still(requests, table)
        ensures TokenWalked(iso, context, col, dir, requests, None).completed ==>
                  TokenWalked(iso, context, col, dir, requests, None).rows == Sorted(dir, table)
      {
        TokensChangeNothing(iso, context, col, dir, requests, None);
        WalkIsTheSortedTable(dir, requests, table);
      }
    } else {
      var v :| col.bind(Returned(col.show(v))) != v;
      TwinsGoWrong(iso, context, col, dir, v);
      assert Still([Request(Twins(v), 1), Request(Twins(v), 2)], Twins(v));
    }
  }

  /** A column whose own values are compared at their own ranks is transparent if and only if so are
      the texts of its enum members and UUIDs and the floats of its decimals: a column of other
      values always is. */
  lemma {:induction false} TransparentExactlyWhen(col: Column)
    requires forall v :: col.bind(col.show(v)) == v
    ensures Transparent(col) <==>
              forall v :: match col.show(v)
                          case Member(text) => col.bind(Text(text)) == v
                          case Uuid(text) => col.bind(Text(text)) == v
                          case Decimal(x) => col.bind(Float(x)) == v
                          case _ => true
  {
    forall v ensures col.bind(Returned(col.show(v))) == v <==>
                       match col.show(v)
                       case Member(text) => col.bind(Text(text)) == v
                       case Uuid(text) => col.bind(Text(text)) == v
                       case Decimal(x) => col.bind(Float(x)) == v
                       case _ => true
    {
      assert col.bind(col.show(v)) == v;
    }
  }
}
