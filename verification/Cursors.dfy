/** Page cursors: the tagged encoding of a sort value, and when a cursor is accepted.  The base64
    and JSON layers are taken as exact; a text they cannot read is a `Malformed` token. */
module Cursors {
  import opened Options

  /** A Python value that a query may be sorted by. */
  datatype Value =
    | Null | Bool(b: bool) | Member(text: string) | Uuid(text: string) | Moment(t: int) | Day(d: int)
    | Whole(n: int) | Float(x: real) | Decimal(x: real) | Text(s: string)

  datatype Json = JNull | JBool(b: bool) | JInt(n: int) | JReal(x: real) | JText(s: string)

  /** isoformat and fromisoformat for dates and timestamps. */
  datatype Iso = Iso(
    showDay: int -> string, readDay: string -> Option<int>,
    showMoment: int -> string, readMoment: string -> Option<int>)

  ghost predicate Exact(iso: Iso) {
    && (forall d :: iso.readDay(iso.showDay(d)) == Some(d))
    && (forall t :: iso.readMoment(iso.showMoment(t)) == Some(t))
  }

  function EncodeValue(iso: Iso, v: Value): (string, Json) {
    match v
    case Null => ("null", JNull)
    case Bool(b) => ("bool", JBool(b))
    case Member(text) => ("str", JText(text))
    case Uuid(text) => ("str", JText(text))
    case Moment(t) => ("datetime", JText(iso.showMoment(t)))
    case Day(d) => ("date", JText(iso.showDay(d)))
    case Whole(n) => ("int", JInt(n))
    case Float(x) => ("float", JReal(x))
    case Decimal(x) => ("float", JReal(x))
    case Text(s) => ("str", JText(s))
  }

  function AsIs(raw: Json): Value {
    match raw
    case JNull => Null
    case JBool(b) => Bool(b)
    case JInt(n) => Whole(n)
    case JReal(x) => Float(x)
    case JText(s) => Text(s)
  }

  /** The tag decides only between null, dates, timestamps and everything else. */
  function DecodeValue(iso: Iso, tag: string, raw: Json): Option<Value> {
    if tag == "null" then Some(Null)
    else if tag == "bool" || tag == "int" || tag == "float" || tag == "str" then Some(AsIs(raw))
    else if tag == "date" then
      if !raw.JText? || iso.readDay(raw.s).None? then None else Some(Day(iso.readDay(raw.s).value))
    else if tag == "datetime" then
      if !raw.JText? || iso.readMoment(raw.s).None? then None else Some(Moment(iso.readMoment(raw.s).value))
    else None
  }

  /** A sort value survives the cursor exactly, except that an enum member or a UUID comes back as
      its text and a decimal as a float. */
  lemma ValueRoundTrip(iso: Iso, v: Value)
    requires Exact(iso)
    ensures var e := EncodeValue(iso, v); DecodeValue(iso, e.0, e.1).Some?
    ensures var e := EncodeValue(iso, v);
            DecodeValue(iso, e.0, e.1) == Some(v) <==> !v.Member? && !v.Uuid? && !v.Decimal?
  {
    match v
    case Day(d) => assert iso.readDay(iso.showDay(d)) == Some(d);
    case Moment(t) => assert iso.readMoment(iso.showMoment(t)) == Some(t);
    case _ =>
  }

  datatype Context = Context(sortBy: string, sortDir: string, filterSig: string)

  datatype Token = Malformed | Payload(version: int, context: Context, tag: string, raw: Json, id: string)

  datatype Cursor = Cursor(context: Context, value: Value, id: string)

  const CURSOR_VERSION := 1

  function EncodeCursor(iso: Iso, context: Context, value: Value, id: string): Token {
    var e := EncodeValue(iso, value);
    Payload(CURSOR_VERSION, context, e.0, e.1, id)
  }

  /** decode_cursor; None is the InvalidCursorError. */
  function DecodeCursor(iso: Iso, token: Token, context: Context): Option<Cursor> {
    if token.Malformed? || token.version != CURSOR_VERSION then None else
    match DecodeValue(iso, token.tag, token.raw)
    case None => None
    case Some(v) => if token.context != context then None else Some(Cursor(context, v, token.id))
  }

  /** A tagged value that can be read: dates and timestamps need a text in their format. */
  predicate IsReadable(iso: Iso, tag: string, raw: Json) {
    || tag in {"null", "bool", "int", "float", "str"}
    || (tag == "date" && raw.JText? && iso.readDay(raw.s).Some?)
    || (tag == "datetime" && raw.JText? && iso.readMoment(raw.s).Some?)
  }

  /** Any token, issued here or not, is accepted exactly when it is a readable payload of version 1 for
      the sort column, direction and filters asked for; its id is taken over, and its value is none for
      the null tag, the date or timestamp read, or the raw value under the other tags. */
  lemma TokenAcceptedExactlyWhen(iso: Iso, token: Token, asked: Context)
    ensures var c := DecodeCursor(iso, token, asked);
            && (c.Some? <==>
                  && token.Payload? && token.version == 1 && IsReadable(iso, token.tag, token.raw)
                  && token.context.sortBy == asked.sortBy && token.context.sortDir == asked.sortDir
                  && token.context.filterSig == asked.filterSig)
            && (c.Some? ==>
                  && c.value.context == asked && c.value.id == token.id
                  && (token.tag == "null" <==> c.value.value == Null && token.tag !in {"bool", "int", "float", "str"})
                  && (token.tag == "date" ==> c.value.value == Day(iso.readDay(token.raw.s).value))
                  && (token.tag == "datetime" ==> c.value.value == Moment(iso.readMoment(token.raw.s).value))
                  && (token.tag in {"bool", "int", "float", "str"} ==>
                        match token.raw
                        case JNull => c.value.value == Null
                        case JBool(b) => c.value.value == Bool(b)
                        case JInt(n) => c.value.value == Whole(n)
                        case JReal(x) => c.value.value == Float(x)
                        case JText(s) => c.value.value == Text(s)))
  {}

  /** A cursor is accepted back if and only if the request has the filters, sort column and direction
      it was issued for; then it carries the id it was issued with. */
  lemma CursorRoundTrip(iso: Iso, issued: Context, value: Value, id: string, asked: Context)
    requires Exact(iso)
    ensures var c := DecodeCursor(iso, EncodeCursor(iso, issued, value, id), asked);
            && (c.Some? <==> issued == asked)
            && (c.Some? ==> c.value.context == issued && c.value.id == id)
            && (c.Some? && !value.Member? && !value.Uuid? && !value.Decimal? ==> c.value.value == value)
  {
    ValueRoundTrip(iso, value);
  }
}
