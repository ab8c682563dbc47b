/**
 * The remote collection client, as the seeding engine sees it: named
 * collections of rows, the replies a call can get back, and the effect of a
 * successful upsert, insert, select or delete on the stored rows.
 *
 * Rows are opaque: a map from column name to an opaque value, plus the demo
 * marker (`metadata->demo_data = true`) that clearing relies on.
 */
module Backend {

  datatype Option<+T> = None | Some(value: T)

  /** A thrown JavaScript value, as far as the catch handlers look at it. */
  datatype Exc =
    | ErrorObject(name: string, message: string)
    | NullValue
    | UndefinedValue
  {
    predicate Nullish() { NullValue? || UndefinedValue? }
  }

  /** What one awaited client call comes back with. */
  datatype Reply =
    | Ok                      // `{ error: null }`
    | Failed(message: string) // `{ error }` with `error.message`
    | Threw(exc: Exc)         // the call raised instead of returning

  /** What the select of the clear phase comes back with. */
  datatype SelectReply =
    | Selected                // `{ data }`: the rows the filter matches
    | NoData                  // `{ data: null, error: null }`
    | SelectFailed(message: string)
    | SelectThrew(exc: Exc)

  /** The reply scripted for call `i`; calls past the end of the script succeed. */
  function ReplyAt(replies: seq<Reply>, i: nat): Reply {
    if i < |replies| then replies[i] else Ok
  }

  predicate AllOk(replies: seq<Reply>, n: nat) {
    forall i :: 0 <= i < n ==> ReplyAt(replies, i).Ok?
  }

  /** `String(err)`: Error.prototype.toString for error objects (section 20.5.3.4 of ECMA-262). */
  function JsString(e: Exc): (s: string)
    ensures e.ErrorObject? && e.name != "" && e.message != "" ==> s == e.name + ": " + e.message
    ensures e.Nullish() ==> s == (if e.NullValue? then "null" else "undefined")
  {
    match e
    case ErrorObject(name, message) =>
      if name == "" then message
      else if message == "" then name
      else name + ": " + message
    case NullValue => "null"
    case UndefinedValue => "undefined"
  }

  type Columns = map<string, string>

  datatype Row = Row(columns: Columns, demoData: bool)

  type Db = map<string, seq<Row>>

  /** The rows of one collection; a collection never written to is empty. */
  function Rows(db: Db, table: string): seq<Row> {
    if table in db then db[table] else []
  }

  function KeyOf(row: Row, column: string): Option<string> {
    if column in row.columns then Some(row.columns[column]) else None
  }

  /** The row satisfies the filter `.eq(column, value)`. */
  predicate Matches(row: Row, column: string, value: string) {
    KeyOf(row, column) == Some(value)
  }

  /** Both rows carry `column`, with equal values: they conflict on it. */
  predicate SameKey(a: Row, b: Row, column: string) {
    KeyOf(a, column).Some? && KeyOf(a, column) == KeyOf(b, column)
  }

  predicate KeyPresent(rows: seq<Row>, column: string, value: string) {
    exists i :: 0 <= i < |rows| && Matches(rows[i], column, value)
  }

  /** No two rows conflict on `column` (a unique constraint). */
  predicate UniqueOn(rows: seq<Row>, column: string) {
    forall i, j :: 0 <= i < j < |rows| ==> !SameKey(rows[i], rows[j], column)
  }

  /** Position of the first row matching `.eq(column, value)`, or |rows| when none does. */
  function FirstMatch(rows: seq<Row>, column: string, value: string): (i: nat)
    ensures i <= |rows|
    ensures forall j :: 0 <= j < i ==> !Matches(rows[j], column, value)
    ensures i < |rows| ==> Matches(rows[i], column, value)
    ensures i == |rows| <==> !KeyPresent(rows, column, value)
  {
    if rows == [] then 0
    else if Matches(rows[0], column, value) then 0
    else 1 + FirstMatch(rows[1..], column, value)
  }

  /**
   * `upsert(row, { onConflict: column })`: the row replaces the one it
   * conflicts with, in place; a row with no conflict is added at the end.
   */
  function Upserted(rows: seq<Row>, row: Row, column: string): (r: seq<Row>)
    ensures row in r
    ensures |r| == if KeyOf(row, column).Some? && KeyPresent(rows, column, KeyOf(row, column).value)
                   then |rows| else |rows| + 1
    ensures forall j :: 0 <= j < |rows| && !SameKey(rows[j], row, column) ==> r[j] == rows[j]
  {
    match KeyOf(row, column)
    case None => rows + [row]
    case Some(v) =>
      var i := FirstMatch(rows, column, v);
      if i == |rows| then rows + [row]
      else
        assert rows[i := row][i] == row;
        rows[i := row]
  }

  datatype Policy = Insert | Upsert(conflict: string)

  /** The stored rows after one successful write under `policy`. */
  function WriteRows(policy: Policy, rows: seq<Row>, row: Row): seq<Row> {
    match policy
    case Insert => rows + [row]
    case Upsert(column) => Upserted(rows, row, column)
  }

  function Write(db: Db, table: string, policy: Policy, row: Row): (db': Db)
    ensures Rows(db', table) == WriteRows(policy, Rows(db, table), row)
    ensures forall t :: t != table ==> Rows(db', t) == Rows(db, t)
  {
    db[table := WriteRows(policy, Rows(db, table), row)]
  }

  /** The rows carrying the demo marker, in order. */
  function Marked(rows: seq<Row>): (r: seq<Row>)
    ensures forall x :: x in r ==> x in rows && x.demoData
    ensures forall i :: 0 <= i < |rows| && rows[i].demoData ==> rows[i] in r
  {
    if rows == [] then []
    else if rows[0].demoData then [rows[0]] + Marked(rows[1..])
    else Marked(rows[1..])
  }

  /**
   * `.select(column).eq('metadata->demo_data', true)`: the `column` value of
   * every marked row, one per marked row, in row order (None where the row
   * has no such value).
   */
  function SelectMarked(rows: seq<Row>, column: string): (ids: seq<Option<string>>)
    ensures |ids| == |Marked(rows)|
    ensures forall j :: 0 <= j < |ids| ==>
              exists i :: 0 <= i < |rows| && rows[i].demoData && ids[j] == KeyOf(rows[i], column)
    ensures forall i :: 0 <= i < |rows| && rows[i].demoData ==> KeyOf(rows[i], column) in ids
  {
    var marked := Marked(rows);
    var ids := seq(|marked|, j requires 0 <= j < |marked| => KeyOf(marked[j], column));
    assert forall j :: 0 <= j < |ids| ==> marked[j] in marked && ids[j] == KeyOf(marked[j], column);
    assert forall i :: 0 <= i < |rows| && rows[i].demoData ==>
             exists j :: 0 <= j < |marked| && marked[j] == rows[i] && ids[j] == KeyOf(rows[i], column);
    ids
  }

  /** The rows left after `.delete().eq(column, value)`; a null value matches no row. */
  function Without(rows: seq<Row>, column: string, value: Option<string>): (r: seq<Row>)
    ensures forall x :: x in r ==> x in rows
    ensures value.Some? ==> forall x :: x in r ==> !Matches(x, column, value.value)
    ensures forall i :: 0 <= i < |rows| && !(value.Some? && Matches(rows[i], column, value.value))
              ==> rows[i] in r
  {
    if rows == [] then []
    else
      var rest := Without(rows[1..], column, value);
      if value.Some? && Matches(rows[0], column, value.value) then rest else [rows[0]] + rest
  }

  function DeleteWhere(db: Db, table: string, column: string, value: Option<string>): (db': Db)
    ensures Rows(db', table) == Without(Rows(db, table), column, value)
    ensures forall t :: t != table ==> Rows(db', t) == Rows(db, t)
  {
    db[table := Without(Rows(db, table), column, value)]
  }
}
