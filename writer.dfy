/**
 * The per-collection write loop shared by both seeders: each record is
 * written under the collection's policy, its reply decides whether it counts
 * as a success or is logged as one error line, and the loop goes on to the
 * next record whatever the reply was. The two seeders differ only in how a
 * thrown exception becomes error text (`Style`).
 */
module Writer {
  import opened Backend
  import opened StoreLaws

  /** A record as the loop sees it: the row to write and the tag that heads its error lines. */
  datatype Item = Item(row: Row, tag: string)

  /**
   * ScriptStyle: the catch handler reads `err.message`, which itself throws
   * when the thrown value is null or undefined. LibraryStyle: the handler
   * uses `String(err)`, which never throws.
   */
  datatype Style = ScriptStyle | LibraryStyle

  /** What becomes of one record: written, logged as an error line, or an exception escaping its handler. */
  datatype Verdict = Written | Logged(line: string) | Fatal

  function Judge(style: Style, tag: string, reply: Reply): Verdict {
    match reply
    case Ok => Written
    case Failed(message) => Logged(tag + ": " + message)
    case Threw(exc) =>
      match style
      case LibraryStyle => Logged(tag + ": " + JsString(exc))
      case ScriptStyle => if exc.ErrorObject? then Logged(tag + ": " + exc.message) else Fatal
  }

  /**
   * A record counts as written exactly when its reply is Ok; every error
   * line starts with the record's tag and ": ", followed by the client's
   * message, `err.message` or `String(err)`.
   */
  lemma JudgeLaws(style: Style, tag: string, reply: Reply)
    ensures var v := Judge(style, tag, reply);
            && (v.Written? <==> reply.Ok?)
            && (v.Logged? ==> tag + ": " <= v.line)
            && (v.Logged? && reply.Failed? ==> v.line == tag + ": " + reply.message)
            && (v.Logged? && reply.Threw? && style == LibraryStyle ==> v.line == tag + ": " + JsString(reply.exc))
            && (v.Logged? && reply.Threw? && style == ScriptStyle ==> v.line == tag + ": " + reply.exc.message)
  {
    var v := Judge(style, tag, reply);
    if v.Logged? {
      var prefix := tag + ": ";
      assert v.line[..|prefix|] == prefix;
    }
  }

  /** The reply makes the record's handler itself throw: a null or undefined thrown under the script handler. */
  predicate Escapes(style: Style, reply: Reply) {
    style == ScriptStyle && reply.Threw? && reply.exc.Nullish()
  }

  /** Only a thrown null or undefined, under the script's handler, escapes the record's handler. */
  lemma JudgeFatal(style: Style, tag: string, reply: Reply)
    ensures Judge(style, tag, reply).Fatal? <==> Escapes(style, reply)
  {
  }

  /** None of the first n records has its handler throw. */
  predicate NoneEscape(style: Style, replies: seq<Reply>, n: nat) {
    forall i :: 0 <= i < n ==> !Escapes(style, ReplyAt(replies, i))
  }

  /** The records among the first n whose write succeeded. */
  function WrittenSet(replies: seq<Reply>, n: nat): set<nat> {
    set i: nat | i < n && ReplyAt(replies, i).Ok?
  }

  /** The rows of the successful writes among the first n records, in record order. */
  function OkRows(items: seq<Item>, replies: seq<Reply>, n: nat): (rows: seq<Row>)
    requires n <= |items|
    ensures |rows| == |WrittenSet(replies, n)|
    ensures forall r :: r in rows ==> exists i :: 0 <= i < n && items[i].row == r
  {
    if n == 0 then []
    else
      WrittenSetStep(replies, n - 1);
      OkRows(items, replies, n - 1) + (if ReplyAt(replies, n - 1).Ok? then [items[n - 1].row] else [])
  }

  /** Every successful record's row is among the rows written: a failure elsewhere loses none of them. */
  lemma {:induction false} OkRowsCover(items: seq<Item>, replies: seq<Reply>, n: nat)
    requires n <= |items|
    ensures forall i :: 0 <= i < n && ReplyAt(replies, i).Ok? ==> items[i].row in OkRows(items, replies, n)
  {
    if n > 0 {
      OkRowsCover(items, replies, n - 1);
    }
  }

  /** The error lines of the first n records, in record order. */
  function Lines(style: Style, items: seq<Item>, replies: seq<Reply>, n: nat): seq<string>
    requires n <= |items|
  {
    if n == 0 then []
    else
      Lines(style, items, replies, n - 1) +
      match Judge(style, items[n - 1].tag, ReplyAt(replies, n - 1))
      case Logged(line) => [line]
      case _ => []
  }

  lemma WrittenSetStep(replies: seq<Reply>, i: nat)
    ensures |WrittenSet(replies, i + 1)| == |WrittenSet(replies, i)| + if ReplyAt(replies, i).Ok? then 1 else 0
  {
    if ReplyAt(replies, i).Ok? {
      assert WrittenSet(replies, i + 1) == WrittenSet(replies, i) + {i};
    } else {
      assert WrittenSet(replies, i + 1) == WrittenSet(replies, i);
    }
  }

  /**
   * Each record makes exactly one success or one error line: with no escaping
   * exception, the error lines and the successful writes add up to the records.
   */
  lemma {:induction false} LinesCount(style: Style, items: seq<Item>, replies: seq<Reply>, n: nat)
    requires n <= |items|
    requires NoneEscape(style, replies, n)
    ensures |Lines(style, items, replies, n)| + |WrittenSet(replies, n)| == n
  {
    if n > 0 {
      LinesCount(style, items, replies, n - 1);
      WrittenSetStep(replies, n - 1);
    }
  }

  /** The error log is empty exactly when every write succeeded. */
  lemma {:induction false} LinesEmptyIffAllOk(style: Style, items: seq<Item>, replies: seq<Reply>, n: nat)
    requires n <= |items|
    requires NoneEscape(style, replies, n)
    ensures Lines(style, items, replies, n) == [] <==> AllOk(replies, n)
  {
    if n > 0 {
      LinesEmptyIffAllOk(style, items, replies, n - 1);
      var v := Judge(style, items[n - 1].tag, ReplyAt(replies, n - 1));
      assert v.Logged? <==> !ReplyAt(replies, n - 1).Ok?;
    }
  }

  /** Every error line starts with the tag of one of the records, followed by ": ". */
  lemma {:induction false} LinesTagged(style: Style, items: seq<Item>, replies: seq<Reply>, n: nat)
    requires n <= |items|
    ensures forall line :: line in Lines(style, items, replies, n) ==>
              exists i :: 0 <= i < n && items[i].tag + ": " <= line
  {
    if n > 0 {
      LinesTagged(style, items, replies, n - 1);
      JudgeLaws(style, items[n - 1].tag, ReplyAt(replies, n - 1));
    }
  }

  /**
   * A failed record whose handler does not throw has its own error line,
   * headed by its own tag: the line at position |Lines(i)| of the log of any
   * longer run, right after the lines of the records before it.
   */
  lemma {:induction false} FailureLine(style: Style, items: seq<Item>, replies: seq<Reply>, n: nat, i: nat)
    requires i < n <= |items|
    requires !ReplyAt(replies, i).Ok? && !Escapes(style, ReplyAt(replies, i))
    ensures |Lines(style, items, replies, i)| < |Lines(style, items, replies, n)|
    ensures items[i].tag + ": " <= Lines(style, items, replies, n)[|Lines(style, items, replies, i)|]
    decreases n
  {
    var k := |Lines(style, items, replies, i)|;
    if n == i + 1 {
      JudgeLaws(style, items[i].tag, ReplyAt(replies, i));
      JudgeFatal(style, items[i].tag, ReplyAt(replies, i));
    } else {
      FailureLine(style, items, replies, n - 1, i);
      var before := Lines(style, items, replies, n - 1);
      assert Lines(style, items, replies, n)[k] == before[k];
    }
  }

  /** When every write succeeded, every record's row was written, in order. */
  lemma {:induction false} OkRowsAllOk(items: seq<Item>, replies: seq<Reply>, n: nat)
    requires n <= |items|
    requires AllOk(replies, n)
    ensures OkRows(items, replies, n) == seq(n, i requires 0 <= i < n => items[i].row)
  {
    if n > 0 {
      OkRowsAllOk(items, replies, n - 1);
      assert seq(n, i requires 0 <= i < n => items[i].row)
             == seq(n - 1, i requires 0 <= i < n - 1 => items[i].row) + [items[n - 1].row];
    }
  }

  /** One record's effect on the store: its row is written only when the reply is Ok. */
  function StoreStep(current: Db, table: string, policy: Policy, item: Item, reply: Reply): Db {
    if reply.Ok? then Write(current, table, policy, item.row) else current
  }

  /** One more record: the stored rows follow the fold over the successful writes. */
  lemma WriteStep(current: Db, db: Db, table: string, policy: Policy, items: seq<Item>, replies: seq<Reply>, i: nat)
    requires i < |items|
    requires Rows(current, table) == Applied(policy, Rows(db, table), OkRows(items, replies, i))
    ensures Rows(StoreStep(current, table, policy, items[i], ReplyAt(replies, i)), table)
            == Applied(policy, Rows(db, table), OkRows(items, replies, i + 1))
  {
    if ReplyAt(replies, i).Ok? {
      WrittenStep(current, db, table, policy, items, replies, i);
    } else {
      assert OkRows(items, replies, i + 1) == OkRows(items, replies, i);
    }
  }

  /** A successful record appends its row to the fold. */
  lemma WrittenStep(current: Db, db: Db, table: string, policy: Policy, items: seq<Item>, replies: seq<Reply>, i: nat)
    requires i < |items| && ReplyAt(replies, i).Ok?
    requires Rows(current, table) == Applied(policy, Rows(db, table), OkRows(items, replies, i))
    ensures Rows(Write(current, table, policy, items[i].row), table)
            == Applied(policy, Rows(db, table), OkRows(items, replies, i + 1))
  {
    assert OkRows(items, replies, i + 1) == OkRows(items, replies, i) + [items[i].row];
    AppliedSnoc(policy, Rows(db, table), OkRows(items, replies, i), items[i].row);
  }

  /** The store after the first n records' writes. */
  function StoreAfter(db: Db, table: string, policy: Policy, items: seq<Item>, replies: seq<Reply>, n: nat): Db
    requires n <= |items|
  {
    if n == 0 then db
    else StoreStep(StoreAfter(db, table, policy, items, replies, n - 1), table, policy, items[n - 1], ReplyAt(replies, n - 1))
  }

  /** The collection written to holds its old rows folded with the rows of the successful writes, in order. */
  lemma {:induction false} StoreAfterRows(db: Db, table: string, policy: Policy, items: seq<Item>, replies: seq<Reply>, n: nat)
    requires n <= |items|
    ensures Rows(StoreAfter(db, table, policy, items, replies, n), table)
            == Applied(policy, Rows(db, table), OkRows(items, replies, n))
  {
    if n > 0 {
      var before := StoreAfter(db, table, policy, items, replies, n - 1);
      StoreAfterRows(db, table, policy, items, replies, n - 1);
      WriteStep(before, db, table, policy, items, replies, n - 1);
    }
  }

  /** No other collection changes. */
  lemma {:induction false} StoreAfterFrame(db: Db, table: string, policy: Policy, items: seq<Item>, replies: seq<Reply>, n: nat, other: string)
    requires n <= |items|
    requires other != table
    ensures Rows(StoreAfter(db, table, policy, items, replies, n), other) == Rows(db, other)
  {
    if n > 0 {
      StoreAfterFrame(db, table, policy, items, replies, n - 1, other);
    }
  }

  lemma NoneEscapeStep(style: Style, replies: seq<Reply>, i: nat)
    requires NoneEscape(style, replies, i)
    requires !Escapes(style, ReplyAt(replies, i))
    ensures NoneEscape(style, replies, i + 1)
  {
  }

  /** Outcome of one collection's loop; `processed` < |items| only when an exception escaped. */
  datatype Tally = Tally(success: nat, failed: nat, errors: seq<string>, processed: nat)

  /** One record's bookkeeping: a success is counted, a logged line is counted and pushed. */
  function TallyStep(t: Tally, v: Verdict): Tally {
    match v
    case Written => Tally(t.success + 1, t.failed, t.errors, t.processed + 1)
    case Logged(line) => Tally(t.success, t.failed + 1, t.errors + [line], t.processed + 1)
    case Fatal => t
  }

  /** The tally after the first n records, when none of them escaped its handler. */
  function TallyAfter(style: Style, items: seq<Item>, replies: seq<Reply>, n: nat): Tally
    requires n <= |items|
  {
    if n == 0 then Tally(0, 0, [], 0)
    else TallyStep(TallyAfter(style, items, replies, n - 1), Judge(style, items[n - 1].tag, ReplyAt(replies, n - 1)))
  }

  /** The tally counts the successful writes and holds exactly the error lines, one per failure. */
  lemma {:induction false} TallyAfterCounts(style: Style, items: seq<Item>, replies: seq<Reply>, n: nat)
    requires n <= |items|
    requires NoneEscape(style, replies, n)
    ensures var t := TallyAfter(style, items, replies, n);
            && t.processed == n
            && t.success == |WrittenSet(replies, n)|
            && t.errors == Lines(style, items, replies, n)
            && t.failed == |t.errors|
  {
    if n > 0 {
      TallyAfterCounts(style, items, replies, n - 1);
      WrittenSetStep(replies, n - 1);
    }
  }

  /** The loop's state after the first i records: the spec functions at i, no handler having thrown. */
  predicate Progress(style: Style, table: string, policy: Policy, items: seq<Item>, replies: seq<Reply>, db: Db,
                     i: nat, t: Tally, db': Db)
  {
    && i <= |items|
    && NoneEscape(style, replies, i)
    && t == TallyAfter(style, items, replies, i)
    && t.processed == i
    && db' == StoreAfter(db, table, policy, items, replies, i)
  }

  /** A record whose handler does not throw advances the loop's state by one record. */
  lemma ProgressStep(style: Style, table: string, policy: Policy, items: seq<Item>, replies: seq<Reply>, db: Db,
                     i: nat, t: Tally, db': Db)
    requires Progress(style, table, policy, items, replies, db, i, t, db')
    requires i < |items| && !Escapes(style, ReplyAt(replies, i))
    ensures Progress(style, table, policy, items, replies, db, i + 1,
                     TallyStep(t, Judge(style, items[i].tag, ReplyAt(replies, i))),
                     StoreStep(db', table, policy, items[i], ReplyAt(replies, i)))
  {
    NoneEscapeStep(style, replies, i);
    JudgeFatal(style, items[i].tag, ReplyAt(replies, i));
  }

  /**
   * The write loop of one collection. It stops early only at a record whose
   * handler throws; up to there its tally and the store are the spec
   * functions above, whose meaning TallyAfterCounts, StoreAfterRows and
   * StoreAfterFrame state.
   */
  method WriteAll(style: Style, table: string, policy: Policy, items: seq<Item>, replies: seq<Reply>, db: Db)
    returns (t: Tally, db': Db)
    ensures t.processed <= |items|
    ensures NoneEscape(style, replies, t.processed)
    ensures t.processed < |items| ==> Escapes(style, ReplyAt(replies, t.processed))
    ensures t == TallyAfter(style, items, replies, t.processed)
    ensures db' == StoreAfter(db, table, policy, items, replies, t.processed)
  {
    t, db' := Tally(0, 0, [], 0), db;
    var i := 0;
    while i < |items| && !Escapes(style, ReplyAt(replies, i))
      invariant Progress(style, table, policy, items, replies, db, i, t, db')
    {
      ProgressStep(style, table, policy, items, replies, db, i, t, db');
      db' := StoreStep(db', table, policy, items[i], ReplyAt(replies, i));
      t := TallyStep(t, Judge(style, items[i].tag, ReplyAt(replies, i)));
      i := i + 1;
    }
  }
}
