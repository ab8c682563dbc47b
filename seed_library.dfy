/**
 * The library seeder (`src/lib/seed-demo-data.ts`): `seedDemoData` writes the
 * four collections and reports a `SeederResult`; `clearDemoData` deletes the
 * profiles tagged as demo data, one by one; `getDemoDataStats` reports the
 * size of each dataset array.
 */
module SeedLibrary {
  import opened Backend
  import opened StoreLaws
  import opened Writer
  import opened Dataset
  import Decimal

  datatype Counts = Counts(users: nat, validations: nat, sentiments: nat, settings: nat)

  datatype SeederResult = SeederResult(success: bool, message: string, errors: seq<string>, counts: Counts)

  datatype DemoDataStats = DemoDataStats(
    totalUsers: nat,
    totalValidations: nat,
    totalSentiments: nat,
    totalSettings: nat)

  function GetDemoDataStats(data: DemoData): (stats: DemoDataStats)
    ensures stats.totalUsers == |data.users|
    ensures stats.totalValidations == |data.validationHistory|
    ensures stats.totalSentiments == |data.sentimentHistory|
    ensures stats.totalSettings == |data.systemSettings|
  {
    DemoDataStats(|data.users|, |data.validationHistory|, |data.sentimentHistory|, |data.systemSettings|)
  }

  /** The library heads history error lines with the record's id. */
  function ValidationItems(vs: seq<Validation>): seq<Item> {
    seq(|vs|, i requires 0 <= i < |vs| => Item(ValidationRow(vs[i]), "Validation " + vs[i].id))
  }

  function SentimentItems(ss: seq<Sentiment>): seq<Item> {
    seq(|ss|, i requires 0 <= i < |ss| => Item(SentimentRow(ss[i]), "Sentiment " + ss[i].id))
  }

  /** The error lines each collection's loop produces. */
  function UserLines(data: DemoData, replies: DemoReplies): seq<string> {
    Lines(LibraryStyle, UserItems(data.users), replies.users, |data.users|)
  }

  function ValidationLines(data: DemoData, replies: DemoReplies): seq<string> {
    Lines(LibraryStyle, ValidationItems(data.validationHistory), replies.validations, |data.validationHistory|)
  }

  function SentimentLines(data: DemoData, replies: DemoReplies): seq<string> {
    Lines(LibraryStyle, SentimentItems(data.sentimentHistory), replies.sentiments, |data.sentimentHistory|)
  }

  function SettingLines(data: DemoData, replies: DemoReplies): seq<string> {
    Lines(LibraryStyle, SettingItems(data.systemSettings), replies.settings, |data.systemSettings|)
  }

  /**
   * One library loop over a collection: nothing escapes a record's handler,
   * so every record is processed and accounted for.
   */
  method SeedCollection(table: string, policy: Policy, items: seq<Item>, replies: seq<Reply>, db: Db)
    returns (written: nat, errors: seq<string>, db': Db)
    ensures written == |WrittenSet(replies, |items|)|
    ensures errors == Lines(LibraryStyle, items, replies, |items|)
    ensures Rows(db', table) == Applied(policy, Rows(db, table), OkRows(items, replies, |items|))
    ensures forall other :: other != table ==> Rows(db', other) == Rows(db, other)
  {
    var t;
    t, db' := WriteAll(LibraryStyle, table, policy, items, replies, db);
    var n := |items|;
    assert t.processed == n;
    TallyAfterCounts(LibraryStyle, items, replies, n);
    StoreAfterRows(db, table, policy, items, replies, n);
    forall other | other != table
      ensures Rows(db', other) == Rows(db, other)
    {
      StoreAfterFrame(db, table, policy, items, replies, n, other);
    }
    written, errors := t.success, t.errors;
  }

  /** The result `seedDemoData` reports: the error lines of the four loops and the success counts. */
  function SeedOutcome(data: DemoData, replies: DemoReplies): SeederResult {
    var errors := UserLines(data, replies) + ValidationLines(data, replies)
                  + SentimentLines(data, replies) + SettingLines(data, replies);
    SeederResult(
      |errors| == 0,
      if |errors| == 0 then "Demo data seeded successfully"
      else "Seeding completed with " + Decimal.NatToString(|errors|) + " errors",
      errors,
      Counts(
        |WrittenSet(replies.users, |data.users|)|,
        |WrittenSet(replies.validations, |data.validationHistory|)|,
        |WrittenSet(replies.sentiments, |data.sentimentHistory|)|,
        |WrittenSet(replies.settings, |data.systemSettings|)|))
  }

  /** What a seed run leaves in the four collections. */
  predicate Seeded(data: DemoData, replies: DemoReplies, db: Db, db': Db) {
    && Rows(db', UserProfiles)
       == Applied(UserPolicy, Rows(db, UserProfiles), OkRows(UserItems(data.users), replies.users, |data.users|))
    && Rows(db', ValidationHistory)
       == Rows(db, ValidationHistory)
          + OkRows(ValidationItems(data.validationHistory), replies.validations, |data.validationHistory|)
    && Rows(db', SentimentHistory)
       == Rows(db, SentimentHistory)
          + OkRows(SentimentItems(data.sentimentHistory), replies.sentiments, |data.sentimentHistory|)
    && Rows(db', SystemSettings)
       == Applied(SettingPolicy, Rows(db, SystemSettings),
                  OkRows(SettingItems(data.systemSettings), replies.settings, |data.systemSettings|))
  }

  method SeedDemoData(data: DemoData, replies: DemoReplies, db: Db) returns (result: SeederResult, db': Db)
    ensures result == SeedOutcome(data, replies)
    ensures Seeded(data, replies, db, db')
    ensures forall t :: !SeedTable(t) ==> Rows(db', t) == Rows(db, t)
  {
    var users, validations, sentiments, settings: nat;
    var userErrors, validationErrors, sentimentErrors, settingErrors: seq<string>;
    var db1, db2, db3;
    TablesDistinct();
    users, userErrors, db1 :=
      SeedCollection(UserProfiles, UserPolicy, UserItems(data.users), replies.users, db);
    validations, validationErrors, db2 :=
      SeedCollection(ValidationHistory, ValidationPolicy, ValidationItems(data.validationHistory), replies.validations, db1);
    sentiments, sentimentErrors, db3 :=
      SeedCollection(SentimentHistory, SentimentPolicy, SentimentItems(data.sentimentHistory), replies.sentiments, db2);
    settings, settingErrors, db' :=
      SeedCollection(SystemSettings, SettingPolicy, SettingItems(data.systemSettings), replies.settings, db3);
    AppliedInsert(Rows(db, ValidationHistory),
                  OkRows(ValidationItems(data.validationHistory), replies.validations, |data.validationHistory|));
    AppliedInsert(Rows(db, SentimentHistory),
                  OkRows(SentimentItems(data.sentimentHistory), replies.sentiments, |data.sentimentHistory|));
    assert Rows(db', UserProfiles) == Rows(db1, UserProfiles);
    assert Rows(db', ValidationHistory) == Rows(db2, ValidationHistory);
    assert Rows(db', SentimentHistory) == Rows(db3, SentimentHistory);
    var errors := userErrors + validationErrors + sentimentErrors + settingErrors;
    var message := if |errors| == 0 then "Demo data seeded successfully"
                   else "Seeding completed with " + Decimal.NatToString(|errors|) + " errors";
    result := SeederResult(|errors| == 0, message, errors, Counts(users, validations, sentiments, settings));
  }

  /**
   * The reported result of a seed run: it succeeds exactly when its error log
   * is empty, which is exactly when every write succeeded; its message counts
   * the error lines; and each collection's count and error lines add up to
   * the size of that dataset array.
   */
  lemma SeedOutcomeLaws(data: DemoData, replies: DemoReplies)
    ensures var result := SeedOutcome(data, replies);
            && (result.success <==> result.errors == [])
            && (result.success <==> AllWritesOk(data, replies))
            && (result.errors == [] ==> result.message == "Demo data seeded successfully")
            && (result.errors != [] ==>
                  result.message == "Seeding completed with " + Decimal.NatToString(|result.errors|) + " errors")
            && var stats := GetDemoDataStats(data);
               && result.counts.users + |UserLines(data, replies)| == stats.totalUsers
               && result.counts.validations + |ValidationLines(data, replies)| == stats.totalValidations
               && result.counts.sentiments + |SentimentLines(data, replies)| == stats.totalSentiments
               && result.counts.settings + |SettingLines(data, replies)| == stats.totalSettings
  {
    CollectionLaws(UserItems(data.users), replies.users);
    CollectionLaws(ValidationItems(data.validationHistory), replies.validations);
    CollectionLaws(SentimentItems(data.sentimentHistory), replies.sentiments);
    CollectionLaws(SettingItems(data.systemSettings), replies.settings);
  }

  /** In the library loop nothing escapes, so each record is one success or one error line. */
  lemma CollectionLaws(items: seq<Item>, replies: seq<Reply>)
    ensures |WrittenSet(replies, |items|)| + |Lines(LibraryStyle, items, replies, |items|)| == |items|
    ensures Lines(LibraryStyle, items, replies, |items|) == [] <==> AllOk(replies, |items|)
  {
    LinesCount(LibraryStyle, items, replies, |items|);
    LinesEmptyIffAllOk(LibraryStyle, items, replies, |items|);
  }

  /** Every profile a seed run adds carries the demo marker. */
  lemma SeededProfilesMarked(data: DemoData, replies: DemoReplies, before: seq<Row>)
    ensures var after := Applied(UserPolicy, before, OkRows(UserItems(data.users), replies.users, |data.users|));
            forall r :: r in after && r !in before ==> r.demoData
  {
    var adds := OkRows(UserItems(data.users), replies.users, |data.users|);
    AppliedOnlyFromInputs(UserPolicy, before, adds);
    UserItemsMarked(data.users, replies.users);
  }

  /** Deletes of the clear loop: the first one that throws ends the loop. */
  function UntilThrow(deletes: seq<Reply>, n: nat): (k: nat)
    ensures k <= n
    ensures forall i :: 0 <= i < k ==> !ReplyAt(deletes, i).Threw?
    ensures k < n ==> ReplyAt(deletes, k).Threw?
  {
    if n == 0 then 0
    else
      var k := UntilThrow(deletes, n - 1);
      if k < n - 1 then k
      else if ReplyAt(deletes, n - 1).Threw? then n - 1
      else n
  }

  lemma UntilThrowAt(deletes: seq<Reply>, n: nat, j: nat)
    requires j <= n
    requires forall i :: 0 <= i < j ==> !ReplyAt(deletes, i).Threw?
    requires j < n ==> ReplyAt(deletes, j).Threw?
    ensures UntilThrow(deletes, n) == j
  {
  }

  /** The ids, among the first n selected, whose delete succeeded. */
  function Deleted(ids: seq<Option<string>>, deletes: seq<Reply>, n: nat): (d: seq<Option<string>>)
    requires n <= |ids|
    ensures |d| == |WrittenSet(deletes, n)|
    ensures forall x :: x in d ==> x in ids
    ensures forall i :: 0 <= i < n && ReplyAt(deletes, i).Ok? ==> ids[i] in d
  {
    if n == 0 then []
    else
      WrittenSetStep(deletes, n - 1);
      Deleted(ids, deletes, n - 1) + if ReplyAt(deletes, n - 1).Ok? then [ids[n - 1]] else []
  }

  /** The error lines of the first n deletes. */
  function DeleteLines(deletes: seq<Reply>, n: nat): (lines: seq<string>)
    ensures |lines| <= n
    ensures forall line :: line in lines ==>
              exists i :: 0 <= i < n && ReplyAt(deletes, i).Failed? && line == "Delete user: " + ReplyAt(deletes, i).message
  {
    if n == 0 then []
    else
      DeleteLines(deletes, n - 1) +
      if ReplyAt(deletes, n - 1).Failed? then ["Delete user: " + ReplyAt(deletes, n - 1).message] else []
  }

  lemma DeleteLinesCount(deletes: seq<Reply>, n: nat)
    requires forall i :: 0 <= i < n ==> !ReplyAt(deletes, i).Threw?
    ensures |DeleteLines(deletes, n)| + |WrittenSet(deletes, n)| == n
  {
    if n > 0 {
      DeleteLinesCount(deletes, n - 1);
      WrittenSetStep(deletes, n - 1);
    }
  }

  /** When every selected id was deleted, each delete removed its rows. */
  lemma {:induction false} DeletedAllOk(ids: seq<Option<string>>, deletes: seq<Reply>, n: nat)
    requires n <= |ids|
    requires AllOk(deletes, n)
    ensures Deleted(ids, deletes, n) == ids[..n]
  {
    if n > 0 {
      DeletedAllOk(ids, deletes, n - 1);
      assert ids[..n] == ids[..n - 1] + [ids[n - 1]];
    }
  }

  function CaughtResult(prefix: string, e: Exc, counts: Counts): (r: SeederResult)
    ensures !r.success && r.errors == [JsString(e)] && r.counts == counts
  {
    SeederResult(false, prefix + JsString(e), [JsString(e)], counts)
  }

  /** One delete's effect: the profiles with that `user_id` go only when the reply is Ok. */
  function DeleteStep(current: Db, id: Option<string>, reply: Reply): Db {
    if reply.Ok? then DeleteWhere(current, UserProfiles, "user_id", id) else current
  }

  /** The store after the first n deletes. */
  function ClearedAfter(db: Db, ids: seq<Option<string>>, deletes: seq<Reply>, n: nat): Db
    requires n <= |ids|
  {
    if n == 0 then db
    else DeleteStep(ClearedAfter(db, ids, deletes, n - 1), ids[n - 1], ReplyAt(deletes, n - 1))
  }

  /** The deletes leave the profiles that no successfully deleted id targets. */
  lemma {:induction false} ClearedAfterRows(db: Db, ids: seq<Option<string>>, deletes: seq<Reply>, n: nat)
    requires n <= |ids|
    ensures Rows(ClearedAfter(db, ids, deletes, n), UserProfiles)
            == Kept(Rows(db, UserProfiles), "user_id", Deleted(ids, deletes, n))
  {
    if n > 0 {
      ClearedAfterRows(db, ids, deletes, n - 1);
      var d := Deleted(ids, deletes, n);
      if ReplyAt(deletes, n - 1).Ok? {
        assert d == Deleted(ids, deletes, n - 1) + [ids[n - 1]];
        assert d != [] && d[..|d| - 1] == Deleted(ids, deletes, n - 1) && d[|d| - 1] == ids[n - 1];
      } else {
        assert d == Deleted(ids, deletes, n - 1);
      }
    }
  }

  /** The deletes touch no other collection. */
  lemma {:induction false} ClearedAfterFrame(db: Db, ids: seq<Option<string>>, deletes: seq<Reply>, n: nat, other: string)
    requires n <= |ids|
    requires other != UserProfiles
    ensures Rows(ClearedAfter(db, ids, deletes, n), other) == Rows(db, other)
  {
    if n > 0 {
      ClearedAfterFrame(db, ids, deletes, n - 1, other);
    }
  }

  /**
   * The delete loop of the clear phase: one `.delete().eq('user_id', id)` per
   * selected id, in order. A failed delete is logged and the loop goes on; a
   * delete that throws ends the loop (at `stop`), because no handler wraps it.
   */
  method DeleteEach(db: Db, ids: seq<Option<string>>, deletes: seq<Reply>)
    returns (deleted: nat, errors: seq<string>, stop: nat, db': Db)
    ensures stop == UntilThrow(deletes, |ids|)
    ensures deleted == |WrittenSet(deletes, stop)|
    ensures errors == DeleteLines(deletes, stop)
    ensures db' == ClearedAfter(db, ids, deletes, stop)
  {
    deleted, errors, db' := 0, [], db;
    var j := 0;
    var threw := false;
    while j < |ids| && !threw
      invariant j <= |ids|
      invariant forall i :: 0 <= i < j ==> !ReplyAt(deletes, i).Threw?
      invariant threw ==> j < |ids| && ReplyAt(deletes, j).Threw?
      invariant deleted == |WrittenSet(deletes, j)|
      invariant errors == DeleteLines(deletes, j)
      invariant db' == ClearedAfter(db, ids, deletes, j)
      decreases |ids| - j, !threw
    {
      var reply := ReplyAt(deletes, j);
      if reply.Threw? {
        threw := true;
      } else {
        WrittenSetStep(deletes, j);
        db' := DeleteStep(db', ids[j], reply);
        if reply.Ok? {
          deleted := deleted + 1;
        } else {
          errors := errors + ["Delete user: " + reply.message];
        }
        j := j + 1;
      }
    }
    UntilThrowAt(deletes, |ids|, j);
    stop := j;
  }

  method ClearDemoData(db: Db, select: SelectReply, deletes: seq<Reply>) returns (result: SeederResult, db': Db)
    ensures result.success <==> result.errors == []
    ensures result.counts.validations == 0 && result.counts.sentiments == 0 && result.counts.settings == 0
    ensures forall t :: t != UserProfiles ==> Rows(db', t) == Rows(db, t)
    ensures forall r :: r in Rows(db', UserProfiles) ==> r in Rows(db, UserProfiles)
    ensures UniqueOn(Rows(db, UserProfiles), "user_id") ==>
              Unmarked(Rows(db', UserProfiles)) == Unmarked(Rows(db, UserProfiles))
    ensures select.SelectThrew? ==>
              result == CaughtResult("Clearing failed: ", select.exc, Counts(0, 0, 0, 0)) && db' == db
    ensures select.NoData? || select.SelectFailed? ==>
              result == SeederResult(true, "Demo data cleared successfully", [], Counts(0, 0, 0, 0)) && db' == db
    ensures select.Selected? ==>
              var ids := SelectMarked(Rows(db, UserProfiles), "user_id");
              var k := UntilThrow(deletes, |ids|);
              && Rows(db', UserProfiles) == Kept(Rows(db, UserProfiles), "user_id", Deleted(ids, deletes, k))
              && result.counts.users == |Deleted(ids, deletes, k)|
              && (k < |ids| ==>
                    result == CaughtResult("Clearing failed: ", ReplyAt(deletes, k).exc, result.counts))
              && (k == |ids| ==>
                    && result.errors == DeleteLines(deletes, |ids|)
                    && result.counts.users + |result.errors| == |ids|
                    && (result.errors == [] ==> result.message == "Demo data cleared successfully")
                    && (result.errors != [] ==>
                          result.message == "Clearing completed with " + Decimal.NatToString(|result.errors|) + " errors"))
              && (AllOk(deletes, |ids|) ==>
                    forall r :: r in Rows(db', UserProfiles) && r.demoData ==> KeyOf(r, "user_id").None?)
  {
    match select {
      case SelectThrew(e) =>
        return CaughtResult("Clearing failed: ", e, Counts(0, 0, 0, 0)), db;
      case NoData =>
        return SeederResult(true, "Demo data cleared successfully", [], Counts(0, 0, 0, 0)), db;
      case SelectFailed(_) =>
        return SeederResult(true, "Demo data cleared successfully", [], Counts(0, 0, 0, 0)), db;
      case Selected =>
    }
    var rows := Rows(db, UserProfiles);
    var demoUsers := SelectMarked(rows, "user_id");
    var users, errors, stop;
    users, errors, stop, db' := DeleteEach(db, demoUsers, deletes);
    ClearedAfterRows(db, demoUsers, deletes, stop);
    forall other | other != UserProfiles
      ensures Rows(db', other) == Rows(db, other)
    {
      ClearedAfterFrame(db, demoUsers, deletes, stop, other);
    }
    if stop < |demoUsers| {
      result := CaughtResult("Clearing failed: ", ReplyAt(deletes, stop).exc, Counts(users, 0, 0, 0));
    } else {
      DeleteLinesCount(deletes, stop);
      var message := if |errors| == 0 then "Demo data cleared successfully"
                     else "Clearing completed with " + Decimal.NatToString(|errors|) + " errors";
      result := SeederResult(|errors| == 0, message, errors, Counts(users, 0, 0, 0));
    }
    ClearLaws(rows, demoUsers, deletes, stop);
  }

  /** What the deletes of one clear run do to the profiles, as the method's contract states it. */
  lemma ClearLaws(rows: seq<Row>, ids: seq<Option<string>>, deletes: seq<Reply>, k: nat)
    requires ids == SelectMarked(rows, "user_id")
    requires k <= |ids|
    ensures forall r :: r in Kept(rows, "user_id", Deleted(ids, deletes, k)) ==> r in rows
    ensures UniqueOn(rows, "user_id") ==>
              Unmarked(Kept(rows, "user_id", Deleted(ids, deletes, k))) == Unmarked(rows)
    ensures k == |ids| && AllOk(deletes, |ids|) ==>
              forall r :: r in Kept(rows, "user_id", Deleted(ids, deletes, k)) && r.demoData ==>
                KeyOf(r, "user_id").None?
  {
    var d := Deleted(ids, deletes, k);
    KeptExactly(rows, "user_id", d);
    if UniqueOn(rows, "user_id") {
      ClearSparesUnmarked(rows, "user_id", d);
    }
    if k == |ids| && AllOk(deletes, |ids|) {
      DeletedAllOk(ids, deletes, k);
      assert ids[..k] == ids;
      ClearAllRemovesMarked(rows, "user_id");
    }
  }

  /**
   * Why clear safety needs `user_id` unique: the delete filters on `user_id`
   * alone, so an unmarked profile that shares its `user_id` with a marked one
   * goes with it. Here the select finds the marked profile, the delete
   * succeeds, and the unmarked profile is gone too.
   */
  lemma ClearTakesUnmarkedTwin()
    ensures var marked := Row(map["user_id" := "u1"], true);
            var twin := Row(map["user_id" := "u1", "email" := "user@example.com"], false);
            var db := map[UserProfiles := [marked, twin]];
            var ids := SelectMarked([marked, twin], "user_id");
            && !UniqueOn([marked, twin], "user_id")
            && ids == [Some("u1")]
            && Unmarked(Rows(db, UserProfiles)) == [twin]
            && Rows(ClearedAfter(db, ids, [], |ids|), UserProfiles) == []
  {
    var marked := Row(map["user_id" := "u1"], true);
    var twin := Row(map["user_id" := "u1", "email" := "user@example.com"], false);
    var rows := [marked, twin];
    var db := map[UserProfiles := rows];
    assert rows[1..] == [twin] && [twin][1..] == [];
    assert KeyOf(marked, "user_id") == Some("u1") && KeyOf(twin, "user_id") == Some("u1");
    assert SameKey(rows[0], rows[1], "user_id");
    assert Marked([twin]) == [] && Marked(rows) == [marked];
    var ids := SelectMarked(rows, "user_id");
    assert ids == [Some("u1")];
    assert Unmarked([twin]) == [twin];
    assert Unmarked(rows) == [twin];
    assert Without([twin], "user_id", Some("u1")) == [];
    assert Without(rows, "user_id", Some("u1")) == [];
  }
}
