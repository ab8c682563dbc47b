/**
 * The command-line seeder (`scripts/seed-demo-data.js`): it refuses to start
 * without both credentials, then writes the four collections in order,
 * tallying successes and failures per collection, and exits with status 0
 * exactly when no error line was collected. An exception that escapes a
 * record's handler ends the run through the outer handler with status 1.
 */
module SeedScript {
  import opened Backend
  import opened StoreLaws
  import opened Writer
  import opened Dataset

  /** The two environment variables the script reads; `None` when unset. */
  datatype Credentials = Credentials(url: Option<string>, serviceKey: Option<string>)

  /** JavaScript truthiness of an environment value: set and not the empty string. */
  predicate Truthy(v: Option<string>) {
    v.Some? && v.value != []
  }

  predicate CredentialsPresent(c: Credentials) {
    Truthy(c.url) && Truthy(c.serviceKey)
  }

  datatype Counter = Counter(success: nat, failed: nat)

  datatype Results = Results(users: Counter, validations: Counter, sentiments: Counter, settings: Counter)

  /**
   * How a run ends: stopped by the credentials guard, ended by the outer
   * handler after an escaping exception, or finished with its summary.
   */
  datatype ScriptRun =
    | MissingCredentials
    | Crashed(results: Results, errors: seq<string>)
    | Completed(results: Results, errors: seq<string>, totalSuccess: nat, totalFailed: nat)

  /** The status passed to `process.exit`. */
  function ExitStatus(run: ScriptRun): (status: int)
    ensures status == 0 || status == 1
    ensures status == 0 <==> run.Completed? && run.errors == []
  {
    match run
    case MissingCredentials => 1
    case Crashed(_, _) => 1
    case Completed(_, errors, _, _) => if |errors| > 0 then 1 else 0
  }

  /** The script heads history error lines with the collection name only. */
  function ValidationItems(vs: seq<Validation>): seq<Item> {
    seq(|vs|, i requires 0 <= i < |vs| => Item(ValidationRow(vs[i]), "Validation"))
  }

  function SentimentItems(ss: seq<Sentiment>): seq<Item> {
    seq(|ss|, i requires 0 <= i < |ss| => Item(SentimentRow(ss[i]), "Sentiment"))
  }

  /** No record of the collection has its handler throw. */
  predicate Clean(items: seq<Item>, replies: seq<Reply>) {
    NoneEscape(ScriptStyle, replies, |items|)
  }

  predicate RunClean(data: DemoData, replies: DemoReplies) {
    && Clean(UserItems(data.users), replies.users)
    && Clean(ValidationItems(data.validationHistory), replies.validations)
    && Clean(SentimentItems(data.sentimentHistory), replies.sentiments)
    && Clean(SettingItems(data.systemSettings), replies.settings)
  }

  function CollectionLines(items: seq<Item>, replies: seq<Reply>): seq<string> {
    Lines(ScriptStyle, items, replies, |items|)
  }

  /** The error lines of a run that reaches its summary, in collection order. */
  function RunLines(data: DemoData, replies: DemoReplies): seq<string> {
    CollectionLines(UserItems(data.users), replies.users)
    + CollectionLines(ValidationItems(data.validationHistory), replies.validations)
    + CollectionLines(SentimentItems(data.sentimentHistory), replies.sentiments)
    + CollectionLines(SettingItems(data.systemSettings), replies.settings)
  }

  /** The tally of a collection whose loop ran to the end. */
  function Tallied(items: seq<Item>, replies: seq<Reply>): Counter {
    Counter(|WrittenSet(replies, |items|)|, |CollectionLines(items, replies)|)
  }

  function Total(r: Results): Counter {
    Counter(
      r.users.success + r.validations.success + r.sentiments.success + r.settings.success,
      r.users.failed + r.validations.failed + r.sentiments.failed + r.settings.failed)
  }

  /** Writes that all succeed trip no handler. */
  lemma AllOkClean(items: seq<Item>, replies: seq<Reply>)
    requires AllOk(replies, |items|)
    ensures Clean(items, replies)
  {
    forall i | 0 <= i < |items|
      ensures !Escapes(ScriptStyle, ReplyAt(replies, i))
    {
      assert ReplyAt(replies, i).Ok?;
    }
  }

  /** The records a loop's tally accounts for. */
  function Processed(c: Counter): nat {
    c.success + c.failed
  }

  /**
   * The tally of a script loop where it stopped: at the first record whose
   * handler throws, or at the end; the counters are the successful writes
   * and the error lines of the records before that point.
   */
  predicate Stopped(items: seq<Item>, replies: seq<Reply>, c: Counter) {
    var k := Processed(c);
    && k <= |items|
    && NoneEscape(ScriptStyle, replies, k)
    && (k < |items| ==> Escapes(ScriptStyle, ReplyAt(replies, k)))
    && c.success == |WrittenSet(replies, k)|
    && c.failed == |Lines(ScriptStyle, items, replies, k)|
  }

  /**
   * One loop as it leaves things: stopped where `Stopped` says, with the
   * error lines of the records it processed, and the store holding exactly
   * their writes to its own collection and nothing else changed.
   */
  ghost predicate Stage(table: string, policy: Policy, items: seq<Item>, replies: seq<Reply>,
                  db: Db, db': Db, c: Counter, errors: seq<string>) {
    && Stopped(items, replies, c)
    && errors == Lines(ScriptStyle, items, replies, Processed(c))
    && Rows(db', table) == Applied(policy, Rows(db, table), OkRows(items, replies, Processed(c)))
    && forall other :: other != table ==> Rows(db', other) == Rows(db, other)
  }

  /** A loop the run never reached: no tally, no error line, no write. */
  predicate Skipped(db: Db, db': Db, c: Counter, errors: seq<string>) {
    c == Counter(0, 0) && errors == [] && db' == db
  }

  /**
   * One collection's loop. It goes through every record exactly when no
   * handler throws; then every record is one success or one error line.
   * Whether or not it completes, the tally, the error lines and the store
   * account for exactly the records it processed.
   */
  method SeedCollection(table: string, policy: Policy, items: seq<Item>, replies: seq<Reply>, db: Db)
    returns (c: Counter, errors: seq<string>, done: bool, db': Db)
    ensures Stage(table, policy, items, replies, db, db', c, errors)
    ensures c.failed == |errors|
    ensures done <==> Clean(items, replies)
    ensures done <==> Processed(c) == |items|
    ensures done ==>
              && c == Tallied(items, replies)
              && errors == CollectionLines(items, replies)
              && (errors == [] <==> AllOk(replies, |items|))
  {
    var t;
    t, db' := WriteAll(ScriptStyle, table, policy, items, replies, db);
    TallyAfterCounts(ScriptStyle, items, replies, t.processed);
    LinesCount(ScriptStyle, items, replies, t.processed);
    StoreAfterRows(db, table, policy, items, replies, t.processed);
    forall other | other != table
      ensures Rows(db', other) == Rows(db, other)
    {
      StoreAfterFrame(db, table, policy, items, replies, t.processed, other);
    }
    c, errors, done := Counter(t.success, t.failed), t.errors, t.processed == |items|;
    assert Processed(c) == t.processed;
    if t.processed < |items| {
      assert Escapes(ScriptStyle, ReplyAt(replies, t.processed));
    } else {
      LinesEmptyIffAllOk(ScriptStyle, items, replies, |items|);
    }
  }

  /** The run that reaches its summary: every collection tallied, the error lines in order. */
  function Summary(data: DemoData, replies: DemoReplies): ScriptRun {
    var results := Results(
      Tallied(UserItems(data.users), replies.users),
      Tallied(ValidationItems(data.validationHistory), replies.validations),
      Tallied(SentimentItems(data.sentimentHistory), replies.sentiments),
      Tallied(SettingItems(data.systemSettings), replies.settings));
    var total := Total(results);
    Completed(results, RunLines(data, replies), total.success, total.failed)
  }

  /**
   * A summarised run accounts for every record once — as a success or as one
   * error line — and it exits with 0 exactly when every write succeeded.
   */
  lemma SummaryLaws(data: DemoData, replies: DemoReplies)
    requires RunClean(data, replies)
    ensures var run := Summary(data, replies);
            && |run.errors| == run.totalFailed
            && run.totalSuccess + run.totalFailed
               == |data.users| + |data.validationHistory| + |data.sentimentHistory| + |data.systemSettings|
            && (ExitStatus(run) == 0 <==> AllWritesOk(data, replies))
  {
    CollectionLaws(UserItems(data.users), replies.users);
    CollectionLaws(ValidationItems(data.validationHistory), replies.validations);
    CollectionLaws(SentimentItems(data.sentimentHistory), replies.sentiments);
    CollectionLaws(SettingItems(data.systemSettings), replies.settings);
  }

  lemma CollectionLaws(items: seq<Item>, replies: seq<Reply>)
    requires Clean(items, replies)
    ensures Tallied(items, replies).success + Tallied(items, replies).failed == |items|
    ensures CollectionLines(items, replies) == [] <==> AllOk(replies, |items|)
  {
    LinesCount(ScriptStyle, items, replies, |items|);
    LinesEmptyIffAllOk(ScriptStyle, items, replies, |items|);
  }

  /** What a summarised run leaves in the four collections. */
  predicate Seeded(data: DemoData, replies: DemoReplies, db: Db, db': Db) {
    && Rows(db', UserProfiles)
       == Applied(UserPolicy, Rows(db, UserProfiles), OkRows(UserItems(data.users), replies.users, |data.users|))
    && Rows(db', ValidationHistory)
       == Rows(db, ValidationHistory)
          + OkRows(ValidationItems(data.validationHistory), replies.validations, |data.validationHistory|)
    && Rows(db', SentimentHistory)
       == Rows(db, SentimentHistory)
          + OkRows(SentimentItems(data.sentimentHistory), replies.sentiments, |data.sentimentHistory|)
    && Rows(db', SystemSettings)
       == Applied(SettingPolicy, Rows(db, SystemSettings),
                  OkRows(SettingItems(data.systemSettings), replies.settings, |data.systemSettings|))
  }

  /** What the four loops leave in the store when each processed the records its tally accounts for. */
  predicate Stored(data: DemoData, replies: DemoReplies, db: Db, db': Db, r: Results)
    requires Processed(r.users) <= |data.users| && Processed(r.validations) <= |data.validationHistory|
    requires Processed(r.sentiments) <= |data.sentimentHistory| && Processed(r.settings) <= |data.systemSettings|
  {
    && Rows(db', UserProfiles)
       == Applied(UserPolicy, Rows(db, UserProfiles),
                  OkRows(UserItems(data.users), replies.users, Processed(r.users)))
    && Rows(db', ValidationHistory)
       == Applied(ValidationPolicy, Rows(db, ValidationHistory),
                  OkRows(ValidationItems(data.validationHistory), replies.validations, Processed(r.validations)))
    && Rows(db', SentimentHistory)
       == Applied(SentimentPolicy, Rows(db, SentimentHistory),
                  OkRows(SentimentItems(data.sentimentHistory), replies.sentiments, Processed(r.sentiments)))
    && Rows(db', SystemSettings)
       == Applied(SettingPolicy, Rows(db, SystemSettings),
                  OkRows(SettingItems(data.systemSettings), replies.settings, Processed(r.settings)))
  }

  /**
   * A run ended by the outer handler: the loops of the collections up to the
   * one whose handler threw stopped where their tallies say, the later
   * collections were not reached, the error lines are those of the records
   * processed, in order, and the store holds exactly their writes.
   */
  predicate Halted(data: DemoData, replies: DemoReplies, db: Db, db': Db, r: Results, errors: seq<string>) {
    var u, v := UserItems(data.users), ValidationItems(data.validationHistory);
    var s, t := SentimentItems(data.sentimentHistory), SettingItems(data.systemSettings);
    var none := Counter(0, 0);
    && Stopped(u, replies.users, r.users)
    && (if Clean(u, replies.users) then Stopped(v, replies.validations, r.validations)
        else r.validations == none)
    && (if Clean(u, replies.users) && Clean(v, replies.validations)
        then Stopped(s, replies.sentiments, r.sentiments)
        else r.sentiments == none)
    && (if Clean(u, replies.users) && Clean(v, replies.validations) && Clean(s, replies.sentiments)
        then Stopped(t, replies.settings, r.settings)
        else r.settings == none)
    && errors == Lines(ScriptStyle, u, replies.users, Processed(r.users))
                 + Lines(ScriptStyle, v, replies.validations, Processed(r.validations))
                 + Lines(ScriptStyle, s, replies.sentiments, Processed(r.sentiments))
                 + Lines(ScriptStyle, t, replies.settings, Processed(r.settings))
    && Stored(data, replies, db, db', r)
  }

  /** A halted run leaves the collections after the one whose handler threw as they were. */
  lemma HaltedLeavesRest(data: DemoData, replies: DemoReplies, db: Db, db': Db, r: Results, errors: seq<string>)
    requires Halted(data, replies, db, db', r, errors)
    ensures !Clean(UserItems(data.users), replies.users) ==>
              && Rows(db', ValidationHistory) == Rows(db, ValidationHistory)
              && Rows(db', SentimentHistory) == Rows(db, SentimentHistory)
              && Rows(db', SystemSettings) == Rows(db, SystemSettings)
    ensures !Clean(ValidationItems(data.validationHistory), replies.validations) ==>
              && Rows(db', SentimentHistory) == Rows(db, SentimentHistory)
              && Rows(db', SystemSettings) == Rows(db, SystemSettings)
    ensures !Clean(SentimentItems(data.sentimentHistory), replies.sentiments) ==>
              Rows(db', SystemSettings) == Rows(db, SystemSettings)
  {
  }

  /** Chains the four stages, each confined to its own collection, into `Stored`. */
  lemma StoredAfter(data: DemoData, replies: DemoReplies, db: Db, db1: Db, db2: Db, db3: Db, db4: Db, r: Results)
    requires Processed(r.users) <= |data.users| && Processed(r.validations) <= |data.validationHistory|
    requires Processed(r.sentiments) <= |data.sentimentHistory| && Processed(r.settings) <= |data.systemSettings|
    requires Rows(db1, UserProfiles)
             == Applied(UserPolicy, Rows(db, UserProfiles),
                        OkRows(UserItems(data.users), replies.users, Processed(r.users)))
    requires Rows(db2, ValidationHistory)
             == Applied(ValidationPolicy, Rows(db1, ValidationHistory),
                        OkRows(ValidationItems(data.validationHistory), replies.validations, Processed(r.validations)))
    requires Rows(db3, SentimentHistory)
             == Applied(SentimentPolicy, Rows(db2, SentimentHistory),
                        OkRows(SentimentItems(data.sentimentHistory), replies.sentiments, Processed(r.sentiments)))
    requires Rows(db4, SystemSettings)
             == Applied(SettingPolicy, Rows(db3, SystemSettings),
                        OkRows(SettingItems(data.systemSettings), replies.settings, Processed(r.settings)))
    requires forall other :: other != UserProfiles ==> Rows(db1, other) == Rows(db, other)
    requires forall other :: other != ValidationHistory ==> Rows(db2, other) == Rows(db1, other)
    requires forall other :: other != SentimentHistory ==> Rows(db3, other) == Rows(db2, other)
    requires forall other :: other != SystemSettings ==> Rows(db4, other) == Rows(db3, other)
    ensures Stored(data, replies, db, db4, r)
    ensures forall t :: !SeedTable(t) ==> Rows(db4, t) == Rows(db, t)
  {
    TablesDistinct();
    assert Rows(db4, UserProfiles) == Rows(db1, UserProfiles);
    assert Rows(db4, ValidationHistory) == Rows(db2, ValidationHistory);
    assert Rows(db4, SentimentHistory) == Rows(db3, SentimentHistory);
    assert Rows(db1, ValidationHistory) == Rows(db, ValidationHistory);
    assert Rows(db2, SentimentHistory) == Rows(db, SentimentHistory);
    assert Rows(db3, SystemSettings) == Rows(db, SystemSettings);
  }

  /** A run whose four loops all completed leaves the `Seeded` store. */
  lemma SeededAfter(data: DemoData, replies: DemoReplies, db: Db, db': Db, r: Results)
    requires Processed(r.users) == |data.users| && Processed(r.validations) == |data.validationHistory|
    requires Processed(r.sentiments) == |data.sentimentHistory| && Processed(r.settings) == |data.systemSettings|
    requires Stored(data, replies, db, db', r)
    ensures Seeded(data, replies, db, db')
  {
    AppliedInsert(Rows(db, ValidationHistory),
                  OkRows(ValidationItems(data.validationHistory), replies.validations, |data.validationHistory|));
    AppliedInsert(Rows(db, SentimentHistory),
                  OkRows(SentimentItems(data.sentimentHistory), replies.sentiments, |data.sentimentHistory|));
  }

  /** The four stages of a run, each as a loop's contract leaves it, make up `Halted`. */
  lemma HaltedFrom(data: DemoData, replies: DemoReplies, db: Db, db1: Db, db2: Db, db3: Db, db4: Db,
                   r: Results, e1: seq<string>, e2: seq<string>, e3: seq<string>, e4: seq<string>)
    requires Stage(UserProfiles, UserPolicy, UserItems(data.users), replies.users, db, db1, r.users, e1)
    requires if Clean(UserItems(data.users), replies.users)
             then Stage(ValidationHistory, ValidationPolicy, ValidationItems(data.validationHistory),
                        replies.validations, db1, db2, r.validations, e2)
             else Skipped(db1, db2, r.validations, e2)
    requires if Clean(UserItems(data.users), replies.users)
                && Clean(ValidationItems(data.validationHistory), replies.validations)
             then Stage(SentimentHistory, SentimentPolicy, SentimentItems(data.sentimentHistory),
                        replies.sentiments, db2, db3, r.sentiments, e3)
             else Skipped(db2, db3, r.sentiments, e3)
    requires if Clean(UserItems(data.users), replies.users)
                && Clean(ValidationItems(data.validationHistory), replies.validations)
                && Clean(SentimentItems(data.sentimentHistory), replies.sentiments)
             then Stage(SystemSettings, SettingPolicy, SettingItems(data.systemSettings),
                        replies.settings, db3, db4, r.settings, e4)
             else Skipped(db3, db4, r.settings, e4)
    ensures Halted(data, replies, db, db4, r, e1 + e2 + e3 + e4)
    ensures |e1 + e2 + e3 + e4| == Total(r).failed
    ensures forall t :: !SeedTable(t) ==> Rows(db4, t) == Rows(db, t)
  {
    var u, v := UserItems(data.users), ValidationItems(data.validationHistory);
    var s, t := SentimentItems(data.sentimentHistory), SettingItems(data.systemSettings);
    if !Clean(u, replies.users) {
      SkippedStage(ValidationHistory, ValidationPolicy, v, replies.validations, db1, db2, r.validations, e2);
    }
    if !(Clean(u, replies.users) && Clean(v, replies.validations)) {
      SkippedStage(SentimentHistory, SentimentPolicy, s, replies.sentiments, db2, db3, r.sentiments, e3);
    }
    if !(Clean(u, replies.users) && Clean(v, replies.validations) && Clean(s, replies.sentiments)) {
      SkippedStage(SystemSettings, SettingPolicy, t, replies.settings, db3, db4, r.settings, e4);
    }
    StoredAfter(data, replies, db, db1, db2, db3, db4, r);
  }

  /** A loop never reached leaves what a loop over none of its records would leave. */
  lemma SkippedStage(table: string, policy: Policy, items: seq<Item>, replies: seq<Reply>,
                     db: Db, db': Db, c: Counter, errors: seq<string>)
    requires Skipped(db, db', c, errors)
    ensures Processed(c) == 0
    ensures errors == Lines(ScriptStyle, items, replies, Processed(c))
    ensures Rows(db', table) == Applied(policy, Rows(db, table), OkRows(items, replies, Processed(c)))
    ensures forall other :: other != table ==> Rows(db', other) == Rows(db, other)
  {
  }

  /** A clean run's loops all went to the end: their state is the summary and the `Seeded` store. */
  lemma HaltedClean(data: DemoData, replies: DemoReplies, db: Db, db': Db, r: Results, errors: seq<string>)
    requires Halted(data, replies, db, db', r, errors)
    requires RunClean(data, replies)
    ensures Summary(data, replies) == Completed(r, errors, Total(r).success, Total(r).failed)
    ensures Seeded(data, replies, db, db')
  {
    StoppedClean(UserItems(data.users), replies.users, r.users);
    StoppedClean(ValidationItems(data.validationHistory), replies.validations, r.validations);
    StoppedClean(SentimentItems(data.sentimentHistory), replies.sentiments, r.sentiments);
    StoppedClean(SettingItems(data.systemSettings), replies.settings, r.settings);
    SeededAfter(data, replies, db, db', r);
  }

  /** A loop in which no handler throws stops only at the end, with the full tally. */
  lemma StoppedClean(items: seq<Item>, replies: seq<Reply>, c: Counter)
    requires Stopped(items, replies, c)
    requires Clean(items, replies)
    ensures Processed(c) == |items|
    ensures c == Tallied(items, replies)
  {
  }

  /**
   * The four loops inside the `try` of `seedData`: an exception that escapes
   * a record's handler skips the remaining loops.
   */
  method SeedCollections(data: DemoData, replies: DemoReplies, db: Db)
    returns (results: Results, errors: seq<string>, done: bool, db': Db)
    ensures done <==> RunClean(data, replies)
    ensures Halted(data, replies, db, db', results, errors)
    ensures |errors| == Total(results).failed
    ensures forall t :: !SeedTable(t) ==> Rows(db', t) == Rows(db, t)
  {
    var none := Counter(0, 0);
    var users, validations, sentiments, settings := none, none, none, none;
    var userErrors, validationErrors, sentimentErrors, settingErrors: seq<string>;
    var db1, db2, db3;
    TablesDistinct();
    users, userErrors, done, db1 := SeedCollection(UserProfiles, UserPolicy, UserItems(data.users), replies.users, db);
    if !done {
      results := Results(users, none, none, none);
      HaltedFrom(data, replies, db, db1, db1, db1, db1, results, userErrors, [], [], []);
      return results, userErrors + [] + [] + [], done, db1;
    }
    validations, validationErrors, done, db2 := SeedCollection(ValidationHistory, ValidationPolicy,
      ValidationItems(data.validationHistory), replies.validations, db1);
    if !done {
      results := Results(users, validations, none, none);
      HaltedFrom(data, replies, db, db1, db2, db2, db2, results, userErrors, validationErrors, [], []);
      return results, userErrors + validationErrors + [] + [], done, db2;
    }
    sentiments, sentimentErrors, done, db3 := SeedCollection(SentimentHistory, SentimentPolicy,
      SentimentItems(data.sentimentHistory), replies.sentiments, db2);
    if !done {
      results := Results(users, validations, sentiments, none);
      HaltedFrom(data, replies, db, db1, db2, db3, db3, results, userErrors, validationErrors, sentimentErrors, []);
      return results, userErrors + validationErrors + sentimentErrors + [], done, db3;
    }
    settings, settingErrors, done, db' := SeedCollection(SystemSettings, SettingPolicy,
      SettingItems(data.systemSettings), replies.settings, db3);
    results := Results(users, validations, sentiments, settings);
    HaltedFrom(data, replies, db, db1, db2, db3, db', results, userErrors, validationErrors, sentimentErrors, settingErrors);
    errors := userErrors + validationErrors + sentimentErrors + settingErrors;
  }

  /**
   * `seedData`: the credentials guard, then the four loops; a run whose loops
   * all finish prints its summary, and one whose loop was cut short by an
   * escaping exception ends through the outer handler.
   */
  method SeedData(creds: Credentials, data: DemoData, replies: DemoReplies, db: Db)
    returns (run: ScriptRun, db': Db)
    ensures !CredentialsPresent(creds) ==> run == MissingCredentials && db' == db
    ensures run.Completed? <==> CredentialsPresent(creds) && RunClean(data, replies)
    ensures run.Crashed? <==> CredentialsPresent(creds) && !RunClean(data, replies)
    ensures run.Crashed? ==> |run.errors| == Total(run.results).failed
    ensures run.Crashed? ==> Halted(data, replies, db, db', run.results, run.errors)
    ensures run.Completed? ==> run == Summary(data, replies) && Seeded(data, replies, db, db')
    ensures forall t :: !SeedTable(t) ==> Rows(db', t) == Rows(db, t)
  {
    if !CredentialsPresent(creds) {
      return MissingCredentials, db;
    }
    var results, errors, done;
    results, errors, done, db' := SeedCollections(data, replies, db);
    if !done {
      return Crashed(results, errors), db';
    }
    HaltedClean(data, replies, db, db', results, errors);
    var total := Total(results);
    run := Completed(results, errors, total.success, total.failed);
  }

  /** The exit status of a run is 0 exactly when the credentials are set and every write succeeded. */
  lemma ExitStatusRule(creds: Credentials, data: DemoData, replies: DemoReplies, run: ScriptRun)
    requires !CredentialsPresent(creds) ==> run == MissingCredentials
    requires run.Completed? <==> CredentialsPresent(creds) && RunClean(data, replies)
    requires run.Completed? ==> run == Summary(data, replies)
    ensures ExitStatus(run) == 0 <==> CredentialsPresent(creds) && AllWritesOk(data, replies)
  {
    if CredentialsPresent(creds) && AllWritesOk(data, replies) {
      AllOkClean(UserItems(data.users), replies.users);
      AllOkClean(ValidationItems(data.validationHistory), replies.validations);
      AllOkClean(SentimentItems(data.sentimentHistory), replies.sentiments);
      AllOkClean(SettingItems(data.systemSettings), replies.settings);
    }
    if run.Completed? {
      SummaryLaws(data, replies);
    }
  }
}
