/**
 * The demo dataset (the four arrays of `demo-data.json`), the collections its
 * records go to, the write policy of each collection, and the row each record
 * is written as. Record fields other than the identifying ones pass through
 * unexamined.
 */
module Dataset {
  import opened Backend
  import opened Writer

  datatype User = User(id: string, email: string, profile: Columns)
  datatype Validation = Validation(id: string, fields: Columns)
  datatype Sentiment = Sentiment(id: string, fields: Columns)
  datatype Setting = Setting(key: string, fields: Columns)

  datatype DemoData = DemoData(
    users: seq<User>,
    validationHistory: seq<Validation>,
    sentimentHistory: seq<Sentiment>,
    systemSettings: seq<Setting>)

  const UserProfiles: string := "user_profiles"
  const ValidationHistory: string := "validation_history"
  const SentimentHistory: string := "sentiment_history"
  const SystemSettings: string := "system_settings"

  /** The four collection names are pairwise distinct (their lengths already differ). */
  lemma TablesDistinct()
    ensures UserProfiles != ValidationHistory && UserProfiles != SentimentHistory && UserProfiles != SystemSettings
    ensures ValidationHistory != SentimentHistory && ValidationHistory != SystemSettings
    ensures SentimentHistory != SystemSettings
  {
    assert |UserProfiles| == 13 && |ValidationHistory| == 18 && |SentimentHistory| == 17 && |SystemSettings| == 15;
  }

  /** Profiles are upserted on `email`, settings on `key`; both histories are plain inserts. */
  const UserPolicy: Policy := Upsert("email")
  const ValidationPolicy: Policy := Insert
  const SentimentPolicy: Policy := Insert
  const SettingPolicy: Policy := Upsert("key")

  predicate SeedTable(table: string) {
    table == UserProfiles || table == ValidationHistory || table == SentimentHistory || table == SystemSettings
  }

  /** A profile row: `id` and `user_id` are the user's id, and `metadata` is `{ demo_data: true }`. */
  function UserRow(u: User): (r: Row)
    ensures r.demoData
    ensures KeyOf(r, "id") == Some(u.id) && KeyOf(r, "user_id") == Some(u.id) && KeyOf(r, "email") == Some(u.email)
    ensures forall c :: c in u.profile && c != "id" && c != "user_id" && c != "email" ==>
              c in r.columns && r.columns[c] == u.profile[c]
  {
    Row(u.profile["id" := u.id]["user_id" := u.id]["email" := u.email], true)
  }

  function ValidationRow(v: Validation): Row {
    Row(v.fields["id" := v.id], false)
  }

  function SentimentRow(s: Sentiment): Row {
    Row(s.fields["id" := s.id], false)
  }

  function SettingRow(s: Setting): Row {
    Row(s.fields["key" := s.key], false)
  }

  /** The scripted replies to the writes of each collection, one per record in order. */
  datatype DemoReplies = DemoReplies(
    users: seq<Reply>,
    validations: seq<Reply>,
    sentiments: seq<Reply>,
    settings: seq<Reply>)

  /** Every write of a seed run succeeds. */
  predicate AllWritesOk(data: DemoData, replies: DemoReplies) {
    && AllOk(replies.users, |data.users|)
    && AllOk(replies.validations, |data.validationHistory|)
    && AllOk(replies.sentiments, |data.sentimentHistory|)
    && AllOk(replies.settings, |data.systemSettings|)
  }

  /** Both seeders head a profile's error lines with `User <email>`. */
  function UserItems(users: seq<User>): seq<Item> {
    seq(|users|, i requires 0 <= i < |users| => Item(UserRow(users[i]), "User " + users[i].email))
  }

  /** Both seeders head a setting's error lines with `Setting <key>`. */
  function SettingItems(settings: seq<Setting>): seq<Item> {
    seq(|settings|, i requires 0 <= i < |settings| => Item(SettingRow(settings[i]), "Setting " + settings[i].key))
  }

  /** Every row the user loop can write carries the demo marker. */
  lemma UserItemsMarked(users: seq<User>, replies: seq<Reply>)
    ensures forall r :: r in OkRows(UserItems(users), replies, |users|) ==> r.demoData
  {
    var items := UserItems(users);
    forall r | r in OkRows(items, replies, |users|) ensures r.demoData {
      var i :| 0 <= i < |users| && items[i].row == r;
    }
  }
}
