/** The record shapes and constraints of the three tables of backend/models.py:
    `channel_groups`, `channels` and `news_items`, plus the way SQLite hands out
    row ids and lists a table. A table is a map from row id to row. */
module Models {
  import opened Wrappers

  /** A row of `channel_groups`; its name is unique among groups. */
  datatype ChannelGroup = ChannelGroup(name: string)

  /** A row of `channels`: a unique name, the time of the last ingestion that
      inserted something (null until then) and an optional, unchecked group id. */
  datatype Channel = Channel(name: string, lastUpdated: Option<int>, groupId: Option<int>)

  /** A row of `news_items`. `imagePath` is a file name in the images directory
      or null; `messageId` is Telegram's own message number. */
  datatype NewsItem = NewsItem(
    channelId: int,
    content: string,
    imagePath: Option<string>,
    date: int,
    messageId: int)

  /** `ChannelGroup.name` is declared unique. */
  ghost predicate GroupNamesUnique(groups: map<int, ChannelGroup>) {
    forall g, h :: g in groups && h in groups && groups[g].name == groups[h].name ==> g == h
  }

  /** `Channel.name` is declared unique. */
  ghost predicate ChannelNamesUnique(channels: map<int, Channel>) {
    forall c, d :: c in channels && d in channels && channels[c].name == channels[d].name ==> c == d
  }

  /** The delete-orphan cascade from a channel to its news items: no item
      names a channel that is not in the table. */
  ghost predicate ItemsOwned(items: map<int, NewsItem>, channels: map<int, Channel>) {
    forall k :: k in items ==> items[k].channelId in channels
  }

  /** Everything the schema itself enforces. */
  ghost predicate Schema(groups: map<int, ChannelGroup>, channels: map<int, Channel>, items: map<int, NewsItem>) {
    GroupNamesUnique(groups) && ChannelNamesUnique(channels) && ItemsOwned(items, channels)
  }

  /** At most one item per (channel, Telegram message) pair. The schema does
      NOT declare this; only the ingestion check keeps it. */
  ghost predicate MessageKeysUnique(items: map<int, NewsItem>) {
    forall i, j ::
      i in items && j in items &&
      items[i].channelId == items[j].channelId && items[i].messageId == items[j].messageId
      ==> i == j
  }

  /** The schema admits two items for the same (channel, message) pair. */
  lemma SchemaAllowsDuplicateMessages()
    ensures exists channels: map<int, Channel>, items: map<int, NewsItem> ::
      Schema(map[], channels, items) && !MessageKeysUnique(items)
  {
    var channels := map[1 := Channel("news", None, None)];
    var row := NewsItem(1, "", None, 0, 7);
    var items := map[1 := row, 2 := row];
    assert items[1].messageId == items[2].messageId;
    assert Schema(map[], channels, items);
  }

  /** A non-empty set has a member. */
  lemma NonEmptyHasMember<T>(s: set<T>) returns (x: T)
    requires s != {}
    ensures x in s
  {
    if forall y :: y !in s {
      assert false;
    }
    x :| x in s;
  }

  /** `m` is the least id of `keys`. */
  predicate Least(m: int, keys: set<int>) {
    m in keys && forall k | k in keys :: m <= k
  }

  /** Every non-empty set of ids has a least element. */
  lemma {:induction false} LeastExists(keys: set<int>)
    requires keys != {}
    ensures exists m :: Least(m, keys)
    decreases |keys|
  {
    var x := NonEmptyHasMember(keys);
    var others := keys - {x};
    assert forall k :: k in keys ==> k == x || k in others;
    if exists y :: y in others {
      LeastExists(others);
      var m :| Least(m, others);
      var least := if x < m then x else m;
      assert Least(least, keys);
    } else {
      assert Least(x, keys);
    }
  }

  /** The ids of a table in the order `query(...).all()` yields them: every id
      of the table, in strictly ascending order. */
  function AscendingIds(keys: set<int>): (ids: seq<int>)
    ensures forall k :: k in keys <==> k in ids
    ensures forall i, j :: 0 <= i < j < |ids| ==> ids[i] < ids[j]
    decreases |keys|
  {
    if keys == {} then []
    else
      LeastExists(keys);
      var m :| Least(m, keys);
      var rest := AscendingIds(keys - {m});
      assert forall j :: 0 <= j < |rest| ==> rest[j] in keys - {m} && m < rest[j];
      [m] + rest
  }

  /** The id SQLite gives a new row of an INTEGER PRIMARY KEY table without
      AUTOINCREMENT: one more than the largest id in use, or 1 for an empty table. */
  function NextRowId(keys: set<int>): (id: int)
    ensures id !in keys
    ensures forall k :: k in keys ==> k < id
    ensures keys == {} ==> id == 1
    ensures keys != {} ==> id - 1 in keys
  {
    var ids := AscendingIds(keys);
    if ids == [] then 1
    else
      assert forall k :: k in keys ==> k <= ids[|ids| - 1];
      ids[|ids| - 1] + 1
  }

  /** The channel names in table order: the name of every channel, and
      nothing else. */
  function NamesInTableOrder(channels: map<int, Channel>): (names: seq<string>)
    ensures forall k :: k in channels ==> channels[k].name in names
    ensures forall i :: 0 <= i < |names| ==> exists k :: k in channels && channels[k].name == names[i]
  {
    var ids := AscendingIds(channels.Keys);
    var names := seq(|ids|, i requires 0 <= i < |ids| => channels[ids[i]].name);
    assert forall i :: 0 <= i < |ids| ==> ids[i] in channels && names[i] == channels[ids[i]].name;
    forall k | k in channels
      ensures channels[k].name in names
    {
      var i :| 0 <= i < |ids| && ids[i] == k;
      assert names[i] == channels[k].name;
    }
    names
  }
}
