/** The ingestion of backend/telegram_service.py: one step per channel
    (`fetch_news_for_channel`) and the sweep over all channels
    (`fetch_all_channels`). Telegram is not called: what Telethon would
    answer for a channel is an input (a `ChannelFeed`), and so is the clock. */
module TelegramService {
  import opened Wrappers
  import opened Models
  import opened Database

  /** `client.get_messages(entity, limit=40)`: only the 40 newest messages are read. */
  const FETCH_LIMIT: nat := 40

  /** A raw Telethon message. `isMessage` is false for service messages and
      other non-`Message` objects; `text` is `msg.message`. */
  datatype RawMessage = RawMessage(isMessage: bool, id: int, text: Option<string>, hasMedia: bool, date: int)

  /** What `client.download_media` does for a message: returns the path of the
      file it wrote, returns nothing, or raises. */
  datatype Download = Saved(path: string) | NothingSaved | DownloadFailed

  /** A message together with the outcome its media download would have. */
  datatype Post = Post(msg: RawMessage, download: Download)

  /** What Telegram answers for a channel name: `get_entity` raises; or it
      resolves and `get_messages` raises; or the history, newest first. */
  datatype ChannelFeed = EntityNotFound | HistoryUnavailable | History(posts: seq<Post>)

  /** The step returns a count, or raises because the Telegram client could
      not be obtained (that call stands outside the step's `try`). */
  datatype StepOutcome = Returned(count: nat) | ClientUnavailable

  /** `isinstance(msg, Message) and (msg.message or msg.media)`. */
  predicate IsContent(m: RawMessage) {
    m.isMessage && ((m.text.Some? && m.text.value != "") || m.hasMedia)
  }

  /** `os.path.basename`: the part of `path` after its last '/'. */
  function Basename(path: string): (name: string)
    ensures '/' !in name
    ensures |name| <= |path| && name == path[|path| - |name|..]
    ensures |name| < |path| ==> path[|path| - |name| - 1] == '/'
    decreases |path|
  {
    if path == [] || path[|path| - 1] == '/' then []
    else Basename(path[..|path| - 1]) + [path[|path| - 1]]
  }

  /** A file name joined below a directory comes back out of `Basename`. */
  lemma {:induction false} BasenameOfJoin(dir: string, name: string)
    requires '/' !in name
    ensures Basename(dir + "/" + name) == name
    decreases |name|
  {
    var path := dir + "/" + name;
    if name != [] {
      var init := name[..|name| - 1];
      assert path[..|path| - 1] == dir + "/" + init;
      assert path[|path| - 1] == name[|name| - 1];
      BasenameOfJoin(dir, init);
      assert init + [name[|name| - 1]] == name;
    }
  }

  /** The `image_path` stored for a new item: the basename of the downloaded
      file when the download returned a non-empty path, otherwise null. */
  function ImageName(p: Post): Option<string> {
    if p.msg.hasMedia && p.download.Saved? && p.download.path != "" then Some(Basename(p.download.path))
    else None
  }

  /** The file an item's image name stands for, if any. */
  function FileOf(name: Option<string>): set<string> {
    if name.Some? then {name.value} else {}
  }

  /** The row inserted for a new message of the channel `channelId`. */
  function ToItem(channelId: int, p: Post): NewsItem {
    NewsItem(channelId, p.msg.text.GetOr(""), ImageName(p), p.msg.date, p.msg.id)
  }

  /** The existence query on (channel_id, message_id). */
  predicate HasMessage(items: map<int, NewsItem>, channelId: int, messageId: int) {
    exists k | k in items :: items[k].channelId == channelId && items[k].messageId == messageId
  }

  /** The items table, the images directory and the insertion counter while
      the step walks through the page. */
  datatype Ingested = Ingested(items: map<int, NewsItem>, images: set<string>, count: nat)

  /** One turn of the insert loop. */
  function IngestPost(acc: Ingested, channelId: int, p: Post): Ingested {
    if IsContent(p.msg) && !HasMessage(acc.items, channelId, p.msg.id) then
      Ingested(
        acc.items[NextRowId(acc.items.Keys) := ToItem(channelId, p)],
        acc.images + FileOf(ImageName(p)),
        acc.count + 1)
    else acc
  }

  /** The whole insert loop over a page. */
  function Ingest(acc: Ingested, channelId: int, posts: seq<Post>): Ingested
    decreases |posts|
  {
    if posts == [] then acc
    else Ingest(IngestPost(acc, channelId, posts[0]), channelId, posts[1..])
  }

  /** The page `get_messages(limit=40)` returns: the newest 40 of the history. */
  function LatestPage(posts: seq<Post>): (page: seq<Post>)
    ensures |page| <= FETCH_LIMIT
    ensures |page| == if |posts| < FETCH_LIMIT then |posts| else FETCH_LIMIT
    ensures page == posts[..|page|]
  {
    if |posts| <= FETCH_LIMIT then posts else posts[..FETCH_LIMIT]
  }

  /** Ingestion only adds rows under fresh ids and only adds files; the
      counter grows by exactly the number of rows added, at most one per post. */
  lemma {:induction false} IngestGrows(acc: Ingested, channelId: int, posts: seq<Post>)
    ensures var r := Ingest(acc, channelId, posts);
      && acc.items.Keys <= r.items.Keys
      && (forall k :: k in acc.items ==> r.items[k] == acc.items[k])
      && acc.images <= r.images
      && r.count - acc.count == |r.items| - |acc.items|
      && acc.count <= r.count <= acc.count + |posts|
    decreases |posts|
  {
    if posts != [] {
      IngestGrows(IngestPost(acc, channelId, posts[0]), channelId, posts[1..]);
    }
  }

  /** After ingestion, every content message of the page has a row. */
  lemma {:induction false} IngestCovers(acc: Ingested, channelId: int, posts: seq<Post>)
    ensures forall j :: 0 <= j < |posts| && IsContent(posts[j].msg) ==>
      HasMessage(Ingest(acc, channelId, posts).items, channelId, posts[j].msg.id)
    decreases |posts|
  {
    if posts != [] {
      var next := IngestPost(acc, channelId, posts[0]);
      var r := Ingest(acc, channelId, posts);
      IngestCovers(next, channelId, posts[1..]);
      IngestGrows(next, channelId, posts[1..]);
      if IsContent(posts[0].msg) {
        if !HasMessage(acc.items, channelId, posts[0].msg.id) {
          var id := NextRowId(acc.items.Keys);
          assert next.items[id] == ToItem(channelId, posts[0]);
          assert r.items[id] == next.items[id];
        } else {
          var k :| k in acc.items && acc.items[k].channelId == channelId && acc.items[k].messageId == posts[0].msg.id;
          assert r.items[k] == next.items[k];
        }
      }
      forall j | 1 <= j < |posts| && IsContent(posts[j].msg)
        ensures HasMessage(r.items, channelId, posts[j].msg.id)
      {
        assert posts[j] == posts[1..][j - 1];
      }
    }
  }

  /** A page whose content messages all have rows already changes nothing. */
  lemma {:induction false} IngestSkipsKnown(acc: Ingested, channelId: int, posts: seq<Post>)
    requires forall j :: 0 <= j < |posts| && IsContent(posts[j].msg) ==> HasMessage(acc.items, channelId, posts[j].msg.id)
    ensures Ingest(acc, channelId, posts) == acc
    decreases |posts|
  {
    if posts != [] {
      assert IngestPost(acc, channelId, posts[0]) == acc;
      IngestSkipsKnown(acc, channelId, posts[1..]);
    }
  }

  /** Ingesting the same page a second time inserts nothing and writes no file. */
  lemma IngestTwiceInsertsNothing(acc: Ingested, channelId: int, posts: seq<Post>)
    ensures var r := Ingest(acc, channelId, posts);
      Ingest(Ingested(r.items, r.images, 0), channelId, posts) == Ingested(r.items, r.images, 0)
  {
    var r := Ingest(acc, channelId, posts);
    IngestCovers(acc, channelId, posts);
    IngestSkipsKnown(Ingested(r.items, r.images, 0), channelId, posts);
  }

  /** Every new row is the row of a content message of the page. */
  lemma {:induction false} IngestNewRows(acc: Ingested, channelId: int, posts: seq<Post>)
    ensures var r := Ingest(acc, channelId, posts);
      forall k :: k in r.items && k !in acc.items ==>
        exists j :: 0 <= j < |posts| && IsContent(posts[j].msg) && r.items[k] == ToItem(channelId, posts[j])
    decreases |posts|
  {
    if posts != [] {
      var next := IngestPost(acc, channelId, posts[0]);
      var r := Ingest(acc, channelId, posts);
      IngestNewRows(next, channelId, posts[1..]);
      IngestGrows(next, channelId, posts[1..]);
      forall k | k in r.items && k !in acc.items
        ensures exists j :: 0 <= j < |posts| && IsContent(posts[j].msg) && r.items[k] == ToItem(channelId, posts[j])
      {
        if k in next.items {
          assert next.items[k] == ToItem(channelId, posts[0]) && IsContent(posts[0].msg);
        } else {
          var j :| 0 <= j < |posts[1..]| && IsContent(posts[1..][j].msg) && r.items[k] == ToItem(channelId, posts[1..][j]);
          assert posts[1..][j] == posts[j + 1];
        }
      }
    }
  }

  /** Every new file is the image of a new row. */
  lemma {:induction false} IngestNewFiles(acc: Ingested, channelId: int, posts: seq<Post>)
    ensures var r := Ingest(acc, channelId, posts);
      forall f :: f in r.images && f !in acc.images ==>
        exists k :: k in r.items && k !in acc.items && r.items[k].imagePath == Some(f)
    decreases |posts|
  {
    if posts != [] {
      var next := IngestPost(acc, channelId, posts[0]);
      var r := Ingest(acc, channelId, posts);
      IngestNewFiles(next, channelId, posts[1..]);
      IngestGrows(next, channelId, posts[1..]);
      forall f | f in r.images && f !in acc.images
        ensures exists k :: k in r.items && k !in acc.items && r.items[k].imagePath == Some(f)
      {
        if f in next.images {
          var id := NextRowId(acc.items.Keys);
          assert next.items[id].imagePath == Some(f);
          assert r.items[id] == next.items[id];
        } else {
          var k :| k in r.items && k !in next.items && r.items[k].imagePath == Some(f);
        }
      }
    }
  }

  /** Ingestion keeps (channel, message) pairs unique. */
  lemma {:induction false} IngestKeepsKeysUnique(acc: Ingested, channelId: int, posts: seq<Post>)
    requires MessageKeysUnique(acc.items)
    ensures MessageKeysUnique(Ingest(acc, channelId, posts).items)
    decreases |posts|
  {
    if posts != [] {
      var next := IngestPost(acc, channelId, posts[0]);
      if next != acc {
        assert forall k :: k in acc.items ==>
          !(acc.items[k].channelId == channelId && acc.items[k].messageId == posts[0].msg.id);
        assert MessageKeysUnique(next.items);
      }
      IngestKeepsKeysUnique(next, channelId, posts[1..]);
    }
  }

  /** Ingestion writes the file of every row it adds. */
  lemma {:induction false} IngestKeepsImagesPresent(acc: Ingested, channelId: int, posts: seq<Post>)
    requires FilesPresent(acc.items, acc.images)
    ensures var r := Ingest(acc, channelId, posts); FilesPresent(r.items, r.images)
    decreases |posts|
  {
    if posts != [] {
      var next := IngestPost(acc, channelId, posts[0]);
      if next != acc {
        var id := NextRowId(acc.items.Keys);
        assert next.items[id].imagePath.Some? ==> next.items[id].imagePath.value in FileOf(ImageName(posts[0]));
      }
      assert FilesPresent(next.items, next.images);
      IngestKeepsImagesPresent(next, channelId, posts[1..]);
      assert Ingest(acc, channelId, posts) == Ingest(next, channelId, posts[1..]);
    }
  }

  /** The channel called `name` and its id, inserting a row for it when there
      is none (`Channel(name=channel_name)`, committed at once). */
  function EnsureChannel(t: Tables, name: string): (r: (Tables, int))
    requires t.Valid()
    ensures r.0.Valid()
    ensures r.1 in r.0.channels && r.0.channels[r.1].name == name
    ensures r.0.groups == t.groups && r.0.items == t.items && r.0.images == t.images
    ensures (exists k :: k in t.channels && t.channels[k].name == name) ==> r.0 == t
    ensures (forall k :: k in t.channels ==> t.channels[k].name != name) ==>
      r.1 !in t.channels && r.0 == t.(channels := t.channels[r.1 := Channel(name, None, None)])
  {
    match ChannelByName(t.channels, name)
    case Some(id) => (t, id)
    case None =>
      var id := NextRowId(t.channels.Keys);
      (t.(channels := t.channels[id := Channel(name, None, None)]), id)
  }

  /** `fetch_news_for_channel(channel_name, db)`, run at time `now`. */
  function FetchStep(t: Tables, name: string, clientReady: bool, feed: ChannelFeed, now: int): (r: (Tables, StepOutcome))
    requires t.Valid()
    ensures r.0.Valid()
  {
    if !clientReady then (t, ClientUnavailable)
    else if feed.EntityNotFound? then (t, Returned(0))
    else
      var (t1, channelId) := EnsureChannel(t, name);
      if feed.HistoryUnavailable? then (t1, Returned(0))
      else
        var start := Ingested(t1.items, t1.images, 0);
        var page := LatestPage(feed.posts);
        var done := Ingest(start, channelId, page);
        IngestKeepsKeysUnique(start, channelId, page);
        IngestNewRows(start, channelId, page);
        IngestGrows(start, channelId, page);
        var channels :=
          if done.count > 0 then t1.channels[channelId := t1.channels[channelId].(lastUpdated := Some(now))]
          else t1.channels;
        assert forall k :: k in done.items ==> done.items[k].channelId in channels;
        (Tables(t1.groups, channels, done.items, done.images), Returned(done.count))
  }

  /** The loop of `fetch_all_channels` over the channel names it listed. */
  function SweepFrom(t: Tables, names: seq<string>, clientReady: bool, feeds: string -> ChannelFeed, now: int): (r: (Tables, bool))
    requires t.Valid()
    ensures r.0.Valid()
    decreases |names|
  {
    if names == [] then (t, false)
    else
      var (t1, outcome) := FetchStep(t, names[0], clientReady, feeds(names[0]), now);
      if outcome.ClientUnavailable? then (t1, true)
      else SweepFrom(t1, names[1..], clientReady, feeds, now)
  }

  /** `fetch_all_channels()`: wipe the images directory, then run the step for
      every channel in table order. The flag says whether the sweep raised. */
  function FetchAll(t: Tables, clientReady: bool, feeds: string -> ChannelFeed, now: int): (r: (Tables, bool))
    requires t.Valid()
    ensures r.0.Valid()
  {
    SweepFrom(t.(images := {}), NamesInTableOrder(t.channels), clientReady, feeds, now)
  }

  /** Running the step twice on the same answer from Telegram: the second
      run inserts nothing and changes nothing, whatever the clock says. */
  lemma FetchStepTwice(t: Tables, name: string, clientReady: bool, feed: ChannelFeed, now: int, later: int)
    requires t.Valid()
    ensures var first := FetchStep(t, name, clientReady, feed, now);
      FetchStep(first.0, name, clientReady, feed, later)
        == (first.0, if clientReady then Returned(0) else ClientUnavailable)
  {
    var first := FetchStep(t, name, clientReady, feed, now);
    var t1 := first.0;
    if clientReady && !feed.EntityNotFound? {
      var ensured := EnsureChannel(t, name);
      var channelId := ensured.1;
      assert channelId in t1.channels && t1.channels[channelId].name == name;
      var again := EnsureChannel(t1, name);
      assert again.1 == channelId && again.0 == t1;
      if feed.History? {
        var page := LatestPage(feed.posts);
        IngestTwiceInsertsNothing(Ingested(ensured.0.items, ensured.0.images, 0), channelId, page);
      }
    }
  }

  /** With the client available the step returns the number of rows it added
      (at most 40), keeps every existing row and file, and touches no group. */
  lemma FetchStepCounts(t: Tables, name: string, feed: ChannelFeed, now: int)
    requires t.Valid()
    ensures var (t1, r) := FetchStep(t, name, true, feed, now);
      && r.Returned?
      && r.count == |t1.items| - |t.items|
      && r.count <= FETCH_LIMIT
      && t.items.Keys <= t1.items.Keys
      && (forall k :: k in t.items ==> t1.items[k] == t.items[k])
      && t.images <= t1.images
      && t1.groups == t.groups
  {
    if feed.History? {
      var ensured := EnsureChannel(t, name);
      IngestGrows(Ingested(ensured.0.items, ensured.0.images, 0), ensured.1, LatestPage(feed.posts));
    }
  }

  /** Each row the step adds belongs to the channel called `name` and copies
      a content message among the 40 newest: its id, its date, its text or ""
      when it has none, and the basename of its downloaded file or null. Each
      file the step adds is the image of such a row. */
  lemma FetchStepNewRows(t: Tables, name: string, feed: ChannelFeed, now: int)
    requires t.Valid()
    ensures var (t1, r) := FetchStep(t, name, true, feed, now);
      && (forall k :: k in t1.items && k !in t.items ==>
        && feed.History?
        && t1.items[k].channelId in t1.channels
        && t1.channels[t1.items[k].channelId].name == name
        && exists j :: (
          && 0 <= j < |feed.posts| && j < FETCH_LIMIT && IsContent(feed.posts[j].msg)
          && t1.items[k].messageId == feed.posts[j].msg.id
          && t1.items[k].date == feed.posts[j].msg.date
          && t1.items[k].content == (if feed.posts[j].msg.text.Some? then feed.posts[j].msg.text.value else "")
          && t1.items[k].imagePath == ImageName(feed.posts[j])))
      && (forall f :: f in t1.images && f !in t.images ==>
        exists k :: k in t1.items && k !in t.items && t1.items[k].imagePath == Some(f))
  {
    if feed.History? {
      var ensured := EnsureChannel(t, name);
      var page := LatestPage(feed.posts);
      var start := Ingested(ensured.0.items, ensured.0.images, 0);
      IngestNewRows(start, ensured.1, page);
      IngestNewFiles(start, ensured.1, page);
      var t1 := FetchStep(t, name, true, feed, now).0;
      forall k | k in t1.items && k !in t.items
        ensures exists j :: (
          && 0 <= j < |feed.posts| && j < FETCH_LIMIT && IsContent(feed.posts[j].msg)
          && t1.items[k].messageId == feed.posts[j].msg.id
          && t1.items[k].date == feed.posts[j].msg.date
          && t1.items[k].content == (if feed.posts[j].msg.text.Some? then feed.posts[j].msg.text.value else "")
          && t1.items[k].imagePath == ImageName(feed.posts[j]))
      {
        var j :| 0 <= j < |page| && IsContent(page[j].msg) && t1.items[k] == ToItem(ensured.1, page[j]);
        assert page[j] == feed.posts[j];
      }
    }
  }

  /** Every content message among the 40 newest has a row of the channel
      called `name` afterwards, whether or not its media download worked. */
  lemma FetchStepCoversPage(t: Tables, name: string, feed: ChannelFeed, now: int)
    requires t.Valid()
    requires feed.History?
    ensures var (t1, r) := FetchStep(t, name, true, feed, now);
      forall j :: 0 <= j < |feed.posts| && j < FETCH_LIMIT && IsContent(feed.posts[j].msg) ==>
        exists k :: k in t1.channels && t1.channels[k].name == name && HasMessage(t1.items, k, feed.posts[j].msg.id)
  {
    var ensured := EnsureChannel(t, name);
    var page := LatestPage(feed.posts);
    IngestCovers(Ingested(ensured.0.items, ensured.0.images, 0), ensured.1, page);
    var t1 := FetchStep(t, name, true, feed, now).0;
    forall j | 0 <= j < |feed.posts| && j < FETCH_LIMIT && IsContent(feed.posts[j].msg)
      ensures exists k :: k in t1.channels && t1.channels[k].name == name && HasMessage(t1.items, k, feed.posts[j].msg.id)
    {
      assert page[j] == feed.posts[j];
      assert ensured.1 in t1.channels && t1.channels[ensured.1].name == name;
    }
  }

  /** The step keeps every channel's name and group; only the channel called
      `name` can change, and its `last_updated` becomes `now` exactly when rows
      were added. A channel row is created only when Telegram resolved a name
      that no channel has, with no group and no `last_updated` before this
      run. */
  lemma FetchStepChannels(t: Tables, name: string, feed: ChannelFeed, now: int)
    requires t.Valid()
    ensures var (t1, r) := FetchStep(t, name, true, feed, now);
      && (forall k :: k in t.channels ==>
        k in t1.channels && t1.channels[k].name == t.channels[k].name && t1.channels[k].groupId == t.channels[k].groupId)
      && (forall k :: k in t.channels && t.channels[k].name != name ==> t1.channels[k] == t.channels[k])
      && (forall k :: k in t1.channels && k !in t.channels ==>
        && t1.channels[k].name == name && t1.channels[k].groupId == None
        && !feed.EntityNotFound?
        && forall c :: c in t.channels ==> t.channels[c].name != name)
      && (!feed.EntityNotFound? ==> exists k :: k in t1.channels && t1.channels[k].name == name)
      && (forall k :: k in t1.channels && t1.channels[k].name == name ==>
        t1.channels[k].lastUpdated ==
          if r.count > 0 then Some(now)
          else if k in t.channels then t.channels[k].lastUpdated
          else None)
  {
  }

  /** Every failure inside the step's `try` makes it return 0; a client that
      cannot be obtained makes it raise before anything is read. */
  lemma FetchStepFailures(t: Tables, name: string, clientReady: bool, feed: ChannelFeed, now: int)
    requires t.Valid()
    ensures var (t1, r) := FetchStep(t, name, clientReady, feed, now);
      && (!clientReady ==> t1 == t && r == ClientUnavailable)
      && (clientReady && feed.EntityNotFound? ==> t1 == t && r == Returned(0))
      && (clientReady && feed.HistoryUnavailable? ==>
        r == Returned(0) && t1.groups == t.groups && t1.items == t.items && t1.images == t.images)
  {
  }

  /** The step writes the file of every row it adds. */
  lemma FetchStepKeepsImagesPresent(t: Tables, name: string, clientReady: bool, feed: ChannelFeed, now: int)
    requires t.Valid() && ImagesPresent(t)
    ensures ImagesPresent(FetchStep(t, name, clientReady, feed, now).0)
  {
    if clientReady && feed.History? {
      var ensured := EnsureChannel(t, name);
      var start := Ingested(ensured.0.items, ensured.0.images, 0);
      var done := Ingest(start, ensured.1, LatestPage(feed.posts));
      IngestKeepsImagesPresent(start, ensured.1, LatestPage(feed.posts));
      var t1 := FetchStep(t, name, clientReady, feed, now).0;
      assert FilesPresent(done.items, done.images);
      assert t1.items == done.items && t1.images == done.images;
      assert ImagesPresent(t1);
    } else if clientReady && feed.HistoryUnavailable? {
      var t1 := FetchStep(t, name, clientReady, feed, now).0;
      assert t1.items == t.items && t1.images == t.images;
    }
  }

  /** A sweep deletes no row and no channel, renames and regroups nothing, and
      each file it adds is the image of a row it added. */
  lemma {:induction false} SweepKeepsRows(t: Tables, names: seq<string>, clientReady: bool, feeds: string -> ChannelFeed, now: int)
    requires t.Valid()
    ensures var (t1, _) := SweepFrom(t, names, clientReady, feeds, now);
      && t.items.Keys <= t1.items.Keys
      && (forall k :: k in t.items ==> t1.items[k] == t.items[k])
      && (forall k :: k in t.channels ==>
        k in t1.channels && t1.channels[k].name == t.channels[k].name && t1.channels[k].groupId == t.channels[k].groupId)
      && t1.groups == t.groups
      && (forall f :: f in t1.images && f !in t.images ==>
        exists k :: k in t1.items && k !in t.items && t1.items[k].imagePath == Some(f))
    decreases |names|
  {
    if names != [] && clientReady {
      var (t1, _) := FetchStep(t, names[0], clientReady, feeds(names[0]), now);
      FetchStepCounts(t, names[0], feeds(names[0]), now);
      FetchStepNewRows(t, names[0], feeds(names[0]), now);
      FetchStepChannels(t, names[0], feeds(names[0]), now);
      SweepKeepsRows(t1, names[1..], clientReady, feeds, now);
      var t2 := SweepFrom(t, names, clientReady, feeds, now).0;
      forall f | f in t2.images && f !in t.images
        ensures exists k :: k in t2.items && k !in t.items && t2.items[k].imagePath == Some(f)
      {
        if f in t1.images {
          var k :| k in t1.items && k !in t.items && t1.items[k].imagePath == Some(f);
          assert t2.items[k] == t1.items[k];
        } else {
          var k :| k in t2.items && k !in t1.items && t2.items[k].imagePath == Some(f);
        }
      }
    }
  }

  /** A sweep writes the file of every row it adds. */
  lemma {:induction false} SweepKeepsImagesPresent(t: Tables, names: seq<string>, clientReady: bool, feeds: string -> ChannelFeed, now: int)
    requires t.Valid() && ImagesPresent(t)
    ensures ImagesPresent(SweepFrom(t, names, clientReady, feeds, now).0)
    decreases |names|
  {
    if names != [] {
      FetchStepKeepsImagesPresent(t, names[0], clientReady, feeds(names[0]), now);
      var (t1, _) := FetchStep(t, names[0], clientReady, feeds(names[0]), now);
      SweepKeepsImagesPresent(t1, names[1..], clientReady, feeds, now);
    }
  }

  /** With a Telegram client every step returns, so the sweep visits every
      listed channel and does not raise, whatever the channels' feeds are. */
  lemma {:induction false} SweepWithClientCompletes(t: Tables, names: seq<string>, feeds: string -> ChannelFeed, now: int)
    requires t.Valid()
    ensures !SweepFrom(t, names, true, feeds, now).1
    decreases |names|
  {
    if names != [] {
      FetchStepCounts(t, names[0], feeds(names[0]), now);
      var (t1, _) := FetchStep(t, names[0], true, feeds(names[0]), now);
      SweepWithClientCompletes(t1, names[1..], feeds, now);
    }
  }

  /** The sweep raises exactly when there is no Telegram client and at least
      one channel to fetch. */
  lemma FetchAllRaises(t: Tables, clientReady: bool, feeds: string -> ChannelFeed, now: int)
    requires t.Valid()
    ensures FetchAll(t, clientReady, feeds, now).1 <==> !clientReady && t.channels != map[]
  {
    if clientReady {
      SweepWithClientCompletes(t.(images := {}), NamesInTableOrder(t.channels), feeds, now);
    } else {
      FetchAllWithoutClient(t, feeds, now);
      if t.channels != map[] {
        var k :| k in t.channels;
      }
    }
  }

  /** The channel called `name` has rows for every content message among the
      40 newest of `feed`, so a step on that answer has nothing to do. */
  ghost predicate Covered(t: Tables, name: string, feed: ChannelFeed) {
    !feed.EntityNotFound? ==>
      exists k :: k in t.channels && t.channels[k].name == name &&
        (feed.History? ==>
          forall j :: 0 <= j < |feed.posts| && j < FETCH_LIMIT && IsContent(feed.posts[j].msg) ==>
            HasMessage(t.items, k, feed.posts[j].msg.id))
  }

  /** After a step the channel it fetched is covered for that answer. */
  lemma FetchStepLeavesCovered(t: Tables, name: string, feed: ChannelFeed, now: int)
    requires t.Valid()
    ensures Covered(FetchStep(t, name, true, feed, now).0, name, feed)
  {
    if !feed.EntityNotFound? {
      var ensured := EnsureChannel(t, name);
      var k := ensured.1;
      var t1 := FetchStep(t, name, true, feed, now).0;
      assert k in t1.channels && t1.channels[k].name == name;
      if feed.History? {
        var page := LatestPage(feed.posts);
        IngestCovers(Ingested(ensured.0.items, ensured.0.images, 0), k, page);
        forall j | 0 <= j < |feed.posts| && j < FETCH_LIMIT && IsContent(feed.posts[j].msg)
          ensures HasMessage(t1.items, k, feed.posts[j].msg.id)
        {
          assert page[j] == feed.posts[j];
        }
      }
    }
  }

  /** A step on any channel keeps every other channel covered: it renames
      nothing and deletes no row. */
  lemma FetchStepKeepsCovered(t: Tables, name: string, feed: ChannelFeed, other: string, otherFeed: ChannelFeed, now: int)
    requires t.Valid() && Covered(t, other, otherFeed)
    ensures Covered(FetchStep(t, name, true, feed, now).0, other, otherFeed)
  {
    var t1 := FetchStep(t, name, true, feed, now).0;
    FetchStepChannels(t, name, feed, now);
    FetchStepCounts(t, name, feed, now);
    if !otherFeed.EntityNotFound? {
      var k :| k in t.channels && t.channels[k].name == other &&
        (otherFeed.History? ==>
          forall j :: 0 <= j < |otherFeed.posts| && j < FETCH_LIMIT && IsContent(otherFeed.posts[j].msg) ==>
            HasMessage(t.items, k, otherFeed.posts[j].msg.id));
      assert k in t1.channels && t1.channels[k].name == other;
      if otherFeed.History? {
        forall j | 0 <= j < |otherFeed.posts| && j < FETCH_LIMIT && IsContent(otherFeed.posts[j].msg)
          ensures HasMessage(t1.items, k, otherFeed.posts[j].msg.id)
        {
          var row :| row in t.items && t.items[row].channelId == k && t.items[row].messageId == otherFeed.posts[j].msg.id;
          assert t1.items[row] == t.items[row];
        }
      }
    }
  }

  /** A step on a covered channel changes nothing and returns 0. */
  lemma CoveredStepIsNoop(t: Tables, name: string, feed: ChannelFeed, now: int)
    requires t.Valid() && Covered(t, name, feed)
    ensures FetchStep(t, name, true, feed, now) == (t, Returned(0))
  {
    if !feed.EntityNotFound? {
      var k :| k in t.channels && t.channels[k].name == name &&
        (feed.History? ==>
          forall j :: 0 <= j < |feed.posts| && j < FETCH_LIMIT && IsContent(feed.posts[j].msg) ==>
            HasMessage(t.items, k, feed.posts[j].msg.id));
      var ensured := EnsureChannel(t, name);
      assert ensured.0 == t;
      assert ensured.1 == k;
      if feed.History? {
        var page := LatestPage(feed.posts);
        forall j | 0 <= j < |page| && IsContent(page[j].msg)
          ensures HasMessage(t.items, k, page[j].msg.id)
        {
          assert page[j] == feed.posts[j];
        }
        IngestSkipsKnown(Ingested(t.items, t.images, 0), k, page);
      }
    }
  }

  /** After a sweep with a client, every listed channel is covered, and so is
      every channel that was covered before. */
  lemma {:induction false} SweepLeavesCovered(t: Tables, names: seq<string>, feeds: string -> ChannelFeed, now: int)
    requires t.Valid()
    ensures var t1 := SweepFrom(t, names, true, feeds, now).0;
      forall n :: (n in names || Covered(t, n, feeds(n))) ==> Covered(t1, n, feeds(n))
    decreases |names|
  {
    if names != [] {
      FetchStepCounts(t, names[0], feeds(names[0]), now);
      var (t1, _) := FetchStep(t, names[0], true, feeds(names[0]), now);
      FetchStepLeavesCovered(t, names[0], feeds(names[0]), now);
      forall n | Covered(t, n, feeds(n))
        ensures Covered(t1, n, feeds(n))
      {
        FetchStepKeepsCovered(t, names[0], feeds(names[0]), n, feeds(n), now);
      }
      SweepLeavesCovered(t1, names[1..], feeds, now);
    }
  }

  /** A sweep over covered channels changes nothing and does not raise. */
  lemma {:induction false} CoveredSweepIsNoop(t: Tables, names: seq<string>, feeds: string -> ChannelFeed, now: int)
    requires t.Valid()
    requires forall n :: n in names ==> Covered(t, n, feeds(n))
    ensures SweepFrom(t, names, true, feeds, now) == (t, false)
    decreases |names|
  {
    if names != [] {
      CoveredStepIsNoop(t, names[0], feeds(names[0]), now);
      CoveredSweepIsNoop(t, names[1..], feeds, now);
    }
  }

  /** A sweep keeps every channel's name and adds channels only under the
      names it was given. */
  lemma {:induction false} SweepChannelNames(t: Tables, names: seq<string>, feeds: string -> ChannelFeed, now: int)
    requires t.Valid()
    ensures var t1 := SweepFrom(t, names, true, feeds, now).0;
      forall k :: k in t1.channels ==>
        t1.channels[k].name in names || (k in t.channels && t1.channels[k].name == t.channels[k].name)
    decreases |names|
  {
    if names != [] {
      FetchStepCounts(t, names[0], feeds(names[0]), now);
      FetchStepChannels(t, names[0], feeds(names[0]), now);
      var (t1, _) := FetchStep(t, names[0], true, feeds(names[0]), now);
      SweepChannelNames(t1, names[1..], feeds, now);
      var t2 := SweepFrom(t, names, true, feeds, now).0;
      forall k | k in t2.channels
        ensures t2.channels[k].name in names || (k in t.channels && t2.channels[k].name == t.channels[k].name)
      {
        if t2.channels[k].name in names[1..] {
          assert t2.channels[k].name in names;
        }
      }
    }
  }

  /** Two hourly sweeps in a row, Telegram answering the same both times:
      the second inserts nothing and changes no row, but it still empties
      the images directory, so every image of the first sweep is gone. */
  lemma FetchAllTwice(t: Tables, feeds: string -> ChannelFeed, now: int, later: int)
    requires t.Valid()
    ensures var t1 := FetchAll(t, true, feeds, now).0;
      FetchAll(t1, true, feeds, later) == (t1.(images := {}), false)
  {
    var names := NamesInTableOrder(t.channels);
    var wiped := t.(images := {});
    var t1 := SweepFrom(wiped, names, true, feeds, now).0;
    SweepLeavesCovered(wiped, names, feeds, now);
    SweepChannelNames(wiped, names, feeds, now);
    var again := NamesInTableOrder(t1.channels);
    forall i | 0 <= i < |again|
      ensures Covered(t1.(images := {}), again[i], feeds(again[i]))
    {
      var k :| k in t1.channels && t1.channels[k].name == again[i];
      assert again[i] in names;
      assert Covered(t1, again[i], feeds(again[i]));
    }
    CoveredSweepIsNoop(t1.(images := {}), again, feeds, later);
  }

  /** `row` belongs to a channel of `t` and is the row of a content message
      among the 40 newest of what Telegram answers for that channel's name. */
  ghost predicate RowFromFeed(t: Tables, feeds: string -> ChannelFeed, row: NewsItem) {
    row.channelId in t.channels &&
    var feed := feeds(t.channels[row.channelId].name);
    feed.History? &&
    exists j :: 0 <= j < |feed.posts| && j < FETCH_LIMIT && IsContent(feed.posts[j].msg) &&
      row == ToItem(row.channelId, feed.posts[j])
  }

  /** A step keeps every channel and its name, so a row that came from its
      channel's feed still does, and every row the step adds comes from the
      feed of the channel it fetched. */
  lemma FetchStepRowsFromFeeds(t: Tables, name: string, feeds: string -> ChannelFeed, now: int)
    requires t.Valid()
    ensures var t1 := FetchStep(t, name, true, feeds(name), now).0;
      && (forall k :: k in t.items && RowFromFeed(t, feeds, t.items[k]) ==>
        k in t1.items && RowFromFeed(t1, feeds, t1.items[k]))
      && (forall k :: k in t1.items && k !in t.items ==> RowFromFeed(t1, feeds, t1.items[k]))
  {
    var t1 := FetchStep(t, name, true, feeds(name), now).0;
    FetchStepCounts(t, name, feeds(name), now);
    FetchStepChannels(t, name, feeds(name), now);
    FetchStepNewRows(t, name, feeds(name), now);
    forall k | k in t.items && RowFromFeed(t, feeds, t.items[k])
      ensures k in t1.items && RowFromFeed(t1, feeds, t1.items[k])
    {
      var row := t.items[k];
      assert t1.items[k] == row;
      var feed := feeds(t.channels[row.channelId].name);
      var j :| 0 <= j < |feed.posts| && j < FETCH_LIMIT && IsContent(feed.posts[j].msg) &&
        row == ToItem(row.channelId, feed.posts[j]);
      assert t1.channels[row.channelId].name == t.channels[row.channelId].name;
    }
    forall k | k in t1.items && k !in t.items
      ensures RowFromFeed(t1, feeds, t1.items[k])
    {
      var row := t1.items[k];
      var feed := feeds(name);
      var j :| 0 <= j < |feed.posts| && j < FETCH_LIMIT && IsContent(feed.posts[j].msg)
        && row.messageId == feed.posts[j].msg.id
        && row.date == feed.posts[j].msg.date
        && row.content == (if feed.posts[j].msg.text.Some? then feed.posts[j].msg.text.value else "")
        && row.imagePath == ImageName(feed.posts[j]);
      assert row == ToItem(row.channelId, feed.posts[j]);
    }
  }

  /** Every row of `t` came from the feed of its channel. */
  ghost predicate AllRowsFromFeeds(t: Tables, feeds: string -> ChannelFeed) {
    forall k :: k in t.items ==> RowFromFeed(t, feeds, t.items[k])
  }

  /** A sweep keeps every row of `t` coming from its channel's feed, and the
      rows it adds come from their channels' feeds too. */
  lemma {:induction false} SweepRowsFromFeeds(t: Tables, names: seq<string>, clientReady: bool, feeds: string -> ChannelFeed, now: int)
    requires t.Valid() && AllRowsFromFeeds(t, feeds)
    ensures AllRowsFromFeeds(SweepFrom(t, names, clientReady, feeds, now).0, feeds)
    decreases |names|
  {
    if names != [] && clientReady {
      var t1 := FetchStep(t, names[0], true, feeds(names[0]), now).0;
      FetchStepRowsFromFeeds(t, names[0], feeds, now);
      forall k | k in t1.items
        ensures RowFromFeed(t1, feeds, t1.items[k])
      {
        if k in t.items {
          assert RowFromFeed(t, feeds, t.items[k]);
        }
      }
      SweepRowsFromFeeds(t1, names[1..], clientReady, feeds, now);
    }
  }

  /** A channel that Telegram cannot resolve does not stop the sweep: the
      sweep ends as if that channel had not been listed. */
  lemma {:induction false} UnresolvedChannelIsSkipped(t: Tables, names: seq<string>, i: nat, feeds: string -> ChannelFeed, now: int)
    requires t.Valid()
    requires i < |names| && feeds(names[i]).EntityNotFound?
    ensures SweepFrom(t, names, true, feeds, now) == SweepFrom(t, names[..i] + names[i + 1..], true, feeds, now)
    decreases i
  {
    var rest := names[..i] + names[i + 1..];
    if i == 0 {
      assert rest == names[1..];
    } else {
      var (t1, _) := FetchStep(t, names[0], true, feeds(names[0]), now);
      UnresolvedChannelIsSkipped(t1, names[1..], i - 1, feeds, now);
      assert rest[0] == names[0];
      assert rest[1..] == names[1..][..i - 1] + names[1..][i..];
    }
  }

  /** Without a Telegram client the sweep still wipes the images directory,
      then raises at its first channel without changing any row. */
  lemma FetchAllWithoutClient(t: Tables, feeds: string -> ChannelFeed, now: int)
    requires t.Valid()
    ensures FetchAll(t, false, feeds, now) == (t.(images := {}), exists k :: k in t.channels)
  {
  }

  /** The sweep deletes no row, yet empties the images directory first: any
      file still present afterwards is the image of a row added by this
      sweep, so older rows may name files that are gone. */
  lemma FetchAllKeepsRowsDropsFiles(t: Tables, clientReady: bool, feeds: string -> ChannelFeed, now: int)
    requires t.Valid()
    ensures var (t1, _) := FetchAll(t, clientReady, feeds, now);
      && (forall k :: k in t.items ==> k in t1.items && t1.items[k] == t.items[k])
      && (forall f :: f in t1.images ==> exists k :: k in t1.items && k !in t.items && t1.items[k].imagePath == Some(f))
  {
    SweepKeepsRows(t.(images := {}), NamesInTableOrder(t.channels), clientReady, feeds, now);
  }

  /** The insert loop of the step: every content message of the page whose
      (channel, message) pair has no row yet gets one, with its image
      downloaded on the way; returns how many rows it added. */
  method InsertNewMessages(db: Store, channelId: int, messages: seq<Post>) returns (count: nat)
    modifies db
    ensures db.groups == old(db.groups) && db.channels == old(db.channels)
    ensures Ingested(db.items, db.images, count) == Ingest(Ingested(old(db.items), old(db.images), 0), channelId, messages)
  {
    ghost var start := Ingested(db.items, db.images, 0);
    count := 0;
    var i := 0;
    while i < |messages|
      invariant 0 <= i <= |messages|
      invariant db.groups == old(db.groups) && db.channels == old(db.channels)
      invariant Ingest(Ingested(db.items, db.images, count), channelId, messages[i..]) == Ingest(start, channelId, messages)
    {
      ghost var before := Ingested(db.items, db.images, count);
      var msg := messages[i].msg;
      if IsContent(msg) {
        var known := HasMessage(db.items, channelId, msg.id);
        if !known {
          var imageFilename: Option<string> := None;
          if msg.hasMedia {
            match messages[i].download
            case Saved(path) =>
              if path != "" {
                imageFilename := Some(Basename(path));
                db.images := db.images + {imageFilename.value};
              }
            case NothingSaved =>
            case DownloadFailed =>
          }
          var id := NextRowId(db.items.Keys);
          db.items := db.items[id := NewsItem(channelId, msg.text.GetOr(""), imageFilename, msg.date, msg.id)];
          count := count + 1;
        }
      }
      assert Ingested(db.items, db.images, count) == IngestPost(before, channelId, messages[i]);
      assert messages[i..][1..] == messages[i + 1..];
      i := i + 1;
    }
    assert messages[i..] == [];
  }

  /** The per-channel ingestion step on the shared session `db`. */
  method FetchNewsForChannel(db: Store, channelName: string, clientReady: bool, feed: ChannelFeed, now: int)
    returns (outcome: StepOutcome)
    requires db.Valid()
    modifies db
    ensures db.Valid()
    ensures (db.Snapshot(), outcome) == FetchStep(old(db.Snapshot()), channelName, clientReady, feed, now)
  {
    if !clientReady {
      return ClientUnavailable;
    }
    if feed.EntityNotFound? {
      return Returned(0);
    }
    var channelId: int;
    var found := ChannelByName(db.channels, channelName);
    if found.Some? {
      channelId := found.value;
    } else {
      channelId := NextRowId(db.channels.Keys);
      db.channels := db.channels[channelId := Channel(channelName, None, None)];
    }
    assert (db.Snapshot(), channelId) == EnsureChannel(old(db.Snapshot()), channelName);
    if feed.HistoryUnavailable? {
      return Returned(0);
    }
    var messages := LatestPage(feed.posts);
    var count := InsertNewMessages(db, channelId, messages);
    if count > 0 {
      db.channels := db.channels[channelId := db.channels[channelId].(lastUpdated := Some(now))];
    }
    assert (db.Snapshot(), Returned(count)) == FetchStep(old(db.Snapshot()), channelName, clientReady, feed, now);
    return Returned(count);
  }

  /** The hourly (and on-demand) sweep over every channel. */
  method FetchAllChannels(db: Store, clientReady: bool, feeds: string -> ChannelFeed, now: int)
    returns (raised: bool)
    requires db.Valid()
    modifies db
    ensures db.Valid()
    ensures (db.Snapshot(), raised) == FetchAll(old(db.Snapshot()), clientReady, feeds, now)
  {
    db.RemoveImageFiles();
    var names := NamesInTableOrder(db.channels);
    ghost var wiped := db.Snapshot();
    raised := false;
    var i := 0;
    while i < |names|
      invariant 0 <= i <= |names|
      invariant db.Valid()
      invariant SweepFrom(db.Snapshot(), names[i..], clientReady, feeds, now) == SweepFrom(wiped, names, clientReady, feeds, now)
    {
      ghost var before := db.Snapshot();
      var outcome := FetchNewsForChannel(db, names[i], clientReady, feeds(names[i]), now);
      assert names[i..][1..] == names[i + 1..];
      if outcome.ClientUnavailable? {
        raised := true;
        return;
      }
      i := i + 1;
    }
    assert names[i..] == [];
  }
}
