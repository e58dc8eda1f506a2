/** The HTTP handlers of backend/main.py over the shared session: groups and
    channels are configured, the news listing is read, and the cleanup wipes
    rows and files before re-running the sweep. FastAPI itself is not
    modelled: a raised `HTTPException` is an `Err` carrying its status code
    and detail, and a successful response is an `Ok`. */
module Api {
  import opened Wrappers
  import opened Models
  import opened Database
  import opened TelegramService

  /** An error response: status code and `detail`. */
  datatype HttpError = HttpError(status: int, detail: string)

  /** The response FastAPI sends when a handler raises anything other than an
      `HTTPException` (here: a violated unique constraint on commit, or a
      Telegram client that cannot be started). */
  const INTERNAL_ERROR := HttpError(500, "Internal Server Error")

  /** The message `cleanup_news` answers with. */
  const CLEANUP_DONE := "Cleanup successful and fetch triggered"

  /** The URL prefix under which the images directory is served. */
  const IMAGES_URL := "/static/images/"

  // ---------------------------------------------------------------------
  // Groups

  /** `create_group`: a name some group already has is refused with 400;
      otherwise one group with that name is added under a fresh id, which is
      returned. */
  function CreateGroupOn(t: Tables, name: string): (r: (Tables, Result<int, HttpError>))
    requires t.Valid()
    ensures r.0.Valid()
    ensures r.1.Err? <==> GroupNamed(t.groups, name)
    ensures r.1.Err? ==> r.1.error == HttpError(400, "Group already exists") && r.0 == t
    ensures r.1.Ok? ==>
      && r.1.value !in t.groups
      && r.0 == t.(groups := t.groups[r.1.value := ChannelGroup(name)])
  {
    if GroupNamed(t.groups, name) then (t, Err(HttpError(400, "Group already exists")))
    else
      var id := NextRowId(t.groups.Keys);
      (t.(groups := t.groups[id := ChannelGroup(name)]), Ok(id))
  }

  /** A name is accepted at most once: after a group was created, creating
      it again is refused and changes nothing. */
  lemma CreateGroupTwice(t: Tables, name: string)
    requires t.Valid()
    requires CreateGroupOn(t, name).1.Ok?
    ensures var t1 := CreateGroupOn(t, name).0;
      CreateGroupOn(t1, name) == (t1, Err(HttpError(400, "Group already exists")))
  {
    var (t1, r) := CreateGroupOn(t, name);
    assert t1.groups[r.value].name == name;
  }

  /** The channels of `channels` detached from group `groupId`. */
  function Ungroup(channels: map<int, Channel>, groupId: int): (r: map<int, Channel>)
    ensures r.Keys == channels.Keys
    ensures forall k :: k in channels ==>
      && r[k].name == channels[k].name
      && r[k].lastUpdated == channels[k].lastUpdated
      && r[k].groupId == (if channels[k].groupId == Some(groupId) then None else channels[k].groupId)
    ensures forall k :: k in r ==> r[k].groupId != Some(groupId)
  {
    map k | k in channels ::
      if channels[k].groupId == Some(groupId) then channels[k].(groupId := None) else channels[k]
  }

  /** `delete_group`: an unknown id is refused with 404; otherwise the group
      is removed and its channels are detached from it, not deleted. No
      item and no file is touched. */
  function DeleteGroupOn(t: Tables, groupId: int): (r: (Tables, Result<(), HttpError>))
    requires t.Valid()
    ensures r.0.Valid()
    ensures r.1.Err? <==> groupId !in t.groups
    ensures r.1.Err? ==> r.1.error == HttpError(404, "Group not found") && r.0 == t
    ensures r.1.Ok? ==>
      && r.0.groups == t.groups - {groupId}
      && r.0.channels.Keys == t.channels.Keys
      && (forall k :: k in t.channels ==>
        && r.0.channels[k].name == t.channels[k].name
        && r.0.channels[k].lastUpdated == t.channels[k].lastUpdated
        && r.0.channels[k].groupId == (if t.channels[k].groupId == Some(groupId) then None else t.channels[k].groupId))
      && (forall k :: k in r.0.channels ==> r.0.channels[k].groupId != Some(groupId))
      && r.0.items == t.items && r.0.images == t.images
  {
    if groupId !in t.groups then (t, Err(HttpError(404, "Group not found")))
    else
      var channels := Ungroup(t.channels, groupId);
      assert ChannelNamesUnique(channels);
      (t.(groups := t.groups - {groupId}, channels := channels), Ok(()))
  }

  /** A deleted group is gone: deleting it again is refused with 404. */
  lemma DeleteGroupTwice(t: Tables, groupId: int)
    requires t.Valid()
    ensures var t1 := DeleteGroupOn(t, groupId).0;
      DeleteGroupOn(t1, groupId) == (t1, Err(HttpError(404, "Group not found")))
  {
  }

  // ---------------------------------------------------------------------
  // Channels

  /** `add_channel`: a name some channel already has is refused with 400;
      otherwise one channel with that name and group, never updated yet, is
      added under a fresh id, which is returned. */
  function AddChannelOn(t: Tables, name: string, groupId: Option<int>): (r: (Tables, Result<int, HttpError>))
    requires t.Valid()
    ensures r.0.Valid()
    ensures r.1.Err? <==> exists k :: k in t.channels && t.channels[k].name == name
    ensures r.1.Err? ==> r.1.error == HttpError(400, "Channel already exists") && r.0 == t
    ensures r.1.Ok? ==>
      && r.1.value !in t.channels
      && r.0 == t.(channels := t.channels[r.1.value := Channel(name, None, groupId)])
  {
    match ChannelByName(t.channels, name)
    case Some(_) => (t, Err(HttpError(400, "Channel already exists")))
    case None =>
      var id := NextRowId(t.channels.Keys);
      (t.(channels := t.channels[id := Channel(name, None, groupId)]), Ok(id))
  }

  /** After a channel was added, adding the same name again is refused and
      changes nothing, whatever group is asked for. */
  lemma AddChannelTwice(t: Tables, name: string, groupId: Option<int>, otherGroup: Option<int>)
    requires t.Valid()
    requires AddChannelOn(t, name, groupId).1.Ok?
    ensures var t1 := AddChannelOn(t, name, groupId).0;
      AddChannelOn(t1, name, otherGroup) == (t1, Err(HttpError(400, "Channel already exists")))
  {
    var (t1, r) := AddChannelOn(t, name, groupId);
    assert t1.channels[r.value].name == name;
  }

  /** An added channel is the one the ingestion step then fills: a step for
      its name inserts no second channel row. */
  lemma AddedChannelIsFetched(t: Tables, name: string, groupId: Option<int>, feed: ChannelFeed, now: int)
    requires t.Valid()
    requires AddChannelOn(t, name, groupId).1.Ok?
    ensures var t1 := AddChannelOn(t, name, groupId).0;
      FetchStep(t1, name, true, feed, now).0.channels.Keys == t1.channels.Keys
  {
    var (t1, r) := AddChannelOn(t, name, groupId);
    assert t1.channels[r.value].name == name;
    var ensured := EnsureChannel(t1, name);
    assert ensured.0 == t1;
  }

  /** `update_channel`: an unknown id is refused with 404; a name held by
      another channel violates the unique constraint on commit, which fails
      the request with 500 and rolls back. Otherwise only that channel's
      name and group change. */
  function UpdateChannelOn(t: Tables, channelId: int, name: string, groupId: Option<int>): (r: (Tables, Result<Channel, HttpError>))
    requires t.Valid()
    ensures r.0.Valid()
    ensures r.1.Err? <==>
      channelId !in t.channels || exists k :: k in t.channels && k != channelId && t.channels[k].name == name
    ensures channelId !in t.channels ==> r == (t, Err(HttpError(404, "Channel not found")))
    ensures channelId in t.channels && r.1.Err? ==> r.1.error == INTERNAL_ERROR
    ensures r.1.Err? ==> r.0 == t
    ensures r.1.Ok? ==>
      && r.1.value == Channel(name, t.channels[channelId].lastUpdated, groupId)
      && r.0 == t.(channels := t.channels[channelId := r.1.value])
  {
    if channelId !in t.channels then (t, Err(HttpError(404, "Channel not found")))
    else
      match ChannelByName(t.channels, name)
      case Some(holder) =>
        if holder != channelId then (t, Err(INTERNAL_ERROR))
        else
          var updated := Channel(name, t.channels[channelId].lastUpdated, groupId);
          (t.(channels := t.channels[channelId := updated]), Ok(updated))
      case None =>
        var updated := Channel(name, t.channels[channelId].lastUpdated, groupId);
        (t.(channels := t.channels[channelId := updated]), Ok(updated))
  }

  /** An update changes no other channel, no group, no item and no file. */
  lemma UpdateChannelKeepsOthers(t: Tables, channelId: int, name: string, groupId: Option<int>)
    requires t.Valid()
    ensures var t1 := UpdateChannelOn(t, channelId, name, groupId).0;
      && t1.channels.Keys == t.channels.Keys
      && (forall k :: k in t.channels && k != channelId ==> t1.channels[k] == t.channels[k])
      && t1.groups == t.groups && t1.items == t.items && t1.images == t.images
  {
  }

  /** `delete_channel`: an unknown id is refused with 404; otherwise the
      channel is removed and the delete-orphan cascade removes all of its
      items. Other rows stay as they were; the image files of the removed
      items stay in the images directory. */
  function DeleteChannelOn(t: Tables, channelId: int): (r: (Tables, Result<(), HttpError>))
    requires t.Valid()
    ensures r.0.Valid()
    ensures r.1.Err? <==> channelId !in t.channels
    ensures r.1.Err? ==> r.1.error == HttpError(404, "Channel not found") && r.0 == t
    ensures r.1.Ok? ==>
      && r.0.channels == t.channels - {channelId}
      && (forall k :: k in t.items ==> (k in r.0.items <==> t.items[k].channelId != channelId))
      && (forall k :: k in r.0.items ==> k in t.items && r.0.items[k] == t.items[k])
      && r.0.groups == t.groups && r.0.images == t.images
  {
    if channelId !in t.channels then (t, Err(HttpError(404, "Channel not found")))
    else
      var items := map k | k in t.items && t.items[k].channelId != channelId :: t.items[k];
      (t.(channels := t.channels - {channelId}, items := items), Ok(()))
  }

  // ---------------------------------------------------------------------
  // The news listing

  /** One entry of the `/news` answer. */
  datatype NewsItemResponse = NewsItemResponse(
    id: int,
    channelId: int,
    content: string,
    imageUrl: Option<string>,
    date: int,
    messageId: int,
    channelName: string)

  /** `if item.image_path:` — an empty or null name gives no URL. */
  function ImageUrl(imagePath: Option<string>): Option<string> {
    if imagePath.Some? && imagePath.value != "" then Some(IMAGES_URL + imagePath.value) else None
  }

  /** The URL of a stored image name serves that very file of the images
      directory, and only a non-empty name gets a URL. */
  lemma ImageUrlServesFile(imagePath: Option<string>)
    requires imagePath.Some? ==> '/' !in imagePath.value
    ensures ImageUrl(imagePath).Some? <==> imagePath.Some? && imagePath.value != ""
    ensures ImageUrl(imagePath).Some? ==>
      && ImageUrl(imagePath).value[..|IMAGES_URL|] == IMAGES_URL
      && Basename(ImageUrl(imagePath).value) == imagePath.value
  {
    if imagePath.Some? && imagePath.value != "" {
      var name := imagePath.value;
      assert "/static/images" + "/" + name == IMAGES_URL + name;
      BasenameOfJoin("/static/images", name);
    }
  }

  /** Every image name the ingestion stores is a plain file name, so its URL
      serves it; a downloaded path ending in '/' stores "" and gets no URL. */
  lemma IngestedImageUrl(p: Post)
    ensures ImageName(p).Some? ==> '/' !in ImageName(p).value
    ensures ImageUrl(ImageName(p)).Some? ==> Basename(ImageUrl(ImageName(p)).value) == ImageName(p).value
  {
    ImageUrlServesFile(ImageName(p));
  }

  /** The group filter: applied only when `group_id` is truthy (neither null
      nor 0), and then an item passes when its channel is in that group. */
  predicate Matches(t: Tables, k: int, groupId: Option<int>)
    requires k in t.items
  {
    groupId.None? || groupId.value == 0 ||
    (t.items[k].channelId in t.channels && t.channels[t.items[k].channelId].groupId == groupId)
  }

  /** `ORDER BY date DESC`, ties between equal dates taken in id order. */
  predicate Before(items: map<int, NewsItem>, a: int, b: int)
    requires a in items && b in items
  {
    items[a].date > items[b].date || (items[a].date == items[b].date && a < b)
  }

  ghost predicate Listed(items: map<int, NewsItem>, ids: seq<int>) {
    forall i :: 0 <= i < |ids| ==> ids[i] in items
  }

  /** Strictly newest first; in particular no id appears twice. */
  ghost predicate NewestFirst(items: map<int, NewsItem>, ids: seq<int>)
    requires Listed(items, ids)
  {
    forall i, j :: 0 <= i < j < |ids| ==> Before(items, ids[i], ids[j])
  }

  /** Puts `k` into its place in a newest-first list. */
  function InsertNewestFirst(items: map<int, NewsItem>, k: int, ids: seq<int>): (r: seq<int>)
    requires k in items && k !in ids
    requires Listed(items, ids) && NewestFirst(items, ids)
    ensures Listed(items, r) && NewestFirst(items, r)
    ensures forall x :: x in r <==> x == k || x in ids
    ensures |r| == |ids| + 1
    decreases |ids|
  {
    if ids == [] || Before(items, k, ids[0]) then
      assert forall j :: 0 <= j < |ids| ==> Before(items, k, ids[j]);
      [k] + ids
    else
      var rest := InsertNewestFirst(items, k, ids[1..]);
      assert Before(items, ids[0], k);
      forall j | 0 <= j < |rest|
        ensures Before(items, ids[0], rest[j])
      {
        if rest[j] != k {
          assert rest[j] in rest;
          var m :| 0 <= m < |ids[1..]| && ids[1..][m] == rest[j];
          assert ids[m + 1] == rest[j];
        }
      }
      [ids[0]] + rest
  }

  /** Sorts distinct ids newest first. */
  function SortNewestFirst(items: map<int, NewsItem>, ids: seq<int>): (r: seq<int>)
    requires Listed(items, ids)
    requires forall i, j :: 0 <= i < j < |ids| ==> ids[i] != ids[j]
    ensures Listed(items, r) && NewestFirst(items, r)
    ensures forall x :: x in r <==> x in ids
    ensures |r| == |ids|
    decreases |ids|
  {
    if ids == [] then []
    else
      var rest := SortNewestFirst(items, ids[1..]);
      assert ids[0] !in ids[1..];
      InsertNewestFirst(items, ids[0], rest)
  }

  /** The ids the query yields before `offset`/`limit`: exactly the items
      that pass the group filter, newest first. */
  function NewsOrder(t: Tables, groupId: Option<int>): (ids: seq<int>)
    ensures Listed(t.items, ids) && NewestFirst(t.items, ids)
    ensures forall k :: k in ids <==> k in t.items && Matches(t, k, groupId)
  {
    var selected := set k | k in t.items && Matches(t, k, groupId);
    var ids := AscendingIds(selected);
    assert forall i :: 0 <= i < |ids| ==> ids[i] in selected;
    SortNewestFirst(t.items, ids)
  }

  /** SQLite's `OFFSET skip LIMIT limit`: a negative offset counts as 0, a
      negative limit as no limit. */
  function Window<T>(xs: seq<T>, skip: int, limit: int): (w: seq<T>)
    ensures limit >= 0 ==> |w| <= limit
    ensures var s := if skip < 0 then 0 else skip;
      && |w| == (if s >= |xs| then 0 else if limit < 0 || s + limit > |xs| then |xs| - s else limit)
      && forall i :: 0 <= i < |w| ==> w[i] == xs[s + i]
  {
    var start := if skip < 0 then 0 else if skip > |xs| then |xs| else skip;
    var end := if limit < 0 || start + limit > |xs| then |xs| else start + limit;
    xs[start..end]
  }

  /** A window of a newest-first list is newest first and lists nothing else. */
  lemma WindowKeepsOrder(items: map<int, NewsItem>, xs: seq<int>, skip: int, limit: int)
    requires Listed(items, xs) && NewestFirst(items, xs)
    ensures var w := Window(xs, skip, limit);
      && (forall i :: 0 <= i < |w| ==> w[i] in xs)
      && Listed(items, w) && NewestFirst(items, w)
  {
  }

  /** Consecutive pages tile the listing: the page of `n` after `skip`
      followed by the page of `m` after `skip + n` is the page of `n + m`. */
  lemma WindowsTile<T>(xs: seq<T>, skip: nat, n: nat, m: nat)
    ensures Window(xs, skip, n) + Window(xs, skip + n, m) == Window(xs, skip, n + m)
  {
    var a, b, c := Window(xs, skip, n), Window(xs, skip + n, m), Window(xs, skip, n + m);
    assert |a + b| == |c|;
    forall i | 0 <= i < |c|
      ensures (a + b)[i] == c[i]
    {
      if i >= |a| {
        assert (a + b)[i] == b[i - |a|];
      }
    }
  }

  /** The answer entry for item `k`: its fields, its channel's name and the
      URL of its image. */
  function ToResponse(t: Tables, k: int): NewsItemResponse
    requires k in t.items && t.items[k].channelId in t.channels
  {
    var item := t.items[k];
    NewsItemResponse(k, item.channelId, item.content, ImageUrl(item.imagePath), item.date, item.messageId,
      t.channels[item.channelId].name)
  }

  /** `get_news(skip, limit, group_id)`: the items passing the group filter,
      newest first, `skip` of them skipped and at most `limit` kept, each
      with its channel's name and image URL. */
  function GetNews(t: Tables, skip: int, limit: int, groupId: Option<int>): (page: seq<NewsItemResponse>)
    requires ItemsOwned(t.items, t.channels)
    ensures limit >= 0 ==> |page| <= limit
    ensures |page| == |Window(NewsOrder(t, groupId), skip, limit)|
    ensures forall i :: 0 <= i < |page| ==>
      && page[i].id == Window(NewsOrder(t, groupId), skip, limit)[i]
      && page[i].id in t.items && Matches(t, page[i].id, groupId)
      && page[i] == ToResponse(t, page[i].id)
    ensures forall i, j :: 0 <= i < j < |page| ==> page[i].date >= page[j].date && page[i].id != page[j].id
  {
    var order := NewsOrder(t, groupId);
    var ids := Window(order, skip, limit);
    WindowKeepsOrder(t.items, order, skip, limit);
    seq(|ids|, i requires 0 <= i < |ids| => ToResponse(t, ids[i]))
  }

  /** With a non-positive offset and a negative limit (no SQL LIMIT) the
      listing shows every item that passes the group filter. */
  lemma GetNewsListsAll(t: Tables, skip: int, limit: int, groupId: Option<int>)
    requires ItemsOwned(t.items, t.channels)
    requires skip <= 0 && limit < 0
    ensures var page := GetNews(t, skip, limit, groupId);
      forall k :: k in t.items && Matches(t, k, groupId) ==> exists i :: 0 <= i < |page| && page[i].id == k
  {
    var order := NewsOrder(t, groupId);
    var page := GetNews(t, skip, limit, groupId);
    forall k | k in t.items && Matches(t, k, groupId)
      ensures exists i :: 0 <= i < |page| && page[i].id == k
    {
      var i :| 0 <= i < |order| && order[i] == k;
      assert page[i].id == k;
    }
  }

  /** The parameter defaults of `get_news`: `skip=0`, `limit=50`, no `group_id`. */
  const DEFAULT_SKIP := 0
  const DEFAULT_LIMIT := 50

  /** A request without parameters gets at most 50 entries, and they are the
      newest: an item is left out only when the page is full, and then every
      listed entry comes before it. */
  lemma GetNewsDefaults(t: Tables)
    requires ItemsOwned(t.items, t.channels)
    ensures var page := GetNews(t, DEFAULT_SKIP, DEFAULT_LIMIT, None);
      && |page| <= DEFAULT_LIMIT
      && forall k :: k in t.items && (forall i :: 0 <= i < |page| ==> page[i].id != k) ==>
        && |page| == DEFAULT_LIMIT
        && forall i :: 0 <= i < |page| ==> Before(t.items, page[i].id, k)
  {
    var order := NewsOrder(t, None);
    var page := GetNews(t, DEFAULT_SKIP, DEFAULT_LIMIT, None);
    forall k | k in t.items && (forall i :: 0 <= i < |page| ==> page[i].id != k)
      ensures |page| == DEFAULT_LIMIT && forall i :: 0 <= i < |page| ==> Before(t.items, page[i].id, k)
    {
      assert Matches(t, k, None);
      var p :| 0 <= p < |order| && order[p] == k;
      assert forall i :: 0 <= i < |page| ==> page[i].id == order[i];
    }
  }

  /** `group_id=0` lists everything, exactly as no `group_id` does. */
  lemma GroupZeroMeansAll(t: Tables, skip: int, limit: int)
    requires ItemsOwned(t.items, t.channels)
    ensures GetNews(t, skip, limit, Some(0)) == GetNews(t, skip, limit, None)
  {
    assert (set k | k in t.items && Matches(t, k, Some(0))) == (set k | k in t.items && Matches(t, k, None));
  }

  /** Reading page after page never skips or repeats an item: two
      consecutive pages together are the page as long as both. */
  lemma NewsPagesTile(t: Tables, skip: nat, n: nat, m: nat, groupId: Option<int>)
    requires ItemsOwned(t.items, t.channels)
    ensures GetNews(t, skip, n, groupId) + GetNews(t, skip + n, m, groupId) == GetNews(t, skip, n + m, groupId)
  {
    var order := NewsOrder(t, groupId);
    WindowsTile(order, skip, n, m);
    var a, b, c := GetNews(t, skip, n, groupId), GetNews(t, skip + n, m, groupId), GetNews(t, skip, n + m, groupId);
    assert |a + b| == |c|;
    forall i | 0 <= i < |c|
      ensures (a + b)[i] == c[i]
    {
      if i < |a| {
        assert (a + b)[i] == a[i];
        assert Window(order, skip, n + m)[i] == Window(order, skip, n)[i];
      } else {
        assert (a + b)[i] == b[i - |a|];
        assert Window(order, skip, n + m)[i] == Window(order, skip + n, m)[i - |a|];
      }
    }
  }

  /** Once a channel is deleted, the listing shows none of its items. */
  lemma DeletedChannelNotListed(t: Tables, channelId: int, skip: int, limit: int, groupId: Option<int>)
    requires t.Valid()
    ensures var t1 := DeleteChannelOn(t, channelId).0;
      forall r :: r in GetNews(t1, skip, limit, groupId) ==> r.channelId != channelId
  {
  }

  // ---------------------------------------------------------------------
  // Cleanup

  /** `cleanup_news`: every item row is deleted, then every image file, then
      the sweep of `fetch_all_channels` runs to the end; the request fails
      with 500 when the sweep raises. */
  function CleanupOn(t: Tables, clientReady: bool, feeds: string -> ChannelFeed, now: int): (r: (Tables, Result<string, HttpError>))
    requires t.Valid()
    ensures r.0.Valid()
    ensures ImagesPresent(r.0)
    ensures forall f :: f in r.0.images ==> exists k :: k in r.0.items && r.0.items[k].imagePath == Some(f)
    ensures r.0.groups == t.groups
    ensures forall k :: k in t.channels ==>
      k in r.0.channels && r.0.channels[k].name == t.channels[k].name && r.0.channels[k].groupId == t.channels[k].groupId
    ensures r.1.Err? <==> !clientReady && t.channels != map[]
    ensures r.1 == if r.1.Ok? then Ok(CLEANUP_DONE) else Err(INTERNAL_ERROR)
    ensures !clientReady ==> r.0.items == map[]
    ensures AllRowsFromFeeds(r.0, feeds)
    ensures clientReady ==>
      forall k :: k in t.channels ==> Covered(r.0, t.channels[k].name, feeds(t.channels[k].name))
  {
    var emptied := t.(items := map[], images := {});
    var names := NamesInTableOrder(emptied.channels);
    var (t1, raised) := FetchAll(emptied, clientReady, feeds, now);
    SweepKeepsImagesPresent(emptied.(images := {}), names, clientReady, feeds, now);
    FetchAllKeepsRowsDropsFiles(emptied, clientReady, feeds, now);
    SweepKeepsRows(emptied.(images := {}), names, clientReady, feeds, now);
    FetchAllRaises(emptied, clientReady, feeds, now);
    SweepRowsFromFeeds(emptied.(images := {}), names, clientReady, feeds, now);
    SweepLeavesCovered(emptied.(images := {}), names, feeds, now);
    FetchAllWithoutClient(emptied, feeds, now);
    (t1, if raised then Err(INTERNAL_ERROR) else Ok(CLEANUP_DONE))
  }

  /** A client whose `start()` failed stays cached, and every later
      `get_entity` on it fails inside the step's `try`. Cleanup then
      succeeds with no row and no file left. */
  lemma CleanupWithUnstartedClient(t: Tables, now: int)
    requires t.Valid()
    ensures var r := CleanupOn(t, true, _ => EntityNotFound, now);
      && r.1 == Ok(CLEANUP_DONE)
      && r.0.items == map[]
      && r.0.images == {}
  {
    var feeds: string -> ChannelFeed := _ => EntityNotFound;
    var r := CleanupOn(t, true, feeds, now);
    assert AllRowsFromFeeds(r.0, feeds);
    assert forall k :: k !in r.0.items;
  }

  // ---------------------------------------------------------------------
  // The handlers on the session

  method CreateGroup(db: Store, name: string) returns (r: Result<int, HttpError>)
    requires db.Valid()
    modifies db
    ensures db.Valid()
    ensures (db.Snapshot(), r) == CreateGroupOn(old(db.Snapshot()), name)
  {
    var taken := GroupNamed(db.groups, name);
    if taken {
      return Err(HttpError(400, "Group already exists"));
    }
    var id := NextRowId(db.groups.Keys);
    db.groups := db.groups[id := ChannelGroup(name)];
    return Ok(id);
  }

  /** Detaches the member channels one at a time, then deletes the group. */
  method DeleteGroup(db: Store, groupId: int) returns (r: Result<(), HttpError>)
    requires db.Valid()
    modifies db
    ensures db.Valid()
    ensures (db.Snapshot(), r) == DeleteGroupOn(old(db.Snapshot()), groupId)
  {
    if groupId !in db.groups {
      return Err(HttpError(404, "Group not found"));
    }
    var members := set k | k in db.channels && db.channels[k].groupId == Some(groupId);
    ghost var detached := Ungroup(db.channels, groupId);
    while members != {}
      invariant db.groups == old(db.groups) && db.items == old(db.items) && db.images == old(db.images)
      invariant db.channels.Keys == detached.Keys
      invariant forall k :: k in members ==> k in old(db.channels) && old(db.channels)[k].groupId == Some(groupId)
      invariant forall k :: k in db.channels ==>
        db.channels[k] == if k in members then old(db.channels)[k] else detached[k]
      decreases members
    {
      ghost var some := NonEmptyHasMember(members);
      var k :| k in members;
      db.channels := db.channels[k := db.channels[k].(groupId := None)];
      members := members - {k};
    }
    assert forall k :: k in db.channels ==> db.channels[k] == detached[k];
    assert db.channels == detached;
    db.groups := db.groups - {groupId};
    return Ok(());
  }

  /** Adds the channel; the initial fetch it schedules in the background is
      not part of this model. */
  method AddChannel(db: Store, name: string, groupId: Option<int>) returns (r: Result<int, HttpError>)
    requires db.Valid()
    modifies db
    ensures db.Valid()
    ensures (db.Snapshot(), r) == AddChannelOn(old(db.Snapshot()), name, groupId)
  {
    var found := ChannelByName(db.channels, name);
    if found.Some? {
      return Err(HttpError(400, "Channel already exists"));
    }
    var id := NextRowId(db.channels.Keys);
    db.channels := db.channels[id := Channel(name, None, groupId)];
    return Ok(id);
  }

  method UpdateChannel(db: Store, channelId: int, name: string, groupId: Option<int>) returns (r: Result<Channel, HttpError>)
    requires db.Valid()
    modifies db
    ensures db.Valid()
    ensures (db.Snapshot(), r) == UpdateChannelOn(old(db.Snapshot()), channelId, name, groupId)
  {
    if channelId !in db.channels {
      return Err(HttpError(404, "Channel not found"));
    }
    var holder := ChannelByName(db.channels, name);
    if holder.Some? && holder.value != channelId {
      return Err(INTERNAL_ERROR);
    }
    var updated := db.channels[channelId].(name := name, groupId := groupId);
    db.channels := db.channels[channelId := updated];
    return Ok(updated);
  }

  method DeleteChannel(db: Store, channelId: int) returns (r: Result<(), HttpError>)
    requires db.Valid()
    modifies db
    ensures db.Valid()
    ensures (db.Snapshot(), r) == DeleteChannelOn(old(db.Snapshot()), channelId)
  {
    if channelId !in db.channels {
      return Err(HttpError(404, "Channel not found"));
    }
    db.items := map k | k in db.items && db.items[k].channelId != channelId :: db.items[k];
    db.channels := db.channels - {channelId};
    return Ok(());
  }

  /** Deletes the rows, then the files, then awaits the sweep. */
  method CleanupNews(db: Store, clientReady: bool, feeds: string -> ChannelFeed, now: int) returns (r: Result<string, HttpError>)
    requires db.Valid()
    modifies db
    ensures db.Valid()
    ensures (db.Snapshot(), r) == CleanupOn(old(db.Snapshot()), clientReady, feeds, now)
  {
    db.items := map[];
    db.RemoveImageFiles();
    var raised := FetchAllChannels(db, clientReady, feeds, now);
    if raised {
      return Err(INTERNAL_ERROR);
    }
    return Ok(CLEANUP_DONE);
  }
}
