/** The database session the handlers and the ingestion share: the three
    tables of backend/models.py and the directory of downloaded images, which
    holds plain file names. */
module Database {
  import opened Wrappers
  import opened Models

  /** The whole persistent state at one moment. */
  datatype Tables = Tables(
    groups: map<int, ChannelGroup>,
    channels: map<int, Channel>,
    items: map<int, NewsItem>,
    images: set<string>)
  {
    /** The schema constraints plus the (channel, message) uniqueness that the
        ingestion keeps. Image files are not tied to rows. */
    ghost predicate Valid() {
      Schema(groups, channels, items) && MessageKeysUnique(items)
    }
  }

  /** Every stored image name of a row names a file that is present. The sweep
      does not keep this; see TelegramService.FetchAllKeepsRowsDropsFiles. */
  ghost predicate ImagesPresent(t: Tables) {
    FilesPresent(t.items, t.images)
  }

  /** Every image name stored in `items` is one of `files`. */
  ghost predicate FilesPresent(items: map<int, NewsItem>, files: set<string>) {
    forall k :: k in items && items[k].imagePath.Some? ==> items[k].imagePath.value in files
  }

  /** The id of the channel called `name`, as `query(Channel).filter(Channel.name == name).first()`. */
  function ChannelByName(channels: map<int, Channel>, name: string): (found: Option<int>)
    requires ChannelNamesUnique(channels)
    ensures found.Some? ==> found.value in channels && channels[found.value].name == name
    ensures found.None? ==> forall k :: k in channels ==> channels[k].name != name
  {
    if exists k :: k in channels && channels[k].name == name then
      var k :| k in channels && channels[k].name == name;
      Some(k)
    else
      None
  }

  /** Some group is already called `name`. */
  predicate GroupNamed(groups: map<int, ChannelGroup>, name: string) {
    exists k | k in groups :: groups[k].name == name
  }

  /** The session: the three tables as maps from row id to row, and the
      names of the files in the images directory. */
  class Store {
    var groups: map<int, ChannelGroup>
    var channels: map<int, Channel>
    var items: map<int, NewsItem>
    var images: set<string>

    function Snapshot(): Tables
      reads this
    {
      Tables(groups, channels, items, images)
    }

    ghost predicate Valid()
      reads this
    {
      Snapshot().Valid()
    }

    /** A fresh database with empty tables and an empty images directory. */
    constructor ()
      ensures Valid()
      ensures Snapshot() == Tables(map[], map[], map[], {})
    {
      groups, channels, items, images := map[], map[], map[], {};
    }

    /** Unlinks every file of the images directory, one listed file at a
        time; no row is touched. */
    method RemoveImageFiles()
      modifies this
      ensures Snapshot() == old(Snapshot()).(images := {})
    {
      var listed := images;
      while listed != {}
        invariant images == listed
        invariant groups == old(groups) && channels == old(channels) && items == old(items)
        decreases listed
      {
        ghost var some := NonEmptyHasMember(listed);
        var file :| file in listed;
        images := images - {file};
        listed := listed - {file};
      }
    }
  }
}
