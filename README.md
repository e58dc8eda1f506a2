# Telegram News Reader — a verified model of its ingestion and bookkeeping

The Telegram News Reader keeps a list of Telegram channels, optionally
sorted into groups. It pulls the newest messages of every channel into a
local SQLite table of news items and downloads their images into a
directory. Then it serves the items as a news feed, newest first, and can
be filtered by group. This project models the engine behind it in Dafny:

- the three tables of `backend/models.py`: channel groups, channels and
  news items, with their unique names, nullable fields and the
  delete-orphan cascade from a channel to its items (module `Models`);
- the session the handlers share: the three tables as maps from row id to
  row, plus the set of file names in the images directory (module
  `Database`, class `Store`);
- the ingestion step `fetch_news_for_channel` and the sweep
  `fetch_all_channels` of `backend/telegram_service.py` (module
  `TelegramService`);
- the handlers of `backend/main.py` that create, update and delete groups
  and channels, list the news and clean up (module `Api`).

Code that changes state is written as methods on the `Store`: the insert
loop, the sweep loop, the group-detach loop and the file-removal loop.
Each method is proved equal to a pure function of the old state, and the
properties are proved as lemmas about those functions. The `/news`
listing is a pure function.

Telegram is not called. What Telethon answers for a channel is an input,
a `ChannelFeed`:

- the name cannot be resolved;
- the name resolves but the history cannot be read;
- the history, newest first, where each message carries the outcome its
  media download would have.

Whether the Telegram client can be obtained is a flag. The clock is an
integer parameter. Row ids are the ones SQLite gives an `INTEGER PRIMARY
KEY` column of a table made by `create_all`: one more than the largest id
in use. A table is listed in ascending id order.

Some things one might expect of such a service the code does not do. The
model follows the code:

- There is no fetch watermark. Every step reads the 40 newest messages
  and relies on the (channel, message) existence check alone.
- `last_updated` is written only when a step inserted at least one row.
  A fetch that finds nothing new leaves it untouched.
- There is no retention horizon. The sweep deletes every image file
  before fetching, yet keeps every row. Rows from earlier sweeps then name
  files that are gone, and `FetchAllTwice` shows the second of two sweeps
  on unchanged feeds ends with no image file at all. `cleanup_news`
  deletes rows before files, and after it every remaining row's image is
  present (`CleanupOn`).
- No lock keeps the hourly sweep and cleanup apart. Each run is modelled
  on its own.
- Renaming a channel onto a name another channel holds is not checked by
  `update_channel`. The unique constraint fails the commit, so the request
  ends with status 500 and the database is unchanged.
- The `/news` group filter is applied only when `group_id` is truthy. So
  `group_id=0` lists everything.
- `get_telegram_client` raises outside the step's `try` only when
  `TELEGRAM_API_ID` or `TELEGRAM_API_HASH` is missing, or the id is not an
  integer. That aborts the sweep, and with it `cleanup_news`, with status
  500. A client whose `start()` fails is still stored in the global before
  the error. Every later call returns that client, whose `get_entity` then
  fails inside the `try`. Each step returns 0, and `cleanup_news` answers
  200 with the news table empty (`CleanupWithUnstartedClient`). Every other
  failure inside the step makes it return 0, and the sweep goes on.
- The `/news` parameters default to `skip=0`, `limit=50` and no group, so
  a request without parameters gets at most the 50 newest items
  (`GetNewsDefaults`).

## Model

| member | source | states |
|---|---|---|
| Models.SchemaAllowsDuplicateMessages | backend/models.py:29-33 | the schema admits two items with the same (channel, message) pair; only the ingestion check keeps that pair unique |
| Models.AscendingIds | backend/telegram_service.py:111 | a table is listed as exactly its ids, in strictly ascending order |
| Models.NextRowId | backend/models.py:28 | a new row's id is fresh, above every id in use, 1 in an empty table, and one more than the largest id |
| Models.NamesInTableOrder | backend/telegram_service.py:111-113 | the sweep visits the name of every channel and no other name |
| Database.ChannelByName | backend/telegram_service.py:35 | the name lookup finds a channel with that name, or reports that none has it |
| Database.Store.RemoveImageFiles | backend/telegram_service.py:98-107 | deleting the files of the images directory one by one leaves it empty and touches no row |
| TelegramService.Basename | backend/telegram_service.py:72 | the stored name is the part of the downloaded path after its last '/', and holds no '/' |
| TelegramService.BasenameOfJoin | backend/telegram_service.py:68-72 | a file name joined below a directory is recovered by the basename |
| TelegramService.LatestPage | backend/telegram_service.py:44 | only the 40 newest messages are read (all of them when there are fewer) |
| TelegramService.IngestGrows | backend/telegram_service.py:76-85 | the insert loop keeps every existing row and file, and its counter equals the number of rows it added, at most one per message |
| TelegramService.IngestCovers | backend/telegram_service.py:51-63 | after the loop, every real message with text or media has a row for its (channel, message) pair |
| TelegramService.IngestSkipsKnown | backend/telegram_service.py:53-63 | a page whose content messages all have rows changes nothing |
| TelegramService.IngestTwiceInsertsNothing | backend/telegram_service.py:53-63 | running the loop again on the same page inserts no row and writes no file |
| TelegramService.IngestNewRows | backend/telegram_service.py:76-83 | every added row is the row of a content message of the page |
| TelegramService.IngestNewFiles | backend/telegram_service.py:64-74 | every added file is the image of an added row |
| TelegramService.IngestKeepsKeysUnique | backend/telegram_service.py:53-63 | the loop keeps (channel, message) pairs unique |
| TelegramService.IngestKeepsImagesPresent | backend/telegram_service.py:64-74 | the loop writes the file of every row it adds |
| TelegramService.EnsureChannel | backend/telegram_service.py:35-41 | the step's channel row is found by name, or created with no group and no last_updated; the schema still holds |
| TelegramService.FetchStep | backend/telegram_service.py:30-94 | the step keeps the schema and the (channel, message) uniqueness |
| TelegramService.SweepFrom | backend/telegram_service.py:109-115 | the sweep loop keeps the schema and the uniqueness |
| TelegramService.FetchAll | backend/telegram_service.py:97-115 | wiping the files and then sweeping keeps the schema and the uniqueness |
| TelegramService.FetchStepTwice | backend/telegram_service.py:53-63 | a second step on the same Telegram answer inserts nothing, returns 0 and changes nothing, whatever the clock says |
| TelegramService.FetchStepCounts | backend/telegram_service.py:85-91 | the returned count is the number of rows added, at most 40; existing rows, files and groups are kept |
| TelegramService.FetchStepNewRows | backend/telegram_service.py:64-83 | each added row belongs to the named channel and copies a content message among the 40 newest: id, date, text or "", and the basename of its download or null |
| TelegramService.FetchStepCoversPage | backend/telegram_service.py:44-63 | every content message among the 40 newest has a row of the named channel afterwards, whether or not its download worked |
| TelegramService.FetchStepChannels | backend/telegram_service.py:87-89 | only the named channel changes; its last_updated becomes the clock value exactly when rows were added; a channel row is created only for a resolved, unknown name |
| TelegramService.FetchStepFailures | backend/telegram_service.py:92-94 | a failure inside the try returns 0 and changes no row (a channel row created before the failure stays); a missing client raises and changes nothing |
| TelegramService.FetchStepKeepsImagesPresent | backend/telegram_service.py:64-74 | the step writes the file of every row it adds |
| TelegramService.SweepKeepsRows | backend/telegram_service.py:111-113 | a sweep deletes no row and no channel, renames and regroups nothing, and each file it adds is the image of a row it added |
| TelegramService.SweepKeepsImagesPresent | backend/telegram_service.py:111-113 | a sweep writes the file of every row it adds |
| TelegramService.SweepWithClientCompletes | backend/telegram_service.py:111-113 | with a client, the sweep visits every channel and does not raise |
| TelegramService.FetchAllRaises | backend/telegram_service.py:31 | the sweep raises exactly when the client cannot be obtained and there is a channel to fetch |
| TelegramService.FetchStepRowsFromFeeds | backend/telegram_service.py:76-84 | a step keeps every row that came from its channel's feed, and each row it adds comes from the feed of the channel it fetched |
| TelegramService.SweepRowsFromFeeds | backend/telegram_service.py:111-113 | if every row came from its channel's feed before a sweep, every row does after it |
| TelegramService.UnresolvedChannelIsSkipped | backend/telegram_service.py:92-94 | a channel Telegram cannot resolve does not stop the sweep: the result is as if it had not been listed |
| TelegramService.FetchStepLeavesCovered | backend/telegram_service.py:51-63 | after a step, the named channel has rows for all content messages of the answer it got |
| TelegramService.FetchStepKeepsCovered | backend/telegram_service.py:76-85 | a step on one channel keeps every other channel's rows |
| TelegramService.CoveredStepIsNoop | backend/telegram_service.py:53-63 | a step on a channel that already has all rows of its answer returns 0 and changes nothing |
| TelegramService.SweepLeavesCovered | backend/telegram_service.py:111-113 | after a sweep, every listed channel has all rows of its answer |
| TelegramService.CoveredSweepIsNoop | backend/telegram_service.py:111-113 | a sweep over channels that already have all their rows changes nothing |
| TelegramService.SweepChannelNames | backend/telegram_service.py:35-41 | a sweep keeps channel names and creates channels only under listed names |
| TelegramService.FetchAllTwice | backend/telegram_service.py:97-115 | a second sweep on unchanged feeds inserts and changes no row, yet leaves the images directory empty |
| TelegramService.FetchAllWithoutClient | backend/telegram_service.py:20-31 | without a client the sweep still deletes every file, then raises at its first channel with all rows unchanged |
| TelegramService.FetchAllKeepsRowsDropsFiles | backend/telegram_service.py:98-107 | the sweep keeps every row but only files of rows it added, so older rows may name missing files |
| TelegramService.InsertNewMessages | backend/telegram_service.py:50-85 | the insert loop on the session computes exactly the ingestion of the page and its count |
| TelegramService.FetchNewsForChannel | backend/telegram_service.py:30-94 | the step on the session ends in exactly the state and outcome of FetchStep, keeping the schema |
| TelegramService.FetchAllChannels | backend/telegram_service.py:97-115 | the sweep on the session ends in exactly the state of FetchAll, and reports whether it raised |
| Api.CreateGroupOn | backend/main.py:89-97 | a taken name is refused with 400 "Group already exists" and nothing changes; otherwise exactly one group with that name is added; names stay unique |
| Api.CreateGroupTwice | backend/main.py:90-92 | creating the same group twice: the second request is refused and changes nothing |
| Api.Ungroup | backend/main.py:110-112 | every channel of the group is detached, no other channel changes, and no channel is removed |
| Api.DeleteGroupOn | backend/main.py:104-116 | an unknown id gets 404 "Group not found" and nothing changes; otherwise the group goes, its channels lose their group_id, no channel, item or file is deleted |
| Api.DeleteGroupTwice | backend/main.py:105-107 | deleting a group again gets 404 |
| Api.AddChannelOn | backend/main.py:121-128 | a taken name is refused with 400 "Channel already exists"; otherwise one channel with that name and group and a null last_updated is added; names stay unique |
| Api.AddChannelTwice | backend/main.py:121-123 | adding the same channel name twice: the second request is refused, whatever its group |
| Api.AddedChannelIsFetched | backend/telegram_service.py:35-41 | a fetch for an added channel uses its row and creates no second one |
| Api.UpdateChannelOn | backend/main.py:140-149 | an unknown id gets 404; a name held by another channel fails with 500 and changes nothing; otherwise only that channel's name and group change |
| Api.UpdateChannelKeepsOthers | backend/main.py:145-147 | an update changes no other channel, group, item or file |
| Api.DeleteChannelOn | backend/main.py:152-159 | an unknown id gets 404; otherwise the channel and exactly its items go, other rows stay, the files stay |
| Api.ImageUrlServesFile | backend/main.py:174-175 | an item gets an image URL exactly when its image name is non-empty; the URL is under /static/images/ and names that file |
| Api.IngestedImageUrl | backend/telegram_service.py:71-72 | every image name the ingestion stores is a plain file name its URL serves |
| Api.InsertNewestFirst | backend/main.py:168 | inserting an item keeps a list newest first and adds exactly that item |
| Api.SortNewestFirst | backend/main.py:168 | sorting lists the same items, newest first |
| Api.NewsOrder | backend/main.py:163-168 | the query lists exactly the items passing the group filter, newest first, each once |
| Api.Window | backend/main.py:168 | offset and limit: skip the first `skip` items (none when negative), keep at most `limit` (all when negative) |
| Api.WindowKeepsOrder | backend/main.py:168 | a page of the ordered list is itself newest first |
| Api.WindowsTile | backend/main.py:168 | consecutive pages tile the list |
| Api.GetNews | backend/main.py:162-177 | at most `limit` entries, taken in order after skipping `skip`; each passes the filter, is newest first, appears once, and carries its channel's name and image URL |
| Api.GetNewsListsAll | backend/main.py:165-168 | with a non-positive offset and a negative limit every item passing the filter is listed |
| Api.GetNewsDefaults | backend/main.py:162 | with the default parameters at most 50 entries are listed, and an item is left out only when the page is full and every listed entry comes before it |
| Api.GroupZeroMeansAll | backend/main.py:165 | group_id 0 lists exactly what no group_id lists |
| Api.NewsPagesTile | backend/main.py:168 | reading page after page neither skips nor repeats an item |
| Api.DeletedChannelNotListed | backend/models.py:23 | after deleting a channel, no listed item belongs to it |
| Api.CleanupOn | backend/main.py:180-209 | all rows, then all files are deleted and the sweep runs: without a client the item table ends empty, and every remaining row is the row of a content message among the 40 newest of its channel's feed, so no earlier row survives as it was; with a client every channel is fully fetched; the files are exactly the images of the rows; names and groups are kept; the request fails with 500 exactly when there is no client and a channel to fetch |
| Api.CleanupWithUnstartedClient | backend/telegram_service.py:20-33 | with a cached client that cannot resolve any channel, cleanup succeeds and leaves no row and no file |
| Api.CreateGroup | backend/main.py:89-97 | the handler on the session is CreateGroupOn |
| Api.DeleteGroup | backend/main.py:104-116 | the handler detaches the members one by one and is DeleteGroupOn |
| Api.AddChannel | backend/main.py:121-133 | the handler on the session is AddChannelOn |
| Api.UpdateChannel | backend/main.py:140-149 | the handler on the session is UpdateChannelOn |
| Api.DeleteChannel | backend/main.py:152-159 | the handler on the session is DeleteChannelOn |
| Api.CleanupNews | backend/main.py:180-209 | the handler on the session is CleanupOn |

## Left out

- The Telethon calls (`get_entity`, `get_messages`, `download_media`, `client.start`) are inputs. The answer for each channel is a `ChannelFeed`, each download's outcome comes with its message, and client availability is a flag.
- A failure of a row query or of the commit inside the step's `try` is not modelled. Such a failure would leave the session with rows added but not committed.
- The image download itself: which bytes are written, and under which path, is part of the input.
- Per-file unlink errors, and files in the images directory that are not regular files, are not modelled. Every listed name is removed.
- `datetime.utcnow()` and the time-zone stripping are not modelled. The clock is one integer per step or sweep.
- The background fetch that `add_channel` schedules is not modelled. It runs later on a closed session, and its effect is `FetchStep`.
- The async concurrency between the hourly scheduler, the request handlers and the sweep is not modelled. Each operation runs alone.
- FastAPI, CORS, the static mount and Pydantic validation are plumbing. Errors are result values with their status code and detail.
- The read-only handlers `get_groups` and `get_channels` list a table and hold no logic.
- backend/database.py (engine and session factory), backend/scheduler.py and backend/init_session.py are not part of this model. The migrate scripts are not modelled beyond the table they create (see Models.NextRowId below).
- Api.NewsOrder: items with equal dates are listed in ascending id order. SQLite leaves their order open, so this is one choice among several.
- Models.NamesInTableOrder: its contract says which names are listed, not that they come in ascending id order or that each comes once. No contract of the model depends on that order, though the ids the sweep gives new rows do.
- The lazily set global `client` is not modelled as state. `clientReady` is chosen per call: false stands for missing or malformed credentials. A cached client whose `start()` failed is modelled as `clientReady = true` with every feed `EntityNotFound`.
- Autoflush is assumed. The existence check inside one step is taken to see the rows added earlier in the same loop, as SQLAlchemy's autoflush makes it. So a page that repeats a message id stores it once. backend/database.py, where the session is configured, is not part of this model. With autoflush off, such a page would store the message twice and `MessageKeysUnique` would not hold.
- Models.NextRowId: it hands out max+1 ids, as SQLite does for tables made by `create_all`. A `channel_groups` table created by backend/migrate_groups.py:13 uses `AUTOINCREMENT` and never reuses the id of a deleted last group, which the model does not capture.
- Api.DeleteGroup: the member channels are detached in an unspecified order, not in table order. The result does not depend on the order.
