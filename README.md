# vlcsharp managed core, modelled in Dafny

This project models the managed bookkeeping that the vlcsharp binding wraps
around libvlc, and proves properties of it. The native library is not
modelled. Every call into it becomes either an entry in a trace of native
calls (`Native.Call`, recorded by `Native.CallLog`) or a value that the
caller passes in as a parameter.

The model covers three groups.

- **The native-event bridge.**
  - The libvlc event record is the tagged datatype `EventRecord.NativeEvent`.
  - The three event factories turn a record into an event or nothing.
  - Each component keeps a listener registry. The notification task walks it
    backwards and swallows listener exceptions.
  - `SingleThreadExecutor` is a class holding a FIFO `seq` of tasks and a
    shutdown flag. Its worker thread is an explicit `Step` method over the
    positions of `ThreadMainLoop`.
- **The lifecycle of `DefaultMediaPlayer`, `DefaultMediaListPlayer` and
  `MediaList`.**
  - Media handles, listener lists and flags are class fields.
  - Every attach, detach, release, `set_media`, `add_option` and play call is
    appended to a call trace.
  - `CallLog.Record` refuses a call that releases an object that still has
    callbacks attached. So every method that verifies detaches before it
    releases.
  - Reference counts of retained media are tracked per pointer (`Native.Net`).
- **Small utilities.**
  - `Logger.format` and level gating.
  - `VersionNumber` parsing and comparison.
  - `TrackInfo`'s four-character-code decoding.
  - `NativeString`'s UTF-8 buffers, on a heap of byte blocks with a freed set.
    The encoding is UTF-8 as in section 3 of RFC 3629.
  - The linked-list walks and the user-agent calls of `MediaPlayerFactory`.
  - The full-screen delegation of `DefaultEmbeddedMediaPlayer`.

The model follows the live code, not the design the comments describe:
- `SubItemCount` returns -1.
- `PlaySubItem` returns false.
- The media-list event factory yields no event.
- The `released` guards of the three `Release` methods are commented out.

Where this makes the code misbehave, the table under "## Findings" records
both the code as written and a corrected version.

A few points where the live code differs from its own comments or from the
design description:
- The constructor of `DefaultMediaPlayer` leaves `subItemIndex` at its field
  initialiser, 0. Only `SetMedia` sets it to -1.
- `MediaList.DestroyInstance` does not clear its listener list; the player's
  `DestroyInstance` does.
- `DefaultEmbeddedMediaPlayer.Play` with no video surface throws
  `NullReferenceException` before the native play call.

Module layout: one module per source unit. The `MediaPlayer` module holds
`DefaultMediaPlayer` with the embedded subclass folded in as the `embedded`
flag. The `Embedded` module holds the pure full-screen delegation.
`Native` holds the call trace, event ranges and reference counting, and
`Wrappers` holds `Option`, `Result` and `Outcome`.

## Model

| member | source | states |
|---|---|---|
| Executor.Next | src/main/csharp/Caprica/VlcSharp/Util/Concurrent/SingleThreadExecutor.cs:134-175 | one worker step keeps the shutdown flag; a task leaves the queue only from its head and only into the run log; completion never reverts, and is set only at the top of the loop with the flag set; an exited worker does nothing |
| Executor.StepsPreserve | src/main/csharp/Caprica/VlcSharp/Util/Concurrent/SingleThreadExecutor.cs:134-175 | over any number of steps, run log followed by queue is unchanged, the flag is untouched and completion never reverts |
| Executor.ExitedIsFinal | src/main/csharp/Caprica/VlcSharp/Util/Concurrent/SingleThreadExecutor.cs:172-174 | once the main loop has exited no task runs again |
| Executor.DrainRunsQueueInOrder | src/main/csharp/Caprica/VlcSharp/Util/Concurrent/SingleThreadExecutor.cs:150-170 | the drain loop runs every queued task from the head, one per step, and a task that throws is logged and the next one still runs |
| Executor.WokenByShutdownDrains | src/main/csharp/Caprica/VlcSharp/Util/Concurrent/SingleThreadExecutor.cs:137-174 | a worker woken from the wait by shutdown still drains the queue, then sees the flag and stops with completion set |
| Executor.StepsAppend | src/main/csharp/Caprica/VlcSharp/Util/Concurrent/SingleThreadExecutor.cs:134-175 | running steps in two batches is running them all |
| Executor.ShutdownAtTopAbandonsQueue | src/main/csharp/Caprica/VlcSharp/Util/Concurrent/SingleThreadExecutor.cs:137 | a shutdown seen at the top of the loop leaves the queued tasks unrun |
| Executor.ShutdownIdempotent | src/main/csharp/Caprica/VlcSharp/Util/Concurrent/SingleThreadExecutor.cs:108-117 | requesting shutdown twice gives the state of requesting it once |
| Executor.SingleThreadExecutor.constructor | src/main/csharp/Caprica/VlcSharp/Util/Concurrent/SingleThreadExecutor.cs:76-81 | a new executor has an empty queue, no flags set, and its worker at the top of the loop |
| Executor.SingleThreadExecutor.Submit | src/main/csharp/Caprica/VlcSharp/Util/Concurrent/SingleThreadExecutor.cs:86-103 | before shutdown the task is appended at the tail and nothing else changes; after shutdown it throws `InvalidOperationException` and nothing changes |
| Executor.SingleThreadExecutor.Shutdown | src/main/csharp/Caprica/VlcSharp/Util/Concurrent/SingleThreadExecutor.cs:108-117 | only the shutdown flag is set |
| Executor.SingleThreadExecutor.IsShutdownCompleted | src/main/csharp/Caprica/VlcSharp/Util/Concurrent/SingleThreadExecutor.cs:124-126 | true exactly when the main loop has exited, which implies shutdown was requested |
| Executor.SingleThreadExecutor.Step | src/main/csharp/Caprica/VlcSharp/Util/Concurrent/SingleThreadExecutor.cs:134-175 | the new state is `Next` of the old one; a task is run exactly when the worker is draining a non-empty queue, and it is the head of the queue |
| Executor.SingleThreadExecutor.RunWorker | src/main/csharp/Caprica/VlcSharp/Util/Concurrent/SingleThreadExecutor.cs:134-175 | the worker taking several steps reaches `Steps` of the old state |
| Listeners.Reversed | src/main/csharp/Caprica/VlcSharp/Player/DefaultMediaPlayer.cs:1597-1606 | the k-th listener notified is the k-th from the end of the registry |
| Listeners.ReversedIsPermutation | src/main/csharp/Caprica/VlcSharp/Player/DefaultMediaPlayer.cs:1597-1606 | notification reaches every registered listener exactly once |
| Listeners.RemoveFirst | src/main/csharp/Caprica/VlcSharp/Player/DefaultMediaPlayer.cs:133-136 | `List.Remove` drops the first occurrence of the listener and keeps the rest in order; without one the list is unchanged |
| Listeners.RemoveFirstCount | src/main/csharp/Caprica/VlcSharp/Player/DefaultMediaPlayer.cs:133-136 | removal takes exactly one copy of the listener out of the registry |
| Listeners.Throwers | src/main/csharp/Caprica/VlcSharp/Player/DefaultMediaPlayer.cs:1599-1605 | the listeners logged are exactly the notified ones whose callback throws |
| Listeners.NotifyAll | Caprica/VlcSharp/MediaList/MediaList.cs:557-570 | every listener receives the event, last-added first; every throwing one is logged and the walk goes on |
| MediaOptions.Accepted | Caprica/VlcSharp/MediaList/MediaList.cs:446-467 | the options applied are those before the first null one |
| MediaOptions.AddOptionCalls | Caprica/VlcSharp/MediaList/MediaList.cs:450-460 | one `libvlc_media_add_option` per applied option, in order |
| MediaOptions.AddOption | Caprica/VlcSharp/MediaList/MediaList.cs:452-460 | the option is added to the media and its native buffer is freed |
| MediaOptions.AddMediaOptions | Caprica/VlcSharp/MediaList/MediaList.cs:446-467 | returns true exactly for a null array or one without null options; the options before the first null are added in order; no native buffer is left allocated |
| MediaOptions.AddBothOptions | Caprica/VlcSharp/MediaList/MediaList.cs:425-430 | the standard options are added first, then the call's own |
| MediaPlayerEvents.CreateEvent | src/main/csharp/Caprica/VlcSharp/Player/Events/MediaPlayerEventFactory.cs:59-218 | an event exactly for the player and media discriminants, never a semantic one; MediaChanged carries the MRL resolved from its own handle; SnapshotTaken reads its file name without freeing it |
| MediaPlayerEvents.CreateEventRecords | src/main/csharp/Caprica/VlcSharp/Player/Events/MediaPlayerEventFactory.cs:59-218 | the event built carries exactly the fields of the record it came from |
| MediaPlayerEvents.PlayerEventRecords | src/main/csharp/Caprica/VlcSharp/Player/Events/MediaPlayerEventFactory.cs:66-178 | each player discriminant copies exactly its own union field |
| MediaPlayerEvents.MediaEventRecords | src/main/csharp/Caprica/VlcSharp/Player/Events/MediaPlayerEventFactory.cs:182-216 | each media discriminant copies exactly its own union field; Freed has no payload |
| MediaPlayerEvents.CreateEventFromRecord | src/main/csharp/Caprica/VlcSharp/Player/Events/MediaPlayerEventFactory.cs:59-218 | every non-semantic event is rebuilt from its record, whatever the event mask |
| MediaPlayerEvents.CreateMediaNewEvent | src/main/csharp/Caprica/VlcSharp/Player/Events/MediaPlayerEventFactory.cs:227-231 | never null |
| MediaPlayerEvents.CreateMediaSubItemPlayedEvent | src/main/csharp/Caprica/VlcSharp/Player/Events/MediaPlayerEventFactory.cs:241-245 | never null, carries the given index |
| MediaPlayerEvents.CreateMediaSubItemFinishedEvent | src/main/csharp/Caprica/VlcSharp/Player/Events/MediaPlayerEventFactory.cs:255-259 | never null, carries the given index |
| MediaPlayerEvents.RreateMediaEndOfSubItemsEvent | src/main/csharp/Caprica/VlcSharp/Player/Events/MediaPlayerEventFactory.cs:268-272 | never null |
| MediaPlayerEvents.Notify | Caprica/VlcSharp/Player/Events/MediaPlayerPositionChangedEvent.cs:44-46 | each event invokes its own listener callback with its fields; NothingSpecial has no callback |
| MediaPlayerEvents.NotifyInjective | Caprica/VlcSharp/Player/Events/MediaPlayerPositionChangedEvent.cs:44-46 | notification forwards every field, so distinct events reach listeners distinctly |
| MediaListPlayerEvents.CreateEvent | src/main/csharp/Caprica/VlcSharp/Player/List/Events/MediaListPlayerEventFactory.cs:52-106 | an event exactly for NextItemSet and the media discriminants, carrying the record's fields and, for NextItemSet, the MRL of its item |
| MediaListPlayerEvents.CreateEventFromRecord | src/main/csharp/Caprica/VlcSharp/Player/List/Events/MediaListPlayerEventFactory.cs:52-106 | every event is rebuilt from its record, whatever the event mask |
| MediaListPlayerEvents.Notify | Caprica/VlcSharp/Player/List/Events/MediaListPlayerNextItemSetEvent.cs:51-53 | NextItemSet invokes `NextItem`; no event invokes `Played` or `Stopped` |
| MediaListPlayerEvents.NotifyInjective | Caprica/VlcSharp/Player/List/Events/MediaListPlayerNextItemSetEvent.cs:51-53 | notification forwards every field |
| MediaListEvents.CreateEvent | Caprica/VlcSharp/MediaList/Events/MediaListEventFactory.cs:51-72 | no record yields an event |
| MediaListEvents.Notify | src/main/csharp/Caprica/VlcSharp/MediaList/Events/MediaListItemDeletedEvent.cs:51-53 | each list event invokes the callback of its own name with its media and index |
| MediaPlayer.RepeatAction | src/main/csharp/Caprica/VlcSharp/Player/DefaultMediaPlayer.cs:1650-1670 | replay exactly when repeat is set, a media is present and the sub-item count is 0; nothing at all unless repeat and a media |
| MediaPlayer.RepeatNeverReplays | src/main/csharp/Caprica/VlcSharp/Player/DefaultMediaPlayer.cs:262-270 | with the live `SubItemCount` of -1 the repeat handler never replays |
| MediaPlayer.RaisedByBuiltins | src/main/csharp/Caprica/VlcSharp/Player/DefaultMediaPlayer.cs:1368-1370 | the built-ins are notified sub-item handler first, new-media handler last |
| MediaPlayer.HandlersOnEvent | src/main/csharp/Caprica/VlcSharp/Player/DefaultMediaPlayer.cs:1619-1708 | on Finished the sub-item handler raises `SubItemFinished(i)` exactly when `i != -1`; on MediaChanged the new-media handler raises `MediaNew` exactly when `i == -1` |
| MediaPlayer.DispatchOrder | src/main/csharp/Caprica/VlcSharp/Player/DefaultMediaPlayer.cs:1595-1608 | application listeners hear an event first, last-added first; then the built-ins raise their semantic events in order |
| MediaPlayer.DispatchToApps | src/main/csharp/Caprica/VlcSharp/Player/DefaultMediaPlayer.cs:1597-1606 | the application listeners are notified in reverse registration order |
| MediaPlayer.QueueStep | src/main/csharp/Caprica/VlcSharp/Player/DefaultMediaPlayer.cs:1597-1606 | after entry i is notified the queue holds what the entries from i on raise, in notification order |
| MediaPlayer.DeliveredStep | src/main/csharp/Caprica/VlcSharp/Player/DefaultMediaPlayer.cs:1597-1606 | after entry i is notified the listeners reached, and those that threw, are those of the entries from i on |
| MediaPlayer.SemanticEvents | src/main/csharp/Caprica/VlcSharp/Player/DefaultMediaPlayer.cs:1619-1708 | the built-ins raise at most one semantic event, and only for EndReached or MediaChanged |
| MediaPlayer.AppListeners | src/main/csharp/Caprica/VlcSharp/Player/DefaultMediaPlayer.cs:1368-1370 | a live player's list holds the three built-ins before the application listeners |
| MediaPlayer.DispatchWhenReleased | src/main/csharp/Caprica/VlcSharp/Player/DefaultMediaPlayer.cs:1373-1401 | after release no built-in remains, so nothing is raised |
| MediaPlayer.RemoveKeepsShape | src/main/csharp/Caprica/VlcSharp/Player/DefaultMediaPlayer.cs:133-136 | removing an application listener keeps the built-ins in front |
| MediaPlayer.TeardownReleasesOnce | src/main/csharp/Caprica/VlcSharp/Player/DefaultMediaPlayer.cs:1373-1401 | one teardown releases the media and the player exactly once each |
| MediaPlayer.TeardownCount | src/main/csharp/Caprica/VlcSharp/Player/DefaultMediaPlayer.cs:1373-1401 | a teardown holds the media's and the player's release once each and no other release |
| MediaPlayer.PlayerTeardownCount | src/main/csharp/Caprica/VlcSharp/Player/DefaultMediaPlayer.cs:1385-1400 | the player's part of a teardown releases the player once and no media |
| MediaPlayer.TeardownTwiceReleasesTwice | src/main/csharp/Caprica/VlcSharp/Player/DefaultMediaPlayer.cs:1338-1344 | two `Release` calls release the media and the player twice each |
| MediaPlayer.NextSpu | src/main/csharp/Caprica/VlcSharp/Player/DefaultMediaPlayer.cs:831-842 | the next track lies between 0 and the track count |
| MediaPlayer.CyclePeriod | src/main/csharp/Caprica/VlcSharp/Player/DefaultMediaPlayer.cs:831-842 | cycling visits tracks 0 to the count and returns to the start after count + 1 steps |
| MediaPlayer.WrapInt64 | src/main/csharp/Caprica/VlcSharp/Player/DefaultMediaPlayer.cs:605-611 | C# `long` addition: the result is in range, congruent modulo 2^64, exact when no overflow occurs |
| MediaPlayer.SetUpMedia | src/main/csharp/Caprica/VlcSharp/Player/DefaultMediaPlayer.cs:1505-1514 | options, media callbacks, then `set_media`; no native buffer left allocated |
| MediaPlayer.AttachAndSet | src/main/csharp/Caprica/VlcSharp/Player/DefaultMediaPlayer.cs:1511-1513 | the media events are attached before the media is set on the player |
| MediaPlayer.DefaultMediaPlayer.constructor | src/main/csharp/Caprica/VlcSharp/Player/DefaultMediaPlayer.cs:1356-1371 | a new native player with its player events attached and the three built-ins registered |
| MediaPlayer.NewPlayerLog | src/main/csharp/Caprica/VlcSharp/Player/DefaultMediaPlayer.cs:1356-1365 | `libvlc_media_player_new`, then every player event attached; the log replays to exactly those callbacks |
| MediaPlayer.DefaultMediaPlayer.AddMediaPlayerEventListener | src/main/csharp/Caprica/VlcSharp/Player/DefaultMediaPlayer.cs:128-131 | the listener is appended and nothing native happens |
| MediaPlayer.DefaultMediaPlayer.RemoveMediaPlayerEventListener | src/main/csharp/Caprica/VlcSharp/Player/DefaultMediaPlayer.cs:133-136 | the first occurrence of the listener is removed |
| MediaPlayer.DefaultMediaPlayer.SetStandardMediaOptions | src/main/csharp/Caprica/VlcSharp/Player/DefaultMediaPlayer.cs:145-148 | the options are stored |
| MediaPlayer.DefaultMediaPlayer.SetRepeat | src/main/csharp/Caprica/VlcSharp/Player/DefaultMediaPlayer.cs:245-248 | the flag is stored |
| MediaPlayer.DefaultMediaPlayer.SetPlaySubItems | src/main/csharp/Caprica/VlcSharp/Player/DefaultMediaPlayer.cs:257-260 | the flag is stored |
| MediaPlayer.DefaultMediaPlayer.PlaySubItem | src/main/csharp/Caprica/VlcSharp/Player/DefaultMediaPlayer.cs:311-373 | the live code plays nothing and returns false |
| MediaPlayer.DefaultMediaPlayer.PlayNextSubItem | src/main/csharp/Caprica/VlcSharp/Player/DefaultMediaPlayer.cs:306-309 | returns false |
| MediaPlayer.DefaultMediaPlayer.ParseMedia | src/main/csharp/Caprica/VlcSharp/Player/DefaultMediaPlayer.cs:177-185 | parses the media, or throws "No media" without a native call |
| MediaPlayer.DefaultMediaPlayer.RequestParseMedia | src/main/csharp/Caprica/VlcSharp/Player/DefaultMediaPlayer.cs:187-195 | asynchronous parse, or "No media" |
| MediaPlayer.DefaultMediaPlayer.IsMediaParsed | src/main/csharp/Caprica/VlcSharp/Player/DefaultMediaPlayer.cs:197-205 | true exactly when the native result is non-zero, or "No media" |
| MediaPlayer.DefaultMediaPlayer.Mrl | src/main/csharp/Caprica/VlcSharp/Player/DefaultMediaPlayer.cs:1313-1321 | the media's MRL is read and its native string freed, or "No media" with nothing freed |
| MediaPlayer.DefaultMediaPlayer.AddMediaOptionsToMedia | src/main/csharp/Caprica/VlcSharp/Player/DefaultMediaPlayer.cs:235-243 | the options are added to the current media, or "No media" |
| MediaPlayer.DefaultMediaPlayer.SetMedia | src/main/csharp/Caprica/VlcSharp/Player/DefaultMediaPlayer.cs:1484-1525 | the old media is detached, then released; the index becomes -1; true exactly when a new media was created; a null MRL leaves no media |
| MediaPlayer.DefaultMediaPlayer.ReleaseMedia | src/main/csharp/Caprica/VlcSharp/Player/DefaultMediaPlayer.cs:1487-1493 | detach, then release, then no media |
| MediaPlayer.DefaultMediaPlayer.CreateMedia | src/main/csharp/Caprica/VlcSharp/Player/DefaultMediaPlayer.cs:1495-1524 | the new media is made from the MRL and, when created, set up; the MRL buffer is freed |
| MediaPlayer.DefaultMediaPlayer.RegisterMediaEventListener | src/main/csharp/Caprica/VlcSharp/Player/DefaultMediaPlayer.cs:1430-1444 | attaches the media event range when there is a media |
| MediaPlayer.DefaultMediaPlayer.DeregisterMediaEventListener | src/main/csharp/Caprica/VlcSharp/Player/DefaultMediaPlayer.cs:1449-1462 | detaches the media event range when there is a media |
| MediaPlayer.DefaultMediaPlayer.TearDownMedia | src/main/csharp/Caprica/VlcSharp/Player/DefaultMediaPlayer.cs:1377-1384 | media callbacks are detached, then the media is released |
| MediaPlayer.DefaultMediaPlayer.TearDownPlayer | src/main/csharp/Caprica/VlcSharp/Player/DefaultMediaPlayer.cs:1387-1399 | player callbacks are detached, the listeners cleared, the player released, the executor shut down |
| MediaPlayer.DefaultMediaPlayer.ReleasePlayer | src/main/csharp/Caprica/VlcSharp/Player/DefaultMediaPlayer.cs:1387-1396 | player callbacks are detached, the listeners cleared, then a non-null player released |
| MediaPlayer.DefaultMediaPlayer.DestroyInstance | src/main/csharp/Caprica/VlcSharp/Player/DefaultMediaPlayer.cs:1373-1401 | the six teardown steps in the source's order |
| MediaPlayer.DefaultMediaPlayer.Release | src/main/csharp/Caprica/VlcSharp/Player/DefaultMediaPlayer.cs:1338-1344 | every call runs the whole teardown |
| MediaPlayer.DefaultMediaPlayer.ReleaseOnce | src/main/csharp/Caprica/VlcSharp/Player/DefaultMediaPlayer.cs:1338-1344 | with the guard restored only the first call tears down |
| MediaPlayer.DefaultMediaPlayer.RaiseEvent | src/main/csharp/Caprica/VlcSharp/Player/DefaultMediaPlayer.cs:1469-1473 | only a non-null event is submitted, and after shutdown submission throws |
| MediaPlayer.DefaultMediaPlayer.HandleEvent | src/main/csharp/Caprica/VlcSharp/Player/DefaultMediaPlayer.cs:1546-1553 | nothing happens without listeners; otherwise the factory's event, if any, is submitted |
| MediaPlayer.DefaultMediaPlayer.NotifyHandler | src/main/csharp/Caprica/VlcSharp/Player/DefaultMediaPlayer.cs:1619-1708 | a built-in handler submits exactly the semantic events it raises |
| MediaPlayer.DefaultMediaPlayer.NotifyEntry | src/main/csharp/Caprica/VlcSharp/Player/DefaultMediaPlayer.cs:1598-1605 | one entry: an application listener receives the callback and is logged if it throws; a built-in raises its events |
| MediaPlayer.DefaultMediaPlayer.NotifyStep | src/main/csharp/Caprica/VlcSharp/Player/DefaultMediaPlayer.cs:1597-1606 | one turn of the backwards loop extends the queue, the delivered listeners and the logged throwers by entry i |
| MediaPlayer.DefaultMediaPlayer.NotifyEntries | src/main/csharp/Caprica/VlcSharp/Player/DefaultMediaPlayer.cs:1597-1606 | the backwards loop delivers to every application listener in reverse order and queues what the built-ins raise |
| MediaPlayer.DefaultMediaPlayer.Run | src/main/csharp/Caprica/VlcSharp/Player/DefaultMediaPlayer.cs:1595-1608 | delivery in reverse registration order, throwers logged, semantic events queued only while the player is alive |
| MediaPlayer.DefaultMediaPlayer.WorkerStep | src/main/csharp/Caprica/VlcSharp/Util/Concurrent/SingleThreadExecutor.cs:150-168 | a task taken from the head of the player's queue is run as `Run` |
| MediaPlayer.DefaultMediaPlayer.SetVideoSurface | Caprica/VlcSharp/Player/Embedded/DefaultEmbeddedMediaPlayer.cs:64-70 | only stores the surface |
| MediaPlayer.DefaultMediaPlayer.Play | src/main/csharp/Caprica/VlcSharp/Player/DefaultMediaPlayer.cs:573-577 | the embedded player attaches its surface, then plays; without a surface it throws before any call |
| MediaPlayer.DefaultMediaPlayer.PlayMedia | src/main/csharp/Caprica/VlcSharp/Player/DefaultMediaPlayer.cs:150-161 | `SetMedia`, then `Play` exactly when a media was created |
| MediaPlayer.DefaultMediaPlayer.SetEnableMouseInputHandling | Caprica/VlcSharp/Player/Embedded/DefaultEmbeddedMediaPlayer.cs:112-115 | passes 1 for true and 0 for false |
| MediaPlayer.DefaultMediaPlayer.SetEnableKeyInputHandling | Caprica/VlcSharp/Player/Embedded/DefaultEmbeddedMediaPlayer.cs:117-120 | passes 1 for true and 0 for false |
| MediaPlayer.DefaultMediaPlayer.SetSpu | src/main/csharp/Caprica/VlcSharp/Player/DefaultMediaPlayer.cs:819-829 | the track is set exactly when the count is non-zero and the track not past it |
| MediaPlayer.DefaultMediaPlayer.CycleSpu | src/main/csharp/Caprica/VlcSharp/Player/DefaultMediaPlayer.cs:831-842 | selects `NextSpu`, which is applied whenever the count is positive and stable |
| MediaPlayer.DefaultMediaPlayer.Skip | src/main/csharp/Caprica/VlcSharp/Player/DefaultMediaPlayer.cs:605-611 | no call when the time is -1; otherwise sets the wrapped sum |
| MediaPlayer.DefaultMediaPlayer.GetTrackDescriptions | src/main/csharp/Caprica/VlcSharp/Player/DefaultMediaPlayer.cs:1015-1028 | one description per node in list order, names read without freeing; a non-null list is released |
| MediaListPlayer.PlaybackModeOf | src/main/csharp/Caprica/VlcSharp/Player/List/DefaultMediaListPlayer.cs:178-198 | a playback mode exactly for DEFAULT, LOOP and REPEAT |
| MediaListPlayer.InvalidModeMessage | src/main/csharp/Caprica/VlcSharp/Player/List/DefaultMediaListPlayer.cs:195 | the message starts with "Invalid mode " |
| MediaListPlayer.UnnamedTextValue | src/main/csharp/Caprica/VlcSharp/Player/List/DefaultMediaListPlayer.cs:195 | the text of a value with no name reads back as that value |
| MediaListPlayer.InvalidModeValue | src/main/csharp/Caprica/VlcSharp/Player/List/DefaultMediaListPlayer.cs:195 | the text after "Invalid mode " is the mode's value |
| MediaListPlayer.PlaybackModeRoundTrip | src/main/csharp/Caprica/VlcSharp/Player/List/DefaultMediaListPlayer.cs:180-197 | each playback mode is reached by exactly one managed mode |
| MediaListPlayer.NextItemCodes | src/main/csharp/Caprica/VlcSharp/Player/List/DefaultMediaListPlayer.cs:267-275 | registration attaches only `MediaListPlayerNextItemSet` |
| MediaListPlayer.ListPlayerTeardownReleasesOnce | src/main/csharp/Caprica/VlcSharp/Player/List/DefaultMediaListPlayer.cs:241-258 | one teardown releases the list player exactly once |
| MediaListPlayer.CloseListPlayerLog | src/main/csharp/Caprica/VlcSharp/Player/List/DefaultMediaListPlayer.cs:241-258 | once the callback is detached: listeners cleared, the list player released if non-null, the executor shut down, no callback left |
| MediaListPlayer.ListPlayerReleaseTwice | src/main/csharp/Caprica/VlcSharp/Player/List/DefaultMediaListPlayer.cs:215-220 | two `Release` calls release the list player twice |
| MediaListPlayer.DefaultMediaListPlayer.constructor | src/main/csharp/Caprica/VlcSharp/Player/List/DefaultMediaListPlayer.cs:225-236 | a new native list player with its one event attached |
| MediaListPlayer.DefaultMediaListPlayer.AddMediaListPlayerEventListener | src/main/csharp/Caprica/VlcSharp/Player/List/DefaultMediaListPlayer.cs:106-109 | the listener is appended |
| MediaListPlayer.DefaultMediaListPlayer.RemoveMediaListPlayerEventListener | src/main/csharp/Caprica/VlcSharp/Player/List/DefaultMediaListPlayer.cs:111-114 | the first occurrence is removed |
| MediaListPlayer.DefaultMediaListPlayer.SetMediaPlayer | src/main/csharp/Caprica/VlcSharp/Player/List/DefaultMediaListPlayer.cs:121-125 | the player is stored, then its handle passed on; a null player throws after being stored |
| MediaListPlayer.DefaultMediaListPlayer.Play | src/main/csharp/Caprica/VlcSharp/Player/List/DefaultMediaListPlayer.cs:138-146 | an embedded media player attaches its surface first, then the list plays |
| MediaListPlayer.DefaultMediaListPlayer.PlayItem | src/main/csharp/Caprica/VlcSharp/Player/List/DefaultMediaListPlayer.cs:158-161 | true exactly when the native call returns 0 |
| MediaListPlayer.DefaultMediaListPlayer.SetMode | src/main/csharp/Caprica/VlcSharp/Player/List/DefaultMediaListPlayer.cs:178-198 | the mapped mode is set; any other value throws `ArgumentException` with the value in its message, before any call |
| MediaListPlayer.DefaultMediaListPlayer.DeregisterEventListener | src/main/csharp/Caprica/VlcSharp/Player/List/DefaultMediaListPlayer.cs:281-295 | detaches only while the callback is held and then drops it, so a second call detaches nothing |
| MediaListPlayer.DefaultMediaListPlayer.DestroyInstance | src/main/csharp/Caprica/VlcSharp/Player/List/DefaultMediaListPlayer.cs:241-258 | deregister, clear listeners, release a non-null list player, shut down |
| MediaListPlayer.DefaultMediaListPlayer.Release | src/main/csharp/Caprica/VlcSharp/Player/List/DefaultMediaListPlayer.cs:215-220 | every call tears down again |
| MediaListPlayer.DefaultMediaListPlayer.ReleaseOnce | src/main/csharp/Caprica/VlcSharp/Player/List/DefaultMediaListPlayer.cs:215-220 | with the guard restored only the first call tears down |
| MediaListPlayer.DefaultMediaListPlayer.HandleEvent | src/main/csharp/Caprica/VlcSharp/Player/List/DefaultMediaListPlayer.cs:297-307 | nothing without listeners; only a non-null event is submitted |
| MediaListPlayer.DefaultMediaListPlayer.Run | src/main/csharp/Caprica/VlcSharp/Player/List/DefaultMediaListPlayer.cs:340-353 | every listener, last-added first; throwers logged and skipped |
| MediaListPlayer.DefaultMediaListPlayer.WorkerStep | src/main/csharp/Caprica/VlcSharp/Util/Concurrent/SingleThreadExecutor.cs:150-168 | a task taken from the head of the queue is run as `Run` |
| MediaList.RemoveIndex | Caprica/VlcSharp/MediaList/MediaList.cs:199 | removal succeeds exactly for an index in range and removes one copy of that item |
| MediaList.InsertAt | Caprica/VlcSharp/MediaList/MediaList.cs:178 | insertion at a position from 0 to the count adds the item there |
| MediaList.CountDown | Caprica/VlcSharp/MediaList/MediaList.cs:217-219 | `Clear` removes the indices from count - 1 down to 0 |
| MediaList.DescriptorOptionCalls | Caprica/VlcSharp/MediaList/MediaList.cs:425-430 | options are only added, never anything else |
| MediaList.DescriptorNet | Caprica/VlcSharp/MediaList/MediaList.cs:417-437 | building a descriptor keeps exactly the one reference it returns |
| MediaList.InsertCallsLockedAndBalanced | Caprica/VlcSharp/MediaList/MediaList.cs:148-185 | adding or inserting holds the list lock throughout and releases the reference it created |
| MediaList.InsertCallsLocked | Caprica/VlcSharp/MediaList/MediaList.cs:148-185 | no call inside adding or inserting touches the lock, which is taken first and given back last |
| MediaList.InsertCallsBalanced | Caprica/VlcSharp/MediaList/MediaList.cs:148-185 | adding or inserting keeps no reference to any media |
| MediaList.RemoveMediaLockedAndBalanced | Caprica/VlcSharp/MediaList/MediaList.cs:192-207 | removal holds the lock throughout and releases the reference the lookup took |
| MediaList.RemoveMediaLocked | Caprica/VlcSharp/MediaList/MediaList.cs:192-207 | no call inside removal touches the lock, which is taken first and given back last |
| MediaList.RemoveMediaBalanced | Caprica/VlcSharp/MediaList/MediaList.cs:192-207 | removal gives back the reference its lookup took |
| MediaList.NewMediaDescriptor | Caprica/VlcSharp/MediaList/MediaList.cs:417-437 | Zero for a null MRL; options only for a non-null list; the MRL buffer is freed |
| MediaList.LockedInsert | Caprica/VlcSharp/MediaList/MediaList.cs:150-161 | lock, build, insert, release, unlock |
| MediaList.InsertDescriptor | Caprica/VlcSharp/MediaList/MediaList.cs:153-157 | the descriptor is built, handed to the list and released |
| MediaList.HandOver | Caprica/VlcSharp/MediaList/MediaList.cs:155-157 | insertion, then the release of the descriptor |
| MediaList.LockedRemove | Caprica/VlcSharp/MediaList/MediaList.cs:194-206 | lookup, and removal and release only for a non-null item, under the lock |
| MediaList.LookUpAndRemove | Caprica/VlcSharp/MediaList/MediaList.cs:196-205 | the lookup, then removal and release exactly when the item is non-null |
| MediaList.RemoveAll | Caprica/VlcSharp/MediaList/MediaList.cs:217-219 | removes every index from the last down to 0 and leaves the list empty |
| MediaList.RemoveStep | Caprica/VlcSharp/MediaList/MediaList.cs:217-219 | one turn of `Clear` removes the next index counting down and drops it from the list |
| MediaList.ItemOf | Caprica/VlcSharp/MediaList/MediaList.cs:281-305 | the item carries the media's title and MRL; no sub-item list gives an empty list, not a missing one |
| MediaList.ItemsOf | Caprica/VlcSharp/MediaList/MediaList.cs:259-273 | one item per entry |
| MediaList.EntryNet | Caprica/VlcSharp/MediaList/MediaList.cs:264-267 | an entry keeps its media's reference only when it is not released |
| MediaList.WalkNet | Caprica/VlcSharp/MediaList/MediaList.cs:264-267 | a walk keeps one reference per unreleased entry |
| MediaList.ItemsNet | Caprica/VlcSharp/MediaList/MediaList.cs:259-273 | a locked walk keeps exactly its unreleased entries |
| MediaList.ItemCallsBalanced | Caprica/VlcSharp/MediaList/MediaList.cs:281-305 | `NewMediaListItem` gives back every reference it takes, at every depth |
| MediaList.ItemCallsNet | Caprica/VlcSharp/MediaList/MediaList.cs:285-300 | fetching and releasing the sub-item list cancel out |
| MediaList.ItemsLeaks | Caprica/VlcSharp/MediaList/MediaList.cs:264-267 | `Items` as written keeps one reference per entry |
| MediaList.ItemsLeaksExample | Caprica/VlcSharp/MediaList/MediaList.cs:264-267 | a one-item list: the item's reference is never given back |
| MediaList.ItemsReleasingBalanced | Caprica/VlcSharp/MediaList/MediaList.cs:259-273 | with each entry released, `Items` gives back every reference |
| MediaList.NewMediaListItem | Caprica/VlcSharp/MediaList/MediaList.cs:281-305 | builds `ItemOf`, walking sub-items under their lock and releasing each child and the sub-item list |
| MediaList.ReadList | Caprica/VlcSharp/MediaList/MediaList.cs:262-272 | every entry read under the list's lock |
| MediaList.WalkList | Caprica/VlcSharp/MediaList/MediaList.cs:264-267 | the entries from first to last, one item each |
| MediaList.EntryStep | Caprica/VlcSharp/MediaList/MediaList.cs:265-266 | fetch, convert and, when releasing, release one entry |
| MediaList.MediaListTeardownReleasesOnce | Caprica/VlcSharp/MediaList/MediaList.cs:338-350 | one teardown releases the list exactly once |
| MediaList.CloseListLog | Caprica/VlcSharp/MediaList/MediaList.cs:338-350 | once the callbacks are detached: the list released if non-null, then the executor shut down |
| MediaList.MediaListReleaseTwice | Caprica/VlcSharp/MediaList/MediaList.cs:310-315 | two `Release` calls release the list twice |
| MediaList.MediaList.constructor | Caprica/VlcSharp/MediaList/MediaList.cs:320-333 | a new native list only when none is given; every list event attached |
| MediaList.NewListLog | Caprica/VlcSharp/MediaList/MediaList.cs:320-333 | `libvlc_media_list_new` only when no list is given, then every list event attached |
| MediaList.MediaList.AddMediaListEventListener | Caprica/VlcSharp/MediaList/MediaList.cs:114-117 | the listener is appended |
| MediaList.MediaList.RemoveListEventListener | Caprica/VlcSharp/MediaList/MediaList.cs:125-128 | the first occurrence is removed |
| MediaList.MediaList.SetStandardMediaOptions | Caprica/VlcSharp/MediaList/MediaList.cs:137-140 | the options are stored |
| MediaList.MediaList.AddMedia | Caprica/VlcSharp/MediaList/MediaList.cs:148-162 | the new descriptor is appended under the lock |
| MediaList.MediaList.InsertMedia | Caprica/VlcSharp/MediaList/MediaList.cs:171-185 | the new descriptor is inserted at the index under the lock |
| MediaList.MediaList.RemoveMedia | Caprica/VlcSharp/MediaList/MediaList.cs:192-207 | removes and releases only when an item exists at the index; otherwise the list is unchanged |
| MediaList.MediaList.Clear | Caprica/VlcSharp/MediaList/MediaList.cs:212-224 | every index removed from the last down, each in range, under the lock; the list ends empty |
| MediaList.MediaList.Items | Caprica/VlcSharp/MediaList/MediaList.cs:259-273 | one item per entry under the lock, no entry released |
| MediaList.MediaList.ItemsReleasing | Caprica/VlcSharp/MediaList/MediaList.cs:259-273 | the same items, each entry released |
| MediaList.MediaList.DestroyInstance | Caprica/VlcSharp/MediaList/MediaList.cs:338-350 | detach every list event, release a non-null list, shut down |
| MediaList.MediaList.Release | Caprica/VlcSharp/MediaList/MediaList.cs:310-315 | every call tears down again |
| MediaList.MediaList.ReleaseOnce | Caprica/VlcSharp/MediaList/MediaList.cs:310-315 | with the guard restored only the first call tears down |
| MediaList.MediaList.RaiseEvent | Caprica/VlcSharp/MediaList/MediaList.cs:387-392 | only a non-null event is submitted |
| MediaList.MediaList.HandleEvent | Caprica/VlcSharp/MediaList/MediaList.cs:507-514 | no task is ever submitted |
| MediaList.MediaList.Run | Caprica/VlcSharp/MediaList/MediaList.cs:557-570 | every listener, last-added first; throwers logged and skipped |
| Native.InRange | src/main/csharp/Caprica/VlcSharp/Player/DefaultMediaPlayer.cs:1407-1413 | the enumeration values between the bounds, in enumeration order |
| Native.SingleValueRange | src/main/csharp/Caprica/VlcSharp/Player/List/DefaultMediaListPlayer.cs:267-275 | a range whose bounds coincide selects that value only |
| Native.AttachAllEffect | src/main/csharp/Caprica/VlcSharp/Player/DefaultMediaPlayer.cs:1403-1414 | attaching registers exactly those codes and releases nothing |
| Native.DetachAllEffect | src/main/csharp/Caprica/VlcSharp/Player/DefaultMediaPlayer.cs:1416-1425 | detaching unregisters exactly those codes |
| Native.CallLog.Record | src/main/csharp/Caprica/VlcSharp/Player/DefaultMediaPlayer.cs:1487-1493 | a release is recorded only when its object has no callbacks attached |
| Native.CallLog.Replays | src/main/csharp/Caprica/VlcSharp/Player/DefaultMediaPlayer.cs:1487-1493 | the recorded calls replay from no callbacks to exactly the registered ones without an unsafe release |
| Native.HistoryReplays | src/main/csharp/Caprica/VlcSharp/Player/DefaultMediaPlayer.cs:1487-1493 | a history of safe calls replays to the callbacks it ends with |
| Native.RunAppend | src/main/csharp/Caprica/VlcSharp/Player/DefaultMediaPlayer.cs:1487-1493 | replaying two traces in turn is replaying their concatenation; an unsafe first half stops the replay |
| Native.CallLog.AttachRange | src/main/csharp/Caprica/VlcSharp/Player/DefaultMediaPlayer.cs:1403-1414 | one attach per enumeration value in range, in order |
| Native.CallLog.DetachRange | src/main/csharp/Caprica/VlcSharp/Player/DefaultMediaPlayer.cs:1416-1425 | one detach per enumeration value in range, in order |
| NativeString.EncodeChar | Caprica/VlcSharp/Binding/Internal/NativeString.cs:48 | one to four bytes, one exactly below U+0080, never a zero byte except for NUL |
| NativeString.DecodeEncodeChar | Caprica/VlcSharp/Binding/Internal/NativeString.cs:48 | the strict decoder reads the character back |
| NativeString.DecodeEncode | Caprica/VlcSharp/Binding/Internal/NativeString.cs:48 | the strict decoder inverts the encoder |
| NativeString.EncodeHasNoZero | Caprica/VlcSharp/Binding/Internal/NativeString.cs:48-51 | text without NUL encodes without a zero byte, so the terminator ends it |
| NativeString.EncodeAscii | Caprica/VlcSharp/Binding/Internal/NativeString.cs:48 | ASCII is one byte per character |
| NativeString.UntilNul | Caprica/VlcSharp/Binding/Internal/NativeString.cs:80 | a C string is the bytes before the first zero |
| NativeString.UntilNulOfTerminated | Caprica/VlcSharp/Binding/Internal/NativeString.cs:49-51 | a terminated buffer reads back as the bytes written |
| NativeString.Ansi | Caprica/VlcSharp/Binding/Internal/NativeString.cs:80 | one character per byte |
| NativeString.AsciiReadBack | Caprica/VlcSharp/Binding/Internal/NativeString.cs:46-85 | ASCII text written and read back is unchanged |
| NativeString.NativeHeap.StringPointer | Caprica/VlcSharp/Binding/Internal/NativeString.cs:46-57 | Zero and no allocation for null; otherwise a fresh block of the UTF-8 bytes and one zero |
| NativeString.NativeHeap.Release | Caprica/VlcSharp/Binding/Internal/NativeString.cs:64-68 | frees a non-zero pointer; Zero is ignored |
| NativeString.NativeHeap.String | Caprica/VlcSharp/Binding/Internal/NativeString.cs:78-85 | null exactly for Zero; never frees |
| NativeString.NativeHeap.GetNativeString | Caprica/VlcSharp/Binding/Internal/NativeString.cs:95-104 | reads, then frees a non-zero pointer once; Zero gives null and frees nothing |
| NativeString.StringPointerReadsBack | Caprica/VlcSharp/Binding/Internal/NativeString.cs:46-85 | a string copied out reads back unchanged when ASCII |
| Embedded.SetFullScreen | Caprica/VlcSharp/Player/Embedded/DefaultEmbeddedMediaPlayer.cs:84-94 | enter for true, exit for false, nothing without a strategy |
| Embedded.SetFullScreenReports | Caprica/VlcSharp/Player/Embedded/DefaultEmbeddedMediaPlayer.cs:84-94 | afterwards the player reports the requested mode whenever a strategy is present |
| Embedded.ToggleFlips | Caprica/VlcSharp/Player/Embedded/DefaultEmbeddedMediaPlayer.cs:77-82 | a toggle flips the reported mode; without a strategy it stays false |
| Embedded.ToggleTwiceRestores | Caprica/VlcSharp/Player/Embedded/DefaultEmbeddedMediaPlayer.cs:77-82 | two toggles restore the mode |
| Embedded.InputFlag | Caprica/VlcSharp/Player/Embedded/DefaultEmbeddedMediaPlayer.cs:112-120 | 1 exactly for true, otherwise 0 |
| Logger.IndexOf | Caprica/VlcSharp/Logger/Logger.cs:210 | the first placeholder at or after the position, or -1 when there is none |
| Logger.Segments | Caprica/VlcSharp/Logger/Logger.cs:209-220 | the pieces between placeholders, at least one |
| Logger.SegmentsJoin | Caprica/VlcSharp/Logger/Logger.cs:209-220 | rejoining the pieces with placeholders gives back the message |
| Logger.SegmentsFree | Caprica/VlcSharp/Logger/Logger.cs:210 | no piece contains a placeholder |
| Logger.FillMeaning | Caprica/VlcSharp/Logger/Logger.cs:209-220 | succeeds exactly with at least as many arguments as placeholders; the i-th placeholder holds the i-th argument |
| Logger.NoPlaceholderUnchanged | Caprica/VlcSharp/Logger/Logger.cs:216-219 | a message without a placeholder comes back unchanged |
| Logger.FormatArguments | Caprica/VlcSharp/Logger/Logger.cs:213 | too few arguments throws `IndexOutOfRangeException`; surplus arguments are ignored |
| Logger.FillError | Caprica/VlcSharp/Logger/Logger.cs:213 | the only exception is `IndexOutOfRangeException` |
| Logger.FormatMessage | Caprica/VlcSharp/Logger/Logger.cs:203-223 | the loop computes `FormatSpec`; null or empty arguments, or a null message, return the message |
| Logger.RankInjective | Caprica/VlcSharp/Logger/Logger.cs:72-80 | the level order is strict |
| Logger.EnabledDownward | Caprica/VlcSharp/Logger/Logger.cs:94-164 | a threshold that passes a level passes every more severe one |
| Logger.SilentSuppressesAll | Caprica/VlcSharp/Logger/Logger.cs:67 | the default threshold suppresses every level |
| Logger.TraceEnablesAll | Caprica/VlcSharp/Logger/Logger.cs:94-98 | TRACE passes every level |
| Logger.Logger.constructor | Caprica/VlcSharp/Logger/Logger.cs:67 | the threshold starts at NONE |
| Logger.Logger.SetLevel | Caprica/VlcSharp/Logger/Logger.cs:86-88 | stores the threshold |
| Logger.Logger.GetLevel | Caprica/VlcSharp/Logger/Logger.cs:90-92 | returns the last threshold set |
| Logger.Logger.Log | Caprica/VlcSharp/Logger/Logger.cs:94-164 | a line exactly when the level passes the threshold, holding the formatted message or its exception |
| VersionNumber.Split | Caprica/VlcSharp/Version/VersionNumber.cs:63 | at least one part, none holding a separator |
| VersionNumber.SplitRejoin | Caprica/VlcSharp/Version/VersionNumber.cs:63 | one more part than separators, and rejoining gives back the string |
| VersionNumber.SplitFirst | Caprica/VlcSharp/Version/VersionNumber.cs:63 | text up to the first separator is the first part |
| VersionNumber.SplitWhole | Caprica/VlcSharp/Version/VersionNumber.cs:63 | text without separators is one part |
| VersionNumber.ParseInt32 | Caprica/VlcSharp/Version/VersionNumber.cs:64-66 | a value between 0 and `Int32.MaxValue`, or a format or overflow error |
| VersionNumber.ParseDecimal | Caprica/VlcSharp/Version/VersionNumber.cs:64-66 | every component reads back from its decimal text |
| VersionNumber.Parse | Caprica/VlcSharp/Version/VersionNumber.cs:61-73 | succeeds exactly when there are three parts that convert; keeps the string unchanged |
| VersionNumber.ParseRender | Caprica/VlcSharp/Version/VersionNumber.cs:61-73 | parsing `major.minor.revision[-extra]` gives back its numbers and extra part |
| VersionNumber.Sub32Exact | Caprica/VlcSharp/Version/VersionNumber.cs:143-151 | parsed components subtract without 32-bit wrap-around |
| VersionNumber.CompareToOthers | Caprica/VlcSharp/Version/VersionNumber.cs:132-156 | positive for null; `ArgumentException` for anything not a version |
| VersionNumber.CompareMeaning | Caprica/VlcSharp/Version/VersionNumber.cs:137-152 | the sign is the lexicographic order of (major, minor, revision); 0 exactly when all three are equal |
| VersionNumber.CompareAntisymmetric | Caprica/VlcSharp/Version/VersionNumber.cs:142-151 | swapping the operands flips the sign |
| VersionNumber.CompareTransitive | Caprica/VlcSharp/Version/VersionNumber.cs:142-151 | comparison is transitive |
| VersionNumber.CompareIgnoresExtra | Caprica/VlcSharp/Version/VersionNumber.cs:137-152 | the text and the extra part play no part |
| VersionNumber.AtLeastMeaning | Caprica/VlcSharp/Version/VersionNumber.cs:127-129 | holds exactly when not lexicographically below, and for null |
| VersionNumber.AtLeastReflexiveTotal | Caprica/VlcSharp/Version/VersionNumber.cs:127-129 | reflexive and total |
| TrackInfo.CodeBytes | Caprica/VlcSharp/Player/TrackInfo.cs:65 | four bytes, each the low eight bits of a shift |
| TrackInfo.AsciiChar | Caprica/VlcSharp/Player/TrackInfo.cs:65 | below 128 exact, above it `?` |
| TrackInfo.AsciiString | Caprica/VlcSharp/Player/TrackInfo.cs:65 | one character per byte |
| TrackInfo.TrimStart | Caprica/VlcSharp/Player/TrackInfo.cs:65 | a suffix; only white space dropped; starts with something else |
| TrackInfo.TrimEnd | Caprica/VlcSharp/Player/TrackInfo.cs:65 | a prefix; only white space dropped; ends with something else |
| TrackInfo.Trim | Caprica/VlcSharp/Player/TrackInfo.cs:65 | neither starts nor ends with white space |
| TrackInfo.TrimUntouched | Caprica/VlcSharp/Player/TrackInfo.cs:65 | text without edge white space is left as it is |
| TrackInfo.CodecName | Caprica/VlcSharp/Player/TrackInfo.cs:65 | null exactly for code 0; otherwise at most four ASCII characters |
| TrackInfo.CodeBytesFourCC | Caprica/VlcSharp/Player/TrackInfo.cs:65 | the bytes of a four-character code are its characters, lowest first |
| TrackInfo.CodecNameFourCC | Caprica/VlcSharp/Player/TrackInfo.cs:65 | a code decodes back to its four characters |
| TrackInfo.CodecNamePadded | Caprica/VlcSharp/Player/TrackInfo.cs:65 | a space-padded code decodes without the padding |
| TrackInfo.NewTrackInfo | Caprica/VlcSharp/Player/TrackInfo.cs:63-114 | the getters return the constructor arguments; the name is null exactly for code 0 |
| MediaPlayerFactory.ChainFollow | Caprica/VlcSharp/Player/MediaPlayerFactory.cs:254-258 | the i-th node is reached by following `p_next` i times, and the chain ends in Zero |
| MediaPlayerFactory.ChainUnique | Caprica/VlcSharp/Player/MediaPlayerFactory.cs:254-258 | a native list has one chain |
| MediaPlayerFactory.GetModuleDescriptions | Caprica/VlcSharp/Player/MediaPlayerFactory.cs:251-260 | one description per node, in list order; a Zero head gives none |
| MediaPlayerFactory.AudioOutputsMeaning | Caprica/VlcSharp/Player/MediaPlayerFactory.cs:180-193 | succeeds exactly when every device count is at least 0, then one output per node, each with its devices |
| MediaPlayerFactory.AudioOutputsErrSticks | Caprica/VlcSharp/Player/MediaPlayerFactory.cs:185-190 | the first exception ends the walk |
| MediaPlayerFactory.ReadDevices | Caprica/VlcSharp/Player/MediaPlayerFactory.cs:207-211 | exactly `deviceCount` devices, for indices 0 to `deviceCount - 1` |
| MediaPlayerFactory.GetAudioOutputDevices | Caprica/VlcSharp/Player/MediaPlayerFactory.cs:201-213 | as written: the devices, and one more allocated block for a named output |
| MediaPlayerFactory.GetAudioOutputDevicesReleasing | Caprica/VlcSharp/Player/MediaPlayerFactory.cs:201-213 | the devices, with no block left allocated |
| MediaPlayerFactory.LeakedBuffersSettle | Caprica/VlcSharp/Player/MediaPlayerFactory.cs:184-190 | after the first exception no further name buffer is allocated |
| MediaPlayerFactory.LeakedBuffersNamed | Caprica/VlcSharp/Player/MediaPlayerFactory.cs:184-190 | a walk that completes leaves one name buffer per named output |
| MediaPlayerFactory.OneNamedOutputLeaks | Caprica/VlcSharp/Player/MediaPlayerFactory.cs:188 | one named output with a readable device count: the walk succeeds and leaves one block allocated |
| MediaPlayerFactory.ReadOutput | Caprica/VlcSharp/Player/MediaPlayerFactory.cs:188 | as written: one output's devices, and one more allocated block when it has a name |
| MediaPlayerFactory.WalkOutputs | Caprica/VlcSharp/Player/MediaPlayerFactory.cs:184-190 | as written: the output walk; every block allocated before stays, plus one name buffer per named output read, up to and including the one that throws |
| MediaPlayerFactory.WalkOutputsReleasing | Caprica/VlcSharp/Player/MediaPlayerFactory.cs:184-190 | the output walk, with the same result and no block left allocated |
| MediaPlayerFactory.FactoryReleaseTwice | Caprica/VlcSharp/Player/MediaPlayerFactory.cs:130-135 | two `Release` calls release the instance twice |
| MediaPlayerFactory.MediaPlayerFactory.constructor | Caprica/VlcSharp/Player/MediaPlayerFactory.cs:123-125 | `libvlc_new` with the arguments |
| MediaPlayerFactory.MediaPlayerFactory.Release | Caprica/VlcSharp/Player/MediaPlayerFactory.cs:130-135 | releases a non-zero instance on every call |
| MediaPlayerFactory.MediaPlayerFactory.ReleaseOnce | Caprica/VlcSharp/Player/MediaPlayerFactory.cs:130-135 | with `released` set, only the first call releases |
| MediaPlayerFactory.MediaPlayerFactory.SetUserAgent | Caprica/VlcSharp/Player/MediaPlayerFactory.cs:155-170 | Zero for a null HTTP agent; both buffers freed |
| MediaPlayerFactory.MediaPlayerFactory.SetUserAgentOnly | Caprica/VlcSharp/Player/MediaPlayerFactory.cs:144-147 | no HTTP agent |
| MediaPlayerFactory.MediaPlayerFactory.GetAudioOutputs | Caprica/VlcSharp/Player/MediaPlayerFactory.cs:180-193 | as written: the outputs with their devices; the list is released, Zero head included; one name buffer stays allocated per named output read |
| MediaPlayerFactory.MediaPlayerFactory.GetAudioOutputsReleasing | Caprica/VlcSharp/Player/MediaPlayerFactory.cs:180-193 | the same outputs and calls, with no block left allocated |
| MediaPlayerFactory.MediaPlayerFactory.GetAudioFilters | Caprica/VlcSharp/Player/MediaPlayerFactory.cs:222-228 | the list is converted, then released |
| MediaPlayerFactory.MediaPlayerFactory.GetVideoFilters | Caprica/VlcSharp/Player/MediaPlayerFactory.cs:237-243 | the list is converted, then released |

## Left out

- Threads, monitors and `volatile`: the executor is a sequential state machine whose worker moves one `Step` at a time; interleavings of `Submit` with the worker are sequences of calls.
- Console output and the stack-frame lookup of `Logger.Log`: a log call yields the formatted text, or the exception `format` throws.
- Logger.FormatMessage: arguments are given as the text `StringBuilder.Append` writes for them; `ToString` of arbitrary objects is not modelled.
- Logger.IndexOf: models an ordinal search for `{}`; culture-sensitive comparison is not modelled.
- VersionNumber.Parse: a null version string (`ArgumentNullException` from `Regex.Split`) is not modelled; the parameter is a string.
- VersionNumber.ParseInt32: culture-specific signs and white space that `Convert.ToInt32` accepts cannot reach it, since the split removes white space and `-`; trailing NUL characters are not modelled.
- `TrackInfo.ToString` and the getters of the version number are not modelled beyond their fields.
- `Marshal.PtrToStringAnsi` reads one character per byte; this is exact for ASCII and the platform code page is not modelled.
- Native linked lists are assumed finite and acyclic (`Chain`); a cyclic list would make the source loop forever.
- The node contents of native lists are given as already-read text; the device strings are an oracle (`DeviceTable`), and the native frees of device strings are not modelled.
- The event records' numeric discriminants are not part of the source; registration takes the enumeration values and range bounds as parameters.
- Floating-point payloads (buffering cache, position) are carried as opaque values and only copied; `SkipPosition`, rate, scale and the video adjustments are left out.
- Marshalling layouts, `GetTrackInfo`, `GetMediaStatistics` and the media meta wrapper are left out as native memory layout.
- Commented-out and stubbed code (`SubItems`, `StartMedia`, `Start`, snapshot saving, `EnableEvents`, `GetSubItemMediaMeta`) is modelled only where the live line returns a value.
- One-line forwards with no managed logic are left out: the list player's `Pause`, `Stop`, `PlayNext`, `PlayPrevious`, `IsPlaying`, `Mrl`, `SetMediaList`, `GetMediaList` and user data; the player's getters and setters that only call libvlc; `MediaList.Size` and `IsReadOnly`; the factory's `NewEmbeddedMediaPlayer`, `NewHeadlessMediaPlayer`, `NewMediaListPlayer`, `NewMediaList`, `GetMediaMeta`, `NewLog`, `Clock`, `Version`, `Compiler` and `ChangeSet`.
- The native strings `NewMediaListItem` reads with `GetNativeString` are given as text; their heap effect is not modelled.
- MediaList.InsertAt: an index out of range leaves the list unchanged; what libvlc does there is not visible in the source.
- MediaList.MediaList.Items: requires that no callback is attached to anything the walk releases; the list itself keeps its own event callbacks.
- The embedded player's video surface is an integer component id; the window-system attach is the call trace entry.
- A player, list player or list used after release is excluded by a precondition (`!destroyed`) for the operations that call into libvlc.

## Findings

| source | as written | input that shows it | evidently intended | confidence | as-written member | corrected member |
|---|---|---|---|---|---|---|
| src/main/csharp/Caprica/VlcSharp/Player/DefaultMediaPlayer.cs:1338-1344 | `Release` runs `DestroyInstance` on every call; its `released` guard is commented out | `Release` twice on a player with a media: the media and the player are each released twice | only the first `Release` tears down, as the `released` field's comment says | not executed | MediaPlayer.TeardownTwiceReleasesTwice | MediaPlayer.DefaultMediaPlayer.ReleaseOnce |
| src/main/csharp/Caprica/VlcSharp/Player/List/DefaultMediaListPlayer.cs:215-220 | `Release` runs `DestroyInstance` on every call | `Release` twice: `libvlc_media_list_player_release` is called twice | only the first call releases | not executed | MediaListPlayer.ListPlayerReleaseTwice | MediaListPlayer.DefaultMediaListPlayer.ReleaseOnce |
| Caprica/VlcSharp/MediaList/MediaList.cs:310-315 | `Release` runs `DestroyInstance` on every call | `Release` twice: the events are detached again and `libvlc_media_list_release` is called twice | only the first call releases | not executed | MediaList.MediaListReleaseTwice | MediaList.MediaList.ReleaseOnce |
| Caprica/VlcSharp/MediaList/MediaList.cs:264-267 | `Items` never releases the media that `libvlc_media_list_item_at_index` retained, unlike the sub-item loop at line 293 | a list of one media: after `Items` one reference to it is still held | each fetched media is released after conversion | not executed | MediaList.ItemsLeaksExample | MediaList.MediaList.ItemsReleasing |
| Caprica/VlcSharp/Player/MediaPlayerFactory.cs:203 | the output name buffer from `StringPointer` is never released | `GetAudioOutputs` with one named output: one native block stays allocated | the buffer is released after the device calls | not executed | MediaPlayerFactory.OneNamedOutputLeaks | MediaPlayerFactory.MediaPlayerFactory.GetAudioOutputsReleasing |
| Caprica/VlcSharp/Player/MediaPlayerFactory.cs:130-135 | `released` is declared but never assigned, so `Release` always releases | `Release` twice on a factory with a native instance: `libvlc_release` is called twice | only the first call releases | not executed | MediaPlayerFactory.FactoryReleaseTwice | MediaPlayerFactory.MediaPlayerFactory.ReleaseOnce |
