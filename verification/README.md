# Nodeboard reminders, modelled in Dafny

Nodeboard is a desktop productivity board: notes on a canvas joined by
connections, collections that group notes, a to-do list, a daily routine
tracker, and time-based reminders. It runs in two processes. The host
process (`main.cjs`) keeps the persisted store `{ reminders, bgEnabled }`,
arms one timer per live reminder, fires reminders as native notifications,
keeps a tray icon while background notifications are on, decides whether
closing the window quits, and manages the backups directory. The UI process
(`src/App.jsx`) keeps its own copy of the reminder list and pushes it to
the host wholesale on every change. It arms its own timers as well, and it
cascades deletions from notes, to-dos and routines into that list.

This project models both processes:

- `reminders.dfy` (`Reminders`): the reminder record, the shared "is this
  reminder live" test, the delay computation, lookup and marking fired.
- `lists.dfy` (`Lists`): the order-preserving filter every cascade uses.
- `notify.dfy` (`Notify`): the order in which both processes try
  notification mechanisms, chosen over capability flags.
- `host.dfy` (`HostScheduler`): the host as a class whose fields are the
  module-level state of `main.cjs`. Timers are a map `id -> delay` that
  `ScheduleAllReminders` rebuilds with a loop. `Registry` and `Orphans` are
  the specification of that loop. Tray creation is a start step
  (`EnsureTray`) and a completion step (`TraySettled`), because the source
  finishes it in a promise callback.
- `backups.dfy` (`Backups`): the backup handlers over a directory held as
  a sequence of files.
- `ui_scheduler.dfy` (`UiScheduler`): the UI scheduling effect, the local
  fire, the `reminder-fired` reconciliation and start-up hydration.
- `board.dfy` (`Board`): the board updates that create, link and delete
  reminders. These are the node and collection removals, to-dos, reminder
  buttons, the node editor's upsert, routine checks and connections.
- `escape.dfy`, `color.dfy`, `layout.dfy` and `autobackup.dfy`: the small
  helpers of `src/App.jsx`. These are `escapeHtml`, the colour picker's hex
  conversions, the grid editor, the drag clamps and the every-third-change
  backup counter.

Time is integer milliseconds. `new Date(text).getTime()` is a caller-given
`TimeParser` that returns None for NaN, and the current time is a
parameter. A timer elapsing is an explicit call. Fresh ids, which the
source makes with `uid`, are parameters.

Some behaviours of the source are kept as written:

- Past-due reminders get a zero-delay UI timer that the effect's cleanup
  never cancels.
- A duplicate id overwrites the host's registry entry without clearing the
  earlier timer. Such timers are collected in `Host.orphaned`.
- `removeNode` cascades into the note's connections and reminders;
  `removeCollection` removes the notes inside the collection but leaves
  their connections and reminders behind
  (`Board.RemoveCollectionLeavesDanglingConnection`).
- The node editor works on the note's own copy of its reminder, which a
  fire never marks. Saving the editor after the reminder fired writes the
  unfired copy back over the list entry, so the reminder is live again and
  both schedulers arm it once more (`Board.SaveAfterFireRevivesReminder`).
- Switching background notifications off while the tray icon is still
  loading does not stop that tray from appearing
  (`HostScheduler.TrayOutlivesDisable`).

## Model

| member | source | states |
|---|---|---|
| Reminders.When | main.cjs:127-129 | a missing time never yields an instant; a present one yields whatever the parser makes of it |
| Reminders.DelayUntil | main.cjs:131-139 | the delay is `when - now` when positive and 0 otherwise, never negative |
| Reminders.Find | main.cjs:100 | absent iff no reminder has the id; otherwise the first reminder with it |
| Reminders.MarkFired | main.cjs:106 | same length; `fired` becomes true exactly on the entries with the id; every other field and entry is unchanged |
| Reminders.MarkFiredAbsent | main.cjs:100-106 | marking an id no reminder has leaves the list equal |
| Reminders.MarkFiredIdempotent | src/App.jsx:401-406 | a second fired mark for the same id is unobservable |
| Reminders.MarkFiredCommutes | src/App.jsx:665-672 | marks for two ids give the same list in either order |
| Notify.NativeDispatch | main.cjs:46-96 | the Electron notification is used iff supported and it shows; otherwise osascript on macOS or notify-send on Linux iff it spawns; otherwise false |
| Notify.ShowNotificationRequest | main.cjs:272-282 | a missing payload answers false and attempts nothing; otherwise the notice goes through `NativeDispatch` and the answer is whether a mechanism took it; the body defaults to the empty string and a missing or empty title to "Notification" |
| Notify.UiDispatch | src/App.jsx:612-646 | host bridge iff present and invoke does not throw; else the browser API iff granted and it constructs; else the alert iff it works, and no channel exactly when it fails; permission is requested iff falling through with permission "default" |
| HostScheduler.RegistryKeys | main.cjs:124-141 | after rescheduling, an id has a timer iff some enabled, unfired reminder with a parseable time carries it |
| HostScheduler.RegistryEntry | main.cjs:131-139 | each entry is the delay of the last live reminder with that id |
| HostScheduler.RegistryArmsEach | main.cjs:131-139 | with unique ids, every live reminder's timer has that reminder's own delay |
| HostScheduler.NotArmableNotArmed | main.cjs:127-129 | with unique ids, a disabled or fired reminder, or one without a parseable time, has no timer |
| HostScheduler.FiredNotArmed | main.cjs:106 | after a fire marks an id, rescheduling arms nothing for it |
| HostScheduler.UniqueIdsNoOrphans | main.cjs:134-139 | with unique ids, no timer escapes the registry |
| HostScheduler.DuplicateIdOrphansTimer | main.cjs:134-139 | two live reminders with one id leave the first timer armed outside the registry |
| HostScheduler.Saved | main.cjs:38-44 | what saveStore writes loads back as the same store |
| HostScheduler.LoadStore | main.cjs:26-36 | a missing or unreadable file gives `{[], false}`; a key present in the file overrides its default and an absent one keeps it |
| HostScheduler.Host.Start | main.cjs:254-266 | start-up loads the store, schedules every reminder, starts a tray iff bgEnabled, and shows the window |
| HostScheduler.Host.SaveStore | main.cjs:38-44 | the disk holds the current store |
| HostScheduler.Host.ClearAllReminderTimers | main.cjs:117-122 | the registry is empty |
| HostScheduler.Host.ScheduleAllReminders | main.cjs:124-142 | the registry equals `Registry` of the store and `now`, so the result depends only on them and a second run gives the same map; overwritten handles are added to `orphaned` |
| HostScheduler.Host.FireReminderById | main.cjs:98-115 | an absent id changes nothing; otherwise one notice with the first match's title and note, every reminder with the id marked fired whatever the notice returned, store persisted, one broadcast |
| HostScheduler.Host.PersistReminders | main.cjs:284-294 | the list is replaced wholesale (`[]` for a non-array); bgEnabled unchanged; persisted; rescheduled; answers true |
| HostScheduler.Host.GetPersistedReminders | main.cjs:296-298 | answers the stored list |
| HostScheduler.Host.GetBgNotificationsEnabled | main.cjs:393-395 | answers the stored flag |
| HostScheduler.Host.EnsureTray | main.cjs:144-151 | keeps at most one tray; starts a creation only when there is no tray and none is in progress |
| HostScheduler.Host.TraySettled | main.cjs:153-200 | the creation ends; a tray exists iff the Tray was built; at most one tray |
| HostScheduler.Host.DestroyTray | main.cjs:205-213 | no tray afterwards |
| HostScheduler.Host.SetBgNotificationsEnabled | main.cjs:368-386 | stores and persists the flag, then ensures the tray when true and destroys it when false; answers true |
| HostScheduler.Host.OnWindowClose | main.cjs:232-241 | the close is cancelled, the window hidden and the tray ensured iff `!forceQuit && bgEnabled` |
| HostScheduler.Host.BeforeQuit | main.cjs:388-391 | sets forceQuit |
| HostScheduler.Host.TrayQuit | main.cjs:160 | sets forceQuit and requests quit |
| HostScheduler.Host.OnWindowAllClosed | main.cjs:397-402 | quits iff the platform is not macOS and bgEnabled is false |
| HostScheduler.Host.ShowNotification | main.cjs:272-282 | answers the dispatch result and records the attempted notice |
| HostScheduler.TrayOutlivesDisable | main.cjs:368-386 | disabling while a tray creation is pending still ends with a tray and bgEnabled false |
| HostScheduler.QuitThenCloseProceeds | main.cjs:388-391 | after before-quit, a window close is never cancelled |
| Backups.InsertNewest | main.cjs:322 | inserting into a newest-first list keeps it newest-first and adds exactly that element |
| Backups.SortNewestFirst | main.cjs:322 | newest first and a permutation of the input |
| Backups.ListBackupsSpec | main.cjs:315-328 | the listing is newest first, a permutation of the `.json` entries, only `.json` names, and every `.json` file appears |
| Backups.Lookup | main.cjs:333-334 | absent iff no file has the name |
| Backups.ReadBackup | main.cjs:330-341 | "not found" iff no file has the name; otherwise a file's content |
| Backups.DeleteBackup | main.cjs:343-353 | always succeeds; files with the name are gone and every other file stays; a missing name leaves the directory as it was |
| Backups.RemoveNamed | main.cjs:347 | exactly the files whose name is in the set are gone |
| Backups.RemoveNamedTwice | main.cjs:360 | unlinking names one after another is unlinking them all at once |
| Backups.UnlinkListedJson | main.cjs:359-360 | unlinking every listed `.json` name leaves exactly the non-`.json` files, in order |
| Backups.DeleteAllBackups | main.cjs:355-366 | unlinking the listed `.json` names one by one leaves exactly the other files, in order; succeeds |
| Backups.BackupName | main.cjs:304 | a `.json` name made of `backup-`, the dashed timestamp, and `.json` |
| Backups.Dashed | main.cjs:304 | same length; every `:` and `.` becomes `-`; every other character is kept |
| Backups.SaveBackup | main.cjs:301-313 | the saved name reads back as the snapshot and appears in the listing; every other file is kept and no other file appears |
| Backups.DeleteThenRead | main.cjs:343-353 | after delete-backup the name reads as "not found" |
| Backups.DeleteAllThenList | main.cjs:355-366 | after delete-all-backups the listing is empty |
| UiScheduler.TimerFor | src/App.jsx:662-681 | the timer is for the reminder's id with delay `when - now`, or 0 when due; it is tracked iff the delay is positive iff the reminder is not yet due |
| UiScheduler.ArmReminders | src/App.jsx:648-682 | the timers armed are `Plan`, and `timers` holds exactly the tracked ones, in order |
| UiScheduler.PlanMembers | src/App.jsx:649-660 | a timer is armed for each enabled, unfired reminder with a parseable time, and for nothing else |
| UiScheduler.CleanupSparesPastDue | src/App.jsx:676-684 | the cleanup leaves every past-due reminder's zero-delay timer armed, and only those |
| UiScheduler.PlanMatchesHost | src/App.jsx:648-682 | the UI arms an id iff the host registry holds it for the same list and time; with unique ids the delays agree |
| UiScheduler.FireAndMark | src/App.jsx:665-672 | the notice has the reminder's title ("Reminder" when empty) and note, and goes through `UiDispatch`; the reminders with the id are marked fired and nothing else changes |
| UiScheduler.FireMarksWhateverTheDelivery | src/App.jsx:665-672 | the list after a fire does not depend on how, or whether, the notification was delivered |
| UiScheduler.OnReminderFired | src/App.jsx:401-406 | a missing or empty id changes nothing; otherwise only `fired` changes, and only on that id |
| UiScheduler.DuplicateFireUnobservable | src/App.jsx:401-406 | the host's event after a local fire of the same reminder changes nothing |
| UiScheduler.ReconciledNotRearmed | src/App.jsx:401-406 | after reconciliation the re-run effect arms nothing for that id |
| UiScheduler.Hydrate | src/App.jsx:390-393 | the host's list replaces the local one iff it is a non-empty array |
| Board.FilterKeepsUniqueIds | src/App.jsx:922 | removing reminders never makes ids collide |
| Board.RemoveNode | src/App.jsx:922 | the node, every connection from or to it, and every reminder of it are gone; all else is kept |
| Board.RemoveNodeKeepsConnectionsResolved | src/App.jsx:922 | if every connection joined existing nodes, it still does |
| Board.RemoveCollection | src/App.jsx:917-921 | the collection and the nodes in it are gone; connections and reminders are untouched |
| Board.RemoveCollectionLeavesDanglingConnection | src/App.jsx:917-921 | a board where removing a collection leaves a connection to a missing node |
| Board.AddConnection | src/App.jsx:789 | an existing link with the same ends and sides leaves the list; otherwise the link is appended |
| Board.AddConnectionKeepsNoDuplicates | src/App.jsx:789 | the list never holds two links with the same ends and sides |
| Board.AddConnectionTwice | src/App.jsx:1980-1983 | creating the same link twice, under any ids, is creating it once |
| Board.ConnectByDrag | src/App.jsx:780-789 | only a right-to-left link between two different nodes is made; the list is either kept or gets exactly that link appended; no duplicates appear |
| Board.ConnectFromMenu | src/App.jsx:1976-1983 | no target changes nothing; otherwise the de-duplicating append of a link with the given sides, or right and left by default; no duplicates appear |
| Board.AddTodoTask | src/App.jsx:926 | the to-do with the given title and note is appended; with a time, one enabled, unfired reminder with the same title and note is appended and linked from it |
| Board.AddTodoTaskArmsReminder | src/App.jsx:926 | a to-do with a parseable time brings a live reminder into the list |
| Board.FindTodo | src/App.jsx:927 | absent iff no to-do has the id; otherwise the first to-do with it |
| Board.RemoveTodoTask | src/App.jsx:927 | every to-do with the id is gone; if the first one links a reminder, every reminder with that id is gone too |
| Board.ToggleEnabled | src/App.jsx:2150 | only `enabled` changes, and only on that id |
| Board.ToggleEnabledTwice | src/App.jsx:2150 | two presses restore the list |
| Board.ToggleEnabledKeepsFired | src/App.jsx:2150 | the toggle never touches `fired` |
| Board.DeleteReminder | src/App.jsx:2151 | reminders with the id are gone; to-do links and node copies pointing at it are cleared; nothing else changes |
| Board.DeleteReminderKeepsBackRefs | src/App.jsx:2151 | if every back-reference named an existing reminder, it still does |
| Board.UpsertNodeReminder | src/App.jsx:1365-1375 | no draft removes all of the node's reminders; otherwise the draft, with nodeId set, replaces every entry with its id in place, or is appended |
| Board.UpsertKeepsIdsUnique | src/App.jsx:1365-1375 | the upsert keeps reminder ids unique |
| Board.SaveNodeEditor | src/App.jsx:1350-1376 | the edited node stays in place with its id and collection and takes the draft's title and reminder; other nodes are kept; the reminder list is upserted |
| Board.SaveAfterFireRevivesReminder | src/App.jsx:1332-1375 | saving the editor's unfired copy after a fire leaves the reminder live again in the list |
| Board.DatePart | src/App.jsx:1404 | `slice(0, 10)`: a prefix of at most ten characters |
| Board.OnDateIsPrefix | src/App.jsx:1404 | for a ten-character key, "on that date" means the time starts with the key |
| Board.RemoveRoutineReminders | src/App.jsx:1404 | exactly the routine's reminders on that date go |
| Board.SetFlag | src/App.jsx:1395-1399 | the flag for that date and routine is set; all others are kept |
| Board.ToggleRoutineForDay | src/App.jsx:1384-1406 | the check flips; unchecking removes the routine's reminders on that date; checking leaves the list; every other date's and routine's check is kept |
| Board.ToggleDoneForDay | src/App.jsx:1408-1418 | Done flips; marking Done removes the routine's reminders on that date; every other Done flag is kept |
| Board.FindRoutine | src/App.jsx:1427 | absent iff no routine of the day has the id; otherwise the first routine with it |
| Board.CreateRoutineReminder | src/App.jsx:1421-1438 | an invalid time changes nothing; otherwise an enabled, unfired reminder titled after the routine (default "Routine") is appended and the routine is checked; every other check is kept |
| Board.UncheckUndoesCreate | src/App.jsx:1421-1438 | unchecking on the reminder's date removes a just-created routine reminder and leaves what unchecking alone would have left of the old list |
| Escape.ReplaceAll | src/App.jsx:68 | the pass removes every occurrence of its character, and adds only characters of the entity |
| Escape.EscapeHtml | src/App.jsx:67-69 | no raw `<`, `>`, `"` or `'` in the output |
| Escape.EscapeHtmlIsEscapeEach | src/App.jsx:67-69 | because `&` goes first, the five passes escape each character exactly once |
| Escape.EscapeHtmlPlain | src/App.jsx:67-69 | a string without the five characters is returned unchanged |
| Escape.UnescapeEscapeHtml | src/App.jsx:67-69 | decoding the entities gives back the input, so the escape loses nothing |
| Color.HexRun | src/App.jsx:995 | the longest prefix of hex digits, as `parseInt` reads it |
| Color.ParseIntHex | src/App.jsx:995 | NaN iff no hex digit follows the sign and `0x`; otherwise the value of the leading hex digits, negated after a `-` |
| Color.HexToRgb | src/App.jsx:993-998 | channels in 0..255; an empty value is white; an unparseable one is black |
| Color.RgbToHex | src/App.jsx:999-1002 | in-range channels give `#` and six hex digits |
| Color.RgbToHexRoundTrip | src/App.jsx:993-1002 | reading back a written colour gives the same channels |
| Color.HexToRgbRoundTrip | src/App.jsx:993-1002 | writing back a read lower-case `#rrggbb` gives the same text |
| Color.ShortFormExpands | src/App.jsx:996 | `#abc` reads as `#aabbcc` |
| Layout.DimensionFromInput | src/App.jsx:2207 | at least 1, and the input itself when that is at least 1 |
| Layout.Fit | src/App.jsx:2211-2213 | exactly `desired` cells; old cells kept as a prefix; the rest are fresh empty cells |
| Layout.GridDraft.SetRows | src/App.jsx:2206-2215 | rows at least 1, cols unchanged, rows × cols cells, old cells kept as a prefix |
| Layout.GridDraft.SetCols | src/App.jsx:2220-2229 | cols at least 1, rows unchanged, rows × cols cells, old cells kept as a prefix |
| Layout.ResizeColumns | src/App.jsx:563-570 | only the dragged panel changes; it is the start width plus (right: minus) the drag, or 240 for the left and 220 for the middle and right when that is smaller |
| Layout.ResizeCollection | src/App.jsx:596 | the start size plus the drag, or 200 wide and 140 high when that is smaller; position kept |
| Layout.MoveCollection | src/App.jsx:729 | follows the pointer, with a coordinate that would be negative set to 0; size kept |
| Layout.Clamp | src/App.jsx:758-759 | within `[lo, max(lo, hi)]`, and unchanged when already within `[lo, hi]` |
| Layout.PlaceNode | src/App.jsx:745-760 | outside a collection unchanged; inside, each coordinate is clamped to its range (8 from the sides, below the 44-high header) and unchanged when within it; wholly inside when it fits |
| Layout.PlaceNodeIdempotent | src/App.jsx:745-760 | placing a placed node again leaves it where it is |
| AutoBackup.ChangeCounter.OnBoardChange | src/App.jsx:361-376 | counts only when backups are on and the bridge is present; asks for a backup exactly on every third counted change |
| AutoBackup.ThirdChangeSaves | src/App.jsx:365-367 | from a fresh counter, the first two changes save nothing and the third saves |

## Left out

- Null entries in reminder arrays are left out. Lists are sequences of reminder records.
- Reminder times are a string plus a caller-given parser. Date and timezone arithmetic (`getDateForWeekday`, `toISOString`) is left out. Date keys and ISO times are inputs.
- Board.UncheckUndoesCreate: requires that the reminder's UTC date equals the date key. The source computes both from local time, so in some time zones the two differ and unchecking does not remove the reminder.
- JSON parsing and serialisation are left out, in `loadStore`, the import, the export snapshot and `JSON.stringify` of a non-string snapshot. The store file is Absent, Unreadable, or Parsed with optional keys.
- Real timers, `clearTimeout`, the cross-process race and `Date.now()` are left out. Timers are map entries or `UiTimer` records, and a fire is a method call.
- Electron, IPC transport, `Notification`, `execFile` and `Tray`/`Menu` construction are foreign calls. They are capability flags and outcome values. Asynchronous failures of `execFile` are not observed, as in the source.
- `fs` exceptions inside the backup handlers, and the `success: false` answers they would cause, are left out. The modelled answers are those the handlers give without an exception, including read-backup's "not found". Path traversal through a backup name is also left out: names are matched literally.
- Backups.SaveBackup: the size is the snapshot's length in characters, not its UTF-8 byte count.
- Backups.SortNewestFirst: NaN modification times are not represented.
- `localStorage`, React state batching, rendering, popover and focus handling, ResizeObserver measurement and the window `activate` event are UI plumbing.
- Node fields other than title and reminder in `saveNodeEditor` are display state and are left out. So are list and grid items of other node types, and `_z`.
- `markdownToHtml`, `categoryBackground`, the HSV conversions, bezier paths and zoom formatting are left out. They are regex passes or floating point.
- Color.HexToRgb: `parseInt` skipping leading whitespace and losing precision beyond 2^53 is not modelled. `undefined`/`null` are modelled as the empty string.
- Color.RgbToHex: channels are integers, so `Math.round` of a fractional channel is not modelled.
- Layout.GridDraft.SetRows: stored rows/cols are natural numbers (0 for unset). Negative or fractional values in a draft are not modelled, nor is `Number` of a fractional input.
- Layout.PlaceNode: positions and sizes are integers. The source's pointer coordinates are floating point.
- Fresh ids (`uid`) are parameters. They are not checked to be distinct from existing ids.
- The `preload.cjs` bridge and the build configuration are not part of this model.
