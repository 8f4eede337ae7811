/**
 * The host (Electron main) process of main.cjs: the persisted reminder
 * store, the timer registry rebuilt from scratch on every change, firing,
 * the tray (background presence) and the close/quit decisions.
 *
 * Timers are entries `id -> delay` of a map; a timer elapsing is an explicit
 * call of FireReminderById. Time is integer milliseconds supplied by the caller.
 */
module HostScheduler {
  import opened Reminders
  import opened Notify

  // ---------------------------------------------------------------------
  // The timer registry as a function of the store

  /**
   * The registry scheduleAllReminders leaves behind: reminders are visited in
   * order, and each armable one sets its id to its delay, so a later reminder
   * with the same id overwrites an earlier entry.
   */
  function Registry(rs: seq<Reminder>, now: int, parse: TimeParser): map<string, nat>
    decreases |rs|
  {
    if rs == [] then map[]
    else
      var r := rs[|rs| - 1];
      var m := Registry(rs[..|rs| - 1], now, parse);
      if Armable(r, parse) then m[r.id := DelayUntil(When(r, parse).value, now)] else m
  }

  /**
   * Timers armed by scheduleAllReminders whose registry entry a later
   * reminder with the same id overwrote. clearAllReminderTimers only cancels
   * what the registry holds, so these stay armed.
   */
  function Orphans(rs: seq<Reminder>, now: int, parse: TimeParser): seq<(string, nat)>
    decreases |rs|
  {
    if rs == [] then []
    else
      var r := rs[|rs| - 1];
      var pre := rs[..|rs| - 1];
      var m := Registry(pre, now, parse);
      Orphans(pre, now, parse) + (if Armable(r, parse) && r.id in m then [(r.id, m[r.id])] else [])
  }

  /** The registry holds an entry for exactly the ids of armable reminders. */
  lemma {:induction false} RegistryKeys(rs: seq<Reminder>, now: int, parse: TimeParser, id: string)
    ensures id in Registry(rs, now, parse) <==>
      exists k :: 0 <= k < |rs| && rs[k].id == id && Armable(rs[k], parse)
  {
    if rs != [] {
      var pre := rs[..|rs| - 1];
      RegistryKeys(pre, now, parse, id);
      assert forall k :: 0 <= k < |pre| ==> pre[k] == rs[k];
      if id in Registry(rs, now, parse) && id !in Registry(pre, now, parse) {
        assert rs[|rs| - 1].id == id && Armable(rs[|rs| - 1], parse);
      }
    }
  }

  /**
   * Every entry is the delay of the last armable reminder with that id:
   * `when - now` when that is positive and 0 otherwise, never negative.
   */
  lemma {:induction false} RegistryEntry(rs: seq<Reminder>, now: int, parse: TimeParser, id: string)
    requires id in Registry(rs, now, parse)
    ensures exists k :: (
      && 0 <= k < |rs| && rs[k].id == id && Armable(rs[k], parse)
      && Registry(rs, now, parse)[id] == DelayUntil(When(rs[k], parse).value, now)
      && forall j :: k < j < |rs| ==> !(rs[j].id == id && Armable(rs[j], parse)))
  {
    var pre := rs[..|rs| - 1];
    var last := rs[|rs| - 1];
    if last.id == id && Armable(last, parse) {
      var k := |rs| - 1;
      assert rs[k].id == id && Armable(rs[k], parse) &&
        Registry(rs, now, parse)[id] == DelayUntil(When(rs[k], parse).value, now);
    } else {
      RegistryEntry(pre, now, parse, id);
      var k :| 0 <= k < |pre| && pre[k].id == id && Armable(pre[k], parse) &&
        Registry(pre, now, parse)[id] == DelayUntil(When(pre[k], parse).value, now) &&
        forall j :: k < j < |pre| ==> !(pre[j].id == id && Armable(pre[j], parse));
      assert forall j :: 0 <= j < |pre| ==> pre[j] == rs[j];
      assert rs[k].id == id && Armable(rs[k], parse) &&
        Registry(rs, now, parse)[id] == DelayUntil(When(rs[k], parse).value, now);
    }
  }

  /** With unique ids, each armable reminder gets its own delay in the registry. */
  lemma {:induction false} RegistryArmsEach(rs: seq<Reminder>, now: int, parse: TimeParser, k: nat)
    requires UniqueIds(rs) && k < |rs| && Armable(rs[k], parse)
    ensures rs[k].id in Registry(rs, now, parse)
    ensures Registry(rs, now, parse)[rs[k].id] == DelayUntil(When(rs[k], parse).value, now)
  {
    var pre := rs[..|rs| - 1];
    if k < |rs| - 1 {
      assert pre[k] == rs[k];
      RegistryArmsEach(pre, now, parse, k);
    }
  }

  /**
   * With unique ids, a reminder that is disabled, fired, or without a
   * parseable time has no timer.
   */
  lemma NotArmableNotArmed(rs: seq<Reminder>, now: int, parse: TimeParser, k: nat)
    requires UniqueIds(rs) && k < |rs| && !Armable(rs[k], parse)
    ensures rs[k].id !in Registry(rs, now, parse)
  {
    RegistryKeys(rs, now, parse, rs[k].id);
  }

  /** After the host marks `id` fired, rescheduling arms nothing for it. */
  lemma FiredNotArmed(rs: seq<Reminder>, id: string, now: int, parse: TimeParser)
    ensures id !in Registry(MarkFired(rs, id), now, parse)
  {
    RegistryKeys(MarkFired(rs, id), now, parse, id);
  }

  /** With unique ids no timer is ever orphaned. */
  lemma {:induction false} UniqueIdsNoOrphans(rs: seq<Reminder>, now: int, parse: TimeParser)
    requires UniqueIds(rs)
    ensures Orphans(rs, now, parse) == []
  {
    if rs != [] {
      var pre := rs[..|rs| - 1];
      var last := rs[|rs| - 1];
      UniqueIdsNoOrphans(pre, now, parse);
      RegistryKeys(pre, now, parse, last.id);
    }
  }

  /** Two armable reminders with one id leave the first one's timer armed and unreachable. */
  lemma DuplicateIdOrphansTimer(r: Reminder, now: int, parse: TimeParser)
    requires Armable(r, parse)
    ensures Orphans([r, r], now, parse) == [(r.id, DelayUntil(When(r, parse).value, now))]
  {
    var d := DelayUntil(When(r, parse).value, now);
    assert [r, r][..1] == [r];
    assert [r][..0] == [];
    assert Registry([r], now, parse) == map[r.id := d];
    assert Orphans([r], now, parse) == [];
  }

  // ---------------------------------------------------------------------
  // The persisted store

  /** The `{ reminders, bgEnabled }` record main.cjs keeps in STORE. */
  datatype StoreRecord = StoreRecord(reminders: seq<Reminder>, bgEnabled: bool)

  /** The store file as loadStore finds it; a Parsed key is None when absent. */
  datatype StoreFile =
    | Absent
    | Unreadable
    | Parsed(reminders: Option<seq<Reminder>>, bgEnabled: Option<bool>)

  /** What saveStore writes. */
  function Saved(s: StoreRecord): (f: StoreFile)
    ensures LoadStore(f) == s
  {
    Parsed(Some(s.reminders), Some(s.bgEnabled))
  }

  /**
   * loadStore: a missing or unreadable file gives the empty store; otherwise
   * each key present in the file overrides its default.
   */
  function LoadStore(f: StoreFile): (s: StoreRecord)
    ensures !f.Parsed? ==> s == StoreRecord([], false)
    ensures f.Parsed? && f.reminders.None? ==> s.reminders == []
    ensures f.Parsed? && f.bgEnabled.None? ==> !s.bgEnabled
    ensures f.Parsed? && f.reminders.Some? ==> s.reminders == f.reminders.value
    ensures f.Parsed? && f.bgEnabled.Some? ==> s.bgEnabled == f.bgEnabled.value
  {
    match f
    case Parsed(rs, bg) =>
      StoreRecord(if rs.Some? then rs.value else [], if bg.Some? then bg.value else false)
    case _ => StoreRecord([], false)
  }

  datatype WindowState = Shown | Hidden | Closed

  /**
   * How the asynchronous tray creation settles: the executable's icon
   * loaded, or it failed and the bundled fallback icon was used; `built`
   * says whether constructing the Tray succeeded.
   */
  datatype IconOutcome = ExeIcon(built: bool) | FallbackIcon(built: bool)

  class Host {
    var reminders: seq<Reminder>
    var bgEnabled: bool
    var timers: map<string, nat>
    var orphaned: seq<(string, nat)>
    var tray: bool
    var trayCreating: bool
    var forceQuit: bool
    var quitRequested: bool
    var window: WindowState
    var disk: StoreFile
    var notices: seq<Notice>
    var broadcasts: seq<string>
    const platform: Platform

    /** Tray objects constructed and not yet destroyed. */
    ghost var liveTrays: nat
    /** Tray creations started by ensureTray. */
    ghost var creationsStarted: nat

    /** At most one tray exists, and none is being created while one exists. */
    ghost predicate Valid()
      reads this
    {
      liveTrays == (if tray then 1 else 0) && !(tray && trayCreating)
    }

    /**
     * App start-up: load the store, schedule every reminder, pre-create the
     * tray when background presence is on, and show the main window.
     */
    constructor Start(file: StoreFile, platform: Platform, now: int, parse: TimeParser)
      ensures Valid()
      ensures reminders == LoadStore(file).reminders && bgEnabled == LoadStore(file).bgEnabled
      ensures disk == file
      ensures timers == Registry(reminders, now, parse) && orphaned == Orphans(reminders, now, parse)
      ensures !tray && trayCreating == bgEnabled
      ensures window == Shown && !forceQuit && !quitRequested
      ensures notices == [] && broadcasts == []
      ensures this.platform == platform
    {
      var s := LoadStore(file);
      reminders, bgEnabled := s.reminders, s.bgEnabled;
      timers, orphaned := map[], [];
      tray, trayCreating := false, false;
      liveTrays, creationsStarted := 0, 0;
      forceQuit, quitRequested := false, false;
      window := Shown;
      disk := file;
      notices, broadcasts := [], [];
      this.platform := platform;
      new;
      ScheduleAllReminders(now, parse);
      if bgEnabled {
        EnsureTray();
      }
    }

    method SaveStore()
      modifies this`disk
      ensures disk == Saved(StoreRecord(reminders, bgEnabled))
    {
      disk := Saved(StoreRecord(reminders, bgEnabled));
    }

    /** clearAllReminderTimers: cancel every registered timer and empty the registry. */
    method ClearAllReminderTimers()
      modifies this`timers
      ensures timers == map[]
    {
      timers := map[];
    }

    /**
     * scheduleAllReminders: clear the registry, then arm one timer per
     * enabled, unfired reminder whose time parses, with delay
     * `max(0, when - now)`. The result depends only on the store and `now`,
     * so running it twice gives the same registry.
     */
    method ScheduleAllReminders(now: int, parse: TimeParser)
      modifies this`timers, this`orphaned
      ensures timers == Registry(reminders, now, parse)
      ensures orphaned == old(orphaned) + Orphans(reminders, now, parse)
    {
      ClearAllReminderTimers();
      var i := 0;
      while i < |reminders|
        invariant 0 <= i <= |reminders|
        invariant timers == Registry(reminders[..i], now, parse)
        invariant orphaned == old(orphaned) + Orphans(reminders[..i], now, parse)
      {
        var r := reminders[i];
        assert reminders[..i + 1][..i] == reminders[..i];
        if r.enabled && !r.fired && r.time != "" {
          var when := parse(r.time);
          if when.Some? {
            var ms := when.value - now;
            // Map.set drops the previous handle without clearTimeout.
            if r.id in timers {
              orphaned := orphaned + [(r.id, timers[r.id])];
            }
            if ms <= 0 {
              timers := timers[r.id := 0];
            } else {
              timers := timers[r.id := ms];
            }
          }
        }
        i := i + 1;
      }
      assert reminders[..i] == reminders;
    }

    /**
     * fireReminderById: an id absent from the store does nothing at all.
     * Otherwise notify with the first match's title (default "Reminder") and
     * note, mark every reminder with that id fired whatever the notification
     * returned, persist, and broadcast `reminder-fired` to the windows.
     * The registry is left as it is.
     */
    method FireReminderById(id: string, caps: NativeCaps)
      modifies this`reminders, this`disk, this`notices, this`broadcasts
      ensures Find(old(reminders), id).None? ==>
        reminders == old(reminders) && disk == old(disk) &&
        notices == old(notices) && broadcasts == old(broadcasts)
      ensures Find(old(reminders), id).Some? ==>
        var r := Find(old(reminders), id).value;
        && reminders == MarkFired(old(reminders), id)
        && notices == old(notices) + [Notice(OrDefault(r.title, "Reminder"), r.note, NativeDispatch(platform, caps))]
        && disk == Saved(StoreRecord(reminders, bgEnabled))
        && broadcasts == old(broadcasts) + [id]
    {
      var found := Find(reminders, id);
      if found.None? {
        return;
      }
      var r := found.value;
      var title := OrDefault(r.title, "Reminder");
      var via := NativeDispatch(platform, caps);
      notices := notices + [Notice(title, r.note, via)];
      reminders := MarkFired(reminders, id);
      SaveStore();
      broadcasts := broadcasts + [id];
    }

    /**
     * The `persist-reminders` handler: replace the list wholesale (`[]` for a
     * non-array payload), persist, reschedule, and answer true. bgEnabled is
     * untouched.
     */
    method PersistReminders(payload: Option<seq<Reminder>>, now: int, parse: TimeParser) returns (ok: bool)
      modifies this`reminders, this`disk, this`timers, this`orphaned
      ensures reminders == (if payload.Some? then payload.value else [])
      ensures disk == Saved(StoreRecord(reminders, bgEnabled))
      ensures timers == Registry(reminders, now, parse)
      ensures orphaned == old(orphaned) + Orphans(reminders, now, parse)
      ensures ok
    {
      reminders := if payload.Some? then payload.value else [];
      SaveStore();
      ScheduleAllReminders(now, parse);
      ok := true;
    }

    /** The `get-persisted-reminders` handler. */
    method GetPersistedReminders() returns (rs: seq<Reminder>)
      ensures rs == reminders
    {
      rs := reminders;
    }

    /** The `get-bg-notifications-enabled` handler. */
    method GetBgNotificationsEnabled() returns (enabled: bool)
      ensures enabled == bgEnabled
    {
      enabled := bgEnabled;
    }

    /**
     * ensureTray: with a tray present or a creation in progress nothing new
     * starts; otherwise a creation starts and completes later in TraySettled.
     */
    method EnsureTray()
      requires Valid()
      modifies this`trayCreating, this`creationsStarted
      ensures Valid()
      ensures trayCreating == (old(trayCreating) || !tray)
      ensures creationsStarted == old(creationsStarted) + (if old(trayCreating) || tray then 0 else 1)
    {
      if tray {
        return;
      }
      if trayCreating {
        return;
      }
      trayCreating := true;
      creationsStarted := creationsStarted + 1;
    }

    /** The icon promise of a started creation settles; the tray exists iff it was built. */
    method TraySettled(outcome: IconOutcome)
      requires Valid() && trayCreating
      modifies this`tray, this`trayCreating, this`liveTrays
      ensures Valid()
      ensures !trayCreating && tray == outcome.built
      ensures liveTrays == old(liveTrays) + (if outcome.built then 1 else 0)
    {
      trayCreating := false;
      if outcome.built {
        tray := true;
        liveTrays := liveTrays + 1;
      }
    }

    /** destroyTray: no tray afterwards; a creation in progress is not cancelled. */
    method DestroyTray()
      requires Valid()
      modifies this`tray, this`liveTrays
      ensures Valid()
      ensures !tray
    {
      if tray {
        tray := false;
        liveTrays := liveTrays - 1;
      }
    }

    /**
     * The `set-bg-notifications-enabled` handler: store and persist the flag,
     * then ensureTray when it is on and destroyTray when it is off.
     */
    method SetBgNotificationsEnabled(enabled: bool) returns (ok: bool)
      requires Valid()
      modifies this`bgEnabled, this`disk, this`tray, this`trayCreating, this`liveTrays, this`creationsStarted
      ensures Valid() && ok
      ensures bgEnabled == enabled && disk == Saved(StoreRecord(reminders, enabled))
      ensures enabled ==> tray == old(tray) && trayCreating == (old(trayCreating) || !old(tray))
      ensures !enabled ==> !tray && trayCreating == old(trayCreating)
    {
      bgEnabled := enabled;
      SaveStore();
      if bgEnabled {
        EnsureTray();
      } else {
        DestroyTray();
      }
      ok := true;
    }

    /**
     * The window `close` event: cancelled, with the window hidden and the
     * tray ensured, iff not force-quitting and background presence is on.
     */
    method OnWindowClose() returns (prevented: bool)
      requires Valid()
      modifies this`window, this`trayCreating, this`creationsStarted
      ensures Valid()
      ensures prevented == (!forceQuit && bgEnabled)
      ensures prevented ==> window == Hidden && trayCreating == (old(trayCreating) || !tray)
      ensures !prevented ==> window == Closed && trayCreating == old(trayCreating)
    {
      prevented := !forceQuit && bgEnabled;
      if prevented {
        EnsureTray();
        window := Hidden;
      } else {
        window := Closed;
      }
    }

    /** `before-quit`: every later close proceeds. */
    method BeforeQuit()
      modifies this`forceQuit
      ensures forceQuit
    {
      forceQuit := true;
    }

    /** The tray menu's Quit item: force quitting, then app.quit(). */
    method TrayQuit()
      modifies this`forceQuit, this`quitRequested
      ensures forceQuit && quitRequested
    {
      forceQuit := true;
      quitRequested := true;
      BeforeQuit();
    }

    /**
     * `window-all-closed`: quit iff the platform is not macOS and background
     * presence is off (app.quit() raises before-quit).
     */
    method OnWindowAllClosed() returns (quit: bool)
      modifies this`forceQuit, this`quitRequested
      ensures quit == (platform != Darwin && !bgEnabled)
      ensures quit ==> forceQuit && quitRequested
      ensures !quit ==> forceQuit == old(forceQuit) && quitRequested == old(quitRequested)
    {
      quit := platform != Darwin && !bgEnabled;
      if quit {
        quitRequested := true;
        BeforeQuit();
      }
    }

    /** The `show-notification` handler. */
    method ShowNotification(payload: Option<NotifyRequest>, caps: NativeCaps) returns (ok: bool)
      modifies this`notices
      ensures ok == ShowNotificationRequest(payload, platform, caps).0
      ensures notices == old(notices) +
        (if payload.Some? then [ShowNotificationRequest(payload, platform, caps).1.value] else [])
    {
      var res := ShowNotificationRequest(payload, platform, caps);
      ok := res.0;
      if res.1.Some? {
        notices := notices + [res.1.value];
      }
    }
  }

  /**
   * Background presence switched off while the tray's icon is still loading:
   * destroyTray finds no tray, the pending creation completes, and a tray
   * exists with background presence off.
   */
  method TrayOutlivesDisable() returns (h: Host)
    ensures h.Valid() && h.tray && !h.bgEnabled
  {
    h := new Host.Start(Absent, Win32, 0, (s: string) => None);
    var ok := h.SetBgNotificationsEnabled(true);
    ok := h.SetBgNotificationsEnabled(false);
    h.TraySettled(ExeIcon(true));
  }

  /** After before-quit a window close is never intercepted, whatever bgEnabled says. */
  method QuitThenCloseProceeds(h: Host) returns (prevented: bool)
    requires h.Valid()
    modifies h
    ensures !prevented && h.window == Closed
  {
    h.BeforeQuit();
    prevented := h.OnWindowClose();
  }
}
