/**
 * The UI process's own reminder handling in src/App.jsx: the scheduling
 * effect that arms a timer per live reminder, the local fire, the
 * reconciliation with the host's `reminder-fired` events and the start-up
 * hydration from the host.
 */
module UiScheduler {
  import opened Reminders
  import opened Notify
  import opened Lists
  import HostScheduler

  /**
   * One setTimeout call of the scheduling effect. `tracked` says whether it
   * was pushed onto the effect's `timers` array, which only happens for a
   * positive delay.
   */
  datatype UiTimer = UiTimer(id: string, delay: nat, tracked: bool)

  /** The timer the effect arms for one live reminder. */
  function TimerFor(r: Reminder, now: int, parse: TimeParser): (t: UiTimer)
    requires Armable(r, parse)
    ensures t.id == r.id
    ensures t.tracked <==> t.delay > 0
    ensures t.tracked <==> When(r, parse).value > now
    ensures t.delay == DelayUntil(When(r, parse).value, now)
  {
    var ms := When(r, parse).value - now;
    UiTimer(r.id, DelayUntil(When(r, parse).value, now), ms > 0)
  }

  /** Every setTimeout call of one run of the effect, in list order. */
  function Plan(rs: seq<Reminder>, now: int, parse: TimeParser): seq<UiTimer>
    decreases |rs|
  {
    if rs == [] then []
    else
      var r := rs[|rs| - 1];
      Plan(rs[..|rs| - 1], now, parse) + (if Armable(r, parse) then [TimerFor(r, now, parse)] else [])
  }

  predicate IsTracked(t: UiTimer)
  {
    t.tracked
  }

  predicate IsUntracked(t: UiTimer)
  {
    !t.tracked
  }

  /**
   * The body of the scheduling effect: skip reminders that are disabled,
   * fired, without a time or with an unparseable one; arm the rest, and push
   * only the timers with a positive delay onto `timers`.
   */
  method ArmReminders(rs: seq<Reminder>, now: int, parse: TimeParser)
    returns (armed: seq<UiTimer>, timers: seq<UiTimer>)
    ensures armed == Plan(rs, now, parse)
    ensures timers == Filter(armed, IsTracked)
  {
    armed, timers := [], [];
    var i := 0;
    while i < |rs|
      invariant 0 <= i <= |rs|
      invariant armed == Plan(rs[..i], now, parse)
      invariant timers == Filter(armed, IsTracked)
    {
      var r := rs[i];
      PlanStep(rs, i, now, parse);
      if r.enabled && !r.fired && r.time != "" {
        var when := parse(r.time);
        if when.Some? {
          var ms := when.value - now;
          var t;
          if ms <= 0 {
            t := UiTimer(r.id, 0, false);
          } else {
            t := UiTimer(r.id, ms, true);
          }
          assert t == TimerFor(r, now, parse);
          FilterSnoc(armed, t, IsTracked);
          armed := armed + [t];
          if ms > 0 {
            timers := timers + [t];
          }
        }
      }
      i := i + 1;
    }
    assert rs[..i] == rs;
  }

  lemma PlanStep(rs: seq<Reminder>, i: nat, now: int, parse: TimeParser)
    requires i < |rs|
    ensures Plan(rs[..i + 1], now, parse) ==
      Plan(rs[..i], now, parse) + (if Armable(rs[i], parse) then [TimerFor(rs[i], now, parse)] else [])
  {
    assert rs[..i + 1][..i] == rs[..i];
  }

  /** The timers still armed after the effect's cleanup, which only clears `timers`. */
  function SurvivingCleanup(armed: seq<UiTimer>): seq<UiTimer>
  {
    Filter(armed, IsUntracked)
  }

  /** The effect arms a timer for exactly the live reminders, each with its own delay. */
  lemma {:induction false} PlanMembers(rs: seq<Reminder>, now: int, parse: TimeParser)
    ensures forall t :: t in Plan(rs, now, parse) ==>
      exists k :: 0 <= k < |rs| && Armable(rs[k], parse) && t == TimerFor(rs[k], now, parse)
    ensures forall k :: 0 <= k < |rs| && Armable(rs[k], parse) ==>
      TimerFor(rs[k], now, parse) in Plan(rs, now, parse)
  {
    if rs != [] {
      var pre := rs[..|rs| - 1];
      PlanMembers(pre, now, parse);
      assert forall k :: 0 <= k < |pre| ==> pre[k] == rs[k];
    }
  }

  /**
   * The cleanup never cancels a past-due reminder's timer, and everything it
   * leaves armed has delay 0.
   */
  lemma CleanupSparesPastDue(rs: seq<Reminder>, now: int, parse: TimeParser)
    ensures forall t :: t in SurvivingCleanup(Plan(rs, now, parse)) ==> t.delay == 0
    ensures forall k :: 0 <= k < |rs| && Armable(rs[k], parse) && When(rs[k], parse).value <= now ==>
      TimerFor(rs[k], now, parse) in SurvivingCleanup(Plan(rs, now, parse))
  {
    PlanMembers(rs, now, parse);
  }

  /**
   * The UI arms a timer for exactly the ids the host registers for the same
   * list and `now`; with unique ids the delays agree too.
   */
  lemma PlanMatchesHost(rs: seq<Reminder>, now: int, parse: TimeParser, id: string)
    ensures (exists t :: t in Plan(rs, now, parse) && t.id == id) <==> id in HostScheduler.Registry(rs, now, parse)
    ensures UniqueIds(rs) ==> forall t :: t in Plan(rs, now, parse) && t.id == id ==>
      HostScheduler.Registry(rs, now, parse)[id] == t.delay
  {
    PlanMembers(rs, now, parse);
    HostScheduler.RegistryKeys(rs, now, parse, id);
    if exists k :: 0 <= k < |rs| && rs[k].id == id && Armable(rs[k], parse) {
      var k :| 0 <= k < |rs| && rs[k].id == id && Armable(rs[k], parse);
      assert TimerFor(rs[k], now, parse) in Plan(rs, now, parse);
    }
    if UniqueIds(rs) {
      forall t | t in Plan(rs, now, parse) && t.id == id
        ensures HostScheduler.Registry(rs, now, parse)[id] == t.delay
      {
        var k :| 0 <= k < |rs| && Armable(rs[k], parse) && t == TimerFor(rs[k], now, parse);
        HostScheduler.RegistryArmsEach(rs, now, parse, k);
      }
    }
  }

  // ---------------------------------------------------------------------
  // Firing and reconciliation

  /** What a local fire does: the notification it attempts and the list it leaves. */
  datatype LocalFire = LocalFire(title: string, body: string, delivery: UiDelivery, reminders: seq<Reminder>)

  /**
   * fireAndMark for the reminder `r` the timer captured: notify with its
   * title (default "Reminder") and note, then mark `r.id` fired in the
   * current list, whichever channel took the notification or none.
   */
  function FireAndMark(current: seq<Reminder>, r: Reminder, caps: UiCaps): (f: LocalFire)
    ensures f.title != "" && f.body == r.note
    ensures r.title != "" ==> f.title == r.title
    ensures r.title == "" ==> f.title == "Reminder"
    ensures f.delivery == UiDispatch(caps)
    ensures |f.reminders| == |current|
    ensures forall k :: 0 <= k < |current| ==>
      f.reminders[k].fired == (current[k].fired || current[k].id == r.id) &&
      f.reminders[k].(fired := current[k].fired) == current[k]
  {
    LocalFire(OrDefault(r.title, "Reminder"), r.note, UiDispatch(caps), MarkFired(current, r.id))
  }

  /** The list a fire leaves does not depend on how, or whether, the notification was shown. */
  lemma FireMarksWhateverTheDelivery(current: seq<Reminder>, r: Reminder, a: UiCaps, b: UiCaps)
    ensures FireAndMark(current, r, a).reminders == FireAndMark(current, r, b).reminders
  {
  }

  /**
   * The `reminder-fired` listener: a missing or empty id is ignored;
   * otherwise the matching reminders are marked fired and nothing else
   * changes. It returns only a list: it never notifies.
   */
  function OnReminderFired(rs: seq<Reminder>, payloadId: Option<string>): (r: seq<Reminder>)
    ensures payloadId.None? || payloadId == Some("") ==> r == rs
    ensures |r| == |rs|
    ensures payloadId.Some? && payloadId.value != "" ==> forall k :: 0 <= k < |rs| ==>
      r[k].fired == (rs[k].fired || rs[k].id == payloadId.value) &&
      r[k].(fired := rs[k].fired) == rs[k]
  {
    if payloadId.None? || payloadId.value == "" then rs else MarkFired(rs, payloadId.value)
  }

  /**
   * When both processes fire the same reminder, the host's event arriving
   * after the local fire leaves the UI list as the local fire left it.
   */
  lemma DuplicateFireUnobservable(current: seq<Reminder>, r: Reminder, caps: UiCaps)
    requires r.id != ""
    ensures OnReminderFired(FireAndMark(current, r, caps).reminders, Some(r.id)) ==
      FireAndMark(current, r, caps).reminders
  {
    MarkFiredIdempotent(current, r.id);
  }

  /** After reconciliation the re-run effect arms nothing for the fired id. */
  lemma ReconciledNotRearmed(rs: seq<Reminder>, id: string, now: int, parse: TimeParser)
    requires id != ""
    ensures forall t :: t in Plan(OnReminderFired(rs, Some(id)), now, parse) ==> t.id != id
  {
    PlanMembers(OnReminderFired(rs, Some(id)), now, parse);
  }

  /**
   * Start-up hydration: the host's list replaces the local one only when
   * it is an array with at least one reminder.
   */
  function Hydrate(local: seq<Reminder>, fetched: Option<seq<Reminder>>): (r: seq<Reminder>)
    ensures fetched.Some? && fetched.value != [] ==> r == fetched.value
    ensures fetched.None? || fetched == Some([]) ==> r == local
  {
    if fetched.Some? && |fetched.value| > 0 then fetched.value else local
  }
}
