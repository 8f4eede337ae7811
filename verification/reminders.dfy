/**
 * The reminder record shared by the host process (main.cjs) and the UI
 * process (src/App.jsx), and the operations both apply to a reminder list.
 */
module Reminders {

  datatype Option<+T> = None | Some(value: T)

  /**
   * One reminder. `time` is the stored timestamp text; the empty string
   * stands for every falsy value the source tests with `!r.time`.
   * `nodeId`/`routineId` are weak back-references (None for null).
   */
  datatype Reminder = Reminder(
    id: string,
    title: string,
    note: string,
    time: string,
    enabled: bool,
    fired: bool,
    nodeId: Option<string>,
    routineId: Option<string>)

  /** `new Date(text).getTime()`: milliseconds since the epoch, or None for NaN. */
  type TimeParser = string -> Option<int>

  /** The instant a reminder is due, if its time is present and parses. */
  function When(r: Reminder, parse: TimeParser): (w: Option<int>)
    ensures r.time == "" ==> w == None
    ensures r.time != "" ==> w == parse(r.time)
  {
    if r.time == "" then None else parse(r.time)
  }

  /** The filter both schedulers apply before arming a timer. */
  predicate Armable(r: Reminder, parse: TimeParser)
  {
    r.enabled && !r.fired && When(r, parse).Some?
  }

  /** The delay a timer is armed with: `when - now`, or 0 when already due. */
  function DelayUntil(when: int, now: int): (d: nat)
    ensures when > now ==> d == when - now
    ensures when <= now ==> d == 0
  {
    if when - now <= 0 then 0 else when - now
  }

  /** JavaScript's `s || fallback` on a string. */
  function OrDefault(s: string, fallback: string): (r: string)
    ensures r == "" ==> fallback == ""
    ensures s != "" ==> r == s
    ensures s == "" ==> r == fallback
  {
    if s == "" then fallback else s
  }

  predicate UniqueIds(rs: seq<Reminder>)
  {
    forall i, j :: 0 <= i < j < |rs| ==> rs[i].id != rs[j].id
  }

  /** `rs.find(x => x.id === id)`: the first reminder carrying `id`. */
  function Find(rs: seq<Reminder>, id: string): (found: Option<Reminder>)
    ensures found.None? <==> forall k :: 0 <= k < |rs| ==> rs[k].id != id
    ensures found.Some? ==>
      exists k :: 0 <= k < |rs| && rs[k] == found.value && found.value.id == id &&
        forall j :: 0 <= j < k ==> rs[j].id != id
  {
    if rs == [] then None
    else if rs[0].id == id then Some(rs[0])
    else
      var rest := Find(rs[1..], id);
      assert forall k :: 1 <= k < |rs| ==> rs[k] == rs[1..][k - 1];
      rest
  }

  /** `rs.map(x => x.id === id ? { ...x, fired: true } : x)`. */
  function MarkFired(rs: seq<Reminder>, id: string): (out: seq<Reminder>)
    ensures |out| == |rs|
    ensures forall k :: 0 <= k < |rs| ==> out[k].fired == (rs[k].fired || rs[k].id == id)
    ensures forall k :: 0 <= k < |rs| ==> out[k].(fired := rs[k].fired) == rs[k]
  {
    seq(|rs|, k requires 0 <= k < |rs| => if rs[k].id == id then rs[k].(fired := true) else rs[k])
  }

  /** Marking an id that no reminder carries changes nothing. */
  lemma MarkFiredAbsent(rs: seq<Reminder>, id: string)
    requires forall k :: 0 <= k < |rs| ==> rs[k].id != id
    ensures MarkFired(rs, id) == rs
  {
    var out := MarkFired(rs, id);
    assert forall k :: 0 <= k < |rs| ==> out[k] == rs[k];
  }

  /** Marking is idempotent: a second fired event for the same id is unobservable. */
  lemma MarkFiredIdempotent(rs: seq<Reminder>, id: string)
    ensures MarkFired(MarkFired(rs, id), id) == MarkFired(rs, id)
  {
    var once := MarkFired(rs, id);
    var twice := MarkFired(once, id);
    forall k | 0 <= k < |rs| ensures twice[k] == once[k] {
      assert once[k].id == rs[k].id;
    }
  }

  /**
   * Marks for two ids commute, so a local fire and a host fired event
   * reach the same list whichever is applied first.
   */
  lemma MarkFiredCommutes(rs: seq<Reminder>, a: string, b: string)
    ensures MarkFired(MarkFired(rs, a), b) == MarkFired(MarkFired(rs, b), a)
  {
    var ab := MarkFired(MarkFired(rs, a), b);
    var ba := MarkFired(MarkFired(rs, b), a);
    forall k | 0 <= k < |rs| ensures ab[k] == ba[k] {
      assert MarkFired(rs, a)[k].id == rs[k].id;
      assert MarkFired(rs, b)[k].id == rs[k].id;
    }
  }
}
