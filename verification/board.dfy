/**
 * The board-state updates of src/App.jsx that create, link and cascade-delete
 * reminders: nodes and their connections, to-dos, the node editor's reminder,
 * routine checks, and the enable toggle. Each is a function from the old
 * lists to the new ones, as the source's `setX(prev => ...)` updaters are.
 * Fresh ids (the source's `uid`) are parameters.
 */
module Board {
  import opened Reminders
  import opened Lists

  datatype Side = LeftSide | RightSide

  datatype Connection = Connection(id: string, from: string, to: string, fromSide: Side, toSide: Side)

  /** A board note; `reminder` is the editor's copy of its reminder (null as None). */
  datatype Node = Node(id: string, title: string, collectionId: Option<string>, reminder: Option<Reminder>)

  datatype Collection = Collection(id: string, title: string)

  datatype Todo = Todo(id: string, title: string, note: string, time: Option<string>, reminderId: Option<string>)

  datatype Routine = Routine(id: string, title: string)

  datatype Board = Board(
    nodes: seq<Node>,
    collections: seq<Collection>,
    connections: seq<Connection>,
    reminders: seq<Reminder>,
    todos: seq<Todo>)

  /** Every connection joins two nodes of the board. */
  ghost predicate ConnectionsResolve(b: Board)
  {
    forall c :: c in b.connections ==>
      (exists n :: n in b.nodes && n.id == c.from) && (exists n :: n in b.nodes && n.id == c.to)
  }

  /** Every back-reference from a to-do or a node names a reminder of the board. */
  ghost predicate BackRefsResolve(b: Board)
  {
    && (forall t :: t in b.todos && t.reminderId.Some? ==>
          exists r :: r in b.reminders && r.id == t.reminderId.value)
    && (forall n :: n in b.nodes && n.reminder.Some? ==>
          exists r :: r in b.reminders && r.id == n.reminder.value.id)
  }

  /** Filtering never duplicates an element, so unique ids stay unique. */
  lemma {:induction false} FilterKeepsUniqueIds(rs: seq<Reminder>, keep: Reminder -> bool)
    requires UniqueIds(rs)
    ensures UniqueIds(Filter(rs, keep))
  {
    if rs != [] {
      FilterKeepsUniqueIds(rs[1..], keep);
      var rest := Filter(rs[1..], keep);
      assert forall x :: x in rest ==> x in rs[1..];
      assert forall x :: x in rs[1..] ==> x.id != rs[0].id;
      assert Filter(rs, keep) == (if keep(rs[0]) then [rs[0]] else []) + rest;
    }
  }

  // ---------------------------------------------------------------------
  // Nodes and collections

  /**
   * removeNode: the node goes, with every connection that starts or ends at
   * it and every reminder whose nodeId is that node; collections and to-dos
   * are untouched.
   */
  function RemoveNode(b: Board, id: string): (r: Board)
    ensures forall n :: n in r.nodes <==> n in b.nodes && n.id != id
    ensures forall c :: c in r.connections <==> c in b.connections && c.from != id && c.to != id
    ensures forall x :: x in r.reminders <==> x in b.reminders && x.nodeId != Some(id)
    ensures r.collections == b.collections && r.todos == b.todos
  {
    b.(nodes := Filter(b.nodes, (n: Node) => n.id != id),
       connections := Filter(b.connections, (c: Connection) => c.from != id && c.to != id),
       reminders := Filter(b.reminders, (x: Reminder) => x.nodeId != Some(id)))
  }

  /** Removing a node never leaves a connection pointing at a missing node. */
  lemma RemoveNodeKeepsConnectionsResolved(b: Board, id: string)
    requires ConnectionsResolve(b)
    ensures ConnectionsResolve(RemoveNode(b, id))
  {
    var r := RemoveNode(b, id);
    forall c | c in r.connections
      ensures (exists n :: n in r.nodes && n.id == c.from) && (exists n :: n in r.nodes && n.id == c.to)
    {
      var f :| f in b.nodes && f.id == c.from;
      var t :| t in b.nodes && t.id == c.to;
      assert f in r.nodes && t in r.nodes;
    }
  }

  /** removeCollection: the collection and the nodes placed in it go; nothing else changes. */
  function RemoveCollection(b: Board, id: string): (r: Board)
    ensures forall c :: c in r.collections <==> c in b.collections && c.id != id
    ensures forall n :: n in r.nodes <==> n in b.nodes && n.collectionId != Some(id)
    ensures r.connections == b.connections && r.reminders == b.reminders && r.todos == b.todos
  {
    b.(collections := Filter(b.collections, (c: Collection) => c.id != id),
       nodes := Filter(b.nodes, (n: Node) => n.collectionId != Some(id)))
  }

  /**
   * Unlike removeNode, removeCollection leaves the removed nodes'
   * connections behind: a connection into a node of the collection survives
   * while its node does not.
   */
  lemma RemoveCollectionLeavesDanglingConnection()
    ensures var inside := Node("n", "", Some("col"), None);
      var outside := Node("m", "", None, None);
      var b := Board([outside, inside], [Collection("col", "")], [Connection("c", "m", "n", RightSide, LeftSide)], [], []);
      ConnectionsResolve(b) && !ConnectionsResolve(RemoveCollection(b, "col"))
  {
    var inside := Node("n", "", Some("col"), None);
    var outside := Node("m", "", None, None);
    var conn := Connection("c", "m", "n", RightSide, LeftSide);
    var b := Board([outside, inside], [Collection("col", "")], [conn], [], []);
    assert inside in b.nodes && outside in b.nodes;
    var r := RemoveCollection(b, "col");
    assert conn in r.connections;
    assert forall n :: n in r.nodes ==> n == outside;
  }

  // ---------------------------------------------------------------------
  // Connections

  predicate SameLink(a: Connection, b: Connection)
  {
    a.from == b.from && a.to == b.to && a.fromSide == b.fromSide && a.toSide == b.toSide
  }

  predicate NoDuplicateLinks(conns: seq<Connection>)
  {
    forall i, j :: 0 <= i < j < |conns| ==> !SameLink(conns[i], conns[j])
  }

  /** The de-duplicating append both connection-creating paths use. */
  function AddConnection(conns: seq<Connection>, c: Connection): (r: seq<Connection>)
    ensures (exists x :: x in conns && SameLink(x, c)) ==> r == conns
    ensures !(exists x :: x in conns && SameLink(x, c)) ==> r == conns + [c]
    ensures exists x :: x in r && SameLink(x, c)
  {
    if exists x :: x in conns && SameLink(x, c) then conns
    else
      assert c in conns + [c];
      conns + [c]
  }

  /** De-duplication keeps the link list free of repeats. */
  lemma AddConnectionKeepsNoDuplicates(conns: seq<Connection>, c: Connection)
    ensures NoDuplicateLinks(conns) ==> NoDuplicateLinks(AddConnection(conns, c))
  {
    if NoDuplicateLinks(conns) && !(exists x :: x in conns && SameLink(x, c)) {
      var r := conns + [c];
      forall i, j | 0 <= i < j < |r| ensures !SameLink(r[i], r[j]) {
        if j == |conns| {
          assert r[i] in conns;
        }
      }
    }
  }

  /** Creating the same link twice, under any two fresh ids, is creating it once. */
  lemma AddConnectionTwice(conns: seq<Connection>, c: Connection, again: Connection)
    requires SameLink(c, again)
    ensures AddConnection(AddConnection(conns, c), again) == AddConnection(conns, c)
  {
    var once := AddConnection(conns, c);
    var x :| x in once && SameLink(x, c);
    assert SameLink(x, again);
  }

  /**
   * Finishing a drag between two side handles: only a right-to-left link
   * between two different nodes is created, and never a duplicate.
   */
  function ConnectByDrag(conns: seq<Connection>, fromId: string, fromSide: Side, toId: string, toSide: Side, newId: string)
    : (r: seq<Connection>)
    ensures fromId == toId || fromSide != RightSide || toSide != LeftSide ==> r == conns
    ensures fromId != toId && fromSide == RightSide && toSide == LeftSide ==>
      exists x :: x in r && x.from == fromId && x.to == toId && x.fromSide == RightSide && x.toSide == LeftSide
    ensures fromId != toId && fromSide == RightSide && toSide == LeftSide ==>
      r == conns || r == conns + [Connection(newId, fromId, toId, RightSide, LeftSide)]
    ensures NoDuplicateLinks(conns) ==> NoDuplicateLinks(r)
  {
    if fromId != toId && fromSide == RightSide && toSide == LeftSide then
      var c := Connection(newId, fromId, toId, fromSide, toSide);
      AddConnectionKeepsNoDuplicates(conns, c);
      AddConnection(conns, c)
    else
      conns
  }

  /** A side chosen in the popover, or its default. */
  function GetSide(o: Option<Side>, fallback: Side): Side
  {
    if o.Some? then o.value else fallback
  }

  /**
   * The connections popover's Create: no target selected changes nothing
   * (the source shows an alert); sides default to right and left; any pair
   * of sides and a link to the node itself are allowed.
   */
  function ConnectFromMenu(conns: seq<Connection>, nodeId: string, target: string,
                           fromSide: Option<Side>, toSide: Option<Side>, newId: string)
    : (r: seq<Connection>)
    ensures target == "" ==> r == conns
    ensures target != "" ==> exists x :: x in r && x.from == nodeId && x.to == target
    ensures target != "" && fromSide.None? && toSide.None? ==>
      exists x :: x in r && x.from == nodeId && x.to == target && x.fromSide == RightSide && x.toSide == LeftSide
    ensures target != "" ==>
      r == AddConnection(conns, Connection(newId, nodeId, target, GetSide(fromSide, RightSide), GetSide(toSide, LeftSide)))
    ensures target != "" && fromSide.Some? && toSide.Some? ==>
      exists x :: x in r && x.from == nodeId && x.to == target && x.fromSide == fromSide.value && x.toSide == toSide.value
    ensures NoDuplicateLinks(conns) ==> NoDuplicateLinks(r)
  {
    if target == "" then conns
    else
      var c := Connection(newId, nodeId, target, GetSide(fromSide, RightSide), GetSide(toSide, LeftSide));
      AddConnectionKeepsNoDuplicates(conns, c);
      AddConnection(conns, c)
  }

  // ---------------------------------------------------------------------
  // To-dos

  /**
   * addTodoTask: append the to-do; when a time is given (`iso`, the
   * converted datetime) also append an enabled, unfired reminder with the
   * fresh id `remId` and link it from the to-do.
   */
  function AddTodoTask(b: Board, title: string, note: string, iso: Option<string>, todoId: string, remId: string)
    : (r: Board)
    ensures |r.todos| == |b.todos| + 1 && r.todos[..|b.todos|] == b.todos
    ensures var t := r.todos[|b.todos|];
      t.id == todoId && t.title == title && t.note == note && t.time == iso &&
      (t.reminderId.Some? <==> iso.Some?)
    ensures iso.None? ==> r.reminders == b.reminders
    ensures iso.Some? ==> |r.reminders| == |b.reminders| + 1 && r.reminders[..|b.reminders|] == b.reminders
    ensures iso.Some? ==> var x := r.reminders[|b.reminders|];
      x.id == remId && r.todos[|b.todos|].reminderId == Some(remId) &&
      x.title == title && x.note == note &&
      x.enabled && !x.fired && x.time == iso.value && x.nodeId.None? && x.routineId.None?
    ensures r.nodes == b.nodes && r.connections == b.connections && r.collections == b.collections
  {
    if iso.Some? then
      var x := Reminder(remId, title, note, iso.value, true, false, None, None);
      b.(reminders := b.reminders + [x], todos := b.todos + [Todo(todoId, title, note, iso, Some(remId))])
    else
      b.(todos := b.todos + [Todo(todoId, title, note, None, None)])
  }

  /** A to-do created with a time brings a live reminder into the board's list. */
  lemma AddTodoTaskArmsReminder(b: Board, title: string, note: string, iso: string, todoId: string, remId: string,
                                parse: TimeParser)
    requires iso != "" && parse(iso).Some?
    ensures var r := AddTodoTask(b, title, note, Some(iso), todoId, remId);
      exists x :: x in r.reminders && x.id == remId && Armable(x, parse)
  {
    var r := AddTodoTask(b, title, note, Some(iso), todoId, remId);
    assert r.reminders[|b.reminders|] in r.reminders;
  }

  /** `todos.find(t => t.id === id)`. */
  function FindTodo(todos: seq<Todo>, id: string): (found: Option<Todo>)
    ensures found.None? <==> forall t :: t in todos ==> t.id != id
    ensures found.Some? ==>
      exists k :: 0 <= k < |todos| && todos[k] == found.value && found.value.id == id &&
        forall j :: 0 <= j < k ==> todos[j].id != id
  {
    if todos == [] then None
    else if todos[0].id == id then Some(todos[0])
    else
      assert forall t :: t in todos ==> t == todos[0] || t in todos[1..];
      FindTodo(todos[1..], id)
  }

  /**
   * removeTodoTask: every to-do with that id goes; when the first of them
   * links a reminder, every reminder with that id goes too.
   */
  function RemoveTodoTask(b: Board, id: string): (r: Board)
    ensures forall t :: t in r.todos <==> t in b.todos && t.id != id
    ensures var task := FindTodo(b.todos, id);
      task.Some? && task.value.reminderId.Some? && task.value.reminderId.value != "" ==>
        forall x :: x in r.reminders <==> x in b.reminders && x.id != task.value.reminderId.value
    ensures var task := FindTodo(b.todos, id);
      !(task.Some? && task.value.reminderId.Some? && task.value.reminderId.value != "") ==>
        r.reminders == b.reminders
    ensures r.nodes == b.nodes && r.connections == b.connections && r.collections == b.collections
  {
    var task := FindTodo(b.todos, id);
    var reminders :=
      if task.Some? && task.value.reminderId.Some? && task.value.reminderId.value != "" then
        var rid := task.value.reminderId.value;
        Filter(b.reminders, (x: Reminder) => x.id != rid)
      else b.reminders;
    b.(reminders := reminders, todos := Filter(b.todos, (t: Todo) => t.id != id))
  }

  // ---------------------------------------------------------------------
  // Reminder list buttons

  /** The On/Off button: flip `enabled` on the reminders with that id, nothing else. */
  function ToggleEnabled(rs: seq<Reminder>, id: string): (r: seq<Reminder>)
    ensures |r| == |rs|
    ensures forall k :: 0 <= k < |rs| ==>
      r[k].enabled == (if rs[k].id == id then !rs[k].enabled else rs[k].enabled) &&
      r[k].(enabled := rs[k].enabled) == rs[k]
  {
    seq(|rs|, k requires 0 <= k < |rs| => if rs[k].id == id then rs[k].(enabled := !rs[k].enabled) else rs[k])
  }

  /** Pressing the button twice restores the list. */
  lemma ToggleEnabledTwice(rs: seq<Reminder>, id: string)
    ensures ToggleEnabled(ToggleEnabled(rs, id), id) == rs
  {
    var once := ToggleEnabled(rs, id);
    var twice := ToggleEnabled(once, id);
    forall k | 0 <= k < |rs| ensures twice[k] == rs[k] {
      assert once[k].id == rs[k].id;
    }
  }

  /** Toggling never touches `fired`: a fired reminder switched back on stays fired. */
  lemma ToggleEnabledKeepsFired(rs: seq<Reminder>, id: string, k: nat)
    requires k < |rs|
    ensures ToggleEnabled(rs, id)[k].fired == rs[k].fired
  {
    assert ToggleEnabled(rs, id)[k].(enabled := rs[k].enabled) == rs[k];
  }

  /**
   * The Delete button: the reminders with that id go, to-dos linking it get
   * `reminderId: null`, nodes holding it get `reminder: null`.
   */
  function DeleteReminder(b: Board, id: string): (r: Board)
    ensures forall x :: x in r.reminders <==> x in b.reminders && x.id != id
    ensures |r.todos| == |b.todos| && forall k :: 0 <= k < |b.todos| ==>
      r.todos[k] == (if b.todos[k].reminderId == Some(id) then b.todos[k].(reminderId := None) else b.todos[k])
    ensures |r.nodes| == |b.nodes| && forall k :: 0 <= k < |b.nodes| ==>
      r.nodes[k] == (if b.nodes[k].reminder.Some? && b.nodes[k].reminder.value.id == id
                     then b.nodes[k].(reminder := None) else b.nodes[k])
    ensures r.connections == b.connections && r.collections == b.collections
  {
    b.(reminders := Filter(b.reminders, (x: Reminder) => x.id != id),
       todos := seq(|b.todos|, k requires 0 <= k < |b.todos| =>
         if b.todos[k].reminderId == Some(id) then b.todos[k].(reminderId := None) else b.todos[k]),
       nodes := seq(|b.nodes|, k requires 0 <= k < |b.nodes| =>
         if b.nodes[k].reminder.Some? && b.nodes[k].reminder.value.id == id
         then b.nodes[k].(reminder := None) else b.nodes[k]))
  }

  /** Deleting a reminder never leaves a to-do or a node pointing at it. */
  lemma DeleteReminderKeepsBackRefs(b: Board, id: string)
    requires BackRefsResolve(b)
    ensures BackRefsResolve(DeleteReminder(b, id))
  {
    var r := DeleteReminder(b, id);
    forall t | t in r.todos && t.reminderId.Some?
      ensures exists x :: x in r.reminders && x.id == t.reminderId.value
    {
      var k :| 0 <= k < |r.todos| && r.todos[k] == t;
      assert b.todos[k] in b.todos && t == b.todos[k];
      var x :| x in b.reminders && x.id == t.reminderId.value;
      assert x in r.reminders;
    }
    forall n | n in r.nodes && n.reminder.Some?
      ensures exists x :: x in r.reminders && x.id == n.reminder.value.id
    {
      var k :| 0 <= k < |r.nodes| && r.nodes[k] == n;
      assert b.nodes[k] in b.nodes && n == b.nodes[k];
      var x :| x in b.reminders && x.id == n.reminder.value.id;
      assert x in r.reminders;
    }
  }

  // ---------------------------------------------------------------------
  // The node editor

  /**
   * saveNodeEditor's reminder update. No draft reminder: drop every reminder
   * of the node. Otherwise the draft, with nodeId set to the node, replaces
   * every entry with its id in place, or is appended when there is none.
   */
  function UpsertNodeReminder(prev: seq<Reminder>, nodeId: string, draft: Option<Reminder>): (r: seq<Reminder>)
    ensures draft.None? ==> forall x :: x in r <==> x in prev && x.nodeId != Some(nodeId)
    ensures draft.Some? ==> draft.value.(nodeId := Some(nodeId)) in r
    ensures draft.Some? && (exists x :: x in prev && x.id == draft.value.id) ==>
      |r| == |prev| && forall k :: 0 <= k < |prev| ==>
        r[k] == (if prev[k].id == draft.value.id then draft.value.(nodeId := Some(nodeId)) else prev[k])
    ensures draft.Some? && !(exists x :: x in prev && x.id == draft.value.id) ==>
      r == prev + [draft.value.(nodeId := Some(nodeId))]
  {
    if draft.None? then Filter(prev, (x: Reminder) => x.nodeId != Some(nodeId))
    else
      var rem := draft.value.(nodeId := Some(nodeId));
      if exists x :: x in prev && x.id == rem.id then
        var k :| 0 <= k < |prev| && prev[k].id == rem.id;
        var out := seq(|prev|, j requires 0 <= j < |prev| => if prev[j].id == rem.id then rem else prev[j]);
        assert out[k] == rem;
        out
      else prev + [rem]
  }

  /** The upsert keeps reminder ids unique. */
  lemma UpsertKeepsIdsUnique(prev: seq<Reminder>, nodeId: string, draft: Option<Reminder>)
    requires UniqueIds(prev)
    ensures UniqueIds(UpsertNodeReminder(prev, nodeId, draft))
  {
    if draft.None? {
      FilterKeepsUniqueIds(prev, (x: Reminder) => x.nodeId != Some(nodeId));
    } else if !(exists x :: x in prev && x.id == draft.value.id) {
      var r := UpsertNodeReminder(prev, nodeId, draft);
      forall i, j | 0 <= i < j < |r| ensures r[i].id != r[j].id {
        if j == |prev| {
          assert r[i] in prev;
        }
      }
    }
  }

  /**
   * saveNodeEditor: the edited node takes the draft's title and reminder
   * (its other fields are display state, not modelled), and the reminder
   * list is upserted.
   */
  function SaveNodeEditor(b: Board, nodeId: string, title: string, draft: Option<Reminder>): (r: Board)
    ensures |r.nodes| == |b.nodes| && forall k :: 0 <= k < |b.nodes| && b.nodes[k].id != nodeId ==> r.nodes[k] == b.nodes[k]
    ensures forall k :: 0 <= k < |b.nodes| && b.nodes[k].id == nodeId ==>
      r.nodes[k] == b.nodes[k].(title := title, reminder := draft)
    ensures r.reminders == UpsertNodeReminder(b.reminders, nodeId, draft)
    ensures r.connections == b.connections && r.todos == b.todos && r.collections == b.collections
  {
    b.(nodes := seq(|b.nodes|, k requires 0 <= k < |b.nodes| =>
         if b.nodes[k].id == nodeId then b.nodes[k].(title := title, reminder := draft) else b.nodes[k]),
       reminders := UpsertNodeReminder(b.reminders, nodeId, draft))
  }

  /**
   * The node editor opens on the node's own copy of its reminder, which a
   * fire never updates (a fire marks only the reminder list). Saving the
   * editor after the reminder fired writes that stale copy over the fired
   * entry, so the reminder is live again and the schedulers arm it anew.
   */
  lemma SaveAfterFireRevivesReminder(b: Board, k: nat, parse: TimeParser)
    requires k < |b.nodes| && b.nodes[k].reminder.Some?
    requires var r := b.nodes[k].reminder.value;
      r.nodeId == Some(b.nodes[k].id) && r in b.reminders && Armable(r, parse)
    ensures var n := b.nodes[k];
      var r := n.reminder.value;
      var fired := b.(reminders := MarkFired(b.reminders, r.id));
      var saved := SaveNodeEditor(fired, n.id, n.title, n.reminder);
      && (forall x :: x in fired.reminders && x.id == r.id ==> x.fired)
      && (forall x :: x in saved.reminders && x.id == r.id ==> x == r)
      && r in saved.reminders && Armable(r, parse)
  {
    var n := b.nodes[k];
    var r := n.reminder.value;
    var marked := MarkFired(b.reminders, r.id);
    var i :| 0 <= i < |b.reminders| && b.reminders[i] == r;
    assert marked[i].id == r.id;
    assert r.(nodeId := Some(n.id)) == r;
  }

  // ---------------------------------------------------------------------
  // Routines

  /** `time.slice(0, 10)`. */
  function DatePart(time: string): (d: string)
    ensures |d| == if |time| < 10 then |time| else 10
    ensures d <= time
  {
    if |time| <= 10 then time else time[..10]
  }

  /** The reminders unchecking or Done removes: that routine's, on that date. */
  predicate OnDate(x: Reminder, routineId: string, key: string)
  {
    x.routineId == Some(routineId) && x.time != "" && DatePart(x.time) == key
  }

  /** With a ten-character date key, "on that date" means the time starts with the key. */
  lemma OnDateIsPrefix(x: Reminder, routineId: string, key: string)
    requires |key| == 10
    ensures OnDate(x, routineId, key) <==> x.routineId == Some(routineId) && key <= x.time
  {
    if key <= x.time {
      assert x.time[..10] == key;
    }
  }

  function RemoveRoutineReminders(rs: seq<Reminder>, routineId: string, key: string): (r: seq<Reminder>)
    ensures forall x :: x in r <==> x in rs && !OnDate(x, routineId, key)
  {
    Filter(rs, (x: Reminder) => !OnDate(x, routineId, key))
  }

  /** Per-date `{ routineId: bool }` maps, as routineChecks and routineDones keep them. */
  type DayFlags = map<string, map<string, bool>>

  function Flag(flags: DayFlags, key: string, routineId: string): bool
  {
    key in flags && routineId in flags[key] && flags[key][routineId]
  }

  function SetFlag(flags: DayFlags, key: string, routineId: string, v: bool): (r: DayFlags)
    ensures Flag(r, key, routineId) == v
    ensures forall k, id :: (k != key || id != routineId) ==> Flag(r, k, id) == Flag(flags, k, id)
  {
    var day := if key in flags then flags[key] else map[];
    flags[key := day[routineId := v]]
  }

  /**
   * toggleRoutineForSelectedDay: flip the check; unchecking removes the
   * routine's reminders on that date, checking leaves the list alone.
   */
  function ToggleRoutineForDay(checks: DayFlags, rs: seq<Reminder>, key: string, routineId: string)
    : (r: (DayFlags, seq<Reminder>))
    ensures Flag(r.0, key, routineId) == !Flag(checks, key, routineId)
    ensures Flag(checks, key, routineId) ==> r.1 == RemoveRoutineReminders(rs, routineId, key)
    ensures !Flag(checks, key, routineId) ==> r.1 == rs
    ensures forall k, id :: (k != key || id != routineId) ==> Flag(r.0, k, id) == Flag(checks, k, id)
  {
    var newVal := !Flag(checks, key, routineId);
    (SetFlag(checks, key, routineId, newVal), if !newVal then RemoveRoutineReminders(rs, routineId, key) else rs)
  }

  /** toggleDoneForSelectedDay: flip Done; marking Done removes the routine's reminders on that date. */
  function ToggleDoneForDay(dones: DayFlags, rs: seq<Reminder>, key: string, routineId: string)
    : (r: (DayFlags, seq<Reminder>))
    ensures Flag(r.0, key, routineId) == !Flag(dones, key, routineId)
    ensures !Flag(dones, key, routineId) ==> r.1 == RemoveRoutineReminders(rs, routineId, key)
    ensures Flag(dones, key, routineId) ==> r.1 == rs
    ensures forall k, id :: (k != key || id != routineId) ==> Flag(r.0, k, id) == Flag(dones, k, id)
  {
    var newVal := !Flag(dones, key, routineId);
    (SetFlag(dones, key, routineId, newVal), if newVal then RemoveRoutineReminders(rs, routineId, key) else rs)
  }

  function FindRoutine(routines: seq<Routine>, id: string): (found: Option<Routine>)
    ensures found.None? <==> forall x :: x in routines ==> x.id != id
    ensures found.Some? ==>
      exists k :: 0 <= k < |routines| && routines[k] == found.value && found.value.id == id &&
        forall j :: 0 <= j < k ==> routines[j].id != id
  {
    if routines == [] then None
    else if routines[0].id == id then Some(routines[0])
    else
      assert forall x :: x in routines ==> x == routines[0] || x in routines[1..];
      FindRoutine(routines[1..], id)
  }

  /**
   * createRoutineReminder: `iso` is the selected day at HH:MM, or None when
   * the date is invalid (the source alerts and changes nothing). Otherwise
   * append an enabled, unfired reminder for the routine titled after it
   * ("Routine" when it is not in that day's list) and check it for `key`.
   */
  function CreateRoutineReminder(rs: seq<Reminder>, checks: DayFlags, dayRoutines: seq<Routine>,
                                 routineId: string, iso: Option<string>, remId: string, key: string)
    : (r: (seq<Reminder>, DayFlags))
    ensures iso.None? ==> r == (rs, checks)
    ensures iso.Some? ==> Flag(r.1, key, routineId)
    ensures iso.Some? ==> forall k, id :: (k != key || id != routineId) ==> Flag(r.1, k, id) == Flag(checks, k, id)
    ensures iso.Some? ==> |r.0| == |rs| + 1 && r.0[..|rs|] == rs
    ensures iso.Some? ==> var x := r.0[|rs|];
      x.id == remId && x.routineId == Some(routineId) && x.nodeId.None? &&
      x.enabled && !x.fired && x.time == iso.value && x.note == "" &&
      x.title == (if FindRoutine(dayRoutines, routineId).Some? then FindRoutine(dayRoutines, routineId).value.title else "Routine")
  {
    if iso.None? then (rs, checks)
    else
      var routine := FindRoutine(dayRoutines, routineId);
      var title := if routine.Some? then routine.value.title else "Routine";
      var x := Reminder(remId, title, "", iso.value, true, false, None, Some(routineId));
      (rs + [x], SetFlag(checks, key, routineId, true))
  }

  /**
   * A reminder created for a routine on a date is exactly undone by
   * unchecking that routine on that date: what is left is what unchecking
   * alone would have left of the old list.
   */
  lemma UncheckUndoesCreate(rs: seq<Reminder>, checks: DayFlags, dayRoutines: seq<Routine>,
                            routineId: string, iso: string, remId: string, key: string)
    requires iso != "" && DatePart(iso) == key
    ensures var created := CreateRoutineReminder(rs, checks, dayRoutines, routineId, Some(iso), remId, key);
      ToggleRoutineForDay(created.1, created.0, key, routineId).1 == RemoveRoutineReminders(rs, routineId, key)
  {
    var created := CreateRoutineReminder(rs, checks, dayRoutines, routineId, Some(iso), remId, key);
    var x := created.0[|rs|];
    assert created.0 == rs + [x];
    FilterSnoc(rs, x, (y: Reminder) => !OnDate(y, routineId, key));
  }
}
