/** Nodes sharing one database: registration, check-ins, the master role and the events that tell every
    node about it (cluster/cluster.go, cluster/cluster_tasks.go, scheduler/scheduler_cluster.go and the
    database function master_role_request). Every SQL statement is one step of its own. */
module Cluster {
  import opened DataRequest
  import opened Wrappers
  import Runs

  datatype Message = MasterAssigned(state: bool) | Other

  // a row of the node table, with the node's events in the order in which they were inserted
  datatype Row = Row(master: bool, running: bool, checkIn: int, events: seq<Message>)

  // a process that runs as a node: its cached master flag, and whether its start is complete
  datatype Process = Process(isMaster: bool, ready: bool)

  datatype State = State(rows: map<Id, Row>, alive: map<Id, Process>)

  const EVENT_CUT_OFF := 3600

  // ---- the steps

  function Replay(events: seq<Message>, isMaster: bool): bool {
    if events == [] then isMaster
    else Replay(events[1..], if events[0].MasterAssigned? then events[0].state else isMaster)
  }

  // A starting node takes its row, or a new one. A row of its own may hold events it has missed.
  function Register(s: State, n: Id): State {
    if n in s.rows then
      State(s.rows[n := s.rows[n].(master := false, running := true)], s.alive[n := Process(false, false)])
    else
      State(s.rows[n := Row(false, true, 0, [])], s.alive[n := Process(false, true)])
  }

  function DropMissedEvents(s: State, n: Id): State
    requires n in s.rows && n in s.alive
  {
    State(s.rows[n := s.rows[n].(events := [])], s.alive[n := s.alive[n].(ready := true)])
  }

  function CheckIn(s: State, n: Id, now: int): State
    requires n in s.rows
  {
    s.(rows := s.rows[n := s.rows[n].(checkIn := now)])
  }

  // some master has checked in recently enough
  predicate MasterPresent(rows: map<Id, Row>, now: int, missingAfter: int) {
    exists m :: m in rows && rows[m].master && now < rows[m].checkIn + missingAfter
  }

  // what a check-in finds: no master has checked in for too long, where none at all counts as time 0
  predicate MasterOverdue(rows: map<Id, Row>, now: int, missingAfter: int) {
    && (forall m :: m in rows && rows[m].master ==> now > rows[m].checkIn + missingAfter)
    && ((forall m :: m in rows ==> !rows[m].master) ==> now > missingAfter)
  }

  function SwitchOver(rows: map<Id, Row>, n: Id): map<Id, Row> {
    map m | m in rows :: rows[m].(master := m == n, events := rows[m].events + [MasterAssigned(m == n)])
  }

  function RequestMasterRole(s: State, n: Id, now: int, missingAfter: int): State {
    if MasterPresent(s.rows, now, missingAfter) then s else s.(rows := SwitchOver(s.rows, n))
  }

  // other events, for nodes that have checked in within the last hour
  function Post(s: State, targets: set<Id>, now: int): State {
    s.(rows := map m | m in s.rows ::
      if m in targets && s.rows[m].checkIn > now - EVENT_CUT_OFF then s.rows[m].(events := s.rows[m].events + [Other])
      else s.rows[m])
  }

  function React(s: State, n: Id): State
    requires n in s.rows && n in s.alive
  {
    State(s.rows[n := s.rows[n].(events := [])],
          s.alive[n := s.alive[n].(isMaster := Replay(s.rows[n].events, s.alive[n].isMaster))])
  }

  // the last statement of an orderly shutdown; the process itself may live on for a while
  function Deregister(s: State, n: Id): State
    requires n in s.rows
  {
    s.(rows := s.rows[n := s.rows[n].(master := false, running := false)])
  }

  // ---- what holds in between

  predicate OneMaster(rows: map<Id, Row>) {
    forall m, n :: m in rows && n in rows && rows[m].master && rows[n].master ==> m == n
  }

  // what node n believes once it has reacted to everything that waits for it
  predicate WillBelieve(s: State, n: Id)
    requires n in s.rows && n in s.alive
  {
    Replay(s.rows[n].events, s.alive[n].isMaster)
  }

  predicate NodeConsistent(s: State, n: Id)
    requires n in s.alive
  {
    && n in s.rows
    && (!s.alive[n].ready ==> !s.rows[n].master && !s.alive[n].isMaster)
    && (s.alive[n].ready && s.rows[n].running ==> WillBelieve(s, n) == s.rows[n].master)
  }

  predicate Consistent(s: State) {
    && OneMaster(s.rows)
    && forall n :: n in s.alive ==> NodeConsistent(s, n)
  }

  // ---- the program's own statements

  class Database {
    var rows: map<Id, Row>
    var alive: map<Id, Process>

    constructor ()
      ensures Now() == State(map[], map[])
    {
      rows, alive := map[], map[];
    }

    ghost function Now(): State
      reads this
    {
      State(rows, alive)
    }

    // StartNode up to the row itself
    method StartNode(n: Id)
      requires n !in alive
      modifies this
      ensures Now() == Register(old(Now()), n)
    {
      var exists_ := n in rows;
      if !exists_ {
        rows := rows[n := Row(false, true, 0, [])];
      } else {
        rows := rows[n := rows[n].(master := false, running := true)];
      }
      alive := alive[n := Process(false, !exists_)];
    }

    // the rest of StartNode, for a node that had a row
    method DeleteMissedEvents(n: Id)
      requires n in rows && n in alive && !alive[n].ready
      modifies this
      ensures Now() == DropMissedEvents(old(Now()), n)
    {
      rows := rows[n := rows[n].(events := [])];
      alive := alive[n := alive[n].(ready := true)];
    }

    method StopNode(n: Id)
      requires n in rows
      modifies this
      ensures Now() == Deregister(old(Now()), n)
    {
      rows := rows[n := rows[n].(master := false, running := false)];
    }

    // CheckInNode up to its decision to ask for the master role
    method CheckInNode(n: Id, now: int, missingAfter: int) returns (request: bool)
      requires n in rows && OneMaster(rows)
      modifies this
      ensures Now() == CheckIn(old(Now()), n, now)
      ensures request == MasterOverdue(rows, now, missingAfter)
    {
      rows := rows[n := rows[n].(checkIn := now)];
      var masterLastCheckIn := 0;
      var masters := set m | m in rows && rows[m].master;
      if masters != {} {
        var m :| m in masters;
        masterLastCheckIn := rows[m].checkIn;
        assert m in rows && rows[m].master && OneMaster(rows);
      } else {
        assert forall m :: m in rows ==> m !in masters;
      }
      request := now > masterLastCheckIn + missingAfter;
    }

    // instance_cluster.master_role_request
    method MasterRoleRequest(n: Id, now: int, missingAfter: int)
      requires n in rows && OneMaster(rows)
      modifies this
      ensures Now() == RequestMasterRole(old(Now()), n, now, missingAfter)
    {
      var present := MasterCheckedIn(now, missingAfter);
      if present {
        return;
      }
      AssignMaster(n);
    }

    // the statements of a granted request
    method AssignMaster(n: Id)
      requires n in rows
      modifies this`rows
      ensures rows == SwitchOver(old(rows), n)
    {
      rows := map m | m in rows :: rows[m].(master := false);
      rows := rows[n := rows[n].(master := true)];
      rows := map m | m in rows ::
        if !rows[m].master then rows[m].(events := rows[m].events + [MasterAssigned(false)]) else rows[m];
      rows := rows[n := rows[n].(events := rows[n].events + [MasterAssigned(true)])];
    }

    method MasterCheckedIn(now: int, missingAfter: int) returns (present: bool)
      requires OneMaster(rows)
      ensures present == MasterPresent(rows, now, missingAfter)
    {
      var masters := set m | m in rows && rows[m].master;
      if masters == {} {
        assert forall m :: m in rows ==> m !in masters;
        return false;
      }
      var m :| m in masters;
      assert rows[m].master;
      present := now < rows[m].checkIn + missingAfter;
    }

    method CreateEventForNodes(nodeIds: set<Id>, self: Id, now: int)
      modifies this
      ensures Now() == Post(old(Now()), if nodeIds == {} then old(rows).Keys - {self} else nodeIds, now)
    {
      var checkInCutOff := now - EVENT_CUT_OFF;
      if nodeIds == {} {
        rows := map m | m in rows ::
          if m != self && rows[m].checkIn > checkInCutOff then rows[m].(events := rows[m].events + [Other])
              else rows[m];
      } else {
        rows := map m | m in rows ::
          if m in nodeIds && rows[m].checkIn > checkInCutOff then rows[m].(events := rows[m].events + [Other])
              else rows[m];
      }
    }

    method ClusterProcessEvents(n: Id)
      requires n in rows && n in alive
      modifies this
      ensures Now() == React(old(Now()), n)
    {
      var events := rows[n].events;
      if |events| == 0 {
        assert rows[n := rows[n].(events := [])] == rows && alive[n := alive[n]] == alive;
        return;
      }
      rows := rows[n := rows[n].(events := [])];
      for i := 0 to |events|
        invariant rows == old(rows)[n := old(rows)[n].(events := [])] && n in alive
        invariant alive == old(alive)[n := old(alive)[n].(isMaster := alive[n].isMaster)]
        invariant Replay(events[i..], alive[n].isMaster) == Replay(events, old(alive)[n].isMaster)
      {
        assert events[i..][1..] == events[i + 1..];
        match events[i]
        case MasterAssigned(state) => alive := alive[n := alive[n].(isMaster := state)];
        case Other =>
      }
    }
  }

  // ---- any interleaving

  datatype Event =
    | Started(n: Id)
    | MissedEventsDropped(n: Id)
    | CheckedIn(n: Id, now: int)
    | RoleRequested(n: Id, now: int, missingAfter: int)
    | Posted(targets: set<Id>, now: int)
    | Reacted(n: Id)
    | Deregistered(n: Id)
    | Ended(n: Id)
    | Removed(n: Id)

  // One process a node; a process works once its start is complete; it may end at any time; only the
  // row of a node without a process is removed.
  predicate Enabled(s: State, e: Event) {
    match e
    case Started(n) => n !in s.alive
    case MissedEventsDropped(n) => n in s.rows && n in s.alive && !s.alive[n].ready
    case CheckedIn(n, _) => n in s.rows && n in s.alive && s.alive[n].ready
    case RoleRequested(n, _, _) => n in s.rows && n in s.alive && s.alive[n].ready
    case Posted(_, _) => true
    case Reacted(n) => n in s.rows && n in s.alive && s.alive[n].ready
    case Deregistered(n) => n in s.rows && n in s.alive
    case Ended(n) => n in s.alive
    case Removed(n) => n !in s.alive
  }

  function Apply(s: State, e: Event): State
    requires Enabled(s, e)
  {
    match e
    case Started(n) => Register(s, n)
    case MissedEventsDropped(n) => DropMissedEvents(s, n)
    case CheckedIn(n, now) => CheckIn(s, n, now)
    case RoleRequested(n, now, missingAfter) => RequestMasterRole(s, n, now, missingAfter)
    case Posted(targets, now) => Post(s, targets, now)
    case Reacted(n) => React(s, n)
    case Deregistered(n) => Deregister(s, n)
    case Ended(n) => s.(alive := s.alive - {n})
    case Removed(n) => s.(rows := s.rows - {n})
  }

  const START := State(map[], map[])

  ghost function Next(s: State, e: Event): State {
    if Enabled(s, e) then Apply(s, e) else s
  }

  ghost const SYSTEM: Runs.System<State, Event> := Runs.System(Enabled, Next)

  ghost predicate IsRun(es: seq<Event>) {
    Runs.IsRun(SYSTEM, START, es)
  }

  ghost function After(es: seq<Event>): State {
    Runs.After(SYSTEM, START, es)
  }

  lemma {:induction false} ReplayAppends(events: seq<Message>, e: Message, isMaster: bool)
    ensures Replay(events + [e], isMaster) == if e.MasterAssigned? then e.state else Replay(events, isMaster)
    decreases |events|
  {
    if events == [] {
      assert [e][1..] == [];
    } else {
      assert (events + [e])[1..] == events[1..] + [e];
      ReplayAppends(events[1..], e, if events[0].MasterAssigned? then events[0].state else isMaster);
    }
  }

  lemma SwitchOverKeeps(s: State, n: Id, now: int, missingAfter: int)
    requires Consistent(s) && Enabled(s, RoleRequested(n, now, missingAfter))
    ensures Consistent(RequestMasterRole(s, n, now, missingAfter))
  {
    var t := RequestMasterRole(s, n, now, missingAfter);
    if t != s {
      forall m | m in t.alive
        ensures NodeConsistent(t, m)
      {
        assert NodeConsistent(s, m);
        ReplayAppends(s.rows[m].events, MasterAssigned(m == n), s.alive[m].isMaster);
      }
    }
  }

  lemma PostKeeps(s: State, targets: set<Id>, now: int)
    requires Consistent(s)
    ensures Consistent(Post(s, targets, now))
  {
    var t := Post(s, targets, now);
    forall m | m in t.alive
      ensures NodeConsistent(t, m)
    {
      assert NodeConsistent(s, m);
      ReplayAppends(s.rows[m].events, Other, s.alive[m].isMaster);
    }
  }

  lemma StepKeeps(s: State, e: Event)
    requires Consistent(s) && Enabled(s, e)
    ensures Consistent(Apply(s, e))
  {
    match e
    case RoleRequested(n, now, missingAfter) => SwitchOverKeeps(s, n, now, missingAfter);
    case Posted(targets, now) => PostKeeps(s, targets, now);
    case _ =>
      var t := Apply(s, e);
      forall m | m in t.alive
        ensures NodeConsistent(t, m)
      {
        assert m in s.alive ==> NodeConsistent(s, m);
      }
  }

  // After any interleaving of all nodes' steps: at most one row holds the master role, and what a
  // running node will believe after its pending events is what its row says.
  lemma OneMasterAndNodesFollow(es: seq<Event>)
    requires IsRun(es)
    ensures Consistent(After(es))
    ensures OneMaster(After(es).rows)
    ensures forall n :: n in After(es).alive && After(es).alive[n].ready ==>
              n in After(es).rows && (After(es).rows[n].running ==>
                    WillBelieve(After(es), n) == After(es).rows[n].master)
  {
    forall s, e | Consistent(s) && Enabled(s, e)
      ensures Consistent(Next(s, e))
    {
      StepKeeps(s, e);
    }
    Runs.RunKeeps(SYSTEM, Consistent, START, es);
    forall n | n in After(es).alive
      ensures NodeConsistent(After(es), n)
    {
    }
  }

  // what the last pending news about the role says, if there is any
  function LastAssigned(events: seq<Message>): Option<bool> {
    if events == [] then None
    else
      var last := events[|events| - 1];
      if last.MasterAssigned? then Some(last.state) else LastAssigned(events[..|events| - 1])
  }

  lemma {:induction false} ReplayIsLast(events: seq<Message>, isMaster: bool)
    ensures Replay(events, isMaster) == if LastAssigned(events).Some? then LastAssigned(events).value else isMaster
  {
    if events != [] {
      var n := |events| - 1;
      ReplayIsLast(events[..n], isMaster);
      ReplayAppends(events[..n], events[n], isMaster);
      assert events == events[..n] + [events[n]];
    }
  }

  // a running node whose start is complete
  predicate Works(s: State, n: Id) {
    n in s.alive && s.alive[n].ready && n in s.rows && s.rows[n].running
  }

  // In every reachable state, a working node that acts as master does so without the role if and only if
  // the last of its pending news takes the role away.
  lemma ActsWithoutRoleIffNewsPending(es: seq<Event>, n: Id)
    requires IsRun(es) && Works(After(es), n) && After(es).alive[n].isMaster
    ensures !After(es).rows[n].master <==> LastAssigned(After(es).rows[n].events) == Some(false)
  {
    OneMasterAndNodesFollow(es);
    ReplayIsLast(After(es).rows[n].events, After(es).alive[n].isMaster);
  }

  // So of two working nodes that act as master, one has news pending that takes the role away.
  lemma TwoActingMastersMeansStale(es: seq<Event>, m: Id, n: Id)
    requires IsRun(es) && m != n && Works(After(es), m) && Works(After(es), n)
    requires After(es).alive[m].isMaster && After(es).alive[n].isMaster
    ensures LastAssigned(After(es).rows[m].events) == Some(false) ||
            LastAssigned(After(es).rows[n].events) == Some(false)
  {
    OneMasterAndNodesFollow(es);
    ActsWithoutRoleIffNewsPending(es, m);
    ActsWithoutRoleIffNewsPending(es, n);
  }

  // Two nodes, the first of which has become master.
  lemma FirstNodeActs() returns (es: seq<Event>)
    ensures IsRun(es)
    ensures After(es) == State(map[1 := Row(true, true, 0, []), 2 := Row(false, true, 0, [MasterAssigned(false)])],
                               map[1 := Process(true, true), 2 := Process(false, true)])
  {
    Runs.OneMoreStep(SYSTEM, START, [], Started(1));
    es := [] + [Started(1)];
    Runs.OneMoreStep(SYSTEM, START, es, Started(2));
    es := es + [Started(2)];
    Runs.OneMoreStep(SYSTEM, START, es, RoleRequested(1, 100, 60));
    es := es + [RoleRequested(1, 100, 60)];
    assert After(es).rows[1].events == [MasterAssigned(true)] && After(es).rows[2].events == [MasterAssigned(false)];
    Runs.OneMoreStep(SYSTEM, START, es, Reacted(1));
    es := es + [Reacted(1)];
    assert [MasterAssigned(true)][1..] == [];
    assert After(es).rows == map[1 := Row(true, true, 0, []), 2 := Row(false, true, 0, [MasterAssigned(false)])];
  }

  // And it does happen: a master that has missed its check-ins acts on until it reads its events.
  lemma TakeoverLeavesTwoActing() returns (es: seq<Event>, m: Id, n: Id)
    ensures m != n && IsRun(es)
    ensures {m, n} <= After(es).alive.Keys && {m, n} <= After(es).rows.Keys
    ensures After(es).alive[m].isMaster && After(es).alive[n].isMaster
    ensures !After(es).rows[m].master && After(es).rows[n].master
  {
    m, n := 1, 2;
    es := FirstNodeActs();
    Runs.OneMoreStep(SYSTEM, START, es, RoleRequested(2, 100, 60));
    es := es + [RoleRequested(2, 100, 60)];
    assert After(es).rows[2].events == [MasterAssigned(false)] + [MasterAssigned(true)];
    ReplayAppends([MasterAssigned(false)], MasterAssigned(true), false);
    Runs.OneMoreStep(SYSTEM, START, es, Reacted(2));
    es := es + [Reacted(2)];
  }

  // After a request, the node that asked is the one working node that will act as master if and only if it
  // was master before or no master has checked in within the configured time.
  lemma RoleChangesIffMasterMissing(es: seq<Event>, n: Id, now: int, missingAfter: int)
    requires IsRun(es) && Enabled(After(es), RoleRequested(n, now, missingAfter)) && Works(After(es), n)
    ensures var s := After(es);
            var t := RequestMasterRole(s, n, now, missingAfter);
            (forall m :: Works(t, m) ==> (WillBelieve(t, m) <==> m == n)) <==>
            s.rows[n].master || forall m :: m in s.rows && s.rows[m].master ==> missingAfter <= now - s.rows[m].checkIn
  {
    OneMasterAndNodesFollow(es);
    var s := After(es);
    var t := RequestMasterRole(s, n, now, missingAfter);
    SwitchOverKeeps(s, n, now, missingAfter);
    assert NodeConsistent(t, n) && Works(t, n);
    forall m | Works(t, m)
      ensures WillBelieve(t, m) == t.rows[m].master
    {
      assert NodeConsistent(t, m);
    }
  }

  // Every master's last check-in is longer ago than the configured time, and so is time 0 if there is none.
  ghost predicate IsOverdue(rows: map<Id, Row>, now: int, missingAfter: int) {
    && (forall m :: m in rows && rows[m].master ==> now - rows[m].checkIn > missingAfter)
    && (now <= missingAfter ==> exists m :: m in rows && rows[m].master)
  }

  // A check-in with a master that is not overdue does not ask for the role, one with an overdue master does.
  lemma AsksIffOverdue(rows: map<Id, Row>, now: int, missingAfter: int)
    ensures MasterOverdue(rows, now, missingAfter) <==> IsOverdue(rows, now, missingAfter)
  {
  }

  // A node that finds the master overdue at its check-in gets the role, if the clocks agree and no
  // other node was faster.
  lemma OverdueMasterIsReplaced(es: seq<Event>, n: Id, now: int, missingAfter: int)
    requires IsRun(es) && Enabled(After(es), CheckedIn(n, now))
    requires IsOverdue(CheckIn(After(es), n, now).rows, now, missingAfter)
    ensures var s := RequestMasterRole(CheckIn(After(es), n, now), n, now, missingAfter);
            && (forall m :: m in s.rows ==> (s.rows[m].master <==> m == n))
            && React(s, n).alive[n].isMaster
  {
    OneMasterAndNodesFollow(es);
    var s := After(es);
    var c := CheckIn(s, n, now);
    assert !MasterPresent(c.rows, now, missingAfter);
    ReplayAppends(c.rows[n].events, MasterAssigned(true), c.alive[n].isMaster);
  }

  // ---- what the other steps do

  // Other news reaches exactly the target nodes that have checked in within the last hour, behind everything that
  // waits for them, and changes nothing else.
  lemma NewsReachesRecentNodes(s: State, targets: set<Id>, now: int, m: Id)
    requires m in s.rows
    ensures var t := Post(s, targets, now);
            && t.alive == s.alive && t.rows.Keys == s.rows.Keys
            && t.rows[m] == s.rows[m].(events := t.rows[m].events)
            && t.rows[m].events == s.rows[m].events +
               if m in targets && now - s.rows[m].checkIn < 60 * 60 then [Other] else []
  {
  }

  // A node that ended, whatever its last events were, can start again: it does not act as master, has not the
  // role, and what it missed is gone. Once its start is complete, it takes part again.
  lemma RestartMissesNothing(es: seq<Event>, n: Id) returns (more: seq<Event>)
    requires IsRun(es) && n in After(es).alive && n in After(es).rows
    ensures es <= more && IsRun(more) && Works(After(more), n)
    ensures !After(more).alive[n].isMaster && !After(more).rows[n].master && After(more).rows[n].events == []
    ensures forall m :: m in After(es).rows && m != n ==>
              m in After(more).rows && After(more).rows[m] == After(es).rows[m]
  {
    Runs.OneMoreStep(SYSTEM, START, es, Ended(n));
    var es1 := es + [Ended(n)];
    Runs.OneMoreStep(SYSTEM, START, es1, Started(n));
    var es2 := es1 + [Started(n)];
    Runs.OneMoreStep(SYSTEM, START, es2, MissedEventsDropped(n));
    more := es2 + [MissedEventsDropped(n)];
  }

  // The row of a node without a process can be removed; started again, the node has a new row and takes part at once.
  lemma RemovedNodeStartsAnew(es: seq<Event>, n: Id) returns (more: seq<Event>)
    requires IsRun(es) && n !in After(es).alive
    ensures es <= more && IsRun(more) && Works(After(more), n)
    ensures After(more).rows == After(es).rows[n := Row(false, true, 0, [])]
  {
    Runs.OneMoreStep(SYSTEM, START, es, Removed(n));
    var es1 := es + [Removed(n)];
    Runs.OneMoreStep(SYSTEM, START, es1, Started(n));
    more := es1 + [Started(n)];
  }

  // A master that has checked in keeps the role, whoever asks for it before the configured time is over.
  lemma CheckInKeepsRole(s: State, n: Id, m: Id, now: int, later: int, missingAfter: int)
    requires n in s.rows && s.rows[n].master && later - now < missingAfter
    ensures var t := CheckIn(s, n, now); RequestMasterRole(t, m, later, missingAfter) == t
    ensures forall k :: k in s.rows && k != n ==>
              k in CheckIn(s, n, now).rows && CheckIn(s, n, now).rows[k] == s.rows[k]
  {
    var t := CheckIn(s, n, now);
    assert t.rows[n].master && later < t.rows[n].checkIn + missingAfter;
  }

  // The role of a master that has stopped goes to the next node that asks, at any time, and to no other.
  lemma StoppedMasterIsReplaced(es: seq<Event>, n: Id, m: Id, now: int, missingAfter: int)
    requires IsRun(es) && n in After(es).rows && After(es).rows[n].master && m in After(es).rows && m != n
    ensures var s := Deregister(After(es), n);
            && !Works(s, n)
            && forall k :: k in s.rows ==>
                 k in RequestMasterRole(s, m, now, missingAfter).rows &&
                 (RequestMasterRole(s, m, now, missingAfter).rows[k].master <==> k == m)
  {
    OneMasterAndNodesFollow(es);
    var s := Deregister(After(es), n);
    assert forall k :: k in s.rows ==> !s.rows[k].master;
  }

  // A working node can do all that a node does, at any time.
  lemma WorkingNodesGoOn(s: State, n: Id, now: int, missingAfter: int, targets: set<Id>)
    requires Works(s, n)
    ensures Enabled(s, CheckedIn(n, now)) && Enabled(s, RoleRequested(n, now, missingAfter)) && Enabled(s, Reacted(n))
    ensures Enabled(s, Posted(targets, now)) && Enabled(s, Deregistered(n)) && Enabled(s, Ended(n))
  {
  }
}
