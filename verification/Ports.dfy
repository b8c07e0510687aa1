/** Registration of guests with the server: port choice, the set of held ports, and the map of
    listeners, under one lock. */
module Ports {
  import opened Bytes

  type Uuid = seq<byte>

  const STARTING_PORT := 3901
  const PORT_LIMIT := 65535

  predicate Available(p: int, ports: set<int>, refused: set<int>) {
    STARTING_PORT <= p < PORT_LIMIT && p !in ports && p !in refused
  }

  /** The port search of `RegisterNewVM`; `refused` are the ports that `bind` rejects. Zero
      stands for no port. */
  function FirstFree(i: int, ports: set<int>, refused: set<int>): int
    requires STARTING_PORT <= i <= PORT_LIMIT
    decreases PORT_LIMIT - i
  {
    if i == PORT_LIMIT then 0
    else if i !in ports && i !in refused then i
    else FirstFree(i + 1, ports, refused)
  }

  /** The search yields the least available port, and zero exactly when there is none. */
  lemma {:induction false} FirstFreeIsLeast(i: int, ports: set<int>, refused: set<int>)
    requires STARTING_PORT <= i <= PORT_LIMIT
    ensures var p := FirstFree(i, ports, refused);
            && (p == 0 <==> forall q :: i <= q ==> !Available(q, ports, refused))
            && (p != 0 ==> i <= p && Available(p, ports, refused)
                           && forall q :: i <= q < p ==> !Available(q, ports, refused))
    decreases PORT_LIMIT - i
  {
    if i < PORT_LIMIT {
      if i !in ports && i !in refused {
        assert Available(i, ports, refused);
      } else {
        FirstFreeIsLeast(i + 1, ports, refused);
        var p := FirstFree(i + 1, ports, refused);
        assert !Available(i, ports, refused);
        if p == 0 {
          forall q | i <= q
            ensures !Available(q, ports, refused)
          {
            assert q == i || i + 1 <= q;
          }
        }
      }
    }
  }

  /** The containers that `container_lock` guards. */
  class Registry {
    var ports: set<int>
    var listeners: map<Uuid, int>

    constructor ()
      ensures ports == {} && listeners == map[]
    {
      ports, listeners := {}, map[];
    }

    /** `RegisterNewVM`; `started` says whether the listener could be constructed. A port
        stays held even if it could not. */
    method Register(uuid: Uuid, port: uint16, refused: set<int>, started: bool) returns (ok: bool)
      modifies this
      ensures var p := if port == 0 then FirstFree(STARTING_PORT, old(ports), refused) else port;
              && ok == (p != 0 && started)
              && ports == (if p == 0 then old(ports) else old(ports) + {p})
              && listeners == (if ok && uuid !in old(listeners) then old(listeners)[uuid := p] else old(listeners))
    {
      var used := 0;
      if port == 0 {
        var i := STARTING_PORT;
        while i < PORT_LIMIT
          invariant STARTING_PORT <= i <= PORT_LIMIT && used == 0
          invariant FirstFree(STARTING_PORT, ports, refused) == FirstFree(i, ports, refused)
        {
          if i !in ports {
            if i !in refused {
              used := i;
              break;
            }
          }
          i := i + 1;
        }
      } else {
        used := port;
      }
      if used == 0 || used > 65535 {
        return false;
      }
      ports := ports + {used};
      if !started {
        return false;
      }
      if uuid !in listeners {
        listeners := listeners[uuid := used];
      }
      return true;
    }

    /** `UnregisterVM`. */
    method Unregister(uuid: Uuid, port: uint16)
      modifies this
      ensures ports == old(ports) - {port} && listeners == old(listeners) - {uuid}
    {
      ports := ports - {port};
      listeners := listeners - {uuid};
    }
  }

  // ----- Runs -----

  /** `Held` is a registration between the start of the listener's thread and the insertion
      of the listener into the map. */
  datatype Lock = Free | Held(uuid: Uuid, port: int)

  datatype State = State(ports: set<int>, listeners: map<Uuid, int>, live: map<Uuid, int>, lock: Lock)

  datatype Step =
    | Begin(uuid: Uuid, port: int, refused: set<int>, started: bool)
    | Finish
    | Exit(uuid: Uuid)     // the listener's own shutdown calls UnregisterVM

  const Init := State({}, map[], map[], Free)

  /** Identifiers are fresh and explicitly requested ports are not held. */
  predicate Enabled(s: State, step: Step) {
    match step
    case Begin(uuid, port, _, _) => s.lock.Free? && uuid !in s.live && (port == 0 || (0 < port <= 65535 && port !in s.ports))
    case Finish => s.lock.Held?
    case Exit(uuid) => s.lock.Free? && uuid in s.live
  }

  function Chosen(s: State, port: int, refused: set<int>): int {
    if port == 0 then FirstFree(STARTING_PORT, s.ports, refused) else port
  }

  function Next(s: State, step: Step): State
    requires Enabled(s, step)
  {
    match step
    case Begin(uuid, port, refused, started) =>
      var p := Chosen(s, port, refused);
      if p == 0 then s
      else if !started then s.(ports := s.ports + {p})
      else s.(ports := s.ports + {p}, live := s.live[uuid := p], lock := Held(uuid, p))
    case Finish =>
      var u, p := s.lock.uuid, s.lock.port;
      s.(listeners := if u in s.listeners then s.listeners else s.listeners[u := p], lock := Free)
    case Exit(uuid) =>
      s.(ports := s.ports - {s.live[uuid]}, listeners := s.listeners - {uuid}, live := s.live - {uuid})
  }

  /** Live listeners hold pairwise different ports, all of them reserved; the map lists
      exactly the live listeners, but for one that is just being registered. */
  ghost predicate Inv(s: State) {
    && (forall u :: u in s.live ==> s.live[u] in s.ports)
    && (forall u, v :: u in s.live && v in s.live && u != v ==> s.live[u] != s.live[v])
    && match s.lock
       case Free => s.listeners == s.live
       case Held(u, p) => u in s.live && s.live[u] == p && s.listeners == s.live - {u}
  }

  lemma InvStep(s: State, step: Step)
    requires Inv(s) && Enabled(s, step)
    ensures Inv(Next(s, step))
  {
    var t := Next(s, step);
    match step
    case Begin(uuid, port, refused, started) =>
      FirstFreeIsLeast(STARTING_PORT, s.ports, refused);
      var p := Chosen(s, port, refused);
      if p != 0 && started {
        assert p !in s.ports;
        assert t.live - {uuid} == s.live;
      }
    case Finish =>
      assert s.lock.uuid !in s.listeners;
      assert t.listeners == t.live;
    case Exit(uuid) =>
  }

  ghost predicate ValidRun(s: State, run: seq<Step>)
    decreases |run|
  {
    |run| > 0 ==> Enabled(s, run[0]) && ValidRun(Next(s, run[0]), run[1..])
  }

  ghost function Exec(s: State, run: seq<Step>): State
    requires ValidRun(s, run)
    decreases |run|
  {
    if |run| == 0 then s else Exec(Next(s, run[0]), run[1..])
  }

  lemma {:induction false} InvRun(s: State, run: seq<Step>)
    requires Inv(s) && ValidRun(s, run)
    ensures Inv(Exec(s, run))
    decreases |run|
  {
    if |run| > 0 {
      InvStep(s, run[0]);
      InvRun(Next(s, run[0]), run[1..]);
    }
  }

  /** Over every run: distinct reserved ports for the live listeners, and, whenever the lock
      is free, a map of exactly these; so no entry outlives its listener. */
  lemma LiveListenersHaveOwnPorts(run: seq<Step>)
    requires ValidRun(Init, run)
    ensures var s := Exec(Init, run);
            && (forall u :: u in s.live ==> s.live[u] in s.ports)
            && (forall u, v :: u in s.live && v in s.live && u != v ==> s.live[u] != s.live[v])
            && (s.lock.Free? ==> s.listeners == s.live)
  {
    InvRun(Init, run);
  }

  /** The lock is what orders insertion before removal: if a listener could unregister while
      its registration is still under way, the later insertion would leave a dead entry. */
  lemma UnlockedExitLeavesDeadEntry(s: State)
    requires Inv(s) && s.lock.Held?
    ensures var u := s.lock.uuid;
            var left := s.(ports := s.ports - {s.live[u]}, listeners := s.listeners - {u}, live := s.live - {u});
            u in Next(left, Finish).listeners && u !in Next(left, Finish).live
  {
  }

  /** The steps of one registration: it stops at its first step if there is no port or the
      listener does not start. */
  function Registration(s: State, uuid: Uuid, port: int, refused: set<int>, started: bool): seq<Step> {
    [Begin(uuid, port, refused, started)] + if Chosen(s, port, refused) != 0 && started then [Finish] else []
  }

  /** Taken together, the steps of a registration have the effect that `Registry.Register` is
      proved to have. */
  lemma RegistrationIsRegister(s: State, uuid: Uuid, port: int, refused: set<int>, started: bool)
    requires Inv(s) && Enabled(s, Begin(uuid, port, refused, started))
    ensures var run := Registration(s, uuid, port, refused, started);
            && ValidRun(s, run)
            && var t := Exec(s, run);
               var p := if port == 0 then FirstFree(STARTING_PORT, s.ports, refused) else port;
               var ok := p != 0 && started;
               && t.lock.Free?
               && t.ports == (if p == 0 then s.ports else s.ports + {p})
               && t.listeners == (if ok && uuid !in s.listeners then s.listeners[uuid := p] else s.listeners)
  {
    var begin := Begin(uuid, port, refused, started);
    var run := Registration(s, uuid, port, refused, started);
    var t := Next(s, begin);
    assert Exec(t, []) == t && ValidRun(t, []);
    if Chosen(s, port, refused) != 0 && started {
      var u := Next(t, Finish);
      assert run[1..] == [Finish] && [Finish][1..] == [];
      assert Exec(u, []) == u && ValidRun(u, []);
      assert ValidRun(t, [Finish]) && Exec(t, [Finish]) == u;
    } else {
      assert run[1..] == [];
    }
  }

  /** The exit of a listener has the effect that `Registry.Unregister` is proved to have: its
      port and its entry are gone, and nothing else is. */
  lemma ExitIsUnregister(s: State, uuid: Uuid)
    requires Inv(s) && Enabled(s, Exit(uuid))
    ensures var t, p := Next(s, Exit(uuid)), s.live[uuid];
            && t.ports == s.ports - {p} && t.listeners == s.listeners - {uuid} && t.lock == s.lock
            && p in s.ports && p !in t.ports && uuid in s.listeners
            && uuid !in t.live && uuid !in t.listeners
            && (forall u :: u != uuid ==> (u in t.live <==> u in s.live) && (u in t.listeners <==> u in s.listeners))
            && (forall u :: u in t.live ==> t.live[u] == s.live[u] && t.live[u] in t.ports)
            && (forall u :: u in t.listeners ==> t.listeners[u] == s.listeners[u])
  {
  }

  /** A registration, its exit and the same registration again: the guest gets its port back. */
  lemma PortIsGivenBack(s: State, u: Uuid, refused: set<int>)
    requires Inv(s) && s.lock.Free? && u !in s.live && FirstFree(STARTING_PORT, s.ports, refused) != 0
    ensures var run := [Begin(u, 0, refused, true), Finish, Exit(u)];
            ValidRun(s, run) && Chosen(Exec(s, run), 0, refused) == Chosen(s, 0, refused)
  {
    FirstFreeIsLeast(STARTING_PORT, s.ports, refused);
    var s1 := Next(s, Begin(u, 0, refused, true));
    var s2 := Next(s1, Finish);
    var s3 := Next(s2, Exit(u));
    var run := [Begin(u, 0, refused, true), Finish, Exit(u)];
    assert run[1..] == [Finish, Exit(u)] && [Finish, Exit(u)][1..] == [Exit(u)] && [Exit(u)][1..] == [];
    assert ValidRun(s3, []) && Exec(s3, []) == s3;
    assert ValidRun(s2, [Exit(u)]) && Exec(s2, [Exit(u)]) == s3;
    assert ValidRun(s1, [Finish, Exit(u)]) && Exec(s1, [Finish, Exit(u)]) == s3;
    assert s3.ports == s.ports;
  }

  /** The port that a step reserves for a listener that then fails to start. */
  function LeakOf(s: State, step: Step): set<int> {
    match step
    case Begin(_, port, refused, started) =>
      if !started && Chosen(s, port, refused) != 0 then {Chosen(s, port, refused)} else {}
    case _ => {}
  }

  ghost function Leaked(s: State, run: seq<Step>): set<int>
    requires ValidRun(s, run)
    decreases |run|
  {
    if |run| == 0 then {} else LeakOf(s, run[0]) + Leaked(Next(s, run[0]), run[1..])
  }

  /** The reserved ports are those of the live listeners and, apart from these, the leaked ones. */
  ghost predicate Holds(s: State, leaked: set<int>) {
    s.ports == s.live.Values + leaked && s.live.Values !! leaked
  }

  lemma HoldsStep(s: State, step: Step, leaked: set<int>)
    requires Inv(s) && Enabled(s, step) && Holds(s, leaked)
    ensures Holds(Next(s, step), leaked + LeakOf(s, step))
  {
    var t := Next(s, step);
    match step
    case Begin(uuid, port, refused, started) =>
      FirstFreeIsLeast(STARTING_PORT, s.ports, refused);
      var p := Chosen(s, port, refused);
      if p != 0 && started {
        assert t.live.Values == s.live.Values + {p} by {
          assert t.live[uuid] == p;
          forall q | q in s.live.Values
            ensures q in t.live.Values
          {
            var u :| u in s.live && s.live[u] == q;
            assert t.live[u] == q;
          }
        }
      }
    case Finish =>
    case Exit(uuid) =>
      assert t.live.Values == s.live.Values - {s.live[uuid]} by {
        forall q | q in s.live.Values && q != s.live[uuid]
          ensures q in t.live.Values
        {
          var u :| u in s.live && s.live[u] == q;
          assert t.live[u] == q;
        }
      }
  }

  lemma {:induction false} HoldsRun(s: State, run: seq<Step>, leaked: set<int>)
    requires Inv(s) && ValidRun(s, run) && Holds(s, leaked)
    ensures Holds(Exec(s, run), leaked + Leaked(s, run))
    decreases |run|
  {
    hide Holds, Inv, Enabled, Next;
    if |run| == 0 {
      assert leaked + {} == leaked;
    } else {
      HoldsStep(s, run[0], leaked);
      InvStep(s, run[0]);
      HoldsRun(Next(s, run[0]), run[1..], leaked + LeakOf(s, run[0]));
      assert leaked + LeakOf(s, run[0]) + Leaked(Next(s, run[0]), run[1..]) == leaked + Leaked(s, run);
    }
  }

  /** Ports leak, for good, exactly through listeners that fail to start: the reserved ports are
      those of the live listeners if and only if no registration got a port and then failed. */
  lemma PortsLeakIff(run: seq<Step>)
    requires ValidRun(Init, run)
    ensures var s := Exec(Init, run);
            && s.ports == s.live.Values + Leaked(Init, run) && s.live.Values !! Leaked(Init, run)
            && (s.ports == s.live.Values <==> Leaked(Init, run) == {})
  {
    HoldsRun(Init, run, {});
    assert {} + Leaked(Init, run) == Leaked(Init, run);
  }
}
