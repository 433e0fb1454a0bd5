/** Driver manager: what a whole open or close comes to, whatever the other threads are doing. */
module DrvOutcomes {
  import opened Options
  import opened DrvTypes
  import opened DrvSteps
  import opened DrvInvariant
  import opened DrvPreserve
  import opened DrvRuns
  import opened DrvExit

  // ---- who is meant ----

  /** Node c is the listed caller of this uuid, in NORMAL, and the pid fits. */
  predicate IsCaller(s: DrvState, c: nat, uuid: nat, pid: int) {
    && c in s.list && c < |s.nodes| && s.nodes[c].uuid == uuid && s.nodes[c].state == Normal
    && (pid == INVALID_PID || s.nodes[c].pid == INVALID_PID || s.nodes[c].pid == pid)
  }

  /** Node d is the listed driver of this name. */
  predicate IsDriver(s: DrvState, d: nat, name: string) {
    d in s.list && d < |s.nodes| && s.nodes[d].target == Drv && s.nodes[d].name == name && s.nodes[d].state != Exit
  }

  /** The list is searched for one node only. */
  lemma FindsIt(s: DrvState, n: nat, q: Query)
    requires ListOk(s) && n in s.list && n < |s.nodes| && Matches(s.nodes[n], q)
    ensures Find(s.nodes, s.list, q) == Some(n)
  {
    var r := Find(s.nodes, s.list, q);
    hide Find;
    var i :| 0 <= i < |s.list| && s.list[i] == n;
    var j :| 0 <= j < |s.list| && s.list[j] == r.value;
    assert i < j ==> Compatible(s.nodes[n], s.nodes[r.value]);
    assert j < i ==> Compatible(s.nodes[r.value], s.nodes[n]);
  }

  lemma FindsCaller(s: DrvState, c: nat, uuid: nat, pid: int)
    requires Inv(s) && IsCaller(s, c, uuid, pid)
    ensures Find(s.nodes, s.list, NormalUuid(uuid, pid)) == Some(c)
  {
    FindsIt(s, c, NormalUuid(uuid, pid));
  }

  lemma FindsDriver(s: DrvState, d: nat, name: string)
    requires Inv(s) && IsDriver(s, d, name)
    ensures Find(s.nodes, s.list, DrvName(name)) == Some(d)
  {
    FindsIt(s, d, DrvName(name));
  }

  /** The pid a caller node has once somebody asked with this pid. */
  function PidAfter(m: Node, pid: int): int { if pid != INVALID_PID && m.pid == INVALID_PID then pid else m.pid }

  // ---- on the way to the driver ----

  /** Thread t has the driver: it holds a reference on each node and a unit of fd_count, and nothing else differs. */
  ghost predicate GotDriver(s: DrvState, s': DrvState, t: nat, c: nat, d: nat, pid: int, name: string) {
    && t < |s.ops| && s' == s.(nodes := s'.nodes, ops := s.ops[t := Op(OpenHasDrv, c, d, 0, 0, name)])
    && |s'.nodes| == |s.nodes|
    && forall n :: 0 <= n < |s.nodes| ==> s'.nodes[n] == s.nodes[n].(
         refCnt := s.nodes[n].refCnt + B(n == c) + B(n == d), fdCount := s.nodes[n].fdCount + B(n == c),
         pid := if n == c then PidAfter(s.nodes[c], pid) else s.nodes[n].pid)
  }

  ghost predicate Room(s: DrvState, c: nat, d: nat) {
    && c < |s.nodes| && d < |s.nodes| && s.nodes[c].fdCount < 32
    && s.nodes[c].refCnt < UINT32_MAX && s.nodes[d].refCnt + B(c == d) < UINT32_MAX
  }

  lemma StartIs(s: DrvState, t: nat, uuid: nat, pid: int, name: string, c: nat) returns (s': DrvState)
    requires Inv(s) && At(s, t, Idle) && IsCaller(s, c, uuid, pid) && s.nodes[c].refCnt < UINT32_MAX
    ensures Enabled(s, OpenStart(t, uuid, pid, name)) && Disciplined(s, OpenStart(t, uuid, pid, name))
    ensures Apply(s, OpenStart(t, uuid, pid, name)) == s' && Inv(s')
    ensures var m := s.nodes[c];
      s' == s.(nodes := s.nodes[c := m.(refCnt := m.refCnt + 1, pid := PidAfter(m, pid))],
               ops := s.ops[t := Op(OpenHasCaller, c, 0, 0, 0, name)])
  {
    FindsCaller(s, c, uuid, pid);
    s' := Apply(s, OpenStart(t, uuid, pid, name));
    InvApply(s, OpenStart(t, uuid, pid, name));
    hide Inv, Find;
  }

  lemma CountIs(s: DrvState, t: nat) returns (s': DrvState)
    requires Inv(s) && At(s, t, OpenHasCaller) && s.nodes[s.ops[t].c].fdCount < TASK_FD_COUNT_MAX
    ensures Enabled(s, OpenCount(t)) && Disciplined(s, OpenCount(t)) && Apply(s, OpenCount(t)) == s' && Inv(s')
    ensures var o := s.ops[t];
      s' == s.(nodes := s.nodes[o.c := s.nodes[o.c].(fdCount := s.nodes[o.c].fdCount + 1)],
               ops := s.ops[t := o.(pc := OpenCounted)])
  {
    s' := Apply(s, OpenCount(t));
    InvApply(s, OpenCount(t));
    hide Inv;
  }

  lemma FindDrvIs(s: DrvState, t: nat, d: nat) returns (s': DrvState)
    requires Inv(s) && At(s, t, OpenCounted) && s.ops[t].name != "" && IsDriver(s, d, s.ops[t].name)
    requires s.nodes[d].refCnt < UINT32_MAX
    ensures Enabled(s, OpenFindDrv(t)) && Disciplined(s, OpenFindDrv(t)) && Apply(s, OpenFindDrv(t)) == s' && Inv(s')
    ensures s' == s.(nodes := s.nodes[d := s.nodes[d].(refCnt := s.nodes[d].refCnt + 1)],
                     ops := s.ops[t := s.ops[t].(pc := OpenHasDrv, d := d)])
  {
    FindsDriver(s, d, s.ops[t].name);
    s' := Apply(s, OpenFindDrv(t));
    InvApply(s, OpenFindDrv(t));
    hide Inv, Find;
  }

  /** An open gets as far as the driver of exactly the name asked for. */
  lemma OpenFindsDriver(s: DrvState, t: nat, uuid: nat, pid: int, name: string, c: nat, d: nat)
    requires Inv(s) && At(s, t, Idle) && IsCaller(s, c, uuid, pid) && name != "" && IsDriver(s, d, name) && Room(s, c, d)
    ensures var acts := [OpenStart(t, uuid, pid, name)] + [OpenCount(t)] + [OpenFindDrv(t)];
      IsRun(s, acts) && DisciplinedRun(s, acts) && Inv(After(s, acts)) && GotDriver(s, After(s, acts), t, c, d, pid, name)
  {
    hide Inv, Enabled, Apply, Disciplined, IsRun, DisciplinedRun, After;
    var s1 := StartIs(s, t, uuid, pid, name, c);
    OneStep(s, OpenStart(t, uuid, pid, name), s1);
    var s2 := CountIs(s1, t);
    AddStep(s, [OpenStart(t, uuid, pid, name)], OpenCount(t), s2);
    var s3 := FindDrvIs(s2, t, d);
    AddStep(s, [OpenStart(t, uuid, pid, name)] + [OpenCount(t)], OpenFindDrv(t), s3);
    assert s3.ops == s.ops[t := Op(OpenHasDrv, c, d, 0, 0, name)];
  }

  // ---- from the driver to a descriptor ----

  /** The driver may hand out this descriptor of its own. */
  predicate MayHandOut(s: DrvState, d: nat, local: nat)
    requires d < |s.nodes|
  {
    && 1 <= local <= FD_COUNT_MAX
    && var h := (d, s.nodes[d].drvIndex * FD_INDEX_UNIT + local);
       s.openLog[h] == s.closeLog[h]
  }

  /** Thread t is done: its caller has a new open descriptor of driver d at the end of its list. */
  ghost predicate GotFd(s: DrvState, s': DrvState, t: nat, local: nat) {
    && t < |s.ops| && s.ops[t].c < |s.nodes| && s.ops[t].d < |s.nodes|
    && var c, d := s.ops[t].c, s.ops[t].d;
       var fd := s.nodes[d].drvIndex * FD_INDEX_UNIT + local;
       s' == s.(nodes := s.nodes[c := s.nodes[c].(fds := s.nodes[c].fds + [FdEntry(fd, d, false)])],
                ops := s.ops[t := IDLE], openLog := s.openLog + multiset{(d, fd)})
  }

  lemma DriverIs(s: DrvState, t: nat, local: nat) returns (s': DrvState)
    requires At(s, t, OpenReady) && MayHandOut(s, s.ops[t].d, local)
    ensures Enabled(s, OpenDriver(t, local)) && Disciplined(s, OpenDriver(t, local)) && Apply(s, OpenDriver(t, local)) == s'
    ensures var fd := s.nodes[s.ops[t].d].drvIndex * FD_INDEX_UNIT + local;
      s' == s.(ops := s.ops[t := s.ops[t].(pc := OpenGotFd, fd := fd)], openLog := s.openLog + multiset{(s.ops[t].d, fd)})
  {
    s' := Apply(s, OpenDriver(t, local));
  }

  lemma AddFdIs(s: DrvState, t: nat) returns (s': DrvState)
    requires At(s, t, OpenGotFd)
    ensures Enabled(s, OpenAddFd(t)) && Disciplined(s, OpenAddFd(t)) && Apply(s, OpenAddFd(t)) == s'
    ensures var o := s.ops[t];
      s' == s.(nodes := s.nodes[o.c := s.nodes[o.c].(fds := s.nodes[o.c].fds + [FdEntry(o.fd, o.d, false)])],
               ops := s.ops[t := IDLE])
  {
    s' := Apply(s, OpenAddFd(t));
  }

  /** A thread whose driver is ready opens it and adds the descriptor, unless it is refused. */
  lemma ReadyOpens(s: DrvState, t: nat, local: nat)
    requires At(s, t, OpenReady) && MayHandOut(s, s.ops[t].d, local)
    ensures var acts := [OpenDriver(t, local)] + [OpenAddFd(t)];
      IsRun(s, acts) && DisciplinedRun(s, acts) && GotFd(s, After(s, acts), t, local)
  {
    hide Enabled, Apply, Disciplined, IsRun, DisciplinedRun, After, MayHandOut;
    var s1 := DriverIs(s, t, local);
    OneStep(s, OpenDriver(t, local), s1);
    var s2 := AddFdIs(s1, t);
    AddStep(s, [OpenDriver(t, local)], OpenAddFd(t), s2);
    assert s2.ops == s.ops[t := IDLE];
  }

  lemma CheckIs(s: DrvState, t: nat) returns (s': DrvState)
    requires CanCheckState(s, t)
    ensures Enabled(s, OpenCheckState(t)) && Disciplined(s, OpenCheckState(t)) && Apply(s, OpenCheckState(t)) == s'
    ensures var d := s.ops[t].d;
      var m := s.nodes[d];
      s' == match m.state
            case Normal => s.(ops := s.ops[t := s.ops[t].(pc := OpenReady)])
            case Spawn => s.(ops := s.ops[t := s.ops[t].(pc := OpenWaiting)])
            case Load =>
              if s.ops[t].pc == OpenHasDrv then
                s.(nodes := s.nodes[d := m.(state := Spawn)], ops := s.ops[t := s.ops[t].(pc := OpenSpawning)])
              else s.(ops := s.ops[t := s.ops[t].(pc := OpenPutDrv)])
            case _ => s.(ops := s.ops[t := s.ops[t].(pc := OpenPutDrv)])
  {
    s' := Apply(s, OpenCheckState(t));
  }

  lemma SameDone(s: DrvState, s1: DrvState, s': DrvState, t: nat, o: Op, local: nat)
    requires t < |s.ops| && s1 == s.(ops := s.ops[t := o]) && o.c == s.ops[t].c && o.d == s.ops[t].d
    requires GotFd(s1, s', t, local)
    ensures GotFd(s, s', t, local)
  {
    assert s1.ops[t := IDLE] == s.ops[t := IDLE];
  }

  /** Whoever has, or waited for, a driver that is in NORMAL gets every descriptor the driver may hand out. */
  lemma NormalDriverOpens(s: DrvState, t: nat, local: nat)
    requires At(s, t, OpenHasDrv) || At(s, t, OpenWaiting)
    requires s.nodes[s.ops[t].d].state == Normal && MayHandOut(s, s.ops[t].d, local)
    ensures var acts := [OpenCheckState(t)] + ([OpenDriver(t, local)] + [OpenAddFd(t)]);
      IsRun(s, acts) && DisciplinedRun(s, acts) && GotFd(s, After(s, acts), t, local)
  {
    hide Enabled, Apply, Disciplined, IsRun, DisciplinedRun, After, GotFd;
    var s1 := CheckIs(s, t);
    OneStep(s, OpenCheckState(t), s1);
    ReadyOpens(s1, t, local);
    var rest := [OpenDriver(t, local)] + [OpenAddFd(t)];
    RunConcat(s, [OpenCheckState(t)], rest);
    SameDone(s, s1, After(s1, rest), t, s1.ops[t], local);
  }

  lemma BroadcastIs(s: DrvState, t: nat, ok: bool, pid: int) returns (s': DrvState)
    requires At(s, t, OpenSpawning)
    ensures Enabled(s, OpenBroadcast(t, ok, pid)) && Disciplined(s, OpenBroadcast(t, ok, pid))
    ensures Apply(s, OpenBroadcast(t, ok, pid)) == s'
    ensures var o := s.ops[t];
      var m := s.nodes[o.d];
      if ok then s' == s.(nodes := s.nodes[o.d := m.(state := Normal, pid := pid)], ops := s.ops[t := o.(pc := OpenReady)])
      else s' == s.(nodes := s.nodes[o.d := m.(state := SpawnFail)], ops := s.ops[t := o.(pc := OpenPutDrv)])
  {
    s' := Apply(s, OpenBroadcast(t, ok, pid));
  }

  /** A loaded driver as its first opener leaves it. */
  function Spawned(s: DrvState, d: nat, pid: int): DrvState
    requires d < |s.nodes|
  {
    s.(nodes := s.nodes[d := s.nodes[d].(state := Normal, pid := pid)])
  }

  lemma FirstOpenerSpawns(s: DrvState, t: nat, pid: int) returns (s': DrvState)
    requires At(s, t, OpenHasDrv) && s.nodes[s.ops[t].d].state == Load
    ensures var acts := [OpenCheckState(t)] + [OpenBroadcast(t, true, pid)];
      IsRun(s, acts) && DisciplinedRun(s, acts) && After(s, acts) == s' && At(s', t, OpenReady)
    ensures s' == Spawned(s, s.ops[t].d, pid).(ops := s.ops[t := s.ops[t].(pc := OpenReady)])
  {
    hide Enabled, Apply, Disciplined, IsRun, DisciplinedRun, After;
    var s1 := CheckIs(s, t);
    OneStep(s, OpenCheckState(t), s1);
    s' := BroadcastIs(s1, t, true, pid);
    AddStep(s, [OpenCheckState(t)], OpenBroadcast(t, true, pid), s');
    assert s'.nodes == Spawned(s, s.ops[t].d, pid).nodes;
  }

  /** The first opener of a loaded driver spawns it, makes it NORMAL with its pid, and gets the descriptor. */
  lemma LoadedDriverSpawns(s: DrvState, t: nat, pid: int, local: nat)
    requires At(s, t, OpenHasDrv) && s.nodes[s.ops[t].d].state == Load && MayHandOut(s, s.ops[t].d, local)
    ensures var acts := [OpenCheckState(t)] + [OpenBroadcast(t, true, pid)] + ([OpenDriver(t, local)] + [OpenAddFd(t)]);
      IsRun(s, acts) && DisciplinedRun(s, acts) && GotFd(Spawned(s, s.ops[t].d, pid), After(s, acts), t, local)
  {
    hide Enabled, Apply, Disciplined, IsRun, DisciplinedRun, After, GotFd;
    var spawned := Spawned(s, s.ops[t].d, pid);
    var s2 := FirstOpenerSpawns(s, t, pid);
    assert MayHandOut(s2, s2.ops[t].d, local);
    hide Spawned;
    ReadyOpens(s2, t, local);
    var rest := [OpenDriver(t, local)] + [OpenAddFd(t)];
    RunConcat(s, [OpenCheckState(t)] + [OpenBroadcast(t, true, pid)], rest);
    SameDone(spawned, s2, After(s2, rest), t, s2.ops[t], local);
  }

  /** A finished open from idle to idle: one descriptor, and the references and the unit that go with it. */
  ghost predicate Opened(s: DrvState, s': DrvState, t: nat, c: nat, d: nat, fd: nat, pid: int) {
    && t < |s.ops| && s' == s.(nodes := s'.nodes, ops := s.ops[t := IDLE], openLog := s.openLog + multiset{(d, fd)})
    && |s'.nodes| == |s.nodes|
    && forall n :: 0 <= n < |s.nodes| ==> s'.nodes[n] == s.nodes[n].(
         refCnt := s.nodes[n].refCnt + B(n == c) + B(n == d), fdCount := s.nodes[n].fdCount + B(n == c),
         fds := s.nodes[n].fds + (if n == c then [FdEntry(fd, d, false)] else []),
         pid := if n == c then PidAfter(s.nodes[c], pid) else s.nodes[n].pid)
  }

  /** The actions of an open whose driver is running. */
  function OpenActs(t: nat, uuid: nat, pid: int, name: string, local: nat): seq<Action> {
    [OpenStart(t, uuid, pid, name)] + [OpenCount(t)] + [OpenFindDrv(t)]
    + ([OpenCheckState(t)] + ([OpenDriver(t, local)] + [OpenAddFd(t)]))
  }

  /**
    A whole open, in any state: with room, a listed caller and a running driver of the name asked
    for, the caller gets each descriptor that driver may hand out, with the driver's index in the
    upper half and the driver's own number in the lower, and nothing else changes.
   */
  lemma OpenSucceeds(s: DrvState, t: nat, uuid: nat, pid: int, name: string, c: nat, d: nat, local: nat)
    requires Inv(s) && At(s, t, Idle) && IsCaller(s, c, uuid, pid) && name != "" && IsDriver(s, d, name) && Room(s, c, d)
    requires s.nodes[d].state == Normal && MayHandOut(s, d, local)
    ensures var acts := OpenActs(t, uuid, pid, name, local);
      var fd := s.nodes[d].drvIndex * FD_INDEX_UNIT + local;
      && IsRun(s, acts) && DisciplinedRun(s, acts) && Opened(s, After(s, acts), t, c, d, fd, pid)
      && fd / FD_INDEX_UNIT == s.nodes[d].drvIndex && fd % FD_INDEX_UNIT == local
  {
    hide Enabled, Apply, Disciplined, IsRun, DisciplinedRun, After, Inv, GotDriver, GotFd, Opened;
    OpenFindsDriver(s, t, uuid, pid, name, c, d);
    var first := [OpenStart(t, uuid, pid, name)] + [OpenCount(t)] + [OpenFindDrv(t)];
    var s1 := After(s, first);
    StillReady(s, s1, t, c, d, pid, name, local);
    NormalDriverOpens(s1, t, local);
    var rest := [OpenCheckState(t)] + ([OpenDriver(t, local)] + [OpenAddFd(t)]);
    RunConcat(s, first, rest);
    ThenOpened(s, s1, After(s1, rest), t, c, d, pid, name, local);
  }

  lemma StillReady(s: DrvState, s1: DrvState, t: nat, c: nat, d: nat, pid: int, name: string, local: nat)
    requires GotDriver(s, s1, t, c, d, pid, name) && c < |s.nodes| && d < |s.nodes|
    requires s.nodes[d].state == Normal && MayHandOut(s, d, local)
    ensures At(s1, t, OpenHasDrv) && s1.ops[t].d == d && s1.nodes[d].state == Normal && MayHandOut(s1, d, local)
  {
  }

  lemma ThenOpened(s: DrvState, s1: DrvState, s': DrvState, t: nat, c: nat, d: nat, pid: int, name: string, local: nat)
    requires GotDriver(s, s1, t, c, d, pid, name) && c < |s.nodes| && d < |s.nodes| && GotFd(s1, s', t, local)
    ensures Opened(s, s', t, c, d, s.nodes[d].drvIndex * FD_INDEX_UNIT + local, pid)
  {
    assert s1.ops[t := IDLE] == s.ops[t := IDLE];
  }
}
