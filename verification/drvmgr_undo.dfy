/** Driver manager: an open that fails leaves nothing behind, and a close undoes an open. */
module DrvUndo {
  import opened Options
  import opened DrvTypes
  import opened DrvSteps
  import opened DrvInvariant
  import opened DrvPreserve
  import opened DrvRuns
  import opened DrvExit
  import opened DrvOutcomes

  // ---- giving back ----

  /** Thread t gives back what it holds, so it is there to be given. */
  lemma HeldIsCounted(s: DrvState, t: nat)
    requires Inv(s) && t < |s.ops| && s.ops[t].pc != Idle && s.ops[t].c < |s.nodes|
    ensures s.nodes[s.ops[t].c].refCnt >= CallerRefs(s.ops[t].pc, s.ops[t].k)
    ensures RefsDrv(s.ops[t].pc) ==>
      && s.ops[t].d < |s.nodes| && s.nodes[s.ops[t].d].target == Drv && s.nodes[s.ops[t].d].live
      && s.nodes[s.ops[t].d].refCnt >= 1
    ensures HoldsSlot(s.ops[t].pc) ==> s.nodes[s.ops[t].c].fdCount >= 1
    ensures CallerRefs(s.ops[t].pc, s.ops[t].k) > 0 ==> s.nodes[s.ops[t].c].live
  {
    var c, d := s.ops[t].c, s.ops[t].d;
    assert OpOk(s, t) && NodeAccounted(s, c) && NodeCounts(s, c);
    OpsTotalAtLeast(s.ops, t, Ref(c));
    OpsTotalAtLeast(s.ops, t, Slot(c));
    if RefsDrv(s.ops[t].pc) {
      assert NodeAccounted(s, d);
      OpsTotalAtLeast(s.ops, t, Ref(d));
    }
    hide OpsTotal, NodesTotal;
  }

  lemma PutDrvIs(s: DrvState, t: nat) returns (s': DrvState)
    requires Inv(s) && CanPutDrv(s, t)
    ensures Enabled(s, PutDrv(t)) && Disciplined(s, PutDrv(t)) && Apply(s, PutDrv(t)) == s' && Inv(s')
    ensures s.nodes[s.ops[t].d].refCnt >= 1
    ensures var o := s.ops[t];
      var o' := if o.pc == OpenPutDrv then o.(pc := OpenPutCount)
                else if o.pc == ClosePutDrv then o.(pc := PutCaller, k := 2) else o.(pc := ExitScan);
      s' == s.(nodes := s.nodes[o.d := s.nodes[o.d].(refCnt := s.nodes[o.d].refCnt - 1)], ops := s.ops[t := o'])
  {
    HeldIsCounted(s, t);
    s' := Apply(s, PutDrv(t));
    InvApply(s, PutDrv(t));
    hide Inv, Without;
  }

  lemma PutCountIs(s: DrvState, t: nat) returns (s': DrvState)
    requires Inv(s) && At(s, t, OpenPutCount)
    ensures Enabled(s, PutCount(t)) && Disciplined(s, PutCount(t)) && Apply(s, PutCount(t)) == s' && Inv(s')
    ensures s.nodes[s.ops[t].c].fdCount >= 1
    ensures var o := s.ops[t];
      s' == s.(nodes := s.nodes[o.c := s.nodes[o.c].(fdCount := s.nodes[o.c].fdCount - 1)],
               ops := s.ops[t := o.(pc := PutCaller, k := 1)])
  {
    HeldIsCounted(s, t);
    s' := Apply(s, PutCount(t));
    InvApply(s, PutCount(t));
    hide Inv;
  }

  /** The last k references on a TA's node free it. */
  predicate Frees(m: Node, k: nat) { m.target == Ta && m.refCnt == k }

  lemma PutCallerIs(s: DrvState, t: nat) returns (s': DrvState)
    requires Inv(s) && At(s, t, PutCaller)
    ensures Enabled(s, PutCallerNode(t)) && Disciplined(s, PutCallerNode(t)) && Apply(s, PutCallerNode(t)) == s' && Inv(s')
    ensures s.nodes[s.ops[t].c].refCnt >= s.ops[t].k && s.nodes[s.ops[t].c].live
    ensures var c, k := s.ops[t].c, s.ops[t].k;
      var m := s.nodes[c];
      s' == s.(nodes := s.nodes[c := m.(refCnt := m.refCnt - k, live := !Frees(m, k))],
               list := if Frees(m, k) then Without(s.list, c) else s.list, ops := s.ops[t := IDLE])
  {
    assert OpOk(s, t);
    HeldIsCounted(s, t);
    s' := Apply(s, PutCallerNode(t));
    InvApply(s, PutCallerNode(t));
    hide Inv, Without;
  }

  /** The thread has given back what an open holds, and its caller's node is gone if these were the last references. */
  ghost predicate BackedOut(s: DrvState, s': DrvState, t: nat, c: nat, d: nat) {
    && t < |s.ops| && c < |s.nodes| && d < |s.nodes| && |s'.nodes| == |s.nodes|
    && s' == s.(nodes := s'.nodes, ops := s.ops[t := IDLE],
                list := if c != d && Frees(s.nodes[c], 1) then Without(s.list, c) else s.list)
    && s.nodes[c].refCnt >= 1 + B(c == d) && s.nodes[d].refCnt >= 1 && s.nodes[c].fdCount >= 1 && s.nodes[c].live
    && forall n :: 0 <= n < |s.nodes| ==> s'.nodes[n] == s.nodes[n].(
         refCnt := s.nodes[n].refCnt - B(n == c) - B(n == d), fdCount := s.nodes[n].fdCount - B(n == c),
         live := s.nodes[n].live && !(n == c && c != d && Frees(s.nodes[c], 1)))
  }

  lemma BacksOut(s: DrvState, t: nat)
    requires Inv(s) && At(s, t, OpenPutDrv)
    ensures var acts := [PutDrv(t)] + [PutCount(t)] + [PutCallerNode(t)];
      IsRun(s, acts) && DisciplinedRun(s, acts) && BackedOut(s, After(s, acts), t, s.ops[t].c, s.ops[t].d)
  {
    hide Inv, Enabled, Apply, Disciplined, IsRun, DisciplinedRun, After, Without, BackedOut, Frees;
    HeldIsCounted(s, t);
    var s1 := PutDrvIs(s, t);
    OneStep(s, PutDrv(t), s1);
    var s2 := PutCountIs(s1, t);
    AddStep(s, [PutDrv(t)], PutCount(t), s2);
    var s3 := PutCallerIs(s2, t);
    AddStep(s, [PutDrv(t)] + [PutCount(t)], PutCallerNode(t), s3);
    GivenBack(s, s1, s2, s3, t);
  }

  /** The three puts together. */
  lemma GivenBack(s: DrvState, s1: DrvState, s2: DrvState, s3: DrvState, t: nat)
    requires t < |s.ops| && s.ops[t].c < |s.nodes| && s.ops[t].d < |s.nodes|
    requires var d := s.ops[t].d;
      && s.nodes[d].refCnt >= 1 && s.nodes[d].target == Drv && |s1.ops| == |s.ops|
      && s1 == s.(nodes := s.nodes[d := s.nodes[d].(refCnt := s.nodes[d].refCnt - 1)], ops := s.ops[t := s1.ops[t]])
    requires var c := s.ops[t].c;
      && s1.nodes[c].fdCount >= 1 && |s2.ops| == |s.ops|
      && s2 == s1.(nodes := s1.nodes[c := s1.nodes[c].(fdCount := s1.nodes[c].fdCount - 1)], ops := s1.ops[t := s2.ops[t]])
      && s2.nodes[c].refCnt >= 1 && s2.nodes[c].live
      && s3 == s2.(nodes := s2.nodes[c := s2.nodes[c].(refCnt := s2.nodes[c].refCnt - 1, live := !Frees(s2.nodes[c], 1))],
                   list := if Frees(s2.nodes[c], 1) then Without(s2.list, c) else s2.list, ops := s2.ops[t := IDLE])
    ensures BackedOut(s, s3, t, s.ops[t].c, s.ops[t].d)
  {
    hide Without;
    assert s3.ops == s.ops[t := IDLE];
  }

  lemma RefuseIs(s: DrvState, t: nat) returns (s': DrvState)
    requires Inv(s) && CanRefuse(s, t)
    ensures Enabled(s, Refuse(t)) && Disciplined(s, Refuse(t)) && Apply(s, Refuse(t)) == s' && Inv(s')
    ensures var o := s.ops[t];
      s' == s.(ops := s.ops[t :=
        match o.pc
        case OpenHasCaller => o.(pc := PutCaller, k := 1)
        case OpenCounted => o.(pc := OpenPutCount)
        case OpenGotFd => o.(pc := OpenUndo)
        case _ => o.(pc := OpenPutDrv)])
  {
    s' := Apply(s, Refuse(t));
    InvApply(s, Refuse(t));
    hide Inv;
  }

  lemma SameBackedOut(s: DrvState, s1: DrvState, s': DrvState, t: nat, o: Op, c: nat, d: nat)
    requires t < |s.ops| && s1 == s.(ops := s.ops[t := o]) && BackedOut(s1, s', t, c, d)
    ensures BackedOut(s, s', t, c, d)
  {
    assert s1.ops[t := IDLE] == s.ops[t := IDLE];
    hide Without;
  }

  /** An open that is refused once it has its driver gives everything back. */
  lemma RefusedBacksOut(s: DrvState, t: nat)
    requires Inv(s) && (At(s, t, OpenHasDrv) || At(s, t, OpenWaiting) || At(s, t, OpenReady))
    ensures var acts := [Refuse(t)] + ([PutDrv(t)] + [PutCount(t)] + [PutCallerNode(t)]);
      IsRun(s, acts) && DisciplinedRun(s, acts) && BackedOut(s, After(s, acts), t, s.ops[t].c, s.ops[t].d)
  {
    hide Inv, Enabled, Apply, Disciplined, IsRun, DisciplinedRun, After, BackedOut;
    var s1 := RefuseIs(s, t);
    OneStep(s, Refuse(t), s1);
    BacksOut(s1, t);
    var rest := [PutDrv(t)] + [PutCount(t)] + [PutCallerNode(t)];
    RunConcat(s, [Refuse(t)], rest);
    SameBackedOut(s, s1, After(s1, rest), t, s1.ops[t], s.ops[t].c, s.ops[t].d);
  }

  /** One that fails with a descriptor in hand also gives that back, to the driver it came from. */
  lemma UndoneBacksOut(s: DrvState, t: nat)
    requires Inv(s) && At(s, t, OpenGotFd)
    ensures var acts := [Refuse(t)] + [CallClose(t)] + ([PutDrv(t)] + [PutCount(t)] + [PutCallerNode(t)]);
      var o := s.ops[t];
      IsRun(s, acts) && DisciplinedRun(s, acts)
      && BackedOut(s.(closeLog := s.closeLog + multiset{(o.d, o.fd)}), After(s, acts), t, o.c, o.d)
  {
    hide Inv, Enabled, Apply, Disciplined, IsRun, DisciplinedRun, After, BackedOut;
    var o := s.ops[t];
    var s1 := RefuseIs(s, t);
    OneStep(s, Refuse(t), s1);
    var s2 := CloseCallIs(s1, t);
    AddStep(s, [Refuse(t)], CallClose(t), s2);
    BacksOut(s2, t);
    var rest := [PutDrv(t)] + [PutCount(t)] + [PutCallerNode(t)];
    RunConcat(s, [Refuse(t)] + [CallClose(t)], rest);
    var told := s.(closeLog := s.closeLog + multiset{(o.d, o.fd)});
    assert s2 == told.(ops := told.ops[t := s2.ops[t]]);
    SameBackedOut(told, s2, After(s2, rest), t, s2.ops[t], o.c, o.d);
  }

  lemma CloseCallIs(s: DrvState, t: nat) returns (s': DrvState)
    requires Inv(s) && CanCallClose(s, t)
    ensures Enabled(s, CallClose(t)) && Disciplined(s, CallClose(t)) && Apply(s, CallClose(t)) == s' && Inv(s')
    ensures var o := s.ops[t];
      var pc := if o.pc == OpenUndo then OpenPutDrv else if o.pc == CloseDeleted then ClosePutDrv else ExitPutDrv;
      s' == s.(ops := s.ops[t := o.(pc := pc)], closeLog := s.closeLog + multiset{(o.d, o.fd)})
  {
    s' := Apply(s, CallClose(t));
    InvApply(s, CallClose(t));
    hide Inv;
  }

  // ---- a whole open that fails ----

  /** Nothing is left of the call but the pid that a caller's node adopts. */
  ghost predicate LeftNothing(s: DrvState, s': DrvState, t: nat, c: nat, pid: int) {
    t < |s.ops| && c < |s.nodes|
    && s' == s.(nodes := s.nodes[c := s.nodes[c].(pid := PidAfter(s.nodes[c], pid))], ops := s.ops[t := IDLE])
  }

  /** What was taken on the way to the driver is what is given back. */
  lemma TakenAndGivenBack(s: DrvState, s1: DrvState, s': DrvState, t: nat, c: nat, d: nat, pid: int, name: string)
    requires Inv(s) && GotDriver(s, s1, t, c, d, pid, name) && BackedOut(s1, s', t, c, d) && c in s.list
    ensures LeftNothing(s, s', t, c, pid)
  {
    assert NodeOk(s, c);
    assert s.nodes[c].live;
    hide Inv, Without;
    assert s1.ops[t := IDLE] == s.ops[t := IDLE];
    forall n | 0 <= n < |s.nodes|
      ensures s'.nodes[n] == s.nodes[c := s.nodes[c].(pid := PidAfter(s.nodes[c], pid))][n]
    {
    }
  }

  /** An open of a driver that could not be spawned fails and leaves nothing. */
  lemma DeadDriverLeavesNothing(s: DrvState, t: nat, uuid: nat, pid: int, name: string, c: nat, d: nat)
    requires Inv(s) && At(s, t, Idle) && IsCaller(s, c, uuid, pid) && name != "" && IsDriver(s, d, name) && Room(s, c, d)
    requires s.nodes[d].state == SpawnFail
    ensures var acts := [OpenStart(t, uuid, pid, name)] + [OpenCount(t)] + [OpenFindDrv(t)]
                      + ([OpenCheckState(t)] + ([PutDrv(t)] + [PutCount(t)] + [PutCallerNode(t)]));
      IsRun(s, acts) && DisciplinedRun(s, acts) && LeftNothing(s, After(s, acts), t, c, pid)
  {
    hide Enabled, Apply, Disciplined, IsRun, DisciplinedRun, After, Inv, GotDriver, BackedOut, LeftNothing;
    OpenFindsDriver(s, t, uuid, pid, name, c, d);
    var first := [OpenStart(t, uuid, pid, name)] + [OpenCount(t)] + [OpenFindDrv(t)];
    var s1 := After(s, first);
    HasTheDriver(s, s1, t, c, d, pid, name);
    var s2 := CheckIs(s1, t);
    CheckKeeps(s1, t);
    OneStep(s1, OpenCheckState(t), s2);
    BacksOut(s2, t);
    var back := [PutDrv(t)] + [PutCount(t)] + [PutCallerNode(t)];
    RunConcat(s1, [OpenCheckState(t)], back);
    SameBackedOut(s1, s2, After(s2, back), t, s2.ops[t], c, d);
    RunConcat(s, first, [OpenCheckState(t)] + back);
    TakenAndGivenBack(s, s1, After(s2, back), t, c, d, pid, name);
  }

  lemma HasTheDriver(s: DrvState, s1: DrvState, t: nat, c: nat, d: nat, pid: int, name: string)
    requires GotDriver(s, s1, t, c, d, pid, name) && c < |s.nodes| && d < |s.nodes|
    ensures At(s1, t, OpenHasDrv) && s1.ops[t].c == c && s1.ops[t].d == d && s1.nodes[d].state == s.nodes[d].state
  {
  }

  lemma CheckKeeps(s: DrvState, t: nat)
    requires Inv(s) && CanCheckState(s, t)
    ensures Inv(Apply(s, OpenCheckState(t)))
  {
    InvApply(s, OpenCheckState(t));
  }

  /** A caller that has all its descriptors in use is refused, and nothing is left. */
  lemma FullCallerLeavesNothing(s: DrvState, t: nat, uuid: nat, pid: int, name: string, c: nat)
    requires Inv(s) && At(s, t, Idle) && IsCaller(s, c, uuid, pid) && s.nodes[c].refCnt < UINT32_MAX
    requires s.nodes[c].fdCount >= 32
    ensures var acts := [OpenStart(t, uuid, pid, name)] + [OpenCount(t)] + [PutCallerNode(t)];
      IsRun(s, acts) && DisciplinedRun(s, acts) && LeftNothing(s, After(s, acts), t, c, pid)
  {
    hide Enabled, Apply, Disciplined, IsRun, DisciplinedRun, After, Inv, Without, LeftNothing, Frees, PidAfter;
    ListedIsLive(s, c);
    var s1 := StartIs(s, t, uuid, pid, name, c);
    OneStep(s, OpenStart(t, uuid, pid, name), s1);
    var s2 := FullIs(s1, t);
    AddStep(s, [OpenStart(t, uuid, pid, name)], OpenCount(t), s2);
    var s3 := PutCallerIs(s2, t);
    AddStep(s, [OpenStart(t, uuid, pid, name)] + [OpenCount(t)], PutCallerNode(t), s3);
    CallerAsBefore(s, s1, s2, s3, t, c, pid);
  }

  lemma ListedIsLive(s: DrvState, c: nat)
    requires Inv(s) && c in s.list && c < |s.nodes|
    ensures s.nodes[c].live && (s.nodes[c].target == Ta ==> s.nodes[c].refCnt >= 1)
  {
    assert NodeOk(s, c);
  }

  /** The reference a call took on its caller's node is the one it gives back. */
  lemma CallerAsBefore(s: DrvState, s1: DrvState, s2: DrvState, s3: DrvState, t: nat, c: nat, pid: int)
    requires t < |s.ops| && c < |s.nodes| && s.nodes[c].live && (s.nodes[c].target == Ta ==> s.nodes[c].refCnt >= 1)
    requires |s1.ops| == |s2.ops| == |s.ops| && s1.ops == s.ops[t := s1.ops[t]] && s2.ops == s1.ops[t := s2.ops[t]]
    requires s1 == s.(nodes := s.nodes[c := s.nodes[c].(refCnt := s.nodes[c].refCnt + 1, pid := PidAfter(s.nodes[c], pid))],
                      ops := s1.ops)
    requires s2 == s1.(ops := s2.ops)
    requires s3 == s2.(nodes := s2.nodes[c := s2.nodes[c].(refCnt := s2.nodes[c].refCnt - 1, live := !Frees(s2.nodes[c], 1))],
                       list := if Frees(s2.nodes[c], 1) then Without(s2.list, c) else s2.list, ops := s2.ops[t := IDLE])
    ensures LeftNothing(s, s3, t, c, pid)
  {
    hide Without;
    assert s3.ops == s.ops[t := IDLE];
    assert s3.nodes == s.nodes[c := s.nodes[c].(pid := PidAfter(s.nodes[c], pid))];
  }

  lemma FullIs(s: DrvState, t: nat) returns (s': DrvState)
    requires Inv(s) && At(s, t, OpenHasCaller) && s.nodes[s.ops[t].c].fdCount >= 32
    ensures Enabled(s, OpenCount(t)) && Disciplined(s, OpenCount(t)) && Apply(s, OpenCount(t)) == s' && Inv(s')
    ensures s' == s.(ops := s.ops[t := s.ops[t].(pc := PutCaller, k := 1)])
  {
    s' := Apply(s, OpenCount(t));
    InvApply(s, OpenCount(t));
    hide Inv;
  }

  ghost predicate NoDriver(s: DrvState, name: string) { forall d: nat :: !IsDriver(s, d, name) }

  lemma NotFoundIs(s: DrvState, t: nat) returns (s': DrvState)
    requires Inv(s) && At(s, t, OpenCounted) && (s.ops[t].name == "" || NoDriver(s, s.ops[t].name))
    ensures Enabled(s, OpenFindDrv(t)) && Disciplined(s, OpenFindDrv(t)) && Apply(s, OpenFindDrv(t)) == s' && Inv(s')
    ensures s' == s.(ops := s.ops[t := s.ops[t].(pc := OpenPutCount)])
  {
    var r := Find(s.nodes, s.list, DrvName(s.ops[t].name));
    assert r.Some? ==> IsDriver(s, r.value, s.ops[t].name);
    s' := Apply(s, OpenFindDrv(t));
    InvApply(s, OpenFindDrv(t));
    hide Inv, Find;
  }

  /** The unit of fd_count is given back. */
  lemma NotFoundGivesBack(s: DrvState, t: nat) returns (s': DrvState)
    requires Inv(s) && At(s, t, OpenCounted) && (s.ops[t].name == "" || NoDriver(s, s.ops[t].name))
    ensures IsRun(s, [OpenFindDrv(t)] + [PutCount(t)]) && DisciplinedRun(s, [OpenFindDrv(t)] + [PutCount(t)])
    ensures After(s, [OpenFindDrv(t)] + [PutCount(t)]) == s' && Inv(s')
    ensures var o := s.ops[t];
      && s.nodes[o.c].fdCount >= 1
      && s' == s.(nodes := s.nodes[o.c := s.nodes[o.c].(fdCount := s.nodes[o.c].fdCount - 1)],
                  ops := s.ops[t := o.(pc := PutCaller, k := 1)])
  {
    hide Enabled, Apply, Disciplined, IsRun, DisciplinedRun, After, Inv, NoDriver;
    var s1 := NotFoundIs(s, t);
    OneStep(s, OpenFindDrv(t), s1);
    s' := PutCountIs(s1, t);
    AddStep(s, [OpenFindDrv(t)], PutCount(t), s');
  }

  /** Without a listed driver of that name the open fails and leaves nothing. */
  lemma NoDriverLeavesNothing(s: DrvState, t: nat, uuid: nat, pid: int, name: string, c: nat)
    requires Inv(s) && At(s, t, Idle) && IsCaller(s, c, uuid, pid) && s.nodes[c].refCnt < UINT32_MAX
    requires s.nodes[c].fdCount < TASK_FD_COUNT_MAX && (name == "" || NoDriver(s, name))
    ensures var acts := [OpenStart(t, uuid, pid, name)] + [OpenCount(t)] + ([OpenFindDrv(t)] + [PutCount(t)])
                      + [PutCallerNode(t)];
      IsRun(s, acts) && DisciplinedRun(s, acts) && LeftNothing(s, After(s, acts), t, c, pid)
  {
    hide Enabled, Apply, Disciplined, IsRun, DisciplinedRun, After, Inv, Without, LeftNothing, Frees, PidAfter, NoDriver;
    ListedIsLive(s, c);
    var start, none := [OpenStart(t, uuid, pid, name)] + [OpenCount(t)], [OpenFindDrv(t)] + [PutCount(t)];
    var s1, s4 := CountedAndBack(s, t, uuid, pid, name, c);
    var s5 := PutCallerIs(s4, t);
    AddStep(s, start + none, PutCallerNode(t), s5);
    CallerAsBefore(s, s1, s4, s5, t, c, pid);
  }

  /** The unit that was counted is the one given back. */
  lemma CountedAndBack(s: DrvState, t: nat, uuid: nat, pid: int, name: string, c: nat) returns (s1: DrvState, s': DrvState)
    requires Inv(s) && At(s, t, Idle) && IsCaller(s, c, uuid, pid) && s.nodes[c].refCnt < UINT32_MAX
    requires s.nodes[c].fdCount < TASK_FD_COUNT_MAX && (name == "" || NoDriver(s, name))
    ensures var m := s.nodes[c];
      s1 == s.(nodes := s.nodes[c := m.(refCnt := m.refCnt + 1, pid := PidAfter(m, pid))],
               ops := s.ops[t := Op(OpenHasCaller, c, 0, 0, 0, name)])
    ensures var acts := [OpenStart(t, uuid, pid, name)] + [OpenCount(t)] + ([OpenFindDrv(t)] + [PutCount(t)]);
      IsRun(s, acts) && DisciplinedRun(s, acts) && After(s, acts) == s' && Inv(s')
    ensures s' == s1.(ops := s1.ops[t := Op(PutCaller, c, 0, 0, 1, name)])
  {
    hide Enabled, Apply, Disciplined, IsRun, DisciplinedRun, After, Inv, PidAfter, NoDriver;
    s1 := StartIs(s, t, uuid, pid, name, c);
    OneStep(s, OpenStart(t, uuid, pid, name), s1);
    var s2 := CountIs(s1, t);
    AddStep(s, [OpenStart(t, uuid, pid, name)], OpenCount(t), s2);
    SameDrivers(s, s2, name);
    s' := NotFoundGivesBack(s2, t);
    RunConcat(s, [OpenStart(t, uuid, pid, name)] + [OpenCount(t)], [OpenFindDrv(t)] + [PutCount(t)]);
    UpAndDown(s1.nodes, c);
    assert s'.ops == s1.ops[t := Op(PutCaller, c, 0, 0, 1, name)];
  }

  lemma UpAndDown(nodes: seq<Node>, c: nat)
    requires c < |nodes|
    ensures var up := nodes[c := nodes[c].(fdCount := nodes[c].fdCount + 1)];
      up[c := up[c].(fdCount := up[c].fdCount - 1)] == nodes
  {
  }

  lemma SameDrivers(s: DrvState, s': DrvState, name: string)
    requires s'.list == s.list && |s'.nodes| == |s.nodes|
    requires forall n :: 0 <= n < |s.nodes| ==>
      s'.nodes[n].target == s.nodes[n].target && s'.nodes[n].name == s.nodes[n].name && s'.nodes[n].state == s.nodes[n].state
    ensures NoDriver(s, name) ==> NoDriver(s', name)
  {
    forall d: nat | NoDriver(s, name) ensures !IsDriver(s', d, name) {
      assert !IsDriver(s, d, name);
    }
  }

  /** A caller whose reference counter is at its maximum is refused at once; only the pid is adopted. */
  lemma SaturatedCallerIsRefused(s: DrvState, t: nat, uuid: nat, pid: int, name: string, fd: nat, c: nat)
    requires Inv(s) && At(s, t, Idle) && IsCaller(s, c, uuid, pid) && s.nodes[c].refCnt == 0xFFFF_FFFF
    ensures var left := s.(nodes := s.nodes[c := s.nodes[c].(pid := PidAfter(s.nodes[c], pid))]);
      && Enabled(s, OpenStart(t, uuid, pid, name)) && Apply(s, OpenStart(t, uuid, pid, name)) == left
      && Enabled(s, CloseStart(t, uuid, pid, fd)) && Apply(s, CloseStart(t, uuid, pid, fd)) == left
  {
    FindsCaller(s, c, uuid, pid);
    hide Inv, Find;
  }

  /** A driver whose reference counter is at its maximum cannot be opened. */
  lemma SaturatedDriverIsRefused(s: DrvState, t: nat, d: nat)
    requires Inv(s) && At(s, t, OpenCounted) && s.ops[t].name != "" && IsDriver(s, d, s.ops[t].name)
    requires s.nodes[d].refCnt == 0xFFFF_FFFF
    ensures Enabled(s, OpenFindDrv(t)) && Apply(s, OpenFindDrv(t)) == s.(ops := s.ops[t := s.ops[t].(pc := OpenPutCount)])
  {
    FindsDriver(s, d, s.ops[t].name);
    hide Inv, Find;
  }

  /** A call by somebody without a node ends at once and changes nothing. */
  lemma UnknownCallerIsRefused(s: DrvState, t: nat, uuid: nat, pid: int, name: string, fd: nat)
    requires At(s, t, Idle) && forall c: nat :: !IsCaller(s, c, uuid, pid)
    ensures Enabled(s, OpenStart(t, uuid, pid, name)) && Apply(s, OpenStart(t, uuid, pid, name)) == s
    ensures Enabled(s, CloseStart(t, uuid, pid, fd)) && Apply(s, CloseStart(t, uuid, pid, fd)) == s
  {
    var r := Find(s.nodes, s.list, NormalUuid(uuid, pid));
    assert r.Some? ==> IsCaller(s, r.value, uuid, pid);
    hide Find;
  }
}
