/** Driver manager: what registering, unregistering and exiting come to. */
module DrvRegistry {
  import opened Options
  import opened DrvTypes
  import opened DrvSteps
  import opened DrvInvariant
  import opened DrvPreserve
  import opened DrvRuns
  import opened DrvManager
  import opened DrvExit
  import opened DrvOutcomes
  import opened DrvUndo

  // ---- registration ----

  /** No listed node answers for this uuid. */
  ghost predicate NoNode(s: DrvState, uuid: nat) {
    forall n :: n in s.list && n < |s.nodes| ==> s.nodes[n].uuid != uuid || s.nodes[n].state == Exit
  }

  /** The state with one more node, which joins the list if it is admitted and is freed at once otherwise. */
  function Joined(s: DrvState, t: nat, m: Node, admitted: bool): DrvState
    requires t < |s.ops|
  {
    s.(nodes := s.nodes + [if admitted then m else m.(refCnt := 0, live := false, registered := false)],
       list := if admitted then s.list + [|s.nodes|] else s.list, ops := s.ops[t := IDLE])
  }

  lemma SameSearch(s: DrvState, s1: DrvState, m: Node, q: Query)
    requires s1.nodes == s.nodes + [m] && s1.list == s.list && ListOk(s)
    ensures Find(s1.nodes, s1.list, q).None? <==> Find(s.nodes, s.list, q).None?
  {
    assert forall n :: n in s.list && n < |s.nodes| ==> s1.nodes[n] == s.nodes[n];
  }

  lemma SearchUuid(s: DrvState, uuid: nat)
    requires ListOk(s)
    ensures Find(s.nodes, s.list, EffectiveUuid(uuid)).None? <==> NoNode(s, uuid)
  {
    hide Find;
  }

  lemma SearchName(s: DrvState, name: string)
    requires ListOk(s)
    ensures Find(s.nodes, s.list, DrvName(name)).None? <==> NoDriver(s, name)
  {
    hide Find;
    var r := Find(s.nodes, s.list, DrvName(name));
    if r.Some? {
      assert IsDriver(s, r.value, name);
    }
  }

  lemma ReceiveTaIs(s: DrvState, s1: DrvState, t: nat, m: Node, pc: Pc, name: string, policyOk: bool) returns (s': DrvState)
    requires ListOk(s) && t < |s.ops| && m.target == Ta && (pc == Registering || pc == OpenRegistering)
    requires s1 == s.(nodes := s.nodes + [m], ops := s.ops[t := Op(pc, |s.nodes|, 0, 0, 0, name)])
    ensures Enabled(s1, Receive(t, policyOk)) && Disciplined(s1, Receive(t, policyOk)) && Apply(s1, Receive(t, policyOk)) == s'
    ensures
      if pc == OpenRegistering && NoNode(s, m.uuid) then
        s' == Joined(s, t, m, true).(ops := s.ops[t := Op(OpenHasCaller, |s.nodes|, 0, 0, 0, name)])
      else s' == Joined(s, t, m, NoNode(s, m.uuid))
  {
    SearchUuid(s, m.uuid);
    SameSearch(s, s1, m, EffectiveUuid(m.uuid));
    hide Find, NoNode, ListOk;
    assert Admitted(s1.nodes, s1.list, m, policyOk) <==> NoNode(s, m.uuid);
    s' := Apply(s1, Receive(t, policyOk));
    hide Admitted;
    OverwriteLast(s.nodes, m, m.(refCnt := 0, live := false, registered := false));
    OverwriteOp(s.ops, t, s1.ops[t], IDLE);
    OverwriteOp(s.ops, t, s1.ops[t], s1.ops[t].(pc := OpenHasCaller));
  }

  lemma OverwriteLast(nodes: seq<Node>, m: Node, m': Node)
    ensures (nodes + [m])[|nodes| := m'] == nodes + [m']
  {
  }

  lemma OverwriteOp(ops: seq<Op>, t: nat, o: Op, o': Op)
    requires t < |ops|
    ensures ops[t := o][t := o'] == ops[t := o']
  {
  }

  lemma ListIsOk(s: DrvState)
    requires Inv(s)
    ensures ListOk(s)
  {
  }

  /** A TA is registered exactly if no listed node answers for its uuid: with the registration's reference, in NORMAL. */
  lemma TaRegisters(s: DrvState, t: nat, uuid: nat, policyOk: bool)
    requires Inv(s) && At(s, t, Idle)
    ensures var acts := [RegisterTa(t, uuid)] + [Receive(t, policyOk)];
      && IsRun(s, acts) && DisciplinedRun(s, acts)
      && After(s, acts) ==
         Joined(s, t, Node(Ta, uuid, "", 0, false, INVALID_PID, 1, 0, [], Normal, true, true), NoNode(s, uuid))
  {
    ListIsOk(s);
    hide Inv, ListOk, NoNode;
    var m := Node(Ta, uuid, "", 0, false, INVALID_PID, 1, 0, [], Normal, true, true);
    var s1 := Apply(s, RegisterTa(t, uuid));
    assert s1 == s.(nodes := s.nodes + [m], ops := s.ops[t := Op(Registering, |s.nodes|, 0, 0, 0, "")]);
    var s2 := ReceiveTaIs(s, s1, t, m, Registering, "", policyOk);
    assert Enabled(s, RegisterTa(t, uuid)) && Disciplined(s, RegisterTa(t, uuid));
    hide Enabled, Apply, IsRun, DisciplinedRun, After, Disciplined, Joined;
    OneStep(s, RegisterTa(t, uuid), s1);
    AddStep(s, [RegisterTa(t, uuid)], Receive(t, policyOk), s2);
  }

  /** A caller without a node gets one on the fly, held by its open only, and the open goes on; or the open ends. */
  lemma ImplicitRegisters(s: DrvState, t: nat, uuid: nat, pid: int, name: string, policyOk: bool)
    requires Inv(s) && At(s, t, Idle) && forall c: nat :: !IsCaller(s, c, uuid, pid)
    ensures var acts := [RegisterImplicit(t, uuid, pid, name)] + [Receive(t, policyOk)];
      var m := Node(Ta, uuid, "", 0, false, pid, 1, 0, [], Normal, true, false);
      && IsRun(s, acts) && DisciplinedRun(s, acts)
      && After(s, acts) ==
         if NoNode(s, uuid) then Joined(s, t, m, true).(ops := s.ops[t := Op(OpenHasCaller, |s.nodes|, 0, 0, 0, name)])
         else Joined(s, t, m, false)
  {
    ListIsOk(s);
    hide Inv, NoNode;
    var a := RegisterImplicit(t, uuid, pid, name);
    var r := Find(s.nodes, s.list, NormalUuid(uuid, pid));
    assert r.Some? ==> IsCaller(s, r.value, uuid, pid);
    hide ListOk, Find;
    var m := Node(Ta, uuid, "", 0, false, pid, 1, 0, [], Normal, true, false);
    var s1 := Apply(s, a);
    assert s1 == s.(nodes := s.nodes + [m], ops := s.ops[t := Op(OpenRegistering, |s.nodes|, 0, 0, 0, name)]);
    var s2 := ReceiveTaIs(s, s1, t, m, OpenRegistering, name, policyOk);
    assert Enabled(s, a) && Disciplined(s, a);
    hide Enabled, Apply, IsRun, DisciplinedRun, After, Disciplined, Joined;
    OneStep(s, a, s1);
    AddStep(s, [a], Receive(t, policyOk), s2);
  }

  /** What a driver must be to be listed. */
  ghost predicate MayJoin(s: DrvState, uuid: nat, name: string, crypto: bool, policyOk: bool) {
    !crypto && 0 < |name| < 32 && NoNode(s, uuid) && NoDriver(s, name) && policyOk
  }

  /**
    A driver is listed exactly if it may join: unspawned and unreferenced, under the lowest free
    index. Otherwise the index is free again.
   */
  lemma DriverRegisters(s: DrvState, t: nat, uuid: nat, name: string, crypto: bool, policyOk: bool, i: nat)
    requires Inv(s) && At(s, t, Idle) && i < |s.indexes| && !s.indexes[i] && forall j :: 0 <= j < i ==> s.indexes[j]
    ensures var acts := [RegisterDrv(t, uuid, name, crypto)] + [Receive(t, policyOk)];
      var joins := MayJoin(s, uuid, name, crypto, policyOk);
      && IsRun(s, acts) && DisciplinedRun(s, acts)
      && After(s, acts) ==
         Joined(s, t, Node(Drv, uuid, name, i + 1, crypto, INVALID_PID, 0, 0, [], Load, true, false), joins).(
           indexes := if joins then s.indexes[i := true] else s.indexes)
  {
    var m := Node(Drv, uuid, name, i + 1, crypto, INVALID_PID, 0, 0, [], Load, true, false);
    assert LowestFree(s.indexes) == Some(i);
    var s1 := RegisterDrvIs(s, t, uuid, name, crypto, i);
    SearchUuid(s, uuid);
    SearchName(s, name);
    SameSearch(s, s1, m, EffectiveUuid(uuid));
    SameSearch(s, s1, m, DrvName(name));
    var joins := MayJoin(s, uuid, name, crypto, policyOk);
    hide Inv, Find, NoNode, NoDriver, LowestFree;
    assert Admitted(s1.nodes, s1.list, m, policyOk) <==> joins;
    var s2 := ReceiveDrvIs(s, s1, t, m, policyOk, i);
    hide Enabled, Apply, IsRun, DisciplinedRun, After, Admitted;
    OneStep(s, RegisterDrv(t, uuid, name, crypto), s1);
    AddStep(s, [RegisterDrv(t, uuid, name, crypto)], Receive(t, policyOk), s2);
  }

  lemma RegisterDrvIs(s: DrvState, t: nat, uuid: nat, name: string, crypto: bool, i: nat) returns (s': DrvState)
    requires At(s, t, Idle) && LowestFree(s.indexes) == Some(i)
    ensures Enabled(s, RegisterDrv(t, uuid, name, crypto)) && Disciplined(s, RegisterDrv(t, uuid, name, crypto))
    ensures Apply(s, RegisterDrv(t, uuid, name, crypto)) == s'
    ensures s' == s.(nodes := s.nodes + [Node(Drv, uuid, name, i + 1, crypto, INVALID_PID, 0, 0, [], Load, true, false)],
                     indexes := s.indexes[i := true], ops := s.ops[t := Op(Registering, |s.nodes|, 0, 0, 0, name)])
  {
    hide LowestFree;
    s' := Apply(s, RegisterDrv(t, uuid, name, crypto));
  }

  lemma ReceiveDrvIs(s: DrvState, s1: DrvState, t: nat, m: Node, policyOk: bool, i: nat) returns (s': DrvState)
    requires t < |s.ops| && i < |s.indexes| && !s.indexes[i] && m.target == Drv && m.drvIndex == i + 1
    requires s1 == s.(nodes := s.nodes + [m], indexes := s.indexes[i := true],
                      ops := s.ops[t := Op(Registering, |s.nodes|, 0, 0, 0, m.name)])
    ensures Enabled(s1, Receive(t, policyOk)) && Disciplined(s1, Receive(t, policyOk)) && Apply(s1, Receive(t, policyOk)) == s'
    ensures var joins := Admitted(s1.nodes, s1.list, m, policyOk);
      s' == Joined(s, t, m, joins).(indexes := if joins then s.indexes[i := true] else s.indexes)
  {
    hide Admitted;
    s' := Apply(s1, Receive(t, policyOk));
    assert s1.ops[t := IDLE] == s.ops[t := IDLE];
    assert s1.indexes[i := false] == s.indexes;
  }

  /** A listed driver is unregistered exactly if it is unspawned and unreferenced; its index is then free again. */
  lemma DriverUnregisters(s: DrvState, t: nat, name: string, d: nat)
    requires Inv(s) && At(s, t, Idle) && name != "" && IsDriver(s, d, name)
    ensures var a := UnregisterDrv(t, name);
      var m := s.nodes[d];
      && Enabled(s, a) && 1 <= m.drvIndex <= |s.indexes|
      && Apply(s, a) ==
         if m.refCnt == 0 && m.state == Load then
           s.(nodes := s.nodes[d := m.(live := false, registered := false)], list := Without(s.list, d),
              indexes := s.indexes[m.drvIndex - 1 := false])
         else s
  {
    assert NodeOk(s, d);
    FindsDriver(s, d, name);
    hide Inv, Find, Without;
  }

  /** Unregistering a name that no listed driver has changes nothing. */
  lemma UnknownUnregisters(s: DrvState, t: nat, name: string)
    requires Inv(s) && At(s, t, Idle) && NoDriver(s, name)
    ensures Enabled(s, UnregisterDrv(t, name)) && Apply(s, UnregisterDrv(t, name)) == s
  {
    SearchName(s, name);
    hide Inv, Find, NoDriver;
  }

  lemma {:induction false} WithoutLast(list: seq<nat>, n: nat)
    requires n !in list
    ensures Without(list + [n], n) == list
  {
    if list != [] {
      assert (list + [n])[1..] == list[1..] + [n];
      WithoutLast(list[1..], n);
    } else {
      assert list + [n] == [n];
    }
  }

  /** Registering a driver and unregistering it again leaves list and indexes as they were. */
  lemma UnregisterUndoesRegister(s: DrvState, t: nat, uuid: nat, name: string, i: nat)
    requires Inv(s) && At(s, t, Idle) && i < |s.indexes| && !s.indexes[i] && forall j :: 0 <= j < i ==> s.indexes[j]
    requires MayJoin(s, uuid, name, false, true)
    ensures var acts := [RegisterDrv(t, uuid, name, false)] + [Receive(t, true)] + [UnregisterDrv(t, name)];
      && IsRun(s, acts) && DisciplinedRun(s, acts)
      && var s' := After(s, acts);
         s'.list == s.list && s'.indexes == s.indexes && s'.ops == s.ops[t := IDLE]
         && |s'.nodes| == |s.nodes| + 1 && s'.nodes[..|s.nodes|] == s.nodes && !s'.nodes[|s.nodes|].live
  {
    var acts := [RegisterDrv(t, uuid, name, false)] + [Receive(t, true)];
    var n := |s.nodes|;
    assert n !in s.list;
    DriverRegisters(s, t, uuid, name, false, true, i);
    InvDisciplined(s, acts);
    hide Inv, Enabled, Apply, IsRun, DisciplinedRun, After, MayJoin, Without;
    var s1 := After(s, acts);
    DriverUnregisters(s1, t, name, n);
    WithoutLast(s.list, n);
    assert s1.indexes[i := false] == s.indexes;
    AddStep(s, acts, UnregisterDrv(t, name), Apply(s1, UnregisterDrv(t, name)));
  }

  lemma InvDisciplined(s: DrvState, acts: seq<Action>)
    requires Inv(s) && IsRun(s, acts) && DisciplinedRun(s, acts)
    ensures Inv(After(s, acts))
  {
    RunInv(s, acts);
  }

  // ---- exit ----

  /** The registered TA of this uuid. */
  predicate IsRegistered(s: DrvState, c: nat, uuid: nat) {
    IsCaller(s, c, uuid, INVALID_PID) && s.nodes[c].target == Ta && s.nodes[c].registered
  }

  lemma ExitStartIs(s: DrvState, t: nat, uuid: nat, c: nat) returns (s': DrvState)
    requires Inv(s) && At(s, t, Idle) && IsRegistered(s, c, uuid) && s.nodes[c].refCnt < UINT32_MAX
    ensures Enabled(s, ExitStart(t, uuid)) && Disciplined(s, ExitStart(t, uuid)) && Apply(s, ExitStart(t, uuid)) == s' && Inv(s')
    ensures var m := s.nodes[c];
      s' == s.(nodes := s.nodes[c := m.(refCnt := m.refCnt + 1, state := Exit, registered := false)],
               ops := s.ops[t := Op(ExitScan, c, 0, 0, 0, "")])
  {
    FindsCaller(s, c, uuid, INVALID_PID);
    s' := Apply(s, ExitStart(t, uuid));
    InvApply(s, ExitStart(t, uuid));
    hide Inv, Find;
  }

  lemma EntriesThere(s: DrvState, c: nat)
    requires Inv(s) && c < |s.nodes|
    ensures EntriesOnDrivers(s, c)
  {
    assert NodeOk(s, c);
    forall i | 0 <= i < |s.nodes[c].fds|
      ensures s.nodes[c].fds[i].drv < |s.nodes| && s.nodes[s.nodes[c].fds[i].drv].target == Drv
    {
      assert EntryOk(s, s.nodes[c].fds[i]);
    }
  }

  /** Closing a TA's entries leaves its own references, state and identity alone. */
  lemma {:induction false} CloseFromLeavesCaller(nodes: seq<Node>, n: nat, k: nat)
    requires n < |nodes| && k <= |nodes[n].fds| && nodes[n].target == Ta && OnDrivers(nodes, n)
    ensures var r := CloseFrom(nodes, n, k);
      |r| == |nodes| && r[n].refCnt == nodes[n].refCnt && r[n].target == Ta && r[n].state == nodes[n].state
      && r[n].live == nodes[n].live && r[n].registered == nodes[n].registered && r[n].uuid == nodes[n].uuid
    decreases |nodes[n].fds| - k
  {
    if k < |nodes[n].fds| {
      if nodes[n].fds[k].closing {
        CloseFromLeavesCaller(nodes, n, k + 1);
      } else {
        CloseOneKeeps(nodes, n, k);
        CloseFromLeavesCaller(CloseOne(nodes, n, k), n, k);
      }
    }
  }

  /** The TA has exited: what nobody else is closing is closed, and what it held is given back. */
  ghost predicate Exited(s: DrvState, s': DrvState, t: nat, c: nat) {
    && t < |s.ops| && c < |s.nodes| == |s'.nodes| && s'.ops == s.ops[t := IDLE]
    && var m, m' := s.nodes[c], s'.nodes[c];
    && m.refCnt >= 1 + Unflagged(m.fds) && m'.refCnt == m.refCnt - 1 - Unflagged(m.fds)
    && m'.state == Exit && !m'.registered && m'.fds == KeepFlagged(m.fds)
    && (m'.live <==> m'.refCnt > 0) && s'.list == (if m'.live then s.list else Without(s.list, c))
  }

  /**
    A whole exit, in any state: the registered TA's node goes to EXIT, every entry that nobody
    else is closing is closed, and the node is freed exactly if no reference is left.
   */
  lemma ExitCompletes(s: DrvState, t: nat, uuid: nat, c: nat) returns (acts: seq<Action>)
    requires Inv(s) && At(s, t, Idle) && IsRegistered(s, c, uuid) && s.nodes[c].refCnt < UINT32_MAX
    ensures IsRun(s, acts) && DisciplinedRun(s, acts) && forall i :: 0 <= i < |acts| ==> acts[i].t == t
    ensures Exited(s, After(s, acts), t, c)
  {
    hide Enabled, Apply, Disciplined, IsRun, DisciplinedRun, After, Inv, Exited, LoopDone, Without;
    var s1 := ExitStartIs(s, t, uuid, c);
    OneStep(s, ExitStart(t, uuid), s1);
    EntriesThere(s1, c);
    var loop := ExitLoopIs(s1, t);
    var s2 := After(s1, loop);
    InvDisciplined(s1, loop);
    LoopLeaves(s1, t, s2);
    var s3 := PutCallerIs(s2, t);
    RunConcat(s, [ExitStart(t, uuid)], loop);
    AddStep(s, [ExitStart(t, uuid)] + loop, PutCallerNode(t), s3);
    acts := [ExitStart(t, uuid)] + loop + [PutCallerNode(t)];
    EntriesAreSlots(s1, c);
    ThenExited(s, s1, s2, s3, t, c);
  }

  lemma EntriesAreSlots(s: DrvState, c: nat)
    requires Inv(s) && c < |s.nodes|
    ensures |s.nodes[c].fds| <= s.nodes[c].fdCount
  {
    assert NodeCounts(s, c);
    NodesTotalSlots(s.nodes, 0, c);
  }

  lemma LoopLeaves(s: DrvState, t: nat, s': DrvState)
    requires At(s, t, ExitScan) && EntriesOnDrivers(s, s.ops[t].c) && LoopDone(s, t, s')
    ensures t < |s'.ops| && s'.ops[t].c == s.ops[t].c < |s'.nodes| && At(s', t, PutCaller)
  {
    CloseFromLength(s.nodes, s.ops[t].c, 0);
  }

  lemma {:induction false} CloseFromLength(nodes: seq<Node>, n: nat, k: nat)
    requires n < |nodes| && k <= |nodes[n].fds|
    ensures |CloseFrom(nodes, n, k)| == |nodes|
    decreases |nodes[n].fds| - k
  {
    if k < |nodes[n].fds| {
      if nodes[n].fds[k].closing {
        CloseFromLength(nodes, n, k + 1);
      } else {
        CloseFromLength(CloseOne(nodes, n, k), n, k);
      }
    }
  }

  lemma ThenExited(s: DrvState, s1: DrvState, s2: DrvState, s3: DrvState, t: nat, c: nat)
    requires t < |s.ops| && c < |s.nodes| && s.nodes[c].target == Ta
    requires var m := s.nodes[c];
      s1 == s.(nodes := s.nodes[c := m.(refCnt := m.refCnt + 1, state := Exit, registered := false)],
               ops := s.ops[t := Op(ExitScan, c, 0, 0, 0, "")])
    requires At(s1, t, ExitScan) && EntriesOnDrivers(s1, c) && LoopDone(s1, t, s2) && |s1.nodes[c].fds| <= s1.nodes[c].fdCount
    requires c < |s2.nodes| && s2.nodes[c].refCnt >= s2.ops[t].k && s2.nodes[c].live
    requires var k := s2.ops[t].k;
      var m := s2.nodes[c];
      s3 == s2.(nodes := s2.nodes[c := m.(refCnt := m.refCnt - k, live := !Frees(m, k))],
                list := if Frees(m, k) then Without(s2.list, c) else s2.list, ops := s2.ops[t := IDLE])
    ensures Exited(s, s3, t, c)
  {
    CloseFromLeavesCaller(s1.nodes, c, 0);
    CloseFromKeepsFlagged(s1.nodes, c, 0);
    hide CloseFrom, Without, OnDrivers, KeepFlagged, Unflagged;
    assert s3.ops == s.ops[t := IDLE];
  }
}
