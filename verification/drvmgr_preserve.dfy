/**
  Driver manager: every action keeps the invariant.
 */
module DrvPreserve {
  import opened Options
  import opened DrvTypes
  import opened DrvSteps
  import opened DrvInvariant

  // ---- open ----

  lemma InvRefuse(s: DrvState, t: nat)
    requires Inv(s) && CanRefuse(s, t)
    ensures Inv(DoRefuse(s, t))
  {
    assert OpOk(s, t);
    SameWhen(s.ops[t], DoRefuse(s, t).ops[t]);
    hide Inv, SameHoldings, OpClaims;
    InvJump(s, DoRefuse(s, t), t);
  }

  /** The thread takes a reference on a listed node. */
  lemma InvTakeRef(s: DrvState, s': DrvState, t: nat, n: nat)
    requires Inv(s) && Moved(s, s', t, n) && s' == s.(nodes := s'.nodes, ops := s'.ops)
    requires n in s.list && Gains(s.ops[t], s'.ops[t], Ref(n))
    requires s'.nodes[n] == s.nodes[n].(refCnt := s.nodes[n].refCnt + 1, pid := s'.nodes[n].pid)
    requires OpOk(s', t) && s'.ops[t].pc != CloseFlagged
    ensures Inv(s')
  {
    hide OpClaims;
    ListedIsPublished(s, n);
    assert NodeOk(s, n) && NodeCounts(s, n);
    assert s.nodes[n].live;
    hide Inv;
    InvQuiet(s, s', t, n);
  }

  /** find_normal_node fixes the pid of a node it meets. */
  lemma InvAdopt(s: DrvState, n: nat, pid: int, t: nat)
    requires Inv(s) && At(s, t, Idle) && n < |s.nodes|
    ensures Inv(SetNode(s, n, Adopted(s.nodes[n], pid)))
  {
    hide OpClaims;
    var s' := SetNode(s, n, Adopted(s.nodes[n], pid));
    assert NodeOk(s, n) && NodeCounts(s, n) && OpOk(s, t);
    assert OpOk(s', t);
    hide Inv;
    InvQuiet(s, s', t, n);
  }

  /** Both driver_open_func and driver_close_func start here. */
  lemma InvGetCaller(s: DrvState, t: nat, uuid: nat, pid: int, pc: Pc, fd: nat, name: string)
    requires Inv(s) && At(s, t, Idle) && (pc == OpenHasCaller || pc == CloseHasCaller)
    ensures Inv(DoGetCaller(s, t, uuid, pid, pc, fd, name))
  {
    var s' := DoGetCaller(s, t, uuid, pid, pc, fd, name);
    var r := Find(s.nodes, s.list, NormalUuid(uuid, pid));
    hide Inv, Find;
    if r.Some? {
      if s.nodes[r.value].refCnt == UINT32_MAX {
        InvAdopt(s, r.value, pid, t);
      } else {
        assert Gains(s.ops[t], s'.ops[t], Ref(r.value));
        InvTakeRef(s, s', t, r.value);
      }
    }
  }

  lemma InvOpenFindDrv(s: DrvState, t: nat)
    requires Inv(s) && At(s, t, OpenCounted)
    ensures Inv(DoOpenFindDrv(s, t))
  {
    var o := s.ops[t];
    var s' := DoOpenFindDrv(s, t);
    assert OpOk(s, t);
    hide Inv;
    if s'.ops[t].pc == OpenPutCount {
      SameWhen(o, s'.ops[t]);
      InvJump(s, s', t);
    } else {
      var r := Find(s.nodes, s.list, DrvName(o.name));
      assert Gains(o, s'.ops[t], Ref(r.value));
      hide Gains;
      InvTakeRef(s, s', t, r.value);
    }
  }

  /** The thread takes (or gives back) one unit of n's fd_count. */
  lemma InvSlot(s: DrvState, s': DrvState, t: nat, n: nat)
    requires Inv(s) && Moved(s, s', t, n) && s' == s.(nodes := s'.nodes, ops := s'.ops)
    requires s'.nodes[n] == s.nodes[n].(fdCount := s'.nodes[n].fdCount)
    requires s'.nodes[n].fdCount <= TASK_FD_COUNT_MAX
    requires (Gains(s.ops[t], s'.ops[t], Slot(n)) && s'.nodes[n].fdCount == s.nodes[n].fdCount + 1)
          || (Gains(s'.ops[t], s.ops[t], Slot(n)) && s.nodes[n].fdCount == s'.nodes[n].fdCount + 1)
    requires OpOk(s', t) && s'.ops[t].pc != CloseFlagged
    ensures Inv(s')
  {
    hide OpClaims;
    assert NodeOk(s, n);
    hide Inv;
    InvQuiet(s, s', t, n);
  }

  /** The thread takes (or discharges) the duty to spawn driver n. */
  lemma InvSpawn(s: DrvState, s': DrvState, t: nat, n: nat)
    requires Inv(s) && Moved(s, s', t, n) && s' == s.(nodes := s'.nodes, ops := s'.ops)
    requires s'.nodes[n] == s.nodes[n].(state := s'.nodes[n].state, pid := s'.nodes[n].pid)
    requires s.nodes[n].target == Drv && s.nodes[n].state != Normal && s'.nodes[n].state != Exit
    requires (Gains(s.ops[t], s'.ops[t], Spawner(n)) && s.nodes[n].state != Spawn && s'.nodes[n].state == Spawn)
          || (Gains(s'.ops[t], s.ops[t], Spawner(n)) && s.nodes[n].state == Spawn && s'.nodes[n].state != Spawn)
    requires OpOk(s', t) && s'.ops[t].pc != CloseFlagged
    ensures Inv(s')
  {
    hide OpClaims;
    assert NodeOk(s, n) && NodeCounts(s, n);
    hide Inv;
    InvQuiet(s, s', t, n);
  }

  lemma InvOpenCount(s: DrvState, t: nat)
    requires Inv(s) && At(s, t, OpenHasCaller)
    ensures Inv(DoOpenCount(s, t))
  {
    var o := s.ops[t];
    var s' := DoOpenCount(s, t);
    assert OpOk(s, t);
    hide Inv, Gains, SameHoldings;
    if s'.ops[t].pc == PutCaller {
      SameWhen(o, s'.ops[t]);
      InvJump(s, s', t);
    } else {
      GainsSlotWhen(o, s'.ops[t]);
      InvSlot(s, s', t, o.c);
    }
  }

  /** A thread that holds a slot is counted in its caller's fd_count. */
  lemma SlotIsCounted(s: DrvState, t: nat)
    requires Counts(s) && ThreadAt(s, t) && HoldsSlot(s.ops[t].pc)
    ensures 1 <= s.nodes[s.ops[t].c].fdCount <= TASK_FD_COUNT_MAX
  {
    hide OpsTotal, NodesTotal;
    assert NodeCounts(s, s.ops[t].c);
    ClaimsBelowTotal(s, t, Slot(s.ops[t].c));
  }

  /** A spawning thread's driver is in the spawn state. */
  lemma SpawnerState(s: DrvState, t: nat)
    requires Counts(s) && At(s, t, OpenSpawning)
    ensures s.nodes[s.ops[t].d].state == Spawn
  {
    hide OpsTotal, NodesTotal;
    assert NodeCounts(s, s.ops[t].d);
    ClaimsBelowTotal(s, t, Spawner(s.ops[t].d));
  }

  /** put_fd_count: the count it lowers is never zero. */
  lemma InvPutCount(s: DrvState, t: nat)
    requires Inv(s) && At(s, t, OpenPutCount)
    ensures Inv(DoPutCount(s, t))
    ensures 1 <= s.nodes[s.ops[t].c].fdCount
  {
    var o := s.ops[t];
    assert OpOk(s, t);
    SlotIsCounted(s, t);
    hide Inv, Gains;
    GainsSlotWhen(DoPutCount(s, t).ops[t], o);
    InvSlot(s, DoPutCount(s, t), t, o.c);
  }

  lemma InvOpenCheckState(s: DrvState, t: nat)
    requires Inv(s) && CanCheckState(s, t)
    ensures Inv(DoOpenCheckState(s, t))
  {
    var o := s.ops[t];
    var s' := DoOpenCheckState(s, t);
    assert OpOk(s, t);
    hide Inv, Gains, SameHoldings;
    if s'.ops[t].pc == OpenSpawning {
      GainsSpawnerWhen(o, s'.ops[t]);
      InvSpawn(s, s', t, o.d);
    } else {
      SameWhen(o, s'.ops[t]);
      InvJump(s, s', t);
    }
  }

  /** The broadcasting thread is the spawner, so the state it leaves is TASK_SPAWN. */
  lemma InvOpenBroadcast(s: DrvState, t: nat, ok: bool, pid: int)
    requires Inv(s) && At(s, t, OpenSpawning)
    ensures s.nodes[s.ops[t].d].state == Spawn
    ensures Inv(DoOpenBroadcast(s, t, ok, pid))
  {
    var o := s.ops[t];
    assert OpOk(s, t);
    SpawnerState(s, t);
    hide Inv, Gains;
    GainsSpawnerWhen(DoOpenBroadcast(s, t, ok, pid).ops[t], o);
    InvSpawn(s, DoOpenBroadcast(s, t, ok, pid), t, o.d);
  }

  /** A driver hands out a descriptor, or is told to close one. */
  predicate Logged(s: DrvState, s': DrvState, d: nat, fd: nat, opens: bool) {
    if opens then
      && s.openLog[(d, fd)] == s.closeLog[(d, fd)]
      && s'.closeLog == s.closeLog && s'.openLog == s.openLog + multiset{(d, fd)}
    else s'.openLog == s.openLog && s'.closeLog == s.closeLog + multiset{(d, fd)}
  }

  lemma LogHolders(s: DrvState, s': DrvState, t: nat, d: nat, fd: nat, opens: bool)
    requires Holders(s) && t < |s.ops| == |s'.ops| && s'.nodes == s.nodes && s'.ops == s.ops[t := s'.ops[t]]
    requires Logged(s, s', d, fd, opens) && s.nodes != []
    requires if opens then Gains(s.ops[t], s'.ops[t], Holder(d, fd)) else Gains(s'.ops[t], s.ops[t], Holder(d, fd))
    ensures Holders(s')
  {
    hide OpClaims, OpsTotal, NodesTotal;
    DeltaOp(s, s', t, 0);
    hide Total;
    forall d', fd'
      ensures HandedOut(s', d', fd')
    {
      assert HandedOut(s, d', fd');
    }
  }

  /** Everything but the descriptors: only the thread moved. */
  lemma InvLog(s: DrvState, s': DrvState, t: nat)
    requires Inv(s) && t < |s.ops| == |s'.ops| && s.ops[t].pc != Idle
    requires s' == SetOp(s, t, s'.ops[t]).(openLog := s'.openLog, closeLog := s'.closeLog)
    requires forall w: Claim :: !w.Flagged? && !w.Holder? ==> OpClaims(s'.ops[t], w) == OpClaims(s.ops[t], w)
    requires OpOk(s', t) && s'.ops[t].pc != CloseFlagged && Holders(s')
    ensures Inv(s')
  {
    var n := s.ops[t].c;
    assert OpOk(s, t) && NodeOk(s, n) && NodeCounts(s, n);
    hide OpClaims, OpsTotal, NodesTotal, Accounting, Counts, Holders, Flags, NodesOk, OpsOk, ListOk, IndexesOk;
    KeepAccounting(s, s', t, n);
    KeepCounts(s, s', t, n);
    KeepFlags(s, s', t, n);
    KeepOps(s, s', t, n);
    NodeOkAgain(s, s', t, n);
    KeepNodes(s, s', t, n);
    KeepList(s, s', t, n);
  }

  lemma InvOpenDriver(s: DrvState, t: nat, local: nat)
    requires Inv(s) && CanOpenDriver(s, t, local)
    ensures Inv(DoOpenDriver(s, t, local))
  {
    var s' := DoOpenDriver(s, t, local);
    assert OpOk(s, t);
    assert Gains(s.ops[t], s'.ops[t], Holder(s'.ops[t].d, s'.ops[t].fd));
    LogHolders(s, s', t, s'.ops[t].d, s'.ops[t].fd, true);
    hide Inv, Holders, OpClaims;
    InvLog(s, s', t);
  }

  lemma CallCloseHoldings(s: DrvState, t: nat)
    requires CanCallClose(s, t)
    ensures Gains(DoCallClose(s, t).ops[t], s.ops[t], Holder(s.ops[t].d, s.ops[t].fd))
  {
  }

  lemma InvCallClose(s: DrvState, t: nat)
    requires Inv(s) && CanCallClose(s, t)
    ensures Inv(DoCallClose(s, t))
  {
    var s' := DoCallClose(s, t);
    assert OpOk(s, t);
    CallCloseHoldings(s, t);
    LogHolders(s, s', t, s.ops[t].d, s.ops[t].fd, false);
    hide Inv, Holders, OpClaims;
    InvLog(s, s', t);
  }

  // ---- giving references back ----

  /** A node on which a thread past registration holds a reference is not being registered. */
  lemma RefIsPublished(s: DrvState, t: nat, n: nat)
    requires Inv(s) && t < |s.ops| && n < |s.nodes| && 1 <= OpClaims(s.ops[t], Ref(n))
    requires s.ops[t].pc != OpenRegistering
    ensures Published(s, n)
  {
    NodesTotalNone(s.nodes, 0, Private(n));
    if OpsTotal(s.ops, Private(n)) != 0 {
      var u := OpsTotalWitness(s.ops, Private(n));
      assert OpOk(s, u) && NodeAccounted(s, n);
      if u == t {
        assert false;
      } else {
        OpsTotalTwo(s.ops, t, u, Ref(n));
        assert false;
      }
    }
  }

  lemma WithoutIs(list: seq<nat>, n: nat) returns (k: nat)
    requires n in list
    ensures k < |list| && list[k] == n && Without(list, n) == list[..k] + list[k + 1..]
  {
    if list[0] == n {
      k := 0;
    } else {
      var j := WithoutIs(list[1..], n);
      k := j + 1;
      assert list[..k] == [list[0]] + list[1..][..j];
      assert list[k + 1..] == list[1..][j + 1..];
    }
  }

  /** Deleting a node from the list keeps the others in order and drops only that node. */
  lemma KeepListWithout(s: DrvState, s': DrvState, n: nat)
    requires ListOk(s) && n < |s.nodes| == |s'.nodes| && n in s.list && s'.list == Without(s.list, n)
    requires forall x :: 0 <= x < |s.nodes| && x != n ==> s'.nodes[x] == s.nodes[x]
    ensures ListOk(s') && n !in s'.list
  {
    var k := WithoutIs(s.list, n);
    forall i | 0 <= i < |s'.list|
      ensures s'.list[i] == s.list[if i < k then i else i + 1]
    {
    }
  }

  /** Freeing node n settles the sums when nothing refers to n afterwards. */
  lemma KeepFreed(s: DrvState, s': DrvState, t: nat, n: nat)
    requires Accounting(s) && Counts(s) && Moved(s, s', t, n)
    requires s'.nodes[n].fds == s.nodes[n].fds && s'.nodes[n].fdCount == s.nodes[n].fdCount
    requires s'.nodes[n].state == s.nodes[n].state && !s'.nodes[n].live
    requires forall x :: x != n ==> (x in s'.list <==> x in s.list)
    requires forall w: Claim :: w != Ref(n) && w != Private(n) && !w.Flagged? ==>
      OpClaims(s'.ops[t], w) == OpClaims(s.ops[t], w)
    requires Total(s', Ref(n)) == 0 && Total(s', Private(n)) == 0
    ensures Accounting(s') && Counts(s')
  {
    DeltaOp(s, s', t, n);
    hide OpsTotal, NodesTotal, Total, OpClaims;
    forall x | 0 <= x < |s'.nodes|
      ensures NodeAccounted(s', x) && NodeCounts(s', x)
    {
      assert NodeAccounted(s, x) && NodeCounts(s, x);
    }
  }

  /** The rest of the invariant after node n, published and freed, left the list. */
  lemma KeepFreedShape(s: DrvState, s': DrvState, t: nat, n: nat)
    requires Inv(s) && Moved(s, s', t, n) && (Published(s, n) || Unshared(s, t, n))
    requires s'.nodes[n] == s.nodes[n].(refCnt := 0, live := false, registered := false)
    requires s'.openLog == s.openLog && s'.closeLog == s.closeLog && |s'.indexes| == |s.indexes|
    requires forall i :: 0 <= i < |s.indexes| && s'.indexes[i] != s.indexes[i] ==>
      s.nodes[n].live && s.nodes[n].target == Drv && i == s.nodes[n].drvIndex - 1
    requires ListOk(s') && OpOk(s', t) && s'.ops[t].pc != CloseFlagged
    requires forall d, fd :: OpClaims(s'.ops[t], Holder(d, fd)) == OpClaims(s.ops[t], Holder(d, fd))
    ensures Holders(s') && Flags(s') && OpsOk(s') && NodesOk(s') && IndexesOk(s')
  {
    hide OpsTotal, NodesTotal, OpClaims, FlaggedIn;
    KeepHolders(s, s', t, n);
    KeepFlags(s, s', t, n);
    KeepOps(s, s', t, n);
    hide Flags, OpsOk, OpOk, Accounting, Counts, ListOk;
    FreedNodes(s, s', n);
  }

  /** Nodes and indexes after node n is freed. */
  lemma FreedNodes(s: DrvState, s': DrvState, n: nat)
    requires NodesOk(s) && IndexesOk(s) && n < |s.nodes| == |s'.nodes| && s'.nodes == s.nodes[n := s'.nodes[n]]
    requires s'.nodes[n] == s.nodes[n].(refCnt := 0, live := false, registered := false)
    requires |s'.indexes| == |s.indexes|
    requires forall i :: 0 <= i < |s.indexes| && s'.indexes[i] != s.indexes[i] ==>
      s.nodes[n].live && s.nodes[n].target == Drv && i == s.nodes[n].drvIndex - 1
    ensures NodesOk(s') && IndexesOk(s')
  {
    forall x | 0 <= x < |s'.nodes|
      ensures NodeOk(s', x)
    {
      assert NodeOk(s, x) && NodeOk(s, n);
      assert s'.nodes[x].fds == s.nodes[x].fds;
      forall i | 0 <= i < |s.nodes[x].fds|
        ensures EntryOk(s', s.nodes[x].fds[i])
      {
        assert EntryOk(s, s.nodes[x].fds[i]);
      }
      assert x != n && n < x ==> !SameIndex(s.nodes[n], s.nodes[x]);
      assert x != n && x < n ==> !SameIndex(s.nodes[x], s.nodes[n]);
    }
  }

  /** When put_node frees, the node was listed and this thread held its last references. */
  lemma PutFreesLast(s: DrvState, t: nat)
    requires Inv(s) && At(s, t, PutCaller) && FreedByPut(s.nodes[s.ops[t].c], s.ops[t].k)
    ensures Published(s, s.ops[t].c) && s.ops[t].c in s.list && s.nodes[s.ops[t].c].live
    ensures !s.nodes[s.ops[t].c].registered && Total(s, Ref(s.ops[t].c)) == s.ops[t].k
  {
    var n := s.ops[t].c;
    assert OpOk(s, t) && NodeOk(s, n) && NodeCounts(s, n) && NodeAccounted(s, n);
    assert OpClaims(s.ops[t], Ref(n)) == s.ops[t].k;
    RefIsPublished(s, t, n);
    RefKeepsLive(s, t, n);
  }

  lemma PutCallerHoldings(o: Op)
    requires o.pc == PutCaller
    ensures forall w: Claim :: OpClaims(o, w) == if w == Ref(o.c) then o.k else 0
    ensures forall w: Claim :: OpClaims(IDLE, w) == 0
  {
  }

  /** put_node that frees: nobody refers to the node any more. */
  lemma InvPutFrees(s: DrvState, t: nat)
    requires Inv(s) && At(s, t, PutCaller) && FreedByPut(s.nodes[s.ops[t].c], s.ops[t].k)
    ensures Inv(DoPutCallerNode(s, t))
  {
    var s' := DoPutCallerNode(s, t);
    var n := s.ops[t].c;
    PutFreesLast(s, t);
    PutCallerHoldings(s.ops[t]);
    hide OpsTotal, NodesTotal, OpClaims, Accounting, Counts, Holders, Flags, NodesOk, OpsOk, IndexesOk;
    DeltaOp(s, s', t, n);
    KeepListWithout(s, s', n);
    KeepFreed(s, s', t, n);
    KeepFreedShape(s, s', t, n);
  }

  lemma PutDrvHoldings(o: Op, o': Op)
    requires (o.pc == OpenPutDrv && o' == o.(pc := OpenPutCount))
          || (o.pc == ClosePutDrv && o' == o.(pc := PutCaller, k := 2))
          || (o.pc == ExitPutDrv && o' == o.(pc := ExitScan))
    ensures Gains(o', o, Ref(o.d))
  {
  }

  /** put_node that does not free. */
  lemma InvDropRef(s: DrvState, s': DrvState, t: nat, n: nat, k: nat)
    requires Inv(s) && Moved(s, s', t, n) && s' == s.(nodes := s'.nodes, ops := s'.ops)
    requires forall w: Claim :: !w.Flagged? ==>
      OpClaims(s.ops[t], w) == OpClaims(s'.ops[t], w) + (if w == Ref(n) then k else 0)
    requires k <= s.nodes[n].refCnt && s'.nodes[n] == s.nodes[n].(refCnt := s.nodes[n].refCnt - k)
    requires s.nodes[n].target == Ta ==> 1 <= s'.nodes[n].refCnt
    requires Published(s, n) && s.nodes[n].live
    requires OpOk(s', t) && s'.ops[t].pc != CloseFlagged
    ensures Inv(s')
  {
    hide OpClaims;
    assert NodeOk(s, n) && NodeCounts(s, n);
    hide Inv;
    InvQuiet(s, s', t, n);
  }

  /** put_node on a driver: there is a reference to give back, and drivers are never freed here. */
  lemma InvPutDrv(s: DrvState, t: nat)
    requires Inv(s) && CanPutDrv(s, t)
    ensures 1 <= s.nodes[s.ops[t].d].refCnt
    ensures Inv(DoPutDrv(s, t))
  {
    hide Total, FlaggedIn;
    var o := s.ops[t];
    assert OpOk(s, t);
    assert OpClaims(o, Ref(o.d)) >= 1;
    RefKeepsLive(s, t, o.d);
    RefIsPublished(s, t, o.d);
    PutDrvHoldings(o, DoPutDrv(s, t).ops[t]);
    hide Inv, OpClaims;
    InvDropRef(s, DoPutDrv(s, t), t, o.d, 1);
  }

  /** put_node on a caller: it holds at least the references being given back. */
  lemma InvPutCaller(s: DrvState, t: nat)
    requires Inv(s) && At(s, t, PutCaller)
    ensures s.ops[t].k <= s.nodes[s.ops[t].c].refCnt
    ensures Inv(DoPutCallerNode(s, t))
  {
    var o := s.ops[t];
    assert OpOk(s, t);
    PutCallerHoldings(o);
    RefKeepsLive(s, t, o.c);
    if FreedByPut(s.nodes[o.c], o.k) {
      InvPutFrees(s, t);
    } else {
      RefIsPublished(s, t, o.c);
      hide Inv, OpClaims;
      InvDropRef(s, DoPutCallerNode(s, t), t, o.c, o.k);
    }
  }

  // ---- steps that change an fd list ----

  /** Node n's list and fd_count change; what leaves the list goes to the thread, and back. */
  lemma InvFds(s: DrvState, s': DrvState, t: nat, n: nat)
    requires Inv(s) && Moved(s, s', t, n) && s' == s.(nodes := s'.nodes, ops := s'.ops)
    requires s'.nodes[n] == s.nodes[n].(fds := s'.nodes[n].fds, fdCount := s'.nodes[n].fdCount)
    requires forall w: Claim :: !w.Flagged? && w != Slot(n) ==> Total(s', w) == Total(s, w)
    requires s'.nodes[n].fdCount == Total(s', Slot(n)) <= TASK_FD_COUNT_MAX
    requires forall i :: 0 <= i < |s'.nodes[n].fds| ==> EntryOk(s, s'.nodes[n].fds[i])
    requires Published(s, n) && Flags(s') && OpOk(s', t)
    ensures Inv(s')
  {
    hide Total, FlaggedIn;
    forall x | 0 <= x < |s'.nodes|
      ensures NodeAccounted(s', x) && NodeCounts(s', x)
    {
      assert NodeAccounted(s, x) && NodeCounts(s, x);
    }
    forall d, fd
      ensures HandedOut(s', d, fd)
    {
      assert HandedOut(s, d, fd);
    }
    assert NodeOk(s, n);
    forall i | 0 <= i < |s'.nodes[n].fds|
      ensures EntryOk(s', s'.nodes[n].fds[i])
    {
      assert EntryOk(s, s'.nodes[n].fds[i]);
    }
    KeepNodes(s, s', t, n);
    KeepList(s, s', t, n);
    KeepOps(s, s', t, n);
  }

  /** Flags of other lists, and of this one when no flagged entry leaves it. */
  lemma FlagsAgain(s: DrvState, s': DrvState, t: nat, n: nat)
    requires Flags(s) && Moved(s, s', t, n)
    requires forall c, d, fd :: 0 <= c < |s.nodes| ==>
      FlaggedIn(s.nodes[c].fds, d, fd) + OpClaims(s'.ops[t], Flagged(c, d, fd))
        <= FlaggedIn(s'.nodes[c].fds, d, fd) + OpClaims(s.ops[t], Flagged(c, d, fd))
    ensures Flags(s')
  {
    hide FlaggedIn, OpClaims;
    forall c, d, fd | 0 <= c < |s'.nodes|
      ensures FlagHeld(s', c, d, fd)
    {
      assert FlagHeld(s, c, d, fd);
      OpsTotalUpdate(s.ops, t, s'.ops[t], Flagged(c, d, fd));
    }
  }

  /** add_fd_to_drvcall_node: the entry takes over everything the thread held. */
  lemma InvOpenAddFd(s: DrvState, t: nat)
    requires Inv(s) && At(s, t, OpenGotFd)
    ensures Inv(DoOpenAddFd(s, t))
  {
    var s' := DoOpenAddFd(s, t);
    var o := s.ops[t];
    assert OpOk(s, t) && NodeOk(s, o.c) && NodeCounts(s, o.c);
    RefIsPublished(s, t, o.c);
    AddFdFlags(s, t);
    hide Inv, Total, Flags, OpClaims;
    AddFdTotals(s, t);
    AddFdShape(s, t);
    hide OpOk, NodeOk;
    InvFds(s, s', t, o.c);
  }

  lemma AddFdShape(s: DrvState, t: nat)
    requires At(s, t, OpenGotFd) && OpOk(s, t) && NodeOk(s, s.ops[t].c)
    ensures var s' := DoOpenAddFd(s, t);
      && OpOk(s', t)
      && forall i :: 0 <= i < |s'.nodes[s.ops[t].c].fds| ==> EntryOk(s, s'.nodes[s.ops[t].c].fds[i])
  {
    var fds := s.nodes[s.ops[t].c].fds;
    forall i | 0 <= i < |fds|
      ensures EntryOk(s, fds[i])
    {
    }
  }

  lemma AddFdFlags(s: DrvState, t: nat)
    requires Flags(s) && At(s, t, OpenGotFd)
    ensures Flags(DoOpenAddFd(s, t))
  {
    var o := s.ops[t];
    forall d, fd
      ensures FlaggedIn(s.nodes[o.c].fds + [FdEntry(o.fd, o.d, false)], d, fd) == FlaggedIn(s.nodes[o.c].fds, d, fd)
    {
      FlaggedConcat(s.nodes[o.c].fds, [FdEntry(o.fd, o.d, false)], d, fd);
    }
    FlagsAgain(s, DoOpenAddFd(s, t), t, o.c);
  }

  lemma AddFdTotals(s: DrvState, t: nat)
    requires At(s, t, OpenGotFd)
    ensures forall w: Claim :: !w.Flagged? ==> Total(DoOpenAddFd(s, t), w) == Total(s, w)
  {
    var s' := DoOpenAddFd(s, t);
    var o := s.ops[t];
    Deltas(s, s', t, o.c);
    hide Total, OpClaims, FdsTotal;
    forall w: Claim | !w.Flagged?
      ensures Total(s', w) == Total(s, w)
    {
      FdsTotalConcat(o.c, s.nodes[o.c].fds, [FdEntry(o.fd, o.d, false)], w);
      EntryTakesOver(o, w);
    }
  }

  /** The new entry holds what the opening thread held. */
  lemma EntryTakesOver(o: Op, w: Claim)
    requires o.pc == OpenGotFd && !w.Flagged?
    ensures FdsTotal(o.c, [FdEntry(o.fd, o.d, false)], w) == OpClaims(o, w) && OpClaims(IDLE, w) == 0
  {
    var e := FdEntry(o.fd, o.d, false);
    assert FdsTotal(o.c, [e], w) == EntryClaims(o.c, e, w);
  }

  /** The scan sets flags only on entries with this fd, and what it returns it has just flagged. */
  lemma {:induction false} ScanCloseFlags(fds: seq<FdEntry>, fd: nat, k: nat, found: Option<nat>)
    requires k <= |fds|
    ensures var (fds', r) := ScanClose(fds, fd, k, found);
      && |fds'| == |fds|
      && (forall i :: 0 <= i < |fds| ==> fds'[i] == fds[i] || fds'[i] == fds[i].(closing := true))
      && (forall i :: 0 <= i < k ==> fds'[i] == fds[i])
      && (r == found || (&& r.Some? && k <= r.value < |fds| && fds[r.value].fd == fd
                         && !fds[r.value].closing && fds'[r.value].closing))
    decreases |fds| - k
  {
    if k < |fds| {
      if fds[k].fd != fd {
        ScanCloseFlags(fds, fd, k + 1, found);
      } else if !fds[k].closing {
        ScanCloseFlags(fds[k := fds[k].(closing := true)], fd, k + 1, Some(k));
      }
    }
  }

  lemma ClaimTotals(s: DrvState, s': DrvState, t: nat)
    requires At(s, t, CloseHasCaller) && s' == DoCloseClaim(s, t)
    ensures forall w: Claim :: !w.Flagged? ==> Total(s', w) == Total(s, w)
  {
    var o := s.ops[t];
    ScanCloseFlags(s.nodes[o.c].fds, o.fd, 0, None);
    Deltas(s, s', t, o.c);
    hide ScanClose, Total, OpClaims, FdsTotal;
    forall w: Claim | !w.Flagged?
      ensures Total(s', w) == Total(s, w)
    {
      FdsTotalReflag(o.c, s.nodes[o.c].fds, s'.nodes[o.c].fds, w);
      ClaimHoldings(o, s'.ops[t], w);
    }
  }

  lemma ClaimHoldings(o: Op, o': Op, w: Claim)
    requires o.pc == CloseHasCaller && o'.c == o.c && !w.Flagged?
    requires o'.pc == CloseFlagged || (o'.pc == PutCaller && o'.k == 1)
    ensures OpClaims(o', w) == OpClaims(o, w)
  {
  }

  lemma ClaimFlags(s: DrvState, s': DrvState, t: nat)
    requires Flags(s) && At(s, t, CloseHasCaller) && s' == DoCloseClaim(s, t)
    ensures Flags(s')
  {
    var o := s.ops[t];
    var fds := s.nodes[o.c].fds;
    ScanCloseFlags(fds, o.fd, 0, None);
    var (fds', r) := ScanClose(fds, o.fd, 0, None);
    hide ScanClose;
    forall c, d, fd | 0 <= c < |s.nodes|
      ensures FlaggedIn(s.nodes[c].fds, d, fd) + OpClaims(s'.ops[t], Flagged(c, d, fd))
        <= FlaggedIn(s'.nodes[c].fds, d, fd) + OpClaims(s.ops[t], Flagged(c, d, fd))
    {
      if c == o.c {
        FlaggedMonotone(fds, fds', d, fd);
        if r.Some? {
          FlaggedGrows(fds, fds', r.value);
        }
      }
    }
    FlagsAgain(s, s', t, o.c);
  }

  lemma ClaimShape(s: DrvState, s': DrvState, t: nat)
    requires At(s, t, CloseHasCaller) && s' == DoCloseClaim(s, t) && NodeOk(s, s.ops[t].c)
    ensures OpOk(s', t)
    ensures forall i :: 0 <= i < |s'.nodes[s.ops[t].c].fds| ==> EntryOk(s, s'.nodes[s.ops[t].c].fds[i])
  {
    var fds := s.nodes[s.ops[t].c].fds;
    ScanCloseFlags(fds, s.ops[t].fd, 0, None);
    hide ScanClose;
    forall i | 0 <= i < |fds|
      ensures EntryOk(s, s'.nodes[s.ops[t].c].fds[i])
    {
      assert EntryOk(s, fds[i]);
    }
  }

  /** close_get_fd_node_with_lock */
  lemma InvCloseClaim(s: DrvState, t: nat)
    requires Inv(s) && At(s, t, CloseHasCaller)
    ensures Inv(DoCloseClaim(s, t))
  {
    var s' := DoCloseClaim(s, t);
    var n := s.ops[t].c;
    assert OpOk(s, t) && NodeOk(s, n) && NodeCounts(s, n);
    RefIsPublished(s, t, n);
    ClaimFlags(s, s', t);
    hide Inv, Total, Flags;
    ClaimTotals(s, s', t);
    ClaimShape(s, s', t);
    hide OpOk, NodeOk, OpClaims;
    InvFds(s, s', t, n);
  }

  /** An entry leaves the list: its references and its descriptor pass to the thread, its slot is freed. */
  lemma DropTotals(s: DrvState, s': DrvState, t: nat, n: nat, i: nat)
    requires Moved(s, s', t, n) && i < |s.nodes[n].fds| && s'.nodes[n] == DropEntry(s.nodes[n], i)
    requires s'.ops[t].c == s.ops[t].c == n
    requires s'.ops[t].d == s.nodes[n].fds[i].drv && s'.ops[t].fd == s.nodes[n].fds[i].fd
    requires (s.ops[t].pc == CloseFlagged && s'.ops[t].pc == CloseDeleted)
          || (s.ops[t].pc == ExitScan && s'.ops[t].pc == ExitDeleted && s'.ops[t].k == s.ops[t].k + 1)
    ensures forall w: Claim :: !w.Flagged? ==> Total(s', w) + (if w == Slot(n) then 1 else 0) == Total(s, w)
  {
    Deltas(s, s', t, n);
    forall w: Claim | !w.Flagged?
      ensures Total(s', w) + (if w == Slot(n) then 1 else 0) == Total(s, w)
    {
      FdsTotalRemove(n, s.nodes[n].fds, i, w);
      DropHoldings(s.ops[t], s'.ops[t], s.nodes[n].fds[i], w);
    }
  }

  lemma DropHoldings(o: Op, o': Op, e: FdEntry, w: Claim)
    requires o'.c == o.c && o'.d == e.drv && o'.fd == e.fd && !w.Flagged?
    requires (o.pc == CloseFlagged && o'.pc == CloseDeleted)
          || (o.pc == ExitScan && o'.pc == ExitDeleted && o'.k == o.k + 1)
    ensures OpClaims(o', w) + (if w == Slot(o.c) then 1 else 0) == OpClaims(o, w) + EntryClaims(o.c, e, w)
  {
  }

  /** The entry that leaves is unflagged, or flagged by this very thread. */
  lemma DropFlags(s: DrvState, s': DrvState, t: nat, n: nat, i: nat)
    requires Flags(s) && Moved(s, s', t, n) && i < |s.nodes[n].fds| && s'.nodes[n] == DropEntry(s.nodes[n], i)
    requires s.ops[t].c == n && s'.ops[t].pc != CloseFlagged
    requires !s.nodes[n].fds[i].closing || (s.ops[t].pc == CloseFlagged && ClaimedEntry(s.ops[t]) == s.nodes[n].fds[i])
    ensures Flags(s')
  {
    forall c, d, fd | 0 <= c < |s.nodes|
      ensures FlaggedIn(s.nodes[c].fds, d, fd) + OpClaims(s'.ops[t], Flagged(c, d, fd))
        <= FlaggedIn(s'.nodes[c].fds, d, fd) + OpClaims(s.ops[t], Flagged(c, d, fd))
    {
      FlaggedRemove(s.nodes[n].fds, i, d, fd);
    }
    FlagsAgain(s, s', t, n);
  }

  /** Removing an entry: fd_count was positive, and the invariant holds again. */
  lemma InvDrop(s: DrvState, s': DrvState, t: nat, n: nat, i: nat)
    requires Inv(s) && Moved(s, s', t, n) && s' == s.(nodes := s'.nodes, ops := s'.ops)
    requires i < |s.nodes[n].fds| && s'.nodes[n] == DropEntry(s.nodes[n], i)
    requires s'.ops[t].c == s.ops[t].c == n
    requires s'.ops[t].d == s.nodes[n].fds[i].drv && s'.ops[t].fd == s.nodes[n].fds[i].fd
    requires (s.ops[t].pc == CloseFlagged && s'.ops[t].pc == CloseDeleted && ClaimedEntry(s.ops[t]) == s.nodes[n].fds[i])
          || (s.ops[t].pc == ExitScan && s'.ops[t].pc == ExitDeleted && s'.ops[t].k == s.ops[t].k + 1
              && !s.nodes[n].fds[i].closing)
    ensures 1 <= s.nodes[n].fdCount && Inv(s')
  {
    hide Total, FlaggedIn;
    assert OpOk(s, t) && NodeOk(s, n) && NodeCounts(s, n);
    RefIsPublished(s, t, n);
    DropFlags(s, s', t, n, i);
    hide Inv, Flags, OpClaims;
    DropTotals(s, s', t, n, i);
    assert 1 <= s.nodes[n].fdCount;
    DropShape(s, s', t, n, i);
    hide OpOk, NodeOk;
    InvFds(s, s', t, n);
  }

  lemma DropShape(s: DrvState, s': DrvState, t: nat, n: nat, i: nat)
    requires Moved(s, s', t, n) && i < |s.nodes[n].fds| && s'.nodes[n] == DropEntry(s.nodes[n], i)
    requires OpOk(s, t) && NodeOk(s, n) && s'.ops[t].c == s.ops[t].c == n
    requires s'.ops[t].d == s.nodes[n].fds[i].drv && s'.ops[t].fd == s.nodes[n].fds[i].fd
    requires s'.ops[t].pc == CloseDeleted || s'.ops[t].pc == ExitDeleted
    ensures OpOk(s', t)
    ensures forall j :: 0 <= j < |s'.nodes[n].fds| ==> EntryOk(s, s'.nodes[n].fds[j])
  {
    var fds := s.nodes[n].fds;
    assert EntryOk(s, fds[i]);
    assert forall j :: 0 <= j < |fds| ==> EntryOk(s, fds[j]);
    assert OpOk(s', t);
    hide OpOk, NodeOk, EntryOk;
    AllButOne(s, fds, i);
  }

  lemma AllButOne(s: DrvState, fds: seq<FdEntry>, i: nat)
    requires i < |fds| && forall j :: 0 <= j < |fds| ==> EntryOk(s, fds[j])
    ensures var rest := fds[..i] + fds[i + 1..];
      forall j :: 0 <= j < |rest| ==> EntryOk(s, rest[j])
  {
    hide EntryOk;
    var rest := fds[..i] + fds[i + 1..];
    forall j | 0 <= j < |rest| ensures EntryOk(s, rest[j]) {
      assert rest[j] == fds[if j < i then j else j + 1];
    }
  }

  /** del_fd_to_drvcall_node: the claimed entry is still there, and fd_count is positive. */
  lemma InvCloseDelete(s: DrvState, t: nat)
    requires Inv(s) && CanDelete(s, t)
    ensures 1 <= s.nodes[s.ops[t].c].fdCount && Inv(DoCloseDelete(s, t))
  {
    var o := s.ops[t];
    hide Inv;
    InvDrop(s, DoCloseDelete(s, t), t, o.c, IndexOf(s.nodes[o.c].fds, ClaimedEntry(o)));
  }

  lemma FlaggedInHas(fds: seq<FdEntry>, d: nat, fd: nat)
    requires 1 <= FlaggedIn(fds, d, fd)
    ensures FdEntry(fd, d, true) in fds
  {
    if fds[0] != FdEntry(fd, d, true) {
      FlaggedInHas(fds[1..], d, fd);
    }
  }

  /** The thread that set a close_flag can always delete its entry. */
  lemma ClaimedEntryStays(s: DrvState, t: nat)
    requires Inv(s) && At(s, t, CloseFlagged)
    ensures CanDelete(s, t)
  {
    var o := s.ops[t];
    assert OpOk(s, t) && FlagHeld(s, o.c, o.d, o.fd);
    OpsTotalAtLeast(s.ops, t, Flagged(o.c, o.d, o.fd));
    FlaggedInHas(s.nodes[o.c].fds, o.d, o.fd);
  }

  /** exception_close_handle, one entry */
  lemma InvExitClaim(s: DrvState, t: nat)
    requires Inv(s) && At(s, t, ExitScan)
    ensures Inv(DoExitClaim(s, t))
  {
    var o := s.ops[t];
    var s' := DoExitClaim(s, t);
    var i := FirstUnflagged(s.nodes[o.c].fds);
    assert OpOk(s, t);
    hide Inv;
    if i == |s.nodes[o.c].fds| {
      SameWhen(o, s'.ops[t]);
      hide SameHoldings;
      InvJump(s, s', t);
    } else {
      InvDrop(s, s', t, o.c, i);
    }
  }

  /** get_ta_node_and_set_exit on a node gtask registered: the registration passes to the thread. */
  lemma InvExitStart(s: DrvState, t: nat, uuid: nat)
    requires Inv(s) && At(s, t, Idle) && Disciplined(s, ExitStart(t, uuid))
    ensures Inv(DoExitStart(s, t, uuid))
  {
    var s' := DoExitStart(s, t, uuid);
    var r := ExitTarget(s, uuid);
    if r.Some? {
      var n := r.value;
      ListedIsPublished(s, n);
      assert NodeOk(s, n) && NodeCounts(s, n) && OpOk(s, t) && OpOk(s', t) && s.nodes[n].live;
      ExitHoldings(s.ops[t], s'.ops[t]);
      hide OpClaims, OpsTotal, NodesTotal, FlaggedIn, Find;
      KeepAccounting(s, s', t, n);
      KeepCounts(s, s', t, n);
      KeepHolders(s, s', t, n);
      KeepFlags(s, s', t, n);
      KeepOps(s, s', t, n);
      NodeOkAgain(s, s', t, n);
      KeepNodes(s, s', t, n);
      KeepList(s, s', t, n);
    }
  }

  lemma ExitHoldings(o: Op, o': Op)
    requires o.pc == Idle && o'.pc == ExitScan && o'.k == 0
    ensures forall w: Claim :: OpClaims(o, w) == 0 && OpClaims(o', w) == if w == Ref(o'.c) then 2 else 0
  {
  }

  // ---- registration ----

  /** Nothing refers to a node that is not allocated yet. */
  lemma NothingBeyond(s: DrvState, w: Claim)
    requires NodesOk(s) && OpsOk(s)
    requires w == Ref(|s.nodes|) || w == Slot(|s.nodes|) || w == Spawner(|s.nodes|) || w == Private(|s.nodes|)
    ensures Total(s, w) == 0
  {
    forall t | 0 <= t < |s.ops|
      ensures OpClaims(s.ops[t], w) == 0
    {
      assert OpOk(s, t);
    }
    OpsTotalZero(s.ops, w);
    forall i | 0 <= i < |s.nodes|
      ensures FdsTotal(0 + i, s.nodes[i].fds, w) == 0
    {
      assert NodeOk(s, i);
      forall j | 0 <= j < |s.nodes[i].fds|
        ensures EntryClaims(i, s.nodes[i].fds[j], w) == 0
      {
        assert EntryOk(s, s.nodes[i].fds[j]);
      }
      FdsTotalZero(i, s.nodes[i].fds, w);
    }
    NodesTotalZero(s.nodes, 0, w);
  }

  /** A fresh node: its creator is the only one that knows it. */
  predicate FreshNode(m: Node, o': Op, n: nat) {
    && m.live && m.fds == [] && m.fdCount == 0 && o'.c == n
    && (if m.target == Ta then m.state == Normal && m.refCnt == 1 else m.state == Load && m.refCnt == 0 && !m.registered)
    && (if o'.pc == Registering then m.registered == (m.target == Ta)
        else o'.pc == OpenRegistering && m.target == Ta && !m.registered)
  }

  lemma FreshHoldings(o: Op, m: Node, o': Op, n: nat, w: Claim)
    requires o.pc == Idle && FreshNode(m, o', n) && !w.Flagged?
    ensures OpClaims(o, w) == 0
    ensures OpClaims(o', w) == if w == Private(n) then 1 else if w == Ref(n) then m.refCnt - B(m.registered) else 0
  {
  }

  lemma InvAddNode(s: DrvState, t: nat, m: Node, pc: Pc, name: string, indexes: seq<bool>)
    requires Inv(s) && At(s, t, Idle)
    requires |indexes| == |s.indexes| && forall i :: 0 <= i < |indexes| && s.indexes[i] ==> indexes[i]
    requires FreshNode(m, Op(pc, |s.nodes|, 0, 0, 0, name), |s.nodes|)
    requires m.target == Drv ==>
      1 <= m.drvIndex <= |indexes| && indexes[m.drvIndex - 1] && !s.indexes[m.drvIndex - 1]
    ensures Inv(AddNode(s.(indexes := indexes), t, m, pc, name))
  {
    var s' := AddNode(s.(indexes := indexes), t, m, pc, name);
    var n := |s.nodes|;
    forall w: Claim | !w.Flagged?
      ensures Total(s', w) == Total(s, w) + OpClaims(s'.ops[t], w)
    {
      OpsTotalUpdate(s.ops, t, s'.ops[t], w);
      NodesTotalAppend(s.nodes, 0, m, w);
      FreshHoldings(s.ops[t], m, s'.ops[t], n, w);
    }
    AddNodeCounts(s, s', t, m);
    AddNodeFlags(s, s', t, m);
    AddNodeShape(s, s', t, m);
  }

  lemma AddNodeTotals(s: DrvState, s': DrvState, t: nat, m: Node)
    requires Inv(s) && At(s, t, Idle)
    requires s'.nodes == s.nodes + [m] && t < |s.ops| == |s'.ops| && s'.ops == s.ops[t := s'.ops[t]]
    requires FreshNode(m, s'.ops[t], |s.nodes|)
    requires forall w: Claim :: !w.Flagged? ==> Total(s', w) == Total(s, w) + OpClaims(s'.ops[t], w)
    ensures var n := |s.nodes|;
      && Total(s, Ref(n)) == Total(s, Slot(n)) == Total(s, Spawner(n)) == Total(s, Private(n)) == 0
      && forall w: Claim :: !w.Flagged? ==>
           Total(s', w) == Total(s, w)
             + if w == Private(n) then 1 else if w == Ref(n) then m.refCnt - B(m.registered) else 0
  {
    var n := |s.nodes|;
    hide Total, OpClaims;
    NothingBeyond(s, Ref(n));
    NothingBeyond(s, Slot(n));
    NothingBeyond(s, Spawner(n));
    NothingBeyond(s, Private(n));
    forall w: Claim | !w.Flagged?
      ensures Total(s', w) == Total(s, w)
        + if w == Private(n) then 1 else if w == Ref(n) then m.refCnt - B(m.registered) else 0
    {
      FreshHoldings(s.ops[t], m, s'.ops[t], n, w);
    }
  }

  lemma AddNodeCounts(s: DrvState, s': DrvState, t: nat, m: Node)
    requires Inv(s) && At(s, t, Idle)
    requires s'.nodes == s.nodes + [m] && t < |s.ops| == |s'.ops| && s'.ops == s.ops[t := s'.ops[t]] && s'.list == s.list
    requires s'.openLog == s.openLog && s'.closeLog == s.closeLog && FreshNode(m, s'.ops[t], |s.nodes|)
    requires forall w: Claim :: !w.Flagged? ==> Total(s', w) == Total(s, w) + OpClaims(s'.ops[t], w)
    ensures Accounting(s') && Counts(s') && Holders(s')
  {
    hide Total, OpClaims;
    AddNodeTotals(s, s', t, m);
    forall x | 0 <= x < |s'.nodes|
      ensures NodeAccounted(s', x) && NodeCounts(s', x)
    {
      if x < |s.nodes| {
        assert NodeAccounted(s, x) && NodeCounts(s, x);
      }
    }
    forall d, fd
      ensures HandedOut(s', d, fd)
    {
      assert HandedOut(s, d, fd);
    }
  }

  lemma AddNodeShape(s: DrvState, s': DrvState, t: nat, m: Node)
    requires Inv(s) && At(s, t, Idle)
    requires s'.nodes == s.nodes + [m] && t < |s.ops| == |s'.ops| && s'.ops == s.ops[t := s'.ops[t]] && s'.list == s.list
    requires FreshNode(m, s'.ops[t], |s.nodes|)
    requires |s'.indexes| == |s.indexes| && forall i :: 0 <= i < |s.indexes| && s.indexes[i] ==> s'.indexes[i]
    requires m.target == Drv ==>
      1 <= m.drvIndex <= |s.indexes| && s'.indexes[m.drvIndex - 1] && !s.indexes[m.drvIndex - 1]
    ensures NodesOk(s') && IndexesOk(s') && ListOk(s') && OpsOk(s')
  {
    hide Accounting, Counts, Holders, Flags;
    forall x | 0 <= x < |s.nodes|
      ensures NodeOk(s', x) && !SameIndex(s.nodes[x], m)
    {
      assert NodeOk(s, x);
      forall i | 0 <= i < |s.nodes[x].fds|
        ensures EntryOk(s', s.nodes[x].fds[i])
      {
        assert EntryOk(s, s.nodes[x].fds[i]);
      }
    }
    forall u | 0 <= u < |s.ops|
      ensures OpOk(s', u)
    {
      assert OpOk(s, u);
    }
  }

  lemma AddNodeFlags(s: DrvState, s': DrvState, t: nat, m: Node)
    requires Flags(s) && OpsOk(s) && At(s, t, Idle)
    requires s'.nodes == s.nodes + [m] && t < |s.ops| == |s'.ops| && s'.ops == s.ops[t := s'.ops[t]]
    requires s'.ops[t].pc != CloseFlagged
    ensures Flags(s')
  {
    forall c, d, fd | 0 <= c < |s'.nodes|
      ensures FlagHeld(s', c, d, fd)
    {
      OpsTotalUpdate(s.ops, t, s'.ops[t], Flagged(c, d, fd));
      if c < |s.nodes| {
        assert FlagHeld(s, c, d, fd);
      } else {
        forall u | 0 <= u < |s.ops|
          ensures OpClaims(s.ops[u], Flagged(c, d, fd)) == 0
        {
          assert OpOk(s, u);
        }
        OpsTotalZero(s.ops, Flagged(c, d, fd));
      }
    }
  }

  /** receive_task_conf accepts only a node that clashes with no listed node. */
  lemma AdmitList(s: DrvState, n: nat, policyOk: bool)
    requires ListOk(s) && NodesOk(s) && n < |s.nodes| && s.nodes[n].live && n !in s.list
    requires Admitted(s.nodes, s.list, s.nodes[n], policyOk)
    ensures ListOk(s.(list := s.list + [n]))
  {
    forall i | 0 <= i < |s.list|
      ensures s.list[i] != n && Compatible(s.nodes[s.list[i]], s.nodes[n])
    {
      assert s.list[i] in s.list && NodeOk(s, s.list[i]);
    }
  }

  /** A node under registration is live, unlisted, and known to its creator only. */
  lemma PrivateIsUnlisted(s: DrvState, t: nat)
    requires Counts(s) && CanReceive(s, t)
    ensures s.nodes[s.ops[t].c].live && s.ops[t].c !in s.list && Total(s, Private(s.ops[t].c)) == 1
  {
    assert NodeCounts(s, s.ops[t].c);
    ClaimsBelowTotal(s, t, Private(s.ops[t].c));
  }

  lemma AdmitCounts(s: DrvState, s': DrvState, t: nat, n: nat)
    requires Counts(s) && Moved(s, s', t, n) && s'.nodes == s.nodes && s'.list == s.list + [n]
    requires s.nodes[n].live && n !in s.list && Gains(s'.ops[t], s.ops[t], Private(n))
    ensures Counts(s')
  {
    DeltaOp(s, s', t, n);
    hide Total, OpClaims, OpsTotal;
    forall x | 0 <= x < |s'.nodes|
      ensures NodeCounts(s', x)
    {
      assert NodeCounts(s, x);
    }
  }

  lemma InvAdmit(s: DrvState, t: nat, policyOk: bool)
    requires Inv(s) && CanReceive(s, t) && Admitted(s.nodes, s.list, s.nodes[s.ops[t].c], policyOk)
    ensures Inv(DoReceive(s, t, policyOk))
  {
    var s' := DoReceive(s, t, policyOk);
    var n := s.ops[t].c;
    assert OpOk(s, t) && OpOk(s', t) && NodeOk(s, n);
    PrivateIsUnlisted(s, t);
    ReceiveHoldings(s.ops[t], s'.ops[t]);
    AdmitList(s, n, policyOk);
    hide Admitted, OpClaims, OpsTotal, NodesTotal, FlaggedIn;
    AdmitCounts(s, s', t, n);
    KeepAccounting(s, s', t, n);
    KeepHolders(s, s', t, n);
    KeepFlags(s, s', t, n);
    KeepOps(s, s', t, n);
    NodeOkAgain(s, s', t, n);
    KeepNodes(s, s', t, n);
  }

  lemma ReceiveHoldings(o: Op, o': Op)
    requires o.pc == Registering || o.pc == OpenRegistering
    requires o' == if o.pc == Registering then IDLE else o.(pc := OpenHasCaller)
    ensures Gains(o', o, Private(o.c))
  {
  }

  /** free_task_node of a node that nothing refers to afterwards. */
  lemma InvFree(s: DrvState, s': DrvState, t: nat, n: nat)
    requires Inv(s) && Moved(s, s', t, n) && OpOk(s', t) && s'.ops[t].pc != CloseFlagged
    requires s' == SetOp(FreeNode(s.(list := s'.list), n), t, s'.ops[t]) && s.nodes[n].live
    requires ListOk(s') && forall x :: x != n ==> (x in s'.list <==> x in s.list)
    requires forall w: Claim :: w != Ref(n) && w != Private(n) && !w.Flagged? ==>
      OpClaims(s'.ops[t], w) == OpClaims(s.ops[t], w)
    requires Total(s', Ref(n)) == 0 && Total(s', Private(n)) == 0
    requires Published(s, n) || Unshared(s, t, n)
    ensures Inv(s')
  {
    hide OpsTotal, NodesTotal, OpClaims, Accounting, Counts, Holders, Flags, OpsOk, NodesOk, ListOk, Unshared;
    KeepFreed(s, s', t, n);
    KeepFreedShape(s, s', t, n);
  }

  /** Nobody but its creator refers to a node under registration. */
  lemma PrivateIsUnshared(s: DrvState, t: nat)
    requires Inv(s) && CanReceive(s, t)
    ensures Unshared(s, t, s.ops[t].c)
    ensures Total(s, Ref(s.ops[t].c)) == OpClaims(s.ops[t], Ref(s.ops[t].c))
  {
    var n := s.ops[t].c;
    PrivateIsUnlisted(s, t);
    assert OpOk(s, t) && NodeAccounted(s, n);
    forall u | 0 <= u < |s.ops| && u != t
      ensures OpClaims(s.ops[u], Private(n)) == 0
    {
      OpsTotalTwo(s.ops, t, u, Private(n));
    }
  }

  /** receive_task_conf refuses (or merges a crypto node): the node is freed. */
  lemma InvReject(s: DrvState, t: nat, policyOk: bool)
    requires Inv(s) && CanReceive(s, t) && !Admitted(s.nodes, s.list, s.nodes[s.ops[t].c], policyOk)
    ensures Inv(DoReceive(s, t, policyOk))
  {
    var s' := DoReceive(s, t, policyOk);
    var n := s.ops[t].c;
    PrivateIsUnlisted(s, t);
    PrivateIsUnshared(s, t);
    hide Admitted, Inv, Unshared;
    DeltaOp(s, s', t, n);
    RejectHoldings(s.ops[t]);
    hide OpClaims;
    assert Inv(s);
    assert ListOk(s') by {
      assert ListOk(s);
    }
    InvFree(s, s', t, n);
  }

  lemma RejectHoldings(o: Op)
    requires o.pc == Registering || o.pc == OpenRegistering
    ensures forall w: Claim :: OpClaims(IDLE, w) == 0
    ensures forall w: Claim :: w != Ref(o.c) && w != Private(o.c) ==> OpClaims(o, w) == 0
    ensures OpClaims(o, Private(o.c)) == 1
  {
  }

  /** A driver that free_drv_conf_by_service_name frees was never spawned and has no user. */
  lemma UnregisteredIsUnused(s: DrvState, name: string)
    requires Inv(s) && UnregisterTarget(s.nodes, s.list, name).Some?
    ensures var n := UnregisterTarget(s.nodes, s.list, name).value;
      && n in s.list && s.nodes[n].live && s.nodes[n].target == Drv && s.nodes[n].state == Load
      && Total(s, Ref(n)) == 0 && Published(s, n)
  {
    var n := UnregisterTarget(s.nodes, s.list, name).value;
    assert NodeOk(s, n) && NodeAccounted(s, n);
    ListedIsPublished(s, n);
  }

  lemma InvUnregisterDrv(s: DrvState, t: nat, name: string)
    requires Inv(s) && At(s, t, Idle)
    ensures Inv(DoUnregisterDrv(s, name))
  {
    var r := UnregisterTarget(s.nodes, s.list, name);
    if r.Some? {
      var n := r.value;
      var s' := DoUnregisterDrv(s, name);
      UnregisteredIsUnused(s, name);
      assert OpOk(s, t);
      hide Inv, UnregisterTarget, OpClaims;
      DeltaOp(s, s', t, n);
      assert ListOk(s') by {
        assert Inv(s);
        KeepListWithout(s, s', n);
      }
      InvFree(s, s', t, n);
    }
  }

  // ---- all actions ----

  /** Every enabled action keeps the invariant, as long as gtask unregisters only what it registered. */
  lemma InvApply(s: DrvState, a: Action)
    requires Inv(s) && Enabled(s, a) && Disciplined(s, a)
    ensures Inv(Apply(s, a))
  {
    hide Inv, OpClaims;
    match a
    case RegisterTa(t, uuid) => InvAddNode(s, t, NewTa(uuid, INVALID_PID, true), Registering, "", s.indexes);
    case RegisterDrv(t, uuid, name, crypto) =>
      var i := LowestFree(s.indexes).value;
      InvAddNode(s, t, NewDrv(uuid, name, i + 1, crypto), Registering, name, s.indexes[i := true]);
    case RegisterImplicit(t, uuid, pid, name) =>
      InvAddNode(s, t, NewTa(uuid, pid, false), OpenRegistering, name, s.indexes);
    case Receive(t, policyOk) =>
      if Admitted(s.nodes, s.list, s.nodes[s.ops[t].c], policyOk) {
        InvAdmit(s, t, policyOk);
      } else {
        InvReject(s, t, policyOk);
      }
    case OpenStart(t, uuid, pid, name) => InvGetCaller(s, t, uuid, pid, OpenHasCaller, 0, name);
    case Refuse(t) => InvRefuse(s, t);
    case OpenCount(t) => InvOpenCount(s, t);
    case OpenFindDrv(t) => InvOpenFindDrv(s, t);
    case OpenCheckState(t) => InvOpenCheckState(s, t);
    case OpenBroadcast(t, ok, pid) => InvOpenBroadcast(s, t, ok, pid);
    case OpenDriver(t, local) => InvOpenDriver(s, t, local);
    case OpenAddFd(t) => InvOpenAddFd(s, t);
    case CallClose(t) => InvCallClose(s, t);
    case PutDrv(t) => InvPutDrv(s, t);
    case PutCount(t) => InvPutCount(s, t);
    case PutCallerNode(t) => InvPutCaller(s, t);
    case CloseStart(t, uuid, pid, fd) => InvGetCaller(s, t, uuid, pid, CloseHasCaller, fd, "");
    case CloseClaim(t) => InvCloseClaim(s, t);
    case CloseDelete(t) => InvCloseDelete(s, t);
    case ExitStart(t, uuid) => InvExitStart(s, t, uuid);
    case ExitClaim(t) => InvExitClaim(s, t);
    case UnregisterDrv(t, name) => InvUnregisterDrv(s, t, name);
  }
}
