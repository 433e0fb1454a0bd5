/**
  Driver manager: what holds over every run of any number of threads.
 */
module DrvRuns {
  import opened Options
  import opened DrvTypes
  import opened DrvSteps
  import opened DrvInvariant
  import opened DrvPreserve

  /** Nothing registered, every thread idle. */
  function Init(threads: nat): DrvState {
    DrvState([], [], seq(DRV_INDEX_MAX, _ => false), seq(threads, _ => IDLE), multiset{}, multiset{})
  }

  ghost predicate IsRun(s: DrvState, acts: seq<Action>)
    decreases |acts|
  {
    acts != [] ==> Enabled(s, acts[0]) && IsRun(Apply(s, acts[0]), acts[1..])
  }

  ghost function After(s: DrvState, acts: seq<Action>): DrvState
    requires IsRun(s, acts)
    decreases |acts|
  {
    if acts == [] then s else After(Apply(s, acts[0]), acts[1..])
  }

  /** gtask never unregisters a node it did not register. */
  ghost predicate DisciplinedRun(s: DrvState, acts: seq<Action>)
    requires IsRun(s, acts)
    decreases |acts|
  {
    acts != [] ==> Disciplined(s, acts[0]) && DisciplinedRun(Apply(s, acts[0]), acts[1..])
  }

  ghost predicate AlwaysAccounted(s: DrvState, acts: seq<Action>)
    requires IsRun(s, acts)
    decreases |acts|
  {
    Accounting(s) && (acts != [] ==> AlwaysAccounted(Apply(s, acts[0]), acts[1..]))
  }

  /** The states of disciplined runs. */
  ghost predicate Reachable(s: DrvState) {
    exists threads: nat, acts: seq<Action> ::
      IsRun(Init(threads), acts) && DisciplinedRun(Init(threads), acts) && After(Init(threads), acts) == s
  }

  lemma InitInv(threads: nat)
    ensures Inv(Init(threads))
  {
    var s := Init(threads);
    forall w: Claim ensures OpsTotal(s.ops, w) == 0 {
      OpsTotalZero(s.ops, w);
    }
    assert forall d, fd :: HandedOut(s, d, fd);
  }

  lemma {:induction false} RunInv(s: DrvState, acts: seq<Action>)
    requires Inv(s) && IsRun(s, acts) && DisciplinedRun(s, acts)
    ensures Inv(After(s, acts))
    decreases |acts|
  {
    hide Inv;
    if acts != [] {
      InvApply(s, acts[0]);
      RunInv(Apply(s, acts[0]), acts[1..]);
    }
  }

  lemma ReachableInv(s: DrvState)
    requires Reachable(s)
    ensures Inv(s)
  {
    var threads: nat, acts: seq<Action> :|
      IsRun(Init(threads), acts) && DisciplinedRun(Init(threads), acts) && After(Init(threads), acts) == s;
    InitInv(threads);
    RunInv(Init(threads), acts);
  }

  // ---- reference counting ----

  /** Unregistering a node that gtask never registered breaks the accounting at once. */
  lemma UndisciplinedBreaks(s: DrvState, t: nat, uuid: nat)
    requires Inv(s) && At(s, t, Idle) && !Disciplined(s, ExitStart(t, uuid))
    ensures !Accounting(DoExitStart(s, t, uuid))
  {
    var s' := DoExitStart(s, t, uuid);
    var n := ExitTarget(s, uuid).value;
    assert NodeAccounted(s, n) && NodeOk(s, n);
    assert s.nodes[n].live;
    DeltaOp(s, s', t, n);
    ExitHoldings(s.ops[t], s'.ops[t]);
    hide OpsTotal, NodesTotal, OpClaims;
    assert !NodeAccounted(s', n);
  }

  /**
    In every run, the reference counts are exact in every state if and only if every
    unregistration names a node that gtask registered.
   */
  lemma {:induction false} AccountedIffDisciplined(s: DrvState, acts: seq<Action>)
    requires Inv(s) && IsRun(s, acts)
    ensures AlwaysAccounted(s, acts) <==> DisciplinedRun(s, acts)
    decreases |acts|
  {
    if acts != [] {
      var s' := Apply(s, acts[0]);
      if Disciplined(s, acts[0]) {
        InvApply(s, acts[0]);
        hide Inv;
        AccountedIffDisciplined(s', acts[1..]);
      } else {
        UndisciplinedBreaks(s, acts[0].t, acts[0].uuid);
        assert !AlwaysAccounted(s', acts[1..]);
      }
    }
  }

  /**
    A state in which a caller node was created implicitly by thread 0 and nothing was registered;
    two actions of thread 0 lead there from the start.
   */
  function ImplicitCaller(): DrvState {
    Init(2).(nodes := [NewTa(7, 1, false)], list := [0], ops := [Op(OpenHasCaller, 0, 0, 0, 0, "d"), IDLE])
  }

  lemma ImplicitCallerRun()
    ensures var acts := [RegisterImplicit(0, 7, 1, "d"), Receive(0, true)];
      IsRun(Init(2), acts) && After(Init(2), acts) == ImplicitCaller()
  {
    var s0 := Init(2);
    assert s0.ops == [IDLE, IDLE];
    var s1 := Apply(s0, RegisterImplicit(0, 7, 1, "d"));
    assert s1.nodes == [NewTa(7, 1, false)] && s1.ops == [Op(OpenRegistering, 0, 0, 0, 0, "d"), IDLE];
    var s2 := Apply(s1, Receive(0, true));
    assert s2 == ImplicitCaller();
    assert [RegisterImplicit(0, 7, 1, "d"), Receive(0, true)][1..] == [Receive(0, true)];
    assert IsRun(s1, [Receive(0, true)]) && After(s1, [Receive(0, true)]) == s2;
  }

  /** The unregistering thread has found no fd to close and is about to give back two references. */
  function ImplicitExit(): DrvState {
    ImplicitCaller().(
      nodes := [NewTa(7, 1, false).(refCnt := 2, state := Exit)],
      ops := [Op(OpenHasCaller, 0, 0, 0, 0, "d"), Op(PutCaller, 0, 0, 0, 2, "")])
  }

  lemma ImplicitExitRun()
    ensures var acts := [ExitStart(1, 7), ExitClaim(1)];
      && IsRun(ImplicitCaller(), acts) && !DisciplinedRun(ImplicitCaller(), acts)
      && After(ImplicitCaller(), acts) == ImplicitExit()
  {
    var s2 := ImplicitCaller();
    assert ExitTarget(s2, 7) == Some(0);
    var s3 := Apply(s2, ExitStart(1, 7));
    assert s3.ops == [Op(OpenHasCaller, 0, 0, 0, 0, "d"), Op(ExitScan, 0, 0, 0, 0, "")];
    var s4 := Apply(s3, ExitClaim(1));
    assert s4 == ImplicitExit();
    assert [ExitStart(1, 7), ExitClaim(1)][1..] == [ExitClaim(1)];
    assert IsRun(s3, [ExitClaim(1)]) && After(s3, [ExitClaim(1)]) == s4;
  }

  lemma {:induction false} RunConcat(s: DrvState, a: seq<Action>, b: seq<Action>)
    requires IsRun(s, a) && IsRun(After(s, a), b)
    ensures IsRun(s, a + b) && After(s, a + b) == After(After(s, a), b)
    ensures DisciplinedRun(s, a + b) <==> DisciplinedRun(s, a) && DisciplinedRun(After(s, a), b)
    decreases |a|
  {
    if a == [] {
      assert a + b == b;
    } else {
      assert (a + b)[0] == a[0] && (a + b)[1..] == a[1..] + b;
      RunConcat(Apply(s, a[0]), a[1..], b);
    }
  }

  lemma ImplicitPutRun()
    ensures IsRun(ImplicitExit(), [PutCallerNode(1)])
    ensures var s := After(ImplicitExit(), [PutCallerNode(1)]);
      |s.nodes| == 1 && |s.ops| == 2 && !s.nodes[0].live && s.ops[0] == Op(OpenHasCaller, 0, 0, 0, 0, "d")
  {
    var s := ImplicitExit();
    assert Enabled(s, PutCallerNode(1)) && FreedByPut(s.nodes[0], 2);
    assert [PutCallerNode(1)][1..] == [];
  }

  /** A run that unregisters an implicit caller frees the node while thread 0 still refers to it. */
  lemma ImplicitUnregisterFrees() returns (acts: seq<Action>)
    ensures IsRun(Init(2), acts) && !DisciplinedRun(Init(2), acts)
    ensures var s := After(Init(2), acts);
      |s.nodes| == 1 && |s.ops| == 2 && !s.nodes[0].live && s.ops[0].pc == OpenHasCaller && s.ops[0].c == 0
  {
    ImplicitCallerRun();
    ImplicitExitRun();
    ImplicitPutRun();
    hide IsRun, After, DisciplinedRun, ImplicitCaller, ImplicitExit, Init;
    var a, b, c := [RegisterImplicit(0, 7, 1, "d"), Receive(0, true)], [ExitStart(1, 7), ExitClaim(1)], [PutCallerNode(1)];
    RunConcat(Init(2), a, b);
    RunConcat(Init(2), a + b, c);
    acts := a + b + c;
  }

  /** No underflow: whenever put_node is about to run, the count covers what is given back. */
  lemma PutsAreCovered(s: DrvState, t: nat)
    requires Reachable(s) && t < |s.ops|
    ensures s.ops[t].pc == PutCaller ==> ThreadAt(s, t) && s.ops[t].k <= s.nodes[s.ops[t].c].refCnt
    ensures s.ops[t].pc in {OpenPutDrv, ClosePutDrv, ExitPutDrv} ==>
      ThreadAt(s, t) && 1 <= s.nodes[s.ops[t].d].refCnt
  {
    ReachableInv(s);
    assert OpOk(s, t);
    hide Inv;
    if s.ops[t].pc == PutCaller {
      InvPutCaller(s, t);
    } else if CanPutDrv(s, t) {
      InvPutDrv(s, t);
    }
  }

  predicate EntryIsLive(s: DrvState, e: FdEntry) { e.drv < |s.nodes| && s.nodes[e.drv].live }

  predicate EntriesAreLive(s: DrvState, n: nat)
    requires n < |s.nodes|
  {
    && (s.nodes[n].fds != [] ==> s.nodes[n].live)
    && forall i :: 0 <= i < |s.nodes[n].fds| ==> EntryIsLive(s, s.nodes[n].fds[i])
  }

  predicate ThreadIsLive(s: DrvState, o: Op) {
    && (o.pc != Idle ==> o.c < |s.nodes| && s.nodes[o.c].live)
    && (RefsDrv(o.pc) ==> o.d < |s.nodes| && s.nodes[o.d].live)
  }

  /** No use after free: whatever a thread or an fd entry refers to is live, and freed nodes have no entries. */
  lemma ReferencesAreLive(s: DrvState)
    requires Reachable(s)
    ensures forall t :: 0 <= t < |s.ops| ==> ThreadIsLive(s, s.ops[t])
    ensures forall n :: 0 <= n < |s.nodes| ==> EntriesAreLive(s, n)
  {
    ReachableInv(s);
    forall t | 0 <= t < |s.ops|
      ensures ThreadIsLive(s, s.ops[t])
    {
      assert OpOk(s, t);
      ThreadRefsLive(s, t);
    }
    hide Inv;
    forall n | 0 <= n < |s.nodes|
      ensures EntriesAreLive(s, n)
    {
      forall i | 0 <= i < |s.nodes[n].fds|
        ensures EntryIsLive(s, s.nodes[n].fds[i])
      {
        EntryRefsLive(s, n, i);
      }
      if s.nodes[n].fds != [] {
        EntryRefsLive(s, n, 0);
      }
    }
  }

  lemma ThreadRefsLive(s: DrvState, t: nat)
    requires Inv(s) && t < |s.ops| && OpOk(s, t)
    ensures s.ops[t].pc != Idle ==> s.nodes[s.ops[t].c].live
    ensures RefsDrv(s.ops[t].pc) ==> s.nodes[s.ops[t].d].live
  {
    var o := s.ops[t];
    if o.pc == Registering {
      PrivateIsUnlisted(s, t);
    } else if o.pc != Idle {
      RefKeepsLive(s, t, o.c);
    }
    if RefsDrv(o.pc) {
      RefKeepsLive(s, t, o.d);
    }
  }

  lemma EntryRefsLive(s: DrvState, n: nat, i: nat)
    requires Inv(s) && n < |s.nodes| && i < |s.nodes[n].fds|
    ensures s.nodes[n].live && EntryIsLive(s, s.nodes[n].fds[i])
  {
    var e := s.nodes[n].fds[i];
    assert NodeOk(s, n) && EntryOk(s, e);
    assert NodeAccounted(s, n) && NodeAccounted(s, e.drv);
    FdsTotalRemove(n, s.nodes[n].fds, i, Ref(n));
    FdsTotalRemove(n, s.nodes[n].fds, i, Ref(e.drv));
    NodesTotalAtLeast(s.nodes, 0, n, Ref(n));
    NodesTotalAtLeast(s.nodes, 0, n, Ref(e.drv));
  }

  /** put_node frees a caller node exactly when the thread gives back the last references there are. */
  lemma FreedExactlyWhenUnreferenced(s: DrvState, t: nat)
    requires Reachable(s) && At(s, t, PutCaller) && s.nodes[s.ops[t].c].target == Ta
    ensures FreedByPut(s.nodes[s.ops[t].c], s.ops[t].k)
      <==> !s.nodes[s.ops[t].c].registered && Total(s, Ref(s.ops[t].c)) == s.ops[t].k
  {
    ReachableInv(s);
    hide Reachable, OpsTotal, NodesTotal;
    var n := s.ops[t].c;
    assert OpOk(s, t) && NodeAccounted(s, n);
    ThreadRefsLive(s, t);
    RefKeepsLive(s, t, n);
  }

  // ---- descriptors ----

  /** Every descriptor a driver handed out is closed at most once, and held in one place until then. */
  lemma ClosedAtMostOnce(s: DrvState, d: nat, fd: nat)
    requires Reachable(s)
    ensures s.closeLog[(d, fd)] <= s.openLog[(d, fd)] <= s.closeLog[(d, fd)] + 1
    ensures s.openLog[(d, fd)] == s.closeLog[(d, fd)] + Total(s, Holder(d, fd))
  {
    ReachableInv(s);
    assert HandedOut(s, d, fd);
  }

  /** The entry a thread has flagged is a holder of the descriptor. */
  lemma FlaggedEntryHolds(s: DrvState, u: nat)
    requires Inv(s) && u < |s.ops| && s.ops[u].pc == CloseFlagged
    ensures 1 <= NodesTotal(s.nodes, 0, Holder(s.ops[u].d, s.ops[u].fd))
  {
    assert OpOk(s, u);
    hide Inv, NodesTotal;
    ClaimedEntryStays(s, u);
    var o := s.ops[u];
    var i := IndexOf(s.nodes[o.c].fds, ClaimedEntry(o));
    FdsTotalRemove(o.c, s.nodes[o.c].fds, i, Holder(o.d, o.fd));
    NodesTotalAtLeast(s.nodes, 0, o.c, Holder(o.d, o.fd));
  }

  /** Two threads never both hold the same descriptor for closing, and no list entry keeps it meanwhile. */
  lemma OneCloser(s: DrvState, t: nat, u: nat)
    requires Reachable(s) && t < |s.ops| && u < |s.ops| && HoldsFd(s.ops[t].pc)
    requires t != u && s.ops[u].d == s.ops[t].d && s.ops[u].fd == s.ops[t].fd
    ensures !HoldsFd(s.ops[u].pc) && s.ops[u].pc != CloseFlagged
  {
    ReachableInv(s);
    assert HandedOut(s, s.ops[t].d, s.ops[t].fd);
    hide Inv, Reachable, OpsTotal, NodesTotal;
    OpsTotalTwo(s.ops, t, u, Holder(s.ops[t].d, s.ops[t].fd));
    OpsTotalAtLeast(s.ops, t, Holder(s.ops[t].d, s.ops[t].fd));
    if s.ops[u].pc == CloseFlagged {
      FlaggedEntryHolds(s, u);
    }
  }

  /** The upper half of an fd is its driver's index. */
  lemma SameFdSameIndex(fd: nat, a: Node, b: Node)
    requires FdOfDriver(fd, a) && FdOfDriver(fd, b)
    ensures a.drvIndex == b.drvIndex
  {
  }

  /** Two entries with one fd value would be two holders of one descriptor. */
  lemma TwoEntriesTwoHolders(s: DrvState, n: nat, i: nat, j: nat)
    requires NodesOk(s) && IndexesOk(s) && n < |s.nodes| && i < j < |s.nodes[n].fds|
    requires EntryIsLive(s, s.nodes[n].fds[i]) && EntryIsLive(s, s.nodes[n].fds[j])
    requires s.nodes[n].fds[i].fd == s.nodes[n].fds[j].fd
    ensures 2 <= Total(s, Holder(s.nodes[n].fds[i].drv, s.nodes[n].fds[i].fd))
  {
    var e, f := s.nodes[n].fds[i], s.nodes[n].fds[j];
    assert NodeOk(s, n) && EntryOk(s, e) && EntryOk(s, f);
    SameFdSameIndex(e.fd, s.nodes[e.drv], s.nodes[f.drv]);
    hide NodesTotal, OpsTotal, FdsTotal, FdOfDriver;
    assert e.drv < f.drv ==> !SameIndex(s.nodes[e.drv], s.nodes[f.drv]);
    assert f.drv < e.drv ==> !SameIndex(s.nodes[f.drv], s.nodes[e.drv]);
    FdsTotalTwo(n, s.nodes[n].fds, i, j, Holder(e.drv, e.fd));
    NodesTotalAtLeast(s.nodes, 0, n, Holder(e.drv, e.fd));
  }

  /** No caller's list holds the same fd value twice. */
  lemma DistinctFds(s: DrvState, n: nat, i: nat, j: nat)
    requires Reachable(s) && n < |s.nodes| && i < j < |s.nodes[n].fds|
    ensures s.nodes[n].fds[i].fd != s.nodes[n].fds[j].fd
  {
    ReachableInv(s);
    var e := s.nodes[n].fds[i];
    EntryRefsLive(s, n, i);
    EntryRefsLive(s, n, j);
    assert HandedOut(s, e.drv, e.fd);
    if e.fd == s.nodes[n].fds[j].fd {
      TwoEntriesTwoHolders(s, n, i, j);
    }
  }

  /** With distinct fds the close scan flags exactly the one entry it returns. */
  lemma {:induction false} ScanFlagsOne(fds: seq<FdEntry>, fd: nat, k: nat)
    requires k <= |fds| && forall i, j :: 0 <= i < j < |fds| ==> fds[i].fd != fds[j].fd
    ensures var (fds', r) := ScanClose(fds, fd, k, None);
      match r
      case None => fds' == fds && forall i :: k <= i < |fds| && fds[i].fd == fd ==> fds[i].closing
      case Some(i) => k <= i < |fds| && fds[i].fd == fd && !fds[i].closing && fds' == fds[i := fds[i].(closing := true)]
    decreases |fds| - k
  {
    if k < |fds| {
      if fds[k].fd != fd {
        ScanFlagsOne(fds, fd, k + 1);
      } else if !fds[k].closing {
        ScanSkips(fds[k := fds[k].(closing := true)], fd, k + 1, Some(k));
      }
    }
  }

  lemma {:induction false} ScanSkips(fds: seq<FdEntry>, fd: nat, k: nat, found: Option<nat>)
    requires k <= |fds| && forall i :: k <= i < |fds| ==> fds[i].fd != fd
    ensures ScanClose(fds, fd, k, found) == (fds, found)
    decreases |fds| - k
  {
    if k < |fds| {
      ScanSkips(fds, fd, k + 1, found);
    }
  }

  /** fd_count is the list length plus the opens in flight, at most 32. */
  lemma FdCountExact(s: DrvState, n: nat)
    requires Reachable(s) && n < |s.nodes|
    ensures s.nodes[n].fdCount == |s.nodes[n].fds| + OpsTotal(s.ops, Slot(n)) <= TASK_FD_COUNT_MAX
  {
    ReachableInv(s);
    assert NodeCounts(s, n);
    hide Inv, Reachable, OpsTotal, NodesTotal;
    NodesTotalSlots(s.nodes, 0, n);
  }

  // ---- the task list ----

  /** At most one live answer per uuid and per driver name. */
  lemma ListIsUnambiguous(s: DrvState, i: nat, j: nat)
    requires Reachable(s) && i < j < |s.list|
    ensures s.list[i] < |s.nodes| && s.list[j] < |s.nodes| && s.list[i] != s.list[j]
    ensures var a, b := s.nodes[s.list[i]], s.nodes[s.list[j]];
      && a.live && b.live
      && !(a.uuid == b.uuid && a.state != Exit && b.state != Exit)
      && !(a.target == Drv && b.target == Drv && (a.name == b.name || a.drvIndex == b.drvIndex))
  {
    ReachableInv(s);
    var x, y := s.list[i], s.list[j];
    assert x < y ==> !SameIndex(s.nodes[x], s.nodes[y]);
    assert y < x ==> !SameIndex(s.nodes[y], s.nodes[x]);
  }

  /** A driver leaves the list only unspawned and unused (free_drv_conf_by_service_name). */
  lemma DriverFreedOnlyUnused(s: DrvState, a: Action, n: nat)
    requires Reachable(s) && Enabled(s, a) && n < |s.nodes| && n in s.list && s.nodes[n].target == Drv
    requires n < |Apply(s, a).nodes| && !Apply(s, a).nodes[n].live
    ensures a.UnregisterDrv? && s.nodes[n].state == Load && Total(s, Ref(n)) == 0
  {
    ReachableInv(s);
    assert s.nodes[n].live;
    StateChange(s, a, n);
    if a.UnregisterDrv? {
      UnregisteredIsUnused(s, a.name);
    }
  }

  // ---- spawning ----

  /** The thread learns DRV_NEED_SPAWN for driver d. */
  predicate GrantsSpawn(s: DrvState, a: Action, d: nat) {
    a.OpenCheckState? && a.t < |s.ops| && d < |s.nodes|
    && s.ops[a.t].pc == OpenHasDrv && s.ops[a.t].d == d && s.nodes[d].state == Load
  }

  /** The thread broadcasts the result of spawning d. */
  predicate Broadcasts(s: DrvState, a: Action, d: nat) {
    a.OpenBroadcast? && a.t < |s.ops| && s.ops[a.t].d == d
  }

  /** How far driver d has come: 0 loaded (or unknown), 1 spawning, 2 decided. */
  function Stage(s: DrvState, d: nat): nat {
    if d >= |s.nodes| || s.nodes[d].target == Ta || s.nodes[d].state == Load then 0
    else if s.nodes[d].state == Spawn then 1 else 2
  }

  /** What one action can do to a node's kind, state and life. */
  predicate ChangeOk(s: DrvState, a: Action, s': DrvState, x: nat)
    requires x < |s.nodes|
  {
    && x < |s'.nodes| && s'.nodes[x].target == s.nodes[x].target
    && (GrantsSpawn(s, a, x) ==> s'.nodes[x].state == Spawn)
    && (Broadcasts(s, a, x) ==> s.nodes[x].state == Spawn && (s'.nodes[x].state == Normal || s'.nodes[x].state == SpawnFail))
    && (!GrantsSpawn(s, a, x) && !Broadcasts(s, a, x) ==>
          s'.nodes[x].state == s.nodes[x].state || (s.nodes[x].target == Ta && s'.nodes[x].state == Exit))
    && (s.nodes[x].live && !s'.nodes[x].live && s.nodes[x].target == Drv ==>
          || (a.UnregisterDrv? && UnregisterTarget(s.nodes, s.list, a.name) == Some(x))
          || (a.Receive? && x !in s.list))
  }

  /** Nodes are only ever added, one at a time, and a new driver starts in TASK_LOAD. */
  predicate GrowsOk(s: DrvState, s': DrvState) {
    && |s.nodes| <= |s'.nodes| <= |s.nodes| + 1
    && (|s'.nodes| == |s.nodes| + 1 ==> s'.nodes[|s.nodes|].target == Ta || s'.nodes[|s.nodes|].state == Load)
  }

  lemma ChangeByRegistering(s: DrvState, a: Action, x: nat)
    requires Enabled(s, a) && x < |s.nodes| && (a.RegisterTa? || a.RegisterDrv? || a.RegisterImplicit?)
    ensures ChangeOk(s, a, Apply(s, a), x)
  {
    hide Find, LowestFree;
  }

  lemma ChangeByFreeing(s: DrvState, a: Action, x: nat)
    requires Counts(s) && Enabled(s, a) && x < |s.nodes| && (a.Receive? || a.UnregisterDrv?)
    ensures ChangeOk(s, a, Apply(s, a), x)
  {
    if a.Receive? {
      PrivateIsUnlisted(s, a.t);
    }
    hide Counts, Find, Admitted;
  }

  lemma ChangeByFinding(s: DrvState, a: Action, x: nat)
    requires Enabled(s, a) && x < |s.nodes| && (a.OpenStart? || a.CloseStart? || a.ExitStart?)
    ensures ChangeOk(s, a, Apply(s, a), x)
  {
    hide Find;
  }

  lemma ChangeByCounting(s: DrvState, a: Action, x: nat)
    requires Enabled(s, a) && x < |s.nodes| && (a.OpenFindDrv? || a.OpenCount? || a.PutCount?)
    ensures ChangeOk(s, a, Apply(s, a), x)
  {
    hide Find;
  }

  lemma ChangeByState(s: DrvState, a: Action, x: nat)
    requires Counts(s) && Enabled(s, a) && x < |s.nodes| && (a.OpenCheckState? || a.OpenBroadcast?)
    ensures ChangeOk(s, a, Apply(s, a), x)
  {
    if a.OpenBroadcast? {
      SpawnerState(s, a.t);
    }
    hide Counts;
  }

  lemma ChangeByFds(s: DrvState, a: Action, x: nat)
    requires Enabled(s, a) && x < |s.nodes|
    requires a.OpenAddFd? || a.CloseClaim? || a.CloseDelete? || a.ExitClaim?
    ensures ChangeOk(s, a, Apply(s, a), x)
  {
    hide ScanClose, FirstUnflagged, IndexOf;
  }

  lemma ChangeByRest(s: DrvState, a: Action, x: nat)
    requires Enabled(s, a) && x < |s.nodes|
    requires a.Refuse? || a.OpenDriver? || a.CallClose? || a.PutDrv? || a.PutCallerNode?
    ensures ChangeOk(s, a, Apply(s, a), x)
  {
  }

  lemma StateChange(s: DrvState, a: Action, x: nat)
    requires Counts(s) && Enabled(s, a) && x < |s.nodes|
    ensures ChangeOk(s, a, Apply(s, a), x)
  {
    hide ChangeOk, Enabled, Apply, Counts;
    match a
    case RegisterTa(_, _) | RegisterDrv(_, _, _, _) | RegisterImplicit(_, _, _, _) => ChangeByRegistering(s, a, x);
    case Receive(_, _) | UnregisterDrv(_, _) => ChangeByFreeing(s, a, x);
    case OpenStart(_, _, _, _) | CloseStart(_, _, _, _) | ExitStart(_, _) => ChangeByFinding(s, a, x);
    case OpenFindDrv(_) | OpenCount(_) | PutCount(_) => ChangeByCounting(s, a, x);
    case OpenCheckState(_) | OpenBroadcast(_, _, _) => ChangeByState(s, a, x);
    case OpenAddFd(_) | CloseClaim(_) | CloseDelete(_) | ExitClaim(_) => ChangeByFds(s, a, x);
    case _ => ChangeByRest(s, a, x);
  }

  lemma GrowsByFinding(s: DrvState, a: Action)
    requires Enabled(s, a)
    requires a.OpenStart? || a.CloseStart? || a.ExitStart? || a.OpenFindDrv? || a.OpenCount? || a.PutCount?
    ensures GrowsOk(s, Apply(s, a))
  {
    hide Find;
  }

  lemma GrowsByFreeing(s: DrvState, a: Action)
    requires Enabled(s, a)
    requires a.RegisterTa? || a.RegisterDrv? || a.RegisterImplicit? || a.Receive? || a.UnregisterDrv? || a.PutDrv?
      || a.PutCallerNode?
    ensures GrowsOk(s, Apply(s, a))
  {
    hide Find, LowestFree, Without, Admitted;
  }

  lemma GrowsByRest(s: DrvState, a: Action)
    requires Enabled(s, a)
    requires !(a.OpenStart? || a.CloseStart? || a.ExitStart? || a.OpenFindDrv? || a.OpenCount? || a.PutCount?)
    requires !(a.RegisterTa? || a.RegisterDrv? || a.RegisterImplicit? || a.Receive? || a.UnregisterDrv? || a.PutDrv?
      || a.PutCallerNode?)
    ensures GrowsOk(s, Apply(s, a))
  {
    hide Find, ScanClose, LowestFree, FirstUnflagged, IndexOf, Without, JoinFd;
  }

  /** Each action moves a driver forward by at most one stage, and only by a grant or a broadcast. */
  lemma StageStep(s: DrvState, a: Action, d: nat)
    requires Inv(s) && Enabled(s, a)
    ensures Stage(Apply(s, a), d) == Stage(s, d) + B(GrantsSpawn(s, a, d)) + B(Broadcasts(s, a, d))
    ensures GrantsSpawn(s, a, d) ==> Stage(s, d) == 0
    ensures Broadcasts(s, a, d) ==> Stage(s, d) == 1
  {
    if d < |s.nodes| {
      assert NodeOk(s, d);
      if GrantsSpawn(s, a, d) || Broadcasts(s, a, d) {
        assert OpOk(s, a.t);
      }
      StateChange(s, a, d);
    } else {
      FreshStage(s, a, d);
    }
  }

  lemma Grows(s: DrvState, a: Action)
    requires Enabled(s, a)
    ensures GrowsOk(s, Apply(s, a))
  {
    hide Apply, Enabled, GrowsOk;
    if a.OpenStart? || a.CloseStart? || a.ExitStart? || a.OpenFindDrv? || a.OpenCount? || a.PutCount? {
      GrowsByFinding(s, a);
    } else if a.RegisterTa? || a.RegisterDrv? || a.RegisterImplicit? || a.Receive? || a.UnregisterDrv? || a.PutDrv?
      || a.PutCallerNode? {
      GrowsByFreeing(s, a);
    } else {
      GrowsByRest(s, a);
    }
  }

  lemma BroadcastIsKnown(s: DrvState, a: Action)
    requires OpsOk(s) && Enabled(s, a) && a.OpenBroadcast?
    ensures a.t < |s.ops| && s.ops[a.t].d < |s.nodes|
  {
    assert OpOk(s, a.t);
  }

  lemma FreshStage(s: DrvState, a: Action, d: nat)
    requires OpsOk(s) && Enabled(s, a) && |s.nodes| <= d
    ensures Stage(Apply(s, a), d) == 0 && !GrantsSpawn(s, a, d) && !Broadcasts(s, a, d)
  {
    hide Apply, Enabled;
    Grows(s, a);
    if a.OpenBroadcast? {
      BroadcastIsKnown(s, a);
    }
  }

  ghost function Grants(s: DrvState, acts: seq<Action>, d: nat): nat
    requires IsRun(s, acts)
    decreases |acts|
  {
    if acts == [] then 0 else B(GrantsSpawn(s, acts[0], d)) + Grants(Apply(s, acts[0]), acts[1..], d)
  }

  ghost function BroadcastCount(s: DrvState, acts: seq<Action>, d: nat): nat
    requires IsRun(s, acts)
    decreases |acts|
  {
    if acts == [] then 0 else B(Broadcasts(s, acts[0], d)) + BroadcastCount(Apply(s, acts[0]), acts[1..], d)
  }

  /** From any good state on: grants and broadcasts so far are determined by the driver's stage. */
  lemma {:induction false} StagesOfRun(s: DrvState, acts: seq<Action>, d: nat)
    requires Inv(s) && IsRun(s, acts) && DisciplinedRun(s, acts)
    ensures var s' := After(s, acts);
      && B(1 <= Stage(s, d)) + Grants(s, acts, d) == B(1 <= Stage(s', d))
      && B(2 <= Stage(s, d)) + BroadcastCount(s, acts, d) == B(2 <= Stage(s', d))
    decreases |acts|
  {
    hide Inv;
    if acts != [] {
      StageStep(s, acts[0], d);
      InvApply(s, acts[0]);
      StagesOfRun(Apply(s, acts[0]), acts[1..], d);
    }
  }

  /** An opener that gets past check_drv_node_state has a driver in TASK_NORMAL. */
  lemma OpenersSeeNormal(s: DrvState, t: nat)
    requires Reachable(s) && t < |s.ops| && (s.ops[t].pc == OpenReady || HoldsFd(s.ops[t].pc))
    ensures s.ops[t].d < |s.nodes| && s.nodes[s.ops[t].d].target == Drv && s.nodes[s.ops[t].d].state == Normal
  {
    ReachableInv(s);
    assert OpOk(s, t);
  }
}
