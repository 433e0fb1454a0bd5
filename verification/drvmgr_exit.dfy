/**
  Driver manager: what an exiting caller leaves behind.
 */
module DrvExit {
  import opened Options
  import opened DrvTypes
  import opened DrvSteps
  import opened DrvInvariant
  import opened DrvPreserve
  import opened DrvRuns
  import opened DrvThreads
  import opened DrvManager

  /** A thread that may still set a close_flag in node n's list, or take an entry out of it unflagged. */
  predicate Closer(o: Op, n: nat) {
    o.c == n && (o.pc == CloseHasCaller || o.pc == ExitScan || o.pc == ExitDeleted || o.pc == ExitPutDrv)
  }

  /** Node n has exited, and nobody is left to close what its list holds. */
  ghost predicate Abandoned(s: DrvState, n: nat) {
    n < |s.nodes| && s.nodes[n].state == Exit && forall t :: 0 <= t < |s.ops| ==> !Closer(s.ops[t], n)
  }

  /** The thread adds its descriptor to node n's list. */
  predicate AddsTo(s: DrvState, a: Action, n: nat) {
    a.OpenAddFd? && a.t < |s.ops| && s.ops[a.t].c == n
  }

  /** What one action does to the list of an exited node that its thread is no closer of. */
  ghost predicate ListStep(s: DrvState, a: Action, s': DrvState, n: nat)
    requires n < |s.nodes|
  {
    && n < |s'.nodes| && a.t < |s.ops| == |s'.ops| && !Closer(s'.ops[a.t], n)
    && var fds, o := s.nodes[n].fds, s.ops[a.t];
       if AddsTo(s, a, n) then s'.nodes[n].fds == fds + [FdEntry(o.fd, o.d, false)]
       else if a.CloseDelete? && o.c == n then
         IndexOf(fds, ClaimedEntry(o)) < |fds| && s'.nodes[n].fds == DropEntry(s.nodes[n], IndexOf(fds, ClaimedEntry(o))).fds
       else s'.nodes[n].fds == fds
  }

  ghost predicate Ready(s: DrvState, a: Action, n: nat) {
    Enabled(s, a) && n < |s.nodes| && s.nodes[n].state == Exit && a.t < |s.ops| && !Closer(s.ops[a.t], n)
  }

  lemma StepByRegistering(s: DrvState, a: Action, n: nat)
    requires Ready(s, a, n) && Inv(s)
    requires a.RegisterTa? || a.RegisterDrv? || a.RegisterImplicit? || a.Receive? || a.UnregisterDrv?
    ensures ListStep(s, a, Apply(s, a), n)
  {
    hide Inv, Find, LowestFree, Without, Admitted;
  }

  lemma StepByFinding(s: DrvState, a: Action, n: nat)
    requires Ready(s, a, n) && (a.OpenStart? || a.CloseStart? || a.ExitStart?)
    ensures ListStep(s, a, Apply(s, a), n)
  {
    hide Find;
  }

  lemma StepByFds(s: DrvState, a: Action, n: nat)
    requires Ready(s, a, n) && (a.OpenAddFd? || a.CloseClaim? || a.CloseDelete? || a.ExitClaim?)
    ensures ListStep(s, a, Apply(s, a), n)
  {
    hide ScanClose, FirstUnflagged;
  }

  lemma StepByPuts(s: DrvState, a: Action, n: nat)
    requires Ready(s, a, n) && (a.CallClose? || a.PutDrv? || a.PutCount? || a.PutCallerNode?)
    ensures ListStep(s, a, Apply(s, a), n)
  {
    hide Without;
  }

  lemma StepByState(s: DrvState, a: Action, n: nat)
    requires Ready(s, a, n) && (a.OpenCheckState? || a.OpenBroadcast?)
    ensures ListStep(s, a, Apply(s, a), n)
  {
  }

  lemma StepByDriver(s: DrvState, a: Action, n: nat)
    requires Ready(s, a, n) && (a.OpenFindDrv? || a.OpenDriver?)
    ensures ListStep(s, a, Apply(s, a), n)
  {
    hide JoinFd, Find;
  }

  lemma StepByRest(s: DrvState, a: Action, n: nat)
    requires Ready(s, a, n) && (a.Refuse? || a.OpenCount?)
    ensures ListStep(s, a, Apply(s, a), n)
  {
  }

  lemma ListStepHolds(s: DrvState, a: Action, n: nat)
    requires Ready(s, a, n) && Inv(s)
    ensures ListStep(s, a, Apply(s, a), n)
  {
    hide Enabled, Apply, ListStep, Inv, Closer;
    match a
    case RegisterTa(_, _) | RegisterDrv(_, _, _, _) | RegisterImplicit(_, _, _, _) | Receive(_, _) | UnregisterDrv(_, _) =>
      StepByRegistering(s, a, n);
    case OpenStart(_, _, _, _) | CloseStart(_, _, _, _) | ExitStart(_, _) => StepByFinding(s, a, n);
    case OpenCheckState(_) | OpenBroadcast(_, _, _) => StepByState(s, a, n);
    case OpenFindDrv(_) | OpenDriver(_, _) => StepByDriver(s, a, n);
    case OpenAddFd(_) | CloseClaim(_) | CloseDelete(_) | ExitClaim(_) => StepByFds(s, a, n);
    case CallClose(_) | PutDrv(_) | PutCount(_) | PutCallerNode(_) => StepByPuts(s, a, n);
    case _ => StepByRest(s, a, n);
  }

  lemma {:induction false} UnflaggedSnoc(fds: seq<FdEntry>, e: FdEntry)
    ensures Unflagged(fds + [e]) == Unflagged(fds) + B(!e.closing)
  {
    if fds == [] {
      assert fds + [e] == [e];
    } else {
      assert (fds + [e])[1..] == fds[1..] + [e];
      UnflaggedSnoc(fds[1..], e);
    }
  }

  lemma {:induction false} UnflaggedDropFlagged(fds: seq<FdEntry>, k: nat)
    requires k < |fds| && fds[k].closing
    ensures Unflagged(fds[..k] + fds[k + 1..]) == Unflagged(fds)
  {
    var rest := fds[..k] + fds[k + 1..];
    if k == 0 {
      assert rest == fds[1..];
    } else {
      assert rest[0] == fds[0] && rest[1..] == fds[1..][..k - 1] + fds[1..][k..];
      UnflaggedDropFlagged(fds[1..], k - 1);
    }
  }

  /** In an abandoned list no entry is closed any more; late opens only add to it. */
  lemma AbandonedStep(s: DrvState, a: Action, n: nat)
    requires Inv(s) && Abandoned(s, n) && Enabled(s, a)
    ensures Abandoned(Apply(s, a), n)
    ensures Unflagged(Apply(s, a).nodes[n].fds) == Unflagged(s.nodes[n].fds) + B(AddsTo(s, a, n))
  {
    hide Enabled, Apply, Unflagged, ClaimedEntry, OpsTotal, NodesTotal;
    assert NodeOk(s, n);
    StateChange(s, a, n);
    hide Inv;
    ThreadExists(s, a);
    OtherThreads(s, a);
    ListStepHolds(s, a, n);
    var fds, o := s.nodes[n].fds, s.ops[a.t];
    if AddsTo(s, a, n) {
      UnflaggedSnoc(fds, FdEntry(o.fd, o.d, false));
    } else if a.CloseDelete? && o.c == n {
      ClaimedIsFlagged(o);
      UnflaggedDropFlagged(fds, IndexOf(fds, ClaimedEntry(o)));
    }
  }

  lemma ClaimedIsFlagged(o: Op)
    ensures ClaimedEntry(o).closing
  {
  }

  lemma ThreadExists(s: DrvState, a: Action)
    requires Enabled(s, a)
    ensures a.t < |s.ops|
  {
    hide Find, LowestFree;
  }

  /** Opens that add a descriptor to node n during a run. */
  ghost function LateAdds(s: DrvState, acts: seq<Action>, n: nat): nat
    requires IsRun(s, acts)
    decreases |acts|
  {
    if acts == [] then 0 else B(AddsTo(s, acts[0], n)) + LateAdds(Apply(s, acts[0]), acts[1..], n)
  }

  /**
    From a state in which an exited caller is abandoned, over every run: the descriptors in its
    list that nobody is closing are those that were there plus one for every open that completes
    late. So all of them get closed iff there were none and no open completes late.
   */
  lemma {:induction false} LeftOpenExactly(s: DrvState, acts: seq<Action>, n: nat)
    requires Inv(s) && IsRun(s, acts) && DisciplinedRun(s, acts) && Abandoned(s, n)
    ensures Abandoned(After(s, acts), n)
    ensures Unflagged(After(s, acts).nodes[n].fds) == Unflagged(s.nodes[n].fds) + LateAdds(s, acts, n)
    decreases |acts|
  {
    hide Inv, Enabled, Apply, Abandoned, Unflagged;
    if acts != [] {
      assert n < |s.nodes| by { IsNode(s, n); }
      AbandonedStep(s, acts[0], n);
      InvApply(s, acts[0]);
      LeftOpenExactly(Apply(s, acts[0]), acts[1..], n);
    }
  }

  lemma IsNode(s: DrvState, n: nat)
    requires Abandoned(s, n)
    ensures n < |s.nodes|
  {
  }

  /** A thread inside an open for node n that has not added its descriptor yet. */
  predicate Opening(o: Op, n: nat) {
    && o.c == n
    && match o.pc
       case OpenRegistering | OpenHasCaller | OpenCounted | OpenHasDrv | OpenWaiting | OpenSpawning | OpenReady
          | OpenGotFd => true
       case _ => false
  }

  ghost predicate NoOpening(s: DrvState, n: nat) { forall t :: 0 <= t < |s.ops| ==> !Opening(s.ops[t], n) }

  /** An exited node is found by nobody, so no open starts for it. */
  lemma NoNewOpening(s: DrvState, a: Action, n: nat)
    requires Enabled(s, a) && a.t < |s.ops| && n < |s.nodes| && s.nodes[n].state == Exit && !Opening(s.ops[a.t], n)
    ensures a.t < |Apply(s, a).ops| && !Opening(Apply(s, a).ops[a.t], n)
  {
    hide Enabled, Apply;
    if a.OpenStart? || a.CloseStart? || a.ExitStart? || a.RegisterTa? || a.RegisterDrv? || a.RegisterImplicit? {
      NoNewOpeningByList(s, a, n);
    } else if a.Receive? || a.Refuse? || a.OpenCount? || a.OpenFindDrv? || a.OpenCheckState? || a.OpenBroadcast?
              || a.OpenDriver? {
      NoNewOpeningByOpen(s, a, n);
    } else {
      NoNewOpeningByRest(s, a, n);
    }
  }

  lemma NoNewOpeningByOpen(s: DrvState, a: Action, n: nat)
    requires Enabled(s, a) && a.t < |s.ops| && !Opening(s.ops[a.t], n)
    requires a.Receive? || a.Refuse? || a.OpenCount? || a.OpenFindDrv? || a.OpenCheckState? || a.OpenBroadcast?
      || a.OpenDriver?
    ensures a.t < |Apply(s, a).ops| && !Opening(Apply(s, a).ops[a.t], n)
  {
    hide Find, JoinFd, Admitted;
  }

  lemma NoNewOpeningByList(s: DrvState, a: Action, n: nat)
    requires Enabled(s, a) && a.t < |s.ops| && n < |s.nodes| && s.nodes[n].state == Exit && !Opening(s.ops[a.t], n)
    requires a.OpenStart? || a.CloseStart? || a.ExitStart? || a.RegisterTa? || a.RegisterDrv? || a.RegisterImplicit?
    ensures a.t < |Apply(s, a).ops| && !Opening(Apply(s, a).ops[a.t], n)
  {
    hide Find, LowestFree;
  }

  lemma NoNewOpeningByRest(s: DrvState, a: Action, n: nat)
    requires Enabled(s, a) && a.t < |s.ops| && !Opening(s.ops[a.t], n)
    requires a.OpenAddFd? || a.CallClose? || a.PutDrv? || a.PutCount? || a.PutCallerNode? || a.CloseClaim?
      || a.CloseDelete? || a.ExitClaim? || a.UnregisterDrv?
    ensures a.t < |Apply(s, a).ops| && !Opening(Apply(s, a).ops[a.t], n)
  {
    hide Find, ScanClose, FirstUnflagged, IndexOf, Without;
  }

  /**
    If moreover no open was in flight for the exited caller, none completes late: whatever happens
    afterwards, every descriptor it had stays claimed by the thread that closes it.
   */
  lemma {:induction false} AllClosedIfNoOpening(s: DrvState, acts: seq<Action>, n: nat)
    requires Inv(s) && IsRun(s, acts) && DisciplinedRun(s, acts) && Abandoned(s, n) && NoOpening(s, n)
    ensures LateAdds(s, acts, n) == 0 && NoOpening(After(s, acts), n)
    decreases |acts|
  {
    if acts != [] {
      var a := acts[0];
      ThreadExists(s, a);
      NoNewOpening(s, a, n);
      OtherThreads(s, a);
      AbandonedStep(s, a, n);
      InvApply(s, a);
      hide Inv, Enabled, Apply, Abandoned, Closer;
      assert !AddsTo(s, a, n) by { NotAdding(s, a, n); }
      AllClosedIfNoOpening(Apply(s, a), acts[1..], n);
    }
  }

  lemma NotAdding(s: DrvState, a: Action, n: nat)
    requires Enabled(s, a) && NoOpening(s, n)
    ensures !AddsTo(s, a, n)
  {
    hide Find, LowestFree;
  }

  /** When the loop of exception_close_handle ends, every entry left is being closed by some thread. */
  lemma ScanLeavesNothing(s: DrvState, t: nat)
    requires At(s, t, ExitScan) && DoExitClaim(s, t).ops[t].pc == PutCaller
    ensures Unflagged(s.nodes[s.ops[t].c].fds) == 0
  {
    AllFlagged(s.nodes[s.ops[t].c].fds);
  }

  /** As long as an entry is in a list, its descriptor is open at the driver. */
  lemma ListedIsOpen(s: DrvState, n: nat, i: nat)
    requires Reachable(s) && n < |s.nodes| && i < |s.nodes[n].fds|
    ensures var e := s.nodes[n].fds[i];
      s.openLog[(e.drv, e.fd)] == s.closeLog[(e.drv, e.fd)] + 1
  {
    ReachableInv(s);
    var e := s.nodes[n].fds[i];
    assert HandedOut(s, e.drv, e.fd);
    hide Inv, Reachable, NodesTotal, OpsTotal;
    FdsTotalRemove(n, s.nodes[n].fds, i, Holder(e.drv, e.fd));
    NodesTotalAtLeast(s.nodes, 0, n, Holder(e.drv, e.fd));
  }

  // ---- the loop of exception_close_handle as actions ----

  ghost predicate EntriesOnDrivers(s: DrvState, n: nat) {
    && n < |s.nodes| && OnDrivers(s.nodes, n)
    && forall i :: 0 <= i < |s.nodes[n].fds| ==> s.nodes[n].fds[i].drv < |s.nodes|
  }

  lemma {:induction false} CloseFromSkips(nodes: seq<Node>, n: nat, k: nat)
    requires n < |nodes| && k <= |nodes[n].fds| && forall i :: 0 <= i < k ==> nodes[n].fds[i].closing
    ensures CloseFrom(nodes, n, 0) == CloseFrom(nodes, n, k)
  {
    if k > 0 {
      CloseFromSkips(nodes, n, k - 1);
    }
  }

  ghost predicate CanRound(s: DrvState, t: nat) {
    && At(s, t, ExitScan) && EntriesOnDrivers(s, s.ops[t].c)
    && FirstUnflagged(s.nodes[s.ops[t].c].fds) < |s.nodes[s.ops[t].c].fds|
  }

  /** What one iteration comes to. */
  ghost predicate Rounded(s: DrvState, t: nat, s': DrvState)
    requires CanRound(s, t)
  {
    var n := s.ops[t].c;
    && s'.nodes == CloseOne(s.nodes, n, FirstUnflagged(s.nodes[n].fds)) && s'.list == s.list
    && At(s', t, ExitScan) && s'.ops[t].c == n && s'.ops[t].k == s.ops[t].k + 1 && s'.ops == s.ops[t := s'.ops[t]]
  }

  lemma ClaimIs(s: DrvState, t: nat) returns (s': DrvState)
    requires CanRound(s, t)
    ensures Enabled(s, ExitClaim(t)) && Disciplined(s, ExitClaim(t)) && Apply(s, ExitClaim(t)) == s' && CanCallClose(s', t)
    ensures var n, i := s.ops[t].c, FirstUnflagged(s.nodes[s.ops[t].c].fds);
      && s'.nodes == s.nodes[n := DropEntry(s.nodes[n], i)] && s'.list == s.list
      && s'.ops == s.ops[t := s.ops[t].(pc := ExitDeleted, k := s.ops[t].k + 1, d := s.nodes[n].fds[i].drv,
                                        fd := s.nodes[n].fds[i].fd)]
  {
    hide FirstUnflagged, OnDrivers;
    s' := DoExitClaim(s, t);
  }

  lemma TellIs(s: DrvState, t: nat) returns (s': DrvState)
    requires At(s, t, ExitDeleted)
    ensures Enabled(s, CallClose(t)) && Disciplined(s, CallClose(t)) && Apply(s, CallClose(t)) == s' && CanPutDrv(s', t)
    ensures s'.nodes == s.nodes && s'.list == s.list && s'.ops == s.ops[t := s.ops[t].(pc := ExitPutDrv)]
  {
    s' := DoCallClose(s, t);
  }

  lemma PutIs(s: DrvState, t: nat) returns (s': DrvState)
    requires At(s, t, ExitPutDrv) && s.nodes[s.ops[t].d].target == Drv
    ensures Enabled(s, PutDrv(t)) && Disciplined(s, PutDrv(t)) && Apply(s, PutDrv(t)) == s'
    ensures s'.nodes == NodesAfterPut(s.nodes, s.ops[t].d, 1) && s'.list == s.list
    ensures s'.ops == s.ops[t := s.ops[t].(pc := ExitScan)]
  {
    s' := DoPutDrv(s, t);
  }

  /** Claim, tell the driver, give its reference back: one iteration. */
  lemma OneRound(s: DrvState, t: nat) returns (s': DrvState)
    requires CanRound(s, t)
    ensures var acts := [ExitClaim(t)] + [CallClose(t)] + [PutDrv(t)];
      IsRun(s, acts) && DisciplinedRun(s, acts) && After(s, acts) == s'
    ensures Rounded(s, t, s')
  {
    var n := s.ops[t].c;
    var d := s.nodes[n].fds[FirstUnflagged(s.nodes[n].fds)].drv;
    assert s.nodes[d].target == Drv;
    hide Enabled, Apply, Disciplined, IsRun, DisciplinedRun, After, FirstUnflagged, OnDrivers;
    var s1 := ClaimIs(s, t);
    OneStep(s, ExitClaim(t), s1);
    var s2 := TellIs(s1, t);
    AddStep(s, [ExitClaim(t)], CallClose(t), s2);
    s' := PutIs(s2, t);
    AddStep(s, [ExitClaim(t)] + [CallClose(t)], PutDrv(t), s');
    assert s'.ops == s.ops[t := s'.ops[t]];
  }

  /** The loop is over: the other entries are closed, and the references to give back are counted. */
  ghost predicate LoopDone(s: DrvState, t: nat, s': DrvState)
    requires At(s, t, ExitScan) && EntriesOnDrivers(s, s.ops[t].c)
  {
    var n := s.ops[t].c;
    && s'.nodes == CloseFrom(s.nodes, n, 0) && s'.list == s.list
    && t < |s'.ops| && s'.ops == s.ops[t := s'.ops[t]]
    && s'.ops[t].pc == PutCaller && s'.ops[t].c == n && s'.ops[t].k == s.ops[t].k + 2 + Unflagged(s.nodes[n].fds)
  }

  /**
    The loop as coded is a run of the machine's exit actions, all by the exiting thread: it ends
    with the node's other entries closed and the references to give back counted.
   */
  lemma {:induction false} ExitLoopIs(s: DrvState, t: nat) returns (acts: seq<Action>)
    requires At(s, t, ExitScan) && EntriesOnDrivers(s, s.ops[t].c)
    ensures IsRun(s, acts) && DisciplinedRun(s, acts) && forall i :: 0 <= i < |acts| ==> acts[i].t == t
    ensures LoopDone(s, t, After(s, acts))
    decreases Unflagged(s.nodes[s.ops[t].c].fds)
  {
    hide IsRun, DisciplinedRun, After, Enabled, Apply, Disciplined, LoopDone, Rounded, EntriesOnDrivers, Unflagged;
    if CanRound(s, t) {
      var s1 := OneRound(s, t);
      RoundGoesOn(s, t, s1);
      var rest := ExitLoopIs(s1, t);
      var round := [ExitClaim(t)] + [CallClose(t)] + [PutDrv(t)];
      RunConcat(s, round, rest);
      acts := round + rest;
      RoundsAddUp(s, t, s1, After(s1, rest));
    } else {
      var s' := LoopEnds(s, t);
      OneStep(s, ExitClaim(t), s');
      acts := [ExitClaim(t)];
    }
  }

  lemma LoopEnds(s: DrvState, t: nat) returns (s': DrvState)
    requires At(s, t, ExitScan) && EntriesOnDrivers(s, s.ops[t].c) && !CanRound(s, t)
    ensures Enabled(s, ExitClaim(t)) && Disciplined(s, ExitClaim(t)) && Apply(s, ExitClaim(t)) == s' && LoopDone(s, t, s')
  {
    var n := s.ops[t].c;
    CloseFromSkips(s.nodes, n, |s.nodes[n].fds|);
    AllFlagged(s.nodes[n].fds);
    hide FirstUnflagged, OnDrivers;
    s' := DoExitClaim(s, t);
  }

  lemma RoundGoesOn(s: DrvState, t: nat, s': DrvState)
    requires CanRound(s, t) && Rounded(s, t, s')
    ensures At(s', t, ExitScan) && s'.ops[t].c == s.ops[t].c && EntriesOnDrivers(s', s'.ops[t].c)
    ensures Unflagged(s.nodes[s.ops[t].c].fds) == Unflagged(s'.nodes[s'.ops[t].c].fds) + 1
  {
    var n := s.ops[t].c;
    var i := FirstUnflagged(s.nodes[n].fds);
    hide CloseOne, OnDrivers;
    CloseOneKeeps(s.nodes, n, i);
    RoundKeepsEntries(s, s', n, i);
  }

  lemma RoundsAddUp(s: DrvState, t: nat, s1: DrvState, s': DrvState)
    requires CanRound(s, t) && Rounded(s, t, s1) && At(s1, t, ExitScan) && EntriesOnDrivers(s1, s1.ops[t].c)
    requires LoopDone(s1, t, s')
    ensures LoopDone(s, t, s')
  {
    var n := s.ops[t].c;
    var i := FirstUnflagged(s.nodes[n].fds);
    CloseFromSkips(s.nodes, n, i);
    assert CloseFrom(s.nodes, n, i) == CloseFrom(CloseOne(s.nodes, n, i), n, i);
    CloseOneKeeps(s.nodes, n, i);
    hide CloseOne, OnDrivers;
    CloseFromSkips(s1.nodes, n, i);
    hide CloseFrom;
    assert s'.ops == s.ops[t := s'.ops[t]];
  }

  lemma RoundKeepsEntries(s: DrvState, s': DrvState, n: nat, k: nat)
    requires EntriesOnDrivers(s, n) && k < |s.nodes[n].fds| && s'.nodes == CloseOne(s.nodes, n, k)
    ensures EntriesOnDrivers(s', n)
  {
    CloseOneKeeps(s.nodes, n, k);
    var fds := s.nodes[n].fds;
    assert s'.nodes[n].fds == fds[..k] + fds[k + 1..];
    forall i | 0 <= i < |s'.nodes[n].fds| ensures s'.nodes[n].fds[i].drv < |s'.nodes| {
      assert s'.nodes[n].fds[i] == fds[if i < k then i else i + 1];
    }
  }

  // ---- an open that completes late ----

  const FD: nat := FD_INDEX_UNIT + 1

  function Registered(): DrvState {
    Init(2).(nodes := [NewTa(7, INVALID_PID, true), NewDrv(8, "d", 1, false)], list := [0, 1],
             indexes := Init(2).indexes[0 := true])
  }

  function Counted(): DrvState {
    Registered().(
      nodes := [NewTa(7, 1, true).(refCnt := 2, fdCount := 1), NewDrv(8, "d", 1, false).(refCnt := 1)],
      ops := [Op(OpenHasDrv, 0, 1, 0, 0, "d"), IDLE])
  }

  function GotFd(): DrvState {
    Counted().(
      nodes := [NewTa(7, 1, true).(refCnt := 2, fdCount := 1),
                NewDrv(8, "d", 1, false).(refCnt := 1, state := Normal, pid := 5)],
      ops := [Op(OpenGotFd, 0, 1, FD, 0, "d"), IDLE],
      openLog := multiset{(1, FD)})
  }

  function Exited(): DrvState {
    GotFd().(nodes := [NewTa(7, 1, false).(refCnt := 1, fdCount := 1, state := Exit),
                       NewDrv(8, "d", 1, false).(refCnt := 1, state := Normal, pid := 5)])
  }

  function Left(): DrvState {
    Exited().(nodes := [NewTa(7, 1, false).(refCnt := 1, fdCount := 1, state := Exit, fds := [FdEntry(FD, 1, false)]),
                        NewDrv(8, "d", 1, false).(refCnt := 1, state := Normal, pid := 5)],
              ops := [IDLE, IDLE])
  }

  lemma {:induction false} OneStep(s: DrvState, a: Action, s': DrvState)
    requires Enabled(s, a) && Disciplined(s, a) && Apply(s, a) == s'
    ensures IsRun(s, [a]) && DisciplinedRun(s, [a]) && After(s, [a]) == s'
  {
    hide Enabled, Apply, Disciplined;
    assert [a][1..] == [];
  }

  lemma AddStep(s: DrvState, acts: seq<Action>, a: Action, s': DrvState)
    requires IsRun(s, acts) && DisciplinedRun(s, acts)
    requires Enabled(After(s, acts), a) && Disciplined(After(s, acts), a) && Apply(After(s, acts), a) == s'
    ensures IsRun(s, acts + [a]) && DisciplinedRun(s, acts + [a]) && After(s, acts + [a]) == s'
  {
    hide Enabled, Apply, Disciplined, IsRun, DisciplinedRun, After;
    OneStep(After(s, acts), a, s');
    RunConcat(s, acts, [a]);
  }

  function TaRegistered(): DrvState { Init(2).(nodes := [NewTa(7, INVALID_PID, true)], list := [0]) }

  lemma RegisterTaRun()
    ensures var acts := [RegisterTa(0, 7)] + [Receive(0, true)];
      IsRun(Init(2), acts) && DisciplinedRun(Init(2), acts) && After(Init(2), acts) == TaRegistered()
  {
    var s0 := Init(2);
    assert s0.ops == [IDLE, IDLE];
    var s1 := s0.(nodes := [NewTa(7, INVALID_PID, true)], ops := [Op(Registering, 0, 0, 0, 0, ""), IDLE]);
    assert Apply(s0, RegisterTa(0, 7)) == s1;
    OneStep(s0, RegisterTa(0, 7), s1);
    hide IsRun, DisciplinedRun, After;
    assert Apply(s1, Receive(0, true)) == TaRegistered();
    AddStep(s0, [RegisterTa(0, 7)], Receive(0, true), TaRegistered());
  }

  lemma RegisterDrvRun()
    ensures var acts := [RegisterDrv(0, 8, "d", false)] + [Receive(0, true)];
      IsRun(TaRegistered(), acts) && DisciplinedRun(TaRegistered(), acts) && After(TaRegistered(), acts) == Registered()
  {
    var s0 := TaRegistered();
    assert s0.ops == [IDLE, IDLE] && LowestFree(s0.indexes) == Some(0);
    var s1 := s0.(nodes := [NewTa(7, INVALID_PID, true), NewDrv(8, "d", 1, false)],
                  ops := [Op(Registering, 1, 0, 0, 0, "d"), IDLE], indexes := s0.indexes[0 := true]);
    assert Apply(s0, RegisterDrv(0, 8, "d", false)) == s1;
    OneStep(s0, RegisterDrv(0, 8, "d", false), s1);
    hide IsRun, DisciplinedRun, After;
    assert Admitted(s1.nodes, s1.list, s1.nodes[1], true);
    assert Apply(s1, Receive(0, true)) == Registered();
    AddStep(s0, [RegisterDrv(0, 8, "d", false)], Receive(0, true), Registered());
  }

  lemma OpenRun()
    ensures var acts := [OpenStart(0, 7, 1, "d")] + [OpenCount(0)] + [OpenFindDrv(0)];
      IsRun(Registered(), acts) && DisciplinedRun(Registered(), acts) && After(Registered(), acts) == Counted()
  {
    var s0 := Registered();
    assert s0.ops == [IDLE, IDLE] && Find(s0.nodes, s0.list, NormalUuid(7, 1)) == Some(0);
    var drv := NewDrv(8, "d", 1, false);
    var s1 := s0.(nodes := [NewTa(7, 1, true).(refCnt := 2), drv], ops := [Op(OpenHasCaller, 0, 0, 0, 0, "d"), IDLE]);
    assert Apply(s0, OpenStart(0, 7, 1, "d")) == s1;
    OneStep(s0, OpenStart(0, 7, 1, "d"), s1);
    hide IsRun, DisciplinedRun, After;
    var s2 := s1.(nodes := [NewTa(7, 1, true).(refCnt := 2, fdCount := 1), drv],
                  ops := [Op(OpenCounted, 0, 0, 0, 0, "d"), IDLE]);
    assert Apply(s1, OpenCount(0)) == s2;
    AddStep(s0, [OpenStart(0, 7, 1, "d")], OpenCount(0), s2);
    assert s2.list[1..] == [1] && Find(s2.nodes, [1], DrvName("d")) == Some(1);
    assert Find(s2.nodes, s2.list, DrvName("d")) == Some(1);
    assert Apply(s2, OpenFindDrv(0)) == Counted();
    AddStep(s0, [OpenStart(0, 7, 1, "d")] + [OpenCount(0)], OpenFindDrv(0), Counted());
  }

  lemma SpawnRun()
    ensures var acts := [OpenCheckState(0)] + [OpenBroadcast(0, true, 5)] + [OpenDriver(0, 1)];
      IsRun(Counted(), acts) && DisciplinedRun(Counted(), acts) && After(Counted(), acts) == GotFd()
  {
    var s0 := Counted();
    var ta, drv := s0.nodes[0], s0.nodes[1];
    var s1 := s0.(nodes := [ta, drv.(state := Spawn)], ops := [Op(OpenSpawning, 0, 1, 0, 0, "d"), IDLE]);
    assert Apply(s0, OpenCheckState(0)) == s1;
    OneStep(s0, OpenCheckState(0), s1);
    hide IsRun, DisciplinedRun, After;
    var s2 := s1.(nodes := [ta, drv.(state := Normal, pid := 5)], ops := [Op(OpenReady, 0, 1, 0, 0, "d"), IDLE]);
    assert Apply(s1, OpenBroadcast(0, true, 5)) == s2;
    AddStep(s0, [OpenCheckState(0)], OpenBroadcast(0, true, 5), s2);
    assert CanOpenDriver(s2, 0, 1) && JoinFd(1, 1) == FD;
    assert Apply(s2, OpenDriver(0, 1)) == GotFd();
    AddStep(s0, [OpenCheckState(0)] + [OpenBroadcast(0, true, 5)], OpenDriver(0, 1), GotFd());
  }

  function Exiting(): DrvState {
    GotFd().(nodes := [NewTa(7, 1, false).(refCnt := 3, fdCount := 1, state := Exit),
                       NewDrv(8, "d", 1, false).(refCnt := 1, state := Normal, pid := 5)],
             ops := [Op(OpenGotFd, 0, 1, FD, 0, "d"), Op(PutCaller, 0, 0, 0, 2, "")])
  }

  lemma ExitScanRun()
    ensures var acts := [ExitStart(1, 7)] + [ExitClaim(1)];
      IsRun(GotFd(), acts) && DisciplinedRun(GotFd(), acts) && After(GotFd(), acts) == Exiting()
  {
    var s0 := GotFd();
    assert Find(s0.nodes, s0.list, NormalUuid(7, INVALID_PID)) == Some(0);
    var s1 := Exiting().(ops := [s0.ops[0], Op(ExitScan, 0, 0, 0, 0, "")]);
    assert Apply(s0, ExitStart(1, 7)) == s1;
    OneStep(s0, ExitStart(1, 7), s1);
    hide IsRun, DisciplinedRun, After;
    assert Apply(s1, ExitClaim(1)) == Exiting();
    AddStep(s0, [ExitStart(1, 7)], ExitClaim(1), Exiting());
  }

  lemma LastStepsRun()
    ensures var acts := [PutCallerNode(1)] + [OpenAddFd(0)];
      IsRun(Exiting(), acts) && DisciplinedRun(Exiting(), acts) && After(Exiting(), acts) == Left()
  {
    var s0 := Exiting();
    assert Apply(s0, PutCallerNode(1)) == Exited();
    OneStep(s0, PutCallerNode(1), Exited());
    hide IsRun, DisciplinedRun, After;
    var s2 := Apply(Exited(), OpenAddFd(0));
    assert s2.nodes[0].fds == [FdEntry(FD, 1, false)];
    assert s2.nodes == Left().nodes && s2.ops == Left().ops;
    assert Apply(Exited(), OpenAddFd(0)) == Left();
    AddStep(s0, [PutCallerNode(1)], OpenAddFd(0), Left());
  }

  lemma LeftIsOpen()
    ensures var s := Left();
      && s.ops == [IDLE, IDLE] && Abandoned(s, 0) && Unflagged(s.nodes[0].fds) == 1
      && s.openLog[(1, FD)] == 1 && s.closeLog[(1, FD)] == 0
  {
    assert Left().nodes[0].fds[1..] == [];
  }

  /**
    A run in which a caller exits while an open is in flight: at the end every thread is idle, the
    caller has exited, and a descriptor is open that no thread will ever close.
   */
  lemma LateOpenHappens() returns (acts: seq<Action>)
    ensures IsRun(Init(2), acts) && DisciplinedRun(Init(2), acts)
    ensures var s := After(Init(2), acts);
      && s.ops == [IDLE, IDLE] && Abandoned(s, 0) && Unflagged(s.nodes[0].fds) == 1
      && s.openLog[(1, FD)] == 1 && s.closeLog[(1, FD)] == 0
  {
    RegisterTaRun();
    RegisterDrvRun();
    OpenRun();
    SpawnRun();
    ExitScanRun();
    LastStepsRun();
    LeftIsOpen();
    hide IsRun, DisciplinedRun, After, TaRegistered, Registered, Counted, GotFd, Exiting, Left, Init;
    var a := [RegisterTa(0, 7)] + [Receive(0, true)];
    var b := [RegisterDrv(0, 8, "d", false)] + [Receive(0, true)];
    var c := [OpenStart(0, 7, 1, "d")] + [OpenCount(0)] + [OpenFindDrv(0)];
    var d := [OpenCheckState(0)] + [OpenBroadcast(0, true, 5)] + [OpenDriver(0, 1)];
    var e := [ExitStart(1, 7)] + [ExitClaim(1)];
    var f := [PutCallerNode(1)] + [OpenAddFd(0)];
    RunConcat(Init(2), a, b);
    RunConcat(Init(2), a + b, c);
    RunConcat(Init(2), a + b + c, d);
    RunConcat(Init(2), a + b + c + d, e);
    RunConcat(Init(2), a + b + c + d + e, f);
    acts := a + b + c + d + e + f;
  }
}
