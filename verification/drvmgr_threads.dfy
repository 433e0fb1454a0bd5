/** Driver manager: who spawns, and who can go on. */
module DrvThreads {
  import opened Options
  import opened DrvTypes
  import opened DrvSteps
  import opened DrvInvariant
  import opened DrvPreserve
  import opened DrvRuns

  // ---- one thread at a time ----

  predicate OthersSame(s: DrvState, s': DrvState, t: nat) {
    |s'.ops| == |s.ops| && forall u :: 0 <= u < |s.ops| && u != t ==> s'.ops[u] == s.ops[u]
  }

  /** An action touches no other thread. */
  lemma OtherThreads(s: DrvState, a: Action)
    requires Enabled(s, a)
    ensures OthersSame(s, Apply(s, a), a.t)
  {
    hide Enabled, Apply, OthersSame;
    match a
    case RegisterTa(_, _) | RegisterDrv(_, _, _, _) | RegisterImplicit(_, _, _, _) | Receive(_, _) | UnregisterDrv(_, _)
       | OpenStart(_, _, _, _) | CloseStart(_, _, _, _) | ExitStart(_, _) | OpenFindDrv(_) => OthersByList(s, a);
    case OpenAddFd(_) | CloseClaim(_) | CloseDelete(_) | ExitClaim(_) => OthersByFds(s, a);
    case CallClose(_) | PutDrv(_) | PutCount(_) | PutCallerNode(_) => OthersByPuts(s, a);
    case _ => OthersByRest(s, a);
  }

  lemma OthersByPuts(s: DrvState, a: Action)
    requires Enabled(s, a) && (a.CallClose? || a.PutDrv? || a.PutCount? || a.PutCallerNode?)
    ensures OthersSame(s, Apply(s, a), a.t)
  {
    hide Without;
  }

  lemma OthersByFds(s: DrvState, a: Action)
    requires Enabled(s, a) && (a.OpenAddFd? || a.CloseClaim? || a.CloseDelete? || a.ExitClaim?)
    ensures OthersSame(s, Apply(s, a), a.t)
  {
    hide ScanClose, FirstUnflagged, IndexOf;
  }

  lemma OthersByList(s: DrvState, a: Action)
    requires Enabled(s, a)
    requires a.RegisterTa? || a.RegisterDrv? || a.RegisterImplicit? || a.Receive? || a.UnregisterDrv? || a.OpenStart?
      || a.CloseStart? || a.ExitStart? || a.OpenFindDrv?
    ensures OthersSame(s, Apply(s, a), a.t)
  {
    hide Find, LowestFree, Without, Admitted;
  }

  lemma OthersByRest(s: DrvState, a: Action)
    requires Enabled(s, a)
    requires a.Refuse? || a.OpenCount? || a.OpenCheckState? || a.OpenBroadcast? || a.OpenDriver?
    ensures OthersSame(s, Apply(s, a), a.t)
  {
    hide JoinFd;
  }

  // ---- the thread that spawns ----

  /** Thread t was told to spawn driver d and has not broadcast the result. */
  predicate Spawns(s: DrvState, t: nat, d: nat) {
    t < |s.ops| && s.ops[t].pc == OpenSpawning && s.ops[t].d == d
  }

  /** At most one thread spawns a driver, and only while the driver is in SPAWN. */
  lemma SpawnerIsAlone(s: DrvState, t: nat, d: nat)
    requires Inv(s) && Spawns(s, t, d)
    ensures d < |s.nodes| && s.nodes[d].state == Spawn
    ensures forall u :: u != t ==> !Spawns(s, u, d)
  {
    assert OpOk(s, t) && NodeCounts(s, d);
    hide Inv, OpsTotal, NodesTotal;
    OpsTotalAtLeast(s.ops, t, Spawner(d));
    forall u | u != t
      ensures !Spawns(s, u, d)
    {
      if Spawns(s, u, d) {
        OpsTotalTwo(s.ops, t, u, Spawner(d));
      }
    }
  }

  /** A thread that spawns can do nothing but broadcast. */
  lemma SpawnerBroadcastsNext(s: DrvState, a: Action)
    requires Enabled(s, a) && a.t < |s.ops| && s.ops[a.t].pc == OpenSpawning
    ensures a.OpenBroadcast?
  {
    hide Find, LowestFree;
  }

  lemma GrantMakesSpawner(s: DrvState, a: Action, d: nat)
    requires Enabled(s, a) && GrantsSpawn(s, a, d)
    ensures Spawns(Apply(s, a), a.t, d)
  {
  }

  lemma BroadcasterSpawns(s: DrvState, a: Action, d: nat)
    requires Enabled(s, a) && Broadcasts(s, a, d)
    ensures Spawns(s, a.t, d)
  {
  }

  /** Until driver d's result is broadcast, the duty stays where it is. */
  lemma SpawnerStays(s: DrvState, a: Action, t: nat, d: nat)
    requires Enabled(s, a) && Spawns(s, t, d) && !Broadcasts(s, a, d)
    ensures Spawns(Apply(s, a), t, d)
  {
    if a.t == t {
      SpawnerBroadcastsNext(s, a);
    } else {
      OtherThreads(s, a);
    }
  }

  /** The state before the k-th action of a run. */
  ghost function StateAt(s: DrvState, acts: seq<Action>, k: nat): DrvState
    requires IsRun(s, acts) && k <= |acts|
    decreases |acts|
  {
    if k == 0 then s else StateAt(Apply(s, acts[0]), acts[1..], k - 1)
  }

  lemma {:induction false} StateAtInv(s: DrvState, acts: seq<Action>, k: nat)
    requires Inv(s) && IsRun(s, acts) && DisciplinedRun(s, acts) && k <= |acts|
    ensures Inv(StateAt(s, acts, k))
    ensures k < |acts| ==> Enabled(StateAt(s, acts, k), acts[k])
    ensures k < |acts| ==> StateAt(s, acts, k + 1) == Apply(StateAt(s, acts, k), acts[k])
    decreases |acts|
  {
    hide Inv, Enabled, Apply;
    if k > 0 {
      InvApply(s, acts[0]);
      StateAtInv(Apply(s, acts[0]), acts[1..], k - 1);
    }
  }

  /** No broadcast of driver d at positions i .. j of the run. */
  ghost predicate Silent(s: DrvState, acts: seq<Action>, i: nat, j: nat, d: nat)
    requires IsRun(s, acts) && j <= |acts|
  {
    forall k :: i <= k < j ==> !Broadcasts(StateAt(s, acts, k), acts[k], d)
  }

  /** From the grant on, and until a broadcast, the granted thread alone holds the duty. */
  lemma {:induction false} DutyUntilBroadcast(s: DrvState, acts: seq<Action>, i: nat, j: nat, d: nat)
    requires Inv(s) && IsRun(s, acts) && DisciplinedRun(s, acts) && i < j <= |acts|
    requires GrantsSpawn(StateAt(s, acts, i), acts[i], d) && Silent(s, acts, i + 1, j, d)
    ensures Spawns(StateAt(s, acts, j), acts[i].t, d)
    ensures forall u :: u != acts[i].t ==> !Spawns(StateAt(s, acts, j), u, d)
    decreases j
  {
    hide Inv, Enabled, Apply, IsRun, DisciplinedRun, StateAt;
    StateAtInv(s, acts, j - 1);
    StateAtInv(s, acts, j);
    if j == i + 1 {
      GrantMakesSpawner(StateAt(s, acts, i), acts[i], d);
    } else {
      DutyUntilBroadcast(s, acts, i, j - 1, d);
      SpawnerStays(StateAt(s, acts, j - 1), acts[j - 1], acts[i].t, d);
    }
    SpawnerIsAlone(StateAt(s, acts, j), acts[i].t, d);
  }

  /** A driver's stage never falls. */
  lemma {:induction false} StageRises(s: DrvState, acts: seq<Action>, i: nat, j: nat, d: nat)
    requires Inv(s) && IsRun(s, acts) && DisciplinedRun(s, acts) && i <= j <= |acts|
    ensures Stage(StateAt(s, acts, i), d) <= Stage(StateAt(s, acts, j), d)
    decreases j
  {
    hide Inv, Enabled, Apply, IsRun, DisciplinedRun, StateAt, Stage;
    if i < j {
      StageRises(s, acts, i, j - 1, d);
      StateAtInv(s, acts, j - 1);
      StageStep(StateAt(s, acts, j - 1), acts[j - 1], d);
    }
  }

  /** After a broadcast no other follows: the driver is decided. */
  lemma SilentAfterBroadcast(s: DrvState, acts: seq<Action>, i: nat, j: nat, d: nat)
    requires Inv(s) && IsRun(s, acts) && DisciplinedRun(s, acts) && i < j < |acts|
    requires Broadcasts(StateAt(s, acts, i), acts[i], d)
    ensures !Broadcasts(StateAt(s, acts, j), acts[j], d)
  {
    hide Inv, Enabled, Apply, IsRun, DisciplinedRun, StateAt, Stage, Broadcasts, GrantsSpawn;
    StateAtInv(s, acts, i);
    StateAtInv(s, acts, j);
    StageStep(StateAt(s, acts, i), acts[i], d);
    StageRises(s, acts, i + 1, j, d);
    StageStep(StateAt(s, acts, j), acts[j], d);
  }

  /**
    The thread that received DRV_NEED_SPAWN for a driver is the one that broadcasts its result,
    and between the two it alone holds the duty.
   */
  lemma SpawnerBroadcasts(threads: nat, acts: seq<Action>, i: nat, j: nat, d: nat)
    requires IsRun(Init(threads), acts) && DisciplinedRun(Init(threads), acts) && i < |acts| && j < |acts|
    requires GrantsSpawn(StateAt(Init(threads), acts, i), acts[i], d)
    requires Broadcasts(StateAt(Init(threads), acts, j), acts[j], d)
    ensures i < j && acts[j].t == acts[i].t
    ensures forall k, u :: i < k <= j ==> (Spawns(StateAt(Init(threads), acts, k), u, d) <==> u == acts[i].t)
  {
    var s := Init(threads);
    InitInv(threads);
    hide Inv, Enabled, Apply, IsRun, DisciplinedRun, StateAt, Stage, Broadcasts, GrantsSpawn, Init;
    GrantComesFirst(s, acts, i, j, d);
    forall k | i < k < j ensures !Broadcasts(StateAt(s, acts, k), acts[k], d) {
      if Broadcasts(StateAt(s, acts, k), acts[k], d) {
        SilentAfterBroadcast(s, acts, k, j, d);
      }
    }
    forall k, u | i < k <= j
      ensures Spawns(StateAt(s, acts, k), u, d) <==> u == acts[i].t
    {
      DutyUntilBroadcast(s, acts, i, k, d);
    }
    StateAtInv(s, acts, j);
    BroadcasterSpawns(StateAt(s, acts, j), acts[j], d);
  }

  /**
    Over every disciplined run: a driver's spawn is granted to exactly one thread once it has left
    TASK_LOAD and never before, its result is broadcast exactly once, when it leaves TASK_SPAWN, and
    the thread that broadcasts is the thread that was told to spawn.
   */
  lemma SpawnedOnce(threads: nat, acts: seq<Action>, d: nat)
    requires IsRun(Init(threads), acts) && DisciplinedRun(Init(threads), acts)
    ensures var s := After(Init(threads), acts);
      && Grants(Init(threads), acts, d) == B(1 <= Stage(s, d))
      && BroadcastCount(Init(threads), acts, d) == B(2 <= Stage(s, d))
    ensures forall i, j :: GrantAndBroadcast(Init(threads), acts, i, j, d) ==> i < j && acts[i].t == acts[j].t
  {
    assert Stage(Init(threads), d) == 0;
    hide IsRun, DisciplinedRun, StateAt, Stage, Broadcasts, GrantsSpawn, Init, Inv;
    InitInv(threads);
    StagesOfRun(Init(threads), acts, d);
    forall i, j | GrantAndBroadcast(Init(threads), acts, i, j, d)
      ensures i < j && acts[i].t == acts[j].t
    {
      SpawnerBroadcasts(threads, acts, i, j, d);
    }
  }

  /** Action i of the run grants the spawn of d and action j broadcasts its result. */
  ghost predicate GrantAndBroadcast(s: DrvState, acts: seq<Action>, i: int, j: int, d: nat)
    requires IsRun(s, acts)
  {
    && 0 <= i < |acts| && 0 <= j < |acts|
    && GrantsSpawn(StateAt(s, acts, i), acts[i], d) && Broadcasts(StateAt(s, acts, j), acts[j], d)
  }

  lemma GrantComesFirst(s: DrvState, acts: seq<Action>, i: nat, j: nat, d: nat)
    requires Inv(s) && IsRun(s, acts) && DisciplinedRun(s, acts) && i < |acts| && j < |acts|
    requires GrantsSpawn(StateAt(s, acts, i), acts[i], d) && Broadcasts(StateAt(s, acts, j), acts[j], d)
    ensures i < j
  {
    hide Inv, Enabled, Apply, IsRun, DisciplinedRun, StateAt, Stage;
    StateAtInv(s, acts, i);
    StateAtInv(s, acts, j);
    StageStep(StateAt(s, acts, i), acts[i], d);
    StageStep(StateAt(s, acts, j), acts[j], d);
    if j <= i {
      StageRises(s, acts, j, i, d);
    }
  }

  // ---- progress ----

  /** Thread t can take a step of its own; a refusal counts only where it is a driver's answer. */
  ghost predicate CanMove(s: DrvState, t: nat) {
    exists a: Action :: a.t == t && Enabled(s, a) && (a.Refuse? ==> s.ops[t].pc == OpenReady)
  }

  /**
    Nobody is stuck: every thread inside an operation can go on by itself, or waits for a driver that
    another thread is spawning, and that thread can go on.
   */
  lemma Progress(s: DrvState, t: nat)
    requires Reachable(s) && t < |s.ops| && s.ops[t].pc != Idle
    ensures CanMove(s, t) || (s.ops[t].pc == OpenWaiting && exists u :: Spawns(s, u, s.ops[t].d) && CanMove(s, u))
  {
    ReachableInv(s);
    assert OpOk(s, t);
    hide Reachable;
    if s.ops[t].pc == OpenWaiting && s.nodes[s.ops[t].d].state == Spawn {
      var u := SpawnerExists(s, s.ops[t].d);
      assert OpOk(s, u);
      assert Enabled(s, OpenBroadcast(u, true, 0));
      assert CanMove(s, u);
    } else {
      var a := NextAction(s, t);
      assert a.t == t;
    }
  }

  lemma SpawnerExists(s: DrvState, d: nat) returns (u: nat)
    requires Inv(s) && d < |s.nodes| && s.nodes[d].state == Spawn
    ensures Spawns(s, u, d)
  {
    assert NodeCounts(s, d);
    NodesTotalNone(s.nodes, 0, Spawner(d));
    u := OpsTotalWitness(s.ops, Spawner(d));
  }

  lemma NextAction(s: DrvState, t: nat) returns (a: Action)
    requires Inv(s) && t < |s.ops| && OpOk(s, t) && s.ops[t].pc != Idle
    requires s.ops[t].pc == OpenWaiting ==> s.nodes[s.ops[t].d].state != Spawn
    ensures a.t == t && Enabled(s, a) && (a.Refuse? ==> s.ops[t].pc == OpenReady)
  {
    if s.ops[t].pc == CloseFlagged {
      ClaimedEntryStays(s, t);
    }
    hide Inv;
    match s.ops[t].pc
    case Registering | OpenRegistering => a := Receive(t, true);
    case OpenHasCaller => a := OpenCount(t);
    case OpenCounted => a := OpenFindDrv(t);
    case OpenHasDrv | OpenWaiting => a := OpenCheckState(t);
    case OpenSpawning => a := OpenBroadcast(t, true, 0);
    case OpenReady => a := Refuse(t);
    case OpenGotFd => a := OpenAddFd(t);
    case OpenUndo | CloseDeleted | ExitDeleted => a := CallClose(t);
    case OpenPutDrv | ClosePutDrv | ExitPutDrv => a := PutDrv(t);
    case OpenPutCount => a := PutCount(t);
    case CloseHasCaller => a := CloseClaim(t);
    case CloseFlagged => a := CloseDelete(t);
    case ExitScan => a := ExitClaim(t);
    case PutCaller => a := PutCallerNode(t);
  }
}
