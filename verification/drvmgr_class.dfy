/**
  Driver manager: the critical sections as they are coded, over mutable state. Each method is
  proved to do what the corresponding action of module DrvSteps does.
 */
module DrvManager {
  import opened Options
  import opened DrvTypes
  import opened DrvSteps
  import opened DrvInvariant
  import DrvPreserve

  datatype SpawnCheck = DrvFail | DrvSucc | DrvNeedSpawn | DrvMustWait

  /** Entries that exception_close_handle leaves: those another thread is closing. */
  function KeepFlagged(fds: seq<FdEntry>): seq<FdEntry> {
    if fds == [] then [] else (if fds[0].closing then [fds[0]] else []) + KeepFlagged(fds[1..])
  }

  function Unflagged(fds: seq<FdEntry>): nat {
    if fds == [] then 0 else B(!fds[0].closing) + Unflagged(fds[1..])
  }

  /** The loop of exception_close_handle from entry k on, with nobody else at work. */
  function CloseFrom(nodes: seq<Node>, n: nat, k: nat): seq<Node>
    requires n < |nodes| && k <= |nodes[n].fds|
    decreases |nodes[n].fds| - k
  {
    if k == |nodes[n].fds| then nodes
    else if nodes[n].fds[k].closing then CloseFrom(nodes, n, k + 1)
    else CloseFrom(CloseOne(nodes, n, k), n, k)
  }

  /** One iteration: the entry leaves n's list and its driver loses a reference. */
  function CloseOne(nodes: seq<Node>, n: nat, k: nat): (r: seq<Node>)
    requires n < |nodes| && k < |nodes[n].fds|
    ensures |r| == |nodes| && |r[n].fds| == |nodes[n].fds| - 1
  {
    var dropped := nodes[n := DropEntry(nodes[n], k)];
    var d := nodes[n].fds[k].drv;
    if d < |nodes| then NodesAfterPut(dropped, d, 1) else dropped
  }

  /** Entries point at driver nodes. */
  ghost predicate OnDrivers(nodes: seq<Node>, n: nat)
    requires n < |nodes|
  {
    forall i :: 0 <= i < |nodes[n].fds| && nodes[n].fds[i].drv < |nodes| ==> nodes[nodes[n].fds[i].drv].target == Drv
  }

  lemma {:induction false} CloseOneKeeps(nodes: seq<Node>, n: nat, k: nat)
    requires n < |nodes| && k < |nodes[n].fds| && OnDrivers(nodes, n)
    ensures var r := CloseOne(nodes, n, k);
      && OnDrivers(r, n) && (forall i :: 0 <= i < k ==> r[n].fds[i] == nodes[n].fds[i])
      && (!nodes[n].fds[k].closing ==> Unflagged(nodes[n].fds) == Unflagged(r[n].fds) + 1)
  {
    var fds := nodes[n].fds;
    var r := CloseOne(nodes, n, k);
    assert r[n].fds == fds[..k] + fds[k + 1..];
    forall i | 0 <= i < |r[n].fds| && r[n].fds[i].drv < |r| ensures r[r[n].fds[i].drv].target == Drv {
      var j := if i < k then i else i + 1;
      assert r[n].fds[i] == fds[j] && nodes[fds[j].drv].target == Drv;
    }
    if !fds[k].closing {
      KeepFlaggedSplit(fds, k);
    }
  }

  /** After the loop only entries already being closed remain, and fd_count dropped by the others. */
  lemma {:induction false} CloseFromKeepsFlagged(nodes: seq<Node>, n: nat, k: nat)
    requires n < |nodes| && k <= |nodes[n].fds|
    requires forall i :: 0 <= i < k ==> nodes[n].fds[i].closing
    requires |nodes[n].fds| <= nodes[n].fdCount
    ensures var r := CloseFrom(nodes, n, k);
      && |r| == |nodes| && r[n].fds == KeepFlagged(nodes[n].fds)
      && r[n].fdCount == nodes[n].fdCount - Unflagged(nodes[n].fds)
    decreases |nodes[n].fds| - k
  {
    var fds := nodes[n].fds;
    if k == |fds| {
      AllFlagged(fds);
    } else if fds[k].closing {
      CloseFromKeepsFlagged(nodes, n, k + 1);
    } else {
      KeepFlaggedSplit(fds, k);
      CloseFromKeepsFlagged(CloseOne(nodes, n, k), n, k);
    }
  }

  lemma {:induction false} AllFlagged(fds: seq<FdEntry>)
    requires forall i :: 0 <= i < |fds| ==> fds[i].closing
    ensures KeepFlagged(fds) == fds && Unflagged(fds) == 0
  {
    if fds != [] {
      AllFlagged(fds[1..]);
    }
  }

  lemma {:induction false} KeepFlaggedSplit(fds: seq<FdEntry>, k: nat)
    requires k < |fds| && !fds[k].closing
    ensures KeepFlagged(fds) == KeepFlagged(fds[..k] + fds[k + 1..])
    ensures Unflagged(fds) == Unflagged(fds[..k] + fds[k + 1..]) + 1
  {
    var rest := fds[..k] + fds[k + 1..];
    if k == 0 {
      assert rest == fds[1..];
    } else {
      assert rest[0] == fds[0] && rest[1..] == fds[1..][..k - 1] + fds[1..][k..];
      KeepFlaggedSplit(fds[1..], k - 1);
    }
  }

  /** dlist_delete */
  method TakeOff(list: seq<nat>, n: nat) returns (r: seq<nat>)
    ensures r == Without(list, n)
  {
    var i := 0;
    assert list[..0] == [] && list[0..] == list;
    while i < |list| && list[i] != n
      invariant 0 <= i <= |list|
      invariant Without(list, n) == list[..i] + Without(list[i..], n)
    {
      assert list[i..][1..] == list[i + 1..] && list[..i] + [list[i]] == list[..i + 1];
      i := i + 1;
    }
    if i == |list| {
      return list;
    }
    assert list[i..][1..] == list[i + 1..];
    return list[..i] + list[i + 1..];
  }

  class DriverManager {
    var nodes: seq<Node>
    var list: seq<nat>
    const indexes: array<bool>
    // the threads between their critical sections, and what drivers were told
    ghost var ops: seq<Op>
    ghost var openLog: multiset<(nat, nat)>
    ghost var closeLog: multiset<(nat, nat)>

    constructor (ghost threads: nat)
      ensures nodes == [] && list == [] && fresh(indexes) && ops == seq(threads, _ => IDLE)
      ensures indexes[..] == seq(DRV_INDEX_MAX, _ => false)
    {
      nodes, list := [], [];
      ops, openLog, closeLog := seq(threads, _ => IDLE), multiset{}, multiset{};
      indexes := new bool[DRV_INDEX_MAX](_ => false);
    }

    ghost predicate Valid()
      reads this
    {
      forall i :: 0 <= i < |list| ==> list[i] < |nodes|
    }

    /** The state of the state machine. */
    ghost function Core(): DrvState
      reads this, indexes
    {
      DrvState(nodes, list, indexes[..], ops, openLog, closeLog)
    }

    // ---- drv_index_mgr.c ----

    method AllocDrvIndex() returns (index: int)
      modifies indexes
      ensures LowestFree(old(indexes[..])).None? ==> index == -1 && indexes[..] == old(indexes[..])
      ensures LowestFree(old(indexes[..])).Some? ==>
        var i := LowestFree(old(indexes[..])).value;
        index == i + 1 && indexes[..] == old(indexes[..])[i := true]
    {
      var i := 0;
      while i < indexes.Length && indexes[i]
        invariant 0 <= i <= indexes.Length
        invariant forall j :: 0 <= j < i ==> indexes[j]
      {
        i := i + 1;
      }
      if i == indexes.Length {
        return -1;
      }
      assert !indexes[..][i];
      indexes[i] := true;
      index := i + 1;
    }

    method ClearDrvIndex(index: int)
      modifies indexes
      ensures indexes[..] == if 1 <= index <= indexes.Length then old(indexes[..])[index - 1 := false] else old(indexes[..])
    {
      if index <= 0 || index > indexes.Length {
        return;
      }
      indexes[index - 1] := false;
    }

    // ---- task_mgr.c ----

    /** Skipping a node that does not match changes nothing for the search. */
    lemma FindSkips(i: nat, q: Query)
      requires Valid() && i < |list| && !Matches(nodes[list[i]], q)
      ensures Find(nodes, list[i..], q) == Find(nodes, list[i + 1..], q)
    {
      assert list[i..][1..] == list[i + 1..];
    }

    method FindEffectiveNode(uuid: nat) returns (r: Option<nat>)
      requires Valid()
      ensures r == Find(nodes, list, EffectiveUuid(uuid))
    {
      var i := 0;
      assert list[0..] == list;
      while i < |list|
        invariant 0 <= i <= |list|
        invariant Find(nodes, list, EffectiveUuid(uuid)) == Find(nodes, list[i..], EffectiveUuid(uuid))
      {
        var temp := nodes[list[i]];
        if temp.uuid == uuid {
          if temp.state != Exit {
            return Some(list[i]);
          }
        }
        FindSkips(i, EffectiveUuid(uuid));
        i := i + 1;
      }
      return None;
    }

    method FindNodeByName(name: string) returns (r: Option<nat>)
      requires Valid()
      ensures r == Find(nodes, list, DrvName(name))
    {
      var i := 0;
      assert list[0..] == list;
      while i < |list|
        invariant 0 <= i <= |list|
        invariant Find(nodes, list, DrvName(name)) == Find(nodes, list[i..], DrvName(name))
      {
        var temp := nodes[list[i]];
        if temp.target == Drv && temp.name == name {
          if temp.state != Exit {
            return Some(list[i]);
          }
        }
        FindSkips(i, DrvName(name));
        i := i + 1;
      }
      return None;
    }

    /** find_normal_node also fixes the pid of the node it returns. */
    method FindNormalNode(uuid: nat, pid: int) returns (r: Option<nat>)
      requires Valid()
      modifies this`nodes
      ensures r == Find(old(nodes), list, NormalUuid(uuid, pid))
      ensures nodes == if r.Some? then old(nodes)[r.value := Adopted(old(nodes)[r.value], pid)] else old(nodes)
    {
      var i := 0;
      assert list[0..] == list;
      while i < |list|
        invariant 0 <= i <= |list| && nodes == old(nodes)
        invariant Find(nodes, list, NormalUuid(uuid, pid)) == Find(nodes, list[i..], NormalUuid(uuid, pid))
      {
        var n := list[i];
        var temp := nodes[n];
        if temp.uuid == uuid && temp.state == Normal {
          if pid == INVALID_PID {
            return Some(n);
          }
          if temp.pid == INVALID_PID {
            nodes := nodes[n := temp.(pid := pid)];
            return Some(n);
          }
          if temp.pid == pid {
            return Some(n);
          }
        }
        FindSkips(i, NormalUuid(uuid, pid));
        i := i + 1;
      }
      return None;
    }

    method GetNodeByUuid(uuid: nat, pid: int) returns (r: Option<nat>)
      requires Valid()
      modifies this`nodes
      ensures Valid() && (Core(), r) == GetNode(old(Core()), uuid, pid)
    {
      r := FindNormalNode(uuid, pid);
      if r.None? {
        return;
      }
      if nodes[r.value].refCnt == UINT32_MAX {
        return None;
      }
      nodes := nodes[r.value := nodes[r.value].(refCnt := nodes[r.value].refCnt + 1)];
      assert Core().nodes == GetNode(old(Core()), uuid, pid).0.nodes;
    }

    /** get_drv_node_by_name_with_lock, by thread t: the first live driver of that name, with one more reference */
    method GetDrvNodeByName(name: string, ghost t: nat) returns (r: Option<nat>)
      requires Valid() && At(Core(), t, OpenCounted) && ops[t].name == name
      modifies this`nodes, this`ops
      ensures Valid() && Core() == DoOpenFindDrv(old(Core()), t)
      ensures r == if ops[t].pc == OpenHasDrv then Some(ops[t].d) else None
      ensures old(Inv(Core())) ==> Inv(Core())
    {
      hide Inv, Find;
      if Inv(Core()) {
        DrvPreserve.InvOpenFindDrv(Core(), t);
      }
      ghost var o := ops[t];
      if name == "" {
        ops := ops[t := o.(pc := OpenPutCount)];
        return None;
      }
      r := FindNodeByName(name);
      if r.None? || nodes[r.value].refCnt == UINT32_MAX {
        ops := ops[t := o.(pc := OpenPutCount)];
        return None;
      }
      nodes := nodes[r.value := nodes[r.value].(refCnt := nodes[r.value].refCnt + 1)];
      ops := ops[t := o.(pc := OpenHasDrv, d := r.value)];
    }

    method GetTaNodeAndSetExit(uuid: nat) returns (r: Option<nat>)
      requires Valid()
      modifies this`nodes
      ensures Valid() && r == ExitTarget(old(Core()), uuid)
      ensures r.None? ==> nodes == old(nodes)
      ensures r.Some? ==> var m := old(nodes)[r.value];
        nodes == old(nodes)[r.value := m.(refCnt := m.refCnt + 1, state := Exit, registered := false)]
    {
      r := FindNormalNode(uuid, INVALID_PID);
      assert nodes == old(nodes);
      if r.None? {
        return;
      }
      if nodes[r.value].target != Ta || nodes[r.value].refCnt == UINT32_MAX {
        return None;
      }
      var m := nodes[r.value];
      nodes := nodes[r.value := m.(refCnt := m.refCnt + 1, state := Exit, registered := false)];
    }

    method PutNode(n: nat, k: nat)
      requires Valid() && n < |nodes|
      modifies this`nodes, this`list
      ensures Valid() && nodes == NodesAfterPut(old(nodes), n, k) && list == ListAfterPut(old(nodes), old(list), n, k)
    {
      if nodes[n].refCnt >= k {
        nodes := nodes[n := nodes[n].(refCnt := nodes[n].refCnt - k)];
      }
      if nodes[n].refCnt == 0 {
        if nodes[n].target == Drv {
          return;
        }
        Unlink(n);
        nodes := nodes[n := nodes[n].(live := false)];
      }
    }

    method Unlink(n: nat)
      requires Valid()
      modifies this`list
      ensures Valid() && list == Without(old(list), n)
    {
      var rest := TakeOff(list, n);
      assert forall i :: 0 <= i < |rest| ==> rest[i] in list;
      list := rest;
    }

    /** receive_task_conf on a node that is not in the list yet */
    method ReceiveTaskConf(n: nat, policyOk: bool) returns (joined: bool)
      requires Valid() && n < |nodes|
      modifies this`list
      ensures Valid() && joined == Admitted(nodes, old(list), nodes[n], policyOk)
      ensures list == if joined then old(list) + [n] else old(list)
    {
      var m := nodes[n];
      if m.target == Drv && m.crypto {
        return false;
      }
      var same := FindEffectiveNode(m.uuid);
      if m.target == Drv {
        var clash := FindNodeByName(m.name);
        joined := 0 < |m.name| < DRV_NAME_MAX_LEN && same.None? && clash.None? && policyOk;
      } else {
        joined := same.None?;
      }
      if joined {
        list := list + [n];
      }
    }

    method FreeDrvConfByServiceName(name: string) returns (ok: bool)
      requires Valid()
      modifies this`nodes, this`list, indexes
      ensures Valid() && Core() == DoUnregisterDrv(old(Core()), name)
      ensures ok == UnregisterTarget(old(nodes), old(list), name).Some?
    {
      if name == "" {
        return false;
      }
      var r := FindNodeByName(name);
      if r.None? || nodes[r.value].refCnt != 0 || nodes[r.value].state != Load {
        return false;
      }
      Unlink(r.value);
      ClearDrvIndex(nodes[r.value].drvIndex);
      nodes := nodes[r.value := nodes[r.value].(refCnt := 0, live := false, registered := false)];
      ok := true;
    }

    // ---- drv_fd_ops.c ----

    /** add_fd_to_drvcall_node, by thread t with a descriptor its driver has just handed out */
    method AddFd(c: nat, fd: nat, d: nat, ghost t: nat)
      requires At(Core(), t, OpenGotFd) && ops[t].c == c && ops[t].fd == fd && ops[t].d == d
      modifies this`nodes, this`ops
      ensures Core() == DoOpenAddFd(old(Core()), t)
      ensures old(Inv(Core())) ==> Inv(Core())
    {
      hide Inv;
      if Inv(Core()) {
        DrvPreserve.InvOpenAddFd(Core(), t);
      }
      nodes := nodes[c := nodes[c].(fds := nodes[c].fds + [FdEntry(fd, d, false)])];
      ops := ops[t := IDLE];
    }

    /** get_fd_count, by thread t that is about to open a driver for caller c */
    method GetFdCount(c: nat, ghost t: nat) returns (ok: bool)
      requires At(Core(), t, OpenHasCaller) && ops[t].c == c
      modifies this`nodes, this`ops
      ensures Core() == DoOpenCount(old(Core()), t) && ok == HoldsSlot(ops[t].pc)
      ensures old(Inv(Core())) ==> Inv(Core())
    {
      hide Inv;
      if Inv(Core()) {
        DrvPreserve.InvOpenCount(Core(), t);
      }
      if nodes[c].fdCount >= TASK_FD_COUNT_MAX {
        ops := ops[t := ops[t].(pc := PutCaller, k := 1)];
        return false;
      }
      nodes := nodes[c := nodes[c].(fdCount := nodes[c].fdCount + 1)];
      ops := ops[t := ops[t].(pc := OpenCounted)];
      ok := true;
    }

    /** put_fd_count, on the way out of a failed open; there is always a unit to give back */
    method PutFdCount(c: nat, ghost t: nat)
      requires At(Core(), t, OpenPutCount) && ops[t].c == c
      modifies this`nodes, this`ops
      ensures Core() == DoPutCount(old(Core()), t)
      ensures old(Inv(Core())) ==> old(nodes)[c].fdCount > 0 && Inv(Core())
    {
      hide Inv;
      if Inv(Core()) {
        DrvPreserve.InvPutCount(Core(), t);
      }
      ops := ops[t := ops[t].(pc := PutCaller, k := 1)];
      if nodes[c].fdCount == 0 {
        assert nodes == nodes[c := nodes[c].(fdCount := 0)];
        return;
      }
      nodes := nodes[c := nodes[c].(fdCount := nodes[c].fdCount - 1)];
    }

    /** close_get_fd_node_with_lock: the position of the entry it claimed */
    method CloseGetFdNode(c: nat, fd: nat) returns (found: Option<nat>)
      requires c < |nodes|
      modifies this`nodes
      ensures var (fds, r) := ScanClose(old(nodes)[c].fds, fd, 0, None);
        found == r && nodes == old(nodes)[c := old(nodes)[c].(fds := fds)]
    {
      var fds := nodes[c].fds;
      var k := 0;
      found := None;
      while k < |fds|
        invariant 0 <= k <= |fds|
        invariant ScanClose(fds, fd, k, found) == ScanClose(nodes[c].fds, fd, 0, None)
      {
        if fds[k].fd == fd {
          if fds[k].closing {
            break;
          }
          fds := fds[k := fds[k].(closing := true)];
          found := Some(k);
        }
        k := k + 1;
      }
      nodes := nodes[c := nodes[c].(fds := fds)];
    }

    /** del_fd_to_drvcall_node */
    method DelFd(c: nat, e: FdEntry)
      requires c < |nodes| && e in nodes[c].fds
      modifies this`nodes
      ensures nodes == old(nodes)[c := DropEntry(old(nodes)[c], IndexOf(old(nodes)[c].fds, e))]
    {
      var fds := nodes[c].fds;
      var i := 0;
      assert fds[0..] == fds;
      while fds[i] != e
        invariant 0 <= i <= IndexOf(fds, e) < |fds|
        invariant IndexOf(fds, e) == i + IndexOf(fds[i..], e)
        decreases |fds| - i
      {
        assert fds[i..][1..] == fds[i + 1..];
        i := i + 1;
      }
      nodes := nodes[c := nodes[c].(
        fdCount := if nodes[c].fdCount > 0 then nodes[c].fdCount - 1 else 0,
        fds := fds[..i] + fds[i + 1..])];
    }

    /** One iteration of the loop of exception_close_handle. */
    method CloseEntry(c: nat, k: nat)
      requires Valid() && c < |nodes| && k < |nodes[c].fds| && OnDrivers(nodes, c)
      modifies this`nodes, this`list
      ensures Valid() && list == old(list) && nodes == CloseOne(old(nodes), c, k)
    {
      var d := nodes[c].fds[k].drv;
      nodes := nodes[c := DropEntry(nodes[c], k)];
      if d < |nodes| {
        PutNode(d, 1);
      }
    }

    /** exception_close_handle: closes what nobody else is closing, and says how many */
    method ExceptionClose(c: nat) returns (closeCount: nat)
      requires Valid() && c < |nodes| && OnDrivers(nodes, c)
      modifies this`nodes, this`list
      ensures Valid() && list == old(list) && nodes == CloseFrom(old(nodes), c, 0)
      ensures closeCount == Unflagged(old(nodes)[c].fds)
    {
      var k := 0;
      closeCount := 0;
      while k < |nodes[c].fds|
        invariant Valid() && list == old(list) && |nodes| == |old(nodes)| && OnDrivers(nodes, c)
        invariant 0 <= k <= |nodes[c].fds|
        invariant forall i :: 0 <= i < k ==> nodes[c].fds[i].closing
        invariant CloseFrom(nodes, c, k) == CloseFrom(old(nodes), c, 0)
        invariant closeCount + Unflagged(nodes[c].fds) == Unflagged(old(nodes)[c].fds)
        decreases |nodes[c].fds| - k
      {
        if nodes[c].fds[k].closing {
          k := k + 1;
        } else {
          CloseOneKeeps(nodes, c, k);
          closeCount := closeCount + 1;
          CloseEntry(c, k);
        }
      }
      AllFlagged(nodes[c].fds);
    }

    // ---- drv_dyn_conf_mgr.c ----

    /** Where a verdict of check_drv_node_state leaves the thread. */
    static function Verdict(pc: Pc): SpawnCheck {
      match pc
      case OpenSpawning => DrvNeedSpawn
      case OpenWaiting => DrvMustWait
      case OpenReady => DrvSucc
      case _ => DrvFail
    }

    /** check_drv_node_state, up to the point where a thread would wait */
    method CheckDrvNodeState(d: nat, ghost t: nat) returns (r: SpawnCheck)
      requires At(Core(), t, OpenHasDrv) && ops[t].d == d
      modifies this`nodes, this`ops
      ensures Core() == DoOpenCheckState(old(Core()), t) && r == Verdict(ops[t].pc)
      ensures r == DrvSucc <==> old(nodes)[d].state == Normal
      ensures r == DrvNeedSpawn <==> old(nodes)[d].state == Load
      ensures r == DrvMustWait <==> old(nodes)[d].state == Spawn
      ensures nodes == if r == DrvNeedSpawn then old(nodes)[d := old(nodes)[d].(state := Spawn)] else old(nodes)
      ensures old(Inv(Core())) ==> Inv(Core())
    {
      hide Inv;
      if Inv(Core()) {
        DrvPreserve.InvOpenCheckState(Core(), t);
      }
      ghost var o := ops[t];
      match nodes[d].state {
        case Load =>
          nodes := nodes[d := nodes[d].(state := Spawn)];
          r := DrvNeedSpawn;
          ops := ops[t := o.(pc := OpenSpawning)];
        case Spawn =>
          r := DrvMustWait;
          ops := ops[t := o.(pc := OpenWaiting)];
        case Normal =>
          r := DrvSucc;
          ops := ops[t := o.(pc := OpenReady)];
        case _ =>
          r := DrvFail;
          ops := ops[t := o.(pc := OpenPutDrv)];
      }
    }

    /** check_drv_node_state, after the wait: another thread has broadcast the result */
    method CheckAfterWait(d: nat, ghost t: nat) returns (r: SpawnCheck)
      requires At(Core(), t, OpenWaiting) && ops[t].d == d && nodes[d].state != Spawn
      modifies this`ops
      ensures Core() == DoOpenCheckState(old(Core()), t) && r == Verdict(ops[t].pc)
      ensures r == if nodes[d].state == Normal then DrvSucc else DrvFail
      ensures old(Inv(Core())) ==> Inv(Core())
    {
      hide Inv;
      if Inv(Core()) {
        DrvPreserve.InvOpenCheckState(Core(), t);
      }
      if nodes[d].state == Normal {
        r := DrvSucc;
        ops := ops[t := ops[t].(pc := OpenReady)];
      } else {
        r := DrvFail;
        ops := ops[t := ops[t].(pc := OpenPutDrv)];
      }
    }

    /** The end of spawn_driver_handle and broadcast_drv_state, by the thread that was told to spawn. */
    method BroadcastDrvState(d: nat, spawned: bool, pid: int, ghost t: nat)
      requires At(Core(), t, OpenSpawning) && ops[t].d == d
      modifies this`nodes, this`ops
      ensures Core() == DoOpenBroadcast(old(Core()), t, spawned, pid)
      ensures nodes[d].state == if spawned then Normal else SpawnFail
      ensures old(Inv(Core())) ==> old(nodes)[d].state == Spawn && Inv(Core())
    {
      hide Inv;
      if Inv(Core()) {
        DrvPreserve.InvOpenBroadcast(Core(), t, spawned, pid);
      }
      if spawned {
        nodes := nodes[d := nodes[d].(state := Normal, pid := pid)];
        ops := ops[t := ops[t].(pc := OpenReady)];
      } else {
        nodes := nodes[d := nodes[d].(state := SpawnFail)];
        ops := ops[t := ops[t].(pc := OpenPutDrv)];
      }
    }
  }
}
