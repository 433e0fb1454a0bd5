/**
  Driver manager (framework/drvmgr): task nodes, fd entries, in-flight operations,
  and the sums that count who holds what.
 */
module DrvTypes {

  const UINT32_MAX: nat := 0xFFFF_FFFF
  const TASK_FD_COUNT_MAX: nat := 32
  const DRV_INDEX_MAX: nat := 1024
  const FD_COUNT_MAX: nat := 1024
  const FD_INDEX_UNIT: nat := 0x1_0000_0000 // 1 << DRV_INDEX_OFFSET
  const INVALID_PID: int := -1
  const DRV_NAME_MAX_LEN: nat := 32

  datatype TaskState = Load | Spawn | Normal | SpawnFail | Exit
  datatype TargetType = Drv | Ta

  /** One opened descriptor in a caller's fd list. */
  datatype FdEntry = FdEntry(fd: nat, drv: nat, closing: bool)

  /**
    A `task_node`. Nodes are named by their position in the sequence of all nodes ever
    allocated; `live` turns false when the node is freed. `registered` is true while gtask
    has registered the node and not yet unregistered it.
   */
  datatype Node = Node(
    target: TargetType, uuid: nat, name: string, drvIndex: nat, crypto: bool,
    pid: int, refCnt: nat, fdCount: nat, fds: seq<FdEntry>,
    state: TaskState, live: bool, registered: bool)

  /** Where a thread stands between two critical sections. */
  datatype Pc =
    | Idle
    | Registering      // drv or drvcall registration, before receive_task_conf
    | OpenRegistering  // implicit caller node, before receive_task_conf
    | OpenHasCaller | OpenCounted | OpenHasDrv | OpenWaiting | OpenSpawning | OpenReady | OpenGotFd
    | OpenUndo         // the entry could not be added, the driver must be told
    | OpenPutDrv | OpenPutCount
    | CloseHasCaller | CloseFlagged | CloseDeleted | ClosePutDrv
    | ExitScan         // k fds closed so far by exception_close_handle
    | ExitDeleted | ExitPutDrv
    | PutCaller        // put_node_with_lock(c, k) is next

  /** A thread's program counter and its local variables: caller node, driver node, fd, count, name. */
  datatype Op = Op(pc: Pc, c: nat, d: nat, fd: nat, k: nat, name: string)

  const IDLE := Op(Idle, 0, 0, 0, 0, "")

  /** References on its caller node that a thread at `pc` has to give back or pass on. */
  function CallerRefs(pc: Pc, k: nat): nat {
    match pc
    case Idle | Registering => 0
    case CloseDeleted | ClosePutDrv => 2
    case ExitScan | ExitDeleted | ExitPutDrv => k + 2
    case PutCaller => k
    case _ => 1
  }

  /** Does a thread at `pc` hold a reference on its driver node? */
  predicate RefsDrv(pc: Pc) {
    match pc
    case OpenHasDrv | OpenWaiting | OpenSpawning | OpenReady | OpenGotFd | OpenUndo | OpenPutDrv
       | CloseDeleted | ClosePutDrv | ExitDeleted | ExitPutDrv => true
    case _ => false
  }

  /** Does a thread at `pc` hold one unit of its caller's fd_count? */
  predicate HoldsSlot(pc: Pc) {
    match pc
    case OpenCounted | OpenHasDrv | OpenWaiting | OpenSpawning | OpenReady | OpenGotFd | OpenUndo
       | OpenPutDrv | OpenPutCount => true
    case _ => false
  }

  /** Is a thread at `pc` the only one that knows an open descriptor? */
  predicate HoldsFd(pc: Pc) {
    match pc
    case OpenGotFd | OpenUndo | CloseDeleted | ExitDeleted => true
    case _ => false
  }

  datatype DrvState = DrvState(
    nodes: seq<Node>,
    list: seq<nat>,                  // g_task_list
    indexes: seq<bool>,              // g_drv_index_bitmap
    ops: seq<Op>,
    openLog: multiset<(nat, nat)>,    // (driver, fd) handed out by drivers so far
    closeLog: multiset<(nat, nat)>)    // (driver, fd) of every call_drv_close so far

  function B(b: bool): nat { if b then 1 else 0 }

  /** The kinds of things operations and fd entries can hold. */
  datatype Claim =
    | Ref(n: nat)               // a reference on node n
    | Slot(n: nat)              // one of node n's fd_count units
    | Spawner(n: nat)           // the duty to broadcast driver n's spawn result
    | Private(n: nat)           // node n, allocated and not yet in the task list
    | Holder(d: nat, fd: nat)   // an open descriptor fd of driver d
    | Flagged(c: nat, d: nat, fd: nat) // an entry of c's list whose close_flag this operation set

  function OpClaims(o: Op, w: Claim): nat {
    match w
    case Ref(n) => (if o.c == n then CallerRefs(o.pc, o.k) else 0) + B(o.d == n && RefsDrv(o.pc))
    case Slot(n) => B(o.c == n && HoldsSlot(o.pc))
    case Spawner(n) => B(o.d == n && o.pc == OpenSpawning)
    case Private(n) => B(o.c == n && (o.pc == Registering || o.pc == OpenRegistering))
    case Holder(d, fd) => B(o.d == d && o.fd == fd && HoldsFd(o.pc))
    case Flagged(c, d, fd) => B(o.c == c && o.d == d && o.fd == fd && o.pc == CloseFlagged)
  }

  /** What one fd entry in `owner`'s list holds: a reference on each end, a slot, a descriptor. */
  function EntryClaims(owner: nat, e: FdEntry, w: Claim): nat {
    match w
    case Ref(n) => B(owner == n) + B(e.drv == n)
    case Slot(n) => B(owner == n)
    case Holder(d, fd) => B(e.drv == d && e.fd == fd)
    case _ => 0
  }

  function OpsTotal(ops: seq<Op>, w: Claim): nat {
    if ops == [] then 0 else OpClaims(ops[0], w) + OpsTotal(ops[1..], w)
  }

  function FdsTotal(owner: nat, fds: seq<FdEntry>, w: Claim): nat {
    if fds == [] then 0 else EntryClaims(owner, fds[0], w) + FdsTotal(owner, fds[1..], w)
  }

  /** Sum over the lists of nodes `first`, `first + 1`, ... */
  function NodesTotal(nodes: seq<Node>, first: nat, w: Claim): nat {
    if nodes == [] then 0 else FdsTotal(first, nodes[0].fds, w) + NodesTotal(nodes[1..], first + 1, w)
  }

  /** All claims of kind `w` held anywhere: by operations in flight and by fd entries. */
  function Total(s: DrvState, w: Claim): nat {
    OpsTotal(s.ops, w) + NodesTotal(s.nodes, 0, w)
  }

  /** How many flagged entries of this driver and fd are in the list. */
  function FlaggedIn(fds: seq<FdEntry>, d: nat, fd: nat): nat {
    if fds == [] then 0 else B(fds[0] == FdEntry(fd, d, true)) + FlaggedIn(fds[1..], d, fd)
  }

  // ---- sums under updates ----

  lemma {:induction false} OpsTotalUpdate(ops: seq<Op>, t: nat, o: Op, w: Claim)
    requires t < |ops|
    ensures OpsTotal(ops[t := o], w) + OpClaims(ops[t], w) == OpsTotal(ops, w) + OpClaims(o, w)
  {
    if t == 0 {
      assert ops[t := o][1..] == ops[1..];
    } else {
      assert ops[t := o][1..] == ops[1..][t - 1 := o];
      OpsTotalUpdate(ops[1..], t - 1, o, w);
    }
  }

  lemma {:induction false} OpsTotalAtLeast(ops: seq<Op>, t: nat, w: Claim)
    requires t < |ops|
    ensures OpClaims(ops[t], w) <= OpsTotal(ops, w)
  {
    OpsTotalUpdate(ops, t, IDLE, w);
    assert OpClaims(IDLE, w) == 0;
  }

  /** Two different threads' claims are counted separately. */
  lemma {:induction false} OpsTotalTwo(ops: seq<Op>, t: nat, u: nat, w: Claim)
    requires t < |ops| && u < |ops| && t != u
    ensures OpClaims(ops[t], w) + OpClaims(ops[u], w) <= OpsTotal(ops, w)
  {
    OpsTotalUpdate(ops, t, IDLE, w);
    OpsTotalAtLeast(ops[t := IDLE], u, w);
  }

  lemma {:induction false} OpsTotalZero(ops: seq<Op>, w: Claim)
    requires forall t :: 0 <= t < |ops| ==> OpClaims(ops[t], w) == 0
    ensures OpsTotal(ops, w) == 0
  {
    if ops != [] {
      assert OpClaims(ops[0], w) == 0;
      forall t | 0 <= t < |ops[1..]| ensures OpClaims(ops[1..][t], w) == 0 {
        assert ops[1..][t] == ops[t + 1];
      }
      OpsTotalZero(ops[1..], w);
    }
  }

  /** A positive sum has a thread behind it. */
  lemma {:induction false} OpsTotalWitness(ops: seq<Op>, w: Claim) returns (t: nat)
    requires 1 <= OpsTotal(ops, w)
    ensures t < |ops| && 1 <= OpClaims(ops[t], w)
  {
    if 1 <= OpClaims(ops[0], w) {
      t := 0;
    } else {
      var u := OpsTotalWitness(ops[1..], w);
      t := u + 1;
    }
  }

  lemma {:induction false} FdsTotalConcat(owner: nat, a: seq<FdEntry>, b: seq<FdEntry>, w: Claim)
    ensures FdsTotal(owner, a + b, w) == FdsTotal(owner, a, w) + FdsTotal(owner, b, w)
  {
    if a == [] {
      assert a + b == b;
    } else {
      assert (a + b)[1..] == a[1..] + b;
      FdsTotalConcat(owner, a[1..], b, w);
    }
  }

  lemma {:induction false} FdsTotalRemove(owner: nat, fds: seq<FdEntry>, i: nat, w: Claim)
    requires i < |fds|
    ensures FdsTotal(owner, fds, w) == FdsTotal(owner, fds[..i] + fds[i + 1..], w) + EntryClaims(owner, fds[i], w)
  {
    assert fds == fds[..i] + ([fds[i]] + fds[i + 1..]);
    FdsTotalConcat(owner, fds[..i], [fds[i]] + fds[i + 1..], w);
    FdsTotalConcat(owner, fds[..i], fds[i + 1..], w);
  }

  lemma {:induction false} FdsTotalTwo(owner: nat, fds: seq<FdEntry>, i: nat, j: nat, w: Claim)
    requires i < j < |fds|
    ensures EntryClaims(owner, fds[i], w) + EntryClaims(owner, fds[j], w) <= FdsTotal(owner, fds, w)
  {
    FdsTotalRemove(owner, fds, j, w);
    var rest := fds[..j] + fds[j + 1..];
    assert rest[i] == fds[i];
    FdsTotalRemove(owner, rest, i, w);
  }

  lemma {:induction false} FdsTotalZero(owner: nat, fds: seq<FdEntry>, w: Claim)
    requires forall i :: 0 <= i < |fds| ==> EntryClaims(owner, fds[i], w) == 0
    ensures FdsTotal(owner, fds, w) == 0
  {
    if fds != [] {
      assert EntryClaims(owner, fds[0], w) == 0;
      forall i | 0 <= i < |fds[1..]| ensures EntryClaims(owner, fds[1..][i], w) == 0 {
        assert fds[1..][i] == fds[i + 1];
      }
      FdsTotalZero(owner, fds[1..], w);
    }
  }

  /** Close flags do not affect what entries hold. */
  lemma {:induction false} FdsTotalReflag(owner: nat, a: seq<FdEntry>, b: seq<FdEntry>, w: Claim)
    requires |a| == |b|
    requires forall i :: 0 <= i < |a| ==> a[i].fd == b[i].fd && a[i].drv == b[i].drv
    ensures FdsTotal(owner, a, w) == FdsTotal(owner, b, w)
  {
    if a != [] {
      FdsTotalReflag(owner, a[1..], b[1..], w);
    }
  }

  lemma {:induction false} FdsTotalOwn(owner: nat, fds: seq<FdEntry>, n: nat)
    ensures FdsTotal(owner, fds, Slot(n)) == if owner == n then |fds| else 0
  {
    if fds != [] {
      FdsTotalOwn(owner, fds[1..], n);
    }
  }

  lemma {:induction false} NodesTotalUpdate(nodes: seq<Node>, first: nat, i: nat, m: Node, w: Claim)
    requires i < |nodes|
    ensures NodesTotal(nodes[i := m], first, w) + FdsTotal(first + i, nodes[i].fds, w)
         == NodesTotal(nodes, first, w) + FdsTotal(first + i, m.fds, w)
  {
    if i == 0 {
      assert nodes[i := m][1..] == nodes[1..];
    } else {
      assert nodes[i := m][1..] == nodes[1..][i - 1 := m];
      NodesTotalUpdate(nodes[1..], first + 1, i - 1, m, w);
    }
  }

  lemma {:induction false} NodesTotalAppend(nodes: seq<Node>, first: nat, m: Node, w: Claim)
    requires m.fds == []
    ensures NodesTotal(nodes + [m], first, w) == NodesTotal(nodes, first, w)
  {
    if nodes == [] {
      assert nodes + [m] == [m];
    } else {
      assert (nodes + [m])[1..] == nodes[1..] + [m];
      NodesTotalAppend(nodes[1..], first + 1, m, w);
    }
  }

  lemma {:induction false} NodesTotalAtLeast(nodes: seq<Node>, first: nat, i: nat, w: Claim)
    requires i < |nodes|
    ensures FdsTotal(first + i, nodes[i].fds, w) <= NodesTotal(nodes, first, w)
  {
    NodesTotalUpdate(nodes, first, i, nodes[i].(fds := []), w);
  }

  lemma {:induction false} NodesTotalZero(nodes: seq<Node>, first: nat, w: Claim)
    requires forall i :: 0 <= i < |nodes| ==> FdsTotal(first + i, nodes[i].fds, w) == 0
    ensures NodesTotal(nodes, first, w) == 0
  {
    if nodes != [] {
      assert FdsTotal(first + 0, nodes[0].fds, w) == 0;
      forall i | 0 <= i < |nodes[1..]| ensures FdsTotal(first + 1 + i, nodes[1..][i].fds, w) == 0 {
        assert nodes[1..][i] == nodes[i + 1];
      }
      NodesTotalZero(nodes[1..], first + 1, w);
    }
  }

  /** Entries hold neither spawn duties nor unregistered nodes. */
  lemma {:induction false} NodesTotalNone(nodes: seq<Node>, first: nat, w: Claim)
    requires w.Spawner? || w.Private?
    ensures NodesTotal(nodes, first, w) == 0
  {
    if nodes != [] {
      FdsTotalZero(first, nodes[0].fds, w);
      NodesTotalNone(nodes[1..], first + 1, w);
    }
  }

  /** Slots held by entries are exactly the entries of the node's own list. */
  lemma {:induction false} NodesTotalSlots(nodes: seq<Node>, first: nat, n: nat)
    requires first <= n < first + |nodes|
    ensures NodesTotal(nodes, first, Slot(n)) == |nodes[n - first].fds|
  {
    FdsTotalOwn(first, nodes[0].fds, n);
    if n == first {
      NodesTotalNoSlots(nodes[1..], first + 1, n);
    } else {
      NodesTotalSlots(nodes[1..], first + 1, n);
    }
  }

  lemma {:induction false} NodesTotalNoSlots(nodes: seq<Node>, first: nat, n: nat)
    requires n < first
    ensures NodesTotal(nodes, first, Slot(n)) == 0
  {
    if nodes != [] {
      FdsTotalOwn(first, nodes[0].fds, n);
      NodesTotalNoSlots(nodes[1..], first + 1, n);
    }
  }

  // ---- flagged entries ----

  lemma {:induction false} FlaggedConcat(a: seq<FdEntry>, b: seq<FdEntry>, d: nat, fd: nat)
    ensures FlaggedIn(a + b, d, fd) == FlaggedIn(a, d, fd) + FlaggedIn(b, d, fd)
  {
    if a == [] {
      assert a + b == b;
    } else {
      assert (a + b)[1..] == a[1..] + b;
      FlaggedConcat(a[1..], b, d, fd);
    }
  }

  lemma {:induction false} FlaggedRemove(fds: seq<FdEntry>, i: nat, d: nat, fd: nat)
    requires i < |fds|
    ensures FlaggedIn(fds, d, fd) == FlaggedIn(fds[..i] + fds[i + 1..], d, fd) + B(fds[i] == FdEntry(fd, d, true))
  {
    assert fds == fds[..i] + ([fds[i]] + fds[i + 1..]);
    FlaggedConcat(fds[..i], [fds[i]] + fds[i + 1..], d, fd);
    FlaggedConcat(fds[..i], fds[i + 1..], d, fd);
  }

  /** Setting flags never loses a flagged entry. */
  lemma {:induction false} FlaggedMonotone(a: seq<FdEntry>, b: seq<FdEntry>, d: nat, fd: nat)
    requires |a| == |b|
    requires forall i :: 0 <= i < |a| ==> b[i] == a[i] || b[i] == a[i].(closing := true)
    ensures FlaggedIn(a, d, fd) <= FlaggedIn(b, d, fd)
  {
    if a != [] {
      FlaggedMonotone(a[1..], b[1..], d, fd);
    }
  }

  /** A newly set flag adds one. */
  lemma {:induction false} FlaggedGrows(a: seq<FdEntry>, b: seq<FdEntry>, i: nat)
    requires |a| == |b| && i < |a|
    requires forall j :: 0 <= j < |a| ==> b[j] == a[j] || b[j] == a[j].(closing := true)
    requires !a[i].closing && b[i].closing
    ensures FlaggedIn(a, a[i].drv, a[i].fd) + 1 <= FlaggedIn(b, a[i].drv, a[i].fd)
  {
    FlaggedRemove(a, i, a[i].drv, a[i].fd);
    FlaggedRemove(b, i, a[i].drv, a[i].fd);
    FlaggedMonotone(a[..i] + a[i + 1..], b[..i] + b[i + 1..], a[i].drv, a[i].fd);
  }
}
