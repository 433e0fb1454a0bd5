/**
  Driver manager: what each critical section does, and the actions a thread can take.
  One action is one critical section of g_task_mtx, fd_mtx or state_mtx, or one call to a
  driver process. The loop of exception_close_handle is one action per entry, so other
  threads may run between its iterations (the source allows fewer interleavings, because it
  keeps fd_mtx across the loop).
 */
module DrvSteps {
  import opened Options
  import opened DrvTypes

  // ---- searching g_task_list ----

  datatype Query =
    | NormalUuid(uuid: nat, pid: int)  // find_normal_node
    | EffectiveUuid(uuid: nat)         // find_effective_node
    | DrvName(name: string)            // find_node_by_name

  predicate Matches(m: Node, q: Query) {
    match q
    case NormalUuid(uuid, pid) =>
      && m.uuid == uuid && m.state == Normal
      && (pid == INVALID_PID || m.pid == INVALID_PID || m.pid == pid)
    case EffectiveUuid(uuid) => m.uuid == uuid && m.state != Exit
    case DrvName(name) => m.target == Drv && m.name == name && m.state != Exit
  }

  /** The first node of the list that matches. */
  function Find(nodes: seq<Node>, list: seq<nat>, q: Query): (r: Option<nat>)
    ensures r.Some? ==> r.value in list && r.value < |nodes| && Matches(nodes[r.value], q)
    ensures r.None? ==> forall n :: n in list && n < |nodes| ==> !Matches(nodes[n], q)
  {
    if list == [] then None
    else if list[0] < |nodes| && Matches(nodes[list[0]], q) then Some(list[0])
    else Find(nodes, list[1..], q)
  }

  /** dlist_delete of one node. */
  function Without(list: seq<nat>, n: nat): (r: seq<nat>)
    ensures forall x :: x in r ==> x in list
    ensures forall x :: x in list && x != n ==> x in r
  {
    if list == [] then [] else if list[0] == n then list[1..] else [list[0]] + Without(list[1..], n)
  }

  // ---- driver indexes ----

  function LowestFree(bits: seq<bool>): (r: Option<nat>)
    ensures r.Some? ==> r.value < |bits| && !bits[r.value] && forall i :: 0 <= i < r.value ==> bits[i]
    ensures r.None? ==> forall i :: 0 <= i < |bits| ==> bits[i]
  {
    if bits == [] then None
    else if !bits[0] then Some(0)
    else match LowestFree(bits[1..])
      case None => None
      case Some(i) => Some(i + 1)
  }

  /** drv_open_handle: driver index joined with the driver's own descriptor. */
  function JoinFd(index: nat, local: nat): nat { index * FD_INDEX_UNIT + local }

  // ---- reference counts ----

  /** put_node: the "dec_cnt invalid" branch leaves the count alone. */
  function CountAfterPut(m: Node, k: nat): nat { if m.refCnt < k then m.refCnt else m.refCnt - k }

  predicate FreedByPut(m: Node, k: nat) { CountAfterPut(m, k) == 0 && m.target == Ta }

  function NodesAfterPut(nodes: seq<Node>, n: nat, k: nat): seq<Node>
    requires n < |nodes|
  {
    var m := nodes[n].(refCnt := CountAfterPut(nodes[n], k));
    nodes[n := if FreedByPut(nodes[n], k) then m.(live := false) else m]
  }

  function ListAfterPut(nodes: seq<Node>, list: seq<nat>, n: nat, k: nat): seq<nat>
    requires n < |nodes|
  {
    if FreedByPut(nodes[n], k) then Without(list, n) else list
  }

  /** The pid that find_normal_node leaves in a node it accepts. */
  function Adopted(m: Node, pid: int): Node {
    if pid != INVALID_PID && m.pid == INVALID_PID then m.(pid := pid) else m
  }

  // ---- fd lists ----

  /**
    The loop of close_get_fd_node_with_lock from entry k on: it flags every unflagged entry
    with this fd, remembers the last one, and stops at the first entry already flagged.
   */
  function ScanClose(fds: seq<FdEntry>, fd: nat, k: nat, found: Option<nat>): (seq<FdEntry>, Option<nat>)
    requires k <= |fds|
    decreases |fds| - k
  {
    if k == |fds| then (fds, found)
    else if fds[k].fd != fd then ScanClose(fds, fd, k + 1, found)
    else if fds[k].closing then (fds, found)
    else ScanClose(fds[k := fds[k].(closing := true)], fd, k + 1, Some(k))
  }

  /** Position of the first entry equal to e. */
  function IndexOf(fds: seq<FdEntry>, e: FdEntry): (r: nat)
    ensures r <= |fds| && (r < |fds| ==> fds[r] == e) && (r == |fds| ==> e !in fds)
  {
    if fds == [] then 0 else if fds[0] == e then 0 else 1 + IndexOf(fds[1..], e)
  }

  /** Position of the first entry whose close_flag is clear. */
  function FirstUnflagged(fds: seq<FdEntry>): (r: nat)
    ensures r <= |fds| && (r < |fds| ==> !fds[r].closing)
    ensures forall i :: 0 <= i < r ==> fds[i].closing
  {
    if fds == [] then 0 else if !fds[0].closing then 0 else 1 + FirstUnflagged(fds[1..])
  }

  /** One entry leaves the list and fd_count drops, unless it is already zero. */
  function DropEntry(m: Node, i: nat): Node
    requires i < |m.fds|
  {
    m.(fdCount := if m.fdCount > 0 then m.fdCount - 1 else 0, fds := m.fds[..i] + m.fds[i + 1..])
  }

  // ---- actions ----

  datatype Action =
    | RegisterTa(t: nat, uuid: nat)
    | RegisterDrv(t: nat, uuid: nat, name: string, crypto: bool)
    | RegisterImplicit(t: nat, uuid: nat, pid: int, name: string)
    | Receive(t: nat, policyOk: bool)
    | OpenStart(t: nat, uuid: nat, pid: int, name: string)
    | Refuse(t: nat)   // a permission check, allocation, wait, spawn permission or driver open fails
    | OpenCount(t: nat)
    | OpenFindDrv(t: nat)
    | OpenCheckState(t: nat)
    | OpenBroadcast(t: nat, ok: bool, pid: int)
    | OpenDriver(t: nat, local: nat)
    | OpenAddFd(t: nat)
    | CallClose(t: nat)
    | PutDrv(t: nat)
    | PutCount(t: nat)
    | PutCallerNode(t: nat)
    | CloseStart(t: nat, uuid: nat, pid: int, fd: nat)
    | CloseClaim(t: nat)
    | CloseDelete(t: nat)
    | ExitStart(t: nat, uuid: nat)
    | ExitClaim(t: nat)
    | UnregisterDrv(t: nat, name: string)

  function SetOp(s: DrvState, t: nat, o: Op): DrvState
    requires t < |s.ops|
  {
    s.(ops := s.ops[t := o])
  }

  function SetNode(s: DrvState, n: nat, m: Node): DrvState
    requires n < |s.nodes|
  {
    s.(nodes := s.nodes[n := m])
  }

  function NewTa(uuid: nat, pid: int, registered: bool): Node {
    Node(Ta, uuid, "", 0, false, pid, 1, 0, [], Normal, true, registered)
  }

  function NewDrv(uuid: nat, name: string, index: nat, crypto: bool): Node {
    Node(Drv, uuid, name, index, crypto, INVALID_PID, 0, 0, [], Load, true, false)
  }

  /** free_task_node of a node that is not in the list (any more). */
  function FreeNode(s: DrvState, n: nat): DrvState
    requires n < |s.nodes|
  {
    var m := s.nodes[n];
    var s' := SetNode(s, n, m.(refCnt := 0, live := false, registered := false));
    if m.target == Drv && 1 <= m.drvIndex <= |s.indexes| then
      s'.(indexes := s.indexes[m.drvIndex - 1 := false])
    else s'
  }

  predicate ValidDrvName(name: string) { 0 < |name| < DRV_NAME_MAX_LEN }

  /** receive_task_conf: may this node join the list? A crypto node is merged into another instead. */
  predicate Admitted(nodes: seq<Node>, list: seq<nat>, m: Node, policyOk: bool) {
    if m.target == Drv then
      && !m.crypto && ValidDrvName(m.name)
      && Find(nodes, list, EffectiveUuid(m.uuid)).None?
      && Find(nodes, list, DrvName(m.name)).None?
      && policyOk
    else Find(nodes, list, EffectiveUuid(m.uuid)).None?
  }

  /** get_node_by_uuid_with_lock: the caller node with one more reference, if there is one. */
  function GetNode(s: DrvState, uuid: nat, pid: int): (DrvState, Option<nat>) {
    match Find(s.nodes, s.list, NormalUuid(uuid, pid))
    case None => (s, None)
    case Some(n) =>
      var m := Adopted(s.nodes[n], pid);
      if m.refCnt == UINT32_MAX then (SetNode(s, n, m), None)
      else (SetNode(s, n, m.(refCnt := m.refCnt + 1)), Some(n))
  }

  /** The nodes a thread remembers exist; every reachable state guarantees this. */
  predicate ThreadAt(s: DrvState, t: nat) {
    && t < |s.ops|
    && (s.ops[t].pc != Idle ==> s.ops[t].c < |s.nodes|)
    && (RefsDrv(s.ops[t].pc) ==> s.ops[t].d < |s.nodes|)
  }


  predicate At(s: DrvState, t: nat, pc: Pc) { ThreadAt(s, t) && s.ops[t].pc == pc }

  predicate CanReceive(s: DrvState, t: nat) { At(s, t, Registering) || At(s, t, OpenRegistering) }

  predicate CanRefuse(s: DrvState, t: nat) {
    && ThreadAt(s, t)
    && match s.ops[t].pc
       case OpenHasCaller | OpenCounted | OpenHasDrv | OpenWaiting | OpenReady | OpenGotFd => true
       case _ => false
  }

  /** A waiting opener goes on only when the driver has left the spawn state. */
  predicate CanCheckState(s: DrvState, t: nat) {
    && (At(s, t, OpenHasDrv) || At(s, t, OpenWaiting))
    && (s.ops[t].pc == OpenWaiting ==> s.nodes[s.ops[t].d].state != Spawn)
  }

  /**
    The one assumption about drivers: a driver hands out a descriptor only after every earlier
    hand-out of it was closed.
   */
  predicate CanOpenDriver(s: DrvState, t: nat, local: nat) {
    && At(s, t, OpenReady) && 1 <= local <= FD_COUNT_MAX
    && var h := (s.ops[t].d, JoinFd(s.nodes[s.ops[t].d].drvIndex, local));
       s.openLog[h] == s.closeLog[h]
  }

  predicate CanCallClose(s: DrvState, t: nat) {
    At(s, t, OpenUndo) || At(s, t, CloseDeleted) || At(s, t, ExitDeleted)
  }

  predicate CanPutDrv(s: DrvState, t: nat) {
    At(s, t, OpenPutDrv) || At(s, t, ClosePutDrv) || At(s, t, ExitPutDrv)
  }

  /** The entry whose close_flag the thread set. */
  function ClaimedEntry(o: Op): FdEntry { FdEntry(o.fd, o.d, true) }

  predicate CanDelete(s: DrvState, t: nat) {
    At(s, t, CloseFlagged) && ClaimedEntry(s.ops[t]) in s.nodes[s.ops[t].c].fds
  }

  predicate Enabled(s: DrvState, a: Action) {
    match a
    case RegisterTa(t, _) => At(s, t, Idle)
    case RegisterDrv(t, _, _, _) => At(s, t, Idle) && LowestFree(s.indexes).Some?
    case RegisterImplicit(t, uuid, pid, _) =>
      At(s, t, Idle) && Find(s.nodes, s.list, NormalUuid(uuid, pid)).None?
    case Receive(t, _) => CanReceive(s, t)
    case OpenStart(t, _, _, _) => At(s, t, Idle)
    case Refuse(t) => CanRefuse(s, t)
    case OpenCount(t) => At(s, t, OpenHasCaller)
    case OpenFindDrv(t) => At(s, t, OpenCounted)
    case OpenCheckState(t) => CanCheckState(s, t)
    case OpenBroadcast(t, _, _) => At(s, t, OpenSpawning)
    case OpenDriver(t, local) => CanOpenDriver(s, t, local)
    case OpenAddFd(t) => At(s, t, OpenGotFd)
    case CallClose(t) => CanCallClose(s, t)
    case PutDrv(t) => CanPutDrv(s, t)
    case PutCount(t) => At(s, t, OpenPutCount)
    case PutCallerNode(t) => At(s, t, PutCaller)
    case CloseStart(t, _, _, _) => At(s, t, Idle)
    case CloseClaim(t) => At(s, t, CloseHasCaller)
    case CloseDelete(t) => CanDelete(s, t)
    case ExitStart(t, _) => At(s, t, Idle)
    case ExitClaim(t) => At(s, t, ExitScan)
    case UnregisterDrv(t, _) => At(s, t, Idle)
  }

  function AddNode(s: DrvState, t: nat, m: Node, pc: Pc, name: string): DrvState
    requires t < |s.ops|
  {
    SetOp(s.(nodes := s.nodes + [m]), t, Op(pc, |s.nodes|, 0, 0, 0, name))
  }

  function DoRegisterDrv(s: DrvState, t: nat, uuid: nat, name: string, crypto: bool): DrvState
    requires t < |s.ops| && LowestFree(s.indexes).Some?
  {
    var i := LowestFree(s.indexes).value;
    AddNode(s.(indexes := s.indexes[i := true]), t, NewDrv(uuid, name, i + 1, crypto), Registering, name)
  }

  function DoReceive(s: DrvState, t: nat, policyOk: bool): DrvState
    requires CanReceive(s, t)
  {
    var o := s.ops[t];
    if Admitted(s.nodes, s.list, s.nodes[o.c], policyOk) then
      SetOp(s.(list := s.list + [o.c]), t, if o.pc == Registering then IDLE else o.(pc := OpenHasCaller))
    else SetOp(FreeNode(s, o.c), t, IDLE)
  }

  /** The first section of driver_open_func and driver_close_func. */
  function DoGetCaller(s: DrvState, t: nat, uuid: nat, pid: int, pc: Pc, fd: nat, name: string): DrvState
    requires At(s, t, Idle)
  {
    var (s', c) := GetNode(s, uuid, pid);
    if c.Some? then SetOp(s', t, Op(pc, c.value, 0, fd, 0, name)) else s'
  }

  /** A permission check, allocation, wait, or driver open fails: where the goto leads. */
  function DoRefuse(s: DrvState, t: nat): DrvState
    requires t < |s.ops|
  {
    var o := s.ops[t];
    match o.pc
    case OpenHasCaller => SetOp(s, t, o.(pc := PutCaller, k := 1))
    case OpenCounted => SetOp(s, t, o.(pc := OpenPutCount))
    case OpenGotFd => SetOp(s, t, o.(pc := OpenUndo))
    case _ => SetOp(s, t, o.(pc := OpenPutDrv))
  }

  /** get_fd_count */
  function DoOpenCount(s: DrvState, t: nat): DrvState
    requires At(s, t, OpenHasCaller)
  {
    var o := s.ops[t];
    var m := s.nodes[o.c];
    if m.fdCount >= TASK_FD_COUNT_MAX then SetOp(s, t, o.(pc := PutCaller, k := 1))
    else SetOp(SetNode(s, o.c, m.(fdCount := m.fdCount + 1)), t, o.(pc := OpenCounted))
  }

  /** get_drv_node_by_name_with_lock */
  function DoOpenFindDrv(s: DrvState, t: nat): DrvState
    requires At(s, t, OpenCounted)
  {
    var o := s.ops[t];
    var r := if o.name == "" then None else Find(s.nodes, s.list, DrvName(o.name));
    if r.None? || s.nodes[r.value].refCnt == UINT32_MAX then SetOp(s, t, o.(pc := OpenPutCount))
    else
      var m := s.nodes[r.value];
      SetOp(SetNode(s, r.value, m.(refCnt := m.refCnt + 1)), t, o.(pc := OpenHasDrv, d := r.value))
  }

  /** check_drv_node_state, including the re-check after a wake-up */
  function DoOpenCheckState(s: DrvState, t: nat): DrvState
    requires CanCheckState(s, t)
  {
    var o := s.ops[t];
    var m := s.nodes[o.d];
    match m.state
    case Load =>
      if o.pc == OpenHasDrv then SetOp(SetNode(s, o.d, m.(state := Spawn)), t, o.(pc := OpenSpawning))
      else SetOp(s, t, o.(pc := OpenPutDrv))
    case Spawn => SetOp(s, t, o.(pc := OpenWaiting))
    case Normal => SetOp(s, t, o.(pc := OpenReady))
    case _ => SetOp(s, t, o.(pc := OpenPutDrv))
  }

  /** spawn_driver_handle and broadcast_drv_state */
  function DoOpenBroadcast(s: DrvState, t: nat, ok: bool, pid: int): DrvState
    requires At(s, t, OpenSpawning)
  {
    var o := s.ops[t];
    var m := s.nodes[o.d];
    if ok then SetOp(SetNode(s, o.d, m.(state := Normal, pid := pid)), t, o.(pc := OpenReady))
    else SetOp(SetNode(s, o.d, m.(state := SpawnFail)), t, o.(pc := OpenPutDrv))
  }

  function DoOpenDriver(s: DrvState, t: nat, local: nat): DrvState
    requires CanOpenDriver(s, t, local)
  {
    var o := s.ops[t];
    var fd := JoinFd(s.nodes[o.d].drvIndex, local);
    SetOp(s.(openLog := s.openLog + multiset{(o.d, fd)}), t, o.(pc := OpenGotFd, fd := fd))
  }

  /** add_fd_to_drvcall_node */
  function DoOpenAddFd(s: DrvState, t: nat): DrvState
    requires At(s, t, OpenGotFd)
  {
    var o := s.ops[t];
    var m := s.nodes[o.c];
    SetOp(SetNode(s, o.c, m.(fds := m.fds + [FdEntry(o.fd, o.d, false)])), t, IDLE)
  }

  /** call_drv_close */
  function DoCallClose(s: DrvState, t: nat): DrvState
    requires CanCallClose(s, t)
  {
    var o := s.ops[t];
    var pc := if o.pc == OpenUndo then OpenPutDrv else if o.pc == CloseDeleted then ClosePutDrv else ExitPutDrv;
    SetOp(s.(closeLog := s.closeLog + multiset{(o.d, o.fd)}), t, o.(pc := pc))
  }

  function Put(s: DrvState, n: nat, k: nat): DrvState
    requires n < |s.nodes|
  {
    s.(nodes := NodesAfterPut(s.nodes, n, k), list := ListAfterPut(s.nodes, s.list, n, k))
  }

  function DoPutDrv(s: DrvState, t: nat): DrvState
    requires CanPutDrv(s, t)
  {
    var o := s.ops[t];
    SetOp(Put(s, o.d, 1), t,
      if o.pc == OpenPutDrv then o.(pc := OpenPutCount)
      else if o.pc == ClosePutDrv then o.(pc := PutCaller, k := 2)
      else o.(pc := ExitScan))
  }

  /** put_fd_count */
  function DoPutCount(s: DrvState, t: nat): DrvState
    requires At(s, t, OpenPutCount)
  {
    var o := s.ops[t];
    var m := s.nodes[o.c];
    SetOp(SetNode(s, o.c, m.(fdCount := if m.fdCount > 0 then m.fdCount - 1 else 0)),
          t, o.(pc := PutCaller, k := 1))
  }

  function DoPutCallerNode(s: DrvState, t: nat): DrvState
    requires At(s, t, PutCaller)
  {
    SetOp(Put(s, s.ops[t].c, s.ops[t].k), t, IDLE)
  }

  /** close_get_fd_node_with_lock */
  function DoCloseClaim(s: DrvState, t: nat): DrvState
    requires At(s, t, CloseHasCaller)
  {
    var o := s.ops[t];
    var m := s.nodes[o.c];
    var (fds, found) := ScanClose(m.fds, o.fd, 0, None);
    var s' := SetNode(s, o.c, m.(fds := fds));
    if found.Some? && found.value < |fds| then SetOp(s', t, o.(pc := CloseFlagged, d := fds[found.value].drv))
    else SetOp(s', t, o.(pc := PutCaller, k := 1))
  }

  /** del_fd_to_drvcall_node */
  function DoCloseDelete(s: DrvState, t: nat): DrvState
    requires CanDelete(s, t)
  {
    var o := s.ops[t];
    var m := s.nodes[o.c];
    SetOp(SetNode(s, o.c, DropEntry(m, IndexOf(m.fds, ClaimedEntry(o)))), t, o.(pc := CloseDeleted))
  }

  /** The node that get_ta_node_and_set_exit would take, if any. */
  function ExitTarget(s: DrvState, uuid: nat): Option<nat> {
    match Find(s.nodes, s.list, NormalUuid(uuid, INVALID_PID))
    case None => None
    case Some(n) => if s.nodes[n].target != Ta || s.nodes[n].refCnt == UINT32_MAX then None else Some(n)
  }

  function DoExitStart(s: DrvState, t: nat, uuid: nat): DrvState
    requires t < |s.ops|
  {
    match ExitTarget(s, uuid)
    case None => s
    case Some(n) =>
      var m := s.nodes[n];
      SetOp(SetNode(s, n, m.(refCnt := m.refCnt + 1, state := Exit, registered := false)),
            t, Op(ExitScan, n, 0, 0, 0, ""))
  }

  /** One iteration of the loop in exception_close_handle, or its end. */
  function DoExitClaim(s: DrvState, t: nat): DrvState
    requires At(s, t, ExitScan)
  {
    var o := s.ops[t];
    var m := s.nodes[o.c];
    var i := FirstUnflagged(m.fds);
    if i == |m.fds| then SetOp(s, t, o.(pc := PutCaller, k := o.k + 2))
    else SetOp(SetNode(s, o.c, DropEntry(m, i)), t,
               o.(pc := ExitDeleted, k := o.k + 1, d := m.fds[i].drv, fd := m.fds[i].fd))
  }

  /** The node that free_drv_conf_by_service_name would free, if any. */
  function UnregisterTarget(nodes: seq<Node>, list: seq<nat>, name: string): Option<nat> {
    if name == "" then None else
    match Find(nodes, list, DrvName(name))
    case None => None
    case Some(n) => if nodes[n].refCnt != 0 || nodes[n].state != Load then None else Some(n)
  }

  function DoUnregisterDrv(s: DrvState, name: string): DrvState {
    match UnregisterTarget(s.nodes, s.list, name)
    case None => s
    case Some(n) => FreeNode(s.(list := Without(s.list, n)), n)
  }

  function Apply(s: DrvState, a: Action): DrvState
    requires Enabled(s, a)
  {
    match a
    case RegisterTa(t, uuid) => AddNode(s, t, NewTa(uuid, INVALID_PID, true), Registering, "")
    case RegisterDrv(t, uuid, name, crypto) => DoRegisterDrv(s, t, uuid, name, crypto)
    case RegisterImplicit(t, uuid, pid, name) => AddNode(s, t, NewTa(uuid, pid, false), OpenRegistering, name)
    case Receive(t, policyOk) => DoReceive(s, t, policyOk)
    case OpenStart(t, uuid, pid, name) => DoGetCaller(s, t, uuid, pid, OpenHasCaller, 0, name)
    case Refuse(t) => DoRefuse(s, t)
    case OpenCount(t) => DoOpenCount(s, t)
    case OpenFindDrv(t) => DoOpenFindDrv(s, t)
    case OpenCheckState(t) => DoOpenCheckState(s, t)
    case OpenBroadcast(t, ok, pid) => DoOpenBroadcast(s, t, ok, pid)
    case OpenDriver(t, local) => DoOpenDriver(s, t, local)
    case OpenAddFd(t) => DoOpenAddFd(s, t)
    case CallClose(t) => DoCallClose(s, t)
    case PutDrv(t) => DoPutDrv(s, t)
    case PutCount(t) => DoPutCount(s, t)
    case PutCallerNode(t) => DoPutCallerNode(s, t)
    case CloseStart(t, uuid, pid, fd) => DoGetCaller(s, t, uuid, pid, CloseHasCaller, fd, "")
    case CloseClaim(t) => DoCloseClaim(s, t)
    case CloseDelete(t) => DoCloseDelete(s, t)
    case ExitStart(t, uuid) => DoExitStart(s, t, uuid)
    case ExitClaim(t) => DoExitClaim(s, t)
    case UnregisterDrv(_, name) => DoUnregisterDrv(s, name)
  }

  /** gtask's side of the contract: it unregisters only what it registered. */
  predicate Disciplined(s: DrvState, a: Action) {
    a.ExitStart? ==> (ExitTarget(s, a.uuid).Some? ==> s.nodes[ExitTarget(s, a.uuid).value].registered)
  }
}
