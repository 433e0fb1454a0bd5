/**
  Driver manager: the invariant that every interleaving keeps.
 */
module DrvInvariant {
  import opened Options
  import opened DrvTypes
  import opened DrvSteps

  /** Token accounting of one node: its count is exactly what is still to be given back. */
  ghost predicate NodeAccounted(s: DrvState, n: nat)
    requires n < |s.nodes|
  {
    if s.nodes[n].live then s.nodes[n].refCnt == B(s.nodes[n].registered) + Total(s, Ref(n))
    else Total(s, Ref(n)) == 0
  }

  ghost predicate Accounting(s: DrvState) {
    forall n :: 0 <= n < |s.nodes| ==> NodeAccounted(s, n)
  }

  ghost predicate NodeCounts(s: DrvState, n: nat)
    requires n < |s.nodes|
  {
    && s.nodes[n].fdCount == Total(s, Slot(n)) <= TASK_FD_COUNT_MAX
    && Total(s, Spawner(n)) == B(s.nodes[n].state == Spawn)
    && Total(s, Private(n)) == B(s.nodes[n].live && n !in s.list)
  }

  ghost predicate Counts(s: DrvState) {
    forall n :: 0 <= n < |s.nodes| ==> NodeCounts(s, n)
  }

  /** Every hand-out is either closed or held in exactly one place. */
  ghost predicate HandedOut(s: DrvState, d: nat, fd: nat) {
    s.openLog[(d, fd)] == s.closeLog[(d, fd)] + Total(s, Holder(d, fd)) && Total(s, Holder(d, fd)) <= 1
  }

  ghost predicate Holders(s: DrvState) { forall d, fd :: HandedOut(s, d, fd) }

  /** Every thread that set a close_flag still finds its entry in the list. */
  ghost predicate FlagHeld(s: DrvState, c: nat, d: nat, fd: nat)
    requires c < |s.nodes|
  {
    OpsTotal(s.ops, Flagged(c, d, fd)) <= FlaggedIn(s.nodes[c].fds, d, fd)
  }

  ghost predicate Flags(s: DrvState) {
    forall c, d, fd :: 0 <= c < |s.nodes| ==> FlagHeld(s, c, d, fd)
  }

  /** fd carries this driver's index. */
  predicate FdOfDriver(fd: nat, m: Node) {
    m.drvIndex * FD_INDEX_UNIT < fd <= m.drvIndex * FD_INDEX_UNIT + FD_COUNT_MAX
  }

  predicate EntryOk(s: DrvState, e: FdEntry) {
    && e.drv < |s.nodes| && s.nodes[e.drv].target == Drv && s.nodes[e.drv].state == Normal
    && FdOfDriver(e.fd, s.nodes[e.drv])
  }

  predicate NodeOk(s: DrvState, n: nat)
    requires n < |s.nodes|
  {
    var m := s.nodes[n];
    && (m.registered ==> m.live && m.target == Ta && m.state == Normal)
    && (m.target == Ta ==> m.state in {Normal, Exit} && (m.live ==> 1 <= m.refCnt))
    && (m.target == Drv ==>
          && m.state != Exit && 1 <= m.drvIndex <= |s.indexes|
          && (m.live ==> s.indexes[m.drvIndex - 1]))
    && (forall i :: 0 <= i < |m.fds| ==> EntryOk(s, m.fds[i]))
  }

  predicate NodesOk(s: DrvState) { forall n :: 0 <= n < |s.nodes| ==> NodeOk(s, n) }

  predicate SameIndex(a: Node, b: Node) {
    a.live && b.live && a.target == Drv && b.target == Drv && a.drvIndex == b.drvIndex
  }

  predicate IndexesOk(s: DrvState) {
    && |s.indexes| == DRV_INDEX_MAX
    && forall n, m :: 0 <= n < m < |s.nodes| ==> !SameIndex(s.nodes[n], s.nodes[m])
  }

  /** Two listed nodes never answer for the same uuid or the same driver name. */
  predicate Compatible(a: Node, b: Node) {
    && (a.uuid == b.uuid ==> a.state == Exit || b.state == Exit)
    && !(a.target == Drv && b.target == Drv && a.name == b.name)
  }

  predicate ListOk(s: DrvState) {
    && (forall i :: 0 <= i < |s.list| ==> s.list[i] < |s.nodes| && s.nodes[s.list[i]].live)
    && (forall i, j :: 0 <= i < j < |s.list| ==>
          s.list[i] != s.list[j] && Compatible(s.nodes[s.list[i]], s.nodes[s.list[j]]))
  }

  predicate OpOk(s: DrvState, t: nat)
    requires t < |s.ops|
  {
    var o := s.ops[t];
    && ThreadAt(s, t)
    && (RefsDrv(o.pc) || o.pc == CloseFlagged ==> o.d < |s.nodes| && s.nodes[o.d].target == Drv)
    && (o.pc == OpenReady || HoldsFd(o.pc) || o.pc == CloseFlagged ==> s.nodes[o.d].state == Normal)
    && (HoldsFd(o.pc) || o.pc == CloseFlagged ==> FdOfDriver(o.fd, s.nodes[o.d]))
    && (o.pc == PutCaller ==> 1 <= o.k)
    && (o.pc == Registering ==> s.nodes[o.c].refCnt == B(s.nodes[o.c].registered) && s.nodes[o.c].fds == [])
    && (o.pc == OpenRegistering ==>
          s.nodes[o.c].target == Ta && !s.nodes[o.c].registered && s.nodes[o.c].refCnt == 1 && s.nodes[o.c].fds == [])
  }

  predicate OpsOk(s: DrvState) { forall t :: 0 <= t < |s.ops| ==> OpOk(s, t) }

  ghost predicate Inv(s: DrvState) {
    && Accounting(s) && Counts(s) && Holders(s) && Flags(s)
    && NodesOk(s) && IndexesOk(s) && ListOk(s) && OpsOk(s)
  }

  // ---- how a step moves the sums ----

  /** Only thread t and node n differ. */
  predicate Moved(s: DrvState, s': DrvState, t: nat, n: nat) {
    && t < |s.ops| == |s'.ops| && s'.ops == s.ops[t := s'.ops[t]]
    && n < |s.nodes| == |s'.nodes| && s'.nodes == s.nodes[n := s'.nodes[n]]
  }

  lemma Deltas(s: DrvState, s': DrvState, t: nat, n: nat)
    requires Moved(s, s', t, n)
    ensures forall w :: Total(s', w) + OpClaims(s.ops[t], w) + FdsTotal(n, s.nodes[n].fds, w)
                     == Total(s, w) + OpClaims(s'.ops[t], w) + FdsTotal(n, s'.nodes[n].fds, w)
  {
    forall w
      ensures Total(s', w) + OpClaims(s.ops[t], w) + FdsTotal(n, s.nodes[n].fds, w)
           == Total(s, w) + OpClaims(s'.ops[t], w) + FdsTotal(n, s'.nodes[n].fds, w)
    {
      OpsTotalUpdate(s.ops, t, s'.ops[t], w);
      NodesTotalUpdate(s.nodes, 0, n, s'.nodes[n], w);
    }
  }

  /** The common case: only the thread's claims change. */
  lemma DeltaOp(s: DrvState, s': DrvState, t: nat, n: nat)
    requires Moved(s, s', t, n)
    requires s'.nodes[n].fds == s.nodes[n].fds
    ensures forall w :: Total(s', w) + OpClaims(s.ops[t], w) == Total(s, w) + OpClaims(s'.ops[t], w)
    ensures forall w :: OpsTotal(s'.ops, w) + OpClaims(s.ops[t], w) == OpsTotal(s.ops, w) + OpClaims(s'.ops[t], w)
  {
    Deltas(s, s', t, n);
    forall w
      ensures OpsTotal(s'.ops, w) + OpClaims(s.ops[t], w) == OpsTotal(s.ops, w) + OpClaims(s'.ops[t], w)
    {
      OpsTotalUpdate(s.ops, t, s'.ops[t], w);
    }
  }

  /** A thread's references are part of the node's total. */
  lemma ClaimsBelowTotal(s: DrvState, t: nat, w: Claim)
    requires t < |s.ops|
    ensures OpClaims(s.ops[t], w) <= OpsTotal(s.ops, w) <= Total(s, w)
  {
    OpsTotalAtLeast(s.ops, t, w);
  }

  /** A node that some thread holds a reference on is live. */
  lemma RefKeepsLive(s: DrvState, t: nat, n: nat)
    requires Accounting(s) && t < |s.ops| && n < |s.nodes| && 1 <= OpClaims(s.ops[t], Ref(n))
    ensures s.nodes[n].live && OpClaims(s.ops[t], Ref(n)) + B(s.nodes[n].registered) <= s.nodes[n].refCnt
  {
    ClaimsBelowTotal(s, t, Ref(n));
    assert NodeAccounted(s, n);
  }

  // ---- what a step has to show, conjunct by conjunct ----

  /** A change of one node that cannot disturb what others rely on. */
  predicate Benign(m: Node, m': Node) {
    && m'.target == m.target && m'.uuid == m.uuid && m'.name == m.name && m'.drvIndex == m.drvIndex
    && (m'.live ==> m.live)
    && (m.state == Exit ==> m'.state == Exit)
    && (m.state == Normal && m.target == Drv ==> m'.state == Normal)
  }

  lemma KeepAccounting(s: DrvState, s': DrvState, t: nat, n: nat)
    requires Accounting(s) && Moved(s, s', t, n) && s'.nodes[n].fds == s.nodes[n].fds
    requires forall x: nat :: x != n ==> OpClaims(s'.ops[t], Ref(x)) == OpClaims(s.ops[t], Ref(x))
    requires s'.nodes[n].live == s.nodes[n].live
    requires if s.nodes[n].live
      then s'.nodes[n].refCnt + OpClaims(s.ops[t], Ref(n)) + B(s.nodes[n].registered)
        == s.nodes[n].refCnt + OpClaims(s'.ops[t], Ref(n)) + B(s'.nodes[n].registered)
      else OpClaims(s'.ops[t], Ref(n)) == OpClaims(s.ops[t], Ref(n))
    ensures Accounting(s')
  {
    DeltaOp(s, s', t, n);
    hide OpsTotal, NodesTotal, Total, OpClaims;
    forall x | 0 <= x < |s'.nodes|
      ensures NodeAccounted(s', x)
    {
      assert NodeAccounted(s, x);
    }
  }

  lemma KeepCounts(s: DrvState, s': DrvState, t: nat, n: nat)
    requires Counts(s) && Moved(s, s', t, n) && s'.nodes[n].fds == s.nodes[n].fds && s'.list == s.list
    requires forall x: nat :: x != n ==>
      && OpClaims(s'.ops[t], Slot(x)) == OpClaims(s.ops[t], Slot(x))
      && OpClaims(s'.ops[t], Spawner(x)) == OpClaims(s.ops[t], Spawner(x))
    requires forall x: nat :: OpClaims(s'.ops[t], Private(x)) == OpClaims(s.ops[t], Private(x))
    requires s'.nodes[n].live == s.nodes[n].live
    requires s'.nodes[n].fdCount + OpClaims(s.ops[t], Slot(n)) == s.nodes[n].fdCount + OpClaims(s'.ops[t], Slot(n))
    requires s'.nodes[n].fdCount <= TASK_FD_COUNT_MAX
    requires B(s'.nodes[n].state == Spawn) + OpClaims(s.ops[t], Spawner(n))
          == B(s.nodes[n].state == Spawn) + OpClaims(s'.ops[t], Spawner(n))
    ensures Counts(s')
  {
    DeltaOp(s, s', t, n);
    hide OpsTotal, NodesTotal, Total, OpClaims;
    forall x | 0 <= x < |s'.nodes|
      ensures NodeCounts(s', x)
    {
      assert NodeCounts(s, x);
    }
  }

  lemma KeepHolders(s: DrvState, s': DrvState, t: nat, n: nat)
    requires Holders(s) && Moved(s, s', t, n) && s'.nodes[n].fds == s.nodes[n].fds
    requires s'.openLog == s.openLog && s'.closeLog == s.closeLog
    requires forall d, fd :: OpClaims(s'.ops[t], Holder(d, fd)) == OpClaims(s.ops[t], Holder(d, fd))
    ensures Holders(s')
  {
    DeltaOp(s, s', t, n);
    hide OpsTotal, NodesTotal, Total, OpClaims;
    forall d, fd
      ensures HandedOut(s', d, fd)
    {
      assert HandedOut(s, d, fd);
    }
  }

  lemma KeepFlags(s: DrvState, s': DrvState, t: nat, n: nat)
    requires Flags(s) && Moved(s, s', t, n) && s'.nodes[n].fds == s.nodes[n].fds
    requires s'.ops[t].pc != CloseFlagged
    ensures Flags(s')
  {
    DeltaOp(s, s', t, n);
    hide OpsTotal, NodesTotal, FlaggedIn;
    forall c, d, fd | 0 <= c < |s'.nodes|
      ensures FlagHeld(s', c, d, fd)
    {
      assert FlagHeld(s, c, d, fd);
      assert OpClaims(s'.ops[t], Flagged(c, d, fd)) == 0;
    }
  }

  /** No thread is still registering node n. */
  ghost predicate Published(s: DrvState, n: nat) { Total(s, Private(n)) == 0 }

  /** A listed node is registered by no thread any more. */
  lemma ListedIsPublished(s: DrvState, n: nat)
    requires Counts(s) && n < |s.nodes| && n in s.list
    ensures Published(s, n)
  {
    hide OpsTotal, NodesTotal;
    assert NodeCounts(s, n);
  }

  /** No thread but t is still registering node n. */
  ghost predicate Unshared(s: DrvState, t: nat, n: nat) {
    forall u :: 0 <= u < |s.ops| && u != t ==> OpClaims(s.ops[u], Private(n)) == 0
  }

  lemma KeepOps(s: DrvState, s': DrvState, t: nat, n: nat)
    requires OpsOk(s) && Moved(s, s', t, n) && Benign(s.nodes[n], s'.nodes[n])
    requires Published(s, n) || Unshared(s, t, n)
      || (s'.nodes[n].fds == s.nodes[n].fds && s'.nodes[n].refCnt == s.nodes[n].refCnt && s'.nodes[n].registered == s.nodes[n].registered)
    requires OpOk(s', t)
    ensures OpsOk(s')
  {
    forall u | 0 <= u < |s'.ops|
      ensures OpOk(s', u)
    {
      OpsTotalAtLeast(s.ops, u, Private(n));
      assert OpOk(s, u);
    }
  }

  lemma KeepNodes(s: DrvState, s': DrvState, t: nat, n: nat)
    requires NodesOk(s) && Moved(s, s', t, n) && Benign(s.nodes[n], s'.nodes[n])
    requires s'.indexes == s.indexes && NodeOk(s', n)
    ensures NodesOk(s')
  {
    forall x | 0 <= x < |s'.nodes|
      ensures NodeOk(s', x)
    {
      assert NodeOk(s, x);
      if x != n {
        assert s'.nodes[x] == s.nodes[x];
        forall i | 0 <= i < |s.nodes[x].fds|
          ensures EntryOk(s', s.nodes[x].fds[i])
        {
          assert EntryOk(s, s.nodes[x].fds[i]);
        }
      }
    }
  }

  lemma KeepList(s: DrvState, s': DrvState, t: nat, n: nat)
    requires ListOk(s) && IndexesOk(s) && Moved(s, s', t, n) && Benign(s.nodes[n], s'.nodes[n])
    requires s'.indexes == s.indexes && s'.list == s.list && s'.nodes[n].live == s.nodes[n].live
    ensures ListOk(s') && IndexesOk(s')
  {
  }

  /** NodeOk again after a change that touches neither the list nor the kind of node. */
  lemma NodeOkAgain(s: DrvState, s': DrvState, t: nat, n: nat)
    requires Moved(s, s', t, n) && NodeOk(s, n) && Benign(s.nodes[n], s'.nodes[n])
    requires s'.indexes == s.indexes && s'.nodes[n].fds == s.nodes[n].fds
    requires s'.nodes[n].registered ==> s.nodes[n].registered && s'.nodes[n].live && s'.nodes[n].state == Normal
    requires s'.nodes[n].target == Ta ==> s'.nodes[n].state in {Normal, Exit} && (s'.nodes[n].live ==> 1 <= s'.nodes[n].refCnt)
    requires s'.nodes[n].target == Drv ==> s'.nodes[n].state != Exit
    ensures NodeOk(s', n)
  {
    forall i | 0 <= i < |s.nodes[n].fds|
      ensures EntryOk(s', s.nodes[n].fds[i])
    {
      assert EntryOk(s, s.nodes[n].fds[i]);
    }
  }

  // ---- what a thread gains or loses by moving ----

  /** o' holds what o holds and w0 besides (close flags apart). */
  ghost predicate Gains(o: Op, o': Op, w0: Claim) {
    forall w: Claim :: !w.Flagged? ==> OpClaims(o', w) == OpClaims(o, w) + B(w == w0)
  }

  ghost predicate SameHoldings(o: Op, o': Op) {
    forall w: Claim :: !w.Flagged? ==> OpClaims(o', w) == OpClaims(o, w)
  }

  /** The same nodes and fd remembered, and the same references on them. */
  predicate SameRefs(o: Op, o': Op) {
    && o'.c == o.c && o'.d == o.d && o'.fd == o.fd
    && CallerRefs(o'.pc, o'.k) == CallerRefs(o.pc, o.k)
    && RefsDrv(o'.pc) == RefsDrv(o.pc) && HoldsFd(o'.pc) == HoldsFd(o.pc)
    && (o.pc != Registering && o.pc != OpenRegistering && o'.pc != Registering && o'.pc != OpenRegistering)
  }

  lemma SameWhen(o: Op, o': Op)
    requires SameRefs(o, o') && HoldsSlot(o'.pc) == HoldsSlot(o.pc)
    requires o.pc != OpenSpawning && o'.pc != OpenSpawning
    ensures SameHoldings(o, o')
  {
    hide CallerRefs, RefsDrv, HoldsSlot, HoldsFd;
  }

  lemma GainsSlotWhen(o: Op, o': Op)
    requires SameRefs(o, o') && !HoldsSlot(o.pc) && HoldsSlot(o'.pc)
    requires o.pc != OpenSpawning && o'.pc != OpenSpawning
    ensures Gains(o, o', Slot(o.c))
  {
    hide CallerRefs, RefsDrv, HoldsSlot, HoldsFd;
  }

  lemma GainsSpawnerWhen(o: Op, o': Op)
    requires SameRefs(o, o') && HoldsSlot(o'.pc) == HoldsSlot(o.pc)
    requires o.pc != OpenSpawning && o'.pc == OpenSpawning
    ensures Gains(o, o', Spawner(o.d))
  {
    hide CallerRefs, RefsDrv, HoldsSlot, HoldsFd;
  }

  /** A step that changes counters or the state of node n, and thread t accordingly. */
  lemma InvQuiet(s: DrvState, s': DrvState, t: nat, n: nat)
    requires Inv(s) && Moved(s, s', t, n) && Benign(s.nodes[n], s'.nodes[n])
    requires s' == s.(nodes := s'.nodes, ops := s'.ops) && s'.nodes[n].live == s.nodes[n].live
    requires s'.nodes[n].fds == s.nodes[n].fds && s'.nodes[n].fdCount <= TASK_FD_COUNT_MAX
    requires s'.nodes[n].registered == s.nodes[n].registered
    requires s'.nodes[n].state != s.nodes[n].state ==> s.nodes[n].target == Drv && s'.nodes[n].state != Exit
    requires s'.nodes[n].target == Ta && s'.nodes[n].live ==> 1 <= s'.nodes[n].refCnt
    requires Published(s, n) || s'.nodes[n].refCnt == s.nodes[n].refCnt
    requires OpOk(s', t) && s'.ops[t].pc != CloseFlagged
    requires forall w: Claim :: !w.Flagged? && w != Ref(n) && w != Slot(n) && w != Spawner(n) ==>
      OpClaims(s'.ops[t], w) == OpClaims(s.ops[t], w)
    requires if s.nodes[n].live
      then s'.nodes[n].refCnt + OpClaims(s.ops[t], Ref(n)) == s.nodes[n].refCnt + OpClaims(s'.ops[t], Ref(n))
      else OpClaims(s'.ops[t], Ref(n)) == OpClaims(s.ops[t], Ref(n))
    requires s'.nodes[n].fdCount + OpClaims(s.ops[t], Slot(n)) == s.nodes[n].fdCount + OpClaims(s'.ops[t], Slot(n))
    requires B(s'.nodes[n].state == Spawn) + OpClaims(s.ops[t], Spawner(n))
          == B(s.nodes[n].state == Spawn) + OpClaims(s'.ops[t], Spawner(n))
    ensures Inv(s')
  {
    hide OpsTotal, NodesTotal, OpClaims;
    assert NodeOk(s, n);
    KeepAccounting(s, s', t, n);
    KeepCounts(s, s', t, n);
    KeepHolders(s, s', t, n);
    KeepFlags(s, s', t, n);
    KeepOps(s, s', t, n);
    NodeOkAgain(s, s', t, n);
    KeepNodes(s, s', t, n);
    KeepList(s, s', t, n);
  }

  /** The thread moves; it holds what it held before, and no node changes. */
  lemma InvJump(s: DrvState, s': DrvState, t: nat)
    requires Inv(s) && t < |s.ops| == |s'.ops| && s' == SetOp(s, t, s'.ops[t])
    requires OpOk(s', t) && s'.ops[t].pc != CloseFlagged && s.ops[t].pc != Idle
    requires SameHoldings(s.ops[t], s'.ops[t])
    ensures Inv(s')
  {
    hide OpClaims;
    var n := s.ops[t].c;
    assert OpOk(s, t) && NodeOk(s, n) && NodeCounts(s, n);
    hide Inv;
    InvQuiet(s, s', t, n);
  }
}
