/** Driver manager: a close undoes an open, and an exit undoes all of a caller's opens. */
module DrvClosing {
  import opened Options
  import opened DrvTypes
  import opened DrvSteps
  import opened DrvInvariant
  import opened DrvPreserve
  import opened DrvRuns
  import opened DrvManager
  import opened DrvExit
  import opened DrvOutcomes
  import opened DrvUndo

  // ---- close ----

  /** Entry i is the caller's only entry with this fd, and nobody is closing it. */
  predicate IsOpenAt(fds: seq<FdEntry>, i: nat, fd: nat) {
    i < |fds| && fds[i].fd == fd && !fds[i].closing && forall j :: 0 <= j < |fds| && j != i ==> fds[j].fd != fd
  }

  function Cut(fds: seq<FdEntry>, i: nat): seq<FdEntry>
    requires i < |fds|
  {
    fds[..i] + fds[i + 1..]
  }

  lemma CloseStartIs(s: DrvState, t: nat, uuid: nat, pid: int, fd: nat, c: nat) returns (s': DrvState)
    requires Inv(s) && At(s, t, Idle) && IsCaller(s, c, uuid, pid) && s.nodes[c].refCnt < UINT32_MAX
    ensures Enabled(s, CloseStart(t, uuid, pid, fd)) && Disciplined(s, CloseStart(t, uuid, pid, fd))
    ensures Apply(s, CloseStart(t, uuid, pid, fd)) == s' && Inv(s')
    ensures var m := s.nodes[c];
      s' == s.(nodes := s.nodes[c := m.(refCnt := m.refCnt + 1, pid := PidAfter(m, pid))],
               ops := s.ops[t := Op(CloseHasCaller, c, 0, fd, 0, "")])
  {
    FindsCaller(s, c, uuid, pid);
    s' := Apply(s, CloseStart(t, uuid, pid, fd));
    InvApply(s, CloseStart(t, uuid, pid, fd));
    hide Inv, Find;
  }

  lemma {:induction false} ScanFinds(fds: seq<FdEntry>, fd: nat, i: nat, k: nat)
    requires IsOpenAt(fds, i, fd) && k <= i
    ensures ScanClose(fds, fd, k, None) == (fds[i := fds[i].(closing := true)], Some(i))
    decreases i - k
  {
    if k < i {
      ScanFinds(fds, fd, i, k + 1);
    } else {
      ScanSkips(fds[k := fds[k].(closing := true)], fd, k + 1, Some(k));
    }
  }

  lemma {:induction false} ScanMisses(fds: seq<FdEntry>, fd: nat, k: nat)
    requires k <= |fds| && forall j :: k <= j < |fds| && fds[j].fd == fd ==> fds[j].closing
    ensures ScanClose(fds, fd, k, None) == (fds, None)
    decreases |fds| - k
  {
    if k < |fds| && fds[k].fd != fd {
      ScanMisses(fds, fd, k + 1);
    }
  }

  lemma ClaimFdIs(s: DrvState, t: nat, i: nat) returns (s': DrvState)
    requires Inv(s) && At(s, t, CloseHasCaller) && IsOpenAt(s.nodes[s.ops[t].c].fds, i, s.ops[t].fd)
    ensures Enabled(s, CloseClaim(t)) && Disciplined(s, CloseClaim(t)) && Apply(s, CloseClaim(t)) == s' && Inv(s')
    ensures var o := s.ops[t];
      var m := s.nodes[o.c];
      s' == s.(nodes := s.nodes[o.c := m.(fds := m.fds[i := m.fds[i].(closing := true)])],
               ops := s.ops[t := o.(pc := CloseFlagged, d := m.fds[i].drv)])
  {
    ScanFinds(s.nodes[s.ops[t].c].fds, s.ops[t].fd, i, 0);
    s' := Apply(s, CloseClaim(t));
    InvApply(s, CloseClaim(t));
    hide Inv, ScanClose;
  }

  lemma {:induction false} OnlyIndex(fds: seq<FdEntry>, e: FdEntry, i: nat)
    requires i < |fds| && fds[i] == e && forall j :: 0 <= j < |fds| && j != i ==> fds[j].fd != e.fd
    ensures IndexOf(fds, e) == i
  {
    if i > 0 {
      OnlyIndex(fds[1..], e, i - 1);
    }
  }

  lemma DeleteIs(s: DrvState, t: nat, i: nat) returns (s': DrvState)
    requires Inv(s) && At(s, t, CloseFlagged) && i < |s.nodes[s.ops[t].c].fds|
    requires var fds := s.nodes[s.ops[t].c].fds;
      fds[i] == FdEntry(s.ops[t].fd, s.ops[t].d, true) && forall j :: 0 <= j < |fds| && j != i ==> fds[j].fd != fds[i].fd
    ensures Enabled(s, CloseDelete(t)) && Disciplined(s, CloseDelete(t)) && Apply(s, CloseDelete(t)) == s' && Inv(s')
    ensures s.nodes[s.ops[t].c].fdCount >= 1
    ensures var o := s.ops[t];
      var m := s.nodes[o.c];
      s' == s.(nodes := s.nodes[o.c := m.(fdCount := m.fdCount - 1, fds := Cut(m.fds, i))],
               ops := s.ops[t := o.(pc := CloseDeleted)])
  {
    var fds := s.nodes[s.ops[t].c].fds;
    OnlyIndex(fds, fds[i], i);
    EntriesAreCounted(s, s.ops[t].c);
    s' := Apply(s, CloseDelete(t));
    InvApply(s, CloseDelete(t));
    hide Inv, IndexOf;
  }

  lemma EntriesAreCounted(s: DrvState, c: nat)
    requires Inv(s) && c < |s.nodes|
    ensures s.nodes[c].fdCount >= |s.nodes[c].fds|
  {
    assert NodeCounts(s, c);
    NodesTotalSlots(s.nodes, 0, c);
  }

  /** The caller's entry i is closed: it is off the list, its driver was told, and what it held is given back. */
  ghost predicate Closed(s: DrvState, s': DrvState, t: nat, c: nat, i: nat, pid: int) {
    && t < |s.ops| && c < |s.nodes| && i < |s.nodes[c].fds| && |s'.nodes| == |s.nodes|
    && var e := s.nodes[c].fds[i];
    && e.drv < |s.nodes| && s.nodes[e.drv].refCnt >= 1 && s.nodes[c].refCnt >= 1 + B(c == e.drv) && s.nodes[c].fdCount >= 1
    && s' == s.(nodes := s'.nodes, ops := s.ops[t := IDLE], closeLog := s.closeLog + multiset{(e.drv, e.fd)},
                list := if Frees(s.nodes[c], 1) then Without(s.list, c) else s.list)
    && forall n :: 0 <= n < |s.nodes| ==> s'.nodes[n] == s.nodes[n].(
         refCnt := s.nodes[n].refCnt - B(n == c) - B(n == e.drv), fdCount := s.nodes[n].fdCount - B(n == c),
         fds := if n == c then Cut(s.nodes[c].fds, i) else s.nodes[n].fds,
         pid := if n == c then PidAfter(s.nodes[c], pid) else s.nodes[n].pid,
         live := if n == c then !Frees(s.nodes[c], 1) else s.nodes[n].live)
  }

  function CloseActs(t: nat, uuid: nat, pid: int, fd: nat): seq<Action> {
    [CloseStart(t, uuid, pid, fd)] + [CloseClaim(t)] + [CloseDelete(t)] + ([CallClose(t)] + [PutDrv(t)] + [PutCallerNode(t)])
  }

  /** The first half of a close: the entry is claimed and leaves the list. */
  lemma CloseTakesEntry(s: DrvState, t: nat, uuid: nat, pid: int, fd: nat, c: nat, i: nat) returns (s': DrvState)
    requires Inv(s) && At(s, t, Idle) && IsCaller(s, c, uuid, pid) && s.nodes[c].refCnt < UINT32_MAX
    requires IsOpenAt(s.nodes[c].fds, i, fd)
    ensures var acts := [CloseStart(t, uuid, pid, fd)] + [CloseClaim(t)] + [CloseDelete(t)];
      IsRun(s, acts) && DisciplinedRun(s, acts) && After(s, acts) == s' && Inv(s') && At(s', t, CloseDeleted)
    ensures var m := s.nodes[c];
      && m.fdCount >= 1
      && s' == s.(nodes := s.nodes[c := m.(refCnt := m.refCnt + 1, pid := PidAfter(m, pid), fdCount := m.fdCount - 1,
                                           fds := Cut(m.fds, i))],
                  ops := s.ops[t := Op(CloseDeleted, c, m.fds[i].drv, fd, 0, "")])
  {
    hide Enabled, Apply, Disciplined, IsRun, DisciplinedRun, After, Inv, PidAfter, Cut;
    var s1 := CloseStartIs(s, t, uuid, pid, fd, c);
    OneStep(s, CloseStart(t, uuid, pid, fd), s1);
    var s2 := ClaimFdIs(s1, t, i);
    AddStep(s, [CloseStart(t, uuid, pid, fd)], CloseClaim(t), s2);
    s' := DeleteIs(s2, t, i);
    AddStep(s, [CloseStart(t, uuid, pid, fd)] + [CloseClaim(t)], CloseDelete(t), s');
    CutFlagged(s.nodes[c].fds, i);
    ThreadIsThere(s', t);
  }

  lemma ThreadIsThere(s: DrvState, t: nat)
    requires Inv(s) && t < |s.ops|
    ensures ThreadAt(s, t)
  {
    assert OpOk(s, t);
  }

  lemma CutFlagged(fds: seq<FdEntry>, i: nat)
    requires i < |fds|
    ensures Cut(fds[i := fds[i].(closing := true)], i) == Cut(fds, i)
  {
  }

  /** The second half: the driver is told, and both nodes get their references back. */
  ghost predicate GaveBack(s: DrvState, s': DrvState, t: nat) {
    && t < |s.ops| && s.ops[t].c < |s.nodes| && s.ops[t].d < |s.nodes|
    && var c, d := s.ops[t].c, s.ops[t].d;
    && s.nodes[d].target == Drv && s.nodes[d].refCnt >= 1 && s.nodes[c].live && s.nodes[c].refCnt >= 2 + B(c == d)
    && s' == s.(nodes := s'.nodes, list := if Frees(s.nodes[c], 2) then Without(s.list, c) else s.list,
                ops := s.ops[t := IDLE], closeLog := s.closeLog + multiset{(d, s.ops[t].fd)})
    && |s'.nodes| == |s.nodes|
    && forall n :: 0 <= n < |s.nodes| ==> s'.nodes[n] == s.nodes[n].(
         refCnt := s.nodes[n].refCnt - (if n == c then 2 else 0) - B(n == d),
         live := if n == c then !Frees(s.nodes[c], 2) else s.nodes[n].live)
  }

  lemma CloseGivesBack(s: DrvState, t: nat) returns (s': DrvState)
    requires Inv(s) && At(s, t, CloseDeleted)
    ensures var acts := [CallClose(t)] + [PutDrv(t)] + [PutCallerNode(t)];
      IsRun(s, acts) && DisciplinedRun(s, acts) && After(s, acts) == s'
    ensures GaveBack(s, s', t)
  {
    hide Enabled, Apply, Disciplined, IsRun, DisciplinedRun, After, Inv, Without, Frees, GaveBack;
    var s2 := CloseTells(s, t);
    s' := PutCallerIs(s2, t);
    AddStep(s, [CallClose(t)] + [PutDrv(t)], PutCallerNode(t), s');
    ThenGaveBack(s, s2, s', t);
  }

  /** The driver is told and gets its reference back. */
  lemma CloseTells(s: DrvState, t: nat) returns (s': DrvState)
    requires Inv(s) && At(s, t, CloseDeleted)
    ensures IsRun(s, [CallClose(t)] + [PutDrv(t)]) && DisciplinedRun(s, [CallClose(t)] + [PutDrv(t)])
    ensures After(s, [CallClose(t)] + [PutDrv(t)]) == s' && Inv(s') && At(s', t, PutCaller)
    ensures var o := s.ops[t];
      && s.nodes[o.d].target == Drv && s.nodes[o.d].refCnt >= 1
      && s' == s.(nodes := s.nodes[o.d := s.nodes[o.d].(refCnt := s.nodes[o.d].refCnt - 1)],
                  ops := s.ops[t := o.(pc := PutCaller, k := 2)], closeLog := s.closeLog + multiset{(o.d, o.fd)})
  {
    hide Enabled, Apply, Disciplined, IsRun, DisciplinedRun, After, Inv;
    HeldIsCounted(s, t);
    var s1 := CloseCallIs(s, t);
    OneStep(s, CallClose(t), s1);
    s' := PutDrvIs(s1, t);
    AddStep(s, [CallClose(t)], PutDrv(t), s');
  }

  lemma ThenGaveBack(s: DrvState, s2: DrvState, s': DrvState, t: nat)
    requires t < |s.ops| && s.ops[t].c < |s.nodes| && s.ops[t].d < |s.nodes|
    requires var d := s.ops[t].d;
      && s.nodes[d].target == Drv && s.nodes[d].refCnt >= 1 && |s2.ops| == |s.ops| && s2.ops == s.ops[t := s2.ops[t]]
      && s2 == s.(nodes := s.nodes[d := s.nodes[d].(refCnt := s.nodes[d].refCnt - 1)], ops := s2.ops,
                  closeLog := s.closeLog + multiset{(d, s.ops[t].fd)})
    requires var c := s.ops[t].c;
      && s2.nodes[c].refCnt >= 2 && s2.nodes[c].live
      && s' == s2.(nodes := s2.nodes[c := s2.nodes[c].(refCnt := s2.nodes[c].refCnt - 2, live := !Frees(s2.nodes[c], 2))],
                   list := if Frees(s2.nodes[c], 2) then Without(s2.list, c) else s2.list, ops := s2.ops[t := IDLE])
    ensures GaveBack(s, s', t)
  {
    hide Without;
    assert s'.ops == s.ops[t := IDLE];
    assert Frees(s2.nodes[s.ops[t].c], 2) <==> Frees(s.nodes[s.ops[t].c], 2);
  }

  /**
    A whole close, in any state: the entry with that fd leaves the caller's list, its own driver
    is told once, both nodes lose one reference and the caller one unit; nothing else changes,
    except that a node without references is freed.
   */
  lemma CloseSucceeds(s: DrvState, t: nat, uuid: nat, pid: int, fd: nat, c: nat, i: nat)
    requires Inv(s) && At(s, t, Idle) && IsCaller(s, c, uuid, pid) && s.nodes[c].refCnt < UINT32_MAX
    requires IsOpenAt(s.nodes[c].fds, i, fd)
    ensures var acts := CloseActs(t, uuid, pid, fd);
      IsRun(s, acts) && DisciplinedRun(s, acts) && Closed(s, After(s, acts), t, c, i, pid)
  {
    hide Enabled, Apply, Disciplined, IsRun, DisciplinedRun, After, Inv, Closed, GaveBack, Without, Frees, PidAfter, Cut;
    ListedIsLive(s, c);
    var s1 := CloseTakesEntry(s, t, uuid, pid, fd, c, i);
    var s2 := CloseGivesBack(s1, t);
    RunConcat(s, [CloseStart(t, uuid, pid, fd)] + [CloseClaim(t)] + [CloseDelete(t)],
              [CallClose(t)] + [PutDrv(t)] + [PutCallerNode(t)]);
    ThenClosed(s, s1, s2, t, c, i, pid);
  }

  lemma ThenClosed(s: DrvState, s1: DrvState, s2: DrvState, t: nat, c: nat, i: nat, pid: int)
    requires t < |s.ops| && c < |s.nodes| && i < |s.nodes[c].fds| && s.nodes[c].live && s.nodes[c].fdCount >= 1
    requires var m := s.nodes[c];
      && s1 == s.(nodes := s.nodes[c := m.(refCnt := m.refCnt + 1, pid := PidAfter(m, pid), fdCount := m.fdCount - 1,
                                           fds := Cut(m.fds, i))],
                  ops := s.ops[t := Op(CloseDeleted, c, m.fds[i].drv, m.fds[i].fd, 0, "")])
    requires GaveBack(s1, s2, t)
    ensures Closed(s, s2, t, c, i, pid)
  {
    hide Without, PidAfter, Cut;
    assert s1.ops[t := IDLE] == s.ops[t := IDLE];
    assert Frees(s1.nodes[c], 2) <==> Frees(s.nodes[c], 1);
  }

  lemma MissIs(s: DrvState, t: nat) returns (s': DrvState)
    requires Inv(s) && At(s, t, CloseHasCaller)
    requires var fds := s.nodes[s.ops[t].c].fds;
      forall j :: 0 <= j < |fds| && fds[j].fd == s.ops[t].fd ==> fds[j].closing
    ensures Enabled(s, CloseClaim(t)) && Disciplined(s, CloseClaim(t)) && Apply(s, CloseClaim(t)) == s' && Inv(s')
    ensures s' == s.(ops := s.ops[t := s.ops[t].(pc := PutCaller, k := 1)])
  {
    var c := s.ops[t].c;
    ScanMisses(s.nodes[c].fds, s.ops[t].fd, 0);
    assert s.nodes[c := s.nodes[c].(fds := s.nodes[c].fds)] == s.nodes;
    s' := Apply(s, CloseClaim(t));
    InvApply(s, CloseClaim(t));
    hide Inv, ScanClose;
  }

  /** A close of an fd that the caller does not have, or that is being closed already, changes nothing. */
  lemma CloseMisses(s: DrvState, t: nat, uuid: nat, pid: int, fd: nat, c: nat)
    requires Inv(s) && At(s, t, Idle) && IsCaller(s, c, uuid, pid) && s.nodes[c].refCnt < UINT32_MAX
    requires forall j :: 0 <= j < |s.nodes[c].fds| && s.nodes[c].fds[j].fd == fd ==> s.nodes[c].fds[j].closing
    ensures var acts := [CloseStart(t, uuid, pid, fd)] + [CloseClaim(t)] + [PutCallerNode(t)];
      IsRun(s, acts) && DisciplinedRun(s, acts) && LeftNothing(s, After(s, acts), t, c, pid)
  {
    hide Enabled, Apply, Disciplined, IsRun, DisciplinedRun, After, Inv, Without, LeftNothing, Frees, PidAfter;
    ListedIsLive(s, c);
    var s1 := CloseStartIs(s, t, uuid, pid, fd, c);
    OneStep(s, CloseStart(t, uuid, pid, fd), s1);
    var s2 := MissIs(s1, t);
    AddStep(s, [CloseStart(t, uuid, pid, fd)], CloseClaim(t), s2);
    var s3 := PutCallerIs(s2, t);
    AddStep(s, [CloseStart(t, uuid, pid, fd)] + [CloseClaim(t)], PutCallerNode(t), s3);
    CallerAsBefore(s, s1, s2, s3, t, c, pid);
  }

  // ---- open, then close ----

  /** An entry that carries a driver's index is an open descriptor of that driver. */
  lemma EntryIsHeld(s: DrvState, c: nat, j: nat, d: nat)
    requires Inv(s) && c < |s.nodes| && j < |s.nodes[c].fds| && d < |s.nodes| && s.nodes[d].live && s.nodes[d].target == Drv
    requires FdOfDriver(s.nodes[c].fds[j].fd, s.nodes[d])
    ensures var h := (d, s.nodes[c].fds[j].fd);
      s.openLog[h] > s.closeLog[h]
  {
    EntryRefsLive(s, c, j);
    var e := s.nodes[c].fds[j];
    assert NodeOk(s, c) && EntryOk(s, e) && HandedOut(s, d, e.fd);
    SameFdSameIndex(e.fd, s.nodes[e.drv], s.nodes[d]);
    SameDriver(s, e.drv, d);
    EntryHolds(s, c, j);
  }

  /** So a descriptor that the driver may hand out is in nobody's list. */
  lemma HandOutIsNew(s: DrvState, c: nat, d: nat, local: nat)
    requires Inv(s) && c < |s.nodes| && d < |s.nodes| && s.nodes[d].live && s.nodes[d].target == Drv && MayHandOut(s, d, local)
    ensures forall j :: 0 <= j < |s.nodes[c].fds| ==> s.nodes[c].fds[j].fd != s.nodes[d].drvIndex * FD_INDEX_UNIT + local
  {
    var fd := s.nodes[d].drvIndex * FD_INDEX_UNIT + local;
    assert FdOfDriver(fd, s.nodes[d]);
    hide Inv;
    forall j | 0 <= j < |s.nodes[c].fds| ensures s.nodes[c].fds[j].fd != fd {
      if s.nodes[c].fds[j].fd == fd {
        EntryIsHeld(s, c, j, d);
      }
    }
  }

  lemma SameDriver(s: DrvState, d: nat, e: nat)
    requires IndexesOk(s) && d < |s.nodes| && e < |s.nodes| && SameIndex(s.nodes[d], s.nodes[e])
    ensures d == e
  {
    assert SameIndex(s.nodes[e], s.nodes[d]);
  }

  lemma EntryHolds(s: DrvState, c: nat, j: nat)
    requires c < |s.nodes| && j < |s.nodes[c].fds|
    ensures Total(s, Holder(s.nodes[c].fds[j].drv, s.nodes[c].fds[j].fd)) >= 1
  {
    var e := s.nodes[c].fds[j];
    FdsTotalRemove(c, s.nodes[c].fds, j, Holder(e.drv, e.fd));
    NodesTotalAtLeast(s.nodes, 0, c, Holder(e.drv, e.fd));
  }

  /** Everything is as it was, but for the two logs and the pid that a caller's node adopts. */
  ghost predicate Undone(s: DrvState, s': DrvState, t: nat, c: nat, d: nat, fd: nat, pid: int) {
    && t < |s.ops| && c < |s.nodes|
    && s' == s.(nodes := s.nodes[c := s.nodes[c].(pid := PidAfter(s.nodes[c], pid))], ops := s.ops[t := IDLE],
                openLog := s.openLog + multiset{(d, fd)}, closeLog := s.closeLog + multiset{(d, fd)})
  }

  /** Opening a driver and closing the descriptor again undoes everything. */
  lemma CloseUndoesOpen(s: DrvState, t: nat, uuid: nat, pid: int, name: string, c: nat, d: nat, local: nat)
    returns (s1: DrvState, s2: DrvState)
    requires Inv(s) && At(s, t, Idle) && IsCaller(s, c, uuid, pid) && name != "" && IsDriver(s, d, name) && Room(s, c, d)
    requires s.nodes[d].state == Normal && MayHandOut(s, d, local) && s.nodes[c].refCnt + 1 + B(c == d) < UINT32_MAX
    ensures var acts := OpenActs(t, uuid, pid, name, local);
      IsRun(s, acts) && DisciplinedRun(s, acts) && After(s, acts) == s1
    ensures var acts := CloseActs(t, uuid, pid, s.nodes[d].drvIndex * FD_INDEX_UNIT + local);
      IsRun(s1, acts) && DisciplinedRun(s1, acts) && After(s1, acts) == s2
    ensures Undone(s, s2, t, c, d, s.nodes[d].drvIndex * FD_INDEX_UNIT + local, pid)
  {
    hide Enabled, Apply, Disciplined, IsRun, DisciplinedRun, After, Inv, Closed, Opened, Undone, OpenActs, CloseActs, MayHandOut;
    var fd := s.nodes[d].drvIndex * FD_INDEX_UNIT + local;
    ListedIsLive(s, d);
    ListedIsLive(s, c);
    HandOutIsNew(s, c, d, local);
    OpenSucceeds(s, t, uuid, pid, name, c, d, local);
    var opening, closing := OpenActs(t, uuid, pid, name, local), CloseActs(t, uuid, pid, fd);
    s1 := After(s, opening);
    RunInv(s, opening);
    OpenedThere(s, s1, t, c, d, fd, pid, uuid);
    CloseSucceeds(s1, t, uuid, pid, fd, c, |s.nodes[c].fds|);
    s2 := After(s1, closing);
    ThenUndone(s, s1, s2, t, c, d, fd, pid);
  }

  lemma OpenedThere(s: DrvState, s1: DrvState, t: nat, c: nat, d: nat, fd: nat, pid: int, uuid: nat)
    requires IsCaller(s, c, uuid, pid) && d < |s.nodes| && Opened(s, s1, t, c, d, fd, pid)
    requires s.nodes[c].refCnt + 1 + B(c == d) < UINT32_MAX
    requires forall j :: 0 <= j < |s.nodes[c].fds| ==> s.nodes[c].fds[j].fd != fd
    ensures At(s1, t, Idle) && IsCaller(s1, c, uuid, pid) && s1.nodes[c].refCnt < UINT32_MAX
    ensures IsOpenAt(s1.nodes[c].fds, |s.nodes[c].fds|, fd)
  {
  }

  lemma ThenUndone(s: DrvState, s1: DrvState, s2: DrvState, t: nat, c: nat, d: nat, fd: nat, pid: int)
    requires c < |s.nodes| && d < |s.nodes| && s.nodes[c].live && (s.nodes[c].target == Ta ==> s.nodes[c].refCnt >= 1)
    requires Opened(s, s1, t, c, d, fd, pid) && Closed(s1, s2, t, c, |s.nodes[c].fds|, pid)
    ensures Undone(s, s2, t, c, d, fd, pid)
  {
    var fds := s.nodes[c].fds;
    assert s1.nodes[c].fds[|fds|] == FdEntry(fd, d, false);
    assert Cut(fds + [FdEntry(fd, d, false)], |fds|) == fds;
    assert s1.ops[t := IDLE] == s.ops[t := IDLE];
    hide Without;
    forall n | 0 <= n < |s.nodes|
      ensures s2.nodes[n] == s.nodes[c := s.nodes[c].(pid := PidAfter(s.nodes[c], pid))][n]
    {
    }
  }
}
