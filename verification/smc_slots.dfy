/**
  SMC command slots (framework/gtask): the scanner that takes commands out of memory shared with
  the normal world, and the private bitmap that keeps it honest.
 */
module SmcSlots {
  import opened Options

  const MAX_SMC_CMD: nat := 18
  const CMD_TYPE_GLOBAL: nat := 0
  const GLOBAL_CMD_ID_KILL_TASK: nat := 0x10

  datatype SmcCmd = SmcCmd(cmdType: nat, cmdId: nat, eventNr: nat, body: seq<nat>)

  predicate IsAbort(cmd: SmcCmd) { cmd.cmdType == CMD_TYPE_GLOBAL && cmd.cmdId == GLOBAL_CMD_ID_KILL_TASK }

  /** What the normal world can write at any time. */
  datatype Shared = Shared(
    inBits: seq<bool>, doing: seq<bool>, outBits: seq<bool>, inCmds: seq<SmcCmd>, outCmds: seq<SmcCmd>)
  {
    ghost predicate Valid() {
      |inBits| == |doing| == |outBits| == |inCmds| == |outCmds| == MAX_SMC_CMD
    }
  }

  /** The shared memory, plus the scanner's own `last_index` and `cmd_doing_bitmap`. */
  datatype Slots = Slots(mem: Shared, last: nat, busy: seq<bool>)
  {
    ghost predicate Valid() {
      mem.Valid() && |busy| == MAX_SMC_CMD && 1 <= last <= MAX_SMC_CMD
    }
  }

  // ---- what a scan is meant to do ----

  /** The slot `k` steps after `last` in cyclic order. */
  function Slot(last: nat, k: nat): (j: nat)
    requires 1 <= last <= MAX_SMC_CMD && k < MAX_SMC_CMD
    ensures j < MAX_SMC_CMD && Distance(last, j) == k
  {
    if last + k < MAX_SMC_CMD then last + k else last + k - MAX_SMC_CMD
  }

  /** Steps from `last` to slot j in cyclic order. */
  function Distance(last: nat, j: nat): (k: nat)
    requires 1 <= last <= MAX_SMC_CMD && j < MAX_SMC_CMD
    ensures k < MAX_SMC_CMD
  {
    if last <= j then j - last else j + MAX_SMC_CMD - last
  }

  predicate Pending(s: Slots, j: nat)
    requires s.Valid() && j < MAX_SMC_CMD
  {
    s.mem.inBits[j] && !s.mem.doing[j]
  }

  /** A command that may be handed to the framework: well-formed, and new unless it is an abort. */
  predicate Deliverable(s: Slots, j: nat)
    requires s.Valid() && j < MAX_SMC_CMD
  {
    Pending(s, j) && s.mem.inCmds[j].eventNr == j && (s.busy[j] ==> IsAbort(s.mem.inCmds[j]))
  }

  /** Steps to the nearest deliverable slot that is at least k steps away; 18 when there is none. */
  function Nearest(s: Slots, k: nat): (r: nat)
    requires s.Valid() && k <= MAX_SMC_CMD
    ensures k <= r <= MAX_SMC_CMD
    ensures r < MAX_SMC_CMD ==> Deliverable(s, Slot(s.last, r))
    ensures forall j :: 0 <= j < MAX_SMC_CMD && k <= Distance(s.last, j) < r ==> !Deliverable(s, j)
    decreases MAX_SMC_CMD - k
  {
    if k == MAX_SMC_CMD || Deliverable(s, Slot(s.last, k)) then k else Nearest(s, k + 1)
  }

  /**
    A pending slot right at `last_index` that must be skipped ends the scan at once: the loop's
    `continue` goes straight to the test against `last_index`.
   */
  predicate StopsEarly(s: Slots)
    requires s.Valid()
  {
    s.last < MAX_SMC_CMD && Pending(s, s.last) && !Deliverable(s, s.last)
  }

  /** The doing bits after a scan that went k steps far. */
  function Marked(s: Slots, k: nat): (r: seq<bool>)
    requires s.Valid()
    ensures |r| == MAX_SMC_CMD
  {
    seq(MAX_SMC_CMD, j requires 0 <= j < MAX_SMC_CMD =>
      s.mem.doing[j] || (s.mem.inBits[j] && Distance(s.last, j) <= k))
  }

  /** get_last_in_cmd */
  function Get(s: Slots): (r: (Slots, Option<SmcCmd>))
    requires s.Valid()
    ensures r.0.Valid()
  {
    if StopsEarly(s) then (s.(mem := s.mem.(doing := s.mem.doing[s.last := true])), None)
    else
      var k := Nearest(s, 0);
      var s' := s.(mem := s.mem.(doing := Marked(s, k)));
      if k == MAX_SMC_CMD then (s', None)
      else
        var j := Slot(s.last, k);
        var cmd := s.mem.inCmds[j];
        (s'.(last := j + 1, busy := if IsAbort(cmd) then s.busy else s.busy[j := true]), Some(cmd))
  }

  /** put_last_out_cmd */
  function Put(s: Slots, cmd: SmcCmd): (r: Slots)
    requires s.Valid()
    ensures r.Valid()
  {
    if cmd.eventNr >= MAX_SMC_CMD then s
    else Slots(
      s.mem.(outBits := s.mem.outBits[cmd.eventNr := true], outCmds := s.mem.outCmds[cmd.eventNr := cmd]),
      s.last, s.busy[cmd.eventNr := false])
  }

  /** is_cmd_in_unproceed */
  ghost predicate Unproceeded(s: Slots)
    requires s.Valid()
  {
    exists j :: 0 <= j < MAX_SMC_CMD && Pending(s, j)
  }

  // ---- how far the loop has come ----

  datatype Verdict = Passed | Skipped | Taken(cmd: SmcCmd)

  function Judge(s: Slots, j: nat): Verdict
    requires s.Valid() && j < MAX_SMC_CMD
  {
    if !Pending(s, j) then Passed
    else if Deliverable(s, j) then Taken(s.mem.inCmds[j])
    else Skipped
  }

  function Mark(s: Slots, j: nat): Slots
    requires s.Valid() && j < MAX_SMC_CMD
  {
    s.(mem := s.mem.(doing := s.mem.doing[j := true]))
  }

  function Take(s: Slots, j: nat): Slots
    requires s.Valid() && j < MAX_SMC_CMD
  {
    Slots(s.mem.(doing := s.mem.doing[j := true]), j + 1,
          if IsAbort(s.mem.inCmds[j]) then s.busy else s.busy[j := true])
  }

  predicate Reached(s: Slots, j: nat, k: nat, skipped: bool)
    requires s.Valid() && j < MAX_SMC_CMD
  {
    s.mem.inBits[j] && Distance(s.last, j) < k + (if skipped then 1 else 0)
  }

  /** k slots are passed without a delivery, and the next one may have been skipped already. */
  ghost predicate Scanned(s: Slots, now: Slots, k: nat, skipped: bool)
    requires s.Valid() && k <= MAX_SMC_CMD
  {
    && now.Valid() && now == s.(mem := s.mem.(doing := now.mem.doing))
    && (skipped ==> k < MAX_SMC_CMD && Pending(s, Slot(s.last, k)) && !Deliverable(s, Slot(s.last, k)))
    && (forall j :: 0 <= j < MAX_SMC_CMD && Distance(s.last, j) < k ==> !Deliverable(s, j))
    && (1 <= k ==> !StopsEarly(s))
    && (forall j :: 0 <= j < MAX_SMC_CMD ==> now.mem.doing[j] == (s.mem.doing[j] || Reached(s, j, k, skipped)))
  }

  lemma ScanStarts(s: Slots)
    requires s.Valid()
    ensures Scanned(s, s, 0, false)
  {
  }

  lemma ScanExamines(s: Slots, now: Slots, k: nat, skipped: bool)
    requires s.Valid() && k < MAX_SMC_CMD && Scanned(s, now, k, skipped)
    requires !(k == 0 && skipped && s.last < MAX_SMC_CMD)
    ensures var j := Slot(s.last, k);
      match Judge(now, j)
      case Passed => Scanned(s, now, k + 1, false)
      case Skipped => !skipped && Scanned(s, Mark(now, j), k, true)
      case Taken(cmd) => Get(s) == (Take(now, j), Some(cmd))
  {
    DistanceInjective(s.last);
    match Judge(now, Slot(s.last, k))
    case Passed => ScanPasses(s, now, k, skipped);
    case Skipped =>
    case Taken(_) => ScanFinds(s, now, k, skipped);
  }

  lemma ScanPasses(s: Slots, now: Slots, k: nat, skipped: bool)
    requires s.Valid() && k < MAX_SMC_CMD && Scanned(s, now, k, skipped) && !Pending(now, Slot(s.last, k))
    requires !(k == 0 && skipped && s.last < MAX_SMC_CMD)
    ensures Scanned(s, now, k + 1, false)
  {
    DistanceInjective(s.last);
  }

  lemma ScanFinds(s: Slots, now: Slots, k: nat, skipped: bool)
    requires s.Valid() && k < MAX_SMC_CMD && Scanned(s, now, k, skipped) && Deliverable(now, Slot(s.last, k))
    ensures var j := Slot(s.last, k);
      Get(s) == (Take(now, j), Some(now.mem.inCmds[j]))
  {
    NearestIs(s, k);
    assert !StopsEarly(s);
    MarkedIs(s, now, k, skipped);
    hide Nearest, Marked, Scanned, StopsEarly, Deliverable;
  }

  lemma MarkedIs(s: Slots, now: Slots, k: nat, skipped: bool)
    requires s.Valid() && k < MAX_SMC_CMD && Scanned(s, now, k, skipped) && Pending(now, Slot(s.last, k))
    ensures now.mem.doing[Slot(s.last, k) := true] == Marked(s, k)
  {
    DistanceInjective(s.last);
  }

  lemma NearestIs(s: Slots, k: nat)
    requires s.Valid() && k < MAX_SMC_CMD && Deliverable(s, Slot(s.last, k))
    requires forall j :: 0 <= j < MAX_SMC_CMD && Distance(s.last, j) < k ==> !Deliverable(s, j)
    ensures Nearest(s, 0) == k
  {
    var r := Nearest(s, 0);
    assert Distance(s.last, Slot(s.last, r)) == r || r == MAX_SMC_CMD;
    assert Distance(s.last, Slot(s.last, k)) == k;
  }

  lemma ScanEnds(s: Slots, now: Slots, k: nat, skipped: bool)
    requires s.Valid() && k <= MAX_SMC_CMD && Scanned(s, now, k, skipped)
    requires k == MAX_SMC_CMD || (k == 0 && skipped && s.last < MAX_SMC_CMD)
    ensures Get(s) == (now, None)
  {
    if k == MAX_SMC_CMD {
      assert Nearest(s, 0) == MAX_SMC_CMD;
      assert now.mem.doing == Marked(s, k);
    } else {
      DistanceInjective(s.last);
      assert Slot(s.last, 0) == s.last;
      assert now.mem.doing == s.mem.doing[s.last := true];
    }
  }

  lemma DistanceInjective(last: nat)
    requires 1 <= last <= MAX_SMC_CMD
    ensures forall i, j :: 0 <= i < MAX_SMC_CMD && 0 <= j < MAX_SMC_CMD && Distance(last, i) == Distance(last, j) ==> i == j
  {
  }

  // ---- the code ----

  class SmcScanner {
    const inBits: array<bool>
    const doing: array<bool>
    const outBits: array<bool>
    const inCmds: array<SmcCmd>
    const outCmds: array<SmcCmd>
    const busy: array<bool>
    var lastIndex: nat

    ghost predicate Valid()
      reads this
    {
      && inBits.Length == doing.Length == outBits.Length == busy.Length == MAX_SMC_CMD
      && inCmds.Length == outCmds.Length == MAX_SMC_CMD
      && inBits != doing && inBits != outBits && inBits != busy && doing != outBits && doing != busy
      && outBits != busy && inCmds != outCmds
      && 1 <= lastIndex <= MAX_SMC_CMD
    }

    ghost function State(): (s: Slots)
      requires Valid()
      reads this, inBits, doing, outBits, inCmds, outCmds, busy
      ensures s.Valid()
    {
      Slots(Shared(inBits[..], doing[..], outBits[..], inCmds[..], outCmds[..]), lastIndex, busy[..])
    }

    /** gtask starts with last_index == MAX_SMC_CMD and nothing in progress. */
    constructor (cmd: SmcCmd)
      ensures Valid() && lastIndex == MAX_SMC_CMD
      ensures fresh(inBits) && fresh(doing) && fresh(outBits) && fresh(busy) && fresh(inCmds) && fresh(outCmds)
      ensures State().busy == seq(MAX_SMC_CMD, _ => false)
    {
      inBits := new bool[MAX_SMC_CMD](_ => false);
      doing := new bool[MAX_SMC_CMD](_ => false);
      outBits := new bool[MAX_SMC_CMD](_ => false);
      inCmds := new SmcCmd[MAX_SMC_CMD](_ => cmd);
      outCmds := new SmcCmd[MAX_SMC_CMD](_ => cmd);
      busy := new bool[MAX_SMC_CMD](_ => false);
      lastIndex := MAX_SMC_CMD;
    }

    /** The body of the scan for one slot. */
    method Examine(i: nat) returns (v: Verdict)
      requires Valid() && i < MAX_SMC_CMD
      modifies doing, busy, this`lastIndex
      ensures Valid() && v == Judge(old(State()), i)
      ensures State() == match v
        case Passed => old(State())
        case Skipped => Mark(old(State()), i)
        case Taken(_) => Take(old(State()), i)
    {
      if inBits[i] && !doing[i] {
        if busy[i] && !IsAbort(inCmds[i]) {
          doing[i] := true;
          return Skipped;
        }
        var cmd := inCmds[i];
        if cmd.eventNr != i {
          doing[i] := true;
          return Skipped;
        }
        doing[i] := true;
        if !IsAbort(inCmds[i]) {
          busy[i] := true;
        }
        lastIndex := i + 1;
        return Taken(cmd);
      }
      return Passed;
    }

    method GetLastInCmd() returns (r: Option<SmcCmd>)
      requires Valid()
      modifies doing, busy, this`lastIndex
      ensures Valid()
      ensures (State(), r) == Get(old(State()))
    {
      ghost var s := State();
      ghost var k, skipped := 0, false;
      var i := lastIndex;
      var first := true;
      ScanStarts(s);
      hide Scanned, Get, Deliverable, Judge, Mark, Take;
      while first || i != lastIndex
        invariant Valid() && k <= MAX_SMC_CMD && 0 <= i <= MAX_SMC_CMD && lastIndex == s.last
        invariant first ==> k == 0 && i == lastIndex && !skipped
        invariant k < MAX_SMC_CMD ==> (if i == MAX_SMC_CMD then 0 else i) == Slot(s.last, k)
        invariant !first ==> (i == s.last <==> k == MAX_SMC_CMD || (k == 0 && skipped && s.last < MAX_SMC_CMD))
        invariant Scanned(s, State(), k, skipped)
        decreases MAX_SMC_CMD - k, !skipped
      {
        first := false;
        if i == MAX_SMC_CMD {
          i := 0;
        }
        ScanExamines(s, State(), k, skipped);
        var v := Examine(i);
        match v {
          case Taken(cmd) => return Some(cmd);
          case Skipped => skipped := true;
          case Passed => i, k, skipped := i + 1, k + 1, false;
        }
      }
      ScanEnds(s, State(), k, skipped);
      return None;
    }

    method PutLastOutCmd(cmd: SmcCmd) returns (ok: bool)
      requires Valid()
      modifies outBits, outCmds, busy
      ensures Valid() && State() == Put(old(State()), cmd) && ok == (cmd.eventNr < MAX_SMC_CMD)
      ensures !ok ==> State() == old(State())
      ensures ok ==> outCmds[cmd.eventNr] == cmd && outBits[cmd.eventNr] && !busy[cmd.eventNr]
      ensures forall j :: 0 <= j < MAX_SMC_CMD && j != cmd.eventNr ==>
        outCmds[j] == old(outCmds[j]) && outBits[j] == old(outBits[j]) && busy[j] == old(busy[j])
    {
      if cmd.eventNr >= MAX_SMC_CMD {
        return false;
      }
      outCmds[cmd.eventNr] := cmd;
      outBits[cmd.eventNr] := true;
      busy[cmd.eventNr] := false;
      return true;
    }

    method IsCmdInUnproceed() returns (ret: bool)
      requires Valid()
      ensures ret == Unproceeded(State())
      ensures ret <==> exists j :: 0 <= j < 18 && inBits[j] && !doing[j]
    {
      for i := 0 to MAX_SMC_CMD
        invariant forall j :: 0 <= j < i ==> !Pending(State(), j)
        invariant forall j :: 0 <= j < i ==> !(inBits[j] && !doing[j])
      {
        if inBits[i] && !doing[i] {
          assert Pending(State(), i);
          return true;
        }
      }
      return false;
    }
  }
}
