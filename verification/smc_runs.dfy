/** SMC command slots: what holds over every run, whatever the normal world writes between calls. */
module SmcRuns {
  import opened Options
  import opened SmcSlots

  datatype Action =
    | NormalWorld(mem: Shared)  // anything at all may be written to the shared memory
    | GetCmd
    | PutCmd(cmd: SmcCmd)

  datatype Event = Delivered(slot: nat, abort: bool) | Finished(slot: nat)

  ghost predicate Possible(acts: seq<Action>) {
    forall i :: 0 <= i < |acts| && acts[i].NormalWorld? ==> acts[i].mem.Valid()
  }

  function Step(s: Slots, a: Action): (s': Slots)
    requires s.Valid() && (a.NormalWorld? ==> a.mem.Valid())
    ensures s'.Valid()
  {
    match a
    case NormalWorld(mem) => s.(mem := mem)
    case GetCmd => Get(s).0
    case PutCmd(cmd) => Put(s, cmd)
  }

  function Events(s: Slots, a: Action): seq<Event>
    requires s.Valid()
  {
    match a
    case NormalWorld(_) => []
    case GetCmd => (match Get(s).1 case None => [] case Some(cmd) => [Delivered(cmd.eventNr, IsAbort(cmd))])
    case PutCmd(cmd) => if cmd.eventNr < MAX_SMC_CMD then [Finished(cmd.eventNr)] else []
  }

  function After(s: Slots, acts: seq<Action>): (s': Slots)
    requires s.Valid() && Possible(acts)
    ensures s'.Valid()
    decreases |acts|
  {
    if acts == [] then s else Step(After(s, acts[..|acts| - 1]), acts[|acts| - 1])
  }

  function Log(s: Slots, acts: seq<Action>): seq<Event>
    requires s.Valid() && Possible(acts)
    decreases |acts|
  {
    if acts == [] then []
    else
      var before := acts[..|acts| - 1];
      Log(s, before) + Events(After(s, before), acts[|acts| - 1])
  }

  /** Some command of slot n was delivered and not answered since. */
  predicate Outstanding(log: seq<Event>, n: nat)
    decreases |log|
  {
    && log != []
    && var e := log[|log| - 1];
       (e == Delivered(n, false) || (e != Finished(n) && Outstanding(log[..|log| - 1], n)))
  }

  // ---- one call ----

  /** Some slot holds a command the framework should get. */
  ghost predicate AnyDeliverable(s: Slots)
    requires s.Valid()
  {
    exists j :: 0 <= j < MAX_SMC_CMD && Deliverable(s, j)
  }

  /**
    Slot j holds a command for the framework: sent and not taken yet, with its own slot number, and
    while an earlier one is unanswered only if it kills a task.
   */
  predicate Waits(s: Slots, j: nat)
    requires s.Valid() && j < MAX_SMC_CMD
  {
    && s.mem.inBits[j] && !s.mem.doing[j] && s.mem.inCmds[j].eventNr == j
    && (s.busy[j] ==> s.mem.inCmds[j].cmdType == 0 && s.mem.inCmds[j].cmdId == 0x10)
  }

  /** What the scan takes for deliverable, and when it stops early, in the words of the shared memory. */
  lemma DeliverableMeans(s: Slots, j: nat)
    requires s.Valid() && j < MAX_SMC_CMD
    ensures Deliverable(s, j) <==> Waits(s, j)
    ensures StopsEarly(s) <==> s.last < 18 && s.mem.inBits[s.last] && !s.mem.doing[s.last] && !Waits(s, s.last)
  {
  }

  /** A call delivers exactly when there is something to deliver and it does not stop early. */
  lemma DeliversIff(s: Slots)
    requires s.Valid()
    ensures Get(s).1.Some? <==> AnyDeliverable(s) && !StopsEarly(s)
  {
    if !StopsEarly(s) && Get(s).1.Some? {
      assert Deliverable(s, Slot(s.last, Nearest(s, 0)));
    }
  }

  /** What is delivered is the first deliverable command in cyclic order, unchanged. */
  lemma DeliversNearest(s: Slots)
    requires s.Valid() && Get(s).1.Some?
    ensures var n := Get(s).1.value.eventNr;
      && n < MAX_SMC_CMD && Waits(s, n) && Deliverable(s, n) && Get(s).1.value == s.mem.inCmds[n] && Get(s).0.last == n + 1
      && forall j :: 0 <= j < MAX_SMC_CMD && Deliverable(s, j) ==> Distance(s.last, n) <= Distance(s.last, j)
  {
  }

  /** The scanner can stop in front of a deliverable command... */
  lemma StoppingEarlyHappens() returns (s: Slots)
    ensures s.Valid() && AnyDeliverable(s) && Get(s).1.None?
  {
    var cmds := seq(MAX_SMC_CMD, j => SmcCmd(1, 0, 2, []));
    var bits := seq(MAX_SMC_CMD, j => j == 1 || j == 2);
    var none := seq(MAX_SMC_CMD, _ => false);
    s := Slots(Shared(bits, none, none, cmds, cmds), 1, none);
    assert Deliverable(s, 2) && StopsEarly(s);
  }

  /** ... but then the main loop does not go to sleep, and its next call delivers. */
  lemma NextCallDelivers(s: Slots)
    requires s.Valid() && AnyDeliverable(s) && Get(s).1.None?
    ensures Unproceeded(Get(s).0) && Get(Get(s).0).1.Some?
  {
    DeliversIff(s);
    var s' := Get(s).0;
    var j :| 0 <= j < MAX_SMC_CMD && Deliverable(s, j);
    assert j != s.last;
    assert Deliverable(s', j) && !StopsEarly(s');
    DeliversIff(s');
  }

  /** A scan that ran to its end without a delivery leaves nothing pending. */
  lemma NothingLeft(s: Slots)
    requires s.Valid() && Get(s).1.None? && !StopsEarly(s)
    ensures !Unproceeded(Get(s).0)
  {
    var s' := Get(s).0;
    forall j | 0 <= j < MAX_SMC_CMD
      ensures !Pending(s', j)
    {
      assert s'.mem.doing[j] == (s.mem.doing[j] || s.mem.inBits[j]);
    }
  }

  /**
    A call writes nothing but doing bits: it sets that of the command it delivers and those of
    pending commands it must skip, and every other deliverable command stays deliverable.
   */
  lemma GetTouchesOnly(s: Slots)
    requires s.Valid()
    ensures var (s', r) := Get(s);
      && s'.mem == s.mem.(doing := s'.mem.doing)
      && (forall j :: 0 <= j < MAX_SMC_CMD && s.mem.doing[j] ==> s'.mem.doing[j])
      && (forall j :: 0 <= j < MAX_SMC_CMD && s'.mem.doing[j] && !s.mem.doing[j] ==>
            s.mem.inBits[j] && (!Deliverable(s, j) || (r.Some? && r.value.eventNr == j)))
      && (r.Some? ==> r.value.eventNr < MAX_SMC_CMD && s'.mem.doing[r.value.eventNr])
      && (forall j :: 0 <= j < MAX_SMC_CMD && Deliverable(s, j) && (r.Some? ==> r.value.eventNr != j) ==>
            Deliverable(s', j))
      && (r.None? ==> s'.last == s.last && s'.busy == s.busy)
  {
    if StopsEarly(s) {
      StoppedTouchesOnly(s);
    } else {
      var k := Nearest(s, 0);
      forall j | 0 <= j < MAX_SMC_CMD && Distance(s.last, j) <= k && Deliverable(s, j)
        ensures k < MAX_SMC_CMD && j == Slot(s.last, k)
      {
        DistanceInjective(s.last);
      }
    }
  }

  lemma StoppedTouchesOnly(s: Slots)
    requires s.Valid() && StopsEarly(s)
    ensures forall j :: 0 <= j < MAX_SMC_CMD && Deliverable(s, j) ==> Deliverable(Get(s).0, j)
  {
  }

  /**
    An answer goes into its own slot, whole and with the out bit raised, and nothing else in the
    shared memory changes; one for a slot that does not exist changes nothing.
   */
  lemma PutAnswers(s: Slots, cmd: SmcCmd)
    requires s.Valid()
    ensures var s' := Put(s, cmd);
      && s'.last == s.last && s'.mem == s.mem.(outBits := s'.mem.outBits, outCmds := s'.mem.outCmds)
      && (forall j :: 0 <= j < MAX_SMC_CMD ==>
            if j == cmd.eventNr then s'.mem.outBits[j] && s'.mem.outCmds[j] == cmd && !s'.busy[j]
            else s'.mem.outBits[j] == s.mem.outBits[j] && s'.mem.outCmds[j] == s.mem.outCmds[j] && s'.busy[j] == s.busy[j])
  {
  }

  // ---- whole runs ----

  /** The last answer for slot n since the normal world wrote last, if there is one. */
  function LastAnswer(acts: seq<Action>, n: nat): Option<SmcCmd>
    decreases |acts|
  {
    if acts == [] then None
    else
      match acts[|acts| - 1]
      case NormalWorld(_) => None
      case GetCmd => LastAnswer(acts[..|acts| - 1], n)
      case PutCmd(cmd) => if cmd.eventNr == n then Some(cmd) else LastAnswer(acts[..|acts| - 1], n)
  }

  /** Until the normal world writes, the slot of an answered command holds exactly its last answer. */
  lemma {:induction false} AnswerStays(s: Slots, acts: seq<Action>, n: nat)
    requires s.Valid() && Possible(acts) && n < MAX_SMC_CMD && LastAnswer(acts, n).Some?
    ensures After(s, acts).mem.outBits[n] && After(s, acts).mem.outCmds[n] == LastAnswer(acts, n).value
    decreases |acts|
  {
    var before := acts[..|acts| - 1];
    match acts[|acts| - 1]
    case GetCmd =>
      AnswerStays(s, before, n);
      GetTouchesOnly(After(s, before));
    case PutCmd(cmd) =>
      if cmd.eventNr != n {
        AnswerStays(s, before, n);
      }
      PutAnswers(After(s, before), cmd);
    case _ =>
  }

  /** The private bitmap never forgets an unanswered command, from any start state. */
  lemma {:induction false} BusyRemembers(s: Slots, acts: seq<Action>, n: nat)
    requires s.Valid() && Possible(acts) && n < MAX_SMC_CMD
    ensures Outstanding(Log(s, acts), n) ==> After(s, acts).busy[n]
    ensures (forall j :: 0 <= j < MAX_SMC_CMD ==> !s.busy[j]) ==> (After(s, acts).busy[n] <==> Outstanding(Log(s, acts), n))
    decreases |acts|
  {
    if acts != [] {
      var before := acts[..|acts| - 1];
      BusyRemembers(s, before, n);
      BusyStep(After(s, before), acts[|acts| - 1], n);
      OutstandingStep(Log(s, before), Events(After(s, before), acts[|acts| - 1]), n);
    }
  }

  /** Is slot n unanswered after these events (at most one), given whether it was before? */
  predicate StillOut(events: seq<Event>, was: bool, n: nat) {
    if events == [] then was else events[0] == Delivered(n, false) || (events[0] != Finished(n) && was)
  }

  lemma BusyStep(s: Slots, a: Action, n: nat)
    requires s.Valid() && (a.NormalWorld? ==> a.mem.Valid()) && n < MAX_SMC_CMD
    ensures Step(s, a).busy[n] <==> StillOut(Events(s, a), s.busy[n], n)
  {
    if a.GetCmd? && Get(s).1.Some? {
      DeliversNearest(s);
    }
  }

  lemma OutstandingStep(log: seq<Event>, events: seq<Event>, n: nat)
    requires |events| <= 1
    ensures Outstanding(log + events, n) <==> StillOut(events, Outstanding(log, n), n)
  {
    if events == [] {
      assert log + events == log;
    } else {
      assert (log + events)[..|log|] == log;
    }
  }

  /** Nothing is delivered to a slot with an unanswered command, except an abort. */
  lemma {:induction false} NeverDeliveredTwice(s: Slots, acts: seq<Action>, j: nat)
    requires s.Valid() && Possible(acts)
    requires j < |Log(s, acts)| && Log(s, acts)[j].Delivered? && !Log(s, acts)[j].abort
    ensures Log(s, acts)[j].slot < MAX_SMC_CMD && !Outstanding(Log(s, acts)[..j], Log(s, acts)[j].slot)
    decreases |acts|
  {
    var before := acts[..|acts| - 1];
    var log := Log(s, before);
    if j < |log| {
      assert Log(s, acts)[..j] == log[..j];
      NeverDeliveredTwice(s, before, j);
    } else {
      var s' := After(s, before);
      assert Log(s, acts)[..j] == log;
      DeliversNearest(s');
      BusyRemembers(s, before, Log(s, acts)[j].slot);
    }
  }

  /** If a delivery at i is no longer outstanding, an answer came after it. */
  lemma {:induction false} AnswerBetween(log: seq<Event>, i: nat, n: nat)
    requires i < |log| && log[i] == Delivered(n, false) && !Outstanding(log, n)
    ensures exists k :: i < k < |log| && log[k] == Finished(n)
    decreases |log|
  {
    var last := |log| - 1;
    if log[last] != Finished(n) {
      AnswerBetween(log[..last], i, n);
      var k :| i < k < last && log[..last][k] == Finished(n);
      assert log[k] == Finished(n);
    }
  }

  /**
    Between two deliveries of ordinary commands from one slot there is an answer for that slot,
    in every run and from every start state.
   */
  lemma DeliveriesAreSeparated(s: Slots, acts: seq<Action>, i: nat, j: nat, n: nat)
    requires s.Valid() && Possible(acts) && i < j < |Log(s, acts)|
    requires Log(s, acts)[i] == Delivered(n, false) && Log(s, acts)[j] == Delivered(n, false)
    ensures exists k :: i < k < j && Log(s, acts)[k] == Finished(n)
  {
    var log := Log(s, acts);
    NeverDeliveredTwice(s, acts, j);
    AnswerBetween(log[..j], i, n);
    var k :| i < k < j && log[..j][k] == Finished(n);
    assert log[k] == Finished(n);
  }

  // ---- fairness ----

  function Deliveries(log: seq<Event>): nat {
    if log == [] then 0 else (if log[0].Delivered? then 1 else 0) + Deliveries(log[1..])
  }

  lemma {:induction false} DeliveriesConcat(a: seq<Event>, b: seq<Event>)
    ensures Deliveries(a + b) == Deliveries(a) + Deliveries(b)
  {
    if a == [] {
      assert a + b == b;
    } else {
      assert (a + b)[1..] == a[1..] + b;
      DeliveriesConcat(a[1..], b);
    }
  }

  /** Slot n holds a deliverable command whenever the scanner runs, and is never the one served. */
  ghost predicate KeepsWaiting(s: Slots, acts: seq<Action>, n: nat)
    requires s.Valid() && Possible(acts) && n < MAX_SMC_CMD
    decreases |acts|
  {
    acts != [] ==>
      var before := acts[..|acts| - 1];
      var now := After(s, before);
      && KeepsWaiting(s, before, n)
      && (acts[|acts| - 1] == GetCmd ==>
            Deliverable(now, n) && (Get(now).1.Some? ==> Get(now).1.value.eventNr != n))
  }

  /** Each delivery to someone else brings `last_index` strictly closer to a waiting slot. */
  lemma DeliveryApproaches(s: Slots, n: nat)
    requires s.Valid() && n < MAX_SMC_CMD && Deliverable(s, n)
    requires Get(s).1.Some? && Get(s).1.value.eventNr != n
    ensures Distance(Get(s).0.last, n) < Distance(s.last, n)
  {
    DeliversNearest(s);
  }

  /** So a waiting slot sees at most Distance(last_index, n) <= 17 deliveries to others. */
  lemma {:induction false} WaitIsBounded(s: Slots, acts: seq<Action>, n: nat)
    requires s.Valid() && Possible(acts) && n < MAX_SMC_CMD && KeepsWaiting(s, acts, n)
    ensures Deliveries(Log(s, acts)) + Distance(After(s, acts).last, n) <= Distance(s.last, n) < MAX_SMC_CMD
    decreases |acts|
  {
    if acts != [] {
      var before := acts[..|acts| - 1];
      WaitIsBounded(s, before, n);
      WaitStep(After(s, before), acts[|acts| - 1], n);
      DeliveriesConcat(Log(s, before), Events(After(s, before), acts[|acts| - 1]));
    }
  }

  lemma WaitStep(s: Slots, a: Action, n: nat)
    requires s.Valid() && (a.NormalWorld? ==> a.mem.Valid()) && n < MAX_SMC_CMD
    requires a.GetCmd? ==> Deliverable(s, n) && (Get(s).1.Some? ==> Get(s).1.value.eventNr != n)
    ensures Deliveries(Events(s, a)) + Distance(Step(s, a).last, n) <= Distance(s.last, n)
  {
    if a.GetCmd? && Get(s).1.Some? {
      DeliveryApproaches(s, n);
    }
  }
}
