/** Agent manager: whose turn it is, and what is left of a session that was released. */
module AgentTurns {
  import opened Options
  import opened Agents
  import opened AgentRuns

  lemma {:induction false} InTurnAt(log: seq<Event>, id: nat, k: nat)
    requires InTurn(log, id) && k < |log|
    ensures StepInTurn(Line(log[..k], id), log[k], id) && InTurn(log[..k], id)
  {
    if k < |log| - 1 {
      InTurnAt(log[..|log| - 1], id, k);
      assert log[..|log| - 1][..k] == log[..k];
    }
  }

  /**
    At any time the agent's queue is the line of those who joined and neither got the agent nor
    left, in the order in which they joined; and whoever got it was first in that line then.
   */
  lemma FirstInFirstOut(s: State, id: nat)
    requires Reachable(s)
    ensures Line(s.log, id) == Queue(s.list, id)
    ensures forall k, w :: 0 <= k < |s.log| && s.log[k] == HandedOver(id, w) ==>
      Line(s.log[..k], id) != [] && Line(s.log[..k], id)[0] == w
  {
    assert FifoFor(s, id);
    forall k, w | 0 <= k < |s.log| && s.log[k] == HandedOver(id, w)
      ensures Line(s.log[..k], id) != [] && Line(s.log[..k], id)[0] == w
    {
      InTurnAt(s.log, id, k);
    }
  }

  /** No session gets an agent before one that joined the queue earlier, unless that one has got it or left. */
  lemma NobodyOvertakes(s: State, id: nat, u: nat, w: nat, p: nat, q: nat, r: nat)
    requires Reachable(s) && p < q < r < |s.log|
    requires s.log[p] == Arrived(id, u) && s.log[q] == Arrived(id, w) && s.log[r] == HandedOver(id, w)
    ensures exists k :: p < k < r && (s.log[k] == HandedOver(id, u) || s.log[k] == Left(id, u))
  {
    assert FifoFor(s, id);
    var log := s.log;
    hide Reachable;
    if forall k :: p < k < r ==> log[k] != HandedOver(id, u) && log[k] != Left(id, u) {
      JoinsBehind(log, id, u, w, p, q);
      StaysBehind(log, id, u, w, p, q, r);
      InTurnAt(log, id, r);
      assert false;
    }
  }

  /** In the line, u comes before some place and w is nowhere before it. */
  ghost predicate Before(line: seq<nat>, u: nat, w: nat) {
    exists i :: 0 <= i < |line| && line[i] == u && forall j :: 0 <= j <= i ==> line[j] != w
  }

  lemma BeforeStep(line: seq<nat>, e: Event, id: nat, u: nat, w: nat)
    requires Before(line, u, w) && u != w && StepInTurn(line, e, id) && e != HandedOver(id, u) && e != Left(id, u)
    ensures Before(LineStep(line, e, id), u, w)
  {
    var i :| 0 <= i < |line| && line[i] == u && forall j :: 0 <= j <= i ==> line[j] != w;
    var line' := LineStep(line, e, id);
    match e
    case HandedOver(agent, x) =>
      if agent == id {
        assert line'[i - 1] == u;
      } else {
        assert line'[i] == u;
      }
    case Left(agent, x) =>
      if agent == id {
        var k := WithoutAround(line, x, i);
        assert line'[k] == u && w !in line[..i + 1];
      } else {
        assert line'[i] == u;
      }
    case _ => assert line'[i] == u;
  }

  /** Taking another session out moves line[i] up by at most one place, and brings nobody in front of it. */
  lemma {:induction false} WithoutAround(line: seq<nat>, x: nat, i: nat) returns (k: nat)
    requires i < |line| && line[i] != x
    ensures k < |Without(line, x)| && k <= i && Without(line, x)[k] == line[i]
    ensures forall j :: 0 <= j <= k ==> Without(line, x)[j] in line[..i + 1]
  {
    if line[0] == x {
      k := i - 1;
      forall j | 0 <= j <= k ensures Without(line, x)[j] in line[..i + 1] {
        assert Without(line, x)[j] == line[..i + 1][j + 1];
      }
    } else if i == 0 {
      k := 0;
      assert Without(line, x)[0] == line[..1][0];
    } else {
      k := WithoutAround(line[1..], x, i - 1);
      var rest := Without(line[1..], x);
      forall j | 0 <= j <= k + 1 ensures Without(line, x)[j] in line[..i + 1] {
        if j == 0 {
          assert Without(line, x)[0] == line[..i + 1][0];
        } else {
          assert Without(line, x)[j] == rest[j - 1] && rest[j - 1] in line[1..][..i];
          assert line[1..][..i] == line[..i + 1][1..];
        }
      }
      k := k + 1;
    }
  }

  /** When w joins at q, u, which joined at p and stayed, is in the line and before it. */
  lemma JoinsBehind(log: seq<Event>, id: nat, u: nat, w: nat, p: nat, q: nat)
    requires InTurn(log, id) && p < q < |log| && log[p] == Arrived(id, u) && log[q] == Arrived(id, w)
    requires forall k :: p < k < q ==> log[k] != HandedOver(id, u) && log[k] != Left(id, u)
    ensures u != w && Before(Line(log[..q + 1], id), u, w)
  {
    InTurnAt(log, id, q);
    StaysIn(log, id, u, p, q);
    var line := Line(log[..q], id);
    assert log[..q + 1] == log[..q] + [log[q]];
    LogSnoc(log[..q], log[q], id, 0);
    var i :| 0 <= i < |line| && line[i] == u;
    assert Line(log[..q + 1], id)[i] == u;
  }

  lemma {:induction false} StaysIn(log: seq<Event>, id: nat, u: nat, p: nat, q: nat)
    requires InTurn(log, id) && p < q <= |log| && log[p] == Arrived(id, u)
    requires forall k :: p < k < q ==> log[k] != HandedOver(id, u) && log[k] != Left(id, u)
    ensures u in Line(log[..q], id)
    decreases q
  {
    hide Line, InTurn, LineStep, StepInTurn;
    assert log[..q] == log[..q - 1] + [log[q - 1]];
    LogSnoc(log[..q - 1], log[q - 1], id, 0);
    InTurnAt(log, id, q - 1);
    if q > p + 1 {
      StaysIn(log, id, u, p, q - 1);
    }
    StaysInStep(Line(log[..q - 1], id), log[q - 1], id, u);
  }

  lemma StaysInStep(line: seq<nat>, e: Event, id: nat, u: nat)
    requires StepInTurn(line, e, id) && e != HandedOver(id, u) && e != Left(id, u) && (u in line || e == Arrived(id, u))
    ensures u in LineStep(line, e, id)
  {
    assert line != [] ==> line == [line[0]] + line[1..];
  }

  lemma {:induction false} StaysBehind(log: seq<Event>, id: nat, u: nat, w: nat, p: nat, q: nat, r: nat)
    requires InTurn(log, id) && p < q < r <= |log| && u != w && Before(Line(log[..q + 1], id), u, w)
    requires forall k :: p < k < r ==> log[k] != HandedOver(id, u) && log[k] != Left(id, u)
    ensures Before(Line(log[..r], id), u, w)
    decreases r
  {
    if r > q + 1 {
      StaysBehind(log, id, u, w, p, q, r - 1);
      assert log[..r] == log[..r - 1] + [log[r - 1]];
      LogSnoc(log[..r - 1], log[r - 1], id, 0);
      InTurnAt(log, id, r - 1);
      hide Before, LineStep, StepInTurn;
      BeforeStep(Line(log[..r - 1], id), log[r - 1], id, u, w);
    }
  }

  /** Sessions that joined the agent's queue, in order. */
  function Arrivals(log: seq<Event>, id: nat): seq<nat> {
    if log == [] then []
    else
      var e := log[|log| - 1];
      Arrivals(log[..|log| - 1], id) + (if e.Arrived? && e.agent == id then [e.waiter] else [])
  }

  /** Sessions that got the agent out of its queue, in order. */
  function HandOvers(log: seq<Event>, id: nat): seq<nat> {
    if log == [] then []
    else
      var e := log[|log| - 1];
      HandOvers(log[..|log| - 1], id) + (if e.HandedOver? && e.agent == id then [e.waiter] else [])
  }

  /** Nobody has left the agent's queue other than by getting the agent. */
  ghost predicate NobodyLeft(log: seq<Event>, id: nat) { forall e :: e in log && e.Left? ==> e.agent != id }

  /** Counting: those who joined got the agent, left, or are in the line. */
  lemma {:induction false} LineCounts(log: seq<Event>, id: nat)
    requires InTurn(log, id)
    ensures |Arrivals(log, id)| >= |HandOvers(log, id)| + |Line(log, id)|
    ensures |Arrivals(log, id)| == |HandOvers(log, id)| + |Line(log, id)| ==> NobodyLeft(log, id)
    ensures NobodyLeft(log, id) ==> Arrivals(log, id) == HandOvers(log, id) + Line(log, id)
    decreases |log|
  {
    if log != [] {
      var front, e := log[..|log| - 1], log[|log| - 1];
      LineCounts(front, id);
      assert log == front + [e];
      assert e in log;
      var line := Line(front, id);
      match e
      case Left(agent, w) =>
        if agent == id {
          WithoutShorter(line, w);
        }
      case HandedOver(agent, w) =>
        if agent == id {
          assert line == [w] + line[1..];
        }
      case _ =>
    }
  }

  lemma {:induction false} WithoutShorter(ids: seq<nat>, id: nat)
    requires id in ids
    ensures |Without(ids, id)| == |ids| - 1
  {
    if ids[0] != id {
      assert ids == [ids[0]] + ids[1..];
      WithoutShorter(ids[1..], id);
    }
  }

  /** Those who joined are those served followed by those who wait, in the same order, iff nobody left. */
  lemma ServedInOrderIff(s: State, id: nat)
    requires Reachable(s)
    ensures Arrivals(s.log, id) == HandOvers(s.log, id) + Queue(s.list, id) <==> NobodyLeft(s.log, id)
  {
    assert FifoFor(s, id);
    LineCounts(s.log, id);
  }

  // ---- released sessions ----

  /** The session has nothing to do with any agent. */
  ghost predicate Uninvolved(s: State, t: nat) {
    && t < |s.locks| && s.locks[t] == []
    && forall i :: 0 <= i < |s.list| ==> s.list[i].holder != Some(t) && t !in s.list[i].waiting
  }

  /** Closing a session leaves it no agent and no place in a queue. */
  lemma ClosedSessionIsGone(s: State, t: nat)
    requires Reachable(s) && t < |s.locks|
    ensures Uninvolved(Apply(s, ReleaseSession(t)), t)
  {
    var s1 := UnlockRounds(s, t, |s.locks[t]|);
    AbandonKeeps(s1, t);
    var s' := Abandon(s1, t);
    assert SessionOk(s', t);
  }

  /** How often the session got an agent out of a queue. */
  function Got(log: seq<Event>, t: nat): nat {
    if log == [] then 0
    else Got(log[..|log| - 1], t) + (if log[|log| - 1].HandedOver? && log[|log| - 1].waiter == t then 1 else 0)
  }

  /** A step that leaves session t out of it. */
  ghost predicate LeavesOut(s: State, s': State, t: nat) {
    Uninvolved(s', t) && Got(s'.log, t) == Got(s.log, t)
  }

  lemma GotSnoc(log: seq<Event>, e: Event, t: nat)
    ensures Got(log + [e], t) == Got(log, t) + (if e.HandedOver? && e.waiter == t then 1 else 0)
  {
    assert (log + [e])[..|log|] == log;
  }

  lemma LogLeavesOut(s: State, e: Event, t: nat)
    requires Uninvolved(s, t) && !(e.HandedOver? && e.waiter == t)
    ensures LeavesOut(s, Log(s, e), t)
  {
    GotSnoc(s.log, e, t);
  }

  lemma LockLeavesOut(s: State, id: nat, u: nat, t: nat)
    requires Uninvolved(s, t) && u < |s.locks| && u != t
    ensures LeavesOut(s, TeeLock(s, id, u).0, t)
  {
    var r := Find(s.list, id);
    if r.Some? {
      GotSnoc(s.log, Arrived(s.list[r.value].id, u), t);
    }
  }

  lemma UnlockLeavesOut(s: State, i: nat, u: nat, t: nat)
    requires Inv(s, None) && i < |s.list| && u < |s.locks| && s.list[i].holder == Some(u) && Uninvolved(s, t)
    ensures forall w :: w in s.list[i].waiting ==> w < |s.locks|
    ensures LeavesOut(s, Unlock(s, i, u), t)
  {
    UnlockKeeps(s, i, u);
    ReleaseKeeps(s, i, u);
    var s1 := Release(s, i, u);
    assert LeavesOut(s, s1, t);
    hide Inv, Release;
    if s1.list[i].waiting != [] {
      var a := s1.list[i];
      var w := a.waiting[0];
      assert w in a.waiting;
      HandOverIs(s1, i);
      assert s1.log + [HandedOver(a.id, w), Acked(w, AgentLock)] == s1.log + [HandedOver(a.id, w)] + [Acked(w, AgentLock)];
      GotSnoc(s1.log, HandedOver(a.id, w), t);
      GotSnoc(s1.log + [HandedOver(a.id, w)], Acked(w, AgentLock), t);
    }
  }

  lemma {:induction false} RoundsLeaveOut(s: State, u: nat, n: nat, t: nat)
    requires Inv(s, None) && u < |s.locks| && Uninvolved(s, t)
    ensures LeavesOut(s, UnlockRounds(s, u, n), t)
    decreases n
  {
    hide Inv, UnlockRounds, Unlock, Uninvolved;
    if n > 0 && s.locks[u] != [] {
      var i := FirstRound(s, u, n);
      UnlockLeavesOut(s, i, u, t);
      RoundsLeaveOut(Unlock(s, i, u), u, n - 1, t);
    } else {
      NoRound(s, u, n);
    }
  }

  lemma AbandonLeavesOut(s: State, u: nat, t: nat)
    requires Uninvolved(s, t)
    ensures LeavesOut(s, Abandon(s, u), t)
  {
    var r := QueuedAt(s.list, u);
    if r.Some? {
      GotSnoc(s.log, Left(s.list[r.value].id, u), t);
    }
  }

  lemma ProcessLockLeavesOut(s: State, id: nat, u: nat, permitted: bool, t: nat)
    requires Uninvolved(s, t) && u < |s.locks| && u != t
    ensures LeavesOut(s, ProcessLock(s, id, u, permitted), t)
  {
    var s1 := Log(s, Requested(u));
    LogLeavesOut(s, Requested(u), t);
    LogLeavesOut(s1, Acked(u, InvalidAgent), t);
    LockLeavesOut(s1, id, u, t);
    var s2 := TeeLock(s1, id, u).0;
    LogLeavesOut(s2, Acked(u, AgentLock), t);
    LogLeavesOut(s2, Acked(u, InvalidAgent), t);
  }

  lemma ProcessUnlockLeavesOut(s: State, id: nat, u: nat, t: nat)
    requires Inv(s, None) && Uninvolved(s, t) && Holds(s, id, u)
    ensures LeavesOut(s, ProcessUnlock(s, id, u), t)
  {
    var s1 := Log(s, Requested(u));
    LogLeavesOut(s, Requested(u), t);
    SameShape(s, s1, None);
    var i := HeldAgent(s, id, u);
    hide Inv, Unlock, Uninvolved;
    UnlockLeavesOut(s1, i, u, t);
    LogLeavesOut(Unlock(s1, i, u), Acked(u, AgentLock), t);
  }

  lemma VainUnlockLeavesOut(s: State, id: nat, u: nat, t: nat)
    requires Uninvolved(s, t) && UnlocksInVain(s, id, u)
    ensures LeavesOut(s, UnlockUnheld(s, id, u).0, t)
  {
    UnheldChangesNothing(s, id, u);
    var code := if Find(s.list, id).Some? then AgentLock else InvalidAgent;
    assert s.log + [Requested(u), Acked(u, code)] == s.log + [Requested(u)] + [Acked(u, code)];
    GotSnoc(s.log, Requested(u), t);
    GotSnoc(s.log + [Requested(u)], Acked(u, code), t);
  }

  lemma UnregisterLeavesOut(s: State, id: nat, t: nat)
    requires Inv(s, None) && Uninvolved(s, t)
    ensures LeavesOut(s, Unregister(s, id).0, t)
  {
    UnregisterIs(s, id);
  }

  lemma ActionLeavesOut(s: State, a: Action, t: nat)
    requires Inv(s, None) && Enabled(s, a) && Uninvolved(s, t) && !(a.Lock? && a.t == t)
    ensures LeavesOut(s, Apply(s, a), t)
  {
    hide Inv, UnlockRounds, Unregister, ProcessLock, ProcessUnlock, UnlockUnheld, Abandon;
    match a
    case Lock(u, id, permitted) => ProcessLockLeavesOut(s, id, u, permitted, t);
    case UnlockOne(u, id) =>
      if Holds(s, id, u) {
        ProcessUnlockLeavesOut(s, id, u, t);
      } else {
        VainUnlockLeavesOut(s, id, u, t);
      }
    case UnlockAll(u) => RoundsLeaveOut(s, u, |s.locks[u]|, t);
    case ReleaseSession(u) =>
      RoundsLeaveOut(s, u, |s.locks[u]|, t);
      AbandonLeavesOut(UnlockRounds(s, u, |s.locks[u]|), u, t);
    case UnregisterAgent(id) => UnregisterLeavesOut(s, id, t);
    case _ =>
  }

  /** A waiting session is released: it is answered never, and its place in the line is lost. */
  lemma LeavingHappens(id: nat) returns (s: State)
    requires !IsSystemAgent(id)
    ensures Reachable(s) && !NobodyLeft(s.log, id) && !IsWaiting(s.list, 1) && Departures(s.log, 1) == 1
  {
    OneWaitsReachable(id);
    var was := OneWaits(id);
    hide Reachable, Inv;
    ReachableStep(was, ReleaseSession(1));
    s := Apply(was, ReleaseSession(1));
    NoRound(was, 1, 0);
    assert QueuedAt(was.list, 1) == Some(0);
    AbandonKeeps(was, 1);
    assert s.log == was.log + [Left(id, 1)];
    assert Left(id, 1) in s.log;
    LogSnoc(was.log, Left(id, 1), 0, 1);
    NoDepartures(was.log, 1);
  }

  lemma {:induction false} NoDepartures(log: seq<Event>, t: nat)
    requires forall e :: e in log ==> !e.Left?
    ensures Departures(log, t) == 0
    decreases |log|
  {
    if log != [] {
      assert log[|log| - 1] in log;
      NoDepartures(log[..|log| - 1], t);
    }
  }

  ghost predicate NoLockBy(acts: seq<Action>, t: nat) { forall a :: a in acts && a.Lock? ==> a.t != t }

  /** A released session gets nothing, in any run, until it asks for a lock again. */
  lemma {:induction false} ReleasedGetsNothing(s: State, acts: seq<Action>, t: nat)
    requires Inv(s, None) && Booked(s, None) && IsRun(s, acts) && Uninvolved(s, t) && NoLockBy(acts, t)
    ensures LeavesOut(s, After(s, acts), t)
    decreases |acts|
  {
    hide Inv, Booked, Enabled, Apply, Uninvolved;
    if acts != [] {
      assert acts[0] in acts && forall a :: a in acts[1..] ==> a in acts;
      ActionLeavesOut(s, acts[0], t);
      ApplyKeeps(s, acts[0]);
      ReleasedGetsNothing(Apply(s, acts[0]), acts[1..], t);
    }
  }
}
