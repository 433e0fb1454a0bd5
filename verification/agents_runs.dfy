/** Agent manager: what holds over every run. */
module AgentRuns {
  import opened Options
  import opened Agents

  datatype Action =
    | Lock(t: nat, id: nat, permitted: bool)
    | UnlockOne(t: nat, id: nat)
    | UnlockAll(t: nat)       // the TA answers its command
    | ReleaseSession(t: nat)  // the session is closed or its TA has died
    | RegisterAgent(id: nat, size: nat, inMailbox: bool, otherAllowed: bool, allocOk: bool)
    | UnregisterAgent(id: nat)
    | GetAgentBuffer(t: nat, id: nat, mapped: Option<nat>)

  /**
    A session asks for a lock only while it waits for none. It may unlock what it holds and, while
    it waits for nothing, anything else for which the call returns.
   */
  ghost predicate Enabled(s: State, a: Action) {
    match a
    case Lock(t, _, _) => t < |s.locks| && !IsWaiting(s.list, t)
    case UnlockOne(t, id) => Holds(s, id, t) || UnlocksInVain(s, id, t)
    case UnlockAll(t) => t < |s.locks|
    case ReleaseSession(t) => t < |s.locks|
    case _ => true
  }

  ghost predicate UnlocksInVain(s: State, id: nat, t: nat) {
    t < |s.locks| && id !in s.locks[t] && !IsWaiting(s.list, t) && UnlockUnheld(s, id, t).1.Some?
  }

  ghost function Apply(s: State, a: Action): (s': State)
    requires Inv(s, None) && Enabled(s, a)
  {
    match a
    case Lock(t, id, permitted) => ProcessLock(s, id, t, permitted)
    case UnlockOne(t, id) => if Holds(s, id, t) then ProcessUnlock(s, id, t) else UnlockUnheld(s, id, t).0
    case UnlockAll(t) => UnlockRounds(s, t, |s.locks[t]|)
    case ReleaseSession(t) => Agents.ReleaseSession(s, t)
    case RegisterAgent(id, size, inMailbox, otherAllowed, allocOk) =>
      Register(s, id, size, inMailbox, otherAllowed, allocOk).0
    case UnregisterAgent(id) => Unregister(s, id).0
    case GetAgentBuffer(t, id, mapped) => GetBuffer(s, id, t, mapped).0
  }

  ghost predicate Init(s: State) {
    s.list == [] && s.cnt == 0 && s.log == [] && forall t :: 0 <= t < |s.locks| ==> s.locks[t] == []
  }

  // ---- what the log says ----

  function Requests(log: seq<Event>, t: nat): nat {
    if log == [] then 0
    else Requests(log[..|log| - 1], t) + (if log[|log| - 1] == Requested(t) then 1 else 0)
  }

  function Acks(log: seq<Event>, t: nat): nat {
    if log == [] then 0
    else Acks(log[..|log| - 1], t) + (if log[|log| - 1].Acked? && log[|log| - 1].session == t then 1 else 0)
  }

  /** How often the session was released while it waited. */
  function Departures(log: seq<Event>, t: nat): nat {
    if log == [] then 0
    else Departures(log[..|log| - 1], t) + (if log[|log| - 1].Left? && log[|log| - 1].waiter == t then 1 else 0)
  }

  /** What one event does to a line of sessions waiting for agent id. */
  function LineStep(line: seq<nat>, e: Event, id: nat): seq<nat> {
    match e
    case Arrived(agent, w) => if agent == id then line + [w] else line
    case HandedOver(agent, w) => if agent == id && line != [] then line[1..] else line
    case Left(agent, w) => if agent == id then Without(line, w) else line
    case _ => line
  }

  /** A session joins a line it is not in, is served only at its head, and leaves only from within. */
  predicate StepInTurn(line: seq<nat>, e: Event, id: nat) {
    match e
    case Arrived(agent, w) => agent == id ==> w !in line
    case HandedOver(agent, w) => agent == id ==> line != [] && line[0] == w
    case Left(agent, w) => agent == id ==> w in line
    case _ => true
  }

  /** The line in front of agent id after everything that happened. */
  function Line(log: seq<Event>, id: nat): seq<nat> {
    if log == [] then [] else LineStep(Line(log[..|log| - 1], id), log[|log| - 1], id)
  }

  predicate InTurn(log: seq<Event>, id: nat) {
    log == [] || (InTurn(log[..|log| - 1], id) && StepInTurn(Line(log[..|log| - 1], id), log[|log| - 1], id))
  }

  function Queue(list: seq<Agent>, id: nat): seq<nat> {
    match Find(list, id) case None => [] case Some(i) => list[i].waiting
  }

  /** The agent's queue is that line, and everybody was served in turn. */
  ghost predicate FifoFor(s: State, id: nat) {
    InTurn(s.log, id) && Line(s.log, id) == Queue(s.list, id)
  }

  /** Every request is answered once, or its session waits in a queue or was released from one, or it is being handled. */
  ghost predicate AnsweredFor(s: State, t: nat, owed: Option<nat>) {
    Requests(s.log, t) == Acks(s.log, t) + Departures(s.log, t)
                        + (if IsWaiting(s.list, t) then 1 else 0) + (if owed == Some(t) then 1 else 0)
  }

  ghost predicate Booked(s: State, owed: Option<nat>) {
    (forall id :: FifoFor(s, id)) && (forall t :: AnsweredFor(s, t, owed))
  }

  lemma LogSnoc(log: seq<Event>, e: Event, id: nat, t: nat)
    ensures Line(log + [e], id) == LineStep(Line(log, id), e, id)
    ensures InTurn(log + [e], id) <==> InTurn(log, id) && StepInTurn(Line(log, id), e, id)
    ensures Requests(log + [e], t) == Requests(log, t) + (if e == Requested(t) then 1 else 0)
    ensures Acks(log + [e], t) == Acks(log, t) + (if e.Acked? && e.session == t then 1 else 0)
    ensures Departures(log + [e], t) == Departures(log, t) + (if e.Left? && e.waiter == t then 1 else 0)
  {
    assert (log + [e])[..|log|] == log;
  }

  lemma BookRequested(s: State, t: nat)
    requires Booked(s, None)
    ensures Booked(Log(s, Requested(t)), Some(t))
  {
    BookPlain(s, Log(s, Requested(t)), Requested(t));
    forall u ensures AnsweredFor(Log(s, Requested(t)), u, Some(t)) {
      assert AnsweredFor(s, u, None);
    }
  }

  lemma BookAcked(s: State, t: nat, code: AckCode)
    requires Booked(s, Some(t))
    ensures Booked(Log(s, Acked(t, code)), None)
  {
    BookPlain(s, Log(s, Acked(t, code)), Acked(t, code));
    forall u ensures AnsweredFor(Log(s, Acked(t, code)), u, None) {
      assert AnsweredFor(s, u, Some(t));
    }
  }

  /** An event that is about no queue. */
  lemma BookPlain(s: State, s': State, e: Event)
    requires s' == Log(s, e) && (e.Requested? || e.Acked?)
    ensures forall id :: FifoFor(s, id) <==> FifoFor(s', id)
    ensures forall t :: Requests(s'.log, t) == Requests(s.log, t) + (if e == Requested(t) then 1 else 0)
    ensures forall t :: Acks(s'.log, t) == Acks(s.log, t) + (if e.Acked? && e.session == t then 1 else 0)
    ensures forall t :: Departures(s'.log, t) == Departures(s.log, t)
  {
    forall id ensures FifoFor(s, id) <==> FifoFor(s', id) {
      LogSnoc(s.log, e, id, 0);
    }
    forall t ensures Requests(s'.log, t) == Requests(s.log, t) + (if e == Requested(t) then 1 else 0)
             ensures Acks(s'.log, t) == Acks(s.log, t) + (if e.Acked? && e.session == t then 1 else 0)
             ensures Departures(s'.log, t) == Departures(s.log, t) {
      LogSnoc(s.log, e, 0, t);
    }
  }

  ghost predicate SameQueues(list: seq<Agent>, list': seq<Agent>) {
    && |list| == |list'|
    && forall i :: 0 <= i < |list| ==> list[i].id == list'[i].id && list[i].waiting == list'[i].waiting
  }

  lemma {:induction false} SameQueue(list: seq<Agent>, list': seq<Agent>, id: nat)
    requires SameQueues(list, list')
    ensures Queue(list, id) == Queue(list', id) && Find(list, id) == Find(list', id)
  {
    if list != [] {
      assert SameQueues(list[1..], list'[1..]);
      SameQueue(list[1..], list'[1..], id);
    }
  }

  /** Locks and buffers do not concern the books. */
  lemma BookSame(s: State, s': State, owed: Option<nat>)
    requires Booked(s, owed) && SameQueues(s.list, s'.list) && s'.log == s.log
    ensures Booked(s', owed)
  {
    forall id ensures FifoFor(s', id) {
      assert FifoFor(s, id);
      SameQueue(s.list, s'.list, id);
    }
    forall t ensures AnsweredFor(s', t, owed) {
      assert AnsweredFor(s, t, owed);
      assert IsWaiting(s.list, t) == IsWaiting(s'.list, t);
    }
  }

  /** One agent's queue changes. */
  lemma QueueAfter(list: seq<Agent>, i: nat, a: Agent, id: nat)
    requires UniqueIds(list) && i < |list| && a.id == list[i].id
    ensures Queue(list[i := a], id) == if id == a.id then a.waiting else Queue(list, id)
    ensures id == a.id ==> Queue(list, id) == list[i].waiting
  {
    FindUpdate(list, i, a, id);
    FindIs(list, i);
  }

  /** A session joins a queue: its request stays open. */
  lemma BookWait(s: State, i: nat, t: nat)
    requires Inv(s, None) && Booked(s, Some(t)) && i < |s.list| && t < |s.locks| && !IsWaiting(s.list, t)
    requires s.list[i].locked && s.list[i].holder != Some(t)
    ensures Booked(AddWaiting(s, i, t), None)
  {
    WaitKeeps(s, i, t);
    var s' := AddWaiting(s, i, t);
    assert UniqueIds(s.list) && t !in s.list[i].waiting;
    hide Inv, AddWaiting, IsWaiting, Queue, UniqueIds;
    forall id ensures FifoFor(s', id) {
      assert FifoFor(s, id);
      FifoJoin(s, s', i, t, id);
    }
    forall u ensures AnsweredFor(s', u, None) {
      assert AnsweredFor(s, u, Some(t));
      AnswerJoin(s, s', i, t, u);
    }
  }

  /** What joining a queue does to it and to the log. */
  ghost predicate Joined(s: State, s': State, i: nat, t: nat) {
    && i < |s.list|
    && s'.list == s.list[i := s.list[i].(waiting := s.list[i].waiting + [t])]
    && s'.log == s.log + [Arrived(s.list[i].id, t)]
  }

  lemma FifoJoin(s: State, s': State, i: nat, t: nat, id: nat)
    requires Joined(s, s', i, t) && UniqueIds(s.list) && t !in s.list[i].waiting && FifoFor(s, id)
    ensures FifoFor(s', id)
  {
    hide Line, InTurn, Requests, Acks, Queue, UniqueIds;
    LogSnoc(s.log, Arrived(s.list[i].id, t), id, 0);
    QueueAfter(s.list, i, s'.list[i], id);
  }

  lemma AnswerJoin(s: State, s': State, i: nat, t: nat, u: nat)
    requires Joined(s, s', i, t) && !IsWaiting(s.list, t) && AnsweredFor(s, u, Some(t))
    ensures AnsweredFor(s', u, None)
  {
    hide IsWaiting;
    LogSnoc(s.log, Arrived(s.list[i].id, t), 0, u);
    WaitersAfterJoin(s.list, i, t, u);
  }

  lemma WaitersAfterJoin(list: seq<Agent>, i: nat, t: nat, u: nat)
    requires i < |list|
    ensures IsWaiting(list[i := list[i].(waiting := list[i].waiting + [t])], u) <==> u == t || IsWaiting(list, u)
  {
    var list' := list[i := list[i].(waiting := list[i].waiting + [t])];
    if u == t {
      assert u in list'[i].waiting;
    } else if IsWaiting(list, u) {
      var k :| 0 <= k < |list| && u in list[k].waiting;
      assert u in list'[k].waiting;
    }
  }

  /** The hand-over pops a queue and answers the session it pops. */
  lemma BookHandOver(s: State, i: nat, owed: Option<nat>)
    requires Inv(s, Some(i)) && Booked(s, owed) && i < |s.list| && forall w :: w in s.list[i].waiting ==> w < |s.locks|
    ensures Booked(HandOver(s, i), owed)
  {
    var a := s.list[i];
    if a.waiting != [] {
      var s' := HandOver(s, i);
      HandOverIs(s, i);
      PopKeeps(s, i);
      hide Inv, HandOver, Queue, IsWaiting;
      forall id ensures FifoFor(s', id) {
        assert FifoFor(s, id);
        FifoPop(s, s', i, id);
      }
      forall u ensures AnsweredFor(s', u, owed) {
        assert AnsweredFor(s, u, owed);
        AnswerPop(s, s', i, u, owed);
      }
    }
  }

  /** What a hand-over does to queue and log. */
  ghost predicate Popped(s: State, s': State, i: nat) {
    && i < |s.list| && s.list[i].waiting != []
    && var a, w := s.list[i], s.list[i].waiting[0];
    && s'.list == s.list[i := a.(holder := Some(w), locked := true, waiting := a.waiting[1..])]
    && s'.log == s.log + [HandedOver(a.id, w), Acked(w, AgentLock)]
  }

  lemma FifoPop(s: State, s': State, i: nat, id: nat)
    requires Popped(s, s', i) && UniqueIds(s.list) && FifoFor(s, id)
    ensures FifoFor(s', id)
  {
    hide Line, InTurn, Requests, Acks, Queue, UniqueIds;
    var a, w := s.list[i], s.list[i].waiting[0];
    var e1, e2 := HandedOver(a.id, w), Acked(w, AgentLock);
    assert s'.log == s.log + [e1] + [e2];
    LogSnoc(s.log, e1, id, 0);
    LogSnoc(s.log + [e1], e2, id, 0);
    QueueAfter(s.list, i, s'.list[i], id);
    assert a.waiting == [w] + a.waiting[1..];
  }

  lemma AnswerPop(s: State, s': State, i: nat, u: nat, owed: Option<nat>)
    requires Popped(s, s', i) && AnsweredFor(s, u, owed)
    requires !IsWaiting(s.list[i := s.list[i].(waiting := s.list[i].waiting[1..])], s.list[i].waiting[0])
    ensures AnsweredFor(s', u, owed)
  {
    var a, w := s.list[i], s.list[i].waiting[0];
    var e1, e2 := HandedOver(a.id, w), Acked(w, AgentLock);
    assert s'.log == s.log + [e1] + [e2];
    LogSnoc(s.log, e1, 0, u);
    LogSnoc(s.log + [e1], e2, 0, u);
    WaitersAfterPop(s.list, i, u);
    SameWaiting(s'.list, s.list[i := a.(waiting := a.waiting[1..])], u);
  }

  lemma SameWaiting(list: seq<Agent>, list': seq<Agent>, t: nat)
    requires SameQueues(list, list')
    ensures IsWaiting(list, t) == IsWaiting(list', t)
  {
  }

  lemma WaitersAfterPop(list: seq<Agent>, i: nat, u: nat)
    requires i < |list| && list[i].waiting != []
    ensures var list' := list[i := list[i].(waiting := list[i].waiting[1..])];
      && (u != list[i].waiting[0] ==> (IsWaiting(list', u) <==> IsWaiting(list, u)))
      && (u == list[i].waiting[0] ==> IsWaiting(list, u))
  {
    var list' := list[i := list[i].(waiting := list[i].waiting[1..])];
    assert list[i].waiting == [list[i].waiting[0]] + list'[i].waiting;
    assert list[i].waiting[0] in list[i].waiting;
    if u != list[i].waiting[0] && IsWaiting(list, u) {
      var k :| 0 <= k < |list| && u in list[k].waiting;
      assert u in list'[k].waiting;
    }
    if IsWaiting(list', u) {
      var k :| 0 <= k < |list'| && u in list'[k].waiting;
      assert u in list[k].waiting;
    }
  }

  // ---- each action ----

  lemma BookLock(s: State, id: nat, t: nat)
    requires Inv(s, None) && Booked(s, Some(t)) && t < |s.locks| && !IsWaiting(s.list, t)
    ensures var (s', ret) := TeeLock(s, id, t);
      Booked(s', if ret == Busy then None else Some(t))
  {
    var r := Find(s.list, id);
    if r.Some? && s.list[r.value].holder != Some(t) {
      if s.list[r.value].locked {
        BookWait(s, r.value, t);
      } else {
        BookSame(s, Grant(s, r.value, t), Some(t));
      }
    }
  }

  lemma ApplyLock(s: State, id: nat, t: nat, permitted: bool)
    requires Inv(s, None) && Booked(s, None) && t < |s.locks| && !IsWaiting(s.list, t)
    ensures Inv(ProcessLock(s, id, t, permitted), None) && Booked(ProcessLock(s, id, t, permitted), None)
  {
    var s1 := Log(s, Requested(t));
    BookRequested(s, t);
    SameShape(s, s1, None);
    if IsSystemAgent(id) && !permitted {
      BookAcked(s1, t, InvalidAgent);
      SameShape(s1, Log(s1, Acked(t, InvalidAgent)), None);
    } else {
      var (s2, ret) := TeeLock(s1, id, t);
      LockKeeps(s1, id, t);
      BookLock(s1, id, t);
      if ret != Busy {
        var code := if ret == Success then AgentLock else InvalidAgent;
        BookAcked(s2, t, code);
        SameShape(s2, Log(s2, Acked(t, code)), None);
      }
    }
  }

  lemma BookUnlock(s: State, i: nat, t: nat, owed: Option<nat>)
    requires Inv(s, None) && Booked(s, owed) && i < |s.list| && t < |s.locks| && s.list[i].holder == Some(t)
    ensures forall w :: w in s.list[i].waiting ==> w < |s.locks|
    ensures Booked(Unlock(s, i, t), owed)
  {
    UnlockKeeps(s, i, t);
    ReleaseKeeps(s, i, t);
    BookSame(s, Release(s, i, t), owed);
    BookHandOver(Release(s, i, t), i, owed);
  }

  lemma ApplyUnlock(s: State, id: nat, t: nat)
    requires Inv(s, None) && Booked(s, None) && Holds(s, id, t)
    ensures Inv(ProcessUnlock(s, id, t), None) && Booked(ProcessUnlock(s, id, t), None)
  {
    var s1 := Log(s, Requested(t));
    BookRequested(s, t);
    SameShape(s, s1, None);
    var i := HeldAgent(s, id, t);
    UnlockKeeps(s1, i, t);
    BookUnlock(s1, i, t, Some(t));
    var s2 := Unlock(s1, i, t);
    BookAcked(s2, t, AgentLock);
    SameShape(s2, Log(s2, Acked(t, AgentLock)), None);
  }

  lemma ApplyUnlockInVain(s: State, id: nat, t: nat)
    requires Inv(s, None) && Booked(s, None) && UnlocksInVain(s, id, t)
    ensures Inv(UnlockUnheld(s, id, t).0, None) && Booked(UnlockUnheld(s, id, t).0, None)
  {
    UnheldChangesNothing(s, id, t);
    var code := if Find(s.list, id).Some? then AgentLock else InvalidAgent;
    var s1 := Log(s, Requested(t));
    var s2 := Log(s1, Acked(t, code));
    BookRequested(s, t);
    BookAcked(s1, t, code);
    SameShape(s, s2, None);
    assert s.log + [Requested(t)] + [Acked(t, code)] == s.log + [Requested(t), Acked(t, code)];
  }

  lemma {:induction false} BookRounds(s: State, t: nat, n: nat)
    requires Inv(s, None) && Booked(s, None) && t < |s.locks|
    ensures Booked(UnlockRounds(s, t, n), None)
    decreases n
  {
    hide Inv, Booked, UnlockRounds, Unlock;
    if n > 0 && s.locks[t] != [] {
      var i := FirstRound(s, t, n);
      BookUnlock(s, i, t, None);
      BookRounds(Unlock(s, i, t), t, n - 1);
    } else {
      NoRound(s, t, n);
    }
  }

  /** The first of n rounds unlocks an agent that the session holds. */
  lemma FirstRound(s: State, t: nat, n: nat) returns (i: nat)
    requires Inv(s, None) && t < |s.locks| && n > 0 && s.locks[t] != []
    ensures i < |s.list| && s.list[i].holder == Some(t) && forall w :: w in s.list[i].waiting ==> w < |s.locks|
    ensures Inv(Unlock(s, i, t), None) && t < |Unlock(s, i, t).locks|
    ensures UnlockRounds(s, t, n) == UnlockRounds(Unlock(s, i, t), t, n - 1)
  {
    assert s.locks[t][0] in s.locks[t];
    i := HeldAgent(s, s.locks[t][0], t);
    UnlockKeeps(s, i, t);
    hide Inv, Unlock;
  }

  lemma NoRound(s: State, t: nat, n: nat)
    requires Inv(s, None) && t < |s.locks| && (n == 0 || s.locks[t] == [])
    ensures UnlockRounds(s, t, n) == s
  {
  }

  /** A session that leaves its queue gives up its place and its answer. */
  lemma BookAbandon(s: State, t: nat)
    requires Inv(s, None) && Booked(s, None)
    ensures Booked(Abandon(s, t), None)
  {
    var r := QueuedAt(s.list, t);
    if r.Some? {
      var s' := Abandon(s, t);
      AbandonKeeps(s, t);
      hide Inv, Abandon, Queue, IsWaiting, Without;
      forall id ensures FifoFor(s', id) {
        assert FifoFor(s, id);
        FifoLeave(s, s', r.value, t, id);
      }
      forall u ensures AnsweredFor(s', u, None) {
        assert AnsweredFor(s, u, None);
        AnswerLeave(s, s', r.value, t, u);
      }
    }
  }

  /** What leaving a queue does to it and to the log. */
  ghost predicate Gone(s: State, s': State, i: nat, t: nat) {
    && i < |s.list| && t in s.list[i].waiting
    && s'.list == s.list[i := s.list[i].(waiting := Without(s.list[i].waiting, t))]
    && s'.log == s.log + [Left(s.list[i].id, t)]
  }

  lemma FifoLeave(s: State, s': State, i: nat, t: nat, id: nat)
    requires Gone(s, s', i, t) && UniqueIds(s.list) && FifoFor(s, id)
    ensures FifoFor(s', id)
  {
    hide Line, InTurn, Requests, Acks, Queue, UniqueIds, Without;
    LogSnoc(s.log, Left(s.list[i].id, t), id, 0);
    QueueAfter(s.list, i, s'.list[i], id);
  }

  lemma AnswerLeave(s: State, s': State, i: nat, t: nat, u: nat)
    requires Gone(s, s', i, t) && !IsWaiting(s'.list, t) && AnsweredFor(s, u, None)
    ensures AnsweredFor(s', u, None)
  {
    LogSnoc(s.log, Left(s.list[i].id, t), 0, u);
    hide Requests, Acks, Departures, Without;
    if u == t {
      assert IsWaiting(s.list, t);
    } else if IsWaiting(s.list, u) {
      var k :| 0 <= k < |s.list| && u in s.list[k].waiting;
      assert u in s'.list[k].waiting;
    }
    if IsWaiting(s'.list, u) {
      var k :| 0 <= k < |s'.list| && u in s'.list[k].waiting;
      assert u in s.list[k].waiting;
    }
  }

  lemma ApplyRelease(s: State, t: nat)
    requires Inv(s, None) && Booked(s, None) && t < |s.locks|
    ensures Inv(Agents.ReleaseSession(s, t), None) && Booked(Agents.ReleaseSession(s, t), None)
  {
    hide Inv, Booked, UnlockRounds, Abandon;
    BookRounds(s, t, |s.locks[t]|);
    var s1 := UnlockRounds(s, t, |s.locks[t]|);
    AbandonKeeps(s1, t);
    BookAbandon(s1, t);
  }

  lemma BookRegister(s: State, s': State, a: Agent)
    requires Booked(s, None) && s'.list == s.list + [a] && s'.log == s.log && Find(s.list, a.id).None? && a.waiting == []
    requires UniqueIds(s'.list)
    ensures Booked(s', None)
  {
    forall id ensures FifoFor(s', id) {
      assert FifoFor(s, id);
      QueueAppend(s.list, a, id);
    }
    forall t ensures AnsweredFor(s', t, None) {
      assert AnsweredFor(s, t, None);
      if IsWaiting(s.list, t) {
        var k :| 0 <= k < |s.list| && t in s.list[k].waiting;
        assert t in s'.list[k].waiting;
      }
      if IsWaiting(s'.list, t) {
        var k :| 0 <= k < |s'.list| && t in s'.list[k].waiting;
        assert t in s.list[k].waiting;
      }
    }
  }

  lemma QueueAppend(list: seq<Agent>, a: Agent, id: nat)
    requires UniqueIds(list + [a]) && Find(list, a.id).None? && a.waiting == []
    ensures Queue(list + [a], id) == Queue(list, id)
  {
    var r := Find(list, id);
    if r.Some? {
      FindIs(list + [a], r.value);
    }
  }

  lemma BookRemove(s: State, s': State, i: nat)
    requires Booked(s, None) && i < |s.list| && s.list[i].waiting == [] && UniqueIds(s.list) && UniqueIds(s'.list)
    requires s'.list == s.list[..i] + s.list[i + 1..] && s'.log == s.log
    ensures Booked(s', None)
  {
    forall id ensures FifoFor(s', id) {
      assert FifoFor(s, id);
      QueueRemove(s.list, i, id);
    }
    forall t ensures AnsweredFor(s', t, None) {
      assert AnsweredFor(s, t, None);
      if IsWaiting(s.list, t) {
        var k :| 0 <= k < |s.list| && t in s.list[k].waiting;
        assert t in s'.list[if k < i then k else k - 1].waiting;
      }
      if IsWaiting(s'.list, t) {
        var k :| 0 <= k < |s'.list| && t in s'.list[k].waiting;
        assert t in s.list[if k < i then k else k + 1].waiting;
      }
    }
  }

  lemma QueueRemove(list: seq<Agent>, i: nat, id: nat)
    requires UniqueIds(list) && i < |list| && UniqueIds(list[..i] + list[i + 1..]) && list[i].waiting == []
    ensures Queue(list[..i] + list[i + 1..], id) == Queue(list, id)
  {
    var list' := list[..i] + list[i + 1..];
    var r := Find(list, id);
    if r.Some? && r.value != i {
      FindIs(list', if r.value < i then r.value else r.value - 1);
    } else if Find(list', id).Some? {
      var k := Find(list', id).value;
      FindIs(list, if k < i then k else k + 1);
    }
  }

  /** Every action keeps the invariant and the books. */
  lemma ApplyKeeps(s: State, a: Action)
    requires Inv(s, None) && Booked(s, None) && Enabled(s, a)
    ensures Inv(Apply(s, a), None) && Booked(Apply(s, a), None)
  {
    match a
    case Lock(t, id, permitted) => ApplyLock(s, id, t, permitted);
    case UnlockOne(t, id) =>
      if Holds(s, id, t) {
        ApplyUnlock(s, id, t);
      } else {
        ApplyUnlockInVain(s, id, t);
      }
    case UnlockAll(t) => BookRounds(s, t, |s.locks[t]|);
    case ReleaseSession(t) => ApplyRelease(s, t);
    case RegisterAgent(id, size, inMailbox, otherAllowed, allocOk) =>
      RegisterKeeps(s, id, size, inMailbox, otherAllowed, allocOk);
      var s' := Apply(s, a);
      if s' != s {
        BookRegister(s, s', s'.list[|s.list|]);
      }
    case UnregisterAgent(id) =>
      ApplyUnregister(s, id);
    case GetAgentBuffer(t, id, mapped) =>
      BufferKeeps(s, id, t, mapped);
      BookSame(s, Apply(s, a), None);
  }

  lemma ApplyUnregister(s: State, id: nat)
    requires Inv(s, None) && Booked(s, None)
    ensures Inv(Unregister(s, id).0, None) && Booked(Unregister(s, id).0, None)
  {
    UnregisterKeeps(s, id);
    UnregisterIs(s, id);
    var s' := Unregister(s, id).0;
    if s' != s {
      var i :| && 0 <= i < |s.list| && s.list[i].id == id && !s.list[i].locked && s.list[i].waiting == []
               && s' == s.(list := s.list[..i] + s.list[i + 1..], cnt := s.cnt - 1);
      BookRemove(s, s', i);
    }
  }

  // ---- whole runs ----

  ghost predicate IsRun(s: State, acts: seq<Action>)
    requires Inv(s, None) && Booked(s, None)
    decreases |acts|
  {
    acts != [] ==> Enabled(s, acts[0]) && (ApplyKeeps(s, acts[0]); IsRun(Apply(s, acts[0]), acts[1..]))
  }

  ghost function After(s: State, acts: seq<Action>): (s': State)
    requires Inv(s, None) && Booked(s, None) && IsRun(s, acts)
    ensures Inv(s', None) && Booked(s', None)
    decreases |acts|
  {
    if acts == [] then s else ApplyKeeps(s, acts[0]); After(Apply(s, acts[0]), acts[1..])
  }

  lemma InitKeeps(s: State)
    requires Init(s)
    ensures Inv(s, None) && Booked(s, None)
  {
    forall t | 0 <= t < |s.locks| ensures SessionOk(s, t) {
    }
  }

  ghost predicate Reachable(s: State) {
    exists s0, acts :: Init(s0) && Inv(s0, None) && Booked(s0, None) && IsRun(s0, acts) && After(s0, acts) == s
  }

  lemma {:induction false} RunSnoc(s: State, acts: seq<Action>, a: Action)
    requires Inv(s, None) && Booked(s, None) && IsRun(s, acts) && Enabled(After(s, acts), a)
    ensures IsRun(s, acts + [a]) && After(s, acts + [a]) == Apply(After(s, acts), a)
    decreases |acts|
  {
    hide Inv, Booked, Enabled, Apply;
    if acts == [] {
      assert acts + [a] == [a];
      ApplyKeeps(s, a);
      assert [a][1..] == [];
    } else {
      ApplyKeeps(s, acts[0]);
      RunSnoc(Apply(s, acts[0]), acts[1..], a);
      assert (acts + [a])[1..] == acts[1..] + [a];
    }
  }

  lemma ReachableStep(s: State, a: Action)
    requires Reachable(s) && Inv(s, None) && Enabled(s, a)
    ensures Reachable(Apply(s, a)) && Inv(Apply(s, a), None)
  {
    hide Enabled, Apply, Inv, Booked;
    var s0, acts :| Init(s0) && Inv(s0, None) && Booked(s0, None) && IsRun(s0, acts) && After(s0, acts) == s;
    RunSnoc(s0, acts, a);
    ApplyKeeps(s, a);
  }

  lemma InitReachable(s: State)
    requires Init(s)
    ensures Reachable(s) && Inv(s, None)
  {
    InitKeeps(s);
    assert After(s, []) == s;
  }

  /** A lone agent and three sessions, of which 0 may hold it and others may wait. */
  function Lone(id: nat, holder: Option<nat>, waiting: seq<nat>, log: seq<Event>): State {
    State([Agent(id, holder.Some?, holder, 0, AGENT_BUFF_SIZE, waiting)],
          [if holder.Some? then [id] else [], [], []], 1, log)
  }

  lemma LoneRegisters(id: nat)
    ensures var s := State([], [[], [], []], 0, []);
      Register(s, id, AGENT_BUFF_SIZE, true, true, true).0 == Lone(id, None, [], [])
  {
  }

  lemma LoneLocks(id: nat, log: seq<Event>)
    requires !IsSystemAgent(id)
    ensures ProcessLock(Lone(id, None, [], log), id, 0, true)
         == Lone(id, Some(0), [], log + [Requested(0)] + [Acked(0, AgentLock)])
  {
    var s := Log(Lone(id, None, [], log), Requested(0));
    assert Find(s.list, id) == Some(0);
    var s' := Grant(s, 0, 0);
    assert s'.list[0] == Lone(id, Some(0), [], log).list[0];
    assert s'.list == Lone(id, Some(0), [], log).list;
    assert s'.locks[0] == [] + [id] == [id];
    assert s'.locks == [[id], [], []];
  }

  lemma LoneWaits(id: nat, log: seq<Event>)
    requires !IsSystemAgent(id)
    ensures ProcessLock(Lone(id, Some(0), [], log), id, 1, true)
         == Lone(id, Some(0), [1], log + [Requested(1)] + [Arrived(id, 1)])
  {
    var s := Log(Lone(id, Some(0), [], log), Requested(1));
    assert Find(s.list, id) == Some(0);
    var s' := AddWaiting(s, 0, 1);
    assert s'.list[0].waiting == [] + [1] == [1];
    assert s'.list[0] == Lone(id, Some(0), [1], log).list[0];
    assert s'.list == Lone(id, Some(0), [1], log).list;
  }

  /** Session 0 has locked the agent and session 1 waits for it. */
  function OneWaits(id: nat): State {
    Lone(id, Some(0), [1], [] + [Requested(0)] + [Acked(0, AgentLock)] + [Requested(1)] + [Arrived(id, 1)])
  }

  lemma OneWaitsReachable(id: nat)
    requires !IsSystemAgent(id)
    ensures Reachable(OneWaits(id)) && Inv(OneWaits(id), None)
  {
    hide Reachable, Inv, ProcessLock, Register;
    var s0 := State([], [[], [], []], 0, []);
    InitReachable(s0);
    LoneRegisters(id);
    ReachableStep(s0, RegisterAgent(id, AGENT_BUFF_SIZE, true, true, true));
    LoneLocks(id, []);
    ReachableStep(Lone(id, None, [], []), Lock(0, id, true));
    var log: seq<Event> := [] + [Requested(0)] + [Acked(0, AgentLock)];
    LoneWaits(id, log);
    ReachableStep(Lone(id, Some(0), [], log), Lock(1, id, true));
  }

  /** Session 0 holds an agent, 1 waits for it, and an unlock by 2 never returns. */
  lemma UnlockSpinsHappens(id: nat) returns (s: State)
    requires !IsSystemAgent(id)
    ensures Reachable(s) && 2 < |s.locks| && id !in s.locks[2] && !IsWaiting(s.list, 2)
    ensures UnlockUnheld(s, id, 2).1.None?
  {
    hide Reachable, Inv;
    OneWaitsReachable(id);
    s := OneWaits(id);
    assert Find(s.list, id) == Some(0);
  }

  /** An agent is locked iff it has a locking session iff it is in that session's list, and in no other. */
  lemma LockedIff(s: State, i: nat)
    requires Reachable(s) && i < |s.list|
    ensures s.list[i].locked <==> s.list[i].holder.Some?
    ensures forall t :: 0 <= t < |s.locks| ==> (s.list[i].id in s.locks[t] <==> s.list[i].holder == Some(t))
    ensures s.list[i].holder.Some? ==> s.list[i].holder.value < |s.locks|
  {
    assert AgentOk(s.list[i], |s.locks|, false);
    forall t | 0 <= t < |s.locks|
      ensures s.list[i].id in s.locks[t] <==> s.list[i].holder == Some(t)
    {
      assert SessionOk(s, t);
      FindIs(s.list, i);
    }
  }

  /** An unlocked agent has neither waiters nor a mapped buffer; no session waits twice. */
  lemma QueuesAreSound(s: State, i: nat)
    requires Reachable(s) && i < |s.list|
    ensures !s.list[i].locked ==> s.list[i].waiting == [] && s.list[i].buffer == 0
    ensures forall j, k, l :: 0 <= j < |s.list| && 0 <= k < |s.list[i].waiting| && 0 <= l < |s.list[j].waiting| ==>
      s.list[i].waiting[k] == s.list[j].waiting[l] ==> i == j && k == l
    ensures s.list[i].holder.Some? ==> s.list[i].holder.value !in s.list[i].waiting
  {
    assert AgentOk(s.list[i], |s.locks|, false);
    forall j, k, l | 0 <= j < |s.list| && 0 <= k < |s.list[i].waiting| && 0 <= l < |s.list[j].waiting| &&
      s.list[i].waiting[k] == s.list[j].waiting[l]
      ensures i == j && k == l
    {
      assert s.list[i].waiting[k] in s.list[i].waiting && s.list[i].waiting[k] in s.list[j].waiting;
    }
  }

  /**
    Each lock or unlock request is answered exactly once, or its session is in exactly one queue,
    or it was released from one.
   */
  lemma AnsweredOnce(s: State, t: nat)
    requires Reachable(s)
    ensures Requests(s.log, t) - Acks(s.log, t) == Departures(s.log, t) + if IsWaiting(s.list, t) then 1 else 0
  {
    assert AnsweredFor(s, t, None);
  }

  /** What an unlock by session t does to the agent it held and to the log. */
  ghost predicate PassedOn(s: State, s': State, i: nat, t: nat, events: seq<Event>)
    requires i < |s.list|
  {
    && |s'.list| == |s.list| && |s'.locks| == |s.locks|
    && s'.list[i].waiting == (if s.list[i].waiting == [] then [] else s.list[i].waiting[1..])
    && s'.list[i].holder == (if s.list[i].waiting == [] then None else Some(s.list[i].waiting[0]))
    && s'.list[i].locked == (s.list[i].waiting != []) && s'.list[i].buffer == 0
    && (t < |s.locks| ==> s.list[i].id !in s'.locks[t])
    && s'.log == s.log + events
  }

  function HandOverEvents(a: Agent): seq<Event> {
    if a.waiting == [] then [] else [HandedOver(a.id, a.waiting[0]), Acked(a.waiting[0], AgentLock)]
  }

  lemma UnlockIs(s: State, i: nat, t: nat)
    requires Inv(s, None) && i < |s.list| && t < |s.locks| && s.list[i].holder == Some(t)
    ensures forall w :: w in s.list[i].waiting ==> w < |s.locks|
    ensures PassedOn(s, Unlock(s, i, t), i, t, HandOverEvents(s.list[i]))
  {
    UnlockKeeps(s, i, t);
    assert SessionOk(s, t);
    WithoutDistinct(s.locks[t], s.list[i].id);
    ReleaseKeeps(s, i, t);
    if s.list[i].waiting != [] {
      HandOverIs(Release(s, i, t), i);
    }
  }

  /** Unlocking hands the agent to the longest waiter, which is told so; with no waiter it is free. */
  lemma UnlockHandsOver(s: State, i: nat, t: nat)
    requires Reachable(s) && i < |s.list| && t < |s.locks| && s.list[i].id in s.locks[t]
    ensures Holds(s, s.list[i].id, t)
    ensures PassedOn(s, ProcessUnlock(s, s.list[i].id, t), i, t,
                     [Requested(t)] + HandOverEvents(s.list[i]) + [Acked(t, AgentLock)])
  {
    FindIs(s.list, i);
    var k := HeldAgent(s, s.list[i].id, t);
    var s1 := Log(s, Requested(t));
    SameShape(s, s1, None);
    hide Reachable, Inv;
    UnlockIs(s1, i, t);
    var events := HandOverEvents(s.list[i]);
    assert s.log + [Requested(t)] + events + [Acked(t, AgentLock)]
        == s.log + ([Requested(t)] + events + [Acked(t, AgentLock)]);
  }

  /** When a TA has answered its command its session holds no agent. */
  lemma AnsweredSessionHoldsNothing(s: State, t: nat)
    requires Reachable(s) && t < |s.locks|
    ensures var s' := Apply(s, UnlockAll(t));
      && t < |s'.locks| && s'.locks[t] == []
      && forall i :: 0 <= i < |s'.list| ==> s'.list[i].holder != Some(t)
  {
    var s' := Apply(s, UnlockAll(t));
    assert SessionOk(s', t);
  }

  /** Ids are unique, at most 32 agents exist and are counted right, and every buffer has an allowed size. */
  lemma ListIsSound(s: State)
    requires Reachable(s)
    ensures UniqueIds(s.list) && s.cnt == |s.list| <= AGENT_MAX
    ensures forall i :: 0 <= i < |s.list| ==> AGENT_BUFF_SIZE <= s.list[i].size <= BITS_PER_BYTE * AGENT_BUFF_SIZE
  {
    forall i | 0 <= i < |s.list|
      ensures AGENT_BUFF_SIZE <= s.list[i].size <= BITS_PER_BYTE * AGENT_BUFF_SIZE
    {
      assert AgentOk(s.list[i], |s.locks|, false);
    }
  }

  ghost predicate SameIds(list: seq<Agent>, list': seq<Agent>) {
    |list| == |list'| && forall i :: 0 <= i < |list| ==> list[i].id == list'[i].id
  }

  lemma {:induction false} RoundsKeepIds(s: State, t: nat, n: nat)
    requires Inv(s, None) && t < |s.locks|
    ensures SameIds(s.list, UnlockRounds(s, t, n).list)
    decreases n
  {
    hide Inv, UnlockRounds, Unlock;
    if n > 0 && s.locks[t] != [] {
      var i := FirstRound(s, t, n);
      UnlockKeepsIds(s, i, t);
      RoundsKeepIds(Unlock(s, i, t), t, n - 1);
    } else {
      NoRound(s, t, n);
    }
  }

  lemma UnlockKeepsIds(s: State, i: nat, t: nat)
    requires Inv(s, None) && i < |s.list| && t < |s.locks| && s.list[i].holder == Some(t)
    ensures forall w :: w in s.list[i].waiting ==> w < |s.locks|
    ensures SameIds(s.list, Unlock(s, i, t).list)
  {
    UnlockKeeps(s, i, t);
    ReleaseKeeps(s, i, t);
    if s.list[i].waiting != [] {
      HandOverIs(Release(s, i, t), i);
    }
  }

  lemma ProcessLockKeepsIds(s: State, id: nat, t: nat, permitted: bool)
    requires t < |s.locks|
    ensures SameIds(s.list, ProcessLock(s, id, t, permitted).list)
  {
    hide Find;
  }

  lemma ProcessUnlockKeepsIds(s: State, id: nat, t: nat)
    requires Inv(s, None) && Holds(s, id, t)
    ensures SameIds(s.list, ProcessUnlock(s, id, t).list)
  {
    var k := HeldAgent(s, id, t);
    SameShape(s, Log(s, Requested(t)), None);
    hide Inv, Unlock;
    UnlockKeepsIds(Log(s, Requested(t)), k, t);
  }

  /** The agents that an unregistration leaves. */
  lemma UnregisterLeaves(s: State, id: nat, i: nat)
    requires i < |s.list| && IsSystemAgent(s.list[i].id)
    ensures exists k :: 0 <= k < |Unregister(s, id).0.list| && Unregister(s, id).0.list[k].id == s.list[i].id
  {
    var s' := Unregister(s, id).0;
    if s' == s {
      assert s'.list[i].id == s.list[i].id;
    } else {
      var k := Find(s.list, id).value;
      assert s'.list[if i < k then i else i - 1] == s.list[i];
    }
  }

  /** A system agent, once registered, is never lost. */
  lemma SystemAgentsStay(s: State, a: Action, i: nat)
    requires Inv(s, None) && Enabled(s, a) && i < |s.list|
    requires s.list[i].id in {0x46536673, 0x4d495343, 0x69e85664, 0x4c4f4144, 0x564c544d}
    ensures exists k :: 0 <= k < |Apply(s, a).list| && Apply(s, a).list[k].id == s.list[i].id
  {
    hide Inv, ProcessLock, ProcessUnlock, UnlockRounds, Unregister;
    match a
    case Lock(t, id, permitted) =>
      ProcessLockKeepsIds(s, id, t, permitted);
      assert Apply(s, a).list[i].id == s.list[i].id;
    case UnlockOne(t, id) =>
      if Holds(s, id, t) {
        ProcessUnlockKeepsIds(s, id, t);
      } else {
        UnheldChangesNothing(s, id, t);
      }
      assert Apply(s, a).list[i].id == s.list[i].id;
    case UnlockAll(t) =>
      RoundsKeepIds(s, t, |s.locks[t]|);
      assert Apply(s, a).list[i].id == s.list[i].id;
    case ReleaseSession(t) =>
      RoundsKeepIds(s, t, |s.locks[t]|);
      assert Apply(s, a).list[i].id == s.list[i].id;
    case UnregisterAgent(id) =>
      UnregisterLeaves(s, id, i);
      assert Apply(s, a) == Unregister(s, id).0;
    case _ => assert Apply(s, a).list[i].id == s.list[i].id;
  }
}
