/**
  Agent manager (framework/gtask): agents that sessions lock one at a time, with a queue per agent
  and a list of locked agents per session.
 */
module Agents {
  import opened Options

  const AGENT_MAX: nat := 32
  const AGENT_BUFF_SIZE: nat := 4096
  const BITS_PER_BYTE: nat := 8

  predicate IsSystemAgent(id: nat) {
    id == 0x46536673 || id == 0x4d495343 || id == 0x69e85664 || id == 0x4c4f4144 || id == 0x564c544d
  }

  datatype Status = Success | BadParameters | Generic | Busy
  datatype AckCode = AgentLock | InvalidAgent

  /** An agent_control. `waiting` is its queue of sessions, oldest first. */
  datatype Agent = Agent(id: nat, locked: bool, holder: Option<nat>, buffer: nat, size: nat, waiting: seq<nat>)

  datatype Event =
    | Requested(session: nat)             // a lock or unlock message arrives
    | Acked(session: nat, code: AckCode)  // tee_unblock_agent
    | Arrived(agent: nat, waiter: nat)    // a session joins an agent's queue
    | HandedOver(agent: nat, waiter: nat) // the agent goes from its queue to a session
    | Left(agent: nat, waiter: nat)       // a session is released while it waits

  /** g_agent_head, every session's locked_agents (by session number), g_agent_cnt, and what happened so far. */
  datatype State = State(list: seq<Agent>, locks: seq<seq<nat>>, cnt: nat, log: seq<Event>)

  /** find_agent: the position of the agent in the list */
  function Find(list: seq<Agent>, id: nat): (r: Option<nat>)
    ensures r.Some? ==> r.value < |list| && list[r.value].id == id
    ensures r.None? ==> forall i :: 0 <= i < |list| ==> list[i].id != id
  {
    if list == [] then None
    else if list[0].id == id then Some(0)
    else match Find(list[1..], id)
      case None => None
      case Some(i) => Some(i + 1)
  }

  function Without(ids: seq<nat>, id: nat): (r: seq<nat>)
    ensures forall x :: x in r ==> x in ids
    ensures forall x :: x in ids && x != id ==> x in r
  {
    if ids == [] then [] else if ids[0] == id then ids[1..] else [ids[0]] + Without(ids[1..], id)
  }

  function Log(s: State, e: Event): State { s.(log := s.log + [e]) }

  function SetAgent(s: State, i: nat, a: Agent): State
    requires i < |s.list|
  {
    s.(list := s.list[i := a])
  }

  /** add_waiting_session */
  function AddWaiting(s: State, i: nat, t: nat): State
    requires i < |s.list|
  {
    var a := s.list[i];
    if t in a.waiting then s else Log(SetAgent(s, i, a.(waiting := a.waiting + [t])), Arrived(a.id, t))
  }

  function Grant(s: State, i: nat, t: nat): State
    requires i < |s.list| && t < |s.locks|
  {
    var a := s.list[i];
    SetAgent(s, i, a.(holder := Some(t), locked := true)).(locks := s.locks[t := s.locks[t] + [a.id]])
  }

  /** tee_lock_agent */
  function TeeLock(s: State, id: nat, t: nat): (State, Status)
    requires t < |s.locks|
  {
    match Find(s.list, id)
    case None => (s, Generic)
    case Some(i) =>
      if s.list[i].holder == Some(t) then (s, Success)
      else if s.list[i].locked then (AddWaiting(s, i, t), Busy)
      else (Grant(s, i, t), Success)
  }

  /** The first part of tee_unlock_agent, together with the removal from the session's list before it. */
  function Release(s: State, i: nat, t: nat): State
    requires i < |s.list| && t < |s.locks|
  {
    var a := s.list[i];
    SetAgent(s, i, a.(locked := false, holder := None, buffer := 0)).(locks := s.locks[t := Without(s.locks[t], a.id)])
  }

  /** The rest of tee_unlock_agent: the agent goes to the first session that waits for it. */
  function HandOver(s: State, i: nat): State
    requires i < |s.list| && forall t :: t in s.list[i].waiting ==> t < |s.locks|
  {
    var a := s.list[i];
    if a.waiting == [] then s
    else
      var w := a.waiting[0];
      assert w in a.waiting;
      var popped := Log(SetAgent(s, i, a.(waiting := a.waiting[1..])), HandedOver(a.id, w));
      var (s', ret) := TeeLock(popped, a.id, w);
      Log(s', Acked(w, if ret == Success then AgentLock else InvalidAgent))
  }

  function Unlock(s: State, i: nat, t: nat): State
    requires i < |s.list| && t < |s.locks| && forall w :: w in s.list[i].waiting ==> w < |s.locks|
  {
    HandOver(Release(s, i, t), i)
  }

  /** process_lock_agent */
  function ProcessLock(s: State, id: nat, t: nat, permitted: bool): State
    requires t < |s.locks|
  {
    var s1 := Log(s, Requested(t));
    if IsSystemAgent(id) && !permitted then Log(s1, Acked(t, InvalidAgent))
    else
      var (s2, ret) := TeeLock(s1, id, t);
      match ret
      case Success => Log(s2, Acked(t, AgentLock))
      case Busy => s2
      case _ => Log(s2, Acked(t, InvalidAgent))
  }

  /** Does session t hold the agent with this id? */
  predicate Holds(s: State, id: nat, t: nat) {
    t < |s.locks| && id in s.locks[t] && Find(s.list, id).Some?
    && forall w :: w in s.list[Find(s.list, id).value].waiting ==> w < |s.locks|
  }

  /** process_unlock_agent by the holder */
  function ProcessUnlock(s: State, id: nat, t: nat): State
    requires Holds(s, id, t)
  {
    Log(Unlock(Log(s, Requested(t)), Find(s.list, id).value, t), Acked(t, AgentLock))
  }

  /** The queue without the sessions t in front of it. */
  function Strip(queue: seq<nat>, t: nat): (r: seq<nat>)
    ensures r == [] || r[0] != t
  {
    if queue != [] && queue[0] == t then Strip(queue[1..], t) else queue
  }

  lemma {:induction false} StripIff(queue: seq<nat>, t: nat)
    ensures Strip(queue, t) == [] <==> forall w :: w in queue ==> w == t
  {
    if queue != [] {
      assert forall w :: w in queue <==> w == queue[0] || w in queue[1..];
      assert queue[0] in queue;
      StripIff(queue[1..], t);
    }
  }

  lemma FirstIsIn(queue: seq<nat>)
    ensures queue == [] || queue[0] in queue
  {
  }

  /** process_unlock_agent by a session without the agent: the status, or None if the call never returns */
  function UnlockUnheld(s: State, id: nat, t: nat): (State, Option<Status>) {
    var s1 := Log(s, Requested(t));
    match Find(s.list, id)
    case None => (Log(s1, Acked(t, InvalidAgent)), Some(Generic))
    case Some(i) =>
      var a := s.list[i];
      var s2 := SetAgent(s1, i, a.(waiting := Strip(a.waiting, t)));
      if Strip(a.waiting, t) == [] then (Log(s2, Acked(t, AgentLock)), Some(Generic)) else (s2, None)
  }

  /** Such a call returns exactly when no other session waits for the agent. */
  lemma UnheldReturnsIff(s: State, id: nat, t: nat)
    ensures UnlockUnheld(s, id, t).1.Some? <==>
      forall i, w :: Find(s.list, id) == Some(i) && w in s.list[i].waiting ==> w == t
  {
    if Find(s.list, id).Some? {
      StripIff(s.list[Find(s.list, id).value].waiting, t);
    }
  }

  /** A session that waits for nothing and gets its answer has changed nothing. */
  lemma UnheldChangesNothing(s: State, id: nat, t: nat)
    requires !IsWaiting(s.list, t) && UnlockUnheld(s, id, t).1.Some?
    ensures var code := if Find(s.list, id).Some? then AgentLock else InvalidAgent;
      UnlockUnheld(s, id, t) == (s.(log := s.log + [Requested(t), Acked(t, code)]), Some(Generic))
  {
    var r := Find(s.list, id);
    var code := if r.Some? then AgentLock else InvalidAgent;
    assert s.log + [Requested(t)] + [Acked(t, code)] == s.log + [Requested(t), Acked(t, code)];
    if r.Some? {
      var a := s.list[r.value];
      StripIff(a.waiting, t);
      FirstIsIn(a.waiting);
      assert s.list[r.value := a] == s.list;
    }
  }

  /** register_agent, once its parameters are unpacked */
  function Register(s: State, id: nat, size: nat, inMailbox: bool, otherAllowed: bool, allocOk: bool): (State, Status) {
    if s.cnt >= AGENT_MAX then (s, Generic)
    else if !inMailbox then (s, BadParameters)
    else if !otherAllowed && !IsSystemAgent(id) then (s, Generic)
    else if size < AGENT_BUFF_SIZE || size > BITS_PER_BYTE * AGENT_BUFF_SIZE then (s, Generic)
    else if Find(s.list, id).Some? || !allocOk then (s, Generic)
    else (s.(list := s.list + [Agent(id, false, None, 0, size, [])], cnt := s.cnt + 1), Success)
  }

  function AckAll(log: seq<Event>, ts: seq<nat>): seq<Event>
    decreases |ts|
  {
    if ts == [] then log else AckAll(log + [Acked(ts[0], InvalidAgent)], ts[1..])
  }

  /** unregister_agent */
  function Unregister(s: State, id: nat): (State, Status) {
    if s.cnt == 0 || IsSystemAgent(id) then (s, Generic)
    else
      match Find(s.list, id)
      case None => (s, Success)
      case Some(i) =>
        if s.list[i].locked then (s, Generic)
        else (s.(list := s.list[..i] + s.list[i + 1..], cnt := s.cnt - 1, log := AckAll(s.log, s.list[i].waiting)), Success)
  }

  /** process_get_agent_buffer: a buffer is mapped only for the session that holds the agent */
  function GetBuffer(s: State, id: nat, t: nat, mapped: Option<nat>): (State, Option<nat>) {
    match Find(s.list, id)
    case None => (s, None)
    case Some(i) =>
      var a := s.list[i];
      if !(a.locked && a.holder == Some(t)) then (s, None)
      else if a.buffer != 0 then (s, Some(a.buffer))
      else if mapped.None? then (s, None)
      else (SetAgent(s, i, a.(buffer := mapped.value)), Some(mapped.value))
  }

  // ---- the invariant ----

  ghost predicate UniqueIds(list: seq<Agent>) {
    forall i, j :: 0 <= i < j < |list| ==> list[i].id != list[j].id
  }

  ghost predicate Distinct(ts: seq<nat>) { forall i, j :: 0 <= i < j < |ts| ==> ts[i] != ts[j] }

  /** `free` is set for the one agent that is being handed over: it is unlocked and may have a queue. */
  ghost predicate AgentOk(a: Agent, sessions: nat, free: bool) {
    && a.locked == a.holder.Some?
    && AGENT_BUFF_SIZE <= a.size <= BITS_PER_BYTE * AGENT_BUFF_SIZE
    && (a.holder.Some? ==> a.holder.value < sessions && a.holder.value !in a.waiting)
    && (!a.locked ==> a.buffer == 0)
    && (if free then !a.locked else !a.locked ==> a.waiting == [])
    && Distinct(a.waiting) && forall t :: t in a.waiting ==> t < sessions
  }

  ghost predicate AgentsOk(s: State, free: Option<nat>) {
    forall i :: 0 <= i < |s.list| ==> AgentOk(s.list[i], |s.locks|, free == Some(i))
  }

  /** A session's list holds exactly the agents it is the holder of, once each. */
  ghost predicate SessionOk(s: State, t: nat)
    requires t < |s.locks|
  {
    && Distinct(s.locks[t])
    && (forall id :: id in s.locks[t] ==> Find(s.list, id).Some? && s.list[Find(s.list, id).value].holder == Some(t))
    && (forall i :: 0 <= i < |s.list| && s.list[i].holder == Some(t) ==> s.list[i].id in s.locks[t])
  }

  ghost predicate SessionsOk(s: State) { forall t :: 0 <= t < |s.locks| ==> SessionOk(s, t) }

  ghost predicate OneQueue(list: seq<Agent>) {
    forall i, j, t :: 0 <= i < j < |list| && t in list[i].waiting ==> t !in list[j].waiting
  }

  ghost predicate Inv(s: State, free: Option<nat>) {
    && UniqueIds(s.list) && s.cnt == |s.list| <= AGENT_MAX
    && AgentsOk(s, free) && SessionsOk(s) && OneQueue(s.list)
  }

  ghost predicate IsWaiting(list: seq<Agent>, t: nat) { exists i :: 0 <= i < |list| && t in list[i].waiting }

  // ---- searching ----

  lemma {:induction false} FindIs(list: seq<Agent>, i: nat)
    requires UniqueIds(list) && i < |list|
    ensures Find(list, list[i].id) == Some(i)
  {
    var r := Find(list, list[i].id);
    assert r.Some? && list[r.value].id == list[i].id;
  }

  lemma {:induction false} FindUpdate(list: seq<Agent>, i: nat, a: Agent, id: nat)
    requires i < |list| && a.id == list[i].id
    ensures Find(list[i := a], id) == Find(list, id)
  {
    if i > 0 {
      assert list[i := a][1..] == list[1..][i - 1 := a];
      FindUpdate(list[1..], i - 1, a, id);
    } else {
      assert list[i := a][1..] == list[1..];
    }
  }

  lemma {:induction false} WithoutDistinct(ids: seq<nat>, id: nat)
    requires Distinct(ids)
    ensures Distinct(Without(ids, id)) && id !in Without(ids, id)
  {
    if ids != [] {
      assert forall i, j :: 0 <= i < j < |ids[1..]| ==> ids[1..][i] == ids[i + 1] && ids[1..][j] == ids[j + 1];
      WithoutDistinct(ids[1..], id);
      if ids[0] != id {
        DistinctCons(ids[0], Without(ids[1..], id));
      }
    }
  }

  lemma DistinctCons(x: nat, ids: seq<nat>)
    requires Distinct(ids) && x !in ids
    ensures Distinct([x] + ids)
  {
  }

  // ---- the pieces of lock and unlock ----

  /** Changing one agent's lock, and its holders' lists with it, keeps the lists exact. */
  lemma SessionsAfter(s: State, s': State, i: nat, a: Agent, t: nat)
    requires UniqueIds(s.list) && SessionsOk(s) && i < |s.list| && t < |s.locks| == |s'.locks|
    requires s'.list == s.list[i := a] && a.id == s.list[i].id
    requires forall u :: 0 <= u < |s.locks| && u != t ==> s'.locks[u] == s.locks[u]
    requires s.list[i].holder.None? || s.list[i].holder == Some(t)
    requires a.holder.None? || a.holder == Some(t)
    requires Distinct(s'.locks[t])
    requires forall id :: id != a.id ==> (id in s'.locks[t] <==> id in s.locks[t])
    requires a.id in s'.locks[t] <==> a.holder == Some(t)
    ensures SessionsOk(s')
  {
    forall u | 0 <= u < |s'.locks|
      ensures SessionOk(s', u)
    {
      assert SessionOk(s, u);
      forall id | id in s'.locks[u]
        ensures Find(s'.list, id).Some? && s'.list[Find(s'.list, id).value].holder == Some(u)
      {
        FindUpdate(s.list, i, a, id);
        FindIs(s.list, i);
      }
      forall k | 0 <= k < |s'.list| && s'.list[k].holder == Some(u)
        ensures s'.list[k].id in s'.locks[u]
      {
        if k != i {
          assert s.list[k].holder == Some(u) && s.list[k].id != a.id;
        }
      }
    }
  }

  lemma ReleaseKeeps(s: State, i: nat, t: nat)
    requires Inv(s, None) && i < |s.list| && t < |s.locks| && s.list[i].holder == Some(t)
    ensures Inv(Release(s, i, t), Some(i))
  {
    var s' := Release(s, i, t);
    assert AgentOk(s.list[i], |s.locks|, false) && SessionOk(s, t);
    WithoutDistinct(s.locks[t], s.list[i].id);
    SessionsAfter(s, s', i, s'.list[i], t);
  }

  /** Popping the first waiter of the free agent: it then waits nowhere. */
  lemma PopKeeps(s: State, i: nat)
    requires Inv(s, Some(i)) && i < |s.list| && s.list[i].waiting != []
    ensures var a := s.list[i];
      var list := s.list[i := a.(waiting := a.waiting[1..])];
      && a.waiting[0] < |s.locks| && !IsWaiting(list, a.waiting[0])
      && Inv(s.(list := list), Some(i))
  {
    var a := s.list[i];
    var a' := a.(waiting := a.waiting[1..]);
    var list := s.list[i := a'];
    assert AgentOk(a, |s.locks|, true);
    var w := a.waiting[0];
    assert w in a.waiting && forall k :: 0 <= k < |a'.waiting| ==> a'.waiting[k] == a.waiting[k + 1] != w;
    assert forall x :: x in a'.waiting ==> x in a.waiting;
    assert Distinct(a'.waiting);
    assert AgentOk(a', |s.locks|, true);
    assert forall j :: 0 <= j < |s.list| && j != i ==> w !in s.list[j].waiting;
    SameHolders(s, i, a');
    assert OneQueue(list);
  }

  /** A change to an agent that leaves its holder alone leaves the sessions' lists exact. */
  lemma SameHolders(s: State, i: nat, a: Agent)
    requires SessionsOk(s) && i < |s.list| && a.id == s.list[i].id && a.holder == s.list[i].holder
    ensures SessionsOk(SetAgent(s, i, a))
  {
    forall u | 0 <= u < |s.locks|
      ensures SessionOk(SetAgent(s, i, a), u)
    {
      assert SessionOk(s, u);
      forall id | id in s.locks[u]
        ensures Find(s.list[i := a], id) == Find(s.list, id)
      {
        FindUpdate(s.list, i, a, id);
      }
    }
  }

  lemma GrantKeeps(s: State, i: nat, t: nat)
    requires Inv(s, Some(i)) && i < |s.list| && t < |s.locks| && t !in s.list[i].waiting
    ensures Inv(Grant(s, i, t), None)
  {
    var s' := Grant(s, i, t);
    var id := s.list[i].id;
    assert AgentOk(s.list[i], |s.locks|, true) && SessionOk(s, t);
    FindIs(s.list, i);
    assert id !in s.locks[t];
    SessionsAfter(s, s', i, s'.list[i], t);
  }

  /** An agent without a queue needs no hand-over. */
  lemma NothingToHandOver(s: State, i: nat)
    requires Inv(s, Some(i)) && i < |s.list| && s.list[i].waiting == []
    ensures Inv(s, None)
  {
  }

  lemma FreeIfUnlocked(s: State, i: nat)
    requires Inv(s, None) && i < |s.list| && !s.list[i].locked
    ensures Inv(s, Some(i))
  {
  }

  /** The hand-over goes to the longest waiter, and the lock taken for it never fails. */
  lemma HandOverIs(s: State, i: nat)
    requires Inv(s, Some(i)) && i < |s.list| && s.list[i].waiting != []
    ensures var a := s.list[i];
      var w := a.waiting[0];
      && w < |s.locks|
      && HandOver(s, i) == Grant(s, i, w).(
           list := s.list[i := a.(holder := Some(w), locked := true, waiting := a.waiting[1..])],
           log := s.log + [HandedOver(a.id, w), Acked(w, AgentLock)])
  {
    var a := s.list[i];
    var w := a.waiting[0];
    assert AgentOk(a, |s.locks|, true);
    var popped := Log(SetAgent(s, i, a.(waiting := a.waiting[1..])), HandedOver(a.id, w));
    PopKeeps(s, i);
    FindIs(popped.list, i);
    assert TeeLock(popped, a.id, w) == (Grant(popped, i, w), Success);
    assert popped.list[i := a.(holder := Some(w), locked := true, waiting := a.waiting[1..])]
        == s.list[i := a.(holder := Some(w), locked := true, waiting := a.waiting[1..])];
    assert (s.log + [HandedOver(a.id, w)]) + [Acked(w, AgentLock)] == s.log + [HandedOver(a.id, w), Acked(w, AgentLock)];
  }

  lemma HandOverKeeps(s: State, i: nat)
    requires Inv(s, Some(i)) && i < |s.list|
    ensures forall w :: w in s.list[i].waiting ==> w < |s.locks|
    ensures Inv(HandOver(s, i), None)
  {
    var a := s.list[i];
    assert AgentOk(a, |s.locks|, true);
    if a.waiting == [] {
      NothingToHandOver(s, i);
    } else {
      HandOverIs(s, i);
      PopKeeps(s, i);
      var popped := s.(list := s.list[i := a.(waiting := a.waiting[1..])]);
      GrantKeeps(popped, i, a.waiting[0]);
      var done := Grant(popped, i, a.waiting[0]);
      assert done.list == HandOver(s, i).list && done.locks == HandOver(s, i).locks;
      SameShape(done, HandOver(s, i), None);
    }
  }

  /** The log plays no part in the invariant. */
  lemma SameShape(s: State, s': State, free: Option<nat>)
    requires Inv(s, free) && s'.list == s.list && s'.locks == s.locks && s'.cnt == s.cnt
    ensures Inv(s', free)
  {
    forall t | 0 <= t < |s'.locks| ensures SessionOk(s', t) {
      assert SessionOk(s, t);
    }
  }

  // ---- whole operations ----

  lemma LockKeeps(s: State, id: nat, t: nat)
    requires Inv(s, None) && t < |s.locks| && !IsWaiting(s.list, t)
    ensures Inv(TeeLock(s, id, t).0, None)
  {
    var r := Find(s.list, id);
    if r.Some? && s.list[r.value].holder != Some(t) {
      assert AgentOk(s.list[r.value], |s.locks|, false);
      if s.list[r.value].locked {
        WaitKeeps(s, r.value, t);
      } else {
        FreeIfUnlocked(s, r.value);
        GrantKeeps(s, r.value, t);
      }
    }
  }

  lemma WaitKeeps(s: State, i: nat, t: nat)
    requires Inv(s, None) && i < |s.list| && t < |s.locks| && !IsWaiting(s.list, t)
    requires s.list[i].locked && s.list[i].holder != Some(t)
    ensures AddWaiting(s, i, t) == Log(SetAgent(s, i, s.list[i].(waiting := s.list[i].waiting + [t])), Arrived(s.list[i].id, t))
    ensures Inv(AddWaiting(s, i, t), None)
  {
    var a := s.list[i];
    var a' := a.(waiting := a.waiting + [t]);
    var s' := SetAgent(s, i, a');
    assert AgentOk(a, |s.locks|, false) && t !in a.waiting;
    assert forall j :: 0 <= j < |s.list| ==> t !in s.list[j].waiting;
    SameHolders(s, i, a');
    SameShape(s', AddWaiting(s, i, t), None);
  }

  /** What a session has in its list it holds, and may unlock. */
  lemma HeldAgent(s: State, id: nat, t: nat) returns (i: nat)
    requires Inv(s, None) && t < |s.locks| && id in s.locks[t]
    ensures Holds(s, id, t) && Find(s.list, id) == Some(i) && i < |s.list| && s.list[i].id == id
    ensures s.list[i].holder == Some(t) && t !in s.list[i].waiting && forall w :: w in s.list[i].waiting ==> w < |s.locks|
  {
    assert SessionOk(s, t);
    i := Find(s.list, id).value;
    assert AgentOk(s.list[i], |s.locks|, false);
  }

  /** An unlock takes the agent from t and gives it to nobody else than the first waiter. */
  lemma UnlockKeeps(s: State, i: nat, t: nat)
    requires Inv(s, None) && i < |s.list| && t < |s.locks| && s.list[i].holder == Some(t)
    ensures forall w :: w in s.list[i].waiting ==> w < |s.locks|
    ensures Inv(Unlock(s, i, t), None) && |Unlock(s, i, t).locks| == |s.locks|
    ensures Unlock(s, i, t).locks[t] == Without(s.locks[t], s.list[i].id)
  {
    assert AgentOk(s.list[i], |s.locks|, false);
    ReleaseKeeps(s, i, t);
    var s' := Release(s, i, t);
    HandOverKeeps(s', i);
    if s'.list[i].waiting != [] {
      HandOverIs(s', i);
      assert s'.list[i].waiting[0] in s.list[i].waiting;
    }
  }

  /** tee_unlock_agents, n rounds: the first agent of the session's list is unlocked each time */
  function UnlockRounds(s: State, t: nat, n: nat): (r: State)
    requires Inv(s, None) && t < |s.locks|
    ensures Inv(r, None) && |r.locks| == |s.locks|
    ensures n >= |s.locks[t]| ==> r.locks[t] == []
    decreases n
  {
    if n == 0 || s.locks[t] == [] then s
    else
      assert s.locks[t][0] in s.locks[t];
      assert SessionOk(s, t);
      var i := Find(s.list, s.locks[t][0]).value;
      UnlockKeeps(s, i, t);
      UnlockRounds(Unlock(s, i, t), t, n - 1)
  }

  /** The agent that the session waits for. */
  function QueuedAt(list: seq<Agent>, t: nat): (r: Option<nat>)
    ensures r.Some? ==> r.value < |list| && t in list[r.value].waiting
    ensures r.None? <==> !IsWaiting(list, t)
  {
    if list == [] then None
    else if t in list[0].waiting then Some(0)
    else
      assert forall i :: 0 < i < |list| ==> list[i] == list[1..][i - 1];
      match QueuedAt(list[1..], t)
      case None => None
      case Some(i) => Some(i + 1)
  }

  /** The session leaves the queue it is in. */
  function Abandon(s: State, t: nat): State {
    match QueuedAt(s.list, t)
    case None => s
    case Some(i) =>
      var a := s.list[i];
      Log(SetAgent(s, i, a.(waiting := Without(a.waiting, t))), Left(a.id, t))
  }

  /** release_session, as far as agents are concerned: it unlocks what it holds, then leaves its queue */
  function ReleaseSession(s: State, t: nat): State
    requires Inv(s, None) && t < |s.locks|
  {
    Abandon(UnlockRounds(s, t, |s.locks[t]|), t)
  }

  lemma AbandonKeeps(s: State, t: nat)
    requires Inv(s, None)
    ensures Inv(Abandon(s, t), None) && Abandon(s, t).locks == s.locks && !IsWaiting(Abandon(s, t).list, t)
  {
    var r := QueuedAt(s.list, t);
    if r.Some? {
      var i := r.value;
      var a := s.list[i];
      var a' := a.(waiting := Without(a.waiting, t));
      assert AgentOk(a, |s.locks|, false);
      WithoutDistinct(a.waiting, t);
      SameHolders(s, i, a');
      assert forall j :: 0 <= j < |s.list| && j != i ==> t !in s.list[j].waiting;
      SameShape(SetAgent(s, i, a'), Abandon(s, t), None);
    }
  }

  lemma RegisterKeeps(s: State, id: nat, size: nat, inMailbox: bool, otherAllowed: bool, allocOk: bool)
    requires Inv(s, None)
    ensures Inv(Register(s, id, size, inMailbox, otherAllowed, allocOk).0, None)
  {
    var s' := Register(s, id, size, inMailbox, otherAllowed, allocOk).0;
    if s' != s {
      forall t | 0 <= t < |s.locks|
        ensures SessionOk(s', t)
      {
        assert SessionOk(s, t);
        forall x | x in s.locks[t]
          ensures Find(s'.list, x).Some? && s'.list[Find(s'.list, x).value].holder == Some(t)
        {
          FindIs(s'.list, Find(s.list, x).value);
        }
      }
    }
  }

  /** Unregistering finds no waiters: an unlocked agent has none. */
  lemma UnregisterIs(s: State, id: nat)
    requires Inv(s, None)
    ensures Unregister(s, id).0.log == s.log
    ensures Unregister(s, id).0 == s || exists i ::
      && 0 <= i < |s.list| && s.list[i].id == id && !s.list[i].locked && s.list[i].waiting == []
      && Unregister(s, id).0 == s.(list := s.list[..i] + s.list[i + 1..], cnt := s.cnt - 1)
  {
    var r := Find(s.list, id);
    if Unregister(s, id).0 != s {
      assert AgentOk(s.list[r.value], |s.locks|, false);
      assert s.list[r.value].waiting == [];
    }
  }

  lemma UnregisterKeeps(s: State, id: nat)
    requires Inv(s, None)
    ensures Inv(Unregister(s, id).0, None)
  {
    UnregisterIs(s, id);
    var s' := Unregister(s, id).0;
    if s' != s {
      var i :| && 0 <= i < |s.list| && s.list[i].id == id && !s.list[i].locked && s.list[i].waiting == []
               && s' == s.(list := s.list[..i] + s.list[i + 1..], cnt := s.cnt - 1);
      RemoveKeeps(s, s', i);
    }
  }

  lemma RemoveKeeps(s: State, s': State, i: nat)
    requires Inv(s, None) && i < |s.list| && !s.list[i].locked
    requires s' == s.(list := s.list[..i] + s.list[i + 1..], cnt := s.cnt - 1)
    ensures Inv(s', None)
  {
    assert AgentOk(s.list[i], |s.locks|, false);
    assert forall k :: 0 <= k < |s'.list| ==> s'.list[k] == s.list[if k < i then k else k + 1];
    assert UniqueIds(s'.list) && OneQueue(s'.list);
    forall k | 0 <= k < |s'.list| ensures AgentOk(s'.list[k], |s'.locks|, false) {
      assert AgentOk(s.list[if k < i then k else k + 1], |s.locks|, false);
    }
    hide UniqueIds, OneQueue, AgentsOk;
    RemoveSessions(s, s', i);
  }

  lemma RemoveSessions(s: State, s': State, i: nat)
    requires SessionsOk(s) && i < |s.list| && s.list[i].holder.None? && UniqueIds(s'.list)
    requires s'.list == s.list[..i] + s.list[i + 1..] && s'.locks == s.locks
    ensures SessionsOk(s')
  {
    forall t | 0 <= t < |s'.locks|
      ensures SessionOk(s', t)
    {
      assert SessionOk(s, t);
      forall x | x in s'.locks[t]
        ensures Find(s'.list, x).Some? && s'.list[Find(s'.list, x).value].holder == Some(t)
      {
        var k := Find(s.list, x).value;
        FindIs(s'.list, if k < i then k else k - 1);
      }
      forall k | 0 <= k < |s'.list| && s'.list[k].holder == Some(t)
        ensures s'.list[k].id in s'.locks[t]
      {
        assert s'.list[k] == s.list[if k < i then k else k + 1];
      }
    }
  }

  lemma BufferKeeps(s: State, id: nat, t: nat, mapped: Option<nat>)
    requires Inv(s, None)
    ensures Inv(GetBuffer(s, id, t, mapped).0, None)
  {
    var s' := GetBuffer(s, id, t, mapped).0;
    if s' != s {
      var i := Find(s.list, id).value;
      assert AgentOk(s.list[i], |s.locks|, false);
      SameHolders(s, i, s'.list[i]);
    }
  }
}
