/** Agent manager: what each request does to agents, sessions and answers, and what it leaves alone. */
module AgentEffects {
  import opened Options
  import opened Agents
  import opened AgentRuns

  lemma Snoc2(log: seq<Event>, a: Event, b: Event)
    ensures log + [a] + [b] == log + [a, b]
  {
  }

  // ---- lock ----

  /** A session that may not have the agent, or asks for one that does not exist, is told so; nothing else happens. */
  lemma LockRefused(s: State, id: nat, t: nat, permitted: bool)
    requires t < |s.locks|
    requires (IsSystemAgent(id) && !permitted) || forall i :: 0 <= i < |s.list| ==> s.list[i].id != id
    ensures ProcessLock(s, id, t, permitted) == s.(log := s.log + [Requested(t), Acked(t, InvalidAgent)])
  {
    Snoc2(s.log, Requested(t), Acked(t, InvalidAgent));
  }

  /** A free agent goes to the session that asks, which is told so; nobody else is concerned. */
  lemma LockGranted(s: State, i: nat, t: nat, permitted: bool)
    requires Inv(s, None) && i < |s.list| && t < |s.locks| && !s.list[i].locked
    requires IsSystemAgent(s.list[i].id) ==> permitted
    ensures var a := s.list[i];
      ProcessLock(s, a.id, t, permitted) ==
      State(s.list[i := a.(locked := true, holder := Some(t))], s.locks[t := s.locks[t] + [a.id]], s.cnt,
            s.log + [Requested(t), Acked(t, AgentLock)])
  {
    FindIs(s.list, i);
    assert AgentOk(s.list[i], |s.locks|, false);
    Snoc2(s.log, Requested(t), Acked(t, AgentLock));
  }

  /** The holder is told again that it has the agent. */
  lemma LockRepeated(s: State, i: nat, t: nat, permitted: bool)
    requires Inv(s, None) && i < |s.list| && t < |s.locks| && s.list[i].holder == Some(t)
    requires IsSystemAgent(s.list[i].id) ==> permitted
    ensures ProcessLock(s, s.list[i].id, t, permitted) == s.(log := s.log + [Requested(t), Acked(t, AgentLock)])
  {
    FindIs(s.list, i);
    Snoc2(s.log, Requested(t), Acked(t, AgentLock));
  }

  /** A session that asks for an agent of another one joins the end of its queue and is told nothing yet. */
  lemma LockQueued(s: State, i: nat, t: nat, permitted: bool)
    requires Inv(s, None) && i < |s.list| && t < |s.locks| && !IsWaiting(s.list, t)
    requires s.list[i].locked && s.list[i].holder != Some(t) && (IsSystemAgent(s.list[i].id) ==> permitted)
    ensures var a := s.list[i];
      ProcessLock(s, a.id, t, permitted) ==
      s.(list := s.list[i := a.(waiting := a.waiting + [t])], log := s.log + [Requested(t), Arrived(a.id, t)])
  {
    FindIs(s.list, i);
    assert t !in s.list[i].waiting;
    Snoc2(s.log, Requested(t), Arrived(s.list[i].id, t));
  }

  // ---- unlock ----

  /** What becomes of an agent that is unlocked: the first waiter has it, or nobody, and its buffer is unmapped. */
  function PassedTo(a: Agent): Agent {
    if a.waiting == [] then a.(locked := false, holder := None, buffer := 0)
    else a.(locked := true, holder := Some(a.waiting[0]), waiting := a.waiting[1..], buffer := 0)
  }

  /** The sessions' lists after session t gave the agent away. */
  function ListsAfter(locks: seq<seq<nat>>, a: Agent, t: nat): seq<seq<nat>>
    requires t < |locks|
  {
    var given := locks[t := Without(locks[t], a.id)];
    if a.waiting == [] || a.waiting[0] >= |locks| then given
    else given[a.waiting[0] := given[a.waiting[0]] + [a.id]]
  }

  lemma UnlockIsPassing(s: State, i: nat, t: nat)
    requires Inv(s, None) && i < |s.list| && t < |s.locks| && s.list[i].holder == Some(t)
    ensures forall w :: w in s.list[i].waiting ==> w < |s.locks|
    ensures Unlock(s, i, t) ==
      State(s.list[i := PassedTo(s.list[i])], ListsAfter(s.locks, s.list[i], t), s.cnt, s.log + HandOverEvents(s.list[i]))
  {
    assert AgentOk(s.list[i], |s.locks|, false);
    ReleaseKeeps(s, i, t);
    var s1 := Release(s, i, t);
    if s.list[i].waiting != [] {
      HandOverIs(s1, i);
      assert s.list[i].waiting[0] in s.list[i].waiting;
      assert s1.list[i := PassedTo(s.list[i])] == s.list[i := PassedTo(s.list[i])];
    }
  }

  /** The holder's unlock: the agent passes on, both sessions are told, and nobody else is concerned. */
  lemma UnlockPasses(s: State, i: nat, t: nat)
    requires Inv(s, None) && i < |s.list| && t < |s.locks| && s.list[i].holder == Some(t)
    ensures var a := s.list[i];
      Holds(s, a.id, t) && ProcessUnlock(s, a.id, t) ==
      State(s.list[i := PassedTo(a)], ListsAfter(s.locks, a, t), s.cnt,
            s.log + [Requested(t)] + HandOverEvents(a) + [Acked(t, AgentLock)])
  {
    FindIs(s.list, i);
    assert SessionOk(s, t);
    var k := HeldAgent(s, s.list[i].id, t);
    SameShape(s, Log(s, Requested(t)), None);
    hide Inv;
    UnlockIsPassing(Log(s, Requested(t)), i, t);
  }

  /** Unlocking everything: exactly the agents the session holds pass on, each to its own first waiter. */
  lemma {:induction false} RoundsPass(s: State, t: nat, n: nat)
    requires Inv(s, None) && t < |s.locks| && n >= |s.locks[t]|
    ensures var s' := UnlockRounds(s, t, n);
      && |s'.list| == |s.list| && s'.cnt == s.cnt
      && forall i :: 0 <= i < |s.list| ==>
           s'.list[i] == if s.list[i].holder == Some(t) then PassedTo(s.list[i]) else s.list[i]
    decreases n
  {
    hide Inv, UnlockRounds, Unlock, PassedTo;
    if s.locks[t] != [] {
      var k := FirstRound(s, t, n);
      RoundPasses(s, k, t);
      RoundsPass(Unlock(s, k, t), t, n - 1);
    } else {
      NoRound(s, t, n);
      NoneHeld(s, t);
    }
  }

  lemma NoneHeld(s: State, t: nat)
    requires Inv(s, None) && t < |s.locks| && s.locks[t] == []
    ensures forall i :: 0 <= i < |s.list| ==> s.list[i].holder != Some(t)
  {
    assert SessionOk(s, t);
  }

  lemma RoundPasses(s: State, k: nat, t: nat)
    requires Inv(s, None) && k < |s.list| && t < |s.locks| && s.list[k].holder == Some(t)
    ensures forall w :: w in s.list[k].waiting ==> w < |s.locks|
    ensures var s1 := Unlock(s, k, t);
      && Inv(s1, None) && s1.list == s.list[k := PassedTo(s.list[k])] && s1.cnt == s.cnt
      && s1.list[k].holder != Some(t) && t < |s1.locks| && |s1.locks[t]| < |s.locks[t]|
  {
    UnlockIsPassing(s, k, t);
    UnlockKeeps(s, k, t);
    RoundShorter(s, k, t);
    assert AgentOk(s.list[k], |s.locks|, false);
    hide Inv;
    assert s.list[k].waiting != [] ==> s.list[k].waiting[0] in s.list[k].waiting;
  }

  lemma RoundShorter(s: State, k: nat, t: nat)
    requires Inv(s, None) && k < |s.list| && t < |s.locks| && s.list[k].holder == Some(t)
    ensures |Without(s.locks[t], s.list[k].id)| < |s.locks[t]|
  {
    assert SessionOk(s, t);
    WithoutLess(s.locks[t], s.list[k].id);
  }

  lemma {:induction false} WithoutLess(ids: seq<nat>, id: nat)
    requires id in ids
    ensures |Without(ids, id)| < |ids|
  {
    if ids[0] != id {
      assert ids == [ids[0]] + ids[1..];
      WithoutLess(ids[1..], id);
    }
  }

  /** A released session: its agents pass on, it is out of the queue it was in, and no other agent changes. */
  lemma ReleasePasses(s: State, t: nat)
    requires Inv(s, None) && t < |s.locks|
    ensures var s' := Agents.ReleaseSession(s, t);
      && |s'.list| == |s.list| && s'.cnt == s.cnt
      && forall i :: 0 <= i < |s.list| ==>
           s'.list[i] ==
             if s.list[i].holder == Some(t) then PassedTo(s.list[i])
             else if t in s.list[i].waiting then s.list[i].(waiting := Without(s.list[i].waiting, t))
             else s.list[i]
  {
    RoundsPass(s, t, |s.locks[t]|);
    var s1 := UnlockRounds(s, t, |s.locks[t]|);
    var r := QueuedAt(s1.list, t);
    forall i | 0 <= i < |s.list| ensures s.list[i].holder == Some(t) ==> t !in PassedTo(s.list[i]).waiting {
      assert AgentOk(s.list[i], |s.locks|, false);
    }
    if r.Some? {
      forall i | 0 <= i < |s.list| && i != r.value ensures t !in s1.list[i].waiting {
        assert OneQueue(s1.list);
      }
    }
  }

  // ---- registration ----

  /** An agent is registered exactly if there is room, its buffer is allowed, and its id is new. */
  lemma RegisteredIff(s: State, id: nat, size: nat, inMailbox: bool, otherAllowed: bool, allocOk: bool)
    ensures var (s', ret) := Register(s, id, size, inMailbox, otherAllowed, allocOk);
      && (ret == Success <==>
            && s.cnt < 32 && inMailbox && (otherAllowed || IsSystemAgent(id)) && 4096 <= size <= 8 * 4096
            && allocOk && forall i :: 0 <= i < |s.list| ==> s.list[i].id != id)
      && s'.locks == s.locks && s'.log == s.log
      && (ret == Success ==> s'.list == s.list + [Agent(id, false, None, 0, size, [])] && s'.cnt == s.cnt + 1)
      && (ret != Success ==> s' == s)
      && (ret == BadParameters <==> s.cnt < 32 && !inMailbox)
  {
  }

  /** Any agent but a system agent can be unregistered exactly while it is not locked; then it is gone, and it alone. */
  lemma UnregisteredIff(s: State, i: nat)
    requires Inv(s, None) && i < |s.list|
    ensures var (s', ret) := Unregister(s, s.list[i].id);
      && (ret == Success <==> !IsSystemAgent(s.list[i].id) && !s.list[i].locked)
      && s'.locks == s.locks && s'.log == s.log
      && (ret == Success ==> s'.list == s.list[..i] + s.list[i + 1..] && s'.cnt == s.cnt - 1)
      && (ret != Success ==> s' == s)
  {
    FindIs(s.list, i);
    UnregisterIs(s, s.list[i].id);
    assert AgentOk(s.list[i], |s.locks|, false);
  }

  lemma UnregisterUnknown(s: State, id: nat)
    requires forall i :: 0 <= i < |s.list| ==> s.list[i].id != id
    ensures Unregister(s, id) == (s, if s.cnt > 0 && !IsSystemAgent(id) then Success else Generic)
  {
  }

  // ---- buffers ----

  /**
    A session gets an agent's buffer exactly if it holds the agent and there is a mapping or one
    can be made; what it gets is the mapping there is, or else the new one, which is kept.
   */
  lemma BufferIff(s: State, i: nat, t: nat, mapped: Option<nat>)
    requires Inv(s, None) && i < |s.list| && t < |s.locks|
    ensures var a := s.list[i];
      var (s', r) := GetBuffer(s, a.id, t, mapped);
      && (r.Some? <==> a.id in s.locks[t] && (a.buffer != 0 || mapped.Some?))
      && (r.Some? ==> r.value == if a.buffer != 0 then a.buffer else mapped.value)
      && (r.Some? ==> s' == s.(list := s.list[i := a.(buffer := r.value)]))
      && (r.None? ==> s' == s)
  {
    FindIs(s.list, i);
    assert AgentOk(s.list[i], |s.locks|, false) && SessionOk(s, t);
    assert s.list[i := s.list[i]] == s.list;
  }

  /** Session t has the agent, with this mapping. */
  ghost predicate HasMapped(s: State, id: nat, t: nat, buffer: nat) {
    exists i :: 0 <= i < |s.list| && s.list[i].id == id && s.list[i].holder == Some(t) && s.list[i].buffer == buffer
  }

  ghost predicate Has(s: State, id: nat, t: nat) {
    exists i :: 0 <= i < |s.list| && s.list[i].id == id && s.list[i].holder == Some(t)
  }

  /** Session t has the agent in every state of the run. */
  ghost predicate HasThroughout(s: State, acts: seq<Action>, id: nat, t: nat)
    requires Inv(s, None) && Booked(s, None) && IsRun(s, acts)
    decreases |acts|
  {
    Has(s, id, t) && (acts != [] ==> (ApplyKeeps(s, acts[0]); HasThroughout(Apply(s, acts[0]), acts[1..], id, t)))
  }

  /** What an action does to an agent that stays with its session: at most its queue grows, shrinks, or it gets a mapping. */
  lemma HeldAgentKeepsBuffer(s: State, a: Action, i: nat, t: nat)
    requires Inv(s, None) && Enabled(s, a) && i < |s.list| && s.list[i].holder == Some(t) && t < |s.locks|
    requires s.list[i].buffer != 0 && Has(Apply(s, a), s.list[i].id, t)
    ensures HasMapped(Apply(s, a), s.list[i].id, t, s.list[i].buffer)
  {
    var id, s' := s.list[i].id, Apply(s, a);
    assert AgentOk(s.list[i], |s.locks|, false);
    hide Inv, ProcessLock, ProcessUnlock, UnlockUnheld, UnlockRounds, Unregister, GetBuffer, Agents.ReleaseSession, PassedTo;
    match a
    case Lock(u, x, permitted) => KeptByLock(s, x, u, permitted, i);
    case UnlockOne(u, x) => KeptByUnlock(s, x, u, i, t);
    case UnlockAll(u) =>
      RoundsPass(s, u, |s.locks[u]|);
      StillHas(s, s', i, t);
    case ReleaseSession(u) =>
      ReleasePasses(s, u);
      StillHas(s, s', i, t);
    case UnregisterAgent(x) => KeptByUnregister(s, x, i);
    case GetAgentBuffer(u, x, mapped) => KeptByBuffer(s, x, u, mapped, i);
    case RegisterAgent(_, _, _, _, _) => assert s'.list[i] == s.list[i];
  }

  /** If every agent either stayed with its session or passed on, and t still has this one, it stayed. */
  lemma StillHas(s: State, s': State, i: nat, t: nat)
    requires Inv(s, None) && UniqueIds(s'.list) && i < |s.list| == |s'.list|
    requires s.list[i].holder == Some(t) && s'.list[i].id == s.list[i].id && Has(s', s.list[i].id, t)
    requires s'.list[i] == PassedTo(s.list[i])
      || (s'.list[i].holder == s.list[i].holder && s'.list[i].buffer == s.list[i].buffer)
    ensures HasMapped(s', s.list[i].id, t, s.list[i].buffer)
  {
    assert AgentOk(s.list[i], |s.locks|, false);
    assert s.list[i].waiting != [] ==> s.list[i].waiting[0] in s.list[i].waiting;
    var k :| 0 <= k < |s'.list| && s'.list[k].id == s.list[i].id && s'.list[k].holder == Some(t);
    assert UniqueIds(s'.list) && s'.list[i].id == s.list[i].id;
    assert k == i;
  }

  lemma KeptByLock(s: State, x: nat, u: nat, permitted: bool, i: nat)
    requires Inv(s, None) && u < |s.locks| && i < |s.list| && s.list[i].locked
    ensures var s' := ProcessLock(s, x, u, permitted);
      i < |s'.list| && s'.list[i].id == s.list[i].id && s'.list[i].holder == s.list[i].holder
      && s'.list[i].buffer == s.list[i].buffer
  {
    assert AgentOk(s.list[i], |s.locks|, false);
    hide Find, Inv;
  }

  lemma KeptByUnlock(s: State, x: nat, u: nat, i: nat, t: nat)
    requires Inv(s, None) && Enabled(s, UnlockOne(u, x)) && i < |s.list| && s.list[i].holder == Some(t)
    requires Has(Apply(s, UnlockOne(u, x)), s.list[i].id, t)
    ensures HasMapped(Apply(s, UnlockOne(u, x)), s.list[i].id, t, s.list[i].buffer)
  {
    var s' := Apply(s, UnlockOne(u, x));
    if Holds(s, x, u) {
      var k := HeldAgent(s, x, u);
      UnlockPasses(s, k, u);
      StillHas(s, s', i, t);
    } else {
      UnheldChangesNothing(s, x, u);
    }
  }

  lemma KeptByUnregister(s: State, x: nat, i: nat)
    requires i < |s.list| && s.list[i].locked
    ensures s.list[i] in Unregister(s, x).0.list
  {
    hide AckAll;
    var r := Find(s.list, x);
    hide Find;
    if r.Some? && r.value != i {
      KeptByRemoval(s.list, r.value, i);
    }
  }

  lemma KeptByRemoval(list: seq<Agent>, k: nat, i: nat)
    requires i < |list| && k < |list| && i != k
    ensures list[i] in list[..k] + list[k + 1..]
  {
    assert (list[..k] + list[k + 1..])[if i < k then i else i - 1] == list[i];
  }

  lemma KeptByBuffer(s: State, x: nat, u: nat, mapped: Option<nat>, i: nat)
    requires Inv(s, None) && i < |s.list| && s.list[i].buffer != 0
    ensures GetBuffer(s, x, u, mapped).0.list[i] == s.list[i]
  {
    hide Inv;
  }

  /**
    While a session keeps an agent, all requests for its buffer give that session the same one and
    give every other session none.
   */
  lemma {:induction false} OneBuffer(s: State, acts: seq<Action>, id: nat, t: nat, buffer: nat)
    requires Inv(s, None) && Booked(s, None) && IsRun(s, acts) && t < |s.locks|
    requires buffer != 0 && HasMapped(s, id, t, buffer) && HasThroughout(s, acts, id, t)
    ensures HasMapped(After(s, acts), id, t, buffer)
    ensures forall u: nat, mapped :: u < |After(s, acts).locks| ==>
      GetBuffer(After(s, acts), id, u, mapped).1 == if u == t then Some(buffer) else None
    decreases |acts|
  {
    if acts == [] {
      OnlyHolderGets(s, id, t, buffer);
    } else {
      var i :| 0 <= i < |s.list| && s.list[i].id == id && s.list[i].holder == Some(t) && s.list[i].buffer == buffer;
      ApplyKeeps(s, acts[0]);
      assert Has(Apply(s, acts[0]), id, t);
      HeldAgentKeepsBuffer(s, acts[0], i, t);
      SessionsStay(s, acts[0]);
      hide Inv, Booked, Enabled, Apply, HasMapped, Has;
      OneBuffer(Apply(s, acts[0]), acts[1..], id, t, buffer);
    }
  }

  lemma SessionsStay(s: State, a: Action)
    requires Inv(s, None) && Enabled(s, a)
    ensures |Apply(s, a).locks| == |s.locks|
  {
    hide Inv, Find, QueuedAt;
    if a.UnlockOne? && Holds(s, a.id, a.t) {
      UnlockCount(s, a.id, a.t);
    }
  }

  lemma UnlockCount(s: State, id: nat, t: nat)
    requires Inv(s, None) && Holds(s, id, t)
    ensures |ProcessUnlock(s, id, t).locks| == |s.locks|
  {
    var i := HeldAgent(s, id, t);
    UnlockPasses(s, i, t);
  }

  lemma OnlyHolderGets(s: State, id: nat, t: nat, buffer: nat)
    requires Inv(s, None) && t < |s.locks| && buffer != 0 && HasMapped(s, id, t, buffer)
    ensures forall u: nat, mapped :: u < |s.locks| ==> GetBuffer(s, id, u, mapped).1 == if u == t then Some(buffer) else None
  {
    var i :| 0 <= i < |s.list| && s.list[i].id == id && s.list[i].holder == Some(t) && s.list[i].buffer == buffer;
    forall u: nat, mapped | u < |s.locks| ensures GetBuffer(s, id, u, mapped).1 == if u == t then Some(buffer) else None {
      BufferIff(s, i, u, mapped);
      assert SessionOk(s, u);
      FindIs(s.list, i);
    }
  }
}
