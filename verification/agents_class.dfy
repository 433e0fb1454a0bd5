/** Agent manager: the code, over mutable lists. */
module AgentManagers {
  import opened Options
  import opened Agents

  /** dlist_delete of an agent from a session's list */
  method TakeOff(ids: seq<nat>, id: nat) returns (r: seq<nat>)
    ensures r == Without(ids, id)
  {
    var k := 0;
    assert ids[..0] == [] && ids[0..] == ids;
    while k < |ids| && ids[k] != id
      invariant 0 <= k <= |ids|
      invariant Without(ids, id) == ids[..k] + Without(ids[k..], id)
    {
      assert ids[k..][1..] == ids[k + 1..] && ids[..k] + [ids[k]] == ids[..k + 1];
      k := k + 1;
    }
    if k == |ids| {
      return ids;
    }
    assert ids[k..][1..] == ids[k + 1..];
    return ids[..k] + ids[k + 1..];
  }

  lemma NoRoundsLeft(s: State, t: nat, n: nat)
    requires Inv(s, None) && t < |s.locks| && s.locks[t] == []
    ensures UnlockRounds(s, t, n) == s
  {
  }

  class AgentManager {
    var list: seq<Agent>
    var locks: seq<seq<nat>> // every session's locked_agents
    var cnt: nat
    ghost var log: seq<Event>

    /** agent_manager_init, with this many sessions */
    constructor (sessions: nat)
      ensures Now() == State([], seq(sessions, _ => []), 0, [])
    {
      list, cnt, log := [], 0, [];
      locks := seq(sessions, _ => []);
    }

    ghost function Now(): State
      reads this
    {
      State(list, locks, cnt, log)
    }

    method FindAgent(id: nat) returns (r: Option<nat>)
      ensures r == Find(list, id)
    {
      var i := 0;
      assert list[0..] == list;
      while i < |list|
        invariant 0 <= i <= |list|
        invariant forall k :: 0 <= k < i ==> list[k].id != id
        invariant Find(list, id) == (match Find(list[i..], id) case None => None case Some(k) => Some(i + k))
      {
        if list[i].id == id {
          return Some(i);
        }
        assert list[i..][1..] == list[i + 1..];
        i := i + 1;
      }
      return None;
    }

    method TeeUnblockAgent(t: nat, code: AckCode)
      modifies this`log
      ensures log == old(log) + [Acked(t, code)]
    {
      log := log + [Acked(t, code)];
    }

    method AddWaitingSession(i: nat, t: nat)
      requires i < |list|
      modifies this`list, this`log
      ensures Now() == AddWaiting(old(Now()), i, t)
    {
      var k := 0;
      while k < |list[i].waiting|
        invariant 0 <= k <= |list[i].waiting|
        invariant t !in list[i].waiting[..k]
      {
        if list[i].waiting[k] == t {
          return;
        }
        k := k + 1;
      }
      list := list[i := list[i].(waiting := list[i].waiting + [t])];
      log := log + [Arrived(list[i].id, t)];
    }

    method TeeLockAgent(id: nat, t: nat) returns (ret: Status)
      requires t < |locks|
      modifies this`list, this`locks, this`log
      ensures (Now(), ret) == TeeLock(old(Now()), id, t)
    {
      var r := FindAgent(id);
      if r.None? {
        return Generic;
      }
      var i := r.value;
      if list[i].holder == Some(t) {
        return Success;
      }
      if list[i].locked {
        AddWaitingSession(i, t);
        return Busy;
      }
      list := list[i := list[i].(holder := Some(t), locked := true)];
      locks := locks[t := locks[t] + [id]];
      return Success;
    }

    /** tee_unlock_agent, after the agent was taken off the session's list */
    method TeeUnlockAgent(i: nat)
      requires i < |list| && forall w :: w in list[i].waiting ==> w < |locks|
      modifies this`list, this`locks, this`log
      ensures Now() == HandOver(
        SetAgent(old(Now()), i, old(list[i]).(locked := false, holder := None, buffer := 0)), i)
    {
      list := list[i := list[i].(locked := false, holder := None)];
      if list[i].buffer != 0 {
        list := list[i := list[i].(buffer := 0)];
      }
      ghost var was := old(list)[i := old(list)[i].(locked := false, holder := None, buffer := 0)];
      assert list == was;
      if list[i].waiting != [] {
        var w := list[i].waiting[0];
        assert w in list[i].waiting;
        list := list[i := list[i].(waiting := list[i].waiting[1..])];
        log := log + [HandedOver(list[i].id, w)];
        var ret := TeeLockAgent(list[i].id, w);
        if ret != Success {
          TeeUnblockAgent(w, InvalidAgent);
        } else {
          TeeUnblockAgent(w, AgentLock);
        }
      }
    }

    method ProcessLockAgent(id: nat, t: nat, permitted: bool) returns (ret: Status)
      requires t < |locks|
      modifies this`list, this`locks, this`log
      ensures Now() == ProcessLock(old(Now()), id, t, permitted)
      ensures ret == BadParameters <==> IsSystemAgent(id) && !permitted
      ensures ret == Generic <==> (IsSystemAgent(id) ==> permitted) && Find(old(list), id).None?
      ensures ret == Busy <==>
        && (IsSystemAgent(id) ==> permitted) && Find(old(list), id).Some?
        && (var a := old(list)[Find(old(list), id).value];
            a.locked && a.holder != Some(t))
    {
      log := log + [Requested(t)];
      if IsSystemAgent(id) {
        if !permitted {
          TeeUnblockAgent(t, InvalidAgent);
          return BadParameters;
        }
      }
      ret := TeeLockAgent(id, t);
      if ret == Success {
        TeeUnblockAgent(t, AgentLock);
      } else if ret != Busy {
        TeeUnblockAgent(t, InvalidAgent);
      }
    }

    /**
      process_unlock_agent. A session that does not have the agent leaves its queue; a round of
      that loop which finds another session in front changes nothing, so that it never ends.
     */
    method ProcessUnlockAgent(id: nat, t: nat) returns (ret: Option<Status>)
      requires t < |locks| && (id in locks[t] ==> Holds(Now(), id, t))
      modifies this`list, this`locks, this`log
      ensures (Now(), ret) ==
        if id in old(locks)[t] then (ProcessUnlock(old(Now()), id, t), Some(Success))
        else UnlockUnheld(old(Now()), id, t)
    {
      log := log + [Requested(t)];
      var r := FindAgent(id);
      if id in locks[t] {
        var rest := TakeOff(locks[t], id);
        locks := locks[t := rest];
        TeeUnlockAgent(r.value);
        TeeUnblockAgent(t, AgentLock);
        return Some(Success);
      }
      if r.None? {
        TeeUnblockAgent(t, InvalidAgent);
        return Some(Generic);
      }
      var ok := LeaveQueue(r.value, t);
      if !ok {
        return None;
      }
      TeeUnblockAgent(t, AgentLock);
      return Some(Generic);
    }

    /** The loop over the queue in process_unlock_agent; `ok` if it ends. */
    method LeaveQueue(i: nat, t: nat) returns (ok: bool)
      requires i < |list|
      modifies this`list
      ensures list == old(list)[i := old(list)[i].(waiting := Strip(old(list)[i].waiting, t))]
      ensures ok <==> Strip(old(list)[i].waiting, t) == []
    {
      ghost var was := list;
      assert list[i := list[i]] == list;
      while list[i].waiting != []
        invariant |list| == |was| && list == was[i := was[i].(waiting := list[i].waiting)]
        invariant Strip(list[i].waiting, t) == Strip(was[i].waiting, t)
        decreases |list[i].waiting|
      {
        if list[i].waiting[0] != t {
          return false;
        }
        list := list[i := list[i].(waiting := list[i].waiting[1..])];
      }
      return true;
    }

    method TeeUnlockAgents(t: nat)
      requires Inv(Now(), None) && t < |locks|
      modifies this`list, this`locks, this`log
      ensures Now() == UnlockRounds(old(Now()), t, |old(locks)[t]|)
      ensures Inv(Now(), None) && |locks| == |old(locks)| && locks[t] == []
    {
      hide Inv, UnlockRounds;
      ghost var n: nat := |locks[t]|;
      ghost var was := Now();
      while locks[t] != []
        invariant Inv(Now(), None) && t < |locks| == |was.locks|
        invariant UnlockRounds(Now(), t, n) == UnlockRounds(was, t, |was.locks[t]|)
        invariant n >= |locks[t]|
        decreases n
      {
        UnlockFirst(t);
        n := n - 1;
      }
      NoRoundsLeft(Now(), t, n);
    }

    /** release_session, as far as agents are concerned */
    method ReleaseSession(t: nat)
      requires Inv(Now(), None) && t < |locks|
      modifies this`list, this`locks, this`log
      ensures Now() == Agents.ReleaseSession(old(Now()), t)
      ensures Inv(Now(), None) && locks[t] == [] && !IsWaiting(list, t)
    {
      hide Inv, UnlockRounds, Abandon;
      TeeUnlockAgents(t);
      AbandonKeeps(Now(), t);
      LeaveAnyQueue(t);
    }

    /** The end of release_session: the session's node leaves whatever queue it is in. */
    method LeaveAnyQueue(t: nat)
      modifies this`list, this`log
      ensures Now() == Abandon(old(Now()), t)
    {
      hide IsWaiting, Without, QueuedAt;
      var r := FindQueue(t);
      if r.Some? {
        var rest := TakeOff(list[r.value].waiting, t);
        log := log + [Left(list[r.value].id, t)];
        list := list[r.value := list[r.value].(waiting := rest)];
      }
    }

    /** Which queue the session's node is linked into. */
    method FindQueue(t: nat) returns (r: Option<nat>)
      ensures r == QueuedAt(list, t)
    {
      hide IsWaiting;
      var i := 0;
      assert list[0..] == list;
      while i < |list|
        invariant 0 <= i <= |list|
        invariant QueuedAt(list, t) == (match QueuedAt(list[i..], t) case None => None case Some(k) => Some(i + k))
      {
        if t in list[i].waiting {
          return Some(i);
        }
        assert list[i..][1..] == list[i + 1..];
        i := i + 1;
      }
      return None;
    }

    /** One round of tee_unlock_agents. */
    method UnlockFirst(t: nat)
      requires Inv(Now(), None) && t < |locks| && locks[t] != []
      modifies this`list, this`locks, this`log
      ensures Inv(Now(), None) && |locks| == |old(locks)| && locks[t] == old(locks)[t][1..]
      ensures forall n: nat :: n > 0 ==> UnlockRounds(Now(), t, n - 1) == UnlockRounds(old(Now()), t, n)
    {
      var id := locks[t][0];
      ghost var s := Now();
      assert id in locks[t];
      ghost var k := HeldAgent(s, id, t);
      UnlockKeeps(s, k, t);
      hide Inv, HandOver;
      var r := FindAgent(id);
      var rest := TakeOff(locks[t], id);
      locks := locks[t := rest];
      TeeUnlockAgent(r.value);
      assert Now() == Unlock(s, k, t);
    }

    method RegisterAgent(id: nat, size: nat, inMailbox: bool, otherAllowed: bool, allocOk: bool) returns (ret: Status)
      modifies this`list, this`cnt
      ensures (Now(), ret) == Register(old(Now()), id, size, inMailbox, otherAllowed, allocOk)
    {
      if cnt >= AGENT_MAX {
        return Generic;
      }
      if !inMailbox {
        return BadParameters;
      }
      if !otherAllowed && !IsSystemAgent(id) {
        return Generic;
      }
      if size < AGENT_BUFF_SIZE || size > BITS_PER_BYTE * AGENT_BUFF_SIZE {
        return Generic;
      }
      var r := FindAgent(id);
      if r.Some? || !allocOk {
        return Generic;
      }
      list := list + [Agent(id, false, None, 0, size, [])];
      cnt := cnt + 1;
      return Success;
    }

    method UnregisterAgent(id: nat) returns (ret: Status)
      modifies this`list, this`cnt, this`log
      ensures (Now(), ret) == Unregister(old(Now()), id)
    {
      if cnt == 0 {
        return Generic;
      }
      if IsSystemAgent(id) {
        return Generic;
      }
      var r := FindAgent(id);
      if r.Some? {
        var i := r.value;
        if list[i].locked {
          return Generic;
        }
        var waiting := list[i].waiting;
        while waiting != []
          invariant list == old(list) && cnt == old(cnt)
          invariant AckAll(log, waiting) == AckAll(old(log), list[i].waiting)
          decreases |waiting|
        {
          TeeUnblockAgent(waiting[0], InvalidAgent);
          waiting := waiting[1..];
        }
        list := list[..i] + list[i + 1..];
        cnt := cnt - 1;
      }
      return Success;
    }

    method ProcessGetAgentBuffer(id: nat, t: nat, mapped: Option<nat>) returns (r: Option<nat>)
      modifies this`list
      ensures (Now(), r) == GetBuffer(old(Now()), id, t, mapped)
      ensures r.Some? ==> exists i ::
        && 0 <= i < |list| == |old(list)|
        && list[i].id == id && list[i].locked && list[i].holder == Some(t) && list[i].buffer == r.value
        && list == old(list)[i := old(list)[i].(buffer := r.value)] && (old(list)[i].buffer in {0, r.value})
      ensures r.None? ==> list == old(list)
    {
      var control := FindAgent(id);
      if control.None? {
        return None;
      }
      var i := control.value;
      if !(list[i].locked && list[i].holder == Some(t)) {
        return None;
      }
      if list[i].buffer == 0 {
        if mapped.None? {
          return None;
        }
        list := list[i := list[i].(buffer := mapped.value)];
      }
      return Some(list[i].buffer);
    }
  }
}
