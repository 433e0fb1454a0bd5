/**
  The service thread of the agent manager (framework/gtask): requests of built-in agents leave for
  the normal world one at a time, and wait in a list meanwhile.
 */
module ServiceThread {

  /** g_svc_thread_ctrl, and the requests that have left for the normal world. */
  datatype State = State(working: bool, pending: seq<nat>, sent: seq<nat>)

  const START := State(false, [], [])

  datatype Action =
    | Request(agent: nat, allocOk: bool)  // handle_service_agent_request
    | Reply(matches: bool)                // handle_service_agent_back_cmd; does event_nr match?

  /** A request is sent at once if the thread is idle, queued if it is not and memory allows; else it is refused. */
  function DoRequest(s: State, agent: nat, allocOk: bool): (State, bool) {
    if !s.working then (s.(working := true, sent := s.sent + [agent]), true)
    else if allocOk then (s.(pending := s.pending + [agent]), true)
    else (s, false)
  }

  /** A matching reply sends the oldest pending request, or makes the thread idle. */
  function DoReply(s: State, matches: bool): State {
    if !matches then s
    else if s.pending == [] then s.(working := false)
    else s.(pending := s.pending[1..], sent := s.sent + [s.pending[0]])
  }

  function Apply(s: State, a: Action): State {
    match a
    case Request(agent, allocOk) => DoRequest(s, agent, allocOk).0
    case Reply(matches) => DoReply(s, matches)
  }

  class ServiceThreadControl {
    var working: bool
    var pending: seq<nat>
    ghost var sent: seq<nat>

    constructor ()
      ensures Now() == START
    {
      working, pending, sent := false, [], [];
    }

    ghost function Now(): State
      reads this
    {
      State(working, pending, sent)
    }

    /** put_agent_request_cmd */
    method Send(agent: nat)
      modifies this`sent
      ensures sent == old(sent) + [agent]
    {
      sent := sent + [agent];
    }

    method HandleServiceAgentRequest(agent: nat, allocOk: bool) returns (ok: bool)
      modifies this
      ensures (Now(), ok) == DoRequest(old(Now()), agent, allocOk)
      ensures working && ok == (!old(working) || allocOk)
      ensures
        if !ok then pending == old(pending) && sent == old(sent)
        else if old(working) then pending == old(pending) + [agent] && sent == old(sent)
        else pending == old(pending) && sent == old(sent) + [agent]
    {
      if working {
        if !allocOk {
          return false;
        }
        pending := pending + [agent];
        return true;
      }
      working := true;
      Send(agent);
      return true;
    }

    /** service_thread_request_dequeue and the sending of what it returns */
    method HandleServiceAgentBack(matches: bool) returns (more: bool)
      modifies this
      ensures Now() == DoReply(old(Now()), matches)
      ensures more <==> matches && old(pending) != []
      ensures more ==> sent == old(sent) + [old(pending)[0]]
      ensures sent + pending == old(sent + pending)
    {
      if !matches {
        return false;
      }
      if pending == [] {
        working := false;
        return false;
      }
      var agent := pending[0];
      assert pending == [agent] + pending[1..];
      pending := pending[1..];
      Send(agent);
      assert sent + pending == old(sent) + ([agent] + pending);
      return true;
    }
  }

  // ---- whole runs ----

  function After(acts: seq<Action>): State
    decreases |acts|
  {
    if acts == [] then START else Apply(After(acts[..|acts| - 1]), acts[|acts| - 1])
  }

  /** What callers were told is taken care of: the requests whose call answered ok, in order. */
  function Submitted(acts: seq<Action>): seq<nat>
    decreases |acts|
  {
    if acts == [] then []
    else
      var before, last := acts[..|acts| - 1], acts[|acts| - 1];
      Submitted(before) +
      (if last.Request? && DoRequest(After(before), last.agent, last.allocOk).1 then [last.agent] else [])
  }

  /** All requests made, in order. */
  function Requested(acts: seq<Action>): seq<nat>
    decreases |acts|
  {
    if acts == [] then []
    else
      var last := acts[|acts| - 1];
      Requested(acts[..|acts| - 1]) + (if last.Request? then [last.agent] else [])
  }

  /** Matching replies that came. */
  function Replied(acts: seq<Action>): nat
    decreases |acts|
  {
    if acts == [] then 0 else Replied(acts[..|acts| - 1]) + (if acts[|acts| - 1] == Reply(true) then 1 else 0)
  }

  /**
    Whatever the replies do: what callers were told is taken care of is sent in that order, each
    request once; those not yet sent are exactly the pending ones; a non-empty list means the
    thread is working.
   */
  lemma {:induction false} SentInOrder(acts: seq<Action>)
    ensures After(acts).sent + After(acts).pending == Submitted(acts)
    ensures After(acts).pending != [] ==> After(acts).working
    decreases |acts|
  {
    if acts != [] {
      SentInOrder(acts[..|acts| - 1]);
      var s := After(acts[..|acts| - 1]);
      if s.pending != [] {
        assert s.pending == [s.pending[0]] + s.pending[1..];
      }
    }
  }

  ghost predicate AllocationsWork(acts: seq<Action>) { forall a :: a in acts && a.Request? ==> a.allocOk }

  /** If every allocation works, nothing is refused. */
  lemma {:induction false} AllSubmitted(acts: seq<Action>)
    requires AllocationsWork(acts)
    ensures Submitted(acts) == Requested(acts)
    decreases |acts|
  {
    if acts != [] {
      assert acts[|acts| - 1] in acts;
      AllSubmitted(acts[..|acts| - 1]);
    }
  }

  /** A request is refused exactly while the thread is working and memory is short. */
  lemma RefusedIff(acts: seq<Action>, agent: nat, allocOk: bool)
    ensures Submitted(acts + [Request(agent, allocOk)]) == Submitted(acts) <==> After(acts).working && !allocOk
  {
    assert (acts + [Request(agent, allocOk)])[..|acts|] == acts;
  }

  function Replies(n: nat): seq<Action> { seq(n, _ => Reply(true)) }

  /** With one matching reply for each pending request, all that was submitted has been sent. */
  lemma {:induction false} Drains(acts: seq<Action>)
    ensures After(acts + Replies(|After(acts).pending|)).sent == Submitted(acts)
    decreases |After(acts).pending|
  {
    SentInOrder(acts);
    var s := After(acts);
    if s.pending == [] {
      assert acts + Replies(0) == acts;
    } else {
      var more := acts + [Reply(true)];
      assert more[..|acts|] == acts;
      assert After(more).pending == s.pending[1..] && Submitted(more) == Submitted(acts);
      Drains(more);
      assert more + Replies(|s.pending| - 1) == acts + Replies(|s.pending|);
    }
  }

  function Outstanding(acts: seq<Action>): int { |After(acts).sent| - Replied(acts) }

  /** The thread's idea of itself is right: one request is out iff it is working. */
  ghost predicate InStep(acts: seq<Action>) { Outstanding(acts) == if After(acts).working then 1 else 0 }

  ghost predicate AlwaysInStep(acts: seq<Action>) {
    forall k :: 0 <= k <= |acts| ==> InStep(acts[..k])
  }

  /** One reply per outstanding request: none comes while nothing is out. */
  ghost predicate RepliesOnlyWhenOut(acts: seq<Action>) {
    forall k :: 0 <= k < |acts| ==> acts[k] == Reply(true) ==> Outstanding(acts[..k]) == 1
  }

  /** At most one request is out at any time exactly if replies answer requests one for one. */
  lemma {:induction false} OneOutIffAnswered(acts: seq<Action>)
    ensures AlwaysInStep(acts) <==> RepliesOnlyWhenOut(acts)
    decreases |acts|
  {
    if acts == [] {
      assert acts[..0] == [];
      assert InStep([]);
    } else {
      var before, last := acts[..|acts| - 1], acts[|acts| - 1];
      OneOutIffAnswered(before);
      assert acts[..|acts|] == acts;
      assert forall k :: 0 <= k <= |before| ==> before[..k] == acts[..k];
      assert forall k :: 0 <= k < |before| ==> before[k] == acts[k];
      assert AlwaysInStep(acts) <==> AlwaysInStep(before) && InStep(acts);
      assert RepliesOnlyWhenOut(acts) <==> RepliesOnlyWhenOut(before) && (last == Reply(true) ==> Outstanding(before) == 1);
      if AlwaysInStep(before) {
        assert before[..|before|] == before;
        SentInOrder(before);
        StepInStep(acts);
      }
    }
  }

  lemma StepInStep(acts: seq<Action>)
    requires acts != []
    requires InStep(acts[..|acts| - 1]) && (After(acts[..|acts| - 1]).pending != [] ==> After(acts[..|acts| - 1]).working)
    ensures InStep(acts) <==> (acts[|acts| - 1] == Reply(true) ==> Outstanding(acts[..|acts| - 1]) == 1)
  {
  }
}
