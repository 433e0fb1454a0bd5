/**
  SMC command slots when the normal world writes inside a call: get_last_in_cmd reads the slot up
  to three times, and only the copy it delivers is private.
 */
module SmcRaces {
  import opened Options
  import opened SmcSlots

  /** What one round of the scan reads about its slot: the two bits, then the command three times. */
  datatype View = View(inBit: bool, doing: bool, first: SmcCmd, copy: SmcCmd, third: SmcCmd)

  /** The round delivers its copy, given the private bit of the slot. */
  predicate Takes(v: View, slot: nat, busy: bool) {
    v.inBit && !v.doing && (busy ==> IsAbort(v.first)) && v.copy.eventNr == slot
  }

  /** The three reads of the command agree on whether it is an abort. */
  predicate Steady(v: View) { IsAbort(v.first) == IsAbort(v.copy) == IsAbort(v.third) }

  predicate Ordinary(v: View) { !IsAbort(v.copy) }

  /** What the normal world cannot write. */
  datatype Private = Private(last: nat, busy: seq<bool>)
  {
    ghost predicate Valid() { |busy| == MAX_SMC_CMD && 1 <= last <= MAX_SMC_CMD }
  }

  datatype Event = Took(slot: nat, view: View) | Answered(slot: nat)

  predicate Enabled(p: Private, e: Event)
    requires p.Valid()
  {
    e.slot < MAX_SMC_CMD && (e.Took? ==> Takes(e.view, e.slot, p.busy[e.slot]))
  }

  function Next(p: Private, e: Event): (p': Private)
    requires p.Valid() && Enabled(p, e)
    ensures p'.Valid()
  {
    match e
    case Took(slot, v) => Private(slot + 1, if IsAbort(v.third) then p.busy else p.busy[slot := true])
    case Answered(slot) => p.(busy := p.busy[slot := false])
  }

  /** Round m comes to a slot that it takes, and no round before it saw anything pending. */
  ghost predicate TakesAt(p: Private, views: seq<View>, m: nat)
    requires p.Valid() && m < |views|
  {
    && m < MAX_SMC_CMD && (forall k :: 0 <= k < m ==> !(views[k].inBit && !views[k].doing))
    && Takes(views[m], Slot(p.last, m), p.busy[Slot(p.last, m)])
  }

  // ---- the code ----

  /** The scanner's own memory; every read of shared memory may see anything. */
  class RacingScanner {
    const busy: array<bool>
    var lastIndex: nat

    ghost predicate Valid()
      reads this
    {
      busy.Length == MAX_SMC_CMD && 1 <= lastIndex <= MAX_SMC_CMD
    }

    ghost function State(): (p: Private)
      requires Valid()
      reads this, busy
      ensures p.Valid()
    {
      Private(lastIndex, busy[..])
    }

    constructor ()
      ensures Valid() && fresh(busy) && State() == Private(MAX_SMC_CMD, seq(MAX_SMC_CMD, _ => false))
    {
      busy := new bool[MAX_SMC_CMD](_ => false);
      lastIndex := MAX_SMC_CMD;
    }

    /**
      get_last_in_cmd, each round with its view. A round that skips its slot does not move on, so
      the scan goes on for as long as the normal world clears the bits it sets: `running` is a
      scan that is not over when the views are.
     */
    method GetLastInCmd(views: seq<View>) returns (r: Option<Event>, running: bool)
      requires Valid()
      modifies busy, this`lastIndex
      ensures Valid()
      ensures r.None? ==> State() == old(State())
      ensures r.Some? ==>
        && !running && r.value.Took? && r.value.view in views
        && Enabled(old(State()), r.value) && State() == Next(old(State()), r.value)
        && var slot, v := r.value.slot, r.value.view;
        && slot < 18 && v.inBit && !v.doing && v.copy.eventNr == slot && (old(busy[slot]) ==> IsAbort(v.first))
        && lastIndex == slot + 1 && busy[slot] == (old(busy[slot]) || !IsAbort(v.third))
        && forall j :: 0 <= j < 18 && j != slot ==> busy[j] == old(busy[j])
      ensures forall m :: 0 <= m < |views| && TakesAt(old(State()), views, m) ==>
        r == Some(Took(Slot(old(lastIndex), m), views[m]))
    {
      var i, n, begun := lastIndex, 0, false;
      while !begun || i != lastIndex
        invariant Valid() && 0 <= i <= MAX_SMC_CMD && n <= |views| && State() == old(State())
        invariant begun <==> n > 0
        invariant (forall k :: 0 <= k < n ==> !(views[k].inBit && !views[k].doing)) ==>
          n <= MAX_SMC_CMD && i == (if lastIndex + n <= MAX_SMC_CMD then lastIndex + n else lastIndex + n - MAX_SMC_CMD)
        invariant forall m :: 0 <= m < n ==> !TakesAt(old(State()), views, m)
        decreases |views| - n
      {
        if n == |views| {
          return None, true;
        }
        var v := views[n];
        n, begun := n + 1, true;
        if i == MAX_SMC_CMD {
          i := 0;
        }
        if v.inBit && !v.doing {
          if busy[i] && !IsAbort(v.first) {
            continue;
          }
          if v.copy.eventNr != i {
            continue;
          }
          if !IsAbort(v.third) {
            busy[i] := true;
          }
          lastIndex := i + 1;
          return Some(Took(i, v)), false;
        }
        i := i + 1;
      }
      return None, false;
    }
  }

  /** Without interference the three reads are the same command: the call is then what Get says. */
  lemma AtomicCallIsSteady(s: Slots)
    requires s.Valid()
    ensures var (s', r) := Get(s);
      var p := Private(s.last, s.busy);
      if r.None? then Private(s'.last, s'.busy) == p
      else
        var e := Took(r.value.eventNr, View(true, false, r.value, r.value, r.value));
        Steady(e.view) && Enabled(p, e) && Private(s'.last, s'.busy) == Next(p, e)
  {
    if !StopsEarly(s) && Get(s).1.Some? {
      assert Deliverable(s, Slot(s.last, Nearest(s, 0)));
    }
  }

  // ---- whole runs ----

  ghost predicate IsRun(p: Private, log: seq<Event>)
    requires p.Valid()
    decreases |log|, 0
  {
    log != [] ==> IsRun(p, log[..|log| - 1]) && Enabled(After(p, log[..|log| - 1]), log[|log| - 1])
  }

  ghost function After(p: Private, log: seq<Event>): (p': Private)
    requires p.Valid() && IsRun(p, log)
    ensures p'.Valid()
    decreases |log|, 1
  {
    if log == [] then p else Next(After(p, log[..|log| - 1]), log[|log| - 1])
  }

  /** At i slot n was taken with a third read that set its bit. */
  predicate Sets(log: seq<Event>, i: nat, n: nat) {
    i < |log| && log[i].Took? && log[i].slot == n && !IsAbort(log[i].view.third)
  }

  predicate NoAnswer(log: seq<Event>, i: int, j: nat, n: nat) {
    forall k :: i < k < j && 0 <= k < |log| ==> log[k] != Answered(n)
  }

  /** Some delivery of slot n since its last answer set the bit. */
  ghost predicate SetSince(log: seq<Event>, n: nat) {
    exists i: nat :: Sets(log, i, n) && NoAnswer(log, i, |log|, n)
  }

  lemma SetSinceStep(log: seq<Event>, e: Event, n: nat)
    ensures SetSince(log + [e], n) <==>
      (e.Took? && e.slot == n && !IsAbort(e.view.third)) || (SetSince(log, n) && e != Answered(n))
  {
    var all := log + [e];
    if SetSince(all, n) {
      var i: nat :| Sets(all, i, n) && NoAnswer(all, i, |all|, n);
      if i < |log| {
        assert all[|log|] == e;
        assert Sets(log, i, n);
        assert NoAnswer(log, i, |log|, n) by {
          assert forall k :: i < k < |log| ==> all[k] == log[k];
        }
      }
    }
    if SetSince(log, n) && e != Answered(n) {
      var i: nat :| Sets(log, i, n) && NoAnswer(log, i, |log|, n);
      assert Sets(all, i, n) && NoAnswer(all, i, |all|, n);
    }
    if e.Took? && e.slot == n && !IsAbort(e.view.third) {
      assert Sets(all, |log|, n) && NoAnswer(all, |log|, |all|, n);
    }
  }

  /** Whatever is written during the calls, the private bit says exactly this. */
  lemma {:induction false} BusyExactly(p: Private, log: seq<Event>, n: nat)
    requires p.Valid() && IsRun(p, log) && n < MAX_SMC_CMD
    ensures After(p, log).busy[n] <==> SetSince(log, n) || (p.busy[n] && Answered(n) !in log)
    decreases |log|
  {
    if log != [] {
      var front, e := log[..|log| - 1], log[|log| - 1];
      assert log == front + [e];
      BusyExactly(p, front, n);
      SetSinceStep(front, e, n);
    }
  }

  lemma {:induction false} PrefixIsRun(p: Private, log: seq<Event>, j: nat)
    requires p.Valid() && IsRun(p, log) && j < |log|
    ensures IsRun(p, log[..j]) && Enabled(After(p, log[..j]), log[j])
    decreases |log|
  {
    if j < |log| - 1 {
      PrefixIsRun(p, log[..|log| - 1], j);
      assert log[..|log| - 1][..j] == log[..j];
    }
  }

  /** A second ordinary command of an unanswered slot gets through only if a write hit one of two reads. */
  lemma SeparatedUnlessRaced(p: Private, log: seq<Event>, i: nat, j: nat, n: nat)
    requires p.Valid() && IsRun(p, log) && i < j < |log|
    requires log[i].Took? && log[j].Took? && log[i].slot == log[j].slot == n && NoAnswer(log, i, j, n)
    ensures IsAbort(log[i].view.third) || IsAbort(log[j].view.first)
  {
    var before := log[..j];
    PrefixIsRun(p, log, j);
    BusyExactly(p, before, n);
    if !IsAbort(log[i].view.third) {
      assert Sets(before, i, n) && NoAnswer(before, i, |before|, n);
    }
  }

  /** So if the reads of each call agree, ordinary deliveries of a slot have an answer between them. */
  lemma SteadyIsSeparated(p: Private, log: seq<Event>, i: nat, j: nat, n: nat)
    requires p.Valid() && IsRun(p, log) && i < j < |log|
    requires log[i].Took? && log[j].Took? && log[i].slot == log[j].slot == n
    requires Steady(log[i].view) && Steady(log[j].view) && Ordinary(log[i].view) && Ordinary(log[j].view)
    ensures exists k :: i < k < j && log[k] == Answered(n)
  {
    if NoAnswer(log, i, j, n) {
      SeparatedUnlessRaced(p, log, i, j, n);
    }
  }

  /**
    Exactly when an unanswered slot can deliver again: the first read shows an abort, or so did
    the third read of every delivery since the last answer.
   */
  lemma TakenAgainIff(p: Private, log: seq<Event>, v: View, n: nat)
    requires p.Valid() && IsRun(p, log) && n < MAX_SMC_CMD
    requires (forall k :: 0 <= k < MAX_SMC_CMD ==> !p.busy[k]) && v.inBit && !v.doing && v.copy.eventNr == n
    ensures Enabled(After(p, log), Took(n, v)) <==>
      IsAbort(v.first) || forall k: nat :: Sets(log, k, n) ==> !NoAnswer(log, k, |log|, n)
  {
    BusyExactly(p, log, n);
  }

  /** Two ordinary commands of slot 0 are delivered one after the other, with no answer between. */
  lemma TakenTwiceHappens(cmd: SmcCmd, abort: SmcCmd)
    requires !IsAbort(cmd) && IsAbort(abort) && cmd.eventNr == 0
    ensures var p := Private(MAX_SMC_CMD, seq(MAX_SMC_CMD, _ => false));
      var v := View(true, false, cmd, cmd, abort);
      Ordinary(v) && IsRun(p, [Took(0, v), Took(0, v)])
  {
    var p := Private(MAX_SMC_CMD, seq(MAX_SMC_CMD, _ => false));
    var e := Took(0, View(true, false, cmd, cmd, abort));
    assert [e, e][..1] == [e] && [e][..0] == [];
    assert IsRun(p, []) && IsRun(p, [e]);
    assert After(p, [e]) == Next(p, e);
  }
}
