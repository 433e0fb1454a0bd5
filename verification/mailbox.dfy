/**
  Mailbox (framework/gtask mem_manager): the window of normal-world memory that parameters may
  point into, their translation to gtask's addresses, and the way results go back.
 */
module Mailbox {
  import opened Bytes
  import opened Options

  const ADDR_MAX: nat := 0xffff_ffff_ffff_ffff

  /** uint64_t addition */
  function Add64(a: nat, b: nat): (r: nat)
    ensures r <= ADDR_MAX && (a + b <= ADDR_MAX ==> r == a + b)
  {
    (a + b) % 0x1_0000_0000_0000_0000
  }

  /** What a call returns, or that it reads or writes outside the buffers it works on. */
  datatype Status = Success | BadParameters | Generic | AccessDenied | ShortBuffer | OutOfBounds

  /** struct mempool_state */
  datatype Window = Window(init: bool, start: nat, size: nat, va: nat)

  const UNREGISTERED := Window(false, 0, 0, 0)

  /** A registered window wraps neither in physical nor in virtual addresses. */
  ghost predicate Sound(w: Window) {
    w.init ==> w.start + w.size <= ADDR_MAX && w.va + w.size <= ADDR_MAX && w.size < UINT32_LIMIT
  }

  /** One register command: the address and size it carries, and where the memory would be mapped. */
  datatype Registration = Registration(start: nat, size: nat, mapped: Option<nat>)

  ghost predicate Plausible(c: Registration) {
    && c.start <= ADDR_MAX && c.size < UINT32_LIMIT
    && (c.mapped.Some? ==> c.mapped.value + c.size <= ADDR_MAX)
  }

  /** register_mempool; start and size are written even if the command is refused */
  function Register(w: Window, c: Registration, poolSize: nat): (r: (Window, Status))
    requires c.size <= ADDR_MAX
  {
    if w.init then (w, AccessDenied)
    else
      var w' := w.(start := c.start, size := c.size);
      if c.start > ADDR_MAX - c.size || c.size != poolSize then (w', BadParameters)
      else if c.mapped.None? then (w', Generic)
      else (w'.(va := c.mapped.value, init := true), Success)
  }

  /** g_mb_state */
  class MailboxState {
    var init: bool
    var start: nat
    var size: nat
    var va: nat

    constructor ()
      ensures Now() == UNREGISTERED
    {
      init, start, size, va := false, 0, 0, 0;
    }

    function Now(): Window
      reads this
    {
      Window(init, start, size, va)
    }

    method RegisterMempool(c: Registration, poolSize: nat) returns (ret: Status)
      requires Plausible(c)
      modifies this
      ensures (Now(), ret) == Register(old(Now()), c, poolSize)
      ensures ret == Success <==> !old(init) && c.start + c.size <= ADDR_MAX && c.size == poolSize && c.mapped.Some?
      ensures ret == Success ==> init && start == c.start && size == c.size && va == c.mapped.value
      ensures ret == AccessDenied <==> old(init)
      ensures ret != Success ==> init == old(init) && va == old(va) && (init ==> Now() == old(Now()))
    {
      if init {
        return AccessDenied;
      }
      start, size := c.start, c.size;
      if start > ADDR_MAX - size || size != poolSize {
        return BadParameters;
      }
      if c.mapped.None? {
        return Generic;
      }
      va, init := c.mapped.value, true;
      return Success;
    }
  }

  function After(w: Window, cs: seq<Registration>, poolSize: nat): Window
    requires forall i :: 0 <= i < |cs| ==> Plausible(cs[i])
    decreases |cs|
  {
    if cs == [] then w else assert Plausible(cs[0]); After(Register(w, cs[0], poolSize).0, cs[1..], poolSize)
  }

  /** The address range does not wrap, it has the pool's size, and it can be mapped. */
  predicate Good(c: Registration, poolSize: nat) {
    c.start + c.size <= ADDR_MAX && c.size == poolSize && c.mapped.Some?
  }

  /** A registered window never changes; without one, the first good command makes it, and only a good one does. */
  lemma {:induction false} WindowIsFixed(w: Window, cs: seq<Registration>, poolSize: nat)
    requires Sound(w) && forall i :: 0 <= i < |cs| ==> Plausible(cs[i])
    ensures Sound(After(w, cs, poolSize))
    ensures w.init ==> After(w, cs, poolSize) == w
    ensures !w.init ==> (After(w, cs, poolSize).init <==> exists k :: 0 <= k < |cs| && Good(cs[k], poolSize))
    ensures !w.init ==> forall k ::
      0 <= k < |cs| && Good(cs[k], poolSize) && (forall j :: 0 <= j < k ==> !Good(cs[j], poolSize)) ==>
      After(w, cs, poolSize) == Window(true, cs[k].start, cs[k].size, cs[k].mapped.value)
    decreases |cs|
  {
    if cs != [] {
      assert Plausible(cs[0]);
      var w' := Register(w, cs[0], poolSize).0;
      var rest := cs[1..];
      WindowIsFixed(w', rest, poolSize);
      assert forall k :: 0 < k < |cs| ==> cs[k] == rest[k - 1];
      hide After;
      if !w.init {
        assert After(w, cs, poolSize) == After(w', rest, poolSize) by { AfterIs(w, cs, poolSize); }
        assert w'.init <==> Good(cs[0], poolSize);
        if After(w', rest, poolSize).init && !w'.init {
          var k :| 0 <= k < |rest| && Good(rest[k], poolSize);
          assert Good(cs[k + 1], poolSize);
        }
        forall k | 0 <= k < |cs| && Good(cs[k], poolSize) && (forall j :: 0 <= j < k ==> !Good(cs[j], poolSize))
          ensures After(w, cs, poolSize) == Window(true, cs[k].start, cs[k].size, cs[k].mapped.value)
        {
          if k > 0 {
            assert !Good(cs[0], poolSize) && Good(rest[k - 1], poolSize);
            assert forall j :: 0 <= j < k - 1 ==> rest[j] == cs[j + 1];
          }
        }
      } else {
        AfterIs(w, cs, poolSize);
      }
    }
  }

  lemma AfterIs(w: Window, cs: seq<Registration>, poolSize: nat)
    requires cs != [] && forall i :: 0 <= i < |cs| ==> Plausible(cs[i])
    ensures Plausible(cs[0]) && After(w, cs, poolSize) == After(Register(w, cs[0], poolSize).0, cs[1..], poolSize)
  {
  }

  /** in_mailbox_range, as it computes: true as long as there is no mailbox */
  predicate InMailboxRange(w: Window, addr: nat, size: nat)
    requires size <= ADDR_MAX
  {
    !w.init ||
    !(|| addr > ADDR_MAX - size
      || addr < w.start || addr >= Add64(w.start, w.size)
      || Add64(addr, size) < w.start || Add64(addr, size) > Add64(w.start, w.size))
  }

  /** in_mailbox_range, as it is meant: the whole range lies in the window */
  predicate Inside(w: Window, addr: nat, size: nat) {
    w.start <= addr < w.start + w.size && addr + size <= w.start + w.size
  }

  lemma InRangeIff(w: Window, addr: nat, size: nat)
    requires Sound(w) && w.init && addr <= ADDR_MAX && size < UINT32_LIMIT
    ensures InMailboxRange(w, addr, size) <==> Inside(w, addr, size)
  {
  }

  /** mailbox_phys_to_virt */
  function PhysToVirt(w: Window, phys: nat): Option<nat>
    requires w.init && phys != 0 ==> w.start <= phys
  {
    if phys == 0 || !w.init then None else Some(Add64(w.va, phys - w.start))
  }

  // ---- mapping parameters ----

  datatype Kind = NoParam | ValueInput | ValueOutput | ValueInout | MemrefInput | MemrefOutput | MemrefInout | InvalidKind

  predicate IsMemref(k: Kind) { k == MemrefInput || k == MemrefOutput || k == MemrefInout }
  predicate IsOut(k: Kind) { k == MemrefOutput || k == MemrefInout }

  /** One parameter of an operation, in the TEE's private copy of it. */
  datatype Param = Param(kind: Kind, low: nat, high: nat, size: nat)

  ghost predicate Words(p: Param) { p.low < UINT32_LIMIT && p.high < UINT32_LIMIT && p.size < UINT32_LIMIT }

  /** Two 32-bit halves; they share no bit, so the bitwise or is a sum. */
  function Addr(p: Param): (a: nat)
    ensures Words(p) ==> a <= ADDR_MAX
  {
    p.low + UINT32_LIMIT * p.high
  }

  ghost predicate WordsAll(ps: seq<Param>) { forall i :: 0 <= i < |ps| ==> Words(ps[i]) }

  /** check_operation_params_in_mailbox_range */
  method CheckOperationParams(w: Window, ps: seq<Param>) returns (ret: Status)
    requires WordsAll(ps)
    ensures ret == BadParameters || ret == Success
    ensures ret == Success <==> forall i :: 0 <= i < |ps| && IsMemref(ps[i].kind) && Addr(ps[i]) != 0 ==>
      InMailboxRange(w, Addr(ps[i]), ps[i].size)
  {
    ret := Success;
    for i := 0 to |ps|
      invariant ret == BadParameters || ret == Success
      invariant ret == Success <==> forall j :: 0 <= j < i && IsMemref(ps[j].kind) && Addr(ps[j]) != 0 ==>
        InMailboxRange(w, Addr(ps[j]), ps[j].size)
    {
      if IsMemref(ps[i].kind) {
        var addr := Addr(ps[i]);
        if addr != 0 && !InMailboxRange(w, addr, ps[i].size) {
          ret := BadParameters;
        }
      }
    }
  }

  /** Does this parameter map, given whether a private copy of its buffer could be made? */
  ghost predicate Maps(w: Window, p: Param, skipCopy: bool, copyOk: bool) {
    && p.kind != InvalidKind
    && (IsMemref(p.kind) ==>
          w.init && Addr(p) != 0 && Inside(w, Addr(p), p.size) && (skipCopy || (p.size > 0 && copyOk)))
  }

  /**
    operation_map_for_gt for a command from the normal world: check all memrefs, then translate
    them one by one. The first memref of a load command (`taLoad`) is not copied here.
   */
  method MapOperation(w: Window, ps: seq<Param>, taLoad: bool, copyOk: seq<bool>)
    returns (ret: Status, ree: seq<nat>)
    requires Sound(w) && WordsAll(ps) && |copyOk| == |ps|
    ensures ret == Success <==> forall i :: 0 <= i < |ps| ==> Maps(w, ps[i], taLoad && i == 0, copyOk[i])
    ensures ret == Success <==> forall i :: 0 <= i < |ps| ==>
      && ps[i].kind != InvalidKind
      && (ps[i].kind in {MemrefInput, MemrefOutput, MemrefInout} ==>
            var addr := ps[i].low + 0x1_0000_0000 * ps[i].high;
            && w.init && addr != 0 && w.start <= addr < w.start + w.size && addr + ps[i].size <= w.start + w.size
            && ((taLoad && i == 0) || (ps[i].size > 0 && copyOk[i])))
    ensures ret == Success ==>
      && |ree| == |ps|
      && forall i :: 0 <= i < |ps| && ps[i].kind in {MemrefInput, MemrefOutput, MemrefInout} ==>
           && ree[i] == w.va + (ps[i].low + 0x1_0000_0000 * ps[i].high - w.start)
           && w.va <= ree[i] && ree[i] + ps[i].size <= w.va + w.size <= ADDR_MAX
  {
    ree := [];
    ret := CheckOperationParams(w, ps);
    RangesMeant(w, ps);
    if ret != Success {
      ghost var i :| 0 <= i < |ps| && IsMemref(ps[i].kind) && Addr(ps[i]) != 0 && !InMailboxRange(w, Addr(ps[i]), ps[i].size);
      assert !Maps(w, ps[i], taLoad && i == 0, copyOk[i]);
      return;
    }
    for i := 0 to |ps|
      invariant |ree| == i && ret == Success
      invariant forall j :: 0 <= j < i ==> Maps(w, ps[j], taLoad && j == 0, copyOk[j])
      invariant forall j :: 0 <= j < i && IsMemref(ps[j].kind) ==> ree[j] == w.va + (Addr(ps[j]) - w.start)
    {
      var addr := 0;
      var status := Success;
      match ps[i].kind {
        case NoParam | ValueInput | ValueOutput | ValueInout =>
        case MemrefInput | MemrefOutput | MemrefInout =>
          status, addr := MapMemref(w, ps[i], taLoad && i == 0, copyOk[i]);
        case InvalidKind =>
          status := Generic;
      }
      if status != Success {
        assert !Maps(w, ps[i], taLoad && i == 0, copyOk[i]);
        return status, ree;
      }
      ree := ree + [addr];
    }
    forall i | 0 <= i < |ps| && IsMemref(ps[i].kind)
      ensures ree[i] + ps[i].size <= w.va + w.size
    {
      assert Maps(w, ps[i], taLoad && i == 0, copyOk[i]);
    }
  }

  /** params_map_for_ta_memref and map_memref_for_gtask, after the range check */
  method MapMemref(w: Window, p: Param, skipCopy: bool, copyOk: bool) returns (ret: Status, addr: nat)
    requires Sound(w) && Words(p) && IsMemref(p.kind)
    requires w.init && Addr(p) != 0 ==> Inside(w, Addr(p), p.size)
    ensures ret == Success <==> Maps(w, p, skipCopy, copyOk)
    ensures ret == Success ==> addr == w.va + (Addr(p) - w.start)
  {
    addr := 0;
    var r := PhysToVirt(w, Addr(p));
    if r.None? {
      return Generic, addr;
    }
    addr := r.value;
    if skipCopy {
      return Success, addr;
    }
    if p.size == 0 {
      return BadParameters, addr;
    }
    if !copyOk {
      return Generic, addr;
    }
    return Success, addr;
  }

  lemma RangesMeant(w: Window, ps: seq<Param>)
    requires Sound(w) && WordsAll(ps)
    ensures forall i :: 0 <= i < |ps| ==>
      InMailboxRange(w, Addr(ps[i]), ps[i].size) == (w.init ==> Inside(w, Addr(ps[i]), ps[i].size))
  {
    forall i | 0 <= i < |ps|
      ensures InMailboxRange(w, Addr(ps[i]), ps[i].size) == (w.init ==> Inside(w, Addr(ps[i]), ps[i].size))
    {
      assert Words(ps[i]);
      if w.init {
        InRangeIff(w, Addr(ps[i]), ps[i].size);
      }
    }
  }

  // ---- results go back ----

  /**
    A mapped parameter when the command returns: its kind and size as copied on entry, the offset
    of its buffer in the mailbox, the TEE's buffer, which is one byte longer, and the values the
    TA reports.
   */
  datatype Result = Result(kind: Kind, size: nat, at: nat, tee: seq<byte>, a: nat, b: nat)

  /**
    The sizes that are fetched from memory others can write: the normal world's size field twice,
    and the TA's up to three times, for the check, for the copy and for the report.
   */
  datatype Seen = Seen(first: nat, second: nat, checked: nat, copied: nat, reported: nat)

  /** The fields of a normal world's parameter that results go into. */
  datatype ReeParam = ReeParam(a: nat, b: nat, size: nat)

  predicate Mismatch(r: Result, seen: Seen) { IsOut(r.kind) && r.size != seen.first }

  predicate TooLong(r: Result, teeSize: nat) { IsOut(r.kind) && r.size < teeSize }

  predicate Short(r: Result, seen: Seen) { TooLong(r, seen.checked) }

  predicate Refuses(reeSize: nat, teeSize: nat) { reeSize == 0 || (teeSize > 0 && reeSize < teeSize) }

  /** copy_to_src refuses */
  predicate Refused(r: Result, seen: Seen) { IsOut(r.kind) && !Short(r, seen) && Refuses(seen.second, seen.copied) }

  predicate Fails(r: Result, seen: Seen) { Mismatch(r, seen) || Refused(r, seen) }

  predicate Leaves(limit: nat, at: nat, tee: seq<byte>, teeSize: nat) {
    teeSize > 0 && (teeSize > |tee| || at + teeSize > limit)
  }

  /** The copy reads behind the TEE's buffer or writes behind the mailbox, which ends at `limit`. */
  predicate Outside(limit: nat, r: Result, seen: Seen) {
    IsOut(r.kind) && !Short(r, seen) && Leaves(limit, r.at, r.tee, seen.copied)
  }

  predicate Stops(limit: nat, r: Result, seen: Seen) { Fails(r, seen) || Outside(limit, r, seen) }

  /** What one parameter does to the mailbox. */
  function CopiedOne(mem: seq<byte>, r: Result, seen: Seen): (m: seq<byte>)
    requires Fitting(|mem|, r) && !Stops(|mem|, r, seen)
    ensures |m| == |mem|
  {
    if IsOut(r.kind) && !Short(r, seen) then Splice(mem, r.at, r.tee[..seen.copied]) else mem
  }

  /** The mapping guarantees this: the buffer lies in the mailbox and the TEE's copy has room for it. */
  predicate Fitting(limit: nat, r: Result) {
    IsOut(r.kind) ==> r.at + r.size <= limit && |r.tee| == r.size + 1
  }

  ghost predicate FitAll(limit: nat, rs: seq<Result>) {
    forall i :: 0 <= i < |rs| ==> Fitting(limit, rs[i])
  }

  /** How many parameters are handled before the first one that stops the copying. */
  function Handled(limit: nat, rs: seq<Result>, seen: seq<Seen>): (n: nat)
    requires |rs| == |seen|
    ensures n <= |rs| && (n < |rs| ==> Stops(limit, rs[n], seen[n]))
    ensures forall i :: 0 <= i < n ==> !Stops(limit, rs[i], seen[i])
  {
    if rs == [] || Stops(limit, rs[0], seen[0]) then 0 else 1 + Handled(limit, rs[1..], seen[1..])
  }

  /** The mailbox after the first n parameters. */
  ghost function Copied(mem: seq<byte>, rs: seq<Result>, seen: seq<Seen>, n: nat): (m: seq<byte>)
    requires |rs| == |seen| && FitAll(|mem|, rs) && n <= Handled(|mem|, rs, seen)
    ensures |m| == |mem|
  {
    if n == 0 then mem
    else
      assert Fitting(|mem|, rs[n - 1]);
      CopiedOne(Copied(mem, rs, seen, n - 1), rs[n - 1], seen[n - 1])
  }

  ghost predicate AnyShort(rs: seq<Result>, seen: seq<Seen>, n: nat)
    requires n <= |rs| == |seen|
  {
    exists i :: 0 <= i < n && Short(rs[i], seen[i])
  }

  /** copy_to_src */
  method CopyToSrc(mem: array<byte>, at: nat, reeSize: nat, tee: seq<byte>, teeSize: nat) returns (ret: Status)
    modifies mem
    ensures ret == if Refuses(reeSize, teeSize) then BadParameters
                   else if Leaves(mem.Length, at, tee, teeSize) then OutOfBounds else Success
    ensures ret != Success || teeSize == 0 ==> mem[..] == old(mem[..])
    ensures ret == Success && teeSize > 0 ==> mem[..] == Splice(old(mem[..]), at, tee[..teeSize])
  {
    if reeSize == 0 {
      return BadParameters;
    }
    if teeSize == 0 {
      return Success;
    }
    if reeSize < teeSize {
      return BadParameters;
    }
    if teeSize > |tee| || at + teeSize > mem.Length {
      return OutOfBounds;
    }
    WriteBytes(mem, at, tee[..teeSize]);
    return Success;
  }

  /** One parameter of copy_params_back_to_ree: it stops the copying, or its result goes back. */
  method CopyParamBack(mem: array<byte>, ree: array<ReeParam>, i: nat, r: Result, seen: Seen) returns (ret: Status)
    requires Fitting(mem.Length, r) && i < ree.Length
    modifies mem, ree
    ensures Fails(r, seen) ==> ret == BadParameters && mem[..] == old(mem[..]) && ree[..] == old(ree[..])
    ensures !Fails(r, seen) && Outside(mem.Length, r, seen) ==>
      ret == OutOfBounds && mem[..] == old(mem[..]) && ree[..] == old(ree[..])
    ensures !Stops(mem.Length, r, seen) ==>
      && ret == (if Short(r, seen) then ShortBuffer else Success)
      && mem[..] == CopiedOne(old(mem[..]), r, seen)
      && (r.kind == ValueOutput || r.kind == ValueInout ==> ree[i] == old(ree[i]).(a := r.a, b := r.b))
      && (r.kind == MemrefOutput || r.kind == MemrefInout ==> ree[i] == old(ree[i]).(size := seen.reported))
      && (r.kind in {NoParam, ValueInput, MemrefInput, InvalidKind} ==> ree[i] == old(ree[i]))
    ensures forall j :: 0 <= j < ree.Length && j != i ==> ree[j] == old(ree[j])
  {
    ret := Success;
    match r.kind {
      case ValueOutput | ValueInout =>
        ree[i] := ree[i].(a := r.a);
        ree[i] := ree[i].(b := r.b);
      case MemrefOutput | MemrefInout =>
        if r.size != seen.first {
          return BadParameters;
        }
        if r.size < seen.checked {
          ree[i] := ree[i].(size := seen.reported);
          return ShortBuffer;
        }
        ghost var was := mem[..];
        ret := CopyToSrc(mem, r.at, seen.second, r.tee, seen.copied);
        if ret != Success {
          return;
        }
        assert Splice(was, r.at, []) == was;
        ree[i] := ree[i].(size := seen.reported);
      case _ =>
    }
  }

  /** copy_params_back_to_ree, over the mailbox memory and the normal world's parameters */
  method CopyParamsBackToRee(mem: array<byte>, ree: array<ReeParam>, rs: seq<Result>, seen: seq<Seen>) returns (ret: Status)
    requires |rs| == |seen| == ree.Length && FitAll(mem.Length, rs)
    modifies mem, ree
    ensures var n := Handled(mem.Length, rs, seen);
      && ret == (if n < |rs| then (if Fails(rs[n], seen[n]) then BadParameters else OutOfBounds)
                 else if AnyShort(rs, seen, n) then ShortBuffer else Success)
      && mem[..] == Copied(old(mem[..]), rs, seen, n)
      && (forall i :: 0 <= i < n && (rs[i].kind == ValueOutput || rs[i].kind == ValueInout) ==>
            ree[i] == old(ree[i]).(a := rs[i].a, b := rs[i].b))
      && (forall i :: 0 <= i < n && IsOut(rs[i].kind) ==> ree[i] == old(ree[i]).(size := seen[i].reported))
      && (forall i :: 0 <= i < n && rs[i].kind in {NoParam, ValueInput, MemrefInput, InvalidKind} ==> ree[i] == old(ree[i]))
      && (forall i :: n <= i < |rs| ==> ree[i] == old(ree[i]))
  {
    ret := Success;
    ghost var was := mem[..];
    ghost var n := Handled(mem.Length, rs, seen);
    hide Fails, Outside, Short, CopiedOne, Handled, Fitting, AnyShort;
    NoneShort(rs, seen);
    for i := 0 to |rs|
      invariant i <= n && (ret == Success || ret == ShortBuffer)
      invariant ret == ShortBuffer <==> AnyShort(rs, seen, i)
      invariant mem[..] == Copied(was, rs, seen, i)
      invariant forall j :: 0 <= j < i && (rs[j].kind == ValueOutput || rs[j].kind == ValueInout) ==>
        ree[j] == old(ree[j]).(a := rs[j].a, b := rs[j].b)
      invariant forall j :: 0 <= j < i && IsOut(rs[j].kind) ==> ree[j] == old(ree[j]).(size := seen[j].reported)
      invariant forall j :: 0 <= j < i && rs[j].kind in {NoParam, ValueInput, MemrefInput, InvalidKind} ==> ree[j] == old(ree[j])
      invariant forall j :: i <= j < |rs| ==> ree[j] == old(ree[j])
    {
      ShortStep(rs, seen, i);
      var status := CopyParamBack(mem, ree, i, rs[i], seen[i]);
      if status == BadParameters || status == OutOfBounds {
        return status;
      }
      if status == ShortBuffer {
        ret := ShortBuffer;
      }
    }
  }

  lemma NoneShort(rs: seq<Result>, seen: seq<Seen>)
    requires |rs| == |seen|
    ensures !AnyShort(rs, seen, 0)
  {
  }

  lemma ShortStep(rs: seq<Result>, seen: seq<Seen>, i: nat)
    requires i < |rs| == |seen|
    ensures AnyShort(rs, seen, i + 1) <==> AnyShort(rs, seen, i) || Short(rs[i], seen[i])
  {
    hide Short;
  }

  // ---- when the copies stay where they belong ----

  /** The parameter's copy neither leaves the memory nor changes a byte outside its own buffer. */
  ghost predicate Tidy(mem: seq<byte>, r: Result, seen: Seen)
    requires Fitting(|mem|, r) && !Fails(r, seen)
  {
    && !Outside(|mem|, r, seen)
    && forall k :: 0 <= k < |mem| && !(r.at <= k < r.at + r.size) ==> CopiedOne(mem, r, seen)[k] == mem[k]
  }

  /** It is too long for a copy, or the size fetched for the copy is at most the size on entry. */
  predicate Contained(r: Result, seen: Seen) { IsOut(r.kind) ==> Short(r, seen) || seen.copied <= r.size }

  /** Whatever the memory and the buffer hold, the copy of this parameter is tidy. */
  ghost predicate AlwaysTidy(limit: nat, r: Result, seen: Seen)
    requires Fitting(limit, r) && !Fails(r, seen)
  {
    forall mem, tee :: |mem| == limit && |tee| == |r.tee| ==> Tidy(mem, r.(tee := tee), seen)
  }

  lemma TidyIff(limit: nat, r: Result, seen: Seen)
    requires Fitting(limit, r) && !Fails(r, seen)
    ensures AlwaysTidy(limit, r, seen) <==> Contained(r, seen)
  {
    if !Contained(r, seen) {
      var mem, tee := Zeros(limit), seq(r.size + 1, _ => 1 as byte);
      var r' := r.(tee := tee);
      if !Outside(limit, r', seen) {
        assert CopiedOne(mem, r', seen)[r.at + r.size] == tee[r.size] == 1;
      }
      assert !Tidy(mem, r', seen);
    }
  }

  /** How many parameters come before the first that is refused. */
  function Accepted(rs: seq<Result>, seen: seq<Seen>): (n: nat)
    requires |rs| == |seen|
    ensures n <= |rs| && (n < |rs| ==> Fails(rs[n], seen[n]))
    ensures forall i :: 0 <= i < n ==> !Fails(rs[i], seen[i])
  {
    if rs == [] || Fails(rs[0], seen[0]) then 0 else 1 + Accepted(rs[1..], seen[1..])
  }

  /** Every copy of a call stays in its own buffer, for all contents, iff every parameter it gets to is contained. */
  lemma CallTidyIff(limit: nat, rs: seq<Result>, seen: seq<Seen>)
    requires |rs| == |seen| && FitAll(limit, rs)
    ensures (forall i :: 0 <= i < Accepted(rs, seen) ==> AlwaysTidy(limit, rs[i], seen[i]))
       <==> (forall i :: 0 <= i < Accepted(rs, seen) ==> Contained(rs[i], seen[i]))
  {
    forall i | 0 <= i < Accepted(rs, seen)
      ensures AlwaysTidy(limit, rs[i], seen[i]) <==> Contained(rs[i], seen[i])
    {
      TidyIff(limit, rs[i], seen[i]);
    }
  }

  /** The TA shows 8, then 9: the byte behind an 8-byte buffer is overwritten. */
  lemma WritesBehindHappens(x: byte)
    requires x != 0
    ensures var r := Result(MemrefOutput, 8, 0, Zeros(8) + [x], 0, 0);
      var seen := Seen(8, 200, 8, 9, 9);
      Fitting(16, r) && !Stops(16, r, seen) && CopiedOne(Zeros(16), r, seen)[8] == x
  {
  }

  /** The TA shows 8, then 100: the copy reads far behind the TEE's nine bytes. */
  lemma ReadsBehindHappens(limit: nat, tee: seq<byte>)
    requires limit >= 8 && |tee| == 9
    ensures var r := Result(MemrefOutput, 8, 0, tee, 0, 0);
      var seen := Seen(8, 200, 8, 100, 100);
      Fitting(limit, r) && !Fails(r, seen) && Outside(limit, r, seen)
  {
  }

  /** Contained copies never leave the memory. */
  lemma {:induction false} ContainedHandled(limit: nat, rs: seq<Result>, seen: seq<Seen>)
    requires |rs| == |seen| && FitAll(limit, rs)
    requires forall i :: 0 <= i < Accepted(rs, seen) ==> Contained(rs[i], seen[i])
    ensures Handled(limit, rs, seen) == Accepted(rs, seen)
  {
    var n, m := Handled(limit, rs, seen), Accepted(rs, seen);
    if n < |rs| {
      assert Fitting(limit, rs[n]) && Stops(limit, rs[n], seen[n]);
    }
    if m < |rs| {
      assert Stops(limit, rs[m], seen[m]);
    }
  }

  /** Then, whatever sizes the normal world shows, only bytes of accepted output buffers change. */
  lemma {:induction false} StaysInBuffers(mem: seq<byte>, rs: seq<Result>, seen: seq<Seen>, n: nat, k: nat)
    requires |rs| == |seen| && FitAll(|mem|, rs) && n <= Handled(|mem|, rs, seen) && k < |mem|
    requires forall i :: 0 <= i < n ==> Contained(rs[i], seen[i])
    ensures Copied(mem, rs, seen, n)[k] != mem[k] ==>
      exists i :: 0 <= i < n && IsOut(rs[i].kind) && rs[i].at <= k < rs[i].at + rs[i].size
  {
    if n > 0 {
      StaysInBuffers(mem, rs, seen, n - 1, k);
      assert Contained(rs[n - 1], seen[n - 1]) && Fitting(|mem|, rs[n - 1]);
    }
  }

  /** check_short_buffer, which fetches the TA's sizes once more */
  method CheckShortBuffer(rs: seq<Result>, sizes: seq<nat>) returns (short: bool)
    requires |rs| == |sizes|
    ensures short <==> exists i :: 0 <= i < |rs| && TooLong(rs[i], sizes[i])
  {
    for i := 0 to |rs|
      invariant forall j :: 0 <= j < i ==> !TooLong(rs[j], sizes[j])
    {
      if !IsOut(rs[i].kind) {
        continue;
      }
      if rs[i].size < sizes[i] {
        assert TooLong(rs[i], sizes[i]);
        return true;
      }
    }
    return false;
  }

  /** Normal world and TA leave their sizes alone while results go back, and the buffer is not empty. */
  predicate Honest(r: Result, seen: Seen) {
    IsOut(r.kind) ==>
      r.size > 0 && seen.first == seen.second == r.size && seen.checked == seen.copied == seen.reported
  }

  predicate Disjoint(r: Result, r': Result) {
    IsOut(r.kind) && IsOut(r'.kind) ==> r.at + r.size <= r'.at || r'.at + r'.size <= r.at
  }

  ghost predicate AllHonest(rs: seq<Result>, seen: seq<Seen>) {
    |rs| == |seen| && forall i :: 0 <= i < |rs| ==> Honest(rs[i], seen[i])
  }

  ghost predicate AllDisjoint(rs: seq<Result>) { forall i, j :: 0 <= i < j < |rs| ==> Disjoint(rs[i], rs[j]) }

  lemma HonestIsHandled(limit: nat, rs: seq<Result>, seen: seq<Seen>)
    requires FitAll(limit, rs) && AllHonest(rs, seen)
    ensures Handled(limit, rs, seen) == |rs|
  {
    forall i | 0 <= i < |rs| ensures !Stops(limit, rs[i], seen[i]) {
      assert Honest(rs[i], seen[i]) && Fitting(limit, rs[i]);
    }
  }

  /** An output that fits is in its buffer once it was copied, and later copies do not touch it. */
  lemma {:induction false} OutputStays(mem: seq<byte>, rs: seq<Result>, seen: seq<Seen>, i: nat, n: nat)
    requires FitAll(|mem|, rs) && AllHonest(rs, seen) && AllDisjoint(rs) && i < n <= Handled(|mem|, rs, seen)
    requires IsOut(rs[i].kind) && !Short(rs[i], seen[i])
    ensures seen[i].copied <= rs[i].size && Fitting(|mem|, rs[i])
    ensures Copied(mem, rs, seen, n)[rs[i].at..rs[i].at + seen[i].copied] == rs[i].tee[..seen[i].copied]
  {
    var r, o := rs[i], rs[n - 1];
    assert Honest(r, seen[i]) && Honest(o, seen[n - 1]) && Fitting(|mem|, r) && Fitting(|mem|, o);
    var before := Copied(mem, rs, seen, n - 1);
    if i == n - 1 {
      SpliceHere(before, r.at, r.tee[..seen[i].copied]);
    } else {
      assert Disjoint(r, o);
      hide FitAll, AllHonest, AllDisjoint, Disjoint, Handled;
      OutputStays(mem, rs, seen, i, n - 1);
      if IsOut(o.kind) && !Short(o, seen[n - 1]) {
        SpliceElsewhere(before, o.at, o.tee[..seen[n - 1].copied], r.at, seen[i].copied);
      }
    }
  }

  /**
    With an honest normal world and TA, and buffers that do not overlap, every parameter is handled
    and in the end every output that fits is in its buffer, whole and unmixed.
   */
  lemma HonestCallerGetsAll(mem: seq<byte>, rs: seq<Result>, seen: seq<Seen>)
    requires FitAll(|mem|, rs) && AllHonest(rs, seen) && AllDisjoint(rs)
    ensures Handled(|mem|, rs, seen) == |rs|
    ensures forall i :: 0 <= i < |rs| && IsOut(rs[i].kind) && !Short(rs[i], seen[i]) ==>
      && seen[i].copied <= rs[i].size && Fitting(|mem|, rs[i])
      && Copied(mem, rs, seen, |rs|)[rs[i].at..rs[i].at + seen[i].copied] == rs[i].tee[..seen[i].copied]
  {
    HonestIsHandled(|mem|, rs, seen);
    forall i | 0 <= i < |rs| && IsOut(rs[i].kind) && !Short(rs[i], seen[i])
      ensures seen[i].copied <= rs[i].size && Fitting(|mem|, rs[i])
      ensures Copied(mem, rs, seen, |rs|)[rs[i].at..rs[i].at + seen[i].copied] == rs[i].tee[..seen[i].copied]
    {
      OutputStays(mem, rs, seen, i, |rs|);
    }
  }

  /**
    A whole honest call: the caller finds its results, the TA's values each in its own field, the
    TA's size of every output also when it is too long, and nothing else changed.
   */
  method HonestCall(mem: array<byte>, ree: array<ReeParam>, rs: seq<Result>, seen: seq<Seen>) returns (ret: Status)
    requires |rs| == ree.Length && FitAll(mem.Length, rs) && AllHonest(rs, seen) && AllDisjoint(rs)
    modifies mem, ree
    ensures ret == Success || ret == ShortBuffer
    ensures ret == ShortBuffer <==> exists i :: 0 <= i < |rs| && IsOut(rs[i].kind) && rs[i].size < seen[i].checked
    ensures forall i :: 0 <= i < |rs| ==>
      match rs[i].kind
      case ValueOutput | ValueInout => ree[i].a == rs[i].a && ree[i].b == rs[i].b && ree[i].size == old(ree[i]).size
      case MemrefOutput | MemrefInout => ree[i] == old(ree[i]).(size := seen[i].checked)
      case _ => ree[i] == old(ree[i])
    ensures forall i :: 0 <= i < |rs| && IsOut(rs[i].kind) && seen[i].checked <= rs[i].size ==>
      && rs[i].at + seen[i].checked <= mem.Length && seen[i].checked <= |rs[i].tee|
      && mem[rs[i].at..rs[i].at + seen[i].checked] == rs[i].tee[..seen[i].checked]
    ensures forall k :: 0 <= k < mem.Length && mem[k] != old(mem[k]) ==>
      exists i :: 0 <= i < |rs| && IsOut(rs[i].kind) && rs[i].at <= k < rs[i].at + rs[i].size
  {
    ghost var was := mem[..];
    HonestCallerGetsAll(was, rs, seen);
    forall i | 0 <= i < |rs| ensures Contained(rs[i], seen[i]) && Honest(rs[i], seen[i]) {
    }
    forall k | 0 <= k < mem.Length
      ensures Copied(was, rs, seen, |rs|)[k] != was[k] ==>
        exists i :: 0 <= i < |rs| && IsOut(rs[i].kind) && rs[i].at <= k < rs[i].at + rs[i].size
    {
      StaysInBuffers(was, rs, seen, |rs|, k);
    }
    hide Copied, Handled, Contained, Fitting;
    ret := CopyParamsBackToRee(mem, ree, rs, seen);
    assert mem[..] == Copied(was, rs, seen, |rs|);
  }

  lemma SpliceHere(was: seq<byte>, at: nat, bytes: seq<byte>)
    requires at + |bytes| <= |was|
    ensures Splice(was, at, bytes)[at..at + |bytes|] == bytes
  {
  }

  lemma SpliceElsewhere(was: seq<byte>, at: nat, bytes: seq<byte>, from: nat, n: nat)
    requires at + |bytes| <= |was| && from + n <= |was| && (from + n <= at || at + |bytes| <= from)
    ensures Splice(was, at, bytes)[from..from + n] == was[from..from + n]
  {
  }
}
