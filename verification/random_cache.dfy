/**
  Random cache of the crypto manager: a 4096-byte block cache in front of a hardware engine.
  A byte is named by where it comes from, so that "never handed out twice" can be stated.
 */
module RandomCache {
  import opened Options

  const CACHED_RANDOM_SIZE: nat := 4096
  const ONE_BLOCK_SIZE: nat := 16
  const TOTAL_RANDOM_BLOCK: nat := 256

  /** A byte written by memset, or the byte at some position of everything the engine ever produced. */
  datatype Byte = Zero | Engine(pos: nat)

  /** The static cache and its counter, and how many bytes the engine has produced so far. */
  datatype State = State(cache: seq<Byte>, used: nat, drawn: nat)
  {
    ghost predicate Valid() { |cache| == CACHED_RANDOM_SIZE && used <= TOTAL_RANDOM_BLOCK }
  }

  /** One call of hw_generate_random_ops; `engineOk` says whether the engine would work now. */
  datatype Request = Request(size: nat, engineOk: bool)

  function Slice(p: nat, n: nat): (r: seq<Byte>)
    ensures |r| == n && forall i :: 0 <= i < n ==> r[i] == Engine(p + i)
  {
    seq(n, i requires 0 <= i < n => Engine(p + i))
  }

  function Zeros(n: nat): (r: seq<Byte>)
    ensures |r| == n && forall i :: 0 <= i < n ==> r[i] == Zero
  {
    seq(n, _ => Zero)
  }

  function Start(): State { State(Zeros(CACHED_RANDOM_SIZE), TOTAL_RANDOM_BLOCK, 0) }

  predicate NeedsRefill(s: State, size: nat) {
    s.used >= TOTAL_RANDOM_BLOCK || size > (TOTAL_RANDOM_BLOCK - s.used) * ONE_BLOCK_SIZE
  }

  predicate Cached(r: Request) { 0 < r.size < CACHED_RANDOM_SIZE }

  function Blocks(size: nat): nat {
    if size % ONE_BLOCK_SIZE == 0 then size / ONE_BLOCK_SIZE else size / ONE_BLOCK_SIZE + 1
  }

  /** Bytes leave the cache: they are copied out, zeroed, and whole blocks count as used. */
  function Take(s: State, size: nat): (State, seq<Byte>)
    requires s.Valid() && s.used * ONE_BLOCK_SIZE + size <= CACHED_RANDOM_SIZE
  {
    var at := s.used * ONE_BLOCK_SIZE;
    (State(s.cache[..at] + Zeros(size) + s.cache[at + size..], s.used + Blocks(size), s.drawn), s.cache[at..at + size])
  }

  function Refilled(s: State): State {
    State(Slice(s.drawn, CACHED_RANDOM_SIZE), 0, s.drawn + CACHED_RANDOM_SIZE)
  }

  /** hw_generate_random_ops: the new state, and the caller's bytes unless the call fails */
  function Generate(s: State, r: Request): (res: (State, Option<seq<Byte>>))
    requires s.Valid()
    ensures res.0.Valid()
  {
    if r.size == 0 then (s, None)
    else if r.size >= CACHED_RANDOM_SIZE then
      if r.engineOk then (s.(drawn := s.drawn + r.size), Some(Slice(s.drawn, r.size))) else (s, None)
    else if NeedsRefill(s, r.size) && !r.engineOk then (s.(cache := Zeros(CACHED_RANDOM_SIZE)), None)
    else
      var (s', bytes) := Take(if NeedsRefill(s, r.size) then Refilled(s) else s, r.size);
      (s', Some(bytes))
  }

  // ---- the code ----

  class RandomDriver {
    const cached: array<Byte>
    var usedBlockCount: nat
    var drawn: nat

    constructor ()
      ensures Valid() && Abstract() == Start() && fresh(cached)
    {
      cached := new Byte[CACHED_RANDOM_SIZE](_ => Zero);
      usedBlockCount := TOTAL_RANDOM_BLOCK;
      drawn := 0;
    }

    ghost predicate Valid()
      reads this, cached
    {
      cached.Length == CACHED_RANDOM_SIZE && Abstract().Valid()
    }

    ghost function Abstract(): State
      reads this, cached
    {
      State(cached[..], usedBlockCount, drawn)
    }

    /** do_generate_random: a failing engine writes nothing */
    method DoGenerateRandom(buffer: array<Byte>, engineOk: bool) returns (ok: bool)
      modifies buffer, this`drawn
      ensures ok == engineOk
      ensures buffer[..] == if ok then Slice(old(drawn), buffer.Length) else old(buffer[..])
      ensures drawn == if ok then old(drawn) + buffer.Length else old(drawn)
    {
      if !engineOk {
        return false;
      }
      forall i | 0 <= i < buffer.Length {
        buffer[i] := Engine(drawn + i);
      }
      drawn := drawn + buffer.Length;
      return true;
    }

    /** The copy at the end of generate_random_from_cached. */
    method TakeOut(buffer: array<Byte>)
      requires Valid() && buffer != cached
      requires usedBlockCount * ONE_BLOCK_SIZE + buffer.Length <= CACHED_RANDOM_SIZE
      modifies cached, buffer, this`usedBlockCount
      ensures Valid() && (Abstract(), buffer[..]) == Take(old(Abstract()), buffer.Length)
    {
      var size := buffer.Length;
      var needBlockCount := if size % ONE_BLOCK_SIZE == 0 then size / ONE_BLOCK_SIZE else size / ONE_BLOCK_SIZE + 1;
      var at := usedBlockCount * ONE_BLOCK_SIZE;
      forall i | 0 <= i < size {
        buffer[i] := cached[at + i];
      }
      ghost var was := old(cached[..]);
      assert buffer[..] == was[at..at + size];
      forall i | at <= i < at + size {
        cached[i] := Zero;
      }
      usedBlockCount := usedBlockCount + needBlockCount;
      assert cached[..] == was[..at] + Zeros(size) + was[at + size..];
      assert buffer[..] == was[at..at + size];
      assert needBlockCount == Blocks(size);
    }

    method GenerateRandomFromCached(buffer: array<Byte>, engineOk: bool) returns (ok: bool)
      requires Valid() && buffer != cached && 0 < buffer.Length < CACHED_RANDOM_SIZE
      modifies cached, buffer, this`usedBlockCount, this`drawn
      ensures Valid()
      ensures (Abstract(), if ok then Some(buffer[..]) else None)
           == Generate(old(Abstract()), Request(buffer.Length, engineOk))
    {
      ghost var s := Abstract();
      if usedBlockCount == TOTAL_RANDOM_BLOCK
         || buffer.Length > (TOTAL_RANDOM_BLOCK - usedBlockCount) * ONE_BLOCK_SIZE {
        forall i | 0 <= i < cached.Length {
          cached[i] := Zero;
        }
        assert cached[..] == Zeros(CACHED_RANDOM_SIZE);
        ok := DoGenerateRandom(cached, engineOk);
        if !ok {
          return false;
        }
        usedBlockCount := 0;
        assert Abstract() == Refilled(s);
      }
      hide Take, Refilled;
      TakeOut(buffer);
      return true;
    }

    method HwGenerateRandom(buffer: array<Byte>, engineOk: bool) returns (ok: bool)
      requires Valid() && buffer != cached
      modifies cached, buffer, this`usedBlockCount, this`drawn
      ensures Valid()
      ensures (Abstract(), if ok then Some(buffer[..]) else None)
           == Generate(old(Abstract()), Request(buffer.Length, engineOk))
      ensures buffer.Length > 0 && engineOk ==> ok
    {
      if buffer.Length == 0 {
        return false;
      }
      if buffer.Length < CACHED_RANDOM_SIZE {
        ok := GenerateRandomFromCached(buffer, engineOk);
      } else {
        ok := DoGenerateRandom(buffer, engineOk);
      }
    }
  }

  // ---- whole runs ----

  datatype Output = Output(bytes: seq<Byte>, fromCache: bool)

  function After(rs: seq<Request>): (s: State)
    ensures s.Valid()
    decreases |rs|
  {
    if rs == [] then Start() else Generate(After(rs[..|rs| - 1]), rs[|rs| - 1]).0
  }

  /** What callers got, in order. */
  function Outputs(rs: seq<Request>): seq<Output>
    decreases |rs|
  {
    if rs == [] then []
    else
      var last := rs[|rs| - 1];
      Outputs(rs[..|rs| - 1]) +
      (match Generate(After(rs[..|rs| - 1]), last).1
       case None => []
       case Some(bytes) => [Output(bytes, Cached(last))])
  }

  /** Did the last attempt to refill fail? (True at first: nothing was ever filled.) */
  predicate Stale(rs: seq<Request>)
    decreases |rs|
  {
    if rs == [] then true
    else
      var last, before := rs[|rs| - 1], rs[..|rs| - 1];
      if Cached(last) && NeedsRefill(After(before), last.size) then !last.engineOk else Stale(before)
  }

  /** An uninterrupted piece of what the engine produced. */
  ghost predicate IsSlice(o: Output) {
    |o.bytes| > 0 && o.bytes[0].Engine? && o.bytes == Slice(o.bytes[0].pos, |o.bytes|)
  }

  ghost predicate IsZeros(o: Output) { o.bytes == Zeros(|o.bytes|) }

  function First(o: Output): nat
    requires IsSlice(o)
  {
    o.bytes[0].pos
  }

  function Beyond(o: Output): nat
    requires IsSlice(o)
  {
    o.bytes[0].pos + |o.bytes|
  }

  /** The cache holds what is left of the engine's bytes base .. base + 4096. */
  ghost predicate Filled(s: State, base: nat)
    requires s.Valid()
  {
    && base + CACHED_RANDOM_SIZE <= s.drawn
    && (forall j :: s.used * ONE_BLOCK_SIZE <= j < CACHED_RANDOM_SIZE ==> s.cache[j] == Engine(base + j))
  }

  /** Where an output may come from, given what the cache holds. */
  ghost predicate Placed(s: State, base: nat, stale: bool, o: Output) {
    IsSlice(o) ==>
      && Beyond(o) <= s.drawn
      && (!stale && o.fromCache ==> Beyond(o) <= base + s.used * ONE_BLOCK_SIZE)
      && (!stale && !o.fromCache ==> Beyond(o) <= base || base + CACHED_RANDOM_SIZE <= First(o))
  }

  /** Two outputs share no engine byte, and outputs from the cache come in engine order. */
  ghost predicate Apart(a: Output, b: Output) {
    IsSlice(a) && IsSlice(b) ==>
      && (Beyond(a) <= First(b) || Beyond(b) <= First(a))
      && (a.fromCache && b.fromCache ==> Beyond(a) <= First(b))
  }

  ghost predicate CacheIs(s: State, base: nat, stale: bool)
    requires s.Valid()
  {
    if stale then s.cache == Zeros(CACHED_RANDOM_SIZE) else Filled(s, base)
  }

  ghost predicate AllPlaced(s: State, base: nat, stale: bool, outs: seq<Output>) {
    forall i :: 0 <= i < |outs| ==> (IsSlice(outs[i]) || IsZeros(outs[i])) && Placed(s, base, stale, outs[i])
  }

  ghost predicate AllApart(outs: seq<Output>) {
    forall i, j :: 0 <= i < j < |outs| ==> Apart(outs[i], outs[j])
  }

  /** A new output that lies behind everything handed out before is apart from all of it. */
  lemma ApartSnoc(outs: seq<Output>, o: Output)
    requires AllApart(outs) && forall i :: 0 <= i < |outs| ==> Apart(outs[i], o)
    ensures AllApart(outs + [o])
  {
  }

  /** One call from a state where the cache holds base .. base + 4096, or zeros. */
  lemma CallKeeps(s: State, r: Request, base: nat, stale: bool, outs: seq<Output>) returns (base': nat)
    requires s.Valid() && CacheIs(s, base, stale) && AllPlaced(s, base, stale, outs) && AllApart(outs)
    ensures var (s', bytes) := Generate(s, r);
      var stale' := if Cached(r) && NeedsRefill(s, r.size) then !r.engineOk else stale;
      var outs' := outs + (if bytes.Some? then [Output(bytes.value, Cached(r))] else []);
      && CacheIs(s', base', stale') && AllPlaced(s', base', stale', outs') && AllApart(outs')
      && (bytes.Some? ==> if Cached(r) && stale' then IsZeros(Output(bytes.value, true))
                          else IsSlice(Output(bytes.value, Cached(r))))
  {
    var refill := Cached(r) && NeedsRefill(s, r.size);
    base' := if refill then s.drawn else base;
    if !Cached(r) {
      DirectKeeps(s, r, base, stale, outs);
    } else if refill && !r.engineOk {
    } else {
      var t := if refill then Refilled(s) else s;
      assert AllPlaced(t, base', if refill then false else stale, outs);
      TakeKeeps(t, r.size, base', if refill then false else stale, outs);
    }
  }

  lemma DirectKeeps(s: State, r: Request, base: nat, stale: bool, outs: seq<Output>)
    requires s.Valid() && CacheIs(s, base, stale) && AllPlaced(s, base, stale, outs) && AllApart(outs) && !Cached(r)
    ensures var (s', bytes) := Generate(s, r);
      var outs' := outs + (if bytes.Some? then [Output(bytes.value, false)] else []);
      && CacheIs(s', base, stale) && AllPlaced(s', base, stale, outs') && AllApart(outs')
      && (bytes.Some? ==> IsSlice(Output(bytes.value, false)))
  {
    var (s', bytes) := Generate(s, r);
    if bytes.Some? {
      var o := Output(bytes.value, false);
      assert IsSlice(o) && First(o) == s.drawn;
      ApartSnoc(outs, o);
    }
  }

  lemma TakeKeeps(s: State, size: nat, base: nat, stale: bool, outs: seq<Output>)
    requires s.Valid() && CacheIs(s, base, stale) && AllPlaced(s, base, stale, outs) && AllApart(outs)
    requires 0 < size && !NeedsRefill(s, size)
    ensures var (s', bytes) := Take(s, size);
      var o := Output(bytes, true);
      && s'.Valid() && CacheIs(s', base, stale) && AllPlaced(s', base, stale, outs + [o]) && AllApart(outs + [o])
      && (if stale then IsZeros(o) else IsSlice(o))
  {
    var (s', bytes) := Take(s, size);
    var o := Output(bytes, true);
    var at := s.used * ONE_BLOCK_SIZE;
    if stale {
      assert s'.cache == Zeros(CACHED_RANDOM_SIZE) && o.bytes == Zeros(size);
      assert !IsSlice(o);
    } else {
      assert o.bytes[0] == Engine(base + at) && o.bytes == Slice(base + at, size);
    }
    ApartSnoc(outs, o);
  }

  lemma {:induction false} RunKeeps(rs: seq<Request>) returns (base: nat)
    ensures CacheIs(After(rs), base, Stale(rs))
    ensures AllPlaced(After(rs), base, Stale(rs), Outputs(rs)) && AllApart(Outputs(rs))
    decreases |rs|
  {
    if rs == [] {
      base := 0;
    } else {
      var before := RunKeeps(rs[..|rs| - 1]);
      base := CallKeeps(After(rs[..|rs| - 1]), rs[|rs| - 1], before, Stale(rs[..|rs| - 1]), Outputs(rs[..|rs| - 1]));
    }
  }

  // ---- what the cache promises ----

  /** No engine byte is handed out twice, in any run, failing refills included. */
  lemma NeverTwice(rs: seq<Request>, i: nat, a: nat, j: nat, b: nat)
    requires i < |Outputs(rs)| && a < |Outputs(rs)[i].bytes| && j < |Outputs(rs)| && b < |Outputs(rs)[j].bytes|
    requires (i, a) != (j, b) && Outputs(rs)[i].bytes[a].Engine?
    ensures Outputs(rs)[i].bytes[a] != Outputs(rs)[j].bytes[b]
  {
    var outs := Outputs(rs);
    var base := RunKeeps(rs);
    assert IsSlice(outs[i]) && (IsSlice(outs[j]) || IsZeros(outs[j]));
    if i < j {
      assert Apart(outs[i], outs[j]);
    } else if j < i {
      assert Apart(outs[j], outs[i]);
    }
  }

  /**
    A request fails only if it is empty or needs an engine that does not work; it gets as many bytes
    as it asked for. The engine is needed for a large request, and for a small one iff the whole
    blocks left in the cache are too few.
   */
  lemma SucceedsIff(rs: seq<Request>, r: Request)
    ensures var left := CACHED_RANDOM_SIZE - 16 * After(rs).used;
      Generate(After(rs), r).1.Some? <==> r.size > 0 && (r.engineOk || (r.size <= left && r.size < CACHED_RANDOM_SIZE))
    ensures Generate(After(rs), r).1.Some? ==> |Generate(After(rs), r).1.value| == r.size
  {
  }

  /** The engine is drawn on only when it is needed: for all of a large request, and for a full cache otherwise. */
  lemma DrawsOnlyIfNeeded(rs: seq<Request>, r: Request)
    ensures var s, s' := After(rs), Generate(After(rs), r).0;
      var left := CACHED_RANDOM_SIZE - 16 * s.used;
      s'.drawn - s.drawn ==
        if r.size == 0 || !r.engineOk then 0
        else if r.size >= CACHED_RANDOM_SIZE then r.size
        else if r.size <= left then 0 else CACHED_RANDOM_SIZE
  {
  }

  // ---- and what it no longer holds ----

  /** Nothing here is newer than what the engine has produced. */
  ghost predicate Older(bytes: seq<Byte>, drawn: nat) {
    forall k :: 0 <= k < |bytes| && bytes[k].Engine? ==> bytes[k].pos < drawn
  }

  /** No two places hold the same engine byte. */
  ghost predicate Unique(bytes: seq<Byte>) {
    forall j, k :: 0 <= j < k < |bytes| && bytes[j].Engine? ==> bytes[j] != bytes[k]
  }

  /** No engine byte of the output is anywhere in the cache. */
  ghost predicate Gone(cache: seq<Byte>, bytes: seq<Byte>) {
    forall a, k :: 0 <= a < |bytes| && 0 <= k < |cache| && bytes[a].Engine? ==> cache[k] != bytes[a]
  }

  ghost predicate AllGone(s: State, outs: seq<Output>) {
    && Older(s.cache, s.drawn) && Unique(s.cache)
    && forall i :: 0 <= i < |outs| ==> Older(outs[i].bytes, s.drawn) && Gone(s.cache, outs[i].bytes)
  }

  lemma RefillGone(s: State, outs: seq<Output>)
    requires AllGone(s, outs)
    ensures AllGone(Refilled(s), outs)
  {
  }

  /** Taking bytes out zeroes them, and they were nowhere else. */
  lemma TakeGone(s: State, size: nat, outs: seq<Output>)
    requires s.Valid() && s.used * ONE_BLOCK_SIZE + size <= CACHED_RANDOM_SIZE && AllGone(s, outs)
    ensures var (s', bytes) := Take(s, size);
      AllGone(s', outs + [Output(bytes, true)])
  {
    var (s', bytes) := Take(s, size);
    var at := s.used * ONE_BLOCK_SIZE;
    assert forall k :: 0 <= k < CACHED_RANDOM_SIZE ==> s'.cache[k] == if at <= k < at + size then Zero else s.cache[k];
    assert forall a :: 0 <= a < size ==> bytes[a] == s.cache[at + a];
    hide Take;
    assert Gone(s'.cache, bytes);
  }

  lemma CallGone(s: State, r: Request, outs: seq<Output>)
    requires s.Valid() && AllGone(s, outs)
    ensures var (s', bytes) := Generate(s, r);
      AllGone(s', outs + (if bytes.Some? then [Output(bytes.value, Cached(r))] else []))
  {
    if Cached(r) && (NeedsRefill(s, r.size) ==> r.engineOk) {
      RefillGone(s, outs);
      TakeGone(if NeedsRefill(s, r.size) then Refilled(s) else s, r.size, outs);
    }
  }

  lemma {:induction false} RunGone(rs: seq<Request>)
    ensures AllGone(After(rs), Outputs(rs))
    decreases |rs|
  {
    if rs != [] {
      var before := rs[..|rs| - 1];
      RunGone(before);
      hide AllGone, Generate;
      CallGone(After(before), rs[|rs| - 1], Outputs(before));
    }
  }

  /** What was handed out is nowhere in the cache any more, in any run. */
  lemma HandedOutIsGone(rs: seq<Request>, i: nat, a: nat, k: nat)
    requires i < |Outputs(rs)| && a < |Outputs(rs)[i].bytes| && Outputs(rs)[i].bytes[a].Engine?
    requires k < CACHED_RANDOM_SIZE
    ensures After(rs).cache[k] != Outputs(rs)[i].bytes[a]
  {
    RunGone(rs);
  }

  /** Outputs served from the cache are slices of the engine's stream, in stream order. */
  lemma InOrder(rs: seq<Request>, i: nat, j: nat)
    requires i < j < |Outputs(rs)| && Outputs(rs)[i].fromCache && Outputs(rs)[j].fromCache
    requires !IsZeros(Outputs(rs)[i]) && !IsZeros(Outputs(rs)[j])
    ensures IsSlice(Outputs(rs)[i]) && IsSlice(Outputs(rs)[j]) && Beyond(Outputs(rs)[i]) <= First(Outputs(rs)[j])
  {
    var base := RunKeeps(rs);
    assert Apart(Outputs(rs)[i], Outputs(rs)[j]);
  }

  /**
    Exactly when a successful hw_generate_random_ops returns engine bytes: not when it is served
    without a refill after the last refill failed.
   */
  lemma EngineBytesIff(rs: seq<Request>, r: Request)
    requires Generate(After(rs), r).1.Some?
    ensures var bytes := Generate(After(rs), r).1.value;
      && (IsSlice(Output(bytes, Cached(r))) <==> !(Cached(r) && Stale(rs) && !NeedsRefill(After(rs), r.size)))
      && (IsSlice(Output(bytes, Cached(r))) || bytes == Zeros(r.size))
  {
    var base := RunKeeps(rs);
    var base' := CallKeeps(After(rs), r, base, Stale(rs), Outputs(rs));
  }

  ghost predicate RefillsSucceed(rs: seq<Request>) {
    forall k :: 0 <= k < |rs| && Cached(rs[k]) && NeedsRefill(After(rs[..k]), rs[k].size) ==> rs[k].engineOk
  }

  lemma RefillsSucceedBefore(rs: seq<Request>)
    requires RefillsSucceed(rs) && rs != []
    ensures RefillsSucceed(rs[..|rs| - 1])
  {
    var before := rs[..|rs| - 1];
    assert forall k :: 0 <= k < |before| ==> before[..k] == rs[..k] && before[k] == rs[k];
  }

  /** A run in which no refill fails hands out engine bytes only. */
  lemma {:induction false} AllFromEngine(rs: seq<Request>, i: nat)
    requires RefillsSucceed(rs)
    requires i < |Outputs(rs)|
    ensures IsSlice(Outputs(rs)[i])
    decreases |rs|
  {
    var before := rs[..|rs| - 1];
    RefillsSucceedBefore(rs);
    if i < |Outputs(before)| {
      AllFromEngine(before, i);
    } else {
      EngineBytesIff(before, rs[|rs| - 1]);
      if Cached(rs[|rs| - 1]) && !NeedsRefill(After(before), rs[|rs| - 1].size) {
        NotStale(before);
      }
    }
  }

  lemma {:induction false} NotStale(rs: seq<Request>)
    requires RefillsSucceed(rs)
    ensures Stale(rs) ==> After(rs).used == TOTAL_RANDOM_BLOCK
    decreases |rs|
  {
    if rs != [] {
      RefillsSucceedBefore(rs);
      NotStale(rs[..|rs| - 1]);
    }
  }

  /** The other case does occur: a refill fails with blocks left, and a smaller request follows. */
  lemma ZerosHappen() returns (rs: seq<Request>, r: Request)
    ensures Generate(After(rs), r).1 == Some(Zeros(r.size)) && r.size > 0
  {
    var r1, r2 := Request(16, true), Request(4090, false);
    rs, r := [r1, r2], Request(16, true);
    assert [r1, r2][..1] == [r1] && [r1][..0] == [];
    assert After([]) == Start() && After([r1]).used == 1;
    assert NeedsRefill(After([r1]), 4090);
    assert After(rs).used == 1 && After(rs).cache == Zeros(CACHED_RANDOM_SIZE);
    assert Generate(After(rs), r).1.value == Zeros(16);
  }
}
