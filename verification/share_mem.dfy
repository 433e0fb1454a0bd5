/**
  Crypto driver share memory (drivers/crypto_mgr and its client in libcrypto_hal): buffers made of
  length-prefixed segments, parsed in place, shrunk by a crypto engine and compacted in place.
 */
module ShareMem {

  import opened Bytes
  import opened Options

  const SHARE_MEMORY_MAX_SIZE: nat := 10 * 1024 * 1024
  const CRYPTO_PARAM_COUNT_MAX: nat := 5

  /** What a call returns, or that it reads memory outside the buffer it was given. */
  datatype Status = CryptoSuccess | CryptoBadParameters | CryptoOverflow | OutOfBounds

  /** What check_share_mem_size returns, or that it reads outside the buffer. */
  datatype Verdict = Accepted | Rejected | ReadsOutside

  // ---- the layout both programs agree on ----

  ghost predicate Small(segs: seq<seq<byte>>) { forall i :: 0 <= i < |segs| ==> |segs[i]| < UINT32_LIMIT }

  /** Each segment as its length in four bytes, then its bytes. */
  function Encode(segs: seq<seq<byte>>): (buf: seq<byte>)
    requires Small(segs)
  {
    if segs == [] then [] else ToLe(|segs[0]|) + segs[0] + Encode(segs[1..])
  }

  /** The n segments that tile the buffer completely, if there are such. */
  function Parse(buf: seq<byte>, n: nat): (r: Option<seq<seq<byte>>>)
    ensures r.Some? ==> |r.value| == n
  {
    if n == 0 then (if buf == [] then Some([]) else None)
    else if |buf| < 4 || |buf| - 4 < Le(buf[..4]) then None
    else
      var size := Le(buf[..4]);
      match Parse(buf[4 + size..], n - 1)
      case None => None
      case Some(rest) => Some([buf[4..4 + size]] + rest)
  }

  lemma {:induction false} ParseOfEncode(segs: seq<seq<byte>>)
    requires Small(segs)
    ensures Parse(Encode(segs), |segs|) == Some(segs)
  {
    if segs != [] {
      var buf := Encode(segs);
      var size := |segs[0]|;
      assert buf[..4] == ToLe(size);
      assert buf[4..4 + size] == segs[0];
      assert buf[4 + size..] == Encode(segs[1..]);
      ParseOfEncode(segs[1..]);
      assert segs == [segs[0]] + segs[1..];
    }
  }

  lemma EncodeCons(seg: seq<byte>, segs: seq<seq<byte>>)
    requires Small(segs) && |seg| < UINT32_LIMIT
    ensures Small([seg] + segs) && Encode([seg] + segs) == ToLe(|seg|) + seg + Encode(segs)
  {
    assert ([seg] + segs)[1..] == segs;
  }

  lemma {:induction false} EncodeOfParse(buf: seq<byte>, n: nat)
    requires Parse(buf, n).Some?
    ensures Small(Parse(buf, n).value) && Encode(Parse(buf, n).value) == buf
  {
    if n > 0 {
      var size := Le(buf[..4]);
      LeInjective(buf[..4]);
      hide Le, ToLe;
      var rest := Parse(buf[4 + size..], n - 1).value;
      assert Parse(buf, n).value == [buf[4..4 + size]] + rest;
      EncodeOfParse(buf[4 + size..], n - 1);
      hide Parse;
      EncodeCons(buf[4..4 + size], rest);
      assert buf == buf[..4] + buf[4..4 + size] + buf[4 + size..];
    }
  }

  /** A buffer is accepted exactly when it is some encoding, and then only one. */
  lemma TilesIff(buf: seq<byte>, n: nat)
    ensures Parse(buf, n).Some? <==> exists segs :: |segs| == n && Small(segs) && Encode(segs) == buf
    ensures forall segs :: |segs| == n && Small(segs) && Encode(segs) == buf ==> Parse(buf, n) == Some(segs)
  {
    if Parse(buf, n).Some? {
      EncodeOfParse(buf, n);
    }
    forall segs | |segs| == n && Small(segs) && Encode(segs) == buf
      ensures Parse(buf, n) == Some(segs)
    {
      ParseOfEncode(segs);
    }
  }

  lemma {:induction false} EncodeSnoc(segs: seq<seq<byte>>, last: seq<byte>)
    requires Small(segs) && |last| < UINT32_LIMIT
    ensures Small(segs + [last]) && Encode(segs + [last]) == Encode(segs) + ToLe(|last|) + last
  {
    if segs == [] {
      assert segs + [last] == [last] && [last][1..] == [];
    } else {
      assert (segs + [last])[1..] == segs[1..] + [last];
      EncodeSnoc(segs[1..], last);
    }
  }

  /** Where segment i starts (its length field) when the segments have these sizes. */
  function Start(sizes: seq<nat>, i: nat): nat
    requires i <= |sizes|
  {
    if i == 0 then 0 else Start(sizes, i - 1) + 4 + sizes[i - 1]
  }

  function Sizes(segs: seq<seq<byte>>): (r: seq<nat>)
    ensures |r| == |segs| && forall i :: 0 <= i < |r| ==> r[i] == |segs[i]|
  {
    seq(|segs|, i requires 0 <= i < |segs| => |segs[i]|)
  }

  lemma {:induction false} StartMonotone(sizes: seq<nat>, i: nat, j: nat)
    requires i <= j <= |sizes|
    ensures Start(sizes, i) <= Start(sizes, j)
    ensures i < j ==> Start(sizes, i) + 4 + sizes[i] <= Start(sizes, j)
  {
    if i < j {
      StartMonotone(sizes, i, j - 1);
    }
  }

  lemma SplitOff(buf: seq<byte>, at: nat, head: seq<byte>, tail: seq<byte>)
    requires at <= |buf| && buf[at..] == head + tail
    ensures at + |head| <= |buf| && buf[..at + |head|] == buf[..at] + head && buf[at + |head|..] == tail
  {
    assert buf == buf[..at] + (head + tail);
  }

  /** Segment i of an encoding lies where Start says. */
  lemma {:induction false} EncodeAt(segs: seq<seq<byte>>, i: nat)
    requires Small(segs) && i <= |segs|
    ensures Start(Sizes(segs), i) <= |Encode(segs)|
    ensures Encode(segs[..i]) == Encode(segs)[..Start(Sizes(segs), i)]
    ensures Encode(segs[i..]) == Encode(segs)[Start(Sizes(segs), i)..]
  {
    hide Le, ToLe, Sizes;
    if i == 0 {
      assert segs[..0] == [] && segs[0..] == segs;
    } else {
      EncodeAt(segs, i - 1);
      var at := Start(Sizes(segs), i - 1);
      var tail := segs[i - 1..];
      assert segs[..i] == segs[..i - 1] + [segs[i - 1]];
      EncodeSnoc(segs[..i - 1], segs[i - 1]);
      assert tail[1..] == segs[i..];
      var head := ToLe(|segs[i - 1]|) + segs[i - 1];
      assert Encode(tail) == head + Encode(segs[i..]);
      assert Encode(segs[..i]) == Encode(segs[..i - 1]) + head;
      hide Encode, Start;
      SplitOff(Encode(segs), at, head, Encode(segs[i..]));
    }
  }

  // ---- the driver's side ----

  /** A memref_t; the buffer field is an offset into the share memory, 0 for NULL. */
  datatype Memref = Memref(buffer: nat, size: nat)

  function RefAt(sizes: seq<nat>, i: nat): Memref
    requires i < |sizes|
  {
    Memref(if sizes[i] == 0 then 0 else Start(sizes, i) + 4, sizes[i])
  }

  /** The references that parsing a buffer with segments of these sizes yields. */
  ghost predicate PointInto(refs: seq<Memref>, sizes: seq<nat>) {
    |refs| == |sizes| && forall i :: 0 <= i < |refs| ==> refs[i] == RefAt(sizes, i)
  }

  /** How many bytes the first k segments take, if each of them lies inside the buffer. */
  function Consumed(buf: seq<byte>, k: nat): (r: Option<nat>)
    ensures r.Some? ==> r.value <= |buf|
  {
    if k == 0 then Some(0)
    else
      match Consumed(buf, k - 1)
      case None => None
      case Some(at) =>
        if at + 4 <= |buf| && at + 4 + Le(buf[at..at + 4]) <= |buf| then Some(at + 4 + Le(buf[at..at + 4])) else None
  }

  /** The first k segments fit, and the length field behind them is not all in the memory. */
  ghost predicate Overruns(mem: seq<byte>, bufLen: nat, k: nat)
    requires bufLen <= |mem|
  {
    Consumed(mem[..bufLen], k).Some? && Consumed(mem[..bufLen], k).value + 4 > |mem|
  }

  /** One of the n length fields that the check goes on to read is not all in the memory. */
  ghost predicate Overreads(mem: seq<byte>, bufLen: nat, n: nat)
    requires bufLen <= |mem|
  {
    exists k: nat :: k < n && Overruns(mem, bufLen, k)
  }

  lemma {:induction false} NoneStays(buf: seq<byte>, j: nat, k: nat)
    requires j <= k && Consumed(buf, j).None?
    ensures Consumed(buf, k).None?
  {
    if j < k {
      NoneStays(buf, j, k - 1);
    }
  }

  /** Once a segment does not fit nothing further is read. */
  lemma RejectedReadsInside(mem: seq<byte>, bufLen: nat, j: nat, n: nat)
    requires bufLen <= |mem| && Consumed(mem[..bufLen], j).None?
    requires forall k: nat :: k < j ==> !Overruns(mem, bufLen, k)
    ensures !Overreads(mem, bufLen, n)
  {
    forall k: nat | k >= j ensures !Overruns(mem, bufLen, k) {
      NoneStays(mem[..bufLen], j, k);
    }
  }

  /** Four bytes behind the buffer are enough, whatever they hold: the verdict is then one on the buffer alone. */
  lemma EnoughBehind(mem: seq<byte>, bufLen: nat, n: nat)
    requires bufLen + 4 <= |mem|
    ensures !Overreads(mem, bufLen, n)
  {
  }

  /** In an exact buffer it takes a segment too many, or a truncated length field at the end. */
  lemma OverreadsExactBuffer(buf: seq<byte>, n: nat)
    ensures Overreads(buf, |buf|, n) <==>
      exists k: nat :: k < n && Consumed(buf, k).Some? && |buf| - Consumed(buf, k).value < 4
  {
    assert buf[..|buf|] == buf;
    if Overreads(buf, |buf|, n) {
      var k: nat :| k < n && Overruns(buf, |buf|, k);
      assert Consumed(buf, k).Some? && |buf| - Consumed(buf, k).value < 4;
    }
    if k: nat :| k < n && Consumed(buf, k).Some? && |buf| - Consumed(buf, k).value < 4 {
      assert Overruns(buf, |buf|, k);
    }
  }

  /** Two segments announced, one of two bytes sent: the second length is read behind the buffer. */
  lemma OverreadHappens(x: byte, y: byte)
    ensures Overreads([2, 0, 0, 0, x, y], 6, 2) && Parse([2, 0, 0, 0, x, y], 2).None?
  {
    var buf: seq<byte> := [2, 0, 0, 0, x, y];
    assert buf[..6] == buf && buf[0..4] == buf[..4] == [2, 0, 0, 0];
    assert Consumed(buf, 0) == Some(0);
    assert Consumed(buf, 1) == Some(6);
    assert Overruns(buf, 6, 1);
    assert buf[6..] == [];
  }

  /**
    check_share_mem_size over any memory that holds the buffer, the one it was allocated for or a
    longer one: accepted are exactly the buffers that the segments tile, and the check leaves the
    memory exactly when a length field it gets to does.
   */
  method CheckShareMemSize(mem: array<byte>, totalNums: nat, bufLen: nat) returns (r: Verdict)
    requires bufLen <= SHARE_MEMORY_MAX_SIZE && bufLen <= mem.Length
    ensures r.Accepted? <==> Parse(mem[..bufLen], totalNums).Some?
    ensures r.ReadsOutside? <==> Overreads(mem[..], bufLen, totalNums)
  {
    var shareMemSize: nat, cursor: nat := 0, 0;
    ghost var all := mem[..];
    assert all[..bufLen] == mem[..bufLen];
    CheckStarts(all, bufLen, totalNums);
    hide Le, Add32, Parse, Checking, Overreads;
    for i := 0 to totalNums
      invariant shareMemSize == cursor <= bufLen && Checking(all, bufLen, totalNums, i, cursor)
    {
      if cursor + 4 > mem.Length {
        CheckLeaves(all, bufLen, totalNums, i, cursor);
        return ReadsOutside;
      }
      var tempSize := Le(mem[cursor..cursor + 4]);
      CheckStep(all, bufLen, totalNums, i, cursor, tempSize);
      if tempSize > bufLen {
        return Rejected;
      }
      shareMemSize := Add32(shareMemSize, 4 + tempSize);
      cursor := cursor + 4 + tempSize;
      if shareMemSize > bufLen {
        return Rejected;
      }
    }
    CheckEnds(all, bufLen, totalNums, cursor);
    return if shareMemSize == bufLen then Accepted else Rejected;
  }

  /** The first i of n segments fit and end at the cursor; the rest of the buffer decides. */
  ghost predicate Checking(mem: seq<byte>, bufLen: nat, n: nat, i: nat, cursor: nat) {
    && cursor <= bufLen <= |mem| && i <= n && Consumed(mem[..bufLen], i) == Some(cursor)
    && (forall k: nat :: k < i ==> !Overruns(mem, bufLen, k))
    && (Parse(mem[..bufLen], n).Some? <==> Parse(mem[cursor..bufLen], n - i).Some?)
  }

  lemma CheckStarts(mem: seq<byte>, bufLen: nat, n: nat)
    requires bufLen <= |mem|
    ensures Checking(mem, bufLen, n, 0, 0)
  {
    assert mem[0..bufLen] == mem[..bufLen];
  }

  lemma CheckLeaves(mem: seq<byte>, bufLen: nat, n: nat, i: nat, cursor: nat)
    requires Checking(mem, bufLen, n, i, cursor) && i < n && cursor + 4 > |mem|
    ensures Overreads(mem, bufLen, n) && Parse(mem[..bufLen], n).None?
  {
    assert Overruns(mem, bufLen, i);
  }

  lemma CheckEnds(mem: seq<byte>, bufLen: nat, n: nat, cursor: nat)
    requires Checking(mem, bufLen, n, n, cursor)
    ensures !Overreads(mem, bufLen, n) && (Parse(mem[..bufLen], n).Some? <==> cursor == bufLen)
  {
  }

  /** One segment on: the check and the parse agree on it. */
  lemma CheckStep(mem: seq<byte>, bufLen: nat, n: nat, i: nat, cursor: nat, size: nat)
    requires Checking(mem, bufLen, n, i, cursor) && i < n && cursor + 4 <= |mem| && size == Le(mem[cursor..cursor + 4])
    ensures var next := cursor + 4 + size;
      if next <= bufLen then Checking(mem, bufLen, n, i + 1, next)
      else !Overreads(mem, bufLen, n) && Parse(mem[..bufLen], n).None?
  {
    hide Le;
    var buf, rest := mem[..bufLen], mem[cursor..bufLen];
    var next := cursor + 4 + size;
    if cursor + 4 <= bufLen {
      assert buf[cursor..cursor + 4] == mem[cursor..cursor + 4];
      assert rest[..4] == mem[cursor..cursor + 4];
    }
    if next <= bufLen {
      assert rest[next - cursor..] == mem[next..bufLen];
    } else {
      RejectedReadsInside(mem, bufLen, i + 1, n);
    }
  }

  /** copy_from_shared_buf: a NULL pointer for an empty segment */
  method CopyFromSharedBuf(mem: array<byte>, cursor: nat, bufLen: nat, ghost segs: seq<seq<byte>>, ghost i: nat)
    returns (ref: Memref, next: nat)
    requires bufLen <= mem.Length && Small(segs) && Encode(segs) == mem[..bufLen]
    requires i < |segs| && cursor == Start(Sizes(segs), i)
    ensures ref == RefAt(Sizes(segs), i) && next == Start(Sizes(segs), i + 1)
  {
    SizeAt(mem[..bufLen], segs, i);
    hide Encode, Start, Small, Le;
    assert mem[..bufLen][cursor..cursor + 4] == mem[cursor..cursor + 4];
    var size := Le(mem[cursor..cursor + 4]);
    next := cursor + 4;
    ref := Memref(if size == 0 then 0 else next, size);
    next := next + size;
  }

  /** get_share_mem: the check, then a reference for each segment */
  method GetShareMem(mem: array<byte>, totalNums: nat, bufLen: nat) returns (status: Status, refs: seq<Memref>)
    requires bufLen <= SHARE_MEMORY_MAX_SIZE && bufLen <= mem.Length
    ensures status.CryptoSuccess? <==> Parse(mem[..bufLen], totalNums).Some?
    ensures status.OutOfBounds? <==> Overreads(mem[..], bufLen, totalNums)
    ensures !status.CryptoOverflow?
    ensures status.CryptoSuccess? ==> PointInto(refs, Sizes(Parse(mem[..bufLen], totalNums).value))
  {
    var check := CheckShareMemSize(mem, totalNums, bufLen);
    if check != Accepted {
      return if check.Rejected? then CryptoBadParameters else OutOfBounds, [];
    }
    ghost var segs := Parse(mem[..bufLen], totalNums).value;
    ghost var sizes := Sizes(segs);
    EncodeOfParse(mem[..bufLen], totalNums);
    var cursor := 0;
    refs := [];
    assert Start(sizes, 0) == 0 && PointsSoFar(refs, sizes);
    hide Le, Sizes, Parse, Encode, Start, Small, PointsSoFar;
    for i := 0 to totalNums
      invariant cursor == Start(sizes, i) && |refs| == i && PointsSoFar(refs, sizes)
    {
      PointsSnoc(refs, sizes);
      var ref;
      ref, cursor := CopyFromSharedBuf(mem, cursor, bufLen, segs, i);
      refs := refs + [ref];
    }
    PointsAll(refs, sizes);
    status := CryptoSuccess;
  }

  ghost predicate PointsSoFar(refs: seq<Memref>, sizes: seq<nat>) {
    |refs| <= |sizes| && forall i :: 0 <= i < |refs| ==> refs[i] == RefAt(sizes, i)
  }

  lemma PointsSnoc(refs: seq<Memref>, sizes: seq<nat>)
    requires PointsSoFar(refs, sizes) && |refs| < |sizes|
    ensures PointsSoFar(refs + [RefAt(sizes, |refs|)], sizes)
  {
  }

  lemma PointsAll(refs: seq<Memref>, sizes: seq<nat>)
    requires PointsSoFar(refs, sizes) && |refs| == |sizes|
    ensures PointInto(refs, sizes)
  {
  }

  lemma Slices(buf: seq<byte>, at: nat, a: seq<byte>, b: seq<byte>)
    requires at + |a| + |b| <= |buf| && buf[..at + |a|] == buf[..at] + a
    requires buf[..at + |a| + |b|] == buf[..at + |a|] + b
    ensures buf[at..at + |a|] == a && buf[at + |a|..at + |a| + |b|] == b
  {
    assert buf[at..at + |a|] == buf[..at + |a|][at..];
    assert buf[at + |a|..at + |a| + |b|] == buf[..at + |a| + |b|][at + |a|..];
  }

  /** The length field of segment i, and its bytes. */
  lemma SizeAt(buf: seq<byte>, segs: seq<seq<byte>>, i: nat)
    requires Small(segs) && Encode(segs) == buf && i < |segs|
    ensures var at := Start(Sizes(segs), i);
      && at + 4 + |segs[i]| <= |buf|
      && Start(Sizes(segs), i + 1) == at + 4 + |segs[i]|
      && Le(buf[at..at + 4]) == |segs[i]|
      && buf[at + 4..at + 4 + |segs[i]|] == segs[i]
  {
    hide Le, ToLe, Sizes;
    var at := Start(Sizes(segs), i);
    EncodeAt(segs, i);
    var length := ToLe(|segs[i]|);
    var tail := Encode(segs[i..][1..]);
    assert Start(Sizes(segs), i + 1) == at + 4 + |segs[i]|;
    assert buf[at..] == length + segs[i] + tail;
    hide Encode, Start, Small;
    assert length + segs[i] + tail == length + (segs[i] + tail);
    SplitOff(buf, at, length, segs[i] + tail);
    SplitOff(buf, at + 4, segs[i], tail);
    Slices(buf, at, length, segs[i]);
  }

  /** The reference has the segment's size and points at its bytes, or nowhere for an empty one. */
  predicate RefersTo(ref: Memref, buf: seq<byte>, seg: seq<byte>) {
    && ref.size == |seg|
    && (if seg == [] then ref.buffer == 0
        else ref.buffer + ref.size <= |buf| && buf[ref.buffer..ref.buffer + ref.size] == seg)
  }

  /** The engine sees every segment as it was sent. */
  lemma RefersToSegments(buf: seq<byte>, n: nat, refs: seq<Memref>)
    requires Parse(buf, n).Some? && PointInto(refs, Sizes(Parse(buf, n).value))
    ensures |refs| == n && forall i :: 0 <= i < n ==> RefersTo(refs[i], buf, Parse(buf, n).value[i])
  {
    var segs := Parse(buf, n).value;
    EncodeOfParse(buf, n);
    hide Parse, Encode, Small, Start, Sizes, RefersTo, RefAt;
    forall i | 0 <= i < n ensures RefersTo(refs[i], buf, segs[i]) {
      RefersToOne(buf, segs, i);
    }
  }

  lemma RefersToOne(buf: seq<byte>, segs: seq<seq<byte>>, i: nat)
    requires Small(segs) && Encode(segs) == buf && i < |segs|
    ensures RefersTo(RefAt(Sizes(segs), i), buf, segs[i])
  {
    hide Encode, Small, Start, Le;
    SizeAt(buf, segs, i);
  }

  /** prepare_hard_engine_params, with an allocation that succeeds */
  method PrepareHardEngineParams(mem: array<byte>, totalNums: nat, bufLen: nat)
    returns (status: Status, refs: seq<Memref>)
    requires 1 <= bufLen <= SHARE_MEMORY_MAX_SIZE ==> bufLen <= mem.Length
    ensures status.CryptoOverflow? <==> !(1 <= bufLen <= SHARE_MEMORY_MAX_SIZE)
    ensures status.CryptoSuccess? <==>
      1 <= bufLen <= 10485760 && 1 <= totalNums <= 5 && Parse(mem[..bufLen], totalNums).Some?
    ensures status.OutOfBounds? <==>
      1 <= bufLen <= 10485760 && 1 <= totalNums <= 5 && Overreads(mem[..], bufLen, totalNums)
    ensures status.CryptoSuccess? ==> PointInto(refs, Sizes(Parse(mem[..bufLen], totalNums).value))
  {
    if bufLen == 0 || bufLen > SHARE_MEMORY_MAX_SIZE {
      return CryptoOverflow, [];
    }
    if totalNums == 0 || totalNums > CRYPTO_PARAM_COUNT_MAX {
      return CryptoBadParameters, [];
    }
    status, refs := GetShareMem(mem, totalNums, bufLen);
  }

  function Output(mem: seq<byte>, ref: Memref): (r: seq<byte>)
    requires ref.buffer + ref.size <= |mem|
    ensures |r| == ref.size
  {
    mem[ref.buffer..ref.buffer + ref.size]
  }

  /** What the engine left in the memory for each reference, whose size it may have lowered. */
  function Outputs(mem: seq<byte>, refs: seq<Memref>): (r: seq<seq<byte>>)
    requires Inside(refs, |mem|)
    ensures |r| == |refs| && forall i :: 0 <= i < |r| ==> r[i] == Output(mem, refs[i])
  {
    seq(|refs|, i requires 0 <= i < |refs| => Output(mem, refs[i]))
  }

  /** The engine keeps each buffer pointer and never raises a size. */
  ghost predicate Shrunk(refs: seq<Memref>, sizes: seq<nat>) {
    && |refs| == |sizes|
    && forall i :: 0 <= i < |refs| ==>
         refs[i].size <= sizes[i] && refs[i].buffer == RefAt(sizes, i).buffer
  }

  lemma ShrunkInside(refs: seq<Memref>, sizes: seq<nat>, i: nat)
    requires Shrunk(refs, sizes) && i < |refs|
    ensures refs[i].buffer + refs[i].size <= Start(sizes, i + 1) <= Start(sizes, |sizes|)
  {
    StartMonotone(sizes, i + 1, |sizes|);
  }

  method MemMove(mem: array<byte>, dest: nat, src: nat, count: nat)
    requires dest + count <= mem.Length && src + count <= mem.Length
    modifies mem
    ensures mem[..] == old(mem[..dest]) + old(mem[src..src + count]) + old(mem[dest + count..])
  {
    forall k | 0 <= k < count {
      mem[dest + k] := mem[src + k];
    }
  }

  /** copy_to_shared_buf: the cursor is below the segment it copies, so nothing unread is overwritten */
  method CopyToSharedBuf(mem: array<byte>, ref: Memref, cursor: nat) returns (next: nat)
    requires ref.size < UINT32_LIMIT && cursor + 4 + ref.size <= mem.Length
    requires ref.buffer + ref.size <= mem.Length && (ref.size > 0 ==> cursor + 4 <= ref.buffer)
    modifies mem
    ensures next == cursor + 4 + ref.size
    ensures mem[..next] == old(mem[..cursor]) + ToLe(ref.size) + Output(old(mem[..]), ref)
    ensures mem[next..] == old(mem[next..])
  {
    hide Le, ToLe;
    ghost var was := mem[..];
    WriteBytes(mem, cursor, ToLe(ref.size));
    next := cursor + 4;
    assert mem[..next] == was[..cursor] + ToLe(ref.size);
    assert mem[next..] == was[next..];
    if ref.size == 0 {
      return;
    }
    FromTail(mem[..], was, next, ref);
    MemMove(mem, next, ref.buffer, ref.size);
    next := next + ref.size;
  }

  /**
    fill_share_mem over the very memory its references point into: afterwards the memory starts
    with the encoding of what the engine left, and the rest is as it was.
   */
  method FillShareMem(mem: array<byte>, refs: seq<Memref>, ghost sizes: seq<nat>) returns (end: nat)
    requires Shrunk(refs, sizes) && Start(sizes, |sizes|) <= mem.Length <= UINT32_LIMIT
    requires Inside(refs, mem.Length)
    modifies mem
    ensures end <= Start(sizes, |sizes|)
    ensures Small(Outputs(old(mem[..]), refs)) && mem[..end] == Encode(Outputs(old(mem[..]), refs))
    ensures mem[end..] == old(mem[end..])
  {
    ghost var was := mem[..];
    ghost var done: seq<seq<byte>> := [];
    end := 0;
    hide Encode, Output, Small, Compacted, Copied;
    CompactedStart(was, refs);
    for i := 0 to |refs|
      invariant end <= Start(sizes, i) <= mem.Length
      invariant |done| == i && Copied(done, was, refs) && Compacted(mem[..], was, end, done)
    {
      StartMonotone(sizes, i + 1, |sizes|);
      CopiedSnoc(done, was, refs);
      end := FillOne(mem, refs[i], end, was, done);
      done := done + [Output(was, refs[i])];
    }
    CopiedAll(done, was, refs);
    CompactedEnd(mem[..], was, end, done);
  }

  /** The memory starts with these segments and is otherwise untouched. */
  ghost predicate Compacted(now: seq<byte>, was: seq<byte>, end: nat, done: seq<seq<byte>>) {
    && |now| == |was| && end <= |now| && Small(done)
    && now[..end] == Encode(done) && now[end..] == was[end..]
  }

  lemma CompactedStart(was: seq<byte>, refs: seq<Memref>)
    requires Inside(refs, |was|)
    ensures Compacted(was, was, 0, []) && Copied([], was, refs)
  {
  }

  lemma CompactedEnd(now: seq<byte>, was: seq<byte>, end: nat, done: seq<seq<byte>>)
    requires Compacted(now, was, end, done)
    ensures end <= |now| == |was| && Small(done) && now[..end] == Encode(done) && now[end..] == was[end..]
  {
  }

  /** One iteration of the loop of fill_share_mem. */
  method FillOne(mem: array<byte>, ref: Memref, end: nat, ghost was: seq<byte>, ghost done: seq<seq<byte>>)
    returns (next: nat)
    requires Compacted(mem[..], was, end, done)
    requires ref.size < UINT32_LIMIT && end + 4 + ref.size <= mem.Length
    requires ref.buffer + ref.size <= mem.Length && (ref.size > 0 ==> end + 4 <= ref.buffer)
    modifies mem
    ensures next == end + 4 + ref.size && Compacted(mem[..], was, next, done + [Output(was, ref)])
  {
    EncodeSnoc(done, Output(was, ref));
    hide Encode, Small, ToLe;
    FromTail(mem[..], was, end, ref);
    TailShorter(mem[..], was, end, end + 4 + ref.size);
    next := CopyToSharedBuf(mem, ref, end);
  }

  ghost predicate Inside(refs: seq<Memref>, limit: nat) {
    forall i :: 0 <= i < |refs| ==> refs[i].buffer + refs[i].size <= limit
  }

  ghost predicate Copied(done: seq<seq<byte>>, was: seq<byte>, refs: seq<Memref>)
    requires Inside(refs, |was|)
  {
    |done| <= |refs| && forall j :: 0 <= j < |done| ==> done[j] == Output(was, refs[j])
  }

  lemma CopiedSnoc(done: seq<seq<byte>>, was: seq<byte>, refs: seq<Memref>)
    requires Inside(refs, |was|) && Copied(done, was, refs) && |done| < |refs|
    ensures Copied(done + [Output(was, refs[|done|])], was, refs)
  {
  }

  lemma CopiedAll(done: seq<seq<byte>>, was: seq<byte>, refs: seq<Memref>)
    requires Inside(refs, |was|) && Copied(done, was, refs) && |done| == |refs|
    ensures done == Outputs(was, refs)
  {
  }

  /** A segment behind the cursor is still what it was. */
  lemma FromTail(now: seq<byte>, was: seq<byte>, cursor: nat, ref: Memref)
    requires |now| == |was| && cursor <= |now| && now[cursor..] == was[cursor..]
    requires ref.buffer + ref.size <= |now| && (ref.size > 0 ==> cursor <= ref.buffer)
    ensures Output(now, ref) == Output(was, ref)
  {
    if ref.size > 0 {
      var at := ref.buffer - cursor;
      assert now[ref.buffer..ref.buffer + ref.size] == now[cursor..][at..at + ref.size];
      assert was[ref.buffer..ref.buffer + ref.size] == was[cursor..][at..at + ref.size];
    }
  }

  lemma TailShorter(now: seq<byte>, was: seq<byte>, from: nat, to: nat)
    requires |now| == |was| && from <= to <= |now| && now[from..] == was[from..]
    ensures now[to..] == was[to..]
  {
    assert now[to..] == now[from..][to - from..] && was[to..] == was[from..][to - from..];
  }

  // ---- the client's side ----

  /** get_share_mem_size followed by the size check of prepare_ioctl_parameters */
  method ClientSize(sizes: seq<nat>) returns (size: Option<nat>)
    requires |sizes| <= CRYPTO_PARAM_COUNT_MAX
    ensures size == if Start(sizes, |sizes|) <= SHARE_MEMORY_MAX_SIZE then Some(Start(sizes, |sizes|)) else None
  {
    var total: nat := 0;
    for i := 0 to |sizes|
      invariant total + 4 * i == Start(sizes, i) && total <= i * SHARE_MEMORY_MAX_SIZE
      invariant forall j :: 0 <= j < i ==> sizes[j] <= SHARE_MEMORY_MAX_SIZE
    {
      if sizes[i] > SHARE_MEMORY_MAX_SIZE {
        StartMonotone(sizes, i, |sizes|);
        return None;
      }
      total := Add32(total, sizes[i]);
    }
    total := Add32(total, 4 * |sizes|);
    size := if total > SHARE_MEMORY_MAX_SIZE then None else Some(total);
  }

  /** get_share_mem of the client: segments come back into buffers of the given capacities */
  function ReadBack(buf: seq<byte>, capacities: seq<nat>): Option<seq<seq<byte>>> {
    if capacities == [] then Some([])
    else if |buf| < 4 || Le(buf[..4]) > capacities[0] || |buf| - 4 < Le(buf[..4]) then None
    else
      var size := Le(buf[..4]);
      match ReadBack(buf[4 + size..], capacities[1..])
      case None => None
      case Some(rest) => Some([buf[4..4 + size]] + rest)
  }

  /** Whatever follows the encoding, the client reads back the segments, if they fit. */
  lemma {:induction false} ReadBackOfEncode(segs: seq<seq<byte>>, rest: seq<byte>, capacities: seq<nat>)
    requires Small(segs) && |segs| == |capacities|
    ensures ReadBack(Encode(segs) + rest, capacities) == if Fit(segs, capacities) then Some(segs) else None
  {
    hide Le, ToLe;
    if segs != [] {
      var buf := Encode(segs) + rest;
      var size := |segs[0]|;
      assert buf[..4] == ToLe(size);
      assert buf[4..4 + size] == segs[0];
      assert buf[4 + size..] == Encode(segs[1..]) + rest;
      ReadBackOfEncode(segs[1..], rest, capacities[1..]);
      FitTail(segs, capacities);
      hide Encode, Fit;
      assert segs == [segs[0]] + segs[1..];
    }
  }

  ghost predicate Fit(segs: seq<seq<byte>>, capacities: seq<nat>) {
    |segs| == |capacities| && forall i :: 0 <= i < |segs| ==> |segs[i]| <= capacities[i]
  }

  lemma FitTail(segs: seq<seq<byte>>, capacities: seq<nat>)
    requires |segs| == |capacities| > 0
    ensures Fit(segs, capacities) <==> |segs[0]| <= capacities[0] && Fit(segs[1..], capacities[1..])
  {
    assert forall i :: 0 < i < |segs| ==> segs[i] == segs[1..][i - 1] && capacities[i] == capacities[1..][i - 1];
  }

  /** Everything a client sends within the limits is accepted and arrives unchanged. */
  lemma ClientIsAccepted(segs: seq<seq<byte>>)
    requires 1 <= |segs| <= CRYPTO_PARAM_COUNT_MAX && Start(Sizes(segs), |segs|) <= SHARE_MEMORY_MAX_SIZE
    ensures Small(segs) && 1 <= |Encode(segs)| <= SHARE_MEMORY_MAX_SIZE
    ensures Parse(Encode(segs), |segs|) == Some(segs)
  {
    forall i | 0 <= i < |segs| ensures |segs[i]| < UINT32_LIMIT {
      StartMonotone(Sizes(segs), i, |segs|);
    }
    ParseOfEncode(segs);
    EncodeAt(segs, |segs|);
    assert segs[|segs|..] == [];
  }

  /**
    After the in-place compaction both readers see exactly what the engine left: a second parse
    by the driver, and the client, whose buffers have the sizes it sent.
   */
  lemma OutputsComeBack(mem: seq<byte>, end: nat, outs: seq<seq<byte>>, sizes: seq<nat>)
    requires |outs| == |sizes| && Small(outs) && end <= |mem| && mem[..end] == Encode(outs)
    requires Fit(outs, sizes)
    ensures Parse(mem[..end], |outs|) == Some(outs) && ReadBack(mem, sizes) == Some(outs)
  {
    ParseOfEncode(outs);
    ReadBackOfEncode(outs, mem[end..], sizes);
    assert mem == Encode(outs) + mem[end..];
  }

  /** An engine may rewrite the memory and must not raise a size. */
  ghost predicate IsEngine(engine: (seq<byte>, seq<Memref>) -> (seq<byte>, seq<nat>)) {
    forall m: seq<byte>, refs: seq<Memref> ::
      && |engine(m, refs).0| == |m| && |engine(m, refs).1| == |refs|
      && (forall i :: 0 <= i < |refs| ==> engine(m, refs).1[i] <= refs[i].size)
  }

  function Reduced(refs: seq<Memref>, sizes: seq<nat>): (r: seq<Memref>)
    requires |refs| == |sizes|
    ensures |r| == |refs| && forall i :: 0 <= i < |r| ==> r[i] == Memref(refs[i].buffer, sizes[i])
  {
    seq(|refs|, i requires 0 <= i < |refs| => Memref(refs[i].buffer, sizes[i]))
  }

  lemma EngineShrinks(refs: seq<Memref>, newSizes: seq<nat>, sizes: seq<nat>, limit: nat)
    requires PointInto(refs, sizes) && |newSizes| == |refs| && Start(sizes, |sizes|) <= limit
    requires forall i :: 0 <= i < |refs| ==> newSizes[i] <= refs[i].size
    ensures Shrunk(Reduced(refs, newSizes), sizes) && Inside(Reduced(refs, newSizes), limit)
  {
    forall i | 0 <= i < |refs|
      ensures Reduced(refs, newSizes)[i].buffer + Reduced(refs, newSizes)[i].size <= limit
    {
      ShrunkInside(Reduced(refs, newSizes), sizes, i);
    }
  }

  /**
    A whole request, as the crypto system calls serve it: parse, let the engine work in place,
    compact in place. The client then reads back exactly what the engine left.
   */
  method Serve(mem: array<byte>, totalNums: nat, bufLen: nat,
               engine: (seq<byte>, seq<Memref>) -> (seq<byte>, seq<nat>)) returns (status: Status, refs: seq<Memref>)
    requires 1 <= bufLen <= SHARE_MEMORY_MAX_SIZE ==> bufLen <= mem.Length
    requires mem.Length <= UINT32_LIMIT && IsEngine(engine)
    modifies mem
    ensures status.CryptoSuccess? <==>
      1 <= bufLen <= 10485760 && 1 <= totalNums <= 5 && Parse(old(mem[..bufLen]), totalNums).Some?
    ensures status.OutOfBounds? <==>
      1 <= bufLen <= 10485760 && 1 <= totalNums <= 5 && Overreads(old(mem[..]), bufLen, totalNums)
    ensures !status.CryptoSuccess? ==> mem[..] == old(mem[..])
    ensures status.CryptoSuccess? ==>
      && bufLen <= mem.Length
      && var sizes := Sizes(Parse(old(mem[..bufLen]), totalNums).value);
         var (engineMem, newSizes) := engine(old(mem[..]), refs);
         && PointInto(refs, sizes) && Inside(Reduced(refs, newSizes), |engineMem|)
         && ReadBack(mem[..], sizes) == Some(Outputs(engineMem, Reduced(refs, newSizes)))
  {
    status, refs := PrepareHardEngineParams(mem, totalNums, bufLen);
    if !status.CryptoSuccess? {
      return;
    }
    ghost var segs := Parse(mem[..bufLen], totalNums).value;
    EncodeOfParse(mem[..bufLen], totalNums);
    EncodeAt(segs, |segs|);
    hide Parse, Encode, Sizes, ReadBack, Start;
    var (engineMem, newSizes) := engine(mem[..], refs);
    forall k | 0 <= k < mem.Length {
      mem[k] := engineMem[k];
    }
    assert mem[..] == engineMem;
    EngineShrinks(refs, newSizes, Sizes(segs), mem.Length);
    var end := FillShareMem(mem, Reduced(refs, newSizes), Sizes(segs));
    OutputsComeBack(mem[..], end, Outputs(engineMem, Reduced(refs, newSizes)), Sizes(segs));
  }
}
