/** Boot share memory: the loader's side (sample/teeloader). */
module TlvWriter {
  import opened Bytes
  import opened Options
  import opened TlvLayout

  /** Writing over the front of a run of zeros. */
  lemma SpliceKeepsZeros(was: seq<byte>, at: nat, a: seq<byte>, n: nat)
    requires |a| <= n && at + n <= |was|
    ensures Splice(Splice(was, at, Zeros(n)), at, a) == Splice(was, at, a + Zeros(n - |a|))
  {
  }

  lemma SpliceTwice(was: seq<byte>, at: nat, head: seq<byte>, gap: seq<byte>, a: seq<byte>, b: seq<byte>)
    requires |gap| == |a| + |b| && at + |head| + |gap| <= |was|
    ensures Splice(Splice(Splice(was, at, head + gap), at + |head|, a), at + |head| + |a|, b)
         == Splice(was, at, head + a + b)
  {
  }

  /** Writing inside the first part of a memory leaves the second part alone. */
  lemma SpliceFront(front: seq<byte>, rest: seq<byte>, at: nat, bytes: seq<byte>)
    requires at + |bytes| <= |front|
    ensures Splice(front + rest, at, bytes) == Splice(front, at, bytes) + rest
  {
  }

  /** Writing right behind the first two parts. */
  lemma Behind(a: seq<byte>, b: seq<byte>, rest: seq<byte>, bytes: seq<byte>)
    requires |bytes| <= |rest|
    ensures Splice(a + (b + rest), |a| + |b|, bytes) == a + (b + (bytes + rest[|bytes|..]))
  {
  }

  lemma HeaderWords(num: nat, total: nat, num': nat, total': nat)
    requires num < UINT32_LIMIT && total < UINT32_LIMIT && num' < UINT32_LIMIT && total' < UINT32_LIMIT
    ensures Splice(Splice(Header(num, total), 4, ToLe(num')), 8, ToLe(total')) == Header(num', total')
    ensures var h := Header(num, total);
      Le(h[..4]) == MAGIC && Le(h[4..8]) == num && Le(h[8..12]) == total
      && Le(Splice(h, 4, ToLe(num'))[8..12]) == total
  {
    hide ToLe, Le;
    var h := Header(num, total);
    assert h[..4] == ToLe(MAGIC) && h[4..8] == ToLe(num) && h[8..12] == ToLe(total);
    assert Splice(h, 4, ToLe(num'))[8..12] == ToLe(total);
  }

  lemma HeaderOf(mem: seq<byte>, items: seq<Item>)
    requires Holds(mem, items)
    ensures HEADER_SIZE + Total(items) <= |mem|
    ensures mem == Header(|items|, Total(items)) + (EncodeItems(items) + mem[HEADER_SIZE + Total(items)..])
  {
    hide Header, EncodeItems, Total, AllWellFormed;
    Regroup(Header(|items|, Total(items)), EncodeItems(items), mem);
  }

  lemma Regroup(a: seq<byte>, b: seq<byte>, mem: seq<byte>)
    requires a + b <= mem
    ensures mem == a + (b + mem[|a| + |b|..])
  {
  }

  lemma MagicReads(mem: seq<byte>, items: seq<Item>)
    requires Holds(mem, items)
    ensures Fits32(items) && HEADER_SIZE + Total(items) <= |mem| && Le(mem[..4]) == MAGIC
  {
    hide Header, EncodeItems, Total, AllWellFormed, Le;
    HeaderOf(mem, items);
    HeaderWords(|items|, Total(items), 0, 0);
    assert mem[..4] == Header(|items|, Total(items))[..4];
  }

  /** The memory after the item is written and before the header is. */
  lemma ItemBehind(was: seq<byte>, items: seq<Item>, it: Item)
    requires Holds(was, items) && WellFormed(it) && HEADER_SIZE + Total(items) + Size(it) <= |was|
    ensures Splice(was, HEADER_SIZE + Total(items), EncodeItem(it)) ==
      Header(|items|, Total(items)) +
      (EncodeItems(items) + (EncodeItem(it) + was[HEADER_SIZE + Total(items) + Size(it)..]))
  {
    hide Header, EncodeItems, EncodeItem, Total, AllWellFormed, Splice;
    var at := HEADER_SIZE + Total(items);
    HeaderOf(was, items);
    Behind(Header(|items|, Total(items)), EncodeItems(items), was[at..], EncodeItem(it));
    assert was[at..][Size(it)..] == was[at + Size(it)..];
  }

  /** A new item behind the table, and the header rewritten, make the longer table. */
  lemma TableGrows(items: seq<Item>, it: Item, rest: seq<byte>)
    requires Fits32(items) && WellFormed(it) && Total(items) + Size(it) < UINT32_LIMIT && |items| + 1 < UINT32_LIMIT
    ensures Holds(Header(|items| + 1, Total(items) + Size(it)) + (EncodeItems(items) + (EncodeItem(it) + rest)), items + [it])
  {
    hide Header, EncodeItems, EncodeItem, Total, Size, AllWellFormed, Table;
    ItemsSnoc(items, it);
    TableIs(items + [it], Total(items) + Size(it), EncodeItems(items) + EncodeItem(it));
    PrefixOf(Header(|items| + 1, Total(items) + Size(it)), EncodeItems(items), EncodeItem(it), rest);
  }

  lemma TableIs(items: seq<Item>, total: nat, body: seq<byte>)
    requires Fits32(items) && total == Total(items) && body == EncodeItems(items)
    ensures Table(items) == Header(|items|, total) + body
  {
    hide Header, EncodeItems, Total, AllWellFormed;
  }

  lemma PrefixOf(a: seq<byte>, b: seq<byte>, c: seq<byte>, rest: seq<byte>)
    ensures a + (b + c) <= a + (b + (c + rest))
  {
  }

  /**
    The loader. `mem` is the share memory, which ends where the memory of the TEE ends; `bump` is
    the allocation pointer, relative to the start of `mem`.
   */
  class TlvTable {
    const mem: array<byte>
    var started: bool
    var bump: nat
    ghost var items: seq<Item>

    constructor (size: nat)
      requires size < UINT32_LIMIT
      ensures Valid() && fresh(mem) && mem.Length == size && items == []
    {
      mem := new byte[size];
      started, bump, items := false, 0, [];
    }

    /** The bump pointer is always start + header + total_len. */
    ghost predicate Valid()
      reads this, mem
    {
      && mem.Length < UINT32_LIMIT
      && (if started then bump == HEADER_SIZE + Total(items) && Holds(mem[..], items) else items == [])
    }

    method TlvStartInit() returns (ok: bool)
      requires Valid()
      modifies mem, this`started, this`bump
      ensures Valid() && (ok <==> mem.Length >= HEADER_SIZE || old(started)) && started == ok
    {
      if started {
        return true;
      }
      if mem.Length == 0 || mem.Length < HEADER_SIZE {
        return false;
      }
      WriteBytes(mem, 0, Zeros(HEADER_SIZE));
      bump := HEADER_SIZE;
      WriteBytes(mem, 0, ToLe(MAGIC));
      WriteBytes(mem, 4, ToLe(0));
      started := true;
      FreshHeader(old(mem[..]), mem[..]);
      return true;
    }

    method AllocTeeosSharedMem(length: nat) returns (addr: Option<nat>)
      requires bump <= mem.Length
      modifies mem, this`bump
      ensures addr.Some? <==> 0 < length && old(bump) + length <= mem.Length
      ensures addr.None? ==> bump == old(bump) && mem[..] == old(mem[..])
      ensures addr.Some? ==> addr.value == old(bump) && bump == old(bump) + length
      ensures addr.Some? ==> mem[..] == Splice(old(mem[..]), old(bump), Zeros(length))
    {
      if length == 0 || bump + length > mem.Length {
        return None;
      }
      WriteBytes(mem, bump, Zeros(length));
      addr := Some(bump);
      bump := bump + length;
    }

    /** share_mem_tlv_init_item, over freshly zeroed memory; its result is ignored by the caller */
    method InitItem(addr: nat, it: Item, ghost was: seq<byte>)
      requires WellFormed(it) && addr + Size(it) <= mem.Length == |was|
      requires mem[..] == Splice(was, addr, Zeros(Size(it)))
      modifies mem
      ensures mem[..] == Splice(was, addr, EncodeItem(it))
    {
      hide EncodeItem, ToLe, Le, Splice, Add32, Pad, Zeros;
      if it.value == [] {
        EmptyIs(it);
        return;
      }
      var magic := Add32(Add32(MAGIC, |it.value|), |it.owner|);
      var head := Pad(it.name) + ToLe(|it.owner|) + ToLe(|it.value|) + ToLe(magic);
      ItemBytes(was, addr, it, head);
      WriteBytes(mem, addr, head);
      if |it.owner| == 0 {
        return;
      }
      WriteBytes(mem, addr + ITEM_HEADER_SIZE, it.owner);
      WriteBytes(mem, addr + ITEM_HEADER_SIZE + |it.owner|, it.value);
    }

    method Append(it: Item) returns (ret: int)
      requires Valid() && started && WellFormed(it)
      modifies mem, this`bump, this`items
      ensures Valid()
      ensures ret == 0 <==> HEADER_SIZE + Total(old(items)) + Size(it) <= mem.Length
      ensures items == if ret == 0 then old(items) + [it] else old(items)
    {
      hide Header, EncodeItems, EncodeItem, Total, AllWellFormed, Splice, Le, Holds;
      ghost var was := mem[..];
      MagicReads(was, items);
      CountBelowTotal(items);
      assert mem[..4] == was[..4];
      if Le(mem[..4]) != MAGIC {
        return 1;
      }
      var totalLen := Add32(Add32(|it.value|, |it.owner|), ITEM_HEADER_SIZE);
      var addr := AllocTeeosSharedMem(totalLen);
      if addr.None? {
        return 1;
      }
      InitItem(addr.value, it, was);
      ItemBehind(was, items, it);
      ret := Register(totalLen, it, was[bump..]);
    }

    /** The end of share_mem_tlv_append: the header is updated. The size check here never fails. */
    method Register(totalLen: nat, ghost it: Item, ghost rest: seq<byte>) returns (ret: int)
      requires started && Fits32(items) && WellFormed(it) && totalLen == Size(it) && |items| + 1 < UINT32_LIMIT
      requires bump == HEADER_SIZE + Total(items) + Size(it) <= mem.Length < UINT32_LIMIT
      requires mem[..] == Header(|items|, Total(items)) + (EncodeItems(items) + (EncodeItem(it) + rest))
      modifies mem, this`items
      ensures Valid() && ret == 0 && items == old(items) + [it]
    {
      hide EncodeItem, EncodeItems, Total, Holds, ToLe, Le, Header, AllWellFormed, Splice;
      ghost var header := Header(|items|, Total(items));
      ghost var body := EncodeItems(items) + (EncodeItem(it) + rest);
      HeaderWords(|items|, Total(items), |items| + 1, Total(items) + Size(it));
      assert mem[4..8] == header[4..8];
      var num := Add32(Le(mem[4..8]), 1);
      SpliceFront(header, body, 4, ToLe(num));
      WriteBytes(mem, 4, ToLe(num));
      ghost var header' := Splice(header, 4, ToLe(num));
      assert mem[8..12] == header'[8..12];
      if Le(mem[8..12]) + HEADER_SIZE >= mem.Length {
        return 1;
      }
      var total := Add32(Le(mem[8..12]), totalLen);
      SpliceFront(header', body, 8, ToLe(total));
      WriteBytes(mem, 8, ToLe(total));
      TableGrows(items, it, rest);
      ItemsSnoc(items, it);
      items := items + [it];
      return 0;
    }

    /** put_tlv_shared_mem: every well-formed item that fits is appended, anything else is refused */
    method Put(it: Item) returns (ret: int)
      requires Valid() && Size(it) < UINT32_LIMIT
      modifies mem, this`started, this`bump, this`items
      ensures Valid()
      ensures ret == 0 <==>
        && 3 <= |it.name| < 32 && |it.owner| % 16 == 0
        && 12 + Total(old(items)) + 44 + |it.owner| + |it.value| <= mem.Length
      ensures items == if ret == 0 then old(items) + [it] else old(items)
    {
      var ok := TlvStartInit();
      if !ok {
        return 1;
      }
      if |it.owner| % UUID_SIZE != 0 {
        return 1;
      }
      if |it.name| >= MAX_TAG_LEN || |it.name| < MIN_TAG_LEN {
        return 1;
      }
      ret := Append(it);
    }
  }

  lemma FreshHeader(was: seq<byte>, now: seq<byte>)
    requires HEADER_SIZE <= |was|
    requires now == Splice(Splice(Splice(was, 0, Zeros(HEADER_SIZE)), 0, ToLe(MAGIC)), 4, ToLe(0))
    ensures Holds(now, [])
  {
    assert ToLe(0) == Zeros(4);
    hide ToLe, Zeros, Le;
    SpliceKeepsZeros(was, 0, ToLe(MAGIC), HEADER_SIZE);
    var z := Zeros(8);
    assert z == Zeros(4) + Zeros(4);
    assert now == Header(0, 0) + was[HEADER_SIZE..];
  }

  lemma MagicSum(it: Item)
    requires WellFormed(it)
    ensures Add32(Add32(MAGIC, |it.value|), |it.owner|) == Add32(MAGIC, |it.value| + |it.owner|)
  {
  }

  /** What the writes of share_mem_tlv_init_item amount to. */
  lemma ItemBytes(was: seq<byte>, addr: nat, it: Item, head: seq<byte>)
    requires WellFormed(it) && addr + Size(it) <= |was| && it.value != []
    requires head == Pad(it.name) + ToLe(|it.owner|) + ToLe(|it.value|) + ToLe(Add32(Add32(MAGIC, |it.value|), |it.owner|))
    ensures var step := Splice(Splice(was, addr, Zeros(Size(it))), addr, head);
      Splice(was, addr, EncodeItem(it)) ==
        if it.owner == [] then step
        else Splice(Splice(step, addr + ITEM_HEADER_SIZE, it.owner), addr + ITEM_HEADER_SIZE + |it.owner|, it.value)
  {
    hide Splice, ToLe, Le, Pad, EncodeItem, Zeros, ItemHeader;
    HeadIs(it);
    EncodedIs(it);
    SpliceKeepsZeros(was, addr, head, Size(it));
    if it.owner != [] {
      SpliceTwice(was, addr, head, Zeros(|it.owner| + |it.value|), it.owner, it.value);
    }
  }

  lemma EmptyIs(it: Item)
    requires WellFormed(it) && it.value == []
    ensures EncodeItem(it) == Zeros(Size(it))
  {
  }

  lemma HeadIs(it: Item)
    requires WellFormed(it)
    ensures Pad(it.name) + ToLe(|it.owner|) + ToLe(|it.value|) + ToLe(Add32(Add32(MAGIC, |it.value|), |it.owner|))
         == ItemHeader(it)
  {
    hide ToLe, Le, Pad;
    MagicSum(it);
  }

  lemma EncodedIs(it: Item)
    requires WellFormed(it) && it.value != []
    ensures EncodeItem(it) ==
      if it.owner == [] then ItemHeader(it) + Zeros(|it.owner| + |it.value|) else ItemHeader(it) + it.owner + it.value
  {
    hide ItemHeader, Zeros;
  }
}
