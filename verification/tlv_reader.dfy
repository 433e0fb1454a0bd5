/** Boot share memory: the driver's side (drivers/tee_misc_driver). */
module TlvReader {
  import opened Bytes
  import opened Options
  import opened TlvLayout

  /** What get_tlv_msg returns, or that it reads or writes outside the memory. */
  datatype Status = Success | AccessDenied | NoData | BadParameters | ErrorData | Generic | OutOfBounds

  // ---- fields of an item header ----

  function OwnerLen(mem: seq<byte>, pos: nat): nat
    requires pos + ITEM_HEADER_SIZE <= |mem|
  {
    WordAt(mem, pos + 32)
  }

  function ValueLen(mem: seq<byte>, pos: nat): nat
    requires pos + ITEM_HEADER_SIZE <= |mem|
  {
    WordAt(mem, pos + 36)
  }

  /** share_mem_value_check */
  predicate ValueCheck(mem: seq<byte>, pos: nat)
    requires pos + ITEM_HEADER_SIZE <= |mem|
  {
    WordAt(mem, pos + 40) == Add32(MAGIC, ValueLen(mem, pos) + OwnerLen(mem, pos))
  }

  /** What share_mem_tlv_find returns, or that it reads an item header outside the memory. */
  datatype Outcome = Done(item: Option<nat>) | Fault

  predicate HeaderInside(mem: seq<byte>, len: nat) { HEADER_SIZE + len + ITEM_HEADER_SIZE <= |mem| }

  /** Where the item behind the one at offset `len` starts. */
  function NextLen(mem: seq<byte>, len: nat): nat
    requires HeaderInside(mem, len)
  {
    var pos := HEADER_SIZE + len;
    Add32(len, ValueLen(mem, pos) + OwnerLen(mem, pos) + ITEM_HEADER_SIZE)
  }

  /** The item at offset `len` passes the checks, so that its name is looked at. */
  predicate Passes(mem: seq<byte>, len: nat, total: nat)
    requires HeaderInside(mem, len)
  {
    ValueCheck(mem, HEADER_SIZE + len) && NextLen(mem, len) <= total
  }

  predicate Matches(mem: seq<byte>, len: nat, query: seq<byte>)
    requires HeaderInside(mem, len)
  {
    var pos := HEADER_SIZE + len;
    SameName(mem[pos..pos + MAX_TAG_LEN], query)
  }

  /** The walk of share_mem_tlv_find from offset `len`, with this many items to go. */
  function Walk(mem: seq<byte>, left: nat, len: nat, total: nat, query: seq<byte>): Outcome {
    if left == 0 then Done(None)
    else if !HeaderInside(mem, len) then Fault
    else if !Passes(mem, len, total) then Done(None)
    else if Matches(mem, len, query) then Done(Some(HEADER_SIZE + len))
    else Walk(mem, left - 1, NextLen(mem, len), total, query)
  }

  /** The offset of the k-th item, if the walk passes all items before it without a match. */
  function Reached(mem: seq<byte>, k: nat, total: nat, query: seq<byte>): Option<nat> {
    if k == 0 then Some(0)
    else
      match Reached(mem, k - 1, total, query)
      case None => None
      case Some(len) =>
        if HeaderInside(mem, len) && Passes(mem, len, total) && !Matches(mem, len, query) then Some(NextLen(mem, len))
        else None
  }

  /** The walk gets to the k-th item, and fewer bytes than an item header are left there. */
  ghost predicate LeavesAt(mem: seq<byte>, k: nat, total: nat, query: seq<byte>) {
    Reached(mem, k, total, query).Some? && !HeaderInside(mem, Reached(mem, k, total, query).value)
  }

  lemma {:induction false} ReachedStops(mem: seq<byte>, j: nat, k: nat, total: nat, query: seq<byte>)
    requires j <= k && Reached(mem, j, total, query).None?
    ensures Reached(mem, k, total, query).None?
  {
    if j < k {
      ReachedStops(mem, j, k - 1, total, query);
    }
  }

  /** The walk leaves the memory exactly when there are items to go and fewer bytes left than their header. */
  lemma {:induction false} WalkLeavesIff(mem: seq<byte>, left: nat, j: nat, total: nat, query: seq<byte>)
    requires Reached(mem, j, total, query).Some?
    ensures Walk(mem, left, Reached(mem, j, total, query).value, total, query).Fault? <==>
      exists k: nat :: j <= k < j + left && LeavesAt(mem, k, total, query)
    decreases left
  {
    hide Passes, Matches, NextLen, HeaderInside;
    var len := Reached(mem, j, total, query).value;
    if left > 0 {
      assert LeavesAt(mem, j, total, query) <==> !HeaderInside(mem, len);
      if Reached(mem, j + 1, total, query).Some? {
        WalkLeavesIff(mem, left - 1, j + 1, total, query);
      } else {
        forall k: nat | k > j ensures !LeavesAt(mem, k, total, query) {
          ReachedStops(mem, j + 1, k, total, query);
        }
      }
    }
  }

  /** A header alone, announcing one empty item, passes the checks of get_tlv_msg and is left at once. */
  lemma WalkLeavesHappens(query: seq<byte>)
    ensures var mem := Header(1, 0);
      && GoodHeader(mem, |mem|)
      && Walk(mem, WordAt(mem, 4), 0, WordAt(mem, 8), query) == Fault
  {
    hide ToLe, Le;
    var mem := Header(1, 0);
    assert mem[0..4] == ToLe(MAGIC) && mem[4..8] == ToLe(1) && mem[8..12] == ToLe(0);
  }

  /** share_mem_tlv_find, over any memory that holds the length its header claims */
  method ShareMemTlvFind(mem: array<byte>, query: seq<byte>) returns (r: Outcome)
    requires HEADER_SIZE <= mem.Length && HEADER_SIZE + WordAt(mem[..], 8) <= mem.Length
    ensures r == Walk(mem[..], WordAt(mem[..], 4), 0, WordAt(mem[..], 8), query)
    ensures r.Fault? <==>
      exists k: nat :: k < WordAt(mem[..], 4) && LeavesAt(mem[..], k, WordAt(mem[..], 8), query)
  {
    hide WordAt, ValueCheck, SameName;
    ghost var m := mem[..];
    var num, total := WordAt(mem[..], 4), WordAt(mem[..], 8);
    var pos, len := HEADER_SIZE, 0;
    WalkLeavesIff(m, num, 0, total, query);
    hide LeavesAt;
    for i := 0 to num
      invariant len <= total && pos == HEADER_SIZE + len
      invariant Walk(m, num, 0, total, query) == Walk(m, num - i, len, total, query)
    {
      if pos + ITEM_HEADER_SIZE > mem.Length {
        return Fault;
      }
      if !ValueCheck(mem[..], pos) {
        return Done(None);
      }
      len := Add32(len, ValueLen(mem[..], pos) + OwnerLen(mem[..], pos) + ITEM_HEADER_SIZE);
      if len > total {
        return Done(None);
      }
      if SameName(mem[..][pos..pos + MAX_TAG_LEN], query) {
        return Done(Some(pos));
      }
      pos := HEADER_SIZE + len;
    }
    return Done(None);
  }

  // ---- reading what the loader wrote ----

  /** Where item j's header lies. */
  function PosOf(items: seq<Item>, j: nat): nat
    requires j <= |items|
  {
    HEADER_SIZE + Total(items[..j])
  }

  lemma SubSlice(s: seq<byte>, a: nat, b: nat, c: nat, d: nat)
    requires a + b <= |s| && c + d <= b
    ensures s[a..a + b][c..c + d] == s[a + c..a + c + d]
  {
    var x := s[a..a + b];
    var y := x[c..c + d];
    assert forall i :: 0 <= i < d ==> y[i] == x[c + i];
  }

  /** The parts of an item with a value. */
  lemma Parts(it: Item)
    requires WellFormed(it) && it.value != []
    ensures var e := EncodeItem(it);
      && e[..32] == Pad(it.name) && e[32..36] == ToLe(|it.owner|) && e[36..40] == ToLe(|it.value|)
      && e[40..44] == ToLe(Add32(MAGIC, |it.value| + |it.owner|))
      && e[44..44 + |it.owner|] == it.owner && e[44 + |it.owner|..] == Stored(it)
  {
    hide ToLe, Le, Pad, Add32, Stored;
    var h := ItemHeader(it);
    assert h[..32] == Pad(it.name) && h[32..36] == ToLe(|it.owner|) && h[36..40] == ToLe(|it.value|);
    assert h[40..44] == ToLe(Add32(MAGIC, |it.value| + |it.owner|));
    hide ItemHeader;
    var e := EncodeItem(it);
    assert e[..44] == h;
    assert e[..32] == e[..44][..32] && e[32..36] == e[..44][32..36];
    assert e[36..40] == e[..44][36..40] && e[40..44] == e[..44][40..44];
  }

  ghost predicate ReadsAs(mem: seq<byte>, pos: nat, it: Item)
    requires WellFormed(it) && pos + Size(it) <= |mem|
  {
    && ValueCheck(mem, pos) && OwnerLen(mem, pos) == |it.owner| && ValueLen(mem, pos) == |it.value|
    && mem[pos..pos + MAX_TAG_LEN] == Pad(it.name)
    && mem[pos + 44..pos + 44 + |it.owner|] == it.owner
    && mem[pos + 44 + |it.owner|..pos + Size(it)] == Stored(it)
  }

  /** What an item's fields read as; an item with an empty value fails the check. */
  lemma Fields(mem: seq<byte>, pos: nat, it: Item)
    requires WellFormed(it) && pos + Size(it) <= |mem| && mem[pos..pos + Size(it)] == EncodeItem(it)
    ensures if it.value == [] then !ValueCheck(mem, pos) else ReadsAs(mem, pos, it)
  {
    hide ToLe, Le, Pad, Stored, EncodeItem, WordAt, ValueCheck;
    if it.value == [] {
      EmptyFails(mem, pos, it);
    } else {
      var n := Size(it);
      HeadFields(mem, pos, it);
      Parts(it);
      SubSlice(mem, pos, n, 0, 32);
      SubSlice(mem, pos, n, 44, |it.owner|);
      SubSlice(mem, pos, n, 44 + |it.owner|, |it.value|);
    }
  }

  lemma HeadFields(mem: seq<byte>, pos: nat, it: Item)
    requires WellFormed(it) && pos + Size(it) <= |mem| && mem[pos..pos + Size(it)] == EncodeItem(it) && it.value != []
    ensures ValueCheck(mem, pos) && OwnerLen(mem, pos) == |it.owner| && ValueLen(mem, pos) == |it.value|
  {
    hide ToLe, Le, Pad, Stored, EncodeItem, Add32;
    var n := Size(it);
    Parts(it);
    SubSlice(mem, pos, n, 32, 4);
    SubSlice(mem, pos, n, 36, 4);
    SubSlice(mem, pos, n, 40, 4);
  }

  lemma EmptyFails(mem: seq<byte>, pos: nat, it: Item)
    requires WellFormed(it) && it.value == [] && pos + Size(it) <= |mem|
    requires mem[pos..pos + Size(it)] == EncodeItem(it)
    ensures !ValueCheck(mem, pos)
  {
    forall k | pos <= k < pos + ITEM_HEADER_SIZE ensures mem[k] == 0 {
      assert mem[k] == mem[pos..pos + Size(it)][k - pos];
    }
    assert WordAt(mem, pos + 32) == 0 && WordAt(mem, pos + 36) == 0 && WordAt(mem, pos + 40) == 0;
  }

  lemma ItemInMemory(mem: seq<byte>, items: seq<Item>, i: nat)
    requires Holds(mem, items) && i < |items|
    ensures var pos := PosOf(items, i);
      pos + Size(items[i]) <= |mem| && mem[pos..pos + Size(items[i])] == EncodeItem(items[i])
  {
    hide Header, EncodeItems, EncodeItem, Total, AllWellFormed;
    ItemAt(items, i);
    var table := Table(items);
    var at, n := Total(items[..i]), Size(items[i]);
    assert table[HEADER_SIZE..] == EncodeItems(items);
    assert mem[HEADER_SIZE + at..HEADER_SIZE + at + n] == table[HEADER_SIZE..][at..at + n];
  }

  /** Over a table of the loader, the walk stays inside and finds what Lookup says, at its place. */
  lemma {:induction false} WalkOnTable(mem: seq<byte>, items: seq<Item>, i: nat, query: seq<byte>)
    requires Holds(mem, items) && i <= |items|
    ensures Total(items[..i]) <= Total(items)
    ensures Walk(mem, |items| - i, Total(items[..i]), Total(items), query) ==
      match LookupFrom(items, i, query) case None => Done(None) case Some(j) => Done(Some(PosOf(items, j)))
    decreases |items| - i
  {
    hide EncodeItem, EncodeItems, Header, Table, Total, WordAt, SameName, Pad;
    TotalMonotone(items, i);
    if i < |items| {
      ItemInMemory(mem, items, i);
      Fields(mem, PosOf(items, i), items[i]);
      WalkOnTable(mem, items, i + 1, query);
    }
  }

  lemma HeaderReads(mem: seq<byte>, items: seq<Item>)
    requires Holds(mem, items)
    ensures HEADER_SIZE + Total(items) <= |mem|
    ensures WordAt(mem, 0) == MAGIC && WordAt(mem, 4) == |items| && WordAt(mem, 8) == Total(items)
  {
    hide ToLe, Le, EncodeItems, Total, AllWellFormed;
    var h := Header(|items|, Total(items));
    assert h[0..4] == ToLe(MAGIC) && h[4..8] == ToLe(|items|) && h[8..12] == ToLe(Total(items));
    hide Header;
    var table := Table(items);
    assert table[..12] == h;
    assert mem[0..4] == table[..12][0..4] && mem[4..8] == table[..12][4..8] && mem[8..12] == table[..12][8..12];
  }

  // ---- access ----

  const ALL_PERM_UUID: seq<byte> := [255, 255, 255, 255, 255, 255, 255, 255, 255, 255, 255, 255, 255, 255, 255, 255]
  const SYS_UUID: seq<byte> := [0, 0, 0, 0, 0, 0, 0, 0, 0, 0, 0, 0, 0, 0, 0, 0]

  /** check_caller_is_system_service */
  method CheckCallerIsSystemService(caller: seq<byte>, systemServices: seq<seq<byte>>) returns (ok: bool)
    ensures ok <==> exists k :: 0 <= k < |systemServices| && systemServices[k] == caller
  {
    for i := 0 to |systemServices|
      invariant forall k :: 0 <= k < i ==> systemServices[k] != caller
    {
      if caller == systemServices[i] {
        return true;
      }
    }
    return false;
  }

  /** allperm_and_sys_uuid_check, and the comparison with the caller after it */
  method CheckEntry(entry: seq<byte>, caller: seq<byte>, systemServices: seq<seq<byte>>) returns (ok: bool)
    ensures ok <==> Admits(entry, caller, systemServices)
  {
    if entry == ALL_PERM_UUID {
      return true;
    }
    if entry == SYS_UUID {
      var service := CheckCallerIsSystemService(caller, systemServices);
      if service {
        return true;
      }
    }
    return entry == caller;
  }

  /**
    What an owner list of one entry means: all ones is for everybody, all zeros for the system
    services and nobody else, and any other uuid for the caller of exactly that uuid.
   */
  lemma OneOwner(entry: seq<byte>, caller: seq<byte>, systemServices: seq<seq<byte>>)
    requires |entry| == |caller| == UUID_SIZE
    ensures (forall i :: 0 <= i < 16 ==> entry[i] == 255) ==> Allowed(entry, caller, systemServices)
    ensures (forall i :: 0 <= i < 16 ==> entry[i] == 0) && caller != entry ==>
      (Allowed(entry, caller, systemServices) <==> caller in systemServices)
    ensures entry[0] != 0 && entry[0] != 255 ==> (Allowed(entry, caller, systemServices) <==> caller == entry)
  {
    assert Entry(entry, 0) == entry;
    assert Allowed(entry, caller, systemServices) <==> Admits(entry, caller, systemServices);
    assert (forall i :: 0 <= i < 16 ==> entry[i] == 255) ==> entry == ALL_PERM_UUID;
    assert (forall i :: 0 <= i < 16 ==> entry[i] == 0) ==> entry == SYS_UUID;
  }

  /** A longer list admits whom one of its entries admits. */
  lemma MoreOwners(a: seq<byte>, b: seq<byte>, caller: seq<byte>, systemServices: seq<seq<byte>>)
    requires |a| % UUID_SIZE == 0 && |b| == UUID_SIZE
    ensures Allowed(a + b, caller, systemServices) <==> Allowed(a, caller, systemServices) || Allowed(b, caller, systemServices)
  {
    var n := |a| / UUID_SIZE;
    assert |a + b| / UUID_SIZE == n + 1 && Entry(a + b, n) == b && Entry(b, 0) == b;
    assert forall k :: 0 <= k < n ==> Entry(a + b, k) == Entry(a, k);
    hide Admits;
    if Allowed(b, caller, systemServices) {
      assert Admits(Entry(a + b, n), caller, systemServices);
    }
    if Allowed(a, caller, systemServices) {
      var k :| 0 <= k < n && Admits(Entry(a, k), caller, systemServices);
      assert Admits(Entry(a + b, k), caller, systemServices);
    }
  }

  /** Does this owner entry admit the caller? All-ones admits everyone, all-zero the system services. */
  predicate Admits(entry: seq<byte>, caller: seq<byte>, systemServices: seq<seq<byte>>) {
    entry == ALL_PERM_UUID || (entry == SYS_UUID && caller in systemServices) || entry == caller
  }

  ghost predicate Allowed(owner: seq<byte>, caller: seq<byte>, systemServices: seq<seq<byte>>) {
    && |owner| % UUID_SIZE == 0
    && exists k :: 0 <= k < |owner| / UUID_SIZE && Admits(Entry(owner, k), caller, systemServices)
  }

  function Entry(owner: seq<byte>, k: nat): seq<byte>
    requires k < |owner| / UUID_SIZE
  {
    owner[UUID_SIZE * k..UUID_SIZE * k + UUID_SIZE]
  }

  datatype Access = Admitted | Denied | Unreadable

  predicate EntryInside(mem: seq<byte>, at: nat, k: nat) { at + UUID_SIZE * k + UUID_SIZE <= |mem| }

  predicate AdmitsAt(mem: seq<byte>, at: nat, k: nat, caller: seq<byte>, systemServices: seq<seq<byte>>)
    requires EntryInside(mem, at, k)
  {
    Admits(mem[at + UUID_SIZE * k..at + UUID_SIZE * k + UUID_SIZE], caller, systemServices)
  }

  lemma AdmitsIs(mem: seq<byte>, at: nat, k: nat, caller: seq<byte>, systemServices: seq<seq<byte>>)
    requires EntryInside(mem, at, k)
    ensures AdmitsAt(mem, at, k, caller, systemServices)
         == Admits(mem[at + UUID_SIZE * k..at + UUID_SIZE * k + UUID_SIZE], caller, systemServices)
  {
  }

  /** Entry k of an owner list of this length is looked at: all before it are there and admit nobody. */
  ghost predicate LooksAt(mem: seq<byte>, at: nat, len: nat, k: nat, caller: seq<byte>, systemServices: seq<seq<byte>>) {
    && len % UUID_SIZE == 0 && k < len / UUID_SIZE
    && forall j :: 0 <= j < k ==> EntryInside(mem, at, j) && !AdmitsAt(mem, at, j, caller, systemServices)
  }

  ghost predicate OwnerAdmits(mem: seq<byte>, at: nat, len: nat, caller: seq<byte>, systemServices: seq<seq<byte>>) {
    exists k: nat ::
      LooksAt(mem, at, len, k, caller, systemServices) && EntryInside(mem, at, k)
      && AdmitsAt(mem, at, k, caller, systemServices)
  }

  ghost predicate OwnerLeaves(mem: seq<byte>, at: nat, len: nat, caller: seq<byte>, systemServices: seq<seq<byte>>) {
    exists k: nat :: LooksAt(mem, at, len, k, caller, systemServices) && !EntryInside(mem, at, k)
  }

  /** share_mem_uuid_check, over any memory: an empty or ragged owner list admits nobody */
  method ShareMemUuidCheck(mem: array<byte>, at: nat, len: nat, caller: seq<byte>, systemServices: seq<seq<byte>>)
    returns (r: Access)
    ensures r.Admitted? <==> OwnerAdmits(mem[..], at, len, caller, systemServices)
    ensures r.Unreadable? <==> OwnerLeaves(mem[..], at, len, caller, systemServices)
  {
    if len == 0 || len % UUID_SIZE != 0 {
      return Denied;
    }
    hide AdmitsAt;
    ghost var m := mem[..];
    for i := 0 to len / UUID_SIZE
      invariant forall j :: 0 <= j < i ==> EntryInside(m, at, j) && !AdmitsAt(m, at, j, caller, systemServices)
    {
      assert LooksAt(m, at, len, i, caller, systemServices);
      if at + UUID_SIZE * i + UUID_SIZE > mem.Length {
        return Unreadable;
      }
      var ok := CheckEntry(mem[at + UUID_SIZE * i..at + UUID_SIZE * i + UUID_SIZE], caller, systemServices);
      assert AdmitsAt(m, at, i, caller, systemServices) == ok by {
        AdmitsIs(m, at, i, caller, systemServices);
      }
      if ok {
        return Admitted;
      }
    }
    return Denied;
  }

  /** An owner list that lies in the memory is read whole: it admits whom some entry admits. */
  lemma OwnerInside(mem: seq<byte>, at: nat, len: nat, caller: seq<byte>, systemServices: seq<seq<byte>>)
    requires at + len <= |mem|
    ensures !OwnerLeaves(mem, at, len, caller, systemServices)
    ensures OwnerAdmits(mem, at, len, caller, systemServices) <==> Allowed(mem[at..at + len], caller, systemServices)
  {
    var owner := mem[at..at + len];
    forall k | 0 <= k < len / UUID_SIZE
      ensures EntryInside(mem, at, k)
      ensures AdmitsAt(mem, at, k, caller, systemServices) == Admits(Entry(owner, k), caller, systemServices)
    {
      SubSlice(mem, at, len, UUID_SIZE * k, UUID_SIZE);
    }
    hide AdmitsAt, Admits, Entry;
    if Allowed(owner, caller, systemServices) {
      var k :| 0 <= k < len / UUID_SIZE && Admits(Entry(owner, k), caller, systemServices);
      FirstAdmitting(mem, at, len, k, caller, systemServices);
    }
  }

  lemma {:induction false} FirstAdmitting(mem: seq<byte>, at: nat, len: nat, k: nat, caller: seq<byte>,
                                          systemServices: seq<seq<byte>>)
    requires at + len <= |mem| && len % UUID_SIZE == 0 && k < len / UUID_SIZE
    requires EntryInside(mem, at, k) && AdmitsAt(mem, at, k, caller, systemServices)
    ensures OwnerAdmits(mem, at, len, caller, systemServices)
  {
    hide AdmitsAt;
    if j: nat :| j < k && EntryInside(mem, at, j) && AdmitsAt(mem, at, j, caller, systemServices) {
      FirstAdmitting(mem, at, len, j, caller, systemServices);
    } else {
      assert LooksAt(mem, at, len, k, caller, systemServices);
    }
  }

  // ---- get_tlv_msg ----

  /** The items after item j's value was read with the clear flag. */
  function Cleared(items: seq<Item>, j: nat): seq<Item>
    requires j < |items|
  {
    items[j := items[j].(value := Zeros(|items[j].value|))]
  }

  /** Offset of item j's value among the items. */
  function ValueAt(items: seq<Item>, j: nat): nat
    requires j < |items|
  {
    Total(items[..j]) + ITEM_HEADER_SIZE + |items[j].owner|
  }

  lemma {:induction false} EncodeConcat(a: seq<Item>, b: seq<Item>)
    requires AllWellFormed(a) && AllWellFormed(b)
    ensures AllWellFormed(a + b) && Total(a + b) == Total(a) + Total(b)
    ensures EncodeItems(a + b) == EncodeItems(a) + EncodeItems(b)
  {
    hide EncodeItem, EncodeItems, Total, AllWellFormed, Size;
    if b == [] {
      assert a + b == a;
      NoItems();
      assert EncodeItems(a) + [] == EncodeItems(a);
    } else {
      var front, last := b[..|b| - 1], b[|b| - 1];
      FrontAndLast(b);
      EncodeConcat(a, front);
      assert a + b == (a + front) + [last];
      ItemsSnoc(a + front, last);
      Assoc(EncodeItems(a), EncodeItems(front), EncodeItem(last));
    }
  }

  lemma NoItems()
    ensures AllWellFormed([]) && Total([]) == 0 && EncodeItems([]) == []
  {
  }

  lemma FrontAndLast(items: seq<Item>)
    requires AllWellFormed(items) && items != []
    ensures var front, last := items[..|items| - 1], items[|items| - 1];
      && AllWellFormed(front) && WellFormed(last) && Total(items) == Total(front) + Size(last)
      && EncodeItems(items) == EncodeItems(front) + EncodeItem(last)
  {
    hide EncodeItem, Size;
  }

  lemma Assoc(a: seq<byte>, b: seq<byte>, c: seq<byte>)
    ensures a + b + c == a + (b + c)
  {
  }

  /** The items around one item. */
  lemma Around(pre: seq<Item>, it: Item, post: seq<Item>)
    requires AllWellFormed(pre) && WellFormed(it) && AllWellFormed(post)
    ensures AllWellFormed(pre + [it] + post) && Total(pre + [it] + post) == Total(pre) + Size(it) + Total(post)
    ensures EncodeItems(pre + [it] + post) == EncodeItems(pre) + (EncodeItem(it) + EncodeItems(post))
  {
    hide EncodeItem, EncodeItems, Total, AllWellFormed, Size;
    ItemsSnoc(pre, it);
    EncodeConcat(pre + [it], post);
    Assoc(EncodeItems(pre), EncodeItem(it), EncodeItems(post));
  }

  lemma ClearedItems(items: seq<Item>, j: nat)
    requires AllWellFormed(items) && j < |items| && items[j].value != []
    ensures AllWellFormed(Cleared(items, j)) && Total(Cleared(items, j)) == Total(items)
    ensures ValueAt(items, j) + |items[j].value| <= Total(items)
    ensures EncodeItems(Cleared(items, j)) == Splice(EncodeItems(items), ValueAt(items, j), Zeros(|items[j].value|))
  {
    hide EncodeItem, EncodeItems, Total, AllWellFormed, Splice, Zeros;
    var pre, it, post := items[..j], items[j], items[j + 1..];
    var it' := it.(value := Zeros(|it.value|));
    PiecesWellFormed(items, j);
    assert items == pre + [it] + post && Cleared(items, j) == pre + [it'] + post;
    Around(pre, it, post);
    Around(pre, it', post);
    ClearedItem(it);
    SpliceMiddle(EncodeItems(pre), EncodeItem(it), EncodeItems(post), ITEM_HEADER_SIZE + |it.owner|, Zeros(|it.value|));
  }

  lemma PiecesWellFormed(items: seq<Item>, j: nat)
    requires AllWellFormed(items) && j < |items|
    ensures AllWellFormed(items[..j]) && AllWellFormed(items[j + 1..]) && WellFormed(items[j])
  {
  }

  lemma SpliceMiddle(a: seq<byte>, b: seq<byte>, c: seq<byte>, at: nat, bytes: seq<byte>)
    requires at + |bytes| <= |b|
    ensures Splice(a + (b + c), |a| + at, bytes) == a + (Splice(b, at, bytes) + c)
  {
  }

  lemma ClearedItem(it: Item)
    requires WellFormed(it) && it.value != []
    ensures EncodeItem(it.(value := Zeros(|it.value|)))
         == Splice(EncodeItem(it), ITEM_HEADER_SIZE + |it.owner|, Zeros(|it.value|))
  {
    hide ToLe, Le, Pad;
    var it' := it.(value := Zeros(|it.value|));
    assert ItemHeader(it') == ItemHeader(it);
    hide ItemHeader;
  }

  lemma SpliceBack(a: seq<byte>, b: seq<byte>, at: nat, bytes: seq<byte>)
    requires at + |bytes| <= |b|
    ensures Splice(a + b, |a| + at, bytes) == a + Splice(b, at, bytes)
  {
  }

  /** Clearing a value leaves a table, the same but for that value. */
  lemma ClearHolds(mem: seq<byte>, items: seq<Item>, j: nat)
    requires Holds(mem, items) && j < |items| && items[j].value != []
    ensures var at := PosOf(items, j) + ITEM_HEADER_SIZE + |items[j].owner|;
      at + |items[j].value| <= |mem| && Holds(Splice(mem, at, Zeros(|items[j].value|)), Cleared(items, j))
  {
    hide EncodeItem, EncodeItems, Header, Total, AllWellFormed, Zeros, Splice;
    ClearedItems(items, j);
    var at, bytes := ValueAt(items, j), Zeros(|items[j].value|);
    var h, e := Header(|items|, Total(items)), EncodeItems(items);
    SpliceBack(h, e, at, bytes);
    SplicePrefix(h + e, mem, HEADER_SIZE + at, bytes);
  }

  lemma SplicePrefix(table: seq<byte>, mem: seq<byte>, at: nat, bytes: seq<byte>)
    requires table <= mem && at + |bytes| <= |table|
    ensures Splice(table, at, bytes) <= Splice(mem, at, bytes)
  {
  }

  /** The header passes the checks of get_tlv_msg. */
  predicate GoodHeader(mem: seq<byte>, size: nat)
    requires HEADER_SIZE <= |mem|
  {
    WordAt(mem, 0) == MAGIC && WordAt(mem, 8) + HEADER_SIZE <= size
  }

  /** Where the value of the item at `pos` starts, and where it ends. */
  function ValueStart(mem: seq<byte>, pos: nat): nat
    requires pos + ITEM_HEADER_SIZE <= |mem|
  {
    pos + ITEM_HEADER_SIZE + OwnerLen(mem, pos)
  }

  function ValueEnd(mem: seq<byte>, pos: nat): nat
    requires pos + ITEM_HEADER_SIZE <= |mem|
  {
    ValueStart(mem, pos) + ValueLen(mem, pos)
  }

  /**
    get_tlv_msg, once the item is found. A bounds-checked copy of nothing fails if there is no room
    at all, and clearing nothing fails.
   */
  ghost function CopyStatus(mem: seq<byte>, pos: nat, capacity: nat, uuidCheck: bool, caller: seq<byte>,
                            systemServices: seq<seq<byte>>, clear: bool): Status
    requires pos + ITEM_HEADER_SIZE <= |mem|
  {
    var at, len := pos + ITEM_HEADER_SIZE, ValueLen(mem, pos);
    if uuidCheck && OwnerLeaves(mem, at, OwnerLen(mem, pos), caller, systemServices) then OutOfBounds
    else if uuidCheck && !OwnerAdmits(mem, at, OwnerLen(mem, pos), caller, systemServices) then AccessDenied
    else if len > capacity then BadParameters
    else if len == 0 then (if capacity == 0 || clear then Generic else Success)
    else if ValueEnd(mem, pos) > |mem| then OutOfBounds
    else Success
  }

  /** The value is copied out, and zeroed in place if asked. */
  ghost predicate Delivered(was: seq<byte>, now: seq<byte>, pos: nat, clear: bool, out: seq<byte>)
    requires pos + ITEM_HEADER_SIZE <= |was|
  {
    var from, len := ValueStart(was, pos), ValueLen(was, pos);
    if len == 0 then out == [] && now == was
    else
      && from + len <= |was| && out == was[from..from + len]
      && now == if clear then Splice(was, from, Zeros(len)) else was
  }

  method CopyOut(mem: array<byte>, pos: nat, capacity: nat, uuidCheck: bool, caller: seq<byte>,
                 systemServices: seq<seq<byte>>, clear: bool) returns (status: Status, out: seq<byte>)
    requires pos + ITEM_HEADER_SIZE <= mem.Length
    modifies mem
    ensures status == CopyStatus(old(mem[..]), pos, capacity, uuidCheck, caller, systemServices, clear)
    ensures if status == Success then Delivered(old(mem[..]), mem[..], pos, clear, out) else mem[..] == old(mem[..])
  {
    hide WordAt, OwnerAdmits, OwnerLeaves, Splice;
    out := [];
    var len, uuidLen := ValueLen(mem[..], pos), OwnerLen(mem[..], pos);
    var value := pos + ITEM_HEADER_SIZE;
    if uuidCheck {
      var access := ShareMemUuidCheck(mem, value, uuidLen, caller, systemServices);
      if access != Admitted {
        return if access.Denied? then AccessDenied else OutOfBounds, out;
      }
    }
    if len > capacity {
      return BadParameters, out;
    }
    if len == 0 {
      return if capacity == 0 || clear then Generic else Success, out;
    }
    if value + uuidLen + len > mem.Length {
      return OutOfBounds, out;
    }
    out := mem[..][value + uuidLen..value + uuidLen + len];
    if clear {
      WriteBytes(mem, value + uuidLen, Zeros(len));
    }
    return Success, out;
  }

  predicate GoodQuery(query: seq<byte>) { 0 < |query| <= MAX_TAG_LEN }

  /** What the table says a caller gets. */
  ghost predicate TableAnswer(items: seq<Item>, query: seq<byte>, capacity: nat, uuidCheck: bool, caller: seq<byte>,
                              systemServices: seq<seq<byte>>, clear: bool, status: Status, out: seq<byte>, now: seq<byte>)
    requires AllWellFormed(items)
  {
    match Lookup(items, query)
    case None => status == NoData
    case Some(j) =>
      if uuidCheck && !Allowed(items[j].owner, caller, systemServices) then status == AccessDenied
      else if |items[j].value| > capacity then status == BadParameters
      else status == Success && out == Stored(items[j]) && (clear ==> Holds(now, Cleared(items, j)))
  }

  /**
    get_tlv_msg, over any memory of at least `size` bytes. If the loader's table is in it, the
    answer is what the table says, and no access leaves the memory.
   */
  method GetTlvMsg(mem: array<byte>, size: nat, query: seq<byte>, capacity: nat, uuidCheck: bool,
                   caller: seq<byte>, systemServices: seq<seq<byte>>, clear: bool, ghost items: seq<Item>)
    returns (status: Status, out: seq<byte>)
    requires HEADER_SIZE <= mem.Length && size <= mem.Length
    modifies mem
    ensures |query| == 0 || |query| > 32 ==> status == BadParameters
    ensures 0 < |query| <= 32 && (WordAt(old(mem[..]), 0) != MAGIC || WordAt(old(mem[..]), 8) + 12 > size) ==>
      status == ErrorData
    ensures GoodQuery(query) <==> 0 < |query| <= 32
    ensures GoodHeader(old(mem[..]), size) <==> WordAt(old(mem[..]), 0) == MAGIC && WordAt(old(mem[..]), 8) + 12 <= size
    ensures GoodQuery(query) && GoodHeader(old(mem[..]), size) ==>
      var was := old(mem[..]);
      match Walk(was, WordAt(was, 4), 0, WordAt(was, 8), query)
      case Fault => status == OutOfBounds
      case Done(None) => status == NoData
      case Done(Some(pos)) =>
        && pos + ITEM_HEADER_SIZE <= |was|
        && status == CopyStatus(was, pos, capacity, uuidCheck, caller, systemServices, clear)
        && (status == Success ==> Delivered(was, mem[..], pos, clear, out))
    ensures GoodQuery(query) && GoodHeader(old(mem[..]), size) && Holds(old(mem[..]), items) ==>
      TableAnswer(items, query, capacity, uuidCheck, caller, systemServices, clear, status, out, mem[..])
    ensures status != Success || !clear ==> mem[..] == old(mem[..])
  {
    out := [];
    if |query| == 0 || |query| > MAX_TAG_LEN {
      return BadParameters, out;
    }
    ghost var was := mem[..];
    hide WordAt, Holds, Walk, CopyStatus, Delivered, TableAnswer;
    if WordAt(mem[..], 0) != MAGIC {
      return ErrorData, out;
    }
    if WordAt(mem[..], 8) + HEADER_SIZE > size {
      return ErrorData, out;
    }
    var found := ShareMemTlvFind(mem, query);
    if found.Fault? {
      if Holds(was, items) {
        Found(was, items, query);
      }
      return OutOfBounds, out;
    }
    if found.item.None? {
      if Holds(was, items) {
        Found(was, items, query);
        NothingAnswer(items, query, capacity, uuidCheck, caller, systemServices, clear, out, was);
      }
      return NoData, out;
    }
    FoundHeader(was, WordAt(was, 4), 0, WordAt(was, 8), query);
    status, out := CopyOut(mem, found.item.value, capacity, uuidCheck, caller, systemServices, clear);
    NotClearing(was, mem[..], found.item.value, clear, status, out);
    if Holds(was, items) {
      Found(was, items, query);
      ghost var j := Lookup(items, query).value;
      assert WellFormed(items[j]);
      TableAnswers(was, items, j, query, capacity, uuidCheck, caller, systemServices, clear, status, out, mem[..]);
    }
  }

  lemma NotClearing(was: seq<byte>, now: seq<byte>, pos: nat, clear: bool, status: Status, out: seq<byte>)
    requires pos + ITEM_HEADER_SIZE <= |was|
    requires if status == Success then Delivered(was, now, pos, clear, out) else now == was
    ensures status != Success || !clear ==> now == was
  {
  }

  lemma NothingAnswer(items: seq<Item>, query: seq<byte>, capacity: nat, uuidCheck: bool, caller: seq<byte>,
                      systemServices: seq<seq<byte>>, clear: bool, out: seq<byte>, now: seq<byte>)
    requires AllWellFormed(items) && Lookup(items, query).None?
    ensures TableAnswer(items, query, capacity, uuidCheck, caller, systemServices, clear, NoData, out, now)
  {
  }

  /** An item that the walk finds has its header in the memory. */
  lemma {:induction false} FoundHeader(mem: seq<byte>, left: nat, len: nat, total: nat, query: seq<byte>)
    requires Walk(mem, left, len, total, query).Done? && Walk(mem, left, len, total, query).item.Some?
    ensures Walk(mem, left, len, total, query).item.value + ITEM_HEADER_SIZE <= |mem|
    decreases left
  {
    hide Passes, Matches, NextLen;
    if HeaderInside(mem, len) && Passes(mem, len, total) && !Matches(mem, len, query) {
      FoundHeader(mem, left - 1, NextLen(mem, len), total, query);
    }
  }

  /** An item that lies in the memory as a whole is answered with its own value. */
  lemma ItemAnswers(was: seq<byte>, pos: nat, it: Item, capacity: nat, uuidCheck: bool, caller: seq<byte>,
                    systemServices: seq<seq<byte>>, clear: bool, status: Status, out: seq<byte>, now: seq<byte>)
    requires WellFormed(it) && it.value != [] && pos + Size(it) <= |was| && ReadsAs(was, pos, it)
    requires status == CopyStatus(was, pos, capacity, uuidCheck, caller, systemServices, clear)
    requires status == Success ==> Delivered(was, now, pos, clear, out)
    ensures
      if uuidCheck && !Allowed(it.owner, caller, systemServices) then status == AccessDenied
      else if |it.value| > capacity then status == BadParameters
      else
        && status == Success && out == Stored(it)
        && (clear ==> now == Splice(was, pos + ITEM_HEADER_SIZE + |it.owner|, Zeros(|it.value|)))
  {
    OwnerInside(was, pos + ITEM_HEADER_SIZE, |it.owner|, caller, systemServices);
    hide Allowed, OwnerAdmits, OwnerLeaves, Stored, Splice, Zeros, ValueCheck, WordAt, Pad;
  }

  /** Over a table the item found is all in the memory, so that the answer is the table's. */
  lemma TableAnswers(was: seq<byte>, items: seq<Item>, j: nat, query: seq<byte>, capacity: nat, uuidCheck: bool,
                     caller: seq<byte>, systemServices: seq<seq<byte>>, clear: bool, status: Status, out: seq<byte>,
                     now: seq<byte>)
    requires AllWellFormed(items) && Lookup(items, query) == Some(j) && Holds(was, items) && j < |items|
    requires WellFormed(items[j]) && items[j].value != []
    requires PosOf(items, j) + Size(items[j]) <= |was| && ReadsAs(was, PosOf(items, j), items[j])
    requires status == CopyStatus(was, PosOf(items, j), capacity, uuidCheck, caller, systemServices, clear)
    requires status == Success ==> Delivered(was, now, PosOf(items, j), clear, out)
    ensures TableAnswer(items, query, capacity, uuidCheck, caller, systemServices, clear, status, out, now)
  {
    hide Holds, Allowed, CopyStatus, Delivered, ReadsAs, Stored, Splice, PosOf, Lookup, Cleared, Total, Zeros, Size;
    hide SameName, Pad, AllWellFormed, Table, EncodeItems, WellFormed, Fits32;
    ClearHolds(was, items, j);
    ItemAnswers(was, PosOf(items, j), items[j], capacity, uuidCheck, caller, systemServices, clear, status, out, now);
  }

  // ---- memory that no loader wrote ----

  /** The 32-bit sum of the lengths of the item at `pos` wraps. */
  predicate Wraps(mem: seq<byte>, pos: nat)
    requires HEADER_SIZE <= pos && pos + ITEM_HEADER_SIZE <= |mem|
  {
    (pos - HEADER_SIZE) + ITEM_HEADER_SIZE + OwnerLen(mem, pos) + ValueLen(mem, pos) >= UINT32_LIMIT
  }

  /** In a memory of 32-bit size, an item that the walk finds ends outside it iff its length sum wraps. */
  lemma {:induction false} FoundOutsideIffWraps(mem: seq<byte>, left: nat, len: nat, total: nat, query: seq<byte>)
    requires HEADER_SIZE + total <= |mem| < UINT32_LIMIT
    requires Walk(mem, left, len, total, query).Done? && Walk(mem, left, len, total, query).item.Some?
    ensures var pos := Walk(mem, left, len, total, query).item.value;
      && HEADER_SIZE <= pos && pos + ITEM_HEADER_SIZE <= |mem|
      && (ValueEnd(mem, pos) > |mem| <==> Wraps(mem, pos))
    decreases left
  {
    hide WordAt, ValueCheck, Matches;
    if HeaderInside(mem, len) && Passes(mem, len, total) && !Matches(mem, len, query) {
      FoundOutsideIffWraps(mem, left - 1, NextLen(mem, len), total, query);
    }
  }

  /** So an item that the walk found is left iff its sum wraps and its bytes behind the end are asked for. */
  lemma CopyLeavesIff(mem: seq<byte>, left: nat, total: nat, query: seq<byte>, capacity: nat, uuidCheck: bool,
                      caller: seq<byte>, systemServices: seq<seq<byte>>, clear: bool)
    requires HEADER_SIZE + total <= |mem| < UINT32_LIMIT
    requires Walk(mem, left, 0, total, query).Done? && Walk(mem, left, 0, total, query).item.Some?
    ensures var pos := Walk(mem, left, 0, total, query).item.value;
      && HEADER_SIZE <= pos && pos + ITEM_HEADER_SIZE <= |mem|
      && var at, o, v := pos + ITEM_HEADER_SIZE, OwnerLen(mem, pos), ValueLen(mem, pos);
         (CopyStatus(mem, pos, capacity, uuidCheck, caller, systemServices, clear) == OutOfBounds <==>
            && Wraps(mem, pos)
            && (|| (uuidCheck && OwnerLeaves(mem, at, o, caller, systemServices))
                || ((uuidCheck ==> OwnerAdmits(mem, at, o, caller, systemServices)) && 0 < v <= capacity)))
  {
    FoundOutsideIffWraps(mem, left, 0, total, query);
    var pos := Walk(mem, left, 0, total, query).item.value;
    var at, o := pos + ITEM_HEADER_SIZE, OwnerLen(mem, pos);
    if !Wraps(mem, pos) {
      OwnerInside(mem, at, o, caller, systemServices);
    }
    hide Walk, OwnerLeaves, WordAt, Allowed;
    LeavesOrAdmits(mem, at, o, caller, systemServices);
  }

  /** A list cannot both admit the caller and be left: the first of the two ends the search. */
  lemma LeavesOrAdmits(mem: seq<byte>, at: nat, len: nat, caller: seq<byte>, systemServices: seq<seq<byte>>)
    ensures !(OwnerLeaves(mem, at, len, caller, systemServices) && OwnerAdmits(mem, at, len, caller, systemServices))
  {
    hide AdmitsAt;
  }

  /** One item of 2^32 - 44 bytes in a memory of 56: it is found, and a large enough request leaves the memory. */
  lemma WrapHappens(name: seq<byte>, caller: seq<byte>, systemServices: seq<seq<byte>>)
    requires MIN_TAG_LEN <= |name| < MAX_TAG_LEN && NulFree(name)
    ensures var len := UINT32_LIMIT - ITEM_HEADER_SIZE;
      var mem := Header(1, ITEM_HEADER_SIZE) + (Pad(name) + ToLe(0) + ToLe(len) + ToLe(Add32(MAGIC, len)));
      && GoodHeader(mem, |mem|)
      && Walk(mem, WordAt(mem, 4), 0, WordAt(mem, 8), name) == Done(Some(HEADER_SIZE))
      && CopyStatus(mem, HEADER_SIZE, len, false, caller, systemServices, false) == OutOfBounds
  {
    var len := UINT32_LIMIT - ITEM_HEADER_SIZE;
    hide ToLe, Le, Pad;
    var h := Header(1, ITEM_HEADER_SIZE);
    assert h[0..4] == ToLe(MAGIC) && h[4..8] == ToLe(1) && h[8..12] == ToLe(ITEM_HEADER_SIZE);
    var e := Pad(name) + ToLe(0) + ToLe(len) + ToLe(Add32(MAGIC, len));
    assert e[..32] == Pad(name) && e[32..36] == ToLe(0) && e[36..40] == ToLe(len) && e[40..44] == ToLe(Add32(MAGIC, len));
    hide Header;
    var mem := h + e;
    assert mem[0..4] == h[0..4] && mem[4..8] == h[4..8] && mem[8..12] == h[8..12];
    assert mem[12..44] == e[..32] && mem[44..48] == e[32..36] && mem[48..52] == e[36..40] && mem[52..56] == e[40..44];
    SameNameIsEquality(name, name);
  }

  lemma TotalOfNone(items: seq<Item>)
    ensures Total(items[..0]) == 0
  {
    assert items[..0] == [];
  }

  /** The reader's find over a table, with everything its caller then relies on. */
  lemma Found(mem: seq<byte>, items: seq<Item>, query: seq<byte>)
    requires Holds(mem, items)
    ensures |mem| >= HEADER_SIZE && HEADER_SIZE + WordAt(mem, 8) <= |mem|
    ensures var r := Walk(mem, WordAt(mem, 4), 0, WordAt(mem, 8), query);
      && Fits32(items) && r.Done?
      && (r.item.None? <==> Lookup(items, query).None?)
      && (r.item.Some? ==> var j, pos := Lookup(items, query).value, r.item.value;
            pos == PosOf(items, j) && items[j].value != []
            && pos + Size(items[j]) <= |mem| && ReadsAs(mem, pos, items[j]))
  {
    hide WordAt, ReadsAs, EncodeItem, Table, Total, Walk, Size, SameName, Pad, LookupFrom;
    TotalOfNone(items);
    HeaderReads(mem, items);
    WalkOnTable(mem, items, 0, query);
    if Lookup(items, query).Some? {
      var j := Lookup(items, query).value;
      ItemInMemory(mem, items, j);
      Fields(mem, PosOf(items, j), items[j]);
    }
  }

  /** What the loader leaves in its share memory passes the driver's checks, in a copy of exactly its size. */
  lemma WrittenIsRead(mem: seq<byte>, items: seq<Item>)
    requires Holds(mem, items)
    ensures HEADER_SIZE <= |mem| && GoodHeader(mem, |mem|)
  {
    hide Table, WordAt, Total;
    HeaderReads(mem, items);
  }

  /** The value read is the value put, except that an empty owner list leaves zeros in its place. */
  lemma StoredIff(it: Item)
    ensures Stored(it) == it.value <==> it.owner != [] || forall i :: 0 <= i < |it.value| ==> it.value[i] == 0
  {
    if it.owner == [] && forall i :: 0 <= i < |it.value| ==> it.value[i] == 0 {
      assert it.value == Zeros(|it.value|);
    }
  }
}
