/** Boot share memory: the table of named items that the loader writes and a driver reads. */
module TlvLayout {
  import opened Bytes
  import opened Options

  const MAGIC: nat := 0xfd544c56
  const HEADER_SIZE: nat := 12      // magic, tlv_num, total_len
  const ITEM_HEADER_SIZE: nat := 44 // type[32], owner_len, length, magic
  const MAX_TAG_LEN: nat := 32
  const MIN_TAG_LEN: nat := 3
  const UUID_SIZE: nat := 16

  /** One tlv_item_data as handed to put_tlv_shared_mem. */
  datatype Item = Item(name: seq<byte>, owner: seq<byte>, value: seq<byte>)

  function Size(it: Item): (n: nat) { ITEM_HEADER_SIZE + |it.owner| + |it.value| }

  predicate WellFormed(it: Item) {
    && MIN_TAG_LEN <= |it.name| < MAX_TAG_LEN && |it.owner| % UUID_SIZE == 0
    && Size(it) < UINT32_LIMIT
  }

  function Pad(name: seq<byte>): (r: seq<byte>)
    requires |name| <= MAX_TAG_LEN
    ensures |r| == MAX_TAG_LEN
  {
    name + Zeros(MAX_TAG_LEN - |name|)
  }

  /**
    The bytes that end up behind the owner list. With an empty owner list the loader's first
    memcpy_s has a destination of size zero and fails, so the value is not copied.
   */
  function Stored(it: Item): (r: seq<byte>)
    ensures |r| == |it.value|
  {
    if it.owner == [] then Zeros(|it.value|) else it.value
  }

  function ItemHeader(it: Item): (r: seq<byte>)
    requires WellFormed(it)
    ensures |r| == ITEM_HEADER_SIZE
  {
    Pad(it.name) + ToLe(|it.owner|) + ToLe(|it.value|) + ToLe(Add32(MAGIC, |it.value| + |it.owner|))
  }

  /** An item as it lies in memory; one with an empty value is left zeroed. */
  function EncodeItem(it: Item): (r: seq<byte>)
    requires WellFormed(it)
    ensures |r| == Size(it)
  {
    if it.value == [] then Zeros(Size(it)) else ItemHeader(it) + it.owner + Stored(it)
  }

  ghost predicate AllWellFormed(items: seq<Item>) { forall i :: 0 <= i < |items| ==> WellFormed(items[i]) }

  function Total(items: seq<Item>): nat {
    if items == [] then 0 else Total(items[..|items| - 1]) + Size(items[|items| - 1])
  }

  function EncodeItems(items: seq<Item>): (r: seq<byte>)
    requires AllWellFormed(items)
    ensures |r| == Total(items)
  {
    if items == [] then [] else EncodeItems(items[..|items| - 1]) + EncodeItem(items[|items| - 1])
  }

  function Header(num: nat, total: nat): (r: seq<byte>)
    requires num < UINT32_LIMIT && total < UINT32_LIMIT
    ensures |r| == HEADER_SIZE
  {
    ToLe(MAGIC) + ToLe(num) + ToLe(total)
  }

  ghost predicate Fits32(items: seq<Item>) {
    AllWellFormed(items) && Total(items) < UINT32_LIMIT && |items| < UINT32_LIMIT
  }

  /** The whole table: header, then the items. */
  function Table(items: seq<Item>): (r: seq<byte>)
    requires Fits32(items)
    ensures |r| == HEADER_SIZE + Total(items)
  {
    Header(|items|, Total(items)) + EncodeItems(items)
  }

  /** The table of these items is what the memory starts with. */
  ghost predicate Holds(mem: seq<byte>, items: seq<Item>) { Fits32(items) && Table(items) <= mem }

  lemma ItemsSnoc(items: seq<Item>, it: Item)
    requires AllWellFormed(items) && WellFormed(it)
    ensures AllWellFormed(items + [it])
    ensures Total(items + [it]) == Total(items) + Size(it)
    ensures EncodeItems(items + [it]) == EncodeItems(items) + EncodeItem(it)
  {
    hide EncodeItem, Size;
    assert (items + [it])[..|items|] == items;
  }

  lemma {:induction false} CountBelowTotal(items: seq<Item>)
    ensures ITEM_HEADER_SIZE * |items| <= Total(items)
  {
    if items != [] {
      CountBelowTotal(items[..|items| - 1]);
    }
  }

  lemma {:induction false} TotalMonotone(items: seq<Item>, i: nat)
    requires i <= |items|
    ensures Total(items[..i]) <= Total(items)
    ensures i < |items| ==> Total(items[..i + 1]) == Total(items[..i]) + Size(items[i]) <= Total(items)
  {
    if i == |items| {
      assert items[..i] == items;
    } else {
      var front := items[..|items| - 1];
      TotalMonotone(front, i);
      assert front[..i] == items[..i];
      if i + 1 < |items| {
        assert front[..i + 1] == items[..i + 1];
      } else {
        assert items[..i + 1] == items && front == items[..i];
      }
    }
  }

  lemma PrefixSlice(a: seq<byte>, b: seq<byte>, at: nat, n: nat)
    requires at + n <= |a|
    ensures (a + b)[at..at + n] == a[at..at + n]
  {
  }

  /** Item i lies behind the items before it. */
  lemma {:induction false} ItemAt(items: seq<Item>, i: nat)
    requires AllWellFormed(items) && i < |items|
    ensures var at := Total(items[..i]);
      && at + Size(items[i]) <= Total(items)
      && EncodeItems(items)[at..at + Size(items[i])] == EncodeItem(items[i])
  {
    hide EncodeItem, Size;
    var front, last := items[..|items| - 1], items[|items| - 1];
    TotalMonotone(items, i);
    assert EncodeItems(items) == EncodeItems(front) + EncodeItem(last);
    if i < |front| {
      ItemAt(front, i);
      assert front[..i] == items[..i];
      hide EncodeItems, Total;
      PrefixSlice(EncodeItems(front), EncodeItem(last), Total(items[..i]), Size(items[i]));
    } else {
      assert items[..i] == front;
    }
  }

  // ---- names ----

  /** strnlen over the whole field */
  function StrNLen(s: seq<byte>): (n: nat)
    ensures n <= |s| && (n < |s| ==> s[n] == 0) && forall i :: 0 <= i < n ==> s[i] != 0
  {
    if s == [] || s[0] == 0 then 0 else 1 + StrNLen(s[1..])
  }

  /** The reader's comparison of a stored name field with the name asked for. */
  predicate SameName(field: seq<byte>, query: seq<byte>)
    requires |field| == MAX_TAG_LEN
  {
    |query| <= MAX_TAG_LEN && field[..|query|] == query && StrNLen(field) <= |query|
  }

  ghost predicate NulFree(s: seq<byte>) { forall i :: 0 <= i < |s| ==> s[i] != 0 }

  /** For plain names the comparison is equality: never a prefix, in either direction. */
  lemma SameNameIsEquality(name: seq<byte>, query: seq<byte>)
    requires MIN_TAG_LEN <= |name| < MAX_TAG_LEN && NulFree(name) && NulFree(query)
    ensures SameName(Pad(name), query) <==> query == name
  {
    var field := Pad(name);
    assert field[|name|] == 0;
    assert forall i :: 0 <= i < |name| ==> field[i] == name[i] != 0;
    assert StrNLen(field) == |name|;
    assert field[..|name|] == name;
    if SameName(field, query) {
      assert forall i :: 0 <= i < |query| ==> field[i] == query[i] != 0;
    }
  }

  /** The item a reader finds: it gives up at an item with an empty value, whose magic is missing. */
  function Lookup(items: seq<Item>, query: seq<byte>): (r: Option<nat>)
    requires AllWellFormed(items)
    ensures r.Some? ==> r.value < |items| && items[r.value].value != [] && SameName(Pad(items[r.value].name), query)
  {
    LookupFrom(items, 0, query)
  }

  function LookupFrom(items: seq<Item>, i: nat, query: seq<byte>): (r: Option<nat>)
    requires AllWellFormed(items) && i <= |items|
    ensures r.Some? ==> i <= r.value < |items| && items[r.value].value != [] && SameName(Pad(items[r.value].name), query)
    ensures r.Some? ==> forall k :: i <= k < r.value ==> items[k].value != [] && !SameName(Pad(items[k].name), query)
    ensures r.None? && (forall k :: i <= k < |items| ==> items[k].value != []) ==>
      forall k :: i <= k < |items| ==> !SameName(Pad(items[k].name), query)
    decreases |items| - i
  {
    if i == |items| || items[i].value == [] then None
    else if SameName(Pad(items[i].name), query) then Some(i)
    else LookupFrom(items, i + 1, query)
  }

  /** With plain names and no empty value, a reader finds the first item put under exactly that name. */
  lemma LookupIsFirst(items: seq<Item>, query: seq<byte>)
    requires AllWellFormed(items) && NulFree(query)
    requires forall k :: 0 <= k < |items| ==> NulFree(items[k].name) && items[k].value != []
    ensures Lookup(items, query).None? <==> forall k :: 0 <= k < |items| ==> items[k].name != query
    ensures forall j: nat :: j < |items| ==>
      (Lookup(items, query) == Some(j) <==>
         items[j].name == query && forall k :: 0 <= k < j ==> items[k].name != query)
  {
    forall k | 0 <= k < |items|
      ensures SameName(Pad(items[k].name), query) <==> query == items[k].name
    {
      SameNameIsEquality(items[k].name, query);
    }
  }

  /** In general an item j is found iff it is the first match and no item up to j has an empty value. */
  lemma LookupIff(items: seq<Item>, query: seq<byte>, j: nat)
    requires AllWellFormed(items) && j < |items|
    ensures Lookup(items, query) == Some(j) <==>
      && SameName(Pad(items[j].name), query)
      && (forall k :: 0 <= k < j ==> !SameName(Pad(items[k].name), query))
      && (forall k :: 0 <= k <= j ==> items[k].value != [])
  {
    var r := Lookup(items, query);
    if r.None? {
      EmptyStops(items, 0, query);
    }
  }

  /** Nothing found means: an item with an empty value comes before any match, or there is no match. */
  lemma {:induction false} EmptyStops(items: seq<Item>, i: nat, query: seq<byte>)
    requires AllWellFormed(items) && i <= |items| && LookupFrom(items, i, query).None?
    ensures forall j :: i <= j < |items| && SameName(Pad(items[j].name), query) ==>
      exists k :: i <= k <= j && items[k].value == []
    decreases |items| - i
  {
    if i < |items| && items[i].value != [] {
      EmptyStops(items, i + 1, query);
    }
  }
}
