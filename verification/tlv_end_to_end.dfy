/** Boot share memory: the loader's program and the driver's program, one after the other. */
module TlvEndToEnd {
  import opened Bytes
  import opened Options
  import opened TlvLayout
  import TlvWriter
  import TlvReader

  /** Items as the loader's callers put them: plain names, something to say and someone to say it to. */
  ghost predicate Plain(its: seq<Item>) {
    forall i :: 0 <= i < |its| ==>
      WellFormed(its[i]) && NulFree(its[i].name) && its[i].value != [] && its[i].owner != []
  }

  lemma {:induction false} PrefixFits(its: seq<Item>, i: nat)
    requires i < |its|
    ensures Total(its[..i]) + Size(its[i]) <= Total(its) && its[..i + 1] == its[..i] + [its[i]]
  {
    TotalMonotone(its, i);
  }

  /** The loader puts the items one by one; all of them fit. */
  method Boot(its: seq<Item>, size: nat) returns (table: TlvWriter.TlvTable)
    requires Plain(its) && HEADER_SIZE + Total(its) <= size < UINT32_LIMIT
    ensures fresh(table) && fresh(table.mem) && table.Valid() && table.mem.Length == size
    ensures table.items == its && (its != [] ==> table.started)
  {
    table := new TlvWriter.TlvTable(size);
    for i := 0 to |its|
      invariant fresh(table) && fresh(table.mem) && table.Valid() && table.mem.Length == size
      invariant table.items == its[..i] && (i > 0 ==> table.started)
    {
      PrefixFits(its, i);
      var ret := table.Put(its[i]);
    }
    assert its[..|its|] == its;
  }

  /** The kernel hands the driver a copy of exactly the loader's memory. */
  method CopyToDriver(table: TlvWriter.TlvTable) returns (mem: array<byte>)
    ensures fresh(mem) && mem[..] == table.mem[..]
  {
    var size := table.mem.Length;
    mem := new byte[size](i requires 0 <= i < size reads table, table.mem
      requires table.mem.Length == size => table.mem[i]);
  }

  /**
    What a caller of the driver gets for any name: the value of the first item put under exactly
    that name, if the owner list admits the caller and the buffer is large enough; NO_DATA if no
    item has that name. (Without any put the memory is untouched and the driver reads whatever is there.)
   */
  method BootAndRead(its: seq<Item>, size: nat, query: seq<byte>, capacity: nat, caller: seq<byte>,
                     systemServices: seq<seq<byte>>) returns (status: TlvReader.Status, out: seq<byte>)
    requires Plain(its) && its != [] && HEADER_SIZE + Total(its) <= size < UINT32_LIMIT
    requires 0 < |query| <= MAX_TAG_LEN && NulFree(query)
    ensures status == TlvReader.NoData <==> forall k :: 0 <= k < |its| ==> its[k].name != query
    ensures forall j: nat :: j < |its| && its[j].name == query && (forall k :: 0 <= k < j ==> its[k].name != query) ==>
      if !TlvReader.Allowed(its[j].owner, caller, systemServices) then status == TlvReader.AccessDenied
      else if |its[j].value| > capacity then status == TlvReader.BadParameters
      else status == TlvReader.Success && out == its[j].value
  {
    hide Holds, Lookup, Total, Pad, SameName, Size;
    hide TlvReader.Allowed, TlvReader.Walk, TlvReader.CopyStatus, TlvReader.Delivered;
    var table := Boot(its, size);
    var mem := CopyToDriver(table);
    TlvReader.WrittenIsRead(mem[..], its);
    LookupIsFirst(its, query);
    status, out := TlvReader.GetTlvMsg(mem, size, query, capacity, true, caller, systemServices, false, its);
  }
}
