/** Data pages of the bloom index: appending a tuple, the in-place compaction of a bulk delete, the
    scan of one page, and the index build. */
module BloomPages {
  import opened BloomTuple

  /** A heap row's address and its signature. */
  datatype Entry = Entry(tid: nat, sign: seq<bv16>)

  datatype Block = New | Meta | Data(deleted: bool, entries: seq<Entry>)
  {
    /** A page that holds nothing and may be taken over. */
    predicate Free() { New? || (Data? && deleted) }

    function Entries(): seq<Entry> { if Data? then entries else [] }
  }

  // ----- layout -----

  const BLCKSZ: nat := 8192
  const PAGE_HEADER: nat := 24
  const PAGE_OPAQUE: nat := 8
  const TUPLE_HEADER: nat := 6

  /** Bytes of a tuple with a signature of `words` words. */
  function TupleSize(words: nat): nat { TUPLE_HEADER + 2 * words }

  function FreeSpace(maxoff: nat, size: nat): int
  {
    BLCKSZ - PAGE_HEADER - maxoff * size - PAGE_OPAQUE
  }

  /** The most tuples of `size` bytes that a page can hold. */
  function Capacity(size: nat): nat
    requires size > 0
  {
    (BLCKSZ - PAGE_HEADER - PAGE_OPAQUE) / size
  }

  /** The free-space test admits a tuple exactly while the page is below its capacity, and then the
      tuple ends before the special space. */
  lemma FreeSpaceIsRoom(maxoff: nat, size: nat)
    requires size > 0
    ensures FreeSpace(maxoff, size) >= size <==> maxoff < Capacity(size)
    ensures maxoff <= Capacity(size) ==> PAGE_HEADER + maxoff * size <= BLCKSZ - PAGE_OPAQUE
  {
    var room := BLCKSZ - PAGE_HEADER - PAGE_OPAQUE;
    var c := Capacity(size);
    assert c * size <= room < (c + 1) * size;
    if maxoff < c {
      MulMono(maxoff + 1, c, size);
    } else {
      MulMono(c + 1, maxoff + 1, size);
    }
    if maxoff <= c {
      MulMono(maxoff, c, size);
    }
  }

  lemma MulMono(a: int, b: int, c: nat)
    requires a <= b
    ensures a * c <= b * c
  {
  }

  /** Every legal signature leaves room for at least one tuple on an empty page. */
  lemma EmptyPageHasRoom(words: nat)
    requires 1 <= words <= 256
    ensures Capacity(TupleSize(words)) >= 1
  {
    var size := TupleSize(words);
  }

  // ----- what the operations mean -----

  /** The block after an attempt to add `e`: a free page is initialised first. */
  function Added(block: Block, e: Entry): Block
  {
    Data(false, (if block.Free() then [] else block.Entries()) + [e])
  }

  function Fits(block: Block, capacity: nat): bool { block.Free() || |block.Entries()| < capacity }

  /** The entries that a bulk delete of the rows `dead` leaves, in their order. */
  function Kept(entries: seq<Entry>, dead: set<nat>): seq<Entry>
  {
    if entries == [] then []
    else
      var n := |entries| - 1;
      Kept(entries[..n], dead) + if entries[n].tid in dead then [] else [entries[n]]
  }

  function Dropped(entries: seq<Entry>, dead: set<nat>): multiset<Entry>
  {
    if entries == [] then multiset{}
    else
      var n := |entries| - 1;
      Dropped(entries[..n], dead) + if entries[n].tid in dead then multiset{entries[n]} else multiset{}
  }

  lemma {:induction false} KeptExact(entries: seq<Entry>, dead: set<nat>, e: Entry)
    ensures multiset(Kept(entries, dead))[e] == if e.tid in dead then 0 else multiset(entries)[e]
    ensures Dropped(entries, dead)[e] == if e.tid in dead then multiset(entries)[e] else 0
    ensures |Kept(entries, dead)| <= |entries|
  {
    if entries != [] {
      var n := |entries| - 1;
      KeptExact(entries[..n], dead, e);
      assert entries == entries[..n] + [entries[n]];
    }
  }

  /** Nothing else is lost: what is kept and what is dropped make up the page. */
  lemma KeptAndDropped(entries: seq<Entry>, dead: set<nat>)
    ensures multiset(Kept(entries, dead)) + Dropped(entries, dead) == multiset(entries)
  {
    forall e ensures (multiset(Kept(entries, dead)) + Dropped(entries, dead))[e] == multiset(entries)[e] {
      KeptExact(entries, dead, e);
    }
  }

  lemma KeptStep(entries: seq<Entry>, dead: set<nat>, i: nat)
    requires i < |entries|
    ensures Kept(entries[..i + 1], dead) ==
            Kept(entries[..i], dead) + if entries[i].tid in dead then [] else [entries[i]]
  {
    assert entries[..i + 1][..i] == entries[..i];
  }

  /** The block after a bulk delete: free pages are passed over, a page left empty is deleted. */
  function Cleaned(block: Block, dead: set<nat>): Block
  {
    if block.Data? && !block.deleted then
      var kept := Kept(block.entries, dead);
      Data(kept == [] && block.entries != [], kept)
    else block
  }

  ghost predicate Match(q: seq<bv16>, e: Entry) { |q| == |e.sign| && BitSubset(q, e.sign) }

  /** The entries of a page that a scan for `q` returns. */
  ghost function Matching(q: seq<bv16>, entries: seq<Entry>): seq<Entry>
  {
    if entries == [] then []
    else
      var n := |entries| - 1;
      Matching(q, entries[..n]) + if Match(q, entries[n]) then [entries[n]] else []
  }

  lemma {:induction false} MatchingExact(q: seq<bv16>, entries: seq<Entry>, e: Entry)
    ensures Match(q, e) ==> multiset(Matching(q, entries))[e] == multiset(entries)[e]
    ensures !Match(q, e) ==> e !in Matching(q, entries)
  {
    if entries != [] {
      var n := |entries| - 1;
      MatchingExact(q, entries[..n], e);
      assert entries == entries[..n] + [entries[n]];
    }
  }

  // ----- a page in a buffer -----

  /** Moves the entries that stay to the front of the first `end` slots; `left` counts them. */
  method Compact(slots: array<Entry>, end: nat, dead: set<nat>) returns (left: nat, to: nat)
    requires end <= slots.Length
    modifies slots
    ensures left == to <= end
    ensures slots[..to] == Kept(old(slots[..end]), dead)
  {
    ghost var all := slots[..end];
    left := end;
    var from := 0;
    to := 0;
    while from < end
      invariant to <= from <= end && left == end - (from - to)
      invariant slots[..to] == Kept(all[..from], dead)
      invariant forall k :: from <= k < end ==> slots[k] == all[k]
    {
      KeptStep(all, dead, from);
      if slots[from].tid in dead {
        left := left - 1;
      } else {
        ghost var done := slots[..to];
        if to != from {
          slots[to] := slots[from];
        }
        to := to + 1;
        assert slots[..to] == done + [all[from]];
      }
      from := from + 1;
    }
    assert all[..end] == all;
  }

  class PageBuffer {
    const size: nat
    const slots: array<Entry>
    var initialised: bool
    var deleted: bool
    var maxoff: nat
    var lower: nat

    ghost predicate Valid()
      reads this, slots
    {
      && size > 0 && slots.Length == Capacity(size)
      && maxoff <= slots.Length
      && (initialised ==> lower == PAGE_HEADER + maxoff * size <= BLCKSZ - PAGE_OPAQUE)
      && (!initialised ==> maxoff == 0 && !deleted)
    }

    function Value(): Block
      reads this, slots
      requires maxoff <= slots.Length
    {
      if !initialised then New else Data(deleted, slots[..maxoff])
    }

    constructor (size: nat)
      requires size > 0
      ensures Valid() && fresh(slots) && Value() == New && this.size == size
    {
      this.size := size;
      slots := new Entry[Capacity(size)](_ => Entry(0, []));
      initialised, deleted, maxoff, lower := false, false, 0, 0;
    }

    method InitPage()
      requires Valid()
      modifies this
      ensures Valid() && Value() == Data(false, [])
    {
      FreeSpaceIsRoom(0, size);
      initialised, deleted, maxoff, lower := true, false, 0, PAGE_HEADER;
    }

    /** Appends `e` if it fits. */
    method AddItem(e: Entry) returns (ok: bool)
      requires Valid() && initialised && !deleted
      modifies this, slots
      ensures Valid() && initialised && !deleted
      ensures ok <==> Fits(old(Value()), Capacity(size))
      ensures Value() == if ok then Added(old(Value()), e) else old(Value())
    {
      FreeSpaceIsRoom(maxoff, size);
      if FreeSpace(maxoff, size) < size {
        return false;
      }
      slots[maxoff] := e;
      maxoff := maxoff + 1;
      FreeSpaceIsRoom(maxoff, size);
      lower := PAGE_HEADER + maxoff * size;
      return true;
    }

    /** Moves the entries that stay to the front. `listed` says that the page goes on the new list
        of pages with room. */
    method BulkDelete(dead: set<nat>) returns (removed: nat, listed: bool)
      requires Valid()
      modifies this, slots
      ensures Valid()
      ensures Value() == Cleaned(old(Value()), dead)
      ensures removed == |old(Value()).Entries()| - |Value().Entries()|
      ensures listed <==> !old(Value()).Free() && 0 < |Value().Entries()| < Capacity(size)
    {
      if !initialised || deleted {
        return 0, false;
      }
      var end := maxoff;
      var left, to := Compact(slots, end, dead);
      maxoff := left;
      FreeSpaceIsRoom(maxoff, size);
      listed := maxoff != 0 && FreeSpace(maxoff, size) >= size;
      if to != end {
        if maxoff == 0 {
          deleted := true;
        }
        lower := PAGE_HEADER + to * size;
      }
      removed := end - maxoff;
    }
  }

  /** The part of a scan that reads one page. */
  method ScanPage(q: seq<bv16>, block: Block) returns (found: seq<Entry>)
    requires forall e :: e in block.Entries() ==> |e.sign| == |q|
    ensures found == if block.Free() then [] else Matching(q, block.Entries())
  {
    found := [];
    if block.Data? && !block.deleted {
      var offset := 1;
      while offset <= |block.entries|
        invariant 1 <= offset <= |block.entries| + 1
        invariant found == Matching(q, block.entries[..offset - 1])
      {
        var e := block.entries[offset - 1];
        var res := Matches(q, e.sign);
        if res {
          found := found + [e];
        }
        assert block.entries[..offset][..offset - 1] == block.entries[..offset - 1];
        offset := offset + 1;
      }
      assert block.entries[..|block.entries|] == block.entries;
    }
  }

  // ----- the tuples of an index -----

  /** All entries on the blocks of an index. */
  function Held(blocks: seq<Block>): multiset<Entry>
  {
    if blocks == [] then multiset{}
    else Held(blocks[..|blocks| - 1]) + multiset(blocks[|blocks| - 1].Entries())
  }

  // ----- build -----

  /** Every page is full. */
  predicate AllFull(blocks: seq<Block>, capacity: nat)
  {
    forall b :: 0 < b < |blocks| ==> |blocks[b].Entries()| == capacity
  }

  /** A build collects one page at a time and appends it to the index when it is full. */
  class BuildState {
    const size: nat
    const cached: PageBuffer
    var blocks: seq<Block>
    var count: nat
    var indtuples: nat

    ghost predicate Valid()
      reads this, cached, cached.slots
    {
      && cached.Valid() && cached.size == size && Capacity(size) >= 1
      && cached.initialised && !cached.deleted && count == cached.maxoff
      && WellFormed(blocks, Capacity(size)) && AllFull(blocks, Capacity(size))
    }

    ghost function Collected(): multiset<Entry>
      reads this, cached, cached.slots
      requires cached.maxoff <= cached.slots.Length
    {
      Held(blocks) + multiset(cached.Value().Entries())
    }

    constructor (words: nat)
      requires 1 <= words <= 256
      ensures Valid() && fresh(cached) && fresh(cached.slots) && Collected() == multiset{} && indtuples == 0
      ensures size == TupleSize(words)
    {
      size := TupleSize(words);
      cached := new PageBuffer(TupleSize(words));
      blocks, count, indtuples := [Meta], 0, 0;
      new;
      EmptyPageHasRoom(words);
      cached.InitPage();
      assert blocks[..0] == [];
    }

    method Flush()
      requires Valid() && count > 0
      modifies this`blocks
      ensures blocks == old(blocks) + [cached.Value()]
      ensures WellFormed(blocks, Capacity(size))
      ensures AllFull(old(blocks), Capacity(size)) && (count == Capacity(size) ==> AllFull(blocks, Capacity(size)))
      ensures Held(blocks) == old(Collected())
    {
      blocks := blocks + [cached.Value()];
    }

    /** Adds the tuple of one heap row. The tuple always fits an empty page. */
    method Callback(e: Entry)
      requires Valid()
      modifies this, cached, cached.slots
      ensures Valid() && Collected() == old(Collected()) + multiset{e}
      ensures indtuples == old(indtuples) + 1
    {
      ghost var before := cached.Value().Entries();
      var ok := cached.AddItem(e);
      if ok {
        assert cached.Value().Entries() == before + [e];
        count := count + 1;
      } else {
        StartPage(e);
      }
      indtuples := indtuples + 1;
    }

    /** A full cached page is flushed and a new one started with `e`. */
    method StartPage(e: Entry)
      requires Valid() && count == Capacity(size)
      modifies this`blocks, this`count, cached, cached.slots
      ensures cached.Valid() && cached.initialised && !cached.deleted && count == cached.maxoff
      ensures cached.Value() == Data(false, [e])
      ensures Held(blocks) == old(Collected())
      ensures WellFormed(blocks, Capacity(size)) && AllFull(blocks, Capacity(size))
    {
      Flush();
      cached.InitPage();
      var ok := cached.AddItem(e);
      assert [] + [e] == [e];
      count := 1;
    }

    /** The index after the build holds exactly the tuples of all rows, on no more pages than they need. */
    method Finish() returns (result: seq<Block>)
      requires Valid()
      modifies this`blocks
      ensures WellFormed(result, Capacity(size)) && AllFull(result[..|result| - 1], Capacity(size))
      ensures |result| > 1 ==> result[|result| - 1].Entries() != []
      ensures Held(result) == old(Collected())
    {
      if count > 0 {
        Flush();
      }
      result := blocks;
    }
  }

  /** Block 0 is the metapage; a data page is deleted exactly if it is empty. */
  predicate BlockOk(b: Block, capacity: nat)
  {
    b.Data? ==> |b.entries| <= capacity && (b.deleted <==> b.entries == [])
  }

  predicate WellFormed(blocks: seq<Block>, capacity: nat)
  {
    && blocks != [] && blocks[0] == Meta
    && forall b :: 0 < b < |blocks| ==> !blocks[b].Meta? && BlockOk(blocks[b], capacity)
  }
}
