/** The bloom index driven by one process at a time: its loops over the list of pages with room and
    over the pages of the index. */
module BloomIndex {
  import opened BloomPages
  import opened BloomProtocol
  import opened BloomSafety
  import opened BloomLists

  /** `after` has one `e` more than `before`. */
  ghost predicate Gains(before: seq<Block>, after: seq<Block>, e: Entry)
  {
    forall x :: Count(after, x) == Count(before, x) + multiset{e}[x]
  }

  lemma AddedGains(blocks: seq<Block>, b: nat, e: Entry, capacity: nat)
    requires WellFormed(blocks, capacity) && IsData(blocks, b) && Fits(blocks[b], capacity) && capacity >= 1
    ensures WellFormed(blocks[b := Added(blocks[b], e)], capacity)
    ensures Gains(blocks, blocks[b := Added(blocks[b], e)], e)
  {
    var v := Added(blocks[b], e);
    forall x ensures Count(blocks[b := v], x) == Count(blocks, x) + multiset{e}[x] {
      CountUpdate(blocks, b, v, x);
      assert On(v, x) == On(blocks[b], x) + multiset{e}[x];
    }
  }

  /** The data pages before block `n` have been through a bulk delete. */
  predicate CleanedTo(before: seq<Block>, dead: set<nat>, n: nat, after: seq<Block>)
  {
    |after| == |before| && forall k :: 0 <= k < |before| ==>
      after[k] == if 1 <= k < n then Cleaned(before[k], dead) else before[k]
  }

  lemma CleanedAt(before: seq<Block>, dead: set<nat>, after: seq<Block>, k: nat, capacity: nat, x: Entry)
    requires WellFormed(before, capacity) && CleanedTo(before, dead, |before|, after) && k < |before|
    ensures On(after[k], x) == if x.tid in dead then 0 else On(before[k], x)
  {
    if k > 0 {
      CleanedOn(before[k], dead, capacity, x);
    }
  }

  /** Block `k` keeps its copies of `x`, or drops them. */
  predicate KeepsOn(before: seq<Block>, after: seq<Block>, k: int, x: Entry, dropped: bool)
  {
    0 <= k < |before| == |after| && On(after[k], x) == if dropped then 0 else On(before[k], x)
  }

  lemma {:induction false} CountKept(before: seq<Block>, after: seq<Block>, n: nat, x: Entry, dropped: bool)
    requires n <= |before| == |after|
    requires forall k {:trigger KeepsOn(before, after, k, x, dropped)} :: 0 <= k < |before| ==>
               KeepsOn(before, after, k, x, dropped)
    ensures Count(after[..n], x) == if dropped then 0 else Count(before[..n], x)
  {
    if n > 0 {
      CountKept(before, after, n - 1, x, dropped);
      CountSnoc(after, n, x);
      CountSnoc(before, n, x);
      assert KeepsOn(before, after, n - 1, x, dropped);
    }
  }

  lemma CleanedCount(before: seq<Block>, dead: set<nat>, after: seq<Block>, n: nat, capacity: nat, x: Entry)
    requires WellFormed(before, capacity) && CleanedTo(before, dead, |before|, after) && n <= |before|
    ensures Count(after[..n], x) == if x.tid in dead then 0 else Count(before[..n], x)
  {
    var dropped := x.tid in dead;
    forall k {:trigger KeepsOn(before, after, k, x, dropped)} | 0 <= k < |before|
      ensures KeepsOn(before, after, k, x, dropped)
    {
      CleanedAt(before, dead, after, k, capacity, x);
    }
    CountKept(before, after, n, x, dropped);
  }

  lemma CountSnoc(bs: seq<Block>, n: nat, x: Entry)
    requires 0 < n <= |bs|
    ensures Count(bs[..n], x) == Count(bs[..n - 1], x) + On(bs[n - 1], x)
  {
    assert bs[..n][..n - 1] == bs[..n - 1];
  }

  lemma CleanedOn(b: Block, dead: set<nat>, capacity: nat, x: Entry)
    requires BlockOk(b, capacity)
    ensures On(Cleaned(b, dead), x) == if x.tid in dead then 0 else On(b, x)
  {
    if b.Data? {
      KeptExact(b.entries, dead, x);
    }
  }

  /** A scan has found exactly the matching entries of the first `n` blocks. */
  ghost predicate Scanned(blocks: seq<Block>, n: nat, q: seq<bv16>, found: seq<Entry>)
    requires n <= |blocks|
  {
    forall x :: multiset(found)[x] == if Match(q, x) then Count(blocks[..n], x) else 0
  }

  lemma HitsOn(b: Block, capacity: nat, q: seq<bv16>, hits: seq<Entry>, x: Entry)
    requires BlockOk(b, capacity) && hits == if b.Free() then [] else Matching(q, b.Entries())
    ensures multiset(hits)[x] == if Match(q, x) then On(b, x) else 0
  {
    MatchingExact(q, b.Entries(), x);
  }

  lemma JoinedCount(a: seq<Entry>, b: seq<Entry>, x: Entry)
    ensures multiset(a + b)[x] == multiset(a)[x] + multiset(b)[x]
  {
    assert multiset(a + b) == multiset(a) + multiset(b);
  }

  lemma ScannedPage(blocks: seq<Block>, capacity: nat, n: nat, q: seq<bv16>, found: seq<Entry>, hits: seq<Entry>)
    requires WellFormed(blocks, capacity) && IsData(blocks, n) && Scanned(blocks, n, q, found)
    requires hits == if blocks[n].Free() then [] else Matching(q, blocks[n].Entries())
    ensures Scanned(blocks, n + 1, q, found + hits)
  {
    forall x ensures multiset(found + hits)[x] == if Match(q, x) then Count(blocks[..n + 1], x) else 0 {
      JoinedCount(found, hits, x);
      HitsOn(blocks[n], capacity, q, hits, x);
      CountSnoc(blocks, n + 1, x);
    }
  }

  lemma HeldFirst(blocks: seq<Block>, capacity: nat)
    requires WellFormed(blocks, capacity)
    ensures Held(blocks[..1]) == multiset{} && FreeBefore(blocks, 1) == {}
  {
    assert blocks[..1] == [Meta] && [Meta][..0] == [];
  }

  lemma HeldStep(blocks: seq<Block>, n: nat, capacity: nat)
    requires WellFormed(blocks, capacity) && IsData(blocks, n)
    ensures |Held(blocks[..n + 1])| ==
            |Held(blocks[..n])| + if blocks[n].Free() then 0 else |blocks[n].Entries()|
  {
    assert blocks[..n + 1][..n] == blocks[..n];
  }

  /** What a cleanup has recorded and counted of the first `n` blocks. */
  ghost predicate Counted(blocks: seq<Block>, n: nat, was: set<nat>, fsm: set<nat>, free: nat, tuples: nat)
    requires n <= |blocks|
  {
    && fsm == was + FreeBefore(blocks, n) && free == |FreeBefore(blocks, n)| && tuples == |Held(blocks[..n])|
  }

  lemma CountedStep(blocks: seq<Block>, n: nat, capacity: nat, was: set<nat>, fsm: set<nat>, free: nat, tuples: nat)
    requires WellFormed(blocks, capacity) && IsData(blocks, n) && Counted(blocks, n, was, fsm, free, tuples)
    ensures if blocks[n].Free() then Counted(blocks, n + 1, was, fsm + {n}, free + 1, tuples)
            else Counted(blocks, n + 1, was, fsm, free, tuples + |blocks[n].Entries()|)
  {
    FreeStep(blocks, n);
    HeldStep(blocks, n, capacity);
  }

  // ----- where an entry goes -----

  /** The first place from `k` on in the list of the metapage whose page has room, or the end of the list. */
  function FirstFit(blocks: seq<Block>, m: MetaData, k: nat, capacity: nat): nat
    requires MetaOk(blocks, m) && k <= m.nEnd
    decreases m.nEnd - k
  {
    if k == m.nEnd || Fits(blocks[m.notFull[k]], capacity) then k else FirstFit(blocks, m, k + 1, capacity)
  }

  lemma {:induction false} FirstFitExact(blocks: seq<Block>, m: MetaData, k: nat, capacity: nat)
    requires MetaOk(blocks, m) && k <= m.nEnd
    ensures var f := FirstFit(blocks, m, k, capacity);
      && k <= f <= m.nEnd && (f < m.nEnd ==> Fits(blocks[m.notFull[f]], capacity))
      && forall i :: k <= i < f ==> !Fits(blocks[m.notFull[i]], capacity)
    decreases m.nEnd - k
  {
    if k < m.nEnd && !Fits(blocks[m.notFull[k]], capacity) {
      FirstFitExact(blocks, m, k + 1, capacity);
    }
  }

  /** `e` went alone onto block `b`: a free block of the free-space map, or if that has none, a new one at the
      end. The map lost `b` and otherwise only blocks that are not free. */
  ghost predicate Opened(before: seq<Block>, free: set<nat>, after: seq<Block>, free': set<nat>, b: nat, e: Entry)
  {
    && b <= |before| && b !in free' && free' <= free
    && (forall c :: c in free && c !in free' && c != b ==> c < |before| && !before[c].Free())
    && if b < |before| then b in free && before[b].Free() && after == before[b := Data(false, [e])]
       else (forall c :: c in free ==> c < |before| && !before[c].Free()) && after == before + [Data(false, [e])]
  }

  class Index {
    const capacity: nat
    var blocks: seq<Block>
    var meta: MetaData
    var fsm: set<nat>

    ghost predicate Valid()
      reads this
    {
      && capacity >= 1 && WellFormed(blocks, capacity) && MetaOk(blocks, meta)
      && forall b :: b in fsm ==> IsData(blocks, b)
    }

    /** Puts `e` on block `b` if it fits there. */
    method PutOn(b: nat, e: Entry) returns (ok: bool)
      requires Valid() && IsData(blocks, b)
      modifies this`blocks
      ensures Valid() && |blocks| == |old(blocks)| && (ok <==> old(Fits(blocks[b], capacity)))
      ensures blocks == if ok then old(blocks)[b := Added(old(blocks)[b], e)] else old(blocks)
      ensures ok ==> Gains(old(blocks), blocks, e)
    {
      ok := Fits(blocks[b], capacity);
      if ok {
        AddedGains(blocks, b, e, capacity);
        blocks := blocks[b := Added(blocks[b], e)];
      }
    }

    /** A free block from the free-space map, or a new one at the end; unusable blocks leave the map. */
    method NewBlock() returns (b: nat)
      requires Valid()
      modifies this`blocks, this`fsm
      ensures Valid() && IsData(blocks, b) && blocks[b].Free()
      ensures fsm <= old(fsm) && b !in fsm
      ensures forall c :: c in old(fsm) && c !in fsm && c != b ==> c < |old(blocks)| && !old(blocks)[c].Free()
      ensures if b < |old(blocks)| then b in old(fsm) && blocks == old(blocks)
              else b == |old(blocks)| && fsm == {} && blocks == old(blocks) + [New]
    {
      while fsm != {}
        invariant Valid() && blocks == old(blocks) && fsm <= old(fsm)
        invariant forall c :: c in old(fsm) && c !in fsm ==> c < |blocks| && !blocks[c].Free()
        decreases |fsm|
      {
        b :| b in fsm;
        fsm := fsm - {b};
        if blocks[b].Free() {
          return;
        }
      }
      b := |blocks|;
      blocks := blocks + [New];
    }

    /** One entry more is on the pages, whatever the list of pages with room says. It goes onto the first listed
        page that has room, and the list starts there from now on; if there is none, onto a page of its own, which
        is then the only one listed. */
    method Insert(e: Entry)
      requires Valid()
      modifies this
      ensures Valid() && Gains(old(blocks), blocks, e)
      ensures var m := old(meta); var k := FirstFit(old(blocks), m, m.nStart, capacity);
        if k < m.nEnd
        then var b := m.notFull[k];
             meta == m.(nStart := k) && fsm == old(fsm) && blocks == old(blocks)[b := Added(old(blocks)[b], e)]
        else exists b :: meta == MetaData(0, 1, m.notFull[0 := b]) && Opened(old(blocks), old(fsm), blocks, fsm, b, e)
    {
      var tried := 0;
      if meta.nEnd > meta.nStart {
        tried := meta.notFull[meta.nStart];
        var ok := PutOn(tried, e);
        if ok {
          return;
        }
      }
      var nStart: nat := meta.nStart;
      if nStart < meta.nEnd && tried == meta.notFull[nStart] {
        nStart := nStart + 1;
      }
      InsertListed(e, nStart);
    }

    method InsertListed(e: Entry, start: nat)
      requires Valid() && start <= meta.nEnd
      modifies this
      ensures Valid() && Gains(old(blocks), blocks, e)
      ensures var m := old(meta); var k := FirstFit(old(blocks), m, start, capacity);
        if k < m.nEnd
        then var b := m.notFull[k];
             meta == m.(nStart := k) && fsm == old(fsm) && blocks == old(blocks)[b := Added(old(blocks)[b], e)]
        else exists b :: meta == MetaData(0, 1, m.notFull[0 := b]) && Opened(old(blocks), old(fsm), blocks, fsm, b, e)
    {
      var nStart := start;
      while nStart < meta.nEnd
        invariant Valid() && nStart <= meta.nEnd && blocks == old(blocks) && meta == old(meta) && fsm == old(fsm)
        invariant FirstFit(blocks, meta, start, capacity) == FirstFit(blocks, meta, nStart, capacity)
      {
        var ok := PutOn(meta.notFull[nStart], e);
        if ok {
          meta := meta.(nStart := nStart);
          return;
        }
        nStart := nStart + 1;
      }
      InsertNew(e);
    }

    method InsertNew(e: Entry)
      requires Valid()
      modifies this
      ensures Valid() && Gains(old(blocks), blocks, e)
      ensures exists b :: meta == MetaData(0, 1, old(meta).notFull[0 := b]) &&
                          Opened(old(blocks), old(fsm), blocks, fsm, b, e)
    {
      ghost var was := blocks;
      var b := NewBlock();
      ghost var now := blocks;
      assert now == was + [New] ==> now[..|was|] == was;
      var ok := PutOn(b, e);
      forall x ensures Count(blocks, x) == Count(was, x) + multiset{e}[x] {
        assert Count(blocks, x) == Count(now, x) + multiset{e}[x];
      }
      meta := MetaData(0, 1, meta.notFull[0 := b]);
      assert [] + [e] == [e];
      assert Opened(old(blocks), old(fsm), blocks, fsm, b, e);
    }

    method DeleteOn(b: nat, dead: set<nat>) returns (listed: bool)
      requires Valid() && IsData(blocks, b)
      modifies this`blocks
      ensures Valid() && blocks == old(blocks)[b := Cleaned(old(blocks)[b], dead)]
      ensures listed <==> Listed(old(blocks)[b], blocks[b], capacity)
    {
      var before := blocks[b];
      if before.Free() {
        return false;
      }
      CleanedCounts(before, dead, capacity);
      blocks := blocks[b := Cleaned(before, dead)];
      listed := Listed(before, blocks[b], capacity);
    }

    /** Without concurrency a bulk delete removes every entry of a dead row and no other, and the list names, in
        ascending order, all pages in use with room, or the first of them that fit on the metapage. */
    method BulkDelete(dead: set<nat>)
      requires Valid()
      modifies this`blocks, this`meta
      ensures Valid() && |blocks| == |old(blocks)|
      ensures forall x :: Count(blocks, x) == if x.tid in dead then 0 else Count(old(blocks), x)
      ensures CleanedTo(old(blocks), dead, |blocks|, blocks)
      ensures meta.nStart == 0 && RoomList(blocks, meta.notFull[..meta.nEnd], |blocks|, capacity)
    {
      var list: seq<nat> := [];
      var blkno: nat := 1;
      while blkno < |blocks|
        invariant 1 <= blkno <= |blocks| == |old(blocks)| && Valid() && meta == old(meta)
        invariant CleanedTo(old(blocks), dead, blkno, blocks)
        invariant RoomList(blocks, list, blkno, capacity)
      {
        ghost var was := blocks;
        var listed := DeleteOn(blkno, dead);
        ListedIsRoom(was[blkno], dead, capacity);
        RoomListStep(was, list, blkno, blocks[blkno], capacity);
        if listed && |list| < META_BLOCK_N {
          list := list + [blkno];
        }
        blkno := blkno + 1;
      }
      meta := MetaData(0, |list|, list + meta.notFull[|list|..]);
      assert meta.notFull[..|list|] == list;
      forall x ensures Count(blocks, x) == if x.tid in dead then 0 else Count(old(blocks), x) {
        CleanedCount(old(blocks), dead, blocks, |blocks|, capacity, x);
        assert blocks[..|blocks|] == blocks && old(blocks)[..|blocks|] == old(blocks);
      }
    }

    /** Records the free pages, and counts them and the entries on the others. */
    method CleanUp() returns (free: nat, tuples: nat)
      requires Valid()
      modifies this`fsm
      ensures Valid() && fsm == old(fsm) + FreeBefore(blocks, |blocks|)
      ensures free == |FreeBefore(blocks, |blocks|)| && tuples == |Held(blocks)|
    {
      free, tuples := 0, 0;
      var blkno: nat := 1;
      HeldFirst(blocks, capacity);
      while blkno < |blocks|
        invariant 1 <= blkno <= |blocks| && Valid()
        invariant Counted(blocks, blkno, old(fsm), fsm, free, tuples)
      {
        CountedStep(blocks, blkno, capacity, old(fsm), fsm, free, tuples);
        if blocks[blkno].Free() {
          fsm := fsm + {blkno};
          free := free + 1;
        } else {
          tuples := tuples + |blocks[blkno].Entries()|;
        }
        blkno := blkno + 1;
      }
      assert blocks[..|blocks|] == blocks;
    }

    /** A scan on its own returns exactly the matching entries of the index. */
    method Scan(q: seq<bv16>) returns (found: seq<Entry>)
      requires Valid() && forall b, e :: 0 <= b < |blocks| && e in blocks[b].Entries() ==> |e.sign| == |q|
      ensures forall x :: multiset(found)[x] == if Match(q, x) then Count(blocks, x) else 0
    {
      found := [];
      var blkno: nat := 1;
      assert blocks[..1] == [Meta] && [Meta][..0] == [];
      while blkno < |blocks|
        invariant 1 <= blkno <= |blocks|
        invariant Scanned(blocks, blkno, q, found)
      {
        var hits := ScanPage(q, blocks[blkno]);
        ScannedPage(blocks, capacity, blkno, q, found, hits);
        found := found + hits;
        blkno := blkno + 1;
      }
      assert blocks[..|blocks|] == blocks;
    }
  }
}
