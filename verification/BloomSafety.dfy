/** What every step of the bloom index keeps, and what follows for whole runs. */
module BloomSafety {
  import opened Wrappers
  import opened BloomPages
  import opened BloomProtocol

  // ----- sums over blocks -----

  function Total(bs: seq<Block>, f: Block -> nat): nat
  {
    if bs == [] then 0 else Total(bs[..|bs| - 1], f) + f(bs[|bs| - 1])
  }

  lemma {:induction false} TotalUpdate(bs: seq<Block>, b: nat, v: Block, f: Block -> nat)
    requires b < |bs|
    ensures Total(bs[b := v], f) + f(bs[b]) == Total(bs, f) + f(v)
  {
    var n := |bs| - 1;
    if b == n {
      assert bs[b := v][..n] == bs[..n];
    } else {
      TotalUpdate(bs[..n], b, v, f);
      assert bs[b := v][..n] == bs[..n][b := v];
    }
  }

  lemma {:induction false} TotalCut(bs: seq<Block>, lo: nat, hi: nat, f: Block -> nat)
    requires lo < hi <= |bs|
    ensures Total(bs[lo..hi], f) == f(bs[lo]) + Total(bs[lo + 1..hi], f)
  {
    if lo + 1 == hi {
      assert bs[lo..hi][..0] == [] && bs[lo + 1..hi] == [];
    } else {
      TotalCut(bs, lo, hi - 1, f);
      assert bs[lo..hi][..hi - 1 - lo] == bs[lo..hi - 1];
      assert bs[lo + 1..hi][..hi - 2 - lo] == bs[lo + 1..hi - 1];
    }
  }

  lemma TotalRange(bs: seq<Block>, b: nat, v: Block, lo: nat, hi: nat, f: Block -> nat, lost: nat)
    requires b < |bs| && lo <= hi <= |bs| && f(bs[b]) <= f(v) + lost
    ensures Total(bs[lo..hi], f) <= Total(bs[b := v][lo..hi], f) + lost
  {
    if lo <= b < hi {
      TotalUpdate(bs[lo..hi], b - lo, v, f);
      assert bs[lo..hi][b - lo := v] == bs[b := v][lo..hi];
    } else {
      assert bs[b := v][lo..hi] == bs[lo..hi];
    }
  }

  lemma {:induction false} TotalAtLeast(bs: seq<Block>, b: nat, f: Block -> nat)
    requires b < |bs|
    ensures f(bs[b]) <= Total(bs, f)
  {
    if b < |bs| - 1 {
      TotalAtLeast(bs[..|bs| - 1], b, f);
    }
  }

  // ----- counting one entry -----

  function On(b: Block, e: Entry): nat { multiset(b.Entries())[e] }

  function OnOf(e: Entry): Block -> nat { b => On(b, e) }

  /** How often `e` occurs on the blocks `bs`. */
  function Count(bs: seq<Block>, e: Entry): nat { Total(bs, OnOf(e)) }

  lemma {:induction false} CountIsHeld(bs: seq<Block>, e: Entry)
    ensures Held(bs)[e] == Count(bs, e)
  {
    if bs != [] {
      CountIsHeld(bs[..|bs| - 1], e);
    }
  }

  lemma CountUpdate(bs: seq<Block>, b: nat, v: Block, e: Entry)
    requires b < |bs|
    ensures Count(bs[b := v], e) + On(bs[b], e) == Count(bs, e) + On(v, e)
  {
    TotalUpdate(bs, b, v, OnOf(e));
  }

  lemma CountCut(bs: seq<Block>, lo: nat, hi: nat, e: Entry)
    requires lo < hi <= |bs|
    ensures Count(bs[lo..hi], e) == On(bs[lo], e) + Count(bs[lo + 1..hi], e)
  {
    TotalCut(bs, lo, hi, OnOf(e));
  }

  /** A change of block `b` changes the count over a range by no more than there. */
  lemma CountRange(bs: seq<Block>, b: nat, v: Block, lo: nat, hi: nat, e: Entry, lost: nat)
    requires b < |bs| && lo <= hi <= |bs|
    requires On(bs[b], e) <= On(v, e) + lost
    ensures Count(bs[lo..hi], e) <= Count(bs[b := v][lo..hi], e) + lost
  {
    TotalRange(bs, b, v, lo, hi, OnOf(e), lost);
  }

  lemma CountAtLeast(bs: seq<Block>, b: nat, e: Entry)
    requires b < |bs|
    ensures On(bs[b], e) <= Count(bs, e)
  {
    TotalAtLeast(bs, b, OnOf(e));
  }

  // ----- the invariant -----

  predicate IsData(blocks: seq<Block>, b: nat) { 1 <= b < |blocks| }

  predicate ListOk(blocks: seq<Block>, list: seq<nat>)
  {
    |list| <= META_BLOCK_N && forall i :: 0 <= i < |list| ==> IsData(blocks, list[i])
  }

  predicate MetaOk(blocks: seq<Block>, m: MetaData)
  {
    && m.nStart <= m.nEnd <= META_BLOCK_N == |m.notFull|
    && forall i :: 0 <= i < m.nEnd ==> IsData(blocks, m.notFull[i])
  }

  /** Every matching entry that was there when the scan began has been found, is still ahead, or
      has been removed. */
  ghost predicate Covers(blocks: seq<Block>, d: Proc)
    requires d.Scanning? && 1 <= d.blk <= d.npages <= |blocks|
  {
    forall e :: Match(d.q, e) ==>
      d.present[e] <= multiset(d.found)[e] + Count(blocks[d.blk..d.npages], e) + d.gone[e]
  }

  ghost predicate FoundOk(q: seq<bv16>, found: seq<Entry>, inserted: multiset<Entry>)
  {
    forall e :: e in found ==> Match(q, e) && e in inserted
  }

  ghost predicate ScanOk(blocks: seq<Block>, inserted: multiset<Entry>, d: Proc)
    requires d.Scanning?
  {
    && 1 <= d.blk <= d.npages <= |blocks|
    && FoundOk(d.q, d.found, inserted)
    && Covers(blocks, d)
  }

  ghost predicate ProcOk(blocks: seq<Block>, m: MetaData, inserted: multiset<Entry>, d: Proc)
  {
    match d
    case Trying(_, b) => IsData(blocks, b)
    case Looping(_, n) => n <= m.nEnd
    case Filling(_, b) => IsData(blocks, b) && blocks[b].Free()
    case Deleting(_, b, n, list) => 1 <= b <= n <= |blocks| && ListOk(blocks, list)
    case Listing(list) => ListOk(blocks, list)
    case Cleaning(b, n) => 1 <= b <= n <= |blocks|
    case Scanning(_, _, _, _, _, _) => ScanOk(blocks, inserted, d)
    case _ => true
  }

  ghost predicate ProcsOk(s: State)
  {
    forall p {:trigger s.procs[p]} :: p in s.procs ==> ProcOk(s.blocks, s.meta, s.inserted, s.procs[p])
  }

  /** At most one process holds the metapage. */
  predicate OneHolder(s: State)
  {
    forall p, r :: p in s.procs && r in s.procs && s.procs[p].HoldsMeta() && s.procs[r].HoldsMeta() ==> p == r
  }

  predicate Balanced(s: State, e: Entry) { Count(s.blocks, e) + s.removed[e] == s.inserted[e] }

  ghost predicate Conserved(s: State) { forall e :: Balanced(s, e) }

  /** The entries on the pages are exactly those inserted and not removed; deleted pages are empty,
      and the lists name data pages. */
  ghost predicate Inv(s: State)
  {
    && s.capacity >= 1 && WellFormed(s.blocks, s.capacity)
    && MetaOk(s.blocks, s.meta)
    && (forall b :: b in s.fsm ==> IsData(s.blocks, b))
    && Conserved(s)
    && OneHolder(s)
    && ProcsOk(s)
  }

  // ----- one block changes -----

  /** Block `b` becomes `v`, which loses `lost` and gains `added`. */
  ghost predicate OneBlock(s: State, b: nat, v: Block, lost: multiset<Entry>, added: multiset<Entry>, s': State)
  {
    && s'.capacity == s.capacity
    && IsData(s.blocks, b) && s'.blocks == s.blocks[b := v]
    && !v.Meta? && BlockOk(v, s.capacity)
    && (forall e :: On(v, e) + lost[e] == On(s.blocks[b], e) + added[e])
    && s'.inserted == s.inserted + added && s'.removed == s.removed + lost
  }

  lemma OneBlockKeeps(s: State, b: nat, v: Block, lost: multiset<Entry>, added: multiset<Entry>, s': State)
    requires Inv(s) && OneBlock(s, b, v, lost, added, s')
    ensures WellFormed(s'.blocks, s'.capacity) && Conserved(s')
  {
    forall e ensures Balanced(s', e) {
      CountUpdate(s.blocks, b, v, e);
      assert Balanced(s, e);
    }
  }

  lemma ScanKeeps(s: State, b: nat, v: Block, lost: multiset<Entry>, added: multiset<Entry>, s': State, d: Proc)
    requires OneBlock(s, b, v, lost, added, s')
    requires d.Scanning? && ScanOk(s.blocks, s.inserted, d)
    ensures ScanOk(s'.blocks, s'.inserted, d.(gone := d.gone + lost))
  {
    var d' := d.(gone := d.gone + lost);
    forall e | Match(d.q, e)
      ensures d'.present[e] <=
              multiset(d'.found)[e] + Count(s'.blocks[d'.blk..d'.npages], e) + d'.gone[e]
    {
      assert On(v, e) + lost[e] == On(s.blocks[b], e) + added[e];
      CountRange(s.blocks, b, v, d.blk, d.npages, e, lost[e]);
    }
  }

  /** A process that does not hold block `b` stays as it should be after the change there. */
  lemma ProcKeeps(s: State, b: nat, v: Block, lost: multiset<Entry>, added: multiset<Entry>, s': State,
                  d: Proc, d': Proc)
    requires OneBlock(s, b, v, lost, added, s')
    requires ProcOk(s.blocks, s.meta, s.inserted, d)
    requires d.Filling? ==> d.blk != b
    requires d.Looping? ==> d.nStart <= s'.meta.nEnd
    requires d' == if d.Scanning? then d.(gone := d.gone + lost) else d
    ensures ProcOk(s'.blocks, s'.meta, s'.inserted, d')
  {
    if d.Scanning? {
      ScanKeeps(s, b, v, lost, added, s', d);
    }
  }

  /** The step of process `p` changes block `b` and leaves `p` at `d`. */
  lemma BlockStep(s: State, p: nat, d: Proc, b: nat, v: Block, lost: multiset<Entry>, added: multiset<Entry>,
                  s': State)
    requires Inv(s) && OneBlock(s, b, v, lost, added, s') && s'.fsm == s.fsm
    requires s'.procs.Keys == s.procs.Keys + {p} && s'.procs[p] == d
    requires forall r :: r in s.procs && r != p ==>
      s'.procs[r] == if s.procs[r].Scanning? then s.procs[r].(gone := s.procs[r].gone + lost) else s.procs[r]
    requires forall r :: r in s.procs && r != p && s.procs[r].Filling? ==> s.procs[r].blk != b
    requires forall r :: r in s.procs && r != p && s.procs[r].Looping? ==> s.procs[r].nStart <= s'.meta.nEnd
    requires MetaOk(s'.blocks, s'.meta)
    requires !d.HoldsMeta() && ProcOk(s'.blocks, s'.meta, s'.inserted, d)
    ensures Inv(s')
  {
    OneBlockKeeps(s, b, v, lost, added, s');
    forall r | r in s'.procs && r != p ensures ProcOk(s'.blocks, s'.meta, s'.inserted, s'.procs[r]) {
      ProcKeeps(s, b, v, lost, added, s', s.procs[r], s'.procs[r]);
    }
  }

  /** The step of process `p` leaves the pages and the metapage alone. */
  lemma QuietStep(s: State, p: nat, d: Proc, s': State)
    requires Inv(s) && s' == s.Goto(p, d).(fsm := s'.fsm)
    requires forall b :: b in s'.fsm ==> IsData(s.blocks, b)
    requires ProcOk(s.blocks, s.meta, s.inserted, d)
    requires d.HoldsMeta() ==> s.MetaFree() || s.At(p).HoldsMeta()
    ensures Inv(s')
  {
    forall e ensures Balanced(s', e) {
      assert Balanced(s, e);
    }
  }

  // ----- the steps -----

  lemma PutOk(s: State, p: nat, b: nat, e: Entry, s': State)
    requires Inv(s) && IsData(s.blocks, b) && Fits(s.blocks[b], s.capacity)
    requires s.Unlocked(b) && !s.At(p).Filling?
    requires s' == Put(s, p, b, e).(meta := s'.meta)
    requires MetaOk(s.blocks, s'.meta) && s'.meta.nEnd == s.meta.nEnd
    ensures Inv(s')
  {
    var v := Added(s.blocks[b], e);
    assert s.removed + multiset{} == s.removed;
    forall r | r in s.procs && r != p
      ensures s'.procs[r] ==
              if s.procs[r].Scanning? then s.procs[r].(gone := s.procs[r].gone + multiset{}) else s.procs[r]
    {
      assert s.procs[r].Scanning? ==> s.procs[r].gone + multiset{} == s.procs[r].gone;
    }
    BlockStep(s, p, Idle, b, v, multiset{}, multiset{e}, s');
  }

  lemma TryPageOk(s: State, p: nat, s': State)
    requires Inv(s) && DoTryPage(s, p, s')
    ensures Inv(s')
  {
    var b := s.At(p).blk;
    if Fits(s.blocks[b], s.capacity) {
      PutOk(s, p, b, s.At(p).e, s');
    } else {
      QuietStep(s, p, Upgrading(s.At(p).e, Some(b)), s');
    }
  }

  lemma LoopPageOk(s: State, p: nat, s': State)
    requires Inv(s) && DoLoopPage(s, p, s')
    ensures Inv(s')
  {
    var n := s.At(p).nStart;
    if Fits(s.blocks[s.meta.notFull[n]], s.capacity) {
      PutOk(s, p, s.meta.notFull[n], s.At(p).e, s');
    } else {
      QuietStep(s, p, Looping(s.At(p).e, n + 1), s');
    }
  }

  lemma FillOk(s: State, p: nat, s': State)
    requires Inv(s) && DoFill(s, p, s')
    ensures Inv(s')
  {
    var b, e := s.At(p).blk, s.At(p).e;
    assert Data(false, [e]) == Added(s.blocks[b], e);
    assert s.removed + multiset{} == s.removed;
    forall r | r in s.procs && r != p
      ensures s'.procs[r] ==
              if s.procs[r].Scanning? then s.procs[r].(gone := s.procs[r].gone + multiset{}) else s.procs[r]
    {
      assert s.procs[r].Scanning? ==> s.procs[r].gone + multiset{} == s.procs[r].gone;
    }
    BlockStep(s, p, Idle, b, Data(false, [e]), multiset{}, multiset{e}, s');
  }

  lemma CleanedCounts(before: Block, dead: set<nat>, capacity: nat)
    requires BlockOk(before, capacity)
    ensures BlockOk(Cleaned(before, dead), capacity)
    ensures forall e :: On(Cleaned(before, dead), e) + Lost(before, dead)[e] == On(before, e)
  {
    forall e ensures On(Cleaned(before, dead), e) + Lost(before, dead)[e] == On(before, e) {
      if before.Data? {
        KeptExact(before.entries, dead, e);
      }
    }
    if before.Data? {
      KeptExact(before.entries, dead, Entry(0, []));
    }
  }

  lemma DeletedBlock(s: State, p: nat, s': State)
    requires Inv(s) && DoDeletePage(s, p, s')
    ensures var d := s.At(p);
      OneBlock(s, d.blk, Cleaned(s.blocks[d.blk], d.dead), Lost(s.blocks[d.blk], d.dead), multiset{}, s')
  {
    var d := s.At(p);
    CleanedCounts(s.blocks[d.blk], d.dead, s.capacity);
    assert s.inserted + multiset{} == s.inserted;
  }

  lemma DeletingProc(s: State, p: nat, s': State)
    requires Inv(s) && DoDeletePage(s, p, s')
    ensures p in s'.procs && s'.procs[p].Deleting?
    ensures ProcOk(s'.blocks, s'.meta, s'.inserted, s'.procs[p])
    ensures MetaOk(s'.blocks, s'.meta)
  {
  }

  lemma DeletePageOk(s: State, p: nat, s': State)
    requires Inv(s) && DoDeletePage(s, p, s')
    ensures Inv(s')
  {
    var d := s.At(p);
    DeletedBlock(s, p, s');
    DeletingProc(s, p, s');
    BlockStep(s, p, s'.procs[p], d.blk, Cleaned(s.blocks[d.blk], d.dead),
              Lost(s.blocks[d.blk], d.dead), multiset{}, s');
  }

  lemma ReadMetaOk(s: State, p: nat, s': State)
    requires Inv(s) && DoReadMeta(s, p, s')
    ensures Inv(s')
  {
    QuietStep(s, p, s'.procs[p], s');
  }

  lemma LockMetaOk(s: State, p: nat, s': State)
    requires Inv(s) && DoLockMeta(s, p, s')
    ensures Inv(s')
  {
    QuietStep(s, p, s'.procs[p], s');
  }

  lemma RecycleOk(s: State, p: nat, b: nat, rejected: set<nat>, s': State)
    requires Inv(s) && DoRecycle(s, p, b, rejected, s')
    ensures Inv(s')
  {
    QuietStep(s, p, s'.procs[p], s');
  }

  lemma GrowProc(s: State, s': State, d: Proc)
    requires ProcOk(s.blocks, s.meta, s.inserted, d)
    requires s'.blocks == s.blocks + [New] && s'.meta == s.meta && s'.inserted == s.inserted
    ensures ProcOk(s'.blocks, s'.meta, s'.inserted, d)
  {
    if d.Scanning? {
      assert s'.blocks[d.blk..d.npages] == s.blocks[d.blk..d.npages];
    }
  }

  lemma ExtendOk(s: State, p: nat, rejected: set<nat>, s': State)
    requires Inv(s) && DoExtend(s, p, rejected, s')
    ensures Inv(s')
  {
    assert s'.blocks[..|s.blocks|] == s.blocks;
    forall e ensures Balanced(s', e) {
      assert Balanced(s, e);
    }
    forall r | r in s'.procs && r != p ensures ProcOk(s'.blocks, s'.meta, s'.inserted, s'.procs[r]) {
      GrowProc(s, s', s.procs[r]);
    }
  }

  lemma WriteListOk(s: State, p: nat, s': State)
    requires Inv(s) && DoWriteList(s, p, s')
    ensures Inv(s')
  {
    forall e ensures Balanced(s', e) {
      assert Balanced(s, e);
    }
  }

  lemma CleanPageOk(s: State, p: nat, s': State)
    requires Inv(s) && DoCleanPage(s, p, s')
    ensures Inv(s')
  {
    QuietStep(s, p, s'.procs[p], s');
  }

  lemma BeginScanOk(s: State, p: nat, q: seq<bv16>, s': State)
    requires Inv(s) && DoBeginScan(s, p, q, s')
    ensures Inv(s')
  {
    var d := s'.procs[p];
    forall e | Match(d.q, e)
      ensures d.present[e] <= multiset(d.found)[e] + Count(s.blocks[d.blk..d.npages], e) + d.gone[e]
    {
      CountIsHeld(s.blocks, e);
      CountCut(s.blocks, 0, |s.blocks|, e);
      assert s.blocks[0..|s.blocks|] == s.blocks;
    }
    QuietStep(s, p, d, s');
  }

  /** What a scan finds on one page. */
  ghost function Hits(s: State, q: seq<bv16>, b: nat): seq<Entry>
    requires b < |s.blocks|
  {
    if s.blocks[b].Free() then [] else Matching(q, s.blocks[b].Entries())
  }

  lemma HitsExact(s: State, q: seq<bv16>, b: nat, e: Entry)
    requires Inv(s) && IsData(s.blocks, b)
    ensures Match(q, e) ==> multiset(Hits(s, q, b))[e] == On(s.blocks[b], e)
    ensures e in Hits(s, q, b) ==> Match(q, e) && e in s.inserted
  {
    MatchingExact(q, s.blocks[b].Entries(), e);
    CountAtLeast(s.blocks, b, e);
    assert Balanced(s, e);
    if e in Hits(s, q, b) {
      assert e in multiset(Hits(s, q, b));
    }
  }

  lemma ReadCovers(s: State, d: Proc, e: Entry)
    requires Inv(s) && d.Scanning? && ScanOk(s.blocks, s.inserted, d) && d.blk < d.npages && Match(d.q, e)
    ensures d.present[e] <= multiset(d.found + Hits(s, d.q, d.blk))[e]
                            + Count(s.blocks[d.blk + 1..d.npages], e) + d.gone[e]
  {
    HitsExact(s, d.q, d.blk, e);
    CountCut(s.blocks, d.blk, d.npages, e);
    assert multiset(d.found + Hits(s, d.q, d.blk)) == multiset(d.found) + multiset(Hits(s, d.q, d.blk));
  }

  lemma ReadFound(s: State, d: Proc)
    requires Inv(s) && d.Scanning? && ScanOk(s.blocks, s.inserted, d) && d.blk < d.npages
    ensures FoundOk(d.q, d.found + Hits(s, d.q, d.blk), s.inserted)
  {
    forall e | e in d.found + Hits(s, d.q, d.blk) ensures Match(d.q, e) && e in s.inserted {
      HitsExact(s, d.q, d.blk, e);
    }
  }

  lemma ReadScan(s: State, d: Proc, d': Proc)
    requires Inv(s) && d.Scanning? && ScanOk(s.blocks, s.inserted, d) && d.blk < d.npages
    requires d' == d.(blk := d.blk + 1, found := d.found + Hits(s, d.q, d.blk))
    ensures ScanOk(s.blocks, s.inserted, d')
  {
    ReadFound(s, d);
    forall e | Match(d'.q, e)
      ensures d'.present[e] <= multiset(d'.found)[e] + Count(s.blocks[d'.blk..d'.npages], e) + d'.gone[e]
    {
      ReadCovers(s, d, e);
    }
  }

  lemma ReadPageOk(s: State, p: nat, s': State)
    requires Inv(s) && DoReadPage(s, p, s')
    ensures Inv(s')
  {
    ReadScan(s, s.At(p), s'.procs[p]);
    QuietStep(s, p, s'.procs[p], s');
  }

  /** Every step keeps the invariant. */
  lemma StepKeepsInv(s: State, a: Action, s': State)
    requires Inv(s) && Next(s, a, s')
    ensures Inv(s')
  {
    match a
    case BeginInsert(p, e) => QuietStep(s, p, Inserting(e), s');
    case ReadMeta(p) => ReadMetaOk(s, p, s');
    case TryPage(p) => TryPageOk(s, p, s');
    case LockMeta(p) => LockMetaOk(s, p, s');
    case LoopPage(p) => LoopPageOk(s, p, s');
    case Recycle(p, b, rejected) => RecycleOk(s, p, b, rejected, s');
    case Extend(p, rejected) => ExtendOk(s, p, rejected, s');
    case Fill(p) => FillOk(s, p, s');
    case BeginDelete(p, dead) => QuietStep(s, p, Deleting(dead, 1, |s.blocks|, []), s');
    case DeletePage(p) => DeletePageOk(s, p, s');
    case EndDelete(p) => QuietStep(s, p, Listing(s.At(p).list), s');
    case WriteList(p) => WriteListOk(s, p, s');
    case BeginClean(p) => QuietStep(s, p, Cleaning(1, |s.blocks|), s');
    case CleanPage(p) => CleanPageOk(s, p, s');
    case BeginScan(p, q) => BeginScanOk(s, p, q, s');
    case ReadPage(p) => ReadPageOk(s, p, s');
    case Stop(p) => QuietStep(s, p, Idle, s');
  }

  lemma InitInv(s: State)
    requires Init(s)
    ensures Inv(s)
  {
    forall e ensures Balanced(s, e) {
      CountIsHeld(s.blocks, e);
    }
  }

  lemma {:induction false} ChainInv(ss: seq<State>, acts: seq<Action>, next: (State, Action, State) -> bool,
                                    inv: State -> bool, i: nat)
    requires |ss| == |acts| + 1 && i < |ss| && inv(ss[0])
    requires forall k {:trigger acts[k]} :: 0 <= k < |acts| ==> next(ss[k], acts[k], ss[k + 1])
    requires forall s, a, s' :: inv(s) && next(s, a, s') ==> inv(s')
    ensures inv(ss[i])
  {
    if i > 0 {
      ChainInv(ss, acts, next, inv, i - 1);
      assert next(ss[i - 1], acts[i - 1], ss[(i - 1) + 1]);
    }
  }

  /** In every state of every run, the entries on the pages are exactly those inserted and not
      removed, deleted pages are empty, and all lists name data pages. */
  lemma RunsAreSafe(ss: seq<State>, acts: seq<Action>, i: nat)
    requires Run(ss, acts) && i < |ss|
    ensures Inv(ss[i])
  {
    InitInv(ss[0]);
    var next, inv := (s, a, s') => Next(s, a, s'), s => Inv(s);
    forall s, a, s' | inv(s) && next(s, a, s') ensures inv(s') {
      StepKeepsInv(s, a, s');
    }
    ChainInv(ss, acts, next, inv, i);
  }
}
