/** Insertions and bulk deletes over whole runs of the bloom index, whatever other processes do meanwhile. */
module BloomHistory {
  import opened BloomPages
  import opened BloomProtocol
  import opened BloomSafety

  lemma OtherDelete(s: State, r: nat, s': State, p: nat)
    requires DoDeletePage(s, r, s') && r != p && !s.At(p).Scanning?
    ensures s'.At(p) == s.At(p)
  {
  }

  /** A step of another process leaves a process that is not scanning where it is. */
  lemma OtherStep(s: State, a: Action, s': State, p: nat)
    requires Next(s, a, s') && a.p != p && !s.At(p).Scanning?
    ensures s'.At(p) == s.At(p)
  {
    if a.DeletePage? {
      OtherDelete(s, a.p, s', p);
    }
  }

  // ----- insertion -----

  /** The process is inserting `e` and has not done so yet. */
  predicate Carries(d: Proc, e: Entry)
  {
    (d.Inserting? || d.Trying? || d.Upgrading? || d.HoldsMeta()) && d.e == e
  }

  lemma InsertionStep(s: State, a: Action, s': State, e: Entry)
    requires Next(s, a, s') && a != Stop(a.p) && Carries(s.At(a.p), e)
    ensures if s'.At(a.p).Idle? then s'.inserted == s.inserted + multiset{e}
            else s'.inserted == s.inserted && Carries(s'.At(a.p), e)
  {
  }

  /** How often the steps `i` to `j` of process `p` have inserted `x`. */
  ghost function InsertedBy(ss: seq<State>, acts: seq<Action>, i: nat, j: nat, p: nat, x: Entry): int
    requires |ss| == |acts| + 1 && j <= |acts|
  {
    if j <= i then 0
    else InsertedBy(ss, acts, i, j - 1, p, x) +
         if acts[j - 1].p == p then ss[j].inserted[x] as int - ss[j - 1].inserted[x] else 0
  }

  /** Process `p` begins to insert `e` at step `i`, is not stopped, and has not come to rest before `j`. */
  ghost predicate InsertFrom(ss: seq<State>, acts: seq<Action>, i: nat, j: nat, p: nat, e: Entry)
  {
    && Run(ss, acts) && i < j < |ss| && acts[i] == BeginInsert(p, e)
    && forall k :: i < k < j ==> acts[k] != Stop(p) && !ss[k].At(p).Idle?
  }

  lemma CarriesOn(s: State, a: Action, s': State, p: nat, e: Entry)
    requires Next(s, a, s') && a != Stop(p) && Carries(s.At(p), e)
    ensures if s'.At(p).Idle? then a.p == p && s'.inserted == s.inserted + multiset{e}
            else Carries(s'.At(p), e) && (a.p == p ==> s'.inserted == s.inserted)
  {
    if a.p == p {
      InsertionStep(s, a, s', e);
    } else {
      OtherStep(s, a, s', p);
    }
  }

  /** The step `k` of a run: the process that carries `e` lands it or carries it on. */
  predicate Proceeds(ss: seq<State>, acts: seq<Action>, k: int, p: nat, e: Entry, x: Entry)
  {
    && |ss| == |acts| + 1 && 0 <= k < |acts|
    && var gain := if acts[k].p == p then ss[k + 1].inserted[x] as int - ss[k].inserted[x] else 0;
       Carries(ss[k].At(p), e) ==>
         if ss[k + 1].At(p).Idle? then gain == (if x == e then 1 else 0) && e in ss[k + 1].inserted
         else gain == 0 && Carries(ss[k + 1].At(p), e)
  }

  /** The insertion goes on from step `i` and does not come to rest before `j`. */
  ghost predicate AllProceed(ss: seq<State>, acts: seq<Action>, i: nat, j: nat, p: nat, e: Entry, x: Entry)
    decreases j
  {
    && |ss| == |acts| + 1 && i < j < |ss|
    && (i + 1 < j ==>
          AllProceed(ss, acts, i, j - 1, p, e, x) && Proceeds(ss, acts, j - 1, p, e, x) && !ss[j - 1].At(p).Idle?)
  }

  lemma RunProceeds(ss: seq<State>, acts: seq<Action>, k: nat, p: nat, e: Entry, x: Entry)
    requires Run(ss, acts) && k < |acts| && acts[k] != Stop(p)
    ensures Proceeds(ss, acts, k, p, e, x)
  {
    if Carries(ss[k].At(p), e) {
      CarriesOn(ss[k], acts[k], ss[k + 1], p, e);
    }
  }

  lemma {:induction false} GoesOn(ss: seq<State>, acts: seq<Action>, i: nat, j: nat, p: nat, e: Entry, x: Entry)
    requires |ss| == |acts| + 1 && i < j < |ss|
    requires forall k :: i < k < j ==> !ss[k].At(p).Idle?
    requires forall k {:trigger Proceeds(ss, acts, k, p, e, x)} :: i < k < j ==> Proceeds(ss, acts, k, p, e, x)
    ensures AllProceed(ss, acts, i, j, p, e, x)
    decreases j
  {
    if i + 1 < j {
      GoesOn(ss, acts, i, j - 1, p, e, x);
    }
  }

  lemma RunBegins(ss: seq<State>, acts: seq<Action>, k: nat, p: nat, e: Entry)
    requires Run(ss, acts) && k < |acts| && acts[k] == BeginInsert(p, e)
    ensures Carries(ss[k + 1].At(p), e) && ss[k + 1].inserted == ss[k].inserted
  {
    assert Next(ss[k], acts[k], ss[k + 1]);
  }

  lemma {:induction false} InsertionHistory(ss: seq<State>, acts: seq<Action>, i: nat, j: nat, p: nat, e: Entry,
                                            x: Entry)
    requires AllProceed(ss, acts, i, j, p, e, x)
    requires Carries(ss[i + 1].At(p), e) && ss[i + 1].inserted == ss[i].inserted
    ensures var gain := InsertedBy(ss, acts, i, j, p, x);
            if ss[j].At(p).Idle? then gain == (if x == e then 1 else 0) && e in ss[j].inserted
            else gain == 0 && Carries(ss[j].At(p), e)
  {
    if i + 1 < j {
      InsertionHistory(ss, acts, i, j - 1, p, e, x);
    }
  }

  /** An insertion that is not stopped has inserted its entry exactly once when it comes to rest, and nothing
      else. */
  lemma InsertionLands(ss: seq<State>, acts: seq<Action>, i: nat, j: nat, p: nat, e: Entry, x: Entry)
    requires InsertFrom(ss, acts, i, j, p, e) && ss[j].At(p).Idle?
    ensures InsertedBy(ss, acts, i, j, p, x) == if x == e then 1 else 0
    ensures e in ss[j].inserted
  {
    RunBegins(ss, acts, i, p, e);
    forall k {:trigger Proceeds(ss, acts, k, p, e, x)} | i < k < j ensures Proceeds(ss, acts, k, p, e, x) {
      RunProceeds(ss, acts, k, p, e, x);
    }
    GoesOn(ss, acts, i, j, p, e, x);
    InsertionHistory(ss, acts, i, j, p, e, x);
  }

  // ----- bulk delete -----

  /** Block `b` becomes `v`, and takes no more copies of `e` than were inserted. */
  predicate Changes(s: State, s': State, b: nat, v: Block, e: Entry)
  {
    && IsData(s.blocks, b) && s'.blocks == s.blocks[b := v]
    && On(v, e) + s.inserted[e] <= On(s.blocks[b], e) + s'.inserted[e] && s.inserted[e] <= s'.inserted[e]
  }

  /** What a step does to the pages. */
  ghost predicate Effect(s: State, s': State, e: Entry)
  {
    || (s'.blocks == s.blocks && s'.inserted == s.inserted)
    || (s'.blocks == s.blocks + [New] && s'.inserted == s.inserted)
    || exists b, v :: Changes(s, s', b, v, e)
  }

  lemma PutEffect(s: State, p: nat, b: nat, x: Entry, s': State, e: Entry)
    requires Inv(s) && IsData(s.blocks, b) && s' == Put(s, p, b, x).(meta := s'.meta)
    ensures Effect(s, s', e)
  {
    assert Changes(s, s', b, Added(s.blocks[b], x), e);
  }

  lemma DeleteEffect(s: State, p: nat, s': State, e: Entry)
    requires Inv(s) && DoDeletePage(s, p, s')
    ensures Effect(s, s', e)
  {
    var d := s.At(p);
    CleanedCounts(s.blocks[d.blk], d.dead, s.capacity);
    assert On(Cleaned(s.blocks[d.blk], d.dead), e) + Lost(s.blocks[d.blk], d.dead)[e] == On(s.blocks[d.blk], e);
    assert Changes(s, s', d.blk, Cleaned(s.blocks[d.blk], d.dead), e);
  }

  lemma FillEffect(s: State, p: nat, s': State, e: Entry)
    requires Inv(s) && DoFill(s, p, s')
    ensures Effect(s, s', e)
  {
    assert Changes(s, s', s.At(p).blk, Data(false, [s.At(p).e]), e);
  }

  lemma StepEffect(s: State, a: Action, s': State, e: Entry)
    requires Inv(s) && Next(s, a, s')
    ensures Effect(s, s', e)
  {
    match a
    case TryPage(p) =>
      if Fits(s.blocks[s.At(p).blk], s.capacity) {
        PutEffect(s, p, s.At(p).blk, s.At(p).e, s', e);
      }
    case LoopPage(p) =>
      if Fits(s.blocks[s.meta.notFull[s.At(p).nStart]], s.capacity) {
        PutEffect(s, p, s.meta.notFull[s.At(p).nStart], s.At(p).e, s', e);
      }
    case DeletePage(p) => DeleteEffect(s, p, s', e);
    case Fill(p) => FillEffect(s, p, s', e);
    case _ =>
  }

  /** All copies of `e` before block `lo` and from block `hi` on were inserted after there had been `base`. */
  predicate Swept(s: State, e: Entry, base: nat, lo: nat, hi: nat)
  {
    lo <= hi <= |s.blocks| && Count(s.blocks[..lo], e) + Count(s.blocks[hi..], e) + base <= s.inserted[e]
  }

  lemma CountGain(bs: seq<Block>, b: nat, v: Block, lo: nat, hi: nat, e: Entry, gain: nat)
    requires b < |bs| && lo <= hi <= |bs| && On(v, e) <= On(bs[b], e) + gain
    ensures Count(bs[b := v][lo..hi], e) <= Count(bs[lo..hi], e) + if lo <= b < hi then gain else 0
  {
    if lo <= b < hi {
      CountRange(bs[b := v], b, bs[b], lo, hi, e, gain);
      assert bs[b := v][b := bs[b]] == bs;
    } else {
      assert bs[b := v][lo..hi] == bs[lo..hi];
    }
  }

  lemma SweptGrows(bs: seq<Block>, lo: nat, hi: nat, e: Entry)
    requires lo <= hi <= |bs|
    ensures Count((bs + [New])[..lo], e) == Count(bs[..lo], e) && Count((bs + [New])[hi..], e) == Count(bs[hi..], e)
  {
    assert (bs + [New])[..lo] == bs[..lo];
    assert (bs + [New])[hi..] == bs[hi..] + [New];
    assert (bs[hi..] + [New])[..|bs| - hi] == bs[hi..];
  }

  lemma SweptChanges(bs: seq<Block>, b: nat, v: Block, lo: nat, hi: nat, e: Entry, gain: nat)
    requires b < |bs| && lo <= hi <= |bs| && On(v, e) <= On(bs[b], e) + gain
    ensures Count(bs[b := v][..lo], e) + Count(bs[b := v][hi..], e) <= Count(bs[..lo], e) + Count(bs[hi..], e) + gain
  {
    CountGain(bs, b, v, 0, lo, e, gain);
    CountGain(bs, b, v, hi, |bs|, e, gain);
    assert bs[0..lo] == bs[..lo] && bs[b := v][0..lo] == bs[b := v][..lo];
    assert bs[hi..|bs|] == bs[hi..] && bs[b := v][hi..|bs|] == bs[b := v][hi..];
  }

  lemma SweptStays(s: State, s': State, e: Entry, base: nat, lo: nat, hi: nat)
    requires Swept(s, e, base, lo, hi) && Effect(s, s', e)
    ensures Swept(s', e, base, lo, hi)
  {
    SweptGrows(s.blocks, lo, hi, e);
    if b, v :| Changes(s, s', b, v, e) {
      SweptChanges(s.blocks, b, v, lo, hi, e, s'.inserted[e] - s.inserted[e]);
    }
  }

  lemma CleanedHasNone(b: Block, dead: set<nat>, capacity: nat, e: Entry)
    requires e.tid in dead && BlockOk(b, capacity)
    ensures On(Cleaned(b, dead), e) == 0
  {
    if b.Data? {
      KeptExact(b.entries, dead, e);
    }
  }

  lemma SweptOn(bs: seq<Block>, b: nat, v: Block, hi: nat, e: Entry)
    requires b < hi <= |bs| && On(v, e) == 0
    ensures Count(bs[b := v][..b + 1], e) + Count(bs[b := v][hi..], e) == Count(bs[..b], e) + Count(bs[hi..], e)
  {
    assert bs[b := v][hi..] == bs[hi..];
    assert bs[b := v][..b + 1] == bs[..b] + [v];
    assert (bs[..b] + [v])[..b] == bs[..b];
  }

  lemma DeletedPage(s: State, p: nat, s': State, e: Entry)
    requires Inv(s) && DoDeletePage(s, p, s') && e.tid in s.At(p).dead
    ensures s'.inserted == s.inserted
    ensures var d := s.At(p); exists v :: s'.blocks == s.blocks[d.blk := v] && On(v, e) == 0
  {
    var d := s.At(p);
    CleanedHasNone(s.blocks[d.blk], d.dead, s.capacity, e);
  }

  lemma SweptPage(s: State, s': State, e: Entry, base: nat, b: nat, v: Block, hi: nat)
    requires Swept(s, e, base, b, hi) && b < hi && On(v, e) == 0
    requires s'.blocks == s.blocks[b := v] && s'.inserted == s.inserted
    ensures Swept(s', e, base, b + 1, hi)
  {
    SweptOn(s.blocks, b, v, hi, e);
  }

  /** Process `p` begins to delete the rows `dead` at step `i` and neither ends nor is stopped before `j`. */
  ghost predicate DeleteFrom(ss: seq<State>, acts: seq<Action>, i: nat, j: nat, p: nat, dead: set<nat>)
  {
    && Run(ss, acts) && i < j < |ss| && acts[i] == BeginDelete(p, dead)
    && forall k :: i < k < j ==> acts[k] != Stop(p) && acts[k] != EndDelete(p)
  }

  lemma DeleteStep(s: State, a: Action, s': State, p: nat, dead: set<nat>, e: Entry, base: nat)
    requires Inv(s) && Next(s, a, s') && a != Stop(p) && a != EndDelete(p) && e.tid in dead
    requires s.At(p).Deleting? && s.At(p).dead == dead && Swept(s, e, base, s.At(p).blk, s.At(p).npages)
    ensures s'.At(p).Deleting? && s'.At(p).dead == dead && Swept(s', e, base, s'.At(p).blk, s'.At(p).npages)
  {
    if a.p == p {
      var d := s.At(p);
      DeletedPage(s, p, s', e);
      var v :| s'.blocks == s.blocks[d.blk := v] && On(v, e) == 0;
      SweptPage(s, s', e, base, d.blk, v, d.npages);
    } else {
      OtherStep(s, a, s', p);
      StepEffect(s, a, s', e);
      SweptStays(s, s', e, base, s.At(p).blk, s.At(p).npages);
    }
  }

  lemma DeleteBegins(s: State, p: nat, dead: set<nat>, s': State, e: Entry)
    requires Inv(s) && DoBeginDelete(s, p, dead, s')
    ensures Swept(s', e, s.inserted[e], 1, |s.blocks|)
  {
    assert s.blocks[..1] == [Meta] && s.blocks[..1][..0] == [] && s.blocks[|s.blocks|..] == [];
  }

  lemma {:induction false} DeleteHistory(ss: seq<State>, acts: seq<Action>, i: nat, j: nat, p: nat,
                                         dead: set<nat>, e: Entry)
    requires DeleteFrom(ss, acts, i, j, p, dead) && e.tid in dead
    ensures var d := ss[j].At(p);
      d.Deleting? && d.dead == dead && Swept(ss[j], e, ss[i].inserted[e], d.blk, d.npages)
  {
    RunsAreSafe(ss, acts, j - 1);
    assert Next(ss[j - 1], acts[j - 1], ss[(j - 1) + 1]);
    if i + 1 < j {
      DeleteHistory(ss, acts, i, j - 1, p, dead, e);
      DeleteStep(ss[j - 1], acts[j - 1], ss[j], p, dead, e, ss[i].inserted[e]);
    } else {
      DeleteBegins(ss[i], p, dead, ss[j], e);
    }
  }

  lemma {:induction false} CountParts(bs: seq<Block>, n: nat, e: Entry)
    requires n <= |bs|
    ensures Count(bs, e) == Count(bs[..n], e) + Count(bs[n..], e)
    decreases |bs| - n
  {
    if n == |bs| {
      assert bs[..n] == bs && bs[n..] == [];
    } else {
      CountParts(bs, n + 1, e);
      CountCut(bs, n, |bs|, e);
      assert bs[n..|bs|] == bs[n..] && bs[n + 1..|bs|] == bs[n + 1..];
      assert bs[..n + 1][..n] == bs[..n];
    }
  }

  /** A bulk delete is complete, whatever goes on beside it: when it has been over all its pages, the entries
      of dead rows still on the pages were inserted since it began. */
  lemma DeleteIsComplete(ss: seq<State>, acts: seq<Action>, i: nat, j: nat, p: nat, dead: set<nat>, e: Entry)
    requires DeleteFrom(ss, acts, i, j, p, dead) && j < |acts| && acts[j] == EndDelete(p) && e.tid in dead
    ensures Count(ss[j + 1].blocks, e) + ss[i].inserted[e] <= ss[j + 1].inserted[e]
  {
    DeleteHistory(ss, acts, i, j, p, dead, e);
    assert Next(ss[j], acts[j], ss[j + 1]);
    CountParts(ss[j].blocks, ss[j].At(p).blk, e);
  }
}
