/** The read-only B-tree checker: walks over an arbitrary page graph that either raise an error,
    are interrupted, or stay silent. */
module NbtreeCheck {
  import opened Wrappers
  import opened Lexicographic
  import opened NbtreePages
  import opened NbtreeWalk
  import opened NbtreeSpec
  import opened NbtreeEndless

  /** `Corrupt` is a reported inconsistency.  Some loops need not end on a corrupt graph; they are
      left with `Interrupted` once the allowance of steps is used up. */
  datatype Outcome<+T> = Silent(value: T) | Corrupt | Interrupted
  {
    predicate IsFailure() { !Silent? }

    function PropagateFailure<U>(): Outcome<U>
      requires IsFailure()
    {
      if Corrupt? then Corrupt else Interrupted
    }

    function Extract(): T
      requires Silent?
    {
      value
    }
  }

  /** `r` decides `ok`. It gives up on a graph that passes only if the allowance is not above the number of
      blocks; with an allowance of more than twice that number it gives up exactly if the original never
      ends. */
  ghost predicate Decides<T>(r: Outcome<T>, ok: bool, hangs: bool, g: Graph, limit: nat)
  {
    && (r.Silent? ==> ok && !hangs)
    && (r.Corrupt? ==> !ok && !hangs)
    && (r.Interrupted? && ok ==> limit <= |g|)
    && (r.Interrupted? && limit > 2 * |g| ==> hangs)
  }

  lemma {:induction false} NeverStuck(w: Trek, t: seq<nat>)
    requires w.stuck == Never()
    ensures Clear(w, t)
  {
    if t != [] {
      NeverStuck(w, t[..|t| - 1]);
    }
  }

  /** A walk at block `b` with plain tests either passes it or is over. */
  lemma PlainStep(w: Trek, t: seq<nat>, b: nat)
    requires At(w, t, b) && w.stuck == Never()
    ensures Completes(w) ==> |t| < |w.dom|
    ensures !(b in w.dom && w.ok(t, b)) ==> !Completes(w) && !Hangs(w)
  {
    NeverStuck(w, t);
    if Completes(w) {
      NextBlock(w, t, b);
    }
    if !(b in w.dom && w.ok(t, b)) {
      DeadEnd(w, t, b);
    }
  }

  lemma PlainEnd(w: Trek, t: seq<nat>)
    requires Whole(w, t) && w.stuck == Never()
    ensures !Hangs(w)
  {
    NeverStuck(w, t);
    EndDoesNotHang(w, t);
  }

  lemma GivenUp<T>(w: Trek, t: seq<nat>, b: nat, g: Graph, limit: nat, r: Outcome<T>)
    requires At(w, t, b) && |t| >= limit && Recurrent(w) && w.dom == g.Keys && r.Interrupted?
    ensures Decides(r, Completes(w), Hangs(w), g, limit)
  {
    if Completes(w) {
      NextBlock(w, t, b);
    }
    if limit > 2 * |w.dom| {
      LongIsForever(w, t);
    }
  }

  /** What the outcome `r` of the test on block `b` means for the walk that has come to it. */
  lemma WalkStep<T>(w: Trek, t: seq<nat>, b: nat, r: Outcome<T>, g: Graph, limit: nat)
    requires At(w, t, b) && Clear(w, t) && w.dom == g.Keys
    requires Decides(r, w.ok(t, b), w.stuck(t, b), g, limit) && (r.Silent? ==> b in g)
    ensures !r.Silent? ==> Decides(r, Completes(w), Hangs(w), g, limit)
    ensures r.Silent? && w.stop(b) ==> Whole(w, t + [b]) && !Hangs(w)
    ensures r.Silent? && !w.stop(b) ==> At(w, t + [b], w.next(b)) && Clear(w, t + [b])
  {
    if Completes(w) {
      NextBlock(w, t, b);
    }
    if r.Silent? {
      ClearSnoc(w, t, b);
      Advance(w, t, b);
      if w.stop(b) {
        EndDoesNotHang(w, t + [b]);
      }
    } else if r.Corrupt? {
      DeadEnd(w, t, b);
    }
  }

  /** A walk left through half-dead pages that point back meets no page twice. */
  lemma LeftwardDistinct(g: Graph, start: nat, t: seq<nat>, b: nat)
    requires At(LeftTrek(g, start), t, b) && Distinct(t) && t != []
    requires LeftTrek(g, start).ok(t, b) && b in g && b != start
    ensures Distinct(t + [b])
  {
    PathAt(LeftTrek(g, start), t, 0);
    forall i | 0 <= i < |t| ensures t[i] != b {
      if i > 0 {
        PathAt(LeftTrek(g, start), t, i);
        assert Last(t[..i]) == t[i - 1];
      }
    }
  }

  lemma LeftwardRevisit(g: Graph, start: nat, t: seq<nat>, b: nat)
    requires At(LeftTrek(g, start), t, b) && t != []
    requires Completes(LeftTrek(g, start))
    ensures b != start && b != Last(t)
  {
    var whole :| Whole(LeftTrek(g, start), whole);
    PathIsPrefix(LeftTrek(g, start), t, b, whole);
    WholeDistinct(LeftTrek(g, start), whole);
    PathAt(LeftTrek(g, start), whole, 0);
    assert whole[..|t|][0] == start && whole[..|t|][|t| - 1] == Last(t);
  }

  lemma RightKeyFound(g: Graph, b: nat, t: seq<nat>)
    requires b in g && !g[b].Rightmost() && Whole(RightTrek(g, b), t)
    ensures forall key :: RightKey(g, b, key) <==> key == g[Last(t)].FirstRealKey()
  {
    forall u | Whole(RightTrek(g, b), u) ensures u == t {
      WholeUnique(RightTrek(g, b), t, u);
    }
  }

  // Tests that a loop treats as black boxes are spelled out only where an instance is asked for.

  predicate VisitInstance(b: nat, passed: seq<nat>) { true }

  ghost predicate TestsVisit(w: Trek, g: Graph, c: Call, l: Linkage)
  {
    && w.dom == g.Keys && w.next == NextOf(g)
    && (forall b: nat, passed: seq<nat> {:trigger VisitInstance(b, passed)} ::
          VisitInstance(b, passed) ==>
            && (w.ok(passed, b) <==> VisitOk(g, c, l, b, passed == [], RightSplit(g, l, passed)))
            && (w.stuck(passed, b) <==> VisitHangs(g, c, l, b, passed == [], RightSplit(g, l, passed)))
            && (w.stop(b) <==> if c.Downlink() == P_NONE then EndOfLevel(g, b) else b == c.Downlink()))
  }

  lemma RightSplitSnoc(g: Graph, l: Linkage, t: seq<nat>, b: nat)
    requires b in g
    ensures RightSplit(g, l, t + [b]) == g[b].incompleteSplit && |t + [b]| == |t| + 1
  {
  }

  predicate OffsetInstance(off: nat, l: Linkage) { true }

  ghost predicate TestsPage(ok: OffsetTest, stuck: OffsetTest, g: Graph, b: nat, low: Option<Key>)
    requires b in g
  {
    forall off: nat, l {:trigger OffsetInstance(off, l)} :: OffsetInstance(off, l) ==>
      && (ok(off, l) <==> OffsetOk(g, b, low, off, l))
      && (stuck(off, l) <==> OffsetHangs(g, b, low, off, l))
  }

  /** No item before offset `off` is stuck. */
  ghost predicate ClearUpTo(g: Graph, p: Page, stuck: OffsetTest, low: Option<Key>, l: Linkage, off: nat)
  {
    off <= p.FirstData() ||
    (ClearUpTo(g, p, stuck, low, l, off - 1) && !stuck(off - 1, Link(g, p, low, l, off - 1)))
  }

  lemma {:induction false} ClearOffset(g: Graph, p: Page, stuck: OffsetTest, low: Option<Key>, l: Linkage,
                                       off: nat, o: nat)
    requires ClearUpTo(g, p, stuck, low, l, off) && p.FirstData() <= o < off
    ensures !stuck(o, Link(g, p, low, l, o))
  {
    if o < off - 1 {
      ClearOffset(g, p, stuck, low, l, off - 1, o);
    }
  }

  /** The check of a page ends at the first item that fails. */
  lemma PageFails(g: Graph, p: Page, ok: OffsetTest, stuck: OffsetTest, low: Option<Key>, l: Linkage, off: nat)
    requires p.FirstData() <= off <= |p.items| && ClearUpTo(g, p, stuck, low, l, off)
    requires !ok(off, Link(g, p, low, l, off)) && !stuck(off, Link(g, p, low, l, off))
    ensures !PagePasses(g, p, ok, low, l) && !PageStuck(g, p, ok, stuck, low, l)
  {
    if PassUpTo(g, p, ok, low, l, |p.items| + 1) {
      PassAt(g, p, ok, low, l, |p.items| + 1, off);
    }
    forall o: nat | StuckAt(g, p, ok, stuck, low, l, o) ensures false {
      if o < off {
        ClearOffset(g, p, stuck, low, l, off, o);
      } else if off < o {
        PassAt(g, p, ok, low, l, o, off);
      }
    }
  }

  lemma ItemStep<T>(g: Graph, p: Page, ok: OffsetTest, stuck: OffsetTest, low: Option<Key>, l: Linkage, off: nat,
                    r: Outcome<T>, limit: nat)
    requires p.FirstData() <= off <= |p.items|
    requires PassUpTo(g, p, ok, low, l, off) && ClearUpTo(g, p, stuck, low, l, off)
    requires Decides(r, ok(off, Link(g, p, low, l, off)), stuck(off, Link(g, p, low, l, off)), g, limit)
    ensures !r.Silent? ==> Decides(r, PagePasses(g, p, ok, low, l), PageStuck(g, p, ok, stuck, low, l), g, limit)
    ensures r.Silent? ==> PassUpTo(g, p, ok, low, l, off + 1) && ClearUpTo(g, p, stuck, low, l, off + 1)
  {
    if r.Corrupt? {
      PageFails(g, p, ok, stuck, low, l, off);
    } else if r.Interrupted? {
      if PagePasses(g, p, ok, low, l) {
        PassAt(g, p, ok, low, l, |p.items| + 1, off);
      }
      if limit > 2 * |g| {
        assert StuckAt(g, p, ok, stuck, low, l, off);
      }
    }
  }

  lemma ItemsEnd(g: Graph, p: Page, ok: OffsetTest, stuck: OffsetTest, low: Option<Key>, l: Linkage)
    requires PassUpTo(g, p, ok, low, l, |p.items| + 1) && ClearUpTo(g, p, stuck, low, l, |p.items| + 1)
    ensures PageStuck(g, p, ok, stuck, low, l) <==>
              !p.leaf && p.Rightmost() && stuck(0, Link(g, p, low, l, |p.items| + 1))
  {
    forall o: nat | StuckAt(g, p, ok, stuck, low, l, o) ensures false {
      ClearOffset(g, p, stuck, low, l, |p.items| + 1, o);
    }
  }

  lemma TargetLevel(g: Graph, lv: Level, t: seq<nat>, i: nat)
    requires LevelSilent(g, lv, t) && i < |t|
    ensures Loads(g, t[i]) && t[i] != P_NONE
    ensures !g[t[i]].Ignorable() ==> g[t[i]].level == lv.level
  {
    PathAt(LevelTrek(g, lv), t, i);
  }

  /** The level found below `lv` is the level number below it, unless there is none. */
  lemma {:induction false} NextIsBelow(g: Graph, lv: Level, t: seq<nat>, n: nat)
    requires n <= |t|
    requires forall i :: 0 <= i < |t| ==> t[i] != P_NONE
    requires forall i :: 0 <= i < |t| ==> Loads(g, t[i]) && (!g[t[i]].Ignorable() ==> g[t[i]].level == lv.level)
    ensures var down := Known(g, t[..n]).down;
      down.leftmost == INVALID_BLOCK || down.leftmost == P_NONE || down.level + 1 == lv.level
  {
    if n > 0 {
      NextIsBelow(g, lv, t, n - 1);
      assert t[..n] == t[..n - 1] + [t[n - 1]];
      KnownStep(g, t[..n - 1], t[n - 1]);
    }
  }

  lemma DownIsBelow(g: Graph, lv: Level, t: seq<nat>)
    requires LevelSilent(g, lv, t)
    ensures var down := Known(g, t).down;
      down.leftmost == INVALID_BLOCK || down.leftmost == P_NONE || down.level + 1 == lv.level
  {
    forall i | 0 <= i < |t|
      ensures Loads(g, t[i]) && t[i] != P_NONE && (!g[t[i]].Ignorable() ==> g[t[i]].level == lv.level)
    {
      TargetLevel(g, lv, t, i);
    }
    NextIsBelow(g, lv, t, |t|);
    assert t[..|t|] == t;
  }

  /** What is left to check after level `lv` is the level found below it. */
  lemma IndexUnfold(g: Graph, lv: Level, t: seq<nat>)
    requires lv.leftmost != P_NONE && LevelSilent(g, lv, t)
    ensures var down := Known(g, t).down;
      && (IndexSilent(g, lv) <==> down.leftmost != INVALID_BLOCK && IndexSilent(g, down))
      && (!Hangs(LevelTrek(g, lv)) ==>
            (IndexHangs(g, lv) <==> down.leftmost != INVALID_BLOCK && IndexHangs(g, down)))
  {
    DownIsBelow(g, lv, t);
    forall u | LevelSilent(g, lv, u) ensures u == t {
      WholeUnique(LevelTrek(g, lv), t, u);
    }
  }

  predicate TargetInstance(passed: seq<nat>, b: nat) { true }

  ghost predicate TestsLevel(w: Trek, g: Graph, lv: Level)
  {
    && w.dom == g.Keys && w.next == NextOf(g)
    && (forall passed: seq<nat>, b: nat {:trigger TargetInstance(passed, b)} ::
          TargetInstance(passed, b) ==>
            && (w.ok(passed, b) <==> TargetOk(g, lv, passed, b))
            && (w.stuck(passed, b) <==> TargetHangs(g, lv, passed, b))
            && (w.stop(b) <==> EndOfLevel(g, b)))
  }

  class BtreeCheckState {
    const g: Graph
    const limit: nat
    var targetblock: nat
    var lowkey: Option<Key>
    var prevrightlink: nat
    var previncompletesplit: bool

    constructor (g: Graph, limit: nat)
      ensures this.g == g && this.limit == limit
    {
      this.g := g;
      this.limit := limit;
      targetblock, lowkey := P_NONE, None;
      prevrightlink, previncompletesplit := INVALID_BLOCK, false;
    }

    ghost function State(): Linkage
      reads this`prevrightlink, this`previncompletesplit
    {
      Linkage(prevrightlink, previncompletesplit)
    }

    /** Ends on every graph: the pages passed all point back, so none is passed twice. */
    method LeftmostIgnoringHalfDead(start: nat) returns (r: Outcome<bool>)
      requires Loads(g, start)
      ensures !r.Interrupted?
      ensures r == Silent(true) <==> Leftmost(g, start)
    {
      var reached, reachedFrom := g[start].prev, start;
      ghost var w := LeftTrek(g, start);
      ghost var t := [start];
      Advance(w, [], start);
      while reached != P_NONE
        invariant t != [] && Last(t) == reachedFrom && Distinct(t) && |t| <= |g|
        invariant if reached == P_NONE then Whole(w, t) else At(w, t, reached)
        decreases |g| - |t|
      {
        if Completes(w) {
          NextBlock(w, t, reached);
          LeftwardRevisit(g, start, t, reached);
        }
        if !Loads(g, reached) {
          return Corrupt;
        }
        var page := g[reached];
        var allHalfDead := page.halfDead && reached != start && reached != reachedFrom &&
          page.next == reachedFrom;
        if !allHalfDead {
          return Silent(false);
        }
        LeftwardDistinct(g, start, t, reached);
        Advance(w, t, reached);
        t := t + [reached];
        PathBound(w, t);
        reachedFrom := reached;
        reached := page.prev;
      }
      return Silent(true);
    }

    /** A live page without a downlink is accepted exactly when one of the excuses applies. */
    method DownlinkMissingCheck(rightsplit: bool, blkno: nat) returns (r: Outcome<()>)
      requires Loads(g, blkno) && !g[blkno].Ignorable() && blkno != P_NONE
      ensures Decides(r, Excused(g, blkno, rightsplit), ExcuseHangs(g, blkno, rightsplit), g, limit)
    {
      if g[blkno].root || rightsplit {
        return Silent(());
      }
      if g[blkno].leaf {
        return Corrupt;
      }
      DescentRecurrent(g, blkno);
      r := FindTopParent(blkno, DescentTrek(g, blkno));
    }

    /** The loop down to a leaf that names `blkno` as the top parent of its deletion. */
    method FindTopParent(blkno: nat, ghost w: Trek) returns (r: Outcome<()>)
      requires Loads(g, blkno) && !g[blkno].Ignorable() && blkno != P_NONE && !g[blkno].leaf
      requires w == DescentTrek(g, blkno) && Recurrent(w)
      ensures Decides(r, Completes(w), Hangs(w), g, limit)
    {
      var level := g[blkno].level;
      var childblk := g[blkno].At(g[blkno].FirstData()).link;
      var steps := 1;
      ghost var t := [blkno];
      Advance(w, [], blkno);
      while true
        invariant At(w, t, childblk) && |t| == steps
        invariant Last(t) in g && g[Last(t)].level == level
        decreases limit - steps
      {
        PlainStep(w, t, childblk);
        if steps > limit {
          r := Interrupted;
          GivenUp(w, t, childblk, g, limit, r);
          return;
        }
        if !Loads(g, childblk) {
          return Corrupt;
        }
        var child := g[childblk];
        if child.leaf {
          if child.deleted {
            return Corrupt;
          }
          if child.halfDead && !child.Rightmost() && child.Has(P_HIKEY) &&
             child.At(P_HIKEY).link == blkno
          {
            Advance(w, t, childblk);
            PlainEnd(w, t + [childblk]);
            return Silent(());
          }
          return Corrupt;
        }
        if child.level != Below(level) || !child.Has(child.FirstData()) {
          return Corrupt;
        }
        Advance(w, t, childblk);
        t := t + [childblk];
        level := child.level;
        childblk := child.At(child.FirstData()).link;
        steps := steps + 1;
      }
    }

    /** Visits the child level from the child reached last to the downlink at `off`, or to the
        end of the level when `off` is 0. */
    method ChildHighkeyCheck(off: nat) returns (r: Outcome<()>)
      requires Loads(g, targetblock) && (off == 0 || g[targetblock].Has(off))
      modifies `prevrightlink, `previncompletesplit
      ensures var c := Call(g[targetblock], off, lowkey);
        Decides(r, CallSilent(g, c, old(State())), CallHangs(g, c, old(State())), g, limit)
      ensures r.Silent? ==> State() == After(g, Call(g[targetblock], off, lowkey))
    {
      var blkno: nat, rightsplit: bool := prevrightlink, previncompletesplit;
      var downlink := if off == 0 then P_NONE else g[targetblock].At(off).link;
      if blkno == INVALID_BLOCK {
        blkno := downlink;
        rightsplit := false;
      }
      ghost var c, l := Call(g[targetblock], off, lowkey), State();
      if blkno == P_NONE && downlink == P_NONE {
        r := Silent(());
      } else {
        ChildRecurrent(g, c, l);
        r := FollowRightlinks(off, downlink, blkno, rightsplit, ChildTrek(g, c, l));
      }
      if r.Silent? {
        if downlink == P_NONE {
          prevrightlink, previncompletesplit := INVALID_BLOCK, false;
        } else {
          prevrightlink, previncompletesplit := g[downlink].next, g[downlink].incompleteSplit;
        }
      }
    }

    /** The loop over the child level. */
    method FollowRightlinks(off: nat, downlink: nat, start: nat, rs: bool, ghost w: Trek)
      returns (r: Outcome<()>)
      requires Loads(g, targetblock) && (off == 0 || g[targetblock].Has(off))
      requires downlink == Call(g[targetblock], off, lowkey).Downlink()
      requires rs == RightSplit(g, State(), []) && start == w.start
      requires TestsVisit(w, g, Call(g[targetblock], off, lowkey), State()) && Recurrent(w)
      ensures Decides(r, Completes(w), Hangs(w), g, limit)
      ensures r.Silent? && downlink != P_NONE ==> downlink in g
    {
      var blkno, rightsplit, steps, last := start, rs, 0, false;
      ghost var t: seq<nat> := [];
      while true
        invariant At(w, t, blkno) && |t| == steps && Clear(w, t)
        invariant rightsplit == RightSplit(g, State(), t)
        decreases limit - steps
      {
        if steps >= limit {
          r := Interrupted;
          GivenUp(w, t, blkno, g, limit, r);
          return;
        }
        r, last, blkno, rightsplit, t := ChildTurn(off, downlink, blkno, steps == 0, rightsplit, w, t);
        if last {
          return;
        }
        steps := steps + 1;
      }
    }

    /** One turn of the loop over the child level; `last` says that it is over. */
    method ChildTurn(off: nat, downlink: nat, blkno: nat, first: bool, rs: bool, ghost w: Trek, ghost t: seq<nat>)
      returns (r: Outcome<()>, last: bool, next: nat, rightsplit: bool, ghost t': seq<nat>)
      requires Loads(g, targetblock) && (off == 0 || g[targetblock].Has(off))
      requires downlink == Call(g[targetblock], off, lowkey).Downlink()
      requires first == (t == []) && rs == RightSplit(g, State(), t)
      requires TestsVisit(w, g, Call(g[targetblock], off, lowkey), State())
      requires At(w, t, blkno) && Clear(w, t)
      ensures last ==> Decides(r, Completes(w), Hangs(w), g, limit)
      ensures last && r.Silent? && downlink != P_NONE ==> downlink in g
      ensures !last ==> At(w, t', next) && |t'| == |t| + 1 && Clear(w, t') && rightsplit == RightSplit(g, State(), t')
    {
      next, rightsplit, t' := blkno, rs, t;
      r := VisitChild(off, downlink, blkno, first, rs, w, t);
      WalkStep(w, t, blkno, r, g, limit);
      last := !r.Silent? || blkno == downlink || (g[blkno].next == P_NONE && downlink == P_NONE);
      if !last {
        RightSplitSnoc(g, State(), t, blkno);
        next, rightsplit, t' := g[blkno].next, g[blkno].incompleteSplit, t + [blkno];
      }
    }

    /** The tests on one page of the child level. */
    method VisitChild(off: nat, downlink: nat, blkno: nat, first: bool, rightsplit: bool,
                      ghost w: Trek, ghost t: seq<nat>)
      returns (r: Outcome<()>)
      requires Loads(g, targetblock) && (off == 0 || g[targetblock].Has(off))
      requires downlink == Call(g[targetblock], off, lowkey).Downlink()
      requires first == (t == []) && rightsplit == RightSplit(g, State(), t)
      requires TestsVisit(w, g, Call(g[targetblock], off, lowkey), State())
      ensures Decides(r, w.ok(t, blkno), w.stuck(t, blkno), g, limit)
      ensures r.Silent? ==> blkno in g && blkno != P_NONE
      ensures r.Silent? ==> (w.stop(blkno) <==>
                if downlink == P_NONE then g[blkno].Rightmost() else blkno == downlink)
      ensures r.Silent? ==> w.next(blkno) == g[blkno].next
    {
      assert VisitInstance(blkno, t);
      r := VisitLinks(blkno, first, Call(g[targetblock], off, lowkey));
      if !r.Silent? {
        return;
      }
      var page := g[blkno];
      if blkno != downlink && !page.Ignorable() {
        var _ :- DownlinkMissingCheck(rightsplit, blkno);
      }
      if !page.incompleteSplit && !page.Rightmost() {
        r := PivotCheck(off, blkno == downlink, page);
      }
    }

    /** Level and links of a page of the child level. */
    method VisitLinks(blkno: nat, first: bool, ghost c: Call) returns (r: Outcome<()>)
      requires Loads(g, targetblock) && c.target == g[targetblock]
      ensures r == if VisitLinked(g, c, State(), blkno, first) then Silent(()) else Corrupt
    {
      if blkno == P_NONE || !Loads(g, blkno) {
        return Corrupt;
      }
      var page := g[blkno];
      if first && prevrightlink == INVALID_BLOCK {
        var leftmost :- LeftmostIgnoringHalfDead(blkno);
        if !leftmost {
          return Corrupt;
        }
      }
      if (!page.deleted || page.fullXid) && page.level != g[targetblock].level - 1 {
        return Corrupt;
      }
      if (!first && blkno == prevrightlink) || blkno == page.prev {
        return Corrupt;
      }
      return Silent(());
    }

    /** The high key of a child page against the key of the target level next to it. */
    method PivotCheck(off: nat, atDownlink: bool, page: Page) returns (r: Outcome<()>)
      requires Loads(g, targetblock) && (off == 0 || g[targetblock].Has(off))
      ensures r == if HighKeyMatches(page, Call(g[targetblock], off, lowkey).Pivot(atDownlink))
                   then Silent(()) else Corrupt
    {
      var target := g[targetblock];
      if !page.Has(P_HIKEY) {
        return Corrupt;
      }
      var pivotOff := if atDownlink then off + 1 else off;
      var itup: Key;
      if !target.NegativeInfinity(pivotOff) {
        if pivotOff > |target.items| {
          if target.Rightmost() {
            return Corrupt;
          }
          pivotOff := P_HIKEY;
        }
        if !target.Has(pivotOff) {
          return Corrupt;
        }
        itup := target.At(pivotOff).key;
      } else {
        if lowkey == None {
          return Corrupt;
        }
        itup := lowkey.value;
      }
      return if page.At(P_HIKEY).key == itup then Silent(()) else Corrupt;
    }

    /** The first real key to the right of the target page, if there is one. */
    method RightPageCheckScankey() returns (r: Outcome<Option<Key>>)
      requires Loads(g, targetblock)
      ensures Decides(r, exists key :: RightKey(g, targetblock, key),
                      !g[targetblock].Rightmost() && Hangs(RightTrek(g, targetblock)), g, limit)
      ensures r.Silent? ==> RightKey(g, targetblock, r.value)
      ensures r.Silent? ==> forall key :: RightKey(g, targetblock, key) ==> key == r.value
    {
      if g[targetblock].Rightmost() {
        assert RightKey(g, targetblock, None);
        return Silent(None);
      }
      RightRecurrent(g, targetblock);
      var right :- SkipIgnorable(g[targetblock].next, RightTrek(g, targetblock));
      ghost var t :| Whole(RightTrek(g, targetblock), t) && Last(t) == right;
      RightKeyFound(g, targetblock, t);
      assert RightKey(g, targetblock, g[right].FirstRealKey());
      return Silent(g[right].FirstRealKey());
    }

    /** The loop over pages to be ignored. */
    method SkipIgnorable(start: nat, ghost w: Trek) returns (r: Outcome<nat>)
      requires w.dom == g.Keys && w.start == start && w.next == NextOf(g) && w.stuck == Never() && Recurrent(w)
      requires forall t, b :: w.ok(t, b) <==> Loads(g, b)
      requires forall b :: w.stop(b) <==> b in g && (!g[b].Ignorable() || g[b].Rightmost())
      ensures Decides(r, Completes(w), Hangs(w), g, limit)
      ensures r.Silent? ==> exists t :: Whole(w, t) && Last(t) == r.value
    {
      var targetnext, steps := start, 0;
      ghost var t: seq<nat> := [];
      while true
        invariant At(w, t, targetnext) && |t| == steps
        decreases limit - steps
      {
        PlainStep(w, t, targetnext);
        if steps >= limit {
          r := Interrupted;
          GivenUp(w, t, targetnext, g, limit, r);
          return;
        }
        if !Loads(g, targetnext) {
          return Corrupt;
        }
        Advance(w, t, targetnext);
        t := t + [targetnext];
        var page := g[targetnext];
        if !page.Ignorable() || page.Rightmost() {
          PlainEnd(w, t);
          return Silent(targetnext);
        }
        targetnext := page.next;
        steps := steps + 1;
      }
    }

    /** The key at `off` against the items of the child it points to. */
    method ChildCheck(off: nat) returns (r: Outcome<()>)
      requires Loads(g, targetblock) && g[targetblock].Has(off)
      modifies `prevrightlink, `previncompletesplit
      ensures var c := Call(g[targetblock], off, lowkey);
        Decides(r, CallSilent(g, c, old(State())) && DownlinkBound(g, g[targetblock], off),
                Loads(g, g[targetblock].At(off).link) && CallHangs(g, c, old(State())), g, limit)
      ensures r.Silent? ==> State() == After(g, Call(g[targetblock], off, lowkey))
    {
      if !Loads(g, g[targetblock].At(off).link) {
        return Corrupt;
      }
      r := ChildHighkeyCheck(off);
      if r.Silent? {
        r := ChildItemsCheck(g[targetblock], off);
      }
    }

    method ChildItemsCheck(target: Page, off: nat) returns (r: Outcome<()>)
      requires target.Has(off) && Loads(g, target.At(off).link)
      ensures r == if DownlinkBound(g, target, off) then Silent(()) else Corrupt
    {
      var itup := target.At(off);
      var child := g[itup.link];
      if child.deleted {
        return Corrupt;
      }
      var offset: nat := child.FirstData();
      while offset <= |child.items|
        invariant forall o: nat :: child.Real(o) && o < offset ==> Less(itup.key, child.At(o).key)
      {
        if !child.NegativeInfinity(offset) {
          InvariantsDecideOrder(itup.key, child.At(offset).key);
          if !InvariantL(itup.key, child.At(offset).key) {
            assert child.Real(offset);
            return Corrupt;
          }
        }
        offset := offset + 1;
      }
      return Silent(());
    }

    /** High key check, item order check and last item check of the item at `off`. */
    method KeyCheck(off: nat) returns (r: Outcome<()>)
      requires Loads(g, targetblock) && g[targetblock].Real(off)
      ensures Decides(r, KeyOk(g, targetblock, off), KeyHangs(g, targetblock, off), g, limit)
    {
      var p := g[targetblock];
      var skey := p.At(off).key;
      if !p.Rightmost() {
        var hikey := p.At(P_HIKEY).key;
        InvariantsDecideOrder(skey, hikey);
        if !(if p.leaf then InvariantLeq(skey, hikey) else InvariantL(skey, hikey)) {
          return Corrupt;
        }
      }
      if off + 1 <= |p.items| {
        InvariantsDecideOrder(skey, p.At(off + 1).key);
        if !InvariantL(skey, p.At(off + 1).key) {
          return Corrupt;
        }
      } else {
        var rightkey :- RightPageCheckScankey();
        if rightkey.Some? {
          InvariantsDecideOrder(rightkey.value, skey);
          if !InvariantG(rightkey.value, skey) {
            return Corrupt;
          }
        }
      }
      return Silent(());
    }

    /** The checks that one target page is the reference point of. */
    method TargetPageCheck() returns (r: Outcome<()>)
      requires Loads(g, targetblock) && targetblock != P_NONE && !g[targetblock].Ignorable()
      modifies `prevrightlink, `previncompletesplit
      ensures Decides(r, PageSilent(g, targetblock, lowkey, old(State())),
                      PageHangs(g, targetblock, lowkey, old(State())), g, limit)
      ensures r.Silent? ==> State() == EndLink(g, g[targetblock], lowkey, old(State()))
    {
      r := ItemLoop(Offsets(g, targetblock, lowkey), StuckOffsets(g, targetblock, lowkey));
    }

    /** The loop over the items of the target page, and the visit after the last one. */
    method ItemLoop(ghost ok: OffsetTest, ghost stuck: OffsetTest) returns (r: Outcome<()>)
      requires Loads(g, targetblock) && targetblock != P_NONE && !g[targetblock].Ignorable()
      requires TestsPage(ok, stuck, g, targetblock, lowkey)
      modifies `prevrightlink, `previncompletesplit
      ensures Decides(r, PagePasses(g, g[targetblock], ok, lowkey, old(State())),
                      PageStuck(g, g[targetblock], ok, stuck, lowkey, old(State())), g, limit)
      ensures r.Silent? ==> State() == EndLink(g, g[targetblock], lowkey, old(State()))
    {
      var p := g[targetblock];
      ghost var l := State();
      var off: nat := p.FirstData();
      while off <= |p.items|
        invariant p.FirstData() <= off <= |p.items| + 1
        invariant PassUpTo(g, p, ok, lowkey, l, off) && ClearUpTo(g, p, stuck, lowkey, l, off)
        invariant State() == Link(g, p, lowkey, l, off)
      {
        r := ItemCheck(off, ok, stuck);
        ItemStep(g, p, ok, stuck, lowkey, l, off, r, limit);
        if !r.Silent? {
          return;
        }
        off := off + 1;
      }
      ItemsEnd(g, p, ok, stuck, lowkey, l);
      if !p.leaf && p.Rightmost() {
        assert OffsetInstance(0, State());
        r := ChildHighkeyCheck(0);
        return;
      }
      return Silent(());
    }

    /** One turn of the loop over the items of the target page. */
    method ItemCheck(off: nat, ghost ok: OffsetTest, ghost stuck: OffsetTest) returns (r: Outcome<()>)
      requires Loads(g, targetblock) && targetblock != P_NONE
      requires g[targetblock].FirstData() <= off <= |g[targetblock].items|
      requires TestsPage(ok, stuck, g, targetblock, lowkey)
      modifies `prevrightlink, `previncompletesplit
      ensures Decides(r, ok(off, old(State())), stuck(off, old(State())), g, limit)
      ensures r.Silent? ==> State() == if g[targetblock].leaf then old(State())
                                       else After(g, Call(g[targetblock], off, lowkey))
    {
      var p := g[targetblock];
      assert OffsetInstance(off, State());
      if p.NegativeInfinity(off) {
        r := ChildHighkeyCheck(off);
      } else {
        r := KeyCheck(off);
        if r.Silent? && !p.leaf {
          r := ChildCheck(off);
        }
      }
    }

    /** The fields hold what is known after the pages `t`; `down` is not a field of the state. */
    ghost predicate Holds(t: seq<nat>, down: Level)
      reads this
    {
      Known(g, t) == Progress(down, lowkey, State())
    }

    /** Walks one level from its leftmost page to the right, and finds where the next one starts. */
    method CheckLevelFromLeftmost(lv: Level) returns (r: Outcome<Level>)
      requires lv.leftmost != P_NONE
      modifies this
      ensures Decides(r, exists t :: LevelSilent(g, lv, t), Hangs(LevelTrek(g, lv)), g, limit)
      ensures r.Silent? ==> forall t :: LevelSilent(g, lv, t) ==> r.value == Known(g, t).down
      ensures r.Silent? ==>
                r.value.leftmost == INVALID_BLOCK || r.value.leftmost == P_NONE ||
                r.value.level + 1 == lv.level
      ensures !r.Silent? ==> Decides(r, IndexSilent(g, lv), IndexHangs(g, lv), g, limit)
      ensures r.Silent? ==>
                && (IndexSilent(g, lv) <==> r.value.leftmost != INVALID_BLOCK && IndexSilent(g, r.value))
                && (IndexHangs(g, lv) <==> r.value.leftmost != INVALID_BLOCK && IndexHangs(g, r.value))
    {
      ghost var w := LevelTrek(g, lv);
      LevelRecurrent(g, lv);
      r := LevelLoop(lv, w);
      if r.Silent? {
        ghost var whole :| Whole(w, whole) && r.value == Known(g, whole).down;
        forall t | LevelSilent(g, lv, t) ensures t == whole {
          WholeUnique(w, t, whole);
        }
        assert LevelSilent(g, lv, whole);
        DownIsBelow(g, lv, whole);
        IndexUnfold(g, lv, whole);
      }
    }

    method LevelLoop(lv: Level, ghost w: Trek) returns (r: Outcome<Level>)
      requires lv.leftmost == w.start && w.start != P_NONE
      requires TestsLevel(w, g, lv) && Recurrent(w)
      modifies this
      ensures Decides(r, Completes(w), Hangs(w), g, limit)
      ensures r.Silent? ==> exists t :: Whole(w, t) && r.value == Known(g, t).down
    {
      var leftcurrent, current, steps := P_NONE, lv.leftmost, 0;
      var nextleveldown := NoLevel();
      lowkey, prevrightlink, previncompletesplit := None, INVALID_BLOCK, false;
      ghost var t: seq<nat> := [];
      while true
        invariant At(w, t, current) && |t| == steps && current != P_NONE && Clear(w, t)
        invariant leftcurrent == LeftOf(t)
        invariant Holds(t, nextleveldown)
        decreases limit - steps
      {
        if steps >= limit {
          r := Interrupted;
          GivenUp(w, t, current, g, limit, r);
          return;
        }
        r := TargetStep(lv, current, leftcurrent, nextleveldown, w, t);
        WalkStep(w, t, current, r, g, limit);
        if !r.Silent? {
          return;
        }
        t := t + [current];
        nextleveldown := r.value;
        leftcurrent := current;
        current := g[current].next;
        if current == P_NONE {
          return;
        }
        steps := steps + 1;
      }
    }

    /** One turn of the loop over a level. */
    method TargetStep(lv: Level, current: nat, leftcurrent: nat, down: Level,
                      ghost w: Trek, ghost t: seq<nat>)
      returns (r: Outcome<Level>)
      requires current != P_NONE
      requires leftcurrent == LeftOf(t)
      requires TestsLevel(w, g, lv)
      requires Holds(t, down)
      modifies this
      ensures Decides(r, w.ok(t, current), w.stuck(t, current), g, limit)
      ensures r.Silent? ==> current in g && (w.stop(current) <==> g[current].Rightmost())
      ensures r.Silent? ==> Holds(t + [current], r.value)
    {
      assert TargetInstance(t, current);
      targetblock := current;
      if !Loads(g, current) {
        return Corrupt;
      }
      KnownStep(g, t, current);
      var page := g[current];
      if page.Ignorable() {
        if page.deleted || page.Rightmost() {
          return Corrupt;
        }
        r := Silent(down);
      } else {
        r := LivePageCheck(lv, leftcurrent, down);
        if !r.Silent? {
          return;
        }
      }
      if current == leftcurrent || current == page.prev {
        return Corrupt;
      }
      lowkey := None;
      if !page.Rightmost() {
        if !page.Has(P_HIKEY) {
          return Corrupt;
        }
        lowkey := Some(page.At(P_HIKEY).key);
      }
    }

    /** The checks on a page of the level that is neither deleted nor half-dead. */
    method LivePageCheck(lv: Level, leftcurrent: nat, down: Level) returns (r: Outcome<Level>)
      requires Loads(g, targetblock) && targetblock != P_NONE && !g[targetblock].Ignorable()
      modifies `prevrightlink, `previncompletesplit
      ensures var shape := LiveShape(g, lv, down, leftcurrent, targetblock);
        Decides(r, shape && PageSilent(g, targetblock, lowkey, old(State())),
                shape && PageHangs(g, targetblock, lowkey, old(State())), g, limit)
      ensures r.Silent? ==>
                Progress(r.value, HighKey(g[targetblock]), State()) ==
                Passing(g, Progress(down, lowkey, old(State())), g[targetblock])
    {
      var page := g[targetblock];
      var next := down;
      if next.leftmost == INVALID_BLOCK {
        var leftmost :- LeftmostIgnoringHalfDead(targetblock);
        if !leftmost || (lv.trueRoot && !page.root) {
          return Corrupt;
        }
        next := LevelBelow(page);
      }
      if page.prev != leftcurrent && leftcurrent != P_NONE {
        return Corrupt;
      }
      if lv.level != page.level {
        return Corrupt;
      }
      var _ :- TargetPageCheck();
      return Silent(next);
    }

    /** Checks the whole index, from the level of the true root down to the leaves. */
    method CheckEveryLevel(rootLevel: nat, root: nat) returns (r: Outcome<()>)
      modifies this
      ensures var lv := Level(rootLevel, root, true);
        && Decides(r, IndexSilent(g, lv), IndexHangs(g, lv), g, limit)
        && (limit > 2 * |g| ==> (r.Silent? <==> IndexSilent(g, lv)) && (r.Interrupted? <==> IndexHangs(g, lv)))
    {
      var current := Level(rootLevel, root, true);
      while current.leftmost != P_NONE
        invariant IndexSilent(g, current) <==> IndexSilent(g, Level(rootLevel, root, true))
        invariant IndexHangs(g, current) <==> IndexHangs(g, Level(rootLevel, root, true))
        decreases if current.leftmost == P_NONE then 0 else current.level + 1
      {
        current :- CheckLevelFromLeftmost(current);
        if current.leftmost == INVALID_BLOCK {
          return Corrupt;
        }
      }
      return Silent(());
    }
  }
}
