/** Inputs on which the checker stays silent and proves less, or never ends. */
module NbtreeInputs {
  import opened Wrappers
  import opened Lexicographic
  import opened NbtreePages
  import opened NbtreeWalk
  import opened NbtreeSpec
  import opened NbtreeTheorems
  import opened NbtreeEndless
  import opened NbtreeLockstep
  import opened NbtreeKeySpace
  import opened NbtreeIndex
  import opened NbtreeAncestors

  // ----- half-dead pages can hide a cycle -----

  function Blank(): Page
  {
    Page(false, false, false, false, false, false, false, false, 0, P_NONE, P_NONE, [])
  }

  /** A metapage, a leaf as root, and a half-dead leaf; the leaves are each other's right sibling. */
  function Ring(meta: Page): Graph
  {
    map[0 := meta,
        1 := Blank().(leaf := true, root := true, prev := 2, next := 2, items := [Item([5], 0)]),
        2 := Blank().(leaf := true, halfDead := true, next := 1, items := [Item([], 0)])]
  }

  lemma RingLeftmost(meta: Page)
    ensures Leftmost(Ring(meta), 1)
  {
    var w := LeftTrek(Ring(meta), 1);
    Advance(w, [], 1);
    assert Loads(Ring(meta), 2);
    Advance(w, [] + [1], 2);
  }

  /** Two half-dead leaves that are each other's sibling on both sides. */
  function DeadRing(meta: Page): Graph
  {
    map[0 := meta,
        1 := Blank().(leaf := true, halfDead := true, prev := 2, next := 2, items := [Item([], 0)]),
        2 := Blank().(leaf := true, halfDead := true, prev := 1, next := 1, items := [Item([], 0)])]
  }

  function Around(n: nat): seq<nat>
  {
    if n == 0 then [] else Around(n - 1) + [if n % 2 == 1 then 1 else 2]
  }

  /** What the walk tests on pages 1 and 2, when it comes from the other one. */
  ghost predicate GoesRound(g: Graph)
  {
    forall t, b :: b in {1, 2} && LeftOf(t) == (if t == [] && b == 1 then P_NONE else 3 - b) ==>
      TargetOk(g, Level(0, 1, true), t, b)
  }

  lemma RingPages(meta: Page)
    ensures GoesRound(Ring(meta))
  {
    RingLeftmost(meta);
  }

  lemma DeadRingPages(meta: Page)
    ensures GoesRound(DeadRing(meta))
  {
  }

  lemma {:induction false} AroundPath(w: Trek, n: nat)
    requires w.start == 1 && w.next(1) == 2 && w.next(2) == 1 && {1, 2} <= w.dom
    requires !w.stop(1) && !w.stop(2)
    requires forall t, b :: b in {1, 2} && LeftOf(t) == (if t == [] && b == 1 then P_NONE else 3 - b) ==>
                              w.ok(t, b)
    ensures |Around(n)| == n && At(w, Around(n), if n % 2 == 0 then 1 else 2)
  {
    if n > 0 {
      AroundPath(w, n - 1);
      Advance(w, Around(n - 1), if n % 2 == 1 then 1 else 2);
    }
  }

  lemma RoundForEver(g: Graph)
    requires GoesRound(g) && {1, 2} <= g.Keys && g[1].next == 2 && g[2].next == 1
    ensures Forever(LevelTrek(g, Level(0, 1, true))) && IndexHangs(g, Level(0, 1, true))
  {
    var w := LevelTrek(g, Level(0, 1, true));
    forall n: nat ensures HasPath(w, n) {
      AroundPath(w, n);
      assert Path(w, Around(n));
    }
  }

  /** On the ring with a live page, whatever the metapage is, the check never ends, and its half-dead page
      misleads; on the ring of half-dead pages it does not end either, and no page misleads. */
  lemma HalfDeadRingNeverEnds(meta: Page)
    ensures IndexHangs(Ring(meta), Level(0, 1, true)) && IndexHangs(DeadRing(meta), Level(0, 1, true))
    ensures Forever(LevelTrek(Ring(meta), Level(0, 1, true))) && Misleads(Ring(meta), [1, 2, 1], 1)
    ensures Forever(LevelTrek(DeadRing(meta), Level(0, 1, true)))
    ensures forall k :: !Misleads(DeadRing(meta), [1, 2, 1], k)
  {
    RingPages(meta);
    DeadRingPages(meta);
    RoundForEver(Ring(meta));
    RoundForEver(DeadRing(meta));
  }

  // ----- small levels and pages, on any graph -----

  lemma Edge(g: Graph, b: nat)
    requires b in g && g[b].prev == P_NONE
    ensures Leftmost(g, b)
  {
    Advance(LeftTrek(g, b), [], b);
  }

  lemma OneVisit(g: Graph, c: Call, l: Linkage, b: nat)
    requires b in g && b != P_NONE && Start(c, l) == b == c.Downlink()
    requires VisitOk(g, c, l, b, true, RightSplit(g, l, []))
    ensures CallSilent(g, c, l)
  {
    Advance(ChildTrek(g, c, l), [], b);
  }

  lemma NoItems(g: Graph, b: nat, low: Option<Key>, l: Linkage)
    requires b in g && g[b].leaf && |g[b].items| < g[b].FirstData()
    ensures PageSilent(g, b, low, l)
  {
  }

  /** A page whose only data item leaves the linkage `l1`. */
  lemma OneItem(g: Graph, b: nat, low: Option<Key>, l: Linkage, l1: Linkage)
    requires b in g && |g[b].items| == g[b].FirstData() && OffsetOk(g, b, low, |g[b].items|, l)
    requires l1 == Link(g, g[b], low, l, |g[b].items| + 1)
    requires !g[b].leaf && g[b].Rightmost() ==> OffsetOk(g, b, low, 0, l1)
    ensures PageSilent(g, b, low, l)
  {
    var p, ok, n := g[b], Offsets(g, b, low), |g[b].items|;
    assert PassUpTo(g, p, ok, low, l, n);
    assert Link(g, p, low, l, n) == l;
    assert PassUpTo(g, p, ok, low, l, n + 1);
  }

  /** A page whose two data items leave the linkages `l1` and `l2`. */
  lemma TwoItems(g: Graph, b: nat, low: Option<Key>, l: Linkage, l1: Linkage, l2: Linkage)
    requires b in g && |g[b].items| == g[b].FirstData() + 1
    requires OffsetOk(g, b, low, |g[b].items| - 1, l) && l1 == Link(g, g[b], low, l, |g[b].items|)
    requires OffsetOk(g, b, low, |g[b].items|, l1) && l2 == Link(g, g[b], low, l, |g[b].items| + 1)
    requires !g[b].leaf && g[b].Rightmost() ==> OffsetOk(g, b, low, 0, l2)
    ensures PageSilent(g, b, low, l)
  {
    var p, ok, n := g[b], Offsets(g, b, low), |g[b].items|;
    assert PassUpTo(g, p, ok, low, l, n - 1);
    assert Link(g, p, low, l, n - 1) == l;
    assert PassUpTo(g, p, ok, low, l, n);
    assert PassUpTo(g, p, ok, low, l, n + 1);
  }

  lemma OnePage(g: Graph, lv: Level, a: nat)
    requires lv.leftmost == a && a in g && g[a].Rightmost() && TargetOk(g, lv, [], a)
    ensures LevelSilent(g, lv, [a])
  {
    Advance(LevelTrek(g, lv), [], a);
    assert [] + [a] == [a];
  }

  lemma TwoPages(g: Graph, lv: Level, a: nat, b: nat)
    requires lv.leftmost == a && a in g && b in g && g[a].next == b != P_NONE && g[b].Rightmost()
    requires TargetOk(g, lv, [], a) && TargetOk(g, lv, [a], b)
    ensures LevelSilent(g, lv, [a, b])
  {
    var w := LevelTrek(g, lv);
    Advance(w, [], a);
    assert [] + [a] == [a] && [a] + [b] == [a, b];
    Advance(w, [a], b);
  }

  lemma ThreePages(g: Graph, lv: Level, a: nat, b: nat, c: nat)
    requires lv.leftmost == a && a in g && b in g && c in g
    requires g[a].next == b != P_NONE && g[b].next == c != P_NONE && g[c].Rightmost()
    requires TargetOk(g, lv, [], a) && TargetOk(g, lv, [a], b) && TargetOk(g, lv, [a, b], c)
    ensures LevelSilent(g, lv, [a, b, c])
  {
    var w := LevelTrek(g, lv);
    Advance(w, [], a);
    assert [] + [a] == [a] && [a] + [b] == [a, b] && [a, b] + [c] == [a, b, c];
    Advance(w, [a], b);
    Advance(w, [a, b], c);
  }

  lemma WalksOn(g: Graph, lv: Level, t: seq<nat>, ts: seq<seq<nat>>)
    requires LevelDoneWith(g, lv, t) && Walks(g, Known(g, t).down, ts)
    ensures Walks(g, lv, [t] + ts)
  {
    assert ([t] + ts)[1..] == ts;
  }

  // ----- a first downlink to block 0 hides the rest of a level -----

  const LOPSIDED_TOP: Level := Level(1, 1, true)

  /** Two internal pages; the child of the first is the only leaf, and the only downlink of the second is
      block 0. */
  function Lopsided(meta: Page): Graph
  {
    map[0 := meta,
        1 := Blank().(root := true, level := 1, next := 3, items := [Item([5], 0), Item([], 2)]),
        2 := Blank().(leaf := true, items := [Item([9, 7], 0)]),
        3 := Blank().(level := 1, prev := 1, items := [Item([], 0)])]
  }

  lemma LopsidedLeft(meta: Page)
    ensures PageSilent(Lopsided(meta), 1, None, FRESH)
  {
    var g := Lopsided(meta);
    Edge(g, 2);
    OneVisit(g, Call(g[1], 2, None), FRESH, 2);
    OneItem(g, 1, None, FRESH, Linkage(P_NONE, false));
  }

  lemma LopsidedRight(meta: Page, low: Option<Key>)
    ensures PageSilent(Lopsided(meta), 3, low, Linkage(P_NONE, false))
  {
    OneItem(Lopsided(meta), 3, low, Linkage(P_NONE, false), FRESH);
  }

  lemma LopsidedLeaf(meta: Page, low: Option<Key>, l: Linkage)
    ensures PageSilent(Lopsided(meta), 2, low, l)
  {
    assert RightKey(Lopsided(meta), 2, None);
    OneItem(Lopsided(meta), 2, low, l, l);
  }

  lemma LopsidedKnown(meta: Page)
    ensures Known(Lopsided(meta), []) == Progress(NoLevel(), None, FRESH)
    ensures Known(Lopsided(meta), [1]) == Progress(Level(0, 2, false), Some([5]), Linkage(P_NONE, false))
    ensures Known(Lopsided(meta), [1, 3]).down == Level(0, 2, false)
    ensures Known(Lopsided(meta), [2]).down == Level(INVALID_BLOCK, P_NONE, false)
  {
    assert [1, 3][..1] == [1] && [1][..0] == [] && [2][..0] == [];
  }

  lemma LopsidedUpper(meta: Page)
    ensures LevelSilent(Lopsided(meta), LOPSIDED_TOP, [1, 3])
  {
    var g := Lopsided(meta);
    Edge(g, 1);
    LopsidedLeft(meta);
    LopsidedRight(meta, Some([5]));
    LopsidedKnown(meta);
    TwoPages(g, LOPSIDED_TOP, 1, 3);
  }

  lemma LopsidedLower(meta: Page)
    ensures LevelSilent(Lopsided(meta), Level(0, 2, false), [2])
  {
    var g := Lopsided(meta);
    Edge(g, 2);
    LopsidedLeaf(meta, None, FRESH);
    LopsidedKnown(meta);
    OnePage(g, Level(0, 2, false), 2);
  }

  lemma LopsidedSilent(meta: Page)
    ensures IndexSilent(Lopsided(meta), LOPSIDED_TOP)
  {
    var g := Lopsided(meta);
    LopsidedUpper(meta);
    LopsidedLower(meta);
    LopsidedKnown(meta);
    WalksOn(g, Level(0, 2, false), [2], []);
    WalksOn(g, LOPSIDED_TOP, [1, 3], [[2]] + []);
    WalksAreSilent(g, LOPSIDED_TOP, [[1, 3]] + ([[2]] + []));
  }

  lemma LopsidedUnlocked(meta: Page)
    ensures !exists runs :: Locked(Lopsided(meta), 1, LevelDowns(Lopsided(meta), [1, 3]), runs)
  {
    var g, t := Lopsided(meta), [1, 3];
    LopsidedUpper(meta);
    LockstepExact(g, LOPSIDED_TOP, t);
    assert Live(g, t[1]) && !Followable(g, g[3].At(1).link);
  }

  /** Whatever the metapage is, the check of this index is silent, although an item of the only leaf is above
      the separator that follows its downlink. */
  lemma ZeroDownlinkHidesKeySpace(meta: Page)
    ensures IndexSilent(Lopsided(meta), LOPSIDED_TOP)
    ensures var p := Lopsided(meta)[1];
      && p.At(2).link == 2 && Lopsided(meta)[2].Real(1) && SeparatorAfter(p, 2) == Some([5])
      && !KeepsToSpace(Lopsided(meta), p, 2, 1)
    ensures !exists runs :: Locked(Lopsided(meta), 1, LevelDowns(Lopsided(meta), [1, 3]), runs)
  {
    LopsidedSilent(meta);
    LopsidedUnlocked(meta);
  }

  // ----- an empty page and a first downlink hide the order around them -----

  const TALL_TOP: Level := Level(2, 1, true)

  function TallPage(b: nat, heap: nat): Page
  {
    match b
    case 1 => Blank().(root := true, level := 2, items := [Item([], 2), Item([50], 3)])
    case 2 => Blank().(level := 1, next := 3, items := [Item([50], 0), Item([], 4), Item([45], 5)])
    case 3 => Blank().(level := 1, prev := 2, items := [Item([], 6)])
    case 4 => Blank().(leaf := true, next := 5, items := [Item([45], 0), Item([40, 7], heap)])
    case 5 => Blank().(leaf := true, prev := 4, next := 6, items := [Item([50], 0)])
    case _ => Blank().(leaf := true, prev := 5, items := [Item([10, 8], heap)])
  }

  /** `g` has page `b` of the index below. */
  predicate Is(g: Graph, b: nat, heap: nat) { b in g && g[b] == TallPage(b, heap) }

  /** Three levels. The second leaf is empty, and the third is reached by a first downlink only. */
  predicate Tall(g: Graph, heap: nat)
  {
    && g.Keys == {0, 1, 2, 3, 4, 5, 6}
    && Is(g, 1, heap) && Is(g, 2, heap) && Is(g, 3, heap) && Is(g, 4, heap) && Is(g, 5, heap) && Is(g, 6, heap)
  }

  lemma TallRoot(g: Graph, heap: nat)
    requires Is(g, 1, heap) && Is(g, 2, heap) && Is(g, 3, heap)
    ensures PageSilent(g, 1, None, FRESH)
  {
    Edge(g, 2);
    OneVisit(g, Call(g[1], 1, None), FRESH, 2);
    OneVisit(g, Call(g[1], 2, None), Linkage(3, false), 3);
    assert RightKey(g, 1, None);
    assert KeyOk(g, 1, 2) && DownlinkBound(g, g[1], 2);
    TwoItems(g, 1, None, FRESH, Linkage(3, false), Linkage(P_NONE, false));
  }

  lemma TallLeftVisits(g: Graph, heap: nat)
    requires Is(g, 2, heap) && Is(g, 4, heap) && Is(g, 5, heap)
    ensures CallSilent(g, Call(g[2], 2, None), FRESH) && CallSilent(g, Call(g[2], 3, None), Linkage(5, false))
  {
    Edge(g, 4);
    OneVisit(g, Call(g[2], 2, None), FRESH, 4);
    OneVisit(g, Call(g[2], 3, None), Linkage(5, false), 5);
  }

  lemma TallLeftItem(g: Graph, heap: nat)
    requires Is(g, 2, heap) && Is(g, 3, heap) && Is(g, 5, heap)
    requires CallSilent(g, Call(g[2], 3, None), Linkage(5, false))
    ensures OffsetOk(g, 2, None, 3, Linkage(5, false))
  {
    NextRightKey(g, 2);
    assert RightKey(g, 2, None);
    assert KeyOk(g, 2, 3) && DownlinkBound(g, g[2], 3);
  }

  lemma TallLeft(g: Graph, heap: nat)
    requires Is(g, 2, heap) && Is(g, 3, heap) && Is(g, 4, heap) && Is(g, 5, heap)
    ensures PageSilent(g, 2, None, FRESH)
  {
    TallLeftVisits(g, heap);
    TallLeftItem(g, heap);
    TwoItems(g, 2, None, FRESH, Linkage(5, false), Linkage(6, false));
  }

  lemma TallRight(g: Graph, heap: nat)
    requires Is(g, 3, heap) && Is(g, 6, heap)
    ensures PageSilent(g, 3, Some([50]), Linkage(6, false))
  {
    OneVisit(g, Call(g[3], 1, Some([50])), Linkage(6, false), 6);
    OneItem(g, 3, Some([50]), Linkage(6, false), Linkage(P_NONE, false));
  }

  lemma TallLeaf(g: Graph, heap: nat, b: nat, low: Option<Key>, l: Linkage)
    requires Is(g, 4, heap) && Is(g, 5, heap) && Is(g, 6, heap) && b in {4, 5, 6}
    ensures PageSilent(g, b, low, l)
  {
    if b == 4 {
      NextRightKey(g, 4);
      OneItem(g, 4, low, l, l);
    } else if b == 5 {
      NoItems(g, 5, low, l);
    } else {
      assert RightKey(g, 6, None);
      OneItem(g, 6, low, l, l);
    }
  }

  lemma TallUpper(g: Graph, heap: nat)
    requires Is(g, 1, heap) && Is(g, 2, heap) && Is(g, 3, heap)
    ensures LevelSilent(g, TALL_TOP, [1]) && Known(g, [1]).down == Level(1, 2, false)
  {
    Edge(g, 1);
    TallRoot(g, heap);
    assert [1][..0] == [] && Known(g, []) == Progress(NoLevel(), None, FRESH);
    OnePage(g, TALL_TOP, 1);
  }

  lemma TallKnown(g: Graph, heap: nat)
    requires Is(g, 2, heap) && Is(g, 3, heap) && Is(g, 5, heap)
    ensures Known(g, []) == Progress(NoLevel(), None, FRESH)
    ensures Known(g, [2]) == Progress(Level(0, 4, false), Some([50]), Linkage(6, false))
    ensures Known(g, [2, 3]).down == Level(0, 4, false)
  {
    assert [2, 3][..1] == [2] && [2][..0] == [];
  }

  lemma TallFirst(g: Graph, heap: nat)
    requires Tall(g, heap)
    ensures TargetOk(g, Level(1, 2, false), [], 2)
  {
    Edge(g, 2);
    TallLeft(g, heap);
    TallKnown(g, heap);
  }

  lemma TallSecond(g: Graph, heap: nat)
    requires Tall(g, heap)
    ensures TargetOk(g, Level(1, 2, false), [2], 3)
  {
    TallRight(g, heap);
    TallKnown(g, heap);
  }

  lemma TallMiddle(g: Graph, heap: nat)
    requires Tall(g, heap)
    ensures LevelSilent(g, Level(1, 2, false), [2, 3])
  {
    TallFirst(g, heap);
    TallSecond(g, heap);
    TwoPages(g, Level(1, 2, false), 2, 3);
  }

  lemma TallLeafKnown(g: Graph, heap: nat)
    requires Is(g, 4, heap) && Is(g, 5, heap) && Is(g, 6, heap)
    ensures var none := Level(INVALID_BLOCK, P_NONE, false);
      Known(g, [4]).down == none && Known(g, [4, 5]).down == none && Known(g, [4, 5, 6]).down == none
  {
    assert [4, 5, 6][..2] == [4, 5] && [4, 5][..1] == [4] && [4][..0] == [];
  }

  lemma TallLeafPage(g: Graph, heap: nat, t: seq<nat>, b: nat)
    requires Is(g, 4, heap) && Is(g, 5, heap) && Is(g, 6, heap)
    requires b in {4, 5, 6} && LeftOf(t) == (if b == 4 then P_NONE else b - 1)
    requires b == 4 || Known(g, t).down.leftmost == P_NONE
    ensures TargetOk(g, Level(0, 4, false), t, b)
  {
    Edge(g, 4);
    TallLeaf(g, heap, b, Known(g, t).low, Known(g, t).linkage);
  }

  lemma TallLeaves(g: Graph, heap: nat)
    requires Is(g, 4, heap) && Is(g, 5, heap) && Is(g, 6, heap)
    ensures LevelSilent(g, Level(0, 4, false), [4, 5, 6])
  {
    TallLeafKnown(g, heap);
    TallLeafPage(g, heap, [], 4);
    TallLeafPage(g, heap, [4], 5);
    TallLeafPage(g, heap, [4, 5], 6);
    ThreePages(g, Level(0, 4, false), 4, 5, 6);
  }

  const TALL_WALKS: seq<seq<nat>> := [[1], [2, 3], [4, 5, 6]]

  /** Three levels that lead to one another make up a silent check. */
  lemma ThreeLevels(g: Graph, top: Level, t0: seq<nat>, t1: seq<nat>, t2: seq<nat>)
    requires LevelDoneWith(g, top, t0)
    requires LevelDoneWith(g, Known(g, t0).down, t1)
    requires LevelDoneWith(g, Known(g, t1).down, t2) && Known(g, t2).down.leftmost == P_NONE
    ensures Walks(g, top, [t0, t1, t2])
  {
    WalksOn(g, Known(g, t1).down, t2, []);
    WalksOn(g, Known(g, t0).down, t1, [t2] + []);
    WalksOn(g, top, t0, [t1] + ([t2] + []));
    assert [t0] + ([t1] + ([t2] + [])) == [t0, t1, t2];
  }

  lemma TallIsSilent(g: Graph, heap: nat)
    requires Tall(g, heap)
    ensures Walks(g, TALL_TOP, TALL_WALKS)
  {
    TallUpper(g, heap);
    TallMiddle(g, heap);
    TallLeaves(g, heap);
    TallKnown(g, heap);
    TallLeafKnown(g, heap);
    ThreeLevels(g, TALL_TOP, [1], [2, 3], [4, 5, 6]);
  }

  lemma TallFollowable(g: Graph, heap: nat)
    requires Tall(g, heap)
    ensures INVALID_BLOCK !in g && AllFollowable(g, TALL_WALKS)
  {
    assert LevelFollowable(g, [1]) && LevelFollowable(g, [2, 3]);
  }

  lemma TallDisorder(g: Graph, heap: nat)
    requires Tall(g, heap)
    ensures !Ordered(g, [4, 5, 6])
  {
    var t := [4, 5, 6];
    assert t[0] == 4 && t[2] == 6;
    assert Precedes(g, t, 0, 2, 2, 1);
  }

  lemma TallWay(g: Graph, heap: nat)
    requires Tall(g, heap)
    ensures Descends(g, [1, 3, 6], [2, 1]) && Complete(g, [1, 3, 6]) && RealAt(g, [1, 3, 6], [2, 1], 0)
    ensures g[6].Real(1) && !Less(g[1].At(2).key, g[6].At(1).key)
  {
    assert [1, 3, 6][..2] == [1, 3] && [2, 1][..1] == [2] && [1, 3][..1] == [1] && [2][..0] == [];
    assert Descends(g, [1], []);
    assert Descends(g, [1, 3], [2]);
  }

  /** Whatever the metapage and the heap blocks are, the check of such an index is silent and all its downlinks
      can be followed, although the items around the empty leaf are out of order. The last one is below the key
      in the root that leads to it, through a first downlink. */
  lemma EmptyPageHidesOrder(g: Graph, heap: nat)
    requires Tall(g, heap)
    ensures IndexSilent(g, TALL_TOP) && Walks(g, TALL_TOP, TALL_WALKS) && AllFollowable(g, TALL_WALKS)
    ensures !Ordered(g, [4, 5, 6])
    ensures Descends(g, [1, 3, 6], [2, 1]) && Complete(g, [1, 3, 6]) && RealAt(g, [1, 3, 6], [2, 1], 0)
    ensures g[6].Real(1) && !Less(g[1].At(2).key, g[6].At(1).key)
  {
    TallIsSilent(g, heap);
    TallFollowable(g, heap);
    WalksAreSilent(g, TALL_TOP, TALL_WALKS);
    TallDisorder(g, heap);
    TallWay(g, heap);
  }
}
