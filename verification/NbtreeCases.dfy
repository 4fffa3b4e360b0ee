/** Sound indexes: who is excused from having a downlink, and examples of indexes that pass and that do not. */
module NbtreeCases {
  import opened Wrappers
  import opened NbtreePages
  import opened NbtreeWalk
  import opened NbtreeSpec
  import opened NbtreeTheorems
  import opened NbtreeSound
  import opened NbtreeComplete
  import opened NbtreeExact
  import opened NbtreeInputs

  // ----- the top of an interrupted deletion -----

  /** First downlinks lead from `b` down `n` levels to a leaf. */
  predicate Descending(g: Graph, b: nat, n: nat)
    decreases n
  {
    && Loads(g, b) && g[b].level == n && (g[b].leaf <==> n == 0)
    && (n > 0 ==> g[b].Has(g[b].FirstData()) && Descending(g, g[b].At(g[b].FirstData()).link, n - 1))
  }

  /** The leaf at the end of that way. */
  function Bottom(g: Graph, b: nat, n: nat): nat
    requires Descending(g, b, n)
    decreases n
  {
    if n == 0 then b else Bottom(g, g[b].At(g[b].FirstData()).link, n - 1)
  }

  lemma {:induction false} BottomInGraph(g: Graph, b: nat, n: nat)
    requires Descending(g, b, n)
    ensures Bottom(g, b, n) in g
    decreases n
  {
    if n > 0 {
      BottomInGraph(g, g[b].At(g[b].FirstData()).link, n - 1);
    }
  }

  /** The search under way at `b`, above the leaves, ends with the test of the leaf at the bottom. */
  lemma {:induction false} SearchDown(g: Graph, top: nat, t: seq<nat>, b: nat, n: nat)
    requires Descending(g, b, n) && n > 0 && At(DescentTrek(g, top), t, b)
    requires t != [] ==> Last(t) in g && g[b].level == Below(g[Last(t)].level)
    ensures Bottom(g, b, n) in g && (InterruptedDeletion(g, top) <==> NamesTopParent(g[Bottom(g, b, n)], top))
    decreases n
  {
    var w, c := DescentTrek(g, top), g[b].At(g[b].FirstData()).link;
    BottomInGraph(g, b, n);
    Advance(w, t, b);
    assert Last(t + [b]) == b;
    if n > 1 {
      SearchDown(g, top, t + [b], c, n - 1);
    } else if InterruptedDeletion(g, top) {
      NextBlock(w, t + [b], c);
    } else if NamesTopParent(g[c], top) {
      Advance(w, t + [b], c);
    }
  }

  /** Above a leaf, the excuse is found exactly if the leaf under the first downlinks is half-dead and names
      the page where the search began. */
  lemma ExcuseExact(g: Graph, b: nat, n: nat)
    requires Descending(g, b, n) && n > 0
    ensures Bottom(g, b, n) in g && (InterruptedDeletion(g, b) <==> NamesTopParent(g[Bottom(g, b, n)], b))
  {
    SearchDown(g, b, [], b, n);
  }

  /** In a sound index the way down exists from every page. */
  lemma {:induction false} SoundDescends(g: Graph, ts: seq<Tier>, d: nat, x: nat)
    requires Sound(g, ts) && d < |ts| && x < |ts[d].pages|
    ensures Descending(g, ts[d].pages[x], |ts| - 1 - d)
    decreases |ts| - d
  {
    assert TierSound(g, ts, d);
    PageLoads(g, ts[d].pages, |ts| - 1 - d, x);
    if d < |ts| - 1 {
      var p := g[ts[d].pages[x]];
      assert TierSound(g, ts, d + 1);
      assert DownOk(g, ts[d].pages, ts[d + 1], x, p.FirstData());
      SoundDescends(g, ts, d + 1, ts[d + 1].named[Number(g, ts[d].pages, x, p.FirstData())]);
    }
  }

  lemma {:induction false} LeadsToBottom(g: Graph, b: nat, top: nat, n: nat)
    requires Descending(g, b, n) && Leads(g, b, top, n)
    ensures Bottom(g, b, n) in g && g[Bottom(g, b, n)].halfDead
    ensures g[Bottom(g, b, n)].Has(P_HIKEY) && g[Bottom(g, b, n)].At(P_HIKEY).link == top
    decreases n
  {
    if n > 0 {
      LeadsToBottom(g, g[b].At(g[b].FirstData()).link, top, n - 1);
    }
  }

  lemma {:induction false} BottomIsLeaf(g: Graph, ts: seq<Tier>, d: nat, x: nat)
    requires Sound(g, ts) && d < |ts| && x < |ts[d].pages|
    requires Descending(g, ts[d].pages[x], |ts| - 1 - d)
    ensures Bottom(g, ts[d].pages[x], |ts| - 1 - d) in ts[|ts| - 1].pages
    decreases |ts| - d
  {
    assert TierSound(g, ts, d);
    if d < |ts| - 1 {
      var p := g[ts[d].pages[x]];
      PageLoads(g, ts[d].pages, |ts| - 1 - d, x);
      assert TierSound(g, ts, d + 1);
      assert DownOk(g, ts[d].pages, ts[d + 1], x, p.FirstData());
      BottomIsLeaf(g, ts, d + 1, ts[d + 1].named[Number(g, ts[d].pages, x, p.FirstData())]);
    }
  }

  /** In a sound index the top of every interrupted deletion is excused, and every page that is excused this
      way lies above a half-dead leaf that names it. */
  lemma TopParentExcused(g: Graph, ts: seq<Tier>, d: nat, x: nat)
    requires Sound(g, ts) && d < |ts| - 1 && x < |ts[d].pages|
    ensures Pending(g, ts[d].pages[x]) ==> InterruptedDeletion(g, ts[d].pages[x])
    ensures InterruptedDeletion(g, ts[d].pages[x]) ==>
      exists leaf :: leaf in ts[|ts| - 1].pages && leaf in g && NamesTopParent(g[leaf], ts[d].pages[x])
  {
    var b, n := ts[d].pages[x], |ts| - 1 - d;
    SoundDescends(g, ts, d, x);
    ExcuseExact(g, b, n);
    BottomIsLeaf(g, ts, d, x);
    if Pending(g, b) {
      LeadsToBottom(g, b, b, n);
      var leaf := Bottom(g, b, n);
      var y :| 0 <= y < |ts[|ts| - 1].pages| && ts[|ts| - 1].pages[y] == leaf;
      DeadHasNone(g, ts, |ts| - 1, y);
      assert TierSound(g, ts, |ts| - 1);
      assert PageAt(g, ts[|ts| - 1].pages, 0, y);
    }
  }

  // ----- two levels, on any graph -----

  lemma TwoTiers(g: Graph, root: nat, low: Tier)
    requires INVALID_BLOCK !in g && root in g && g[root].root
    requires LevelSound(g, [root], 1) && Live(g, root) && LevelSound(g, low.pages, 0) && Family(g, [root], low)
    ensures Sound(g, [Tier([root], [], []), low])
  {
    var ts := [Tier([root], [], []), low];
    assert TierSound(g, ts, 0);
    assert TierSound(g, ts, 1);
  }

  lemma UnsettledFails(g: Graph, ts: seq<Tier>, lv: Level)
    requires Sound(g, ts) && !Settled(g, ts) && lv == Level(|ts| - 1, ts[0].pages[0], true)
    ensures !IndexSilent(g, lv)
  {
    SoundPassesExactly(g, ts);
  }

  // ----- an item that equals the high key of its leaf -----

  function Pair(meta: Page): Graph
  {
    map[0 := meta,
        1 := Blank().(root := true, level := 1, items := [Item([], 2), Item([5, 7], 3)]),
        2 := Blank().(leaf := true, next := 3, items := [Item([5, 7], 0), Item([5, 7], 4)]),
        3 := Blank().(leaf := true, prev := 2, items := [Item([5, 8], 4)])]
  }

  const PAIR_LEAVES: Tier := Tier([2, 3], [0, 1], [Some([5, 7]), None])

  lemma PairLevels(meta: Page)
    ensures LevelSound(Pair(meta), [1], 1) && LevelSound(Pair(meta), PAIR_LEAVES.pages, 0)
  {
    var g := Pair(meta);
    assert LinkedAt(g, [1], 0) && PageAt(g, [1], 1, 0);
    assert LinkedAt(g, [2, 3], 0) && LinkedAt(g, [2, 3], 1) && PageAt(g, [2, 3], 0, 0) && PageAt(g, [2, 3], 0, 1);
  }

  lemma PairFamily(meta: Page)
    ensures Family(Pair(meta), [1], PAIR_LEAVES)
  {
    var g, low := Pair(meta), PAIR_LEAVES;
    assert Downs(g, [1], 1) == 2;
    assert DownOk(g, [1], low, 0, 1) && DownOk(g, [1], low, 0, 2);
    assert low.named[0] == 0 && low.named[1] == 1;
    assert PlaceOk(g, low, 0) && PlaceOk(g, low, 1);
  }

  /** Whatever the metapage is, an index whose first leaf ends with an item equal to its high key is sound and
      passes. */
  lemma HighKeyReached(meta: Page)
    ensures Sound(Pair(meta), [Tier([1], [], []), PAIR_LEAVES])
    ensures IndexSilent(Pair(meta), Level(1, 1, true))
  {
    PairLevels(meta);
    PairFamily(meta);
    TwoTiers(Pair(meta), 1, PAIR_LEAVES);
    SoundPassesExactly(Pair(meta), [Tier([1], [], []), PAIR_LEAVES]);
  }

  // ----- interrupted deletions of a leaf -----

  /** The deletion of leaf 3 was interrupted: its downlink leads to its right sibling. */
  function Fading(meta: Page): Graph
  {
    map[0 := meta,
        1 := Blank().(root := true, level := 1, items := [Item([], 2), Item([5], 4)]),
        2 := Blank().(leaf := true, next := 3, items := [Item([5], 0), Item([4, 7], 4)]),
        3 := Blank().(leaf := true, halfDead := true, prev := 2, next := 4, items := [Item([], 0)]),
        4 := Blank().(leaf := true, prev := 3, items := [Item([9, 8], 4)])]
  }

  const FADING_LEAVES: Tier := Tier([2, 3, 4], [0, 2], [Some([5]), None, None])

  lemma FadingLevels(meta: Page)
    ensures LevelSound(Fading(meta), [1], 1) && LevelSound(Fading(meta), FADING_LEAVES.pages, 0)
  {
    var g, t := Fading(meta), [2, 3, 4];
    assert LinkedAt(g, [1], 0) && PageAt(g, [1], 1, 0);
    assert LinkedAt(g, t, 0) && LinkedAt(g, t, 1) && LinkedAt(g, t, 2);
    assert PageAt(g, t, 0, 0) && PageAt(g, t, 0, 1) && PageAt(g, t, 0, 2);
  }

  lemma FadingFamily(meta: Page)
    ensures Family(Fading(meta), [1], FADING_LEAVES)
  {
    var g, low := Fading(meta), FADING_LEAVES;
    assert Downs(g, [1], 1) == 2;
    assert DownOk(g, [1], low, 0, 1) && DownOk(g, [1], low, 0, 2);
    assert low.named[0] == 0 && low.named[1] == 2;
    assert PlaceOk(g, low, 0) && PlaceOk(g, low, 1) && PlaceOk(g, low, 2);
  }

  lemma FadingSound(meta: Page)
    ensures Sound(Fading(meta), [Tier([1], [], []), FADING_LEAVES])
  {
    FadingLevels(meta);
    FadingFamily(meta);
    TwoTiers(Fading(meta), 1, FADING_LEAVES);
  }

  lemma FadingInside(meta: Page)
    ensures !DeadEdge(Fading(meta), FADING_LEAVES)
  {
    var g, low := Fading(meta), FADING_LEAVES;
    assert low.pages[1] == 3 && low.pages[0] == 2 && g[3].halfDead && !g[2].halfDead;
  }

  /** Whatever the metapage is, this index is sound, and the check reports it as corrupt. */
  lemma InterruptedDeletionReported(meta: Page)
    ensures Sound(Fading(meta), [Tier([1], [], []), FADING_LEAVES])
    ensures !IndexSilent(Fading(meta), Level(1, 1, true))
  {
    FadingSound(meta);
    FadingInside(meta);
    UnsettledFails(Fading(meta), [Tier([1], [], []), FADING_LEAVES], Level(1, 1, true));
  }

  /** The same at the left edge of the leaf level: leaf 2 is half-dead. */
  function Shedding(meta: Page): Graph
  {
    map[0 := meta,
        1 := Blank().(root := true, level := 1, items := [Item([], 3)]),
        2 := Blank().(leaf := true, halfDead := true, next := 3, items := [Item([], 0)]),
        3 := Blank().(leaf := true, prev := 2, items := [Item([9, 8], 4)])]
  }

  const SHEDDING_LEAVES: Tier := Tier([2, 3], [1], [None, None])

  lemma SheddingLevels(meta: Page)
    ensures LevelSound(Shedding(meta), [1], 1) && LevelSound(Shedding(meta), SHEDDING_LEAVES.pages, 0)
  {
    var g := Shedding(meta);
    assert LinkedAt(g, [1], 0) && PageAt(g, [1], 1, 0);
    assert LinkedAt(g, [2, 3], 0) && LinkedAt(g, [2, 3], 1) && PageAt(g, [2, 3], 0, 0) && PageAt(g, [2, 3], 0, 1);
  }

  lemma SheddingFamily(meta: Page)
    ensures Family(Shedding(meta), [1], SHEDDING_LEAVES)
  {
    var g, low := Shedding(meta), SHEDDING_LEAVES;
    assert Downs(g, [1], 1) == 1 && DownOk(g, [1], low, 0, 1) && low.named[0] == 1;
    assert PlaceOk(g, low, 0) && PlaceOk(g, low, 1);
  }

  /** This one passes. */
  lemma EdgeDeletionPasses(meta: Page)
    ensures Sound(Shedding(meta), [Tier([1], [], []), SHEDDING_LEAVES])
    ensures IndexSilent(Shedding(meta), Level(1, 1, true))
  {
    SheddingLevels(meta);
    SheddingFamily(meta);
    TwoTiers(Shedding(meta), 1, SHEDDING_LEAVES);
    SoundPassesExactly(Shedding(meta), [Tier([1], [], []), SHEDDING_LEAVES]);
  }

  // ----- an interrupted split of the root -----

  /** Two leaves; the first was the root, and there is no new one yet. */
  function Halves(meta: Page): Graph
  {
    map[0 := meta,
        1 := Blank().(leaf := true, incompleteSplit := true, next := 2, items := [Item([5], 0), Item([4, 7], 4)]),
        2 := Blank().(leaf := true, prev := 1, items := [Item([9, 8], 4)])]
  }

  lemma HalvesSound(meta: Page)
    ensures Sound(Halves(meta), [Tier([1, 2], [], [])])
  {
    var g, ts, t := Halves(meta), [Tier([1, 2], [], [])], [1, 2];
    assert LinkedAt(g, t, 0) && LinkedAt(g, t, 1) && PageAt(g, t, 0, 0) && PageAt(g, t, 0, 1);
    assert TierSound(g, ts, 0);
  }

  /** Whatever the metapage is, this index is sound, and the check reports it as corrupt. */
  lemma RootSplitReported(meta: Page)
    ensures Sound(Halves(meta), [Tier([1, 2], [], [])])
    ensures !IndexSilent(Halves(meta), Level(0, 1, true))
  {
    HalvesSound(meta);
    UnsettledFails(Halves(meta), [Tier([1, 2], [], [])], Level(0, 1, true));
  }
}
