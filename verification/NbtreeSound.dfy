/** A sound B-tree, described by its levels: what splits and deletions leave behind, finished or
    interrupted, in terms of the pages alone. */
module NbtreeSound {
  import opened Wrappers
  import opened Lexicographic
  import opened NbtreePages
  import opened NbtreeSpec
  import opened NbtreeTheorems
  import opened NbtreeLockstep

  /** One level. `pages` are its pages from left to right; `named` the places of those that have a
      downlink, in the order of their downlinks; `space` the upper ends of the key spaces that the level
      above gives them. */
  datatype Tier = Tier(pages: seq<nat>, named: seq<nat>, space: seq<Option<Key>>)

  // ----- pages and levels -----

  predicate LinkedAt(g: Graph, t: seq<nat>, i: int)
  {
    && 0 <= i < |t| && t[i] in g && t[i] != P_NONE
    && g[t[i]].prev == (if i == 0 then P_NONE else t[i - 1])
    && g[t[i]].next == (if i + 1 == |t| then P_NONE else t[i + 1])
  }

  /** Siblings point at each other, from one edge of the level to the other. */
  ghost predicate Linked(g: Graph, t: seq<nat>)
  {
    t != [] && forall i {:trigger LinkedAt(g, t, i)} :: 0 <= i < |t| ==> LinkedAt(g, t, i)
  }

  /** A page that is linked into level `height`. The high key of a half-dead leaf has been replaced by one
      without attributes, and it has nothing else on it; other high keys and separators have attributes. */
  ghost predicate PageSound(p: Page, height: nat)
  {
    && !p.meta && !p.deleted && !p.fullXid && p.level == height && (p.leaf <==> height == 0)
    && (!p.Rightmost() ==> p.Has(P_HIKEY))
    && (!p.leaf ==> p.Has(p.FirstData()) && !p.halfDead && !p.garbage)
    && (p.halfDead ==> !p.Rightmost() && !p.incompleteSplit && |p.items| == 1 && p.items[0].key == [])
    && (!p.halfDead ==> HighKey(p) != Some([]))
    && (!p.leaf ==> forall off :: p.Real(off) ==> p.At(off).key != [])
  }

  /** The items of a leaf may reach its high key; those of an internal page are below it. */
  ghost predicate WithinHighKey(p: Page)
  {
    HighKey(p).Some? ==> forall off :: p.Real(off) ==>
      var hi := HighKey(p).value;
      if p.leaf then Leq(p.At(off).key, hi) else Less(p.At(off).key, hi)
  }

  ghost predicate PageAt(g: Graph, t: seq<nat>, height: nat, i: int)
  {
    0 <= i < |t| && t[i] in g && PageSound(g[t[i]], height) && WithinHighKey(g[t[i]])
  }

  ghost predicate LevelSound(g: Graph, t: seq<nat>, height: nat)
  {
    && Linked(g, t) && Ordered(g, t)
    && forall i {:trigger PageAt(g, t, height, i)} :: 0 <= i < |t| ==> PageAt(g, t, height, i)
  }

  // ----- parents and children -----

  /** The number of data items of a page. */
  function Width(p: Page): nat { if |p.items| < p.FirstData() then 0 else |p.items| - p.FirstData() + 1 }

  /** The number of downlinks on the first `n` pages of a level. */
  function Downs(g: Graph, t: seq<nat>, n: nat): nat
    requires n <= |t|
  {
    if n == 0 then 0 else Downs(g, t, n - 1) + if t[n - 1] in g then Width(g[t[n - 1]]) else 0
  }

  /** The number of the downlink at offset `off` of page `i`, counted from the left of the level. */
  function Number(g: Graph, t: seq<nat>, i: nat, off: nat): int
    requires i < |t| && t[i] in g
  {
    Downs(g, t, i) + off - g[t[i]].FirstData()
  }

  /** The real items of `c` are above `key`. */
  ghost predicate AllAbove(c: Page, key: Key) { forall o :: c.Real(o) ==> Less(key, c.At(o).key) }

  /** Downlink `off` of page `i` leads to the page whose turn it is, whose key space lies between the key of
      the downlink and the separator after it. */
  ghost predicate DownOk(g: Graph, t: seq<nat>, low: Tier, i: int, off: nat)
  {
    && 0 <= i < |t| && t[i] in g && g[t[i]].FirstData() <= off <= |g[t[i]].items|
    && var n, p := Number(g, t, i, off), g[t[i]];
       && 0 <= n < |low.named| && low.named[n] < |low.pages| == |low.space|
       && var x := low.named[n];
          && p.At(off).link == low.pages[x] && low.pages[x] in g
          && low.space[x] == SeparatorAfter(p, off)
          && (p.Real(off) ==> AllAbove(g[low.pages[x]], p.At(off).key))
  }

  /** The page at place `x` is the right half of a split whose downlink is still missing: it shares the key
      space of the left half. */
  predicate RightHalf(g: Graph, low: Tier, x: int)
  {
    && 0 < x < |low.pages| == |low.space|
    && low.pages[x - 1] in g && g[low.pages[x - 1]].incompleteSplit && low.space[x] == low.space[x - 1]
  }

  /** One downlink on each page leads from `b` down `n` levels to a half-dead leaf that names `top`. */
  predicate Leads(g: Graph, b: nat, top: nat, n: nat)
    decreases n
  {
    b in g &&
    if n == 0 then g[b].halfDead && g[b].Has(P_HIKEY) && g[b].At(P_HIKEY).link == top
    else !g[b].leaf && |g[b].items| == g[b].FirstData() && Leads(g, g[b].At(g[b].FirstData()).link, top, n - 1)
  }

  /** `b` is the top of a subtree whose deletion was interrupted: its own downlink is gone already. */
  predicate Pending(g: Graph, b: nat) { b in g && !g[b].leaf && Leads(g, b, b, g[b].level) }

  /** A live page has a downlink, is the right half of an interrupted split or the top of an interrupted
      deletion; unless its own split is interrupted its high key is the end of its key space. */
  predicate PlaceOk(g: Graph, low: Tier, x: int)
  {
    && 0 <= x < |low.pages| == |low.space|
    && (Live(g, low.pages[x]) ==>
          && (x in low.named || RightHalf(g, low, x) || Pending(g, low.pages[x]))
          && ((x in low.named || RightHalf(g, low, x)) && !g[low.pages[x]].incompleteSplit ==>
                HighKey(g[low.pages[x]]) == low.space[x]))
  }

  predicate Rising(s: seq<nat>) { forall i, j :: 0 <= i < j < |s| ==> s[i] < s[j] }

  /** The downlinks of the level `t` and the pages of the level below belong together. */
  ghost predicate Family(g: Graph, t: seq<nat>, low: Tier)
  {
    && |low.space| == |low.pages| && |low.named| == Downs(g, t, |t|) && Rising(low.named)
    && (forall k :: 0 <= k < |low.named| ==> low.named[k] < |low.pages|)
    && (forall i, off: nat {:trigger DownOk(g, t, low, i, off)} ::
          0 <= i < |t| && t[i] in g && g[t[i]].FirstData() <= off <= |g[t[i]].items| ==> DownOk(g, t, low, i, off))
    && (forall x {:trigger PlaceOk(g, low, x)} :: 0 <= x < |low.pages| ==> PlaceOk(g, low, x))
  }

  // ----- the index -----

  ghost predicate TierSound(g: Graph, ts: seq<Tier>, d: int)
  {
    0 <= d < |ts| && LevelSound(g, ts[d].pages, |ts| - 1 - d) && (d > 0 ==> Family(g, ts[d - 1].pages, ts[d]))
  }

  /** The levels of a sound index, from the root level down to the leaves. Until the split of a root is
      finished there are two pages on its level, and neither is flagged as the root. */
  ghost predicate Sound(g: Graph, ts: seq<Tier>)
  {
    && INVALID_BLOCK !in g && ts != []
    && (forall d {:trigger TierSound(g, ts, d)} :: 0 <= d < |ts| ==> TierSound(g, ts, d))
    && ts[0].pages != [] && (forall i :: 0 <= i < |ts[0].pages| ==> Live(g, ts[0].pages[i]))
    && (g[ts[0].pages[0]].root <==> |ts[0].pages| == 1)
  }

  /** Half-dead leaves have no downlink and nothing but half-dead leaves to their left. */
  ghost predicate DeadEdge(g: Graph, low: Tier)
  {
    forall x :: 0 <= x < |low.pages| && low.pages[x] in g && g[low.pages[x]].halfDead ==>
      x !in low.named && forall y :: 0 <= y < x ==> low.pages[y] in g && g[low.pages[y]].halfDead
  }

  /** Nothing is interrupted but splits below the root and deletions of single leaves at the left edge. */
  ghost predicate Settled(g: Graph, ts: seq<Tier>)
    requires ts != []
  {
    |ts[0].pages| == 1 && DeadEdge(g, ts[|ts| - 1])
  }
}
