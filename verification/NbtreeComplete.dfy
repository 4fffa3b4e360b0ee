/** A sound index in which no more than that is interrupted passes the check. */
module NbtreeComplete {
  import opened Wrappers
  import opened Lexicographic
  import opened NbtreePages
  import opened NbtreeWalk
  import opened NbtreeSpec
  import opened NbtreeTheorems
  import opened NbtreeLockstep
  import opened NbtreeKeySpace
  import opened NbtreeSound

  // ----- walks along a list of blocks -----

  predicate PassesAt(w: Trek, u: seq<nat>, a: int, x: int)
  {
    0 <= a <= x < |u| && u[x] in w.dom && w.ok(u[a..x], u[x])
  }

  predicate GoesOnAt(w: Trek, u: seq<nat>, a: int, x: int)
  {
    PassesAt(w, u, a, x) && x + 1 < |u| && !w.stop(u[x]) && w.next(u[x]) == u[x + 1]
  }

  lemma {:induction false} StretchWalk(w: Trek, u: seq<nat>, a: nat, m: nat)
    requires a <= m < |u| && w.start == u[a]
    requires forall x {:trigger GoesOnAt(w, u, a, x)} :: a <= x < m ==> GoesOnAt(w, u, a, x)
    ensures At(w, u[a..m], u[m])
  {
    if a < m {
      StretchWalk(w, u, a, m - 1);
      assert GoesOnAt(w, u, a, m - 1);
      Advance(w, u[a..m - 1], u[m - 1]);
      assert u[a..m - 1] + [u[m - 1]] == u[a..m];
    }
  }

  lemma StretchWhole(w: Trek, u: seq<nat>, a: nat, m: nat)
    requires a <= m < |u| && w.start == u[a]
    requires forall x {:trigger GoesOnAt(w, u, a, x)} :: a <= x < m ==> GoesOnAt(w, u, a, x)
    requires PassesAt(w, u, a, m) && w.stop(u[m])
    ensures Whole(w, u[a..m + 1])
  {
    StretchWalk(w, u, a, m);
    Advance(w, u[a..m], u[m]);
    assert u[a..m] + [u[m]] == u[a..m + 1];
  }

  /** A walk along right links to the end of the level. */
  lemma LinkedWalk(g: Graph, w: Trek, t: seq<nat>, a: nat)
    requires Linked(g, t) && a < |t| && w.start == t[a] && w.next == NextOf(g)
    requires forall x :: w.stop(x) <==> EndOfLevel(g, x)
    requires forall x {:trigger PassesAt(w, t, a, x)} :: a <= x < |t| ==> PassesAt(w, t, a, x)
    ensures Whole(w, t[a..])
  {
    forall x {:trigger GoesOnAt(w, t, a, x)} | a <= x < |t| - 1 ensures GoesOnAt(w, t, a, x) {
      assert PassesAt(w, t, a, x) && LinkedAt(g, t, x) && LinkedAt(g, t, x + 1);
    }
    assert PassesAt(w, t, a, |t| - 1) && LinkedAt(g, t, |t| - 1);
    StretchWhole(w, t, a, |t| - 1);
    assert t[a..|t|] == t[a..];
  }

  lemma LinkedWhole(g: Graph, t: seq<nat>, a: nat)
    requires Linked(g, t) && a < |t|
    ensures Whole(PlainTrek(g, t[a]), t[a..])
  {
    var w := PlainTrek(g, t[a]);
    forall x {:trigger PassesAt(w, t, a, x)} | a <= x < |t| ensures PassesAt(w, t, a, x) {
      assert LinkedAt(g, t, x);
    }
    LinkedWalk(g, w, t, a);
  }

  lemma PagesDistinct(g: Graph, t: seq<nat>)
    requires Linked(g, t)
    ensures Distinct(t)
  {
    LinkedWhole(g, t, 0);
    WholeDistinct(PlainTrek(g, t[0]), t[0..]);
    assert t[0..] == t;
  }

  lemma PageLoads(g: Graph, t: seq<nat>, height: nat, i: nat)
    requires LevelSound(g, t, height) && i < |t|
    ensures t[i] != P_NONE && Loads(g, t[i]) && t[i] != g[t[i]].prev && PageSound(g[t[i]], height)
    ensures g[t[i]].Rightmost() <==> i == |t| - 1
  {
    PagesDistinct(g, t);
    assert LinkedAt(g, t, i) && PageAt(g, t, height, i);
    if i > 0 {
      assert LinkedAt(g, t, i - 1);
    }
    if i + 1 < |t| {
      assert LinkedAt(g, t, i + 1);
    }
  }

  // ----- the level below -----

  /** The page at place `x`, once no deletion is under way but at the left edge. */
  ghost predicate TidyAt(g: Graph, low: Tier, x: int)
  {
    && 0 <= x < |low.pages| == |low.space| && low.named != [] && low.pages[x] in g
    && if x < low.named[0] then g[low.pages[x]].halfDead
       else
         && Live(g, low.pages[x]) && (x in low.named || RightHalf(g, low, x))
         && (!g[low.pages[x]].incompleteSplit ==> HighKey(g[low.pages[x]]) == low.space[x])
  }

  ghost predicate Ready(g: Graph, low: Tier, height: nat)
  {
    && INVALID_BLOCK !in g && LevelSound(g, low.pages, height) && |low.space| == |low.pages|
    && low.named != [] && Rising(low.named) && (forall k :: 0 <= k < |low.named| ==> low.named[k] < |low.pages|)
    && forall x {:trigger TidyAt(g, low, x)} :: 0 <= x < |low.pages| ==> TidyAt(g, low, x)
  }

  /** One past the last page that the visit for downlink `n` passes. */
  function NextNamed(low: Tier, n: nat): nat
  {
    if n < |low.named| then low.named[n] else |low.pages|
  }

  lemma NotNamed(low: Tier, n: nat, x: nat)
    requires Rising(low.named) && 0 < n <= |low.named| && low.named[n - 1] < x < NextNamed(low, n)
    ensures x !in low.named
  {
    forall k | 0 <= k < |low.named| ensures low.named[k] != x {
      assert k < n - 1 ==> low.named[k] < low.named[n - 1];
      assert n < k ==> low.named[n] < low.named[k];
    }
  }

  /** Pages between two that have downlinks share the key space of the left one. */
  lemma {:induction false} SpaceStays(g: Graph, low: Tier, height: nat, n: nat, x: nat)
    requires Ready(g, low, height) && 0 < n <= |low.named| && low.named[n - 1] <= x < NextNamed(low, n)
    requires x < |low.pages|
    ensures low.space[x] == low.space[low.named[n - 1]]
    ensures x > low.named[n - 1] ==> low.pages[x - 1] in g && g[low.pages[x - 1]].incompleteSplit
  {
    if x > low.named[n - 1] {
      SpaceStays(g, low, height, n, x - 1);
      NotNamed(low, n, x);
      FirstNamed(low, n - 1);
      assert TidyAt(g, low, x);
    }
  }

  lemma FirstNamed(low: Tier, k: nat)
    requires Rising(low.named) && k < |low.named|
    ensures low.named[0] <= low.named[k]
  {
  }

  // ----- the left edge -----

  /** The pages from place `s` to the left, `k` of them. */
  function Leftward(t: seq<nat>, s: nat, k: nat): seq<nat>
    requires s < |t| && k <= s + 1
  {
    if k == 0 then [] else Leftward(t, s, k - 1) + [t[s - k + 1]]
  }

  predicate EdgeAt(g: Graph, t: seq<nat>, s: int, x: int)
  {
    0 <= x <= s < |t| && LinkedAt(g, t, x) && Loads(g, t[x]) && (x < s ==> g[t[x]].halfDead)
  }

  lemma {:induction false} LeftwardWalk(g: Graph, t: seq<nat>, s: nat, k: nat)
    requires k <= s < |t| && forall x {:trigger EdgeAt(g, t, s, x)} :: 0 <= x <= s ==> EdgeAt(g, t, s, x)
    ensures At(LeftTrek(g, t[s]), Leftward(t, s, k), t[s - k])
  {
    var w := LeftTrek(g, t[s]);
    if k > 0 {
      LeftwardWalk(g, t, s, k - 1);
      assert EdgeAt(g, t, s, s - k + 1) && EdgeAt(g, t, s, s - k);
      if k > 1 {
        assert EdgeAt(g, t, s, s - k + 2);
        assert Last(Leftward(t, s, k - 1)) == t[s - k + 2];
      }
      Advance(w, Leftward(t, s, k - 1), t[s - k + 1]);
    }
  }

  lemma EdgeIsLeftmost(g: Graph, t: seq<nat>, s: nat)
    requires s < |t| && forall x {:trigger EdgeAt(g, t, s, x)} :: 0 <= x <= s ==> EdgeAt(g, t, s, x)
    ensures Leftmost(g, t[s])
  {
    LeftwardWalk(g, t, s, s);
    assert EdgeAt(g, t, s, 0);
    if s > 0 {
      assert EdgeAt(g, t, s, 1);
      assert Last(Leftward(t, s, s)) == t[1];
    }
    Advance(LeftTrek(g, t[s]), Leftward(t, s, s), t[0]);
  }

  lemma ReadyLeftmost(g: Graph, low: Tier, height: nat)
    requires Ready(g, low, height)
    ensures Leftmost(g, low.pages[low.named[0]])
  {
    var t, s := low.pages, low.named[0];
    forall x {:trigger EdgeAt(g, t, s, x)} | 0 <= x <= s ensures EdgeAt(g, t, s, x) {
      PageLoads(g, t, height, x);
      assert TidyAt(g, low, x) && LinkedAt(g, t, x);
    }
    EdgeIsLeftmost(g, t, s);
  }

  // ----- one visit to the level below -----

  /** What the visits for the downlinks before number `n` leave behind. */
  function LinkBefore(g: Graph, low: Tier, n: nat): Linkage
  {
    if 0 < n <= |low.named| && low.named[n - 1] < |low.pages| && low.pages[low.named[n - 1]] in g then
      var p := g[low.pages[low.named[n - 1]]];
      Linkage(p.next, p.incompleteSplit)
    else FRESH
  }

  /** `c` is the visit for downlink `n`, or the one after all downlinks. */
  ghost predicate CallFor(g: Graph, low: Tier, height: nat, c: Call, n: nat)
  {
    && n <= |low.named| && |low.space| == |low.pages| && c.target.level == height + 1
    && (forall k :: 0 <= k < |low.named| ==> low.named[k] < |low.pages|)
    && (if n < |low.named| then c.Downlink() == low.pages[low.named[n]] && c.Pivot(true) == low.space[low.named[n]]
        else c.Downlink() == P_NONE && low.named != [] && low.space[low.named[n - 1]] == None)
    && (0 < n < |low.named| ==> c.Pivot(false) == low.space[low.named[n - 1]])
  }

  lemma LinkBeforeIs(g: Graph, low: Tier, height: nat, n: nat)
    requires Ready(g, low, height) && 0 < n <= |low.named|
    ensures var y, l := low.named[n - 1], LinkBefore(g, low, n);
      && y < |low.pages| && low.pages[y] in g && !l.Fresh() && l.incompleteSplit == g[low.pages[y]].incompleteSplit
      && l.right == if y + 1 < |low.pages| then low.pages[y + 1] else P_NONE
  {
    var y := low.named[n - 1];
    assert LinkedAt(g, low.pages, y);
    if y + 1 < |low.pages| {
      PageLoads(g, low.pages, height, y + 1);
    }
  }

  /** A page between two that have downlinks is excused, and has the right high key. */
  lemma BetweenOk(g: Graph, low: Tier, height: nat, c: Call, n: nat, x: nat, first: bool)
    requires Ready(g, low, height) && CallFor(g, low, height, c, n) && 0 < n
    requires low.named[n - 1] < x < NextNamed(low, n) && x < |low.pages| && first == (x == low.named[n - 1] + 1)
    ensures VisitOk(g, c, LinkBefore(g, low, n), low.pages[x], first, true)
    ensures low.pages[x] != c.Downlink()
  {
    PageLoads(g, low.pages, height, x);
    PagesDistinct(g, low.pages);
    LinkBeforeIs(g, low, height, n);
    SpaceStays(g, low, height, n, x);
    FirstNamed(low, n - 1);
    assert TidyAt(g, low, x);
  }

  /** The page that the downlink names. */
  lemma NamedOk(g: Graph, low: Tier, height: nat, c: Call, n: nat, first: bool, rightsplit: bool)
    requires Ready(g, low, height) && n < |low.named| && CallFor(g, low, height, c, n)
    requires first == (n == 0 || low.named[n] == low.named[n - 1] + 1)
    ensures VisitOk(g, c, LinkBefore(g, low, n), low.pages[low.named[n]], first, rightsplit)
  {
    var x := low.named[n];
    PageLoads(g, low.pages, height, x);
    if n == 0 {
      ReadyLeftmost(g, low, height);
    } else {
      PagesDistinct(g, low.pages);
      LinkBeforeIs(g, low, height, n);
    }
    FirstNamed(low, n);
    assert TidyAt(g, low, x);
  }

  /** The tests of a visit, given by what they are on the pages from place `a` on. */
  lemma FirstCall(g: Graph, low: Tier, height: nat, c: Call)
    requires Ready(g, low, height) && CallFor(g, low, height, c, 0)
    ensures CallSilent(g, c, FRESH)
  {
    var u, x := low.pages, low.named[0];
    var w := ChildTrek(g, c, FRESH);
    NamedOk(g, low, height, c, 0, true, RightSplit(g, FRESH, []));
    PageLoads(g, u, height, x);
    assert u[x..x] == [];
    StretchWhole(w, u, x, x);
  }

  lemma RightSplitAt(g: Graph, low: Tier, height: nat, n: nat, x: nat)
    requires Ready(g, low, height) && 0 < n <= |low.named| && low.named[n - 1] < x < |low.pages|
    ensures low.pages[x - 1] in g
    ensures var passed := low.pages[low.named[n - 1] + 1..x];
      RightSplit(g, LinkBefore(g, low, n), passed) == g[low.pages[x - 1]].incompleteSplit
  {
    LinkBeforeIs(g, low, height, n);
    assert LinkedAt(g, low.pages, x - 1);
    var passed := low.pages[low.named[n - 1] + 1..x];
    if passed != [] {
      assert Last(passed) == low.pages[x - 1];
    }
  }

  /** The pages of a later visit before its end. */
  lemma BetweenPasses(g: Graph, low: Tier, height: nat, c: Call, n: nat, x: nat)
    requires Ready(g, low, height) && CallFor(g, low, height, c, n) && 0 < n
    requires low.named[n - 1] < x < NextNamed(low, n) && x < |low.pages|
    ensures PassesAt(ChildTrek(g, c, LinkBefore(g, low, n)), low.pages, low.named[n - 1] + 1, x)
  {
    SpaceStays(g, low, height, n, x);
    RightSplitAt(g, low, height, n, x);
    BetweenOk(g, low, height, c, n, x, x == low.named[n - 1] + 1);
    PageLoads(g, low.pages, height, x);
  }

  lemma BetweenGoesOn(g: Graph, low: Tier, height: nat, c: Call, n: nat, x: nat)
    requires Ready(g, low, height) && CallFor(g, low, height, c, n) && 0 < n
    requires low.named[n - 1] < x < NextNamed(low, n) && x + 1 < |low.pages|
    ensures GoesOnAt(ChildTrek(g, c, LinkBefore(g, low, n)), low.pages, low.named[n - 1] + 1, x)
  {
    BetweenPasses(g, low, height, c, n, x);
    BetweenOk(g, low, height, c, n, x, x == low.named[n - 1] + 1);
    PageLoads(g, low.pages, height, x);
    assert LinkedAt(g, low.pages, x);
  }

  lemma LaterCall(g: Graph, low: Tier, height: nat, c: Call, n: nat)
    requires Ready(g, low, height) && CallFor(g, low, height, c, n) && 0 < n < |low.named|
    ensures CallSilent(g, c, LinkBefore(g, low, n))
  {
    var u, a, m := low.pages, low.named[n - 1] + 1, low.named[n];
    var w := ChildTrek(g, c, LinkBefore(g, low, n));
    LinkBeforeIs(g, low, height, n);
    forall x {:trigger GoesOnAt(w, u, a, x)} | a <= x < m ensures GoesOnAt(w, u, a, x) {
      BetweenGoesOn(g, low, height, c, n, x);
    }
    RightSplitAt(g, low, height, n, m);
    NamedOk(g, low, height, c, n, a == m, g[u[m - 1]].incompleteSplit);
    PageLoads(g, u, height, m);
    assert (u[a..m] == []) <==> a == m;
    StretchWhole(w, u, a, m);
  }

  lemma FinalCall(g: Graph, low: Tier, height: nat, c: Call)
    requires Ready(g, low, height) && CallFor(g, low, height, c, |low.named|)
    ensures CallSilent(g, c, LinkBefore(g, low, |low.named|))
  {
    var n := |low.named|;
    var u, a, m := low.pages, low.named[n - 1] + 1, |low.pages| - 1;
    LinkBeforeIs(g, low, height, n);
    if a <= m {
      var w := ChildTrek(g, c, LinkBefore(g, low, n));
      forall x {:trigger GoesOnAt(w, u, a, x)} | a <= x < m ensures GoesOnAt(w, u, a, x) {
        BetweenGoesOn(g, low, height, c, n, x);
      }
      BetweenPasses(g, low, height, c, n, m);
      PageLoads(g, u, height, m);
      StretchWhole(w, u, a, m);
    }
  }

  // ----- keys -----

  /** The item after the last one of a page, if there is one on the next page. */
  lemma LastItemOk(g: Graph, t: seq<nat>, height: nat, i: nat)
    requires LevelSound(g, t, height) && i < |t| && Live(g, t[i]) && (i + 1 < |t| ==> Live(g, t[i + 1]))
    requires g[t[i]].Real(|g[t[i]].items|)
    ensures var p := g[t[i]];
      exists key :: RightKey(g, t[i], key) && (key.Some? ==> Less(p.At(|p.items|).key, key.value))
  {
    var p := g[t[i]];
    PageLoads(g, t, height, i);
    if i == |t| - 1 {
      assert RightKey(g, t[i], None);
    } else {
      PageLoads(g, t, height, i + 1);
      assert LinkedAt(g, t, i);
      NextRightKey(g, t[i]);
      var q := g[t[i + 1]];
      if q.Real(q.FirstReal()) {
        assert Precedes(g, t, i, |p.items|, i + 1, q.FirstReal());
      }
      assert RightKey(g, t[i], q.FirstRealKey());
    }
  }

  /** Order along the level and the bound by the high key are all that the key tests ask for. */
  lemma KeyIsOk(g: Graph, t: seq<nat>, height: nat, i: nat, off: nat)
    requires LevelSound(g, t, height) && i < |t| && Live(g, t[i]) && (i + 1 < |t| ==> Live(g, t[i + 1]))
    requires g[t[i]].Real(off)
    ensures KeyOk(g, t[i], off)
  {
    var p := g[t[i]];
    PageLoads(g, t, height, i);
    assert PageAt(g, t, height, i);
    if off < |p.items| {
      assert Precedes(g, t, i, off, i, off + 1);
    } else {
      LastItemOk(g, t, height, i);
    }
  }

  // ----- a page of an internal level -----

  lemma {:induction false} DownsMono(g: Graph, t: seq<nat>, i: nat, j: nat)
    requires i <= j <= |t|
    ensures Downs(g, t, i) <= Downs(g, t, j)
  {
    if i < j {
      DownsMono(g, t, i, j - 1);
    }
  }

  /** The key that page `i` has for its low key. */
  function LowKey(g: Graph, t: seq<nat>, i: nat): Option<Key>
    requires i <= |t|
  {
    if i == 0 || t[i - 1] !in g then None else HighKey(g[t[i - 1]])
  }

  /** Level `t` of height `height + 1` over the tier `low`. */
  ghost predicate Over(g: Graph, t: seq<nat>, low: Tier, height: nat)
  {
    && LevelSound(g, t, height + 1) && (forall i :: 0 <= i < |t| ==> Live(g, t[i]))
    && Ready(g, low, height) && Family(g, t, low)
  }

  lemma InnerPage(g: Graph, t: seq<nat>, height: nat, i: nat)
    requires LevelSound(g, t, height + 1) && i < |t|
    ensures t[i] in g && !g[t[i]].leaf && g[t[i]].level == height + 1 && g[t[i]].FirstData() <= |g[t[i]].items|
    ensures Downs(g, t, i + 1) == Downs(g, t, i) + Width(g[t[i]]) > Downs(g, t, i)
    ensures g[t[i]].Rightmost() <==> i == |t| - 1
  {
    PageLoads(g, t, height + 1, i);
  }

  /** The separator before downlink `n`, if it is not the first of the level. */
  lemma SeparatorBefore(g: Graph, t: seq<nat>, low: Tier, height: nat, i: nat, off: nat)
    requires Over(g, t, low, height) && i < |t| && g[t[i]].FirstData() <= off <= |g[t[i]].items|
    requires Number(g, t, i, off) > 0
    ensures var n := Number(g, t, i, off);
      && n <= |low.named| && low.named[n - 1] < |low.space|
      && low.space[low.named[n - 1]] ==
         if off == g[t[i]].FirstData() then LowKey(g, t, i) else SeparatorAfter(g[t[i]], off - 1)
  {
    if off > g[t[i]].FirstData() {
      assert DownOk(g, t, low, i, off - 1);
    } else {
      InnerPage(g, t, height, i - 1);
      var last := |g[t[i - 1]].items|;
      assert DownOk(g, t, low, i - 1, last);
      assert Number(g, t, i - 1, last) == Downs(g, t, i) - 1;
    }
  }

  lemma CallIsFor(g: Graph, t: seq<nat>, low: Tier, height: nat, i: nat, off: nat)
    requires Over(g, t, low, height) && i < |t| && g[t[i]].FirstData() <= off <= |g[t[i]].items|
    ensures var n := Number(g, t, i, off);
      0 <= n < |low.named| && CallFor(g, low, height, Call(g[t[i]], off, LowKey(g, t, i)), n)
  {
    InnerPage(g, t, height, i);
    assert DownOk(g, t, low, i, off);
    PivotsOfCall(g[t[i]], off, LowKey(g, t, i));
    if Number(g, t, i, off) > 0 {
      SeparatorBefore(g, t, low, height, i, off);
    }
  }

  /** The visit for the downlink at offset `off` is silent, and leaves what the next one starts from. */
  lemma DownlinkVisit(g: Graph, t: seq<nat>, low: Tier, height: nat, i: nat, off: nat)
    requires Over(g, t, low, height) && i < |t| && g[t[i]].FirstData() <= off <= |g[t[i]].items|
    ensures var n, c := Number(g, t, i, off), Call(g[t[i]], off, LowKey(g, t, i));
      n >= 0 && CallSilent(g, c, LinkBefore(g, low, n)) && After(g, c) == LinkBefore(g, low, n + 1)
  {
    var n, c := Number(g, t, i, off), Call(g[t[i]], off, LowKey(g, t, i));
    CallIsFor(g, t, low, height, i, off);
    if n == 0 {
      FirstCall(g, low, height, c);
    } else {
      LaterCall(g, low, height, c, n);
    }
    PageLoads(g, low.pages, height, low.named[n]);
  }

  lemma LastVisit(g: Graph, t: seq<nat>, low: Tier, height: nat)
    requires Over(g, t, low, height)
    ensures var i := |t| - 1; var c := Call(g[t[i]], 0, LowKey(g, t, i));
      CallSilent(g, c, LinkBefore(g, low, Downs(g, t, |t|)))
  {
    var i := |t| - 1;
    InnerPage(g, t, height, i);
    assert DownOk(g, t, low, i, |g[t[i]].items|);
    FinalCall(g, low, height, Call(g[t[i]], 0, LowKey(g, t, i)));
  }

  lemma InnerOffset(g: Graph, t: seq<nat>, low: Tier, height: nat, i: nat, off: nat)
    requires Over(g, t, low, height) && i < |t| && g[t[i]].FirstData() <= off <= |g[t[i]].items|
    ensures Number(g, t, i, off) >= 0
    ensures OffsetOk(g, t[i], LowKey(g, t, i), off, LinkBefore(g, low, Number(g, t, i, off)))
  {
    DownlinkVisit(g, t, low, height, i, off);
    if g[t[i]].Real(off) {
      KeyIsOk(g, t, height + 1, i, off);
      assert DownOk(g, t, low, i, off);
      PageLoads(g, low.pages, height, low.named[Number(g, t, i, off)]);
    }
  }

  lemma LinkStep(g: Graph, p: Page, low: Option<Key>, l: Linkage, off: nat, next: Linkage)
    requires !p.leaf && p.FirstData() < off && After(g, Call(p, off - 1, low)) == next
    ensures Link(g, p, low, l, off) == next
  {
  }

  lemma LinkStart(g: Graph, p: Page, low: Option<Key>, l: Linkage)
    ensures Link(g, p, low, l, p.FirstData()) == l
  {
  }

  lemma NumberStep(g: Graph, t: seq<nat>, i: nat, off: nat)
    requires i < |t| && t[i] in g
    ensures Number(g, t, i, g[t[i]].FirstData()) == Downs(g, t, i)
    ensures off > 0 ==> Number(g, t, i, off) == Number(g, t, i, off - 1) + 1
  {
  }

  lemma LinkAtOffset(g: Graph, t: seq<nat>, low: Tier, i: nat, off: nat)
    requires i < |t| && t[i] in g && !g[t[i]].leaf && g[t[i]].FirstData() <= off
    requires var p, key := g[t[i]], LowKey(g, t, i);
      p.FirstData() < off ==> After(g, Call(p, off - 1, key)) == LinkBefore(g, low, Number(g, t, i, off - 1) + 1)
    ensures Number(g, t, i, off) >= 0
    ensures Link(g, g[t[i]], LowKey(g, t, i), LinkBefore(g, low, Downs(g, t, i)), off) ==
            LinkBefore(g, low, Number(g, t, i, off))
  {
    var p, key, l := g[t[i]], LowKey(g, t, i), LinkBefore(g, low, Downs(g, t, i));
    NumberStep(g, t, i, off);
    if off == p.FirstData() {
      LinkStart(g, p, key, l);
    } else {
      LinkStep(g, p, key, l, off, LinkBefore(g, low, Number(g, t, i, off)));
    }
  }

  lemma LinkIs(g: Graph, t: seq<nat>, low: Tier, height: nat, i: nat, off: nat)
    requires Over(g, t, low, height) && i < |t| && g[t[i]].FirstData() <= off <= |g[t[i]].items| + 1
    ensures Number(g, t, i, off) >= 0
    ensures Link(g, g[t[i]], LowKey(g, t, i), LinkBefore(g, low, Downs(g, t, i)), off) ==
            LinkBefore(g, low, Number(g, t, i, off))
  {
    InnerPage(g, t, height, i);
    if off > g[t[i]].FirstData() {
      DownlinkVisit(g, t, low, height, i, off - 1);
    }
    LinkAtOffset(g, t, low, i, off);
  }

  lemma {:induction false} InnerUpTo(g: Graph, t: seq<nat>, low: Tier, height: nat, i: nat, off: nat)
    requires Over(g, t, low, height) && i < |t| && g[t[i]].FirstData() <= off <= |g[t[i]].items| + 1
    ensures PassUpTo(g, g[t[i]], Offsets(g, t[i], LowKey(g, t, i)), LowKey(g, t, i),
                     LinkBefore(g, low, Downs(g, t, i)), off)
  {
    if off > g[t[i]].FirstData() {
      InnerUpTo(g, t, low, height, i, off - 1);
      LinkIs(g, t, low, height, i, off - 1);
      InnerOffset(g, t, low, height, i, off - 1);
    }
  }

  lemma PageOfParts(g: Graph, b: nat, low: Option<Key>, l: Linkage, last: Linkage)
    requires b in g && PassUpTo(g, g[b], Offsets(g, b, low), low, l, |g[b].items| + 1)
    requires last == Link(g, g[b], low, l, |g[b].items| + 1)
    requires !g[b].leaf && g[b].Rightmost() ==> CallSilent(g, Call(g[b], 0, low), last)
    ensures PageSilent(g, b, low, l)
  {
  }

  lemma InnerSilent(g: Graph, t: seq<nat>, low: Tier, height: nat, i: nat)
    requires Over(g, t, low, height) && i < |t|
    ensures PageSilent(g, t[i], LowKey(g, t, i), LinkBefore(g, low, Downs(g, t, i)))
  {
    var off := |g[t[i]].items| + 1;
    InnerPage(g, t, height, i);
    InnerUpTo(g, t, low, height, i, off);
    LinkIs(g, t, low, height, i, off);
    if i == |t| - 1 {
      NumberEnd(g, t, i);
      LastVisit(g, t, low, height);
    }
    PageOfParts(g, t[i], LowKey(g, t, i), LinkBefore(g, low, Downs(g, t, i)), LinkBefore(g, low, Number(g, t, i, off)));
  }

  lemma NumberEnd(g: Graph, t: seq<nat>, i: nat)
    requires i < |t| && t[i] in g && g[t[i]].FirstData() <= |g[t[i]].items|
    ensures Number(g, t, i, |g[t[i]].items| + 1) == Downs(g, t, i + 1)
  {
  }

  // ----- a level -----

  /** What a walk knows after the first `n` pages of a level with live pages only. */
  lemma {:induction false} KnownLow(g: Graph, t: seq<nat>, n: nat)
    requires n <= |t| && forall i :: 0 <= i < |t| ==> Live(g, t[i])
    ensures Known(g, t[..n]).low == LowKey(g, t, n)
    ensures n > 0 ==> t[0] in g
    ensures n > 0 && LevelBelow(g[t[0]]).leftmost != INVALID_BLOCK ==> Known(g, t[..n]).down == LevelBelow(g[t[0]])
    ensures n == 0 ==> Known(g, t[..n]).down == NoLevel()
  {
    if n > 0 {
      KnownLow(g, t, n - 1);
      KnownAt(g, t, n - 1);
    }
  }

  lemma PassingLink(g: Graph, k: Progress, b: nat, next: Linkage)
    requires Live(g, b) && !g[b].leaf && !g[b].Rightmost()
    requires next == Link(g, g[b], k.low, k.linkage, |g[b].items| + 1)
    ensures Passing(g, k, g[b]).linkage == next
  {
  }

  lemma {:induction false} KnownLink(g: Graph, t: seq<nat>, low: Tier, height: nat, n: nat)
    requires Over(g, t, low, height) && n < |t|
    ensures Known(g, t[..n]).linkage == LinkBefore(g, low, Downs(g, t, n))
  {
    if n > 0 {
      var i, k := n - 1, Known(g, t[..n - 1]);
      KnownLink(g, t, low, height, i);
      KnownLow(g, t, i);
      KnownAt(g, t, i);
      InnerPage(g, t, height, i);
      NumberEnd(g, t, i);
      LinkIs(g, t, low, height, i, |g[t[i]].items| + 1);
      PassingLink(g, k, t[i], LinkBefore(g, low, Downs(g, t, n)));
    }
  }

  lemma {:induction false} LeafUpTo(g: Graph, t: seq<nat>, i: nat, low: Option<Key>, l: Linkage, off: nat)
    requires LevelSound(g, t, 0) && i < |t| && Live(g, t[i]) && (i + 1 < |t| ==> Live(g, t[i + 1]))
    requires off <= |g[t[i]].items| + 1 && g[t[i]].leaf
    ensures PassUpTo(g, g[t[i]], Offsets(g, t[i], low), low, l, off)
  {
    if off > g[t[i]].FirstData() {
      LeafUpTo(g, t, i, low, l, off - 1);
      KeyIsOk(g, t, 0, i, off - 1);
    }
  }

  lemma LeafSilent(g: Graph, t: seq<nat>, i: nat, low: Option<Key>, l: Linkage)
    requires LevelSound(g, t, 0) && i < |t| && Live(g, t[i]) && (i + 1 < |t| ==> Live(g, t[i + 1]))
    ensures PageSilent(g, t[i], low, l)
  {
    PageLoads(g, t, 0, i);
    LeafUpTo(g, t, i, low, l, |g[t[i]].items| + 1);
  }

  /** The pages from place `s` on are live, and the first of them is leftmost. */
  ghost predicate VisitedFrom(g: Graph, t: seq<nat>, height: nat, s: nat)
  {
    && LevelSound(g, t, height) && s < |t| && Leftmost(g, t[s])
    && (forall i :: s <= i < |t| ==> Live(g, t[i]))
  }

  /** What page `i` of a visited level has to pass apart from its contents. */
  lemma ShapeIs(g: Graph, lv: Level, t: seq<nat>, s: nat, i: nat)
    requires VisitedFrom(g, t, lv.level, s) && s <= i < |t| && (lv.trueRoot ==> g[t[s]].root)
    ensures TargetShape(g, lv, Known(g, t[s..][..i - s]).down, LeftOf(t[s..][..i - s]), t[i]) ||
            (i > s && Known(g, t[s..][..i - s]).down.leftmost == INVALID_BLOCK)
  {
    PageLoads(g, t, lv.level, i);
    PagesDistinct(g, t);
    assert LinkedAt(g, t, i);
    if i > s {
      assert Last(t[s..][..i - s]) == t[i - 1];
    }
  }

  lemma FirstBelow(g: Graph, t: seq<nat>, height: nat, s: nat)
    requires INVALID_BLOCK !in g && VisitedFrom(g, t, height, s)
    requires height > 0 ==> FirstLinkOf(g)(t[s]) in g
    ensures LevelBelow(g[t[s]]).leftmost != INVALID_BLOCK
  {
    PageLoads(g, t, height, s);
  }

  lemma PageShape(g: Graph, lv: Level, t: seq<nat>, s: nat, i: nat)
    requires INVALID_BLOCK !in g && VisitedFrom(g, t, lv.level, s) && s <= i < |t| && (lv.trueRoot ==> g[t[s]].root)
    requires lv.level > 0 ==> FirstLinkOf(g)(t[s]) in g
    ensures TargetShape(g, lv, Known(g, t[s..][..i - s]).down, LeftOf(t[s..][..i - s]), t[i])
  {
    ShapeIs(g, lv, t, s, i);
    if i > s {
      FirstBelow(g, t, lv.level, s);
      KnownLow(g, t[s..], i - s);
    }
  }

  ghost predicate TargetAt(g: Graph, lv: Level, t: seq<nat>, s: int, i: int)
  {
    0 <= s <= i < |t| && t[i] in g && TargetOk(g, lv, t[s..i], t[i])
  }

  lemma TargetPasses(g: Graph, lv: Level, t: seq<nat>, s: nat, x: nat)
    requires TargetAt(g, lv, t, s, x)
    ensures PassesAt(LevelTrek(g, lv), t, s, x)
  {
  }

  /** Pages that pass make up a silent walk. */
  lemma LevelWalk(g: Graph, lv: Level, t: seq<nat>, s: nat)
    requires Linked(g, t) && s < |t| && lv.leftmost == t[s]
    requires forall i {:trigger TargetAt(g, lv, t, s, i)} :: s <= i < |t| ==> TargetAt(g, lv, t, s, i)
    ensures LevelSilent(g, lv, t[s..])
  {
    var w := LevelTrek(g, lv);
    forall x {:trigger PassesAt(w, t, s, x)} | s <= x < |t| ensures PassesAt(w, t, s, x) {
      assert TargetAt(g, lv, t, s, x);
      TargetPasses(g, lv, t, s, x);
    }
    LinkedWalk(g, w, t, s);
  }

  lemma SameSlice(t: seq<nat>, s: nat, i: nat)
    requires s <= i <= |t|
    ensures t[s..][..i - s] == t[s..i]
  {
  }

  lemma TargetOfParts(g: Graph, lv: Level, t: seq<nat>, s: nat, i: nat, k: Progress)
    requires s <= i < |t| && k == Known(g, t[s..i]) && TargetShape(g, lv, k.down, LeftOf(t[s..i]), t[i])
    requires PageSilent(g, t[i], k.low, k.linkage)
    ensures TargetAt(g, lv, t, s, i)
  {
  }

  lemma LeafTarget(g: Graph, lv: Level, t: seq<nat>, s: nat, i: nat)
    requires INVALID_BLOCK !in g && lv.level == 0 && VisitedFrom(g, t, 0, s) && s <= i < |t|
    requires lv.trueRoot ==> g[t[s]].root
    ensures TargetAt(g, lv, t, s, i)
  {
    SameSlice(t, s, i);
    PageShape(g, lv, t, s, i);
    LeafSilent(g, t, i, Known(g, t[s..i]).low, Known(g, t[s..i]).linkage);
    TargetOfParts(g, lv, t, s, i, Known(g, t[s..i]));
  }

  /** The leaf level of a settled index passes. */
  lemma LeafLevel(g: Graph, lv: Level, t: seq<nat>, s: nat)
    requires INVALID_BLOCK !in g && lv.level == 0 && VisitedFrom(g, t, 0, s) && lv.leftmost == t[s]
    requires lv.trueRoot ==> g[t[s]].root
    ensures LevelSilent(g, lv, t[s..]) && Known(g, t[s..]).down.leftmost == P_NONE
  {
    forall i {:trigger TargetAt(g, lv, t, s, i)} | s <= i < |t| ensures TargetAt(g, lv, t, s, i) {
      LeafTarget(g, lv, t, s, i);
    }
    LevelWalk(g, lv, t, s);
    PageLoads(g, t, 0, s);
    KnownLow(g, t[s..], |t| - s);
    assert t[s..][..|t| - s] == t[s..];
  }

  lemma InnerKnown(g: Graph, t: seq<nat>, low: Tier, height: nat, i: nat)
    requires Over(g, t, low, height) && i < |t|
    ensures var k := Known(g, t[0..i]); PageSilent(g, t[i], k.low, k.linkage)
  {
    assert t[0..i] == t[..i];
    KnownLow(g, t, i);
    KnownLink(g, t, low, height, i);
    InnerSilent(g, t, low, height, i);
  }

  lemma InnerTarget(g: Graph, lv: Level, t: seq<nat>, low: Tier, i: nat)
    requires lv.level > 0 && Over(g, t, low, lv.level - 1) && VisitedFrom(g, t, lv.level, 0) && i < |t|
    requires lv.trueRoot ==> g[t[0]].root
    requires FirstLinkOf(g)(t[0]) in g
    ensures TargetAt(g, lv, t, 0, i)
  {
    InnerKnown(g, t, low, lv.level - 1, i);
    SameSlice(t, 0, i);
    PageShape(g, lv, t, 0, i);
    TargetOfParts(g, lv, t, 0, i, Known(g, t[0..i]));
  }

  lemma FirstChild(g: Graph, t: seq<nat>, low: Tier, height: nat)
    requires Over(g, t, low, height)
    ensures FirstLinkOf(g)(t[0]) == low.pages[low.named[0]] && low.pages[low.named[0]] in g
  {
    InnerPage(g, t, height, 0);
    assert DownOk(g, t, low, 0, g[t[0]].FirstData());
  }

  lemma SilentSlice(g: Graph, lv: Level, t: seq<nat>)
    requires LevelSilent(g, lv, t[0..])
    ensures LevelSilent(g, lv, t)
  {
    assert t[0..] == t;
  }

  lemma KnownSlice(g: Graph, t: seq<nat>, down: Level)
    requires Known(g, t[..|t|]).down == down
    ensures Known(g, t).down == down
  {
    assert t[..|t|] == t;
  }

  /** An internal level of a settled index passes. */
  lemma InnerLevel(g: Graph, lv: Level, t: seq<nat>, low: Tier)
    requires lv.level > 0 && Over(g, t, low, lv.level - 1) && VisitedFrom(g, t, lv.level, 0)
    requires lv.leftmost == t[0] && (lv.trueRoot ==> g[t[0]].root)
    ensures LevelSilent(g, lv, t)
  {
    FirstChild(g, t, low, lv.level - 1);
    forall i {:trigger TargetAt(g, lv, t, 0, i)} | 0 <= i < |t| ensures TargetAt(g, lv, t, 0, i) {
      InnerTarget(g, lv, t, low, i);
    }
    LevelWalk(g, lv, t, 0);
    SilentSlice(g, lv, t);
  }

  /** It leads to the first page below that has a downlink. */
  lemma InnerDown(g: Graph, t: seq<nat>, low: Tier, height: nat)
    requires Over(g, t, low, height)
    ensures Known(g, t).down == Level(height, low.pages[low.named[0]], false)
  {
    FirstChild(g, t, low, height);
    InnerPage(g, t, height, 0);
    KnownLow(g, t, |t|);
    KnownSlice(g, t, Level(height, low.pages[low.named[0]], false));
  }
}
