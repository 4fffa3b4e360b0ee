/** What the silence of the checker proves about an arbitrary page graph. */
module NbtreeTheorems {
  import opened Wrappers
  import opened Lexicographic
  import opened NbtreePages
  import opened NbtreeWalk
  import opened NbtreeSpec

  predicate Live(g: Graph, b: nat) { b in g && !g[b].Ignorable() }

  lemma ShapeAt(g: Graph, lv: Level, t: seq<nat>, i: nat)
    requires Path(LevelTrek(g, lv), t) && i < |t|
    ensures TargetShape(g, lv, Known(g, t[..i]).down, if i == 0 then P_NONE else t[i - 1], t[i])
  {
    PathAt(LevelTrek(g, lv), t, i);
  }

  lemma LinkAt(g: Graph, lv: Level, t: seq<nat>, i: nat)
    requires Path(LevelTrek(g, lv), t) && i < |t|
    ensures t[i] in g
    ensures if i == 0 then t[i] == lv.leftmost
            else t[i - 1] in g && t[i] == g[t[i - 1]].next && t[i] != P_NONE
  {
    PathAt(LevelTrek(g, lv), t, i);
    if i > 0 {
      PathAt(LevelTrek(g, lv), t, i - 1);
    }
  }

  lemma SilentAt(g: Graph, lv: Level, t: seq<nat>, i: nat)
    requires Path(LevelTrek(g, lv), t) && i < |t| && Live(g, t[i])
    ensures PageSilent(g, t[i], Known(g, t[..i]).low, Known(g, t[..i]).linkage)
  {
    PathAt(LevelTrek(g, lv), t, i);
  }

  // ----- the level walk visits each page once -----

  /** The left neighbour of a leftmost page, if any, is half-dead. */
  lemma LeftOfLeftmost(g: Graph, b: nat)
    requires Leftmost(g, b) && b in g && g[b].prev != P_NONE
    ensures g[b].prev in g && g[g[b].prev].halfDead
  {
    var c :| Whole(LeftTrek(g, b), c);
    PathAt(LeftTrek(g, b), c, 0);
    if |c| > 1 {
      PathAt(LeftTrek(g, b), c, 1);
    }
  }

  /** The siblings on `t` agree, its first page is leftmost, and skipped pages are half-dead. */
  ghost predicate Siblings(g: Graph, t: seq<nat>)
  {
    && (forall m :: 0 <= m < |t| ==> t[m] in g && t[m] != P_NONE)
    && (forall m :: 0 <= m < |t| && !Live(g, t[m]) ==> g[t[m]].halfDead)
    && (forall m :: 0 < m < |t| && Live(g, t[m]) ==> g[t[m]].prev == t[m - 1])
    && (|t| > 0 && Live(g, t[0]) ==> Leftmost(g, t[0]))
  }

  lemma WalkSiblings(g: Graph, lv: Level, t: seq<nat>)
    requires Path(LevelTrek(g, lv), t)
    ensures Siblings(g, t)
  {
    forall m | 0 <= m < |t|
      ensures t[m] in g && t[m] != P_NONE && (!Live(g, t[m]) ==> g[t[m]].halfDead)
    {
      ShapeAt(g, lv, t, m);
    }
    forall m | 0 < m < |t| && Live(g, t[m]) ensures g[t[m]].prev == t[m - 1] {
      ShapeAt(g, lv, t, m);
    }
    if |t| > 0 && Live(g, t[0]) {
      ShapeAt(g, lv, t, 0);
    }
  }

  lemma {:induction false} RevisitHalfDead(g: Graph, t: seq<nat>, i: nat, j: nat)
    requires Siblings(g, t)
    requires i < j < |t| && t[i] == t[j]
    ensures exists k :: i <= k < j && g[t[k]].halfDead
  {
    if Live(g, t[i]) && Live(g, t[j - 1]) {
      assert g[t[j]].prev == t[j - 1];
      if i == 0 {
        LeftOfLeftmost(g, t[0]);
      } else {
        RevisitHalfDead(g, t, i - 1, j - 1);
        var k :| i - 1 <= k < j - 1 && g[t[k]].halfDead;
        assert t[i - 1] == t[j - 1];
      }
    }
  }

  /** Between two visits of a level walk to the same block lies a half-dead page. */
  lemma RevisitPassesHalfDead(g: Graph, lv: Level, t: seq<nat>, i: nat, j: nat)
    requires Path(LevelTrek(g, lv), t)
    requires i < j < |t| && t[i] == t[j]
    ensures exists k :: i <= k < j && t[k] in g && g[t[k]].halfDead
  {
    WalkSiblings(g, lv, t);
    RevisitHalfDead(g, t, i, j);
  }

  /** On a graph without half-dead pages a level walk never comes back to a block, so it ends
      within as many steps as there are blocks. */
  lemma LevelWalkVisitsOnce(g: Graph, lv: Level, t: seq<nat>)
    requires Path(LevelTrek(g, lv), t)
    requires forall b :: b in g ==> !g[b].halfDead
    ensures Distinct(t)
    ensures |t| <= |g|
  {
    forall i, j | 0 <= i < j < |t| ensures t[i] != t[j] {
      if t[i] == t[j] {
        RevisitPassesHalfDead(g, lv, t, i, j);
      }
    }
    PathBound(LevelTrek(g, lv), t);
  }

  // ----- order of the items of a level -----

  /** `t` is linked by right links, and skippable pages are not at its end. */
  ghost predicate WellLinked(g: Graph, t: seq<nat>)
  {
    && (forall m :: 0 <= m < |t| ==> t[m] != P_NONE && Loads(g, t[m]))
    && (forall m :: 0 <= m < |t| - 1 ==> t[m + 1] == g[t[m]].next)
    && (forall m :: 0 <= m < |t| ==> g[t[m]].Ignorable() ==> !g[t[m]].Rightmost())
  }

  /** The real items on the live pages of `t` pass their tests. */
  ghost predicate ItemsPass(g: Graph, t: seq<nat>)
  {
    forall m, off: nat :: 0 <= m < |t| && Live(g, t[m]) && g[t[m]].Real(off) ==> ItemOk(g, t[m], off)
  }

  lemma PageItem(g: Graph, b: nat, low: Option<Key>, l: Linkage, off: nat)
    requires b in g && PageSilent(g, b, low, l) && g[b].Real(off)
    ensures ItemOk(g, b, off)
  {
    var ok := Offsets(g, b, low);
    PassAt(g, g[b], ok, low, l, |g[b].items| + 1, off);
  }

  lemma SilentItem(g: Graph, lv: Level, t: seq<nat>, i: nat, off: nat)
    requires Path(LevelTrek(g, lv), t) && i < |t| && Live(g, t[i]) && g[t[i]].Real(off)
    ensures ItemOk(g, t[i], off)
  {
    SilentAt(g, lv, t, i);
    PageItem(g, t[i], Known(g, t[..i]).low, Known(g, t[..i]).linkage, off);
  }

  lemma SilentLevel(g: Graph, lv: Level, t: seq<nat>)
    requires Path(LevelTrek(g, lv), t)
    ensures WellLinked(g, t) && ItemsPass(g, t)
  {
    forall m | 0 <= m < |t|
      ensures t[m] != P_NONE && Loads(g, t[m]) && (g[t[m]].Ignorable() ==> !g[t[m]].Rightmost())
      ensures m > 0 ==> t[m - 1] in g && t[m] == g[t[m - 1]].next
    {
      ShapeAt(g, lv, t, m);
      LinkAt(g, lv, t, m);
    }
    forall m | 0 <= m < |t| - 1 ensures t[m + 1] == g[t[m]].next {
      assert (m + 1) - 1 == m;
    }
    forall m, off: nat | 0 <= m < |t| && Live(g, t[m]) && g[t[m]].Real(off) ensures ItemOk(g, t[m], off) {
      SilentItem(g, lv, t, m, off);
    }
  }

  lemma {:induction false} OrderOnPage(g: Graph, t: seq<nat>, i: nat, lo: nat, hi: nat)
    requires ItemsPass(g, t) && i < |t| && Live(g, t[i])
    requires g[t[i]].Real(lo) && g[t[i]].Real(hi) && lo < hi
    ensures Less(g[t[i]].At(lo).key, g[t[i]].At(hi).key)
  {
    var p := g[t[i]];
    assert p.Real(hi - 1);
    assert ItemOk(g, t[i], hi - 1);
    if lo < hi - 1 {
      OrderOnPage(g, t, i, lo, hi - 1);
      LessTransitive(p.At(lo).key, p.At(hi - 1).key, p.At(hi).key);
    }
  }

  /** Right links over pages to be skipped make up the walk that skips them. */
  lemma {:induction false} SkippingPath(g: Graph, t: seq<nat>, i: nat, k: nat)
    requires WellLinked(g, t) && i < k < |t|
    requires forall m :: i < m < k ==> !Live(g, t[m])
    ensures At(RightTrek(g, t[i]), t[i + 1..k], t[k])
  {
    if i + 1 < k {
      SkippingPath(g, t, i, k - 1);
      Advance(RightTrek(g, t[i]), t[i + 1..k - 1], t[k - 1]);
      assert t[i + 1..k - 1] + [t[k - 1]] == t[i + 1..k];
    }
    assert t[(k - 1) + 1] == g[t[k - 1]].next;
  }

  lemma SkipToLive(g: Graph, t: seq<nat>, i: nat, k: nat)
    requires WellLinked(g, t) && i < k < |t| && Live(g, t[k])
    requires forall m :: i < m < k ==> !Live(g, t[m])
    ensures Whole(RightTrek(g, t[i]), t[i + 1..k] + [t[k]])
  {
    SkippingPath(g, t, i, k);
    Advance(RightTrek(g, t[i]), t[i + 1..k], t[k]);
  }

  lemma RightKeyIs(g: Graph, b: nat, t: seq<nat>, key: Option<Key>)
    requires b in g && !g[b].Rightmost()
    requires Whole(RightTrek(g, b), t) && RightKey(g, b, key)
    ensures key == g[Last(t)].FirstRealKey()
  {
    var u :| Whole(RightTrek(g, b), u) && key == g[Last(u)].FirstRealKey();
    WholeUnique(RightTrek(g, b), t, u);
  }

  /** The last item of a live page is below the first of the next live page. */
  lemma OrderAcross(g: Graph, t: seq<nat>, i: nat, k: nat)
    requires WellLinked(g, t) && ItemsPass(g, t)
    requires i < k < |t| && Live(g, t[i]) && Live(g, t[k])
    requires forall m :: i < m < k ==> !Live(g, t[m])
    requires g[t[i]].Real(|g[t[i]].items|) && g[t[k]].Real(g[t[k]].FirstReal())
    ensures Less(g[t[i]].At(|g[t[i]].items|).key, g[t[k]].At(g[t[k]].FirstReal()).key)
  {
    SkipToLive(g, t, i, k);
    assert t[i + 1] == g[t[i]].next;
    var b := t[i];
    assert KeyOk(g, b, |g[b].items|);
    var key :| RightKey(g, b, key) && (key.Some? ==> Less(g[b].At(|g[b].items|).key, key.value));
    RightKeyIs(g, b, t[i + 1..k] + [t[k]], key);
  }

  /** `b` is a live page with a real item. */
  predicate Bears(g: Graph, b: nat) { Live(g, b) && g[b].Real(g[b].FirstReal()) }

  /** `i` and `k` are pages with items and no page between them has any. */
  ghost predicate Neighbours(g: Graph, t: seq<nat>, i: int, k: int)
  {
    0 <= i < k < |t| && Bears(g, t[i]) && Bears(g, t[k]) && forall m :: i < m < k ==> !Bears(g, t[m])
  }

  ghost predicate EmptyPageBetween(g: Graph, t: seq<nat>, i: int, k: int)
  {
    exists m :: 0 <= i < m < k <= |t| && Live(g, t[m])
  }

  /** Neighbours that are separated by a live page without items are in order. */
  ghost predicate GapsOrdered(g: Graph, t: seq<nat>)
  {
    forall i, k :: Neighbours(g, t, i, k) && EmptyPageBetween(g, t, i, k) ==>
      Less(g[t[i]].At(|g[t[i]].items|).key, g[t[k]].At(g[t[k]].FirstReal()).key)
  }

  /** The real item at (`i`, `lo`) is read before the one at (`j`, `hi`). */
  predicate Precedes(g: Graph, t: seq<nat>, i: int, lo: nat, j: int, hi: nat)
  {
    && 0 <= i <= j < |t|
    && Live(g, t[i]) && Live(g, t[j])
    && g[t[i]].Real(lo) && g[t[j]].Real(hi)
    && (i < j || lo < hi)
  }

  /** The real items of `t`, read from left to right and page after page, are strictly increasing. */
  ghost predicate Ordered(g: Graph, t: seq<nat>)
  {
    forall i, lo: nat, j, hi: nat :: Precedes(g, t, i, lo, j, hi) ==>
      Less(g[t[i]].At(lo).key, g[t[j]].At(hi).key)
  }

  lemma NextBearing(g: Graph, t: seq<nat>, i: nat, j: nat) returns (k: nat)
    requires i < j < |t| && Bears(g, t[i]) && Bears(g, t[j])
    ensures k <= j && Neighbours(g, t, i, k)
  {
    k := i + 1;
    while !Bears(g, t[k])
      invariant i < k <= j
      invariant forall m :: i < m < k ==> !Bears(g, t[m])
      decreases j - k
    {
      k := k + 1;
    }
  }

  lemma OrderNext(g: Graph, t: seq<nat>, i: nat, k: nat)
    requires WellLinked(g, t) && ItemsPass(g, t) && GapsOrdered(g, t) && Neighbours(g, t, i, k)
    ensures Less(g[t[i]].At(|g[t[i]].items|).key, g[t[k]].At(g[t[k]].FirstReal()).key)
  {
    if !EmptyPageBetween(g, t, i, k) {
      OrderAcross(g, t, i, k);
    }
  }

  lemma OrderToNext(g: Graph, t: seq<nat>, i: nat, lo: nat, k: nat)
    requires WellLinked(g, t) && ItemsPass(g, t) && GapsOrdered(g, t) && Neighbours(g, t, i, k)
    requires g[t[i]].Real(lo)
    ensures Less(g[t[i]].At(lo).key, g[t[k]].At(g[t[k]].FirstReal()).key)
  {
    var p, q := g[t[i]], g[t[k]];
    OrderNext(g, t, i, k);
    if lo < |p.items| {
      OrderOnPage(g, t, i, lo, |p.items|);
      LessTransitive(p.At(lo).key, p.At(|p.items|).key, q.At(q.FirstReal()).key);
    }
  }

  lemma {:induction false} OrderBetween(g: Graph, t: seq<nat>, i: nat, lo: nat, j: nat, hi: nat)
    requires WellLinked(g, t) && ItemsPass(g, t) && GapsOrdered(g, t)
    requires Precedes(g, t, i, lo, j, hi)
    ensures Less(g[t[i]].At(lo).key, g[t[j]].At(hi).key)
    decreases j - i
  {
    if i == j {
      OrderOnPage(g, t, i, lo, hi);
    } else {
      var k := NextBearing(g, t, i, j);
      var q := g[t[k]];
      OrderToNext(g, t, i, lo, k);
      if k < j || q.FirstReal() < hi {
        OrderBetween(g, t, k, q.FirstReal(), j, hi);
        LessTransitive(g[t[i]].At(lo).key, q.At(q.FirstReal()).key, g[t[j]].At(hi).key);
      }
    }
  }

  lemma GapsGiveOrder(g: Graph, t: seq<nat>)
    requires WellLinked(g, t) && ItemsPass(g, t) && GapsOrdered(g, t)
    ensures Ordered(g, t)
  {
    forall i, lo: nat, j, hi: nat | Precedes(g, t, i, lo, j, hi)
      ensures Less(g[t[i]].At(lo).key, g[t[j]].At(hi).key)
    {
      OrderBetween(g, t, i, lo, j, hi);
    }
  }

  lemma OrderGivesGaps(g: Graph, t: seq<nat>)
    requires Ordered(g, t)
    ensures GapsOrdered(g, t)
  {
    forall i, k | Neighbours(g, t, i, k) && EmptyPageBetween(g, t, i, k)
      ensures Less(g[t[i]].At(|g[t[i]].items|).key, g[t[k]].At(g[t[k]].FirstReal()).key)
    {
      assert Precedes(g, t, i, |g[t[i]].items|, k, g[t[k]].FirstReal());
    }
  }

  /** On a silent level the real items are strictly increasing if and only if they are so across
      its empty live pages; no test compares the items on either side of those. */
  lemma LevelOrder(g: Graph, lv: Level, t: seq<nat>)
    requires LevelSilent(g, lv, t)
    ensures Ordered(g, t) <==> GapsOrdered(g, t)
    ensures (forall i :: 0 <= i < |t| && Live(g, t[i]) ==> Bears(g, t[i])) ==> GapsOrdered(g, t)
  {
    SilentLevel(g, lv, t);
    if GapsOrdered(g, t) {
      GapsGiveOrder(g, t);
    }
    if Ordered(g, t) {
      OrderGivesGaps(g, t);
    }
  }

  lemma NextRightKey(g: Graph, b: nat)
    requires b in g && !g[b].Rightmost() && Loads(g, g[b].next) && !g[g[b].next].Ignorable()
    ensures RightKey(g, b, g[g[b].next].FirstRealKey())
  {
    var n := g[b].next;
    Advance(RightTrek(g, b), [], n);
    assert [] + [n] == [n] && Last([n]) == n;
  }
}
