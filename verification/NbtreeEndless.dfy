/** Loops of the checker that need not end on a corrupt graph: which links let them go round, and after
    how many steps it is certain that they do. */
module NbtreeEndless {
  import opened Wrappers
  import opened NbtreePages
  import opened NbtreeWalk
  import opened NbtreeSpec
  import opened NbtreeTheorems

  // ----- walks whose tests look back one page at most -----

  lemma ChildRecurrent(g: Graph, c: Call, l: Linkage)
    ensures Recurrent(ChildTrek(g, c, l))
  {
    LocalIsRecurrent(ChildTrek(g, c, l));
  }

  lemma RightRecurrent(g: Graph, b: nat)
    requires b in g
    ensures Recurrent(RightTrek(g, b))
  {
    LocalIsRecurrent(RightTrek(g, b));
  }

  lemma DescentRecurrent(g: Graph, b: nat)
    ensures Recurrent(DescentTrek(g, b))
  {
    LocalIsRecurrent(DescentTrek(g, b));
  }

  // ----- the walk over a level -----

  function LinkageOf(g: Graph, t: seq<nat>): Linkage { Known(g, t).linkage }

  /** Page `b` leaves a linkage of its own, which does not depend on the one it found. */
  predicate Links(g: Graph, b: nat)
  {
    b in g && !g[b].leaf && !g[b].Ignorable() && (g[b].Rightmost() || g[b].FirstData() <= |g[b].items|)
  }

  function OwnLink(g: Graph, b: nat): Linkage
    requires b in g
  {
    if g[b].Rightmost() then FRESH else After(g, Call(g[b], |g[b].items|, None))
  }

  lemma LinkStep(g: Graph, t: seq<nat>, n: nat)
    requires n < |t|
    ensures LinkageOf(g, t[..n + 1]) == if Links(g, t[n]) then OwnLink(g, t[n]) else LinkageOf(g, t[..n])
  {
    assert t[..n + 1][..n] == t[..n];
  }

  /** Two laps over the same pages agree from the first page on that leaves a linkage; without one they
      leave everything as it was. */
  lemma {:induction false} SameLap(g: Graph, t: seq<nat>, i: nat, p: nat, m: nat)
    requires m <= p && i + p + m <= |t|
    requires forall k :: i <= k < i + m ==> t[k] == t[k + p]
    ensures || LinkageOf(g, t[..i + p + m]) == LinkageOf(g, t[..i + m])
            || (LinkageOf(g, t[..i + p + m]) == LinkageOf(g, t[..i + p]) &&
                LinkageOf(g, t[..i + m]) == LinkageOf(g, t[..i]))
  {
    if m > 0 {
      SameLap(g, t, i, p, m - 1);
      LinkStep(g, t, i + m - 1);
      LinkStep(g, t, i + p + m - 1);
      assert t[i + m - 1] == t[(i + m - 1) + p];
    }
  }

  /** From the end of the second lap on the linkage repeats. */
  lemma {:induction false} LinkageRepeats(g: Graph, t: seq<nat>, i: nat, p: nat, n: nat)
    requires p > 0 && i + 2 * p <= n <= |t|
    requires forall k :: i <= k < |t| - p ==> t[k] == t[k + p]
    ensures LinkageOf(g, t[..n]) == LinkageOf(g, t[..n - p])
  {
    if n == i + 2 * p {
      SameLap(g, t, i, p, p);
    } else {
      LinkageRepeats(g, t, i, p, n - 1);
      LinkStep(g, t, n - 1);
      LinkStep(g, t, n - 1 - p);
      assert t[n - 1 - p] == t[(n - 1 - p) + p];
    }
  }

  /** The start of the next level is settled for good. */
  lemma {:induction false} SettledStays(g: Graph, t: seq<nat>, m: nat)
    requires m <= |t| && Known(g, t).down.leftmost == INVALID_BLOCK
    ensures Known(g, t[..m]).down.leftmost == INVALID_BLOCK
  {
    if m < |t| {
      SettledStays(g, t[..|t| - 1], m);
      assert t[..|t| - 1][..m] == t[..m];
    } else {
      assert t[..m] == t;
    }
  }

  lemma LowIsLast(g: Graph, t: seq<nat>, u: seq<nat>)
    requires t != [] && u != [] && Last(t) == Last(u) && Last(t) in g
    ensures Known(g, t).low == Known(g, u).low
  {
  }

  /** What is known after a lap is what was known a lap before, but that the start of the next level may be
      settled by now. */
  lemma LapKnown(g: Graph, q: seq<nat>, i: nat, p: nat)
    requires p > 0 && |q| >= i + 2 * p
    requires forall k :: i <= k < |q| - p ==> q[k] == q[k + p]
    requires forall k :: 0 <= k < |q| ==> q[k] in g
    ensures var k, before := Known(g, q), Known(g, q[..|q| - p]);
      && k.low == before.low && k.linkage == before.linkage && LeftOf(q) == LeftOf(q[..|q| - p])
      && (k.down.leftmost == INVALID_BLOCK ==> before.down.leftmost == INVALID_BLOCK)
  {
    var u := q[..|q| - p];
    assert q[|q| - 1 - p] == q[(|q| - 1 - p) + p];
    LowIsLast(g, q, u);
    LinkageRepeats(g, q, i, p, |q|);
    assert q[..|q|] == q;
    if Known(g, q).down.leftmost == INVALID_BLOCK {
      SettledStays(g, q, |u|);
    }
  }

  lemma SameTest(g: Graph, lv: Level, u: seq<nat>, q: seq<nat>, x: nat)
    requires TargetOk(g, lv, u, x) && LeftOf(u) == LeftOf(q)
    requires Known(g, u).low == Known(g, q).low && Known(g, u).linkage == Known(g, q).linkage
    requires Known(g, q).down.leftmost == INVALID_BLOCK ==> Known(g, u).down.leftmost == INVALID_BLOCK
    ensures TargetOk(g, lv, q, x)
  {
  }

  lemma LapTest(g: Graph, lv: Level, q: seq<nat>, i: nat, p: nat, x: nat)
    requires Path(LevelTrek(g, lv), q) && p > 0 && |q| >= i + 2 * p && q[i] == q[i + p]
    requires TargetOk(g, lv, q[..|q| - p], x)
    ensures TargetOk(g, lv, q, x)
  {
    PathShift(LevelTrek(g, lv), q, i, p);
    LapKnown(g, q, i, p);
    SameTest(g, lv, q[..|q| - p], q, x);
  }

  lemma LevelRecurrent(g: Graph, lv: Level)
    ensures Recurrent(LevelTrek(g, lv))
  {
    var w := LevelTrek(g, lv);
    forall i: nat, p: nat | p > 0 ensures Recurs(w, i, p) {
      forall q, x | At(w, q, x) && |q| >= i + 2 * p && q[i] == q[i + p] && w.ok(q[..|q| - p], x)
        ensures w.ok(q, x)
      {
        LapTest(g, lv, q, i, p, x);
      }
    }
  }

  /** A level walk that takes more steps than twice the number of blocks goes on for ever; otherwise no walk
      over the level takes that many. */
  lemma LevelForeverIff(g: Graph, lv: Level)
    ensures Forever(LevelTrek(g, lv)) <==> HasPath(LevelTrek(g, lv), 2 * |g| + 1)
  {
    var w := LevelTrek(g, lv);
    if HasPath(w, 2 * |g| + 1) {
      var t :| |t| == 2 * |g| + 1 && Path(w, t);
      LevelRecurrent(g, lv);
      LongIsForever(w, t);
    }
  }

  // ----- the links that let a level walk go round -----

  lemma {:induction false} RingPath(w: Trek, ring: set<nat>, c: seq<nat>, n: nat)
    requires w.start in ring && forall x :: x in ring ==> w.next(x) in ring
    requires Path(w, c) && n < |c|
    ensures c[n] in ring
  {
    PathAt(w, c, n);
    if n > 0 {
      RingPath(w, ring, c, n - 1);
    }
  }

  lemma RingNeverStops(w: Trek, ring: set<nat>)
    requires w.start in ring && forall x :: x in ring ==> w.next(x) in ring
    requires forall x :: x in ring ==> !w.stop(x)
    ensures !Completes(w)
  {
    forall c | Whole(w, c) ensures false {
      RingPath(w, ring, c, |c| - 1);
    }
  }

  /** The blocks of `ring` keep to themselves on the way left. */
  ghost predicate KeepsLeft(g: Graph, ring: set<nat>)
  {
    forall x :: x in ring ==> x in g && g[x].prev in ring && g[x].prev != P_NONE
  }

  lemma RingHasNoLeftmost(g: Graph, ring: set<nat>, b: nat)
    requires b in ring && KeepsLeft(g, ring)
    ensures !Leftmost(g, b)
  {
    RingNeverStops(LeftTrek(g, b), ring);
  }

  /** Page `k` of the walk is half-dead and its left link is not the page that the walk comes from. The
      checker never looks at that link. */
  predicate Misleads(g: Graph, t: seq<nat>, k: int)
  {
    0 < k < |t| && t[k] in g && g[t[k]].halfDead && g[t[k]].prev != t[k - 1]
  }

  predicate PointsBack(g: Graph, t: seq<nat>, k: int)
  {
    0 < k < |t| && t[k] in g && t[k] != P_NONE && g[t[k]].prev == t[k - 1]
  }

  /** Left links agree with the walk as far as page `j`. */
  ghost predicate AllPointBack(g: Graph, t: seq<nat>, j: int)
  {
    forall k {:trigger PointsBack(g, t, k)} :: 0 < k <= j ==> PointsBack(g, t, k)
  }

  lemma {:induction false} RingStart(g: Graph, t: seq<nat>, i: nat, j: nat)
    requires i < j < |t| && t[i] == t[j]
    requires AllPointBack(g, t, j)
    ensures t[0] == t[j - i]
  {
    if i > 0 {
      assert PointsBack(g, t, i) && PointsBack(g, t, j);
      RingStart(g, t, i - 1, j - 1);
    }
  }

  function Blocks(t: seq<nat>, p: nat): set<nat>
    requires p <= |t|
  {
    set k | 0 <= k < p :: t[k]
  }

  lemma RingClosed(g: Graph, t: seq<nat>, p: nat)
    requires 0 < p < |t| && t[0] == t[p] && AllPointBack(g, t, p)
    ensures KeepsLeft(g, Blocks(t, p))
  {
    forall x | x in Blocks(t, p) ensures x in g && g[x].prev in Blocks(t, p) && g[x].prev != P_NONE {
      var k :| 0 <= k < p && t[k] == x;
      var left := if k == 0 then p - 1 else k - 1;
      assert PointsBack(g, t, left + 1);
      assert left > 0 ==> PointsBack(g, t, left);
      assert left == 0 ==> PointsBack(g, t, p);
      assert t[left] in Blocks(t, p);
    }
  }

  /** The first live page of a walk is leftmost. */
  lemma FirstLive(g: Graph, lv: Level, t: seq<nat>, m: nat)
    requires Path(LevelTrek(g, lv), t) && m < |t| && Live(g, t[m])
    requires forall k :: 0 <= k < m ==> !Live(g, t[k])
    ensures Leftmost(g, t[m])
  {
    ShapeAt(g, lv, t, m);
    NothingKnown(g, t, m);
  }

  lemma {:induction false} NothingKnown(g: Graph, t: seq<nat>, m: nat)
    requires m <= |t| && forall k :: 0 <= k < m ==> !Live(g, t[k])
    ensures Known(g, t[..m]).down == NoLevel()
  {
    if m > 0 {
      NothingKnown(g, t, m - 1);
      assert t[..m][..m - 1] == t[..m - 1];
    }
  }

  lemma FirstLiveIndex(g: Graph, t: seq<nat>, m: nat) returns (f: nat)
    requires m < |t| && Live(g, t[m])
    ensures f <= m && Live(g, t[f]) && forall k :: 0 <= k < f ==> !Live(g, t[k])
  {
    f := 0;
    while !Live(g, t[f])
      invariant f <= m && forall k :: 0 <= k < f ==> !Live(g, t[k])
      decreases m - f
    {
      f := f + 1;
    }
  }

  /** Left links that all agree with the walk up to the block where it comes back. */
  lemma AgreeingLinks(g: Graph, lv: Level, t: seq<nat>, j: nat)
    requires Path(LevelTrek(g, lv), t) && j < |t| && forall k :: 0 < k <= j ==> !Misleads(g, t, k)
    ensures AllPointBack(g, t, j)
  {
    WalkSiblings(g, lv, t);
    forall k {:trigger PointsBack(g, t, k)} | 0 < k <= j ensures PointsBack(g, t, k) {
      assert !Misleads(g, t, k);
    }
  }

  /** The first live page is among those that the walk goes round. */
  lemma LiveInRing(g: Graph, lv: Level, t: seq<nat>, i: nat, j: nat, f: nat)
    requires Path(LevelTrek(g, lv), t) && i < j < |t| && t[i] == t[j] && t[0] == t[j - i]
    requires f < |t| && Live(g, t[f]) && forall k :: 0 <= k < f ==> !Live(g, t[k])
    ensures f < j - i
  {
    if f >= j - i {
      PathFollows(LevelTrek(g, lv), t);
      FollowsShift(NextOf(g), t, 0, j - i, f - (j - i));
    }
  }

  /** Without a page that misleads, the walk goes round from its first page on, and so do left links. */
  lemma AgreeingRing(g: Graph, t: seq<nat>, i: nat, j: nat)
    requires i < j < |t| && t[i] == t[j] && AllPointBack(g, t, j)
    ensures t[0] == t[j - i] && KeepsLeft(g, Blocks(t, j - i))
  {
    RingStart(g, t, i, j);
    RingClosed(g, t, j - i);
  }

  /** A level walk with a live page comes back to a block only if some half-dead page on it misleads. */
  lemma RevisitMisled(g: Graph, lv: Level, t: seq<nat>, i: nat, j: nat, m: nat)
    requires Path(LevelTrek(g, lv), t) && i < j < |t| && t[i] == t[j]
    requires m < |t| && Live(g, t[m])
    ensures exists k :: k <= j && Misleads(g, t, k)
  {
    var f := FirstLiveIndex(g, t, m);
    FirstLive(g, lv, t, f);
    if forall k :: 0 < k <= j ==> !Misleads(g, t, k) {
      AgreeingLinks(g, lv, t, j);
      AgreeingRing(g, t, i, j);
      LiveInRing(g, lv, t, i, j, f);
      RingHasNoLeftmost(g, Blocks(t, j - i), t[f]);
    }
  }
}
