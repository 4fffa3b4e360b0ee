/** The whole index: every level of a silent check. */
module NbtreeIndex {
  import opened NbtreePages
  import opened NbtreeSpec
  import opened NbtreeTheorems
  import opened NbtreeLockstep
  import opened NbtreeKeySpace

  /** The silent walk `t` over level `lv` finds a level to go on with. */
  ghost predicate LevelDoneWith(g: Graph, lv: Level, t: seq<nat>)
  {
    && lv.leftmost != P_NONE && LevelSilent(g, lv, t)
    && var down := Known(g, t).down;
       down.leftmost != INVALID_BLOCK && (down.leftmost == P_NONE || down.level < lv.level)
  }

  /** The walks `ts` of a silent check from level `lv` down to the leaves. */
  ghost predicate Walks(g: Graph, lv: Level, ts: seq<seq<nat>>)
    decreases |ts|
  {
    if ts == [] then lv.leftmost == P_NONE
    else LevelDoneWith(g, lv, ts[0]) && Walks(g, Known(g, ts[0]).down, ts[1..])
  }

  lemma SilentStep(g: Graph, lv: Level) returns (t: seq<nat>)
    requires IndexSilent(g, lv) && lv.leftmost != P_NONE
    ensures LevelDoneWith(g, lv, t) && IndexSilent(g, Known(g, t).down)
  {
    t :| LevelSilent(g, lv, t) && Known(g, t).down.leftmost != INVALID_BLOCK &&
      (Known(g, t).down.leftmost == P_NONE || Known(g, t).down.level < lv.level) &&
      IndexSilent(g, Known(g, t).down);
  }

  lemma {:induction false} SilentHasWalks(g: Graph, lv: Level) returns (ts: seq<seq<nat>>)
    requires IndexSilent(g, lv)
    ensures Walks(g, lv, ts)
    decreases if lv.leftmost == P_NONE then 0 else lv.level + 1
  {
    ts := [];
    if lv.leftmost != P_NONE {
      var t := SilentStep(g, lv);
      var rest := SilentHasWalks(g, Known(g, t).down);
      ts := [t] + rest;
      assert ts[1..] == rest;
    }
  }

  lemma {:induction false} WalksAreSilent(g: Graph, lv: Level, ts: seq<seq<nat>>)
    requires Walks(g, lv, ts)
    ensures IndexSilent(g, lv)
    decreases |ts|
  {
    if ts != [] {
      WalksAreSilent(g, Known(g, ts[0]).down, ts[1..]);
    }
  }

  /** The check of the index is silent if and only if there is a silent walk for every level. */
  lemma IndexWalks(g: Graph, lv: Level)
    ensures IndexSilent(g, lv) ==> exists ts :: Walks(g, lv, ts)
    ensures (exists ts :: Walks(g, lv, ts)) ==> IndexSilent(g, lv)
  {
    if IndexSilent(g, lv) {
      var ts := SilentHasWalks(g, lv);
      assert Walks(g, lv, ts);
    }
    forall ts | Walks(g, lv, ts) ensures IndexSilent(g, lv) {
      WalksAreSilent(g, lv, ts);
    }
  }

  /** The level that walk `n` is over, and the step from it to the next. */
  lemma {:induction false} WalkAt(g: Graph, lv: Level, ts: seq<seq<nat>>, n: nat) returns (at: Level)
    requires Walks(g, lv, ts) && n < |ts|
    ensures LevelDoneWith(g, at, ts[n])
    ensures n + 1 < |ts| ==> LevelSilent(g, Known(g, ts[n]).down, ts[n + 1]) && at.level > 0
    decreases n
  {
    if n == 0 {
      at := lv;
      assert |ts| > 1 ==> ts[1..][0] == ts[1];
    } else {
      at := WalkAt(g, Known(g, ts[0]).down, ts[1..], n - 1);
    }
  }

  /** On every level of a silently checked index the real items read from left to right are strictly
      increasing, if and only if they are so across its empty live pages. */
  lemma IndexOrder(g: Graph, lv: Level, ts: seq<seq<nat>>, n: nat)
    requires Walks(g, lv, ts) && n < |ts|
    ensures Ordered(g, ts[n]) <==> GapsOrdered(g, ts[n])
    ensures (forall i :: 0 <= i < |ts[n]| && Live(g, ts[n][i]) ==> Bears(g, ts[n][i])) ==> GapsOrdered(g, ts[n])
  {
    var at := WalkAt(g, lv, ts, n);
    LevelOrder(g, at, ts[n]);
  }

  /** On every two adjacent levels of a silently checked index, a live child keeps to the key space
      that its parent gives it. */
  lemma IndexKeySpace(g: Graph, lv: Level, ts: seq<seq<nat>>, n: nat, i: nat, off: nat, o: nat)
    requires INVALID_BLOCK !in g && Walks(g, lv, ts) && n + 1 < |ts|
    requires LevelFollowable(g, ts[n])
    requires i < |ts[n]| && Live(g, ts[n][i]) && g[ts[n][i]].FirstData() <= off <= |g[ts[n][i]].items|
    requires var child := g[ts[n][i]].At(off).link;
      Live(g, child) && g[child].Real(o)
    ensures KeepsToSpace(g, g[ts[n][i]], off, o)
  {
    var at := WalkAt(g, lv, ts, n);
    TwoLevelKeySpace(g, at, ts[n], ts[n + 1], i, off, o);
  }
}
