/** Which sound indexes pass the check: all but those with certain interrupted operations, on which the
    check reports corruption although there is none. */
module NbtreeExact {
  import opened Wrappers
  import opened NbtreePages
  import opened NbtreeWalk
  import opened NbtreeSpec
  import opened NbtreeTheorems
  import opened NbtreeLockstep
  import opened NbtreeKeySpace
  import opened NbtreeIndex
  import opened NbtreeSound
  import opened NbtreeComplete

  // ----- settled indexes pass -----

  /** No way leads down to a half-dead leaf. */
  lemma {:induction false} NoWayDown(g: Graph, ts: seq<Tier>, d: nat, x: nat, top: nat)
    requires Sound(g, ts) && Settled(g, ts) && d < |ts| && x < |ts[d].pages|
    requires d == |ts| - 1 ==> x in ts[d].named
    ensures !Leads(g, ts[d].pages[x], top, |ts| - 1 - d)
    decreases |ts| - d
  {
    if d < |ts| - 1 && Leads(g, ts[d].pages[x], top, |ts| - 1 - d) {
      var p := g[ts[d].pages[x]];
      assert TierSound(g, ts, d + 1);
      assert DownOk(g, ts[d].pages, ts[d + 1], x, p.FirstData());
      var y := ts[d + 1].named[Number(g, ts[d].pages, x, p.FirstData())];
      NoWayDown(g, ts, d + 1, y, top);
    }
  }

  lemma NotPending(g: Graph, ts: seq<Tier>, d: nat, x: nat)
    requires Sound(g, ts) && Settled(g, ts) && d < |ts| && x < |ts[d].pages|
    ensures !Pending(g, ts[d].pages[x])
  {
    assert TierSound(g, ts, d);
    PageLoads(g, ts[d].pages, |ts| - 1 - d, x);
    if d < |ts| - 1 {
      NoWayDown(g, ts, d, x, ts[d].pages[x]);
    }
  }

  lemma FirstInRising(low: Tier, x: nat)
    requires Rising(low.named) && x in low.named
    ensures low.named != [] && low.named[0] <= x
  {
    var k :| 0 <= k < |low.named| && low.named[k] == x;
  }

  /** A live page is one that has a downlink or is a right half. */
  lemma LivePlace(g: Graph, ts: seq<Tier>, d: nat, x: nat)
    requires Sound(g, ts) && Settled(g, ts) && 0 < d < |ts| && x < |ts[d].pages| && Live(g, ts[d].pages[x])
    ensures var low := ts[d];
      && |low.space| == |low.pages| && (x in low.named || RightHalf(g, low, x))
      && (!g[low.pages[x]].incompleteSplit ==> HighKey(g[low.pages[x]]) == low.space[x])
  {
    assert TierSound(g, ts, d);
    assert PlaceOk(g, ts[d], x);
    NotPending(g, ts, d, x);
  }

  lemma HasNames(g: Graph, ts: seq<Tier>, d: nat)
    requires Sound(g, ts) && 0 < d < |ts|
    ensures ts[d].named != []
  {
    assert TierSound(g, ts, d) && TierSound(g, ts, d - 1);
    var t := ts[d - 1].pages;
    InnerPage(g, t, |ts| - 1 - d, 0);
    DownsMono(g, t, 1, |t|);
  }

  lemma NotDead(g: Graph, ts: seq<Tier>, d: nat, x: nat)
    requires Sound(g, ts) && d < |ts| && x < |ts[d].pages|
    ensures ts[d].pages[x] in g && (Live(g, ts[d].pages[x]) <==> !g[ts[d].pages[x]].halfDead)
    ensures d < |ts| - 1 ==> Live(g, ts[d].pages[x])
  {
    assert TierSound(g, ts, d);
    PageLoads(g, ts[d].pages, |ts| - 1 - d, x);
  }

  lemma {:induction false} LeftDead(g: Graph, ts: seq<Tier>, d: nat, x: nat)
    requires Sound(g, ts) && Settled(g, ts) && 0 < d < |ts| && x < |ts[d].pages|
    requires ts[d].named != [] && x < ts[d].named[0]
    ensures ts[d].pages[x] in g && g[ts[d].pages[x]].halfDead
  {
    NotDead(g, ts, d, x);
    if !g[ts[d].pages[x]].halfDead {
      LivePlace(g, ts, d, x);
      assert TierSound(g, ts, d);
      if x in ts[d].named {
        FirstInRising(ts[d], x);
      } else {
        LeftDead(g, ts, d, x - 1);
        PageLoads(g, ts[d].pages, |ts| - 1 - d, x - 1);
      }
    }
  }

  lemma RightLive(g: Graph, ts: seq<Tier>, d: nat, x: nat)
    requires Sound(g, ts) && Settled(g, ts) && 0 < d < |ts|
    requires ts[d].named != [] && ts[d].named[0] <= x < |ts[d].pages|
    ensures Live(g, ts[d].pages[x])
  {
    NotDead(g, ts, d, x);
    var first := ts[d].named[0];
    NotDead(g, ts, d, first);
    assert first in ts[d].named;
    assert !g[ts[d].pages[first]].halfDead;
  }

  lemma TierReady(g: Graph, ts: seq<Tier>, d: nat)
    requires Sound(g, ts) && Settled(g, ts) && 0 < d < |ts|
    ensures Ready(g, ts[d], |ts| - 1 - d)
    ensures d < |ts| - 1 ==> ts[d].named[0] == 0
  {
    var low := ts[d];
    assert TierSound(g, ts, d);
    HasNames(g, ts, d);
    forall x {:trigger TidyAt(g, low, x)} | 0 <= x < |low.pages| ensures TidyAt(g, low, x) {
      if x < low.named[0] {
        LeftDead(g, ts, d, x);
      } else {
        RightLive(g, ts, d, x);
        LivePlace(g, ts, d, x);
      }
    }
    if d < |ts| - 1 && low.named[0] > 0 {
      LeftDead(g, ts, d, 0);
      NotDead(g, ts, d, 0);
    }
  }

  /** The place where the walk over tier `d` starts. */
  function Place(ts: seq<Tier>, d: nat): nat
    requires d < |ts| && (d > 0 ==> ts[d].named != [])
  {
    if d == 0 then 0 else ts[d].named[0]
  }

  ghost predicate Startable(ts: seq<Tier>, d: nat)
  {
    d < |ts| && (d > 0 ==> ts[d].named != []) && Place(ts, d) < |ts[d].pages|
  }

  /** The level that the check goes over in tier `d`. */
  function LevelOf(ts: seq<Tier>, d: nat): Level
    requires Startable(ts, d)
  {
    Level(|ts| - 1 - d, ts[d].pages[Place(ts, d)], d == 0)
  }

  lemma CanStart(g: Graph, ts: seq<Tier>, d: nat)
    requires Sound(g, ts) && d < |ts|
    ensures Startable(ts, d)
  {
    assert TierSound(g, ts, d);
    if d > 0 {
      HasNames(g, ts, d);
    }
  }

  lemma TierVisited(g: Graph, ts: seq<Tier>, d: nat)
    requires Sound(g, ts) && Settled(g, ts) && Startable(ts, d)
    ensures VisitedFrom(g, ts[d].pages, |ts| - 1 - d, Place(ts, d))
  {
    var t := ts[d].pages;
    assert TierSound(g, ts, d);
    if d == 0 {
      PageLoads(g, t, |ts| - 1, 0);
      assert LinkedAt(g, t, 0);
      assert EdgeAt(g, t, 0, 0);
      EdgeIsLeftmost(g, t, 0);
    } else {
      TierReady(g, ts, d);
      ReadyLeftmost(g, ts[d], |ts| - 1 - d);
      forall i | Place(ts, d) <= i < |t| ensures Live(g, t[i]) {
        RightLive(g, ts, d, i);
      }
    }
  }

  lemma TierOver(g: Graph, ts: seq<Tier>, d: nat)
    requires Sound(g, ts) && Settled(g, ts) && d + 1 < |ts|
    ensures Over(g, ts[d].pages, ts[d + 1], |ts| - 2 - d)
  {
    assert TierSound(g, ts, d) && TierSound(g, ts, d + 1);
    TierReady(g, ts, d + 1);
    forall i | 0 <= i < |ts[d].pages| ensures Live(g, ts[d].pages[i]) {
      NotDead(g, ts, d, i);
    }
  }

  lemma SilentOn(g: Graph, lv: Level, t: seq<nat>, down: Level)
    requires lv.leftmost != P_NONE && LevelSilent(g, lv, t) && down == Known(g, t).down
    requires down.leftmost != INVALID_BLOCK && (down.leftmost == P_NONE || down.level < lv.level)
    requires IndexSilent(g, down)
    ensures IndexSilent(g, lv)
  {
  }

  lemma InnerStart(g: Graph, ts: seq<Tier>, d: nat)
    requires Sound(g, ts) && Settled(g, ts) && Startable(ts, d) && d + 1 < |ts|
    ensures Place(ts, d) == 0 && VisitedFrom(g, ts[d].pages, |ts| - 1 - d, 0)
  {
    TierVisited(g, ts, d);
    if d > 0 {
      TierReady(g, ts, d);
    }
  }

  lemma InnerTier(g: Graph, ts: seq<Tier>, d: nat)
    requires Sound(g, ts) && Settled(g, ts) && Startable(ts, d) && d + 1 < |ts|
    ensures LevelSilent(g, LevelOf(ts, d), ts[d].pages)
  {
    InnerStart(g, ts, d);
    TierOver(g, ts, d);
    InnerLevel(g, LevelOf(ts, d), ts[d].pages, ts[d + 1]);
  }

  lemma InnerNext(g: Graph, ts: seq<Tier>, d: nat)
    requires Sound(g, ts) && Settled(g, ts) && Startable(ts, d) && d + 1 < |ts| && Startable(ts, d + 1)
    ensures Known(g, ts[d].pages).down == LevelOf(ts, d + 1)
  {
    TierOver(g, ts, d);
    InnerDown(g, ts[d].pages, ts[d + 1], |ts| - 2 - d);
  }

  lemma LastTier(g: Graph, ts: seq<Tier>)
    requires Sound(g, ts) && Settled(g, ts) && Startable(ts, |ts| - 1)
    ensures IndexSilent(g, LevelOf(ts, |ts| - 1))
  {
    var d := |ts| - 1;
    TierVisited(g, ts, d);
    var t, s := ts[d].pages, Place(ts, d);
    PageLoads(g, t, 0, s);
    LeafLevel(g, LevelOf(ts, d), t, s);
    SilentOn(g, LevelOf(ts, d), t[s..], Known(g, t[s..]).down);
  }

  /** A settled sound index passes, from any of its levels down. */
  lemma {:induction false} PassesFrom(g: Graph, ts: seq<Tier>, d: nat)
    requires Sound(g, ts) && Settled(g, ts) && Startable(ts, d)
    ensures IndexSilent(g, LevelOf(ts, d))
    decreases |ts| - d
  {
    if d == |ts| - 1 {
      LastTier(g, ts);
    } else {
      CanStart(g, ts, d + 1);
      PassesFrom(g, ts, d + 1);
      PassesAbove(g, ts, d);
    }
  }

  lemma PassesAbove(g: Graph, ts: seq<Tier>, d: nat)
    requires Sound(g, ts) && Settled(g, ts) && Startable(ts, d) && d + 1 < |ts| && Startable(ts, d + 1)
    requires IndexSilent(g, LevelOf(ts, d + 1))
    ensures IndexSilent(g, LevelOf(ts, d))
  {
    InnerTier(g, ts, d);
    InnerNext(g, ts, d);
    StartIsBlock(g, ts, d);
    StartIsBlock(g, ts, d + 1);
    SilentOn(g, LevelOf(ts, d), ts[d].pages, LevelOf(ts, d + 1));
  }

  lemma StartIsBlock(g: Graph, ts: seq<Tier>, d: nat)
    requires Sound(g, ts) && Startable(ts, d)
    ensures LevelOf(ts, d).leftmost in g && LevelOf(ts, d).leftmost != P_NONE
  {
    assert TierSound(g, ts, d);
    PageLoads(g, ts[d].pages, |ts| - 1 - d, Place(ts, d));
  }

  // ----- indexes that pass are settled -----

  lemma WalkIsTier(g: Graph, lv: Level, t: seq<nat>, pages: seq<nat>, s: nat)
    requires LevelSilent(g, lv, t) && Linked(g, pages) && s < |pages| && lv.leftmost == pages[s]
    ensures t == pages[s..]
  {
    LevelIsPlain(g, lv, t);
    LinkedWhole(g, pages, s);
    WholeUnique(PlainTrek(g, lv.leftmost), t, pages[s..]);
  }

  /** The first page of a silent level is leftmost if it is live. */
  lemma FirstLeftmost(g: Graph, lv: Level, t: seq<nat>)
    requires LevelSilent(g, lv, t) && t != [] && Live(g, t[0])
    ensures Leftmost(g, t[0]) && (lv.trueRoot ==> g[t[0]].root)
  {
    ShapeAt(g, lv, t, 0);
    assert t[..0] == [];
  }

  lemma {:induction false} LeftChain(g: Graph, t: seq<nat>, s: nat, c: seq<nat>, k: nat)
    requires Linked(g, t) && s < |t| && Path(LeftTrek(g, t[s]), c) && k < |c|
    ensures k <= s && c[k] == t[s - k]
  {
    PathAt(LeftTrek(g, t[s]), c, k);
    if k > 0 {
      LeftChain(g, t, s, c, k - 1);
      assert LinkedAt(g, t, s - k + 1);
    }
  }

  /** Left of a leftmost page all pages are half-dead. */
  lemma LeftEdgeDead(g: Graph, t: seq<nat>, s: nat, y: nat)
    requires Linked(g, t) && y < s < |t| && Leftmost(g, t[s])
    ensures t[y] in g && g[t[y]].halfDead
  {
    var w := LeftTrek(g, t[s]);
    var c :| Whole(w, c);
    var n := |c| - 1;
    LeftChain(g, t, s, c, n);
    assert LinkedAt(g, t, s - n);
    assert n < s ==> LinkedAt(g, t, s - n - 1);
    LeftChain(g, t, s, c, s - y);
    PathAt(w, c, s - y);
  }

  /** What the check of tier `d` leaves: a silent walk, over all of the tier if it is internal. */
  ghost predicate TierDone(g: Graph, ts: seq<Tier>, d: nat)
  {
    && Startable(ts, d) && LevelSilent(g, LevelOf(ts, d), ts[d].pages[Place(ts, d)..])
    && (d < |ts| - 1 ==> Place(ts, d) == 0)
  }

  /** A silent walk that starts at a live page starts at the left edge, but for half-dead pages. */
  lemma StartAtEdge(g: Graph, lv: Level, pages: seq<nat>, s: nat, y: nat)
    requires Linked(g, pages) && y < s < |pages| && LevelSilent(g, lv, pages[s..]) && Live(g, pages[s])
    ensures pages[y] in g && g[pages[y]].halfDead
  {
    FirstLeftmost(g, lv, pages[s..]);
    LeftEdgeDead(g, pages, s, y);
  }

  lemma InnerPlace(g: Graph, ts: seq<Tier>, d: nat)
    requires Sound(g, ts) && Startable(ts, d) && d < |ts| - 1
    requires LevelSilent(g, LevelOf(ts, d), ts[d].pages[Place(ts, d)..])
    ensures Place(ts, d) == 0
  {
    var s := Place(ts, d);
    assert TierSound(g, ts, d);
    NotDead(g, ts, d, s);
    if s > 0 {
      StartAtEdge(g, LevelOf(ts, d), ts[d].pages, s, s - 1);
      NotDead(g, ts, d, s - 1);
    }
  }

  lemma FirstDown(g: Graph, ts: seq<Tier>, d: nat)
    requires Sound(g, ts) && d + 1 < |ts| && Startable(ts, d + 1)
    ensures ts[d].pages != [] && ts[d].pages[0] in g
    ensures LevelBelow(g[ts[d].pages[0]]) == LevelOf(ts, d + 1)
  {
    assert TierSound(g, ts, d) && TierSound(g, ts, d + 1);
    var t := ts[d].pages;
    InnerPage(g, t, |ts| - 2 - d, 0);
    assert DownOk(g, t, ts[d + 1], 0, g[t[0]].FirstData());
  }

  lemma InnerLeads(g: Graph, ts: seq<Tier>, d: nat)
    requires Sound(g, ts) && d + 1 < |ts| && Startable(ts, d + 1)
    ensures Known(g, ts[d].pages).down == LevelOf(ts, d + 1)
  {
    var t := ts[d].pages;
    forall i | 0 <= i < |t| ensures Live(g, t[i]) {
      NotDead(g, ts, d, i);
    }
    FirstDown(g, ts, d);
    StartIsBlock(g, ts, d + 1);
    KnownLow(g, t, |t|);
    assert t[..|t|] == t;
  }

  lemma TierWalk(g: Graph, ts: seq<Tier>, d: nat)
    requires Sound(g, ts) && Startable(ts, d) && IndexSilent(g, LevelOf(ts, d))
    ensures LevelSilent(g, LevelOf(ts, d), ts[d].pages[Place(ts, d)..])
    ensures IndexSilent(g, Known(g, ts[d].pages[Place(ts, d)..]).down)
  {
    StartIsBlock(g, ts, d);
    assert TierSound(g, ts, d);
    StepOnTier(g, LevelOf(ts, d), ts[d].pages, Place(ts, d));
  }

  lemma TierPasses(g: Graph, ts: seq<Tier>, d: nat)
    requires Sound(g, ts) && Startable(ts, d) && IndexSilent(g, LevelOf(ts, d))
    ensures TierDone(g, ts, d)
  {
    TierWalk(g, ts, d);
    if d < |ts| - 1 {
      InnerPlace(g, ts, d);
    }
  }

  lemma NextPasses(g: Graph, ts: seq<Tier>, d: nat)
    requires Sound(g, ts) && Startable(ts, d) && IndexSilent(g, LevelOf(ts, d)) && d + 1 < |ts|
    requires Place(ts, d) == 0
    ensures Startable(ts, d + 1) && IndexSilent(g, LevelOf(ts, d + 1))
  {
    TierWalk(g, ts, d);
    CanStart(g, ts, d + 1);
    InnerLeads(g, ts, d);
    WholeSlice(ts[d].pages);
  }

  lemma WholeSlice(t: seq<nat>)
    ensures t[0..] == t
  {
  }

  lemma StepOnTier(g: Graph, lv: Level, pages: seq<nat>, s: nat)
    requires IndexSilent(g, lv) && lv.leftmost != P_NONE && Linked(g, pages) && s < |pages| && lv.leftmost == pages[s]
    ensures LevelSilent(g, lv, pages[s..]) && IndexSilent(g, Known(g, pages[s..]).down)
  {
    var t := SilentStep(g, lv);
    WalkIsTier(g, lv, t, pages, s);
  }

  lemma {:induction false} AllTiersPass(g: Graph, ts: seq<Tier>, d: nat)
    requires Sound(g, ts) && d < |ts| && Startable(ts, 0) && IndexSilent(g, LevelOf(ts, 0))
    ensures TierDone(g, ts, d) && IndexSilent(g, LevelOf(ts, d))
  {
    if d > 0 {
      AllTiersPass(g, ts, d - 1);
      NextPasses(g, ts, d - 1);
    }
    TierPasses(g, ts, d);
  }

  ghost predicate HasAttributes(d: Down) { d.sep != Some([]) && d.rest != Some([]) }

  lemma {:induction false} PageAttributes(p: Page, height: nat, n: nat)
    requires PageSound(p, height) && height > 0 && n <= |p.items| + 1
    ensures forall k :: 0 <= k < |PageDowns(p, n)| ==> HasAttributes(PageDowns(p, n)[k])
  {
    if n > p.FirstData() {
      PageAttributes(p, height, n - 1);
      assert n <= |p.items| ==> p.Real(n);
    }
  }

  /** No separator of an internal level of a sound index is without attributes. */
  lemma {:induction false} LevelAttributes(g: Graph, t: seq<nat>, height: nat, n: nat)
    requires n <= |t| && height > 0
    requires forall i :: 0 <= i < |t| ==> Live(g, t[i]) && PageSound(g[t[i]], height)
    ensures forall k :: 0 <= k < |LevelDowns(g, t[..n])| ==> HasAttributes(LevelDowns(g, t[..n])[k])
  {
    if n > 0 {
      LevelAttributes(g, t, height, n - 1);
      LevelDownsStep(g, t, n - 1);
      var p := g[t[n - 1]];
      PageAttributes(p, height, |p.items| + 1);
    }
  }

  lemma {:induction false} PageOfRuns(runs: seq<seq<nat>>, b: nat) returns (k: nat, m: nat)
    requires b in Pages(runs)
    ensures k < |runs| && m < |runs[k]| && runs[k][m] == b
  {
    var n := |runs| - 1;
    if b in runs[n] {
      k := n;
      m :| 0 <= m < |runs[n]| && runs[n][m] == b;
    } else {
      k, m := PageOfRuns(runs[..n], b);
    }
  }

  lemma TierFollowable(g: Graph, ts: seq<Tier>, d: nat)
    requires Sound(g, ts) && d + 1 < |ts|
    ensures LevelFollowable(g, ts[d].pages)
  {
    var t := ts[d].pages;
    assert TierSound(g, ts, d) && TierSound(g, ts, d + 1);
    forall i | 0 <= i < |t| && Live(g, t[i]) ensures FollowableLinks(g, g[t[i]]) {
      var p := g[t[i]];
      forall o: int | p.FirstData() <= o <= |p.items| ensures Followable(g, p.At(o).link) {
        assert DownOk(g, t, ts[d + 1], i, o);
        LinkFollowable(g, ts, d + 1, ts[d + 1].named[Number(g, t, i, o)]);
      }
    }
  }

  lemma LinkFollowable(g: Graph, ts: seq<Tier>, d: nat, x: nat)
    requires Sound(g, ts) && d < |ts| && x < |ts[d].pages|
    ensures Followable(g, ts[d].pages[x])
  {
    assert TierSound(g, ts, d);
    assert LinkedAt(g, ts[d].pages, x);
    if x + 1 < |ts[d].pages| {
      assert LinkedAt(g, ts[d].pages, x + 1);
    }
  }

  lemma TierAttributes(g: Graph, ts: seq<Tier>, d: nat)
    requires Sound(g, ts) && d + 1 < |ts|
    ensures var ds := LevelDowns(g, ts[d].pages); forall k :: 0 <= k < |ds| ==> HasAttributes(ds[k])
  {
    var t := ts[d].pages;
    assert TierSound(g, ts, d);
    forall i | 0 <= i < |t| ensures Live(g, t[i]) && PageSound(g[t[i]], |ts| - 1 - d) {
      NotDead(g, ts, d, i);
      assert PageAt(g, t, |ts| - 1 - d, i);
    }
    LevelAttributes(g, t, |ts| - 1 - d, |t|);
    assert t[..|t|] == t;
  }

  /** The pages that a silent check visits below a silent internal level. */
  lemma BelowInRuns(g: Graph, lv: Level, t: seq<nat>, at: Level, u: seq<nat>) returns (runs: seq<seq<nat>>)
    requires INVALID_BLOCK !in g && LevelSilent(g, lv, t) && lv.level > 0 && LevelFollowable(g, t)
    requires at.leftmost == Known(g, t).down.leftmost && LevelSilent(g, at, u)
    ensures Lock(g, lv.level, LevelDowns(g, t), runs) && u == Pages(runs)
  {
    Lockstep(g, lv, t);
    runs :| Locked(g, lv.level, LevelDowns(g, t), runs);
    SilentLevelDone(g, lv, t);
    DownStart(g, lv, t, runs);
    LevelBelowIsRuns(g, lv.level, LevelDowns(g, t), runs, at, u);
  }

  /** A page in the runs repeats a separator with attributes. */
  lemma InRunHasAttributes(g: Graph, level: nat, ds: seq<Down>, runs: seq<seq<nat>>, b: nat)
    requires Lock(g, level, ds, runs) && b in Pages(runs) && forall k :: 0 <= k < |ds| ==> HasAttributes(ds[k])
    ensures b in g && (!g[b].incompleteSplit && !g[b].Rightmost() ==> HighKey(g[b]) != Some([]))
  {
    var k, m := PageOfRuns(runs, b);
    LockAt(g, level, ds, runs, k);
    RunAt(g, level, runs[k], ds[k].sep, ds[k].rest, m);
  }

  lemma BelowHasAttributes(g: Graph, lv: Level, t: seq<nat>, at: Level, u: seq<nat>, i: nat)
    requires INVALID_BLOCK !in g && LevelSilent(g, lv, t) && lv.level > 0 && LevelFollowable(g, t)
    requires at.leftmost == Known(g, t).down.leftmost && LevelSilent(g, at, u) && i < |u|
    requires forall k :: 0 <= k < |LevelDowns(g, t)| ==> HasAttributes(LevelDowns(g, t)[k])
    ensures u[i] in g && (!g[u[i]].incompleteSplit && !g[u[i]].Rightmost() ==> HighKey(g[u[i]]) != Some([]))
  {
    var runs := BelowInRuns(g, lv, t, at, u);
    InRunHasAttributes(g, lv.level, LevelDowns(g, t), runs, u[i]);
  }

  lemma TierWalked(g: Graph, ts: seq<Tier>, d: nat)
    requires Sound(g, ts) && d + 1 < |ts| && TierDone(g, ts, d) && Startable(ts, d + 1)
    ensures LevelSilent(g, LevelOf(ts, d), ts[d].pages) && LevelFollowable(g, ts[d].pages)
    ensures Known(g, ts[d].pages).down == LevelOf(ts, d + 1)
  {
    assert ts[d].pages[0..] == ts[d].pages;
    TierFollowable(g, ts, d);
    InnerLeads(g, ts, d);
  }

  lemma SuffixHasAttributes(g: Graph, lv: Level, t: seq<nat>, at: Level, pages: seq<nat>, s: nat, x: nat)
    requires INVALID_BLOCK !in g && LevelSilent(g, lv, t) && lv.level > 0 && LevelFollowable(g, t)
    requires at == Known(g, t).down && s <= x < |pages| && LevelSilent(g, at, pages[s..])
    requires forall k :: 0 <= k < |LevelDowns(g, t)| ==> HasAttributes(LevelDowns(g, t)[k])
    ensures var b := pages[x];
      b in g && (!g[b].incompleteSplit && !g[b].Rightmost() ==> HighKey(g[b]) != Some([]))
  {
    var u := pages[s..];
    assert u[x - s] == pages[x];
    BelowHasAttributes(g, lv, t, at, u, x - s);
  }

  lemma VisitedHasAttributes(g: Graph, ts: seq<Tier>, d: nat, x: nat)
    requires Sound(g, ts) && d + 1 < |ts| && TierDone(g, ts, d) && TierDone(g, ts, d + 1)
    requires Place(ts, d + 1) <= x < |ts[d + 1].pages|
    ensures var b := ts[d + 1].pages[x];
      b in g && (!g[b].incompleteSplit && !g[b].Rightmost() ==> HighKey(g[b]) != Some([]))
  {
    TierWalked(g, ts, d);
    TierAttributes(g, ts, d);
    SuffixHasAttributes(g, LevelOf(ts, d), ts[d].pages, LevelOf(ts, d + 1), ts[d + 1].pages, Place(ts, d + 1), x);
  }

  /** The check below a silent internal level meets no half-dead leaf: its high key repeats no separator. */
  lemma VisitedLive(g: Graph, ts: seq<Tier>, d: nat, x: nat)
    requires Sound(g, ts) && d + 1 < |ts| && TierDone(g, ts, d) && TierDone(g, ts, d + 1)
    requires Place(ts, d + 1) <= x < |ts[d + 1].pages|
    ensures Live(g, ts[d + 1].pages[x])
  {
    VisitedHasAttributes(g, ts, d, x);
    NotDead(g, ts, d + 1, x);
    DeadHasNone(g, ts, d + 1, x);
  }

  lemma DeadHasNone(g: Graph, ts: seq<Tier>, d: nat, x: nat)
    requires Sound(g, ts) && d < |ts| && x < |ts[d].pages|
    ensures ts[d].pages[x] in g
    ensures var p := g[ts[d].pages[x]];
      p.halfDead ==> !p.Rightmost() && !p.incompleteSplit && HighKey(p) == Some([])
  {
    assert TierSound(g, ts, d);
    assert PageAt(g, ts[d].pages, |ts| - 1 - d, x);
  }

  lemma DeadBeforeStart(g: Graph, ts: seq<Tier>, d: nat, x: nat)
    requires Sound(g, ts) && d + 1 < |ts| && TierDone(g, ts, d) && TierDone(g, ts, d + 1)
    requires x < |ts[d + 1].pages| && ts[d + 1].pages[x] in g && g[ts[d + 1].pages[x]].halfDead
    ensures x < Place(ts, d + 1)
  {
    if x >= Place(ts, d + 1) {
      VisitedLive(g, ts, d, x);
    }
  }

  lemma UnnamedBefore(g: Graph, ts: seq<Tier>, d: nat, x: nat)
    requires Sound(g, ts) && 0 < d && Startable(ts, d) && x < Place(ts, d)
    ensures x !in ts[d].named
  {
    assert TierSound(g, ts, d);
    if x in ts[d].named {
      FirstInRising(ts[d], x);
    }
  }

  lemma DeadFromEdge(g: Graph, ts: seq<Tier>, d: nat, x: nat)
    requires Sound(g, ts) && d + 1 < |ts| && TierDone(g, ts, d) && TierDone(g, ts, d + 1)
    requires x < Place(ts, d + 1)
    ensures ts[d + 1].pages[x] in g && g[ts[d + 1].pages[x]].halfDead
  {
    VisitedLive(g, ts, d, Place(ts, d + 1));
    EdgeOfTier(g, ts, d + 1, x);
  }

  lemma EdgeOfTier(g: Graph, ts: seq<Tier>, d: nat, x: nat)
    requires Sound(g, ts) && Startable(ts, d) && x < Place(ts, d) && Live(g, ts[d].pages[Place(ts, d)])
    requires LevelSilent(g, LevelOf(ts, d), ts[d].pages[Place(ts, d)..])
    ensures ts[d].pages[x] in g && g[ts[d].pages[x]].halfDead
  {
    assert TierSound(g, ts, d);
    StartAtEdge(g, LevelOf(ts, d), ts[d].pages, Place(ts, d), x);
  }

  lemma DeadAtEdge(g: Graph, ts: seq<Tier>, d: nat, x: nat)
    requires Sound(g, ts) && d + 1 < |ts| && TierDone(g, ts, d) && TierDone(g, ts, d + 1)
    requires x < |ts[d + 1].pages| && ts[d + 1].pages[x] in g && g[ts[d + 1].pages[x]].halfDead
    ensures var low := ts[d + 1];
      x !in low.named && forall y :: 0 <= y < x ==> low.pages[y] in g && g[low.pages[y]].halfDead
  {
    var low := ts[d + 1];
    DeadBeforeStart(g, ts, d, x);
    UnnamedBefore(g, ts, d + 1, x);
    forall y | 0 <= y < x ensures low.pages[y] in g && g[low.pages[y]].halfDead {
      DeadFromEdge(g, ts, d, y);
    }
  }

  lemma PassedRoot(g: Graph, ts: seq<Tier>)
    requires Sound(g, ts) && TierDone(g, ts, 0)
    ensures |ts[0].pages| == 1
  {
    assert ts[0].pages[0..] == ts[0].pages;
    FirstLeftmost(g, LevelOf(ts, 0), ts[0].pages);
  }

  lemma PassedEdge(g: Graph, ts: seq<Tier>)
    requires Sound(g, ts) && forall d :: 0 <= d < |ts| ==> TierDone(g, ts, d)
    ensures DeadEdge(g, ts[|ts| - 1])
  {
    var d := |ts| - 1;
    if d > 0 {
      var low := ts[d];
      forall x | 0 <= x < |low.pages| && low.pages[x] in g && g[low.pages[x]].halfDead
        ensures x !in low.named && forall y :: 0 <= y < x ==> low.pages[y] in g && g[low.pages[y]].halfDead
      {
        DeadAtEdge(g, ts, d - 1, x);
      }
    }
  }

  lemma PassedIsSettled(g: Graph, ts: seq<Tier>)
    requires Sound(g, ts) && Startable(ts, 0) && IndexSilent(g, LevelOf(ts, 0))
    ensures Settled(g, ts)
  {
    forall d | 0 <= d < |ts| ensures TierDone(g, ts, d) {
      AllTiersPass(g, ts, d);
    }
    PassedRoot(g, ts);
    PassedEdge(g, ts);
  }

  /** A sound index passes the check exactly if it is settled. */
  lemma SoundPassesExactly(g: Graph, ts: seq<Tier>)
    requires Sound(g, ts)
    ensures IndexSilent(g, Level(|ts| - 1, ts[0].pages[0], true)) <==> Settled(g, ts)
  {
    CanStart(g, ts, 0);
    if Settled(g, ts) {
      PassesFrom(g, ts, 0);
    }
    if IndexSilent(g, LevelOf(ts, 0)) {
      PassedIsSettled(g, ts);
    }
  }
}
