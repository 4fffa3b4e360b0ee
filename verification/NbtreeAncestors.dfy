/** What the levels above add to a silently checked level: order between the children of a page, and bounds
    on a page by all pages on the way down to it. */
module NbtreeAncestors {
  import opened Wrappers
  import opened Lexicographic
  import opened NbtreePages
  import opened NbtreeSpec
  import opened NbtreeTheorems
  import opened NbtreeLockstep
  import opened NbtreeKeySpace
  import opened NbtreeIndex

  // ----- order between the children of a page -----

  /** A downlink that is not the last of its page keeps its key, whatever pages follow. */
  lemma InnerStays(ds: seq<Down>, more: seq<Down>, key: Option<Key>, d: Down, k: nat)
    requires k + 1 < |ds| && ds[k] == d
    ensures k + 1 < |ds + more| && (ds + more)[k] == d && Replaced(ds, key)[k] == d && |Replaced(ds, key)| == |ds|
  {
  }

  lemma {:induction false} InnerOfPage(p: Page, off: nat, o: nat) returns (k: nat)
    requires off <= |p.items| + 1 && p.FirstData() <= o && o + 1 < off
    ensures k + 1 < |PageDowns(p, off)| && PageDowns(p, off)[k] == DownAt(p, o)
    ensures PageDowns(p, off)[k + 1].link == p.At(o + 1).link
  {
    if o + 2 == off {
      k := |PageDowns(p, off - 2)|;
      assert PageDowns(p, off) == PageDowns(p, off - 2) + [DownAt(p, off - 2)] + [DownAt(p, off - 1)];
    } else {
      k := InnerOfPage(p, off - 1, o);
    }
  }

  /** The place of a downlink among those of its level. */
  lemma {:induction false} InnerOfLevel(g: Graph, t: seq<nat>, i: nat, o: nat) returns (k: nat)
    requires i < |t| && Live(g, t[i]) && g[t[i]].FirstData() <= o < |g[t[i]].items|
    ensures k + 1 < |LevelDowns(g, t)| && LevelDowns(g, t)[k] == DownAt(g[t[i]], o)
  {
    var n := |t| - 1;
    var before := LevelDowns(g, t[..n]);
    if i < n {
      k := InnerOfLevel(g, t[..n], i, o);
      if t[n] in g {
        InnerStays(before, PageDowns(g[t[n]], |g[t[n]].items| + 1), HighKey(g[t[n]]), DownAt(g[t[i]], o), k);
      }
    } else {
      var m := InnerOfPage(g[t[n]], |g[t[n]].items| + 1, o);
      k := |before| + m;
    }
  }

  lemma {:induction false} RunNext(g: Graph, level: nat, run: seq<nat>, sep: Option<Key>, rest: Option<Key>, m: nat)
    requires RunOk(g, level, run, sep, rest) && m + 1 < |run|
    ensures run[m] in g && run[m + 1] == g[run[m]].next && run[m + 1] != P_NONE
  {
    if m + 2 < |run| {
      RunNext(g, level, run[..|run| - 1], sep, rest, m);
    } else {
      assert run[..|run| - 1][m] == run[m];
    }
  }

  /** A page of a run that is not the last run is not at the end of its level. */
  lemma RunInside(g: Graph, level: nat, ds: seq<Down>, runs: seq<seq<nat>>, k: nat, m: nat)
    requires Lock(g, level, ds, runs) && k + 1 < |ds| && m < |runs[k]|
    ensures runs[k][m] in g && !g[runs[k][m]].Rightmost()
  {
    LockAt(g, level, ds, runs, k);
    LockAt(g, level, ds, runs, k + 1);
    RunAt(g, level, runs[k], ds[k].sep, ds[k].rest, m);
    RunAt(g, level, runs[k + 1], ds[k + 1].sep, ds[k + 1].rest, 0);
    if m + 1 < |runs[k]| {
      RunNext(g, level, runs[k], ds[k].sep, ds[k].rest, m);
    } else {
      assert runs[..k + 1][k] == runs[k];
    }
  }

  lemma {:induction false} RunInPages(runs: seq<seq<nat>>, k: nat, m: nat)
    requires k < |runs| && m < |runs[k]|
    ensures runs[k][m] in Pages(runs)
  {
    if k < |runs| - 1 {
      RunInPages(runs[..|runs| - 1], k, m);
    }
  }

  /** Every page of the run of a downlink that is not the last of its page ends at the key of the next
      downlink, unless its split is incomplete. */
  lemma RunHighKey(g: Graph, level: nat, ds: seq<Down>, runs: seq<seq<nat>>, k: nat, m: nat, p: Page, off: nat)
    requires Lock(g, level, ds, runs) && k + 1 < |ds| && m < |runs[k]|
    requires p.Has(off) && off < |p.items| && ds[k] == DownAt(p, off)
    ensures runs[k][m] in g
    ensures !g[runs[k][m]].incompleteSplit ==> HighKey(g[runs[k][m]]) == Some(p.At(off + 1).key)
  {
    RunInside(g, level, ds, runs, k, m);
    LockAt(g, level, ds, runs, k);
    RunAt(g, level, runs[k], ds[k].sep, ds[k].rest, m);
  }

  lemma KeyReaches(g: Graph, t: seq<nat>, i: nat, off1: nat, off2: nat)
    requires ItemsPass(g, t) && i < |t| && Live(g, t[i]) && !g[t[i]].leaf
    requires g[t[i]].FirstData() <= off1 < off2 <= |g[t[i]].items|
    ensures Leq(g[t[i]].At(off1 + 1).key, g[t[i]].At(off2).key)
  {
    LessTotal(g[t[i]].At(off1 + 1).key, g[t[i]].At(off2).key);
    if off1 + 1 < off2 {
      OrderOnPage(g, t, i, off1 + 1, off2);
    }
  }

  lemma BelowHighKey(g: Graph, below: seq<nat>, b: nat, o: nat)
    requires ItemsPass(g, below) && b in below && Live(g, b) && g[b].Real(o)
    ensures HighKey(g[b]).Some? ==> !Less(HighKey(g[b]).value, g[b].At(o).key)
  {
    var y :| 0 <= y < |below| && below[y] == b;
    assert ItemOk(g, below[y], o);
    if HighKey(g[b]).Some? && !g[b].leaf {
      LessTotal(g[b].At(o).key, HighKey(g[b]).value);
    }
  }

  lemma RunIsBelow(g: Graph, lv: Level, t: seq<nat>, below: seq<nat>, runs: seq<seq<nat>>, k: nat, m: nat)
    requires INVALID_BLOCK !in g && LevelSilent(g, lv, t) && lv.level > 0 && LevelFollowable(g, t)
    requires LevelSilent(g, Known(g, t).down, below) && Locked(g, lv.level, LevelDowns(g, t), runs)
    requires k < |runs| && m < |runs[k]|
    ensures runs[k][m] in below
  {
    SilentLevelDone(g, lv, t);
    DownStart(g, lv, t, runs);
    LevelBelowIsRuns(g, lv.level, LevelDowns(g, t), runs, Known(g, t).down, below);
    RunInPages(runs, k, m);
  }

  lemma BoundsMeet(a: Key, b: Key, c: Key, d: Key)
    requires Leq(a, b) && Leq(b, c) && Less(c, d)
    ensures Less(a, d)
  {
    LeqTransitive(a, b, c);
    LessLeqTransitive(a, c, d);
  }

  lemma ItemsMeet(g: Graph, t: seq<nat>, below: seq<nat>, i: nat, off1: nat, off2: nat, b: nat, o1: nat, o2: nat)
    requires ItemsPass(g, t) && ItemsPass(g, below) && i < |t| && Live(g, t[i]) && !g[t[i]].leaf
    requires g[t[i]].FirstData() <= off1 < off2 <= |g[t[i]].items|
    requires b in below && Live(g, b) && g[b].Real(o1) && HighKey(g[b]) == Some(g[t[i]].At(off1 + 1).key)
    requires var right := g[t[i]].At(off2).link; Live(g, right) && g[right].Real(o2)
    ensures Less(g[b].At(o1).key, g[g[t[i]].At(off2).link].At(o2).key)
  {
    var p, right := g[t[i]], g[g[t[i]].At(off2).link];
    BelowHighKey(g, below, b, o1);
    KeyReaches(g, t, i, off1, off2);
    assert ItemOk(g, t[i], off2);
    BoundsMeet(g[b].At(o1).key, p.At(off1 + 1).key, p.At(off2).key, right.At(o2).key);
  }

  /** Two levels of a silent check: the items of any completed page in the run of one downlink are strictly
      below the items of the child of any later downlink of the same page, whatever pages are between. */
  lemma OrderUnderParent(g: Graph, lv: Level, t: seq<nat>, below: seq<nat>, runs: seq<seq<nat>>, i: nat, off1: nat,
                         off2: nat, k: nat, m: nat, o1: nat, o2: nat)
    requires INVALID_BLOCK !in g && LevelSilent(g, lv, t) && lv.level > 0 && LevelFollowable(g, t)
    requires LevelSilent(g, Known(g, t).down, below) && Locked(g, lv.level, LevelDowns(g, t), runs)
    requires i < |t| && Live(g, t[i]) && g[t[i]].FirstData() <= off1 < off2 <= |g[t[i]].items|
    requires k + 1 < |runs| && LevelDowns(g, t)[k] == DownAt(g[t[i]], off1) && m < |runs[k]|
    requires Live(g, runs[k][m]) && !g[runs[k][m]].incompleteSplit && g[runs[k][m]].Real(o1)
    requires var right := g[t[i]].At(off2).link; Live(g, right) && g[right].Real(o2)
    ensures Less(g[runs[k][m]].At(o1).key, g[g[t[i]].At(off2).link].At(o2).key)
  {
    RunIsBelow(g, lv, t, below, runs, k, m);
    RunHighKey(g, lv.level, LevelDowns(g, t), runs, k, m, g[t[i]], off1);
    SilentLevel(g, lv, t);
    SilentLevel(g, Known(g, t).down, below);
    LevelEdge(g, lv, t, i);
    ItemsMeet(g, t, below, i, off1, off2, runs[k][m], o1, o2);
  }

  /** Every downlink but the last of its page has such a run. */
  lemma RunOfDown(g: Graph, lv: Level, t: seq<nat>, i: nat, off: nat) returns (runs: seq<seq<nat>>, k: nat)
    requires LevelSilent(g, lv, t) && lv.level > 0 && LevelFollowable(g, t)
    requires i < |t| && Live(g, t[i]) && g[t[i]].FirstData() <= off < |g[t[i]].items|
    ensures Locked(g, lv.level, LevelDowns(g, t), runs)
    ensures k + 1 < |runs| && LevelDowns(g, t)[k] == DownAt(g[t[i]], off)
  {
    Lockstep(g, lv, t);
    runs :| Locked(g, lv.level, LevelDowns(g, t), runs);
    k := InnerOfLevel(g, t, i, off);
  }

  // ----- bounds by all ancestors -----

  /** `c` is a live child of `b`, at offset `off`. */
  predicate ChildOf(g: Graph, b: nat, off: nat, c: nat)
  {
    && Live(g, b) && g[b].FirstData() <= off <= |g[b].items|
    && c == g[b].At(off).link && Live(g, c)
  }

  /** `bs` goes down from its first page along the downlinks at `offs`. */
  ghost predicate Descends(g: Graph, bs: seq<nat>, offs: seq<nat>)
    decreases |bs|
  {
    && |bs| == |offs| + 1
    && (offs != [] ==>
          var n := |offs| - 1;
          Descends(g, bs[..n + 1], offs[..n]) && ChildOf(g, bs[n], offs[n], bs[n + 1]))
  }

  /** No page on the way but the first has an incomplete split. */
  predicate Complete(g: Graph, bs: seq<nat>)
  {
    forall n :: 0 < n < |bs| ==> bs[n] in g && !g[bs[n]].incompleteSplit
  }

  /** All downlinks can be followed. The last level is the leaves, which have none. */
  ghost predicate AllFollowable(g: Graph, ts: seq<seq<nat>>)
  {
    forall n :: 0 <= n < |ts| - 1 ==> LevelFollowable(g, ts[n])
  }

  /** The way starts on the top level of a silent check whose downlinks can all be followed. */
  ghost predicate Checked(g: Graph, lv: Level, ts: seq<seq<nat>>, b: nat)
  {
    INVALID_BLOCK !in g && Walks(g, lv, ts) && ts != [] && b in ts[0] && AllFollowable(g, ts)
  }

  /** What two levels say about a parent and its child. */
  ghost predicate Step(g: Graph, t: seq<nat>, below: seq<nat>, b: nat, off: nat, c: nat)
  {
    && b in t && c in below && ChildOf(g, b, off, c) && !g[b].leaf && ItemsPass(g, t) && ItemsPass(g, below)
    && (!g[c].incompleteSplit ==> HighKey(g[c]) == SeparatorAfter(g[b], off))
  }

  lemma LevelStep(g: Graph, lv: Level, t: seq<nat>, below: seq<nat>, b: nat, off: nat, c: nat)
    requires INVALID_BLOCK !in g && LevelSilent(g, lv, t) && lv.level > 0 && LevelFollowable(g, t)
    requires LevelSilent(g, Known(g, t).down, below) && b in t && ChildOf(g, b, off, c)
    ensures Step(g, t, below, b, off, c)
  {
    var i :| 0 <= i < |t| && t[i] == b;
    ChildrenBelow(g, lv, t, below, i, off);
    SilentLevel(g, lv, t);
    SilentLevel(g, Known(g, t).down, below);
    LevelEdge(g, lv, t, i);
  }

  /** Every page on the way is on the level it should be on. */
  ghost predicate Steps(g: Graph, ts: seq<seq<nat>>, bs: seq<nat>, offs: seq<nat>)
    decreases |bs|
  {
    && |bs| == |offs| + 1 <= |ts|
    && (offs != [] ==>
          var n := |offs| - 1;
          Steps(g, ts, bs[..n + 1], offs[..n]) && Step(g, ts[n], ts[n + 1], bs[n], offs[n], bs[n + 1]))
  }

  lemma {:induction false} OnLevel(g: Graph, lv: Level, ts: seq<seq<nat>>, bs: seq<nat>, offs: seq<nat>)
    requires Descends(g, bs, offs) && Checked(g, lv, ts, bs[0]) && |bs| <= |ts|
    ensures Steps(g, ts, bs, offs) && bs[|offs|] in ts[|offs|]
  {
    if offs != [] {
      var n := |offs| - 1;
      OnLevel(g, lv, ts, bs[..n + 1], offs[..n]);
      var at := WalkAt(g, lv, ts, n);
      LevelStep(g, at, ts[n], ts[n + 1], bs[n], offs[n], bs[n + 1]);
    }
  }

  /** `a` bounds no less than `b` from above, where None is plus infinity. */
  predicate AtMost(a: Option<Key>, b: Option<Key>)
  {
    b.Some? ==> a.Some? && Leq(a.value, b.value)
  }

  lemma AtMostTransitive(a: Option<Key>, b: Option<Key>, c: Option<Key>)
    requires AtMost(a, b) && AtMost(b, c)
    ensures AtMost(a, c)
  {
    if c.Some? {
      LeqTransitive(a.value, b.value, c.value);
    }
  }

  /** A separator on a page is within the page's high key. */
  lemma SeparatorInside(g: Graph, t: seq<nat>, b: nat, off: nat)
    requires b in t && ItemsPass(g, t) && Live(g, b) && !g[b].leaf && g[b].FirstData() <= off <= |g[b].items|
    ensures AtMost(SeparatorAfter(g[b], off), HighKey(g[b]))
  {
    if HighKey(g[b]).Some? {
      var i :| 0 <= i < |t| && t[i] == b;
      LessTotal(SeparatorAfter(g[b], off).value, HighKey(g[b]).value);
      if off < |g[b].items| {
        assert ItemOk(g, t[i], off + 1);
      }
    }
  }

  lemma {:induction false} HighKeyInside(g: Graph, ts: seq<seq<nat>>, bs: seq<nat>, offs: seq<nat>, n: nat)
    requires Steps(g, ts, bs, offs) && Complete(g, bs) && n < |offs|
    ensures bs[n] in g && bs[|offs|] in g && AtMost(HighKey(g[bs[|offs|]]), SeparatorAfter(g[bs[n]], offs[n]))
    decreases |bs|
  {
    var k := |offs| - 1;
    if n == k {
      SameBound(HighKey(g[bs[k + 1]]));
    } else {
      HighKeyInside(g, ts, bs[..k + 1], offs[..k], n);
      SeparatorInside(g, ts[k], bs[k], offs[k]);
      AtMostTransitive(SeparatorAfter(g[bs[k]], offs[k]), HighKey(g[bs[k]]), SeparatorAfter(g[bs[n]], offs[n]));
    }
  }

  lemma SameBound(a: Option<Key>)
    ensures AtMost(a, a)
  {
    if a.Some? {
      LessTotal(a.value, a.value);
    }
  }

  /** The items of a page are within the separators that follow the downlinks on the way down to it, on
      every level above, if the splits on the way are complete: a downlink to an incomplete split covers its
      right half too. */
  lemma BoundByAncestors(g: Graph, lv: Level, ts: seq<seq<nat>>, bs: seq<nat>, offs: seq<nat>, n: nat, o: nat)
    requires Descends(g, bs, offs) && Checked(g, lv, ts, bs[0]) && |bs| <= |ts| && n < |offs|
    requires Complete(g, bs) && bs[|offs|] in g && g[bs[|offs|]].Real(o)
    ensures bs[n] in g && AtMost(Some(g[bs[|offs|]].At(o).key), SeparatorAfter(g[bs[n]], offs[n]))
  {
    var c := bs[|offs|];
    OnLevel(g, lv, ts, bs, offs);
    HighKeyInside(g, ts, bs, offs, n);
    BelowHighKey(g, ts[|offs|], c, o);
    AtMostTransitive(Some(g[c].At(o).key), HighKey(g[c]), SeparatorAfter(g[bs[n]], offs[n]));
  }

  lemma DownlinkBelow(g: Graph, t: seq<nat>, b: nat, off: nat, o: nat)
    requires b in t && ItemsPass(g, t) && Live(g, b) && !g[b].leaf && g[b].Real(off)
    requires var c := g[b].At(off).link; c in g && g[c].Real(o)
    ensures Less(g[b].At(off).key, g[g[b].At(off).link].At(o).key)
  {
    var i :| 0 <= i < |t| && t[i] == b;
    assert ItemOk(g, t[i], off);
  }

  /** The downlink at step `m` of the way is not the first of its page. */
  predicate RealAt(g: Graph, bs: seq<nat>, offs: seq<nat>, m: int)
  {
    0 <= m < |offs| && m < |bs| && bs[m] in g && g[bs[m]].Real(offs[m])
  }

  ghost predicate RealFrom(g: Graph, bs: seq<nat>, offs: seq<nat>, n: int)
  {
    forall m {:trigger RealAt(g, bs, offs, m)} :: n <= m < |offs| ==> RealAt(g, bs, offs, m)
  }

  lemma RealBefore(g: Graph, bs: seq<nat>, offs: seq<nat>, n: nat)
    requires |bs| == |offs| + 1 && offs != [] && RealFrom(g, bs, offs, n)
    ensures RealFrom(g, bs[..|offs|], offs[..|offs| - 1], n)
  {
    forall m {:trigger RealAt(g, bs[..|offs|], offs[..|offs| - 1], m)} | n <= m < |offs| - 1
      ensures RealAt(g, bs[..|offs|], offs[..|offs| - 1], m)
    {
      assert RealAt(g, bs, offs, m);
    }
  }

  lemma {:induction false} AboveSteps(g: Graph, ts: seq<seq<nat>>, bs: seq<nat>, offs: seq<nat>, n: nat, o: nat)
    requires Steps(g, ts, bs, offs) && RealAt(g, bs, offs, n) && RealFrom(g, bs, offs, n)
    requires bs[|offs|] in g && g[bs[|offs|]].Real(o)
    ensures Less(g[bs[n]].At(offs[n]).key, g[bs[|offs|]].At(o).key)
    decreases |bs|
  {
    var k := |offs| - 1;
    assert RealAt(g, bs, offs, k);
    DownlinkBelow(g, ts[k], bs[k], offs[k], o);
    if n < k {
      RealBefore(g, bs, offs, n);
      AboveSteps(g, ts, bs[..k + 1], offs[..k], n, offs[k]);
      LessTransitive(g[bs[n]].At(offs[n]).key, g[bs[k]].At(offs[k]).key, g[bs[k + 1]].At(o).key);
    }
  }

  /** They are strictly above the key of such a downlink if neither it nor any downlink after it on the way
      is the first of its page: those count as minus infinity, and no test compares across them. */
  lemma AboveAncestors(g: Graph, lv: Level, ts: seq<seq<nat>>, bs: seq<nat>, offs: seq<nat>, n: nat, o: nat)
    requires Descends(g, bs, offs) && Checked(g, lv, ts, bs[0]) && |bs| <= |ts|
    requires RealAt(g, bs, offs, n) && RealFrom(g, bs, offs, n)
    requires bs[|offs|] in g && g[bs[|offs|]].Real(o)
    ensures Less(g[bs[n]].At(offs[n]).key, g[bs[|offs|]].At(o).key)
  {
    OnLevel(g, lv, ts, bs, offs);
    AboveSteps(g, ts, bs, offs, n, o);
  }

  lemma FirstSteps(g: Graph, lv: Level, ts: seq<seq<nat>>, b: nat, off1: nat, off2: nat, bs: seq<nat>, offs: seq<nat>)
    requires Descends(g, bs, offs) && offs != [] && bs[0] == b && offs[0] == off1
    requires Checked(g, lv, ts, b) && |bs| <= |ts| && b in g && g[b].Real(off2) && off1 < off2
    ensures g[b].FirstData() <= off1 && Leq(g[b].At(off1 + 1).key, g[b].At(off2).key)
  {
    FirstStep(g, bs, offs);
    var at := WalkAt(g, lv, ts, 0);
    SilentLevel(g, at, ts[0]);
    var i :| 0 <= i < |ts[0]| && ts[0][i] == b;
    LevelEdge(g, at, ts[0], i);
    KeyReaches(g, ts[0], i, off1, off2);
  }

  lemma {:induction false} FirstStep(g: Graph, bs: seq<nat>, offs: seq<nat>)
    requires Descends(g, bs, offs) && offs != []
    ensures ChildOf(g, bs[0], offs[0], bs[1])
    decreases |bs|
  {
    if |offs| > 1 {
      FirstStep(g, bs[..|offs|], offs[..|offs| - 1]);
    }
  }

  lemma LeftWay(g: Graph, lv: Level, ts: seq<seq<nat>>, bs: seq<nat>, offs: seq<nat>, o: nat, off2: nat)
    requires Descends(g, bs, offs) && Checked(g, lv, ts, bs[0]) && |bs| <= |ts| && offs != []
    requires bs[0] in g && g[bs[0]].Real(off2) && offs[0] < off2
    requires Complete(g, bs) && bs[|offs|] in g && g[bs[|offs|]].Real(o)
    ensures Leq(g[bs[|offs|]].At(o).key, g[bs[0]].At(off2).key)
  {
    BoundByAncestors(g, lv, ts, bs, offs, 0, o);
    FirstSteps(g, lv, ts, bs[0], offs[0], off2, bs, offs);
    LeqTransitive(g[bs[|offs|]].At(o).key, g[bs[0]].At(offs[0] + 1).key, g[bs[0]].At(off2).key);
  }

  /** The item at `o` on the last page of the way `bs`. */
  predicate EndsAt(g: Graph, bs: seq<nat>, o: nat, key: Key)
  {
    bs != [] && bs[|bs| - 1] in g && g[bs[|bs| - 1]].Real(o) && g[bs[|bs| - 1]].At(o).key == key
  }

  /** Two ways down from one page, however deep: the items at the end of the left one are strictly below those
      at the end of the right one, unless the right one takes a first downlink or the left one meets an
      incomplete split. */
  lemma OrderUnderAncestor(g: Graph, lv: Level, ts: seq<seq<nat>>, bs1: seq<nat>, offs1: seq<nat>, o1: nat, key1: Key,
                           bs2: seq<nat>, offs2: seq<nat>, o2: nat, key2: Key)
    requires Descends(g, bs1, offs1) && Descends(g, bs2, offs2) && bs1[0] == bs2[0]
    requires Checked(g, lv, ts, bs1[0]) && |bs1| <= |ts| && |bs2| <= |ts|
    requires offs1 != [] && RealAt(g, bs2, offs2, 0) && offs1[0] < offs2[0] && RealFrom(g, bs2, offs2, 0)
    requires Complete(g, bs1) && EndsAt(g, bs1, o1, key1) && EndsAt(g, bs2, o2, key2)
    ensures Less(key1, key2)
  {
    var middle := g[bs2[0]].At(offs2[0]).key;
    assert Leq(key1, middle) by {
      LeftWay(g, lv, ts, bs1, offs1, o1, offs2[0]);
    }
    assert Less(middle, key2) by {
      AboveAncestors(g, lv, ts, bs2, offs2, 0, o2);
    }
    LessLeqTransitive(key1, middle, key2);
  }
}
