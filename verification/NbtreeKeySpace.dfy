/** Two adjacent levels of a silently checked index: the level below is the runs of the downlinks
    above, and each child keeps to the key space between its downlink and the next separator. */
module NbtreeKeySpace {
  import opened Wrappers
  import opened Lexicographic
  import opened NbtreePages
  import opened NbtreeWalk
  import opened NbtreeSpec
  import opened NbtreeTheorems
  import opened NbtreeLockstep

  /** Right links from `b` to the end of the level. */
  ghost function PlainTrek(g: Graph, b: nat): Trek
  {
    Trek(g.Keys, b, NextOf(g), (passed: seq<nat>, x: nat) => x != P_NONE, Never(),
         (x: nat) => EndOfLevel(g, x))
  }

  lemma {:induction false} LevelIsPlain(g: Graph, lv: Level, t: seq<nat>)
    requires Path(LevelTrek(g, lv), t)
    ensures Path(PlainTrek(g, lv.leftmost), t)
  {
    if t != [] {
      LevelIsPlain(g, lv, t[..|t| - 1]);
      ShapeAt(g, lv, t, |t| - 1);
    }
  }

  /** The pages of all runs, from left to right. */
  function Pages(runs: seq<seq<nat>>): seq<nat>
  {
    if runs == [] then [] else Pages(runs[..|runs| - 1]) + runs[|runs| - 1]
  }

  lemma {:induction false} RunAt(g: Graph, level: nat, run: seq<nat>, sep: Option<Key>, rest: Option<Key>, k: nat)
    requires RunOk(g, level, run, sep, rest) && k < |run|
    ensures PageOk(g, level, run[k], if k == 0 then sep else rest)
  {
    if k < |run| - 1 {
      RunAt(g, level, run[..|run| - 1], sep, rest, k);
    }
  }

  lemma {:induction false} RunPath(g: Graph, start: nat, level: nat, before: seq<nat>, run: seq<nat>,
                                   sep: Option<Key>, rest: Option<Key>)
    requires RunOk(g, level, run, sep, rest)
    requires At(PlainTrek(g, start), before, run[0])
    ensures Path(PlainTrek(g, start), before + run)
  {
    var w, n := PlainTrek(g, start), |run| - 1;
    SnocSlice(before, run, n + 1);
    assert run[..n + 1] == run;
    if n == 0 {
      Advance(w, before, run[0]);
    } else {
      RunPath(g, start, level, before, run[..n], sep, rest);
      assert Last(before + run[..n]) == Last(run[..n]);
      Advance(w, before + run[..n], run[n]);
    }
  }

  lemma NextRun(g: Graph, start: nat, pages: seq<nat>, b: nat)
    requires Path(PlainTrek(g, start), pages) && pages != [] && Last(pages) in g
    requires g[Last(pages)].next == b && b != P_NONE
    ensures At(PlainTrek(g, start), pages, b)
  {
  }

  lemma {:induction false} LockPath(g: Graph, level: nat, ds: seq<Down>, runs: seq<seq<nat>>)
    requires Lock(g, level, ds, runs) && ds != []
    ensures Path(PlainTrek(g, ds[0].link), Pages(runs))
    ensures Pages(runs) != [] && Last(Pages(runs)) == Last(runs[|runs| - 1])
  {
    var n := |runs| - 1;
    RunAt(g, level, runs[n], ds[n].sep, ds[n].rest, 0);
    if n == 0 {
      assert Pages(runs[..n]) == [];
    } else {
      LockPath(g, level, ds[..n], runs[..n]);
      NextRun(g, ds[0].link, Pages(runs[..n]), runs[n][0]);
    }
    RunPath(g, ds[0].link, level, Pages(runs[..n]), runs[n], ds[n].sep, ds[n].rest);
  }

  /** The walk over the level below visits exactly the pages of the runs. */
  lemma LevelBelowIsRuns(g: Graph, level: nat, ds: seq<Down>, runs: seq<seq<nat>>, lv: Level, t: seq<nat>)
    requires Locked(g, level, ds, runs) && lv.leftmost == ds[0].link && LevelSilent(g, lv, t)
    ensures t == Pages(runs)
  {
    LockPath(g, level, ds, runs);
    LevelIsPlain(g, lv, t);
    WholeUnique(PlainTrek(g, lv.leftmost), t, Pages(runs));
  }

  // ----- key space -----

  lemma {:induction false} LockAt(g: Graph, level: nat, ds: seq<Down>, runs: seq<seq<nat>>, k: nat)
    requires Lock(g, level, ds, runs) && k < |ds|
    ensures RunOk(g, level, runs[k], ds[k].sep, ds[k].rest) && runs[k][0] == ds[k].link
    ensures Attached(g, runs[..k], ds[k].link)
  {
    var n := |ds| - 1;
    if k < n {
      LockAt(g, level, ds[..n], runs[..n], k);
      assert runs[..n][..k] == runs[..k];
    }
  }

  lemma {:induction false} HeadInPages(runs: seq<seq<nat>>, k: nat)
    requires k < |runs| && runs[k] != []
    ensures runs[k][0] in Pages(runs)
  {
    if k < |runs| - 1 {
      HeadInPages(runs[..|runs| - 1], k);
    }
  }

  /** Only the last child of a level can be at its end. */
  lemma LockInside(g: Graph, level: nat, ds: seq<Down>, runs: seq<seq<nat>>, k: nat)
    requires Lock(g, level, ds, runs) && k + 1 < |ds|
    ensures ds[k].link in g && !g[ds[k].link].Rightmost()
  {
    LockAt(g, level, ds, runs, k);
    LockAt(g, level, ds, runs, k + 1);
    RunAt(g, level, runs[k], ds[k].sep, ds[k].rest, 0);
    RunAt(g, level, runs[k + 1], ds[k + 1].sep, ds[k + 1].rest, 0);
    assert runs[..k + 1][k] == runs[k];
    if |runs[k]| > 1 {
      RunSecond(g, level, runs[k], ds[k].sep, ds[k].rest);
    }
  }

  lemma {:induction false} RunSecond(g: Graph, level: nat, run: seq<nat>, sep: Option<Key>, rest: Option<Key>)
    requires RunOk(g, level, run, sep, rest) && |run| > 1
    ensures run[0] in g && run[1] == g[run[0]].next && run[1] != P_NONE
  {
    if |run| > 2 {
      RunSecond(g, level, run[..|run| - 1], sep, rest);
    }
  }

  /** `ds` has a downlink to `link` with the separator `sep`. */
  ghost predicate HasDown(ds: seq<Down>, link: nat, sep: Option<Key>)
  {
    exists k :: 0 <= k < |ds| && ds[k].link == link && ds[k].sep == sep
  }

  lemma {:induction false} DownInPage(p: Page, off: nat, o: nat)
    requires off <= |p.items| + 1 && p.FirstData() <= o < off
    ensures DownAt(p, o) in PageDowns(p, off)
  {
    if o < off - 1 {
      DownInPage(p, off - 1, o);
    }
  }

  lemma DownStays(ds: seq<Down>, more: seq<Down>, key: Option<Key>, link: nat, sep: Option<Key>)
    requires HasDown(ds, link, sep)
    ensures HasDown(ds + more, link, sep) && HasDown(Replaced(ds, key), link, sep)
  {
    var k :| 0 <= k < |ds| && ds[k].link == link && ds[k].sep == sep;
    assert (ds + more)[k] == ds[k];
    assert Replaced(ds, key)[k].link == link && Replaced(ds, key)[k].sep == sep;
  }

  lemma DownAdded(ds: seq<Down>, p: Page, o: nat)
    requires p.FirstData() <= o <= |p.items|
    ensures HasDown(ds + PageDowns(p, |p.items| + 1), p.At(o).link, SeparatorAfter(p, o))
  {
    var more := PageDowns(p, |p.items| + 1);
    DownInPage(p, |p.items| + 1, o);
    var k :| 0 <= k < |more| && more[k] == DownAt(p, o);
    assert (ds + more)[|ds| + k] == more[k];
  }

  lemma {:induction false} DownInLevel(g: Graph, t: seq<nat>, i: nat, o: nat)
    requires i < |t| && Live(g, t[i]) && g[t[i]].FirstData() <= o <= |g[t[i]].items|
    ensures HasDown(LevelDowns(g, t), g[t[i]].At(o).link, SeparatorAfter(g[t[i]], o))
  {
    var n := |t| - 1;
    if i < n {
      DownInLevel(g, t[..n], i, o);
      if t[n] in g {
        var p := g[t[n]];
        DownStays(LevelDowns(g, t[..n]), PageDowns(p, |p.items| + 1), HighKey(p), g[t[i]].At(o).link,
                  SeparatorAfter(g[t[i]], o));
      }
    } else {
      DownAdded(LevelDowns(g, t[..n]), g[t[n]], o);
    }
  }

  lemma {:induction false} FirstOfPage(p: Page, off: nat)
    requires p.FirstData() < off <= |p.items| + 1
    ensures PageDowns(p, off) != []
    ensures PageDowns(p, off)[0].link == p.At(p.FirstData()).link
  {
    if off - 1 > p.FirstData() {
      FirstOfPage(p, off - 1);
    }
  }

  /** The level to go on with starts at the first downlink, once there is one. */
  ghost predicate StartsBelow(ds: seq<Down>, down: Level)
  {
    if ds == [] then down == NoLevel() else ds[0].link != INVALID_BLOCK ==> down.leftmost == ds[0].link
  }

  lemma PassingStarts(g: Graph, level: nat, k: Progress, b: nat, ds: seq<Down>)
    requires Live(g, b) && LivePageDone(g, level, b, k) && StartsBelow(ds, k.down)
    ensures StartsBelow(ds + PageDowns(g[b], |g[b].items| + 1), Passing(g, k, g[b]).down)
  {
    FirstOfPage(g[b], |g[b].items| + 1);
  }

  lemma {:induction false} LevelStarts(g: Graph, level: nat, t: seq<nat>, n: nat)
    requires LevelDone(g, level, t) && n <= |t|
    ensures StartsBelow(LevelDowns(g, t[..n]), Known(g, t[..n]).down)
  {
    if n > 0 {
      LevelStarts(g, level, t, n - 1);
      assert PageDone(g, level, t, n - 1);
      LevelDownsStep(g, t, n - 1);
      if Live(g, t[n - 1]) {
        PassingStarts(g, level, Known(g, t[..n - 1]), t[n - 1], LevelDowns(g, t[..n - 1]));
      }
    }
  }

  /** What pages to the right of the last child repeat, as far as the walk has come: the low key known
      by then, which after a page to be skipped is the high key of that page. */
  lemma {:induction false} LastRest(g: Graph, level: nat, t: seq<nat>, n: nat)
    requires LevelDone(g, level, t) && n <= |t| && LevelDowns(g, t[..n]) != []
    ensures var ds := LevelDowns(g, t[..n]); ds[|ds| - 1].rest == Known(g, t[..n]).low
  {
    if n > 0 {
      assert PageDone(g, level, t, n - 1);
      LevelDownsStep(g, t, n - 1);
    }
  }

  lemma LastOfLevel(g: Graph, level: nat, t: seq<nat>)
    requires LevelDone(g, level, t)
    ensures LevelDowns(g, t) != []
    ensures LevelDowns(g, t)[|LevelDowns(g, t)| - 1].sep == None
  {
    var n := |t| - 1;
    assert PageDone(g, level, t, n);
    LevelDownsStep(g, t, n);
    assert t[..n + 1] == t;
  }

  /** The separator after a downlink bounds its child: it is the child's high key, and there is
      none exactly when the child ends its level. */
  lemma ChildHighKey(g: Graph, level: nat, t: seq<nat>, runs: seq<seq<nat>>, i: nat, off: nat)
    requires LevelDone(g, level, t)
    requires Locked(g, level, LevelDowns(g, t), runs)
    requires i < |t| && Live(g, t[i]) && g[t[i]].FirstData() <= off <= |g[t[i]].items|
    ensures var child := g[t[i]].At(off).link;
      && child in Pages(runs) && child in g
      && (!g[child].incompleteSplit ==> HighKey(g[child]) == SeparatorAfter(g[t[i]], off))
  {
    var ds, link, sep := LevelDowns(g, t), g[t[i]].At(off).link, SeparatorAfter(g[t[i]], off);
    DownInLevel(g, t, i, off);
    var k :| 0 <= k < |ds| && ds[k].link == link && ds[k].sep == sep;
    LockAt(g, level, ds, runs, k);
    RunAt(g, level, runs[k], ds[k].sep, ds[k].rest, 0);
    HeadInPages(runs, k);
    LastOfLevel(g, level, t);
    if k + 1 < |ds| {
      LockInside(g, level, ds, runs, k);
    } else {
      EndOfLock(g, level, ds, runs);
    }
  }

  /** A last child with a completed split ends its level. */
  lemma EndOfLock(g: Graph, level: nat, ds: seq<Down>, runs: seq<seq<nat>>)
    requires Locked(g, level, ds, runs)
    requires ds[|ds| - 1].sep == None
    ensures var child := ds[|ds| - 1].link;
      child in g && (!g[child].incompleteSplit ==> g[child].Rightmost())
  {
    var n := |ds| - 1;
    LockAt(g, level, ds, runs, n);
    RunAt(g, level, runs[n], ds[n].sep, ds[n].rest, 0);
  }

  /** A page of a run that has a page to its right there has a right link to an existing block. */
  lemma RunHeadFollowable(g: Graph, level: nat, ds: seq<Down>, runs: seq<seq<nat>>, k: nat)
    requires INVALID_BLOCK !in g && Locked(g, level, ds, runs) && k < |ds|
    ensures Followable(g, ds[k].link)
  {
    LockAt(g, level, ds, runs, k);
    RunAt(g, level, runs[k], ds[k].sep, ds[k].rest, 0);
    if |runs[k]| > 1 {
      RunAt(g, level, runs[k], ds[k].sep, ds[k].rest, 1);
      RunSecond(g, level, runs[k], ds[k].sep, ds[k].rest);
    } else if k + 1 < |ds| {
      LockAt(g, level, ds, runs, k + 1);
      RunAt(g, level, runs[k + 1], ds[k + 1].sep, ds[k + 1].rest, 0);
      assert runs[..k + 1][k] == runs[k];
    }
  }

  /** The lockstep holds after a silent pass over an internal level if and only if every downlink of its
      live pages can be followed. */
  lemma LockstepExact(g: Graph, lv: Level, t: seq<nat>)
    requires INVALID_BLOCK !in g
    requires LevelSilent(g, lv, t) && lv.level > 0
    ensures (exists runs :: Locked(g, lv.level, LevelDowns(g, t), runs)) <==> LevelFollowable(g, t)
  {
    if LevelFollowable(g, t) {
      Lockstep(g, lv, t);
    }
    if runs :| Locked(g, lv.level, LevelDowns(g, t), runs) {
      forall i, o | 0 <= i < |t| && Live(g, t[i]) && g[t[i]].FirstData() <= o <= |g[t[i]].items|
        ensures Followable(g, g[t[i]].At(o).link)
      {
        DownInLevel(g, t, i, o);
        var ds := LevelDowns(g, t);
        var k :| 0 <= k < |ds| && ds[k].link == g[t[i]].At(o).link && ds[k].sep == SeparatorAfter(g[t[i]], o);
        RunHeadFollowable(g, lv.level, ds, runs, k);
      }
    }
  }

  ghost predicate Between(low: Option<Key>, p: Page, o: nat, high: Option<Key>)
    requires p.Real(o)
  {
    && (low.Some? ==> Less(low.value, p.At(o).key))
    && (high.Some? ==> if p.leaf then !Less(high.value, p.At(o).key) else Less(p.At(o).key, high.value))
  }

  /** Item `o` of the child at `off` is in the key space that page `p` gives the child. */
  ghost predicate KeepsToSpace(g: Graph, p: Page, off: nat, o: nat)
    requires p.Has(off) && p.At(off).link in g && g[p.At(off).link].Real(o)
  {
    var child := g[p.At(off).link];
    Between(if p.NegativeInfinity(off) then None else Some(p.At(off).key), child, o,
            if child.incompleteSplit then None else SeparatorAfter(p, off))
  }

  /** The level found below an internal level starts at its first downlink. */
  lemma DownStart(g: Graph, lv: Level, t: seq<nat>, runs: seq<seq<nat>>)
    requires INVALID_BLOCK !in g && LevelDone(g, lv.level, t)
    requires Locked(g, lv.level, LevelDowns(g, t), runs)
    ensures Known(g, t).down.leftmost == LevelDowns(g, t)[0].link
  {
    var ds := LevelDowns(g, t);
    LockAt(g, lv.level, ds, runs, 0);
    RunAt(g, lv.level, runs[0], ds[0].sep, ds[0].rest, 0);
    LevelStarts(g, lv.level, t, |t|);
    assert t[..|t|] == t;
  }

  /** The children of an internal level are pages of the level below, and a completed child's high
      key is the separator after its downlink. */
  lemma ChildrenBelow(g: Graph, lv: Level, t: seq<nat>, below: seq<nat>, i: nat, off: nat)
    requires INVALID_BLOCK !in g
    requires LevelSilent(g, lv, t) && lv.level > 0 && LevelFollowable(g, t)
    requires LevelSilent(g, Known(g, t).down, below)
    requires i < |t| && Live(g, t[i]) && g[t[i]].FirstData() <= off <= |g[t[i]].items|
    ensures var child := g[t[i]].At(off).link;
      && child in below && child in g
      && (!g[child].incompleteSplit ==> HighKey(g[child]) == SeparatorAfter(g[t[i]], off))
  {
    Lockstep(g, lv, t);
    SilentLevelDone(g, lv, t);
    var runs :| Locked(g, lv.level, LevelDowns(g, t), runs);
    DownStart(g, lv, t, runs);
    LevelBelowIsRuns(g, lv.level, LevelDowns(g, t), runs, Known(g, t).down, below);
    ChildHighKey(g, lv.level, t, runs, i, off);
  }

  lemma ItemBetween(g: Graph, t: seq<nat>, below: seq<nat>, i: nat, off: nat, o: nat)
    requires ItemsPass(g, t) && ItemsPass(g, below) && WellLinked(g, below)
    requires i < |t| && Live(g, t[i]) && !g[t[i]].leaf
    requires g[t[i]].FirstData() <= off <= |g[t[i]].items|
    requires var child := g[t[i]].At(off).link;
      && child in below && Live(g, child) && g[child].Real(o)
      && (!g[child].incompleteSplit ==> HighKey(g[child]) == SeparatorAfter(g[t[i]], off))
    ensures KeepsToSpace(g, g[t[i]], off, o)
  {
    var p := g[t[i]];
    var m :| 0 <= m < |below| && below[m] == p.At(off).link;
    assert ItemOk(g, below[m], o);
    if !p.NegativeInfinity(off) {
      assert p.Real(off);
      assert ItemOk(g, t[i], off);
    }
  }

  /** After a silent check of two adjacent levels, the items of a live child lie strictly above the key
      of its downlink, unless that is minus infinity, and within the separator after it, if there is
      one and the split of the child is complete. */
  lemma TwoLevelKeySpace(g: Graph, lv: Level, t: seq<nat>, below: seq<nat>, i: nat, off: nat, o: nat)
    requires INVALID_BLOCK !in g
    requires LevelSilent(g, lv, t) && lv.level > 0 && LevelFollowable(g, t)
    requires LevelSilent(g, Known(g, t).down, below)
    requires i < |t| && Live(g, t[i]) && g[t[i]].FirstData() <= off <= |g[t[i]].items|
    requires var child := g[t[i]].At(off).link;
      Live(g, child) && g[child].Real(o)
    ensures KeepsToSpace(g, g[t[i]], off, o)
  {
    ChildrenBelow(g, lv, t, below, i, off);
    SilentLevel(g, lv, t);
    SilentLevel(g, Known(g, t).down, below);
    LevelEdge(g, lv, t, i);
    ItemBetween(g, t, below, i, off, o);
  }
}
