/** A silent pass over an internal level also walks the whole level below it: each downlink owns a
    run of pages there, and the runs put together are the level. */
module NbtreeLockstep {
  import opened Wrappers
  import opened NbtreePages
  import opened NbtreeWalk
  import opened NbtreeSpec
  import opened NbtreeTheorems

  /** A downlink, the separator key that follows it on its level, and the key that pages to the right
      of its child have to repeat. The two differ only at the end of a page that is followed by pages
      to be skipped: `rest` is then the high key of the last of those. */
  datatype Down = Down(link: nat, sep: Option<Key>, rest: Option<Key>)

  function SeparatorAfter(p: Page, off: nat): Option<Key>
  {
    if off < |p.items| then Some(p.At(off + 1).key) else HighKey(p)
  }

  /** The downlinks of `p` before offset `off`. */
  function PageDowns(p: Page, off: nat): seq<Down>
    requires off <= |p.items| + 1
  {
    if off <= p.FirstData() then []
    else PageDowns(p, off - 1) + [DownAt(p, off - 1)]
  }

  function DownAt(p: Page, off: nat): Down
    requires p.Has(off)
  {
    Down(p.At(off).link, SeparatorAfter(p, off), SeparatorAfter(p, off))
  }

  function Replaced(ds: seq<Down>, key: Option<Key>): seq<Down>
  {
    if ds == [] then [] else ds[|ds| - 1 := ds[|ds| - 1].(rest := key)]
  }

  /** The downlinks of the live pages of `t`, from left to right. */
  function LevelDowns(g: Graph, t: seq<nat>): seq<Down>
  {
    if t == [] then []
    else if Live(g, Last(t)) then LevelDowns(g, t[..|t| - 1]) + PageDowns(g[Last(t)], |g[Last(t)].items| + 1)
    else if Last(t) in g then Replaced(LevelDowns(g, t[..|t| - 1]), HighKey(g[Last(t)]))
    else LevelDowns(g, t[..|t| - 1])
  }

  /** A page of the child level on its own: it loads, is on the right level, and repeats `sep`. */
  predicate PageOk(g: Graph, level: nat, b: nat, sep: Option<Key>)
  {
    && b != P_NONE && Loads(g, b)
    && (!g[b].deleted || g[b].fullXid ==> g[b].level + 1 == level)
    && (!g[b].incompleteSplit && !g[b].Rightmost() ==> HighKeyMatches(g[b], sep))
  }

  ghost predicate ExcusedAt(g: Graph, b: nat, rightsplit: bool)
  {
    Live(g, b) ==> Excused(g, b, rightsplit)
  }

  /** A run of pages one level below `level`: its first page has a downlink and repeats `sep`, the
      others are excused from having one and repeat `rest`, unless their split is incomplete. */
  ghost predicate RunOk(g: Graph, level: nat, run: seq<nat>, sep: Option<Key>, rest: Option<Key>)
  {
    && run != []
    && PageOk(g, level, Last(run), if |run| == 1 then sep else rest)
    && (|run| > 1 ==>
          var before := run[..|run| - 1];
          && RunOk(g, level, before, sep, rest)
          && Last(run) == g[Last(before)].next
          && ExcusedAt(g, Last(run), g[Last(before)].incompleteSplit))
  }

  /** The run before `k` ends next to `link`; there is none before the leftmost page. */
  ghost predicate Attached(g: Graph, runs: seq<seq<nat>>, link: nat)
  {
    if runs == [] then Leftmost(g, link)
    else runs[|runs| - 1] != [] && Last(runs[|runs| - 1]) in g &&
         g[Last(runs[|runs| - 1])].next == link
  }

  /** One run for each downlink, each next to the one before. */
  ghost predicate Lock(g: Graph, level: nat, ds: seq<Down>, runs: seq<seq<nat>>)
    decreases |runs|
  {
    && |runs| == |ds|
    && (runs != [] ==>
          var n := |runs| - 1;
          && Lock(g, level, ds[..n], runs[..n])
          && RunOk(g, level, runs[n], ds[n].sep, ds[n].rest)
          && runs[n][0] == ds[n].link
          && Attached(g, runs[..n], ds[n].link))
  }

  /** The runs of the downlinks `ds` are complete; the run of the downlink `cur` is still open. */
  ghost predicate Open(g: Graph, level: nat, ds: seq<Down>, runs: seq<seq<nat>>, cur: Option<Down>, l: Linkage)
  {
    && Lock(g, level, ds, runs)
    && if cur.None? then ds == [] && l == FRESH else
         var d := cur.value;
         && PageOk(g, level, d.link, d.sep)
         && Attached(g, runs, d.link)
         && l == Linkage(g[d.link].next, g[d.link].incompleteSplit) && !l.Fresh()
  }

  /** A downlink that the lockstep can follow and leave again: it is not block 0, and the page there
      does not have the invalid block number as its right link. */
  predicate Followable(g: Graph, b: nat) { b != P_NONE && (b in g ==> g[b].next != INVALID_BLOCK) }

  // ----- one visit -----

  lemma VisitAt(g: Graph, c: Call, l: Linkage, v: seq<nat>, j: nat)
    requires Path(ChildTrek(g, c, l), v) && j < |v|
    ensures VisitOk(g, c, l, v[j], j == 0, RightSplit(g, l, v[..j]))
  {
    PathAt(ChildTrek(g, c, l), v, j);
  }

  lemma VisitLink(g: Graph, c: Call, l: Linkage, v: seq<nat>, j: nat)
    requires Path(ChildTrek(g, c, l), v) && j < |v|
    ensures v[j] in g
    ensures j == 0 ==> v[j] == Start(c, l)
    ensures j > 0 ==> v[j - 1] in g && v[j] == g[v[j - 1]].next
    ensures j > 0 && c.Downlink() != P_NONE ==> v[j - 1] != c.Downlink()
  {
    PathAt(ChildTrek(g, c, l), v, j);
    if j > 0 {
      PathAt(ChildTrek(g, c, l), v, j - 1);
    }
  }

  lemma VisitFacts(g: Graph, c: Call, l: Linkage, b: nat, first: bool, rightsplit: bool)
    requires VisitOk(g, c, l, b, first, rightsplit)
    ensures PageOk(g, c.target.level, b, c.Pivot(b == c.Downlink()))
    ensures b != c.Downlink() ==> ExcusedAt(g, b, rightsplit)
    ensures first && l.Fresh() ==> Leftmost(g, b)
  {
  }

  lemma RunSnoc(g: Graph, level: nat, run: seq<nat>, sep: Option<Key>, rest: Option<Key>, b: nat)
    requires RunOk(g, level, run, sep, rest) && PageOk(g, level, b, rest)
    requires b == g[Last(run)].next && ExcusedAt(g, b, g[Last(run)].incompleteSplit)
    ensures RunOk(g, level, run + [b], sep, rest)
  {
    assert (run + [b])[..|run + [b]| - 1] == run;
  }

  /** A visited page that is not the downlink, next to the page `left` before it. */
  lemma VisitBetween(g: Graph, c: Call, l: Linkage, v: seq<nat>, j: nat, left: nat)
    requires Path(ChildTrek(g, c, l), v) && j < |v| && v[j] != c.Downlink()
    requires left in g && !l.Fresh()
    requires if j == 0 then l == Linkage(g[left].next, g[left].incompleteSplit) else left == v[j - 1]
    ensures PageOk(g, c.target.level, v[j], c.Pivot(false))
    ensures v[j] == g[left].next
    ensures ExcusedAt(g, v[j], g[left].incompleteSplit)
  {
    VisitAt(g, c, l, v, j);
    VisitLink(g, c, l, v, j);
    VisitFacts(g, c, l, v[j], j == 0, RightSplit(g, l, v[..j]));
    assert j > 0 ==> Last(v[..j]) == v[j - 1];
  }

  /** The pages of a visit up to, but without, its downlink continue the run of the page before. */
  lemma {:induction false} ContinueRun(g: Graph, c: Call, l: Linkage, v: seq<nat>, n: nat, d: nat, sep: Option<Key>)
    requires Path(ChildTrek(g, c, l), v) && n <= |v|
    requires forall j :: 0 <= j < n ==> v[j] != c.Downlink()
    requires d in g && l == Linkage(g[d].next, g[d].incompleteSplit) && !l.Fresh()
    requires PageOk(g, c.target.level, d, sep)
    ensures RunOk(g, c.target.level, [d] + v[..n], sep, c.Pivot(false))
  {
    if n == 0 {
      assert [d] + v[..n] == [d];
    } else {
      ContinueRun(g, c, l, v, n - 1, d, sep);
      var before := [d] + v[..n - 1];
      VisitBetween(g, c, l, v, n - 1, Last(before));
      RunSnoc(g, c.target.level, before, sep, c.Pivot(false), v[n - 1]);
      SnocSlice([d], v, n);
    }
  }

  lemma LockSnoc(g: Graph, level: nat, ds: seq<Down>, runs: seq<seq<nat>>, d: Down, run: seq<nat>)
    requires Lock(g, level, ds, runs)
    requires RunOk(g, level, run, d.sep, d.rest) && run[0] == d.link && Attached(g, runs, d.link)
    ensures Lock(g, level, ds + [d], runs + [run])
  {
    assert (ds + [d])[..|runs|] == ds && (runs + [run])[..|runs|] == runs;
  }

  /** The first visit of a level goes straight to its downlink, which is leftmost. */
  lemma FirstVisit(g: Graph, c: Call)
    requires CallSilent(g, c, FRESH) && c.Downlink() != P_NONE
    ensures PageOk(g, c.target.level, c.Downlink(), c.Pivot(true))
    ensures Leftmost(g, c.Downlink())
  {
    var v :| Whole(ChildTrek(g, c, FRESH), v);
    VisitAt(g, c, FRESH, v, 0);
    VisitLink(g, c, FRESH, v, 0);
    VisitFacts(g, c, FRESH, v[0], true, RightSplit(g, FRESH, v[..0]));
  }

  /** A later visit completes the run of the downlink before. */
  lemma LaterVisit(g: Graph, c: Call, l: Linkage, d: nat, sep: Option<Key>) returns (run: seq<nat>)
    requires CallSilent(g, c, l) && c.Downlink() != P_NONE
    requires d in g && l == Linkage(g[d].next, g[d].incompleteSplit) && !l.Fresh()
    requires PageOk(g, c.target.level, d, sep)
    ensures RunOk(g, c.target.level, run, sep, c.Pivot(false)) && run[0] == d
    ensures g[Last(run)].next == c.Downlink()
    ensures PageOk(g, c.target.level, c.Downlink(), c.Pivot(true))
  {
    var v :| Whole(ChildTrek(g, c, l), v);
    var n := |v| - 1;
    forall j | 0 <= j < n ensures v[j] != c.Downlink() {
      VisitLink(g, c, l, v, j + 1);
    }
    ContinueRun(g, c, l, v, n, d, sep);
    run := [d] + v[..n];
    VisitLink(g, c, l, v, n);
    VisitAt(g, c, l, v, n);
    VisitFacts(g, c, l, v[n], n == 0, RightSplit(g, l, v[..n]));
  }

  /** The visit beyond the last downlink completes its run at the end of the level. */
  lemma FinalVisit(g: Graph, c: Call, l: Linkage, d: nat, sep: Option<Key>) returns (run: seq<nat>)
    requires CallSilent(g, c, l) && c.Downlink() == P_NONE
    requires d in g && l == Linkage(g[d].next, g[d].incompleteSplit) && !l.Fresh()
    requires PageOk(g, c.target.level, d, sep)
    ensures RunOk(g, c.target.level, run, sep, c.Pivot(false)) && run[0] == d
    ensures g[Last(run)].next == P_NONE
  {
    if Start(c, l) == P_NONE {
      run := [d];
    } else {
      var v :| Whole(ChildTrek(g, c, l), v);
      forall j | 0 <= j < |v| ensures v[j] != c.Downlink() {
        VisitAt(g, c, l, v, j);
      }
      ContinueRun(g, c, l, v, |v|, d, sep);
      run := [d] + v[..|v|];
    }
  }

  // ----- one page, one level -----

  function Current(cur: Option<Down>): seq<Down> { if cur.None? then [] else [cur.value] }

  lemma OpenStep(g: Graph, c: Call, l: Linkage, ds: seq<Down>, runs: seq<seq<nat>>, cur: Option<Down>,
                 rest: Option<Key>)
    returns (runs': seq<seq<nat>>)
    requires Open(g, c.target.level, ds, runs, cur, l) && CallSilent(g, c, l)
    requires Followable(g, c.Downlink())
    requires cur.Some? ==> c.Pivot(false) == cur.value.rest
    ensures var next := Down(c.Downlink(), c.Pivot(true), rest);
      Open(g, c.target.level, ds + Current(cur), runs', Some(next), After(g, c))
  {
    if cur.None? {
      FirstVisit(g, c);
      runs' := [];
      assert ds + Current(cur) == [];
    } else {
      var run := LaterVisit(g, c, l, cur.value.link, cur.value.sep);
      LockSnoc(g, c.target.level, ds, runs, cur.value, run);
      runs' := runs + [run];
    }
  }

  ghost predicate FollowableLinks(g: Graph, p: Page)
  {
    forall o :: p.FirstData() <= o <= |p.items| ==> Followable(g, p.At(o).link)
  }

  lemma PivotsOfCall(p: Page, off: nat, low: Option<Key>)
    requires !p.leaf && p.FirstData() <= off <= |p.items|
    ensures Call(p, off, low).Downlink() == p.At(off).link
    ensures Call(p, off, low).Pivot(true) == SeparatorAfter(p, off)
    ensures Call(p, off, low).Pivot(false) ==
            if off == p.FirstData() then low else SeparatorAfter(p, off - 1)
  {
  }

  lemma ConcatAssoc<T>(a: seq<T>, b: seq<T>, c: seq<T>)
    ensures a + b + c == a + (b + c)
  {
  }

  /** The visits for the data items before offset `off` are silent. */
  ghost predicate CallsPass(g: Graph, p: Page, low: Option<Key>, l: Linkage, off: nat)
  {
    off <= p.FirstData() ||
    (CallsPass(g, p, low, l, off - 1) && CallSilent(g, Call(p, off - 1, low), Link(g, p, low, l, off - 1)))
  }

  lemma {:induction false} PassedCalls(g: Graph, p: Page, ok: OffsetTest, low: Option<Key>, l: Linkage, off: nat)
    requires PassUpTo(g, p, ok, low, l, off)
    requires forall o: nat, k :: ok(o, k) ==> CallSilent(g, Call(p, o, low), k)
    ensures CallsPass(g, p, low, l, off)
  {
    if off > p.FirstData() {
      PassedCalls(g, p, ok, low, l, off - 1);
    }
  }

  /** One more downlink of a page: the visit for offset `off`. */
  lemma OffsetLock(g: Graph, b: nat, low: Option<Key>, l: Linkage, off: nat,
                   ds: seq<Down>, runs: seq<seq<nat>>, cur: Option<Down>)
    returns (runs': seq<seq<nat>>, next: Down)
    requires b in g && !g[b].leaf && FollowableLinks(g, g[b])
    requires g[b].FirstData() <= off <= |g[b].items|
    requires CallSilent(g, Call(g[b], off, low), l)
    requires Open(g, g[b].level, ds, runs, cur, l)
    requires cur.Some? ==>
      cur.value.rest == if off == g[b].FirstData() then low else SeparatorAfter(g[b], off - 1)
    ensures next == DownAt(g[b], off)
    ensures Open(g, g[b].level, ds + Current(cur), runs', Some(next), After(g, Call(g[b], off, low)))
  {
    PivotsOfCall(g[b], off, low);
    next := DownAt(g[b], off);
    runs' := OpenStep(g, Call(g[b], off, low), l, ds, runs, cur, next.rest);
  }

  /** The visits made for the downlinks of one page before offset `off`. */
  lemma {:induction false} PageLock(g: Graph, b: nat, low: Option<Key>, l: Linkage, off: nat,
                                    ds: seq<Down>, runs: seq<seq<nat>>, cur: Option<Down>)
    returns (ds': seq<Down>, runs': seq<seq<nat>>, cur': Option<Down>)
    requires b in g && !g[b].leaf && FollowableLinks(g, g[b])
    requires g[b].FirstData() <= off <= |g[b].items| + 1 && CallsPass(g, g[b], low, l, off)
    requires Open(g, g[b].level, ds, runs, cur, l)
    requires cur.Some? ==> cur.value.rest == low
    ensures Open(g, g[b].level, ds', runs', cur', Link(g, g[b], low, l, off))
    ensures ds' + Current(cur') == ds + Current(cur) + PageDowns(g[b], off)
    ensures cur' == if off == g[b].FirstData() then cur
                    else Some(DownAt(g[b], off - 1))
  {
    if off == g[b].FirstData() {
      ds', runs', cur' := ds, runs, cur;
    } else {
      var ds1, runs1, cur1 := PageLock(g, b, low, l, off - 1, ds, runs, cur);
      var runs2, next := OffsetLock(g, b, low, Link(g, g[b], low, l, off - 1), off - 1, ds1, runs1, cur1);
      ds', runs', cur' := ds1 + Current(cur1), runs2, Some(next);
      ConcatAssoc(ds + Current(cur), PageDowns(g[b], off - 1), [next]);
    }
  }

  /** Every downlink of the live pages of `t` can be followed. */
  ghost predicate LevelFollowable(g: Graph, t: seq<nat>)
  {
    forall i :: 0 <= i < |t| && Live(g, t[i]) ==> FollowableLinks(g, g[t[i]])
  }

  /** What a silent level walk says about its page `i`; a page to be skipped only has a high key. */
  ghost predicate PageDone(g: Graph, level: nat, t: seq<nat>, i: nat)
    requires i < |t|
  {
    && t[i] in g
    && (g[t[i]].Rightmost() <==> i == |t| - 1)
    && Known(g, t[..i + 1]) == Passing(g, Known(g, t[..i]), g[t[i]])
    && if Live(g, t[i]) then LivePageDone(g, level, t[i], Known(g, t[..i])) else i < |t| - 1
  }

  ghost predicate LivePageDone(g: Graph, level: nat, b: nat, k: Progress)
    requires b in g
  {
    && !g[b].leaf && FollowableLinks(g, g[b])
    && g[b].level == level
    && g[b].FirstData() <= |g[b].items|
    && PageSilent(g, b, k.low, k.linkage)
  }

  ghost predicate LevelDone(g: Graph, level: nat, t: seq<nat>)
  {
    t != [] && forall i {:trigger PageDone(g, level, t, i)} :: 0 <= i < |t| ==> PageDone(g, level, t, i)
  }

  lemma LevelEdge(g: Graph, lv: Level, t: seq<nat>, i: nat)
    requires LevelSilent(g, lv, t) && i < |t|
    ensures t[i] in g && (g[t[i]].Rightmost() <==> i == |t| - 1)
    ensures i == |t| - 1 ==> Live(g, t[i])
    ensures Live(g, t[i]) && lv.level > 0 ==>
              !g[t[i]].leaf && g[t[i]].level == lv.level && g[t[i]].FirstData() <= |g[t[i]].items|
  {
    ShapeAt(g, lv, t, i);
    if i + 1 < |t| {
      LinkAt(g, lv, t, i + 1);
    }
  }

  lemma KnownAt(g: Graph, t: seq<nat>, i: nat)
    requires i < |t| && t[i] in g
    ensures Known(g, t[..i + 1]) == Passing(g, Known(g, t[..i]), g[t[i]])
  {
    assert t[..i + 1] == t[..i] + [t[i]];
    KnownStep(g, t[..i], t[i]);
  }

  lemma PageOfLevel(g: Graph, lv: Level, t: seq<nat>, i: nat)
    requires LevelSilent(g, lv, t) && lv.level > 0 && LevelFollowable(g, t) && i < |t|
    ensures PageDone(g, lv.level, t, i)
  {
    LevelEdge(g, lv, t, i);
    KnownAt(g, t, i);
    if Live(g, t[i]) {
      SilentAt(g, lv, t, i);
    }
  }

  lemma SilentLevelDone(g: Graph, lv: Level, t: seq<nat>)
    requires LevelSilent(g, lv, t) && lv.level > 0 && LevelFollowable(g, t)
    ensures LevelDone(g, lv.level, t)
  {
    forall i {:trigger PageDone(g, lv.level, t, i)} | 0 <= i < |t| ensures PageDone(g, lv.level, t, i) {
      PageOfLevel(g, lv, t, i);
    }
  }

  lemma LevelDownsStep(g: Graph, t: seq<nat>, n: nat)
    requires n < |t| && t[n] in g
    ensures LevelDowns(g, t[..n + 1]) ==
            if Live(g, t[n]) then LevelDowns(g, t[..n]) + PageDowns(g[t[n]], |g[t[n]].items| + 1)
            else Replaced(LevelDowns(g, t[..n]), HighKey(g[t[n]]))
  {
    assert t[..n + 1][..n] == t[..n] && Last(t[..n + 1]) == t[n];
  }

  lemma PassedPage(g: Graph, b: nat, k: Progress)
    requires b in g && !g[b].leaf && PageSilent(g, b, k.low, k.linkage)
    ensures CallsPass(g, g[b], k.low, k.linkage, |g[b].items| + 1)
    ensures g[b].Rightmost() ==> CallSilent(g, Call(g[b], 0, k.low), PageEnd(g, b, k))
  {
    PassedCalls(g, g[b], Offsets(g, b, k.low), k.low, k.linkage, |g[b].items| + 1);
  }

  /** The linkage after the last downlink of page `b`. */
  function PageEnd(g: Graph, b: nat, k: Progress): Linkage
    requires b in g
  {
    Link(g, g[b], k.low, k.linkage, |g[b].items| + 1)
  }

  lemma PassingLive(g: Graph, k: Progress, b: nat)
    requires Live(g, b) && !g[b].leaf && !g[b].Rightmost()
    ensures Passing(g, k, g[b]).linkage == PageEnd(g, b, k) && Passing(g, k, g[b]).low == HighKey(g[b])
  {
  }

  /** All of page `b`, from what the pages before it left open. */
  lemma WholePageLock(g: Graph, b: nat, k: Progress, ds: seq<Down>, runs: seq<seq<nat>>, cur: Option<Down>)
    returns (ds': seq<Down>, runs': seq<seq<nat>>, cur': Option<Down>)
    requires b in g && !g[b].leaf && FollowableLinks(g, g[b])
    requires g[b].FirstData() <= |g[b].items| && PageSilent(g, b, k.low, k.linkage)
    requires Open(g, g[b].level, ds, runs, cur, k.linkage)
    requires cur.Some? ==> cur.value.rest == k.low
    ensures Open(g, g[b].level, ds', runs', cur', PageEnd(g, b, k))
    ensures ds' + Current(cur') == ds + Current(cur) + PageDowns(g[b], |g[b].items| + 1)
    ensures cur'.Some? && cur'.value.rest == HighKey(g[b])
  {
    PassedPage(g, b, k);
    ds', runs', cur' := PageLock(g, b, k.low, k.linkage, |g[b].items| + 1, ds, runs, cur);
  }

  /** A page to be skipped moves nothing on, but its high key is the low key of the next page. */
  lemma SkippedPage(g: Graph, level: nat, b: nat, k: Progress, ds: seq<Down>, runs: seq<seq<nat>>, cur: Option<Down>)
    returns (cur': Option<Down>)
    requires b in g && !Live(g, b) && Open(g, level, ds, runs, cur, k.linkage)
    ensures Open(g, level, ds, runs, cur', Passing(g, k, g[b]).linkage)
    ensures ds + Current(cur') == Replaced(ds + Current(cur), HighKey(g[b]))
    ensures cur'.Some? ==> cur'.value.rest == Passing(g, k, g[b]).low
  {
    cur' := if cur.None? then None else Some(cur.value.(rest := HighKey(g[b])));
  }

  lemma {:induction false} LevelLock(g: Graph, level: nat, t: seq<nat>, n: nat)
    returns (ds: seq<Down>, runs: seq<seq<nat>>, cur: Option<Down>)
    requires LevelDone(g, level, t) && n < |t|
    ensures Open(g, level, ds, runs, cur, Known(g, t[..n]).linkage)
    ensures ds + Current(cur) == LevelDowns(g, t[..n])
    ensures cur.Some? ==> cur.value.rest == Known(g, t[..n]).low
  {
    if n == 0 {
      ds, runs, cur := [], [], None;
    } else {
      var b, k := t[n - 1], Known(g, t[..n - 1]);
      ds, runs, cur := LevelLock(g, level, t, n - 1);
      assert PageDone(g, level, t, n - 1);
      LevelDownsStep(g, t, n - 1);
      if Live(g, b) {
        ds, runs, cur := WholePageLock(g, b, k, ds, runs, cur);
        PassingLive(g, k, b);
      } else {
        cur := SkippedPage(g, level, b, k, ds, runs, cur);
      }
    }
  }

  /** The runs of the downlinks `ds` are the whole level below. */
  ghost predicate Locked(g: Graph, level: nat, ds: seq<Down>, runs: seq<seq<nat>>)
  {
    Lock(g, level, ds, runs) && ds != [] && g[Last(runs[|runs| - 1])].next == P_NONE
  }

  lemma CloseLast(g: Graph, b: nat, k: Progress, ds: seq<Down>, runs: seq<seq<nat>>, cur: Down)
    requires b in g && !g[b].leaf && g[b].Rightmost()
    requires PageSilent(g, b, k.low, k.linkage)
    requires Open(g, g[b].level, ds, runs, Some(cur), PageEnd(g, b, k))
    requires cur.rest == HighKey(g[b])
    ensures exists all :: Locked(g, g[b].level, ds + [cur], all)
  {
    PassedPage(g, b, k);
    var run := FinalVisit(g, Call(g[b], 0, k.low), PageEnd(g, b, k), cur.link, cur.sep);
    LockSnoc(g, g[b].level, ds, runs, cur, run);
    assert Locked(g, g[b].level, ds + [cur], runs + [run]);
  }

  /** After a silent pass over an internal level, whatever pages it skips, the pages visited below it
      are one run for each downlink of its live pages, in their order; together they lead from the
      leftmost page of the level below along right links to its end, and a live page without a
      downlink is excused. */
  lemma Lockstep(g: Graph, lv: Level, t: seq<nat>)
    requires LevelSilent(g, lv, t) && lv.level > 0 && LevelFollowable(g, t)
    ensures exists runs :: Locked(g, lv.level, LevelDowns(g, t), runs)
  {
    SilentLevelDone(g, lv, t);
    LevelLockstep(g, lv.level, t);
  }

  lemma LevelLockstep(g: Graph, level: nat, t: seq<nat>)
    requires LevelDone(g, level, t)
    ensures exists runs :: Locked(g, level, LevelDowns(g, t), runs)
  {
    var n := |t| - 1;
    var b, k := t[n], Known(g, t[..n]);
    var ds0, runs0, cur0 := LevelLock(g, level, t, n);
    assert PageDone(g, level, t, n);
    var ds, runs, cur := WholePageLock(g, b, k, ds0, runs0, cur0);
    LevelDownsStep(g, t, n);
    assert t[..n + 1] == t;
    CloseLast(g, b, k, ds, runs, cur.value);
  }
}
