/** What it takes for a read-only check of a B-tree to stay silent, stated over whole walks rather
    than over the loops that make them. */
module NbtreeSpec {
  import opened Wrappers
  import opened Lexicographic
  import opened NbtreePages
  import opened NbtreeWalk

  function Last(t: seq<nat>): nat
    requires t != []
  {
    t[|t| - 1]
  }

  ghost predicate EndOfLevel(g: Graph, b: nat) { b in g && g[b].Rightmost() }

  // ----- leftmost page, up to half-dead pages -----

  /** Left from `b`, through half-dead pages that all point back, to the edge of the level. */
  ghost function LeftTrek(g: Graph, b: nat): Trek
  {
    Trek(g.Keys, b, PrevOf(g),
         (passed: seq<nat>, x: nat) =>
           passed != [] ==> x != P_NONE && Loads(g, x) && g[x].halfDead && g[x].next == Last(passed),
         Never(),
         (x: nat) => x in g && g[x].prev == P_NONE)
  }

  ghost predicate Leftmost(g: Graph, b: nat) { Completes(LeftTrek(g, b)) }

  // ----- a live page without a downlink -----

  /** One level down in unsigned 32-bit arithmetic. */
  function Below(level: nat): nat { if level == 0 then 0xFFFF_FFFF else level - 1 }

  predicate NamesTopParent(p: Page, b: nat)
  {
    !p.deleted && p.halfDead && !p.Rightmost() && p.Has(P_HIKEY) && p.At(P_HIKEY).link == b
  }

  /** Down from `b` along first downlinks, one level at a time, to a half-dead leaf that names `b`
      as the top parent of its deletion. */
  ghost function DescentTrek(g: Graph, b: nat): Trek
  {
    Trek(g.Keys, b, FirstLinkOf(g),
         (passed: seq<nat>, x: nat) => passed != [] ==>
           && Loads(g, x)
           && if g[x].leaf then NamesTopParent(g[x], b)
              else Last(passed) in g && g[x].level == Below(g[Last(passed)].level) &&
                   g[x].Has(g[x].FirstData()),
         Never(),
         (x: nat) => x in g && g[x].leaf)
  }

  ghost predicate InterruptedDeletion(g: Graph, b: nat) { Completes(DescentTrek(g, b)) }

  /** A live page may lack a downlink only for one of these reasons. */
  ghost predicate Excused(g: Graph, b: nat, rightsplit: bool)
    requires b in g
  {
    g[b].root || rightsplit || (!g[b].leaf && InterruptedDeletion(g, b))
  }

  /** The search for the last of these reasons never ends. */
  ghost predicate ExcuseHangs(g: Graph, b: nat, rightsplit: bool)
    requires b in g
  {
    !g[b].root && !rightsplit && !g[b].leaf && Hangs(DescentTrek(g, b))
  }

  // ----- one visit to the child level -----

  /** One visit to the child level: the downlink at `off` of the target page, or none when `off`
      is 0; `low` is the high key of the target's left sibling. */
  datatype Call = Call(target: Page, off: nat, low: Option<Key>)
  {
    function Downlink(): nat { if target.Has(off) then target.At(off).link else P_NONE }

    /** The key of the target level that a child's high key has to repeat. */
    function Pivot(atDownlink: bool): Option<Key>
    {
      var o := if atDownlink then off + 1 else off;
      if target.NegativeInfinity(o) then low
      else if o > |target.items| then
        if target.Rightmost() || !target.Has(P_HIKEY) then None else Some(target.At(P_HIKEY).key)
      else if o == 0 then None
      else Some(target.At(o).key)
    }
  }

  /** What is carried from one visit to the next: the right link and the incomplete-split flag
      of the child reached last. */
  datatype Linkage = Linkage(right: nat, incompleteSplit: bool)
  {
    predicate Fresh() { right == INVALID_BLOCK }
  }

  const FRESH: Linkage := Linkage(INVALID_BLOCK, false)

  function After(g: Graph, c: Call): Linkage
  {
    var d := c.Downlink();
    if d in g && d != P_NONE then Linkage(g[d].next, g[d].incompleteSplit) else FRESH
  }

  predicate HighKeyMatches(p: Page, pivot: Option<Key>)
  {
    p.Has(P_HIKEY) && pivot == Some(p.At(P_HIKEY).key)
  }

  /** Whether the page to the left of the next one on the child level has an incomplete split. */
  predicate RightSplit(g: Graph, l: Linkage, passed: seq<nat>)
  {
    if passed == [] then !l.Fresh() && l.incompleteSplit
    else Last(passed) in g && g[Last(passed)].incompleteSplit
  }

  /** The tests on one page of the child level that come before the search for its downlink. */
  ghost predicate VisitLinked(g: Graph, c: Call, l: Linkage, b: nat, first: bool)
  {
    && b != P_NONE
    && Loads(g, b)
    && (first && l.Fresh() ==> Leftmost(g, b))
    && (!g[b].deleted || g[b].fullXid ==> g[b].level + 1 == c.target.level)
    && (!first ==> b != l.right)
    && b != g[b].prev
  }

  /** The tests on one page of the child level. */
  ghost predicate VisitOk(g: Graph, c: Call, l: Linkage, b: nat, first: bool, rightsplit: bool)
  {
    && VisitLinked(g, c, l, b, first)
    && (b != c.Downlink() && !g[b].Ignorable() ==> Excused(g, b, rightsplit))
    && (!g[b].incompleteSplit && !g[b].Rightmost() ==>
          HighKeyMatches(g[b], c.Pivot(b == c.Downlink())))
  }

  ghost predicate VisitHangs(g: Graph, c: Call, l: Linkage, b: nat, first: bool, rightsplit: bool)
  {
    VisitLinked(g, c, l, b, first) && b != c.Downlink() && !g[b].Ignorable() && ExcuseHangs(g, b, rightsplit)
  }

  function Start(c: Call, l: Linkage): nat { if l.Fresh() then c.Downlink() else l.right }

  /** Right from the child reached last to the downlink, or to the end of the level if there is
      none. */
  ghost function ChildTrek(g: Graph, c: Call, l: Linkage): Trek
  {
    Trek(g.Keys, Start(c, l), NextOf(g),
         (passed: seq<nat>, x: nat) => VisitOk(g, c, l, x, passed == [], RightSplit(g, l, passed)),
         (passed: seq<nat>, x: nat) => VisitHangs(g, c, l, x, passed == [], RightSplit(g, l, passed)),
         (x: nat) => if c.Downlink() == P_NONE then EndOfLevel(g, x) else x == c.Downlink())
  }

  ghost predicate CallSilent(g: Graph, c: Call, l: Linkage)
  {
    (Start(c, l) == P_NONE && c.Downlink() == P_NONE) || Completes(ChildTrek(g, c, l))
  }

  ghost predicate CallHangs(g: Graph, c: Call, l: Linkage)
  {
    !(Start(c, l) == P_NONE && c.Downlink() == P_NONE) && Hangs(ChildTrek(g, c, l))
  }

  // ----- the target page -----

  /** Right from `b` over ignorable pages to the first page that is live or last. */
  ghost function RightTrek(g: Graph, b: nat): Trek
    requires b in g
  {
    Trek(g.Keys, g[b].next, NextOf(g),
         (passed: seq<nat>, x: nat) => Loads(g, x),
         Never(),
         (x: nat) => x in g && (!g[x].Ignorable() || g[x].Rightmost()))
  }

  /** The key that the last item of `b` is compared to. */
  ghost predicate RightKey(g: Graph, b: nat, key: Option<Key>)
    requires b in g
  {
    if g[b].Rightmost() then key == None
    else exists t :: Whole(RightTrek(g, b), t) && key == g[Last(t)].FirstRealKey()
  }

  /** The key at `off` is a strict lower bound on the real items of the page it points to. */
  ghost predicate DownlinkBound(g: Graph, p: Page, off: nat)
    requires p.Has(off)
  {
    var child := p.At(off).link;
    && Loads(g, child)
    && !g[child].deleted
    && forall o :: g[child].Real(o) ==> Less(p.At(off).key, g[child].At(o).key)
  }

  /** The tests on the key of one real item that stay on its page. */
  ghost predicate KeyOnPage(p: Page, off: nat)
    requires p.Real(off)
  {
    && (!p.Rightmost() ==>
          if p.leaf then !Less(p.At(P_HIKEY).key, p.At(off).key)
          else Less(p.At(off).key, p.At(P_HIKEY).key))
    && (off < |p.items| ==> Less(p.At(off).key, p.At(off + 1).key))
  }

  /** The tests on the key of one real item of a target page. */
  ghost predicate KeyOk(g: Graph, b: nat, off: nat)
    requires b in g && g[b].Real(off)
  {
    && KeyOnPage(g[b], off)
    && (off == |g[b].items| ==>
          exists key :: RightKey(g, b, key) && (key.Some? ==> Less(g[b].At(off).key, key.value)))
  }

  ghost predicate KeyHangs(g: Graph, b: nat, off: nat)
    requires b in g && g[b].Real(off)
  {
    KeyOnPage(g[b], off) && off == |g[b].items| && !g[b].Rightmost() && Hangs(RightTrek(g, b))
  }

  /** The tests on one real item of a target page, other than the walk over the child level. */
  ghost predicate ItemOk(g: Graph, b: nat, off: nat)
    requires b in g && g[b].Real(off)
  {
    KeyOk(g, b, off) && (!g[b].leaf ==> DownlinkBound(g, g[b], off))
  }

  /** What the item at `off` has to pass, and its visit to the child level starting from `l`. */
  ghost predicate OffsetOk(g: Graph, b: nat, low: Option<Key>, off: nat, l: Linkage)
    requires b in g
  {
    && (g[b].Real(off) ==> ItemOk(g, b, off))
    && (!g[b].leaf ==> CallSilent(g, Call(g[b], off, low), l))
  }

  /** The last item never finds its right neighbour, or the visit to the child level never ends. */
  ghost predicate OffsetHangs(g: Graph, b: nat, low: Option<Key>, off: nat, l: Linkage)
    requires b in g
  {
    || (g[b].Real(off) && KeyHangs(g, b, off))
    || (&& !g[b].leaf
        && (g[b].Real(off) ==> KeyOk(g, b, off) && Loads(g, g[b].At(off).link))
        && CallHangs(g, Call(g[b], off, low), l))
  }

  type OffsetTest = (nat, Linkage) -> bool

  ghost function Offsets(g: Graph, b: nat, low: Option<Key>): OffsetTest
    requires b in g
  {
    (off: nat, l: Linkage) => OffsetOk(g, b, low, off, l)
  }

  ghost function StuckOffsets(g: Graph, b: nat, low: Option<Key>): OffsetTest
    requires b in g
  {
    (off: nat, l: Linkage) => OffsetHangs(g, b, low, off, l)
  }

  /** The linkage that the visit for offset `off` starts from, if `l` was there before the page. */
  function Link(g: Graph, p: Page, low: Option<Key>, l: Linkage, off: nat): Linkage
  {
    if p.leaf || off <= p.FirstData() then l else After(g, Call(p, off - 1, low))
  }

  /** The data items before offset `off` pass `ok`. */
  ghost predicate PassUpTo(g: Graph, p: Page, ok: OffsetTest, low: Option<Key>, l: Linkage, off: nat)
  {
    off <= p.FirstData() ||
    (PassUpTo(g, p, ok, low, l, off - 1) && ok(off - 1, Link(g, p, low, l, off - 1)))
  }

  lemma {:induction false} PassAt(g: Graph, p: Page, ok: OffsetTest, low: Option<Key>, l: Linkage,
                                  off: nat, o: nat)
    requires PassUpTo(g, p, ok, low, l, off)
    requires p.FirstData() <= o < off
    ensures ok(o, Link(g, p, low, l, o))
  {
    if o < off - 1 {
      PassAt(g, p, ok, low, l, off - 1, o);
    }
  }

  /** All data items pass `ok`, and so does the visit beyond the last downlink of a level. */
  ghost predicate PagePasses(g: Graph, p: Page, ok: OffsetTest, low: Option<Key>, l: Linkage)
  {
    && PassUpTo(g, p, ok, low, l, |p.items| + 1)
    && (!p.leaf && p.Rightmost() ==> ok(0, Link(g, p, low, l, |p.items| + 1)))
  }

  ghost predicate PageSilent(g: Graph, b: nat, low: Option<Key>, l: Linkage)
    requires b in g
  {
    PagePasses(g, g[b], Offsets(g, b, low), low, l)
  }

  /** The check of page `p` comes to an item that is stuck. */
  ghost predicate PageStuck(g: Graph, p: Page, ok: OffsetTest, stuck: OffsetTest, low: Option<Key>, l: Linkage)
  {
    || (exists off :: StuckAt(g, p, ok, stuck, low, l, off))
    || (&& !p.leaf && p.Rightmost() && PassUpTo(g, p, ok, low, l, |p.items| + 1)
        && stuck(0, Link(g, p, low, l, |p.items| + 1)))
  }

  ghost predicate StuckAt(g: Graph, p: Page, ok: OffsetTest, stuck: OffsetTest, low: Option<Key>, l: Linkage, off: nat)
  {
    p.FirstData() <= off <= |p.items| && PassUpTo(g, p, ok, low, l, off) && stuck(off, Link(g, p, low, l, off))
  }

  ghost predicate PageHangs(g: Graph, b: nat, low: Option<Key>, l: Linkage)
    requires b in g
  {
    PageStuck(g, g[b], Offsets(g, b, low), StuckOffsets(g, b, low), low, l)
  }

  /** The linkage left behind by page `p`. */
  function EndLink(g: Graph, p: Page, low: Option<Key>, l: Linkage): Linkage
  {
    if p.leaf || p.Ignorable() then l
    else if p.Rightmost() then FRESH
    else Link(g, p, low, l, |p.items| + 1)
  }

  // ----- one level -----

  datatype Level = Level(level: nat, leftmost: nat, trueRoot: bool)

  function NoLevel(): Level { Level(INVALID_BLOCK, INVALID_BLOCK, false) }

  function LevelBelow(p: Page): Level
  {
    if p.leaf then Level(INVALID_BLOCK, P_NONE, false)
    else if p.Has(p.FirstData()) then Level(Below(p.level), p.At(p.FirstData()).link, false)
    else NoLevel()
  }

  /** What a level walk knows after some pages. */
  datatype Progress = Progress(down: Level, low: Option<Key>, linkage: Linkage)

  function HighKey(p: Page): Option<Key>
  {
    if p.Rightmost() || !p.Has(P_HIKEY) then None else Some(p.At(P_HIKEY).key)
  }

  /** The progress after page `p`, from the progress before it. */
  function Passing(g: Graph, k: Progress, p: Page): Progress
  {
    Progress(if k.down.leftmost != INVALID_BLOCK || p.Ignorable() then k.down else LevelBelow(p),
             HighKey(p),
             EndLink(g, p, k.low, k.linkage))
  }

  function Known(g: Graph, t: seq<nat>): Progress
  {
    if t == [] then Progress(NoLevel(), None, FRESH)
    else if Last(t) !in g then Known(g, t[..|t| - 1])
    else Passing(g, Known(g, t[..|t| - 1]), g[Last(t)])
  }

  lemma KnownStep(g: Graph, t: seq<nat>, b: nat)
    requires b in g
    ensures Known(g, t + [b]) == Passing(g, Known(g, t), g[b])
  {
    assert (t + [b])[..|t + [b]| - 1] == t;
  }

  function LeftOf(t: seq<nat>): nat { if t == [] then P_NONE else Last(t) }

  /** The tests on a live page `b` of a level walk that come before its contents; `left` is the page
      before it and `down` the start of the next level as known so far. */
  ghost predicate LiveShape(g: Graph, lv: Level, down: Level, left: nat, b: nat)
    requires b in g
  {
    && (down.leftmost == INVALID_BLOCK ==> Leftmost(g, b) && (lv.trueRoot ==> g[b].root))
    && (left != P_NONE ==> g[b].prev == left)
    && g[b].level == lv.level
  }

  /** The tests on page `b` of a level walk, but for its contents. */
  ghost predicate TargetShape(g: Graph, lv: Level, down: Level, left: nat, b: nat)
  {
    && b != P_NONE
    && Loads(g, b)
    && b != left
    && b != g[b].prev
    && (!g[b].Rightmost() ==> g[b].Has(P_HIKEY))
    && (g[b].Ignorable() ==> !g[b].deleted && !g[b].Rightmost())
    && (!g[b].Ignorable() ==> LiveShape(g, lv, down, left, b))
  }

  /** The tests on page `b` of a level walk that has passed the pages `t`. */
  ghost predicate TargetOk(g: Graph, lv: Level, t: seq<nat>, b: nat)
  {
    && TargetShape(g, lv, Known(g, t).down, LeftOf(t), b)
    && (!g[b].Ignorable() ==> PageSilent(g, b, Known(g, t).low, Known(g, t).linkage))
  }

  ghost predicate TargetHangs(g: Graph, lv: Level, t: seq<nat>, b: nat)
  {
    && b != P_NONE && Loads(g, b) && !g[b].Ignorable()
    && LiveShape(g, lv, Known(g, t).down, LeftOf(t), b)
    && PageHangs(g, b, Known(g, t).low, Known(g, t).linkage)
  }

  ghost function LevelTrek(g: Graph, lv: Level): Trek
  {
    Trek(g.Keys, lv.leftmost, NextOf(g),
         (passed: seq<nat>, x: nat) => TargetOk(g, lv, passed, x),
         (passed: seq<nat>, x: nat) => TargetHangs(g, lv, passed, x),
         (x: nat) => EndOfLevel(g, x))
  }

  /** The check of level `lv` is silent, and `t` are the pages it visits. */
  ghost predicate LevelSilent(g: Graph, lv: Level, t: seq<nat>) { Whole(LevelTrek(g, lv), t) }

  // ----- the index -----

  /** The check of the index from level `lv` down to the leaves is silent. */
  ghost predicate IndexSilent(g: Graph, lv: Level)
    decreases if lv.leftmost == P_NONE then 0 else lv.level + 1
  {
    lv.leftmost == P_NONE ||
    exists t ::
      && LevelSilent(g, lv, t)
      && var down := Known(g, t).down;
         && down.leftmost != INVALID_BLOCK
         && (down.leftmost == P_NONE || down.level < lv.level)
         && IndexSilent(g, down)
  }

  /** The check of the index from level `lv` down never ends, however long it is given. */
  ghost predicate IndexHangs(g: Graph, lv: Level)
    decreases if lv.leftmost == P_NONE then 0 else lv.level + 1
  {
    && lv.leftmost != P_NONE
    && (|| Hangs(LevelTrek(g, lv))
        || exists t ::
             && LevelSilent(g, lv, t)
             && var down := Known(g, t).down;
                && down.leftmost != INVALID_BLOCK
                && (down.leftmost == P_NONE || down.level < lv.level)
                && IndexHangs(g, down))
  }
}
