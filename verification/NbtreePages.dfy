/** Pages of a B-tree index as the checker sees them: an arbitrary, possibly corrupt,
    finite graph of blocks, and the order on the keys stored in them. */
module NbtreePages {
  import opened Wrappers
  import opened Lexicographic

  /** The block number that stands for "no sibling"; it is also the metapage's own block. */
  const P_NONE: nat := 0

  const INVALID_BLOCK: nat := 0xFFFF_FFFF

  const P_HIKEY: nat := 1

  /** The attributes of a tuple that take part in comparisons, the heap TID last.
      A pivot tuple with truncated attributes is simply shorter. */
  type Key = seq<int>

  /** `link` is the block number inside the tuple's item pointer: the downlink of a data item
      on an internal page, or the top-parent link in the high key of a half-dead leaf. */
  datatype Item = Item(key: Key, link: nat)

  datatype Page = Page(
    leaf: bool, root: bool, deleted: bool, meta: bool, halfDead: bool,
    garbage: bool, incompleteSplit: bool, fullXid: bool,
    level: nat, prev: nat, next: nat, items: seq<Item>)
  {
    predicate Rightmost() { next == P_NONE }

    predicate Ignorable() { deleted || halfDead }

    function FirstData(): nat { if Rightmost() then P_HIKEY else P_HIKEY + 1 }

    /** The first data item of an internal page, which counts as minus infinity. */
    predicate NegativeInfinity(off: nat) { !leaf && off == FirstData() }

    predicate Has(off: nat) { 1 <= off <= |items| }

    function At(off: nat): Item
      requires Has(off)
    {
      items[off - 1]
    }

    /** The first offset that holds an item with a key of its own. */
    function FirstReal(): nat { if leaf then FirstData() else FirstData() + 1 }

    /** `off` holds a real item: a data item that is not minus infinity. */
    predicate Real(off: nat) { FirstReal() <= off <= |items| }

    function FirstRealKey(): Option<Key>
    {
      if Real(FirstReal()) then Some(At(FirstReal()).key) else None
    }
  }

  type Graph = map<nat, Page>

  /** The tests that every page read by the checker has to pass. */
  predicate Sane(b: nat, p: Page)
  {
    if b == P_NONE then p.meta else
    && !p.meta
    && (!p.deleted || p.fullXid ==> (p.leaf <==> p.level == 0))
    && (!p.leaf && !p.deleted ==> p.Has(p.FirstData()))
    && (p.leaf && !p.deleted && !p.Rightmost() ==> p.Has(P_HIKEY))
    && (!p.leaf ==> !p.halfDead && !p.garbage)
    && (p.fullXid ==> p.deleted)
    && !(p.deleted && p.halfDead)
  }

  predicate Loads(g: Graph, b: nat) { b in g && Sane(b, g[b]) }

  // ----- key order -----

  /** What a pivot search compares: the attributes both sides have; a tie is broken only when the
      search key has attributes left that the tuple lacks. */
  function Compare(key: Key, tuple: Key): int
  {
    if key == [] then 0
    else if tuple == [] then 1
    else if key[0] < tuple[0] then -1
    else if key[0] > tuple[0] then 1
    else Compare(key[1..], tuple[1..])
  }

  /** Strictly less, with the extra step for attributes that the search key lacks. */
  predicate InvariantL(key: Key, tuple: Key)
  {
    var cmp := Compare(key, tuple);
    if cmp == 0 then |key| < |tuple| else cmp < 0
  }

  predicate InvariantLeq(key: Key, tuple: Key) { Compare(key, tuple) <= 0 }

  predicate InvariantG(key: Key, tuple: Key) { Compare(key, tuple) > 0 }

  /** The three tests decide exactly the lexicographic order in which a missing attribute is minus
      infinity, truncated keys included. */
  lemma {:induction false} InvariantsDecideOrder(key: Key, tuple: Key)
    ensures InvariantL(key, tuple) <==> Less(key, tuple)
    ensures InvariantG(key, tuple) <==> Less(tuple, key)
    ensures InvariantLeq(key, tuple) <==> !Less(tuple, key)
  {
    if key != [] && tuple != [] && key[0] == tuple[0] {
      InvariantsDecideOrder(key[1..], tuple[1..]);
    }
  }

  // ----- links -----

  function NextOf(g: Graph): nat -> nat { b => if b in g then g[b].next else P_NONE }

  function PrevOf(g: Graph): nat -> nat { b => if b in g then g[b].prev else P_NONE }

  function FirstLinkOf(g: Graph): nat -> nat
  {
    b => if b in g && g[b].Has(g[b].FirstData()) then g[b].At(g[b].FirstData()).link else P_NONE
  }
}
