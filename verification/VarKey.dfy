/** Variable-length GiST keys over byte strings: bounds that are cut to the common prefix and two
    bytes, and searches that must still reach every leaf. */
module VarKey {
  import opened Wrappers
  import opened Lexicographic

  datatype Key = Key(lower: Bytes, upper: Bytes)

  /** The key of a leaf value. */
  function Exactly(v: Bytes): Key { Key(v, v) }

  // ----- what a key promises -----

  /** `v` lies between the bounds as they are. */
  predicate Holds(k: Key, v: Bytes) { Leq(k.lower, v) && Leq(v, k.upper) }

  /** The upper bound is long enough to have been cut. */
  predicate Cuttable(k: Key) { |k.upper| >= Common(k.lower, k.upper) + 2 }

  /** `v` lies between the bounds, or it extends an upper bound that may have been cut. */
  predicate Covers(k: Key, v: Bytes)
  {
    Leq(k.lower, v) && (Leq(v, k.upper) || (k.upper <= v && Cuttable(k)))
  }

  // ----- union -----

  /** The wider of two keys on each side. */
  function Wider(u: Key, e: Key): Key
  {
    Key(if Less(e.lower, u.lower) then e.lower else u.lower,
        if Less(u.upper, e.upper) then e.upper else u.upper)
  }

  function Hull(keys: seq<Key>): Key
    requires keys != []
  {
    if |keys| == 1 then keys[0] else Wider(Hull(keys[..|keys| - 1]), keys[|keys| - 1])
  }

  function CutKey(k: Key, n: nat): Key { Key(Cut(k.lower, n), Cut(k.upper, n)) }

  /** The union as it is stored. */
  function UnionOf(keys: seq<Key>): Key
    requires keys != []
  {
    var h := Hull(keys);
    CutKey(h, Common(h.lower, h.upper) + 2)
  }

  lemma WiderBounds(u: Key, e: Key)
    ensures Leq(Wider(u, e).lower, u.lower) && Leq(Wider(u, e).lower, e.lower)
    ensures Leq(u.upper, Wider(u, e).upper) && Leq(e.upper, Wider(u, e).upper)
  {
    LessTotal(u.lower, u.lower);
    LessTotal(u.upper, u.upper);
    LessTotal(e.lower, e.lower);
    LessTotal(e.upper, e.upper);
    LessTotal(e.lower, u.lower);
    LessTotal(u.upper, e.upper);
  }

  /** The hull is bounded by the least lower and the greatest upper bound. */
  lemma {:induction false} HullBounds(keys: seq<Key>, i: nat)
    requires i < |keys|
    ensures Leq(Hull(keys).lower, keys[i].lower) && Leq(keys[i].upper, Hull(keys).upper)
  {
    var n := |keys| - 1;
    if n == 0 {
      WiderBounds(keys[0], keys[0]);
    } else {
      var h, e := Hull(keys[..n]), keys[n];
      WiderBounds(h, e);
      if i < n {
        HullBounds(keys[..n], i);
        LeqTransitive(Hull(keys).lower, h.lower, keys[i].lower);
        LeqTransitive(keys[i].upper, h.upper, Hull(keys).upper);
      }
    }
  }

  /** Cutting both bounds keeps everything between them. */
  lemma CutCovers(h: Key, n: nat, v: Bytes)
    requires Holds(h, v) && n >= Common(h.lower, h.upper) + 2
    ensures Covers(CutKey(h, n), v)
  {
    var k := CutKey(h, n);
    PrefixLeq(k.lower, h.lower);
    LeqTransitive(k.lower, h.lower, v);
    CommonCut(h.lower, h.upper, n);
    if !Leq(v, k.upper) {
      LessTotal(k.upper, v);
      BetweenPrefix(k.upper, v, h.upper);
    }
  }

  /** A key that may have been cut, with a wider hull around it whose upper bound is below `v`: the
      hull's bounds part before the second last byte of the key's upper bound. */
  lemma CutInside(e: Key, h: Key, v: Bytes)
    requires e.upper <= v && Cuttable(e) && Leq(e.lower, v)
    requires Leq(h.lower, e.lower) && Leq(e.upper, h.upper) && Less(h.upper, v)
    ensures e.upper <= h.upper && Common(h.lower, h.upper) + 2 <= |e.upper|
  {
    LessTotal(h.upper, v);
    BetweenPrefix(e.upper, h.upper, v);
    if Less(h.upper, e.lower) {
      LessTotal(h.upper, e.lower);
      LeqTransitive(e.upper, h.upper, e.lower);
      BetweenPrefix(e.upper, e.lower, v);
      CommonUnique(e.lower, e.upper, |e.upper|);
    }
    CommonExtend(e.lower, e.upper, h.upper);
    CommonOuter(h.lower, e.lower, h.upper);
  }

  /** Values beyond the cut bound of one key stay covered when its hull is cut. */
  lemma CutCoversCut(e: Key, h: Key, v: Bytes)
    requires e.upper <= v && Cuttable(e) && Leq(e.lower, v)
    requires Leq(h.lower, e.lower) && Leq(e.upper, h.upper) && Less(h.upper, v)
    ensures Covers(CutKey(h, Common(h.lower, h.upper) + 2), v)
  {
    var n := Common(h.lower, h.upper) + 2;
    var k := CutKey(h, n);
    CutInside(e, h, v);
    CommonCut(h.lower, h.upper, n);
    assert k.upper == e.upper[..n] == v[..n];
    PrefixLeq(k.lower, h.lower);
    LeqTransitive(k.lower, h.lower, e.lower);
    LeqTransitive(k.lower, e.lower, v);
  }

  /** The stored union covers whatever one of its parts covers, however often those were cut. */
  lemma UnionCovers(keys: seq<Key>, i: nat, v: Bytes)
    requires i < |keys| && Covers(keys[i], v)
    ensures Covers(UnionOf(keys), v)
  {
    var h := Hull(keys);
    HullBounds(keys, i);
    LeqTransitive(h.lower, keys[i].lower, v);
    if Leq(v, keys[i].upper) {
      LeqTransitive(v, keys[i].upper, h.upper);
    }
    if Leq(v, h.upper) {
      CutCovers(h, Common(h.lower, h.upper) + 2, v);
    } else {
      CutCoversCut(keys[i], h, v);
    }
  }

  // ----- search -----

  /** The operators of the operator class; others are answered with false. */
  datatype Strategy = Lt | LtEq | Eq | GtEq | Gt | NotEq | Other

  /** The row value `v` satisfies `v op q`. */
  predicate Satisfies(s: Strategy, v: Bytes, q: Bytes)
  {
    match s
    case Lt => Less(v, q)
    case LtEq => Leq(v, q)
    case Eq => v == q
    case GtEq => Leq(q, v)
    case Gt => Less(q, v)
    case NotEq => v != q
    case Other => false
  }

  /** A bound is a prefix of the query. */
  predicate PrefixMatch(k: Key, q: Bytes) { k.lower <= q || k.upper <= q }

  predicate Consistent(k: Key, q: Bytes, s: Strategy, leaf: bool)
  {
    match s
    case LtEq => if leaf then Leq(k.lower, q) else Leq(k.lower, q) || PrefixMatch(k, q)
    case Lt => if leaf then Less(k.lower, q) else Leq(k.lower, q) || PrefixMatch(k, q)
    case Eq => if leaf then q == k.lower else (Leq(k.lower, q) && Leq(q, k.upper)) || PrefixMatch(k, q)
    case Gt => if leaf then Less(q, k.upper) else Leq(q, k.upper) || PrefixMatch(k, q)
    case GtEq => if leaf then Leq(q, k.upper) else Leq(q, k.upper) || PrefixMatch(k, q)
    case NotEq => !(q == k.lower && q == k.upper)
    case Other => false
  }

  /** An internal key is followed whenever some value it covers satisfies the operator. */
  lemma ConsistentFollows(k: Key, q: Bytes, s: Strategy, v: Bytes)
    requires Covers(k, v) && Satisfies(s, v, q)
    ensures Consistent(k, q, s, false)
  {
    match s
    case Lt => LessLeqTransitive(k.lower, v, q); LessTotal(k.lower, q);
    case LtEq => LeqTransitive(k.lower, v, q);
    case Eq =>
    case GtEq => UpperReaches(k, q, v);
    case Gt => LessTotal(q, v); UpperReaches(k, q, v);
    case NotEq =>
      if q == k.lower && q == k.upper {
        CommonUnique(q, q, |q|);
        LessTotal(v, q);
      }
    case Other =>
  }

  lemma UpperReaches(k: Key, q: Bytes, v: Bytes)
    requires Covers(k, v) && Leq(q, v)
    ensures Leq(q, k.upper) || k.upper <= q
  {
    if Leq(v, k.upper) {
      LeqTransitive(q, v, k.upper);
    } else if !Leq(q, k.upper) {
      LessTotal(k.upper, q);
      BetweenPrefix(k.upper, q, v);
    }
  }

  /** `v` lies between the bounds or extends the upper one, cut or not. */
  predicate Admits(k: Key, v: Bytes) { Leq(k.lower, v) && (Leq(v, k.upper) || k.upper <= v) }

  lemma BoundsAdmitted(k: Key)
    requires Leq(k.lower, k.upper)
    ensures Admits(k, k.lower) && Admits(k, k.upper) && Holds(k, k.lower) && Holds(k, k.upper)
  {
    LessTotal(k.lower, k.lower);
    LessTotal(k.upper, k.upper);
  }

  lemma BelowAdmitted(k: Key, q: Bytes)
    requires Leq(k.lower, k.upper)
    ensures Leq(k.lower, q) <==> exists v: Bytes :: Admits(k, v) && Leq(v, q)
    ensures PrefixMatch(k, q) ==> Leq(k.lower, q)
  {
    BoundsAdmitted(k);
    if v: Bytes :| Admits(k, v) && Leq(v, q) {
      LeqTransitive(k.lower, v, q);
    }
    if k.lower <= q {
      PrefixLeq(k.lower, q);
    }
    if k.upper <= q {
      PrefixLeq(k.upper, q);
      LeqTransitive(k.lower, k.upper, q);
    }
  }

  lemma AboveAdmitted(k: Key, q: Bytes)
    requires Leq(k.lower, k.upper)
    ensures Leq(q, k.upper) || k.upper <= q <==> exists v: Bytes :: Admits(k, v) && Leq(q, v)
  {
    BoundsAdmitted(k);
    if k.upper <= q {
      PrefixLeq(k.upper, q);
      LeqTransitive(k.lower, k.upper, q);
      LessTotal(q, q);
      assert Admits(k, q);
    }
    if v: Bytes :| Admits(k, v) && Leq(q, v) {
      if Leq(v, k.upper) {
        LeqTransitive(q, v, k.upper);
      } else if !Leq(q, k.upper) {
        LessTotal(k.upper, q);
        BetweenPrefix(k.upper, q, v);
      }
    }
  }

  /** An internal key is followed exactly if it admits a value on the right side of the query, the query itself
      for equality, another value for inequality; and, unless values below are sought, wherever the query
      extends its lower bound. */
  lemma ConsistentExact(k: Key, q: Bytes)
    requires Leq(k.lower, k.upper)
    ensures Consistent(k, q, LtEq, false) <==> exists v: Bytes :: Admits(k, v) && Leq(v, q)
    ensures Consistent(k, q, Lt, false) <==> exists v: Bytes :: Admits(k, v) && Leq(v, q)
    ensures Consistent(k, q, Eq, false) <==> Admits(k, q) || k.lower <= q
    ensures Consistent(k, q, GtEq, false) <==> k.lower <= q || exists v: Bytes :: Admits(k, v) && Leq(q, v)
    ensures Consistent(k, q, Gt, false) <==> k.lower <= q || exists v: Bytes :: Admits(k, v) && Leq(q, v)
    ensures Consistent(k, q, NotEq, false) <==> exists v: Bytes :: Holds(k, v) && v != q
    ensures !Consistent(k, q, Other, false)
  {
    BoundsAdmitted(k);
    BelowAdmitted(k, q);
    AboveAdmitted(k, q);
    OnlyOne(k, q);
  }

  lemma OnlyOne(k: Key, q: Bytes)
    requires Leq(k.lower, k.upper)
    ensures q == k.lower == k.upper <==> forall v: Bytes :: Holds(k, v) ==> v == q
  {
    BoundsAdmitted(k);
    forall v: Bytes | q == k.lower == k.upper && Holds(k, v) ensures v == q {
      LessTotal(v, q);
    }
    assert Holds(k, k.lower) && Holds(k, k.upper);
  }

  // ----- how far a cut may go -----

  /** The upper bound of `k` properly extends that of `e`, and not by bytes 255 alone. */
  predicate Overhangs(e: Key, k: Key)
  {
    e.upper <= k.upper && k.upper[|e.upper|..] != Fill(255, |k.upper| - |e.upper|)
  }

  /** A value that `e` admits and that an overhanging key does not. */
  lemma OverhangLoses(e: Key, k: Key) returns (v: Bytes)
    requires Leq(e.lower, e.upper) && Overhangs(e, k)
    ensures e.upper <= v && Leq(e.lower, v) && !Admits(k, v)
  {
    var rest := k.upper[|e.upper|..];
    v := e.upper + seq(|rest|, _ => 255);
    assert v == e.upper + Fill(255, |rest|) && k.upper == e.upper + rest;
    PrefixLeq(e.upper, v);
    LeqTransitive(e.lower, e.upper, v);
    FillGreatest(255, |rest|, rest);
    LessTail(e.upper, rest, Fill(255, |rest|));
    LessTotal(k.upper, v);
  }

  lemma HangingAdmits(e: Key, k: Key, v: Bytes)
    requires e.upper <= k.upper && e.upper <= v && !Overhangs(e, k) && Less(k.upper, v)
    ensures k.upper <= v
  {
    var n, w := |k.upper| - |e.upper|, v[|e.upper|..];
    assert k.upper == e.upper + Fill(255, n) && v == e.upper + w;
    LessTail(e.upper, Fill(255, n), w);
    FillGreatest(255, n, w);
  }

  /** A key `e` inside a hull that is cut to `n` bytes: a value it admits stays admitted, unless the
      cut key overhangs. */
  lemma CutAdmits(e: Key, h: Key, n: nat, v: Bytes)
    requires Leq(h.lower, e.lower) && Leq(e.upper, h.upper)
    requires Admits(e, v) && !Overhangs(e, CutKey(h, n))
    ensures Admits(CutKey(h, n), v)
  {
    var k := CutKey(h, n);
    PrefixLeq(k.lower, h.lower);
    LeqTransitive(k.lower, h.lower, e.lower);
    LeqTransitive(k.lower, e.lower, v);
    if Leq(v, e.upper) {
      LeqTransitive(v, e.upper, h.upper);
    }
    if !Leq(v, k.upper) {
      LessTotal(k.upper, v);
      if Leq(v, h.upper) {
        BetweenPrefix(k.upper, v, h.upper);
      } else {
        LessTotal(h.upper, v);
        BetweenPrefix(e.upper, h.upper, v);
        if |e.upper| < |k.upper| {
          assert e.upper <= k.upper;
          HangingAdmits(e, k, v);
        } else {
          assert k.upper == h.upper[..|k.upper|] == e.upper[..|k.upper|];
        }
      }
    }
  }

  /** Bounds cut to `n` bytes admit everything that a key inside them admits if and only if they do
      not overhang it. */
  lemma CutAdmitsIff(e: Key, h: Key, n: nat)
    requires Leq(e.lower, e.upper) && Leq(h.lower, e.lower) && Leq(e.upper, h.upper)
    ensures (forall v :: Admits(e, v) ==> Admits(CutKey(h, n), v)) <==> !Overhangs(e, CutKey(h, n))
  {
    if Overhangs(e, CutKey(h, n)) {
      var v := OverhangLoses(e, CutKey(h, n));
      assert Admits(e, v);
    } else {
      forall v | Admits(e, v) ensures Admits(CutKey(h, n), v) {
        CutAdmits(e, h, n, v);
      }
    }
  }

  /** A half of a split is cut at least as far out as a union would be. It covers everything that an
      already cut entry of it covers if and only if it does not overhang that entry. */
  lemma SplitCoversIff(e: Key, h: Key, n: nat)
    requires Leq(e.lower, e.upper) && Cuttable(e)
    requires Leq(h.lower, e.lower) && Leq(e.upper, h.upper) && n >= Common(h.lower, h.upper) + 2
    ensures (forall v: Bytes :: Covers(e, v) ==> Covers(CutKey(h, n), v)) <==> !Overhangs(e, CutKey(h, n))
  {
    if Overhangs(e, CutKey(h, n)) {
      var v := OverhangLoses(e, CutKey(h, n));
      assert Covers(e, v);
    } else {
      forall v: Bytes | Covers(e, v) ensures Covers(CutKey(h, n), v) {
        CutAdmits(e, h, n, v);
        CommonCut(h.lower, h.upper, n);
        if Less(h.upper, v) && !Leq(v, e.upper) {
          CutInside(e, h, v);
        } else if Leq(v, e.upper) {
          LeqTransitive(v, e.upper, h.upper);
        }
      }
    }
  }

  // ----- the loops -----

  /** The length of the common prefix of the two bounds. */
  method CommonPrefixLength(k: Key) returns (n: nat)
    ensures n == Common(k.lower, k.upper)
  {
    var ml := if |k.lower| < |k.upper| then |k.lower| else |k.upper|;
    n := 0;
    while n < ml
      invariant n <= ml && k.lower[..n] == k.upper[..n]
    {
      if k.lower[n] != k.upper[n] {
        break;
      }
      n := n + 1;
    }
    CommonUnique(k.lower, k.upper, n);
  }

  method Union(keys: seq<Key>) returns (out: Key)
    requires keys != []
    ensures out == UnionOf(keys)
    ensures forall i, v :: 0 <= i < |keys| && Covers(keys[i], v) ==> Covers(out, v)
  {
    out := keys[0];
    assert keys[..1] == [keys[0]];
    var i := 1;
    while i < |keys|
      invariant 1 <= i <= |keys| && out == Hull(keys[..i])
    {
      out := Wider(out, keys[i]);
      assert keys[..i + 1][..i] == keys[..i];
      i := i + 1;
    }
    assert keys[..|keys|] == keys;
    var plen := CommonPrefixLength(out);
    out := CutKey(out, plen + 2);
    forall i, v | 0 <= i < |keys| && Covers(keys[i], v) ensures Covers(out, v) {
      UnionCovers(keys, i, v);
    }
  }

  predicate Names(order: seq<nat>, keys: seq<Key>) { forall i :: 0 <= i < |order| ==> order[i] < |keys| }

  /** The keys named by `order`. */
  function Pick(keys: seq<Key>, order: seq<nat>): seq<Key>
    requires Names(order, keys)
  {
    seq(|order|, i requires 0 <= i < |order| => keys[order[i]])
  }

  function Max(a: int, b: int): int { if a < b then b else a }

  method HullLoop(keys: seq<Key>) returns (u: Key)
    requires keys != []
    ensures u == Hull(keys)
  {
    var datum: Option<Key> := None;
    var i := 0;
    while i < |keys|
      invariant 0 <= i <= |keys|
      invariant datum == if i == 0 then None else Some(Hull(keys[..i]))
    {
      datum := Some(if datum.Some? then Wider(datum.value, keys[i]) else keys[i]);
      assert keys[..i + 1][..i] == keys[..i];
      i := i + 1;
    }
    assert keys[..|keys|] == keys;
    u := datum.value;
  }

  /** The keys of the two halves: both are cut at the longer of their common prefixes. */
  function SplitKeys(left: seq<Key>, right: seq<Key>): (Key, Key)
    requires left != [] && right != []
  {
    var hl, hr := Hull(left), Hull(right);
    var n := Max(Common(hl.lower, hl.upper), Common(hr.lower, hr.upper)) + 2;
    (CutKey(hl, n), CutKey(hr, n))
  }

  /** The order that entries are sorted by: lower bounds first, then upper bounds. */
  predicate NotAbove(a: Key, b: Key)
  {
    Less(a.lower, b.lower) || (a.lower == b.lower && Leq(a.upper, b.upper))
  }

  /** `order` is the outcome of a sort: it names every entry once, in ascending order. */
  predicate SortedInto(keys: seq<Key>, order: seq<nat>)
  {
    && |order| == |keys| && Names(order, keys)
    && (forall i, j :: 0 <= i < j < |order| ==> order[i] != order[j])
    && forall i, j :: 0 <= i < j < |order| ==> NotAbove(keys[order[i]], keys[order[j]])
  }

  /** Splits the entries, sorted into `order`, in the middle: each entry goes to exactly one half, no half is
      empty, and no entry of the left half is above one of the right half. */
  method PickSplit(keys: seq<Key>, order: seq<nat>) returns (left: seq<nat>, right: seq<nat>, l: Key, r: Key)
    requires |keys| >= 2 && SortedInto(keys, order)
    ensures left + right == order && |left| == |keys| / 2 && left != [] && right != []
    ensures Names(left, keys) && Names(right, keys)
    ensures forall i, j :: 0 <= i < |left| && 0 <= j < |right| ==> NotAbove(keys[left[i]], keys[right[j]])
    ensures (l, r) == SplitKeys(Pick(keys, left), Pick(keys, right))
  {
    var half := |keys| / 2;
    left, right := order[..half], order[half..];
    forall i, j | 0 <= i < |left| && 0 <= j < |right| ensures NotAbove(keys[left[i]], keys[right[j]]) {
      assert order[i] == left[i] && order[half + j] == right[j];
    }
    l, r := CutHalves(Pick(keys, left), Pick(keys, right));
  }

  lemma {:induction false} HullReached(keys: seq<Key>) returns (i: nat, j: nat)
    requires keys != []
    ensures i < |keys| && Hull(keys).lower == keys[i].lower
    ensures j < |keys| && Hull(keys).upper == keys[j].upper
  {
    var n := |keys| - 1;
    i, j := n, n;
    if n > 0 {
      var a, b := HullReached(keys[..n]);
      if Hull(keys).lower != keys[n].lower {
        i := a;
      }
      if Hull(keys).upper != keys[n].upper {
        j := b;
      }
    }
  }

  /** The stored bounds of a union begin bounds of its parts; each is that bound, or it ends one byte after the
      first byte in which the two differ. */
  lemma UnionBounds(keys: seq<Key>) returns (i: nat, j: nat)
    requires keys != []
    ensures i < |keys| && j < |keys|
    ensures var k := UnionOf(keys); var n := Common(k.lower, k.upper) + 2;
      && k.lower <= keys[i].lower && (|k.lower| == n || (|k.lower| < n && k.lower == keys[i].lower))
      && k.upper <= keys[j].upper && (|k.upper| == n || (|k.upper| < n && k.upper == keys[j].upper))
    ensures forall m :: 0 <= m < |keys| ==> Leq(keys[i].lower, keys[m].lower) && Leq(keys[m].upper, keys[j].upper)
  {
    i, j := HullReached(keys);
    var h := Hull(keys);
    CommonCut(h.lower, h.upper, Common(h.lower, h.upper) + 2);
    forall m | 0 <= m < |keys| ensures Leq(h.lower, keys[m].lower) && Leq(keys[m].upper, h.upper) {
      HullBounds(keys, m);
    }
  }

  /** The halves of a split of leaf entries do not overlap but for a value at both edges. */
  lemma SplitSeparates(left: seq<Key>, right: seq<Key>)
    requires left != [] && right != []
    requires forall i :: 0 <= i < |left| ==> left[i].lower == left[i].upper
    requires forall i, j :: 0 <= i < |left| && 0 <= j < |right| ==> NotAbove(left[i], right[j])
    ensures Leq(Hull(left).upper, Hull(right).lower)
  {
    var _, i := HullReached(left);
    var j, _ := HullReached(right);
    assert NotAbove(left[i], right[j]);
    LessTotal(left[i].lower, right[j].lower);
  }

  method CutHalves(left: seq<Key>, right: seq<Key>) returns (l: Key, r: Key)
    requires left != [] && right != []
    ensures (l, r) == SplitKeys(left, right)
  {
    var hl := HullLoop(left);
    var hr := HullLoop(right);
    var ll := CommonPrefixLength(hl);
    var lr := CommonPrefixLength(hr);
    var n := Max(ll, lr) + 2;
    l, r := CutKey(hl, n), CutKey(hr, n);
  }

  /** A half covers every value between the exact bounds of its entries. */
  lemma SplitCovers(left: seq<Key>, right: seq<Key>, i: nat, v: Bytes)
    requires left != [] && right != []
    ensures i < |left| && Holds(left[i], v) ==> Covers(SplitKeys(left, right).0, v)
    ensures i < |right| && Holds(right[i], v) ==> Covers(SplitKeys(left, right).1, v)
  {
    var hl, hr := Hull(left), Hull(right);
    var n := Max(Common(hl.lower, hl.upper), Common(hr.lower, hr.upper)) + 2;
    if i < |left| && Holds(left[i], v) {
      HalfCovers(left, i, n, v);
    }
    if i < |right| && Holds(right[i], v) {
      HalfCovers(right, i, n, v);
    }
  }

  /** A half covers everything that an already cut entry of it covers if and only if its key does not
      overhang that entry. */
  lemma SplitKeepsEntryIff(left: seq<Key>, right: seq<Key>, i: nat)
    requires left != [] && right != []
    ensures i < |left| && Leq(left[i].lower, left[i].upper) && Cuttable(left[i]) ==>
      var k := SplitKeys(left, right).0;
      (forall v: Bytes :: Covers(left[i], v) ==> Covers(k, v)) <==> !Overhangs(left[i], k)
    ensures i < |right| && Leq(right[i].lower, right[i].upper) && Cuttable(right[i]) ==>
      var k := SplitKeys(left, right).1;
      (forall v: Bytes :: Covers(right[i], v) ==> Covers(k, v)) <==> !Overhangs(right[i], k)
  {
    var hl, hr := Hull(left), Hull(right);
    var n := Max(Common(hl.lower, hl.upper), Common(hr.lower, hr.upper)) + 2;
    if i < |left| && Leq(left[i].lower, left[i].upper) && Cuttable(left[i]) {
      HullBounds(left, i);
      SplitCoversIff(left[i], hl, n);
    }
    if i < |right| && Leq(right[i].lower, right[i].upper) && Cuttable(right[i]) {
      HullBounds(right, i);
      SplitCoversIff(right[i], hr, n);
    }
  }

  lemma HalfCovers(keys: seq<Key>, i: nat, n: nat, v: Bytes)
    requires i < |keys| && Holds(keys[i], v) && n >= Common(Hull(keys).lower, Hull(keys).upper) + 2
    ensures Covers(CutKey(Hull(keys), n), v)
  {
    var h := Hull(keys);
    HullBounds(keys, i);
    LeqTransitive(h.lower, keys[i].lower, v);
    LeqTransitive(v, keys[i].upper, h.upper);
    CutCovers(h, n, v);
  }

  // ----- trees -----

  datatype Tree = Leaf(value: Bytes) | Node(key: Key, children: seq<Tree>)
  {
    function KeyOf(): Key { if Leaf? then Exactly(value) else key }
  }

  /** `v` is a leaf value of `t`. */
  predicate Below(v: Bytes, t: Tree)
  {
    match t
    case Leaf(x) => v == x
    case Node(_, cs) => exists i :: 0 <= i < |cs| && Below(v, cs[i])
  }

  /** Every internal key covers all leaf values below it. */
  ghost predicate WellKeyed(t: Tree)
  {
    t.Node? ==>
      && (forall v :: Below(v, t) ==> Covers(t.key, v))
      && forall i :: 0 <= i < |t.children| ==> WellKeyed(t.children[i])
  }

  /** `v` is found by a search that goes down only where a key is consistent. */
  predicate Found(v: Bytes, t: Tree, q: Bytes, s: Strategy)
  {
    && Consistent(t.KeyOf(), q, s, t.Leaf?)
    && match t
       case Leaf(x) => v == x
       case Node(_, cs) => exists i :: 0 <= i < |cs| && Found(v, cs[i], q, s)
  }

  /** A search of a well keyed tree, however deep, finds exactly the leaf values that satisfy the
      operator. */
  lemma {:induction false} SearchExact(v: Bytes, t: Tree, q: Bytes, s: Strategy)
    requires WellKeyed(t)
    ensures Found(v, t, q, s) <==> Below(v, t) && Satisfies(s, v, q)
  {
    match t
    case Leaf(x) => LessTotal(x, q);
    case Node(k, cs) =>
      forall i | 0 <= i < |cs| ensures Found(v, cs[i], q, s) <==> Below(v, cs[i]) && Satisfies(s, v, q) {
        SearchExact(v, cs[i], q, s);
      }
      if Below(v, t) && Satisfies(s, v, q) {
        ConsistentFollows(k, q, s, v);
      }
  }

  function KeysOf(ts: seq<Tree>): seq<Key> { seq(|ts|, i requires 0 <= i < |ts| => ts[i].KeyOf()) }

  lemma KeyCovers(t: Tree, v: Bytes)
    requires WellKeyed(t) && Below(v, t)
    ensures Covers(t.KeyOf(), v)
  {
    LessTotal(v, v);
  }

  /** A node over well keyed trees is well keyed with the union of their keys. */
  lemma UnionKeepsKeys(ts: seq<Tree>)
    requires ts != [] && forall i :: 0 <= i < |ts| ==> WellKeyed(ts[i])
    ensures WellKeyed(Node(UnionOf(KeysOf(ts)), ts))
  {
    var t := Node(UnionOf(KeysOf(ts)), ts);
    forall v | Below(v, t) ensures Covers(t.key, v) {
      var i :| 0 <= i < |ts| && Below(v, ts[i]);
      KeyCovers(ts[i], v);
      UnionCovers(KeysOf(ts), i, v);
    }
  }

  /** So is a node that takes in one more child and widens its key by the child's. */
  lemma InsertKeepsKeys(t: Tree, c: Tree)
    requires t.Node? && WellKeyed(t) && WellKeyed(c)
    ensures WellKeyed(Node(UnionOf([t.key, c.KeyOf()]), t.children + [c]))
  {
    var keys, ts := [t.key, c.KeyOf()], t.children + [c];
    var t' := Node(UnionOf(keys), ts);
    forall v | Below(v, t') ensures Covers(t'.key, v) {
      var i :| 0 <= i < |ts| && Below(v, ts[i]);
      if i < |t.children| {
        assert Below(v, t);
        UnionCovers(keys, 0, v);
      } else {
        KeyCovers(c, v);
        UnionCovers(keys, 1, v);
      }
    }
  }

  // ----- where the promises end -----

  lemma HullOfTwo(x: Key, y: Key)
    ensures Hull([x, y]) == Wider(x, y)
  {
    assert [x, y][..1] == [x];
  }

  /** The union of the leaves "aa" and "abzz". */
  lemma CutUnion()
    ensures UnionOf([Exactly([97, 97]), Exactly([97, 98, 122, 122])]) == Key([97, 97], [97, 98, 122])
  {
    HullOfTwo(Exactly([97, 97]), Exactly([97, 98, 122, 122]));
    LessAt([97, 97], [97, 98, 122, 122], 1);
    CommonUnique([97, 97], [97, 98, 122, 122], 1);
  }

  /** The half with that union and the leaf "abzc", against a half with two leaves "zzzz". */
  lemma OverhangingHalf()
    ensures SplitKeys([Key([97, 97], [97, 98, 122]), Exactly([97, 98, 122, 99])],
                      [Exactly([122, 122, 122, 122]), Exactly([122, 122, 122, 122])]).0
            == Key([97, 97], [97, 98, 122, 99])
  {
    var zs: Bytes := [122, 122, 122, 122];
    HullOfTwo(Key([97, 97], [97, 98, 122]), Exactly([97, 98, 122, 99]));
    LessAt([97, 97], [97, 98, 122, 99], 1);
    PrefixLess([97, 98, 122], [97, 98, 122, 99]);
    CommonUnique([97, 97], [97, 98, 122, 99], 1);
    HullOfTwo(Exactly(zs), Exactly(zs));
    LessTotal(zs, zs);
    CommonUnique(zs, zs, 4);
  }

  /** Two leaves give the key ("aa", "abz"), which stands for "abzz" too. Next to the leaf "abzc", and
      split from leaves with a long common prefix, its half ends at "abzc": a search for "abzz" does
      not go there any more. */
  lemma SplitLosesLeaf()
    ensures var first := UnionOf([Exactly([97, 97]), Exactly([97, 98, 122, 122])]);
      var left := SplitKeys([first, Exactly([97, 98, 122, 99])],
                            [Exactly([122, 122, 122, 122]), Exactly([122, 122, 122, 122])]).0;
      && Covers(first, [97, 98, 122, 122])
      && Overhangs(first, left)
      && !Covers(left, [97, 98, 122, 122])
      && !Consistent(left, [97, 98, 122, 122], Eq, false)
  {
    CutUnion();
    OverhangingHalf();
    LessAt([97, 97], [97, 98, 122, 122], 1);
    LessAt([97, 98, 122, 99], [97, 98, 122, 122], 3);
    CommonUnique([97, 97], [97, 98, 122], 1);
  }

  /** A bound that could not have been cut promises less: the keys ("", "a") and ("ab", "ab") admit
      "az" and "ab", their union ("", "ab") does not admit "az". */
  lemma UnionAdmitsLess()
    ensures Admits(Key([], [97]), [97, 122])
    ensures !Admits(UnionOf([Key([], [97]), Exactly([97, 98])]), [97, 122])
  {
    HullOfTwo(Key([], [97]), Exactly([97, 98]));
    PrefixLess([97], [97, 98]);
    PrefixLess([], [97, 98]);
    LessAt([97, 98], [97, 122], 1);
  }
}
