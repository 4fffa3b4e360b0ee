/** An hstore as a sequence of pairs in key order, and its operations as merges of such sequences. */
module HstorePairs {
  import opened Wrappers
  import opened Lexicographic

  /** A null value is None. */
  datatype Pair = Pair(key: Bytes, val: Option<Bytes>)

  /** Keys are ordered by length first, then by bytes. */
  predicate KeyLess(a: Bytes, b: Bytes) { |a| < |b| || (|a| == |b| && Less(a, b)) }

  lemma KeyLessTotal(a: Bytes, b: Bytes)
    ensures !(KeyLess(a, b) && KeyLess(b, a))
    ensures a == b <==> !KeyLess(a, b) && !KeyLess(b, a)
  {
    LessTotal(a, b);
  }

  lemma KeyLessTransitive(a: Bytes, b: Bytes, c: Bytes)
    requires KeyLess(a, b) && KeyLess(b, c)
    ensures KeyLess(a, c)
  {
    if |a| == |b| == |c| {
      LessTransitive(a, b, c);
    }
  }

  /** The comparison that every search and merge uses. */
  function Difference(a: Bytes, b: Bytes): (d: int)
    ensures d < 0 <==> KeyLess(a, b)
    ensures d == 0 <==> a == b
    ensures d > 0 <==> KeyLess(b, a)
  {
    KeyLessTotal(a, b);
    if |a| == |b| then if Less(a, b) then -1 else if Less(b, a) then 1 else 0
    else if |a| > |b| then 1 else -1
  }

  /** Every key of `ps` is above `k`. */
  predicate Above(k: Bytes, ps: seq<Pair>) { forall i :: 0 <= i < |ps| ==> KeyLess(k, ps[i].key) }

  /** The keys are strictly increasing. */
  predicate Sorted(ps: seq<Pair>)
  {
    ps != [] ==> Above(ps[0].key, ps[1..]) && Sorted(ps[1..])
  }

  lemma {:induction false} SortedAt(ps: seq<Pair>, i: nat, j: nat)
    requires Sorted(ps) && i < j < |ps|
    ensures KeyLess(ps[i].key, ps[j].key)
  {
    if i == 0 {
      assert ps[j] == ps[1..][j - 1];
    } else {
      SortedAt(ps[1..], i - 1, j - 1);
    }
  }

  // ----- as a map -----

  type Store = map<Bytes, Option<Bytes>>

  function ToMap(ps: seq<Pair>): Store
  {
    if ps == [] then map[] else ToMap(ps[1..])[ps[0].key := ps[0].val]
  }

  lemma {:induction false} AboveNotIn(k: Bytes, ps: seq<Pair>)
    requires Above(k, ps)
    ensures k !in ToMap(ps)
  {
    if ps != [] {
      KeyLessTotal(k, ps[0].key);
      AboveNotIn(k, ps[1..]);
    }
  }

  lemma AboveTrans(a: Bytes, b: Bytes, ps: seq<Pair>)
    requires KeyLess(a, b) && Above(b, ps)
    ensures Above(a, ps)
  {
    forall i | 0 <= i < |ps| ensures KeyLess(a, ps[i].key) {
      KeyLessTransitive(a, b, ps[i].key);
    }
  }

  lemma {:induction false} InMap(ps: seq<Pair>, k: Bytes)
    requires Sorted(ps)
    ensures k in ToMap(ps) <==> exists i :: 0 <= i < |ps| && ps[i].key == k
    ensures forall i :: 0 <= i < |ps| && ps[i].key == k ==> ToMap(ps)[k] == ps[i].val
  {
    if ps != [] {
      InMap(ps[1..], k);
      AboveNotIn(ps[0].key, ps[1..]);
      assert forall i :: 1 <= i < |ps| ==> ps[i] == ps[1..][i - 1];
    }
  }

  // ----- concatenation -----

  /** The merge of two sorted sequences; for equal keys the second wins. */
  function Concat(a: seq<Pair>, b: seq<Pair>): seq<Pair>
    decreases |a| + |b|
  {
    if a == [] then b else if b == [] then a
    else
      var d := Difference(a[0].key, b[0].key);
      if d < 0 then [a[0]] + Concat(a[1..], b)
      else [b[0]] + Concat(if d == 0 then a[1..] else a, b[1..])
  }

  lemma {:induction false} ConcatAbove(k: Bytes, a: seq<Pair>, b: seq<Pair>)
    requires Above(k, a) && Above(k, b)
    ensures Above(k, Concat(a, b))
    decreases |a| + |b|
  {
    if a != [] && b != [] {
      var d := Difference(a[0].key, b[0].key);
      if d < 0 {
        ConcatAbove(k, a[1..], b);
      } else {
        ConcatAbove(k, if d == 0 then a[1..] else a, b[1..]);
      }
    }
  }

  lemma HeadAbove(ps: seq<Pair>, k: Bytes)
    requires Sorted(ps) && ps != [] && KeyLess(k, ps[0].key)
    ensures Above(k, ps)
  {
    AboveTrans(k, ps[0].key, ps[1..]);
    assert forall i :: 1 <= i < |ps| ==> ps[i] == ps[1..][i - 1];
  }

  lemma {:induction false} ConcatSorted(a: seq<Pair>, b: seq<Pair>)
    requires Sorted(a) && Sorted(b)
    ensures Sorted(Concat(a, b))
    decreases |a| + |b|
  {
    if a != [] && b != [] {
      var d := Difference(a[0].key, b[0].key);
      if d < 0 {
        ConcatSorted(a[1..], b);
        HeadAbove(b, a[0].key);
        ConcatAbove(a[0].key, a[1..], b);
      } else {
        var a' := if d == 0 then a[1..] else a;
        ConcatSorted(a', b[1..]);
        if d > 0 {
          HeadAbove(a, b[0].key);
        }
        ConcatAbove(b[0].key, a', b[1..]);
      }
    }
  }

  /** Right-biased union of the two maps. */
  lemma {:induction false} ConcatIsUnion(a: seq<Pair>, b: seq<Pair>)
    requires Sorted(a) && Sorted(b)
    ensures ToMap(Concat(a, b)) == ToMap(a) + ToMap(b)
    decreases |a| + |b|
  {
    if a != [] && b != [] {
      var d := Difference(a[0].key, b[0].key);
      if d < 0 {
        ConcatIsUnion(a[1..], b);
        HeadAbove(b, a[0].key);
        AboveNotIn(a[0].key, b);
      } else {
        var a' := if d == 0 then a[1..] else a;
        ConcatIsUnion(a', b[1..]);
      }
    }
  }

  // ----- deletion -----

  /** The merge that takes pairs of `b` out of `a`: by key alone, or only if the values agree too. */
  function Minus(a: seq<Pair>, b: seq<Pair>, byKey: bool): seq<Pair>
    decreases |a| + |b|
  {
    if a == [] then [] else if b == [] then a
    else
      var d := Difference(a[0].key, b[0].key);
      if d > 0 then Minus(a, b[1..], byKey)
      else if d == 0 then
        (if byKey || a[0].val == b[0].val then [] else [a[0]]) + Minus(a[1..], b[1..], byKey)
      else [a[0]] + Minus(a[1..], b, byKey)
  }

  lemma {:induction false} MinusAbove(k: Bytes, a: seq<Pair>, b: seq<Pair>, byKey: bool)
    requires Above(k, a)
    ensures Above(k, Minus(a, b, byKey))
    decreases |a| + |b|
  {
    if a != [] && b != [] {
      var d := Difference(a[0].key, b[0].key);
      if d > 0 {
        MinusAbove(k, a, b[1..], byKey);
      } else {
        MinusAbove(k, a[1..], if d == 0 then b[1..] else b, byKey);
      }
    }
  }

  lemma {:induction false} MinusSorted(a: seq<Pair>, b: seq<Pair>, byKey: bool)
    requires Sorted(a)
    ensures Sorted(Minus(a, b, byKey))
    decreases |a| + |b|
  {
    if a != [] && b != [] {
      var d := Difference(a[0].key, b[0].key);
      if d > 0 {
        MinusSorted(a, b[1..], byKey);
      } else {
        var b' := if d == 0 then b[1..] else b;
        MinusSorted(a[1..], b', byKey);
        MinusAbove(a[0].key, a[1..], b', byKey);
        var rest := Minus(a[1..], b', byKey);
        assert [] + rest == rest && ([a[0]] + rest)[1..] == rest;
      }
    }
  }

  /** What is left of one map after the other has been taken out of it. */
  function MapMinus(a: Store, b: Store, byKey: bool): Store
  {
    map k | k in a && !(k in b && (byKey || a[k] == b[k])) :: a[k]
  }

  lemma MapBoth(a: Store, b: Store, k: Bytes, v: Option<Bytes>, w: Option<Bytes>, byKey: bool)
    requires k !in a && k !in b
    ensures MapMinus(a[k := v], b[k := w], byKey) ==
            if byKey || v == w then MapMinus(a, b, byKey) else MapMinus(a, b, byKey)[k := v]
  {
  }

  lemma MinusBoth(a: seq<Pair>, b: seq<Pair>, byKey: bool)
    requires Sorted(a) && Sorted(b) && a != [] && b != [] && a[0].key == b[0].key
    requires ToMap(Minus(a[1..], b[1..], byKey)) == MapMinus(ToMap(a[1..]), ToMap(b[1..]), byKey)
    ensures ToMap(Minus(a, b, byKey)) == MapMinus(ToMap(a), ToMap(b), byKey)
  {
    AboveNotIn(a[0].key, a[1..]);
    AboveNotIn(a[0].key, b[1..]);
    MapBoth(ToMap(a[1..]), ToMap(b[1..]), a[0].key, a[0].val, b[0].val, byKey);
    var rest := Minus(a[1..], b[1..], byKey);
    assert [] + rest == rest && ([a[0]] + rest)[1..] == rest;
  }

  lemma {:induction false} MinusIsDifference(a: seq<Pair>, b: seq<Pair>, byKey: bool)
    requires Sorted(a) && Sorted(b)
    ensures ToMap(Minus(a, b, byKey)) == MapMinus(ToMap(a), ToMap(b), byKey)
    decreases |a| + |b|
  {
    if a != [] && b != [] {
      var d := Difference(a[0].key, b[0].key);
      if d > 0 {
        MinusIsDifference(a, b[1..], byKey);
        HeadAbove(a, b[0].key);
        AboveNotIn(b[0].key, a);
      } else if d == 0 {
        MinusIsDifference(a[1..], b[1..], byKey);
        MinusBoth(a, b, byKey);
      } else {
        MinusIsDifference(a[1..], b, byKey);
        HeadAbove(b, a[0].key);
        AboveNotIn(a[0].key, b);
      }
    }
  }

  /** The pairs with other keys than `key`. */
  function Without(a: seq<Pair>, key: Bytes): seq<Pair>
  {
    if a == [] then [] else (if a[0].key == key then [] else [a[0]]) + Without(a[1..], key)
  }

  lemma {:induction false} WithoutNone(a: seq<Pair>, key: Bytes)
    requires Above(key, a)
    ensures Without(a, key) == a
  {
    if a != [] {
      KeyLessTotal(key, a[0].key);
      WithoutNone(a[1..], key);
    }
  }

  /** Deleting one key is the merge with that key alone. */
  lemma {:induction false} WithoutIsMinus(a: seq<Pair>, key: Bytes)
    requires Sorted(a)
    ensures Without(a, key) == Minus(a, [Pair(key, None)], true)
  {
    if a != [] {
      var d := Difference(a[0].key, key);
      if d < 0 {
        WithoutIsMinus(a[1..], key);
      } else if d == 0 {
        WithoutNone(a[1..], key);
      } else {
        HeadAbove(a, key);
        WithoutNone(a, key);
      }
      assert [Pair(key, None)][1..] == [];
    }
  }
}
