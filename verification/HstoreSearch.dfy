/** Searches in a packed hstore: the binary search that starts from the bound of the search before, and
    the operators built on it. */
module HstoreSearch {
  import opened Lexicographic
  import opened HstorePairs
  import opened HstoreLayout
  import opened HstoreBuild
  import opened HstoreMerge

  /** The keys before index `low` are below `key`. */
  predicate LowBound(ps: seq<Pair>, low: nat, key: Bytes)
  {
    low <= |ps| && forall i :: 0 <= i < low ==> KeyLess(ps[i].key, key)
  }

  /** The keys from index `high` on are above `key`. */
  predicate HighBound(ps: seq<Pair>, high: nat, key: Bytes)
  {
    high <= |ps| && forall i :: high <= i < |ps| ==> KeyLess(key, ps[i].key)
  }

  /** The index of `key`, or -1: a plain search from the back. */
  function IndexOf(ps: seq<Pair>, key: Bytes): int
  {
    if ps == [] then -1
    else if ps[|ps| - 1].key == key then |ps| - 1
    else IndexOf(ps[..|ps| - 1], key)
  }

  lemma {:induction false} IndexIs(ps: seq<Pair>, key: Bytes, i: int)
    requires Sorted(ps)
    requires if i < 0 then i == -1 && forall k :: 0 <= k < |ps| ==> ps[k].key != key
             else i < |ps| && ps[i].key == key
    ensures IndexOf(ps, key) == i
  {
    if i >= 0 {
      IndexFrom(ps, key, i, |ps|);
      assert ps[..|ps|] == ps;
    } else {
      IndexNone(ps, key);
    }
  }

  lemma {:induction false} IndexFrom(ps: seq<Pair>, key: Bytes, i: nat, n: nat)
    requires Sorted(ps) && i < n <= |ps| && ps[i].key == key
    ensures IndexOf(ps[..n], key) == i
  {
    assert ps[..n][..n - 1] == ps[..n - 1];
    if i < n - 1 {
      IndexFrom(ps, key, i, n - 1);
      SortedAt(ps, i, n - 1);
      KeyLessTotal(key, ps[n - 1].key);
    }
  }

  lemma {:induction false} IndexNone(ps: seq<Pair>, key: Bytes)
    requires forall k :: 0 <= k < |ps| ==> ps[k].key != key
    ensures IndexOf(ps, key) == -1
  {
    if ps != [] {
      IndexNone(ps[..|ps| - 1], key);
    }
  }

  lemma LowStep(ps: seq<Pair>, mid: nat, key: Bytes)
    requires Sorted(ps) && mid < |ps| && (KeyLess(ps[mid].key, key) || ps[mid].key == key)
    ensures forall i :: 0 <= i < mid ==> KeyLess(ps[i].key, key)
  {
    forall i | 0 <= i < mid ensures KeyLess(ps[i].key, key) {
      SortedAt(ps, i, mid);
      if ps[mid].key != key {
        KeyLessTransitive(ps[i].key, ps[mid].key, key);
      }
    }
  }

  lemma HighStep(ps: seq<Pair>, mid: nat, key: Bytes)
    requires Sorted(ps) && mid < |ps| && (KeyLess(key, ps[mid].key) || ps[mid].key == key)
    ensures forall i :: mid < i < |ps| ==> KeyLess(key, ps[i].key)
  {
    forall i | mid < i < |ps| ensures KeyLess(key, ps[i].key) {
      SortedAt(ps, mid, i);
      if ps[mid].key != key {
        KeyLessTransitive(key, ps[mid].key, ps[i].key);
      }
    }
  }

  lemma BoundsMissing(ps: seq<Pair>, low: nat, key: Bytes)
    requires Sorted(ps) && LowBound(ps, low, key) && HighBound(ps, low, key)
    ensures IndexOf(ps, key) == -1 && key !in ToMap(ps)
  {
    forall k | 0 <= k < |ps| ensures ps[k].key != key {
      KeyLessTotal(ps[k].key, key);
    }
    IndexIs(ps, key, -1);
    InMap(ps, key);
  }

  lemma FoundAt(ps: seq<Pair>, i: nat, key: Bytes)
    requires Sorted(ps) && i < |ps| && ps[i].key == key
    ensures IndexOf(ps, key) == i && key in ToMap(ps) && ToMap(ps)[key] == ps[i].val
  {
    IndexIs(ps, key, i);
    InMap(ps, key);
  }

  /** Searches for `key` from index `lowbound` on, and says where a search for a higher key may start.
      The index is the one that a search of the whole hstore gives. */
  method FindKey(ps: seq<Pair>, lowbound: nat, key: Bytes) returns (idx: int, low: nat)
    requires Sorted(ps) && LowBound(ps, lowbound, key)
    ensures idx == IndexOf(ps, key) && -1 <= idx < |ps| && lowbound <= low <= |ps|
    ensures idx >= 0 <==> key in ToMap(ps)
    ensures idx >= 0 ==> ps[idx].key == key && ToMap(ps)[key] == ps[idx].val && lowbound <= idx && low == idx + 1
    ensures Resumable(ps, low, key)
  {
    low := lowbound;
    var high := |ps|;
    while low < high
      invariant lowbound <= low <= high <= |ps|
      invariant LowBound(ps, low, key) && HighBound(ps, high, key)
    {
      var middle := low + (high - low) / 2;
      var d := Difference(ps[middle].key, key);
      if d == 0 {
        LowStep(ps, middle, key);
        FoundAt(ps, middle, key);
        NextBound(ps, middle + 1, key);
        return middle, middle + 1;
      } else if d < 0 {
        LowStep(ps, middle, key);
        low := middle + 1;
      } else {
        HighStep(ps, middle, key);
        high := middle;
      }
    }
    BoundsMissing(ps, low, key);
    NextBound(ps, low, key);
    idx := -1;
  }

  /** A search for any key above `key` may start from index `low`. */
  ghost predicate Resumable(ps: seq<Pair>, low: nat, key: Bytes)
  {
    forall next: Bytes {:trigger LowBound(ps, low, next)} :: KeyLess(key, next) ==> LowBound(ps, low, next)
  }

  lemma NextBound(ps: seq<Pair>, low: nat, key: Bytes)
    requires low <= |ps| && forall i :: 0 <= i < low ==> KeyLess(ps[i].key, key) || ps[i].key == key
    ensures Resumable(ps, low, key)
  {
    forall next: Bytes {:trigger LowBound(ps, low, next)} | KeyLess(key, next) ensures LowBound(ps, low, next) {
      forall i | 0 <= i < low ensures KeyLess(ps[i].key, next) {
        if ps[i].key != key {
          KeyLessTransitive(ps[i].key, key, next);
        }
      }
    }
  }

  // ----- the operators -----

  predicate PairIn(p: Pair, m: Store) { p.key in m && m[p.key] == p.val }

  /** All pairs of `b` are in `a`. */
  predicate SubMap(b: Store, a: Store) { forall k :: k in b ==> k in a && a[k] == b[k] }

  /** The search may go on with the next key of a sorted list. */
  lemma NextKey(ps: seq<Pair>, low: nat, keys: seq<Pair>, i: nat)
    requires Sorted(keys) && i < |keys| && Resumable(ps, low, keys[i].key)
    ensures i + 1 < |keys| ==> LowBound(ps, low, keys[i + 1].key)
  {
    if i + 1 < |keys| {
      SortedAt(keys, i, i + 1);
    }
  }

  /** Whether the pair is there, key and value. */
  method FindPair(ps: seq<Pair>, lowbound: nat, p: Pair) returns (same: bool, low: nat)
    requires Sorted(ps) && LowBound(ps, lowbound, p.key)
    ensures same <==> PairIn(p, ToMap(ps))
    ensures Resumable(ps, low, p.key)
  {
    var idx;
    idx, low := FindKey(ps, lowbound, p.key);
    same := idx >= 0 && ps[idx].val == p.val;
  }

  /** Containment is the submap test. */
  method Contains(val: HStore, tmpl: HStore) returns (res: bool)
    requires Canonical(val) && Canonical(tmpl)
    ensures res <==> SubMap(ToMap(Decode(tmpl)), ToMap(Decode(val)))
  {
    res := ContainsLoop(Decode(val), Decode(tmpl));
    SubMapAt(Decode(tmpl), ToMap(Decode(val)));
  }

  method ContainsLoop(vs: seq<Pair>, ts: seq<Pair>) returns (res: bool)
    requires Sorted(vs) && Sorted(ts)
    ensures res <==> forall k :: 0 <= k < |ts| ==> PairIn(ts[k], ToMap(vs))
  {
    res := true;
    var lastidx, i: nat := 0, 0;
    while res && i < |ts|
      invariant i <= |ts| && (i < |ts| ==> LowBound(vs, lastidx, ts[i].key))
      invariant res ==> forall k :: 0 <= k < i ==> PairIn(ts[k], ToMap(vs))
      invariant !res ==> exists k :: 0 <= k < |ts| && !PairIn(ts[k], ToMap(vs))
      decreases |ts| - i
    {
      res, lastidx := FindPair(vs, lastidx, ts[i]);
      NextKey(vs, lastidx, ts, i);
      i := i + 1;
    }
  }

  lemma SubMapAt(ts: seq<Pair>, a: Store)
    requires Sorted(ts)
    ensures SubMap(ToMap(ts), a) <==> forall k :: 0 <= k < |ts| ==> PairIn(ts[k], a)
  {
    forall k | 0 <= k < |ts| ensures ts[k].key in ToMap(ts) && ToMap(ts)[ts[k].key] == ts[k].val {
      InMap(ts, ts[k].key);
    }
    forall x | x in ToMap(ts) ensures exists k :: 0 <= k < |ts| && ts[k].key == x && ts[k].val == ToMap(ts)[x] {
      InMap(ts, x);
    }
  }

  /** Whether some key of the list is there; the list is sorted. */
  method ExistsAny(hs: HStore, keys: seq<Pair>) returns (res: bool)
    requires Canonical(hs) && Sorted(keys)
    ensures res <==> exists k :: 0 <= k < |keys| && keys[k].key in ToMap(Decode(hs))
  {
    var ps := Decode(hs);
    var low, i: nat := 0, 0;
    while i < |keys|
      invariant i <= |keys| && (i < |keys| ==> LowBound(ps, low, keys[i].key))
      invariant forall k :: 0 <= k < i ==> keys[k].key !in ToMap(ps)
    {
      var idx, next := FindKey(ps, low, keys[i].key);
      if idx >= 0 {
        return true;
      }
      NextKey(ps, next, keys, i);
      low := next;
      i := i + 1;
    }
    return false;
  }

  /** Whether all keys of the list are there. */
  method ExistsAll(hs: HStore, keys: seq<Pair>) returns (res: bool)
    requires Canonical(hs) && Sorted(keys)
    ensures res <==> forall k :: 0 <= k < |keys| ==> keys[k].key in ToMap(Decode(hs))
  {
    var ps := Decode(hs);
    var low, i: nat := 0, 0;
    while i < |keys|
      invariant i <= |keys| && (i < |keys| ==> LowBound(ps, low, keys[i].key))
      invariant forall k :: 0 <= k < i ==> keys[k].key in ToMap(ps)
    {
      var idx, next := FindKey(ps, low, keys[i].key);
      if idx < 0 {
        return false;
      }
      NextKey(ps, next, keys, i);
      low := next;
      i := i + 1;
    }
    return true;
  }

  // ----- slices -----

  /** The pairs of `m` for the keys of a sorted list. */
  function Slice(m: Store, keys: seq<Pair>): seq<Pair>
  {
    if keys == [] then []
    else
      var k := keys[0].key;
      (if k in m then [Pair(k, m[k])] else []) + Slice(m, keys[1..])
  }

  function Restriction(m: Store, keys: seq<Pair>): Store { map k | k in m && k in ToMap(keys) :: m[k] }

  lemma {:induction false} SliceSorted(m: Store, keys: seq<Pair>)
    requires Sorted(keys)
    ensures Sorted(Slice(m, keys))
    ensures forall k: Bytes {:trigger Above(k, keys)} :: Above(k, keys) ==> Above(k, Slice(m, keys))
  {
    if keys != [] {
      SliceSorted(m, keys[1..]);
      var rest := Slice(m, keys[1..]);
      assert [] + rest == rest;
      assert Above(keys[0].key, keys[1..]);
      forall k: Bytes {:trigger Above(k, keys)} | Above(k, keys) ensures Above(k, Slice(m, keys)) {
        assert Above(k, keys[1..]);
      }
    }
  }

  lemma {:induction false} SliceIsRestriction(m: Store, keys: seq<Pair>)
    requires Sorted(keys)
    ensures ToMap(Slice(m, keys)) == Restriction(m, keys)
  {
    if keys != [] {
      SliceIsRestriction(m, keys[1..]);
      var rest := Slice(m, keys[1..]);
      assert [] + rest == rest;
    }
  }

  lemma {:induction false} SuffixWeight(ps: seq<Pair>, i: nat, j: nat)
    requires i <= j <= |ps|
    ensures Weight(ps[j..]) <= Weight(ps[i..])
    decreases j - i
  {
    if i < j {
      SuffixWeight(ps, i + 1, j);
    }
  }

  /** What has been found, what is to come, and what is left of the strings. */
  ghost predicate Slicing(m: Store, out: seq<Pair>, keys: seq<Pair>, i: nat, ps: seq<Pair>, low: nat)
  {
    && i <= |keys| && low <= |ps|
    && out + Slice(m, keys[i..]) == Slice(m, keys)
    && Weight(out) + Weight(ps[low..]) <= Weight(ps)
    && |out| + |ps| - low <= |ps|
  }

  lemma SliceMiss(m: Store, out: seq<Pair>, keys: seq<Pair>, i: nat, ps: seq<Pair>, low: nat, next: nat)
    requires Slicing(m, out, keys, i, ps, low) && i < |keys| && low <= next <= |ps| && keys[i].key !in m
    ensures Slicing(m, out, keys, i + 1, ps, next)
  {
    SuffixWeight(ps, low, next);
    var rest := Slice(m, keys[i + 1..]);
    assert [] + rest == rest;
  }

  lemma SliceHit(m: Store, out: seq<Pair>, keys: seq<Pair>, i: nat, ps: seq<Pair>, low: nat, idx: nat)
    requires Slicing(m, out, keys, i, ps, low) && i < |keys| && low <= idx < |ps|
    requires keys[i].key in m && ps[idx] == Pair(keys[i].key, m[keys[i].key])
    ensures Slicing(m, out + [ps[idx]], keys, i + 1, ps, idx + 1)
  {
    WeightSnoc(out, ps[idx]);
    SuffixWeight(ps, low, idx);
    var rest := Slice(m, keys[i + 1..]);
    assert out + ([ps[idx]] + rest) == out + [ps[idx]] + rest;
  }

  method SliceTurn(ps: seq<Pair>, keys: seq<Pair>, i: nat, low: nat, out: seq<Pair>, bufsiz: nat)
    returns (out': seq<Pair>, bufsiz': nat, low': nat)
    requires Sorted(ps) && i < |keys| && LowBound(ps, low, keys[i].key)
    requires Slicing(ToMap(ps), out, keys, i, ps, low) && bufsiz == Weight(out)
    ensures Slicing(ToMap(ps), out', keys, i + 1, ps, low') && bufsiz' == Weight(out')
    ensures Resumable(ps, low', keys[i].key)
  {
    var idx;
    idx, low' := FindKey(ps, low, keys[i].key);
    out', bufsiz' := out, bufsiz;
    if idx >= 0 {
      SliceHit(ToMap(ps), out, keys, i, ps, low, idx);
      WeightSnoc(out, ps[idx]);
      out', bufsiz' := out + [ps[idx]], bufsiz + |PairText(ps[idx])|;
    } else {
      SliceMiss(ToMap(ps), out, keys, i, ps, low, low');
    }
  }

  method SliceLoop(ps: seq<Pair>, keys: seq<Pair>) returns (out: seq<Pair>, bufsiz: nat)
    requires Sorted(ps) && Sorted(keys)
    ensures out == Slice(ToMap(ps), keys) && bufsiz == Weight(out)
    ensures Weight(out) <= Weight(ps) && |out| <= |ps|
  {
    out, bufsiz := [], 0;
    var low, i: nat := 0, 0;
    assert keys[0..] == keys && ps[0..] == ps && [] + Slice(ToMap(ps), keys) == Slice(ToMap(ps), keys);
    while i < |keys|
      invariant Slicing(ToMap(ps), out, keys, i, ps, low) && bufsiz == Weight(out)
      invariant i < |keys| ==> LowBound(ps, low, keys[i].key)
    {
      out, bufsiz, low := SliceTurn(ps, keys, i, low, out, bufsiz);
      NextKey(ps, low, keys, i);
      i := i + 1;
    }
    assert keys[i..] == [] && out + [] == out;
  }

  /** A slice is the restriction of the map to the keys of the list. */
  method SliceToHstore(hs: HStore, keys: seq<Pair>) returns (out: HStore)
    requires Canonical(hs) && Sorted(keys) && hs.VarSize() <= MAX_ALLOC
    ensures Canonical(out) && ToMap(Decode(out)) == Restriction(ToMap(Decode(hs)), keys)
  {
    var pairs, bufsiz := SliceLoop(Decode(hs), keys);
    LaidWeight(hs);
    out := PackPairs(pairs, bufsiz);
    SliceSorted(ToMap(Decode(hs)), keys);
    Built(out, pairs, hs.VarSize());
    SliceIsRestriction(ToMap(Decode(hs)), keys);
  }
}
