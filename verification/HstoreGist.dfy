/** Lossy signatures of hstores in a GiST index: a signature covers all hstores below it, so a search
    never passes over one that satisfies the operator. */
module HstoreGist {
  import opened Wrappers
  import opened Lexicographic
  import opened HstorePairs
  import opened HstoreSearch

  /** The checksum of a string; any function will do. */
  type Checksum = Bytes -> nat

  /** A signature as its bits, or the short form of one with all bits set. */
  datatype Key = AllTrue | Sign(bits: seq<bool>)
  {
    predicate Has(n: nat) { AllTrue? || (n < |bits| && bits[n]) }

    predicate Fits(nbits: nat) { Sign? ==> |bits| == nbits }
  }

  /** Every bit of `e` is in `k`. */
  ghost predicate Covers(k: Key, e: Key, nbits: nat) { forall n :: 0 <= n < nbits && e.Has(n) ==> k.Has(n) }

  function Hash(crc: Checksum, s: Bytes, nbits: nat): nat
    requires nbits > 0
  {
    crc(s) % nbits
  }

  // ----- leaf signatures -----

  /** `n` is the bit of the key or of the value of `p`. */
  predicate PairBit(crc: Checksum, p: Pair, nbits: nat, n: nat)
    requires nbits > 0
  {
    n == Hash(crc, p.key, nbits) || (p.val.Some? && n == Hash(crc, p.val.value, nbits))
  }

  /** `k` has exactly the bits of the first `m` pairs. */
  ghost predicate Exact(crc: Checksum, ps: seq<Pair>, m: nat, nbits: nat, bits: seq<bool>)
    requires nbits > 0 && m <= |ps|
  {
    |bits| == nbits &&
    forall n :: 0 <= n < nbits ==> (bits[n] <==> exists i :: 0 <= i < m && PairBit(crc, ps[i], nbits, n))
  }

  lemma ExactStep(crc: Checksum, ps: seq<Pair>, m: nat, nbits: nat, bits: seq<bool>, bits': seq<bool>)
    requires nbits > 0 && m < |ps| && Exact(crc, ps, m, nbits, bits) && |bits'| == nbits
    requires forall n :: 0 <= n < nbits ==> (bits'[n] <==> bits[n] || PairBit(crc, ps[m], nbits, n))
    ensures Exact(crc, ps, m + 1, nbits, bits')
  {
    forall n | 0 <= n < nbits
      ensures bits'[n] <==> exists i :: 0 <= i < m + 1 && PairBit(crc, ps[i], nbits, n)
    {
      if bits[n] {
        var i :| 0 <= i < m && PairBit(crc, ps[i], nbits, n);
        assert i < m + 1;
      } else if PairBit(crc, ps[m], nbits, n) {
        assert m < m + 1;
      }
    }
  }

  /** The signature of an hstore: one bit for each key and each value that is not null. */
  method CompressLeaf(crc: Checksum, ps: seq<Pair>, siglen: nat) returns (k: Key)
    requires siglen > 0
    ensures k.Sign? && Exact(crc, ps, |ps|, 8 * siglen, k.bits)
  {
    var nbits := 8 * siglen;
    var sign := new bool[nbits](_ => false);
    var i: nat := 0;
    while i < |ps|
      invariant i <= |ps| && Exact(crc, ps, i, nbits, sign[..])
    {
      ghost var before := sign[..];
      sign[Hash(crc, ps[i].key, nbits)] := true;
      if ps[i].val.Some? {
        sign[Hash(crc, ps[i].val.value, nbits)] := true;
      }
      ExactStep(crc, ps, i, nbits, before, sign[..]);
      i := i + 1;
    }
    k := Sign(sign[..]);
  }

  /** A key with all bits set gets the short form; it covers the same. */
  method CompressInner(k: Key, nbits: nat) returns (r: Key)
    requires k.Fits(nbits)
    ensures r.Fits(nbits) && Covers(r, k, nbits) && Covers(k, r, nbits)
    ensures r.AllTrue? <==> forall n :: 0 <= n < nbits ==> k.Has(n)
  {
    if k.AllTrue? {
      return k;
    }
    var i := 0;
    while i < nbits
      invariant 0 <= i <= nbits && forall n :: 0 <= n < i ==> k.bits[n]
    {
      if !k.bits[i] {
        assert !k.Has(i);
        return k;
      }
      i := i + 1;
    }
    return AllTrue;
  }

  // ----- union -----

  function Or(a: seq<bool>, b: seq<bool>): seq<bool>
    requires |a| == |b|
  {
    seq(|a|, i requires 0 <= i < |a| => a[i] || b[i])
  }

  /** Adds the bits of a key to a signature; `all` says that the key stands for all bits. */
  method UnionKey(sbase: array<bool>, add: Key) returns (all: bool)
    requires add.Fits(sbase.Length)
    modifies sbase
    ensures all <==> add.AllTrue?
    ensures sbase[..] == if all then old(sbase[..]) else Or(old(sbase[..]), add.bits)
  {
    if add.AllTrue? {
      return true;
    }
    var i := 0;
    while i < sbase.Length
      invariant 0 <= i <= sbase.Length
      invariant forall k :: 0 <= k < i ==> sbase[k] == (old(sbase[k]) || add.bits[k])
      invariant forall k :: i <= k < sbase.Length ==> sbase[k] == old(sbase[k])
    {
      sbase[i] := sbase[i] || add.bits[i];
      i := i + 1;
    }
    return false;
  }

  /** The union has exactly the bits of its parts. */
  method Union(keys: seq<Key>, nbits: nat) returns (k: Key)
    requires forall i :: 0 <= i < |keys| ==> keys[i].Fits(nbits)
    ensures k.Fits(nbits)
    ensures forall n :: 0 <= n < nbits ==> (k.Has(n) <==> exists i :: 0 <= i < |keys| && keys[i].Has(n))
    ensures forall i :: 0 <= i < |keys| ==> Covers(k, keys[i], nbits)
  {
    var base := new bool[nbits](_ => false);
    var i: nat := 0;
    while i < |keys|
      invariant i <= |keys|
      invariant forall n :: 0 <= n < nbits ==> (base[n] <==> exists j :: 0 <= j < i && keys[j].Has(n))
    {
      var all := UnionKey(base, keys[i]);
      if all {
        return AllTrue;
      }
      i := i + 1;
    }
    k := Sign(base[..]);
  }

  // ----- split -----

  /** The number of set bits. */
  function Size(bits: seq<bool>): nat { if bits == [] then 0 else (if bits[0] then 1 else 0) + Size(bits[1..]) }

  function Differences(a: seq<bool>, b: seq<bool>): seq<bool>
    requires |a| == |b|
  {
    seq(|a|, i requires 0 <= i < |a| => a[i] != b[i])
  }

  /** The number of bits in which two keys differ. */
  function Distance(a: Key, b: Key, nbits: nat): int
    requires a.Fits(nbits) && b.Fits(nbits)
  {
    if a.AllTrue? then if b.AllTrue? then 0 else nbits - Size(b.bits)
    else if b.AllTrue? then nbits - Size(a.bits)
    else Size(Differences(a.bits, b.bits))
  }

  /** A key widened by another. */
  function Widened(k: Key, e: Key, nbits: nat): Key
    requires k.Fits(nbits) && e.Fits(nbits)
  {
    if k.AllTrue? then k
    else if e.AllTrue? then Sign(seq(nbits, _ => true))
    else Sign(Or(k.bits, e.bits))
  }

  /** It has the bits of both and no others. */
  lemma WidenedExact(k: Key, e: Key, nbits: nat)
    requires k.Fits(nbits) && e.Fits(nbits)
    ensures Widened(k, e, nbits).Fits(nbits)
    ensures forall n :: 0 <= n < nbits ==> (Widened(k, e, nbits).Has(n) <==> k.Has(n) || e.Has(n))
  {
  }

  ghost function SetBits(bits: seq<bool>, m: nat): set<int>
    requires m <= |bits|
  {
    set n | 0 <= n < m && bits[n]
  }

  lemma {:induction false} SizeSnoc(bits: seq<bool>, b: bool)
    ensures Size(bits + [b]) == Size(bits) + if b then 1 else 0
  {
    if bits != [] {
      assert (bits + [b])[1..] == bits[1..] + [b];
      SizeSnoc(bits[1..], b);
    } else {
      assert bits + [b] == [b];
    }
  }

  lemma {:induction false} SizeExact(bits: seq<bool>, m: nat)
    requires m <= |bits|
    ensures Size(bits[..m]) == |SetBits(bits, m)|
  {
    if m > 0 {
      SizeExact(bits, m - 1);
      SizeSnoc(bits[..m - 1], bits[m - 1]);
      assert bits[..m - 1] + [bits[m - 1]] == bits[..m];
      assert SetBits(bits, m) == SetBits(bits, m - 1) + if bits[m - 1] then {m - 1} else {};
    }
  }

  lemma {:induction false} Complement(bits: seq<bool>)
    ensures |bits| - Size(bits) == Size(Differences(seq(|bits|, _ => true), bits))
  {
    var ones := seq(|bits|, _ => true);
    if bits != [] {
      assert Differences(ones, bits)[1..] == Differences(seq(|bits| - 1, _ => true), bits[1..]);
      Complement(bits[1..]);
    }
  }

  /** The bits of a key, written out. */
  function BitsOf(k: Key, nbits: nat): seq<bool>
    requires k.Fits(nbits)
  {
    if k.AllTrue? then seq(nbits, _ => true) else k.bits
  }

  lemma {:induction false} NoDifferences(a: seq<bool>)
    ensures Size(Differences(a, a)) == 0
  {
    if a != [] {
      assert Differences(a, a)[1..] == Differences(a[1..], a[1..]);
      NoDifferences(a[1..]);
    }
  }

  lemma DifferencesSwap(a: seq<bool>, b: seq<bool>)
    requires |a| == |b|
    ensures Differences(a, b) == Differences(b, a)
  {
  }

  lemma DistanceIsSize(a: Key, b: Key, nbits: nat)
    requires a.Fits(nbits) && b.Fits(nbits)
    ensures Distance(a, b, nbits) == Size(Differences(BitsOf(a, nbits), BitsOf(b, nbits)))
  {
    if a.AllTrue? && b.AllTrue? {
      NoDifferences(BitsOf(a, nbits));
    } else if a.AllTrue? {
      Complement(b.bits);
    } else if b.AllTrue? {
      Complement(a.bits);
      DifferencesSwap(a.bits, BitsOf(b, nbits));
    }
  }

  /** The distance is the number of bits that one key has and the other has not. */
  lemma DistanceExact(a: Key, b: Key, nbits: nat)
    requires a.Fits(nbits) && b.Fits(nbits)
    ensures Distance(a, b, nbits) == |set n | 0 <= n < nbits && a.Has(n) != b.Has(n)|
  {
    var d := Differences(BitsOf(a, nbits), BitsOf(b, nbits));
    DistanceIsSize(a, b, nbits);
    SizeExact(d, nbits);
    assert d[..nbits] == d;
    assert SetBits(d, nbits) == set n | 0 <= n < nbits && a.Has(n) != b.Has(n);
  }

  /** No two of the entries that the search for seeds has looked at are farther apart than `waste`. */
  ghost predicate Searched(keys: seq<Key>, nbits: nat, k: nat, j: nat, waste: int)
  {
    forall a, b :: 0 <= a < b < |keys| - 1 && (a < k || (a == k && b < j)) &&
                   keys[a].Fits(nbits) && keys[b].Fits(nbits) ==>
      Distance(keys[a], keys[b], nbits) <= waste
  }

  /** The pair found so far, if any. */
  ghost predicate Best(keys: seq<Key>, nbits: nat, s1: nat, s2: nat, k: nat, j: nat, waste: int)
    requires forall i :: 0 <= i < |keys| ==> keys[i].Fits(nbits)
  {
    && Searched(keys, nbits, k, j, waste)
    && if s2 == 0 then waste == -1 else s1 < s2 < |keys| && waste == Distance(keys[s1], keys[s2], nbits)
  }

  method SeedStep(keys: seq<Key>, nbits: nat, k: nat, j: nat, s1: nat, s2: nat, waste: int)
    returns (s1': nat, s2': nat, waste': int)
    requires forall i :: 0 <= i < |keys| ==> keys[i].Fits(nbits)
    requires k < j < |keys| - 1 && Best(keys, nbits, s1, s2, k, j, waste)
    ensures Best(keys, nbits, s1', s2', k, j + 1, waste')
  {
    s1', s2', waste' := s1, s2, waste;
    var size := Distance(keys[k], keys[j], nbits);
    if size > waste {
      s1', s2', waste' := k, j, size;
    }
  }

  method SeedRow(keys: seq<Key>, nbits: nat, k: nat, s1: nat, s2: nat, waste: int)
    returns (s1': nat, s2': nat, waste': int)
    requires forall i :: 0 <= i < |keys| ==> keys[i].Fits(nbits)
    requires k < |keys| - 1 && Best(keys, nbits, s1, s2, k, 0, waste)
    ensures Best(keys, nbits, s1', s2', k + 1, 0, waste')
  {
    s1', s2', waste' := s1, s2, waste;
    var j: nat := k + 1;
    while j < |keys| - 1
      invariant k < j <= |keys| - 1 && Best(keys, nbits, s1', s2', k, j, waste')
    {
      s1', s2', waste' := SeedStep(keys, nbits, k, j, s1', s2', waste');
      j := j + 1;
    }
  }

  /** The seeds are two different entries, the farthest apart of all but the last. */
  method Seeds(keys: seq<Key>, nbits: nat) returns (s1: nat, s2: nat)
    requires |keys| >= 2 && forall i :: 0 <= i < |keys| ==> keys[i].Fits(nbits)
    ensures s1 < s2 < |keys|
    ensures Searched(keys, nbits, |keys|, 0, Distance(keys[s1], keys[s2], nbits))
  {
    var waste := -1;
    s1, s2 := 0, 0;
    var k: nat := 0;
    while k + 1 < |keys| - 1
      invariant Best(keys, nbits, s1, s2, k, 0, waste)
    {
      s1, s2, waste := SeedRow(keys, nbits, k, s1, s2, waste);
      k := k + 1;
    }
    if s2 == 0 {
      s1, s2 := 0, 1;
      DistanceExact(keys[0], keys[1], nbits);
    }
  }

  /** Which side takes the next entry: the nearer one, corrected by how uneven the sides are. */
  predicate GoesLeft(alpha: int, beta: int, nleft: nat, nright: nat)
  {
    10000 * (alpha - beta) < -((nleft - nright) * (nleft - nright) * (nleft - nright))
  }

  /** `k` has exactly the bits of the seed and of the entries of its half. */
  ghost predicate HalfKey(k: Key, keys: seq<Key>, seed: nat, half: seq<nat>, nbits: nat)
  {
    && k.Fits(nbits) && seed < |keys| && (forall i :: 0 <= i < |half| ==> half[i] < |keys|)
    && forall n :: 0 <= n < nbits ==>
         (k.Has(n) <==> keys[seed].Has(n) || exists i :: 0 <= i < |half| && keys[half[i]].Has(n))
  }

  lemma HalfGrows(k: Key, keys: seq<Key>, seed: nat, half: seq<nat>, j: nat, nbits: nat)
    requires HalfKey(k, keys, seed, half, nbits) && j < |keys| && keys[j].Fits(nbits)
    ensures HalfKey(Widened(k, keys[j], nbits), keys, seed, half + [j], nbits)
    ensures j == seed ==> HalfKey(k, keys, seed, half + [j], nbits)
  {
    WidenedExact(k, keys[j], nbits);
    var half' := half + [j];
    forall n ensures (exists i :: 0 <= i < |half'| && keys[half'[i]].Has(n)) <==>
                     keys[j].Has(n) || exists i :: 0 <= i < |half| && keys[half[i]].Has(n)
    {
      if i :| 0 <= i < |half| && keys[half[i]].Has(n) {
        assert half'[i] == half[i];
      }
      assert half'[|half|] == j;
    }
  }

  /** The key of a half that its seed is in. */
  lemma HalfExact(k: Key, keys: seq<Key>, seed: nat, half: seq<nat>, nbits: nat)
    requires HalfKey(k, keys, seed, half, nbits) && seed in half
    ensures forall n :: 0 <= n < nbits ==> (k.Has(n) <==> exists i :: 0 <= i < |half| && keys[half[i]].Has(n))
    ensures forall i :: 0 <= i < |half| ==> Covers(k, keys[half[i]], nbits)
  {
  }

  method SplitLoop(keys: seq<Key>, order: seq<nat>, s1: nat, s2: nat, nbits: nat)
    returns (left: seq<nat>, right: seq<nat>, l: Key, r: Key)
    requires s1 < s2 < |keys| && forall i :: 0 <= i < |keys| ==> keys[i].Fits(nbits)
    requires forall i :: 0 <= i < |order| ==> order[i] < |keys|
    ensures multiset(left) + multiset(right) == multiset(order)
    ensures (s1 in order ==> s1 in left) && (s2 in order ==> s2 in right)
    ensures HalfKey(l, keys, s1, left, nbits) && HalfKey(r, keys, s2, right, nbits)
  {
    left, right := [], [];
    l, r := keys[s1], keys[s2];
    var k: nat := 0;
    while k < |order|
      invariant k <= |order| && multiset(left) + multiset(right) == multiset(order[..k])
      invariant HalfKey(l, keys, s1, left, nbits) && HalfKey(r, keys, s2, right, nbits)
      invariant s1 in order[..k] ==> s1 in left
      invariant s2 in order[..k] ==> s2 in right
    {
      left, right, l, r := SplitStep(keys, order[k], s1, s2, left, right, l, r, nbits);
      assert order[..k + 1] == order[..k] + [order[k]];
      k := k + 1;
    }
    assert order[..k] == order;
  }

  /** Puts each entry, in the order `order` of their costs, into one of two halves. The key of a half has exactly
      the bits of its entries. */
  method PickSplit(keys: seq<Key>, order: seq<nat>, nbits: nat)
    returns (left: seq<nat>, right: seq<nat>, l: Key, r: Key)
    requires |keys| >= 2 && forall i :: 0 <= i < |keys| ==> keys[i].Fits(nbits)
    requires multiset(order) == multiset(seq(|keys|, i => i))
    ensures multiset(left) + multiset(right) == multiset(order) && left != [] && right != []
    ensures forall i :: 0 <= i < |left| ==> left[i] < |keys| && Covers(l, keys[left[i]], nbits)
    ensures forall i :: 0 <= i < |right| ==> right[i] < |keys| && Covers(r, keys[right[i]], nbits)
    ensures forall n :: 0 <= n < nbits ==>
              && (l.Has(n) <==> exists i :: 0 <= i < |left| && keys[left[i]].Has(n))
              && (r.Has(n) <==> exists i :: 0 <= i < |right| && keys[right[i]].Has(n))
  {
    var s1, s2 := Seeds(keys, nbits);
    OrderNames(order, |keys|);
    left, right, l, r := SplitLoop(keys, order, s1, s2, nbits);
    HalfExact(l, keys, s1, left, nbits);
    HalfExact(r, keys, s2, right, nbits);
  }

  lemma OrderNames(order: seq<nat>, n: nat)
    requires multiset(order) == multiset(seq(n, i => i))
    ensures forall i :: 0 <= i < |order| ==> order[i] < n
    ensures forall i :: 0 <= i < n ==> i in order
  {
    var ids := seq(n, i => i);
    forall i | 0 <= i < |order| ensures order[i] < n {
      assert order[i] in multiset(ids);
    }
    forall i | 0 <= i < n ensures i in order {
      assert ids[i] == i;
      assert i in multiset(ids);
    }
  }

  /** A seed goes where it is; any other entry goes to the side that the rule names. */
  method SplitStep(keys: seq<Key>, j: nat, s1: nat, s2: nat, left: seq<nat>, right: seq<nat>,
                   l: Key, r: Key, nbits: nat)
    returns (left': seq<nat>, right': seq<nat>, l': Key, r': Key)
    requires j < |keys| && s1 < s2 < |keys| && forall i :: 0 <= i < |keys| ==> keys[i].Fits(nbits)
    requires HalfKey(l, keys, s1, left, nbits) && HalfKey(r, keys, s2, right, nbits)
    ensures multiset(left') + multiset(right') == multiset(left) + multiset(right) + multiset{j}
    ensures HalfKey(l', keys, s1, left', nbits) && HalfKey(r', keys, s2, right', nbits)
    ensures var alpha, beta := Distance(l, keys[j], nbits), Distance(r, keys[j], nbits);
            if j == s1 || (j != s2 && GoesLeft(alpha, beta, |left|, |right|))
            then left' == left + [j] && right' == right && r' == r
            else left' == left && right' == right + [j] && l' == l
  {
    left', right', l', r' := left, right, l, r;
    if j == s1 {
      HalfGrows(l, keys, s1, left, j, nbits);
      left' := left + [j];
    } else if j == s2 {
      HalfGrows(r, keys, s2, right, j, nbits);
      right' := right + [j];
    } else {
      var alpha, beta := Distance(l, keys[j], nbits), Distance(r, keys[j], nbits);
      if GoesLeft(alpha, beta, |left|, |right|) {
        HalfGrows(l, keys, s1, left, j, nbits);
        l', left' := Widened(l, keys[j], nbits), left + [j];
      } else {
        HalfGrows(r, keys, s2, right, j, nbits);
        r', right' := Widened(r, keys[j], nbits), right + [j];
      }
    }
  }

  // ----- search -----

  /** A test that every pair of the query has its bits set. */
  method ConsistentContains(crc: Checksum, k: Key, query: seq<Pair>, siglen: nat) returns (res: bool)
    requires siglen > 0 && k.Fits(8 * siglen)
    ensures res <==> forall i, n ::
              0 <= i < |query| && 0 <= n < 8 * siglen && PairBit(crc, query[i], 8 * siglen, n) ==> k.Has(n)
  {
    var nbits := 8 * siglen;
    if k.AllTrue? {
      return true;
    }
    var i: nat := 0;
    while i < |query|
      invariant i <= |query|
      invariant forall j, n :: 0 <= j < i && 0 <= n < nbits && PairBit(crc, query[j], nbits, n) ==> k.Has(n)
    {
      var h := Hash(crc, query[i].key, nbits);
      if !k.bits[h] {
        assert PairBit(crc, query[i], nbits, h) && !k.Has(h);
        return false;
      }
      if query[i].val.Some? {
        var v := Hash(crc, query[i].val.value, nbits);
        if !k.bits[v] {
          assert PairBit(crc, query[i], nbits, v) && !k.Has(v);
          return false;
        }
      }
      i := i + 1;
    }
    return true;
  }

  method ConsistentExists(crc: Checksum, k: Key, key: Bytes, siglen: nat) returns (res: bool)
    requires siglen > 0 && k.Fits(8 * siglen)
    ensures res <==> k.Has(Hash(crc, key, 8 * siglen))
  {
    return k.AllTrue? || k.bits[Hash(crc, key, 8 * siglen)];
  }

  /** Null elements of the list are passed over. */
  method ConsistentExistsAll(crc: Checksum, k: Key, keys: seq<Option<Bytes>>, siglen: nat) returns (res: bool)
    requires siglen > 0 && k.Fits(8 * siglen)
    ensures res <==> forall i :: 0 <= i < |keys| && keys[i].Some? ==> k.Has(Hash(crc, keys[i].value, 8 * siglen))
  {
    if k.AllTrue? {
      return true;
    }
    var i := 0;
    while i < |keys|
      invariant 0 <= i <= |keys|
      invariant forall j :: 0 <= j < i && keys[j].Some? ==> k.Has(Hash(crc, keys[j].value, 8 * siglen))
    {
      if keys[i].Some? && !k.bits[Hash(crc, keys[i].value, 8 * siglen)] {
        return false;
      }
      i := i + 1;
    }
    return true;
  }

  method ConsistentExistsAny(crc: Checksum, k: Key, keys: seq<Option<Bytes>>, siglen: nat) returns (res: bool)
    requires siglen > 0 && k.Fits(8 * siglen)
    ensures res <==>
      (k.AllTrue? || exists i :: 0 <= i < |keys| && keys[i].Some? && k.Has(Hash(crc, keys[i].value, 8 * siglen)))
  {
    if k.AllTrue? {
      return true;
    }
    var i := 0;
    while i < |keys|
      invariant 0 <= i <= |keys|
      invariant forall j :: 0 <= j < i && keys[j].Some? ==> !k.Has(Hash(crc, keys[j].value, 8 * siglen))
    {
      if keys[i].Some? && k.bits[Hash(crc, keys[i].value, 8 * siglen)] {
        return true;
      }
      i := i + 1;
    }
    return false;
  }

  /** The pair's bits are in any key that covers the signature of an hstore with that pair. */
  lemma CoveredPair(crc: Checksum, ps: seq<Pair>, leaf: seq<bool>, k: Key, i: nat, nbits: nat, n: nat)
    requires nbits > 0 && Exact(crc, ps, |ps|, nbits, leaf) && Covers(k, Sign(leaf), nbits)
    requires i < |ps| && n < nbits && PairBit(crc, ps[i], nbits, n)
    ensures k.Has(n)
  {
    assert leaf[n];
    assert Sign(leaf).Has(n);
  }

  lemma CoveredKey(crc: Checksum, ps: seq<Pair>, leaf: seq<bool>, k: Key, key: Bytes, nbits: nat)
    requires nbits > 0 && Exact(crc, ps, |ps|, nbits, leaf) && Covers(k, Sign(leaf), nbits)
    requires Sorted(ps) && key in ToMap(ps)
    ensures k.Has(Hash(crc, key, nbits))
  {
    InMap(ps, key);
    var i :| 0 <= i < |ps| && ps[i].key == key;
    CoveredPair(crc, ps, leaf, k, i, nbits, Hash(crc, key, nbits));
  }

  /** No false negatives: if a covered hstore satisfies an operator, the test for that operator holds. */
  lemma NoFalseNegatives(crc: Checksum, ps: seq<Pair>, leaf: seq<bool>, k: Key, nbits: nat,
                         query: seq<Pair>, keys: seq<Option<Bytes>>)
    requires nbits > 0 && Exact(crc, ps, |ps|, nbits, leaf) && Covers(k, Sign(leaf), nbits)
    requires Sorted(ps) && Sorted(query)
    ensures SubMap(ToMap(query), ToMap(ps)) ==>
      forall i, n :: 0 <= i < |query| && 0 <= n < nbits && PairBit(crc, query[i], nbits, n) ==> k.Has(n)
    ensures (forall i :: 0 <= i < |keys| && keys[i].Some? ==> keys[i].value in ToMap(ps)) ==>
      forall i :: 0 <= i < |keys| && keys[i].Some? ==> k.Has(Hash(crc, keys[i].value, nbits))
    ensures (exists i :: 0 <= i < |keys| && keys[i].Some? && keys[i].value in ToMap(ps)) ==>
      exists i :: 0 <= i < |keys| && keys[i].Some? && k.Has(Hash(crc, keys[i].value, nbits))
  {
    if SubMap(ToMap(query), ToMap(ps)) {
      forall i, n | 0 <= i < |query| && 0 <= n < nbits && PairBit(crc, query[i], nbits, n) ensures k.Has(n) {
        InMap(query, query[i].key);
        InMap(ps, query[i].key);
        var j :| 0 <= j < |ps| && ps[j].key == query[i].key;
        CoveredPair(crc, ps, leaf, k, j, nbits, n);
      }
    }
    forall i | 0 <= i < |keys| && keys[i].Some? && keys[i].value in ToMap(ps)
      ensures k.Has(Hash(crc, keys[i].value, nbits))
    {
      CoveredKey(crc, ps, leaf, k, keys[i].value, nbits);
    }
  }
}
