/** The operations that merge hstores in their packed form are the map operations they stand for. */
module HstoreMerge {
  import opened Wrappers
  import opened Lexicographic
  import opened HstorePairs
  import opened HstoreLayout
  import opened HstoreBuild

  /** Bytes of the strings of `ps`. */
  function Weight(ps: seq<Pair>): nat
  {
    if ps == [] then 0 else |PairText(ps[0])| + Weight(ps[1..])
  }

  lemma {:induction false} WeightSnoc(ps: seq<Pair>, p: Pair)
    ensures Weight(ps + [p]) == Weight(ps) + |PairText(p)|
  {
    if ps == [] {
      assert [p][1..] == [] && ps + [p] == [p];
    } else {
      WeightSnoc(ps[1..], p);
      assert (ps + [p])[1..] == ps[1..] + [p];
    }
  }

  lemma {:induction false} TextWeight(ps: seq<Pair>)
    ensures |Text(ps)| == Weight(ps)
  {
    if ps != [] {
      var n := |ps| - 1;
      TextWeight(ps[..n]);
      WeightSnoc(ps[..n], ps[n]);
      assert ps[..n] + [ps[n]] == ps;
    }
  }

  lemma LaidWeight(hs: HStore)
    requires hs.Laid()
    ensures Weight(Decode(hs)) == |hs.str|
  {
    LaidIsImage(hs);
    TextWeight(Decode(hs));
  }

  /** What a builder that was given `size` bytes makes of sorted pairs. */
  lemma Built(hs: HStore, ps: seq<Pair>, size: nat)
    requires Image(hs, ps) && hs.VarSize() <= size <= MAX_ALLOC && Sorted(ps)
    ensures Canonical(hs) && Decode(hs) == ps
  {
    ImageDecodes(hs, ps);
  }

  /** A merge under way: what it has built, and what it has still to merge. */
  ghost predicate Merging(done: seq<Pair>, left: seq<Pair>, all: seq<Pair>, rest: nat, total: nat, room: nat)
  {
    && done + left == all
    && |Text(done)| + rest <= total
    && |done| + |left| <= room
  }

  lemma MergeStep(done: seq<Pair>, p: Pair, left: seq<Pair>, all: seq<Pair>, rest: nat, total: nat, room: nat)
    requires Merging(done, [p] + left, all, rest, total, room) && |PairText(p)| <= rest
    ensures Merging(done + [p], left, all, rest - |PairText(p)|, total, room)
    ensures |done| < room && |Text(done)| + |PairText(p)| <= total
  {
    assert done + ([p] + left) == (done + [p]) + left;
  }

  lemma {:induction false} ConcatLength(a: seq<Pair>, b: seq<Pair>)
    ensures |Concat(a, b)| <= |a| + |b|
    decreases |a| + |b|
  {
    if a != [] && b != [] {
      var d := Difference(a[0].key, b[0].key);
      if d < 0 {
        ConcatLength(a[1..], b);
      } else {
        ConcatLength(if d == 0 then a[1..] else a, b[1..]);
      }
    }
  }

  /** One turn of the merge: which pair comes next. */
  lemma ConcatTurn(a: seq<Pair>, b: seq<Pair>, i: nat, j: nat)
    requires i <= |a| && j <= |b| && (i < |a| || j < |b|)
    ensures var d := if i >= |a| then 1 else if j >= |b| then -1 else Difference(a[i].key, b[j].key);
      Concat(a[i..], b[j..]) ==
        if d < 0 then [a[i]] + Concat(a[i + 1..], b[j..])
        else [b[j]] + Concat(if d == 0 then a[i + 1..] else a[i..], b[j + 1..])
  {
    if i >= |a| {
      assert b[j..] == [b[j]] + b[j + 1..];
    } else if j >= |b| {
      assert a[i..] == [a[i]] + a[i + 1..];
    }
  }

  /** The builder has merged `done` of `all`; `left` is to come, and `rest` bytes for it at most. */
  ghost predicate Going(b: Builder, left: seq<Pair>, all: seq<Pair>, rest: nat)
    reads b, b.words, b.bytes
  {
    && b.Valid() && HEADER + 8 * b.room <= b.size
    && Merging(b.pairs, left, all, rest, b.size - HEADER - 8 * b.room, b.room)
  }

  lemma SuffixStep(ps: seq<Pair>, i: nat)
    requires i < |ps|
    ensures ps[i..] != [] && ps[i..][0] == ps[i] && ps[i..][1..] == ps[i + 1..]
    ensures Weight(ps[i..]) == |PairText(ps[i])| + Weight(ps[i + 1..])
  {
  }

  /** Copies the pair that comes next. */
  method Take(b: Builder, src: HStore, i: nat, ghost left: seq<Pair>, ghost all: seq<Pair>, ghost rest: nat)
    requires src.Laid() && i < src.Count() && |PairText(Decode(src)[i])| <= rest
    requires Going(b, [Decode(src)[i]] + left, all, rest)
    modifies b, b.words, b.bytes
    ensures Going(b, left, all, rest - |PairText(Decode(src)[i])|)
  {
    MergeStep(b.pairs, Decode(src)[i], left, all, rest, b.size - HEADER - 8 * b.room, b.room);
    b.CopyItem(src, i);
  }

  ghost function Rest(s1: HStore, i: nat, s2: HStore, j: nat): nat
    requires s1.Laid() && s2.Laid() && i <= s1.Count() && j <= s2.Count()
  {
    Weight(Decode(s1)[i..]) + Weight(Decode(s2)[j..])
  }

  ghost predicate Concatenating(b: Builder, s1: HStore, i: nat, s2: HStore, j: nat)
    requires s1.Laid() && s2.Laid() && i <= s1.Count() && j <= s2.Count()
    reads b, b.words, b.bytes
  {
    Going(b, Concat(Decode(s1)[i..], Decode(s2)[j..]), Concat(Decode(s1), Decode(s2)), Rest(s1, i, s2, j))
  }

  /** The first hstore has the lower key. */
  method TakeFirst(b: Builder, s1: HStore, i: nat, s2: HStore, j: nat)
    requires s1.Laid() && s2.Laid() && i < s1.Count() && j <= s2.Count() && Concatenating(b, s1, i, s2, j)
    requires var p1, p2 := Decode(s1), Decode(s2);
      Concat(p1[i..], p2[j..]) == [p1[i]] + Concat(p1[i + 1..], p2[j..])
    modifies b, b.words, b.bytes
    ensures Concatenating(b, s1, i + 1, s2, j)
  {
    ghost var p1, p2 := Decode(s1), Decode(s2);
    SuffixStep(p1, i);
    Take(b, s1, i, Concat(p1[i + 1..], p2[j..]), Concat(p1, p2), Rest(s1, i, s2, j));
  }

  /** The second hstore has the lower key. */
  method TakeSecond(b: Builder, s1: HStore, i: nat, s2: HStore, j: nat)
    requires s1.Laid() && s2.Laid() && i <= s1.Count() && j < s2.Count() && Concatenating(b, s1, i, s2, j)
    requires var p1, p2 := Decode(s1), Decode(s2);
      Concat(p1[i..], p2[j..]) == [p2[j]] + Concat(p1[i..], p2[j + 1..])
    modifies b, b.words, b.bytes
    ensures Concatenating(b, s1, i, s2, j + 1)
  {
    ghost var p1, p2 := Decode(s1), Decode(s2);
    SuffixStep(p2, j);
    Take(b, s2, j, Concat(p1[i..], p2[j + 1..]), Concat(p1, p2), Rest(s1, i, s2, j));
  }

  /** Both have the key; the pair of the first one is passed over. */
  method TakeBoth(b: Builder, s1: HStore, i: nat, s2: HStore, j: nat)
    requires s1.Laid() && s2.Laid() && i < s1.Count() && j < s2.Count() && Concatenating(b, s1, i, s2, j)
    requires var p1, p2 := Decode(s1), Decode(s2);
      Concat(p1[i..], p2[j..]) == [p2[j]] + Concat(p1[i + 1..], p2[j + 1..])
    modifies b, b.words, b.bytes
    ensures Concatenating(b, s1, i + 1, s2, j + 1)
  {
    ghost var p1, p2 := Decode(s1), Decode(s2);
    SuffixStep(p1, i);
    SuffixStep(p2, j);
    Take(b, s2, j, Concat(p1[i + 1..], p2[j + 1..]), Concat(p1, p2), Rest(s1, i, s2, j));
    Looser(b, Concat(p1[i + 1..], p2[j + 1..]), Concat(p1, p2), Rest(s1, i, s2, j + 1), Rest(s1, i + 1, s2, j + 1));
  }

  /** One turn of the merge loop. */
  method ConcatStep(b: Builder, s1: HStore, i: nat, s2: HStore, j: nat) returns (i': nat, j': nat)
    requires s1.Laid() && s2.Laid() && i <= s1.Count() && j <= s2.Count()
    requires (i < s1.Count() || j < s2.Count()) && Concatenating(b, s1, i, s2, j)
    modifies b, b.words, b.bytes
    ensures i <= i' <= s1.Count() && j <= j' <= s2.Count() && i + j < i' + j'
    ensures Concatenating(b, s1, i', s2, j')
  {
    ConcatTurn(Decode(s1), Decode(s2), i, j);
    var d := if i >= s1.Count() then 1 else if j >= s2.Count() then -1
             else Difference(Decode(s1)[i].key, Decode(s2)[j].key);
    if d < 0 {
      TakeFirst(b, s1, i, s2, j);
      return i + 1, j;
    }
    if d == 0 {
      TakeBoth(b, s1, i, s2, j);
      return i + 1, j + 1;
    }
    TakeSecond(b, s1, i, s2, j);
    return i, j + 1;
  }

  lemma Looser(b: Builder, left: seq<Pair>, all: seq<Pair>, rest: nat, less: nat)
    requires Going(b, left, all, rest) && less <= rest
    ensures Going(b, left, all, less)
  {
  }

  lemma ConcatStart(b: Builder, s1: HStore, s2: HStore)
    requires s1.Laid() && s2.Laid() && b.Valid() && b.pairs == []
    requires b.room == s1.Count() + s2.Count() && b.size == s1.VarSize() + s2.VarSize()
    ensures Concatenating(b, s1, 0, s2, 0)
  {
    LaidWeight(s1);
    LaidWeight(s2);
    ConcatLength(Decode(s1), Decode(s2));
    assert Decode(s1)[0..] == Decode(s1) && Decode(s2)[0..] == Decode(s2);
  }

  lemma GoingDone(b: Builder, all: seq<Pair>, rest: nat)
    requires Going(b, [], all, rest)
    ensures b.Valid() && b.pairs == all
  {
  }

  method Finish(b: Builder, ghost all: seq<Pair>) returns (hs: HStore)
    requires Going(b, [], all, 0)
    modifies b.words, b.bytes
    ensures Image(hs, all) && hs.VarSize() <= b.size
  {
    GoingDone(b, all, 0);
    hs := b.Finalize();
  }

  method ConcatLoop(b: Builder, s1: HStore, s2: HStore)
    requires s1.Laid() && s2.Laid() && Concatenating(b, s1, 0, s2, 0)
    modifies b, b.words, b.bytes
    ensures Going(b, [], Concat(Decode(s1), Decode(s2)), 0)
  {
    var i, j: nat := 0, 0;
    while i < s1.Count() || j < s2.Count()
      invariant i <= s1.Count() && j <= s2.Count() && Concatenating(b, s1, i, s2, j)
      decreases s1.Count() - i + s2.Count() - j
    {
      i, j := ConcatStep(b, s1, i, s2, j);
    }
    assert Decode(s1)[i..] == [] && Decode(s2)[j..] == [];
  }

  method BuildConcat(s1: HStore, s2: HStore) returns (hs: HStore)
    requires s1.Laid() && s2.Laid()
    ensures Image(hs, Concat(Decode(s1), Decode(s2))) && hs.VarSize() <= s1.VarSize() + s2.VarSize()
  {
    var b := new Builder(s1.VarSize() + s2.VarSize(), s1.Count() + s2.Count());
    ConcatStart(b, s1, s2);
    ConcatLoop(b, s1, s2);
    hs := Finish(b, Concat(Decode(s1), Decode(s2)));
  }

  /** The union of two hstores, where the second wins; None stands for a failed allocation. */
  method HstoreConcat(s1: HStore, s2: HStore) returns (out: Option<HStore>)
    requires Canonical(s1) && Canonical(s2)
    ensures out.None? <==> s1.VarSize() + s2.VarSize() > MAX_ALLOC
    ensures out.Some? ==> Canonical(out.value) && out.value.VarSize() <= s1.VarSize() + s2.VarSize()
    ensures out.Some? ==> ToMap(Decode(out.value)) == ToMap(Decode(s1)) + ToMap(Decode(s2))
  {
    if s1.VarSize() + s2.VarSize() > MAX_ALLOC {
      return None;
    }
    if s1.Count() == 0 {
      return Some(s2);
    }
    if s2.Count() == 0 {
      return Some(s1);
    }
    var hs := BuildConcat(s1, s2);
    ConcatSorted(Decode(s1), Decode(s2));
    Built(hs, Concat(Decode(s1), Decode(s2)), s1.VarSize() + s2.VarSize());
    ConcatIsUnion(Decode(s1), Decode(s2));
    return Some(hs);
  }

  // ----- subscript assignment -----

  ghost predicate Assigning(b: Builder, s1: HStore, i: nat, p: Pair, done: bool)
    requires s1.Laid() && i <= s1.Count()
    reads b, b.words, b.bytes
  {
    var rest := if done then [] else [p];
    Going(b, Concat(Decode(s1)[i..], rest), Concat(Decode(s1), [p]), Weight(Decode(s1)[i..]) + Weight(rest))
  }

  method Put(b: Builder, p: Pair, ghost left: seq<Pair>, ghost all: seq<Pair>, ghost rest: nat)
    requires |PairText(p)| <= rest && Going(b, [p] + left, all, rest)
    modifies b, b.words, b.bytes
    ensures Going(b, left, all, rest - |PairText(p)|)
  {
    MergeStep(b.pairs, p, left, all, rest, b.size - HEADER - 8 * b.room, b.room);
    b.AddItem(p);
  }

  lemma WeightOne(p: Pair)
    ensures Weight([p]) == |PairText(p)|
  {
    assert [p][1..] == [];
  }

  method AssignStep(b: Builder, s1: HStore, i: nat, p: Pair, done: bool) returns (i': nat, done': bool)
    requires s1.Laid() && i <= s1.Count() && (i < s1.Count() || !done) && Assigning(b, s1, i, p, done)
    modifies b, b.words, b.bytes
    ensures i <= i' <= s1.Count() && (done ==> done') && (i < i' || (!done && done'))
    ensures Assigning(b, s1, i', p, done')
  {
    ghost var p1, all := Decode(s1), Concat(Decode(s1), [p]);
    ghost var j: nat := if done then 1 else 0;
    assert [p][0..] == [p] && [p][1..] == [];
    ConcatTurn(p1, [p], i, j);
    WeightOne(p);
    var d := if i >= s1.Count() then 1 else if done then -1 else Difference(Decode(s1)[i].key, p.key);
    if d < 0 {
      Take(b, s1, i, Concat(p1[i + 1..], [p][j..]), all, Weight(p1[i..]) + Weight([p][j..]));
      return i + 1, done;
    }
    if d == 0 {
      Put(b, p, Concat(p1[i + 1..], []), all, Weight(p1[i..]) + Weight([p]));
      Looser(b, Concat(p1[i + 1..], []), all, Weight(p1[i..]), Weight(p1[i + 1..]));
      return i + 1, true;
    }
    Put(b, p, Concat(p1[i..], []), all, Weight(p1[i..]) + Weight([p]));
    return i, true;
  }

  lemma AssignStart(b: Builder, s1: HStore, p: Pair)
    requires s1.Laid() && b.Valid() && b.pairs == []
    requires b.room == s1.Count() + 1
    requires b.size == HEADER + 8 * (s1.Count() + 1) + s1.VarSize() + |p.key| + |ValText(p)|
    ensures Assigning(b, s1, 0, p, false)
  {
    LaidWeight(s1);
    WeightOne(p);
    ConcatLength(Decode(s1), [p]);
    assert Decode(s1)[0..] == Decode(s1);
  }

  method AssignLoop(b: Builder, s1: HStore, p: Pair)
    requires s1.Laid() && Assigning(b, s1, 0, p, false)
    modifies b, b.words, b.bytes
    ensures Going(b, [], Concat(Decode(s1), [p]), 0)
  {
    var i: nat, done := 0, false;
    while i < s1.Count() || !done
      invariant i <= s1.Count() && Assigning(b, s1, i, p, done)
      decreases s1.Count() - i, !done
    {
      i, done := AssignStep(b, s1, i, p, done);
    }
    assert Decode(s1)[i..] == [];
  }

  method BuildAssign(s1: HStore, p: Pair, size: nat) returns (hs: HStore)
    requires s1.Laid() && size == HEADER + 8 * (s1.Count() + 1) + s1.VarSize() + |p.key| + |ValText(p)|
    ensures Image(hs, Concat(Decode(s1), [p])) && hs.VarSize() <= size
  {
    var b := new Builder(size, s1.Count() + 1);
    AssignStart(b, s1, p);
    AssignLoop(b, s1, p);
    hs := Finish(b, Concat(Decode(s1), [p]));
  }

  lemma Single(p: Pair)
    ensures Sorted([p]) && ToMap([p]) == map[p.key := p.val]
  {
    assert [p][1..] == [];
  }

  lemma AssignMeaning(hs: HStore, ps: seq<Pair>, p: Pair, size: nat)
    requires Sorted(ps) && Image(hs, Concat(ps, [p])) && hs.VarSize() <= size <= MAX_ALLOC
    ensures Canonical(hs) && ToMap(Decode(hs)) == ToMap(ps)[p.key := p.val]
  {
    Single(p);
    ConcatSorted(ps, [p]);
    Built(hs, Concat(ps, [p]), size);
    ConcatIsUnion(ps, [p]);
  }

  /** A size in bytes, kept in a signed integer of 32 bits. */
  function ToInt(size: nat): int
  {
    if size % 0x1_0000_0000 < 0x8000_0000 then size % 0x1_0000_0000 else size % 0x1_0000_0000 - 0x1_0000_0000
  }

  /** A negative size is converted to one that is far too large. */
  predicate Allocates(size: int) { 0 <= size <= MAX_ALLOC }

  /** The size that is allocated for the update of one key, the key present or not. */
  function AssignSize(container: Option<HStore>, p: Pair): nat
  {
    if container.None? then HEADER + 8 + |PairText(p)|
    else HEADER + 8 * (container.value.Count() + 1) + container.value.VarSize() + |PairText(p)|
  }

  /** The sum stays below 2^32, so that cutting it down to an integer never yields a size that is allowed. */
  lemma SizeIsExact(container: Option<HStore>, p: Pair)
    requires container.Some? ==> container.value.VarSize() <= MAX_ALLOC
    requires |p.key| < POSITIONS && |ValText(p)| < POSITIONS
    ensures AssignSize(container, p) < 0x1_0000_0000
    ensures Allocates(ToInt(AssignSize(container, p))) <==> AssignSize(container, p) <= MAX_ALLOC
  {
  }

  method AssignInto(s1: HStore, p: Pair) returns (hs: HStore)
    requires Canonical(s1) && AssignSize(Some(s1), p) <= MAX_ALLOC
    ensures Canonical(hs) && ToMap(Decode(hs)) == ToMap(Decode(s1))[p.key := p.val]
  {
    var size := HEADER + 8 * (s1.Count() + 1) + s1.VarSize() + |p.key| + |ValText(p)|;
    hs := BuildAssign(s1, p, size);
    AssignMeaning(hs, Decode(s1), p, size);
  }

  method AssignNew(p: Pair) returns (hs: HStore)
    requires AssignSize(None, p) <= MAX_ALLOC
    ensures Canonical(hs) && ToMap(Decode(hs)) == map[p.key := p.val]
  {
    var buflen := |p.key| + |ValText(p)|;
    TextWeight([p]);
    hs := PackPairs([p], buflen);
    Single(p);
    Built(hs, [p], AssignSize(None, p));
  }

  /** The update of a single key; a null container counts as empty. It fails for a null key, and if a string is
      too long or the value gets too large. */
  method SubscriptAssign(container: Option<HStore>, key: Option<Bytes>, val: Option<Bytes>)
    returns (out: Option<HStore>)
    requires container.Some? ==> Canonical(container.value) && container.value.VarSize() <= MAX_ALLOC
    ensures out.Some? ==> key.Some? && Canonical(out.value)
    ensures out.Some? ==>
      var before := if container.None? then map[] else ToMap(Decode(container.value));
      ToMap(Decode(out.value)) == before[key.value := val]
    ensures out.None? <==> key.None? || AssignSize(container, Pair(key.value, val)) > MAX_ALLOC
  {
    if key.None? || |key.value| >= POSITIONS || (val.Some? && |val.value| >= POSITIONS) {
      return None;
    }
    var p := Pair(key.value, val);
    SizeIsExact(container, p);
    if !Allocates(ToInt(AssignSize(container, p))) {
      return None;
    }
    var hs: HStore;
    if container.None? {
      hs := AssignNew(p);
    } else {
      hs := AssignInto(container.value, p);
    }
    return Some(hs);
  }

  // ----- deletion -----

  lemma MinusNothing(a: seq<Pair>, byKey: bool)
    ensures Minus(a, [], byKey) == a
  {
  }

  lemma {:induction false} MinusLength(a: seq<Pair>, b: seq<Pair>, byKey: bool)
    ensures |Minus(a, b, byKey)| <= |a|
    decreases |a| + |b|
  {
    if a != [] && b != [] {
      var d := Difference(a[0].key, b[0].key);
      if d > 0 {
        MinusLength(a, b[1..], byKey);
      } else {
        MinusLength(a[1..], if d == 0 then b[1..] else b, byKey);
      }
    }
  }

  ghost predicate Deleting(b: Builder, hs: HStore, i: nat, ps: seq<Pair>, j: nat, byKey: bool)
    requires hs.Laid() && i <= hs.Count() && j <= |ps|
    reads b, b.words, b.bytes
  {
    Going(b, Minus(Decode(hs)[i..], ps[j..], byKey), Minus(Decode(hs), ps, byKey), Weight(Decode(hs)[i..]))
  }

  /** What happens to pair `p` when the deletion has come to `ps[j]`. */
  datatype Turn = Skip | Drop | Keep(j: nat)

  function TurnOf(p: Pair, ps: seq<Pair>, j: nat, byKey: bool): Turn
    requires j <= |ps|
  {
    var d := if j >= |ps| then -1 else Difference(p.key, ps[j].key);
    if d > 0 then Skip
    else if d == 0 then if byKey || p.val == ps[j].val then Drop else Keep(j + 1)
    else Keep(j)
  }

  lemma MinusTurn(a: seq<Pair>, b: seq<Pair>, i: nat, j: nat, byKey: bool)
    requires i < |a| && j <= |b|
    ensures match TurnOf(a[i], b, j, byKey)
      case Skip => j < |b| && Minus(a[i..], b[j..], byKey) == Minus(a[i..], b[j + 1..], byKey)
      case Drop => j < |b| && Minus(a[i..], b[j..], byKey) == Minus(a[i + 1..], b[j + 1..], byKey)
      case Keep(j') =>
        j <= j' <= |b| && Minus(a[i..], b[j..], byKey) == [a[i]] + Minus(a[i + 1..], b[j'..], byKey)
  {
    if j < |b| {
      var rest := Minus(a[i + 1..], b[j + 1..], byKey);
      assert [] + rest == rest;
    } else {
      assert a[i..] == [a[i]] + a[i + 1..];
      MinusNothing(a[i + 1..], byKey);
    }
  }

  /** One turn of the merge that takes keys, or pairs, out of an hstore. */
  method DeleteStep(b: Builder, hs: HStore, i: nat, ps: seq<Pair>, j: nat, byKey: bool, turn: Turn)
    returns (i': nat, j': nat)
    requires hs.Laid() && i < hs.Count() && j <= |ps| && Deleting(b, hs, i, ps, j, byKey)
    requires match turn
      case Skip => j < |ps| && Minus(Decode(hs)[i..], ps[j..], byKey) == Minus(Decode(hs)[i..], ps[j + 1..], byKey)
      case Drop =>
        j < |ps| && Minus(Decode(hs)[i..], ps[j..], byKey) == Minus(Decode(hs)[i + 1..], ps[j + 1..], byKey)
      case Keep(j') =>
        && j <= j' <= |ps|
        && Minus(Decode(hs)[i..], ps[j..], byKey) == [Decode(hs)[i]] + Minus(Decode(hs)[i + 1..], ps[j'..], byKey)
    modifies b, b.words, b.bytes
    ensures i <= i' <= hs.Count() && j <= j' <= |ps| && i + j < i' + j'
    ensures Deleting(b, hs, i', ps, j', byKey)
  {
    match turn
    case Skip => return i, j + 1;
    case Drop => return i + 1, j + 1;
    case Keep(k) =>
      Take(b, hs, i, Minus(Decode(hs)[i + 1..], ps[k..], byKey), Minus(Decode(hs), ps, byKey),
           Weight(Decode(hs)[i..]));
      return i + 1, k;
  }

  lemma DeleteStart(b: Builder, hs: HStore, ps: seq<Pair>, byKey: bool)
    requires hs.Laid() && b.Valid() && b.pairs == [] && b.room == hs.Count() && b.size == hs.VarSize()
    ensures Deleting(b, hs, 0, ps, 0, byKey)
  {
    LaidWeight(hs);
    MinusLength(Decode(hs), ps, byKey);
    assert Decode(hs)[0..] == Decode(hs) && ps[0..] == ps;
  }

  method DeleteLoop(b: Builder, hs: HStore, ps: seq<Pair>, byKey: bool)
    requires hs.Laid() && Deleting(b, hs, 0, ps, 0, byKey)
    modifies b, b.words, b.bytes
    ensures Going(b, [], Minus(Decode(hs), ps, byKey), 0)
  {
    var i: nat, j: nat := 0, 0;
    while i < hs.Count()
      invariant i <= hs.Count() && j <= |ps| && Deleting(b, hs, i, ps, j, byKey)
      decreases hs.Count() - i + |ps| - j
    {
      MinusTurn(Decode(hs), ps, i, j, byKey);
      i, j := DeleteStep(b, hs, i, ps, j, byKey, TurnOf(Decode(hs)[i], ps, j, byKey));
    }
    assert Decode(hs)[i..] == [];
  }

  method BuildDelete(hs: HStore, ps: seq<Pair>, byKey: bool) returns (out: HStore)
    requires hs.Laid()
    ensures Image(out, Minus(Decode(hs), ps, byKey)) && out.VarSize() <= hs.VarSize()
  {
    var b := new Builder(hs.VarSize(), hs.Count());
    DeleteStart(b, hs, ps, byKey);
    DeleteLoop(b, hs, ps, byKey);
    out := Finish(b, Minus(Decode(hs), ps, byKey));
  }

  /** Takes the sorted pairs `ps` out of `hs`: those with the same keys, or only equal pairs. */
  method DeletePairs(hs: HStore, ps: seq<Pair>, byKey: bool) returns (out: HStore)
    requires Canonical(hs) && hs.VarSize() <= MAX_ALLOC && Sorted(ps)
    ensures Canonical(out) && out.VarSize() <= hs.VarSize()
    ensures ToMap(Decode(out)) == MapMinus(ToMap(Decode(hs)), ToMap(ps), byKey)
  {
    MinusIsDifference(Decode(hs), ps, byKey);
    if |ps| == 0 {
      MinusNothing(Decode(hs), byKey);
      return hs;
    }
    out := BuildDelete(hs, ps, byKey);
    MinusSorted(Decode(hs), ps, byKey);
    Built(out, Minus(Decode(hs), ps, byKey), hs.VarSize());
  }

  method DeleteHstore(hs: HStore, hs2: HStore) returns (out: HStore)
    requires Canonical(hs) && Canonical(hs2) && hs.VarSize() <= MAX_ALLOC
    ensures Canonical(out)
    ensures var a, b := ToMap(Decode(hs)), ToMap(Decode(hs2));
      ToMap(Decode(out)) == map k | k in a && !(k in b && a[k] == b[k]) :: a[k]
  {
    out := DeletePairs(hs, Decode(hs2), false);
  }

  lemma WithoutTurn(ps: seq<Pair>, i: nat, key: Bytes)
    requires i < |ps|
    ensures Without(ps[i..], key) == if ps[i].key == key then Without(ps[i + 1..], key)
                                     else [ps[i]] + Without(ps[i + 1..], key)
  {
    var rest := Without(ps[i + 1..], key);
    assert [] + rest == rest;
  }

  lemma {:induction false} WithoutLength(ps: seq<Pair>, key: Bytes)
    ensures |Without(ps, key)| <= |ps|
  {
    if ps != [] {
      WithoutLength(ps[1..], key);
    }
  }

  lemma DeleteKeyStart(b: Builder, hs: HStore, key: Bytes)
    requires hs.Laid() && b.Valid() && b.pairs == [] && b.room == hs.Count() && b.size == hs.VarSize()
    ensures Going(b, Without(Decode(hs)[0..], key), Without(Decode(hs), key), Weight(Decode(hs)[0..]))
  {
    LaidWeight(hs);
    WithoutLength(Decode(hs), key);
    assert Decode(hs)[0..] == Decode(hs);
  }

  method DeleteKeyStep(b: Builder, hs: HStore, i: nat, key: Bytes)
    requires hs.Laid() && i < hs.Count()
    requires Going(b, Without(Decode(hs)[i..], key), Without(Decode(hs), key), Weight(Decode(hs)[i..]))
    modifies b, b.words, b.bytes
    ensures Going(b, Without(Decode(hs)[i + 1..], key), Without(Decode(hs), key), Weight(Decode(hs)[i + 1..]))
  {
    ghost var ps := Decode(hs);
    WithoutTurn(ps, i, key);
    if Decode(hs)[i].key != key {
      Take(b, hs, i, Without(ps[i + 1..], key), Without(ps, key), Weight(ps[i..]));
    }
  }

  method DeleteKeyLoop(b: Builder, hs: HStore, key: Bytes)
    requires hs.Laid()
    requires Going(b, Without(Decode(hs)[0..], key), Without(Decode(hs), key), Weight(Decode(hs)[0..]))
    modifies b, b.words, b.bytes
    ensures Going(b, [], Without(Decode(hs), key), 0)
  {
    ghost var ps := Decode(hs);
    var i: nat := 0;
    while i < hs.Count()
      invariant i <= hs.Count() && Going(b, Without(ps[i..], key), Without(ps, key), Weight(ps[i..]))
    {
      DeleteKeyStep(b, hs, i, key);
      i := i + 1;
    }
    assert ps[i..] == [];
  }

  method BuildDeleteKey(hs: HStore, key: Bytes) returns (out: HStore)
    requires hs.Laid()
    ensures Image(out, Without(Decode(hs), key)) && out.VarSize() <= hs.VarSize()
  {
    var b := new Builder(hs.VarSize(), hs.Count());
    DeleteKeyStart(b, hs, key);
    DeleteKeyLoop(b, hs, key);
    out := Finish(b, Without(Decode(hs), key));
  }

  /** Deletes one key. */
  method DeleteKey(hs: HStore, key: Bytes) returns (out: HStore)
    requires Canonical(hs) && hs.VarSize() <= MAX_ALLOC
    ensures Canonical(out) && out.VarSize() <= hs.VarSize()
    ensures ToMap(Decode(out)) == ToMap(Decode(hs)) - {key}
  {
    var p := Pair(key, None);
    out := BuildDeleteKey(hs, key);
    Single(p);
    WithoutIsMinus(Decode(hs), key);
    MinusSorted(Decode(hs), [p], true);
    Built(out, Minus(Decode(hs), [p], true), hs.VarSize());
    MinusIsDifference(Decode(hs), [p], true);
  }

  method PackItem(b: Builder, ps: seq<Pair>, i: nat)
    requires i < |ps| && Going(b, ps[i..], ps, Weight(ps[i..]))
    modifies b, b.words, b.bytes
    ensures Going(b, ps[i + 1..], ps, Weight(ps[i + 1..]))
  {
    SuffixStep(ps, i);
    assert ps[i..] == [ps[i]] + ps[i + 1..];
    Put(b, ps[i], ps[i + 1..], ps, Weight(ps[i..]));
  }

  method PackLoop(b: Builder, ps: seq<Pair>)
    requires Going(b, ps[0..], ps, Weight(ps[0..]))
    modifies b, b.words, b.bytes
    ensures Going(b, [], ps, 0)
  {
    var i: nat := 0;
    while i < |ps|
      invariant i <= |ps| && Going(b, ps[i..], ps, Weight(ps[i..]))
    {
      PackItem(b, ps, i);
      i := i + 1;
    }
    assert ps[i..] == [];
  }

  /** Packs pairs as they come; `buflen` is the number of bytes of their strings. */
  method PackPairs(ps: seq<Pair>, buflen: nat) returns (hs: HStore)
    requires buflen == Weight(ps)
    ensures Image(hs, ps) && hs.VarSize() <= HEADER + 8 * |ps| + buflen
  {
    var b := new Builder(HEADER + 8 * |ps| + buflen, |ps|);
    assert ps[0..] == ps;
    PackLoop(b, ps);
    hs := Finish(b, ps);
  }
}
