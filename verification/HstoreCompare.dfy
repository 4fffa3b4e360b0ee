/** The comparison of packed hstores: a total order, and equality exactly for equal maps. */
module HstoreCompare {
  import opened Lexicographic
  import opened HstorePairs
  import opened HstoreLayout

  // ----- the order -----

  function Up(b: int): int { b + 1 }

  /** Bytes above zero, so that a zero can mark the end. */
  function Shift(s: Bytes): seq<int> { seq(|s|, i requires 0 <= i < |s| => Up(s[i])) }

  /** What the comparison sees of a word: its position, then its null flag. */
  function WordCode(w: Word): int { 2 * w.end + if w.isNull then 1 else 0 }

  function WordCodes(es: seq<Word>): seq<int> { seq(|es|, i requires 0 <= i < |es| => WordCode(es[i])) }

  /** Empty values first; then by strings, by count, and by words. */
  function Code(hs: HStore): seq<int>
  {
    if hs.Count() == 0 then [0] else [1] + (Shift(hs.str) + ([0] + ([hs.Count()] + WordCodes(hs.entries))))
  }

  lemma {:induction false} StringsLess(s: Bytes, t: Bytes, a: seq<int>, b: seq<int>)
    ensures Less(Shift(s) + ([0] + a), Shift(t) + ([0] + b)) <==> Less(s, t) || (s == t && Less(a, b))
  {
    if s == [] && t == [] {
      assert Shift(s) + ([0] + a) == [0] + a && Shift(t) + ([0] + b) == [0] + b;
    } else if s == [] {
      assert Shift(s) + ([0] + a) == [0] + a;
      assert Shift(t) + ([0] + b) == [Up(t[0])] + (Shift(t[1..]) + ([0] + b));
    } else if t == [] {
      assert Shift(t) + ([0] + b) == [0] + b;
      assert Shift(s) + ([0] + a) == [Up(s[0])] + (Shift(s[1..]) + ([0] + a));
    } else {
      StringsLess(s[1..], t[1..], a, b);
      assert Shift(s) + ([0] + a) == [Up(s[0])] + (Shift(s[1..]) + ([0] + a));
      assert Shift(t) + ([0] + b) == [Up(t[0])] + (Shift(t[1..]) + ([0] + b));
      assert s == [s[0]] + s[1..] && t == [t[0]] + t[1..];
    }
  }

  /** The order on codes, taken apart. */
  lemma CodeLess(a: HStore, b: HStore)
    requires a.Count() > 0 && b.Count() > 0
    ensures Less(Code(a), Code(b)) <==>
      || Less(a.str, b.str)
      || (a.str == b.str &&
          (a.Count() < b.Count() ||
           (a.Count() == b.Count() && Less(WordCodes(a.entries), WordCodes(b.entries)))))
  {
    var ra, rb := [a.Count()] + WordCodes(a.entries), [b.Count()] + WordCodes(b.entries);
    StringsLess(a.str, b.str, ra, rb);
  }

  // ----- the comparison -----

  function Sign(less: bool, greater: bool): int { if less then -1 else if greater then 1 else 0 }

  /** The sign of the first difference of the first `n` bytes. */
  method Memcmp(a: Bytes, b: Bytes, n: nat) returns (res: int)
    requires n <= |a| && n <= |b|
    ensures res == 0 ==> a[..n] == b[..n]
    ensures res < 0 ==> Less(a, b)
    ensures res > 0 ==> Less(b, a)
  {
    var i := 0;
    while i < n
      invariant 0 <= i <= n && a[..i] == b[..i]
    {
      if a[i] != b[i] {
        if a[i] < b[i] {
          LessAt(a, b, i);
        } else {
          LessAt(b, a, i);
        }
        return if a[i] < b[i] then -1 else 1;
      }
      i := i + 1;
    }
    return 0;
  }

  /** Strings first by their bytes, then by their lengths. */
  method CompareStrings(a: Bytes, b: Bytes) returns (res: int)
    ensures res == Sign(Less(a, b), Less(b, a))
    ensures res == 0 <==> a == b
  {
    var n := if |a| < |b| then |a| else |b|;
    res := Memcmp(a, b, n);
    LessTotal(a, b);
    if res == 0 {
      if |a| > |b| {
        PrefixLess(b, a);
        return 1;
      } else if |a| < |b| {
        PrefixLess(a, b);
        return -1;
      }
    } else {
      return if res > 0 then 1 else -1;
    }
  }

  /** The first difference in position or null flag decides; a null is the greater. */
  method CompareWords(x: seq<Word>, y: seq<Word>) returns (res: int)
    requires |x| == |y|
    ensures res == Sign(Less(WordCodes(x), WordCodes(y)), Less(WordCodes(y), WordCodes(x)))
    ensures res == 0 <==> WordCodes(x) == WordCodes(y)
  {
    var cx, cy := WordCodes(x), WordCodes(y);
    LessTotal(cx, cy);
    var i := 0;
    while i < |x|
      invariant 0 <= i <= |x| && cx[..i] == cy[..i]
    {
      if x[i].end != y[i].end || x[i].isNull != y[i].isNull {
        if x[i].end < y[i].end || (x[i].end == y[i].end && y[i].isNull) {
          LessAt(cx, cy, i);
          return -1;
        } else {
          LessAt(cy, cx, i);
          return 1;
        }
      }
      i := i + 1;
    }
    assert cx == cx[..i] && cy == cy[..i];
    return 0;
  }

  method HstoreCmp(a: HStore, b: HStore) returns (res: int)
    requires a.Laid() && b.Laid()
    ensures res == Sign(Less(Code(a), Code(b)), Less(Code(b), Code(a)))
  {
    if a.Count() == 0 || b.Count() == 0 {
      return if a.Count() > 0 then 1 else if b.Count() > 0 then -1 else 0;
    }
    CodeLess(a, b);
    CodeLess(b, a);
    res := CompareStrings(a.str, b.str);
    if res == 0 {
      LessTotal(a.str, a.str);
      if a.Count() > b.Count() {
        return 1;
      } else if b.Count() > a.Count() {
        return -1;
      }
      res := CompareWords(a.entries, b.entries);
    }
  }

  // ----- equality -----

  lemma CodeWords(a: HStore, b: HStore)
    requires a.Laid() && b.Laid() && Code(a) == Code(b)
    ensures a == b
  {
    LessTotal(Code(a), Code(b));
    if a.Count() == 0 {
      assert Code(a) == [0] && Code(a)[0] == Code(b)[0];
      assert b.Count() == 0;
      assert a.entries == [] && b.entries == [];
    } else {
      assert Code(a)[0] == Code(b)[0];
      CodeLess(a, b);
      CodeLess(b, a);
      LessTotal(a.str, b.str);
      LessTotal(WordCodes(a.entries), WordCodes(b.entries));
      WordsEqual(a, b);
    }
  }

  lemma WordsEqual(a: HStore, b: HStore)
    requires a.Laid() && b.Laid() && a.Count() == b.Count() && WordCodes(a.entries) == WordCodes(b.entries)
    ensures a.entries == b.entries
  {
    forall k | 0 <= k < |a.entries| ensures a.entries[k] == b.entries[k] {
      assert WordCodes(a.entries)[k] == WordCodes(b.entries)[k];
      assert a.PairOk(k / 2) && b.PairOk(k / 2);
      assert k == 2 * (k / 2) || k == 2 * (k / 2) + 1;
    }
  }

  lemma {:induction false} FirstKey(ps: seq<Pair>, qs: seq<Pair>)
    requires Sorted(ps) && Sorted(qs) && ToMap(ps) == ToMap(qs) && ps != [] && qs != []
    ensures ps[0] == qs[0]
  {
    InMap(ps, ps[0].key);
    InMap(qs, ps[0].key);
    InMap(ps, qs[0].key);
    InMap(qs, qs[0].key);
    var i :| 0 <= i < |ps| && ps[i].key == qs[0].key;
    var j :| 0 <= j < |qs| && qs[j].key == ps[0].key;
    if i > 0 {
      SortedAt(ps, 0, i);
    }
    if j > 0 {
      SortedAt(qs, 0, j);
    }
    KeyLessTotal(ps[0].key, qs[0].key);
  }

  lemma EmptyMap(ps: seq<Pair>)
    ensures ps == [] <==> ToMap(ps) == map[]
  {
    if ps != [] {
      assert ps[0].key in ToMap(ps);
    }
  }

  lemma TailMap(ps: seq<Pair>)
    requires Sorted(ps) && ps != []
    ensures ToMap(ps[1..]) == ToMap(ps) - {ps[0].key}
  {
    AboveNotIn(ps[0].key, ps[1..]);
  }

  /** Sorted pairs are determined by their map. */
  lemma {:induction false} MapUnique(ps: seq<Pair>, qs: seq<Pair>)
    requires Sorted(ps) && Sorted(qs) && ToMap(ps) == ToMap(qs)
    ensures ps == qs
  {
    EmptyMap(ps);
    EmptyMap(qs);
    if ps != [] {
      FirstKey(ps, qs);
      TailMap(ps);
      TailMap(qs);
      MapUnique(ps[1..], qs[1..]);
      assert ps == [ps[0]] + ps[1..] && qs == [qs[0]] + qs[1..];
    }
  }

  /** The comparison is zero exactly for hstores that stand for the same map. */
  lemma ZeroIffSameMap(a: HStore, b: HStore)
    requires Canonical(a) && Canonical(b)
    ensures Sign(Less(Code(a), Code(b)), Less(Code(b), Code(a))) == 0 <==> ToMap(Decode(a)) == ToMap(Decode(b))
  {
    LessTotal(Code(a), Code(b));
    if Code(a) == Code(b) {
      CodeWords(a, b);
    }
    if ToMap(Decode(a)) == ToMap(Decode(b)) {
      MapUnique(Decode(a), Decode(b));
      LaidIsImage(a);
      LaidIsImage(b);
      ImageUnique(a, b, Decode(a));
    }
  }

  /** It is a total order: signs are opposite, and what is not greater is transitive. */
  lemma TotalOrder(a: HStore, b: HStore, c: HStore)
    ensures var ab, ba := Less(Code(a), Code(b)), Less(Code(b), Code(a)); Sign(ab, ba) == -Sign(ba, ab)
    ensures Leq(Code(a), Code(b)) && Leq(Code(b), Code(c)) ==> Leq(Code(a), Code(c))
  {
    LessTotal(Code(a), Code(b));
    if Leq(Code(a), Code(b)) && Leq(Code(b), Code(c)) {
      LeqTransitive(Code(a), Code(b), Code(c));
    }
  }
}
