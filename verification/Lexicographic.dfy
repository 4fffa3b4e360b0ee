/** The lexicographic order in which a missing element is below every other. */
module Lexicographic {

  type Byte = x: int | 0 <= x < 256

  type Bytes = seq<Byte>

  predicate Less(a: seq<int>, b: seq<int>)
  {
    b != [] && (a == [] || a[0] < b[0] || (a[0] == b[0] && Less(a[1..], b[1..])))
  }

  predicate Leq(a: seq<int>, b: seq<int>) { !Less(b, a) }

  lemma {:induction false} LessTransitive(a: seq<int>, b: seq<int>, c: seq<int>)
    requires Less(a, b)
    requires Less(b, c)
    ensures Less(a, c)
  {
    if a != [] && a[0] == b[0] == c[0] {
      LessTransitive(a[1..], b[1..], c[1..]);
    }
  }

  lemma {:induction false} LessTotal(a: seq<int>, b: seq<int>)
    ensures !(Less(a, b) && Less(b, a))
    ensures a == b <==> !Less(a, b) && !Less(b, a)
  {
    if a != [] && b != [] {
      LessTotal(a[1..], b[1..]);
      assert a == [a[0]] + a[1..] && b == [b[0]] + b[1..];
    }
  }

  lemma LeqTransitive(a: seq<int>, b: seq<int>, c: seq<int>)
    requires Leq(a, b) && Leq(b, c)
    ensures Leq(a, c)
  {
    if Less(c, a) {
      LessTotal(a, b);
      if a != b {
        LessTransitive(c, a, b);
      }
    }
  }

  lemma LessLeqTransitive(a: seq<int>, b: seq<int>, c: seq<int>)
    requires (Less(a, b) && Leq(b, c)) || (Leq(a, b) && Less(b, c))
    ensures Less(a, c)
  {
    LessTotal(a, b);
    LessTotal(b, c);
    if Less(a, b) && Less(b, c) {
      LessTransitive(a, b, c);
    }
  }

  // ----- prefixes -----

  lemma {:induction false} PrefixLeq(p: seq<int>, v: seq<int>)
    requires p <= v
    ensures Leq(p, v)
  {
    if p != [] {
      PrefixLeq(p[1..], v[1..]);
    }
  }

  /** Whatever lies between a sequence and its extension extends it too. */
  lemma {:induction false} BetweenPrefix(p: seq<int>, x: seq<int>, v: seq<int>)
    requires p <= v && Leq(p, x) && Leq(x, v)
    ensures p <= x
  {
    if p != [] {
      BetweenPrefix(p[1..], x[1..], v[1..]);
      assert p == [p[0]] + p[1..] && x == [x[0]] + x[1..];
    }
  }

  /** The length of the common prefix. */
  function Common(a: seq<int>, b: seq<int>): nat
  {
    if a == [] || b == [] || a[0] != b[0] then 0 else 1 + Common(a[1..], b[1..])
  }

  /** It is the longest prefix that both have. */
  lemma {:induction false} CommonExact(a: seq<int>, b: seq<int>)
    ensures Common(a, b) <= |a| && Common(a, b) <= |b|
    ensures a[..Common(a, b)] == b[..Common(a, b)]
    ensures Common(a, b) < |a| && Common(a, b) < |b| ==> a[Common(a, b)] != b[Common(a, b)]
  {
    if a != [] && b != [] && a[0] == b[0] {
      CommonExact(a[1..], b[1..]);
      var n := Common(a[1..], b[1..]);
      assert a[..n + 1] == [a[0]] + a[1..][..n] && b[..n + 1] == [b[0]] + b[1..][..n];
    }
  }

  lemma {:induction false} CommonUnique(a: seq<int>, b: seq<int>, n: nat)
    requires n <= |a| && n <= |b| && a[..n] == b[..n]
    requires n < |a| && n < |b| ==> a[n] != b[n]
    ensures Common(a, b) == n
  {
    if n > 0 {
      assert a[0] == a[..n][0] && b[0] == b[..n][0];
      assert a[1..][..n - 1] == a[..n][1..] && b[1..][..n - 1] == b[..n][1..];
      CommonUnique(a[1..], b[1..], n - 1);
    }
  }

  /** The outer two of three sequences in order have no more in common than the upper two. */
  lemma {:induction false} CommonOuter(a: seq<int>, b: seq<int>, c: seq<int>)
    requires Leq(a, b) && Leq(b, c)
    ensures Common(a, c) <= Common(b, c)
  {
    if a != [] && b != [] && c != [] && a[0] == c[0] {
      CommonOuter(a[1..], b[1..], c[1..]);
    }
  }

  /** What extends one side beyond the first difference leaves the common prefix as it is. */
  lemma {:induction false} CommonExtend(a: seq<int>, p: seq<int>, x: seq<int>)
    requires p <= x && Common(a, p) < |p|
    ensures Common(a, x) == Common(a, p)
  {
    if a != [] && p != [] && a[0] == p[0] {
      CommonExtend(a[1..], p[1..], x[1..]);
    }
  }

  function Cut<T>(a: seq<T>, n: nat): (r: seq<T>)
    ensures r <= a && |r| == if |a| <= n then |a| else n
  {
    if |a| <= n then a else a[..n]
  }

  lemma {:induction false} CommonCut(a: seq<int>, b: seq<int>, n: nat)
    ensures Common(Cut(a, n), Cut(b, n)) == if Common(a, b) <= n then Common(a, b) else n
  {
    if n > 0 && a != [] && b != [] && a[0] == b[0] {
      CommonCut(a[1..], b[1..], n - 1);
      assert Cut(a, n)[1..] == Cut(a[1..], n - 1) && Cut(b, n)[1..] == Cut(b[1..], n - 1);
    }
  }

  lemma {:induction false} LessTail(p: seq<int>, a: seq<int>, b: seq<int>)
    ensures Less(p + a, p + b) <==> Less(a, b)
  {
    if p == [] {
      assert p + a == a && p + b == b;
    } else {
      LessTail(p[1..], a, b);
      assert (p + a)[1..] == p[1..] + a && (p + b)[1..] == p[1..] + b;
    }
  }

  /** `n` times `x`. */
  function Fill(x: int, n: nat): seq<int> { seq(n, _ => x) }

  /** Among sequences up to `top`, the constant one is the greatest of its length, and only its
      extensions are above it. */
  lemma {:induction false} FillGreatest(top: int, n: nat, w: seq<int>)
    requires forall i :: 0 <= i < |w| ==> w[i] <= top
    ensures |w| == n && w != Fill(top, n) ==> Less(w, Fill(top, n))
    ensures Less(Fill(top, n), w) ==> Fill(top, n) <= w
  {
    if n > 0 && w != [] {
      FillGreatest(top, n - 1, w[1..]);
      assert Fill(top, n)[1..] == Fill(top, n - 1);
      assert w == [w[0]] + w[1..] && Fill(top, n) == [top] + Fill(top, n - 1);
    }
  }

  lemma LessAt(a: seq<int>, b: seq<int>, n: nat)
    requires n < |a| && n < |b| && a[..n] == b[..n] && a[n] < b[n]
    ensures Less(a, b) && !Less(b, a)
  {
    LessTail(a[..n], a[n..], b[n..]);
    LessTail(a[..n], b[n..], a[n..]);
    assert a == a[..n] + a[n..] && b == b[..n] + b[n..];
  }

  lemma PrefixLess(p: seq<int>, v: seq<int>)
    requires p <= v && p != v
    ensures Less(p, v) && !Less(v, p)
  {
    PrefixLeq(p, v);
    LessTotal(p, v);
  }
}
