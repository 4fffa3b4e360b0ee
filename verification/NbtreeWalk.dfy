/** Walks over blocks: every loop of the checker follows one kind of link from a start block, tests
    each block it comes to, and stops at the first block of a certain kind. */
module NbtreeWalk {

  /** A test on a block, given the blocks passed before it. */
  type Test = (seq<nat>, nat) -> bool

  /** `ok` says that a block passes its test, `stuck` that the test never comes to an end. */
  datatype Trek = Trek(dom: set<nat>, start: nat, next: nat -> nat, ok: Test, stuck: Test, stop: nat -> bool)

  function Never(): Test { (passed: seq<nat>, b: nat) => false }

  ghost predicate Distinct(p: seq<nat>)
  {
    forall i, j :: 0 <= i < j < |p| ==> p[i] != p[j]
  }

  lemma {:induction false} DistinctBound(p: seq<nat>, s: set<nat>)
    requires Distinct(p)
    requires forall i :: 0 <= i < |p| ==> p[i] in s
    ensures |p| <= |s|
  {
    if p != [] {
      DistinctBound(p[1..], s - {p[0]});
    }
  }

  lemma SnocSlice(s: seq<nat>, v: seq<nat>, n: nat)
    requires 0 < n <= |v|
    ensures (s + v[..n - 1]) + [v[n - 1]] == s + v[..n]
    ensures s + v[..0] == s
  {
  }

  ghost predicate Follows(f: nat -> nat, p: seq<nat>)
  {
    forall i :: 0 <= i < |p| - 1 ==> p[i + 1] == f(p[i])
  }

  /** `t` begins the walk `w`. */
  ghost predicate Path(w: Trek, t: seq<nat>)
    decreases |t|, 0
  {
    t == [] || (At(w, t[..|t| - 1], t[|t| - 1]) && t[|t| - 1] in w.dom && w.ok(t[..|t| - 1], t[|t| - 1]))
  }

  /** The walk has passed the blocks `t` and is about to look at `b`. */
  ghost predicate At(w: Trek, t: seq<nat>, b: nat)
    decreases |t|, 1
  {
    Path(w, t) &&
    if t == [] then b == w.start else b == w.next(t[|t| - 1]) && !w.stop(t[|t| - 1])
  }

  /** `t` is the walk `w` from start to stop. */
  ghost predicate Whole(w: Trek, t: seq<nat>)
  {
    t != [] && Path(w, t) && w.stop(t[|t| - 1])
  }

  ghost predicate Completes(w: Trek) { exists t :: Whole(w, t) }

  /** What a walk says about each of its blocks. */
  lemma {:induction false} PathAt(w: Trek, t: seq<nat>, i: nat)
    requires Path(w, t) && i < |t|
    ensures t[i] in w.dom && w.ok(t[..i], t[i])
    ensures if i == 0 then t[i] == w.start else t[i] == w.next(t[i - 1]) && !w.stop(t[i - 1])
  {
    var n := |t| - 1;
    if i < n {
      PathAt(w, t[..n], i);
      assert t[..n][..i] == t[..i];
    }
  }

  lemma PathBound(w: Trek, t: seq<nat>)
    requires Path(w, t) && Distinct(t)
    ensures |t| <= |w.dom|
  {
    forall i | 0 <= i < |t| ensures t[i] in w.dom {
      PathAt(w, t, i);
    }
    DistinctBound(t, w.dom);
  }

  lemma PathFollows(w: Trek, t: seq<nat>)
    requires Path(w, t)
    ensures Follows(w.next, t)
  {
    forall i | 0 <= i < |t| - 1 ensures t[i + 1] == w.next(t[i]) {
      PathAt(w, t, i + 1);
    }
  }

  // ----- determinism -----

  lemma {:induction false} FollowsShift(f: nat -> nat, p: seq<nat>, i: nat, j: nat, n: nat)
    requires Follows(f, p)
    requires i < j && j + n < |p|
    requires p[i] == p[j]
    ensures p[i + n] == p[j + n]
  {
    if n > 0 {
      FollowsShift(f, p, i, j, n - 1);
      assert p[(i + n - 1) + 1] == f(p[i + n - 1]);
      assert p[(j + n - 1) + 1] == f(p[j + n - 1]);
    }
  }

  /** Two chains from the same block agree as far as both go. */
  lemma {:induction false} ChainsAgree(f: nat -> nat, p: seq<nat>, q: seq<nat>, n: nat)
    requires Follows(f, p) && Follows(f, q)
    requires n < |p| && n < |q|
    requires p[0] == q[0]
    ensures p[..n + 1] == q[..n + 1]
  {
    if n > 0 {
      ChainsAgree(f, p, q, n - 1);
      assert p[..n][n - 1] == q[..n][n - 1];
      assert p[(n - 1) + 1] == f(p[n - 1]) && q[(n - 1) + 1] == f(q[n - 1]);
      assert p[..n + 1] == p[..n] + [p[n]] && q[..n + 1] == q[..n] + [q[n]];
    }
  }

  /** A walk that reaches its stop never repeats a block, whatever the links look like. */
  lemma WholeDistinct(w: Trek, t: seq<nat>)
    requires Whole(w, t)
    ensures Distinct(t)
    ensures |t| <= |w.dom|
  {
    PathFollows(w, t);
    forall i, j | 0 <= i < j < |t| ensures t[i] != t[j] {
      if t[i] == t[j] {
        FollowsShift(w.next, t, i, j, |t| - 1 - j);
        PathAt(w, t, i + |t| - j);
      }
    }
    PathBound(w, t);
  }

  /** A walk under way is the beginning of every complete walk. */
  lemma PathIsPrefix(w: Trek, t: seq<nat>, b: nat, whole: seq<nat>)
    requires At(w, t, b)
    requires Whole(w, whole)
    ensures |t| < |whole|
    ensures whole[..|t|] == t && whole[|t|] == b
  {
    PathFollows(w, t);
    PathFollows(w, whole);
    PathAt(w, whole, 0);
    if t != [] {
      PathAt(w, t, 0);
      if |whole| < |t| {
        PathAt(w, t, |whole|);
        ChainsAgree(w.next, t, whole, |whole| - 1);
      } else {
        ChainsAgree(w.next, t, whole, |t| - 1);
        if |t| < |whole| {
          PathAt(w, whole, |t|);
        }
      }
    }
  }

  /** If a walk can be completed at all, the next block passes the test. */
  lemma NextBlock(w: Trek, t: seq<nat>, b: nat)
    requires At(w, t, b)
    requires Completes(w)
    ensures b in w.dom && w.ok(t, b)
    ensures |t| < |w.dom|
  {
    var whole :| Whole(w, whole);
    PathIsPrefix(w, t, b, whole);
    WholeDistinct(w, whole);
    PathAt(w, whole, |t|);
  }

  lemma Advance(w: Trek, t: seq<nat>, b: nat)
    requires At(w, t, b)
    requires b in w.dom && w.ok(t, b)
    ensures if w.stop(b) then Whole(w, t + [b]) else At(w, t + [b], w.next(b))
  {
    assert (t + [b])[..|t + [b]| - 1] == t;
  }

  lemma WholeUnique(w: Trek, t: seq<nat>, u: seq<nat>)
    requires Whole(w, t) && Whole(w, u)
    ensures t == u
  {
    var n := |t| - 1;
    PathIsPrefix(w, t[..n], t[n], u);
    if |u| > |t| {
      PathAt(w, u, |t|);
    }
    assert u == u[..n] + [u[n]];
    assert t == t[..n] + [t[n]];
  }

  // ----- walks without end -----

  ghost predicate HasPath(w: Trek, n: nat) { exists t :: |t| == n && Path(w, t) }

  /** The walk goes on for ever. */
  ghost predicate Forever(w: Trek) { forall n: nat :: HasPath(w, n) }

  /** The walk goes on for ever, or comes to a block whose test does. */
  ghost predicate Hangs(w: Trek) { Forever(w) || exists t, b :: At(w, t, b) && w.stuck(t, b) }

  /** No test was stuck on the way. */
  ghost predicate Clear(w: Trek, t: seq<nat>)
  {
    t == [] || (Clear(w, t[..|t| - 1]) && !w.stuck(t[..|t| - 1], t[|t| - 1]))
  }

  lemma {:induction false} ClearAt(w: Trek, t: seq<nat>, i: nat)
    requires Clear(w, t) && i < |t|
    ensures !w.stuck(t[..i], t[i])
  {
    var n := |t| - 1;
    if i < n {
      ClearAt(w, t[..n], i);
      assert t[..n][..i] == t[..i];
    }
  }

  lemma ClearSnoc(w: Trek, t: seq<nat>, b: nat)
    requires Clear(w, t) && !w.stuck(t, b)
    ensures Clear(w, t + [b])
  {
    assert (t + [b])[..|t + [b]| - 1] == t;
  }

  lemma {:induction false} PathPrefix(w: Trek, t: seq<nat>, n: nat)
    requires Path(w, t) && n <= |t|
    ensures Path(w, t[..n])
  {
    if n < |t| {
      PathPrefix(w, t[..|t| - 1], n);
      assert t[..|t| - 1][..n] == t[..n];
    } else {
      assert t[..n] == t;
    }
  }

  /** Of two beginnings of a walk, one is the beginning of the other. */
  lemma PathsAgree(w: Trek, t: seq<nat>, u: seq<nat>)
    requires Path(w, t) && Path(w, u) && |t| <= |u|
    ensures u[..|t|] == t
  {
    if t != [] {
      PathFollows(w, t);
      PathFollows(w, u);
      PathAt(w, t, 0);
      PathAt(w, u, 0);
      ChainsAgree(w.next, t, u, |t| - 1);
    }
  }

  lemma AtBound(w: Trek, t: seq<nat>, b: nat, u: seq<nat>)
    requires At(w, t, b) && Path(w, u) && |t| < |u|
    ensures u[..|t|] == t && u[|t|] == b && b in w.dom && w.ok(t, b)
  {
    PathsAgree(w, t, u);
    PathAt(w, u, |t|);
    if t != [] {
      assert u[..|t|][|t| - 1] == u[|t| - 1];
    }
  }

  lemma AtUnique(w: Trek, t: seq<nat>, b: nat, u: seq<nat>, c: nat)
    requires At(w, t, b) && At(w, u, c) && |t| == |u|
    ensures t == u && b == c
  {
    PathsAgree(w, t, u);
    assert u[..|t|] == u;
  }

  /** A walk that has come to a block that fails its test neither ends nor hangs. */
  lemma DeadEnd(w: Trek, t: seq<nat>, b: nat)
    requires At(w, t, b) && Clear(w, t)
    requires !(b in w.dom && w.ok(t, b)) && !w.stuck(t, b)
    ensures !Completes(w) && !Hangs(w)
  {
    if Completes(w) {
      NextBlock(w, t, b);
    }
    if Forever(w) {
      assert HasPath(w, |t| + 1);
      var u :| |u| == |t| + 1 && Path(w, u);
      AtBound(w, t, b, u);
    }
    forall u, c | At(w, u, c) ensures !w.stuck(u, c) {
      NotStuck(w, t, b, u, c);
    }
  }

  lemma NotStuck(w: Trek, t: seq<nat>, b: nat, u: seq<nat>, c: nat)
    requires At(w, t, b) && Clear(w, t) && At(w, u, c) && !w.stuck(t, b)
    requires !(b in w.dom && w.ok(t, b))
    ensures !w.stuck(u, c)
  {
    if |u| < |t| {
      AtBound(w, u, c, t);
      ClearAt(w, t, |u|);
    } else if |u| == |t| {
      AtUnique(w, t, b, u, c);
    } else {
      AtBound(w, t, b, u);
    }
  }

  /** Nor does a walk that has come to its end. */
  lemma EndDoesNotHang(w: Trek, t: seq<nat>)
    requires Whole(w, t) && Clear(w, t)
    ensures !Hangs(w)
  {
    if Forever(w) {
      assert HasPath(w, |t| + 1);
      var u :| |u| == |t| + 1 && Path(w, u);
      PathsAgree(w, t, u);
      PathAt(w, u, |t|);
    }
    forall u, c | At(w, u, c) ensures !w.stuck(u, c) {
      PathIsPrefix(w, u, c, t);
      ClearAt(w, t, |u|);
    }
  }

  /** On a walk that comes back to a block after `p` steps, tests two laps later pass if they did one lap
      before. */
  ghost predicate Recurs(w: Trek, i: nat, p: nat)
    requires p > 0
  {
    forall q, x :: At(w, q, x) && |q| >= i + 2 * p && q[i] == q[i + p] && w.ok(q[..|q| - p], x) ==> w.ok(q, x)
  }

  ghost predicate Recurrent(w: Trek) { forall i: nat, p: nat :: p > 0 ==> Recurs(w, i, p) }

  lemma PathShift(w: Trek, q: seq<nat>, i: nat, p: nat)
    requires Path(w, q) && p > 0 && i + p < |q| && q[i] == q[i + p]
    ensures forall k :: i <= k < |q| - p ==> q[k] == q[k + p]
    ensures forall k :: 0 <= k < |q| ==> q[k] in w.dom
  {
    PathFollows(w, q);
    forall k | i <= k < |q| - p ensures q[k] == q[k + p] {
      FollowsShift(w.next, q, i, i + p, k - i);
    }
    forall k | 0 <= k < |q| ensures q[k] in w.dom {
      PathAt(w, q, k);
    }
  }

  lemma NextLap(w: Trek, t: seq<nat>, i: nat, p: nat) returns (x: nat)
    requires Path(w, t) && p > 0 && |t| >= i + 2 * p && t[i] == t[i + p] && Recurs(w, i, p)
    ensures Path(w, t + [x])
  {
    var n := |t|;
    PathFollows(w, t);
    FollowsShift(w.next, t, i, i + p, n - 1 - i - p);
    PathAt(w, t, n - p);
    x := t[n - p];
    assert At(w, t, x);
    Advance(w, t, x);
  }

  lemma {:induction false} Pump(w: Trek, t: seq<nat>, i: nat, p: nat, n: nat)
    requires Path(w, t) && p > 0 && |t| >= i + 2 * p && t[i] == t[i + p] && Recurs(w, i, p)
    ensures HasPath(w, n)
    decreases n - |t|
  {
    if n <= |t| {
      PathPrefix(w, t, n);
      assert |t[..n]| == n;
    } else {
      var x := NextLap(w, t, i, p);
      assert (t + [x])[i] == t[i] && (t + [x])[i + p] == t[i + p];
      Pump(w, t + [x], i, p, n);
    }
  }

  lemma Revisit(w: Trek, t: seq<nat>) returns (i: nat, j: nat)
    requires Path(w, t) && |t| > |w.dom|
    ensures i < j <= |w.dom| && t[i] == t[j]
  {
    var u := t[..|w.dom| + 1];
    PathPrefix(w, t, |u|);
    if Distinct(u) {
      PathBound(w, u);
    }
    i, j :| 0 <= i < j < |u| && u[i] == u[j];
  }

  /** A recurrent walk that takes more steps than twice the number of blocks goes on for ever. */
  lemma LongIsForever(w: Trek, t: seq<nat>)
    requires Path(w, t) && |t| > 2 * |w.dom| && Recurrent(w)
    ensures Forever(w)
  {
    var i, j := Revisit(w, t);
    assert t[i + (j - i)] == t[j];
    assert Recurs(w, i, j - i);
    forall n: nat ensures HasPath(w, n) {
      Pump(w, t, i, j - i, n);
    }
  }

  /** The test of a block depends on no block passed but the last. */
  ghost predicate Local(w: Trek)
  {
    forall q, r, x :: q != [] && r != [] && q[|q| - 1] == r[|r| - 1] && w.ok(q, x) ==> w.ok(r, x)
  }

  lemma LocalIsRecurrent(w: Trek)
    requires Local(w)
    ensures Recurrent(w)
  {
    forall i: nat, p: nat | p > 0 ensures Recurs(w, i, p) {
      forall q, x | At(w, q, x) && |q| >= i + 2 * p && q[i] == q[i + p] && w.ok(q[..|q| - p], x)
        ensures w.ok(q, x)
      {
        PathFollows(w, q);
        FollowsShift(w.next, q, i, i + p, |q| - 1 - i - p);
        assert q[..|q| - p][|q| - p - 1] == q[|q| - 1];
      }
    }
  }
}
