/** Input and output of an hstore: the parser's buffers, the printer's buffer, and the removal of
    duplicate keys. */
module HstoreIO {
  import opened Wrappers
  import opened Lexicographic
  import opened HstorePairs
  import opened HstoreLayout
  import opened HstoreBuild
  import opened HstoreMerge
  import opened HstoreText

  datatype Found = Yes | EndOfText | Error

  class HSParser {
    const begin: Bytes
    var ptr: nat
    var word: Bytes
    var wordlen: nat
    var escaped: bool
    var pairs: seq<Pair>

    constructor (text: Bytes)
      ensures begin == text && ptr == 0 && pairs == []
    {
      begin, ptr, word, wordlen, escaped, pairs := text, 0, [], 0, false, [];
    }

    function Rest(): Bytes
      requires ptr <= |begin|
      reads this
    {
      begin[ptr..]
    }

    function Current(): Byte
      reads this
    {
      if ptr < |begin| then begin[ptr] else 0
    }

    /** Appends one character; the buffer always has room for it and one more. */
    method Write(c: Byte)
      requires |word| < wordlen
      modifies `word, `wordlen
      ensures word == old(word) + [c] && |word| < wordlen
    {
      if |word| + 1 >= wordlen {
        wordlen := wordlen * 2;
      }
      word := word + [c];
    }

    /** What a step of the word scanner decides. */
    ghost predicate Scanned(st: ValState, ignoreEq: bool, r: ValResult)
      reads this
    {
      && Plain(begin) && ptr <= |begin| && |word| < wordlen
      && (st.InVal? || st.WaitEscIn? ==> ptr > 0) && (st.WaitVal? ==> word == [] && wordlen == 32)
      && PlainTail(begin, ptr)
      && GetVal(begin[ptr..], st, ignoreEq, word, escaped) == r
    }

    /** One character before a word. */
    method StepBefore(ignoreEq: bool, ghost r: ValResult) returns (next: ValState, found: Option<Found>)
      requires Scanned(WaitVal, ignoreEq, r)
      modifies `word, `wordlen, `escaped, `ptr
      ensures found.None? ==> Scanned(next, ignoreEq, r) && ptr == old(ptr) + 1
      ensures found.Some? ==> Reports(found.value, r)
    {
      var c := Current();
      next, found := WaitVal, None;
      if c == QUOTE {
        escaped := true;
        next := InEscVal;
      } else if c == 0 {
        return next, Some(EndOfText);
      } else if c == EQ && !ignoreEq {
        return next, Some(Error);
      } else if c == BACKSLASH {
        next := WaitEscIn;
      } else if !IsSpace(c) {
        word := word + [c];
        next := InVal;
      }
      ptr := ptr + 1;
    }

    /** One character of a word without quotes. */
    method StepPlain(ignoreEq: bool, ghost r: ValResult) returns (next: ValState, found: Option<Found>)
      requires Scanned(InVal, ignoreEq, r)
      modifies `word, `wordlen, `ptr
      ensures found.None? ==> Scanned(next, ignoreEq, r) && ptr == old(ptr) + 1
      ensures found.Some? ==> Reports(found.value, r)
    {
      var c := Current();
      next, found := InVal, None;
      if c == BACKSLASH {
        next := WaitEscIn;
      } else if (c == EQ && !ignoreEq) || (c == COMMA && ignoreEq) || c == 0 {
        ptr := ptr - 1;
        return next, Some(Yes);
      } else if IsSpace(c) {
        return next, Some(Yes);
      } else {
        Write(c);
      }
      ptr := ptr + 1;
    }

    /** One character inside quotes or after a backslash. */
    method StepEscaped(st: ValState, ignoreEq: bool, ghost r: ValResult) returns (next: ValState, found: Option<Found>)
      requires Scanned(st, ignoreEq, r) && !st.WaitVal? && !st.InVal?
      modifies `word, `wordlen, `ptr
      ensures found.None? ==> Scanned(next, ignoreEq, r) && ptr == old(ptr) + 1
      ensures found.Some? ==> Reports(found.value, r)
    {
      var c := Current();
      next, found := st, None;
      if st.InEscVal? && c == BACKSLASH {
        next := WaitEscEscIn;
      } else if st.InEscVal? && c == QUOTE {
        found := Some(Yes);
      } else if c == 0 {
        found := Some(Error);
      } else {
        Write(c);
        next := if st.WaitEscIn? then InVal else InEscVal;
      }
      if found.None? {
        ptr := ptr + 1;
      }
    }

    /** Reads one word. */
    method GetWord(ignoreEq: bool) returns (f: Found)
      requires Plain(begin) && PlainTail(begin, ptr)
      modifies `word, `wordlen, `escaped, `ptr
      ensures Reports(f, GetVal(begin[old(ptr)..], WaitVal, ignoreEq, [], false))
    {
      ghost var r := GetVal(begin[ptr..], WaitVal, ignoreEq, [], false);
      word, wordlen, escaped := [], 32, false;
      var st := WaitVal;
      while true
        invariant Scanned(st, ignoreEq, r)
        decreases |begin| - ptr
      {
        var found;
        if st.WaitVal? {
          st, found := StepBefore(ignoreEq, r);
        } else if st.InVal? {
          st, found := StepPlain(ignoreEq, r);
        } else {
          st, found := StepEscaped(st, ignoreEq, r);
        }
        if found.Some? {
          return found.value;
        }
      }
    }

    /** What is parsed, what comes next, and what the whole text will give. */
    ghost predicate Parsing(st: ParseState, key: Bytes, all: Option<seq<Pair>>)
      reads this
    {
      && Plain(begin) && PlainTail(begin, ptr)
      && Parse(begin[ptr..], st, pairs, key) == all
    }

    /** The state that wants a key, or a value. */
    method WordStep(st: ParseState, key: Bytes, ghost all: Option<seq<Pair>>)
      returns (next: ParseState, key': Bytes, done: Option<bool>)
      requires Parsing(st, key, all) && (st.WKey? || st.WVal?)
      modifies this
      ensures done.None? ==> Parsing(next, key', all) && ptr > old(ptr)
      ensures done.None? ==> next.WEq? || (next.WDel? && key' == [])
      ensures done.Some? ==> all == if done.value then Some(pairs) else None
    {
      next, key', done := st, key, None;
      var f := GetWord(st.WVal?);
      if f.EndOfText? {
        return next, key', Some(st.WKey?);
      }
      if f.Error? || |word| >= POSITIONS {
        return next, key', Some(false);
      }
      if st.WKey? {
        key', next := word, WEq;
      } else {
        pairs := pairs + [Pair(key, if |word| == 4 && !escaped && IsNullWord(word) then None else Some(word))];
        key', next := [], WDel;
      }
      ptr := ptr + 1;
    }

    /** The states that want a certain character. */
    method CharStep(st: ParseState, key: Bytes, ghost all: Option<seq<Pair>>)
      returns (next: ParseState, done: Option<bool>)
      requires Parsing(st, key, all) && (st.WEq? || st.WGt? || st.WDel?) && (st.WDel? ==> key == [])
      modifies `ptr
      ensures done.None? ==> Parsing(next, key, all) && ptr > old(ptr)
      ensures done.None? && (next.WKey? || next.WDel?) ==> key == []
      ensures done.Some? ==> all == if done.value then Some(pairs) else None
    {
      var c := Current();
      next, done := st, None;
      match st {
        case WEq =>
          if c == EQ {
            next := WGt;
          } else if c == 0 || !IsSpace(c) {
            done := Some(false);
          }
        case WGt =>
          if c == GT {
            next := WVal;
          } else {
            done := Some(false);
          }
        case WDel =>
          if c == COMMA {
            next := WKey;
          } else if c == 0 {
            done := Some(true);
          } else if !IsSpace(c) {
            done := Some(false);
          }
      }
      if done.None? {
        ptr := ptr + 1;
      }
    }

    /** Parses the whole text. */
    method ParseHstore() returns (ok: bool)
      requires Plain(begin)
      modifies this
      ensures Parse(begin, WKey, [], []) == if ok then Some(pairs) else None
    {
      ptr, pairs := 0, [];
      assert begin[0..] == begin;
      ghost var all := Parse(begin, WKey, [], []);
      var st, key: Bytes := WKey, [];
      while true
        invariant Parsing(st, key, all) && (st.WKey? || st.WDel? ==> key == [])
        decreases |begin| - ptr
      {
        var done;
        if st.WKey? || st.WVal? {
          st, key, done := WordStep(st, key, all);
        } else {
          st, done := CharStep(st, key, all);
        }
        if done.Some? {
          return done.value;
        }
      }
    }

    /** The fields say what the scanner's result says; the text goes on one character further. */
    ghost predicate Reports(f: Found, r: ValResult)
      reads this
    {
      match f
      case Yes =>
        && r.Got? && r.word == word && r.escaped == escaped && |word| < wordlen
        && ptr + 1 <= |begin| && r.rest == begin[ptr + 1..]
      case EndOfText => r.NoWord?
      case Error => r.BadWord?
    }
  }

  // ----- printing -----

  /** The bytes set aside for one pair. */
  function PairRoom(p: Pair): nat
  {
    6 + 2 * |p.key| + 2 + if p.val.None? then 2 else 2 * |p.val.value|
  }

  function Room(ps: seq<Pair>): nat { if ps == [] then 0 else PairRoom(ps[0]) + Room(ps[1..]) }

  lemma {:induction false} EscapeRoom(s: Bytes)
    ensures |Escape(s)| <= 2 * |s|
  {
    if s != [] {
      EscapeRoom(s[1..]);
    }
  }

  lemma PairFits(p: Pair)
    ensures |ShowPair(p)| + 2 <= PairRoom(p)
  {
    EscapeRoom(p.key);
    if p.val.Some? {
      EscapeRoom(p.val.value);
    }
  }

  /** The printed text leaves room for the separator that the last pair does not need. */
  lemma {:induction false} ShowFits(ps: seq<Pair>)
    requires ps != []
    ensures |Show(ps)| + 2 <= Room(ps)
  {
    PairFits(ps[0]);
    if |ps| > 1 {
      ShowFits(ps[1..]);
    }
  }

  /** The text so far, in a buffer that never overflows. */
  class Printer {
    const out: array<Byte>
    var ptr: nat

    constructor (buflen: nat)
      ensures ptr == 0 && out.Length == buflen && fresh(out)
    {
      out := new Byte[buflen](_ => 0);
      ptr := 0;
    }

    function Text(): Bytes
      requires ptr <= out.Length
      reads this, out
    {
      out[..ptr]
    }

    method Put(s: Bytes)
      requires ptr + |s| <= out.Length
      modifies this, out
      ensures ptr == old(ptr) + |s| && out[..ptr] == old(out[..ptr]) + s
    {
      var i := 0;
      ghost var was := out[..ptr];
      while i < |s|
        invariant 0 <= i <= |s| && ptr == old(ptr) + i <= out.Length
        invariant out[..ptr] == was + s[..i]
      {
        out[ptr] := s[i];
        ptr := ptr + 1;
        i := i + 1;
        assert s[..i] == s[..i - 1] + [s[i - 1]];
      }
      assert s[..|s|] == s;
    }

    /** Copies a string and puts a backslash before quotes and backslashes. */
    method PutEscaped(s: Bytes)
      requires ptr + |Escape(s)| <= out.Length
      modifies this, out
      ensures ptr == old(ptr) + |Escape(s)| && out[..ptr] == old(out[..ptr]) + Escape(s)
    {
      var i := 0;
      ghost var all := out[..ptr] + Escape(s);
      assert s[0..] == s;
      while i < |s|
        invariant 0 <= i <= |s| && ptr <= out.Length
        invariant out[..ptr] + Escape(s[i..]) == all && |all| <= out.Length
      {
        ghost var e := if s[i] == QUOTE || s[i] == BACKSLASH then [BACKSLASH, s[i]] else [s[i]];
        assert s[i..][1..] == s[i + 1..];
        assert Escape(s[i..]) == e + Escape(s[i + 1..]);
        ghost var before := out[..ptr];
        assert before + (e + Escape(s[i + 1..])) == before + e + Escape(s[i + 1..]);
        if s[i] == QUOTE || s[i] == BACKSLASH {
          Put([BACKSLASH]);
          Put([s[i]]);
          assert before + [BACKSLASH] + [s[i]] == before + e;
        } else {
          Put([s[i]]);
        }
        i := i + 1;
      }
      assert s[i..] == [];
    }

    method PutQuoted(s: Bytes)
      requires ptr + |Quoted(s)| <= out.Length
      modifies this, out
      ensures ptr == old(ptr) + |Quoted(s)| && out[..ptr] == old(out[..ptr]) + Quoted(s)
    {
      ghost var was := out[..ptr];
      Put([QUOTE]);
      PutEscaped(s);
      Put([QUOTE]);
      assert was + [QUOTE] + Escape(s) + [QUOTE] == was + Quoted(s);
    }

    method PutPair(p: Pair)
      requires ptr + |ShowPair(p)| <= out.Length
      modifies this, out
      ensures ptr == old(ptr) + |ShowPair(p)| && out[..ptr] == old(out[..ptr]) + ShowPair(p)
    {
      ghost var was := out[..ptr];
      PutQuoted(p.key);
      Put([EQ, GT]);
      if p.val.None? {
        Put([78, 85, 76, 76]);
      } else {
        PutQuoted(p.val.value);
      }
      assert was + Quoted(p.key) + [EQ, GT] + ShowValue(p.val) == was + ShowPair(p);
    }
  }

  lemma ShowTail(ps: seq<Pair>, i: nat)
    requires i < |ps|
    ensures Show(ps[i..]) == ShowPair(ps[i]) + (if i + 1 == |ps| then [] else [COMMA, SPACE] + Show(ps[i + 1..]))
  {
    assert ps[i..][1..] == ps[i + 1..];
  }

  method RoomFor(ps: seq<Pair>) returns (buflen: nat)
    ensures buflen == Room(ps)
  {
    buflen := 0;
    var i: nat := 0;
    assert ps[0..] == ps;
    while i < |ps|
      invariant i <= |ps| && buflen + Room(ps[i..]) == Room(ps)
    {
      assert ps[i..][1..] == ps[i + 1..];
      buflen := buflen + 6 + 2 * |ps[i].key|;
      buflen := buflen + 2 + if ps[i].val.None? then 2 else 2 * |ps[i].val.value|;
      i := i + 1;
    }
    assert ps[i..] == [];
  }

  method PrintPair(pr: Printer, ps: seq<Pair>, i: nat, ghost all: Bytes)
    requires i < |ps| && pr.ptr <= pr.out.Length && |all| <= pr.out.Length
    requires pr.out[..pr.ptr] + Show(ps[i..]) == all
    modifies pr, pr.out
    ensures pr.ptr <= pr.out.Length && pr.out[..pr.ptr] + Show(ps[i + 1..]) == all
  {
    ShowTail(ps, i);
    pr.PutPair(ps[i]);
    if i + 1 != |ps| {
      pr.Put([COMMA, SPACE]);
    }
  }

  /** Prints all pairs; the printed text and its final zero fit the buffer. */
  method PrintPairs(pr: Printer, ps: seq<Pair>)
    requires pr.ptr == 0 && ps != [] && pr.out.Length == Room(ps)
    modifies pr, pr.out
    ensures pr.ptr < pr.out.Length && pr.out[..pr.ptr] == Show(ps)
  {
    ShowFits(ps);
    assert ps[0..] == ps && pr.out[..0] + Show(ps) == Show(ps);
    var i: nat := 0;
    while i < |ps|
      invariant i <= |ps| && pr.ptr <= pr.out.Length
      invariant pr.out[..pr.ptr] + Show(ps[i..]) == Show(ps)
    {
      PrintPair(pr, ps, i, Show(ps));
      i := i + 1;
    }
    assert ps[i..] == [] && pr.out[..pr.ptr] + [] == pr.out[..pr.ptr];
    pr.out[pr.ptr] := 0;
  }

  /** The text of an hstore; None stands for a failed allocation. */
  method HstoreOut(hs: HStore) returns (text: Option<Bytes>)
    requires Canonical(hs)
    ensures text.None? <==> hs.Count() > 0 && Room(Decode(hs)) > MAX_ALLOC
    ensures text.Some? ==> text.value == Show(Decode(hs))
  {
    if hs.Count() == 0 {
      return Some([]);
    }
    var buflen := RoomFor(Decode(hs));
    if buflen > MAX_ALLOC {
      return None;
    }
    var pr := new Printer(buflen);
    PrintPairs(pr, Decode(hs));
    return Some(pr.out[..pr.ptr]);
  }

  ghost predicate PlainTail(t: Bytes, p: nat) { p <= |t| && Plain(t[p..]) }

  // ----- duplicate keys -----

  /** The keys do not decrease. */
  predicate WeaklySorted(ps: seq<Pair>)
  {
    forall i, j :: 0 <= i < j < |ps| ==> !KeyLess(ps[j].key, ps[i].key)
  }

  /** The first pair of each run of equal keys. */
  function Dedup(ps: seq<Pair>): seq<Pair>
  {
    if ps == [] then []
    else
      var d := Dedup(ps[..|ps| - 1]);
      if d != [] && d[|d| - 1].key == ps[|ps| - 1].key then d else d + [ps[|ps| - 1]]
  }

  lemma DedupStep(ps: seq<Pair>, n: nat)
    requires n < |ps|
    ensures var d := Dedup(ps[..n]);
      Dedup(ps[..n + 1]) == if d != [] && d[|d| - 1].key == ps[n].key then d else d + [ps[n]]
  {
    assert ps[..n + 1][..n] == ps[..n];
  }

  /** The pairs before `ptr` have been looked at and the ones up to `res` are kept. */
  ghost predicate Deduping(a: array<Pair>, all: seq<Pair>, ptr: nat, res: nat, buflen: nat)
    reads a
  {
    && a.Length == |all| && res < ptr <= |all|
    && a[..res + 1] == Dedup(all[..ptr]) && buflen == Weight(a[..res])
    && a[ptr..] == all[ptr..]
  }

  lemma Counted(a: seq<Pair>, res: nat, buflen: nat)
    requires res < |a| && buflen == Weight(a[..res])
    ensures buflen + |PairText(a[res])| == Weight(a[..res + 1])
  {
    WeightSnoc(a[..res], a[res]);
    assert a[..res + 1] == a[..res] + [a[res]];
  }

  method KeepNext(a: array<Pair>, ghost all: seq<Pair>, ptr: nat, res: nat, buflen: nat) returns (buflen': nat)
    requires ptr < |all| && Deduping(a, all, ptr, res, buflen) && a[ptr].key != a[res].key
    modifies a
    ensures Deduping(a, all, ptr + 1, res + 1, buflen')
  {
    DedupStep(all, ptr);
    Counted(a[..], res, buflen);
    assert a[..][..res] == a[..res] && a[..][..res + 1] == a[..res + 1];
    buflen' := buflen + |PairText(a[res])|;
    ghost var kept := a[..res + 1];
    assert kept[res] == a[res] && a[ptr..][0] == all[ptr..][0];
    if res + 1 != ptr {
      a[res + 1] := a[ptr];
    }
    assert a[..res + 2] == kept + [all[ptr]] && a[..res + 1] == kept;
    assert a[ptr + 1..] == all[ptr..][1..];
  }

  lemma SkipNext(a: array<Pair>, all: seq<Pair>, ptr: nat, res: nat, buflen: nat)
    requires ptr < |all| && Deduping(a, all, ptr, res, buflen) && a[ptr].key == a[res].key
    ensures Deduping(a, all, ptr + 1, res, buflen)
  {
    DedupStep(all, ptr);
    assert a[..res + 1][res] == a[res] && a[ptr..][0] == all[ptr..][0];
    assert a[ptr + 1..] == a[ptr..][1..] && all[ptr + 1..] == all[ptr..][1..];
  }

  method UniqueLoop(a: array<Pair>, ghost all: seq<Pair>) returns (res: nat, buflen: nat)
    requires a.Length > 0 && Deduping(a, all, 1, 0, 0)
    modifies a
    ensures Deduping(a, all, a.Length, res, buflen)
  {
    buflen := 0;
    var ptr: nat := 1;
    res := 0;
    while ptr < a.Length
      invariant Deduping(a, all, ptr, res, buflen)
    {
      if a[ptr].key != a[res].key {
        buflen := KeepNext(a, all, ptr, res, buflen);
        res := res + 1;
      } else {
        SkipNext(a, all, ptr, res, buflen);
      }
      ptr := ptr + 1;
    }
  }

  lemma DedupingEnd(a: array<Pair>, all: seq<Pair>, res: nat, buflen: nat)
    requires Deduping(a, all, a.Length, res, buflen)
    ensures a[..res + 1] == Dedup(all) && buflen + |PairText(a[res])| == Weight(a[..res + 1])
  {
    Counted(a[..], res, buflen);
    assert a[..][..res] == a[..res] && a[..][..res + 1] == a[..res + 1];
    assert all[..a.Length] == all;
  }

  /** Drops duplicate keys of a sorted array in place and sums up the strings of what is left. */
  method UniquePairs(a: array<Pair>) returns (n: nat, buflen: nat)
    modifies a
    ensures n <= a.Length && a[..n] == Dedup(old(a[..])) && buflen == Weight(a[..n])
  {
    ghost var all := a[..];
    if a.Length == 0 {
      return 0, 0;
    }
    var res, sum := UniqueLoop(a, all);
    DedupingEnd(a, all, res, sum);
    return res + 1, sum + |PairText(a[res])|;
  }

  lemma {:induction false} SortedSnoc(ps: seq<Pair>, p: Pair)
    requires Sorted(ps) && forall i :: 0 <= i < |ps| ==> KeyLess(ps[i].key, p.key)
    ensures Sorted(ps + [p])
  {
    if ps == [] {
      assert (ps + [p])[1..] == [];
    } else {
      SortedSnoc(ps[1..], p);
      assert (ps + [p])[1..] == ps[1..] + [p];
    }
  }

  predicate HasKey(ps: seq<Pair>, k: Bytes) { exists j :: 0 <= j < |ps| && ps[j].key == k }

  lemma {:induction false} BelowNext(d: seq<Pair>, p: Pair)
    requires Sorted(d) && d != [] && KeyLess(d[|d| - 1].key, p.key)
    ensures Sorted(d + [p])
  {
    forall i | 0 <= i < |d| ensures KeyLess(d[i].key, p.key) {
      if i < |d| - 1 {
        SortedAt(d, i, |d| - 1);
        KeyLessTransitive(d[i].key, d[|d| - 1].key, p.key);
      }
    }
    SortedSnoc(d, p);
  }

  /** What duplicate removal keeps: pairs with keys in strict order. */
  lemma {:induction false} DedupIsSorted(ps: seq<Pair>)
    requires WeaklySorted(ps)
    ensures Sorted(Dedup(ps))
    ensures ps != [] ==> Dedup(ps) != [] && Dedup(ps)[|Dedup(ps)| - 1].key == ps[|ps| - 1].key
  {
    if ps != [] {
      var n := |ps| - 1;
      DedupIsSorted(ps[..n]);
      var d := Dedup(ps[..n]);
      if d == [] {
        SortedSnoc(d, ps[n]);
      } else if d[|d| - 1].key != ps[n].key {
        assert d[|d| - 1].key == ps[n - 1].key;
        KeyLessTotal(ps[n - 1].key, ps[n].key);
        BelowNext(d, ps[n]);
      }
    }
  }

  /** Every key is kept, and with a value that it came with. */
  lemma {:induction false} DedupKeeps(ps: seq<Pair>, n: nat, k: Bytes)
    requires n <= |ps|
    ensures HasKey(Dedup(ps[..n]), k) <==> HasKey(ps[..n], k)
  {
    if n > 0 {
      DedupKeeps(ps, n - 1, k);
      DedupStep(ps, n - 1);
      var a := Dedup(ps[..n - 1]);
      assert ps[..n] == ps[..n - 1] + [ps[n - 1]];
      KeySnoc(ps[..n - 1], ps[n - 1], k);
      KeySnoc(a, ps[n - 1], k);
      if a != [] && a[|a| - 1].key == ps[n - 1].key == k {
        assert HasKey(a, k);
      }
    }
  }

  lemma {:induction false} DedupFrom(ps: seq<Pair>, n: nat, p: Pair)
    requires n <= |ps| && p in Dedup(ps[..n])
    ensures p in ps
  {
    DedupStep(ps, n - 1);
    if p in Dedup(ps[..n - 1]) {
      DedupFrom(ps, n - 1, p);
    }
  }

  lemma KeySnoc(ps: seq<Pair>, p: Pair, k: Bytes)
    ensures HasKey(ps + [p], k) <==> HasKey(ps, k) || p.key == k
  {
    if HasKey(ps, k) {
      var j :| 0 <= j < |ps| && ps[j].key == k;
      assert (ps + [p])[j].key == k;
    } else if p.key == k {
      assert (ps + [p])[|ps|].key == k;
    }
  }

  lemma FirstSame(ps: seq<Pair>, q: seq<Pair>)
    requires Sorted(ps) && WeaklySorted(q) && multiset(q) == multiset(ps) && ps != [] && q != []
    ensures q[0] == ps[0]
  {
    assert q[0] in multiset(ps) && ps[0] in multiset(q);
    var i :| 0 <= i < |ps| && ps[i] == q[0];
    var j :| 0 <= j < |q| && q[j] == ps[0];
    if i > 0 {
      SortedAt(ps, 0, i);
      KeyLessTotal(ps[0].key, ps[i].key);
    }
  }

  lemma TailMultiset(q: seq<Pair>)
    requires q != []
    ensures multiset(q[1..]) == multiset(q) - multiset{q[0]}
  {
    assert q == [q[0]] + q[1..];
  }

  /** Pairs with different keys have only one sorted order. */
  lemma {:induction false} SortUnique(ps: seq<Pair>, q: seq<Pair>)
    requires Sorted(ps) && WeaklySorted(q) && multiset(q) == multiset(ps)
    ensures q == ps
  {
    assert |q| == |multiset(q)| == |multiset(ps)| == |ps|;
    if ps != [] {
      FirstSame(ps, q);
      TailMultiset(q);
      TailMultiset(ps);
      SortUnique(ps[1..], q[1..]);
      assert ps == [ps[0]] + ps[1..] && q == [q[0]] + q[1..];
    }
  }

  lemma {:induction false} DedupSorted(ps: seq<Pair>, n: nat)
    requires Sorted(ps) && n <= |ps|
    ensures Dedup(ps[..n]) == ps[..n]
  {
    if n > 0 {
      DedupSorted(ps, n - 1);
      DedupStep(ps, n - 1);
      if n > 1 {
        SortedAt(ps, n - 2, n - 1);
        KeyLessTotal(ps[n - 2].key, ps[n - 1].key);
      }
      assert ps[..n] == ps[..n - 1] + [ps[n - 1]];
    }
  }

  // ----- input -----

  /** Reads a text. `sorted` is the order in which a sort leaves the parsed pairs; None stands for a
      syntax error or a value that is too large. */
  method HstoreIn(text: Bytes, sorted: seq<Pair>) returns (out: Option<HStore>)
    requires Plain(text)
    requires var ps := Parse(text, WKey, [], []);
      ps.Some? ==> WeaklySorted(sorted) && multiset(sorted) == multiset(ps.value)
    ensures out.None? <==> Parse(text, WKey, [], []).None? ||
                           HEADER + 8 * |Dedup(sorted)| + Weight(Dedup(sorted)) > MAX_ALLOC
    ensures out.Some? ==> Canonical(out.value) && Image(out.value, Dedup(sorted))
  {
    var parser := new HSParser(text);
    var ok := parser.ParseHstore();
    if !ok {
      return None;
    }
    var a := new Pair[|sorted|](i requires 0 <= i < |sorted| => sorted[i]);
    assert a[..] == sorted;
    var n, buflen := UniquePairs(a);
    if HEADER + 8 * n + buflen > MAX_ALLOC {
      return None;
    }
    var hs := PackPairs(a[..n], buflen);
    DedupIsSorted(sorted);
    Built(hs, a[..n], HEADER + 8 * n + buflen);
    return Some(hs);
  }

  /** Reading back the text of an hstore gives the same hstore, whatever sort is used. */
  lemma TextRoundTrip(hs: HStore, sorted: seq<Pair>, back: HStore)
    requires Canonical(hs) && forall i :: 0 <= i < hs.Count() ==> PlainPair(Decode(hs)[i])
    requires WeaklySorted(sorted) && multiset(sorted) == multiset(Decode(hs)) && Image(back, Dedup(sorted))
    ensures Plain(Show(Decode(hs)))
    ensures Parse(Show(Decode(hs)), WKey, [], []) == Some(Decode(hs))
    ensures back == hs
  {
    var ps := Decode(hs);
    ParseShow(ps, []);
    assert [] + ps == ps;
    SortUnique(ps, sorted);
    DedupSorted(ps, |ps|);
    assert ps[..|ps|] == ps;
    LaidIsImage(hs);
    ImageUnique(back, hs, ps);
  }

  /** Printing an hstore and reading the text gives the hstore back. */
  method PrintAndRead(hs: HStore, sorted: seq<Pair>) returns (back: Option<HStore>)
    requires Canonical(hs) && forall i :: 0 <= i < hs.Count() ==> PlainPair(Decode(hs)[i])
    requires hs.VarSize() <= MAX_ALLOC && Room(Decode(hs)) <= MAX_ALLOC
    requires WeaklySorted(sorted) && multiset(sorted) == multiset(Decode(hs))
    ensures back == Some(hs)
  {
    var text := HstoreOut(hs);
    ParseShow(Decode(hs), []);
    assert [] + Decode(hs) == Decode(hs);
    back := HstoreIn(text.value, sorted);
    SortUnique(Decode(hs), sorted);
    DedupSorted(Decode(hs), hs.Count());
    assert Decode(hs)[..hs.Count()] == Decode(hs);
    LaidWeight(hs);
    TextRoundTrip(hs, sorted, back.value);
  }
}
