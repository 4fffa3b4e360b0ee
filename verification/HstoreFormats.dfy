/** Values as either version writes them: each passes the test for its own format and keeps its pairs. */
module HstoreFormats {
  import opened Lexicographic
  import opened HstorePairs
  import opened HstoreLayout
  import opened HstoreBuild
  import opened HstoreUpgrade
  import opened HstoreVersion

  // ----- the new format -----

  /** The bits of a new-format word. */
  function Packing(w: Word): Uint32
  {
    w.end + (if w.isNull then NULL_BIT else 0) + if w.first then FIRST_BIT else 0
  }

  lemma UnpackPacking(w: Word)
    ensures Unpack(Packing(w)) == w
  {
  }

  function Packings(es: seq<Word>): seq<Uint32> { seq(|es|, k requires 0 <= k < |es| => Packing(es[k])) }

  lemma UnpackedPackings(es: seq<Word>)
    ensures Unpacked(Packings(es)) == es
  {
    forall k | 0 <= k < |es| ensures Unpack(Packing(es[k])) == es[k] {
      UnpackPacking(es[k]);
    }
  }

  lemma {:induction false} LaidRises(hs: HStore, n: nat)
    requires hs.Laid() && n <= |hs.entries|
    ensures Rising(hs.entries, n)
  {
    if n > 0 {
      LaidRises(hs, n - 1);
      assert hs.PairOk((n - 1) / 2);
      assert n - 1 == 2 * ((n - 1) / 2) || n - 1 == 2 * ((n - 1) / 2) + 1;
    }
  }

  lemma KeyLengthIs(hs: HStore, i: nat)
    requires hs.Laid() && i < hs.Count()
    ensures KeyLength(hs.entries, i) == |Decode(hs)[i].key| && !hs.entries[2 * i].isNull
  {
    assert hs.PairOk(i);
  }

  lemma {:induction false} SortedLengthens(hs: HStore, n: nat)
    requires Canonical(hs) && n <= hs.Count()
    ensures KeysLengthen(hs.entries, n)
  {
    if n > 1 {
      SortedLengthens(hs, n - 1);
      KeyLengthIs(hs, n - 2);
      KeyLengthIs(hs, n - 1);
      SortedAt(Decode(hs), n - 2, n - 1);
    }
  }

  /** Every value in the packed form with its keys in order passes the test for the new format. */
  lemma CanonicalPasses(hs: HStore, varsize: nat)
    requires Canonical(hs) && hs.VarSize() <= varsize
    ensures NewFormat(hs.Count(), Packings(hs.entries), varsize)
  {
    var ws, count := Packings(hs.entries), hs.Count();
    assert ws[..2 * count] == ws;
    UnpackedPackings(hs.entries);
    LaidRises(hs, 2 * count);
    SortedLengthens(hs, count);
  }

  // ----- the old format -----

  /** What the old format could hold. */
  ghost predicate OldWritable(ps: seq<Pair>)
  {
    && ps != [] && |ps| <= 0x0fff_ffff && Sorted(ps)
    && forall i :: 0 <= i < |ps| ==> |ps[i].key| < 0x1_0000
  }

  /** The words of pair `i`: the length of the value above that of the key, and the place of the strings with the
      null flag in the lowest bit. */
  ghost predicate WrittenAt(ws: seq<Uint32>, ps: seq<Pair>, i: int)
  {
    && 0 <= i < |ps| && 2 * i + 1 < |ws|
    && ws[2 * i] == |ps[i].key| + 0x1_0000 * |ValText(ps[i])|
    && ws[2 * i + 1] == 2 * Start(ps, i) + if ps[i].val.None? then 1 else 0
  }

  /** `ws` are the words of `ps`, whose strings follow one after the other. */
  ghost predicate Written(ws: seq<Uint32>, ps: seq<Pair>)
  {
    |ws| == 2 * |ps| && forall i {:trigger WrittenAt(ws, ps, i)} :: 0 <= i < |ps| ==> WrittenAt(ws, ps, i)
  }

  function EntryOf(p: Pair, pos: nat): OldEntry { OldEntry(|p.key|, |ValText(p)|, p.val.None?, pos) }

  lemma OldWordIs(lens: Uint32, place: Uint32, key: nat, val: nat, none: bool, pos: nat)
    requires key < 0x1_0000 && lens == key + 0x1_0000 * val && place == 2 * pos + if none then 1 else 0
    ensures OldOf(lens, place) == OldEntry(key, val, none, pos)
  {
  }

  lemma EntryIs(ws: seq<Uint32>, ps: seq<Pair>, i: nat)
    requires OldWritable(ps) && Written(ws, ps) && i < |ps|
    ensures OldAt(ws, i) == EntryOf(ps[i], Start(ps, i))
  {
    assert WrittenAt(ws, ps, i);
    var p := ps[i];
    OldWordIs(ws[2 * i], ws[2 * i + 1], |p.key|, |ValText(p)|, p.val.None?, Start(ps, i));
  }

  lemma EntryLength(p: Pair, pos: nat)
    ensures EntryOf(p, pos).Len() == |PairText(p)|
  {
  }

  lemma OneMore(ws: seq<Uint32>, n: nat, e: OldEntry)
    requires 2 * n + 2 <= |ws| && Contiguous(ws, n) && EndOld(ws, n) == e.pos && OldAt(ws, n) == e
    ensures Contiguous(ws, n + 1) && EndOld(ws, n + 1) == e.pos + e.Len()
  {
  }

  lemma {:induction false} WrittenContiguous(ws: seq<Uint32>, ps: seq<Pair>, n: nat)
    requires OldWritable(ps) && Written(ws, ps) && n <= |ps|
    ensures Contiguous(ws, n) && EndOld(ws, n) == Start(ps, n)
  {
    if n == 0 {
      StartZero(ps);
    } else {
      var m := n - 1;
      WrittenContiguous(ws, ps, m);
      StartStep(ps, m);
      EntryIs(ws, ps, m);
      EntryLength(ps[m], Start(ps, m));
      OneMore(ws, m, EntryOf(ps[m], Start(ps, m)));
    }
  }

  lemma {:induction false} WrittenLengthens(ws: seq<Uint32>, ps: seq<Pair>, n: nat)
    requires OldWritable(ps) && Written(ws, ps) && n <= |ps|
    ensures Lengthening(ws, n)
  {
    if n > 1 {
      WrittenLengthens(ws, ps, n - 1);
      SortedAt(ps, n - 2, n - 1);
      EntryIs(ws, ps, n - 2);
      EntryIs(ws, ps, n - 1);
    }
  }

  lemma EntryPair(p: Pair, pos: nat, str: Bytes)
    requires pos + |PairText(p)| <= |str| && str[pos..pos + |PairText(p)|] == PairText(p)
    ensures EntryOf(p, pos).pos + EntryOf(p, pos).Len() <= |str| && OldPair(EntryOf(p, pos), str) == p
  {
    SliceParts(str, pos, pos + |PairText(p)|, p.key, ValText(p));
  }

  lemma WrittenPair(ws: seq<Uint32>, ps: seq<Pair>, i: nat)
    requires OldWritable(ps) && Written(ws, ps) && i < |ps|
    ensures OldAt(ws, i).pos + OldAt(ws, i).Len() <= |Text(ps)| && OldPair(OldAt(ws, i), Text(ps)) == ps[i]
  {
    EntryIs(ws, ps, i);
    TextAt(ps, i);
    StartStep(ps, i);
    EntryPair(ps[i], Start(ps, i), Text(ps));
  }

  lemma WrittenPairs(ws: seq<Uint32>, ps: seq<Pair>)
    requires OldWritable(ps) && Written(ws, ps)
    ensures Contiguous(ws, |ps|) && EndOld(ws, |ps|) == |Text(ps)| && OldPairs(ws, |ps|, Text(ps)) == ps
  {
    WrittenContiguous(ws, ps, |ps|);
    StartZero(ps);
    var qs := OldPairs(ws, |ps|, Text(ps));
    forall i | 0 <= i < |ps| ensures qs[i] == ps[i] {
      WrittenPair(ws, ps, i);
    }
  }

  /** Every value that was written in the old format is rewritten, and keeps its pairs. */
  lemma OldValueKept(ps: seq<Pair>, ws: seq<Uint32>, varsize: nat)
    requires OldWritable(ps) && Written(ws, ps) && varsize == HEADER + 8 * |ps| + |Text(ps)|
    ensures OldFormat(|ps|, ws, varsize) && Decision(|ps|, Unpack(ws[0]).first, ws, varsize) == Rewrite
    ensures Contiguous(ws, |ps|) && EndOld(ws, |ps|) == |Text(ps)| && OldPairs(ws, |ps|, Text(ps)) == ps
  {
    WrittenPairs(ws, ps);
    WrittenLengthens(ws, ps, |ps|);
    EntryIs(ws, ps, 0);
    OldIsRewrittenIff(|ps|, ws, varsize);
  }
}
