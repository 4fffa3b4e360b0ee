/** The packed form of an hstore: one word for each key and each value, holding the position where its
    string ends, and one area for all strings. */
module HstoreLayout {
  import opened Wrappers
  import opened Lexicographic
  import opened HstorePairs

  /** One more than the largest position, which has 30 bits. */
  const POSITIONS: int := 0x4000_0000

  type Position = x: int | 0 <= x < POSITIONS

  /** One word of the entry array: two flags and the position where the string ends. */
  datatype Word = Word(first: bool, isNull: bool, end: Position)

  /** `entries` has two words for each pair. */
  datatype HStore = HStore(entries: seq<Word>, str: Bytes)
  {
    function Count(): nat { |entries| / 2 }

    /** Where the string of word `i` starts: at the end of the string before. */
    function Off(i: nat): nat
      requires i < |entries| && (i == 0 ==> entries[0].first)
    {
      if entries[i].first then 0 else entries[i - 1].end
    }

    /** The words of pair `i`: the first word of all is flagged and no other, positions do not
        decrease, the key is not null and a null value is empty. */
    predicate PairOk(i: nat)
      requires 2 * i + 1 < |entries|
    {
      var k, v := entries[2 * i], entries[2 * i + 1];
      && (k.first <==> i == 0) && !v.first && !k.isNull
      && Off(2 * i) <= k.end <= v.end <= |str|
      && (v.isNull ==> k.end == v.end)
    }

    predicate Laid()
    {
      && |entries| % 2 == 0
      && (forall i {:trigger PairOk(i)} :: 0 <= i < Count() ==> PairOk(i))
      && |str| == if entries == [] then 0 else entries[|entries| - 1].end
    }

    function At(i: nat): Pair
      requires 2 * i + 1 < |entries| && PairOk(i)
    {
      var k, v := entries[2 * i], entries[2 * i + 1];
      Pair(str[Off(2 * i)..k.end], if v.isNull then None else Some(str[Off(2 * i + 1)..v.end]))
    }

    /** Bytes of the whole value, with its header. */
    function VarSize(): nat { 8 + 4 * |entries| + |str| }
  }

  function Decode(hs: HStore): seq<Pair>
    requires hs.Laid()
  {
    seq(hs.Count(), i requires 0 <= i < hs.Count() => assert hs.PairOk(i); hs.At(i))
  }

  /** Keys in order, in the packed form. */
  predicate Canonical(hs: HStore) { hs.Laid() && Sorted(Decode(hs)) }

  function EndOf(hs: HStore, n: nat): nat
    requires 2 * n <= |hs.entries|
  {
    if n == 0 then 0 else hs.entries[2 * n - 1].end
  }

  // ----- packing -----

  function ValText(p: Pair): Bytes { if p.val.None? then [] else p.val.value }

  function PairText(p: Pair): Bytes { p.key + ValText(p) }

  function Text(ps: seq<Pair>): Bytes
  {
    if ps == [] then [] else Text(ps[..|ps| - 1]) + PairText(ps[|ps| - 1])
  }

  /** Where the strings of pair `i` start. */
  function Start(ps: seq<Pair>, i: nat): nat
    requires i <= |ps|
  {
    |Text(ps[..i])|
  }

  /** The low 30 bits of a position. */
  function Mask(pos: nat): Position { if pos < POSITIONS then pos else pos % POSITIONS }

  function KeyWord(first: bool, pos: nat, p: Pair): Word { Word(first, false, Mask(pos + |p.key|)) }

  function ValWord(pos: nat, p: Pair): Word { Word(false, p.val.None?, Mask(pos + |PairText(p)|)) }

  /** The words of pair `i` of `ps` are in their place. */
  predicate Packed(es: seq<Word>, ps: seq<Pair>, i: nat, flagged: bool)
    requires i < |ps| && 2 * i + 1 < |es|
  {
    && es[2 * i] == KeyWord(flagged && i == 0, Start(ps, i), ps[i])
    && es[2 * i + 1] == ValWord(Start(ps, i), ps[i])
  }

  ghost predicate AllPacked(es: seq<Word>, ps: seq<Pair>, flagged: bool)
  {
    |es| == 2 * |ps| && forall i {:trigger Packed(es, ps, i, flagged)} :: 0 <= i < |ps| ==> Packed(es, ps, i, flagged)
  }

  /** `hs` is the packed form of `ps`. */
  ghost predicate Image(hs: HStore, ps: seq<Pair>) { AllPacked(hs.entries, ps, true) && hs.str == Text(ps) }

  // ----- the packed form has one reading -----

  lemma StartStep(ps: seq<Pair>, i: nat)
    requires i < |ps|
    ensures Start(ps, i + 1) == Start(ps, i) + |PairText(ps[i])|
    ensures Text(ps[..i + 1]) == Text(ps[..i]) + PairText(ps[i])
  {
    assert ps[..i + 1][..i] == ps[..i];
  }

  lemma {:induction false} TextPrefix(ps: seq<Pair>, i: nat, j: nat)
    requires i <= j <= |ps|
    ensures Text(ps[..i]) <= Text(ps[..j])
  {
    if i < j {
      TextPrefix(ps, i, j - 1);
      StartStep(ps, j - 1);
    }
  }

  lemma SliceParts<T>(s: seq<T>, a: nat, b: nat, key: seq<T>, val: seq<T>)
    requires a <= b <= |s| && s[a..b] == key + val
    ensures a + |key| <= b && s[a..a + |key|] == key && s[a + |key|..b] == val
  {
    var both := s[a..b];
    assert both[..|key|] == key && both[|key|..] == val;
  }

  lemma TextAt(ps: seq<Pair>, i: nat)
    requires i < |ps|
    ensures Start(ps, i) <= Start(ps, i + 1) <= |Text(ps)|
    ensures Text(ps)[Start(ps, i)..Start(ps, i + 1)] == PairText(ps[i])
  {
    StartStep(ps, i);
    TextPrefix(ps, i + 1, |ps|);
    assert ps[..|ps|] == ps;
  }

  lemma StartZero(ps: seq<Pair>)
    ensures Start(ps, 0) == 0 && Start(ps, |ps|) == |Text(ps)|
  {
    assert ps[..0] == [] && ps[..|ps|] == ps;
  }

  /** The numbers in the words of pair `i`, as long as positions fit. */
  lemma PackedEnds(es: seq<Word>, ps: seq<Pair>, i: nat, flagged: bool)
    requires i < |ps| && 2 * i + 1 < |es| && Packed(es, ps, i, flagged) && |Text(ps)| < POSITIONS
    ensures es[2 * i].end == Start(ps, i) + |ps[i].key| && es[2 * i + 1].end == Start(ps, i + 1)
  {
    StartStep(ps, i);
    TextAt(ps, i);
  }

  /** A pair that is packed at `pos` is read back. */
  lemma PairFrom(hs: HStore, i: nat, pos: nat, p: Pair)
    requires 2 * i + 1 < |hs.entries| && pos + |PairText(p)| <= |hs.str| < POSITIONS
    requires hs.entries[2 * i] == Word(i == 0, false, pos + |p.key|)
    requires hs.entries[2 * i + 1] == Word(false, p.val.None?, pos + |PairText(p)|)
    requires pos == EndOf(hs, i) && hs.str[pos..pos + |PairText(p)|] == PairText(p)
    ensures hs.PairOk(i) && hs.At(i) == p
  {
    SliceParts(hs.str, pos, pos + |PairText(p)|, p.key, ValText(p));
  }

  lemma ImageEnd(hs: HStore, ps: seq<Pair>, n: nat)
    requires Image(hs, ps) && |Text(ps)| < POSITIONS && n <= |ps|
    ensures EndOf(hs, n) == Start(ps, n)
  {
    if n == 0 {
      StartZero(ps);
    } else {
      assert Packed(hs.entries, ps, n - 1, true);
      PackedEnds(hs.entries, ps, n - 1, true);
    }
  }

  lemma ImagePair(hs: HStore, ps: seq<Pair>, i: nat)
    requires Image(hs, ps) && |Text(ps)| < POSITIONS && i < |ps|
    ensures hs.PairOk(i) && hs.At(i) == ps[i]
  {
    assert Packed(hs.entries, ps, i, true);
    PackedEnds(hs.entries, ps, i, true);
    TextAt(ps, i);
    StartStep(ps, i);
    ImageEnd(hs, ps, i);
    PairFrom(hs, i, Start(ps, i), ps[i]);
  }

  lemma ImageLaid(hs: HStore, ps: seq<Pair>)
    requires Image(hs, ps) && |Text(ps)| < POSITIONS
    ensures hs.Laid()
  {
    forall i {:trigger hs.PairOk(i)} | 0 <= i < |ps| ensures hs.PairOk(i) {
      ImagePair(hs, ps, i);
    }
    StartZero(ps);
    ImageEnd(hs, ps, |ps|);
  }

  /** Unpacking gives back the pairs that were packed. */
  lemma ImageDecodes(hs: HStore, ps: seq<Pair>)
    requires Image(hs, ps) && |Text(ps)| < POSITIONS
    ensures hs.Laid() && Decode(hs) == ps
  {
    ImageLaid(hs, ps);
    forall i | 0 <= i < |ps| ensures Decode(hs)[i] == ps[i] {
      ImagePair(hs, ps, i);
    }
  }

  // ----- every layout is a packed form -----

  lemma PairTextOf(hs: HStore, i: nat)
    requires 2 * i + 1 < |hs.entries| && hs.PairOk(i)
    ensures EndOf(hs, i) <= EndOf(hs, i + 1) <= |hs.str|
    ensures PairText(hs.At(i)) == hs.str[EndOf(hs, i)..EndOf(hs, i + 1)]
    ensures |hs.At(i).key| == hs.entries[2 * i].end - EndOf(hs, i)
  {
    var a, b, c := hs.Off(2 * i), hs.entries[2 * i].end, hs.entries[2 * i + 1].end;
    assert hs.str[a..b] + hs.str[b..c] == hs.str[a..c];
  }

  lemma JoinSlices<T>(s: seq<T>, a: nat, b: nat)
    requires a <= b <= |s|
    ensures s[..a] + s[a..b] == s[..b]
  {
  }

  lemma {:induction false} TextOfDecoded(hs: HStore, n: nat)
    requires hs.Laid() && n <= hs.Count()
    ensures EndOf(hs, n) <= |hs.str| && Text(Decode(hs)[..n]) == hs.str[..EndOf(hs, n)]
  {
    if n > 0 {
      TextOfDecoded(hs, n - 1);
      StartStep(Decode(hs), n - 1);
      assert hs.PairOk(n - 1);
      PairTextOf(hs, n - 1);
      JoinSlices(hs.str, EndOf(hs, n - 1), EndOf(hs, n));
    }
  }

  lemma LaidPacked(hs: HStore, i: nat)
    requires hs.Laid() && i < hs.Count()
    ensures Packed(hs.entries, Decode(hs), i, true)
  {
    assert hs.PairOk(i);
    TextOfDecoded(hs, i);
    PairTextOf(hs, i);
  }

  /** Every value that is laid out as it should be is the packed form of its own pairs. */
  lemma LaidIsImage(hs: HStore)
    requires hs.Laid()
    ensures Image(hs, Decode(hs)) && |Text(Decode(hs))| < POSITIONS
  {
    forall i {:trigger Packed(hs.entries, Decode(hs), i, true)} | 0 <= i < |Decode(hs)|
      ensures Packed(hs.entries, Decode(hs), i, true)
    {
      LaidPacked(hs, i);
    }
    TextOfDecoded(hs, hs.Count());
    assert Decode(hs)[..hs.Count()] == Decode(hs);
  }

  /** The packed form of given pairs is unique. */
  lemma ImageUnique(a: HStore, b: HStore, ps: seq<Pair>)
    requires Image(a, ps) && Image(b, ps)
    ensures a == b
  {
    forall k | 0 <= k < |a.entries| ensures a.entries[k] == b.entries[k] {
      assert Packed(a.entries, ps, k / 2, true) && Packed(b.entries, ps, k / 2, true);
      assert k == 2 * (k / 2) || k == 2 * (k / 2) + 1;
    }
  }
}
