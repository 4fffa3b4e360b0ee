/** The upgrade of an old-format hstore: each pair of old words is overwritten by a pair of new ones. */
module HstoreUpgrade {
  import opened Wrappers
  import opened Lexicographic
  import opened HstorePairs
  import opened HstoreLayout
  import opened HstoreBuild

  type Uint32 = x: int | 0 <= x < 0x1_0000_0000

  const NULL_BIT: int := 0x4000_0000
  const FIRST_BIT: int := 0x8000_0000

  /** A new-format word, read from its bits. */
  function Unpack(w: Uint32): Word { Word(w >= FIRST_BIT, (w / NULL_BIT) % 2 == 1, w % NULL_BIT) }

  /** An old entry: two lengths of 16 bits in one word, a null flag and a position in the other. */
  datatype OldEntry = OldEntry(keylen: nat, vallen: nat, isNull: bool, pos: nat)
  {
    function Len(): nat { keylen + if isNull then 0 else vallen }
  }

  function OldOf(lens: Uint32, place: Uint32): OldEntry
  {
    OldEntry(lens % 0x1_0000, lens / 0x1_0000, place % 2 == 1, place / 2)
  }

  function OldAt(ws: seq<Uint32>, i: nat): OldEntry
    requires 2 * i + 1 < |ws|
  {
    OldOf(ws[2 * i], ws[2 * i + 1])
  }

  /** Where the strings of the first `n` entries end. */
  function EndOld(ws: seq<Uint32>, n: nat): nat
    requires 2 * n <= |ws|
  {
    if n == 0 then 0 else EndOld(ws, n - 1) + OldAt(ws, n - 1).Len()
  }

  /** Each of the first `n` entries starts where the one before ends. */
  predicate Contiguous(ws: seq<Uint32>, n: nat)
    requires 2 * n <= |ws|
  {
    n == 0 || (Contiguous(ws, n - 1) && OldAt(ws, n - 1).pos == EndOld(ws, n - 1))
  }

  /** Key lengths do not decrease. */
  predicate Lengthening(ws: seq<Uint32>, n: nat)
    requires 2 * n <= |ws|
  {
    n <= 1 || (Lengthening(ws, n - 1) && OldAt(ws, n - 2).keylen <= OldAt(ws, n - 1).keylen)
  }

  lemma {:induction false} OldPrefix(ws: seq<Uint32>, k: nat, n: nat)
    requires k <= n && 2 * n <= |ws|
    ensures Contiguous(ws, n) ==> Contiguous(ws, k)
    ensures Lengthening(ws, n) ==> Lengthening(ws, k)
  {
    if k < n {
      OldPrefix(ws, k, n - 1);
    }
  }

  /** An old-format value of `varsize` bytes: `count` entries and their strings fit into it. */
  predicate OldFormat(count: nat, ws: seq<Uint32>, varsize: nat)
  {
    count == 0 ||
    (count <= 0x0fff_ffff && HEADER + 8 * count <= varsize && 2 * count <= |ws| &&
     Lengthening(ws, count) && Contiguous(ws, count) && HEADER + 8 * count + EndOld(ws, count) <= varsize)
  }

  method CheckLengths(ws: seq<Uint32>, count: nat) returns (ok: bool)
    requires 2 * count <= |ws| && count > 0
    ensures ok <==> Lengthening(ws, count)
  {
    var i: nat := 1;
    while i < count
      invariant 1 <= i <= count && Lengthening(ws, i)
    {
      if OldAt(ws, i).keylen < OldAt(ws, i - 1).keylen {
        OldPrefix(ws, i + 1, count);
        return false;
      }
      i := i + 1;
    }
    return true;
  }

  method CheckPositions(ws: seq<Uint32>, count: nat) returns (ok: bool, lastpos: nat)
    requires 2 * count <= |ws|
    ensures ok <==> Contiguous(ws, count)
    ensures ok ==> lastpos == EndOld(ws, count)
  {
    var i: nat := 0;
    lastpos := 0;
    while i < count
      invariant i <= count && lastpos == EndOld(ws, i) && Contiguous(ws, i)
    {
      if OldAt(ws, i).pos != lastpos {
        OldPrefix(ws, i + 1, count);
        return false, lastpos;
      }
      lastpos := lastpos + OldAt(ws, i).Len();
      i := i + 1;
    }
    ok := true;
  }

  /** 0 for invalid, 1 for valid with room to spare, 2 for exactly valid. `ws` are the words after the
      header. */
  method ValidOldFormat(size_: Uint32, ws: seq<Uint32>, varsize: nat) returns (r: int)
    requires varsize >= HEADER && |ws| == (varsize - HEADER) / 4
    ensures r in {0, 1, 2}
    ensures r > 0 <==> size_ < FIRST_BIT && OldFormat(size_, ws, varsize)
    ensures size_ > 0 && r > 0 ==> (r == 2 <==> HEADER + 8 * size_ + EndOld(ws, size_) == varsize)
  {
    if size_ >= FIRST_BIT {
      return 0;
    }
    var count: nat := size_;
    if count == 0 {
      return 2;
    }
    if count > 0x0fff_ffff || HEADER + 8 * count > varsize {
      return 0;
    }
    var lengths := CheckLengths(ws, count);
    if !lengths {
      return 0;
    }
    var positions, lastpos := CheckPositions(ws, count);
    if !positions {
      return 0;
    }
    var vsize := HEADER + 8 * count + lastpos;
    return if vsize > varsize then 0 else if vsize != varsize then 1 else 2;
  }

  // ----- meaning -----

  function OldPair(e: OldEntry, str: Bytes): Pair
    requires e.pos + e.Len() <= |str|
  {
    Pair(str[e.pos..e.pos + e.keylen],
         if e.isNull then None else Some(str[e.pos + e.keylen..e.pos + e.Len()]))
  }

  lemma {:induction false} EndOldMono(ws: seq<Uint32>, i: nat, j: nat)
    requires i <= j && 2 * j <= |ws|
    ensures EndOld(ws, i) <= EndOld(ws, j)
  {
    if i < j {
      EndOldMono(ws, i, j - 1);
    }
  }

  lemma OldInside(ws: seq<Uint32>, count: nat, i: nat)
    requires 2 * count <= |ws| && Contiguous(ws, count) && i < count
    ensures OldAt(ws, i).pos == EndOld(ws, i)
    ensures EndOld(ws, i) + OldAt(ws, i).Len() == EndOld(ws, i + 1) <= EndOld(ws, count)
  {
    OldPrefix(ws, i + 1, count);
    EndOldMono(ws, i + 1, count);
  }

  /** The pairs of an old-format value. */
  ghost function OldPairs(ws: seq<Uint32>, count: nat, str: Bytes): seq<Pair>
    requires 2 * count <= |ws| && Contiguous(ws, count) && EndOld(ws, count) <= |str|
  {
    seq(count, i requires 0 <= i < count => OldInside(ws, count, i); OldPair(OldAt(ws, i), str))
  }

  lemma OldPairText(e: OldEntry, str: Bytes)
    requires e.pos + e.Len() <= |str|
    ensures PairText(OldPair(e, str)) == str[e.pos..e.pos + e.Len()] && |OldPair(e, str).key| == e.keylen
  {
    var a, b, c := e.pos, e.pos + e.keylen, e.pos + e.Len();
    assert str[a..b] + str[b..c] == str[a..c];
  }

  lemma TextStep(ps: seq<Pair>, n: nat, str: Bytes, a: nat, b: nat)
    requires n < |ps| && a <= b <= |str| && Text(ps[..n]) == str[..a] && PairText(ps[n]) == str[a..b]
    ensures Text(ps[..n + 1]) == str[..b]
  {
    StartStep(ps, n);
    JoinSlices(str, a, b);
  }

  ghost predicate IsOldPair(ws: seq<Uint32>, str: Bytes, ps: seq<Pair>, i: nat)
    requires i < |ps| && 2 * i + 1 < |ws|
  {
    var e := OldAt(ws, i);
    e.pos == EndOld(ws, i) && EndOld(ws, i + 1) <= |str| && ps[i] == OldPair(e, str)
  }

  /** `ps` are the pairs of an old-format value. */
  ghost predicate AreOldPairs(ws: seq<Uint32>, count: nat, str: Bytes, ps: seq<Pair>)
  {
    && |ps| == count && 2 * count <= |ws|
    && forall i {:trigger IsOldPair(ws, str, ps, i)} :: 0 <= i < count ==> IsOldPair(ws, str, ps, i)
  }

  lemma OldPairsAre(ws: seq<Uint32>, count: nat, str: Bytes)
    requires 2 * count <= |ws| && Contiguous(ws, count) && EndOld(ws, count) <= |str|
    ensures AreOldPairs(ws, count, str, OldPairs(ws, count, str))
  {
    var ps := OldPairs(ws, count, str);
    forall i {:trigger IsOldPair(ws, str, ps, i)} | 0 <= i < count ensures IsOldPair(ws, str, ps, i) {
      OldInside(ws, count, i);
    }
  }

  lemma {:induction false} OldText(ws: seq<Uint32>, count: nat, str: Bytes, ps: seq<Pair>, n: nat)
    requires AreOldPairs(ws, count, str, ps) && n <= count
    ensures EndOld(ws, n) <= |str| && Text(ps[..n]) == str[..EndOld(ws, n)]
  {
    if n > 0 {
      OldText(ws, count, str, ps, n - 1);
      assert IsOldPair(ws, str, ps, n - 1);
      OldPairText(OldAt(ws, n - 1), str);
      TextStep(ps, n - 1, str, EndOld(ws, n - 1), EndOld(ws, n));
    }
  }

  // ----- the upgrade -----

  /** The new words of an old entry. */
  function NewKey(e: OldEntry): Uint32 { Mask(e.pos + e.keylen) }

  function NewVal(e: OldEntry): Uint32 { Mask(e.pos + e.Len()) + if e.isNull then NULL_BIT else 0 }

  lemma NewValWord(e: OldEntry)
    requires e.pos + e.Len() < POSITIONS
    ensures Unpack(NewVal(e)) == Word(false, e.isNull, e.pos + e.Len())
  {
    var x := e.pos + e.Len();
    assert NewVal(e) == x + if e.isNull then NULL_BIT else 0;
  }

  function Unpacked(ws: seq<Uint32>): seq<Word> { seq(|ws|, k requires 0 <= k < |ws| => Unpack(ws[k])) }

  /** The words that the upgrade writes for each old entry. */
  ghost predicate Rewritten(was: seq<Uint32>, now: seq<Uint32>, count: nat)
  {
    && 2 * count == |now| && 2 * count <= |was|
    && forall i {:trigger OldAt(was, i)} :: 0 <= i < count ==>
         && now[2 * i] == NewKey(OldAt(was, i)) + (if i == 0 then FIRST_BIT else 0)
         && now[2 * i + 1] == NewVal(OldAt(was, i))
  }

  /** Overwrites the entries one by one, each after it has been read. */
  method UpgradeEntries(ws: array<Uint32>, count: nat)
    requires 2 * count <= ws.Length
    modifies ws
    ensures Rewritten(old(ws[..]), ws[..2 * count], count)
  {
    ghost var was := ws[..];
    var i: nat := 0;
    while i < count
      invariant i <= count
      invariant forall k {:trigger OldAt(was, k)} :: 0 <= k < i ==>
        ws[2 * k] == NewKey(OldAt(was, k)) && ws[2 * k + 1] == NewVal(OldAt(was, k))
      invariant forall k :: 2 * i <= k < ws.Length ==> ws[k] == was[k]
    {
      var e := OldOf(ws[2 * i], ws[2 * i + 1]);
      assert e == OldAt(was, i);
      ws[2 * i] := NewKey(e);
      ws[2 * i + 1] := NewVal(e);
      i := i + 1;
    }
    if count > 0 {
      assert ws[0] == NewKey(OldAt(was, 0));
      ws[0] := ws[0] + FIRST_BIT;
    }
  }

  lemma RewrittenWords(was: seq<Uint32>, now: seq<Uint32>, count: nat, i: nat)
    requires Rewritten(was, now, count) && Contiguous(was, count) && EndOld(was, count) < POSITIONS && i < count
    ensures var e := OldAt(was, i);
      && Unpacked(now)[2 * i] == Word(i == 0, false, Mask(e.pos + e.keylen))
      && Unpacked(now)[2 * i + 1] == Word(false, e.isNull, Mask(e.pos + e.Len()))
      && e.pos + e.Len() == EndOld(was, i + 1) < POSITIONS
  {
    OldInside(was, count, i);
    NewValWord(OldAt(was, i));
  }

  /** The words of an upgraded value pack the pairs of the old one. */
  lemma UpgradedPacked(was: seq<Uint32>, es: seq<Word>, count: nat, str: Bytes, ps: seq<Pair>, i: nat)
    requires AreOldPairs(was, count, str, ps) && |es| == 2 * count && i < count
    requires EndOld(was, i + 1) < POSITIONS
    requires var e := OldAt(was, i);
      && es[2 * i] == Word(i == 0, false, Mask(e.pos + e.keylen))
      && es[2 * i + 1] == Word(false, e.isNull, Mask(e.pos + e.Len()))
    ensures Packed(es, ps, i, true)
  {
    assert IsOldPair(was, str, ps, i);
    OldText(was, count, str, ps, i);
    OldPairText(OldAt(was, i), str);
  }

  lemma UpgradedImage(was: seq<Uint32>, now: seq<Uint32>, count: nat, str: Bytes, ps: seq<Pair>)
    requires Rewritten(was, now, count) && Contiguous(was, count) && EndOld(was, count) < POSITIONS
    requires AreOldPairs(was, count, str, ps) && EndOld(was, count) <= |str|
    ensures Image(HStore(Unpacked(now), str[..EndOld(was, count)]), ps) && |Text(ps)| == EndOld(was, count)
  {
    forall i {:trigger Packed(Unpacked(now), ps, i, true)} | 0 <= i < count
      ensures Packed(Unpacked(now), ps, i, true)
    {
      RewrittenWords(was, now, count, i);
      EndOldMono(was, i + 1, count);
      UpgradedPacked(was, Unpacked(now), count, str, ps, i);
    }
    OldText(was, count, str, ps, count);
    assert ps[..count] == ps;
  }

  lemma UpgradedMeaning(was: seq<Uint32>, now: seq<Uint32>, count: nat, str: Bytes, hs: HStore)
    requires Rewritten(was, now, count) && Contiguous(was, count)
    requires EndOld(was, count) <= |str| && EndOld(was, count) < POSITIONS
    requires hs == HStore(Unpacked(now), str[..EndOld(was, count)])
    ensures hs.Laid() && Decode(hs) == OldPairs(was, count, str)
  {
    var ps := OldPairs(was, count, str);
    OldPairsAre(was, count, str);
    UpgradedImage(was, now, count, str, ps);
    ImageDecodes(hs, ps);
  }

  /** The last word says where the strings end. */
  lemma LastEnd(was: seq<Uint32>, now: seq<Uint32>, count: nat)
    requires Rewritten(was, now, count) && Contiguous(was, count) && EndOld(was, count) < POSITIONS && count > 0
    ensures Unpacked(now)[2 * count - 1].end == EndOld(was, count)
  {
    RewrittenWords(was, now, count, count - 1);
  }

  /** The upgraded value has the pairs of the old one, and the size that is set for it is exact. */
  method Upgrade(ws: array<Uint32>, count: nat, str: Bytes, varsize: nat) returns (hs: HStore, newsize: nat)
    requires OldFormat(count, ws[..], varsize) && 2 * count <= ws.Length && varsize <= MAX_ALLOC
    requires HEADER + 8 * count <= varsize && |str| == varsize - HEADER - 8 * count
    modifies ws
    ensures Contiguous(old(ws[..]), count) && EndOld(old(ws[..]), count) <= |str|
    ensures hs.Laid() && Decode(hs) == OldPairs(old(ws[..]), count, str)
    ensures newsize == hs.VarSize() <= varsize
  {
    ghost var was := ws[..];
    UpgradeEntries(ws, count);
    var now := Unpacked(ws[..2 * count]);
    var buflen := if count > 0 then now[2 * count - 1].end else 0;
    if count > 0 {
      LastEnd(was, ws[..2 * count], count);
    }
    hs := HStore(now, str[..buflen]);
    UpgradedMeaning(was, ws[..2 * count], count, str, hs);
    newsize := HEADER + 8 * count + buflen;
  }

  /** Small values are told apart by a single bit. An old-format value is taken for a new one there if and
      only if its first value is null and yet has a length of 32768 or more. */
  lemma MistakenIff(count: nat, ws: seq<Uint32>, varsize: nat)
    requires count > 0 && OldFormat(count, ws, varsize) && varsize < 32768
    ensures Unpack(ws[0]).first <==> OldAt(ws, 0).isNull && OldAt(ws, 0).vallen >= 32768
  {
    EndOldMono(ws, 1, count);
    assert EndOld(ws, 0) == 0;
  }

  const MISTAKEN: seq<Uint32> := [0x8000_0000, 1]

  /** Such a value: it has the pair of an empty key and null, and is taken for one with the empty key and a
      value of one byte, the byte `b` that happens to follow it. */
  lemma MistakenValue(b: Byte)
    ensures OldFormat(1, MISTAKEN, 16) && Contiguous(MISTAKEN, 1) && EndOld(MISTAKEN, 1) == 0
    ensures OldPairs(MISTAKEN, 1, []) == [Pair([], None)] && Unpack(MISTAKEN[0]).first
    ensures var hs := HStore(Unpacked(MISTAKEN), [b]);
      hs.Laid() && Decode(hs) == [Pair([], Some([b]))] && hs.VarSize() == 17
  {
    assert OldAt(MISTAKEN, 0) == OldEntry(0, 32768, true, 0);
    assert Unpacked(MISTAKEN) == [Word(true, false, 0), Word(false, false, 1)];
    assert EndOld(MISTAKEN, 0) == 0;
    var hs := HStore(Unpacked(MISTAKEN), [b]);
    assert hs.PairOk(0);
    assert [b][0..1] == [b];
    assert hs.At(0) == Pair([], Some([b]));
    assert Decode(hs) == [hs.At(0)];
  }
}
