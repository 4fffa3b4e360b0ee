/** Telling old-format and new-format hstores apart: what becomes of a value that is not flagged as new. */
module HstoreVersion {
  import opened Lexicographic
  import opened HstorePairs
  import opened HstoreLayout
  import opened HstoreBuild
  import opened HstoreUpgrade

  const COUNTS: int := 0x1000_0000

  // ----- the test for the new format -----

  /** Only the first of the first `n` words is flagged as first, and positions do not decrease. */
  predicate Rising(es: seq<Word>, n: nat)
    requires n <= |es|
  {
    n == 0 || (Rising(es, n - 1) && if n == 1 then es[0].first else !es[n - 1].first && es[n - 2].end <= es[n - 1].end)
  }

  function KeyLength(es: seq<Word>, i: nat): int
    requires 2 * i < |es|
  {
    if es[2 * i].first || i == 0 then es[2 * i].end else es[2 * i].end - es[2 * i - 1].end
  }

  /** Key lengths do not decrease, and no key but perhaps the first has a null flag. */
  predicate KeysLengthen(es: seq<Word>, n: nat)
    requires 2 * n <= |es|
  {
    n <= 1 || (KeysLengthen(es, n - 1) && KeyLength(es, n - 2) <= KeyLength(es, n - 1) && !es[2 * (n - 1)].isNull)
  }

  /** A value of `varsize` bytes passes for `count` pairs in the new format. */
  predicate NewFormat(count: nat, ws: seq<Uint32>, varsize: nat)
  {
    count == 0 ||
    (2 * count <= |ws| &&
     var es := Unpacked(ws[..2 * count]);
     HEADER + 8 * count + es[2 * count - 1].end <= varsize && Rising(es, 2 * count) && KeysLengthen(es, count))
  }

  lemma {:induction false} RisingPrefix(es: seq<Word>, k: nat, n: nat)
    requires k <= n <= |es| && Rising(es, n)
    ensures Rising(es, k)
  {
    if k < n {
      RisingPrefix(es, k, n - 1);
    }
  }

  method CheckRising(es: seq<Word>) returns (ok: bool)
    requires |es| > 0 && es[0].first
    ensures ok <==> Rising(es, |es|)
  {
    var i: nat := 1;
    while i < |es|
      invariant 1 <= i <= |es| && Rising(es, i)
    {
      if es[i].first || es[i].end < es[i - 1].end {
        if Rising(es, |es|) {
          RisingPrefix(es, i + 1, |es|);
        }
        return false;
      }
      i := i + 1;
    }
    return true;
  }

  lemma {:induction false} LengthenPrefix(es: seq<Word>, k: nat, n: nat)
    requires k <= n && 2 * n <= |es| && KeysLengthen(es, n)
    ensures KeysLengthen(es, k)
  {
    if k < n {
      LengthenPrefix(es, k, n - 1);
    }
  }

  method CheckKeys(es: seq<Word>, count: nat) returns (ok: bool)
    requires 2 * count == |es| && count > 0
    ensures ok <==> KeysLengthen(es, count)
  {
    var i: nat := 1;
    while i < count
      invariant 1 <= i <= count && KeysLengthen(es, i)
    {
      if KeyLength(es, i) < KeyLength(es, i - 1) || es[2 * i].isNull {
        if KeysLengthen(es, count) {
          LengthenPrefix(es, i + 1, count);
        }
        return false;
      }
      i := i + 1;
    }
    return true;
  }

  /** 0 for invalid, 1 for valid with room to spare, 2 for exactly valid. The last word may lie beyond the
      value; its size is then too large whatever is found there. */
  method ValidNewFormat(size_: Uint32, ws: seq<Uint32>, varsize: nat) returns (r: int)
    requires varsize >= HEADER && |ws| == (varsize - HEADER) / 4
    ensures r in {0, 1, 2}
    ensures r > 0 <==> size_ >= FIRST_BIT || NewFormat(size_ % COUNTS, ws, varsize)
    ensures var count := size_ % COUNTS;
      0 < r && size_ < FIRST_BIT && count > 0 ==>
        (r == 2 <==> HEADER + 8 * count + Unpack(ws[2 * count - 1]).end == varsize)
  {
    var count: nat := size_ % COUNTS;
    if size_ >= FIRST_BIT || count == 0 {
      return 2;
    }
    if 2 * count > |ws| {
      return 0;
    }
    var es := Unpacked(ws[..2 * count]);
    var vsize := HEADER + 8 * count + es[2 * count - 1].end;
    if !es[0].first || vsize > varsize {
      if Rising(es, 2 * count) {
        RisingPrefix(es, 1, 2 * count);
      }
      return 0;
    }
    var rising := CheckRising(es);
    if !rising {
      return 0;
    }
    var keys := CheckKeys(es, count);
    if !keys {
      return 0;
    }
    return if vsize != varsize then 1 else 2;
  }

  lemma {:induction false} RisingAt(es: seq<Word>, n: nat, i: nat)
    requires i < n <= |es| && Rising(es, n)
    ensures es[i].first <==> i == 0
    ensures i > 0 ==> es[i - 1].end <= es[i].end
  {
    if i < n - 1 {
      RisingAt(es, n - 1, i);
    }
  }

  lemma {:induction false} RisingTo(es: seq<Word>, n: nat, i: nat)
    requires i < n <= |es| && Rising(es, n)
    ensures es[i].end <= es[n - 1].end
  {
    if i < n - 1 {
      RisingTo(es, n - 1, i);
    }
  }

  lemma {:induction false} LengthenAt(es: seq<Word>, n: nat, i: nat)
    requires i < n && 2 * n <= |es| && KeysLengthen(es, n)
    ensures i > 0 ==> !es[2 * i].isNull
  {
    if i < n - 1 {
      LengthenAt(es, n - 1, i);
    }
  }

  /** Pair `i` has no null key, and no null value with a string. */
  predicate NullEmpty(es: seq<Word>, i: int)
  {
    && 0 <= i && 2 * i + 1 < |es|
    && !es[2 * i].isNull && (es[2 * i + 1].isNull ==> es[2 * i].end == es[2 * i + 1].end)
  }

  predicate NullsEmpty(es: seq<Word>, count: nat)
  {
    forall i {:trigger NullEmpty(es, i)} :: 0 <= i < count ==> NullEmpty(es, i)
  }

  lemma PairOkIff(es: seq<Word>, count: nat, str: Bytes, i: nat)
    requires i < count && |es| == 2 * count && Rising(es, 2 * count) && |str| == es[2 * count - 1].end
    ensures HStore(es, str).PairOk(i) <==> NullEmpty(es, i)
  {
    RisingAt(es, 2 * count, 2 * i);
    RisingAt(es, 2 * count, 2 * i + 1);
    RisingTo(es, 2 * count, 2 * i + 1);
  }

  /** What the test leaves out: a value that passes it is well laid out if and only if its nulls are empty.
      For keys that is left out for the first one only. */
  lemma NewIsLaid(count: nat, ws: seq<Uint32>, varsize: nat, str: Bytes)
    requires count > 0 && NewFormat(count, ws, varsize) && |str| == Unpack(ws[2 * count - 1]).end
    ensures HStore(Unpacked(ws[..2 * count]), str).Laid() <==> NullsEmpty(Unpacked(ws[..2 * count]), count)
    ensures forall i :: 0 < i < count ==> !Unpack(ws[2 * i]).isNull
  {
    var es := Unpacked(ws[..2 * count]);
    LaidIff(es, count, str);
    forall i | 0 < i < count ensures !Unpack(ws[2 * i]).isNull {
      LengthenAt(es, count, i);
    }
  }

  lemma LaidIff(es: seq<Word>, count: nat, str: Bytes)
    requires count > 0 && |es| == 2 * count && Rising(es, 2 * count) && |str| == es[2 * count - 1].end
    ensures HStore(es, str).Laid() <==> NullsEmpty(es, count)
  {
    var hs := HStore(es, str);
    if hs.Laid() {
      forall i {:trigger NullEmpty(es, i)} | 0 <= i < count ensures NullEmpty(es, i) {
        PairOkIff(es, count, str, i);
        assert hs.PairOk(i);
      }
    }
    if NullsEmpty(es, count) {
      forall i {:trigger hs.PairOk(i)} | 0 <= i < count ensures hs.PairOk(i) {
        PairOkIff(es, count, str, i);
        assert NullEmpty(es, i);
      }
    }
  }

  // ----- the decision -----

  /** What is done with a value: it is flagged as new already, taken as it is for a new one, rewritten, or
      refused. */
  datatype Verdict = Flagged | Taken | Rewrite | Refused

  /** `first` is the flag of the word after the header. */
  ghost function Decision(size_: Uint32, first: bool, ws: seq<Uint32>, varsize: nat): Verdict
  {
    if size_ >= FIRST_BIT then Flagged
    else if size_ == 0 || (varsize < 32768 && first) then Taken
    else if OldFormat(size_, ws, varsize) then Rewrite
    else if NewFormat(size_ % COUNTS, ws, varsize) then Taken
    else Refused
  }

  /** `word` is what follows the header. */
  method Decide(size_: Uint32, word: Uint32, ws: seq<Uint32>, varsize: nat) returns (v: Verdict)
    requires varsize >= HEADER && |ws| == (varsize - HEADER) / 4 && (ws != [] ==> word == ws[0])
    ensures v == Decision(size_, Unpack(word).first, ws, varsize)
  {
    if size_ >= FIRST_BIT {
      return Flagged;
    }
    if size_ == 0 || (varsize < 32768 && Unpack(word).first) {
      return Taken;
    }
    var validNew := ValidNewFormat(size_, ws, varsize);
    var validOld := ValidOldFormat(size_, ws, varsize);
    if validOld == 0 {
      return if validNew > 0 then Taken else Refused;
    }
    return Rewrite;
  }

  /** A small value whose first pair has null for a value, but a length of 32768 or more all the same. */
  predicate Mistaken(ws: seq<Uint32>, varsize: nat)
  {
    |ws| >= 2 && varsize < 32768 && OldAt(ws, 0).isNull && OldAt(ws, 0).vallen >= 32768
  }

  /** Of all values in the old format exactly the mistaken ones are not rewritten. */
  lemma OldIsRewrittenIff(count: Uint32, ws: seq<Uint32>, varsize: nat)
    requires count > 0 && OldFormat(count, ws, varsize)
    ensures Decision(count, Unpack(ws[0]).first, ws, varsize) == if Mistaken(ws, varsize) then Taken else Rewrite
  {
    if varsize < 32768 {
      MistakenIff(count, ws, varsize);
    }
  }

  /** Those that are not rewritten do not keep their pairs, whatever strings they are read with. */
  lemma MistakenLosesPairs(count: nat, ws: seq<Uint32>, varsize: nat, str: Bytes, read: Bytes)
    requires count > 0 && OldFormat(count, ws, varsize) && EndOld(ws, count) <= |str| && Mistaken(ws, varsize)
    ensures var hs := HStore(Unpacked(ws[..2 * count]), read);
      hs.Laid() ==> Decode(hs) != OldPairs(ws, count, str)
  {
    var hs := HStore(Unpacked(ws[..2 * count]), read);
    OldInside(ws, count, 0);
    assert EndOld(ws, 0) == 0;
    assert ws[1] == 1;
    if hs.Laid() {
      assert hs.PairOk(0);
      assert Decode(hs)[0] == hs.At(0) && hs.At(0).val.Some?;
      assert OldPairs(ws, count, str)[0] == OldPair(OldAt(ws, 0), str);
    }
  }

  /** A value in the new format that lacks the flag is kept unless it is large and passes for an old one. */
  lemma NewIsTakenIff(count: Uint32, ws: seq<Uint32>, varsize: nat)
    requires 0 < count < COUNTS && NewFormat(count, ws, varsize)
    ensures Decision(count, Unpack(ws[0]).first, ws, varsize) ==
            if varsize >= 32768 && OldFormat(count, ws, varsize) then Rewrite else Taken
  {
    RisingAt(Unpacked(ws[..2 * count]), 2 * count, 0);
  }

  /** Such a value with one pair has one byte of strings at most, and the rest of it is padding. */
  lemma AmbiguousIsPadded(ws: seq<Uint32>, varsize: nat)
    requires NewFormat(1, ws, varsize) && OldFormat(1, ws, varsize)
    ensures Unpack(ws[1]).end <= 1 && !Unpack(ws[1]).isNull
  {
    assert EndOld(ws, 0) == 0;
    assert OldAt(ws, 0).pos == 0;
  }

  /** A value in the old format keeps its pairs if and only if it is not mistaken for a new one. */
  method UpgradeOld(ws: array<Uint32>, count: Uint32, str: Bytes, varsize: nat) returns (v: Verdict, hs: HStore)
    requires count > 0 && OldFormat(count, ws[..], varsize) && varsize <= MAX_ALLOC
    requires ws.Length == (varsize - HEADER) / 4 && |str| == varsize - HEADER - 8 * count
    modifies ws
    ensures Contiguous(old(ws[..]), count) && EndOld(old(ws[..]), count) <= |str|
    ensures v == if Mistaken(old(ws[..]), varsize) then Taken else Rewrite
    ensures hs.Laid() ==> (Decode(hs) == OldPairs(old(ws[..]), count, str) <==> !Mistaken(old(ws[..]), varsize))
    ensures v.Rewrite? ==> hs.Laid() && Canonical(hs) == Sorted(OldPairs(old(ws[..]), count, str))
  {
    ghost var was := ws[..];
    OldIsRewrittenIff(count, was, varsize);
    v := Decide(count, ws[0], ws[..], varsize);
    if v.Rewrite? {
      var size;
      hs, size := Upgrade(ws, count, str, varsize);
    } else {
      var es := Unpacked(ws[..2 * count]);
      hs := HStore(es, str[..if es[2 * count - 1].end <= |str| then es[2 * count - 1].end else |str|]);
      MistakenLosesPairs(count, was, varsize, str, hs.str);
    }
  }
}
