/** Building a packed hstore in one block of memory, and the merges that build one from others. */
module HstoreBuild {
  import opened Lexicographic
  import opened HstorePairs
  import opened HstoreLayout

  const MAX_ALLOC: nat := 0x3fff_ffff

  /** Bytes of the header. */
  const HEADER: nat := 8

  lemma PackedSnoc(ws: seq<Word>, ps: seq<Pair>, p: Pair)
    requires AllPacked(ws, ps, false)
    ensures AllPacked(ws + [KeyWord(false, |Text(ps)|, p), ValWord(|Text(ps)|, p)], ps + [p], false)
  {
    var ws', ps' := ws + [KeyWord(false, |Text(ps)|, p), ValWord(|Text(ps)|, p)], ps + [p];
    forall i {:trigger Packed(ws', ps', i, false)} | 0 <= i < |ps'| ensures Packed(ws', ps', i, false) {
      if i < |ps| {
        assert Packed(ws, ps, i, false);
        assert ps'[..i] == ps[..i];
      } else {
        assert ps'[..i] == ps;
      }
    }
  }

  lemma PackedFlag(ws: seq<Word>, ps: seq<Pair>)
    requires AllPacked(ws, ps, false) && ps != []
    ensures AllPacked(ws[0 := ws[0].(first := true)], ps, true)
  {
    var ws' := ws[0 := ws[0].(first := true)];
    forall i {:trigger Packed(ws', ps, i, true)} | 0 <= i < |ps| ensures Packed(ws', ps, i, true) {
      assert Packed(ws, ps, i, false);
    }
  }

  method CopyBytes(dst: array<Byte>, at: nat, s: Bytes)
    requires at + |s| <= dst.Length
    modifies dst
    ensures dst[..] == old(dst[..at]) + s + old(dst[at + |s|..])
  {
    forall k | 0 <= k < |s| {
      dst[at + k] := s[k];
    }
  }

  /** Moves `n` bytes to a lower address; the two ranges may overlap. */
  method MoveDown(a: array<Byte>, to: nat, from: nat, n: nat)
    requires to <= from && from + n <= a.Length
    modifies a
    ensures a[to..to + n] == old(a[from..from + n])
  {
    ghost var was := a[..];
    var k := 0;
    while k < n
      invariant 0 <= k <= n
      invariant a[to..to + k] == was[from..from + k]
      invariant forall i :: from + k <= i < a.Length ==> a[i] == was[i]
    {
      ghost var done := a[to..to + k];
      a[to + k] := a[from + k];
      k := k + 1;
      assert a[to..to + k] == done + [was[from + k - 1]];
    }
  }

  /** An hstore under construction, in a block of `size` bytes: after the header come the words, word
      `i` at address HEADER + 4 * i, and after the words that `room` pairs need come the strings. */
  class Builder {
    const size: nat
    const room: nat
    const words: array<Word>
    const bytes: array<Byte>
    var dent: nat
    var ptr: nat
    ghost var pairs: seq<Pair>

    function Buf(): nat { HEADER + 8 * room }

    ghost predicate Valid()
      reads this, words, bytes
    {
      && words.Length == 2 * room && bytes.Length == size && Buf() <= size
      && dent == 2 * |pairs| <= words.Length
      && ptr == Buf() + |Text(pairs)| <= size
      && AllPacked(words[..dent], pairs, false)
      && bytes[Buf()..ptr] == Text(pairs)
    }

    constructor (size: nat, room: nat)
      requires HEADER + 8 * room <= size
      ensures Valid() && pairs == [] && this.size == size && this.room == room
      ensures fresh(words) && fresh(bytes)
    {
      this.size, this.room := size, room;
      words := new Word[2 * room](_ => Word(false, false, 0));
      bytes := new Byte[size](_ => 0);
      dent, ptr, pairs := 0, HEADER + 8 * room, [];
    }

    /** Appends the words and the strings of one pair. */
    method Append(text: Bytes, p: Pair)
      requires Valid() && text == PairText(p)
      requires |pairs| < room && ptr + |text| <= size
      modifies this, words, bytes
      ensures Valid() && pairs == old(pairs) + [p]
    {
      ghost var before, strings := words[..dent], bytes[Buf()..ptr];
      CopyBytes(bytes, ptr, text);
      assert bytes[Buf()..ptr + |text|] == strings + text;
      var pos := ptr - Buf();
      words[dent] := KeyWord(false, pos, p);
      words[dent + 1] := ValWord(pos, p);
      assert words[..dent + 2] == before + [KeyWord(false, pos, p), ValWord(pos, p)];
      PackedSnoc(before, pairs, p);
      ptr := ptr + |text|;
      dent := dent + 2;
      pairs := pairs + [p];
    }

    /** Copies pair `i` of another hstore: its two strings are next to each other there. */
    method CopyItem(src: HStore, i: nat)
      requires Valid() && src.Laid() && i < src.Count()
      requires |pairs| < room && ptr + |PairText(Decode(src)[i])| <= size
      modifies this, words, bytes
      ensures Valid() && pairs == old(pairs) + [Decode(src)[i]]
    {
      assert src.PairOk(i);
      PairTextOf(src, i);
      var off := src.Off(2 * i);
      Append(src.str[off..src.entries[2 * i + 1].end], src.At(i));
    }

    method AddItem(p: Pair)
      requires Valid() && |pairs| < room && ptr + |PairText(p)| <= size
      modifies this, words, bytes
      ensures Valid() && pairs == old(pairs) + [p]
    {
      Append(PairText(p), p);
    }

    /** Flags the first word and, if fewer pairs came than there was room for, moves the strings down
        to the end of the words, which are not touched by that. */
    method Finalize() returns (hs: HStore)
      requires Valid()
      modifies words, bytes
      ensures Image(hs, pairs) && hs.VarSize() <= size
    {
      var count, buflen := dent / 2, ptr - Buf();
      ghost var before := words[..dent];
      if count > 0 {
        PackedFlag(before, pairs);
        words[0] := words[0].(first := true);
        assert words[..dent] == before[0 := before[0].(first := true)];
      }
      var strptr := HEADER + 8 * count;
      assert strptr == HEADER + 4 * dent;
      if count != room {
        MoveDown(bytes, strptr, Buf(), buflen);
      }
      hs := HStore(words[..dent], bytes[strptr..strptr + buflen]);
    }
  }
}
