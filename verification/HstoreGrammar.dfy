/** The texts that are hstores: a grammar for them, and that the parser accepts exactly these and reads from each
    the pairs that it spells. */
module HstoreGrammar {
  import opened Wrappers
  import opened Lexicographic
  import opened HstorePairs
  import opened HstoreLayout
  import opened HstoreText

  // ----- the grammar -----

  /** A character as it is, or after a backslash. */
  datatype Glyph = Char(c: Byte) | Masked(c: Byte)

  function Spell(gs: seq<Glyph>): Bytes
  {
    if gs == [] then [] else (if gs[0].Char? then [gs[0].c] else [BACKSLASH, gs[0].c]) + Spell(gs[1..])
  }

  function Meaning(gs: seq<Glyph>): Bytes { seq(|gs|, i requires 0 <= i < |gs| => gs[i].c) }

  datatype Word = InQuotes(glyphs: seq<Glyph>) | Bare(glyphs: seq<Glyph>)

  function WordText(w: Word): Bytes
  {
    if w.InQuotes? then [QUOTE] + Spell(w.glyphs) + [QUOTE] else Spell(w.glyphs)
  }

  /** What an unquoted key, or an unquoted value, ends at. */
  function Stop(value: bool): Byte { if value then COMMA else EQ }

  /** Inside quotes only the quote and the backslash need a backslash. */
  predicate QuotedGlyph(g: Glyph) { g.c != 0 && (g.Char? ==> g.c != QUOTE && g.c != BACKSLASH) }

  /** Without quotes the backslash, white space and the end of the word need one. */
  predicate BareGlyph(g: Glyph, value: bool)
  {
    g.c != 0 && (g.Char? ==> g.c != BACKSLASH && !IsSpace(g.c) && g.c != Stop(value))
  }

  /** A quote at the beginning needs one too; a value may begin with a comma. */
  predicate FirstGlyph(g: Glyph, value: bool)
  {
    g.c != 0 && (g.Char? ==> g.c != BACKSLASH && !IsSpace(g.c) && g.c != QUOTE && (g.c == EQ ==> value))
  }

  predicate WordShape(w: Word, value: bool)
  {
    if w.InQuotes? then forall i :: 0 <= i < |w.glyphs| ==> QuotedGlyph(w.glyphs[i])
    else w.glyphs != [] && FirstGlyph(w.glyphs[0], value) && BareTail(w.glyphs[1..], value)
  }

  predicate WordOk(w: Word, value: bool) { WordShape(w, value) && |w.glyphs| < POSITIONS }

  predicate BareTail(gs: seq<Glyph>, value: bool) { forall i :: 0 <= i < |gs| ==> BareGlyph(gs[i], value) }

  predicate Blank(b: Bytes) { forall i :: 0 <= i < |b| ==> IsSpace(b[i]) }

  /** A pair, with the white space around its words. */
  datatype Item = Item(before: Bytes, key: Word, left: Bytes, right: Bytes, val: Word, after: Bytes)

  function ValText(i: Item): Bytes { i.right + WordText(i.val) + i.after }

  function ItemText(i: Item): Bytes { i.before + WordText(i.key) + (i.left + [EQ, GT] + ValText(i)) }

  /** The word "null". */
  const NULL_SPELT: Bytes := [110, 117, 108, 108]

  function LowerCase(w: Bytes): Bytes
  {
    seq(|w|, i requires 0 <= i < |w| => if 65 <= w[i] <= 90 then w[i] + 32 else w[i])
  }

  /** An unquoted "null" in any case is the null value. */
  function PairOf(i: Item): Pair
  {
    var v := Meaning(i.val.glyphs);
    Pair(Meaning(i.key.glyphs), if i.val.Bare? && LowerCase(v) == NULL_SPELT then None else Some(v))
  }

  predicate ItemOk(i: Item)
  {
    && Blank(i.before) && Blank(i.left) && Blank(i.right) && Blank(i.after)
    && WordOk(i.key, false) && WordOk(i.val, true)
  }

  /** Items with commas between them; a comma after the last one is allowed. */
  datatype Doc = Blanks(b: Bytes) | Final(last: Item) | More(first: Item, rest: Doc)

  function TextOf(d: Doc): Bytes
  {
    match d
    case Blanks(b) => b
    case Final(i) => ItemText(i)
    case More(i, rest) => ItemText(i) + ([COMMA] + TextOf(rest))
  }

  function PairsOf(d: Doc): seq<Pair>
  {
    match d
    case Blanks(_) => []
    case Final(i) => [PairOf(i)]
    case More(i, rest) => [PairOf(i)] + PairsOf(rest)
  }

  predicate DocOk(d: Doc)
  {
    match d
    case Blanks(b) => Blank(b)
    case Final(i) => ItemOk(i)
    case More(i, rest) => ItemOk(i) && DocOk(rest)
  }

  lemma NullWord(w: Bytes)
    ensures IsNullWord(w) <==> LowerCase(w) == NULL_SPELT
  {
    var l := LowerCase(w);
    if |w| == 4 {
      assert l == [l[0], l[1], l[2], l[3]];
    }
  }

  // ----- reading words -----

  function Restart(w: Word, rest: Bytes): Bytes
  {
    if w.Bare? && rest != [] && IsSpace(rest[0]) then rest[1..] else rest
  }

  /** An unquoted word ends here. */
  predicate Ends(rest: Bytes, value: bool) { rest == [] || IsSpace(rest[0]) || rest[0] == Stop(value) }

  lemma SpellMore(g: Glyph, gs: seq<Glyph>)
    ensures Spell([g] + gs) == (if g.Char? then [g.c] else [BACKSLASH, g.c]) + Spell(gs)
    ensures Meaning([g] + gs) == [g.c] + Meaning(gs)
  {
    assert ([g] + gs)[1..] == gs;
  }

  lemma Regroup(c: Byte, t: Bytes, rest: Bytes)
    ensures ([c] + t) + rest == [c] + (t + rest)
    ensures ([BACKSLASH, c] + t) + rest == [BACKSLASH] + ([c] + (t + rest))
  {
  }

  lemma SpellFirst(gs: seq<Glyph>, rest: Bytes)
    requires gs != []
    ensures gs[0].Char? ==> Spell(gs) + rest == [gs[0].c] + (Spell(gs[1..]) + rest)
    ensures gs[0].Masked? ==> Spell(gs) + rest == [BACKSLASH] + ([gs[0].c] + (Spell(gs[1..]) + rest))
    ensures Meaning(gs) == [gs[0].c] + Meaning(gs[1..])
  {
    assert gs == [gs[0]] + gs[1..];
    SpellMore(gs[0], gs[1..]);
    Regroup(gs[0].c, Spell(gs[1..]), rest);
  }

  lemma Plus(word: Bytes, c: Byte, rest: Bytes)
    ensures word + [c] + rest == word + ([c] + rest)
  {
  }

  /** The text after its first character. */
  lemma Behind(c: Byte, t: Bytes)
    ensures ([c] + t)[1..] == t && Next([c] + t) == c
    ensures Plain([c] + t) <==> c != 0 && Plain(t)
  {
    assert ([c] + t)[1..] == t;
    PlainParts([c], t);
    assert Plain([c]) <==> c != 0 by { assert [c][0] == c; }
  }

  lemma {:induction false} ReadBare(gs: seq<Glyph>, rest: Bytes, value: bool, word: Bytes)
    requires BareTail(gs, value) && Plain(Spell(gs) + rest) && Ends(rest, value) && Plain(rest)
    ensures GetVal(Spell(gs) + rest, InVal, value, word, false) ==
            Got(word + Meaning(gs), false, Restart(Bare(gs), rest))
  {
    if gs == [] {
      assert Spell(gs) + rest == rest && word + Meaning(gs) == word;
    } else {
      var c, t := gs[0].c, Spell(gs[1..]) + rest;
      SpellFirst(gs, rest);
      Plus(word, c, Meaning(gs[1..]));
      Behind(c, t);
      Behind(BACKSLASH, [c] + t);
      ReadBare(gs[1..], rest, value, word + [c]);
    }
  }

  lemma {:induction false} ReadQuoted(gs: seq<Glyph>, rest: Bytes, value: bool, word: Bytes)
    requires Plain(Spell(gs) + ([QUOTE] + rest)) && Plain(rest)
    requires forall i :: 0 <= i < |gs| ==> QuotedGlyph(gs[i])
    ensures GetVal(Spell(gs) + ([QUOTE] + rest), InEscVal, value, word, true) == Got(word + Meaning(gs), true, rest)
  {
    if gs == [] {
      assert Spell(gs) + ([QUOTE] + rest) == [QUOTE] + rest && word + Meaning(gs) == word;
      Behind(QUOTE, rest);
    } else {
      var c, t := gs[0].c, Spell(gs[1..]) + ([QUOTE] + rest);
      SpellFirst(gs, [QUOTE] + rest);
      Plus(word, c, Meaning(gs[1..]));
      Behind(c, t);
      Behind(BACKSLASH, [c] + t);
      ReadQuoted(gs[1..], rest, value, word + [c]);
    }
  }

  lemma ReadQuotedWord(gs: seq<Glyph>, rest: Bytes, value: bool)
    requires WordShape(InQuotes(gs), value) && Plain(WordText(InQuotes(gs)) + rest) && Plain(rest)
    ensures GetVal(WordText(InQuotes(gs)) + rest, WaitVal, value, [], false) == Got(Meaning(gs), true, rest)
  {
    var t := Spell(gs) + ([QUOTE] + rest);
    assert WordText(InQuotes(gs)) + rest == [QUOTE] + t;
    Behind(QUOTE, t);
    ReadQuoted(gs, rest, value, []);
    assert [] + Meaning(gs) == Meaning(gs);
  }

  lemma ReadBareWord(gs: seq<Glyph>, rest: Bytes, value: bool)
    requires WordShape(Bare(gs), value) && Plain(Spell(gs) + rest) && Plain(rest) && Ends(rest, value)
    ensures GetVal(Spell(gs) + rest, WaitVal, value, [], false) == Got(Meaning(gs), false, Restart(Bare(gs), rest))
  {
    var c, t := gs[0].c, Spell(gs[1..]) + rest;
    SpellFirst(gs, rest);
    Behind(c, t);
    Behind(BACKSLASH, [c] + t);
    ReadBare(gs[1..], rest, value, [c]);
    assert [] + [c] == [c];
  }

  lemma ReadWord(w: Word, rest: Bytes, value: bool)
    requires WordShape(w, value) && Plain(WordText(w) + rest) && Plain(rest) && (w.Bare? ==> Ends(rest, value))
    ensures GetVal(WordText(w) + rest, WaitVal, value, [], false) ==
            Got(Meaning(w.glyphs), w.InQuotes?, Restart(w, rest))
  {
    if w.InQuotes? {
      ReadQuotedWord(w.glyphs, rest, value);
    } else {
      ReadBareWord(w.glyphs, rest, value);
    }
  }

  lemma {:induction false} SkipBlanks(b: Bytes, t: Bytes, value: bool)
    requires Blank(b) && Plain(b + t) && Plain(t)
    ensures GetVal(b + t, WaitVal, value, [], false) == GetVal(t, WaitVal, value, [], false)
  {
    if b == [] {
      assert b + t == t;
    } else {
      assert b + t == [b[0]] + (b[1..] + t);
      Behind(b[0], b[1..] + t);
      SkipBlanks(b[1..], t, value);
    }
  }

  // ----- reading items -----

  /** White space before the arrow, or after a value, is passed over. */
  lemma {:induction false} SkipLeft(b: Bytes, t: Bytes, done: seq<Pair>, key: Bytes)
    requires Blank(b) && Plain(b + t) && Plain(t)
    ensures Parse(b + t, WEq, done, key) == Parse(t, WEq, done, key)
  {
    if b == [] {
      assert b + t == t;
    } else {
      assert b + t == [b[0]] + (b[1..] + t);
      Behind(b[0], b[1..] + t);
      SkipLeft(b[1..], t, done, key);
    }
  }

  lemma {:induction false} SkipAfter(b: Bytes, t: Bytes, done: seq<Pair>)
    requires Blank(b) && Plain(b + t) && Plain(t)
    ensures Parse(b + t, WDel, done, []) == Parse(t, WDel, done, [])
  {
    if b == [] {
      assert b + t == t;
    } else {
      assert b + t == [b[0]] + (b[1..] + t);
      Behind(b[0], b[1..] + t);
      SkipAfter(b[1..], t, done);
    }
  }

  lemma Arrow(t: Bytes, done: seq<Pair>, key: Bytes)
    requires Plain([EQ, GT] + t) && Plain(t)
    ensures Parse([EQ, GT] + t, WEq, done, key) == Parse(t, WVal, done, key)
  {
    assert [EQ, GT] + t == [EQ] + ([GT] + t);
    Behind(EQ, [GT] + t);
    Behind(GT, t);
    assert Parse([GT] + t, WGt, done, key) == Parse(t, WVal, done, key);
  }

  /** What follows a word, from where reading goes on: one space may be gone already. */
  lemma RestartSkips(w: Word, b: Bytes, t: Bytes) returns (b': Bytes)
    requires Blank(b) && (t != [] ==> !IsSpace(t[0]))
    ensures Blank(b') && Restart(w, b + t) == b' + t
  {
    if w.Bare? && b != [] {
      b' := b[1..];
      assert (b + t)[1..] == b[1..] + t;
    } else {
      b' := b;
      assert b == [] ==> b + t == t;
    }
  }

  lemma ReadKey(w: Word, left: Bytes, t: Bytes, done: seq<Pair>)
    requires WordOk(w, false) && Blank(left) && Plain(WordText(w) + (left + ([EQ, GT] + t)))
    ensures Plain(t) && Parse(WordText(w) + (left + ([EQ, GT] + t)), WKey, done, []) ==
                        Parse(t, WVal, done, Meaning(w.glyphs))
  {
    var u := [EQ, GT] + t;
    PlainParts(WordText(w), left + u);
    PlainParts(left, u);
    PlainParts([EQ, GT], t);
    ReadWord(w, left + u, false);
    var b := RestartSkips(w, left, u);
    PlainParts(b, u);
    SkipLeft(b, u, done, Meaning(w.glyphs));
    Arrow(t, done, Meaning(w.glyphs));
  }

  lemma ReadValue(w: Word, after: Bytes, t: Bytes, done: seq<Pair>, key: Bytes)
    requires WordOk(w, true) && Blank(after) && Plain(WordText(w) + (after + t)) && (t != [] ==> t[0] == COMMA)
    ensures Plain(t) && Parse(WordText(w) + (after + t), WVal, done, key) ==
                        Parse(t, WDel, done + [Pair(key, Value(Meaning(w.glyphs), w.InQuotes?))], [])
  {
    PlainParts(WordText(w), after + t);
    PlainParts(after, t);
    ReadWord(w, after + t, true);
    var b := RestartSkips(w, after, t);
    PlainParts(b, t);
    SkipAfter(b, t, done + [Pair(key, Value(Meaning(w.glyphs), w.InQuotes?))]);
  }

  lemma BlanksBeforeKey(b: Bytes, t: Bytes, done: seq<Pair>)
    requires Blank(b) && Plain(b + t)
    ensures Plain(t) && Parse(b + t, WKey, done, []) == Parse(t, WKey, done, [])
  {
    PlainParts(b, t);
    SkipBlanks(b, t, false);
  }

  lemma BlanksBeforeValue(b: Bytes, t: Bytes, done: seq<Pair>, key: Bytes)
    requires Blank(b) && Plain(b + t)
    ensures Plain(t) && Parse(b + t, WVal, done, key) == Parse(t, WVal, done, key)
  {
    PlainParts(b, t);
    SkipBlanks(b, t, true);
  }

  lemma ItemParts(i: Item, t: Bytes)
    ensures ItemText(i) + t ==
            i.before + (WordText(i.key) + (i.left + ([EQ, GT] + (i.right + (WordText(i.val) + (i.after + t))))))
  {
  }

  lemma ReadItem(i: Item, t: Bytes, done: seq<Pair>)
    requires ItemOk(i) && Plain(ItemText(i) + t) && (t != [] ==> t[0] == COMMA)
    ensures Plain(t) && Parse(ItemText(i) + t, WKey, done, []) == Parse(t, WDel, done + [PairOf(i)], [])
  {
    ItemParts(i, t);
    var val := WordText(i.val) + (i.after + t);
    BlanksBeforeKey(i.before, WordText(i.key) + (i.left + ([EQ, GT] + (i.right + val))), done);
    ReadKey(i.key, i.left, i.right + val, done);
    BlanksBeforeValue(i.right, val, done, Meaning(i.key.glyphs));
    ReadValue(i.val, i.after, t, done, Meaning(i.key.glyphs));
    NullWord(Meaning(i.val.glyphs));
  }

  lemma NextItem(t: Bytes, done: seq<Pair>)
    requires Plain([COMMA] + t) && Plain(t)
    ensures Parse([COMMA] + t, WDel, done, []) == Parse(t, WKey, done, [])
  {
    Behind(COMMA, t);
  }

  lemma JoinPairs(done: seq<Pair>, p: Pair, ps: seq<Pair>)
    ensures done + [p] + ps == done + ([p] + ps)
  {
  }

  /** Every text of the grammar is read as the pairs it spells. */
  lemma {:induction false} ReadDoc(d: Doc, done: seq<Pair>)
    requires DocOk(d) && Plain(TextOf(d))
    ensures Parse(TextOf(d), WKey, done, []) == Some(done + PairsOf(d))
  {
    match d
    case Blanks(b) =>
      BlanksBeforeKey(b, [], done);
      assert b + [] == b && done + [] == done;
    case Final(i) =>
      assert ItemText(i) + [] == ItemText(i);
      ReadItem(i, [], done);
    case More(i, rest) =>
      ReadItem(i, [COMMA] + TextOf(rest), done);
      Behind(COMMA, TextOf(rest));
      NextItem(TextOf(rest), done + [PairOf(i)]);
      ReadDoc(rest, done + [PairOf(i)]);
      JoinPairs(done, PairOf(i), PairsOf(rest));
  }

  // ----- what was read -----

  lemma Tail(t: Bytes)
    requires t != [] && Plain(t)
    ensures t == [t[0]] + t[1..] && Plain(t[1..]) && Next(t) == t[0] != 0
  {
    Behind(t[0], t[1..]);
  }

  /** One glyph more before a text that has been taken apart already. */
  lemma Prepend(g: Glyph, gs: seq<Glyph>, rest: Bytes, t: Bytes, u: Bytes, word: Bytes)
    requires u == Spell(gs) + rest && t == (if g.Char? then [g.c] else [BACKSLASH, g.c]) + u
    ensures t == Spell([g] + gs) + rest && word + [g.c] + Meaning(gs) == word + Meaning([g] + gs)
  {
    SpellMore(g, gs);
    Plus(word, g.c, Meaning(gs));
  }

  /** The first glyph of what is left of an unquoted word. */
  lemma NextBare(t: Bytes, value: bool, word: Bytes) returns (g: Glyph, u: Bytes)
    requires Plain(t) && !Ends(t, value) && GetVal(t, InVal, value, word, false).Got?
    ensures t == (if g.Char? then [g.c] else [BACKSLASH, g.c]) + u && Plain(u) && BareGlyph(g, value)
    ensures GetVal(t, InVal, value, word, false) == GetVal(u, InVal, value, word + [g.c], false)
  {
    Tail(t);
    if t[0] == BACKSLASH {
      Tail(t[1..]);
      g, u := Masked(t[1]), t[1..][1..];
      assert t == [BACKSLASH, g.c] + u;
    } else {
      g, u := Char(t[0]), t[1..];
    }
  }

  lemma EndBare(t: Bytes, value: bool, word: Bytes)
    requires Plain(t) && Ends(t, value)
    ensures GetVal(t, InVal, value, word, false) == Got(word, false, Restart(Bare([]), t))
  {
  }

  lemma {:induction false} FindBare(t: Bytes, value: bool, word: Bytes) returns (gs: seq<Glyph>, rest: Bytes)
    requires Plain(t) && GetVal(t, InVal, value, word, false).Got?
    ensures t == Spell(gs) + rest && BareTail(gs, value) && Ends(rest, value)
    ensures GetVal(t, InVal, value, word, false) == Got(word + Meaning(gs), false, Restart(Bare(gs), rest))
    decreases |t|
  {
    if Ends(t, value) {
      gs, rest := [], t;
      EndBare(t, value, word);
      assert Spell(gs) + rest == t && word + Meaning(gs) == word;
    } else {
      var g, u := NextBare(t, value, word);
      var gs';
      gs', rest := FindBare(u, value, word + [g.c]);
      Prepend(g, gs', rest, t, u, word);
      gs := [g] + gs';
    }
  }

  lemma {:induction false} FindQuoted(t: Bytes, value: bool, word: Bytes) returns (gs: seq<Glyph>, rest: Bytes)
    requires Plain(t) && GetVal(t, InEscVal, value, word, true).Got?
    ensures t == Spell(gs) + ([QUOTE] + rest) && forall i :: 0 <= i < |gs| ==> QuotedGlyph(gs[i])
    ensures GetVal(t, InEscVal, value, word, true) == Got(word + Meaning(gs), true, rest)
    decreases |t|
  {
    Tail(t);
    gs, rest := [], t[1..];
    assert word + Meaning(gs) == word;
    if t[0] == QUOTE {
      assert Spell(gs) + ([QUOTE] + rest) == t;
    } else {
      var g := Char(t[0]);
      var u := t[1..];
      if t[0] == BACKSLASH {
        Tail(u);
        g, u := Masked(u[0]), u[1..];
        assert t == [BACKSLASH, g.c] + u;
      }
      var gs';
      gs', rest := FindQuoted(u, value, word + [g.c]);
      Prepend(g, gs', [QUOTE] + rest, t, u, word);
      gs := [g] + gs';
    }
  }

  ghost predicate WordFound(t: Bytes, value: bool, w: Word, rest: Bytes)
    requires Plain(t)
  {
    && t == WordText(w) + rest && WordShape(w, value) && (w.Bare? ==> Ends(rest, value))
    && GetVal(t, WaitVal, value, [], false) == Got(Meaning(w.glyphs), w.InQuotes?, Restart(w, rest))
  }

  lemma FindQuotedWord(t: Bytes, value: bool) returns (w: Word, rest: Bytes)
    requires Plain(t) && t != [] && t[0] == QUOTE && GetVal(t, WaitVal, value, [], false).Got?
    ensures WordFound(t, value, w, rest)
  {
    Tail(t);
    var gs;
    gs, rest := FindQuoted(t[1..], value, []);
    w := InQuotes(gs);
    assert [] + Meaning(gs) == Meaning(gs);
    assert WordText(w) + rest == [QUOTE] + (Spell(gs) + ([QUOTE] + rest));
  }

  lemma FindBareWord(t: Bytes, value: bool) returns (w: Word, rest: Bytes)
    requires Plain(t) && t != [] && t[0] != QUOTE && !IsSpace(t[0]) && GetVal(t, WaitVal, value, [], false).Got?
    ensures WordFound(t, value, w, rest)
  {
    Tail(t);
    var g, u := Char(t[0]), t[1..];
    if t[0] == BACKSLASH {
      Tail(u);
      g, u := Masked(u[0]), u[1..];
      assert t == [BACKSLASH, g.c] + u;
    }
    assert [] + [g.c] == [g.c];
    var gs;
    gs, rest := FindBare(u, value, [g.c]);
    Prepend(g, gs, rest, t, u, []);
    assert [] + [g.c] + Meaning(gs) == [g.c] + Meaning(gs) && [] + Meaning([g] + gs) == Meaning([g] + gs);
    assert ([g] + gs)[1..] == gs;
    w := Bare([g] + gs);
  }

  /** A word that was read, with the white space before it. */
  lemma {:induction false} FindWord(t: Bytes, value: bool) returns (b: Bytes, w: Word, u: Bytes, rest: Bytes)
    requires Plain(t) && GetVal(t, WaitVal, value, [], false).Got?
    ensures Blank(b) && t == b + u && Plain(u) && WordFound(u, value, w, rest)
    ensures GetVal(t, WaitVal, value, [], false) == GetVal(u, WaitVal, value, [], false)
    decreases |t|
  {
    if IsSpace(Next(t)) {
      Tail(t);
      var b';
      b', w, u, rest := FindWord(t[1..], value);
      b := [t[0]] + b';
    } else {
      b, u := [], t;
      if t[0] == QUOTE {
        w, rest := FindQuotedWord(t, value);
      } else {
        w, rest := FindBareWord(t, value);
      }
    }
  }

  lemma {:induction false} AlwaysWord(t: Bytes, st: ValState, value: bool, word: Bytes, escaped: bool)
    requires Plain(t) && !st.WaitVal?
    ensures !GetVal(t, st, value, word, escaped).NoWord?
    decreases |t|
  {
    if t != [] {
      Tail(t);
      forall s: ValState, w: Bytes | !s.WaitVal? ensures !GetVal(t[1..], s, value, w, escaped).NoWord? {
        AlwaysWord(t[1..], s, value, w, escaped);
      }
    }
  }

  /** The end of the text is found only after white space. */
  lemma {:induction false} NoWordIsBlank(t: Bytes, value: bool)
    requires Plain(t) && GetVal(t, WaitVal, value, [], false).NoWord?
    ensures Blank(t)
    decreases |t|
  {
    if t != [] {
      Tail(t);
      if IsSpace(t[0]) {
        NoWordIsBlank(t[1..], value);
      } else {
        AlwaysWord(t[1..], InEscVal, value, [], true);
        AlwaysWord(t[1..], WaitEscIn, value, [], false);
        AlwaysWord(t[1..], InVal, value, [] + [t[0]], false);
      }
    }
  }

  lemma RestartBlank(w: Word, rest: Bytes, b: Bytes, u: Bytes) returns (b': Bytes)
    requires Restart(w, rest) == b + u && Blank(b)
    ensures Blank(b') && rest == b' + u
  {
    if w.Bare? && rest != [] && IsSpace(rest[0]) {
      b' := [rest[0]] + b;
      assert rest == [rest[0]] + rest[1..];
    } else {
      b' := b;
    }
  }

  /** What was read from the end of a key to the value. */
  lemma {:induction false} FindArrow(t: Bytes, done: seq<Pair>, key: Bytes) returns (b: Bytes, u: Bytes)
    requires Plain(t) && Parse(t, WEq, done, key).Some?
    ensures Blank(b) && t == b + ([EQ, GT] + u) && Plain(u)
    ensures Parse(t, WEq, done, key) == Parse(u, WVal, done, key)
    decreases |t|
  {
    Tail(t);
    if t[0] == EQ {
      Tail(t[1..]);
      b, u := [], t[1..][1..];
      assert t == [EQ, GT] + u;
    } else {
      var b';
      b', u := FindArrow(t[1..], done, key);
      b := [t[0]] + b';
    }
  }

  /** What was read from the end of a value to the next comma or the end. */
  lemma {:induction false} FindComma(t: Bytes, done: seq<Pair>) returns (b: Bytes, u: Bytes)
    requires Plain(t) && Parse(t, WDel, done, []).Some?
    ensures Blank(b) && t == b + u && Plain(u) && (u != [] ==> u[0] == COMMA)
    ensures Parse(t, WDel, done, []) == Parse(u, WDel, done, [])
    decreases |t|
  {
    if t == [] || t[0] == COMMA {
      b, u := [], t;
    } else {
      Tail(t);
      var b';
      b', u := FindComma(t[1..], done);
      b := [t[0]] + b';
    }
  }

  lemma FindKey(t: Bytes, done: seq<Pair>) returns (b: Bytes, w: Word, left: Bytes, u: Bytes)
    requires Plain(t) && Parse(t, WKey, done, []).Some? && !GetVal(t, WaitVal, false, [], false).NoWord?
    ensures Blank(b) && WordOk(w, false) && Blank(left) && t == b + (WordText(w) + (left + ([EQ, GT] + u))) && Plain(u)
    ensures |u| < |t| && Parse(t, WKey, done, []) == Parse(u, WVal, done, Meaning(w.glyphs))
  {
    var v, rest;
    b, w, v, rest := FindWord(t, false);
    PlainParts(WordText(w), rest);
    var r := Restart(w, rest);
    var b';
    b', u := FindArrow(r, done, Meaning(w.glyphs));
    left := RestartBlank(w, rest, b', [EQ, GT] + u);
  }

  lemma FindValue(t: Bytes, done: seq<Pair>, key: Bytes) returns (b: Bytes, w: Word, after: Bytes, u: Bytes)
    requires Plain(t) && Parse(t, WVal, done, key).Some?
    ensures Blank(b) && WordOk(w, true) && Blank(after) && t == b + (WordText(w) + (after + u)) && Plain(u)
    ensures |u| < |t| && (u != [] ==> u[0] == COMMA)
    ensures Parse(t, WVal, done, key) ==
            Parse(u, WDel, done + [Pair(key, Value(Meaning(w.glyphs), w.InQuotes?))], [])
  {
    var v, rest;
    b, w, v, rest := FindWord(t, true);
    PlainParts(WordText(w), rest);
    var r := Restart(w, rest);
    var b';
    b', u := FindComma(r, done + [Pair(key, Value(Meaning(w.glyphs), w.InQuotes?))]);
    after := RestartBlank(w, rest, b', u);
  }

  lemma FindItem(t: Bytes, done: seq<Pair>) returns (i: Item, u: Bytes)
    requires Plain(t) && Parse(t, WKey, done, []).Some? && !GetVal(t, WaitVal, false, [], false).NoWord?
    ensures ItemOk(i) && t == ItemText(i) + u && |u| < |t| && Plain(u) && (u != [] ==> u[0] == COMMA)
    ensures Parse(t, WKey, done, []) == Parse(u, WDel, done + [PairOf(i)], [])
  {
    var before, key, left, v := FindKey(t, done);
    var right, val, after;
    right, val, after, u := FindValue(v, done, Meaning(key.glyphs));
    i := Item(before, key, left, right, val, after);
    ItemParts(i, u);
    NullWord(Meaning(val.glyphs));
  }

  ghost predicate DocFound(t: Bytes, done: seq<Pair>, d: Doc)
    requires Plain(t)
  {
    DocOk(d) && TextOf(d) == t && Parse(t, WKey, done, []) == Some(done + PairsOf(d))
  }

  lemma BlankDoc(t: Bytes, done: seq<Pair>)
    requires Plain(t) && GetVal(t, WaitVal, false, [], false).NoWord?
    ensures DocFound(t, done, Blanks(t))
  {
    NoWordIsBlank(t, false);
    assert done + [] == done;
  }

  lemma FinalDoc(t: Bytes, done: seq<Pair>, i: Item)
    requires ItemOk(i) && t == ItemText(i) + [] && Plain(t)
    requires Parse(t, WKey, done, []) == Parse([], WDel, done + [PairOf(i)], [])
    ensures DocFound(t, done, Final(i))
  {
  }

  lemma MoreDoc(t: Bytes, done: seq<Pair>, i: Item, u: Bytes, rest: Doc)
    requires ItemOk(i) && t == ItemText(i) + ([COMMA] + u) && Plain(t) && Plain(u) && Plain([COMMA] + u)
    requires Parse(t, WKey, done, []) == Parse([COMMA] + u, WDel, done + [PairOf(i)], [])
    requires DocFound(u, done + [PairOf(i)], rest)
    ensures DocFound(t, done, More(i, rest))
  {
    NextItem(u, done + [PairOf(i)]);
    JoinPairs(done, PairOf(i), PairsOf(rest));
  }

  /** Every text that is accepted is one of the grammar, and was read as the pairs it spells. */
  lemma {:induction false} FindDoc(t: Bytes, done: seq<Pair>) returns (d: Doc)
    requires Plain(t) && Parse(t, WKey, done, []).Some?
    ensures DocFound(t, done, d)
    decreases |t|
  {
    if GetVal(t, WaitVal, false, [], false).NoWord? {
      d := Blanks(t);
      BlankDoc(t, done);
    } else {
      var i, u := FindItem(t, done);
      if u == [] {
        d := Final(i);
        FinalDoc(t, done, i);
      } else {
        Tail(u);
        var rest := FindDoc(u[1..], done + [PairOf(i)]);
        d := More(i, rest);
        MoreDoc(t, done, i, u[1..], rest);
      }
    }
  }

  /** The parser accepts exactly the texts of the grammar, and reads from each the pairs it spells; all other texts
      are refused. */
  lemma ParseExact(t: Bytes, ps: seq<Pair>)
    requires Plain(t)
    ensures Parse(t, WKey, [], []) == Some(ps) <==> exists d :: DocOk(d) && TextOf(d) == t && PairsOf(d) == ps
    ensures Parse(t, WKey, [], []) == None <==> forall d :: DocOk(d) ==> TextOf(d) != t
  {
    forall d | DocOk(d) && TextOf(d) == t ensures Parse(t, WKey, [], []) == Some(PairsOf(d)) {
      ReadDoc(d, []);
      assert [] + PairsOf(d) == PairsOf(d);
    }
    if Parse(t, WKey, [], []).Some? {
      var d := FindDoc(t, []);
      assert [] + PairsOf(d) == PairsOf(d);
    }
  }

  // ----- words without quotes -----

  /** Each character as it is. */
  function Chars(w: Bytes): seq<Glyph> { seq(|w|, i requires 0 <= i < |w| => Char(w[i])) }

  lemma {:induction false} CharsSpell(w: Bytes)
    ensures Spell(Chars(w)) == w && Meaning(Chars(w)) == w
  {
    if w != [] {
      assert Chars(w)[1..] == Chars(w[1..]);
      CharsSpell(w[1..]);
    }
  }

  /** A word that needs neither quotes nor backslashes. */
  predicate Simple(w: Bytes, value: bool)
  {
    && w != [] && w[0] != QUOTE
    && forall i :: 0 <= i < |w| ==> w[i] != 0 && w[i] != BACKSLASH && !IsSpace(w[i]) && w[i] != Stop(value)
  }

  lemma SimpleShape(w: Bytes, value: bool)
    requires Simple(w, value)
    ensures WordShape(Bare(Chars(w)), value) && Plain(w)
  {
    assert Chars(w)[1..] == Chars(w[1..]);
  }

  /** Such a key is read up to the arrow, and such a value up to the comma or the end. */
  lemma ReadSimple(w: Bytes, rest: Bytes, value: bool)
    requires Simple(w, value) && Plain(rest) && (rest == [] || rest[0] == Stop(value))
    ensures Plain(w + rest) && GetVal(w + rest, WaitVal, value, [], false) == Got(w, false, rest)
  {
    SimpleShape(w, value);
    CharsSpell(w);
    PlainParts(w, rest);
    ReadBareWord(Chars(w), rest, value);
  }

  /** A pair that can be written without quotes; a null value is written as "null". */
  predicate SimplePair(p: Pair)
  {
    && Simple(p.key, false) && |p.key| < POSITIONS
    && (p.val.Some? ==> Simple(p.val.value, true) && |p.val.value| < POSITIONS && !IsNullWord(p.val.value))
  }

  function SimpleValue(v: Option<Bytes>): Bytes { if v.Some? then v.value else NULL_SPELT }

  function SimpleText(p: Pair): Bytes { p.key + [EQ, GT] + SimpleValue(p.val) }

  function SimpleTexts(ps: seq<Pair>): Bytes
  {
    if ps == [] then []
    else SimpleText(ps[0]) + if |ps| == 1 then [] else [COMMA] + SimpleTexts(ps[1..])
  }

  function BareItem(key: Bytes, val: Bytes): Item { Item([], Bare(Chars(key)), [], [], Bare(Chars(val)), []) }

  lemma BareItemText(key: Bytes, val: Bytes)
    ensures ItemText(BareItem(key, val)) == key + [EQ, GT] + val
  {
    CharsSpell(key);
    CharsSpell(val);
    assert ValText(BareItem(key, val)) == val;
  }

  lemma BareItemOk(key: Bytes, val: Bytes)
    requires Simple(key, false) && Simple(val, true) && |key| < POSITIONS && |val| < POSITIONS
    ensures ItemOk(BareItem(key, val)) && Plain(key + [EQ, GT] + val)
  {
    SimpleShape(key, false);
    SimpleShape(val, true);
    PlainParts(key + [EQ, GT], val);
    PlainParts(key, [EQ, GT]);
  }

  lemma BareItemPair(key: Bytes, val: Bytes)
    ensures PairOf(BareItem(key, val)) == Pair(key, if IsNullWord(val) then None else Some(val))
  {
    CharsSpell(key);
    CharsSpell(val);
    NullWord(val);
  }

  lemma SimpleItem(p: Pair) returns (i: Item)
    requires SimplePair(p)
    ensures ItemOk(i) && ItemText(i) == SimpleText(p) && PairOf(i) == p && Plain(SimpleText(p))
  {
    var v := SimpleValue(p.val);
    i := BareItem(p.key, v);
    BareItemText(p.key, v);
    BareItemOk(p.key, v);
    BareItemPair(p.key, v);
  }

  lemma {:induction false} SimpleDoc(ps: seq<Pair>) returns (d: Doc)
    requires forall i :: 0 <= i < |ps| ==> SimplePair(ps[i])
    ensures DocOk(d) && TextOf(d) == SimpleTexts(ps) && PairsOf(d) == ps && Plain(SimpleTexts(ps))
  {
    if ps == [] {
      d := Blanks([]);
    } else {
      var i := SimpleItem(ps[0]);
      if |ps| == 1 {
        d := Final(i);
        assert SimpleText(ps[0]) + [] == SimpleText(ps[0]);
      } else {
        var rest := SimpleDoc(ps[1..]);
        d := More(i, rest);
        PlainParts([COMMA], SimpleTexts(ps[1..]));
        PlainParts(SimpleText(ps[0]), [COMMA] + SimpleTexts(ps[1..]));
      }
    }
  }

  /** Pairs written without quotes are read back. */
  lemma SimpleRoundTrip(ps: seq<Pair>)
    requires forall i :: 0 <= i < |ps| ==> SimplePair(ps[i])
    ensures Plain(SimpleTexts(ps)) && Parse(SimpleTexts(ps), WKey, [], []) == Some(ps)
  {
    var d := SimpleDoc(ps);
    ParseExact(SimpleTexts(ps), ps);
  }

  // ----- what is printed -----

  /** A backslash before quotes and backslashes, and nowhere else. */
  function Shown(s: Bytes): seq<Glyph>
  {
    seq(|s|, i requires 0 <= i < |s| => if s[i] == QUOTE || s[i] == BACKSLASH then Masked(s[i]) else Char(s[i]))
  }

  lemma {:induction false} EscapeIs(s: Bytes)
    ensures Escape(s) == Spell(Shown(s)) && Meaning(Shown(s)) == s
  {
    if s != [] {
      assert Shown(s)[1..] == Shown(s[1..]);
      EscapeIs(s[1..]);
    }
  }

  lemma QuotedIs(s: Bytes)
    ensures Quoted(s) == WordText(InQuotes(Shown(s)))
  {
    EscapeIs(s);
  }

  /** A printed pair has its words in quotes and no white space, but for the one before it if it is not the
      first; a null value is printed as NULL. */
  function ShownItem(p: Pair, before: Bytes): Item
  {
    Item(before, InQuotes(Shown(p.key)), [], [],
         if p.val.Some? then InQuotes(Shown(p.val.value)) else Bare(Chars(NULL_WORD)), [])
  }

  lemma ShowValueIs(p: Pair, before: Bytes)
    ensures ShowValue(p.val) == WordText(ShownItem(p, before).val)
  {
    if p.val.Some? {
      QuotedIs(p.val.value);
    } else {
      CharsSpell(NULL_WORD);
    }
  }

  lemma NoSpaces(before: Bytes, key: Word, val: Word)
    ensures ItemText(Item(before, key, [], [], val, [])) == before + (WordText(key) + [EQ, GT] + WordText(val))
  {
    var i := Item(before, key, [], [], val, []);
    assert ValText(i) == WordText(val);
    Grouped(before, WordText(key), WordText(val));
  }

  lemma Grouped(before: Bytes, key: Bytes, val: Bytes)
    ensures before + key + ([] + [EQ, GT] + val) == before + (key + [EQ, GT] + val)
  {
    assert [] + [EQ, GT] == [EQ, GT];
  }

  lemma ShowPairIs(p: Pair, before: Bytes)
    ensures before + ShowPair(p) == ItemText(ShownItem(p, before))
  {
    var i := ShownItem(p, before);
    QuotedIs(p.key);
    ShowValueIs(p, before);
    NoSpaces(before, i.key, i.val);
  }

  function ShownDoc(ps: seq<Pair>, before: Bytes): Doc
  {
    if ps == [] then Blanks(before)
    else if |ps| == 1 then Final(ShownItem(ps[0], before))
    else More(ShownItem(ps[0], before), ShownDoc(ps[1..], [SPACE]))
  }

  lemma Regrouped(before: Bytes, pair: Bytes, rest: Bytes)
    ensures before + (pair + ([COMMA, SPACE] + rest)) == (before + pair) + ([COMMA] + ([SPACE] + rest))
  {
    assert [COMMA, SPACE] + rest == [COMMA] + ([SPACE] + rest);
  }

  /** The printed text is this one of the texts that are read as the pairs. */
  lemma {:induction false} ShowIs(ps: seq<Pair>, before: Bytes)
    ensures before + Show(ps) == TextOf(ShownDoc(ps, before))
  {
    if ps == [] {
      assert before + [] == before;
    } else {
      ShowPairIs(ps[0], before);
      if |ps| == 1 {
        assert ShowPair(ps[0]) + [] == ShowPair(ps[0]);
      } else {
        ShowIs(ps[1..], [SPACE]);
        Regrouped(before, ShowPair(ps[0]), Show(ps[1..]));
      }
    }
  }
}
