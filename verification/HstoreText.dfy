/** The text form of an hstore: the parser, the printer, and that one undoes the other. */
module HstoreText {
  import opened Wrappers
  import opened Lexicographic
  import opened HstorePairs
  import opened HstoreLayout

  const QUOTE: Byte := 34
  const COMMA: Byte := 44
  const EQ: Byte := 61
  const GT: Byte := 62
  const BACKSLASH: Byte := 92
  const SPACE: Byte := 32

  predicate IsSpace(c: Byte) { c in {32, 9, 10, 13, 12} }

  /** The next character; a string ends with a zero. */
  function Next(t: Bytes): Byte { if t == [] then 0 else t[0] }

  /** A string as the server knows it: no zero inside. */
  predicate Plain(t: Bytes) { forall i :: 0 <= i < |t| ==> t[i] != 0 }

  // ----- one word -----

  datatype ValState = WaitVal | InVal | InEscVal | WaitEscIn | WaitEscEscIn

  /** A word, whether it was quoted, and the text after it; or the end of the text; or an error. */
  datatype ValResult = Got(word: Bytes, escaped: bool, rest: Bytes) | NoWord | BadWord

  function GetVal(t: Bytes, st: ValState, ignoreEq: bool, word: Bytes, escaped: bool): (r: ValResult)
    requires Plain(t)
    ensures r.Got? ==> |r.rest| <= |t| && Plain(r.rest) && (st.WaitVal? ==> |r.rest| < |t|)
    decreases |t|
  {
    var c := Next(t);
    match st
    case WaitVal =>
      if c == QUOTE then GetVal(t[1..], InEscVal, ignoreEq, word, true)
      else if c == 0 then NoWord
      else if c == EQ && !ignoreEq then BadWord
      else if c == BACKSLASH then GetVal(t[1..], WaitEscIn, ignoreEq, word, escaped)
      else if !IsSpace(c) then GetVal(t[1..], InVal, ignoreEq, word + [c], escaped)
      else GetVal(t[1..], WaitVal, ignoreEq, word, escaped)
    case InVal =>
      if c == BACKSLASH then GetVal(t[1..], WaitEscIn, ignoreEq, word, escaped)
      else if c == EQ && !ignoreEq then Got(word, escaped, t)
      else if c == COMMA && ignoreEq then Got(word, escaped, t)
      else if c == 0 then Got(word, escaped, t)
      else if IsSpace(c) then Got(word, escaped, t[1..])
      else GetVal(t[1..], InVal, ignoreEq, word + [c], escaped)
    case InEscVal =>
      if c == BACKSLASH then GetVal(t[1..], WaitEscEscIn, ignoreEq, word, escaped)
      else if c == QUOTE then Got(word, escaped, t[1..])
      else if c == 0 then BadWord
      else GetVal(t[1..], InEscVal, ignoreEq, word + [c], escaped)
    case WaitEscIn =>
      if c == 0 then BadWord else GetVal(t[1..], InVal, ignoreEq, word + [c], escaped)
    case WaitEscEscIn =>
      if c == 0 then BadWord else GetVal(t[1..], InEscVal, ignoreEq, word + [c], escaped)
  }

  // ----- all pairs -----

  datatype ParseState = WKey | WVal | WEq | WGt | WDel

  predicate Lower(c: Byte, lower: Byte) { c == lower || c == lower - 32 }

  /** The four letters of "null" in any case. */
  predicate IsNullWord(w: Bytes)
  {
    |w| == 4 && Lower(w[0], 110) && Lower(w[1], 117) && Lower(w[2], 108) && Lower(w[3], 108)
  }

  function Value(w: Bytes, escaped: bool): Option<Bytes>
  {
    if !escaped && IsNullWord(w) then None else Some(w)
  }

  /** The pairs of a text in their order, or None for a syntax error or a string that is too long. */
  function Parse(t: Bytes, st: ParseState, done: seq<Pair>, key: Bytes): Option<seq<Pair>>
    requires Plain(t)
    decreases |t|
  {
    var c := Next(t);
    match st
    case WKey =>
      var r := GetVal(t, WaitVal, false, [], false);
      if r.NoWord? then Some(done)
      else if r.BadWord? || |r.word| >= POSITIONS then None
      else Parse(r.rest, WEq, done, r.word)
    case WEq =>
      if c == EQ then Parse(t[1..], WGt, done, key)
      else if c == 0 || !IsSpace(c) then None
      else Parse(t[1..], WEq, done, key)
    case WGt =>
      if c == GT then Parse(t[1..], WVal, done, key) else None
    case WVal =>
      var r := GetVal(t, WaitVal, true, [], false);
      if !r.Got? || |r.word| >= POSITIONS then None
      else Parse(r.rest, WDel, done + [Pair(key, Value(r.word, r.escaped))], [])
    case WDel =>
      if c == COMMA then Parse(t[1..], WKey, done, [])
      else if c == 0 then Some(done)
      else if !IsSpace(c) then None
      else Parse(t[1..], WDel, done, [])
  }

  // ----- printing -----

  /** A string with a backslash before quotes and backslashes. */
  function Escape(s: Bytes): Bytes
  {
    if s == [] then []
    else (if s[0] == QUOTE || s[0] == BACKSLASH then [BACKSLASH, s[0]] else [s[0]]) + Escape(s[1..])
  }

  function Quoted(s: Bytes): Bytes { [QUOTE] + Escape(s) + [QUOTE] }

  function ShowValue(val: Option<Bytes>): Bytes
  {
    if val.None? then [78, 85, 76, 76] else Quoted(val.value)
  }

  function ShowPair(p: Pair): Bytes { Quoted(p.key) + [EQ, GT] + ShowValue(p.val) }

  function Show(ps: seq<Pair>): Bytes
  {
    if ps == [] then []
    else ShowPair(ps[0]) + if |ps| == 1 then [] else [COMMA, SPACE] + Show(ps[1..])
  }

  // ----- parsing what was printed -----

  predicate PlainPair(p: Pair)
  {
    && Plain(p.key) && |p.key| < POSITIONS
    && (p.val.Some? ==> Plain(p.val.value) && |p.val.value| < POSITIONS)
  }

  lemma {:induction false} EscapePlain(s: Bytes)
    requires Plain(s)
    ensures Plain(Escape(s)) && |Escape(s)| <= 2 * |s|
  {
    if s != [] {
      EscapePlain(s[1..]);
    }
  }

  /** The rest of a quoted word, up to its closing quote. */
  lemma {:induction false} ScanEscaped(s: Bytes, rest: Bytes, ignoreEq: bool, word: Bytes)
    requires Plain(Escape(s) + [QUOTE] + rest) && Plain(s)
    ensures GetVal(Escape(s) + [QUOTE] + rest, InEscVal, ignoreEq, word, true) == Got(word + s, true, rest)
  {
    var t := Escape(s) + [QUOTE] + rest;
    if s == [] {
      assert t[1..] == rest && word + s == word;
    } else {
      var t' := Escape(s[1..]) + [QUOTE] + rest;
      assert word + s == word + [s[0]] + s[1..];
      if s[0] == QUOTE || s[0] == BACKSLASH {
        assert t == [BACKSLASH, s[0]] + t';
        assert t[1..] == [s[0]] + t' && t[1..][1..] == t';
        ScanEscaped(s[1..], rest, ignoreEq, word + [s[0]]);
      } else {
        assert t == [s[0]] + t' && t[1..] == t';
        ScanEscaped(s[1..], rest, ignoreEq, word + [s[0]]);
      }
    }
  }

  lemma PlainParts(a: Bytes, b: Bytes)
    ensures Plain(a + b) <==> Plain(a) && Plain(b)
  {
    if Plain(a + b) {
      forall i | 0 <= i < |b| ensures b[i] != 0 {
        assert (a + b)[|a| + i] == b[i];
      }
      forall i | 0 <= i < |a| ensures a[i] != 0 {
        assert (a + b)[i] == a[i];
      }
    }
  }

  lemma QuotedPlain(s: Bytes)
    requires Plain(s)
    ensures Plain(Quoted(s))
  {
    EscapePlain(s);
  }

  lemma ScanQuoted(s: Bytes, rest: Bytes, ignoreEq: bool)
    requires Plain(s) && Plain(rest)
    ensures Plain(Quoted(s) + rest)
    ensures GetVal(Quoted(s) + rest, WaitVal, ignoreEq, [], false) == Got(s, true, rest)
  {
    QuotedPlain(s);
    var t := Escape(s) + [QUOTE] + rest;
    assert Quoted(s) + rest == [QUOTE] + t;
    PlainParts([QUOTE], t);
    assert ([QUOTE] + t)[1..] == t;
    ScanEscaped(s, rest, ignoreEq, []);
    assert [] + s == s;
  }

  const NULL_WORD: Bytes := [78, 85, 76, 76]

  /** A character that an unquoted value keeps as it is. */
  predicate Ordinary(c: Byte) { c !in {0, BACKSLASH, COMMA} && !IsSpace(c) }

  lemma {:induction false} ScanOrdinary(w: Bytes, rest: Bytes, word: Bytes)
    requires Plain(w + rest) && Plain(rest) && (rest != [] ==> rest[0] == COMMA)
    requires forall i :: 0 <= i < |w| ==> Ordinary(w[i])
    ensures GetVal(w + rest, InVal, true, word, false) == Got(word + w, false, rest)
  {
    if w == [] {
      assert w + rest == rest && word + w == word;
    } else {
      assert (w + rest)[1..] == w[1..] + rest;
      ScanOrdinary(w[1..], rest, word + [w[0]]);
      assert word + [w[0]] + w[1..] == word + w;
    }
  }

  lemma ScanNull(rest: Bytes)
    requires Plain(rest) && (rest != [] ==> rest[0] == COMMA)
    ensures Plain(NULL_WORD + rest)
    ensures GetVal(NULL_WORD + rest, WaitVal, true, [], false) == Got(NULL_WORD, false, rest)
  {
    PlainParts(NULL_WORD, rest);
    assert (NULL_WORD + rest)[1..] == [85, 76, 76] + rest;
    ScanOrdinary([85, 76, 76], rest, [78]);
    assert [78] + [85, 76, 76] == NULL_WORD && [] + [78] == [78];
    assert Next(NULL_WORD + rest) == 78;
  }

  lemma ParseValue(val: Option<Bytes>, rest: Bytes, done: seq<Pair>, key: Bytes)
    requires PlainPair(Pair(key, val)) && Plain(rest) && (rest != [] ==> rest[0] == COMMA)
    ensures Plain(ShowValue(val) + rest)
    ensures Parse(ShowValue(val) + rest, WVal, done, key) == Parse(rest, WDel, done + [Pair(key, val)], [])
  {
    if val.None? {
      ScanNull(rest);
    } else {
      ScanQuoted(val.value, rest, true);
    }
  }

  /** One printed pair is read as that pair. */
  lemma ParsePair(p: Pair, rest: Bytes, done: seq<Pair>)
    requires PlainPair(p) && Plain(rest) && (rest != [] ==> rest[0] == COMMA)
    ensures Plain(ShowPair(p) + rest)
    ensures Parse(ShowPair(p) + rest, WKey, done, []) == Parse(rest, WDel, done + [p], [])
  {
    var t := ShowValue(p.val) + rest;
    ParseValue(p.val, rest, done, p.key);
    assert ShowPair(p) + rest == Quoted(p.key) + ([EQ, GT] + t);
    PlainParts([EQ, GT], t);
    ScanQuoted(p.key, [EQ, GT] + t, false);
    assert ([EQ, GT] + t)[1..] == [GT] + t && ([GT] + t)[1..] == t;
    PlainParts([GT], t);
    assert Parse([GT] + t, WGt, done, p.key) == Parse(t, WVal, done, p.key);
    assert Parse([EQ, GT] + t, WEq, done, p.key) == Parse([GT] + t, WGt, done, p.key);
  }

  lemma ParseMore(p: Pair, t: Bytes, done: seq<Pair>)
    requires PlainPair(p) && Plain(t)
    ensures Plain(ShowPair(p) + ([COMMA, SPACE] + t))
    ensures Parse(ShowPair(p) + ([COMMA, SPACE] + t), WKey, done, []) == Parse(t, WKey, done + [p], [])
  {
    PlainParts([COMMA, SPACE], t);
    ParsePair(p, [COMMA, SPACE] + t, done);
    assert ([COMMA, SPACE] + t)[1..] == [SPACE] + t;
  }

  lemma ParseOne(p: Pair, done: seq<Pair>)
    requires PlainPair(p)
    ensures Plain(Show([p])) && Parse(Show([p]), WKey, done, []) == Some(done + [p])
  {
    ParsePair(p, [], done);
    assert Show([p]) == ShowPair(p) == ShowPair(p) + [];
  }

  lemma ParseStep(p: Pair, ps: seq<Pair>, done: seq<Pair>)
    requires PlainPair(p) && ps != [] && Plain(Show(ps))
    requires Parse(Show(ps), WKey, done + [p], []) == Some(done + [p] + ps)
    ensures Plain(Show([p] + ps)) && Parse(Show([p] + ps), WKey, done, []) == Some(done + ([p] + ps))
  {
    ParseMore(p, Show(ps), done);
    assert ([p] + ps)[1..] == ps;
    assert Show([p] + ps) == ShowPair(p) + ([COMMA, SPACE] + Show(ps));
    assert done + [p] + ps == done + ([p] + ps);
  }

  /** Reading the printed text of any pairs gives back the pairs. */
  lemma {:induction false} ParseShow(ps: seq<Pair>, done: seq<Pair>)
    requires forall i :: 0 <= i < |ps| ==> PlainPair(ps[i])
    ensures Plain(Show(ps)) && Parse(Show(ps), WKey, done, []) == Some(done + ps)
  {
    if ps == [] {
      assert done + ps == done;
    } else {
      assert ps == [ps[0]] + ps[1..];
      if |ps| == 1 {
        ParseOne(ps[0], done);
        assert ps == [ps[0]];
      } else {
        ParseShow(ps[1..], done + [ps[0]]);
        ParseStep(ps[0], ps[1..], done);
      }
    }
  }
}
