/** Index tuples and scan signatures of the bloom index, and the test that compares them. */
module BloomTuple {
  import opened Wrappers
  import opened BloomSignature

  /** Signature length in words, at most 256, and the number of bits drawn for each column. */
  datatype Options = Options(bloomLength: nat, bitSize: seq<nat>)
  {
    predicate Valid() { 1 <= bloomLength <= 256 && |bitSize| == 32 }

    function Bits(): nat { 16 * bloomLength }
  }

  /** The hash values of a row; a null column has none. */
  type Row = seq<Option<Uint32>>

  ghost function ColumnBits(o: Options, attno: nat, value: Option<Uint32>): iset<int>
    requires o.Valid() && attno < 32
  {
    if value.None? then iset{} else ISet(ValueBits(attno, value.value, o.bitSize[attno], o.Bits()))
  }

  predicate ColumnSignable(o: Options, attno: nat, value: Option<Uint32>)
    requires o.Valid() && attno < 32
  {
    value.Some? ==> Signable(attno, value.value, o.bitSize[attno])
  }

  /** The bits of the first `n` columns of a row. */
  ghost function RowBits(o: Options, row: Row, n: nat): iset<int>
    requires o.Valid() && n <= |row| <= 32
  {
    if n == 0 then iset{} else RowBits(o, row, n - 1) + ColumnBits(o, n - 1, row[n - 1])
  }

  /** A key of a scan: the column it is on and the hash value it asks for, none if it is null. */
  datatype ScanKey = ScanKey(attno: nat, value: Option<Uint32>)

  /** The keys are on columns of an index. */
  predicate OnColumns(keys: seq<ScanKey>) { forall i :: 0 <= i < |keys| ==> keys[i].attno < 32 }

  /** The bits of the first `n` keys of a scan. */
  ghost function KeyBits(o: Options, keys: seq<ScanKey>, n: nat): iset<int>
    requires o.Valid() && n <= |keys| && OnColumns(keys)
  {
    if n == 0 then iset{} else KeyBits(o, keys, n - 1) + ColumnBits(o, keys[n - 1].attno, keys[n - 1].value)
  }

  /** `sign` is a signature with exactly the bits in `bits`. */
  ghost predicate Has(o: Options, sign: seq<bv16>, bits: iset<int>)
  {
    |sign| == o.bloomLength && forall k :: 0 <= k < 16 * |sign| ==> (Bit(sign, k) <==> k in bits)
  }

  method BlankSignature(o: Options) returns (a: array<bv16>)
    requires o.Valid()
    ensures fresh(a) && a.Length == o.bloomLength && Has(o, a[..], iset{})
  {
    a := new bv16[o.bloomLength](_ => 0);
  }

  /** Adds the bits of one column; a null column has none. */
  method SignColumn(gen: Generator, a: array<bv16>, o: Options, attno: nat, value: Option<Uint32>,
                    ghost bits: iset<int>)
    returns (ok: bool)
    requires o.Valid() && attno < 32 && Has(o, a[..], bits)
    modifies gen, a
    ensures ok <==> ColumnSignable(o, attno, value)
    ensures ok ==> Has(o, a[..], bits + ColumnBits(o, attno, value))
  {
    if value.None? {
      return true;
    }
    ok := SignValue(gen, a, attno, value.value, o.bitSize[attno]);
  }

  /** The tuple of a row: exactly the bits of its non-null columns are set. */
  method FormTuple(gen: Generator, o: Options, row: Row) returns (ok: bool, sign: seq<bv16>)
    requires o.Valid() && |row| <= 32
    modifies gen
    ensures ok <==> forall i :: 0 <= i < |row| ==> ColumnSignable(o, i, row[i])
    ensures ok ==> Has(o, sign, RowBits(o, row, |row|))
  {
    var a := BlankSignature(o);
    var i := 0;
    while i < |row|
      invariant 0 <= i <= |row|
      invariant Has(o, a[..], RowBits(o, row, i))
      invariant forall k :: 0 <= k < i ==> ColumnSignable(o, k, row[k])
    {
      var done := SignColumn(gen, a, o, i, row[i], RowBits(o, row, i));
      if !done {
        return false, [];
      }
      i := i + 1;
    }
    return true, a[..];
  }

  predicate KeyUsable(o: Options, key: ScanKey)
    requires o.Valid() && key.attno < 32
  {
    key.value.Some? && ColumnSignable(o, key.attno, key.value)
  }

  /** The signature of a scan, unless a null key lets nothing be found. */
  datatype ScanSignature = Signed(sign: seq<bv16>) | NullKey | Undefined

  method SignKey(gen: Generator, a: array<bv16>, o: Options, key: ScanKey, ghost bits: iset<int>)
    returns (failed: Option<ScanSignature>)
    requires o.Valid() && key.attno < 32 && Has(o, a[..], bits)
    modifies gen, a
    ensures failed.None? <==> KeyUsable(o, key)
    ensures failed.None? ==> Has(o, a[..], bits + ColumnBits(o, key.attno, key.value))
    ensures failed.Some? ==> !failed.value.Signed? && (failed.value.NullKey? <==> key.value.None?)
  {
    if key.value.None? {
      return Some(NullKey);
    }
    var done := SignColumn(gen, a, o, key.attno, key.value, bits);
    return if done then None else Some(Undefined);
  }

  /** The first `n` keys can be used. */
  predicate UsableTo(o: Options, keys: seq<ScanKey>, n: nat)
    requires o.Valid() && OnColumns(keys) && n <= |keys|
  {
    n == 0 || (UsableTo(o, keys, n - 1) && KeyUsable(o, keys[n - 1]))
  }

  lemma {:induction false} UsableIff(o: Options, keys: seq<ScanKey>, n: nat)
    requires o.Valid() && OnColumns(keys) && n <= |keys|
    ensures UsableTo(o, keys, n) <==> forall i :: 0 <= i < n ==> KeyUsable(o, keys[i])
  {
    if n > 0 {
      UsableIff(o, keys, n - 1);
    }
  }

  /** Signs key after key up to the first that cannot be used, which is key `n`. */
  method SignKeys(gen: Generator, o: Options, keys: seq<ScanKey>) returns (r: ScanSignature, n: nat)
    requires o.Valid() && OnColumns(keys)
    modifies gen
    ensures n <= |keys| && UsableTo(o, keys, n)
    ensures r.Signed? ==> n == |keys| && Has(o, r.sign, KeyBits(o, keys, n))
    ensures !r.Signed? ==> n < |keys| && !KeyUsable(o, keys[n]) && (r.NullKey? <==> keys[n].value.None?)
  {
    var a := BlankSignature(o);
    n := 0;
    while n < |keys|
      invariant n <= |keys| && Has(o, a[..], KeyBits(o, keys, n)) && UsableTo(o, keys, n)
    {
      var failed := SignKey(gen, a, o, keys[n], KeyBits(o, keys, n));
      if failed.Some? {
        return failed.value, n;
      }
      n := n + 1;
    }
    return Signed(a[..]), n;
  }

  method SignScan(gen: Generator, o: Options, keys: seq<ScanKey>) returns (r: ScanSignature)
    requires o.Valid() && OnColumns(keys)
    modifies gen
    ensures r.Signed? <==> forall i :: 0 <= i < |keys| ==> KeyUsable(o, keys[i])
    ensures r.Signed? ==> Has(o, r.sign, KeyBits(o, keys, |keys|))
    ensures r.NullKey? ==> exists i :: 0 <= i < |keys| && keys[i].value.None?
    ensures r.Undefined? ==> exists i :: 0 <= i < |keys| && keys[i].value.Some? && !KeyUsable(o, keys[i])
  {
    var n;
    r, n := SignKeys(gen, o, keys);
    UsableIff(o, keys, n);
  }

  ghost predicate BitSubset(q: seq<bv16>, sign: seq<bv16>)
    requires |q| == |sign|
  {
    forall k :: 0 <= k < 16 * |q| && Bit(q, k) ==> Bit(sign, k)
  }

  lemma WordsSubset(q: seq<bv16>, sign: seq<bv16>)
    requires |q| == |sign|
    requires forall i :: 0 <= i < |q| ==> sign[i] & q[i] == q[i]
    ensures BitSubset(q, sign)
  {
    forall k | 0 <= k < 16 * |q| && Bit(q, k) ensures Bit(sign, k) {
      WordSubset(sign[k / 16], q[k / 16]);
    }
  }

  lemma SubsetWords(q: seq<bv16>, sign: seq<bv16>, i: nat)
    requires |q| == |sign| && i < |q| && BitSubset(q, sign)
    ensures sign[i] & q[i] == q[i]
  {
    forall j | 0 <= j < 16 && WordBit(q[i], j) ensures WordBit(sign[i], j) {
      var k := 16 * i + j;
      assert k / 16 == i && k % 16 == j;
      assert Bit(q, k);
      assert Bit(sign, k);
    }
    WordSubset(sign[i], q[i]);
  }

  /** The word by word test of a scan: every bit of the scan signature is in the tuple's. */
  method Matches(q: seq<bv16>, sign: seq<bv16>) returns (res: bool)
    requires |q| == |sign|
    ensures res <==> BitSubset(q, sign)
  {
    var i := 0;
    while i < |q|
      invariant 0 <= i <= |q|
      invariant forall k :: 0 <= k < i ==> sign[k] & q[k] == q[k]
    {
      if sign[i] & q[i] != q[i] {
        if BitSubset(q, sign) {
          SubsetWords(q, sign, i);
        }
        return false;
      }
      i := i + 1;
    }
    WordsSubset(q, sign);
    return true;
  }

  /** The row has the hash value that every key asks for. */
  predicate RowMatches(row: Row, keys: seq<ScanKey>)
  {
    forall i :: 0 <= i < |keys| ==>
      keys[i].value.Some? && keys[i].attno < |row| && row[keys[i].attno] == keys[i].value
  }

  lemma {:induction false} ColumnInRow(o: Options, row: Row, n: nat, i: nat)
    requires o.Valid() && i < n <= |row| <= 32
    ensures ColumnBits(o, i, row[i]) <= RowBits(o, row, n)
  {
    RowStep(o, row, n, RowBits(o, row, n - 1), ColumnBits(o, n - 1, row[n - 1]));
    if i < n - 1 {
      ColumnInRow(o, row, n - 1, i);
    }
  }

  lemma RowStep(o: Options, row: Row, n: nat, before: iset<int>, column: iset<int>)
    requires o.Valid() && 0 < n <= |row| <= 32
    requires before == RowBits(o, row, n - 1) && column == ColumnBits(o, n - 1, row[n - 1])
    ensures before <= RowBits(o, row, n) && column <= RowBits(o, row, n)
  {
  }

  lemma {:induction false} KeysInRow(o: Options, row: Row, keys: seq<ScanKey>, n: nat)
    requires o.Valid() && |row| <= 32 && n <= |keys| && OnColumns(keys)
    requires RowMatches(row, keys)
    ensures KeyBits(o, keys, n) <= RowBits(o, row, |row|)
  {
    if n > 0 {
      KeysInRow(o, row, keys, n - 1);
      ColumnInRow(o, row, |row|, keys[n - 1].attno);
    }
  }

  /** A row that every key of a scan asks for is never rejected by its signature. */
  lemma NoFalseNegative(o: Options, row: Row, keys: seq<ScanKey>, sign: seq<bv16>, q: seq<bv16>)
    requires o.Valid() && |row| <= 32 && OnColumns(keys)
    requires Has(o, sign, RowBits(o, row, |row|)) && Has(o, q, KeyBits(o, keys, |keys|))
    requires RowMatches(row, keys)
    ensures BitSubset(q, sign)
  {
    KeysInRow(o, row, keys, |keys|);
  }
}
