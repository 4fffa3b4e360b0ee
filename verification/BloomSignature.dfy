/** Signatures of the bloom index: the random generator, in 32-bit arithmetic, and the bits it sets. */
module BloomSignature {

  newtype Int32 = x: int | -0x8000_0000 <= x < 0x8000_0000

  type Uint32 = x: int | 0 <= x < 0x1_0000_0000

  /** 2^31 - 1 */
  const M: int := 0x7fff_ffff

  /** 2^31 - 2 */
  const SEEDS: int := 0x7fff_fffe

  /** Division that truncates toward zero. */
  function TruncDiv(a: int, b: int): int
    requires 0 < b
  {
    if a >= 0 then a / b else -((-a) / b)
  }

  function TruncRem(a: int, b: int): int
    requires 0 < b
  {
    a - b * TruncDiv(a, b)
  }

  // ----- the generator -----

  /** The multiplicative generator of Park and Miller. */
  function Step(x: int): int { (16807 * x) % M }

  /** The signed number with the same 32 bits. */
  function Signed(x: Uint32): Int32
  {
    if x < 0x8000_0000 then x as Int32 else (x - 0x1_0000_0000) as Int32
  }

  /** The state that a seed leaves: the seed is read as a signed number. */
  function SeedState(seed: Uint32): int { TruncRem(Signed(seed) as int, SEEDS) + 1 }

  /** A seed leaves its own successor as state, but for the three lowest and the two highest signed
      numbers, which wrap around. */
  lemma SeedStateExact(seed: Uint32)
    ensures var s := Signed(seed) as int;
      SeedState(seed) == if s >= SEEDS then s + 1 - SEEDS else if s <= -SEEDS then s + 1 + SEEDS else s + 1
  {
    var s := Signed(seed) as int;
    assert TruncDiv(s, SEEDS) == if s >= SEEDS then 1 else if s <= -SEEDS then -1 else 0;
  }

  /** Seeds leave the same state only if they differ by a multiple of 2^31 - 2 and are not on different sides
      of zero. */
  lemma SeedCollision(a: Uint32, b: Uint32)
    ensures var s, t := Signed(a) as int, Signed(b) as int;
      SeedState(a) == SeedState(b) <==>
        s == t || ((s - t == SEEDS || t - s == SEEDS) && s * t >= 0) || {s, t} == {SEEDS, -SEEDS}
  {
    SeedStateExact(a);
    SeedStateExact(b);
    var s, t := Signed(a) as int, Signed(b) as int;
    SameSide(s, t);
    if {s, t} == {SEEDS, -SEEDS} {
      assert s in {SEEDS, -SEEDS} && t in {SEEDS, -SEEDS} && SEEDS in {s, t} && -SEEDS in {s, t};
    }
  }

  lemma SameSide(s: int, t: int)
    ensures s * t >= 0 <==> (s >= 0 && t >= 0) || (s <= 0 && t <= 0)
  {
  }

  /** Exactly two seeds leave the state zero, from which the generator never gets away. */
  lemma SeedRange(seed: Uint32)
    ensures -M < SeedState(seed) < M
    ensures SeedState(seed) == 0 <==> seed == 0xffff_ffff || seed == 0x8000_0001
  {
    SeedStateExact(seed);
  }

  /** A step never leads to zero from anywhere else: 16807 has the inverse 1407677000. */
  lemma StepNonZero(x: int)
    requires -M < x < M
    ensures 0 <= Step(x) < M
    ensures Step(x) == 0 <==> x == 0
  {
    if Step(x) == 0 {
      var q := (16807 * x) / M;
      assert 16807 * x == M * q;
      assert 16807 * 1407677000 == 11017 * M + 1;
      assert x == M * (1407677000 * q - 11017 * x);
    }
  }

  lemma ModUnique(x: int, q: int, r: int)
    requires x == M * q + r && 0 <= r < M
    ensures x % M == r
  {
  }

  class Generator {
    var next: Int32

    predicate Valid()
      reads this
    {
      -M < next as int < M
    }

    constructor ()
      ensures Valid() && next == 0
    {
      next := 0;
    }

    /** Every operation is checked to stay within 32 bits; from any state but zero the new state is
        between 1 and 2^31 - 2. */
    method Rand() returns (r: Int32)
      requires Valid()
      modifies this
      ensures Valid()
      ensures next as int == Step(old(next) as int)
      ensures old(next) != 0 ==> 1 <= next as int <= 0x7fff_fffe
      ensures r as int == next as int - 1
    {
      ghost var was := next as int;
      var hi := TruncDiv(next as int, 127773) as Int32;
      var lo := TruncRem(next as int, 127773) as Int32;
      var x := 16807 * lo - 2836 * hi;
      ghost var y := x as int;
      assert 16807 * was == M * hi as int + y;
      if x < 0 {
        x := x + 0x7fff_ffff;
      }
      ModUnique(16807 * was, if y < 0 then hi as int - 1 else hi as int, x as int);
      StepNonZero(was);
      next := x;
      r := x - 1;
    }

    method Srand(seed: Uint32)
      modifies this
      ensures Valid() && next as int == SeedState(seed)
    {
      next := Signed(seed);
      SeedRange(seed);
      next := TruncRem(next as int, SEEDS) as Int32 + 1;
    }
  }

  // ----- exclusive or -----

  /** Exclusive or, bit by bit. */
  function Xor(a: nat, b: nat): nat
  {
    if a == 0 && b == 0 then 0 else 2 * Xor(a / 2, b / 2) + (a + b) % 2
  }

  /** Bit `k` of a number. */
  predicate NatBit(a: nat, k: nat) { if k == 0 then a % 2 == 1 else NatBit(a / 2, k - 1) }

  /** A bit is set in the exclusive or exactly if it is set in one of the numbers but not in both. */
  lemma {:induction false} XorBit(a: nat, b: nat, k: nat)
    ensures NatBit(Xor(a, b), k) <==> (NatBit(a, k) <==> !NatBit(b, k))
  {
    XorHalf(a, b);
    if k == 0 {
      Parity(a, b);
    } else {
      XorBit(a / 2, b / 2, k - 1);
    }
  }

  lemma Parity(a: nat, b: nat)
    ensures (a + b) % 2 == 1 <==> (a % 2 == 1 <==> b % 2 != 1)
  {
  }

  lemma XorHalf(a: nat, b: nat)
    ensures Xor(a, b) / 2 == Xor(a / 2, b / 2) && Xor(a, b) % 2 == (a + b) % 2
  {
  }

  lemma {:induction false} ZeroBit(k: nat)
    ensures !NatBit(0, k)
  {
    if k > 0 {
      ZeroBit(k - 1);
    }
  }

  /** Numbers with the same bits are the same. */
  lemma {:induction false} SameBits(a: nat, b: nat)
    requires forall k :: NatBit(a, k) <==> NatBit(b, k)
    ensures a == b
  {
    if a != 0 || b != 0 {
      assert NatBit(a, 0) <==> NatBit(b, 0);
      forall k: nat ensures NatBit(a / 2, k) <==> NatBit(b / 2, k) {
        assert NatBit(a, k + 1) <==> NatBit(b, k + 1);
      }
      SameBits(a / 2, b / 2);
    }
  }

  lemma XorUndo(a: nat, b: nat)
    ensures Xor(Xor(a, b), b) == a && Xor(a, Xor(a, b)) == b
  {
    var x := Xor(a, b);
    forall k: nat
      ensures (NatBit(Xor(x, b), k) <==> NatBit(a, k)) && (NatBit(Xor(a, x), k) <==> NatBit(b, k))
    {
      XorBit(a, b, k);
      XorBit(x, b, k);
      XorBit(a, x, k);
    }
    SameBits(Xor(x, b), a);
    SameBits(Xor(a, x), b);
  }

  lemma {:induction false} XorBound(a: nat, b: nat, n: nat)
    requires a < Power(2, n) && b < Power(2, n)
    ensures Xor(a, b) < Power(2, n)
  {
    if n > 0 && (a != 0 || b != 0) {
      XorBound(a / 2, b / 2, n - 1);
    }
  }

  function Power(b: nat, n: nat): nat { if n == 0 then 1 else b * Power(b, n - 1) }

  lemma WordPower()
    ensures Power(2, 32) == 0x1_0000_0000
  {
    assert Power(2, 8) == 0x100;
    assert Power(2, 16) == 0x1_0000;
    assert Power(2, 24) == 0x100_0000;
  }

  lemma XorWord(a: Uint32, b: Uint32)
    ensures Xor(a, b) < 0x1_0000_0000
  {
    WordPower();
    XorBound(a, b, 32);
  }

  // ----- the bits of a value -----

  /** The seed for the hash value `hash` of column `attno`. */
  function ValueSeed(attno: nat, hash: Uint32): Uint32
    requires attno < 32
  {
    ColumnState(attno);
    XorWord(hash, Step(attno + 1) - 1);
    Xor(hash, Step(attno + 1) - 1)
  }

  lemma ColumnState(attno: nat)
    requires attno < 32
    ensures SeedState(attno) == attno + 1
    ensures 1 <= Step(attno + 1) < M
  {
    StepNonZero(attno + 1);
  }

  /** The seed is the exclusive or of the hash value and the first number drawn for the column. */
  lemma ValueSeedExact(attno: nat, hash: Uint32, k: nat)
    requires attno < 32
    ensures NatBit(ValueSeed(attno, hash), k) <==> (NatBit(hash, k) <==> !NatBit(16807 * (attno + 1) - 1, k))
  {
    SeedIsXor(attno, hash);
    XorBit(hash, 16807 * (attno + 1) - 1, k);
  }

  lemma SmallMod(x: nat)
    requires x < M
    ensures x % M == x
  {
  }

  lemma SeedIsXor(attno: nat, hash: Uint32)
    requires attno < 32
    ensures ValueSeed(attno, hash) == Xor(hash, 16807 * (attno + 1) - 1)
  {
    var first := 16807 * (attno + 1);
    SmallMod(first);
    assert Step(attno + 1) == first;
  }

  /** Different hash values of a column have different seeds. */
  lemma SeedsDiffer(attno: nat, hash: Uint32, other: Uint32)
    requires attno < 32
    ensures ValueSeed(attno, hash) == ValueSeed(attno, other) <==> hash == other
  {
    var c := 16807 * (attno + 1) - 1;
    SeedIsXor(attno, hash);
    SeedIsXor(attno, other);
    XorUndo(hash, c);
    XorUndo(other, c);
  }

  /** A hash value has different seeds in different columns. */
  lemma ColumnsDiffer(attno: nat, other: nat, hash: Uint32)
    requires attno < 32 && other < 32
    ensures ValueSeed(attno, hash) == ValueSeed(other, hash) <==> attno == other
  {
    SeedIsXor(attno, hash);
    SeedIsXor(other, hash);
    XorUndo(hash, 16807 * (attno + 1) - 1);
    XorUndo(hash, 16807 * (other + 1) - 1);
  }

  /** The bits that `count` draws from `state` name in a signature of `bits` bits. */
  ghost function Draws(state: int, count: nat, bits: nat): set<int>
    requires bits > 0
    decreases count
  {
    if count == 0 then {}
    else {(Step(state) - 1) % bits} + Draws(Step(state), count - 1, bits)
  }

  /** The bits that the hash value `hash` of column `attno` sets. */
  ghost function ValueBits(attno: nat, hash: Uint32, bitSize: nat, bits: nat): set<int>
    requires attno < 32 && bits > 0
  {
    Draws(SeedState(ValueSeed(attno, hash)), bitSize, bits)
  }

  /** The number in draw `j`, counted from 0, after the state `state`. */
  function Drawing(state: int, j: nat): int { Power(16807, j + 1) * state % M - 1 }

  lemma StepPower(state: int, j: nat)
    ensures Power(16807, j) * Step(state) % M == Power(16807, j + 1) * state % M
  {
    var p, q := Power(16807, j), 16807 * state / M;
    assert 16807 * state == M * q + Step(state);
    MoveFactor(p, state);
    Distribute(p, q, Step(state));
    ModSum(p * Step(state), p * q);
  }

  lemma MoveFactor(p: nat, x: int)
    ensures (16807 * p) * x == p * (16807 * x)
  {
  }

  lemma Distribute(p: nat, q: int, r: int)
    ensures p * (M * q + r) == M * (p * q) + p * r
  {
  }

  lemma ModSum(x: int, q: int)
    ensures (M * q + x) % M == x % M
  {
    var r := x % M;
    ModUnique(M * q + x, q + x / M, r);
  }

  /** The draws go through the powers of 16807. */
  lemma {:induction false} DrawsExact(state: int, count: nat, bits: nat)
    requires bits > 0
    ensures Draws(state, count, bits) == set j | 0 <= j < count :: Drawing(state, j) % bits
    decreases count
  {
    if count > 0 {
      var next := Step(state);
      DrawsExact(next, count - 1, bits);
      var rest, all := (set j | 0 <= j < count - 1 :: Drawing(next, j) % bits),
                       (set j | 0 <= j < count :: Drawing(state, j) % bits);
      forall j: nat ensures Drawing(next, j) == Drawing(state, j + 1) {
        StepPower(state, j + 1);
      }
      assert Power(16807, 1) == 16807 && Drawing(state, 0) == next - 1;
      forall x | x in rest ensures x in all {
        var j :| 0 <= j < count - 1 && x == Drawing(next, j) % bits;
        assert x == Drawing(state, j + 1) % bits;
      }
      forall x | x in all ensures x in {Drawing(state, 0) % bits} + rest {
        var j :| 0 <= j < count && x == Drawing(state, j) % bits;
        assert j > 0 ==> x == Drawing(next, j - 1) % bits;
      }
    }
  }

  lemma XorNone(a: nat)
    ensures Xor(0, a) == a
  {
    forall k: nat ensures NatBit(Xor(0, a), k) <==> NatBit(a, k) {
      XorBit(0, a, k);
      ZeroBit(k);
    }
    SameBits(Xor(0, a), a);
  }

  lemma DrawOnce(state: int, count: nat, bits: nat, a: int, m: int)
    requires bits > 0 && Step(state) == a && (a - 1) % bits == m
    ensures Draws(state, count + 1, bits) == {m} + Draws(a, count, bits)
  {
  }

  /** The first two draws, from the states they leave. */
  lemma TwoDraws(state: int, a: int, b: int, count: nat, bits: nat)
    requires count == 2 && bits > 0 && Step(state) == a && Step(a) == b
    ensures Draws(state, count, bits) == {(a - 1) % bits, (b - 1) % bits}
  {
    DrawOnce(state, 1, bits, a, (a - 1) % bits);
    DrawOnce(a, 0, bits, b, (b - 1) % bits);
  }

  lemma KnownDraws(state: int, count: nat)
    requires count == 2
    ensures state == 16808 ==> Draws(state, count, 16) == {7, 9}
    ensures state == 33614 ==> Draws(state, count, 16) == {1, 2}
  {
    if state == 16808 {
      StepIs(state, 0, 282492056);
      StepIs(282492056, 2210, 1905125322);
      TwoDraws(state, 282492056, 1905125322, count, 16);
    } else if state == 33614 {
      StepIs(state, 0, 564950498);
      StepIs(564950498, 4421, 1097816499);
      TwoDraws(state, 564950498, 1097816499, count, 16);
    }
  }

  lemma StepIs(x: int, q: int, r: int)
    requires 16807 * x == M * q + r && 0 <= r < M
    ensures Step(x) == r
  {
    ModUnique(16807 * x, q, r);
  }

  lemma XorOne(a: nat, b: nat)
    requires b == 2 * a
    ensures Xor(1, b) == b + 1
  {
    XorNone(a);
    assert b / 2 == a && (1 + b) % 2 == 1;
  }

  lemma SeedOfEven(attno: nat, hash: Uint32, n: nat)
    requires attno < 32 && hash == 1 && 16807 * (attno + 1) - 1 == 2 * n
    ensures ValueSeed(attno, hash) == 2 * n + 1
  {
    SeedIsXor(attno, hash);
    XorOne(n, 2 * n);
  }

  lemma SeedOfZero(attno: nat, hash: Uint32)
    requires attno < 32 && hash == 0
    ensures ValueSeed(attno, hash) == 16807 * (attno + 1) - 1
  {
    SeedIsXor(attno, hash);
    XorNone(16807 * (attno + 1) - 1);
  }

  /** Known answers: the first two bits of hash value 1 in the first column, and of hash value 0 in the second. */
  lemma SomeBits(attno: nat, hash: Uint32, count: nat)
    requires attno < 32 && hash == 1 - attno && count == 2
    ensures attno == 0 ==> ValueSeed(attno, hash) == 16807 && ValueBits(attno, hash, count, 16) == {7, 9}
    ensures attno == 1 ==> ValueSeed(attno, hash) == 33613 && ValueBits(attno, hash, count, 16) == {1, 2}
  {
    if attno == 0 {
      SeedOfEven(attno, hash, 8403);
    } else {
      SeedOfZero(attno, hash);
    }
    var seed := ValueSeed(attno, hash);
    SeedStateExact(seed);
    KnownDraws(seed + 1, count);
  }

  /** The generator can draw the bits of this value. */
  predicate Signable(attno: nat, hash: Uint32, bitSize: nat)
    requires attno < 32
  {
    bitSize == 0 || SeedState(ValueSeed(attno, hash)) != 0
  }

  // ----- bits of words -----

  function Mask(k: nat): bv16
    requires k < 16
  {
    if k == 0 then 0x1 else if k == 1 then 0x2 else if k == 2 then 0x4 else if k == 3 then 0x8
    else if k == 4 then 0x10 else if k == 5 then 0x20 else if k == 6 then 0x40 else if k == 7 then 0x80
    else if k == 8 then 0x100 else if k == 9 then 0x200 else if k == 10 then 0x400
    else if k == 11 then 0x800 else if k == 12 then 0x1000 else if k == 13 then 0x2000
    else if k == 14 then 0x4000 else 0x8000
  }

  predicate Meets(w: bv16, m: bv16) { w & m != 0 }

  predicate WordBit(w: bv16, k: nat)
    requires k < 16
  {
    Meets(w, Mask(k))
  }

  lemma {:induction false} OrMask(w: bv16, v: bv16, m: bv16)
    ensures Meets(w | v, m) <==> Meets(w, m) || Meets(v, m)
  {
    assert (w | v) & m == (w & m) | (v & m);
  }

  lemma {:induction false} OrBit(w: bv16, v: bv16, j: nat)
    requires j < 16
    ensures WordBit(w | v, j) <==> WordBit(w, j) || WordBit(v, j)
  {
    OrMask(w, v, Mask(j));
  }

  lemma MaskBit(k: nat, j: nat)
    requires k < 16 && j < 16
    ensures WordBit(Mask(k), j) <==> k == j
  {
  }

  /** Two words agree at the bits of `m`. */
  predicate Agree(x: bv16, q: bv16, m: bv16) { x & m == q & m }

  lemma {:induction false} AgreeBoth(x: bv16, q: bv16, m: bv16, n: bv16)
    requires Agree(x, q, m) && Agree(x, q, n)
    ensures Agree(x, q, m | n)
  {
    assert x & (m | n) == (x & m) | (x & n) && q & (m | n) == (q & m) | (q & n);
  }

  /** The bits before bit `k`. */
  function Before(k: nat): bv16
    requires k <= 16
  {
    if k == 0 then 0 else Before(k - 1) | Mask(k - 1)
  }

  lemma {:induction false} AgreeBefore(x: bv16, q: bv16, k: nat)
    requires k <= 16 && forall j :: 0 <= j < k ==> Agree(x, q, Mask(j))
    ensures Agree(x, q, Before(k))
  {
    if k > 0 {
      AgreeBefore(x, q, k - 1);
      AgreeBoth(x, q, Before(k - 1), Mask(k - 1));
    }
  }

  lemma {:induction false} AgreeAll(x: bv16, q: bv16)
    requires Agree(x, q, 0xffff)
    ensures x == q
  {
    assert x & 0xffff == x && q & 0xffff == q;
  }

  lemma {:induction false} BeforeAll()
    ensures Before(16) == 0xffff
  {
    assert Before(4) == 0xf;
    assert Before(8) == 0xff;
    assert Before(12) == 0xfff;
  }

  lemma {:induction false} MaskOne(w: bv16, q: bv16, m: bv16)
    requires m & (m - 1) == 0 && (Meets(q, m) ==> Meets(w, m))
    ensures Agree(w & q, q, m)
  {
  }

  lemma {:induction false} MaskIsOne(j: nat)
    requires j < 16
    ensures Mask(j) & (Mask(j) - 1) == 0
  {
  }

  lemma {:induction false} SubsetMask(w: bv16, q: bv16, m: bv16)
    requires w & q == q && Meets(q, m)
    ensures Meets(w, m)
  {
    assert q & m == (w & q) & m;
  }

  /** The word test of the scan: every bit of `q` is in `w`. */
  lemma {:induction false} WordSubset(w: bv16, q: bv16)
    ensures w & q == q <==> forall j :: 0 <= j < 16 && WordBit(q, j) ==> WordBit(w, j)
  {
    if w & q == q {
      forall j | 0 <= j < 16 && WordBit(q, j) ensures WordBit(w, j) {
        SubsetMask(w, q, Mask(j));
      }
    }
    if forall j :: 0 <= j < 16 && WordBit(q, j) ==> WordBit(w, j) {
      SupersetAgrees(w, q);
    }
  }

  lemma {:induction false} SupersetAgrees(w: bv16, q: bv16)
    requires forall j :: 0 <= j < 16 && WordBit(q, j) ==> WordBit(w, j)
    ensures w & q == q
  {
    forall j | 0 <= j < 16 ensures Agree(w & q, q, Mask(j)) {
      MaskIsOne(j);
      assert WordBit(q, j) ==> WordBit(w, j);
      MaskOne(w, q, Mask(j));
    }
    AgreeBefore(w & q, q, 16);
    BeforeAll();
    AgreeAll(w & q, q);
  }

  predicate Bit(sign: seq<bv16>, n: nat)
    requires n < 16 * |sign|
  {
    WordBit(sign[n / 16], n % 16)
  }

  /** The signature after bit `n` has been set. */
  function WithBit(sign: seq<bv16>, n: nat): seq<bv16>
    requires n < 16 * |sign|
  {
    sign[n / 16 := sign[n / 16] | Mask(n % 16)]
  }

  lemma WithBitBits(sign: seq<bv16>, n: nat, k: nat)
    requires n < 16 * |sign| && k < 16 * |sign|
    ensures Bit(WithBit(sign, n), k) <==> Bit(sign, k) || k == n
  {
    if k / 16 == n / 16 {
      OrBit(sign[k / 16], Mask(n % 16), k % 16);
      MaskBit(n % 16, k % 16);
    }
  }

  /** `sign` has the bits of `before` and those in `added`. */
  ghost predicate Adds(before: seq<bv16>, added: iset<int>, sign: seq<bv16>)
  {
    && |sign| == |before|
    && forall k :: 0 <= k < 16 * |sign| ==> (Bit(sign, k) <==> Bit(before, k) || k in added)
  }

  lemma AddsOne(before: seq<bv16>, added: iset<int>, sign: seq<bv16>, n: nat)
    requires Adds(before, added, sign) && n < 16 * |sign|
    ensures Adds(before, added + iset{n}, WithBit(sign, n))
  {
    forall k | 0 <= k < 16 * |sign|
      ensures Bit(WithBit(sign, n), k) <==> Bit(before, k) || k in added + iset{n}
    {
      WithBitBits(sign, n, k);
    }
  }

  ghost function ISet(s: set<int>): iset<int> { iset x | x in s }

  lemma TruncRemMinusOne(b: nat)
    requires 1 < b
    ensures TruncRem(-1, b) == -1
  {
  }

  method ColumnDraw(gen: Generator, attno: nat) returns (first: Int32)
    requires attno < 32
    modifies gen
    ensures gen.Valid() && first as int == 16807 * (attno + 1) - 1
  {
    gen.Srand(attno);
    ColumnState(attno);
    first := gen.Rand();
    SmallMod(16807 * (attno + 1));
  }

  method SeedValue(gen: Generator, attno: nat, hash: Uint32)
    requires attno < 32
    modifies gen
    ensures gen.Valid() && gen.next as int == SeedState(ValueSeed(attno, hash))
  {
    var first := ColumnDraw(gen, attno);
    SeedIsXor(attno, hash);
    gen.Srand(Xor(hash, first as int));
  }

  /** Draws one bit number, and sets that bit unless the number is negative. */
  method DrawBit(gen: Generator, sign: array<bv16>) returns (n: int)
    requires gen.Valid() && sign.Length > 0
    modifies gen, sign
    ensures gen.Valid() && gen.next as int == Step(old(gen.next) as int)
    ensures n < 0 <==> old(gen.next) == 0
    ensures n >= 0 ==>
              && n == (Step(old(gen.next) as int) - 1) % (16 * sign.Length)
              && sign[..] == WithBit(old(sign[..]), n)
    ensures n >= 0 ==> gen.next != 0
  {
    var r := gen.Rand();
    n := TruncRem(r as int, 16 * sign.Length);
    if r < 0 {
      TruncRemMinusOne(16 * sign.Length);
    }
    if n >= 0 {
      sign[n / 16] := sign[n / 16] | Mask(n % 16);
    }
  }

  /** What is drawn and what is left to draw. */
  ghost predicate Drawn(all: set<int>, added: set<int>, state: int, left: nat, bits: nat)
    requires bits > 0
  {
    all == added + Draws(state, left, bits)
  }

  method DrawBits(gen: Generator, sign: array<bv16>, count: nat) returns (ok: bool)
    requires gen.Valid() && sign.Length > 0
    modifies gen, sign
    ensures ok <==> count == 0 || old(gen.next) != 0
    ensures ok ==> Adds(old(sign[..]), ISet(Draws(old(gen.next) as int, count, 16 * sign.Length)), sign[..])
  {
    ghost var seed, bits: nat := gen.next as int, 16 * sign.Length;
    ghost var all, added: set<int> := Draws(seed, count, bits), {};
    var j := 0;
    while j < count
      invariant 0 <= j <= count && gen.Valid()
      invariant Drawn(all, added, gen.next as int, count - j, bits)
      invariant Adds(old(sign[..]), ISet(added), sign[..])
      invariant if j == 0 then gen.next as int == seed else gen.next != 0 && seed != 0
    {
      ghost var was, state := sign[..], gen.next as int;
      var n := DrawBit(gen, sign);
      if n < 0 {
        return false;
      }
      AddsOne(old(sign[..]), ISet(added), was, n);
      assert ISet(added + {n}) == ISet(added) + iset{n};
      added := added + {n};
      j := j + 1;
    }
    ok := true;
    assert added == all;
  }

  /** Adds the bits of one value. The result depends on the column and the hash value alone, not on
      what the generator was used for before. `ok` says that no bit number was negative. */
  method SignValue(gen: Generator, sign: array<bv16>, attno: nat, hash: Uint32, bitSize: nat)
    returns (ok: bool)
    requires attno < 32 && sign.Length > 0
    modifies gen, sign
    ensures ok <==> Signable(attno, hash, bitSize)
    ensures ok ==> Adds(old(sign[..]), ISet(ValueBits(attno, hash, bitSize, 16 * sign.Length)), sign[..])
  {
    SeedValue(gen, attno, hash);
    ok := DrawBits(gen, sign, bitSize);
  }
}
