/** Whole runs of the bloom index: a scan misses no row that was there throughout, and returns
    nothing that was never inserted. */
module BloomAnswers {
  import opened BloomTuple
  import opened BloomPages
  import opened BloomProtocol
  import opened BloomSafety

  /** The scan `d` has come to `d'`, and has noted as many removals of `e` as there were. */
  predicate Carried(s: State, d: Proc, s': State, d': Proc, e: Entry)
  {
    && d.Scanning? && d'.Scanning? && d'.q == d.q && d'.present == d.present
    && d'.gone[e] + s.removed[e] == d.gone[e] + s'.removed[e]
  }

  lemma DeleteCarries(s: State, r: nat, s': State, p: nat, e: Entry)
    requires DoDeletePage(s, r, s') && s.At(p).Scanning?
    ensures Carried(s, s.At(p), s', s'.At(p), e)
  {
  }

  lemma MoveCarries(s: State, r: nat, d: Proc, s': State, p: nat, e: Entry)
    requires s'.procs == s.procs[r := d] && s'.removed == s.removed && s.At(p).Scanning? && r != p
    ensures Carried(s, s.At(p), s', s'.At(p), e)
  {
  }

  /** Only its own end stops a scan. */
  lemma StepCarries(s: State, a: Action, s': State, p: nat, e: Entry)
    requires Next(s, a, s') && s.At(p).Scanning? && a != Stop(p)
    ensures Carried(s, s.At(p), s', s'.At(p), e)
  {
    if a.DeletePage? {
      DeleteCarries(s, a.p, s', p, e);
    } else if a.p != p {
      assert a.p in s'.procs;
      MoveCarries(s, a.p, s'.procs[a.p], s', p, e);
    }
  }

  ghost predicate ScanFrom(ss: seq<State>, acts: seq<Action>, i: nat, j: nat, p: nat, q: seq<bv16>)
  {
    && Run(ss, acts) && i < j < |ss| && acts[i] == BeginScan(p, q)
    && forall k :: i < k < j ==> acts[k] != Stop(p)
  }

  lemma {:induction false} ScanHistory(ss: seq<State>, acts: seq<Action>, i: nat, j: nat, p: nat,
                                       q: seq<bv16>, e: Entry)
    requires ScanFrom(ss, acts, i, j, p, q)
    ensures var d := ss[j].At(p);
      && d.Scanning? && d.q == q && d.present == Held(ss[i].blocks)
      && ss[i].removed[e] + d.gone[e] == ss[j].removed[e]
  {
    assert Next(ss[j - 1], acts[j - 1], ss[(j - 1) + 1]);
    if i + 1 < j {
      ScanHistory(ss, acts, i, j - 1, p, q, e);
      StepCarries(ss[j - 1], acts[j - 1], ss[j], p, e);
    }
  }

  /** A scan that has read all its pages has found every matching entry that was inserted more often
      before it began than it has been removed by the time it ends; and it has found nothing but
      matching entries that were inserted. */
  lemma ScanAnswer(ss: seq<State>, acts: seq<Action>, i: nat, j: nat, p: nat, q: seq<bv16>, e: Entry)
    requires ScanFrom(ss, acts, i, j, p, q)
    requires ss[j].At(p).Scanning? ==> ss[j].At(p).blk >= ss[j].At(p).npages
    ensures ss[j].At(p).Scanning?
    ensures Match(q, e) && ss[i].inserted[e] > ss[j].removed[e] ==> e in ss[j].At(p).found
    ensures e in ss[j].At(p).found ==> Match(q, e) && e in ss[j].inserted
  {
    ScanHistory(ss, acts, i, j, p, q, e);
    RunsAreSafe(ss, acts, i);
    RunsAreSafe(ss, acts, j);
    CountIsHeld(ss[i].blocks, e);
    assert Balanced(ss[i], e);
    var d := ss[j].At(p);
    assert ScanOk(ss[j].blocks, ss[j].inserted, d);
    assert ss[j].blocks[d.blk..d.npages] == [];
  }

  /** The row at `tid` has an index entry; a scan begun after its insertion returns the row if it has
      the hash value that every key asks for, unless the entry is removed meanwhile. */
  lemma {:induction false} RowIsFound(o: Options, row: Row, tid: nat, sign: seq<bv16>, keys: seq<ScanKey>, q: seq<bv16>,
                                      ss: seq<State>, acts: seq<Action>, i: nat, j: nat, p: nat)
    requires o.Valid() && |row| <= 32 && OnColumns(keys)
    requires Has(o, sign, RowBits(o, row, |row|)) && Has(o, q, KeyBits(o, keys, |keys|))
    requires RowMatches(row, keys)
    requires ScanFrom(ss, acts, i, j, p, q)
    requires ss[j].At(p).Scanning? ==> ss[j].At(p).blk >= ss[j].At(p).npages
    requires ss[i].inserted[Entry(tid, sign)] > ss[j].removed[Entry(tid, sign)]
    ensures ss[j].At(p).Scanning? && Entry(tid, sign) in ss[j].At(p).found
  {
    NoFalseNegative(o, row, keys, sign, q);
    ScanAnswer(ss, acts, i, j, p, q, Entry(tid, sign));
  }
}
