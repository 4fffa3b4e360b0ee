/** The bloom index under concurrency: every section that runs under a lock is one atomic step, and
    any number of processes insert, bulk-delete, clean up and scan in any order. */
module BloomProtocol {
  import opened Wrappers
  import opened BloomPages

  /** Block numbers that fit on the metapage. */
  const META_BLOCK_N: nat := 2004

  /** The metapage: the entries nStart .. nEnd of `notFull` name pages that may have room. */
  datatype MetaData = MetaData(nStart: nat, nEnd: nat, notFull: seq<nat>)

  /** Where a process is. `present` and `gone` are history: the index when the scan began, and
      what has been removed since. */
  datatype Proc =
    | Idle
    | Inserting(e: Entry)
    | Trying(e: Entry, blk: nat)
    | Upgrading(e: Entry, tried: Option<nat>)
    | Looping(e: Entry, nStart: nat)
    | Filling(e: Entry, blk: nat)
    | Deleting(dead: set<nat>, blk: nat, npages: nat, list: seq<nat>)
    | Listing(list: seq<nat>)
    | Cleaning(blk: nat, npages: nat)
    | Scanning(q: seq<bv16>, blk: nat, npages: nat, found: seq<Entry>,
               present: multiset<Entry>, gone: multiset<Entry>)
  {
    /** The process holds the metapage exclusively. */
    predicate HoldsMeta() { Looping? || Filling? }
  }

  /** `fsm` is the free-space map; `inserted` and `removed` are history. */
  datatype State = State(
    capacity: nat, blocks: seq<Block>, meta: MetaData, fsm: set<nat>, procs: map<nat, Proc>,
    inserted: multiset<Entry>, removed: multiset<Entry>)
  {
    function At(p: nat): Proc { if p in procs then procs[p] else Idle }

    predicate MetaFree() { forall p :: p in procs ==> !procs[p].HoldsMeta() }

    /** No process keeps block `b` locked between two of its steps. */
    predicate Unlocked(b: nat) { forall p :: p in procs && procs[p].Filling? ==> procs[p].blk != b }

    function Goto(p: nat, proc: Proc): State { this.(procs := procs[p := proc]) }
  }

  datatype Action =
    | BeginInsert(p: nat, e: Entry)
    | ReadMeta(p: nat)
    | TryPage(p: nat)
    | LockMeta(p: nat)
    | LoopPage(p: nat)
    | Recycle(p: nat, b: nat, rejected: set<nat>)
    | Extend(p: nat, rejected: set<nat>)
    | Fill(p: nat)
    | BeginDelete(p: nat, dead: set<nat>)
    | DeletePage(p: nat)
    | EndDelete(p: nat)
    | WriteList(p: nat)
    | BeginClean(p: nat)
    | CleanPage(p: nat)
    | BeginScan(p: nat, q: seq<bv16>)
    | ReadPage(p: nat)
    | Stop(p: nat)

  // ----- insertion -----

  predicate DoBeginInsert(s: State, p: nat, e: Entry, s': State)
  {
    s.At(p).Idle? && s' == s.Goto(p, Inserting(e))
  }

  predicate DoReadMeta(s: State, p: nat, s': State)
  {
    && s.At(p).Inserting? && s.MetaFree()
    && var e, m := s.At(p).e, s.meta;
       if m.nEnd > m.nStart then m.nStart < |m.notFull| && s' == s.Goto(p, Trying(e, m.notFull[m.nStart]))
       else s' == s.Goto(p, Upgrading(e, None))
  }

  /** `e` goes onto block `b`. */
  function Put(s: State, p: nat, b: nat, e: Entry): State
    requires b < |s.blocks|
  {
    s.Goto(p, Idle).(blocks := s.blocks[b := Added(s.blocks[b], e)], inserted := s.inserted + multiset{e})
  }

  predicate DoTryPage(s: State, p: nat, s': State)
  {
    && s.At(p).Trying? && s.At(p).blk < |s.blocks| && s.Unlocked(s.At(p).blk)
    && var e, b := s.At(p).e, s.At(p).blk;
       s' == if Fits(s.blocks[b], s.capacity) then Put(s, p, b, e) else s.Goto(p, Upgrading(e, Some(b)))
  }

  predicate DoLockMeta(s: State, p: nat, s': State)
  {
    && s.At(p).Upgrading? && s.MetaFree()
    && var e, m := s.At(p).e, s.meta;
       && (m.nStart < m.nEnd ==> m.nStart < |m.notFull|)
       && s' == s.Goto(p, Looping(e,
              if m.nStart < m.nEnd && s.At(p).tried == Some(m.notFull[m.nStart]) then m.nStart + 1
              else m.nStart))
  }

  predicate DoLoopPage(s: State, p: nat, s': State)
  {
    && s.At(p).Looping?
    && var e, n, m := s.At(p).e, s.At(p).nStart, s.meta;
       && n < m.nEnd && n < |m.notFull| && m.notFull[n] < |s.blocks| && s.Unlocked(m.notFull[n])
       && s' == if Fits(s.blocks[m.notFull[n]], s.capacity)
                then Put(s, p, m.notFull[n], e).(meta := m.(nStart := n))
                else s.Goto(p, Looping(e, n + 1))
  }

  /** A block from the free-space map that is still free is locked; others are rejected. */
  predicate DoRecycle(s: State, p: nat, b: nat, rejected: set<nat>, s': State)
  {
    && s.At(p).Looping? && s.At(p).nStart >= s.meta.nEnd
    && b in s.fsm && b < |s.blocks| && s.Unlocked(b) && s.blocks[b].Free()
    && s' == s.Goto(p, Filling(s.At(p).e, b)).(fsm := s.fsm - rejected - {b})
  }

  predicate DoExtend(s: State, p: nat, rejected: set<nat>, s': State)
  {
    && s.At(p).Looping? && s.At(p).nStart >= s.meta.nEnd
    && s' == s.Goto(p, Filling(s.At(p).e, |s.blocks|)).(
               fsm := s.fsm - rejected, blocks := s.blocks + [New])
  }

  predicate DoFill(s: State, p: nat, s': State)
  {
    && s.At(p).Filling? && s.At(p).blk < |s.blocks| && s.meta.notFull != []
    && var e, b := s.At(p).e, s.At(p).blk;
       s' == s.Goto(p, Idle).(
               blocks := s.blocks[b := Data(false, [e])],
               meta := MetaData(0, 1, s.meta.notFull[0 := b]),
               inserted := s.inserted + multiset{e})
  }

  // ----- vacuum -----

  predicate DoBeginDelete(s: State, p: nat, dead: set<nat>, s': State)
  {
    s.At(p).Idle? && s' == s.Goto(p, Deleting(dead, 1, |s.blocks|, []))
  }

  function Lost(b: Block, dead: set<nat>): multiset<Entry>
  {
    if b.Data? && !b.deleted then Dropped(b.entries, dead) else multiset{}
  }

  /** The block goes on the new list: it was in use, is not empty and has room. */
  predicate Listed(before: Block, after: Block, capacity: nat)
  {
    !before.Free() && 0 < |after.Entries()| < capacity
  }

  /** Every scan under way takes note of what was removed. */
  function Noted(procs: map<nat, Proc>, lost: multiset<Entry>): map<nat, Proc>
  {
    map p | p in procs ::
      if procs[p].Scanning? then procs[p].(gone := procs[p].gone + lost) else procs[p]
  }

  predicate DoDeletePage(s: State, p: nat, s': State)
  {
    && s.At(p).Deleting? && s.At(p).blk < s.At(p).npages && s.At(p).blk < |s.blocks|
    && s.Unlocked(s.At(p).blk)
    && var d := s.At(p);
       var before := s.blocks[d.blk];
       var after := Cleaned(before, d.dead);
       var list := if Listed(before, after, s.capacity) && |d.list| < META_BLOCK_N
                   then d.list + [d.blk] else d.list;
       s' == s.(blocks := s.blocks[d.blk := after],
                procs := Noted(s.procs[p := d.(blk := d.blk + 1, list := list)], Lost(before, d.dead)),
                removed := s.removed + Lost(before, d.dead))
  }

  predicate DoEndDelete(s: State, p: nat, s': State)
  {
    s.At(p).Deleting? && s.At(p).blk >= s.At(p).npages && s' == s.Goto(p, Listing(s.At(p).list))
  }

  predicate DoWriteList(s: State, p: nat, s': State)
  {
    && s.At(p).Listing? && s.MetaFree() && |s.At(p).list| <= |s.meta.notFull|
    && var list := s.At(p).list;
       s' == s.Goto(p, Idle).(meta := MetaData(0, |list|, list + s.meta.notFull[|list|..]))
  }

  predicate DoBeginClean(s: State, p: nat, s': State)
  {
    s.At(p).Idle? && s' == s.Goto(p, Cleaning(1, |s.blocks|))
  }

  predicate DoCleanPage(s: State, p: nat, s': State)
  {
    && s.At(p).Cleaning? && s.At(p).blk < s.At(p).npages && s.At(p).blk < |s.blocks|
    && s.Unlocked(s.At(p).blk)
    && var b := s.At(p).blk;
       s' == s.Goto(p, Cleaning(b + 1, s.At(p).npages)).(
               fsm := s.fsm + if s.blocks[b].Free() then {b} else {})
  }

  // ----- scan -----

  ghost predicate DoBeginScan(s: State, p: nat, q: seq<bv16>, s': State)
  {
    s.At(p).Idle? && s' == s.Goto(p, Scanning(q, 1, |s.blocks|, [], Held(s.blocks), multiset{}))
  }

  ghost predicate DoReadPage(s: State, p: nat, s': State)
  {
    && s.At(p).Scanning? && s.At(p).blk < s.At(p).npages && s.At(p).blk < |s.blocks|
    && s.Unlocked(s.At(p).blk)
    && var d := s.At(p);
       var hits := if s.blocks[d.blk].Free() then [] else Matching(d.q, s.blocks[d.blk].Entries());
       s' == s.Goto(p, d.(blk := d.blk + 1, found := d.found + hits))
  }

  /** A process ends or dies; what it had locked is released, what it had not written is lost. */
  predicate DoStop(s: State, p: nat, s': State) { s' == s.Goto(p, Idle) }

  ghost predicate Next(s: State, a: Action, s': State)
  {
    match a
    case BeginInsert(p, e) => DoBeginInsert(s, p, e, s')
    case ReadMeta(p) => DoReadMeta(s, p, s')
    case TryPage(p) => DoTryPage(s, p, s')
    case LockMeta(p) => DoLockMeta(s, p, s')
    case LoopPage(p) => DoLoopPage(s, p, s')
    case Recycle(p, b, rejected) => DoRecycle(s, p, b, rejected, s')
    case Extend(p, rejected) => DoExtend(s, p, rejected, s')
    case Fill(p) => DoFill(s, p, s')
    case BeginDelete(p, dead) => DoBeginDelete(s, p, dead, s')
    case DeletePage(p) => DoDeletePage(s, p, s')
    case EndDelete(p) => DoEndDelete(s, p, s')
    case WriteList(p) => DoWriteList(s, p, s')
    case BeginClean(p) => DoBeginClean(s, p, s')
    case CleanPage(p) => DoCleanPage(s, p, s')
    case BeginScan(p, q) => DoBeginScan(s, p, q, s')
    case ReadPage(p) => DoReadPage(s, p, s')
    case Stop(p) => DoStop(s, p, s')
  }

  /** An index fresh from its build, with no process at work. */
  predicate Init(s: State)
  {
    && s.capacity >= 1 && WellFormed(s.blocks, s.capacity)
    && s.meta.nStart == 0 && s.meta.nEnd == 0 && |s.meta.notFull| == META_BLOCK_N
    && s.fsm == {} && s.procs == map[]
    && s.inserted == Held(s.blocks) && s.removed == multiset{}
  }

  /** The states `ss` of a run with the steps `acts`. */
  ghost predicate Run(ss: seq<State>, acts: seq<Action>)
  {
    && |ss| == |acts| + 1 && Init(ss[0])
    && forall i {:trigger acts[i]} :: 0 <= i < |acts| ==> Next(ss[i], acts[i], ss[i + 1])
  }
}
