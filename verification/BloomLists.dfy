/** The list of pages with room that a bulk delete leaves on the metapage. */
module BloomLists {
  import opened Wrappers
  import opened BloomPages
  import opened BloomProtocol
  import opened BloomSafety
  import opened BloomHistory

  /** The page is in use and another entry fits on it. */
  predicate HasRoom(b: Block, capacity: nat) { 0 < |b.Entries()| < capacity }

  predicate Ascending(list: seq<nat>) { forall i, j :: 0 <= i < j < |list| ==> list[i] < list[j] }

  /** Page `b` is on the list, or it comes after the last page of a full list. */
  predicate ListedOr(list: seq<nat>, b: nat)
  {
    b in list || (|list| == META_BLOCK_N && list[META_BLOCK_N - 1] < b)
  }

  /** `list` names the data pages with room before block `n`, all of them or the first that fit on the metapage,
      in ascending order. */
  ghost predicate RoomList(blocks: seq<Block>, list: seq<nat>, n: nat, capacity: nat)
  {
    && n <= |blocks| && |list| <= META_BLOCK_N && Ascending(list)
    && (forall i :: 0 <= i < |list| ==> 1 <= list[i] < n && HasRoom(blocks[list[i]], capacity))
    && (forall b: nat :: 1 <= b < n && HasRoom(blocks[b], capacity) ==> ListedOr(list, b))
  }

  function Noting(list: seq<nat>, b: nat, noted: bool): seq<nat>
  {
    if noted && |list| < META_BLOCK_N then list + [b] else list
  }

  lemma RoomListStep(blocks: seq<Block>, list: seq<nat>, b: nat, v: Block, capacity: nat)
    requires RoomList(blocks, list, b, capacity) && 1 <= b < |blocks|
    ensures RoomList(blocks[b := v], Noting(list, b, HasRoom(v, capacity)), b + 1, capacity)
  {
    var after, list' := blocks[b := v], Noting(list, b, HasRoom(v, capacity));
    forall c: nat | 1 <= c < b + 1 && HasRoom(after[c], capacity) ensures ListedOr(list', c) {
      if c < b {
        assert ListedOr(list, c);
      } else if |list| < META_BLOCK_N {
        assert list'[|list|] == b;
      }
    }
  }

  /** A block that was free stays without room. */
  lemma ListedIsRoom(before: Block, dead: set<nat>, capacity: nat)
    requires BlockOk(before, capacity)
    ensures Listed(before, Cleaned(before, dead), capacity) <==> HasRoom(Cleaned(before, dead), capacity)
  {
  }

  // ----- in a run -----

  /** At step `k`, `p` goes on with a bulk delete, or another process takes a step that changes no page. */
  ghost predicate Undisturbed(ss: seq<State>, acts: seq<Action>, k: int, p: nat)
  {
    && |ss| == |acts| + 1 && 0 <= k < |acts|
    && (acts[k].p == p ==> acts[k].DeletePage? || acts[k].EndDelete?)
    && (acts[k] != DeletePage(p) ==> ss[k + 1].blocks == ss[k].blocks)
  }

  /** Process `p` bulk-deletes from step `i` on and writes its list at step `j`, and meanwhile no other process
      changes a page. */
  ghost predicate DeletesAlone(ss: seq<State>, acts: seq<Action>, i: nat, j: nat, p: nat, dead: set<nat>)
  {
    && Run(ss, acts) && i < j < |acts| && acts[i] == BeginDelete(p, dead) && acts[j] == WriteList(p)
    && forall k {:trigger Undisturbed(ss, acts, k, p)} :: i < k < j ==> Undisturbed(ss, acts, k, p)
  }

  /** How far the list has come. */
  ghost predicate ListSoFar(s: State, p: nat)
  {
    var d := s.At(p);
    || (d.Deleting? && 1 <= d.blk <= d.npages == |s.blocks| && RoomList(s.blocks, d.list, d.blk, s.capacity))
    || (d.Listing? && RoomList(s.blocks, d.list, |s.blocks|, s.capacity))
  }

  lemma ListBegins(s: State, p: nat, dead: set<nat>, s': State)
    requires Inv(s) && DoBeginDelete(s, p, dead, s')
    ensures ListSoFar(s', p)
  {
  }

  lemma PageDeleted(s: State, p: nat, s': State)
    requires DoDeletePage(s, p, s')
    ensures var d := s.At(p); var v := Cleaned(s.blocks[d.blk], d.dead);
      && s'.blocks == s.blocks[d.blk := v] && s'.capacity == s.capacity
      && s'.At(p) == d.(blk := d.blk + 1, list := Noting(d.list, d.blk, Listed(s.blocks[d.blk], v, s.capacity)))
  {
  }

  lemma ListPage(s: State, p: nat, s': State)
    requires WellFormed(s.blocks, s.capacity) && ListSoFar(s, p) && DoDeletePage(s, p, s')
    ensures ListSoFar(s', p)
  {
    var d := s.At(p);
    PageDeleted(s, p, s');
    ListedIsRoom(s.blocks[d.blk], d.dead, s.capacity);
    RoomListStep(s.blocks, d.list, d.blk, Cleaned(s.blocks[d.blk], d.dead), s.capacity);
  }

  lemma ListStep(s: State, a: Action, s': State, p: nat)
    requires Inv(s) && Next(s, a, s') && ListSoFar(s, p)
    requires a.p == p ==> a.DeletePage? || a.EndDelete?
    requires a != DeletePage(p) ==> s'.blocks == s.blocks
    ensures ListSoFar(s', p)
  {
    if a == DeletePage(p) {
      ListPage(s, p, s');
    } else if a.p != p {
      OtherStep(s, a, s', p);
      SameCapacity(s, a, s');
    }
  }

  lemma SameCapacity(s: State, a: Action, s': State)
    requires Next(s, a, s')
    ensures s'.capacity == s.capacity
  {
  }

  lemma {:induction false} ListGrows(ss: seq<State>, acts: seq<Action>, i: nat, j: nat, p: nat, dead: set<nat>, k: nat)
    requires DeletesAlone(ss, acts, i, j, p, dead) && i < k <= j
    ensures ListSoFar(ss[k], p)
  {
    var m := k - 1;
    RunsAreSafe(ss, acts, m);
    assert Next(ss[m], acts[m], ss[m + 1]);
    if m == i {
      ListBegins(ss[i], p, dead, ss[k]);
    } else {
      ListGrows(ss, acts, i, j, p, dead, m);
      assert Undisturbed(ss, acts, m, p);
      ListStep(ss[m], acts[m], ss[k], p);
    }
  }

  /** If no other process changes a page meanwhile, a bulk delete leaves the metapage with all pages that have
      room, or with the first of them that fit. */
  lemma ListIsComplete(ss: seq<State>, acts: seq<Action>, i: nat, j: nat, p: nat, dead: set<nat>)
    requires DeletesAlone(ss, acts, i, j, p, dead)
    ensures var s := ss[j + 1];
      && s.meta.nStart == 0 && s.meta.nEnd <= |s.meta.notFull|
      && RoomList(s.blocks, s.meta.notFull[..s.meta.nEnd], |s.blocks|, s.capacity)
  {
    ListGrows(ss, acts, i, j, p, dead, j);
    assert Next(ss[j], acts[j], ss[j + 1]);
    var list := ss[j].At(p).list;
    assert (list + ss[j].meta.notFull[|list|..])[..|list|] == list;
  }

  // ----- in every state -----

  /** The list of a process ascends, and ends before the block the process is at. */
  predicate ListAscends(d: Proc)
  {
    match d
    case Deleting(_, b, _, list) => Ascending(list) && forall i :: 0 <= i < |list| ==> list[i] < b
    case Listing(list) => Ascending(list)
    case _ => true
  }

  ghost predicate ListsAscend(s: State)
  {
    && s.meta.nEnd <= |s.meta.notFull| && Ascending(s.meta.notFull[..s.meta.nEnd])
    && forall p {:trigger s.procs[p]} :: p in s.procs ==> ListAscends(s.procs[p])
  }

  lemma FillAscends(s: State, p: nat, s': State)
    requires ListsAscend(s) && DoFill(s, p, s')
    ensures ListsAscend(s')
  {
  }

  lemma WriteAscends(s: State, p: nat, s': State)
    requires ListsAscend(s) && DoWriteList(s, p, s')
    ensures ListsAscend(s')
  {
    var list := s.At(p).list;
    assert (list + s.meta.notFull[|list|..])[..|list|] == list;
  }

  lemma DeleteAscends(s: State, p: nat, s': State)
    requires ListsAscend(s) && DoDeletePage(s, p, s')
    ensures ListsAscend(s')
  {
  }

  /** No other step changes a list. */
  lemma OtherSteps(s: State, a: Action, s': State)
    requires Next(s, a, s') && !a.Fill? && !a.WriteList? && !a.DeletePage? && ListAscends(s.At(a.p))
    ensures s'.meta.nEnd == s.meta.nEnd && s'.meta.notFull == s.meta.notFull
    ensures a.p in s'.procs && s'.procs == s.procs[a.p := s'.procs[a.p]] && ListAscends(s'.procs[a.p])
  {
  }

  lemma KeepAscending(s: State, p: nat, s': State)
    requires ListsAscend(s) && s'.meta.nEnd == s.meta.nEnd && s'.meta.notFull == s.meta.notFull
    requires p in s'.procs && s'.procs == s.procs[p := s'.procs[p]] && ListAscends(s'.procs[p])
    ensures ListsAscend(s')
  {
  }

  lemma StepAscends(s: State, a: Action, s': State)
    requires ListsAscend(s) && Next(s, a, s')
    ensures ListsAscend(s')
  {
    if a.Fill? {
      FillAscends(s, a.p, s');
    } else if a.WriteList? {
      WriteAscends(s, a.p, s');
    } else if a.DeletePage? {
      DeleteAscends(s, a.p, s');
    } else {
      OtherSteps(s, a, s');
      KeepAscending(s, a.p, s');
    }
  }

  /** In every state of every run, whatever the processes do, the metapage lists pages in ascending order. */
  lemma ListsAlwaysAscend(ss: seq<State>, acts: seq<Action>, i: nat)
    requires Run(ss, acts) && i < |ss|
    ensures ss[i].meta.nEnd <= |ss[i].meta.notFull| && Ascending(ss[i].meta.notFull[..ss[i].meta.nEnd])
  {
    var next, inv := (s, a, s') => Next(s, a, s'), s => ListsAscend(s);
    forall s, a, s' | inv(s) && next(s, a, s') ensures inv(s') {
      StepAscends(s, a, s');
    }
    ChainInv(ss, acts, next, inv, i);
  }

  // ----- new pages -----

  /** While one process holds the metapage, no other changes it. */
  lemma MetaHeld(s: State, a: Action, s': State, p: nat)
    requires Inv(s) && Next(s, a, s') && a.p != p && s.At(p).HoldsMeta()
    ensures s'.meta == s.meta
  {
    assert p in s.procs;
    assert !s.At(a.p).HoldsMeta();
  }

  /** At step `j` process `p` finds no room on the page at place `n` of the list. */
  ghost predicate TriedAt(ss: seq<State>, acts: seq<Action>, j: int, p: nat, n: nat)
  {
    && 0 <= j < |acts| && j < |ss| && acts[j] == LoopPage(p)
    && var s := ss[j];
       && s.At(p).Looping? && s.At(p).nStart == n < |s.meta.notFull| && s.meta.notFull[n] < |s.blocks|
       && !Fits(s.blocks[s.meta.notFull[n]], s.capacity)
  }

  /** It has done so since step `i`, with the list that is still on the metapage at step `k`. */
  ghost predicate Tried(ss: seq<State>, acts: seq<Action>, i: nat, k: nat, p: nat, n: nat)
    requires k < |ss|
  {
    exists j :: i < j < k && TriedAt(ss, acts, j, p, n) && ss[j].meta == ss[k].meta
  }

  /** Process `p` locks the metapage at step `i` and goes through the list until step `k`. */
  ghost predicate LoopsFrom(ss: seq<State>, acts: seq<Action>, i: nat, k: nat, p: nat)
  {
    && Run(ss, acts) && i < k < |ss| && acts[i] == LockMeta(p)
    && forall j :: i < j <= k ==> ss[j].At(p).Looping?
  }

  lemma LoopStep(s: State, a: Action, s': State, p: nat)
    requires Inv(s) && Next(s, a, s') && s.At(p).Looping? && s'.At(p).Looping?
    ensures s'.meta == s.meta
    ensures if a.p == p
            then a == LoopPage(p) && s'.At(p).nStart == s.At(p).nStart + 1
            else s'.At(p) == s.At(p)
  {
    if a.p != p {
      OtherStep(s, a, s', p);
      MetaHeld(s, a, s', p);
    }
  }

  lemma LoopMisses(ss: seq<State>, acts: seq<Action>, j: nat, p: nat)
    requires j < |acts| && |ss| == |acts| + 1 && Next(ss[j], acts[j], ss[j + 1]) && acts[j] == LoopPage(p)
    requires ss[j + 1].At(p).Looping?
    ensures TriedAt(ss, acts, j, p, ss[j].At(p).nStart)
  {
  }

  lemma {:induction false} LoopTried(ss: seq<State>, acts: seq<Action>, i: nat, k: nat, p: nat, n: nat)
    requires LoopsFrom(ss, acts, i, k, p) && ss[i + 1].At(p).nStart <= n < ss[k].At(p).nStart
    ensures Tried(ss, acts, i, k, p, n)
  {
    var m := k - 1;
    RunsAreSafe(ss, acts, m);
    assert Next(ss[m], acts[m], ss[m + 1]);
    if m > i {
      LoopStep(ss[m], acts[m], ss[k], p);
      if acts[m].p == p && n == ss[m].At(p).nStart {
        LoopMisses(ss, acts, m, p);
      } else {
        LoopTried(ss, acts, i, m, p, n);
        var j :| i < j < m && TriedAt(ss, acts, j, p, n) && ss[j].meta == ss[m].meta;
        assert ss[j].meta == ss[k].meta;
      }
    }
  }

  lemma {:induction false} LoopKeepsMeta(ss: seq<State>, acts: seq<Action>, i: nat, k: nat, p: nat)
    requires LoopsFrom(ss, acts, i, k, p)
    ensures ss[k].meta == ss[i].meta
  {
    var m := k - 1;
    RunsAreSafe(ss, acts, m);
    assert Next(ss[m], acts[m], ss[m + 1]);
    if m > i {
      LoopKeepsMeta(ss, acts, i, m, p);
      LoopStep(ss[m], acts[m], ss[k], p);
    }
  }

  /** In every run an insertion takes a new page only after it has found no room on any listed page; of those
      before it began with the exclusive lock, at most the first is left out, which it has tried already. */
  lemma NewPageWhenFull(ss: seq<State>, acts: seq<Action>, i: nat, k: nat, p: nat)
    requires LoopsFrom(ss, acts, i, k, p) && k < |acts| && acts[k].p == p && (acts[k].Recycle? || acts[k].Extend?)
    ensures var m, start := ss[k].meta, ss[i + 1].At(p).nStart;
      && (start == m.nStart || (start == m.nStart + 1 <= |m.notFull| && ss[i].At(p).Upgrading? &&
                                ss[i].At(p).tried == Some(m.notFull[m.nStart])))
      && forall n: nat :: start <= n < m.nEnd ==> Tried(ss, acts, i, k, p, n)
  {
    LoopKeepsMeta(ss, acts, i, k, p);
    assert Next(ss[i], acts[i], ss[i + 1]);
    assert Next(ss[k], acts[k], ss[k + 1]);
    forall n: nat | ss[i + 1].At(p).nStart <= n < ss[k].meta.nEnd ensures Tried(ss, acts, i, k, p, n) {
      LoopTried(ss, acts, i, k, p, n);
    }
  }

  // ----- cleanup -----

  /** The free data pages before block `n`. */
  function FreeBefore(blocks: seq<Block>, n: nat): set<nat>
    requires n <= |blocks|
  {
    set b: nat | 1 <= b < n && blocks[b].Free()
  }

  lemma FreeStep(blocks: seq<Block>, n: nat)
    requires 1 <= n < |blocks|
    ensures FreeBefore(blocks, n + 1) == FreeBefore(blocks, n) + if blocks[n].Free() then {n} else {}
    ensures |FreeBefore(blocks, n + 1)| == |FreeBefore(blocks, n)| + if blocks[n].Free() then 1 else 0
  {
    assert FreeBefore(blocks, n + 1) == FreeBefore(blocks, n) + if blocks[n].Free() then {n} else {};
  }

  /** At step `k`, `p` goes on with its cleanup, or another process changes neither pages nor the map. */
  ghost predicate UndisturbedCleanup(ss: seq<State>, acts: seq<Action>, k: int, p: nat)
  {
    && |ss| == |acts| + 1 && 0 <= k < |acts|
    && (acts[k].p == p ==> acts[k].CleanPage?)
    && (acts[k].p != p ==> ss[k + 1].blocks == ss[k].blocks && ss[k + 1].fsm == ss[k].fsm)
  }

  ghost predicate CleansAlone(ss: seq<State>, acts: seq<Action>, i: nat, j: nat, p: nat)
  {
    && Run(ss, acts) && i < j < |ss| && acts[i] == BeginClean(p)
    && forall k {:trigger UndisturbedCleanup(ss, acts, k, p)} :: i < k < j ==> UndisturbedCleanup(ss, acts, k, p)
  }

  ghost predicate CleanSoFar(s: State, p: nat, before: set<nat>, blocks: seq<Block>)
  {
    && s.At(p).Cleaning? && s.blocks == blocks && s.At(p).npages == |blocks| && 1 <= s.At(p).blk <= |blocks|
    && s.fsm == before + FreeBefore(blocks, s.At(p).blk)
  }

  lemma CleanStep(s: State, a: Action, s': State, p: nat, before: set<nat>, blocks: seq<Block>)
    requires Next(s, a, s') && CleanSoFar(s, p, before, blocks)
    requires a.p == p ==> a.CleanPage?
    requires a.p != p ==> s'.blocks == s.blocks && s'.fsm == s.fsm
    ensures CleanSoFar(s', p, before, blocks)
  {
    if a.p == p {
      FreeStep(blocks, s.At(p).blk);
    } else {
      OtherStep(s, a, s', p);
    }
  }

  /** A cleanup that is not disturbed has added to the free-space map exactly the free pages it has passed. */
  lemma {:induction false} CleanupRecords(ss: seq<State>, acts: seq<Action>, i: nat, j: nat, p: nat)
    requires CleansAlone(ss, acts, i, j, p)
    ensures CleanSoFar(ss[j], p, ss[i].fsm, ss[i].blocks)
  {
    var m := j - 1;
    RunsAreSafe(ss, acts, i);
    assert Next(ss[m], acts[m], ss[m + 1]);
    if m > i {
      CleanupRecords(ss, acts, i, m, p);
      assert UndisturbedCleanup(ss, acts, m, p);
      CleanStep(ss[m], acts[m], ss[j], p, ss[i].fsm, ss[i].blocks);
    }
  }
}
