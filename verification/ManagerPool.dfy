/** The manager's own loops, run without interruption: least-recently-used eviction under a
    budget, the idle reaper, and shutdown. */
module ManagerPool {
  import opened Options
  import opened ManagerSteps

  /** The manager's tables with no lock held. */
  datatype Pool = Pool(insts: map<Path, Inst>, open: set<Path>, opens: nat, closes: nat)

  ghost predicate PoolOk(m: Pool) {
    && m.opens - m.closes == |m.open|
    && (forall p :: p in m.open <==> p in m.insts && m.insts[p].db.Some?)
    && (forall p | p in m.insts :: m.insts[p].mu.None? && m.insts[p].refs >= 0)
    && (forall p | p in m.insts && m.insts[p].refs > 0 :: m.insts[p].db.Some?)
  }

  /** closeIfIdle as one transition. */
  function CloseOne(m: Pool, p: Path, ttl: int, now: int): Pool {
    if p in m.insts && IsIdle(m.insts[p], ttl, now) then
      Pool(m.insts[p := m.insts[p].(db := None)], m.open - {p}, m.opens, m.closes + 1)
    else m
  }

  function PoolOf(s: State): Pool {
    Pool(s.insts, s.open, s.opens, s.closes)
  }

  ghost predicate Moves(s: State, step: Step, s': State) {
    Enabled(s, step) && s' == Next(s, step)
  }

  /** The steps of one closeIfIdle taken in a row, the first of which is `first`, lead from `s` to `s'`. */
  ghost predicate ClosesAlone(s: State, first: Step, now: int, s': State) {
    exists s2 :: Decides(s, first, now, s2) && Finishes(s2, first.t, s')
  }

  ghost predicate Decides(s: State, first: Step, now: int, s2: State) {
    exists s1 :: Moves(s, first, s1) && Moves(s1, Decide(first.t, now), s2)
  }

  ghost predicate Finishes(s: State, t: Tid, s': State) {
    Moves(s, Unlock(t), s') || ClosesIdle(s, t, s')
  }

  ghost predicate ClosesIdle(s: State, t: Tid, s': State) {
    exists s3, s4, s5, s6 :: Moves(s, CloseHandle(t), s3) && Moves(s3, ClearHandle(t), s4) &&
      Moves(s4, Unmap(t), s5) && Moves(s5, CountClose(t), s6) && Moves(s6, Unlock(t), s')
  }

  /** closeIfIdle as one transition is what its steps amount to when nothing comes between. */
  lemma UninterruptedClose(s: State, t: Tid, p: Path, ttl: int, now: int) returns (s': State)
    requires t in s.threads && s.threads[t].Idle? && Free(s, p)
    ensures ClosesAlone(s, CloseIfIdle(t, p, ttl), now, s')
    ensures PoolOf(s') == CloseOne(PoolOf(s), p, ttl, now)
    ensures s'.threads == s.threads && s'.leases == s.leases
  {
    s' := CloseAlone(s, CloseIfIdle(t, p, ttl), p, ttl, None, now);
  }

  /** An eviction is one without a TTL, after which its Acquire goes on as before. */
  lemma UninterruptedEviction(s: State, t: Tid, p: Path, now: int) returns (s': State)
    requires t in s.threads && s.threads[t].Enforcing? && Free(s, p)
    ensures ClosesAlone(s, Evict(t, p), now, s')
    ensures PoolOf(s') == CloseOne(PoolOf(s), p, 0, now)
    ensures s'.threads == s.threads && s'.leases == s.leases
  {
    s' := CloseAlone(s, Evict(t, p), p, 0, Some(s.threads[t].p), now);
  }

  lemma CloseAlone(s: State, first: Step, p: Path, ttl: int, back: Option<Path>, now: int) returns (s': State)
    requires Starts(s, first, p, ttl, back)
    ensures ClosesAlone(s, first, now, s')
    ensures PoolOf(s') == CloseOne(PoolOf(s), p, ttl, now)
    ensures s'.threads == s.threads && s'.leases == s.leases
  {
    var s2 := DecideAlone(s, first, p, ttl, back, now);
    s' := FinishAlone(s2, first.t);
    assert Decides(s, first, now, s2) && Finishes(s2, first.t, s');
    Rejoined(s, first.t, p, back, s2, s');
  }

  /** `first` takes the lock of `p` for a closing with that TTL. */
  predicate Starts(s: State, first: Step, p: Path, ttl: int, back: Option<Path>) {
    && first.t in s.threads && s.threads[first.t] == Resume(back) && Free(s, p)
    && first == (if back.Some? then Evict(first.t, p) else CloseIfIdle(first.t, p, ttl))
    && (back.Some? ==> ttl == 0)
  }

  /** Unlocked again, the instance is back as it was, or without its handle. */
  lemma Rejoined(s: State, t: Tid, p: Path, back: Option<Path>, s2: State, s': State)
    requires t in s.threads && s.threads[t] == Resume(back) && Free(s, p)
    requires t in s2.threads && (s2.threads[t] == Closing(p, back) || s2.threads[t] == Leaving(p, back))
    requires s2 == s.(insts := s.insts[p := s.insts[p].(mu := Some(t))], threads := s.threads[t := s2.threads[t]])
    requires s'.threads == s2.threads[t := Resume(back)]
    requires s'.insts == s2.insts[p := if s2.threads[t].Closing? then s.insts[p].(db := None) else s.insts[p]]
    ensures s'.threads == s.threads
    ensures s'.insts == if s2.threads[t].Closing? then s.insts[p := s.insts[p].(db := None)] else s.insts
  {
    assert s.insts[p := s.insts[p]] == s.insts;
  }

  lemma FinishAlone(s: State, t: Tid) returns (s': State)
    requires t in s.threads && (s.threads[t].Closing? || s.threads[t].Leaving?) && s.threads[t].p in s.insts
    requires s.threads[t].Closing? ==> s.insts[s.threads[t].p].db.Some?
    ensures Finishes(s, t, s')
    ensures var p := s.threads[t].p; var i := s.insts[p].(mu := None);
      && s'.insts == s.insts[p := if s.threads[t].Closing? then i.(db := None) else i]
      && s'.open == (if s.threads[t].Closing? then s.open - {p} else s.open)
      && s'.opens == s.opens && s'.closes == s.closes + (if s.threads[t].Closing? then 1 else 0)
      && s'.threads == s.threads[t := Resume(s.threads[t].back)] && s'.leases == s.leases
  {
    if s.threads[t].Closing? {
      s' := CloseIdleAlone(s, t);
    } else {
      s' := Next(s, Unlock(t));
      assert Moves(s, Unlock(t), s');
    }
  }

  function Decided(i: Inst, p: Path, ttl: int, back: Option<Path>, now: int): Pc {
    if IsIdle(i, ttl, now) then Closing(p, back) else Leaving(p, back)
  }

  lemma DecideAlone(s: State, first: Step, p: Path, ttl: int, back: Option<Path>, now: int) returns (s2: State)
    requires Starts(s, first, p, ttl, back)
    ensures s2 == s.(insts := s.insts[p := s.insts[p].(mu := Some(first.t))],
                     threads := s.threads[first.t := Decided(s.insts[p], p, ttl, back, now)])
    ensures Decides(s, first, now, s2)
  {
    var t, s1 := first.t, Next(s, first);
    s2 := Next(s1, Decide(t, now));
    assert Moves(s, first, s1) && Moves(s1, Decide(t, now), s2);
    assert s.threads[t := s1.threads[t]][t := s2.threads[t]] == s.threads[t := s2.threads[t]];
  }

  lemma CloseIdleAlone(s: State, t: Tid) returns (s': State)
    requires t in s.threads && s.threads[t].Closing? && s.threads[t].p in s.insts
    requires s.insts[s.threads[t].p].db.Some?
    ensures ClosesIdle(s, t, s')
    ensures var p := s.threads[t].p;
      && s'.insts == s.insts[p := s.insts[p].(db := None, mu := None)]
      && s'.open == s.open - {p} && s'.opens == s.opens && s'.closes == s.closes + 1
      && s'.threads == s.threads[t := Resume(s.threads[t].back)] && s'.leases == s.leases
  {
    var p, back := s.threads[t].p, s.threads[t].back;
    var s3, s4 := ClearAlone(s, t);
    var s5, s6 := UncountAlone(s4, t);
    s' := Next(s6, Unlock(t));
    assert Moves(s6, Unlock(t), s');
    assert s'.insts == s.insts[p := s.insts[p].(db := None, mu := None)];
    assert s'.threads == s.threads[t := Resume(back)];
  }

  lemma UncountAlone(s4: State, t: Tid) returns (s5: State, s6: State)
    requires t in s4.threads && s4.threads[t].Cleared?
    ensures Moves(s4, Unmap(t), s5) && Moves(s5, CountClose(t), s6)
    ensures var p := s4.threads[t].p;
      s6 == s4.(open := s4.open - {p}, closes := s4.closes + 1,
                threads := s4.threads[t := Leaving(p, s4.threads[t].back)])
  {
    s5 := Next(s4, Unmap(t));
    s6 := Next(s5, CountClose(t));
    assert s6.threads == s4.threads[t := Leaving(s4.threads[t].p, s4.threads[t].back)];
  }

  lemma ClearAlone(s: State, t: Tid) returns (s3: State, s4: State)
    requires t in s.threads && s.threads[t].Closing? && s.threads[t].p in s.insts
    requires s.insts[s.threads[t].p].db.Some?
    ensures Moves(s, CloseHandle(t), s3) && Moves(s3, ClearHandle(t), s4)
    ensures var p := s.threads[t].p;
      s4 == s.(insts := s.insts[p := s.insts[p].(db := None)], shut := s.shut + {s.insts[p].db.value},
               threads := s.threads[t := Cleared(p, s.threads[t].back)])
  {
    s3 := Next(s, CloseHandle(t));
    s4 := Next(s3, ClearHandle(t));
    assert s4.threads == s.threads[t := Cleared(s.threads[t].p, s.threads[t].back)];
  }

  // ---- the other operations, uninterrupted ----

  /** The steps of one release, taken in a row. */
  lemma UninterruptedRelease(s: State, t: Tid, l: LeaseId, now: int) returns (s1: State, s2: State)
    requires t in s.threads && s.threads[t].Idle? && l in s.leases && !s.leases[l].releasing
    requires s.leases[l].path in s.insts
    ensures Moves(s, BeginRelease(t, l, now), s1) && Moves(s1, DropRef(t), s2)
    ensures var p := s.leases[l].path;
      s2 == s.(insts := s.insts[p := s.insts[p].(lastUsed := now, refs := s.insts[p].refs - 1)],
               leases := s.leases - {l})
  {
    s1 := Next(s, BeginRelease(t, l, now));
    s2 := Next(s1, DropRef(t));
    assert s2.leases == s.leases - {l};
    assert s2.threads == s.threads;
  }

  /** The steps of one Acquire of an open instance, taken in a row. */
  lemma UninterruptedAcquire(s: State, t: Tid, p: Path, l: LeaseId, now: int) returns (s2: State, s4: State)
    requires t in s.threads && s.threads[t].Idle? && Free(s, p) && s.insts[p].db.Some? && l !in s.leases
    ensures Moves(s, Acquire(t, p), Lock(s, t, p, Checking(p))) && Moves(Lock(s, t, p, Checking(p)), Check(t), s2)
    ensures Pins(s2, t, l, now, s4)
    ensures s4 == s.(insts := s.insts[p := Inst(s.insts[p].db, s.insts[p].refs + 1, now, None)],
                     leases := s.leases[l := Lease(p, s.insts[p].db.value, false)])
  {
    s2 := Next(Lock(s, t, p, Checking(p)), Check(t));
    s4 := PinAlone(s2, t, p, l, now);
    assert s4.threads == s.threads[t := Idle] == s.threads;
    assert s4.insts == s.insts[p := Inst(s.insts[p].db, s.insts[p].refs + 1, now, None)];
  }

  /** The steps of one Acquire that opens, taken in a row, when nothing has to be evicted. */
  lemma UninterruptedOpen(s: State, t: Tid, p: Path, h: Handle, l: LeaseId, now: int)
      returns (s2: State, s4: State, s6: State, s8: State)
    requires t in s.threads && s.threads[t].Idle? && Free(s, p) && s.insts[p].db.None? && l !in s.leases && h !in s.used
    ensures Checks(s, t, p, s2) && Reopens(s2, t, h, s4) && Maps(s4, t, s6) && Pins(s6, t, l, now, s8)
    ensures s8 == s.(insts := s.insts[p := Inst(Some(h), s.insts[p].refs + 1, now, None)], open := s.open + {p},
                     opens := s.opens + 1, used := s.used + {h}, leases := s.leases[l := Lease(p, h, false)])
  {
    s2 := CheckAlone(s, t, p);
    s4, s6 := StoreAlone(s2, t, p, h);
    s8 := PinAlone(s6, t, p, l, now);
    BackToIdle(s.threads, t, Enforcing(p), Pinning(p));
    TwiceSet(s.insts, p, s6.insts[p], s8.insts[p]);
  }

  lemma BackToIdle(threads: Threads, t: Tid, a: Pc, b: Pc)
    requires t in threads && threads[t].Idle?
    ensures threads[t := a][t := b][t := Idle] == threads
  {
  }

  lemma StoreAlone(s: State, t: Tid, p: Path, h: Handle) returns (s4: State, s6: State)
    requires t in s.threads && s.threads[t] == Enforcing(p) && Free(s, p) && s.insts[p].db.None? && h !in s.used
    ensures Reopens(s, t, h, s4) && Maps(s4, t, s6)
    ensures s6 == s.(insts := s.insts[p := s.insts[p].(db := Some(h), mu := Some(t))], open := s.open + {p},
                     opens := s.opens + 1, used := s.used + {h}, threads := s.threads[t := Pinning(p)])
  {
    s4 := ReopenAlone(s, t, p, h);
    s6 := MapAlone(s4, t, p);
    assert s6.threads == s.threads[t := Pinning(p)];
  }

  lemma TwiceSet(insts: Insts, p: Path, i: Inst, j: Inst)
    ensures insts[p := i][p := j] == insts[p := j]
  {
  }

  ghost predicate Checks(s: State, t: Tid, p: Path, s': State) {
    exists s1 :: Moves(s, Acquire(t, p), s1) && Moves(s1, Check(t), s')
  }

  lemma CheckAlone(s: State, t: Tid, p: Path) returns (s': State)
    requires t in s.threads && s.threads[t].Idle? && Free(s, p) && s.insts[p].db.None?
    ensures Checks(s, t, p, s') && s' == s.(threads := s.threads[t := Enforcing(p)])
  {
    var s1 := Next(s, Acquire(t, p));
    s' := Next(s1, Check(t));
    assert Moves(s, Acquire(t, p), s1) && Moves(s1, Check(t), s');
    assert s'.insts == s.insts && s'.threads == s.threads[t := Enforcing(p)];
  }

  ghost predicate Reopens(s: State, t: Tid, h: Handle, s': State) {
    exists s1 :: Moves(s, Relock(t), s1) && Moves(s1, Recheck(t, Some(h)), s')
  }

  ghost predicate Maps(s: State, t: Tid, s': State) {
    exists s1 :: Moves(s, Map(t), s1) && Moves(s1, CountOpen(t), s')
  }

  ghost predicate Pins(s: State, t: Tid, l: LeaseId, now: int, s': State) {
    exists s1 :: Moves(s, Pin(t, l), s1) && Moves(s1, Stamp(t, now), s')
  }

  lemma ReopenAlone(s: State, t: Tid, p: Path, h: Handle) returns (s': State)
    requires t in s.threads && s.threads[t] == Enforcing(p) && Free(s, p) && s.insts[p].db.None? && h !in s.used
    ensures Reopens(s, t, h, s')
    ensures s' == s.(insts := s.insts[p := s.insts[p].(db := Some(h), mu := Some(t))],
                     threads := s.threads[t := Opened(p)], used := s.used + {h})
  {
    var s1 := Next(s, Relock(t));
    s' := Next(s1, Recheck(t, Some(h)));
    assert Moves(s, Relock(t), s1) && Moves(s1, Recheck(t, Some(h)), s');
    assert s'.threads == s.threads[t := Opened(p)];
  }

  lemma MapAlone(s: State, t: Tid, p: Path) returns (s': State)
    requires t in s.threads && s.threads[t] == Opened(p)
    ensures Maps(s, t, s')
    ensures s' == s.(threads := s.threads[t := Pinning(p)], open := s.open + {p}, opens := s.opens + 1)
  {
    var s1 := Next(s, Map(t));
    s' := Next(s1, CountOpen(t));
    assert Moves(s, Map(t), s1) && Moves(s1, CountOpen(t), s');
    assert s'.threads == s.threads[t := Pinning(p)];
  }

  lemma PinAlone(s: State, t: Tid, p: Path, l: LeaseId, now: int) returns (s': State)
    requires t in s.threads && s.threads[t] == Pinning(p) && p in s.insts && s.insts[p].db.Some? && l !in s.leases
    ensures Pins(s, t, l, now, s')
    ensures s' == s.(insts := s.insts[p := Inst(s.insts[p].db, s.insts[p].refs + 1, now, None)],
                     threads := s.threads[t := Idle], leases := s.leases[l := Lease(p, s.insts[p].db.value, false)])
  {
    var s1 := Next(s, Pin(t, l));
    s' := Next(s1, Stamp(t, now));
    assert Moves(s, Pin(t, l), s1) && Moves(s1, Stamp(t, now), s');
    assert s'.threads == s.threads[t := Idle];
  }

  class Manager {
    var insts: map<Path, Inst>
    var open: set<Path>
    var opens: nat
    var closes: nat
    const maxOpen: int
    const idleTTL: int

    ghost function Abs(): Pool
      reads this
    {
      Pool(insts, open, opens, closes)
    }

    ghost predicate Valid()
      reads this
    {
      PoolOk(Abs()) && idleTTL > 0
    }

    constructor (maxOpen: int, idleTTL: int)
      ensures Valid() && Abs() == Pool(map[], {}, 0, 0)
      ensures this.maxOpen == maxOpen
      ensures this.idleTTL == if idleTTL <= 0 then 120_000_000_000 else idleTTL
    {
      this.maxOpen := maxOpen;
      this.idleTTL := if idleTTL <= 0 then 120_000_000_000 else idleTTL;
      insts, open, opens, closes := map[], {}, 0, 0;
    }

    /** InstanceWith: get or create; nothing is opened. */
    method InstanceWith(p: Path)
      requires Valid()
      modifies this
      ensures Valid() && p in insts && open == old(open)
      ensures insts == if p in old(insts) then old(insts) else old(insts)[p := Inst(None, 0, 0, None)]
    {
      if p !in insts {
        insts := insts[p := Inst(None, 0, 0, None)];
      }
    }

    method CloseIfIdle(p: Path, ttl: int, now: int) returns (closed: bool)
      requires Valid() && p in insts
      modifies this
      ensures Valid() && Abs() == CloseOne(old(Abs()), p, ttl, now)
      ensures closed <==>
        (old(insts)[p].db.Some? && old(insts)[p].refs == 0 && (ttl <= 0 || now - old(insts)[p].lastUsed >= ttl))
      ensures open == if closed then old(open) - {p} else old(open)
      ensures insts == if closed then old(insts)[p := old(insts)[p].(db := None)] else old(insts)
      ensures opens == old(opens) && closes == old(closes) + (if closed then 1 else 0)
    {
      var i := insts[p];
      if i.db.None? || i.refs != 0 {
        return false;
      }
      if ttl > 0 && now - i.lastUsed < ttl {
        return false;
      }
      insts := insts[p := i.(db := None)];
      open := open - {p};
      closes := closes + 1;
      return true;
    }

    /** lruIdleOpen: the open, unreferenced instance with the oldest use. */
    method LruIdleOpen() returns (victim: Option<Path>)
      requires Valid()
      ensures victim.Some? ==> victim.value in open && insts[victim.value].refs == 0 && Oldest(Abs(), victim.value)
      ensures victim.None? ==> forall p | p in open :: insts[p].refs > 0
    {
      victim := None;
      var rest := open;
      while rest != {}
        invariant rest <= open
        invariant victim.Some? ==> victim.value in open - rest && insts[victim.value].refs == 0
        invariant victim.Some? ==>
          forall p | p in open - rest && insts[p].refs == 0 :: insts[victim.value].lastUsed <= insts[p].lastUsed
        invariant victim.None? ==> forall p | p in open - rest :: insts[p].refs > 0
      {
        var p :| p in rest;
        rest := rest - {p};
        if insts[p].refs == 0 && (victim.None? || insts[p].lastUsed < insts[victim.value].lastUsed) {
          victim := Some(p);
        }
      }
    }

    /** enforceBudget: evicts least recently used idle handles until the budget has room again or
        every open handle is in use. */
    method EnforceBudget(now: int)
      requires Valid()
      modifies this
      ensures Valid() && Evicted(old(Abs()), Abs()) && LruOrder(old(Abs()), Abs())
      ensures maxOpen <= 0 ==> Abs() == old(Abs())
      ensures maxOpen > 0 ==> |open| < maxOpen || forall p | p in open :: insts[p].refs > 0
      ensures maxOpen > 0 ==> |open| >= maxOpen - 1 || open == old(open)
    {
      if maxOpen <= 0 {
        return;
      }
      while |open| >= maxOpen
        invariant Valid() && Evicted(old(Abs()), Abs()) && LruOrder(old(Abs()), Abs())
        invariant |open| >= maxOpen - 1 || open == old(open)
        decreases |open|
      {
        var victim := LruIdleOpen();
        if victim.None? {
          return;
        }
        ghost var before := Abs();
        var closed := CloseIfIdle(victim.value, 0, now);
        EvictedOneMore(old(Abs()), before, victim.value, now);
      }
    }

    /** reap: an open handle stays open exactly when it is in use or was within the TTL. */
    method Reap(now: int)
      requires Valid()
      modifies this
      ensures Valid() && Evicted(old(Abs()), Abs())
      ensures open <= old(open)
      ensures forall p | p in old(open) ::
        (p in old(insts) && (p in open <==> old(insts)[p].refs > 0 || now - old(insts)[p].lastUsed < idleTTL))
    {
      CloseAll(idleTTL, now);
    }

    /** Shutdown: closes every handle that is not in use. */
    method Shutdown(now: int)
      requires Valid()
      modifies this
      ensures Valid() && Evicted(old(Abs()), Abs())
      ensures open == set p | p in old(open) && old(insts)[p].refs > 0
    {
      CloseAll(0, now);
      assert forall p | p in old(open) :: IsIdle(old(insts)[p], 0, now) <==> old(insts)[p].refs == 0;
    }

    /** The loop reap and Shutdown share, over a snapshot of the open instances. */
    method CloseAll(ttl: int, now: int)
      requires Valid()
      modifies this
      ensures Valid() && Evicted(old(Abs()), Abs())
      ensures open == set p | p in old(open) && !IsIdle(old(insts)[p], ttl, now)
    {
      ghost var start := Abs();
      var snapshot := open;
      while snapshot != {}
        invariant Valid() && Evicted(start, Abs()) && snapshot <= start.open
        invariant open == set p | p in start.open && (p in snapshot || !IsIdle(start.insts[p], ttl, now))
      {
        var p :| p in snapshot;
        assert p in open && insts[p] == start.insts[p];
        ClosedOneMore(start, Abs(), p, ttl, now);
        var closed := CloseIfIdle(p, ttl, now);
        snapshot := snapshot - {p};
      }
    }

    /** The slow path of Acquire: makes room, then opens. `handle` is what the open returns. */
    method Open(p: Path, handle: Option<Handle>, now: int)
      requires Valid() && p in insts && insts[p].db.None?
      modifies this
      ensures Valid() && p in insts
      ensures insts[p] == old(insts)[p].(db := handle)
      ensures open - {p} <= old(open) && (p in open <==> handle.Some?)
      ensures opens == old(opens) + (if handle.Some? then 1 else 0)
      ensures maxOpen > 0 ==> |open| <= maxOpen || forall q | q in open && q != p :: insts[q].refs > 0
      ensures maxOpen > 0 ==> |open - {p}| >= maxOpen - 1 || open - {p} == old(open)
      ensures maxOpen <= 0 ==> open - {p} == old(open)
      ensures forall q | q in old(insts) && old(insts)[q].refs > 0 :: q in insts && insts[q] == old(insts)[q]
    {
      EnforceBudget(now);
      OneMoreOpen(open, p);
      OpenedOk(Abs(), p, handle);
      if handle.Some? {
        insts := insts[p := insts[p].(db := handle)];
        open := open + {p};
        opens := opens + 1;
      }
    }

    /** Acquire, for a goroutine that is not interrupted: no handle in use is evicted for it. */
    method Acquire(p: Path, handle: Option<Handle>, now: int) returns (db: Option<Handle>)
      requires Valid() && p in insts
      modifies this
      ensures Valid() && p in insts
      ensures db == if old(insts)[p].db.Some? then old(insts)[p].db else handle
      ensures insts[p] == if db.Some? then Inst(db, old(insts)[p].refs + 1, now, None) else old(insts)[p]
      ensures old(insts)[p].db.Some? ==> insts == old(insts)[p := insts[p]] && open == old(open)
      ensures old(insts)[p].db.None? && maxOpen > 0 ==>
        |open| <= maxOpen || forall q | q in open && q != p :: insts[q].refs > 0
      ensures forall q | q in old(insts) && q != p && old(insts)[q].refs > 0 :: q in insts && insts[q] == old(insts)[q]
    {
      if insts[p].db.None? {
        Open(p, handle, now);
      }
      db := insts[p].db;
      if db.Some? {
        insts := insts[p := insts[p].(refs := insts[p].refs + 1, lastUsed := now)];
      }
    }

    /** release: the idle clock starts anew, and one reference less keeps the handle open. */
    method Release(p: Path, now: int)
      requires Valid() && p in insts && insts[p].refs > 0
      modifies this
      ensures Valid() && open == old(open) && opens == old(opens) && closes == old(closes)
      ensures insts == old(insts)[p := Inst(old(insts)[p].db, old(insts)[p].refs - 1, now, None)]
    {
      insts := insts[p := insts[p].(lastUsed := now)];
      insts := insts[p := insts[p].(refs := insts[p].refs - 1)];
    }
  }

  lemma OpenedOk(m: Pool, p: Path, handle: Option<Handle>)
    requires PoolOk(m) && p in m.insts && m.insts[p].db.None?
    ensures p !in m.open && m.insts[p].refs == 0
    ensures handle.Some? ==> PoolOk(Pool(m.insts[p := m.insts[p].(db := handle)], m.open + {p}, m.opens + 1, m.closes))
  {
  }

  lemma OneMoreOpen(open: set<Path>, p: Path)
    ensures p !in open ==> open - {p} == open && (open + {p}) - {p} == open && |open + {p}| == |open| + 1
  {
  }

  ghost predicate Oldest(m: Pool, v: Path)
    requires PoolOk(m)
  {
    v in m.open && forall p | p in m.open && m.insts[p].refs == 0 :: m.insts[v].lastUsed <= m.insts[p].lastUsed
  }

  /** Handles in `m` that are gone in `n` were idle; nothing else changed. */
  ghost predicate Evicted(m: Pool, n: Pool) {
    && n.open <= m.open && n.opens == m.opens && n.insts.Keys == m.insts.Keys
    && (forall p | p in m.open && p !in n.open ::
          (p in m.insts && m.insts[p].refs == 0 && n.insts[p] == m.insts[p].(db := None)))
    && (forall p | p in m.insts && (p !in m.open || p in n.open) :: n.insts[p] == m.insts[p])
  }

  /** Nothing evicted was used later than anything idle that stayed. */
  ghost predicate LruOrder(m: Pool, n: Pool) {
    forall v, p | v in m.open && v !in n.open && p in n.open && v in m.insts && p in m.insts && m.insts[p].refs == 0 ::
      m.insts[v].lastUsed <= m.insts[p].lastUsed
  }

  lemma ClosedOneMore(start: Pool, m: Pool, p: Path, ttl: int, now: int)
    requires PoolOk(start) && PoolOk(m) && Evicted(start, m) && p in m.open && p in start.open
    ensures Evicted(start, CloseOne(m, p, ttl, now))
    ensures CloseOne(m, p, ttl, now).open == if IsIdle(m.insts[p], ttl, now) then m.open - {p} else m.open
  {
  }

  lemma EvictedOneMore(start: Pool, m: Pool, v: Path, now: int)
    requires PoolOk(start) && PoolOk(m) && Evicted(start, m) && LruOrder(start, m)
    requires v in m.open && m.insts[v].refs == 0 && Oldest(m, v)
    ensures Evicted(start, CloseOne(m, v, 0, now)) && LruOrder(start, CloseOne(m, v, 0, now))
  {
  }
}
