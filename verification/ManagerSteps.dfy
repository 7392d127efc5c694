/** The tenant handle manager as interleaved steps. A step is one action of one goroutine between
    which others may run: taking a lock, an access to the shared maps, or an atomic operation. */
module ManagerSteps {
  import opened Options

  type Path = string
  type Tid = nat
  type Handle = nat
  type LeaseId = nat

  /** One tenant; `mu` is the goroutine that holds its lock. */
  datatype Inst = Inst(db: Option<Handle>, refs: int, lastUsed: int, mu: Option<Tid>)

  /** A handle given out and not yet given back; `releasing` once its release has begun. */
  datatype Lease = Lease(path: Path, handle: Handle, releasing: bool)

  /** Where a goroutine is. `back` is the Acquire an eviction returns to. */
  datatype Pc =
    | Idle
    | Checking(p: Path)                              // Acquire, first check, lock held
    | Enforcing(p: Path)                             // Acquire, in enforceBudget, no lock held
    | Rechecking(p: Path)                            // Acquire, double check, lock held
    | Opened(p: Path)                                // handle stored, not in the open map
    | Mapped(p: Path)                                // in the open map, not counted
    | Pinning(p: Path)                               // about to add the reference
    | Pinned(p: Path)                                // reference added, lock still held
    | Deciding(p: Path, ttl: int, back: Option<Path>)  // closeIfIdle, lock held
    | Closing(p: Path, back: Option<Path>)           // found idle
    | Closed(p: Path, back: Option<Path>)            // handle closed, still stored
    | Cleared(p: Path, back: Option<Path>)           // handle no longer stored
    | Unmapped(p: Path, back: Option<Path>)          // out of the open map, not counted
    | Leaving(p: Path, back: Option<Path>)           // about to unlock
    | Releasing(l: LeaseId)                          // release, reference not yet dropped
  {
    /** The instance whose lock a goroutine holds here. */
    function Held(): Option<Path> {
      match this
      case Idle => None
      case Enforcing(_) => None
      case Releasing(_) => None
      case _ => Some(this.p)
    }
  }

  datatype State = State(insts: map<Path, Inst>, open: set<Path>, opens: nat, closes: nat,
                         threads: map<Tid, Pc>, leases: map<LeaseId, Lease>,
                         used: set<Handle>, shut: set<Handle>)

  datatype Step =
    | GetInstance(t: Tid, p: Path)
    | Acquire(t: Tid, p: Path)
    | Check(t: Tid)
    | Evict(t: Tid, p: Path)
    | Relock(t: Tid)
    | Recheck(t: Tid, result: Option<Handle>)   // None: the open fails
    | Map(t: Tid)
    | CountOpen(t: Tid)
    | Pin(t: Tid, l: LeaseId)
    | Stamp(t: Tid, now: int)
    | CloseIfIdle(t: Tid, p: Path, ttl: int)    // from reap or Shutdown
    | Decide(t: Tid, now: int)
    | CloseHandle(t: Tid)
    | ClearHandle(t: Tid)
    | Unmap(t: Tid)
    | CountClose(t: Tid)
    | Unlock(t: Tid)
    | BeginRelease(t: Tid, l: LeaseId, now: int)
    | DropRef(t: Tid)

  predicate Free(s: State, p: Path) {
    p in s.insts && s.insts[p].mu.None?
  }

  /** When goroutine `step.t` can take the step next. */
  ghost predicate Enabled(s: State, step: Step) {
    step.t in s.threads &&
    var pc := s.threads[step.t];
    match step
    case GetInstance(_, _) => pc.Idle?
    case Acquire(_, p) => pc.Idle? && Free(s, p)
    case Check(_) => pc.Checking? && pc.p in s.insts
    case Evict(_, p) => pc.Enforcing? && Free(s, p)
    case Relock(_) => pc.Enforcing? && Free(s, pc.p)
    case Recheck(_, result) => pc.Rechecking? && pc.p in s.insts && (result.Some? ==> result.value !in s.used)
    case Map(_) => pc.Opened?
    case CountOpen(_) => pc.Mapped?
    case Pin(_, l) => pc.Pinning? && pc.p in s.insts && s.insts[pc.p].db.Some? && l !in s.leases
    case Stamp(_, _) => pc.Pinned? && pc.p in s.insts
    case CloseIfIdle(_, p, _) => pc.Idle? && Free(s, p)
    case Decide(_, _) => pc.Deciding? && pc.p in s.insts
    case CloseHandle(_) => pc.Closing? && pc.p in s.insts && s.insts[pc.p].db.Some?
    case ClearHandle(_) => pc.Closed? && pc.p in s.insts
    case Unmap(_) => pc.Cleared?
    case CountClose(_) => pc.Unmapped?
    case Unlock(_) => pc.Leaving? && pc.p in s.insts
    case BeginRelease(_, l, _) => pc.Idle? && l in s.leases && !s.leases[l].releasing && s.leases[l].path in s.insts
    case DropRef(_) => pc.Releasing? && pc.l in s.leases && s.leases[pc.l].path in s.insts
  }

  function At(s: State, t: Tid, pc: Pc): State {
    s.(threads := s.threads[t := pc])
  }

  function With(s: State, p: Path, i: Inst): State {
    s.(insts := s.insts[p := i])
  }

  function Lock(s: State, t: Tid, p: Path, pc: Pc): State
    requires p in s.insts
  {
    At(With(s, p, s.insts[p].(mu := Some(t))), t, pc)
  }

  function Release(s: State, t: Tid, p: Path, pc: Pc): State
    requires p in s.insts
  {
    At(With(s, p, s.insts[p].(mu := None)), t, pc)
  }

  function Resume(back: Option<Path>): Pc {
    if back.Some? then Enforcing(back.value) else Idle
  }

  /** closeIfIdle's test, made under the lock. */
  predicate IsIdle(i: Inst, ttl: int, now: int) {
    i.db.Some? && i.refs == 0 && !(ttl > 0 && now - i.lastUsed < ttl)
  }

  function Drop(leases: map<LeaseId, Lease>, l: LeaseId): map<LeaseId, Lease> {
    leases - {l}
  }

  ghost function Next(s: State, step: Step): State
    requires Enabled(s, step)
  {
    var t := step.t;
    var pc := s.threads[t];
    match step
    case GetInstance(_, p) => if p in s.insts then s else With(s, p, Inst(None, 0, 0, None))
    case Acquire(_, p) => Lock(s, t, p, Checking(p))
    case Check(_) =>
      if s.insts[pc.p].db.Some? then At(s, t, Pinning(pc.p)) else Release(s, t, pc.p, Enforcing(pc.p))
    case Evict(_, p) => Lock(s, t, p, Deciding(p, 0, Some(pc.p)))
    case Relock(_) => Lock(s, t, pc.p, Rechecking(pc.p))
    case Recheck(_, result) =>
      var i := s.insts[pc.p];
      if i.db.Some? then At(s, t, Pinning(pc.p))
      else if result.None? then Release(s, t, pc.p, Idle)
      else At(With(s, pc.p, i.(db := result)), t, Opened(pc.p)).(used := s.used + {result.value})
    case Map(_) => At(s, t, Mapped(pc.p)).(open := s.open + {pc.p})
    case CountOpen(_) => At(s, t, Pinning(pc.p)).(opens := s.opens + 1)
    case Pin(_, l) =>
      var i := s.insts[pc.p];
      At(With(s, pc.p, i.(refs := i.refs + 1)), t, Pinned(pc.p))
        .(leases := s.leases[l := Lease(pc.p, i.db.value, false)])
    case Stamp(_, now) =>
      Release(With(s, pc.p, s.insts[pc.p].(lastUsed := now)), t, pc.p, Idle)
    case CloseIfIdle(_, p, ttl) => Lock(s, t, p, Deciding(p, ttl, None))
    case Decide(_, now) =>
      At(s, t, if IsIdle(s.insts[pc.p], pc.ttl, now) then Closing(pc.p, pc.back) else Leaving(pc.p, pc.back))
    case CloseHandle(_) => At(s, t, Closed(pc.p, pc.back)).(shut := s.shut + {s.insts[pc.p].db.value})
    case ClearHandle(_) => At(With(s, pc.p, s.insts[pc.p].(db := None)), t, Cleared(pc.p, pc.back))
    case Unmap(_) => At(s, t, Unmapped(pc.p, pc.back)).(open := s.open - {pc.p})
    case CountClose(_) => At(s, t, Leaving(pc.p, pc.back)).(closes := s.closes + 1)
    case Unlock(_) => Release(s, t, pc.p, Resume(pc.back))
    case BeginRelease(_, l, now) =>
      var p := s.leases[l].path;
      At(With(s, p, s.insts[p].(lastUsed := now)), t, Releasing(l))
        .(leases := s.leases[l := s.leases[l].(releasing := true)])
    case DropRef(_) =>
      var p := s.leases[pc.l].path;
      At(With(s, p, s.insts[p].(refs := s.insts[p].refs - 1)), t, Idle)
        .(leases := Drop(s.leases, pc.l))
  }

  ghost predicate Init(s: State) {
    && s.insts == map[] && s.open == {} && s.opens == s.closes == 0
    && s.leases == map[] && s.used == s.shut == {}
    && forall t | t in s.threads :: s.threads[t].Idle?
  }

  ghost predicate IsRun(trace: seq<State>, steps: seq<Step>) {
    && |trace| == |steps| + 1
    && Init(trace[0])
    && forall i {:trigger steps[i]} | 0 <= i < |steps| ::
      Enabled(trace[i], steps[i]) && trace[i + 1] == Next(trace[i], steps[i])
  }

  // ---- the invariant ----

  type Insts = map<Path, Inst>
  type Threads = map<Tid, Pc>

  /** Locks: the holder of an instance is exactly the goroutine whose place in the code holds it. */
  ghost predicate LocksOk(insts: Insts, threads: Threads) {
    && (forall p | p in insts && insts[p].mu.Some? ::
          insts[p].mu.value in threads && threads[insts[p].mu.value].Held() == Some(p))
    && (forall t | t in threads :: PlaceOk(insts, t, threads[t]))
  }

  ghost predicate PlaceOk(insts: Insts, t: Tid, pc: Pc) {
    && (pc.Held().Some? ==> pc.Held().value in insts && insts[pc.Held().value].mu == Some(t))
    && (pc.Enforcing? ==> pc.p in insts)
    && (Back(pc).Some? ==> Back(pc).value in insts)
  }

  function Back(pc: Pc): Option<Path> {
    match pc
    case Deciding(_, _, back) => back
    case Closing(_, back) => back
    case Closed(_, back) => back
    case Cleared(_, back) => back
    case Unmapped(_, back) => back
    case Leaving(_, back) => back
    case _ => None
  }

  /** What the holder of an instance's lock is doing to it. */
  ghost function Doing(s: State, p: Path): Pc
    requires p in s.insts
  {
    var mu := s.insts[p].mu;
    if mu.Some? && mu.value in s.threads then s.threads[mu.value] else Idle
  }

  predicate CloseUnderway(pc: Pc) {
    pc.Closing? || pc.Closed? || pc.Cleared? || pc.Unmapped?
  }

  ghost predicate HandleOk(s: State, p: Path)
    requires p in s.insts
  {
    PhaseOk(s.insts[p], Doing(s, p), p in s.open, s.used, s.shut)
  }

  /** What an instance looks like while its holder is at `pc`. */
  predicate PhaseOk(i: Inst, pc: Pc, mapped: bool, used: set<Handle>, shut: set<Handle>) {
    && (pc.Opened? || pc.Mapped? || pc.Pinning? || pc.Pinned? || pc.Closing? || pc.Closed? ==> i.db.Some?)
    && (pc.Cleared? || pc.Unmapped? ==> i.db.None?)
    && (CloseUnderway(pc) || pc.Opened? ==> i.refs == 0)
    && (i.db.Some? ==> i.db.value in used && (i.db.value in shut <==> pc.Closed?))
    && (mapped <==> (i.db.Some? && !pc.Opened?) || pc.Cleared?)
  }

  ghost predicate HandlesOk(s: State) {
    && s.shut <= s.used && (forall p | p in s.open :: p in s.insts)
    && (forall p | p in s.insts :: HandleOk(s, p))
    && (forall p, q | p in s.insts && q in s.insts && s.insts[p].db.Some? && s.insts[p].db == s.insts[q].db :: p == q)
  }

  function LeasesOn(leases: map<LeaseId, Lease>, p: Path): set<LeaseId> {
    set l | l in leases && leases[l].path == p
  }

  predicate IsStored(insts: Insts, lease: Lease) {
    lease.path in insts && insts[lease.path].db == Some(lease.handle)
  }

  /** References count the leases given out, and every lease is of the stored handle. */
  ghost predicate LeasesOk(s: State) {
    && (forall l | l in s.leases :: IsStored(s.insts, s.leases[l]))
    && RefsOk(s.insts, s.leases)
    && ReleasesOk(s.threads, s.leases)
  }

  predicate CountedPhase(i: Inst, pc: Pc) {
    (i.db.Some? && !pc.Opened? && !pc.Mapped?) || pc.Cleared? || pc.Unmapped?
  }

  /** The instances the two counters speak of. */
  ghost function Counted(s: State): set<Path> {
    set p | p in s.insts && CountedPhase(s.insts[p], Doing(s, p))
  }

  ghost predicate CountsOk(s: State) {
    s.opens - s.closes == |Counted(s)|
  }

  ghost predicate Inv(s: State) {
    LocksOk(s.insts, s.threads) && HandlesOk(s) && LeasesOk(s) && CountsOk(s)
  }

  lemma InitInv(s: State)
    requires Init(s)
    ensures Inv(s)
  {
    assert Counted(s) == {};
  }

  /** A step changes one instance at most, and the place of one goroutine. */
  function Touched(s: State, step: Step): Option<Path>
    requires step.t in s.threads
  {
    var pc := s.threads[step.t];
    match step
    case GetInstance(_, p) => Some(p)
    case Acquire(_, p) => Some(p)
    case Evict(_, p) => Some(p)
    case Relock(_) => if pc.Enforcing? then Some(pc.p) else None
    case CloseIfIdle(_, p, _) => Some(p)
    case BeginRelease(_, l, _) => if l in s.leases then Some(s.leases[l].path) else None
    case DropRef(_) => if pc.Releasing? && pc.l in s.leases then Some(s.leases[pc.l].path) else None
    case _ => pc.Held()
  }

  /** `insts` with at most the instance `p` changed (or added). */
  ghost predicate OnlyAt(insts: Insts, insts': Insts, p: Path) {
    && (forall q | q in insts :: q in insts')
    && (forall q | q in insts' && q != p :: q in insts && insts'[q] == insts[q])
  }

  lemma LocksStay(insts: Insts, threads: Threads, insts': Insts, t: Tid, pc: Pc, p: Path)
    requires LocksOk(insts, threads) && t in threads && OnlyAt(insts, insts', p)
    requires p in insts' ==> insts'[p].mu == if p in insts then insts[p].mu else None
    requires pc.Held() == threads[t].Held() && PlaceOk(insts', t, pc)
    ensures LocksOk(insts', threads[t := pc])
  {
  }

  lemma LockTaken(insts: Insts, threads: Threads, insts': Insts, t: Tid, pc: Pc, p: Path)
    requires LocksOk(insts, threads) && t in threads && OnlyAt(insts, insts', p)
    requires p in insts && insts[p].mu.None? && insts'[p].mu == Some(t)
    requires threads[t].Held().None? && pc.Held() == Some(p) && PlaceOk(insts', t, pc)
    ensures LocksOk(insts', threads[t := pc])
  {
  }

  lemma LockLeft(insts: Insts, threads: Threads, insts': Insts, t: Tid, pc: Pc, p: Path)
    requires LocksOk(insts, threads) && t in threads && OnlyAt(insts, insts', p)
    requires p in insts && insts'[p].mu.None?
    requires threads[t].Held() == Some(p) && pc.Held().None? && PlaceOk(insts', t, pc)
    ensures LocksOk(insts', threads[t := pc])
  {
  }

  predicate Locking(step: Step) {
    step.Acquire? || step.Evict? || step.Relock? || step.CloseIfIdle?
  }

  /** A step that takes a lock changes nothing else. */
  lemma LockingKeepsLocks(s: State, step: Step)
    requires LocksOk(s.insts, s.threads) && Enabled(s, step) && Locking(step)
    ensures LocksOk(Next(s, step).insts, Next(s, step).threads)
  {
    var s', t := Next(s, step), step.t;
    assert PlaceOk(s.insts, t, s.threads[t]);
    LockTaken(s.insts, s.threads, s'.insts, t, s'.threads[t], Touched(s, step).value);
  }

  predicate Unlocking(s: State, step: Step)
    requires step.t in s.threads
  {
    var pc := s.threads[step.t];
    || step.Stamp? || step.Unlock?
    || (step.Check? && pc.Checking? && pc.p in s.insts && s.insts[pc.p].db.None?)
    || (step.Recheck? && pc.Rechecking? && pc.p in s.insts && s.insts[pc.p].db.None? && step.result.None?)
  }

  lemma UnlockingKeepsLocks(s: State, step: Step)
    requires LocksOk(s.insts, s.threads) && Enabled(s, step) && Unlocking(s, step)
    ensures LocksOk(Next(s, step).insts, Next(s, step).threads)
  {
    var s', t := Next(s, step), step.t;
    assert PlaceOk(s.insts, t, s.threads[t]);
    LockLeft(s.insts, s.threads, s'.insts, t, s'.threads[t], s.threads[t].p);
  }

  lemma StayingKeepsLocks(s: State, step: Step)
    requires LocksOk(s.insts, s.threads) && Enabled(s, step) && !Locking(step) && !Unlocking(s, step)
    ensures LocksOk(Next(s, step).insts, Next(s, step).threads)
  {
    if Lockless(step) {
      LocklessKeepsLocks(s, step);
    } else {
      var s', t, pc := Next(s, step), step.t, s.threads[step.t];
      assert PlaceOk(s.insts, t, pc);
      LocksStay(s.insts, s.threads, s'.insts, t, s'.threads[t], pc.p);
    }
  }

  lemma LocklessKeepsLocks(s: State, step: Step)
    requires LocksOk(s.insts, s.threads) && Enabled(s, step) && Lockless(step)
    ensures LocksOk(Next(s, step).insts, Next(s, step).threads)
  {
    var s', t, pc := Next(s, step), step.t, s.threads[step.t];
    assert PlaceOk(s.insts, t, pc);
    if step.GetInstance? {
      LocksStay(s.insts, s.threads, s'.insts, t, pc, step.p);
      assert s.threads[t := pc] == s.threads;
    } else if step.BeginRelease? {
      LocksStay(s.insts, s.threads, s'.insts, t, s'.threads[t], s.leases[step.l].path);
    } else {
      LocksStay(s.insts, s.threads, s'.insts, t, s'.threads[t], s.leases[pc.l].path);
    }
  }

  lemma LocksKept(s: State, step: Step)
    requires LocksOk(s.insts, s.threads) && Enabled(s, step)
    ensures LocksOk(Next(s, step).insts, Next(s, step).threads)
  {
    if Locking(step) {
      LockingKeepsLocks(s, step);
    } else if Unlocking(s, step) {
      UnlockingKeepsLocks(s, step);
    } else {
      StayingKeepsLocks(s, step);
    }
  }

  /** What a lemma about one instance needs to know about locks. */
  ghost predicate LockKnown(s: State, t: Tid, q: Path) {
    && t in s.threads && q in s.insts && PlaceOk(s.insts, t, s.threads[t])
    && (s.insts[q].mu == Some(t) ==> s.threads[t].Held() == Some(q))
  }

  lemma LocksKnown(s: State, t: Tid, q: Path)
    requires LocksOk(s.insts, s.threads) && t in s.threads && q in s.insts
    ensures LockKnown(s, t, q)
  {
  }

  lemma InstUntouched(s: State, step: Step, q: Path)
    requires Enabled(s, step) && q in s.insts && Touched(s, step) != Some(q)
    ensures q in Next(s, step).insts && Next(s, step).insts[q] == s.insts[q]
    ensures q in Next(s, step).open <==> q in s.open
  {
  }

  /** A step that moves a goroutine holding a lock touches that instance. */
  lemma HeldIsTouched(s: State, step: Step)
    requires Enabled(s, step) && s.threads[step.t].Held().Some?
    ensures Touched(s, step) == s.threads[step.t].Held()
  {
  }

  lemma ThreadsUntouched(s: State, step: Step, u: Tid)
    requires Enabled(s, step) && u != step.t
    ensures u in Next(s, step).threads <==> u in s.threads
    ensures u in s.threads ==> Next(s, step).threads[u] == s.threads[u]
  {
  }

  lemma OthersUntouched(s: State, step: Step, q: Path)
    requires Enabled(s, step) && LockKnown(s, step.t, q) && Touched(s, step) != Some(q)
    ensures var s' := Next(s, step);
      q in s'.insts && s'.insts[q] == s.insts[q] && Doing(s', q) == Doing(s, q)
      && (q in s'.open <==> q in s.open)
  {
    InstUntouched(s, step, q);
    if s.insts[q].mu.Some? && s.insts[q].mu.value != step.t {
      ThreadsUntouched(s, step, s.insts[q].mu.value);
    } else if s.insts[q].mu.Some? {
      HeldIsTouched(s, step);
    }
  }

  // ---- leases ----

  lemma LeaseAdded(leases: map<LeaseId, Lease>, l: LeaseId, lease: Lease, q: Path)
    requires l !in leases
    ensures |LeasesOn(leases[l := lease], q)| == |LeasesOn(leases, q)| + (if lease.path == q then 1 else 0)
  {
    var more := LeasesOn(leases[l := lease], q);
    if lease.path == q {
      assert more == LeasesOn(leases, q) + {l};
    } else {
      assert more == LeasesOn(leases, q);
    }
  }

  lemma LeaseDropped(leases: map<LeaseId, Lease>, l: LeaseId, q: Path)
    requires l in leases
    ensures |LeasesOn(Drop(leases, l), q)| == |LeasesOn(leases, q)| - (if leases[l].path == q then 1 else 0)
  {
    LeaseAdded(Drop(leases, l), l, leases[l], q);
    assert Drop(leases, l)[l := leases[l]] == leases;
  }

  /** A leased instance has references. */
  lemma LeasedHasRefs(s: State, l: LeaseId)
    requires LeasesOk(s) && l in s.leases
    ensures s.insts[s.leases[l].path].refs > 0
  {
    assert l in LeasesOn(s.leases, s.leases[l].path);
  }

  ghost predicate RefsOk(insts: Insts, leases: map<LeaseId, Lease>) {
    forall p | p in insts :: insts[p].refs == |LeasesOn(leases, p)|
  }

  lemma RefsKept(s: State, step: Step)
    requires LeasesOk(s) && Enabled(s, step)
    ensures RefsOk(Next(s, step).insts, Next(s, step).leases)
  {
    var s' := Next(s, step);
    if step.Pin? || step.DropRef? {
      RefsMoved(s, step);
    } else {
      forall q | q in s'.insts ensures s'.insts[q].refs == |LeasesOn(s.leases, q)| {
        if q !in s.insts {
          assert LeasesOn(s.leases, q) == {};
        }
      }
      forall q ensures LeasesOn(s'.leases, q) == LeasesOn(s.leases, q) {
      }
    }
  }

  lemma RefsMoved(s: State, step: Step)
    requires LeasesOk(s) && Enabled(s, step) && (step.Pin? || step.DropRef?)
    ensures RefsOk(Next(s, step).insts, Next(s, step).leases)
  {
    var s', pc := Next(s, step), s.threads[step.t];
    forall q | q in s'.insts ensures s'.insts[q].refs == |LeasesOn(s'.leases, q)| {
      if step.Pin? {
        LeaseAdded(s.leases, step.l, Lease(pc.p, s.insts[pc.p].db.value, false), q);
      } else {
        LeaseDropped(s.leases, pc.l, q);
      }
    }
  }

  /** A stored handle changes only when nothing refers to it. */
  lemma HandleStays(s: State, step: Step, q: Path)
    requires Enabled(s, step) && LockKnown(s, step.t, q) && HandleOk(s, q)
    requires s.insts[q].refs > 0 && s.insts[q].db.Some?
    ensures q in Next(s, step).insts && Next(s, step).insts[q].db == s.insts[q].db
  {
  }

  /** A lease keeps its path and handle; a new one is of the stored handle. */
  lemma LeaseFrom(s: State, step: Step, l: LeaseId)
    requires Enabled(s, step) && l in Next(s, step).leases
    ensures var lease := Next(s, step).leases[l];
      if l in s.leases then lease.path == s.leases[l].path && lease.handle == s.leases[l].handle
      else step.Pin? && lease.path == s.threads[step.t].p && IsStored(s.insts, lease)
  {
  }

  lemma PinKeepsHandle(s: State, step: Step)
    requires Enabled(s, step) && step.Pin?
    ensures var p := s.threads[step.t].p; p in Next(s, step).insts && Next(s, step).insts[p].db == s.insts[p].db
  {
  }

  lemma LeaseHandlesKept(s: State, step: Step, l: LeaseId)
    requires Inv(s) && Enabled(s, step) && l in Next(s, step).leases
    ensures var s' := Next(s, step); var lease := s'.leases[l];
      lease.path in s'.insts && s'.insts[lease.path].db == Some(lease.handle)
  {
    LeaseFrom(s, step, l);
    if l in s.leases {
      var q := s.leases[l].path;
      LeasedHasRefs(s, l);
      LocksKnown(s, step.t, q);
      assert HandleOk(s, q);
      HandleStays(s, step, q);
    } else {
      PinKeepsHandle(s, step);
    }
  }

  /** Each release in progress is of a lease of its own. */
  ghost predicate ReleasesOk(threads: Threads, leases: map<LeaseId, Lease>) {
    && (forall t | t in threads && threads[t].Releasing? :: threads[t].l in leases && leases[threads[t].l].releasing)
    && (forall t, u | t in threads && u in threads && threads[t].Releasing? && threads[t] == threads[u] :: t == u)
  }

  lemma ReleasesStay(threads: Threads, leases: map<LeaseId, Lease>, leases': map<LeaseId, Lease>, t: Tid, pc: Pc)
    requires ReleasesOk(threads, leases) && !pc.Releasing?
    requires forall l | l in leases && !(t in threads && threads[t] == Releasing(l)) ::
      (l in leases' && leases'[l] == leases[l])
    ensures ReleasesOk(threads[t := pc], leases')
  {
  }

  lemma ReleasesKept(s: State, step: Step)
    requires ReleasesOk(s.threads, s.leases) && Enabled(s, step)
    ensures ReleasesOk(Next(s, step).threads, Next(s, step).leases)
  {
    var s' := Next(s, step);
    if !step.BeginRelease? && !step.GetInstance? {
      ReleasesStay(s.threads, s.leases, s'.leases, step.t, s'.threads[step.t]);
    }
  }

  lemma LeasesKept(s: State, step: Step)
    requires Inv(s) && Enabled(s, step)
    ensures LeasesOk(Next(s, step))
  {
    var s' := Next(s, step);
    forall l | l in s'.leases ensures IsStored(s'.insts, s'.leases[l]) {
      LeaseHandlesKept(s, step, l);
    }
    RefsKept(s, step);
    ReleasesKept(s, step);
  }

  // ---- handles ----

  predicate Lockless(step: Step) {
    step.GetInstance? || step.BeginRelease? || step.DropRef?
  }

  lemma DoingLockless(s: State, step: Step, q: Path)
    requires Enabled(s, step) && LockKnown(s, step.t, q) && Touched(s, step) == Some(q) && Lockless(step)
    ensures q in Next(s, step).insts && Doing(Next(s, step), q) == Doing(s, q)
  {
    if s.insts[q].mu.Some? && s.insts[q].mu.value != step.t {
      ThreadsUntouched(s, step, s.insts[q].mu.value);
    }
  }

  lemma DoingLocking(s: State, step: Step, q: Path)
    requires Enabled(s, step) && LockKnown(s, step.t, q) && Touched(s, step) == Some(q) && Locking(step)
    ensures q in Next(s, step).insts && Doing(s, q).Idle? && Doing(Next(s, step), q) == Next(s, step).threads[step.t]
  {
  }

  lemma DoingHeld(s: State, step: Step, q: Path)
    requires Enabled(s, step) && LockKnown(s, step.t, q) && Touched(s, step) == Some(q)
    requires !Lockless(step) && !Locking(step)
    ensures q in Next(s, step).insts && step.t in Next(s, step).threads && Doing(s, q) == s.threads[step.t]
    ensures var pc := Next(s, step).threads[step.t];
      Doing(Next(s, step), q) == (if pc.Held() == Some(q) then pc else Idle)
  {
  }

  /** Handles of two instances are never the same. */
  ghost predicate HandlesDistinct(insts: Insts) {
    forall p, q | p in insts && q in insts && insts[p].db.Some? && insts[p].db == insts[q].db :: p == q
  }

  lemma UntouchedKept(s: State, step: Step, q: Path)
    requires Enabled(s, step) && LockKnown(s, step.t, q) && Touched(s, step) != Some(q) && HandleOk(s, q)
    requires step.CloseHandle? ==> s.insts[q].db != s.insts[s.threads[step.t].p].db
    ensures q in Next(s, step).insts && HandleOk(Next(s, step), q)
  {
    OthersUntouched(s, step, q);
  }

  /** What a touched instance's own lemma needs besides. */
  ghost predicate TouchKnown(s: State, step: Step, q: Path) {
    && Enabled(s, step) && LockKnown(s, step.t, q) && Touched(s, step) == Some(q) && HandleOk(s, q)
    && s.shut <= s.used
    && (s.insts[q].db.None? ==> s.insts[q].refs == 0)
    && (step.DropRef? ==> s.insts[q].refs > 0)
  }

  lemma TouchedByLocking(s: State, step: Step, q: Path)
    requires TouchKnown(s, step, q) && Locking(step)
    ensures q in Next(s, step).insts && HandleOk(Next(s, step), q)
  {
    DoingLocking(s, step, q);
  }

  lemma TouchedLockless(s: State, step: Step, q: Path)
    requires TouchKnown(s, step, q) && Lockless(step)
    ensures q in Next(s, step).insts && HandleOk(Next(s, step), q)
  {
    DoingLockless(s, step, q);
  }

  predicate Opening(step: Step) {
    step.Check? || step.Recheck? || step.Map? || step.CountOpen? || step.Pin? || step.Stamp?
  }

  lemma TouchedByOpening(s: State, step: Step, q: Path)
    requires TouchKnown(s, step, q) && Opening(step)
    ensures q in Next(s, step).insts && HandleOk(Next(s, step), q)
  {
    DoingHeld(s, step, q);
  }

  lemma TouchedByClosing(s: State, step: Step, q: Path)
    requires TouchKnown(s, step, q) && !Opening(step) && !Locking(step) && !Lockless(step)
    ensures q in Next(s, step).insts && HandleOk(Next(s, step), q)
  {
    DoingHeld(s, step, q);
  }

  lemma HandlesKept(s: State, step: Step)
    requires Inv(s) && Enabled(s, step)
    ensures HandlesOk(Next(s, step))
  {
    var s' := Next(s, step);
    forall q | q in s'.insts ensures HandleOk(s', q) {
      HandleKeptAt(s, step, q);
    }
    SharedKept(s, step);
  }

  lemma HandleKeptAt(s: State, step: Step, q: Path)
    requires Inv(s) && Enabled(s, step) && q in Next(s, step).insts
    ensures HandleOk(Next(s, step), q)
  {
    if q in s.insts {
      LocksKnown(s, step.t, q);
      assert HandleOk(s, q);
      if Touched(s, step) != Some(q) {
        UntouchedKept(s, step, q);
      } else {
        NoHandleNoRefs(s, q);
        if step.DropRef? {
          LeasedHasRefs(s, s.threads[step.t].l);
        }
        if Locking(step) {
          TouchedByLocking(s, step, q);
        } else if Lockless(step) {
          TouchedLockless(s, step, q);
        } else if Opening(step) {
          TouchedByOpening(s, step, q);
        } else {
          TouchedByClosing(s, step, q);
        }
      }
    } else {
      NewInstance(s, step, q);
    }
  }

  lemma NewInstance(s: State, step: Step, q: Path)
    requires Enabled(s, step) && q in Next(s, step).insts && q !in s.insts && q !in s.open
    requires step.t in s.threads && PlaceOk(s.insts, step.t, s.threads[step.t])
    ensures HandleOk(Next(s, step), q)
  {
  }

  lemma NoHandleNoRefs(s: State, p: Path)
    requires LeasesOk(s) && p in s.insts
    ensures s.insts[p].db.None? ==> s.insts[p].refs == 0
  {
    if s.insts[p].db.None? {
      assert LeasesOn(s.leases, p) == {};
    }
  }

  lemma SharedKept(s: State, step: Step)
    requires LocksOk(s.insts, s.threads) && HandlesOk(s) && Enabled(s, step)
    ensures Next(s, step).shut <= Next(s, step).used
    ensures Next(s, step).open <= Next(s, step).insts.Keys
    ensures HandlesDistinct(Next(s, step).insts)
  {
    assert PlaceOk(s.insts, step.t, s.threads[step.t]);
    if step.CloseHandle? {
      assert HandleOk(s, s.threads[step.t].p);
    }
    DistinctKept(s, step);
  }

  /** Only an open stores a handle where there was none or another. */
  lemma StoredFrom(s: State, step: Step, p: Path)
    requires Enabled(s, step) && p in Next(s, step).insts && Next(s, step).insts[p].db.Some?
    ensures (p in s.insts && Next(s, step).insts[p].db == s.insts[p].db) ||
      (step.Recheck? && p == s.threads[step.t].p && Next(s, step).insts[p].db == step.result &&
        step.result.value !in s.used)
  {
  }

  lemma DistinctKept(s: State, step: Step)
    requires HandlesOk(s) && Enabled(s, step)
    ensures HandlesDistinct(Next(s, step).insts)
  {
    var insts' := Next(s, step).insts;
    forall p, q | p in insts' && q in insts' && insts'[p].db.Some? && insts'[p].db == insts'[q].db ensures p == q {
      StoredFrom(s, step, p);
      StoredFrom(s, step, q);
      assert p in s.insts && s.insts[p].db.Some? ==> HandleOk(s, p);
      assert q in s.insts && s.insts[q].db.Some? ==> HandleOk(s, q);
    }
  }

  // ---- the counters ----

  lemma CountedUntouched(s: State, step: Step, q: Path)
    requires Enabled(s, step) && LockKnown(s, step.t, q) && Touched(s, step) != Some(q)
    ensures q in Next(s, step).insts && (InCount(Next(s, step), q) <==> InCount(s, q))
  {
    OthersUntouched(s, step, q);
  }

  ghost predicate InCount(s: State, q: Path)
    requires q in s.insts
  {
    CountedPhase(s.insts[q], Doing(s, q))
  }

  lemma CountedTouched(s: State, step: Step, q: Path)
    requires Enabled(s, step) && LockKnown(s, step.t, q) && Touched(s, step) == Some(q) && HandleOk(s, q)
    ensures q in Next(s, step).insts
    ensures InCount(Next(s, step), q) <==> (InCount(s, q) || step.CountOpen?) && !step.CountClose?
    ensures step.CountOpen? ==> !InCount(s, q)
    ensures step.CountClose? ==> InCount(s, q)
  {
    if Locking(step) {
      DoingLocking(s, step, q);
    } else if Lockless(step) {
      DoingLockless(s, step, q);
    } else {
      DoingHeld(s, step, q);
    }
  }

  /** The instance a counting step is about. */
  function Subject(s: State, step: Step): Option<Path>
    requires step.t in s.threads
  {
    s.threads[step.t].Held()
  }

  lemma CountedChanges(s: State, step: Step, q: Path)
    requires LocksOk(s.insts, s.threads) && HandlesOk(s) && Enabled(s, step)
    ensures q in Counted(Next(s, step)) <==>
      (q in Counted(s) || (step.CountOpen? && Subject(s, step) == Some(q))) &&
      !(step.CountClose? && Subject(s, step) == Some(q))
  {
    assert PlaceOk(s.insts, step.t, s.threads[step.t]);
    if q in s.insts {
      LocksKnown(s, step.t, q);
      assert HandleOk(s, q);
      if Touched(s, step) == Some(q) { CountedTouched(s, step, q); } else { CountedUntouched(s, step, q); }
    } else if q in Next(s, step).insts {
      NewInstance(s, step, q);
    }
  }

  /** The counted instances after a step. */
  function Recount(before: set<Path>, step: Step, subject: Option<Path>): set<Path> {
    if subject.None? then before
    else if step.CountOpen? then before + {subject.value}
    else if step.CountClose? then before - {subject.value}
    else before
  }

  lemma CountedIs(s: State, step: Step)
    requires LocksOk(s.insts, s.threads) && HandlesOk(s) && Enabled(s, step)
    ensures Counted(Next(s, step)) == Recount(Counted(s), step, Subject(s, step))
  {
    var after := Counted(Next(s, step));
    forall q ensures q in after <==> q in Recount(Counted(s), step, Subject(s, step)) {
      CountedChanges(s, step, q);
    }
  }

  lemma CountsKept(s: State, step: Step)
    requires LocksOk(s.insts, s.threads) && HandlesOk(s) && CountsOk(s) && Enabled(s, step)
    ensures CountsOk(Next(s, step))
  {
    CountedIs(s, step);
    if step.CountOpen? || step.CountClose? {
      SubjectCounted(s, step);
    }
    CountersMove(s, step);
    RecountSize(Counted(s), step, Subject(s, step));
  }

  /** A counting step is about an instance that counts for it. */
  lemma SubjectCounted(s: State, step: Step)
    requires LocksOk(s.insts, s.threads) && HandlesOk(s) && Enabled(s, step) && (step.CountOpen? || step.CountClose?)
    ensures Subject(s, step).Some? && (Subject(s, step).value in Counted(s) <==> step.CountClose?)
  {
    assert PlaceOk(s.insts, step.t, s.threads[step.t]);
    var q := Subject(s, step).value;
    LocksKnown(s, step.t, q);
    assert HandleOk(s, q);
    CountedTouched(s, step, q);
  }

  lemma CountersMove(s: State, step: Step)
    requires Enabled(s, step)
    ensures Next(s, step).opens == s.opens + (if step.CountOpen? then 1 else 0)
    ensures Next(s, step).closes == s.closes + (if step.CountClose? then 1 else 0)
  {
  }

  lemma RecountSize(before: set<Path>, step: Step, subject: Option<Path>)
    requires step.CountOpen? || step.CountClose? ==> subject.Some? && (subject.value in before <==> step.CountClose?)
    ensures |Recount(before, step, subject)| ==
      |before| + (if step.CountOpen? then 1 else 0) - (if step.CountClose? then 1 else 0)
  {
  }

  // ---- what one step decides ----

  /** A closing that has the lock goes on to close exactly when the handle is open, nobody uses it,
      and the TTL it was begun with (if any) has run since it was last used. */
  lemma DecidesToCloseIff(s: State, step: Step)
    requires Enabled(s, step) && step.Decide?
    ensures var pc, pc' := s.threads[step.t], Next(s, step).threads[step.t]; var i := s.insts[pc.p];
      && (pc'.Closing? || pc'.Leaving?)
      && (pc'.Closing? <==> i.db.Some? && i.refs == 0 && (pc.ttl <= 0 || step.now - i.lastUsed >= pc.ttl))
  {
  }

  /** A closing carries the TTL its caller gave it: the idle TTL, or none for eviction. */
  lemma TtlFrom(s: State, step: Step)
    requires Enabled(s, step) && (step.CloseIfIdle? || step.Evict?)
    ensures var pc := Next(s, step).threads[step.t];
      pc.Deciding? && pc.p == step.p && pc.ttl == if step.CloseIfIdle? then step.ttl else 0
  {
  }

  // ---- the theorems ----

  lemma StepKeepsInv(s: State, step: Step)
    requires Inv(s) && Enabled(s, step)
    ensures Inv(Next(s, step))
  {
    LocksKept(s, step);
    HandlesKept(s, step);
    LeasesKept(s, step);
    CountsKept(s, step);
  }

  lemma {:induction false} RunKeepsInv(trace: seq<State>, steps: seq<Step>, i: nat)
    requires IsRun(trace, steps) && i < |trace|
    ensures Inv(trace[i])
  {
    if i == 0 {
      InitInv(trace[0]);
    } else {
      RunKeepsInv(trace, steps, i - 1);
      StepKeepsInv(trace[i - 1], steps[i - 1]);
    }
  }

  /** In no interleaving is a leased handle closed: it is open, it is the stored one, and no step
      closes it or changes it under its holder. */
  lemma LeasedHandleStaysOpen(trace: seq<State>, steps: seq<Step>, i: nat, l: LeaseId)
    requires IsRun(trace, steps) && i < |trace| && l in trace[i].leases
    ensures var s := trace[i]; var lease := s.leases[l];
      && lease.handle !in s.shut && lease.path in s.open && lease.path in s.insts
      && s.insts[lease.path].db == Some(lease.handle)
      && s.insts[lease.path].refs == |LeasesOn(s.leases, lease.path)| > 0
    ensures i < |steps| && l in trace[i + 1].leases ==>
      trace[i + 1].leases[l].handle == trace[i].leases[l].handle && trace[i].leases[l].handle !in trace[i + 1].shut
  {
    RunKeepsInv(trace, steps, i);
    LeaseIsOpen(trace[i], l);
    if i < |steps| {
      RunKeepsInv(trace, steps, i + 1);
      if l in trace[i + 1].leases {
        LeaseFrom(trace[i], steps[i], l);
        LeaseIsOpen(trace[i + 1], l);
      }
    }
  }

  lemma LeaseIsOpen(s: State, l: LeaseId)
    requires Inv(s) && l in s.leases
    ensures var lease := s.leases[l];
      && lease.handle !in s.shut && lease.path in s.open && lease.path in s.insts
      && s.insts[lease.path].db == Some(lease.handle) && s.insts[lease.path].refs > 0
  {
    LeasedHasRefs(s, l);
    assert HandleOk(s, s.leases[l].path);
  }

  /** A handle is closed at most once, and only while nobody holds a lease of its instance. */
  lemma ClosedOnceUnleased(trace: seq<State>, steps: seq<Step>, i: nat)
    requires IsRun(trace, steps) && i < |steps| && steps[i].CloseHandle?
    ensures var s := trace[i]; var p := s.threads[steps[i].t].p;
      s.insts[p].db.value !in s.shut && forall l | l in s.leases :: s.leases[l].path != p
  {
    RunKeepsInv(trace, steps, i);
    var s, t := trace[i], steps[i].t;
    assert PlaceOk(s.insts, t, s.threads[t]);
    var p := s.threads[t].p;
    assert HandleOk(s, p) && Doing(s, p) == s.threads[t];
    forall l | l in s.leases ensures s.leases[l].path != p {
      LeasedHasRefs(s, l);
    }
  }

  ghost predicate Quiescent(s: State) {
    forall p | p in s.insts :: s.insts[p].mu.None?
  }

  /** Whenever no instance is locked, the open map is exactly the instances with a handle, none of
      them closed, and opens minus closes is its size. */
  lemma QuiescentCounts(trace: seq<State>, steps: seq<Step>, i: nat)
    requires IsRun(trace, steps) && i < |trace| && Quiescent(trace[i])
    ensures var s := trace[i];
      && s.open == (set p | p in s.insts && s.insts[p].db.Some?)
      && s.opens - s.closes == |s.open|
      && forall p | p in s.open :: s.insts[p].db.value !in s.shut
  {
    RunKeepsInv(trace, steps, i);
    var s := trace[i];
    forall p | p in s.insts ensures HandleOk(s, p) && Doing(s, p).Idle? {
    }
    assert Counted(s) == s.open;
  }
}
