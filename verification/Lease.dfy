/** The write-lease protocol of one tenant: any number of nodes contend for one lease object.
    A step is one locked section, one call to the leaser, or the passing of time; RequirePrimary
    takes two locks in turn and so is two steps. */
module Lease {
  import opened Options

  type NodeId = string
  type TsId = nat

  datatype Grant = Grant(generation: nat, expiry: int, owner: NodeId)

  /** The lease object. */
  datatype LeaseObj = LeaseObj(holder: Option<NodeId>, expiry: int, generation: nat)

  /** How far an attempt has come: it renews first when a lease is recorded, else acquires. */
  datatype Phase = Resting | Renewing | Acquiring | Got(grant: Grant) | Refused(owner: Option<NodeId>)

  /** Starting: made by EnsureActive, not in the tenants map yet. Active: in it. Dead: removed, or
      discarded because another one landed first. */
  datatype Stage = Starting | Active | Dead

  /** How far a deactivation has come. */
  datatype Closing = Open | Removed | Releasing

  /** A tenantState. */
  datatype Tenant = Tenant(node: NodeId, lease: Option<Grant>, isPrimary: bool, ownerHint: Option<NodeId>,
                           phase: Phase, attempted: bool, stage: Stage, closing: Closing)

  type CallId = nat

  /** A call of RequirePrimary between its two locks, or answered (`ok` when it returns nil). */
  datatype Call = LookedUp(node: NodeId, ts: TsId) | Answered(node: NodeId, ok: bool)

  datatype State = State(now: int, ttl: int, obj: LeaseObj, tenants: map<TsId, Tenant>, current: map<NodeId, TsId>,
                         calls: map<CallId, Call>)

  // ---- the leaser's contract ----

  predicate CanAcquire(obj: LeaseObj, owner: NodeId, now: int) {
    !(obj.holder.Some? && now < obj.expiry && obj.holder.value != owner)
  }

  function Acquired(obj: LeaseObj, owner: NodeId, now: int, ttl: int): LeaseObj {
    LeaseObj(Some(owner), now + ttl, obj.generation + 1)
  }

  function Renewed(obj: LeaseObj, now: int, ttl: int): LeaseObj {
    obj.(expiry := now + ttl)
  }

  function Released(obj: LeaseObj, owner: NodeId): LeaseObj {
    if obj.holder == Some(owner) then obj.(holder := None) else obj
  }

  function GrantOf(obj: LeaseObj, owner: NodeId): Grant {
    Grant(obj.generation, obj.expiry, owner)
  }

  // ---- what the steps do to one tenantState ----

  function NewTenant(node: NodeId): Tenant {
    Tenant(node, None, false, None, Acquiring, false, Starting, Open)
  }

  function Begun(t: Tenant): Tenant {
    t.(phase := if t.lease.Some? then Renewing else Acquiring)
  }

  /** Renewal; an error sends the attempt on to acquiring. */
  function RenewCall(t: Tenant, obj: LeaseObj, now: int, ttl: int, fails: bool): (Tenant, LeaseObj) {
    if fails || obj.holder != Some(t.node) then (t.(phase := Acquiring), obj)
    else
      var o := Renewed(obj, now, ttl);
      (t.(phase := Got(GrantOf(o, t.node))), o)
  }

  function AcquireCall(t: Tenant, obj: LeaseObj, now: int, ttl: int, fails: bool): (Tenant, LeaseObj) {
    if fails then (t.(phase := Refused(None)), obj)
    else if !CanAcquire(obj, t.node, now) then (t.(phase := Refused(obj.holder)), obj)
    else
      var o := Acquired(obj, t.node, now, ttl);
      (t.(phase := Got(GrantOf(o, t.node))), o)
  }

  function Recorded(t: Tenant): Tenant {
    if t.phase.Got? then
      t.(lease := Some(t.phase.grant), isPrimary := true, ownerHint := None, phase := Resting, attempted := true)
    else
      t.(lease := None, isPrimary := false, phase := Resting, attempted := true,
         ownerHint := if t.phase.Refused? && t.phase.owner.Some? then t.phase.owner else t.ownerHint)
  }

  // ---- the steps ----

  datatype Step =
    | Tick(to: int)
    | Create(ts: TsId, node: NodeId)     // EnsureActive finds no entry and builds a tenantState
    | Install(ts: TsId)                  // it lands in the tenants map, unless another did first
    | Begin(ts: TsId)
    | CallRenew(ts: TsId, fails: bool)
    | CallAcquire(ts: TsId, fails: bool)
    | Record(ts: TsId)
    | Remove(node: NodeId)               // deactivate takes the entry out of the map
    | ReadLease(ts: TsId)                // and reads the recorded lease
    | Release(ts: TsId, fails: bool)     // and releases it
    | LookUp(c: CallId, node: NodeId)    // RequirePrimary finds the entry, or fails
    | Read(c: CallId)                    // and answers what the tenantState says

  ghost predicate Enabled(s: State, step: Step) {
    match step
    case Tick(to) => s.now <= to
    case Create(ts, node) => ts !in s.tenants && node !in s.current
    case Install(ts) => ts in s.tenants && s.tenants[ts].stage.Starting? && s.tenants[ts].attempted
    case Begin(ts) => ts in s.tenants && s.tenants[ts].phase.Resting?
    case CallRenew(ts, _) => ts in s.tenants && s.tenants[ts].phase.Renewing?
    case CallAcquire(ts, _) => ts in s.tenants && s.tenants[ts].phase.Acquiring?
    case Record(ts) => ts in s.tenants && (s.tenants[ts].phase.Got? || s.tenants[ts].phase.Refused?)
    case Remove(node) => node in s.current && s.current[node] in s.tenants
    case ReadLease(ts) => ts in s.tenants && s.tenants[ts].closing.Removed?
    case Release(ts, _) => ts in s.tenants && s.tenants[ts].closing.Releasing?
    case LookUp(c, _) => c !in s.calls
    case Read(c) => c in s.calls && s.calls[c].LookedUp? && s.calls[c].ts in s.tenants
  }

  function Put(s: State, ts: TsId, t: Tenant): State {
    s.(tenants := s.tenants[ts := t])
  }

  ghost function Next(s: State, step: Step): State
    requires Enabled(s, step)
  {
    match step
    case Tick(to) => s.(now := to)
    case Create(ts, node) => Put(s, ts, NewTenant(node))
    case Install(ts) =>
      var t := s.tenants[ts];
      if t.node in s.current then Put(s, ts, t.(stage := Dead))
      else Put(s, ts, t.(stage := Active)).(current := s.current[t.node := ts])
    case Begin(ts) => Put(s, ts, Begun(s.tenants[ts]))
    case CallRenew(ts, fails) =>
      var (t, obj) := RenewCall(s.tenants[ts], s.obj, s.now, s.ttl, fails);
      Put(s, ts, t).(obj := obj)
    case CallAcquire(ts, fails) =>
      var (t, obj) := AcquireCall(s.tenants[ts], s.obj, s.now, s.ttl, fails);
      Put(s, ts, t).(obj := obj)
    case Record(ts) => Put(s, ts, Recorded(s.tenants[ts]))
    case Remove(node) =>
      var ts := s.current[node];
      Put(s, ts, s.tenants[ts].(stage := Dead, closing := Removed))
        .(current := s.current - {node})
    case ReadLease(ts) =>
      var t := s.tenants[ts];
      Put(s, ts, t.(closing := if t.lease.Some? then Releasing else Open))
    case Release(ts, fails) =>
      var t := s.tenants[ts];
      Put(s, ts, t.(closing := Open)).(obj := if fails then s.obj else Released(s.obj, t.node))
    case LookUp(c, node) =>
      s.(calls := s.calls[c := if node in s.current then LookedUp(node, s.current[node]) else Answered(node, false)])
    case Read(c) =>
      s.(calls := s.calls[c := Answered(s.calls[c].node, s.tenants[s.calls[c].ts].isPrimary)])
  }

  ghost predicate Init(s: State) {
    s.ttl > 0 && s.obj == LeaseObj(None, s.now, 0) && s.tenants == map[] && s.current == map[] && s.calls == map[]
  }

  /** RequirePrimary(node), not interrupted, returns nil. */
  predicate Admits(s: State, node: NodeId) {
    node in s.current && s.current[node] in s.tenants && s.tenants[s.current[node]].isPrimary
  }

  predicate Waits(s: State, c: CallId, ts: TsId) {
    c in s.calls && s.calls[c].LookedUp? && s.calls[c].ts == ts
  }

  /** The call, if its second lock is taken now, returns nil. */
  predicate WouldAdmit(s: State, c: CallId) {
    c in s.calls && s.calls[c].LookedUp? && s.calls[c].ts in s.tenants && s.tenants[s.calls[c].ts].isPrimary
  }

  /** The tenantState the call found is still the one in the map. */
  predicate StillMapped(s: State, c: CallId) {
    c in s.calls && s.calls[c].LookedUp? && s.calls[c].node in s.current && s.current[s.calls[c].node] == s.calls[c].ts
  }

  // ---- when the protocol is safe ----

  ghost predicate Watched(s: State, ts: TsId) {
    exists c :: Waits(s, c, ts)
  }

  /** `ts` admits writes, or will once its attempt is recorded. A tenantState out of the map counts
      only with `calls`, and then only while a call that found it has not read it. */
  ghost predicate Claims(s: State, ts: TsId, calls: bool) {
    ts in s.tenants && (!s.tenants[ts].stage.Dead? || (calls && Watched(s, ts))) &&
    (s.tenants[ts].isPrimary || s.tenants[ts].phase.Got?)
  }

  predicate InTime(t: Tenant, now: int) {
    (t.lease.Some? ==> now < t.lease.value.expiry) && (t.phase.Got? ==> now < t.phase.grant.expiry)
  }

  /** The next attempt of every holder is recorded before its lease runs out. */
  ghost predicate Timely(s: State, step: Step, calls: bool) {
    step.Tick? ==> forall ts | Claims(s, ts, calls) :: InTime(s.tenants[ts], step.to)
  }

  /** A release lands while no tenantState of the node claims the lease: the tenant was not
      activated again on this node before its deactivation finished and, with `calls`, no call
      that found it is still to read it. */
  ghost predicate Quiet(s: State, step: Step, calls: bool) {
    step.Release? && step.ts in s.tenants ==>
      forall ts | Claims(s, ts, calls) :: s.tenants[ts].node != s.tenants[step.ts].node
  }

  ghost predicate IsRun(trace: seq<State>, steps: seq<Step>) {
    && |trace| == |steps| + 1
    && Init(trace[0])
    && forall i {:trigger steps[i]} | 0 <= i < |steps| ::
      Enabled(trace[i], steps[i]) && trace[i + 1] == Next(trace[i], steps[i])
  }

  /** What holds whether or not attempts are timely. */
  ghost predicate ShapeOk(s: State) {
    && s.ttl > 0 && s.obj.expiry <= s.now + s.ttl
    && (forall ts | ts in s.tenants :: TenantOk(s, ts))
    && (forall n | n in s.current :: s.current[n] in s.tenants && s.tenants[s.current[n]].stage.Active?
                                     && s.tenants[s.current[n]].node == n)
    && (forall c | c in s.calls :: CallOk(s, s.calls[c]))
  }

  ghost predicate CallOk(s: State, call: Call) {
    call.LookedUp? ==> call.ts in s.tenants && s.tenants[call.ts].node == call.node
  }

  ghost predicate TenantOk(s: State, ts: TsId)
    requires ts in s.tenants
  {
    var t := s.tenants[ts];
    && (t.isPrimary <==> t.lease.Some?) && (t.isPrimary ==> t.attempted)
    && (t.stage.Active? ==> t.node in s.current && s.current[t.node] == ts)
    && (!t.closing.Open? ==> t.stage.Dead?)
  }

  /** Every claim is backed by the lease object. */
  ghost predicate ClaimsOk(s: State, calls: bool) {
    forall ts | Claims(s, ts, calls) :: Backed(s, s.tenants[ts])
  }

  predicate Backed(s: State, t: Tenant) {
    && s.obj.holder == Some(t.node) && s.now < s.obj.expiry && InTime(t, s.now)
    && (t.lease.Some? ==> t.lease.value.expiry <= s.obj.expiry)
    && (t.phase.Got? ==> t.phase.grant.expiry <= s.obj.expiry)
  }

  predicate Calling(step: Step) {
    step.LookUp? || step.Read?
  }

  lemma ShapeKeptByCall(s: State, step: Step)
    requires ShapeOk(s) && Enabled(s, step) && Calling(step)
    ensures ShapeOk(Next(s, step))
  {
    var s' := Next(s, step);
    forall ts | ts in s'.tenants ensures TenantOk(s', ts) {
      assert TenantOk(s, ts);
    }
    forall c | c in s'.calls ensures CallOk(s', s'.calls[c]) {
      assert c in s.calls ==> CallOk(s, s.calls[c]);
    }
  }

  /** A step of an attempt. */
  predicate Attempting(step: Step) {
    step.Begin? || step.CallRenew? || step.CallAcquire? || step.Record?
  }

  lemma NodeKept(s: State, step: Step, ts: TsId)
    requires Enabled(s, step) && ts in s.tenants
    ensures ts in Next(s, step).tenants && Next(s, step).tenants[ts].node == s.tenants[ts].node
  {
  }

  lemma TenantKeptByAttempt(s: State, step: Step, ts: TsId)
    requires ShapeOk(s) && Enabled(s, step) && Attempting(step) && ts in Next(s, step).tenants
    ensures TenantOk(Next(s, step), ts)
  {
    assert TenantOk(s, ts);
  }

  lemma TenantKept(s: State, step: Step, ts: TsId)
    requires ShapeOk(s) && Enabled(s, step) && !Calling(step) && !Attempting(step) && ts in Next(s, step).tenants
    ensures TenantOk(Next(s, step), ts)
  {
    assert ts in s.tenants ==> TenantOk(s, ts);
  }

  lemma TenantsStay(s: State, step: Step)
    requires Enabled(s, step)
    ensures s.tenants.Keys <= Next(s, step).tenants.Keys
    ensures !Calling(step) ==> Next(s, step).calls == s.calls
  {
  }

  lemma CurrentKept(s: State, step: Step, n: NodeId)
    requires ShapeOk(s) && Enabled(s, step) && !Calling(step) && n in Next(s, step).current
    ensures var s' := Next(s, step);
      s'.current[n] in s'.tenants && s'.tenants[s'.current[n]].stage.Active? && s'.tenants[s'.current[n]].node == n
  {
    assert n in s.current ==> TenantOk(s, s.current[n]);
  }

  lemma ExpiryKept(s: State, step: Step)
    requires ShapeOk(s) && Enabled(s, step)
    ensures Next(s, step).ttl > 0 && Next(s, step).obj.expiry <= Next(s, step).now + Next(s, step).ttl
  {
  }

  lemma ShapeKept(s: State, step: Step)
    requires ShapeOk(s) && Enabled(s, step)
    ensures ShapeOk(Next(s, step))
  {
    if Calling(step) {
      ShapeKeptByCall(s, step);
    } else {
      var s' := Next(s, step);
      ExpiryKept(s, step);
      TenantsStay(s, step);
      forall ts | ts in s'.tenants ensures TenantOk(s', ts) {
        if Attempting(step) { TenantKeptByAttempt(s, step, ts); } else { TenantKept(s, step, ts); }
      }
      forall n | n in s'.current
        ensures s'.current[n] in s'.tenants
        ensures s'.tenants[s'.current[n]].stage.Active? && s'.tenants[s'.current[n]].node == n
      {
        CurrentKept(s, step, n);
      }
      forall c | c in s'.calls ensures CallOk(s', s'.calls[c]) {
        if s'.calls[c].LookedUp? {
          assert CallOk(s, s.calls[c]);
          NodeKept(s, step, s.calls[c].ts);
        }
      }
    }
  }

  /** A call finds only what is in the map, so watching adds no claim. */
  lemma ClaimsKeptByCall(s: State, step: Step, calls: bool)
    requires ShapeOk(s) && ClaimsOk(s, calls) && Enabled(s, step) && Calling(step)
    ensures ClaimsOk(Next(s, step), calls)
  {
    var s' := Next(s, step);
    forall ts | Claims(s', ts, calls) ensures Backed(s', s'.tenants[ts]) {
      if s'.tenants[ts].stage.Dead? {
        var c :| Waits(s', c, ts);
        assert Waits(s, c, ts);
      }
      assert Claims(s, ts, calls);
    }
  }

  /** The step may grant the lease to `ts`, which has none recorded. */
  ghost predicate Granted(s: State, step: Step, ts: TsId) {
    (step.CallRenew? || step.CallAcquire?) && step.ts == ts && ts in s.tenants && !s.tenants[ts].isPrimary
  }

  /** Where a claim comes from: the tenantState claimed before, or has just been granted the lease. */
  lemma ClaimFrom(s: State, step: Step, calls: bool, ts: TsId)
    requires Enabled(s, step) && !Calling(step) && Claims(Next(s, step), ts, calls)
    ensures Claims(s, ts, calls) || Granted(s, step, ts)
  {
    var s' := Next(s, step);
    assert s'.calls == s.calls;
    if Watched(s', ts) {
      var c :| Waits(s', c, ts);
      assert Waits(s, c, ts);
    }
  }

  lemma GrantBacked(s: State, step: Step, calls: bool, ts: TsId)
    requires ShapeOk(s) && ClaimsOk(s, calls) && Enabled(s, step) && (step.CallRenew? || step.CallAcquire?)
    requires Claims(Next(s, step), ts, calls) && (Claims(s, ts, calls) || Granted(s, step, ts))
    ensures Backed(Next(s, step), Next(s, step).tenants[ts])
  {
    assert TenantOk(s, ts) && (Claims(s, ts, calls) ==> Backed(s, s.tenants[ts]));
  }

  lemma ClaimStays(s: State, step: Step, calls: bool, ts: TsId)
    requires ShapeOk(s) && ClaimsOk(s, calls) && Enabled(s, step) && !step.CallRenew? && !step.CallAcquire?
    requires !Calling(step) && Timely(s, step, calls) && Quiet(s, step, calls)
    requires Claims(s, ts, calls) && Claims(Next(s, step), ts, calls)
    ensures Backed(Next(s, step), Next(s, step).tenants[ts])
  {
    assert TenantOk(s, ts) && Backed(s, s.tenants[ts]);
  }

  lemma ClaimsKept(s: State, step: Step, calls: bool)
    requires ShapeOk(s) && ClaimsOk(s, calls) && Enabled(s, step) && Timely(s, step, calls) && Quiet(s, step, calls)
    ensures ClaimsOk(Next(s, step), calls)
  {
    if Calling(step) {
      ClaimsKeptByCall(s, step, calls);
    } else {
      forall ts | Claims(Next(s, step), ts, calls) ensures Backed(Next(s, step), Next(s, step).tenants[ts]) {
        ClaimFrom(s, step, calls, ts);
        if step.CallRenew? || step.CallAcquire? {
          GrantBacked(s, step, calls, ts);
        } else {
          ClaimStays(s, step, calls, ts);
        }
      }
    }
  }

  // ---- the theorems ----

  ghost predicate Inv(s: State, calls: bool) {
    ShapeOk(s) && ClaimsOk(s, calls)
  }

  lemma {:induction false} RunKeepsShape(trace: seq<State>, steps: seq<Step>, i: nat)
    requires IsRun(trace, steps) && i < |trace|
    ensures ShapeOk(trace[i])
  {
    if i > 0 {
      RunKeepsShape(trace, steps, i - 1);
      ShapeKept(trace[i - 1], steps[i - 1]);
    }
  }

  ghost predicate Orderly(trace: seq<State>, steps: seq<Step>, calls: bool)
    requires |trace| == |steps| + 1
  {
    forall i {:trigger steps[i]} | 0 <= i < |steps| ::
      (Timely(trace[i], steps[i], calls) && Quiet(trace[i], steps[i], calls))
  }

  lemma {:induction false} RunKeepsInv(trace: seq<State>, steps: seq<Step>, i: nat, calls: bool)
    requires IsRun(trace, steps) && Orderly(trace, steps, calls) && i < |trace|
    ensures Inv(trace[i], calls)
  {
    if i > 0 {
      RunKeepsInv(trace, steps, i - 1, calls);
      assert Timely(trace[i - 1], steps[i - 1], calls);
      ShapeKept(trace[i - 1], steps[i - 1]);
      ClaimsKept(trace[i - 1], steps[i - 1], calls);
    }
  }

  /** At any moment, of the calls of RequirePrimary that have looked their tenantState up, those
      that would now return nil are all on one node, the one the lease object names, in time. It
      takes an orderly run, and that the tenantState is still in the map, or else that releases
      wait for calls. */
  lemma MutualExclusion(trace: seq<State>, steps: seq<Step>, i: nat, calls: bool, c: CallId, d: CallId)
    requires IsRun(trace, steps) && Orderly(trace, steps, calls) && i < |trace|
    requires WouldAdmit(trace[i], c) && WouldAdmit(trace[i], d)
    requires calls || (StillMapped(trace[i], c) && StillMapped(trace[i], d))
    ensures trace[i].calls[c].node == trace[i].calls[d].node
    ensures trace[i].obj.holder == Some(trace[i].calls[c].node) && trace[i].now < trace[i].obj.expiry
  {
    AdmittedIsHolder(trace, steps, i, calls, c);
    AdmittedIsHolder(trace, steps, i, calls, d);
  }

  lemma AdmittedIsHolder(trace: seq<State>, steps: seq<Step>, i: nat, calls: bool, c: CallId)
    requires IsRun(trace, steps) && Orderly(trace, steps, calls) && i < |trace|
    requires WouldAdmit(trace[i], c) && (calls || StillMapped(trace[i], c))
    ensures trace[i].obj.holder == Some(trace[i].calls[c].node) && trace[i].now < trace[i].obj.expiry
  {
    RunKeepsInv(trace, steps, i, calls);
    var s := trace[i];
    assert CallOk(s, s.calls[c]) && Waits(s, c, s.calls[c].ts);
    assert Claims(s, s.calls[c].ts, calls);
  }

  /** A call that nothing comes between answers at once whether the node is primary. */
  lemma UninterruptedCall(s: State, c: CallId, n: NodeId)
    requires ShapeOk(s) && c !in s.calls
    ensures var s1 := Next(s, LookUp(c, n));
      if n in s.current then Enabled(s1, Read(c)) && Next(s1, Read(c)).calls[c] == Answered(n, Admits(s, n))
      else s1.calls[c] == Answered(n, false) && !Admits(s, n)
  {
  }

  /** In every run, a tenantState is primary exactly when it has a lease recorded. */
  lemma PrimaryIffLease(trace: seq<State>, steps: seq<Step>, i: nat, ts: TsId)
    requires IsRun(trace, steps) && i < |trace| && ts in trace[i].tenants
    ensures trace[i].tenants[ts].isPrimary <==> trace[i].tenants[ts].lease.Some?
  {
    RunKeepsShape(trace, steps, i);
    assert TenantOk(trace[i], ts);
  }

  lemma {:induction false} DeadForEver(trace: seq<State>, steps: seq<Step>, i: nat, j: nat, ts: TsId)
    requires IsRun(trace, steps) && i <= j < |trace| && ts in trace[i].tenants && trace[i].tenants[ts].stage.Dead?
    ensures ts in trace[j].tenants && trace[j].tenants[ts].stage.Dead?
    decreases j
  {
    if i < j {
      DeadForEver(trace, steps, i, j - 1, ts);
      RunKeepsShape(trace, steps, j - 1);
      assert trace[j] == Next(trace[j - 1], steps[j - 1]);
      StaysDead(trace[j - 1], steps[j - 1], ts);
    }
  }

  lemma StaysDead(s: State, step: Step, ts: TsId)
    requires ShapeOk(s) && Enabled(s, step) && ts in s.tenants && s.tenants[ts].stage.Dead?
    ensures ts in Next(s, step).tenants && Next(s, step).tenants[ts].stage.Dead?
  {
  }

  /** In every run: when a node releases the lease of a tenantState, and ever after, that
      tenantState is out of the map, so that no call can find it. If the node still admits, it is
      through another one, activated since. */
  lemma StopsBeforeRelease(trace: seq<State>, steps: seq<Step>, i: nat, j: nat, n: NodeId)
    requires IsRun(trace, steps) && i < |steps| && steps[i].Release? && i <= j < |trace|
    ensures var ts := steps[i].ts;
      && ts in trace[j].tenants && trace[j].tenants[ts].stage.Dead?
      && (n in trace[j].current ==> trace[j].current[n] != ts)
  {
    var ts := steps[i].ts;
    RunKeepsShape(trace, steps, i);
    RunKeepsShape(trace, steps, j);
    assert TenantOk(trace[i], ts);
    DeadForEver(trace, steps, i, j, ts);
  }

  /** A release leaves every claim backed exactly when it is quiet: no newer tenantState of the
      node claims the lease and, with `calls`, no call is still to read an old one that does. */
  lemma ReleaseBackedIff(s: State, step: Step, calls: bool)
    requires Inv(s, calls) && Enabled(s, step) && step.Release? && !step.fails
    ensures ClaimsOk(Next(s, step), calls) <==> Quiet(s, step, calls)
  {
    if Quiet(s, step, calls) {
      ClaimsKept(s, step, calls);
    } else {
      var ts :| Claims(s, ts, calls) && s.tenants[ts].node == s.tenants[step.ts].node;
      assert TenantOk(s, step.ts) && Backed(s, s.tenants[ts]);
      if Watched(s, ts) {
        var c :| Waits(s, c, ts);
        assert Waits(Next(s, step), c, ts);
      }
      assert Claims(Next(s, step), ts, calls);
    }
  }

  lemma StepKeepsInv(s: State, step: Step, calls: bool)
    requires Inv(s, calls) && Enabled(s, step) && Timely(s, step, calls) && Quiet(s, step, calls)
    ensures Inv(Next(s, step), calls)
  {
    ShapeKept(s, step);
    ClaimsKept(s, step, calls);
  }

  // ---- one attempt, undisturbed ----

  /** attemptLease from start to finish. */
  function Attempt(t: Tenant, obj: LeaseObj, now: int, ttl: int): (Tenant, LeaseObj) {
    var t1 := Begun(t);
    var (t2, o2) := if t1.phase.Renewing? then RenewCall(t1, obj, now, ttl, false) else (t1, obj);
    var (t3, o3) := if t2.phase.Acquiring? then AcquireCall(t2, o2, now, ttl, false) else (t2, o2);
    (Recorded(t3), o3)
  }

  /** An undisturbed attempt makes the node primary exactly when nobody holds the lease, the node
      itself does, or it has run out; a loser learns who holds it. */
  lemma AttemptWinsIff(t: Tenant, obj: LeaseObj, now: int, ttl: int)
    requires t.lease.Some? <==> t.isPrimary
    ensures var (t', obj') := Attempt(t, obj, now, ttl);
      && (t'.isPrimary <==> obj.holder.None? || obj.holder == Some(t.node) || now >= obj.expiry)
      && (t'.isPrimary ==> obj'.holder == Some(t.node) && obj'.expiry == now + ttl
                           && t'.lease == Some(Grant(obj'.generation, now + ttl, t.node)) && t'.ownerHint.None?)
      && (t'.isPrimary ==>
            obj'.generation == obj.generation + (if t.lease.Some? && obj.holder == Some(t.node) then 0 else 1))
      && (!t'.isPrimary ==> obj' == obj && t'.lease.None? && t'.ownerHint == obj.holder)
  {
  }

  /** An attempt that cannot reach the lease leaves the node without it, whatever it held before. */
  lemma FailedAttemptDemotes(t: Tenant, obj: LeaseObj, now: int, ttl: int)
    ensures var t1 := Begun(t);
      var (t2, o2) := if t.lease.Some? then RenewCall(t1, obj, now, ttl, true) else (t1, obj);
      var (t3, o3) := AcquireCall(t2, o2, now, ttl, true);
      && t2.phase.Acquiring? && t3.phase.Refused? && o3 == obj
      && !Recorded(t3).isPrimary && Recorded(t3).lease.None? && Recorded(t3).ownerHint == t.ownerHint
  {
  }
}
