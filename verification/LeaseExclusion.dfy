/** What a lease release must not come between: exactly when mutual exclusion survives it. */
module LeaseExclusion {
  import opened Options
  import opened Lease

  /** `s'` is reached from `s` by the steps, each enabled, timely and quiet. */
  ghost predicate Leads(s: State, steps: seq<Step>, s': State, calls: bool)
    decreases |steps|
  {
    if steps == [] then s == s'
    else
      Enabled(s, steps[0]) && Timely(s, steps[0], calls) && Quiet(s, steps[0], calls) &&
      Leads(Next(s, steps[0]), steps[1..], s', calls)
  }

  lemma {:induction false} LeadsConcat(s: State, a: seq<Step>, t: State, b: seq<Step>, u: State, calls: bool)
    requires Leads(s, a, t, calls) && Leads(t, b, u, calls)
    ensures Leads(s, a + b, u, calls)
    decreases |a|
  {
    if a == [] {
      assert a + b == b;
    } else {
      assert (a + b)[1..] == a[1..] + b && (a + b)[0] == a[0];
      LeadsConcat(Next(s, a[0]), a[1..], t, b, u, calls);
    }
  }

  /** A step that is neither time passing nor a release is always timely and quiet. */
  predicate Inward(step: Step) {
    !step.Tick? && !step.Release?
  }

  lemma LeadsOn(s: State, steps: seq<Step>, t: State, step: Step, calls: bool) returns (steps': seq<Step>, t': State)
    requires Leads(s, steps, t, calls) && Enabled(t, step) && Inward(step)
    ensures steps' == steps + [step] && t' == Next(t, step) && Leads(s, steps', t', calls)
  {
    steps', t' := steps + [step], Next(t, step);
    assert [step][1..] == [];
    assert Leads(t', [], t', calls);
    assert Leads(t, [step], t', calls);
    LeadsConcat(s, steps, t, [step], t', calls);
  }

  lemma {:induction false} LeadsKeepsInv(s: State, steps: seq<Step>, s': State, calls: bool)
    requires Inv(s, calls) && Leads(s, steps, s', calls)
    ensures Inv(s', calls)
    decreases |steps|
  {
    if steps != [] {
      StepKeepsInv(s, steps[0], calls);
      LeadsKeepsInv(Next(s, steps[0]), steps[1..], s', calls);
    }
  }

  // ---- when exclusion fails ----

  /** The call would return nil, and is one that counts. */
  ghost predicate Counts(s: State, c: CallId, calls: bool) {
    WouldAdmit(s, c) && (calls || StillMapped(s, c))
  }

  /** Calls on two nodes would both return nil. */
  ghost predicate Clash(s: State, calls: bool) {
    exists c, d :: Clashing(s, c, d, calls)
  }

  ghost predicate Clashing(s: State, c: CallId, d: CallId, calls: bool) {
    Counts(s, c, calls) && Counts(s, d, calls) && s.calls[c].node != s.calls[d].node
  }

  /** No timely and quiet continuation comes to a clash. */
  ghost predicate Exclusive(s: State, calls: bool) {
    forall steps, s' | Leads(s, steps, s', calls) :: !Clash(s', calls)
  }

  lemma InvExcludes(s: State, calls: bool)
    requires Inv(s, calls)
    ensures !Clash(s, calls)
  {
    forall c, d ensures !Clashing(s, c, d, calls) {
      if Counts(s, c, calls) && Counts(s, d, calls) {
        CountedIsHolder(s, c, calls);
        CountedIsHolder(s, d, calls);
      }
    }
  }

  lemma CountedIsHolder(s: State, c: CallId, calls: bool)
    requires Inv(s, calls) && Counts(s, c, calls)
    ensures s.obj.holder == Some(s.calls[c].node)
  {
    assert CallOk(s, s.calls[c]) && Waits(s, c, s.calls[c].ts);
    assert Claims(s, s.calls[c].ts, calls);
  }

  // ---- from a claim to a call that admits ----

  lemma FreshTs(tenants: map<TsId, Tenant>) returns (ts: TsId)
    ensures ts !in tenants
  {
    ts := Above(tenants.Keys);
  }

  lemma FreshCall(calls: map<CallId, Call>) returns (c: CallId)
    ensures c !in calls
  {
    c := Above(calls.Keys);
  }

  lemma {:induction false} Above(ids: set<nat>) returns (top: nat)
    ensures forall i | i in ids :: i < top
    decreases |ids|
  {
    top := 0;
    if ids != {} {
      var i :| i in ids;
      var rest := Above(ids - {i});
      top := if rest > i then rest else i + 1;
      forall j | j in ids ensures j < top {
        assert j == i || j in ids - {i};
      }
    }
  }

  /** The tenantState `u` can be brought to admit through a call, whatever stage it is at. */
  lemma ClaimAdmits(s: State, u: TsId, calls: bool) returns (steps: seq<Step>, t: State, c: CallId)
    requires ShapeOk(s) && Claims(s, u, calls)
    ensures Leads(s, steps, t, calls) && ShapeOk(t) && t.obj == s.obj && t.now == s.now
    ensures Counts(t, c, calls) && t.calls[c].node == s.tenants[u].node
  {
    steps, t := [], s;
    assert TenantOk(s, u);
    if s.tenants[u].phase.Got? {
      steps, t := LeadsOn(s, [], s, Record(u), calls);
      ShapeKept(s, Record(u));
      assert Waits(t, 0, u) <==> Waits(s, 0, u);
    }
    if s.tenants[u].stage.Dead? {
      c :| Waits(s, c, u);
    } else {
      var more;
      more, t, c := LiveAdmits(t, u, calls);
      LeadsConcat(s, steps, if s.tenants[u].phase.Got? then Next(s, Record(u)) else s, more, t, calls);
      steps := steps + more;
    }
  }

  lemma LiveAdmits(s: State, u: TsId, calls: bool) returns (steps: seq<Step>, t: State, c: CallId)
    requires ShapeOk(s) && u in s.tenants && s.tenants[u].isPrimary && !s.tenants[u].stage.Dead?
    ensures Leads(s, steps, t, calls) && ShapeOk(t) && t.obj == s.obj && t.now == s.now
    ensures Counts(t, c, calls) && t.calls[c].node == s.tenants[u].node
  {
    steps, t := [], s;
    assert TenantOk(s, u);
    if s.tenants[u].stage.Starting? {
      steps, t := Landed(s, u, calls);
    }
    c := FreshCall(t.calls);
    var n := s.tenants[u].node;
    ShapeKept(t, LookUp(c, n));
    steps, t := LeadsOn(s, steps, t, LookUp(c, n), calls);
  }

  /** A tenantState still being set up lands in the map, in place of one that was there. */
  lemma Landed(s: State, u: TsId, calls: bool) returns (steps: seq<Step>, t: State)
    requires ShapeOk(s) && u in s.tenants && s.tenants[u].isPrimary && s.tenants[u].stage.Starting?
    ensures Leads(s, steps, t, calls) && ShapeOk(t) && t.obj == s.obj && t.now == s.now && t.calls == s.calls
    ensures var n := s.tenants[u].node;
      n in t.current && t.current[n] == u && u in t.tenants && t.tenants[u].isPrimary && t.tenants[u].node == n
  {
    steps, t := [], s;
    var n := s.tenants[u].node;
    assert TenantOk(s, u);
    if n in s.current {
      ShapeKept(s, Remove(n));
      steps, t := LeadsOn(s, [], s, Remove(n), calls);
    }
    ShapeKept(t, Install(u));
    steps, t := LeadsOn(s, steps, t, Install(u), calls);
  }

  /** While nobody holds the lease, any node can be brought to admit through a call. */
  lemma AnyAdmits(s: State, m: NodeId, calls: bool, c: CallId) returns (steps: seq<Step>, t: State, d: CallId)
    requires ShapeOk(s) && s.obj.holder.None? && Counts(s, c, calls) && s.calls[c].node != m
    ensures Leads(s, steps, t, calls) && Clashing(t, c, d, calls)
    ensures t.calls[c] == s.calls[c] && t.calls[d].node == m
  {
    steps, t := [], s;
    if m in s.current {
      ShapeKept(s, Remove(m));
      steps, t := LeadsOn(s, [], s, Remove(m), calls);
      StillCounts(s, Remove(m), c, calls);
    }
    var t0, more := t, [];
    var w := FreshTs(t0.tenants);
    more, t := AcquireAnew(t0, w, m, calls, c);
    LeadsConcat(s, steps, t0, more, t, calls);
    steps := steps + more;
    d := FreshCall(t.calls);
    var t1 := t;
    steps, t := LeadsOn(s, steps, t1, LookUp(d, m), calls);
  }

  lemma StillCounts(s: State, step: Step, c: CallId, calls: bool)
    requires ShapeOk(s) && Enabled(s, step) && Counts(s, c, calls)
    requires step.Remove? && step.node != s.calls[c].node
    ensures Counts(Next(s, step), c, calls) && Next(s, step).calls == s.calls
  {
    assert CallOk(s, s.calls[c]);
  }

  lemma AcquireAnew(s: State, w: TsId, m: NodeId, calls: bool, c: CallId) returns (steps: seq<Step>, t: State)
    requires ShapeOk(s) && s.obj.holder.None? && w !in s.tenants && m !in s.current
    requires Counts(s, c, calls) && s.calls[c].node != m
    ensures Leads(s, steps, t, calls) && Counts(t, c, calls) && t.calls == s.calls
    ensures m in t.current && t.current[m] in t.tenants && t.tenants[t.current[m]].isPrimary
  {
    steps := [Create(w, m), CallAcquire(w, false), Record(w), Install(w)];
    t := Activate(s, w, m, calls);
  }

  /** A release that is not quiet breaks exclusion: from there steps that are timely and quiet lead
      to a clash between the releasing node and any other node there is. */
  lemma OverlapBreaksExclusion(s: State, ts: TsId, m: NodeId, calls: bool)
      returns (steps: seq<Step>, t: State, c: CallId, d: CallId)
    requires Inv(s, calls) && Enabled(s, Release(ts, false)) && !Quiet(s, Release(ts, false), calls)
    requires m != s.tenants[ts].node
    ensures Leads(Next(s, Release(ts, false)), steps, t, calls) && Clashing(t, c, d, calls)
    ensures t.calls[c].node == s.tenants[ts].node && t.calls[d].node == m
  {
    var step := Release(ts, false);
    var s1 := Next(s, step);
    var u :| Claims(s, u, calls) && s.tenants[u].node == s.tenants[ts].node;
    ShapeKept(s, step);
    ClaimOutlives(s, ts, u, calls);
    var t1, more, t2;
    steps, t1, c := ClaimAdmits(s1, u, calls);
    more, t2, d := AnyAdmits(t1, m, calls, c);
    LeadsConcat(s1, steps, t1, more, t2, calls);
    steps, t := steps + more, t2;
  }

  lemma ClaimOutlives(s: State, ts: TsId, u: TsId, calls: bool)
    requires Inv(s, calls) && Enabled(s, Release(ts, false)) && Claims(s, u, calls)
    requires s.tenants[u].node == s.tenants[ts].node
    ensures var s1 := Next(s, Release(ts, false));
      s1.obj.holder.None? && Claims(s1, u, calls) && s1.tenants[u].node == s.tenants[u].node
  {
    assert Backed(s, s.tenants[u]);
    if Watched(s, u) {
      var c :| Waits(s, c, u);
      assert Waits(Next(s, Release(ts, false)), c, u);
    }
  }

  /** After a release no continuation that is timely and quiet comes to a clash if and only if the
      release was quiet itself, or failed. */
  lemma ReleaseSafeIff(s: State, step: Step, calls: bool)
    requires Inv(s, calls) && Enabled(s, step) && step.Release?
    ensures Exclusive(Next(s, step), calls) <==> Quiet(s, step, calls) || step.fails
  {
    if step.fails {
      FailedKeepsInv(s, step, calls);
      InvIsExclusive(Next(s, step), calls);
    } else if Quiet(s, step, calls) {
      StepKeepsInv(s, step, calls);
      InvIsExclusive(Next(s, step), calls);
    } else {
      var steps, t, c, d := OverlapBreaksExclusion(s, step.ts, s.tenants[step.ts].node + "x", calls);
    }
  }

  lemma InvIsExclusive(s: State, calls: bool)
    requires Inv(s, calls)
    ensures Exclusive(s, calls)
  {
    forall steps, s' | Leads(s, steps, s', calls) ensures !Clash(s', calls) {
      LeadsKeepsInv(s, steps, s', calls);
      InvExcludes(s', calls);
    }
  }

  lemma FailedKeepsInv(s: State, step: Step, calls: bool)
    requires Inv(s, calls) && Enabled(s, step) && step.Release? && step.fails
    ensures Inv(Next(s, step), calls)
  {
    var s' := Next(s, step);
    ShapeKept(s, step);
    forall ts | Claims(s', ts, calls) ensures Backed(s', s'.tenants[ts]) {
      if Watched(s', ts) {
        var c :| Waits(s', c, ts);
        assert Waits(s, c, ts);
      }
      assert Claims(s, ts, calls);
    }
  }

  // ---- taking over ----

  /** Once the lease has run out, whoever held it and whatever became of that node, any node that
      activates becomes primary. */
  lemma ExpiredIsTaken(s: State, to: int, ts: TsId, m: NodeId, calls: bool) returns (t: State)
    requires s.now <= to && s.obj.expiry <= to && ts !in s.tenants && m !in s.current
    ensures Enabled(s, Tick(to))
    ensures Leads(Next(s, Tick(to)), [Create(ts, m), CallAcquire(ts, false), Record(ts), Install(ts)], t, calls)
    ensures Admits(t, m) && t.obj == LeaseObj(Some(m), to + s.ttl, s.obj.generation + 1)
  {
    t := Activate(Next(s, Tick(to)), ts, m, calls);
  }

  /** A node that is active already takes it with its next attempt. */
  lemma ExpiredIsRenewed(s: State, to: int, m: NodeId, calls: bool) returns (steps: seq<Step>, t: State)
    requires ShapeOk(s) && s.now <= to && s.obj.expiry <= to && m in s.current
    requires s.tenants[s.current[m]].phase.Resting? && !s.tenants[s.current[m]].isPrimary
    ensures Enabled(s, Tick(to)) && Leads(Next(s, Tick(to)), steps, t, calls)
    ensures var u := s.current[m]; steps == [Begin(u), CallAcquire(u, false), Record(u)]
    ensures Admits(t, m) && t.obj == LeaseObj(Some(m), to + s.ttl, s.obj.generation + 1)
  {
    var s1, u := Next(s, Tick(to)), s.current[m];
    assert TenantOk(s, u);
    steps, t := LeadsOn(s1, [], s1, Begin(u), calls);
    steps, t := LeadsOn(s1, steps, t, CallAcquire(u, false), calls);
    steps, t := LeadsOn(s1, steps, t, Record(u), calls);
  }

  // ---- runs from the start ----

  /** The tenantState an undisturbed EnsureActive leaves behind. */
  function Activated(s: State, n: NodeId): Tenant {
    var won := CanAcquire(s.obj, n, s.now);
    Tenant(n, if won then Some(GrantOf(Acquired(s.obj, n, s.now, s.ttl), n)) else None, won,
           if won then None else s.obj.holder, Resting, true, Active, Open)
  }

  lemma Activate(s: State, ts: TsId, n: NodeId, calls: bool) returns (s': State)
    requires ts !in s.tenants && n !in s.current
    ensures Leads(s, [Create(ts, n), CallAcquire(ts, false), Record(ts), Install(ts)], s', calls)
    ensures s' == s.(tenants := s.tenants[ts := Activated(s, n)], current := s.current[n := ts],
                     obj := if CanAcquire(s.obj, n, s.now) then Acquired(s.obj, n, s.now, s.ttl) else s.obj)
  {
    var steps, t := Asked(s, ts, n, calls);
    steps, t := LeadsOn(s, steps, t, Record(ts), calls);
    steps, s' := LeadsOn(s, steps, t, Install(ts), calls);
    assert steps == [Create(ts, n), CallAcquire(ts, false), Record(ts), Install(ts)];
    assert s'.tenants == s.tenants[ts := Activated(s, n)];
  }

  lemma Asked(s: State, ts: TsId, n: NodeId, calls: bool) returns (steps: seq<Step>, t: State)
    requires ts !in s.tenants && n !in s.current
    ensures steps == [Create(ts, n), CallAcquire(ts, false)] && Leads(s, steps, t, calls)
    ensures var (tenant, obj) := AcquireCall(NewTenant(n), s.obj, s.now, s.ttl, false);
      t == s.(tenants := s.tenants[ts := tenant], obj := obj)
  {
    steps, t := LeadsOn(s, [], s, Create(ts, n), calls);
    steps, t := LeadsOn(s, steps, t, CallAcquire(ts, false), calls);
  }

  /** Deactivation up to the point where the lease is about to be released. */
  lemma Deactivating(s: State, n: NodeId) returns (s': State)
    requires ShapeOk(s) && Admits(s, n)
    ensures Leads(s, [Remove(n), ReadLease(s.current[n])], s', false)
    ensures var ts := s.current[n];
      s' == s.(current := s.current - {n},
               tenants := s.tenants[ts := s.tenants[ts].(stage := Dead, closing := Releasing)])
  {
    var ts := s.current[n];
    assert TenantOk(s, ts);
    var steps, t := LeadsOn(s, [], s, Remove(n), false);
    steps, s' := LeadsOn(s, steps, t, ReadLease(ts), false);
    assert steps == [Remove(n), ReadLease(ts)];
    assert s'.tenants == s.tenants[ts := s.tenants[ts].(stage := Dead, closing := Releasing)];
  }

  lemma InitInv(s: State)
    requires Init(s)
    ensures Inv(s, false)
  {
  }

  /** A release that is not quiet is reached from the start, in no time at all: `n` activates, is
      removed and reads its lease, and activates again before releasing it. */
  lemma OverlapIsReachable(s: State, n: NodeId) returns (s1: State, s2: State, t: State)
    requires Init(s)
    ensures
      && Leads(s, [Create(1, n), CallAcquire(1, false), Record(1), Install(1)], s1, false)
      && Leads(s1, [Remove(n), ReadLease(1)], s2, false)
      && Leads(s2, [Create(2, n), CallAcquire(2, false), Record(2), Install(2)], t, false)
    ensures Inv(t, false) && Enabled(t, Release(1, false)) && !Quiet(t, Release(1, false), false)
  {
    InitInv(s);
    s1 := Activate(s, 1, n, false);
    LeadsKeepsInv(s, [Create(1, n), CallAcquire(1, false), Record(1), Install(1)], s1, false);
    s2 := Deactivating(s1, n);
    LeadsKeepsInv(s1, [Remove(n), ReadLease(1)], s2, false);
    t := Activate(s2, 2, n, false);
    LeadsKeepsInv(s2, [Create(2, n), CallAcquire(2, false), Record(2), Install(2)], t, false);
    assert Claims(t, 2, false);
  }

  /** Timely steps and quiet releases do not save a call whose tenantState has left the map: `n`
      activates, a call finds it, `n` deactivates altogether and `m` becomes primary; the call
      then returns nil on `n`. */
  lemma StaleCallIsReachable(s: State, n: NodeId, m: NodeId)
      returns (s1: State, s2: State, s3: State, s4: State, t: State)
    requires Init(s) && n != m
    ensures
      && Leads(s, [Create(1, n), CallAcquire(1, false), Record(1), Install(1)], s1, false)
      && Leads(s1, [LookUp(0, n)], s2, false)
      && Leads(s2, [Remove(n), ReadLease(1)], s3, false)
      && Leads(s3, [Release(1, false)], s4, false)
      && Leads(s4, [Create(3, m), CallAcquire(3, false), Record(3), Install(3)], t, false)
    ensures t.obj.holder == Some(m) && Admits(t, m) && n !in t.current
    ensures Enabled(t, Read(0)) && Next(t, Read(0)).calls[0] == Answered(n, true)
  {
    s1, s2, s3, s4 := LeftBehind(s, n);
    t := Activate(s4, 3, m, false);
  }

  lemma LeftBehind(s: State, n: NodeId) returns (s1: State, s2: State, s3: State, s4: State)
    requires Init(s)
    ensures
      && Leads(s, [Create(1, n), CallAcquire(1, false), Record(1), Install(1)], s1, false)
      && Leads(s1, [LookUp(0, n)], s2, false)
      && Leads(s2, [Remove(n), ReadLease(1)], s3, false)
      && Leads(s3, [Release(1, false)], s4, false)
    ensures s4.current == map[] && s4.obj.holder.None? && s4.calls == map[0 := LookedUp(n, 1)]
    ensures s4.tenants.Keys == {1} && s4.tenants[1].isPrimary
  {
    InitInv(s);
    s1 := Activate(s, 1, n, false);
    LeadsKeepsInv(s, [Create(1, n), CallAcquire(1, false), Record(1), Install(1)], s1, false);
    var steps;
    steps, s2 := LeadsOn(s1, [], s1, LookUp(0, n), false);
    LeadsKeepsInv(s1, [LookUp(0, n)], s2, false);
    s3 := Deactivating(s2, n);
    s4 := ReleaseAlone(s3, n);
  }

  lemma ReleaseAlone(s: State, n: NodeId) returns (s': State)
    requires n !in s.current && s.tenants.Keys == {1} && s.tenants[1].node == n
    requires s.tenants[1].stage.Dead? && s.tenants[1].closing.Releasing?
    ensures Leads(s, [Release(1, false)], s', false)
    ensures s' == s.(tenants := s.tenants[1 := s.tenants[1].(closing := Open)], obj := Released(s.obj, n))
  {
    s' := Next(s, Release(1, false));
    assert [Release(1, false)][1..] == [];
    assert Leads(s', [], s', false);
  }
}
