/** One node's tenant map and its use of the leaser, each operation run without interruption. */
module Replication {
  import opened Options
  import opened Lease

  type Logical = string

  datatype Entry = Entry(tenant: Tenant, lastUsed: int)

  /** What may go wrong while a tenant is set up: before the replica is registered, in registering
      it, or in building its leaser. */
  datatype Fault = RestoreFails | RegisterFails | LeaserFails

  datatype PrimaryError = NotActive | NotPrimary(owner: Option<NodeId>)

  /** The object store the nodes contend in: one lease object a tenant, absent until first taken. */
  class LeaseStore {
    var objs: map<Logical, LeaseObj>

    constructor ()
      ensures objs == map[]
    {
      objs := map[];
    }

    function Obj(l: Logical): LeaseObj
      reads this
    {
      ObjIn(objs, l)
    }

    method AcquireLease(l: Logical, owner: NodeId, now: int, ttl: int) returns (r: Result<Grant, Option<NodeId>>)
      modifies this
      ensures r.Ok? <==>
        old(Obj(l)).holder.None? || old(Obj(l)).holder == Some(owner) || now >= old(Obj(l)).expiry
      ensures r.Ok? ==>
        objs == old(objs)[l := LeaseObj(Some(owner), now + ttl, old(Obj(l)).generation + 1)] &&
        r.value == Grant(old(Obj(l)).generation + 1, now + ttl, owner)
      ensures r.Err? ==> objs == old(objs) && r.error == Obj(l).holder
    {
      var obj := Obj(l);
      if obj.holder.Some? && now < obj.expiry && obj.holder.value != owner {
        return Err(obj.holder);
      }
      objs := objs[l := LeaseObj(Some(owner), now + ttl, obj.generation + 1)];
      r := Ok(Grant(obj.generation + 1, now + ttl, owner));
    }

    method RenewLease(l: Logical, owner: NodeId, now: int, ttl: int) returns (r: Result<Grant, ()>)
      modifies this
      ensures old(Obj(l)).holder == Some(owner) ==>
        objs == old(objs)[l := LeaseObj(Some(owner), now + ttl, old(Obj(l)).generation)] &&
        r == Ok(Grant(old(Obj(l)).generation, now + ttl, owner))
      ensures old(Obj(l)).holder != Some(owner) ==> objs == old(objs) && r == Err(())
    {
      var obj := Obj(l);
      if obj.holder != Some(owner) {
        return Err(());
      }
      objs := objs[l := obj.(expiry := now + ttl)];
      r := Ok(Grant(obj.generation, now + ttl, owner));
    }

    method ReleaseLease(l: Logical, owner: NodeId)
      modifies this
      ensures forall m :: ObjIn(objs, m) == if m == l then Released(old(Obj(l)), owner) else old(ObjIn(objs, m))
      ensures Obj(l) == if old(Obj(l)).holder == Some(owner) then old(Obj(l)).(holder := None) else old(Obj(l))
    {
      if Obj(l).holder == Some(owner) {
        objs := objs[l := Obj(l).(holder := None)];
      }
    }
  }

  function ObjIn(objs: map<Logical, LeaseObj>, l: Logical): LeaseObj {
    if l in objs then objs[l] else LeaseObj(None, 0, 0)
  }

  /** Exactly the lease objects of `released` have been released by `owner`. */
  ghost predicate ReleasedOnly(objs: map<Logical, LeaseObj>, objs': map<Logical, LeaseObj>, released: set<Logical>,
                               owner: NodeId) {
    forall l :: ObjIn(objs', l) == if l in released then Released(ObjIn(objs, l), owner) else ObjIn(objs, l)
  }

  /** Those of `ids` that are primary. */
  function Primaries(tenants: map<Logical, Entry>, ids: set<Logical>): set<Logical> {
    set l | l in ids && l in tenants && tenants[l].tenant.isPrimary
  }

  class Node {
    const name: NodeId
    const ttl: int
    const idleTTL: int
    var tenants: map<Logical, Entry>
    var registered: set<Logical>  // replicated by the store
    var renewing: set<Logical>    // with a running renewal loop

    constructor (name: NodeId, ttl: int, idleTTL: int)
      ensures this.name == name && this.ttl == ttl && this.idleTTL == idleTTL && tenants == map[]
      ensures Valid()
    {
      this.name, this.ttl, this.idleTTL, tenants := name, ttl, idleTTL, map[];
      registered, renewing := {}, {};
    }

    /** Each active tenant, and no other, is replicated and has its renewal loop. */
    ghost predicate Valid()
      reads this
    {
      && registered == tenants.Keys && renewing == tenants.Keys
      && forall l | l in tenants :: var t := tenants[l].tenant;
        t.node == name && (t.lease.Some? <==> t.isPrimary) && t.phase.Resting? && t.stage.Active? && t.closing.Open?
    }

    /** attemptLease: renew what is recorded, else (or when that fails) acquire, then record. */
    method AttemptLease(store: LeaseStore, l: Logical, t: Tenant, now: int) returns (t': Tenant)
      requires t.node == name
      modifies store
      ensures t' == Attempt(t, old(store.Obj(l)), now, ttl).0
      ensures store.objs == old(store.objs) || store.objs == old(store.objs)[l := store.Obj(l)]
      ensures store.Obj(l) == Attempt(t, old(store.Obj(l)), now, ttl).1
    {
      t' := Begun(t);
      var renewed: Result<Grant, ()> := Err(());
      if t.lease.Some? {
        renewed := store.RenewLease(l, name, now, ttl);
      }
      var outcome: Phase;
      if renewed.Ok? {
        outcome := Got(renewed.value);
      } else {
        var acquired := store.AcquireLease(l, name, now, ttl);
        outcome := if acquired.Ok? then Got(acquired.value) else Refused(acquired.error);
      }
      t' := Recorded(t'.(phase := outcome));
    }

    /** EnsureActive: a known tenant has its idle clock reset; a new one attempts its lease before
        it lands in the map, so that RequirePrimary answers with a real outcome. A fault while it
        is set up leaves no trace. */
    method EnsureActive(store: LeaseStore, l: Logical, now: int, fault: Option<Fault>) returns (r: Result<(), Fault>)
      requires Valid()
      modifies this, store
      ensures Valid()
      ensures r.Ok? <==> l in old(tenants) || fault.None?
      ensures r.Err? ==> fault == Some(r.error) && tenants == old(tenants) && store.objs == old(store.objs)
      ensures r.Ok? ==> l in tenants && tenants[l].lastUsed == now && tenants == old(tenants)[l := tenants[l]]
      ensures l in old(tenants) ==> tenants[l].tenant == old(tenants)[l].tenant && store.objs == old(store.objs)
      ensures r.Ok? && l !in old(tenants) ==>
        (tenants[l].tenant.isPrimary <==> (var obj := old(store.Obj(l));
           obj.holder.None? || obj.holder == Some(name) || now >= obj.expiry))
      ensures r.Ok? && l !in old(tenants) && !tenants[l].tenant.isPrimary ==>
        tenants[l].tenant.ownerHint == old(store.Obj(l)).holder && tenants[l].tenant.ownerHint.Some?
      ensures forall m | m != l :: ObjIn(store.objs, m) == old(ObjIn(store.objs, m))
    {
      if l in tenants {
        tenants := tenants[l := tenants[l].(lastUsed := now)];
        return Ok(());
      }
      if fault.Some? && !fault.value.LeaserFails? {
        return Err(fault.value);
      }
      registered := registered + {l};
      if fault.Some? {
        registered := registered - {l};
        return Err(fault.value);
      }
      var t := NewTenant(name);
      AttemptWinsIff(t, store.Obj(l), now, ttl);
      t := AttemptLease(store, l, t, now);
      renewing := renewing + {l};
      tenants := tenants[l := Entry(t.(stage := Active), now)];
      r := Ok(());
    }

    /** RequirePrimary, not interrupted between its two locks. */
    method RequirePrimary(l: Logical) returns (r: Result<(), PrimaryError>)
      ensures r.Ok? <==> l in tenants && tenants[l].tenant.isPrimary
      ensures r.Err? ==> r.error == if l in tenants then NotPrimary(tenants[l].tenant.ownerHint) else NotActive
    {
      if l !in tenants {
        return Err(NotActive);
      }
      if !tenants[l].tenant.isPrimary {
        return Err(NotPrimary(tenants[l].tenant.ownerHint));
      }
      r := Ok(());
    }

    /** deactivate: out of the map first, then its loop is stopped, the recorded lease released and
        the replica unregistered. */
    method Deactivate(store: LeaseStore, l: Logical)
      requires Valid()
      modifies this, store
      ensures Valid() && tenants == old(tenants) - {l}
      ensures ReleasedOnly(old(store.objs), store.objs, Primaries(old(tenants), {l}), name)
    {
      if l !in tenants {
        return;
      }
      var t := tenants[l].tenant;
      tenants := tenants - {l};
      renewing := renewing - {l};
      if t.lease.Some? {
        store.ReleaseLease(l, name);
      }
      registered := registered - {l};
    }

    /** sweep: deactivates exactly the tenants idle past the TTL, releasing exactly their leases. */
    method Sweep(store: LeaseStore, now: int)
      requires Valid()
      modifies this, store
      ensures Valid()
      ensures forall l :: l in tenants <==> l in old(tenants) && old(tenants)[l].lastUsed >= now - idleTTL
      ensures forall l | l in tenants :: tenants[l] == old(tenants)[l]
      ensures ReleasedOnly(old(store.objs), store.objs,
                           Primaries(old(tenants), set l | l in old(tenants) && IdleAt(old(tenants)[l], now)), name)
    {
      ghost var before, objs := tenants, store.objs;
      var stale := set l | l in tenants && IdleAt(tenants[l], now);
      while stale != {}
        invariant Valid() && stale <= before.Keys
        invariant forall l | l in stale :: IdleAt(before[l], now)
        invariant forall l :: l in tenants <==> l in before && (l in stale || !IdleAt(before[l], now))
        invariant forall l | l in tenants :: tenants[l] == before[l]
        invariant ReleasedOnly(objs, store.objs,
                               Primaries(before, set l | l in before && IdleAt(before[l], now) && l !in stale), name)
      {
        var l :| l in stale;
        Deactivate(store, l);
        stale := stale - {l};
      }
      assert tenants == map l | l in before && !IdleAt(before[l], now) :: before[l];
    }

    predicate IdleAt(e: Entry, now: int) {
      e.lastUsed < now - idleTTL
    }
  }
}
