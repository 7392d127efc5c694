/** The incrementally maintained edge table against its simple definition: resolve every link
    of every live memory by title. */
module StoreIndex {
  import opened Options
  import opened Text
  import opened Links
  import opened Store
  import opened StoreInvariant

  function AllKeys(live: map<Id, Memory>): (keys: set<EdgeKey>)
    ensures forall k :: k in keys <==> k.src in live && HasLink(live[k.src].content, k)
  {
    var keys := set id, l | id in live && l in Parse(live[id].content) :: EdgeKey(id, l.raw, l.rel);
    assert forall k: EdgeKey :: k.src in live && HasLink(live[k.src].content, k) ==>
      EdgeKey(k.src, Link(k.rel, k.raw).raw, Link(k.rel, k.raw).rel) == k && k in keys;
    keys
  }

  /** The definition the table is an index of. */
  ghost function Canon(live: map<Id, Memory>): Edges {
    map k | k in AllKeys(live) :: Holder(live, k.raw, k.src)
  }

  /** Every row resolves its text now, except those bound to a deleted memory. */
  ghost predicate Settled(s: State) {
    forall k | k in s.edges && !TombBound(s.tombs, s.edges, k) :: s.edges[k] == Holder(s.live, k.raw, k.src)
  }

  /** Every row with a live destination still carries that memory's name. */
  ghost predicate ByName(live: map<Id, Memory>, edges: Edges) {
    forall k | k in edges && edges[k].Some? && edges[k].value in live ::
      SqlFold(live[edges[k].value].title) == k.raw
  }

  lemma SettledIsByName(s: State)
    requires Inv(s)
    ensures Settled(s) <==> ByName(s.live, s.edges)
  {
    forall k | k in s.edges && !TombBound(s.tombs, s.edges, k)
      ensures s.edges[k] == Holder(s.live, k.raw, k.src) <==>
        (s.edges[k].Some? ==> SqlFold(s.live[s.edges[k].value].title) == k.raw)
    {
      LinkIsNorm(s.live[k.src].content, k);
      if s.edges[k].Some? {
        if SqlFold(s.live[s.edges[k].value].title) == k.raw {
          HolderUnique(s.live, k.raw, k.src, s.edges[k].value);
        }
      } else {
        assert forall d :: !Names(s.live, d, k.raw, k.src);
      }
    }
  }

  /** Without bindings to deleted memories, settled means equal to recomputation. */
  lemma SettledIsCanon(s: State)
    requires Inv(s)
    requires forall k | k in s.edges :: !TombBound(s.tombs, s.edges, k)
    ensures Settled(s) <==> s.edges == Canon(s.live)
  {
    assert s.edges.Keys == AllKeys(s.live);
  }

  // ---- exactly when one sync keeps the index settled ----

  /** Another memory's dangling row asks for `name`. */
  ghost predicate Wanted(edges: Edges, src: Id, name: string) {
    exists k :: k in edges && k.src != src && edges[k].None? && k.raw == name
  }

  lemma SyncByName(live: map<Id, Memory>, tombs: map<Id, Tombstone>, edges: Edges, src: Id)
    requires src in live && live.Keys !! tombs.Keys
    requires ByName(live, Without(edges, src))
    ensures ByName(live, SyncEdges(live, tombs, edges, src)) <==>
      Plain(live[src].title) || !Wanted(edges, src, NormalizeLink(live[src].title))
  {
    var name := NormalizeLink(live[src].title);
    var rest, edges' := Without(edges, src), SyncEdges(live, tombs, edges, src);
    if Plain(live[src].title) || !Wanted(edges, src, name) {
      forall k | k in edges' && edges'[k].Some? && edges'[k].value in live
        ensures SqlFold(live[edges'[k].value].title) == k.raw
      {
        if k.src != src {
          assert k in rest;
          assert edges'[k] == rest[k] || (rest[k].None? && k.raw == name && edges'[k] == Some(src));
        }
      }
    } else {
      var k :| k in edges && k.src != src && edges[k].None? && k.raw == name;
      assert k in rest;
      assert edges'[k] == Some(src);
    }
  }

  /** Other memories' rows into `id` still carry `title`. */
  ghost predicate InboundNamed(edges: Edges, id: Id, title: string) {
    forall k | k in edges && k.src != id && edges[k] == Some(id) :: SqlFold(title) == k.raw
  }

  lemma WrittenByName(live: map<Id, Memory>, tombs: map<Id, Tombstone>, edges: Edges, id: Id, m: Memory)
    requires live.Keys !! tombs.Keys && id !in tombs
    requires EdgesOk(live, tombs, edges, live.Keys) && ByName(live, edges)
    ensures ByName(live[id := m], SyncEdges(live[id := m], tombs, edges, id)) <==>
      InboundNamed(edges, id, m.title) && (Plain(m.title) || !Wanted(edges, id, NormalizeLink(m.title)))
  {
    if InboundNamed(edges, id, m.title) {
      OthersByName(live, edges, id, m);
      SyncByName(live[id := m], tombs, edges, id);
    } else {
      var k :| k in edges && k.src != id && edges[k] == Some(id) && SqlFold(m.title) != k.raw;
      MisnamedStays(live[id := m], tombs, edges, id, k);
    }
  }

  lemma OthersByName(live: map<Id, Memory>, edges: Edges, id: Id, m: Memory)
    requires ByName(live, edges) && InboundNamed(edges, id, m.title)
    ensures ByName(live[id := m], Without(edges, id))
  {
  }

  lemma MisnamedStays(live: map<Id, Memory>, tombs: map<Id, Tombstone>, edges: Edges, id: Id, k: EdgeKey)
    requires id in live && k in edges && k.src != id && edges[k] == Some(id) && SqlFold(live[id].title) != k.raw
    ensures !ByName(live, SyncEdges(live, tombs, edges, id))
  {
    assert k in Without(edges, id);
    assert SyncEdges(live, tombs, edges, id)[k] == Some(id);
  }

  /** Writing a row keeps the index settled exactly when no inbound row has another name and the
      new title is plain or nothing waits for it. */
  lemma WrittenSettledIff(s: State, id: Id, m: Memory, meta: Meta)
    requires Inv(s) && Settled(s) && Inv(Written(s, id, m, meta)) && id !in s.tombs
    ensures Settled(Written(s, id, m, meta)) <==>
      InboundNamed(s.edges, id, m.title) && (Plain(m.title) || !Wanted(s.edges, id, NormalizeLink(m.title)))
  {
    SettledIsByName(s);
    SettledIsByName(Written(s, id, m, meta));
    WrittenByName(s.live, s.tombs, s.edges, id, m);
  }

  function InsertedRow(step: Step): Memory
    requires step.InsertStep?
  {
    Memory(step.title, step.content, step.taxonomy, FormatOrDefault(step.format), step.meta.now, step.meta.now, 1)
  }

  /** An insert keeps the index settled exactly when its title is plain or nothing waits for it. */
  lemma InsertSettledIff(s: State, step: Step)
    requires Inv(s) && Settled(s) && Enabled(s, step) && step.InsertStep? && Try(s, step).Ok?
    ensures Settled(Apply(s, step)) <==>
      Plain(step.title) || !Wanted(s.edges, step.id, NormalizeLink(step.title))
  {
    StepKeepsInv(s, step);
    assert Apply(s, step) == Written(s, step.id, InsertedRow(step), step.meta);
    WrittenSettledIff(s, step.id, InsertedRow(step), step.meta);
    assert InboundNamed(s.edges, step.id, step.title);
  }

  /** An edit keeps the index settled exactly when, besides, no inbound row has another name. */
  lemma UpdateSettledIff(s: State, step: Step)
    requires Inv(s) && Settled(s) && Enabled(s, step) && step.UpdateStep? && Try(s, step).Ok?
    ensures var title := Applied(s.live[step.id], step.updates, step.meta.now).title;
      Settled(Apply(s, step)) <==>
        InboundNamed(s.edges, step.id, title) &&
        (Plain(title) || !Wanted(s.edges, step.id, NormalizeLink(title)))
  {
    StepKeepsInv(s, step);
    var m := Applied(s.live[step.id], step.updates, step.meta.now);
    assert Apply(s, step) == Written(s, step.id, m, step.meta);
    WrittenSettledIff(s, step.id, m, step.meta);
  }

  lemma DeleteSettled(s: State, step: Step)
    requires Inv(s) && Settled(s) && step.DeleteStep?
    ensures Settled(Apply(s, step))
  {
    DeleteKeepsInv(s, step);
    SettledIsByName(s);
    SettledIsByName(Apply(s, step));
  }

  // ---- rebuilding ----

  ghost predicate NoTombs(tombs: map<Id, Tombstone>, edges: Edges) {
    forall k | k in edges :: !TombBound(tombs, edges, k)
  }

  /** A link that healing and resolution would answer differently. */
  ghost predicate Ambiguous(live: map<Id, Memory>) {
    exists k, d :: Contested(live, k, d)
  }

  ghost predicate Contested(live: map<Id, Memory>, k: EdgeKey, d: Id) {
    && k in AllKeys(live) && d in live && d != k.src
    && NormalizeLink(live[d].title) == k.raw && Holder(live, k.raw, k.src).None?
  }

  lemma PlainIsUnambiguous(live: map<Id, Memory>)
    requires forall id | id in live :: Plain(live[id].title)
    ensures !Ambiguous(live)
  {
    forall k, d ensures !Contested(live, k, d) {
      assert d in live && d != k.src && NormalizeLink(live[d].title) == k.raw ==> Names(live, d, k.raw, k.src);
    }
  }

  lemma SyncNoTombs(live: map<Id, Memory>, tombs: map<Id, Tombstone>, edges: Edges, src: Id)
    requires src in live && live.Keys !! tombs.Keys && NoTombs(tombs, edges)
    ensures NoTombs(tombs, SyncEdges(live, tombs, edges, src))
  {
    var edges' := SyncEdges(live, tombs, edges, src);
    forall k | k in edges' ensures !TombBound(tombs, edges', k) {
      assert k.src != src ==> k in edges;
    }
  }

  lemma {:induction false} SyncAllNoTombs(live: map<Id, Memory>, tombs: map<Id, Tombstone>, edges: Edges,
                                          order: seq<Id>)
    requires live.Keys !! tombs.Keys && NoTombs(tombs, edges)
    requires forall id | id in order :: id in live
    ensures NoTombs(tombs, SyncAll(live, tombs, edges, order))
    decreases |order|
  {
    if order != [] {
      SyncNoTombs(live, tombs, edges, order[0]);
      SyncAllNoTombs(live, tombs, SyncEdges(live, tombs, edges, order[0]), order[1..]);
    }
  }

  lemma WantedIsContested(live: map<Id, Memory>, tombs: map<Id, Tombstone>, edges: Edges, id: Id, done: set<Id>)
    requires done <= live.Keys && id in live
    requires EdgesOk(live, tombs, edges, done) && Healed(live, edges)
    ensures Wanted(edges, id, NormalizeLink(live[id].title)) ==> Ambiguous(live)
  {
    if Wanted(edges, id, NormalizeLink(live[id].title)) {
      var k :| k in edges && k.src != id && edges[k].None? && k.raw == NormalizeLink(live[id].title);
      assert forall d :: !Names(live, d, k.raw, k.src);
      assert Contested(live, k, id);
    }
  }

  /** In an unambiguous store the heal of a rebuild has nothing to do. */
  lemma {:induction false} SyncAllByName(live: map<Id, Memory>, tombs: map<Id, Tombstone>, edges: Edges,
                                         order: seq<Id>, done: set<Id>)
    requires done <= live.Keys && live.Keys !! tombs.Keys
    requires forall id | id in order :: id in live
    requires EdgesOk(live, tombs, edges, done) && Healed(live, edges)
    requires ByName(live, edges) && !Ambiguous(live)
    ensures ByName(live, SyncAll(live, tombs, edges, order))
    decreases |order|
  {
    if order != [] {
      var id := order[0];
      WantedIsContested(live, tombs, edges, id, done);
      assert ByName(live, Without(edges, id));
      SyncByName(live, tombs, edges, id);
      assert EdgesOk(live, tombs, Without(edges, id), done - {id});
      SyncKeepsEdges(live, tombs, edges, id, done);
      SyncHeals(live, tombs, edges, id, done);
      SyncAllByName(live, tombs, SyncEdges(live, tombs, edges, id), order[1..], done + {id});
    }
  }

  /** A rebuild forgets every binding to a deleted memory, whatever the table held. */
  lemma RebuildForgetsTombs(s: State, step: Step)
    requires Inv(s) && Enabled(s, step) && step.RebuildStep?
    ensures NoTombs(s.tombs, Apply(s, step).edges)
  {
    SyncAllNoTombs(s.live, s.tombs, map[], step.order);
  }

  /** Rebuilding an unambiguous store gives the canonical table, in any scan order. */
  lemma RebuildIsCanon(s: State, step: Step)
    requires Inv(s) && Enabled(s, step) && step.RebuildStep? && !Ambiguous(s.live)
    ensures Apply(s, step) == s.(edges := Canon(s.live))
  {
    var s' := Apply(s, step);
    StepKeepsInv(s, step);
    RebuildForgetsTombs(s, step);
    SyncAllByName(s.live, s.tombs, map[], step.order, {});
    SettledIsByName(s');
    SettledIsCanon(s');
  }

  /** Once filled in, a row stays filled in until its own source is synced. */
  lemma {:induction false} FilledIn(live: map<Id, Memory>, tombs: map<Id, Tombstone>, edges: Edges,
                                    order: seq<Id>, k: EdgeKey, d: Id)
    requires forall id | id in order :: id in live
    requires k in edges && k.src !in order
    requires edges[k].Some? || (d in order && d in live && NormalizeLink(live[d].title) == k.raw)
    ensures k in SyncAll(live, tombs, edges, order) && SyncAll(live, tombs, edges, order)[k].Some?
    decreases |order|
  {
    if order != [] {
      assert k in Without(edges, order[0]);
      FilledIn(live, tombs, SyncEdges(live, tombs, edges, order[0]), order[1..], k, d);
    }
  }

  lemma {:induction false} SyncAllAppend(live: map<Id, Memory>, tombs: map<Id, Tombstone>, edges: Edges,
                                         order: seq<Id>, last: Id)
    requires last in live && forall id | id in order :: id in live
    ensures SyncAll(live, tombs, edges, order + [last]) ==
            SyncEdges(live, tombs, SyncAll(live, tombs, edges, order), last)
    decreases |order|
  {
    if order == [] {
      assert order + [last] == [last];
    } else {
      assert (order + [last])[1..] == order[1..] + [last];
      SyncAllAppend(live, tombs, SyncEdges(live, tombs, edges, order[0]), order[1..], last);
    }
  }

  lemma {:induction false} SomeScan(ids: set<Id>) returns (order: seq<Id>)
    ensures Distinct(order)
    ensures forall id :: id in order <==> id in ids
  {
    if ids == {} {
      order := [];
    } else {
      var id :| id in ids;
      order := SomeScan(ids - {id});
      order := order + [id];
    }
  }

  lemma SourceFirstFills(live: map<Id, Memory>, tombs: map<Id, Tombstone>, k: EdgeKey, d: Id, rest: seq<Id>)
    requires Contested(live, k, d) && Scan(live, [k.src] + rest)
    ensures var edges := SyncAll(live, tombs, map[], [k.src] + rest); k in edges && edges[k].Some?
  {
    var order := [k.src] + rest;
    assert order[1..] == rest;
    assert forall id | id in rest :: id in order;
    var i :| 0 <= i < |order| && order[i] == d;
    assert d == rest[i - 1];
    assert forall j | 0 <= j < |rest| :: order[j + 1] == rest[j] && order[0] != order[j + 1];
    FilledIn(live, tombs, SyncEdges(live, tombs, map[], k.src), rest, k, d);
  }

  lemma SourceLastDangles(live: map<Id, Memory>, tombs: map<Id, Tombstone>, k: EdgeKey, d: Id, rest: seq<Id>)
    requires live.Keys !! tombs.Keys && Contested(live, k, d)
    requires forall id | id in rest :: id in live
    ensures var edges := SyncAll(live, tombs, map[], rest + [k.src]); k in edges && edges[k].None?
  {
    SyncAllAppend(live, tombs, map[], rest, k.src);
    SyncAllNoTombs(live, tombs, map[], rest);
    var edges := SyncAll(live, tombs, map[], rest);
    assert k !in Without(edges, k.src);
    assert !TombBound(tombs, edges, k);
  }

  lemma ScanEnds(live: map<Id, Memory>, src: Id, rest: seq<Id>)
    requires src in live && Distinct(rest) && forall id :: id in rest <==> id in live && id != src
    ensures Scan(live, [src] + rest) && Scan(live, rest + [src])
  {
    assert forall i | 0 <= i < |rest| :: rest[i] in rest && rest[i] != src;
  }

  /** A contested link is filled in when its source is scanned first, and dangles when last. */
  lemma ContestedDependsOnOrder(live: map<Id, Memory>, tombs: map<Id, Tombstone>, k: EdgeKey, d: Id)
      returns (first: seq<Id>, last: seq<Id>)
    requires live.Keys !! tombs.Keys && Contested(live, k, d)
    ensures Scan(live, first) && Scan(live, last)
    ensures SyncAll(live, tombs, map[], first) != SyncAll(live, tombs, map[], last)
  {
    var rest := SomeScan(live.Keys - {k.src});
    ScanEnds(live, k.src, rest);
    first, last := [k.src] + rest, rest + [k.src];
    SourceFirstFills(live, tombs, k, d, rest);
    SourceLastDangles(live, tombs, k, d, rest);
  }

  /** A rebuild's result is independent of the scan order exactly when no link is contested. */
  lemma RebuildOrderIndependentIff(s: State)
    requires Inv(s)
    ensures (forall o, p | Scan(s.live, o) && Scan(s.live, p) ::
              Apply(s, RebuildStep(o)) == Apply(s, RebuildStep(p))) <==> !Ambiguous(s.live)
  {
    if Ambiguous(s.live) {
      var k, d :| Contested(s.live, k, d);
      var first, last := ContestedDependsOnOrder(s.live, s.tombs, k, d);
      assert Apply(s, RebuildStep(first)) != Apply(s, RebuildStep(last));
    } else {
      forall o | Scan(s.live, o) ensures Apply(s, RebuildStep(o)) == s.(edges := Canon(s.live)) {
        RebuildIsCanon(s, RebuildStep(o));
      }
    }
  }

  // ---- whole runs ----

  /** A step that renames nothing and brings in only plain titles. */
  predicate Renameless(step: Step) {
    match step
    case InsertStep(_, title, _, _, _, _) => Plain(title)
    case UpdateStep(_, updates, _, _) => updates.title.None?
    case _ => true
  }

  ghost predicate AllPlain(live: map<Id, Memory>) {
    forall id | id in live :: Plain(live[id].title)
  }

  lemma OwnNameInbound(s: State, id: Id)
    requires Inv(s) && Settled(s) && id in s.live
    ensures InboundNamed(s.edges, id, s.live[id].title)
  {
    SettledIsByName(s);
  }

  lemma RenamelessKeepsSettled(s: State, step: Step)
    requires Inv(s) && Settled(s) && AllPlain(s.live) && Enabled(s, step) && Renameless(step)
    ensures Settled(Apply(s, step)) && AllPlain(Apply(s, step).live)
  {
    PlainKept(s, step);
    match step
    case InsertStep(_, _, _, _, _, _) =>
      if Try(s, step).Ok? { InsertSettledIff(s, step); }
    case UpdateStep(id, _, _, _) =>
      if Try(s, step).Ok? {
        UpdateSettledIff(s, step);
        OwnNameInbound(s, id);
      }
    case DeleteStep(_, _, _) => DeleteSettled(s, step);
    case RebuildStep(_) => RebuildSettles(s, step);
  }

  lemma PlainKept(s: State, step: Step)
    requires AllPlain(s.live) && Enabled(s, step) && Renameless(step)
    ensures AllPlain(Apply(s, step).live)
  {
  }

  lemma RebuildSettles(s: State, step: Step)
    requires Inv(s) && AllPlain(s.live) && Enabled(s, step) && step.RebuildStep?
    ensures Settled(Apply(s, step))
  {
    PlainIsUnambiguous(s.live);
    RebuildIsCanon(s, step);
  }

  /** Over a run without renames, every row resolves its text now or is bound to a tombstone. */
  lemma {:induction false} RunKeepsSettled(trace: seq<State>, steps: seq<Step>, i: nat)
    requires IsRun(trace, steps) && i < |trace|
    requires forall j | 0 <= j < i :: Renameless(steps[j])
    ensures Settled(trace[i]) && AllPlain(trace[i].live)
  {
    if i > 0 {
      RunKeepsSettled(trace, steps, i - 1);
      RunKeepsInv(trace, steps, i - 1);
      RenamelessKeepsSettled(trace[i - 1], steps[i - 1]);
    }
  }

  lemma {:induction false} RunWithoutDeletes(trace: seq<State>, steps: seq<Step>, i: nat)
    requires IsRun(trace, steps) && i < |trace|
    requires forall j | 0 <= j < i :: !steps[j].DeleteStep?
    ensures trace[i].tombs == map[]
  {
    if i > 0 {
      RunWithoutDeletes(trace, steps, i - 1);
      assert trace[i] == Apply(trace[i - 1], steps[i - 1]);
    }
  }

  /** Incremental equals recomputed: after inserts and edits that rename nothing, in any order,
      the edge table is the canonical one. */
  lemma IndexIsCanon(trace: seq<State>, steps: seq<Step>, i: nat)
    requires IsRun(trace, steps) && i < |trace|
    requires forall j | 0 <= j < i :: Renameless(steps[j]) && !steps[j].DeleteStep?
    ensures trace[i].edges == Canon(trace[i].live)
  {
    RunKeepsSettled(trace, steps, i);
    RunKeepsInv(trace, steps, i);
    RunWithoutDeletes(trace, steps, i);
    SettledIsCanon(trace[i]);
  }

  // ---- bindings to deleted memories ----

  ghost predicate Contains(s: State, k: EdgeKey) {
    k.src in s.live && HasLink(s.live[k.src].content, k)
  }

  ghost predicate Bound(s: State, k: EdgeKey, d: Id) {
    k in s.edges && s.edges[k] == Some(d) && d in s.tombs
  }

  lemma SyncKeepsBinding(live: map<Id, Memory>, tombs: map<Id, Tombstone>, edges: Edges, src: Id, k: EdgeKey)
    requires src in live && TombBound(tombs, edges, k)
    requires k.src == src ==> HasLink(live[src].content, k)
    ensures k in SyncEdges(live, tombs, edges, src) && SyncEdges(live, tombs, edges, src)[k] == edges[k]
  {
    assert k.src != src ==> k in Without(edges, src);
  }

  /** One step keeps a tombstone binding whose link its source still contains. */
  lemma BindingSurvivesStep(s: State, step: Step, s': State, k: EdgeKey, d: Id)
    requires Enabled(s, step) && s' == Apply(s, step) && !step.RebuildStep?
    requires Bound(s, k, d) && Contains(s', k)
    ensures Bound(s', k, d)
  {
    if Try(s, step).Ok? {
      match step
      case InsertStep(id, _, _, _, _, _) => SyncKeepsBinding(s'.live, s.tombs, s.edges, id, k);
      case UpdateStep(id, _, _, _) => SyncKeepsBinding(s'.live, s.tombs, s.edges, id, k);
      case DeleteStep(id, _, _) =>
    }
  }

  /** A link bound to a deleted memory keeps that destination over every later run of inserts,
      edits and deletes in which its source stays live and keeps containing it. */
  lemma {:induction false} BindingIsPermanent(trace: seq<State>, steps: seq<Step>, i: nat, j: nat, k: EdgeKey, d: Id)
    requires IsRun(trace, steps) && i <= j < |trace| && Bound(trace[i], k, d)
    requires forall m | i <= m < j :: !steps[m].RebuildStep?
    requires forall m | i <= m <= j :: Contains(trace[m], k)
    ensures Bound(trace[j], k, d)
    decreases j
  {
    if i < j {
      BindingIsPermanent(trace, steps, i, j - 1, k, d);
      BindingSurvivesStep(trace[j - 1], steps[j - 1], trace[j], k, d);
    }
  }

  /** A new link that spells a memory's title as links are normalized finds that memory exactly
      when the title is plain. */
  lemma LinkFindsIff(s: State, step: Step, k: EdgeKey, d: Id)
    requires Inv(s) && Enabled(s, step) && step.InsertStep? && Try(s, step).Ok?
    requires d in s.live && k.src == step.id && HasLink(step.content, k) && k.raw == NormalizeLink(s.live[d].title)
    ensures k in Apply(s, step).edges && (Apply(s, step).edges[k] == Some(d) <==> Plain(s.live[d].title))
  {
    StepKeepsInv(s, step);
    var t := Apply(s, step);
    LinkIsNorm(step.content, k);
    NewRow(s, step, k);
    if Plain(s.live[d].title) {
      HolderUnique(t.live, k.raw, k.src, d);
    }
  }

  /** A row of a memory just inserted is resolved by name. */
  lemma NewRow(s: State, step: Step, k: EdgeKey)
    requires Inv(s) && Enabled(s, step) && step.InsertStep? && Try(s, step).Ok?
    requires k.src == step.id && HasLink(step.content, k)
    ensures var t := Apply(s, step);
      && k in t.edges && t.edges[k] == Holder(t.live, k.raw, k.src)
      && (forall d | d in s.live :: d in t.live && t.live[d] == s.live[d])
  {
    assert k !in Without(s.edges, k.src) && !TombBound(s.tombs, s.edges, k);
  }

  /** Healing is complete: no reachable dangling row names another live memory. */
  lemma HealingIsComplete(trace: seq<State>, steps: seq<Step>, i: nat, k: EdgeKey, d: Id)
    requires IsRun(trace, steps) && i < |trace| && k in trace[i].edges && trace[i].edges[k].None?
    requires d in trace[i].live && d != k.src
    ensures SqlFold(trace[i].live[d].title) != k.raw
    ensures Plain(trace[i].live[d].title) ==> NormalizeLink(trace[i].live[d].title) != k.raw
  {
    RunKeepsInv(trace, steps, i);
    assert !Names(trace[i].live, d, k.raw, k.src);
  }
}
