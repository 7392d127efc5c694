/** What every reachable store satisfies. */
module StoreInvariant {
  import opened Options
  import opened Text
  import opened Links
  import opened Store

  /** Revisions are exactly versions 1..version of the live rows, and the newest is the row. */
  ghost predicate HistoryOk(live: map<Id, Memory>, revs: map<RevKey, Revision>) {
    && (forall id | id in live :: live[id].version >= 1)
    && (forall k :: k in revs <==> k.id in live && 1 <= k.version <= live[k.id].version)
    && (forall id | id in live :: HeadIs(live[id], id, revs))
  }

  ghost predicate HeadIs(m: Memory, id: Id, revs: map<RevKey, Revision>) {
    var k := RevKey(id, m.version);
    k in revs && revs[k] == Snapshot(m, Meta(revs[k].author, revs[k].agent, revs[k].createdAt))
  }

  /** No two live memories are found under one trimmed name. */
  ghost predicate NamesOk(live: map<Id, Memory>) {
    forall d, e {:trigger SqlFold(live[d].title), SqlFold(live[e].title)} | d in live && e in live && d != e ::
      SqlFold(live[d].title) == SqlFold(live[e].title) ==> !Trimmed(SqlFold(live[d].title))
  }

  /** The sources in `done` have exactly the rows their content asks for, each with a
      destination that is missing, another live memory, or a tombstone. */
  ghost predicate EdgesOk(live: map<Id, Memory>, tombs: map<Id, Tombstone>, edges: Edges, done: set<Id>)
    requires done <= live.Keys
  {
    && (forall k :: k in edges <==> k.src in done && HasLink(live[k.src].content, k))
    && (forall k | k in edges && edges[k].Some? ::
          edges[k].value != k.src && (edges[k].value in live || edges[k].value in tombs))
  }

  /** No dangling row names a live memory other than its source. */
  ghost predicate Healed(live: map<Id, Memory>, edges: Edges) {
    forall k, d | k in edges && edges[k].None? :: !Names(live, d, k.raw, k.src)
  }

  ghost predicate Inv(s: State) {
    && s.live.Keys !! s.tombs.Keys
    && HistoryOk(s.live, s.revs)
    && NamesOk(s.live)
    && EdgesOk(s.live, s.tombs, s.edges, s.live.Keys)
    && Healed(s.live, s.edges)
  }

  lemma LinkIsNorm(content: string, k: EdgeKey)
    requires HasLink(content, k)
    ensures IsNorm(k.raw) && Trimmed(k.raw) && k.raw != ""
  {
    ParseIsExact(content);
    assert IsTarget(Link(k.rel, k.raw));
  }

  /** A trimmed name has one holder, so LIMIT 1 leaves no choice. */
  lemma HolderUnique(live: map<Id, Memory>, name: string, except: Id, d: Id)
    requires NamesOk(live) && Trimmed(name) && Names(live, d, name, except)
    ensures Holder(live, name, except) == Some(d)
  {
  }

  // ---- syncEdges ----

  lemma SyncKeepsEdges(live: map<Id, Memory>, tombs: map<Id, Tombstone>, edges: Edges, src: Id, done: set<Id>)
    requires src in live && done <= live.Keys && live.Keys !! tombs.Keys
    requires EdgesOk(live, tombs, Without(edges, src), done - {src})
    ensures EdgesOk(live, tombs, SyncEdges(live, tombs, edges, src), done + {src})
  {
    var edges' := SyncEdges(live, tombs, edges, src);
    forall k
      ensures k in edges' <==> k.src in done + {src} && HasLink(live[k.src].content, k)
    {
      SyncedKeys(live, tombs, edges, src, k);
    }
    forall k | k in edges' && edges'[k].Some?
      ensures edges'[k].value != k.src && (edges'[k].value in live || edges'[k].value in tombs)
    {
      SyncedKeys(live, tombs, edges, src, k);
      SyncedTarget(live, tombs, edges, src, k);
    }
  }

  lemma SyncedKeys(live: map<Id, Memory>, tombs: map<Id, Tombstone>, edges: Edges, src: Id, k: EdgeKey)
    requires src in live
    ensures k in SyncEdges(live, tombs, edges, src) <==>
      if k.src == src then HasLink(live[src].content, k) else k in Without(edges, src)
  {
  }

  lemma SyncedTarget(live: map<Id, Memory>, tombs: map<Id, Tombstone>, edges: Edges, src: Id, k: EdgeKey)
    requires src in live && k in SyncEdges(live, tombs, edges, src)
    ensures var dst := SyncEdges(live, tombs, edges, src)[k];
      if k.src == src then dst == Target(live, tombs, edges, k) else k in edges && (dst == edges[k] || dst == Some(src))
  {
  }

  lemma SyncHeals(live: map<Id, Memory>, tombs: map<Id, Tombstone>, edges: Edges, src: Id, done: set<Id>)
    requires src in live && done <= live.Keys
    requires EdgesOk(live, tombs, Without(edges, src), done - {src})
    requires forall k, d | k in edges && k.src != src && edges[k].None? && d != src :: !Names(live, d, k.raw, k.src)
    ensures Healed(live, SyncEdges(live, tombs, edges, src))
  {
    var edges' := SyncEdges(live, tombs, edges, src);
    forall k, d | k in edges' && edges'[k].None?
      ensures !Names(live, d, k.raw, k.src)
    {
      if k.src != src && d == src && Names(live, d, k.raw, k.src) {
        assert k in Without(edges, src);
        LinkIsNorm(live[k.src].content, k);
        NormalFold(live[src].title);
        assert false;
      }
    }
  }

  // ---- each step ----

  lemma WrittenKeepsEdges(live: map<Id, Memory>, tombs: map<Id, Tombstone>, edges: Edges, id: Id, m: Memory)
    requires live.Keys !! tombs.Keys && id !in tombs
    requires EdgesOk(live, tombs, edges, live.Keys) && Healed(live, edges)
    ensures var live' := live[id := m]; var edges' := SyncEdges(live', tombs, edges, id);
      EdgesOk(live', tombs, edges', live'.Keys) && Healed(live', edges')
  {
    var live' := live[id := m];
    assert EdgesOk(live', tombs, Without(edges, id), live'.Keys - {id});
    SyncKeepsEdges(live', tombs, edges, id, live'.Keys);
    assert live'.Keys + {id} == live'.Keys;
    WrittenHeals(live, tombs, edges, id, m);
  }

  lemma WrittenHeals(live: map<Id, Memory>, tombs: map<Id, Tombstone>, edges: Edges, id: Id, m: Memory)
    requires EdgesOk(live[id := m], tombs, Without(edges, id), live[id := m].Keys - {id}) && Healed(live, edges)
    ensures Healed(live[id := m], SyncEdges(live[id := m], tombs, edges, id))
  {
    var live' := live[id := m];
    forall k, d | k in edges && k.src != id && edges[k].None? && d != id
      ensures !Names(live', d, k.raw, k.src)
    {
      assert !Names(live, d, k.raw, k.src);
    }
    SyncHeals(live', tombs, edges, id, live'.Keys);
  }

  lemma WrittenKeepsHistory(live: map<Id, Memory>, revs: map<RevKey, Revision>, id: Id, m: Memory, meta: Meta)
    requires HistoryOk(live, revs)
    requires m.version == (if id in live then live[id].version + 1 else 1)
    ensures HistoryOk(live[id := m], revs[RevKey(id, m.version) := Snapshot(m, meta)])
  {
    var live', revs' := live[id := m], revs[RevKey(id, m.version) := Snapshot(m, meta)];
    forall d | d in live' ensures HeadIs(live'[d], d, revs') {
      assert d != id ==> HeadIs(live[d], d, revs);
    }
  }

  lemma WrittenKeepsInv(s: State, id: Id, m: Memory, meta: Meta)
    requires Inv(s) && id !in s.tombs
    requires m.version == (if id in s.live then s.live[id].version + 1 else 1)
    requires NamesOk(s.live[id := m])
    ensures Inv(Written(s, id, m, meta))
  {
    WrittenKeepsEdges(s.live, s.tombs, s.edges, id, m);
    WrittenKeepsHistory(s.live, s.revs, id, m, meta);
  }

  /** A title that passes the conflict check leaves trimmed names unique. */
  lemma NamesStayUnique(live: map<Id, Memory>, id: Id, m: Memory)
    requires NamesOk(live)
    requires Holder(live, GoFold(m.title), id).None? || (id in live && live[id].title == m.title)
    ensures NamesOk(live[id := m])
  {
    if Trimmed(SqlFold(m.title)) {
      FoldsAgree(m.title);
      forall d | d in live && d != id
        ensures SqlFold(live[d].title) != SqlFold(m.title)
      {
        if Holder(live, GoFold(m.title), id).None? {
          assert !Names(live, d, SqlFold(m.title), id);
        }
      }
    }
  }

  lemma DeleteKeepsInv(s: State, step: Step)
    requires Inv(s) && step.DeleteStep?
    ensures Inv(Apply(s, step))
  {
    if step.id in s.live {
      var t := Delete(s, step).value;
      DeleteKeepsHistory(s.live, s.revs, step.id, t.revs);
      DeleteKeepsEdges(s.live, s.tombs, s.edges, step.id, t.tombs);
    }
  }

  lemma DeleteKeepsHistory(live: map<Id, Memory>, revs: map<RevKey, Revision>, id: Id, revs': map<RevKey, Revision>)
    requires HistoryOk(live, revs) && revs' == map k | k in revs && k.id != id :: revs[k]
    ensures HistoryOk(live - {id}, revs')
  {
    forall d | d in live && d != id ensures HeadIs(live[d], d, revs') {
      assert HeadIs(live[d], d, revs);
    }
  }

  lemma DeleteKeepsEdges(live: map<Id, Memory>, tombs: map<Id, Tombstone>, edges: Edges, id: Id,
                         tombs': map<Id, Tombstone>)
    requires EdgesOk(live, tombs, edges, live.Keys) && Healed(live, edges)
    requires tombs'.Keys == tombs.Keys + {id}
    ensures var live' := live - {id};
      EdgesOk(live', tombs', Without(edges, id), live'.Keys) && Healed(live', Without(edges, id))
  {
    var live' := live - {id};
    forall k, d | k in Without(edges, id) && edges[k].None?
      ensures !Names(live', d, k.raw, k.src)
    {
      assert !Names(live, d, k.raw, k.src);
    }
  }

  ghost function IdsOf(order: seq<Id>): (ids: set<Id>)
    ensures forall id :: id in ids <==> id in order
  {
    set id | id in order
  }

  lemma {:induction false} SyncAllKeeps(live: map<Id, Memory>, tombs: map<Id, Tombstone>, edges: Edges,
                                        order: seq<Id>, done: set<Id>)
    requires done <= live.Keys && live.Keys !! tombs.Keys
    requires forall id | id in order :: id in live
    requires EdgesOk(live, tombs, edges, done) && Healed(live, edges)
    ensures EdgesOk(live, tombs, SyncAll(live, tombs, edges, order), done + IdsOf(order))
    ensures Healed(live, SyncAll(live, tombs, edges, order))
    decreases |order|
  {
    if order == [] {
      assert done + IdsOf(order) == done;
    } else {
      var id := order[0];
      assert EdgesOk(live, tombs, Without(edges, id), done - {id});
      SyncKeepsEdges(live, tombs, edges, id, done);
      SyncHeals(live, tombs, edges, id, done);
      SyncAllKeeps(live, tombs, SyncEdges(live, tombs, edges, id), order[1..], done + {id});
      assert done + {id} + IdsOf(order[1..]) == done + IdsOf(order);
    }
  }

  lemma StepKeepsInv(s: State, step: Step)
    requires Inv(s) && Enabled(s, step)
    ensures Inv(Apply(s, step))
  {
    match step
    case InsertStep(id, title, content, taxonomy, format, meta) =>
      if Try(s, step).Ok? {
        var m := Memory(title, content, taxonomy, FormatOrDefault(format), meta.now, meta.now, 1);
        NamesStayUnique(s.live, id, m);
        WrittenKeepsInv(s, id, m, meta);
      }
    case UpdateStep(id, updates, base, meta) =>
      if Try(s, step).Ok? {
        var m := Applied(s.live[id], updates, meta.now);
        NamesStayUnique(s.live, id, m);
        WrittenKeepsInv(s, id, m, meta);
      }
    case DeleteStep(_, _, _) => DeleteKeepsInv(s, step);
    case RebuildStep(order) =>
      SyncAllKeeps(s.live, s.tombs, map[], order, {});
      assert {} + IdsOf(order) == s.live.Keys;
  }

  /** The store invariant holds in every state of every run. */
  lemma {:induction false} RunKeepsInv(trace: seq<State>, steps: seq<Step>, i: nat)
    requires IsRun(trace, steps) && i < |trace|
    ensures Inv(trace[i])
  {
    if i > 0 {
      RunKeepsInv(trace, steps, i - 1);
      StepKeepsInv(trace[i - 1], steps[i - 1]);
    }
  }
}
