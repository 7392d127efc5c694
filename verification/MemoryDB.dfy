/** The store's operations on their tables, proved against the state machine of module Store. */
module MemoryDB {
  import opened Options
  import opened Text
  import opened Links
  import opened Store
  import opened StoreInvariant

  /** What a writer is told about one link of the text just written. */
  datatype LinkStatus = LinkStatus(target: string, rel: Rel, resolved: bool, deleted: bool)

  /** The row of `l` as the status reports it. */
  predicate Reports(live: map<Id, Memory>, tombs: map<Id, Tombstone>, edges: Edges, src: Id, l: Link, st: LinkStatus) {
    var k := EdgeKey(src, l.raw, l.rel);
    && st.target == l.raw && st.rel == l.rel && k in edges
    && (st.resolved <==> edges[k].Some? && edges[k].value in live)
    && (st.deleted <==> TombBound(tombs, edges, k))
  }

  predicate ReportsAll(live: map<Id, Memory>, tombs: map<Id, Tombstone>, edges: Edges, src: Id,
                       links: seq<Link>, statuses: seq<LinkStatus>) {
    && |statuses| == |links|
    && forall i | 0 <= i < |links| :: Reports(live, tombs, edges, src, links[i], statuses[i])
  }

  /** The status computed while the row of `k` is written, before healing. */
  ghost function StatusOf(live: map<Id, Memory>, tombs: map<Id, Tombstone>, edges: Edges, k: EdgeKey): LinkStatus {
    var bound := TombBound(tombs, edges, k);
    LinkStatus(k.raw, k.rel, !bound && Target(live, tombs, edges, k).Some?, bound)
  }

  lemma OwnKeysOneMore(src: Id, links: seq<Link>, l: Link)
    requires l !in links
    ensures EdgeKey(src, l.raw, l.rel) !in OwnKeys(src, links)
    ensures OwnKeys(src, links + [l]) == OwnKeys(src, links) + {EdgeKey(src, l.raw, l.rel)}
  {
    var key := EdgeKey(src, l.raw, l.rel);
    assert Link(key.rel, key.raw) == l;
    forall k ensures k in OwnKeys(src, links + [l]) <==> k in OwnKeys(src, links) + {key} {
      assert k.src == src && Link(k.rel, k.raw) == l <==> k == key;
    }
  }

  /** Relink, row by row. */
  lemma RelinkAt(live: map<Id, Memory>, tombs: map<Id, Tombstone>, edges: Edges, src: Id, links: seq<Link>)
    ensures var after, own := Relink(live, tombs, edges, src, links), OwnKeys(src, links);
      && (forall k :: k in after <==> k in own || (k in edges && k.src != src))
      && (forall k | k in after :: after[k] == if k in own then Target(live, tombs, edges, k) else edges[k])
  {
  }

  lemma RelinkOneMore(live: map<Id, Memory>, tombs: map<Id, Tombstone>, edges: Edges, src: Id, links: seq<Link>,
                      l: Link)
    requires l !in links
    ensures var k := EdgeKey(src, l.raw, l.rel);
      && k !in Relink(live, tombs, edges, src, links)
      && Relink(live, tombs, edges, src, links + [l]) ==
         Relink(live, tombs, edges, src, links)[k := Target(live, tombs, edges, k)]
  {
    OwnKeysOneMore(src, links, l);
    var key := EdgeKey(src, l.raw, l.rel);
    var fewer, more := Relink(live, tombs, edges, src, links), Relink(live, tombs, edges, src, links + [l]);
    RelinkAt(live, tombs, edges, src, links);
    RelinkAt(live, tombs, edges, src, links + [l]);
    IsUpdate(fewer, more, key, Target(live, tombs, edges, key));
  }

  lemma IsUpdate(fewer: Edges, more: Edges, key: EdgeKey, value: Option<Id>)
    requires forall k :: k in more <==> k in fewer || k == key
    requires key in more && more[key] == value && forall k | k in fewer && k != key :: more[k] == fewer[k]
    ensures more == fewer[key := value]
  {
  }

  ghost predicate Statuses(live: map<Id, Memory>, tombs: map<Id, Tombstone>, edges: Edges, src: Id,
                           links: seq<Link>, statuses: seq<LinkStatus>) {
    && |statuses| == |links|
    && forall i | 0 <= i < |links| ::
      statuses[i] == StatusOf(live, tombs, edges, EdgeKey(src, links[i].raw, links[i].rel))
  }

  lemma StatusesOneMore(live: map<Id, Memory>, tombs: map<Id, Tombstone>, edges: Edges, src: Id,
                        links: seq<Link>, statuses: seq<LinkStatus>, l: Link)
    requires Statuses(live, tombs, edges, src, links, statuses)
    ensures Statuses(live, tombs, edges, src, links + [l],
                     statuses + [StatusOf(live, tombs, edges, EdgeKey(src, l.raw, l.rel))])
  {
  }

  /** The statuses stay true of the finished table: healing touches no row of `src`. */
  lemma StatusesReport(live: map<Id, Memory>, tombs: map<Id, Tombstone>, edges: Edges, src: Id,
                       statuses: seq<LinkStatus>)
    requires src in live && live.Keys !! tombs.Keys
    requires Statuses(live, tombs, edges, src, Parse(live[src].content), statuses)
    ensures ReportsAll(live, tombs, Store.SyncEdges(live, tombs, edges, src), src, Parse(live[src].content), statuses)
  {
    var links, after := Parse(live[src].content), Store.SyncEdges(live, tombs, edges, src);
    forall i | 0 <= i < |links|
      ensures Reports(live, tombs, after, src, links[i], statuses[i])
    {
      var k := EdgeKey(src, links[i].raw, links[i].rel);
      assert Link(k.rel, k.raw) == links[i];
      assert k in after && after[k] == Target(live, tombs, edges, k);
    }
  }

  lemma RebuildReady(s: State, order: seq<Id>)
    requires Inv(s) && Scan(s.live, order)
    ensures s.live.Keys !! s.tombs.Keys && NamesOk(s.live) && forall id | id in order :: id in s.live
  {
  }

  lemma RebuildDone(s: State, t: State, order: seq<Id>)
    requires Inv(s) && Scan(s.live, order)
    requires forall id | id in order :: id in s.live
    requires t == s.(edges := SyncAll(s.live, s.tombs, map[], order))
    ensures t == Apply(s, RebuildStep(order)) && Inv(t)
  {
    StepKeepsInv(s, RebuildStep(order));
  }

  lemma DeleteIs(s: State, step: Step)
    requires Inv(s) && step.DeleteStep?
    ensures Inv(Apply(s, step))
    ensures Try(s, step) == Store.Delete(s, step)
    ensures Try(s, step).Ok? <==> step.id in s.live
    ensures Apply(s, step) == if step.id in s.live then Store.Delete(s, step).value else s
  {
    DeleteKeepsInv(s, step);
  }

  class MemoryDB {
    var live: map<Id, Memory>
    var revs: map<RevKey, Revision>
    var tombs: map<Id, Tombstone>
    var edges: Edges

    ghost function Abs(): State
      reads this
    {
      State(live, revs, tombs, edges)
    }

    ghost predicate Valid()
      reads this
    {
      Inv(Abs())
    }

    constructor ()
      ensures Valid() && Abs() == EMPTY
    {
      live, revs, tombs, edges := map[], map[], map[], map[];
    }

    /** titleConflict: the other live memory that holds `title`, if any. */
    method TitleConflict(title: string, except: Id) returns (other: Option<Id>)
      requires NamesOk(live)
      ensures other == Holder(live, GoFold(title), except)
    {
      var name := GoFold(title);
      GoFoldTrimmed(title);
      other := Resolve(name, except);
    }

    /** The query that finds a trimmed name; its LIMIT 1 leaves no choice. */
    method Resolve(name: string, except: Id) returns (r: Option<Id>)
      requires NamesOk(live) && Trimmed(name)
      ensures r == Holder(live, name, except)
    {
      if d :| d in live && Names(live, d, name, except) {
        HolderUnique(live, name, except, d);
        return Some(d);
      }
      return None;
    }

    /** syncEdges: re-derives the rows of `src` from its content, then heals the dangling rows
        that its title satisfies. No insertion finds its key taken. */
    method SyncEdges(src: Id) returns (statuses: seq<LinkStatus>)
      requires src in live && live.Keys !! tombs.Keys && NamesOk(live)
      modifies this`edges
      ensures edges == Store.SyncEdges(live, tombs, old(edges), src)
      ensures ReportsAll(live, tombs, edges, src, Parse(live[src].content), statuses)
    {
      ghost var before := edges;
      ParseIsExact(live[src].content);
      var links := ParseLinks(live[src].content);
      statuses := LinkAll(src, links);
      StatusesReport(live, tombs, before, src, statuses);
      edges := Heal(edges, src, NormalizeLink(live[src].title));
    }

    /** The loop over the parsed links. */
    method LinkAll(src: Id, links: seq<Link>) returns (statuses: seq<LinkStatus>)
      requires NamesOk(live) && Distinct(links) && forall l | l in links :: IsTarget(l)
      modifies this`edges
      ensures edges == Relink(live, tombs, old(edges), src, links)
      ensures Statuses(live, tombs, old(edges), src, links, statuses)
    {
      ghost var before := edges;
      var deleted := DeletedTargets(src);
      edges := Without(edges, src);
      statuses := [];
      for i := 0 to |links|
        invariant edges == Relink(live, tombs, before, src, links[..i])
        invariant Statuses(live, tombs, before, src, links[..i], statuses)
      {
        var l := links[i];
        assert l !in links[..i] && links[..i + 1] == links[..i] + [l];
        RelinkOneMore(live, tombs, before, src, links[..i], l);
        var status := LinkOne(src, l, deleted, before);
        StatusesOneMore(live, tombs, before, src, links[..i], statuses, l);
        statuses := statuses + [status];
      }
      assert links[..|links|] == links;
    }

    /** deletedTargets: the rows of `src` bound to deleted memories. */
    method DeletedTargets(src: Id) returns (deleted: Edges)
      ensures forall k :: k in deleted <==> k.src == src && TombBound(tombs, edges, k)
      ensures forall k | k in deleted :: k in edges && deleted[k] == edges[k]
    {
      deleted := map k | k in edges && k.src == src && TombBound(tombs, edges, k) :: edges[k];
    }

    /** One INSERT: a binding to a deleted memory comes before a live holder of the name. */
    method LinkOne(src: Id, l: Link, deleted: Edges, ghost before: Edges) returns (status: LinkStatus)
      requires NamesOk(live) && IsTarget(l)
      requires EdgeKey(src, l.raw, l.rel) !in edges
      requires forall k :: k in deleted <==> k.src == src && TombBound(tombs, before, k)
      requires forall k | k in deleted :: k in before && deleted[k] == before[k]
      modifies this`edges
      ensures var k := EdgeKey(src, l.raw, l.rel);
        edges == old(edges)[k := Target(live, tombs, before, k)] && status == StatusOf(live, tombs, before, k)
    {
      var k := EdgeKey(src, l.raw, l.rel);
      if k in deleted {
        edges := edges[k := deleted[k]];
        status := LinkStatus(l.raw, l.rel, false, true);
      } else {
        var dst := Resolve(l.raw, src);
        edges := edges[k := dst];
        status := LinkStatus(l.raw, l.rel, dst.Some?, false);
      }
    }

    /** The part Insert and Update share: the row, its revision and its edges. */
    method Write(id: Id, m: Memory, meta: Meta) returns (statuses: seq<LinkStatus>)
      requires Valid() && id !in tombs && NamesOk(live[id := m])
      requires m.version == (if id in live then live[id].version + 1 else 1)
      modifies this
      ensures Abs() == Written(old(Abs()), id, m, meta) && Valid()
      ensures id in live && ReportsAll(live, tombs, edges, id, Parse(live[id].content), statuses)
    {
      WrittenKeepsInv(Abs(), id, m, meta);
      live := live[id := m];
      revs := revs[RevKey(id, m.version) := Snapshot(m, meta)];
      statuses := SyncEdges(id);
    }

    /** What the caller is told: the error, or the fate of each link just written. */
    ghost predicate Answers(r: Result<seq<LinkStatus>, StoreError>, t: Result<State, StoreError>, id: Id)
      reads this
    {
      && (r.Ok? <==> t.Ok?)
      && (r.Err? ==> r.error == t.error)
      && (r.Ok? ==> id in live && ReportsAll(live, tombs, edges, id, Parse(live[id].content), r.value))
    }

    method Insert(id: Id, title: string, content: string, taxonomy: string, format: string, meta: Meta)
        returns (r: Result<seq<LinkStatus>, StoreError>)
      requires Valid() && id !in live && id !in tombs
      modifies this
      ensures Valid()
      ensures var step := InsertStep(id, title, content, taxonomy, format, meta);
        Abs() == Apply(old(Abs()), step) && Answers(r, Try(old(Abs()), step), id)
    {
      var other := TitleConflict(title, id);
      if other.Some? {
        return Err(StoreError.TitleConflict(title, other.value));
      }
      var m := Memory(title, content, taxonomy, FormatOrDefault(format), meta.now, meta.now, 1);
      NamesStayUnique(live, id, m);
      var statuses := Write(id, m, meta);
      r := Ok(statuses);
    }

    method Update(id: Id, updates: Updates, base: Option<int>, meta: Meta)
        returns (r: Result<seq<LinkStatus>, StoreError>)
      requires Valid()
      modifies this
      ensures Valid()
      ensures var step := UpdateStep(id, updates, base, meta);
        Abs() == Apply(old(Abs()), step) && Answers(r, Try(old(Abs()), step), id)
    {
      if id !in live {
        return Err(Missing(tombs, id));
      }
      var current := live[id].version;
      if base.Some? && base.value != current {
        return Err(VersionConflict(base.value, current));
      }
      if updates.title.Some? {
        var other := TitleConflict(updates.title.value, id);
        if other.Some? {
          return Err(StoreError.TitleConflict(updates.title.value, other.value));
        }
      }
      var m := Applied(live[id], updates, meta.now);
      NamesStayUnique(live, id, m);
      var statuses := Write(id, m, meta);
      r := Ok(statuses);
    }

    method Delete(id: Id, deletedBy: string, now: string) returns (r: Result<(), StoreError>)
      requires Valid()
      modifies this
      ensures Valid()
      ensures Abs() == Apply(old(Abs()), DeleteStep(id, deletedBy, now))
      ensures r.Ok? <==> id in old(live)
      ensures r.Err? ==> r.error == Missing(old(tombs), id)
    {
      ghost var after := Apply(Abs(), DeleteStep(id, deletedBy, now));
      DeleteIs(Abs(), DeleteStep(id, deletedBy, now));
      if id !in live {
        return Err(Missing(tombs, id));
      }
      Purge(id, deletedBy, now);
      assert Abs() == after;
      r := Ok(());
    }

    /** The statements of a delete that goes through: a tombstone in, the history, the row and its
        own edges out; inbound edges keep pointing at the id. */
    method Purge(id: Id, deletedBy: string, now: string)
      requires id in live
      modifies this
      ensures Ok(Abs()) == Store.Delete(old(Abs()), DeleteStep(id, deletedBy, now))
    {
      var m := live[id];
      tombs := tombs[id := Tombstone(m.title, m.taxonomy, m.createdAt, now, deletedBy, m.version)];
      revs := map k | k in revs && k.id != id :: revs[k];
      live := live - {id};
      edges := Without(edges, id);
    }

    /** RebuildEdges: clears the table and syncs every row in the order of a scan. */
    method RebuildEdges(order: seq<Id>)
      requires Valid() && Scan(live, order)
      modifies this`edges
      ensures Valid()
      ensures Abs() == Apply(old(Abs()), RebuildStep(order))
    {
      ghost var before := Abs();
      RebuildReady(before, order);
      edges := map[];
      SyncInOrder(order);
      RebuildDone(before, Abs(), order);
    }

    method SyncInOrder(order: seq<Id>)
      requires live.Keys !! tombs.Keys && NamesOk(live)
      requires forall id | id in order :: id in live
      modifies this`edges
      ensures edges == SyncAll(live, tombs, old(edges), order)
    {
      ghost var before := edges;
      for i := 0 to |order|
        invariant SyncAll(live, tombs, edges, order[i..]) == SyncAll(live, tombs, before, order)
      {
        assert order[i..][0] == order[i] && order[i..][1..] == order[i + 1..];
        var _ := SyncEdges(order[i]);
      }
    }

    /** Revisions: the whole history of a memory, newest first; nothing once it is deleted. */
    method Revisions(id: Id) returns (out: seq<Revision>)
      requires HistoryOk(live, revs)
      ensures |out| == if id in live then live[id].version else 0
      ensures forall v | 1 <= v <= |out| :: RevKey(id, v) in revs && out[|out| - v] == revs[RevKey(id, v)]
    {
      out := [];
      if id in live {
        var n := live[id].version;
        for v := n downto 0
          invariant |out| == n - v
          invariant forall u | v < u <= n :: RevKey(id, u) in revs && out[n - u] == revs[RevKey(id, u)]
        {
          assert RevKey(id, v + 1) in revs;
          out := out + [revs[RevKey(id, v + 1)]];
        }
      }
    }
  }
}
