/** The memory store as a state machine over its four tables.
    Each step is one transaction on a single connection, so a failed step changes nothing. */
module Store {
  import opened Options
  import opened Text
  import opened Links

  type Id = string

  /** A row of `memories`. */
  datatype Memory = Memory(title: string, content: string, taxonomy: string, format: string,
                           createdAt: string, updatedAt: string, version: nat)

  /** A row of `revisions`; its key is (memory id, version). */
  datatype RevKey = RevKey(id: Id, version: nat)
  datatype Revision = Revision(title: string, content: string, taxonomy: string, format: string,
                               author: string, agent: string, createdAt: string)

  datatype Tombstone = Tombstone(title: string, taxonomy: string, createdAt: string,
                                 deletedAt: string, deletedBy: string, finalVersion: nat)

  /** The primary key of `edges`; the row's value is its destination, None while it dangles. */
  datatype EdgeKey = EdgeKey(src: Id, raw: string, rel: Rel)
  type Edges = map<EdgeKey, Option<Id>>

  datatype State = State(live: map<Id, Memory>, revs: map<RevKey, Revision>,
                         tombs: map<Id, Tombstone>, edges: Edges)

  const EMPTY: State := State(map[], map[], map[], map[])

  datatype StoreError =
    | NotFound
    | Deleted(tombstone: Tombstone)
    | VersionConflict(base: int, current: nat)
    | TitleConflict(title: string, other: Id)

  /** The columns an update may set; a missing one is left as it is. */
  datatype Updates = Updates(title: Option<string>, content: Option<string>,
                             taxonomy: Option<string>, format: Option<string>)

  datatype Meta = Meta(author: string, agent: string, now: string)

  function FormatOrDefault(format: string): string {
    if format == "" then "markdown" else format
  }

  /** insertRevision: the snapshot written for a memory's current version. */
  function Snapshot(m: Memory, meta: Meta): Revision {
    Revision(m.title, m.content, m.taxonomy, FormatOrDefault(m.format), meta.author, meta.agent, meta.now)
  }

  // ---- resolving a name ----

  /** `d` is another live memory that SQL finds under `name`. */
  predicate Names(live: map<Id, Memory>, d: Id, name: string, except: Id) {
    d in live && d != except && SqlFold(live[d].title) == name
  }

  /** SELECT id FROM memories WHERE lower(trim(title)) = name AND id != except LIMIT 1. */
  ghost function Holder(live: map<Id, Memory>, name: string, except: Id): (r: Option<Id>)
    ensures r.Some? ==> Names(live, r.value, name, except)
    ensures r.None? ==> forall d :: !Names(live, d, name, except)
  {
    if exists d :: Names(live, d, name, except) then
      var d :| Names(live, d, name, except); Some(d)
    else None
  }

  // ---- the edge index ----

  predicate HasLink(content: string, k: EdgeKey) {
    Link(k.rel, k.raw) in Parse(content)
  }

  function OwnKeys(src: Id, links: seq<Link>): (keys: set<EdgeKey>)
    ensures forall k :: k in keys <==> k.src == src && Link(k.rel, k.raw) in links
  {
    var keys := set l | l in links :: EdgeKey(src, l.raw, l.rel);
    assert forall k: EdgeKey :: k.src == src && Link(k.rel, k.raw) in links ==>
      EdgeKey(src, Link(k.rel, k.raw).raw, Link(k.rel, k.raw).rel) == k && k in keys;
    keys
  }

  /** The row of `k` is bound to a deleted memory. */
  predicate TombBound(tombs: map<Id, Tombstone>, edges: Edges, k: EdgeKey) {
    k in edges && edges[k].Some? && edges[k].value in tombs
  }

  /** Where syncEdges points a link: a tombstone it was bound to, or else the name's holder. */
  ghost function Target(live: map<Id, Memory>, tombs: map<Id, Tombstone>, edges: Edges, k: EdgeKey): Option<Id> {
    if TombBound(tombs, edges, k) then edges[k] else Holder(live, k.raw, k.src)
  }

  function Without(edges: Edges, src: Id): Edges {
    map k | k in edges && k.src != src :: edges[k]
  }

  /** The rows of `src` replaced by the targets of `links`. */
  ghost function Relink(live: map<Id, Memory>, tombs: map<Id, Tombstone>, edges: Edges, src: Id,
                        links: seq<Link>): Edges {
    Without(edges, src) + map k | k in OwnKeys(src, links) :: Target(live, tombs, edges, k)
  }

  function Heal(edges: Edges, src: Id, name: string): Edges {
    map k | k in edges :: if edges[k] == None && k.raw == name && k.src != src then Some(src) else edges[k]
  }

  ghost function SyncEdges(live: map<Id, Memory>, tombs: map<Id, Tombstone>, edges: Edges, src: Id): Edges
    requires src in live
  {
    Heal(Relink(live, tombs, edges, src, Parse(live[src].content)), src, NormalizeLink(live[src].title))
  }

  /** RebuildEdges over the rows in scan order. */
  ghost function SyncAll(live: map<Id, Memory>, tombs: map<Id, Tombstone>, edges: Edges, order: seq<Id>): Edges
    requires forall id | id in order :: id in live
    decreases |order|
  {
    if order == [] then edges
    else SyncAll(live, tombs, SyncEdges(live, tombs, edges, order[0]), order[1..])
  }

  // ---- the steps ----

  datatype Step =
    | InsertStep(id: Id, title: string, content: string, taxonomy: string, format: string, meta: Meta)
    | UpdateStep(id: Id, updates: Updates, base: Option<int>, meta: Meta)
    | DeleteStep(id: Id, deletedBy: string, now: string)
    | RebuildStep(order: seq<Id>)

  /** What the environment supplies: an unused id for an insert, a scan of every row for a rebuild. */
  ghost predicate Enabled(s: State, step: Step) {
    match step
    case InsertStep(id, _, _, _, _, _) => id !in s.live && id !in s.tombs
    case RebuildStep(order) => Scan(s.live, order)
    case _ => true
  }

  ghost predicate Scan(live: map<Id, Memory>, order: seq<Id>) {
    Distinct(order) && forall id :: id in order <==> id in live
  }

  function Missing(tombs: map<Id, Tombstone>, id: Id): StoreError {
    if id in tombs then Deleted(tombs[id]) else NotFound
  }

  function Applied(m: Memory, u: Updates, now: string): Memory {
    Memory(if u.title.Some? then u.title.value else m.title,
           if u.content.Some? then u.content.value else m.content,
           if u.taxonomy.Some? then u.taxonomy.value else m.taxonomy,
           if u.format.Some? then u.format.value else m.format,
           m.createdAt, now, m.version + 1)
  }

  /** The row is written, its snapshot recorded and its edges synced. */
  ghost function Written(s: State, id: Id, m: Memory, meta: Meta): State {
    var live := s.live[id := m];
    State(live, s.revs[RevKey(id, m.version) := Snapshot(m, meta)], s.tombs,
          SyncEdges(live, s.tombs, s.edges, id))
  }

  ghost function Insert(s: State, step: Step): Result<State, StoreError>
    requires step.InsertStep?
  {
    var other := Holder(s.live, GoFold(step.title), step.id);
    if other.Some? then Err(TitleConflict(step.title, other.value))
    else
      Ok(Written(s, step.id,
                 Memory(step.title, step.content, step.taxonomy, FormatOrDefault(step.format),
                        step.meta.now, step.meta.now, 1), step.meta))
  }

  ghost function Update(s: State, step: Step): Result<State, StoreError>
    requires step.UpdateStep?
  {
    if step.id !in s.live then Err(Missing(s.tombs, step.id))
    else if step.base.Some? && step.base.value != s.live[step.id].version then
      Err(VersionConflict(step.base.value, s.live[step.id].version))
    else if step.updates.title.Some? && Holder(s.live, GoFold(step.updates.title.value), step.id).Some? then
      Err(TitleConflict(step.updates.title.value, Holder(s.live, GoFold(step.updates.title.value), step.id).value))
    else
      Ok(Written(s, step.id, Applied(s.live[step.id], step.updates, step.meta.now), step.meta))
  }

  function Delete(s: State, step: Step): Result<State, StoreError>
    requires step.DeleteStep?
  {
    if step.id !in s.live then Err(Missing(s.tombs, step.id))
    else
      var m := s.live[step.id];
      Ok(State(s.live - {step.id},
               map k | k in s.revs && k.id != step.id :: s.revs[k],
               s.tombs[step.id := Tombstone(m.title, m.taxonomy, m.createdAt, step.now, step.deletedBy, m.version)],
               Without(s.edges, step.id)))
  }

  ghost function Try(s: State, step: Step): Result<State, StoreError>
    requires Enabled(s, step)
  {
    match step
    case InsertStep(_, _, _, _, _, _) => Insert(s, step)
    case UpdateStep(_, _, _, _) => Update(s, step)
    case DeleteStep(_, _, _) => Delete(s, step)
    case RebuildStep(order) => Ok(s.(edges := SyncAll(s.live, s.tombs, map[], order)))
  }

  ghost function Apply(s: State, step: Step): State
    requires Enabled(s, step)
  {
    var r := Try(s, step);
    if r.Ok? then r.value else s
  }

  // ---- runs ----

  /** `trace` lists the states of a run of `steps` from the empty store. */
  ghost predicate IsRun(trace: seq<State>, steps: seq<Step>) {
    && |trace| == |steps| + 1
    && trace[0] == EMPTY
    && forall i {:trigger steps[i]} | 0 <= i < |steps| ::
      Enabled(trace[i], steps[i]) && trace[i + 1] == Apply(trace[i], steps[i])
  }
}
