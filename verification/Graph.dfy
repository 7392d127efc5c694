/** The scoped link graph: a depth-bounded neighbourhood in which leaves never bridge. */
module Graphs {
  import opened Options
  import opened Links
  import opened Scopes
  import opened Store

  /** A row of `edges` as read: no destination while it dangles. */
  datatype Row = Row(src: Id, dst: Option<Id>, raw: string, rel: Rel)

  datatype Node = Node(id: Id, title: string, taxonomy: string, authority: nat, superseded: bool, kind: Kind)
  datatype Kind = Real | HiddenContent | Removed(deletedAt: string, deletedBy: string) | Dangling
  datatype Edge = Edge(src: Id, dst: Id, rel: Rel)
  datatype Graph = Graph(center: Id, nodes: seq<Node>, edges: seq<Edge>)

  const DANGLING := "dangling:"
  const MAX_DEPTH := 4

  // ---- nodes ----

  /** Inbound boosting links from other memories. */
  function Authority(rows: seq<Row>, id: Id): nat {
    if rows == [] then 0
    else
      var r := rows[0];
      (if r.dst == Some(id) && r.src != id && (r.rel.Relates? || r.rel.DependsOn?) then 1 else 0)
      + Authority(rows[1..], id)
  }

  predicate Superseded(rows: seq<Row>, id: Id) {
    exists r | r in rows :: r.dst == Some(id) && r.src != id && r.rel.Supersedes?
  }

  function RealNode(live: map<Id, Memory>, rows: seq<Row>, id: Id): Node
    requires id in live
  {
    Node(id, live[id].title, live[id].taxonomy, Authority(rows, id), Superseded(rows, id), Real)
  }

  function TombNode(id: Id, t: Tombstone): Node {
    Node(id, t.title, t.taxonomy, 0, false, Removed(t.deletedAt, t.deletedBy))
  }

  function TitleNode(id: Id, m: Memory): Node {
    Node(id, m.title, m.taxonomy, 0, false, HiddenContent)
  }

  function GhostNode(raw: string): Node {
    Node(DANGLING + raw, raw, "", 0, false, Dangling)
  }

  /** What the caller may read: the participants of the graph. */
  function Readable(live: map<Id, Memory>, rows: seq<Row>, scope: Scope): map<Id, Node> {
    map id | id in live && scope.CanRead(live[id].taxonomy) :: RealNode(live, rows, id)
  }

  predicate TitleOnly(scope: Scope, taxonomy: string) {
    !scope.CanRead(taxonomy) && scope.TitleVisible(taxonomy)
  }

  /** What may end an edge but never continue a path. */
  function Leaves(live: map<Id, Memory>, tombs: map<Id, Tombstone>, scope: Scope): map<Id, Node> {
    TombLeaves(tombs, scope) + TitleLeaves(live, scope)
  }

  function TombLeaves(tombs: map<Id, Tombstone>, scope: Scope): map<Id, Node> {
    map id | id in tombs && scope.TitleVisible(tombs[id].taxonomy) :: TombNode(id, tombs[id])
  }

  function TitleLeaves(live: map<Id, Memory>, scope: Scope): map<Id, Node> {
    TitleLeavesIn(live, scope, live.Keys)
  }

  function TitleLeavesIn(live: map<Id, Memory>, scope: Scope, ids: set<Id>): map<Id, Node> {
    map id | id in live && id in ids && TitleOnly(scope, live[id].taxonomy) :: TitleNode(id, live[id])
  }

  /** `all` without the ids of `done` that may not be read. */
  function Restricted(live: map<Id, Memory>, scope: Scope, all: map<Id, Node>, done: set<Id>): map<Id, Node> {
    map id | id in all && !(id in done && id in live && !scope.CanRead(live[id].taxonomy)) :: all[id]
  }

  lemma RestrictOneMore(live: map<Id, Memory>, scope: Scope, all: map<Id, Node>, done: set<Id>, id: Id)
    requires id in live
    ensures Restricted(live, scope, all, done + {id}) ==
      if scope.CanRead(live[id].taxonomy) then Restricted(live, scope, all, done)
      else Restricted(live, scope, all, done) - {id}
  {
  }

  lemma PlusUpdate(a: map<Id, Node>, b: map<Id, Node>, id: Id, n: Node)
    ensures (a + b)[id := n] == a + b[id := n]
  {
  }

  lemma TitleOneMore(live: map<Id, Memory>, scope: Scope, done: set<Id>, id: Id)
    requires id in live
    ensures TitleLeavesIn(live, scope, done + {id}) ==
      if TitleOnly(scope, live[id].taxonomy) then TitleLeavesIn(live, scope, done)[id := TitleNode(id, live[id])]
      else TitleLeavesIn(live, scope, done)
  {
  }

  /** The loop of a restricted scope: deletes from `meta` what may not be read, and turns the
      part of it that may be known into leaves. */
  method RestrictTo(live: map<Id, Memory>, scope: Scope, all: map<Id, Node>, tombLeaves: map<Id, Node>)
      returns (meta: map<Id, Node>, leaves: map<Id, Node>)
    ensures meta == Restricted(live, scope, all, live.Keys)
    ensures leaves == tombLeaves + TitleLeaves(live, scope)
  {
    meta, leaves := all, tombLeaves;
    var rest := live.Keys;
    ghost var done := {};
    while rest != {}
      invariant rest <= live.Keys && done == live.Keys - rest
      invariant meta == Restricted(live, scope, all, done)
      invariant leaves == tombLeaves + TitleLeavesIn(live, scope, done)
    {
      var id :| id in rest;
      var read, titled := scope.CanRead(live[id].taxonomy), scope.TitleVisible(live[id].taxonomy);
      RestrictOneMore(live, scope, all, done, id);
      TitleOneMore(live, scope, done, id);
      assert done + {id} - {id} == done;
      rest, done := rest - {id}, done + {id};
      if !read {
        if titled {
          PlusUpdate(tombLeaves, TitleLeavesIn(live, scope, done - {id}), id, TitleNode(id, live[id]));
          leaves := leaves[id := TitleNode(id, live[id])];
        }
        meta := meta - {id};
      }
    }
    assert done == live.Keys;
  }

  method SplitByScope(live: map<Id, Memory>, tombs: map<Id, Tombstone>, rows: seq<Row>, scope: Scope)
      returns (meta: map<Id, Node>, leaves: map<Id, Node>)
    ensures meta == Readable(live, rows, scope) && leaves == Leaves(live, tombs, scope)
  {
    meta := map id | id in live :: RealNode(live, rows, id);
    leaves := TombLeaves(tombs, scope);
    if scope.all {
      assert TitleLeaves(live, scope) == map[];
    } else {
      meta, leaves := RestrictTo(live, scope, meta, leaves);
    }
    assert meta == Readable(live, rows, scope);
  }

  // ---- the neighbourhood ----

  /** A resolved row joins `a` and `b`, in either direction. */
  ghost predicate Linked(rows: seq<Row>, a: Id, b: Id) {
    exists r :: r in rows && Joins(r, a, b)
  }

  predicate Joins(r: Row, a: Id, b: Id) {
    (r.src == a && r.dst == Some(b)) || (r.src == b && r.dst == Some(a))
  }

  /** A path of links all of whose nodes are in `among`. */
  ghost predicate IsPath(rows: seq<Row>, among: set<Id>, path: seq<Id>) {
    && path != []
    && (forall i | 0 <= i < |path| :: path[i] in among)
    && (forall i | 0 <= i < |path| - 1 :: Linked(rows, path[i], path[i + 1]))
  }

  ghost predicate Reaches(rows: seq<Row>, among: set<Id>, center: Id, id: Id, k: nat) {
    exists path :: IsPath(rows, among, path) && path[0] == center && path[|path| - 1] == id && |path| - 1 <= k
  }

  /** The nodes within `k` hops of the center. */
  ghost function Ball(rows: seq<Row>, among: set<Id>, center: Id, k: nat): set<Id> {
    if k == 0 then {center} else Grow(rows, among, Ball(rows, among, center, k - 1))
  }

  /** One hop more. */
  ghost function Grow(rows: seq<Row>, among: set<Id>, inner: set<Id>): set<Id> {
    inner + set b | b in among && Borders(rows, inner, b)
  }

  ghost predicate Borders(rows: seq<Row>, inner: set<Id>, b: Id) {
    exists a :: a in inner && Linked(rows, a, b)
  }

  lemma {:induction false} BallGrows(rows: seq<Row>, among: set<Id>, center: Id, j: nat, k: nat)
    requires j <= k
    ensures Ball(rows, among, center, j) <= Ball(rows, among, center, k)
    decreases k
  {
    if j < k {
      BallGrows(rows, among, center, j, k - 1);
    }
  }

  lemma {:induction false} BallInside(rows: seq<Row>, among: set<Id>, center: Id, k: nat)
    requires center in among
    ensures Ball(rows, among, center, k) <= among
  {
    if k > 0 {
      BallInside(rows, among, center, k - 1);
    }
  }

  lemma {:induction false} BallIsReached(rows: seq<Row>, among: set<Id>, center: Id, id: Id, k: nat)
      returns (path: seq<Id>)
    requires center in among && id in Ball(rows, among, center, k)
    ensures IsPath(rows, among, path) && path[0] == center && path[|path| - 1] == id && |path| - 1 <= k
    decreases k
  {
    if k == 0 {
      path := [center];
    } else if id in Ball(rows, among, center, k - 1) {
      path := BallIsReached(rows, among, center, id, k - 1);
    } else {
      assert Borders(rows, Ball(rows, among, center, k - 1), id);
      var a :| a in Ball(rows, among, center, k - 1) && Linked(rows, a, id);
      var p := BallIsReached(rows, among, center, a, k - 1);
      path := p + [id];
      forall i | 0 <= i < |path| - 1 ensures Linked(rows, path[i], path[i + 1]) {
        if i < |p| - 1 { assert Linked(rows, p[i], p[i + 1]); }
      }
    }
  }

  lemma {:induction false} ReachedIsInBall(rows: seq<Row>, among: set<Id>, path: seq<Id>, k: nat)
    requires IsPath(rows, among, path) && |path| - 1 <= k
    ensures path[|path| - 1] in Ball(rows, among, path[0], k)
    decreases |path|
  {
    if |path| > 1 {
      var p := path[..|path| - 1];
      forall i | 0 <= i < |p| - 1 ensures Linked(rows, p[i], p[i + 1]) {
        assert Linked(rows, path[i], path[i + 1]);
      }
      ReachedIsInBall(rows, among, p, |p| - 1);
      assert Linked(rows, path[|path| - 2], path[|path| - 1]);
      BallGrows(rows, among, path[0], |path| - 1, k);
    } else {
      BallGrows(rows, among, path[0], 0, k);
    }
  }

  /** The neighbourhood is exactly what paths of at most `k` links among the readable reach. */
  lemma BallIsExact(rows: seq<Row>, among: set<Id>, center: Id, id: Id, k: nat)
    requires center in among
    ensures id in Ball(rows, among, center, k) <==> Reaches(rows, among, center, id, k)
  {
    if id in Ball(rows, among, center, k) {
      var path := BallIsReached(rows, among, center, id, k);
    }
    if path :| IsPath(rows, among, path) && path[0] == center && path[|path| - 1] == id && |path| - 1 <= k {
      ReachedIsInBall(rows, among, path, k);
    }
  }

  function Hops(depth: int): nat {
    if depth <= 0 then 2 else if depth > MAX_DEPTH then MAX_DEPTH else depth
  }

  predicate InTaxonomy(taxonomy: string, branch: string) {
    branch == "" || Under(taxonomy, branch)
  }

  ghost function Included(rows: seq<Row>, meta: map<Id, Node>, center: Id, depth: int, taxonomy: string): set<Id> {
    if center == "" then set id | id in meta && InTaxonomy(meta[id].taxonomy, taxonomy)
    else Ball(rows, meta.Keys, center, Hops(depth))
  }

  type Adjacency = map<Id, seq<Id>>

  function Neighbours(adj: Adjacency, a: Id): seq<Id> {
    if a in adj then adj[a] else []
  }

  /** `adj` lists the neighbours of each participant among the participants. */
  ghost predicate Adjoins(adj: Adjacency, rows: seq<Row>, among: set<Id>) {
    forall a, b :: b in Neighbours(adj, a) <==> a in among && b in among && Linked(rows, a, b)
  }

  lemma LinkedAppend(rows: seq<Row>, r: Row, a: Id, b: Id)
    ensures Linked(rows + [r], a, b) <==> Linked(rows, a, b) || Joins(r, a, b)
  {
    if Linked(rows, a, b) {
      var q :| q in rows && Joins(q, a, b);
      assert q in rows + [r];
    }
    assert r in rows + [r];
  }

  lemma AdjoinsOneMore(adj: Adjacency, rows: seq<Row>, among: set<Id>, r: Row, adj': Adjacency)
    requires Adjoins(adj, rows, among)
    requires if r.dst.None? || r.src !in among || r.dst.value !in among then adj' == adj
      else forall a, b :: b in Neighbours(adj', a) <==> b in Neighbours(adj, a) || Joins(r, a, b)
    ensures Adjoins(adj', rows + [r], among)
  {
    forall a, b ensures b in Neighbours(adj', a) <==> a in among && b in among && Linked(rows + [r], a, b) {
      LinkedAppend(rows, r, a, b);
    }
  }

  method BuildAdjacency(rows: seq<Row>, among: set<Id>) returns (adj: Adjacency)
    ensures Adjoins(adj, rows, among)
  {
    adj := map[];
    for i := 0 to |rows|
      invariant Adjoins(adj, rows[..i], among)
    {
      var r := rows[i];
      ghost var before := adj;
      assert rows[..i + 1] == rows[..i] + [r];
      if r.dst.Some? && r.src in among && r.dst.value in among {
        var d := r.dst.value;
        adj := adj[r.src := Neighbours(adj, r.src) + [d]];
        adj := adj[d := Neighbours(adj, d) + [r.src]];
      }
      AdjoinsOneMore(before, rows[..i], among, r, adj);
    }
    assert rows[..|rows|] == rows;
  }

  /** Everything one link away from a visited node outside the frontier is visited. */
  ghost predicate Expanded(rows: seq<Row>, among: set<Id>, visited: set<Id>, frontier: set<Id>) {
    forall a, b | a in visited && a !in frontier && b in among && Linked(rows, a, b) :: b in visited
  }

  lemma BallStep(rows: seq<Row>, among: set<Id>, center: Id, d: nat, visited: set<Id>, frontier: set<Id>,
                 grown: set<Id>)
    requires visited == Ball(rows, among, center, d) && Expanded(rows, among, visited, frontier) && frontier <= visited
    requires forall b :: b in grown <==> b in visited || (b in among && Borders(rows, frontier, b))
    ensures grown == Ball(rows, among, center, d + 1)
    ensures Expanded(rows, among, grown, grown - visited)
  {
    var out := Ball(rows, among, center, d + 1);
    forall b ensures b in grown <==> b in out {
      if b in out && b !in visited {
        assert Borders(rows, visited, b);
        var a :| a in visited && Linked(rows, a, b);
        assert a in frontier;
      }
      if b in among && Borders(rows, frontier, b) {
        var a :| a in frontier && Linked(rows, a, b);
        assert a in visited;
      }
    }
  }

  lemma BorderInside(rows: seq<Row>, among: set<Id>, inner: set<Id>, b: Id)
    requires Expanded(rows, among, inner, {}) && b in among && Borders(rows, inner, b)
    ensures b in inner
  {
    var a :| a in inner && Linked(rows, a, b);
  }

  lemma {:induction false} BallFixed(rows: seq<Row>, among: set<Id>, center: Id, d: nat, k: nat)
    requires d <= k && Expanded(rows, among, Ball(rows, among, center, d), {})
    ensures Ball(rows, among, center, k) == Ball(rows, among, center, d)
    decreases k
  {
    if d < k {
      BallFixed(rows, among, center, d, k - 1);
      GrowFixed(rows, among, Ball(rows, among, center, k - 1));
    }
  }

  lemma GrowFixed(rows: seq<Row>, among: set<Id>, inner: set<Id>)
    requires Expanded(rows, among, inner, {})
    ensures Grow(rows, among, inner) == inner
  {
    forall b | b in among && Borders(rows, inner, b) ensures b in inner {
      BorderInside(rows, among, inner, b);
    }
  }

  ghost function Elements(s: seq<Id>): (e: set<Id>)
    ensures forall a :: a in e <==> a in s
  {
    set a | a in s
  }

  lemma BordersOneMore(rows: seq<Row>, part: seq<Id>, id: Id)
    ensures forall b :: Borders(rows, Elements(part + [id]), b) <==>
      Borders(rows, Elements(part), b) || Linked(rows, id, b)
  {
    forall b
      ensures Borders(rows, Elements(part + [id]), b) <==> Borders(rows, Elements(part), b) || Linked(rows, id, b)
    {
      if Borders(rows, Elements(part), b) {
        var a :| a in Elements(part) && Linked(rows, a, b);
        assert a in Elements(part + [id]);
      }
      assert id in Elements(part + [id]);
    }
  }

  /** Adds the unvisited neighbours of one frontier. */
  method Expand(adj: Adjacency, ghost rows: seq<Row>, ghost among: set<Id>, visited0: set<Id>, frontier: seq<Id>)
      returns (visited: set<Id>, next: seq<Id>)
    requires Adjoins(adj, rows, among) && forall a | a in frontier :: a in visited0 && a in among
    ensures forall b :: b in visited <==> b in visited0 || (b in among && Borders(rows, Elements(frontier), b))
    ensures forall b :: b in next <==> b in visited && b !in visited0
  {
    visited, next := visited0, [];
    for i := 0 to |frontier|
      invariant forall b :: b in visited <==> b in visited0 || (b in among && Borders(rows, Elements(frontier[..i]), b))
      invariant forall b :: b in next <==> b in visited && b !in visited0
    {
      var id := frontier[i];
      var ns := Neighbours(adj, id);
      ghost var before := visited;
      for j := 0 to |ns|
        invariant forall b :: b in visited <==> b in before || b in ns[..j]
        invariant forall b :: b in next <==> b in visited && b !in visited0
      {
        var nb := ns[j];
        assert ns[..j + 1] == ns[..j] + [nb];
        if nb !in visited {
          visited := visited + {nb};
          next := next + [nb];
        }
      }
      assert ns[..|ns|] == ns && frontier[..i + 1] == frontier[..i] + [id];
      assert id in frontier && forall b :: b in ns <==> b in among && Linked(rows, id, b);
      BordersOneMore(rows, frontier[..i], id);
    }
    assert frontier[..|frontier|] == frontier;
  }

  /** includedNodes: the branch without a center, else breadth-first search from it. */
  method IncludedNodes(rows: seq<Row>, meta: map<Id, Node>, center: Id, depth: int, taxonomy: string)
      returns (included: set<Id>)
    requires center != "" ==> center in meta
    ensures included == Included(rows, meta, center, depth, taxonomy)
  {
    if center == "" {
      return set id | id in meta && InTaxonomy(meta[id].taxonomy, taxonomy);
    }
    var hops := Hops(depth);
    var adj := BuildAdjacency(rows, meta.Keys);
    included := Search(adj, rows, meta.Keys, center, hops);
  }

  method Search(adj: Adjacency, ghost rows: seq<Row>, ghost among: set<Id>, center: Id, hops: nat)
      returns (visited: set<Id>)
    requires Adjoins(adj, rows, among) && center in among
    ensures visited == Ball(rows, among, center, hops)
  {
    visited := {center};
    var frontier := [center];
    var d := 0;
    while d < hops && |frontier| > 0
      invariant d <= hops && visited == Ball(rows, among, center, d)
      invariant Expanded(rows, among, visited, Elements(frontier))
      invariant forall a | a in frontier :: a in visited && a in among
    {
      ghost var before, edge := visited, Elements(frontier);
      visited, frontier := Expand(adj, rows, among, visited, frontier);
      BallStep(rows, among, center, d, before, edge, visited);
      BallInside(rows, among, center, d + 1);
      assert Elements(frontier) == visited - before;
      d := d + 1;
    }
    if |frontier| == 0 {
      assert Elements(frontier) == {};
      BallFixed(rows, among, center, d, hops);
    }
  }

  // ---- drawing ----

  /** How a row is drawn, given the included nodes and the leaves. */
  function Drawn(r: Row, included: set<Id>, leaves: map<Id, Node>): Option<Edge> {
    if r.src !in included then None
    else if r.dst.None? then Some(Edge(r.src, DANGLING + r.raw, r.rel))
    else if r.dst.value in leaves || r.dst.value in included then Some(Edge(r.src, r.dst.value, r.rel))
    else None
  }

  function DrawAll(rows: seq<Row>, included: set<Id>, leaves: map<Id, Node>): seq<Edge> {
    if rows == [] then []
    else
      var e := Drawn(rows[0], included, leaves);
      (if e.Some? then [e.value] else []) + DrawAll(rows[1..], included, leaves)
  }

  /** The node a drawn row brings in beyond the included ones. */
  function Attached(r: Row, included: set<Id>, leaves: map<Id, Node>): Option<Node> {
    if r.src !in included then None
    else if r.dst.None? then Some(GhostNode(r.raw))
    else if r.dst.value in leaves then Some(leaves[r.dst.value])
    else None
  }

  ghost predicate IsNode(n: Node, rows: seq<Row>, meta: map<Id, Node>, included: set<Id>, leaves: map<Id, Node>) {
    (exists id :: id in included && id in meta && n == meta[id]) || IsAttached(n, rows, included, leaves)
  }

  ghost predicate IsAttached(n: Node, rows: seq<Row>, included: set<Id>, leaves: map<Id, Node>) {
    exists r :: r in rows && Attached(r, included, leaves) == Some(n)
  }

  ghost predicate DistinctIds(nodes: seq<Node>) {
    forall i, j | 0 <= i < j < |nodes| :: nodes[i].id != nodes[j].id
  }

  /** A drawn row ends in an included memory that is a leaf as well. */
  ghost predicate Doubled(rows: seq<Row>, included: set<Id>, leaves: map<Id, Node>) {
    exists r :: r in rows && EndsDoubled(r, included, leaves)
  }

  predicate EndsDoubled(r: Row, included: set<Id>, leaves: map<Id, Node>) {
    r.src in included && r.dst.Some? && r.dst.value in leaves && r.dst.value in included
  }

  /** The node and edge lists of a graph, up to the order of the nodes. */
  ghost predicate IsGraph(g: Graph, rows: seq<Row>, meta: map<Id, Node>, leaves: map<Id, Node>,
                          center: Id, depth: int, taxonomy: string) {
    var included := Included(rows, meta, center, depth, taxonomy);
    && g.center == center
    && g.edges == DrawAll(rows, included, leaves)
    && (DistinctIds(g.nodes) <==> !Doubled(rows, included, leaves))
    && forall n :: n in g.nodes <==> IsNode(n, rows, meta, included, leaves)
  }

  /** Ids never look like the id of a dangling node. */
  ghost predicate NoGhostIds(live: map<Id, Memory>, tombs: map<Id, Tombstone>) {
    forall id | id in live || id in tombs :: !(DANGLING <= id)
  }

  lemma {:induction false} DrawAllAppend(rows: seq<Row>, r: Row, included: set<Id>, leaves: map<Id, Node>)
    ensures var e := Drawn(r, included, leaves);
      DrawAll(rows + [r], included, leaves) == DrawAll(rows, included, leaves) + (if e.Some? then [e.value] else [])
  {
    if rows == [] {
      assert rows + [r] == [r];
    } else {
      assert (rows + [r])[1..] == rows[1..] + [r];
      DrawAllAppend(rows[1..], r, included, leaves);
    }
  }

  lemma AttachedAppend(rows: seq<Row>, r: Row, n: Node, included: set<Id>, leaves: map<Id, Node>)
    ensures IsAttached(n, rows + [r], included, leaves) <==>
      IsAttached(n, rows, included, leaves) || Attached(r, included, leaves) == Some(n)
  {
    if IsAttached(n, rows, included, leaves) {
      var q :| q in rows && Attached(q, included, leaves) == Some(n);
      assert q in rows + [r];
    }
    assert r in rows + [r];
  }

  /** Nodes carry the id they are filed under, and none looks like a dangling one. */
  ghost predicate Separate(meta: map<Id, Node>, leaves: map<Id, Node>) {
    && (forall id | id in meta :: meta[id].id == id && !(DANGLING <= id))
    && (forall id | id in leaves :: leaves[id].id == id && !(DANGLING <= id))
  }

  /** Included nodes first, each once. */
  method ListIncluded(meta: map<Id, Node>, included: set<Id>) returns (nodes: seq<Node>)
    requires included <= meta.Keys && forall id | id in meta :: meta[id].id == id
    ensures DistinctIds(nodes)
    ensures forall n :: n in nodes <==> exists id :: id in included && n == meta[id]
  {
    nodes := [];
    var rest := included;
    while rest != {}
      invariant rest <= included && DistinctIds(nodes)
      invariant forall n :: n in nodes <==> exists id :: id in included - rest && n == meta[id]
      invariant forall i | 0 <= i < |nodes| :: nodes[i].id in included - rest
    {
      var id :| id in rest;
      nodes := nodes + [meta[id]];
      rest := rest - {id};
    }
  }

  lemma IncludedInside(rows: seq<Row>, meta: map<Id, Node>, center: Id, depth: int, taxonomy: string)
    requires center != "" ==> center in meta
    ensures Included(rows, meta, center, depth, taxonomy) <= meta.Keys
  {
    if center != "" {
      BallInside(rows, meta.Keys, center, Hops(depth));
    }
  }

  /** Nodes attached under one id are one node. */
  lemma AttachedById(r: Row, q: Row, n: Node, m: Node, included: set<Id>, meta: map<Id, Node>, leaves: map<Id, Node>)
    requires Separate(meta, leaves) && n.id == m.id
    requires Attached(r, included, leaves) == Some(n) && Attached(q, included, leaves) == Some(m)
    ensures n == m
  {
    if r.dst.None? && q.dst.None? {
      assert r.raw == (DANGLING + r.raw)[|DANGLING|..] == (DANGLING + q.raw)[|DANGLING|..] == q.raw;
    }
  }

  lemma AttachedId(r: Row, n: Node, included: set<Id>, meta: map<Id, Node>, leaves: map<Id, Node>)
    requires Separate(meta, leaves) && included <= meta.Keys && Attached(r, included, leaves) == Some(n)
    ensures n.id == if r.dst.Some? then r.dst.value else DANGLING + r.raw
    ensures n.id in included <==> EndsDoubled(r, included, leaves)
  {
    if r.dst.None? {
      assert DANGLING <= n.id;
    }
  }

  /** The nodes attached so far, each once, and their ids. */
  ghost predicate Extra(extra: seq<Node>, ghosts: set<Id>, rows: seq<Row>, included: set<Id>, leaves: map<Id, Node>) {
    && DistinctIds(extra)
    && (forall n :: n in extra <==> IsAttached(n, rows, included, leaves))
    && (forall n | n in extra :: n.id in ghosts)
    && (forall gid | gid in ghosts :: exists n :: n in extra && n.id == gid)
  }

  lemma ExtraOneMore(extra: seq<Node>, ghosts: set<Id>, rows: seq<Row>, r: Row, included: set<Id>,
                     meta: map<Id, Node>, leaves: map<Id, Node>, extra': seq<Node>, ghosts': set<Id>)
    requires Separate(meta, leaves) && Extra(extra, ghosts, rows, included, leaves)
    requires var a := Attached(r, included, leaves);
      if a.None? || a.value.id in ghosts then extra' == extra && ghosts' == ghosts
      else extra' == extra + [a.value] && ghosts' == ghosts + {a.value.id}
    ensures Extra(extra', ghosts', rows + [r], included, leaves)
  {
    var a := Attached(r, included, leaves);
    if a.Some? && a.value.id in ghosts {
      var m :| m in extra && m.id == a.value.id;
      assert IsAttached(m, rows, included, leaves);
      var q :| q in rows && Attached(q, included, leaves) == Some(m);
      AttachedById(r, q, a.value, m, included, meta, leaves);
    }
    forall n ensures n in extra' <==> IsAttached(n, rows + [r], included, leaves) {
      AttachedAppend(rows, r, n, included, leaves);
    }
    assert forall i | 0 <= i < |extra| :: extra[i] in extra;
  }

  /** The loop over the edge rows: draws each, attaching leaves and ghosts on demand. */
  method DrawRows(rows: seq<Row>, included: set<Id>, ghost meta: map<Id, Node>, leaves: map<Id, Node>)
      returns (extra: seq<Node>, edges: seq<Edge>)
    requires Separate(meta, leaves)
    ensures edges == DrawAll(rows, included, leaves) && DistinctIds(extra)
    ensures forall n :: n in extra <==> IsAttached(n, rows, included, leaves)
  {
    extra, edges := [], [];
    var ghosts: set<Id> := {};
    for i := 0 to |rows|
      invariant edges == DrawAll(rows[..i], included, leaves)
      invariant Extra(extra, ghosts, rows[..i], included, leaves)
    {
      var r := rows[i];
      ghost var extra0, ghosts0 := extra, ghosts;
      assert rows[..i + 1] == rows[..i] + [r];
      DrawAllAppend(rows[..i], r, included, leaves);
      if r.src in included {
        if r.dst.Some? {
          var d := r.dst.value;
          if d in leaves {
            if d !in ghosts {
              ghosts := ghosts + {d};
              extra := extra + [leaves[d]];
            }
            edges := edges + [Edge(r.src, d, r.rel)];
          } else if d in included {
            edges := edges + [Edge(r.src, d, r.rel)];
          }
        } else {
          var gid := DANGLING + r.raw;
          if gid !in ghosts {
            ghosts := ghosts + {gid};
            extra := extra + [GhostNode(r.raw)];
          }
          edges := edges + [Edge(r.src, gid, r.rel)];
        }
      }
      ExtraOneMore(extra0, ghosts0, rows[..i], r, included, meta, leaves, extra, ghosts);
    }
    assert rows[..|rows|] == rows;
  }

  lemma ParticipantsSeparate(live: map<Id, Memory>, tombs: map<Id, Tombstone>, rows: seq<Row>, scope: Scope)
    requires NoGhostIds(live, tombs)
    ensures Separate(Readable(live, rows, scope), Leaves(live, tombs, scope))
  {
  }

  lemma JoinNodes(nodes: seq<Node>, extra: seq<Node>, rows: seq<Row>, meta: map<Id, Node>,
                  included: set<Id>, leaves: map<Id, Node>)
    requires Separate(meta, leaves) && included <= meta.Keys
    requires DistinctIds(nodes) && forall n :: n in nodes <==> exists id :: id in included && n == meta[id]
    requires DistinctIds(extra) && forall n :: n in extra <==> IsAttached(n, rows, included, leaves)
    ensures DistinctIds(nodes + extra) <==> !Doubled(rows, included, leaves)
    ensures forall n :: n in nodes + extra <==> IsNode(n, rows, meta, included, leaves)
  {
    if Doubled(rows, included, leaves) {
      var r :| r in rows && EndsDoubled(r, included, leaves);
      var d := r.dst.value;
      assert meta[d] in nodes && Attached(r, included, leaves) == Some(leaves[d]) && leaves[d] in extra;
      var i :| 0 <= i < |nodes| && nodes[i] == meta[d];
      var j :| 0 <= j < |extra| && extra[j] == leaves[d];
      assert (nodes + extra)[i].id == (nodes + extra)[|nodes| + j].id;
    } else {
      forall i, j | 0 <= i < |nodes| && 0 <= j < |extra| ensures nodes[i].id != extra[j].id {
        assert nodes[i] in nodes && extra[j] in extra;
        var r :| r in rows && Attached(r, included, leaves) == Some(extra[j]);
        AttachedId(r, extra[j], included, meta, leaves);
      }
    }
  }

  /** Graph: nothing is found for a center the caller may not read. Memories, edges and tombstones
      are read in three statements, the first of which counts the edges it finds: `first` and `rows` need
      not agree, and one id may turn up among the memories and the tombstones. */
  method BuildGraph(live: map<Id, Memory>, first: seq<Row>, rows: seq<Row>, tombs: map<Id, Tombstone>,
                    scope: Scope, center: Id, depth: int, taxonomy: string) returns (r: Option<Graph>)
    requires NoGhostIds(live, tombs)
    ensures r.None? <==> center != "" && center !in Readable(live, first, scope)
    ensures r.Some? ==>
      IsGraph(r.value, rows, Readable(live, first, scope), Leaves(live, tombs, scope), center, depth, taxonomy)
  {
    var meta, leaves := SplitByScope(live, tombs, first, scope);
    if center != "" && center !in meta {
      return None;
    }
    ParticipantsSeparate(live, tombs, first, scope);
    var included := IncludedNodes(rows, meta, center, depth, taxonomy);
    IncludedInside(rows, meta, center, depth, taxonomy);
    var nodes := ListIncluded(meta, included);
    var extra, edges := DrawRows(rows, included, meta, leaves);
    JoinNodes(nodes, extra, rows, meta, included, leaves);
    r := Some(Graph(center, nodes + extra, edges));
  }
}
