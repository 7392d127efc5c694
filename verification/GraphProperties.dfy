/** What a reader of the scoped graph may rely on. */
module GraphProperties {
  import opened Options
  import opened Links
  import opened Scopes
  import opened Store
  import opened Graphs
  import opened Paths

  // ---- the neighbourhood ----

  /** Links count in both directions, and only those with a destination. */
  lemma LinkedIff(rows: seq<Row>, a: Id, b: Id)
    ensures Linked(rows, a, b) <==> exists r :: r in rows && r.dst.Some? && {r.src, r.dst.value} == {a, b}
  {
    if Linked(rows, a, b) {
      var r :| r in rows && Joins(r, a, b);
      assert {r.src, r.dst.value} == {a, b};
    }
    if r :| r in rows && r.dst.Some? && {r.src, r.dst.value} == {a, b} {
      EitherWay(r.src, r.dst.value, a, b);
      assert Joins(r, a, b);
    }
  }

  lemma EitherWay(c: Id, d: Id, a: Id, b: Id)
    requires {c, d} == {a, b}
    ensures (c == a && d == b) || (c == b && d == a)
  {
    assert a in {c, d} && b in {c, d} && c in {a, b} && d in {a, b};
  }

  /** With a center, the included memories are exactly those some path of readable memories reaches,
      of at most as many links as asked for (2 by default, 4 at most): nothing hidden, deleted or
      title-only bridges. */
  lemma EgoIsExact(live: map<Id, Memory>, first: seq<Row>, rows: seq<Row>, scope: Scope, center: Id, depth: int,
                   taxonomy: string, id: Id)
    requires center != "" && center in Readable(live, first, scope)
    ensures id in Included(rows, Readable(live, first, scope), center, depth, taxonomy) <==>
      Reaches(rows, Readable(live, first, scope).Keys, center, id,
              if depth <= 0 then 2 else if depth > 4 then 4 else depth)
  {
    BallIsExact(rows, Readable(live, first, scope).Keys, center, id, Hops(depth));
  }

  /** Without a center, they are the readable memories of the branch. */
  lemma BranchIsExact(live: map<Id, Memory>, first: seq<Row>, rows: seq<Row>, scope: Scope, depth: int,
                      taxonomy: string, id: Id)
    ensures id in Included(rows, Readable(live, first, scope), "", depth, taxonomy) <==>
      id in live && scope.CanRead(live[id].taxonomy) &&
      (taxonomy == "" || Split(taxonomy) <= Split(live[id].taxonomy))
  {
    if id in live {
      UnderIsSegmentPrefix(live[id].taxonomy, taxonomy);
    }
  }

  /** A deeper request never loses a memory. */
  lemma EgoGrows(rows: seq<Row>, meta: map<Id, Node>, center: Id, depth: int, deeper: int, taxonomy: string)
    requires Hops(depth) <= Hops(deeper)
    ensures Included(rows, meta, center, depth, taxonomy) <= Included(rows, meta, center, deeper, taxonomy)
  {
    BallGrows(rows, meta.Keys, center, Hops(depth), Hops(deeper));
  }

  // ---- what is drawn ----

  /** The edges are the rows whose source is included and whose destination is missing, included or
      a leaf, in the order of the rows, each from its source to its destination (or to the dangling
      node of its text) under its relation. */
  lemma EdgesAreRows(g: Graph, rows: seq<Row>, meta: map<Id, Node>, leaves: map<Id, Node>,
                     center: Id, depth: int, taxonomy: string) returns (at: seq<nat>)
    requires IsGraph(g, rows, meta, leaves, center, depth, taxonomy)
    ensures |at| == |g.edges| && (forall j, k | 0 <= j < k < |at| :: at[j] < at[k])
    ensures var included := Included(rows, meta, center, depth, taxonomy);
      && (forall k | 0 <= k < |at| :: at[k] < |rows| && rows[at[k]].src in included)
      && (forall k | 0 <= k < |at| && rows[at[k]].dst.Some? ::
            (rows[at[k]].dst.value in included || rows[at[k]].dst.value in leaves))
      && (forall k | 0 <= k < |at| :: g.edges[k].src == rows[at[k]].src && g.edges[k].rel == rows[at[k]].rel)
      && (forall k | 0 <= k < |at| && rows[at[k]].dst.Some? :: g.edges[k].dst == rows[at[k]].dst.value)
      && (forall k | 0 <= k < |at| && rows[at[k]].dst.None? :: g.edges[k].dst == "dangling:" + rows[at[k]].raw)
      && (forall i | 0 <= i < |rows| && rows[i].src in included && rows[i].dst.None? :: i in at)
      && (forall i | 0 <= i < |rows| && rows[i].src in included && rows[i].dst.Some? ::
            (rows[i].dst.value in included || rows[i].dst.value in leaves ==> i in at))
  {
    var ds;
    at, ds := DrawnAt(rows, Included(rows, meta, center, depth, taxonomy), leaves);
  }

  /** `at` are the places where there is something in `ds`, and `edges` is what is there. */
  ghost predicate Traces(edges: seq<Edge>, at: seq<nat>, ds: seq<Option<Edge>>) {
    && |at| == |edges| && (forall j, k | 0 <= j < k < |at| :: at[j] < at[k])
    && (forall k | 0 <= k < |at| :: at[k] < |ds| && ds[at[k]] == Some(edges[k]))
    && (forall i | 0 <= i < |ds| && ds[i].Some? :: i in at)
  }

  lemma TracesSkip(edges: seq<Edge>, at: seq<nat>, ds: seq<Option<Edge>>)
    requires Traces(edges, at, ds)
    ensures Traces(edges, at, ds + [None])
  {
    var ds' := ds + [None];
    assert forall i | 0 <= i < |ds| :: ds'[i] == ds[i];
    forall i | 0 <= i < |ds'| && ds'[i].Some? ensures i in at {
      assert i < |ds|;
    }
  }

  lemma TracesDraw(edges: seq<Edge>, at: seq<nat>, ds: seq<Option<Edge>>, e: Edge)
    requires Traces(edges, at, ds)
    ensures Traces(edges + [e], at + [|ds|], ds + [Some(e)])
  {
    var edges', at', ds' := edges + [e], at + [|ds|], ds + [Some(e)];
    assert forall i | 0 <= i < |ds| :: ds'[i] == ds[i];
    forall k | 0 <= k < |at'| ensures at'[k] < |ds'| && ds'[at'[k]] == Some(edges'[k]) {
      if k < |at| { assert at'[k] == at[k] && edges'[k] == edges[k]; }
    }
    forall i | 0 <= i < |ds'| && ds'[i].Some? ensures i in at' {
      if i < |ds| { assert i in at; }
      assert at'[|at|] == |ds|;
    }
  }

  lemma {:induction false} DrawnAt(rows: seq<Row>, included: set<Id>, leaves: map<Id, Node>)
      returns (at: seq<nat>, ds: seq<Option<Edge>>)
    ensures |ds| == |rows| && forall i | 0 <= i < |rows| :: ds[i] == Drawn(rows[i], included, leaves)
    ensures Traces(DrawAll(rows, included, leaves), at, ds)
    decreases |rows|
  {
    at, ds := [], [];
    if rows != [] {
      var n := |rows| - 1;
      var before, r := rows[..n], rows[n];
      var at0, ds0 := DrawnAt(before, included, leaves);
      assert rows == before + [r];
      DrawAllAppend(before, r, included, leaves);
      var d := Drawn(r, included, leaves);
      if d.Some? {
        TracesDraw(DrawAll(before, included, leaves), at0, ds0, d.value);
      } else {
        TracesSkip(DrawAll(before, included, leaves), at0, ds0);
      }
      at, ds := if d.Some? then at0 + [n] else at0, ds0 + [d];
    }
  }

  /** The nodes are the included memories, a leaf for each drawn row that ends in one, and a dangling
      node for each drawn row without a destination. */
  lemma NodeIff(g: Graph, rows: seq<Row>, meta: map<Id, Node>, leaves: map<Id, Node>,
                center: Id, depth: int, taxonomy: string, n: Node)
    requires IsGraph(g, rows, meta, leaves, center, depth, taxonomy)
    ensures var included := Included(rows, meta, center, depth, taxonomy);
      n in g.nodes <==>
        || (exists id :: id in included && id in meta && n == meta[id])
        || (exists r :: r in rows && r.src in included && r.dst.Some? && r.dst.value in leaves &&
              n == leaves[r.dst.value])
        || (exists r :: r in rows && r.src in included && r.dst.None? &&
              n == Node("dangling:" + r.raw, r.raw, "", 0, false, Dangling))
  {
    var included := Included(rows, meta, center, depth, taxonomy);
    if IsAttached(n, rows, included, leaves) {
      var r :| r in rows && Attached(r, included, leaves) == Some(n);
    }
    if r :| r in rows && r.src in included && r.dst.Some? && r.dst.value in leaves && n == leaves[r.dst.value] {
      assert Attached(r, included, leaves) == Some(n);
    }
    if r :| r in rows && r.src in included && r.dst.None? &&
            n == Node("dangling:" + r.raw, r.raw, "", 0, false, Dangling) {
      assert Attached(r, included, leaves) == Some(n);
    }
  }

  /** What a readable memory shows: its own title and branch, how many boosting rows come in from
      others, and whether one of them replaces it. */
  lemma RealNodeShows(live: map<Id, Memory>, rows: seq<Row>, scope: Scope, id: Id)
    ensures id in Readable(live, rows, scope) <==> id in live && scope.CanRead(live[id].taxonomy)
    ensures id in Readable(live, rows, scope) ==> var n := Readable(live, rows, scope)[id];
      && n.id == id && n.title == live[id].title && n.taxonomy == live[id].taxonomy && n.kind == Real
      && n.authority == |Boosts(rows, id)|
      && (n.superseded <==> exists r :: r in rows && r.dst == Some(id) && r.src != id && r.rel == Supersedes)
  {
    AuthorityCounts(rows, id);
  }

  /** The places of the rows that say another memory relates to this one or depends on it. */
  function Boosts(rows: seq<Row>, id: Id): set<nat> {
    set i: nat | i < |rows| && rows[i].dst == Some(id) && rows[i].src != id &&
                 (rows[i].rel == Relates || rows[i].rel == DependsOn)
  }

  lemma {:induction false} AuthorityAppend(rows: seq<Row>, r: Row, id: Id)
    ensures Authority(rows + [r], id) == Authority(rows, id) + Authority([r], id)
  {
    if rows == [] {
      assert rows + [r] == [r];
    } else {
      assert (rows + [r])[1..] == rows[1..] + [r];
      AuthorityAppend(rows[1..], r, id);
    }
  }

  lemma {:induction false} AuthorityCounts(rows: seq<Row>, id: Id)
    ensures Authority(rows, id) == |Boosts(rows, id)|
    decreases |rows|
  {
    if rows == [] {
      assert Boosts(rows, id) == {};
    } else {
      var n := |rows| - 1;
      var before, r := rows[..n], rows[n];
      assert rows == before + [r];
      AuthorityAppend(before, r, id);
      AuthorityCounts(before, id);
      BoostsSnoc(before, r, id);
    }
  }

  lemma BoostsSnoc(rows: seq<Row>, r: Row, id: Id)
    ensures |Boosts(rows + [r], id)| == |Boosts(rows, id)| + Authority([r], id)
  {
    var n, more := |rows|, Boosts(rows + [r], id);
    if n in more {
      assert more == Boosts(rows, id) + {n};
    } else {
      assert more == Boosts(rows, id);
    }
  }

  /** What a leaf shows: a tombstone's title, branch and end, or the bare title and branch of a
      memory that may be known but not read. */
  lemma LeafShows(live: map<Id, Memory>, tombs: map<Id, Tombstone>, scope: Scope, id: Id)
    ensures id in Leaves(live, tombs, scope) <==>
      (id in live && !scope.CanRead(live[id].taxonomy) && scope.TitleVisible(live[id].taxonomy)) ||
      (id in tombs && scope.TitleVisible(tombs[id].taxonomy))
    ensures id in Leaves(live, tombs, scope) ==> var n := Leaves(live, tombs, scope)[id];
      if id in live && !scope.CanRead(live[id].taxonomy) && scope.TitleVisible(live[id].taxonomy)
      then n == Node(id, live[id].title, live[id].taxonomy, 0, false, HiddenContent)
      else var t := tombs[id]; n == Node(id, t.title, t.taxonomy, 0, false, Removed(t.deletedAt, t.deletedBy))
  {
  }

  // ---- well-formedness ----

  ghost predicate HasNode(g: Graph, id: Id) {
    exists n :: n in g.nodes && n.id == id
  }

  lemma {:induction false} DrawnFrom(rows: seq<Row>, included: set<Id>, leaves: map<Id, Node>, e: Edge) returns (r: Row)
    requires e in DrawAll(rows, included, leaves)
    ensures r in rows && Drawn(r, included, leaves) == Some(e)
  {
    if Drawn(rows[0], included, leaves) == Some(e) {
      r := rows[0];
    } else {
      r := DrawnFrom(rows[1..], included, leaves, e);
    }
  }

  /** Every edge of the graph joins two of its nodes. */
  lemma EndpointsAreNodes(g: Graph, rows: seq<Row>, meta: map<Id, Node>, leaves: map<Id, Node>,
                          center: Id, depth: int, taxonomy: string, e: Edge)
    requires IsGraph(g, rows, meta, leaves, center, depth, taxonomy) && Separate(meta, leaves)
    requires (center != "" ==> center in meta) && e in g.edges
    ensures HasNode(g, e.src) && HasNode(g, e.dst)
  {
    var included := Included(rows, meta, center, depth, taxonomy);
    IncludedInside(rows, meta, center, depth, taxonomy);
    var r := DrawnFrom(rows, included, leaves, e);
    assert IsNode(meta[r.src], rows, meta, included, leaves);
    assert meta[r.src] in g.nodes;
    var a := Attached(r, included, leaves);
    if a.Some? {
      assert IsAttached(a.value, rows, included, leaves);
      assert IsNode(a.value, rows, meta, included, leaves);
      assert a.value in g.nodes;
    } else {
      assert IsNode(meta[e.dst], rows, meta, included, leaves);
      assert meta[e.dst] in g.nodes;
    }
  }

  // ---- reading around a delete ----

  /** No path of the graph can cross a tombstone, whatever the edges, exactly when nothing readable
      was found among the tombstones as well. */
  lemma NoTombBridgesIff(live: map<Id, Memory>, tombs: map<Id, Tombstone>, rows: seq<Row>, scope: Scope)
    ensures var readable := Readable(live, rows, scope).Keys;
      (forall path | IsPath(rows, readable, path) :: forall i | 0 <= i < |path| :: path[i] !in tombs) <==>
      readable !! tombs.Keys
  {
    var readable := Readable(live, rows, scope).Keys;
    if id :| id in readable && id in tombs {
      assert IsPath(rows, readable, [id]) && [id][0] in tombs;
    }
  }

  /** Ids are distinct in the graph of tables read at one moment. */
  lemma SnapshotDistinct(g: Graph, live: map<Id, Memory>, tombs: map<Id, Tombstone>, first: seq<Row>, rows: seq<Row>,
                         scope: Scope, center: Id, depth: int, taxonomy: string)
    requires IsGraph(g, rows, Readable(live, first, scope), Leaves(live, tombs, scope), center, depth, taxonomy)
    requires live.Keys !! tombs.Keys && (center != "" ==> center in Readable(live, first, scope))
    ensures DistinctIds(g.nodes)
  {
    IncludedInside(rows, Readable(live, first, scope), center, depth, taxonomy);
  }

  // ---- independence of what is hidden ----

  predicate Shown(live: map<Id, Memory>, tombs: map<Id, Tombstone>, scope: Scope, id: Id) {
    || (id in live && scope.TitleVisible(live[id].taxonomy))
    || (id in tombs && scope.TitleVisible(tombs[id].taxonomy))
  }

  /** A memory or tombstone the caller may not even know of. */
  predicate Hidden(live: map<Id, Memory>, tombs: map<Id, Tombstone>, scope: Scope, id: Id) {
    (id in live || id in tombs) && !Shown(live, tombs, scope, id)
  }

  predicate Touches(live: map<Id, Memory>, tombs: map<Id, Tombstone>, scope: Scope, r: Row) {
    Hidden(live, tombs, scope, r.src) || (r.dst.Some? && Hidden(live, tombs, scope, r.dst.value))
  }

  function EraseLive(live: map<Id, Memory>, scope: Scope): map<Id, Memory> {
    map id | id in live && scope.TitleVisible(live[id].taxonomy) :: live[id]
  }

  function EraseTombs(tombs: map<Id, Tombstone>, scope: Scope): map<Id, Tombstone> {
    map id | id in tombs && scope.TitleVisible(tombs[id].taxonomy) :: tombs[id]
  }

  /** The rows that touch nothing hidden. */
  function EraseRows(rows: seq<Row>, live: map<Id, Memory>, tombs: map<Id, Tombstone>, scope: Scope): seq<Row> {
    if rows == [] then []
    else (if Touches(live, tombs, scope, rows[0]) then [] else [rows[0]]) + EraseRows(rows[1..], live, tombs, scope)
  }

  /** A node without the two signals that count every inbound edge. */
  function Plainly(n: Node): Node {
    n.(authority := 0, superseded := false)
  }

  function PlainNodes(g: Graph): set<Node> {
    set n | n in g.nodes :: Plainly(n)
  }

  lemma {:induction false} ErasedMembers(rows: seq<Row>, live: map<Id, Memory>, tombs: map<Id, Tombstone>, scope: Scope)
    ensures forall r :: r in EraseRows(rows, live, tombs, scope) <==> r in rows && !Touches(live, tombs, scope, r)
  {
    if rows != [] {
      ErasedMembers(rows[1..], live, tombs, scope);
    }
  }

  lemma SameLeaves(live: map<Id, Memory>, tombs: map<Id, Tombstone>, scope: Scope)
    ensures Leaves(EraseLive(live, scope), EraseTombs(tombs, scope), scope) == Leaves(live, tombs, scope)
  {
    var tombs', live' := EraseTombs(tombs, scope), EraseLive(live, scope);
    assert TombLeaves(tombs', scope) == TombLeaves(tombs, scope);
    assert TitleLeaves(live', scope) == TitleLeaves(live, scope);
  }

  /** Two tables of participants that differ in authority and superseded only. */
  ghost predicate Alike(meta: map<Id, Node>, meta': map<Id, Node>) {
    meta.Keys == meta'.Keys && forall id | id in meta :: Plainly(meta[id]) == Plainly(meta'[id])
  }

  lemma SameReaders(live: map<Id, Memory>, scope: Scope, rows: seq<Row>, rows': seq<Row>)
    ensures Alike(Readable(live, rows, scope), Readable(EraseLive(live, scope), rows', scope))
  {
  }

  /** No participant and no leaf is hidden. */
  lemma VisibleNotHidden(live: map<Id, Memory>, tombs: map<Id, Tombstone>, rows: seq<Row>, scope: Scope, id: Id)
    requires id in Readable(live, rows, scope) || id in Leaves(live, tombs, scope)
    ensures !Hidden(live, tombs, scope, id)
  {
  }

  lemma {:induction false} SameBall(rows: seq<Row>, rows': seq<Row>, among: set<Id>, center: Id, k: nat)
    requires center in among
    requires forall a, b | a in among && b in among :: Linked(rows, a, b) <==> Linked(rows', a, b)
    ensures Ball(rows, among, center, k) == Ball(rows', among, center, k)
  {
    if k > 0 {
      SameBall(rows, rows', among, center, k - 1);
      BallInside(rows, among, center, k - 1);
      SameGrow(rows, rows', among, Ball(rows, among, center, k - 1));
    }
  }

  lemma SameGrow(rows: seq<Row>, rows': seq<Row>, among: set<Id>, inner: set<Id>)
    requires inner <= among
    requires forall a, b | a in among && b in among :: Linked(rows, a, b) <==> Linked(rows', a, b)
    ensures Grow(rows, among, inner) == Grow(rows', among, inner)
  {
    forall b | b in among ensures Borders(rows, inner, b) <==> Borders(rows', inner, b) {
    }
  }

  lemma SameLinks(live: map<Id, Memory>, tombs: map<Id, Tombstone>, rows: seq<Row>, scope: Scope, a: Id, b: Id)
    requires a in Readable(live, rows, scope) && b in Readable(live, rows, scope)
    ensures Linked(rows, a, b) <==> Linked(EraseRows(rows, live, tombs, scope), a, b)
  {
    ErasedMembers(rows, live, tombs, scope);
    VisibleNotHidden(live, tombs, rows, scope, a);
    VisibleNotHidden(live, tombs, rows, scope, b);
    if Linked(rows, a, b) {
      var r :| r in rows && Joins(r, a, b);
      assert r in EraseRows(rows, live, tombs, scope);
    }
  }

  /** What is included does not depend on the signals of the participants. */
  lemma IncludedAlike(rows: seq<Row>, meta: map<Id, Node>, meta': map<Id, Node>, center: Id, depth: int,
                      taxonomy: string)
    requires Alike(meta, meta')
    ensures Included(rows, meta, center, depth, taxonomy) == Included(rows, meta', center, depth, taxonomy)
  {
    assert forall id | id in meta :: Plainly(meta[id]).taxonomy == Plainly(meta'[id]).taxonomy;
  }

  lemma SameIncluded(live: map<Id, Memory>, tombs: map<Id, Tombstone>, first: seq<Row>, rows: seq<Row>, scope: Scope,
                     center: Id, depth: int, taxonomy: string)
    requires center != "" ==> center in Readable(live, first, scope)
    ensures Included(rows, Readable(live, first, scope), center, depth, taxonomy) ==
      Included(EraseRows(rows, live, tombs, scope), Readable(live, first, scope), center, depth, taxonomy)
  {
    var rows', meta := EraseRows(rows, live, tombs, scope), Readable(live, first, scope);
    if center != "" {
      forall a, b | a in meta && b in meta ensures Linked(rows, a, b) <==> Linked(rows', a, b) {
        SameLinks(live, tombs, rows, scope, a, b);
      }
      SameBall(rows, rows', meta.Keys, center, Hops(depth));
    }
  }

  /** A row that touches something hidden is not drawn and brings in no node. */
  lemma HiddenNotDrawn(r: Row, live: map<Id, Memory>, tombs: map<Id, Tombstone>, rows: seq<Row>, scope: Scope,
                       included: set<Id>)
    requires included <= Readable(live, rows, scope).Keys
    requires Touches(live, tombs, scope, r)
    ensures Drawn(r, included, Leaves(live, tombs, scope)).None?
    ensures Attached(r, included, Leaves(live, tombs, scope)).None?
  {
    if r.src in included {
      VisibleNotHidden(live, tombs, rows, scope, r.src);
      if r.dst.value in Leaves(live, tombs, scope) || r.dst.value in included {
        VisibleNotHidden(live, tombs, rows, scope, r.dst.value);
      }
    }
  }

  lemma {:induction false} SameDrawing(part: seq<Row>, live: map<Id, Memory>, tombs: map<Id, Tombstone>, rows: seq<Row>,
                                       scope: Scope, included: set<Id>)
    requires included <= Readable(live, rows, scope).Keys
    ensures DrawAll(part, included, Leaves(live, tombs, scope)) ==
            DrawAll(EraseRows(part, live, tombs, scope), included, Leaves(live, tombs, scope))
    decreases |part|
  {
    if part != [] {
      SameDrawing(part[1..], live, tombs, rows, scope, included);
      if Touches(live, tombs, scope, part[0]) {
        HiddenNotDrawn(part[0], live, tombs, rows, scope, included);
        assert EraseRows(part, live, tombs, scope) == EraseRows(part[1..], live, tombs, scope);
      } else {
        assert EraseRows(part, live, tombs, scope)[1..] == EraseRows(part[1..], live, tombs, scope);
      }
    }
  }

  lemma SameAttached(n: Node, live: map<Id, Memory>, tombs: map<Id, Tombstone>, first: seq<Row>, rows: seq<Row>,
                     scope: Scope, included: set<Id>)
    requires included <= Readable(live, first, scope).Keys
    ensures IsAttached(n, rows, included, Leaves(live, tombs, scope)) <==>
            IsAttached(n, EraseRows(rows, live, tombs, scope), included, Leaves(live, tombs, scope))
  {
    ErasedMembers(rows, live, tombs, scope);
    if IsAttached(n, rows, included, Leaves(live, tombs, scope)) {
      var r :| r in rows && Attached(r, included, Leaves(live, tombs, scope)) == Some(n);
      if Touches(live, tombs, scope, r) {
        HiddenNotDrawn(r, live, tombs, first, scope, included);
      }
      assert r in EraseRows(rows, live, tombs, scope);
    }
  }

  lemma PlainNodesWithin(g: Graph, h: Graph, rows: seq<Row>, rows': seq<Row>, meta: map<Id, Node>, meta': map<Id, Node>,
                         included: set<Id>, leaves: map<Id, Node>)
    requires Alike(meta, meta')
    requires forall n :: n in g.nodes <==> IsNode(n, rows, meta, included, leaves)
    requires forall n :: n in h.nodes <==> IsNode(n, rows', meta', included, leaves)
    requires forall n :: IsAttached(n, rows, included, leaves) ==> IsAttached(n, rows', included, leaves)
    ensures PlainNodes(g) <= PlainNodes(h)
  {
    forall n | n in g.nodes ensures Plainly(n) in PlainNodes(h) {
      if IsAttached(n, rows, included, leaves) {
        assert n in h.nodes;
      } else {
        var id :| id in included && id in meta && n == meta[id];
        assert IsNode(meta'[id], rows', meta', included, leaves);
        assert meta'[id] in h.nodes && Plainly(meta'[id]) == Plainly(n);
      }
    }
  }

  /** Apart from authority and superseded, the graph is the one of the store from which everything
      that is not title-visible, and every edge touching it, has been erased. The signals come from
      the edges as they stood when the memories were read, which play no other part. */
  lemma GraphIgnoresHidden(g: Graph, h: Graph, live: map<Id, Memory>, first: seq<Row>, first': seq<Row>, rows: seq<Row>,
                           tombs: map<Id, Tombstone>, scope: Scope, center: Id, depth: int, taxonomy: string)
    requires center != "" ==> center in Readable(live, first, scope)
    requires IsGraph(g, rows, Readable(live, first, scope), Leaves(live, tombs, scope), center, depth, taxonomy)
    requires var live', tombs' := EraseLive(live, scope), EraseTombs(tombs, scope);
      IsGraph(h, EraseRows(rows, live, tombs, scope), Readable(live', first', scope), Leaves(live', tombs', scope),
              center, depth, taxonomy)
    ensures g.edges == h.edges && PlainNodes(g) == PlainNodes(h)
    ensures Readable(EraseLive(live, scope), first', scope).Keys == Readable(live, first, scope).Keys
  {
    var rows', leaves := EraseRows(rows, live, tombs, scope), Leaves(live, tombs, scope);
    var meta, meta' := Readable(live, first, scope), Readable(EraseLive(live, scope), first', scope);
    var included := Included(rows, meta, center, depth, taxonomy);
    SameReaders(live, scope, first, first');
    SameLeaves(live, tombs, scope);
    SameIncluded(live, tombs, first, rows, scope, center, depth, taxonomy);
    IncludedAlike(rows', meta, meta', center, depth, taxonomy);
    IncludedInside(rows, meta, center, depth, taxonomy);
    SameDrawing(rows, live, tombs, first, scope, included);
    forall n ensures IsAttached(n, rows, included, leaves) <==> IsAttached(n, rows', included, leaves) {
      SameAttached(n, live, tombs, first, rows, scope, included);
    }
    PlainNodesWithin(g, h, rows, rows', meta, meta', included, leaves);
    PlainNodesWithin(h, g, rows', rows, meta', meta, included, leaves);
  }
}
