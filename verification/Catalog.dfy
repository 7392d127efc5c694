/** Catalog roll-up: leaf paths folded to a depth, with counts conserved. */
module Catalog {
  import opened Scopes
  import opened Paths

  datatype Entry = Entry(path: string, count: nat, expandable: bool)

  // ---- byte order on strings ----

  predicate Less(a: string, b: string) {
    if b == [] then false
    else if a == [] then true
    else if a[0] != b[0] then a[0] < b[0]
    else Less(a[1..], b[1..])
  }

  lemma {:induction false} LessIsOrder(a: string, b: string, c: string)
    ensures !Less(a, a)
    ensures Less(a, b) && Less(b, c) ==> Less(a, c)
    ensures a == b || Less(a, b) || Less(b, a)
  {
    if a != [] {
      LessIsOrder(a[1..], if b == [] then [] else b[1..], if c == [] then [] else c[1..]);
    }
  }

  /** It is the order of the first difference, and a proper prefix comes first. */
  lemma {:induction false} LessIff(a: string, b: string)
    ensures Less(a, b) <==> a < b || exists i ::
        0 <= i < |a| && i < |b| && a[..i] == b[..i] && a[i] < b[i]
  {
    if a != [] && b != [] && a[0] == b[0] {
      LessIff(a[1..], b[1..]);
      if i :| 0 <= i < |a| && i < |b| && a[..i] == b[..i] && a[i] < b[i] {
        assert a[1..][..i - 1] == a[1..i] == a[..i][1..] == b[..i][1..] == b[1..][..i - 1];
      }
      if i :| 0 <= i < |a[1..]| && i < |b[1..]| && a[1..][..i] == b[1..][..i] && a[1..][i] < b[1..][i] {
        assert a[..i + 1] == [a[0]] + a[1..][..i] == [b[0]] + b[1..][..i] == b[..i + 1];
      }
    }
  }

  ghost predicate Ascending(s: seq<string>) {
    forall i, j | 0 <= i < j < |s| :: Less(s[i], s[j])
  }

  function InsertInto(s: seq<string>, x: string): seq<string> {
    if s == [] then [x]
    else if Less(s[0], x) then [s[0]] + InsertInto(s[1..], x)
    else [x] + s
  }

  lemma {:induction false} InsertIntoFacts(s: seq<string>, x: string)
    requires Ascending(s) && x !in s
    ensures Ascending(InsertInto(s, x))
    ensures forall y :: y in InsertInto(s, x) <==> y in s || y == x
  {
    if s != [] {
      InsertIntoFacts(s[1..], x);
      LessIsOrder(s[0], x, x);
      var rest := InsertInto(s[1..], x);
      if Less(s[0], x) {
        assert forall i | 0 <= i < |rest| :: rest[i] in rest;
      } else {
        forall i | 0 < i < |s| ensures Less(x, s[i]) {
          LessIsOrder(x, s[0], s[i]);
        }
      }
    }
  }

  /** sort.Strings, on keys that are distinct. */
  method SortStrings(order: seq<string>) returns (sorted: seq<string>)
    requires forall i, j | 0 <= i < j < |order| :: order[i] != order[j]
    ensures Ascending(sorted) && forall k :: k in sorted <==> k in order
  {
    sorted := [];
    for i := 0 to |order|
      invariant Ascending(sorted) && forall k :: k in sorted <==> k in order[..i]
    {
      InsertIntoFacts(sorted, order[i]);
      sorted := InsertInto(sorted, order[i]);
    }
    assert order[..|order|] == order;
  }

  // ---- what a roll-up is ----

  /** The default is one level deeper than the prefix. */
  function Depth(prefix: string, depth: int): (d: nat)
    ensures d >= 1
  {
    if depth > 0 then depth else if prefix == "" then 1 else Dots(prefix) + 2
  }

  lemma DefaultDepth(prefix: string, depth: int)
    ensures depth > 0 ==> Depth(prefix, depth) == depth
    ensures depth <= 0 && prefix == "" ==> Depth(prefix, depth) == 1
    ensures depth <= 0 && prefix != "" ==> Depth(prefix, depth) == |Split(prefix)| + 1
  {
    SplitFacts(prefix);
  }

  predicate InBranch(path: string, prefix: string) {
    prefix == "" || Under(path, prefix)
  }

  predicate Deep(path: string, d: nat) {
    |Split(path)| > d
  }

  function Key(path: string, d: nat): string
    requires d >= 1
  {
    if Deep(path, d) then Join(Split(path)[..d]) else path
  }

  /** Counts of the leaves in the branch whose key is one of `keys`. */
  ghost function SumKeys(leaves: seq<Entry>, prefix: string, d: nat, keys: set<string>): nat
    requires d >= 1
  {
    if leaves == [] then 0
    else
      (if InBranch(leaves[0].path, prefix) && Key(leaves[0].path, d) in keys then leaves[0].count else 0)
      + SumKeys(leaves[1..], prefix, d, keys)
  }

  /** Counts of the leaves in the branch. */
  function SumBranch(leaves: seq<Entry>, prefix: string): nat {
    if leaves == [] then 0
    else (if InBranch(leaves[0].path, prefix) then leaves[0].count else 0) + SumBranch(leaves[1..], prefix)
  }

  function Total(entries: seq<Entry>): nat {
    if entries == [] then 0 else entries[0].count + Total(entries[1..])
  }

  /** Some leaf of the branch folds to `key` (and, if `deep`, is cut short by it). */
  ghost predicate Folds(leaves: seq<Entry>, prefix: string, d: nat, key: string, deep: bool)
    requires d >= 1
  {
    exists l :: l in leaves && FoldsTo(l, prefix, d, key, deep)
  }

  predicate FoldsTo(l: Entry, prefix: string, d: nat, key: string, deep: bool)
    requires d >= 1
  {
    InBranch(l.path, prefix) && Key(l.path, d) == key && (deep ==> Deep(l.path, d))
  }

  ghost predicate IsEntry(leaves: seq<Entry>, prefix: string, d: nat, e: Entry)
    requires d >= 1
  {
    && Folds(leaves, prefix, d, e.path, false)
    && e.count == SumKeys(leaves, prefix, d, {e.path})
    && (e.expandable <==> Folds(leaves, prefix, d, e.path, true))
  }

  /** One entry for each key, in ascending order of path. */
  ghost predicate IsRollup(leaves: seq<Entry>, prefix: string, d: nat, out: seq<Entry>)
    requires d >= 1
  {
    && (forall i, j | 0 <= i < j < |out| :: Less(out[i].path, out[j].path))
    && (forall i | 0 <= i < |out| :: IsEntry(leaves, prefix, d, out[i]))
    && (forall key | Folds(leaves, prefix, d, key, false) :: Listed(out, key))
  }

  ghost predicate Listed(out: seq<Entry>, key: string) {
    exists i :: 0 <= i < |out| && out[i].path == key
  }

  // ---- the two loops of rollupCatalog ----

  lemma {:induction false} SumKeysAppend(leaves: seq<Entry>, l: Entry, prefix: string, d: nat, keys: set<string>)
    requires d >= 1
    ensures SumKeys(leaves + [l], prefix, d, keys) ==
      SumKeys(leaves, prefix, d, keys) + (if InBranch(l.path, prefix) && Key(l.path, d) in keys then l.count else 0)
  {
    if leaves == [] {
      assert leaves + [l] == [l];
    } else {
      assert (leaves + [l])[1..] == leaves[1..] + [l];
      SumKeysAppend(leaves[1..], l, prefix, d, keys);
    }
  }

  lemma FoldsAppend(leaves: seq<Entry>, l: Entry, prefix: string, d: nat, key: string, deep: bool)
    requires d >= 1
    ensures Folds(leaves + [l], prefix, d, key, deep) <==>
      Folds(leaves, prefix, d, key, deep) || FoldsTo(l, prefix, d, key, deep)
  {
    var all := leaves + [l];
    if Folds(leaves, prefix, d, key, deep) {
      var m :| m in leaves && FoldsTo(m, prefix, d, key, deep);
      assert m in all;
    }
    if FoldsTo(l, prefix, d, key, deep) {
      assert l in all;
    }
  }

  ghost predicate Aggregates(leaves: seq<Entry>, prefix: string, d: nat, agg: map<string, Entry>, order: seq<string>)
    requires d >= 1
  {
    && (forall key :: key in agg <==> Folds(leaves, prefix, d, key, false))
    && (forall key | key in agg :: agg[key].path == key && IsEntry(leaves, prefix, d, agg[key]))
    && (forall key :: key in order <==> key in agg)
    && (forall i, j | 0 <= i < j < |order| :: order[i] != order[j])
  }

  lemma EntryUnaffected(leaves: seq<Entry>, l: Entry, prefix: string, d: nat, e: Entry)
    requires d >= 1 && IsEntry(leaves, prefix, d, e) && !FoldsTo(l, prefix, d, e.path, false)
    ensures IsEntry(leaves + [l], prefix, d, e)
  {
    FoldsAppend(leaves, l, prefix, d, e.path, false);
    FoldsAppend(leaves, l, prefix, d, e.path, true);
    SumKeysAppend(leaves, l, prefix, d, {e.path});
  }

  /** The entry of `key` before a leaf that folds to it is added. */
  ghost predicate Was(leaves: seq<Entry>, prefix: string, d: nat, e: Entry)
    requires d >= 1
  {
    IsEntry(leaves, prefix, d, e) || (!Folds(leaves, prefix, d, e.path, false) && e.count == 0 && !e.expandable)
  }

  function Grown(e: Entry, l: Entry, d: nat): Entry {
    Entry(e.path, e.count + l.count, e.expandable || Deep(l.path, d))
  }

  lemma EntryGrows(leaves: seq<Entry>, l: Entry, prefix: string, d: nat, e: Entry)
    requires d >= 1 && Was(leaves, prefix, d, e) && FoldsTo(l, prefix, d, e.path, false)
    ensures IsEntry(leaves + [l], prefix, d, Grown(e, l, d))
  {
    FoldsAppend(leaves, l, prefix, d, e.path, false);
    FoldsAppend(leaves, l, prefix, d, e.path, true);
    SumKeysAppend(leaves, l, prefix, d, {e.path});
    NotFolded(leaves, prefix, d, e.path);
  }

  lemma SkipsOneMore(leaves: seq<Entry>, l: Entry, prefix: string, d: nat, agg: map<string, Entry>, order: seq<string>)
    requires d >= 1 && Aggregates(leaves, prefix, d, agg, order) && !InBranch(l.path, prefix)
    ensures Aggregates(leaves + [l], prefix, d, agg, order)
  {
    forall key ensures key in agg <==> Folds(leaves + [l], prefix, d, key, false) {
      FoldsAppend(leaves, l, prefix, d, key, false);
    }
    forall key | key in agg ensures IsEntry(leaves + [l], prefix, d, agg[key]) {
      EntryUnaffected(leaves, l, prefix, d, agg[key]);
    }
  }

  /** How the table changes with one more leaf of the branch. */
  lemma AggregatesOneMore(leaves: seq<Entry>, l: Entry, prefix: string, d: nat,
                          agg: map<string, Entry>, order: seq<string>, e: Entry, order': seq<string>)
    requires d >= 1 && Aggregates(leaves, prefix, d, agg, order) && InBranch(l.path, prefix)
    requires e == if Key(l.path, d) in agg then agg[Key(l.path, d)] else Entry(Key(l.path, d), 0, false)
    requires order' == if e.path in agg then order else order + [e.path]
    ensures Aggregates(leaves + [l], prefix, d, agg[e.path := Grown(e, l, d)], order')
  {
    EntriesOneMore(leaves, l, prefix, d, agg, order, e);
    assert forall i | 0 <= i < |order| :: order[i] in order;
  }

  lemma EntriesOneMore(leaves: seq<Entry>, l: Entry, prefix: string, d: nat,
                       agg: map<string, Entry>, order: seq<string>, e: Entry)
    requires d >= 1 && Aggregates(leaves, prefix, d, agg, order) && InBranch(l.path, prefix)
    requires e == if Key(l.path, d) in agg then agg[Key(l.path, d)] else Entry(Key(l.path, d), 0, false)
    ensures var agg' := agg[e.path := Grown(e, l, d)];
      && (forall key :: key in agg' <==> Folds(leaves + [l], prefix, d, key, false))
      && (forall key | key in agg' :: agg'[key].path == key && IsEntry(leaves + [l], prefix, d, agg'[key]))
  {
    var agg' := agg[e.path := Grown(e, l, d)];
    forall key ensures key in agg' <==> Folds(leaves + [l], prefix, d, key, false) {
      FoldsAppend(leaves, l, prefix, d, key, false);
    }
    forall key | key in agg' ensures agg'[key].path == key && IsEntry(leaves + [l], prefix, d, agg'[key]) {
      if key == e.path {
        EntryGrows(leaves, l, prefix, d, e);
      } else {
        EntryUnaffected(leaves, l, prefix, d, agg[key]);
      }
    }
  }

  lemma {:induction false} NotFolded(leaves: seq<Entry>, prefix: string, d: nat, key: string)
    requires d >= 1
    ensures !Folds(leaves, prefix, d, key, false) ==>
      SumKeys(leaves, prefix, d, {key}) == 0 && !Folds(leaves, prefix, d, key, true)
  {
    if !Folds(leaves, prefix, d, key, false) {
      if leaves != [] {
        assert leaves[0] in leaves && !FoldsTo(leaves[0], prefix, d, key, false);
        assert forall l | l in leaves[1..] :: l in leaves;
        NotFolded(leaves[1..], prefix, d, key);
      }
      assert forall l :: FoldsTo(l, prefix, d, key, true) ==> FoldsTo(l, prefix, d, key, false);
    }
  }

  method RollupCatalog(leaves: seq<Entry>, prefix: string, depth: int) returns (out: seq<Entry>)
    ensures IsRollup(leaves, prefix, Depth(prefix, depth), out)
  {
    var d := Depth(prefix, depth);
    var agg: map<string, Entry> := map[];
    var order: seq<string> := [];
    for i := 0 to |leaves|
      invariant Aggregates(leaves[..i], prefix, d, agg, order)
    {
      var l := leaves[i];
      assert leaves[..i + 1] == leaves[..i] + [l];
      if !InBranch(l.path, prefix) {
        SkipsOneMore(leaves[..i], l, prefix, d, agg, order);
        continue;
      }
      var key := Key(l.path, d);
      var entry := if key in agg then agg[key] else Entry(key, 0, false);
      var order' := if key in agg then order else order + [key];
      AggregatesOneMore(leaves[..i], l, prefix, d, agg, order, entry, order');
      order := order';
      agg := agg[key := Grown(entry, l, d)];
    }
    assert leaves[..|leaves|] == leaves;
    out := Collect(leaves, prefix, d, agg, order);
  }

  method Collect(ghost leaves: seq<Entry>, ghost prefix: string, ghost d: nat, agg: map<string, Entry>,
                 order: seq<string>)
      returns (out: seq<Entry>)
    requires d >= 1 && Aggregates(leaves, prefix, d, agg, order)
    ensures IsRollup(leaves, prefix, d, out)
  {
    var sorted := SortStrings(order);
    out := [];
    for i := 0 to |sorted|
      invariant |out| == i && forall j | 0 <= j < i :: sorted[j] in agg && out[j] == agg[sorted[j]]
    {
      assert sorted[i] in order;
      out := out + [agg[sorted[i]]];
    }
    forall i | 0 <= i < |out| ensures out[i].path == sorted[i] && IsEntry(leaves, prefix, d, out[i]) {
      assert sorted[i] in agg;
    }
    forall key | Folds(leaves, prefix, d, key, false) ensures Listed(out, key) {
      assert key in sorted;
      var i :| 0 <= i < |sorted| && sorted[i] == key;
      assert out[i].path == key;
    }
  }

  // ---- conservation ----

  lemma {:induction false} SumKeysSplit(leaves: seq<Entry>, prefix: string, d: nat, key: string, keys: set<string>)
    requires d >= 1 && key !in keys
    ensures SumKeys(leaves, prefix, d, {key} + keys) ==
            SumKeys(leaves, prefix, d, {key}) + SumKeys(leaves, prefix, d, keys)
  {
    if leaves != [] {
      SumKeysSplit(leaves[1..], prefix, d, key, keys);
    }
  }

  lemma {:induction false} SumNoKeys(leaves: seq<Entry>, prefix: string, d: nat)
    requires d >= 1
    ensures SumKeys(leaves, prefix, d, {}) == 0
  {
    if leaves != [] {
      SumNoKeys(leaves[1..], prefix, d);
    }
  }

  function PathsOf(out: seq<Entry>): set<string> {
    set e | e in out :: e.path
  }

  lemma {:induction false} TotalIsSumKeys(leaves: seq<Entry>, prefix: string, d: nat, out: seq<Entry>)
    requires d >= 1
    requires forall i, j | 0 <= i < j < |out| :: Less(out[i].path, out[j].path)
    requires forall i | 0 <= i < |out| :: out[i].count == SumKeys(leaves, prefix, d, {out[i].path})
    ensures Total(out) == SumKeys(leaves, prefix, d, PathsOf(out))
  {
    if out == [] {
      SumNoKeys(leaves, prefix, d);
      assert PathsOf(out) == {};
    } else {
      forall e | e in out[1..] ensures e.path != out[0].path {
        LessIsOrder(e.path, e.path, e.path);
      }
      TotalIsSumKeys(leaves, prefix, d, out[1..]);
      SumKeysSplit(leaves, prefix, d, out[0].path, PathsOf(out[1..]));
      assert PathsOf(out) == {out[0].path} + PathsOf(out[1..]);
    }
  }

  lemma {:induction false} SumAllKeys(leaves: seq<Entry>, prefix: string, d: nat, keys: set<string>)
    requires d >= 1
    requires forall l | l in leaves && InBranch(l.path, prefix) :: Key(l.path, d) in keys
    ensures SumKeys(leaves, prefix, d, keys) == SumBranch(leaves, prefix)
  {
    if leaves != [] {
      assert leaves[0] in leaves && forall l | l in leaves[1..] :: l in leaves;
      SumAllKeys(leaves[1..], prefix, d, keys);
    }
  }

  /** Rolling up to any depth conserves the count of the branch. */
  lemma Conservation(leaves: seq<Entry>, prefix: string, d: nat, out: seq<Entry>)
    requires d >= 1 && IsRollup(leaves, prefix, d, out)
    ensures Total(out) == SumBranch(leaves, prefix)
  {
    TotalIsSumKeys(leaves, prefix, d, out);
    forall l | l in leaves && InBranch(l.path, prefix) ensures Key(l.path, d) in PathsOf(out) {
      assert FoldsTo(l, prefix, d, Key(l.path, d), false);
      assert Folds(leaves, prefix, d, Key(l.path, d), false);
      assert Listed(out, Key(l.path, d));
    }
    SumAllKeys(leaves, prefix, d, PathsOf(out));
  }

  lemma NoPaths(a: seq<Entry>)
    ensures a == [] <==> PathsOf(a) == {}
  {
    if a != [] {
      assert a[0].path in PathsOf(a);
    }
  }

  /** The roll-up of given leaves is unique: their order does not matter beyond the counts. */
  lemma {:induction false} AscendingUnique(a: seq<Entry>, b: seq<Entry>)
    requires forall i, j | 0 <= i < j < |a| :: Less(a[i].path, a[j].path)
    requires forall i, j | 0 <= i < j < |b| :: Less(b[i].path, b[j].path)
    requires forall x, y | x in a && y in b && x.path == y.path :: x == y
    requires PathsOf(a) == PathsOf(b)
    ensures a == b
  {
    NoPaths(a);
    NoPaths(b);
    if a != [] {
      assert a[0].path in PathsOf(b);
      assert b[0].path in PathsOf(a);
      var j :| 0 <= j < |b| && b[j].path == a[0].path;
      var i :| 0 <= i < |a| && a[i].path == b[0].path;
      LessIsOrder(a[0].path, b[0].path, a[0].path);
      assert a[0] == b[0];
      RestPaths(a);
      RestPaths(b);
      AscendingUnique(a[1..], b[1..]);
    }
  }

  lemma RestPaths(a: seq<Entry>)
    requires a != [] && forall i, j | 0 <= i < j < |a| :: Less(a[i].path, a[j].path)
    ensures PathsOf(a[1..]) == PathsOf(a) - {a[0].path}
  {
    forall e | e in a[1..] ensures e.path != a[0].path {
      LessIsOrder(e.path, e.path, e.path);
    }
  }

  lemma RollupUnique(leaves: seq<Entry>, prefix: string, d: nat, a: seq<Entry>, b: seq<Entry>)
    requires d >= 1 && IsRollup(leaves, prefix, d, a) && IsRollup(leaves, prefix, d, b)
    ensures a == b
  {
    SamePaths(leaves, prefix, d, a, b);
    SamePaths(leaves, prefix, d, b, a);
    AscendingUnique(a, b);
  }

  lemma SamePaths(leaves: seq<Entry>, prefix: string, d: nat, a: seq<Entry>, b: seq<Entry>)
    requires d >= 1 && IsRollup(leaves, prefix, d, a) && IsRollup(leaves, prefix, d, b)
    ensures PathsOf(a) <= PathsOf(b)
  {
    forall e | e in a ensures e.path in PathsOf(b) {
      assert IsEntry(leaves, prefix, d, e);
      assert Listed(b, e.path);
    }
  }

  // ---- drilling down ----

  /** Leaves under `key` that the roll-up of `prefix` did not see. */
  function Outside(leaves: seq<Entry>, prefix: string, key: string): nat {
    if leaves == [] then 0
    else
      (if Under(leaves[0].path, key) && !InBranch(leaves[0].path, prefix) then leaves[0].count else 0)
      + Outside(leaves[1..], prefix, key)
  }

  /** A path folds to an expandable key exactly when it lies in that branch. */
  lemma FoldsIffUnder(path: string, d: nat, key: string)
    requires d >= 1 && |Split(key)| == d
    ensures Key(path, d) == key <==> Under(path, key)
  {
    UnderIsSegmentPrefix(path, key);
    SplitFacts(key);
    SplitFacts(path);
    if Deep(path, d) {
      FoldedPath(path, d);
      if Split(key) <= Split(path) {
        assert Split(path)[..d] == Split(key);
      }
    } else if Split(key) <= Split(path) {
      assert Split(key) == Split(path);
    }
  }

  /** A leaf of the branch counts for the path of its first `d` segments, and makes it expandable
      when it has more; a shorter one counts for itself. */
  lemma FoldsToIff(l: Entry, prefix: string, d: nat, key: string, deep: bool)
    requires d >= 1
    ensures FoldsTo(l, prefix, d, key, deep) <==>
      (prefix == "" || Split(prefix) <= Split(l.path)) &&
      if |Split(l.path)| > d then Split(key) == Split(l.path)[..d] else !deep && key == l.path
  {
    UnderIsSegmentPrefix(l.path, prefix);
    SplitFacts(key);
    if Deep(l.path, d) {
      FoldedPath(l.path, d);
    }
  }

  /** An entry can be drilled into exactly when a leaf of the branch lies below it at the depth of
      the roll-up. */
  lemma ExpandableIff(leaves: seq<Entry>, prefix: string, d: nat, out: seq<Entry>, i: nat)
    requires d >= 1 && IsRollup(leaves, prefix, d, out) && i < |out|
    ensures out[i].expandable <==> (|Split(out[i].path)| == d && exists l :: (l in leaves &&
        (prefix == "" || Split(prefix) <= Split(l.path)) && Split(out[i].path) < Split(l.path)))
  {
    var key := out[i].path;
    assert IsEntry(leaves, prefix, d, out[i]);
    if out[i].expandable {
      var l :| l in leaves && FoldsTo(l, prefix, d, key, true);
      FoldsToIff(l, prefix, d, key, true);
    }
    if l :| l in leaves && (prefix == "" || Split(prefix) <= Split(l.path)) && Split(key) < Split(l.path) &&
            |Split(key)| == d {
      FoldsToIff(l, prefix, d, key, true);
    }
  }

  lemma {:induction false} SumKeyIsBranch(leaves: seq<Entry>, prefix: string, d: nat, key: string)
    requires d >= 1 && |Split(key)| == d && key != ""
    ensures SumBranch(leaves, key) == SumKeys(leaves, prefix, d, {key}) + Outside(leaves, prefix, key)
  {
    if leaves != [] {
      FoldsIffUnder(leaves[0].path, d, key);
      SumKeyIsBranch(leaves[1..], prefix, d, key);
    }
  }

  /** Drilling into an expandable entry, at any depth, finds its count and besides exactly the
      leaves of that branch that lie outside the prefix it came from. An entry with the empty path
      cannot be drilled into: the empty prefix stands for the whole catalog. */
  lemma DrillDown(leaves: seq<Entry>, prefix: string, d: nat, out: seq<Entry>, i: nat, d': nat, deeper: seq<Entry>)
    requires d >= 1 && d' >= 1 && IsRollup(leaves, prefix, d, out)
    requires i < |out| && out[i].expandable && IsRollup(leaves, out[i].path, d', deeper)
    ensures out[i].path == "" ==> Total(deeper) == SumBranch(leaves, "")
    ensures out[i].path != "" ==> Total(deeper) == out[i].count + Outside(leaves, prefix, out[i].path)
    ensures out[i].path != "" && (prefix == "" || d >= |Split(prefix)|) ==> Total(deeper) == out[i].count
  {
    var key := out[i].path;
    Conservation(leaves, key, d', deeper);
    if key != "" {
      var l := ExpandableLeaf(leaves, prefix, d, out, i);
      SumKeyIsBranch(leaves, prefix, d, key);
      if prefix == "" || d >= |Split(prefix)| {
        if prefix != "" {
          UnderIsSegmentPrefix(l.path, prefix);
          assert Split(prefix) <= Split(key);
        }
        NothingOutside(leaves, prefix, key);
      }
    }
  }

  lemma ExpandableLeaf(leaves: seq<Entry>, prefix: string, d: nat, out: seq<Entry>, i: nat) returns (l: Entry)
    requires d >= 1 && IsRollup(leaves, prefix, d, out) && i < |out| && out[i].expandable
    ensures l in leaves && InBranch(l.path, prefix) && Deep(l.path, d)
    ensures Split(out[i].path) == Split(l.path)[..d] && out[i].count == SumKeys(leaves, prefix, d, {out[i].path})
  {
    assert IsEntry(leaves, prefix, d, out[i]);
    l :| l in leaves && FoldsTo(l, prefix, d, out[i].path, true);
    FoldedPath(l.path, d);
  }

  lemma {:induction false} NothingOutside(leaves: seq<Entry>, prefix: string, key: string)
    requires prefix == "" || Split(prefix) <= Split(key)
    ensures Outside(leaves, prefix, key) == 0
  {
    if leaves != [] {
      UnderIsSegmentPrefix(leaves[0].path, key);
      UnderIsSegmentPrefix(leaves[0].path, prefix);
      NothingOutside(leaves[1..], prefix, key);
    }
  }
}
