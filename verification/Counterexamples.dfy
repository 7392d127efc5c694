/** Inputs on which the store falls short of what its comments promise, each reached from the
    empty store. When exactly it does is in StoreIndex, StoreHistory and DocsSync. */
module Counterexamples {
  import opened Options
  import opened Text
  import opened Links
  import opened Scopes
  import opened Store
  import opened StoreInvariant
  import opened StoreIndex
  import opened StoreHistory
  import opened DocsSync
  import opened Graphs
  import opened GraphProperties
  import DB = MemoryDB

  const META: Meta := Meta("author", "", "now")

  function Insertion(id: Id, title: string, content: string): Step {
    InsertStep(id, title, content, "", "", META)
  }

  // ---- the texts ----

  /** Two spaces: SQL keeps them, link normalization does not. */
  lemma TwoSpaces()
    ensures SqlFold("a  b") == "a  b" == GoFold("a  b") && NormalizeLink("a  b") == "a b" && !Plain("a  b")
  {
    assert Trim("a  b", SqlBlank) == "a  b" && Trim("a  b", GoBlank) == "a  b";
    assert Collapse("b") == "b";
    assert Collapse(" b") == " b";
    assert Collapse("  b") == " b";
    assert Collapse("a  b") == "a b";
    assert Trim("a b", GoBlank) == "a b";
  }

  /** A tab at the end: Go trims it, SQL does not. */
  lemma TabAtEnd()
    ensures SqlFold("x\t") == "x\t" && GoFold("x\t") == "x" && !Trimmed("x\t")
  {
    assert "x\t"[..1] == "x";
    assert TrimRight("x", GoBlank) == "x";
    assert TrimRight("x\t", GoBlank) == "x";
    assert TrimLeft("x\t", GoBlank) == "x\t";
    assert Trim("x\t", SqlBlank) == "x\t";
  }

  lemma PlainTarget(x: string)
    requires x != "" && IsNorm(x) && ':' !in x
    ensures SplitRel(x) == Link(Relates, x)
  {
    FindIsLeast(x, "::", 0);
    NormFixed(x);
  }

  lemma OneLink()
    ensures Parse("[[a b]]") == [Link(Relates, "a b")] && Parse("") == []
  {
    ParseOne("a b");
    assert "[[a b]]" == "[[" + ("a b" + ("]]" + ""));
  }

  lemma ParseOne(x: string)
    requires x != "" && Inert(x) && IsNorm(x) && ':' !in x
    ensures Parse("[[" + (x + ("]]" + ""))) == [Link(Relates, x)]
  {
    BareLink(x);
    PlainTarget(x);
    FirstsOfOne(x);
  }

  // ---- runs ----

  /** An insert whose title nobody has under any of the folds. */
  lemma Inserts(s: State, step: Step)
    requires Inv(s) && Enabled(s, step) && step.InsertStep?
    requires forall d | d in s.live :: SqlFold(s.live[d].title) != GoFold(step.title)
    ensures Try(s, step).Ok? && Apply(s, step) == Written(s, step.id, InsertedRow(step), step.meta)
  {
  }

  /** What healing does to a dangling row that asks for the new title. */
  lemma Healed(s: State, id: Id, m: Memory, meta: Meta, k: EdgeKey)
    requires k in s.edges && s.edges[k].None? && k.src != id && k.raw == NormalizeLink(m.title)
    ensures var t := Written(s, id, m, meta); k in t.edges && t.edges[k] == Some(id)
  {
    assert k in Without(s.edges, id);
  }

  lemma StillUnresolved(s: State, id: Id, m: Memory, meta: Meta, k: EdgeKey)
    requires Inv(s) && k in s.edges && s.edges[k].None? && SqlFold(m.title) != k.raw
    ensures Holder(Written(s, id, m, meta).live, k.raw, k.src).None?
  {
    var t := Written(s, id, m, meta);
    forall d ensures !Names(t.live, d, k.raw, k.src) {
      assert !Names(s.live, d, k.raw, k.src);
    }
  }

  lemma ThenUnsettled(t: State, k: EdgeKey, id: Id)
    requires Inv(t) && k in t.edges && t.edges[k] == Some(id) && id in t.live
    requires k.raw == NormalizeLink(t.live[id].title) && Holder(t.live, k.raw, k.src).None?
    ensures !Settled(t) && Ambiguous(t.live)
  {
    assert !TombBound(t.tombs, t.edges, k);
    assert Contested(t.live, k, id);
  }

  /** A dangling row that waits for a title SQL reads differently is healed past resolution. */
  lemma HealedTooFar(s: State, step: Step, k: EdgeKey)
    requires Inv(s) && Enabled(s, step) && step.InsertStep? && Try(s, step).Ok?
    requires k in s.edges && s.edges[k].None? && k.src != step.id
    requires k.raw == NormalizeLink(step.title) && !Plain(step.title)
    ensures var t := Apply(s, step);
      && !Settled(t) && k in t.edges && t.edges[k] == Some(step.id)
      && Holder(t.live, k.raw, k.src).None? && Ambiguous(t.live)
  {
    assert Apply(s, step) == Written(s, step.id, InsertedRow(step), step.meta);
    StepKeepsInv(s, step);
    Healed(s, step.id, InsertedRow(step), step.meta, k);
    StillUnresolved(s, step.id, InsertedRow(step), step.meta, k);
    ThenUnsettled(Apply(s, step), k, step.id);
  }

  /** A second insert, under another title, into a store of one memory. */
  lemma SecondInsert(s: State, first: Step, second: Step)
    requires first.InsertStep? && second.InsertStep? && first.id != second.id
    requires Inv(s) && s.tombs == map[] && s.live == map[first.id := InsertedRow(first)]
    requires SqlFold(first.title) != GoFold(second.title)
    ensures Enabled(s, second) && Try(s, second).Ok?
    ensures Apply(s, second).tombs == map[]
    ensures Apply(s, second).live == map[first.id := InsertedRow(first), second.id := InsertedRow(second)]
  {
    Inserts(s, second);
  }

  lemma FirstInsert(first: Step, k: EdgeKey)
    requires first.InsertStep? && k.src == first.id && HasLink(first.content, k)
    requires SqlFold(first.title) != k.raw
    ensures Enabled(EMPTY, first) && Apply(EMPTY, first).live == map[first.id := InsertedRow(first)]
    ensures var t := Apply(EMPTY, first);
      Inv(t) && Settled(t) && t.tombs == map[] && k in t.edges && t.edges[k].None?
  {
    Inserts(EMPTY, first);
    StepKeepsInv(EMPTY, first);
    InsertSettledIff(EMPTY, first);
    var t := Apply(EMPTY, first);
    assert EMPTY.edges == map[];
    assert k in t.edges && t.edges[k] == Holder(t.live, k.raw, k.src);
  }

  /** Three inserts: one with a dangling link, one it waits for in its normalized form only, and
      one with the same link. */
  ghost predicate HealingCase(one: Step, two: Step, three: Step, k: EdgeKey, j: EdgeKey) {
    && one.InsertStep? && two.InsertStep? && three.InsertStep?
    && one.id != two.id && one.id != three.id && two.id != three.id
    && k.src == one.id && HasLink(one.content, k) && j.src == three.id && HasLink(three.content, j)
    && k.raw == j.raw == NormalizeLink(two.title) && !Plain(two.title) && SqlFold(one.title) != k.raw
    && SqlFold(one.title) != GoFold(two.title)
    && SqlFold(one.title) != GoFold(three.title) && SqlFold(two.title) != GoFold(three.title)
  }

  lemma FirstTwo(one: Step, two: Step, three: Step, k: EdgeKey, j: EdgeKey) returns (s1: State, s2: State)
    requires HealingCase(one, two, three, k, j)
    ensures Enabled(EMPTY, one) && s1 == Apply(EMPTY, one) && Settled(s1)
    ensures Enabled(s1, two) && s2 == Apply(s1, two) && Inv(s2) && s2.tombs == map[]
    ensures s2.live == map[one.id := InsertedRow(one), two.id := InsertedRow(two)]
    ensures !Settled(s2) && Ambiguous(s2.live)
    ensures k in s2.edges && s2.edges[k] == Some(two.id) && Holder(s2.live, k.raw, k.src).None?
  {
    FirstInsert(one, k);
    s1 := Apply(EMPTY, one);
    SecondInsert(s1, one, two);
    s2 := Apply(s1, two);
    StepKeepsInv(s1, two);
    HealedTooFar(s1, two, k);
  }

  lemma ThirdMisses(s: State, one: Step, two: Step, three: Step, k: EdgeKey, j: EdgeKey)
    requires HealingCase(one, two, three, k, j) && Inv(s) && s.tombs == map[]
    requires s.live == map[one.id := InsertedRow(one), two.id := InsertedRow(two)]
    ensures Enabled(s, three) && j in Apply(s, three).edges && Apply(s, three).edges[j] != Some(two.id)
  {
    Inserts(s, three);
    LinkFindsIff(s, three, j, two.id);
  }

  lemma HealingRun(one: Step, two: Step, three: Step, k: EdgeKey, j: EdgeKey)
      returns (trace: seq<State>, s1: State, s2: State, s3: State)
    requires HealingCase(one, two, three, k, j)
    ensures IsRun(trace, [one, two, three]) && trace == [EMPTY, s1, s2, s3]
    ensures Settled(s1) && !Settled(s2) && Ambiguous(s2.live)
    ensures k in s2.edges && s2.edges[k] == Some(two.id) && Holder(s2.live, k.raw, k.src).None?
    ensures j in s3.edges && s3.edges[j] != Some(two.id)
  {
    s1, s2 := FirstTwo(one, two, three, k, j);
    ThirdMisses(s2, one, two, three, k, j);
    trace := ThreeSteps(s1, s2, one, two, three);
    s3 := Apply(s2, three);
  }

  lemma ThreeSteps(s1: State, s2: State, one: Step, two: Step, three: Step) returns (trace: seq<State>)
    requires Enabled(EMPTY, one) && s1 == Apply(EMPTY, one) && Enabled(s1, two) && s2 == Apply(s1, two)
    requires Enabled(s2, three)
    ensures IsRun(trace, [one, two, three]) && trace == [EMPTY, s1, s2, Apply(s2, three)]
  {
    trace := [EMPTY, s1, s2, Apply(s2, three)];
    var steps := [one, two, three];
    forall i | 0 <= i < |steps| ensures Enabled(trace[i], steps[i]) && trace[i + 1] == Apply(trace[i], steps[i]) {
      assert i == 0 || i == 1 || i == 2;
    }
  }

  lemma TwoSpacesCase()
    ensures HealingCase(Insertion("1", "s", "[[a b]]"), Insertion("2", "a  b", ""), Insertion("3", "t", "[[a b]]"),
                        EdgeKey("1", "a b", Relates), EdgeKey("3", "a b", Relates))
  {
    TwoSpaces();
    OneLetter("s");
    OneLetter("t");
    HasOneLink("1");
    HasOneLink("3");
  }

  lemma OneLetter(t: string)
    requires |t| == 1 && IsNorm(t)
    ensures SqlFold(t) == t == GoFold(t)
  {
    NormFixed(t);
    FoldsAgree(t);
  }

  lemma HasOneLink(src: Id)
    ensures HasLink("[[a b]]", EdgeKey(src, "a b", Relates))
  {
    OneLink();
  }

  /** The title `a  b` heals a dangling [[a b]] that resolution would leave dangling, and so makes
      the table depend on the order of a rebuild; a new [[a b]] does not find it. */
  lemma HealingOutrunsResolution() returns (trace: seq<State>, steps: seq<Step>)
    ensures steps == [Insertion("1", "s", "[[a b]]"), Insertion("2", "a  b", ""), Insertion("3", "t", "[[a b]]")]
    ensures IsRun(trace, steps) && Settled(trace[1]) && !Settled(trace[2]) && Ambiguous(trace[2].live)
    ensures var k := EdgeKey("1", "a b", Relates);
      k in trace[2].edges && trace[2].edges[k] == Some("2") && Holder(trace[2].live, k.raw, k.src).None?
    ensures var j := EdgeKey("3", "a b", Relates); j in trace[3].edges && trace[3].edges[j] != Some("2")
  {
    TwoSpacesCase();
    steps := [Insertion("1", "s", "[[a b]]"), Insertion("2", "a  b", ""), Insertion("3", "t", "[[a b]]")];
    var s1, s2, s3;
    trace, s1, s2, s3 :=
      HealingRun(steps[0], steps[1], steps[2], EdgeKey("1", "a b", Relates), EdgeKey("3", "a b", Relates));
    assert steps == [steps[0], steps[1], steps[2]];
  }

  lemma TwoStates(one: Step, two: Step) returns (s1: State, s2: State)
    requires one.InsertStep? && two.InsertStep? && one.id != two.id && one.title == two.title
    requires SqlFold(one.title) != GoFold(one.title)
    ensures Enabled(EMPTY, one) && s1 == Apply(EMPTY, one) && s1.tombs == map[] && s1.live.Keys == {one.id}
    ensures Enabled(s1, two) && s2 == Apply(s1, two) && s2.tombs == map[]
    ensures s2.live == map[one.id := InsertedRow(one), two.id := InsertedRow(two)]
  {
    Inserts(EMPTY, one);
    StepKeepsInv(EMPTY, one);
    s1 := Apply(EMPTY, one);
    SecondInsert(s1, one, two);
    s2 := Apply(s1, two);
  }

  lemma TakenTwiceRun(one: Step, two: Step) returns (trace: seq<State>)
    requires one.InsertStep? && two.InsertStep? && one.id != two.id && one.title == two.title
    requires SqlFold(one.title) != GoFold(one.title)
    ensures IsRun(trace, [one, two]) && SameTitle(trace[2].live, one.id, two.id)
  {
    var s1, s2 := TwoStates(one, two);
    trace := [EMPTY, s1, s2];
  }

  predicate SameTitle(live: map<Id, Memory>, d: Id, e: Id) {
    d in live && e in live && d != e && live[d].title == live[e].title
  }

  /** The title `x` with a tab after it is taken twice. */
  lemma TitleTakenTwice() returns (trace: seq<State>, steps: seq<Step>)
    ensures steps == [Insertion("1", "x\t", ""), Insertion("2", "x\t", "")]
    ensures IsRun(trace, steps) && SameTitle(trace[2].live, "1", "2")
  {
    TabAtEnd();
    steps := [Insertion("1", "x\t", ""), Insertion("2", "x\t", "")];
    trace := TakenTwiceRun(steps[0], steps[1]);
    assert steps == [steps[0], steps[1]];
  }

  method TwoRecords(one: Step, two: Step) returns (db: DB.MemoryDB)
    requires one.InsertStep? && two.InsertStep? && one.id != two.id && one.title == two.title
    requires SqlFold(one.title) != GoFold(one.title)
    ensures fresh(db) && db.Valid() && db.tombs == map[]
    ensures db.live == map[one.id := InsertedRow(one), two.id := InsertedRow(two)]
  {
    db := new DB.MemoryDB();
    ghost var s1, s2 := TwoStates(one, two);
    var r1 := db.Insert(one.id, one.title, one.content, one.taxonomy, one.format, one.meta);
    assert db.Abs() == s1;
    var r2 := db.Insert(two.id, two.title, two.content, two.taxonomy, two.format, two.meta);
    assert db.Abs() == s2;
  }

  method SyncOverShared(one: Step, two: Step, doc: Doc, other: Id) returns (db: DB.MemoryDB, report: Report)
    requires one.InsertStep? && two.InsertStep? && one.id != two.id && one.title == two.title
    requires SqlFold(one.title) != GoFold(one.title) && other != one.id && other != two.id
    requires Complete(doc) && SqlFold(one.title) != GoFold(doc.title)
    ensures fresh(db) && db.Valid() && report.error.None?
    ensures !InSync(db.live, [doc])
  {
    db := TwoRecords(one, two);
    assert db.live[one.id].title == db.live[two.id].title;
    report := SyncOne(db, doc, other);
  }

  method SyncOne(db: DB.MemoryDB, doc: Doc, other: Id) returns (report: Report)
    requires db.Valid() && !TitlesDistinct(db.live) && db.tombs == map[] && Complete(doc) && other !in db.live
    requires forall id | id in db.live :: SqlFold(db.live[id].title) != GoFold(doc.title)
    modifies db
    ensures db.Valid() && report.error.None? && !InSync(db.live, [doc])
  {
    assert Free(db.live, [doc], 0);
    assert AcceptsAt(db.live, [doc], 0);
    assert AcceptsFirst(db.live, [doc], 0);
    assert Accepts(db.live, [doc]);
    report := Sync(db, [doc], [other], META);
  }

  const DOC: Doc := Doc("t", "a", "", "c")

  /** A Sync over two records with one title succeeds and removes one of them only. */
  method SharedTitleSurvives(content: string) returns (db: DB.MemoryDB, report: Report)
    ensures fresh(db) && db.Valid() && Loaded([DOC]) && report.error.None? && !InSync(db.live, [DOC])
  {
    TabAtEnd();
    OneLetter("t");
    db, report := SyncOverShared(Insertion("1", "x\t", content), Insertion("2", "x\t", content), DOC, "3");
  }

  // ---- a refused undo ----

  const FULL: Scope := Scope(true, [], [], [])

  /** A memory is renamed to a title SQL does not trim, and a second memory takes the trimmed one. */
  ghost predicate UndoCase(one: Step, two: Step, three: Step, t: string) {
    && one.InsertStep? && two.UpdateStep? && three.InsertStep? && one.id == two.id && one.id != three.id
    && two.updates == Updates(Some(t), None, None, None) && two.base.None?
    && SqlFold(three.title) == GoFold(t) && GoFold(three.title) != SqlFold(t)
    && GoFold(one.title) != SqlFold(three.title)
  }

  lemma Renamed(one: Step, two: Step, three: Step, t: string) returns (s1: State, s2: State)
    requires UndoCase(one, two, three, t)
    ensures Enabled(EMPTY, one) && s1 == Apply(EMPTY, one) && Try(EMPTY, one).Ok?
    ensures Enabled(s1, two) && s2 == Apply(s1, two) && Inv(s2) && s2.tombs == map[]
    ensures s2.live == map[one.id := Applied(InsertedRow(one), two.updates, two.meta.now)]
  {
    Inserts(EMPTY, one);
    StepKeepsInv(EMPTY, one);
    s1 := Apply(EMPTY, one);
    StepKeepsInv(s1, two);
    s2 := Apply(s1, two);
    assert Holder(s1.live, GoFold(t), one.id).None?;
  }

  lemma UndoRun(one: Step, two: Step, three: Step, t: string) returns (trace: seq<State>)
    requires UndoCase(one, two, three, t)
    ensures IsRun(trace, [one, two, three]) && Inv(trace[3])
    ensures trace[3].live == map[one.id := Applied(InsertedRow(one), two.updates, two.meta.now),
                                  three.id := InsertedRow(three)]
    ensures RevKey(one.id, 1) in trace[3].revs && trace[3].revs[RevKey(one.id, 1)].title == one.title
  {
    var s1, s2 := Renamed(one, two, three, t);
    Inserts(s2, three);
    trace := ThreeSteps(s1, s2, one, two, three);
    RunKeepsInv(trace, [one, two, three], 3);
    InsertIsRecorded(trace, [one, two, three], 0, 3);
  }

  lemma UndoRefused(s: State, id: Id, other: Id, author: string, now: string)
    requires Inv(s) && id in s.live && other in s.live && s.live.Keys == {id, other} && id != other
    requires RevKey(id, 1) in s.revs && GoFold(s.revs[RevKey(id, 1)].title) != SqlFold(s.live[other].title)
    requires SqlFold(s.live[other].title) == GoFold(s.live[id].title)
    ensures Restore(s, FULL, id, 1, author, now).Ok? && Undo(s, FULL, id, 1, author, now).Err?
  {
    RestoreIff(s, FULL, id, 1, author, now);
    UndoIff(s, FULL, id, 1, author, now);
    assert Names(s.live, other, GoFold(s.live[id].title), id);
  }

  lemma RefusedRun(one: Step, two: Step, three: Step, t: string, author: string, now: string)
      returns (trace: seq<State>)
    requires UndoCase(one, two, three, t)
    ensures IsRun(trace, [one, two, three]) && one.id in trace[3].live
    ensures Restore(trace[3], FULL, one.id, 1, author, now).Ok? && Undo(trace[3], FULL, one.id, 1, author, now).Err?
  {
    trace := UndoRun(one, two, three, t);
    UndoRefused(trace[3], one.id, three.id, author, now);
  }

  lemma TabbedCase()
    ensures UndoCase(Insertion("1", "a", ""), UpdateStep("1", Updates(Some("x\t"), None, None, None), None, META),
                     Insertion("2", "x", ""), "x\t")
  {
    TabAtEnd();
    OneLetter("a");
    OneLetter("x");
  }

  /** Renamed from `a` to `x` with a tab after it, and restored to `a` once another memory is
      called `x`, a memory cannot be given its former title back. */
  lemma UndoIsRefused(author: string, now: string) returns (trace: seq<State>, steps: seq<Step>)
    ensures steps == [Insertion("1", "a", ""), UpdateStep("1", Updates(Some("x\t"), None, None, None), None, META),
                      Insertion("2", "x", "")]
    ensures IsRun(trace, steps) && "1" in trace[3].live
    ensures Restore(trace[3], FULL, "1", 1, author, now).Ok? && Undo(trace[3], FULL, "1", 1, author, now).Err?
  {
    steps := [Insertion("1", "a", ""), UpdateStep("1", Updates(Some("x\t"), None, None, None), None, META),
              Insertion("2", "x", "")];
    TabbedCase();
    trace := RefusedRun(steps[0], steps[1], steps[2], "x\t", author, now);
    assert steps == [steps[0], steps[1], steps[2]];
  }

  // ---- a graph read around a delete ----

  const GONE: Tombstone := Tombstone("m", "", "then", "now", "author", 1)
  const NOTE: Memory := Memory("m", "", "", "markdown", "then", "then", 1)

  /** The memories are read before `m` is deleted and the tombstones after: `m` is drawn twice. */
  method NodeDrawnTwice() returns (r: Option<Graph>)
    ensures r.Some? && !DistinctIds(r.value.nodes)
  {
    var live, tombs := map["a" := NOTE, "m" := NOTE], map["m" := GONE];
    var row := Row("a", Some("m"), "m", Relates);
    assert !(DANGLING <= "a") && !(DANGLING <= "m");
    r := BuildGraph(live, [row], [row], tombs, FULL, "", 0, "");
    assert row in [row] && EndsDoubled(row, live.Keys, Leaves(live, tombs, FULL));
    assert Included([row], Readable(live, [row], FULL), "", 0, "") == live.Keys;
  }

  /** And it bridges: `b` is in the neighbourhood of `a` by way of a tombstone. */
  lemma TombstoneBridges(live: map<Id, Memory>, tombs: map<Id, Tombstone>, rows: seq<Row>)
    requires live == map["a" := NOTE, "b" := NOTE, "m" := NOTE] && tombs == map["m" := GONE]
    requires rows == [Row("a", Some("m"), "m", Relates), Row("m", Some("b"), "b", Relates)]
    ensures "b" in Included(rows, Readable(live, rows, FULL), "a", 2, "") && "m" in tombs
    ensures forall path | IsPath(rows, Readable(live, rows, FULL).Keys, path) && path[0] == "a" &&
        path[|path| - 1] == "b" && |path| <= 3 :: |path| == 3 && path[1] in tombs
  {
    var among := Readable(live, rows, FULL).Keys;
    assert among == {"a", "b", "m"};
    var path := ["a", "m", "b"];
    assert rows[0] in rows && Joins(rows[0], "a", "m") && rows[1] in rows && Joins(rows[1], "m", "b");
    assert Linked(rows, "a", "m") && Linked(rows, "m", "b");
    assert IsPath(rows, among, path);
    EgoIsExact(live, rows, rows, FULL, "a", 2, "", "b");
    assert Reaches(rows, among, "a", "b", 2);
    forall p | IsPath(rows, among, p) && p[0] == "a" && p[|p| - 1] == "b" && |p| <= 3
      ensures |p| == 3 && p[1] in tombs
    {
      AroundNothing(rows, p);
    }
  }

  lemma AroundNothing(rows: seq<Row>, p: seq<Id>)
    requires rows == [Row("a", Some("m"), "m", Relates), Row("m", Some("b"), "b", Relates)]
    requires IsPath(rows, {"a", "b", "m"}, p) && p[0] == "a" && p[|p| - 1] == "b" && |p| <= 3
    ensures |p| == 3 && p[1] == "m"
  {
    assert |p| >= 2;
    assert Linked(rows, p[0], p[1]);
    var r :| r in rows && Joins(r, p[0], p[1]);
    assert r == rows[0] || r == rows[1];
  }

  // ---- ticks in a row ----

  /** Every place where a tick may start, checked by its first characters. */
  lemma FenceFirst(s: string, from: nat, p: nat)
    requires from <= p && p + 3 <= |s| && s[p] == s[p + 1] == s[p + 2] == '`'
    requires forall i | from <= i < p :: s[i] != '`' || s[i + 1] != '`' || s[i + 2] != '`'
    ensures FirstAt(s, "```", from, p)
  {
    assert s[p..p + 3] == "```";
    forall i | from <= i < p ensures !Occurs(s, "```", i) {
      OccursThree(s, i);
    }
  }

  lemma OccursThree(s: string, i: int)
    ensures Occurs(s, "```", i) ==> s[i] == s[i + 1] == s[i + 2] == '`'
  {
    OccursAt(s, "```", i, 0);
    OccursAt(s, "```", i, 1);
    OccursAt(s, "```", i, 2);
  }

  lemma TickFirst(s: string, from: nat, p: nat)
    requires from <= p < |s| && s[p] == '`' && forall i | from <= i < p :: s[i] != '`'
    ensures FirstAt(s, "`", from, p)
  {
    assert s[p..p + 1] == "`";
    forall i | from <= i < p ensures !Occurs(s, "`", i) {
      OccursChar(s, "`", i);
    }
  }

  lemma FenceTaken()
    ensures Parse("`x```[[y]]```") == []
  {
    FenceCut();
    TickAlone();
    assert Links.Matches("`x") == [];
  }

  lemma FenceCut()
    ensures StripCode("`x```[[y]]```", FENCE) == "`x"
  {
    var s := "`x```[[y]]```";
    FenceFirst(s, 0, 2);
    FenceFirst(s, 5, 10);
    StripCodeLaw(s, FENCE, 2, 10);
    assert s[..2] == "`x" && s[13..] == "";
  }

  lemma TickAlone()
    ensures StripCode("`x", TICK) == "`x"
  {
    forall p, q | Occurs("`x", TICK, p) && Occurs("`x", TICK, q) ensures q < p + |TICK| {
      OccursChar("`x", TICK, p);
      OccursChar("`x", TICK, q);
    }
    UnpairedStays("`x", TICK);
  }

  lemma TicksTaken()
    ensures Parse("``[[y]]```") == [Link(Relates, "y")]
  {
    NoFencePair();
    FrontTicksCut();
    BackTicksCut();
    LinkThenTick();
    assert "[[y]]" + "`" == "[[y]]`";
  }

  lemma NoFencePair()
    ensures StripCode("``[[y]]```", FENCE) == "``[[y]]```"
  {
    var s := "``[[y]]```";
    forall p, q | Occurs(s, FENCE, p) && Occurs(s, FENCE, q) ensures q < p + |FENCE| {
      OccursThree(s, p);
      OccursThree(s, q);
    }
    UnpairedStays(s, FENCE);
  }

  lemma FrontTicksCut()
    ensures StripCode("``[[y]]```", TICK) == StripCode("[[y]]```", TICK)
  {
    var s := "``[[y]]```";
    TickFirst(s, 0, 0);
    TickFirst(s, 1, 1);
    StripCodeLaw(s, TICK, 0, 1);
    assert s[2..] == "[[y]]```" && s[..0] == "";
  }

  lemma BackTicksCut()
    ensures StripCode("[[y]]```", TICK) == "[[y]]`"
  {
    var t := "[[y]]```";
    TickFirst(t, 0, 5);
    TickFirst(t, 6, 6);
    StripCodeLaw(t, TICK, 5, 6);
    assert t[7..] == "`" && StripCode("`", TICK) == "`";
    assert t[..5] + "`" == "[[y]]`";
  }

  lemma LinkThenTick()
    ensures Firsts(Links.Matches("[[y]]" + "`"), {}) == [Link(Relates, "y")]
  {
    MatchesBefore("[[y]]", "`");
    assert "[[y]]" == "[[" + ("y" + ("]]" + ""));
    MatchesLink("y", "");
    PlainTarget("y");
    FirstsOfOne("y");
  }

  /** A tick that stands in a row with others may close a fence instead: what comes after `x` in
      ticks is then parsed otherwise than it would be alone. */
  lemma TicksInARow()
    ensures Parse("`" + "x" + "`" + "``[[y]]```") != Parse("``[[y]]```")
  {
    assert "`" + "x" + "`" + "``[[y]]```" == "`x```[[y]]```";
    FenceTaken();
    TicksTaken();
  }
}
