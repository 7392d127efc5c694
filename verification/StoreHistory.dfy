/** Revision history over whole runs: no lost updates, append-only history, restoring. */
module StoreHistory {
  import opened Options
  import opened Text
  import opened Links
  import opened Scopes
  import opened Store
  import opened StoreInvariant

  /** What a later state keeps of an earlier one. */
  ghost predicate Keeps(s: State, t: State) {
    && (forall id | id in s.tombs :: id in t.tombs && t.tombs[id] == s.tombs[id])
    && (forall id | id in s.live :: id in t.live || id in t.tombs)
    && (forall id | id in s.live && id in t.live ::
          s.live[id].version <= t.live[id].version && s.live[id].createdAt == t.live[id].createdAt)
    && (forall k | k in s.revs && k.id in t.live :: k in t.revs && t.revs[k] == s.revs[k])
  }

  lemma WrittenKeeps(s: State, id: Id, m: Memory, meta: Meta)
    requires Inv(s) && (id in s.live ==> m.version == s.live[id].version + 1 && m.createdAt == s.live[id].createdAt)
    ensures Keeps(s, Written(s, id, m, meta))
  {
  }

  lemma StepKeeps(s: State, step: Step)
    requires Inv(s) && Enabled(s, step)
    ensures Keeps(s, Apply(s, step))
  {
    if Try(s, step).Ok? {
      match step
      case InsertStep(id, title, content, taxonomy, format, meta) =>
        WrittenKeeps(s, id, Memory(title, content, taxonomy, FormatOrDefault(format), meta.now, meta.now, 1), meta);
      case UpdateStep(id, updates, _, meta) =>
        WrittenKeeps(s, id, Applied(s.live[id], updates, meta.now), meta);
      case DeleteStep(_, _, _) =>
      case RebuildStep(_) =>
    }
  }

  /** Deleted ids are gone, and revisions belong to live memories. */
  ghost predicate WellKeyed(s: State) {
    s.live.Keys !! s.tombs.Keys && forall k | k in s.revs :: k.id in s.live
  }

  lemma KeepsTransitive(s: State, t: State, u: State)
    requires WellKeyed(s) && WellKeyed(u) && Keeps(s, t) && Keeps(t, u)
    ensures Keeps(s, u)
  {
    forall id | id in s.live && id in u.live ensures id in t.live {
      assert id in t.tombs ==> id in u.tombs;
    }
  }

  lemma RunStepKeeps(trace: seq<State>, steps: seq<Step>, i: nat)
    requires IsRun(trace, steps) && i < |steps|
    ensures WellKeyed(trace[i]) && WellKeyed(trace[i + 1]) && Keeps(trace[i], trace[i + 1])
  {
    RunKeepsInv(trace, steps, i);
    StepKeeps(trace[i], steps[i]);
    StepKeepsInv(trace[i], steps[i]);
    assert trace[i + 1] == Apply(trace[i], steps[i]);
  }

  /** Tombstones and creation times never change, versions never fall, a deleted id never comes
      back, and a revision stays as written until its memory is deleted. */
  lemma {:induction false} RunKeeps(trace: seq<State>, steps: seq<Step>, i: nat, j: nat)
    requires IsRun(trace, steps) && i <= j < |trace|
    ensures Keeps(trace[i], trace[j])
    decreases j
  {
    if i < j {
      RunKeeps(trace, steps, i, j - 1);
      RunStepKeeps(trace, steps, j - 1);
      RunStepKeeps(trace, steps, i);
      KeepsTransitive(trace[i], trace[j - 1], trace[j]);
    }
  }

  /** Everything about memory `d` is as it was: its row or tombstone, and its history. */
  ghost predicate SameMemory(s: State, t: State, d: Id) {
    && (d in t.live <==> d in s.live) && (d in s.live ==> t.live[d] == s.live[d])
    && (d in t.tombs <==> d in s.tombs) && (d in s.tombs ==> t.tombs[d] == s.tombs[d])
    && (forall v {:trigger RevKey(d, v)} :: RevKey(d, v) in t.revs <==> RevKey(d, v) in s.revs)
    && (forall v {:trigger RevKey(d, v)} | RevKey(d, v) in s.revs :: t.revs[RevKey(d, v)] == s.revs[RevKey(d, v)])
  }

  /** The rows of `d` keep their destinations; a dangling one is at most filled in with `id`, and
      then only under the normalized title of `id`. */
  ghost predicate SameEdges(s: State, t: State, d: Id, id: Id) {
    && (forall k: EdgeKey | k.src == d :: k in t.edges <==> k in s.edges)
    && (forall k | k in s.edges && k.src == d && t.edges[k] != s.edges[k] ::
          s.edges[k].None? && t.edges[k] == Some(id) && id in t.live && k.raw == NormalizeLink(t.live[id].title))
  }

  /** A write is about one memory: all the others stay as they are, but for links that wait for it.
      A rebuild writes edges only. */
  lemma StepTouchesOne(s: State, step: Step, d: Id)
    requires Inv(s) && Enabled(s, step) && (step.RebuildStep? || step.id != d)
    ensures SameMemory(s, Apply(s, step), d)
    ensures !step.RebuildStep? ==> SameEdges(s, Apply(s, step), d, step.id)
  {
    if step.InsertStep? || step.UpdateStep? {
      if Try(s, step).Ok? {
        WrittenTouchesOne(s, step.id, Apply(s, step).live[step.id], step.meta, d);
      }
    } else if step.DeleteStep? {
      DeletedTouchesOne(s, step, d);
    }
  }

  lemma DeletedTouchesOne(s: State, step: Step, d: Id)
    requires step.DeleteStep? && step.id != d
    ensures SameMemory(s, Apply(s, step), d) && SameEdges(s, Apply(s, step), d, step.id)
  {
  }

  lemma WrittenTouchesOne(s: State, id: Id, m: Memory, meta: Meta, d: Id)
    requires d != id
    ensures SameMemory(s, Written(s, id, m, meta), d) && SameEdges(s, Written(s, id, m, meta), d, id)
  {
    var t := Written(s, id, m, meta);
    forall k: EdgeKey | k.src == d ensures k in t.edges <==> k in s.edges {
      assert k in Without(s.edges, id) <==> k in s.edges;
    }
  }

  /** An update sets the columns it names and no other. */
  lemma UpdateWrites(s: State, step: Step)
    requires Inv(s) && Enabled(s, step) && step.UpdateStep? && Try(s, step).Ok?
    ensures step.id in s.live && step.id in Apply(s, step).live
    ensures var m, n, u := s.live[step.id], Apply(s, step).live[step.id], step.updates;
      && (match u.title case Some(x) => n.title == x case None => n.title == m.title)
      && (match u.content case Some(x) => n.content == x case None => n.content == m.content)
      && (match u.taxonomy case Some(x) => n.taxonomy == x case None => n.taxonomy == m.taxonomy)
      && (match u.format case Some(x) => n.format == x case None => n.format == m.format)
      && n.createdAt == m.createdAt && n.updatedAt == step.meta.now && n.version == m.version + 1
  {
  }

  datatype Column = Title | Content | Taxonomy | Format

  function Cell(m: Memory, c: Column): string {
    match c
    case Title => m.title
    case Content => m.content
    case Taxonomy => m.taxonomy
    case Format => m.format
  }

  /** What a step puts into a column of `id`, if it names it. */
  function Writes(step: Step, id: Id, c: Column): Option<string> {
    match step
    case InsertStep(d, title, content, taxonomy, format, _) =>
      if d != id then None
      else Some(Cell(Memory(title, content, taxonomy, FormatOrDefault(format), "", "", 1), c))
    case UpdateStep(d, u, _, _) =>
      if d != id then None
      else (match c case Title => u.title case Content => u.content case Taxonomy => u.taxonomy case Format => u.format)
    case _ => None
  }

  ghost predicate WroteAt(trace: seq<State>, steps: seq<Step>, i: nat, id: Id, c: Column, v: string)
    requires IsRun(trace, steps) && i < |steps|
  {
    Writes(steps[i], id, c) == Some(v) && Try(trace[i], steps[i]).Ok?
  }

  lemma WriteShows(s: State, step: Step, id: Id, c: Column)
    requires Inv(s) && Enabled(s, step) && Try(s, step).Ok? && Writes(step, id, c).Some?
    ensures id in Apply(s, step).live && Cell(Apply(s, step).live[id], c) == Writes(step, id, c).value
  {
    if step.UpdateStep? {
      UpdateWrites(s, step);
    }
  }

  lemma ColumnKept(s: State, step: Step, id: Id, c: Column)
    requires Inv(s) && Enabled(s, step) && id in s.live && id in Apply(s, step).live
    requires Writes(step, id, c).None? || Try(s, step).Err?
    ensures Cell(Apply(s, step).live[id], c) == Cell(s.live[id], c)
  {
    if step.RebuildStep? || step.id != id {
      StepTouchesOne(s, step, id);
    } else if step.UpdateStep? && Try(s, step).Ok? {
      UpdateWrites(s, step);
    }
  }

  lemma LiveBetween(trace: seq<State>, steps: seq<Step>, i: nat, j: nat, k: nat, id: Id)
    requires IsRun(trace, steps) && i <= j <= k < |trace| && id in trace[i].live && id in trace[k].live
    ensures id in trace[j].live
  {
    RunKeeps(trace, steps, i, j);
    RunKeeps(trace, steps, j, k);
    RunKeepsInv(trace, steps, k);
  }

  /** At every moment a column of a live memory holds what was last written to it, by the insert
      or by an update that names it; no other step of any run gets in between. */
  lemma {:induction false} LastWriteShows(trace: seq<State>, steps: seq<Step>, i: nat, j: nat, id: Id, c: Column,
                                          v: string)
    requires IsRun(trace, steps) && i < |steps| && i < j < |trace| && WroteAt(trace, steps, i, id, c, v)
    requires forall m, w | i < m < j :: !WroteAt(trace, steps, m, id, c, w)
    requires id in trace[j].live
    ensures Cell(trace[j].live[id], c) == v
    decreases j
  {
    WrittenNext(trace, steps, i, id, c, v);
    if i + 1 < j {
      LiveBetween(trace, steps, i + 1, j - 1, j, id);
      LastWriteShows(trace, steps, i, j - 1, id, c, v);
      KeptNext(trace, steps, j - 1, id, c);
    }
  }

  lemma WrittenNext(trace: seq<State>, steps: seq<Step>, i: nat, id: Id, c: Column, v: string)
    requires IsRun(trace, steps) && i < |steps| && WroteAt(trace, steps, i, id, c, v)
    ensures id in trace[i + 1].live && Cell(trace[i + 1].live[id], c) == v
  {
    RunKeepsInv(trace, steps, i);
    WriteShows(trace[i], steps[i], id, c);
    assert trace[i + 1] == Apply(trace[i], steps[i]);
  }

  lemma KeptNext(trace: seq<State>, steps: seq<Step>, i: nat, id: Id, c: Column)
    requires IsRun(trace, steps) && i < |steps| && id in trace[i].live && id in trace[i + 1].live
    requires forall w :: !WroteAt(trace, steps, i, id, c, w)
    ensures Cell(trace[i + 1].live[id], c) == Cell(trace[i].live[id], c)
  {
    RunKeepsInv(trace, steps, i);
    assert Writes(steps[i], id, c).Some? ==> !WroteAt(trace, steps, i, id, c, Writes(steps[i], id, c).value);
    assert trace[i + 1] == Apply(trace[i], steps[i]);
    ColumnKept(trace[i], steps[i], id, c);
  }

  /** No update writes an empty format; the engine and the documents never do. */
  ghost predicate NamesFormats(steps: seq<Step>) {
    forall i {:trigger steps[i]} | 0 <= i < |steps| :: steps[i].UpdateStep? ==> steps[i].updates.format != Some("")
  }

  lemma {:induction false} FormatsNamed(trace: seq<State>, steps: seq<Step>, i: nat, id: Id)
    requires IsRun(trace, steps) && NamesFormats(steps) && i < |trace| && id in trace[i].live
    ensures trace[i].live[id].format != ""
  {
    if i > 0 {
      var s, step := trace[i - 1], steps[i - 1];
      RunKeepsInv(trace, steps, i - 1);
      if id in s.live { FormatsNamed(trace, steps, i - 1, id); }
      FormatKept(s, step, id);
    }
  }

  lemma FormatKept(s: State, step: Step, id: Id)
    requires Inv(s) && Enabled(s, step) && id in Apply(s, step).live && (id in s.live ==> s.live[id].format != "")
    requires step.UpdateStep? ==> step.updates.format != Some("")
    ensures Apply(s, step).live[id].format != ""
  {
    if Try(s, step).Ok? && Writes(step, id, Format).Some? {
      WriteShows(s, step, id, Format);
    } else if id in s.live {
      ColumnKept(s, step, id, Format);
    }
  }

  /** In every run of the program's own callers the newest revision repeats the row in full. */
  lemma HeadRepeatsRow(trace: seq<State>, steps: seq<Step>, i: nat, id: Id)
    requires IsRun(trace, steps) && NamesFormats(steps) && i < |trace| && id in trace[i].live
    ensures var m := trace[i].live[id]; var k := RevKey(id, m.version);
      k in trace[i].revs && ShowsRevision(m, trace[i].revs[k])
  {
    RunKeepsInv(trace, steps, i);
    FormatsNamed(trace, steps, i, id);
    HeadRepeatsRowIff(trace[i], id);
  }

  /** Step `i` is a compare-and-swap on version `b` of `id`, and it succeeded. */
  ghost predicate Swapped(trace: seq<State>, steps: seq<Step>, i: nat, id: Id, b: int)
    requires IsRun(trace, steps) && i < |steps|
  {
    steps[i].UpdateStep? && steps[i].id == id && steps[i].base == Some(b) && Try(trace[i], steps[i]).Ok?
  }

  lemma SwapFollowsBase(s: State, step: Step)
    requires Inv(s) && Enabled(s, step) && step.UpdateStep? && step.base.Some? && Try(s, step).Ok?
    ensures step.id in s.live && s.live[step.id].version == step.base.value
    ensures var t := Apply(s, step);
      step.id in t.live && t.live[step.id].version == step.base.value + 1
      && t.revs == s.revs[RevKey(step.id, t.live[step.id].version) :=
                          Snapshot(Applied(s.live[step.id], step.updates, step.meta.now), step.meta)]
  {
  }

  lemma SwapReads(trace: seq<State>, steps: seq<Step>, i: nat, id: Id, b: int)
    requires IsRun(trace, steps) && i < |steps| && Swapped(trace, steps, i, id, b)
    ensures id in trace[i].live && trace[i].live[id].version == b
    ensures id in trace[i + 1].live && trace[i + 1].live[id].version == b + 1
  {
    RunKeepsInv(trace, steps, i);
    SwapFollowsBase(trace[i], steps[i]);
  }

  lemma SwapRaises(trace: seq<State>, steps: seq<Step>, i: nat, j: nat, id: Id, b: int)
    requires IsRun(trace, steps) && i < |steps| && Swapped(trace, steps, i, id, b)
    requires i < j < |trace| && id in trace[j].live
    ensures trace[j].live[id].version > b
  {
    SwapReads(trace, steps, i, id, b);
    RunKeeps(trace, steps, i + 1, j);
  }

  /** No lost update: of all the writers that read version `b` of a memory, at most one succeeds. */
  lemma OneSwapPerBase(trace: seq<State>, steps: seq<Step>, i: nat, j: nat, id: Id, b: int)
    requires IsRun(trace, steps) && i <= j < |steps|
    requires Swapped(trace, steps, i, id, b) && Swapped(trace, steps, j, id, b)
    ensures i == j
  {
    SwapReads(trace, steps, j, id, b);
    if i < j {
      SwapRaises(trace, steps, i, j, id, b);
    }
  }

  /** While the memory lives, the text a swap was based on and the text it wrote stay readable,
      one directly after the other. */
  lemma SwapIsRecorded(trace: seq<State>, steps: seq<Step>, i: nat, j: nat, id: Id, b: nat)
    requires IsRun(trace, steps) && i < |steps| && i < j < |trace|
    requires Swapped(trace, steps, i, id, b) && id in trace[j].live
    ensures id in trace[i].live
    ensures var before := trace[i].live[id];
      var revs := trace[j].revs;
      && RevKey(id, b) in revs && RevKey(id, b + 1) in revs
      && revs[RevKey(id, b + 1)] == Snapshot(Applied(before, steps[i].updates, steps[i].meta.now), steps[i].meta)
      && revs[RevKey(id, b)].title == before.title && revs[RevKey(id, b)].content == before.content
  {
    RunKeepsInv(trace, steps, i);
    SwapFollowsBase(trace[i], steps[i]);
    RunKeeps(trace, steps, i + 1, j);
    assert HeadIs(trace[i].live[id], id, trace[i].revs);
    assert RevKey(id, b) in trace[i + 1].revs;
  }

  /** An insert's text is on record as version 1 for as long as the memory lives. */
  lemma InsertIsRecorded(trace: seq<State>, steps: seq<Step>, i: nat, j: nat)
    requires IsRun(trace, steps) && i < |steps| && i < j < |trace| && steps[i].InsertStep? &&
      Try(trace[i], steps[i]).Ok?
    requires steps[i].id in trace[j].live
    ensures var step := steps[i];
      RevKey(step.id, 1) in trace[j].revs && trace[j].live[step.id].createdAt == step.meta.now &&
      trace[j].revs[RevKey(step.id, 1)] ==
        Revision(step.title, step.content, step.taxonomy, if step.format == "" then "markdown" else step.format,
                 step.meta.author, step.meta.agent, step.meta.now)
  {
    var s, step := trace[i], steps[i];
    assert trace[i + 1] == Apply(s, step);
    assert RevKey(step.id, 1) in trace[i + 1].revs && step.id in trace[i + 1].live;
    RunKeeps(trace, steps, i + 1, j);
  }

  /** A deletion is for ever: at every later moment the id has only its tombstone, naming what
      went, and no write to it succeeds. */
  lemma DeletedForEver(trace: seq<State>, steps: seq<Step>, i: nat, j: nat, write: Step)
    requires IsRun(trace, steps) && i < |steps| && i < j < |trace|
    requires steps[i].DeleteStep? && steps[i].id in trace[i].live
    requires (write.UpdateStep? || write.DeleteStep?) && write.id == steps[i].id
    ensures var m, id := trace[i].live[steps[i].id], steps[i].id;
      var t := Tombstone(m.title, m.taxonomy, m.createdAt, steps[i].now, steps[i].deletedBy, m.version);
      && id !in trace[j].live && id in trace[j].tombs && trace[j].tombs[id] == t
      && Try(trace[j], write) == Err(Deleted(t))
    ensures forall k | k in trace[j].revs :: k.id != steps[i].id
    ensures forall k | k in trace[j].edges :: k.src != steps[i].id
  {
    var s, step := trace[i], steps[i];
    assert trace[i + 1] == Apply(s, step) && step.id in trace[i + 1].tombs;
    RunKeeps(trace, steps, i + 1, j);
    RunKeepsInv(trace, steps, j);
  }

  /** The newest revision repeats the row, except that an empty format is recorded as markdown. */
  lemma HeadRepeatsRowIff(s: State, id: Id)
    requires Inv(s) && id in s.live
    ensures var m := s.live[id]; var k := RevKey(id, m.version);
      k in s.revs && s.revs[k].title == m.title && s.revs[k].content == m.content
      && s.revs[k].taxonomy == m.taxonomy && (s.revs[k].format == m.format <==> m.format != "")
  {
    assert HeadIs(s.live[id], id, s.revs);
  }

  /** Two memories with one title: the conflict check lets a live title be taken again exactly
      when trimming by Go, but not by SQL, would change it. */
  lemma RetakenTitleIff(s: State, id: Id, step: Step)
    requires Inv(s) && id in s.live && Enabled(s, step) && step.InsertStep?
    requires step.title == s.live[id].title
    requires forall d | d in s.live && d != id :: SqlFold(s.live[d].title) != GoFold(step.title)
    ensures Try(s, step).Ok? <==> !Trimmed(SqlFold(step.title))
  {
    GoFoldTrimmed(step.title);
    if Trimmed(SqlFold(step.title)) {
      FoldsAgree(step.title);
      assert Names(s.live, id, GoFold(step.title), step.id);
    }
  }

  // ---- restoring ----

  datatype RestoreError = Absent | Gone(tombstone: Tombstone) | Forbidden | Refused(error: StoreError)

  function RestoreUpdates(rev: Revision): Updates {
    Updates(Some(rev.title), Some(rev.content), Some(rev.taxonomy), Some(rev.format))
  }

  function RestoreStep(s: State, id: Id, version: nat, author: string, now: string): Step
    requires RevKey(id, version) in s.revs
  {
    UpdateStep(id, RestoreUpdates(s.revs[RevKey(id, version)]), None, Meta(author, "", now))
  }

  /** Engine.RestoreRevision: writes revision `version` forward as a new version. */
  ghost function Restore(s: State, scope: Scope, id: Id, version: nat, author: string, now: string)
    : Result<State, RestoreError>
  {
    if id !in s.live then Err(if id in s.tombs then Gone(s.tombs[id]) else Absent)
    else if !scope.CanRead(s.live[id].taxonomy) then Err(Absent)
    else if !scope.CanWrite(s.live[id].taxonomy) then Err(Forbidden)
    else if RevKey(id, version) !in s.revs then Err(Absent)
    else
      var r := Update(s, RestoreStep(s, id, version, author, now));
      if r.Ok? then Ok(r.value) else Err(Refused(r.error))
  }

  ghost predicate ShowsRevision(m: Memory, rev: Revision) {
    m.title == rev.title && m.content == rev.content && m.taxonomy == rev.taxonomy && m.format == rev.format
  }

  /** A restore is one more edit: the fields become those of the revision and nothing is erased. */
  lemma RestoreShows(s: State, scope: Scope, id: Id, version: nat, author: string, now: string)
    requires Inv(s) && Restore(s, scope, id, version, author, now).Ok?
    ensures var t := Restore(s, scope, id, version, author, now).value;
      Inv(t) && Keeps(s, t) && id in t.live && t.live[id].version == s.live[id].version + 1
      && ShowsRevision(t.live[id], s.revs[RevKey(id, version)]) && t.live[id].updatedAt == now
      && t.revs[RevKey(id, t.live[id].version)].author == author && t.revs[RevKey(id, t.live[id].version)].agent == ""
  {
    var step := RestoreStep(s, id, version, author, now);
    assert Try(s, step) == Update(s, step);
    StepKeepsInv(s, step);
    StepKeeps(s, step);
  }

  /** A restore asks for the branch the memory is in, not for the one it goes back to: afterwards
      the scope may write the memory exactly when it may write the revision's branch. */
  lemma RestoredBranchIff(s: State, scope: Scope, id: Id, version: nat, author: string, now: string)
    requires Inv(s) && Restore(s, scope, id, version, author, now).Ok?
    ensures var t := Restore(s, scope, id, version, author, now).value;
      id in t.live && (scope.CanWrite(t.live[id].taxonomy) <==> scope.CanWrite(s.revs[RevKey(id, version)].taxonomy))
  {
    RestoreShows(s, scope, id, version, author, now);
  }

  /** The former head, restored right after a restore. */
  ghost function Undo(s: State, scope: Scope, id: Id, version: nat, author: string, now: string)
    : Result<State, RestoreError>
    requires id in s.live && Restore(s, scope, id, version, author, now).Ok?
  {
    Restore(Restore(s, scope, id, version, author, now).value, scope, id, s.live[id].version, author, now)
  }

  /** The undo goes through exactly when the branch restored to is within the scope and no other
      memory is found under the former title. */
  lemma UndoIff(s: State, scope: Scope, id: Id, version: nat, author: string, now: string)
    requires Inv(s) && id in s.live && Restore(s, scope, id, version, author, now).Ok?
    ensures var branch := s.revs[RevKey(id, version)].taxonomy;
      Undo(s, scope, id, version, author, now).Ok? <==>
        scope.CanRead(branch) && scope.CanWrite(branch) && Holder(s.live, GoFold(s.live[id].title), id).None?
  {
    RestoreShows(s, scope, id, version, author, now);
    var t := Restore(s, scope, id, version, author, now).value;
    var head := RevKey(id, s.live[id].version);
    assert HeadIs(s.live[id], id, s.revs) && head in t.revs && t.revs[head] == s.revs[head];
    SameOthers(s.live, t.live, GoFold(s.live[id].title), id);
    RestoreIff(t, scope, id, head.version, author, now);
  }

  lemma RestoreIff(s: State, scope: Scope, id: Id, version: nat, author: string, now: string)
    requires id in s.live && RevKey(id, version) in s.revs
    ensures Restore(s, scope, id, version, author, now).Ok? <==>
      scope.CanRead(s.live[id].taxonomy) && scope.CanWrite(s.live[id].taxonomy)
      && Holder(s.live, GoFold(s.revs[RevKey(id, version)].title), id).None?
  {
  }

  /** What goes through is an undo: the text is what it was before the restore. */
  lemma UndoShowsHead(s: State, scope: Scope, id: Id, version: nat, author: string, now: string)
    requires Inv(s) && id in s.live && Restore(s, scope, id, version, author, now).Ok?
    requires Undo(s, scope, id, version, author, now).Ok?
    ensures var u, m := Undo(s, scope, id, version, author, now).value, s.live[id];
      id in u.live && u.live[id].title == m.title && u.live[id].content == m.content
      && u.live[id].taxonomy == m.taxonomy && u.live[id].format == FormatOrDefault(m.format)
  {
    RestoreShows(s, scope, id, version, author, now);
    var t := Restore(s, scope, id, version, author, now).value;
    var head := RevKey(id, s.live[id].version);
    assert HeadIs(s.live[id], id, s.revs) && t.revs[head] == s.revs[head];
    RestoreShows(t, scope, id, head.version, author, now);
  }

  lemma SameOthers(live: map<Id, Memory>, live': map<Id, Memory>, name: string, except: Id)
    requires forall d | d != except :: d in live <==> d in live'
    requires forall d | d != except && d in live :: live[d] == live'[d]
    ensures Holder(live, name, except).None? <==> Holder(live', name, except).None?
  {
    forall d ensures Names(live, d, name, except) <==> Names(live', d, name, except) {
    }
  }

  /** A trimmed title is never taken by another memory, so restoring it cannot be refused. */
  lemma TrimmedTitleIsOwn(s: State, id: Id)
    requires Inv(s) && id in s.live && Trimmed(SqlFold(s.live[id].title))
    ensures Holder(s.live, GoFold(s.live[id].title), id).None?
  {
    FoldsAgree(s.live[id].title);
  }
}
