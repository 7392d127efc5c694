/** What each operation of the store answers, in terms of the rows it finds. */
module StoreOutcomes {
  import opened Options
  import opened Text
  import opened Links
  import opened Scopes
  import opened Store
  import opened StoreInvariant
  import opened StoreIndex
  import opened StoreHistory

  lemma HolderIff(live: map<Id, Memory>, name: string, except: Id)
    ensures Holder(live, name, except).None? <==> forall d | d in live && d != except :: SqlFold(live[d].title) != name
  {
    forall d | d in live && d != except && Holder(live, name, except).None? ensures SqlFold(live[d].title) != name {
      assert !Names(live, d, name, except);
    }
  }

  /** The conflict names a memory that has the title. */
  ghost predicate IsConflict(error: StoreError, live: map<Id, Memory>, title: string, except: Id) {
    && error.TitleConflict? && error.title == title && error.other in live && error.other != except
    && SqlFold(live[error.other].title) == GoFold(title)
  }

  /** An insert succeeds exactly when no live memory has its title. */
  lemma InsertIff(s: State, step: Step)
    requires Enabled(s, step) && step.InsertStep?
    ensures Try(s, step).Ok? <==> forall d | d in s.live :: SqlFold(s.live[d].title) != GoFold(step.title)
    ensures Try(s, step).Err? ==> IsConflict(Try(s, step).error, s.live, step.title, step.id)
  {
    HolderIff(s.live, GoFold(step.title), step.id);
  }

  /** An update succeeds exactly when its memory is live, its base (if it has one) is current, and
      its title (if it has one) is no other memory's; else it says which of these failed first. */
  lemma UpdateIff(s: State, step: Step)
    requires Enabled(s, step) && step.UpdateStep?
    ensures Try(s, step).Ok? <==>
      step.id in s.live && (step.base.Some? ==> step.base.value == s.live[step.id].version) &&
      (step.updates.title.Some? ==>
         forall d | d in s.live && d != step.id :: SqlFold(s.live[d].title) != GoFold(step.updates.title.value))
    ensures step.id !in s.live && step.id in s.tombs ==> Try(s, step) == Err(Deleted(s.tombs[step.id]))
    ensures step.id !in s.live && step.id !in s.tombs ==> Try(s, step) == Err(NotFound)
    ensures step.id in s.live && step.base.Some? && step.base.value != s.live[step.id].version ==>
      Try(s, step) == Err(VersionConflict(step.base.value, s.live[step.id].version))
    ensures
      step.id in s.live && (step.base.Some? ==> step.base.value == s.live[step.id].version) && Try(s, step).Err? ==>
        step.updates.title.Some? && IsConflict(Try(s, step).error, s.live, step.updates.title.value, step.id)
  {
    if step.updates.title.Some? {
      HolderIff(s.live, GoFold(step.updates.title.value), step.id);
    }
  }

  /** What a successful write leaves, column by column: an insert what it was given, */
  lemma InsertShows(s: State, step: Step)
    requires Enabled(s, step) && step.InsertStep? && Try(s, step).Ok?
    ensures var t, now := Try(s, step).value, step.meta.now;
      && step.id in t.live
      && t.live[step.id] == Memory(step.title, step.content, step.taxonomy,
                                   if step.format == "" then "markdown" else step.format, now, now, 1)
  {
  }

  /** an update also what it was not given. */
  lemma UpdateShows(s: State, step: Step)
    requires Enabled(s, step) && step.UpdateStep? && Try(s, step).Ok?
    ensures step.id in s.live && step.id in Try(s, step).value.live
    ensures var u, m, n := step.updates, s.live[step.id], Try(s, step).value.live[step.id];
      && (n.title == m.title || u.title == Some(n.title)) && (u.title.Some? ==> n.title == u.title.value)
      && (n.content == m.content || u.content == Some(n.content)) && (u.content.Some? ==> n.content == u.content.value)
      && (n.taxonomy == m.taxonomy || u.taxonomy == Some(n.taxonomy))
      && (u.taxonomy.Some? ==> n.taxonomy == u.taxonomy.value)
      && (n.format == m.format || u.format == Some(n.format)) && (u.format.Some? ==> n.format == u.format.value)
      && n.createdAt == m.createdAt && n.updatedAt == step.meta.now && n.version == m.version + 1
    ensures var revs, n := Try(s, step).value.revs, Try(s, step).value.live[step.id];
      && RevKey(step.id, n.version) in revs
      && revs[RevKey(step.id, n.version)] ==
        Revision(n.title, n.content, n.taxonomy, if n.format == "" then "markdown" else n.format,
                 step.meta.author, step.meta.agent, step.meta.now)
  {
  }

  lemma DeleteIff(s: State, step: Step)
    requires Enabled(s, step) && step.DeleteStep?
    ensures Try(s, step).Ok? <==> step.id in s.live
    ensures step.id !in s.live && step.id in s.tombs ==> Try(s, step) == Err(Deleted(s.tombs[step.id]))
    ensures step.id !in s.live && step.id !in s.tombs ==> Try(s, step) == Err(NotFound)
  {
  }

  // ---- case and space ----

  /** `title` is `t` up to the case of letters and whitespace around it. */
  ghost predicate Spells(title: string, t: string) {
    exists pre, mid, post :: SpelledOut(title, t, pre, mid, post)
  }

  ghost predicate SpelledOut(title: string, t: string, pre: string, mid: string, post: string) {
    && title == pre + mid + post && SameUpToCase(mid, t)
    && (forall i | 0 <= i < |pre| :: IsSpace(pre[i])) && (forall i | 0 <= i < |post| :: IsSpace(post[i]))
  }

  lemma SpelledFold(title: string, t: string)
    requires Spells(title, t)
    ensures GoFold(title) == GoFold(t)
  {
    var pre, mid, post :| SpelledOut(title, t, pre, mid, post);
    FoldsIgnoreSpace(pre, mid, post);
    FoldsIgnoreCase(mid, t);
  }

  lemma SpelledIsTaken(s: State, d: Id, title: string, except: Id)
    requires Inv(s) && d in s.live && d != except && Trimmed(s.live[d].title) && Spells(title, s.live[d].title)
    ensures Holder(s.live, GoFold(title), except) == Some(d)
  {
    SpelledFold(title, s.live[d].title);
    TrimmedFolds(s.live[d].title);
    FoldsAgree(s.live[d].title);
    HolderUnique(s.live, GoFold(title), except, d);
  }

  /** A title that a live one with nothing to trim differs from in case and surrounding whitespace
      only cannot be inserted, */
  lemma SpelledInsertClashes(s: State, d: Id, step: Step)
    requires Inv(s) && Enabled(s, step) && step.InsertStep? && d in s.live
    requires Trimmed(s.live[d].title) && Spells(step.title, s.live[d].title)
    ensures Try(s, step) == Err(StoreError.TitleConflict(step.title, d))
  {
    SpelledIsTaken(s, d, step.title, step.id);
  }

  /** nor given to another memory, */
  lemma SpelledUpdateClashes(s: State, d: Id, step: Step)
    requires Inv(s) && Enabled(s, step) && step.UpdateStep? && step.id in s.live && d in s.live && d != step.id
    requires step.base.Some? ==> step.base.value == s.live[step.id].version
    requires step.updates.title.Some? && Trimmed(s.live[d].title) && Spells(step.updates.title.value, s.live[d].title)
    ensures Try(s, step) == Err(StoreError.TitleConflict(step.updates.title.value, d))
  {
    SpelledIsTaken(s, d, step.updates.title.value, step.id);
  }

  /** and a link so spelled is bound to the memory that has it. */
  lemma SpelledLinkBinds(s: State, step: Step, d: Id, rel: Rel, x: string)
    requires Inv(s) && Enabled(s, step) && step.InsertStep? && Try(s, step).Ok? && d in s.live
    requires Trimmed(s.live[d].title) && Spaced(s.live[d].title) && SameUpToCase(x, s.live[d].title)
    requires Link(rel, NormalizeLink(x)) in Parse(step.content)
    ensures var k := EdgeKey(step.id, NormalizeLink(x), rel);
      k in Apply(s, step).edges && Apply(s, step).edges[k] == Some(d)
  {
    var title := s.live[d].title;
    FoldsIgnoreCase(x, title);
    SpacedIsPlain(title);
    LinkFindsIff(s, step, EdgeKey(step.id, NormalizeLink(x), rel), d);
  }

  lemma SpacedIsPlain(title: string)
    requires Trimmed(title) && Spaced(title)
    ensures Plain(title)
  {
    TrimmedFolds(title);
    forall i | 0 <= i < |title| ensures LowerChar(Lower(title)[i]) == Lower(title)[i] {
    }
    forall i | 0 <= i < |title| ensures IsBlank(Lower(title)[i]) <==> IsBlank(title[i]) {
    }
    forall i | 0 <= i < |title| ensures Lower(title)[i] == ' ' <==> title[i] == ' ' {
    }
    PlainIff(title);
  }

  /** For example: a text that is one link, however its letters are written. */
  lemma BareLinkBinds(s: State, step: Step, d: Id, x: string)
    requires Inv(s) && Enabled(s, step) && step.InsertStep? && Try(s, step).Ok? && d in s.live
    requires Trimmed(s.live[d].title) && Spaced(s.live[d].title) && SameUpToCase(x, s.live[d].title)
    requires Inert(x) && ':' !in x && NormalizeLink(x) != "" && step.content == "[[" + x + "]]"
    ensures var k := EdgeKey(step.id, NormalizeLink(x), Relates);
      k in Apply(s, step).edges && Apply(s, step).edges[k] == Some(d)
  {
    ParseBare(x);
    SpelledLinkBinds(s, step, d, Relates, x);
  }

  // ---- restoring ----

  /** A restore answers, in this order: what became of the memory, whether the caller may know of it
      and write it, whether the version exists, and whether another memory has the title. */
  lemma RestoreOutcomes(s: State, scope: Scope, id: Id, version: nat, author: string, now: string)
    requires Inv(s)
    ensures var r := Restore(s, scope, id, version, author, now); id !in s.live ==>
      r == Err(if id in s.tombs then Gone(s.tombs[id]) else Absent)
    ensures var r := Restore(s, scope, id, version, author, now); id in s.live ==> var branch := s.live[id].taxonomy;
      && (!scope.CanRead(branch) ==> r == Err(Absent))
      && (scope.CanRead(branch) && !scope.CanWrite(branch) ==> r == Err(Forbidden))
      && (scope.CanRead(branch) && scope.CanWrite(branch) && !(1 <= version <= s.live[id].version) ==> r == Err(Absent))
    ensures
      id in s.live && scope.CanRead(s.live[id].taxonomy) && scope.CanWrite(s.live[id].taxonomy) &&
      1 <= version <= s.live[id].version ==>
        var r, title := Restore(s, scope, id, version, author, now), s.revs[RevKey(id, version)].title;
        && (r.Ok? <==> forall d | d in s.live && d != id :: SqlFold(s.live[d].title) != GoFold(title))
        && (r.Err? ==> r.error.Refused? && IsConflict(r.error.error, s.live, title, id))
  {
    if id in s.live && 1 <= version <= s.live[id].version {
      assert RevKey(id, version) in s.revs;
      HolderIff(s.live, GoFold(s.revs[RevKey(id, version)].title), id);
    }
  }
}
