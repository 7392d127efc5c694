/** docs.Sync: makes a store match the embedded documents. */
module DocsSync {
  import opened Options
  import opened Text
  import opened Links
  import opened Store
  import opened StoreInvariant
  import opened StoreIndex
  import DB = MemoryDB

  datatype Doc = Doc(title: string, taxonomy: string, format: string, content: string)

  /** What Load promises: titles are distinct as written, and every document is complete. */
  ghost predicate Loaded(docs: seq<Doc>) {
    Apart(docs) && forall i | 0 <= i < |docs| :: Complete(docs[i])
  }

  ghost predicate Apart(docs: seq<Doc>) {
    forall i, j | 0 <= i < j < |docs| :: docs[i].title != docs[j].title
  }

  /** Frontmatter values and the body come trimmed, and only the format may be missing. */
  predicate Complete(d: Doc) {
    && d.title != "" && d.taxonomy != "" && d.content != ""
    && Trimmed(d.title) && Trimmed(d.taxonomy) && Trimmed(d.format) && Trimmed(d.content)
  }

  predicate Matches(m: Memory, d: Doc) {
    m.title == d.title && SameText(m, d)
  }

  predicate SameText(m: Memory, d: Doc) {
    m.content == d.content && m.taxonomy == d.taxonomy && m.format == FormatOrDefault(d.format)
  }

  /** No two live memories have the same title as written. */
  ghost predicate TitlesDistinct(live: map<Id, Memory>) {
    forall d, e {:trigger live[d].title, live[e].title} | d in live && e in live && live[d].title == live[e].title ::
      d == e
  }

  ghost predicate Titled(live: map<Id, Memory>, title: string) {
    exists id :: id in live && live[id].title == title
  }

  ghost predicate Holds(live: map<Id, Memory>, doc: Doc) {
    exists id :: id in live && Matches(live[id], doc)
  }

  ghost predicate OneOf(m: Memory, docs: seq<Doc>) {
    exists i :: 0 <= i < |docs| && Matches(m, docs[i])
  }

  /** The live records are the documents, one for one. */
  ghost predicate InSync(live: map<Id, Memory>, docs: seq<Doc>) {
    && TitlesDistinct(live)
    && (forall id {:trigger OneOf(live[id], docs)} | id in live :: OneOf(live[id], docs))
    && HoldsAll(live, docs, |docs|)
  }

  /** No new document's title is already taken, by a record or by an earlier new document. */
  ghost predicate Accepts(live: map<Id, Memory>, docs: seq<Doc>) {
    AcceptsFirst(live, docs, |docs|)
  }

  ghost predicate AcceptsFirst(live: map<Id, Memory>, docs: seq<Doc>, n: nat)
    requires n <= |docs|
  {
    n == 0 || (AcceptsFirst(live, docs, n - 1) && AcceptsAt(live, docs, n - 1))
  }

  ghost predicate AcceptsAt(live: map<Id, Memory>, docs: seq<Doc>, i: nat)
    requires i < |docs|
  {
    Titled(live, docs[i].title) || Free(live, docs, i)
  }

  lemma {:induction false} AcceptsBefore(live: map<Id, Memory>, docs: seq<Doc>, i: nat, n: nat)
    requires i <= n <= |docs| && AcceptsFirst(live, docs, n)
    ensures AcceptsFirst(live, docs, i)
  {
    if i < n { AcceptsBefore(live, docs, i, n - 1); }
  }

  ghost predicate Free(live: map<Id, Memory>, docs: seq<Doc>, i: nat)
    requires i < |docs|
  {
    var name := GoFold(docs[i].title);
    && (forall id | id in live :: SqlFold(live[id].title) != name)
    && (forall j | 0 <= j < i && !Titled(live, docs[j].title) :: SqlFold(docs[j].title) != name)
  }

  /** Progress through the documents: `start` is the listing taken first. */
  ghost predicate Synced(start: map<Id, Memory>, live: map<Id, Memory>, docs: seq<Doc>, i: nat)
    requires i <= |docs|
  {
    && (TitlesDistinct(start) ==> TitlesDistinct(live))
    && Kept(start, live, docs, i) && OnlyAdded(start, live, docs, i) && HoldsAll(live, docs, i)
    && Spared(start, live, docs)
  }

  /** A listed record that already is a document is not written at all. */
  ghost predicate Spared(start: map<Id, Memory>, live: map<Id, Memory>, docs: seq<Doc>) {
    forall id {:trigger OneOf(start[id], docs)} | id in start && OneOf(start[id], docs) ::
      (id in live && live[id] == start[id])
  }

  /** Listed records keep their titles, and their text until their document comes. */
  ghost predicate Kept(start: map<Id, Memory>, live: map<Id, Memory>, docs: seq<Doc>, i: nat)
    requires i <= |docs|
  {
    && (forall id | id in start :: id in live && live[id].title == start[id].title)
    && (forall id {:trigger Unwanted(start[id], docs[..i])} | id in start && Unwanted(start[id], docs[..i]) ::
      live[id] == start[id])
  }

  ghost predicate OnlyAdded(start: map<Id, Memory>, live: map<Id, Memory>, docs: seq<Doc>, i: nat)
    requires i <= |docs|
  {
    forall id {:trigger AddedBy(start, live[id], docs, i)} | id in live && id !in start ::
      AddedBy(start, live[id], docs, i)
  }

  ghost predicate HoldsAll(live: map<Id, Memory>, docs: seq<Doc>, i: nat)
    requires i <= |docs|
  {
    forall j {:trigger Holds(live, docs[j])} | 0 <= j < i :: Holds(live, docs[j])
  }

  predicate Unwanted(m: Memory, docs: seq<Doc>) {
    forall i | 0 <= i < |docs| :: docs[i].title != m.title
  }

  ghost predicate AddedBy(start: map<Id, Memory>, m: Memory, docs: seq<Doc>, i: nat)
    requires i <= |docs|
  {
    exists j :: Added(start, m, docs, i, j)
  }

  ghost predicate Added(start: map<Id, Memory>, m: Memory, docs: seq<Doc>, i: nat, j: nat)
    requires i <= |docs|
  {
    j < i && m.title == docs[j].title && !Titled(start, docs[j].title)
  }

  /** The insert of document `i` is refused exactly when its title is not free. */
  lemma InsertRefusedIff(start: map<Id, Memory>, live: map<Id, Memory>, docs: seq<Doc>, i: nat, id: Id)
    requires i < |docs| && Apart(docs) && Synced(start, live, docs, i) && id !in live
    requires !Titled(start, docs[i].title)
    ensures Holder(live, GoFold(docs[i].title), id).None? <==> Free(start, docs, i)
  {
    var name := GoFold(docs[i].title);
    if Free(start, docs, i) {
      forall d ensures !Names(live, d, name, id) {
        if d in live && d !in start {
          assert AddedBy(start, live[d], docs, i);
          var j :| Added(start, live[d], docs, i, j);
        }
      }
    } else if d :| d in start && SqlFold(start[d].title) == name {
      assert Names(live, d, name, id);
    } else {
      var j :| 0 <= j < i && !Titled(start, docs[j].title) && SqlFold(docs[j].title) == name;
      assert Holds(live, docs[j]);
      var d :| d in live && Matches(live[d], docs[j]);
      assert Names(live, d, name, id);
    }
  }

  lemma HoldsOneMore(live: map<Id, Memory>, docs: seq<Doc>, i: nat, id: Id, m: Memory)
    requires i < |docs| && Apart(docs) && HoldsAll(live, docs, i) && Matches(m, docs[i])
    requires id in live ==> live[id].title == m.title
    ensures HoldsAll(live[id := m], docs, i + 1)
  {
    var live' := live[id := m];
    forall j | 0 <= j < i + 1 ensures Holds(live', docs[j]) {
      if j < i {
        assert Holds(live, docs[j]);
        var d :| d in live && Matches(live[d], docs[j]);
        assert d in live' && Matches(live'[d], docs[j]);
      } else {
        assert id in live' && Matches(live'[id], docs[j]);
      }
    }
  }

  lemma AddedOneMore(start: map<Id, Memory>, live: map<Id, Memory>, docs: seq<Doc>, i: nat, id: Id, m: Memory)
    requires i < |docs| && OnlyAdded(start, live, docs, i)
    requires id in start || (m.title == docs[i].title && !Titled(start, docs[i].title))
    ensures OnlyAdded(start, live[id := m], docs, i + 1)
  {
    var live' := live[id := m];
    forall d | d in live' && d !in start ensures AddedBy(start, live'[d], docs, i + 1) {
      if d == id {
        assert Added(start, m, docs, i + 1, i);
      } else {
        assert AddedBy(start, live[d], docs, i);
        var j :| Added(start, live[d], docs, i, j);
        assert Added(start, live'[d], docs, i + 1, j);
      }
    }
  }

  lemma KeptOneMore(start: map<Id, Memory>, live: map<Id, Memory>, docs: seq<Doc>, i: nat, id: Id, m: Memory)
    requires i < |docs| && Kept(start, live, docs, i)
    requires id in start ==> start[id].title == m.title == docs[i].title
    ensures Kept(start, live[id := m], docs, i + 1)
  {
    forall d | d in start && Unwanted(start[d], docs[..i + 1])
      ensures Unwanted(start[d], docs[..i]) && d != id
    {
      assert docs[..i + 1][i] == docs[i];
      assert forall j | 0 <= j < i :: docs[..i][j] == docs[..i + 1][j];
    }
  }

  lemma InsertAdvances(start: map<Id, Memory>, live: map<Id, Memory>, docs: seq<Doc>, i: nat, id: Id, m: Memory)
    requires i < |docs| && Apart(docs) && Synced(start, live, docs, i) && id !in live
    requires !Titled(start, docs[i].title) && Matches(m, docs[i])
    ensures Synced(start, live[id := m], docs, i + 1)
  {
    forall d | d in live ensures live[d].title != m.title {
      if d !in start {
        assert AddedBy(start, live[d], docs, i);
      }
    }
    KeptOneMore(start, live, docs, i, id, m);
    AddedOneMore(start, live, docs, i, id, m);
    HoldsOneMore(live, docs, i, id, m);
  }

  /** Writing (or finding) the text of document `i` under the record that has its title. */
  lemma UpdateAdvances(start: map<Id, Memory>, live: map<Id, Memory>, docs: seq<Doc>, i: nat, id: Id, m: Memory)
    requires i < |docs| && Apart(docs) && Synced(start, live, docs, i)
    requires id in start && start[id].title == docs[i].title && Matches(m, docs[i])
    requires Matches(start[id], docs[i]) ==> m == start[id]
    ensures Synced(start, live[id := m], docs, i + 1)
  {
    if OneOf(start[id], docs) {
      var j :| 0 <= j < |docs| && Matches(start[id], docs[j]);
      assert j == i;
    }
    KeptOneMore(start, live, docs, i, id, m);
    AddedOneMore(start, live, docs, i, id, m);
    HoldsOneMore(live, docs, i, id, m);
  }

  /** Removing the records whose title no document has leaves exactly the documents. */
  lemma RemovalFinishes(start: map<Id, Memory>, live: map<Id, Memory>, live': map<Id, Memory>, docs: seq<Doc>)
    requires TitlesDistinct(start) && Apart(docs) && Synced(start, live, docs, |docs|)
    requires forall id :: id in live' <==> id in live && !(id in start && Unwanted(start[id], docs))
    requires forall id | id in live' :: live'[id] == live[id]
    ensures InSync(live', docs)
  {
    forall id | id in live' ensures OneOf(live'[id], docs) {
      var i := IndexOfTitle(start, live, live', docs, id);
      assert Holds(live, docs[i]);
      var d :| d in live && Matches(live[d], docs[i]);
      assert d == id;
    }
    forall i | 0 <= i < |docs| ensures Holds(live', docs[i]) {
      assert Holds(live, docs[i]);
      var d :| d in live && Matches(live[d], docs[i]);
      assert d in live' && Matches(live'[d], docs[i]);
    }
  }

  lemma IndexOfTitle(start: map<Id, Memory>, live: map<Id, Memory>, live': map<Id, Memory>, docs: seq<Doc>, id: Id)
      returns (i: nat)
    requires Synced(start, live, docs, |docs|) && id in live'
    requires forall id :: id in live' <==> id in live && !(id in start && Unwanted(start[id], docs))
    ensures i < |docs| && docs[i].title == live[id].title
  {
    if id in start {
      i :| 0 <= i < |docs| && docs[i].title == start[id].title;
    } else {
      assert AddedBy(start, live[id], docs, |docs|);
      i :| Added(start, live[id], docs, |docs|, i);
    }
  }

  /** In a store that is in sync, the record with a document's title has its text. */
  lemma InSyncMatches(live: map<Id, Memory>, docs: seq<Doc>, i: nat, id: Id)
    requires InSync(live, docs) && i < |docs| && id in live && live[id].title == docs[i].title
    ensures Matches(live[id], docs[i])
  {
    assert Holds(live, docs[i]);
  }

  lemma InSyncTitled(live: map<Id, Memory>, docs: seq<Doc>, i: nat)
    requires InSync(live, docs) && i < |docs|
    ensures Titled(live, docs[i].title)
  {
    assert Holds(live, docs[i]);
  }

  lemma InSyncWanted(live: map<Id, Memory>, docs: seq<Doc>, id: Id)
    requires InSync(live, docs) && id in live
    ensures !Unwanted(live[id], docs)
  {
    assert OneOf(live[id], docs);
  }

  datatype Report = Report(inserted: nat, updated: nat, removed: nat, error: Option<StoreError>)

  /** A full-table read without ORDER BY: every row once, in some order. */
  method ReadAll(live: map<Id, Memory>) returns (order: seq<Id>)
    ensures Scan(live, order)
  {
    order := [];
    var rest := live.Keys;
    while rest != {}
      invariant Distinct(order) && rest <= live.Keys
      invariant forall id :: id in order <==> id in live.Keys - rest
    {
      var id :| id in rest;
      assert forall i | 0 <= i < |order| :: order[i] in order;
      order := order + [id];
      rest := rest - {id};
    }
  }

  ghost predicate Indexes(byTitle: map<string, Id>, live: map<Id, Memory>) {
    && (forall t | t in byTitle :: byTitle[t] in live && live[byTitle[t]].title == t)
    && (forall id | id in live :: live[id].title in byTitle)
  }

  method IndexByTitle(live: map<Id, Memory>) returns (byTitle: map<string, Id>)
    ensures Indexes(byTitle, live)
  {
    var listing := ReadAll(live);
    byTitle := map[];
    for i := 0 to |listing|
      invariant forall t | t in byTitle :: byTitle[t] in live && live[byTitle[t]].title == t
      invariant forall j | 0 <= j < i :: live[listing[j]].title in byTitle
    {
      byTitle := byTitle[live[listing[i]].title := listing[i]];
    }
  }

  // ---- the loop over the documents, as a function ----

  /** What one document does to the rows. */
  datatype Write = Skip | New(id: Id, row: Memory) | Change(id: Id, row: Memory)

  function NewRow(d: Doc, meta: Meta): Memory {
    Memory(d.title, d.content, d.taxonomy, FormatOrDefault(d.format), meta.now, meta.now, 1)
  }

  function DocUpdates(d: Doc): Updates {
    Updates(None, Some(d.content), Some(d.taxonomy), Some(FormatOrDefault(d.format)))
  }

  /** A document whose title is not listed is new; a listed one changes its record if the text differs. */
  function WriteOf(start: map<Id, Memory>, byTitle: map<string, Id>, d: Doc, id: Id, meta: Meta): Write
    requires d.title in byTitle ==> byTitle[d.title] in start
  {
    if d.title !in byTitle then New(id, NewRow(d, meta))
    else ChangeOf(byTitle[d.title], start[byTitle[d.title]], d, meta)
  }

  function ChangeOf(id: Id, current: Memory, d: Doc, meta: Meta): Write {
    if SameText(current, d) then Skip else Change(id, Applied(current, DocUpdates(d), meta.now))
  }

  function Put(live: map<Id, Memory>, w: Write): map<Id, Memory> {
    match w
    case Skip => live
    case New(id, row) => live[id := row]
    case Change(id, row) => live[id := row]
  }

  /** The rows after the first `i` writes. */
  function After(start: map<Id, Memory>, writes: seq<Write>, i: nat): map<Id, Memory>
    requires i <= |writes|
  {
    if i == 0 then start else Put(After(start, writes, i - 1), writes[i - 1])
  }

  function Count(r: Report, w: Write): Report {
    match w
    case Skip => r
    case New(_, _) => r.(inserted := r.inserted + 1)
    case Change(_, _) => r.(updated := r.updated + 1)
  }

  /** The report after the first `i` writes. */
  function Tally(writes: seq<Write>, i: nat): Report
    requires i <= |writes|
  {
    if i == 0 then Report(0, 0, 0, None) else Count(Tally(writes, i - 1), writes[i - 1])
  }

  /** What one Sync works on: the listing taken first, what uuid.New will return, and the writes
      the documents call for. */
  datatype Job = Job(start: map<Id, Memory>, byTitle: map<string, Id>, docs: seq<Doc>, ids: seq<Id>, meta: Meta,
                     writes: seq<Write>)

  ghost predicate Ready(job: Job) {
    && Apart(job.docs) && Indexes(job.byTitle, job.start)
    && |job.ids| == |job.docs| == |job.writes| && Distinct(job.ids)
    && (forall i | 0 <= i < |job.ids| :: job.ids[i] !in job.start)
    && (forall i | 0 <= i < |job.docs| :: IsWrite(job, i))
  }

  ghost predicate IsWrite(job: Job, i: nat)
    requires i < |job.docs| == |job.ids| == |job.writes| && Indexes(job.byTitle, job.start)
  {
    job.writes[i] == WriteOf(job.start, job.byTitle, job.docs[i], job.ids[i], job.meta)
  }

  function Plan(start: map<Id, Memory>, byTitle: map<string, Id>, docs: seq<Doc>, ids: seq<Id>, meta: Meta)
      : (ws: seq<Write>)
    requires |ids| == |docs| && forall t | t in byTitle :: byTitle[t] in start
    ensures |ws| == |docs| && forall i | 0 <= i < |docs| :: ws[i] == WriteOf(start, byTitle, docs[i], ids[i], meta)
  {
    seq(|docs|, i requires 0 <= i < |docs| => WriteOf(start, byTitle, docs[i], ids[i], meta))
  }

  lemma PlanIsReady(start: map<Id, Memory>, byTitle: map<string, Id>, docs: seq<Doc>, ids: seq<Id>, meta: Meta)
    requires Apart(docs) && Indexes(byTitle, start) && |ids| == |docs| && Distinct(ids)
    requires forall i | 0 <= i < |ids| :: ids[i] !in start
    ensures Ready(Job(start, byTitle, docs, ids, meta, Plan(start, byTitle, docs, ids, meta)))
  {
    var job := Job(start, byTitle, docs, ids, meta, Plan(start, byTitle, docs, ids, meta));
    forall i | 0 <= i < |job.docs| ensures IsWrite(job, i) {
    }
  }

  /** What the write of document `i` is like. */
  lemma WriteFacts(job: Job, i: nat)
    requires Ready(job) && i < |job.docs|
    ensures var w, d := job.writes[i], job.docs[i];
      && (w.New? <==> !Titled(job.start, d.title)) && (w.New? <==> d.title !in job.byTitle)
      && (w.New? ==> w.id == job.ids[i] && Matches(w.row, d))
      && (!w.New? ==> job.byTitle[d.title] in job.start && job.start[job.byTitle[d.title]].title == d.title)
      && (!w.New? ==> (w.Skip? <==> Matches(job.start[job.byTitle[d.title]], d)))
      && (w.Change? ==> w.id == job.byTitle[d.title] && Matches(w.row, d))
  {
    assert IsWrite(job, i);
  }

  lemma {:induction false} StillUnused(job: Job, i: nat, j: nat)
    requires Ready(job) && i <= j < |job.docs|
    ensures job.ids[j] !in After(job.start, job.writes, i)
    decreases i
  {
    if i > 0 {
      StillUnused(job, i - 1, j);
      WriteFacts(job, i - 1);
      assert job.ids[i - 1] != job.ids[j];
    }
  }

  lemma {:induction false} SyncedAfter(job: Job, i: nat)
    requires Ready(job) && i <= |job.docs|
    ensures Synced(job.start, After(job.start, job.writes, i), job.docs, i)
    decreases i
  {
    if i == 0 {
      SyncedAtFirst(job.start, job.docs);
    } else {
      SyncedAfter(job, i - 1);
      WriteFacts(job, i - 1);
      StillUnused(job, i - 1, i - 1);
      var live := After(job.start, job.writes, i - 1);
      WriteAdvances(job.start, live, job.docs, i - 1, job.writes[i - 1], Owner(job, i - 1));
    }
  }

  lemma SyncedAtFirst(start: map<Id, Memory>, docs: seq<Doc>)
    ensures Synced(start, start, docs, 0)
  {
  }

  /** The id under which document `i` is kept. */
  ghost function Owner(job: Job, i: nat): Id
    requires Ready(job) && i < |job.docs|
  {
    if job.docs[i].title in job.byTitle then job.byTitle[job.docs[i].title] else job.ids[i]
  }

  lemma WriteAdvances(start: map<Id, Memory>, live: map<Id, Memory>, docs: seq<Doc>, i: nat, w: Write, cur: Id)
    requires i < |docs| && Apart(docs) && Synced(start, live, docs, i)
    requires w.New? ==> w.id == cur && cur !in live && !Titled(start, docs[i].title)
    requires !w.New? ==> cur in start && start[cur].title == docs[i].title
    requires w.Skip? <==> !w.New? && Matches(start[cur], docs[i])
    requires !w.Skip? ==> w.id == cur && Matches(w.row, docs[i])
    ensures Synced(start, Put(live, w), docs, i + 1)
  {
    match w
    case New(id, row) => InsertAdvances(start, live, docs, i, id, row);
    case Change(id, row) => UpdateAdvances(start, live, docs, i, id, row);
    case Skip =>
      UntouchedYet(start, live, docs, i, cur);
      assert live[cur := start[cur]] == live;
      UpdateAdvances(start, live, docs, i, cur, start[cur]);
  }

  /** The record of a document is as listed until the document comes. */
  lemma UntouchedYet(start: map<Id, Memory>, live: map<Id, Memory>, docs: seq<Doc>, i: nat, cur: Id)
    requires Apart(docs) && i < |docs| && Kept(start, live, docs, i)
    requires cur in start && start[cur].title == docs[i].title
    ensures cur in live && live[cur] == start[cur]
  {
    forall j | 0 <= j < |docs[..i]| ensures docs[..i][j].title != start[cur].title {
      assert docs[..i][j] == docs[j];
    }
    assert Unwanted(start[cur], docs[..i]);
  }

  lemma ListedIsLive(job: Job, i: nat)
    requires Ready(job) && i < |job.docs| && job.docs[i].title in job.byTitle
    ensures var cur, live := job.byTitle[job.docs[i].title], After(job.start, job.writes, i);
      cur in live && cur in job.start && live[cur] == job.start[cur]
  {
    SyncedAfter(job, i);
    UntouchedYet(job.start, After(job.start, job.writes, i), job.docs, i, job.byTitle[job.docs[i].title]);
  }

  // ---- the counts ----

  /** How many of the first `i` documents have no record with their title. */
  ghost function NewDocs(live: map<Id, Memory>, docs: seq<Doc>, i: nat): nat
    requires i <= |docs|
  {
    if i == 0 then 0 else NewDocs(live, docs, i - 1) + (if Titled(live, docs[i - 1].title) then 0 else 1)
  }

  /** How many of the first `i` documents have a record with their title, but none with their text. */
  ghost function ChangedDocs(live: map<Id, Memory>, docs: seq<Doc>, i: nat): nat
    requires i <= |docs|
  {
    if i == 0 then 0
    else
      ChangedDocs(live, docs, i - 1) +
      (if Titled(live, docs[i - 1].title) && !Holds(live, docs[i - 1]) then 1 else 0)
  }

  lemma {:induction false} TallyCounts(job: Job, i: nat)
    requires Ready(job) && i <= |job.docs|
    ensures var r := Tally(job.writes, i);
      r.error.None? && r.removed == 0 && r.inserted == NewDocs(job.start, job.docs, i)
    decreases i
  {
    if i > 0 {
      TallyCounts(job, i - 1);
      WriteFacts(job, i - 1);
    }
  }

  lemma {:induction false} AfterSize(job: Job, i: nat)
    requires Ready(job) && i <= |job.docs|
    ensures |After(job.start, job.writes, i)| == |job.start| + Tally(job.writes, i).inserted
    decreases i
  {
    if i > 0 {
      AfterSize(job, i - 1);
      SizeStep(job, i - 1);
    }
  }

  lemma SizeStep(job: Job, i: nat)
    requires Ready(job) && i < |job.docs|
    ensures var live := After(job.start, job.writes, i);
      |Put(live, job.writes[i])| == |live| + (if job.writes[i].New? then 1 else 0)
  {
    WriteFacts(job, i);
    StillUnused(job, i, i);
    if job.writes[i].Change? {
      ListedIsLive(job, i);
    }
    PutSize(After(job.start, job.writes, i), job.writes[i]);
  }

  lemma PutSize(live: map<Id, Memory>, w: Write)
    requires w.New? ==> w.id !in live
    requires w.Change? ==> w.id in live
    ensures |Put(live, w)| == |live| + (if w.New? then 1 else 0)
  {
    if !w.Skip? {
      assert live[w.id := w.row].Keys == live.Keys + {w.id};
    }
  }

  /** No two records have the title of a document. */
  lemma DocTitleUnique(live: map<Id, Memory>, docs: seq<Doc>, i: nat, d: Id, e: Id)
    requires NamesOk(live) && Loaded(docs) && i < |docs| && d in live && e in live
    requires live[d].title == live[e].title == docs[i].title
    ensures d == e
  {
    assert Complete(docs[i]);
    TrimmedFolds(docs[i].title);
  }

  lemma {:induction false} TallyChanged(job: Job, i: nat)
    requires Ready(job) && Loaded(job.docs) && i <= |job.docs| && NamesOk(job.start)
    ensures Tally(job.writes, i).updated == ChangedDocs(job.start, job.docs, i)
    decreases i
  {
    if i > 0 {
      TallyChanged(job, i - 1);
      WriteFacts(job, i - 1);
      if job.docs[i - 1].title in job.byTitle {
        SkipIffHeld(job, i - 1);
      }
    }
  }

  lemma SkipIffHeld(job: Job, i: nat)
    requires Ready(job) && Loaded(job.docs) && i < |job.docs| && NamesOk(job.start) && job.docs[i].title in job.byTitle
    ensures job.writes[i].Skip? <==> Holds(job.start, job.docs[i])
  {
    WriteFacts(job, i);
    if Holds(job.start, job.docs[i]) {
      var id :| id in job.start && Matches(job.start[id], job.docs[i]);
      DocTitleUnique(job.start, job.docs, i, id, job.byTitle[job.docs[i].title]);
    }
  }

  /** Over a store in sync the loop has nothing to do. */
  lemma InSyncSkips(job: Job, i: nat)
    requires Ready(job) && i < |job.docs| && InSync(job.start, job.docs)
    ensures job.writes[i].Skip?
  {
    WriteFacts(job, i);
    InSyncTitled(job.start, job.docs, i);
    InSyncMatches(job.start, job.docs, i, job.byTitle[job.docs[i].title]);
  }

  lemma {:induction false} InSyncTally(job: Job, i: nat)
    requires Ready(job) && i <= |job.docs| && InSync(job.start, job.docs)
    ensures Tally(job.writes, i) == Report(0, 0, 0, None) && After(job.start, job.writes, i) == job.start
    decreases i
  {
    if i > 0 {
      InSyncTally(job, i - 1);
      InSyncSkips(job, i - 1);
    }
  }

  /** A store in sync, column by column. */
  lemma InSyncIff(live: map<Id, Memory>, docs: seq<Doc>)
    ensures InSync(live, docs) <==>
      && (forall d, e | d in live && e in live && d != e :: live[d].title != live[e].title)
      && (forall id | id in live :: RepeatsOne(live[id], docs))
      && (forall i | 0 <= i < |docs| :: IsRepeated(docs[i], live))
  {
    forall m ensures OneOf(m, docs) <==> RepeatsOne(m, docs) {
      if i :| 0 <= i < |docs| && Repeats(m, docs[i]) {
        assert Matches(m, docs[i]);
      }
    }
    forall d ensures Holds(live, d) <==> IsRepeated(d, live) {
      if id :| id in live && Repeats(live[id], d) {
        assert Matches(live[id], d);
      }
    }
  }

  ghost predicate RepeatsOne(m: Memory, docs: seq<Doc>) {
    exists i :: 0 <= i < |docs| && Repeats(m, docs[i])
  }

  ghost predicate IsRepeated(d: Doc, live: map<Id, Memory>) {
    exists id :: id in live && Repeats(live[id], d)
  }

  /** Every column of the document, in the format it has or the default one. */
  predicate Repeats(m: Memory, d: Doc) {
    && m.title == d.title && m.content == d.content && m.taxonomy == d.taxonomy
    && m.format == if d.format == "" then "markdown" else d.format
  }

  // ---- the methods ----

  /** The error names the title, and a record that has it. */
  ghost predicate Refuses(live: map<Id, Memory>, doc: Doc, error: Option<StoreError>) {
    && error.Some? && error.value.TitleConflict? && error.value.title == doc.title
    && error.value.other in live && SqlFold(live[error.value.other].title) == GoFold(doc.title)
  }

  /** A document without a listed record is inserted. */
  method SyncNew(db: DB.MemoryDB, id: Id, doc: Doc, meta: Meta, r0: Report) returns (r: Report)
    requires db.Valid() && id !in db.live && id !in db.tombs && r0.error.None?
    modifies db
    ensures db.Valid() && db.tombs == old(db.tombs)
    ensures r.error.None? <==> Holder(old(db.live), GoFold(doc.title), id).None?
    ensures r.error.Some? ==> Refuses(db.live, doc, r.error) && r == r0.(error := r.error)
    ensures r.error.Some? ==> db.live == old(db.live) && db.revs == old(db.revs)
    ensures r.error.None? ==> db.live == Put(old(db.live), New(id, NewRow(doc, meta)))
    ensures r.error.None? ==> r == Count(r0, New(id, NewRow(doc, meta)))
  {
    var result := db.Insert(id, doc.title, doc.content, doc.taxonomy, FormatOrDefault(doc.format), meta);
    return if result.Ok? then r0.(inserted := r0.inserted + 1) else r0.(error := Some(result.error));
  }

  /** The update of a listed record; without a title or a base version it cannot fail. */
  method UpdateDoc(db: DB.MemoryDB, id: Id, doc: Doc, meta: Meta)
    requires db.Valid() && id in db.live
    modifies db
    ensures db.Valid() && db.tombs == old(db.tombs)
    ensures db.live == old(db.live)[id := Applied(old(db.live)[id], DocUpdates(doc), meta.now)]
  {
    var r := db.Update(id, DocUpdates(doc), None, meta);
    assert r.Ok?;
  }

  /** One document: inserted when new, updated when its text differs from the listed record. */
  method SyncDoc(db: DB.MemoryDB, start: map<Id, Memory>, byTitle: map<string, Id>, doc: Doc, id: Id, meta: Meta,
                 r0: Report) returns (r: Report)
    requires db.Valid() && id !in db.live && id !in db.tombs && r0.error.None?
    requires doc.title in byTitle ==> byTitle[doc.title] in start && byTitle[doc.title] in db.live
    requires doc.title in byTitle ==> db.live[byTitle[doc.title]] == start[byTitle[doc.title]]
    modifies db
    ensures db.Valid() && db.tombs == old(db.tombs)
    ensures r.error.Some? <==> doc.title !in byTitle && Holder(old(db.live), GoFold(doc.title), id).Some?
    ensures r.error.Some? ==> db.live == old(db.live) && r == r0.(error := r.error) && Refuses(db.live, doc, r.error)
    ensures var w := WriteOf(start, byTitle, doc, id, meta);
      r.error.None? ==> db.live == Put(old(db.live), w) && r == Count(r0, w)
    ensures r.error.Some? || r == r0 ==> db.revs == old(db.revs)
  {
    ghost var w := WriteOf(start, byTitle, doc, id, meta);
    if doc.title !in byTitle {
      assert w == New(id, NewRow(doc, meta));
      r := SyncNew(db, id, doc, meta, r0);
    } else {
      assert w == ChangeOf(byTitle[doc.title], start[byTitle[doc.title]], doc, meta);
      r := SyncListed(db, byTitle[doc.title], start[byTitle[doc.title]], doc, meta, r0);
    }
  }

  /** A document with a listed record updates it when the text differs. */
  method SyncListed(db: DB.MemoryDB, id: Id, current: Memory, doc: Doc, meta: Meta, r0: Report) returns (r: Report)
    requires db.Valid() && id in db.live && db.live[id] == current
    modifies db
    ensures db.Valid() && db.tombs == old(db.tombs)
    ensures r == Count(r0, ChangeOf(id, current, doc, meta))
    ensures db.live == Put(old(db.live), ChangeOf(id, current, doc, meta))
    ensures SameText(current, doc) ==> db.revs == old(db.revs)
  {
    if current.content == doc.content && current.taxonomy == doc.taxonomy &&
       current.format == FormatOrDefault(doc.format)
    {
      return r0;
    }
    UpdateDoc(db, id, doc, meta);
    return r0.(updated := r0.updated + 1);
  }

  /** The delete of a live record, which cannot fail. */
  method DeleteDoc(db: DB.MemoryDB, id: Id, deletedBy: string, now: string)
    requires db.Valid() && id in db.live
    modifies db
    ensures db.Valid() && db.live == old(db.live) - {id} && |db.live| == |old(db.live)| - 1
  {
    var r := db.Delete(id, deletedBy, now);
    assert r.Ok?;
  }

  /** `id` is the listed record that removal would take for its title. */
  predicate Stale(start: map<Id, Memory>, docs: seq<Doc>, byTitle: map<string, Id>, id: Id) {
    id in start && Unwanted(start[id], docs) && start[id].title in byTitle && byTitle[start[id].title] == id
  }

  /** What is left when the stale records with a title in `titles` still wait for removal. */
  ghost predicate Leftover(start: map<Id, Memory>, mid: map<Id, Memory>, live: map<Id, Memory>, docs: seq<Doc>,
                           byTitle: map<string, Id>, titles: set<string>) {
    && (forall id :: id in live <==>
          id in mid && !(Stale(start, docs, byTitle, id) && start[id].title !in titles))
    && (forall id | id in live :: live[id] == mid[id])
  }

  lemma LeftoverOneLess(start: map<Id, Memory>, mid: map<Id, Memory>, live: map<Id, Memory>, live': map<Id, Memory>,
                        docs: seq<Doc>, byTitle: map<string, Id>, titles: set<string>, title: string)
    requires Leftover(start, mid, live, docs, byTitle, titles) && Indexes(byTitle, start)
    requires title in titles && title in byTitle && byTitle[title] in mid
    requires var id := byTitle[title];
      live' == if Unwanted(start[id], docs) then live - {id} else live
    ensures Leftover(start, mid, live', docs, byTitle, titles - {title})
    ensures byTitle[title] in live
  {
  }

  /** A title that two listed records share spoils the result: removal takes only one of them. */
  lemma SharedTitleStays(start: map<Id, Memory>, mid: map<Id, Memory>, live: map<Id, Memory>, docs: seq<Doc>,
                         byTitle: map<string, Id>)
    requires Indexes(byTitle, start) && Kept(start, mid, docs, |docs|)
    requires Leftover(start, mid, live, docs, byTitle, {}) && !TitlesDistinct(start)
    ensures !InSync(live, docs)
  {
    var d, e :| d in start && e in start && start[d].title == start[e].title && d != e;
    var spare := if byTitle[start[d].title] == d then e else d;
    assert spare in live && live[spare].title == start[d].title;
    if Unwanted(start[d], docs) {
      assert !OneOf(live[spare], docs);
    } else {
      assert d in live && e in live && live[d].title == live[e].title;
    }
  }

  lemma RemovalDecides(start: map<Id, Memory>, mid: map<Id, Memory>, live: map<Id, Memory>, docs: seq<Doc>,
                       byTitle: map<string, Id>)
    requires Apart(docs) && Indexes(byTitle, start) && Synced(start, mid, docs, |docs|)
    requires Leftover(start, mid, live, docs, byTitle, {})
    ensures InSync(live, docs) <==> TitlesDistinct(start)
  {
    if TitlesDistinct(start) {
      RemovalFinishes(start, mid, live, docs);
    } else {
      SharedTitleStays(start, mid, live, docs, byTitle);
    }
  }

  /** Removes the listed records that no document wants. */
  method RemoveStale(db: DB.MemoryDB, docs: seq<Doc>, start: map<Id, Memory>, byTitle: map<string, Id>,
                     deletedBy: string, now: string) returns (removed: nat)
    requires db.Valid() && Apart(docs) && Indexes(byTitle, start)
    requires Synced(start, db.live, docs, |docs|)
    modifies db
    ensures db.Valid() && (InSync(db.live, docs) <==> TitlesDistinct(start))
    ensures |db.live| == |old(db.live)| - removed
    ensures Leftover(start, old(db.live), db.live, docs, byTitle, {})
    ensures InSync(start, docs) ==> removed == 0 && db.Abs() == old(db.Abs())
  {
    removed := 0;
    ghost var mid := db.live;
    var titles := byTitle.Keys;
    while titles != {}
      invariant db.Valid() && titles <= byTitle.Keys
      invariant Leftover(start, mid, db.live, docs, byTitle, titles)
      invariant |db.live| == |mid| - removed
      invariant InSync(start, docs) ==> removed == 0 && db.Abs() == old(db.Abs())
    {
      var title :| title in titles;
      var id := byTitle[title];
      ghost var live := db.live;
      assert id in mid;
      if Unwanted(start[id], docs) {
        if InSync(start, docs) { InSyncWanted(start, docs, id); }
        DeleteDoc(db, id, deletedBy, now);
        removed := removed + 1;
      }
      LeftoverOneLess(start, mid, live, db.live, docs, byTitle, titles, title);
      titles := titles - {title};
    }
    RemovalDecides(start, mid, db.live, docs, byTitle);
  }

  /** Reads the rows and rebuilds the edges. */
  method Rebuild(db: DB.MemoryDB)
    requires db.Valid()
    modifies db
    ensures db.Valid() && NoTombs(db.tombs, db.edges)
    ensures db.live == old(db.live) && db.revs == old(db.revs) && db.tombs == old(db.tombs)
    ensures !Ambiguous(db.live) ==> db.edges == Canon(db.live)
  {
    var order := ReadAll(db.live);
    RebuildForgetsTombs(db.Abs(), RebuildStep(order));
    if !Ambiguous(db.live) {
      RebuildIsCanon(db.Abs(), RebuildStep(order));
    }
    db.RebuildEdges(order);
  }

  /** Document `i` is new, and its insert fails. */
  ghost predicate Blocked(job: Job, i: nat)
    requires Ready(job) && i < |job.docs|
  {
    job.writes[i].New? && Holder(After(job.start, job.writes, i), GoFold(job.docs[i].title), job.ids[i]).Some?
  }

  ghost predicate NoneBlocked(job: Job, n: nat)
    requires Ready(job) && n <= |job.docs|
    decreases n
  {
    n == 0 || (NoneBlocked(job, n - 1) && !Blocked(job, n - 1))
  }

  lemma BlockedIff(job: Job, i: nat)
    requires Ready(job) && i < |job.docs|
    ensures Blocked(job, i) <==> !AcceptsAt(job.start, job.docs, i)
  {
    WriteFacts(job, i);
    if job.writes[i].New? {
      SyncedAfter(job, i);
      StillUnused(job, i, i);
      InsertRefusedIff(job.start, After(job.start, job.writes, i), job.docs, i, job.ids[i]);
    }
  }

  lemma {:induction false} NoneBlockedIff(job: Job, n: nat)
    requires Ready(job) && n <= |job.docs|
    ensures NoneBlocked(job, n) <==> AcceptsFirst(job.start, job.docs, n)
    decreases n
  {
    if n > 0 {
      NoneBlockedIff(job, n - 1);
      BlockedIff(job, n - 1);
    }
  }

  /** The body of the loop. */
  method SyncNext(db: DB.MemoryDB, job: Job, i: nat, r0: Report) returns (r: Report)
    requires Ready(job) && i < |job.docs| && job.ids[i] !in db.tombs
    requires db.Valid() && db.live == After(job.start, job.writes, i) && r0.error.None?
    modifies db
    ensures db.Valid() && db.tombs == old(db.tombs)
    ensures r.error.Some? <==> Blocked(job, i)
    ensures r.error.Some? ==> db.live == old(db.live) && r == r0.(error := r.error)
    ensures r.error.Some? ==> Refuses(db.live, job.docs[i], r.error)
    ensures r.error.None? ==> db.live == Put(old(db.live), job.writes[i]) && r == Count(r0, job.writes[i])
    ensures r.error.Some? || r == r0 ==> db.revs == old(db.revs)
  {
    assert IsWrite(job, i);
    WriteFacts(job, i);
    StillUnused(job, i, i);
    if job.docs[i].title in job.byTitle {
      ListedIsLive(job, i);
    }
    r := SyncDoc(db, job.start, job.byTitle, job.docs[i], job.ids[i], job.meta, r0);
  }

  ghost predicate Unburied(ids: seq<Id>, tombs: map<Id, Tombstone>) {
    forall i | 0 <= i < |ids| :: ids[i] !in tombs
  }

  /** The loop over the documents. It stops at the first that is not accepted. */
  method SyncDocs(db: DB.MemoryDB, job: Job) returns (r: Report, ghost done: nat)
    requires Ready(job) && db.Valid() && db.live == job.start && Unburied(job.ids, db.tombs)
    modifies db
    ensures db.Valid() && db.tombs == old(db.tombs)
    ensures done <= |job.docs| && db.live == After(job.start, job.writes, done) && NoneBlocked(job, done)
    ensures r == Tally(job.writes, done).(error := r.error)
    ensures r.error.None? ==> done == |job.docs|
    ensures r.error.Some? ==> done < |job.docs| && Blocked(job, done) && Refuses(db.live, job.docs[done], r.error)
    ensures r.inserted == 0 && r.updated == 0 ==> db.revs == old(db.revs)
  {
    r, done := Report(0, 0, 0, None), 0;
    for i := 0 to |job.docs|
      invariant done == i && NoneBlocked(job, i) && r == Tally(job.writes, i) && r.error.None?
      invariant db.Valid() && db.tombs == old(db.tombs)
      invariant db.live == After(job.start, job.writes, i)
      invariant r.inserted == 0 && r.updated == 0 ==> db.revs == old(db.revs)
    {
      r := SyncNext(db, job, i, r);
      if r.error.Some? {
        return;
      }
      done := i + 1;
    }
  }

  /** A record whose title a document has keeps its id, and its row when it is that document. */
  ghost predicate WantedKept(start: map<Id, Memory>, live: map<Id, Memory>, docs: seq<Doc>) {
    forall id | id in start && !Unwanted(start[id], docs) :: KeptRow(start[id], live, id, docs)
  }

  ghost predicate KeptRow(m: Memory, live: map<Id, Memory>, id: Id, docs: seq<Doc>) {
    id in live && live[id].title == m.title && (OneOf(m, docs) ==> live[id] == m)
  }

  lemma RemovalKeepsWanted(start: map<Id, Memory>, mid: map<Id, Memory>, live: map<Id, Memory>, docs: seq<Doc>,
                           byTitle: map<string, Id>)
    requires Synced(start, mid, docs, |docs|) && Leftover(start, mid, live, docs, byTitle, {})
    ensures WantedKept(start, live, docs)
  {
  }

  // ---- one Sync after another ----

  function Namesakes(live: map<Id, Memory>, title: string): set<Id> {
    set id | id in live && live[id].title == title
  }

  /** No title that no document has is on more than `k` records. */
  ghost predicate AtMost(live: map<Id, Memory>, docs: seq<Doc>, k: nat) {
    forall id | id in live && Unwanted(live[id], docs) :: |Namesakes(live, live[id].title)| <= k
  }

  /** What one Sync achieves: every document is in, and of every unwanted title one record goes. */
  ghost predicate Cleaned(start: map<Id, Memory>, live: map<Id, Memory>, docs: seq<Doc>) {
    NamesOk(live) && HoldsAll(live, docs, |docs|) && forall k: nat | AtMost(start, docs, k + 1) :: AtMost(live, docs, k)
  }

  lemma RemovalCleans(start: map<Id, Memory>, mid: map<Id, Memory>, live: map<Id, Memory>, docs: seq<Doc>,
                      byTitle: map<string, Id>)
    requires Apart(docs) && Indexes(byTitle, start) && Synced(start, mid, docs, |docs|) && NamesOk(live)
    requires Leftover(start, mid, live, docs, byTitle, {})
    ensures Cleaned(start, live, docs)
  {
    forall i | 0 <= i < |docs| ensures Holds(live, docs[i]) {
      assert Holds(mid, docs[i]);
      var d :| d in mid && Matches(mid[d], docs[i]);
      assert d in live && Matches(live[d], docs[i]);
    }
    forall k: nat | AtMost(start, docs, k + 1) ensures AtMost(live, docs, k) {
      forall id | id in live && Unwanted(live[id], docs) ensures |Namesakes(live, live[id].title)| <= k {
        UnwantedWasListed(start, mid, live, docs, byTitle, id);
        OneNamesakeLess(start, mid, live, docs, byTitle, live[id].title);
        assert Unwanted(start[id], docs);
      }
    }
  }

  lemma UnwantedWasListed(start: map<Id, Memory>, mid: map<Id, Memory>, live: map<Id, Memory>, docs: seq<Doc>,
                          byTitle: map<string, Id>, id: Id)
    requires Synced(start, mid, docs, |docs|) && Leftover(start, mid, live, docs, byTitle, {})
    requires id in live && Unwanted(live[id], docs)
    ensures id in start && start[id].title == live[id].title
  {
    AddedIsWanted(start, mid, docs, id);
  }

  lemma AddedIsWanted(start: map<Id, Memory>, mid: map<Id, Memory>, docs: seq<Doc>, id: Id)
    requires Synced(start, mid, docs, |docs|) && id in mid
    ensures id !in start ==> !Unwanted(mid[id], docs)
  {
    if id !in start {
      assert AddedBy(start, mid[id], docs, |docs|);
      var j :| Added(start, mid[id], docs, |docs|, j);
    }
  }

  lemma OneNamesakeLess(start: map<Id, Memory>, mid: map<Id, Memory>, live: map<Id, Memory>, docs: seq<Doc>,
                        byTitle: map<string, Id>, title: string)
    requires Indexes(byTitle, start) && Synced(start, mid, docs, |docs|)
    requires Leftover(start, mid, live, docs, byTitle, {}) && title in byTitle
    requires forall i | 0 <= i < |docs| :: docs[i].title != title
    ensures |Namesakes(live, title)| == |Namesakes(start, title)| - 1
  {
    forall id ensures id in Namesakes(live, title) <==> id in Namesakes(start, title) - {byTitle[title]} {
      if id in Namesakes(live, title) {
        UnwantedWasListed(start, mid, live, docs, byTitle, id);
      }
    }
    assert Namesakes(live, title) == Namesakes(start, title) - {byTitle[title]};
    assert byTitle[title] in Namesakes(start, title);
  }

  lemma {:induction false} HeldIsAccepted(live: map<Id, Memory>, docs: seq<Doc>, n: nat)
    requires n <= |docs| && HoldsAll(live, docs, n)
    ensures AcceptsFirst(live, docs, n)
    decreases n
  {
    if n > 0 {
      HeldIsAccepted(live, docs, n - 1);
      assert Holds(live, docs[n - 1]);
    }
  }

  lemma CleanIsInSync(live: map<Id, Memory>, docs: seq<Doc>)
    requires NamesOk(live) && Loaded(docs) && HoldsAll(live, docs, |docs|) && AtMost(live, docs, 0)
    ensures InSync(live, docs)
  {
    forall id | id in live ensures OneOf(live[id], docs) {
      var i := WantedBy(live, docs, id);
      assert Holds(live, docs[i]);
      var d :| d in live && Matches(live[d], docs[i]);
      DocTitleUnique(live, docs, i, d, id);
    }
    forall d, e | d in live && e in live && live[d].title == live[e].title ensures d == e {
      var i := WantedBy(live, docs, d);
      DocTitleUnique(live, docs, i, d, e);
    }
  }

  lemma WantedBy(live: map<Id, Memory>, docs: seq<Doc>, id: Id) returns (i: nat)
    requires AtMost(live, docs, 0) && id in live
    ensures i < |docs| && docs[i].title == live[id].title
  {
    assert id in Namesakes(live, live[id].title);
    i :| 0 <= i < |docs| && docs[i].title == live[id].title;
  }

  /** As many Syncs as the commonest unwanted title has records, each of which succeeds once the
      first has, leave exactly the documents. */
  lemma {:induction false} RepeatedSyncCleans(lives: seq<map<Id, Memory>>, docs: seq<Doc>)
    requires Loaded(docs) && |lives| >= 2 && AtMost(lives[0], docs, |lives| - 1)
    requires forall i | 0 <= i < |lives| - 1 :: Cleaned(lives[i], lives[i + 1], docs)
    ensures InSync(lives[|lives| - 1], docs)
    decreases |lives|
  {
    assert Cleaned(lives[0], lives[1], docs);
    assert AtMost(lives[1], docs, |lives| - 2);
    if |lives| == 2 {
      CleanIsInSync(lives[1], docs);
    } else {
      forall i | 0 <= i < |lives[1..]| - 1 ensures Cleaned(lives[1..][i], lives[1..][i + 1], docs) {
        assert Cleaned(lives[i + 1], lives[i + 2], docs);
      }
      RepeatedSyncCleans(lives[1..], docs);
    }
  }

  /** What a Sync that fails leaves: the documents before the first one not accepted are in, nothing
      is removed, and the error says who has its title. */
  ghost predicate StoppedAt(start: map<Id, Memory>, live: map<Id, Memory>, docs: seq<Doc>, r: Report, i: nat) {
    && i < |docs| && AcceptsFirst(start, docs, i) && !AcceptsAt(start, docs, i)
    && Synced(start, live, docs, i) && Refuses(live, docs[i], r.error)
    && r.inserted == NewDocs(start, docs, i) && r.removed == 0 && |live| == |start| + r.inserted
  }

  lemma NotAccepted(live: map<Id, Memory>, docs: seq<Doc>, i: nat)
    requires i < |docs| && !AcceptsAt(live, docs, i)
    ensures !Accepts(live, docs)
  {
    if Accepts(live, docs) { AcceptsBefore(live, docs, i + 1, |docs|); }
  }

  /** Sync. `ids` is what uuid.New will return. It succeeds exactly when no new title is taken;
      then the edges are rebuilt, and the records are the documents exactly when no two records
      shared a title before. A second run inserts, updates and removes nothing. */
  method Sync(db: DB.MemoryDB, docs: seq<Doc>, ids: seq<Id>, meta: Meta) returns (r: Report)
    requires db.Valid() && Loaded(docs)
    requires |ids| == |docs| && Distinct(ids)
    requires forall id | id in ids :: id !in db.live && id !in db.tombs
    modifies db
    ensures db.Valid()
    ensures r.error.None? <==> Accepts(old(db.live), docs)
    ensures r.error.Some? ==> db.tombs == old(db.tombs) && exists i :: StoppedAt(old(db.live), db.live, docs, r, i)
    ensures r.error.None? ==> (InSync(db.live, docs) <==> TitlesDistinct(old(db.live)))
    ensures r.error.None? ==> WantedKept(old(db.live), db.live, docs)
    ensures r.error.None? ==> r.updated == ChangedDocs(old(db.live), docs, |docs|)
    ensures r.error.None? ==> Cleaned(old(db.live), db.live, docs) && Accepts(db.live, docs)
    ensures r.error.None? ==> NoTombs(db.tombs, db.edges)
    ensures r.error.None? ==>
      r.inserted == NewDocs(old(db.live), docs, |docs|) && |db.live| == |old(db.live)| + r.inserted - r.removed
    ensures r.error.None? && !Ambiguous(db.live) ==> db.edges == Canon(db.live)
    ensures InSync(old(db.live), docs) ==> r == Report(0, 0, 0, None)
    ensures InSync(old(db.live), docs) ==>
      db.live == old(db.live) && db.revs == old(db.revs) && db.tombs == old(db.tombs)
  {
    var start := db.live;
    var byTitle := IndexByTitle(start);
    assert forall i | 0 <= i < |ids| :: ids[i] in ids;
    PlanIsReady(start, byTitle, docs, ids, meta);
    var job := Job(start, byTitle, docs, ids, meta, Plan(start, byTitle, docs, ids, meta));
    ghost var done;
    r, done := SyncDocs(db, job);
    SyncedAfter(job, done);
    NoneBlockedIff(job, done);
    TallyCounts(job, done);
    AfterSize(job, done);
    if InSync(start, docs) { InSyncTally(job, done); }
    if r.error.Some? {
      if InSync(start, docs) { InSyncTitled(start, docs, done); }
      BlockedIff(job, done);
      NotAccepted(start, docs, done);
      assert StoppedAt(start, db.live, docs, r, done);
      return;
    }
    TallyChanged(job, |docs|);
    var removed := Prune(db, docs, start, byTitle, meta);
    HeldIsAccepted(db.live, docs, |docs|);
    r := r.(removed := removed);
  }

  /** The end of a Sync: stale records go, and the edges are rebuilt. */
  method Prune(db: DB.MemoryDB, docs: seq<Doc>, start: map<Id, Memory>, byTitle: map<string, Id>, meta: Meta)
      returns (removed: nat)
    requires db.Valid() && Apart(docs) && Indexes(byTitle, start) && Synced(start, db.live, docs, |docs|)
    modifies db
    ensures db.Valid() && (InSync(db.live, docs) <==> TitlesDistinct(start)) && WantedKept(start, db.live, docs)
    ensures |db.live| == |old(db.live)| - removed && Cleaned(start, db.live, docs)
    ensures NoTombs(db.tombs, db.edges) && (!Ambiguous(db.live) ==> db.edges == Canon(db.live))
    ensures InSync(start, docs) ==>
      removed == 0 && db.live == old(db.live) && db.revs == old(db.revs) && db.tombs == old(db.tombs)
  {
    ghost var mid := db.live;
    removed := RemoveStale(db, docs, start, byTitle, meta.author, meta.now);
    RemovalKeepsWanted(start, mid, db.live, docs, byTitle);
    RemovalCleans(start, mid, db.live, docs, byTitle);
    Rebuild(db);
  }
}
