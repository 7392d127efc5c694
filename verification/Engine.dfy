/** The engine's restore, driving the store. */
module Engine {
  import opened Options
  import opened Scopes
  import opened Store
  import opened StoreHistory
  import DB = MemoryDB

  /** RestoreRevision: the memory is looked up before the revision, so that a deleted one answers
      with its tombstone. A refused restore changes nothing. */
  method RestoreRevision(db: DB.MemoryDB, scope: Scope, id: Id, version: nat, author: string, now: string)
      returns (r: Result<seq<DB.LinkStatus>, RestoreError>)
    requires db.Valid()
    modifies db
    ensures db.Valid()
    ensures var t := Restore(old(db.Abs()), scope, id, version, author, now);
      && (r.Ok? <==> t.Ok?) && (r.Err? ==> r.error == t.error)
      && db.Abs() == if t.Ok? then t.value else old(db.Abs())
  {
    if id !in db.live {
      return Err(if id in db.tombs then Gone(db.tombs[id]) else Absent);
    }
    if !scope.CanRead(db.live[id].taxonomy) {
      return Err(Absent);
    }
    if !scope.CanWrite(db.live[id].taxonomy) {
      return Err(Forbidden);
    }
    if RevKey(id, version) !in db.revs {
      return Err(Absent);
    }
    ghost var step := RestoreStep(db.Abs(), id, version, author, now);
    assert Try(db.Abs(), step) == Update(db.Abs(), step);
    var updates := RestoreUpdates(db.revs[RevKey(id, version)]);
    var written := db.Update(id, updates, None, Meta(author, "", now));
    r := if written.Ok? then Ok(written.value) else Err(Refused(written.error));
  }
}
