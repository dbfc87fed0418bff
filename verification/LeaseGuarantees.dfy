/** What the invariant of the lease files means for those who use them. */
module LeaseGuarantees {
  import opened Wrappers
  import opened WorktreeLeases
  import opened LeaseRecovery
  import opened LeaseInvariants

  /** Whatever was cut off: two different leases that are active or pending share neither a branch of a
      repository nor a path. */
  lemma LeasesStayApart(f: Files, h: History, a: StoredLease, b: StoredLease)
    requires Inv(f, h) && Claim(f, a) && Claim(f, b) && a.lease.id != b.lease.id
    ensures a.lease.repoId != b.lease.repoId || a.lease.branch != b.lease.branch
    ensures a.lease.path != b.lease.path
    ensures MapKey(a.lease) != MapKey(b.lease)
  {
    assert SameOwner(a.lease, b.lease) || Apart(a.lease, b.lease);
    assert ValidBranch(a.lease.branch) && ValidBranch(b.lease.branch);
    hide Inv, ValidBranch, MapKey;
    if MapKey(a.lease) == MapKey(b.lease) {
      MapKeyIsInjective(a.lease, b.lease);
    }
  }

  ghost function ActiveIds(records: map<string, StoredLease>): set<string> {
    set id | id in records && records[id].active
  }

  lemma QuietMapAgrees(f: Files, log: seq<Row>)
    requires MapFollows(f, log) && f.registry.pending == map[]
    ensures forall id :: Agrees(f, id)
  {
    hide Agrees;
    forall id
      ensures Agrees(f, id)
    {
      assert Calm(f, log, id);
    }
  }

  lemma ExactMapIsActiveMap(f: Files)
    requires forall id :: Agrees(f, id)
    ensures IsActiveMap(f.active, f.registry.records)
  {
    hide MapKey;
    var m, records := f.active, f.registry.records;
    forall k | k in m
      ensures FromActive(records, k, m[k])
    {
      assert Agrees(f, m[k].id);
    }
    assert forall id :: id in records && records[id].active ==> Agrees(f, id);
  }

  /** A map that is one to one has as many entries as it has leases. */
  lemma {:induction false} OneEntryEach(m: map<string, Lease>, records: map<string, StoredLease>, ids: set<string>)
    requires forall id :: id in ids ==>
      id in records && records[id].active && records[id].lease.id == id && HasEntry(m, records[id].lease)
    requires forall k :: k in m ==> m[k].id in ids && records[m[k].id].lease == m[k] && MapKey(m[k]) == k
    ensures |m| == |ids|
    decreases |ids|
  {
    hide MapKey;
    if ids == {} {
      assert m == map[];
    } else {
      var id :| id in ids;
      var k := MapKey(records[id].lease);
      var less := m - {k};
      forall other | other in ids - {id}
        ensures HasEntry(less, records[other].lease)
      {
      }
      OneEntryEach(less, records, ids - {id});
      assert less.Keys == m.Keys - {k};
    }
  }

  /** With nothing pending, the active map is the map of the active leases, and it has one entry for each,
      unless it was not written since a removal was called off too late. */
  lemma QuietMapIsExact(f: Files, h: History)
    requires Inv(f, h) && h.mapped && f.registry.pending == map[]
    ensures IsActiveMap(f.active, f.registry.records)
    ensures |f.active| == |ActiveIds(f.registry.records)|
  {
    hide MapKey, HasRow, Exclusive, RowsOnce, Covered, RemovedAreGone, Continuity, Dated;
    var records := f.registry.records;
    QuietMapAgrees(f, h.log);
    ExactMapIsActiveMap(f);
    OneEntryEach(f.active, records, ActiveIds(records));
  }

  /** A removal makes a released lease only when the worktree is gone, and until then the lease keeps its
      branch and its path. */
  lemma RemovalIsSafe(f: Files, h: History, id: string, other: StoredLease)
    requires Inv(f, h) && id in f.registry.pending && f.registry.pending[id].operation.RemoveOp? && id !in h.gone
    requires Claim(f, other) && other.lease.id != id
    ensures id !in h.removed && !HasRow(f.ledger, f.registry.pending[id].recordId)
    ensures Apart(f.registry.pending[id].record.lease, other.lease)
  {
    var mine := f.registry.pending[id].record;
    assert Claim(f, mine) && mine.lease.id == id;
    assert SameOwner(mine.lease, other.lease) || Apart(mine.lease, other.lease);
    if HasRow(f.ledger, f.registry.pending[id].recordId) {
      var i :| 0 <= i < |f.ledger| && f.ledger[i].recordId == f.registry.pending[id].recordId;
      MemberHasRow(h.log, f.ledger[i]);
    }
  }

  lemma CalledOff(f: Files, h: History, id: string)
    requires id in f.registry.pending && MapFollows(Unstage(f, id), h.log)
    ensures Agrees(f, id)
  {
    hide HasRow, MapKey;
    var g := Unstage(f, id);
    assert Calm(g, h.log, id);
    SameAgreement(g, f, id);
  }

  /** A removal that is called off: the active map stays right if and only if the lease is not stale, that
      is, unless its record is released already while the map still has an entry of it. */
  lemma WithdrawalIsSafeExactly(f: Files, h: History, id: string)
    requires Inv(f, h) && h.mapped && id in f.registry.pending && f.registry.pending[id].operation.RemoveOp?
    ensures MapFollows(Unstage(f, id), h.log) <==> !IsStale(f, id)
  {
    hide Keyed, Exclusive, RowsOnce, KeysFit, MapFollows, Continuity, Dated, Covered, RemovedAreGone, IsStale, Agrees;
    StaleIsWrong(f, h, id);
    if MapFollows(Unstage(f, id), h.log) {
      CalledOff(f, h, id);
    }
    if Agrees(f, id) {
      CallOffKeepsMap(f, h, id);
    }
  }

  lemma CrashedRemoval(f: Files, intent: Intent, w: World)
    requires f.registry.pending == map[] && Announced(intent) && w.sight(intent) == NoEffect
    requires !HasRow(f.ledger, intent.recordId)
    ensures
      var id := intent.record.lease.id;
      var g := ReplayOne(ApplyUpTo(Stage(f, intent), intent, 2), id, w);
      && g.registry.pending == map[] && g.active == f.active && g.registry.reclamation == f.registry.reclamation
      && g.registry.records == f.registry.records[id := intent.record]
      && g.ledger == f.ledger + [Row(intent.recordId, intent.record.lease)]
  {
    hide HasRow;
    var g := StoreRecord(AppendRow(Stage(f, intent), intent), intent);
    assert g.registry.pending == map[intent.record.lease.id := intent];
  }

  /** The one way to a stale entry: the path of an announced removal is seen gone, the process dies once the
      record is written, and then the path is seen untouched after all. With nothing pending, the active map
      then has an entry of a released lease. */
  lemma ReappearanceLeavesAStaleEntry(f: Files, h: History, intent: Intent, w: World)
    requires Inv(f, h) && h.mapped && f.registry.pending == map[]
    requires MayStage(f, h, intent) && intent.operation.RemoveOp?
    requires intent.record.lease.id in f.registry.records && w.sight(intent) == NoEffect
    ensures
      var id := intent.record.lease.id;
      var g := ReplayOne(ApplyUpTo(Stage(f, intent), intent, 2), id, w);
      && g.registry.pending == map[] && g.registry.reclamation.None? && g.active == f.active
      && id in g.registry.records && g.registry.records[id] == intent.record
      && g.ledger == f.ledger + [Row(intent.recordId, intent.record.lease)]
      && IsStale(g, id) && !IsActiveMap(g.active, g.registry.records) && !InConflict(g)
  {
    hide MapKey, HasRow, ReplayOne, ApplyUpTo;
    var id := intent.record.lease.id;
    QuietMapIsExact(f, h);
    assert f.registry.records[id].active && f.registry.records[id].lease.id == id && WellFormed(intent);
    assert forall k :: k in f.active ==> f.active[k].id in f.registry.records;
    LedgerIsLogged(f, h, intent.recordId);
    CrashedRemoval(f, intent, w);
    hide Inv, MayStage;
    var before := f.registry.records[id].lease;
    assert HasEntry(f.active, before);
    var g := ReplayOne(ApplyUpTo(Stage(f, intent), intent, 2), id, w);
    assert !FromActive(g.registry.records, MapKey(before), g.active[MapKey(before)]);
    assert MapKey(before) in g.active && g.active[MapKey(before)].id == id;
  }
}
