/** What every durable write of the lease manager keeps: leases never share a branch or a path, each intent
    has at most one row, the active map follows the records, releases are never forgotten, and a removal is
    only recorded for a worktree that is gone. */
module LeaseInvariants {
  import opened Wrappers
  import opened WorktreeLeases
  import opened LeaseRecovery

  // ----- the invariant -----

  predicate WellFormed(i: Intent) {
    && (i.record.active <==> i.operation.AcquireOp? || i.operation.RenewOp?)
    && (i.removal.Some? <==> i.operation.RemoveOp?)
  }

  ghost predicate Keyed(r: Registry) {
    && (forall id :: id in r.records ==> r.records[id].lease.id == id)
    && OwnRows(r.pending)
    && (forall id :: id in r.pending ==> WellFormed(r.pending[id]))
    && (forall id :: id in r.pending && id in r.records && !r.records[id].active ==>
         r.records[id] == r.pending[id].record)
  }

  /** An active record, or the record of an intent. */
  predicate Claim(f: Files, s: StoredLease) {
    || (s.lease.id in f.registry.records && f.registry.records[s.lease.id] == s && s.active)
    || (s.lease.id in f.registry.pending && f.registry.pending[s.lease.id].record == s)
  }

  predicate SameOwner(a: Lease, b: Lease) {
    && a.id == b.id && a.token == b.token && a.repoId == b.repoId && a.path == b.path
    && a.branch == b.branch && a.mode == b.mode && a.holder == b.holder
  }

  /** Two leases that have neither a branch nor a path in common. */
  predicate Apart(a: Lease, b: Lease) {
    a.id != b.id && (a.repoId != b.repoId || a.branch != b.branch) && a.path != b.path
  }

  ghost predicate Exclusive(f: Files) {
    && (forall s :: Claim(f, s) ==> ValidBranch(s.lease.branch))
    && (forall s, t :: Claim(f, s) && Claim(f, t) ==> SameOwner(s.lease, t.lease) || Apart(s.lease, t.lease))
  }

  ghost predicate RowAsIntended(f: Files, log: seq<Row>, intent: Intent) {
    HasRow(log, intent.recordId) ==> Row(intent.recordId, intent.record.lease) in f.ledger
  }

  /** No row is written twice, even when retention has taken it away, and the row of an intent is there
      exactly as the intent says. */
  ghost predicate RowsOnce(f: Files, log: seq<Row>) {
    && DistinctRows(log) && DistinctRows(f.ledger)
    && (forall i :: 0 <= i < |f.ledger| ==> f.ledger[i] in log)
    && (forall id :: id in f.registry.pending ==> RowAsIntended(f, log, f.registry.pending[id]))
  }

  /** The active map says the right thing about a lease. */
  ghost predicate Agrees(f: Files, id: string) {
    && (id in f.registry.records && f.registry.records[id].active ==> HasEntry(f.active, f.registry.records[id].lease))
    && (forall k :: k in f.active && f.active[k].id == id ==> FromActive(f.registry.records, k, f.active[k]))
  }

  /** The record is that of the intent. */
  predicate Stored(f: Files, id: string)
    requires id in f.registry.pending
  {
    id in f.registry.records && f.registry.records[id] == f.registry.pending[id].record
  }

  /** No intent, or one whose row or record is not written yet. */
  ghost predicate Calm(f: Files, log: seq<Row>, id: string) {
    id in f.registry.pending ==> !HasRow(log, f.registry.pending[id].recordId) || !Stored(f, id)
  }

  predicate IsKnownId(f: Files, id: string) {
    id in f.registry.records || id in f.registry.pending
  }

  ghost predicate MapFollows(f: Files, log: seq<Row>) {
    && (forall k :: k in f.active ==> IsKnownId(f, f.active[k].id))
    && (forall id :: Calm(f, log, id) ==> Agrees(f, id))
  }

  /** Every entry stands under the key of its lease; another map would be refused as corrupt. */
  ghost predicate KeysFit(m: map<string, Lease>) {
    forall k :: k in m ==> MapKey(m[k]) == k
  }

  ghost predicate Known(f: Files, s: StoredLease) {
    || (s.lease.id in f.registry.records && f.registry.records[s.lease.id] == s)
    || (s.lease.id in f.registry.pending && f.registry.pending[s.lease.id].record == s)
  }

  function ReleaseOf(s: StoredLease): Release {
    Release(s.lease.id, ContinuationOf(s.request), s.updatedAt)
  }

  /** The release is still in the registry. */
  predicate Present(f: Files, g: Release) {
    && g.id in f.registry.records && !f.registry.records[g.id].active
    && ReleaseOf(f.registry.records[g.id]) == g
  }

  predicate AtLeast(times: map<Continuation, int>, key: Continuation, at: int) {
    key in times && times[key] >= at
  }

  /** A release that has left the registry cannot be overtaken by an older one: whoever is still known is
      newer, or the watermark stands above the release. */
  ghost predicate Remembered(f: Files, g: Release) {
    forall s :: Known(f, s) && ContinuationOf(s.request) == g.key ==>
      g.at <= s.updatedAt || AtLeast(f.registry.reclaimedThrough, g.key, g.at)
  }

  ghost predicate Continuity(f: Files, releases: set<Release>) {
    && (forall g :: g in releases ==> Present(f, g) || Remembered(f, g))
    && (forall id :: id in f.registry.records && !f.registry.records[id].active ==>
         ReleaseOf(f.registry.records[id]) in releases)
  }

  /** Nothing is dated later than the clock. */
  ghost predicate Dated(f: Files, h: History) {
    && (forall s :: Known(f, s) ==> s.updatedAt <= h.clock)
    && (forall g :: g in h.releases ==> g.at <= h.clock)
  }

  predicate CoveredBy(r: Registry, watermarks: map<Continuation, int>, s: StoredLease) {
    var key := ContinuationOf(s.request);
    AtLeast(r.reclaimedThrough, key, s.updatedAt) || AtLeast(watermarks, key, s.updatedAt)
  }

  /** A staged reclamation carries watermarks for the releases it will take away. */
  ghost predicate Covered(r: Registry) {
    r.reclamation.Some? ==>
      forall id :: id in r.reclamation.value.leaseIds && id in r.records && !r.records[id].active ==>
        CoveredBy(r, r.reclamation.value.watermarks, r.records[id])
  }

  /** A lease is released through a removal only when its worktree is gone. */
  ghost predicate RemovedAreGone(f: Files, h: History) {
    && h.removed <= h.gone
    && (forall id :: id in f.registry.pending && f.registry.pending[id].operation.RemoveOp? ==>
          || (Announced(f.registry.pending[id]) && !HasRow(h.log, f.registry.pending[id].recordId))
          || id in h.gone)
  }

  ghost predicate Inv(f: Files, h: History) {
    && Keyed(f.registry) && Exclusive(f) && RowsOnce(f, h.log)
    && KeysFit(f.active) && (h.mapped ==> MapFollows(f, h.log))
    && (h.orderly ==> Continuity(f, h.releases) && Dated(f, h)) && Covered(f.registry) && RemovedAreGone(f, h)
  }

  // ----- staging an intent -----

  ghost predicate FreshRow(f: Files, log: seq<Row>, recordId: string) {
    && !HasRow(log, recordId)
    && (forall id :: id in f.registry.pending ==> f.registry.pending[id].recordId != recordId)
  }

  /** The lease goes with every claim: it is the same lease, or it has nothing in common with it. */
  ghost predicate Joins(f: Files, l: Lease) {
    && ValidBranch(l.branch)
    && (forall s :: Claim(f, s) ==> SameOwner(l, s.lease) || Apart(l, s.lease))
  }

  /** An intent that may be written now. */
  ghost predicate MayStage(f: Files, h: History, intent: Intent) {
    && f.registry.reclamation.None?
    && intent.record.lease.id !in f.registry.pending
    && WellFormed(intent) && (intent.operation.RemoveOp? ==> Announced(intent))
    && (intent.record.lease.id in f.registry.records ==> f.registry.records[intent.record.lease.id].active)
    && FreshRow(f, h.log, intent.recordId)
    && Joins(f, intent.record.lease)
  }

  function StagedHistory(h: History, intent: Intent): History {
    h.(clock := intent.record.updatedAt, orderly := h.orderly && intent.record.updatedAt >= h.clock)
  }

  lemma StageKeepsExclusive(f: Files, intent: Intent)
    requires Exclusive(f) && Joins(f, intent.record.lease)
    ensures Exclusive(Stage(f, intent))
  {
    hide ValidBranch;
    var g := Stage(f, intent);
    forall s | Claim(g, s)
      ensures s == intent.record || Claim(f, s)
    {
    }
    forall s, t | Claim(g, s) && Claim(g, t)
      ensures SameOwner(s.lease, t.lease) || Apart(s.lease, t.lease)
    {
      if s != intent.record && t == intent.record {
        assert SameOwner(t.lease, s.lease) || Apart(t.lease, s.lease);
      }
    }
  }

  lemma StageKeepsMap(f: Files, log: seq<Row>, intent: Intent)
    requires MapFollows(f, log) && intent.record.lease.id !in f.registry.pending
    ensures MapFollows(Stage(f, intent), log)
  {
    hide HasRow;
    var g := Stage(f, intent);
    forall id | Calm(g, log, id)
      ensures Agrees(g, id)
    {
      assert Calm(f, log, id);
      assert Agrees(f, id);
    }
  }

  lemma StageKeepsRest(f: Files, h: History, intent: Intent)
    requires Inv(f, h) && MayStage(f, h, intent)
    ensures Keyed(Stage(f, intent).registry)
    ensures RowsOnce(Stage(f, intent), h.log)
    ensures Covered(Stage(f, intent).registry)
    ensures RemovedAreGone(Stage(f, intent), h)
  {
    hide Exclusive, MapFollows, HasRow, DistinctRows, Joins, Continuity, Dated;
  }

  lemma StageKeepsHistory(f: Files, h: History, intent: Intent)
    requires Continuity(f, h.releases) && Dated(f, h) && intent.record.updatedAt >= h.clock
    requires intent.record.lease.id !in f.registry.pending
    ensures Continuity(Stage(f, intent), h.releases)
    ensures Dated(Stage(f, intent), StagedHistory(h, intent))
  {
    var g := Stage(f, intent);
    forall s | Known(g, s)
      ensures s == intent.record || Known(f, s)
    {
    }
    forall r | r in h.releases && !Present(g, r)
      ensures Remembered(g, r)
    {
      assert Remembered(f, r);
    }
  }

  lemma StageKeepsInv(f: Files, h: History, intent: Intent)
    requires Inv(f, h) && MayStage(f, h, intent)
    ensures Inv(Stage(f, intent), StagedHistory(h, intent))
  {
    StageKeepsRest(f, h, intent);
    hide Keyed, Exclusive, RowsOnce, KeysFit, MapFollows, Continuity, Dated, Covered, HasRow, WellFormed;
    StageKeepsExclusive(f, intent);
    if h.mapped {
      StageKeepsMap(f, h.log, intent);
    }
    if StagedHistory(h, intent).orderly {
      StageKeepsHistory(f, h, intent);
    }
  }

  // ----- a removal that has happened -----

  /** The files after the removal of an intent is marked as done. */
  function MarkDone(f: Files, id: string): Files
    requires id in f.registry.pending && f.registry.pending[id].removal.Some?
  {
    var intent := f.registry.pending[id];
    WithPending(f, f.registry.pending[id := intent.(removal := Some(Done(intent.removal.value.identity)))])
  }

  lemma MarkDoneKeepsRows(f: Files, h: History, id: string)
    requires id in f.registry.pending && f.registry.pending[id].removal.Some? && RowsOnce(f, h.log)
    ensures RowsOnce(MarkDone(f, id), h.log)
  {
    hide HasRow, DistinctRows;
    var g := MarkDone(f, id);
    forall i | i in g.registry.pending
      ensures RowAsIntended(g, h.log, g.registry.pending[i])
    {
      assert RowAsIntended(f, h.log, f.registry.pending[i]);
    }
  }

  lemma MarkDoneIsLocal(f: Files, id: string)
    requires id in f.registry.pending && f.registry.pending[id].removal.Some?
    ensures
      var g := MarkDone(f, id);
      && g.registry.pending.Keys == f.registry.pending.Keys && g.registry.records == f.registry.records
      && g.registry.reclaimedThrough == f.registry.reclaimedThrough
    ensures
      var g := MarkDone(f, id);
      forall i :: i in f.registry.pending && i != id ==> g.registry.pending[i] == f.registry.pending[i]
    ensures
      var intent := MarkDone(f, id).registry.pending[id];
      intent == f.registry.pending[id].(removal := intent.removal) && intent.removal.Some?
  {
  }

  /** Nothing of this looks at more than the records of the intents. */
  ghost predicate SameRecords(f: Files, g: Files) {
    && g.registry.records == f.registry.records && g.registry.reclaimedThrough == f.registry.reclaimedThrough
    && g.registry.pending.Keys == f.registry.pending.Keys
    && (forall id :: id in f.registry.pending ==> g.registry.pending[id].record == f.registry.pending[id].record)
  }

  lemma MarkDoneKeepsKeyed(f: Files, id: string)
    requires id in f.registry.pending && f.registry.pending[id].removal.Some? && Keyed(f.registry)
    ensures Keyed(MarkDone(f, id).registry)
    ensures SameRecords(f, MarkDone(f, id))
  {
    hide MarkDone;
    MarkDoneIsLocal(f, id);
    var r, q := f.registry, MarkDone(f, id).registry;
    forall i | i in q.pending
      ensures q.pending[i].record == r.pending[i].record && q.pending[i].recordId == r.pending[i].recordId
      ensures WellFormed(q.pending[i])
    {
      assert WellFormed(r.pending[i]);
    }
    hide WellFormed;
  }

  lemma MarkDoneKeepsRemovals(f: Files, h: History, id: string)
    requires id in f.registry.pending && f.registry.pending[id].removal.Some? && RemovedAreGone(f, h)
    ensures RemovedAreGone(MarkDone(f, id), h.(gone := h.gone + {id}))
  {
    hide HasRow;
    MarkDoneIsLocal(f, id);
    hide MarkDone;
  }

  lemma SameAgreement(f: Files, g: Files, id: string)
    requires Agrees(f, id) && g.registry.records == f.registry.records && g.active == f.active
    ensures Agrees(g, id)
  {
  }

  lemma MarkDoneKeepsMap(f: Files, log: seq<Row>, id: string)
    requires id in f.registry.pending && f.registry.pending[id].removal.Some? && MapFollows(f, log)
    ensures MapFollows(MarkDone(f, id), log)
  {
    hide HasRow, Agrees;
    var g := MarkDone(f, id);
    forall i | Calm(g, log, i)
      ensures Agrees(g, i)
    {
      assert Calm(f, log, i);
      SameAgreement(f, g, i);
    }
  }

  lemma SameClaims(f: Files, g: Files)
    requires Exclusive(f) && SameRecords(f, g)
    ensures Exclusive(g)
  {
    hide ValidBranch, SameOwner, Apart;
    assert forall s :: Claim(g, s) ==> Claim(f, s);
  }

  lemma SameCover(r: Registry, q: Registry)
    requires Covered(r) && q.records == r.records && q.reclamation == r.reclamation
      && q.reclaimedThrough == r.reclaimedThrough
    ensures Covered(q)
  {
    if r.reclamation.Some? {
      forall id | id in q.reclamation.value.leaseIds && id in q.records && !q.records[id].active
        ensures CoveredBy(q, q.reclamation.value.watermarks, q.records[id])
      {
        assert CoveredBy(r, r.reclamation.value.watermarks, r.records[id]);
      }
    }
  }

  lemma SameReleases(f: Files, g: Files, h: History, k: History)
    requires Continuity(f, h.releases) && Dated(f, h) && SameRecords(f, g)
    requires k.releases == h.releases && k.clock == h.clock
    ensures Continuity(g, k.releases) && Dated(g, k)
  {
    assert forall s :: Known(g, s) ==> Known(f, s);
    forall r | r in h.releases && !Present(g, r)
      ensures Remembered(g, r)
    {
      assert Remembered(f, r);
    }
  }

  lemma MarkDoneKeepsInv(f: Files, h: History, id: string)
    requires Inv(f, h) && id in f.registry.pending && f.registry.pending[id].removal.Some?
    ensures Inv(MarkDone(f, id), h.(gone := h.gone + {id}))
  {
    hide Keyed, Exclusive, RowsOnce, KeysFit, MapFollows, Continuity, Dated, Covered, RemovedAreGone, HasRow;
    hide WellFormed, SameRecords;
    var g := MarkDone(f, id);
    MarkDoneKeepsKeyed(f, id);
    MarkDoneKeepsRemovals(f, h, id);
    SameCover(f.registry, g.registry);
    MarkDoneKeepsRows(f, h, id);
    if h.mapped {
      MarkDoneKeepsMap(f, h.log, id);
    }
    SameClaims(f, g);
    if h.orderly {
      SameReleases(f, g, h, h.(gone := h.gone + {id}));
    }
  }

  // ----- the row of an intent -----

  function AppendedHistory(f: Files, h: History, intent: Intent): History {
    if HasRow(f.ledger, intent.recordId) then h
    else h.(log := h.log + [Row(intent.recordId, intent.record.lease)])
  }

  ghost predicate MayAppend(f: Files, h: History, id: string) {
    && id in f.registry.pending
    && (f.registry.pending[id].operation.RemoveOp? ==> id in h.gone)
  }

  lemma MemberHasRow(ledger: seq<Row>, row: Row)
    requires row in ledger
    ensures HasRow(ledger, row.recordId)
  {
  }

  lemma LedgerIsLogged(f: Files, h: History, recordId: string)
    requires Inv(f, h)
    ensures HasRow(f.ledger, recordId) ==> HasRow(h.log, recordId)
  {
    if HasRow(f.ledger, recordId) {
      var i :| 0 <= i < |f.ledger| && f.ledger[i].recordId == recordId;
      MemberHasRow(h.log, f.ledger[i]);
    }
  }

  lemma DistinctAppend(log: seq<Row>, row: Row)
    requires DistinctRows(log) && !HasRow(log, row.recordId)
    ensures DistinctRows(log + [row])
  {
  }

  lemma FreshRowKeepsRows(f: Files, log: seq<Row>, row: Row, id: string)
    requires RowsOnce(f, log) && OwnRows(f.registry.pending) && id in f.registry.pending
    requires row == Row(f.registry.pending[id].recordId, f.registry.pending[id].record.lease)
    requires !HasRow(log, row.recordId)
    ensures RowsOnce(f.(ledger := f.ledger + [row]), log + [row])
    ensures HasRow(log + [row], row.recordId)
  {
    AppendedRow(log, row);
    DistinctAppend(log, row);
    forall i | 0 <= i < |f.ledger|
      ensures f.ledger[i].recordId != row.recordId
    {
      MemberHasRow(log, f.ledger[i]);
    }
    assert forall i :: 0 <= i < |f.ledger + [row]| ==> (f.ledger + [row])[i] in log + [row];
    var g := f.(ledger := f.ledger + [row]);
    assert forall r :: r in f.ledger ==> r in g.ledger;
    forall i | i in f.registry.pending
      ensures RowAsIntended(g, log + [row], f.registry.pending[i])
    {
      assert RowAsIntended(f, log, f.registry.pending[i]);
      assert g.ledger[|f.ledger|] == row;
    }
  }

  lemma AppendKeepsRows(f: Files, h: History, id: string)
    requires RowsOnce(f, h.log) && OwnRows(f.registry.pending) && id in f.registry.pending
    ensures RowsOnce(AppendRow(f, f.registry.pending[id]), AppendedHistory(f, h, f.registry.pending[id]).log)
    ensures HasRow(AppendedHistory(f, h, f.registry.pending[id]).log, f.registry.pending[id].recordId)
    ensures
      var intent := f.registry.pending[id];
      Row(intent.recordId, intent.record.lease) in AppendRow(f, intent).ledger
  {
    var intent := f.registry.pending[id];
    var row := Row(intent.recordId, intent.record.lease);
    assert RowAsIntended(f, h.log, intent);
    if HasRow(f.ledger, intent.recordId) {
      var i :| 0 <= i < |f.ledger| && f.ledger[i].recordId == intent.recordId;
      MemberHasRow(h.log, f.ledger[i]);
    } else {
      if row in f.ledger {
        MemberHasRow(f.ledger, row);
      }
      FreshRowKeepsRows(f, h.log, row, id);
    }
  }

  lemma AppendKeepsMap(f: Files, h: History, intent: Intent)
    requires MapFollows(f, h.log)
    ensures MapFollows(AppendRow(f, intent), AppendedHistory(f, h, intent).log)
  {
    hide Agrees;
    var g := AppendRow(f, intent);
    var k := AppendedHistory(f, h, intent);
    AppendedRow(h.log, Row(intent.recordId, intent.record.lease));
    hide HasRow;
    forall i | Calm(g, k.log, i)
      ensures Agrees(g, i)
    {
      assert Calm(f, h.log, i);
      SameAgreement(f, g, i);
    }
  }

  lemma AppendKeepsRemovals(f: Files, h: History, id: string)
    requires RemovedAreGone(f, h) && MayAppend(f, h, id) && OwnRows(f.registry.pending)
    ensures RemovedAreGone(AppendRow(f, f.registry.pending[id]), AppendedHistory(f, h, f.registry.pending[id]))
  {
    var intent := f.registry.pending[id];
    AppendedRow(h.log, Row(intent.recordId, intent.record.lease));
    hide HasRow;
  }

  lemma AppendKeepsInv(f: Files, h: History, id: string)
    requires Inv(f, h) && MayAppend(f, h, id)
    ensures Inv(AppendRow(f, f.registry.pending[id]), AppendedHistory(f, h, f.registry.pending[id]))
    ensures HasRow(AppendedHistory(f, h, f.registry.pending[id]).log, f.registry.pending[id].recordId)
  {
    var intent := f.registry.pending[id];
    var g := AppendRow(f, intent);
    var k := AppendedHistory(f, h, intent);
    assert OwnRows(f.registry.pending) && SameRecords(f, g);
    hide Keyed, Exclusive, RowsOnce, KeysFit, MapFollows, Continuity, Dated, Covered, RemovedAreGone, HasRow;
    hide WellFormed, OwnRows, SameRecords;
    AppendKeepsRows(f, h, id);
    if h.mapped {
      AppendKeepsMap(f, h, intent);
    }
    AppendKeepsRemovals(f, h, id);
    SameClaims(f, g);
    if h.orderly {
      SameReleases(f, g, h, k);
    }
    assert Covered(g.registry);
  }

  // ----- the record of an intent -----

  function StoredHistory(h: History, intent: Intent): History {
    if intent.record.active then h
    else h.(
      releases := h.releases + {ReleaseOf(intent.record)},
      removed := if intent.operation.RemoveOp? then h.removed + {intent.record.lease.id} else h.removed)
  }

  /** The row is written, so the record may follow. */
  ghost predicate MayStore(f: Files, h: History, id: string) {
    id in f.registry.pending && HasRow(h.log, f.registry.pending[id].recordId) && f.registry.reclamation.None?
  }

  lemma StoreKeepsHistory(f: Files, h: History, id: string)
    requires Continuity(f, h.releases) && Dated(f, h) && Keyed(f.registry) && id in f.registry.pending
    ensures Continuity(StoreRecord(f, f.registry.pending[id]), StoredHistory(h, f.registry.pending[id]).releases)
    ensures Dated(StoreRecord(f, f.registry.pending[id]), StoredHistory(h, f.registry.pending[id]))
  {
    var intent := f.registry.pending[id];
    var g := StoreRecord(f, intent);
    assert forall s :: Known(g, s) ==> Known(f, s);
    assert Known(f, intent.record);
    forall r | r in h.releases && !Present(g, r)
      ensures Remembered(g, r)
    {
      assert !Present(f, r);
      assert Remembered(f, r);
    }
    assert !intent.record.active ==> Present(g, ReleaseOf(intent.record));
  }

  lemma StoreKeepsMap(f: Files, log: seq<Row>, id: string)
    requires MapFollows(f, log) && Keyed(f.registry) && id in f.registry.pending
    requires HasRow(log, f.registry.pending[id].recordId)
    ensures MapFollows(StoreRecord(f, f.registry.pending[id]), log)
  {
    hide HasRow;
    var g := StoreRecord(f, f.registry.pending[id]);
    forall i | Calm(g, log, i)
      ensures Agrees(g, i)
    {
      assert Calm(f, log, i);
      assert Agrees(f, i);
      assert i != id;
    }
  }

  lemma StoreKeepsRest(f: Files, h: History, id: string)
    requires Keyed(f.registry) && RowsOnce(f, h.log) && RemovedAreGone(f, h) && MayStore(f, h, id)
    ensures Keyed(StoreRecord(f, f.registry.pending[id]).registry)
    ensures RowsOnce(StoreRecord(f, f.registry.pending[id]), h.log)
    ensures Covered(StoreRecord(f, f.registry.pending[id]).registry)
    ensures RemovedAreGone(StoreRecord(f, f.registry.pending[id]), StoredHistory(h, f.registry.pending[id]))
  {
    hide HasRow, DistinctRows;
  }

  lemma StoreKeepsExclusive(f: Files, id: string)
    requires Exclusive(f) && Keyed(f.registry) && id in f.registry.pending
    ensures Exclusive(StoreRecord(f, f.registry.pending[id]))
  {
    hide ValidBranch, SameOwner, Apart, WellFormed;
    var g := StoreRecord(f, f.registry.pending[id]);
    assert forall s :: Claim(g, s) ==> Claim(f, s);
  }

  lemma StoreKeepsInv(f: Files, h: History, id: string)
    requires Inv(f, h) && MayStore(f, h, id)
    ensures Inv(StoreRecord(f, f.registry.pending[id]), StoredHistory(h, f.registry.pending[id]))
  {
    hide Keyed, Exclusive, RowsOnce, KeysFit, MapFollows, Continuity, Dated, Covered, RemovedAreGone, HasRow;
    hide WellFormed;
    StoreKeepsRest(f, h, id);
    if h.mapped {
      StoreKeepsMap(f, h.log, id);
    }
    if h.orderly {
      StoreKeepsHistory(f, h, id);
    }
    StoreKeepsExclusive(f, id);
  }

  // ----- the active map -----

  /** Leases that share no branch share no key. */
  lemma ExclusiveIsKeyable(f: Files)
    requires Exclusive(f) && Keyed(f.registry)
    ensures Keyable(f.registry.records)
  {
    hide ValidBranch, MapKey, WellFormed;
    var records := f.registry.records;
    forall i, j | i in records && j in records && records[i].active && records[j].active && i != j
      ensures MapKey(records[i].lease) != MapKey(records[j].lease)
    {
      assert Claim(f, records[i]) && Claim(f, records[j]);
      if MapKey(records[i].lease) == MapKey(records[j].lease) {
        MapKeyIsInjective(records[i].lease, records[j].lease);
      }
    }
  }

  lemma WriteMapKeepsRest(f: Files, h: History)
    requires Keyed(f.registry) && RowsOnce(f, h.log) && Covered(f.registry) && RemovedAreGone(f, h)
    ensures Keyed(WriteMap(f).registry) && RowsOnce(WriteMap(f), h.log) && Covered(WriteMap(f).registry)
    ensures RemovedAreGone(WriteMap(f), h)
    ensures SameRecords(f, WriteMap(f))
  {
    hide HasRow, DistinctRows, ActiveMap, WellFormed;
  }

  lemma ActiveMapAgrees(f: Files)
    requires IsActiveMap(f.active, f.registry.records) && Keyed(f.registry)
    ensures forall id :: Agrees(f, id)
    ensures forall k :: k in f.active ==> MapKey(f.active[k]) == k && f.active[k].id in f.registry.records
  {
    hide MapKey, OwnRows, WellFormed;
    forall k | k in f.active
      ensures FromActive(f.registry.records, k, f.active[k])
    {
    }
  }

  lemma SamePast(f: Files, h: History, k: History)
    requires k == h.(mapped := k.mapped)
    requires RemovedAreGone(f, h)
    requires h.orderly ==> Continuity(f, h.releases) && Dated(f, h)
    ensures RemovedAreGone(f, k)
    ensures k.orderly ==> Continuity(f, k.releases) && Dated(f, k)
  {
    hide Continuity, HasRow;
  }

  lemma WriteMapKeepsInv(f: Files, h: History)
    requires Inv(f, h)
    ensures Keyable(f.registry.records)
    ensures Inv(WriteMap(f), h.(mapped := true))
    ensures IsActiveMap(WriteMap(f).active, f.registry.records)
  {
    hide Exclusive, RowsOnce, Continuity, Dated, Covered, RemovedAreGone, HasRow, WellFormed, Keyed, SameRecords;
    hide ActiveMap, IsActiveMap, Keyable, Agrees, MapKey;
    var g, k := WriteMap(f), h.(mapped := true);
    ExclusiveIsKeyable(f);
    WriteMapKeepsRest(f, h);
    SameClaims(f, g);
    if h.orderly {
      SameReleases(f, g, h, h);
    }
    ActiveMapAgrees(g);
    assert MapFollows(g, h.log) && KeysFit(g.active);
    SamePast(g, h, k);
  }

  // ----- an intent leaves -----

  /** All three files have followed the intent. */
  ghost predicate Carried(f: Files, id: string) {
    && id in f.registry.pending && id in f.registry.records && f.registry.records[id] == f.registry.pending[id].record
    && IsActiveMap(f.active, f.registry.records)
  }

  /** Nothing but the intent itself was written. */
  ghost predicate Untouched(f: Files, h: History, id: string) {
    id in f.registry.pending && !HasRow(h.log, f.registry.pending[id].recordId)
  }

  lemma UnstageKeepsMap(f: Files, h: History, id: string)
    requires MapFollows(f, h.log) && Keyed(f.registry) && (Carried(f, id) || Untouched(f, h, id))
    ensures MapFollows(Unstage(f, id), h.log)
  {
    hide HasRow, MapKey, OwnRows, WellFormed;
    var g := Unstage(f, id);
    if Carried(f, id) {
      ActiveMapAgrees(f);
      forall i
        ensures Agrees(g, i)
      {
        SameAgreement(f, g, i);
      }
    } else {
      assert Calm(f, h.log, id);
      forall i | Calm(g, h.log, i)
        ensures Agrees(g, i)
      {
        assert Calm(f, h.log, i);
        SameAgreement(f, g, i);
      }
      assert Agrees(f, id);
      assert forall k :: k in f.active && f.active[k].id == id ==> FromActive(f.registry.records, k, f.active[k]);
    }
  }

  lemma UnstageKeepsHistory(f: Files, h: History, id: string)
    requires Continuity(f, h.releases) && Dated(f, h)
    ensures Continuity(Unstage(f, id), h.releases) && Dated(Unstage(f, id), h)
  {
    var g := Unstage(f, id);
    assert forall s :: Known(g, s) ==> Known(f, s);
    forall r | r in h.releases && !Present(g, r)
      ensures Remembered(g, r)
    {
      assert Remembered(f, r);
    }
  }

  lemma UnstageKeepsExclusive(f: Files, id: string)
    requires Exclusive(f)
    ensures Exclusive(Unstage(f, id))
  {
    hide ValidBranch, SameOwner, Apart;
    var g := Unstage(f, id);
    assert forall s :: Claim(g, s) ==> Claim(f, s);
  }

  lemma UnstageKeepsRest(f: Files, h: History, id: string)
    requires Keyed(f.registry) && RowsOnce(f, h.log) && Covered(f.registry) && RemovedAreGone(f, h)
    ensures Keyed(Unstage(f, id).registry) && RowsOnce(Unstage(f, id), h.log) && Covered(Unstage(f, id).registry)
    ensures RemovedAreGone(Unstage(f, id), h)
  {
    hide HasRow, DistinctRows, WellFormed;
  }

  lemma UnstageKeepsInv(f: Files, h: History, id: string)
    requires Inv(f, h) && (Carried(f, id) || Untouched(f, h, id))
    ensures Inv(Unstage(f, id), h)
  {
    hide Keyed, Exclusive, RowsOnce, KeysFit, MapFollows, Continuity, Dated, Covered, RemovedAreGone, HasRow;
    hide WellFormed, Carried, Untouched;
    if h.mapped {
      UnstageKeepsMap(f, h, id);
    }
    if h.orderly {
      UnstageKeepsHistory(f, h, id);
    }
    UnstageKeepsExclusive(f, id);
    UnstageKeepsRest(f, h, id);
  }

  // ----- a removal is called off -----

  function CalledOffHistory(f: Files, h: History, id: string): History {
    h.(mapped := h.mapped && !IsStale(f, id))
  }

  /** The map is right about the lease of a removal exactly unless the lease is stale. */
  lemma StaleIsWrong(f: Files, h: History, id: string)
    requires Keyed(f.registry) && MapFollows(f, h.log)
    requires id in f.registry.pending && f.registry.pending[id].operation.RemoveOp?
    ensures Agrees(f, id) <==> !IsStale(f, id)
  {
    hide HasRow, MapKey, OwnRows;
    if Calm(f, h.log, id) {
      assert Agrees(f, id);
    } else {
      assert WellFormed(f.registry.pending[id]) && !f.registry.records[id].active;
    }
  }

  lemma CallOffKeepsMap(f: Files, h: History, id: string)
    requires MapFollows(f, h.log) && id in f.registry.pending && Agrees(f, id)
    ensures MapFollows(Unstage(f, id), h.log)
  {
    hide HasRow, MapKey;
    var g := Unstage(f, id);
    forall k | k in g.active
      ensures IsKnownId(g, g.active[k].id)
    {
      if f.active[k].id == id {
        assert FromActive(f.registry.records, k, f.active[k]);
      }
    }
    hide Agrees;
    forall i | Calm(g, h.log, i)
      ensures Agrees(g, i)
    {
      if i != id {
        assert Calm(f, h.log, i);
      }
      SameAgreement(f, g, i);
    }
  }

  /** Calling a removal off keeps everything, whatever of it is written, but for the active map, which may
      be left with a stale entry. */
  lemma CallOffKeepsInv(f: Files, h: History, id: string)
    requires Inv(f, h) && id in f.registry.pending && f.registry.pending[id].operation.RemoveOp?
    ensures Inv(Unstage(f, id), CalledOffHistory(f, h, id))
  {
    hide Keyed, Exclusive, RowsOnce, KeysFit, MapFollows, Continuity, Dated, Covered, RemovedAreGone, HasRow;
    hide WellFormed, IsStale, Agrees;
    if h.mapped && !IsStale(f, id) {
      StaleIsWrong(f, h, id);
      CallOffKeepsMap(f, h, id);
    }
    if h.orderly {
      UnstageKeepsHistory(f, h, id);
    }
    UnstageKeepsExclusive(f, id);
    UnstageKeepsRest(f, h, id);
    SamePast(Unstage(f, id), h, CalledOffHistory(f, h, id));
  }
}
