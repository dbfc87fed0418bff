/** Reclaiming the history of released leases: which rows retention must keep, the watermarks it leaves
    behind, and why continuing a task never falls for an older release. */
module LeaseReclamation {
  import opened Wrappers
  import opened WorktreeLeases
  import opened LeaseRecovery
  import opened LeaseInvariants

  // ----- the rows that stay -----

  /** The first row of its lease. */
  predicate FirstOf(ledger: seq<Row>, i: nat)
    requires i < |ledger|
  {
    forall j :: 0 <= j < i ==> ledger[j].lease.id != ledger[i].lease.id
  }

  /** The last row of its lease. */
  predicate LastOf(ledger: seq<Row>, i: nat)
    requires i < |ledger|
  {
    forall j :: i < j < |ledger| ==> ledger[j].lease.id != ledger[i].lease.id
  }

  /** The lease rows that retention may not take: rows of leases the registry does not know, the row of an
      intent, the first and the last row of a lease in use, and the last row of a lease released recently. */
  predicate Pinned(f: Files, i: nat, oldest: Option<int>)
    requires i < |f.ledger|
  {
    var id := f.ledger[i].lease.id;
    var r := f.registry;
    || (id !in r.records && id !in r.pending)
    || (id in r.pending && r.pending[id].recordId == f.ledger[i].recordId)
    || (((id in r.records && r.records[id].active) || id in r.pending) && (FirstOf(f.ledger, i) || LastOf(f.ledger, i)))
    || (id in r.records && !r.records[id].active && LastOf(f.ledger, i)
         && (oldest.None? || r.records[id].updatedAt >= oldest.value))
  }

  /** A selection of rows, by position, that holds the pinned ones. */
  ghost predicate KeepsPinned(f: Files, oldest: Option<int>, keep: set<nat>) {
    forall i: nat :: i < |f.ledger| && Pinned(f, i, oldest) ==> i in keep
  }

  function KeepRows(ledger: seq<Row>, keep: set<nat>): (kept: seq<Row>)
    decreases |ledger|
  {
    if ledger == [] then []
    else
      var n := |ledger| - 1;
      KeepRows(ledger[..n], keep) + if n in keep then [ledger[n]] else []
  }

  lemma KeepLast(ledger: seq<Row>, keep: set<nat>)
    requires ledger != []
    ensures
      var n := |ledger| - 1;
      KeepRows(ledger, keep) == KeepRows(ledger[..n], keep) + if n in keep then [ledger[n]] else []
  {
  }

  lemma DistinctFront(ledger: seq<Row>)
    requires ledger != [] && DistinctRows(ledger)
    ensures
      var n := |ledger| - 1;
      DistinctRows(ledger[..n]) && forall r :: r in ledger[..n] ==> r.recordId != ledger[n].recordId
  {
    var front := ledger[..|ledger| - 1];
    assert forall i :: 0 <= i < |front| ==> front[i] == ledger[i];
  }

  lemma DistinctMore(rows: seq<Row>, row: Row)
    requires DistinctRows(rows) && forall r :: r in rows ==> r.recordId != row.recordId
    ensures DistinctRows(rows + [row])
  {
  }

  lemma {:induction false} KeptRows(ledger: seq<Row>, keep: set<nat>)
    ensures forall i: nat :: i < |ledger| && i in keep ==> ledger[i] in KeepRows(ledger, keep)
    ensures forall r :: r in KeepRows(ledger, keep) ==> r in ledger
    ensures DistinctRows(ledger) ==> DistinctRows(KeepRows(ledger, keep))
    decreases |ledger|
  {
    if ledger != [] {
      hide DistinctRows, KeepRows;
      var n := |ledger| - 1;
      var front := ledger[..n];
      KeptRows(front, keep);
      KeepLast(ledger, keep);
      forall i: nat | i < |ledger| && i in keep
        ensures ledger[i] in KeepRows(ledger, keep)
      {
        if i < n {
          assert front[i] == ledger[i];
        }
      }
      if DistinctRows(ledger) {
        DistinctFront(ledger);
        if n in keep {
          DistinctMore(KeepRows(front, keep), ledger[n]);
        }
      }
    }
  }

  function Compact(f: Files, keep: set<nat>): Files {
    f.(ledger := KeepRows(f.ledger, keep))
  }

  lemma CompactKeepsRows(f: Files, log: seq<Row>, oldest: Option<int>, keep: set<nat>)
    requires RowsOnce(f, log) && Keyed(f.registry) && KeepsPinned(f, oldest, keep)
    ensures RowsOnce(Compact(f, keep), log)
  {
    hide HasRow, DistinctRows, KeepRows, WellFormed;
    var g := Compact(f, keep);
    KeptRows(f.ledger, keep);
    forall i | 0 <= i < |g.ledger|
      ensures g.ledger[i] in log
    {
      assert g.ledger[i] in f.ledger;
    }
    forall id | id in f.registry.pending
      ensures RowAsIntended(g, log, f.registry.pending[id])
    {
      var intent := f.registry.pending[id];
      var row := Row(intent.recordId, intent.record.lease);
      assert RowAsIntended(f, log, intent);
      if HasRow(log, intent.recordId) {
        var i: nat :| i < |f.ledger| && f.ledger[i] == row;
        assert Pinned(f, i, oldest);
      }
    }
  }

  lemma SameLedgerMap(f: Files, g: Files, log: seq<Row>)
    requires MapFollows(f, log) && g.registry.records == f.registry.records && g.registry.pending == f.registry.pending
    requires g.active == f.active
    ensures MapFollows(g, log)
  {
    hide Agrees, HasRow;
    forall id | Calm(g, log, id)
      ensures Agrees(g, id)
    {
      assert Calm(f, log, id);
      SameAgreement(f, g, id);
    }
  }

  /** Compaction keeps the invariant, and with it the row of every intent. */
  lemma CompactKeepsInv(f: Files, h: History, oldest: Option<int>, keep: set<nat>)
    requires Inv(f, h) && KeepsPinned(f, oldest, keep)
    ensures Inv(Compact(f, keep), h)
  {
    var g := Compact(f, keep);
    assert SameRecords(f, g);
    assert RemovedAreGone(g, h);
    hide Keyed, Exclusive, RowsOnce, KeysFit, MapFollows, Continuity, Dated, Covered, RemovedAreGone, HasRow;
    hide WellFormed, SameRecords, KeepsPinned, KeepRows;
    CompactKeepsRows(f, h.log, oldest, keep);
    if h.mapped {
      SameLedgerMap(f, g, h.log);
    }
    SameClaims(f, g);
    if h.orderly {
      SameReleases(f, g, h, h);
    }
  }

  /** The evidence of a lease in use survives: its first and its last row are still there. */
  lemma EvidenceSurvives(f: Files, oldest: Option<int>, keep: set<nat>, i: nat)
    requires KeepsPinned(f, oldest, keep) && i < |f.ledger| && (FirstOf(f.ledger, i) || LastOf(f.ledger, i))
    requires f.ledger[i].lease.id in f.registry.records && f.registry.records[f.ledger[i].lease.id].active
    ensures f.ledger[i] in Compact(f, keep).ledger
  {
    KeptRows(f.ledger, keep);
    assert Pinned(f, i, oldest);
  }

  /** What survives besides: rows of leases the registry does not know, the row of an intent, the first and the last
      row of a lease that is pending, and the last row of a lease released no longer ago than the limit. */
  lemma RowSurvives(f: Files, oldest: Option<int>, keep: set<nat>, i: nat)
    requires KeepsPinned(f, oldest, keep) && i < |f.ledger|
    requires
      var row, r := f.ledger[i], f.registry;
      var id := row.lease.id;
      var isFirst := forall j :: 0 <= j < i ==> f.ledger[j].lease.id != id;
      var isLast := forall j :: i < j < |f.ledger| ==> f.ledger[j].lease.id != id;
      || (id !in r.records && id !in r.pending)
      || (id in r.pending && (r.pending[id].recordId == row.recordId || isFirst || isLast))
      || (id in r.records && !r.records[id].active && isLast
          && (oldest == None || oldest.value <= r.records[id].updatedAt))
    ensures f.ledger[i] in Compact(f, keep).ledger
  {
    KeptRows(f.ledger, keep);
    assert Pinned(f, i, oldest);
  }

  // ----- what is reclaimed -----

  predicate RowOf(ledger: seq<Row>, id: string) {
    exists i :: 0 <= i < |ledger| && ledger[i].lease.id == id
  }

  predicate RowOfKept(ledger: seq<Row>, keep: set<nat>, id: string) {
    exists i: nat :: i < |ledger| && ledger[i].lease.id == id && i in keep
  }

  /** The released leases that lose their last row. */
  function Reclaimed(f: Files, keep: set<nat>): set<string> {
    set id | id in f.registry.records && !f.registry.records[id].active && id !in f.registry.pending
      && RowOf(f.ledger, id) && !RowOfKept(f.ledger, keep, id)
  }

  lemma RowsMore(ledger: seq<Row>, keep: set<nat>, id: string)
    requires ledger != []
    ensures
      var n := |ledger| - 1;
      RowOfKept(ledger, keep, id) <==> RowOfKept(ledger[..n], keep, id) || (n in keep && ledger[n].lease.id == id)
    ensures forall rows: seq<Row>, row :: RowOf(rows + [row], id) <==> RowOf(rows, id) || row.lease.id == id
    ensures forall rows: seq<Row> :: RowOf(rows + [], id) <==> RowOf(rows, id)
  {
    forall rows: seq<Row>, row: Row
      ensures RowOf(rows + [row], id) <==> RowOf(rows, id) || row.lease.id == id
    {
      var more := rows + [row];
      assert more[|rows|] == row;
      assert forall i :: 0 <= i < |rows| ==> more[i] == rows[i];
    }
    assert forall rows: seq<Row> :: rows + [] == rows;
  }

  lemma {:induction false} KeptRowsOf(ledger: seq<Row>, keep: set<nat>, id: string)
    ensures RowOfKept(ledger, keep, id) <==> RowOf(KeepRows(ledger, keep), id)
    decreases |ledger|
  {
    if ledger != [] {
      hide KeepRows;
      var n := |ledger| - 1;
      KeptRowsOf(ledger[..n], keep, id);
      KeepLast(ledger, keep);
      RowsMore(ledger, keep, id);
    }
  }

  /** Reclaimed are exactly the leases that are released, are in no intent, have a row, and will have none once the
      ledger is compacted. */
  lemma ReclaimedExactly(f: Files, keep: set<nat>, id: string)
    ensures id in Reclaimed(f, keep) <==>
      && id in f.registry.records && !f.registry.records[id].active && id !in f.registry.pending
      && (exists row :: row in f.ledger && row.lease.id == id)
      && forall row :: row in KeepRows(f.ledger, keep) ==> row.lease.id != id
  {
    KeptRowsOf(f.ledger, keep, id);
    hide KeepRows, RowOfKept;
  }

  ghost predicate MarkedBy(r: Registry, ids: set<string>, key: Continuation, at: int) {
    exists id ::
      id in ids && id in r.records && ContinuationOf(r.records[id].request) == key && r.records[id].updatedAt == at
  }

  /** The watermarks: for each continuation the latest release taken away, if it is later than the
      watermark that stands. */
  ghost predicate AreWatermarks(r: Registry, ids: set<string>, marks: map<Continuation, int>) {
    && (forall id :: id in ids && id in r.records ==> CoveredBy(r, marks, r.records[id]))
    && (forall key :: key in marks ==>
         MarkedBy(r, ids, key, marks[key]) && !AtLeast(r.reclaimedThrough, key, marks[key]))
  }

  lemma RaiseMark(r: Registry, ids: set<string>, marks: map<Continuation, int>, id: string,
                  raised: map<Continuation, int>)
    requires AreWatermarks(r, ids, marks) && id in r.records
    requires
      var s := r.records[id];
      var key := ContinuationOf(s.request);
      raised ==
        if !AtLeast(marks, key, s.updatedAt) && (key in marks || !AtLeast(r.reclaimedThrough, key, s.updatedAt))
        then marks[key := s.updatedAt]
        else marks
    ensures AreWatermarks(r, ids + {id}, raised)
  {
    forall key | key in raised
      ensures MarkedBy(r, ids + {id}, key, raised[key]) && !AtLeast(r.reclaimedThrough, key, raised[key])
    {
      if key in marks && raised[key] == marks[key] {
        assert MarkedBy(r, ids, key, marks[key]);
      }
    }
    forall i | i in ids && i in r.records
      ensures CoveredBy(r, raised, r.records[i])
    {
      assert CoveredBy(r, marks, r.records[i]);
    }
  }

  method CollectWatermarks(r: Registry, ids: set<string>) returns (marks: map<Continuation, int>)
    requires forall id :: id in ids ==> id in r.records
    ensures AreWatermarks(r, ids, marks)
  {
    marks := map[];
    var rest := ids;
    while rest != {}
      invariant rest <= ids
      invariant AreWatermarks(r, ids - rest, marks)
      decreases |rest|
    {
      var id :| id in rest;
      var s := r.records[id];
      var key := ContinuationOf(s.request);
      ghost var before := marks;
      ghost var done := ids - rest;
      if !AtLeast(marks, key, s.updatedAt) && (key in marks || !AtLeast(r.reclaimedThrough, key, s.updatedAt)) {
        marks := marks[key := s.updatedAt];
      }
      RaiseMark(r, done, before, id, marks);
      assert done + {id} == ids - (rest - {id});
      rest := rest - {id};
    }
    assert ids - rest == ids;
  }

  function StageReclamation(f: Files, reclamation: Reclamation): Files {
    f.(registry := f.registry.(reclamation := Some(reclamation)))
  }

  lemma StageReclamationKeepsInv(f: Files, h: History, ids: set<string>, marks: map<Continuation, int>)
    requires Inv(f, h) && AreWatermarks(f.registry, ids, marks)
    ensures Inv(StageReclamation(f, Reclamation(ids, marks)), h)
  {
    var g := StageReclamation(f, Reclamation(ids, marks));
    assert SameRecords(f, g);
    assert Keyed(g.registry) && RowsOnce(g, h.log) && RemovedAreGone(g, h) && Covered(g.registry);
    hide Keyed, Exclusive, RowsOnce, KeysFit, MapFollows, Continuity, Dated, Covered, RemovedAreGone, HasRow;
    hide SameRecords;
    if h.mapped {
      SameLedgerMap(f, g, h.log);
    }
    SameClaims(f, g);
    if h.orderly {
      SameReleases(f, g, h, h);
    }
  }

  // ----- taking the releases away -----

  /** The release may go now: it is still released, nothing is pending for it, and it has no row left. */
  predicate MayReclaim(f: Files, id: string) {
    && id in f.registry.records && !f.registry.records[id].active && id !in f.registry.pending
    && !RowOf(f.ledger, id)
  }

  function Raise(times: map<Continuation, int>, marks: map<Continuation, int>,
                 key: Continuation): map<Continuation, int>
  {
    if key in marks && !AtLeast(times, key, marks[key]) then times[key := marks[key]] else times
  }

  function WithMarks(f: Files, times: map<Continuation, int>): Files {
    f.(registry := f.registry.(reclaimedThrough := times))
  }

  /** One release leaves the registry, and its watermark is raised. */
  function Reclaim(f: Files, marks: map<Continuation, int>, id: string): Files
    requires id in f.registry.records
  {
    var r := f.registry;
    f.(registry := r.(
      records := r.records - {id},
      reclaimedThrough := Raise(r.reclaimedThrough, marks, ContinuationOf(r.records[id].request))))
  }

  lemma RaiseOnlyRaises(times: map<Continuation, int>, marks: map<Continuation, int>, key: Continuation,
                        other: Continuation, at: int)
    requires AtLeast(times, other, at)
    ensures AtLeast(Raise(times, marks, key), other, at)
  {
  }

  lemma ReclaimKeepsHistory(f: Files, h: History, marks: map<Continuation, int>, id: string)
    requires Continuity(f, h.releases) && Dated(f, h) && MayReclaim(f, id) && f.registry.records[id].lease.id == id
    requires CoveredBy(f.registry, marks, f.registry.records[id])
    ensures Continuity(Reclaim(f, marks, id), h.releases) && Dated(Reclaim(f, marks, id), h)
  {
    var g := Reclaim(f, marks, id);
    assert forall s :: Known(g, s) ==> Known(f, s);
    forall r | r in h.releases && !Present(g, r)
      ensures Remembered(g, r)
    {
      if Present(f, r) {
        assert r == ReleaseOf(f.registry.records[id]);
        assert AtLeast(g.registry.reclaimedThrough, r.key, r.at);
      } else {
        assert Remembered(f, r);
        if AtLeast(f.registry.reclaimedThrough, r.key, r.at) {
          RaiseOnlyRaises(f.registry.reclaimedThrough, marks, ContinuationOf(f.registry.records[id].request), r.key,
            r.at);
        }
      }
    }
  }

  lemma ReclaimKeepsMap(f: Files, h: History, marks: map<Continuation, int>, id: string)
    requires MapFollows(f, h.log) && MayReclaim(f, id)
    ensures MapFollows(Reclaim(f, marks, id), h.log)
  {
    hide HasRow, RowOf, Raise, MapKey;
    var g := Reclaim(f, marks, id);
    assert Calm(f, h.log, id);
    assert Agrees(f, id);
    forall i | Calm(g, h.log, i)
      ensures Agrees(g, i)
    {
      assert Calm(f, h.log, i);
      assert Agrees(f, i);
    }
  }

  lemma ReclaimKeepsRest(f: Files, h: History, marks: map<Continuation, int>, id: string)
    requires Keyed(f.registry) && RowsOnce(f, h.log) && RemovedAreGone(f, h) && Exclusive(f)
    requires f.registry.reclamation.None? && MayReclaim(f, id)
    ensures Keyed(Reclaim(f, marks, id).registry) && RowsOnce(Reclaim(f, marks, id), h.log)
    ensures RemovedAreGone(Reclaim(f, marks, id), h) && Covered(Reclaim(f, marks, id).registry)
    ensures Exclusive(Reclaim(f, marks, id))
  {
    hide HasRow, DistinctRows, Raise, SameOwner, Apart, ValidBranch, WellFormed, RowOf;
    var g := Reclaim(f, marks, id);
    assert forall s :: Claim(g, s) ==> Claim(f, s);
  }

  lemma ReclaimKeepsInv(f: Files, h: History, marks: map<Continuation, int>, id: string)
    requires Inv(f, h) && MayReclaim(f, id) && f.registry.reclamation.None?
    requires CoveredBy(f.registry, marks, f.registry.records[id])
    ensures Inv(Reclaim(f, marks, id), h)
  {
    assert f.registry.records[id].lease.id == id;
    hide Keyed, Exclusive, RowsOnce, KeysFit, MapFollows, Continuity, Dated, Covered, RemovedAreGone, HasRow;
    hide MayReclaim;
    if h.orderly {
      ReclaimKeepsHistory(f, h, marks, id);
    }
    if h.mapped {
      ReclaimKeepsMap(f, h, marks, id);
    }
    ReclaimKeepsRest(f, h, marks, id);
  }

  /** Somebody known is no newer than the watermark, so that it must stand. */
  ghost predicate Needed(f: Files, key: Continuation) {
    && key in f.registry.reclaimedThrough
    && exists s :: Known(f, s) && ContinuationOf(s.request) == key && s.updatedAt <= f.registry.reclaimedThrough[key]
  }

  predicate NotNewer(s: StoredLease, key: Continuation, at: int) {
    ContinuationOf(s.request) == key && s.updatedAt <= at
  }

  predicate IsNeeded(r: Registry, key: Continuation)
    requires key in r.reclaimedThrough
  {
    || (exists id :: id in r.records && NotNewer(r.records[id], key, r.reclaimedThrough[key]))
    || (exists id :: id in r.pending && NotNewer(r.pending[id].record, key, r.reclaimedThrough[key]))
  }

  lemma NeededIsNeeded(f: Files, key: Continuation)
    requires Keyed(f.registry) && key in f.registry.reclaimedThrough
    ensures IsNeeded(f.registry, key) == Needed(f, key)
  {
    var r := f.registry;
    if id :| id in r.records && NotNewer(r.records[id], key, r.reclaimedThrough[key]) {
      assert Known(f, r.records[id]);
    }
    if id :| id in r.pending && NotNewer(r.pending[id].record, key, r.reclaimedThrough[key]) {
      assert Known(f, r.pending[id].record);
    }
  }

  lemma DropMarkKeepsRest(f: Files, h: History, key: Continuation)
    requires Keyed(f.registry) && RowsOnce(f, h.log) && RemovedAreGone(f, h) && Exclusive(f)
    requires f.registry.reclamation.None?
    ensures Keyed(WithMarks(f, f.registry.reclaimedThrough - {key}).registry)
    ensures RowsOnce(WithMarks(f, f.registry.reclaimedThrough - {key}), h.log)
    ensures RemovedAreGone(WithMarks(f, f.registry.reclaimedThrough - {key}), h)
    ensures Covered(WithMarks(f, f.registry.reclaimedThrough - {key}).registry)
    ensures Exclusive(WithMarks(f, f.registry.reclaimedThrough - {key}))
  {
    hide HasRow, DistinctRows, SameOwner, Apart, ValidBranch, WellFormed;
    var g := WithMarks(f, f.registry.reclaimedThrough - {key});
    assert forall s :: Claim(g, s) ==> Claim(f, s);
  }

  /** Dropping a watermark that nobody needs loses nothing. */
  lemma DropMarkKeepsInv(f: Files, h: History, key: Continuation)
    requires Inv(f, h) && f.registry.reclamation.None? && !Needed(f, key)
    ensures Inv(WithMarks(f, f.registry.reclaimedThrough - {key}), h)
  {
    var g := WithMarks(f, f.registry.reclaimedThrough - {key});
    DropMarkKeepsRest(f, h, key);
    hide Keyed, Exclusive, RowsOnce, KeysFit, MapFollows, Covered, RemovedAreGone, HasRow;
    if h.mapped {
      SameLedgerMap(f, g, h.log);
    }
    if h.orderly {
      assert forall s :: Known(g, s) ==> Known(f, s);
      forall r | r in h.releases && !Present(g, r)
        ensures Remembered(g, r)
      {
        assert Remembered(f, r);
      }
    }
  }

  lemma DropReclamationKeepsInv(f: Files, h: History)
    requires Inv(f, h)
    ensures Inv(f.(registry := f.registry.(reclamation := None)), h)
  {
    var g := f.(registry := f.registry.(reclamation := None));
    assert SameRecords(f, g);
    assert Keyed(g.registry) && RowsOnce(g, h.log) && RemovedAreGone(g, h) && Covered(g.registry);
    hide Keyed, Exclusive, RowsOnce, KeysFit, MapFollows, Continuity, Dated, Covered, RemovedAreGone, HasRow;
    hide SameRecords;
    if h.mapped {
      SameLedgerMap(f, g, h.log);
    }
    SameClaims(f, g);
    if h.orderly {
      SameReleases(f, g, h, h);
    }
  }

  ghost predicate TouchedBy(r: Registry, ids: set<string>, key: Continuation) {
    exists id :: id in ids && id in r.records && ContinuationOf(r.records[id].request) == key
  }

  /** The watermarks after some releases are taken away. */
  ghost predicate AreRaised(r: Registry, ids: set<string>, marks: map<Continuation, int>,
                            times: map<Continuation, int>)
  {
    forall key, at :: AtLeast(times, key, at) <==>
      (AtLeast(r.reclaimedThrough, key, at) || (AtLeast(marks, key, at) && TouchedBy(r, ids, key)))
  }

  lemma RaisedOnce(f: Files, ids: set<string>, marks: map<Continuation, int>, g: Files, id: string)
    requires AreRaised(f.registry, ids, marks, g.registry.reclaimedThrough)
    requires id in g.registry.records && id in f.registry.records && g.registry.records[id] == f.registry.records[id]
    ensures AreRaised(f.registry, ids + {id}, marks, Reclaim(g, marks, id).registry.reclaimedThrough)
  {
    var times := g.registry.reclaimedThrough;
    var mine := ContinuationOf(f.registry.records[id].request);
    var raised := Raise(times, marks, mine);
    forall key, at
      ensures AtLeast(raised, key, at) <==> (AtLeast(times, key, at) || (AtLeast(marks, key, at) && key == mine))
    {
    }
  }

  /** The releases that a staged reclamation takes away now. */
  function Leaving(f: Files): set<string>
    requires f.registry.reclamation.Some?
  {
    set id | id in f.registry.reclamation.value.leaseIds && MayReclaim(f, id)
  }

  /** Of the staged leases exactly those leave that are still released, are in no intent, and have no row. */
  lemma LeavingExactly(f: Files, id: string)
    requires f.registry.reclamation.Some?
    ensures id in Leaving(f) <==>
      && id in f.registry.reclamation.value.leaseIds
      && id in f.registry.records && !f.registry.records[id].active && id !in f.registry.pending
      && forall row :: row in f.ledger ==> row.lease.id != id
  {
  }

  ghost predicate AllCovered(r: Registry, marks: map<Continuation, int>, ids: set<string>) {
    forall id :: id in ids && id in r.records && !r.records[id].active ==> CoveredBy(r, marks, r.records[id])
  }

  /** Where the first loop stands: what has left, and what is still to be looked at. */
  ghost predicate Reclaiming(f: Files, h: History, g: Files, gone: set<string>, rest: set<string>)
    requires f.registry.reclamation.Some?
  {
    var marks := f.registry.reclamation.value.watermarks;
    && Inv(g, h) && g.ledger == f.ledger && g.active == f.active
    && g.registry.pending == f.registry.pending && g.registry.reclamation.None?
    && (forall id :: id in gone <==> id in f.registry.reclamation.value.leaseIds && id !in rest && MayReclaim(f, id))
    && g.registry.records == f.registry.records - gone
    && AreRaised(f.registry, gone, marks, g.registry.reclaimedThrough)
    && AllCovered(g.registry, marks, rest)
  }

  lemma CoveredParts(r: Registry)
    requires Covered(r) && r.reclamation.Some?
    ensures AllCovered(r.(reclamation := None), r.reclamation.value.watermarks, r.reclamation.value.leaseIds)
  {
    var marks := r.reclamation.value.watermarks;
    forall id | id in r.reclamation.value.leaseIds && id in r.records && !r.records[id].active
      ensures CoveredBy(r.(reclamation := None), marks, r.records[id])
    {
      assert CoveredBy(r, marks, r.records[id]);
    }
  }

  lemma NothingRaised(r: Registry, marks: map<Continuation, int>)
    ensures AreRaised(r, {}, marks, r.reclaimedThrough)
  {
  }

  lemma InvParts(f: Files, h: History)
    requires Inv(f, h)
    ensures Keyed(f.registry) && Covered(f.registry)
  {
  }

  lemma ReclaimingStarts(f: Files, h: History)
    requires Inv(f, h) && f.registry.reclamation.Some?
    ensures Reclaiming(f, h, f.(registry := f.registry.(reclamation := None)), {},
      f.registry.reclamation.value.leaseIds)
  {
    InvParts(f, h);
    CoveredParts(f.registry);
    DropReclamationKeepsInv(f, h);
    NothingRaised(f.registry, f.registry.reclamation.value.watermarks);
    hide Inv, AreRaised, AllCovered, MayReclaim;
    assert f.registry.records - {} == f.registry.records;
  }

  lemma SameChance(f: Files, g: Files, gone: set<string>, id: string)
    requires g.ledger == f.ledger && g.registry.pending == f.registry.pending
      && g.registry.records == f.registry.records - gone
    requires id !in gone
    ensures MayReclaim(g, id) == MayReclaim(f, id)
    ensures MayReclaim(g, id) ==>
      && id in g.registry.records && !g.registry.records[id].active
      && id in f.registry.records && g.registry.records[id] == f.registry.records[id]
  {
  }

  lemma ReclaimIsLocal(f: Files, marks: map<Continuation, int>, id: string)
    requires id in f.registry.records
    ensures
      var g := Reclaim(f, marks, id);
      && g.ledger == f.ledger && g.active == f.active && g.registry.pending == f.registry.pending
      && g.registry.reclamation == f.registry.reclamation && g.registry.records == f.registry.records - {id}
  {
  }

  lemma CoveredOne(r: Registry, marks: map<Continuation, int>, ids: set<string>, id: string)
    requires AllCovered(r, marks, ids)
    ensures forall sub: set<string> :: sub <= ids ==> AllCovered(r, marks, sub)
    ensures id in ids && id in r.records && !r.records[id].active ==> CoveredBy(r, marks, r.records[id])
  {
  }

  lemma StillCovered(f: Files, marks: map<Continuation, int>, id: string, rest: set<string>)
    requires id in f.registry.records && AllCovered(f.registry, marks, rest)
    ensures AllCovered(Reclaim(f, marks, id).registry, marks, rest)
  {
    var r := Reclaim(f, marks, id).registry;
    forall i | i in rest && i in r.records && !r.records[i].active
      ensures CoveredBy(r, marks, r.records[i])
    {
      var s := f.registry.records[i];
      assert CoveredBy(f.registry, marks, s);
      if AtLeast(f.registry.reclaimedThrough, ContinuationOf(s.request), s.updatedAt) {
        RaiseOnlyRaises(f.registry.reclaimedThrough, marks, ContinuationOf(f.registry.records[id].request),
          ContinuationOf(s.request), s.updatedAt);
      }
    }
  }

  lemma ReclaimStep(f: Files, h: History, g: Files, gone: set<string>, rest: set<string>, id: string)
    requires f.registry.reclamation.Some? && id in rest && rest <= f.registry.reclamation.value.leaseIds
    requires Reclaiming(f, h, g, gone, rest)
    ensures MayReclaim(g, id) ==>
      id in g.registry.records
        && Reclaiming(f, h, Reclaim(g, f.registry.reclamation.value.watermarks, id), gone + {id}, rest - {id})
    ensures !MayReclaim(g, id) ==> Reclaiming(f, h, g, gone, rest - {id})
  {
    hide Inv, AreRaised, AllCovered, MayReclaim, Reclaim, CoveredBy;
    var marks := f.registry.reclamation.value.watermarks;
    SameChance(f, g, gone, id);
    CoveredOne(g.registry, marks, rest, id);
    assert AllCovered(g.registry, marks, rest - {id});
    if MayReclaim(g, id) {
      ReclaimIsLocal(g, marks, id);
      ReclaimKeepsInv(g, h, marks, id);
      StillCovered(g, marks, id, rest - {id});
      RaisedOnce(f, gone, marks, g, id);
      assert f.registry.records - gone - {id} == f.registry.records - (gone + {id});
    }
  }

  lemma ReclaimingEnds(f: Files, h: History, g: Files, gone: set<string>)
    requires f.registry.reclamation.Some? && Reclaiming(f, h, g, gone, {})
    ensures gone == Leaving(f)
    ensures Inv(g, h) && g.ledger == f.ledger && g.active == f.active
    ensures g.registry.pending == f.registry.pending && g.registry.reclamation.None?
    ensures g.registry.records == f.registry.records - gone
    ensures AreRaised(f.registry, gone, f.registry.reclamation.value.watermarks, g.registry.reclaimedThrough)
  {
    hide Inv, AreRaised, AllCovered, MayReclaim;
  }

  /** The first half of finishReclamation: every release of the staged reclamation that may go leaves the
      registry, and the watermarks are raised. */
  method ReclaimAll(f: Files, ghost h: History) returns (g: Files)
    requires Inv(f, h) && f.registry.reclamation.Some?
    ensures Inv(g, h) && g.ledger == f.ledger && g.active == f.active
    ensures g.registry.pending == f.registry.pending && g.registry.reclamation.None?
    ensures g.registry.records == f.registry.records - Leaving(f)
    ensures AreRaised(f.registry, Leaving(f), f.registry.reclamation.value.watermarks, g.registry.reclaimedThrough)
  {
    var marks := f.registry.reclamation.value.watermarks;
    var ids := f.registry.reclamation.value.leaseIds;
    g := f.(registry := f.registry.(reclamation := None));
    var rest := ids;
    ghost var gone: set<string> := {};
    ReclaimingStarts(f, h);
    hide Reclaiming, Reclaim;
    while rest != {}
      invariant rest <= ids && Reclaiming(f, h, g, gone, rest)
      decreases |rest|
    {
      var id :| id in rest;
      ReclaimStep(f, h, g, gone, rest, id);
      rest := rest - {id};
      if MayReclaim(g, id) {
        g := Reclaim(g, marks, id);
        gone := gone + {id};
      }
    }
    ReclaimingEnds(f, h, g, gone);
  }

  ghost predicate IsPartOf(m: map<Continuation, int>, n: map<Continuation, int>) {
    forall key :: key in m ==> key in n && m[key] == n[key]
  }

  /** Where the second loop stands. */
  ghost predicate Dropping(f: Files, g: Files, keys: set<Continuation>) {
    && keys <= g.registry.reclaimedThrough.Keys && g == WithMarks(f, g.registry.reclaimedThrough)
    && f.registry.reclamation.None? && IsPartOf(g.registry.reclaimedThrough, f.registry.reclaimedThrough)
    && (forall key :: key in g.registry.reclaimedThrough <==> key in keys || Needed(f, key))
  }

  lemma DroppingStarts(f: Files)
    requires f.registry.reclamation.None?
    ensures Dropping(f, f, f.registry.reclaimedThrough.Keys)
  {
  }

  lemma SameNeed(f: Files, g: Files, key: Continuation)
    requires g == WithMarks(f, g.registry.reclaimedThrough) && key in f.registry.reclaimedThrough
      && key in g.registry.reclaimedThrough
    requires g.registry.reclaimedThrough[key] == f.registry.reclaimedThrough[key]
    ensures Needed(f, key) == Needed(g, key)
  {
    assert forall s :: Known(f, s) == Known(g, s);
  }

  /** The second half: the watermarks that nobody needs go, and only those. */
  method DropMarks(f: Files, ghost h: History) returns (g: Files)
    requires Inv(f, h) && f.registry.reclamation.None?
    ensures Inv(g, h) && g == WithMarks(f, g.registry.reclaimedThrough)
    ensures forall key :: key in g.registry.reclaimedThrough <==> Needed(f, key)
    ensures IsPartOf(g.registry.reclaimedThrough, f.registry.reclaimedThrough)
  {
    g := f;
    hide Inv, Needed, IsNeeded, Keyed;
    var keys := f.registry.reclaimedThrough.Keys;
    DroppingStarts(f);
    while keys != {}
      invariant Inv(g, h) && Dropping(f, g, keys)
      decreases |keys|
    {
      var key :| key in keys;
      InvParts(g, h);
      NeededIsNeeded(g, key);
      SameNeed(f, g, key);
      keys := keys - {key};
      if !IsNeeded(g.registry, key) {
        DropMarkKeepsInv(g, h, key);
        g := WithMarks(g, g.registry.reclaimedThrough - {key});
      }
    }
  }
}
