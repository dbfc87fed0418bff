/** The lease manager: each operation as the series of its durable writes, any of which may be the last one
    before the process dies. */
module LeaseManager {
  import opened Wrappers
  import opened WorktreeLeases
  import opened LeaseRecovery
  import opened LeaseInvariants
  import opened LeaseReclamation
  import opened BranchPolicy

  /** How a series of writes ended: it was carried out, the process died, the ledger was full, or the row
      in the ledger was not that of the intent. */
  datatype Ending = Finished | Died | LedgerFull | RowMismatch

  /** How a mutation began: it may go on, the store is in conflict, or the process died. */
  datatype Start = Begun | Conflicting | Killed

  datatype LeaseError =
    | LegacyConflict | InvalidBranch | InvalidTtl | PathNotAllowed | NotActive | TokenMismatch | HolderMismatch
    | Incomplete | InvalidClock | SnapshotLimit | PayloadMismatch

  datatype AcquireResult = Acquired(lease: Lease) | Refused(decision: Decision) | Occupied | Denied(error: LeaseError)
    | AcquireDied

  /** Retention was refused, carried out, or cut off. */
  datatype Retention = NotRetained | Retained | RetentionDied

  datatype ChangeResult = Changed | Unchanged | Declined(error: LeaseError) | ChangeDied

  /** What the caller asks for beyond the request: the holder, the time and lifetime, the branch head, and
      the path it wants or, failing that, the usual one. */
  datatype Terms = Terms(
    holder: Holder, now: int, ttl: Option<int>, head: Option<string>, leasePath: Option<string>, usualPath: string,
    dirty: DirtyState)

  /** The file system as the manager asks about it. */
  datatype Site = Site(canonical: string -> string, identity: string -> Option<Identity>, allowed: string -> bool)

  /** Identifiers nobody has used. */
  datatype FreshIds = FreshIds(lease: string, token: string, row: string)

  const DEFAULT_TTL := 300

  const MAX_SAFE_INTEGER := 0x1F_FFFF_FFFF_FFFF

  /** The range of a date, in seconds. */
  const MAX_TIME := 8_640_000_000_000

  /** expiry. */
  function Expiry(now: int, ttl: int): Option<int> {
    if 0 < ttl <= MAX_SAFE_INTEGER && -MAX_TIME <= now + ttl <= MAX_TIME then Some(now + ttl) else None
  }

  function Chosen<T>(first: Option<T>, other: T): T {
    if first.Some? then first.value else other
  }

  /** The lifetime in seconds: the one given with the call, or that of the request, or five minutes. */
  function Lifetime(given: Option<int>, asked: Option<int>): int {
    match given
    case Some(t) => t
    case None =>
      match asked
      case Some(t) => t
      case None => 300
  }

  /** A whole number of seconds that ends at a date. */
  predicate MayLast(now: int, lifetime: int) {
    1 <= lifetime < 0x20_0000_0000_0000 && -8_640_000_000_000 <= now + lifetime <= 8_640_000_000_000
  }

  lemma ExpiryIsRight(now: int, given: Option<int>, asked: Option<int>)
    ensures
      Expiry(now, Chosen(given, Chosen(asked, DEFAULT_TTL))) ==
        if MayLast(now, Lifetime(given, asked)) then Some(now + Lifetime(given, asked)) else None
  {
  }

  /** assertOwner. */
  function OwnerError(recorded: Lease, supplied: Lease): Option<LeaseError> {
    if recorded.token != supplied.token then Some(TokenMismatch)
    else if recorded.holder != supplied.holder || recorded.path != supplied.path || recorded.repoId != supplied.repoId
      || recorded.branch != supplied.branch || recorded.mode != supplied.mode then Some(HolderMismatch)
    else None
  }

  lemma OwnerErrors(l: Lease)
    ensures forall recorded :: OwnerError(recorded, l) in {None, Some(TokenMismatch), Some(HolderMismatch)}
  {
  }

  /** requireOwner: the lease is active, the caller owns it, and nothing is pending for it. */
  function OwnershipError(f: Files, l: Lease): Option<LeaseError> {
    if l.id !in f.registry.records || !f.registry.records[l.id].active then Some(NotActive)
    else if OwnerError(f.registry.records[l.id].lease, l).Some? then OwnerError(f.registry.records[l.id].lease, l)
    else if l.id in f.registry.pending then Some(Incomplete)
    else None
  }

  lemma OwnershipCases(f: Files, l: Lease)
    ensures OwnershipError(f, l) != Some(LegacyConflict)
    ensures OwnershipError(f, l).None? ==>
      l.id in f.registry.records && f.registry.records[l.id].active && l.id !in f.registry.pending
  {
  }

  lemma KeyedById(f: Files, h: History, id: string)
    requires Inv(f, h) && id in f.registry.records
    ensures f.registry.records[id].lease.id == id
  {
  }

  /** The caller owns an active lease without an intent if and only if nothing stands against it, and otherwise
      the error is true. */
  lemma OwnershipExactly(f: Files, h: History, l: Lease)
    requires Inv(f, h)
    ensures OwnershipError(f, l) == None <==>
      && l.id in f.registry.records && f.registry.records[l.id].active && l.id !in f.registry.pending
      && SameOwner(f.registry.records[l.id].lease, l)
    ensures OwnershipError(f, l) == Some(NotActive) <==>
      l.id !in f.registry.records || !f.registry.records[l.id].active
    ensures OwnershipError(f, l) == Some(TokenMismatch) <==>
      && l.id in f.registry.records && f.registry.records[l.id].active
      && f.registry.records[l.id].lease.token != l.token
    ensures OwnershipError(f, l) == Some(Incomplete) <==>
      && l.id in f.registry.records && f.registry.records[l.id].active && l.id in f.registry.pending
      && SameOwner(f.registry.records[l.id].lease, l)
    ensures OwnershipError(f, l) in {None, Some(NotActive), Some(TokenMismatch), Some(HolderMismatch), Some(Incomplete)}
  {
    if l.id in f.registry.records {
      KeyedById(f, h, l.id);
    }
    hide Inv;
  }

  predicate IsOnBranch(l: Lease, request: LeaseRequest) {
    l.repoId == request.repoId && l.branch == request.branch
  }

  /** A lease in use or an intent stands on the path, or an intent on the branch. */
  predicate Taken(f: Files, request: LeaseRequest, path: string) {
    || (exists id :: id in f.registry.pending && IsOnBranch(f.registry.pending[id].record.lease, request))
    || (exists id :: id in f.registry.pending && f.registry.pending[id].record.lease.path == path)
    || (exists id ::
         id in f.registry.records && f.registry.records[id].active && f.registry.records[id].lease.path == path)
  }

  function AcquireIntent(request: LeaseRequest, terms: Terms, site: Site, ids: FreshIds, path: string,
                         expires: int): Intent
  {
    var lease := Lease(ids.lease, ids.token, request.repoId, path, request.branch, request.mode, terms.holder,
                       terms.now, terms.now, expires, terms.dirty, None);
    Intent(ids.row, StoredLease(lease, request, terms.head, true, terms.now, site.identity(path)), AcquireOp, None)
  }

  // ----- what a change writes -----

  /** What a caller may change: a lease is acquired, prolonged, or released. */
  datatype Change =
    | Acquisition(request: LeaseRequest, terms: Terms, site: Site, ids: FreshIds)
    | Prolonging(id: string, at: int, ttl: Option<int>, dirty: Option<DirtyState>, head: Option<string>)
    | Ending(id: string, at: int, cause: Cause)
    | NoChange

  /** The path the caller names; or else, to continue, that of a release of the task that was recorded clean; or
      else the usual one. */
  ghost predicate IsWanted(f: Files, request: LeaseRequest, terms: Terms, wanted: string) {
    match terms.leasePath
    case Some(p) => wanted == p
    case None =>
      if request.mode == SequentialContinue then
        exists c :: Known(f, c) && !c.active && c.request.taskId == request.taskId && c.request.repoId == request.repoId
          && c.request.branch == request.branch && c.lease.dirty == Clean && c.lease.path == wanted
      else wanted == terms.usualPath
  }

  /** The record of a new lease says what was asked for. */
  ghost predicate IsAsked(f: Files, s: StoredLease, request: LeaseRequest, terms: Terms, site: Site, ids: FreshIds) {
    && s.active && s.updatedAt == terms.now && s.request == request && s.head == terms.head
    && s.identity == site.identity(s.lease.path)
    && s.lease.id == ids.lease && s.lease.token == ids.token && s.lease.repoId == request.repoId
    && s.lease.branch == request.branch && s.lease.mode == request.mode && s.lease.holder == terms.holder
    && s.lease.acquiredAt == terms.now && s.lease.renewedAt == terms.now
    && MayLast(terms.now, Lifetime(terms.ttl, request.ttl))
    && s.lease.expiresAt == terms.now + Lifetime(terms.ttl, request.ttl)
    && s.lease.dirty == terms.dirty && s.lease.release == None
    && exists wanted ::
         IsWanted(f, request, terms, wanted) && site.allowed(wanted) && s.lease.path == site.canonical(wanted)
  }

  /** The lease is prolonged: only the times, the dirty state and the branch head have changed, and those as the
      caller says. */
  predicate IsProlonged(s: StoredLease, t: StoredLease, at: int, ttl: Option<int>, dirty: Option<DirtyState>,
                        head: Option<string>)
  {
    && s.active && t.active && t.updatedAt == at && t.request == s.request && t.identity == s.identity
    && t.lease == s.lease.(renewedAt := at, expiresAt := t.lease.expiresAt, dirty := t.lease.dirty)
    && s.lease.renewedAt <= at && MayLast(at, Lifetime(ttl, s.request.ttl))
    && t.lease.expiresAt == at + Lifetime(ttl, s.request.ttl)
    && (if dirty == None then t.lease.dirty == s.lease.dirty else dirty == Some(t.lease.dirty))
    && (if head == None then t.head == s.head else t.head == head)
  }

  /** The lease is released: the times and the release are noted, and nothing else has changed. */
  predicate IsEnded(s: StoredLease, t: StoredLease, at: int, cause: Cause) {
    && s.active && !t.active && t.updatedAt == at && t.request == s.request && t.identity == s.identity
    && t.head == s.head && t.lease.release == Some(ReleaseNote(cause, at))
    && t.lease.renewedAt == at && t.lease.expiresAt == at && t.lease.acquiredAt == s.lease.acquiredAt
    && SameOwner(s.lease, t.lease) && t.lease.dirty == s.lease.dirty
  }

  /** The record is one that the change writes. */
  ghost predicate Makes(c: Change, f: Files, t: StoredLease) {
    match c
    case Acquisition(request, terms, site, ids) => IsAsked(f, t, request, terms, site, ids)
    case Prolonging(id, at, ttl, dirty, head) =>
      exists s :: Known(f, s) && s.lease.id == id && IsProlonged(s, t, at, ttl, dirty, head)
    case Ending(id, at, cause) => exists s :: Known(f, s) && s.lease.id == id && IsEnded(s, t, at, cause)
    case NoChange => false
  }

  /** Records and intents are old or written by the change. */
  ghost predicate OnlyMakes(f: Files, g: Files, c: Change) {
    forall t :: Known(g, t) ==> Known(f, t) || Makes(c, f, t)
  }

  ghost predicate KnowsNoMore(f: Files, g: Files) {
    forall s :: Known(g, s) ==> Known(f, s)
  }

  /** Only this record has become known. */
  ghost predicate OnlyAdds(f: Files, g: Files, t: StoredLease) {
    forall s :: Known(g, s) ==> Known(f, s) || s == t
  }

  lemma WantedStill(f: Files, g: Files, request: LeaseRequest, terms: Terms, wanted: string)
    requires KnowsNoMore(f, g) && IsWanted(g, request, terms, wanted)
    ensures IsWanted(f, request, terms, wanted)
  {
    hide Known;
  }

  lemma MakesStill(f: Files, g: Files, c: Change, t: StoredLease)
    requires KnowsNoMore(f, g) && Makes(c, g, t)
    ensures Makes(c, f, t)
  {
    hide Known, IsProlonged, IsEnded, MayLast, Lifetime, IsWanted;
    match c
    case Acquisition(request, terms, site, ids) =>
      var wanted :|
        IsWanted(g, request, terms, wanted) && site.allowed(wanted) && t.lease.path == site.canonical(wanted);
      WantedStill(f, g, request, terms, wanted);
    case Prolonging(id, at, ttl, dirty, head) =>
      var s :| Known(g, s) && s.lease.id == id && IsProlonged(s, t, at, ttl, dirty, head);
      assert Known(f, s);
    case Ending(id, at, cause) =>
      var s :| Known(g, s) && s.lease.id == id && IsEnded(s, t, at, cause);
      assert Known(f, s);
    case NoChange =>
  }

  lemma MakesOnlyStill(f: Files, g: Files, l: Files, c: Change)
    requires KnowsNoMore(f, g) && OnlyMakes(g, l, c)
    ensures OnlyMakes(f, l, c)
  {
    hide Known, Makes;
    forall t | Known(l, t) && !Known(f, t)
      ensures Makes(c, f, t)
    {
      MakesStill(f, g, c, t);
    }
  }

  lemma MakesNoMore(f: Files, g: Files, l: Files, c: Change)
    requires OnlyMakes(f, g, c) && KnowsNoMore(g, l)
    ensures OnlyMakes(f, l, c)
  {
    hide Known, Makes;
  }

  lemma MakesNothing(f: Files, g: Files, c: Change)
    requires KnowsNoMore(f, g)
    ensures OnlyMakes(f, g, c)
  {
    hide Known, Makes;
  }

  lemma MakesAdded(f: Files, g: Files, c: Change, t: StoredLease)
    requires OnlyAdds(f, g, t) && Makes(c, f, t)
    ensures OnlyMakes(f, g, c)
  {
    hide Known, Makes;
  }

  /** The lease is new and as asked for, the registry and the active map have it, and it shares neither
      branch nor path with anything that stood there. */
  ghost predicate IsGranted(f: Files, g: Files, request: LeaseRequest, terms: Terms, site: Site, ids: FreshIds,
                            l: Lease)
  {
    && l.id == ids.lease && l.id in g.registry.records && g.registry.records[l.id].lease == l
    && IsAsked(f, g.registry.records[l.id], request, terms, site, ids)
    && (forall s :: Claim(f, s) ==> Apart(l, s.lease))
    && g.registry.pending == f.registry.pending && HasEntry(g.active, l) && IsActiveMap(g.active, g.registry.records)
    && (forall id :: id in f.registry.records ==>
         id in g.registry.records && g.registry.records[id] == f.registry.records[id])
    && g.ledger == f.ledger + [Row(ids.row, l)]
  }

  /** The path is the one the caller names or else that of the last release, which was clean. */
  ghost predicate ContinuesAt(f: Files, h: History, request: LeaseRequest, terms: Terms, site: Site, path: string) {
    exists last: string ::
      Continues(f, h, request, terms.head, last) && path == site.canonical(Chosen(terms.leasePath, last))
  }

  /** No lease, no record and no identifier that was not there before. */
  ghost predicate NothingNew(f: Files, h: History, g: Files, k: History) {
    && g.registry.records.Keys <= f.registry.records.Keys + f.registry.pending.Keys
    && g.registry.pending.Keys <= f.registry.pending.Keys
    && (forall r: string :: FreshRow(f, h.log, r) ==> FreshRow(g, k.log, r))
    && k.clock == h.clock && k.orderly == h.orderly && h.releases <= k.releases && KnowsNoMore(f, g)
  }

  lemma StillFresh(f: Files, h: History, g: Files, k: History, ids: FreshIds)
    requires NothingNew(f, h, g, k) && FreshRow(f, h.log, ids.row)
    requires ids.lease !in f.registry.records && ids.lease !in f.registry.pending
    ensures FreshRow(g, k.log, ids.row) && ids.lease !in g.registry.records && ids.lease !in g.registry.pending
    ensures k.clock == h.clock && k.orderly == h.orderly && h.releases <= k.releases
  {
    hide FreshRow;
  }

  /** No lease in use stands on the branch. */
  predicate IsBranchFree(f: Files, request: LeaseRequest) {
    forall id :: id in f.registry.records && f.registry.records[id].active ==>
      f.registry.records[id].lease.repoId != request.repoId || f.registry.records[id].lease.branch != request.branch
  }

  lemma AcquireMayStage(f: Files, h: History, request: LeaseRequest, intent: Intent)
    requires f.registry.reclamation.None? && ValidBranch(request.branch) && FreshRow(f, h.log, intent.recordId)
    requires WellFormed(intent) && intent.operation.AcquireOp?
    requires intent.record.lease.id !in f.registry.records && intent.record.lease.id !in f.registry.pending
    requires intent.record.lease.repoId == request.repoId && intent.record.lease.branch == request.branch
    requires IsBranchFree(f, request) && !Taken(f, request, intent.record.lease.path)
    ensures MayStage(f, h, intent)
    ensures forall s :: Claim(f, s) ==> Apart(intent.record.lease, s.lease)
  {
    hide FreshRow, ValidBranch;
    forall s | Claim(f, s)
      ensures Apart(intent.record.lease, s.lease)
    {
    }
  }

  lemma PublishFacts(f: Files, intent: Intent)
    ensures
      var g := Publish(f, intent);
      && g.active == ActiveMap(g.registry.records)
      && g.registry.records == f.registry.records[intent.record.lease.id := intent.record]
    ensures intent.record.lease.id !in f.registry.pending ==> Publish(f, intent).registry.pending == f.registry.pending
    ensures !HasRow(f.ledger, intent.recordId) ==>
      Publish(f, intent).ledger == f.ledger + [Row(intent.recordId, intent.record.lease)]
  {
    hide HasRow, ActiveMap;
  }

  lemma RowStillFresh(f: Files, h: History, g: Files, k: History, rowId: string)
    requires NothingNew(f, h, g, k) && FreshRow(f, h.log, rowId)
    ensures FreshRow(g, k.log, rowId) && k.clock == h.clock && k.orderly == h.orderly
  {
    hide FreshRow;
  }

  /** createWorktreeLeaseRelease and releaseIntent. */
  function ReleaseIntent(record: StoredLease, now: int, rowId: string, cause: Cause): Intent {
    var lease := record.lease.(renewedAt := now, expiresAt := now, release := Some(ReleaseNote(cause, now)));
    Intent(rowId, record.(lease := lease, active := false, updatedAt := now), ReleaseOp, None)
  }

  function RenewIntent(record: StoredLease, now: int, expires: int, dirty: Option<DirtyState>, head: Option<string>,
                       rowId: string): Intent
  {
    var renewed := record.lease.(renewedAt := now, expiresAt := expires, dirty := Chosen(dirty, record.lease.dirty));
    var latest := if head.Some? then head else record.head;
    Intent(rowId, record.(lease := renewed, updatedAt := now, head := latest), RenewOp, None)
  }

  /** The lease is prolonged, in all three files, and nothing else is touched. */
  ghost predicate IsRenewed(f: Files, g: Files, c: Change, rowId: string)
    requires c.Prolonging?
  {
    var id := c.id;
    && id in f.registry.records && id !in f.registry.pending && id in g.registry.records
    && IsProlonged(f.registry.records[id], g.registry.records[id], c.at, c.ttl, c.dirty, c.head)
    && g.registry.pending == f.registry.pending
    && g.registry.records == f.registry.records[id := g.registry.records[id]]
    && IsActiveMap(g.active, g.registry.records) && g.ledger == f.ledger + [Row(rowId, g.registry.records[id].lease)]
  }

  lemma NewFacts(f: Files, h: History, g: Files, k: History, intent: Intent)
    requires Inv(f, h) && Inv(g, k) && g == Publish(f, intent)
    requires intent.record.lease.id !in f.registry.pending && !HasRow(h.log, intent.recordId)
    ensures g.registry.pending == f.registry.pending
      && g.ledger == f.ledger + [Row(intent.recordId, intent.record.lease)]
    ensures g.registry.records == f.registry.records[intent.record.lease.id := intent.record]
    ensures IsActiveMap(g.active, g.registry.records)
    ensures intent.record.active ==> HasEntry(g.active, intent.record.lease)
  {
    PublishFacts(f, intent);
    LedgerIsLogged(f, h, intent.recordId);
    assert Exclusive(g) && Keyed(g.registry);
    hide Inv, HasRow, Publish, ActiveMap, Exclusive, Keyed;
    ExclusiveIsKeyable(g);
    assert IsActiveMap(g.active, g.registry.records) by { KeyableHasMap(g.registry.records); }
  }

  /** What a published mutation has done. */
  lemma PublishedFacts(f: Files, h: History, g: Files, k: History, intent: Intent)
    requires Inv(f, h) && MayStage(f, h, intent) && Inv(g, k) && g == Publish(f, intent)
    ensures g.registry.pending == f.registry.pending
      && g.ledger == f.ledger + [Row(intent.recordId, intent.record.lease)]
    ensures g.registry.records == f.registry.records[intent.record.lease.id := intent.record]
    ensures IsActiveMap(g.active, g.registry.records)
    ensures intent.record.active ==> HasEntry(g.active, intent.record.lease)
  {
    assert !HasRow(h.log, intent.recordId);
    hide Inv, HasRow, Publish;
    NewFacts(f, h, g, k, intent);
  }

  lemma RenewFacts(f: Files, h: History, g: Files, k: History, c: Change, intent: Intent)
    requires Inv(f, h) && MayStage(f, h, intent) && Inv(g, k) && g == Publish(f, intent) && c.Prolonging?
    requires c.id in f.registry.records && c.id !in f.registry.pending && intent.record.lease.id == c.id
    requires IsProlonged(f.registry.records[c.id], intent.record, c.at, c.ttl, c.dirty, c.head)
    ensures IsRenewed(f, g, c, intent.recordId)
  {
    hide MayLast, Lifetime;
    PublishedFacts(f, h, g, k, intent);
  }

  lemma OwnerJoins(f: Files, s: StoredLease, l: Lease)
    requires Exclusive(f) && Claim(f, s) && SameOwner(l, s.lease)
    ensures Joins(f, l)
  {
    hide ValidBranch;
    assert ValidBranch(s.lease.branch);
    forall t | Claim(f, t)
      ensures SameOwner(l, t.lease) || Apart(l, t.lease)
    {
      assert SameOwner(s.lease, t.lease) || Apart(s.lease, t.lease);
    }
  }

  /** An intent about a lease in use, which it leaves with its owner. */
  lemma ChangeMayStage(f: Files, h: History, id: string, intent: Intent)
    requires Inv(f, h) && f.registry.reclamation.None? && FreshRow(f, h.log, intent.recordId)
    requires id in f.registry.records && f.registry.records[id].active && id !in f.registry.pending
    requires SameOwner(intent.record.lease, f.registry.records[id].lease)
    requires WellFormed(intent) && (intent.operation.RemoveOp? ==> Announced(intent))
    ensures MayStage(f, h, intent)
  {
    KeyedById(f, h, id);
    assert Exclusive(f);
    hide Inv, Exclusive, FreshRow;
    OwnerJoins(f, f.registry.records[id], intent.record.lease);
  }

  /** The lease is released, nothing is pending for it, the active map has dropped it, and the release is
      on record. */
  ghost predicate IsReleased(f: Files, g: Files, k: History, id: string, now: int, cause: Cause) {
    && id in f.registry.records && id in g.registry.records && g.registry.records.Keys == f.registry.records.Keys
    && (forall other :: other in f.registry.records && other != id ==>
         g.registry.records[other] == f.registry.records[other])
    && var t := g.registry.records[id];
      && IsEnded(f.registry.records[id], t, now, cause)
      && (k.orderly ==> ReleaseOf(t) in k.releases)
      && id !in g.registry.pending && (forall key :: key in g.active ==> g.active[key].id != id)
  }

  lemma ReleaseOnRecord(g: Files, k: History, id: string)
    requires Inv(g, k) && id in g.registry.records && !g.registry.records[id].active
    ensures k.orderly ==> ReleaseOf(g.registry.records[id]) in k.releases
  {
  }

  lemma GoneFromMap(g: Files, id: string)
    requires IsActiveMap(g.active, g.registry.records) && id in g.registry.records && !g.registry.records[id].active
    ensures forall key :: key in g.active ==> g.active[key].id != id
  {
    forall key | key in g.active
      ensures g.active[key].id != id
    {
      assert FromActive(g.registry.records, key, g.active[key]);
    }
  }

  lemma ReleaseFacts(f: Files, h: History, g: Files, k: History, id: string, now: int, cause: Cause, intent: Intent)
    requires Inv(f, h) && MayStage(f, h, intent) && Inv(g, k) && g == Publish(f, intent)
    requires id in f.registry.records && f.registry.records[id].lease.id == id && f.registry.records[id].active
    requires intent == ReleaseIntent(f.registry.records[id], now, intent.recordId, cause)
    ensures IsReleased(f, g, k, id, now, cause)
  {
    hide Inv, HasRow, Publish, IsActiveMap, MapKey;
    PublishedFacts(f, h, g, k, intent);
    ReleaseOnRecord(g, k, id);
    assert id !in f.registry.pending;
    hide MayStage;
    GoneFromMap(g, id);
  }

  function RemovalIntent(record: StoredLease, now: int, rowId: string, identity: Identity): Intent {
    ReleaseIntent(record, now, rowId, Reconciliation).(
      operation := RemoveOp, removal := Some(Removal.Prepared(identity)))
  }

  /** What applying an intent may add to the past. */
  ghost predicate Carries(h: History, k: History, intent: Intent) {
    && k.clock == h.clock && k.orderly == h.orderly && k.gone == h.gone && h.releases <= k.releases
    && (h.mapped ==> k.mapped) && h.removed <= k.removed && (!intent.operation.RemoveOp? ==> k.removed == h.removed)
    && (intent.record.active ==> k.releases == h.releases)
    && (forall r: string :: HasRow(k.log, r) ==> HasRow(h.log, r) || r == intent.recordId)
  }

  lemma CarriesGone(h: History, intent: Intent)
    ensures forall k :: Carries(h, k, intent) ==> k.gone == h.gone
  {
  }

  lemma ReclaimedIsKnown(f: Files, keep: set<nat>)
    ensures forall id :: id in Reclaimed(f, keep) ==> id in f.registry.records
  {
  }

  /** A staged reclamation does not change what is pinned. */
  lemma SameKeep(f: Files, g: Files, oldest: Option<int>, keep: set<nat>, more: set<nat>)
    requires KeepsPinned(f, oldest, keep)
    requires g.ledger == f.ledger && g.registry.records == f.registry.records
      && g.registry.pending == f.registry.pending
    ensures KeepsPinned(g, oldest, keep + more)
    ensures Reclaimed(g, keep) == Reclaimed(f, keep)
  {
    forall i: nat | i < |g.ledger| && Pinned(g, i, oldest)
      ensures i in keep + more
    {
      assert Pinned(f, i, oldest);
    }
  }

  function BeforeStaging(f: Files): Files {
    f.(registry := f.registry.(reclamation := None))
  }

  /** Staging a reclamation and compacting leave records and intents alone. */
  lemma SameKnown(f: Files, g: Files, h: History)
    requires g.registry.records == f.registry.records && g.registry.pending == f.registry.pending
    ensures NothingNew(f, h, g, h)
  {
  }

  /** The watermarks: raised for the releases that leave, and then only those that somebody needs. */
  ghost predicate MarksFollow(f: Files, g: Files, raised: map<Continuation, int>)
    requires f.registry.reclamation.Some?
  {
    && AreRaised(f.registry, Leaving(f), f.registry.reclamation.value.watermarks, raised)
    && (forall key :: key in g.registry.reclaimedThrough <==> Needed(WithMarks(g, raised), key))
    && (forall key :: key in g.registry.reclaimedThrough ==>
         key in raised && g.registry.reclaimedThrough[key] == raised[key])
  }

  /** What finishing a staged reclamation does to the files. */
  ghost predicate IsReclaimed(f: Files, g: Files) {
    if f.registry.reclamation.None? then g == f
    else
      && g.ledger == f.ledger && g.active == f.active && g.registry.pending == f.registry.pending
      && g.registry.reclamation.None? && g.registry.records == f.registry.records - Leaving(f)
      && exists raised :: MarksFollow(f, g, raised)
  }

  /** Replay saw the path of the announced removal gone, and its holder too. */
  ghost predicate SeenGone(f: Files, id: string, w: World) {
    id in f.registry.pending && Announced(f.registry.pending[id]) && w.sight(f.registry.pending[id]).Absent?
  }

  /** Whatever was found gone was seen gone. */
  ghost predicate OnlySeenGone(f: Files, h: History, k: History, w: World) {
    forall id :: id in k.gone && id !in h.gone ==> SeenGone(f, id, w)
  }

  lemma SeenThrough(f: Files, clean: Files, staged: Files, compacted: Files, final: Files, h: History, w: World)
    requires IsReclaimed(f, clean) && staged.registry.pending == clean.registry.pending
      && compacted.registry.pending == staged.registry.pending
    requires IsReclaimed(compacted, final)
    ensures forall k: History :: OnlySeenGone(final, h, k, w) ==> OnlySeenGone(f, h, k, w)
    ensures final.registry.pending == f.registry.pending
  {
    hide Leaving, MarksFollow;
    assert final.registry.pending == f.registry.pending;
  }

  /** Replay sees the worktree of an announced removal untouched, although the lease is stale already. */
  predicate Reappears(f: Files, id: string, w: World) {
    && id in f.registry.pending && Announced(f.registry.pending[id])
    && w.sight(f.registry.pending[id]).NoEffect? && IsStale(f, id)
  }

  ghost predicate NoneReappears(f: Files, w: World) {
    forall id :: !Reappears(f, id, w)
  }

  lemma CompactFacts(f: Files, g: Files, keep: set<nat>, w: World)
    requires g.active == f.active && g.registry == f.registry.(reclamation := g.registry.reclamation)
    ensures NoneReappears(f, w) ==> NoneReappears(Compact(g, keep), w)
    ensures Compact(g, keep).registry == g.registry
  {
    var l := Compact(g, keep);
    assert forall id :: IsStale(l, id) ==> IsStale(f, id);
    hide IsStale;
    if NoneReappears(f, w) {
      forall id
        ensures !Reappears(l, id, w)
      {
        assert !Reappears(f, id, w);
      }
    }
  }

  function ActiveLeases(r: Registry): set<Lease> {
    set id | id in r.records && r.records[id].active :: r.records[id].lease
  }

  /** A decision that follows from what the registry says. */
  ghost predicate IsDecision(f: Files, request: LeaseRequest, head: Option<string>, d: Decision) {
    exists e ::
      IsCandidate(f.registry, request, head, e) && d == EvaluateBranchCollision(request, ActiveLeases(f.registry), e)
  }

  /** The branch is to be had, but not at the path wanted. */
  ghost predicate FindsForbidden(f: Files, request: LeaseRequest, terms: Terms, site: Site) {
    exists d: Decision :: IsDecision(f, request, terms.head, d) && d.allowed
      && !site.allowed(Chosen(terms.leasePath, Chosen(d.reusePath, terms.usualPath)))
  }

  /** Why an acquisition is denied. */
  ghost predicate AcquireDenial(f: Files, request: LeaseRequest, terms: Terms, site: Site, refuses: bool,
                                error: LeaseError)
  {
    match error
    case InvalidTtl => !MayLast(terms.now, Lifetime(terms.ttl, request.ttl))
    case InvalidBranch => !ValidBranch(request.branch)
    case SnapshotLimit => refuses
    case LegacyConflict => InConflict(f)
    case PathNotAllowed => FindsForbidden(f, request, terms, site)
    case _ => false
  }

  /** An intent is about this branch of this repository, or a lease in use or an intent about this path. */
  ghost predicate IsInTheWay(f: Files, request: LeaseRequest, path: string) {
    || (exists id :: id in f.registry.pending
          && f.registry.pending[id].record.lease.repoId == request.repoId
          && f.registry.pending[id].record.lease.branch == request.branch)
    || (exists s :: Claim(f, s) && s.lease.path == path)
  }

  lemma TakenExactly(f: Files, h: History, request: LeaseRequest, path: string)
    requires Inv(f, h)
    ensures Taken(f, request, path) <==> IsInTheWay(f, request, path)
  {
    assert OwnRows(f.registry.pending);
    assert forall id :: id in f.registry.records ==> f.registry.records[id].lease.id == id;
    hide Inv;
    assert forall id :: id in f.registry.pending ==> Claim(f, f.registry.pending[id].record);
    assert forall id :: id in f.registry.records && f.registry.records[id].active ==> Claim(f, f.registry.records[id]);
  }

  /** The branch is to be had, but an intent stands on it, or something on the path. */
  ghost predicate FindsOccupied(f: Files, request: LeaseRequest, terms: Terms, site: Site) {
    exists d: Decision :: IsDecision(f, request, terms.head, d) && d.allowed
      && IsInTheWay(f, request, site.canonical(Chosen(terms.leasePath, Chosen(d.reusePath, terms.usualPath))))
  }

  /** Why the owner of a lease cannot renew it. */
  predicate RenewDenial(f: Files, l: Lease, now: int, ttl: Option<int>, refuses: bool, error: LeaseError) {
    && l.id in f.registry.records
    && match error
      case InvalidClock => now < f.registry.records[l.id].lease.renewedAt
      case InvalidTtl => !MayLast(now, Lifetime(ttl, f.registry.records[l.id].request.ttl))
      case SnapshotLimit => refuses
      case _ => false
  }

  /** Why a lease cannot be released. */
  predicate ReleaseDenial(f: Files, l: Lease, now: int, refuses: bool, error: LeaseError) {
    && l.id in f.registry.records
    && match error
      case InvalidClock => now < f.registry.records[l.id].lease.acquiredAt
      case Incomplete => l.id in f.registry.pending
      case SnapshotLimit => refuses
      case _ => OwnerError(f.registry.records[l.id].lease, l) == Some(error)
  }

  /** The lease is in use and without an intent, the caller is its owner, and it was acquired by then. */
  predicate MayRelease(f: Files, l: Lease, now: int) {
    && l.id in f.registry.records && f.registry.records[l.id].active && l.id !in f.registry.pending
    && SameOwner(f.registry.records[l.id].lease, l) && f.registry.records[l.id].lease.acquiredAt <= now
  }

  lemma OwnerMayRelease(f: Files, h: History, l: Lease, now: int)
    requires Inv(f, h) && l.id in f.registry.records && f.registry.records[l.id].active && l.id !in f.registry.pending
    requires OwnerError(f.registry.records[l.id].lease, l) == None && f.registry.records[l.id].lease.acquiredAt <= now
    ensures MayRelease(f, l, now)
  {
    KeyedById(f, h, l.id);
    hide Inv;
  }

  lemma ActiveIsKnown(f: Files, h: History)
    requires Inv(f, h)
    ensures h.mapped ==> !InConflict(f)
  {
  }

  /** The writes it takes to finish a staged reclamation. */
  function CostOfFinishing(f: Files): nat {
    if f.registry.reclamation.None? then 0 else 1
  }

  /** The process died while replay was at work, having so many writes to make. */
  ghost predicate DiedInReplay(f: Files, order: seq<string>, w: World, life: int, g: Files) {
    exists at: nat, done: nat ::
      && at < |order| && done <= 3 && CostOfReplay(f, order[..at], w) <= life
      && done == life + 4 - CostOfReplay(f, order[..at + 1], w) && g == CrashInReplay(f, order, at, done, w)
  }

  /** The process died before replay was through. */
  ghost predicate StoppedEarly(f: Files, life: nat, clean: Files, order: seq<string>, w: World, g: Files) {
    if life < CostOfFinishing(f) then g == f
    else IsReclaimed(f, clean) && DiedInReplay(clean, order, w, life - CostOfFinishing(f), g)
  }

  /** The files once a staged reclamation is finished and the intents are replayed. */
  ghost predicate Replayed(f: Files, order: seq<string>, w: World, g: Files) {
    exists clean :: IsReclaimed(f, clean) && g == Replay(clean, order, w)
  }

  /** The process died within the mutation, having so many writes to make. */
  ghost predicate IsCutShort(f: Files, intent: Intent, life: nat, g: Files) {
    life < 5 && g == PublishUpTo(f, intent, life)
  }

  predicate Concerns(intent: Intent, id: string, rowId: string) {
    intent.record.lease.id == id && intent.recordId == rowId
  }

  ghost predicate DiedPublishing(f: Files, id: string, rowId: string, g: Files) {
    exists intent, life: nat :: Concerns(intent, id, rowId) && IsCutShort(f, intent, life, g)
  }

  /** The process died, before replay was through or in the mutation of this lease that writes this row. */
  ghost predicate DiedInMutation(f: Files, order: seq<string>, w: World, mid: Files, id: string, rowId: string,
                                 g: Files)
  {
    || (exists clean, life: nat :: StoppedEarly(f, life, clean, order, w, g))
    || (Replayed(f, order, w, mid) && DiedPublishing(mid, id, rowId, g))
  }

  lemma Interrupted(f: Files, intent: Intent, life: nat, g: Files, id: string, rowId: string)
    requires life < 5 && g == PublishUpTo(f, intent, life) && Concerns(intent, id, rowId)
    ensures DiedPublishing(f, id, rowId, g)
  {
    hide PublishUpTo;
    assert IsCutShort(f, intent, life, g);
  }

  /** The request was turned down before anything was done. */
  predicate AtOnce(r: AcquireResult) {
    r == Denied(InvalidTtl) || r == Denied(LegacyConflict)
  }

  lemma NoMoreSeenGone(f: Files, h: History, k: History, later: History, w: World)
    requires OnlySeenGone(f, h, k, w) && later.gone == k.gone
    ensures OnlySeenGone(f, h, later, w)
  {
    hide SeenGone;
  }

  lemma NobodySeenGone(f: Files, h: History, w: World)
    ensures OnlySeenGone(f, h, h, w)
  {
  }

  lemma ReclaimedFacts(f: Files, h: History, g: Files, w: World)
    requires IsReclaimed(f, g)
    ensures NothingNew(f, h, g, h)
    ensures NoneReappears(f, w) ==> NoneReappears(g, w)
    ensures forall k: History :: OnlySeenGone(g, h, k, w) ==> OnlySeenGone(f, h, k, w)
  {
    hide Leaving, HasRow;
    assert forall id :: IsStale(g, id) ==> IsStale(f, id);
    hide IsStale;
    if NoneReappears(f, w) {
      forall id
        ensures !Reappears(g, id, w)
      {
        assert !Reappears(f, id, w);
      }
    }
  }

  lemma ReplayStep(f: Files, order: seq<string>, i: nat, w: World)
    requires i < |order|
    ensures Replay(f, order[..i + 1], w) == ReplayOne(Replay(f, order[..i], w), order[i], w)
    ensures forall n: nat :: CrashInReplay(f, order, i, n, w) == CrashInOne(Replay(f, order[..i], w), order[i], n, w)
    ensures
      CostOfReplay(f, order[..i + 1], w) ==
        CostOfReplay(f, order[..i], w) + CostOfOne(Replay(f, order[..i], w), order[i], w)
  {
    assert order[..i + 1][..i] == order[..i];
  }

  lemma ReplayNobody(f: Files, id: string, w: World)
    requires id !in f.registry.pending
    ensures ReplayOne(f, id, w) == f && CostOfOne(f, id, w) == 0
  {
  }

  ghost predicate JudgedAs(f: Files, id: string, w: World, g: Files, cost: nat) {
    ReplayOne(f, id, w) == g && CostOfOne(f, id, w) == cost
  }

  /** What replay does with an intent, case by case. */
  lemma JudgementCases(f: Files, id: string, w: World)
    requires id in f.registry.pending && !Mismatches(f, f.registry.pending[id])
    ensures
      var intent := f.registry.pending[id];
      if Announced(intent) && w.sight(intent).Uncertain? then JudgedAs(f, id, w, f, 0)
      else if Announced(intent) && w.sight(intent).NoEffect? then
        JudgedAs(f, id, w, Unstage(f, id), 1) && forall n: nat :: CrashInOne(f, id, n, w) == f
      else if w.refuses(intent) && !HasRow(f.ledger, intent.recordId) then JudgedAs(f, id, w, f, 0)
      else
        && JudgedAs(f, id, w, Apply(f, intent), CostOfApplying(f, intent))
        && forall n: nat :: CrashInOne(f, id, n, w) == ApplyUpTo(f, intent, n)
    ensures CostOfOne(f, id, w) <= 4
  {
    hide HasRow, Apply, ApplyUpTo;
  }

  lemma AnnouncedRemoves(f: Files, h: History, id: string)
    requires Inv(f, h) && id in f.registry.pending
    ensures Announced(f.registry.pending[id]) ==> f.registry.pending[id].operation.RemoveOp?
  {
    assert WellFormed(f.registry.pending[id]);
  }

  lemma UnstageKeepsFiles(f: Files, id: string)
    ensures Unstage(f, id).active == f.active && Unstage(f, id).registry.records == f.registry.records
  {
  }

  lemma InvOwnRows(f: Files, h: History)
    requires Inv(f, h)
    ensures OwnRows(f.registry.pending)
  {
  }

  lemma NothingNewStill(f: Files, h: History, g: Files, k: History, l: Files, m: History)
    requires NothingNew(f, h, g, k) && NothingNew(g, k, l, m)
    ensures NothingNew(f, h, l, m)
  {
    hide FreshRow;
  }

  lemma SeenGoneStill(f: Files, h: History, g: Files, k: History, m: History, id: string, w: World)
    requires OnlySeenGone(f, h, k, w) && (SeenGone(g, id, w) ==> SeenGone(f, id, w))
    requires m.gone == if SeenGone(g, id, w) then k.gone + {id} else k.gone
    ensures OnlySeenGone(f, h, m, w)
  {
  }

  /** No lease has become stale. */
  ghost predicate NoneStaler(f: Files, g: Files) {
    forall id :: IsStale(g, id) ==> IsStale(f, id)
  }

  lemma StillUnseen(f: Files, g: Files, id: string, w: World)
    requires SameView(f, g, id) && NoneStaler(f, g)
    ensures NoneReappears(f, w) ==> !Reappears(g, id, w)
    ensures SeenGone(g, id, w) ==> SeenGone(f, id, w)
  {
    hide HasRow, IsStale;
    if NoneReappears(f, w) {
      assert !Reappears(f, id, w);
    }
  }

  lemma {:induction false} ReplayViewOf(f: Files, order: seq<string>, id: string, w: World)
    requires OwnRows(f.registry.pending) && id !in order
    ensures SameView(f, Replay(f, order, w), id)
    decreases |order|
  {
    if order != [] {
      var front := order[..|order| - 1];
      var g := Replay(f, front, w);
      ReplayViewOf(f, front, id, w);
      ReplayOwnRows(f, front, w);
      ReplayElsewhere(g, order[|order| - 1], id, w);
      hide HasRow, ReplayOne;
    }
  }

  /** An intent looks the same until replay comes to it. */
  lemma ReplayView(f: Files, order: seq<string>, i: nat, w: World)
    requires OwnRows(f.registry.pending) && NoRepeats(order) && i < |order|
    ensures SameView(f, Replay(f, order[..i], w), order[i])
  {
    ReplayViewOf(f, order[..i], order[i], w);
  }

  lemma NothingChanged(f: Files, h: History)
    ensures NothingNew(f, h, f, h) && NoneStaler(f, f)
  {
  }

  lemma UnstagingAddsNothing(f: Files, h: History, id: string)
    ensures forall k: History :: k == h.(mapped := k.mapped) ==> NothingNew(f, h, Unstage(f, id), k)
    ensures NoneStaler(f, Unstage(f, id)) && Unstage(f, id).registry.reclamation == f.registry.reclamation
  {
  }

  lemma StillKnown(f: Files)
    ensures KnowsNoMore(f, f)
  {
  }

  lemma ApplyKnowsNoMore(f: Files, id: string, done: nat)
    requires id in f.registry.pending && f.registry.pending[id].record.lease.id == id
    ensures KnowsNoMore(f, ApplyUpTo(f, f.registry.pending[id], done))
    ensures KnowsNoMore(f, Apply(f, f.registry.pending[id]))
  {
    hide HasRow, ActiveMap;
  }

  /** Applying an intent, or a part of it, brings up nothing new. */
  lemma ApplyAddsNothing(f: Files, h: History, k: History, id: string, done: nat, after: History)
    requires id in f.registry.pending && f.registry.pending[id].record.lease.id == id
    requires k == h.(gone := k.gone) && Carries(k, after, f.registry.pending[id])
    ensures NothingNew(f, h, ApplyUpTo(f, f.registry.pending[id], done), after)
    ensures NothingNew(f, h, Apply(f, f.registry.pending[id]), after)
    ensures Apply(f, f.registry.pending[id]).registry.reclamation == f.registry.reclamation
    ensures after.gone == k.gone && (k.mapped ==> after.mapped)
    ensures after == k ==> NothingNew(f, h, f, after)
  {
    ApplyKnowsNoMore(f, id, done);
    StillKnown(f);
    hide HasRow, ActiveMap, KnowsNoMore;
  }

  lemma GoneGrows(f: Files, h: History, id: string)
    requires Inv(f, h)
    ensures Inv(f, h.(gone := h.gone + {id}))
  {
    hide Keyed, Exclusive, RowsOnce, KeysFit, MapFollows, Continuity, Covered, HasRow;
  }

  lemma AppendWhenGone(f: Files, h: History, id: string)
    requires Inv(f, h) && id in f.registry.pending && (Announced(f.registry.pending[id]) ==> id in h.gone)
    ensures MayAppend(f, h, id)
  {
    hide Keyed, Exclusive, RowsOnce, KeysFit, MapFollows, Continuity, Covered, HasRow, Dated;
  }

  lemma NoneStalerStill(f: Files, g: Files, l: Files)
    requires NoneStaler(f, g) && NoneStaler(g, l)
    ensures NoneStaler(f, l)
  {
    hide IsStale;
  }

  lemma NoneStale(f: Files, g: Files)
    ensures IsActiveMap(g.active, g.registry.records) ==> NoneStaler(f, g)
  {
    if IsActiveMap(g.active, g.registry.records) {
      forall id
        ensures !IsStale(g, id)
      {
        if id in g.registry.records && !g.registry.records[id].active {
          GoneFromMap(g, id);
        }
      }
    }
  }

  lemma StagedIsFresh(f: Files, h: History, intent: Intent)
    requires Inv(f, h) && MayStage(f, h, intent)
    ensures !HasRow(Stage(f, intent).ledger, intent.recordId) && CostOfApplying(Stage(f, intent), intent) == 4
  {
    LedgerIsLogged(f, h, intent.recordId);
  }

  /** What a mutation of this time does to the clock: nothing, or it is set, and the run stays orderly exactly
      if that is no step back. */
  predicate Ticks(h: History, k: History, now: int) {
    || (k.clock == h.clock && k.orderly == h.orderly)
    || (k.clock == now && k.orderly == (h.orderly && now >= h.clock))
  }

  /** What is known once an intent stands in the registry. */
  lemma StageFacts(f: Files, h: History, intent: Intent)
    requires MayStage(f, h, intent)
    ensures
      var id := intent.record.lease.id;
      var g := Stage(f, intent);
      && id in g.registry.pending && g.registry.pending[id] == intent && g.registry.reclamation.None?
      && Unstage(g, id) == f
    ensures !intent.operation.RemoveOp? ==>
      MayAppend(Stage(f, intent), StagedHistory(h, intent), intent.record.lease.id)
    ensures intent.record.active <==> intent.operation.AcquireOp? || intent.operation.RenewOp?
    ensures PublishUpTo(f, intent, 0) == f && PublishUpTo(f, intent, 1) == Stage(f, intent)
    ensures forall n: nat :: n <= 3 ==> PublishUpTo(f, intent, n + 1) == ApplyUpTo(Stage(f, intent), intent, n)
    ensures StagedHistory(h, intent).gone == h.gone && StagedHistory(h, intent).removed == h.removed
    ensures StagedHistory(h, intent).mapped == h.mapped && StagedHistory(h, intent).releases == h.releases
    ensures Ticks(h, StagedHistory(h, intent), intent.record.updatedAt)
  {
    hide HasRow, FreshRow, Joins, ActiveMap;
    assert f.registry.pending[intent.record.lease.id := intent] - {intent.record.lease.id} == f.registry.pending;
  }

  /** The files after the row and up to two of the writes that follow it. */
  ghost function Followed(f: Files, intent: Intent, writes: nat): Files {
    if writes == 0 then f
    else if writes == 1 then StoreRecord(f, intent)
    else WriteMap(StoreRecord(f, intent))
  }

  lemma StepsCompose(f: Files, intent: Intent)
    ensures ApplyUpTo(f, intent, 0) == f
    ensures forall n: nat :: n <= 2 ==> ApplyUpTo(f, intent, n + 1) == Followed(AppendRow(f, intent), intent, n)
    ensures Apply(f, intent) == Unstage(Followed(AppendRow(f, intent), intent, 2), intent.record.lease.id)
    ensures HasRow(f.ledger, intent.recordId) ==> AppendRow(f, intent) == f
  {
    hide HasRow, ActiveMap;
  }

  /** What the writes after the row may add to the past. */
  ghost predicate CarriesOn(h: History, k: History, intent: Intent) {
    && k.clock == h.clock && k.orderly == h.orderly && k.gone == h.gone && h.releases <= k.releases
    && (h.mapped ==> k.mapped) && h.removed <= k.removed
    && (!intent.operation.RemoveOp? ==> k.removed == h.removed) && k.log == h.log
    && (intent.record.active ==> k.releases == h.releases)
  }

  lemma StoreFrames(f: Files, h: History, intent: Intent)
    ensures Followed(f, intent, 0) == f && Followed(f, intent, 1) == StoreRecord(f, intent)
    ensures Followed(f, intent, 2) == WriteMap(StoreRecord(f, intent))
    ensures
      var g := StoreRecord(f, intent);
      && g.registry.pending == f.registry.pending && intent.record.lease.id in g.registry.records
      && g.registry.records[intent.record.lease.id] == intent.record
    ensures WriteMap(StoreRecord(f, intent)).registry == StoreRecord(f, intent).registry
    ensures CarriesOn(h, h, intent) && CarriesOn(h, StoredHistory(h, intent), intent)
    ensures CarriesOn(h, StoredHistory(h, intent).(mapped := true), intent)
    ensures !intent.record.active && intent.operation.RemoveOp? ==>
      intent.record.lease.id in StoredHistory(h, intent).removed
  {
    hide HasRow, ActiveMap;
  }

  lemma AppendFrames(f: Files, h: History, intent: Intent)
    ensures AppendRow(f, intent).registry == f.registry
    ensures !HasRow(f.ledger, intent.recordId) ==> HasRow(AppendedHistory(f, h, intent).log, intent.recordId)
    ensures HasRow(f.ledger, intent.recordId) ==> AppendedHistory(f, h, intent) == h
    ensures Carries(h, h, intent)
  {
    AppendedRow(h.log, Row(intent.recordId, intent.record.lease));
    hide HasRow;
  }

  lemma CarriesBoth(f: Files, h: History, k: History, m: History, intent: Intent)
    requires k == AppendedHistory(f, h, intent) && CarriesOn(k, m, intent)
    ensures Carries(h, m, intent)
  {
    AppendedRow(h.log, Row(intent.recordId, intent.record.lease));
    hide HasRow;
  }

  /** Nothing becomes known but these leases and these rows, and no release is forgotten. */
  ghost predicate Uses(f: Files, h: History, g: Files, k: History, leases: set<string>, rows: set<string>) {
    && g.registry.records.Keys + g.registry.pending.Keys <= f.registry.records.Keys + f.registry.pending.Keys + leases
    && (forall r: string :: r !in rows && FreshRow(f, h.log, r) ==> FreshRow(g, k.log, r))
    && h.releases <= k.releases
  }

  lemma UsesOwn(f: Files, h: History, g: Files, k: History, id: string, rowId: string)
    requires Uses(f, h, g, k, {id}, {rowId}) && id in f.registry.records
    ensures Uses(f, h, g, k, {}, {rowId})
  {
    hide FreshRow;
  }

  lemma KeyedIntent(f: Files, h: History, id: string)
    requires Inv(f, h) && id in f.registry.pending
    ensures f.registry.pending[id].record.lease.id == id
  {
  }

  lemma MarkingAddsNothing(f: Files, h: History, id: string)
    requires id in f.registry.pending && f.registry.pending[id].removal.Some?
    ensures NothingNew(f, h, f, h) && NothingNew(f, h, MarkDone(f, id), h.(gone := h.gone + {id}))
  {
    hide HasRow;
  }

  lemma UsesMore(f: Files, h: History, g: Files, k: History, l: Files, m: History, leases: set<string>,
                 rows: set<string>)
    requires NothingNew(f, h, g, k) && Uses(g, k, l, m, leases, rows)
    ensures Uses(f, h, l, m, leases, rows)
  {
    hide FreshRow;
  }

  lemma UsesNobody(f: Files, h: History, leases: set<string>, rows: set<string>)
    ensures Uses(f, h, f, h, leases, rows)
  {
  }

  lemma UsesNothing(f: Files, h: History, g: Files, k: History, leases: set<string>, rows: set<string>)
    requires NothingNew(f, h, g, k)
    ensures Uses(f, h, g, k, leases, rows) && k.clock == h.clock && k.orderly == h.orderly && KnowsNoMore(f, g)
  {
    hide FreshRow, KnowsNoMore;
  }

  lemma StagingUses(f: Files, h: History, intent: Intent)
    ensures Uses(f, h, f, h, {intent.record.lease.id}, {intent.recordId})
    ensures Uses(f, h, Stage(f, intent), StagedHistory(h, intent), {intent.record.lease.id}, {intent.recordId})
  {
    hide HasRow;
  }

  /** Wherever a mutation stops, only its own lease and row are new. */
  lemma PublishUses(f: Files, h: History, k: History, intent: Intent, m: History)
    requires k == StagedHistory(h, intent) && Carries(k, m, intent) && !intent.operation.RemoveOp?
    ensures m.gone == h.gone && m.removed == h.removed && (h.mapped ==> m.mapped)
    ensures Ticks(h, m, intent.record.updatedAt) && (intent.record.active ==> m.releases == h.releases)
    ensures Uses(f, h, f, m, {intent.record.lease.id}, {intent.recordId})
    ensures Uses(f, h, Stage(f, intent), m, {intent.record.lease.id}, {intent.recordId})
    ensures Uses(f, h, Publish(f, intent), m, {intent.record.lease.id}, {intent.recordId})
    ensures forall n: nat ::
      Uses(f, h, ApplyUpTo(Stage(f, intent), intent, n), m, {intent.record.lease.id}, {intent.recordId})
  {
    hide HasRow, ActiveMap;
  }

  lemma StagingAdds(f: Files, intent: Intent)
    ensures KnowsNoMore(f, f) && OnlyAdds(f, f, intent.record) && OnlyAdds(f, Stage(f, intent), intent.record)
  {
  }

  lemma PublishAdds(f: Files, intent: Intent)
    ensures OnlyAdds(f, Publish(f, intent), intent.record)
    ensures forall n: nat :: OnlyAdds(f, ApplyUpTo(Stage(f, intent), intent, n), intent.record)
  {
    hide HasRow, ActiveMap;
  }

  lemma NoTick(h: History, now: int)
    ensures Ticks(h, h, now)
  {
  }

  // ----- a lease that continues another -----

  function NewLease(f: Files, id: string): Lease
    requires id in f.registry.records || id in f.registry.pending
  {
    if id in f.registry.pending then f.registry.pending[id].record.lease else f.registry.records[id].lease
  }

  /** If the lease is known, recorded or only announced, it continues the last release. */
  ghost predicate IsContinued(f: Files, h: History, request: LeaseRequest, terms: Terms, site: Site, id: string) {
    id in f.registry.records || id in f.registry.pending ==>
      ContinuesAt(f, h, request, terms, site, NewLease(f, id).path)
  }

  lemma NotAcquired(f: Files, h: History, request: LeaseRequest, terms: Terms, site: Site, id: string)
    requires id !in f.registry.records && id !in f.registry.pending
    ensures IsContinued(f, h, request, terms, site, id)
  {
  }

  /** The registry once so many of the writes of a mutation are done. */
  lemma RegistryUpTo(f: Files, intent: Intent, n: nat)
    ensures Publish(f, intent) == PublishUpTo(f, intent, 5)
    ensures PublishUpTo(f, intent, n).registry ==
      if n == 0 then f.registry
      else if n <= 2 then Stage(f, intent).registry
      else if n <= 4 then StoreRecord(Stage(f, intent), intent).registry
      else Unstage(StoreRecord(Stage(f, intent), intent), intent.record.lease.id).registry
  {
    hide HasRow, ActiveMap;
  }

  /** Wherever an acquisition stops, what was on record stays, and its lease is known as it was asked for. */
  lemma StoppedAcquiring(f: Files, intent: Intent, n: nat)
    requires intent.record.lease.id !in f.registry.records && intent.record.lease.id !in f.registry.pending
    ensures
      var id, g := intent.record.lease.id, PublishUpTo(f, intent, n);
      && (forall s :: s in f.registry.records ==>
            s in g.registry.records && g.registry.records[s] == f.registry.records[s])
      && (id in g.registry.records || id in g.registry.pending ==> NewLease(g, id) == intent.record.lease)
  {
    RegistryUpTo(f, intent, n);
    hide PublishUpTo, Publish;
  }

  /** What a lease continues is still there. */
  lemma ContinuesStill(f: Files, h: History, g: Files, k: History, request: LeaseRequest, head: Option<string>,
                       path: string)
    requires Continues(f, h, request, head, path) && k.releases <= h.releases
    requires forall s :: s in f.registry.records ==>
      s in g.registry.records && g.registry.records[s] == f.registry.records[s]
    ensures Continues(g, k, request, head, path)
  {
    var c :| IsLastRelease(f, h, request, c) && c.lease.path == path
      && (head.None? || c.head.None? || head == c.head);
    assert IsLastRelease(g, k, request, c);
  }

  lemma AcquiredContinues(f: Files, h: History, intent: Intent, n: nat, g: Files, k: History,
                          request: LeaseRequest, terms: Terms, site: Site, last: string)
    requires g == PublishUpTo(f, intent, n)
    requires intent.record.lease.id !in f.registry.records && intent.record.lease.id !in f.registry.pending
    requires Continues(f, h, request, terms.head, last) && k.releases == h.releases
    requires intent.record.lease.path == site.canonical(Chosen(terms.leasePath, last))
    ensures IsContinued(g, k, request, terms, site, intent.record.lease.id)
  {
    hide PublishUpTo, Continues;
    StoppedAcquiring(f, intent, n);
    ContinuesStill(f, h, g, k, request, terms.head, last);
  }

  // ----- the records of the intents -----

  /** The path taken is one that is wanted. */
  lemma WantedPath(f: Files, h: History, request: LeaseRequest, terms: Terms, d: Decision)
    requires Inv(f, h) && IsDecision(f, request, terms.head, d) && d.allowed
    ensures IsWanted(f, request, terms, Chosen(terms.leasePath, Chosen(d.reusePath, terms.usualPath)))
  {
    var e :|
      IsCandidate(f.registry, request, terms.head, e)
      && d == EvaluateBranchCollision(request, ActiveLeases(f.registry), e);
    hide ActiveLeases;
    if d.reusePath.Some? {
      var id :| IsNewest(f.registry, ContinuationOf(request), id)
        && e.value == EvidenceFrom(f.registry, request, terms.head, id);
      KeyedById(f, h, id);
      hide Tied, AtLeast, IsNewest, Inv;
      assert Matching(f.registry, ContinuationOf(request), id);
      assert Known(f, f.registry.records[id]);
    }
  }

  lemma AskedIntent(f: Files, request: LeaseRequest, terms: Terms, site: Site, ids: FreshIds, wanted: string)
    requires IsWanted(f, request, terms, wanted) && site.allowed(wanted)
    requires MayLast(terms.now, Lifetime(terms.ttl, request.ttl))
    ensures
      var path, expires := site.canonical(wanted), terms.now + Lifetime(terms.ttl, request.ttl);
      IsAsked(f, AcquireIntent(request, terms, site, ids, path, expires).record, request, terms, site, ids)
  {
    hide IsWanted, MayLast, Lifetime;
  }

  lemma GrantedFacts(f: Files, g: Files, request: LeaseRequest, terms: Terms, site: Site, ids: FreshIds,
                     intent: Intent)
    requires IsAsked(f, intent.record, request, terms, site, ids) && intent.recordId == ids.row
    requires ids.lease !in f.registry.records
    requires forall s :: Claim(f, s) ==> Apart(intent.record.lease, s.lease)
    requires g.registry.pending == f.registry.pending && HasEntry(g.active, intent.record.lease)
    requires IsActiveMap(g.active, g.registry.records) && g.ledger == f.ledger + [Row(ids.row, intent.record.lease)]
    requires g.registry.records == f.registry.records[ids.lease := intent.record]
    ensures IsGranted(f, g, request, terms, site, ids, intent.record.lease)
  {
    hide Claim, Apart, HasEntry, IsActiveMap;
    assert intent.record.lease.id == ids.lease;
    hide IsAsked;
  }

  lemma ProlongedIntent(f: Files, id: string, now: int, expires: int, ttl: Option<int>, dirty: Option<DirtyState>,
                        head: Option<string>, rowId: string)
    requires id in f.registry.records && f.registry.records[id].active && f.registry.records[id].lease.id == id
    requires f.registry.records[id].lease.renewedAt <= now
    requires MayLast(now, Lifetime(ttl, f.registry.records[id].request.ttl))
    requires expires == now + Lifetime(ttl, f.registry.records[id].request.ttl)
    ensures
      var s, t := f.registry.records[id], RenewIntent(f.registry.records[id], now, expires, dirty, head, rowId).record;
      IsProlonged(s, t, now, ttl, dirty, head) && Makes(Prolonging(id, now, ttl, dirty, head), f, t)
  {
    hide MayLast, Lifetime;
    assert Known(f, f.registry.records[id]);
  }

  lemma EndedRecord(f: Files, id: string, now: int, rowId: string, cause: Cause)
    requires id in f.registry.records && f.registry.records[id].active && f.registry.records[id].lease.id == id
    ensures
      var s, t := f.registry.records[id], ReleaseIntent(f.registry.records[id], now, rowId, cause).record;
      IsEnded(s, t, now, cause) && Makes(Ending(id, now, cause), f, t)
  {
    assert Known(f, f.registry.records[id]);
  }

  // ----- the manager -----

  /** The row of an intent is never that of another. */
  lemma NoMismatch(f: Files, h: History, id: string)
    requires Inv(f, h) && id in f.registry.pending
    ensures !Mismatches(f, f.registry.pending[id])
    ensures f.registry.pending[id].record.lease.id == id
    ensures f.registry.pending[id].operation.RemoveOp? ==> !f.registry.pending[id].record.active
    ensures HasRow(h.log, f.registry.pending[id].recordId) == HasRow(f.ledger, f.registry.pending[id].recordId)
  {
    var intent := f.registry.pending[id];
    assert RowAsIntended(f, h.log, intent) && WellFormed(intent);
    if HasRow(f.ledger, intent.recordId) {
      var i :| 0 <= i < |f.ledger| && f.ledger[i].recordId == intent.recordId;
      MemberHasRow(h.log, f.ledger[i]);
    }
    if HasRow(h.log, intent.recordId) {
      MemberHasRow(f.ledger, Row(intent.recordId, intent.record.lease));
    }
  }

  class Manager {
    var files: Files
    /** How many more durable writes this process lives to make. */
    var writes: nat
    ghost var past: History

    constructor (life: nat)
      ensures Valid() && writes == life && files == Files(Registry(map[], map[], None, map[]), [], map[])
      ensures past.log == [] && past.releases == {} && past.gone == past.removed == {} && past.mapped && past.orderly
    {
      files := Files(Registry(map[], map[], None, map[]), [], map[]);
      writes := life;
      past := History([], {}, 0, true, true, {}, {});
      new;
      assert MapFollows(files, past.log);
    }

    ghost predicate Valid()
      reads this
    {
      Inv(files, past)
    }

    /** A new process takes over the files as the last one left them. */
    method Restart(life: nat)
      requires Valid()
      modifies this`writes
      ensures Valid() && writes == life
    {
      writes := life;
    }

    // ----- the durable writes: each one happens, or the process is dead before it -----

    method WriteRow(id: string) returns (ok: bool)
      requires Valid() && MayAppend(files, past, id) && !HasRow(files.ledger, files.registry.pending[id].recordId)
      modifies this
      ensures (ok <==> old(writes) > 0) && writes == if ok then old(writes) - 1 else 0
      ensures Valid() && (!ok ==> files == old(files) && past == old(past))
      ensures ok ==> files == AppendRow(old(files), old(files.registry.pending[id]))
      ensures ok ==> past == AppendedHistory(old(files), old(past), old(files.registry.pending[id]))
    {
      AppendKeepsInv(files, past, id);
      hide Inv, MayAppend;
      ok := writes > 0;
      if ok {
        var intent := files.registry.pending[id];
        past := AppendedHistory(files, past, intent);
        files, writes := AppendRow(files, intent), writes - 1;
      }
    }

    method WriteRecord(id: string) returns (ok: bool)
      requires Valid() && MayStore(files, past, id)
      modifies this
      ensures (ok <==> old(writes) > 0) && writes == if ok then old(writes) - 1 else 0
      ensures Valid() && (!ok ==> files == old(files) && past == old(past))
      ensures ok ==> files == StoreRecord(old(files), old(files.registry.pending[id]))
      ensures ok ==> past == StoredHistory(old(past), old(files.registry.pending[id]))
    {
      StoreKeepsInv(files, past, id);
      NoMismatch(files, past, id);
      hide Inv, HasRow, MayStore, StoredHistory;
      ok := writes > 0;
      if ok {
        var intent := files.registry.pending[id];
        past := StoredHistory(past, intent);
        files, writes := StoreRecord(files, intent), writes - 1;
      }
    }

    method WriteActiveMap() returns (ok: bool)
      requires Valid()
      modifies this
      ensures (ok <==> old(writes) > 0) && writes == if ok then old(writes) - 1 else 0
      ensures Valid() && past == if ok then old(past).(mapped := true) else old(past)
      ensures files == if ok then WriteMap(old(files)) else old(files)
      ensures ok ==> IsActiveMap(files.active, files.registry.records)
    {
      WriteMapKeepsInv(files, past);
      hide Inv, Keyable, IsActiveMap;
      ok := writes > 0;
      if ok {
        var m := BuildActiveMap(files.registry.records);
        past := past.(mapped := true);
        files, writes := files.(active := m), writes - 1;
      }
    }

    /** The registry without the intent. */
    method DropIntent(id: string) returns (ok: bool)
      requires Valid() && (Carried(files, id) || Untouched(files, past, id))
      modifies this
      ensures (ok <==> old(writes) > 0) && writes == if ok then old(writes) - 1 else 0
      ensures Valid() && past == old(past) && files == if ok then Unstage(old(files), id) else old(files)
    {
      UnstageKeepsInv(files, past, id);
      hide Inv, Carried, Untouched;
      ok := writes > 0;
      if ok {
        files, writes := Unstage(files, id), writes - 1;
      }
    }

    /** The registry without the intent of a removal that had no effect, whatever of it is written. */
    method CallOffRemoval(id: string) returns (ok: bool)
      requires Valid() && id in files.registry.pending && files.registry.pending[id].operation.RemoveOp?
      modifies this
      ensures (ok <==> old(writes) > 0) && writes == if ok then old(writes) - 1 else 0
      ensures Valid() && past == if ok then CalledOffHistory(old(files), old(past), id) else old(past)
      ensures files == if ok then Unstage(old(files), id) else old(files)
    {
      CallOffKeepsInv(files, past, id);
      hide Inv, IsStale;
      ok := writes > 0;
      if ok {
        past := CalledOffHistory(files, past, id);
        files, writes := Unstage(files, id), writes - 1;
      }
    }

    method StageIntent(intent: Intent) returns (ok: bool)
      requires Valid() && MayStage(files, past, intent)
      modifies this
      ensures (ok <==> old(writes) > 0) && writes == if ok then old(writes) - 1 else 0
      ensures Valid()
      ensures if ok then files == Stage(old(files), intent) else files == old(files)
      ensures past == if ok then StagedHistory(old(past), intent) else old(past)
    {
      StageKeepsInv(files, past, intent);
      hide Inv, MayStage;
      ok := writes > 0;
      if ok {
        past := StagedHistory(past, intent);
        files, writes := Stage(files, intent), writes - 1;
      }
    }

    // ----- applyIntent -----

    /** The writes of applyIntent after the row. */
    method FollowRow(id: string) returns (ok: bool)
      requires Valid() && MayStore(files, past, id)
      modifies this
      ensures Valid() && CarriesOn(old(past), past, old(files.registry.pending[id]))
      ensures (ok <==> old(writes) >= 3) && writes == if ok then old(writes) - 3 else 0
      ensures ok ==> past.mapped && IsActiveMap(files.active, files.registry.records)
      ensures ok && old(files.registry.pending[id]).operation.RemoveOp? ==> id in past.removed
      ensures ok ==> files == Unstage(Followed(old(files), old(files.registry.pending[id]), 2), id)
      ensures !ok ==> files == Followed(old(files), old(files.registry.pending[id]), old(writes))
    {
      hide Inv, HasRow, IsActiveMap, StoreRecord, WriteMap, Unstage, StoredHistory, CarriesOn, Followed;
      var intent := files.registry.pending[id];
      ghost var f := files;
      NoMismatch(f, past, id);
      StoreFrames(f, past, intent);
      ok := WriteRecord(id);
      if !ok {
        return;
      }
      ok := WriteActiveMap();
      if !ok {
        return;
      }
      ok := DropIntent(id);
      UnstageKeepsFiles(WriteMap(StoreRecord(f, intent)), id);
    }

    /** applyIntent: the row, the record, the active map, and the end of the intent. */
    method ApplyIntent(id: string, refuses: bool) returns (end: Ending, ghost done: nat)
      requires Valid() && MayAppend(files, past, id) && files.registry.reclamation.None?
      modifies this
      ensures Valid() && end != RowMismatch && Carries(old(past), past, old(files.registry.pending[id]))
      ensures end == Finished ==>
        && files == Apply(old(files), old(files.registry.pending[id]))
        && writes == old(writes) - CostOfApplying(old(files), old(files.registry.pending[id]))
        && past.mapped && IsActiveMap(files.active, files.registry.records)
      ensures end == Finished && old(files.registry.pending[id]).operation.RemoveOp? ==> id in past.removed
      ensures end == Died ==>
        && writes == 0 && old(writes) < CostOfApplying(old(files), old(files.registry.pending[id]))
        && done == old(writes) + 4 - CostOfApplying(old(files), old(files.registry.pending[id]))
        && files == ApplyUpTo(old(files), old(files.registry.pending[id]), done)
      ensures end == LedgerFull ==> files == old(files) && past == old(past) && writes == old(writes)
      ensures end == LedgerFull <==> refuses && !HasRow(old(files.ledger), old(files.registry.pending[id].recordId))
    {
      hide Inv, HasRow, IsActiveMap, AppendRow, Unstage, Apply, ApplyUpTo, AppendedHistory, Carries, CarriesOn;
      hide Followed, Mismatches;
      var intent := files.registry.pending[id];
      ghost var f, h := files, past;
      done := 0;
      NoMismatch(f, past, id);
      StepsCompose(f, intent);
      AppendFrames(f, past, intent);
      if Mismatches(files, intent) {
        return RowMismatch, done;
      }
      var ok;
      if !HasRow(files.ledger, intent.recordId) {
        if refuses {
          return LedgerFull, done;
        }
        ok := WriteRow(id);
        if !ok {
          return Died, done;
        }
      }
      ghost var k := past;
      done := 1 + writes;
      ok := FollowRow(id);
      CarriesBoth(f, h, k, past, intent);
      end := if ok then Finished else Died;
    }

    // ----- publishMutation -----

    /** publishMutation: an intent to acquire or renew is withdrawn when the ledger is full. */
    method PublishMutation(intent: Intent, refuses: bool) returns (end: Ending)
      requires Valid() && MayStage(files, past, intent) && !intent.operation.RemoveOp?
      modifies this
      ensures Valid() && end != RowMismatch
      ensures end == Finished ==> files == Publish(old(files), intent) && writes == old(writes) - 5
      ensures end == Died ==>
        writes == 0 && old(writes) < 5 && files == PublishUpTo(old(files), intent, old(writes))
      ensures end == LedgerFull ==>
        refuses && files == if intent.record.active then old(files) else Stage(old(files), intent)
      ensures !refuses ==> end == Finished || end == Died
      ensures past.gone == old(past.gone) && past.removed == old(past.removed) && (old(past.mapped) ==> past.mapped)
      ensures Uses(old(files), old(past), files, past, {intent.record.lease.id}, {intent.recordId})
      ensures Ticks(old(past), past, intent.record.updatedAt)
      ensures intent.record.active ==> past.releases == old(past.releases)
      ensures OnlyAdds(old(files), files, intent.record)
    {
      hide Inv, MayStage, MayAppend, HasRow, Apply, ApplyUpTo, Stage, Unstage, PublishUpTo, StagedHistory, Uses;
      hide Carries, IsActiveMap, CostOfApplying, OnlyAdds;
      ghost var f, h := files, past;
      var id := intent.record.lease.id;
      StageFacts(f, past, intent);
      StagedIsFresh(f, h, intent);
      StagingUses(f, h, intent);
      StagingAdds(f, intent);
      PublishAdds(f, intent);
      var ok := StageIntent(intent);
      if !ok {
        return Died;
      }
      ghost var most;
      ghost var k := past;
      end, most := ApplyIntent(id, refuses);
      PublishUses(f, h, k, intent, past);
      if end == LedgerFull && (intent.operation.AcquireOp? || intent.operation.RenewOp?) {
        NoMismatch(files, past, id);
        ok := DropIntent(id);
        end := if ok then LedgerFull else Died;
      }
    }

    // ----- replayPending -----

    /** The body of the loop of replayPending. */
    method ReplayIntent(id: string, w: World) returns (end: Ending, ghost done: nat)
      requires Valid() && files.registry.reclamation.None?
      modifies this
      ensures Valid() && (end == Finished || end == Died) && NothingNew(old(files), old(past), files, past)
      ensures end == Finished ==>
        && files == ReplayOne(old(files), id, w) && files.registry.reclamation.None?
        && writes == old(writes) - CostOfOne(old(files), id, w)
      ensures end == Died ==>
        && writes == 0 && old(writes) < CostOfOne(old(files), id, w) <= 4
        && done == old(writes) + 4 - CostOfOne(old(files), id, w)
        && files == CrashInOne(old(files), id, done, w)
      ensures past.gone == if SeenGone(old(files), id, w) then old(past.gone) + {id} else old(past.gone)
      ensures old(past.mapped) && !Reappears(old(files), id, w) ==> past.mapped
      ensures end == Finished ==> NoneStaler(old(files), files)
    {
      hide Inv, HasRow, Apply, ApplyUpTo, NothingNew, Carries, FreshRow, MayAppend, Unstage, ReplayOne, CrashInOne;
      hide Judge, Mismatches, CostOfOne, IsStale, IsActiveMap, NoneStaler, CostOfApplying;
      ghost var f, h := files, past;
      end, done := Finished, 0;
      NothingChanged(f, h);
      if id !in files.registry.pending {
        ReplayNobody(f, id, w);
        return;
      }
      var intent := files.registry.pending[id];
      NoMismatch(f, h, id);
      AnnouncedRemoves(f, h, id);
      JudgementCases(f, id, w);
      if Announced(intent) {
        var sight := w.sight(intent);
        if sight == NoEffect {
          UnstagingAddsNothing(f, h, id);
          var ok := CallOffRemoval(id);
          end, done := if ok then Finished else Died, 3;
          return;
        }
        if sight == Uncertain {
          return;
        }
        GoneGrows(f, h, id);
        past := past.(gone := past.gone + {id});
      }
      AppendWhenGone(f, past, id);
      ghost var k := past;
      end, done := ApplyIntent(id, w.refuses(intent));
      ApplyAddsNothing(f, h, k, id, done, past);
      NoneStale(f, files);
      if end == LedgerFull {
        end := Finished;
      }
    }

    /** replayPending: the loop over the intents, in the order in which the registry lists them. */
    method ReplayPending(order: seq<string>, w: World) returns (end: Ending, ghost at: nat, ghost done: nat)
      requires Valid() && files.registry.reclamation.None? && NoRepeats(order)
      modifies this
      ensures Valid() && (end == Finished || end == Died) && NothingNew(old(files), old(past), files, past)
      ensures end == Finished <==> old(writes) >= CostOfReplay(old(files), order, w)
      ensures end == Finished ==>
        && files == Replay(old(files), order, w) && files.registry.reclamation.None?
        && writes == old(writes) - CostOfReplay(old(files), order, w)
      ensures end == Died ==>
        && writes == 0 && at < |order| && done <= 3 && CostOfReplay(old(files), order[..at], w) <= old(writes)
        && done == old(writes) + 4 - CostOfReplay(old(files), order[..at + 1], w)
        && files == CrashInReplay(old(files), order, at, done, w)
      ensures OnlySeenGone(old(files), old(past), past, w)
      ensures old(past.mapped) && NoneReappears(old(files), w) ==> past.mapped
    {
      ghost var f, h := files, past;
      end, at, done := Finished, 0, 0;
      NothingChanged(f, h);
      InvOwnRows(f, h);
      var i := 0;
      assert Replay(f, order[..0], w) == f && CostOfReplay(f, order[..0], w) == 0;
      hide Inv, NothingNew, NoneReappears, ReplayOne, OwnRows, SeenGone, CrashInOne, Replay, CrashInReplay, SameView;
      hide OnlySeenGone, NoRepeats, CostOfReplay, CostOfOne, NoneStaler, Reappears;
      while i < |order|
        invariant i <= |order| && end == Finished && Valid() && files.registry.reclamation.None?
          && NothingNew(f, h, files, past)
        invariant files == Replay(f, order[..i], w) && writes == old(writes) - CostOfReplay(f, order[..i], w)
        invariant OnlySeenGone(f, h, past, w) && NoneStaler(f, files)
        invariant h.mapped && NoneReappears(f, w) ==> past.mapped
      {
        at := i;
        ghost var g, k := files, past;
        ReplayView(f, order, i, w);
        ReplayStep(f, order, i, w);
        StillUnseen(f, g, order[i], w);
        end, done := ReplayIntent(order[i], w);
        NothingNewStill(f, h, g, k, files, past);
        SeenGoneStill(f, h, g, k, past, order[i], w);
        if end != Finished {
          CostGrows(f, order, i + 1, w);
          return;
        }
        NoneStalerStill(f, g, files);
        i := i + 1;
      }
      assert order[..i] == order;
    }

    // ----- what every mutation does first -----

    /** ensureManagedStore: an active lease that the registry does not know is a conflict. While the map is
        known to follow the records there is none; and the map that is read is never corrupt. */
    method EnsureManagedStore() returns (conflict: bool)
      requires Valid()
      ensures conflict == InConflict(files)
      ensures (past.mapped ==> !conflict) && KeysFit(files.active)
    {
      conflict := InConflict(files);
      ActiveIsKnown(files, past);
    }

    /** Carries out a staged reclamation, in one write. */
    method FinishReclamation() returns (ok: bool)
      requires Valid()
      modifies this
      ensures ok <==> old(writes) >= CostOfFinishing(old(files))
      ensures writes == if ok then old(writes) - CostOfFinishing(old(files)) else 0
      ensures Valid() && past == old(past)
      ensures ok ==> files.registry.reclamation.None? && IsReclaimed(old(files), files)
      ensures !ok ==> files == old(files)
    {
      if files.registry.reclamation.None? {
        return true;
      }
      var g := ReclaimAll(files, past);
      var f := DropMarks(g, past);
      assert WithMarks(f, g.registry.reclaimedThrough) == g;
      hide Inv, Leaving, AreRaised, Needed;
      assert MarksFollow(files, f, g.registry.reclaimedThrough);
      ok := writes > 0;
      if ok {
        files, writes := f, writes - 1;
      }
    }

    /** withMutation up to the callback: the store is checked, a staged reclamation is finished, and the
        pending intents are replayed. */
    method BeginMutation(order: seq<string>, w: World) returns (start: Start, ghost clean: Files)
      requires Valid() && NoRepeats(order)
      modifies this
      ensures Valid() && NothingNew(old(files), old(past), files, past) && OnlySeenGone(old(files), old(past), past, w)
      ensures start == Conflicting <==> InConflict(old(files))
      ensures start == Conflicting ==> files == old(files) && past == old(past) && writes == old(writes)
      ensures start == Begun ==>
        && files.registry.reclamation.None? && IsReclaimed(old(files), clean) && files == Replay(clean, order, w)
        && writes == old(writes) - CostOfFinishing(old(files)) - CostOfReplay(clean, order, w)
      ensures start == Killed ==>
        && writes == 0 && old(writes) < CostOfFinishing(old(files)) + CostOfReplay(clean, order, w)
        && StoppedEarly(old(files), old(writes), clean, order, w, files)
      ensures old(past.mapped) && NoneReappears(old(files), w) ==> past.mapped
    {
      hide Inv, NoneReappears, NothingNew, OnlySeenGone, IsReclaimed, InConflict;
      ghost var f, h := files, past;
      clean := files;
      NothingChanged(f, h);
      NobodySeenGone(f, h, w);
      var conflict := EnsureManagedStore();
      if conflict {
        return Conflicting, clean;
      }
      var ok := FinishReclamation();
      if !ok {
        return Killed, clean;
      }
      clean := files;
      ReclaimedFacts(f, h, clean, w);
      var end;
      ghost var at, done;
      end, at, done := ReplayPending(order, w);
      NothingNewStill(f, h, clean, h, files, past);
      start := if end == Finished then Begun else Killed;
    }

    // ----- the operations -----

    /** The decision about a branch, from what the registry says now. */
    method Decide(request: LeaseRequest, head: Option<string>) returns (d: Decision)
      requires Valid()
      ensures IsDecision(files, request, head, d)
      ensures d.allowed ==> IsBranchFree(files, request)
      ensures d.reusePath.Some? && past.orderly ==> Continues(files, past, request, head, d.reusePath.value)
      ensures d.allowed && request.mode.SequentialContinue? ==> d.reusePath.Some?
    {
      var r := files.registry;
      var inUse := ActiveLeases(r);
      var candidate := GetSequentialCandidate(r, request, head);
      d := EvaluateBranchCollision(request, inUse, candidate);
      if d.reusePath.Some? && past.orderly {
        ContinuationIsHonest(files, past, request, head, inUse, candidate);
      }
      hide Inv, Continues, EvaluateBranchCollision;
      assert forall id :: id in r.records && r.records[id].active ==> r.records[id].lease in inUse;
    }

    /** acquireLease once the mutation has begun: the branch, the decision, the path, and the new lease. */
    method GrantLease(request: LeaseRequest, terms: Terms, site: Site, ids: FreshIds, expires: int, refuses: bool)
      returns (result: AcquireResult)
      requires Valid() && files.registry.reclamation.None?
      requires MayLast(terms.now, Lifetime(terms.ttl, request.ttl))
        && expires == terms.now + Lifetime(terms.ttl, request.ttl)
      requires ids.lease !in files.registry.records && ids.lease !in files.registry.pending
        && FreshRow(files, past.log, ids.row)
      modifies this
      ensures Valid() && !AtOnce(result) && (old(past.mapped) ==> past.mapped) && past.gone == old(past.gone)
      ensures Uses(old(files), old(past), files, past, {ids.lease}, {ids.row})
      ensures Ticks(old(past), past, terms.now) && past.releases == old(past.releases)
      ensures OnlyMakes(old(files), files, Acquisition(request, terms, site, ids))
      ensures request.mode.SequentialContinue? && old(past.orderly) ==>
        IsContinued(files, past, request, terms, site, ids.lease)
      ensures result.AcquireDied? ==> writes == 0 && DiedPublishing(old(files), ids.lease, ids.row, files)
      ensures result.Denied? ==> AcquireDenial(old(files), request, terms, site, refuses, result.error)
      ensures result.Refused? ==>
        IsDecision(old(files), request, terms.head, result.decision) && !result.decision.allowed
      ensures result.Occupied? ==> FindsOccupied(old(files), request, terms, site)
      ensures result.Refused? || result.Occupied? || result.Denied? ==> files == old(files)
      ensures result.Acquired? ==> IsGranted(old(files), files, request, terms, site, ids, result.lease)
      ensures result.Acquired? && request.mode.SequentialContinue? && old(past.orderly) ==>
        ContinuesAt(old(files), old(past), request, terms, site, result.lease.path)
    {
      hide Inv, FreshRow, Continues, IsBranchFree, Taken, Claim, Apart, ValidBranch, MayStage, Publish, PublishUpTo;
      hide IsActiveMap, HasEntry, Uses, IsDecision, IsContinued, Ticks, OnlyMakes, OnlyAdds, KnowsNoMore, IsAsked;
      hide MayLast, Lifetime, IsWanted, IsGranted, IsInTheWay;
      ghost var f, h, life := files, past, writes;
      ghost var change := Acquisition(request, terms, site, ids);
      StillKnown(f);
      MakesNothing(f, f, change);
      UsesNobody(f, h, {ids.lease}, {ids.row});
      NoTick(h, terms.now);
      NotAcquired(f, h, request, terms, site, ids.lease);
      if !ValidBranch(request.branch) {
        return Denied(InvalidBranch);
      }
      var decision := Decide(request, terms.head);
      if !decision.allowed {
        return Refused(decision);
      }
      var wanted := Chosen(terms.leasePath, Chosen(decision.reusePath, terms.usualPath));
      var path := site.canonical(wanted);
      TakenExactly(f, h, request, path);
      if Taken(files, request, path) {
        return Occupied;
      }
      if !site.allowed(wanted) {
        return Denied(PathNotAllowed);
      }
      var intent := AcquireIntent(request, terms, site, ids, path, expires);
      AcquireMayStage(files, past, request, intent);
      WantedPath(f, h, request, terms, decision);
      AskedIntent(f, request, terms, site, ids, wanted);
      var end := PublishMutation(intent, refuses);
      MakesAdded(f, files, change, intent.record);
      if end == LedgerFull {
        NotAcquired(files, past, request, terms, site, ids.lease);
      } else if request.mode.SequentialContinue? && h.orderly {
        ghost var last, n := decision.reusePath.value, if end == Finished then 5 else life;
        RegistryUpTo(f, intent, n);
        AcquiredContinues(f, h, intent, n, files, past, request, terms, site, last);
      }
      if end == Finished {
        PublishedFacts(f, h, files, past, intent);
        GrantedFacts(f, files, request, terms, site, ids, intent);
        result := Acquired(intent.record.lease);
      } else {
        result := if end == LedgerFull then Denied(SnapshotLimit) else AcquireDied;
        if end == Died {
          Interrupted(f, intent, life, files, ids.lease, ids.row);
        }
      }
    }

    /** acquireLease. The middle state is that in which the decision is taken. */
    method AcquireLease(request: LeaseRequest, terms: Terms, site: Site, ids: FreshIds, order: seq<string>, w: World,
                        refuses: bool)
      returns (result: AcquireResult, ghost mid: Files, ghost known: History)
      requires Valid() && NoRepeats(order)
      requires ids.lease !in files.registry.records && ids.lease !in files.registry.pending
        && FreshRow(files, past.log, ids.row)
      modifies this
      ensures Valid() && Inv(mid, known) && known.releases >= old(past.releases) && known.orderly == old(past.orderly)
      ensures Uses(old(files), old(past), files, past, {ids.lease}, {ids.row})
      ensures OnlySeenGone(old(files), old(past), past, w)
      ensures Ticks(old(past), past, terms.now)
      ensures OnlyMakes(old(files), files, Acquisition(request, terms, site, ids))
      ensures request.mode.SequentialContinue? && old(past.orderly) ==>
        IsContinued(files, past, request, terms, site, ids.lease)
      ensures old(past.mapped) && NoneReappears(old(files), w) ==> past.mapped
      ensures !AtOnce(result) ==> !InConflict(old(files))
      ensures AtOnce(result) ==> files == mid == old(files)
      ensures !AtOnce(result) && !result.AcquireDied? ==> Replayed(old(files), order, w, mid)
      ensures result.AcquireDied? ==>
        writes == 0 && DiedInMutation(old(files), order, w, mid, ids.lease, ids.row, files)
      ensures result.Denied? ==> AcquireDenial(mid, request, terms, site, refuses, result.error)
      ensures result.Refused? ==> IsDecision(mid, request, terms.head, result.decision) && !result.decision.allowed
      ensures result.Occupied? ==> FindsOccupied(mid, request, terms, site)
      ensures result.Refused? || result.Occupied? || result.Denied? ==> files == mid
      ensures result.Acquired? ==> IsGranted(mid, files, request, terms, site, ids, result.lease)
      ensures result.Acquired? && request.mode.SequentialContinue? && known.orderly ==>
        ContinuesAt(mid, known, request, terms, site, result.lease.path)
    {
      hide Inv, NoneReappears, NothingNew, FreshRow, IsReclaimed, OnlySeenGone, StoppedEarly, Replay, Continues, Uses;
      hide InConflict, ContinuesAt, IsGranted, IsDecision, FindsForbidden, ValidBranch, FindsOccupied, DiedPublishing;
      hide IsContinued, OnlyMakes, KnowsNoMore, MayLast, Lifetime;
      mid, known := files, past;
      ghost var change := Acquisition(request, terms, site, ids);
      StillKnown(files);
      MakesNothing(files, files, change);
      ExpiryIsRight(terms.now, terms.ttl, request.ttl);
      NotAcquired(files, past, request, terms, site, ids.lease);
      NothingChanged(files, past);
      NobodySeenGone(files, past, w);
      UsesNobody(files, past, {ids.lease}, {ids.row});
      var expires := Expiry(terms.now, Chosen(terms.ttl, Chosen(request.ttl, DEFAULT_TTL)));
      if expires.None? {
        return Denied(InvalidTtl), mid, known;
      }
      ghost var f, h := files, past;
      var start;
      ghost var clean;
      start, clean := BeginMutation(order, w);
      StillFresh(f, h, files, past, ids);
      UsesNothing(f, h, files, past, {ids.lease}, {ids.row});
      MakesNothing(f, files, change);
      mid, known := files, past;
      NotAcquired(files, past, request, terms, site, ids.lease);
      if start == Conflicting {
        return Denied(LegacyConflict), mid, known;
      }
      if start == Killed {
        return AcquireDied, mid, known;
      }
      result := GrantLease(request, terms, site, ids, expires.value, refuses);
      MakesOnlyStill(f, mid, files, change);
      UsesMore(f, h, mid, known, files, past, {ids.lease}, {ids.row});
      NoMoreSeenGone(f, h, known, past, w);
    }

    /** renewLease once the mutation has begun. */
    method ProlongLease(l: Lease, now: int, ttl: Option<int>, dirty: Option<DirtyState>, head: Option<string>,
                        rowId: string, refuses: bool)
      returns (result: ChangeResult)
      requires Valid() && files.registry.reclamation.None? && FreshRow(files, past.log, rowId)
      modifies this
      ensures Valid() && Uses(old(files), old(past), files, past, {}, {rowId}) && (old(past.mapped) ==> past.mapped)
      ensures past.gone == old(past.gone) && Ticks(old(past), past, now)
      ensures OnlyMakes(old(files), files, Prolonging(l.id, now, ttl, dirty, head))
      ensures files != old(files) ==> OwnershipError(old(files), l).None?
      ensures result.ChangeDied? ==> writes == 0 && DiedPublishing(old(files), l.id, rowId, files)
      ensures result.Declined? ==> files == old(files) && result.error != LegacyConflict
      ensures result.Declined? ==>
        if OwnershipError(old(files), l).Some? then result.error == OwnershipError(old(files), l).value
        else RenewDenial(old(files), l, now, ttl, refuses, result.error)
      ensures result.Changed? ==>
        && OwnershipError(old(files), l).None?
        && IsRenewed(old(files), files, Prolonging(l.id, now, ttl, dirty, head), rowId)
      ensures !result.Unchanged?
    {
      hide Inv, FreshRow, MayStage, Publish, PublishUpTo, IsActiveMap, HasEntry, Uses, OwnerError, IsRenewed;
      hide IsCutShort, DiedPublishing, OwnershipError, OnlyMakes, OnlyAdds, KnowsNoMore, IsProlonged;
      ghost var f, h, life := files, past, writes;
      ghost var change := Prolonging(l.id, now, ttl, dirty, head);
      StillKnown(f);
      MakesNothing(f, f, change);
      OwnershipCases(f, l);
      UsesNobody(f, h, {}, {rowId});
      if OwnershipError(files, l).Some? {
        return Declined(OwnershipError(files, l).value);
      }
      var record := files.registry.records[l.id];
      if now < record.lease.renewedAt {
        return Declined(InvalidClock);
      }
      var expires := Expiry(now, Chosen(ttl, Chosen(record.request.ttl, DEFAULT_TTL)));
      ExpiryIsRight(now, ttl, record.request.ttl);
      hide Expiry, MayLast, Lifetime, Chosen;
      if expires.None? {
        return Declined(InvalidTtl);
      }
      var intent := RenewIntent(record, now, expires.value, dirty, head, rowId);
      KeyedById(files, past, l.id);
      ProlongedIntent(f, l.id, now, expires.value, ttl, dirty, head, rowId);
      ChangeMayStage(files, past, l.id, intent);
      var end := PublishMutation(intent, refuses);
      MakesAdded(f, files, change, intent.record);
      UsesOwn(f, h, files, past, l.id, rowId);
      if end == Finished {
        RenewFacts(f, h, files, past, change, intent);
      }
      if end == Died {
        Interrupted(f, intent, life, files, l.id, rowId);
      }
      result := if end == Finished then Changed else if end == LedgerFull then Declined(SnapshotLimit) else ChangeDied;
    }

    /** renewLease. */
    method RenewLease(l: Lease, now: int, ttl: Option<int>, dirty: Option<DirtyState>, head: Option<string>,
                      rowId: string, order: seq<string>, w: World, refuses: bool)
      returns (result: ChangeResult, ghost mid: Files)
      requires Valid() && NoRepeats(order) && FreshRow(files, past.log, rowId)
      modifies this
      ensures Valid() && Uses(old(files), old(past), files, past, {}, {rowId})
      ensures OnlyMakes(old(files), files, Prolonging(l.id, now, ttl, dirty, head))
      ensures files != mid ==> OwnershipError(mid, l).None?
      ensures OnlySeenGone(old(files), old(past), past, w) && Ticks(old(past), past, now)
      ensures old(past.mapped) && NoneReappears(old(files), w) ==> past.mapped
      ensures result == Declined(LegacyConflict) <==> InConflict(old(files))
      ensures InConflict(old(files)) ==> files == mid == old(files)
      ensures !InConflict(old(files)) && !result.ChangeDied? ==> Replayed(old(files), order, w, mid)
      ensures result.ChangeDied? ==> writes == 0 && DiedInMutation(old(files), order, w, mid, l.id, rowId, files)
      ensures result.Declined? ==> files == mid
      ensures result.Declined? && result.error != LegacyConflict ==>
        if OwnershipError(mid, l).Some? then result.error == OwnershipError(mid, l).value
        else RenewDenial(mid, l, now, ttl, refuses, result.error)
      ensures result.Changed? ==>
        OwnershipError(mid, l).None? && IsRenewed(mid, files, Prolonging(l.id, now, ttl, dirty, head), rowId)
      ensures !result.Unchanged?
    {
      hide Inv, NoneReappears, NothingNew, FreshRow, IsReclaimed, OnlySeenGone, StoppedEarly, Replay, Uses;
      hide InConflict, DiedPublishing, IsRenewed, OwnershipError, RenewDenial, OnlyMakes, KnowsNoMore;
      ghost var f, h := files, past;
      ghost var change := Prolonging(l.id, now, ttl, dirty, head);
      var start;
      ghost var clean;
      start, clean := BeginMutation(order, w);
      RowStillFresh(f, h, files, past, rowId);
      UsesNothing(f, h, files, past, {}, {rowId});
      MakesNothing(f, files, change);
      mid := files;
      if start == Conflicting {
        return Declined(LegacyConflict), mid;
      }
      if start == Killed {
        return ChangeDied, mid;
      }
      ghost var known := past;
      result := ProlongLease(l, now, ttl, dirty, head, rowId, refuses);
      MakesOnlyStill(f, mid, files, change);
      UsesMore(f, h, mid, known, files, past, {}, {rowId});
      NoMoreSeenGone(f, h, known, past, w);
    }

    /** Publishes the release of an active lease. */
    method PublishRelease(id: string, now: int, rowId: string, cause: Cause, refuses: bool) returns (end: Ending)
      requires Valid() && files.registry.reclamation.None? && FreshRow(files, past.log, rowId)
      requires id in files.registry.records && files.registry.records[id].active && id !in files.registry.pending
      modifies this
      ensures Valid() && end != RowMismatch && past.gone == old(past.gone) && past.removed == old(past.removed)
      ensures Uses(old(files), old(past), files, past, {}, {rowId}) && (old(past.mapped) ==> past.mapped)
      ensures Ticks(old(past), past, now) && OnlyMakes(old(files), files, Ending(id, now, cause))
      ensures end == Finished ==> IsReleased(old(files), files, past, id, now, cause)
      ensures end == Died ==> writes == 0 && DiedPublishing(old(files), id, rowId, files)
      ensures end == LedgerFull ==>
        refuses && files == Stage(old(files), ReleaseIntent(old(files.registry.records[id]), now, rowId, cause))
    {
      hide Inv, MayStage, Publish, PublishUpTo, IsReleased, Stage, FreshRow, Uses, DiedPublishing, OnlyMakes, OnlyAdds;
      var intent := ReleaseIntent(files.registry.records[id], now, rowId, cause);
      KeyedById(files, past, id);
      EndedRecord(files, id, now, rowId, cause);
      ChangeMayStage(files, past, id, intent);
      ghost var f, h, life := files, past, writes;
      end := PublishMutation(intent, refuses);
      MakesAdded(f, files, Ending(id, now, cause), intent.record);
      UsesOwn(f, h, files, past, id, rowId);
      if end == Finished {
        ReleaseFacts(f, h, files, past, id, now, cause, intent);
      }
      if end == Died {
        Interrupted(f, intent, life, files, id, rowId);
      }
    }

    /** releaseLease; a full ledger leaves the intent behind. */
    method ReleaseLease(l: Lease, now: int, rowId: string, order: seq<string>, w: World, refuses: bool)
      returns (result: ChangeResult, ghost mid: Files)
      requires Valid() && NoRepeats(order) && FreshRow(files, past.log, rowId)
      modifies this
      ensures Valid() && Uses(old(files), old(past), files, past, {}, {rowId})
      ensures OnlyMakes(old(files), files, Ending(l.id, now, HolderRelease))
      ensures OnlySeenGone(old(files), old(past), past, w) && Ticks(old(past), past, now)
      ensures old(past.mapped) && NoneReappears(old(files), w) ==> past.mapped
      ensures result == Declined(LegacyConflict) <==> InConflict(old(files))
      ensures InConflict(old(files)) ==> files == mid == old(files)
      ensures !InConflict(old(files)) && !result.ChangeDied? ==> Replayed(old(files), order, w, mid)
      ensures result.ChangeDied? ==> writes == 0 && DiedInMutation(old(files), order, w, mid, l.id, rowId, files)
      ensures result.Declined? && result.error != LegacyConflict ==> ReleaseDenial(mid, l, now, refuses, result.error)
      ensures result.Unchanged? ==>
        files == mid && (l.id in mid.registry.records ==> !mid.registry.records[l.id].active)
      ensures result.Declined? && result.error != SnapshotLimit ==> files == mid
      ensures result == Declined(SnapshotLimit) ==>
        && l.id in mid.registry.records
        && files == Stage(mid, ReleaseIntent(mid.registry.records[l.id], now, rowId, HolderRelease))
      ensures files != mid ==> MayRelease(mid, l, now)
      ensures result.Changed? ==> MayRelease(mid, l, now) && IsReleased(mid, files, past, l.id, now, HolderRelease)
    {
      hide Inv, NoneReappears, NothingNew, FreshRow, IsReclaimed, OnlySeenGone, StoppedEarly, Replay, MayStage;
      hide Publish, PublishUpTo, IsReleased, Stage, Uses, InConflict, DiedPublishing, OwnerError, ReleaseIntent;
      hide OnlyMakes, KnowsNoMore, MayRelease;
      OwnerErrors(l);
      ghost var f, h := files, past;
      ghost var change := Ending(l.id, now, HolderRelease);
      var start;
      ghost var clean;
      start, clean := BeginMutation(order, w);
      RowStillFresh(f, h, files, past, rowId);
      UsesNothing(f, h, files, past, {}, {rowId});
      MakesNothing(f, files, change);
      mid := files;
      if start == Conflicting {
        return Declined(LegacyConflict), mid;
      }
      if start == Killed {
        return ChangeDied, mid;
      }
      if l.id !in files.registry.records {
        return Unchanged, mid;
      }
      var record := files.registry.records[l.id];
      if OwnerError(record.lease, l).Some? {
        return Declined(OwnerError(record.lease, l).value), mid;
      }
      if !record.active {
        return Unchanged, mid;
      }
      if l.id in files.registry.pending {
        return Declined(Incomplete), mid;
      }
      if now < record.lease.acquiredAt {
        return Declined(InvalidClock), mid;
      }
      ghost var known := past;
      OwnerMayRelease(files, past, l, now);
      var end := PublishRelease(l.id, now, rowId, HolderRelease, refuses);
      MakesOnlyStill(f, mid, files, change);
      UsesMore(f, h, mid, known, files, past, {}, {rowId});
      NoMoreSeenGone(f, h, known, past, w);
      result := if end == Finished then Changed else if end == LedgerFull then Declined(SnapshotLimit) else ChangeDied;
    }

    // ----- retention -----

    method WriteReclamation(ids: set<string>, marks: map<Continuation, int>) returns (ok: bool)
      requires Valid() && AreWatermarks(files.registry, ids, marks)
      modifies this
      ensures (ok <==> old(writes) > 0) && writes == if ok then old(writes) - 1 else 0
      ensures Valid() && past == old(past)
      ensures files == if ok then StageReclamation(old(files), Reclamation(ids, marks)) else old(files)
    {
      StageReclamationKeepsInv(files, past, ids, marks);
      hide Inv, AreWatermarks;
      ok := writes > 0;
      if ok {
        files, writes := StageReclamation(files, Reclamation(ids, marks)), writes - 1;
      }
    }

    method CompactLedger(oldest: Option<int>, keep: set<nat>) returns (ok: bool)
      requires Valid() && KeepsPinned(files, oldest, keep)
      modifies this
      ensures (ok <==> old(writes) > 0) && writes == if ok then old(writes) - 1 else 0
      ensures Valid() && past == old(past)
      ensures files == if ok then Compact(old(files), keep) else old(files)
    {
      CompactKeepsInv(files, past, oldest, keep);
      hide Inv, KeepsPinned, KeepRows;
      ok := writes > 0;
      if ok {
        files, writes := Compact(files, keep), writes - 1;
      }
    }

    /** retainHistory: the releases that will lose their last row are staged with their watermarks, the
        ledger is compacted, and then the staged releases leave the registry. The selection is taken once
        for the staging and once more for the compaction, which keeps what either of them keeps. */
    method RetainHistory(oldest: Option<int>, first: Files -> set<nat>, second: Files -> set<nat>, order: seq<string>,
                         w: World)
      returns (result: Retention, ghost staged: Files, ghost kept: set<nat>)
      requires Valid() && NoRepeats(order)
      requires (forall f :: KeepsPinned(f, oldest, first(f))) && forall f :: KeepsPinned(f, oldest, second(f))
      modifies this
      ensures Valid() && NothingNew(old(files), old(past), files, past) && OnlySeenGone(old(files), old(past), past, w)
      ensures old(past.mapped) && NoneReappears(old(files), w) ==> past.mapped
      ensures result == NotRetained <==> InConflict(old(files))
      ensures result == NotRetained ==> files == old(files)
      ensures result == RetentionDied ==> writes == 0
      ensures old(files.registry.pending) == map[] && old(writes) >= CostOfFinishing(old(files)) + 3 ==>
        result != RetentionDied
      ensures result == Retained ==>
        && IsReclaimed(old(files), BeforeStaging(staged))
        && staged.registry.reclamation.Some?
        && staged.registry.reclamation.value.leaseIds == Reclaimed(staged, first(BeforeStaging(staged)))
      ensures result == Retained ==>
        && KeepsPinned(staged, oldest, kept) && kept == first(BeforeStaging(staged)) + second(staged)
        && exists clean :: IsReclaimed(Compact(staged, kept), clean) && files == Replay(clean, order, w)
    {
      hide Inv, KeepsPinned, IsReclaimed, AreWatermarks, Reclaimed, Compact, NoneReappears, NothingNew, Replay;
      hide OnlySeenGone, InConflict, CostOfReplay;
      staged, kept := files, {};
      var conflict := EnsureManagedStore();
      ghost var before, h := files, past;
      NothingChanged(before, h);
      NobodySeenGone(before, h, w);
      if conflict {
        return NotRetained, staged, kept;
      }
      result := RetentionDied;
      var ok := FinishReclamation();
      if !ok {
        return;
      }
      ReclaimedFacts(before, past, files, w);
      var clean := files;
      var keep := first(files);
      var ids := Reclaimed(files, keep);
      ReclaimedIsKnown(files, keep);
      var marks := CollectWatermarks(files.registry, ids);
      ok := WriteReclamation(ids, marks);
      if !ok {
        return;
      }
      staged := files;
      SameKnown(clean, staged, h);
      NothingNewStill(before, h, clean, h, files, h);
      kept := keep + second(files);
      var all := keep + second(files);
      assert BeforeStaging(staged) == clean;
      SameKeep(clean, staged, oldest, keep, second(staged));
      ok := CompactLedger(oldest, all);
      if !ok {
        return;
      }
      ghost var compacted := files;
      CompactFacts(clean, staged, all, w);
      SameKnown(staged, compacted, h);
      NothingNewStill(before, h, staged, h, compacted, h);
      ok := FinishReclamation();
      if !ok {
        return;
      }
      ReclaimedFacts(compacted, past, files, w);
      ghost var final := files;
      NothingNewStill(before, h, compacted, h, final, h);
      SeenThrough(before, clean, staged, compacted, final, h, w);
      var end;
      ghost var at, done;
      end, at, done := ReplayPending(order, w);
      NothingNewStill(before, h, final, h, files, past);
      if end == Finished {
        result := Retained;
        assert IsReclaimed(Compact(staged, kept), final) && files == Replay(final, order, w);
      } else if final.registry.pending == map[] {
        QuietReplay(final, order, w);
      }
    }

    // ----- removals -----

    /** stageRemoval. */
    method StageRemoval(id: string, identity: Identity, now: int, rowId: string) returns (ok: bool)
      requires Valid() && files.registry.reclamation.None? && FreshRow(files, past.log, rowId)
      requires id in files.registry.records && files.registry.records[id].active && id !in files.registry.pending
      modifies this
      ensures Uses(old(files), old(past), files, past, {}, {rowId})
      ensures OnlyMakes(old(files), files, Ending(id, now, Reconciliation))
      ensures (ok <==> old(writes) > 0) && writes == if ok then old(writes) - 1 else 0
      ensures Valid()
      ensures past ==
        if ok then old(past).(clock := now, orderly := old(past.orderly) && now >= old(past.clock)) else old(past)
      ensures ok ==> files == Stage(old(files), RemovalIntent(old(files.registry.records[id]), now, rowId, identity))
      ensures !ok ==> files == old(files)
    {
      hide Inv, MayStage, Stage, FreshRow, Uses, OnlyMakes, OnlyAdds;
      var intent := RemovalIntent(files.registry.records[id], now, rowId, identity);
      ghost var f, h := files, past;
      KeyedById(files, past, id);
      EndedRecord(f, id, now, rowId, Reconciliation);
      StagingAdds(f, intent);
      ChangeMayStage(files, past, id, intent);
      StagingUses(f, h, intent);
      ok := StageIntent(intent);
      MakesAdded(f, files, Ending(id, now, Reconciliation), intent.record);
      UsesOwn(f, h, files, past, id, rowId);
    }

    /** markRemovalDone: the worktree has been removed. */
    method MarkRemovalDone(id: string) returns (ok: bool)
      requires Valid() && id in files.registry.pending && files.registry.pending[id].removal.Some?
      modifies this
      ensures NothingNew(old(files), old(past), files, past)
      ensures (ok <==> old(writes) > 0) && writes == if ok then old(writes) - 1 else 0
      ensures Valid() && past == if ok then old(past).(gone := old(past).gone + {id}) else old(past)
      ensures files == if ok then MarkDone(old(files), id) else old(files)
    {
      hide Inv, NothingNew, MarkDone;
      MarkDoneKeepsInv(files, past, id);
      MarkingAddsNothing(files, past, id);
      ok := writes > 0;
      if ok {
        past := past.(gone := past.gone + {id});
        files, writes := MarkDone(files, id), writes - 1;
      }
    }

    /** publishMutation for an intent that stands already: it is written once more as it is, and applied. */
    method PublishRemoval(id: string, refuses: bool) returns (end: Ending)
      requires Valid() && files.registry.reclamation.None? && id in files.registry.pending
      requires files.registry.pending[id].operation.RemoveOp? && id in past.gone
      modifies this
      ensures Valid() && end != RowMismatch && past.gone == old(past.gone) && (old(past.mapped) ==> past.mapped)
      ensures NothingNew(old(files), old(past), files, past)
      ensures end == Finished ==> files == Apply(old(files), old(files.registry.pending[id])) && id in past.removed
      ensures end == Finished ==>
        writes == old(writes) - 1 - CostOfApplying(old(files), old(files.registry.pending[id]))
      ensures end == Died ==> writes == 0 && old(writes) <= CostOfApplying(old(files), old(files.registry.pending[id]))
      ensures end == Died ==>
        || files == old(files)
        || exists n: nat :: n <= 3 && files == ApplyUpTo(old(files), old(files.registry.pending[id]), n)
      ensures end == LedgerFull ==> refuses && files == old(files) && past == old(past)
    {
      hide Inv, Apply, ApplyUpTo, HasRow, Carries, NothingNew;
      ghost var f, h := files, past;
      NothingChanged(f, h);
      KeyedIntent(f, h, id);
      assert files.registry.pending[id := files.registry.pending[id]] == files.registry.pending;
      if writes == 0 {
        return Died;
      }
      writes := writes - 1;
      CarriesGone(past, files.registry.pending[id]);
      ghost var done;
      end, done := ApplyIntent(id, refuses);
      ApplyAddsNothing(f, h, h, id, done, past);
    }
  }

  /** Nothing is pending, neither an intent nor a reclamation. */
  predicate IsQuiet(f: Files) {
    f.registry.pending == map[] && f.registry.reclamation.None?
  }

  /** A mutation of quiet files begins without a write. */
  lemma QuietBegins(f: Files, clean: Files, life: nat, order: seq<string>, w: World, g: Files)
    requires IsQuiet(f)
    ensures IsReclaimed(f, clean) ==> clean == f && CostOfReplay(clean, order, w) == 0 && Replay(clean, order, w) == f
    ensures StoppedEarly(f, life, clean, order, w, g) ==> IsReclaimed(f, clean)
  {
    QuietReplay(f, order, w);
  }

  lemma UsesNoMore(f: Files, h: History, g: Files, k: History, l: Files, m: History, leases: set<string>,
                   rows: set<string>)
    requires Uses(f, h, g, k, leases, rows) && NothingNew(g, k, l, m)
    ensures Uses(f, h, l, m, leases, rows) && m.clock == k.clock && m.orderly == k.orderly && KnowsNoMore(g, l)
  {
    hide FreshRow, KnowsNoMore;
  }
}
