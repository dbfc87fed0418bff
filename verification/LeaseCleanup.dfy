/** Removing the worktree of a lease: announce, remove, mark, release, with a crash possible anywhere. */
module LeaseCleanup {
  import opened Wrappers
  import opened WorktreeLeases
  import opened LeaseRecovery
  import opened LeaseInvariants
  import opened LeaseManager

  datatype Liveness = Alive | Missing | OtherHost | UnknownProcess

  datatype StopReason =
    | FencingTokenMismatch | ReadOnlyReviewer | UnknownDirtyState | DirtyWorktree | ActiveProcess | DifferentHost
    | ProcessUnknown | BranchDiverged | HolderDiffers | PathOverride | RepoRootUnproven | PathUnproven
    | PathIdentityUnproven | UnregisteredWorktree | PathIdentityChanged | Ownership(error: LeaseError)

  /** What the caller of the cleanup claims. */
  datatype Orders = Orders(
    token: string, allowReadOnly: bool, dirty: Option<DirtyState>, liveness: Option<Liveness>,
    branchMatches: Option<bool>,
    holder: Option<Holder>, onThisHost: bool, overridesAgree: bool)

  /** What the cleanup sees for itself: the holder process, the directory, its registration as a worktree,
      and the state of the worktree. */
  datatype Sighting = Sighting(
    liveness: Liveness, isSelf: bool, identity: Option<Identity>, rootKnown: bool, registration: Option<string>,
    pathValid: bool, repositoryVerified: bool, dirty: DirtyState, branch: string, sameAtLast: bool)

  datatype Scene = Stop(reason: StopReason) | PathGone | MayRemove(identity: Identity)

  function LivenessReason(l: Liveness): StopReason {
    match l
    case Alive => ActiveProcess
    case OtherHost => DifferentHost
    case _ => ProcessUnknown
  }

  /** The checks of cleanupLeasedWorktree before anything is written, in their order. */
  function Assess(record: StoredLease, orders: Orders, seen: Sighting): Scene {
    var l := record.lease;
    if l.token != orders.token then Stop(FencingTokenMismatch)
    else if l.mode == ReadOnly && !orders.allowReadOnly then Stop(ReadOnlyReviewer)
    else if orders.dirty == Some(Unknown) then Stop(UnknownDirtyState)
    else if orders.dirty == Some(Dirty) then Stop(DirtyWorktree)
    else if orders.liveness.Some? && orders.liveness.value != Missing then Stop(LivenessReason(orders.liveness.value))
    else if orders.branchMatches == Some(false) then Stop(BranchDiverged)
    else if orders.holder != Some(l.holder) then Stop(HolderDiffers)
    else if !orders.onThisHost then Stop(DifferentHost)
    else if !orders.overridesAgree then Stop(PathOverride)
    else if !seen.rootKnown then Stop(RepoRootUnproven)
    else if seen.registration.Some? && seen.registration.value != l.branch then Stop(BranchDiverged)
    else if seen.identity.None? then
      if seen.liveness != Missing && !(seen.isSelf && seen.liveness == Alive) then Stop(LivenessReason(seen.liveness))
      else PathGone
    else if seen.liveness != Missing then Stop(LivenessReason(seen.liveness))
    else if !seen.pathValid then Stop(PathUnproven)
    else if record.identity != seen.identity then Stop(PathIdentityUnproven)
    else if seen.registration.None? || !seen.repositoryVerified then Stop(UnregisteredWorktree)
    else if seen.dirty != Clean then Stop(if seen.dirty == Dirty then DirtyWorktree else UnknownDirtyState)
    else if seen.branch != l.branch then Stop(BranchDiverged)
    else if !seen.sameAtLast then Stop(PathIdentityChanged)
    else MayRemove(seen.identity.value)
  }

  /** Nothing that the caller says stands against the removal. */
  predicate OrdersAllow(record: StoredLease, orders: Orders) {
    && orders.token == record.lease.token && orders.holder == Some(record.lease.holder)
    && (record.lease.mode == ReadOnly ==> orders.allowReadOnly)
    && (orders.dirty.Some? ==> orders.dirty.value == Clean)
    && (orders.liveness.Some? ==> orders.liveness.value == Missing)
    && orders.branchMatches != Some(false) && orders.onThisHost && orders.overridesAgree
  }

  /** The worktree is the one that was leased, at its path and registered for the branch of the lease, which
      it is on; it is clean; and nothing has changed at the last look. */
  predicate IsProven(record: StoredLease, seen: Sighting) {
    && record.identity.Some? && seen.identity == record.identity && seen.pathValid && seen.rootKnown
    && seen.registration == Some(record.lease.branch) && seen.repositoryVerified && seen.branch == record.lease.branch
    && seen.dirty == Clean && seen.sameAtLast
  }

  /** A worktree may be removed if and only if it is proven to be the leased one, its holder is gone, and the
      caller says nothing against it; its lease may be reconciled without a removal if and only if, besides,
      there is nothing at the path, and no other branch is registered there. */
  lemma RemovalNeedsProof(record: StoredLease, orders: Orders, seen: Sighting)
    ensures Assess(record, orders, seen).MayRemove? <==>
      OrdersAllow(record, orders) && IsProven(record, seen) && seen.liveness == Missing
    ensures Assess(record, orders, seen).MayRemove? ==> Some(Assess(record, orders, seen).identity) == record.identity
    ensures Assess(record, orders, seen).PathGone? <==>
      && OrdersAllow(record, orders) && seen.rootKnown && seen.identity.None?
      && (seen.registration.Some? ==> seen.registration.value == record.lease.branch)
      && (seen.liveness == Missing || (seen.isSelf && seen.liveness == Alive))
  {
  }

  /** The reason given for a stop is so: by what the caller says, or by what is seen. */
  predicate IsTrueStop(record: StoredLease, orders: Orders, seen: Sighting, reason: StopReason) {
    match reason
    case FencingTokenMismatch => orders.token != record.lease.token
    case ReadOnlyReviewer => record.lease.mode == ReadOnly && !orders.allowReadOnly
    case UnknownDirtyState => orders.dirty == Some(Unknown) || seen.dirty == Unknown
    case DirtyWorktree => orders.dirty == Some(Dirty) || seen.dirty == Dirty
    case ActiveProcess => orders.liveness == Some(Alive) || seen.liveness == Alive
    case DifferentHost => orders.liveness == Some(OtherHost) || seen.liveness == OtherHost || !orders.onThisHost
    case ProcessUnknown => orders.liveness == Some(UnknownProcess) || seen.liveness == UnknownProcess
    case BranchDiverged =>
      || orders.branchMatches == Some(false) || seen.branch != record.lease.branch
      || seen.registration !in {None, Some(record.lease.branch)}
    case HolderDiffers => orders.holder != Some(record.lease.holder)
    case PathOverride => !orders.overridesAgree
    case RepoRootUnproven => !seen.rootKnown
    case PathUnproven => !seen.pathValid
    case PathIdentityUnproven => record.identity != seen.identity
    case UnregisteredWorktree => seen.registration == None || !seen.repositoryVerified
    case PathIdentityChanged => !seen.sameAtLast
    case Ownership(_) => false
  }

  lemma StopsAreTrue(record: StoredLease, orders: Orders, seen: Sighting)
    ensures
      Assess(record, orders, seen).Stop? ==> IsTrueStop(record, orders, seen, Assess(record, orders, seen).reason)
  {
  }

  datatype CleanupResult = Blocked(reason: StopReason) | Reconciled | Removed | Unfinished(deleted: bool) | Full
    | CleanupDied

  /** Why a cleanup is blocked. */
  predicate MayBlock(f: Files, l: Lease, orders: Orders, seen: Sighting, now: int, reason: StopReason) {
    if OwnershipError(f, l).Some? then reason == Ownership(OwnershipError(f, l).value)
    else
      var record := f.registry.records[l.id];
      (Assess(record, orders, seen) == Stop(reason) && IsTrueStop(record, orders, seen, reason))
        || (reason == Ownership(InvalidClock) && now < record.lease.acquiredAt)
  }

  /** Nothing stops the removal. */
  predicate GoesAhead(f: Files, l: Lease, orders: Orders, seen: Sighting, now: int) {
    && OwnershipError(f, l).None? && now >= f.registry.records[l.id].lease.acquiredAt
    && Assess(f.registry.records[l.id], orders, seen).MayRemove?
  }

  /** The caller owns the lease, which was acquired by then, and nothing stops the cleanup. */
  predicate MayCleanUp(f: Files, l: Lease, orders: Orders, seen: Sighting, now: int) {
    && OwnershipError(f, l).None? && l.id in f.registry.records && now >= f.registry.records[l.id].lease.acquiredAt
    && !Assess(f.registry.records[l.id], orders, seen).Stop?
  }

  ghost predicate DiedReleasing(f: Files, id: string, g: Files) {
    && id in f.registry.pending && f.registry.pending[id].removal.Some?
    && var marked := MarkDone(f, id);
       || g == marked
       || (id in marked.registry.pending
           && exists n: nat :: n <= 3 && g == ApplyUpTo(marked, marked.registry.pending[id], n))
  }

  /** The process died while it announced the removal, marked it as done, or released the lease. */
  ghost predicate DiedRemoving(f: Files, id: string, now: int, rowId: string, g: Files) {
    && id in f.registry.records && f.registry.records[id].identity.Some?
    && var record := f.registry.records[id];
       var announced := Stage(f, RemovalIntent(record, now, rowId, record.identity.value));
       g == f || g == announced || DiedReleasing(announced, id, g)
  }

  /** The removal is announced, and nothing else has changed. */
  predicate IsAnnounced(f: Files, g: Files, id: string, now: int, rowId: string) {
    && id in f.registry.records && f.registry.records[id].identity.Some?
    && g == Stage(f, RemovalIntent(f.registry.records[id], now, rowId, f.registry.records[id].identity.value))
  }

  /** The lease is released by the removal, everywhere. */
  ghost predicate IsRemoved(f: Files, g: Files, id: string, now: int, rowId: string) {
    && id in f.registry.records && id in g.registry.records && g.registry.pending == f.registry.pending
    && id !in f.registry.pending
    && g.registry.records == f.registry.records[id := g.registry.records[id]]
    && IsEnded(f.registry.records[id], g.registry.records[id], now, Reconciliation)
    && g.ledger == f.ledger + [Row(rowId, g.registry.records[id].lease)] && IsActiveMap(g.active, g.registry.records)
  }

  lemma RemovalFacts(f: Files, id: string, now: int, rowId: string, identity: Identity)
    requires id in f.registry.records && f.registry.records[id].lease.id == id
    ensures
      var intent := RemovalIntent(f.registry.records[id], now, rowId, identity);
      var g := Stage(f, intent);
      && id in g.registry.pending && g.registry.pending[id] == intent && intent.operation.RemoveOp?
      && Announced(intent) && g.registry.reclamation == f.registry.reclamation
  {
  }

  lemma MarkFacts(f: Files, id: string)
    requires id in f.registry.pending && f.registry.pending[id].removal.Some?
    ensures
      var g := MarkDone(f, id);
      && id in g.registry.pending && g.registry.pending[id].operation == f.registry.pending[id].operation
      && g.registry.reclamation == f.registry.reclamation
  {
  }

  lemma MarkedIsStaged(f: Files, removal: Intent, identity: Identity, d: Files, id: string)
    requires removal.record.lease.id == id && removal.removal == Some(Removal.Prepared(identity))
    requires
      var s := Stage(f, removal);
      id in s.registry.pending && s.registry.pending[id].removal.Some? && d == MarkDone(s, id)
    ensures d == Stage(f, removal.(removal := Some(Done(identity))))
  {
    var done := removal.(removal := Some(Done(identity)));
    assert f.registry.pending[id := removal][id := done] == f.registry.pending[id := done];
  }

  lemma RemovedFacts(f: Files, h: History, d: Files, g: Files, k: History, id: string, now: int, rowId: string,
                     identity: Identity)
    requires Inv(f, h) && Inv(g, k) && !HasRow(h.log, rowId)
    requires id in f.registry.records && f.registry.records[id].lease.id == id && id !in f.registry.pending
    requires f.registry.records[id].active
    requires
      var s := Stage(f, RemovalIntent(f.registry.records[id], now, rowId, identity));
      id in s.registry.pending && s.registry.pending[id].removal.Some? && d == MarkDone(s, id)
    requires id in d.registry.pending && g == Apply(d, d.registry.pending[id])
    ensures IsRemoved(f, g, id, now, rowId)
  {
    var removal := RemovalIntent(f.registry.records[id], now, rowId, identity);
    var intent := removal.(removal := Some(Done(identity)));
    MarkedIsStaged(f, removal, identity, d, id);
    hide Inv, HasRow, MarkDone, Stage, Apply, IsActiveMap, HasEntry;
    NewFacts(f, h, g, k, intent);
  }

  lemma FreshIsUnlogged(f: Files, log: seq<Row>, rowId: string)
    requires FreshRow(f, log, rowId)
    ensures !HasRow(log, rowId)
  {
  }

  /** The second half: announce, remove, mark, release. */
  method RemoveWorktree(m: Manager, id: string, identity: Identity, now: int, rowId: string, lastLook: bool,
                        removes: bool, refuses: bool)
    returns (result: CleanupResult)
    requires m.Valid() && m.files.registry.reclamation.None? && FreshRow(m.files, m.past.log, rowId)
    requires id in m.files.registry.records && m.files.registry.records[id].active && id !in m.files.registry.pending
    requires m.files.registry.records[id].lease.id == id && m.files.registry.records[id].identity == Some(identity)
    modifies m
    ensures m.Valid() && (result.Removed? || result.Unfinished? || result.CleanupDied?)
    ensures Uses(old(m.files), old(m.past), m.files, m.past, {}, {rowId}) && (old(m.past.mapped) ==> m.past.mapped)
    ensures Ticks(old(m.past), m.past, now) && OnlyMakes(old(m.files), m.files, Ending(id, now, Reconciliation))
    ensures m.past.gone == old(m.past.gone) || (lastLook && removes && m.past.gone == old(m.past.gone) + {id})
    ensures result.CleanupDied? ==> m.writes == 0 && DiedRemoving(old(m.files), id, now, rowId, m.files)
    ensures !lastLook || !removes ==> (result == Unfinished(false) <==> old(m.writes) > 0)
    ensures result.Removed? ==>
      && id in m.past.gone && id in m.past.removed && lastLook && removes
      && IsRemoved(old(m.files), m.files, id, now, rowId)
    ensures result == Unfinished(false) ==>
      (!lastLook || !removes) && IsAnnounced(old(m.files), m.files, id, now, rowId)
    ensures result == Unfinished(true) ==> refuses
  {
    hide Inv, Apply, ApplyUpTo, Stage, IsRemoved, FreshRow, HasRow, Uses, NothingNew, CostOfApplying, MarkDone;
    hide OnlyMakes, KnowsNoMore;
    ghost var f, h, change := m.files, m.past, Ending(id, now, Reconciliation);
    var ok := m.StageRemoval(id, identity, now, rowId);
    if !ok {
      return CleanupDied;
    }
    RemovalFacts(f, id, now, rowId, identity);
    FreshIsUnlogged(f, h.log, rowId);
    if !lastLook || !removes {
      return Unfinished(false);
    }
    ghost var staged, marked := m.files, m.past;
    ok := m.MarkRemovalDone(id);
    UsesNoMore(f, h, staged, marked, m.files, m.past, {}, {rowId});
    MakesNoMore(f, staged, m.files, change);
    if !ok {
      return CleanupDied;
    }
    ghost var done, known := m.files, m.past;
    MarkFacts(staged, id);
    var end := m.PublishRemoval(id, refuses);
    UsesNoMore(f, h, done, known, m.files, m.past, {}, {rowId});
    MakesNoMore(f, done, m.files, change);
    if end == Finished {
      RemovedFacts(f, h, done, m.files, m.past, id, now, rowId, identity);
    }
    result := if end == Finished then Removed else if end == LedgerFull then Unfinished(true) else CleanupDied;
  }

  /** cleanupLeasedWorktree once the mutation has begun. */
  method CleanupOwned(m: Manager, l: Lease, orders: Orders, seen: Sighting, now: int, rowId: string, lastLook: bool,
                      removes: bool, refuses: bool)
    returns (result: CleanupResult)
    requires m.Valid() && m.files.registry.reclamation.None? && FreshRow(m.files, m.past.log, rowId)
    modifies m
    ensures m.Valid() && Uses(old(m.files), old(m.past), m.files, m.past, {}, {rowId})
    ensures Ticks(old(m.past), m.past, now) && OnlyMakes(old(m.files), m.files, Ending(l.id, now, Reconciliation))
    ensures (old(m.past.mapped) ==> m.past.mapped) && result != Blocked(Ownership(LegacyConflict))
    ensures m.files != old(m.files) ==> MayCleanUp(old(m.files), l, orders, seen, now)
    ensures result.CleanupDied? ==>
      && m.writes == 0
      && (DiedPublishing(old(m.files), l.id, rowId, m.files) || DiedRemoving(old(m.files), l.id, now, rowId, m.files))
    ensures m.past.gone == old(m.past.gone) || (lastLook && removes && m.past.gone == old(m.past.gone) + {l.id})
    ensures result.Blocked? ==> m.files == old(m.files) && MayBlock(old(m.files), l, orders, seen, now, result.reason)
    ensures result.Reconciled? || result.Removed? || result.Unfinished? ==> OwnershipError(old(m.files), l).None?
    ensures result.Reconciled? ==> Assess(old(m.files).registry.records[l.id], orders, seen).PathGone?
    ensures result.Removed? || result.Unfinished? ==>
      Assess(old(m.files).registry.records[l.id], orders, seen).MayRemove?
    ensures result.Full? || result == Unfinished(true) ==> refuses
    ensures result.Reconciled? ==> IsReleased(old(m.files), m.files, m.past, l.id, now, Reconciliation)
    ensures result.Removed? ==>
      l.id in m.past.gone && lastLook && removes && IsRemoved(old(m.files), m.files, l.id, now, rowId)
    ensures result == Unfinished(false) ==>
      (!lastLook || !removes) && IsAnnounced(old(m.files), m.files, l.id, now, rowId)
    ensures !lastLook && old(m.writes) > 0 && GoesAhead(old(m.files), l, orders, seen, now) ==>
      result == Unfinished(false)
  {
    hide Inv, FreshRow, Assess, IsReleased, IsRemoved, Uses, OwnershipError, IsAnnounced, DiedRemoving, DiedPublishing;
    hide OnlyMakes, KnowsNoMore;
    ghost var f, h := m.files, m.past;
    StillKnown(f);
    MakesNothing(f, f, Ending(l.id, now, Reconciliation));
    UsesNobody(f, h, {}, {rowId});
    OwnershipCases(f, l);
    if OwnershipError(m.files, l).Some? {
      return Blocked(Ownership(OwnershipError(m.files, l).value));
    }
    var record := m.files.registry.records[l.id];
    var scene := Assess(record, orders, seen);
    StopsAreTrue(record, orders, seen);
    if scene.Stop? {
      return Blocked(scene.reason);
    }
    if now < record.lease.acquiredAt {
      return Blocked(Ownership(InvalidClock));
    }
    if scene.PathGone? {
      var end := m.PublishRelease(l.id, now, rowId, Reconciliation, refuses);
      return if end == Finished then Reconciled else if end == LedgerFull then Full else CleanupDied;
    }
    RemovalNeedsProof(record, orders, seen);
    KeyedById(f, h, l.id);
    result := RemoveWorktree(m, l.id, scene.identity, now, rowId, lastLook, removes, refuses);
  }

  /** cleanupLeasedWorktree. The removal itself may be called off at the last look, or fail. */
  method CleanupLeasedWorktree(m: Manager, l: Lease, orders: Orders, seen: Sighting, now: int, rowId: string,
                               lastLook: bool, removes: bool, order: seq<string>, w: World, refuses: bool)
    returns (result: CleanupResult, ghost mid: Files, ghost known: History)
    requires m.Valid() && NoRepeats(order) && FreshRow(m.files, m.past.log, rowId)
    modifies m
    ensures m.Valid() && OnlySeenGone(old(m.files), old(m.past), known, w)
    ensures Uses(old(m.files), old(m.past), m.files, m.past, {}, {rowId}) && Ticks(old(m.past), m.past, now)
    ensures OnlyMakes(old(m.files), m.files, Ending(l.id, now, Reconciliation))
    ensures old(m.past.mapped) && NoneReappears(old(m.files), w) ==> m.past.mapped
    ensures result == Blocked(Ownership(LegacyConflict)) <==> InConflict(old(m.files))
    ensures InConflict(old(m.files)) ==> m.files == mid == old(m.files)
    ensures !InConflict(old(m.files)) && !result.CleanupDied? ==> Replayed(old(m.files), order, w, mid)
    ensures m.files != mid ==> MayCleanUp(mid, l, orders, seen, now)
    ensures result.CleanupDied? ==> m.writes == 0
    ensures result.CleanupDied? ==>
      || DiedInMutation(old(m.files), order, w, mid, l.id, rowId, m.files)
      || (Replayed(old(m.files), order, w, mid) && DiedRemoving(mid, l.id, now, rowId, m.files))
    ensures m.past.gone == known.gone || (lastLook && removes && m.past.gone == known.gone + {l.id})
    ensures result.Blocked? ==> m.files == mid
    ensures result.Blocked? && result.reason != Ownership(LegacyConflict) ==>
      MayBlock(mid, l, orders, seen, now, result.reason)
    ensures result.Reconciled? || result.Removed? || result.Unfinished? ==> OwnershipError(mid, l).None?
    ensures result.Reconciled? ==> Assess(mid.registry.records[l.id], orders, seen).PathGone?
    ensures result.Removed? || result.Unfinished? ==> Assess(mid.registry.records[l.id], orders, seen).MayRemove?
    ensures result.Full? || result == Unfinished(true) ==> refuses
    ensures result.Reconciled? ==> IsReleased(mid, m.files, m.past, l.id, now, Reconciliation)
    ensures result.Removed? ==> l.id in m.past.gone && lastLook && removes && IsRemoved(mid, m.files, l.id, now, rowId)
    ensures result == Unfinished(false) ==> (!lastLook || !removes) && IsAnnounced(mid, m.files, l.id, now, rowId)
    ensures IsQuiet(old(m.files)) && !InConflict(old(m.files)) ==> mid == old(m.files)
    ensures IsQuiet(old(m.files)) && !InConflict(old(m.files)) && GoesAhead(old(m.files), l, orders, seen, now) ==>
      !lastLook && old(m.writes) > 0 ==> result == Unfinished(false)
  {
    hide Inv, NoneReappears, NothingNew, FreshRow, OnlySeenGone, StoppedEarly, Replay, Assess, IsReleased, Apply;
    hide IsReclaimed, IsRemoved, NoRepeats, Uses, InConflict, OwnershipError, IsAnnounced, GoesAhead, DiedRemoving;
    hide DiedPublishing, OnlyMakes, KnowsNoMore;
    ghost var f, h, change := m.files, m.past, Ending(l.id, now, Reconciliation);
    mid, known := f, h;
    NobodySeenGone(f, h, w);
    var start;
    ghost var clean;
    start, clean := m.BeginMutation(order, w);
    mid, known := m.files, m.past;
    RowStillFresh(f, h, m.files, m.past, rowId);
    UsesNothing(f, h, m.files, m.past, {}, {rowId});
    MakesNothing(f, m.files, change);
    if IsQuiet(f) {
      QuietBegins(f, clean, old(m.writes), order, w, m.files);
    }
    if start == Conflicting {
      return Blocked(Ownership(LegacyConflict)), mid, known;
    }
    if start == Killed {
      return CleanupDied, mid, known;
    }
    result := CleanupOwned(m, l, orders, seen, now, rowId, lastLook, removes, refuses);
    UsesMore(f, h, mid, known, m.files, m.past, {}, {rowId});
    MakesOnlyStill(f, mid, m.files, change);
  }
}
