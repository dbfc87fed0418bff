/** LocalLeaseStore: acquire, renew, release and expire over one state file, read and written under a lock. */
module FleetLeaseStore {
  import opened Wrappers
  import opened FleetLeases

  datatype Failure = Conflict | NotHolder | NotFound | OverCapacity

  datatype AcquireResult = Granted(lease: Lease) | Blocked(conflict: Lease) | AcquireFailed(failure: Failure)

  datatype RenewResult = Renewed(lease: Lease) | RenewFailed(failure: Failure)

  datatype ReleaseResult = Released | NothingToRelease | ReleaseFailed(failure: Failure)

  /** A request as the schema lets it through. */
  datatype Request = Request(
    leaseId: string, holder: string, ttlSeconds: nat, mode: Mode, granularity: Granularity,
    selector: seq<string>, phase: string)

  function LeaseFor(r: Request, now: int): Lease {
    Lease(r.leaseId, r.holder, now, r.ttlSeconds, now, r.mode, NormalizeScope(r.granularity, r.selector), r.phase)
  }

  predicate ConflictsWith(existing: Lease, lease: Lease) {
    existing.mode.Hard? && lease.mode.Hard? && ScopesOverlap(existing.scope, lease.scope)
  }

  /** The leases without the one of that id. */
  function Remove(leases: seq<Lease>, id: string): seq<Lease> {
    if leases == [] then []
    else
      var n := |leases| - 1;
      Remove(leases[..n], id) + if leases[n].id == id then [] else [leases[n]]
  }

  lemma {:induction false} FindDistinct(leases: seq<Lease>, i: nat)
    requires DistinctIds(leases) && i < |leases|
    ensures Find(leases, leases[i].id) == i
  {
  }

  lemma RemoveLast(leases: seq<Lease>, id: string)
    requires leases != []
    ensures
      var n := |leases| - 1;
      Remove(leases, id) == Remove(leases[..n], id) + if leases[n].id == id then [] else [leases[n]]
  {
    var kept := Remove(leases[..|leases| - 1], id);
    assert kept + [] == kept;
  }

  lemma {:induction false} RemoveFacts(leases: seq<Lease>, id: string)
    ensures forall l :: l in Remove(leases, id) <==> l in leases && l.id != id
    ensures |Remove(leases, id)| <= |leases|
    ensures DistinctIds(leases) ==> DistinctIds(Remove(leases, id))
    ensures Exclusive(leases) ==> Exclusive(Remove(leases, id))
  {
    if leases != [] {
      hide ScopesOverlap, DistinctIds, Exclusive, Remove;
      var n := |leases| - 1;
      RemoveFacts(leases[..n], id);
      SplitLast(leases);
      RemoveLast(leases, id);
      var kept := Remove(leases[..n], id);
      if DistinctIds(leases) {
        AppendDistinct(kept, leases[n]);
      }
      if Exclusive(leases) {
        AppendExclusive(kept, leases[n]);
      }
    }
  }

  lemma ReplaceFacts(leases: seq<Lease>, i: nat, l: Lease)
    requires DistinctIds(leases) && i < |leases|
    requires l.id == leases[i].id && l.mode == leases[i].mode && l.scope == leases[i].scope
    ensures DistinctIds(leases[i := l])
    ensures Exclusive(leases) ==> Exclusive(leases[i := l])
  {
    hide ScopesOverlap;
  }

  /** More leases than the store takes, or more events that may not be dropped. */
  ghost predicate TooMuch(live: seq<Lease>, log: seq<Event>) {
    |live| > CAPACITY || |Protected(live, log)| > CAPACITY
  }

  lemma {:induction false} UnexpiredLength(leases: seq<Lease>, now: int)
    ensures |Unexpired(leases, now)| <= |leases|
  {
    if leases != [] {
      UnexpiredLength(leases[..|leases| - 1], now);
    }
  }

  // ----- what one more event keeps true -----

  lemma GrantFacts(live: seq<Lease>, log: seq<Event>, full: seq<Event>, lease: Lease, event: Event)
    requires DistinctIds(live) && Exclusive(live) && Evidence(live, log, full)
    requires !Stored(live, lease.id) && forall j :: 0 <= j < |live| ==> !ConflictsWith(live[j], lease)
    requires event.kind.AcquireEvent? && event.leaseId == lease.id && event.holder == lease.holder
      && event.lease == lease
    ensures DistinctIds(live + [lease]) && Exclusive(live + [lease])
    ensures Evidence(live + [lease], log + [event], full + [event])
  {
    hide ScopesOverlap;
    AppendDistinct(live, lease);
    AppendExclusive(live, lease);
    AppendKeepsEvidence(live, log, full, [event]);
    LastMatchAppend(log, [event], OfLease(lease.id));
    LastMatchAppend(full, [event], OfLease(lease.id));
    LastMatchAppend(log, [event], AcquireOf(lease));
    LastMatchAppend(full, [event], AcquireOf(lease));
  }

  lemma RenewFacts(live: seq<Lease>, log: seq<Event>, full: seq<Event>, at: nat, lease: Lease, event: Event)
    requires DistinctIds(live) && Exclusive(live) && Evidence(live, log, full) && at < |live|
    requires lease.id == live[at].id && lease.holder == live[at].holder && lease.acquiredAt == live[at].acquiredAt
    requires lease.mode == live[at].mode && lease.scope == live[at].scope
    ensures DistinctIds(live[at := lease]) && Exclusive(live[at := lease])
    ensures Evidence(live[at := lease], log + [event], full + [event])
  {
    hide ScopesOverlap;
    ReplaceFacts(live, at, lease);
    AppendKeepsEvidence(live, log, full, [event]);
    assert live[at] in live;
    hide LastMatch;
  }

  lemma ReleaseFacts(live: seq<Lease>, log: seq<Event>, full: seq<Event>, id: string, event: Event)
    requires DistinctIds(live) && Exclusive(live) && Evidence(live, log, full)
    ensures DistinctIds(Remove(live, id)) && Exclusive(Remove(live, id)) && |Remove(live, id)| <= |live|
    ensures Evidence(Remove(live, id), log + [event], full + [event])
  {
    hide ScopesOverlap, LastMatch;
    RemoveFacts(live, id);
    AppendKeepsEvidence(live, log, full, [event]);
  }

  /** The trimmed log fits, because few enough events are protected. */
  lemma TrimFits(live: seq<Lease>, log: seq<Event>)
    requires |Protected(live, log)| <= CAPACITY
    ensures |Trim(live, log)| == if |log| <= CAPACITY then |log| else CAPACITY
  {
    var protected := Protected(live, log);
    CountUnprotected(0, |log|, protected);
    var cut := DropsExactlyOldest(log, 0, protected, Excess(log));
  }

  // ----- the maps that find the protected events -----

  /** The newest index below n for every stored lease that has an event there. */
  ghost predicate NewestIndex(live: seq<Lease>, log: seq<Event>, n: nat, latest: map<string, nat>)
    requires n <= |log|
  {
    && (forall id :: id in latest ==> Stored(live, id) && latest[id] < n && log[latest[id]].leaseId == id)
    && (forall id, k :: id in latest && latest[id] < k < n ==> log[k].leaseId != id)
    && (forall k :: 0 <= k < n && Stored(live, log[k].leaseId) ==> log[k].leaseId in latest)
  }

  /** The newest acquisition below n for every stored lease that has one there. */
  ghost predicate AcquireIndex(live: seq<Lease>, log: seq<Event>, n: nat, acquisitions: map<string, nat>)
    requires n <= |log|
  {
    && (forall id :: id in acquisitions ==>
         Stored(live, id) && acquisitions[id] < n && Acquires(log[acquisitions[id]], live[Find(live, id)]))
    && (forall id, k :: id in acquisitions && acquisitions[id] < k < n ==> !Acquires(log[k], live[Find(live, id)]))
    && (forall l, k :: l in live && 0 <= k < n && Acquires(log[k], l) ==> l.id in acquisitions)
  }

  lemma NoIndices(live: seq<Lease>, log: seq<Event>)
    ensures NewestIndex(live, log, 0, map[]) && AcquireIndex(live, log, 0, map[])
  {
  }

  lemma NewestStep(live: seq<Lease>, log: seq<Event>, n: nat, latest: map<string, nat>)
    requires n < |log| && NewestIndex(live, log, n, latest)
    ensures NewestIndex(live, log, n + 1,
      if Stored(live, log[n].leaseId) then latest[log[n].leaseId := n] else latest)
  {
  }

  lemma AcquirerIsStored(live: seq<Lease>, e: Event, l: Lease)
    requires DistinctIds(live) && l in live && Acquires(e, l)
    ensures Stored(live, l.id) && live[Find(live, l.id)] == l
  {
    hide Find;
    var at :| 0 <= at < |live| && live[at] == l;
    FindDistinct(live, at);
  }

  lemma AcquireStep(live: seq<Lease>, log: seq<Event>, n: nat, acquisitions: map<string, nat>)
    requires n < |log| && DistinctIds(live) && AcquireIndex(live, log, n, acquisitions)
    ensures AcquireIndex(live, log, n + 1,
      if Stored(live, log[n].leaseId) && Acquires(log[n], live[Find(live, log[n].leaseId)])
      then acquisitions[log[n].leaseId := n] else acquisitions)
  {
    hide Find;
    forall l | l in live && Acquires(log[n], l)
      ensures Stored(live, l.id) && live[Find(live, l.id)] == l
    {
      AcquirerIsStored(live, log[n], l);
    }
    hide Acquires, DistinctIds;
  }

  lemma NewestIsProtected(live: seq<Lease>, log: seq<Event>, latest: map<string, nat>, i: nat)
    requires NewestIndex(live, log, |log|, latest)
    ensures i in latest.Values ==> i in Protected(live, log)
  {
    if i in latest.Values {
      var id :| id in latest && latest[id] == i;
      assert live[Find(live, id)] in live;
      assert IsNewestOf(log, i, live[Find(live, id)]);
    }
  }

  lemma AcquiredIsProtected(live: seq<Lease>, log: seq<Event>, acquisitions: map<string, nat>, i: nat)
    requires AcquireIndex(live, log, |log|, acquisitions)
    ensures i in acquisitions.Values ==> i in Protected(live, log)
  {
    if i in acquisitions.Values {
      var id :| id in acquisitions && acquisitions[id] == i;
      assert live[Find(live, id)] in live;
      assert IsNewestAcquire(log, i, live[Find(live, id)]);
    }
  }

  lemma IndexedIsProtected(
      live: seq<Lease>, log: seq<Event>, latest: map<string, nat>, acquisitions: map<string, nat>, i: nat)
    requires NewestIndex(live, log, |log|, latest) && AcquireIndex(live, log, |log|, acquisitions)
    ensures i in latest.Values + acquisitions.Values ==> i in Protected(live, log)
  {
    hide NewestIndex, AcquireIndex, Protected;
    NewestIsProtected(live, log, latest, i);
    AcquiredIsProtected(live, log, acquisitions, i);
  }

  lemma ProtectedIsIndexed(
      live: seq<Lease>, log: seq<Event>, latest: map<string, nat>, acquisitions: map<string, nat>, i: nat)
    requires DistinctIds(live) && NewestIndex(live, log, |log|, latest) && AcquireIndex(live, log, |log|, acquisitions)
    requires i in Protected(live, log)
    ensures i in latest.Values + acquisitions.Values
  {
    var l :| l in live && (IsNewestOf(log, i, l) || IsNewestAcquire(log, i, l));
    var at :| 0 <= at < |live| && live[at] == l;
    FindDistinct(live, at);
    if IsNewestOf(log, i, l) {
      assert latest[l.id] == i;
    } else {
      assert acquisitions[l.id] == i;
    }
  }

  lemma ProtectedByMaps(
      live: seq<Lease>, log: seq<Event>, latest: map<string, nat>, acquisitions: map<string, nat>, i: nat)
    requires DistinctIds(live) && NewestIndex(live, log, |log|, latest) && AcquireIndex(live, log, |log|, acquisitions)
    ensures i in latest.Values + acquisitions.Values <==> i in Protected(live, log)
  {
    hide NewestIndex, AcquireIndex, Protected;
    IndexedIsProtected(live, log, latest, acquisitions, i);
    if i in Protected(live, log) {
      ProtectedIsIndexed(live, log, latest, acquisitions, i);
    }
  }

  // ----- the store -----

  /** What a request for a lease may do to the state: it is granted when its identifier is free and it
      conflicts with no live lease; otherwise one that stands in the way is named, or there is no room, and
      nothing changes but the expiry of others. */
  ghost predicate AcquireEffect(
      r: AcquireResult, request: Request, now: int, leases: seq<Lease>, events: seq<Event>, leases': seq<Lease>,
      events': seq<Event>)
  {
    var live, log, lease := Unexpired(leases, now), events + ExpireEvents(leases, now), LeaseFor(request, now);
    var more := log + [Event(AcquireEvent, lease.id, lease.holder, lease, now)];
    match r
    case Granted(l) =>
      && l == lease && leases' == live + [lease] && events' == Trim(leases', more)
      && !Stored(live, lease.id) && (forall x :: x in live ==> !ConflictsWith(x, lease))
    case Blocked(c) =>
      && c in live && (c.id == lease.id || ConflictsWith(c, lease)) && leases' == live && events' == Trim(live, log)
    case AcquireFailed(f) =>
      && f.OverCapacity? && leases' == leases && events' == events
      && (TooMuch(live, log) || TooMuch(live + [lease], more))
  }

  /** What releasing a lease may do to the state: the holder of a live lease releases it; a lease that is
      not there counts as released; and otherwise it fails for another holder or for want of room, and
      nothing changes. */
  ghost predicate ReleaseEffect(
      r: ReleaseResult, leaseId: string, holder: string, now: int, leases: seq<Lease>, events: seq<Event>,
      leases': seq<Lease>, events': seq<Event>)
  {
    var live, log := Unexpired(leases, now), events + ExpireEvents(leases, now);
    var at := Find(live, leaseId);
    match r
    case Released =>
      && at < |live| && live[at].holder == holder && leases' == Remove(live, leaseId)
      && events' == Trim(leases', log + [Event(ReleaseEvent, leaseId, holder, live[at], now)])
    case NothingToRelease =>
      !Stored(live, leaseId) && leases' == live && events' == Trim(live, log)
    case ReleaseFailed(f) =>
      && leases' == leases && events' == events && (f.NotHolder? || f.OverCapacity?)
      && if at == |live| then f.OverCapacity? && TooMuch(live, log)
         else
           && (f.NotHolder? <==> live[at].holder != holder)
           && (f.OverCapacity? ==>
                 TooMuch(Remove(live, leaseId), log + [Event(ReleaseEvent, leaseId, holder, live[at], now)]))
  }

  /** The lease with a new lifetime that begins now. */
  function Prolonged(l: Lease, ttlSeconds: Option<nat>, now: int): Lease {
    l.(ttlSeconds := if ttlSeconds.Some? then ttlSeconds.value else l.ttlSeconds, heartbeatAt := now)
  }

  /** What renewing a lease may do to the state: the holder of a live lease renews it, and nothing else
      changes but the expiry of others; a lease that is not there is not found; and otherwise it fails for
      another holder or for want of room, and nothing changes. */
  ghost predicate RenewEffect(
      r: RenewResult, leaseId: string, holder: string, ttlSeconds: Option<nat>, now: int, leases: seq<Lease>,
      events: seq<Event>, leases': seq<Lease>, events': seq<Event>)
  {
    var live, log := Unexpired(leases, now), events + ExpireEvents(leases, now);
    var at := Find(live, leaseId);
    match r
    case Renewed(l) =>
      && at < |live| && live[at].holder == holder && !IsExpired(live[at], now)
      && l == Prolonged(live[at], ttlSeconds, now) && leases' == live[at := l]
      && events' == Trim(leases', log + [Event(RenewEvent, leaseId, holder, l, now)])
    case RenewFailed(f) =>
      if f.NotFound? then !Stored(live, leaseId) && leases' == live && events' == Trim(live, log)
      else
        && leases' == leases && events' == events && (f.NotHolder? || f.OverCapacity?)
        && if at == |live| then f.OverCapacity? && TooMuch(live, log)
           else
             var l := Prolonged(live[at], ttlSeconds, now);
             && (f.NotHolder? <==> live[at].holder != holder)
             && (f.OverCapacity? ==>
                   TooMuch(live[at := l], log + [Event(RenewEvent, leaseId, holder, l, now)]))
  }

  class LocalLeaseStore {
    var leases: seq<Lease>
    var events: seq<Event>
    /** Every event that was ever written, in order. */
    ghost var history: seq<Event>

    ghost predicate Valid()
      reads this
    {
      && DistinctIds(leases) && Exclusive(leases) && |leases| <= CAPACITY && |events| <= CAPACITY
      && Evidence(leases, events, history)
    }

    constructor ()
      ensures Valid() && leases == [] && events == []
    {
      leases, events, history := [], [], [];
    }

    /** The full history after expiry, with what expiry keeps true. */
    ghost function Expired(now: int): (full: seq<Event>)
      requires Valid()
      reads this
      ensures full == history + ExpireEvents(leases, now)
      ensures var live := Unexpired(leases, now);
        && DistinctIds(live) && Exclusive(live) && |live| <= |leases|
        && (forall l :: l in live ==> !IsExpired(l, now))
        && Evidence(live, events + ExpireEvents(leases, now), full)
    {
      UnexpiredFacts(leases, now);
      UnexpiredLength(leases, now);
      AppendKeepsEvidence(leases, events, history, ExpireEvents(leases, now));
      history + ExpireEvents(leases, now)
    }

    /** expireState: the leases that live on, and an event for each that does not. */
    method ExpireState(now: int) returns (live: seq<Lease>, log: seq<Event>, expired: nat)
      ensures live == Unexpired(leases, now) && log == events + ExpireEvents(leases, now)
      ensures expired == |ExpireEvents(leases, now)|
    {
      live, log, expired := [], events, 0;
      for i := 0 to |leases|
        invariant live == Unexpired(leases[..i], now)
        invariant log == events + ExpireEvents(leases[..i], now)
        invariant expired == |ExpireEvents(leases[..i], now)|
      {
        assert leases[..i + 1][..i] == leases[..i];
        var l := leases[i];
        if IsExpired(l, now) {
          log := log + [Event(ExpireEvent, l.id, l.holder, l, now)];
          expired := expired + 1;
        } else {
          live := live + [l];
        }
      }
      assert leases[..|leases|] == leases;
    }

    /** The indices that trimming may not drop. */
    method ProtectedIndices(live: seq<Lease>, log: seq<Event>) returns (protected: set<nat>)
      requires DistinctIds(live)
      ensures protected == Protected(live, log)
    {
      hide NewestIndex, AcquireIndex;
      var latest: map<string, nat> := map[];
      var acquisitions: map<string, nat> := map[];
      NoIndices(live, log);
      for i := 0 to |log|
        invariant NewestIndex(live, log, i, latest) && AcquireIndex(live, log, i, acquisitions)
      {
        var event := log[i];
        var at := Find(live, event.leaseId);
        NewestStep(live, log, i, latest);
        AcquireStep(live, log, i, acquisitions);
        if at < |live| {
          latest := latest[event.leaseId := i];
          if Acquires(event, live[at]) {
            acquisitions := acquisitions[event.leaseId := i];
          }
        }
      }
      protected := latest.Values + acquisitions.Values;
      forall i: nat
        ensures i in protected <==> i in Protected(live, log)
      {
        ProtectedByMaps(live, log, latest, acquisitions, i);
      }
    }

    /** writeState: refuses what exceeds the capacity, trims the log and replaces the file. */
    method WriteState(live: seq<Lease>, log: seq<Event>, ghost full: seq<Event>) returns (written: bool)
      requires DistinctIds(live) && Exclusive(live) && Evidence(live, log, full) && Valid()
      modifies this
      ensures Valid()
      ensures !written <==> TooMuch(live, log)
      ensures !written ==> leases == old(leases) && events == old(events) && history == old(history)
      ensures written ==> leases == live && events == Trim(live, log) && history == full
    {
      hide Protected, Evidence, Exclusive, DistinctIds;
      if |live| > CAPACITY {
        return false;
      }
      var protected := ProtectedIndices(live, log);
      if |protected| > CAPACITY {
        return false;
      }
      var remove: nat := if |log| > CAPACITY then |log| - CAPACITY else 0;
      var kept := [];
      for i := 0 to |log|
        invariant kept + DropOldest(log, i, protected, remove) == Trim(live, log)
      {
        if remove > 0 && i !in protected {
          remove := remove - 1;
        } else {
          assert kept + ([log[i]] + DropOldest(log, i + 1, protected, remove))
              == kept + [log[i]] + DropOldest(log, i + 1, protected, remove);
          kept := kept + [log[i]];
        }
      }
      assert kept == Trim(live, log);
      TrimFits(live, log);
      TrimKeepsEvidence(live, log, full);
      leases, events, history := live, kept, full;
      return true;
    }

    /** Acquires a lease unless its id is taken or it is hard and overlaps a hard lease. */
    method Acquire(request: Request, now: int) returns (r: AcquireResult)
      requires Valid()
      modifies this
      ensures Valid()
      ensures AcquireEffect(r, request, now, old(leases), old(events), leases, events)
    {
      hide Protected, Evidence, Exclusive, DistinctIds, Trim, ScopesOverlap;
      var lease := LeaseFor(request, now);
      var live, log, _ := ExpireState(now);
      ghost var full := Expired(now);
      var at := Find(live, lease.id);
      if at < |live| {
        var written := WriteState(live, log, full);
        return if written then Blocked(live[at]) else AcquireFailed(OverCapacity);
      }
      for i := 0 to |live|
        invariant forall j :: 0 <= j < i ==> !ConflictsWith(live[j], lease)
      {
        if ConflictsWith(live[i], lease) {
          var written := WriteState(live, log, full);
          return if written then Blocked(live[i]) else AcquireFailed(OverCapacity);
        }
      }
      var event := Event(AcquireEvent, lease.id, lease.holder, lease, now);
      GrantFacts(live, log, full, lease, event);
      var written := WriteState(live + [lease], log + [event], full + [event]);
      return if written then Granted(lease) else AcquireFailed(OverCapacity);
    }

    /** Renews a lease for its holder. A lease that is still stored after expiry is not expired, so the
        source's second test for expiry never succeeds. */
    method Renew(leaseId: string, holder: string, ttlSeconds: Option<nat>, now: int) returns (r: RenewResult)
      requires Valid()
      modifies this
      ensures Valid()
      ensures RenewEffect(r, leaseId, holder, ttlSeconds, now, old(leases), old(events), leases, events)
    {
      hide Protected, Evidence, Exclusive, DistinctIds, Trim;
      var live, log, _ := ExpireState(now);
      ghost var full := Expired(now);
      var at := Find(live, leaseId);
      if at == |live| {
        var written := WriteState(live, log, full);
        return RenewFailed(if written then NotFound else OverCapacity);
      }
      var existing := live[at];
      if existing.holder != holder {
        return RenewFailed(NotHolder);
      }
      var lease := Prolonged(existing, ttlSeconds, now);
      var event := Event(RenewEvent, leaseId, holder, lease, now);
      RenewFacts(live, log, full, at, lease, event);
      var written := WriteState(live[at := lease], log + [event], full + [event]);
      return if written then Renewed(lease) else RenewFailed(OverCapacity);
    }

    /** Releases a lease for its holder. */
    method Release(leaseId: string, holder: string, now: int) returns (r: ReleaseResult)
      requires Valid()
      modifies this
      ensures Valid()
      ensures ReleaseEffect(r, leaseId, holder, now, old(leases), old(events), leases, events)
    {
      hide Protected, Evidence, Exclusive, DistinctIds, Trim;
      var live, log, _ := ExpireState(now);
      ghost var full := Expired(now);
      var at := Find(live, leaseId);
      if at == |live| {
        var written := WriteState(live, log, full);
        return if written then NothingToRelease else ReleaseFailed(OverCapacity);
      }
      if live[at].holder != holder {
        return ReleaseFailed(NotHolder);
      }
      var event := Event(ReleaseEvent, leaseId, holder, live[at], now);
      ReleaseFacts(live, log, full, leaseId, event);
      var written := WriteState(Remove(live, leaseId), log + [event], full + [event]);
      return if written then Released else ReleaseFailed(OverCapacity);
    }

    /** Drops the expired leases; None when the result would exceed the capacity. */
    method Expire(now: int) returns (r: Option<nat>)
      requires Valid()
      modifies this
      ensures Valid()
      ensures match r
        case Some(n) =>
          && n == |ExpireEvents(old(leases), now)| && leases == Unexpired(old(leases), now)
          && events == Trim(leases, old(events) + ExpireEvents(old(leases), now))
        case None =>
          && leases == old(leases) && events == old(events)
          && TooMuch(Unexpired(old(leases), now), old(events) + ExpireEvents(old(leases), now))
    {
      hide Protected, Evidence, Exclusive, DistinctIds, Trim;
      var live, log, expired := ExpireState(now);
      ghost var full := Expired(now);
      var written := WriteState(live, log, full);
      return if written then Some(expired) else None;
    }
  }
}
