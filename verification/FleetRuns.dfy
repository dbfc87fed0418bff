/** Whole runs of the lease store: how long a lease stays. */
module FleetRuns {
  import opened Wrappers
  import opened FleetLeases
  import opened FleetLeaseStore

  datatype Call =
    | Acquire(request: Request, at: int)
    | Renew(leaseId: string, holder: string, ttlSeconds: Option<nat>, at: int)
    | Release(leaseId: string, holder: string, at: int)
    | Expire(at: int)

  /** The holder renews or releases the lease. */
  predicate IsByHolder(c: Call, l: Lease) {
    (c.Renew? || c.Release?) && c.leaseId == l.id && c.holder == l.holder
  }

  /** The lease is the one that the call asks for, from its time on; a renewal without a lifetime keeps the old one. */
  ghost predicate IsAskedFor(c: Call, before: seq<Lease>, l: Lease) {
    && l.heartbeatAt == c.at
    && match c
       case Acquire(q, at) =>
         && l.id == q.leaseId && l.holder == q.holder && l.acquiredAt == at && l.ttlSeconds == q.ttlSeconds
         && l.mode == q.mode && l.phase == q.phase && l.scope.granularity == q.granularity
         && forall s :: s in l.scope.selector <==> IsBare(s) && exists text :: text in q.selector && IsSlashed(text, s)
       case Renew(id, holder, ttl, at) =>
         exists b :: b in before && b.id == id && b.holder == holder
           && l == b.(heartbeatAt := at, ttlSeconds := l.ttlSeconds)
           && (if ttl == None then l.ttlSeconds == b.ttlSeconds else ttl == Some(l.ttlSeconds))
       case _ => false
  }

  /** Every lease whose time is not over stays as it is, unless its holder renews or releases it. */
  ghost predicate KeepsOthers(before: seq<Lease>, c: Call, after: seq<Lease>) {
    forall l :: l in before && c.at < l.heartbeatAt + l.ttlSeconds && !IsByHolder(c, l) ==> l in after
  }

  /** Every lease that is there was there before, with its time not over, or is the one asked for. */
  ghost predicate KeepsOnly(before: seq<Lease>, c: Call, given: Option<Lease>, after: seq<Lease>) {
    forall l :: l in after ==> given == Some(l) || (l in before && c.at < l.heartbeatAt + l.ttlSeconds)
  }

  lemma LiveAre(leases: seq<Lease>, now: int)
    ensures forall l :: l in Unexpired(leases, now) <==> l in leases && now < l.heartbeatAt + l.ttlSeconds
  {
    UnexpiredFacts(leases, now);
    hide Unexpired;
  }

  lemma OneIsNewer(live: seq<Lease>, at: nat, l: Lease)
    requires DistinctIds(live) && at < |live| && l.id == live[at].id
    ensures forall x :: x in live[at := l] <==> x == l || (x in live && x.id != l.id)
  {
    var newer := live[at := l];
    assert newer[at] == l;
    assert forall i :: 0 <= i < |live| && i != at ==> newer[i] == live[i];
  }

  lemma AcquireKeeps(r: AcquireResult, c: Call, leases: seq<Lease>, events: seq<Event>, leases': seq<Lease>,
                     events': seq<Event>)
    requires c.Acquire? && AcquireEffect(r, c.request, c.at, leases, events, leases', events')
    ensures KeepsOthers(leases, c, leases')
    ensures r.Granted? ==> IsAskedFor(c, leases, r.lease) && r.lease in leases'
    ensures r.AcquireFailed? ==> leases' == leases
    ensures !r.AcquireFailed? ==> KeepsOnly(leases, c, if r.Granted? then Some(r.lease) else None, leases')
  {
    LiveAre(leases, c.at);
    forall s: string
      ensures s in NormalizeSelector(c.request.selector) <==>
        IsBare(s) && exists text :: text in c.request.selector && IsSlashed(text, s)
    {
      SelectorsAre(c.request.selector, s);
    }
    hide Unexpired, Trim, TooMuch, ExpireEvents, ConflictsWith, Find, IsBare, IsSlashed, NormalizeSelector;
  }

  lemma RenewKeeps(r: RenewResult, c: Call, leases: seq<Lease>, events: seq<Event>, leases': seq<Lease>,
                   events': seq<Event>)
    requires c.Renew? && RenewEffect(r, c.leaseId, c.holder, c.ttlSeconds, c.at, leases, events, leases', events')
    requires DistinctIds(Unexpired(leases, c.at))
    ensures KeepsOthers(leases, c, leases')
    ensures r.Renewed? ==> IsAskedFor(c, leases, r.lease) && r.lease in leases'
    ensures r.RenewFailed? && r.failure != NotFound ==> leases' == leases
    ensures r.Renewed? || r.failure == NotFound ==>
      KeepsOnly(leases, c, if r.Renewed? then Some(r.lease) else None, leases')
  {
    LiveAre(leases, c.at);
    var live := Unexpired(leases, c.at);
    var at := Find(live, c.leaseId);
    if r.Renewed? {
      OneIsNewer(live, at, r.lease);
      assert live[at] in live;
    }
    hide Unexpired, Trim, TooMuch, ExpireEvents, Find, DistinctIds;
  }

  lemma IdsAreDistinct(live: seq<Lease>, id: string)
    requires DistinctIds(live)
    ensures Find(live, id) < |live| ==> forall l :: l in live && l.id == id ==> l == live[Find(live, id)]
    ensures !Stored(live, id) ==> forall l :: l in live ==> l.id != id
  {
    hide Find;
  }

  lemma ReleaseKeeps(r: ReleaseResult, c: Call, leases: seq<Lease>, events: seq<Event>, leases': seq<Lease>,
                     events': seq<Event>)
    requires c.Release? && ReleaseEffect(r, c.leaseId, c.holder, c.at, leases, events, leases', events')
    requires DistinctIds(Unexpired(leases, c.at))
    ensures KeepsOthers(leases, c, leases')
    ensures r.ReleaseFailed? ==> leases' == leases
    ensures !r.ReleaseFailed? ==> KeepsOnly(leases, c, None, leases') && forall l :: l in leases' ==> l.id != c.leaseId
  {
    LiveAre(leases, c.at);
    var live := Unexpired(leases, c.at);
    RemoveFacts(live, c.leaseId);
    IdsAreDistinct(live, c.leaseId);
    hide Unexpired, Trim, TooMuch, ExpireEvents, Find, DistinctIds, Remove, Exclusive;
  }

  lemma ExpireKeeps(leases: seq<Lease>, at: int, leases': seq<Lease>)
    requires leases' == leases || leases' == Unexpired(leases, at)
    ensures KeepsOthers(leases, Expire(at), leases')
    ensures leases' == Unexpired(leases, at) ==> KeepsOnly(leases, Expire(at), None, leases')
  {
    LiveAre(leases, at);
    hide Unexpired;
  }

  /** One call of the store, and the lease it grants or renews. */
  method Serve(store: LocalLeaseStore, c: Call) returns (given: Option<Lease>, done: bool)
    requires store.Valid()
    modifies store
    ensures store.Valid() && KeepsOthers(old(store.leases), c, store.leases)
    ensures given.Some? ==> done && given.value in store.leases && IsAskedFor(c, old(store.leases), given.value)
    ensures if done then KeepsOnly(old(store.leases), c, given, store.leases) else store.leases == old(store.leases)
    ensures done && c.Release? ==> forall l :: l in store.leases ==> l.id != c.leaseId
  {
    hide AcquireEffect, RenewEffect, ReleaseEffect, KeepsOthers, KeepsOnly, IsAskedFor, Evidence, Exclusive;
    ghost var full := store.Expired(c.at);
    ghost var leases, events := store.leases, store.events;
    match c {
      case Acquire(request, at) =>
        var r := store.Acquire(request, at);
        AcquireKeeps(r, c, leases, events, store.leases, store.events);
        given, done := if r.Granted? then Some(r.lease) else None, !r.AcquireFailed?;
      case Renew(id, holder, ttl, at) =>
        var r := store.Renew(id, holder, ttl, at);
        RenewKeeps(r, c, leases, events, store.leases, store.events);
        given, done := if r.Renewed? then Some(r.lease) else None, r.Renewed? || r.failure == NotFound;
      case Release(id, holder, at) =>
        var r := store.Release(id, holder, at);
        ReleaseKeeps(r, c, leases, events, store.leases, store.events);
        given, done := None, !r.ReleaseFailed?;
      case Expire(at) =>
        var r := store.Expire(at);
        ExpireKeeps(leases, at, store.leases);
        given, done := None, r.Some?;
    }
  }

  // ----- whole runs -----

  ghost predicate Follows(before: seq<Lease>, c: Call, given: Option<Lease>, after: seq<Lease>) {
    && KeepsOthers(before, c, after)
    && (given.Some? ==> given.value in after && IsAskedFor(c, before, given.value))
  }

  /** The stored leases before each call and after the last, and the lease that each call granted or renewed. */
  ghost predicate IsRun(calls: seq<Call>, states: seq<seq<Lease>>, given: seq<Option<Lease>>) {
    && |given| <= |calls| && |states| == |given| + 1
    && forall i :: 0 <= i < |given| ==> Follows(states[i], calls[i], given[i], states[i + 1])
  }

  /** None of the calls between renews or releases the lease for its holder, or comes when its time is over. */
  ghost predicate IsUndisturbed(calls: seq<Call>, i: nat, n: nat, l: Lease)
    requires i <= n <= |calls|
  {
    forall k :: i <= k < n ==> !IsByHolder(calls[k], l) && calls[k].at < l.heartbeatAt + l.ttlSeconds
  }

  lemma RunMore(calls: seq<Call>, states: seq<seq<Lease>>, given: seq<Option<Lease>>, after: seq<Lease>,
                last: Option<Lease>)
    requires IsRun(calls, states, given) && |given| < |calls|
    requires Follows(states[|given|], calls[|given|], last, after)
    ensures IsRun(calls, states + [after], given + [last])
  {
    hide Follows;
    var more, leases := states + [after], given + [last];
    forall i | 0 <= i < |leases|
      ensures Follows(more[i], calls[i], leases[i], more[i + 1])
    {
      assert i < |given| ==> more[i + 1] == states[i + 1] && leases[i] == given[i];
    }
  }

  lemma {:induction false} StaysStored(calls: seq<Call>, states: seq<seq<Lease>>, given: seq<Option<Lease>>, i: nat,
                                       n: nat, l: Lease)
    requires IsRun(calls, states, given) && i <= n <= |given| && l in states[i] && IsUndisturbed(calls, i, n, l)
    ensures l in states[n]
    decreases n
  {
    if i < n {
      hide IsAskedFor, IsByHolder;
      StaysStored(calls, states, given, i, n - 1, l);
      assert Follows(states[n - 1], calls[n - 1], given[n - 1], states[n]);
    }
  }

  /** Over any run a lease that was granted or renewed stays stored until its lifetime from then is over, unless
      its holder renews or releases it before. */
  method RunStore(store: LocalLeaseStore, calls: seq<Call>)
      returns (ghost states: seq<seq<Lease>>, ghost given: seq<Option<Lease>>)
    requires store.Valid()
    modifies store
    ensures store.Valid() && IsRun(calls, states, given) && |given| == |calls|
    ensures states[0] == old(store.leases) && states[|calls|] == store.leases
    ensures forall i: nat, n: nat ::
      i < n <= |calls| && given[i].Some? && IsUndisturbed(calls, i + 1, n, given[i].value) ==>
        given[i].value in states[n]
  {
    hide KeepsOthers, KeepsOnly, IsAskedFor, IsUndisturbed;
    states, given := [store.leases], [];
    for n := 0 to |calls|
      invariant store.Valid() && IsRun(calls, states, given) && |given| == n
      invariant states[0] == old(store.leases) && states[n] == store.leases
    {
      var lease, done := Serve(store, calls[n]);
      RunMore(calls, states, given, store.leases, lease);
      states, given := states + [store.leases], given + [lease];
    }
    forall i: nat, n: nat | i < n <= |calls| && given[i].Some? && IsUndisturbed(calls, i + 1, n, given[i].value)
      ensures given[i].value in states[n]
    {
      assert Follows(states[i], calls[i], given[i], states[i + 1]);
      StaysStored(calls, states, given, i + 1, n, given[i].value);
    }
  }
}
