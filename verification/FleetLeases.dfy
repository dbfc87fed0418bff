/** The fleet lease store: leases on scopes of a repository, and a bounded log of what happened to them. */
module FleetLeases {
  import opened Wrappers

  datatype Granularity = Repo | PathSet | Symbol

  /** A normalised scope; the sorted selector array without duplicates is the set it lists. */
  datatype Scope = Scope(granularity: Granularity, selector: set<string>)

  // ----- scopes -----

  /** A selector without its trailing slashes. */
  function StripSlashes(s: string): string {
    if s != "" && s[|s| - 1] == '/' then StripSlashes(s[..|s| - 1]) else s
  }

  function NormalizeSelector(selector: seq<string>): set<string> {
    (set s | s in selector :: StripSlashes(s)) - {""}
  }

  function NormalizeScope(granularity: Granularity, selector: seq<string>): Scope {
    Scope(granularity, NormalizeSelector(selector))
  }

  predicate StartsWith(s: string, prefix: string) {
    |prefix| <= |s| && s[..|prefix|] == prefix
  }

  predicate PathOverlaps(left: string, right: string) {
    left == right || StartsWith(left, right + "/") || StartsWith(right, left + "/")
  }

  predicate ScopesOverlap(left: Scope, right: Scope) {
    if left.granularity.Repo? || right.granularity.Repo? then true
    else if left.granularity != right.granularity then false
    else if left.granularity.Symbol? then exists s :: s in left.selector && s in right.selector
    else exists l, r :: l in left.selector && r in right.selector && PathOverlaps(l, r)
  }

  /** A selector covers the path it names and every path below it. */
  predicate Covers(selector: string, path: string) {
    path == selector || StartsWith(path, selector + "/")
  }

  ghost predicate ScopeCovers(scope: Scope, path: string) {
    exists s :: s in scope.selector && Covers(s, path)
  }

  lemma CoversShorter(left: string, right: string, path: string)
    requires Covers(left, path) && Covers(right, path) && |left| <= |right|
    ensures Covers(left, right)
  {
    if left != right {
      assert path[..|left|] == left && path[..|right|] == right;
      if |left| < |right| {
        assert right[..|left| + 1] == path[..|left| + 1];
      }
    }
  }

  /** Two selectors overlap exactly when some path lies under both. */
  lemma OverlapMeansSharedPath(left: string, right: string)
    ensures PathOverlaps(left, right) <==> exists path :: Covers(left, path) && Covers(right, path)
  {
    if PathOverlaps(left, right) {
      if StartsWith(left, right + "/") {
        assert Covers(left, left) && Covers(right, left);
      } else {
        assert Covers(left, right) && Covers(right, right);
      }
    }
    if path: string :| Covers(left, path) && Covers(right, path) {
      if |left| <= |right| {
        CoversShorter(left, right, path);
      } else {
        CoversShorter(right, left, path);
      }
    }
  }

  /** Two path sets overlap exactly when some path is covered by both. */
  lemma PathSetsOverlap(left: Scope, right: Scope)
    requires left.granularity.PathSet? && right.granularity.PathSet?
    ensures ScopesOverlap(left, right) <==> exists path :: ScopeCovers(left, path) && ScopeCovers(right, path)
  {
    hide PathOverlaps, Covers;
    if ScopesOverlap(left, right) {
      var l, r :| l in left.selector && r in right.selector && PathOverlaps(l, r);
      OverlapMeansSharedPath(l, r);
      var path :| Covers(l, path) && Covers(r, path);
      assert ScopeCovers(left, path) && ScopeCovers(right, path);
    }
    if path: string :| ScopeCovers(left, path) && ScopeCovers(right, path) {
      var l :| l in left.selector && Covers(l, path);
      var r :| r in right.selector && Covers(r, path);
      OverlapMeansSharedPath(l, r);
    }
  }

  /** The text is the selector with slashes behind it. */
  predicate IsSlashed(text: string, selector: string) {
    |selector| <= |text| && text[..|selector|] == selector && forall i :: |selector| <= i < |text| ==> text[i] == '/'
  }

  predicate IsBare(selector: string) {
    selector != "" && selector[|selector| - 1] != '/'
  }

  lemma {:induction false} StripsSlashes(text: string)
    ensures
      var s := StripSlashes(text);
      IsSlashed(text, s) && (s == "" || IsBare(s))
    ensures forall s :: IsBare(s) && IsSlashed(text, s) ==> s == StripSlashes(text)
  {
    if text != "" && text[|text| - 1] == '/' {
      var n := |text| - 1;
      StripsSlashes(text[..n]);
      assert StripSlashes(text) == StripSlashes(text[..n]);
      forall s | IsBare(s) && IsSlashed(text, s)
        ensures IsSlashed(text[..n], s)
      {
        assert text[..|text|] == text;
      }
    } else {
      forall s | IsBare(s) && IsSlashed(text, s)
        ensures s == text
      {
        assert |s| == |text|;
      }
    }
  }

  /** The selectors of a scope are those of the request without slashes behind them, but for empty ones. */
  lemma SelectorsAre(selector: seq<string>, s: string)
    ensures s in NormalizeSelector(selector) <==> IsBare(s) && exists text :: text in selector && IsSlashed(text, s)
  {
    forall text | text in selector
      ensures StripSlashes(text) == s && s != "" <==> IsBare(s) && IsSlashed(text, s)
    {
      StripsSlashes(text);
    }
    hide StripSlashes, IsSlashed, IsBare;
    if IsBare(s) && exists text :: text in selector && IsSlashed(text, s) {
      var text :| text in selector && IsSlashed(text, s);
      assert StripSlashes(text) == s;
    }
  }

  /** Two scopes overlap if one is the whole repository, or if they are of the same kind and have something in
      common: a path that both cover, or a symbol. */
  lemma OverlapExactly(left: Scope, right: Scope)
    ensures ScopesOverlap(left, right) <==>
      || left.granularity == Repo || right.granularity == Repo
      || (left.granularity == right.granularity == PathSet
          && exists path :: ScopeCovers(left, path) && ScopeCovers(right, path))
      || (left.granularity == right.granularity == Symbol && left.selector * right.selector != {})
  {
    if left.granularity.PathSet? && right.granularity.PathSet? {
      PathSetsOverlap(left, right);
      hide ScopesOverlap, ScopeCovers;
    } else {
      hide ScopeCovers, PathOverlaps;
      if left.granularity.Symbol? && right.granularity.Symbol? {
        assert forall s :: s in left.selector * right.selector <==> s in left.selector && s in right.selector;
      }
    }
  }

  // ----- leases and events -----

  datatype Mode = Soft | Hard

  datatype Lease = Lease(
    id: string, holder: string, acquiredAt: int, ttlSeconds: nat, heartbeatAt: int, mode: Mode, scope: Scope,
    phase: string)

  datatype EventType = AcquireEvent | RenewEvent | ReleaseEvent | ExpireEvent

  datatype Event = Event(kind: EventType, leaseId: string, holder: string, lease: Lease, recordedAt: int)

  const CAPACITY: nat := 10000

  predicate IsExpired(lease: Lease, now: int) {
    now >= lease.heartbeatAt + lease.ttlSeconds
  }

  /** The position of a lease among the stored ones, or their number. */
  function Find(leases: seq<Lease>, id: string): (i: nat)
    ensures i <= |leases|
    ensures i < |leases| ==> leases[i].id == id
    ensures forall j :: 0 <= j < i ==> leases[j].id != id
  {
    if leases == [] || leases[0].id == id then 0 else 1 + Find(leases[1..], id)
  }

  predicate Stored(leases: seq<Lease>, id: string) {
    Find(leases, id) < |leases|
  }

  ghost predicate DistinctIds(leases: seq<Lease>) {
    forall i, j :: 0 <= i < j < |leases| ==> leases[i].id != leases[j].id
  }

  /** No two stored hard leases overlap. */
  ghost predicate Exclusive(leases: seq<Lease>) {
    forall i, j :: 0 <= i < j < |leases| && leases[i].mode.Hard? && leases[j].mode.Hard? ==>
      !ScopesOverlap(leases[i].scope, leases[j].scope)
  }

  lemma OverlapIsSymmetric(left: Scope, right: Scope)
    ensures ScopesOverlap(left, right) <==> ScopesOverlap(right, left)
  {
  }

  /** Any two stored hard path-set leases cover disjoint sets of paths. */
  lemma ExclusiveIsDisjoint(leases: seq<Lease>, i: nat, j: nat, path: string)
    requires Exclusive(leases) && i < |leases| && j < |leases| && i != j
    requires leases[i].mode.Hard? && leases[j].mode.Hard?
    requires leases[i].scope.granularity.PathSet? && leases[j].scope.granularity.PathSet?
    ensures !(ScopeCovers(leases[i].scope, path) && ScopeCovers(leases[j].scope, path))
  {
    PathSetsOverlap(leases[i].scope, leases[j].scope);
    OverlapIsSymmetric(leases[i].scope, leases[j].scope);
    hide ScopesOverlap;
  }

  /** A hard lease on the repository is the only hard lease. */
  lemma RepoExcludesAll(leases: seq<Lease>, i: nat, j: nat)
    requires Exclusive(leases) && i < |leases| && j < |leases| && i != j
    requires leases[i].mode.Hard? && leases[i].scope.granularity.Repo?
    ensures leases[j].mode.Soft?
  {
    OverlapIsSymmetric(leases[i].scope, leases[j].scope);
  }

  // ----- expiry -----

  function Unexpired(leases: seq<Lease>, now: int): seq<Lease> {
    if leases == [] then []
    else
      var n := |leases| - 1;
      Unexpired(leases[..n], now) + if IsExpired(leases[n], now) then [] else [leases[n]]
  }

  function ExpireEvents(leases: seq<Lease>, now: int): seq<Event> {
    if leases == [] then []
    else
      var n := |leases| - 1;
      ExpireEvents(leases[..n], now)
      + if IsExpired(leases[n], now) then [Event(ExpireEvent, leases[n].id, leases[n].holder, leases[n], now)] else []
  }

  lemma AppendDistinct(leases: seq<Lease>, l: Lease)
    requires DistinctIds(leases) && forall x :: x in leases ==> x.id != l.id
    ensures DistinctIds(leases + [l])
  {
  }

  lemma AppendExclusive(leases: seq<Lease>, l: Lease)
    requires Exclusive(leases)
    requires forall x :: x in leases && x.mode.Hard? && l.mode.Hard? ==> !ScopesOverlap(x.scope, l.scope)
    ensures Exclusive(leases + [l])
  {
    hide ScopesOverlap;
  }

  lemma SplitLast(leases: seq<Lease>)
    requires leases != []
    ensures var n := |leases| - 1;
      && (DistinctIds(leases) ==> DistinctIds(leases[..n]) && forall x :: x in leases[..n] ==> x.id != leases[n].id)
      && (Exclusive(leases) ==> Exclusive(leases[..n]))
      && (Exclusive(leases) ==> (forall x ::
           x in leases[..n] && x.mode.Hard? && leases[n].mode.Hard? ==> !ScopesOverlap(x.scope, leases[n].scope)))
      && leases == leases[..n] + [leases[n]]
  {
    hide ScopesOverlap;
  }

  lemma UnexpiredLast(leases: seq<Lease>, now: int)
    requires leases != []
    ensures
      var n := |leases| - 1;
      Unexpired(leases, now) ==
        if IsExpired(leases[n], now) then Unexpired(leases[..n], now) else Unexpired(leases[..n], now) + [leases[n]]
  {
    var kept := Unexpired(leases[..|leases| - 1], now);
    assert kept + [] == kept;
  }

  /** What is left after expiry is a subsequence: the exclusion of leases survives any clock value. */
  lemma {:induction false} UnexpiredFacts(leases: seq<Lease>, now: int)
    ensures forall l :: l in Unexpired(leases, now) <==> l in leases && !IsExpired(l, now)
    ensures DistinctIds(leases) ==> DistinctIds(Unexpired(leases, now))
    ensures Exclusive(leases) ==> Exclusive(Unexpired(leases, now))
  {
    if leases != [] {
      hide ScopesOverlap, DistinctIds, Exclusive, Unexpired, IsExpired;
      var n := |leases| - 1;
      UnexpiredFacts(leases[..n], now);
      SplitLast(leases);
      UnexpiredLast(leases, now);
      var kept := Unexpired(leases[..n], now);
      if DistinctIds(leases) {
        AppendDistinct(kept, leases[n]);
      }
      if Exclusive(leases) {
        AppendExclusive(kept, leases[n]);
      }
    }
  }

  lemma {:induction false} ExpireEventsFacts(leases: seq<Lease>, now: int)
    ensures forall e :: e in ExpireEvents(leases, now) ==>
      e.kind.ExpireEvent? && e.lease in leases && IsExpired(e.lease, now) && e.leaseId == e.lease.id
  {
    if leases != [] {
      var n := |leases| - 1;
      ExpireEventsFacts(leases[..n], now);
      assert leases == leases[..n] + [leases[n]];
    }
  }

  // ----- trimming the log -----

  /** The event is an acquisition of this very lease. */
  predicate Acquires(e: Event, l: Lease) {
    e.kind.AcquireEvent? && e.leaseId == l.id && e.lease.acquiredAt == l.acquiredAt && e.holder == l.holder
  }

  predicate IsNewestOf(events: seq<Event>, i: nat, l: Lease)
    requires i < |events|
  {
    events[i].leaseId == l.id && forall j :: i < j < |events| ==> events[j].leaseId != l.id
  }

  predicate IsNewestAcquire(events: seq<Event>, i: nat, l: Lease)
    requires i < |events|
  {
    Acquires(events[i], l) && forall j :: i < j < |events| ==> !Acquires(events[j], l)
  }

  /** The newest event of a stored lease and its newest acquisition may not be dropped. */
  ghost predicate IsProtected(leases: seq<Lease>, events: seq<Event>, i: nat)
    requires i < |events|
  {
    exists l :: l in leases && (IsNewestOf(events, i, l) || IsNewestAcquire(events, i, l))
  }

  ghost function Protected(leases: seq<Lease>, events: seq<Event>): set<nat> {
    set i | 0 <= i < |events| && IsProtected(leases, events, i)
  }

  /** Drops the given number of events that are not protected, oldest first. */
  function DropOldest(events: seq<Event>, i: nat, protected: set<nat>, remove: nat): seq<Event>
    requires i <= |events|
    decreases |events| - i
  {
    if i == |events| then []
    else if remove > 0 && i !in protected then DropOldest(events, i + 1, protected, remove - 1)
    else [events[i]] + DropOldest(events, i + 1, protected, remove)
  }

  function Excess(events: seq<Event>): nat {
    if |events| > CAPACITY then |events| - CAPACITY else 0
  }

  ghost function Trim(leases: seq<Lease>, events: seq<Event>): seq<Event> {
    DropOldest(events, 0, Protected(leases, events), Excess(events))
  }

  /** The protected events among those from i up to the cut. */
  function ProtectedPart(events: seq<Event>, i: nat, cut: nat, protected: set<nat>): seq<Event>
    requires i <= cut <= |events|
    decreases cut - i
  {
    if i == cut then []
    else (if i in protected then [events[i]] else []) + ProtectedPart(events, i + 1, cut, protected)
  }

  function Unprotected(i: nat, n: nat, protected: set<nat>): nat
    requires i <= n
    decreases n - i
  {
    if i == n then 0 else (if i in protected then 0 else 1) + Unprotected(i + 1, n, protected)
  }

  lemma {:induction false} DropNothing(events: seq<Event>, i: nat, protected: set<nat>)
    requires i <= |events|
    ensures DropOldest(events, i, protected, 0) == events[i..]
    decreases |events| - i
  {
    if i < |events| {
      DropNothing(events, i + 1, protected);
      assert events[i..] == [events[i]] + events[i + 1..];
    }
  }

  /** What is dropped is exactly the unprotected events before some point; everything behind it stays. */
  lemma {:induction false} DropsExactlyOldest(events: seq<Event>, i: nat, protected: set<nat>,
                                              remove: nat) returns (cut: nat)
    requires i <= |events| && remove <= Unprotected(i, |events|, protected)
    ensures i <= cut <= |events| && Unprotected(i, cut, protected) == remove
    ensures DropOldest(events, i, protected, remove) == ProtectedPart(events, i, cut, protected) + events[cut..]
    ensures |DropOldest(events, i, protected, remove)| == |events| - i - remove
    decreases |events| - i
  {
    if remove == 0 {
      cut := i;
      DropNothing(events, i, protected);
    } else if i in protected {
      cut := DropsExactlyOldest(events, i + 1, protected, remove);
    } else {
      cut := DropsExactlyOldest(events, i + 1, protected, remove - 1);
      var kept := ProtectedPart(events, i + 1, cut, protected);
      assert [] + kept == kept;
    }
  }

  lemma {:induction false} SameCount(i: nat, n: nat, a: set<nat>, b: set<nat>)
    requires i <= n && forall x :: i <= x < n ==> (x in a <==> x in b)
    ensures Unprotected(i, n, a) == Unprotected(i, n, b)
    decreases n - i
  {
    if i < n {
      SameCount(i + 1, n, a, b);
    }
  }

  lemma {:induction false} CountUnprotected(i: nat, n: nat, protected: set<nat>)
    requires i <= n && forall x :: x in protected ==> i <= x < n
    ensures Unprotected(i, n, protected) == n - i - |protected|
    decreases n - i
  {
    if i < n {
      var rest := protected - {i};
      SameCount(i + 1, n, protected, rest);
      CountUnprotected(i + 1, n, rest);
      if i in protected {
        assert |protected| == |rest| + 1;
      } else {
        assert rest == protected;
      }
    } else {
      assert protected == {};
    }
  }

  // ----- what trimming never loses -----

  /** The last event with a property. */
  ghost function LastMatch(events: seq<Event>, p: Event -> bool): Option<Event> {
    if events == [] then None
    else
      match LastMatch(events[1..], p)
      case Some(e) => Some(e)
      case None => if p(events[0]) then Some(events[0]) else None
  }

  lemma {:induction false} NoMatch(events: seq<Event>, p: Event -> bool)
    ensures LastMatch(events, p).None? <==> forall e :: e in events ==> !p(e)
  {
    if events != [] {
      NoMatch(events[1..], p);
      assert events == [events[0]] + events[1..];
    }
  }

  lemma {:induction false} LastMatchAppend(events: seq<Event>, more: seq<Event>, p: Event -> bool)
    ensures LastMatch(events + more, p) ==
      if LastMatch(more, p).Some? then LastMatch(more, p) else LastMatch(events, p)
  {
    if events == [] {
      assert events + more == more;
    } else {
      assert (events + more)[1..] == events[1..] + more;
      LastMatchAppend(events[1..], more, p);
    }
  }

  /** When the last event with a property is protected, trimming keeps it the last one. */
  lemma {:induction false} LastMatchKept(events: seq<Event>, i: nat, protected: set<nat>, remove: nat, p: Event -> bool)
    requires i <= |events|
    requires forall j ::
      i <= j < |events| && p(events[j]) && (forall k :: j < k < |events| ==> !p(events[k])) ==> j in protected
    ensures LastMatch(DropOldest(events, i, protected, remove), p) == LastMatch(events[i..], p)
    decreases |events| - i
  {
    if i < |events| {
      var tail := events[i..];
      assert tail[1..] == events[i + 1..];
      NoMatch(events[i + 1..], p);
      assert forall k :: i < k < |events| ==> events[k] in events[i + 1..];
      if remove > 0 && i !in protected {
        LastMatchKept(events, i + 1, protected, remove - 1, p);
      } else {
        LastMatchKept(events, i + 1, protected, remove, p);
        var rest := DropOldest(events, i + 1, protected, remove);
        assert ([events[i]] + rest)[1..] == rest;
      }
    }
  }

  function OfLease(id: string): Event -> bool {
    (e: Event) => e.leaseId == id
  }

  function AcquireBy(id: string, holder: string, acquiredAt: int): Event -> bool {
    (e: Event) => e.kind.AcquireEvent? && e.leaseId == id && e.lease.acquiredAt == acquiredAt && e.holder == holder
  }

  function AcquireOf(l: Lease): Event -> bool {
    AcquireBy(l.id, l.holder, l.acquiredAt)
  }

  /** For every stored lease, the trimmed log ends with the same events as the log that forgets nothing. */
  ghost predicate Evidence(leases: seq<Lease>, events: seq<Event>, history: seq<Event>) {
    forall l :: l in leases ==>
      && LastMatch(events, OfLease(l.id)) == LastMatch(history, OfLease(l.id))
      && LastMatch(events, AcquireOf(l)) == LastMatch(history, AcquireOf(l))
      && LastMatch(events, AcquireOf(l)).Some?
  }

  lemma TrimKeepsEvidence(leases: seq<Lease>, events: seq<Event>, history: seq<Event>)
    requires Evidence(leases, events, history)
    ensures Evidence(leases, Trim(leases, events), history)
  {
    var protected := Protected(leases, events);
    assert events[0..] == events;
    forall l | l in leases
      ensures LastMatch(Trim(leases, events), OfLease(l.id)) == LastMatch(events, OfLease(l.id))
      ensures LastMatch(Trim(leases, events), AcquireOf(l)) == LastMatch(events, AcquireOf(l))
    {
      forall j | 0 <= j < |events| && OfLease(l.id)(events[j])
        && (forall k :: j < k < |events| ==> !OfLease(l.id)(events[k]))
        ensures j in protected
      {
        assert IsNewestOf(events, j, l);
      }
      LastMatchKept(events, 0, protected, Excess(events), OfLease(l.id));
      forall j | 0 <= j < |events| && AcquireOf(l)(events[j])
        && (forall k :: j < k < |events| ==> !AcquireOf(l)(events[k]))
        ensures j in protected
      {
        assert IsNewestAcquire(events, j, l);
      }
      LastMatchKept(events, 0, protected, Excess(events), AcquireOf(l));
    }
  }

  lemma AppendKeepsEvidence(leases: seq<Lease>, events: seq<Event>, history: seq<Event>, more: seq<Event>)
    requires Evidence(leases, events, history)
    ensures Evidence(leases, events + more, history + more)
  {
    forall l | l in leases
      ensures LastMatch(events + more, OfLease(l.id)) == LastMatch(history + more, OfLease(l.id))
      ensures LastMatch(events + more, AcquireOf(l)) == LastMatch(history + more, AcquireOf(l))
      ensures LastMatch(events + more, AcquireOf(l)).Some?
    {
      LastMatchAppend(events, more, OfLease(l.id));
      LastMatchAppend(history, more, OfLease(l.id));
      LastMatchAppend(events, more, AcquireOf(l));
      LastMatchAppend(history, more, AcquireOf(l));
    }
  }
}
