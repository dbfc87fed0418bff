/** What a retention selection keeps, said of the fields of the records alone: a record is kept exactly when a chain
    of reasons leads to it. */
module RetentionMeaning {
  import opened Wrappers
  import opened LedgerRecords
  import opened Retention

  // ----- entities -----

  /** The record says what happened and is no state of anything. */
  predicate IsEvent(r: Record) {
    r.Kind() in {RuntimeEventKind, RouteDecisionKind, LimitKind, CapabilityKind, EvidenceKind}
  }

  /** The two records are states of the same thing. */
  predicate SameEntity(a: Record, b: Record) {
    match a.payload
    case Session(id, _, _, _, _, _) => b.payload.Session? && b.payload.id == id
    case Turn(s, t, _) => b.payload.Turn? && b.payload.session == s && b.payload.turn == t
    case Lease(id, _, _, _) => b.payload.Lease? && b.payload.lease == id
    case ApprovalRequest(s, t, q) =>
      b.payload.ApprovalRequest? && b.payload.session == s && b.payload.turn == t && b.payload.request == q
    case ApprovalResponse(q) =>
      b.payload.ApprovalResponse? && b.payload.request == q && b.sessionId == a.sessionId && b.turnId == a.turnId
    case Cooldown(p) => b.payload.Cooldown? && b.payload.provider == p
    case IdentityStatus(p) => b.payload.IdentityStatus? && b.payload.profile == p
    case _ => IsEvent(b) && b.recordId == a.recordId
  }

  /** No later record is a state of the same thing. */
  ghost predicate IsNewest(records: seq<Record>, r: Record) {
    r in records && forall q :: q in records && SameEntity(r, q) ==> q.sequence <= r.sequence
  }

  // ----- what is live -----

  /** A response to the request is in the ledger. */
  ghost predicate IsAnswered(records: seq<Record>, session: string, turn: string, request: string) {
    exists q :: q in records && q.payload.ApprovalResponse? && q.payload.request == request
      && q.sessionId == Some(session) && q.turnId == Some(turn)
  }

  /** The newest state of something says that it goes on. */
  ghost predicate GoesOn(records: seq<Record>, now: int, r: Record) {
    IsNewest(records, r)
    && match r.payload
       case Session(_, closed, _, _, _, _) => !closed
       case Turn(_, _, terminal) => !terminal
       case Lease(_, expiresAt, _, _) => now < expiresAt
       case ApprovalRequest(s, t, q) => !IsAnswered(records, s, t, q)
       case _ => false
  }

  /** What can be live. */
  datatype Thing =
    | ASession(id: string)
    | ATurn(session: Option<string>, turn: Option<string>)
    | ALease(id: string)
    | ARequest(asking: string, during: string, request: string)

  /** A record that says of its thing that it goes on says so of this one as well. */
  predicate Implies(r: Record, thing: Thing) {
    match r.payload
    case Session(id, _, _, _, _, _) => thing == ASession(id)
    case Turn(s, t, _) => thing == ASession(s) || thing == ATurn(Some(s), Some(t))
    case Lease(id, _, s, t) =>
      || thing == ALease(id) || (s.Some? && thing == ASession(s.value)) || (t.Some? && thing == ATurn(s, t))
    case ApprovalRequest(s, t, q) =>
      thing == ASession(s) || thing == ATurn(Some(s), Some(t)) || thing == ARequest(s, t, q)
    case _ => false
  }

  ghost predicate IsLive(records: seq<Record>, policy: Policy, now: int, thing: Thing) {
    exists r :: GoesOn(records, now, r) && r.Kind() !in policy.nonRootKinds && Implies(r, thing)
  }

  /** The record is history of something live, or of a task that such history names. */
  ghost predicate Belongs(records: seq<Record>, policy: Policy, now: int, tasks: set<string>, r: Record) {
    r.Kind() !in policy.nonRootKinds
    && (|| (r.payload.Session? && IsLive(records, policy, now, ASession(r.payload.id)))
        || (!r.payload.Session? && r.sessionId.Some? && IsLive(records, policy, now, ASession(r.sessionId.value)))
        || IsLive(records, policy, now, ATurn(r.sessionId, r.turnId))
        || (r.taskId.Some? && r.taskId.value in tasks)
        || (r.payload.Lease? && IsLive(records, policy, now, ALease(r.payload.lease)))
        || (r.payload.ApprovalRequest?
            && IsLive(records, policy, now, ARequest(r.payload.session, r.payload.turn, r.payload.request))))
  }

  // ----- what is kept for its own sake -----

  /** How many later records are of this kind. */
  function LaterOfKind(records: seq<Record>, kind: Kind, sequence: int): nat {
    if records == [] then 0
    else
      var last := records[|records| - 1];
      LaterOfKind(records[..|records| - 1], kind, sequence)
      + if last.Kind() == kind && last.sequence > sequence then 1 else 0
  }

  /** Pinned; or, of a kind that may be a root, not to be pruned, without an age limit or young enough, or among
      the last of its kind. */
  ghost predicate StandsAlone(records: seq<Record>, policy: Policy, now: int, r: Record) {
    || r.recordId in policy.protectedIds
    || (r.Kind() !in policy.nonRootKinds
        && (|| r.Kind() !in policy.pruneKinds
            || policy.maxAge == None
            || now - policy.maxAge.value <= r.recordedAt
            || LaterOfKind(records, r.Kind(), r.sequence) < policy.keepLatestPerKind))
  }

  // ----- what a kept record needs -----

  /** The kept record names the thing that the other one is a state of. */
  predicate Names(q: Record, x: Record) {
    match x.payload
    case Session(id, _, _, _, _, _) =>
      || (!q.payload.Session? && q.sessionId == Some(id))
      || (q.payload.Session?
          && (q.payload.parent == Some(id) || q.payload.root == Some(id) || id in q.payload.handoffSources))
      || (q.payload.Lease? && q.payload.holderSession == Some(id))
    case Turn(s, t, _) =>
      || (q.sessionId == Some(s) && q.turnId == Some(t))
      || (q.payload.Lease? && q.payload.holderSession == Some(s) && q.payload.holderTurn == Some(t))
    case Lease(id, _, _, _) => q.payload.Session? && q.payload.worktree == Some(id)
    case ApprovalRequest(s, t, request) =>
      q.payload.ApprovalResponse? && q.payload.request == request && q.sessionId == Some(s) && q.turnId == Some(t)
    case ApprovalResponse(request) =>
      q.payload.ApprovalRequest? && q.payload.request == request
        && x.sessionId == Some(q.payload.session) && x.turnId == Some(q.payload.turn)
    case _ => false
  }

  // ----- chains of reasons -----

  datatype Fact = Kept(record: Record) | Worked(task: string)

  function TasksIn(facts: seq<Fact>): set<string> {
    set f | f in facts && f.Worked? :: f.task
  }

  /** The fact has a reason, in itself or in facts before it. */
  ghost predicate HasReason(records: seq<Record>, policy: Policy, now: int, before: seq<Fact>, f: Fact) {
    match f
    case Kept(r) =>
      && r in records
      && (|| StandsAlone(records, policy, now, r)
          || Belongs(records, policy, now, TasksIn(before), r)
          || (IsNewest(records, r) && exists q :: Kept(q) in before && (SameEntity(q, r) || Names(q, r))))
    case Worked(task) =>
      exists q :: q in records && q.taskId == Some(task) && Belongs(records, policy, now, TasksIn(before), q)
  }

  ghost predicate IsChain(records: seq<Record>, policy: Policy, now: int, facts: seq<Fact>) {
    forall i :: 0 <= i < |facts| ==> HasReason(records, policy, now, facts[..i], facts[i])
  }

  ghost predicate IsDerived(records: seq<Record>, policy: Policy, now: int, f: Fact) {
    exists facts :: IsChain(records, policy, now, facts) && f in facts
  }

  // ----- the notions agree -----

  lemma SameKey(a: Record, b: Record)
    ensures EntityKey(a) == EntityKey(b) <==> SameEntity(a, b)
  {
  }

  lemma NewestIsLatest(records: seq<Record>, r: Record)
    requires WellFormed(records)
    ensures IsNewest(records, r) <==> EntityKey(r) in Latest(records) && Latest(records)[EntityKey(r)] == r
  {
    LatestIsNewest(records);
    hide Latest, EntityKey, SameEntity;
    forall q: Record
      ensures EntityKey(r) == EntityKey(q) <==> SameEntity(r, q)
    {
      SameKey(r, q);
    }
    if IsNewest(records, r) {
      var x := Latest(records)[EntityKey(r)];
      SameSequence(records, r, x);
    }
  }

  lemma ResponseKeyOf(r: Record, s: string, t: string, q: string)
    ensures EntityKey(r) == ResponseKey(Some(s), Some(t), q) <==>
      r.payload.ApprovalResponse? && r.payload.request == q && r.sessionId == Some(s) && r.turnId == Some(t)
  {
  }

  lemma AnsweredIsLatest(records: seq<Record>, s: string, t: string, q: string)
    requires WellFormed(records)
    ensures IsAnswered(records, s, t, q) <==> ResponseKey(Some(s), Some(t), q) in Latest(records)
  {
    LatestIsNewest(records);
    hide Latest, EntityKey, WellFormed;
    var key := ResponseKey(Some(s), Some(t), q);
    if IsAnswered(records, s, t, q) {
      var r :| r in records && r.payload.ApprovalResponse? && r.payload.request == q
        && r.sessionId == Some(s) && r.turnId == Some(t);
      ResponseKeyOf(r, s, t, q);
    }
    if key in Latest(records) {
      ResponseKeyOf(Latest(records)[key], s, t, q);
    }
  }

  lemma {:induction false} SourcesAre(sources: seq<string>, key: Key)
    ensures key in SourceReferences(sources) <==> key.SessionKey? && key.id in sources
  {
    if sources != [] {
      SourcesAre(sources[1..], key);
    }
  }

  /** The keys that a record refers to. */
  lemma ReferencesAre(q: Record, key: Key)
    ensures key in References(q) <==> match key
      case SessionKey(id) =>
        || ScopedSession(q) == Some(id)
        || (q.payload.Session?
            && (q.payload.parent == Some(id) || q.payload.root == Some(id) || id in q.payload.handoffSources))
        || (q.payload.Lease? && q.payload.holderSession == Some(id))
      case TurnKey(s, t) =>
        t.Some? && ((q.sessionId == s && q.turnId == t)
                    || (q.payload.Lease? && q.payload.holderSession == s && q.payload.holderTurn == t))
      case LeaseKey(id) => q.payload.Session? && q.payload.worktree == Some(id)
      case RequestKey(s, t, request) =>
        q.payload.ApprovalResponse? && q.payload.request == request && q.sessionId == s && q.turnId == t
      case ResponseKey(s, t, request) =>
        q.payload.ApprovalRequest? && q.payload.request == request && s == Some(q.payload.session)
          && t == Some(q.payload.turn)
      case _ => false
  {
    if q.payload.Session? {
      SourcesAre(q.payload.handoffSources, key);
    }
  }

  /** What the key of a record tells about it. */
  lemma KeyForms(x: Record, key: Key)
    requires key == EntityKey(x)
    ensures match x.payload
      case Session(id, _, _, _, _, _) => key == SessionKey(id)
      case Turn(s, t, _) => key == TurnKey(Some(s), Some(t))
      case Lease(id, _, _, _) => key == LeaseKey(id)
      case ApprovalRequest(s, t, q) => key == RequestKey(Some(s), Some(t), q)
      case ApprovalResponse(q) => key == ResponseKey(x.sessionId, x.turnId, q)
      case _ => key.CooldownKey? || key.IdentityKey? || key.RecordKey?
  {
  }

  /** The record that a reference leads to is one that the kept record names, or is, and the other way round. */
  lemma ReferenceNames(q: Record, x: Record)
    ensures Names(q, x) ==> EntityKey(x) in References(q)
    ensures EntityKey(x) in References(q) ==> Names(q, x) || SameEntity(q, x)
  {
    var key := EntityKey(x);
    ReferencesAre(q, key);
    KeyForms(x, key);
    hide EntityKey, References;
    SameKey(q, x);
    KeyForms(q, EntityKey(q));
  }

  // ----- anchors -----

  predicate In(a: Anchors, thing: Thing) {
    match thing
    case ASession(id) => id in a.sessions
    case ATurn(s, t) => (s, t) in a.turns
    case ALease(id) => id in a.leases
    case ARequest(s, t, q) => (s, t, q) in a.requests
  }

  lemma JoinedIn(a: Anchors, b: Anchors, thing: Thing)
    ensures In(a.Join(b), thing) <==> In(a, thing) || In(b, thing)
    ensures !In(NO_ANCHORS, thing)
  {
  }

  ghost predicate IsAnchoring(records: seq<Record>, policy: Policy, now: int, r: Record, thing: Thing) {
    IsNewest(records, r) && r.Kind() !in policy.nonRootKinds && In(AnchorsOf(r, Latest(records), now), thing)
  }

  /** One of the first records holds it live. */
  ghost predicate IsAnchored(records: seq<Record>, n: nat, policy: Policy, now: int, thing: Thing)
    requires n <= |records|
  {
    exists i :: 0 <= i < n && IsAnchoring(records, policy, now, records[i], thing)
  }

  lemma AnchoredMore(records: seq<Record>, n: nat, policy: Policy, now: int, thing: Thing)
    requires 0 < n <= |records|
    ensures IsAnchored(records, n, policy, now, thing) <==>
      IsAnchored(records, n - 1, policy, now, thing) || IsAnchoring(records, policy, now, records[n - 1], thing)
  {
    hide IsAnchoring;
  }

  /** One more record is looked at. */
  lemma AnchorsStep(records: seq<Record>, n: nat, policy: Policy, now: int, thing: Thing)
    requires WellFormed(records) && 0 < n <= |records|
    ensures In(AnchorsUpTo(records, n, policy, now), thing) <==>
      || In(AnchorsUpTo(records, n - 1, policy, now), thing)
      || IsAnchoring(records, policy, now, records[n - 1], thing)
  {
    var r := records[n - 1];
    NewestIsLatest(records, r);
    JoinedIn(AnchorsUpTo(records, n - 1, policy, now), AnchorsOf(r, Latest(records), now), thing);
    hide AnchorsOf, Latest, IsNewest, WellFormed, EntityKey, In;
  }

  /** Everything that the first records of the ledger hold live. */
  lemma {:induction false} AnchorsUpToAre(records: seq<Record>, n: nat, policy: Policy, now: int, thing: Thing)
    requires WellFormed(records) && n <= |records|
    ensures In(AnchorsUpTo(records, n, policy, now), thing) <==> IsAnchored(records, n, policy, now, thing)
  {
    if n > 0 {
      hide *;
      AnchoredMore(records, n, policy, now, thing);
      AnchorsUpToAre(records, n - 1, policy, now, thing);
      AnchorsStep(records, n, policy, now, thing);
    } else {
      hide WellFormed, IsAnchoring;
    }
  }

  lemma WhatGoesOn(records: seq<Record>, now: int, r: Record, thing: Thing)
    requires WellFormed(records) && IsNewest(records, r)
    ensures In(AnchorsOf(r, Latest(records), now), thing) <==> GoesOn(records, now, r) && Implies(r, thing)
  {
    if r.payload.ApprovalRequest? {
      AnsweredIsLatest(records, r.payload.session, r.payload.turn, r.payload.request);
    }
    hide Latest, IsAnswered, WellFormed, IsNewest;
  }

  lemma NewestIsThere(records: seq<Record>)
    ensures forall r :: IsNewest(records, r) ==> r in records
  {
  }

  lemma LiveIsAnchor(records: seq<Record>, policy: Policy, now: int, thing: Thing)
    requires WellFormed(records)
    ensures IsLive(records, policy, now, thing) <==> In(AllAnchors(records, policy, now), thing)
  {
    AnchorsUpToAre(records, |records|, policy, now, thing);
    forall r | IsNewest(records, r)
      ensures In(AnchorsOf(r, Latest(records), now), thing) <==> GoesOn(records, now, r) && Implies(r, thing)
    {
      WhatGoesOn(records, now, r, thing);
    }
    NewestIsThere(records);
    hide AnchorsOf, Latest, WellFormed, AnchorsUpTo, In, Implies, IsNewest;
    if IsLive(records, policy, now, thing) {
      var r :| GoesOn(records, now, r) && r.Kind() !in policy.nonRootKinds && Implies(r, thing);
      var i :| 0 <= i < |records| && records[i] == r;
      assert IsAnchoring(records, policy, now, records[i], thing);
    }
  }

  lemma BelongsIsProtected(records: seq<Record>, policy: Policy, now: int, tasks: set<string>, r: Record)
    requires WellFormed(records)
    ensures Belongs(records, policy, now, tasks, r) <==>
      IsProtected(r, AllAnchors(records, policy, now), policy.nonRootKinds, tasks)
  {
    forall thing: Thing
      ensures IsLive(records, policy, now, thing) <==> In(AllAnchors(records, policy, now), thing)
    {
      LiveIsAnchor(records, policy, now, thing);
    }
    hide AllAnchors, WellFormed, IsLive;
  }

  // ----- roots -----

  lemma {:induction false} NoneLater(records: seq<Record>, kind: Kind, sequence: int)
    requires forall r :: r in records ==> r.sequence < sequence
    ensures LaterOfKind(records, kind, sequence) == 0
  {
    if records != [] {
      var n := |records| - 1;
      assert records[n] in records;
      NoneLater(records[..n], kind, sequence);
    }
  }

  /** Where a record stands among those of its kind. */
  lemma {:induction false} PlaceOfKind(records: seq<Record>, r: Record) returns (p: nat)
    requires WellFormed(records) && r in records
    ensures p < |OfKind(records, r.Kind())| && OfKind(records, r.Kind())[p] == r
    ensures |OfKind(records, r.Kind())| - 1 - p == LaterOfKind(records, r.Kind(), r.sequence)
  {
    var n := |records| - 1;
    var front, last := records[..n], records[n];
    assert records == front + [last];
    if r == last {
      NoneLater(front, r.Kind(), r.sequence);
      p := |OfKind(front, r.Kind())|;
    } else {
      assert r in front && r.sequence < last.sequence;
      p := PlaceOfKind(front, r);
    }
  }

  lemma {:induction false} OfKindDistinct(records: seq<Record>, kind: Kind)
    requires WellFormed(records)
    ensures forall i, j :: 0 <= i < j < |OfKind(records, kind)| ==>
      OfKind(records, kind)[i].sequence < OfKind(records, kind)[j].sequence
    ensures forall r :: r in OfKind(records, kind) ==> r in records
  {
    if records != [] {
      var n := |records| - 1;
      OfKindDistinct(records[..n], kind);
      assert records == records[..n] + [records[n]];
      assert forall r :: r in records[..n] ==> r.sequence < records[n].sequence;
    }
  }

  lemma AmongTheLast(records: seq<Record>, r: Record, k: nat)
    requires WellFormed(records) && r in records
    ensures r in LastOfKind(records, r.Kind(), k) <==> LaterOfKind(records, r.Kind(), r.sequence) < k
  {
    var p := PlaceOfKind(records, r);
    OfKindDistinct(records, r.Kind());
    hide WellFormed, OfKind, LaterOfKind;
    var all := OfKind(records, r.Kind());
    if |all| > k {
      var m := |all| - k;
      assert forall i :: 0 <= i < k ==> all[m..][i] == all[m + i];
      if p >= m {
        assert all[m..][p - m] == r;
      }
    }
  }

  lemma AloneIsRoot(records: seq<Record>, policy: Policy, now: int, r: Record)
    requires WellFormed(records) && r in records
    ensures StandsAlone(records, policy, now, r) <==> IsRoot(r, policy, now) || IsRecent(records, r, policy)
  {
    if policy.keepLatestPerKind > 0 {
      AmongTheLast(records, r, policy.keepLatestPerKind);
    }
    hide WellFormed, LastOfKind, LaterOfKind;
  }

  // ----- chains and selections -----

  predicate IsHeld(records: seq<Record>, keep: set<int>, tasks: set<string>, f: Fact) {
    match f
    case Kept(r) => r in records && r.sequence in keep
    case Worked(task) => task in tasks
  }

  predicate AllHeld(records: seq<Record>, keep: set<int>, tasks: set<string>, facts: seq<Fact>) {
    forall f :: f in facts ==> IsHeld(records, keep, tasks, f)
  }

  lemma FewerTasks(records: seq<Record>, policy: Policy, now: int, before: seq<Fact>, keep: set<int>,
                   tasks: set<string>, r: Record)
    requires AllHeld(records, keep, tasks, before)
    requires Belongs(records, policy, now, TasksIn(before), r)
    ensures Belongs(records, policy, now, tasks, r)
  {
    hide IsLive;
    assert TasksIn(before) <= tasks;
  }

  /** Pinned, unpruned, unaged, young and last records are kept. */
  lemma AloneIsKept(records: seq<Record>, policy: Policy, now: int, keep: set<int>, tasks: set<string>, r: Record)
    requires WellFormed(records) && IsSelection(records, policy, now, keep, tasks)
    requires r in records && StandsAlone(records, policy, now, r)
    ensures r.sequence in keep
  {
    AloneIsRoot(records, policy, now, r);
    hide WellFormed, IsRoot, IsRecent, StandsAlone, Closed, Below;
  }

  /** The history of what is live is kept, and its tasks with it. */
  lemma BelongingIsKept(records: seq<Record>, policy: Policy, now: int, keep: set<int>, tasks: set<string>, r: Record)
    requires WellFormed(records) && IsSelection(records, policy, now, keep, tasks)
    requires r in records && Belongs(records, policy, now, tasks, r)
    ensures r.sequence in keep && (r.taskId.Some? ==> r.taskId.value in tasks)
  {
    BelongsIsProtected(records, policy, now, tasks, r);
    hide WellFormed, Belongs, IsProtected, AllAnchors, HasRoots, Below;
    assert LocallyClosed(GraphOf(records, policy, now), r, keep, tasks);
  }

  /** With a kept record the newest states of what it is a state of, and of what it names, are kept. */
  lemma NeededIsKept(records: seq<Record>, policy: Policy, now: int, keep: set<int>, tasks: set<string>, q: Record,
                     x: Record)
    requires WellFormed(records) && IsSelection(records, policy, now, keep, tasks)
    requires q in records && q.sequence in keep && IsNewest(records, x) && (SameEntity(q, x) || Names(q, x))
    ensures x.sequence in keep
  {
    SameKey(q, x);
    ReferenceNames(q, x);
    NewestIsLatest(records, x);
    hide WellFormed, IsProtected, AllAnchors, HasRoots, Below, SameEntity, Names, EntityKey, References, IsNewest;
    assert LocallyClosed(GraphOf(records, policy, now), q, keep, tasks);
  }

  /** A kept record is protected, or needed, or stands alone: what one step of a chain keeps is kept. */
  lemma StepIsKept(records: seq<Record>, policy: Policy, now: int, keep: set<int>, tasks: set<string>,
                   before: seq<Fact>, f: Fact)
    requires WellFormed(records) && IsSelection(records, policy, now, keep, tasks)
    requires AllHeld(records, keep, tasks, before)
    requires HasReason(records, policy, now, before, f)
    ensures IsHeld(records, keep, tasks, f)
  {
    match f
    case Kept(r) =>
      if StandsAlone(records, policy, now, r) {
        AloneIsKept(records, policy, now, keep, tasks, r);
      } else if Belongs(records, policy, now, TasksIn(before), r) {
        FewerTasks(records, policy, now, before, keep, tasks, r);
        BelongingIsKept(records, policy, now, keep, tasks, r);
      } else {
        var q :| Kept(q) in before && (SameEntity(q, r) || Names(q, r));
        assert IsHeld(records, keep, tasks, Kept(q));
        NeededIsKept(records, policy, now, keep, tasks, q, r);
      }
    case Worked(task) =>
      var q :| q in records && q.taskId == Some(task) && Belongs(records, policy, now, TasksIn(before), q);
      FewerTasks(records, policy, now, before, keep, tasks, q);
      BelongingIsKept(records, policy, now, keep, tasks, q);
  }

  lemma HeldMore(records: seq<Record>, keep: set<int>, tasks: set<string>, before: seq<Fact>, f: Fact)
    requires AllHeld(records, keep, tasks, before) && IsHeld(records, keep, tasks, f)
    ensures AllHeld(records, keep, tasks, before + [f])
  {
    hide IsHeld;
  }

  lemma ShorterChain(records: seq<Record>, policy: Policy, now: int, facts: seq<Fact>)
    requires facts != [] && IsChain(records, policy, now, facts)
    ensures IsChain(records, policy, now, facts[..|facts| - 1])
    ensures HasReason(records, policy, now, facts[..|facts| - 1], facts[|facts| - 1])
  {
    hide HasReason;
    var n := |facts| - 1;
    assert forall i :: 0 <= i < n ==> facts[..n][..i] == facts[..i];
  }

  lemma {:induction false} ChainIsKept(records: seq<Record>, policy: Policy, now: int, keep: set<int>,
                                       tasks: set<string>, facts: seq<Fact>)
    requires WellFormed(records) && IsSelection(records, policy, now, keep, tasks)
    requires IsChain(records, policy, now, facts)
    ensures AllHeld(records, keep, tasks, facts)
    decreases |facts|
  {
    hide WellFormed, IsSelection, HasReason, IsHeld, StandsAlone, Belongs;
    if facts != [] {
      hide *;
      var n := |facts| - 1;
      ShorterChain(records, policy, now, facts);
      ChainIsKept(records, policy, now, keep, tasks, facts[..n]);
      StepIsKept(records, policy, now, keep, tasks, facts[..n], facts[n]);
      HeldMore(records, keep, tasks, facts[..n], facts[n]);
      assert facts == facts[..n] + [facts[n]];
    }
  }

  lemma LongerChain(records: seq<Record>, policy: Policy, now: int, facts: seq<Fact>, f: Fact)
    requires IsChain(records, policy, now, facts) && HasReason(records, policy, now, facts, f)
    ensures IsDerived(records, policy, now, f)
  {
    hide HasReason;
    var more := facts + [f];
    assert forall i :: 0 <= i < |facts| ==> more[..i] == facts[..i] && more[i] == facts[i];
    assert more[..|facts|] == facts && more[|facts|] == f;
    assert f in more;
  }

  lemma DerivedAlone(records: seq<Record>, policy: Policy, now: int, f: Fact)
    requires HasReason(records, policy, now, [], f)
    ensures IsDerived(records, policy, now, f)
  {
    LongerChain(records, policy, now, [], f);
  }

  /** The records and the tasks that chains lead to. */
  ghost function DerivedSequences(records: seq<Record>, policy: Policy, now: int): set<int> {
    set r | r in records && IsDerived(records, policy, now, Kept(r)) :: r.sequence
  }

  ghost function DerivedTasks(records: seq<Record>, policy: Policy, now: int): set<string> {
    set r | r in records && r.taskId.Some? && IsDerived(records, policy, now, Worked(r.taskId.value)) :: r.taskId.value
  }

  lemma DerivedByBelonging(records: seq<Record>, policy: Policy, now: int, r: Record)
    requires r in records && Belongs(records, policy, now, DerivedTasks(records, policy, now), r)
    ensures IsDerived(records, policy, now, Kept(r))
    ensures r.taskId.Some? ==> IsDerived(records, policy, now, Worked(r.taskId.value))
  {
    hide IsLive;
    var facts: seq<Fact> := [];
    if !Belongs(records, policy, now, {}, r) {
      facts :| IsChain(records, policy, now, facts) && Worked(r.taskId.value) in facts;
      assert r.taskId.value in TasksIn(facts);
    } else {
      assert TasksIn(facts) == {};
    }
    LongerChain(records, policy, now, facts, Kept(r));
    if r.taskId.Some? {
      LongerChain(records, policy, now, facts, Worked(r.taskId.value));
    }
  }

  lemma DerivedByNeed(records: seq<Record>, policy: Policy, now: int, q: Record, x: Record)
    requires IsDerived(records, policy, now, Kept(q)) && IsNewest(records, x) && (SameEntity(q, x) || Names(q, x))
    ensures IsDerived(records, policy, now, Kept(x))
  {
    hide IsChain, SameEntity, Names, StandsAlone, Belongs;
    var facts :| IsChain(records, policy, now, facts) && Kept(q) in facts;
    NewestIsThere(records);
    LongerChain(records, policy, now, facts, Kept(x));
  }

  lemma DerivedSequence(records: seq<Record>, policy: Policy, now: int, r: Record)
    requires WellFormed(records) && r in records && r.sequence in DerivedSequences(records, policy, now)
    ensures IsDerived(records, policy, now, Kept(r))
  {
    hide IsDerived, WellFormed;
    var q :| q in records && IsDerived(records, policy, now, Kept(q)) && q.sequence == r.sequence;
    SameSequence(records, r, q);
  }

  lemma DerivedReference(records: seq<Record>, policy: Policy, now: int, r: Record, k: Key)
    requires WellFormed(records) && r in records && IsDerived(records, policy, now, Kept(r))
    requires (k == EntityKey(r) || k in References(r)) && k in Latest(records)
    ensures Latest(records)[k].sequence in DerivedSequences(records, policy, now)
  {
    var x := Latest(records)[k];
    LatestIsNewest(records);
    NewestIsLatest(records, x);
    SameKey(r, x);
    ReferenceNames(r, x);
    hide Latest, EntityKey, References, SameEntity, Names, IsDerived, IsNewest, WellFormed;
    DerivedByNeed(records, policy, now, r, x);
    NewestIsThere(records);
  }

  lemma DerivedIsClosed(records: seq<Record>, policy: Policy, now: int, r: Record)
    requires WellFormed(records) && r in records
    ensures LocallyClosed(
      GraphOf(records, policy, now), r, DerivedSequences(records, policy, now), DerivedTasks(records, policy, now))
  {
    var g, keep, tasks :=
      GraphOf(records, policy, now), DerivedSequences(records, policy, now), DerivedTasks(records, policy, now);
    BelongsIsProtected(records, policy, now, tasks, r);
    hide IsProtected, Belongs, AllAnchors, IsDerived, References;
    if Belongs(records, policy, now, tasks, r) {
      DerivedByBelonging(records, policy, now, r);
    }
    if r.sequence in keep {
      DerivedSequence(records, policy, now, r);
      forall k: Key | k == EntityKey(r) || k in References(r)
        ensures Holds(g, k, keep)
      {
        if k in g.latest {
          DerivedReference(records, policy, now, r, k);
        }
      }
    }
  }

  lemma DerivedCloses(records: seq<Record>, policy: Policy, now: int, keep: set<int>, tasks: set<string>)
    requires WellFormed(records) && IsSelection(records, policy, now, keep, tasks)
    ensures keep <= DerivedSequences(records, policy, now) && tasks <= DerivedTasks(records, policy, now)
  {
    var k, t := DerivedSequences(records, policy, now), DerivedTasks(records, policy, now);
    forall r | r in records
      ensures LocallyClosed(GraphOf(records, policy, now), r, k, t)
    {
      DerivedIsClosed(records, policy, now, r);
    }
    forall r | r in records && (IsRoot(r, policy, now) || IsRecent(records, r, policy))
      ensures r.sequence in k
    {
      AloneIsRoot(records, policy, now, r);
      DerivedAlone(records, policy, now, Kept(r));
    }
    hide LocallyClosed, IsRoot, IsRecent, IsDerived, WellFormed, DerivedSequences, DerivedTasks;
    assert HasRoots(records, policy, now, k) && Closed(GraphOf(records, policy, now), records, k, t);
  }

  /** A record is kept exactly when a chain of reasons leads to it, and pruned otherwise; and so it is with the
      tasks whose history is kept. */
  lemma KeptExactly(records: seq<Record>, policy: Policy, now: int, keep: set<int>, tasks: set<string>)
    requires WellFormed(records) && IsSelection(records, policy, now, keep, tasks)
    ensures forall r :: r in records ==> (r.sequence in keep <==> IsDerived(records, policy, now, Kept(r)))
    ensures forall t :: t in tasks <==> IsDerived(records, policy, now, Worked(t))
    ensures forall n :: n in keep ==> exists r :: r in records && r.sequence == n
  {
    var k, t := DerivedSequences(records, policy, now), DerivedTasks(records, policy, now);
    DerivedCloses(records, policy, now, keep, tasks);
    forall f: Fact | IsDerived(records, policy, now, f)
      ensures IsHeld(records, keep, tasks, f)
    {
      var facts :| IsChain(records, policy, now, facts) && f in facts;
      ChainIsKept(records, policy, now, keep, tasks, facts);
    }
    hide IsDerived, IsSelection, WellFormed;
    forall r | r in records && r.sequence in keep
      ensures IsDerived(records, policy, now, Kept(r))
    {
      DerivedSequence(records, policy, now, r);
    }
    forall r | r in records && IsDerived(records, policy, now, Kept(r))
      ensures r.sequence in keep
    {
      assert IsHeld(records, keep, tasks, Kept(r));
    }
    forall task | IsDerived(records, policy, now, Worked(task))
      ensures task in tasks
    {
      assert IsHeld(records, keep, tasks, Worked(task));
    }
  }
}
