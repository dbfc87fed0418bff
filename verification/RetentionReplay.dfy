/** What pruning leaves unchanged: the selection itself, the replay of every live session, and the
    active turns and pending approvals of the control view. */
module RetentionReplay {
  import opened Wrappers
  import opened LedgerRecords
  import opened Retention

  // ----- the newest records after pruning -----

  /** The newest records after pruning are newest records from before, and all that were kept. */
  ghost predicate SameNewest(before: map<Key, Record>, after: map<Key, Record>, keep: set<int>) {
    && (forall k :: k in after ==> k in before && after[k] == before[k])
    && (forall k :: k in before && before[k].sequence in keep ==> k in after)
  }

  /** A kept record keeps the newest record of its entity, so pruning hides no newer state. */
  lemma LatestAfterPruning(records: seq<Record>, policy: Policy, now: int, keep: set<int>, tasks: set<string>)
    requires WellFormed(records) && IsSelection(records, policy, now, keep, tasks)
    ensures SameNewest(Latest(records), Latest(Filter(records, keep)), keep)
  {
    var kept := Filter(records, keep);
    var before, after := Latest(records), Latest(kept);
    FilterMembers(records, keep);
    FilterWellFormed(records, keep);
    LatestIsNewest(records);
    LatestIsNewest(kept);
    forall k | k in after
      ensures k in before && after[k] == before[k]
    {
      var r := after[k];
      assert LocallyClosed(GraphOf(records, policy, now), r, keep, tasks);
      assert before[k] in kept;
      assert before[k].sequence <= r.sequence && r.sequence <= before[k].sequence;
      SameSequence(records, r, before[k]);
    }
  }

  // ----- anchors -----

  predicate Within(a: Anchors, b: Anchors) {
    a.sessions <= b.sessions && a.turns <= b.turns && a.leases <= b.leases && a.requests <= b.requests
  }

  predicate HoldsLive(r: Record, latest: map<Key, Record>, policy: Policy) {
    EntityKey(r) in latest && latest[EntityKey(r)] == r && r.Kind() !in policy.nonRootKinds
  }

  lemma {:induction false} AnchorsContain(records: seq<Record>, n: nat, policy: Policy, now: int)
    requires n <= |records|
    ensures forall i :: 0 <= i < n && HoldsLive(records[i], Latest(records), policy) ==>
      Within(AnchorsOf(records[i], Latest(records), now), AnchorsUpTo(records, n, policy, now))
  {
    hide AnchorsOf, Latest;
    if n > 0 {
      AnchorsContain(records, n - 1, policy, now);
    }
  }

  lemma {:induction false} AnchorsAreWithin(records: seq<Record>, n: nat, policy: Policy, now: int, bound: Anchors)
    requires n <= |records|
    requires forall i :: 0 <= i < n && HoldsLive(records[i], Latest(records), policy) ==>
      Within(AnchorsOf(records[i], Latest(records), now), bound)
    ensures Within(AnchorsUpTo(records, n, policy, now), bound)
  {
    hide AnchorsOf, Latest;
    if n > 0 {
      AnchorsAreWithin(records, n - 1, policy, now, bound);
    }
  }

  /** What a newest record holds live includes the record itself. */
  lemma LiveIsProtected(r: Record, latest: map<Key, Record>, now: int, anchors: Anchors, policy: Policy,
                        tasks: set<string>)
    requires Normalized(r) && r.Kind() !in policy.nonRootKinds
    requires AnchorsOf(r, latest, now) != NO_ANCHORS && Within(AnchorsOf(r, latest, now), anchors)
    ensures IsProtected(r, anchors, policy.nonRootKinds, tasks)
  {
  }

  lemma ResponseIsHeld(
      records: seq<Record>, policy: Policy, now: int, keep: set<int>, tasks: set<string>, r: Record)
    requires IsSelection(records, policy, now, keep, tasks)
    requires r in records && r.sequence in keep && r.payload.ApprovalRequest?
    ensures Holds(GraphOf(records, policy, now),
      ResponseKey(Some(r.payload.session), Some(r.payload.turn), r.payload.request), keep)
  {
    var key := ResponseKey(Some(r.payload.session), Some(r.payload.turn), r.payload.request);
    var g := GraphOf(records, policy, now);
    assert LocallyClosed(g, r, keep, tasks);
    var references := References(r);
    assert references[|references| - 1] == key;
  }

  /** Whether a kept request is answered does not change. */
  lemma SameAnchorsOf(
      records: seq<Record>, policy: Policy, now: int, keep: set<int>, tasks: set<string>, r: Record)
    requires WellFormed(records) && IsSelection(records, policy, now, keep, tasks)
    requires r in records && r.sequence in keep
    ensures AnchorsOf(r, Latest(Filter(records, keep)), now) == AnchorsOf(r, Latest(records), now)
  {
    if r.payload.ApprovalRequest? {
      ResponseIsHeld(records, policy, now, keep, tasks, r);
    }
    hide IsSelection, Latest, References;
    LatestAfterPruning(records, policy, now, keep, tasks);
  }

  lemma ProtectedIsKept(
      records: seq<Record>, policy: Policy, now: int, keep: set<int>, tasks: set<string>, r: Record)
    requires IsSelection(records, policy, now, keep, tasks) && r in records
    requires IsProtected(r, AllAnchors(records, policy, now), policy.nonRootKinds, tasks)
    ensures r.sequence in keep && (r.taskId.Some? ==> r.taskId.value in tasks)
  {
    assert LocallyClosed(GraphOf(records, policy, now), r, keep, tasks);
  }

  lemma AnchorsAfterPruning(records: seq<Record>, policy: Policy, now: int, keep: set<int>, tasks: set<string>)
    requires WellFormed(records) && IsSelection(records, policy, now, keep, tasks)
    ensures AllAnchors(Filter(records, keep), policy, now) == AllAnchors(records, policy, now)
  {
    hide AnchorsOf, Latest, IsProtected, IsSelection, AnchorsUpTo;
    var kept := Filter(records, keep);
    FilterMembers(records, keep);
    LatestAfterPruning(records, policy, now, keep, tasks);
    AnchorsContain(records, |records|, policy, now);
    AnchorsContain(kept, |kept|, policy, now);
    forall i | 0 <= i < |kept| && HoldsLive(kept[i], Latest(kept), policy)
      ensures Within(AnchorsOf(kept[i], Latest(kept), now), AllAnchors(records, policy, now))
    {
      var r := kept[i];
      assert r in records && r.sequence in keep;
      SameAnchorsOf(records, policy, now, keep, tasks, r);
      var j :| 0 <= j < |records| && records[j] == r;
      assert HoldsLive(records[j], Latest(records), policy);
    }
    AnchorsAreWithin(kept, |kept|, policy, now, AllAnchors(records, policy, now));
    forall i | 0 <= i < |records| && HoldsLive(records[i], Latest(records), policy)
      ensures Within(AnchorsOf(records[i], Latest(records), now), AllAnchors(kept, policy, now))
    {
      var r := records[i];
      if AnchorsOf(r, Latest(records), now) != NO_ANCHORS {
        LiveIsProtected(r, Latest(records), now, AllAnchors(records, policy, now), policy, tasks);
        ProtectedIsKept(records, policy, now, keep, tasks, r);
        SameAnchorsOf(records, policy, now, keep, tasks, r);
        assert r in kept;
        var j :| 0 <= j < |kept| && kept[j] == r;
        assert HoldsLive(kept[j], Latest(kept), policy);
      }
    }
    AnchorsAreWithin(records, |records|, policy, now, AllAnchors(kept, policy, now));
  }

  // ----- the last records of a kind -----

  predicate InLast(records: seq<Record>, kind: Kind, k: nat, r: Record) {
    if records == [] || k == 0 then false
    else
      var n := |records| - 1;
      if records[n].Kind() == kind then records[n] == r || InLast(records[..n], kind, k - 1, r)
      else InLast(records[..n], kind, k, r)
  }

  lemma LastOfKindStep(records: seq<Record>, kind: Kind, k: nat)
    requires records != [] && k > 0
    ensures var n := |records| - 1;
      LastOfKind(records, kind, k) ==
        if records[n].Kind() == kind then LastOfKind(records[..n], kind, k - 1) + [records[n]]
        else LastOfKind(records[..n], kind, k)
  {
    var n := |records| - 1;
    var front := OfKind(records[..n], kind);
    if records[n].Kind() == kind {
      assert OfKind(records, kind) == front + [records[n]];
    } else {
      assert OfKind(records, kind) == front;
    }
  }

  lemma LastOfKindNone(records: seq<Record>, kind: Kind, k: nat)
    requires records == [] || k == 0
    ensures LastOfKind(records, kind, k) == []
  {
  }

  lemma {:induction false} InLastIsLastOfKind(records: seq<Record>, kind: Kind, k: nat, r: Record)
    ensures InLast(records, kind, k, r) <==> r in LastOfKind(records, kind, k)
  {
    hide LastOfKind;
    if records == [] || k == 0 {
      LastOfKindNone(records, kind, k);
    } else {
      var n := |records| - 1;
      LastOfKindStep(records, kind, k);
      if records[n].Kind() == kind {
        InLastIsLastOfKind(records[..n], kind, k - 1, r);
      } else {
        InLastIsLastOfKind(records[..n], kind, k, r);
      }
    }
  }

  lemma {:induction false} InLastGrows(records: seq<Record>, kind: Kind, k: nat, r: Record)
    requires InLast(records, kind, k, r)
    ensures InLast(records, kind, k + 1, r)
  {
    var n := |records| - 1;
    if records[n].Kind() == kind {
      if records[n] != r {
        InLastGrows(records[..n], kind, k - 1, r);
      }
    } else {
      InLastGrows(records[..n], kind, k, r);
    }
  }

  /** A recent record that is kept is still recent after pruning. */
  lemma {:induction false} InLastAfterPruning(records: seq<Record>, keep: set<int>, kind: Kind, k: nat, r: Record)
    requires InLast(records, kind, k, r) && r.sequence in keep
    ensures InLast(Filter(records, keep), kind, k, r)
  {
    var n := |records| - 1;
    var kept := Filter(records, keep);
    if records[n].sequence in keep {
      assert kept[..|kept| - 1] == Filter(records[..n], keep);
    }
    if records[n].Kind() == kind {
      if records[n] != r {
        InLastAfterPruning(records[..n], keep, kind, k - 1, r);
        if records[n].sequence !in keep {
          InLastGrows(kept, kind, k - 1, r);
        }
      }
    } else {
      InLastAfterPruning(records[..n], keep, kind, k, r);
    }
  }

  // ----- pruning again changes nothing -----

  lemma RootsAfterPruning(
      records: seq<Record>, policy: Policy, now: int, keep: set<int>, again: set<int>)
    requires HasRoots(records, policy, now, keep) && HasRoots(Filter(records, keep), policy, now, again)
    ensures HasRoots(records, policy, now, again)
  {
    hide InLast, LastOfKind;
    FilterMembers(records, keep);
    forall r | r in records && (IsRoot(r, policy, now) || IsRecent(records, r, policy))
      ensures r.sequence in again
    {
      assert r in Filter(records, keep);
      if IsRecent(records, r, policy) {
        InLastIsLastOfKind(records, r.Kind(), policy.keepLatestPerKind, r);
        InLastAfterPruning(records, keep, r.Kind(), policy.keepLatestPerKind, r);
        InLastIsLastOfKind(Filter(records, keep), r.Kind(), policy.keepLatestPerKind, r);
        assert IsRecent(Filter(records, keep), r, policy);
      }
    }
  }

  /** The whole selection is closed for the records it kept. */
  lemma SelectionIsClosedForKept(
      records: seq<Record>, policy: Policy, now: int, keep: set<int>, tasks: set<string>)
    requires WellFormed(records) && IsSelection(records, policy, now, keep, tasks)
    ensures var kept := Filter(records, keep);
      Closed(GraphOf(kept, policy, now), kept, keep, tasks) && HasRoots(kept, policy, now, keep)
  {
    hide IsProtected, References;
    var kept := Filter(records, keep);
    var g, g' := GraphOf(records, policy, now), GraphOf(kept, policy, now);
    FilterMembers(records, keep);
    FilterWellFormed(records, keep);
    LatestIsNewest(kept);
    AnchorsAfterPruning(records, policy, now, keep, tasks);
    forall r | r in kept
      ensures LocallyClosed(g', r, keep, tasks)
    {
      assert LocallyClosed(g, r, keep, tasks);
    }
  }

  lemma ProtectedGrows(r: Record, anchors: Anchors, nonRoots: set<Kind>, tasks: set<string>, more: set<string>)
    requires IsProtected(r, anchors, nonRoots, tasks) && tasks <= more
    ensures IsProtected(r, anchors, nonRoots, more)
  {
  }

  /** Two graphs that agree on every kept entity. */
  ghost predicate SameOnKept(g: Graph, g': Graph, keep: set<int>) {
    && g'.anchors == g.anchors && g'.nonRoots == g.nonRoots
    && SameNewest(g.latest, g'.latest, keep)
  }

  lemma SameGraph(records: seq<Record>, policy: Policy, now: int, keep: set<int>, tasks: set<string>)
    requires WellFormed(records) && IsSelection(records, policy, now, keep, tasks)
    ensures SameOnKept(GraphOf(records, policy, now), GraphOf(Filter(records, keep), policy, now), keep)
  {
    hide SameNewest, AllAnchors, IsSelection;
    LatestAfterPruning(records, policy, now, keep, tasks);
    AnchorsAfterPruning(records, policy, now, keep, tasks);
  }

  /** A record closed in the pruned graph is closed in the whole one. */
  lemma ClosedInBoth(
      g: Graph, g': Graph, r: Record, keep: set<int>, tasks: set<string>, again: set<int>, tasks': set<string>)
    requires SameOnKept(g, g', keep) && again <= keep
    requires LocallyClosed(g, r, keep, tasks) && LocallyClosed(g', r, again, tasks')
    ensures LocallyClosed(g, r, again, tasks')
  {
    hide IsProtected, References;
  }

  /** A record that was pruned is closed for any smaller selection. */
  lemma PrunedIsClosed(
      g: Graph, r: Record, keep: set<int>, tasks: set<string>, again: set<int>, tasks': set<string>)
    requires again <= keep && tasks' <= tasks && r.sequence !in keep
    requires LocallyClosed(g, r, keep, tasks)
    ensures LocallyClosed(g, r, again, tasks')
  {
    hide IsProtected, References;
    if IsProtected(r, g.anchors, g.nonRoots, tasks') {
      ProtectedGrows(r, g.anchors, g.nonRoots, tasks', tasks);
    }
  }

  /** What is closed for the kept records is closed for all records. */
  lemma ClosedForAll(
      records: seq<Record>, policy: Policy, now: int, keep: set<int>, tasks: set<string>,
      again: set<int>, tasks': set<string>)
    requires WellFormed(records) && IsSelection(records, policy, now, keep, tasks)
    requires again <= keep && tasks' <= tasks
    requires var kept := Filter(records, keep); Closed(GraphOf(kept, policy, now), kept, again, tasks')
    ensures Closed(GraphOf(records, policy, now), records, again, tasks')
  {
    hide LocallyClosed, SameOnKept, GraphOf;
    var kept := Filter(records, keep);
    var g, g' := GraphOf(records, policy, now), GraphOf(kept, policy, now);
    FilterMembers(records, keep);
    SameGraph(records, policy, now, keep, tasks);
    forall r | r in records
      ensures LocallyClosed(g, r, again, tasks')
    {
      if r.sequence in keep {
        ClosedInBoth(g, g', r, keep, tasks, again, tasks');
      } else {
        PrunedIsClosed(g, r, keep, tasks, again, tasks');
      }
    }
  }

  /** Applying the selection again to its own result, with the same policy and time, keeps everything. */
  lemma SelectionIsIdempotent(
      records: seq<Record>, policy: Policy, now: int, keep: set<int>, tasks: set<string>,
      again: set<int>, tasks': set<string>)
    requires WellFormed(records) && IsSelection(records, policy, now, keep, tasks)
    requires IsSelection(Filter(records, keep), policy, now, again, tasks')
    ensures again == keep && tasks' == tasks
  {
    hide LocallyClosed, HasRoots;
    SelectionIsClosedForKept(records, policy, now, keep, tasks);
    assert again <= keep && tasks' <= tasks;
    ClosedForAll(records, policy, now, keep, tasks, again, tasks');
    RootsAfterPruning(records, policy, now, keep, again);
  }

  // ----- replay -----

  function Where(records: seq<Record>, p: Record -> bool): seq<Record> {
    if records == [] then []
    else
      var n := |records| - 1;
      Where(records[..n], p) + if p(records[n]) then [records[n]] else []
  }

  /** Selecting records that are all kept gives the same before and after pruning. */
  lemma {:induction false} WhereAfterPruning(records: seq<Record>, keep: set<int>, p: Record -> bool)
    requires forall r :: r in records && p(r) ==> r.sequence in keep
    ensures Where(Filter(records, keep), p) == Where(records, p)
  {
    if records != [] {
      var n := |records| - 1;
      WhereAfterPruning(records[..n], keep, p);
      var kept := Filter(records, keep);
      if records[n].sequence in keep {
        assert kept[..|kept| - 1] == Filter(records[..n], keep);
      } else {
        assert records[n] in records;
      }
    }
  }

  lemma {:induction false} WhereMembers(records: seq<Record>, p: Record -> bool)
    ensures forall r :: r in Where(records, p) <==> r in records && p(r)
  {
    if records != [] {
      var n := |records| - 1;
      WhereMembers(records[..n], p);
      assert records == records[..n] + [records[n]];
    }
  }

  function IndexOfKey(records: seq<Record>, key: Key): nat
    ensures IndexOfKey(records, key) <= |records|
  {
    if records == [] || EntityKey(records[0]) == key then 0 else 1 + IndexOfKey(records[1..], key)
  }

  /** latestByKey on records in sequence order: a later record takes the place of the first of its entity. */
  function LatestByKey(records: seq<Record>): seq<Record> {
    if records == [] then []
    else
      var n := |records| - 1;
      var front := LatestByKey(records[..n]);
      var i := IndexOfKey(front, EntityKey(records[n]));
      if i < |front| then front[i := records[n]] else front + [records[n]]
  }

  /** nextCursor: one past the highest event cursor. */
  function NextCursor(events: seq<Record>): Option<nat> {
    if events == [] then None
    else
      var n := |events| - 1;
      var c := if events[n].payload.RuntimeEvent? then events[n].payload.cursor else 0;
      match NextCursor(events[..n])
      case None => Some(c + 1)
      case Some(m) => Some(if c + 1 > m then c + 1 else m)
  }

  datatype SessionReplay = SessionReplay(
    session: Option<Record>, turns: seq<Record>, events: seq<Record>, nextCursor: Option<nat>,
    routeDecisions: seq<Record>, approvalRequests: seq<Record>, approvalResponses: seq<Record>,
    evidenceRefs: seq<Record>)

  function TaskIds(records: seq<Record>): set<string> {
    set r | r in records && r.taskId.Some? :: r.taskId.value
  }

  predicate RoutesFor(r: Record, session: string, tasks: set<string>) {
    r.payload.RouteDecision?
    && (r.sessionId == Some(session) || (r.sessionId.None? && r.taskId.Some? && r.taskId.value in tasks))
  }

  /** The records of a session. */
  function Own(records: seq<Record>, id: string): seq<Record> {
    Where(records, (r: Record) => r.sessionId == Some(id))
  }

  function OwnOfKind(records: seq<Record>, id: string, kind: Kind): seq<Record> {
    Where(Own(records, id), (r: Record) => r.Kind() == kind)
  }

  function TasksOf(records: seq<Record>, id: string): set<string> {
    TaskIds(Own(records, id))
  }

  function RoutesOf(records: seq<Record>, id: string): seq<Record> {
    Where(records, (r: Record) => RoutesFor(r, id, TasksOf(records, id)))
  }

  /** replaySession: everything the ledger says about one session. */
  function ReplaySession(records: seq<Record>, id: string): SessionReplay {
    var sessions := OwnOfKind(records, id, SessionKind);
    var events := OwnOfKind(records, id, RuntimeEventKind);
    SessionReplay(
      if sessions == [] then None else Some(sessions[|sessions| - 1]),
      LatestByKey(OwnOfKind(records, id, TurnKind)),
      events,
      NextCursor(events),
      RoutesOf(records, id),
      LatestByKey(OwnOfKind(records, id, RequestKind)),
      LatestByKey(OwnOfKind(records, id, ResponseKind)),
      OwnOfKind(records, id, EvidenceKind))
  }

  /** The kinds that the replay of a session shows. */
  const REPLAY_KINDS: set<Kind> :=
    {SessionKind, TurnKind, RuntimeEventKind, RequestKind, ResponseKind, EvidenceKind}

  /** Every record of a live session is kept, and so is every record of the tasks it worked on, but for those
      of kinds that are no roots. */
  lemma LiveSessionIsKept(
      records: seq<Record>, policy: Policy, now: int, keep: set<int>, tasks: set<string>, id: string)
    requires WellFormed(records) && IsSelection(records, policy, now, keep, tasks)
    requires id in AllAnchors(records, policy, now).sessions
    ensures forall r :: r in records && r.sessionId == Some(id) && r.Kind() !in policy.nonRootKinds ==>
      r.sequence in keep && (r.taskId.Some? ==> r.taskId.value in tasks)
    ensures forall r ::
      r in records && r.taskId.Some? && r.taskId.value in tasks && r.Kind() !in policy.nonRootKinds ==>
        r.sequence in keep
  {
    hide AllAnchors, IsSelection;
    forall r | r in records && r.sessionId == Some(id) && r.Kind() !in policy.nonRootKinds
      ensures r.sequence in keep && (r.taskId.Some? ==> r.taskId.value in tasks)
    {
      assert ScopedSession(r) == Some(id);
      ProtectedIsKept(records, policy, now, keep, tasks, r);
    }
    forall r | r in records && r.taskId.Some? && r.taskId.value in tasks && r.Kind() !in policy.nonRootKinds
      ensures r.sequence in keep
    {
      ProtectedIsKept(records, policy, now, keep, tasks, r);
    }
  }

  lemma WhereLast(records: seq<Record>, last: Record, p: Record -> bool)
    ensures Where(records + [last], p) == if p(last) then Where(records, p) + [last] else Where(records, p)
  {
    assert (records + [last])[..|records|] == records;
  }

  lemma FieldLast(records: seq<Record>, last: Record, p: Record -> bool, q: Record -> bool)
    ensures Where(Where(records + [last], p), q) ==
      if p(last) && q(last) then Where(Where(records, p), q) + [last] else Where(Where(records, p), q)
  {
    WhereLast(records, last, p);
    WhereLast(Where(records, p), last, q);
  }

  lemma FilterLast(records: seq<Record>, last: Record, keep: set<int>)
    ensures Filter(records + [last], keep) ==
      if last.sequence in keep then Filter(records, keep) + [last] else Filter(records, keep)
  {
    assert (records + [last])[..|records|] == records;
  }

  /** Selecting twice what is all kept gives the same before and after pruning. */
  lemma {:induction false} FieldAfterPruning(records: seq<Record>, keep: set<int>, p: Record -> bool,
                                             q: Record -> bool)
    requires forall r :: r in records && p(r) && q(r) ==> r.sequence in keep
    ensures Where(Where(Filter(records, keep), p), q) == Where(Where(records, p), q)
  {
    if records != [] {
      hide Where, Filter;
      var n := |records| - 1;
      var front, last := records[..n], records[n];
      FieldAfterPruning(front, keep, p, q);
      assert front + [last] == records && last in records;
      FieldLast(front, last, p, q);
      FieldLast(Filter(front, keep), last, p, q);
      FilterLast(front, last, keep);
    } else {
      assert Filter(records, keep) == [];
    }
  }

  lemma OwnAfterPruning(records: seq<Record>, keep: set<int>, id: string, kind: Kind)
    requires forall r :: r in records && r.sessionId == Some(id) && r.Kind() == kind ==> r.sequence in keep
    ensures OwnOfKind(Filter(records, keep), id, kind) == OwnOfKind(records, id, kind)
  {
    hide Where, Filter;
    FieldAfterPruning(records, keep, (r: Record) => r.sessionId == Some(id), (r: Record) => r.Kind() == kind);
  }

  lemma TasksMembers(records: seq<Record>, id: string)
    ensures forall t ::
      t in TasksOf(records, id) <==> exists r :: r in records && r.sessionId == Some(id) && r.taskId == Some(t)
  {
    var own := (r: Record) => r.sessionId == Some(id);
    WhereMembers(records, own);
    hide Where;
    forall t
      ensures t in TasksOf(records, id) <==> exists r :: r in records && r.sessionId == Some(id) && r.taskId == Some(t)
    {
      assert t in TasksOf(records, id) <==> exists r :: r in Own(records, id) && r.taskId == Some(t);
    }
  }

  lemma FewerTasks(records: seq<Record>, keep: set<int>, id: string)
    ensures TasksOf(Filter(records, keep), id) <= TasksOf(records, id)
  {
    hide TasksOf;
    FilterMembers(records, keep);
    TasksMembers(records, id);
    TasksMembers(Filter(records, keep), id);
  }

  /** The route decisions that the session shows are kept, and so is a record of the session for each task that
      they are shown for. */
  ghost predicate RoutesStay(records: seq<Record>, keep: set<int>, id: string) {
    forall r :: r in records && RoutesFor(r, id, TasksOf(records, id)) ==>
      r.sequence in keep && RoutesFor(r, id, TasksOf(Filter(records, keep), id))
  }

  lemma FewerRoutes(records: seq<Record>, keep: set<int>, id: string)
    ensures forall r ::
      RoutesFor(r, id, TasksOf(Filter(records, keep), id)) ==> RoutesFor(r, id, TasksOf(records, id))
  {
    hide TasksOf, Filter;
    FewerTasks(records, keep, id);
  }

  lemma {:induction false} SameWhere(records: seq<Record>, p: Record -> bool, q: Record -> bool)
    requires forall r :: r in records ==> p(r) == q(r)
    ensures Where(records, p) == Where(records, q)
  {
    if records != [] {
      SameWhere(records[..|records| - 1], p, q);
    }
  }

  lemma RoutesShown(records: seq<Record>, keep: set<int>, id: string)
    ensures RoutesOf(Filter(records, keep), id) == RoutesOf(records, id) <==> RoutesStay(records, keep, id)
  {
    hide Where, Filter, TasksOf, RoutesFor;
    var kept := Filter(records, keep);
    var before := (r: Record) => RoutesFor(r, id, TasksOf(records, id));
    var after := (r: Record) => RoutesFor(r, id, TasksOf(kept, id));
    FilterMembers(records, keep);
    if RoutesStay(records, keep, id) {
      WhereAfterPruning(records, keep, before);
      FewerRoutes(records, keep, id);
      SameWhere(kept, after, before);
    }
    if RoutesOf(kept, id) == RoutesOf(records, id) {
      WhereMembers(records, before);
      WhereMembers(kept, after);
      forall r | r in records && before(r)
        ensures r.sequence in keep && after(r)
      {
        assert r in RoutesOf(records, id);
      }
    }
  }

  /** A session that is live, or kept live by an open turn, an unexpired lease or an unanswered approval, replays
      after pruning exactly as before if and only if its route decisions stay. Only kinds that the replay does not
      show may be no roots. */
  lemma ReplayIsPreservedExactly(
      records: seq<Record>, policy: Policy, now: int, keep: set<int>, tasks: set<string>, id: string)
    requires WellFormed(records) && IsSelection(records, policy, now, keep, tasks)
    requires policy.nonRootKinds !! REPLAY_KINDS && id in AllAnchors(records, policy, now).sessions
    ensures ReplaySession(Filter(records, keep), id) == ReplaySession(records, id) <==> RoutesStay(records, keep, id)
  {
    hide AllAnchors, IsSelection, LatestByKey, NextCursor, RoutesStay, RoutesOf, OwnOfKind, Filter, Latest, WellFormed;
    LiveSessionIsKept(records, policy, now, keep, tasks, id);
    OwnAfterPruning(records, keep, id, SessionKind);
    OwnAfterPruning(records, keep, id, TurnKind);
    OwnAfterPruning(records, keep, id, RuntimeEventKind);
    OwnAfterPruning(records, keep, id, RequestKind);
    OwnAfterPruning(records, keep, id, ResponseKind);
    OwnAfterPruning(records, keep, id, EvidenceKind);
    RoutesShown(records, keep, id);
  }

  /** A record of the session whose kind is a root names the task. */
  ghost predicate RootNames(records: seq<Record>, policy: Policy, id: string, task: string) {
    exists q :: q in records && q.sessionId == Some(id) && q.taskId == Some(task) && q.Kind() !in policy.nonRootKinds
  }

  /** No task of the session is named by records of kinds without roots alone. */
  ghost predicate TasksAreShared(records: seq<Record>, policy: Policy, id: string) {
    forall t :: t in TasksOf(records, id) ==> RootNames(records, policy, id, t)
  }

  /** A task that such a record names is among the tasks of the selection, and is still named after pruning. */
  lemma SharedTask(
      records: seq<Record>, policy: Policy, now: int, keep: set<int>, tasks: set<string>, id: string, task: string)
    requires WellFormed(records) && IsSelection(records, policy, now, keep, tasks)
    requires RootNames(records, policy, id, task) && id in AllAnchors(records, policy, now).sessions
    ensures task in tasks && task in TasksOf(Filter(records, keep), id)
  {
    hide AllAnchors, IsSelection, TasksOf, Filter, Latest, WellFormed;
    LiveSessionIsKept(records, policy, now, keep, tasks, id);
    FilterMembers(records, keep);
    TasksMembers(Filter(records, keep), id);
    var q :| q in records && q.sessionId == Some(id) && q.taskId == Some(task) && q.Kind() !in policy.nonRootKinds;
    assert q in Filter(records, keep);
  }

  lemma SharedRoutesStay(
      records: seq<Record>, policy: Policy, now: int, keep: set<int>, tasks: set<string>, id: string)
    requires WellFormed(records) && IsSelection(records, policy, now, keep, tasks)
    requires RouteDecisionKind !in policy.nonRootKinds && TasksAreShared(records, policy, id)
    requires id in AllAnchors(records, policy, now).sessions
    ensures RoutesStay(records, keep, id)
  {
    hide AllAnchors, IsSelection, TasksOf, Filter, Latest, WellFormed, RootNames;
    forall r | r in records && RoutesFor(r, id, TasksOf(records, id))
      ensures r.sequence in keep && RoutesFor(r, id, TasksOf(Filter(records, keep), id))
    {
      LiveSessionIsKept(records, policy, now, keep, tasks, id);
      if r.sessionId != Some(id) {
        SharedTask(records, policy, now, keep, tasks, id, r.taskId.value);
      }
    }
  }

  /** Such a session replays after pruning exactly as before, if no kind that it shows is without roots and no
      task of it is named by a record of such a kind alone. With every kind allowed as a root that is always so. */
  lemma ReplayIsPreserved(
      records: seq<Record>, policy: Policy, now: int, keep: set<int>, tasks: set<string>, id: string)
    requires WellFormed(records) && IsSelection(records, policy, now, keep, tasks)
    requires policy.nonRootKinds !! REPLAY_KINDS + {RouteDecisionKind} && TasksAreShared(records, policy, id)
    requires id in AllAnchors(records, policy, now).sessions
    ensures ReplaySession(Filter(records, keep), id) == ReplaySession(records, id)
  {
    hide AllAnchors, IsSelection, ReplaySession, RoutesStay, TasksAreShared;
    SharedRoutesStay(records, policy, now, keep, tasks, id);
    ReplayIsPreservedExactly(records, policy, now, keep, tasks, id);
  }

  /** A live session, an expired lease of it that alone names a task, and a route decision of that task. */
  function LoneTask(): seq<Record> {
    [Record(1, "a", 0, Some("s"), None, None, Session("s", false, None, None, None, []), ""),
     Record(2, "b", 0, Some("s"), None, Some("t"), Lease("l", 0, Some("s"), None), ""),
     Record(3, "c", 0, None, None, Some("t"), RouteDecision("t"), "")]
  }

  const NO_LEASE_ROOTS: Policy :=
    Policy({SessionKind, LeaseKind, RouteDecisionKind}, Some(5), 0, {}, {LeaseKind})

  lemma LoneTaskAnchors()
    ensures Latest(LoneTask()) ==
      map[SessionKey("s") := LoneTask()[0], LeaseKey("l") := LoneTask()[1], RecordKey("c") := LoneTask()[2]]
    ensures AllAnchors(LoneTask(), NO_LEASE_ROOTS, 10) == Anchors({"s"}, {}, {}, {})
  {
    var records := LoneTask();
    var latest := Latest(records);
    assert records[..3] == records && records[..2] == [records[0], records[1]] && records[..2][..1] == [records[0]];
    assert Latest([records[0]]) == map[SessionKey("s") := records[0]] by {
      assert [records[0]][..0] == [];
    }
    assert Latest(records[..2]) == map[SessionKey("s") := records[0], LeaseKey("l") := records[1]];
    hide Latest;
    assert AnchorsUpTo(records, 0, NO_LEASE_ROOTS, 10) == NO_ANCHORS;
    assert AnchorsUpTo(records, 1, NO_LEASE_ROOTS, 10) == Anchors({"s"}, {}, {}, {});
    assert AnchorsUpTo(records, 2, NO_LEASE_ROOTS, 10) == Anchors({"s"}, {}, {}, {});
  }

  lemma LoneTaskClosed(r: Record)
    requires r in LoneTask()
    ensures LocallyClosed(GraphOf(LoneTask(), NO_LEASE_ROOTS, 10), r, {1}, {})
    ensures !IsRoot(r, NO_LEASE_ROOTS, 10) && !IsRecent(LoneTask(), r, NO_LEASE_ROOTS)
  {
    hide Latest, AllAnchors, LastOfKind;
    LoneTaskAnchors();
    var records := LoneTask();
    assert r == records[0] || r == records[1] || r == records[2];
    assert References(records[0]) == [SessionKey("s")];
  }

  lemma LoneTaskNeedsSession(keep: set<int>, tasks: set<string>)
    requires LocallyClosed(GraphOf(LoneTask(), NO_LEASE_ROOTS, 10), LoneTask()[0], keep, tasks)
    ensures 1 in keep
  {
    hide Latest, AllAnchors, References;
    LoneTaskAnchors();
  }

  lemma LoneTaskSelection()
    ensures IsSelection(LoneTask(), NO_LEASE_ROOTS, 10, {1}, {})
  {
    hide Latest, AllAnchors, LocallyClosed, IsRoot, IsRecent, GraphOf;
    var records := LoneTask();
    var g := GraphOf(records, NO_LEASE_ROOTS, 10);
    forall r | r in records
      ensures LocallyClosed(g, r, {1}, {})
      ensures !IsRoot(r, NO_LEASE_ROOTS, 10) && !IsRecent(records, r, NO_LEASE_ROOTS)
    {
      LoneTaskClosed(r);
    }
    forall k, t | Closed(g, records, k, t)
      ensures 1 in k
    {
      assert records[0] in records;
      LoneTaskNeedsSession(k, t);
    }
  }

  /** An input where the task of a session is named by a lease alone and leases are no roots: pruning keeps the
      live session and loses the route decision that its replay shows. */
  lemma LoneTaskLosesRoute()
    ensures WellFormed(LoneTask()) && IsSelection(LoneTask(), NO_LEASE_ROOTS, 10, {1}, {})
    ensures "s" in AllAnchors(LoneTask(), NO_LEASE_ROOTS, 10).sessions
    ensures ReplaySession(Filter(LoneTask(), {1}), "s") != ReplaySession(LoneTask(), "s")
  {
    hide Latest, AllAnchors, IsSelection, TasksOf, Filter, ReplaySession;
    var records := LoneTask();
    LoneTaskAnchors();
    LoneTaskSelection();
    TasksMembers(records, "s");
    assert records[1] in records && "t" in TasksOf(records, "s");
    assert records[2] in records && RoutesFor(records[2], "s", TasksOf(records, "s"));
    ReplayIsPreservedExactly(records, NO_LEASE_ROOTS, 10, {1}, {}, "s");
  }

  lemma AllKindsShare(records: seq<Record>, policy: Policy, id: string)
    requires policy.nonRootKinds == {}
    ensures TasksAreShared(records, policy, id) && policy.nonRootKinds !! REPLAY_KINDS + {RouteDecisionKind}
  {
    hide TasksOf;
    TasksMembers(records, id);
    forall t | t in TasksOf(records, id)
      ensures RootNames(records, policy, id, t)
    {
      var q :| q in records && q.sessionId == Some(id) && q.taskId == Some(t);
      assert q.Kind() !in policy.nonRootKinds;
    }
  }

  /** What holds a session live, said of the ledger and not of the algorithm. */
  ghost predicate IsLive(records: seq<Record>, policy: Policy, now: int, id: string) {
    exists r :: r in Latest(records).Values && r.Kind() !in policy.nonRootKinds && match r.payload
      case Session(s, closed, _, _, _, _) => s == id && !closed
      case Turn(s, _, terminal) => s == id && !terminal
      case Lease(_, expiresAt, holder, _) => holder == Some(id) && expiresAt > now
      case ApprovalRequest(s, t, q) => s == id && ResponseKey(Some(s), Some(t), q) !in Latest(records)
      case _ => false
  }

  lemma LiveIsAnchored(records: seq<Record>, policy: Policy, now: int, id: string)
    requires WellFormed(records) && IsLive(records, policy, now, id)
    ensures id in AllAnchors(records, policy, now).sessions
  {
    var r :| r in Latest(records).Values && r.Kind() !in policy.nonRootKinds && match r.payload
      case Session(s, closed, _, _, _, _) => s == id && !closed
      case Turn(s, _, terminal) => s == id && !terminal
      case Lease(_, expiresAt, holder, _) => holder == Some(id) && expiresAt > now
      case ApprovalRequest(s, t, q) => s == id && ResponseKey(Some(s), Some(t), q) !in Latest(records)
      case _ => false;
    var k :| k in Latest(records) && Latest(records)[k] == r;
    LatestIsNewest(records);
    var i :| 0 <= i < |records| && records[i] == r;
    assert HoldsLive(records[i], Latest(records), policy);
    AnchorsContain(records, |records|, policy, now);
    assert id in AnchorsOf(r, Latest(records), now).sessions;
  }

  /** The same said of the ledger alone: what is live replays as before. */
  lemma LiveSessionsReplay(
      records: seq<Record>, policy: Policy, now: int, keep: set<int>, tasks: set<string>, id: string)
    requires WellFormed(records) && IsSelection(records, policy, now, keep, tasks)
    requires policy.nonRootKinds !! REPLAY_KINDS + {RouteDecisionKind} && TasksAreShared(records, policy, id)
    requires IsLive(records, policy, now, id)
    ensures ReplaySession(Filter(records, keep), id) == ReplaySession(records, id)
  {
    hide *;
    LiveIsAnchored(records, policy, now, id);
    ReplayIsPreserved(records, policy, now, keep, tasks, id);
  }

  // ----- the control view -----

  /** The turns whose newest state is not terminal. */
  function ActiveTurns(records: seq<Record>): set<Record> {
    var latest := Latest(records);
    set k | k in latest && latest[k].payload.Turn? && !latest[k].payload.terminal :: latest[k]
  }

  /** The approval requests without a response. */
  function PendingApprovals(records: seq<Record>): set<Record> {
    var latest := Latest(records);
    set r | r in records && r.payload.ApprovalRequest?
      && ResponseKey(Some(r.payload.session), Some(r.payload.turn), r.payload.request) !in latest
  }

  lemma NewestIsHeldLive(records: seq<Record>, policy: Policy, now: int, k: Key)
    requires WellFormed(records) && k in Latest(records) && Latest(records)[k].Kind() !in policy.nonRootKinds
    ensures var r := Latest(records)[k];
      r in records && Normalized(r) && EntityKey(r) == k
      && Within(AnchorsOf(r, Latest(records), now), AllAnchors(records, policy, now))
  {
    hide AnchorsOf, Latest;
    LatestIsNewest(records);
    var r := Latest(records)[k];
    var i :| 0 <= i < |records| && records[i] == r;
    assert HoldsLive(records[i], Latest(records), policy);
    AnchorsContain(records, |records|, policy, now);
  }

  /** No finished turn comes back, and no open one is lost. */
  lemma ActiveTurnsArePreserved(
      records: seq<Record>, policy: Policy, now: int, keep: set<int>, tasks: set<string>)
    requires WellFormed(records) && IsSelection(records, policy, now, keep, tasks)
    requires TurnKind !in policy.nonRootKinds
    ensures ActiveTurns(Filter(records, keep)) == ActiveTurns(records)
  {
    hide IsSelection, AllAnchors, Latest, IsProtected;
    LatestAfterPruning(records, policy, now, keep, tasks);
    var before := Latest(records);
    forall k | k in before && before[k].payload.Turn? && !before[k].payload.terminal
      ensures before[k].sequence in keep
    {
      NewestIsHeldLive(records, policy, now, k);
      LiveIsProtected(before[k], before, now, AllAnchors(records, policy, now), policy, tasks);
      ProtectedIsKept(records, policy, now, keep, tasks, before[k]);
    }
  }

  /** The newest request of an open approval is held live, and with it every record of the request. */
  lemma PendingIsKept(
      records: seq<Record>, policy: Policy, now: int, keep: set<int>, tasks: set<string>, r: Record)
    requires WellFormed(records) && IsSelection(records, policy, now, keep, tasks)
    requires RequestKind !in policy.nonRootKinds
    requires r in PendingApprovals(records)
    ensures r.sequence in keep
  {
    hide IsSelection, AllAnchors, Latest;
    LatestIsNewest(records);
    var newest := Latest(records)[EntityKey(r)];
    assert newest.payload.ApprovalRequest? && newest.payload.session == r.payload.session
        && newest.payload.turn == r.payload.turn && newest.payload.request == r.payload.request;
    NewestIsHeldLive(records, policy, now, EntityKey(r));
    assert (r.payload.session, r.payload.turn, r.payload.request) in AllAnchors(records, policy, now).requests;
    ProtectedIsKept(records, policy, now, keep, tasks, r);
  }

  lemma AnsweredStaysAnswered(
      records: seq<Record>, policy: Policy, now: int, keep: set<int>, tasks: set<string>, r: Record)
    requires WellFormed(records) && IsSelection(records, policy, now, keep, tasks)
    requires r in records && r.sequence in keep && r.payload.ApprovalRequest?
    ensures var key := ResponseKey(Some(r.payload.session), Some(r.payload.turn), r.payload.request);
      key in Latest(records) ==> key in Latest(Filter(records, keep))
  {
    LatestAfterPruning(records, policy, now, keep, tasks);
    var g := GraphOf(records, policy, now);
    assert LocallyClosed(g, r, keep, tasks);
    var references := References(r);
    var key := ResponseKey(Some(r.payload.session), Some(r.payload.turn), r.payload.request);
    assert references[|references| - 1] == key;
    assert Holds(g, key, keep);
  }

  /** No answered approval comes back, and no open one is lost. */
  lemma PendingApprovalsArePreserved(
      records: seq<Record>, policy: Policy, now: int, keep: set<int>, tasks: set<string>)
    requires WellFormed(records) && IsSelection(records, policy, now, keep, tasks)
    requires RequestKind !in policy.nonRootKinds
    ensures PendingApprovals(Filter(records, keep)) == PendingApprovals(records)
  {
    hide IsSelection, AllAnchors, Latest, AnchorsOf;
    FilterMembers(records, keep);
    LatestAfterPruning(records, policy, now, keep, tasks);
    forall r | r in PendingApprovals(records)
      ensures r in PendingApprovals(Filter(records, keep))
    {
      PendingIsKept(records, policy, now, keep, tasks, r);
      assert r in Filter(records, keep);
      var key := ResponseKey(Some(r.payload.session), Some(r.payload.turn), r.payload.request);
      assert key !in Latest(records);
      assert key !in Latest(Filter(records, keep));
    }
    forall r | r in PendingApprovals(Filter(records, keep))
      ensures r in PendingApprovals(records)
    {
      AnsweredStaysAnswered(records, policy, now, keep, tasks, r);
    }
  }
}
