/** selectRetentionSequences: which records survive pruning. The selection is the least set that
    contains the roots and is closed under the references between records. */
module Retention {
  import opened Wrappers
  import opened LedgerRecords

  datatype Policy = Policy(
    pruneKinds: set<Kind>, maxAge: Option<int>, keepLatestPerKind: int,
    protectedIds: set<string>, nonRootKinds: set<Kind>)

  /** What is held live by the newest records: sessions, turns, leases and unanswered requests. */
  datatype Anchors = Anchors(
    sessions: set<string>,
    turns: set<(Option<string>, Option<string>)>,
    leases: set<string>,
    requests: set<(string, string, string)>)
  {
    function Join(other: Anchors): Anchors {
      Anchors(sessions + other.sessions, turns + other.turns, leases + other.leases, requests + other.requests)
    }
  }

  const NO_ANCHORS: Anchors := Anchors({}, {}, {}, {})

  function Singleton<T(==)>(o: Option<T>): set<T> {
    if o.Some? then {o.value} else {}
  }

  /** What one newest record holds live. */
  function AnchorsOf(r: Record, latest: map<Key, Record>, now: int): Anchors {
    match r.payload
    case Session(id, closed, _, _, _, _) => if closed then NO_ANCHORS else Anchors({id}, {}, {}, {})
    case Turn(s, t, terminal) => if terminal then NO_ANCHORS else Anchors({s}, {(Some(s), Some(t))}, {}, {})
    case Lease(id, expiresAt, s, t) =>
      if expiresAt <= now then NO_ANCHORS
      else Anchors(Singleton(s), if t.Some? then {(s, t)} else {}, {id}, {})
    case ApprovalRequest(s, t, q) =>
      if ResponseKey(Some(s), Some(t), q) in latest then NO_ANCHORS
      else Anchors({s}, {(Some(s), Some(t))}, {}, {(s, t, q)})
    case _ => NO_ANCHORS
  }

  /** The anchors of the first n records that are newest of their entity. */
  function AnchorsUpTo(records: seq<Record>, n: nat, policy: Policy, now: int): Anchors
    requires n <= |records|
  {
    if n == 0 then NO_ANCHORS
    else
      var r := records[n - 1];
      var before := AnchorsUpTo(records, n - 1, policy, now);
      var latest := Latest(records);
      if EntityKey(r) in latest && latest[EntityKey(r)] == r && r.Kind() !in policy.nonRootKinds
      then before.Join(AnchorsOf(r, latest, now)) else before
  }

  function AllAnchors(records: seq<Record>, policy: Policy, now: int): Anchors {
    AnchorsUpTo(records, |records|, policy, now)
  }

  /** Pinned, of a kind that is not pruned, or young enough. */
  predicate IsRoot(r: Record, policy: Policy, now: int) {
    || r.recordId in policy.protectedIds
    || (r.Kind() !in policy.nonRootKinds
        && (r.Kind() !in policy.pruneKinds || policy.maxAge.None? || r.recordedAt >= now - policy.maxAge.value))
  }

  function OfKind(records: seq<Record>, kind: Kind): seq<Record> {
    if records == [] then []
    else
      var n := |records| - 1;
      OfKind(records[..n], kind) + if records[n].Kind() == kind then [records[n]] else []
  }

  /** The last k records of a kind. */
  function LastOfKind(records: seq<Record>, kind: Kind, k: nat): seq<Record> {
    var all := OfKind(records, kind);
    if |all| <= k then all else all[|all| - k..]
  }

  ghost predicate IsRecent(records: seq<Record>, r: Record, policy: Policy) {
    && r.Kind() in policy.pruneKinds && r.Kind() !in policy.nonRootKinds && policy.keepLatestPerKind > 0
    && r in LastOfKind(records, r.Kind(), policy.keepLatestPerKind)
  }

  /** The selection contains every root. */
  ghost predicate HasRoots(records: seq<Record>, policy: Policy, now: int, keep: set<int>) {
    forall r :: r in records && (IsRoot(r, policy, now) || IsRecent(records, r, policy)) ==> r.sequence in keep
  }

  function ScopedSession(r: Record): Option<string> {
    if r.payload.Session? then Some(r.payload.id) else r.sessionId
  }

  /** Part of the history of something live. */
  predicate IsProtected(r: Record, anchors: Anchors, nonRoots: set<Kind>, tasks: set<string>) {
    r.Kind() !in nonRoots
    && (|| (ScopedSession(r).Some? && ScopedSession(r).value in anchors.sessions)
        || (r.sessionId, r.turnId) in anchors.turns
        || (r.taskId.Some? && r.taskId.value in tasks)
        || (r.payload.Lease? && r.payload.lease in anchors.leases)
        || (r.payload.ApprovalRequest?
            && (r.payload.session, r.payload.turn, r.payload.request) in anchors.requests))
  }

  function SessionReference(o: Option<string>): seq<Key> {
    if o.Some? then [SessionKey(o.value)] else []
  }

  function SourceReferences(sources: seq<string>): seq<Key> {
    if sources == [] then [] else [SessionKey(sources[0])] + SourceReferences(sources[1..])
  }

  /** The entities a kept record needs. */
  function References(r: Record): seq<Key> {
    SessionReference(ScopedSession(r))
    + (if r.turnId.Some? then [TurnKey(r.sessionId, r.turnId)] else [])
    + match r.payload
      case Session(_, _, parent, root, worktree, sources) =>
        SessionReference(parent) + SessionReference(root)
        + (if worktree.Some? then [LeaseKey(worktree.value)] else []) + SourceReferences(sources)
      case Lease(_, _, s, t) => SessionReference(s) + (if t.Some? then [TurnKey(s, t)] else [])
      case ApprovalResponse(q) => [RequestKey(r.sessionId, r.turnId, q)]
      case ApprovalRequest(s, t, q) => [ResponseKey(Some(s), Some(t), q)]
      case _ => []
  }

  /** What all the closure conditions look at. */
  datatype Graph = Graph(latest: map<Key, Record>, anchors: Anchors, nonRoots: set<Kind>)

  function GraphOf(records: seq<Record>, policy: Policy, now: int): Graph {
    Graph(Latest(records), AllAnchors(records, policy, now), policy.nonRootKinds)
  }

  predicate Holds(g: Graph, k: Key, keep: set<int>) {
    k in g.latest ==> g.latest[k].sequence in keep
  }

  /** The closure conditions of one record. */
  predicate LocallyClosed(g: Graph, r: Record, keep: set<int>, tasks: set<string>) {
    var live := IsProtected(r, g.anchors, g.nonRoots, tasks);
    && (live ==> r.sequence in keep)
    && (r.sequence in keep ==>
         && Holds(g, EntityKey(r), keep)
         && (live && r.taskId.Some? ==> r.taskId.value in tasks)
         && forall i :: 0 <= i < |References(r)| ==> Holds(g, References(r)[i], keep))
  }

  ghost predicate Closed(g: Graph, records: seq<Record>, keep: set<int>, tasks: set<string>) {
    forall r :: r in records ==> LocallyClosed(g, r, keep, tasks)
  }

  /** Contained in every closed set that contains the roots. */
  ghost predicate Below(records: seq<Record>, policy: Policy, now: int, keep: set<int>, tasks: set<string>) {
    forall k, t :: Closed(GraphOf(records, policy, now), records, k, t) && HasRoots(records, policy, now, k)
      ==> keep <= k && tasks <= t
  }

  /** The specification: the least closed set that contains the roots. */
  ghost predicate IsSelection(records: seq<Record>, policy: Policy, now: int, keep: set<int>, tasks: set<string>) {
    && HasRoots(records, policy, now, keep)
    && Closed(GraphOf(records, policy, now), records, keep, tasks)
    && Below(records, policy, now, keep, tasks)
  }

  function Sequences(records: seq<Record>): set<int> {
    set r | r in records :: r.sequence
  }

  function Tasks(records: seq<Record>): set<string> {
    set r | r in records && r.taskId.Some? :: r.taskId.value
  }

  /** Only sequences and tasks of the records have been collected, and only needed ones. */
  ghost predicate Sane(records: seq<Record>, policy: Policy, now: int, keep: set<int>, tasks: set<string>) {
    keep <= Sequences(records) && tasks <= Tasks(records) && Below(records, policy, now, keep, tasks)
  }

  // ----- each addition is needed by every closed set -----

  lemma AddProtected(records: seq<Record>, policy: Policy, now: int, keep: set<int>, tasks: set<string>, r: Record)
    requires r in records && Sane(records, policy, now, keep, tasks)
    requires IsProtected(r, AllAnchors(records, policy, now), policy.nonRootKinds, tasks)
    ensures Sane(records, policy, now, keep + {r.sequence}, tasks)
  {
    var g := GraphOf(records, policy, now);
    forall k, t | Closed(g, records, k, t) && HasRoots(records, policy, now, k)
      ensures keep + {r.sequence} <= k && tasks <= t
    {
      assert LocallyClosed(g, r, k, t);
    }
  }

  lemma AddTask(records: seq<Record>, policy: Policy, now: int, keep: set<int>, tasks: set<string>, r: Record)
    requires r in records && Sane(records, policy, now, keep, tasks)
    requires IsProtected(r, AllAnchors(records, policy, now), policy.nonRootKinds, tasks)
    requires r.taskId.Some?
    ensures Sane(records, policy, now, keep, tasks + {r.taskId.value})
  {
    var g := GraphOf(records, policy, now);
    forall k, t | Closed(g, records, k, t) && HasRoots(records, policy, now, k)
      ensures keep <= k && tasks + {r.taskId.value} <= t
    {
      assert LocallyClosed(g, r, k, t);
    }
  }

  lemma AddReferenced(
      records: seq<Record>, policy: Policy, now: int, keep: set<int>, tasks: set<string>, r: Record, key: Key)
    requires WellFormed(records) && r in records && r.sequence in keep && Sane(records, policy, now, keep, tasks)
    requires key == EntityKey(r) || exists i :: 0 <= i < |References(r)| && References(r)[i] == key
    requires key in Latest(records)
    ensures Sane(records, policy, now, keep + {Latest(records)[key].sequence}, tasks)
  {
    var g := GraphOf(records, policy, now);
    LatestIsNewest(records);
    forall k, t | Closed(g, records, k, t) && HasRoots(records, policy, now, k)
      ensures keep + {g.latest[key].sequence} <= k && tasks <= t
    {
      assert LocallyClosed(g, r, k, t);
      assert Holds(g, key, k);
    }
  }

  // ----- the algorithm -----

  /** Collects the newest record of every entity. */
  method CollectLatest(records: seq<Record>) returns (latest: map<Key, Record>)
    ensures latest == Latest(records)
  {
    latest := map[];
    for i := 0 to |records|
      invariant latest == Latest(records[..i])
    {
      latest := latest[EntityKey(records[i]) := records[i]];
      assert records[..i + 1][..i] == records[..i];
    }
    assert records[..|records|] == records;
  }

  method CollectAnchors(records: seq<Record>, latest: map<Key, Record>, policy: Policy, now: int)
      returns (anchors: Anchors)
    requires latest == Latest(records)
    ensures anchors == AllAnchors(records, policy, now)
  {
    anchors := NO_ANCHORS;
    for i := 0 to |records|
      invariant anchors == AnchorsUpTo(records, i, policy, now)
    {
      var r := records[i];
      if EntityKey(r) in latest && latest[EntityKey(r)] == r && r.Kind() !in policy.nonRootKinds {
        anchors := anchors.Join(AnchorsOf(r, latest, now));
      }
    }
  }

  method CollectOfKind(records: seq<Record>, kind: Kind) returns (result: seq<Record>)
    ensures result == OfKind(records, kind)
  {
    result := [];
    for i := 0 to |records|
      invariant result == OfKind(records[..i], kind)
    {
      if records[i].Kind() == kind {
        result := result + [records[i]];
      }
      assert records[..i + 1][..i] == records[..i];
    }
    assert records[..|records|] == records;
  }

  /** The roots: pinned, young or recent records. */
  ghost predicate OnlyRoots(records: seq<Record>, policy: Policy, now: int, keep: set<int>) {
    forall s :: s in keep ==>
      exists r :: r in records && r.sequence == s && (IsRoot(r, policy, now) || IsRecent(records, r, policy))
  }

  lemma {:induction false} OfKindMembers(records: seq<Record>, kind: Kind)
    ensures forall r :: r in OfKind(records, kind) <==> r in records && r.Kind() == kind
  {
    if records != [] {
      var n := |records| - 1;
      OfKindMembers(records[..n], kind);
      assert records == records[..n] + [records[n]];
    }
  }

  /** The last few records of a kind. */
  method CollectRecent(records: seq<Record>, kind: Kind, policy: Policy) returns (recent: seq<Record>)
    requires kind in policy.pruneKinds && kind !in policy.nonRootKinds
    ensures forall r :: r in recent <==> r in records && r.Kind() == kind && IsRecent(records, r, policy)
  {
    var all := CollectOfKind(records, kind);
    OfKindMembers(records, kind);
    recent := if policy.keepLatestPerKind <= 0 then []
              else if |all| <= policy.keepLatestPerKind then all
              else all[|all| - policy.keepLatestPerKind..];
    assert policy.keepLatestPerKind > 0 ==> recent == LastOfKind(records, kind, policy.keepLatestPerKind);
    assert forall r :: r in recent ==> r in all;
  }

  lemma RecentAdds(records: seq<Record>, policy: Policy, now: int, kind: Kind, recent: seq<Record>, keep: set<int>)
    requires forall r :: r in recent ==> r in records && IsRecent(records, r, policy)
    requires OnlyRoots(records, policy, now, keep)
    ensures OnlyRoots(records, policy, now, keep + set r | r in recent :: r.sequence)
  {
    hide IsRoot, IsRecent;
  }

  method CollectRoots(records: seq<Record>, policy: Policy, now: int) returns (keep: set<int>)
    ensures HasRoots(records, policy, now, keep) && OnlyRoots(records, policy, now, keep)
  {
    keep := set r | r in records && IsRoot(r, policy, now) :: r.sequence;
    assert forall r :: r in records && IsRoot(r, policy, now) ==> r.sequence in keep;
    var kinds := policy.pruneKinds;
    while kinds != {}
      invariant kinds <= policy.pruneKinds
      invariant OnlyRoots(records, policy, now, keep)
      invariant forall r :: r in records && IsRoot(r, policy, now) ==> r.sequence in keep
      invariant forall r :: r in records && IsRecent(records, r, policy) && r.Kind() !in kinds ==> r.sequence in keep
      decreases kinds
    {
      var kind :| kind in kinds;
      kinds := kinds - {kind};
      if kind !in policy.nonRootKinds {
        var recent := CollectRecent(records, kind, policy);
        RecentAdds(records, policy, now, kind, recent, keep);
        keep := keep + set r | r in recent :: r.sequence;
      }
    }
  }

  /** Every root is needed, because a closed set must contain the roots. */
  lemma RootsAreNeeded(records: seq<Record>, policy: Policy, now: int, keep: set<int>)
    requires OnlyRoots(records, policy, now, keep)
    ensures Sane(records, policy, now, keep, {})
  {
    forall s | s in keep
      ensures s in Sequences(records)
    {
      var r :| r in records && r.sequence == s && (IsRoot(r, policy, now) || IsRecent(records, r, policy));
    }
    forall k, t | Closed(GraphOf(records, policy, now), records, k, t) && HasRoots(records, policy, now, k)
      ensures keep <= k && {} <= t
    {
      forall s | s in keep
        ensures s in k
      {
        var r :| r in records && r.sequence == s && (IsRoot(r, policy, now) || IsRecent(records, r, policy));
      }
    }
  }

  /** Adds the newest records of the first entities a kept record refers to. */
  method AddReferences(
      g: Graph, ghost records: seq<Record>, ghost policy: Policy, ghost now: int, r: Record, keep: set<int>,
      ghost tasks: set<string>) returns (keep': set<int>)
    requires g == GraphOf(records, policy, now) && WellFormed(records) && r in records && r.sequence in keep
    requires Sane(records, policy, now, keep, tasks)
    ensures Sane(records, policy, now, keep', tasks) && keep <= keep'
    ensures forall i :: 0 <= i < |References(r)| ==> Holds(g, References(r)[i], keep')
  {
    hide Sane, References, AllAnchors, Latest, WellFormed;
    var references := References(r);
    keep' := keep;
    for i := 0 to |references|
      invariant keep <= keep' && Sane(records, policy, now, keep', tasks)
      invariant forall j :: 0 <= j < i ==> Holds(g, references[j], keep')
    {
      if references[i] in g.latest {
        AddReferenced(records, policy, now, keep', tasks, r, references[i]);
        keep' := keep' + {g.latest[references[i]].sequence};
      }
    }
  }

  lemma EntityIsKnown(records: seq<Record>, r: Record)
    requires WellFormed(records) && r in records
    ensures EntityKey(r) in Latest(records)
  {
    LatestIsNewest(records);
  }

  /** One record's turn in a pass of the closure loop. */
  method Visit(
      g: Graph, ghost records: seq<Record>, ghost policy: Policy, ghost now: int, r: Record, keep: set<int>,
      tasks: set<string>) returns (keep': set<int>, tasks': set<string>)
    requires g == GraphOf(records, policy, now) && WellFormed(records) && r in records
    requires Sane(records, policy, now, keep, tasks)
    ensures Sane(records, policy, now, keep', tasks') && keep <= keep' && tasks <= tasks'
    ensures keep' == keep && tasks' == tasks ==> LocallyClosed(g, r, keep, tasks)
  {
    hide Sane, References, AllAnchors, Latest, WellFormed, IsProtected;
    keep', tasks' := keep, tasks;
    var live := IsProtected(r, g.anchors, g.nonRoots, tasks);
    if live {
      AddProtected(records, policy, now, keep', tasks', r);
      keep' := keep' + {r.sequence};
    }
    if r.sequence !in keep' {
      return;
    }
    assert EntityKey(r) in g.latest by { EntityIsKnown(records, r); }
    AddReferenced(records, policy, now, keep', tasks', r, EntityKey(r));
    keep' := keep' + {g.latest[EntityKey(r)].sequence};
    if live && r.taskId.Some? {
      AddTask(records, policy, now, keep', tasks', r);
      tasks' := tasks' + {r.taskId.value};
    }
    keep' := AddReferences(g, records, policy, now, r, keep', tasks');
  }

  lemma SaneIsBounded(records: seq<Record>, policy: Policy, now: int, keep: set<int>, tasks: set<string>)
    requires Sane(records, policy, now, keep, tasks)
    ensures keep <= Sequences(records) && tasks <= Tasks(records) && Below(records, policy, now, keep, tasks)
  {
  }

  /** One pass over all records. */
  method Pass(
      g: Graph, records: seq<Record>, ghost policy: Policy, ghost now: int, before: set<int>, tasksBefore: set<string>)
      returns (keep: set<int>, tasks: set<string>, changed: bool)
    requires g == GraphOf(records, policy, now) && WellFormed(records)
      && Sane(records, policy, now, before, tasksBefore)
    ensures Sane(records, policy, now, keep, tasks) && before <= keep && tasksBefore <= tasks
    ensures changed <==> keep != before || tasks != tasksBefore
    ensures !changed ==> Closed(g, records, keep, tasks)
  {
    hide Sane, References, AllAnchors, Latest, WellFormed, IsProtected, LocallyClosed, GraphOf;
    keep, tasks, changed := before, tasksBefore, false;
    for i := 0 to |records|
      invariant before <= keep && tasksBefore <= tasks && Sane(records, policy, now, keep, tasks)
      invariant changed <==> keep != before || tasks != tasksBefore
      invariant !changed ==> forall j :: 0 <= j < i ==> LocallyClosed(g, records[j], keep, tasks)
    {
      var keep', tasks' := Visit(g, records, policy, now, records[i], keep, tasks);
      changed := changed || keep' != keep || tasks' != tasks;
      keep, tasks := keep', tasks';
    }
  }

  lemma RootsStay(records: seq<Record>, policy: Policy, now: int, roots: set<int>, keep: set<int>)
    requires HasRoots(records, policy, now, roots) && roots <= keep
    ensures HasRoots(records, policy, now, keep)
  {
  }

  /** The closure loop: passes over all records until a pass changes nothing. */
  method Select(records: seq<Record>, policy: Policy, now: int) returns (keep: set<int>, tasks: set<string>)
    requires WellFormed(records)
    ensures IsSelection(records, policy, now, keep, tasks)
    ensures keep <= Sequences(records)
  {
    hide Sane, References, AllAnchors, Latest, WellFormed, IsProtected, HasRoots, LocallyClosed, OnlyRoots, Closed;
    hide Sequences, Tasks;
    var latest := CollectLatest(records);
    var anchors := CollectAnchors(records, latest, policy, now);
    keep := CollectRoots(records, policy, now);
    tasks := {};
    ghost var roots := keep;
    var g := Graph(latest, anchors, policy.nonRootKinds);
    RootsAreNeeded(records, policy, now, keep);
    var changed := true;
    while changed
      invariant roots <= keep && Sane(records, policy, now, keep, tasks)
      invariant !changed ==> Closed(g, records, keep, tasks)
      decreases Sequences(records) - keep, Tasks(records) - tasks, changed
    {
      ghost var keep0, tasks0 := keep, tasks;
      keep, tasks, changed := Pass(g, records, policy, now, keep, tasks);
      SaneIsBounded(records, policy, now, keep0, tasks0);
      SaneIsBounded(records, policy, now, keep, tasks);
    }
    SaneIsBounded(records, policy, now, keep, tasks);
    RootsStay(records, policy, now, roots, keep);
  }

  /** There is only one selection. */
  lemma SelectionIsUnique(
      records: seq<Record>, policy: Policy, now: int, keep: set<int>, tasks: set<string>, k: set<int>, t: set<string>)
    requires IsSelection(records, policy, now, keep, tasks) && IsSelection(records, policy, now, k, t)
    ensures keep == k && tasks == t
  {
  }
}
