/** Who may take a branch, and when a released lease may be continued in its old worktree. */
module BranchPolicy {
  import opened Wrappers
  import opened WorktreeLeases
  import opened LeaseInvariants

  /** What the registry knows about the last release of a task on a branch. */
  datatype Evidence = Evidence(taskId: string, repoId: string, branch: string, path: string, dirty: DirtyState,
                               headMatches: bool)

  datatype Reason =
    | BranchTaken | BranchFree | NeedsExplicitReuse | NoEvidence | TaskMismatch | NotClean | HeadMismatch | ReusesClean

  datatype Decision = Decision(allowed: bool, reason: Reason, reusePath: Option<string>)

  /** The reason given for a decision is so. */
  predicate IsTrue(d: Decision, request: LeaseRequest, inUse: set<Lease>, candidate: Option<Evidence>) {
    match d.reason
    case BranchTaken => exists l :: l in inUse && l.repoId == request.repoId && l.branch == request.branch
    case BranchFree => request.mode != SequentialContinue
    case NeedsExplicitReuse => request.mode == SequentialContinue && !request.allowReuse
    case NoEvidence => request.mode == SequentialContinue && candidate == None
    case TaskMismatch =>
      && request.mode == SequentialContinue && candidate.Some?
      && (candidate.value.taskId, candidate.value.repoId, candidate.value.branch)
           != (request.taskId, request.repoId, request.branch)
    case NotClean => request.mode == SequentialContinue && candidate.Some? && candidate.value.dirty != Clean
    case HeadMismatch => request.mode == SequentialContinue && candidate.Some? && !candidate.value.headMatches
    case ReusesClean =>
      && request.mode == SequentialContinue && request.allowReuse && candidate.Some?
      && candidate.value.dirty == Clean && candidate.value.headMatches && d.reusePath == Some(candidate.value.path)
  }

  /** evaluateBranchCollision. */
  function EvaluateBranchCollision(request: LeaseRequest, inUse: set<Lease>, candidate: Option<Evidence>): (d: Decision)
    ensures d.allowed <==> d.reason == BranchFree || d.reason == ReusesClean
    ensures d.allowed ==> forall l :: l in inUse ==> l.repoId != request.repoId || l.branch != request.branch
    ensures d.reusePath.Some? <==> d.reason == ReusesClean
    ensures IsTrue(d, request, inUse, candidate)
  {
    if exists l :: l in inUse && l.repoId == request.repoId && l.branch == request.branch
    then Decision(false, BranchTaken, None)
    else if request.mode != SequentialContinue then Decision(true, BranchFree, None)
    else if !request.allowReuse then Decision(false, NeedsExplicitReuse, None)
    else
      match candidate
      case None => Decision(false, NoEvidence, None)
      case Some(c) =>
        if c.taskId != request.taskId || c.repoId != request.repoId || c.branch != request.branch
        then Decision(false, TaskMismatch, None)
        else if c.dirty != Clean then Decision(false, NotClean, None)
        else if !c.headMatches then Decision(false, HeadMismatch, None)
        else Decision(true, ReusesClean, Some(c.path))
  }

  // ----- the candidate -----

  predicate Matching(r: Registry, key: Continuation, id: string) {
    id in r.records && !r.records[id].active && ContinuationOf(r.records[id].request) == key
  }

  predicate IsNewest(r: Registry, key: Continuation, id: string) {
    Matching(r, key, id) && forall other :: other in r.records && Matching(r, key, other) ==>
      r.records[other].updatedAt <= r.records[id].updatedAt
  }

  predicate SaysOtherwise(a: StoredLease, b: StoredLease) {
    a.lease.path != b.lease.path || a.lease.dirty != b.lease.dirty || a.head != b.head
  }

  /** Another release of the same time says something else. */
  predicate Tied(r: Registry, key: Continuation, id: string)
    requires id in r.records
  {
    var c := r.records[id];
    exists other :: other in r.records && other != id && Matching(r, key, other)
      && r.records[other].updatedAt == c.updatedAt && SaysOtherwise(r.records[other], c)
  }

  function EvidenceFrom(r: Registry, request: LeaseRequest, head: Option<string>, id: string): Evidence
    requires id in r.records
  {
    var key := ContinuationOf(request);
    var c := r.records[id];
    Evidence(request.taskId, request.repoId, request.branch, c.lease.path,
      if Tied(r, key, id) || AtLeast(r.reclaimedThrough, key, c.updatedAt) then Unknown else c.lease.dirty,
      head.None? || c.head.None? || head == c.head)
  }

  ghost predicate IsCandidate(r: Registry, request: LeaseRequest, head: Option<string>, e: Option<Evidence>) {
    match e
    case None => forall id :: !Matching(r, ContinuationOf(request), id)
    case Some(v) => exists id :: IsNewest(r, ContinuationOf(request), id) && v == EvidenceFrom(r, request, head, id)
  }

  /** getSequentialCandidate: any release that no matching one is later than. */
  method GetSequentialCandidate(r: Registry, request: LeaseRequest, head: Option<string>) returns (e: Option<Evidence>)
    ensures IsCandidate(r, request, head, e)
  {
    var key := ContinuationOf(request);
    var best: Option<string> := None;
    var rest := r.records.Keys;
    while rest != {}
      invariant rest <= r.records.Keys
      invariant best.None? ==> forall id :: id in r.records && id !in rest ==> !Matching(r, key, id)
      invariant best.Some? ==> Matching(r, key, best.value)
      invariant best.Some? ==> forall id :: id in r.records && id !in rest && Matching(r, key, id) ==>
        r.records[id].updatedAt <= r.records[best.value].updatedAt
      decreases |rest|
    {
      var id :| id in rest;
      rest := rest - {id};
      if Matching(r, key, id) && (best.None? || r.records[best.value].updatedAt < r.records[id].updatedAt) {
        best := Some(id);
      }
    }
    if best.None? {
      e := None;
    } else {
      assert IsNewest(r, key, best.value);
      e := Some(EvidenceFrom(r, request, head, best.value));
    }
  }

  lemma TiesAreShared(r: Registry, key: Continuation, a: string, b: string)
    requires IsNewest(r, key, a) && IsNewest(r, key, b) && Tied(r, key, a)
    ensures Tied(r, key, b)
  {
    var other :| other in r.records && other != a && Matching(r, key, other)
      && r.records[other].updatedAt == r.records[a].updatedAt && SaysOtherwise(r.records[other], r.records[a]);
    var x, y, z := r.records[other], r.records[a], r.records[b];
    if other != b && SaysOtherwise(x, z) {
      assert Matching(r, key, other);
    } else {
      assert Matching(r, key, a) && a != b;
    }
  }

  /** Which of several latest releases is taken makes no difference to the decision. */
  lemma TieBreakDoesNotMatter(r: Registry, request: LeaseRequest, head: Option<string>, inUse: set<Lease>, a: string,
                              b: string)
    requires IsNewest(r, ContinuationOf(request), a) && IsNewest(r, ContinuationOf(request), b)
    ensures
      var d := EvaluateBranchCollision(request, inUse, Some(EvidenceFrom(r, request, head, a)));
      var e := EvaluateBranchCollision(request, inUse, Some(EvidenceFrom(r, request, head, b)));
      d.allowed == e.allowed && d.reusePath == e.reusePath
  {
    var key := ContinuationOf(request);
    assert r.records[a].updatedAt == r.records[b].updatedAt;
    if Tied(r, key, a) != Tied(r, key, b) {
      TiesAreShared(r, key, a, b);
      TiesAreShared(r, key, b, a);
    }
  }

  /** The release is older, or says the same. */
  predicate Yields(a: StoredLease, c: StoredLease) {
    || a.updatedAt < c.updatedAt
    || (a.updatedAt == c.updatedAt && a.lease.path == c.lease.path && a.lease.dirty == c.lease.dirty
        && a.head == c.head)
  }

  predicate IsOfferedFrom(r: Registry, request: LeaseRequest, head: Option<string>, path: string, id: string) {
    var key := (request.taskId, request.repoId, request.branch);
    && Matching(r, key, id)
    && var c := r.records[id];
       && c.lease.path == path && c.lease.dirty == Clean && (head == None || c.head == None || head == c.head)
       && (key in r.reclaimedThrough ==> r.reclaimedThrough[key] < c.updatedAt)
       && forall other :: other in r.records && Matching(r, key, other) ==> Yields(r.records[other], c)
  }

  /** A path that may be offered: it is that of a release of the task on the branch, which was recorded clean at a
      head that agrees as far as both are known; no release of the task there is later or says otherwise at the
      same time, nor has one that is not older been reclaimed. */
  ghost predicate IsOffered(r: Registry, request: LeaseRequest, head: Option<string>, path: string) {
    exists id :: IsOfferedFrom(r, request, head, path, id)
  }

  /** What is offered from one release is offered from any newest one. */
  lemma OfferedFromNewest(r: Registry, request: LeaseRequest, head: Option<string>, path: string, id: string,
                          best: string)
    requires IsOfferedFrom(r, request, head, path, id) && IsNewest(r, ContinuationOf(request), best)
    ensures IsOfferedFrom(r, request, head, path, best)
  {
    assert Yields(r.records[best], r.records[id]);
  }

  /** What the evidence from a newest release allows. */
  lemma OfferedByEvidence(r: Registry, request: LeaseRequest, head: Option<string>, path: string, best: string)
    requires IsNewest(r, ContinuationOf(request), best)
    ensures
      var v := EvidenceFrom(r, request, head, best);
      IsOfferedFrom(r, request, head, path, best) <==> v.path == path && v.dirty == Clean && v.headMatches
  {
    assert IsOfferedFrom(r, request, head, path, best) ==> !Tied(r, ContinuationOf(request), best);
  }

  /** A path is offered if and only if the request asks to continue, with leave to do so, the branch is free, and
      the path may be offered. */
  lemma OfferedExactly(r: Registry, request: LeaseRequest, head: Option<string>, inUse: set<Lease>,
                       e: Option<Evidence>, path: string)
    requires IsCandidate(r, request, head, e)
    ensures EvaluateBranchCollision(request, inUse, e).reusePath == Some(path) <==>
      && request.mode == SequentialContinue && request.allowReuse
      && (forall l :: l in inUse ==> l.repoId != request.repoId || l.branch != request.branch)
      && IsOffered(r, request, head, path)
  {
    var key := ContinuationOf(request);
    if e.Some? {
      var best :| IsNewest(r, key, best) && e.value == EvidenceFrom(r, request, head, best);
      OfferedByEvidence(r, request, head, path, best);
      if IsOffered(r, request, head, path) {
        var id :| IsOfferedFrom(r, request, head, path, id);
        OfferedFromNewest(r, request, head, path, id, best);
      }
    }
  }

  // ----- continuity -----

  /** A released lease that a task may continue: it was recorded clean, and no lease that was ever released
      for that task, repository and branch was released later. */
  ghost predicate IsLastRelease(f: Files, h: History, request: LeaseRequest, c: StoredLease) {
    && c.lease.id in f.registry.records && f.registry.records[c.lease.id] == c && !c.active
    && ContinuationOf(c.request) == ContinuationOf(request) && c.lease.dirty == Clean
    && (forall g :: g in h.releases && g.key == ContinuationOf(request) ==> g.at <= c.updatedAt)
  }

  /** The path is that of such a release, whose branch head is the one asked for as far as both are known. */
  ghost predicate Continues(f: Files, h: History, request: LeaseRequest, head: Option<string>, path: string) {
    exists c ::
      IsLastRelease(f, h, request, c) && c.lease.path == path && (head.None? || c.head.None? || head == c.head)
  }

  /** Reclaiming history never fakes continuity, as long as no mutation was dated earlier than one before it. */
  lemma ContinuationIsHonest(f: Files, h: History, request: LeaseRequest, head: Option<string>, inUse: set<Lease>,
                             e: Option<Evidence>)
    requires Inv(f, h) && h.orderly && IsCandidate(f.registry, request, head, e)
    requires EvaluateBranchCollision(request, inUse, e).reusePath.Some?
    ensures Continues(f, h, request, head, EvaluateBranchCollision(request, inUse, e).reusePath.value)
  {
    var key := ContinuationOf(request);
    var id :| IsNewest(f.registry, key, id) && e.value == EvidenceFrom(f.registry, request, head, id);
    var c := f.registry.records[id];
    assert Known(f, c);
    forall g | g in h.releases && g.key == key
      ensures g.at <= c.updatedAt
    {
      if Present(f, g) {
        assert Matching(f.registry, key, g.id);
      } else {
        assert Remembered(f, g);
      }
    }
    assert IsLastRelease(f, h, request, c);
  }
}
