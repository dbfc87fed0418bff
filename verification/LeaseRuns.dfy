/** Whole runs of the lease manager: any series of operations by processes that may each die anywhere. */
module LeaseRuns {
  import opened Wrappers
  import opened BranchPolicy
  import opened WorktreeLeases
  import opened LeaseRecovery
  import opened LeaseInvariants
  import opened LeaseReclamation
  import opened LeaseManager
  import opened LeaseCleanup
  import opened LeaseGuarantees

  datatype Action =
    | Acquire(request: LeaseRequest, terms: Terms, ids: FreshIds)
    | Renew(renewed: Lease, at: int, ttl: Option<int>, dirty: Option<DirtyState>, head: Option<string>)
    | Release(released: Lease, when: int)
    | Cleanup(cleaned: Lease, orders: Orders, seen: Sighting, now: int, lastLook: bool, removes: bool)
    | Retain(oldest: Option<int>)
    | Reconcile

  /** What surrounds the manager at one time, as it answers in each state of the files. */
  datatype Surroundings = Surroundings(
    world: Files -> World, order: Files -> seq<string>, site: Site, selection: (Files, Option<int>) -> set<nat>)

  ghost predicate IsReliable(s: Surroundings) {
    && (forall f :: NoRepeats(s.order(f)))
    && (forall f, oldest :: KeepsPinned(f, oldest, s.selection(f, oldest)))
  }

  /** An action, the row it may write, how many writes its process lives to make, whether the ledger refuses its
      row, and what its process sees around it. */
  datatype Step = Step(action: Action, rowId: string, life: nat, refuses: bool, around: Surroundings)

  function RowOfStep(s: Step): string {
    if s.action.Acquire? then s.action.ids.row else s.rowId
  }

  function LeasesOfStep(s: Step): set<string> {
    if s.action.Acquire? then {s.action.ids.lease} else {}
  }

  /** The identifiers of the steps still to come are used once and by nobody before. */
  ghost predicate Unused(f: Files, h: History, steps: seq<Step>) {
    && (forall i :: 0 <= i < |steps| ==> FreshRow(f, h.log, RowOfStep(steps[i])))
    && (forall i, id :: 0 <= i < |steps| && id in LeasesOfStep(steps[i]) ==>
         id !in f.registry.records && id !in f.registry.pending)
    && (forall i, j :: 0 <= i < j < |steps| ==>
         RowOfStep(steps[i]) != RowOfStep(steps[j]) && LeasesOfStep(steps[i]) !! LeasesOfStep(steps[j]))
  }

  lemma StillUnused(f: Files, h: History, g: Files, k: History, steps: seq<Step>)
    requires steps != [] && Unused(f, h, steps) && Uses(f, h, g, k, LeasesOfStep(steps[0]), {RowOfStep(steps[0])})
    ensures Unused(g, k, steps[1..])
  {
    hide FreshRow, RowOfStep, LeasesOfStep;
    var rest := steps[1..];
    forall i | 0 <= i < |rest|
      ensures FreshRow(g, k.log, RowOfStep(rest[i]))
      ensures forall id :: id in LeasesOfStep(rest[i]) ==> id !in g.registry.records && id !in g.registry.pending
    {
      assert rest[i] == steps[i + 1];
    }
  }

  /** The files and what happened to them, between two steps of a run. */
  datatype Moment = Moment(files: Files, past: History)

  // ----- what one step does -----

  /** The step sees the worktree of a removal gone, or is a cleanup that removes it. */
  ghost predicate FindsGone(step: Step, f: Files, id: string) {
    || SeenGone(f, id, step.around.world(f))
    || (step.action.Cleanup? && step.action.cleaned.id == id && step.action.lastLook && step.action.removes)
  }

  /** Whatever the step leaves as found gone, it has found gone, or a step before it. */
  ghost predicate GoneByStep(step: Step, before: Moment, after: Moment) {
    forall id :: id in after.past.gone && id !in before.past.gone ==> FindsGone(step, before.files, id)
  }

  lemma SeenByStep(step: Step, before: Moment, mid: History, after: Moment)
    requires OnlySeenGone(before.files, before.past, mid, step.around.world(before.files))
    requires after.past.gone == mid.gone
      || (step.action.Cleanup? && step.action.lastLook && step.action.removes
          && after.past.gone == mid.gone + {step.action.cleaned.id})
    ensures GoneByStep(step, before, after)
  {
    hide SeenGone;
  }

  /** The time that an action gives its mutation. */
  function TimeOf(a: Action): Option<int> {
    match a
    case Acquire(_, terms, _) => Some(terms.now)
    case Renew(_, at, _, _, _) => Some(at)
    case Release(_, when) => Some(when)
    case Cleanup(_, _, _, now, _, _) => Some(now)
    case _ => None
  }

  /** The clock is set to the time of the action or left as it was, and no release is forgotten. */
  ghost predicate PassesTime(step: Step, h: History, k: History) {
    && h.releases <= k.releases
    && match TimeOf(step.action)
       case None => k.clock == h.clock && k.orderly == h.orderly
       case Some(t) => Ticks(h, k, t)
  }

  /** A lease that the step acquires to continue another one does continue the last release there was. */
  ghost predicate ContinuesByStep(step: Step, f: Files, h: History) {
    step.action.Acquire? && step.action.request.mode.SequentialContinue? ==>
      IsContinued(f, h, step.action.request, step.action.terms, step.around.site, step.action.ids.lease)
  }

  /** What the caller of the step asks to be written. */
  function ChangeOf(step: Step): Change {
    match step.action
    case Acquire(request, terms, ids) => Acquisition(request, terms, step.around.site, ids)
    case Renew(l, at, ttl, dirty, head) => Prolonging(l.id, at, ttl, dirty, head)
    case Release(l, when) => Ending(l.id, when, HolderRelease)
    case Cleanup(l, _, _, now, _, _) => Ending(l.id, now, Reconciliation)
    case _ => NoChange
  }

  ghost predicate Advances(step: Step, before: Moment, after: Moment) {
    && OnlyMakes(before.files, after.files, ChangeOf(step))
    && GoneByStep(step, before, after) && PassesTime(step, before.past, after.past)
    && (before.past.orderly ==> ContinuesByStep(step, after.files, after.past))
  }

  lemma NoReleaseForgotten(f: Files, h: History, g: Files, k: History, leases: set<string>, rows: set<string>)
    requires Uses(f, h, g, k, leases, rows)
    ensures h.releases <= k.releases
  {
  }

  /** One action of a process with so many writes to live. */
  method Act(m: Manager, step: Step)
    requires m.Valid() && IsReliable(step.around) && Unused(m.files, m.past, [step])
    modifies m
    ensures m.Valid() && Uses(old(m.files), old(m.past), m.files, m.past, LeasesOfStep(step), {RowOfStep(step)})
    ensures Advances(step, old(Moment(m.files, m.past)), Moment(m.files, m.past))
    ensures old(m.past.mapped) && NoneReappears(old(m.files), step.around.world(old(m.files))) ==> m.past.mapped
    ensures InConflict(old(m.files)) ==> m.files == old(m.files)
  {
    hide GoneByStep, Inv, Uses, FreshRow, NoneReappears, KeepsPinned, NothingNew, InConflict, Replayed, IsContinued;
    hide DiedInMutation, IsGranted, IsRenewed, IsReleased, IsRemoved, OnlySeenGone, IsReclaimed, StoppedEarly;
    hide Replay, CostOfReplay, MayBlock, Ticks, OnlyMakes, KnowsNoMore;
    m.Restart(step.life);
    var w, order := step.around.world(m.files), step.around.order(m.files);
    assert NoRepeats(order);
    hide NoRepeats;
    assert [step][0] == step;
    assert FreshRow(m.files, m.past.log, RowOfStep(step));
    ghost var f, h, seen := m.files, m.past, m.past;
    match step.action {
      case Acquire(request, terms, ids) =>
        var result;
        ghost var mid, known;
        result, mid, known := m.AcquireLease(request, terms, step.around.site, ids, order, w, step.refuses);
        seen := m.past;
      case Renew(l, at, ttl, dirty, head) =>
        var result;
        ghost var mid;
        result, mid := m.RenewLease(l, at, ttl, dirty, head, step.rowId, order, w, step.refuses);
        seen := m.past;
      case Release(l, when) =>
        var result;
        ghost var mid;
        result, mid := m.ReleaseLease(l, when, step.rowId, order, w, step.refuses);
        seen := m.past;
      case Cleanup(l, orders, sighting, now, lastLook, removes) =>
        var result;
        ghost var mid;
        result, mid, seen :=
          CleanupLeasedWorktree(m, l, orders, sighting, now, step.rowId, lastLook, removes, order, w, step.refuses);
      case Retain(oldest) =>
        var result;
        ghost var staged, kept;
        var select := (g: Files) => step.around.selection(g, oldest);
        result, staged, kept := m.RetainHistory(oldest, select, select, order, w);
        seen := m.past;
        UsesNothing(f, h, m.files, m.past, {}, {step.rowId});
        MakesNothing(f, m.files, NoChange);
      case Reconcile =>
        var start;
        ghost var clean;
        start, clean := m.BeginMutation(order, w);
        seen := m.past;
        UsesNothing(f, h, m.files, m.past, {}, {step.rowId});
        MakesNothing(f, m.files, NoChange);
    }
    NoReleaseForgotten(f, h, m.files, m.past, LeasesOfStep(step), {RowOfStep(step)});
    SeenByStep(step, Moment(f, h), seen, Moment(m.files, m.past));
  }

  // ----- what a whole run does -----

  /** The moments of a run: all of them keep the invariant, and each is left by its step. */
  ghost predicate IsTrace(steps: seq<Step>, trace: seq<Moment>) {
    && 0 < |trace| <= |steps| + 1 && (forall i :: 0 <= i < |trace| ==> Inv(trace[i].files, trace[i].past))
    && forall i :: 0 <= i < |trace| - 1 ==> Advances(steps[i], trace[i], trace[i + 1])
  }

  lemma TraceMore(steps: seq<Step>, trace: seq<Moment>, after: Moment)
    requires IsTrace(steps, trace) && |trace| <= |steps| && Inv(after.files, after.past)
    requires Advances(steps[|trace| - 1], trace[|trace| - 1], after)
    ensures IsTrace(steps, trace + [after])
  {
    hide Inv, Advances;
  }

  /** At some moment of the run, before this one, a step has found the worktree gone. */
  ghost predicate FoundGone(steps: seq<Step>, trace: seq<Moment>, id: string)
    requires |trace| <= |steps| + 1
  {
    exists i :: 0 <= i < |trace| - 1 && FindsGone(steps[i], trace[i].files, id)
  }

  lemma {:induction false} GoneWasFound(steps: seq<Step>, trace: seq<Moment>, id: string)
    requires IsTrace(steps, trace) && id in trace[|trace| - 1].past.gone && id !in trace[0].past.gone
    ensures FoundGone(steps, trace, id)
    decreases |trace|
  {
    hide Inv, FindsGone, PassesTime, ContinuesByStep, OnlyMakes;
    var n := |trace| - 1;
    assert Advances(steps[n - 1], trace[n - 1], trace[n]);
    if id in trace[n - 1].past.gone {
      GoneWasFound(steps, trace[..n], id);
    } else {
      assert FindsGone(steps[n - 1], trace[n - 1].files, id);
    }
  }

  /** No step sees the worktree of a stale lease untouched again. */
  ghost predicate NoneEverReappears(steps: seq<Step>, trace: seq<Moment>)
    requires |trace| <= |steps| + 1
  {
    forall i :: 0 <= i < |trace| - 1 ==> NoneReappears(trace[i].files, steps[i].around.world(trace[i].files))
  }

  /** The mutations are dated one behind the other, from this time on. */
  ghost predicate InOrder(clock: int, steps: seq<Step>) {
    && (forall i :: 0 <= i < |steps| && TimeOf(steps[i].action).Some? ==> clock <= TimeOf(steps[i].action).value)
    && (forall i, j :: 0 <= i < j < |steps| && TimeOf(steps[i].action).Some? && TimeOf(steps[j].action).Some? ==>
         TimeOf(steps[i].action).value <= TimeOf(steps[j].action).value)
  }

  lemma StaysInOrder(h: History, k: History, steps: seq<Step>)
    requires steps != [] && h.orderly && InOrder(h.clock, steps) && PassesTime(steps[0], h, k)
    ensures k.orderly && InOrder(k.clock, steps[1..])
  {
  }

  lemma {:induction false} ReleasesGrow(steps: seq<Step>, trace: seq<Moment>, j: nat, i: nat)
    requires IsTrace(steps, trace) && j <= i < |trace|
    ensures trace[j].past.releases <= trace[i].past.releases
    decreases i
  {
    if j < i {
      hide Inv, GoneByStep, ContinuesByStep, OnlyMakes;
      assert Advances(steps[i - 1], trace[i - 1], trace[i]);
      ReleasesGrow(steps, trace, j, i - 1);
    }
  }

  lemma ContinuesAmongFewer(step: Step, f: Files, h: History, k: History)
    requires ContinuesByStep(step, f, h) && k.releases <= h.releases
    ensures ContinuesByStep(step, f, k)
  {
    if step.action.Acquire? && step.action.request.mode.SequentialContinue?
      && (step.action.ids.lease in f.registry.records || step.action.ids.lease in f.registry.pending)
    {
      var request, terms, site := step.action.request, step.action.terms, step.around.site;
      var path := NewLease(f, step.action.ids.lease).path;
      var last :| Continues(f, h, request, terms.head, last) && path == site.canonical(Chosen(terms.leasePath, last));
      ContinuesStill(f, h, f, k, request, terms.head, last);
    }
  }

  /** A lease that a step acquires to continue another one continues a release that no release recorded at any
      moment up to then is later than. */
  ghost predicate NeverOvertaken(steps: seq<Step>, trace: seq<Moment>)
    requires |trace| <= |steps| + 1
  {
    forall i, j :: 0 <= j <= i + 1 < |trace| && 0 <= i && trace[i].past.orderly ==>
      ContinuesByStep(steps[i], trace[i + 1].files, trace[j].past)
  }

  lemma NobodyOvertakes(steps: seq<Step>, trace: seq<Moment>)
    requires IsTrace(steps, trace)
    ensures NeverOvertaken(steps, trace)
  {
    forall i, j | 0 <= j <= i + 1 < |trace| && 0 <= i && trace[i].past.orderly
      ensures ContinuesByStep(steps[i], trace[i + 1].files, trace[j].past)
    {
      ReleasesGrow(steps, trace, j, i + 1);
      hide Inv, GoneByStep, PassesTime, ContinuesByStep, OnlyMakes;
      assert Advances(steps[i], trace[i], trace[i + 1]);
      ContinuesAmongFewer(steps[i], trace[i + 1].files, trace[i + 1].past, trace[j].past);
    }
  }

  // ----- what was declared -----

  /** The state of the worktree that the caller of the step declares for the lease. */
  function Declares(step: Step, id: string): Option<DirtyState> {
    match step.action
    case Acquire(_, terms, ids) => if ids.lease == id then Some(terms.dirty) else None
    case Renew(l, _, _, dirty, _) => if l.id == id then dirty else None
    case _ => None
  }

  /** The registry knows the lease to be in this state. */
  ghost predicate IsKnownAs(f: Files, id: string, d: DirtyState) {
    exists s :: Known(f, s) && s.lease.id == id && s.lease.dirty == d
  }

  /** The step declares the state that stands on record after it, with nothing pending. */
  predicate Settles(step: Step, after: Files, id: string) {
    && id in after.registry.records && id !in after.registry.pending
    && Declares(step, id) == Some(after.registry.records[id].lease.dirty)
  }

  /** From the first moments of the run, after so many steps, the lease was known to be in this state, as the last
      of those steps declared; and no later step has settled another state. */
  ghost predicate IsDeclaredAt(steps: seq<Step>, trace: seq<Moment>, i: nat, n: nat, id: string, d: DirtyState)
    requires i <= n < |trace| <= |steps| + 1
  {
    && IsKnownAs(trace[i].files, id, d) && (i > 0 ==> Declares(steps[i - 1], id) == Some(d))
    && forall j :: i <= j < n && Settles(steps[j], trace[j + 1].files, id) ==> Declares(steps[j], id) == Some(d)
  }

  /** The state was declared by a step, or is that of the beginning, and no later step has settled another one. */
  ghost predicate IsDeclared(steps: seq<Step>, trace: seq<Moment>, n: nat, id: string, d: DirtyState)
    requires n < |trace| <= |steps| + 1
  {
    exists i: nat :: i <= n && IsDeclaredAt(steps, trace, i, n, id, d)
  }

  lemma DeclaredNow(steps: seq<Step>, trace: seq<Moment>, n: nat, s: StoredLease)
    requires n < |trace| <= |steps| + 1 && Known(trace[n].files, s)
    requires n > 0 ==> Declares(steps[n - 1], s.lease.id) == Some(s.lease.dirty)
    ensures IsDeclared(steps, trace, n, s.lease.id, s.lease.dirty)
  {
    hide Known, Declares;
    assert IsKnownAs(trace[n].files, s.lease.id, s.lease.dirty);
    hide IsKnownAs;
    assert IsDeclaredAt(steps, trace, n, n, s.lease.id, s.lease.dirty);
  }

  lemma StillDeclared(steps: seq<Step>, trace: seq<Moment>, n: nat, id: string, d: DirtyState)
    requires n + 1 < |trace| <= |steps| + 1 && IsDeclared(steps, trace, n, id, d)
    requires Settles(steps[n], trace[n + 1].files, id) ==> Declares(steps[n], id) == Some(d)
    ensures IsDeclared(steps, trace, n + 1, id, d)
  {
    hide Settles, Declares, IsKnownAs;
    var i: nat :| i <= n && IsDeclaredAt(steps, trace, i, n, id, d);
    assert IsDeclaredAt(steps, trace, i, n + 1, id, d);
  }

  lemma SettledIsKnown(step: Step, g: Files, s: StoredLease)
    requires Known(g, s) && Settles(step, g, s.lease.id)
    ensures Declares(step, s.lease.id) == Some(s.lease.dirty)
  {
    hide Declares;
  }

  /** A record that the step writes has the state it declares, or that of the record it is made from. */
  lemma DeclaredOrTaken(step: Step, f: Files, t: StoredLease) returns (s: StoredLease)
    requires Makes(ChangeOf(step), f, t)
    ensures Declares(step, t.lease.id) != Some(t.lease.dirty) ==>
      && Declares(step, t.lease.id) == None && Known(f, s) && s.lease.id == t.lease.id && s.lease.dirty == t.lease.dirty
  {
    hide IsWanted, MayLast, Lifetime, Known;
    s := t;
    match ChangeOf(step)
    case Acquisition(_, _, _, _) =>
    case Prolonging(id, at, ttl, dirty, head) =>
      s :| Known(f, s) && s.lease.id == id && IsProlonged(s, t, at, ttl, dirty, head);
    case Ending(id, at, cause) =>
      s :| Known(f, s) && s.lease.id == id && IsEnded(s, t, at, cause);
    case NoChange =>
  }

  lemma {:induction false} KnownIsDeclared(steps: seq<Step>, trace: seq<Moment>, n: nat, s: StoredLease)
    requires IsTrace(steps, trace) && n < |trace| && Known(trace[n].files, s)
    ensures IsDeclared(steps, trace, n, s.lease.id, s.lease.dirty)
    decreases n
  {
    hide Inv, GoneByStep, PassesTime, ContinuesByStep, Known, Makes, Settles, Declares, IsDeclared;
    if n == 0 {
      DeclaredNow(steps, trace, n, s);
    } else {
      var step := steps[n - 1];
      assert Advances(step, trace[n - 1], trace[n]);
      var t := s;
      if !Known(trace[n - 1].files, s) {
        t := DeclaredOrTaken(step, trace[n - 1].files, s);
      }
      if Settles(step, trace[n].files, s.lease.id) {
        SettledIsKnown(step, trace[n].files, s);
      }
      if Known(trace[n - 1].files, t) && t.lease.id == s.lease.id && t.lease.dirty == s.lease.dirty {
        KnownIsDeclared(steps, trace, n - 1, t);
        StillDeclared(steps, trace, n - 1, s.lease.id, s.lease.dirty);
      } else {
        DeclaredNow(steps, trace, n, s);
      }
    }
  }

  /** The lease continues, at this path, a last release whose worktree was declared clean. */
  ghost predicate ContinuesClean(steps: seq<Step>, trace: seq<Moment>, i: nat)
    requires i + 1 < |trace| <= |steps| + 1
  {
    var f, h, step := trace[i + 1].files, trace[i + 1].past, steps[i];
    step.action.Acquire? && step.action.request.mode.SequentialContinue? && trace[i].past.orderly
    && (step.action.ids.lease in f.registry.records || step.action.ids.lease in f.registry.pending) ==>
      exists c ::
        && IsLastRelease(f, h, step.action.request, c)
        && NewLease(f, step.action.ids.lease).path
             == step.around.site.canonical(Chosen(step.action.terms.leasePath, c.lease.path))
        && IsDeclared(steps, trace, i + 1, c.lease.id, Clean)
  }

  lemma ContinuedIsClean(steps: seq<Step>, trace: seq<Moment>, i: nat)
    requires IsTrace(steps, trace) && i + 1 < |trace|
    ensures ContinuesClean(steps, trace, i)
  {
    var f, h, step := trace[i + 1].files, trace[i + 1].past, steps[i];
    assert Advances(step, trace[i], trace[i + 1]);
    hide Inv, GoneByStep, PassesTime, OnlyMakes, IsDeclared;
    if step.action.Acquire? && step.action.request.mode.SequentialContinue? && trace[i].past.orderly
      && (step.action.ids.lease in f.registry.records || step.action.ids.lease in f.registry.pending)
    {
      var request, terms := step.action.request, step.action.terms;
      var last :| Continues(f, h, request, terms.head, last)
        && NewLease(f, step.action.ids.lease).path == step.around.site.canonical(Chosen(terms.leasePath, last));
      var c :| IsLastRelease(f, h, request, c) && c.lease.path == last;
      KnownIsDeclared(steps, trace, i + 1, c);
    }
  }

  /** What holds of a longer run holds of a shorter one. */
  lemma NobodyYet(steps: seq<Step>, trace: seq<Moment>, after: Moment)
    requires 0 < |trace| <= |steps|
    ensures NoneEverReappears(steps, trace + [after]) ==>
      && NoneEverReappears(steps, trace)
      && NoneReappears(trace[|trace| - 1].files, steps[|trace| - 1].around.world(trace[|trace| - 1].files))
  {
    hide NoneReappears;
    var more := trace + [after];
    assert forall i :: 0 <= i < |trace| ==> more[i] == trace[i];
  }

  lemma FirstUnused(f: Files, h: History, steps: seq<Step>)
    requires steps != [] && Unused(f, h, steps)
    ensures Unused(f, h, [steps[0]])
  {
    hide FreshRow;
  }

  lemma RunFacts(f: Files, h: History)
    requires Inv(f, h)
    ensures forall a, b :: Claim(f, a) && Claim(f, b) && a.lease.id != b.lease.id ==> Apart(a.lease, b.lease)
    ensures h.mapped && f.registry.pending == map[] ==> IsActiveMap(f.active, f.registry.records)
    ensures h.mapped ==> !InConflict(f)
    ensures h.removed <= h.gone
  {
    assert Exclusive(f) && RemovedAreGone(f, h);
    ActiveIsKnown(f, h);
    if h.mapped && f.registry.pending == map[] {
      QuietMapIsExact(f, h);
    }
  }

  /** Over any run, wherever its processes die and whatever each of them sees: leases in use or pending share
      neither branch nor path, and every lease released through a removal has had its worktree found gone; whatever
      was found gone in the run was seen absent, or removed by a cleanup, at some step of it. While the map is known
      to follow the records, it is exact whenever nothing is pending, and the store is in no conflict; that is lost
      only if a worktree reappears. A conflict is never left again. As long as the mutations are dated in order, a
      lease that continues another one continues the last release of all there ever were. */
  method Run(m: Manager, steps: seq<Step>) returns (ghost trace: seq<Moment>)
    requires m.Valid() && Unused(m.files, m.past, steps)
    requires forall i :: 0 <= i < |steps| ==> IsReliable(steps[i].around)
    modifies m
    ensures m.Valid()
    ensures forall a, b :: Claim(m.files, a) && Claim(m.files, b) && a.lease.id != b.lease.id ==>
      Apart(a.lease, b.lease)
    ensures IsTrace(steps, trace) && |trace| == |steps| + 1
      && trace[0] == old(Moment(m.files, m.past)) && trace[|steps|] == Moment(m.files, m.past)
    ensures m.past.removed <= m.past.gone
    ensures forall id :: id in m.past.gone && id !in old(m.past.gone) ==> FoundGone(steps, trace, id)
    ensures m.past.mapped && m.files.registry.pending == map[] ==> IsActiveMap(m.files.active, m.files.registry.records)
    ensures m.past.mapped ==> !InConflict(m.files)
    ensures old(m.past.mapped) && NoneEverReappears(steps, trace) ==> m.past.mapped
    ensures InConflict(old(m.files)) ==> m.files == old(m.files)
    ensures NeverOvertaken(steps, trace)
    ensures forall n: nat, s :: n <= |steps| && Known(trace[n].files, s) ==>
      IsDeclared(steps, trace, n, s.lease.id, s.lease.dirty)
    ensures forall i: nat :: i < |steps| ==> ContinuesClean(steps, trace, i)
    ensures old(m.past.orderly) && InOrder(old(m.past.clock), steps) ==> m.past.orderly
  {
    hide Inv, Unused, IsReliable, NoneReappears, InConflict, Claim, Apart, IsActiveMap, Uses, FoundGone, InOrder;
    hide GoneByStep, PassesTime, ContinuesByStep, NeverOvertaken, OnlyMakes, Known, IsDeclared, ContinuesClean;
    var n := 0;
    trace := [Moment(m.files, m.past)];
    assert steps[0..] == steps;
    while n < |steps|
      invariant n <= |steps| == |steps[n..]| + n && m.Valid() && Unused(m.files, m.past, steps[n..])
      invariant IsTrace(steps, trace) && |trace| == n + 1
      invariant trace[0] == old(Moment(m.files, m.past)) && trace[n] == Moment(m.files, m.past)
      invariant old(m.past.mapped) && NoneEverReappears(steps, trace) ==> m.past.mapped
      invariant InConflict(old(m.files)) ==> m.files == old(m.files)
      invariant old(m.past.orderly) && InOrder(old(m.past.clock), steps) ==>
        m.past.orderly && InOrder(m.past.clock, steps[n..])
    {
      ghost var f, h, rest := m.files, m.past, steps[n..];
      assert rest[0] == steps[n] && rest[1..] == steps[n + 1..];
      FirstUnused(f, h, rest);
      Act(m, steps[n]);
      StillUnused(f, h, m.files, m.past, rest);
      if h.orderly && InOrder(h.clock, rest) {
        StaysInOrder(h, m.past, rest);
      }
      TraceMore(steps, trace, Moment(m.files, m.past));
      NobodyYet(steps, trace, Moment(m.files, m.past));
      trace := trace + [Moment(m.files, m.past)];
      n := n + 1;
    }
    forall id | id in m.past.gone && id !in old(m.past.gone)
      ensures FoundGone(steps, trace, id)
    {
      GoneWasFound(steps, trace, id);
    }
    forall i: nat, s | i <= |steps| && Known(trace[i].files, s)
      ensures IsDeclared(steps, trace, i, s.lease.id, s.lease.dirty)
    {
      KnownIsDeclared(steps, trace, i, s);
    }
    forall i: nat | i < |steps|
      ensures ContinuesClean(steps, trace, i)
    {
      ContinuedIsClean(steps, trace, i);
    }
    NobodyOvertakes(steps, trace);
    RunFacts(m.files, m.past);
  }

  // ----- a worktree that reappears -----

  /** What a cleanup announces for a lease. */
  function Removal(f: Files, id: string, now: int, rowId: string): Intent
    requires id in f.registry.records && f.registry.records[id].identity.Some?
  {
    RemovalIntent(f.registry.records[id], now, rowId, f.registry.records[id].identity.value)
  }

  /** The worktree is found gone at one time, with the ledger taking the row, and untouched at another. */
  predicate ComesAndGoes(intent: Intent, absent: World, back: World) {
    absent.sight(intent) == Absent && !absent.refuses(intent) && back.sight(intent) == NoEffect
  }

  /** Replay of one intent alone, and how it may be cut off. */
  lemma ReplayAlone(f: Files, id: string, life: nat, clean: Files, w: World, g: Files)
    requires f.registry.reclamation.None?
    ensures IsReclaimed(f, clean) ==> clean == f
    ensures CostOfReplay(f, [id], w) == CostOfOne(f, id, w) && Replay(f, [id], w) == ReplayOne(f, id, w)
    ensures StoppedEarly(f, life, clean, [id], w, g) ==>
      clean == f && life + 4 >= CostOfOne(f, id, w) && g == CrashInOne(f, id, life + 4 - CostOfOne(f, id, w), w)
  {
    hide ReplayOne, CostOfOne, CrashInOne;
    assert [id][..0] == [] && [id][..1] == [id];
    assert Replay(f, [], w) == f && CostOfReplay(f, [], w) == 0;
    assert [id][..|[id]| - 1] == [];
  }

  lemma SeenAbsent(f: Files, intent: Intent, w: World)
    requires Announced(intent) && w.sight(intent) == Absent && !w.refuses(intent) && !HasRow(f.ledger, intent.recordId)
    ensures
      var id := intent.record.lease.id;
      var g := Stage(f, intent);
      CostOfOne(g, id, w) == 4 && CrashInOne(g, id, 2, w) == ApplyUpTo(g, intent, 2)
  {
    hide HasRow;
  }

  lemma SeenBack(f: Files, intent: Intent, w: World)
    requires Announced(intent) && w.sight(intent) == NoEffect
    ensures CostOfOne(ApplyUpTo(Stage(f, intent), intent, 2), intent.record.lease.id, w) == 1
    ensures ApplyUpTo(Stage(f, intent), intent, 2).registry.reclamation == f.registry.reclamation
  {
    hide HasRow;
  }

  /** Nothing that is pending is seen untouched. */
  lemma NobodyReappears(f: Files, w: World)
    requires forall id :: id in f.registry.pending ==> w.sight(f.registry.pending[id]) != NoEffect
    ensures NoneReappears(f, w)
  {
    hide IsStale;
  }

  lemma RemovalStands(f: Files, h: History, l: Lease, now: int, rowId: string)
    requires Inv(f, h) && IsQuiet(f) && FreshRow(f, h.log, rowId)
    requires l.id in f.registry.records && f.registry.records[l.id].active && f.registry.records[l.id].identity.Some?
    ensures
      var intent := Removal(f, l.id, now, rowId);
      && Announced(intent) && intent.operation.RemoveOp? && intent.record.lease.id == l.id && intent.recordId == rowId
      && MayStage(f, h, intent) && !HasRow(f.ledger, rowId)
      && Stage(f, intent).registry.pending == map[l.id := intent] && Stage(f, intent).registry.reclamation.None?
  {
    LedgerIsLogged(f, h, rowId);
    KeyedById(f, h, l.id);
    ChangeMayStage(f, h, l.id, Removal(f, l.id, now, rowId));
  }

  /** Three processes, from any quiet files: the first announces the removal of a worktree and stops there;
      the second finds the worktree gone and lives for two writes; the third finds it untouched. The lease is
      then released, the active map still has it, and nothing is pending. */
  method Reappear(m: Manager, l: Lease, orders: Orders, seen: Sighting, now: int, rowId: string, absent: World,
                  back: World)
    requires m.Valid() && m.past.mapped && IsQuiet(m.files) && FreshRow(m.files, m.past.log, rowId)
    requires GoesAhead(m.files, l, orders, seen, now) && m.files.registry.records[l.id].identity.Some?
    requires ComesAndGoes(Removal(m.files, l.id, now, rowId), absent, back)
    modifies m
    ensures m.Valid() && IsQuiet(m.files) && !m.past.mapped
    ensures IsStale(m.files, l.id) && !IsActiveMap(m.files.active, m.files.registry.records) && !InConflict(m.files)
    ensures m.files.active == old(m.files.active)
    ensures m.files.registry.records[l.id] == Removal(old(m.files), l.id, now, rowId).record
    ensures m.files.ledger == old(m.files.ledger) + [Row(rowId, Removal(old(m.files), l.id, now, rowId).record.lease)]
  {
    hide Inv, FreshRow, InConflict, Replay, CostOfReplay, IsReclaimed, StoppedEarly, IsStale, IsActiveMap;
    hide NoneReappears, NothingNew, OnlySeenGone, CrashInOne, ReplayOne, CostOfOne, HasRow, Assess, Stage, ApplyUpTo;
    hide MayStage;
    OwnershipCases(m.files, l);
    ghost var f, h, intent := m.files, m.past, Removal(m.files, l.id, now, rowId);
    var order := [l.id];
    assert NoRepeats([]) && NoRepeats(order);
    NobodyReappears(f, absent);
    RemovalStands(f, h, l, now, rowId);
    ReappearanceLeavesAStaleEntry(f, h, intent, back);
    SeenAbsent(f, intent, absent);
    SeenBack(f, intent, back);
    ActiveIsKnown(f, h);
    m.Restart(1);
    var result;
    ghost var mid, known;
    result, mid, known := CleanupLeasedWorktree(m, l, orders, seen, now, rowId, false, false, [], absent, false);
    assert m.files == Stage(f, intent);
    ghost var g := m.files;
    ActiveIsKnown(g, m.past);
    NobodyReappears(g, absent);
    m.Restart(2);
    var start;
    ghost var clean;
    start, clean := m.BeginMutation(order, absent);
    ReplayAlone(g, l.id, 2, clean, absent, m.files);
    g := m.files;
    ActiveIsKnown(g, m.past);
    m.Restart(1);
    start, clean := m.BeginMutation(order, back);
    ReplayAlone(g, l.id, 1, clean, back, m.files);
    if m.past.mapped {
      QuietMapIsExact(m.files, m.past);
    }
  }

  // ----- and locks the store -----

  /** Retention at its leanest: of the lease rows it keeps the pinned ones. */
  function PinnedRows(f: Files, oldest: Option<int>): set<nat> {
    set i: nat | i < |f.ledger| && Pinned(f, i, oldest)
  }

  ghost predicate NoneKept(ledger: seq<Row>, keep: set<nat>, id: string) {
    forall i: nat :: i < |ledger| && ledger[i].lease.id == id ==> i !in keep
  }

  /** The rows of a lease released long ago, and the lease with them. */
  lemma StaleIsReclaimed(f: Files, id: string, oldest: int)
    requires IsQuiet(f) && IsStale(f, id) && f.registry.records[id].updatedAt < oldest && RowOf(f.ledger, id)
    ensures id in Reclaimed(f, PinnedRows(f, Some(oldest)))
    ensures NoneKept(f.ledger, PinnedRows(f, Some(oldest)), id)
  {
    hide LastOf, FirstOf;
    assert forall i: nat :: i < |f.ledger| && f.ledger[i].lease.id == id ==> !Pinned(f, i, Some(oldest));
  }

  /** No row of the lease is left. */
  lemma {:induction false} NoRowLeft(ledger: seq<Row>, keep: set<nat>, id: string)
    requires NoneKept(ledger, keep, id)
    ensures !RowOf(KeepRows(ledger, keep), id)
    decreases |ledger|
  {
    if ledger != [] {
      var n := |ledger| - 1;
      var front := ledger[..n];
      assert forall i: nat :: i < |front| ==> front[i] == ledger[i];
      NoRowLeft(front, keep, id);
      assert n in keep ==> ledger[n].lease.id != id;
    }
  }

  /** When the lease of a stale entry leaves the registry, the entry belongs to nobody. */
  lemma OrphanIsConflict(f: Files, staged: Files, clean: Files, id: string, oldest: int, keep: set<nat>)
    requires IsQuiet(f) && IsStale(f, id) && f.registry.records[id].updatedAt < oldest && RowOf(f.ledger, id)
    requires staged == f.(registry := f.registry.(reclamation := staged.registry.reclamation))
    requires staged.registry.reclamation.Some?
    requires staged.registry.reclamation.value.leaseIds == Reclaimed(f, PinnedRows(f, Some(oldest)))
    requires keep == PinnedRows(f, Some(oldest)) && IsReclaimed(Compact(staged, keep), clean)
    ensures InConflict(clean) && clean.registry.pending == map[]
  {
    StaleIsReclaimed(f, id, oldest);
    NoRowLeft(f.ledger, keep, id);
    hide PinnedRows, RowOf, RowOfKept, MarksFollow, KeepRows;
    assert MayReclaim(Compact(staged, keep), id) && id in Leaving(Compact(staged, keep));
    var k :| k in f.active && f.active[k].id == id;
    assert clean.active[k].id == id;
  }

  lemma PinnedIsKept(oldest: Option<int>)
    ensures forall f :: KeepsPinned(f, oldest, PinnedRows(f, oldest))
  {
  }

  /** The files before the staging are the quiet ones. */
  lemma StagedFrom(f: Files, staged: Files, oldest: Option<int>)
    requires IsQuiet(f) && IsReclaimed(f, BeforeStaging(staged))
    ensures staged == f.(registry := f.registry.(reclamation := staged.registry.reclamation))
      && BeforeStaging(staged) == f
    ensures PinnedRows(staged, oldest) == PinnedRows(f, oldest)
    ensures Reclaimed(staged, PinnedRows(f, oldest)) == Reclaimed(f, PinnedRows(f, oldest))
  {
    hide FirstOf, LastOf;
    assert BeforeStaging(staged) == f;
    assert forall i: nat :: i < |f.ledger| ==> Pinned(staged, i, oldest) == Pinned(f, i, oldest);
  }

  lemma NothingStaged(f: Files, g: Files)
    requires IsReclaimed(f, g)
    ensures g.registry.reclamation.None?
  {
  }

  /** Retention that takes the stale lease away leaves the store in a conflict, which nothing the manager
      does resolves: every later mutation is refused. */
  method LockOut(m: Manager, id: string, oldest: int, order: seq<string>, w: World)
    requires m.Valid() && IsQuiet(m.files) && IsStale(m.files, id) && !InConflict(m.files) && NoRepeats(order)
    requires m.files.registry.records[id].updatedAt < oldest && RowOf(m.files.ledger, id)
    modifies m
    ensures m.Valid() && InConflict(m.files) && IsQuiet(m.files)
  {
    hide Inv, InConflict, IsReclaimed, Reclaimed, KeepsPinned, NoneReappears, IsStale, Replay, NothingNew;
    hide OnlySeenGone, PinnedRows;
    ghost var f := m.files;
    PinnedIsKept(Some(oldest));
    m.Restart(3);
    var select := (g: Files) => PinnedRows(g, Some(oldest));
    var result;
    ghost var staged, kept;
    result, staged, kept := m.RetainHistory(Some(oldest), select, select, order, w);
    ghost var clean :| IsReclaimed(Compact(staged, kept), clean) && m.files == Replay(clean, order, w);
    StagedFrom(f, staged, Some(oldest));
    OrphanIsConflict(f, staged, clean, id, oldest, kept);
    QuietReplay(clean, order, w);
    NothingStaged(Compact(staged, kept), clean);
  }

  /** The whole story, from any quiet files: a worktree that goes and comes back, retention, and a store that
      refuses everything from then on. */
  method ReappearAndLockOut(m: Manager, l: Lease, orders: Orders, seen: Sighting, now: int, rowId: string,
                            absent: World, back: World, oldest: int)
    requires m.Valid() && m.past.mapped && IsQuiet(m.files) && FreshRow(m.files, m.past.log, rowId) && now < oldest
    requires GoesAhead(m.files, l, orders, seen, now) && m.files.registry.records[l.id].identity.Some?
    requires ComesAndGoes(Removal(m.files, l.id, now, rowId), absent, back)
    modifies m
    ensures m.Valid() && InConflict(m.files)
  {
    hide Inv, InConflict, OwnershipError, Assess, IsActiveMap, FreshRow;
    OwnershipCases(m.files, l);
    KeyedById(m.files, m.past, l.id);
    Reappear(m, l, orders, seen, now, rowId, absent, back);
    assert m.files.ledger[|m.files.ledger| - 1].lease.id == l.id;
    LockOut(m, l.id, oldest, [], back);
  }
}
