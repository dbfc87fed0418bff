/** What a replay shows, said of the fields of the records alone. */
module ReplayMeaning {
  import opened Wrappers
  import opened LedgerRecords
  import opened Retention
  import opened RetentionMeaning
  import opened RetentionReplay

  // ----- what is shown -----

  ghost predicate InOrder(records: seq<Record>) {
    forall i, j :: 0 <= i < j < |records| ==> records[i].sequence < records[j].sequence
  }

  predicate IsOwn(records: seq<Record>, id: string, kind: Kind, r: Record) {
    r in records && r.sessionId == Some(id) && r.Kind() == kind
  }

  /** All the records of the session of this kind are shown, in their order. */
  ghost predicate ShowsAll(records: seq<Record>, id: string, kind: Kind, shown: seq<Record>) {
    InOrder(shown) && forall r :: r in shown <==> IsOwn(records, id, kind, r)
  }

  ghost predicate ComesBefore(records: seq<Record>, q: Record, b: Record) {
    forall p :: p in records && SameEntity(p, b) ==> q.sequence < p.sequence
  }

  /** The entity of the one was first recorded before that of the other. */
  ghost predicate AppearsBefore(records: seq<Record>, a: Record, b: Record) {
    exists q :: q in records && SameEntity(q, a) && ComesBefore(records, q, b)
  }

  /** Of each entity of this kind that the session has, the newest record is shown, once, in the order in which
      the entities first appeared. */
  ghost predicate ShowsNewest(records: seq<Record>, id: string, kind: Kind, shown: seq<Record>) {
    && (forall i :: 0 <= i < |shown| ==> IsOwn(records, id, kind, shown[i]) && IsNewest(records, shown[i]))
    && (forall r :: IsOwn(records, id, kind, r) ==> exists i :: 0 <= i < |shown| && SameEntity(shown[i], r))
    && (forall i, j :: 0 <= i < j < |shown| ==>
         !SameEntity(shown[i], shown[j]) && AppearsBefore(records, shown[i], shown[j]))
  }

  function CursorOf(e: Record): nat {
    if e.payload.RuntimeEvent? then e.payload.cursor else 0
  }

  /** One past the highest cursor of an event. */
  ghost predicate IsNextCursor(events: seq<Record>, next: Option<nat>) {
    match next
    case None => events == []
    case Some(n) =>
      && (forall e :: e in events ==> CursorOf(e) < n)
      && exists e :: e in events && CursorOf(e) + 1 == n
  }

  lemma CursorMore(front: seq<Record>, e: Record, before: Option<nat>)
    requires IsNextCursor(front, before)
    ensures IsNextCursor(front + [e],
      Some(if before.Some? && before.value > CursorOf(e) then before.value else CursorOf(e) + 1))
  {
    hide CursorOf;
    var all := front + [e];
    assert e in all;
    if before.Some? && before.value > CursorOf(e) {
      var x :| x in front && CursorOf(x) + 1 == before.value;
      assert x in all;
    }
  }

  /** A route decision of the session, or of one of its tasks and of no session. */
  ghost predicate IsRouteOf(records: seq<Record>, id: string, r: Record) {
    && r in records && r.payload.RouteDecision?
    && (|| r.sessionId == Some(id)
        || (r.sessionId == None && r.taskId.Some?
            && exists q :: q in records && q.sessionId == Some(id) && q.taskId == r.taskId))
  }

  ghost predicate ShowsSession(records: seq<Record>, id: string, shown: SessionReplay) {
    && (match shown.session
        case None => forall r :: !IsOwn(records, id, SessionKind, r)
        case Some(s) =>
          IsOwn(records, id, SessionKind, s)
          && forall r :: IsOwn(records, id, SessionKind, r) ==> r.sequence <= s.sequence)
    && ShowsNewest(records, id, TurnKind, shown.turns)
    && ShowsNewest(records, id, RequestKind, shown.approvalRequests)
    && ShowsAll(records, id, RuntimeEventKind, shown.events) && IsNextCursor(shown.events, shown.nextCursor)
    && ShowsAll(records, id, EvidenceKind, shown.evidenceRefs)
    && InOrder(shown.routeDecisions)
    && (forall r :: r in shown.routeDecisions <==> IsRouteOf(records, id, r))
    && ShowsNewest(records, id, ResponseKind, shown.approvalResponses)
  }

  // ----- a part of the ledger -----

  lemma {:induction false} WhereInOrder(records: seq<Record>, p: Record -> bool)
    requires InOrder(records)
    ensures InOrder(Where(records, p))
  {
    if records != [] {
      var n := |records| - 1;
      WhereInOrder(records[..n], p);
      WhereMembers(records[..n], p);
      assert forall r :: r in records[..n] ==> r.sequence < records[n].sequence;
    }
  }

  lemma OwnIs(records: seq<Record>, id: string, kind: Kind)
    requires InOrder(records)
    ensures InOrder(OwnOfKind(records, id, kind))
    ensures forall r :: r in OwnOfKind(records, id, kind) <==> IsOwn(records, id, kind, r)
  {
    WhereInOrder(records, (r: Record) => r.sessionId == Some(id));
    WhereMembers(records, (r: Record) => r.sessionId == Some(id));
    WhereInOrder(Own(records, id), (r: Record) => r.Kind() == kind);
    WhereMembers(Own(records, id), (r: Record) => r.Kind() == kind);
    hide InOrder;
  }

  // ----- one record for each entity -----

  lemma {:induction false} IndexIsFirst(records: seq<Record>, key: Key)
    ensures
      var i := IndexOfKey(records, key);
      && (i < |records| ==> EntityKey(records[i]) == key)
      && forall j :: 0 <= j < i ==> EntityKey(records[j]) != key
  {
    hide EntityKey;
    if records != [] && EntityKey(records[0]) != key {
      IndexIsFirst(records[1..], key);
      var i := IndexOfKey(records[1..], key);
      assert IndexOfKey(records, key) == i + 1;
      assert forall j :: 0 < j < |records| ==> records[j] == records[1..][j - 1];
    }
  }

  ghost predicate HasKey(shown: seq<Record>, key: Key) {
    exists i :: 0 <= i < |shown| && EntityKey(shown[i]) == key
  }

  ghost predicate IsLatestOf(own: seq<Record>, s: Record) {
    s in own && forall r :: r in own && EntityKey(r) == EntityKey(s) ==> r.sequence <= s.sequence
  }

  ghost predicate NoKeyTwice(shown: seq<Record>) {
    forall i, j :: 0 <= i < j < |shown| ==> EntityKey(shown[i]) != EntityKey(shown[j])
  }

  /** The shown records are the latest of the entities of the given ones, each once. */
  ghost predicate ByKey(own: seq<Record>, shown: seq<Record>) {
    && (forall i :: 0 <= i < |shown| ==> IsLatestOf(own, shown[i]))
    && (forall r :: r in own ==> HasKey(shown, EntityKey(r)))
    && NoKeyTwice(shown)
  }

  ghost predicate FirstBefore(own: seq<Record>, a: Key, b: Key) {
    exists q :: q in own && EntityKey(q) == a && forall p :: p in own && EntityKey(p) == b ==> q.sequence < p.sequence
  }

  ghost predicate ByAppearance(own: seq<Record>, shown: seq<Record>) {
    forall i, j :: 0 <= i < j < |shown| ==> FirstBefore(own, EntityKey(shown[i]), EntityKey(shown[j]))
  }

  lemma NewestOfAll(front: seq<Record>, x: Record)
    requires forall r :: r in front ==> r.sequence < x.sequence
    ensures IsLatestOf(front + [x], x)
  {
    hide EntityKey;
  }

  lemma LatestStill(front: seq<Record>, s: Record, x: Record)
    requires IsLatestOf(front, s) && EntityKey(s) != EntityKey(x)
    ensures IsLatestOf(front + [x], s)
  {
    hide EntityKey;
  }

  /** A record of the same entity takes the place of one. */
  lemma ReplacedKeys(shown: seq<Record>, i: nat, x: Record)
    requires i < |shown| && EntityKey(shown[i]) == EntityKey(x)
    ensures forall key :: HasKey(shown[i := x], key) <==> HasKey(shown, key)
    ensures HasKey(shown, EntityKey(x)) && (NoKeyTwice(shown) ==> NoKeyTwice(shown[i := x]))
  {
    hide EntityKey;
    var more := shown[i := x];
    assert forall k :: 0 <= k < |shown| ==> EntityKey(more[k]) == EntityKey(shown[k]);
  }

  lemma Precedes(front: seq<Record>, x: Record)
    requires InOrder(front + [x])
    ensures InOrder(front) && forall r :: r in front ==> r.sequence < x.sequence
  {
    var all := front + [x];
    assert forall i :: 0 <= i < |front| ==> front[i] == all[i];
    assert all[|front|] == x;
  }

  lemma ReplacedByKey(front: seq<Record>, shown: seq<Record>, i: nat, x: Record)
    requires ByKey(front, shown) && InOrder(front + [x]) && i < |shown| && EntityKey(shown[i]) == EntityKey(x)
    ensures ByKey(front + [x], shown[i := x])
  {
    hide EntityKey, IsLatestOf, HasKey, InOrder;
    var own, more := front + [x], shown[i := x];
    Precedes(front, x);
    ReplacedKeys(shown, i, x);
    assert IsLatestOf(own, x) by { NewestOfAll(front, x); }
    forall k | 0 <= k < |more| && k != i
      ensures IsLatestOf(own, more[k])
    {
      LatestStill(front, shown[k], x);
    }
    forall r | r in own
      ensures HasKey(more, EntityKey(r))
    {
    }
  }

  lemma AddedKeys(shown: seq<Record>, x: Record)
    requires !HasKey(shown, EntityKey(x))
    ensures forall key :: HasKey(shown + [x], key) <==> HasKey(shown, key) || key == EntityKey(x)
    ensures NoKeyTwice(shown) ==> NoKeyTwice(shown + [x])
  {
    hide EntityKey;
    var more := shown + [x];
    assert forall k :: 0 <= k < |shown| ==> more[k] == shown[k];
    assert EntityKey(more[|shown|]) == EntityKey(x);
  }

  lemma AddedByKey(front: seq<Record>, shown: seq<Record>, x: Record)
    requires ByKey(front, shown) && InOrder(front + [x]) && !HasKey(shown, EntityKey(x))
    ensures ByKey(front + [x], shown + [x])
  {
    hide EntityKey, IsLatestOf, InOrder;
    var own, more := front + [x], shown + [x];
    Precedes(front, x);
    AddedKeys(shown, x);
    assert IsLatestOf(own, x) by { NewestOfAll(front, x); }
    forall k | 0 <= k < |shown|
      ensures IsLatestOf(own, shown[k])
    {
      LatestStill(front, shown[k], x);
    }
    hide HasKey;
  }

  lemma StillFirst(front: seq<Record>, x: Record, a: Key, b: Key)
    requires InOrder(front + [x]) && FirstBefore(front, a, b)
    ensures FirstBefore(front + [x], a, b)
  {
    hide EntityKey;
    Precedes(front, x);
    var q :| q in front && EntityKey(q) == a && forall p :: p in front && EntityKey(p) == b ==> q.sequence < p.sequence;
    assert q in front + [x];
  }

  lemma NewIsLast(front: seq<Record>, x: Record, a: Record)
    requires InOrder(front + [x]) && a in front
    requires forall p :: p in front ==> EntityKey(p) != EntityKey(x)
    ensures FirstBefore(front + [x], EntityKey(a), EntityKey(x))
  {
    hide EntityKey;
    Precedes(front, x);
    assert a in front + [x];
  }

  lemma ReplacedByAppearance(front: seq<Record>, shown: seq<Record>, i: nat, x: Record)
    requires ByAppearance(front, shown) && InOrder(front + [x])
    requires i < |shown| && EntityKey(shown[i]) == EntityKey(x)
    ensures ByAppearance(front + [x], shown[i := x])
  {
    hide EntityKey, FirstBefore, InOrder;
    var more := shown[i := x];
    forall j, k | 0 <= j < k < |more|
      ensures FirstBefore(front + [x], EntityKey(more[j]), EntityKey(more[k]))
    {
      StillFirst(front, x, EntityKey(shown[j]), EntityKey(shown[k]));
    }
  }

  lemma AddedByAppearance(front: seq<Record>, shown: seq<Record>, x: Record)
    requires ByKey(front, shown) && ByAppearance(front, shown) && InOrder(front + [x]) && !HasKey(shown, EntityKey(x))
    ensures ByAppearance(front + [x], shown + [x])
  {
    hide EntityKey, FirstBefore, InOrder, HasKey;
    var more := shown + [x];
    forall j, k | 0 <= j < k < |more|
      ensures FirstBefore(front + [x], EntityKey(more[j]), EntityKey(more[k]))
    {
      if k < |shown| {
        StillFirst(front, x, EntityKey(shown[j]), EntityKey(shown[k]));
      } else {
        assert IsLatestOf(front, shown[j]);
        NewIsLast(front, x, shown[j]);
      }
    }
  }

  /** One record more. */
  lemma LatestByKeyStep(front: seq<Record>, x: Record)
    requires InOrder(front + [x])
    requires ByKey(front, LatestByKey(front)) && ByAppearance(front, LatestByKey(front))
    ensures ByKey(front + [x], LatestByKey(front + [x])) && ByAppearance(front + [x], LatestByKey(front + [x]))
  {
    var own, shown := front + [x], LatestByKey(front);
    assert own[..|front|] == front && own[|front|] == x;
    var i := IndexOfKey(shown, EntityKey(x));
    IndexIsFirst(shown, EntityKey(x));
    hide EntityKey, ByKey, ByAppearance, InOrder, IndexOfKey;
    if i < |shown| {
      ReplacedByKey(front, shown, i, x);
      ReplacedByAppearance(front, shown, i, x);
    } else {
      assert !HasKey(shown, EntityKey(x));
      hide HasKey;
      AddedByKey(front, shown, x);
      AddedByAppearance(front, shown, x);
    }
  }

  lemma {:induction false} LatestByKeyIs(own: seq<Record>)
    requires InOrder(own)
    ensures ByKey(own, LatestByKey(own)) && ByAppearance(own, LatestByKey(own))
  {
    if own != [] {
      hide *;
      var n := |own| - 1;
      var front, x := own[..n], own[n];
      assert own == front + [x];
      Precedes(front, x);
      LatestByKeyIs(front);
      LatestByKeyStep(front, x);
    }
  }

  // ----- the replay -----

  lemma SameKeys()
    ensures forall a: Record, b: Record :: EntityKey(a) == EntityKey(b) <==> SameEntity(a, b)
  {
    forall a: Record, b: Record
      ensures EntityKey(a) == EntityKey(b) <==> SameEntity(a, b)
    {
      SameKey(a, b);
    }
  }

  /** The states of a turn, of a request and of a response are all of one session. */
  lemma EntityIsOwn(records: seq<Record>, id: string, kind: Kind, a: Record, b: Record)
    requires WellFormed(records) && IsOwn(records, id, kind, a) && b in records && SameEntity(a, b)
    requires kind in {TurnKind, RequestKind, ResponseKind}
    ensures IsOwn(records, id, kind, b)
  {
    assert Normalized(a) && Normalized(b);
  }

  lemma OwnAreThere(records: seq<Record>, id: string, kind: Kind)
    ensures forall r :: IsOwn(records, id, kind, r) ==> r in records
  {
  }

  /** The records of the session of this kind, with all there is of their entities. */
  ghost predicate IsPart(records: seq<Record>, id: string, kind: Kind, own: seq<Record>) {
    && (forall r :: r in own <==> IsOwn(records, id, kind, r))
    && (forall r :: r in own ==> r in records)
    && (forall a, b :: a in own && b in records && SameEntity(a, b) ==> b in own)
  }

  lemma NewestOfPart(records: seq<Record>, id: string, kind: Kind, own: seq<Record>, s: Record)
    requires IsPart(records, id, kind, own) && IsLatestOf(own, s)
    ensures IsOwn(records, id, kind, s) && IsNewest(records, s)
  {
    SameKeys();
    hide EntityKey, SameEntity, IsOwn;
  }

  lemma EachOfPart(records: seq<Record>, id: string, kind: Kind, own: seq<Record>, shown: seq<Record>, r: Record)
    requires IsPart(records, id, kind, own) && ByKey(own, shown) && IsOwn(records, id, kind, r)
    ensures exists i :: 0 <= i < |shown| && SameEntity(shown[i], r)
  {
    SameKeys();
    hide EntityKey, SameEntity, IsOwn, IsLatestOf, NoKeyTwice;
    var i :| 0 <= i < |shown| && EntityKey(shown[i]) == EntityKey(r);
  }

  lemma NoEntityTwice(shown: seq<Record>)
    requires NoKeyTwice(shown)
    ensures forall i, j :: 0 <= i < j < |shown| ==> !SameEntity(shown[i], shown[j])
  {
    SameKeys();
    hide EntityKey, SameEntity;
  }

  lemma AppearsIn(records: seq<Record>, id: string, kind: Kind, own: seq<Record>, a: Record, b: Record)
    requires FirstBefore(own, EntityKey(a), EntityKey(b)) && IsOwn(records, id, kind, b)
    requires IsPart(records, id, kind, own)
    ensures AppearsBefore(records, a, b)
  {
    SameKeys();
    hide EntityKey, SameEntity, IsOwn;
    var q :| q in own && EntityKey(q) == EntityKey(a)
      && forall p :: p in own && EntityKey(p) == EntityKey(b) ==> q.sequence < p.sequence;
    forall p | p in records && SameEntity(p, b)
      ensures q.sequence < p.sequence
    {
      assert SameEntity(b, p);
    }
    assert ComesBefore(records, q, b);
  }

  /** What stands for the records of the session stands for the ledger. */
  lemma ShownIsRight(records: seq<Record>, id: string, kind: Kind, own: seq<Record>, shown: seq<Record>)
    requires IsPart(records, id, kind, own) && ByKey(own, shown) && ByAppearance(own, shown)
    ensures ShowsNewest(records, id, kind, shown)
  {
    NoEntityTwice(shown);
    hide EntityKey, SameEntity, IsOwn, IsNewest, IsPart, AppearsBefore, IsLatestOf, NoKeyTwice, FirstBefore, HasKey;
    forall i | 0 <= i < |shown|
      ensures IsOwn(records, id, kind, shown[i]) && IsNewest(records, shown[i])
    {
      NewestOfPart(records, id, kind, own, shown[i]);
    }
    forall r | IsOwn(records, id, kind, r)
      ensures exists i :: 0 <= i < |shown| && SameEntity(shown[i], r)
    {
      EachOfPart(records, id, kind, own, shown, r);
    }
    forall i, j | 0 <= i < j < |shown|
      ensures AppearsBefore(records, shown[i], shown[j])
    {
      AppearsIn(records, id, kind, own, shown[i], shown[j]);
    }
  }

  lemma NewestAreShown(records: seq<Record>, id: string, kind: Kind)
    requires WellFormed(records) && kind in {TurnKind, RequestKind, ResponseKind}
    ensures ShowsNewest(records, id, kind, LatestByKey(OwnOfKind(records, id, kind)))
  {
    var own := OwnOfKind(records, id, kind);
    OwnIs(records, id, kind);
    LatestByKeyIs(own);
    forall a, b | IsOwn(records, id, kind, a) && b in records && SameEntity(a, b)
      ensures b in own
    {
      EntityIsOwn(records, id, kind, a, b);
    }
    OwnAreThere(records, id, kind);
    hide WellFormed, OwnOfKind, LatestByKey, EntityKey, SameEntity, IsOwn, InOrder, ByKey, ByAppearance, ShowsNewest;
    ShownIsRight(records, id, kind, own, LatestByKey(own));
  }

  lemma {:induction false} CursorIsNext(events: seq<Record>)
    ensures IsNextCursor(events, NextCursor(events))
  {
    if events != [] {
      var n := |events| - 1;
      CursorIsNext(events[..n]);
      CursorMore(events[..n], events[n], NextCursor(events[..n]));
      assert events == events[..n] + [events[n]];
      hide IsNextCursor;
    }
  }

  lemma RoutesAre(records: seq<Record>, id: string)
    requires InOrder(records)
    ensures InOrder(RoutesOf(records, id))
    ensures forall r :: r in RoutesOf(records, id) <==> IsRouteOf(records, id, r)
  {
    WhereInOrder(records, (r: Record) => RoutesFor(r, id, TasksOf(records, id)));
    WhereMembers(records, (r: Record) => RoutesFor(r, id, TasksOf(records, id)));
    TasksMembers(records, id);
    hide InOrder, TasksOf;
  }

  lemma LedgerInOrder(records: seq<Record>)
    requires WellFormed(records)
    ensures InOrder(records)
  {
  }

  lemma NewestSession(records: seq<Record>, id: string)
    requires InOrder(records)
    ensures
      var sessions := OwnOfKind(records, id, SessionKind);
      && (sessions == [] ==> forall r :: !IsOwn(records, id, SessionKind, r))
      && (sessions != [] ==>
           var s := sessions[|sessions| - 1];
           IsOwn(records, id, SessionKind, s)
           && forall r :: IsOwn(records, id, SessionKind, r) ==> r.sequence <= s.sequence)
  {
    OwnIs(records, id, SessionKind);
    var sessions := OwnOfKind(records, id, SessionKind);
    hide OwnOfKind, IsOwn;
    if sessions != [] {
      assert sessions[|sessions| - 1] in sessions;
    }
  }

  /** The replay of a session shows its newest record; of each of its turns, requests and responses the newest
      record, once; and all its events, evidence and route decisions. */
  lemma ReplayIsRight(records: seq<Record>, id: string)
    requires WellFormed(records)
    ensures ShowsSession(records, id, ReplaySession(records, id))
  {
    LedgerInOrder(records);
    NewestSession(records, id);
    OwnIs(records, id, RuntimeEventKind);
    OwnIs(records, id, EvidenceKind);
    CursorIsNext(OwnOfKind(records, id, RuntimeEventKind));
    RoutesAre(records, id);
    NewestAreShown(records, id, TurnKind);
    NewestAreShown(records, id, RequestKind);
    NewestAreShown(records, id, ResponseKind);
    hide WellFormed, InOrder, IsOwn, OwnOfKind, RoutesOf, LatestByKey, ShowsNewest, NextCursor, IsNextCursor, IsRouteOf;
  }

  // ----- the control view -----

  /** The active turns are the newest states of turns that have not ended. */
  lemma ActiveTurnsAre(records: seq<Record>, r: Record)
    requires WellFormed(records)
    ensures r in ActiveTurns(records) <==> IsNewest(records, r) && r.payload.Turn? && !r.payload.terminal
  {
    NewestIsLatest(records, r);
    LatestIsNewest(records);
    hide WellFormed, Latest, EntityKey, IsNewest;
  }

  /** The pending approvals are the requests without a response. */
  lemma PendingApprovalsAre(records: seq<Record>, r: Record)
    requires WellFormed(records)
    ensures r in PendingApprovals(records) <==>
      && r in records && r.payload.ApprovalRequest?
      && !IsAnswered(records, r.payload.session, r.payload.turn, r.payload.request)
  {
    if r.payload.ApprovalRequest? {
      AnsweredIsLatest(records, r.payload.session, r.payload.turn, r.payload.request);
    }
    hide WellFormed, Latest, IsAnswered;
  }
}
