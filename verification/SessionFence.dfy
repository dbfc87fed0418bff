/** The mutation fence of a session: clients of one session that cancel, close and send under an exclusive
    lease, keep what must not be forgotten in a shared store, and may die at any point. */
module SessionFence {
  import opened Wrappers

  /** A cancellation that waits for its proof. */
  datatype Cancellation = Cancellation(turn: string, awaitingIdentity: bool, officials: set<string>)

  /** The shared state of a session. */
  datatype Fence = Fence(cancellation: Option<Cancellation>, closed: bool, closing: bool, rejected: set<string>)

  /** What happened to the session, in order: control events that reached it and were not denied by policy,
      the steps that resolve an interrupt, and the turns that were sent. */
  datatype Event = Interrupted(turn: string) | Stopped | Resolved(turn: string) | Sent(turn: string)

  // ----- what a run must look like -----

  /** No step after this one resolves the interrupt. */
  ghost predicate Open(trace: seq<Event>, i: nat)
    requires i < |trace| && trace[i].Interrupted?
  {
    forall j :: i < j < |trace| ==> trace[j] != Resolved(trace[i].turn)
  }

  /** The interrupt is resolved between the two steps. */
  ghost predicate ResolvedBetween(trace: seq<Event>, i: nat, k: nat)
    requires i < k <= |trace| && trace[i].Interrupted?
  {
    exists j :: i < j < k && trace[j] == Resolved(trace[i].turn)
  }

  /** No turn is sent and no control event follows while an interrupt is unresolved; after a stop no turn is
      sent and nothing is interrupted. */
  ghost predicate Orderly(trace: seq<Event>) {
    forall i: nat, k: nat :: i < k < |trace| ==>
      && (trace[i].Interrupted? && !trace[k].Resolved? ==> ResolvedBetween(trace, i, k))
      && (trace[i].Stopped? ==> trace[k].Stopped?)
  }

  ghost predicate Coherent(f: Fence) {
    f.cancellation.Some? ==> !f.closed && !f.closing
  }

  /** The fence stands for all that is unresolved. */
  ghost predicate Explains(f: Fence, trace: seq<Event>) {
    && (forall i: nat :: i < |trace| && trace[i].Stopped? ==> f.closed || f.closing)
    && (forall i: nat :: i < |trace| && trace[i].Interrupted? && Open(trace, i) ==>
         f.cancellation.Some? && f.cancellation.value.turn == trace[i].turn)
  }

  ghost predicate Sound(f: Fence, trace: seq<Event>) {
    Coherent(f) && Explains(f, trace) && Orderly(trace)
  }

  /** What is kept for good: rejected turns and the end of the session. */
  predicate KeepsPromises(f: Fence, g: Fence) {
    f.rejected <= g.rejected && (f.closed ==> g.closed) && (f.closed || f.closing ==> g.closed || g.closing)
  }

  lemma {:induction false} Extended(trace: seq<Event>, e: Event)
    ensures forall i: nat :: i < |trace| && trace[i].Interrupted? ==>
      (Open(trace + [e], i) <==> Open(trace, i) && e != Resolved(trace[i].turn))
    ensures forall i: nat, k: nat :: i < k <= |trace| && trace[i].Interrupted? ==>
      ResolvedBetween(trace + [e], i, k) == ResolvedBetween(trace, i, k)
    ensures forall i: nat :: i < |trace| && trace[i].Interrupted? ==>
      Open(trace, i) == !ResolvedBetween(trace, i, |trace|)
  {
    var all := trace + [e];
    forall i: nat | i < |trace| && trace[i].Interrupted?
      ensures Open(all, i) <==> Open(trace, i) && e != Resolved(trace[i].turn)
    {
      assert all[|trace|] == e;
      assert forall j :: i < j < |trace| ==> all[j] == trace[j];
    }
    forall i: nat, k: nat | i < k <= |trace| && trace[i].Interrupted?
      ensures ResolvedBetween(all, i, k) == ResolvedBetween(trace, i, k)
    {
      assert forall j :: i < j < k ==> all[j] == trace[j];
    }
  }

  /** A step that is not a resolution may follow when nothing is unresolved, and a stop only stops. */
  lemma MayFollow(trace: seq<Event>, e: Event)
    requires Orderly(trace)
    requires e.Resolved? || forall i: nat :: i < |trace| && trace[i].Interrupted? ==> !Open(trace, i)
    requires e.Stopped? || forall i: nat :: i < |trace| ==> !trace[i].Stopped?
    ensures Orderly(trace + [e])
  {
    Extended(trace, e);
    var all := trace + [e];
    forall i: nat, k: nat | i < k < |all|
      ensures all[i].Interrupted? && !all[k].Resolved? ==> ResolvedBetween(all, i, k)
      ensures all[i].Stopped? ==> all[k].Stopped?
    {
      if k < |trace| {
        assert all[i] == trace[i] && all[k] == trace[k];
      } else {
        assert all[i] == trace[i];
      }
    }
  }

  /** Writing the fence without a step of the session. */
  lemma Rewritten(f: Fence, g: Fence, trace: seq<Event>)
    requires Sound(f, trace) && Coherent(g)
    requires f.closed || f.closing ==> g.closed || g.closing
    requires f.cancellation.Some? ==> g.cancellation.Some? && g.cancellation.value.turn == f.cancellation.value.turn
    ensures Sound(g, trace)
  {
  }

  /** An interrupt goes out behind its fence. */
  lemma Interrupts(f: Fence, trace: seq<Event>, before: Fence)
    requires Sound(before, trace) && before.cancellation.None? && !before.closed && !before.closing
    requires Coherent(f) && f.cancellation.Some?
    ensures Sound(f, trace + [Interrupted(f.cancellation.value.turn)])
  {
    Extended(trace, Interrupted(f.cancellation.value.turn));
    MayFollow(trace, Interrupted(f.cancellation.value.turn));
  }

  lemma Stops(f: Fence, trace: seq<Event>)
    requires Sound(f, trace) && f.cancellation.None? && (f.closed || f.closing)
    ensures Sound(f, trace + [Stopped])
  {
    Extended(trace, Stopped);
    MayFollow(trace, Stopped);
  }

  lemma Sends(f: Fence, trace: seq<Event>, turn: string)
    requires Sound(f, trace) && f.cancellation.None? && !f.closed && !f.closing
    ensures Sound(f, trace + [Sent(turn)])
  {
    Extended(trace, Sent(turn));
    MayFollow(trace, Sent(turn));
  }

  /** The proof of a cancellation takes its fence down. */
  lemma Resolves(f: Fence, g: Fence, trace: seq<Event>)
    requires Sound(f, trace) && f.cancellation.Some? && g.cancellation.None?
    ensures Sound(g, trace + [Resolved(f.cancellation.value.turn)])
  {
    Extended(trace, Resolved(f.cancellation.value.turn));
    MayFollow(trace, Resolved(f.cancellation.value.turn));
  }

  // ----- the shared session -----

  class Session {
    var fence: Fence
    ghost var trace: seq<Event>

    constructor ()
      ensures Valid() && trace == [] && fence == Fence(None, false, false, {})
    {
      fence, trace := Fence(None, false, false, {}), [];
    }

    ghost predicate Valid()
      reads this
    {
      Sound(fence, trace)
    }
  }

  // ----- a client -----

  /** The answer to a control event; a lost one may or may not have been acted upon. */
  datatype Reply = Accepted | PolicyDenied | Lost

  /** How sending a turn ends: accepted, perhaps under another name; refused for good, perhaps after it got
      another name; refused for now; or failed on the way. */
  datatype SendReply = Taken(name: Option<string>) | RefusedForGood(name: Option<string>) | RefusedForNow | Failed

  /** An event of the session stream as far as it can prove a cancellation: the names of its turn, whether it
      interrupts the session, and whether it ends its turn as cancelled. */
  datatype Proof = Proof(
    alias: Option<string>, turn: Option<string>, aliasConfirmed: bool, interruption: bool, cancels: bool)

  /** What a client sees while it cancels: the names the turn is known by before and after the control event,
      what the session says, whether the name of the turn is confirmed or becomes so meanwhile, which turn it
      holds active by then, and the events of the stream that arrive while the turn is reserved. */
  datatype CancelSight = CancelSight(
    officials: set<string>, moreOfficials: set<string>, upstreamActive: Option<string>, upstreamPending: set<string>,
    isOfficial: bool, becomesOfficial: bool, activeNow: Option<string>, arriving: seq<Proof>, reply: Reply)

  /** The event proves the cancellation of a turn that is reserved for it. */
  predicate ProvesEarly(reserved: Option<string>, e: Proof) {
    reserved.Some? && (e.interruption || (e.cancels && (e.alias == reserved || e.turn == reserved)))
  }

  predicate SomeProof(turn: string, arriving: seq<Proof>) {
    exists i :: 0 <= i < |arriving| && ProvesEarly(Some(turn), arriving[i])
  }

  /** The turn is the active one, here and upstream, under one of its names, and still is when the control
      event is about to go out. */
  predicate Attributed(turn: string, active: Option<string>, look: CancelSight) {
    var names := {turn} + look.officials;
    && active.Some? && active.value in names
    && (look.upstreamActive.Some? ==> look.upstreamActive.value in names)
    && (look.upstreamActive.None? ==> look.upstreamPending * names != {})
    && look.activeNow.Some? && look.activeNow.value in names
  }

  /** The event interrupts the session, or gives the turn, which is its alias, another name for certain. */
  predicate Identifies(e: Proof, turn: string) {
    e.interruption || (e.aliasConfirmed && e.alias == Some(turn) && e.turn.Some? && e.turn != Some(turn))
  }

  /** The event is about the turn: its alias, or else its name; or it interrupts the session, and this is the one
      turn in quarantine. */
  predicate IsAbout(e: Proof, turn: string, quarantine: set<string>) {
    || e.alias == Some(turn)
    || (e.turn == Some(turn) && (e.alias.Some? ==> e.alias.value !in quarantine))
    || (e.interruption && quarantine == {turn})
  }

  /** The event proves that the turn in quarantine is cancelled. */
  predicate Proves(e: Proof, turn: string, quarantine: set<string>, awaiting: set<string>) {
    turn in quarantine && IsAbout(e, turn, quarantine) && (turn in awaiting ==> Identifies(e, turn))
  }

  /** The shared state lets no turn be sent. */
  predicate IsShut(f: Fence) {
    f.closed || f.closing || f.cancellation.Some?
  }

  /** The fence stands for the turn, waiting for its identity or not, with these names of it; the names are rejected
      for good, and nothing else has changed. */
  predicate StandsFor(f: Fence, before: Fence, turn: string, awaits: bool, names: set<string>) {
    && f.cancellation == Some(Cancellation(turn, awaits, names)) && f.rejected == before.rejected + {turn} + names
    && f.closed == before.closed && f.closing == before.closing
  }

  /** The fence before the interrupt goes out: it waits for the identity of the turn if nobody knows it. */
  predicate IsFenced(turn: string, look: CancelSight, before: Fence, f: Fence) {
    StandsFor(f, before, turn, look.officials == {} && !look.isOfficial, look.officials)
  }

  /** The fence after an interrupt that was accepted but is not proved yet. */
  predicate IsHeld(turn: string, look: CancelSight, before: Fence, f: Fence) {
    var names := look.officials + look.moreOfficials;
    StandsFor(f, before, turn, names == {} && !look.isOfficial, names)
  }

  /** The interrupt was accepted: it is resolved if it was proved meanwhile, and the fence stands for it if not. */
  ghost predicate IsCancelled(turn: string, look: CancelSight, before: Fence, f: Fence, was: seq<Event>,
                              trace: seq<Event>)
  {
    if SomeProof(turn, look.arriving) then
      && f == Fence(None, false, false, before.rejected + {turn} + look.officials + look.moreOfficials)
      && trace == was + [Interrupted(turn), Resolved(turn)]
    else IsHeld(turn, look, before, f) && trace == was + [Interrupted(turn)]
  }

  /** The fence after an interrupt nobody knows the fate of: it waits for the identity unless a name is known. */
  predicate IsInDoubt(turn: string, look: CancelSight, before: Fence, f: Fence) {
    var names := look.officials + look.moreOfficials;
    StandsFor(f, before, turn, names == {}, names)
  }

  /** A client that dies while it cancels leaves the fence as it was, or up, without or with the interrupt out. */
  ghost predicate DiedCancelling(turn: string, look: CancelSight, life: nat, before: Fence, f: Fence, was: seq<Event>,
                                 trace: seq<Event>)
  {
    match life
    case 0 => f == before && trace == was
    case 1 => IsFenced(turn, look, before, f) && trace == was
    case _ => life == 2 && IsFenced(turn, look, before, f) && trace == was + [Interrupted(turn)]
  }

  lemma OneMoreProof(turn: string, arriving: seq<Proof>, i: nat)
    requires i < |arriving|
    ensures SomeProof(turn, arriving[..i + 1]) ==
      (SomeProof(turn, arriving[..i]) || ProvesEarly(Some(turn), arriving[i]))
  {
    var more := arriving[..i + 1];
    assert more[i] == arriving[i];
    if SomeProof(turn, arriving[..i]) {
      var j :| 0 <= j < i && ProvesEarly(Some(turn), arriving[..i][j]);
      assert more[j] == arriving[..i][j];
    }
    if SomeProof(turn, more) {
      var j :| 0 <= j < |more| && ProvesEarly(Some(turn), more[j]);
      assert j < i ==> arriving[..i][j] == more[j];
    }
  }

  /** A quarantine of one turn. */
  lemma SingleTurn(quarantine: set<string>)
    ensures |quarantine| == 1 ==> exists turn :: quarantine == {turn}
    ensures forall turn :: quarantine == {turn} ==> |quarantine| == 1
  {
    if |quarantine| == 1 {
      var turn :| turn in quarantine;
      assert |quarantine - {turn}| == 0;
      assert quarantine == {turn};
    }
  }

  /** The turn that an event is about, if any, is cancelled unless it awaits its identity in vain. */
  lemma Candidate(e: Proof, quarantine: set<string>, awaiting: set<string>, found: Option<string>)
    requires
      if e.alias.Some? && e.alias.value in quarantine then found == e.alias
      else if e.turn.Some? && e.turn.value in quarantine then found == e.turn
      else if e.interruption && |quarantine| == 1 then found.Some? && found.value in quarantine
      else found.None?
    ensures forall t :: Proves(e, t, quarantine, awaiting) <==>
      found == Some(t) && (t in awaiting ==> Identifies(e, t))
  {
    SingleTurn(quarantine);
    hide Identifies;
  }

  datatype Outcome = Granted | Conflict | Declined | Vanished

  class Client {
    var quarantine: set<string>
    var awaiting: set<string>
    var rejected: set<string>
    var sessionClosed: bool
    var activeTurn: Option<string>
    /** The turn that a cancellation in progress has reserved. */
    var reserved: Option<string>
    /** The cancellation of the reserved turn is proved already. */
    var early: bool
    const allowQueued: bool

    constructor (allowQueued: bool)
      ensures quarantine == awaiting == rejected == {} && !sessionClosed && activeTurn == None && Valid() && fresh(this)
        && this.allowQueued == allowQueued
    {
      this.allowQueued := allowQueued;
      quarantine, awaiting, rejected, sessionClosed, activeTurn := {}, {}, {}, false, None;
      reserved, early := None, false;
    }

    /** Between its operations a client has nothing reserved. */
    predicate Valid()
      reads this
    {
      reserved.None? && !early
    }

    /** If the fence awaits the identity of its turn, then so does the client that has the turn in quarantine. */
    predicate Covers(f: Fence)
      reads this
    {
      f.cancellation.Some? && f.cancellation.value.awaitingIdentity && f.cancellation.value.turn in quarantine ==>
        f.cancellation.value.turn in awaiting
    }

    /** installSharedSessionMutationState: afterwards the quarantine is exactly what the shared state says, and
        the turn awaits its identity if the shared state says so. */
    method Install(f: Fence)
      modifies this
      ensures quarantine == if f.cancellation.Some? then {f.cancellation.value.turn} else {}
      ensures Covers(f)
      ensures forall t :: t in awaiting <==>
        || (t in old(awaiting) && (t in quarantine || t !in old(quarantine)))
        || (t in quarantine && f.cancellation.value.awaitingIdentity)
      ensures rejected == old(rejected) + f.rejected + quarantine
      ensures f.closed ==> sessionClosed && activeTurn.None?
      ensures reserved == old(reserved) && early == old(early)
        && (!f.closed ==> sessionClosed == old(sessionClosed) && activeTurn == old(activeTurn))
    {
      var kept := if f.cancellation.Some? then {f.cancellation.value.turn} else {};
      awaiting := awaiting - (quarantine - kept);
      quarantine := quarantine * kept;
      rejected := rejected + f.rejected;
      if f.closed {
        sessionClosed, activeTurn := true, None;
      }
      if f.cancellation.Some? {
        var turn := f.cancellation.value.turn;
        rejected, quarantine := rejected + {turn}, quarantine + {turn};
        if f.cancellation.value.awaitingIdentity {
          awaiting := awaiting + {turn};
        }
      }
    }

    /** The client itself lets no turn be sent. */
    predicate IsBusy(upstreamBusy: bool)
      reads this
    {
      reserved.Some? || sessionClosed || (!allowQueued && (activeTurn.Some? || upstreamBusy))
    }

    /** sendTurn: the shared state decides before the turn goes out; a turn refused for good is remembered
        there under all its names. */
    method SendTurn(s: Session, turn: string, upstreamBusy: bool, reply: SendReply, life: nat) returns (r: Outcome)
      requires Valid() && s.Valid()
      modifies this, s
      ensures Valid() && s.Valid() && KeepsPromises(old(s.fence), s.fence)
        && s.fence.cancellation == old(s.fence.cancellation) && Covers(s.fence)
      ensures s.trace == old(s.trace) || s.trace == old(s.trace) + [Sent(turn)]
      ensures s.trace != old(s.trace) ==> old(s.fence.cancellation.None? && !s.fence.closed && !s.fence.closing)
      ensures r == Granted ==> s.trace == old(s.trace) + [Sent(turn)] && turn !in rejected
      ensures r == Granted ==> reply.Taken? && activeTurn == if reply.name.Some? then reply.name else Some(turn)
      ensures r == Declined ==> activeTurn == old(activeTurn) && (turn in rejected <==> !reply.Failed?)
      ensures r == Declined && reply.RefusedForGood? && reply.name.Some? ==> reply.name.value in rejected
      ensures s.fence ==
        if r == Declined && reply.RefusedForGood? then old(s.fence).(rejected := old(s.fence.rejected) + {turn} +
          if reply.name.Some? then {reply.name.value} else {})
        else old(s.fence)
      ensures r == Conflict ==> s.fence == old(s.fence) && s.trace == old(s.trace)
      ensures r == Conflict <==> old(IsShut(s.fence)) || old(IsBusy(upstreamBusy))
      ensures r == Vanished <==> r != Conflict && life <= 1
    {
      Install(s.fence);
      if s.fence.closed || s.fence.closing || reserved.Some? || quarantine != {} || sessionClosed {
        return Conflict;
      }
      if !allowQueued && (activeTurn.Some? || upstreamBusy) {
        return Conflict;
      }
      if life == 0 {
        return Vanished;
      }
      var previous := activeTurn;
      rejected := rejected - {turn};
      activeTurn := Some(turn);
      Sends(s.fence, s.trace, turn);
      s.trace := s.trace + [Sent(turn)];
      if life == 1 {
        return Vanished;
      }
      match reply
      case Taken(name) =>
        activeTurn := if name.Some? then name else activeTurn;
        r := Granted;
      case Failed =>
        activeTurn := previous;
        r := Declined;
      case RefusedForNow =>
        rejected, activeTurn := rejected + {turn}, previous;
        r := Declined;
      case RefusedForGood(name) =>
        var names := {turn} + if name.Some? then {name.value} else {};
        rejected := rejected + names;
        activeTurn := previous;
        var noted := s.fence.(
          rejected := s.fence.rejected + {turn} + if name.Some? then {name.value} else {});
        Rewritten(s.fence, noted, s.trace);
        s.fence := noted;
        r := Declined;
    }

    /** consumeCancelledTurnQuarantine: the cancelled turn that the event proves, if any; and whether it proves
        the cancellation in progress. */
    method ConsumeQuarantine(e: Proof) returns (cancelled: Option<string>)
      modifies this
      ensures early == (old(early) || ProvesEarly(old(reserved), e))
      ensures forall t :: cancelled == Some(t) <==> Proves(e, t, old(quarantine), old(awaiting))
      ensures cancelled.None? ==>
        quarantine == old(quarantine) && awaiting == old(awaiting) && rejected == old(rejected)
      ensures cancelled.Some? ==>
        quarantine == old(quarantine) - {cancelled.value} && awaiting == old(awaiting) - {cancelled.value}
          && rejected == old(rejected) + if e.turn.Some? then {e.turn.value} else {}
      ensures reserved == old(reserved) && activeTurn == old(activeTurn) && sessionClosed == old(sessionClosed)
    {
      hide Proves;
      if reserved.Some? && (e.interruption || (e.cancels && (e.alias == reserved || e.turn == reserved))) {
        early := true;
      }
      cancelled := if e.alias.Some? && e.alias.value in quarantine then e.alias
                   else if e.turn.Some? && e.turn.value in quarantine then e.turn else None;
      if cancelled.None? && e.interruption && |quarantine| == 1 {
        var turn :| turn in quarantine;
        cancelled := Some(turn);
      }
      Candidate(e, quarantine, awaiting, cancelled);
      if cancelled.None? {
        return;
      }
      var confirmed := e.aliasConfirmed && e.alias == cancelled && e.turn.Some? && e.turn != cancelled;
      if cancelled.value in awaiting && !e.interruption && !confirmed {
        return None;
      }
      awaiting, quarantine := awaiting - {cancelled.value}, quarantine - {cancelled.value};
      if e.turn.Some? {
        rejected := rejected + {e.turn.value};
      }
    }

    /** The events that arrive while a turn is reserved and nothing else is in quarantine. */
    method TakeIn(turn: string, arriving: seq<Proof>)
      requires reserved == Some(turn) && !early && quarantine == {}
      modifies this
      ensures early == SomeProof(turn, arriving) && reserved == old(reserved) && activeTurn == old(activeTurn)
      ensures quarantine == {} && rejected == old(rejected) && awaiting == old(awaiting)
    {
      for i := 0 to |arriving|
        invariant reserved == old(reserved) && activeTurn == old(activeTurn)
        invariant quarantine == {} && rejected == old(rejected) && awaiting == old(awaiting)
        invariant early == SomeProof(turn, arriving[..i])
      {
        ghost var was := early;
        var cancelled := ConsumeQuarantine(arriving[i]);
        OneMoreProof(turn, arriving, i);
      }
      assert arriving[..|arriving|] == arriving;
    }

    /** retireCancelledTurn, and the session is idle: a turn whose cancellation is not proved goes into quarantine,
        and awaits its identity unless that is known. */
    method Retire(turn: string, names: set<string>, proved: bool, isOfficial: bool)
      modifies this
      ensures reserved == old(reserved) && early == old(early) && rejected == old(rejected) + names
      ensures activeTurn == if old(activeTurn) == Some(turn) then None else old(activeTurn)
      ensures quarantine == if proved then old(quarantine) else old(quarantine) + {turn}
      ensures awaiting == if proved || isOfficial then old(awaiting) else old(awaiting) + {turn}
    {
      rejected := rejected + names;
      if !proved {
        quarantine := quarantine + {turn};
        awaiting := if isOfficial then awaiting else awaiting + {turn};
      }
      if activeTurn == Some(turn) {
        activeTurn := None;
      }
    }

    /** What follows an interrupt that was accepted. */
    method Conclude(s: Session, turn: string, look: CancelSight, before: Fence, ghost was: seq<Event>)
      requires s.Valid() && reserved == Some(turn) && !early && quarantine == {} && before.rejected <= rejected
      requires IsFenced(turn, look, before, s.fence) && !IsShut(before) && s.trace == was + [Interrupted(turn)]
      modifies this, s
      ensures s.Valid() && IsCancelled(turn, look, before, s.fence, was, s.trace)
      ensures quarantine == if SomeProof(turn, look.arriving) then {} else {turn}
      ensures !SomeProof(turn, look.arriving) ==> look.isOfficial || look.becomesOfficial || turn in awaiting
      ensures before.rejected <= s.fence.rejected <= rejected
      ensures activeTurn == if old(activeTurn) == Some(turn) then None else old(activeTurn)
      ensures !look.becomesOfficial ==> Covers(s.fence)
    {
      hide Sound, SomeProof, ProvesEarly;
      var officials := look.officials + look.moreOfficials;
      var all := before.rejected + {turn} + officials;
      TakeIn(turn, look.arriving);
      if early {
        var down := Fence(None, before.closed, false, all);
        Resolves(s.fence, down, s.trace);
        assert s.trace + [Resolved(turn)] == was + [Interrupted(turn), Resolved(turn)];
        s.fence, s.trace := down, s.trace + [Resolved(turn)];
      } else if officials == {} {
        assert look.officials == officials;
      } else {
        var held := before.(cancellation := Some(Cancellation(turn, false, officials)), rejected := all);
        Rewritten(s.fence, held, s.trace);
        s.fence := held;
      }
      Retire(turn, all, early, look.isOfficial || look.becomesOfficial);
    }

    /** cancelTurnWithExclusiveLease: the fence that stands in the end, wherever that is. */
    method CancelReserved(s: Session, turn: string, look: CancelSight, life: nat) returns (r: Outcome)
      requires reserved == Some(turn) && !early && s.Valid()
      modifies this, s
      ensures s.Valid() && KeepsPromises(old(s.fence), s.fence)
      ensures r == Conflict ==> s.fence == old(s.fence) && s.trace == old(s.trace)
      ensures r == Conflict <==> old(IsShut(s.fence)) || !Attributed(turn, old(activeTurn), look)
      ensures r == Granted ==> look.reply == Accepted
      ensures r == Vanished <==> r != Conflict && (life <= 1 || (life == 2 && look.reply != PolicyDenied))
      ensures r == Granted ==>
        IsCancelled(turn, look, old(s.fence), s.fence, old(s.trace), s.trace) && s.fence.rejected <= rejected
      ensures r == Granted ==> quarantine == if SomeProof(turn, look.arriving) then {} else {turn}
      ensures r == Granted && !SomeProof(turn, look.arriving) ==>
        look.isOfficial || look.becomesOfficial || turn in awaiting
      ensures r == Granted ==> activeTurn == if old(activeTurn) == Some(turn) then None else old(activeTurn)
      ensures r == Declined && look.reply == PolicyDenied ==> s.fence == old(s.fence) && s.trace == old(s.trace)
      ensures r == Declined ==> look.reply == PolicyDenied || look.reply == Lost
      ensures r == Declined && look.reply == Lost ==>
        IsInDoubt(turn, look, old(s.fence), s.fence) && s.trace == old(s.trace) + [Interrupted(turn)]
      ensures r == Vanished ==> DiedCancelling(turn, look, life, old(s.fence), s.fence, old(s.trace), s.trace)
      ensures !look.becomesOfficial || s.fence == old(s.fence) ==> Covers(s.fence)
      ensures s.trace != old(s.trace) && s.fence.cancellation.None? ==> SomeProof(turn, look.arriving)
      ensures old(s.trace) <= s.trace
    {
      hide Sound, SomeProof, ProvesEarly;
      var before := s.fence;
      Install(before);
      if before.closed || before.closing || before.cancellation.Some? {
        return Conflict;
      }
      var names := {turn} + look.officials;
      if activeTurn.None? || activeTurn.value !in names {
        return Conflict;
      }
      if look.upstreamActive.Some? && look.upstreamActive.value !in names {
        return Conflict;
      }
      if look.upstreamActive.None? && look.upstreamPending !! names {
        return Conflict;
      }
      if look.activeNow.None? || look.activeNow.value !in names {
        return Conflict;
      }
      if life == 0 {
        return Vanished;
      }
      var up := before.(
        cancellation := Some(Cancellation(turn, !look.isOfficial && look.officials == {}, look.officials)),
        rejected := before.rejected + {turn} + look.officials);
      Rewritten(before, up, s.trace);
      s.fence := up;
      if life == 1 || look.reply == PolicyDenied {
        if life > 1 {
          s.fence := before;
        }
        return if life == 1 then Vanished else Declined;
      }
      Interrupts(up, s.trace, before);
      s.trace := s.trace + [Interrupted(turn)];
      if life == 2 {
        return Vanished;
      }
      if look.reply == Lost {
        var officials := look.officials + look.moreOfficials;
        var held := before.(
          cancellation := Some(Cancellation(turn, officials == {}, officials)),
          rejected := before.rejected + {turn} + officials);
        Rewritten(up, held, s.trace);
        s.fence := held;
        return Declined;
      }
      Conclude(s, turn, look, before, old(s.trace));
      r := Granted;
    }

    /** cancelTurn: the turn is reserved while the cancellation is in progress. The fence goes up before the
        interrupt goes out, and comes down again only when policy denied the interrupt or its proof arrived. */
    method CancelTurn(s: Session, turn: string, look: CancelSight, life: nat) returns (r: Outcome)
      requires s.Valid() && (early ==> reserved.Some?)
      modifies this, s
      ensures s.Valid() && KeepsPromises(old(s.fence), s.fence)
      ensures reserved == old(reserved) && (early ==> reserved.Some?)
      ensures r == Conflict ==> s.fence == old(s.fence) && s.trace == old(s.trace)
      ensures r == Conflict <==>
        old(reserved).Some? || old(IsShut(s.fence)) || !Attributed(turn, old(activeTurn), look)
      ensures r == Granted ==> look.reply == Accepted
      ensures r == Vanished <==> r != Conflict && (life <= 1 || (life == 2 && look.reply != PolicyDenied))
      ensures r == Granted ==>
        IsCancelled(turn, look, old(s.fence), s.fence, old(s.trace), s.trace) && s.fence.rejected <= rejected
      ensures r == Granted ==> quarantine == if SomeProof(turn, look.arriving) then {} else {turn}
      ensures r == Granted && !SomeProof(turn, look.arriving) ==>
        look.isOfficial || look.becomesOfficial || turn in awaiting
      ensures r == Granted ==> activeTurn == if old(activeTurn) == Some(turn) then None else old(activeTurn)
      ensures r == Declined && look.reply == PolicyDenied ==> s.fence == old(s.fence) && s.trace == old(s.trace)
      ensures r == Declined ==> look.reply == PolicyDenied || look.reply == Lost
      ensures r == Declined && look.reply == Lost ==>
        IsInDoubt(turn, look, old(s.fence), s.fence) && s.trace == old(s.trace) + [Interrupted(turn)]
      ensures r == Vanished ==> DiedCancelling(turn, look, life, old(s.fence), s.fence, old(s.trace), s.trace)
      ensures old(reserved).None? && (!look.becomesOfficial || s.fence == old(s.fence)) ==> Covers(s.fence)
      ensures s.trace != old(s.trace) && s.fence.cancellation.None? ==> SomeProof(turn, look.arriving)
      ensures old(s.trace) <= s.trace
    {
      hide Sound, SomeProof, Attributed, IsCancelled, IsInDoubt, DiedCancelling;
      if reserved.Some? {
        return Conflict;
      }
      reserved := Some(turn);
      r := CancelReserved(s, turn, look, life);
      reserved, early := None, false;
    }

    /** closeSession: the session is marked as closing before the stop goes out; only a denial by policy
        takes the mark back. */
    method CloseSession(s: Session, reply: Reply, life: nat) returns (r: Outcome)
      requires Valid() && s.Valid()
      modifies this, s
      ensures Valid() && s.Valid() && KeepsPromises(old(s.fence), s.fence)
      ensures r == Conflict ==> s.fence == old(s.fence) && s.trace == old(s.trace)
      ensures old(s.fence.cancellation.Some?) <==> r == Conflict
      ensures s.trace == old(s.trace) || s.trace == old(s.trace) + [Stopped]
      ensures r == Granted ==>
        s.fence == old(s.fence).(closed := true, closing := s.fence.closing)
          && (old(s.fence.closed) || !s.fence.closing)
      ensures r == Declined && reply == PolicyDenied ==> s.fence == old(s.fence) && s.trace == old(s.trace)
      ensures r == Declined && reply == Lost ==> s.fence.closing && s.trace == old(s.trace) + [Stopped]
      ensures r == Granted ==> s.trace == if old(s.fence.closed) then old(s.trace) else old(s.trace) + [Stopped]
      ensures r == Granted ==> (old(s.fence.closed) || reply == Accepted) && sessionClosed && activeTurn.None?
      ensures r == Declined ==> reply == PolicyDenied || reply == Lost
      ensures r == Vanished <==>
        r != Conflict && !old(s.fence.closed) && (life <= 1 || (life == 2 && reply != PolicyDenied))
      ensures r == Vanished ==>
        && s.fence == (if life == 0 then old(s.fence) else old(s.fence).(closing := true))
        && s.trace == if life < 2 then old(s.trace) else old(s.trace) + [Stopped]
      ensures Covers(s.fence)
    {
      var before := s.fence;
      Install(before);
      if before.cancellation.Some? {
        return Conflict;
      }
      if before.closed {
        return Granted;
      }
      if life == 0 {
        return Vanished;
      }
      var marked := before.(closing := true);
      Rewritten(before, marked, s.trace);
      s.fence := marked;
      if life == 1 {
        return Vanished;
      }
      if reply == PolicyDenied {
        s.fence := before;
        return Declined;
      }
      Stops(marked, s.trace);
      s.trace := s.trace + [Stopped];
      if life == 2 {
        return Vanished;
      }
      if reply == Lost {
        return Declined;
      }
      var shut := before.(closing := false, closed := true);
      Rewritten(marked, shut, s.trace);
      s.fence := shut;
      sessionClosed, activeTurn := true, None;
      r := Granted;
    }

    /** A stream event that proves a cancellation takes the shared fence down, if it still stands for that
        turn (resolveSharedCancellationFence). */
    method ObserveProof(s: Session, e: Proof, life: nat) returns (r: Outcome)
      requires Valid() && s.Valid()
      modifies this, s
      ensures Valid() && s.Valid() && KeepsPromises(old(s.fence), s.fence)
      ensures s.trace != old(s.trace) ==>
        old(s.fence.cancellation).Some? && s.trace == old(s.trace) + [Resolved(old(s.fence.cancellation).value.turn)]
      ensures s.trace != old(s.trace) ==>
        s.fence.cancellation.None? && old(s.fence.cancellation.value.turn in quarantine)
      ensures s.trace == old(s.trace) ==> s.fence == old(s.fence)
      ensures (r == Vanished ==> life == 0) && (r == Granted <==> s.trace != old(s.trace))
      ensures r == Granted ==>
        s.fence == Fence(None, old(s.fence.closed), false,
          old(s.fence.rejected) + {old(s.fence.cancellation.value.turn)} + if e.turn.Some? then {e.turn.value} else {})
      ensures r == Granted <==>
        && life > 0 && old(s.fence.cancellation).Some?
        && Proves(e, old(s.fence.cancellation).value.turn, old(quarantine), old(awaiting))
      ensures r == Granted && old(Covers(s.fence)) && old(s.fence.cancellation.value.awaitingIdentity) ==>
        Identifies(e, old(s.fence.cancellation.value.turn))
      ensures old(Covers(s.fence)) ==> Covers(s.fence)
    {
      var cancelled := ConsumeQuarantine(e);
      if cancelled.None? || s.fence.cancellation.None? || s.fence.cancellation.value.turn != cancelled.value {
        return Conflict;
      }
      if life == 0 {
        return Vanished;
      }
      var down :=
        Fence(None, s.fence.closed, false,
          s.fence.rejected + {cancelled.value} + if e.turn.Some? then {e.turn.value} else {});
      Resolves(s.fence, down, s.trace);
      s.fence, s.trace := down, s.trace + [Resolved(cancelled.value)];
      r := Granted;
    }

    /** A pending input that the session takes up although its turn was rejected puts the fence up again
        (reopenSharedCancellationFence). */
    method ObserveConsumed(s: Session, pending: string, life: nat) returns (r: Outcome)
      requires Valid() && s.Valid()
      modifies this, s
      ensures Valid() && s.Valid() && KeepsPromises(old(s.fence), s.fence) && s.trace == old(s.trace)
      ensures r == Conflict ==> s.fence == old(s.fence)
      ensures r == Granted ==>
        s.fence.cancellation == Some(Cancellation(pending, true, {})) && old(s.fence.cancellation.None?)
      ensures pending !in old(rejected) + old(quarantine) ==> s.fence == old(s.fence)
      ensures r == Conflict <==>
        pending !in old(rejected) + old(quarantine)
          || old(s.fence.closed || s.fence.closing || s.fence.cancellation.Some?)
      ensures r == Vanished <==> r != Conflict && life == 0
      ensures old(Covers(s.fence)) ==> Covers(s.fence)
    {
      if pending !in rejected && pending !in quarantine {
        return Conflict;
      }
      quarantine, awaiting := quarantine + {pending}, awaiting + {pending};
      if s.fence.closed || s.fence.closing || s.fence.cancellation.Some? {
        return Conflict;
      }
      if life == 0 {
        return Vanished;
      }
      var up := s.fence.(
        cancellation := Some(Cancellation(pending, true, {})), rejected := s.fence.rejected + {pending});
      Rewritten(s.fence, up, s.trace);
      s.fence := up;
      r := Granted;
    }
  }

  // ----- whole runs -----

  datatype Action =
    | DoSend(turn: string, upstreamBusy: bool, reply: SendReply)
    | DoCancel(cancelled: string, look: CancelSight)
    | DoClose(answer: Reply)
    | DoProof(proof: Proof)
    | DoConsumed(pending: string)
    | DoRefresh

  /** An action of one of the clients, and how many of its writes and messages it lives to make. A client
      that dies is replaced by a new one that knows nothing. */
  datatype Slot = Slot(client: nat, action: Action, life: nat)

  lemma PromisesKept(f: Fence, g: Fence, h: Fence)
    ensures KeepsPromises(f, g) && KeepsPromises(g, h) ==> KeepsPromises(f, h)
    ensures KeepsPromises(f, f) && KeepsPromises(g, g)
  {
  }

  /** The action leaves its client with what the shared state says. */
  predicate Refreshes(a: Action) {
    match a
    case DoCancel(_, look) => !look.becomesOfficial
    case DoProof(_) => false
    case DoConsumed(_) => false
    case _ => true
  }

  ghost predicate IsCurrentSince(schedule: seq<Slot>, fences: seq<Fence>, m: nat, n: nat, client: nat)
    requires m < n < |fences| && n <= |schedule|
  {
    && schedule[m].client == client && Refreshes(schedule[m].action)
    && forall k :: m < k < n ==> fences[k] == fences[n]
  }

  /** Since its last such action before this slot the client has the shared state as it is. */
  ghost predicate IsUpToDate(schedule: seq<Slot>, fences: seq<Fence>, n: nat, client: nat)
    requires n < |fences| && n <= |schedule|
  {
    exists m: nat :: m < n && IsCurrentSince(schedule, fences, m, n, client)
  }

  /** A cancellation that stands is only taken down, as a whole, by an event of the stream; and if it awaits the
      identity of its turn and the client that sees the event is up to date, by one that identifies the turn. */
  ghost predicate FallsRightly(schedule: seq<Slot>, fences: seq<Fence>, n: nat)
    requires n < |schedule| && n + 1 < |fences|
  {
    fences[n].cancellation.Some? && fences[n + 1].cancellation != fences[n].cancellation ==>
      && schedule[n].action.DoProof? && fences[n + 1].cancellation == None
      && (fences[n].cancellation.value.awaitingIdentity && IsUpToDate(schedule, fences, n, schedule[n].client) ==>
            Identifies(schedule[n].action.proof, fences[n].cancellation.value.turn))
  }

  /** One more slot: who is up to date then was so before, with the same fence, or has just acted. */
  lemma UpToDateBefore(schedule: seq<Slot>, fences: seq<Fence>, n: nat, g: Fence, client: nat)
    requires n < |schedule| && |fences| == n + 1
    ensures IsUpToDate(schedule, fences + [g], n + 1, client) ==>
      || (schedule[n].client == client && Refreshes(schedule[n].action))
      || (fences[n] == g && IsUpToDate(schedule, fences, n, client))
  {
    var more := fences + [g];
    assert forall k :: 0 <= k <= n ==> more[k] == fences[k];
    if IsUpToDate(schedule, more, n + 1, client) {
      var m: nat :| m < n + 1 && IsCurrentSince(schedule, more, m, n + 1, client);
      if m < n {
        assert more[n] == more[n + 1];
        assert forall k :: m < k < n ==> fences[k] == more[k];
        assert IsCurrentSince(schedule, fences, m, n, client);
      }
    }
  }

  lemma NobodyYet(schedule: seq<Slot>, fences: seq<Fence>)
    requires |fences| == 1
    ensures forall i: nat :: !IsUpToDate(schedule, fences, 0, i)
  {
  }

  lemma FellNow(schedule: seq<Slot>, fences: seq<Fence>, n: nat, g: Fence)
    requires n < |schedule| && |fences| == n + 1
    requires fences[n].cancellation.Some? && g.cancellation != fences[n].cancellation ==>
      && schedule[n].action.DoProof? && g.cancellation == None
      && (fences[n].cancellation.value.awaitingIdentity && IsUpToDate(schedule, fences, n, schedule[n].client) ==>
            Identifies(schedule[n].action.proof, fences[n].cancellation.value.turn))
    ensures FallsRightly(schedule, fences + [g], n)
  {
    var more := fences + [g];
    assert forall k :: 0 <= k <= n ==> more[k] == fences[k];
    if IsUpToDate(schedule, more, n, schedule[n].client) {
      var m: nat :| m < n && IsCurrentSince(schedule, more, m, n, schedule[n].client);
      assert forall k :: m < k < n ==> fences[k] == more[k];
      assert IsCurrentSince(schedule, fences, m, n, schedule[n].client);
    }
    hide IsUpToDate, Identifies;
  }

  /** What has happened stays as it was when more happens. */
  lemma StillFell(schedule: seq<Slot>, fences: seq<Fence>, g: Fence, n: nat)
    requires n < |schedule| && n + 1 < |fences| && FallsRightly(schedule, fences, n)
    ensures FallsRightly(schedule, fences + [g], n)
  {
    var more := fences + [g];
    assert forall k :: 0 <= k <= n + 1 ==> more[k] == fences[k];
    if IsUpToDate(schedule, more, n, schedule[n].client) {
      var m: nat :| m < n && IsCurrentSince(schedule, more, m, n, schedule[n].client);
      assert forall k :: m < k < n ==> fences[k] == more[k];
      assert IsCurrentSince(schedule, fences, m, n, schedule[n].client);
    }
    hide IsUpToDate, Identifies;
  }

  lemma WhatHolds(f: Fence, trace: seq<Event>)
    requires Sound(f, trace)
    ensures Orderly(trace) && Coherent(f)
  {
  }

  /** One action of one client. */
  method Perform(s: Session, c: Client, slot: Slot) returns (r: Outcome)
    requires s.Valid() && c.Valid()
    modifies s, c
    ensures s.Valid() && c.Valid() && KeepsPromises(old(s.fence), s.fence) && old(s.trace) <= s.trace
    ensures Refreshes(slot.action) || (s.fence == old(s.fence) && old(c.Covers(s.fence))) ==> c.Covers(s.fence)
    ensures old(s.fence.cancellation).Some? && s.fence.cancellation != old(s.fence.cancellation) ==>
      && slot.action.DoProof? && s.fence.cancellation == None
      && (old(s.fence.cancellation.value.awaitingIdentity && c.Covers(s.fence)) ==>
            Identifies(slot.action.proof, old(s.fence.cancellation.value.turn)))
  {
    hide Sound, Attributed, IsCancelled, IsInDoubt, DiedCancelling, SomeProof, Proves, Identifies;
    r := Granted;
    match slot.action {
      case DoSend(name, busy, reply) => r := c.SendTurn(s, name, busy, reply, slot.life);
      case DoCancel(name, look) => r := c.CancelTurn(s, name, look, slot.life);
      case DoClose(reply) => r := c.CloseSession(s, reply, slot.life);
      case DoProof(proof) => r := c.ObserveProof(s, proof, slot.life);
      case DoConsumed(pending) => r := c.ObserveConsumed(s, pending, slot.life);
      case DoRefresh => c.Install(s.fence);
    }
  }

  /** Whatever the clients do, in whatever order, and wherever they die: the run is orderly, a cancellation
      never stands beside a closing or closed session, and what was promised is kept. A cancellation that stands
      is taken down rightly. */
  method RunSession(s: Session, clients: array<Client>, schedule: seq<Slot>) returns (ghost fences: seq<Fence>)
    requires s.Valid() && forall i :: 0 <= i < |schedule| ==> schedule[i].client < clients.Length
    requires forall i :: 0 <= i < clients.Length ==> clients[i].Valid()
    modifies s, clients, set i | 0 <= i < clients.Length :: clients[i]
    ensures s.Valid() && Orderly(s.trace) && Coherent(s.fence) && KeepsPromises(old(s.fence), s.fence)
    ensures old(s.trace) <= s.trace
    ensures |fences| == |schedule| + 1 && fences[0] == old(s.fence) && fences[|schedule|] == s.fence
    ensures forall n: nat :: n < |schedule| ==> FallsRightly(schedule, fences, n)
  {
    hide Sound, KeepsPromises, IsUpToDate, Identifies, FallsRightly, Refreshes;
    PromisesKept(s.fence, s.fence, s.fence);
    fences := [s.fence];
    NobodyYet(schedule, fences);
    var n := 0;
    while n < |schedule|
      invariant n <= |schedule| && s.Valid() && KeepsPromises(old(s.fence), s.fence)
      invariant forall i :: 0 <= i < clients.Length ==>
        clients[i] in old(set i | 0 <= i < clients.Length :: clients[i]) || fresh(clients[i])
      invariant old(s.trace) <= s.trace && forall i :: 0 <= i < clients.Length ==> clients[i].Valid()
      invariant |fences| == n + 1 && fences[0] == old(s.fence) && fences[n] == s.fence
      invariant forall i: nat :: i < n ==> FallsRightly(schedule, fences, i)
      invariant forall i: nat :: i < clients.Length && IsUpToDate(schedule, fences, n, i) ==>
        clients[i].Covers(s.fence)
    {
      var slot := schedule[n];
      var c := clients[slot.client];
      ghost var before := s.fence;
      var r := Perform(s, c, slot);
      PromisesKept(old(s.fence), before, s.fence);
      ghost var more := fences + [s.fence];
      forall i: nat | i < clients.Length && IsUpToDate(schedule, more, n + 1, i)
        ensures clients[i].Covers(s.fence)
      {
        UpToDateBefore(schedule, fences, n, s.fence, i);
      }
      forall i: nat | i < n
        ensures FallsRightly(schedule, more, i)
      {
        StillFell(schedule, fences, s.fence, i);
      }
      FellNow(schedule, fences, n, s.fence);
      fences := more;
      if r == Vanished {
        var next := new Client(c.allowQueued);
        clients[slot.client] := next;
      }
      n := n + 1;
    }
    WhatHolds(s.fence, s.trace);
  }
}
