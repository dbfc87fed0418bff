/** Accounting of the turns in flight: in total, by profile, by provider and by session. */
module ActiveTurns {
  import opened Wrappers

  const MAX_SAFE_INTEGER := 0x1F_FFFF_FFFF_FFFF

  datatype Snapshot = Snapshot(
    total: int, byProfile: map<string, int>, byProvider: map<string, int>, bySession: map<string, int>)

  const EMPTY := Snapshot(0, map[], map[], map[])

  /** Where a turn is counted. */
  datatype Owner = Owner(profile: string, provider: string, session: Option<string>)

  /** One of the counts of a snapshot. */
  datatype Bucket = Total | OfProfile(profile: string) | OfProvider(provider: string) | OfSession(session: string)

  predicate Holds(o: Owner, b: Bucket) {
    match b
    case Total => true
    case OfProfile(p) => p == o.profile
    case OfProvider(p) => p == o.provider
    case OfSession(s) => o.session == Some(s)
  }

  function Under(counts: map<string, int>, key: string): int {
    if key in counts then counts[key] else 0
  }

  function Count(s: Snapshot, b: Bucket): int {
    match b
    case Total => s.total
    case OfProfile(p) => Under(s.byProfile, p)
    case OfProvider(p) => Under(s.byProvider, p)
    case OfSession(k) => Under(s.bySession, k)
  }

  /** A count that normalizeCount lets pass. */
  predicate IsCount(n: int) {
    0 <= n <= MAX_SAFE_INTEGER
  }

  /** Adds to the counts of an owner. */
  function Shifted(s: Snapshot, o: Owner, step: int): Snapshot {
    Snapshot(
      s.total + step,
      s.byProfile[o.profile := Under(s.byProfile, o.profile) + step],
      s.byProvider[o.provider := Under(s.byProvider, o.provider) + step],
      if o.session.Some? then s.bySession[o.session.value := Under(s.bySession, o.session.value) + step]
      else s.bySession)
  }

  /** incrementActiveTurns; nothing when a count is no count, before or after. */
  function Increment(s: Snapshot, o: Owner, delta: int): (r: Option<Snapshot>)
    ensures r.Some? <==>
      IsCount(delta) && forall b :: Holds(o, b) ==> IsCount(Count(s, b)) && IsCount(Count(s, b) + delta)
    ensures r.Some? ==> forall b :: Count(r.value, b) == Count(s, b) + if Holds(o, b) then delta else 0
  {
    var profile, provider := Under(s.byProfile, o.profile), Under(s.byProvider, o.provider);
    var session := if o.session.Some? then Under(s.bySession, o.session.value) else 0;
    assert Count(s, OfProfile(o.profile)) == profile && Count(s, OfProvider(o.provider)) == provider
      && Count(s, Total) == s.total;
    assert o.session.Some? ==> Count(s, OfSession(o.session.value)) == session;
    if IsCount(delta) && IsCount(profile) && IsCount(profile + delta) && IsCount(provider) && IsCount(provider + delta)
      && (o.session.Some? ==> IsCount(session) && IsCount(session + delta)) && IsCount(s.total)
        && IsCount(s.total + delta)
    then Some(Shifted(s, o, delta)) else None
  }

  /** decrementActiveTurns; nothing when a count is no count, or less than what is taken from it. */
  function Decrement(s: Snapshot, o: Owner, delta: int): (r: Option<Snapshot>)
    ensures r.Some? <==> IsCount(delta) && forall b :: Holds(o, b) ==> IsCount(Count(s, b)) && delta <= Count(s, b)
    ensures r.Some? ==> forall b :: Count(r.value, b) == Count(s, b) - if Holds(o, b) then delta else 0
  {
    var profile, provider := Under(s.byProfile, o.profile), Under(s.byProvider, o.provider);
    var session := if o.session.Some? then Under(s.bySession, o.session.value) else 0;
    assert Count(s, OfProfile(o.profile)) == profile && Count(s, OfProvider(o.provider)) == provider
      && Count(s, Total) == s.total;
    assert o.session.Some? ==> Count(s, OfSession(o.session.value)) == session;
    if IsCount(delta) && IsCount(profile) && IsCount(provider) && (o.session.Some? ==> IsCount(session))
      && IsCount(s.total)
      && profile >= delta && provider >= delta && s.total >= delta && (o.session.Some? ==> session >= delta)
    then Some(Shifted(s, o, -delta)) else None
  }

  // ----- a snapshot from the statuses of profiles -----

  datatype Status = Status(profile: string, provider: string, activeTurns: int)

  /** The turns of the statuses of one provider, or of all. */
  function Sum(statuses: seq<Status>, provider: Option<string>): int {
    if statuses == [] then 0
    else
      var last := statuses[|statuses| - 1];
      Sum(statuses[..|statuses| - 1], provider) +
        if provider.None? || provider.value == last.provider then last.activeTurns else 0
  }

  /** The turns of the last status of a profile. */
  function LastOf(statuses: seq<Status>, profile: string): int {
    if statuses == [] then 0
    else if statuses[|statuses| - 1].profile == profile then statuses[|statuses| - 1].activeTurns
    else LastOf(statuses[..|statuses| - 1], profile)
  }

  /** A status that is no count, or makes a sum that is none. */
  predicate IsTooMuch(statuses: seq<Status>, i: nat)
    requires i < |statuses|
  {
    || !IsCount(statuses[i].activeTurns)
    || Sum(statuses[..i + 1], None) > MAX_SAFE_INTEGER
    || Sum(statuses[..i + 1], Some(statuses[i].provider)) > MAX_SAFE_INTEGER
  }

  /** buildActiveTurnSnapshot; of several statuses of one profile the last is kept, while all of them count
      for the provider and in total. */
  method BuildSnapshot(statuses: seq<Status>) returns (r: Option<Snapshot>)
    ensures r.Some? ==> Count(r.value, Total) == Sum(statuses, None)
    ensures r.Some? ==> forall p :: Count(r.value, OfProvider(p)) == Sum(statuses, Some(p))
    ensures r.Some? ==> forall p :: Count(r.value, OfProfile(p)) == LastOf(statuses, p)
    ensures r.Some? ==> r.value.bySession == map[] && IsCount(r.value.total)
    ensures r.None? <==> exists i: nat :: i < |statuses| && IsTooMuch(statuses, i)
  {
    var s := EMPTY;
    var n := 0;
    while n < |statuses|
      invariant n <= |statuses| && s.bySession == map[] && IsCount(s.total)
      invariant s.total == Sum(statuses[..n], None)
      invariant forall p :: Under(s.byProvider, p) == Sum(statuses[..n], Some(p)) && IsCount(Under(s.byProvider, p))
      invariant forall p :: Under(s.byProfile, p) == LastOf(statuses[..n], p)
      invariant forall i: nat :: i < n ==> !IsTooMuch(statuses, i)
    {
      var t := statuses[n];
      assert statuses[..n + 1][..n] == statuses[..n];
      if !IsCount(t.activeTurns) || !IsCount(Under(s.byProvider, t.provider) + t.activeTurns)
        || !IsCount(s.total + t.activeTurns) {
        assert IsTooMuch(statuses, n);
        return None;
      }
      s := Snapshot(
        s.total + t.activeTurns, s.byProfile[t.profile := t.activeTurns],
        s.byProvider[t.provider := Under(s.byProvider, t.provider) + t.activeTurns], map[]);
      n := n + 1;
    }
    assert statuses[..n] == statuses;
    r := Some(s);
  }

  // ----- accounting -----

  datatype Turn = Turn(owner: Owner, settled: bool)

  /** Every count of the owner is one, and can still rise. */
  ghost predicate HasRoom(s: Snapshot, o: Owner) {
    forall b :: Holds(o, b) ==> IsCount(Count(s, b)) && Count(s, b) < MAX_SAFE_INTEGER
  }

  /** A turn is known by its session, if it has one, and its name. */
  type TurnKey = (Option<string>, string)

  /** The turns of a bucket that are not settled. */
  function Unsettled(turns: map<TurnKey, Turn>, b: Bucket): set<TurnKey> {
    set k | k in turns && !turns[k].settled && Holds(turns[k].owner, b)
  }

  lemma UnsettledBegins(turns: map<TurnKey, Turn>, key: TurnKey, owner: Owner)
    requires key !in turns
    ensures forall b ::
      Unsettled(turns[key := Turn(owner, false)], b) == Unsettled(turns, b) + if Holds(owner, b) then {key} else {}
    ensures forall b :: key !in Unsettled(turns, b)
  {
  }

  class Accounting {
    var current: Snapshot
    var turns: map<TurnKey, Turn>
    const initial: Snapshot

    constructor (snapshot: Snapshot)
      ensures Valid() && initial == snapshot && current == snapshot && turns == map[]
    {
      current, turns, initial := snapshot, map[], snapshot;
      new;
      assert forall b :: Unsettled(turns, b) == {};
    }

    /** Every count is that of the start and the turns not settled; and a count with such turns is one. */
    ghost predicate Valid()
      reads this
    {
      forall b :: Count(current, b) == Count(initial, b) + |Unsettled(turns, b)|
        && (Unsettled(turns, b) != {} ==> 0 <= Count(initial, b) && Count(current, b) <= MAX_SAFE_INTEGER)
    }

    /** Begins a turn that is new and can be counted. */
    method Begin(name: string, owner: Owner) returns (ok: bool)
      requires Valid()
      modifies this
      ensures Valid()
      ensures ok <==> name != "" && (owner.session, name) !in old(turns) && HasRoom(old(current), owner)
      ensures ok ==> turns == old(turns)[(owner.session, name) := Turn(owner, false)]
      ensures ok ==> forall b :: Count(current, b) == Count(old(current), b) + if Holds(owner, b) then 1 else 0
      ensures !ok ==> turns == old(turns) && current == old(current)
    {
      var key := (owner.session, name);
      if name == "" || key in turns {
        return false;
      }
      var next := Increment(current, owner, 1);
      if next.None? {
        return false;
      }
      UnsettledBegins(turns, key, owner);
      hide Unsettled;
      current, turns := next.value, turns[key := Turn(owner, false)];
      ok := true;
    }

    /** Settles a turn; settling it again changes nothing, and a turn that was begun can always be settled. */
    method Settle(name: string, session: Option<string>) returns (ok: bool)
      requires Valid()
      modifies this
      ensures Valid()
      ensures ok <==> (session, name) in old(turns)
      ensures !ok || old(turns)[(session, name)].settled ==> turns == old(turns) && current == old(current)
      ensures ok ==> turns == old(turns)[(session, name) := old(turns)[(session, name)].(settled := true)]
      ensures ok && !old(turns)[(session, name)].settled ==>
        forall b ::
          Count(current, b) == Count(old(current), b) - if Holds(old(turns)[(session, name)].owner, b) then 1 else 0
    {
      var key := (session, name);
      if key !in turns {
        return false;
      }
      var turn := turns[key];
      if !turn.settled {
        forall b | Holds(turn.owner, b)
          ensures IsCount(Count(current, b)) && 1 <= Count(current, b)
        {
          assert key in Unsettled(turns, b);
        }
        var next := Decrement(current, turn.owner, 1);
        ghost var before := turns;
        current, turns := next.value, turns[key := turn.(settled := true)];
        forall b
          ensures Unsettled(turns, b) == Unsettled(before, b) - if Holds(turn.owner, b) then {key} else {}
          ensures Holds(turn.owner, b) ==> key in Unsettled(before, b)
        {
        }
      } else {
        assert turns[key := turn] == turns;
      }
      ok := true;
    }
  }

  // ----- whole runs -----

  datatype Step = BeginTurn(name: string, owner: Owner) | SettleTurn(settled: string, session: Option<string>)

  /** After any run of beginnings and settlements every count is that of the start and the turns that are not
      settled, and once all are settled the counts are those of the start. */
  method Run(a: Accounting, steps: seq<Step>)
    requires a.Valid()
    modifies a
    ensures a.Valid()
    ensures forall b :: Count(a.current, b) == Count(a.initial, b) + |Unsettled(a.turns, b)|
    ensures (forall k :: k in a.turns ==> a.turns[k].settled) ==> forall b :: Count(a.current, b) == Count(a.initial, b)
  {
    var n := 0;
    while n < |steps|
      invariant n <= |steps| && a.Valid()
    {
      match steps[n] {
        case BeginTurn(name, owner) => var _ := a.Begin(name, owner);
        case SettleTurn(name, session) => var _ := a.Settle(name, session);
      }
      n := n + 1;
    }
    assert (forall k :: k in a.turns ==> a.turns[k].settled) ==> forall b :: Unsettled(a.turns, b) == {};
  }

  /** A settled turn leaves no trace in the counts. */
  lemma SettlingUndoesBeginning(s: Snapshot, o: Owner, delta: int)
    requires Increment(s, o, delta).Some?
    ensures Decrement(Increment(s, o, delta).value, o, delta).Some?
    ensures forall b :: Count(Decrement(Increment(s, o, delta).value, o, delta).value, b) == Count(s, b)
  {
    var more := Increment(s, o, delta).value;
    assert forall b :: Holds(o, b) ==> IsCount(Count(more, b)) && delta <= Count(more, b);
    var back := Decrement(more, o, delta);
  }
}
