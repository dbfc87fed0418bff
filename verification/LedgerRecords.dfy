/** The records of the ledger as far as retention and replay look into them. */
module LedgerRecords {
  import opened Wrappers

  datatype Kind =
    | SessionKind | TurnKind | RuntimeEventKind | RouteDecisionKind | LimitKind | IdentityKind
    | CooldownKind | LeaseKind | RequestKind | ResponseKind | CapabilityKind | EvidenceKind

  /** The fields of each payload that are looked at. Ids are never empty, so that the tests for
      truth in the source are tests for presence. */
  datatype Payload =
    | Session(id: string, closed: bool, parent: Option<string>, root: Option<string>,
              worktree: Option<string>, handoffSources: seq<string>)
    | Turn(session: string, turn: string, terminal: bool)
    | RuntimeEvent(session: string, eventTurn: Option<string>, cursor: nat)
    | RouteDecision(task: string)
    | LimitClassification(limitSession: Option<string>)
    | IdentityStatus(profile: string)
    | Cooldown(provider: string)
    | Lease(lease: string, expiresAt: int, holderSession: Option<string>, holderTurn: Option<string>)
    | ApprovalRequest(session: string, turn: string, request: string)
    | ApprovalResponse(request: string)
    | CapabilitySnapshot
    | EvidenceRef
  {
    function Kind(): Kind {
      match this
      case Session(_, _, _, _, _, _) => SessionKind
      case Turn(_, _, _) => TurnKind
      case RuntimeEvent(_, _, _) => RuntimeEventKind
      case RouteDecision(_) => RouteDecisionKind
      case LimitClassification(_) => LimitKind
      case IdentityStatus(_) => IdentityKind
      case Cooldown(_) => CooldownKind
      case Lease(_, _, _, _) => LeaseKind
      case ApprovalRequest(_, _, _) => RequestKind
      case ApprovalResponse(_) => ResponseKind
      case CapabilitySnapshot => CapabilityKind
      case EvidenceRef => EvidenceKind
    }
  }

  /** One record: its envelope, the fields above, and the rest of its content. */
  datatype Record = Record(
    sequence: int, recordId: string, recordedAt: int,
    sessionId: Option<string>, turnId: Option<string>, taskId: Option<string>,
    payload: Payload, body: string)
  {
    function Kind(): Kind {
      payload.Kind()
    }
  }

  // ----- scope normalisation -----

  function PayloadSession(p: Payload): Option<string> {
    match p
    case Session(id, _, _, _, _, _) => Some(id)
    case Turn(s, _, _) => Some(s)
    case ApprovalRequest(s, _, _) => Some(s)
    case RuntimeEvent(s, _, _) => Some(s)
    case Lease(_, _, s, _) => s
    case LimitClassification(s) => s
    case _ => None
  }

  function PayloadTurn(p: Payload): Option<string> {
    match p
    case Turn(_, t, _) => Some(t)
    case ApprovalRequest(_, t, _) => Some(t)
    case RuntimeEvent(_, t, _) => t
    case Lease(_, _, _, t) => t
    case _ => None
  }

  function PayloadTask(p: Payload): Option<string> {
    if p.RouteDecision? then Some(p.task) else None
  }

  predicate Conflicts(envelope: Option<string>, payload: Option<string>) {
    envelope.Some? && payload.Some? && envelope != payload
  }

  function OrElse(envelope: Option<string>, payload: Option<string>): Option<string> {
    if envelope.Some? then envelope else payload
  }

  /** normalizeLedgerScope: None where it throws. */
  function Normalize(r: Record): Option<Record> {
    if Conflicts(r.sessionId, PayloadSession(r.payload))
      || Conflicts(r.turnId, PayloadTurn(r.payload))
      || Conflicts(r.taskId, PayloadTask(r.payload))
    then None
    else Some(r.(
      sessionId := OrElse(r.sessionId, PayloadSession(r.payload)),
      turnId := OrElse(r.turnId, PayloadTurn(r.payload)),
      taskId := OrElse(r.taskId, PayloadTask(r.payload))))
  }

  /** The envelope repeats whatever scope the payload names. */
  predicate Normalized(r: Record) {
    && (PayloadSession(r.payload).Some? ==> r.sessionId == PayloadSession(r.payload))
    && (PayloadTurn(r.payload).Some? ==> r.turnId == PayloadTurn(r.payload))
    && (PayloadTask(r.payload).Some? ==> r.taskId == PayloadTask(r.payload))
  }

  /** Normalising gives exactly the normalised records, and leaves those as they are. */
  lemma NormalizeGivesNormalized(r: Record)
    ensures Normalize(r).Some? ==> Normalized(Normalize(r).value)
    ensures Normalized(r) <==> Normalize(r) == Some(r)
  {
  }

  /** The scope that a payload names is that of its envelope. */
  lemma NormalizedExactly(r: Record)
    ensures Normalized(r) <==> match r.payload
      case Session(id, _, _, _, _, _) => r.sessionId == Some(id)
      case Turn(s, t, _) => r.sessionId == Some(s) && r.turnId == Some(t)
      case RuntimeEvent(s, t, _) => r.sessionId == Some(s) && (t == None || r.turnId == t)
      case RouteDecision(task) => r.taskId == Some(task)
      case LimitClassification(s) => s == None || r.sessionId == s
      case Lease(_, _, s, t) => (s == None || r.sessionId == s) && (t == None || r.turnId == t)
      case ApprovalRequest(s, t, _) => r.sessionId == Some(s) && r.turnId == Some(t)
      case _ => true
  {
  }

  /** The record with more of its scope filled in. */
  predicate Fills(q: Record, r: Record) {
    && q == r.(sessionId := q.sessionId, turnId := q.turnId, taskId := q.taskId)
    && (r.sessionId == None || q.sessionId == r.sessionId) && (r.turnId == None || q.turnId == r.turnId)
    && (r.taskId == None || q.taskId == r.taskId)
  }

  /** Normalising fills in as little as it takes to be normalised, and fails exactly if that cannot be done. */
  lemma NormalizeExactly(r: Record)
    ensures match Normalize(r)
      case None => forall q :: Fills(q, r) ==> !Normalized(q)
      case Some(n) => Fills(n, r) && Normalized(n) && forall q :: Fills(q, r) && Normalized(q) ==> Fills(q, n)
  {
  }

  /** A ledger as the store hands it out. */
  ghost predicate WellFormed(records: seq<Record>) {
    && (forall i :: 0 <= i < |records| ==> Normalized(records[i]))
    && (forall i, j :: 0 <= i < j < |records| ==>
         records[i].sequence < records[j].sequence && records[i].recordId != records[j].recordId)
  }

  // ----- entities -----

  /** What a record is a state of. Keys are the source's JSON arrays of a tag and its ids. */
  datatype Key =
    | SessionKey(id: string)
    | TurnKey(session: Option<string>, turn: Option<string>)
    | LeaseKey(id: string)
    | RequestKey(session: Option<string>, turn: Option<string>, request: string)
    | ResponseKey(session: Option<string>, turn: Option<string>, request: string)
    | CooldownKey(provider: string)
    | IdentityKey(profile: string)
    | RecordKey(recordId: string)

  function EntityKey(r: Record): Key {
    match r.payload
    case Session(id, _, _, _, _, _) => SessionKey(id)
    case Turn(s, t, _) => TurnKey(Some(s), Some(t))
    case Lease(id, _, _, _) => LeaseKey(id)
    case ApprovalRequest(s, t, q) => RequestKey(Some(s), Some(t), q)
    case ApprovalResponse(q) => ResponseKey(r.sessionId, r.turnId, q)
    case Cooldown(p) => CooldownKey(p)
    case IdentityStatus(p) => IdentityKey(p)
    case _ => RecordKey(r.recordId)
  }

  /** The newest record of every entity. */
  function Latest(records: seq<Record>): map<Key, Record> {
    if records == [] then map[]
    else
      var n := |records| - 1;
      Latest(records[..n])[EntityKey(records[n]) := records[n]]
  }

  lemma {:induction false} LatestIsNewest(records: seq<Record>)
    requires WellFormed(records)
    ensures forall k :: k in Latest(records) ==> Latest(records)[k] in records && EntityKey(Latest(records)[k]) == k
    ensures forall r :: r in records ==>
      EntityKey(r) in Latest(records) && r.sequence <= Latest(records)[EntityKey(r)].sequence
  {
    if records != [] {
      var n := |records| - 1;
      LatestIsNewest(records[..n]);
      assert records == records[..n] + [records[n]];
      assert forall r :: r in records[..n] ==> r.sequence < records[n].sequence;
    }
  }

  /** A sequence names one record. */
  lemma SameSequence(records: seq<Record>, a: Record, b: Record)
    requires WellFormed(records) && a in records && b in records && a.sequence == b.sequence
    ensures a == b
  {
  }

  /** The records whose sequences are kept, in order. */
  function Filter(records: seq<Record>, keep: set<int>): seq<Record> {
    if records == [] then []
    else
      var n := |records| - 1;
      if records[n].sequence in keep then Filter(records[..n], keep) + [records[n]] else Filter(records[..n], keep)
  }

  lemma {:induction false} FilterMembers(records: seq<Record>, keep: set<int>)
    ensures forall r :: r in Filter(records, keep) <==> r in records && r.sequence in keep
  {
    if records != [] {
      var n := |records| - 1;
      FilterMembers(records[..n], keep);
      assert records == records[..n] + [records[n]];
    }
  }

  lemma {:induction false} FilterWellFormed(records: seq<Record>, keep: set<int>)
    requires WellFormed(records)
    ensures WellFormed(Filter(records, keep))
  {
    if records != [] {
      var n := |records| - 1;
      FilterWellFormed(records[..n], keep);
      FilterMembers(records[..n], keep);
      assert forall r :: r in records[..n] ==>
        r.sequence < records[n].sequence && r.recordId != records[n].recordId;
      var kept := Filter(records[..n], keep);
      assert forall i :: 0 <= i < |kept| ==> kept[i] in records[..n];
    }
  }
}
