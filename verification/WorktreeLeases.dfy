/** Worktree leases: the three files the lease manager writes separately, and the durable steps of the
    write-ahead protocol that keeps them together. */
module WorktreeLeases {
  import opened Wrappers

  datatype Mode = ExclusiveWrite | ReadOnly | SequentialContinue

  datatype DirtyState = Clean | Dirty | Unknown

  datatype Holder = Holder(processId: nat, host: string, session: Option<string>, turn: Option<string>)

  datatype LeaseRequest = LeaseRequest(
    taskId: string, repoId: string, branch: string, mode: Mode, allowReuse: bool, ttl: Option<int>)

  datatype Cause = HolderRelease | Reconciliation | Recovery

  datatype ReleaseNote = ReleaseNote(cause: Cause, at: int)

  /** A lease; the path is canonical. */
  datatype Lease = Lease(
    id: string, token: string, repoId: string, path: string, branch: string, mode: Mode, holder: Holder,
    acquiredAt: int, renewedAt: int, expiresAt: int, dirty: DirtyState, release: Option<ReleaseNote>)

  datatype Identity = Identity(device: nat, inode: nat)

  datatype StoredLease = StoredLease(
    lease: Lease, request: LeaseRequest, head: Option<string>, active: bool, updatedAt: int,
    identity: Option<Identity>)

  datatype Operation = AcquireOp | RenewOp | ReleaseOp | RemoveOp

  /** Where a removal stands: it was announced, or it has happened. */
  datatype Removal = Prepared(identity: Identity) | Done(identity: Identity)

  datatype Intent = Intent(recordId: string, record: StoredLease, operation: Operation, removal: Option<Removal>)

  /** Task, repository and branch. */
  type Continuation = (string, string, string)

  datatype Reclamation = Reclamation(leaseIds: set<string>, watermarks: map<Continuation, int>)

  /** The registry file. */
  datatype Registry = Registry(
    records: map<string, StoredLease>, pending: map<string, Intent>, reclamation: Option<Reclamation>,
    reclaimedThrough: map<Continuation, int>)

  /** A lease row of the ledger. */
  datatype Row = Row(recordId: string, lease: Lease)

  datatype Files = Files(registry: Registry, ledger: seq<Row>, active: map<string, Lease>)

  /** A lease that was released, for which task, repository and branch, and when. */
  datatype Release = Release(id: string, key: Continuation, at: int)

  /** What happened so far, as nobody in the system remembers it: every row ever appended, every release
      ever recorded, the latest time used, whether no mutation was dated earlier than one before it,
      whether the active map was written since a removal was last called off that had gone too far, the
      worktrees found gone, and the leases released through a removal. */
  datatype History = History(
    log: seq<Row>, releases: set<Release>, clock: int, orderly: bool, mapped: bool, gone: set<string>,
    removed: set<string>)

  function ContinuationOf(r: LeaseRequest): Continuation {
    (r.taskId, r.repoId, r.branch)
  }

  // ----- the key of the active map -----

  function ModeText(m: Mode): string {
    match m
    case ExclusiveWrite => "exclusive_write"
    case ReadOnly => "read_only"
    case SequentialContinue => "sequential_continue"
  }

  function MapKey(l: Lease): string {
    l.repoId + ":" + l.branch + ":" + ModeText(l.mode)
  }

  predicate IsBranchChar(c: char) {
    'A' <= c <= 'Z' || 'a' <= c <= 'z' || '0' <= c <= '9' || c == '.' || c == '_' || c == '/' || c == '-'
  }

  /** validateBranchName. */
  predicate ValidBranch(name: string) {
    && name != "" && name[0] != '/' && name[|name| - 1] != '/'
    && (forall i :: 0 <= i < |name| ==> IsBranchChar(name[i]))
    && (forall i :: 0 <= i < |name| - 1 ==> !(name[i] == '.' && name[i + 1] == '.'))
  }

  /** A letter, a digit, or one of hyphen, dot, slash and underscore. */
  predicate IsNameChar(c: char) {
    0x41 <= c as int <= 0x5a || 0x61 <= c as int <= 0x7a || 0x2d <= c as int <= 0x39 || c == '_'
  }

  lemma SlashAtEnd(name: string)
    ensures (exists front :: name == front + "/") <==> name != "" && name[|name| - 1] == '/'
  {
    if name != "" && name[|name| - 1] == '/' {
      assert name == name[..|name| - 1] + "/";
    }
  }

  lemma DotsInARow(name: string)
    ensures (exists front, back :: name == front + ".." + back) <==>
      exists i :: 0 <= i < |name| - 1 && name[i] == '.' && name[i + 1] == '.'
  {
    if i :| 0 <= i < |name| - 1 && name[i] == '.' && name[i + 1] == '.' {
      assert name == name[..i] + ".." + name[i + 2..];
    }
    if front, back: string :| name == front + ".." + back {
      assert name[|front|] == '.' && name[|front| + 1] == '.';
    }
  }

  /** A name is refused exactly if it is empty, begins or ends with a slash, has two dots in a row, or has another
      character. */
  lemma RefusedExactly(name: string)
    ensures !ValidBranch(name) <==>
      || name == "" || "/" <= name || (exists front :: name == front + "/")
      || (exists front, back :: name == front + ".." + back) || exists c :: c in name && !IsNameChar(c)
  {
    SlashAtEnd(name);
    DotsInARow(name);
    forall c: char
      ensures IsBranchChar(c) <==> IsNameChar(c)
    {
    }
    hide IsBranchChar, IsNameChar;
  }

  ghost predicate NoColon(s: string) {
    forall i :: 0 <= i < |s| ==> s[i] != ':'
  }

  /** A text is split at its last colon in one way only. */
  lemma LastColon(a: string, b: string, c: string, d: string)
    requires NoColon(b) && NoColon(d)
    requires a + ":" + b == c + ":" + d
    ensures a == c && b == d
  {
    var s := a + ":" + b;
    assert s[|a|] == ':' && s[|c|] == ':';
    assert forall i :: |a| < i < |s| ==> s[i] == b[i - |a| - 1];
    assert forall i :: |c| < i < |s| ==> s[i] == d[i - |c| - 1];
    assert |a| == |c|;
    assert a == s[..|a|] && c == s[..|c|];
    assert b == s[|a| + 1..] && d == s[|c| + 1..];
  }

  /** The key tells repository, branch and mode apart, because a branch name has no colon. */
  lemma MapKeyIsInjective(a: Lease, b: Lease)
    requires ValidBranch(a.branch) && ValidBranch(b.branch) && MapKey(a) == MapKey(b)
    ensures a.repoId == b.repoId && a.branch == b.branch && a.mode == b.mode
  {
    LastColon(a.repoId + ":" + a.branch, ModeText(a.mode), b.repoId + ":" + b.branch, ModeText(b.mode));
    LastColon(a.repoId, a.branch, b.repoId, b.branch);
    assert ModeText(a.mode)[0] == ModeText(b.mode)[0];
  }

  /** With a colon in the branch two different branches can share a key. */
  lemma ColonsWouldCollide(l: Lease)
    ensures exists a: Lease, b: Lease :: MapKey(a) == MapKey(b) && a.branch != b.branch
  {
    var a := l.(repoId := "r", branch := "b:c");
    var b := l.(repoId := "r:b", branch := "c");
    assert MapKey(a) == MapKey(b) && a.branch != b.branch;
  }

  // ----- the rows of the ledger -----

  predicate HasRow(ledger: seq<Row>, recordId: string) {
    exists i :: 0 <= i < |ledger| && ledger[i].recordId == recordId
  }

  ghost predicate DistinctRows(ledger: seq<Row>) {
    forall i, j :: 0 <= i < j < |ledger| ==> ledger[i].recordId != ledger[j].recordId
  }

  // ----- the active map -----

  predicate HasEntry(m: map<string, Lease>, l: Lease) {
    MapKey(l) in m && m[MapKey(l)] == l
  }

  ghost predicate FromActive(records: map<string, StoredLease>, k: string, l: Lease) {
    l.id in records && records[l.id].active && records[l.id].lease == l && MapKey(l) == k
  }

  /** The map holds every active lease under its key, and nothing else. */
  ghost predicate IsActiveMap(m: map<string, Lease>, records: map<string, StoredLease>) {
    && (forall id :: id in records && records[id].active ==> HasEntry(m, records[id].lease))
    && (forall k :: k in m ==> FromActive(records, k, m[k]))
  }

  /** The record of the lease is released, but the active map still has an entry of the lease. */
  predicate IsStale(f: Files, id: string) {
    && id in f.registry.records && !f.registry.records[id].active
    && exists k :: k in f.active && f.active[k].id == id
  }

  /** The active map has an entry of a lease that the registry does not know. */
  predicate InConflict(f: Files) {
    exists k :: k in f.active && f.active[k].id !in f.registry.records && f.active[k].id !in f.registry.pending
  }

  /** At most one map is the active map. */
  lemma ActiveMapIsUnique(m: map<string, Lease>, n: map<string, Lease>, records: map<string, StoredLease>)
    requires IsActiveMap(m, records) && IsActiveMap(n, records)
    ensures m == n
  {
    forall k | k in m
      ensures k in n && m[k] == n[k]
    {
      assert FromActive(records, k, m[k]);
      assert HasEntry(n, records[m[k].id].lease);
    }
    forall k | k in n
      ensures k in m
    {
      assert FromActive(records, k, n[k]);
      assert HasEntry(m, records[n[k].id].lease);
    }
  }

  /** What the records must be like for an active map to exist: no two active leases share a key. */
  ghost predicate Keyable(records: map<string, StoredLease>) {
    && (forall id :: id in records ==> records[id].lease.id == id)
    && (forall i, j :: i in records && j in records && records[i].active && records[j].active && i != j ==>
          MapKey(records[i].lease) != MapKey(records[j].lease))
  }

  ghost function ActiveKeys(records: map<string, StoredLease>): set<string> {
    set id | id in records && records[id].active :: MapKey(records[id].lease)
  }

  ghost function LeaseUnder(records: map<string, StoredLease>, k: string): Lease
    requires k in ActiveKeys(records)
  {
    var id :| id in records && records[id].active && MapKey(records[id].lease) == k;
    records[id].lease
  }

  ghost function ActiveMap(records: map<string, StoredLease>): (m: map<string, Lease>)
    ensures Keyable(records) ==> IsActiveMap(m, records)
  {
    var m := map k | k in ActiveKeys(records) :: LeaseUnder(records, k);
    assert Keyable(records) ==> IsActiveMap(m, records) by {
      if Keyable(records) {
        forall id | id in records && records[id].active
          ensures HasEntry(m, records[id].lease)
        {
          assert MapKey(records[id].lease) in ActiveKeys(records);
        }
      }
    }
    m
  }

  /** The map holds the active leases that are not among the rest. */
  ghost predicate IsMapOf(m: map<string, Lease>, records: map<string, StoredLease>, rest: set<string>) {
    && (forall id :: id in records && id !in rest && records[id].active ==> HasEntry(m, records[id].lease))
    && (forall k :: k in m ==> FromActive(records, k, m[k]) && m[k].id !in rest)
  }

  lemma StartsEmpty(records: map<string, StoredLease>)
    ensures IsMapOf(map[], records, records.Keys)
  {
  }

  lemma MapMore(m: map<string, Lease>, records: map<string, StoredLease>, rest: set<string>, id: string)
    requires Keyable(records) && IsMapOf(m, records, rest) && id in rest && id in records
    ensures !records[id].active ==> IsMapOf(m, records, rest - {id})
    ensures records[id].active ==> IsMapOf(m[MapKey(records[id].lease) := records[id].lease], records, rest - {id})
  {
    hide MapKey;
  }

  lemma MapIsWhole(m: map<string, Lease>, records: map<string, StoredLease>)
    requires IsMapOf(m, records, {})
    ensures IsActiveMap(m, records)
  {
    hide MapKey;
  }

  lemma KeyableHasMap(records: map<string, StoredLease>)
    requires Keyable(records)
    ensures IsActiveMap(ActiveMap(records), records)
  {
  }

  /** Builds the map entry by entry, as applyIntent does. */
  method BuildActiveMap(records: map<string, StoredLease>) returns (m: map<string, Lease>)
    requires Keyable(records)
    ensures IsActiveMap(m, records)
    ensures m == ActiveMap(records)
  {
    hide MapKey, ActiveMap, Keyable, IsMapOf;
    m := map[];
    var rest := records.Keys;
    StartsEmpty(records);
    while rest != {}
      invariant rest <= records.Keys && IsMapOf(m, records, rest)
      decreases |rest|
    {
      var id :| id in rest;
      MapMore(m, records, rest, id);
      rest := rest - {id};
      if records[id].active {
        m := m[MapKey(records[id].lease) := records[id].lease];
      }
    }
    MapIsWhole(m, records);
    KeyableHasMap(records);
    ActiveMapIsUnique(m, ActiveMap(records), records);
  }

  // ----- the durable steps -----

  function WithPending(f: Files, pending: map<string, Intent>): Files {
    f.(registry := f.registry.(pending := pending))
  }

  /** The intent is written to the registry before anything else happens. */
  function Stage(f: Files, intent: Intent): Files {
    WithPending(f, f.registry.pending[intent.record.lease.id := intent])
  }

  function AppendRow(f: Files, intent: Intent): Files {
    if HasRow(f.ledger, intent.recordId) then f
    else f.(ledger := f.ledger + [Row(intent.recordId, intent.record.lease)])
  }

  function StoreRecord(f: Files, intent: Intent): Files {
    f.(registry := f.registry.(records := f.registry.records[intent.record.lease.id := intent.record]))
  }

  ghost function WriteMap(f: Files): Files {
    f.(active := ActiveMap(f.registry.records))
  }

  function Unstage(f: Files, id: string): Files {
    WithPending(f, f.registry.pending - {id})
  }

  /** applyIntent without a crash. */
  ghost function Apply(f: Files, intent: Intent): Files {
    Unstage(WriteMap(StoreRecord(AppendRow(f, intent), intent)), intent.record.lease.id)
  }

  /** applyIntent that crashes after at most three of its durable writes. */
  ghost function ApplyUpTo(f: Files, intent: Intent, writes: nat): Files {
    if writes == 0 then f
    else if writes == 1 then AppendRow(f, intent)
    else if writes == 2 then StoreRecord(AppendRow(f, intent), intent)
    else WriteMap(StoreRecord(AppendRow(f, intent), intent))
  }

  predicate Announced(intent: Intent) {
    intent.removal.Some? && intent.removal.value.Prepared?
  }

  predicate Mismatches(f: Files, intent: Intent) {
    HasRow(f.ledger, intent.recordId) && Row(intent.recordId, intent.record.lease) !in f.ledger
  }

  // ----- replay -----

  /** What replay sees of the path of an announced removal: it is gone and so is the holder process; it is
      there untouched; or neither is certain. */
  datatype Sight = Absent | NoEffect | Uncertain

  /** What the outside world answers during one replay: sights of paths, and which rows the ledger
      refuses to take because it is full. */
  datatype World = World(sight: Intent -> Sight, refuses: Intent -> bool)

  datatype Verdict = Passed | Withdrawn | Applied

  /** What replay does with one intent; a full ledger and a mismatch are passed over. */
  function Judge(f: Files, intent: Intent, w: World): Verdict {
    if Announced(intent) && w.sight(intent).Uncertain? then Passed
    else if Announced(intent) && w.sight(intent).NoEffect? then Withdrawn
    else if Mismatches(f, intent) || (!HasRow(f.ledger, intent.recordId) && w.refuses(intent)) then Passed
    else Applied
  }

  ghost function ReplayOne(f: Files, id: string, w: World): Files {
    if id !in f.registry.pending then f
    else
      match Judge(f, f.registry.pending[id], w)
      case Passed => f
      case Withdrawn => Unstage(f, id)
      case Applied => Apply(f, f.registry.pending[id])
  }

  /** The loop over the pending intents, in the order given. */
  ghost function Replay(f: Files, order: seq<string>, w: World): Files {
    if order == [] then f else ReplayOne(Replay(f, order[..|order| - 1], w), order[|order| - 1], w)
  }
}
