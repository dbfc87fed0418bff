/** Crash atomicity of the lease mutations: wherever the durable writes are cut off, the next replay ends
    where the run without a crash would have ended. */
module LeaseRecovery {
  import opened WorktreeLeases

  /** Each intent stands under its own lease and has a row identifier of its own. */
  ghost predicate OwnRows(pending: map<string, Intent>) {
    && (forall id :: id in pending ==> pending[id].record.lease.id == id)
    && (forall i, j :: i in pending && j in pending && i != j ==> pending[i].recordId != pending[j].recordId)
  }

  /** The files when the process dies after a number of the writes that replay makes for one intent. */
  ghost function CrashInOne(f: Files, id: string, writes: nat, w: World): Files {
    if id in f.registry.pending && Judge(f, f.registry.pending[id], w).Applied?
    then ApplyUpTo(f, f.registry.pending[id], writes)
    else f
  }

  /** The files when the process dies while replay works on the intent at a position. */
  ghost function CrashInReplay(f: Files, order: seq<string>, j: nat, writes: nat, w: World): Files
    requires j < |order|
  {
    CrashInOne(Replay(f, order[..j], w), order[j], writes, w)
  }

  // ----- the number of writes -----

  /** The writes it takes to apply an intent; a row that is there is not written again. */
  ghost function CostOfApplying(f: Files, intent: Intent): nat {
    if HasRow(f.ledger, intent.recordId) then 3 else 4
  }

  /** The writes that replay makes for one lease. */
  ghost function CostOfOne(f: Files, id: string, w: World): nat {
    if id !in f.registry.pending then 0
    else
      match Judge(f, f.registry.pending[id], w)
      case Passed => 0
      case Withdrawn => 1
      case Applied => CostOfApplying(f, f.registry.pending[id])
  }

  ghost function CostOfReplay(f: Files, order: seq<string>, w: World): nat
    decreases |order|
  {
    if order == [] then 0
    else
      var front := order[..|order| - 1];
      CostOfReplay(f, front, w) + CostOfOne(Replay(f, front, w), order[|order| - 1], w)
  }

  lemma {:induction false} CostGrows(f: Files, order: seq<string>, i: nat, w: World)
    requires i <= |order|
    ensures CostOfReplay(f, order[..i], w) <= CostOfReplay(f, order, w)
    decreases |order|
  {
    if i < |order| {
      var front := order[..|order| - 1];
      CostGrows(f, front, i, w);
      assert front[..i] == order[..i];
    } else {
      assert order[..i] == order;
    }
  }

  /** With nothing pending, replay does nothing. */
  lemma {:induction false} QuietReplay(f: Files, order: seq<string>, w: World)
    requires f.registry.pending == map[]
    ensures Replay(f, order, w) == f && CostOfReplay(f, order, w) == 0
    decreases |order|
  {
    if order != [] {
      QuietReplay(f, order[..|order| - 1], w);
    }
  }

  /** Replay is done with this lease: it has no intent, or one that is passed over. */
  ghost predicate Idle(f: Files, id: string, w: World) {
    id in f.registry.pending ==> Judge(f, f.registry.pending[id], w).Passed?
  }

  /** As far as one lease is concerned, two states look the same to replay. */
  ghost predicate SameView(f: Files, g: Files, id: string) {
    && (id in f.registry.pending <==> id in g.registry.pending)
    && (id in f.registry.pending ==>
          var intent := f.registry.pending[id];
          && g.registry.pending[id] == intent
          && HasRow(f.ledger, intent.recordId) == HasRow(g.ledger, intent.recordId)
          && var row := Row(intent.recordId, intent.record.lease);
             row in f.ledger <==> row in g.ledger)
  }

  lemma SameViewSameJudgement(f: Files, g: Files, id: string, w: World)
    requires SameView(f, g, id)
    ensures Idle(f, id, w) == Idle(g, id, w)
  {
  }

  lemma {:induction false} AppendedRow(ledger: seq<Row>, row: Row)
    ensures forall r: string :: HasRow(ledger + [row], r) == (HasRow(ledger, r) || r == row.recordId)
  {
    var all := ledger + [row];
    forall r: string
      ensures HasRow(all, r) == (HasRow(ledger, r) || r == row.recordId)
    {
      if HasRow(ledger, r) {
        var i :| 0 <= i < |ledger| && ledger[i].recordId == r;
        assert all[i].recordId == r;
      }
      if r == row.recordId {
        assert all[|ledger|].recordId == r;
      }
    }
  }

  lemma AppendElsewhere(f: Files, intent: Intent, id: string)
    requires id in f.registry.pending ==> f.registry.pending[id].recordId != intent.recordId
    ensures SameView(f, AppendRow(f, intent), id)
  {
    AppendedRow(f.ledger, Row(intent.recordId, intent.record.lease));
  }

  /** Writes for one lease do not change what replay sees of another. */
  lemma ApplyElsewhere(f: Files, intent: Intent, writes: nat, id: string)
    requires OwnRows(f.registry.pending)
    requires intent.record.lease.id in f.registry.pending && f.registry.pending[intent.record.lease.id] == intent
    requires id != intent.record.lease.id
    ensures SameView(f, ApplyUpTo(f, intent, writes), id)
    ensures SameView(f, Apply(f, intent), id)
  {
    hide ActiveMap, HasRow;
    AppendElsewhere(f, intent, id);
  }

  /** Some of the writes for an intent do not change what replay will do with it. */
  lemma ApplyInPart(f: Files, intent: Intent, writes: nat, w: World)
    requires Judge(f, intent, w).Applied?
    ensures Judge(ApplyUpTo(f, intent, writes), intent, w).Applied?
    ensures Apply(ApplyUpTo(f, intent, writes), intent) == Apply(f, intent)
    ensures ApplyUpTo(f, intent, writes).registry.pending == f.registry.pending
  {
    hide ActiveMap;
    AppendedRow(f.ledger, Row(intent.recordId, intent.record.lease));
    var a := AppendRow(f, intent);
    assert AppendRow(a, intent) == a;
    assert StoreRecord(StoreRecord(a, intent), intent) == StoreRecord(a, intent);
    var s := StoreRecord(a, intent);
    var m := WriteMap(s);
    assert AppendRow(s, intent) == s;
    assert AppendRow(m, intent) == m;
    assert StoreRecord(m, intent) == m;
    assert WriteMap(m) == m;
  }

  lemma ReplayOneSettles(f: Files, id: string, w: World)
    requires OwnRows(f.registry.pending)
    ensures OwnRows(ReplayOne(f, id, w).registry.pending)
    ensures Idle(ReplayOne(f, id, w), id, w)
  {
    hide ActiveMap, HasRow;
  }

  lemma ReplayElsewhere(f: Files, id: string, other: string, w: World)
    requires OwnRows(f.registry.pending) && other != id
    ensures SameView(f, ReplayOne(f, id, w), other)
  {
    hide Judge, ActiveMap, Apply, HasRow;
    if id in f.registry.pending {
      ApplyElsewhere(f, f.registry.pending[id], 0, other);
    }
  }

  lemma {:induction false} ReplayOwnRows(f: Files, order: seq<string>, w: World)
    requires OwnRows(f.registry.pending)
    ensures OwnRows(Replay(f, order, w).registry.pending)
    decreases |order|
  {
    if order != [] {
      var front := order[..|order| - 1];
      ReplayOwnRows(f, front, w);
      ReplayOneSettles(Replay(f, front, w), order[|order| - 1], w);
    }
  }

  /** After a replay every lease in the order is idle. */
  lemma {:induction false} ReplaySettles(f: Files, order: seq<string>, w: World, i: nat)
    requires OwnRows(f.registry.pending) && i < |order|
    ensures Idle(Replay(f, order, w), order[i], w)
    decreases |order|
  {
    hide Idle, SameView, ReplayOne;
    var front := order[..|order| - 1];
    var last := order[|order| - 1];
    var g := Replay(f, front, w);
    ReplayOwnRows(f, front, w);
    ReplayOneSettles(g, last, w);
    if i < |order| - 1 {
      ReplaySettles(f, front, w, i);
      assert front[i] == order[i];
      if order[i] != last {
        ReplayElsewhere(g, last, order[i], w);
        SameViewSameJudgement(g, ReplayOne(g, last, w), order[i], w);
      }
    }
  }

  lemma {:induction false} IdleReplay(f: Files, order: seq<string>, w: World)
    requires forall i :: 0 <= i < |order| ==> Idle(f, order[i], w)
    ensures Replay(f, order, w) == f
    decreases |order|
  {
    if order != [] {
      var front := order[..|order| - 1];
      assert forall i :: 0 <= i < |front| ==> front[i] == order[i];
      IdleReplay(f, front, w);
      assert Idle(f, order[|order| - 1], w);
    }
  }

  ghost predicate NoRepeats(order: seq<string>) {
    forall i, j :: 0 <= i < j < |order| ==> order[i] != order[j]
  }

  /** The crash inside one intent changes nothing for the others. */
  lemma LeftAlone(g: Files, id: string, other: string, writes: nat, w: World)
    requires OwnRows(g.registry.pending) && id != other && Idle(g, other, w)
    requires id in g.registry.pending
    ensures Idle(ApplyUpTo(g, g.registry.pending[id], writes), other, w)
  {
    hide Judge, ActiveMap, Apply, ApplyUpTo, Idle;
    ApplyElsewhere(g, g.registry.pending[id], writes, other);
    SameViewSameJudgement(g, ApplyUpTo(g, g.registry.pending[id], writes), other, w);
  }

  lemma CrashedIntent(g: Files, id: string, writes: nat, w: World)
    requires OwnRows(g.registry.pending)
    ensures id in g.registry.pending && Judge(g, g.registry.pending[id], w).Applied? ==>
      ReplayOne(ApplyUpTo(g, g.registry.pending[id], writes), id, w) == ReplayOne(g, id, w)
  {
    hide Judge, ActiveMap, Apply, ApplyUpTo;
    if id in g.registry.pending && Judge(g, g.registry.pending[id], w).Applied? {
      ApplyInPart(g, g.registry.pending[id], writes, w);
    }
  }

  /** Replay after a crash first passes over what was done before the crash. */
  lemma CrashedPrefix(f: Files, order: seq<string>, j: nat, writes: nat, w: World)
    requires OwnRows(f.registry.pending) && NoRepeats(order) && j < |order|
    ensures Replay(CrashInReplay(f, order, j, writes, w), order[..j + 1], w) == Replay(f, order[..j + 1], w)
  {
    hide Judge, ActiveMap, Apply, ApplyUpTo, SameView, OwnRows, Idle;
    var g := Replay(f, order[..j], w);
    var c := CrashInReplay(f, order, j, writes, w);
    ReplayOwnRows(f, order[..j], w);
    forall i | 0 <= i < j
      ensures Idle(c, order[..j][i], w)
    {
      ReplaySettles(f, order[..j], w, i);
      assert order[i] != order[j];
      if c != g {
        LeftAlone(g, order[j], order[i], writes, w);
      }
    }
    IdleReplay(c, order[..j], w);
    assert order[..j + 1][..j] == order[..j];
    CrashedIntent(g, order[j], writes, w);
  }

  /** Wherever replay dies, replaying again in the same world ends where it would have ended. */
  lemma {:induction false} ReplayResumes(f: Files, order: seq<string>, j: nat, writes: nat, w: World, n: nat)
    requires OwnRows(f.registry.pending) && NoRepeats(order) && j < n <= |order|
    ensures Replay(CrashInReplay(f, order, j, writes, w), order[..n], w) == Replay(f, order[..n], w)
    decreases n
  {
    if n == j + 1 {
      CrashedPrefix(f, order, j, writes, w);
    } else {
      ReplayResumes(f, order, j, writes, w, n - 1);
      assert order[..n][..n - 1] == order[..n - 1];
    }
  }

  // ----- a crash in a mutation -----

  /** publishMutation without a crash. */
  ghost function Publish(f: Files, intent: Intent): Files {
    Apply(Stage(f, intent), intent)
  }

  /** publishMutation that dies after the given number of its five durable writes. */
  ghost function PublishUpTo(f: Files, intent: Intent, writes: nat): Files {
    if writes == 0 then f
    else if writes <= 4 then ApplyUpTo(Stage(f, intent), intent, writes - 1)
    else Publish(f, intent)
  }

  lemma PublishedIsGone(f: Files, intent: Intent)
    ensures intent.record.lease.id !in Publish(f, intent).registry.pending
  {
    hide ActiveMap;
  }

  lemma StageElsewhere(f: Files, intent: Intent, id: string, w: World)
    requires id != intent.record.lease.id && Idle(f, id, w)
    ensures Idle(Stage(f, intent), id, w)
  {
    SameViewSameJudgement(f, Stage(f, intent), id, w);
  }

  /** When one intent is applied and the rest idles, replay is that one application. */
  lemma {:induction false} WholeReplay(s: Files, order: seq<string>, j: nat, w: World)
    requires j < |order| && order[j] in s.registry.pending && OwnRows(s.registry.pending)
    requires Judge(s, s.registry.pending[order[j]], w).Applied?
    requires forall i :: 0 <= i < |order| && i != j ==>
      Idle(s, order[i], w) && Idle(Apply(s, s.registry.pending[order[j]]), order[i], w)
    ensures Replay(s, order, w) == Apply(s, s.registry.pending[order[j]])
    decreases |order|
  {
    hide Judge, ActiveMap, Apply;
    var front := order[..|order| - 1];
    assert forall i :: 0 <= i < |front| ==> front[i] == order[i];
    if j < |order| - 1 {
      WholeReplay(s, front, j, w);
      assert Idle(Apply(s, s.registry.pending[order[j]]), order[|order| - 1], w);
    } else {
      IdleReplay(s, front, w);
    }
  }

  /** Once the intent is written, a crash anywhere in the mutation is undone by the next replay: the
      ledger, the registry and the active map are those of the run without a crash. */
  lemma CrashIsUndone(f: Files, intent: Intent, writes: nat, order: seq<string>, w: World)
    requires OwnRows(Stage(f, intent).registry.pending) && intent.record.lease.id !in f.registry.pending
    requires forall i :: 0 <= i < |order| && order[i] != intent.record.lease.id ==> Idle(f, order[i], w)
    requires NoRepeats(order) && intent.record.lease.id in order
    requires Judge(Stage(f, intent), intent, w).Applied?
    ensures writes == 0 ==> Replay(PublishUpTo(f, intent, writes), order, w) == f
    ensures writes > 0 ==> Replay(PublishUpTo(f, intent, writes), order, w) == Publish(f, intent)
  {
    hide Judge, ActiveMap, Apply, ApplyUpTo, SameView, OwnRows;
    var id := intent.record.lease.id;
    if writes == 0 {
      IdleReplay(f, order, w);
    } else {
      var s := Stage(f, intent);
      var j :| 0 <= j < |order| && order[j] == id;
      forall i | 0 <= i < |order| && i != j
        ensures Idle(s, order[i], w)
        ensures Idle(Publish(f, intent), order[i], w)
      {
        StageElsewhere(f, intent, order[i], w);
        ApplyElsewhere(s, intent, 0, order[i]);
        SameViewSameJudgement(s, Publish(f, intent), order[i], w);
      }
      PublishedIsGone(f, intent);
      IdleReplay(Publish(f, intent), order, w);
      if writes <= 4 {
        IdleReplay(s, order[..j], w);
        ReplayResumes(s, order, j, writes - 1, w, |order|);
        assert order[..|order|] == order;
        WholeReplay(s, order, j, w);
      }
    }
  }
}
