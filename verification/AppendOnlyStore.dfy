/** AppendOnlyStore: append, compaction and recovery over the ledger file and its manifest.
    Every method may crash at each of its durable writes; the torn append may stop at any byte. */
module AppendOnlyStore {
  import opened JsonParser
  import opened Wrappers
  import opened Utf8
  import opened LedgerSnapshot
  import opened LedgerRecovery
  import opened LedgerGrowth

  datatype Manifest = Manifest(recordCount: nat, lastSequence: nat, truncations: nat)

  const EMPTY_MANIFEST: Manifest := Manifest(0, 0, 0)

  datatype StoreError = Corruption | Unsupported | SnapshotLimit

  /** What one operation comes to; after a crash the caller learns nothing. */
  datatype Outcome<T> = Done(value: T) | Refused(error: StoreError) | Crashed

  /** Where an operation stops. Before the repair's write the evidence is already saved; a torn append
      leaves the given number of bytes; the manifest and the whole ledger are replaced atomically. */
  datatype CrashPoint =
    | NoCrash | BeforeRepair | AfterRepair | TornAppend(bytes: nat) | AfterManifest | AfterLedger

  function Max(a: int, b: int): int {
    if a < b then b else a
  }

  /** The records a reader can see, the pending one included. */
  ghost function Visible(codec: Codec, raw: seq<byte>): seq<Entry> {
    match Reads(codec, raw)
    case Parsed(s) => RepairedRecords(s)
    case Failed(_, _) => []
  }

  lemma NothingIsComplete(codec: Codec)
    ensures Reads(codec, []) == Parsed(Snapshot(true, [], 0, 0, 0, None))
  {
    ScanNothing(codec, 0, START);
  }

  lemma RepairedIsVisible(codec: Codec, raw: seq<byte>, s: Snapshot)
    requires Reads(codec, raw) == Parsed(s)
    ensures s.completeBytes <= |raw| == s.byteLength && (s.complete ==> s.pending.None?)
    ensures Visible(codec, raw) == RepairedRecords(s) && Ordered(RepairedRecords(s))
    ensures var bytes := Repaired(raw, s);
      Reads(codec, bytes).Parsed? && Whole(codec, bytes, RepairedRecords(s))
        && Visible(codec, bytes) == RepairedRecords(s)
  {
    hide Scan;
    RepairedIsWhole(codec, raw);
    RepairIsComplete(codec, raw);
    CompleteHasNoPending(codec, raw, 0, START);
  }

  /** The files of one store. The stamp stands for device, inode, size and times of the ledger: it
      changes with every write to the ledger and never returns to an old value. */
  class Disk {
    const codec: Codec
    const stringify: Entry -> string
    const maxBytes: nat
    var ledger: Option<seq<byte>>
    var stamp: nat
    var manifest: Option<Manifest>
    var evidence: seq<seq<byte>>
    /** The highest sequence that was ever visible in the ledger. */
    ghost var highest: int

    function Bytes(): seq<byte>
      reads this
    {
      if ledger.Some? then ledger.value else []
    }

    /** The ledger always reads, and the manifest or the ledger remembers the highest sequence. */
    ghost predicate Valid()
      reads this
    {
      && Faithful(codec, stringify)
      && Reads(codec, Bytes()).Parsed?
      && LastOf(Visible(codec, Bytes())) <= highest
      && highest <= Max(if manifest.Some? then manifest.value.lastSequence else 0, LastOf(Visible(codec, Bytes())))
    }

    /** The ledger ends with a record whose newline is missing. */
    ghost predicate LostNewline()
      reads this
    {
      Reads(codec, Bytes()).Parsed? && Reads(codec, Bytes()).snapshot.pending.Some?
    }

    /** The ledger ends with a torn record. */
    ghost predicate IsTorn()
      reads this
    {
      && Reads(codec, Bytes()).Parsed? && !Reads(codec, Bytes()).snapshot.complete
      && Reads(codec, Bytes()).snapshot.pending.None?
    }

    /** The ledger is too large, or would be with the newline it lacks, or its file is gone although the manifest
        counts records. */
    ghost predicate Unusable()
      reads this
    {
      || |Bytes()| > maxBytes || (LostNewline() && |Bytes()| + 1 > maxBytes)
      || (ledger.None? && manifest.Some? && manifest.value.recordCount > 0)
    }

    /** The crash strikes while the ledger is repaired. */
    ghost predicate StrikesRepair(crash: CrashPoint)
      reads this
    {
      (crash.AfterRepair? && (LostNewline() || IsTorn())) || (crash.BeforeRepair? && IsTorn())
    }

    /** The ledger does not change without its stamp. */
    twostate predicate Stamped()
      reads this
    {
      old(stamp) <= stamp && (stamp == old(stamp) ==> ledger == old(ledger))
    }

    constructor (codec: Codec, stringify: Entry -> string, maxBytes: nat)
      requires Faithful(codec, stringify)
      ensures Valid() && ledger.None? && manifest.None?
      ensures this.codec == codec && this.stringify == stringify && this.maxBytes == maxBytes
    {
      this.codec, this.stringify, this.maxBytes := codec, stringify, maxBytes;
      ledger, stamp, manifest, evidence, highest := None, 0, None, [], 0;
      new;
      ScanNothing(codec, 0, START);
    }

    /** One durable write to the ledger file. */
    method WriteLedger(bytes: seq<byte>)
      requires Reads(codec, bytes).Parsed?
      modifies this
      ensures ledger == Some(bytes) && stamp == old(stamp) + 1
      ensures manifest == old(manifest) && evidence == old(evidence)
      ensures highest == Max(old(highest), LastOf(Visible(codec, bytes)))
    {
      ledger := Some(bytes);
      stamp := stamp + 1;
      highest := Max(highest, LastOf(Visible(codec, bytes)));
    }

    /** Writes a lost newline, or saves a broken tail as evidence and then cuts it off. */
    method Repair(s: Snapshot, crash: CrashPoint) returns (crashed: bool, truncations: nat)
      requires Valid() && Reads(codec, Bytes()) == Parsed(s) && !s.complete
      modifies this
      ensures Valid() && manifest == old(manifest) && highest == old(highest) && Stamped()
      ensures Visible(codec, Bytes()) == RepairedRecords(s) == old(Visible(codec, Bytes()))
      ensures !crashed ==> Whole(codec, Bytes(), RepairedRecords(s)) && stamp > old(stamp)
      ensures truncations == (if s.pending.None? then 1 else 0) && s.completeBytes <= |old(Bytes())|
      ensures crashed <==> crash.AfterRepair? || (crash.BeforeRepair? && s.pending.None?)
      ensures evidence ==
        if s.pending.Some? then old(evidence) else old(evidence) + [old(Bytes())[s.completeBytes..]]
      ensures Bytes() ==
        if s.pending.Some? then old(Bytes()) + [NEWLINE]
        else if crash.BeforeRepair? then old(Bytes())
        else old(Bytes())[..s.completeBytes]
      ensures ledger.None? <==> old(ledger).None?
    {
      hide Reads, Whole, Visible, Faithful, Ordered;
      var raw := Bytes();
      NothingIsComplete(codec);
      RepairedIsVisible(codec, raw, s);
      if s.pending.Some? {
        WriteLedger(raw + [NEWLINE]);
        return crash.AfterRepair?, 0;
      }
      evidence := evidence + [raw[s.completeBytes..]];
      if crash.BeforeRepair? {
        return true, 1;
      }
      WriteLedger(raw[..s.completeBytes]);
      assert raw == Bytes() + raw[s.completeBytes..];
      return crash.AfterRepair?, 1;
    }
  }

  datatype Cache = Cache(identity: nat, count: nat, lastSequence: int, ids: set<string>)

  function CacheOf(records: seq<Entry>, stamp: nat): Cache {
    Cache(stamp, |records|, LastOf(records), IdsOf(records))
  }

  /** Repairing and cutting do not change what is visible. */
  lemma WholeIsVisible(codec: Codec, raw: seq<byte>, records: seq<Entry>)
    requires Whole(codec, raw, records)
    ensures Visible(codec, raw) == records && Reads(codec, raw).Parsed?
  {
  }

  lemma RecordPrinted(disk: Disk, e: Entry)
    requires disk.Valid() && 0 < e.sequence <= MAX_SAFE_INTEGER
    ensures PrintedAs(disk.codec, disk.stringify(e), e)
  {
    hide PrintedAs;
  }

  /** The record is known, there is no sequence left for it, or no room. */
  ghost predicate MayNotAppend(disk: Disk, recordId: string, payload: string)
    reads disk
  {
    var records := Visible(disk.codec, disk.Bytes());
    var next := Max(if disk.manifest.Some? then disk.manifest.value.lastSequence else 0, LastOf(records)) + 1;
    recordId in IdsOf(records) || next > MAX_SAFE_INTEGER
      || |disk.Bytes()| + |LineBytes(disk.stringify(Entry(recordId, next, payload)))| > disk.maxBytes
  }

  /** The records that are kept have no room. */
  ghost predicate MayNotCompact(disk: Disk, select: seq<Entry> -> set<int>)
    reads disk
  {
    var records := Visible(disk.codec, disk.Bytes());
    |Ledger(Printed(disk.stringify, Kept(records, select(records))))| > disk.maxBytes
  }

  /** What an append may do to the visible records and the manifest. */
  ghost predicate AppendEffect(
      r: Outcome<Entry>, recordId: string, payload: string, manifest: Option<Manifest>, highest: int,
      before: seq<Entry>, after: seq<Entry>, manifest': Option<Manifest>) {
    var last := if manifest.Some? then manifest.value.lastSequence else 0;
    var e := Entry(recordId, Max(last, LastOf(before)) + 1, payload);
    match r
    case Done(appended) =>
      && appended == e && e.sequence > highest && e.recordId !in IdsOf(before) && after == before + [e]
      && manifest'.Some? && manifest'.value.recordCount == |after| && manifest'.value.lastSequence == e.sequence
    case Refused(_) => after == before && manifest' == manifest
    case Crashed => manifest' == manifest && (after == before || (after == before + [e] && e.sequence > highest))
  }

  lemma OrderedPositive(records: seq<Entry>)
    requires Ordered(records)
    ensures 0 <= LastOf(records)
  {
  }

  lemma VisibleOrdered(codec: Codec, raw: seq<byte>)
    requires Reads(codec, raw).Parsed?
    ensures Ordered(Visible(codec, raw))
  {
    hide Scan;
    RepairedIsWhole(codec, raw);
  }

  /** Appending, even when torn, keeps what was visible and adds at most the new record. */
  lemma AppendedIsVisible(codec: Codec, raw: seq<byte>, records: seq<Entry>, line: string, e: Entry, k: nat)
    requires Whole(codec, raw, records)
    requires PrintedAs(codec, line, e) && LastOf(records) < e.sequence <= MAX_SAFE_INTEGER
    requires e.recordId !in IdsOf(records)
    requires k <= |LineBytes(line)|
    ensures var bytes := raw + LineBytes(line)[..k];
      && Reads(codec, bytes).Parsed?
      && (Visible(codec, bytes) == records || Visible(codec, bytes) == records + [e])
      && (k == |LineBytes(line)| ==> Whole(codec, bytes, records + [e]) && Visible(codec, bytes) == records + [e])
    ensures IdsOf(records + [e]) == IdsOf(records) + {e.recordId}
  {
    hide PrintedAs, Reads;
    AppendedReads(codec, raw, records, line, e, k);
    if k == |LineBytes(line)| {
      WholeIsVisible(codec, raw + LineBytes(line)[..k], records + [e]);
    }
    assert forall x :: x in records + [e] <==> x in records || x == e;
  }

  class Store {
    const disk: Disk
    var cache: Option<Cache>

    /** A cache whose identity is still that of the ledger says what reading the ledger again would say. */
    ghost predicate CacheFits()
      reads this, disk
    {
      cache.Some? ==>
        && cache.value.identity <= disk.stamp
        && (cache.value.identity == disk.stamp ==>
             && Whole(disk.codec, disk.Bytes(), Visible(disk.codec, disk.Bytes()))
             && cache.value == CacheOf(Visible(disk.codec, disk.Bytes()), disk.stamp))
    }

    ghost predicate Valid()
      reads this, disk
    {
      disk.Valid() && CacheFits()
    }

    constructor (disk: Disk)
      requires disk.Valid()
      ensures Valid() && this.disk == disk && cache.None?
    {
      this.disk := disk;
      cache := None;
    }

    /** Reads the ledger; a missing file is an empty ledger, but not when the manifest counts records. */
    method ReadSnapshot() returns (r: Outcome<Snapshot>)
      ensures r.Done? ==> Reads(disk.codec, disk.Bytes()) == Parsed(r.value) && |disk.Bytes()| <= disk.maxBytes
      ensures r.Done? ==> disk.ledger.None? && disk.manifest.Some? ==> disk.manifest.value.recordCount <= 0
      ensures match r
        case Done(_) => true
        case Refused(SnapshotLimit) => |disk.Bytes()| > disk.maxBytes
        case Refused(Unsupported) =>
          Reads(disk.codec, disk.Bytes()).Failed? && Reads(disk.codec, disk.Bytes()).code == UnsupportedSchema
        case Refused(Corruption) =>
          || (Reads(disk.codec, disk.Bytes()).Failed? && Reads(disk.codec, disk.Bytes()).code == LedgerCorruption)
          || (disk.ledger.None? && disk.manifest.Some? && disk.manifest.value.recordCount > 0)
        case Crashed => false
    {
      if |disk.Bytes()| > disk.maxBytes {
        return Refused(SnapshotLimit);
      }
      if disk.ledger.None? && disk.manifest.Some? && disk.manifest.value.recordCount > 0 {
        return Refused(Corruption);
      }
      var result := ParseBytes(disk.codec, disk.Bytes());
      match result {
        case Parsed(s) => return Done(s);
        case Failed(code, _) => return Refused(if code.UnsupportedSchema? then Unsupported else Corruption);
      }
    }

    /** writableRecords: leaves a ledger that reads as complete. A lost newline is written; a broken
        tail is first saved as evidence and then cut off. */
    method WritableRecords(crash: CrashPoint) returns (r: Outcome<(seq<Entry>, nat)>)
      requires Valid()
      modifies disk, this`cache
      ensures Valid() && disk.manifest == old(disk.manifest)
      ensures disk.highest == old(disk.highest) && disk.Stamped()
      ensures Visible(disk.codec, disk.Bytes()) == old(Visible(disk.codec, disk.Bytes()))
      ensures disk.ledger.None? <==> old(disk.ledger).None?
      ensures r.Done? ==>
        && r.value.0 == Visible(disk.codec, disk.Bytes())
        && Whole(disk.codec, disk.Bytes(), r.value.0) && Ordered(r.value.0)
        && cache == old(cache)
      ensures r.Done? ==> |disk.Bytes()| <= disk.maxBytes && r.value.1 == |disk.evidence| - |old(disk.evidence)|
      ensures |old(disk.Bytes())| <= disk.maxBytes ==> |disk.Bytes()| <= disk.maxBytes
      ensures r.Done? && !old(disk.IsTorn()) ==> disk.evidence == old(disk.evidence)
      ensures r.Done? && old(disk.IsTorn()) ==>
        && |disk.evidence| == |old(disk.evidence)| + 1
        && old(disk.Bytes()) == disk.Bytes() + disk.evidence[|disk.evidence| - 1]
      ensures r.Refused? ==> disk.ledger == old(disk.ledger) && cache == old(cache) && disk.stamp == old(disk.stamp)
      ensures r.Crashed? ==> cache.None?
      ensures r.Refused? <==> old(disk.Unusable())
      ensures r.Crashed? <==> !r.Refused? && old(disk.StrikesRepair(crash))
    {
      hide Reads, Whole, Visible, Faithful, Ordered;
      var read := ReadSnapshot();
      if !read.Done? {
        return Refused(read.error);
      }
      var s := read.value;
      RepairedIsVisible(disk.codec, disk.Bytes(), s);
      if s.complete {
        return Done((s.records, 0));
      }
      if s.pending.Some? && s.byteLength + 1 > disk.maxBytes {
        return Refused(SnapshotLimit);
      }
      var crashed, truncations := disk.Repair(s, crash);
      if crashed {
        cache := None;
        return Crashed;
      }
      return Done((RepairedRecords(s), truncations));
    }

    /** Opening the store: repairs the ledger and raises the manifest to what the ledger holds. */
    method Initialize(crash: CrashPoint) returns (r: Outcome<()>)
      requires Valid()
      modifies disk, this`cache
      ensures Valid() && disk.highest == old(disk.highest) && disk.Stamped()
      ensures Visible(disk.codec, disk.Bytes()) == old(Visible(disk.codec, disk.Bytes()))
      ensures r.Done? ==>
        && Whole(disk.codec, disk.Bytes(), Visible(disk.codec, disk.Bytes()))
        && disk.manifest.Some? && disk.manifest.value.recordCount == |Visible(disk.codec, disk.Bytes())|
        && disk.highest <= disk.manifest.value.lastSequence
      ensures r.Done? ==>
        var previous := if old(disk.manifest).Some? then old(disk.manifest).value else EMPTY_MANIFEST;
        && disk.manifest.value.truncations == previous.truncations + |disk.evidence| - |old(disk.evidence)|
        && disk.manifest.value.lastSequence == Max(previous.lastSequence, LastOf(Visible(disk.codec, disk.Bytes())))
      ensures r.Done? ==>
        |disk.Bytes()| <= disk.maxBytes && cache == Some(CacheOf(Visible(disk.codec, disk.Bytes()), disk.stamp))
      ensures r.Refused? <==> (old(disk.manifest).None? && old(disk.ledger).Some?) || old(disk.Unusable())
      ensures !r.Done? ==> disk.manifest == old(disk.manifest)
      ensures r.Crashed? <==> !r.Refused? && old(disk.StrikesRepair(crash))
    {
      var existing := disk.manifest;
      if existing.None? && disk.ledger.Some? {
        return Refused(Corruption);
      }
      var repaired := WritableRecords(crash);
      if repaired.Refused? {
        return Refused(repaired.error);
      }
      if repaired.Crashed? {
        return Crashed;
      }
      var (records, truncations) := repaired.value;
      var previous := if existing.Some? then existing.value else EMPTY_MANIFEST;
      disk.manifest := Some(Manifest(
        |records|, Max(previous.lastSequence, LastOf(records)), previous.truncations + truncations));
      cache := Some(CacheOf(records, disk.stamp));
      return Done(());
    }

    /** Makes sure the cache describes the ledger: a cache of the current ledger is used as it is. */
    method LoadCache(crash: CrashPoint) returns (r: Outcome<nat>)
      requires Valid()
      modifies disk, this`cache
      ensures Valid() && disk.manifest == old(disk.manifest) && disk.highest == old(disk.highest) && disk.Stamped()
      ensures Visible(disk.codec, disk.Bytes()) == old(Visible(disk.codec, disk.Bytes()))
      ensures r.Done? ==>
        && cache == Some(CacheOf(Visible(disk.codec, disk.Bytes()), disk.stamp))
        && Whole(disk.codec, disk.Bytes(), Visible(disk.codec, disk.Bytes()))
        && Ordered(Visible(disk.codec, disk.Bytes())) && r.value == |disk.evidence| - |old(disk.evidence)|
      ensures |old(disk.Bytes())| <= disk.maxBytes ==> |disk.Bytes()| <= disk.maxBytes
      ensures (r.Refused? ==> old(disk.Unusable())) && (r.Crashed? ==> old(disk.StrikesRepair(crash)))
    {
      hide Reads, Whole, Visible, Faithful, Ordered;
      if cache.Some? && cache.value.identity == disk.stamp {
        VisibleOrdered(disk.codec, disk.Bytes());
        return Done(0);
      }
      var repaired := WritableRecords(crash);
      match repaired {
        case Refused(error) => return Refused(error);
        case Crashed => return Crashed;
        case Done(value) =>
          cache := Some(CacheOf(value.0, disk.stamp));
          return Done(value.1);
      }
    }

    /** The write to the ledger itself; false when a crash left part of it, or all without the manifest. */
    method WriteRecord(record: Entry, crash: CrashPoint) returns (written: bool)
      requires Valid() && cache.Some? && cache.value.identity == disk.stamp
      requires Ordered(Visible(disk.codec, disk.Bytes())) && disk.manifest.Some?
      requires LastOf(Visible(disk.codec, disk.Bytes())) < record.sequence <= MAX_SAFE_INTEGER
      requires disk.highest < record.sequence && record.recordId !in cache.value.ids
      modifies disk, this`cache
      ensures Valid() && cache.None? && disk.manifest == old(disk.manifest) && disk.Stamped()
      ensures
        var before, after := old(Visible(disk.codec, disk.Bytes())), Visible(disk.codec, disk.Bytes());
        && (after == before || after == before + [record])
        && (written ==> after == before + [record] && Whole(disk.codec, disk.Bytes(), after))
        && IdsOf(before + [record]) == IdsOf(before) + {record.recordId}
      ensures disk.highest >= old(disk.highest) && (written ==> disk.highest == record.sequence)
      ensures
        var line := LineBytes(disk.stringify(record));
        var torn := crash.TornAppend? && crash.bytes < |line|;
        && disk.Bytes() == old(disk.Bytes()) + (if torn then line[..crash.bytes] else line)
        && (written <==> !torn && !crash.AfterLedger?) && disk.evidence == old(disk.evidence)
    {
      hide Reads, Whole, Visible, Faithful, Ordered, PrintedAs;
      var line := disk.stringify(record);
      var serialized := LineBytes(line);
      var raw := disk.Bytes();
      ghost var before := Visible(disk.codec, raw);
      OrderedPositive(before);
      RecordPrinted(disk, record);
      cache := None;
      var torn := crash.TornAppend? && crash.bytes < |serialized|;
      var length := if torn then crash.bytes else |serialized|;
      AppendedIsVisible(disk.codec, raw, before, line, record, length);
      disk.WriteLedger(raw + serialized[..length]);
      return !torn && !crash.AfterLedger?;
    }

    /** Appends one record. Its sequence is the same with and without a usable cache, and exceeds every
        sequence that was ever visible; a crash leaves the record in the ledger or not at all. */
    method AppendRecord(recordId: string, payload: string, crash: CrashPoint) returns (r: Outcome<Entry>)
      requires Valid()
      modifies disk, this`cache
      ensures Valid() && disk.highest >= old(disk.highest) && disk.Stamped()
      ensures disk.manifest.Some? <==> old(disk.manifest).Some?
      ensures AppendEffect(r, recordId, payload, old(disk.manifest), old(disk.highest),
        old(Visible(disk.codec, disk.Bytes())), Visible(disk.codec, disk.Bytes()), disk.manifest)
      ensures r.Done? ==>
        Whole(disk.codec, disk.Bytes(), Visible(disk.codec, disk.Bytes())) && disk.highest == r.value.sequence
      ensures r.Done? ==>
        && |disk.Bytes()| <= disk.maxBytes && r.value.sequence <= MAX_SAFE_INTEGER && !crash.AfterLedger?
        && !(crash.TornAppend? && crash.bytes < |LineBytes(disk.stringify(r.value))|)
        && cache == Some(CacheOf(Visible(disk.codec, disk.Bytes()), disk.stamp))
      ensures r.Done? ==>
        disk.manifest.value.truncations == old(disk.manifest).value.truncations + |disk.evidence| - |old(disk.evidence)|
      ensures |old(disk.Bytes())| <= disk.maxBytes ==> |disk.Bytes()| <= disk.maxBytes
      ensures r.Refused? ==> disk.highest == old(disk.highest)
      ensures r.Refused? ==> disk.manifest.None? || old(disk.Unusable()) || MayNotAppend(disk, recordId, payload)
      ensures old(disk.manifest).None? ==> r.Refused? && disk.ledger == old(disk.ledger)
      ensures r.Crashed? ==> crash.AfterLedger? || crash.TornAppend? || old(disk.StrikesRepair(crash))
    {
      hide Reads, Whole, Visible, Faithful, Ordered, PrintedAs, LineBytes, IdsOf, LastOf;
      if disk.manifest.None? {
        return Refused(Corruption);
      }
      var manifest := disk.manifest.value;
      var loaded := LoadCache(crash);
      if loaded.Refused? {
        return Refused(loaded.error);
      }
      if loaded.Crashed? {
        return Crashed;
      }
      var known := cache.value;
      var next := Max(manifest.lastSequence, known.lastSequence) + 1;
      if next > MAX_SAFE_INTEGER || recordId in known.ids {
        return Refused(Corruption);
      }
      var record := Entry(recordId, next, payload);
      var serialized := LineBytes(disk.stringify(record));
      if |disk.Bytes()| + |serialized| > disk.maxBytes {
        return Refused(SnapshotLimit);
      }
      var written := WriteRecord(record, crash);
      if !written {
        return Crashed;
      }
      disk.manifest := Some(Manifest(known.count + 1, next, manifest.truncations + loaded.value));
      cache := Some(Cache(disk.stamp, known.count + 1, next, known.ids + {recordId}));
      return Done(record);
    }

    /** Rewrites the ledger with the records that are kept. The manifest is raised to the highest
        sequence before the ledger is replaced, so that no pruned sequence can come back. */
    method CompactRecords(select: seq<Entry> -> set<int>, crash: CrashPoint) returns (r: Outcome<seq<Entry>>)
      requires Valid()
      modifies disk, this`cache
      ensures Valid() && disk.highest == old(disk.highest) && disk.Stamped()
      ensures
        var before, after := old(Visible(disk.codec, disk.Bytes())), Visible(disk.codec, disk.Bytes());
        var kept := Kept(before, select(before));
        match r
        case Done(records) =>
          && records == kept == after && Whole(disk.codec, disk.Bytes(), after)
          && disk.manifest.Some? && disk.manifest.value.recordCount == |after|
          && disk.highest <= disk.manifest.value.lastSequence
        case Refused(_) => after == before && disk.manifest == old(disk.manifest)
        case Crashed => after == (if crash.AfterLedger? then kept else before)
      ensures r.Done? ==>
        |disk.Bytes()| <= disk.maxBytes && cache == Some(CacheOf(Visible(disk.codec, disk.Bytes()), disk.stamp))
      ensures r.Done? ==>
        && old(disk.manifest).Some?
        && disk.manifest.value.truncations ==
             old(disk.manifest).value.truncations + |disk.evidence| - |old(disk.evidence)|
      ensures |old(disk.Bytes())| <= disk.maxBytes ==> |disk.Bytes()| <= disk.maxBytes
      ensures r.Crashed? && !old(disk.StrikesRepair(crash)) ==>
        disk.manifest.Some? && disk.highest <= disk.manifest.value.lastSequence && cache.None?
      ensures r.Refused? ==> disk.manifest.None? || old(disk.Unusable()) || MayNotCompact(disk, select)
      ensures old(disk.manifest).None? ==> r.Refused? && disk.ledger == old(disk.ledger)
      ensures r.Crashed? <==>
        !r.Refused? && (crash.AfterManifest? || crash.AfterLedger? || old(disk.StrikesRepair(crash)))
    {
      hide Reads, Whole, Visible, Faithful, Ordered, PrintedAs;
      if disk.manifest.None? {
        return Refused(Corruption);
      }
      var existing := disk.manifest.value;
      var repaired := WritableRecords(crash);
      if repaired.Refused? {
        return Refused(repaired.error);
      }
      if repaired.Crashed? {
        return Crashed;
      }
      var (records, truncations) := repaired.value;
      OrderedPositive(records);
      var raised := Manifest(
        existing.recordCount, Max(existing.lastSequence, LastOf(records)), existing.truncations + truncations);
      var kept := Kept(records, select(records));
      KeptOrdered(records, select(records));
      KeptLast(records, select(records));
      var serialized := Ledger(Printed(disk.stringify, kept));
      RewrittenReads(disk.codec, disk.stringify, kept);
      WholeIsVisible(disk.codec, serialized, kept);
      if |serialized| > disk.maxBytes {
        return Refused(SnapshotLimit);
      }
      disk.manifest := Some(raised);
      if crash.AfterManifest? {
        cache := None;
        return Crashed;
      }
      cache := None;
      disk.WriteLedger(serialized);
      if crash.AfterLedger? {
        return Crashed;
      }
      disk.manifest := Some(raised.(recordCount := |kept|));
      cache := Some(CacheOf(kept, disk.stamp));
      return Done(kept);
    }
  }

  // ----- whole runs -----

  datatype Operation =
    | Initialize
    | Append(recordId: string, payload: string)
    | Compact(select: seq<Entry> -> set<int>)

  predicate Rising(s: seq<int>) {
    forall i, j :: 0 <= i < j < |s| ==> s[i] < s[j]
  }

  /** No record that was visible at any of these times has a higher sequence. */
  ghost predicate AtMost(trace: seq<seq<Entry>>, most: int) {
    forall k, e :: 0 <= k < |trace| && e in trace[k] ==> e.sequence <= most
  }

  function SequencesOf(records: seq<Entry>): set<int> {
    set e | e in records :: e.sequence
  }

  /** The sequence was given out by that operation, and exceeds every sequence visible at any time before. */
  ghost predicate IsNew(trace: seq<seq<Entry>>, operations: seq<(Operation, CrashPoint, bool)>, n: nat, issued: int) {
    && n < |operations| && operations[n].0.Append? && n + 1 < |trace|
    && AtMost(trace[..n + 1], issued - 1) && issued in SequencesOf(trace[n + 1])
  }

  /** One operation of a run, and the sequence it gives out. */
  method Perform(store: Store, operation: Operation, crash: CrashPoint) returns (given: Option<int>)
    requires store.Valid()
    modifies store.disk, store`cache
    ensures store.Valid() && store.disk.highest >= old(store.disk.highest) && store.disk.Stamped()
    ensures given.Some? ==>
      && operation.Append? && old(store.disk.highest) < given.value <= store.disk.highest
      && given.value in SequencesOf(Visible(store.disk.codec, store.disk.Bytes()))
    ensures operation.Append? && crash.NoCrash? && given.None? ==>
      Visible(store.disk.codec, store.disk.Bytes()) == old(Visible(store.disk.codec, store.disk.Bytes()))
  {
    hide Reads, Whole, Visible, Faithful, Ordered, PrintedAs, Kept;
    given := None;
    match operation {
      case Initialize =>
        var _ := store.Initialize(crash);
      case Append(recordId, payload) =>
        var r := store.AppendRecord(recordId, payload, crash);
        if r.Done? {
          given := Some(r.value.sequence);
          assert r.value in Visible(store.disk.codec, store.disk.Bytes());
        }
      case Compact(select) =>
        var _ := store.CompactRecords(select, crash);
    }
  }

  lemma BelowLast(records: seq<Entry>)
    requires Ordered(records)
    ensures forall e :: e in records ==> e.sequence <= LastOf(records)
  {
  }

  /** What is visible now is bounded by the highest sequence as well. */
  lemma TraceGrows(disk: Disk, trace: seq<seq<Entry>>, highest: int)
    requires disk.Valid() && (trace == [] || AtMost(trace, highest)) && highest <= disk.highest
    ensures AtMost(trace + [Visible(disk.codec, disk.Bytes())], disk.highest)
  {
    hide Reads, Whole, Visible, Faithful;
    VisibleOrdered(disk.codec, disk.Bytes());
    BelowLast(Visible(disk.codec, disk.Bytes()));
  }

  /** The sequences given out so far rise, from above the highest at the start, and each was new. */
  ghost predicate AreNew(trace: seq<seq<Entry>>, operations: seq<(Operation, CrashPoint, bool)>, givenBy: seq<nat>,
                         issued: seq<int>, lowest: int, highest: int)
  {
    && Rising(issued) && |givenBy| == |issued|
    && forall j :: 0 <= j < |issued| ==>
         lowest < issued[j] <= highest && IsNew(trace, operations, givenBy[j], issued[j])
  }

  lemma NothingIssued(trace: seq<seq<Entry>>, operations: seq<(Operation, CrashPoint, bool)>, highest: int)
    ensures AreNew(trace, operations, [], [], highest, highest)
  {
  }

  lemma NewNow(trace: seq<seq<Entry>>, records: seq<Entry>, operations: seq<(Operation, CrashPoint, bool)>,
               highest: int, given: int)
    requires AtMost(trace, highest) && 0 < |trace| <= |operations| && operations[|trace| - 1].0.Append?
    requires highest < given && given in SequencesOf(records)
    ensures IsNew(trace + [records], operations, |trace| - 1, given)
  {
    assert (trace + [records])[..|trace|] == trace;
  }

  lemma StillNew(trace: seq<seq<Entry>>, records: seq<Entry>, operations: seq<(Operation, CrashPoint, bool)>, n: nat,
                 issued: int)
    requires IsNew(trace, operations, n, issued)
    ensures IsNew(trace + [records], operations, n, issued)
  {
    assert (trace + [records])[..n + 1] == trace[..n + 1];
    assert (trace + [records])[n + 1] == trace[n + 1];
  }

  lemma IssuedNext(trace: seq<seq<Entry>>, records: seq<Entry>, operations: seq<(Operation, CrashPoint, bool)>,
                   givenBy: seq<nat>, issued: seq<int>, lowest: int, highest: int, given: Option<int>, highest': int)
    requires AreNew(trace, operations, givenBy, issued, lowest, highest) && lowest <= highest <= highest'
    requires AtMost(trace, highest) && 0 < |trace| <= |operations|
    requires given.Some? ==>
      && operations[|trace| - 1].0.Append? && highest < given.value <= highest' && given.value in SequencesOf(records)
    ensures given.None? ==> AreNew(trace + [records], operations, givenBy, issued, lowest, highest')
    ensures given.Some? ==>
      AreNew(trace + [records], operations, givenBy + [|trace| - 1], issued + [given.value], lowest, highest')
  {
    hide IsNew;
    forall j | 0 <= j < |issued|
      ensures IsNew(trace + [records], operations, givenBy[j], issued[j])
    {
      StillNew(trace, records, operations, givenBy[j], issued[j]);
    }
    if given.Some? {
      NewNow(trace, records, operations, highest, given.value);
    }
  }

  lemma IssuedLast(trace: seq<seq<Entry>>, operations: seq<(Operation, CrashPoint, bool)>, givenBy: seq<nat>,
                   issued: seq<int>, lowest: int, highest: int)
    requires AreNew(trace, operations, givenBy, issued, lowest, highest)
    ensures Rising(issued) && |givenBy| == |issued|
    ensures forall j :: 0 <= j < |issued| ==>
      lowest < issued[j] <= highest && IsNew(trace, operations, givenBy[j], issued[j])
  {
  }

  /** An append that did not crash has given out its sequence, or nothing has become visible. */
  ghost predicate NoneWithheld(trace: seq<seq<Entry>>, operations: seq<(Operation, CrashPoint, bool)>,
                               givenBy: seq<nat>, n: nat)
    requires n <= |operations| && n < |trace|
  {
    forall i :: 0 <= i < n && operations[i].0.Append? && operations[i].1.NoCrash? ==>
      i in givenBy || trace[i + 1] == trace[i]
  }

  lemma StillNoneWithheld(trace: seq<seq<Entry>>, records: seq<Entry>,
                          operations: seq<(Operation, CrashPoint, bool)>, givenBy: seq<nat>, n: nat, given: bool)
    requires n < |operations| && |trace| == n + 1 && NoneWithheld(trace, operations, givenBy, n)
    requires operations[n].0.Append? && operations[n].1.NoCrash? && !given ==> records == trace[n]
    ensures NoneWithheld(trace + [records], operations, if given then givenBy + [n] else givenBy, n + 1)
  {
    var more, after := trace + [records], if given then givenBy + [n] else givenBy;
    assert forall i :: 0 <= i <= n ==> more[i] == trace[i];
    assert forall i :: i in givenBy ==> i in after;
    assert given ==> n in after;
  }

  lemma NoneWithheldYet(trace: seq<seq<Entry>>, operations: seq<(Operation, CrashPoint, bool)>)
    requires trace != []
    ensures NoneWithheld(trace, operations, [], 0)
  {
  }

  /** Any run of operations, each of which may crash anywhere. The trace holds the records visible before
      the run and after each operation. The sequences given out rise strictly, and each exceeds every
      sequence that was visible at any time before it was given out, be its record pruned since or left
      behind by an append that crashed. Two handles take turns, so that each finds its cache out of date
      whenever the other one wrote. */
  method RunOperations(disk: Disk, operations: seq<(Operation, CrashPoint, bool)>)
    returns (issued: seq<int>, ghost givenBy: seq<nat>, ghost trace: seq<seq<Entry>>)
    requires disk.Valid()
    modifies disk
    ensures disk.Valid() && disk.highest >= old(disk.highest) && disk.Stamped()
    ensures |trace| == |operations| + 1 && trace[0] == old(Visible(disk.codec, disk.Bytes()))
    ensures trace[|operations|] == Visible(disk.codec, disk.Bytes())
    ensures Rising(issued) && |givenBy| == |issued| && AtMost(trace, disk.highest)
    ensures forall i :: 0 <= i < |issued| ==>
      old(disk.highest) < issued[i] <= disk.highest && IsNew(trace, operations, givenBy[i], issued[i])
    ensures NoneWithheld(trace, operations, givenBy, |operations|)
  {
    hide Reads, Whole, Visible, Faithful, Ordered, PrintedAs, AppendEffect, Kept, AreNew, AtMost, Rising;
    hide NoneWithheld, IsNew;
    issued, givenBy := [], [];
    var first := new Store(disk);
    var second := new Store(disk);
    trace := [Visible(disk.codec, disk.Bytes())];
    NothingIssued(trace, operations, disk.highest);
    NoneWithheldYet(trace, operations);
    TraceGrows(disk, [], disk.highest);
    assert [] + trace == trace;
    for i := 0 to |operations|
      invariant disk.Valid() && first.Valid() && second.Valid() && first != second
      invariant first.disk == disk && second.disk == disk && fresh(first) && fresh(second)
      invariant disk.highest >= old(disk.highest) && disk.Stamped()
      invariant |trace| == i + 1 && trace[0] == old(Visible(disk.codec, disk.Bytes()))
      invariant trace[i] == Visible(disk.codec, disk.Bytes()) && AtMost(trace, disk.highest)
      invariant AreNew(trace, operations, givenBy, issued, old(disk.highest), disk.highest)
      invariant NoneWithheld(trace, operations, givenBy, i)
    {
      var (operation, crash, useFirst) := operations[i];
      ghost var highest := disk.highest;
      var given := Perform(if useFirst then first else second, operation, crash);
      IssuedNext(trace, Visible(disk.codec, disk.Bytes()), operations, givenBy, issued, old(disk.highest), highest,
        given, disk.highest);
      TraceGrows(disk, trace, highest);
      StillNoneWithheld(trace, Visible(disk.codec, disk.Bytes()), operations, givenBy, i, given.Some?);
      if given.Some? {
        issued, givenBy := issued + [given.value], givenBy + [i];
      }
      trace := trace + [Visible(disk.codec, disk.Bytes())];
    }
    IssuedLast(trace, operations, givenBy, issued, old(disk.highest), disk.highest);
  }
}
