/** How a ledger reads after it was repaired, appended to or rewritten. */
module LedgerGrowth {
  import opened JsonGrammar
  import opened JsonParser
  import opened Wrappers
  import opened Utf8
  import opened LedgerSnapshot
  import opened LedgerRecovery

  function IdsOf(records: seq<Entry>): set<string> {
    set e | e in records :: e.recordId
  }

  /** The bytes read as complete and hold exactly these records. */
  ghost predicate Whole(codec: Codec, raw: seq<byte>, records: seq<Entry>) {
    Reads(codec, raw) == Parsed(Snapshot(true, records, |raw|, |raw|, LastOf(records), None))
  }

  /** The records in a ledger have safe, strictly rising sequences and distinct ids. */
  ghost predicate Ordered(records: seq<Entry>) {
    && (forall i :: 0 <= i < |records| ==> 0 < records[i].sequence <= MAX_SAFE_INTEGER)
    && (forall i, j :: 0 <= i < j < |records| ==>
         records[i].sequence < records[j].sequence && records[i].recordId != records[j].recordId)
  }

  // ----- the scan state after a complete ledger -----

  /** A state that holds the records read so far and nothing else. */
  ghost predicate Tracks(st: ScanState) {
    && Ordered(st.records) && st.ids == IdsOf(st.records) && st.lastSequence == LastOf(st.records)
  }

  lemma AddTracks(st: ScanState, e: Entry)
    requires Tracks(st) && st.lastSequence < e.sequence <= MAX_SAFE_INTEGER && e.recordId !in st.ids
    ensures Tracks(Add(st, e))
  {
    var records := st.records + [e];
    assert forall x :: x in records <==> x in st.records || x == e;
    assert IdsOf(records) == IdsOf(st.records) + {e.recordId};
    forall i | 0 <= i < |st.records|
      ensures records[i].sequence < e.sequence && records[i].recordId != e.recordId
    {
      assert records[i] in st.records;
    }
  }

  lemma RecordFits(codec: Codec, text: string, st: ScanState)
    requires ParseRecord(codec, text, st).Record?
    ensures var e := ParseRecord(codec, text, st).entry;
      st.lastSequence < e.sequence <= MAX_SAFE_INTEGER && e.recordId !in st.ids
  {
  }

  lemma StepTracks(codec: Codec, line: seq<byte>, st: ScanState)
    requires Tracks(st) && ScanLine(codec, line, st).Next?
    ensures Tracks(ScanLine(codec, line, st).st)
  {
    hide Decode, ParseText, IsBlank, Tracks;
    var text := StripBom(Decode(line).text);
    if !IsBlank(text) {
      RecordFits(codec, text, st);
      AddTracks(st, ParseRecord(codec, text, st).entry);
    }
  }

  lemma TailFits(codec: Codec, tail: seq<byte>, st: ScanState)
    ensures match ScanTail(codec, tail, st)
      case Tail(Some(e)) => st.lastSequence < e.sequence <= MAX_SAFE_INTEGER && e.recordId !in st.ids
      case _ => true
  {
    hide Decode, ParseText;
  }

  /** Whatever the bytes, the records read are in order, with the pending one last. */
  lemma {:induction false} ScanOrdered(codec: Codec, rest: seq<byte>, offset: nat, st: ScanState)
    requires Tracks(st)
    ensures match Scan(codec, rest, offset, st)
      case Parsed(s) => Ordered(RepairedRecords(s)) && s.lastSequence == LastOf(RepairedRecords(s))
      case Failed(_, _) => true
    decreases |rest|
  {
    hide ScanLine, ScanTail, Newline, Ordered;
    var n := Newline(rest);
    if n < |rest| {
      if ScanLine(codec, rest[..n], st).Next? {
        StepTracks(codec, rest[..n], st);
        ScanOrdered(codec, rest[n + 1..], offset + n + 1, ScanLine(codec, rest[..n], st).st);
      }
    } else if rest != [] {
      TailFits(codec, rest, st);
      match ScanTail(codec, rest, st) {
        case Tail(Some(e)) => AddTracks(st, e);
        case _ =>
      }
    }
  }

  lemma NewlineInFront(rest: seq<byte>, more: seq<byte>)
    requires Newline(rest) < |rest|
    ensures Newline(rest + more) == Newline(rest)
  {
    hide Newline;
    NewlineAt(rest + more, Newline(rest));
  }

  lemma SliceInFront(rest: seq<byte>, more: seq<byte>, n: nat)
    requires n < |rest|
    ensures (rest + more)[..n] == rest[..n] && (rest + more)[n + 1..] == rest[n + 1..] + more
  {
  }

  /** One step of the scan does not see what follows the line. */
  lemma ScanInFront(codec: Codec, rest: seq<byte>, offset: nat, st: ScanState, more: seq<byte>)
    requires Newline(rest) < |rest| && ScanLine(codec, rest[..Newline(rest)], st).Next?
    ensures var n := Newline(rest);
      Scan(codec, rest + more, offset, st)
      == Scan(codec, rest[n + 1..] + more, offset + n + 1, ScanLine(codec, rest[..n], st).st)
  {
    hide ScanLine, ScanEnd, Newline;
    NewlineInFront(rest, more);
    SliceInFront(rest, more, Newline(rest));
  }

  /** Behind a complete ledger the scan goes on as if the ledger had just been scanned. */
  lemma {:induction false} ScanOn(codec: Codec, rest: seq<byte>, offset: nat, st: ScanState, more: seq<byte>)
      returns (st': ScanState)
    requires Tracks(st) && Scan(codec, rest, offset, st).Parsed? && Scan(codec, rest, offset, st).snapshot.complete
    ensures Tracks(st') && st'.records == Scan(codec, rest, offset, st).snapshot.records
    ensures Scan(codec, rest + more, offset, st) == Scan(codec, more, offset + |rest|, st')
    decreases |rest|
  {
    hide ScanLine, ScanTail, Newline, Tracks;
    var n := Newline(rest);
    if n == |rest| {
      st' := st;
      assert rest + more == more;
    } else {
      StepTracks(codec, rest[..n], st);
      st' := ScanOn(codec, rest[n + 1..], offset + n + 1, ScanLine(codec, rest[..n], st).st, more);
      ScanInFront(codec, rest, offset, st, more);
    }
  }

  lemma StartTracks()
    ensures Tracks(START)
  {
  }

  // ----- the three ways the store changes a ledger -----

  /** Repairing leaves a complete ledger that holds what was visible before. */
  lemma RepairedIsWhole(codec: Codec, raw: seq<byte>)
    requires Reads(codec, raw).Parsed?
    ensures var s := Reads(codec, raw).snapshot;
      && s.completeBytes <= |raw|
      && Whole(codec, Repaired(raw, s), RepairedRecords(s))
      && Ordered(RepairedRecords(s)) && s.lastSequence == LastOf(RepairedRecords(s))
  {
    hide Scan;
    RepairIsComplete(codec, raw);
    ScanOrdered(codec, raw, 0, START);
  }

  /** Appending a printed record to a complete ledger adds exactly that record; when the write is
      torn, the ledger still reads, with the record pending, or without it. */
  lemma AppendedReads(codec: Codec, raw: seq<byte>, records: seq<Entry>, line: string, e: Entry, k: nat)
    requires Whole(codec, raw, records)
    requires PrintedAs(codec, line, e) && LastOf(records) < e.sequence <= MAX_SAFE_INTEGER
    requires e.recordId !in IdsOf(records)
    requires k <= |LineBytes(line)|
    ensures k == |LineBytes(line)| ==> Whole(codec, raw + LineBytes(line)[..k], records + [e])
    ensures k < |LineBytes(line)| ==>
      var r := Reads(codec, raw + LineBytes(line)[..k]);
      r.Parsed? && RepairedRecords(r.snapshot) == if k == |Encode(line)| && k > 0 then records + [e] else records
  {
    hide PrintedAs, Scan, ScanLine, Ordered;
    StartTracks();
    var tail := LineBytes(line)[..k];
    var st := ScanOn(codec, raw, 0, START, tail);
    if k == |LineBytes(line)| {
      assert tail == Encode(line) + [NEWLINE] + [];
      PrintedNoNewline(codec, line, e);
      NewlineOf(Encode(line), []);
      ScanPrintedLine(codec, line, e, st);
      ScanFirst(codec, Encode(line), [], |raw|, st, Add(st, e));
      ScanNothing(codec, |raw| + k, Add(st, e));
    } else {
      assert tail == Encode(line)[..k];
      TornEnd(codec, line, e, tail, |raw|, st);
    }
  }

  /** The lines a rewrite prints for the records it keeps. */
  function Printed(stringify: Entry -> string, records: seq<Entry>): seq<string> {
    seq(|records|, i requires 0 <= i < |records| => stringify(records[i]))
  }

  ghost predicate Faithful(codec: Codec, stringify: Entry -> string) {
    forall e: Entry :: 0 < e.sequence <= MAX_SAFE_INTEGER ==> PrintedAs(codec, stringify(e), e)
  }

  lemma OrderedHead(records: seq<Entry>)
    requires Ordered(records) && records != []
    ensures Ordered(records[1..]) && 0 < records[0].sequence <= MAX_SAFE_INTEGER
    ensures forall r :: r in records[1..] ==>
      records[0].sequence < r.sequence <= LastOf(records) && records[0].recordId != r.recordId
  {
    var more := records[1..];
    assert forall i :: 0 <= i < |more| ==> more[i] == records[i + 1];
  }

  lemma {:induction false} OrderedContinues(st: ScanState, records: seq<Entry>)
    requires Ordered(records)
    requires forall e :: e in records ==> st.lastSequence < e.sequence && e.recordId !in st.ids
    ensures Continues(st, records)
    decreases |records|
  {
    if records != [] {
      hide Ordered;
      OrderedHead(records);
      OrderedContinues(Add(st, records[0]), records[1..]);
    }
  }

  lemma PrintedLines(codec: Codec, stringify: Entry -> string, records: seq<Entry>)
    requires Faithful(codec, stringify) && Ordered(records)
    ensures forall i :: 0 <= i < |records| ==> PrintedAs(codec, Printed(stringify, records)[i], records[i])
  {
    hide PrintedAs;
  }

  /** A ledger rewritten from records in order holds exactly those. */
  lemma RewrittenReads(codec: Codec, stringify: Entry -> string, records: seq<Entry>)
    requires Faithful(codec, stringify) && Ordered(records)
    ensures Whole(codec, Ledger(Printed(stringify, records)), records)
  {
    hide PrintedAs, Scan, ScanLine, Faithful;
    var lines := Printed(stringify, records);
    PrintedLines(codec, stringify, records);
    OrderedContinues(START, records);
    ScanPrinted(codec, lines, records, [], 0, START);
    assert Ledger(lines) + [] == Ledger(lines);
    AddAllRecords(START, records);
    ScanNothing(codec, |Ledger(lines)|, AddAll(START, records));
  }

  /** Keeping some of the records keeps them in order. */
  function Kept(records: seq<Entry>, keep: set<int>): seq<Entry> {
    if records == [] then []
    else if records[0].sequence in keep then [records[0]] + Kept(records[1..], keep)
    else Kept(records[1..], keep)
  }

  lemma {:induction false} KeptMembers(records: seq<Entry>, keep: set<int>)
    ensures forall e :: e in Kept(records, keep) <==> e in records && e.sequence in keep
    decreases |records|
  {
    if records != [] {
      KeptMembers(records[1..], keep);
      assert records == [records[0]] + records[1..];
    }
  }

  lemma PrependOrdered(e: Entry, records: seq<Entry>)
    requires Ordered(records) && 0 < e.sequence <= MAX_SAFE_INTEGER
    requires forall r :: r in records ==> e.sequence < r.sequence && e.recordId != r.recordId
    ensures Ordered([e] + records)
  {
    var all := [e] + records;
    assert forall i :: 1 <= i < |all| ==> all[i] == records[i - 1] && all[i] in records;
  }

  lemma {:induction false} KeptOrdered(records: seq<Entry>, keep: set<int>)
    requires Ordered(records)
    ensures Ordered(Kept(records, keep))
    decreases |records|
  {
    if records != [] {
      hide Ordered;
      OrderedHead(records);
      KeptOrdered(records[1..], keep);
      KeptMembers(records[1..], keep);
      PrependOrdered(records[0], Kept(records[1..], keep));
    }
  }

  lemma KeptLast(records: seq<Entry>, keep: set<int>)
    requires Ordered(records)
    ensures LastOf(Kept(records, keep)) <= LastOf(records)
  {
    var kept := Kept(records, keep);
    KeptMembers(records, keep);
    if kept != [] {
      assert kept[|kept| - 1] in records;
    }
  }
}
