/** What a torn append leaves behind, and what repairing it gives. */
module LedgerRecovery {
  import opened JsonGrammar
  import opened NumberAutomaton
  import opened JsonParser
  import opened Wrappers
  import opened JsonRoundTrip
  import opened JsonAutomaton
  import opened JsonAgreement
  import opened TruncatedText
  import opened Utf8
  import opened LedgerSnapshot

  // ----- a proper prefix of a printed object is no JSON text -----

  predicate AfterRoot(c: Config) {
    c.Live? && |c.frames| == 1 && c.frames[0].state.Ended? && (c.lex.Between? || c.lex.InNumber?)
  }

  /** Behind a complete root value only white space, or more of its number, can come. */
  lemma {:induction false} NothingAfterRoot(c: Config, t: string)
    requires AfterRoot(c) && Run(c, t).Live?
    ensures forall i :: 0 <= i < |t| ==> IsWs(t[i]) || IsNumberChar(t[i])
    decreases |t|
  {
    if t != "" {
      var d := Step(c, t[0]);
      if d.Dead? {
        DeadStays(t[1..]);
      } else {
        NothingAfterRoot(d, t[1..]);
        assert forall i :: 1 <= i < |t| ==> t[i] == t[1..][i - 1];
      }
    }
  }

  lemma ProperPrefixIsNoJson(s: string, n: nat)
    requires IsJsonText(s) && s != "" && s[|s| - 1] == '}' && n < |s|
    ensures !IsJsonText(s[..n]) && Completable(s[..n])
  {
    var p, t := s[..n], s[n..];
    assert p + t == s;
    assert IsJsonText(p + t);
    assert t[|t| - 1] == '}';
    if IsJsonText(p) {
      AcceptsExactlyJson(p);
      AcceptsExactlyJson(s);
      RunConcat(INITIAL, p, t);
      NothingAfterRoot(Run(INITIAL, p), t);
    }
  }

  // ----- ledgers as the store prints them -----

  /** One printed record: an object without surrounding white space, on one line, that the schema accepts. */
  ghost predicate PrintedAs(codec: Codec, line: string, e: Entry) {
    && ParseText(line).Some?
    && line != "" && line[0] == '{' && line[|line| - 1] == '}'
    && (forall i :: 0 <= i < |line| ==> line[i] != '\n')
    && codec(ParseText(line).value) == Accepted(e, false)
  }

  function LineBytes(line: string): seq<byte> {
    Encode(line) + [NEWLINE]
  }

  function Ledger(lines: seq<string>): seq<byte> {
    if lines == [] then [] else LineBytes(lines[0]) + Ledger(lines[1..])
  }

  /** Sequences rise and stay safe, and record ids are fresh, continuing from a progress. */
  ghost predicate Continues(st: ScanState, entries: seq<Entry>)
    decreases |entries|
  {
    entries != [] ==>
      && st.lastSequence < entries[0].sequence <= MAX_SAFE_INTEGER
      && entries[0].recordId !in st.ids
      && Continues(Add(st, entries[0]), entries[1..])
  }

  function AddAll(st: ScanState, entries: seq<Entry>): ScanState
    decreases |entries|
  {
    if entries == [] then st else AddAll(Add(st, entries[0]), entries[1..])
  }

  ghost predicate ValidLedger(codec: Codec, lines: seq<string>, entries: seq<Entry>) {
    && |lines| == |entries|
    && (forall i :: 0 <= i < |lines| ==> PrintedAs(codec, lines[i], entries[i]))
    && Continues(START, entries)
  }

  lemma {:induction false} AddAllRecords(st: ScanState, entries: seq<Entry>)
    ensures AddAll(st, entries).records == st.records + entries
    ensures AddAll(st, entries).lastSequence ==
      if entries == [] then st.lastSequence else entries[|entries| - 1].sequence
    decreases |entries|
  {
    if entries != [] {
      AddAllRecords(Add(st, entries[0]), entries[1..]);
      assert st.records + entries == st.records + [entries[0]] + entries[1..];
    }
  }

  // ----- scanning printed lines -----

  /** The first newline is where its definition says, however the bytes are written down. */
  lemma NewlineAt(s: seq<byte>, n: nat)
    requires n <= |s| && (n < |s| ==> s[n] == NEWLINE)
    requires forall i :: 0 <= i < n ==> s[i] != NEWLINE
    ensures Newline(s) == n
  {
    hide Newline;
    var m := Newline(s);
  }

  lemma NewlineOf(line: seq<byte>, rest: seq<byte>)
    requires forall i :: 0 <= i < |line| ==> line[i] != NEWLINE
    ensures Newline(line + [NEWLINE] + rest) == |line|
    ensures Newline(line) == |line|
  {
    NewlineAt(line + [NEWLINE] + rest, |line|);
    NewlineAt(line, |line|);
  }

  lemma ParsePrinted(codec: Codec, line: string, e: Entry, st: ScanState)
    requires PrintedAs(codec, line, e) && st.lastSequence < e.sequence <= MAX_SAFE_INTEGER && e.recordId !in st.ids
    ensures ParseRecord(codec, line, st) == Record(e)
  {
    hide ParseText;
  }

  lemma PrintedIsNotBlank(codec: Codec, line: string, e: Entry)
    requires PrintedAs(codec, line, e)
    ensures StripBom(line) == line && !IsBlank(line)
  {
    hide ParseText;
    assert !IsTrimmed(line[0]);
  }

  lemma ScanPrintedLine(codec: Codec, line: string, e: Entry, st: ScanState)
    requires PrintedAs(codec, line, e) && st.lastSequence < e.sequence <= MAX_SAFE_INTEGER && e.recordId !in st.ids
    ensures ScanLine(codec, Encode(line), st) == Next(Add(st, e))
  {
    hide ParseText, ParseRecord, Decode, PrintedAs, IsBlank;
    DecodeEncode(line);
    PrintedIsNotBlank(codec, line, e);
    ParsePrinted(codec, line, e, st);
  }

  lemma PrintedNoNewline(codec: Codec, line: string, e: Entry)
    requires PrintedAs(codec, line, e)
    ensures forall i :: 0 <= i < |Encode(line)| ==> Encode(line)[i] != NEWLINE
  {
    EncodeHasNoNewline(line);
  }

  lemma JoinLine(line: seq<byte>, more: seq<byte>, rest: seq<byte>)
    ensures (line + [NEWLINE] + more) + rest == line + [NEWLINE] + (more + rest)
  {
  }

  lemma ScanFirst(codec: Codec, line: seq<byte>, more: seq<byte>, offset: nat, st: ScanState, st': ScanState)
    requires Newline(line + [NEWLINE] + more) == |line|
    requires ScanLine(codec, line, st) == Next(st')
    ensures Scan(codec, line + [NEWLINE] + more, offset, st) == Scan(codec, more, offset + |line| + 1, st')
  {
    hide ScanLine, ScanEnd, Newline;
    var s := line + [NEWLINE] + more;
    assert s[..|line|] == line && s[|line| + 1..] == more;
  }

  lemma {:induction false} ScanPrinted(
      codec: Codec, lines: seq<string>, entries: seq<Entry>, rest: seq<byte>, offset: nat, st: ScanState)
    requires |lines| == |entries| && Continues(st, entries)
    requires forall i :: 0 <= i < |lines| ==> PrintedAs(codec, lines[i], entries[i])
    ensures Scan(codec, Ledger(lines) + rest, offset, st)
         == Scan(codec, rest, offset + |Ledger(lines)|, AddAll(st, entries))
    decreases |lines|
  {
    hide ScanLine, ScanEnd, PrintedAs, Newline;
    if lines == [] {
      assert Ledger(lines) + rest == rest;
    } else {
      var line := Encode(lines[0]);
      var more := Ledger(lines[1..]) + rest;
      PrintedNoNewline(codec, lines[0], entries[0]);
      JoinLine(line, Ledger(lines[1..]), rest);
      NewlineOf(line, more);
      ScanPrintedLine(codec, lines[0], entries[0], st);
      ScanFirst(codec, line, more, offset, st, Add(st, entries[0]));
      ScanPrinted(codec, lines[1..], entries[1..], rest, offset + |line| + 1, Add(st, entries[0]));
    }
  }

  // ----- the torn tail -----

  /** A printed line cut before its end reads as a broken tail. */
  lemma TornTail(codec: Codec, line: string, e: Entry, k: nat, st: ScanState)
    requires PrintedAs(codec, line, e) && st.lastSequence < e.sequence <= MAX_SAFE_INTEGER && e.recordId !in st.ids
    requires 0 < k < |Encode(line)|
    ensures ScanTail(codec, Encode(line)[..k], st) == Tail(None)
  {
    hide ParseText, Decode;
    var n := DecodeCut(line, k);
    var text := line[..n];
    ParseAcceptsExactly(line);
    ParseAcceptsExactly(text);
    ProperPrefixIsNoJson(line, n);
    if k > |Encode(text)| {
      assert text + line[n..] == line;
      assert line[n..] != "" && IsNonAscii(line[n..][0]);
      assert IsJsonText(text + line[n..]);
      assert CompletableByNonAscii(text);
    }
    assert StripBom(text) == text;
  }

  lemma WholeTail(codec: Codec, line: string, e: Entry, st: ScanState)
    requires PrintedAs(codec, line, e) && st.lastSequence < e.sequence <= MAX_SAFE_INTEGER && e.recordId !in st.ids
    ensures ScanTail(codec, Encode(line), st) == Tail(Some(e))
  {
    hide ParseText, Decode, ParseRecord;
    DecodeEncode(line);
    PrintedIsNotBlank(codec, line, e);
    ParsePrinted(codec, line, e, st);
  }

  lemma {:induction false} ContinuesAt(st: ScanState, entries: seq<Entry>, n: nat)
    requires Continues(st, entries) && n < |entries|
    ensures Continues(st, entries[..n])
    ensures var st' := AddAll(st, entries[..n]);
      st'.lastSequence < entries[n].sequence <= MAX_SAFE_INTEGER && entries[n].recordId !in st'.ids
    decreases n
  {
    if n > 0 {
      ContinuesAt(Add(st, entries[0]), entries[1..], n - 1);
      assert entries[..n][1..] == entries[1..][..n - 1];
    } else {
      assert entries[..0] == [];
    }
  }

  lemma Associate(a: seq<byte>, b: seq<byte>, c: seq<byte>)
    ensures a + (b + c) == (a + b) + c
  {
  }

  lemma {:induction false} LedgerSplit(lines: seq<string>, n: nat)
    requires n <= |lines|
    ensures Ledger(lines) == Ledger(lines[..n]) + Ledger(lines[n..])
    decreases n
  {
    if n == 0 {
      assert lines[..0] == [] && lines[0..] == lines;
    } else {
      LedgerSplit(lines[1..], n - 1);
      assert lines[..n][1..] == lines[1..][..n - 1];
      assert lines[1..][n - 1..] == lines[n..];
      assert lines[..n][0] == lines[0];
      Associate(LineBytes(lines[0]), Ledger(lines[..n][1..]), Ledger(lines[n..]));
    }
  }

  /** The line a cut falls into: n lines end before it with their newlines. */
  lemma {:induction false} LineOfCut(lines: seq<string>, k: nat) returns (n: nat)
    requires k <= |Ledger(lines)|
    ensures n <= |lines| && |Ledger(lines[..n])| <= k
    ensures n < |lines| ==> k - |Ledger(lines[..n])| <= |Encode(lines[n])|
    ensures n == |lines| ==> k == |Ledger(lines)|
    decreases |lines|
  {
    if lines == [] || k <= |Encode(lines[0])| {
      n := 0;
      assert lines[..0] == [];
    } else {
      var m := LineOfCut(lines[1..], k - |LineBytes(lines[0])|);
      n := m + 1;
      assert lines[..n] == [lines[0]] + lines[1..][..m];
      assert lines[..n][1..] == lines[1..][..m];
    }
  }

  /** The snapshot a cut ledger must give: n complete lines, then extra bytes of the next one. */
  ghost function TornSnapshot(lines: seq<string>, entries: seq<Entry>, k: nat, n: nat): Snapshot
    requires |lines| == |entries| && n <= |lines| && |Ledger(lines[..n])| <= k
  {
    var done := |Ledger(lines[..n])|;
    var pending := if n < |lines| && k > done && k - done == |Encode(lines[n])| then Some(entries[n]) else None;
    var last := if pending.Some? then pending.value.sequence
      else if n == 0 then 0 else entries[n - 1].sequence;
    Snapshot(k == done, entries[..n], k, done, last, pending)
  }

  /** The tail of a cut that loses at least a newline. */
  lemma TornEnd(codec: Codec, line: string, e: Entry, tail: seq<byte>, offset: nat, st: ScanState)
    requires PrintedAs(codec, line, e) && st.lastSequence < e.sequence <= MAX_SAFE_INTEGER && e.recordId !in st.ids
    requires |tail| <= |Encode(line)| && tail == Encode(line)[..|tail|]
    ensures Scan(codec, tail, offset, st) == Parsed(
      if tail == [] then Snapshot(true, st.records, offset, offset, st.lastSequence, None)
      else if tail == Encode(line) then
        Snapshot(false, st.records, offset + |tail|, offset, e.sequence, Some(e))
      else Snapshot(false, st.records, offset + |tail|, offset, st.lastSequence, None))
  {
    hide PrintedAs, ScanTail, ScanLine, Newline;
    PrintedNoNewline(codec, line, e);
    NewlineOf(tail, []);
    if tail == [] {
    } else if |tail| < |Encode(line)| {
      TornTail(codec, line, e, |tail|, st);
    } else {
      WholeTail(codec, line, e, st);
    }
  }

  lemma TornNowhere(codec: Codec, lines: seq<string>, entries: seq<Entry>)
    requires ValidLedger(codec, lines, entries)
    ensures lines[..|lines|] == lines
    ensures Reads(codec, Ledger(lines)) == Parsed(TornSnapshot(lines, entries, |Ledger(lines)|, |lines|))
  {
    hide PrintedAs, Scan, ScanLine, Continues, Encode, AddAll, Ledger;
    AddAllRecords(START, entries);
    assert lines[..|lines|] == lines && entries[..|lines|] == entries;
    assert Ledger(lines) == Ledger(lines) + [];
    ScanPrinted(codec, lines, entries, [], 0, START);
    ScanNothing(codec, |Ledger(lines)|, AddAll(START, entries));
  }

  lemma LineOfLedger(lines: seq<string>, n: nat, k: nat)
    requires n < |lines| && |Ledger(lines[..n])| <= k <= |Ledger(lines[..n])| + |Encode(lines[n])|
    ensures k <= |Ledger(lines)|
    ensures Ledger(lines)[..k] == Ledger(lines[..n]) + Encode(lines[n])[..k - |Ledger(lines[..n])|]
  {
    LedgerSplit(lines, n);
    assert Ledger(lines[n..]) == Encode(lines[n]) + ([NEWLINE] + Ledger(lines[n..][1..]));
  }

  lemma TornInLine(codec: Codec, lines: seq<string>, entries: seq<Entry>, k: nat, n: nat)
    requires ValidLedger(codec, lines, entries) && n < |lines|
    requires |Ledger(lines[..n])| <= k <= |Ledger(lines[..n])| + |Encode(lines[n])|
    ensures k <= |Ledger(lines)| && Reads(codec, Ledger(lines)[..k]) == Parsed(TornSnapshot(lines, entries, k, n))
  {
    hide PrintedAs, Scan, ScanLine, Continues, Encode, AddAll, Ledger;
    var done := |Ledger(lines[..n])|;
    var st := AddAll(START, entries[..n]);
    AddAllRecords(START, entries[..n]);
    ContinuesAt(START, entries, n);
    var tail := Encode(lines[n])[..k - done];
    LineOfLedger(lines, n, k);
    ScanPrinted(codec, lines[..n], entries[..n], tail, 0, START);
    TornEnd(codec, lines[n], entries[n], tail, done, st);
  }

  /** Cut a printed ledger at any byte: no corruption is reported, exactly the records whose newline
      survived are returned, and a pending record exactly when only its newline was lost. */
  lemma TornAppend(codec: Codec, lines: seq<string>, entries: seq<Entry>, k: nat) returns (n: nat)
    requires ValidLedger(codec, lines, entries) && k <= |Ledger(lines)|
    ensures n <= |lines| && |Ledger(lines[..n])| <= k
    ensures n < |lines| ==> k - |Ledger(lines[..n])| <= |Encode(lines[n])|
    ensures n == |lines| ==> k == |Ledger(lines)|
    ensures Reads(codec, Ledger(lines)[..k]) == Parsed(TornSnapshot(lines, entries, k, n))
  {
    hide PrintedAs, Scan, ScanLine, Continues, Encode, AddAll, Ledger, Reads;
    n := LineOfCut(lines, k);
    if n == |lines| {
      TornNowhere(codec, lines, entries);
      assert Ledger(lines)[..k] == Ledger(lines);
    } else {
      TornInLine(codec, lines, entries, k, n);
    }
  }

  // ----- repairing any ledger that reads as incomplete -----

  lemma ValueFirst(v: Value)
    requires v.Valid()
    ensures v.Print() != "" && '"' <= v.Print()[0] <= '{'
  {
    if v.Number? {
      NumberStart(v.text);
    }
  }

  /** Every JSON text shows a character that trim keeps. */
  lemma JsonIsNotBlank(text: string)
    requires ParseText(text).Some?
    ensures !IsBlank(text)
  {
    PrintParse(text);
    var e := ParseText(text).value;
    ElementStart(e, "");
    assert e.Print() + "" == text;
    ValueFirst(e.value);
    assert text[|e.before|..][0] == (e.value.Print() + (e.after + ""))[0];
    assert !IsTrimmed(text[|e.before|]);
  }

  /** A tail that is a whole record becomes a complete line when its newline is written. */
  lemma PendingLine(codec: Codec, tail: seq<byte>, st: ScanState, e: Entry)
    requires ScanTail(codec, tail, st) == Tail(Some(e))
    ensures ScanLine(codec, tail, st) == Next(Add(st, e))
  {
    hide ParseText, IsBlank, Decode;
    JsonIsNotBlank(StripBom(Decode(tail).text));
  }

  /** The snapshot of the ledger without its tail. */
  function WithoutTail(s: Snapshot, last: int): Snapshot {
    Snapshot(true, s.records, s.completeBytes, s.completeBytes, last, None)
  }

  lemma NewlinePrefix(rest: seq<byte>, m: nat)
    requires Newline(rest) < m <= |rest|
    ensures Newline(rest[..m]) == Newline(rest)
  {
    hide Newline;
    NewlineAt(rest[..m], Newline(rest));
  }

  lemma Slices(rest: seq<byte>, n: nat, m: nat)
    requires n < m <= |rest|
    ensures rest[..m][..n] == rest[..n] && rest[..m][n + 1..] == rest[n + 1..][..m - (n + 1)]
  {
  }

  /** The first line and the rest. */
  lemma ScanStep(codec: Codec, rest: seq<byte>, offset: nat, st: ScanState)
    requires Newline(rest) < |rest|
    ensures Scan(codec, rest, offset, st) ==
      match ScanLine(codec, rest[..Newline(rest)], st)
      case Broken(code) => Failed(code, offset)
      case Next(st') => Scan(codec, rest[Newline(rest) + 1..], offset + Newline(rest) + 1, st')
  {
    hide ScanLine, ScanTail, Newline;
  }

  /** Without the bytes after its last complete line the ledger reads as complete, with the same records. */
  ghost predicate Truncates(codec: Codec, rest: seq<byte>, offset: nat, st: ScanState, last: int) {
    match Scan(codec, rest, offset, st)
    case Failed(_, _) => false
    case Parsed(s) =>
      && offset <= s.completeBytes <= s.byteLength == offset + |rest|
      && (s.complete <==> s.completeBytes == s.byteLength)
      && (s.pending.None? ==> last == s.lastSequence)
      && Scan(codec, rest[..s.completeBytes - offset], offset, st) == Parsed(WithoutTail(s, last))
  }

  lemma TruncatesEnd(codec: Codec, rest: seq<byte>, offset: nat, st: ScanState)
    requires Newline(rest) == |rest| && Scan(codec, rest, offset, st).Parsed?
    ensures Truncates(codec, rest, offset, st, st.lastSequence)
  {
    hide ScanLine, ScanTail, Newline;
    assert rest[..0] == [];
    ScanNothing(codec, offset, st);
  }

  lemma TruncatesStep(codec: Codec, rest: seq<byte>, offset: nat, st: ScanState, st': ScanState, last: int)
    requires Newline(rest) < |rest| && ScanLine(codec, rest[..Newline(rest)], st) == Next(st')
    requires Truncates(codec, rest[Newline(rest) + 1..], offset + Newline(rest) + 1, st', last)
    ensures Truncates(codec, rest, offset, st, last)
  {
    hide Scan, ScanLine, Newline;
    var n := Newline(rest);
    ScanStep(codec, rest, offset, st);
    var m := Scan(codec, rest, offset, st).snapshot.completeBytes - offset;
    NewlinePrefix(rest, m);
    Slices(rest, n, m);
    ScanStep(codec, rest[..m], offset, st);
  }

  lemma {:induction false} TruncateScan(codec: Codec, rest: seq<byte>, offset: nat, st: ScanState) returns (last: int)
    requires Scan(codec, rest, offset, st).Parsed?
    ensures Truncates(codec, rest, offset, st, last)
    decreases |rest|
  {
    hide Scan, ScanLine, Newline, Truncates;
    var n := Newline(rest);
    if n == |rest| {
      last := st.lastSequence;
      TruncatesEnd(codec, rest, offset, st);
    } else {
      ScanStep(codec, rest, offset, st);
      var st' := ScanLine(codec, rest[..n], st).st;
      last := TruncateScan(codec, rest[n + 1..], offset + n + 1, st');
      TruncatesStep(codec, rest, offset, st, st', last);
    }
  }

  /** Dropping the bytes after the last complete line keeps all the records read. */
  lemma ScanTruncated(codec: Codec, rest: seq<byte>, offset: nat, st: ScanState) returns (last: int)
    requires Scan(codec, rest, offset, st).Parsed?
    ensures var s := Scan(codec, rest, offset, st).snapshot;
      && offset <= s.completeBytes <= s.byteLength == offset + |rest|
      && (s.complete <==> s.completeBytes == s.byteLength)
      && (s.pending.None? ==> last == s.lastSequence)
      && Scan(codec, rest[..s.completeBytes - offset], offset, st) == Parsed(WithoutTail(s, last))
  {
    hide Scan;
    last := TruncateScan(codec, rest, offset, st);
  }

  /** Writing the lost newline turns the pending record into the last record. */
  lemma {:induction false} ScanCompleted(codec: Codec, rest: seq<byte>, offset: nat, st: ScanState)
    requires Scan(codec, rest, offset, st).Parsed? && Scan(codec, rest, offset, st).snapshot.pending.Some?
    ensures var s := Scan(codec, rest, offset, st).snapshot;
      Scan(codec, rest + [NEWLINE], offset, st) == Parsed(
        Snapshot(true, s.records + [s.pending.value], s.byteLength + 1, s.byteLength + 1, s.pending.value.sequence,
          None))
    decreases |rest|
  {
    hide ScanLine, ScanTail, Newline;
    var n := Newline(rest);
    var whole := rest + [NEWLINE];
    NewlineAt(whole, n);
    if n == |rest| {
      assert whole[..n] == rest && whole[n + 1..] == [];
      var e := ScanTail(codec, rest, st).pending.value;
      PendingLine(codec, rest, st, e);
      ScanNothing(codec, offset + n + 1, Add(st, e));
    } else {
      assert whole[..n] == rest[..n];
      assert whole[n + 1..] == rest[n + 1..] + [NEWLINE];
      ScanCompleted(codec, rest[n + 1..], offset + n + 1, ScanLine(codec, rest[..n], st).st);
    }
  }

  /** What the store makes of an incomplete ledger: it writes a lost newline or cuts the broken tail off. */
  function Repaired(raw: seq<byte>, s: Snapshot): seq<byte>
    requires s.completeBytes <= |raw|
  {
    if s.complete then raw else if s.pending.Some? then raw + [NEWLINE] else raw[..s.completeBytes]
  }

  function RepairedRecords(s: Snapshot): seq<Entry> {
    if s.pending.Some? then s.records + [s.pending.value] else s.records
  }

  lemma {:induction false} CompleteHasNoPending(codec: Codec, rest: seq<byte>, offset: nat, st: ScanState)
    ensures match Scan(codec, rest, offset, st)
      case Parsed(s) => s.complete ==> s.pending.None?
      case Failed(_, _) => true
    decreases |rest|
  {
    hide ScanLine, ScanTail;
    var n := Newline(rest);
    if n < |rest| && ScanLine(codec, rest[..n], st).Next? {
      CompleteHasNoPending(codec, rest[n + 1..], offset + n + 1, ScanLine(codec, rest[..n], st).st);
    }
  }

  lemma {:induction false} PendingIsLast(codec: Codec, rest: seq<byte>, offset: nat, st: ScanState)
    ensures match Scan(codec, rest, offset, st)
      case Parsed(s) => s.pending.Some? ==> s.lastSequence == s.pending.value.sequence
      case Failed(_, _) => true
    decreases |rest|
  {
    hide ScanLine, ScanTail;
    var n := Newline(rest);
    if n < |rest| && ScanLine(codec, rest[..n], st).Next? {
      PendingIsLast(codec, rest[n + 1..], offset + n + 1, ScanLine(codec, rest[..n], st).st);
    }
  }

  /** Repairing gives a ledger that reads as complete, with the records that were read and the pending
      one; so repairing again changes nothing. */
  lemma RepairIsComplete(codec: Codec, raw: seq<byte>)
    requires Reads(codec, raw).Parsed?
    ensures var s := Reads(codec, raw).snapshot;
      && s.completeBytes <= |raw| == s.byteLength
      && Reads(codec, Repaired(raw, s)) == Parsed(Snapshot(
           true, RepairedRecords(s), |Repaired(raw, s)|, |Repaired(raw, s)|, s.lastSequence, None))
  {
    hide Scan;
    var s := Reads(codec, raw).snapshot;
    var last := ScanTruncated(codec, raw, 0, START);
    if s.complete {
      assert raw[..|raw|] == raw;
      CompleteHasNoPending(codec, raw, 0, START);
    } else if s.pending.Some? {
      ScanCompleted(codec, raw, 0, START);
      PendingIsLast(codec, raw, 0, START);
    }
  }
}
