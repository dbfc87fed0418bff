/** parseBytes: reading the bytes of an append-only ledger, one JSON record a line, whose last
    write may have been cut short. */
module LedgerSnapshot {
  import opened JsonGrammar
  import opened JsonParser
  import opened JsonRoundTrip
  import opened Wrappers
  import opened TruncatedText
  import opened Utf8

  const MAX_SAFE_INTEGER: int := 0x1F_FFFF_FFFF_FFFF

  /** A record as far as the ledger looks into it; the payload stands for all other fields. */
  datatype Entry = Entry(recordId: string, sequence: int, payload: string)

  /** What the schema makes of a parsed line. A record whose envelope scope conflicts with the
      scope in its payload passes the schema and is refused afterwards. */
  datatype Reading = Newer | Rejected | Accepted(entry: Entry, scopeConflict: bool)

  type Codec = Element -> Reading

  datatype Code = LedgerCorruption | UnsupportedSchema

  /** A snapshot; without pending record and incomplete, the tail is a broken line. */
  datatype Snapshot = Snapshot(
    complete: bool, records: seq<Entry>, byteLength: nat, completeBytes: nat, lastSequence: int,
    pending: Option<Entry>)

  datatype Result = Parsed(snapshot: Snapshot) | Failed(code: Code, offset: nat)

  /** What parsing one record gives; SyntaxError and OtherError are errors that are no ledger error. */
  datatype RecordResult = Record(entry: Entry) | LedgerError(code: Code) | SyntaxError | OtherError

  /** The variables the scan carries along. */
  datatype ScanState = ScanState(records: seq<Entry>, ids: set<string>, lastSequence: int)

  const START: ScanState := ScanState([], {}, 0)

  function ParseRecord(codec: Codec, text: string, st: ScanState): RecordResult {
    match ParseText(text)
    case None => SyntaxError
    case Some(tree) =>
      match codec(tree)
      case Newer => LedgerError(UnsupportedSchema)
      case Rejected => LedgerError(LedgerCorruption)
      case Accepted(e, scopeConflict) =>
        if e.sequence > MAX_SAFE_INTEGER || e.sequence <= st.lastSequence || e.recordId in st.ids
        then LedgerError(LedgerCorruption)
        else if scopeConflict then OtherError
        else Record(e)
  }

  function Add(st: ScanState, e: Entry): ScanState {
    ScanState(st.records + [e], st.ids + {e.recordId}, e.sequence)
  }

  /** White space that trim removes. */
  predicate IsTrimmed(c: char) {
    || '\t' <= c <= '\r' || c == ' ' || c == '\U{a0}' || c == '\U{1680}' || '\U{2000}' <= c <= '\U{200a}'
    || c == '\U{2028}' || c == '\U{2029}' || c == '\U{202f}' || c == '\U{205f}' || c == '\U{3000}' || c == '\U{feff}'
  }

  predicate IsBlank(s: string) {
    forall i :: 0 <= i < |s| ==> IsTrimmed(s[i])
  }

  /** A decoder drops one byte order mark at the start. */
  function StripBom(s: string): string {
    if s != "" && s[0] == '\U{feff}' then s[1..] else s
  }

  /** The index of the first newline, or the length when there is none. */
  function Newline(s: seq<byte>): (n: nat)
    ensures n <= |s|
    ensures forall i :: 0 <= i < n ==> s[i] != NEWLINE
    ensures n < |s| ==> s[n] == NEWLINE
  {
    if s == [] || s[0] == NEWLINE then 0 else 1 + Newline(s[1..])
  }

  datatype LineResult = Next(st: ScanState) | Broken(code: Code)

  /** One complete line, without its newline. */
  function ScanLine(codec: Codec, line: seq<byte>, st: ScanState): LineResult {
    match Decode(line)
    case Malformed => Broken(LedgerCorruption)
    case Text(raw, incomplete) =>
      if incomplete then Broken(LedgerCorruption)
      else if IsBlank(StripBom(raw)) then Next(st)
      else
        match ParseRecord(codec, StripBom(raw), st)
        case Record(e) => Next(Add(st, e))
        case LedgerError(code) => Broken(code)
        case SyntaxError => Broken(LedgerCorruption)
        case OtherError => Broken(LedgerCorruption)
  }

  datatype TailResult = Tail(pending: Option<Entry>) | BadTail(code: Code)

  /** The bytes after the last newline. */
  ghost function ScanTail(codec: Codec, tail: seq<byte>, st: ScanState): TailResult {
    match Decode(tail)
    case Malformed => BadTail(LedgerCorruption)
    case Text(raw, incomplete) =>
      var text := StripBom(raw);
      if incomplete then
        if ParseText(text).None? && Truncated(text, true) then Tail(None) else BadTail(LedgerCorruption)
      else
        match ParseRecord(codec, text, st)
        case Record(e) => Tail(Some(e))
        case LedgerError(code) => BadTail(code)
        case SyntaxError => if Truncated(text, false) then Tail(None) else BadTail(LedgerCorruption)
        case OtherError => BadTail(LedgerCorruption)
  }

  /** The end of the ledger, where no newline follows. */
  ghost function ScanEnd(codec: Codec, rest: seq<byte>, offset: nat, st: ScanState): Result {
    if rest == [] then Parsed(Snapshot(true, st.records, offset, offset, st.lastSequence, None))
    else
      match ScanTail(codec, rest, st)
      case BadTail(code) => Failed(code, offset)
      case Tail(pending) =>
        var last := if pending.Some? then pending.value.sequence else st.lastSequence;
        Parsed(Snapshot(false, st.records, offset + |rest|, offset, last, pending))
  }

  /** The rest of the ledger from a line start on. */
  ghost function Scan(codec: Codec, rest: seq<byte>, offset: nat, st: ScanState): Result
    decreases |rest|
  {
    var n := Newline(rest);
    if n == |rest| then ScanEnd(codec, rest, offset, st)
    else
      match ScanLine(codec, rest[..n], st)
      case Broken(code) => Failed(code, offset)
      case Next(st') => Scan(codec, rest[n + 1..], offset + n + 1, st')
  }

  /** One step of the scan in terms of positions. */
  lemma ScanAt(codec: Codec, raw: seq<byte>, offset: nat, newline: nat, st: ScanState)
    requires offset <= newline <= |raw| && newline - offset == Newline(raw[offset..])
    ensures Scan(codec, raw[offset..], offset, st) ==
      if newline == |raw| then ScanEnd(codec, raw[offset..], offset, st)
      else match ScanLine(codec, raw[offset..newline], st)
        case Broken(code) => Failed(code, offset)
        case Next(st') => Scan(codec, raw[newline + 1..], newline + 1, st')
  {
    hide ScanLine, ScanEnd;
    if newline < |raw| {
      assert raw[offset..newline] == raw[offset..][..newline - offset];
      assert raw[offset..][newline - offset + 1..] == raw[newline + 1..];
    }
  }

  lemma ScanNothing(codec: Codec, offset: nat, st: ScanState)
    ensures Scan(codec, [], offset, st) == ScanEnd(codec, [], offset, st)
  {
  }

  /** The snapshot of a ledger file. */
  ghost function Reads(codec: Codec, raw: seq<byte>): Result {
    Scan(codec, raw, 0, START)
  }

  method FindNewline(raw: seq<byte>, offset: nat) returns (index: nat)
    requires offset <= |raw|
    ensures offset <= index <= |raw|
    ensures index - offset == Newline(raw[offset..])
  {
    index := offset;
    while index < |raw| && raw[index] != NEWLINE
      invariant offset <= index <= |raw|
      invariant Newline(raw[offset..]) == index - offset + Newline(raw[index..])
    {
      assert raw[index..][1..] == raw[index + 1..];
      index := index + 1;
    }
  }

  method ParseTail(codec: Codec, tail: seq<byte>, st: ScanState) returns (r: TailResult)
    ensures r == ScanTail(codec, tail, st)
  {
    var decoded := Decode(tail);
    if decoded.Malformed? {
      return BadTail(LedgerCorruption);
    }
    var text := StripBom(decoded.text);
    if decoded.incomplete {
      if ParseText(text).None? {
        var truncated := TruncatedJson(text, true, true);
        if truncated {
          return Tail(None);
        }
      }
      return BadTail(LedgerCorruption);
    }
    var parsed := ParseRecord(codec, text, st);
    match parsed {
      case Record(e) => return Tail(Some(e));
      case LedgerError(code) => return BadTail(code);
      case _ =>
        var truncated := TruncatedJson(text, parsed.SyntaxError?, false);
        return if truncated then Tail(None) else BadTail(LedgerCorruption);
    }
  }

  // ----- what a reading means -----

  /** The white space and the line terminators of ECMAScript. */
  const SPACES: set<char> :=
    {'\t', '\n', '\U{b}', '\U{c}', '\r', ' ', '\U{a0}', '\U{1680}', '\U{2000}', '\U{2001}', '\U{2002}', '\U{2003}',
     '\U{2004}', '\U{2005}', '\U{2006}', '\U{2007}', '\U{2008}', '\U{2009}', '\U{200a}', '\U{2028}',
     '\U{2029}', '\U{202f}', '\U{205f}', '\U{3000}', '\U{feff}'}

  const BOM: char := '\U{feff}'

  /** The text without a byte order mark at its start. */
  predicate IsContent(text: string, content: string) {
    text == [BOM] + content || (text == content && !([BOM] <= text))
  }

  /** Well-formed UTF-8 of this content. */
  ghost predicate Carries(line: seq<byte>, content: string) {
    exists text :: IsContent(text, content) && line == Encode(text)
  }

  ghost predicate IsBlankLine(line: seq<byte>) {
    exists content :: Carries(line, content) && forall c :: c in content ==> c in SPACES
  }

  /** The line is a JSON text, and this is what the schema makes of it. */
  ghost predicate ReadsTo(codec: Codec, line: seq<byte>, reading: Reading) {
    exists tree: Element :: tree.Valid() && Carries(line, tree.Print()) && codec(tree) == reading
  }

  function LastOf(records: seq<Entry>): int {
    if records == [] then 0 else records[|records| - 1].sequence
  }

  /** The record may follow these: its sequence is a greater safe integer, and its identifier is new. */
  predicate Follows(records: seq<Entry>, e: Entry) {
    LastOf(records) < e.sequence < 0x20_0000_0000_0000 && forall r :: r in records ==> r.recordId != e.recordId
  }

  /** The line is a record that may follow these. */
  ghost predicate IsRecord(codec: Codec, line: seq<byte>, records: seq<Entry>, e: Entry) {
    ReadsTo(codec, line, Accepted(e, false)) && Follows(records, e)
  }

  /** Every line is blank or the next of the records, and there are no other records. */
  ghost predicate HoldsRecords(codec: Codec, lines: seq<seq<byte>>, records: seq<Entry>)
    decreases |lines|
  {
    if lines == [] then records == []
    else
      var n := |lines| - 1;
      || (IsBlankLine(lines[n]) && HoldsRecords(codec, lines[..n], records))
      || (records != [] && IsRecord(codec, lines[n], records[..|records| - 1], records[|records| - 1])
          && HoldsRecords(codec, lines[..n], records[..|records| - 1]))
  }

  function Joined(lines: seq<seq<byte>>): seq<byte> {
    if lines == [] then [] else Joined(lines[..|lines| - 1]) + lines[|lines| - 1] + [NEWLINE]
  }

  /** The bytes are complete lines that hold these records. */
  ghost predicate IsLedgerOf(codec: Codec, raw: seq<byte>, records: seq<Entry>) {
    exists lines: seq<seq<byte>> ::
      Joined(lines) == raw && (forall line :: line in lines ==> NEWLINE !in line) && HoldsRecords(codec, lines, records)
  }

  /** The beginning of a record, cut off: no JSON text, but some continuation of the bytes is one. */
  ghost predicate IsTorn(tail: seq<byte>) {
    || (exists content :: Carries(tail, content) && !IsJsonText(content) && Completable(content))
    || (exists text, content ::
          IsCut(tail, text) && IsContent(text, content) && !IsJsonText(content) && CompletableByNonAscii(content))
  }

  /** What follows the last newline is nothing, a record whose newline is missing, or a torn one. */
  ghost predicate IsTailOf(codec: Codec, tail: seq<byte>, s: Snapshot) {
    && NEWLINE !in tail && (s.complete <==> tail == [])
    && match s.pending
       case Some(e) => tail != [] && IsRecord(codec, tail, s.records, e) && s.lastSequence == e.sequence
       case None => (tail != [] ==> IsTorn(tail)) && s.lastSequence == LastOf(s.records)
  }

  /** Behind these records the line, which is complete or the tail, breaks the rules. */
  ghost predicate IsBroken(codec: Codec, line: seq<byte>, complete: bool, records: seq<Entry>) {
    && !(exists e :: IsRecord(codec, line, records, e))
    && if complete then !IsBlankLine(line) else !IsTorn(line)
  }

  /** The line that starts at the offset, and whether a newline follows it. */
  ghost predicate StartsLine(raw: seq<byte>, offset: nat, line: seq<byte>, complete: bool) {
    && offset < |raw| && NEWLINE !in line && offset + |line| <= |raw| && raw[offset..offset + |line|] == line
    && (complete <==> offset + |line| < |raw|) && (complete ==> raw[offset + |line|] == NEWLINE)
  }

  /** What reading a ledger has to give: the records of its lines, one for one, or the start of the first line
      that breaks the rules, and whether that line is of a newer schema. */
  ghost predicate IsReading(codec: Codec, raw: seq<byte>, r: Result) {
    match r
    case Parsed(s) =>
      && s.byteLength == |raw| && s.completeBytes <= |raw|
      && IsLedgerOf(codec, raw[..s.completeBytes], s.records) && IsTailOf(codec, raw[s.completeBytes..], s)
    case Failed(code, offset) =>
      && offset < |raw|
      && exists line, complete, records ::
           && StartsLine(raw, offset, line, complete) && IsLedgerOf(codec, raw[..offset], records)
           && IsBroken(codec, line, complete, records)
           && (code == UnsupportedSchema <==> ReadsTo(codec, line, Newer))
  }

  lemma TrimmedExactly(c: char)
    ensures IsTrimmed(c) <==> c in SPACES
  {
  }

  lemma BlankExactly(s: string)
    ensures IsBlank(s) <==> forall c :: c in s ==> c in SPACES
  {
    hide IsTrimmed;
    forall c: char
      ensures IsTrimmed(c) <==> c in SPACES
    {
      TrimmedExactly(c);
    }
  }

  lemma StripExactly(text: string, content: string)
    ensures StripBom(text) == content <==> IsContent(text, content)
  {
    if [BOM] <= text {
      assert text == [BOM] + text[1..];
      assert ([BOM] + content)[1..] == content;
    }
  }

  /** Bytes carry a content exactly when they decode to it. */
  lemma CarriesExactly(line: seq<byte>, content: string)
    ensures Carries(line, content) <==>
      Decode(line).Text? && !Decode(line).incomplete && StripBom(Decode(line).text) == content
  {
    hide Decode, Encode, StripBom, IsContent, IsCut;
    if Carries(line, content) {
      var text :| IsContent(text, content) && line == Encode(text);
      DecodesExactly(line, text);
      StripExactly(text, content);
    }
    if Decode(line).Text? {
      DecodesExactly(line, Decode(line).text);
      StripExactly(Decode(line).text, content);
    }
  }

  lemma ReadsToExactly(codec: Codec, line: seq<byte>, reading: Reading)
    ensures ReadsTo(codec, line, reading) <==>
      && Decode(line).Text? && !Decode(line).incomplete
      && ParseText(StripBom(Decode(line).text)).Some?
      && codec(ParseText(StripBom(Decode(line).text)).value) == reading
  {
    hide Decode, StripBom, Carries, ParseText;
    if ReadsTo(codec, line, reading) {
      var tree: Element :| tree.Valid() && Carries(line, tree.Print()) && codec(tree) == reading;
      CarriesExactly(line, tree.Print());
      ParsePrint(tree);
    }
    if Decode(line).Text? && ParseText(StripBom(Decode(line).text)).Some? {
      PrintParse(StripBom(Decode(line).text));
      CarriesExactly(line, StripBom(Decode(line).text));
    }
  }

  lemma BlankLineExactly(line: seq<byte>)
    ensures IsBlankLine(line) <==>
      Decode(line).Text? && !Decode(line).incomplete && IsBlank(StripBom(Decode(line).text))
  {
    hide Decode, StripBom, Carries, IsBlank;
    if IsBlankLine(line) {
      var content :| Carries(line, content) && forall c :: c in content ==> c in SPACES;
      CarriesExactly(line, content);
      BlankExactly(content);
    }
    if Decode(line).Text? {
      var content := StripBom(Decode(line).text);
      CarriesExactly(line, content);
      BlankExactly(content);
    }
  }

  /** The scan carries the records along. */
  ghost predicate IsState(st: ScanState) {
    && st.lastSequence == LastOf(st.records)
    && forall id :: id in st.ids <==> exists r :: r in st.records && r.recordId == id
  }

  lemma AddKeepsState(st: ScanState, e: Entry)
    requires IsState(st)
    ensures IsState(Add(st, e))
  {
    var more := Add(st, e);
    assert e in more.records;
    forall id
      ensures id in more.ids <==> exists r :: r in more.records && r.recordId == id
    {
      if id in st.ids {
        var r :| r in st.records && r.recordId == id;
        assert r in more.records;
      }
    }
  }

  /** What parsing a record gives, in terms of its line. */
  lemma RecordExactly(codec: Codec, line: seq<byte>, st: ScanState)
    requires IsState(st) && Decode(line).Text? && !Decode(line).incomplete
    ensures
      var r := ParseRecord(codec, StripBom(Decode(line).text), st);
      && (forall e :: r == Record(e) <==> IsRecord(codec, line, st.records, e))
      && (r == LedgerError(UnsupportedSchema) <==> ReadsTo(codec, line, Newer))
  {
    hide Decode, StripBom, ReadsTo, ParseText;
    forall reading: Reading
      ensures ReadsTo(codec, line, reading) <==>
        && ParseText(StripBom(Decode(line).text)).Some?
        && codec(ParseText(StripBom(Decode(line).text)).value) == reading
    {
      ReadsToExactly(codec, line, reading);
    }
    forall e: Entry
      ensures Follows(st.records, e) <==>
        !(e.sequence > MAX_SAFE_INTEGER || e.sequence <= st.lastSequence || e.recordId in st.ids)
    {
    }
  }

  lemma UndecodedIsNothing(codec: Codec, line: seq<byte>, records: seq<Entry>)
    requires Decode(line).Malformed? || Decode(line).incomplete
    ensures !IsBlankLine(line) && !ReadsTo(codec, line, Newer)
    ensures forall e :: !IsRecord(codec, line, records, e)
  {
    hide Decode, StripBom, ReadsTo, IsBlankLine;
    BlankLineExactly(line);
    ReadsToExactly(codec, line, Newer);
    forall e
      ensures !IsRecord(codec, line, records, e)
    {
      ReadsToExactly(codec, line, Accepted(e, false));
    }
  }

  /** One complete line is blank, the next record, or broken. */
  lemma LineExactly(codec: Codec, line: seq<byte>, st: ScanState)
    requires IsState(st)
    ensures match ScanLine(codec, line, st)
      case Next(st') =>
        || (st' == st && IsBlankLine(line))
        || (exists e :: IsRecord(codec, line, st.records, e) && st' == Add(st, e))
      case Broken(code) =>
        IsBroken(codec, line, true, st.records) && (code == UnsupportedSchema <==> ReadsTo(codec, line, Newer))
  {
    hide Decode, StripBom, ReadsTo, IsBlankLine, IsBlank, ParseRecord, IsState, IsRecord, Add;
    if Decode(line).Malformed? || Decode(line).incomplete {
      UndecodedIsNothing(codec, line, st.records);
    } else {
      BlankLineExactly(line);
      RecordExactly(codec, line, st);
    }
  }

  /** The bytes are torn exactly when they decode to a text that is no JSON text and can still become one. */
  lemma TornExactly(tail: seq<byte>)
    ensures IsTorn(tail) <==>
      && Decode(tail).Text? && !IsJsonText(StripBom(Decode(tail).text))
      && if Decode(tail).incomplete then CompletableByNonAscii(StripBom(Decode(tail).text))
         else Completable(StripBom(Decode(tail).text))
  {
    hide Decode, StripBom, Carries, IsContent, IsCut, IsJsonText, Completable, CompletableByNonAscii;
    forall content: string
      ensures Carries(tail, content) <==>
        Decode(tail).Text? && !Decode(tail).incomplete && StripBom(Decode(tail).text) == content
    {
      CarriesExactly(tail, content);
    }
    forall text: string
      ensures IsCut(tail, text) <==> Decode(tail) == Text(text, true)
    {
      DecodesExactly(tail, text);
    }
    forall text: string, content: string
      ensures IsContent(text, content) <==> StripBom(text) == content
    {
      StripExactly(text, content);
    }
  }

  lemma ParsedOrSyntaxError(codec: Codec, text: string, st: ScanState)
    ensures ParseRecord(codec, text, st).SyntaxError? <==> ParseText(text).None?
  {
    hide ParseText;
  }

  /** The tail is a record, torn, or broken. */
  lemma TailExactly(codec: Codec, tail: seq<byte>, st: ScanState)
    requires IsState(st)
    ensures match ScanTail(codec, tail, st)
      case Tail(Some(e)) => IsRecord(codec, tail, st.records, e)
      case Tail(None) => IsTorn(tail)
      case BadTail(code) =>
        IsBroken(codec, tail, false, st.records) && (code == UnsupportedSchema <==> ReadsTo(codec, tail, Newer))
  {
    TornExactly(tail);
    if Decode(tail).Malformed? || Decode(tail).incomplete {
      UndecodedIsNothing(codec, tail, st.records);
    } else {
      RecordExactly(codec, tail, st);
    }
    if Decode(tail).Text? {
      ParseAcceptsExactly(StripBom(Decode(tail).text));
      ParsedOrSyntaxError(codec, StripBom(Decode(tail).text), st);
    }
    hide Decode, StripBom, ReadsTo, IsJsonText, Completable, CompletableByNonAscii, IsState, IsRecord, IsTorn;
    hide ParseText, ParseRecord;
  }

  /** The line is blank, or adds its record to those before it. */
  ghost predicate AddsLine(codec: Codec, line: seq<byte>, records: seq<Entry>, more: seq<Entry>) {
    (more == records && IsBlankLine(line)) || exists e :: IsRecord(codec, line, records, e) && more == records + [e]
  }

  lemma HoldsMore(codec: Codec, lines: seq<seq<byte>>, records: seq<Entry>, line: seq<byte>, more: seq<Entry>)
    requires HoldsRecords(codec, lines, records) && AddsLine(codec, line, records, more)
    ensures HoldsRecords(codec, lines + [line], more)
  {
    hide IsRecord, IsBlankLine;
    var all := lines + [line];
    assert all[..|all| - 1] == lines && all[|all| - 1] == line;
    if more != records {
      assert more[..|more| - 1] == records;
    }
  }

  lemma JoinedMore(lines: seq<seq<byte>>, line: seq<byte>)
    ensures Joined(lines + [line]) == Joined(lines) + line + [NEWLINE]
  {
    assert (lines + [line])[..|lines|] == lines;
  }

  lemma LedgerMore(codec: Codec, raw: seq<byte>, records: seq<Entry>, line: seq<byte>, more: seq<Entry>)
    requires IsLedgerOf(codec, raw, records) && NEWLINE !in line && AddsLine(codec, line, records, more)
    ensures IsLedgerOf(codec, raw + line + [NEWLINE], more)
  {
    var lines: seq<seq<byte>> :|
      Joined(lines) == raw && (forall l :: l in lines ==> NEWLINE !in l) && HoldsRecords(codec, lines, records);
    HoldsMore(codec, lines, records, line, more);
    JoinedMore(lines, line);
    hide HoldsRecords, Joined, AddsLine;
    var all := lines + [line];
    assert forall l :: l in all ==> NEWLINE !in l;
  }

  lemma NoLines(codec: Codec)
    ensures IsLedgerOf(codec, [], []) && IsState(START)
  {
    assert Joined([]) == [] && HoldsRecords(codec, [], []);
  }

  /** The end of a ledger whose lines hold the records of the scan. */
  lemma EndIsReading(codec: Codec, raw: seq<byte>, offset: nat, st: ScanState)
    requires offset <= |raw| && IsState(st) && IsLedgerOf(codec, raw[..offset], st.records)
    requires NEWLINE !in raw[offset..]
    ensures IsReading(codec, raw, ScanEnd(codec, raw[offset..], offset, st))
  {
    hide IsLedgerOf, IsTorn, IsRecord, IsBroken, ScanTail, ReadsTo;
    var tail := raw[offset..];
    if tail != [] {
      TailExactly(codec, tail, st);
      assert raw[offset..offset + |tail|] == tail;
      assert StartsLine(raw, offset, tail, false);
    }
  }

  /** Where the next line ends. */
  lemma NextLine(raw: seq<byte>, offset: nat)
    requires offset <= |raw|
    ensures
      var newline := offset + Newline(raw[offset..]);
      && newline <= |raw|
      && (newline == |raw| ==> NEWLINE !in raw[offset..])
      && (newline < |raw| ==>
            && StartsLine(raw, offset, raw[offset..newline], true) && NEWLINE !in raw[offset..newline]
            && raw[..newline + 1] == raw[..offset] + raw[offset..newline] + [NEWLINE])
  {
    var rest := raw[offset..];
    var n := Newline(rest);
    assert forall i :: 0 <= i < n ==> rest[i] == raw[offset..offset + n][i];
    hide Newline;
    if n < |rest| {
      assert raw[offset + n] == rest[n];
    }
  }

  lemma NextState(codec: Codec, line: seq<byte>, st: ScanState, st': ScanState)
    requires IsState(st) && ScanLine(codec, line, st) == Next(st')
    ensures IsState(st') && AddsLine(codec, line, st.records, st'.records)
  {
    LineExactly(codec, line, st);
    hide IsState, IsRecord, ScanLine, IsBlankLine;
    if st' != st {
      var e :| IsRecord(codec, line, st.records, e) && st' == Add(st, e);
      AddKeepsState(st, e);
    }
  }

  lemma BrokenIsReading(codec: Codec, raw: seq<byte>, code: Code, offset: nat, line: seq<byte>, records: seq<Entry>)
    requires offset < |raw| && StartsLine(raw, offset, line, true) && IsLedgerOf(codec, raw[..offset], records)
    requires IsBroken(codec, line, true, records) && (code == UnsupportedSchema <==> ReadsTo(codec, line, Newer))
    ensures IsReading(codec, raw, Failed(code, offset))
  {
    hide StartsLine, IsLedgerOf, IsBroken, ReadsTo;
  }

  lemma {:induction false} ScanIsReading(codec: Codec, raw: seq<byte>, offset: nat, st: ScanState)
    requires offset <= |raw| && IsState(st) && IsLedgerOf(codec, raw[..offset], st.records)
    ensures IsReading(codec, raw, Scan(codec, raw[offset..], offset, st))
    decreases |raw| - offset
  {
    hide *;
    var newline := offset + Newline(raw[offset..]);
    NextLine(raw, offset);
    ScanAt(codec, raw, offset, newline, st);
    if newline == |raw| {
      EndIsReading(codec, raw, offset, st);
    } else {
      var line := raw[offset..newline];
      LineExactly(codec, line, st);
      match ScanLine(codec, line, st)
      case Broken(code) =>
        BrokenIsReading(codec, raw, code, offset, line, st.records);
      case Next(st') =>
        NextState(codec, line, st, st');
        LedgerMore(codec, raw[..offset], st.records, line, st'.records);
        ScanIsReading(codec, raw, newline + 1, st');
    }
  }

  lemma ReadingIsRight(codec: Codec, raw: seq<byte>)
    ensures IsReading(codec, raw, Reads(codec, raw))
  {
    NoLines(codec);
    assert raw[..0] == [] && raw[0..] == raw;
    hide IsReading, Scan, IsLedgerOf, IsState;
    ScanIsReading(codec, raw, 0, START);
  }

  /** parseBytes. */
  method ParseBytes(codec: Codec, raw: seq<byte>) returns (r: Result)
    ensures r == Reads(codec, raw) && IsReading(codec, raw, r)
  {
    hide ScanLine, ScanTail, Scan, Newline, IsReading;
    ReadingIsRight(codec, raw);
    var st := START;
    var offset := 0;
    assert raw[0..] == raw;
    while offset < |raw|
      invariant 0 <= offset <= |raw|
      invariant Scan(codec, raw[offset..], offset, st) == Reads(codec, raw)
      decreases |raw| - offset
    {
      var newline := FindNewline(raw, offset);
      ScanAt(codec, raw, offset, newline, st);
      if newline == |raw| {
        break;
      }
      match ScanLine(codec, raw[offset..newline], st) {
        case Broken(code) => return Failed(code, offset);
        case Next(st') => st, offset := st', newline + 1;
      }
    }
    if offset == |raw| {
      ScanNothing(codec, offset, st);
    }
    assert Reads(codec, raw) == ScanEnd(codec, raw[offset..], offset, st);
    if offset < |raw| {
      var tail := ParseTail(codec, raw[offset..], st);
      match tail {
        case BadTail(code) => return Failed(code, offset);
        case Tail(pending) =>
          var last := if pending.Some? then pending.value.sequence else st.lastSequence;
          return Parsed(Snapshot(false, st.records, |raw|, offset, last, pending));
      }
    }
    return Parsed(Snapshot(true, st.records, |raw|, |raw|, st.lastSequence, None));
  }
}
