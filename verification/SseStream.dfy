/** Server-sent events as far as the transport reads them: section 9.2 of the WHATWG HTML standard with LF
    and CRLF line ends, and only the data field. */
module SseStream {
  import opened Wrappers
  import opened Utf8
  import opened LossyUtf8
  import opened LedgerSnapshot

  // ----- splitting a text at blank lines -----

  function LineEndAt(s: string, i: nat): (n: nat)
    ensures n <= 2 && (n > 0 ==> i + n <= |s|)
  {
    if i < |s| && s[i] == '\n' then 1
    else if i + 1 < |s| && s[i] == '\r' && s[i + 1] == '\n' then 2
    else 0
  }

  /** The length of the separator at a position: two line ends, each with or without CR; 0 if there is none. */
  function SeparatorAt(s: string, i: nat): (n: nat)
    ensures n > 0 ==> i + n <= |s|
  {
    var first := LineEndAt(s, i);
    if first == 0 then 0
    else
      var second := LineEndAt(s, i + first);
      if second == 0 then 0 else first + second
  }

  /** The first separator from a position on, or the end of the text. */
  function NextSeparator(s: string, from: nat): (i: nat)
    requires from <= |s|
    ensures from <= i <= |s|
    ensures i < |s| ==> SeparatorAt(s, i) > 0
    ensures forall j :: from <= j < i ==> SeparatorAt(s, j) == 0
    decreases |s| - from
  {
    if from == |s| || SeparatorAt(s, from) > 0 then from else NextSeparator(s, from + 1)
  }

  /** The frames that are complete, and what follows the last separator. */
  datatype Pieces = Pieces(frames: seq<string>, rest: string)

  function FrameBefore(frame: string, more: Pieces): Pieces {
    Pieces([frame] + more.frames, more.rest)
  }

  function Split(s: string): Pieces
    decreases |s|
  {
    var i := NextSeparator(s, 0);
    if i == |s| then Pieces([], s)
    else
      FrameBefore(s[..i], Split(s[i + SeparatorAt(s, i)..]))
  }

  // ----- a frame -----

  function NextLineEnd(s: string, from: nat): (i: nat)
    requires from <= |s|
    ensures from <= i <= |s|
    ensures i < |s| ==> LineEndAt(s, i) > 0
    ensures forall j :: from <= j < i ==> LineEndAt(s, j) == 0
    decreases |s| - from
  {
    if from == |s| || LineEndAt(s, from) > 0 then from else NextLineEnd(s, from + 1)
  }

  function Lines(s: string): seq<string>
    decreases |s|
  {
    var i := NextLineEnd(s, 0);
    if i == |s| then [s] else [s[..i]] + Lines(s[i + LineEndAt(s, i)..])
  }

  function TrimStart(s: string): string {
    if s != "" && IsTrimmed(s[0]) then TrimStart(s[1..]) else s
  }

  function TrimEnd(s: string): string {
    if s != "" && IsTrimmed(s[|s| - 1]) then TrimEnd(s[..|s| - 1]) else s
  }

  function Trim(s: string): string {
    TrimEnd(TrimStart(s))
  }

  const DATA := "data:"

  function DataLines(lines: seq<string>): seq<string> {
    if lines == [] then []
    else (if DATA <= lines[0] then [Trim(lines[0][5..])] else []) + DataLines(lines[1..])
  }

  function Join(lines: seq<string>): string {
    if lines == [] then "" else if |lines| == 1 then lines[0] else lines[0] + "\n" + Join(lines[1..])
  }

  /** The payload of a frame; a frame without data has none. */
  function Payload(frame: string): Option<string> {
    var data := DataLines(Lines(frame));
    if data == [] then None else Some(Join(data))
  }

  function PayloadsOf(frames: seq<string>): seq<string> {
    if frames == [] then []
    else
      var front := PayloadsOf(frames[..|frames| - 1]);
      match Payload(frames[|frames| - 1])
      case None => front
      case Some(p) => front + [p]
  }

  /** The payloads of a whole text; what follows the last separator counts unless it is blank. */
  function Payloads(s: string): seq<string> {
    var pieces := Split(s);
    PayloadsOf(if IsBlank(pieces.rest) then pieces.frames else pieces.frames + [pieces.rest])
  }

  // ----- splitting does not depend on where the text is cut -----

  lemma SeparatorStays(a: string, b: string, i: nat)
    requires SeparatorAt(a, i) > 0
    ensures SeparatorAt(a + b, i) == SeparatorAt(a, i)
  {
  }

  /** A separator that is completed by what comes later leaves no room for one that is complete before. */
  lemma NoEarlierSeparator(a: string, b: string, i: nat, n: nat)
    requires i < n && SeparatorAt(a, n) > 0 && SeparatorAt(a, i) == 0
    ensures SeparatorAt(a + b, i) == 0
  {
  }

  lemma SeparatorOfPrefix(a: string, b: string)
    requires NextSeparator(a, 0) < |a|
    ensures NextSeparator(a + b, 0) == NextSeparator(a, 0)
    ensures SeparatorAt(a + b, NextSeparator(a, 0)) == SeparatorAt(a, NextSeparator(a, 0))
  {
    var n := NextSeparator(a, 0);
    SeparatorStays(a, b, n);
    forall i: nat | i < n
      ensures SeparatorAt(a + b, i) == 0
    {
      NoEarlierSeparator(a, b, i, n);
    }
    hide SeparatorAt;
    var m := NextSeparator(a + b, 0);
  }

  lemma SplitOnce(s: string)
    ensures
      var i := NextSeparator(s, 0);
      Split(s) == if i == |s| then Pieces([], s) else FrameBefore(s[..i], Split(s[i + SeparatorAt(s, i)..]))
  {
    hide SeparatorAt, NextSeparator, FrameBefore;
  }

  lemma Regrouped(first: string, f: seq<string>, g: seq<string>)
    ensures [first] + f + g == [first] + (f + g)
  {
  }

  /** Splitting what has come so far, and then the rest of it with what comes next, is splitting it all. */
  lemma {:induction false} SplitMore(a: string, b: string)
    ensures var p := Split(a); var q := Split(p.rest + b); Split(a + b) == Pieces(p.frames + q.frames, q.rest)
    decreases |a|
  {
    hide SeparatorAt, Split, NextSeparator;
    var i := NextSeparator(a, 0);
    SplitOnce(a);
    if i == |a| {
      assert [] + Split(a + b).frames == Split(a + b).frames;
    } else {
      SeparatorOfPrefix(a, b);
      var e := i + SeparatorAt(a, i);
      SplitMore(a[e..], b);
      SplitOnce(a + b);
      assert (a + b)[e..] == a[e..] + b;
      assert (a + b)[..i] == a[..i];
      Regrouped(a[..i], Split(a[e..]).frames, Split(Split(a[e..]).rest + b).frames);
    }
  }

  lemma {:induction false} PayloadsTogether(a: seq<string>, b: seq<string>)
    ensures PayloadsOf(a + b) == PayloadsOf(a) + PayloadsOf(b)
    decreases |b|
  {
    if b == [] {
      assert a + b == a;
    } else {
      var n := |b| - 1;
      assert (a + b)[..|a + b| - 1] == a + b[..n];
      PayloadsTogether(a, b[..n]);
    }
  }

  function Concat<T>(parts: seq<seq<T>>): seq<T> {
    if parts == [] then [] else Concat(parts[..|parts| - 1]) + parts[|parts| - 1]
  }

  // ----- the reader -----

  lemma StripTogether(given: string, more: string)
    ensures StripBom(given + more) == StripBom(given) + if given != "" then more else StripBom(more)
    ensures more == "" || more == [REPLACEMENT] ==> StripBom(more) == more
  {
    if given == "" {
      assert given + more == more;
    }
  }

  /** A decoder that is fed its bytes in chunks: it keeps the bytes of an unfinished character, and drops a
      byte order mark at the start. */
  class Decoder {
    var pending: seq<byte>
    var started: bool
    /** All the bytes so far. */
    ghost var fed: seq<byte>

    constructor ()
      ensures Valid() && fed == []
    {
      pending, started, fed := [], false, [];
    }

    ghost predicate Valid()
      reads this
    {
      pending == DrawAll([], fed).pending && started == (DrawAll([], fed).text != "")
    }

    /** Decodes one more chunk: together with what was given out before, the text of all the bytes so far. */
    method Feed(chunk: seq<byte>) returns (text: string)
      requires Valid()
      modifies this
      ensures Valid() && fed == old(fed) + chunk
      ensures StripBom(DrawAll([], fed).text) == StripBom(DrawAll([], old(fed)).text) + text
    {
      hide DrawAll;
      DrawTogether([], fed, chunk);
      var more := DrawAll(pending, chunk);
      StripTogether(DrawAll([], fed).text, more.text);
      text := if started then more.text else StripBom(more.text);
      started := started || more.text != "";
      pending, fed := more.pending, fed + chunk;
    }

    /** The last text: an unfinished character shows as a replacement character. */
    method Finish() returns (text: string)
      requires Valid()
      modifies this
      ensures pending == [] && !started
      ensures fed == old(fed) && StripBom(Lossy(fed)) == StripBom(DrawAll([], fed).text) + text
    {
      hide DrawAll;
      StripTogether(DrawAll([], fed).text, Flushed(pending));
      text := Flushed(pending);
      pending, started := [], false;
    }
  }

  /** The payloads and the buffer are those of what has been read. */
  ghost predicate HasRead(text: string, payloads: seq<string>, buffer: string) {
    payloads == PayloadsOf(Split(text).frames) && buffer == Split(text).rest
  }

  lemma ReadOn(text: string, payloads: seq<string>, buffer: string, more: string)
    requires HasRead(text, payloads, buffer)
    ensures HasRead(text + more, payloads + PayloadsOf(Split(buffer + more).frames), Split(buffer + more).rest)
  {
    hide Split, PayloadsOf;
    SplitMore(text, more);
    PayloadsTogether(Split(text).frames, Split(buffer + more).frames);
  }

  /** The body of the loop: the frames that more text completes are handed on. */
  method TakeFrames(payloads: seq<string>, buffer: string, more: string, ghost given: string)
    returns (morePayloads: seq<string>, rest: string)
    requires HasRead(given, payloads, buffer)
    ensures HasRead(given + more, morePayloads, rest)
  {
    hide Split, PayloadsOf, HasRead;
    ReadOn(given, payloads, buffer, more);
    var pieces := Split(buffer + more);
    morePayloads, rest := payloads + PayloadsOf(pieces.frames), pieces.rest;
  }

  lemma ReadAll(text: string, payloads: seq<string>, buffer: string)
    requires HasRead(text, payloads, buffer)
    ensures Payloads(text) == if IsBlank(buffer) then payloads else payloads + PayloadsOf([buffer])
  {
    hide Split, PayloadsOf, IsBlank;
    PayloadsTogether(Split(text).frames, [buffer]);
  }

  lemma SplitNothing()
    ensures Split("") == Pieces([], "") && PayloadsOf([]) == []
  {
  }

  lemma NothingRead()
    ensures HasRead(StripBom(DrawAll([], []).text), [], "")
  {
    SplitNothing();
  }

  /** parseOmnigentSseStream up to the payloads it hands on: whatever the bytes and however they are cut into
      chunks, they are those of the text that all the bytes decode to. */
  method ReadPayloads(chunks: seq<seq<byte>>) returns (payloads: seq<string>)
    ensures payloads == Payloads(StripBom(Lossy(Concat(chunks))))
  {
    hide Split, PayloadsOf, DrawAll, Lossy, StripBom, IsBlank, HasRead, Payloads;
    var decoder := new Decoder();
    var buffer := "";
    payloads := [];
    var n := 0;
    NothingRead();
    while n < |chunks|
      invariant n <= |chunks| && fresh(decoder) && decoder.Valid() && decoder.fed == Concat(chunks[..n])
      invariant HasRead(StripBom(DrawAll([], decoder.fed).text), payloads, buffer)
    {
      assert chunks[..n + 1][..n] == chunks[..n];
      ghost var before := StripBom(DrawAll([], decoder.fed).text);
      var more := decoder.Feed(chunks[n]);
      payloads, buffer := TakeFrames(payloads, buffer, more, before);
      n := n + 1;
    }
    assert chunks[..n] == chunks;
    ghost var before := StripBom(DrawAll([], decoder.fed).text);
    var more := decoder.Finish();
    payloads, buffer := TakeFrames(payloads, buffer, more, before);
    ReadAll(before + more, payloads, buffer);
    if !IsBlank(buffer) {
      payloads := payloads + PayloadsOf([buffer]);
    }
  }

  // ----- framing -----

  /** A line of a frame and how it ends: a data field, whose value may have white space around it, or a line
      that is to be ignored. */
  datatype Line =
    | Data(lead: string, value: string, trail: string, crlf: bool)
    | Other(text: string, crlf: bool)

  function LineBreak(crlf: bool): string {
    if crlf then "\r\n" else "\n"
  }

  function Body(l: Line): string {
    match l
    case Data(lead, value, trail, _) => "data:" + lead + value + trail
    case Other(text, _) => text
  }

  predicate IsSpace(s: string) {
    forall c :: c in s ==> c in SPACES
  }

  /** The line is no blank one and ends only where it ends; a value begins and ends with no white space. */
  predicate IsLine(l: Line) {
    && Body(l) != "" && '\n' !in Body(l) && Body(l)[|Body(l)| - 1] != '\r'
    && match l
       case Data(lead, value, trail, _) =>
         && IsSpace(lead) && IsSpace(trail)
         && (value != "" ==> value[0] !in SPACES && value[|value| - 1] !in SPACES)
       case Other(text, _) => !("data:" <= text)
  }

  predicate AreLines(lines: seq<Line>) {
    forall i :: 0 <= i < |lines| ==> IsLine(lines[i])
  }

  /** A line and its end. */
  function Ended(l: Line): string {
    Body(l) + LineBreak(l.crlf)
  }

  /** The lines one below the other; the last one without its end. */
  function Below(lines: seq<Line>): string
    requires lines != []
  {
    if |lines| == 1 then Body(lines[0]) else Ended(lines[0]) + Below(lines[1..])
  }

  /** The lines of a frame, and how the blank line behind them ends. */
  datatype Frame = Frame(lines: seq<Line>, crlf: bool)

  predicate IsFrame(f: Frame) {
    f.lines != [] && AreLines(f.lines)
  }

  function LastBreak(lines: seq<Line>): string
    requires lines != []
  {
    LineBreak(lines[|lines| - 1].crlf)
  }

  function FrameText(f: Frame): string
    requires IsFrame(f)
  {
    Below(f.lines) + LastBreak(f.lines) + LineBreak(f.crlf)
  }

  /** A stream of frames, and lines behind them that no blank line ends. */
  function StreamText(frames: seq<Frame>, rest: string): string
    requires forall i :: 0 <= i < |frames| ==> IsFrame(frames[i])
  {
    if frames == [] then rest else FrameText(frames[0]) + StreamText(frames[1..], rest)
  }

  /** Nothing, or lines the last of which has its end or not. */
  predicate IsRest(lines: seq<Line>, rest: string) {
    && AreLines(lines)
    && if lines == [] then rest == "" else rest == Below(lines) || rest == Below(lines) + LastBreak(lines)
  }

  function ValuesOf(lines: seq<Line>): seq<string> {
    if lines == [] then []
    else (if lines[0].Data? then [lines[0].value] else []) + ValuesOf(lines[1..])
  }

  /** Values with a newline between them. */
  function Together(values: seq<string>): string
    requires values != []
  {
    var n := |values| - 1;
    if n == 0 then values[0] else Together(values[..n]) + ['\n'] + values[n]
  }

  /** What lines have to give: their values together, and nothing when there is none. */
  function Given(lines: seq<Line>): seq<string> {
    if ValuesOf(lines) == [] then [] else [Together(ValuesOf(lines))]
  }

  function AllGiven(frames: seq<Frame>): seq<string> {
    if frames == [] then [] else Given(frames[0].lines) + AllGiven(frames[1..])
  }

  // ----- trimming -----

  lemma {:induction false} TrimLead(lead: string, s: string)
    requires IsSpace(lead) && (s != "" ==> s[0] !in SPACES)
    ensures TrimStart(lead + s) == s
  {
    if lead == "" {
      assert lead + s == s;
      if s != "" {
        TrimmedExactly(s[0]);
      }
    } else {
      TrimmedExactly(lead[0]);
      TrimLead(lead[1..], s);
      assert (lead + s)[1..] == lead[1..] + s;
    }
  }

  lemma {:induction false} TrimTrail(s: string, trail: string)
    requires IsSpace(trail) && (s != "" ==> s[|s| - 1] !in SPACES)
    ensures TrimEnd(s + trail) == s
  {
    var n := |trail| - 1;
    if trail == "" {
      assert s + trail == s;
      if s != "" {
        TrimmedExactly(s[|s| - 1]);
      }
    } else {
      TrimmedExactly(trail[n]);
      TrimTrail(s, trail[..n]);
      assert (s + trail)[..|s| + n] == s + trail[..n];
    }
  }

  lemma {:induction false} TrimSpace(s: string)
    requires IsSpace(s)
    ensures TrimStart(s) == ""
  {
    if s != "" {
      TrimmedExactly(s[0]);
      TrimSpace(s[1..]);
    }
  }

  /** Trimming gives the value between white space. */
  lemma TrimGivesValue(lead: string, value: string, trail: string)
    requires IsSpace(lead) && IsSpace(trail)
    requires value != "" ==> value[0] !in SPACES && value[|value| - 1] !in SPACES
    ensures Trim(lead + value + trail) == value
  {
    hide IsTrimmed, TrimStart, TrimEnd;
    if value == "" {
      assert lead + value + trail == lead + trail;
      TrimSpace(lead + trail);
      TrimTrail("", "");
      assert "" + "" == "";
    } else {
      assert lead + value + trail == lead + (value + trail);
      TrimLead(lead, value + trail);
      TrimTrail(value, trail);
    }
  }

  // ----- where lines and frames end -----

  lemma LineEndBehind(a: string, b: string, i: nat)
    ensures LineEndAt(a + b, |a| + i) == LineEndAt(b, i)
  {
  }

  lemma SeparatorBehind(a: string, b: string, i: nat)
    ensures SeparatorAt(a + b, |a| + i) == SeparatorAt(b, i)
  {
    LineEndBehind(a, b, i);
    LineEndBehind(a, b, i + LineEndAt(b, i));
    hide LineEndAt;
  }

  /** A line has no end within it, and then the end it has. */
  lemma BodyEnds(l: Line, more: string)
    requires IsLine(l)
    ensures
      var s := Ended(l) + more;
      && (forall i: nat :: i < |Body(l)| ==> LineEndAt(s, i) == 0)
      && LineEndAt(s, |Body(l)|) == |LineBreak(l.crlf)|
      && (|Body(l)| + 1 < |Ended(l)| ==> LineEndAt(s, |Body(l)| + 1) == 1)
    ensures forall i: nat :: i < |Body(l)| ==> LineEndAt(Body(l), i) == 0
    ensures LineEndAt(Body(l) + more, 0) == 0
  {
    var b := Body(l);
    var s := Ended(l) + more;
    assert forall i :: 0 <= i < |b| ==> s[i] == b[i] && b[i] != '\n';
    hide IsLine, Body;
  }

  lemma LineLengths(l: Line)
    ensures |Body(l)| < |Ended(l)| == |Body(l)| + |LineBreak(l.crlf)| <= |Body(l)| + 2
    ensures Ended(l)[..|Body(l)|] == Body(l)
  {
    hide Body;
  }

  lemma LineEndIs(s: string, n: nat)
    requires n <= |s| && (forall i: nat :: i < n ==> LineEndAt(s, i) == 0) && (n < |s| ==> LineEndAt(s, n) > 0)
    ensures NextLineEnd(s, 0) == n
  {
    hide LineEndAt;
    var m := NextLineEnd(s, 0);
  }

  lemma LinesOnce(s: string)
    ensures
      var i := NextLineEnd(s, 0);
      Lines(s) == if i == |s| then [s] else [s[..i]] + Lines(s[i + LineEndAt(s, i)..])
  {
    hide LineEndAt, NextLineEnd;
  }

  lemma FirstLineEnd(l: Line, more: string)
    requires IsLine(l)
    ensures Lines(Body(l)) == [Body(l)]
    ensures Lines(Ended(l) + more) == [Body(l)] + Lines(more)
  {
    BodyEnds(l, more);
    LineLengths(l);
    hide LineEndAt, NextLineEnd, IsLine, Body, Ended, Lines, LineBreak;
    var s := Ended(l) + more;
    LineEndIs(s, |Body(l)|);
    LineEndIs(Body(l), |Body(l)|);
    LinesOnce(s);
    LinesOnce(Body(l));
    assert s[..|Body(l)|] == Ended(l)[..|Body(l)|] && s[|Ended(l)|..] == more;
  }

  /** Text that does not begin with a line end. */
  predicate BeginsInLine(s: string) {
    s != "" && LineEndAt(s, 0) == 0
  }

  lemma SeparatorIs(s: string, n: nat)
    requires n <= |s| && (forall i: nat :: i < n ==> SeparatorAt(s, i) == 0) && (n < |s| ==> SeparatorAt(s, n) > 0)
    ensures NextSeparator(s, 0) == n
  {
    hide SeparatorAt;
    var m := NextSeparator(s, 0);
  }

  lemma NextBehind(head: string, more: string)
    requires forall i: nat :: i < |head| ==> SeparatorAt(head + more, i) == 0
    ensures NextSeparator(head + more, 0) == |head| + NextSeparator(more, 0)
  {
    var n := NextSeparator(more, 0);
    forall i: nat
      ensures SeparatorAt(head + more, |head| + i) == SeparatorAt(more, i)
    {
      SeparatorBehind(head, more, i);
    }
    hide SeparatorAt, NextSeparator;
    forall i: nat | i < |head| + n
      ensures SeparatorAt(head + more, i) == 0
    {
      if i >= |head| {
        var j: nat := i - |head|;
        assert SeparatorAt(more, j) == 0;
      }
    }
    SeparatorIs(head + more, |head| + n);
  }

  /** Behind a line that another one follows there is no separator. */
  lemma NoSeparatorBetween(l: Line, more: string)
    requires IsLine(l) && BeginsInLine(more)
    ensures NextSeparator(Ended(l) + more, 0) == |Ended(l)| + NextSeparator(more, 0)
    ensures forall i: nat :: SeparatorAt(Ended(l) + more, |Ended(l)| + i) == SeparatorAt(more, i)
  {
    var head := Ended(l);
    BodyEnds(l, more);
    LineLengths(l);
    LineEndBehind(head, more, 0);
    hide LineEndAt, NextSeparator, IsLine, Body, Ended, LineBreak;
    forall i: nat | i < |head|
      ensures SeparatorAt(head + more, i) == 0
    {
      assert i < |Body(l)| || i == |Body(l)| || i == |Body(l)| + 1;
    }
    NextBehind(head, more);
    forall i: nat
      ensures SeparatorAt(head + more, |head| + i) == SeparatorAt(more, i)
    {
      SeparatorBehind(head, more, i);
    }
  }

  lemma BlankEnds(crlf: bool, more: string)
    ensures LineEndAt(LineBreak(crlf) + more, 0) == |LineBreak(crlf)| > 0
  {
  }

  /** The last line of a frame and the blank line. */
  lemma SeparatorAtEnd(l: Line, crlf: bool, more: string)
    requires IsLine(l)
    ensures
      var s := Ended(l) + (LineBreak(crlf) + more);
      && NextSeparator(s, 0) == |Body(l)|
      && SeparatorAt(s, |Body(l)|) == |LineBreak(l.crlf)| + |LineBreak(crlf)|
  {
    var end := LineBreak(crlf) + more;
    BodyEnds(l, end);
    BlankEnds(l.crlf, "");
    BlankEnds(crlf, more);
    LineLengths(l);
    LineEndBehind(Ended(l), end, 0);
    hide LineEndAt, NextSeparator, IsLine, Body, Ended, LineBreak;
    SeparatorIs(Ended(l) + end, |Body(l)|);
  }

  lemma BelowBegins(lines: seq<Line>, more: string)
    requires lines != [] && AreLines(lines)
    ensures Below(lines) != "" && BeginsInLine(Below(lines) + more)
  {
    assert IsLine(lines[0]) && Body(lines[0]) != "";
    if |lines| == 1 {
      BodyEnds(lines[0], more);
    } else {
      var tail := LineBreak(lines[0].crlf) + Below(lines[1..]) + more;
      BodyEnds(lines[0], tail);
      assert Below(lines) + more == Body(lines[0]) + tail;
    }
    hide IsLine, LineEndAt, Body;
  }

  lemma BelowFirst(lines: seq<Line>)
    requires lines != []
    ensures |lines| > 1 ==>
      Below(lines) == Ended(lines[0]) + Below(lines[1..]) && LastBreak(lines) == LastBreak(lines[1..])
    ensures |lines| == 1 ==> Below(lines) + LastBreak(lines) == Ended(lines[0]) && Below(lines) == Body(lines[0])
    ensures AreLines(lines) ==> IsLine(lines[0]) && AreLines(lines[1..])
  {
    hide Body, IsLine;
  }

  lemma Regroup(a: string, b: string, c: string)
    ensures a + b + c == a + (b + c)
  {
  }

  lemma LastOfOne(lines: seq<Line>)
    requires |lines| == 1
    ensures LastBreak(lines) == LineBreak(lines[0].crlf)
  {
  }

  /** The first separator in a frame is the one that ends it. */
  lemma {:induction false} FrameEnds(lines: seq<Line>, crlf: bool, more: string)
    requires lines != [] && AreLines(lines)
    ensures
      var s := Below(lines) + LastBreak(lines) + (LineBreak(crlf) + more);
      && NextSeparator(s, 0) == |Below(lines)|
      && SeparatorAt(s, |Below(lines)|) == |LastBreak(lines)| + |LineBreak(crlf)|
    decreases |lines|
  {
    hide *;
    BelowFirst(lines);
    var end := LineBreak(crlf) + more;
    if |lines| == 1 {
      SeparatorAtEnd(lines[0], crlf, more);
      LastOfOne(lines);
    } else {
      var tail := lines[1..];
      FrameEnds(tail, crlf, more);
      BelowBegins(tail, LastBreak(tail) + end);
      Regroup(Below(tail), LastBreak(tail), end);
      NoSeparatorBetween(lines[0], Below(tail) + LastBreak(tail) + end);
      Regroup(Ended(lines[0]), Below(tail), LastBreak(tail));
      Regroup(Ended(lines[0]), Below(tail) + LastBreak(tail), end);
    }
  }

  lemma NoLineEndBehind(s: string)
    ensures LineEndAt(s, |s|) == 0
  {
  }

  lemma LoneLine(l: Line)
    requires IsLine(l)
    ensures NextSeparator(Body(l), 0) == |Body(l)| && NextSeparator(Ended(l), 0) == |Ended(l)|
  {
    BodyEnds(l, "");
    LineLengths(l);
    assert Ended(l) + "" == Ended(l);
    NoLineEndBehind(Ended(l));
    hide LineEndAt, NextSeparator, IsLine, Body, Ended, LineBreak;
    forall i: nat | i < |Ended(l)|
      ensures SeparatorAt(Ended(l), i) == 0
    {
      assert i < |Body(l)| || i == |Body(l)| || i == |Body(l)| + 1;
    }
    SeparatorIs(Ended(l), |Ended(l)|);
    SeparatorIs(Body(l), |Body(l)|);
  }

  /** Lines that no blank line ends hold no separator. */
  lemma {:induction false} RestHasNoEnd(lines: seq<Line>, end: string)
    requires lines != [] && AreLines(lines) && (end == "" || end == LastBreak(lines))
    ensures NextSeparator(Below(lines) + end, 0) == |Below(lines) + end|
    decreases |lines|
  {
    hide *;
    BelowFirst(lines);
    if |lines| == 1 {
      LoneLine(lines[0]);
      assert Below(lines) + "" == Below(lines);
    } else {
      var tail := lines[1..];
      RestHasNoEnd(tail, end);
      BelowBegins(tail, end);
      NoSeparatorBetween(lines[0], Below(tail) + end);
      Regroup(Ended(lines[0]), Below(tail), end);
    }
  }

  // ----- what lines give -----

  function Bodies(lines: seq<Line>): seq<string> {
    if lines == [] then [] else [Body(lines[0])] + Bodies(lines[1..])
  }

  lemma BodiesFirst(lines: seq<Line>)
    requires lines != []
    ensures Bodies(lines) == [Body(lines[0])] + Bodies(lines[1..])
    ensures |lines| == 1 ==> Bodies(lines) == [Body(lines[0])]
    ensures Lines("") == [""]
  {
    hide Body;
  }

  lemma {:induction false} LinesOfBelow(lines: seq<Line>)
    requires lines != [] && AreLines(lines)
    ensures Lines(Below(lines)) == Bodies(lines)
    ensures Lines(Below(lines) + LastBreak(lines)) == Bodies(lines) + [""]
    decreases |lines|
  {
    hide *;
    BelowFirst(lines);
    BodiesFirst(lines);
    if |lines| == 1 {
      FirstLineEnd(lines[0], "");
      assert Ended(lines[0]) + "" == Ended(lines[0]);
    } else {
      var tail := lines[1..];
      LinesOfBelow(tail);
      FirstLineEnd(lines[0], Below(tail));
      FirstLineEnd(lines[0], Below(tail) + LastBreak(tail));
      Regroup(Ended(lines[0]), Below(tail), LastBreak(tail));
      Regrouped(Body(lines[0]), Bodies(tail), [""]);
    }
  }

  lemma DataOfLine(l: Line)
    requires IsLine(l)
    ensures l.Data? ==> DATA <= Body(l) && Trim(Body(l)[5..]) == l.value
    ensures l.Other? ==> !(DATA <= Body(l))
  {
    hide Trim;
    if l.Data? {
      assert Body(l) == DATA + (l.lead + l.value + l.trail);
      assert Body(l)[5..] == l.lead + l.value + l.trail;
      TrimGivesValue(l.lead, l.value, l.trail);
    }
  }

  lemma {:induction false} DataOfLines(lines: seq<Line>)
    requires AreLines(lines)
    ensures DataLines(Bodies(lines)) == ValuesOf(lines)
    ensures DataLines(Bodies(lines) + [""]) == ValuesOf(lines)
    decreases |lines|
  {
    if lines == [] {
      assert Bodies(lines) + [""] == [""];
      assert [""][1..] == [];
      assert DataLines([]) == [];
    } else {
      assert IsLine(lines[0]);
      DataOfLine(lines[0]);
      hide Body, IsLine, Trim;
      DataOfLines(lines[1..]);
      var bodies := Bodies(lines);
      assert bodies[1..] == Bodies(lines[1..]);
      assert (bodies + [""])[1..] == bodies[1..] + [""];
    }
  }

  lemma {:induction false} JoinLast(values: seq<string>, last: string)
    requires values != []
    ensures Join(values + [last]) == Join(values) + "\n" + last
    decreases |values|
  {
    var all := values + [last];
    assert all[1..] == values[1..] + [last];
    if |values| == 1 {
      assert Join(all) == values[0] + "\n" + Join([last]);
    } else {
      JoinLast(values[1..], last);
    }
  }

  lemma {:induction false} JoinTogether(values: seq<string>)
    requires values != []
    ensures Join(values) == Together(values)
    decreases |values|
  {
    var n := |values| - 1;
    if n > 0 {
      JoinLast(values[..n], values[n]);
      JoinTogether(values[..n]);
      assert values == values[..n] + [values[n]];
    }
  }

  /** The payload of a frame, and of lines that no blank line ends. */
  lemma PayloadIsGiven(lines: seq<Line>, text: string)
    requires lines != [] && AreLines(lines) && (text == Below(lines) || text == Below(lines) + LastBreak(lines))
    ensures PayloadsOf([text]) == Given(lines)
  {
    hide Lines, Bodies, DataLines, Join, Together, ValuesOf, Below, IsLine;
    LinesOfBelow(lines);
    DataOfLines(lines);
    if ValuesOf(lines) != [] {
      JoinTogether(ValuesOf(lines));
    }
    assert [text][..0] == [];
    assert PayloadsOf([]) == [];
  }

  /** The text is split where its first separator is. */
  lemma SplitWhere(s: string, frame: string, separator: string, more: string)
    requires s == frame + separator + more && separator != ""
    requires NextSeparator(s, 0) == |frame| && SeparatorAt(s, |frame|) == |separator|
    ensures Split(s) == Pieces([frame] + Split(more).frames, Split(more).rest)
  {
    hide SeparatorAt, NextSeparator, Split;
    SplitOnce(s);
    assert s[..|frame|] == frame && s[|frame| + |separator|..] == more;
  }

  lemma FrameParts(f: Frame, more: string)
    requires IsFrame(f)
    ensures
      var b, last, end := Below(f.lines), LastBreak(f.lines), LineBreak(f.crlf);
      && AreLines(f.lines) && FrameText(f) + more == b + last + (end + more) == b + (last + end) + more
      && last + end != ""
  {
    hide Below, AreLines;
    var b, last, end := Below(f.lines), LastBreak(f.lines), LineBreak(f.crlf);
    Regroup(b + last, end, more);
    Regroup(b, last, end);
  }

  lemma FramedSplit(f: Frame, more: string)
    requires IsFrame(f)
    ensures f.lines != []
    ensures Split(FrameText(f) + more) == Pieces([Below(f.lines)] + Split(more).frames, Split(more).rest)
  {
    FrameParts(f, more);
    var b, last, end := Below(f.lines), LastBreak(f.lines), LineBreak(f.crlf);
    hide *;
    FrameEnds(f.lines, f.crlf, more);
    SplitWhere(FrameText(f) + more, b, last + end, more);
  }

  lemma RestForms(lines: seq<Line>, rest: string) returns (end: string)
    requires lines != [] && IsRest(lines, rest)
    ensures AreLines(lines) && rest == Below(lines) + end && (end == "" || end == LastBreak(lines))
  {
    assert Below(lines) + "" == Below(lines);
    end := if rest == Below(lines) then "" else LastBreak(lines);
  }

  lemma BlankBehind(head: string, tail: string)
    requires IsBlank(head + tail)
    ensures IsBlank(head) && IsBlank(tail)
  {
    hide IsTrimmed;
    assert forall i :: 0 <= i < |head| ==> (head + tail)[i] == head[i];
    assert forall i :: 0 <= i < |tail| ==> (head + tail)[|head| + i] == tail[i];
  }

  lemma BlankIsOther(l: Line, text: string)
    requires IsLine(l) && (text == Ended(l) || text == Body(l)) && IsBlank(text)
    ensures l.Other?
  {
    assert Body(l)[0] == text[0];
  }

  /** Blank text gives nothing. */
  lemma {:induction false} BlankGivesNothing(lines: seq<Line>, end: string)
    requires lines != [] && AreLines(lines) && IsBlank(Below(lines) + end)
    ensures ValuesOf(lines) == []
    decreases |lines|
  {
    hide IsLine, AreLines, Below, IsBlank, Body, Ended;
    BelowFirst(lines);
    BlankBehind(Below(lines), end);
    if |lines| > 1 {
      var tail := lines[1..];
      Regroup(Ended(lines[0]), Below(tail), end);
      BlankBehind(Ended(lines[0]), Below(tail) + end);
      BlankIsOther(lines[0], Ended(lines[0]));
      BlankGivesNothing(tail, end);
    } else {
      BlankIsOther(lines[0], Below(lines));
      assert lines[1..] == [];
    }
  }

  lemma NothingIsBlank()
    ensures IsBlank("")
  {
  }

  lemma SplitRest(lines: seq<Line>, rest: string)
    requires IsRest(lines, rest)
    ensures Split(rest) == Pieces([], rest)
    ensures PayloadsOf(if IsBlank(rest) then [] else [rest]) == Given(lines)
  {
    hide Split, AreLines, IsBlank, PayloadsOf, Below, LastBreak;
    SplitNothing();
    if lines == [] {
      NothingIsBlank();
    } else {
      var end := RestForms(lines, rest);
      RestHasNoEnd(lines, end);
      SplitOnce(rest);
      PayloadIsGiven(lines, rest);
      if IsBlank(rest) {
        BlankGivesNothing(lines, end);
      }
    }
  }

  lemma FrameGives(f: Frame)
    requires IsFrame(f)
    ensures f.lines != [] && PayloadsOf([Below(f.lines)]) == Given(f.lines)
  {
    hide PayloadsOf, Below, Given, AreLines;
    PayloadIsGiven(f.lines, Below(f.lines));
  }

  /** The payloads of a text are those of its frames and of what is left. */
  lemma PayloadsAre(s: string, given: seq<string>, rest: string, last: seq<string>)
    requires PayloadsOf(Split(s).frames) == given && Split(s).rest == rest
    requires PayloadsOf(if IsBlank(rest) then [] else [rest]) == last
    ensures Payloads(s) == given + last
  {
    hide Split, PayloadsOf, IsBlank;
    SplitNothing();
    PayloadsTogether(Split(s).frames, [rest]);
  }

  /** Reading a stream of frames gives what each of them has to give, whichever way its lines end: the values of
      its data fields together, other lines ignored, and nothing for a frame without data; and the lines that
      are left at the end as well. */
  lemma {:induction false} FramingRoundTrip(frames: seq<Frame>, lines: seq<Line>, rest: string)
    requires (forall i :: 0 <= i < |frames| ==> IsFrame(frames[i])) && IsRest(lines, rest)
    ensures PayloadsOf(Split(StreamText(frames, rest)).frames) == AllGiven(frames)
    ensures Split(StreamText(frames, rest)).rest == rest
    ensures Payloads(StreamText(frames, rest)) == AllGiven(frames) + Given(lines)
    decreases |frames|
  {
    hide Split, FrameText, IsFrame, PayloadsOf, IsBlank, IsRest, Given, Below, Payloads;
    SplitRest(lines, rest);
    if frames == [] {
      SplitNothing();
    } else {
      var f, more := frames[0], frames[1..];
      FramingRoundTrip(more, lines, rest);
      FramedSplit(f, StreamText(more, rest));
      FrameGives(f);
      PayloadsTogether([Below(f.lines)], Split(StreamText(more, rest)).frames);
    }
    PayloadsAre(StreamText(frames, rest), AllGiven(frames), rest, Given(lines));
  }

  /** The same end to end: framed, encoded, perhaps behind a byte order mark, cut anywhere, and read. */
  method FramedAndRead(ghost frames: seq<Frame>, ghost lines: seq<Line>, ghost rest: string, ghost text: string,
                       chunks: seq<seq<byte>>)
    returns (payloads: seq<string>)
    requires (forall i :: 0 <= i < |frames| ==> IsFrame(frames[i])) && IsRest(lines, rest)
    requires IsContent(text, StreamText(frames, rest)) && Concat(chunks) == Encode(text)
    ensures payloads == AllGiven(frames) + Given(lines)
  {
    hide IsRest, IsFrame, Payloads, StripBom, Lossy;
    payloads := ReadPayloads(chunks);
    LossyEncode(text);
    StripExactly(text, StreamText(frames, rest));
    FramingRoundTrip(frames, lines, rest);
  }
}
