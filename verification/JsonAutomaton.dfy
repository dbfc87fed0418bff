/** A pushdown automaton over characters. It stops being live at the first character that no
    JSON text could have there, which is what deciding "prefix of a JSON text" needs.
    Its frames are the frames that truncatedJson keeps. */
module JsonAutomaton {
  import opened JsonGrammar
  import opened NumberAutomaton
  import opened JsonParser
  import opened Wrappers

  datatype Kind = RootKind | ArrayKind | ObjectKind

  datatype State = WantValue | WantValueOrEnd | WantKey | WantKeyOrEnd | WantColon | WantComma | Ended

  datatype Frame = Frame(kind: Kind, state: State)

  /** Where in a token the text stands. */
  datatype Lex =
    | Between
    | InString
    | Escaped
    | InHex(left: nat)
    | InWord(owed: string)
    | InNumber(q: NumState)

  datatype Config = Dead | Live(frames: seq<Frame>, lex: Lex)

  const INITIAL: Config := Live([Frame(RootKind, WantValue)], Between)

  function AfterValue(kind: Kind): State {
    if kind.RootKind? then Ended else WantComma
  }

  function Closing(kind: Kind): char {
    if kind.ArrayKind? then ']' else '}'
  }

  predicate StateFits(f: Frame) {
    match f.kind
    case RootKind => f.state.WantValue? || f.state.Ended?
    case ArrayKind => f.state.WantValue? || f.state.WantValueOrEnd? || f.state.WantComma?
    case ObjectKind =>
      || f.state.WantKey? || f.state.WantKeyOrEnd? || f.state.WantColon?
      || f.state.WantValue? || f.state.WantComma?
  }

  /** The root is at the bottom, and every container that holds another one waits for its comma or end. */
  predicate WellFormed(frames: seq<Frame>) {
    && |frames| > 0
    && (forall i :: 0 <= i < |frames| ==> (frames[i].kind.RootKind? <==> i == 0))
    && (forall i :: 0 <= i < |frames| - 1 ==> frames[i].state == AfterValue(frames[i].kind))
    && StateFits(frames[|frames| - 1])
  }

  predicate LexFits(top: Frame, lex: Lex) {
    match lex
    case Between => true
    case InString => top.state == AfterValue(top.kind) || top.state.WantColon?
    case Escaped => top.state == AfterValue(top.kind) || top.state.WantColon?
    case InHex(left) => left > 0 && (top.state == AfterValue(top.kind) || top.state.WantColon?)
    case InWord(owed) =>
      && owed != "" && (forall i :: 0 <= i < |owed| ==> owed[i] <= 'z')
      && top.state == AfterValue(top.kind)
    case InNumber(q) => !q.Stuck? && !q.Start? && top.state == AfterValue(top.kind)
  }

  function Top(frames: seq<Frame>): Frame
    requires |frames| > 0
  {
    frames[|frames| - 1]
  }

  ghost predicate Sound(c: Config) {
    c.Live? ==> WellFormed(c.frames) && LexFits(Top(c.frames), c.lex)
  }

  function SetTop(frames: seq<Frame>, state: State): (r: seq<Frame>)
    requires |frames| > 0
    ensures |r| == |frames| && Top(r) == Frame(Top(frames).kind, state)
  {
    frames[|frames| - 1 := Frame(Top(frames).kind, state)]
  }

  function Pop(frames: seq<Frame>): seq<Frame>
    requires |frames| > 0
  {
    frames[..|frames| - 1]
  }

  /** A value starts at this character; the frame already waits for what comes after the value. */
  function StartValue(after: seq<Frame>, c: char): Config {
    if c == '{' then Live(after + [Frame(ObjectKind, WantKeyOrEnd)], Between)
    else if c == '[' then Live(after + [Frame(ArrayKind, WantValueOrEnd)], Between)
    else if c == '"' then Live(after, InString)
    else if c == 't' then Live(after, InWord("rue"))
    else if c == 'f' then Live(after, InWord("alse"))
    else if c == 'n' then Live(after, InWord("ull"))
    else if NumStep(Start, c).Stuck? then Dead
    else Live(after, InNumber(NumStep(Start, c)))
  }

  function StepBetween(frames: seq<Frame>, c: char): Config
    requires |frames| > 0
  {
    var top := Top(frames);
    if IsWs(c) then Live(frames, Between)
    else if top.state.Ended? then Dead
    else if top.state.WantColon? then
      if c == ':' then Live(SetTop(frames, WantValue), Between) else Dead
    else if top.state.WantComma? then
      if c == Closing(top.kind) then Live(Pop(frames), Between)
      else if c == ',' then Live(SetTop(frames, if top.kind.ArrayKind? then WantValue else WantKey), Between)
      else Dead
    else if (top.state.WantKeyOrEnd? || top.state.WantValueOrEnd?) && c == Closing(top.kind) then
      Live(Pop(frames), Between)
    else if top.state.WantKey? || top.state.WantKeyOrEnd? then
      if c == '"' then Live(SetTop(frames, WantColon), InString) else Dead
    else StartValue(SetTop(frames, AfterValue(top.kind)), c)
  }

  function Step(config: Config, c: char): Config {
    if config.Dead? || |config.frames| == 0 then Dead
    else
      var frames := config.frames;
      match config.lex
      case Between => StepBetween(frames, c)
      case InString =>
        if c == '"' then Live(frames, Between)
        else if IsControl(c) then Dead
        else if c == '\\' then Live(frames, Escaped)
        else Live(frames, InString)
      case Escaped =>
        if IsEscapeLetter(c) then Live(frames, InString)
        else if c == 'u' then Live(frames, InHex(4))
        else Dead
      case InHex(left) =>
        if !IsHex(c) then Dead else if left <= 1 then Live(frames, InString) else Live(frames, InHex(left - 1))
      case InWord(owed) =>
        if owed == "" || c != owed[0] then Dead
        else if |owed| == 1 then Live(frames, Between)
        else Live(frames, InWord(owed[1..]))
      case InNumber(q) =>
        if !NumStep(q, c).Stuck? then Live(frames, InNumber(NumStep(q, c)))
        else if Accepting(q) then StepBetween(frames, c)
        else Dead
  }

  function Run(config: Config, s: string): Config
    decreases |s|
  {
    if s == "" then config else Run(Step(config, s[0]), s[1..])
  }

  predicate Final(config: Config) {
    && config.Live? && |config.frames| == 1 && config.frames[0].state.Ended?
    && (config.lex.Between? || (config.lex.InNumber? && Accepting(config.lex.q)))
  }

  predicate Accepts(config: Config, s: string) {
    Final(Run(config, s))
  }

  // ----- basic facts about runs -----

  lemma {:induction false} RunConcat(c: Config, a: string, b: string)
    ensures Run(c, a + b) == Run(Run(c, a), b)
    decreases |a|
  {
    if a == "" {
      assert a + b == b;
    } else {
      assert (a + b)[1..] == a[1..] + b;
      RunConcat(Step(c, a[0]), a[1..], b);
    }
  }

  lemma {:induction false} DeadStays(s: string)
    ensures Run(Dead, s) == Dead
    decreases |s|
  {
    if s != "" {
      DeadStays(s[1..]);
    }
  }

  lemma StartValueSound(after: seq<Frame>, c: char)
    requires WellFormed(after) && Top(after).state == AfterValue(Top(after).kind)
    ensures Sound(StartValue(after, c))
  {
  }

  lemma PopSound(frames: seq<Frame>)
    requires WellFormed(frames) && !Top(frames).kind.RootKind?
    ensures WellFormed(Pop(frames)) && Top(Pop(frames)).state == AfterValue(Top(Pop(frames)).kind)
  {
  }

  lemma StepBetweenSound(frames: seq<Frame>, c: char)
    requires WellFormed(frames)
    ensures Sound(StepBetween(frames, c))
  {
    var top := Top(frames);
    if !top.kind.RootKind? {
      PopSound(frames);
    }
    if top.state.WantValue? || top.state.WantValueOrEnd? {
      StartValueSound(SetTop(frames, AfterValue(top.kind)), c);
    }
  }

  lemma StepSound(config: Config, c: char)
    requires Sound(config)
    ensures Sound(Step(config, c))
  {
    if config.Live? && (config.lex.Between? || config.lex.InNumber?) {
      StepBetweenSound(config.frames, c);
    }
  }

  lemma {:induction false} RunSound(config: Config, s: string)
    requires Sound(config)
    ensures Sound(Run(config, s))
    decreases |s|
  {
    if s != "" {
      StepSound(config, s[0]);
      RunSound(Step(config, s[0]), s[1..]);
    }
  }

  // ----- every live configuration can be completed -----

  /** Closes the containers below a frame whose value is complete. */
  function CloseAll(frames: seq<Frame>): string
    decreases |frames|
  {
    if |frames| <= 1 then "" else [Closing(Top(frames).kind)] + CloseAll(Pop(frames))
  }

  /** Finishes the top container, starting between tokens. */
  function FinishFrames(frames: seq<Frame>): string
    requires |frames| > 0
  {
    (match Top(frames).state
     case WantValue => "0"
     case WantValueOrEnd => ""
     case WantKey => "\"\":0"
     case WantKeyOrEnd => ""
     case WantColon => ":0"
     case WantComma => ""
     case Ended => "") + CloseAll(frames)
  }

  function Zeros(n: nat): string {
    if n == 0 then "" else "0" + Zeros(n - 1)
  }

  function Finish(c: Config): string
    requires c.Live? && |c.frames| > 0
  {
    (match c.lex
     case Between => ""
     case InString => "\""
     case Escaped => "n\""
     case InHex(left) => Zeros(left) + "\""
     case InWord(owed) => owed
     case InNumber(q) => if Accepting(q) then "" else "0") + FinishFrames(c.frames)
  }

  /** A frame whose value is complete, possibly still inside a number, closes. */
  lemma {:induction false} CloseAllAccepts(frames: seq<Frame>, lex: Lex)
    requires WellFormed(frames) && Top(frames).state == AfterValue(Top(frames).kind)
    requires lex.Between? || (lex.InNumber? && Accepting(lex.q))
    ensures Accepts(Live(frames, lex), CloseAll(frames))
    decreases |frames|
  {
    if |frames| > 1 {
      PopSound(frames);
      CloseAllAccepts(Pop(frames), Between);
      var s := CloseAll(frames);
      assert s[1..] == CloseAll(Pop(frames));
      assert Step(Live(frames, lex), s[0]) == Live(Pop(frames), Between);
    }
  }

  lemma RunOne(c: Config, a: char, s: string)
    ensures Run(c, [a] + s) == Run(Step(c, a), s)
  {
    assert ([a] + s)[1..] == s;
  }

  lemma RunZero(frames: seq<Frame>, s: string)
    requires |frames| > 0 && Top(frames).state.WantValue?
    ensures Run(Live(frames, Between), "0" + s) ==
      Run(Live(SetTop(frames, AfterValue(Top(frames).kind)), InNumber(Zero)), s)
  {
    RunOne(Live(frames, Between), '0', s);
  }

  lemma CloseAllIgnoresState(frames: seq<Frame>, state: State)
    requires |frames| > 0
    ensures CloseAll(SetTop(frames, state)) == CloseAll(frames)
  {
    assert Pop(SetTop(frames, state)) == Pop(frames);
  }

  lemma FinishValueAccepts(frames: seq<Frame>)
    requires WellFormed(frames) && Top(frames).state.WantValue?
    ensures Accepts(Live(frames, Between), "0" + CloseAll(frames))
  {
    var after := SetTop(frames, AfterValue(Top(frames).kind));
    RunZero(frames, CloseAll(frames));
    CloseAllIgnoresState(frames, AfterValue(Top(frames).kind));
    CloseAllAccepts(after, InNumber(Zero));
  }

  lemma FinishColonAccepts(frames: seq<Frame>)
    requires WellFormed(frames) && Top(frames).state.WantColon?
    ensures Accepts(Live(frames, Between), ":0" + CloseAll(frames))
  {
    var rest := "0" + CloseAll(frames);
    assert ":0" + CloseAll(frames) == ":" + rest;
    RunOne(Live(frames, Between), ':', rest);
    CloseAllIgnoresState(frames, WantValue);
    FinishValueAccepts(SetTop(frames, WantValue));
  }

  lemma FinishKeyAccepts(frames: seq<Frame>)
    requires WellFormed(frames) && Top(frames).state.WantKey?
    ensures Accepts(Live(frames, Between), "\"\":0" + CloseAll(frames))
  {
    var rest := ":0" + CloseAll(frames);
    var colon := SetTop(frames, WantColon);
    assert "\"\":0" + CloseAll(frames) == "\"" + ("\"" + rest);
    RunOne(Live(frames, Between), '"', "\"" + rest);
    RunOne(Live(colon, InString), '"', rest);
    CloseAllIgnoresState(frames, WantColon);
    FinishColonAccepts(colon);
  }

  lemma FinishEmptyAccepts(frames: seq<Frame>)
    requires WellFormed(frames) && (Top(frames).state.WantValueOrEnd? || Top(frames).state.WantKeyOrEnd?)
    ensures Accepts(Live(frames, Between), CloseAll(frames))
  {
    PopSound(frames);
    RunOne(Live(frames, Between), Closing(Top(frames).kind), CloseAll(Pop(frames)));
    CloseAllAccepts(Pop(frames), Between);
  }

  lemma FinishFramesAccepts(frames: seq<Frame>)
    requires WellFormed(frames)
    ensures Accepts(Live(frames, Between), FinishFrames(frames))
  {
    var top := Top(frames);
    assert "" + CloseAll(frames) == CloseAll(frames);
    match top.state {
      case WantValue => FinishValueAccepts(frames);
      case WantColon => FinishColonAccepts(frames);
      case WantKey => FinishKeyAccepts(frames);
      case WantComma => CloseAllAccepts(frames, Between);
      case Ended => CloseAllAccepts(frames, Between);
      case WantValueOrEnd => FinishEmptyAccepts(frames);
      case WantKeyOrEnd => FinishEmptyAccepts(frames);
    }
  }

  lemma {:induction false} RunZeros(frames: seq<Frame>, n: nat, s: string)
    requires n > 0 && |frames| > 0
    ensures Run(Live(frames, InHex(n)), Zeros(n) + s) == Run(Live(frames, InString), s)
    decreases n
  {
    assert Zeros(n) + s == "0" + (Zeros(n - 1) + s);
    RunOne(Live(frames, InHex(n)), '0', Zeros(n - 1) + s);
    if n == 1 {
      assert Zeros(0) + s == s;
    } else {
      RunZeros(frames, n - 1, s);
    }
  }

  lemma {:induction false} RunWord(frames: seq<Frame>, owed: string, s: string)
    requires owed != "" && |frames| > 0
    ensures Run(Live(frames, InWord(owed)), owed + s) == Run(Live(frames, Between), s)
    decreases |owed|
  {
    assert owed + s == [owed[0]] + (owed[1..] + s);
    RunOne(Live(frames, InWord(owed)), owed[0], owed[1..] + s);
    if |owed| == 1 {
      assert owed[1..] + s == s;
    } else {
      RunWord(frames, owed[1..], s);
    }
  }

  lemma FinishEscapedAccepts(c: Config)
    requires c.Live? && Sound(c) && c.lex.Escaped?
    ensures Accepts(c, Finish(c))
  {
    var close := FinishFrames(c.frames);
    FinishFramesAccepts(c.frames);
    assert "n\"" + close == "n" + ("\"" + close);
    RunOne(c, 'n', "\"" + close);
    RunOne(Live(c.frames, InString), '"', close);
  }

  lemma FinishHexAccepts(c: Config, left: nat)
    requires c.Live? && Sound(c) && c.lex == InHex(left)
    ensures Accepts(c, Finish(c))
  {
    var close := FinishFrames(c.frames);
    FinishFramesAccepts(c.frames);
    assert Zeros(left) + "\"" + close == Zeros(left) + ("\"" + close);
    RunZeros(c.frames, left, "\"" + close);
    RunOne(Live(c.frames, InString), '"', close);
  }

  lemma FinishNumberAccepts(c: Config)
    requires c.Live? && Sound(c) && c.lex.InNumber?
    ensures Accepts(c, Finish(c))
  {
    var q, close := c.lex.q, CloseAll(c.frames);
    assert FinishFrames(c.frames) == "" + close == close;
    if Accepting(q) {
      assert Finish(c) == "" + close == close;
      CloseAllAccepts(c.frames, c.lex);
    } else {
      RunOne(c, '0', close);
      CloseAllAccepts(c.frames, InNumber(NumStep(q, '0')));
    }
  }

  /** A live configuration accepts the text Finish makes for it. */
  lemma FinishAccepts(c: Config)
    requires c.Live? && Sound(c)
    ensures Accepts(c, Finish(c))
  {
    var close := FinishFrames(c.frames);
    FinishFramesAccepts(c.frames);
    match c.lex {
      case Between => assert "" + close == close;
      case InString => RunOne(c, '"', close);
      case Escaped => FinishEscapedAccepts(c);
      case InHex(left) => FinishHexAccepts(c, left);
      case InWord(owed) => RunWord(c.frames, owed, close);
      case InNumber(q) => FinishNumberAccepts(c);
    }
  }
}
