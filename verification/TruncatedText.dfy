/** truncatedJson: is the broken last line of a ledger a genuine prefix of a JSON text? */
module TruncatedText {
  import opened JsonGrammar
  import opened NumberAutomaton
  import opened JsonAutomaton
  import opened JsonAgreement

  /** What the recogniser promises, in terms of the grammar alone. */
  ghost predicate Truncated(text: string, incompleteUtf8: bool) {
    if incompleteUtf8 then CompletableByNonAscii(text) else !IsJsonText(text) && Completable(text)
  }

  datatype StringEnd = Complete | Partial | AsciiPartial | Invalid

  /** A finished number is as good as the gap after it. */
  function Settle(c: Config): Config {
    if c.Live? && c.lex.InNumber? && Accepting(c.lex.q) then Live(c.frames, Between) else c
  }

  /** The same promise read off the final configuration. */
  predicate Verdict(c: Config, incompleteUtf8: bool) {
    c.Live? && if incompleteUtf8 then c.lex.InString? else !Final(c)
  }

  lemma VerdictIsTruncated(text: string, incompleteUtf8: bool)
    ensures Verdict(Run(INITIAL, text), incompleteUtf8) <==> Truncated(text, incompleteUtf8)
  {
    AcceptsExactlyJson(text);
    LiveExactlyCompletable(text);
    InStringExactlyNonAscii(text);
  }

  predicate IsNumberChar(c: char) {
    IsDigit(c) || c == '.' || c == 'e' || c == 'E' || c == '+' || c == '-'
  }

  lemma NumberCharDead(frames: seq<Frame>, c: char)
    requires |frames| > 0 && Top(frames).state == AfterValue(Top(frames).kind)
    requires IsNumberChar(c)
    ensures StepBetween(frames, c) == Dead
  {
  }

  /** A maximal span of number characters is one number or no prefix of anything. */
  lemma {:induction false} NumberSpanRun(frames: seq<Frame>, q: NumState, s: string)
    requires |frames| > 0 && Top(frames).state == AfterValue(Top(frames).kind) && !q.Stuck?
    requires forall i :: 0 <= i < |s| ==> IsNumberChar(s[i])
    ensures Run(Live(frames, InNumber(q)), s) ==
      if NumRun(q, s).Stuck? then Dead else Live(frames, InNumber(NumRun(q, s)))
    decreases |s|
  {
    if s != "" {
      if NumStep(q, s[0]).Stuck? {
        NumberCharDead(frames, s[0]);
        DeadStays(s[1..]);
        StuckStays(s[1..]);
      } else {
        NumberSpanRun(frames, NumStep(q, s[0]), s[1..]);
      }
    }
  }

  lemma RunSplit(c: Config, text: string, i: nat, j: nat)
    requires i <= j <= |text|
    ensures Run(c, text[i..]) == Run(Run(c, text[i..j]), text[j..])
  {
    assert text[i..] == text[i..j] + text[j..];
    RunConcat(c, text[i..j], text[j..]);
  }

  lemma RunAt(c: Config, text: string, i: nat)
    requires i < |text|
    ensures Run(c, text[i..]) == Run(Step(c, text[i]), text[i + 1..])
  {
    assert text[i..][1..] == text[i + 1..];
  }

  /** Skips the four hexadecimal digits of an escape; index is behind the letter u. */
  method ScanHex(text: string, start: nat, ghost frames: seq<Frame>) returns (end: StringEnd, index: nat)
    requires start <= |text| && |frames| > 0
    ensures start <= index <= |text|
    ensures
      var run := Run(Live(frames, InHex(4)), text[start..]);
      match end
      case Complete => run == Run(Live(frames, InString), text[index..])
      case Partial => false
      case AsciiPartial => run.Live? && run.lex.InHex?
      case Invalid => run == Dead
  {
    index := start;
    ghost var run := Run(Live(frames, InHex(4)), text[start..]);
    for digit := 0 to 4
      invariant start <= index <= |text|
      invariant Run(Live(frames, if digit == 4 then InString else InHex(4 - digit)), text[index..]) == run
    {
      if index == |text| {
        return AsciiPartial, index;
      }
      RunAt(Live(frames, InHex(4 - digit)), text, index);
      index := index + 1;
      if !IsHex(text[index - 1]) {
        DeadStays(text[index..]);
        return Invalid, index;
      }
    }
    return Complete, index;
  }

  /** Skips a string whose opening quote is at start. */
  method ScanString(text: string, start: nat, ghost frames: seq<Frame>) returns (end: StringEnd, index: nat)
    requires start < |text| && |frames| > 0
    ensures start < index <= |text|
    ensures
      var run := Run(Live(frames, InString), text[start + 1..]);
      match end
      case Complete => run == Run(Live(frames, Between), text[index..])
      case Partial => run == Live(frames, InString)
      case AsciiPartial => run.Live? && (run.lex.Escaped? || run.lex.InHex?)
      case Invalid => run == Dead
  {
    index := start + 1;
    ghost var run := Run(Live(frames, InString), text[index..]);
    while index < |text|
      invariant start < index <= |text|
      invariant Run(Live(frames, InString), text[index..]) == run
      decreases |text| - index
    {
      var character := text[index];
      RunAt(Live(frames, InString), text, index);
      index := index + 1;
      if character == '"' {
        return Complete, index;
      }
      if IsControl(character) {
        DeadStays(text[index..]);
        return Invalid, index;
      }
      if character != '\\' {
        continue;
      }
      if index == |text| {
        return AsciiPartial, index;
      }
      var escape := text[index];
      RunAt(Live(frames, Escaped), text, index);
      index := index + 1;
      if IsEscapeLetter(escape) {
        continue;
      }
      if escape != 'u' {
        DeadStays(text[index..]);
        return Invalid, index;
      }
      end, index := ScanHex(text, index, frames);
      if !end.Complete? {
        return end, index;
      }
    }
    return Partial, index;
  }

  /** What reading on came to: a verdict on the whole text, or the frames and index to go on from. */
  datatype Progress = Decided(answer: bool) | GoOn(frames: seq<Frame>, index: nat)

  /** The progress made agrees with the automaton's run from there. */
  ghost predicate Agrees(p: Progress, run: Config, text: string, index: nat, incompleteUtf8: bool) {
    match p
    case Decided(answer) => answer == Verdict(run, incompleteUtf8)
    case GoOn(frames, next) =>
      && index < next <= |text| && WellFormed(frames)
      && Settle(Run(Live(frames, Between), text[next..])) == Settle(run)
  }

  method ReadString(text: string, index: nat, after: seq<Frame>, incompleteUtf8: bool) returns (p: Progress)
    requires index < |text| && WellFormed(after)
    ensures Agrees(p, Run(Live(after, InString), text[index + 1..]), text, index, incompleteUtf8)
  {
    var result, next := ScanString(text, index, after);
    if !result.Complete? {
      return Decided(result.Partial? || (result.AsciiPartial? && !incompleteUtf8));
    }
    return GoOn(after, next);
  }

  lemma {:induction false} WordRun(frames: seq<Frame>, owed: string, s: string)
    requires |frames| > 0 && owed != ""
    ensures
      var run := Run(Live(frames, InWord(owed)), s);
      var n := if |owed| <= |s| then |owed| else |s|;
      if !(s[..n] <= owed) then run == Dead
      else if |s| < |owed| then run.Live? && run.lex.InWord?
      else run == Run(Live(frames, Between), s[|owed|..])
    decreases |owed|
  {
    if s != "" {
      var n := if |owed| <= |s| then |owed| else |s|;
      assert s[..n][0] == s[0];
      if s[0] != owed[0] {
        DeadStays(s[1..]);
      } else if |owed| > 1 {
        WordRun(frames, owed[1..], s[1..]);
        assert s[..n] == [s[0]] + s[1..][..n - 1];
        assert owed == [owed[0]] + owed[1..];
        if |owed| <= |s| {
          assert s[1..][|owed| - 1..] == s[|owed|..];
        }
      }
    }
  }

  /** What a word that starts like a literal does to the run. */
  lemma LiteralRun(frames: seq<Frame>, literal: string, text: string, index: nat, stop: nat)
    requires literal == "true" || literal == "false" || literal == "null"
    requires WellFormed(frames) && index < |text| && text[index] == literal[0]
    requires stop == if index + |literal| <= |text| then index + |literal| else |text|
    ensures
      var run := Run(Live(frames, InWord(literal[1..])), text[index + 1..]);
      if !(text[index..stop] <= literal) then run == Dead
      else if stop - index < |literal| then run.Live? && run.lex.InWord?
      else run == Run(Live(frames, Between), text[index + |literal|..])
  {
    hide Run;
    WordRun(frames, literal[1..], text[index + 1..]);
    var s := text[index + 1..];
    var owed := literal[1..];
    var n := stop - index;
    assert text[index..stop] == [literal[0]] + s[..n - 1];
    assert literal == [literal[0]] + owed;
    if n == |literal| {
      assert s[n - 1..] == text[index + n..];
    }
  }

  method ReadLiteral(text: string, index: nat, after: seq<Frame>, incompleteUtf8: bool) returns (p: Progress)
    requires index < |text| && WellFormed(after)
    requires text[index] == 't' || text[index] == 'f' || text[index] == 'n'
    ensures Agrees(p, Run(StartValue(after, text[index]), text[index + 1..]), text, index, incompleteUtf8)
  {
    var character := text[index];
    var literal := if character == 't' then "true" else if character == 'f' then "false" else "null";
    var stop := if index + |literal| <= |text| then index + |literal| else |text|;
    var remaining := text[index..stop];
    LiteralRun(after, literal, text, index, stop);
    assert StartValue(after, character) == Live(after, InWord(literal[1..]));
    if !(remaining <= literal) {
      return Decided(false);
    }
    if |remaining| < |literal| {
      return Decided(!incompleteUtf8);
    }
    return GoOn(after, index + |literal|);
  }

  lemma {:induction false} NeverStart(q: NumState, s: string)
    requires !q.Start?
    ensures !NumRun(q, s).Start?
    decreases |s|
  {
    if s != "" {
      NeverStart(NumStep(q, s[0]), s[1..]);
    }
  }

  /** What a maximal span of number characters does to the run. */
  lemma NumberRun(frames: seq<Frame>, text: string, start: nat, end: nat)
    requires WellFormed(frames) && Top(frames).state == AfterValue(Top(frames).kind)
    requires start < end <= |text|
    requires text[start] == '-' || IsDigit(text[start])
    requires forall i :: start <= i < end ==> IsNumberChar(text[i])
    requires end < |text| ==> !IsNumberChar(text[end])
    ensures
      var q := NumRun(Start, text[start..end]);
      var run := Run(StartValue(frames, text[start]), text[start + 1..]);
      if Accepting(q) then Settle(run) == Settle(Run(Live(frames, Between), text[end..]))
      else if Owing(q) && end == |text| then run == Live(frames, InNumber(q))
      else run == Dead
  {
    var q0 := NumStep(Start, text[start]);
    var q := NumRun(Start, text[start..end]);
    assert text[start..end][1..] == text[start + 1..end];
    RunSplit(Live(frames, InNumber(q0)), text, start + 1, end);
    NumberSpanRun(frames, q0, text[start + 1..end]);
    NeverStart(q0, text[start + 1..end]);
    if q.Stuck? {
      DeadStays(text[end..]);
    } else if end < |text| {
      RunAt(Live(frames, InNumber(q)), text, end);
      RunAt(Live(frames, Between), text, end);
      if !Accepting(q) {
        DeadStays(text[end + 1..]);
      }
    }
  }

  method ReadNumber(text: string, start: nat, after: seq<Frame>, incompleteUtf8: bool) returns (p: Progress)
    requires start < |text| && WellFormed(after) && Top(after).state == AfterValue(Top(after).kind)
    requires text[start] == '-' || IsDigit(text[start])
    ensures Agrees(p, Run(StartValue(after, text[start]), text[start + 1..]), text, start, incompleteUtf8)
  {
    var index := start + 1;
    while index < |text| && IsNumberChar(text[index])
      invariant start < index <= |text|
      invariant forall i :: start <= i < index ==> IsNumberChar(text[i])
    {
      index := index + 1;
    }
    // AcceptsExactlyNumbers and OwesExactlyCutNumbers say what the two patterns match.
    var matched := NumRun(Start, text[start..index]);
    NumberRun(after, text, start, index);
    if Accepting(matched) {
      return GoOn(after, index);
    }
    return Decided(!incompleteUtf8 && index == |text| && Owing(matched));
  }

  /** Reads the start of a value, or all of it when it is no container. */
  method ReadValue(text: string, index: nat, after: seq<Frame>, incompleteUtf8: bool) returns (p: Progress)
    requires index < |text| && WellFormed(after) && Top(after).state == AfterValue(Top(after).kind)
    ensures Agrees(p, Run(StartValue(after, text[index]), text[index + 1..]), text, index, incompleteUtf8)
  {
    var character := text[index];
    if character == '{' || character == '[' {
      StartValueSound(after, character);
      var inner := if character == '{' then Frame(ObjectKind, WantKeyOrEnd) else Frame(ArrayKind, WantValueOrEnd);
      p := GoOn(after + [inner], index + 1);
    } else if character == '"' {
      p := ReadString(text, index, after, incompleteUtf8);
    } else if character == 't' || character == 'f' || character == 'n' {
      p := ReadLiteral(text, index, after, incompleteUtf8);
    } else if character == '-' || IsDigit(character) {
      p := ReadNumber(text, index, after, incompleteUtf8);
    } else {
      DeadStays(text[index + 1..]);
      p := Decided(false);
    }
  }

  /** One round of the main loop at a character that is not white space. */
  method ReadToken(text: string, index: nat, frames: seq<Frame>, incompleteUtf8: bool) returns (p: Progress)
    requires index < |text| && WellFormed(frames) && !IsWs(text[index])
    ensures Agrees(p, Run(StepBetween(frames, text[index]), text[index + 1..]), text, index, incompleteUtf8)
  {
    var frame := frames[|frames| - 1];
    var character := text[index];
    StepBetweenSound(frames, character);
    var closing := Closing(frame.kind);
    if frame.state.Ended? {
      p := Decided(false);
    } else if frame.state.WantColon? {
      p := if character == ':' then GoOn(SetTop(frames, WantValue), index + 1) else Decided(false);
    } else if frame.state.WantComma? {
      p := if character == closing then GoOn(Pop(frames), index + 1)
        else if character != ',' then Decided(false)
        else GoOn(SetTop(frames, if frame.kind.ArrayKind? then WantValue else WantKey), index + 1);
    } else if (frame.state.WantKeyOrEnd? || frame.state.WantValueOrEnd?) && character == closing {
      p := GoOn(Pop(frames), index + 1);
    } else if frame.state.WantKey? || frame.state.WantKeyOrEnd? {
      if character != '"' {
        p := Decided(false);
      } else {
        p := ReadString(text, index, SetTop(frames, WantColon), incompleteUtf8);
      }
    } else {
      p := ReadValue(text, index, SetTop(frames, AfterValue(frame.kind)), incompleteUtf8);
    }
    DeadStays(text[index + 1..]);
  }

  lemma SettleVerdict(c: Config, incompleteUtf8: bool)
    ensures Verdict(Settle(c), incompleteUtf8) == Verdict(c, incompleteUtf8)
  {
  }

  /** Decides whether a text that JSON.parse rejected is a proper prefix of a JSON text; with
      incompleteUtf8 set, a prefix whose next character is one that is not ASCII. */
  method TruncatedJson(text: string, syntaxError: bool, incompleteUtf8: bool) returns (r: bool)
    ensures r <==> syntaxError && Truncated(text, incompleteUtf8)
  {
    if !syntaxError {
      return false;
    }
    VerdictIsTruncated(text, incompleteUtf8);
    var frames := [Frame(RootKind, WantValue)];
    var index := 0;
    ghost var run := Run(INITIAL, text);
    assert text[0..] == text;
    while index < |text|
      invariant 0 <= index <= |text|
      invariant WellFormed(frames)
      invariant Settle(Run(Live(frames, Between), text[index..])) == Settle(run)
    {
      RunAt(Live(frames, Between), text, index);
      if IsWs(text[index]) {
        index := index + 1;
        continue;
      }
      var p := ReadToken(text, index, frames, incompleteUtf8);
      match p {
        case Decided(answer) =>
          SettleVerdict(Run(StepBetween(frames, text[index]), text[index + 1..]), incompleteUtf8);
          SettleVerdict(run, incompleteUtf8);
          return answer;
        case GoOn(frames', index') =>
          frames, index := frames', index';
      }
    }
    SettleVerdict(run, incompleteUtf8);
    return !incompleteUtf8 && (|frames| > 1 || !frames[0].state.Ended?);
  }
}
