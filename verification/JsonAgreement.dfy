/** The character automaton and the reader accept the same texts, so the automaton decides
    which texts are JSON texts and which are proper prefixes of one. */
module JsonAgreement {
  import opened JsonGrammar
  import opened NumberAutomaton
  import opened JsonParser
  import opened Wrappers
  import opened JsonRoundTrip
  import opened JsonAutomaton

  lemma RunStep(c: Config, s: string)
    requires s != ""
    ensures Run(c, s) == Run(Step(c, s[0]), s[1..])
  {
  }

  lemma {:induction false} WsAgree(frames: seq<Frame>, s: string)
    requires |frames| > 0
    ensures Run(Live(frames, Between), s) == Run(Live(frames, Between), s[CountWs(s)..])
    decreases |s|
  {
    if s != "" && IsWs(s[0]) {
      WsAgree(frames, s[1..]);
      assert s[1..][CountWs(s[1..])..] == s[CountWs(s)..];
    } else {
      assert s[0..] == s;
    }
  }

  // ----- strings -----

  lemma {:induction false} HexAgree(frames: seq<Frame>, left: nat, s: string)
    requires |frames| > 0 && left > 0
    ensures Accepts(Live(frames, InHex(left)), s) ==>
      |s| >= left && forall i :: 0 <= i < left ==> IsHex(s[i])
    ensures |s| >= left && (forall i :: 0 <= i < left ==> IsHex(s[i])) ==>
      Run(Live(frames, InHex(left)), s) == Run(Live(frames, InString), s[left..])
    decreases left
  {
    if s == "" {
    } else if !IsHex(s[0]) {
      RunStep(Live(frames, InHex(left)), s);
      DeadStays(s[1..]);
    } else if left == 1 {
      RunStep(Live(frames, InHex(left)), s);
    } else {
      RunStep(Live(frames, InHex(left)), s);
      HexAgree(frames, left - 1, s[1..]);
      if |s| >= left {
        assert s[1..][left - 1..] == s[left..];
        assert forall i :: 0 <= i < left - 1 ==> s[1..][i] == s[i + 1];
        assert forall i :: 1 <= i < left ==> s[i] == s[1..][i - 1];
      }
    }
  }

  lemma EscapeAgree(frames: seq<Frame>, s: string)
    requires |frames| > 0 && s != "" && s[0] == '\\'
    ensures UnitAt(s) > 0 ==> Run(Live(frames, InString), s) == Run(Live(frames, InString), s[UnitAt(s)..])
    ensures UnitAt(s) == 0 ==> !Accepts(Live(frames, InString), s)
  {
    RunStep(Live(frames, InString), s);
    var t := s[1..];
    if t != "" {
      RunStep(Live(frames, Escaped), t);
      if IsEscapeLetter(t[0]) {
        assert t[1..] == s[2..];
      } else if t[0] == 'u' {
        HexAgree(frames, 4, t[1..]);
        if |s| >= 6 {
          assert t[1..][4..] == s[6..];
          assert t[1..][0] == s[2] && t[1..][1] == s[3] && t[1..][2] == s[4] && t[1..][3] == s[5];
        }
      } else {
        DeadStays(t[1..]);
      }
    }
  }

  /** Inside a string the automaton and the reader end at the same quote, or both fail. */
  lemma {:induction false} StringAgree(frames: seq<Frame>, s: string)
    requires |frames| > 0
    ensures match ParseString(s)
      case Some(r) => Run(Live(frames, InString), s) == Run(Live(frames, Between), r.rest)
      case None => !Accepts(Live(frames, InString), s)
    decreases |s|
  {
    if s != "" {
      if s[0] == '\\' {
        EscapeAgree(frames, s);
      } else {
        RunStep(Live(frames, InString), s);
        if IsControl(s[0]) {
          DeadStays(s[1..]);
        }
      }
      if UnitAt(s) > 0 {
        StringAgree(frames, s[UnitAt(s)..]);
      }
    }
  }

  // ----- words and numbers -----

  lemma {:induction false} WordAgree(frames: seq<Frame>, owed: string, s: string)
    requires |frames| > 0 && owed != ""
    ensures if owed <= s
      then Run(Live(frames, InWord(owed)), s) == Run(Live(frames, Between), s[|owed|..])
      else !Accepts(Live(frames, InWord(owed)), s)
    decreases |owed|
  {
    if s != "" {
      RunStep(Live(frames, InWord(owed)), s);
      if s[0] != owed[0] {
        DeadStays(s[1..]);
      } else if |owed| > 1 {
        WordAgree(frames, owed[1..], s[1..]);
        assert owed <= s <==> owed[1..] <= s[1..];
        if owed <= s {
          assert s[1..][|owed| - 1..] == s[|owed|..];
        }
      }
    }
  }

  lemma {:induction false} NumberAgree(frames: seq<Frame>, q: NumState, s: string)
    requires |frames| > 0 && !q.Stuck?
    ensures var n := NumberSpan(q, s);
      Accepts(Live(frames, InNumber(q)), s) <==>
        Accepting(NumRun(q, s[..n])) && Accepts(Live(frames, Between), s[n..])
    decreases |s|
  {
    var c := Live(frames, InNumber(q));
    if s == "" {
      assert s[..0] == "" && s[0..] == "";
    } else {
      RunStep(c, s);
      if NumStep(q, s[0]).Stuck? {
        assert s[..0] == "" && s[0..] == s;
        RunStep(Live(frames, Between), s);
        if !Accepting(q) {
          DeadStays(s[1..]);
        }
      } else {
        NumberAgree(frames, NumStep(q, s[0]), s[1..]);
        var n := NumberSpan(NumStep(q, s[0]), s[1..]);
        assert s[..n + 1][1..] == s[1..][..n];
        assert s[1..][n..] == s[n + 1..];
      }
    }
  }

  /** The frames after the value that the top frame is waiting for. */
  function After(frames: seq<Frame>): seq<Frame>
    requires |frames| > 0
  {
    SetTop(frames, AfterValue(Top(frames).kind))
  }

  predicate Wants(frames: seq<Frame>) {
    |frames| > 0 && Top(frames).state.WantValue?
  }

  lemma NumberValueAgree(frames: seq<Frame>, s: string)
    requires Wants(frames) && s != "" && !NumStep(Start, s[0]).Stuck?
    ensures match ParseNumber(s)
      case Some(r) => Accepts(Live(frames, Between), s) <==> Accepts(Live(After(frames), Between), r.rest)
      case None => !Accepts(Live(frames, Between), s)
  {
    var q := NumStep(Start, s[0]);
    RunStep(Live(frames, Between), s);
    NumberAgree(After(frames), q, s[1..]);
    var n := NumberSpan(q, s[1..]);
    assert s[..n + 1][1..] == s[1..][..n];
    assert s[1..][n..] == s[n + 1..];
  }

  lemma WordValueAgree(frames: seq<Frame>, w: Word, s: string)
    requires Wants(frames) && s != "" && s[0] == w.Text()[0]
    ensures match ParseWord(w, s)
      case Some(r) => Accepts(Live(frames, Between), s) <==> Accepts(Live(After(frames), Between), r.rest)
      case None => !Accepts(Live(frames, Between), s)
  {
    var text := w.Text();
    RunStep(Live(frames, Between), s);
    WordAgree(After(frames), text[1..], s[1..]);
    assert text <= s <==> text[1..] <= s[1..];
    assert text <= s <==> |text| <= |s| && s[..|text|] == text;
    if text <= s {
      assert s[1..][|text| - 1..] == s[|text|..];
    }
  }

  // ----- values, elements and members -----

  lemma OrEndStep(frames: seq<Frame>, c: char)
    requires !IsWs(c) && c != ']'
    ensures StepBetween(frames + [Frame(ArrayKind, WantValueOrEnd)], c)
         == StepBetween(frames + [Frame(ArrayKind, WantValue)], c)
  {
    var a, b := frames + [Frame(ArrayKind, WantValueOrEnd)], frames + [Frame(ArrayKind, WantValue)];
    assert After(a) == After(b);
  }

  /** The element after an opening bracket starts as if no closing bracket could come. */
  lemma OrEndAgree(frames: seq<Frame>, s: string)
    requires CountWs(s) < |s| ==> s[CountWs(s)] != ']'
    ensures Accepts(Live(frames + [Frame(ArrayKind, WantValueOrEnd)], Between), s)
       <==> Accepts(Live(frames + [Frame(ArrayKind, WantValue)], Between), s)
  {
    var a := Live(frames + [Frame(ArrayKind, WantValueOrEnd)], Between);
    var b := Live(frames + [Frame(ArrayKind, WantValue)], Between);
    WsAgree(a.frames, s);
    WsAgree(b.frames, s);
    CountWsSound(s);
    var t := s[CountWs(s)..];
    if t != "" {
      OrEndStep(frames, t[0]);
      RunStep(a, t);
      RunStep(b, t);
    }
  }

  lemma CloseStep(frames: seq<Frame>, f: Frame)
    requires f.state.WantValueOrEnd? || f.state.WantKeyOrEnd? || f.state.WantComma?
    ensures Step(Live(frames + [f], Between), Closing(f.kind)) == Live(frames, Between)
  {
    assert Pop(frames + [f]) == frames;
  }

  lemma CloseAgree(frames: seq<Frame>, f: Frame, s: string)
    requires CountWs(s) < |s| && s[CountWs(s)] == Closing(f.kind)
    requires f.state.WantValueOrEnd? || f.state.WantKeyOrEnd? || f.state.WantComma?
    ensures Run(Live(frames + [f], Between), s) == Run(Live(frames, Between), s[CountWs(s) + 1..])
  {
    hide Run, Step, CountWs, Closing;
    var n := CountWs(s);
    WsAgree(frames + [f], s);
    RunStep(Live(frames + [f], Between), s[n..]);
    CloseStep(frames, f);
    assert s[n..][1..] == s[n + 1..];
  }

  /** What follows an element does not start with white space. */
  lemma ElementRestStart(s: string)
    ensures match ParseElement(s)
      case Some(e) => e.rest != "" ==> !IsWs(e.rest[0])
      case None => true
  {
    match ParseValue(s[CountWs(s)..]) {
      case None =>
      case Some(v) => CountWsSound(v.rest);
    }
  }

  lemma MemberRestStart(s: string)
    ensures match ParseMember(s)
      case Some(m) => m.rest != "" ==> !IsWs(m.rest[0])
      case None => true
  {
    hide ParseElement, ParseString, CountWs;
    var n := CountWs(s);
    if n < |s| && s[n] == '"' && ParseString(s[n + 1..]).Some? {
      var k := ParseString(s[n + 1..]).value;
      var m := CountWs(k.rest);
      if m < |k.rest| {
        ElementRestStart(k.rest[m + 1..]);
      }
    }
  }

  /** A key may start in both states; the closing brace was ruled out. */
  predicate WantsKey(state: State, s: string) {
    state.WantKey? || (state.WantKeyOrEnd? && (CountWs(s) < |s| ==> s[CountWs(s)] != '}'))
  }

  lemma KeyStep(frames: seq<Frame>, state: State, c: char)
    requires state.WantKey? || (state.WantKeyOrEnd? && c != '}')
    requires !IsWs(c)
    ensures Step(Live(frames + [Frame(ObjectKind, state)], Between), c) ==
      if c == '"' then Live(frames + [Frame(ObjectKind, WantColon)], InString) else Dead
  {
    assert SetTop(frames + [Frame(ObjectKind, state)], WantColon) == frames + [Frame(ObjectKind, WantColon)];
  }

  /** What is left behind the key, the colon and the value. */
  function ParseKey(s: string): Option<string> {
    match ParseString(s)
    case None => None
    case Some(k) =>
      var m := CountWs(k.rest);
      if m < |k.rest| && k.rest[m] == ':' && ParseElement(k.rest[m + 1..]).Some?
      then Some(ParseElement(k.rest[m + 1..]).value.rest)
      else None
  }

  lemma RunNothing(c: Config)
    ensures Run(c, "") == c
  {
  }

  /** What may follow a member. */
  lemma CommaStep(frames: seq<Frame>, c: char)
    requires !IsWs(c)
    ensures Step(Live(frames + [Frame(ObjectKind, WantComma)], Between), c) ==
      if c == ',' then Live(frames + [Frame(ObjectKind, WantKey)], Between)
      else if c == '}' then Live(frames, Between)
      else Dead
  {
    var done := frames + [Frame(ObjectKind, WantComma)];
    assert Pop(done) == frames;
    assert SetTop(done, WantKey) == frames + [Frame(ObjectKind, WantKey)];
  }

  lemma {:induction false} ValueAgree(frames: seq<Frame>, s: string)
    requires Wants(frames) && (s != "" ==> !IsWs(s[0]))
    ensures match ParseValue(s)
      case Some(r) => Accepts(Live(frames, Between), s) <==> Accepts(Live(After(frames), Between), r.rest)
      case None => !Accepts(Live(frames, Between), s)
    decreases |s|, 0
  {
    if s != "" {
      var c := Live(frames, Between);
      if s[0] == 't' {
        WordValueAgree(frames, True, s);
      } else if s[0] == 'f' {
        WordValueAgree(frames, False, s);
      } else if s[0] == 'n' {
        WordValueAgree(frames, Null, s);
      } else if s[0] == '"' {
        RunStep(c, s);
        StringAgree(After(frames), s[1..]);
      } else if s[0] == '[' {
        RunStep(c, s);
        ArrayAgree(After(frames), s[1..]);
      } else if s[0] == '{' {
        RunStep(c, s);
        ObjectAgree(After(frames), s[1..]);
      } else if NumStep(Start, s[0]).Stuck? {
        RunStep(c, s);
        DeadStays(s[1..]);
      } else {
        NumberValueAgree(frames, s);
      }
    }
  }

  lemma {:induction false} ElementAgree(frames: seq<Frame>, s: string)
    requires Wants(frames)
    ensures match ParseElement(s)
      case Some(r) => Accepts(Live(frames, Between), s) <==> Accepts(Live(After(frames), Between), r.rest)
      case None => !Accepts(Live(frames, Between), s)
    decreases |s|, 1
  {
    var n := CountWs(s);
    WsAgree(frames, s);
    CountWsSound(s);
    ValueAgree(frames, s[n..]);
    match ParseValue(s[n..]) {
      case None =>
      case Some(v) => WsAgree(After(frames), v.rest);
    }
  }

  lemma {:induction false} ArrayAgree(frames: seq<Frame>, s: string)
    requires |frames| > 0
    ensures match ParseArray(s)
      case Some(r) => Accepts(Live(frames + [Frame(ArrayKind, WantValueOrEnd)], Between), s)
        <==> Accepts(Live(frames, Between), r.rest)
      case None => !Accepts(Live(frames + [Frame(ArrayKind, WantValueOrEnd)], Between), s)
    decreases |s|, 3
  {
    var n := CountWs(s);
    if n < |s| && s[n] == ']' {
      CloseAgree(frames, Frame(ArrayKind, WantValueOrEnd), s);
    } else {
      OrEndAgree(frames, s);
      ElementsAgree(frames, s);
    }
  }

  lemma {:induction false} ElementsAgree(frames: seq<Frame>, s: string)
    requires |frames| > 0
    ensures match ParseElements(s)
      case Some(r) => Accepts(Live(frames + [Frame(ArrayKind, WantValue)], Between), s)
        <==> Accepts(Live(frames, Between), r.rest)
      case None => !Accepts(Live(frames + [Frame(ArrayKind, WantValue)], Between), s)
    decreases |s|, 2
  {
    var want, done := frames + [Frame(ArrayKind, WantValue)], frames + [Frame(ArrayKind, WantComma)];
    assert After(want) == done;
    ElementAgree(want, s);
    match ParseElement(s) {
      case None =>
      case Some(e) =>
        var t := e.rest;
        if t != "" {
          ElementRestStart(s);
          RunStep(Live(done, Between), t);
          assert Pop(done) == frames;
          assert SetTop(done, WantValue) == want;
          if t[0] == ',' {
            ElementsAgree(frames, t[1..]);
          } else if t[0] != ']' {
            DeadStays(t[1..]);
          }
        }
    }
  }

  lemma {:induction false} MemberAgree(frames: seq<Frame>, state: State, s: string)
    requires |frames| > 0 && WantsKey(state, s)
    ensures match ParseMember(s)
      case Some(r) => Accepts(Live(frames + [Frame(ObjectKind, state)], Between), s)
        <==> Accepts(Live(frames + [Frame(ObjectKind, WantComma)], Between), r.rest)
      case None => !Accepts(Live(frames + [Frame(ObjectKind, state)], Between), s)
    decreases |s|, 2
  {
    hide Run, Step, ParseString, CountWs;
    var want := frames + [Frame(ObjectKind, state)];
    var n := CountWs(s);
    WsAgree(want, s);
    CountWsSound(s);
    var t := s[n..];
    if t == "" {
      RunNothing(Live(want, Between));
    } else {
      RunStep(Live(want, Between), t);
      KeyStep(frames, state, s[n]);
      assert t[1..] == s[n + 1..];
      if s[n] != '"' {
        DeadStays(s[n + 1..]);
      } else {
        KeyAgree(frames, s[n + 1..]);
      }
    }
  }

  /** The rest of a member behind the quote that opens its key. */
  lemma {:induction false} KeyAgree(frames: seq<Frame>, s: string)
    requires |frames| > 0
    ensures match ParseKey(s)
      case Some(rest) => Accepts(Live(frames + [Frame(ObjectKind, WantColon)], InString), s)
        <==> Accepts(Live(frames + [Frame(ObjectKind, WantComma)], Between), rest)
      case None => !Accepts(Live(frames + [Frame(ObjectKind, WantColon)], InString), s)
    decreases |s|, 3
  {
    hide Run, Step, ParseElement, ParseString, CountWs;
    StringAgree(frames + [Frame(ObjectKind, WantColon)], s);
    if ParseString(s).Some? {
      ColonAgree(frames, ParseString(s).value.rest);
    }
  }

  lemma {:induction false} ColonAgree(frames: seq<Frame>, s: string)
    requires |frames| > 0
    ensures var m := CountWs(s);
      if m < |s| && s[m] == ':' && ParseElement(s[m + 1..]).Some?
      then Accepts(Live(frames + [Frame(ObjectKind, WantColon)], Between), s)
        <==> Accepts(Live(frames + [Frame(ObjectKind, WantComma)], Between), ParseElement(s[m + 1..]).value.rest)
      else !Accepts(Live(frames + [Frame(ObjectKind, WantColon)], Between), s)
    decreases |s|, 2
  {
    var colon, value := frames + [Frame(ObjectKind, WantColon)], frames + [Frame(ObjectKind, WantValue)];
    var m := CountWs(s);
    WsAgree(colon, s);
    CountWsSound(s);
    var t := s[m..];
    if t != "" {
      RunStep(Live(colon, Between), t);
      assert SetTop(colon, WantValue) == value;
      assert After(value) == frames + [Frame(ObjectKind, WantComma)];
      if s[m] != ':' {
        DeadStays(t[1..]);
      } else {
        assert t[1..] == s[m + 1..];
        ElementAgree(value, s[m + 1..]);
      }
    }
  }

  lemma {:induction false} ObjectAgree(frames: seq<Frame>, s: string)
    requires |frames| > 0
    ensures match ParseObject(s)
      case Some(r) => Accepts(Live(frames + [Frame(ObjectKind, WantKeyOrEnd)], Between), s)
        <==> Accepts(Live(frames, Between), r.rest)
      case None => !Accepts(Live(frames + [Frame(ObjectKind, WantKeyOrEnd)], Between), s)
    decreases |s|, 4
  {
    var n := CountWs(s);
    if n < |s| && s[n] == '}' {
      CloseAgree(frames, Frame(ObjectKind, WantKeyOrEnd), s);
    } else {
      MembersAgree(frames, WantKeyOrEnd, s);
    }
  }

  lemma {:induction false} MembersAgree(frames: seq<Frame>, state: State, s: string)
    requires |frames| > 0 && WantsKey(state, s)
    ensures match ParseMembers(s)
      case Some(r) => Accepts(Live(frames + [Frame(ObjectKind, state)], Between), s)
        <==> Accepts(Live(frames, Between), r.rest)
      case None => !Accepts(Live(frames + [Frame(ObjectKind, state)], Between), s)
    decreases |s|, 3
  {
    hide ParseMember, CountWs, Step, Run;
    var done := frames + [Frame(ObjectKind, WantComma)];
    MemberAgree(frames, state, s);
    match ParseMember(s) {
      case None =>
      case Some(m) =>
        var t := m.rest;
        if t == "" {
          RunNothing(Live(done, Between));
        } else {
          MemberRestStart(s);
          RunStep(Live(done, Between), t);
          CommaStep(frames, t[0]);
          if t[0] == ',' {
            MembersAgree(frames, WantKey, t[1..]);
          } else if t[0] != '}' {
            DeadStays(t[1..]);
          }
        }
    }
  }

  // ----- the decisions -----

  /** The automaton accepts exactly the JSON texts. */
  lemma AcceptsExactlyJson(s: string)
    ensures Accepts(INITIAL, s) <==> IsJsonText(s)
  {
    var frames := INITIAL.frames;
    ElementAgree(frames, s);
    ParseAcceptsExactly(s);
    match ParseElement(s) {
      case None =>
      case Some(r) =>
        if r.rest != "" {
          ElementRestStart(s);
          RunStep(Live(After(frames), Between), r.rest);
          DeadStays(r.rest[1..]);
        }
    }
  }

  /** The automaton is live exactly on the prefixes of JSON texts. */
  lemma LiveExactlyCompletable(s: string)
    ensures Run(INITIAL, s).Live? <==> Completable(s)
  {
    var c := Run(INITIAL, s);
    RunSound(INITIAL, s);
    if c.Live? {
      FinishAccepts(c);
      RunConcat(INITIAL, s, Finish(c));
      AcceptsExactlyJson(s + Finish(c));
    }
    if Completable(s) {
      var t: string :| IsJsonText(s + t);
      AcceptsExactlyJson(s + t);
      RunConcat(INITIAL, s, t);
      if c.Dead? {
        DeadStays(t);
      }
    }
  }

  lemma NonAsciiStep(c: Config, ch: char)
    requires c.Live? && Sound(c) && IsNonAscii(ch) && Step(c, ch).Live?
    ensures c.lex.InString?
  {
  }

  /** Only inside a string, outside an escape, can a non-ASCII character come next. */
  lemma InStringExactlyNonAscii(s: string)
    ensures (Run(INITIAL, s).Live? && Run(INITIAL, s).lex.InString?) <==> CompletableByNonAscii(s)
  {
    var c := Run(INITIAL, s);
    RunSound(INITIAL, s);
    if c.Live? && c.lex.InString? {
      var t := ['\U{e9}'] + Finish(c);
      RunOne(c, '\U{e9}', Finish(c));
      FinishAccepts(c);
      RunConcat(INITIAL, s, t);
      AcceptsExactlyJson(s + t);
      assert t != "" && IsNonAscii(t[0]) && IsJsonText(s + t);
    }
    if CompletableByNonAscii(s) {
      var t: string :| t != "" && IsNonAscii(t[0]) && IsJsonText(s + t);
      AcceptsExactlyJson(s + t);
      RunConcat(INITIAL, s, t);
      RunStep(c, t);
      if c.Dead? || Step(c, t[0]).Dead? {
        DeadStays(t[1..]);
      } else {
        NonAsciiStep(c, t[0]);
      }
    }
  }
}
