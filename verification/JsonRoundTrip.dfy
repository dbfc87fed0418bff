/** Reading a printed tree gives the tree back: with the postconditions of the reader this says
    that a JSON text has exactly one syntax tree. */
module JsonRoundTrip {
  import opened JsonGrammar
  import opened NumberAutomaton
  import opened JsonParser
  import opened Wrappers

  /** A value can be followed by the end, white space, a comma or a closing bracket or brace. */
  predicate Follows(rest: string) {
    rest == "" || IsWs(rest[0]) || rest[0] == ',' || rest[0] == ']' || rest[0] == '}'
  }

  /** What can follow an element, which has swallowed the white space. */
  predicate Ends(rest: string) {
    Follows(rest) && (rest != "" ==> !IsWs(rest[0]))
  }

  lemma UnitPrefix(a: string, b: string)
    requires UnitAt(a) > 0
    ensures UnitAt(a + b) == UnitAt(a)
  {
  }

  lemma {:induction false} CountWsOf(ws: string, rest: string)
    requires AllWs(ws)
    requires rest != "" ==> !IsWs(rest[0])
    ensures CountWs(ws + rest) == |ws|
    decreases |ws|
  {
    if ws == "" {
      assert ws + rest == rest;
    } else {
      assert (ws + rest)[1..] == ws[1..] + rest;
      CountWsOf(ws[1..], rest);
    }
  }

  lemma StringEnd(rest: string)
    ensures ParseString("\"" + rest) == Some(Read("", rest))
  {
    assert ("\"" + rest)[1..] == rest;
  }

  lemma SplitConcat(a: string, b: string, n: nat)
    requires n <= |a|
    ensures (a + b)[n..] == a[n..] + b && (a + b)[..n] == a[..n] && a[..n] + a[n..] == a
  {
  }

  lemma ParseUnit(s: string, body: string, rest: string)
    requires UnitAt(s) > 0 && ParseString(s[UnitAt(s)..]) == Some(Read(body, rest))
    ensures ParseString(s) == Some(Read(s[..UnitAt(s)] + body, rest))
  {
  }

  lemma {:induction false} ParseStringOf(body: string, after: string, rest: string)
    requires StringBody(body) && after == "\"" + rest
    ensures ParseString(body + after) == Some(Read(body, rest))
    decreases |body|
  {
    if body == "" {
      assert body + after == after;
      StringEnd(rest);
    } else {
      var n := UnitAt(body);
      UnitPrefix(body, after);
      SplitConcat(body, after, n);
      ParseStringOf(body[n..], after, rest);
      ParseUnit(body + after, body[n..], rest);
    }
  }

  lemma {:induction false} SpanOf(q: NumState, s: string, rest: string)
    requires !NumRun(q, s).Stuck?
    requires rest != "" ==> NumStep(NumRun(q, s), rest[0]).Stuck?
    ensures NumberSpan(q, s + rest) == |s|
    decreases |s|
  {
    if s == "" {
      assert s + rest == rest;
    } else {
      if NumStep(q, s[0]).Stuck? {
        StuckStays(s[1..]);
      }
      assert (s + rest)[1..] == s[1..] + rest;
      SpanOf(NumStep(q, s[0]), s[1..], rest);
    }
  }

  lemma ParseNumberOf(s: string, rest: string)
    requires NumberText(s) && Follows(rest)
    ensures ParseNumber(s + rest) == Some(Read(Number(s), rest))
  {
    AcceptsExactlyNumbers(s);
    SpanOf(Start, s, rest);
    assert (s + rest)[..|s|] == s;
    assert (s + rest)[|s|..] == rest;
  }

  lemma NumberStart(s: string)
    requires NumberText(s)
    ensures s != "" && (s[0] == '-' || IsDigit(s[0]))
  {
    AcceptsExactlyNumbers(s);
    if s != "" && NumStep(Start, s[0]).Stuck? {
      StuckStays(s[1..]);
    }
  }

  /** The first character of a printed value. */
  lemma ValueStart(v: Value)
    requires v.Valid()
    ensures v.Print() != "" && !IsWs(v.Print()[0])
    ensures v.Print()[0] != ']' && v.Print()[0] != '}' && v.Print()[0] != ','
  {
    if v.Number? {
      NumberStart(v.text);
    }
  }

  lemma ParseWordOf(w: Word, rest: string)
    ensures ParseValue(w.Text() + rest) == Some(Read(Literal(w), rest))
  {
    var s := w.Text() + rest;
    assert s[..|w.Text()|] == w.Text();
    assert s[|w.Text()|..] == rest;
    assert s[0] == w.Text()[0];
  }

  lemma ParseStringValueOf(body: string, rest: string)
    requires StringBody(body)
    ensures ParseValue(String(body).Print() + rest) == Some(Read(String(body), rest))
  {
    var s, inner := String(body).Print() + rest, body + ("\"" + rest);
    assert s == "\"" + inner;
    assert s[1..] == inner;
    ParseStringOf(body, "\"" + rest, rest);
  }

  lemma ParseNumberValueOf(text: string, rest: string)
    requires NumberText(text) && Follows(rest)
    ensures ParseValue(text + rest) == Some(Read(Number(text), rest))
  {
    NumberStart(text);
    ParseNumberOf(text, rest);
  }

  /** Taking an opening bracket or brace off. */
  lemma Opened(inner: string)
    ensures ParseValue("[" + inner) == ParseArray(inner)
    ensures ParseValue("{" + inner) == ParseObject(inner)
  {
    assert ("[" + inner)[1..] == inner;
    assert ("{" + inner)[1..] == inner;
  }

  lemma Wrapped(open: string, inner: string, close: string, rest: string)
    ensures (open + inner + close) + rest == open + (inner + close + rest)
    ensures inner + close + rest == inner + (close + rest)
  {
  }

  lemma ParseEmptyArrayOf(ws: string, rest: string)
    requires AllWs(ws)
    ensures ParseValue(EmptyArray(ws).Print() + rest) == Some(Read(EmptyArray(ws), rest))
  {
    var s := ws + ("]" + rest);
    Wrapped("[", ws, "]", rest);
    Opened(s);
    CountWsOf(ws, "]" + rest);
    assert s[..|ws|] == ws && s[|ws| + 1..] == rest;
  }

  lemma ParseEmptyObjectOf(ws: string, rest: string)
    requires AllWs(ws)
    ensures ParseValue(EmptyObject(ws).Print() + rest) == Some(Read(EmptyObject(ws), rest))
  {
    var s := ws + ("}" + rest);
    Wrapped("{", ws, "}", rest);
    Opened(s);
    CountWsOf(ws, "}" + rest);
    assert s[..|ws|] == ws && s[|ws| + 1..] == rest;
  }

  /** The first character after the white space belongs to a value, so it closes no array. */
  lemma ElementStart(e: Element, rest: string)
    requires e.Valid()
    ensures var s := e.Print() + rest; var n := CountWs(s);
      n == |e.before| && n < |s| && s[n] != ']'
      && s[..n] == e.before && s[n..] == e.value.Print() + (e.after + rest)
  {
    var s, tail := e.Print() + rest, e.value.Print() + (e.after + rest);
    ValueStart(e.value);
    assert s == e.before + tail;
    assert tail[0] == e.value.Print()[0];
    CountWsOf(e.before, tail);
  }

  lemma ElementsStart(es: Elements, rest: string)
    requires es.Valid()
    ensures var s := es.Print() + rest; CountWs(s) < |s| && s[CountWs(s)] != ']'
  {
    match es {
      case Last(e) => ElementStart(e, rest);
      case More(e, more) =>
        assert es.Print() + rest == e.Print() + ("," + more.Print() + rest);
        ElementStart(e, "," + more.Print() + rest);
    }
  }

  lemma MemberStart(m: Member, rest: string)
    requires m.Valid()
    ensures var s := m.Print() + rest; var n := CountWs(s);
      n == |m.before| && n < |s| && s[n] == '"' && s[..n] == m.before
      && s[n + 1..] == m.key + ("\"" + (m.after + (":" + (m.element.Print() + rest))))
  {
    var s := m.Print() + rest;
    var inner := m.key + ("\"" + (m.after + (":" + (m.element.Print() + rest))));
    assert s == m.before + ("\"" + inner);
    CountWsOf(m.before, "\"" + inner);
    assert s[|m.before| + 1..] == inner;
  }

  lemma MembersStart(ms: Members, rest: string)
    requires ms.Valid()
    ensures var s := ms.Print() + rest; CountWs(s) < |s| && s[CountWs(s)] != '}'
  {
    match ms {
      case LastMember(m) => MemberStart(m, rest);
      case MoreMembers(m, more) =>
        assert ms.Print() + rest == m.Print() + ("," + more.Print() + rest);
        MemberStart(m, "," + more.Print() + rest);
    }
  }

  lemma {:induction false} ParseValueOf(v: Value, rest: string)
    requires v.Valid() && Follows(rest)
    ensures ParseValue(v.Print() + rest) == Some(Read(v, rest))
    decreases v, 0
  {
    match v {
      case Literal(w) => ParseWordOf(w, rest);
      case Number(text) => ParseNumberValueOf(text, rest);
      case String(body) => ParseStringValueOf(body, rest);
      case EmptyArray(ws) => ParseEmptyArrayOf(ws, rest);
      case Array(es) => ParseArrayOf(es, rest);
      case EmptyObject(ws) => ParseEmptyObjectOf(ws, rest);
      case Object(ms) => ParseObjectOf(ms, rest);
    }
  }

  lemma {:induction false} ParseArrayOf(es: Elements, rest: string)
    requires es.Valid()
    ensures ParseValue(Array(es).Print() + rest) == Some(Read(Array(es), rest))
    decreases es, 1
  {
    var inner := es.Print() + "]" + rest;
    Wrapped("[", es.Print(), "]", rest);
    Opened(inner);
    ElementsStart(es, "]" + rest);
    ParseElementsOf(es, rest);
  }

  lemma {:induction false} ParseObjectOf(ms: Members, rest: string)
    requires ms.Valid()
    ensures ParseValue(Object(ms).Print() + rest) == Some(Read(Object(ms), rest))
    decreases ms, 1
  {
    var inner := ms.Print() + "}" + rest;
    Wrapped("{", ms.Print(), "}", rest);
    Opened(inner);
    MembersStart(ms, "}" + rest);
    ParseMembersOf(ms, rest);
  }

  lemma {:induction false} ParseElementOf(e: Element, rest: string)
    requires e.Valid() && Ends(rest)
    ensures ParseElement(e.Print() + rest) == Some(Read(e, rest))
    decreases e
  {
    var after := e.after + rest;
    ElementStart(e, rest);
    assert after != "" ==> after[0] == if e.after == "" then rest[0] else e.after[0];
    ParseValueOf(e.value, after);
    CountWsOf(e.after, rest);
    assert after[..|e.after|] == e.after && after[|e.after|..] == rest;
  }

  lemma {:induction false} ParseElementsOf(es: Elements, rest: string)
    requires es.Valid()
    ensures ParseElements(es.Print() + "]" + rest) == Some(Read(es, rest))
    decreases es, 0
  {
    match es {
      case Last(e) =>
        var after := "]" + rest;
        assert es.Print() + "]" + rest == e.Print() + after;
        ParseElementOf(e, after);
        assert after[1..] == rest;
      case More(e, more) =>
        var inner := more.Print() + "]" + rest;
        var after := "," + inner;
        assert es.Print() + "]" + rest == e.Print() + after;
        ParseElementOf(e, after);
        assert after[1..] == inner;
        ParseElementsOf(more, rest);
    }
  }

  lemma {:induction false} ParseMemberOf(m: Member, rest: string)
    requires m.Valid() && Ends(rest)
    ensures ParseMember(m.Print() + rest) == Some(Read(m, rest))
    decreases m
  {
    MemberStart(m, rest);
    var value := m.element.Print() + rest;
    var colon := ":" + value;
    var after := m.after + colon;
    ParseStringOf(m.key, "\"" + after, after);
    CountWsOf(m.after, colon);
    assert after[|m.after|] == ':';
    assert after[..|m.after|] == m.after;
    assert after[|m.after| + 1..] == value;
    ParseElementOf(m.element, rest);
  }

  lemma {:induction false} ParseMembersOf(ms: Members, rest: string)
    requires ms.Valid()
    ensures ParseMembers(ms.Print() + "}" + rest) == Some(Read(ms, rest))
    decreases ms, 0
  {
    match ms {
      case LastMember(m) =>
        var after := "}" + rest;
        assert ms.Print() + "}" + rest == m.Print() + after;
        ParseMemberOf(m, after);
        assert after[1..] == rest;
      case MoreMembers(m, more) =>
        var inner := more.Print() + "}" + rest;
        var after := "," + inner;
        assert ms.Print() + "}" + rest == m.Print() + after;
        ParseMemberOf(m, after);
        assert after[1..] == inner;
        ParseMembersOf(more, rest);
    }
  }

  /** Reading a printed tree gives exactly that tree. */
  lemma ParsePrint(e: Element)
    requires e.Valid()
    ensures ParseText(e.Print()) == Some(e)
  {
    assert e.Print() + "" == e.Print();
    ParseElementOf(e, "");
  }

  /** No text has two syntax trees. */
  lemma Unambiguous(a: Element, b: Element)
    requires a.Valid() && b.Valid() && a.Print() == b.Print()
    ensures a == b
  {
    ParsePrint(a);
    ParsePrint(b);
  }

  // ----- the other direction: what the reader returns is a valid tree that prints as the text read -----

  lemma {:induction false} CountWsSound(s: string)
    ensures AllWs(s[..CountWs(s)])
    ensures CountWs(s) < |s| ==> !IsWs(s[CountWs(s)])
    decreases |s|
  {
    if s != "" && IsWs(s[0]) {
      CountWsSound(s[1..]);
      var n := CountWs(s[1..]);
      assert s[..n + 1] == [s[0]] + s[1..][..n];
    }
  }

  lemma JoinUnit(unit: string, body: string, rest: string, text: string)
    requires UnitAt(unit) == |unit| > 0 && StringBody(body)
    requires body + "\"" + rest == text
    ensures StringBody(unit + body)
    ensures (unit + body) + "\"" + rest == unit + text
  {
    UnitPrefix(unit, body);
    assert (unit + body)[|unit|..] == body;
  }

  lemma {:induction false} ParseStringSound(s: string)
    requires ParseString(s).Some?
    ensures var r := ParseString(s).value; StringBody(r.tree) && r.tree + "\"" + r.rest == s
    decreases |s|
  {
    var n := UnitAt(s);
    if n > 0 {
      ParseStringSound(s[n..]);
      var r := ParseString(s[n..]).value;
      JoinUnit(s[..n], r.tree, r.rest, s[n..]);
      assert s == s[..n] + s[n..];
    } else {
      assert s == "" + "\"" + s[1..];
    }
  }

  lemma ParseNumberSound(s: string)
    requires ParseNumber(s).Some?
    ensures var r := ParseNumber(s).value; r.tree.Valid() && r.tree.Print() + r.rest == s
  {
    var n := NumberSpan(Start, s);
    AcceptsExactlyNumbers(s[..n]);
    assert s == s[..n] + s[n..];
  }

  lemma ParseWordSound(w: Word, s: string)
    requires ParseWord(w, s).Some?
    ensures var r := ParseWord(w, s).value; r.tree.Valid() && r.tree.Print() + r.rest == s
  {
    var n := |w.Text()|;
    assert s == s[..n] + s[n..];
  }

  lemma Rewrap(open: char, s: string)
    requires s != "" && s[0] == open
    ensures [open] + s[1..] == s
  {
  }

  lemma SplitAt(s: string, n: nat, c: char)
    requires n < |s| && s[n] == c
    ensures s[..n] + [c] + s[n + 1..] == s && s[..n] + ([c] + s[n + 1..]) == s
  {
  }

  lemma JoinThree(a: string, b: string, c: string, d: string)
    ensures (a + b + c) + d == a + (b + (c + d))
  {
  }

  lemma JoinList(first: string, more: string, close: string, rest: string)
    ensures (first + "," + more) + close + rest == first + ("," + (more + close + rest))
  {
  }

  lemma JoinMember(before: string, key: string, after: string, value: string, rest: string)
    ensures (before + "\"" + key + "\"" + after + ":" + value) + rest
         == before + ("\"" + (key + "\"" + (after + (":" + (value + rest)))))
  {
  }

  lemma {:induction false} ParseValueSound(s: string)
    requires ParseValue(s).Some?
    ensures var r := ParseValue(s).value; r.tree.Valid() && r.tree.Print() + r.rest == s
    decreases |s|, 0
  {
    Rewrap(s[0], s);
    if s[0] == 't' {
      ParseWordSound(True, s);
    } else if s[0] == 'f' {
      ParseWordSound(False, s);
    } else if s[0] == 'n' {
      ParseWordSound(Null, s);
    } else if s[0] == '"' {
      ParseStringSound(s[1..]);
      var r := ParseString(s[1..]).value;
      Wrapped("\"", r.tree, "\"", r.rest);
    } else if s[0] == '[' {
      ParseArraySound(s[1..]);
    } else if s[0] == '{' {
      ParseObjectSound(s[1..]);
    } else {
      ParseNumberSound(s);
    }
  }

  lemma {:induction false} ParseArraySound(s: string)
    requires ParseArray(s).Some?
    ensures var r := ParseArray(s).value; r.tree.Valid() && r.tree.Print() + r.rest == "[" + s
    decreases |s|, 3
  {
    var n := CountWs(s);
    if n < |s| && s[n] == ']' {
      CountWsSound(s);
      SplitAt(s, n, ']');
      Wrapped("[", s[..n], "]", s[n + 1..]);
    } else {
      ParseElementsSound(s);
      var r := ParseElements(s).value;
      Wrapped("[", r.tree.Print(), "]", r.rest);
    }
  }

  lemma {:induction false} ParseObjectSound(s: string)
    requires ParseObject(s).Some?
    ensures var r := ParseObject(s).value; r.tree.Valid() && r.tree.Print() + r.rest == "{" + s
    decreases |s|, 4
  {
    var n := CountWs(s);
    if n < |s| && s[n] == '}' {
      CountWsSound(s);
      SplitAt(s, n, '}');
      Wrapped("{", s[..n], "}", s[n + 1..]);
    } else {
      ParseMembersSound(s);
      var r := ParseMembers(s).value;
      Wrapped("{", r.tree.Print(), "}", r.rest);
    }
  }

  lemma {:induction false} ParseElementSound(s: string)
    requires ParseElement(s).Some?
    ensures var r := ParseElement(s).value; r.tree.Valid() && r.tree.Print() + r.rest == s
    decreases |s|, 1
  {
    hide CountWs, ParseValue, AllWs;
    var n := CountWs(s);
    CountWsSound(s);
    ParseValueSound(s[n..]);
    var v := ParseValue(s[n..]).value;
    var m := CountWs(v.rest);
    CountWsSound(v.rest);
    JoinThree(s[..n], v.tree.Print(), v.rest[..m], v.rest[m..]);
    assert v.rest[..m] + v.rest[m..] == v.rest;
    assert s[..n] + s[n..] == s;
  }

  lemma {:induction false} ParseElementsSound(s: string)
    requires ParseElements(s).Some?
    ensures var r := ParseElements(s).value; r.tree.Valid() && r.tree.Print() + "]" + r.rest == s
    decreases |s|, 2
  {
    ParseElementSound(s);
    var e := ParseElement(s).value;
    Rewrap(e.rest[0], e.rest);
    if e.rest[0] == ']' {
      Wrapped("", e.tree.Print(), "]", e.rest[1..]);
    } else {
      ParseElementsSound(e.rest[1..]);
      var r := ParseElements(e.rest[1..]).value;
      JoinList(e.tree.Print(), r.tree.Print(), "]", r.rest);
    }
  }

  lemma {:induction false} ParseMemberSound(s: string)
    requires ParseMember(s).Some?
    ensures var r := ParseMember(s).value; r.tree.Valid() && r.tree.Print() + r.rest == s
    decreases |s|, 2
  {
    hide CountWs, ParseString, ParseElement, AllWs, StringBody;
    var n := CountWs(s);
    CountWsSound(s);
    ParseStringSound(s[n + 1..]);
    var k := ParseString(s[n + 1..]).value;
    var m := CountWs(k.rest);
    CountWsSound(k.rest);
    ParseElementSound(k.rest[m + 1..]);
    var e := ParseElement(k.rest[m + 1..]).value;
    SplitAt(k.rest, m, ':');
    SplitAt(s, n, '"');
    JoinMember(s[..n], k.tree, k.rest[..m], e.tree.Print(), e.rest);
  }

  lemma {:induction false} ParseMembersSound(s: string)
    requires ParseMembers(s).Some?
    ensures var r := ParseMembers(s).value; r.tree.Valid() && r.tree.Print() + "}" + r.rest == s
    decreases |s|, 3
  {
    ParseMemberSound(s);
    var m := ParseMember(s).value;
    Rewrap(m.rest[0], m.rest);
    if m.rest[0] == '}' {
      Wrapped("", m.tree.Print(), "}", m.rest[1..]);
    } else {
      ParseMembersSound(m.rest[1..]);
      var r := ParseMembers(m.rest[1..]).value;
      JoinList(m.tree.Print(), r.tree.Print(), "}", r.rest);
    }
  }

  /** Printing what was read gives the text back. */
  lemma PrintParse(s: string)
    requires ParseText(s).Some?
    ensures ParseText(s).value.Valid() && ParseText(s).value.Print() == s
  {
    ParseElementSound(s);
    var r := ParseElement(s).value;
    assert r.tree.Print() + "" == r.tree.Print();
  }

  /** The reader accepts exactly the JSON texts of the grammar. */
  lemma ParseAcceptsExactly(s: string)
    ensures ParseText(s).Some? <==> IsJsonText(s)
  {
    if ParseText(s).Some? {
      PrintParse(s);
    }
    if IsJsonText(s) {
      var e: Element :| e.Valid() && e.Print() == s;
      ParsePrint(e);
    }
  }
}
