/** One way to write records as JSON and to read them back: the demands on a store's codec can be met. */
module SampleCodec {
  import opened JsonGrammar
  import opened JsonParser
  import opened JsonRoundTrip
  import opened Wrappers
  import opened LedgerSnapshot
  import opened LedgerRecovery
  import opened LedgerGrowth

  /** A number in strokes. */
  function Strokes(n: nat): string {
    if n == 0 then "" else "i" + Strokes(n - 1)
  }

  function StrokesValue(n: nat): Element {
    Element("", String(Strokes(n)), "")
  }

  /** The codes of the characters, one after the other. */
  function Codes(s: string): Elements
    requires s != ""
  {
    if |s| == 1 then Last(StrokesValue(s[0] as int)) else More(StrokesValue(s[0] as int), Codes(s[1..]))
  }

  function TextValue(s: string): Element {
    Element("", if s == "" then EmptyArray("") else Array(Codes(s)), "")
  }

  function Field(key: string, element: Element): Member {
    Member("", key, "", element)
  }

  function Order(e: Entry): nat {
    if e.sequence < 0 then 0 else e.sequence
  }

  function TreeOf(e: Entry): Element {
    var payload := LastMember(Field("payload", TextValue(e.payload)));
    var order := MoreMembers(Field("sequence", StrokesValue(Order(e))), payload);
    Element("", Object(MoreMembers(Field("recordId", TextValue(e.recordId)), order)), "")
  }

  function Stringify(e: Entry): string {
    TreeOf(e).Print()
  }

  predicate IsSafe(e: Entry) {
    0 < e.sequence <= MAX_SAFE_INTEGER
  }

  ghost function ReadBack(tree: Element): Reading {
    if exists e :: IsSafe(e) && TreeOf(e) == tree then
      var e :| IsSafe(e) && TreeOf(e) == tree;
      Accepted(e, false)
    else Rejected
  }

  // ----- the tree tells the record -----

  lemma {:induction false} StrokesLength(n: nat)
    ensures |Strokes(n)| == n
  {
    if n > 0 {
      StrokesLength(n - 1);
    }
  }

  lemma StrokesTell(m: nat, n: nat)
    requires StrokesValue(m) == StrokesValue(n)
    ensures m == n
  {
    StrokesLength(m);
    StrokesLength(n);
  }

  lemma {:induction false} CodesTell(s: string, t: string)
    requires s != "" && t != "" && Codes(s) == Codes(t)
    ensures s == t
    decreases |s|
  {
    StrokesTell(s[0] as int, t[0] as int);
    if |s| > 1 && |t| > 1 {
      CodesTell(s[1..], t[1..]);
      assert s == [s[0]] + s[1..] && t == [t[0]] + t[1..];
    }
  }

  lemma TreeTells(d: Entry, e: Entry)
    requires IsSafe(d) && IsSafe(e) && TreeOf(d) == TreeOf(e)
    ensures d == e
  {
    hide Strokes, Codes;
    StrokesTell(d.sequence, e.sequence);
    if d.recordId != "" && e.recordId != "" {
      CodesTell(d.recordId, e.recordId);
    }
    if d.payload != "" && e.payload != "" {
      CodesTell(d.payload, e.payload);
    }
  }

  // ----- the tree is valid and prints on one line -----

  predicate OneLine(s: string) {
    forall i :: 0 <= i < |s| ==> s[i] != '\n'
  }

  lemma {:induction false} StrokesStand(n: nat)
    ensures StringBody(Strokes(n)) && OneLine(Strokes(n))
  {
    if n > 0 {
      StrokesStand(n - 1);
      assert Strokes(n)[1..] == Strokes(n - 1) && UnitAt(Strokes(n)) == 1;
    }
  }

  lemma StrokesPrint(n: nat)
    ensures StrokesValue(n).Valid() && OneLine(StrokesValue(n).Print())
  {
    StrokesStand(n);
  }

  lemma {:induction false} CodesPrint(s: string)
    requires s != ""
    ensures Codes(s).Valid() && OneLine(Codes(s).Print())
    decreases |s|
  {
    StrokesPrint(s[0] as int);
    if |s| > 1 {
      CodesPrint(s[1..]);
      hide Strokes;
      assert Codes(s).Print() == StrokesValue(s[0] as int).Print() + "," + Codes(s[1..]).Print();
    }
  }

  lemma TextPrints(s: string)
    ensures TextValue(s).Valid() && OneLine(TextValue(s).Print())
  {
    if s != "" {
      CodesPrint(s);
    }
  }

  lemma {:induction false} WordStands(s: string)
    requires forall i :: 0 <= i < |s| ==> 'A' <= s[i] <= 'z' && s[i] != '\\'
    ensures StringBody(s) && OneLine(s)
    decreases |s|
  {
    if s != "" {
      WordStands(s[1..]);
      assert UnitAt(s) == 1;
    }
  }

  lemma FieldPrints(key: string, element: Element)
    requires forall i :: 0 <= i < |key| ==> 'A' <= key[i] <= 'z' && key[i] != '\\'
    requires element.Valid() && OneLine(element.Print())
    ensures Field(key, element).Valid() && OneLine(Field(key, element).Print())
  {
    WordStands(key);
  }

  lemma MembersPrint(first: Member, rest: Members)
    requires first.Valid() && OneLine(first.Print()) && rest.Valid() && OneLine(rest.Print())
    ensures MoreMembers(first, rest).Valid() && OneLine(MoreMembers(first, rest).Print())
  {
  }

  lemma ObjectPrints(members: Members)
    requires members.Valid() && OneLine(members.Print())
    ensures
      var tree := Element("", Object(members), "");
      var line := tree.Print();
      tree.Valid() && OneLine(line) && line != "" && line[0] == '{' && line[|line| - 1] == '}'
  {
  }

  lemma TreePrints(e: Entry)
    ensures TreeOf(e).Valid() && OneLine(Stringify(e))
    ensures Stringify(e) != "" && Stringify(e)[0] == '{' && Stringify(e)[|Stringify(e)| - 1] == '}'
  {
    hide TextValue, StrokesValue, Field, StringBody, OneLine;
    TextPrints(e.recordId);
    TextPrints(e.payload);
    StrokesPrint(Order(e));
    FieldPrints("recordId", TextValue(e.recordId));
    FieldPrints("sequence", StrokesValue(Order(e)));
    FieldPrints("payload", TextValue(e.payload));
    var payload := LastMember(Field("payload", TextValue(e.payload)));
    var order := Field("sequence", StrokesValue(Order(e)));
    assert payload.Valid() && payload.Print() == payload.member.Print();
    MembersPrint(order, payload);
    MembersPrint(Field("recordId", TextValue(e.recordId)), MoreMembers(order, payload));
    ObjectPrints(MoreMembers(Field("recordId", TextValue(e.recordId)), MoreMembers(order, payload)));
  }

  lemma PrintedTree(e: Entry)
    requires TreeOf(e).Valid()
    ensures ParseText(Stringify(e)) == Some(TreeOf(e))
  {
    hide TreeOf, ParseText;
    ParsePrint(TreeOf(e));
  }

  lemma ReadsBack(e: Entry)
    requires IsSafe(e)
    ensures PrintedAs(ReadBack, Stringify(e), e)
  {
    hide TreeOf, Stringify, ParseText;
    TreePrints(e);
    PrintedTree(e);
    var tree := TreeOf(e);
    var d :| IsSafe(d) && TreeOf(d) == tree && ReadBack(tree) == Accepted(d, false);
    TreeTells(d, e);
  }

  /** There is a codec that reads back what is written. */
  lemma SomeCodecIsFaithful()
    ensures exists codec: Codec, stringify: Entry -> string :: Faithful(codec, stringify)
  {
    forall e: Entry | IsSafe(e)
      ensures PrintedAs(ReadBack, Stringify(e), e)
    {
      ReadsBack(e);
    }
    hide PrintedAs;
    var codec: Codec := ReadBack;
    assert Faithful(codec, Stringify);
  }
}
