/** JSON.parse up to the syntax tree: a recursive-descent reader. */
module JsonParser {
  import opened JsonGrammar
  import opened NumberAutomaton
  import opened Wrappers

  /** A syntax element and the text that follows it. */
  datatype Read<T> = Read(tree: T, rest: string)

  function CountWs(s: string): (n: nat)
    ensures n <= |s|
  {
    if s == "" || !IsWs(s[0]) then 0 else 1 + CountWs(s[1..])
  }

  /** Reads a string body and its closing quote. */
  function ParseString(s: string): (r: Option<Read<string>>)
    ensures r.Some? ==> |r.value.rest| < |s|
    decreases |s|
  {
    var n := UnitAt(s);
    if n > 0 then
      match ParseString(s[n..])
      case None => None
      case Some(r) => Some(Read(s[..n] + r.tree, r.rest))
    else if s != "" && s[0] == '"' then Some(Read("", s[1..]))
    else None
  }

  /** The length of the longest text the number automaton can follow. */
  function NumberSpan(q: NumState, s: string): (n: nat)
    ensures n <= |s|
    decreases |s|
  {
    if s == "" || NumStep(q, s[0]).Stuck? then 0 else 1 + NumberSpan(NumStep(q, s[0]), s[1..])
  }

  function ParseNumber(s: string): (r: Option<Read<Value>>)
    ensures r.Some? ==> |r.value.rest| < |s|
  {
    var n := NumberSpan(Start, s);
    if n > 0 && Accepting(NumRun(Start, s[..n])) then Some(Read(Number(s[..n]), s[n..])) else None
  }

  function ParseWord(w: Word, s: string): (r: Option<Read<Value>>)
    ensures r.Some? ==> |r.value.rest| < |s|
  {
    var n := |w.Text()|;
    if n <= |s| && s[..n] == w.Text() then Some(Read(Literal(w), s[n..])) else None
  }

  function ParseValue(s: string): (r: Option<Read<Value>>)
    ensures r.Some? ==> |r.value.rest| < |s|
    decreases |s|, 0
  {
    if s == "" then None
    else if s[0] == 't' then ParseWord(True, s)
    else if s[0] == 'f' then ParseWord(False, s)
    else if s[0] == 'n' then ParseWord(Null, s)
    else if s[0] == '"' then
      match ParseString(s[1..])
      case None => None
      case Some(r) => Some(Read(String(r.tree), r.rest))
    else if s[0] == '[' then ParseArray(s[1..])
    else if s[0] == '{' then ParseObject(s[1..])
    else ParseNumber(s)
  }

  /** Reads what follows an opening bracket. */
  function ParseArray(s: string): (r: Option<Read<Value>>)
    ensures r.Some? ==> |r.value.rest| < |s|
    decreases |s|, 3
  {
    var n := CountWs(s);
    if n < |s| && s[n] == ']' then Some(Read(EmptyArray(s[..n]), s[n + 1..]))
    else
      match ParseElements(s)
      case None => None
      case Some(r) => Some(Read(Array(r.tree), r.rest))
  }

  /** Reads what follows an opening brace. */
  function ParseObject(s: string): (r: Option<Read<Value>>)
    ensures r.Some? ==> |r.value.rest| < |s|
    decreases |s|, 4
  {
    var n := CountWs(s);
    if n < |s| && s[n] == '}' then Some(Read(EmptyObject(s[..n]), s[n + 1..]))
    else
      match ParseMembers(s)
      case None => None
      case Some(r) => Some(Read(Object(r.tree), r.rest))
  }

  function ParseElement(s: string): (r: Option<Read<Element>>)
    ensures r.Some? ==> |r.value.rest| < |s|
    decreases |s|, 1
  {
    var n := CountWs(s);
    match ParseValue(s[n..])
    case None => None
    case Some(v) =>
      var m := CountWs(v.rest);
      Some(Read(Element(s[..n], v.tree, v.rest[..m]), v.rest[m..]))
  }

  /** Reads elements up to and including the closing bracket. */
  function ParseElements(s: string): (r: Option<Read<Elements>>)
    ensures r.Some? ==> |r.value.rest| < |s|
    decreases |s|, 2
  {
    match ParseElement(s)
    case None => None
    case Some(e) =>
      if e.rest == "" then None
      else if e.rest[0] == ']' then Some(Read(Last(e.tree), e.rest[1..]))
      else if e.rest[0] == ',' then
        match ParseElements(e.rest[1..])
        case None => None
        case Some(r) => Some(Read(More(e.tree, r.tree), r.rest))
      else None
  }

  function ParseMember(s: string): (r: Option<Read<Member>>)
    ensures r.Some? ==> |r.value.rest| < |s|
    decreases |s|, 2
  {
    var n := CountWs(s);
    if n == |s| || s[n] != '"' then None
    else
      match ParseString(s[n + 1..])
      case None => None
      case Some(k) =>
        var m := CountWs(k.rest);
        if m == |k.rest| || k.rest[m] != ':' then None
        else
          match ParseElement(k.rest[m + 1..])
          case None => None
          case Some(e) => Some(Read(Member(s[..n], k.tree, k.rest[..m], e.tree), e.rest))
  }

  /** Reads members up to and including the closing brace. */
  function ParseMembers(s: string): (r: Option<Read<Members>>)
    ensures r.Some? ==> |r.value.rest| < |s|
    decreases |s|, 3
  {
    match ParseMember(s)
    case None => None
    case Some(m) =>
      if m.rest == "" then None
      else if m.rest[0] == '}' then Some(Read(LastMember(m.tree), m.rest[1..]))
      else if m.rest[0] == ',' then
        match ParseMembers(m.rest[1..])
        case None => None
        case Some(r) => Some(Read(MoreMembers(m.tree, r.tree), r.rest))
      else None
  }

  /** JSON.parse: None where it throws a SyntaxError. */
  function ParseText(s: string): Option<Element> {
    match ParseElement(s)
    case None => None
    case Some(r) => if r.rest == "" then Some(r.tree) else None
  }
}
