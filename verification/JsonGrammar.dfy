/** The grammar of JSON texts (RFC 8259, sections 2 to 7) as concrete syntax trees.
    A tree keeps its white space, so printing a tree is the inverse of reading it. */
module JsonGrammar {

  // ----- terminals -----

  predicate IsWs(c: char) {
    c == ' ' || c == '\t' || c == '\n' || c == '\r'
  }

  predicate IsDigit(c: char) {
    '0' <= c <= '9'
  }

  predicate IsHex(c: char) {
    IsDigit(c) || 'a' <= c <= 'f' || 'A' <= c <= 'F'
  }

  predicate IsControl(c: char) {
    c < ' '
  }

  predicate IsEscapeLetter(c: char) {
    c == '"' || c == '\\' || c == '/' || c == 'b' || c == 'f' || c == 'n' || c == 'r' || c == 't'
  }

  predicate IsNonAscii(c: char) {
    c >= '\U{80}'
  }

  predicate AllWs(s: string) {
    forall i :: 0 <= i < |s| ==> IsWs(s[i])
  }

  predicate AllDigits(s: string) {
    forall i :: 0 <= i < |s| ==> IsDigit(s[i])
  }

  /** The length of the character or escape at the start of a string body; 0 when there is none. */
  function UnitAt(s: string): (n: nat)
    ensures n <= |s|
  {
    if s == "" || s[0] == '"' || IsControl(s[0]) then 0
    else if s[0] != '\\' then 1
    else if |s| >= 2 && IsEscapeLetter(s[1]) then 2
    else if |s| >= 6 && s[1] == 'u' && IsHex(s[2]) && IsHex(s[3]) && IsHex(s[4]) && IsHex(s[5]) then 6
    else 0
  }

  /** What may stand between the quotes of a string. */
  predicate StringBody(s: string)
    decreases |s|
  {
    s == "" || (UnitAt(s) > 0 && StringBody(s[UnitAt(s)..]))
  }

  // ----- numbers: [ minus ] int [ frac ] [ exp ] -----

  predicate Digits(s: string) {
    s != "" && AllDigits(s)
  }

  predicate IntPart(s: string) {
    s == "0" || (Digits(s) && s[0] != '0')
  }

  predicate FracPart(s: string) {
    s != "" && s[0] == '.' && Digits(s[1..])
  }

  /** The letter of an exponent with its optional sign. */
  predicate ExpHead(s: string) {
    || s == "e" || s == "E"
    || s == "e+" || s == "e-" || s == "E+" || s == "E-"
  }

  /** A number taken apart; a part that is missing is empty. */
  datatype NumberParts = NumberParts(minus: bool, whole: string, frac: string, exp: string, digits: string) {
    function Print(): string {
      (if minus then "-" else "") + whole + frac + exp + digits
    }

    predicate Decimal() {
      IntPart(whole) && (frac == "" || FracPart(frac))
    }

    predicate Valid() {
      Decimal() && if exp == "" then digits == "" else ExpHead(exp) && Digits(digits)
    }

    /** Cut where at least one digit must follow: after the decimal point or after the head of the exponent. */
    predicate Cut() {
      && digits == ""
      && (|| (IntPart(whole) && frac == "." && exp == "")
          || (Decimal() && ExpHead(exp)))
    }
  }

  ghost predicate NumberText(s: string) {
    exists p: NumberParts :: p.Valid() && p.Print() == s
  }

  /** A proper prefix of a number that is no number itself, and is not empty. */
  ghost predicate CutNumber(s: string) {
    s == "-" || exists p: NumberParts :: p.Cut() && p.Print() == s
  }

  // ----- trees -----

  datatype Word = True | False | Null {
    function Text(): string {
      match this
      case True => "true"
      case False => "false"
      case Null => "null"
    }
  }

  datatype Value =
    | Literal(word: Word)
    | Number(text: string)
    | String(body: string)
    | EmptyArray(ws: string)
    | Array(elements: Elements)
    | EmptyObject(ws: string)
    | Object(members: Members)
  {
    ghost predicate Valid() {
      match this
      case Literal(_) => true
      case Number(text) => NumberText(text)
      case String(body) => StringBody(body)
      case EmptyArray(ws) => AllWs(ws)
      case Array(elements) => elements.Valid()
      case EmptyObject(ws) => AllWs(ws)
      case Object(members) => members.Valid()
    }

    function Print(): string {
      match this
      case Literal(word) => word.Text()
      case Number(text) => text
      case String(body) => "\"" + body + "\""
      case EmptyArray(ws) => "[" + ws + "]"
      case Array(elements) => "[" + elements.Print() + "]"
      case EmptyObject(ws) => "{" + ws + "}"
      case Object(members) => "{" + members.Print() + "}"
    }
  }

  /** A value with the white space around it. */
  datatype Element = Element(before: string, value: Value, after: string) {
    ghost predicate Valid() {
      AllWs(before) && value.Valid() && AllWs(after)
    }

    function Print(): string {
      before + value.Print() + after
    }
  }

  datatype Elements = Last(element: Element) | More(element: Element, rest: Elements) {
    ghost predicate Valid() {
      element.Valid() && (More? ==> rest.Valid())
    }

    function Print(): string {
      match this
      case Last(e) => e.Print()
      case More(e, rest) => e.Print() + "," + rest.Print()
    }
  }

  datatype Member = Member(before: string, key: string, after: string, element: Element) {
    ghost predicate Valid() {
      AllWs(before) && StringBody(key) && AllWs(after) && element.Valid()
    }

    function Print(): string {
      before + "\"" + key + "\"" + after + ":" + element.Print()
    }
  }

  datatype Members = LastMember(member: Member) | MoreMembers(member: Member, rest: Members) {
    ghost predicate Valid() {
      member.Valid() && (MoreMembers? ==> rest.Valid())
    }

    function Print(): string {
      match this
      case LastMember(m) => m.Print()
      case MoreMembers(m, rest) => m.Print() + "," + rest.Print()
    }
  }

  /** A JSON text is one value with optional white space around it. */
  ghost predicate IsJsonText(s: string) {
    exists e: Element :: e.Valid() && e.Print() == s
  }

  /** Some continuation of the text is a JSON text. */
  ghost predicate Completable(s: string) {
    exists t: string :: IsJsonText(s + t)
  }

  /** Some continuation that starts with a non-ASCII character makes the text a JSON text. */
  ghost predicate CompletableByNonAscii(s: string) {
    exists t: string :: t != "" && IsNonAscii(t[0]) && IsJsonText(s + t)
  }
}
