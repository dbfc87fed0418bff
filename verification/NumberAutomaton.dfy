/** A character automaton for JSON numbers, and the proof that its states mean what the
    grammar of section 6 of RFC 8259 says. */
module NumberAutomaton {
  import opened JsonGrammar

  datatype NumState =
    | Start | Minus | Zero | Int | Dot | Frac | Exp | ExpSign | ExpDigits | Stuck

  predicate Accepting(q: NumState) {
    q.Zero? || q.Int? || q.Frac? || q.ExpDigits?
  }

  /** States in which a digit is still owed. */
  predicate Owing(q: NumState) {
    q.Minus? || q.Dot? || q.Exp? || q.ExpSign?
  }

  function NumStep(q: NumState, c: char): NumState {
    match q
    case Start => if c == '-' then Minus else if c == '0' then Zero else if IsDigit(c) then Int else Stuck
    case Minus => if c == '0' then Zero else if IsDigit(c) then Int else Stuck
    case Zero => if c == '.' then Dot else if c == 'e' || c == 'E' then Exp else Stuck
    case Int =>
      if IsDigit(c) then Int else if c == '.' then Dot else if c == 'e' || c == 'E' then Exp else Stuck
    case Dot => if IsDigit(c) then Frac else Stuck
    case Frac => if IsDigit(c) then Frac else if c == 'e' || c == 'E' then Exp else Stuck
    case Exp => if c == '+' || c == '-' then ExpSign else if IsDigit(c) then ExpDigits else Stuck
    case ExpSign => if IsDigit(c) then ExpDigits else Stuck
    case ExpDigits => if IsDigit(c) then ExpDigits else Stuck
    case Stuck => Stuck
  }

  function NumRun(q: NumState, s: string): NumState
    decreases |s|
  {
    if s == "" then q else NumRun(NumStep(q, s[0]), s[1..])
  }

  lemma {:induction false} NumRunConcat(q: NumState, a: string, b: string)
    ensures NumRun(q, a + b) == NumRun(NumRun(q, a), b)
    decreases |a|
  {
    if a == "" {
      assert a + b == b;
    } else {
      assert (a + b)[1..] == a[1..] + b;
      NumRunConcat(NumStep(q, a[0]), a[1..], b);
    }
  }

  lemma {:induction false} StuckStays(s: string)
    ensures NumRun(Stuck, s) == Stuck
    decreases |s|
  {
    if s != "" {
      StuckStays(s[1..]);
    }
  }

  lemma NumRunSnoc(q: NumState, s: string, c: char)
    ensures NumRun(q, s + [c]) == NumStep(NumRun(q, s), c)
  {
    NumRunConcat(q, s, [c]);
    assert NumRun(NumRun(q, s), [c]) == NumRun(NumStep(NumRun(q, s), c), []);
  }

  lemma {:induction false} DigitsLoop(q: NumState, s: string)
    requires q.Int? || q.Frac? || q.ExpDigits?
    requires AllDigits(s)
    ensures NumRun(q, s) == q
    decreases |s|
  {
    if s != "" {
      DigitsLoop(q, s[1..]);
    }
  }

  function SignText(minus: bool): string {
    if minus then "-" else ""
  }

  /** What the parts read so far look like in state q. */
  ghost predicate InState(q: NumState, p: NumberParts) {
    match q
    case Start => p.whole == p.frac == p.exp == p.digits == "" && !p.minus
    case Minus => p.whole == p.frac == p.exp == p.digits == "" && p.minus
    case Zero => p.whole == "0" && p.frac == p.exp == p.digits == ""
    case Int => IntPart(p.whole) && p.whole != "0" && p.frac == p.exp == p.digits == ""
    case Dot => IntPart(p.whole) && p.frac == "." && p.exp == p.digits == ""
    case Frac => IntPart(p.whole) && FracPart(p.frac) && p.exp == p.digits == ""
    case Exp => p.Decimal() && |p.exp| == 1 && ExpHead(p.exp) && p.digits == ""
    case ExpSign => p.Decimal() && |p.exp| == 2 && ExpHead(p.exp) && p.digits == ""
    case ExpDigits => p.Decimal() && ExpHead(p.exp) && Digits(p.digits)
    case Stuck => true
  }

  /** The parts after one more character. */
  function Extend(q: NumState, p: NumberParts, c: char): NumberParts {
    match NumStep(q, c)
    case Minus => p.(minus := true)
    case Zero => p.(whole := p.whole + [c])
    case Int => p.(whole := p.whole + [c])
    case Dot => p.(frac := p.frac + [c])
    case Frac => p.(frac := p.frac + [c])
    case Exp => p.(exp := p.exp + [c])
    case ExpSign => p.(exp := p.exp + [c])
    case ExpDigits => p.(digits := p.digits + [c])
    case Start => p
    case Stuck => p
  }

  lemma ExtendInt(q: NumState, p: NumberParts, c: char)
    requires InState(q, p) && NumStep(q, c).Int?
    ensures InState(Int, Extend(q, p, c))
  {
    assert Extend(q, p, c).whole[0] == if p.whole == "" then c else p.whole[0];
  }

  lemma ExtendFrac(q: NumState, p: NumberParts, c: char)
    requires InState(q, p) && NumStep(q, c).Frac?
    ensures InState(Frac, Extend(q, p, c))
  {
    assert Extend(q, p, c).frac[1..] == p.frac[1..] + [c];
  }

  lemma ExtendStep(q: NumState, p: NumberParts, c: char)
    requires InState(q, p)
    ensures InState(NumStep(q, c), Extend(q, p, c))
  {
    match NumStep(q, c) {
      case Int => ExtendInt(q, p, c);
      case Frac => ExtendFrac(q, p, c);
      case _ =>
    }
  }

  /** Parts that are empty at the end do not show. */
  lemma PrintUpTo(p: NumberParts)
    ensures var sign := SignText(p.minus);
      && (p.digits == "" ==> p.Print() == sign + p.whole + p.frac + p.exp)
      && (p.digits == p.exp == "" ==> p.Print() == sign + p.whole + p.frac)
      && (p.digits == p.exp == p.frac == "" ==> p.Print() == sign + p.whole)
  {
    var d := SignText(p.minus) + p.whole + p.frac;
    assert d + p.exp + "" == d + p.exp;
    assert d + "" == d;
    assert SignText(p.minus) + p.whole + "" == SignText(p.minus) + p.whole;
  }

  lemma Append(a: string, b: string, c: char)
    ensures a + (b + [c]) == (a + b) + [c]
  {
  }

  lemma ExtendPrint(q: NumState, p: NumberParts, c: char)
    requires InState(q, p) && !NumStep(q, c).Stuck?
    ensures Extend(q, p, c).Print() == p.Print() + [c]
  {
    PrintUpTo(p);
    PrintUpTo(Extend(q, p, c));
    var sign := SignText(p.minus);
    match NumStep(q, c) {
      case Minus =>
      case Zero => Append(sign, p.whole, c);
      case Int => Append(sign, p.whole, c);
      case Dot => Append(sign + p.whole, p.frac, c);
      case Frac => Append(sign + p.whole, p.frac, c);
      case Exp => Append(sign + p.whole + p.frac, p.exp, c);
      case ExpSign => Append(sign + p.whole + p.frac, p.exp, c);
      case ExpDigits => Append(sign + p.whole + p.frac + p.exp, p.digits, c);
    }
  }

  /** Soundness: the state reached tells how the text divides into parts. */
  lemma {:induction false} ReachedParts(s: string) returns (p: NumberParts)
    requires !NumRun(Start, s).Stuck?
    ensures InState(NumRun(Start, s), p) && p.Print() == s
    decreases |s|
  {
    if s == "" {
      p := NumberParts(false, "", "", "", "");
    } else {
      var n := |s| - 1;
      assert s == s[..n] + [s[n]];
      NumRunSnoc(Start, s[..n], s[n]);
      var q := NumRun(Start, s[..n]);
      var p0 := ReachedParts(s[..n]);
      ExtendStep(q, p0, s[n]);
      ExtendPrint(q, p0, s[n]);
      p := Extend(q, p0, s[n]);
    }
  }

  // ----- the other direction: the parts of a number drive the automaton to the right state -----

  lemma RunIntPart(q: NumState, s: string)
    requires q.Start? || q.Minus?
    requires IntPart(s)
    ensures NumRun(q, s) == if s == "0" then Zero else Int
  {
    if s == "0" {
      assert NumRun(q, s) == NumRun(NumStep(q, s[0]), "");
    } else {
      DigitsLoop(Int, s[1..]);
    }
  }

  lemma RunFracPart(q: NumState, f: string)
    requires q.Zero? || q.Int?
    requires FracPart(f)
    ensures NumRun(q, f) == Frac
  {
    var d := f[1..];
    assert NumRun(q, f) == NumRun(Dot, d);
    assert NumRun(Dot, d) == NumRun(Frac, d[1..]);
    DigitsLoop(Frac, d[1..]);
  }

  lemma RunExpHead(q: NumState, h: string)
    requires q.Zero? || q.Int? || q.Frac?
    requires ExpHead(h)
    ensures NumRun(q, h) == if |h| == 1 then Exp else ExpSign
  {
    assert NumRun(q, h) == NumRun(Exp, h[1..]);
    if |h| == 2 {
      assert NumRun(Exp, h[1..]) == NumRun(ExpSign, h[1..][1..]);
    }
  }

  lemma RunDigits(q: NumState, d: string)
    requires q.Exp? || q.ExpSign?
    requires Digits(d)
    ensures NumRun(q, d) == ExpDigits
  {
    assert NumRun(q, d) == NumRun(ExpDigits, d[1..]);
    DigitsLoop(ExpDigits, d[1..]);
  }

  lemma RunSign(minus: bool)
    ensures NumRun(Start, SignText(minus)) == if minus then Minus else Start
  {
    assert NumRun(Start, "-") == NumRun(Minus, "");
  }

  /** The state after the sign, the int and the frac. */
  lemma RunDecimal(p: NumberParts)
    requires IntPart(p.whole) && (p.frac == "" || p.frac == "." || FracPart(p.frac))
    ensures var r := NumRun(Start, SignText(p.minus) + p.whole + p.frac);
      if p.frac == "" then r.Zero? || r.Int? else if p.frac == "." then r.Dot? else r.Frac?
  {
    var sign := SignText(p.minus);
    RunSign(p.minus);
    NumRunConcat(Start, sign, p.whole);
    RunIntPart(NumRun(Start, sign), p.whole);
    NumRunConcat(Start, sign + p.whole, p.frac);
    var q := NumRun(Start, sign + p.whole);
    if p.frac == "." {
      assert NumRun(q, p.frac) == NumRun(NumStep(q, '.'), "");
    } else if p.frac != "" {
      RunFracPart(q, p.frac);
    }
  }

  lemma RunParts(p: NumberParts)
    requires p.Valid() || p.Cut()
    ensures p.Valid() ==> Accepting(NumRun(Start, p.Print()))
    ensures p.Cut() ==> Owing(NumRun(Start, p.Print()))
  {
    var d := SignText(p.minus) + p.whole + p.frac;
    RunDecimal(p);
    assert p.Print() == d + p.exp + p.digits;
    NumRunConcat(Start, d, p.exp);
    NumRunConcat(Start, d + p.exp, p.digits);
    if p.exp != "" {
      RunExpHead(NumRun(Start, d), p.exp);
      if p.digits != "" {
        RunDigits(NumRun(Start, d + p.exp), p.digits);
      }
    }
  }

  /** The automaton accepts exactly the numbers of the grammar. */
  lemma AcceptsExactlyNumbers(s: string)
    ensures Accepting(NumRun(Start, s)) <==> NumberText(s)
  {
    if Accepting(NumRun(Start, s)) {
      var p := ReachedParts(s);
      assert p.Valid();
    }
    if NumberText(s) {
      var p: NumberParts :| p.Valid() && p.Print() == s;
      RunParts(p);
    }
  }

  /** The automaton owes a digit exactly after the cut numbers. */
  lemma OwesExactlyCutNumbers(s: string)
    ensures Owing(NumRun(Start, s)) <==> CutNumber(s)
  {
    if Owing(NumRun(Start, s)) {
      var p := ReachedParts(s);
      assert NumRun(Start, s) != Minus ==> p.Cut();
    }
    if CutNumber(s) {
      if s == "-" {
        RunSign(true);
      } else {
        var p: NumberParts :| p.Cut() && p.Print() == s;
        RunParts(p);
      }
    }
  }
}
