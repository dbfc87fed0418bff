/** UTF-8 as a decoder reads it that never fails (section 8.1.1 of the WHATWG Encoding standard): what cannot
    be a character becomes a replacement character, and the byte that shows it is read once more. */
module LossyUtf8 {
  import opened Utf8

  const REPLACEMENT: char := '\U{fffd}'

  /** The characters so far, and the bytes of a character that has begun. */
  datatype Drawn = Drawn(text: string, pending: seq<byte>)

  /** One byte more. */
  function Draw(pending: seq<byte>, b: byte): Drawn
    decreases |pending|
  {
    var bytes := pending + [b];
    if WellFormedStart(bytes, Width(bytes[0])) then
      if |bytes| >= Width(bytes[0]) then Drawn([CharAt(bytes)], []) else Drawn("", bytes)
    else if pending == [] then Drawn([REPLACEMENT], [])
    else
      var again := Draw([], b);
      Drawn([REPLACEMENT] + again.text, again.pending)
  }

  function DrawAll(pending: seq<byte>, bytes: seq<byte>): Drawn
    decreases |bytes|
  {
    if bytes == [] then Drawn("", pending)
    else
      var before := DrawAll(pending, bytes[..|bytes| - 1]);
      var last := Draw(before.pending, bytes[|bytes| - 1]);
      Drawn(before.text + last.text, last.pending)
  }

  /** What is left of an unfinished character at the end. */
  function Flushed(pending: seq<byte>): string {
    if pending == [] then "" else [REPLACEMENT]
  }

  /** All the bytes at once. */
  function Lossy(bytes: seq<byte>): string {
    DrawAll([], bytes).text + Flushed(DrawAll([], bytes).pending)
  }

  // ----- where the bytes are cut does not matter -----

  lemma {:induction false} DrawTogether(pending: seq<byte>, a: seq<byte>, b: seq<byte>)
    ensures
      var first := DrawAll(pending, a);
      var second := DrawAll(first.pending, b);
      DrawAll(pending, a + b) == Drawn(first.text + second.text, second.pending)
    decreases |b|
  {
    hide Draw;
    if b == [] {
      assert a + b == a;
    } else {
      var n := |b| - 1;
      DrawTogether(pending, a, b[..n]);
      assert (a + b)[..|a + b| - 1] == a + b[..n];
    }
  }

  // ----- agreement with the decoder that fails -----

  lemma DrawOne(pending: seq<byte>, b: byte)
    ensures DrawAll(pending, [b]) == Draw(pending, b)
  {
    hide Draw;
    assert [b][..0] == [];
    assert DrawAll(pending, []) == Drawn("", pending);
  }

  lemma Shortened(s: seq<byte>, k: nat)
    requires s != [] && WellFormedStart(s, Width(s[0])) && 0 < k <= |s|
    ensures WellFormedStart(s[..k], Width(s[0])) && s[..k][0] == s[0]
  {
  }

  /** The beginning of a character is kept. */
  lemma {:induction false} StartPends(s: seq<byte>)
    requires s != [] && WellFormedStart(s, Width(s[0])) && |s| < Width(s[0])
    ensures DrawAll([], s) == Drawn("", s)
    decreases |s|
  {
    var n := |s| - 1;
    assert s == s[..n] + [s[n]];
    if n > 0 {
      Shortened(s, n);
      hide WellFormedStart;
      StartPends(s[..n]);
    } else {
      assert s[..0] == [];
    }
  }

  /** A whole character is given out. */
  lemma CharDrawn(s: seq<byte>)
    requires s != [] && WellFormedStart(s, Width(s[0])) && |s| == Width(s[0])
    ensures DrawAll([], s) == Drawn([CharAt(s)], [])
  {
    hide WellFormedStart, CharAt;
    var n := |s| - 1;
    assert s == s[..n] + [s[n]];
    if n > 0 {
      Shortened(s, n);
      StartPends(s[..n]);
    } else {
      assert s[..0] == [];
    }
  }

  /** The longest beginning of the bytes that may be the start of a character. */
  lemma BadByte(s: seq<byte>) returns (k: nat)
    requires s != [] && !WellFormedStart(s, Width(s[0]))
    ensures k < |s| && (k > 0 ==> WellFormedStart(s[..k], Width(s[0])) && k < Width(s[0]))
    ensures !WellFormedStart(s[..k + 1], Width(s[0]))
  {
    if Width(s[0]) == 0 {
      k := 0;
    } else if !IsSecond(s[0], s[1]) {
      k := 1;
    } else if !IsTail(s[2]) {
      k := 2;
    } else {
      k := 3;
    }
  }

  lemma NothingDrawn()
    ensures DrawAll([], []) == Drawn("", [])
  {
  }

  /** The bytes are nothing, or the beginning of a character. */
  predicate Begins(s: seq<byte>) {
    s == [] || (WellFormedStart(s, Width(s[0])) && |s| < Width(s[0]))
  }

  /** The bytes up to here are the longest beginning of a character that the bytes start with, and no character. */
  predicate IsLongestBeginning(s: seq<byte>, k: nat) {
    k <= |s| && Begins(s[..k]) && (k < |s| ==> !WellFormedStart(s[..k + 1], Width(s[0])))
  }

  lemma CutAround(s: seq<byte>, k: nat)
    requires k < |s|
    ensures s[..k] + [s[k]] == s[..k + 1] && s[..k + 1] + s[k + 1..] == s && [s[k]] + s[k + 1..] == s[k..]
  {
  }

  lemma BrokenByte(start: seq<byte>, b: byte)
    requires !WellFormedStart(start + [b], Width((start + [b])[0]))
    ensures Draw(start, b) ==
      if start == [] then Drawn([REPLACEMENT], []) else Drawn([REPLACEMENT] + Draw([], b).text, Draw([], b).pending)
  {
    hide WellFormedStart;
  }

  /** A beginning and a byte that cannot go on. */
  lemma StartBroken(start: seq<byte>, b: byte)
    requires Begins(start) && !WellFormedStart(start + [b], Width((start + [b])[0]))
    ensures
      var again := if start == [] then Drawn("", []) else DrawAll([], [b]);
      DrawAll([], start + [b]) == Drawn([REPLACEMENT] + again.text, again.pending)
  {
    BrokenByte(start, b);
    DrawOne(start, b);
    DrawOne([], b);
    DrawTogether([], start, [b]);
    NothingDrawn();
    if start != [] {
      StartPends(start);
    }
    hide Draw, DrawAll, WellFormedStart;
  }

  lemma Associates(a: string, b: string, c: string)
    ensures (a + b) + c == a + (b + c)
  {
  }

  /** What is drawn of two beginnings differs by the same text whatever comes after. */
  lemma AfterBoth(before: seq<byte>, text: string, mid: seq<byte>, after: seq<byte>)
    requires DrawAll([], before) == Drawn(text + DrawAll([], mid).text, DrawAll([], mid).pending)
    ensures DrawAll([], before + after) == Drawn(text + DrawAll([], mid + after).text, DrawAll([], mid + after).pending)
  {
    hide *;
    DrawTogether([], before, after);
    DrawTogether([], mid, after);
    Associates(text, DrawAll([], mid).text, DrawAll(DrawAll([], mid).pending, after).text);
  }

  /** The byte that cannot go on is read once more. */
  lemma ReadOnceMore(start: seq<byte>, b: byte, after: seq<byte>)
    requires start != [] && Begins(start) && !WellFormedStart(start + [b], Width((start + [b])[0]))
    ensures
      var rest := DrawAll([], [b] + after);
      DrawAll([], start + [b] + after) == Drawn([REPLACEMENT] + rest.text, rest.pending)
  {
    hide *;
    StartBroken(start, b);
    AfterBoth(start + [b], [REPLACEMENT], [b], after);
  }

  /** The byte that begins nothing is replaced. */
  lemma ByteReplaced(b: byte, after: seq<byte>)
    requires !WellFormedStart([b], Width(b))
    ensures
      var rest := DrawAll([], after);
      DrawAll([], [b] + after) == Drawn([REPLACEMENT] + rest.text, rest.pending)
  {
    assert [] + [b] == [b] && [] + after == after && Begins([]);
    NothingDrawn();
    hide *;
    StartBroken([], b);
    AfterBoth([b], [REPLACEMENT], [], after);
  }

  lemma BrokenDrawn(s: seq<byte>, k: nat)
    requires k < |s| && IsLongestBeginning(s, k)
    ensures
      var rest := DrawAll([], if k == 0 then s[1..] else s[k..]);
      DrawAll([], s) == Drawn([REPLACEMENT] + rest.text, rest.pending)
  {
    hide DrawAll, WellFormedStart, Width;
    CutAround(s, k);
    if k == 0 {
      assert s[..1] == [s[0]];
      ByteReplaced(s[0], s[1..]);
    } else {
      ReadOnceMore(s[..k], s[k], s[k + 1..]);
    }
  }

  /** A byte that cannot go on makes a replacement character. */
  lemma BadByteShows(s: seq<byte>)
    requires s != [] && !WellFormedStart(s, Width(s[0]))
    ensures REPLACEMENT in DrawAll([], s).text
  {
    var k := BadByte(s);
    hide DrawAll, WellFormedStart, Width;
    BrokenDrawn(s, k);
    assert DrawAll([], s).text[0] == REPLACEMENT;
  }

  lemma WidthOfStart(s: seq<byte>)
    requires s != [] && WellFormedStart(s, Width(s[0]))
    ensures Width(s[0]) > 0
  {
  }

  lemma FirstDrawn(s: seq<byte>, w: nat)
    requires s != [] && WellFormedStart(s, Width(s[0])) && |s| >= Width(s[0]) && w == Width(s[0])
    ensures w > 0 && DrawAll([], s[..w]) == Drawn([CharAt(s)], [])
  {
    WidthOfStart(s);
    Shortened(s, w);
    assert s[..w] + s[w..] == s;
    hide DrawAll, Draw, WellFormedStart, CharAt, Width;
    StartOfPrefix(s[..w], 0, s[w..]);
    CharDrawn(s[..w]);
  }

  /** The first character and the rest. */
  lemma DrawFirst(s: seq<byte>)
    requires s != [] && WellFormedStart(s, Width(s[0])) && |s| >= Width(s[0])
    ensures
      var rest := DrawAll([], s[Width(s[0])..]);
      DrawAll([], s) == Drawn([CharAt(s)] + rest.text, rest.pending)
  {
    hide *;
    var w := Width(s[0]);
    FirstDrawn(s, w);
    DrawTogether([], s[..w], s[w..]);
    assert s[..w] + s[w..] == s;
  }

  /** Where the failing decoder reads a text, this one reads the same, with an unfinished character pending;
      where the other fails, this one gives a replacement character. */
  lemma {:induction false} AgreesWithDecode(s: seq<byte>)
    ensures match Decode(s)
      case Text(text, incomplete) =>
        DrawAll([], s).text == text && (incomplete <==> DrawAll([], s).pending != [])
          && Lossy(s) == if incomplete then text + [REPLACEMENT] else text
      case Malformed => REPLACEMENT in Lossy(s)
    decreases |s|
  {
    if s != [] {
      var w := Width(s[0]);
      if !WellFormedStart(s, w) {
        BadByteShows(s);
      } else if |s| < w {
        StartPends(s);
      } else {
        DrawFirst(s);
        hide WellFormedStart, DrawAll;
        AgreesWithDecode(s[w..]);
      }
    }
  }

  lemma AllAtOnce(bytes: seq<byte>, text: string, rest: seq<byte>)
    requires DrawAll([], bytes) == Drawn(text + DrawAll([], rest).text, DrawAll([], rest).pending)
    ensures Lossy(bytes) == text + Lossy(rest)
  {
    hide DrawAll;
  }

  /** A character where one stands. */
  lemma CharIsRead(s: seq<byte>)
    requires s != [] && WellFormedStart(s, Width(s[0])) && |s| >= Width(s[0])
    ensures Lossy(s) == [CharAt(s)] + Lossy(s[Width(s[0])..])
  {
    DrawFirst(s);
    hide *;
    AllAtOnce(s, [CharAt(s)], s[Width(s[0])..]);
  }

  /** Where none stands, a replacement character for the longest beginning of one, or for the byte that begins none. */
  lemma BrokenIsReplaced(s: seq<byte>, k: nat)
    requires s != [] && IsLongestBeginning(s, k)
    ensures Lossy([]) == "" && Lossy(s) == [REPLACEMENT] + Lossy(if k == 0 then s[1..] else s[k..])
  {
    NothingDrawn();
    if k < |s| {
      BrokenDrawn(s, k);
      hide *;
      AllAtOnce(s, [REPLACEMENT], if k == 0 then s[1..] else s[k..]);
    } else {
      assert s[..k] == s && s[k..] == [];
      StartPends(s);
      hide DrawAll, WellFormedStart;
    }
  }

  /** What is read is said by the two lemmas above for every sequence of bytes: it starts with a character, or has a
      longest beginning of one. */
  lemma StartsSomehow(s: seq<byte>) returns (k: nat)
    requires s != [] && !(WellFormedStart(s, Width(s[0])) && |s| >= Width(s[0]))
    ensures IsLongestBeginning(s, k)
  {
    if WellFormedStart(s, Width(s[0])) {
      k := |s|;
      assert s[..k] == s;
    } else {
      k := BadByte(s);
    }
  }

  /** An encoded text is read as it is. */
  lemma LossyEncode(text: string)
    ensures Lossy(Encode(text)) == text
  {
    DecodeEncode(text);
    AgreesWithDecode(Encode(text));
  }
}
