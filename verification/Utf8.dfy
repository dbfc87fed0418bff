/** UTF-8 (RFC 3629, sections 3 and 4) as far as a ledger line needs it: encoding a text, and
    decoding bytes that may end inside a character. */
module Utf8 {
  type byte = b: int | 0 <= b < 0x100

  const NEWLINE: byte := 10

  function EncodeChar(c: char): (r: seq<byte>)
    ensures 1 <= |r| <= 4
  {
    var n := c as int;
    if n < 0x80 then [n]
    else if n < 0x800 then [0xC0 + n / 0x40, 0x80 + n % 0x40]
    else if n < 0x1_0000 then [0xE0 + n / 0x1000, 0x80 + n / 0x40 % 0x40, 0x80 + n % 0x40]
    else [0xF0 + n / 0x4_0000, 0x80 + n / 0x1000 % 0x40, 0x80 + n / 0x40 % 0x40, 0x80 + n % 0x40]
  }

  function Encode(s: string): seq<byte> {
    if s == "" then [] else EncodeChar(s[0]) + Encode(s[1..])
  }

  /** The number of bytes a lead byte announces; 0 for a byte that leads nothing. */
  function Width(b: byte): nat {
    if b < 0x80 then 1
    else if 0xC2 <= b <= 0xDF then 2
    else if 0xE0 <= b <= 0xEF then 3
    else if 0xF0 <= b <= 0xF4 then 4
    else 0
  }

  predicate IsTail(b: byte) {
    0x80 <= b <= 0xBF
  }

  /** The second byte rules out overlong forms, surrogates and values past U+10FFFF. */
  predicate IsSecond(lead: byte, b: byte) {
    IsTail(b)
    && (lead == 0xE0 ==> 0xA0 <= b)
    && (lead == 0xED ==> b <= 0x9F)
    && (lead == 0xF0 ==> 0x90 <= b)
    && (lead == 0xF4 ==> b <= 0x8F)
  }

  /** The bytes start, or are, one character of the given width. */
  predicate WellFormedStart(s: seq<byte>, width: nat) {
    && s != [] && width == Width(s[0]) && width > 0
    && (|s| > 1 && width > 1 ==> IsSecond(s[0], s[1]))
    && (|s| > 2 && width > 2 ==> IsTail(s[2]))
    && (|s| > 3 && width > 3 ==> IsTail(s[3]))
  }

  /** The bits a tail byte carries. */
  function Bits(b: byte): int {
    b - 0x80
  }

  function CodePoint(s: seq<byte>): int
    requires s != [] && WellFormedStart(s, Width(s[0])) && Width(s[0]) <= |s|
  {
    var lead: int := s[0];
    match Width(s[0])
    case 1 => lead
    case 2 => 0x40 * (lead - 0xC0) + Bits(s[1])
    case 3 => 0x1000 * (lead - 0xE0) + 0x40 * Bits(s[1]) + Bits(s[2])
    case _ => 0x4_0000 * (lead - 0xF0) + 0x1000 * Bits(s[1]) + 0x40 * Bits(s[2]) + Bits(s[3])
  }

  function CharAt(s: seq<byte>): char
    requires s != [] && WellFormedStart(s, Width(s[0])) && Width(s[0]) <= |s|
  {
    CodePoint(s) as char
  }

  /** The characters decoded so far, and whether the bytes end inside one more. */
  datatype Decoded = Malformed | Text(text: string, incomplete: bool)

  /** A fatal streaming decoder that is fed all the bytes at once. */
  function Decode(s: seq<byte>): Decoded
    decreases |s|
  {
    if s == [] then Text("", false)
    else
      var w := Width(s[0]);
      if !WellFormedStart(s, w) then Malformed
      else if |s| < w then Text("", true)
      else
        match Decode(s[w..])
        case Malformed => Malformed
        case Text(text, incomplete) => Text([CharAt(s)] + text, incomplete)
  }

  // ----- encoding and decoding are inverse -----

  lemma EncodedWide(c: char)
    requires c as int >= 0x1_0000
    ensures var e := EncodeChar(c); Width(e[0]) == 4 == |e| && WellFormedStart(e, 4) && CodePoint(e) == c as int
  {
    var n := c as int;
    assert n / 0x1000 == n / 0x40 / 0x40 && n / 0x4_0000 == n / 0x1000 / 0x40;
  }

  lemma EncodedThree(c: char)
    requires 0x800 <= c as int < 0x1_0000
    ensures var e := EncodeChar(c); Width(e[0]) == 3 == |e| && WellFormedStart(e, 3) && CodePoint(e) == c as int
  {
    var n := c as int;
    assert n / 0x1000 == n / 0x40 / 0x40;
  }

  lemma EncodedChar(c: char)
    ensures var e := EncodeChar(c);
      && Width(e[0]) == |e| && WellFormedStart(e, |e|) && CharAt(e) == c
      && (|e| > 1 ==> c >= '\U{80}')
  {
    if c as int >= 0x1_0000 {
      EncodedWide(c);
    } else if c as int >= 0x800 {
      EncodedThree(c);
    }
  }

  lemma StartOfPrefix(e: seq<byte>, k: nat, rest: seq<byte>)
    requires e != [] && |e| == Width(e[0]) && WellFormedStart(e, |e|)
    ensures WellFormedStart(e + rest, |e|) && CharAt(e + rest) == CharAt(e)
    ensures 0 < k <= |e| ==> WellFormedStart(e[..k], |e|)
  {
  }

  lemma DecodeChar(c: char, rest: seq<byte>)
    ensures Decode(EncodeChar(c) + rest) ==
      match Decode(rest)
      case Malformed => Malformed
      case Text(text, incomplete) => Text([c] + text, incomplete)
  {
    var e := EncodeChar(c);
    EncodedChar(c);
    StartOfPrefix(e, 0, rest);
    assert (e + rest)[|e|..] == rest;
  }

  /** A character cut between its bytes decodes to nothing, and is not ASCII. */
  lemma DecodeCutChar(c: char, k: nat)
    requires 0 < k < |EncodeChar(c)|
    ensures Decode(EncodeChar(c)[..k]) == Text("", true) && c >= '\U{80}'
  {
    EncodedChar(c);
    StartOfPrefix(EncodeChar(c), k, []);
  }

  /** Bytes of a text cut anywhere decode to the whole characters before the cut; when the cut is
      inside a character, that character is not ASCII. */
  lemma {:induction false} DecodeCut(s: string, k: nat) returns (n: nat)
    requires k <= |Encode(s)|
    ensures n <= |s|
    ensures |Encode(s[..n])| <= k
    ensures Decode(Encode(s)[..k]) == Text(s[..n], k > |Encode(s[..n])|)
    ensures k > |Encode(s[..n])| ==> n < |s| && s[n] >= '\U{80}'
    ensures n == |s| <==> k == |Encode(s)|
    decreases |s|
  {
    if s == "" {
      n := 0;
    } else {
      var e := EncodeChar(s[0]);
      if k == 0 {
        n := 0;
        assert s[..0] == "";
      } else if k < |e| {
        n := 0;
        assert s[..0] == "";
        assert Encode(s)[..k] == e[..k];
        DecodeCutChar(s[0], k);
      } else {
        var m := DecodeCut(s[1..], k - |e|);
        n := m + 1;
        assert s[..n] == [s[0]] + s[1..][..m];
        assert s[..n][1..] == s[1..][..m];
        assert Encode(s)[..k] == e + Encode(s[1..])[..k - |e|];
        DecodeChar(s[0], Encode(s[1..])[..k - |e|]);
      }
    }
  }

  /** Decoding undoes encoding. */
  lemma DecodeEncode(s: string)
    ensures Decode(Encode(s)) == Text(s, false)
  {
    var n := DecodeCut(s, |Encode(s)|);
    assert Encode(s)[..|Encode(s)|] == Encode(s);
    assert s[..n] == s;
  }

  // ----- what decodes is what was encoded -----

  lemma TwoEncode(a: byte, b: byte)
    requires WellFormedStart([a, b], 2)
    ensures EncodeChar(CharAt([a, b])) == [a, b]
  {
    var n := 0x40 * (a - 0xC0) + Bits(b);
    assert n / 0x40 == a - 0xC0 && n % 0x40 == Bits(b);
  }

  lemma ThreeEncode(a: byte, b: byte, c: byte)
    requires WellFormedStart([a, b, c], 3)
    ensures EncodeChar(CharAt([a, b, c])) == [a, b, c]
  {
    var high := 0x40 * (a - 0xE0) + Bits(b);
    var n := 0x40 * high + Bits(c);
    assert CodePoint([a, b, c]) == n;
    assert n / 0x40 == high && n % 0x40 == Bits(c);
    assert high / 0x40 == a - 0xE0 && high % 0x40 == Bits(b);
    assert n / 0x1000 == n / 0x40 / 0x40;
  }

  lemma FourEncode(a: byte, b: byte, c: byte, d: byte)
    requires WellFormedStart([a, b, c, d], 4)
    ensures EncodeChar(CharAt([a, b, c, d])) == [a, b, c, d]
  {
    var top := 0x40 * (a - 0xF0) + Bits(b);
    var high := 0x40 * top + Bits(c);
    var n := 0x40 * high + Bits(d);
    assert CodePoint([a, b, c, d]) == n;
    assert n / 0x40 == high && n % 0x40 == Bits(d);
    assert high / 0x40 == top && high % 0x40 == Bits(c);
    assert top / 0x40 == a - 0xF0 && top % 0x40 == Bits(b);
    assert n / 0x1000 == n / 0x40 / 0x40 && n / 0x4_0000 == n / 0x1000 / 0x40;
  }

  /** Bytes that make up one character are its encoding. */
  lemma CharEncodes(e: seq<byte>)
    requires e != [] && |e| == Width(e[0]) && WellFormedStart(e, |e|)
    ensures EncodeChar(CharAt(e)) == e
  {
    match |e| {
      case 1 =>
      case 2 => TwoEncode(e[0], e[1]);
      case 3 => ThreeEncode(e[0], e[1], e[2]);
      case _ => FourEncode(e[0], e[1], e[2], e[3]);
    }
  }

  /** Bytes that stop inside a character. */
  ghost predicate IsCut(bytes: seq<byte>, text: string) {
    exists c: char, k: nat :: 0 < k < |EncodeChar(c)| && bytes == Encode(text) + EncodeChar(c)[..k]
  }

  /** The least bytes that complete a character. */
  function Completed(s: seq<byte>): (e: seq<byte>)
    requires s != [] && WellFormedStart(s, Width(s[0])) && |s| <= Width(s[0])
    ensures |e| == Width(s[0]) && s <= e && WellFormedStart(e, |e|)
    decreases Width(s[0]) - |s|
  {
    if |s| == Width(s[0]) then s
    else
      var next: byte := if |s| == 1 && s[0] == 0xE0 then 0xA0 else if |s| == 1 && s[0] == 0xF0 then 0x90 else 0x80;
      Completed(s + [next])
  }

  lemma EncodeFirst(c: char, text: string)
    ensures Encode([c] + text) == EncodeChar(c) + Encode(text)
  {
    assert ([c] + text)[1..] == text;
  }

  lemma {:induction false} CutDecodes(text: string, c: char, k: nat)
    requires 0 < k < |EncodeChar(c)|
    ensures Decode(Encode(text) + EncodeChar(c)[..k]) == Text(text, true)
    decreases |text|
  {
    var cut := EncodeChar(c)[..k];
    if text == "" {
      assert Encode(text) + cut == cut;
      DecodeCutChar(c, k);
    } else {
      hide Decode;
      CutDecodes(text[1..], c, k);
      assert Encode(text) + cut == EncodeChar(text[0]) + (Encode(text[1..]) + cut);
      DecodeChar(text[0], Encode(text[1..]) + cut);
      assert [text[0]] + text[1..] == text;
    }
  }

  lemma CutBehind(c: char, rest: seq<byte>, text: string)
    requires IsCut(rest, text)
    ensures IsCut(EncodeChar(c) + rest, [c] + text)
  {
    hide EncodeChar;
    var d: char, k: nat :| 0 < k < |EncodeChar(d)| && rest == Encode(text) + EncodeChar(d)[..k];
    EncodeFirst(c, text);
    assert EncodeChar(c) + rest == Encode([c] + text) + EncodeChar(d)[..k];
  }

  /** The beginning of a character is the beginning of one that can be completed. */
  lemma BegunIsCut(s: seq<byte>)
    requires s != [] && WellFormedStart(s, Width(s[0])) && |s| < Width(s[0])
    ensures IsCut(s, "")
  {
    var e := Completed(s);
    CharEncodes(e);
    hide WellFormedStart, CharAt, EncodeChar;
    assert s == Encode("") + EncodeChar(CharAt(e))[..|s|];
  }

  lemma DecodeStep(s: seq<byte>)
    requires s != [] && Decode(s).Text?
    ensures WellFormedStart(s, Width(s[0])) && 0 < Width(s[0])
    ensures |s| < Width(s[0]) ==> Decode(s) == Text("", true)
    ensures |s| >= Width(s[0]) ==>
      && Decode(s[Width(s[0])..]).Text?
      && Decode(s) == Text([CharAt(s)] + Decode(s[Width(s[0])..]).text, Decode(s[Width(s[0])..]).incomplete)
  {
    hide CharAt, Width;
  }

  lemma FirstStarts(s: seq<byte>, w: nat)
    requires s != [] && WellFormedStart(s, w) && w <= |s|
    ensures 0 < w && WellFormedStart(s[..w], w)
  {
  }

  lemma FirstEncodes(s: seq<byte>)
    requires s != [] && WellFormedStart(s, Width(s[0])) && Width(s[0]) <= |s|
    ensures EncodeChar(CharAt(s)) == s[..Width(s[0])]
  {
    var w := Width(s[0]);
    var first, rest := s[..w], s[w..];
    assert s == first + rest;
    FirstStarts(s, w);
    StartOfPrefix(first, 0, rest);
    hide EncodeChar, CharAt, Width, WellFormedStart;
    CharEncodes(first);
  }

  lemma NothingDecodes()
    ensures Decode([]) == Text("", false) && Encode("") == []
  {
  }

  lemma {:induction false} DecodedIsEncoded(s: seq<byte>)
    requires Decode(s).Text?
    ensures if Decode(s).incomplete then IsCut(s, Decode(s).text) else s == Encode(Decode(s).text)
    decreases |s|
  {
    hide *;
    if s == [] {
      NothingDecodes();
    } else {
      var w := Width(s[0]);
      DecodeStep(s);
      if |s| < w {
        BegunIsCut(s);
      } else {
        FirstEncodes(s);
        var rest, text := s[w..], Decode(s[w..]).text;
        DecodedIsEncoded(rest);
        assert s == EncodeChar(CharAt(s)) + rest;
        EncodeFirst(CharAt(s), text);
        if Decode(rest).incomplete {
          CutBehind(CharAt(s), rest, text);
        }
      }
    }
  }

  /** Bytes decode to a text exactly when they are its encoding, and to a text with a character begun exactly
      when they are cut inside a character behind it. */
  lemma {:induction false} DecodesExactly(s: seq<byte>, text: string)
    ensures Decode(s) == Text(text, false) <==> s == Encode(text)
    ensures Decode(s) == Text(text, true) <==> IsCut(s, text)
  {
    if s == Encode(text) {
      DecodeEncode(text);
    }
    if IsCut(s, text) {
      var c: char, k: nat :| 0 < k < |EncodeChar(c)| && s == Encode(text) + EncodeChar(c)[..k];
      CutDecodes(text, c, k);
    }
    if Decode(s).Text? && Decode(s).text == text {
      DecodedIsEncoded(s);
    }
  }

  lemma {:induction false} EncodeHasNoNewline(s: string)
    requires forall i :: 0 <= i < |s| ==> s[i] != '\n'
    ensures forall i :: 0 <= i < |Encode(s)| ==> Encode(s)[i] != NEWLINE
    decreases |s|
  {
    if s != "" {
      EncodedChar(s[0]);
      EncodeHasNoNewline(s[1..]);
    }
  }
}
