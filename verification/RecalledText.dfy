/** What is remembered of the messages that a session has delivered before, and what the deltas of a resumed stream
    still add to them. */
module RecalledText {
  import opened Wrappers

  /** A message of the history. */
  datatype Message = Message(id: string, text: string)

  predicate Given(s: Option<string>) {
    s.Some? && s.value != ""
  }

  // ----- text that history has delivered -----

  /** What is remembered of the history: by message, the text that is still to be replayed; by turn, the
      messages that no delta has claimed. */
  datatype Recall = Recall(texts: map<string, string>, messages: map<string, seq<Message>>)

  function FindFirst(messages: seq<Message>, p: Message -> bool): (i: nat)
    ensures i <= |messages|
    ensures i < |messages| ==> p(messages[i])
    ensures forall j :: 0 <= j < i ==> !p(messages[j])
  {
    if messages == [] || p(messages[0]) then 0 else 1 + FindFirst(messages[1..], p)
  }

  predicate EndsWith(s: string, end: string) {
    |end| <= |s| && s[|s| - |end|..] == end
  }

  predicate OccursAt(s: string, piece: string, i: nat) {
    i + |piece| <= |s| && s[i..i + |piece|] == piece
  }

  /** The first place where the piece occurs in the text is the end of the text. */
  predicate OccursOnlyAtEnd(s: string, piece: string) {
    EndsWith(s, piece) && forall i: nat :: i < |s| - |piece| ==> !OccursAt(s, piece, i)
  }

  /** The message of the history that a delta belongs to: the one of that name, or else one whose text the
      delta is, or begins, or ends. */
  function Claimed(messages: seq<Message>, message: string, delta: string): (i: nat)
    ensures i <= |messages|
  {
    var byName := FindFirst(messages, (m: Message) => m.id == message);
    var byText := FindFirst(messages, (m: Message) => delta != "" && m.text == delta);
    if byName < |messages| then byName
    else if byText < |messages| then byText
    else FindFirst(messages, (m: Message) => delta != "" && (delta <= m.text || EndsWith(m.text, delta)))
  }

  ghost predicate Touches(text: string, delta: string) {
    exists rest :: text == delta + rest || text == rest + delta
  }

  /** The first message with this name; if there is none, the first whose text the delta is; if there is none either,
      the first whose text begins or ends with the delta, which has some text. */
  ghost predicate IsClaimed(messages: seq<Message>, message: string, delta: string, i: nat) {
    && i < |messages|
    && if exists j :: 0 <= j < |messages| && messages[j].id == message then
         messages[i].id == message && forall j :: 0 <= j < i ==> messages[j].id != message
       else if exists j :: 0 <= j < |messages| && messages[j].text == delta then
         delta != "" && messages[i].text == delta && forall j :: 0 <= j < i ==> messages[j].text != delta
       else
         && delta != "" && Touches(messages[i].text, delta)
         && forall j :: 0 <= j < i ==> !Touches(messages[j].text, delta)
  }

  lemma TouchesExactly(text: string, delta: string)
    ensures Touches(text, delta) <==> delta <= text || EndsWith(text, delta)
  {
    if delta <= text {
      assert text == delta + text[|delta|..];
    }
    if EndsWith(text, delta) {
      assert text == text[..|text| - |delta|] + delta;
    }
  }

  /** The position found is that of the message claimed, or the number of messages if none is. */
  lemma ClaimedExactly(messages: seq<Message>, message: string, delta: string)
    ensures
      var i := Claimed(messages, message, delta);
      if i < |messages| then IsClaimed(messages, message, delta, i)
      else forall j: nat :: !IsClaimed(messages, message, delta, j)
  {
    forall text: string
      ensures Touches(text, delta) <==> delta <= text || EndsWith(text, delta)
    {
      TouchesExactly(text, delta);
    }
    hide Touches, EndsWith;
  }

  function MessagesOf(r: Recall, turn: Option<string>): seq<Message> {
    if Given(turn) && turn.value in r.messages then r.messages[turn.value] else []
  }

  /** The text still to be replayed for a message, as this delta finds it. */
  function Remaining(r: Recall, turn: Option<string>, message: string, delta: string): Option<string> {
    var messages := MessagesOf(r, turn);
    var i := Claimed(messages, message, delta);
    if message in r.texts then Some(r.texts[message])
    else if i < |messages| then Some(messages[i].text)
    else None
  }

  /** The part of a delta that history has not delivered. */
  function FreshText(remaining: Option<string>, delta: string): string {
    match remaining
    case None => delta
    case Some(r) =>
      if delta != "" && (delta <= r || OccursOnlyAtEnd(r, delta)) then ""
      else if r <= delta then delta[|r|..]
      else delta
  }

  /** What is left to be replayed behind the delta. */
  function LeftOver(remaining: Option<string>, delta: string): Option<string> {
    match remaining
    case None => None
    case Some(r) => if delta != "" && delta < r then Some(r[|delta|..]) else None
  }

  function WithText(texts: map<string, string>, message: string, text: Option<string>): map<string, string> {
    match text
    case None => texts - {message}
    case Some(t) => texts[message := t]
  }

  /** Under the key, what is left of its list; nothing when nothing is left. */
  function WithList<T>(lists: map<string, seq<T>>, key: string, left: seq<T>): map<string, seq<T>> {
    if left == [] then lists - {key} else lists[key := left]
  }

  /** The recall once a delta of a message has been taken. */
  function AfterDelta(r: Recall, turn: Option<string>, message: string, delta: string): Recall {
    var messages := MessagesOf(r, turn);
    var i := Claimed(messages, message, delta);
    Recall(
      WithText(r.texts, message, LeftOver(Remaining(r, turn, message, delta), delta)),
      if i < |messages| then WithList(r.messages, turn.value, messages[..i] + messages[i + 1..]) else r.messages)
  }

  /** A delta of a message, as the stream brings it. */
  datatype Piece = Piece(turn: Option<string>, message: string, delta: string)

  function Fresh(r: Recall, p: Piece): string {
    FreshText(Remaining(r, p.turn, p.message, p.delta), p.delta)
  }

  function After(r: Recall, p: Piece): Recall {
    AfterDelta(r, p.turn, p.message, p.delta)
  }

  /** What the deltas of a message add to what was delivered, in a stream that brings others between them. */
  function FreshTexts(r: Recall, message: string, pieces: seq<Piece>): seq<string>
    decreases |pieces|
  {
    if pieces == [] then []
    else
      (if pieces[0].message == message then [Fresh(r, pieces[0])] else [])
      + FreshTexts(After(r, pieces[0]), message, pieces[1..])
  }

  function DeltasOf(message: string, pieces: seq<Piece>): seq<string> {
    if pieces == [] then []
    else (if pieces[0].message == message then [pieces[0].delta] else []) + DeltasOf(message, pieces[1..])
  }

  function Concat(parts: seq<string>): string {
    if parts == [] then "" else parts[0] + Concat(parts[1..])
  }

  /** What lies behind the history. */
  function Beyond(text: string, history: string): string {
    if |text| <= |history| then "" else text[|history|..]
  }

  /** At every moment, exactly what goes beyond the history has been delivered. */
  ghost predicate NeverRepeats(told: seq<string>, deltas: seq<string>, history: string) {
    |told| == |deltas| && forall k :: 0 <= k <= |deltas| ==> Concat(told[..k]) == Beyond(Concat(deltas[..k]), history)
  }

  /** The first piece and the others. */
  lemma FreshFirst(r: Recall, message: string, pieces: seq<Piece>)
    requires pieces != []
    ensures
      var told, deltas := FreshTexts(After(r, pieces[0]), message, pieces[1..]), DeltasOf(message, pieces[1..]);
      && FreshTexts(r, message, pieces) ==
           (if pieces[0].message == message then [Fresh(r, pieces[0])] + told else told)
      && DeltasOf(message, pieces) == (if pieces[0].message == message then [pieces[0].delta] + deltas else deltas)
  {
    hide After, Fresh;
  }

  lemma NoPieces(r: Recall, message: string)
    ensures FreshTexts(r, message, []) == [] && DeltasOf(message, []) == []
  {
  }

  lemma ConcatFirst(first: string, more: seq<string>)
    ensures Concat([first] + more) == first + Concat(more)
  {
    assert ([first] + more)[1..] == more;
  }

  /** What lies beyond the history is what the first delta adds to it and what the others add to the rest. */
  lemma BeyondFirst(delta: string, more: string, h: string)
    ensures Beyond(delta + more, h) == Beyond(delta, h) + Beyond(more, Beyond(h, delta))
  {
  }

  lemma SameStart(first: string, a: string, b: string)
    ensures first + a == first + b <==> a == b
  {
    assert (first + a)[|first|..] == a && (first + b)[|first|..] == b;
  }

  lemma ToldUpTo(first: string, told: seq<string>, delta: string, deltas: seq<string>, h: string, k: nat)
    requires |told| == |deltas| && k <= |deltas| && first == Beyond(delta, h)
    ensures
      Concat(([first] + told)[..k + 1]) == Beyond(Concat(([delta] + deltas)[..k + 1]), h) <==>
        Concat(told[..k]) == Beyond(Concat(deltas[..k]), Beyond(h, delta))
  {
    hide Concat, Beyond;
    assert ([first] + told)[..k + 1] == [first] + told[..k];
    assert ([delta] + deltas)[..k + 1] == [delta] + deltas[..k];
    ConcatFirst(first, told[..k]);
    ConcatFirst(delta, deltas[..k]);
    BeyondFirst(delta, Concat(deltas[..k]), h);
    SameStart(first, Concat(told[..k]), Beyond(Concat(deltas[..k]), Beyond(h, delta)));
  }

  lemma NothingYet(told: seq<string>, deltas: seq<string>, h: string)
    ensures Concat(told[..0]) == Beyond(Concat(deltas[..0]), h)
  {
  }

  lemma ShiftedMoments(told: seq<string>, deltas: seq<string>, h: string, told': seq<string>, deltas': seq<string>,
                       left: string)
    requires |told| == |deltas| == |told'| + 1 == |deltas'| + 1
    requires Concat(told[..0]) == Beyond(Concat(deltas[..0]), h)
    requires forall k: nat :: k <= |deltas'| ==>
      (Concat(told[..k + 1]) == Beyond(Concat(deltas[..k + 1]), h) <==>
        Concat(told'[..k]) == Beyond(Concat(deltas'[..k]), left))
    ensures NeverRepeats(told, deltas, h) <==> NeverRepeats(told', deltas', left)
  {
    hide Concat, Beyond;
    if NeverRepeats(told', deltas', left) {
      forall k | 0 < k <= |deltas|
        ensures Concat(told[..k]) == Beyond(Concat(deltas[..k]), h)
      {
        var n: nat := k - 1;
        assert Concat(told'[..n]) == Beyond(Concat(deltas'[..n]), left);
        assert told[..n + 1] == told[..k];
      }
    }
    if NeverRepeats(told, deltas, h) {
      forall k | 0 <= k <= |deltas'|
        ensures Concat(told'[..k]) == Beyond(Concat(deltas'[..k]), left)
      {
        assert Concat(told[..k + 1]) == Beyond(Concat(deltas[..k + 1]), h);
      }
    }
  }

  /** When the first delta tells what goes beyond the history, the others have to tell what goes beyond the rest. */
  lemma FirstNeverRepeats(first: string, told: seq<string>, delta: string, deltas: seq<string>, h: string)
    requires first == Beyond(delta, h)
    ensures NeverRepeats([first] + told, [delta] + deltas, h) <==> NeverRepeats(told, deltas, Beyond(h, delta))
  {
    if |told| == |deltas| {
      hide Concat, Beyond;
      forall k: nat | k <= |deltas|
        ensures Concat(([first] + told)[..k + 1]) == Beyond(Concat(([delta] + deltas)[..k + 1]), h) <==>
          Concat(told[..k]) == Beyond(Concat(deltas[..k]), Beyond(h, delta))
      {
        ToldUpTo(first, told, delta, deltas, h, k);
      }
      NothingYet([first] + told, [delta] + deltas, h);
      ShiftedMoments([first] + told, [delta] + deltas, h, told, deltas, Beyond(h, delta));
    }
  }

  lemma ConcatOne(part: string)
    ensures Concat([part]) == part
  {
    ConcatFirst(part, []);
    assert [part] + [] == [part] && part + "" == part;
  }

  /** A first delta that does not tell what goes beyond the history. */
  lemma FirstGoesWrong(told: seq<string>, deltas: seq<string>, h: string)
    requires told != [] && deltas != [] && told[0] != Beyond(deltas[0], h)
    ensures !NeverRepeats(told, deltas, h)
  {
    hide Beyond;
    if |told| == |deltas| {
      assert told[..1] == [told[0]] && deltas[..1] == [deltas[0]];
      ConcatOne(told[0]);
      ConcatOne(deltas[0]);
    }
  }

  // ----- how much of each delta has to be cut -----

  /** How much of the delta is taken for history. */
  function CutLength(remaining: Option<string>, delta: string): nat {
    match remaining
    case None => 0
    case Some(r) =>
      if delta != "" && (delta <= r || OccursOnlyAtEnd(r, delta)) then |delta| else if r <= delta then |r| else 0
  }

  function Min(a: nat, b: nat): nat {
    if a < b then a else b
  }

  /** As much of each delta of the message is cut as there is history left, of this much. */
  predicate AllFit(r: Recall, message: string, left: nat, pieces: seq<Piece>)
    decreases |pieces|
  {
    if pieces == [] then true
    else
      var p := pieces[0];
      if p.message != message then AllFit(After(r, p), message, left, pieces[1..])
      else
        var cut := CutLength(Remaining(r, p.turn, message, p.delta), p.delta);
        cut == Min(|p.delta|, left) && AllFit(After(r, p), message, left - Min(|p.delta|, left), pieces[1..])
  }

  lemma FitsFirst(r: Recall, message: string, left: nat, pieces: seq<Piece>)
    requires pieces != []
    ensures
      var p, next := pieces[0], After(r, pieces[0]);
      AllFit(r, message, left, pieces) <==>
        if p.message != message then AllFit(next, message, left, pieces[1..])
        else
          && CutLength(Remaining(r, p.turn, message, p.delta), p.delta) == Min(|p.delta|, left)
          && AllFit(next, message, left - Min(|p.delta|, left), pieces[1..])
  {
    hide After, CutLength, Remaining;
  }

  lemma NothingToFit(r: Recall, message: string, left: nat)
    ensures AllFit(r, message, left, [])
  {
  }

  /** What a delta tells is the rest of it, so that its length decides. */
  lemma TellsTheEnd(r: Recall, p: Piece, history: string)
    ensures
      var cut := CutLength(Remaining(r, p.turn, p.message, p.delta), p.delta);
      && cut <= |p.delta| && Fresh(r, p) == p.delta[cut..]
      && (Fresh(r, p) == Beyond(p.delta, history) <==> cut == Min(|p.delta|, |history|))
      && |Beyond(history, p.delta)| == |history| - Min(|p.delta|, |history|)
  {
    hide Remaining;
  }

  lemma TellNothing(history: string)
    ensures NeverRepeats([], [], history)
  {
  }

  /** Whatever is recalled and whatever the stream brings: nothing of a message is lost or repeated at any moment
      if and only if as much of each of its deltas is cut as there is history left. */
  lemma {:induction false} ToldExactly(r: Recall, message: string, history: string, pieces: seq<Piece>)
    ensures NeverRepeats(FreshTexts(r, message, pieces), DeltasOf(message, pieces), history) <==>
      AllFit(r, message, |history|, pieces)
    decreases |pieces|
  {
    if pieces == [] {
      NoPieces(r, message);
      NothingToFit(r, message, |history|);
      TellNothing(history);
    } else {
      hide AllFit, After, Fresh, FreshTexts, DeltasOf, NeverRepeats, Remaining, CutLength, Beyond, Min;
      var p, next := pieces[0], After(r, pieces[0]);
      var told, deltas := FreshTexts(next, message, pieces[1..]), DeltasOf(message, pieces[1..]);
      FreshFirst(r, message, pieces);
      FitsFirst(r, message, |history|, pieces);
      if p.message != message {
        ToldExactly(next, message, history, pieces[1..]);
      } else {
        TellsTheEnd(r, p, history);
        if Fresh(r, p) == Beyond(p.delta, history) {
          FirstNeverRepeats(Fresh(r, p), told, p.delta, deltas, history);
          ToldExactly(next, message, Beyond(history, p.delta), pieces[1..]);
        } else {
          FirstGoesWrong([Fresh(r, p)] + told, [p.delta] + deltas, history);
        }
      }
    }
  }

  // ----- a history that is recalled under the name of the message -----

  function KnownHistory(r: Recall, message: string): string {
    if message in r.texts then r.texts[message] else ""
  }

  /** The text is taken for this message of the history, so that some of it is not told: it begins the message,
      or ends it and occurs nowhere else in it, or begins with it. */
  predicate IsCutBy(text: string, delta: string) {
    delta != "" && text != "" && (delta <= text || OccursOnlyAtEnd(text, delta) || text <= delta)
  }

  /** The delta claims a message of the history, and is cut for it. */
  predicate Cuts(r: Recall, p: Piece) {
    var messages := MessagesOf(r, p.turn);
    var i := Claimed(messages, p.message, p.delta);
    i < |messages| && IsCutBy(messages[i].text, p.delta)
  }

  /** Behind its history, a delta of the message that is not cut is told as it is. */
  lemma UncutDelta(r: Recall, p: Piece)
    requires p.message !in r.texts && !Cuts(r, p)
    ensures CutLength(Remaining(r, p.turn, p.message, p.delta), p.delta) == 0 && p.message !in After(r, p).texts
  {
    hide Claimed;
  }

  lemma CutDelta(r: Recall, p: Piece)
    requires p.message !in r.texts && Cuts(r, p)
    ensures CutLength(Remaining(r, p.turn, p.message, p.delta), p.delta) > 0
  {
    hide Claimed;
  }

  /** One delta against the history that is left. */
  lemma OneDelta(left: string, rest: string, delta: string)
    requires delta != "" && delta <= left + rest
    ensures CutLength(Some(left), delta) == Min(|delta|, |left|)
    ensures LeftOver(Some(left), delta) == if |delta| < |left| then Some(Beyond(left, delta)) else None
  {
    var all := left + rest;
    if |delta| <= |left| {
      assert delta == all[..|delta|] == left[..|delta|];
    } else {
      assert left == all[..|left|] == delta[..|left|];
      assert !EndsWith(left, delta);
    }
  }

  /** While the message replays its history, it does not matter which other messages its deltas claim. */
  lemma KnownDelta(r: Recall, rest: string, p: Piece)
    requires p.message in r.texts && p.delta != "" && p.delta <= r.texts[p.message] + rest
    ensures
      var left := r.texts[p.message];
      && CutLength(Remaining(r, p.turn, p.message, p.delta), p.delta) == Min(|p.delta|, |left|)
      && KnownHistory(After(r, p), p.message) == Beyond(left, p.delta)
  {
    OneDelta(r.texts[p.message], rest, p.delta);
    hide CutLength, LeftOver, Claimed, Min;
    assert Remaining(r, p.turn, p.message, p.delta) == Some(r.texts[p.message]);
  }

  lemma NextDelta(r: Recall, rest: string, p: Piece)
    requires p.delta != "" && p.delta <= KnownHistory(r, p.message) + rest
    requires p.message in r.texts || !Cuts(r, p)
    ensures
      var left := KnownHistory(r, p.message);
      && CutLength(Remaining(r, p.turn, p.message, p.delta), p.delta) == Min(|p.delta|, |left|)
      && KnownHistory(After(r, p), p.message) == Beyond(left, p.delta)
  {
    hide CutLength, Remaining, After, Cuts;
    if p.message in r.texts {
      KnownDelta(r, rest, p);
    } else {
      UncutDelta(r, p);
    }
  }

  /** No delta of the message that comes when nothing is recalled under its name is cut for another message. */
  predicate NoneCut(r: Recall, message: string, pieces: seq<Piece>)
    decreases |pieces|
  {
    || pieces == []
    || (!(pieces[0].message == message && message !in r.texts && Cuts(r, pieces[0]))
        && NoneCut(After(r, pieces[0]), message, pieces[1..]))
  }

  /** No delta of the message without text comes while its history is still to be replayed, unless no text of
      the message comes after it. */
  predicate NoneForgets(r: Recall, message: string, pieces: seq<Piece>)
    decreases |pieces|
  {
    || pieces == []
    || (!(pieces[0].message == message && pieces[0].delta == "" && KnownHistory(r, message) != ""
          && Concat(DeltasOf(message, pieces[1..])) != "")
        && NoneForgets(After(r, pieces[0]), message, pieces[1..]))
  }

  lemma ConditionsFirst(r: Recall, message: string, pieces: seq<Piece>)
    requires pieces != []
    ensures NoneCut(r, message, pieces) <==>
      && !(pieces[0].message == message && message !in r.texts && Cuts(r, pieces[0]))
      && NoneCut(After(r, pieces[0]), message, pieces[1..])
    ensures NoneForgets(r, message, pieces) <==>
      && !(pieces[0].message == message && pieces[0].delta == "" && KnownHistory(r, message) != ""
           && Concat(DeltasOf(message, pieces[1..])) != "")
      && NoneForgets(After(r, pieces[0]), message, pieces[1..])
  {
    hide Cuts, After, KnownHistory, Concat, DeltasOf;
  }

  lemma NoConditions(r: Recall, message: string)
    ensures NoneCut(r, message, []) && NoneForgets(r, message, [])
  {
  }

  /** The deltas of other messages leave the history of this one alone. */
  lemma OthersPass(r: Recall, message: string, p: Piece)
    requires p.message != message
    ensures KnownHistory(After(r, p), message) == KnownHistory(r, message)
    ensures message in After(r, p).texts <==> message in r.texts
  {
    hide Claimed, Remaining, LeftOver;
  }

  /** A delta without text is not cut, and what was recalled under the name of the message is forgotten. */
  lemma EmptyDelta(r: Recall, p: Piece)
    requires p.delta == ""
    ensures CutLength(Remaining(r, p.turn, p.message, p.delta), p.delta) == 0 && !Cuts(r, p)
    ensures p.message !in After(r, p).texts && KnownHistory(After(r, p), p.message) == ""
  {
    hide Claimed;
  }

  /** What may still come behind the first delta. */
  lemma WhatMayFollow(left: string, rest: string, delta: string, more: string)
    requires delta + more <= left + rest
    ensures more <= Beyond(left, delta) + if |delta| < |left| then rest else Beyond(left + rest, delta)
  {
    var all := left + rest;
    assert more == all[..|delta + more|][|delta|..];
    if |delta| < |left| {
      assert all[|delta|..] == left[|delta|..] + rest;
    } else if more != "" {
      assert all[|delta|..][..|more|] == more;
    }
  }

  /** A history that was forgotten comes once more with the next text of the message that is not cut. */
  lemma {:induction false} ForgottenRepeats(r: Recall, message: string, left: nat, pieces: seq<Piece>)
    requires message !in r.texts && NoneCut(r, message, pieces)
    requires left > 0 && Concat(DeltasOf(message, pieces)) != ""
    ensures !AllFit(r, message, left, pieces)
    decreases |pieces|
  {
    if pieces == [] {
      NoPieces(r, message);
    } else {
      hide NoneCut, Cuts, After, FreshTexts, DeltasOf, AllFit, CutLength, Remaining, Concat;
      var p, next := pieces[0], After(r, pieces[0]);
      FreshFirst(r, message, pieces);
      FitsFirst(r, message, left, pieces);
      ConditionsFirst(r, message, pieces);
      if p.message != message {
        OthersPass(r, message, p);
        ForgottenRepeats(next, message, left, pieces[1..]);
      } else {
        UncutDelta(r, p);
        ConcatFirst(p.delta, DeltasOf(message, pieces[1..]));
        if p.delta == "" {
          ForgottenRepeats(next, message, left, pieces[1..]);
        }
      }
    }
  }

  /** When the message brings no more text, there is nothing to cut. */
  lemma {:induction false} NothingFollows(r: Recall, message: string, left: nat, pieces: seq<Piece>)
    requires Concat(DeltasOf(message, pieces)) == ""
    ensures AllFit(r, message, left, pieces) && NoneCut(r, message, pieces) && NoneForgets(r, message, pieces)
    decreases |pieces|
  {
    if pieces == [] {
      NoConditions(r, message);
      NothingToFit(r, message, left);
    } else {
      hide NoneCut, NoneForgets, Cuts, After, FreshTexts, DeltasOf, KnownHistory, AllFit, CutLength, Remaining, Concat;
      var p := pieces[0];
      FreshFirst(r, message, pieces);
      FitsFirst(r, message, left, pieces);
      ConditionsFirst(r, message, pieces);
      if p.message == message {
        ConcatFirst(p.delta, DeltasOf(message, pieces[1..]));
        EmptyDelta(r, p);
      }
      NothingFollows(After(r, p), message, left, pieces[1..]);
    }
  }

  lemma FirstIsPrefix(first: string, more: string, whole: string)
    requires first + more <= whole
    ensures first <= whole
  {
    assert first == (first + more)[..|first|];
  }

  lemma NothingKnown(r: Recall, message: string)
    requires message !in r.texts
    ensures KnownHistory(r, message) == ""
  {
  }

  lemma BeyondLength(text: string, history: string)
    ensures |Beyond(text, history)| == |text| - Min(|text|, |history|)
    ensures Min(|text|, |history|) == Min(|history|, |text|)
  {
  }

  lemma NothingOf(left: nat)
    ensures Min(0, left) == 0 == Min(left, 0)
  {
  }

  lemma {:induction false} FitsExactly(r: Recall, message: string, rest: string, pieces: seq<Piece>)
    requires Concat(DeltasOf(message, pieces)) <= KnownHistory(r, message) + rest
    requires NoneForgets(r, message, pieces) || NoneCut(r, message, pieces)
    ensures AllFit(r, message, |KnownHistory(r, message)|, pieces) <==>
      NoneForgets(r, message, pieces) && NoneCut(r, message, pieces)
    decreases |pieces|
  {
    hide *;
    var left := KnownHistory(r, message);
    if pieces == [] {
      NoConditions(r, message);
      NothingToFit(r, message, |left|);
    } else {
      var p, next, deltas := pieces[0], After(r, pieces[0]), DeltasOf(message, pieces[1..]);
      FreshFirst(r, message, pieces);
      FitsFirst(r, message, |left|, pieces);
      ConditionsFirst(r, message, pieces);
      if p.message != message {
        OthersPass(r, message, p);
        FitsExactly(next, message, rest, pieces[1..]);
      } else {
        ConcatFirst(p.delta, deltas);
        FirstIsPrefix(p.delta, Concat(deltas), left + rest);
        if p.delta == "" {
          EmptyDelta(r, p);
          NothingOf(|left|);
          assert "" + Concat(deltas) == Concat(deltas);
          if Concat(deltas) == "" {
            NothingFollows(next, message, |left|, pieces[1..]);
          } else if left == "" {
            assert "" + rest == rest;
            FitsExactly(next, message, rest, pieces[1..]);
          } else if NoneCut(next, message, pieces[1..]) {
            ForgottenRepeats(next, message, |left|, pieces[1..]);
          }
        } else if message !in r.texts && Cuts(r, p) {
          CutDelta(r, p);
          NothingOf(|p.delta|);
          NothingKnown(r, message);
        } else {
          NextDelta(r, rest, p);
          WhatMayFollow(left, rest, p.delta, Concat(deltas));
          BeyondLength(left, p.delta);
          var later := if |p.delta| < |left| then rest else Beyond(left + rest, p.delta);
          FitsExactly(next, message, later, pieces[1..]);
        }
      }
    }
  }

  /** Whatever else is recalled, and whatever comes between its deltas: a message is told exactly beyond the
      history that is recalled under its name, and nothing is lost or repeated at any moment, if and only if
      that history is not forgotten for a delta without text and no delta behind it is cut for another message.
      When both happen, one may make up for the other, and `ToldExactly` decides. */
  lemma HistoryAmongOthers(r: Recall, message: string, rest: string, pieces: seq<Piece>)
    requires Concat(DeltasOf(message, pieces)) <= KnownHistory(r, message) + rest
    requires NoneForgets(r, message, pieces) || NoneCut(r, message, pieces)
    ensures NeverRepeats(FreshTexts(r, message, pieces), DeltasOf(message, pieces), KnownHistory(r, message)) <==>
      NoneForgets(r, message, pieces) && NoneCut(r, message, pieces)
  {
    hide *;
    ToldExactly(r, message, KnownHistory(r, message), pieces);
    FitsExactly(r, message, rest, pieces);
  }

  lemma TellsTheRest(told: seq<string>, deltas: seq<string>, history: string, rest: string)
    requires NeverRepeats(told, deltas, history) && Concat(deltas) == history + rest
    ensures Concat(told) == rest
  {
    hide Concat;
    assert told[..|deltas|] == told && deltas[..|deltas|] == deltas;
    assert (history + rest)[|history|..] == rest;
  }

  /** Where every delta of the message has text, no history is forgotten. */
  lemma {:induction false} TextForgetsNothing(r: Recall, message: string, pieces: seq<Piece>)
    requires forall p :: p in pieces && p.message == message ==> p.delta != ""
    ensures NoneForgets(r, message, pieces)
    decreases |pieces|
  {
    if pieces == [] {
      NoConditions(r, message);
    } else {
      hide NoneForgets, After, KnownHistory, Concat, DeltasOf;
      TextForgetsNothing(After(r, pieces[0]), message, pieces[1..]);
      ConditionsFirst(r, message, pieces);
    }
  }

  /** A stream that takes a message up again at the end of its history: that end is skipped if and only if it
      occurs nowhere else in the history. Nothing is recalled under the name of the message any more, and what
      follows is told as it is unless it is cut for another message. */
  lemma ResumesAtEnd(r: Recall, end: Piece, more: seq<Piece>)
    requires end.message in r.texts && EndsWith(r.texts[end.message], end.delta)
    requires !(end.delta <= r.texts[end.message])
    requires NoneForgets(After(r, end), end.message, more) || NoneCut(After(r, end), end.message, more)
    ensures
      var next, message := After(r, end), end.message;
      var told := FreshTexts(r, message, [end] + more);
      && told != [] && (told[0] == "" <==> OccursOnlyAtEnd(r.texts[message], end.delta))
      && (NeverRepeats(told[1..], DeltasOf(message, more), "") <==>
            NoneForgets(next, message, more) && NoneCut(next, message, more))
  {
    hide NeverRepeats, NoneCut, NoneForgets, FreshTexts, DeltasOf, Claimed, Concat;
    var next, message := After(r, end), end.message;
    var deltas := DeltasOf(message, more);
    assert ([end] + more)[0] == end && ([end] + more)[1..] == more;
    FreshFirst(r, message, [end] + more);
    assert Fresh(r, end) == "" <==> OccursOnlyAtEnd(r.texts[message], end.delta);
    assert KnownHistory(next, message) == "" && "" + Concat(deltas) == Concat(deltas);
    HistoryAmongOthers(next, message, Concat(deltas), more);
  }

  lemma TwoPieces(r: Recall, first: Piece, second: Piece)
    requires first.message == second.message
    ensures FreshTexts(r, first.message, [first, second]) == [Fresh(r, first), Fresh(After(r, first), second)]
  {
    hide Fresh, After, FreshTexts;
    FreshFirst(r, first.message, [first, second]);
    assert [first, second][1..] == [second];
    FreshFirst(After(r, first), first.message, [second]);
    assert [second][1..] == [];
    NoPieces(After(After(r, first), second), first.message);
  }

  lemma OwnHistoryFirst(r: Recall, turn: string)
    requires turn != "" && turn in r.messages && r.messages[turn] == [Message("a", "ab"), Message("b", "X")]
    requires "a" in r.texts && r.texts["a"] == "ab"
    ensures Fresh(r, Piece(Some(turn), "a", "ab")) == ""
    ensures
      var next := After(r, Piece(Some(turn), "a", "ab"));
      MessagesOf(next, Some(turn)) == [Message("b", "X")] && "a" !in next.texts
  {
    var messages := r.messages[turn];
    assert Claimed(messages, "a", "ab") == 0;
    assert messages[..0] + messages[1..] == [Message("b", "X")];
  }

  lemma OtherMessageSecond(r: Recall, turn: Option<string>)
    requires MessagesOf(r, turn) == [Message("b", "X")] && "a" !in r.texts
    ensures Fresh(r, Piece(turn, "a", "X")) == ""
  {
    assert Claimed(MessagesOf(r, turn), "a", "X") == 0;
  }

  /** An input where it is not: new text that is also the text of another message of the turn is swallowed. */
  lemma OtherMessagesCanSwallow(turn: string)
    requires turn != ""
    ensures
      var r := Recall(map["a" := "ab", "b" := "X"], map[turn := [Message("a", "ab"), Message("b", "X")]]);
      FreshTexts(r, "a", [Piece(Some(turn), "a", "ab"), Piece(Some(turn), "a", "X")]) == ["", ""]
  {
    hide FreshTexts, Fresh, After;
    var r := Recall(map["a" := "ab", "b" := "X"], map[turn := [Message("a", "ab"), Message("b", "X")]]);
    var first, second := Piece(Some(turn), "a", "ab"), Piece(Some(turn), "a", "X");
    OwnHistoryFirst(r, turn);
    OtherMessageSecond(After(r, first), Some(turn));
    TwoPieces(r, first, second);
  }

  /** An input where the history is forgotten: a delta without text comes before it, and it is told once more. */
  lemma EmptyDeltaForgets(turn: Option<string>)
    ensures
      var r := Recall(map["a" := "ab"], map[]);
      FreshTexts(r, "a", [Piece(turn, "a", ""), Piece(turn, "a", "ab")]) == ["", "ab"]
  {
    var r := Recall(map["a" := "ab"], map[]);
    var first, second := Piece(turn, "a", ""), Piece(turn, "a", "ab");
    assert MessagesOf(r, turn) == [];
    TwoPieces(r, first, second);
  }

  // ----- a history that the first delta finds -----

  /** The history that a delta finds: under the name of its message, or else that of the message of the turn that
      it claims by its text. */
  function FoundHistory(r: Recall, p: Piece): string {
    match Remaining(r, p.turn, p.message, p.delta)
    case None => ""
    case Some(text) => text
  }

  lemma CutNothing(delta: string)
    ensures CutLength(None, delta) == 0 && LeftOver(None, delta) == None
  {
  }

  lemma FoundDelta(r: Recall, rest: string, p: Piece)
    requires p.delta != "" && p.delta <= FoundHistory(r, p) + rest
    ensures CutLength(Remaining(r, p.turn, p.message, p.delta), p.delta) == Min(|p.delta|, |FoundHistory(r, p)|)
    ensures KnownHistory(After(r, p), p.message) == Beyond(FoundHistory(r, p), p.delta)
  {
    OneDelta(FoundHistory(r, p), rest, p.delta);
    hide Remaining, CutLength, LeftOver;
    assert CutLength(None, p.delta) == 0 by { CutNothing(p.delta); }
  }

  /** Under whatever name the message comes: it is told exactly beyond the history that its first delta finds if
      and only if what is left of it is not forgotten and no later delta is cut for another message. */
  lemma HistoryAsFound(r: Recall, rest: string, pieces: seq<Piece>)
    requires pieces != [] && pieces[0].delta != ""
    requires
      var next, message := After(r, pieces[0]), pieces[0].message;
      && Concat(DeltasOf(message, pieces)) <= FoundHistory(r, pieces[0]) + rest
      && (NoneForgets(next, message, pieces[1..]) || NoneCut(next, message, pieces[1..]))
    ensures
      var next, message := After(r, pieces[0]), pieces[0].message;
      NeverRepeats(FreshTexts(r, message, pieces), DeltasOf(message, pieces), FoundHistory(r, pieces[0])) <==>
        NoneForgets(next, message, pieces[1..]) && NoneCut(next, message, pieces[1..])
  {
    hide *;
    var p, next, message := pieces[0], After(r, pieces[0]), pieces[0].message;
    var h, deltas := FoundHistory(r, p), DeltasOf(message, pieces[1..]);
    FreshFirst(r, message, pieces);
    ConcatFirst(p.delta, deltas);
    FirstIsPrefix(p.delta, Concat(deltas), h + rest);
    FoundDelta(r, rest, p);
    FitsFirst(r, message, |h|, pieces);
    WhatMayFollow(h, rest, p.delta, Concat(deltas));
    BeyondLength(h, p.delta);
    ToldExactly(r, message, h, pieces);
    FitsExactly(next, message, if |p.delta| < |h| then rest else Beyond(h + rest, p.delta), pieces[1..]);
  }

  // ----- a turn whose history is one message -----

  /** The recall of a turn whose history is one message. */
  ghost predicate RemembersOne(r: Recall, turn: Option<string>, history: Message, message: string) {
    && Given(turn) && MessagesOf(r, turn) == [history]
    && history.id in r.texts && r.texts[history.id] == history.text
    && (message != history.id ==> message !in r.texts)
  }

  /** The condition under which the history is recognised: the message has kept its name, or its first delta is
      no longer than the history. */
  predicate Recognised(history: Message, message: string, first: string) {
    history.id == message || history.text == "" || |first| <= |history.text|
  }

  lemma FirstDelta(r: Recall, turn: Option<string>, history: Message, message: string, rest: string, delta: string)
    requires RemembersOne(r, turn, history, message) && delta != "" && delta <= history.text + rest
    ensures Recognised(history, message, delta) && history.text != "" ==>
      Remaining(r, turn, message, delta) == Some(history.text)
        && MessagesOf(AfterDelta(r, turn, message, delta), turn) == []
    ensures !Recognised(history, message, delta) ==> Remaining(r, turn, message, delta) == None
  {
    var messages := [history];
    var i := Claimed(messages, message, delta);
    if |delta| <= |history.text| {
      assert delta == (history.text + rest)[..|delta|] == history.text[..|delta|];
    }
    if Recognised(history, message, delta) && history.text != "" {
      assert i == 0;
      assert messages[..0] + messages[1..] == [];
    }
  }

  /** The messages that a delta leaves for others. */
  lemma AfterClaim(r: Recall, turn: Option<string>, message: string, delta: string)
    ensures
      var messages := MessagesOf(r, turn);
      var i := Claimed(messages, message, delta);
      MessagesOf(AfterDelta(r, turn, message, delta), turn) ==
        if i < |messages| then messages[..i] + messages[i + 1..] else messages
  {
    hide Claimed, Remaining, LeftOver;
  }

  /** Messages without text cut nothing. */
  lemma {:induction false} NothingToCut(r: Recall, turn: Option<string>, message: string, pieces: seq<Piece>)
    requires forall m :: m in MessagesOf(r, turn) ==> m.text == ""
    requires forall p :: p in pieces ==> p.turn == turn
    ensures NoneCut(r, message, pieces)
    decreases |pieces|
  {
    if pieces == [] {
      NoConditions(r, message);
    } else {
      hide Claimed, MessagesOf, AfterDelta, NoneCut, OccursOnlyAtEnd;
      var p := pieces[0];
      AfterClaim(r, turn, p.message, p.delta);
      NothingToCut(After(r, p), turn, message, pieces[1..]);
      ConditionsFirst(r, message, pieces);
    }
  }

  /** The first delta finds the history that is recognised, and nothing is left that could cut another one. */
  lemma RecognisedIsFound(r: Recall, turn: Option<string>, history: Message, message: string, rest: string,
                          delta: string)
    requires RemembersOne(r, turn, history, message) && delta != "" && delta <= history.text + rest
    requires Recognised(history, message, delta)
    ensures FoundHistory(r, Piece(turn, message, delta)) == history.text
    ensures forall m :: m in MessagesOf(After(r, Piece(turn, message, delta)), turn) ==> m.text == ""
  {
    FirstDelta(r, turn, history, message, rest, delta);
    AfterClaim(r, turn, message, delta);
    hide After;
  }

  lemma UnrecognisedIsTold(r: Recall, turn: Option<string>, history: Message, rest: string, p: Piece)
    requires RemembersOne(r, turn, history, p.message) && p.turn == turn && p.delta != ""
    requires p.delta <= history.text + rest && !Recognised(history, p.message, p.delta)
    ensures Fresh(r, p) != Beyond(p.delta, history.text)
  {
    FirstDelta(r, turn, history, p.message, rest, p.delta);
    hide Remaining;
  }

  /** A turn whose history is one message: however the message and what follows it are cut into deltas, and
      whatever comes between them, no text is lost or repeated at any moment exactly when the history is
      recognised. */
  lemma HistoryIsNeverRepeated(r: Recall, turn: Option<string>, history: Message, rest: string, pieces: seq<Piece>)
    requires pieces != [] && RemembersOne(r, turn, history, pieces[0].message)
    requires Concat(DeltasOf(pieces[0].message, pieces)) <= history.text + rest
    requires forall p :: p in pieces ==> p.turn == turn && (p.message == pieces[0].message ==> p.delta != "")
    ensures
      var message := pieces[0].message;
      NeverRepeats(FreshTexts(r, message, pieces), DeltasOf(message, pieces), history.text) <==>
        Recognised(history, message, pieces[0].delta)
  {
    hide *;
    var p, message, h := pieces[0], pieces[0].message, history.text;
    assert p in pieces && p == Piece(turn, message, p.delta);
    FreshFirst(r, message, pieces);
    ConcatFirst(p.delta, DeltasOf(message, pieces[1..]));
    FirstIsPrefix(p.delta, Concat(DeltasOf(message, pieces[1..])), h + rest);
    if Recognised(history, message, p.delta) {
      RecognisedIsFound(r, turn, history, message, rest, p.delta);
      NothingToCut(After(r, p), turn, message, pieces[1..]);
      TextForgetsNothing(After(r, p), message, pieces[1..]);
      HistoryAsFound(r, rest, pieces);
    } else {
      UnrecognisedIsTold(r, turn, history, rest, p);
      FirstGoesWrong(FreshTexts(r, message, pieces), DeltasOf(message, pieces), h);
    }
  }

  lemma LongDeltaIsNotClaimed(r: Recall, turn: Option<string>)
    requires MessagesOf(r, turn) == [Message("old", "ab")] && "new" !in r.texts
    ensures Fresh(r, Piece(turn, "new", "abX")) == "abX" && After(r, Piece(turn, "new", "abX")) == r
  {
    assert !EndsWith("ab", "abX");
    assert Claimed(MessagesOf(r, turn), "new", "abX") == 1;
  }

  lemma EndOfHistoryIsSwallowed(r: Recall, turn: Option<string>)
    requires MessagesOf(r, turn) == [Message("old", "ab")] && "new" !in r.texts
    ensures Fresh(r, Piece(turn, "new", "b")) == ""
  {
    assert "ab"[0..1][0] == 'a' && "ab"[1..] == "b";
    assert EndsWith("ab", "b") && !OccursAt("ab", "b", 0);
    assert Claimed(MessagesOf(r, turn), "new", "b") == 0;
  }

  /** A message under another name whose first delta is longer than its history: the history is delivered
      once more, and a later delta that ends like the history is swallowed. */
  lemma RenamedMessagesCanRepeatAndLose(turn: string)
    requires turn != ""
    ensures
      var r := Recall(map["old" := "ab"], map[turn := [Message("old", "ab")]]);
      && RemembersOne(r, Some(turn), Message("old", "ab"), "new")
      && FreshTexts(r, "new", [Piece(Some(turn), "new", "abX"), Piece(Some(turn), "new", "b")]) == ["abX", ""]
  {
    hide Fresh, After, FreshTexts;
    var r := Recall(map["old" := "ab"], map[turn := [Message("old", "ab")]]);
    var t := Some(turn);
    LongDeltaIsNotClaimed(r, t);
    EndOfHistoryIsSwallowed(r, t);
    TwoPieces(r, Piece(t, "new", "abX"), Piece(t, "new", "b"));
  }
}
