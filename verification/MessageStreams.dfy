/** Whole messages of a session stream, delta by delta and then as a finished item: what the mapper tells of them. */
module MessageStreams {
  import opened EventMapper
  import opened RecalledText
  import opened Wrappers

  function DeltaOf(id: string, turn: string, message: Option<string>, delta: string): Raw {
    Raw(TextDelta, id, None, Some(turn), None, message, delta, None, None, OtherReason)
  }

  function DoneOf(id: string, turn: string, item: Item): Raw {
    Raw(ItemDone, id, None, Some(turn), None, None, "", Some(item), None, OtherReason)
  }

  /** Raw events that carry identifiers nobody has used. */
  ghost predicate NewIds(ids: seq<string>, seen: set<string>) {
    && (forall i :: 0 <= i < |ids| ==> ids[i] != "" && ids[i] !in seen)
    && (forall i, j :: 0 <= i < j < |ids| ==> ids[i] != ids[j])
  }

  lemma KeyIsNew(raw: Raw, ids: seq<string>, n: nat, before: set<string>, seen: set<string>, past: Past)
    requires NewIds(ids, before) && n < |ids| && raw.itemId.None? && raw.id == ids[n] && !raw.kind.PassedOver?
    requires seen <= before + set i | 0 <= i < n :: ids[i]
    ensures IsNew(seen, past, raw) && ItemKey(raw) == ids[n]
  {
  }

  /** An item that carries none of these identifiers is as new as it was. */
  lemma StaysNew(raw: Raw, ids: seq<string>, before: set<string>, seen: set<string>, past: Past)
    requires ItemKey(raw) !in ids && before <= seen <= before + set i | 0 <= i < |ids| :: ids[i]
    ensures IsNew(seen, past, raw) <==> IsNew(before, past, raw)
  {
  }

  // ----- any stream of events -----

  predicate IsPiece(raw: Raw, seen: set<string>, past: Past) {
    IsNew(seen, past, raw) && raw.kind.TextDelta? && Given(raw.message)
  }

  function PieceOf(raw: Raw): Piece
    requires Given(raw.message)
  {
    Piece(raw.turn, raw.message.value, raw.delta)
  }

  /** The deltas of named messages that a stream brings and that were not seen before. */
  function Pieces(raws: seq<Raw>, seen: set<string>, past: Past): seq<Piece>
    decreases |raws|
  {
    if raws == [] then []
    else
      (if IsPiece(raws[0], seen, past) then [PieceOf(raws[0])] else [])
      + Pieces(raws[1..], SeenAfter(seen, past, raws[0]), past)
  }

  /** What counts as seen once all of these have come. */
  function SeenAfterAll(seen: set<string>, past: Past, raws: seq<Raw>): set<string>
    decreases |raws|
  {
    if raws == [] then seen else SeenAfterAll(SeenAfter(seen, past, raws[0]), past, raws[1..])
  }

  lemma SeenByNext(seen: set<string>, past: Past, raws: seq<Raw>)
    ensures SeenAfterAll(seen, past, raws) ==
      if raws == [] then seen else SeenAfterAll(SeenAfter(seen, past, raws[0]), past, raws[1..])
  {
  }

  /** The recall once a raw event has come. */
  function RecallOnce(r: Recall, raw: Raw, seen: set<string>, past: Past): Recall {
    if IsPiece(raw, seen, past) then After(r, PieceOf(raw)) else r
  }

  /** So much has been told of the message by a part of the stream, and this is still to come. */
  ghost predicate ToldSoFar(whole: seq<string>, told: seq<string>, now: Recall, message: string, coming: seq<Piece>) {
    whole == told + FreshTexts(now, message, coming)
  }

  /** A delta of this message that was not seen before. */
  predicate IsDeltaOf(raw: Raw, seen: set<string>, past: Past, message: string) {
    IsPiece(raw, seen, past) && raw.message == Some(message)
  }

  lemma FirstPiece(raws: seq<Raw>, seen: set<string>, past: Past)
    requires raws != []
    ensures
      var coming := Pieces(raws[1..], SeenAfter(seen, past, raws[0]), past);
      Pieces(raws, seen, past) == if IsPiece(raws[0], seen, past) then [PieceOf(raws[0])] + coming else coming
  {
    hide IsNew, SeenAfter;
  }

  /** One more event: it tells something of the message if it is a delta of it that was not seen before. */
  lemma ToldByNext(whole: seq<string>, told: seq<string>, now: Recall, message: string, raws: seq<Raw>,
                   seen: set<string>, past: Past)
    requires raws != [] && ToldSoFar(whole, told, now, message, Pieces(raws, seen, past))
    ensures
      var raw := raws[0];
      var coming := Pieces(raws[1..], SeenAfter(seen, past, raw), past);
      ToldSoFar(
        whole, if IsDeltaOf(raw, seen, past, message) then told + [ToldBy(now, raw)] else told,
        RecallOnce(now, raw, seen, past), message, coming)
  {
    hide FreshTexts, IsNew, SeenAfter, Pieces, FreshText, Remaining, AfterDelta;
    var raw := raws[0];
    var coming := Pieces(raws[1..], SeenAfter(seen, past, raw), past);
    FirstPiece(raws, seen, past);
    if IsPiece(raw, seen, past) {
      FreshFirst(now, message, [PieceOf(raw)] + coming);
      assert ([PieceOf(raw)] + coming)[1..] == coming;
    }
  }

  lemma RecallFacts(r: Recall, raw: Raw, seen: set<string>, past: Past)
    ensures RecallOnce(r, raw, seen, past) ==
      if IsNew(seen, past, raw) && raw.kind.TextDelta? then RecallAfter(r, raw) else r
  {
    hide IsNew, AfterDelta;
  }

  lemma NothingToldYet(r: Recall, message: string, pieces: seq<Piece>)
    ensures ToldSoFar(FreshTexts(r, message, pieces), [], r, message, pieces)
  {
  }

  lemma AllTold(whole: seq<string>, told: seq<string>, now: Recall, message: string, seen: set<string>, past: Past)
    requires ToldSoFar(whole, told, now, message, Pieces([], seen, past))
    ensures whole == told
  {
    NoPieces(now, message);
  }

  /** No finished message of this name is among the events. */
  predicate NamesNoItem(raws: seq<Raw>, message: string) {
    forall i :: 0 <= i < |raws| && raws[i].kind.ItemDone? && IsMessage(raws[i]) ==>
      raws[i].item.value.id != Some(message)
  }

  lemma NotedByName(t: Texts, turn: Option<string>, name: Option<string>, message: string, text: string)
    requires message != ""
    ensures TextUnder(Note(t, turn, name, text).byMessage, message) ==
      if name == Some(message) then TextUnder(t.byMessage, message) + text else TextUnder(t.byMessage, message)
  {
  }

  lemma ItemOfOther(t: Texts, raw: Raw, message: string)
    requires message != "" && IsMessage(raw) && raw.item.value.id != Some(message)
    ensures TextUnder(AfterMessage(t, raw).byMessage, message) == TextUnder(t.byMessage, message)
  {
    hide PendingIndex, EmittedBefore;
  }

  /** What is noted under the name of a message: what a delta of it tells, and nothing for any other event. */
  lemma NotedByNext(t: Texts, raw: Raw, seen: set<string>, past: Past, message: string, events: seq<Event>, now: Texts)
    requires message != "" && (events == [] ==> TextsOf(events) == "")
    requires !(raw.kind.ItemDone? && IsMessage(raw) && raw.item.value.id == Some(message))
    requires IsNew(seen, past, raw) && raw.kind.TextDelta? ==>
      now == if events == [] then t else Note(t, raw.turn, raw.message, TextsOf(events))
    requires IsNew(seen, past, raw) && raw.kind.ItemDone? && IsMessage(raw) ==> now == AfterMessage(t, raw)
    requires !IsNew(seen, past, raw) || !CarriesText(raw) ==> now == t
    ensures TextUnder(now.byMessage, message) ==
      TextUnder(t.byMessage, message) + if IsDeltaOf(raw, seen, past, message) then TextsOf(events) else ""
  {
    hide IsNew, TextUnder, Note, AfterMessage, TextsOf;
    assert TextUnder(t.byMessage, message) + "" == TextUnder(t.byMessage, message);
    if IsNew(seen, past, raw) && raw.kind.TextDelta? && events != [] {
      NotedByName(t, raw.turn, raw.message, message, TextsOf(events));
    }
    if raw.kind.ItemDone? && IsMessage(raw) {
      ItemOfOther(t, raw, message);
    }
  }

  lemma NothingNoted(text: string)
    ensures text + Concat([]) == text
  {
  }

  lemma DeltaIsNew(raw: Raw, seen: set<string>, past: Past, message: string)
    requires IsDeltaOf(raw, seen, past, message)
    ensures IsNew(seen, past, raw) && raw.kind.TextDelta?
  {
  }

  lemma {:induction false} ConcatMore(parts: seq<string>, part: string)
    ensures Concat(parts + [part]) == Concat(parts) + part
  {
    if parts == [] {
      assert Concat([part]) == part + Concat([part][1..]);
      assert [part][1..] == [];
    } else {
      assert (parts + [part])[1..] == parts[1..] + [part];
      ConcatMore(parts[1..], part);
    }
  }

  /** Any stream of events, in any state of the mapper: the deltas of a message tell what history has not
      delivered, and all that they tell is noted under the name of the message until it is finished. */
  method TellStream(m: Mapper, raws: seq<Raw>, message: string) returns (told: seq<string>)
    requires m.Valid() && message != ""
    modifies m
    ensures m.Valid() && told == FreshTexts(old(m.recall), message, Pieces(raws, old(m.seenItems), m.past))
    ensures m.seenItems == SeenAfterAll(old(m.seenItems), m.past, raws)
    ensures NamesNoItem(raws, message) ==>
      TextUnder(m.Emitted().byMessage, message) == TextUnder(old(m.Emitted()).byMessage, message) + Concat(told)
  {
    hide FreshTexts, Pieces, ToldSoFar, IsPiece, After, ToldBy, RecallAfter, OnceEach, Contiguous, Concat, Note;
    hide IsNew, SeenAfter, SeenAfterAll, AfterMessage, AddedBy, TextsOf, TextUnder, IsMessage, RecallOnce, CarriesText;
    ghost var whole := FreshTexts(m.recall, message, Pieces(raws, m.seenItems, m.past));
    ghost var t, all := TextUnder(m.Emitted().byMessage, message), SeenAfterAll(m.seenItems, m.past, raws);
    told := [];
    var n := 0;
    assert raws[0..] == raws;
    NothingToldYet(m.recall, message, Pieces(raws, m.seenItems, m.past));
    NothingNoted(t);
    NoText();
    while n < |raws|
      invariant n <= |raws| && m.Valid()
      invariant ToldSoFar(whole, told, m.recall, message, Pieces(raws[n..], m.seenItems, m.past))
      invariant SeenAfterAll(m.seenItems, m.past, raws[n..]) == all
      invariant NamesNoItem(raws, message) ==> TextUnder(m.Emitted().byMessage, message) == t + Concat(told)
    {
      var raw := raws[n];
      ghost var seen, was := m.seenItems, m.Emitted();
      var isDelta := IsDeltaOf(raw, m.seenItems, m.past, message);
      ToldByNext(whole, told, m.recall, message, raws[n..], m.seenItems, m.past);
      RecallFacts(m.recall, raw, m.seenItems, m.past);
      SeenByNext(m.seenItems, m.past, raws[n..]);
      assert raws[n..][0] == raw && raws[n..][1..] == raws[n + 1..];
      var events := m.Map(raw);
      if NamesNoItem(raws, message) {
        NotedByNext(was, raw, seen, m.past, message, events, m.Emitted());
        ConcatMore(told, TextsOf(events));
      }
      if isDelta {
        DeltaIsNew(raw, seen, m.past, message);
        told := told + [TextsOf(events)];
      }
      n := n + 1;
    }
    assert raws[n..] == [];
    SeenByNext(m.seenItems, m.past, []);
    AllTold(whole, told, m.recall, message, m.seenItems, m.past);
  }

  /** The history is recalled under the name of the message, and not both forgotten and mistaken. */
  ghost predicate IsKnown(r: Recall, message: string, history: string, rest: string, pieces: seq<Piece>) {
    && history == KnownHistory(r, message) && Concat(DeltasOf(message, pieces)) <= history + rest
    && (NoneForgets(r, message, pieces) || NoneCut(r, message, pieces))
  }

  /** The history is the one that the first delta finds, and not both forgotten and mistaken behind it. */
  ghost predicate IsFound(r: Recall, message: string, history: string, rest: string, pieces: seq<Piece>) {
    && pieces != [] && pieces[0].message == message && pieces[0].delta != ""
    && history == FoundHistory(r, pieces[0]) && Concat(DeltasOf(message, pieces)) <= history + rest
    && (NoneForgets(After(r, pieces[0]), message, pieces[1..]) || NoneCut(After(r, pieces[0]), message, pieces[1..]))
  }

  /** The history of the turn is one message, and all the stream is of that turn. */
  ghost predicate IsOnly(r: Recall, message: string, history: Message, rest: string, pieces: seq<Piece>) {
    && pieces != [] && pieces[0].message == message && RemembersOne(r, pieces[0].turn, history, message)
    && Concat(DeltasOf(message, pieces)) <= history.text + rest
    && forall p :: p in pieces ==> p.turn == pieces[0].turn && (p.message == message ==> p.delta != "")
  }

  lemma HistoryCases(r: Recall, message: string, history: Message, rest: string, pieces: seq<Piece>)
    ensures
      var right := NeverRepeats(FreshTexts(r, message, pieces), DeltasOf(message, pieces), history.text);
      && (IsKnown(r, message, history.text, rest, pieces) ==>
            (right <==> NoneForgets(r, message, pieces) && NoneCut(r, message, pieces)))
      && (IsFound(r, message, history.text, rest, pieces) ==>
            (right <==>
              NoneForgets(After(r, pieces[0]), message, pieces[1..])
                && NoneCut(After(r, pieces[0]), message, pieces[1..])))
      && (IsOnly(r, message, history, rest, pieces) ==> (right <==> Recognised(history, message, pieces[0].delta)))
  {
    hide NeverRepeats, FreshTexts, DeltasOf, NoneForgets, NoneCut, After, FoundHistory, KnownHistory, RemembersOne;
    hide Recognised, Concat;
    if IsKnown(r, message, history.text, rest, pieces) {
      HistoryAmongOthers(r, message, rest, pieces);
    }
    if IsFound(r, message, history.text, rest, pieces) {
      HistoryAsFound(r, rest, pieces);
    }
    if IsOnly(r, message, history, rest, pieces) {
      HistoryIsNeverRepeated(r, pieces[0].turn, history, rest, pieces);
    }
  }

  /** The deltas of a message that is partly history, in any stream and any state of the mapper: nothing of it is
      lost or repeated at any moment if and only if as much of each delta is cut as there is history left. That
      is so when the history is recalled under the name of the message, or is claimed by its first delta, if and
      only if it is not forgotten for a delta without text and no delta behind it is cut for another message;
      and when the history of the turn is one message, if and only if that is recognised. */
  method ReplayStream(m: Mapper, raws: seq<Raw>, message: string, ghost history: Message, ghost rest: string)
    returns (told: seq<string>)
    requires m.Valid() && message != ""
    modifies m
    ensures m.Valid()
    ensures
      var r, pieces := old(m.recall), Pieces(raws, old(m.seenItems), m.past);
      var deltas := DeltasOf(message, pieces);
      && told == FreshTexts(r, message, pieces)
      && (NeverRepeats(told, deltas, history.text) <==> AllFit(r, message, |history.text|, pieces))
      && (NeverRepeats(told, deltas, history.text) && Concat(deltas) == history.text + rest ==> Concat(told) == rest)
    ensures
      var r, pieces := old(m.recall), Pieces(raws, old(m.seenItems), m.past);
      IsKnown(r, message, history.text, rest, pieces) ==>
        (NeverRepeats(told, DeltasOf(message, pieces), history.text) <==>
          NoneForgets(r, message, pieces) && NoneCut(r, message, pieces))
    ensures
      var r, pieces := old(m.recall), Pieces(raws, old(m.seenItems), m.past);
      IsFound(r, message, history.text, rest, pieces) ==>
        (NeverRepeats(told, DeltasOf(message, pieces), history.text) <==>
          NoneForgets(After(r, pieces[0]), message, pieces[1..]) && NoneCut(After(r, pieces[0]), message, pieces[1..]))
    ensures
      var r, pieces := old(m.recall), Pieces(raws, old(m.seenItems), m.past);
      IsOnly(r, message, history, rest, pieces) ==>
        (NeverRepeats(told, DeltasOf(message, pieces), history.text) <==>
          Recognised(history, message, pieces[0].delta))
  {
    hide *;
    ghost var r, pieces := m.recall, Pieces(raws, m.seenItems, m.past);
    ghost var deltas := DeltasOf(message, pieces);
    told := TellStream(m, raws, message);
    ToldExactly(r, message, history.text, pieces);
    if NeverRepeats(told, deltas, history.text) && Concat(deltas) == history.text + rest {
      TellsTheRest(told, deltas, history.text, rest);
    }
    HistoryCases(r, message, history, rest, pieces);
  }

  // ----- the deltas of one message -----

  /** The deltas of one message of one turn, one behind the other. */
  function Run(turn: Option<string>, message: string, deltas: seq<string>): seq<Piece> {
    if deltas == [] then [] else [Piece(turn, message, deltas[0])] + Run(turn, message, deltas[1..])
  }

  lemma {:induction false} RunFacts(turn: Option<string>, message: string, deltas: seq<string>)
    ensures DeltasOf(message, Run(turn, message, deltas)) == deltas
    ensures forall p :: p in Run(turn, message, deltas) ==> p.turn == turn && p.message == message && p.delta in deltas
  {
    if deltas != [] {
      RunFacts(turn, message, deltas[1..]);
      assert ([Piece(turn, message, deltas[0])] + Run(turn, message, deltas[1..]))[1..] ==
        Run(turn, message, deltas[1..]);
    }
  }

  /** What each of a series of deltas tells; the deltas of a message without a name are told as they are. */
  function ToldTexts(r: Recall, turn: Option<string>, message: Option<string>, deltas: seq<string>): seq<string> {
    if Given(message) then FreshTexts(r, message.value, Run(turn, message.value, deltas)) else deltas
  }

  /** So many deltas have been taken, and have told so much. */
  ghost predicate Delivered(whole: seq<string>, now: Recall, turn: Option<string>, message: Option<string>,
                            deltas: seq<string>, n: nat, told: seq<string>)
  {
    n <= |deltas| && told + ToldTexts(now, turn, message, deltas[n..]) == whole
  }

  lemma DeliversNothing(r: Recall, turn: Option<string>, message: Option<string>, deltas: seq<string>)
    ensures Delivered(ToldTexts(r, turn, message, deltas), r, turn, message, deltas, 0, [])
  {
    hide ToldTexts;
    assert deltas[0..] == deltas;
  }

  lemma DeliversMore(raw: Raw, whole: seq<string>, now: Recall, deltas: seq<string>, n: nat, told: seq<string>)
    requires Delivered(whole, now, raw.turn, raw.message, deltas, n, told) && n < |deltas| && raw.delta == deltas[n]
    ensures Delivered(whole, RecallAfter(now, raw), raw.turn, raw.message, deltas, n + 1, told + [ToldBy(now, raw)])
  {
    hide AfterDelta, Remaining, FreshText, FreshTexts;
    assert deltas[n..][1..] == deltas[n + 1..];
    if Given(raw.message) {
      var run := Run(raw.turn, raw.message.value, deltas[n..]);
      assert run[1..] == Run(raw.turn, raw.message.value, deltas[n + 1..]);
      FreshFirst(now, raw.message.value, run);
    }
  }

  lemma DeliversAll(whole: seq<string>, now: Recall, turn: Option<string>, message: Option<string>,
                    deltas: seq<string>, told: seq<string>)
    requires Delivered(whole, now, turn, message, deltas, |deltas|, told)
    ensures told == whole
  {
    assert deltas[|deltas|..] == [];
    if Given(message) {
      NoPieces(now, message.value);
    }
  }

  /** The notes once all this text of a message has been told. */
  function Noted(t: Texts, turn: string, message: Option<string>, text: string): Texts {
    if text == "" then t else Note(t, Some(turn), message, text)
  }

  lemma NotedOnce(t: Texts, turn: string, message: Option<string>, text: string)
    ensures Noted(t, turn, message, text) == if text == "" then t else Note(t, Some(turn), message, text)
  {
  }

  lemma AddedTwice(texts: map<string, string>, key: Option<string>, text: string, more: string)
    ensures AddedUnder(AddedUnder(texts, key, text), key, more) == AddedUnder(texts, key, text + more)
  {
    if Given(key) {
      var was := TextUnder(texts, key.value);
      assert (was + text) + more == was + (text + more);
    }
  }

  lemma PendingOnce(pending: map<string, seq<string>>, turn: Option<string>, message: Option<string>)
    ensures PendingAfter(PendingAfter(pending, turn, message), turn, message) == PendingAfter(pending, turn, message)
  {
  }

  /** Text that is told in parts is noted like text that is told at once. */
  lemma NotedMore(t: Texts, turn: string, message: Option<string>, text: string, more: string)
    ensures Noted(Noted(t, turn, message, text), turn, message, more) == Noted(t, turn, message, text + more)
  {
    hide AddedUnder, PendingAfter;
    assert text == "" ==> text + more == more;
    assert more == "" ==> text + more == text;
    AddedTwice(t.byMessage, message, text, more);
    AddedTwice(t.byTurn, Some(turn), text, more);
    AddedTwice(t.loose, if Given(message) then None else Some(turn), text, more);
    PendingOnce(t.pending, Some(turn), message);
  }

  lemma NothingTold(t: Texts, turn: string, message: Option<string>)
    ensures Noted(t, turn, message, Concat([])) == t
  {
  }

  /** The deltas of one message, in any state of the turn: each tells what history has not delivered, and all
      that is told is noted for the finished item. */
  method SayDeltas(m: Mapper, turn: string, message: Option<string>, deltas: seq<string>, ids: seq<string>)
    returns (told: seq<string>)
    requires m.Valid() && turn != "" && |ids| == |deltas| && NewIds(ids, m.seenItems)
    requires forall i :: 0 <= i < |deltas| ==> deltas[i] != ""
    modifies m
    ensures m.Valid() && told == ToldTexts(old(m.recall), Some(turn), message, deltas)
    ensures m.Emitted() == Noted(old(m.Emitted()), turn, message, Concat(told))
    ensures old(m.seenItems) <= m.seenItems <= old(m.seenItems) + set i | 0 <= i < |ids| :: ids[i]
  {
    hide Noted, Concat, Delivered, ToldTexts, ToldBy, RecallAfter, OnceEach, NewIds, IsNew, ItemKey, Contiguous;
    ghost var whole := ToldTexts(m.recall, Some(turn), message, deltas);
    ghost var seen, t := m.seenItems, m.Emitted();
    told := [];
    var n := 0;
    NoText();
    DeliversNothing(m.recall, Some(turn), message, deltas);
    NothingTold(t, turn, message);
    while n < |deltas|
      invariant n <= |deltas| && m.Valid()
      invariant Delivered(whole, m.recall, Some(turn), message, deltas, n, told)
      invariant m.Emitted() == Noted(t, turn, message, Concat(told))
      invariant seen <= m.seenItems <= seen + set i | 0 <= i < n :: ids[i]
    {
      var raw := DeltaOf(ids[n], turn, message, deltas[n]);
      KeyIsNew(raw, ids, n, seen, m.seenItems, m.past);
      DeliversMore(raw, whole, m.recall, deltas, n, told);
      ghost var before := m.Emitted();
      var events := m.Map(raw);
      NotedOnce(before, turn, message, TextsOf(events));
      NotedMore(t, turn, message, Concat(told), TextsOf(events));
      ConcatMore(told, TextsOf(events));
      told := told + [TextsOf(events)];
      n := n + 1;
    }
    DeliversAll(whole, m.recall, Some(turn), message, deltas, told);
  }

  // ----- and then the finished item -----

  /** The condition under which a message is told whole, when this much of it is history, this much was said in
      deltas, and the finished item finds this much emitted: what it finds is exactly what was delivered, or
      it adds nothing and nothing was missing, or it adds everything and nothing was delivered. */
  predicate Completes(history: string, emitted: string, said: string, text: string) {
    if emitted <= history + text then emitted == history + said
    else if history + text <= emitted then said == text
    else said == "" && history == ""
  }

  lemma PrefixCompletes(history: string, emitted: string, said: string, text: string)
    requires emitted <= history + text
    ensures said + (history + text)[|emitted|..] == text <==> emitted == history + said
  {
    var whole := history + text;
    var more := whole[|emitted|..];
    assert emitted + more == whole && whole[|history|..] == text;
    assert history + said + more == history + (said + more);
    if said + more == text {
      assert emitted == whole[..|emitted|];
    }
  }

  /** Behind the history, what was said and what the item adds make up the text exactly under that condition. */
  lemma CompletesExactly(history: string, emitted: string, said: string, text: string)
    ensures said + ItemDelta(emitted, history + text) == text <==> Completes(history, emitted, said, text)
  {
    var whole := history + text;
    if emitted <= whole {
      PrefixCompletes(history, emitted, said, text);
      assert emitted == history + said ==> said + whole[|emitted|..] == text;
    } else if whole <= emitted {
      assert said + "" == said;
    } else {
      assert |said + whole| == |said| + |history| + |text|;
      if said == "" && history == "" {
        assert said + whole == text;
      }
    }
  }

  /** Nothing was emitted in the turn, or under the name of the message or of the item. */
  predicate IsFresh(t: Texts, turn: string, message: Option<string>, id: Option<string>) {
    && turn !in t.byTurn && turn !in t.loose && turn !in t.pending
    && (Given(message) ==> message.value !in t.byMessage) && (Given(id) ==> id.value !in t.byMessage)
  }

  /** The item comes under the name of its deltas, and nothing was emitted under that name. */
  predicate IsOwn(t: Texts, message: Option<string>, id: Option<string>) {
    Given(message) && id == message && message.value !in t.byMessage
  }

  /** Under the name of its deltas, the finished item finds what was said, whatever else the turn holds. */
  lemma OwnNameFindsAll(t: Texts, turn: string, message: Option<string>, said: string, text: string)
    requires IsOwn(t, message, message) && said != ""
    ensures EmittedBefore(Noted(t, turn, message, said), turn, message, text) == said
  {
  }

  /** Without a name, the finished item finds all the text of the turn. */
  lemma NoNameFindsTurn(t: Texts, turn: string, message: Option<string>, id: Option<string>, said: string, text: string)
    requires turn != "" && !Given(id)
    ensures EmittedBefore(Noted(t, turn, message, said), turn, id, text) == TextUnder(t.byTurn, turn) + said
  {
    hide PendingIndex;
  }

  lemma OnePending(ids: seq<string>, texts: map<string, string>, text: string)
    requires |ids| == 1
    ensures
      var t := TextUnder(texts, ids[0]);
      Correlated(ids, texts, text) == if t != "" && (t <= text || text <= t) then 0 else 1
  {
    assert Correlated(ids[1..], texts, text) == 0;
  }

  /** Under another name, the finished item finds what was said if it begins alike. */
  lemma OtherNameFinds(t: Texts, turn: string, message: Option<string>, id: Option<string>, said: string, text: string)
    requires turn != "" && IsFresh(t, turn, message, id) && Given(id) && id != message
    ensures EmittedBefore(Noted(t, turn, message, said), turn, id, text) ==
      if Given(message) && !(said <= text) && !(text <= said) then "" else said
  {
    var now := Noted(t, turn, message, said);
    var ids := PendingOf(now.pending, turn);
    if Given(message) && said != "" {
      assert ids == [message.value] && TextUnder(now.byMessage, ids[0]) == said;
      OnePending(ids, now.byMessage, text);
    } else {
      assert ids == [] && TextUnder(now.loose, turn) == said;
    }
  }

  lemma FreshIsOwn(t: Texts, turn: string, message: Option<string>, id: Option<string>)
    requires IsFresh(t, turn, message, id)
    ensures TextUnder(t.byTurn, turn) == "" && (Given(id) && id == message ==> IsOwn(t, message, id))
  {
  }

  lemma NothingSaidFindsNothing(t: Texts, turn: string, message: Option<string>, id: Option<string>, text: string)
    requires IsFresh(t, turn, message, id)
    ensures EmittedBefore(Noted(t, turn, message, ""), turn, id, text) == ""
  {
  }

  /** In a fresh turn, the finished item finds what was said, under whatever name it comes. */
  lemma FreshTurnFindsAll(t: Texts, turn: string, message: Option<string>, id: Option<string>, said: string,
                          text: string)
    requires turn != "" && IsFresh(t, turn, message, id)
    ensures ItemDelta(EmittedBefore(Noted(t, turn, message, said), turn, id, text), text) == ItemDelta(said, text)
  {
    hide EmittedBefore, Noted, IsFresh, IsOwn;
    FreshIsOwn(t, turn, message, id);
    if !Given(id) {
      NoNameFindsTurn(t, turn, message, id, said, text);
    } else if id != message {
      OtherNameFinds(t, turn, message, id, said, text);
    } else if said != "" {
      OwnNameFindsAll(t, turn, message, said, text);
    } else {
      NothingSaidFindsNothing(t, turn, message, id, text);
    }
  }

  lemma ItemUnderTurn(t: Texts, turn: string, id: Option<string>, text: string)
    requires turn != ""
    ensures TextUnder(AfterItem(t, turn, id, text).byTurn, turn) ==
      TextUnder(t.byTurn, turn) + ItemDelta(EmittedBefore(t, turn, id, text), text)
  {
    hide EmittedBefore, PendingIndex;
  }

  lemma NotedUnderTurn(t: Texts, turn: string, message: Option<string>, text: string)
    requires turn != ""
    ensures TextUnder(Noted(t, turn, message, text).byTurn, turn) == TextUnder(t.byTurn, turn) + text
  {
  }

  lemma WhatIsFound(t: Texts, turn: string, message: Option<string>, id: Option<string>, said: string, text: string)
    requires turn != ""
    ensures
      var emitted := EmittedBefore(Noted(t, turn, message, said), turn, id, text);
      && (IsOwn(t, message, id) && said != "" ==> emitted == said)
      && (IsFresh(t, turn, message, id) ==> ItemDelta(emitted, text) == ItemDelta(said, text))
  {
    hide EmittedBefore, Noted, IsFresh;
    if IsOwn(t, message, id) && said != "" {
      OwnNameFindsAll(t, turn, message, said, text);
    }
    if IsFresh(t, turn, message, id) {
      FreshTurnFindsAll(t, turn, message, id, said, text);
    }
  }

  /** The history is the one that the deltas find, under the name of the message or by their text, and none of
      them is cut for another one. */
  predicate IsReplayed(r: Recall, turn: Option<string>, message: string, deltas: seq<string>, history: string) {
    var run := Run(turn, message, deltas);
    || (history == KnownHistory(r, message) && NoneCut(r, message, run))
    || (run != [] && history == FoundHistory(r, run[0]) && NoneCut(After(r, run[0]), message, run[1..]))
  }

  lemma ReplayedIsRest(r: Recall, turn: Option<string>, message: string, deltas: seq<string>, history: string,
                       rest: string)
    requires IsReplayed(r, turn, message, deltas, history) && Concat(deltas) == history + rest
    requires forall i :: 0 <= i < |deltas| ==> deltas[i] != ""
    ensures Concat(FreshTexts(r, message, Run(turn, message, deltas))) == rest
  {
    hide NeverRepeats, NoneCut, NoneForgets, KnownHistory, FoundHistory, Concat, FreshTexts, After, DeltasOf, Run;
    var run := Run(turn, message, deltas);
    RunFacts(turn, message, deltas);
    if history == KnownHistory(r, message) && NoneCut(r, message, run) {
      TextForgetsNothing(r, message, run);
      HistoryAmongOthers(r, message, rest, run);
    } else {
      assert run[0] in run;
      TextForgetsNothing(After(r, run[0]), message, run[1..]);
      HistoryAsFound(r, rest, run);
    }
    TellsTheRest(FreshTexts(r, message, run), deltas, history, rest);
  }

  /** Nothing is recalled of the message, and no delta is cut for another one. */
  predicate IsUnknown(r: Recall, turn: Option<string>, message: Option<string>, deltas: seq<string>) {
    Given(message) ==>
      KnownHistory(r, message.value) == "" && NoneCut(r, message.value, Run(turn, message.value, deltas))
  }

  lemma WhatIsSaid(r: Recall, turn: Option<string>, message: Option<string>, deltas: seq<string>)
    requires IsUnknown(r, turn, message, deltas) && forall i :: 0 <= i < |deltas| ==> deltas[i] != ""
    ensures Concat(ToldTexts(r, turn, message, deltas)) == Concat(deltas)
  {
    if Given(message) {
      hide NoneCut, KnownHistory, FreshTexts, Concat, Run;
      assert "" + Concat(deltas) == Concat(deltas);
      ReplayedIsRest(r, turn, message.value, deltas, "", Concat(deltas));
    }
  }

  /** Deltas and then the finished item, in any state of the turn and under any names: history, deltas and what
      the item adds make up the text of the item exactly when the item completes what it finds emitted. Under
      the name of its deltas, or when the turn is fresh, it finds what the deltas told. */
  method DeltasThenItem(m: Mapper, turn: string, message: Option<string>, deltas: seq<string>, ids: seq<string>,
                        done: Raw, ghost history: string, ghost text: string)
    returns (told: string, ghost said: string, ghost emitted: string)
    requires m.Valid() && turn != "" && |ids| == |deltas| && NewIds(ids, m.seenItems)
    requires forall i :: 0 <= i < |deltas| ==> deltas[i] != ""
    requires done.kind.ItemDone? && done.turn == Some(turn) && IsMessage(done) && ItemKey(done) !in ids
      && done.item.value.text == history + text
    modifies m
    ensures m.Valid() && said == Concat(ToldTexts(old(m.recall), Some(turn), message, deltas))
    ensures
      var t, id := Noted(old(m.Emitted()), turn, message, said), done.item.value.id;
      var isNew := IsNew(old(m.seenItems), m.past, done);
      && emitted == EmittedBefore(t, turn, id, history + text)
      && told == said + (if isNew then ItemDelta(emitted, history + text) else "")
      && (told == text <==> if isNew then Completes(history, emitted, said, text) else said == text)
      && m.Emitted() == if isNew then AfterItem(t, turn, id, history + text) else t
    ensures old(IsOwn(m.Emitted(), message, done.item.value.id)) && said != "" ==> emitted == said
    ensures old(IsFresh(m.Emitted(), turn, message, done.item.value.id)) ==>
      ItemDelta(emitted, history + text) == ItemDelta(said, history + text)
    ensures old(IsUnknown(m.recall, Some(turn), message, deltas)) ==> said == Concat(deltas)
    ensures TextUnder(m.Emitted().byTurn, turn) == TextUnder(old(m.Emitted()).byTurn, turn) + told
  {
    hide IsFresh, IsOwn, IsUnknown, NoneCut, KnownHistory, Concat, ToldTexts, Noted, NewIds, IsNew, ItemKey;
    hide EmittedBefore, AfterItem, ItemDelta, Completes, OnceEach, Contiguous, ToldBy, RecallAfter;
    ghost var r, seen, t, id := m.recall, m.seenItems, m.Emitted(), done.item.value.id;
    var parts := SayDeltas(m, turn, message, deltas, ids);
    said := Concat(parts);
    StaysNew(done, ids, seen, m.seenItems, m.past);
    ghost var now := m.Emitted();
    emitted := EmittedBefore(now, turn, id, history + text);
    var events := m.Map(done);
    told := Concat(parts) + TextsOf(events);
    NoText();
    WhatIsFound(t, turn, message, id, said, history + text);
    if IsUnknown(r, Some(turn), message, deltas) {
      WhatIsSaid(r, Some(turn), message, deltas);
    }
    CompletesExactly(history, emitted, said, text);
    NotedUnderTurn(t, turn, message, said);
    ItemUnderTurn(now, turn, id, history + text);
  }

  /** An input where it does not hold in a turn that has said something: after "He" of one message, the item of
      another one, of which nothing was told, adds only what "He" lacks of its text. */
  lemma OtherItemTakesOver(t: Texts, turn: string)
    requires turn != "" && IsFresh(t, turn, Some("a"), Some("b"))
    ensures
      var emitted := EmittedBefore(Noted(t, turn, Some("a"), "He"), turn, Some("b"), "Hello");
      ItemDelta(emitted, "Hello") == "llo" && !Completes("", emitted, "", "Hello")
  {
  }

  // ----- history, deltas and the finished item -----

  lemma OwnTextCompletes(history: string, said: string, text: string)
    ensures Completes(history, said, said, text) <==> history == "" && said <= text
  {
    if history == "" {
      assert history + text == text && history + said == said;
    } else {
      assert |history + said| > |said| && |history + text| > |text|;
    }
  }

  lemma OwnItemFinds(t: Texts, turn: string, message: string, text: string)
    requires message != "" && TextUnder(t.byMessage, message) != ""
    ensures EmittedBefore(t, turn, Some(message), text) == TextUnder(t.byMessage, message)
  {
  }

  lemma NotNamedYet(t: Texts, message: string)
    requires message !in t.byMessage
    ensures TextUnder(t.byMessage, message) == ""
  {
  }

  /** Any stream and then the finished item of a message under the name of its deltas, whatever came between
      them: history, deltas and item make up the text of the item exactly when it completes what it finds in the
      notes, or is not new and the deltas brought all. When the deltas told anything it finds that, and a new
      item completes it if and only if none of the text is history and the deltas begin it. */
  method StreamThenItem(m: Mapper, raws: seq<Raw>, message: string, done: Raw, ghost history: string,
                        ghost text: string)
    returns (told: string, ghost said: string, ghost notes: Texts)
    requires m.Valid() && message != "" && message !in m.Emitted().byMessage && NamesNoItem(raws, message)
    requires done.kind.ItemDone? && IsMessage(done) && done.item.value.id == Some(message)
      && done.item.value.text == history + text
    modifies m
    ensures m.Valid()
    ensures said == Concat(FreshTexts(old(m.recall), message, Pieces(raws, old(m.seenItems), m.past)))
    ensures
      var isNew := IsNew(SeenAfterAll(old(m.seenItems), m.past, raws), m.past, done);
      var emitted := EmittedBefore(notes, done.turn.value, Some(message), history + text);
      && TextUnder(notes.byMessage, message) == said
      && m.Emitted() == (if isNew then AfterMessage(notes, done) else notes)
      && told == said + (if isNew then ItemDelta(emitted, history + text) else "")
      && (told == text <==> if isNew then Completes(history, emitted, said, text) else said == text)
      && (said != "" ==>
            emitted == said && (told == text <==> if isNew then history == "" && said <= text else said == text))
  {
    hide FreshTexts, Pieces, NamesNoItem, SeenAfterAll, IsNew, Concat, OnceEach, Contiguous, EmittedBefore, TextUnder;
    hide AfterMessage, Completes, ItemDelta;
    NotNamedYet(m.Emitted(), message);
    var parts := TellStream(m, raws, message);
    said := Concat(parts);
    assert "" + said == said;
    notes := m.Emitted();
    ghost var emitted := EmittedBefore(notes, done.turn.value, Some(message), history + text);
    if said != "" {
      OwnItemFinds(notes, done.turn.value, message, history + text);
    }
    var events := m.Map(done);
    told := Concat(parts) + TextsOf(events);
    NoText();
    assert said + "" == said;
    CompletesExactly(history, emitted, said, text);
    OwnTextCompletes(history, said, text);
  }

  /** A message that is partly in the history, its deltas, and its finished item: behind the history, what is
      told is the text exactly when the item is not new and the deltas brought all, or the item completes what
      it finds. An item that finds what the deltas told, and is new although its message has a history, never
      does: it brings the history once more unless what the deltas told and the item begin alike. */
  method HistoryThenItem(m: Mapper, turn: string, message: string, deltas: seq<string>, ids: seq<string>, done: Raw,
                         ghost history: string, ghost rest: string, ghost text: string)
    returns (told: string, ghost emitted: string)
    requires m.Valid() && turn != "" && message != "" && |ids| == |deltas| && NewIds(ids, m.seenItems)
    requires forall i :: 0 <= i < |deltas| ==> deltas[i] != ""
    requires Concat(deltas) == history + rest && IsReplayed(m.recall, Some(turn), message, deltas, history)
    requires done.kind.ItemDone? && done.turn == Some(turn) && IsMessage(done) && ItemKey(done) !in ids
      && done.item.value.text == history + text
    modifies m
    ensures m.Valid()
    ensures
      var t, id := Noted(old(m.Emitted()), turn, Some(message), rest), done.item.value.id;
      var isNew := IsNew(old(m.seenItems), m.past, done);
      && emitted == EmittedBefore(t, turn, id, history + text)
      && told == rest + (if isNew then ItemDelta(emitted, history + text) else "")
      && (told == text <==> if isNew then Completes(history, emitted, rest, text) else rest == text)
    ensures
      var t, id := old(m.Emitted()), done.item.value.id;
      IsNew(old(m.seenItems), m.past, done)
        && ((IsOwn(t, Some(message), id) && rest != "") || IsFresh(t, turn, Some(message), id)) ==>
          && (told == text <==> history == "" && rest <= text)
          && (!(rest <= history + text) && !(history + text <= rest) ==> told == rest + (history + text))
  {
    hide IsFresh, IsOwn, IsReplayed, Concat, FreshTexts, Noted, NewIds, IsNew, ItemKey, EmittedBefore, AfterItem;
    hide Completes, OnceEach, Contiguous;
    ReplayedIsRest(m.recall, Some(turn), message, deltas, history, rest);
    ghost var said;
    told, said, emitted := DeltasThenItem(m, turn, Some(message), deltas, ids, done, history, text);
    OwnTextCompletes(history, rest, text);
    CompletesExactly(history, rest, rest, text);
  }

  /** An input where the history comes twice: of "abc" the history has "ab" and a delta brings "c", and then the
      item, which the history did not list, adds all of "abc". */
  lemma HistoryToldAgain(t: Texts, turn: string, message: string)
    requires message != "" && IsOwn(t, Some(message), Some(message))
    ensures
      var emitted := EmittedBefore(Noted(t, turn, Some(message), "c"), turn, Some(message), "ab" + "c");
      ItemDelta(emitted, "ab" + "c") == "ab" + "c" && !Completes("ab", emitted, "c", "c")
  {
    OwnNameFindsAll(t, turn, Some(message), "c", "ab" + "c");
    hide EmittedBefore, Noted;
    OwnTextCompletes("ab", "c", "c");
    assert ("ab" + "c")[0] == 'a';
  }

  // ----- several messages without a name in one turn -----

  /** The condition under which a message without a name, after this much text of its turn, is told as it is:
      the first one, if its deltas begin its text; a later one, if all of it came in deltas and the text of
      the turn begins with it, or if no delta came and neither begins with the other. */
  predicate IsToldRight(before: string, said: string, text: string) {
    if before == "" then said <= text
    else (said == text && text <= before + text) || (said == "" && !(text <= before) && !(before <= text))
  }

  /** Two ways to fail: a later message that came whole in deltas and does not begin the text of the turn is
      told twice; one that came without deltas and begins the text of the turn is not told at all. */
  lemma UnnamedExactly(before: string, said: string, text: string)
    ensures said + ItemDelta(before + said, text) == text <==> IsToldRight(before, said, text)
    ensures before != "" && said == text != "" && !(text <= before + text) ==>
      said + ItemDelta(before + said, text) == text + text
    ensures before != "" && said == "" && text <= before ==> said + ItemDelta(before + said, text) == ""
  {
  }

  lemma LastIsNew(ids: seq<string>, last: string, seen: set<string>)
    requires NewIds(ids + [last], seen)
    ensures NewIds(ids, seen) && last !in ids && last !in seen
  {
    var all := ids + [last];
    assert forall i :: 0 <= i < |ids| ==> all[i] == ids[i];
    assert all[|ids|] == last;
  }

  /** The next message of a turn that comes without a name, in deltas and as a finished item, whatever came
      before it: the item is compared with all the text of the turn. What is told is the text of the message
      if and only if the condition holds. */
  method NextUnnamedMessage(m: Mapper, turn: string, deltas: seq<string>, ids: seq<string>, doneId: string,
                            text: string)
    returns (told: string)
    requires m.Valid() && turn != "" && |ids| == |deltas| && NewIds(ids + [doneId], m.seenItems)
    requires forall i :: 0 <= i < |deltas| ==> deltas[i] != ""
    modifies m
    ensures m.Valid()
    ensures
      var before, said := TextUnder(old(m.Emitted()).byTurn, turn), Concat(deltas);
      && told == said + ItemDelta(before + said, text)
      && (told == text <==> IsToldRight(before, said, text))
      && (before != "" && said == text != "" && !(text <= before + text) ==> told == text + text)
      && (before != "" && said == "" && text <= before ==> told == "")
    ensures TextUnder(m.Emitted().byTurn, turn) == TextUnder(old(m.Emitted()).byTurn, turn) + told
  {
    hide Concat, OnceEach, Contiguous, IsToldRight, ItemDelta, EmittedBefore, Noted, AfterItem, Completes;
    ghost var t := m.Emitted();
    var done := DoneOf(doneId, turn, MessageItem(None, text));
    LastIsNew(ids, doneId, m.seenItems);
    assert "" + text == text;
    ghost var said, emitted;
    told, said, emitted := DeltasThenItem(m, turn, None, deltas, ids, done, "", text);
    NoNameFindsTurn(t, turn, None, None, Concat(deltas), text);
    UnnamedExactly(TextUnder(t.byTurn, turn), Concat(deltas), text);
  }
}
