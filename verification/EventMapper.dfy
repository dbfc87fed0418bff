/** Mapping the raw events of a session stream to runtime events: text that history has already delivered is
    not repeated, and nothing is started, ended, called or answered twice. */
module EventMapper {
  import opened RecalledText
  import opened Wrappers

  // ----- events -----

  /** A finished output item. */
  datatype Item =
    | MessageItem(id: Option<string>, text: string)
    | CallItem(callId: Option<string>, name: Option<string>)
    | OutputItem(callId: Option<string>)
    | OtherItem

  /** The kinds of raw events: some are passed over altogether, and others are ignored but count as seen. */
  datatype RawKind =
    | PassedOver | Ignored | SessionCreated | TurnStarted | TextDelta | ItemDone | Completed | Cancelled | Incomplete
    | Failed
    | SessionStatus(failed: bool)

  /** What a reason for an incomplete response mentions; an interrupt counts before a timeout. */
  datatype Reason = Interrupt | Timeout | OtherReason

  datatype Raw = Raw(
    kind: RawKind, id: string, itemId: Option<string>, turn: Option<string>, alias: Option<string>,
    message: Option<string>, delta: string, item: Option<Item>, callId: Option<string>, reason: Reason)

  datatype Kind =
    | Created | Started | Text(delta: string) | ToolCall(callId: string, name: string) | ToolResult(callId: string)
    | TurnCompleted | TurnCancelled | TurnTimedOut | TurnFailed

  datatype Event = Event(sequence: int, turn: Option<string>, kind: Kind)

  /** What a new mapper is told about the past of the session. */
  datatype Past = Past(
    items: set<string>, started: set<string>, terminal: set<string>, calls: set<string>, results: set<string>,
    recall: Recall)

  // ----- what is said at most once -----

  datatype What = AStart | AnEnd | ACall | AResult

  /** The turn or call that an event is the one start, end, call or result of. */
  function Subject(e: Event, what: What): Option<string> {
    match what
    case AStart => if e.kind.Started? then e.turn else None
    case AnEnd =>
      if e.kind.TurnCompleted? || e.kind.TurnCancelled? || e.kind.TurnTimedOut? || e.kind.TurnFailed? then e.turn
      else None
    case ACall => if e.kind.ToolCall? then Some(e.kind.callId) else None
    case AResult => if e.kind.ToolResult? then Some(e.kind.callId) else None
  }

  /** No subject comes twice, none was known before, and all are known now. */
  ghost predicate OnceEach(log: seq<Event>, what: What, before: set<string>, now: set<string>) {
    && before <= now
    && (forall i :: 0 <= i < |log| && Subject(log[i], what).Some? ==> Subject(log[i], what).value in now - before)
    && (forall i, j :: 0 <= i < j < |log| && Subject(log[i], what).Some? ==>
         Subject(log[i], what) != Subject(log[j], what))
  }

  ghost predicate Contiguous(log: seq<Event>, start: int) {
    forall i :: 0 <= i < |log| ==> log[i].sequence == start + i
  }

  lemma OnceMore(log: seq<Event>, e: Event, what: What, before: set<string>, now: set<string>, later: set<string>)
    requires OnceEach(log, what, before, now)
    requires now <= later
      && (Subject(e, what).Some? ==> Subject(e, what).value in later && Subject(e, what).value !in now)
    ensures OnceEach(log + [e], what, before, later)
  {
  }

  lemma AllOnceMore(log: seq<Event>, e: Event, past: Past, s: set<string>, t: set<string>, c: set<string>,
                    r: set<string>, s': set<string>, t': set<string>, c': set<string>, r': set<string>)
    requires OnceEach(log, AStart, past.started, s) && OnceEach(log, AnEnd, past.terminal, t)
    requires OnceEach(log, ACall, past.calls, c) && OnceEach(log, AResult, past.results, r)
    requires s <= s' && (Subject(e, AStart).Some? ==> Subject(e, AStart).value in s' - s)
    requires t <= t' && (Subject(e, AnEnd).Some? ==> Subject(e, AnEnd).value in t' - t)
    requires c <= c' && (Subject(e, ACall).Some? ==> Subject(e, ACall).value in c' - c)
    requires r <= r' && (Subject(e, AResult).Some? ==> Subject(e, AResult).value in r' - r)
    ensures OnceEach(log + [e], AStart, past.started, s') && OnceEach(log + [e], AnEnd, past.terminal, t')
    ensures OnceEach(log + [e], ACall, past.calls, c') && OnceEach(log + [e], AResult, past.results, r')
  {
    hide OnceEach;
    OnceMore(log, e, AStart, past.started, s, s');
    OnceMore(log, e, AnEnd, past.terminal, t, t');
    OnceMore(log, e, ACall, past.calls, c, c');
    OnceMore(log, e, AResult, past.results, r, r');
  }

  lemma AllKnownMore(log: seq<Event>, past: Past, s: set<string>, t: set<string>, c: set<string>, r: set<string>,
                     t': set<string>)
    requires OnceEach(log, AnEnd, past.terminal, t) && t <= t'
    ensures OnceEach(log, AnEnd, past.terminal, t')
  {
  }

  /** Text and session events start, end, call and answer nothing. */
  lemma TextsAreNoSubjects(log: seq<Event>, events: seq<Event>, past: Past, s: set<string>, t: set<string>,
                           c: set<string>, r: set<string>)
    requires OnceEach(log, AStart, past.started, s) && OnceEach(log, AnEnd, past.terminal, t)
    requires OnceEach(log, ACall, past.calls, c) && OnceEach(log, AResult, past.results, r)
    requires |events| <= 1 && forall e :: e in events ==> e.kind.Text? || e.kind.Created?
    ensures OnceEach(log + events, AStart, past.started, s) && OnceEach(log + events, AnEnd, past.terminal, t)
    ensures OnceEach(log + events, ACall, past.calls, c) && OnceEach(log + events, AResult, past.results, r)
  {
    hide OnceEach;
    if events == [] {
      assert log + events == log;
    } else {
      assert events == [events[0]] && events[0] in events;
      AllOnceMore(log, events[0], past, s, t, c, r, s, t, c, r);
    }
  }

  ghost predicate NoneTwice(events: seq<Event>, what: What) {
    forall i, j :: 0 <= i < j < |events| && Subject(events[i], what).Some? ==>
      Subject(events[i], what) != Subject(events[j], what)
  }

  // ----- text of a finished item -----

  /** What a finished message adds to what was emitted of it. */
  function ItemDelta(emitted: string, text: string): string {
    if emitted <= text then text[|emitted|..] else if text <= emitted then "" else text
  }

  function TextUnder(texts: map<string, string>, key: string): string {
    if key in texts then texts[key] else ""
  }

  /** The position of an identifier, or the number of identifiers. */
  function IndexOf(ids: seq<string>, id: string): (i: nat)
    ensures i <= |ids| && (i < |ids| ==> ids[i] == id) && forall j :: 0 <= j < i ==> ids[j] != id
  {
    if ids == [] || ids[0] == id then 0 else 1 + IndexOf(ids[1..], id)
  }

  /** The first pending message whose text and the finished text begin alike. */
  function Correlated(ids: seq<string>, texts: map<string, string>, text: string): (i: nat)
    ensures i <= |ids|
    ensures i < |ids| ==>
      TextUnder(texts, ids[i]) != "" && (TextUnder(texts, ids[i]) <= text || text <= TextUnder(texts, ids[i]))
    ensures forall j :: 0 <= j < i ==>
      TextUnder(texts, ids[j]) == "" || !(TextUnder(texts, ids[j]) <= text || text <= TextUnder(texts, ids[j]))
  {
    if ids == [] then 0
    else
      var t := TextUnder(texts, ids[0]);
      if t != "" && (t <= text || text <= t) then 0 else 1 + Correlated(ids[1..], texts, text)
  }

  function TextsOf(events: seq<Event>): string {
    if events == [] then ""
    else
      var last := events[|events| - 1];
      TextsOf(events[..|events| - 1]) + if last.kind.Text? then last.kind.delta else ""
  }

  /** What was emitted: under each message, in each turn, in each turn without a message; and by turn the messages
      that no finished item has been taken for. */
  datatype Texts = Texts(byMessage: map<string, string>, byTurn: map<string, string>, loose: map<string, string>,
                         pending: map<string, seq<string>>)

  function AddedUnder(texts: map<string, string>, key: Option<string>, text: string): map<string, string> {
    if Given(key) then texts[key.value := TextUnder(texts, key.value) + text] else texts
  }

  function PendingOf(pending: map<string, seq<string>>, turn: string): seq<string> {
    if turn in pending then pending[turn] else []
  }

  function WithPending(pending: map<string, seq<string>>, turn: string, message: string): map<string, seq<string>> {
    var ids := PendingOf(pending, turn);
    if message in ids then pending else pending[turn := ids + [message]]
  }

  function PendingAfter(pending: map<string, seq<string>>, turn: Option<string>,
                        message: Option<string>): map<string, seq<string>>
  {
    if Given(message) && Given(turn) then WithPending(pending, turn.value, message.value) else pending
  }

  /** The text of a delta is noted under its message and its turn, or as text without a message. */
  function Note(t: Texts, turn: Option<string>, message: Option<string>, text: string): Texts {
    Texts(
      AddedUnder(t.byMessage, message, text), AddedUnder(t.byTurn, turn, text),
      AddedUnder(t.loose, if Given(message) then None else turn, text), PendingAfter(t.pending, turn, message))
  }

  /** The pending message that a finished message is taken for: the one of its name, when something was emitted
      under that name, or else one that begins alike. */
  function PendingIndex(t: Texts, turn: string, id: Option<string>, text: string): (i: nat)
    ensures i <= |PendingOf(t.pending, turn)|
  {
    var ids := PendingOf(t.pending, turn);
    if Given(id) && id.value in t.byMessage then IndexOf(ids, id.value) else Correlated(ids, t.byMessage, text)
  }

  /** What was emitted of a finished message before it came: under its own name, under the name of a pending
      message that begins alike, or in the turn without a name; for a message without a name, in the turn. */
  function EmittedBefore(t: Texts, turn: string, id: Option<string>, text: string): string {
    var ids := PendingOf(t.pending, turn);
    var i := PendingIndex(t, turn, id, text);
    if !Given(id) then TextUnder(t.byTurn, turn)
    else if id.value in t.byMessage then t.byMessage[id.value]
    else if i < |ids| then TextUnder(t.byMessage, ids[i])
    else TextUnder(t.loose, turn)
  }

  /** The notes once a finished message has been taken. */
  function AfterItem(t: Texts, turn: string, id: Option<string>, text: string): Texts {
    var ids := PendingOf(t.pending, turn);
    var i := PendingIndex(t, turn, id, text);
    var delta := ItemDelta(EmittedBefore(t, turn, id, text), text);
    if text == "" then t
    else
      Texts(
        if Given(id) then t.byMessage[id.value := text] else t.byMessage,
        if delta == "" then t.byTurn else AddedUnder(t.byTurn, Some(turn), delta),
        if Given(id) then t.loose - {turn} else t.loose,
        if i < |ids| then WithList(t.pending, turn, ids[..i] + ids[i + 1..]) else t.pending)
  }

  /** A finished message of a turn. */
  predicate IsMessage(raw: Raw) {
    raw.item.Some? && raw.item.value.MessageItem? && Given(raw.turn)
  }

  predicate CarriesText(raw: Raw) {
    raw.kind.TextDelta? || (raw.kind.ItemDone? && IsMessage(raw))
  }

  function AfterMessage(t: Texts, raw: Raw): Texts
    requires IsMessage(raw)
  {
    AfterItem(t, raw.turn.value, raw.item.value.id, raw.item.value.text)
  }

  /** What a finished message adds. */
  function AddedBy(t: Texts, raw: Raw): string
    requires IsMessage(raw)
  {
    var text := raw.item.value.text;
    ItemDelta(EmittedBefore(t, raw.turn.value, raw.item.value.id, text), text)
  }

  /** The text that a raw delta adds. */
  function ToldBy(r: Recall, raw: Raw): string {
    if Given(raw.message) then FreshText(Remaining(r, raw.turn, raw.message.value, raw.delta), raw.delta) else raw.delta
  }

  /** The raw delta gives no event: history has delivered all of it, or it has no text and the history none left. */
  predicate IsSilent(r: Recall, raw: Raw) {
    && Given(raw.message) && ToldBy(r, raw) == ""
    && (raw.delta != "" || Remaining(r, raw.turn, raw.message.value, raw.delta) == Some(""))
  }

  function RecallAfter(r: Recall, raw: Raw): Recall {
    if Given(raw.message) then AfterDelta(r, raw.turn, raw.message.value, raw.delta) else r
  }

  lemma RecallParts(r: Recall, turn: Option<string>, message: string, delta: string)
    ensures AfterDelta(r, turn, message, delta).texts ==
      WithText(r.texts, message, LeftOver(Remaining(r, turn, message, delta), delta))
  {
  }

  lemma NoText()
    ensures TextsOf([]) == ""
  {
  }

  lemma NothingToAdd(emitted: string)
    ensures ItemDelta(emitted, "") == ""
  {
  }

  lemma OneText(e: Event)
    ensures TextsOf([e]) == if e.kind.Text? then e.kind.delta else ""
  {
    assert [e][..0] == [];
  }

  lemma DropThenSet(texts: map<string, string>, message: string, r: string)
    ensures forall left :: WithText(texts[message := r], message, left) == WithText(texts, message, left)
  {
  }

  lemma NothingToDrop(r: Recall, turn: Option<string>, message: string, delta: string)
    ensures Remaining(r, turn, message, delta).None? ==> WithText(r.texts, message, None) == r.texts
  {
  }

  // ----- what becomes of a raw event -----

  /** How a raw event ends its turn. */
  function EndOf(raw: Raw): Option<Kind> {
    match raw.kind
    case Completed => Some(TurnCompleted)
    case Cancelled => Some(TurnCancelled)
    case Incomplete =>
      Some(if raw.reason == Interrupt then TurnCancelled
           else if raw.reason == Timeout then TurnTimedOut
           else TurnFailed)
    case Failed => Some(TurnFailed)
    case SessionStatus(failed) => if failed then Some(TurnFailed) else None
    case _ => None
  }

  /** What a finished tool call or its result gives. */
  function ToolEvents(raw: Raw, calls: set<string>, results: set<string>, next: int): seq<Event> {
    if raw.item.None? || !Given(raw.turn) then []
    else
      match raw.item.value
      case CallItem(own, name) =>
        var callId := if own.Some? then own else raw.callId;
        if Given(callId) && Given(name) && callId.value !in calls
        then [Event(next, raw.turn, ToolCall(callId.value, name.value))]
        else []
      case OutputItem(own) =>
        var callId := if own.Some? then own else raw.callId;
        if Given(callId) && callId.value !in results then [Event(next, raw.turn, ToolResult(callId.value))] else []
      case _ => []
  }

  /** The turn has not ended, under either of its names. */
  predicate Ends(raw: Raw, terminal: set<string>) {
    Given(raw.turn) && raw.turn.value !in terminal && !(raw.alias.Some? && raw.alias.value in terminal)
  }

  function StartOf(raw: Raw, started: set<string>, next: int): seq<Event> {
    if Given(raw.turn) && raw.turn.value !in started then [Event(next, raw.turn, Started)] else []
  }

  function ItemKey(raw: Raw): string {
    if raw.itemId.Some? then raw.itemId.value else raw.id
  }

  /** What counts as seen once the raw event has come: its item, or else the event itself, unless it has no name
      or is an item of the history. */
  function SeenAfter(seen: set<string>, past: Past, raw: Raw): set<string> {
    if raw.kind.PassedOver? then seen
    else
      match raw.itemId
      case Some(id) => if id == "" || id in past.items then seen else seen + {id}
      case None => if raw.id == "" then seen else seen + {raw.id}
  }

  /** The raw event counts: its item is not one of the history and was not seen before, or it has none and was not
      seen itself; what has no name counts always. */
  predicate IsNew(seen: set<string>, past: Past, raw: Raw) {
    && !raw.kind.PassedOver?
    && match raw.itemId
       case Some(id) => id == "" || (id !in past.items && id !in seen)
       case None => raw.id == "" || raw.id !in seen
  }

  /** A raw event of this kind and with this reason ends its turn in this way. */
  predicate EndsAs(raw: Raw, kind: Kind) {
    match kind
    case TurnCompleted => raw.kind == Completed
    case TurnCancelled => raw.kind == Cancelled || (raw.kind == Incomplete && raw.reason == Interrupt)
    case TurnTimedOut => raw.kind == Incomplete && raw.reason == Timeout
    case TurnFailed =>
      raw.kind == Failed || raw.kind == SessionStatus(true) || (raw.kind == Incomplete && raw.reason == OtherReason)
    case _ => false
  }

  lemma EndIsRight(raw: Raw)
    ensures forall kind :: EndsAs(raw, kind) <==> EndOf(raw) == Some(kind)
  {
  }

  lemma EndKinds(raw: Raw)
    ensures EndOf(raw).Some? ==>
      !raw.kind.TextDelta? && !raw.kind.ItemDone? && !raw.kind.TurnStarted? && !raw.kind.SessionCreated?
        && !raw.kind.PassedOver?
  {
  }

  /** The one event that a raw event of a turn gives that has not come before, if any: the turn starts, or ends in
      some way, or a call is made or answered. */
  predicate Gives(raw: Raw, started: set<string>, terminal: set<string>, calls: set<string>, results: set<string>,
                  kind: Kind)
  {
    Given(raw.turn)
    && match kind
       case Started => raw.kind == TurnStarted && raw.turn.value !in started
       case ToolCall(callId, name) =>
         && raw.kind == ItemDone && raw.item.Some? && raw.item.value.CallItem?
         && (if raw.item.value.callId == None then raw.callId else raw.item.value.callId) == Some(callId)
         && raw.item.value.name == Some(name) && callId != "" && name != "" && callId !in calls
       case ToolResult(callId) =>
         && raw.kind == ItemDone && raw.item.Some? && raw.item.value.OutputItem?
         && (if raw.item.value.callId == None then raw.callId else raw.item.value.callId) == Some(callId)
         && callId != "" && callId !in results
       case _ => EndsAs(raw, kind) && raw.turn.value !in terminal && (raw.alias.Some? ==> raw.alias.value !in terminal)
  }

  /** Exactly those events of the turn are given that the raw event gives. */
  ghost predicate GivesExactly(raw: Raw, started: set<string>, terminal: set<string>, calls: set<string>,
                               results: set<string>, next: int, events: seq<Event>)
  {
    && (forall kind :: Gives(raw, started, terminal, calls, results, kind) ==> events == [Event(next, raw.turn, kind)])
    && (events == [] || raw.kind.SessionCreated?
        || exists kind :: Gives(raw, started, terminal, calls, results, kind))
  }

  lemma GivenExactly(raw: Raw, started: set<string>, terminal: set<string>, calls: set<string>, results: set<string>,
                     next: int, events: seq<Event>)
    requires !CarriesText(raw) && |events| <= 1
    requires raw.kind.ItemDone? ==> events == ToolEvents(raw, calls, results, next)
    requires raw.kind.TurnStarted? ==> events == StartOf(raw, started, next)
    requires EndOf(raw).Some? ==>
      events == if Ends(raw, terminal) then [Event(next, raw.turn, EndOf(raw).value)] else []
    requires !raw.kind.ItemDone? && !raw.kind.TurnStarted? && !raw.kind.SessionCreated? && EndOf(raw).None? ==>
      events == []
    ensures GivesExactly(raw, started, terminal, calls, results, next, events)
  {
    EndIsRight(raw);
    if events != [] {
      assert Gives(raw, started, terminal, calls, results, events[0].kind) || raw.kind.SessionCreated?;
    }
    hide EndsAs;
  }

  class Mapper {
    var seenItems: set<string>
    var started: set<string>
    var terminal: set<string>
    var calls: set<string>
    var results: set<string>
    var recall: Recall
    var textByMessage: map<string, string>
    var textByTurn: map<string, string>
    var looseText: map<string, string>
    var pendingMessages: map<string, seq<string>>
    var sessionCreated: bool
    var next: int
    const past: Past
    const legacy: bool
    const start: int
    /** Everything emitted so far. */
    ghost var log: seq<Event>

    constructor (past: Past, legacy: bool, start: int)
      ensures Valid() && log == [] && this.past == past && this.start == start && recall == past.recall
      ensures !sessionCreated && seenItems == past.items && Emitted() == Texts(map[], map[], map[], map[])
    {
      this.past, this.legacy, this.start := past, legacy, start;
      seenItems, started, terminal, calls, results, recall :=
        past.items, past.started, past.terminal, past.calls, past.results, past.recall;
      textByMessage, textByTurn, looseText, pendingMessages := map[], map[], map[], map[];
      sessionCreated, next, log := false, start, [];
    }

    /** What was emitted, as the finished messages will find it. */
    function Emitted(): Texts
      reads this
    {
      Texts(textByMessage, textByTurn, looseText, pendingMessages)
    }

    ghost predicate Valid()
      reads this
    {
      && Contiguous(log, start) && next == start + |log|
      && OnceEach(log, AStart, past.started, started) && OnceEach(log, AnEnd, past.terminal, terminal)
      && OnceEach(log, ACall, past.calls, calls) && OnceEach(log, AResult, past.results, results)
    }

    /** createEvent. */
    method Emit(turn: Option<string>, kind: Kind) returns (events: seq<Event>)
      requires Contiguous(log, start) && next == start + |log|
      modifies `next, `log
      ensures events == [Event(old(next), turn, kind)] && log == old(log) + events
      ensures Contiguous(log, start) && next == start + |log|
    {
      events := [Event(next, turn, kind)];
      next, log := next + 1, log + events;
    }

    // ----- text -----

    /** The history of a message as a delta finds it; a message of the history that the delta claims is no
        longer left for others. */
    method TakeRemaining(turn: Option<string>, message: string, delta: string) returns (remaining: Option<string>)
      modifies `recall
      ensures remaining == Remaining(old(recall), turn, message, delta)
      ensures recall.messages == AfterDelta(old(recall), turn, message, delta).messages
      ensures recall.texts ==
        if remaining.Some? then old(recall).texts[message := remaining.value]
        else old(recall).texts
    {
      remaining := if message in recall.texts then Some(recall.texts[message]) else None;
      var messages := MessagesOf(recall, turn);
      var i := Claimed(messages, message, delta);
      if i < |messages| {
        recall := recall.(messages := WithList(recall.messages, turn.value, messages[..i] + messages[i + 1..]));
        if remaining.None? {
          remaining := Some(messages[i].text);
          recall := recall.(texts := recall.texts[message := messages[i].text]);
        }
      }
      if remaining.Some? {
        assert recall.texts == old(recall).texts[message := remaining.value];
      }
    }

    /** The first half of mapTextDelta: what history has delivered is skipped. */
    method SkipHistory(turn: Option<string>, message: string, delta: string) returns (told: string, silent: bool)
      modifies `recall
      ensures told == FreshText(Remaining(old(recall), turn, message, delta), delta)
      ensures silent <==> told == "" && (delta != "" || Remaining(old(recall), turn, message, delta) == Some(""))
      ensures recall == AfterDelta(old(recall), turn, message, delta)
    {
      ghost var before := recall;
      var remaining := TakeRemaining(turn, message, delta);
      RecallParts(before, turn, message, delta);
      hide Remaining, AfterDelta, OccursOnlyAtEnd;
      told, silent := delta, false;
      if remaining.Some? {
        var r := remaining.value;
        ghost var texts := recall.texts;
        DropThenSet(before.texts, message, r);
        if delta != "" && delta <= r {
          var left := if |delta| < |r| then Some(r[|delta|..]) else None;
          recall := recall.(texts := WithText(recall.texts, message, left));
          return "", true;
        }
        recall := recall.(texts := WithText(recall.texts, message, None));
        if delta != "" && OccursOnlyAtEnd(r, delta) {
          return "", true;
        }
        if r <= delta {
          told := delta[|r|..];
          silent := told == "";
        }
      } else {
        NothingToDrop(before, turn, message, delta);
      }
    }

    /** The second half of mapTextDelta: the text is noted for the finished item. */
    method NoteText(turn: Option<string>, message: Option<string>, delta: string)
      modifies `textByMessage, `textByTurn, `looseText, `pendingMessages
      ensures Emitted() == Note(old(Emitted()), turn, message, delta)
    {
      if Given(message) {
        textByMessage := textByMessage[message.value := TextUnder(textByMessage, message.value) + delta];
        if Given(turn) {
          pendingMessages := WithPending(pendingMessages, turn.value, message.value);
        }
      }
      if Given(turn) {
        textByTurn := textByTurn[turn.value := TextUnder(textByTurn, turn.value) + delta];
        if !Given(message) {
          looseText := looseText[turn.value := TextUnder(looseText, turn.value) + delta];
        }
      }
    }

    /** mapTextDelta: what history has not delivered goes out, and is noted for the finished item. */
    method MapTextDelta(raw: Raw) returns (events: seq<Event>)
      requires Contiguous(log, start) && next == start + |log|
      modifies `recall, `textByMessage, `textByTurn, `looseText, `pendingMessages, `next, `log
      ensures Contiguous(log, start) && next == start + |log| && log == old(log) + events
      ensures |events| <= 1 && forall e :: e in events ==> e.kind.Text? && e.turn == raw.turn
      ensures TextsOf(events) == ToldBy(old(recall), raw) && recall == RecallAfter(old(recall), raw)
      ensures (events == [] ==> TextsOf(events) == "") && (raw.delta != "" && TextsOf(events) == "" ==> events == [])
      ensures events == [] <==> IsSilent(old(recall), raw)
      ensures Emitted() ==
        if events == [] then old(Emitted()) else Note(old(Emitted()), raw.turn, raw.message, TextsOf(events))
    {
      hide Note, AfterDelta, Remaining, FreshText;
      NoText();
      var told := raw.delta;
      if Given(raw.message) {
        var silent;
        told, silent := SkipHistory(raw.turn, raw.message.value, raw.delta);
        if silent {
          return [];
        }
      }
      NoteText(raw.turn, raw.message, told);
      events := Emit(raw.turn, Text(told));
      OneText(events[0]);
    }

    /** What was emitted of a finished message before it came; the pending message that it is taken for is no
        longer left for others. */
    method TakePending(turn: string, id: Option<string>, text: string) returns (emitted: string)
      modifies `pendingMessages
      ensures emitted == EmittedBefore(old(Emitted()), turn, id, text)
      ensures
        var ids, i := PendingOf(old(pendingMessages), turn), PendingIndex(old(Emitted()), turn, id, text);
        pendingMessages ==
          if i < |ids| then WithList(old(pendingMessages), turn, ids[..i] + ids[i + 1..]) else old(pendingMessages)
    {
      var ids := PendingOf(pendingMessages, turn);
      var direct := Given(id) && id.value in textByMessage;
      var i := if direct then IndexOf(ids, id.value) else Correlated(ids, textByMessage, text);
      emitted := if !Given(id) then TextUnder(textByTurn, turn)
                 else if direct then textByMessage[id.value]
                 else if i < |ids| then TextUnder(textByMessage, ids[i])
                 else TextUnder(looseText, turn);
      if i < |ids| {
        pendingMessages := WithList(pendingMessages, turn, ids[..i] + ids[i + 1..]);
      }
    }

    /** The message branch of mapOutputItem: what the deltas have not brought of the finished text. */
    method MapMessage(turn: string, id: Option<string>, text: string) returns (events: seq<Event>)
      requires turn != "" && Contiguous(log, start) && next == start + |log|
      modifies `textByMessage, `textByTurn, `looseText, `pendingMessages, `next, `log
      ensures Contiguous(log, start) && next == start + |log| && log == old(log) + events
      ensures |events| <= 1 && forall e :: e in events ==> e.kind.Text? && e.turn == Some(turn)
      ensures TextsOf(events) == ItemDelta(EmittedBefore(old(Emitted()), turn, id, text), text)
      ensures events != [] <==> TextsOf(events) != ""
      ensures Emitted() == AfterItem(old(Emitted()), turn, id, text)
    {
      hide EmittedBefore, ItemDelta, PendingIndex, Contiguous, TextsOf;
      NoText();
      if text == "" {
        NothingToAdd(EmittedBefore(Emitted(), turn, id, text));
        return [];
      }
      var emitted := TakePending(turn, id, text);
      var delta := ItemDelta(emitted, text);
      if Given(id) {
        textByMessage := textByMessage[id.value := text];
        looseText := looseText - {turn};
      }
      if delta == "" {
        return [];
      }
      textByTurn := textByTurn[turn := TextUnder(textByTurn, turn) + delta];
      events := Emit(Some(turn), Text(delta));
      OneText(events[0]);
    }

    // ----- what is said at most once -----

    method MapCall(turn: Option<string>, callId: Option<string>, name: Option<string>) returns (events: seq<Event>)
      requires Valid()
      modifies `calls, `next, `log
      ensures Valid() && log == old(log) + events && TextsOf(events) == ""
      ensures events ==
        if Given(callId) && Given(name) && callId.value !in old(calls)
        then [Event(old(next), turn, ToolCall(callId.value, name.value))]
        else []
    {
      if !Given(callId) || !Given(name) || callId.value in calls {
        return [];
      }
      var e := Event(next, turn, ToolCall(callId.value, name.value));
      AllOnceMore(log, e, past, started, terminal, calls, results, started, terminal, calls + {callId.value}, results);
      calls := calls + {callId.value};
      events := Emit(turn, ToolCall(callId.value, name.value));
      OneText(e);
    }

    method MapResult(turn: Option<string>, callId: Option<string>) returns (events: seq<Event>)
      requires Valid()
      modifies `results, `next, `log
      ensures Valid() && log == old(log) + events && TextsOf(events) == ""
      ensures events ==
        if Given(callId) && callId.value !in old(results) then [Event(old(next), turn, ToolResult(callId.value))]
        else []
    {
      if !Given(callId) || callId.value in results {
        return [];
      }
      var e := Event(next, turn, ToolResult(callId.value));
      AllOnceMore(log, e, past, started, terminal, calls, results, started, terminal, calls, results + {callId.value});
      results := results + {callId.value};
      events := Emit(turn, ToolResult(callId.value));
      OneText(e);
    }

    method MapStart(turn: Option<string>) returns (events: seq<Event>)
      requires Valid()
      modifies `started, `next, `log
      ensures Valid() && log == old(log) + events && TextsOf(events) == ""
      ensures events == if Given(turn) && turn.value !in old(started) then [Event(old(next), turn, Started)] else []
    {
      if !Given(turn) || turn.value in started {
        return [];
      }
      var e := Event(next, turn, Started);
      AllOnceMore(log, e, past, started, terminal, calls, results, started + {turn.value}, terminal, calls, results);
      started := started + {turn.value};
      events := Emit(turn, Started);
      OneText(e);
    }

    /** mapTerminalEvent and mapFailedEvent: a turn ends once, under either of its names. */
    method MapEnd(turn: Option<string>, alias: Option<string>, kind: Kind) returns (events: seq<Event>)
      requires Valid() && (kind.TurnCompleted? || kind.TurnCancelled? || kind.TurnTimedOut? || kind.TurnFailed?)
      modifies `terminal, `next, `log
      ensures Valid() && log == old(log) + events && TextsOf(events) == ""
      ensures terminal == if Given(turn) then old(terminal) + {turn.value} else old(terminal)
      ensures events ==
        if Given(turn) && turn.value !in old(terminal) && !(alias.Some? && alias.value in old(terminal))
        then [Event(old(next), turn, kind)]
        else []
    {
      if !Given(turn) {
        return [];
      }
      var ended := turn.value in terminal || (alias.Some? && alias.value in terminal);
      if ended {
        AllKnownMore(log, past, started, terminal, calls, results, terminal + {turn.value});
        terminal := terminal + {turn.value};
        return [];
      }
      var e := Event(next, turn, kind);
      AllOnceMore(log, e, past, started, terminal, calls, results, started, terminal + {turn.value}, calls, results);
      terminal := terminal + {turn.value};
      events := Emit(turn, kind);
      OneText(e);
    }

    /** mapOutputItem. */
    method MapOutputItem(raw: Raw) returns (events: seq<Event>)
      requires Valid()
      modifies `textByMessage, `textByTurn, `looseText, `pendingMessages, `calls, `results, `next, `log
      ensures !IsMessage(raw) ==>
        events == ToolEvents(raw, old(calls), old(results), old(next))
      ensures Valid() && log == old(log) + events && |events| <= 1
      ensures IsMessage(raw) ==>
        TextsOf(events) == AddedBy(old(Emitted()), raw) && Emitted() == AfterMessage(old(Emitted()), raw)
      ensures !IsMessage(raw) ==> Emitted() == old(Emitted())
    {
      hide AfterItem, EmittedBefore, ItemDelta;
      if raw.item.None? || !Given(raw.turn) {
        return [];
      }
      match raw.item.value
      case MessageItem(id, text) =>
        ghost var before := log;
        events := MapMessage(raw.turn.value, id, text);
        TextsAreNoSubjects(before, events, past, started, terminal, calls, results);
      case CallItem(callId, name) =>
        events := MapCall(raw.turn, if callId.Some? then callId else raw.callId, name);
      case OutputItem(callId) =>
        events := MapResult(raw.turn, if callId.Some? then callId else raw.callId);
      case OtherItem =>
        events := [];
    }

    // ----- map -----

    /** The branches of map that concern the session and the turn as a whole. */
    method MapControl(raw: Raw) returns (events: seq<Event>)
      requires Valid() && !raw.kind.TextDelta? && !raw.kind.ItemDone?
      modifies `sessionCreated, `started, `terminal, `next, `log
      ensures Valid() && log == old(log) + events && |events| <= 1
      ensures raw.kind.TurnStarted? ==> events == StartOf(raw, old(started), old(next))
      ensures EndOf(raw).Some? ==>
        events == if Ends(raw, old(terminal)) then [Event(old(next), raw.turn, EndOf(raw).value)] else []
      ensures raw.kind.SessionCreated? ==>
        events == if legacy && !old(sessionCreated) then [Event(old(next), None, Created)] else []
      ensures sessionCreated == (old(sessionCreated) || (raw.kind.SessionCreated? && legacy))
      ensures !raw.kind.TurnStarted? && !raw.kind.SessionCreated? && EndOf(raw).None? ==> events == []
    {
      hide OnceEach;
      events := [];
      if raw.kind.SessionCreated? {
        if legacy && !sessionCreated {
          sessionCreated := true;
          ghost var before := log;
          events := Emit(None, Created);
          TextsAreNoSubjects(before, events, past, started, terminal, calls, results);
        }
      } else if raw.kind.TurnStarted? {
        events := MapStart(raw.turn);
      } else if EndOf(raw).Some? {
        events := MapEnd(raw.turn, raw.alias, EndOf(raw).value);
      }
    }

    /** map: nothing for an item that is known; at most one event for any other, and exactly the one that it
        gives. */
    method Map(raw: Raw) returns (events: seq<Event>)
      requires Valid()
      modifies this
      ensures Valid() && log == old(log) + events && |events| <= 1
      ensures !IsNew(old(seenItems), past, raw) ==> events == []
      ensures !IsNew(old(seenItems), past, raw) || !raw.kind.TextDelta? ==> recall == old(recall)
      ensures seenItems == SeenAfter(old(seenItems), past, raw)
      ensures raw.kind.TextDelta? && IsNew(old(seenItems), past, raw) ==>
        && TextsOf(events) == ToldBy(old(recall), raw) && recall == RecallAfter(old(recall), raw)
        && (raw.delta != "" && TextsOf(events) == "" ==> events == []) && (events == [] <==> IsSilent(old(recall), raw))
        && Emitted() ==
             if events == [] then old(Emitted()) else Note(old(Emitted()), raw.turn, raw.message, TextsOf(events))
      ensures raw.kind.ItemDone? && IsNew(old(seenItems), past, raw) && !IsMessage(raw) ==>
        events == ToolEvents(raw, old(calls), old(results), old(next))
      ensures raw.kind.TurnStarted? && IsNew(old(seenItems), past, raw) ==>
        events == StartOf(raw, old(started), old(next))
      ensures EndOf(raw).Some? && IsNew(old(seenItems), past, raw) ==>
        events == if Ends(raw, old(terminal)) then [Event(old(next), raw.turn, EndOf(raw).value)] else []
      ensures raw.kind.ItemDone? && IsNew(old(seenItems), past, raw) && IsMessage(raw) ==>
        TextsOf(events) == AddedBy(old(Emitted()), raw) && Emitted() == AfterMessage(old(Emitted()), raw)
      ensures !IsNew(old(seenItems), past, raw) || !CarriesText(raw) ==> Emitted() == old(Emitted())
      ensures IsNew(old(seenItems), past, raw) && !CarriesText(raw) ==>
        GivesExactly(raw, old(started), old(terminal), old(calls), old(results), old(next), events)
      ensures IsNew(old(seenItems), past, raw) && raw.kind.SessionCreated? ==>
        events == if legacy && !old(sessionCreated) then [Event(old(next), None, Created)] else []
      ensures sessionCreated ==
        (old(sessionCreated) || (IsNew(old(seenItems), past, raw) && raw.kind.SessionCreated? && legacy))
    {
      hide OnceEach, IsSilent, ToldBy, RecallAfter, Note, AddedBy, AfterMessage, ToolEvents, GivesExactly, StartOf;
      hide Ends, EndOf;
      EndKinds(raw);
      events := [];
      if raw.kind.PassedOver? {
        return;
      }
      if Given(raw.itemId) && raw.itemId.value in past.items {
        return;
      }
      var key := ItemKey(raw);
      if key != "" && key in seenItems {
        return;
      }
      if key != "" {
        seenItems := seenItems + {key};
      }
      if raw.kind.TextDelta? {
        ghost var before := log;
        events := MapTextDelta(raw);
        TextsAreNoSubjects(before, events, past, started, terminal, calls, results);
      } else if raw.kind.ItemDone? {
        events := MapOutputItem(raw);
      } else {
        events := MapControl(raw);
      }
      if !CarriesText(raw) {
        GivenExactly(raw, old(started), old(terminal), old(calls), old(results), old(next), events);
      }
    }

    /** mapOmnigentEventSequence: over any stream the sequence numbers are contiguous, and no turn starts or
        ends twice, and no call is made or answered twice. */
    method MapAll(raws: seq<Raw>) returns (events: seq<Event>)
      requires Valid() && log == []
      modifies this
      ensures Valid() && log == events
      ensures Contiguous(events, start)
      ensures forall what :: NoneTwice(events, what)
    {
      events := [];
      var n := 0;
      while n < |raws|
        invariant n <= |raws| && Valid() && log == events
      {
        var more := Map(raws[n]);
        events := events + more;
        n := n + 1;
      }
    }
  }
}
