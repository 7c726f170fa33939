/**
 * The transport object: framing buffer, reply text of the current prompt, and the table
 * of requests that wait for a response, driven by data, timers, cancellations and close.
 */
module AcpTransport {
  import opened Prelude
  import opened JsText
  import opened AcpFraming

  const MAX_BUFFER := 0x10_0000
  const MAX_SESSION_TEXT := 0x1_0000

  datatype Id = Absent | Null | Number(n: int) | Text(s: string)

  /** A parsed frame: which members it has, and the text of a streamed reply chunk. */
  datatype Message = Message(hasMethod: bool, id: Id, isError: bool, replyText: string)

  datatype Outcome = Resolved | Rejected | TimedOut | Cancelled | WriteFailed

  datatype Settlement = Settlement(id: nat, outcome: Outcome)

  /** The observable state of the connection. */
  datatype Conn = Conn(
    buffer: string,
    sessionText: string,
    lastId: nat,
    pending: set<nat>,
    timers: set<nat>,             // the request timers that are running
    settled: seq<Settlement>,     // history of the requests that were settled
    refused: seq<Id>,             // agent requests that were answered "not supported"
    texts: seq<string>)           // history of the reply chunks since the last reset

  /** What JSON.parse makes of a frame; None when it throws. */
  type Parser = string -> Option<Message>

  function Concat(texts: seq<string>): string {
    if texts == [] then "" else Concat(texts[..|texts| - 1]) + texts[|texts| - 1]
  }

  function Take(s: string, n: nat): string {
    if |s| <= n then s else s[..n]
  }

  function AppendSessionText(sessionText: string, text: string): string {
    if |sessionText| < MAX_SESSION_TEXT then sessionText + Take(text, MAX_SESSION_TEXT - |sessionText|) else sessionText
  }

  /** Every site that settles a request drops it from the table and clears its timer. */
  function Settle(c: Conn, id: nat, outcome: Outcome): Conn {
    c.(pending := c.pending - {id}, timers := c.timers - {id}, settled := c.settled + [Settlement(id, outcome)])
  }

  /** An agent request is refused, a response settles its request, an update extends the reply. */
  function Handle(c: Conn, m: Message): Conn {
    if m.hasMethod && !m.id.Absent? && !m.id.Null? then c.(refused := c.refused + [m.id])
    else if m.id.Number? && !m.hasMethod then
      if m.id.n >= 0 && m.id.n as nat in c.pending then Settle(c, m.id.n, if m.isError then Rejected else Resolved)
      else c
    else if m.hasMethod && m.replyText != "" then
      c.(sessionText := AppendSessionText(c.sessionText, m.replyText), texts := c.texts + [m.replyText])
    else c
  }

  /** Blank, oversized and unparseable lines are dropped. */
  function HandleLine(c: Conn, parse: Parser, line: string): Conn {
    if Trim(line) == "" || |line| > MAX_BUFFER then c
    else match parse(line) case None => c case Some(m) => Handle(c, m)
  }

  function HandleLines(c: Conn, parse: Parser, lines: seq<string>): Conn {
    if lines == [] then c
    else HandleLine(HandleLines(c, parse, lines[..|lines| - 1]), parse, lines[|lines| - 1])
  }

  function Receive(c: Conn, parse: Parser, chunk: string): Conn {
    var f := Feed(c.buffer, chunk, MAX_BUFFER);
    HandleLines(c.(buffer := f.rest), parse, f.lines)
  }

  function ReceiveAll(c: Conn, parse: Parser, chunks: seq<string>): Conn
    decreases |chunks|
  {
    if chunks == [] then c else ReceiveAll(Receive(c, parse, chunks[0]), parse, chunks[1..])
  }

  // ---- Chunk independence of the whole transport ----

  lemma MessageKeepsBuffer(c: Conn, m: Message, b: string)
    ensures Handle(c.(buffer := b), m) == Handle(c, m).(buffer := b)
    ensures Handle(c, m).buffer == c.buffer
  {
  }

  lemma LineKeepsBuffer(c: Conn, parse: Parser, line: string, b: string)
    ensures HandleLine(c.(buffer := b), parse, line) == HandleLine(c, parse, line).(buffer := b)
    ensures HandleLine(c, parse, line).buffer == c.buffer
  {
    var m := parse(line);
    if m.Some? {
      MessageKeepsBuffer(c, m.value, b);
    }
  }

  lemma {:induction false} HandleKeepsBuffer(c: Conn, parse: Parser, lines: seq<string>, b: string)
    ensures HandleLines(c.(buffer := b), parse, lines) == HandleLines(c, parse, lines).(buffer := b)
    ensures HandleLines(c, parse, lines).buffer == c.buffer
  {
    if lines == [] {
    } else {
      var init := lines[..|lines| - 1];
      HandleKeepsBuffer(c, parse, init, b);
      LineKeepsBuffer(HandleLines(c, parse, init), parse, lines[|lines| - 1], b);
    }
  }

  lemma {:induction false} HandleConcat(c: Conn, parse: Parser, xs: seq<string>, ys: seq<string>)
    ensures HandleLines(c, parse, xs + ys) == HandleLines(HandleLines(c, parse, xs), parse, ys)
  {
    if ys == [] {
      assert xs + ys == xs;
    } else {
      assert (xs + ys)[..|xs + ys| - 1] == xs + ys[..|ys| - 1];
      HandleConcat(c, parse, xs, ys[..|ys| - 1]);
    }
  }

  /** Receiving chunk after chunk is framing them all and then handling all the lines. */
  lemma {:induction false} ReceiveIsFeedThenHandle(c: Conn, parse: Parser, chunks: seq<string>)
    ensures var f := FeedAll(c.buffer, chunks, MAX_BUFFER);
      ReceiveAll(c, parse, chunks) == HandleLines(c.(buffer := f.rest), parse, f.lines)
    decreases |chunks|
  {
    if chunks == [] {
    } else {
      var first := Feed(c.buffer, chunks[0], MAX_BUFFER);
      var d := Receive(c, parse, chunks[0]);
      HandleKeepsBuffer(c, parse, first.lines, first.rest);
      ReceiveIsFeedThenHandle(d, parse, chunks[1..]);
      var tail := FeedAll(first.rest, chunks[1..], MAX_BUFFER);
      assert d.buffer == first.rest;
      HandleKeepsBuffer(c, parse, first.lines, tail.rest);
      HandleConcat(c.(buffer := tail.rest), parse, first.lines, tail.lines);
    }
  }

  /** What the framing leaves behind: an incomplete line within the cap. */
  predicate BufferOk(buffer: string) {
    IndexOf(buffer, '\n') < 0 && |buffer| <= MAX_BUFFER
  }

  lemma FeedKeepsBuffer(buffer: string, chunk: string)
    ensures BufferOk(Feed(buffer, chunk, MAX_BUFFER).rest)
  {
    var rest := Split(buffer + chunk).rest;
    RestHasNoLf(buffer + chunk);
    if |rest| > MAX_BUFFER {
      var kept := rest[|rest| - MAX_BUFFER..];
      assert rest == rest[..|rest| - MAX_BUFFER] + kept;
      IndexOfConcat(rest[..|rest| - MAX_BUFFER], kept);
    }
  }

  /**
   * However the agent's output is cut into chunks, and whatever incomplete line was left before
   * it, the transport ends in one state: the same requests settled in the same order, the same
   * reply text, the same residual buffer.
   */
  lemma ChunksDoNotMatter(c: Conn, parse: Parser, chunks: seq<string>, stream: string)
    requires BufferOk(c.buffer) && Join(chunks) == stream && Fits(c.buffer + stream, MAX_BUFFER)
    ensures ReceiveAll(c, parse, chunks) == Receive(c, parse, stream)
  {
    ReceiveIsFeedThenHandle(c, parse, chunks);
    FeedAllIsSplit(c.buffer, chunks, MAX_BUFFER);
  }

  // ---- The reply text ----

  /** The reply text is the first 64 KiB of all chunks since the reset. */
  predicate TextOk(c: Conn) {
    c.sessionText == Take(Concat(c.texts), MAX_SESSION_TEXT)
  }

  function ResetText(c: Conn): Conn {
    c.(sessionText := "", texts := [])
  }

  /** The text a message adds, if it is a reply chunk. */
  function MessageTexts(m: Message): seq<string> {
    if m.hasMethod && (m.id.Absent? || m.id.Null?) && m.replyText != "" then [m.replyText] else []
  }

  lemma AppendKeepsText(c: Conn, text: string)
    requires TextOk(c)
    ensures AppendSessionText(c.sessionText, text) == Take(Concat(c.texts + [text]), MAX_SESSION_TEXT)
  {
    var all := Concat(c.texts);
    assert (c.texts + [text])[..|c.texts + [text]| - 1] == c.texts;
    assert Take(all + text, MAX_SESSION_TEXT)
        == if |all| < MAX_SESSION_TEXT then all + Take(text, MAX_SESSION_TEXT - |all|)
           else Take(all, MAX_SESSION_TEXT);
  }

  lemma HandleKeepsText(c: Conn, m: Message)
    requires TextOk(c)
    ensures TextOk(Handle(c, m)) && Handle(c, m).texts == c.texts + MessageTexts(m)
  {
    if MessageTexts(m) == [] {
      assert Handle(c, m).texts == c.texts && Handle(c, m).sessionText == c.sessionText;
    } else {
      AppendKeepsText(c, m.replyText);
    }
  }

  /** The texts of the reply chunk on the line, if there is one. */
  function LineTexts(parse: Parser, line: string): seq<string> {
    if Trim(line) == "" || |line| > MAX_BUFFER then []
    else match parse(line) case None => [] case Some(m) => MessageTexts(m)
  }

  /** The texts of the reply chunks among the lines. */
  function TextsOf(parse: Parser, lines: seq<string>): seq<string> {
    if lines == [] then [] else TextsOf(parse, lines[..|lines| - 1]) + LineTexts(parse, lines[|lines| - 1])
  }

  lemma HandleLineText(c: Conn, parse: Parser, line: string)
    requires TextOk(c)
    ensures TextOk(HandleLine(c, parse, line))
    ensures HandleLine(c, parse, line).texts == c.texts + LineTexts(parse, line)
  {
    if parse(line).Some? {
      HandleKeepsText(c, parse(line).value);
    }
  }

  /** From c to d the texts have arrived, and the reply text is still the capped one. */
  predicate Added(c: Conn, d: Conn, texts: seq<string>) {
    TextOk(d) && d.texts == c.texts + texts
  }

  lemma AddedThen(c: Conn, d: Conn, e: Conn, first: seq<string>, more: seq<string>)
    requires Added(c, d, first) && Added(d, e, more)
    ensures Added(c, e, first + more)
  {
  }

  lemma {:induction false} HandleLinesText(c: Conn, parse: Parser, lines: seq<string>)
    requires TextOk(c)
    ensures Added(c, HandleLines(c, parse, lines), TextsOf(parse, lines))
    decreases |lines|
  {
    if lines == [] {
    } else {
      var n := |lines| - 1;
      var before := HandleLines(c, parse, lines[..n]);
      HandleLinesText(c, parse, lines[..n]);
      HandleLineText(before, parse, lines[n]);
      AddedThen(c, before, HandleLine(before, parse, lines[n]), TextsOf(parse, lines[..n]),
                LineTexts(parse, lines[n]));
    }
  }

  // ---- Each request settles exactly once ----

  datatype Event =
    | Data(chunk: string)
    | Request(writeOk: bool)
    | Timeout(id: nat)            // the timer of this request fires
    | Cancel(id: nat)             // the caller is interrupted while it still waits
    | Close                       // the process closed, or the transport was disconnected
    | Reset                       // a new prompt starts

  /** Every pending request is rejected, lowest id first. */
  function RejectAll(c: Conn, upTo: nat): Conn {
    if upTo == 0 then c
    else
      var d := RejectAll(c, upTo - 1);
      if upTo in d.pending then Settle(d, upTo, Rejected) else d
  }

  function TimesSettled(settled: seq<Settlement>, id: nat): nat {
    if settled == [] then 0
    else TimesSettled(settled[..|settled| - 1], id) + (if settled[|settled| - 1].id == id then 1 else 0)
  }

  /** The caller of this request has not been answered. */
  predicate Waits(c: Conn, id: nat) {
    1 <= id <= c.lastId && TimesSettled(c.settled, id) == 0
  }

  function Step(c: Conn, parse: Parser, e: Event): Conn {
    match e
    case Data(chunk) => Receive(c, parse, chunk)
    case Request(writeOk) =>
      var id := c.lastId + 1;
      var issued := c.(lastId := id, pending := c.pending + {id}, timers := c.timers + {id});
      if writeOk then issued else Settle(issued, c.lastId + 1, WriteFailed)
    case Timeout(id) => if id in c.timers then Settle(c, id, TimedOut) else c
    case Cancel(id) => if Waits(c, id) then Settle(c, id, Cancelled) else c
    case Close => RejectAll(c, c.lastId)
    case Reset => ResetText(c)
  }

  function Run(c: Conn, parse: Parser, events: seq<Event>): Conn
    decreases |events|
  {
    if events == [] then c else Run(Step(c, parse, events[0]), parse, events[1..])
  }

  /** Each issued request is either pending, with its timer running, or was settled exactly once. */
  ghost predicate OncePerRequest(c: Conn) {
    && c.timers == c.pending
    && forall id: nat ::
         && TimesSettled(c.settled, id) == (if 1 <= id <= c.lastId && id !in c.pending then 1 else 0)
         && (id in c.pending ==> 1 <= id <= c.lastId)
  }

  lemma SettleOnce(c: Conn, id: nat, outcome: Outcome)
    requires OncePerRequest(c) && id in c.pending
    ensures OncePerRequest(Settle(c, id, outcome))
  {
    var d := Settle(c, id, outcome);
    assert d.settled[..|d.settled| - 1] == c.settled;
  }

  lemma HandleOnce(c: Conn, m: Message)
    requires OncePerRequest(c)
    ensures OncePerRequest(Handle(c, m)) && Handle(c, m).lastId == c.lastId
  {
    if m.id.Number? && m.id.n >= 0 && m.id.n as nat in c.pending {
      SettleOnce(c, m.id.n, if m.isError then Rejected else Resolved);
    }
  }

  lemma {:induction false} HandleLinesOnce(c: Conn, parse: Parser, lines: seq<string>)
    requires OncePerRequest(c)
    ensures OncePerRequest(HandleLines(c, parse, lines))
  {
    if lines == [] {
    } else {
      var init := lines[..|lines| - 1];
      HandleLinesOnce(c, parse, init);
      var m := parse(lines[|lines| - 1]);
      if m.Some? {
        HandleOnce(HandleLines(c, parse, init), m.value);
      }
    }
  }

  lemma {:induction false} RejectAllOnce(c: Conn, upTo: nat)
    requires OncePerRequest(c)
    ensures OncePerRequest(RejectAll(c, upTo)) && RejectAll(c, upTo).lastId == c.lastId
    ensures forall id :: id in RejectAll(c, upTo).pending <==> id in c.pending && id > upTo
  {
    if upTo == 0 {
      assert 0 in c.pending ==> false;
    } else {
      RejectAllOnce(c, upTo - 1);
      var d := RejectAll(c, upTo - 1);
      if upTo in d.pending {
        SettleOnce(d, upTo, Rejected);
      }
    }
  }

  lemma RequestOnce(c: Conn, parse: Parser, writeOk: bool)
    requires OncePerRequest(c)
    ensures OncePerRequest(Step(c, parse, Request(writeOk)))
  {
    var id := c.lastId + 1;
    var issued := c.(lastId := id, pending := c.pending + {id}, timers := c.timers + {id});
    assert OncePerRequest(issued);
    if !writeOk {
      SettleOnce(issued, id, WriteFailed);
    }
  }

  lemma StepOnce(c: Conn, parse: Parser, e: Event)
    requires OncePerRequest(c)
    ensures OncePerRequest(Step(c, parse, e))
  {
    match e {
      case Data(chunk) =>
        var f := Feed(c.buffer, chunk, MAX_BUFFER);
        HandleLinesOnce(c.(buffer := f.rest), parse, f.lines);
      case Request(writeOk) => RequestOnce(c, parse, writeOk);
      case Timeout(id) =>
        if id in c.timers {
          SettleOnce(c, id, TimedOut);
        }
      case Cancel(id) =>
        if Waits(c, id) {
          SettleOnce(c, id, Cancelled);
        }
      case Close => RejectAllOnce(c, c.lastId);
      case Reset =>
    }
  }

  const NEW := Conn("", "", 0, {}, {}, [], [], [])

  /**
   * Over any run no request settles twice, none that is settled stays pending, and the timers
   * that run are exactly those of the pending requests - so none fires for a settled one.
   */
  lemma {:induction false} ExactlyOnce(c: Conn, parse: Parser, events: seq<Event>)
    requires OncePerRequest(c)
    ensures OncePerRequest(Run(c, parse, events))
    decreases |events|
  {
    if events == [] {
    } else {
      StepOnce(c, parse, events[0]);
      ExactlyOnce(Step(c, parse, events[0]), parse, events[1..]);
    }
  }

  /** Nothing is pending after a close. */
  lemma CloseOnce(c: Conn, parse: Parser)
    requires OncePerRequest(c)
    ensures var d := Step(c, parse, Close); OncePerRequest(d) && d.pending == {} && d.lastId == c.lastId
  {
    RejectAllOnce(c, c.lastId);
  }

  /** When the process closes, every request ever issued has been settled exactly once. */
  lemma CloseSettlesAll(parse: Parser, events: seq<Event>, id: nat)
    requires 1 <= id <= Run(NEW, parse, events).lastId
    ensures TimesSettled(Step(Run(NEW, parse, events), parse, Close).settled, id) == 1
    ensures Step(Run(NEW, parse, events), parse, Close).pending == {}
  {
    assert OncePerRequest(NEW);
    ExactlyOnce(NEW, parse, events);
    CloseOnce(Run(NEW, parse, events), parse);
  }

  // ---- The reply text over whole runs ----

  lemma {:induction false} RejectAllKeepsText(c: Conn, upTo: nat)
    ensures var d := RejectAll(c, upTo);
      d.buffer == c.buffer && d.texts == c.texts && d.sessionText == c.sessionText
  {
    if upTo == 0 {
    } else {
      RejectAllKeepsText(c, upTo - 1);
    }
  }

  /** Only data extends the reply, and only a reset clears it. */
  lemma StepKeepsText(c: Conn, parse: Parser, e: Event)
    requires TextOk(c)
    ensures TextOk(Step(c, parse, e))
    ensures !e.Data? && !e.Reset? ==>
        Step(c, parse, e).texts == c.texts && Step(c, parse, e).buffer == c.buffer
    ensures BufferOk(c.buffer) ==> BufferOk(Step(c, parse, e).buffer)
  {
    match e {
      case Data(chunk) =>
        var f := Feed(c.buffer, chunk, MAX_BUFFER);
        var d := c.(buffer := f.rest);
        HandleLinesText(d, parse, f.lines);
        HandleKeepsBuffer(d, parse, f.lines, f.rest);
        FeedKeepsBuffer(c.buffer, chunk);
      case Close => RejectAllKeepsText(c, c.lastId);
      case _ =>
    }
  }

  /** In every run the reply text is the first 64 KiB of the reply chunks since the last reset. */
  lemma {:induction false} ReplyIsCappedConcat(c: Conn, parse: Parser, events: seq<Event>)
    requires TextOk(c) && BufferOk(c.buffer)
    ensures TextOk(Run(c, parse, events)) && BufferOk(Run(c, parse, events).buffer)
    decreases |events|
  {
    if events == [] {
    } else {
      StepKeepsText(c, parse, events[0]);
      ReplyIsCappedConcat(Step(c, parse, events[0]), parse, events[1..]);
    }
  }

  /** The data of a run, chunk by chunk. */
  function DataOf(events: seq<Event>): seq<string> {
    if events == [] then []
    else (if events[0].Data? then [events[0].chunk] else []) + DataOf(events[1..])
  }

  lemma {:induction false} TextsOfConcat(parse: Parser, xs: seq<string>, ys: seq<string>)
    ensures TextsOf(parse, xs + ys) == TextsOf(parse, xs) + TextsOf(parse, ys)
    decreases |ys|
  {
    if ys == [] {
      assert xs + ys == xs;
    } else {
      assert (xs + ys)[..|xs + ys| - 1] == xs + ys[..|ys| - 1];
      TextsOfConcat(parse, xs, ys[..|ys| - 1]);
    }
  }

  /** The reply chunks the framing of some data yields from a buffer. */
  function FedTexts(parse: Parser, buffer: string, chunks: seq<string>): seq<string> {
    TextsOf(parse, FeedAll(buffer, chunks, MAX_BUFFER).lines)
  }

  lemma FedCons(parse: Parser, buffer: string, chunk: string, more: seq<string>)
    ensures var f := Feed(buffer, chunk, MAX_BUFFER);
      FedTexts(parse, buffer, [chunk] + more) == TextsOf(parse, f.lines) + FedTexts(parse, f.rest, more)
  {
    var f := Feed(buffer, chunk, MAX_BUFFER);
    FeedCons(buffer, chunk, more, MAX_BUFFER);
    TextsOfConcat(parse, f.lines, FeedAll(f.rest, more, MAX_BUFFER).lines);
  }

  lemma DataTexts(c: Conn, parse: Parser, chunk: string)
    requires TextOk(c)
    ensures var f := Feed(c.buffer, chunk, MAX_BUFFER); var d := Step(c, parse, Data(chunk));
      d.buffer == f.rest && d.texts == c.texts + TextsOf(parse, f.lines)
  {
    var f := Feed(c.buffer, chunk, MAX_BUFFER);
    HandleLinesText(c.(buffer := f.rest), parse, f.lines);
    HandleKeepsBuffer(c.(buffer := f.rest), parse, f.lines, f.rest);
  }

  /** Between resets the reply chunks are those in the lines of the data, whatever else happens. */
  lemma {:induction false} RunTexts(c: Conn, parse: Parser, events: seq<Event>)
    requires TextOk(c) && forall k :: 0 <= k < |events| ==> !events[k].Reset?
    ensures Run(c, parse, events).texts == c.texts + FedTexts(parse, c.buffer, DataOf(events))
    decreases |events|
  {
    if events == [] {
    } else {
      var e, rest := events[0], events[1..];
      var d := Step(c, parse, e);
      StepKeepsText(c, parse, e);
      RunTexts(d, parse, rest);
      var later := FedTexts(parse, d.buffer, DataOf(rest));
      assert Run(c, parse, events).texts == d.texts + later;
      if e.Data? {
        DataTexts(c, parse, e.chunk);
        FedCons(parse, c.buffer, e.chunk, DataOf(rest));
        Assoc(c.texts, TextsOf(parse, Feed(c.buffer, e.chunk, MAX_BUFFER).lines), later);
      } else {
        assert [] + DataOf(rest) == DataOf(rest);
      }
    }
  }

  /**
   * A prompt's raw reply, from any state a run can reach, a partial line left in the buffer
   * included, and with requests, timeouts, cancellations and a close anywhere among the data:
   * the first 64 KiB of the reply chunks in the lines that the data completes.
   */
  lemma PromptReply(before: seq<Event>, parse: Parser, events: seq<Event>)
    requires forall k :: 0 <= k < |events| ==> !events[k].Reset?
    requires Fits(Run(NEW, parse, before).buffer + Join(DataOf(events)), MAX_BUFFER)
    ensures var c := Run(NEW, parse, before);
      Run(Step(c, parse, Reset), parse, events).sessionText ==
      Take(Concat(TextsOf(parse, Split(c.buffer + Join(DataOf(events))).lines)), MAX_SESSION_TEXT)
  {
    assert IndexOf("", '\n') < 0;
    ReplyIsCappedConcat(NEW, parse, before);
    var c := Run(NEW, parse, before);
    var start := Step(c, parse, Reset);
    RunTexts(start, parse, events);
    ReplyIsCappedConcat(start, parse, events);
    FeedAllIsSplit(c.buffer, DataOf(events), MAX_BUFFER);
    var texts := TextsOf(parse, Split(c.buffer + Join(DataOf(events))).lines);
    assert [] + texts == texts;
  }

  // ---- The class ----

  class Transport {
    var buffer: string
    var sessionText: string
    var requestId: nat
    var pending: set<nat>
    var timers: set<nat>
    var refused: seq<Id>
    ghost var settled: seq<Settlement>
    ghost var texts: seq<string>
    const parse: Parser

    ghost function State(): Conn
      reads this
    {
      Conn(buffer, sessionText, requestId, pending, timers, settled, refused, texts)
    }

    constructor (parse: Parser)
      ensures State() == NEW && this.parse == parse
    {
      this.parse := parse;
      buffer, sessionText, requestId, pending, timers, refused := "", "", 0, {}, {}, [];
      settled, texts := [], [];
    }

    method SettlePending(id: nat, ghost outcome: Outcome)
      modifies this
      ensures State() == Settle(old(State()), id, outcome)
    {
      pending := pending - {id};
      timers := timers - {id};
      settled := settled + [Settlement(id, outcome)];
    }

    method AppendText(text: string)
      modifies `sessionText, `texts
      ensures sessionText == AppendSessionText(old(sessionText), text) && texts == old(texts) + [text]
    {
      if |sessionText| < MAX_SESSION_TEXT {
        var room := MAX_SESSION_TEXT - |sessionText|;
        sessionText := sessionText + (if |text| <= room then text else text[..room]);
      }
      texts := texts + [text];
    }

    method HandleMessage(m: Message)
      modifies this
      ensures State() == Handle(old(State()), m)
    {
      if m.hasMethod && !m.id.Absent? && !m.id.Null? {
        refused := refused + [m.id];
        return;
      }
      if m.id.Number? && !m.hasMethod {
        if m.id.n >= 0 && m.id.n as nat in pending { SettlePending(m.id.n, if m.isError then Rejected else Resolved); }
        return;
      }
      if m.hasMethod && m.replyText != "" { AppendText(m.replyText); }
    }

    method OnLine(line: string)
      modifies this
      ensures State() == HandleLine(old(State()), parse, line)
    {
      if Trim(line) == "" || |line| > MAX_BUFFER { return; }
      var msg := parse(line);
      if msg.Some? { HandleMessage(msg.value); }
    }

    /** Appends the chunk, takes the complete lines out, and caps what is incomplete. */
    method TakeLines(chunk: string) returns (lines: seq<string>)
      modifies `buffer
      ensures var f := Feed(old(buffer), chunk, MAX_BUFFER); lines == f.lines && buffer == f.rest
    {
      var frames := Split(buffer + chunk);
      buffer := frames.rest;
      if |buffer| > MAX_BUFFER { buffer := buffer[|buffer| - MAX_BUFFER..]; }
      lines := frames.lines;
    }

    method OnLines(lines: seq<string>)
      modifies this
      ensures State() == HandleLines(old(State()), parse, lines)
    {
      for i := 0 to |lines|
        invariant State() == HandleLines(old(State()), parse, lines[..i])
      {
        assert lines[..i + 1][..i] == lines[..i];
        OnLine(lines[i]);
      }
      assert lines[..|lines|] == lines;
    }

    method OnData(chunk: string)
      modifies this
      ensures State() == Receive(old(State()), parse, chunk)
    {
      var lines := TakeLines(chunk);
      OnLines(lines);
    }

    method SendRequest(writeOk: bool) returns (id: nat)
      modifies this
      ensures State() == Step(old(State()), parse, Request(writeOk)) && id == old(requestId) + 1
    {
      requestId := requestId + 1;
      id := requestId;
      timers := timers + {id};
      pending := pending + {id};
      if !writeOk { SettlePending(id, WriteFailed); }
    }

    /** The timer's callback: it settles the request without looking at the table. */
    method FireTimer(id: nat)
      requires id in timers
      modifies this
      ensures State() == Step(old(State()), parse, Timeout(id))
    {
      SettlePending(id, TimedOut);
    }

    /** The process closed or the transport was disconnected. */
    method CloseAll()
      modifies this
      ensures State() == Step(old(State()), parse, Close)
    {
      for id := 1 to requestId + 1
        invariant requestId == old(requestId)
        invariant State() == RejectAll(old(State()), id - 1)
      {
        if id in pending { SettlePending(id, Rejected); }
      }
    }

    method StartPrompt()
      modifies this
      ensures State() == ResetText(old(State()))
    {
      sessionText, texts := "", [];
    }
  }
}
