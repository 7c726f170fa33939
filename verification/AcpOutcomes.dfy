/**
 * How each request ends: told from the lines, timers, cancellations and closes alone, without
 * following the transport's own table.
 */
module AcpOutcomes {
  import opened Prelude
  import opened JsText
  import opened AcpFraming
  import opened AcpTransport

  // ---- What the lines say ----

  /** The message on a line, if the line is neither blank nor oversized nor garbage. */
  function MessageOn(parse: Parser, line: string): Option<Message> {
    if Trim(line) != "" && |line| <= MAX_BUFFER then parse(line) else None
  }

  /** A message without a method that carries the id is the response to that request. */
  predicate Answers(m: Message, id: nat) {
    !m.hasMethod && m.id == Number(id)
  }

  /** The first response to the request among the lines. */
  function FirstAnswer(parse: Parser, lines: seq<string>, id: nat): Option<Message> {
    if lines == [] then None
    else
      match MessageOn(parse, lines[0])
      case Some(m) => if Answers(m, id) then Some(m) else FirstAnswer(parse, lines[1..], id)
      case None => FirstAnswer(parse, lines[1..], id)
  }

  /** A response settles its request: with an error it is rejected, otherwise resolved. */
  function Verdict(m: Message): Outcome {
    if m.isError then Rejected else Resolved
  }

  // ---- What the transport records ----

  /** How the request was settled, if it was. */
  function OutcomeOf(settled: seq<Settlement>, id: nat): Option<Outcome> {
    if settled == [] then None
    else if settled[|settled| - 1].id == id then Some(settled[|settled| - 1].outcome)
    else OutcomeOf(settled[..|settled| - 1], id)
  }

  lemma OutcomeSnoc(settled: seq<Settlement>, s: Settlement, id: nat)
    ensures OutcomeOf(settled + [s], id) == if s.id == id then Some(s.outcome) else OutcomeOf(settled, id)
  {
    assert (settled + [s])[..|settled|] == settled;
  }

  /** The request stands in d as it stood in c. */
  predicate Undecided(c: Conn, d: Conn, id: nat) {
    && (id in d.pending <==> id in c.pending)
    && OutcomeOf(d.settled, id) == OutcomeOf(c.settled, id)
  }

  /** The pending request has been settled with this outcome. */
  predicate Decided(d: Conn, id: nat, outcome: Outcome) {
    id !in d.pending && OutcomeOf(d.settled, id) == Some(outcome)
  }

  lemma SettleDecides(c: Conn, other: nat, outcome: Outcome, id: nat)
    ensures var d := Settle(c, other, outcome);
      if other == id then Decided(d, id, outcome) else Undecided(c, d, id)
  {
    OutcomeSnoc(c.settled, Settlement(other, outcome), id);
  }

  /** One message decides only the request it answers. */
  lemma MessageDecides(c: Conn, m: Message, id: nat)
    ensures var d := Handle(c, m);
      if id in c.pending && Answers(m, id) then Decided(d, id, Verdict(m)) else Undecided(c, d, id)
  {
    if !m.hasMethod && m.id.Number? && m.id.n >= 0 && m.id.n as nat in c.pending {
      SettleDecides(c, m.id.n, Verdict(m), id);
    }
  }

  lemma LineDecides(c: Conn, parse: Parser, line: string, id: nat)
    ensures var d, m := HandleLine(c, parse, line), MessageOn(parse, line);
      if id in c.pending && m.Some? && Answers(m.value, id) then Decided(d, id, Verdict(m.value))
      else Undecided(c, d, id)
  {
    var m := MessageOn(parse, line);
    if m.Some? {
      MessageDecides(c, m.value, id);
    }
  }

  lemma HandleFirst(c: Conn, parse: Parser, lines: seq<string>)
    requires lines != []
    ensures HandleLines(c, parse, lines) == HandleLines(HandleLine(c, parse, lines[0]), parse, lines[1..])
  {
    HandleConcat(c, parse, [lines[0]], lines[1..]);
    assert [lines[0]] + lines[1..] == lines && [lines[0]][..0] == [];
    assert HandleLines(c, parse, [lines[0]]) == HandleLine(HandleLines(c, parse, []), parse, lines[0]);
  }

  /** Over lines, a pending request is decided by the first response to it, and by nothing else. */
  lemma {:induction false} LinesDecide(c: Conn, parse: Parser, lines: seq<string>, id: nat)
    ensures var d, m := HandleLines(c, parse, lines), FirstAnswer(parse, lines, id);
      if id in c.pending && m.Some? then Decided(d, id, Verdict(m.value)) else Undecided(c, d, id)
    decreases |lines|
  {
    if lines == [] {
    } else {
      HandleFirst(c, parse, lines);
      LineDecides(c, parse, lines[0], id);
      LinesDecide(HandleLine(c, parse, lines[0]), parse, lines[1..], id);
    }
  }

  // ---- What a run says ----

  /**
   * The fate of a request that waits, as the events tell it: the first response in the lines that
   * the data completes, its timer, its cancellation, or a close, whichever comes first.
   */
  function Fate(buffer: string, parse: Parser, events: seq<Event>, id: nat): Option<Outcome>
    decreases |events|
  {
    if events == [] then None
    else
      match events[0]
      case Data(chunk) =>
        var f := Feed(buffer, chunk, MAX_BUFFER);
        var answer := FirstAnswer(parse, f.lines, id);
        if answer.Some? then Some(Verdict(answer.value)) else Fate(f.rest, parse, events[1..], id)
      case Timeout(other) => if other == id then Some(TimedOut) else Fate(buffer, parse, events[1..], id)
      case Cancel(other) => if other == id then Some(Cancelled) else Fate(buffer, parse, events[1..], id)
      case Close => Some(Rejected)
      case _ => Fate(buffer, parse, events[1..], id)
  }

  lemma {:induction false} RejectDecides(c: Conn, upTo: nat, id: nat)
    ensures var d := RejectAll(c, upTo);
      if id in c.pending && 1 <= id <= upTo then Decided(d, id, Rejected) else Undecided(c, d, id)
  {
    if upTo == 0 {
    } else {
      RejectDecides(c, upTo - 1, id);
      var d := RejectAll(c, upTo - 1);
      if upTo in d.pending {
        SettleDecides(d, upTo, Rejected, id);
      }
    }
  }

  lemma {:induction false} UnsettledHasNoOutcome(settled: seq<Settlement>, id: nat)
    ensures OutcomeOf(settled, id).None? <==> TimesSettled(settled, id) == 0
  {
    if settled == [] {
    } else {
      UnsettledHasNoOutcome(settled[..|settled| - 1], id);
    }
  }

  lemma DataDecides(c: Conn, parse: Parser, chunk: string, id: nat)
    ensures var f, d := Feed(c.buffer, chunk, MAX_BUFFER), Step(c, parse, Data(chunk));
      var m := FirstAnswer(parse, f.lines, id);
      && d.buffer == f.rest
      && if id in c.pending && m.Some? then Decided(d, id, Verdict(m.value)) else Undecided(c, d, id)
  {
    var f := Feed(c.buffer, chunk, MAX_BUFFER);
    HandleKeepsBuffer(c.(buffer := f.rest), parse, f.lines, f.rest);
    LinesDecide(c.(buffer := f.rest), parse, f.lines, id);
  }

  /** One event either is the fate of a waiting request or leaves it waiting. */
  lemma StepDecides(c: Conn, parse: Parser, e: Event, id: nat)
    requires OncePerRequest(c) && id in c.pending
    ensures var d, fate := Step(c, parse, e), Fate(c.buffer, parse, [e], id);
      if fate.Some? then Decided(d, id, fate.value) else Undecided(c, d, id)
  {
    assert [e][1..] == [];
    UnsettledHasNoOutcome(c.settled, id);
    match e {
      case Data(chunk) => DataDecides(c, parse, chunk, id);
      case Request(writeOk) =>
        var next := c.lastId + 1;
        var issued := c.(lastId := next, pending := c.pending + {next}, timers := c.timers + {next});
        if !writeOk { SettleDecides(issued, next, WriteFailed, id); }
      case Timeout(other) => if other in c.timers { SettleDecides(c, other, TimedOut, id); }
      case Cancel(other) => if Waits(c, other) { SettleDecides(c, other, Cancelled, id); }
      case Close => RejectDecides(c, c.lastId, id);
      case Reset =>
    }
  }

  /** A request that has been settled keeps its outcome, whatever happens next. */
  lemma SettledStays(c: Conn, parse: Parser, e: Event, id: nat)
    requires OncePerRequest(c) && 1 <= id <= c.lastId && id !in c.pending
    ensures Undecided(c, Step(c, parse, e), id)
  {
    match e {
      case Data(chunk) => DataDecides(c, parse, chunk, id);
      case Request(writeOk) =>
        var next := c.lastId + 1;
        var issued := c.(lastId := next, pending := c.pending + {next}, timers := c.timers + {next});
        if !writeOk { SettleDecides(issued, next, WriteFailed, id); }
      case Timeout(other) => if other in c.timers { SettleDecides(c, other, TimedOut, id); }
      case Cancel(other) => if Waits(c, other) { SettleDecides(c, other, Cancelled, id); }
      case Close => RejectDecides(c, c.lastId, id);
      case Reset =>
    }
  }

  lemma StepBuffer(c: Conn, parse: Parser, e: Event)
    ensures Step(c, parse, e).buffer == if e.Data? then Feed(c.buffer, e.chunk, MAX_BUFFER).rest else c.buffer
  {
    match e {
      case Data(chunk) => DataDecides(c, parse, chunk, 0);
      case Close => RejectAllKeepsText(c, c.lastId);
      case _ =>
    }
  }

  lemma {:induction false} LinesKeepIds(c: Conn, parse: Parser, lines: seq<string>)
    ensures HandleLines(c, parse, lines).lastId == c.lastId
  {
    if lines == [] {
    } else {
      LinesKeepIds(c, parse, lines[..|lines| - 1]);
    }
  }

  lemma StepIds(c: Conn, parse: Parser, e: Event)
    requires OncePerRequest(c)
    ensures Step(c, parse, e).lastId == c.lastId + if e.Request? then 1 else 0
  {
    match e {
      case Data(chunk) => LinesKeepIds(c.(buffer := Feed(c.buffer, chunk, MAX_BUFFER).rest), parse,
                                       Feed(c.buffer, chunk, MAX_BUFFER).lines);
      case Close => RejectAllOnce(c, c.lastId);
      case _ =>
    }
  }

  /** Once settled, a request keeps its outcome for the rest of the run. */
  lemma {:induction false} SettledForGood(c: Conn, parse: Parser, events: seq<Event>, id: nat)
    requires OncePerRequest(c) && 1 <= id <= c.lastId && id !in c.pending
    ensures Undecided(c, Run(c, parse, events), id)
    decreases |events|
  {
    if events == [] {
    } else {
      SettledStays(c, parse, events[0], id);
      StepOnce(c, parse, events[0]);
      StepIds(c, parse, events[0]);
      SettledForGood(Step(c, parse, events[0]), parse, events[1..], id);
    }
  }

  lemma {:induction false} IdsGrow(c: Conn, parse: Parser, events: seq<Event>)
    requires OncePerRequest(c)
    ensures c.lastId <= Run(c, parse, events).lastId
    decreases |events|
  {
    if events == [] {
    } else {
      StepOnce(c, parse, events[0]);
      StepIds(c, parse, events[0]);
      IdsGrow(Step(c, parse, events[0]), parse, events[1..]);
    }
  }

  lemma {:induction false} RunConcat(c: Conn, parse: Parser, xs: seq<Event>, ys: seq<Event>)
    ensures Run(c, parse, xs + ys) == Run(Run(c, parse, xs), parse, ys)
    decreases |xs|
  {
    if xs == [] {
      assert xs + ys == ys;
    } else {
      assert (xs + ys)[0] == xs[0] && (xs + ys)[1..] == xs[1..] + ys;
      RunConcat(Step(c, parse, xs[0]), parse, xs[1..], ys);
    }
  }

  lemma FateCons(buffer: string, parse: Parser, e: Event, events: seq<Event>, id: nat)
    ensures Fate(buffer, parse, [e] + events, id)
         == OrElse(Fate(buffer, parse, [e], id),
                   Fate(if e.Data? then Feed(buffer, e.chunk, MAX_BUFFER).rest else buffer, parse, events, id))
  {
    assert ([e] + events)[1..] == events && [e][1..] == [];
  }

  /** A waiting request ends exactly as the events of the run tell: so, or not yet. */
  lemma {:induction false} WaitingEndsByFate(c: Conn, parse: Parser, events: seq<Event>, id: nat)
    requires OncePerRequest(c) && id in c.pending
    ensures var d, fate := Run(c, parse, events), Fate(c.buffer, parse, events, id);
      && OutcomeOf(d.settled, id) == fate && (id in d.pending <==> fate.None?)
    decreases |events|
  {
    UnsettledHasNoOutcome(c.settled, id);
    if events == [] {
    } else {
      var e, d := events[0], Step(c, parse, events[0]);
      assert events == [e] + events[1..];
      FateCons(c.buffer, parse, e, events[1..], id);
      StepDecides(c, parse, e, id);
      StepOnce(c, parse, e);
      StepIds(c, parse, e);
      StepBuffer(c, parse, e);
      if id in d.pending {
        WaitingEndsByFate(d, parse, events[1..], id);
      } else {
        SettledForGood(d, parse, events[1..], id);
      }
    }
  }

  /** A request sent from any state ends so. */
  lemma SentEnds(c: Conn, parse: Parser, writeOk: bool, after: seq<Event>)
    requires OncePerRequest(c)
    ensures var id, d := c.lastId + 1, Run(Step(c, parse, Request(writeOk)), parse, after);
      && id <= d.lastId
      && OutcomeOf(d.settled, id) == (if writeOk then Fate(c.buffer, parse, after, id) else Some(WriteFailed))
      && (id in d.pending <==> OutcomeOf(d.settled, id).None?)
  {
    var id, sent := c.lastId + 1, Step(c, parse, Request(writeOk));
    RequestOnce(c, parse, writeOk);
    IdsGrow(sent, parse, after);
    if writeOk {
      WaitingEndsByFate(sent, parse, after, id);
    } else {
      SettleDecides(c.(lastId := id, pending := c.pending + {id}, timers := c.timers + {id}), id, WriteFailed, id);
      SettledForGood(sent, parse, after, id);
    }
  }

  lemma RunAround(c: Conn, parse: Parser, before: seq<Event>, e: Event, after: seq<Event>)
    ensures Run(c, parse, before + [e] + after) == Run(Step(Run(c, parse, before), parse, e), parse, after)
  {
    RunConcat(c, parse, before + [e], after);
    RunConcat(c, parse, before, [e]);
    assert [e][1..] == [];
  }

  /**
   * How every request of every run ends: at once when it could not be written; otherwise as the
   * events after it tell, from the partial line that was in the buffer when it was sent.
   */
  lemma RequestEnds(parse: Parser, before: seq<Event>, writeOk: bool, after: seq<Event>)
    ensures var c, d := Run(NEW, parse, before), Run(NEW, parse, before + [Request(writeOk)] + after);
      var id := c.lastId + 1;
      && id <= d.lastId
      && OutcomeOf(d.settled, id) == (if writeOk then Fate(c.buffer, parse, after, id) else Some(WriteFailed))
      && (id in d.pending <==> OutcomeOf(d.settled, id).None?)
  {
    assert OncePerRequest(NEW);
    ExactlyOnce(NEW, parse, before);
    SentEnds(Run(NEW, parse, before), parse, writeOk, after);
    RunAround(NEW, parse, before, Request(writeOk), after);
  }

  // ---- Where each outcome comes from ----

  /** Some line carries a response to the request, with or without an error. */
  ghost predicate AnsweredBy(parse: Parser, lines: seq<string>, id: nat, isError: bool) {
    exists line :: line in lines && MessageOn(parse, line).Some? && Answers(MessageOn(parse, line).value, id)
                   && MessageOn(parse, line).value.isError == isError
  }

  /** The event that settles the request with this outcome, told from the state it finds. */
  ghost predicate Causes(buffer: string, parse: Parser, e: Event, id: nat, outcome: Outcome) {
    match outcome
    case Resolved => e.Data? && AnsweredBy(parse, Feed(buffer, e.chunk, MAX_BUFFER).lines, id, false)
    case Rejected => e.Close? || (e.Data? && AnsweredBy(parse, Feed(buffer, e.chunk, MAX_BUFFER).lines, id, true))
    case TimedOut => e == Timeout(id)
    case Cancelled => e == Cancel(id)
    case WriteFailed => false
  }

  lemma {:induction false} AnswerIsOnALine(parse: Parser, lines: seq<string>, id: nat)
    requires FirstAnswer(parse, lines, id).Some?
    ensures AnsweredBy(parse, lines, id, FirstAnswer(parse, lines, id).value.isError)
  {
    var m := MessageOn(parse, lines[0]);
    if m.Some? && Answers(m.value, id) {
    } else {
      AnswerIsOnALine(parse, lines[1..], id);
    }
  }

  lemma EventIsTheCause(buffer: string, parse: Parser, e: Event, id: nat)
    requires Fate(buffer, parse, [e], id).Some?
    ensures Causes(buffer, parse, e, id, Fate(buffer, parse, [e], id).value)
  {
    assert [e][1..] == [];
    if e.Data? {
      AnswerIsOnALine(parse, Feed(buffer, e.chunk, MAX_BUFFER).lines, id);
    }
  }

  /**
   * A waiting request that has ended was ended by an event of its own: resolved only by a response
   * without an error, rejected only by one with an error or a close, timed out or cancelled only
   * by its own timer or cancellation.
   */
  lemma {:induction false} OutcomeHasACause(c: Conn, parse: Parser, events: seq<Event>, id: nat)
    requires OncePerRequest(c) && id in c.pending && OutcomeOf(Run(c, parse, events).settled, id).Some?
    ensures exists k :: 0 <= k < |events|
              && Causes(Run(c, parse, events[..k]).buffer, parse, events[k], id,
                        OutcomeOf(Run(c, parse, events).settled, id).value)
    decreases |events|
  {
    var outcome := OutcomeOf(Run(c, parse, events).settled, id).value;
    UnsettledHasNoOutcome(c.settled, id);
    WaitingEndsByFate(c, parse, events, id);
    var e, d := events[0], Step(c, parse, events[0]);
    StepDecides(c, parse, e, id);
    StepOnce(c, parse, e);
    assert events == [e] + events[1..] && events[..0] == [];
    FateCons(c.buffer, parse, e, events[1..], id);
    if id in d.pending {
      OutcomeHasACause(d, parse, events[1..], id);
      var k :| 0 <= k < |events[1..]|
               && Causes(Run(d, parse, events[1..][..k]).buffer, parse, events[1..][k], id, outcome);
      assert events[..k + 1][0] == e && events[..k + 1][1..] == events[1..][..k];
      assert Causes(Run(c, parse, events[..k + 1]).buffer, parse, events[k + 1], id, outcome);
    } else {
      EventIsTheCause(c.buffer, parse, e, id);
      assert Causes(Run(c, parse, events[..0]).buffer, parse, events[0], id, outcome);
    }
  }

  // ---- What the agent asks for ----

  /** A message with both a method and an id is a request of the agent. */
  function AskedOn(parse: Parser, line: string): seq<Id> {
    match MessageOn(parse, line)
    case Some(m) => if m.hasMethod && m.id != Absent && m.id != Null then [m.id] else []
    case None => []
  }

  function Asked(parse: Parser, lines: seq<string>): seq<Id> {
    if lines == [] then [] else AskedOn(parse, lines[0]) + Asked(parse, lines[1..])
  }

  function AskedOver(buffer: string, parse: Parser, events: seq<Event>): seq<Id>
    decreases |events|
  {
    if events == [] then []
    else if events[0].Data? then
      var f := Feed(buffer, events[0].chunk, MAX_BUFFER);
      Asked(parse, f.lines) + AskedOver(f.rest, parse, events[1..])
    else AskedOver(buffer, parse, events[1..])
  }

  lemma LineRefuses(c: Conn, parse: Parser, line: string)
    ensures HandleLine(c, parse, line).refused == c.refused + AskedOn(parse, line)
  {
  }

  lemma {:induction false} LinesRefuse(c: Conn, parse: Parser, lines: seq<string>)
    ensures HandleLines(c, parse, lines).refused == c.refused + Asked(parse, lines)
    decreases |lines|
  {
    if lines == [] {
    } else {
      HandleFirst(c, parse, lines);
      LineRefuses(c, parse, lines[0]);
      LinesRefuse(HandleLine(c, parse, lines[0]), parse, lines[1..]);
      Assoc(c.refused, AskedOn(parse, lines[0]), Asked(parse, lines[1..]));
    }
  }

  lemma {:induction false} RejectAllRefuses(c: Conn, upTo: nat)
    ensures RejectAll(c, upTo).refused == c.refused
  {
    if upTo == 0 {
    } else {
      RejectAllRefuses(c, upTo - 1);
    }
  }

  lemma StepRefuses(c: Conn, parse: Parser, e: Event)
    ensures Step(c, parse, e).refused == c.refused + AskedOver(c.buffer, parse, [e])
  {
    assert [e][1..] == [];
    match e {
      case Data(chunk) =>
        var f := Feed(c.buffer, chunk, MAX_BUFFER);
        LinesRefuse(c.(buffer := f.rest), parse, f.lines);
      case Close => RejectAllRefuses(c, c.lastId);
      case _ =>
    }
  }

  lemma AskedCons(buffer: string, parse: Parser, e: Event, events: seq<Event>)
    ensures AskedOver(buffer, parse, [e] + events)
         == AskedOver(buffer, parse, [e])
          + AskedOver(if e.Data? then Feed(buffer, e.chunk, MAX_BUFFER).rest else buffer, parse, events)
  {
    assert ([e] + events)[1..] == events && [e][1..] == [];
  }

  /** Over any run exactly the agent's own requests are refused, each once, in the order they came. */
  lemma {:induction false} RefusedExactly(c: Conn, parse: Parser, events: seq<Event>)
    ensures Run(c, parse, events).refused == c.refused + AskedOver(c.buffer, parse, events)
    decreases |events|
  {
    if events == [] {
    } else {
      var e, d := events[0], Step(c, parse, events[0]);
      assert events == [e] + events[1..];
      AskedCons(c.buffer, parse, e, events[1..]);
      StepRefuses(c, parse, e);
      StepBuffer(c, parse, e);
      RefusedExactly(d, parse, events[1..]);
      Assoc(c.refused, AskedOver(c.buffer, parse, [e]), AskedOver(d.buffer, parse, events[1..]));
    }
  }
}
