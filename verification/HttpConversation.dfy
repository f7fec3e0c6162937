/** Whole requests and responses, from the first letter of the start line on,
  and connections on which they come in, cut in any way. */
module HttpConversation {
  import opened Common
  import opened HttpTypes
  import opened HttpStep
  import opened HttpRun
  import opened HttpParser
  import opened HttpSplit
  import opened HttpFraming
  import opened HttpLength
  import opened HttpLine
  import opened HttpWords
  import opened HttpHeaders
  import opened HttpAssembler
  import opened HttpMessage
  import HttpRequest
  import HttpResponse

  // ------------------------------------------------------- either start line

  function KindOf(s: StartLine): ParserType { if s.RequestLine? then Request else Response }

  function StartBytes(s: StartLine): string {
    if s.RequestLine? then HttpRequest.StartBytes(s) else HttpResponse.StartBytes(s)
  }

  predicate StartText(s: StartLine) {
    if s.RequestLine? then HttpRequest.StartText(s) else HttpResponse.StartText(s)
  }

  function StartEvents(s: StartLine): seq<Event> {
    if s.RequestLine? then HttpRequest.StartEvents(s) else HttpResponse.START_EVENTS
  }

  function Started(p: Parser, s: StartLine): Parser
    requires StartText(s)
  {
    if s.RequestLine? then HttpRequest.Started(p, s) else HttpResponse.Started(p, s)
  }

  lemma StartRun(p: Parser, s: StartLine, hooks: Hooks) returns (r: Ran)
    requires Good(p) && p.state == InitialState(KindOf(s)) && Calm(hooks) && StartText(s) && Room(p, |StartBytes(s)|)
    ensures r == Run(Bytewise(hooks), p, StartBytes(s)) && r.exit.Next? && r.used == |StartBytes(s)|
    ensures r.p == Started(p, s) && Good(r.p) && Norm(r.events) == Norm(StartEvents(s))
  {
    if s.RequestLine? { r := HttpRequest.StartRun(p, s, hooks); } else { r := HttpResponse.StartRun(p, s, hooks); }
  }

  /** Between two messages, with no more than `n` bytes counted; what the other
      kind of message would set is as it was at first. */
  predicate Ready(p: Parser, kind: ParserType, n: nat) {
    Good(p) && p.kind == kind && !p.upgrade && p.nread <= n && if kind.Request? then p.status == 0 else p.verb == DELETE
  }

  lemma StartedAkin(p: Parser, s: StartLine, n: nat)
    requires StartText(s) && Ready(p, KindOf(s), n)
    ensures var q := Started(p, s);
            Akin(q, Started(InitialParser(KindOf(s)), s)) && AtLine(q) && !q.upgrade && q.errno.Ok? && q.nread == p.nread + |StartBytes(s)|
  {
  }

  // ------------------------------------------------------------ one message

  /** A message as it is written. */
  datatype Message = Message(start: StartLine, lines: seq<Line>, payload: Payload)

  function MessageText(m: Message): string { StartBytes(m.start) + MessageBytes(m.lines, m.payload) }

  function EventsOf(m: Message): seq<Event> { StartEvents(m.start) + MessageEvents(m.lines, m.payload) }

  predicate HeadText(m: Message) { StartText(m.start) && LineTexts(m.lines) }

  /** The bytes up to the blank line, which count against the limit. */
  function HeadSize(m: Message): nat { |StartBytes(m.start)| + |BlockBytes(m.lines)| + 2 }

  /** What the start line and the headers of a message come to. */
  function Summary(m: Message): Parser
    requires HeadText(m)
  {
    Effects(Started(InitialParser(KindOf(m.start)), m.start), m.lines)
  }

  /** A start line, header lines in any number, and the body they announce. */
  predicate Acceptable(m: Message) { HeadText(m) && Framed(Summary(m), m.payload) }

  /** What a start line sets. */
  lemma StartedIs(p: Parser, s: StartLine)
    requires StartText(s)
    ensures var q := Started(p, s);
            q.flags == NO_FLAGS && q.length == ULLONG_MAX && q.major == Numeral(0, 10, s.major) && q.minor == Numeral(0, 10, s.minor) &&
            q.kind == p.kind && (if s.StatusLine? then q.status == Numeral(0, 10, s.code) else q.status == p.status)
  {
  }

  lemma SummaryIs(m: Message)
    requires HeadText(m)
    ensures var q := Summary(m);
            q.kind == KindOf(m.start) && q.major == Numeral(0, 10, m.start.major) && q.minor == Numeral(0, 10, m.start.minor) &&
            if q.kind.Request? then q.status == 0 else q.verb == DELETE && q.status == Numeral(0, 10, m.start.code)
  {
    var p := Started(InitialParser(KindOf(m.start)), m.start);
    StartedIs(InitialParser(KindOf(m.start)), m.start);
    StartedAkin(InitialParser(KindOf(m.start)), m.start, 0);
    EffectsExact(p, p, m.lines);
  }

  /** Some line says `word` of the connection. */
  ghost predicate Says(ls: seq<Line>, word: string) {
    exists l <- ls :: (Lowered(l.name) == "connection" || Lowered(l.name) == "proxy-connection") && Spaced(word, l.value)
  }

  /** Some line says how the body ends: by its length, or in chunks. */
  ghost predicate Declares(ls: seq<Line>) {
    exists l <- ls ::
      (Lowered(l.name) == "content-length" && l.value != "") || (Lowered(l.name) == "transfer-encoding" && Spaced("chunked", l.value))
  }

  /** From version 1.1 on a connection persists unless it is said to close, before
      that if it is said to be kept alive. */
  ghost predicate Allowed(m: Message)
    requires StartText(m.start)
  {
    var ls := m.lines + Trailer(m.payload);
    if Numeral(0, 10, m.start.major) > 0 && Numeral(0, 10, m.start.minor) > 0 then !Says(ls, "close") else Says(ls, "keep-alive")
  }

  /** Where the message ends can be told without the end of the connection. */
  ghost predicate EndKnown(m: Message)
    requires StartText(m.start)
  {
    m.start.RequestLine? || Declares(m.lines) ||
    var code := Numeral(0, 10, m.start.code); 100 <= code < 200 || code == 204 || code == 304
  }

  /** The connection is open for a next message. */
  ghost predicate Persists(m: Message)
    requires StartText(m.start)
  {
    Allowed(m) && EndKnown(m)
  }

  ghost predicate KeepsOpen(m: Message) { Acceptable(m) && Persists(m) }

  lemma LineSays(p: Parser, l: Line)
    requires LineText(l)
    ensures var q := Effect(p, l);
            (q.flags.close <==> p.flags.close || Says([l], "close")) &&
            (q.flags.keepAlive <==> p.flags.keepAlive || Says([l], "keep-alive"))
  {
    if Spaced("close", l.value) && Spaced("keep-alive", l.value) {
      SpacedFirst("close", l.value);
      SpacedFirst("keep-alive", l.value);
    }
    assert l in [l];
  }

  lemma LineDeclares(p: Parser, l: Line)
    requires LineText(l)
    ensures var q := Effect(p, l);
            q.flags.chunked || q.length != ULLONG_MAX ==> p.flags.chunked || p.length != ULLONG_MAX || Declares([l])
  {
    assert l in [l];
  }

  lemma SaysSplit(l: Line, ls: seq<Line>, word: string)
    ensures Says([l] + ls, word) <==> Says([l], word) || Says(ls, word)
  {
    assert forall k <- [l] + ls :: k in [l] || k in ls;
    assert forall k <- [l] :: k in [l] + ls;
    assert forall k <- ls :: k in [l] + ls;
  }

  lemma DeclaresSplit(l: Line, ls: seq<Line>)
    ensures Declares([l]) || Declares(ls) ==> Declares([l] + ls)
  {
    assert forall k <- [l] :: k in [l] + ls;
    assert forall k <- ls :: k in [l] + ls;
  }

  /** What lines come to is what they say. */
  lemma {:induction false} EffectsSay(p: Parser, ls: seq<Line>)
    requires LineTexts(ls)
    ensures var q := Effects(p, ls);
            (q.flags.close <==> p.flags.close || Says(ls, "close")) &&
            (q.flags.keepAlive <==> p.flags.keepAlive || Says(ls, "keep-alive"))
    decreases |ls|
  {
    if ls != [] {
      assert ls[0] in ls && forall l <- ls[1..] :: l in ls;
      assert [ls[0]] + ls[1..] == ls;
      LineSays(p, ls[0]);
      EffectsSay(Effect(p, ls[0]), ls[1..]);
      SaysSplit(ls[0], ls[1..], "close");
      SaysSplit(ls[0], ls[1..], "keep-alive");
    }
  }

  lemma {:induction false} EffectsDeclare(p: Parser, ls: seq<Line>)
    requires LineTexts(ls)
    ensures var q := Effects(p, ls);
            q.flags.chunked || q.length != ULLONG_MAX ==> p.flags.chunked || p.length != ULLONG_MAX || Declares(ls)
    decreases |ls|
  {
    if ls != [] {
      assert ls[0] in ls && forall l <- ls[1..] :: l in ls;
      assert [ls[0]] + ls[1..] == ls;
      LineDeclares(p, ls[0]);
      EffectsDeclare(Effect(p, ls[0]), ls[1..]);
      DeclaresSplit(ls[0], ls[1..]);
    }
  }

  lemma SaysBoth(a: seq<Line>, b: seq<Line>, word: string)
    ensures Says(a + b, word) <==> Says(a, word) || Says(b, word)
  {
    assert forall k <- a + b :: k in a || k in b;
    assert forall k <- a :: k in a + b;
    assert forall k <- b :: k in a + b;
  }

  /** A message that is acceptable ends by what it says. */
  lemma AcceptableEnds(m: Message)
    requires Acceptable(m)
    ensures EndKnown(m)
  {
    var p := Started(InitialParser(KindOf(m.start)), m.start);
    StartedIs(InitialParser(KindOf(m.start)), m.start);
    SummaryIs(m);
    EffectsDeclare(p, m.lines);
  }

  /** The state for the next message. */
  lemma StateExact(m: Message)
    requires Acceptable(m) && LineTexts(Trailer(m.payload))
    ensures NewMessage(Ending(Summary(m), m.payload)) == if Persists(m) then InitialState(KindOf(m.start)) else Dead
  {
    var q := Ending(Summary(m), m.payload);
    SummaryIs(m);
    EndingIs(Summary(m), m.payload);
    AllSays(m);
    AcceptableEnds(m);
    EndingNeedsNoEof(m);
    NewState(q);
  }

  lemma NewState(p: Parser)
    requires !MessageNeedsEof(p) && !p.kind.Both?
    ensures NewMessage(p) ==
            if (if p.major > 0 && p.minor > 0 then !p.flags.close else p.flags.keepAlive) then InitialState(p.kind) else Dead
  {
  }

  /** All lines together, before the body and behind it. */
  lemma AllSays(m: Message)
    requires HeadText(m) && LineTexts(Trailer(m.payload))
    ensures var q, ls := Ending(Summary(m), m.payload), m.lines + Trailer(m.payload);
            (q.flags.close <==> Says(ls, "close")) && (q.flags.keepAlive <==> Says(ls, "keep-alive")) &&
            q.major == Numeral(0, 10, m.start.major) && q.minor == Numeral(0, 10, m.start.minor)
  {
    var p, ts := Started(InitialParser(KindOf(m.start)), m.start), Trailer(m.payload);
    StartedIs(InitialParser(KindOf(m.start)), m.start);
    SummaryIs(m);
    EffectsSay(p, m.lines);
    EndingSays(Summary(m), m.payload);
    SaysBoth(m.lines, ts, "close");
    SaysBoth(m.lines, ts, "keep-alive");
  }

  lemma EndingSays(p: Parser, b: Payload)
    requires LineTexts(Trailer(b))
    ensures var q := Ending(p, b);
            (q.flags.close <==> p.flags.close || Says(Trailer(b), "close")) &&
            (q.flags.keepAlive <==> p.flags.keepAlive || Says(Trailer(b), "keep-alive")) &&
            q.major == p.major && q.minor == p.minor
  {
    if b.Pieces? {
      EffectsSay(Opened(p, 0), b.trailer);
      EffectsExact(Opened(p, 0), Opened(p, 0), b.trailer);
    }
  }

  lemma EndingNeedsNoEof(m: Message)
    requires Acceptable(m) && LineTexts(Trailer(m.payload))
    ensures !MessageNeedsEof(Ending(Summary(m), m.payload))
  {
    var q := Summary(m);
    if m.payload.Pieces? {
      StaysChunked(Opened(q, 0), m.payload.trailer);
    } else {
      NeedsEofExact(q);
    }
  }

  lemma {:induction false} StaysChunked(p: Parser, ls: seq<Line>)
    requires LineTexts(ls) && p.flags.chunked
    ensures Effects(p, ls).flags.chunked && Effects(p, ls).kind == p.kind && Effects(p, ls).status == p.status
    decreases |ls|
  {
    if ls != [] {
      assert ls[0] in ls && forall l <- ls[1..] :: l in ls;
      StaysChunked(Effect(p, ls[0]), ls[1..]);
    }
  }

  /** The start line and the headers, and how the parser stands behind them. */
  lemma HeadAkin(p: Parser, m: Message, n: nat)
    requires HeadText(m) && Ready(p, KindOf(m.start), n)
    ensures Akin(Effects(Started(p, m.start), m.lines), Summary(m))
  {
    StartedAkin(p, m.start, n);
    EffectsAkin(Started(p, m.start), Started(InitialParser(KindOf(m.start)), m.start), m.lines);
  }

  /** A message is taken whole: it begins with its start line, its headers and
      its body are handed out as they are written, and it completes with its
      last byte; the connection stays open as its headers say. */
  lemma MessageTaken(p: Parser, m: Message, n: nat, hooks: Hooks) returns (r: Ran)
    requires Ready(p, KindOf(m.start), n) && p.state == InitialState(KindOf(m.start)) && Calm(hooks)
    requires Acceptable(m) && n + HeadSize(m) <= MAX_HEADER_SIZE
    ensures r == Run(Bytewise(hooks), p, MessageText(m)) && r.exit.Next? && r.used == |MessageText(m)|
    ensures Ready(r.p, KindOf(m.start), TrailerSize(m.payload))
    ensures r.p.state == if Persists(m) then InitialState(KindOf(m.start)) else Dead
    ensures Norm(r.events) == Norm(EventsOf(m))
  {
    var s := StartRun(p, m.start, hooks);
    HeadAkin(p, m, n);
    var q := Effects(s.p, m.lines);
    FramedAlike(Summary(m), q, m.payload);
    var x := MessageRun(s.p, m.lines, m.payload, hooks);
    ConcludedAlike(Ending(q, m.payload), Ending(Summary(m), m.payload), x, TrailerSize(m.payload));
    CalmComplete(x, hooks);
    Joined(Bytewise(hooks), p, StartBytes(m.start), s, StartEvents(m.start), MessageBytes(m.lines, m.payload), hooks, x,
           MessageEvents(m.lines, m.payload));
    r := Run(Bytewise(hooks), p, MessageText(m));
    ReadyAfter(m, x);
  }

  lemma ReadyAfter(m: Message, x: Parser)
    requires Acceptable(m) && LineTexts(Trailer(m.payload)) && Concluded(Ending(Summary(m), m.payload), x, TrailerSize(m.payload))
    ensures Ready(To(x, NewMessage(x)), KindOf(m.start), TrailerSize(m.payload))
    ensures NewMessage(x) == if Persists(m) then InitialState(KindOf(m.start)) else Dead
  {
    StateExact(m);
    SummaryIs(m);
    EndingIs(Summary(m), m.payload);
    FreshState(x);
  }

  /** The state for a new message is one about which nothing special is known. */
  lemma FreshState(x: Parser)
    requires x.errno.Ok? && Bounded(x)
    ensures Good(To(x, NewMessage(x)))
  {
  }

  lemma EndingIs(p: Parser, b: Payload)
    requires LineTexts(Trailer(b))
    ensures var q := Ending(p, b); q.kind == p.kind && q.verb == p.verb && q.status == p.status
  {
    if b.Pieces? { EffectsExact(Opened(p, 0), Opened(p, 0), b.trailer); }
  }

  lemma DeadByte(p: Parser, ch: char, hooks: Hooks)
    requires Good(p) && p.state.Dead? && Room(p, 1) && ch != '\r' && ch != '\n'
    ensures var r := OneByte(p, ch, hooks); r.exit.Error? && r.p.errno.ClosedConnection?
  {
    FreeDoes(p, ch, hooks);
  }

  lemma RequestByte(p: Parser, ch: char, hooks: Hooks)
    requires Good(p) && p.state.StartReq? && Room(p, 1) && ch != '\r' && ch != '\n' && Calm(hooks)
    ensures !OneByte(p, ch, hooks).p.errno.ClosedConnection?
  {
    FirstLetter(p, ch, hooks);
  }

  lemma ResponseByte(p: Parser, ch: char, hooks: Hooks)
    requires Good(p) && p.state.StartRes? && Room(p, 1) && ch != '\r' && ch != '\n' && Calm(hooks)
    ensures !OneByte(p, ch, hooks).p.errno.ClosedConnection?
  {
    if ch == 'H' {
      HttpResponse.BeginsWithH(p, hooks);
    } else {
      FreeDoes(p, ch, hooks);
    }
  }

  /** What comes behind a message is refused, as on a closed connection, if and
      only if the message does not leave the connection open. */
  lemma NextExact(p: Parser, m: Message, n: nat, ch: char, hooks: Hooks)
    requires Ready(p, KindOf(m.start), n) && p.state == InitialState(KindOf(m.start)) && Calm(hooks)
    requires Acceptable(m) && n + HeadSize(m) <= MAX_HEADER_SIZE && TrailerSize(m.payload) < MAX_HEADER_SIZE
    requires ch != '\r' && ch != '\n'
    ensures var r := Run(Bytewise(hooks), p, MessageText(m) + [ch]);
            r.exit.Error? && r.p.errno.ClosedConnection? <==> !Persists(m)
  {
    var a := MessageTaken(p, m, n, hooks);
    var b := OneByte(a.p, ch, hooks);
    LastByte(Bytewise(hooks), a.p, ch, b);
    RunAppend(Bytewise(hooks), p, MessageText(m), [ch]);
    if !Persists(m) {
      DeadByte(a.p, ch, hooks);
    } else if m.start.RequestLine? {
      RequestByte(a.p, ch, hooks);
    } else {
      ResponseByte(a.p, ch, hooks);
    }
  }

  /** A response whose body lasts until the end of input. */
  predicate Unending(m: Message) { HeadText(m) && m.payload.Whole? && Closing(Summary(m)) }

  function OpenEventsOf(m: Message): seq<Event> { StartEvents(m.start) + OpenEvents(m.lines, PayloadText(m.payload)) }

  lemma UnendingTaken(p: Parser, m: Message, n: nat, hooks: Hooks) returns (r: Ran)
    requires Ready(p, KindOf(m.start), n) && p.state == InitialState(KindOf(m.start)) && Calm(hooks)
    requires Unending(m) && n + HeadSize(m) <= MAX_HEADER_SIZE
    ensures r == Run(Bytewise(hooks), p, MessageText(m)) && r.exit.Next? && r.used == |MessageText(m)|
    ensures Good(r.p) && r.p.state.BodyIdentityEof? && Norm(r.events) == Norm(OpenEventsOf(m))
  {
    var s := StartRun(p, m.start, hooks);
    HeadAkin(p, m, n);
    var t := ClosingRun(s.p, m.lines, m.payload.text, hooks);
    r := Run(Bytewise(hooks), p, MessageText(m));
    InTwo(Bytewise(hooks), p, StartBytes(m.start), s, MessageBytes(m.lines, m.payload), t,
          StartEvents(m.start), OpenEvents(m.lines, m.payload.text));
  }

  /** A run in two parts. */
  lemma InTwo(step: Stepper, p: Parser, a: string, s: Ran, b: string, t: Ran, es: seq<Event>, fs: seq<Event>)
    requires s == Run(step, p, a) && s.exit.Next? && s.used == |a| && t == Run(step, s.p, b)
    requires Norm(s.events) == Norm(es) && Norm(t.events) == Norm(fs)
    ensures var r := Run(step, p, a + b);
            r.p == t.p && r.exit == t.exit && r.used == |a| + t.used && Norm(r.events) == Norm(es + fs)
  {
    RunAppend(step, p, a, b);
    NormBoth(s.events, t.events, es, fs);
  }

  /** A message that asks for another protocol, by CONNECT or by a header. */
  predicate Leaving(m: Message) { HeadText(m) && m.payload == Whole("") && Tunnel(Summary(m)) }

  lemma LeavingTaken(p: Parser, m: Message, rest: string, n: nat, hooks: Hooks) returns (r: Ran)
    requires Ready(p, KindOf(m.start), n) && p.state == InitialState(KindOf(m.start)) && Calm(hooks)
    requires Leaving(m) && n + HeadSize(m) <= MAX_HEADER_SIZE
    ensures r == Run(Bytewise(hooks), p, MessageText(m) + rest) && r.exit.Leave? && r.used == |MessageText(m)|
    ensures r.p.upgrade && r.p.errno.Ok? && Norm(r.events) == Norm(EventsOf(m))
  {
    var s := StartRun(p, m.start, hooks);
    HeadAkin(p, m, n);
    var t := TunnelRun(s.p, m.lines, rest, hooks);
    r := Run(Bytewise(hooks), p, MessageText(m) + rest);
    Regrouped(StartBytes(m.start), MessageBytes(m.lines, m.payload), rest);
    InTwo(Bytewise(hooks), p, StartBytes(m.start), s, MessageBytes(m.lines, m.payload) + rest, t,
          StartEvents(m.start), MessageEvents(m.lines, m.payload));
  }

  // ------------------------------------------------- one message after another

  /** The messages are acceptable and within the limit of the header, on which
      `n` bytes are counted to begin with, and all but the last one keep the
      connection open; the last one too, if there is more to come. */
  ghost predicate Conversation(kind: ParserType, ms: seq<Message>, n: nat, more: bool)
    decreases |ms|
  {
    ms != [] ==>
      Acceptable(ms[0]) && KindOf(ms[0].start) == kind && n + HeadSize(ms[0]) <= MAX_HEADER_SIZE &&
      (|ms| > 1 || more ==> KeepsOpen(ms[0])) && Conversation(kind, ms[1..], TrailerSize(ms[0].payload), more)
  }

  /** The bytes counted after them. */
  function CountAfter(ms: seq<Message>, n: nat): nat { if ms == [] then n else TrailerSize(ms[|ms| - 1].payload) }

  function AllText(ms: seq<Message>): string {
    if ms == [] then "" else MessageText(ms[0]) + AllText(ms[1..])
  }

  function AllEvents(ms: seq<Message>): seq<Event> {
    if ms == [] then [] else EventsOf(ms[0]) + AllEvents(ms[1..])
  }

  lemma {:induction false} TurnsTaken(p: Parser, kind: ParserType, ms: seq<Message>, n: nat, more: bool, hooks: Hooks) returns (r: Ran)
    requires Ready(p, kind, n) && p.state == InitialState(kind) && Calm(hooks) && Conversation(kind, ms, n, more)
    ensures r == Run(Bytewise(hooks), p, AllText(ms)) && r.exit.Next? && r.used == |AllText(ms)|
    ensures Ready(r.p, kind, CountAfter(ms, n)) && (more ==> r.p.state == InitialState(kind))
    ensures Norm(r.events) == Norm(AllEvents(ms))
    decreases |ms|
  {
    r := Run(Bytewise(hooks), p, AllText(ms));
    if ms != [] {
      var a := MessageTaken(p, ms[0], n, hooks);
      var b := Run(Bytewise(hooks), a.p, AllText(ms[1..]));
      if |ms| > 1 || more {
        b := TurnsTaken(a.p, kind, ms[1..], TrailerSize(ms[0].payload), more, hooks);
      } else {
        assert AllText(ms[1..]) == "" && AllEvents(ms[1..]) == [];
      }
      NextTurn(Bytewise(hooks), p, ms, a, b);
    }
  }

  lemma NextTurn(step: Stepper, p: Parser, ms: seq<Message>, a: Ran, b: Ran)
    requires ms != [] && a == Run(step, p, MessageText(ms[0])) && a.exit.Next? && a.used == |MessageText(ms[0])|
    requires b == Run(step, a.p, AllText(ms[1..])) && b.exit.Next? && b.used == |AllText(ms[1..])|
    requires Norm(a.events) == Norm(EventsOf(ms[0])) && Norm(b.events) == Norm(AllEvents(ms[1..]))
    ensures var r := Run(step, p, AllText(ms));
            r.p == b.p && r.exit.Next? && r.used == |AllText(ms)| && Norm(r.events) == Norm(AllEvents(ms))
  {
    RunAppend(step, p, MessageText(ms[0]), AllText(ms[1..]));
    NormBoth(a.events, b.events, EventsOf(ms[0]), AllEvents(ms[1..]));
  }

  // ---------------------------------------------------------- what is reported

  /** The headers reported of a message. */
  function HeadersOf(m: Message): seq<Header> { HeadersSeen(INITIAL, Headers(m.lines), Headers(Trailer(m.payload))) }

  function AllHeaders(ms: seq<Message>): seq<Header> {
    if ms == [] then [] else HeadersOf(ms[0]) + AllHeaders(ms[1..])
  }

  function AllBodies(ms: seq<Message>): string {
    if ms == [] then "" else PayloadText(ms[0].payload) + AllBodies(ms[1..])
  }

  lemma HandleStart(a: Assembly, s: StartLine)
    ensures HandleAll(a, StartEvents(s)) == INITIAL.(headers := a.headers)
  {
    var e := if s.RequestLine? then Piece(Url, s.target) else Note(StatusComplete);
    assert StartEvents(s) == [Note(MessageBegin)] + [e];
    HandleLast(a, [Note(MessageBegin)], e);
    HandleLast(a, [], Note(MessageBegin));
    assert [] + [Note(MessageBegin)] == [Note(MessageBegin)];
  }

  lemma SeenFrom(before: seq<Header>, hs: seq<Header>, ts: seq<Header>)
    ensures HeadersSeen(INITIAL.(headers := before), hs, ts) == before + HeadersSeen(INITIAL, hs, ts)
  {
    assert INITIAL.(headers := before).(headers := []) == INITIAL.(headers := []);
    var tail := if ts == [] then [] else AtHand(INITIAL, hs) + ts[..|ts| - 1];
    assert HeadersSeen(INITIAL, hs, ts) == [] + hs + tail;
    assert before + ([] + hs + tail) == before + hs + tail;
  }

  lemma HandleEvents(a: Assembly, m: Message)
    requires LineTexts(m.lines) && LineTexts(Trailer(m.payload))
    ensures HandleAll(a, EventsOf(m)).headers == a.headers + HeadersOf(m)
  {
    HandleAllAppend(a, StartEvents(m.start), MessageEvents(m.lines, m.payload));
    HandleStart(a, m.start);
    HandleMessage(INITIAL.(headers := a.headers), m.lines, m.payload);
    SeenFrom(a.headers, Headers(m.lines), Headers(Trailer(m.payload)));
  }

  lemma {:induction false} HandleTurns(a: Assembly, kind: ParserType, ms: seq<Message>, n: nat, more: bool)
    requires Conversation(kind, ms, n, more)
    ensures HandleAll(a, AllEvents(ms)).headers == a.headers + AllHeaders(ms)
    decreases |ms|
  {
    if ms != [] {
      FramedTrailer(Summary(ms[0]), ms[0].payload);
      HandleAllAppend(a, EventsOf(ms[0]), AllEvents(ms[1..]));
      HandleEvents(a, ms[0]);
      HandleTurns(HandleAll(a, EventsOf(ms[0])), kind, ms[1..], TrailerSize(ms[0].payload), more);
      Regrouped(a.headers, HeadersOf(ms[0]), AllHeaders(ms[1..]));
    }
  }

  lemma EventsBytes(m: Message)
    ensures BodyBytes(EventsOf(m)) == PayloadText(m.payload)
  {
    var e := if m.start.RequestLine? then Piece(Url, m.start.target) else Note(StatusComplete);
    assert StartEvents(m.start) == [Note(MessageBegin)] + [e];
    OneBody(Note(MessageBegin));
    OneBody(e);
    BodyBytesAppend([Note(MessageBegin)], [e]);
    MessageBody(m.lines, m.payload);
    BodyBytesAppend(StartEvents(m.start), MessageEvents(m.lines, m.payload));
    assert "" + PayloadText(m.payload) == PayloadText(m.payload);
  }

  lemma {:induction false} TurnsBytes(ms: seq<Message>)
    ensures BodyBytes(AllEvents(ms)) == AllBodies(ms)
    decreases |ms|
  {
    if ms != [] {
      EventsBytes(ms[0]);
      TurnsBytes(ms[1..]);
      BodyBytesAppend(EventsOf(ms[0]), AllEvents(ms[1..]));
    }
  }

  /** `es`, in any cut, are the callbacks of messages and of one more: headers
      and bodies reported are theirs. */
  lemma TurnsReported(kind: ParserType, ms: seq<Message>, m: Message, es: seq<Event>)
    requires Conversation(kind, ms, 2, true) && LineTexts(m.lines) && LineTexts(Trailer(m.payload))
    requires Norm(es) == Norm(AllEvents(ms) + EventsOf(m))
    ensures HandleAll(INITIAL, es).headers == AllHeaders(ms) + HeadersOf(m)
    ensures BodyBytes(es) == AllBodies(ms) + PayloadText(m.payload)
  {
    var all := AllEvents(ms) + EventsOf(m);
    HandleNorm(INITIAL, es);
    HandleNorm(INITIAL, all);
    HandleAllAppend(INITIAL, AllEvents(ms), EventsOf(m));
    HandleTurns(INITIAL, kind, ms, 2, true);
    HandleEvents(HandleAll(INITIAL, AllEvents(ms)), m);
    NothingFirst(AllHeaders(ms));
    BodyBytesNorm(es);
    BodyBytesNorm(all);
    BodyBytesAppend(AllEvents(ms), EventsOf(m));
    TurnsBytes(ms);
    EventsBytes(m);
  }

  // ------------------------------------------------------- cut into buffers

  lemma FlattenPart(buffers: seq<string>, k: nat)
    requires k <= |buffers|
    ensures Flatten(buffers) == Flatten(buffers[..k]) + Flatten(buffers[k..])
  {
    assert buffers == buffers[..k] + buffers[k..];
    FlattenAppend(buffers[..k], buffers[k..]);
  }

  /** Some of the buffers of a connection: no error among them, and a change of
      protocol only where all of them come to one. */
  lemma PartOf(hooks: Hooks, p: Parser, buffers: seq<string>, k: nat)
    requires Good(p) && !p.upgrade && k <= |buffers|
    requires var r := Run(Bytewise(hooks), p, Flatten(buffers)); r.exit.Next? || r.exit.Leave?
    ensures var a := Run(Bytewise(hooks), p, Flatten(buffers[..k]));
            a.p.errno.Ok? && (a.p.upgrade ==> a == Run(Bytewise(hooks), p, Flatten(buffers)) && a.exit.Leave?)
  {
    FlattenPart(buffers, k);
    BytewiseIsTrusty(hooks);
    RunAppend(Bytewise(hooks), p, Flatten(buffers[..k]), Flatten(buffers[k..]));
    RunKeepsGood(Bytewise(hooks), p, Flatten(buffers[..k]));
    LeaveUpgrades(hooks, p, Flatten(buffers[..k]));
  }

  /** A connection on which requests, or responses, come in, in buffers cut
      anywhere: nothing is answered with an error, and what is reported, of the
      headers and of the bodies, is what they say, one after another. */
  method ServeAll(kind: ParserType, ghost ms: seq<Message>, buffers: seq<string>, hooks: Hooks) returns (server: Assembler, code: nat)
    requires !kind.Both? && Calm(hooks) && Conversation(kind, ms, 2, false)
    requires Flatten(buffers) == AllText(ms) && forall b <- buffers :: b != ""
    ensures fresh(server) && code == 0 && server.headers == AllHeaders(ms)
    ensures BodyBytes(server.parser.trace) == AllBodies(ms) && Norm(server.parser.trace) == Norm(AllEvents(ms))
  {
    server := new Assembler(kind, hooks);
    ghost var p := server.parser.p;
    InitialReady(kind);
    ghost var used, fed;
    code, used, fed := server.Serve(buffers);
    ghost var r := TurnsTaken(p, kind, ms, 2, false, hooks);
    PartOf(hooks, p, buffers, used);
    TurnsServed(kind, ms, r.events, server.parser.trace);
  }

  lemma TurnsServed(kind: ParserType, ms: seq<Message>, es: seq<Event>, trace: seq<Event>)
    requires Conversation(kind, ms, 2, false) && Norm(es) == Norm(AllEvents(ms)) && Norm(trace) == Norm(es)
    ensures HandleAll(INITIAL, es).headers == AllHeaders(ms) && BodyBytes(trace) == AllBodies(ms)
  {
    HandleNorm(INITIAL, es);
    HandleNorm(INITIAL, AllEvents(ms));
    HandleTurns(INITIAL, kind, ms, 2, false);
    NothingFirst(AllHeaders(ms));
    BodyBytesNorm(trace);
    BodyBytesNorm(AllEvents(ms));
    TurnsBytes(ms);
  }

  lemma InitialReady(kind: ParserType)
    requires !kind.Both?
    ensures Ready(InitialParser(kind), kind, 2)
  {
  }

  /** Messages and one that leaves for another protocol, as one run. */
  lemma TurnsThenLeave(p: Parser, kind: ParserType, ms: seq<Message>, m: Message, rest: string, hooks: Hooks) returns (r: Ran)
    requires Ready(p, kind, 2) && p.state == InitialState(kind) && Calm(hooks) && Conversation(kind, ms, 2, true)
    requires KindOf(m.start) == kind && Leaving(m) && CountAfter(ms, 2) + HeadSize(m) <= MAX_HEADER_SIZE
    ensures r == Run(Bytewise(hooks), p, AllText(ms) + (MessageText(m) + rest)) && r.exit.Leave? && r.p.upgrade
    ensures Norm(r.events) == Norm(AllEvents(ms) + EventsOf(m))
  {
    r := Run(Bytewise(hooks), p, AllText(ms) + (MessageText(m) + rest));
    var a := TurnsTaken(p, kind, ms, 2, true, hooks);
    var b := LeavingTaken(a.p, m, rest, CountAfter(ms, 2), hooks);
    RunAppend(Bytewise(hooks), p, AllText(ms), MessageText(m) + rest);
    NormBoth(a.events, b.events, AllEvents(ms), EventsOf(m));
  }

  /** Messages and one whose body lasts until the end, as one run. */
  lemma TurnsThenOpen(p: Parser, kind: ParserType, ms: seq<Message>, m: Message, hooks: Hooks) returns (r: Ran)
    requires Ready(p, kind, 2) && p.state == InitialState(kind) && Calm(hooks) && Conversation(kind, ms, 2, true)
    requires KindOf(m.start) == kind && Unending(m) && CountAfter(ms, 2) + HeadSize(m) <= MAX_HEADER_SIZE
    ensures r == Run(Bytewise(hooks), p, AllText(ms) + MessageText(m)) && r.exit.Next? && Good(r.p) && r.p.state.BodyIdentityEof?
    ensures Norm(r.events) == Norm(AllEvents(ms) + OpenEventsOf(m))
  {
    r := Run(Bytewise(hooks), p, AllText(ms) + MessageText(m));
    var a := TurnsTaken(p, kind, ms, 2, true, hooks);
    var b := UnendingTaken(a.p, m, CountAfter(ms, 2), hooks);
    RunAppend(Bytewise(hooks), p, AllText(ms), MessageText(m));
    NormBoth(a.events, b.events, AllEvents(ms), OpenEventsOf(m));
  }

  /** Messages, and one that asks for another protocol: nothing behind it is
      taken for HTTP, whatever it is and wherever it was cut. */
  method ServeLeaving(kind: ParserType, ghost ms: seq<Message>, ghost m: Message, ghost rest: string, buffers: seq<string>, hooks: Hooks)
    returns (server: Assembler, code: nat)
    requires !kind.Both? && Calm(hooks) && Conversation(kind, ms, 2, true)
    requires KindOf(m.start) == kind && Leaving(m) && CountAfter(ms, 2) + HeadSize(m) <= MAX_HEADER_SIZE
    requires Flatten(buffers) == AllText(ms) + (MessageText(m) + rest) && forall b <- buffers :: b != ""
    ensures fresh(server) && code == 0 && server.parser.p.upgrade
    ensures server.headers == AllHeaders(ms) + HeadersOf(m) && BodyBytes(server.parser.trace) == AllBodies(ms)
    ensures Norm(server.parser.trace) == Norm(AllEvents(ms) + EventsOf(m))
  {
    server := new Assembler(kind, hooks);
    ghost var p := server.parser.p;
    InitialReady(kind);
    ghost var used, fed;
    code, used, fed := server.Serve(buffers);
    ghost var r := TurnsThenLeave(p, kind, ms, m, rest, hooks);
    PartOf(hooks, p, buffers, used);
    TurnsReported(kind, ms, m, r.events);
    TurnsReported(kind, ms, m, server.parser.trace);
    assert AllBodies(ms) + "" == AllBodies(ms);
  }

  /** Responses, and one whose body lasts until the end, as far as that. */
  method ServeOpen(ghost ms: seq<Message>, ghost m: Message, buffers: seq<string>, hooks: Hooks) returns (server: Assembler)
    requires Calm(hooks) && Conversation(Response, ms, 2, true)
    requires KindOf(m.start) == Response && Unending(m) && CountAfter(ms, 2) + HeadSize(m) <= MAX_HEADER_SIZE
    requires Flatten(buffers) == AllText(ms) + MessageText(m) && forall b <- buffers :: b != ""
    ensures fresh(server) && fresh(server.parser) && server.Valid() && Good(server.parser.p)
    ensures server.parser.p.state.BodyIdentityEof? && !server.parser.p.upgrade
    ensures Norm(server.parser.trace) == Norm(AllEvents(ms) + OpenEventsOf(m))
  {
    server := new Assembler(Response, hooks);
    ghost var p := server.parser.p;
    InitialReady(Response);
    var code;
    ghost var used, fed;
    code, used, fed := server.Serve(buffers);
    ghost var r := TurnsThenOpen(p, Response, ms, m, hooks);
    PartOf(hooks, p, buffers, used);
  }

  /** Responses, and one whose body lasts until the connection ends: all that is
      left is its body, and the end completes it. */
  method ServeUnending(ghost ms: seq<Message>, ghost m: Message, buffers: seq<string>, hooks: Hooks) returns (server: Assembler, code: nat)
    requires Calm(hooks) && Conversation(Response, ms, 2, true)
    requires KindOf(m.start) == Response && Unending(m) && CountAfter(ms, 2) + HeadSize(m) <= MAX_HEADER_SIZE
    requires Flatten(buffers) == AllText(ms) + MessageText(m) && forall b <- buffers :: b != ""
    ensures fresh(server) && code == 0
    ensures server.headers == AllHeaders(ms) + HeadersOf(m)
    ensures BodyBytes(server.parser.trace) == AllBodies(ms) + PayloadText(m.payload)
    ensures Norm(server.parser.trace) == Norm(AllEvents(ms) + EventsOf(m))
  {
    server := ServeOpen(ms, m, buffers, hooks);
    ghost var before := server.parser.trace;
    code := server.End();
    UnendingServed(ms, m, before, server.parser.trace);
  }

  /** The end of the connection completes the message. */
  lemma UnendingServed(ms: seq<Message>, m: Message, before: seq<Event>, trace: seq<Event>)
    requires Conversation(Response, ms, 2, true) && Unending(m) && Norm(before) == Norm(AllEvents(ms) + OpenEventsOf(m))
    requires before <= trace && trace[|before|..] == [Note(MessageComplete)]
    ensures HandleAll(INITIAL, trace).headers == AllHeaders(ms) + HeadersOf(m)
    ensures BodyBytes(trace) == AllBodies(ms) + PayloadText(m.payload) && Norm(trace) == Norm(AllEvents(ms) + EventsOf(m))
  {
    assert trace == before + [Note(MessageComplete)];
    NormBoth(before, [Note(MessageComplete)], AllEvents(ms) + OpenEventsOf(m), [Note(MessageComplete)]);
    ClosedEvents(ms, m);
    TurnsReported(Response, ms, m, trace);
  }

  lemma ClosedEvents(ms: seq<Message>, m: Message)
    requires m.payload.Whole?
    ensures AllEvents(ms) + OpenEventsOf(m) + [Note(MessageComplete)] == AllEvents(ms) + EventsOf(m)
  {
    var end := [Note(MessageComplete)];
    assert EndEvents(Trailer(m.payload)) == [] + end;
    NothingFirst(end);
    AtTheEnd(AllEvents(ms), StartEvents(m.start), Block(Headers(m.lines)), [Note(HeadersComplete)], Contents(PayloadText(m.payload)), end);
  }

  lemma AtTheEnd<T>(a: seq<T>, b: seq<T>, c: seq<T>, d: seq<T>, e: seq<T>, f: seq<T>)
    ensures a + (b + (c + (d + e))) + f == a + (b + (c + (d + (e + f))))
  {
  }

  // ----------------------------------------------------- a trailer that is lost

  /** A request with one header, no data, and a trailer of one line. */
  function Sample(): Message {
    Message(RequestLine(GET, "/", "1", "1"), [Line("transfer-encoding", "", "chunked")],
            Pieces([], Chunk("0", "", ""), [Line("a", "", "b")]))
  }

  lemma SampleStart()
    ensures StartText(Sample().start) && |StartBytes(Sample().start)| < 100
  {
    var s := Sample().start;
    assert "/"[..0] == "";
    assert ParseUrlChar(ReqSpacesBeforeUrl, '/') == ReqPath;
    assert HttpRequest.Target(GET, "/");
    assert "1"[1..] == "";
    assert Number("1");
  }

  lemma SampleNames()
    ensures Known(Lowered("transfer-encoding")) == TransferEncoding && Known(Lowered("a")) == General
  {
    assert Lowered("transfer-encoding") == "transfer-encoding";
    assert Lowered("a") == "a";
  }

  lemma SampleHeader()
    ensures LineText(Line("transfer-encoding", "", "chunked"))
  {
    SampleNames();
    SampleToken();
  }

  lemma SampleToken()
    ensures IsToken("transfer-encoding")
  {
  }

  lemma SampleTrailer()
    ensures LineText(Line("a", "", "b"))
  {
    SampleNames();
  }

  lemma OneLine(l: Line)
    requires LineText(l)
    ensures LineTexts([l]) && BlockBytes([l]) == LineBytes(l) && Headers([l]) == [(l.name, l.value)]
  {
    assert [l][1..] == [];
  }

  lemma SampleLines()
    ensures LineTexts(Sample().lines) && LineTexts(Trailer(Sample().payload))
    ensures |BlockBytes(Sample().lines)| < 100 && |TrailerBytes(Trailer(Sample().payload))| < 100
    ensures Headers(Sample().lines) == [("transfer-encoding", "chunked")] && Headers(Trailer(Sample().payload)) == [("a", "b")]
  {
    SampleHeader();
    SampleTrailer();
    OneLine(Line("transfer-encoding", "", "chunked"));
    OneLine(Line("a", "", "b"));
  }

  lemma SampleChunk()
    ensures Chunking([], Chunk("0", "", ""))
  {
    assert "0"[1..] == "";
  }

  lemma SampleFramed()
    ensures Acceptable(Sample())
  {
    SampleStart();
    SampleLines();
    SampleChunk();
    SampleSummary();
  }

  lemma SampleSpaced()
    ensures Spaced("chunked", "chunked")
  {
    assert "chunked"[..7] == "chunked" && LowerAll("chunked") == "chunked";
  }

  lemma OneEffect(p: Parser, l: Line)
    requires LineText(l)
    ensures LineTexts([l]) && Effects(p, [l]) == Effect(p, l)
  {
    assert [l][1..] == [];
  }

  lemma SampleSummary()
    requires HeadText(Sample())
    ensures Ordinary(Summary(Sample())) && Summary(Sample()).flags.chunked
  {
    SampleHeader();
    SampleNames();
    SampleSpaced();
    OneEffect(Started(InitialParser(Request), Sample().start), Line("transfer-encoding", "", "chunked"));
  }

  lemma SampleAlone()
    ensures Conversation(Request, [Sample()], 2, false) && AllText([Sample()]) == MessageText(Sample())
    ensures AllHeaders([Sample()]) == HeadersOf(Sample())
  {
    SampleStart();
    SampleLines();
    SampleFramed();
    assert [Sample()][1..] == [] && AllText([]) == "" && AllHeaders([]) == [];
  }

  lemma SampleHeaders()
    ensures HeadersOf(Sample()) == [("transfer-encoding", "chunked"), ("transfer-encoding", "chunked")]
  {
    SampleLines();
    assert Report(INITIAL) == [];
  }

  lemma OneBuffer(s: string)
    ensures Flatten([s]) == s
  {
    assert [s][1..] == [];
  }

  /** Its trailer is not reported; its header is, twice. */
  method TrailerLost(hooks: Hooks) returns (headers: seq<Header>)
    requires Calm(hooks)
    ensures headers == [("transfer-encoding", "chunked"), ("transfer-encoding", "chunked")]
  {
    SampleAlone();
    SampleHeaders();
    var input := MessageText(Sample());
    OneBuffer(input);
    assert input != "";
    var server, code := ServeAll(Request, [Sample()], [input], hooks);
    headers := server.headers;
  }
}
