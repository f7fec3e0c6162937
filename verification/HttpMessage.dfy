/** Whole messages from the first header on: a block of headers, the blank line,
  and what comes then: a body framed by what the headers say, the rest of the
  connection, or another protocol. */
module HttpMessage {
  import opened Common
  import opened HttpTypes
  import opened HttpStep
  import opened HttpRun
  import opened HttpParser
  import opened HttpSplit
  import opened HttpFraming
  import opened HttpLength
  import opened HttpLine
  import opened HttpHeaders
  import opened HttpAssembler

  // ------------------------------------------------- what the headers add up to

  predicate LineTexts(ls: seq<Line>) { forall l <- ls :: LineText(l) }

  /** Every byte of the block is counted; beyond that headers set flags and the
      length, and these only by what they were before. */
  lemma {:induction false} EffectsExact(p: Parser, q: Parser, ls: seq<Line>)
    requires LineTexts(ls) && p.flags == q.flags && p.length == q.length
    ensures var a, b := Effects(p, ls), Effects(q, ls);
            a == p.(flags := a.flags, length := a.length, nread := p.nread + |BlockBytes(ls)|) &&
            a.flags == b.flags && a.length == b.length
    decreases |ls|
  {
    if ls != [] {
      assert ls[0] in ls && forall l <- ls[1..] :: l in ls;
      EffectsExact(Effect(p, ls[0]), Effect(q, ls[0]), ls[1..]);
    }
  }

  lemma {:induction false} EffectsTrailing(p: Parser, ls: seq<Line>)
    requires LineTexts(ls)
    ensures Effects(p, ls).flags.trailing == p.flags.trailing
    decreases |ls|
  {
    if ls != [] {
      assert ls[0] in ls && forall l <- ls[1..] :: l in ls;
      EffectTrailing(p, ls[0]);
      EffectsTrailing(Effect(p, ls[0]), ls[1..]);
    }
  }

  lemma EffectTrailing(p: Parser, l: Line)
    requires LineText(l)
    ensures Effect(p, l).flags.trailing == p.flags.trailing
  {
  }

  /** The parsers agree on all that decides about framing. */
  predicate Akin(p: Parser, q: Parser) {
    p.kind == q.kind && p.verb == q.verb && p.flags == q.flags && p.length == q.length &&
    p.major == q.major && p.minor == q.minor && p.status == q.status
  }

  lemma EffectsAkin(p: Parser, q: Parser, ls: seq<Line>)
    requires LineTexts(ls) && Akin(p, q)
    ensures Akin(Effects(p, ls), Effects(q, ls))
  {
    EffectsExact(p, q, ls);
    EffectsExact(q, p, ls);
  }

  // ------------------------------------------------------------ the blank line

  lemma BlankLineCr(p: Parser, hooks: Hooks)
    requires Good(p) && AtLine(p) && Room(p, 1)
    ensures Silent(Bytewise(hooks), p, '\r', HttpLength.Blank(p, HeadersAlmostDone, 1))
  {
    if p.state.HeaderValueLws? {
      BlankCr(p, hooks);
    } else {
      TrailerCr(p, hooks);
      assert To(p.(nread := p.nread + 1), HeadersAlmostDone) == HttpLength.Blank(p, HeadersAlmostDone, 1);
    }
  }

  /** A message without an upgrade, whose body is not declared away. */
  predicate Ordinary(p: Parser) {
    !p.flags.trailing && !p.flags.upgrade && !p.flags.skipBody && p.verb != CONNECT
  }

  /** The LF of the blank line: the callback, and on to what the headers say. */
  lemma OrdinaryLf(step: Stepper, p: Parser, hooks: Hooks, s: Step)
    requires p.state.HeadersAlmostDone? && Ordinary(p) && Obliging(hooks)
    requires Does(step, p, '\n', StepHeadersAlmostDone(Counted(p), '\n', hooks))
    requires s == StepHeadersDone(Counted(p).(state := HeadersDone, upgrade := false), '\n', hooks)
    requires s.flush.None? && s.mark.None? && s.exit.Next? == s.p.errno.Ok? && (s.exit.Next? || s.exit == Halt(true))
    ensures step(p, '\n') == Ran(s.p, Notes([HeadersComplete] + s.tells), s.exit, 1) && (s.exit.Next? ==> Good(s.p))
  {
    var q := Counted(p).(state := HeadersDone, upgrade := false);
    assert hooks(HeadersComplete, q).GoOn?;
    assert StepHeadersAlmostDone(Counted(p), '\n', hooks) == Told(HeadersComplete, s);
    var notes := Notes([HeadersComplete] + s.tells);
    assert notes + [] == notes;
  }

  lemma ChunkedLf(p: Parser, hooks: Hooks)
    requires Good(p) && p.state.HeadersAlmostDone? && Room(p, 1) && Ordinary(p) && p.flags.chunked && Obliging(hooks)
    ensures var q := To(Done(p), ChunkSizeStart);
            Bytewise(hooks)(p, '\n') == Ran(q, [Note(HeadersComplete)], Next, 1) && Good(q)
  {
    HeadersEndDoes(p, '\n', hooks);
    var s := Plain(To(Done(p), ChunkSizeStart));
    OrdinaryLf(Bytewise(hooks), p, hooks, s);
    NotesOfOne(HeadersComplete, s);
  }

  /** Without a length there is no body, unless the end of input ends it. */
  lemma UnframedLf(p: Parser, hooks: Hooks)
    requires Good(p) && p.state.HeadersAlmostDone? && Room(p, 1) && Ordinary(p) && Obliging(hooks)
    requires !p.flags.chunked && p.length == ULLONG_MAX && !MessageNeedsEof(p)
    ensures var t := Complete(Done(p), hooks);
            Bytewise(hooks)(p, '\n') == Ran(t.p, [Note(HeadersComplete), Note(MessageComplete)], t.exit, 1)
  {
    HeadersEndDoes(p, '\n', hooks);
    var t := Complete(Done(p), hooks);
    OrdinaryLf(Bytewise(hooks), p, hooks, t);
    NotesOfOne(HeadersComplete, t);
  }

  /** A response whose body lasts until the end of input. */
  predicate Closing(p: Parser) { Ordinary(p) && !p.flags.chunked && p.length == ULLONG_MAX && !Bodiless(p) }

  /** There is no body unless one is declared: of requests, and of responses with
      a status of 1xx, 204 or 304. */
  predicate Bodiless(p: Parser) { p.kind.Request? || 100 <= p.status < 200 || p.status == 204 || p.status == 304 }

  /** A body lasts until the end of input if and only if the message may have one
      and does not say how long it is. */
  lemma NeedsEofExact(p: Parser)
    requires !p.flags.skipBody
    ensures MessageNeedsEof(p) <==> !Bodiless(p) && !p.flags.chunked && p.length == ULLONG_MAX
  {
  }

  lemma ClosingLf(p: Parser, hooks: Hooks)
    requires Good(p) && p.state.HeadersAlmostDone? && Room(p, 1) && Closing(p) && Obliging(hooks)
    ensures var q := To(Done(p), BodyIdentityEof);
            Bytewise(hooks)(p, '\n') == Ran(q, [Note(HeadersComplete)], Next, 1) && Good(q)
  {
    HeadersEndDoes(p, '\n', hooks);
    var s := Plain(To(Done(p), BodyIdentityEof));
    OrdinaryLf(Bytewise(hooks), p, hooks, s);
    NotesOfOne(HeadersComplete, s);
  }

  /** After the headers the connection is another protocol's. */
  predicate Tunnel(p: Parser) { !p.flags.trailing && (p.flags.upgrade || p.verb == CONNECT) }

  lemma TunnelLf(step: Stepper, p: Parser, hooks: Hooks)
    requires p.state.HeadersAlmostDone? && Tunnel(p) && Obliging(hooks)
    requires Does(step, p, '\n', StepHeadersAlmostDone(Counted(p), '\n', hooks))
    ensures var t := Complete(Done(p).(upgrade := true), hooks);
            step(p, '\n') ==
            Ran(t.p, [Note(HeadersComplete), Note(MessageComplete)], if t.exit.Next? then Leave else t.exit, 1)
  {
    var q := Counted(p).(state := HeadersDone, upgrade := true);
    assert hooks(HeadersComplete, q).GoOn?;
    assert q.(nread := 0) == Done(p).(upgrade := true);
    var s := StepHeadersDone(q, '\n', hooks);
    assert StepHeadersAlmostDone(Counted(p), '\n', hooks) == Told(HeadersComplete, s);
    NotesOfOne(HeadersComplete, s);
  }

  // ----------------------------------------------------------------- the body

  /** A body by its length, or in chunks with a trailer behind them. */
  datatype Payload = Whole(text: string) | Pieces(chunks: seq<Chunk>, last: Chunk, trailer: seq<Line>)

  function PayloadBytes(b: Payload): string {
    match b case Whole(text) => text case Pieces(ks, last, ts) => AllWritten(ks, last) + TrailerBytes(ts)
  }

  function PayloadText(b: Payload): string {
    match b case Whole(text) => text case Pieces(ks, _, _) => AllData(ks)
  }

  function Trailer(b: Payload): seq<Line> {
    match b case Whole(_) => [] case Pieces(_, _, ts) => ts
  }

  function TrailerBytes(ts: seq<Line>): string { BlockBytes(ts) + "\r\n" }

  /** The body is the one that the headers announce. */
  predicate Framed(p: Parser, b: Payload) {
    Ordinary(p) &&
    match b
    case Whole(text) => !p.flags.chunked && if p.length == ULLONG_MAX then Bodiless(p) && text == "" else |text| == p.length
    case Pieces(ks, last, ts) => p.flags.chunked && Chunking(ks, last) && LineTexts(ts) && |TrailerBytes(ts)| <= MAX_HEADER_SIZE
  }

  /** What the headers and the trailer of a message come to. */
  function Ending(p: Parser, b: Payload): Parser
    requires LineTexts(Trailer(b))
  {
    match b case Whole(_) => p case Pieces(_, _, ts) => Effects(Opened(p, 0), ts)
  }

  lemma FramedTrailer(p: Parser, b: Payload)
    requires Framed(p, b)
    ensures LineTexts(Trailer(b))
  {
  }

  lemma FramedAlike(p: Parser, q: Parser, b: Payload)
    requires Akin(p, q)
    ensures Framed(p, b) == Framed(q, b)
    ensures LineTexts(Trailer(b)) ==> Akin(Ending(p, b), Ending(q, b))
  {
    match b {
      case Whole(_) =>
      case Pieces(_, _, ts) => if LineTexts(ts) { EffectsAkin(Opened(p, 0), Opened(q, 0), ts); }
    }
  }

  function Contents(text: string): seq<Event> { if text == "" then [] else [Piece(Body, text)] }

  /** The callbacks behind the body, and those from the end of the headers on. */
  function EndEvents(ts: seq<Line>): seq<Event> { Block(Headers(ts)) + [Note(MessageComplete)] }

  function BodyEvents(b: Payload): seq<Event> {
    [Note(HeadersComplete)] + (Contents(PayloadText(b)) + EndEvents(Trailer(b)))
  }

  lemma BodyNorm(text: string, end: seq<Event>)
    ensures Norm([Note(HeadersComplete)] + (Singles(Body, text) + end)) == Norm([Note(HeadersComplete)] + (Contents(text) + end))
  {
    var head := [Note(HeadersComplete)];
    if text == "" {
      assert Singles(Body, text) == [];
    } else {
      SinglesNorm(Body, text);
      NormBoth(Singles(Body, text), end, Contents(text), end);
      NormBoth(head, Singles(Body, text) + end, head, Contents(text) + end);
    }
  }

  lemma {:induction false} AllSinglesFlat(ks: seq<Chunk>)
    ensures AllSingles(ks) == Singles(Body, AllData(ks))
    decreases |ks|
  {
    if ks != [] {
      AllSinglesFlat(ks[1..]);
      assert Singles(Body, ks[0].data) + Singles(Body, AllData(ks[1..])) == Singles(Body, ks[0].data + AllData(ks[1..]));
    }
  }

  /** `x` stands at the end of a message that came to `q`, with no more than `n`
      bytes counted. */
  predicate Concluded(q: Parser, x: Parser, n: nat) {
    x.errno.Ok? && Bounded(x) && x.nread <= n && !x.upgrade && x.kind == q.kind && x.verb == q.verb &&
    x.status == q.status && NewMessage(x) == NewMessage(q)
  }

  lemma ConcludedAlike(p: Parser, q: Parser, x: Parser, n: nat)
    requires Akin(p, q) && Concluded(p, x, n)
    ensures Concluded(q, x, n)
  {
    assert NewMessage(p) == NewMessage(q);
  }

  /** What is counted at the end of a message: the bytes behind its body. */
  function TrailerSize(b: Payload): nat { |TrailerBytes(Trailer(b))| }

  /** A run that completes a message with these callbacks. */
  ghost predicate Delivers(r: Ran, hooks: Hooks, x: Parser, es: seq<Event>, size: nat) {
    var t := Complete(x, hooks);
    r.p == t.p && r.exit == t.exit && r.used == size && Norm(r.events) == Norm(es)
  }

  /** Something before a run that completes a message. */
  lemma Joined(step: Stepper, p: Parser, a: string, r: Ran, es: seq<Event>, s: string, hooks: Hooks, x: Parser, fs: seq<Event>)
    requires r == Run(step, p, a) && r.exit.Next? && r.used == |a| && Norm(r.events) == Norm(es)
    requires Delivers(Run(step, r.p, s), hooks, x, fs, |s|)
    ensures Delivers(Run(step, p, a + s), hooks, x, es + fs, |a + s|)
  {
    RunAppend(step, p, a, s);
    NormBoth(r.events, Run(step, r.p, s).events, es, fs);
  }

  lemma AfterCr(step: Stepper, p: Parser, q: Parser, s: string, hooks: Hooks, x: Parser, es: seq<Event>)
    requires Silent(step, p, '\r', q) && Delivers(Run(step, q, ['\n'] + s), hooks, x, es, 1 + |s|)
    ensures Delivers(Run(step, p, "\r\n" + s), hooks, x, es, 2 + |s|)
  {
    CrLf(s);
    SilentOne(step, p, '\r', q);
    AfterSilent(step, p, ['\r'], q, ['\n'] + s);
  }

  lemma CrLf(s: string)
    ensures ['\r'] + (['\n'] + s) == "\r\n" + s
  {
  }

  /** The lines of a trailer and the blank line. */
  lemma TrailerRun(p: Parser, ts: seq<Line>, hooks: Hooks) returns (x: Parser)
    requires Good(p) && AtLine(p) && p.flags.trailing && !p.upgrade && LineTexts(ts) && Room(p, |TrailerBytes(ts)|)
    ensures Concluded(Effects(p, ts), x, p.nread + |TrailerBytes(ts)|)
    ensures Delivers(Run(Bytewise(hooks), p, TrailerBytes(ts)), hooks, x, EndEvents(ts), |TrailerBytes(ts)|)
  {
    var r := BlockRun(p, ts, hooks);
    EffectsExact(p, p, ts);
    EffectsTrailing(p, ts);
    x := BlankTrailer(r.p, hooks);
    Joined(Bytewise(hooks), p, BlockBytes(ts), r, Block(Headers(ts)), "\r\n", hooks, x, [Note(MessageComplete)]);
    TrailerConcluded(p, ts, r.p, x);
  }

  lemma TrailerConcluded(p: Parser, ts: seq<Line>, q: Parser, x: Parser)
    requires Good(q) && LineTexts(ts) && Alike(Effects(p, ts), q) && !p.upgrade && x == HttpLength.Blank(q, HeadersAlmostDone, 2)
    requires Room(q, 2)
    ensures Concluded(Effects(p, ts), x, p.nread + |TrailerBytes(ts)|)
  {
    EffectsExact(p, p, ts);
    assert NewMessage(Effects(p, ts)) == NewMessage(x);
  }

  lemma BlankTrailer(p: Parser, hooks: Hooks) returns (x: Parser)
    requires Good(p) && AtLine(p) && p.flags.trailing && Room(p, 2)
    ensures x == HttpLength.Blank(p, HeadersAlmostDone, 2)
    ensures Delivers(Run(Bytewise(hooks), p, "\r\n"), hooks, x, [Note(MessageComplete)], 2)
  {
    var q := HttpLength.Blank(p, HeadersAlmostDone, 1);
    x := q.(nread := q.nread + 1);
    BlankLineCr(p, hooks);
    TrailerLf(q, hooks);
    LastByte(Bytewise(hooks), q, '\n', Bytewise(hooks)(q, '\n'));
    assert ['\n'] + "" == ['\n'] && "\r\n" + "" == "\r\n";
    AfterCr(Bytewise(hooks), p, q, "", hooks, x, [Note(MessageComplete)]);
  }

  /** The LF of the blank line, and no body. */
  lemma EmptyTail(p: Parser, hooks: Hooks) returns (x: Parser)
    requires Good(p) && p.state.HeadersAlmostDone? && Room(p, 1) && Framed(p, Whole("")) && Obliging(hooks)
    ensures Concluded(p, x, 2) && Delivers(Run(Bytewise(hooks), p, "\n"), hooks, x, BodyEvents(Whole("")), 1)
  {
    x := Done(p);
    if p.length == ULLONG_MAX { UnframedLf(p, hooks); } else { BlankLf(p, hooks); }
    LastByte(Bytewise(hooks), p, '\n', Bytewise(hooks)(p, '\n'));
    assert ['\n'] == "\n";
    EmptyEvents();
  }

  lemma EmptyEvents()
    ensures BodyEvents(Whole("")) == [Note(HeadersComplete), Note(MessageComplete)]
  {
    assert [] + [Note(MessageComplete)] == [Note(MessageComplete)];
    assert BodyEvents(Whole("")) == [Note(HeadersComplete)] + ([] + [Note(MessageComplete)]);
  }

  /** The LF, and a body of known length. */
  lemma WholeTail(p: Parser, text: string, hooks: Hooks) returns (x: Parser)
    requires Good(p) && p.state.HeadersAlmostDone? && Room(p, 1) && Framed(p, Whole(text)) && text != "" && Obliging(hooks)
    ensures Concluded(p, x, 2) && Delivers(Run(Bytewise(hooks), p, ['\n'] + text), hooks, x, BodyEvents(Whole(text)), 1 + |text|)
  {
    BlankLf(p, hooks);
    var q := To(Done(p), BodyIdentity);
    x := To(Shorter(q, |text|), MessageDone);
    WholeConcluded(p, text, x);
    RunWholeBody(q, text, hooks);
    WholeGlue(Bytewise(hooks), p, q, text, hooks, x);
  }

  lemma WholeConcluded(p: Parser, text: string, x: Parser)
    requires Good(p) && Framed(p, Whole(text)) && text != ""
    requires |text| <= p.length && x == To(Shorter(To(Done(p), BodyIdentity), |text|), MessageDone)
    ensures Concluded(p, x, 2)
    ensures |text| == p.length < ULLONG_MAX && ByLength(p)
  {
  }

  lemma WholeGlue(step: Stepper, p: Parser, q: Parser, text: string, hooks: Hooks, x: Parser)
    requires step(p, '\n') == Ran(q, [Note(HeadersComplete)], Next, 1)
    requires var t := Complete(x, hooks);
             Run(step, q, text) == Ran(t.p, Singles(Body, text) + [Note(MessageComplete)], t.exit, |text|)
    ensures Delivers(Run(step, p, ['\n'] + text), hooks, x, BodyEvents(Whole(text)), 1 + |text|)
  {
    FirstThen(step, p, '\n', step(p, '\n'), text);
    BodyNorm(text, [Note(MessageComplete)]);
    assert [] + [Note(MessageComplete)] == [Note(MessageComplete)];
  }

  /** The LF, a body in chunks, and its trailer. */
  lemma ChunkedTail(p: Parser, b: Payload, hooks: Hooks) returns (x: Parser)
    requires Good(p) && p.state.HeadersAlmostDone? && Room(p, 1) && Framed(p, b) && b.Pieces? && Obliging(hooks)
    ensures Concluded(Ending(p, b), x, TrailerSize(b))
    ensures Delivers(Run(Bytewise(hooks), p, ['\n'] + PayloadBytes(b)), hooks, x, BodyEvents(b), 1 + |PayloadBytes(b)|)
  {
    var q := To(Done(p), ChunkSizeStart);
    ChunkedLf(p, hooks);
    ChunkedRun(q, b.chunks, b.last, hooks);
    x := TrailerRun(Opened(q, 0), b.trailer, hooks);
    FramedAlike(q, p, b);
    ConcludedAlike(Ending(q, b), Ending(p, b), x, TrailerSize(b));
    ChunkedGlue(Bytewise(hooks), p, q, b, hooks, x);
  }

  lemma ChunkedGlue(step: Stepper, p: Parser, q: Parser, b: Payload, hooks: Hooks, x: Parser)
    requires b.Pieces? && step(p, '\n') == Ran(q, [Note(HeadersComplete)], Next, 1)
    requires Run(step, q, AllWritten(b.chunks, b.last)) == Ran(Opened(q, 0), AllSingles(b.chunks), Next, |AllWritten(b.chunks, b.last)|)
    requires Delivers(Run(step, Opened(q, 0), TrailerBytes(b.trailer)), hooks, x, EndEvents(b.trailer), |TrailerBytes(b.trailer)|)
    ensures Delivers(Run(step, p, ['\n'] + PayloadBytes(b)), hooks, x, BodyEvents(b), 1 + |PayloadBytes(b)|)
  {
    var end := EndEvents(b.trailer);
    Joined(step, q, AllWritten(b.chunks, b.last), Run(step, q, AllWritten(b.chunks, b.last)), AllSingles(b.chunks),
           TrailerBytes(b.trailer), hooks, x, end);
    LastByte(step, p, '\n', step(p, '\n'));
    Joined(step, p, ['\n'], step(p, '\n'), [Note(HeadersComplete)], PayloadBytes(b), hooks, x, AllSingles(b.chunks) + end);
    AllSinglesFlat(b.chunks);
    BodyNorm(AllData(b.chunks), end);
  }

  lemma TailRun(p: Parser, b: Payload, hooks: Hooks) returns (x: Parser)
    requires Good(p) && p.state.HeadersAlmostDone? && Room(p, 1) && Framed(p, b) && Obliging(hooks)
    ensures LineTexts(Trailer(b)) && Concluded(Ending(p, b), x, TrailerSize(b))
    ensures Delivers(Run(Bytewise(hooks), p, ['\n'] + PayloadBytes(b)), hooks, x, BodyEvents(b), 1 + |PayloadBytes(b)|)
  {
    match b {
      case Pieces(_, _, _) => x := ChunkedTail(p, b, hooks);
      case Whole(text) =>
        if text == "" {
          x := EmptyTail(p, hooks);
          assert ['\n'] + "" == "\n";
        } else {
          x := WholeTail(p, text, hooks);
        }
    }
  }

  // ------------------------------------------------------- headers and body

  function MessageBytes(ls: seq<Line>, b: Payload): string { BlockBytes(ls) + ("\r\n" + PayloadBytes(b)) }

  function MessageEvents(ls: seq<Line>, b: Payload): seq<Event> { Block(Headers(ls)) + BodyEvents(b) }

  /** What is left of a message once its header lines are in. */
  lemma RestRun(p: Parser, b: Payload, hooks: Hooks) returns (x: Parser)
    requires Good(p) && AtLine(p) && Room(p, 2) && Framed(p, b) && Obliging(hooks)
    ensures LineTexts(Trailer(b)) && Concluded(Ending(p, b), x, TrailerSize(b))
    ensures Delivers(Run(Bytewise(hooks), p, "\r\n" + PayloadBytes(b)), hooks, x, BodyEvents(b), 2 + |PayloadBytes(b)|)
  {
    var q := HttpLength.Blank(p, HeadersAlmostDone, 1);
    BlankLineCr(p, hooks);
    FramedAlike(p, q, b);
    x := TailRun(q, b, hooks);
    FramedAlike(q, p, b);
    ConcludedAlike(Ending(q, b), Ending(p, b), x, TrailerSize(b));
    AfterCr(Bytewise(hooks), p, q, PayloadBytes(b), hooks, x, BodyEvents(b));
  }

  /** Any header lines, in any order, and the body that they announce, by its
      length or in chunks with a trailer: the callbacks are the names and the
      values as they are written, and the bytes of the body. */
  lemma MessageRun(p: Parser, ls: seq<Line>, b: Payload, hooks: Hooks) returns (x: Parser)
    requires Good(p) && AtLine(p) && LineTexts(ls) && Room(p, |BlockBytes(ls)| + 2) && Obliging(hooks)
    requires Framed(Effects(p, ls), b)
    ensures LineTexts(Trailer(b)) && Concluded(Ending(Effects(p, ls), b), x, TrailerSize(b))
    ensures Delivers(Run(Bytewise(hooks), p, MessageBytes(ls, b)), hooks, x, MessageEvents(ls, b), |MessageBytes(ls, b)|)
  {
    var r := BlockRun(p, ls, hooks);
    EffectsExact(p, p, ls);
    FramedAlike(Effects(p, ls), r.p, b);
    x := RestRun(r.p, b, hooks);
    FramedAlike(r.p, Effects(p, ls), b);
    ConcludedAlike(Ending(r.p, b), Ending(Effects(p, ls), b), x, TrailerSize(b));
    Joined(Bytewise(hooks), p, BlockBytes(ls), r, Block(Headers(ls)), "\r\n" + PayloadBytes(b), hooks, x, BodyEvents(b));
  }

  // --------------------------------------------- until the end of the connection

  /** The callbacks of a message until the end of input. */
  function OpenEvents(ls: seq<Line>, text: string): seq<Event> {
    Block(Headers(ls)) + ([Note(HeadersComplete)] + Contents(text))
  }

  lemma ClosingRest(p: Parser, text: string, hooks: Hooks) returns (r: Ran)
    requires Good(p) && AtLine(p) && Room(p, 2) && Closing(p) && Obliging(hooks)
    ensures r == Run(Bytewise(hooks), p, "\r\n" + text) && r.exit.Next? && r.used == 2 + |text|
    ensures Good(r.p) && r.p.state.BodyIdentityEof? && Norm(r.events) == Norm([Note(HeadersComplete)] + Contents(text))
  {
    r := Run(Bytewise(hooks), p, "\r\n" + text);
    var q := HttpLength.Blank(p, HeadersAlmostDone, 1);
    BlankLineCr(p, hooks);
    ClosingLf(q, hooks);
    var e := To(Done(q), BodyIdentityEof);
    RunBodyEof(e, text, hooks);
    ClosingGlue(Bytewise(hooks), p, q, e, text);
  }

  lemma ClosingGlue(step: Stepper, p: Parser, q: Parser, e: Parser, text: string)
    requires Silent(step, p, '\r', q) && step(q, '\n') == Ran(e, [Note(HeadersComplete)], Next, 1)
    requires Run(step, e, text) == Ran(e, Singles(Body, text), Next, |text|)
    ensures var r := Run(step, p, "\r\n" + text);
            r.p == e && r.exit.Next? && r.used == 2 + |text| && Norm(r.events) == Norm([Note(HeadersComplete)] + Contents(text))
  {
    SilentOne(step, p, '\r', q);
    FirstThen(step, q, '\n', step(q, '\n'), text);
    AfterSilent(step, p, ['\r'], q, ['\n'] + text);
    CrLf(text);
    BodyNorm(text, []);
    assert Singles(Body, text) + [] == Singles(Body, text) && Contents(text) + [] == Contents(text);
  }

  /** A response that lasts until the end of input: all of it is body. */
  lemma ClosingRun(p: Parser, ls: seq<Line>, text: string, hooks: Hooks) returns (r: Ran)
    requires Good(p) && AtLine(p) && LineTexts(ls) && Room(p, |BlockBytes(ls)| + 2) && Obliging(hooks) && Closing(Effects(p, ls))
    ensures r == Run(Bytewise(hooks), p, MessageBytes(ls, Whole(text))) && r.exit.Next? && r.used == |MessageBytes(ls, Whole(text))|
    ensures Good(r.p) && r.p.state.BodyIdentityEof? && Norm(r.events) == Norm(OpenEvents(ls, text))
  {
    r := Run(Bytewise(hooks), p, MessageBytes(ls, Whole(text)));
    var a := BlockRun(p, ls, hooks);
    EffectsExact(p, p, ls);
    var b := ClosingRest(a.p, text, hooks);
    RunAppend(Bytewise(hooks), p, BlockBytes(ls), "\r\n" + text);
    NormBoth(a.events, b.events, Block(Headers(ls)), [Note(HeadersComplete)] + Contents(text));
  }

  // ------------------------------------------------------------ another protocol

  lemma CalmComplete(x: Parser, hooks: Hooks)
    requires Calm(hooks)
    ensures Complete(x, hooks) == Step(To(x, NewMessage(x)), None, None, [MessageComplete], Next)
  {
    assert hooks(MessageComplete, To(x, NewMessage(x))).GoOn?;
  }

  /** The blank line leaves for the other protocol. */
  lemma TunnelRest(p: Parser, hooks: Hooks) returns (r: Ran)
    requires Good(p) && AtLine(p) && Room(p, 2) && Tunnel(p) && Calm(hooks)
    ensures r == Run(Bytewise(hooks), p, "\r\n") && r.exit.Leave? && r.used == 2 && r.p.upgrade && r.p.errno.Ok?
    ensures r.events == BodyEvents(Whole(""))
  {
    r := Run(Bytewise(hooks), p, "\r\n");
    var q := HttpLength.Blank(p, HeadersAlmostDone, 1);
    BlankLineCr(p, hooks);
    HeadersEndDoes(q, '\n', hooks);
    TunnelLf(Bytewise(hooks), q, hooks);
    CalmComplete(Done(q).(upgrade := true), hooks);
    EmptyEvents();
    CrThen(Bytewise(hooks), p, q, Bytewise(hooks)(q, '\n'));
  }

  lemma CrThen(step: Stepper, p: Parser, q: Parser, r: Ran)
    requires Silent(step, p, '\r', q) && step(q, '\n') == r
    ensures Run(step, p, "\r\n") == Ran(r.p, r.events, r.exit, 1 + r.used)
  {
    SilentOne(step, p, '\r', q);
    LastByte(step, q, '\n', r);
    AfterSilent(step, p, ['\r'], q, ['\n']);
    assert ['\r'] + ['\n'] == "\r\n";
  }

  /** A message that asks for another protocol is over with its headers, and
      nothing behind them is read. */
  lemma TunnelRun(p: Parser, ls: seq<Line>, rest: string, hooks: Hooks) returns (r: Ran)
    requires Good(p) && AtLine(p) && LineTexts(ls) && Room(p, |BlockBytes(ls)| + 2) && Calm(hooks) && Tunnel(Effects(p, ls))
    ensures r == Run(Bytewise(hooks), p, MessageBytes(ls, Whole("")) + rest) && r.exit.Leave?
    ensures r.used == |MessageBytes(ls, Whole(""))| && r.p.upgrade && r.p.errno.Ok?
    ensures Norm(r.events) == Norm(MessageEvents(ls, Whole("")))
  {
    r := Run(Bytewise(hooks), p, MessageBytes(ls, Whole("")) + rest);
    var a := BlockRun(p, ls, hooks);
    EffectsExact(p, p, ls);
    var b := TunnelRest(a.p, hooks);
    assert "\r\n" + "" == "\r\n";
    RunAppend(Bytewise(hooks), p, BlockBytes(ls), "\r\n");
    RunAppend(Bytewise(hooks), p, MessageBytes(ls, Whole("")), rest);
    NormBoth(a.events, b.events, Block(Headers(ls)), BodyEvents(Whole("")));
  }

  // ---------------------------------------------------------- what is reported

  lemma {:induction false} BlockBody(hs: seq<Header>)
    ensures BodyBytes(Block(hs)) == ""
    decreases |hs|
  {
    if hs != [] {
      var two := [Piece(Field, hs[0].0)] + [Piece(Value, hs[0].1)];
      BlockBody(hs[1..]);
      OneBody(Piece(Field, hs[0].0));
      OneBody(Piece(Value, hs[0].1));
      BodyBytesAppend([Piece(Field, hs[0].0)], [Piece(Value, hs[0].1)]);
      BodyBytesAppend(two, Block(hs[1..]));
      assert Block(hs) == two + Block(hs[1..]);
    }
  }

  lemma EventsBody(b: Payload)
    ensures BodyBytes(BodyEvents(b)) == PayloadText(b)
  {
    var text, end := PayloadText(b), EndEvents(Trailer(b));
    OneBody(Note(HeadersComplete));
    OneBody(Piece(Body, text));
    BlockBody(Headers(Trailer(b)));
    BodyBytesSnoc(Block(Headers(Trailer(b))), Note(MessageComplete));
    BodyBytesAppend(Contents(text), end);
    BodyBytesAppend([Note(HeadersComplete)], Contents(text) + end);
    assert "" + text == text && text + "" == text;
  }

  lemma MessageBody(ls: seq<Line>, b: Payload)
    ensures BodyBytes(MessageEvents(ls, b)) == PayloadText(b)
  {
    BodyBytesAppend(Block(Headers(ls)), BodyEvents(b));
    BlockBody(Headers(ls));
    EventsBody(b);
    assert "" + PayloadText(b) == PayloadText(b);
  }

  /** The header that is still at hand when the headers are complete. */
  function AtHand(a: Assembly, hs: seq<Header>): seq<Header> {
    if hs != [] then [hs[|hs| - 1]] else Report(a.(headers := []))
  }

  /** The headers reported of a message with a trailer: those before the body;
      with the trailer the last of them once more, and the trailer without its
      last line. */
  function HeadersSeen(a: Assembly, hs: seq<Header>, ts: seq<Header>): seq<Header> {
    Report(a) + hs + if ts == [] then [] else AtHand(a, hs) + ts[..|ts| - 1]
  }

  /** The trailer is reported as it is written if and only if there is none, or
      it does nothing but repeat the last header. */
  lemma TrailerExact(hs: seq<Header>, ts: seq<Header>)
    ensures HeadersSeen(INITIAL, hs, ts) == hs + ts <==> ts == [] || (hs != [] && forall t <- ts :: t == hs[|hs| - 1])
  {
    assert Report(INITIAL) == [] && [] + hs == hs && hs + [] == hs;
    if ts != [] && hs != [] {
      var last := hs[|hs| - 1];
      var seen := [last] + ts[..|ts| - 1];
      assert HeadersSeen(INITIAL, hs, ts) == hs + seen;
      assert (hs + seen)[|hs|..] == seen && (hs + ts)[|hs|..] == ts;
      RepeatExact(last, ts);
    }
  }

  /** A list that is the same when it is moved on by `x` repeats `x`. */
  lemma RepeatExact<T>(x: T, s: seq<T>)
    requires s != []
    ensures [x] + s[..|s| - 1] == s <==> forall t <- s :: t == x
  {
    var moved := [x] + s[..|s| - 1];
    if moved == s {
      forall i | 0 <= i < |s| ensures s[i] == x { AllSame(x, s, i); }
    }
    if forall t <- s :: t == x {
      forall i | 0 <= i < |s| ensures moved[i] == s[i] {
        assert s[i] in s && (i > 0 ==> s[i - 1] in s);
      }
      assert moved == s;
    }
  }

  lemma {:induction false} AllSame<T>(x: T, s: seq<T>, i: nat)
    requires i < |s| && [x] + s[..|s| - 1] == s
    ensures s[i] == x
    decreases i
  {
    assert s[i] == ([x] + s[..|s| - 1])[i];
    if i > 0 { AllSame(x, s, i - 1); }
  }

  lemma {:induction false} HeadersNamed(ls: seq<Line>)
    requires LineTexts(ls)
    ensures forall h <- Headers(ls) :: h.0 != ""
    decreases |ls|
  {
    if ls != [] {
      assert ls[0] in ls && forall l <- ls[1..] :: l in ls;
      HeadersNamed(ls[1..]);
    }
  }

  /** What is at hand behind a block. */
  lemma {:induction false} BlockEnds(a: Assembly, hs: seq<Header>)
    requires a.lastWasValue && forall h <- hs :: h.0 != ""
    ensures var b := HandleAll(a, Block(hs));
            b.lastWasValue && Report(b) == Report(a) + hs && Report(b.(headers := [])) == AtHand(a, hs)
    decreases |hs|
  {
    HandleBlock(a, hs);
    if hs != [] {
      var init, last := hs[..|hs| - 1], hs[|hs| - 1];
      BlockSnoc(init, last);
      assert hs == init + [last];
      HandleAllAppend(a, Block(init), [Piece(Field, last.0), Piece(Value, last.1)]);
      HandleBlock(a, init);
      LastHeader(HandleAll(a, Block(init)), last);
    }
  }

  lemma {:induction false} BlockSnoc(hs: seq<Header>, h: Header)
    ensures Block(hs + [h]) == Block(hs) + [Piece(Field, h.0), Piece(Value, h.1)]
    decreases |hs|
  {
    if hs == [] {
      assert [] + [h] == [h] && [h][1..] == [];
    } else {
      assert (hs + [h])[1..] == hs[1..] + [h];
      BlockSnoc(hs[1..], h);
    }
  }

  lemma LastHeader(a: Assembly, h: Header)
    requires a.lastWasValue && h.0 != ""
    ensures var b := HandleAll(a, [Piece(Field, h.0), Piece(Value, h.1)]);
            b.field == h.0 && b.value == h.1 && b.headers == Report(a) && b.lastWasValue
  {
    assert [Piece(Field, h.0), Piece(Value, h.1)] == [Piece(Field, h.0)] + [Piece(Value, h.1)];
    HandleLast(a, [Piece(Field, h.0)], Piece(Value, h.1));
    HandleLast(a, [], Piece(Field, h.0));
    assert [] + [Piece(Field, h.0)] == [Piece(Field, h.0)];
    assert "" + h.1 == h.1;
  }

  /** The callbacks of headers, a body and a trailer: what they report. */
  lemma HandleMessage(a: Assembly, ls: seq<Line>, b: Payload)
    requires a.lastWasValue && LineTexts(ls) && LineTexts(Trailer(b))
    ensures HandleAll(a, MessageEvents(ls, b)).headers == HeadersSeen(a, Headers(ls), Headers(Trailer(b)))
  {
    HeadersNamed(ls);
    BlockEnds(a, Headers(ls));
    HandleAllAppend(a, Block(Headers(ls)), BodyEvents(b));
    HandleBody(HandleAll(a, Block(Headers(ls))), b);
  }

  lemma HandleBody(a: Assembly, b: Payload)
    requires a.lastWasValue && LineTexts(Trailer(b))
    ensures var ts := Headers(Trailer(b));
            HandleAll(a, BodyEvents(b)).headers == Report(a) + if ts == [] then [] else Report(a.(headers := [])) + ts[..|ts| - 1]
  {
    var text, end := PayloadText(b), EndEvents(Trailer(b));
    var c := Handle(a, Note(HeadersComplete));
    HandleAllAppend(a, [Note(HeadersComplete)], Contents(text) + end);
    HandleLast(a, [], Note(HeadersComplete));
    assert [] + [Note(HeadersComplete)] == [Note(HeadersComplete)];
    HandleAllAppend(c, Contents(text), end);
    HandleContents(c, text);
    HandleTrailer(c, Trailer(b));
  }

  lemma HandleContents(a: Assembly, text: string)
    ensures HandleAll(a, Contents(text)) == a
  {
    if text != "" {
      HandleLast(a, [], Piece(Body, text));
      assert [] + [Piece(Body, text)] == [Piece(Body, text)];
    }
  }

  lemma HandleTrailer(a: Assembly, ts: seq<Line>)
    requires a.lastWasValue && LineTexts(ts)
    ensures var hs := Headers(ts);
            HandleAll(a, EndEvents(ts)).headers == a.headers + if hs == [] then [] else Report(a.(headers := [])) + hs[..|hs| - 1]
  {
    var hs := Headers(ts);
    var d := HandleAll(a, Block(hs));
    HeadersNamed(ts);
    BlockEnds(a, hs);
    HandleLast(a, Block(hs), Note(MessageComplete));
    assert HandleAll(a, EndEvents(ts)) == d;
    if hs != [] { AllButLast(a, d, hs); }
  }

  lemma AllButLast(a: Assembly, d: Assembly, hs: seq<Header>)
    requires hs != [] && Report(d) == Report(a) + hs && Report(d.(headers := [])) == [hs[|hs| - 1]]
    ensures d.headers == a.headers + (Report(a.(headers := [])) + hs[..|hs| - 1])
  {
    assert Report(d) == d.headers + [hs[|hs| - 1]];
    assert Report(a) == a.headers + Report(a.(headers := []));
    assert d.headers == Report(d)[..|Report(d)| - 1];
  }

  /** Whatever calls bring it in: all of it is consumed, the `on_body` bytes are
      the body, and the headers reported are the ones written, with a trailer as
      `HeadersSeen` has it. */
  lemma MessageParsed(p: Parser, ls: seq<Line>, b: Payload, hooks: Hooks, n: nat, q: Parser, es: seq<Event>, lost: seq<Event>, a: Assembly)
    requires Good(p) && AtLine(p) && LineTexts(ls) && Room(p, |BlockBytes(ls)| + 2) && Obliging(hooks)
    requires Framed(Effects(p, ls), b)
    requires Ended(Run(Bytewise(hooks), p, MessageBytes(ls, b)), n, q, es, lost)
    ensures n == |MessageBytes(ls, b)| && BodyBytes(es) == PayloadText(b)
    ensures Norm(es) == Norm(MessageEvents(ls, b))
    ensures a.lastWasValue ==> HandleAll(a, es).headers == HeadersSeen(a, Headers(ls), Headers(Trailer(b)))
  {
    var x := MessageRun(p, ls, b, hooks);
    CompleteEnds(x, hooks);
    assert es + [] == es;
    var all := MessageEvents(ls, b);
    BodyBytesNorm(es);
    BodyBytesNorm(all);
    MessageBody(ls, b);
    HandleNorm(a, es);
    HandleNorm(a, all);
    if a.lastWasValue { HandleMessage(a, ls, b); }
  }
}
