/** Whole runs of the HTTP parser, one byte at a time: the reference for
  `http_parser_execute`, which works on whole buffers. */
module HttpRun {
  import opened Common
  import opened HttpTypes
  import opened HttpStep
  import opened HttpMarks

  /** A callback: a stretch of data, or a notification. */
  datatype Event = Piece(what: Data, text: string) | Note(n: Notify)

  // ------------------------------------------------------- traces, normalised

  predicate Joins(t: seq<Event>, e: Event) {
    t != [] && e.Piece? && t[|t| - 1].Piece? && t[|t| - 1].what == e.what
  }

  /** Add a callback, merging data of one kind that comes in a row. */
  function Push(t: seq<Event>, e: Event): seq<Event> {
    if Joins(t, e) then t[..|t| - 1] + [Piece(e.what, t[|t| - 1].text + e.text)] else t + [e]
  }

  function PushAll(t: seq<Event>, es: seq<Event>): seq<Event>
    decreases |es|
  {
    if es == [] then t else PushAll(Push(t, es[0]), es[1..])
  }

  /** The trace with adjacent data callbacks of one kind merged. */
  function Norm(es: seq<Event>): seq<Event> { PushAll([], es) }

  lemma {:induction false} PushAllAppend(t: seq<Event>, a: seq<Event>, b: seq<Event>)
    ensures PushAll(t, a + b) == PushAll(PushAll(t, a), b)
    decreases |a|
  {
    if a == [] {
      assert a + b == b;
    } else {
      assert (a + b)[1..] == a[1..] + b;
      PushAllAppend(Push(t, a[0]), a[1..], b);
    }
  }

  /** Two pieces of one kind in a row are as good as their concatenation. */
  lemma PushTwice(t: seq<Event>, k: Data, x: string, y: string)
    ensures Push(Push(t, Piece(k, x)), Piece(k, y)) == Push(t, Piece(k, x + y))
  {
    var u := Push(t, Piece(k, x));
    assert Joins(u, Piece(k, y));
    if Joins(t, Piece(k, x)) {
      var z := t[|t| - 1].text;
      assert u[..|u| - 1] == t[..|t| - 1] && u[|u| - 1].text == z + x;
      assert (z + x) + y == z + (x + y);
    } else {
      assert u[..|u| - 1] == t;
    }
  }

  // --------------------------------------------------------------- the run

  /** The callbacks of one byte fed on its own. */
  function ByteEvents(from: State, ch: char, s: Step): seq<Event> {
    var notes := seq(|s.tells|, i requires 0 <= i < |s.tells| => Note(s.tells[i]));
    match s.flush
    case Some(f) =>
      (if Marked(from, s) == Some(f.what) then [Piece(f.what, if f.through then [ch] else "")] else []) + notes
    case None =>
      notes + if s.exit.Next? && Marked(from, s).Some? then [Piece(Marked(from, s).value, [ch])] else []
  }

  /** The outcome of feeding some bytes: where the parser stands, the callbacks
      made, how the last byte left the loop and how many were consumed. */
  datatype Ran = Ran(p: Parser, events: seq<Event>, exit: Exit, used: nat)

  function Consumed(e: Exit): nat {
    if e.Next? || e.Leave? || e == Halt(true) then 1 else 0
  }

  /** One byte on its own. A parser that breaks the invariant does not occur. */
  function OneByte(p: Parser, ch: char, hooks: Hooks): Ran {
    if Good(p) then
      var t := Advance(p, ch, hooks);
      Ran(t.p, ByteEvents(p.state, ch, t), t.exit, Consumed(t.exit))
    else Ran(p, [], Error, 0)
  }

  type Stepper = (Parser, char) -> Ran

  function Bytewise(hooks: Hooks): Stepper { (p, ch) => OneByte(p, ch, hooks) }

  /** A run that follows one that ended without being stopped. */
  function Then(a: Ran, b: Ran): Ran {
    Ran(b.p, a.events + b.events, b.exit, a.used + b.used)
  }

  /** Feed the bytes of `s` one at a time until one of them stops the parser. */
  function Run(step: Stepper, p: Parser, s: string): Ran
    decreases |s|
  {
    if s == "" then Ran(p, [], Next, 0)
    else
      var t := step(p, s[0]);
      if t.exit.Next? then Then(t, Run(step, t.p, s[1..])) else t
  }

  lemma ThenAssociates(a: Ran, b: Ran, c: Ran)
    ensures Then(a, Then(b, c)) == Then(Then(a, b), c)
  {
  }

  /** Feeding a text in two parts, as far as the first part lets it. */
  lemma {:induction false} RunAppend(step: Stepper, p: Parser, a: string, b: string)
    ensures var r := Run(step, p, a);
            Run(step, p, a + b) == if r.exit.Next? then Then(r, Run(step, r.p, b)) else r
    decreases |a|
  {
    if a == "" {
      assert a + b == b;
      assert [] + Run(step, p, b).events == Run(step, p, b).events;
    } else {
      assert (a + b)[1..] == a[1..] + b;
      var t := step(p, a[0]);
      if t.exit.Next? {
        RunAppend(step, t.p, a[1..], b);
        var r := Run(step, t.p, a[1..]);
        ThenAssociates(t, r, Run(step, r.p, b));
      }
    }
  }

  /** A byte or a run keeps the invariant, counts its bytes, and leaves an
      error exactly when it was stopped by something other than an upgrade. */
  predicate Proper(r: Ran, size: nat) {
    r.used <= size && (r.exit.Next? ==> r.used == size) &&
    (r.p.errno.Ok? <==> r.exit.Next? || r.exit.Leave?) && (r.p.errno.Ok? ==> Good(r.p))
  }

  ghost predicate Trusty(step: Stepper) {
    forall p, ch :: Good(p) ==> Proper(step(p, ch), 1)
  }

  lemma BytewiseIsTrusty(hooks: Hooks)
    ensures Trusty(Bytewise(hooks))
  {
    forall p, ch | Good(p)
      ensures Proper(OneByte(p, ch, hooks), 1)
    {
      AdvanceSound(p, ch, hooks);
    }
  }

  // ------------------------------------------------------ one byte, by state

  /** There are `n` more bytes to the header limit. */
  predicate Room(p: Parser, n: nat) { p.nread + n <= MAX_HEADER_SIZE }

  /** `t` is what `step` does with one byte. */
  ghost predicate Does(step: Stepper, p: Parser, ch: char, t: Step) {
    step(p, ch) == Ran(t.p, ByteEvents(p.state, ch, t), t.exit, Consumed(t.exit)) && Sound(t)
  }

  lemma FreeDoes(p: Parser, ch: char, hooks: Hooks)
    requires Good(p) && Free(p.state) && Room(p, 1)
    ensures Does(Bytewise(hooks), p, ch, SwitchFree(Counted(p), ch, hooks))
  {
    AdvanceSound(p, ch, hooks);
  }

  lemma BusyDoes(p: Parser, ch: char, hooks: Hooks)
    requires Good(p) && !Free(p.state) && Room(p, 1)
    ensures Does(Bytewise(hooks), p, ch, SwitchBusy(p, ch, hooks))
  {
    AdvanceSound(p, ch, hooks);
  }

  lemma FieldStartDoes(p: Parser, ch: char, hooks: Hooks)
    requires Good(p) && p.state.HeaderFieldStart? && Room(p, 1)
    ensures Does(Bytewise(hooks), p, ch, StepHeaderFieldStart(Counted(p), ch, hooks))
  {
    FreeDoes(p, ch, hooks);
  }

  lemma EitherDoes(p: Parser, ch: char, hooks: Hooks)
    requires Good(p) && p.state.StartReqOrRes? && Room(p, 1)
    ensures Does(Bytewise(hooks), p, ch, StepStartReqOrRes(Counted(p), ch, hooks))
  {
    FreeDoes(p, ch, hooks);
  }

  lemma HeadersEndDoes(p: Parser, ch: char, hooks: Hooks)
    requires Good(p) && p.state.HeadersAlmostDone? && Room(p, 1)
    ensures Does(Bytewise(hooks), p, ch, StepHeadersAlmostDone(Counted(p), ch, hooks))
  {
    FreeDoes(p, ch, hooks);
  }

  lemma AlmostDoneDoes(p: Parser, ch: char, hooks: Hooks)
    requires Good(p) && p.state.HeaderAlmostDone? && Room(p, 1)
    ensures Does(Bytewise(hooks), p, ch, StepHeaderAlmostDone(Counted(p), ch))
  {
    FreeDoes(p, ch, hooks);
  }

  lemma ValueDoes(p: Parser, ch: char, hooks: Hooks)
    requires Good(p) && p.state.HeaderValue? && Room(p, 1)
    ensures Does(Bytewise(hooks), p, ch, StepHeaderValue(Counted(p), ch))
  {
    BusyDoes(p, ch, hooks);
  }

  lemma FieldDoes(p: Parser, ch: char, hooks: Hooks)
    requires Good(p) && p.state.HeaderField? && Room(p, 1)
    ensures Does(Bytewise(hooks), p, ch, StepHeaderField(Counted(p), ch))
  {
    BusyDoes(p, ch, hooks);
  }

  /** For every input, however long, the parser stays within its invariant. */
  lemma {:induction false} RunKeepsGood(step: Stepper, p: Parser, s: string)
    requires Trusty(step) && Good(p)
    ensures Proper(Run(step, p, s), |s|)
    decreases |s|
  {
    if s != "" {
      var t := step(p, s[0]);
      if t.exit.Next? { RunKeepsGood(step, t.p, s[1..]); }
    }
  }

  // ------------------------------------------------------------ body stretches

  /** `text` as single-byte pieces of one kind. */
  function Singles(k: Data, text: string): seq<Event> {
    seq(|text|, i requires 0 <= i < |text| => Piece(k, [text[i]]))
  }

  lemma {:induction false} PushSingles(t: seq<Event>, k: Data, text: string)
    requires text != ""
    ensures PushAll(t, Singles(k, text)) == Push(t, Piece(k, text))
    decreases |text|
  {
    var es := Singles(k, text);
    assert es[0] == Piece(k, [text[0]]);
    if |text| == 1 {
      assert es[1..] == [] && [text[0]] == text;
    } else {
      assert es[1..] == Singles(k, text[1..]);
      PushSingles(Push(t, es[0]), k, text[1..]);
      PushTwice(t, k, [text[0]], text[1..]);
      assert [text[0]] + text[1..] == text;
    }
  }

  /** The parser within `n` more bytes of a body that holds more than that. */
  function Shorter(p: Parser, n: nat): Parser
    requires n <= p.length
  {
    p.(length := p.length - n)
  }

  lemma BodyByte(p: Parser, ch: char, hooks: Hooks)
    requires Good(p) && (p.state.BodyIdentity? || p.state.ChunkData?) && p.length > 1
    ensures Bytewise(hooks)(p, ch) == Ran(Shorter(p, 1), [Piece(Body, [ch])], Next, 1) && Good(Shorter(p, 1))
  {
    assert Advance(p, ch, hooks) == Step(Shorter(p, 1), Some(Body), None, [], Next);
  }

  /** Body bytes short of the end only count down. */
  lemma {:induction false} RunBody(p: Parser, s: string, hooks: Hooks)
    requires Good(p) && (p.state.BodyIdentity? || p.state.ChunkData?) && |s| < p.length
    ensures Run(Bytewise(hooks), p, s) == Ran(Shorter(p, |s|), Singles(Body, s), Next, |s|)
    decreases |s|
  {
    if s != "" {
      BodyByte(p, s[0], hooks);
      RunBody(Shorter(p, 1), s[1..], hooks);
      assert [Piece(Body, [s[0]])] + Singles(Body, s[1..]) == Singles(Body, s);
    }
  }

  lemma BodyEofByte(p: Parser, ch: char, hooks: Hooks)
    requires Good(p) && p.state.BodyIdentityEof?
    ensures Bytewise(hooks)(p, ch) == Ran(p, [Piece(Body, [ch])], Next, 1)
  {
    assert Advance(p, ch, hooks) == Step(p, Some(Body), None, [], Next);
  }

  /** A body that lasts until the end of input is all data. */
  lemma {:induction false} RunBodyEof(p: Parser, s: string, hooks: Hooks)
    requires Good(p) && p.state.BodyIdentityEof?
    ensures Run(Bytewise(hooks), p, s) == Ran(p, Singles(Body, s), Next, |s|)
    decreases |s|
  {
    if s != "" {
      BodyEofByte(p, s[0], hooks);
      RunBodyEof(p, s[1..], hooks);
      assert [Piece(Body, [s[0]])] + Singles(Body, s[1..]) == Singles(Body, s);
    }
  }
}
