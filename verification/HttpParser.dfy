/** `http_parser_execute` on whole buffers: marks instead of single bytes, and
  bodies taken in one stretch. */
module HttpParser {
  import opened Common
  import opened HttpTypes
  import opened HttpStep
  import opened HttpMarks
  import opened HttpRun

  /** The four marks; `None` is a null pointer. */
  datatype Marks = Marks(field: Option<nat>, value: Option<nat>, url: Option<nat>, body: Option<nat>) {
    function Get(k: Data): Option<nat> {
      match k case Field => field case Value => value case Url => url case Body => body
    }

    function With(k: Data, m: Option<nat>): (r: Marks)
      ensures r.Get(k) == m && forall j | j != k :: r.Get(j) == Get(j)
    {
      match k
      case Field => this.(field := m) case Value => this.(value := m)
      case Url => this.(url := m) case Body => this.(body := m)
    }

    /** MARK: non-destructive if the mark is already set. */
    function Mark(k: Data, i: nat): Marks {
      if Get(k).None? then With(k, Some(i)) else this
    }
  }

  const NO_MARKS: Marks := Marks(None, None, None, None)

  function Only(k: Data, m: nat): Marks { NO_MARKS.With(k, Some(m)) }

  /** CALLBACK_DATA for one mark, up to position `i`. */
  function DataUpTo(marks: Marks, k: Data, data: string, i: nat): seq<Event>
    requires i <= |data| && (marks.Get(k).Some? ==> marks.Get(k).value <= i)
  {
    match marks.Get(k)
    case None => []
    case Some(m) => [Piece(k, data[m..i])]
  }

  function Notes(ns: seq<Notify>): seq<Event> {
    seq(|ns|, i requires 0 <= i < |ns| => Note(ns[i]))
  }

  /** The marks in a state between two bytes, at position `i`. */
  predicate Fit(marks: Marks, s: State, i: nat) {
    match Live(s)
    case Some(k) =>
      marks.Get(k).Some? && marks == Only(k, marks.Get(k).value) &&
      (marks.Get(k).value < i || marks.Get(k).value == i == 0)
    case None =>
      marks == NO_MARKS ||
      (InBody(s) && marks.body.Some? && marks.body.value < i && marks == Only(Body, marks.body.value))
  }

  /** Data already passed over but not yet handed out. */
  function Pending(marks: Marks, s: State, data: string, i: nat): seq<Event>
    requires i <= |data| && Fit(marks, s, i)
  {
    var k := if Live(s).Some? then Live(s).value else Body;
    if marks.Get(k).None? || marks.Get(k).value == i then [] else DataUpTo(marks, k, data, i)
  }

  lemma NormAppend(a: seq<Event>, b: seq<Event>)
    ensures Norm(a + b) == PushAll(Norm(a), b)
  {
    PushAllAppend([], a, b);
  }

  /** One byte on the marks, with what it hands out. */
  function Marking(marks: Marks, t: Step, i: nat): Marks {
    if t.mark.Some? then marks.Mark(t.mark.value, i) else marks
  }

  /** The callbacks of an ordinary byte when marks are kept. */
  function Calls(marks: Marks, t: Step, data: string, i: nat): seq<Event>
    requires i < |data| && forall k :: marks.Get(k).Some? ==> marks.Get(k).value <= i
  {
    (if t.flush.Some? then DataUpTo(marks, t.flush.value.what, data, if t.flush.value.through then i + 1 else i) else []) +
    Notes(t.tells)
  }

  function Cleared(marks: Marks, t: Step): Marks {
    if t.flush.Some? then marks.With(t.flush.value.what, None) else marks
  }

  /** The states whose bytes are taken in stretches. */
  predicate Bulk(s: State) { s.BodyIdentity? || s.BodyIdentityEof? || s.ChunkData? }

  /** An ordinary byte that goes on: the marks still fit, and what has been and
      will be handed out is what single bytes hand out. */
  lemma ByteFits(marks: Marks, p: Parser, t: Step, data: string, i: nat)
    requires i < |data| && Fit(marks, p.state, i) && !Bulk(p.state)
    requires t.exit.Next? && Disciplined(p.state, t)
    ensures Fit(Cleared(Marking(marks, t, i), t), t.p.state, i + 1)
  {
  }

  /** What single bytes make of a stretch that ends in a piece. */
  lemma LastPiece(es: seq<Event>, k: Data, x: string, y: string, notes: seq<Event>)
    ensures PushAll(es, [Piece(k, x)] + notes) == PushAll(Push(es, Piece(k, x)), notes)
    ensures PushAll(PushAll(es, [Piece(k, x)]), [Piece(k, y)] + notes) == PushAll(Push(es, Piece(k, x + y)), notes)
  {
    PushAllAppend(es, [Piece(k, x)], notes);
    assert [Piece(k, x)][1..] == [] && [Piece(k, y)][1..] == [];
    PushAllAppend(PushAll(es, [Piece(k, x)]), [Piece(k, y)], notes);
    PushTwice(es, k, x, y);
  }

  lemma UnmarkedCalls(es: seq<Event>, marks: Marks, p: Parser, t: Step, data: string, i: nat)
    requires i < |data| && Fit(marks, p.state, i) && !Bulk(p.state)
    requires t.exit.Next? && Disciplined(p.state, t) && t.flush.None? && Marked(p.state, t).None?
    ensures var m := Marking(marks, t, i);
            Fit(m, t.p.state, i + 1) &&
            PushAll(PushAll(es, Notes(t.tells)), Pending(m, t.p.state, data, i + 1)) ==
            PushAll(PushAll(es, Pending(marks, p.state, data, i)), ByteEvents(p.state, data[i], t))
  {
    ByteFits(marks, p, t, data, i);
    assert ByteEvents(p.state, data[i], t) == Notes(t.tells) + [] == Notes(t.tells);
    assert marks == NO_MARKS;
  }

  lemma MarkedCalls(es: seq<Event>, marks: Marks, p: Parser, t: Step, data: string, i: nat)
    requires i < |data| && Fit(marks, p.state, i) && !Bulk(p.state)
    requires t.exit.Next? && Disciplined(p.state, t) && t.flush.None? && Marked(p.state, t).Some?
    ensures var m := Marking(marks, t, i);
            Fit(m, t.p.state, i + 1) &&
            PushAll(PushAll(es, Notes(t.tells)), Pending(m, t.p.state, data, i + 1)) ==
            PushAll(PushAll(es, Pending(marks, p.state, data, i)), ByteEvents(p.state, data[i], t))
  {
    ByteFits(marks, p, t, data, i);
    var m, k := Marking(marks, t, i), Marked(p.state, t).value;
    var at := m.Get(k).value;
    assert Notes(t.tells) == [];
    assert ByteEvents(p.state, data[i], t) == [] + [Piece(k, [data[i]])] == [Piece(k, [data[i]])];
    assert Pending(m, t.p.state, data, i + 1) == [Piece(k, data[at..i + 1])];
    if at < i {
      assert Pending(marks, p.state, data, i) == [Piece(k, data[at..i])];
      GrowPiece(es, k, data[at..i], data[i]);
      assert data[at..i] + [data[i]] == data[at..i + 1];
    } else {
      assert Pending(marks, p.state, data, i) == [];
      assert data[i..i + 1] == [data[i]];
    }
  }

  lemma GrowPiece(es: seq<Event>, k: Data, x: string, c: char)
    ensures PushAll(es, [Piece(k, x + [c])]) == PushAll(PushAll(es, [Piece(k, x)]), [Piece(k, [c])])
  {
    PushTwice(es, k, x, [c]);
    assert forall e: Event :: [e][1..] == [];
  }

  /** What a byte that hands data out finds marked and pending. */
  lemma FlushedMark(marks: Marks, p: Parser, t: Step, data: string, i: nat)
    requires i < |data| && Fit(marks, p.state, i) && !Bulk(p.state)
    requires t.exit.Next? && Disciplined(p.state, t) && t.flush.Some? && t.flush.value.what != Body
    ensures var m := Marking(marks, t, i); var k := t.flush.value.what;
            m.Get(k).Some? && m.Get(k).value <= i &&
            Pending(marks, p.state, data, i) == (if m.Get(k).value < i then [Piece(k, data[m.Get(k).value..i])] else []) &&
            ByteEvents(p.state, data[i], t) == [Piece(k, "")] + Notes(t.tells)
  {
  }

  lemma HandOut(es: seq<Event>, k: Data, x: string, notes: seq<Event>)
    ensures PushAll(es, [Piece(k, x)] + notes) ==
            PushAll(PushAll(es, if x == "" then [] else [Piece(k, x)]), [Piece(k, "")] + notes)
  {
    LastPiece(es, k, x, "", notes);
    assert x + "" == x;
  }

  lemma FlushedCalls(es: seq<Event>, marks: Marks, p: Parser, t: Step, data: string, i: nat)
    requires i < |data| && Fit(marks, p.state, i) && !Bulk(p.state)
    requires t.exit.Next? && Disciplined(p.state, t) && t.flush.Some? && t.flush.value.what != Body
    ensures var m := Marking(marks, t, i); var k := t.flush.value.what;
            m.Get(k).Some? && m.Get(k).value <= i &&
            PushAll(es, [Piece(k, data[m.Get(k).value..i])] + Notes(t.tells)) ==
            PushAll(PushAll(es, Pending(marks, p.state, data, i)), ByteEvents(p.state, data[i], t))
  {
    FlushedMark(marks, p, t, data, i);
    var k := t.flush.value.what;
    HandOut(es, k, data[Marking(marks, t, i).Get(k).value..i], Notes(t.tells));
  }

  lemma BodyFlushCalls(es: seq<Event>, marks: Marks, p: Parser, t: Step, data: string, i: nat)
    requires i < |data| && Fit(marks, p.state, i) && !Bulk(p.state)
    requires t.exit.Next? && Disciplined(p.state, t) && t.flush == Some(Flush(Body, false))
    ensures marks.body.Some? ==> marks.body.value <= i
    ensures PushAll(es, DataUpTo(marks, Body, data, i) + Notes(t.tells)) ==
            PushAll(PushAll(es, Pending(marks, p.state, data, i)), ByteEvents(p.state, data[i], t))
  {
    assert ByteEvents(p.state, data[i], t) == [] + Notes(t.tells) == Notes(t.tells);
    PushAllAppend(es, DataUpTo(marks, Body, data, i), Notes(t.tells));
  }

  /** The callbacks, with what is pending after the byte, are those of the
      byte alone after what was pending before. */
  predicate Agree(es: seq<Event>, calls: seq<Event>, after: seq<Event>, before: seq<Event>, byte: seq<Event>) {
    PushAll(PushAll(es, calls), after) == PushAll(PushAll(es, before), byte)
  }

  lemma KeptCalls(es: seq<Event>, marks: Marks, p: Parser, t: Step, data: string, i: nat)
    requires i < |data| && Fit(marks, p.state, i) && !Bulk(p.state)
    requires t.exit.Next? && Disciplined(p.state, t) && t.flush.None?
    ensures var m := Marking(marks, t, i);
            Fit(m, t.p.state, i + 1) &&
            Agree(es, Notes(t.tells), Pending(m, t.p.state, data, i + 1), Pending(marks, p.state, data, i), ByteEvents(p.state, data[i], t))
  {
    if Marked(p.state, t).None? { UnmarkedCalls(es, marks, p, t, data, i); } else { MarkedCalls(es, marks, p, t, data, i); }
  }

  lemma HandedCalls(es: seq<Event>, marks: Marks, p: Parser, t: Step, data: string, i: nat)
    requires i < |data| && Fit(marks, p.state, i) && !Bulk(p.state)
    requires t.exit.Next? && Disciplined(p.state, t) && t.flush.Some?
    ensures var m := Marking(marks, t, i); var k := t.flush.value.what;
            !t.flush.value.through && (m.Get(k).Some? ==> m.Get(k).value <= i) &&
            Agree(es, DataUpTo(m, k, data, i) + Notes(t.tells), [], Pending(marks, p.state, data, i), ByteEvents(p.state, data[i], t))
  {
    if t.flush.value.what == Body { BodyFlushCalls(es, marks, p, t, data, i); } else { FlushedCalls(es, marks, p, t, data, i); }
  }

  lemma ClearedPending(marks: Marks, p: Parser, t: Step, data: string, i: nat)
    requires i < |data| && Fit(marks, p.state, i) && !Bulk(p.state)
    requires t.exit.Next? && Disciplined(p.state, t) && t.flush.Some?
    ensures var m := Marking(marks, t, i);
            Fit(Cleared(m, t), t.p.state, i + 1) && Pending(Cleared(m, t), t.p.state, data, i + 1) == []
  {
    ByteFits(marks, p, t, data, i);
  }

  lemma MarkingBounds(marks: Marks, s: State, t: Step, i: nat)
    requires Fit(marks, s, i)
    ensures forall k :: Marking(marks, t, i).Get(k).Some? ==> Marking(marks, t, i).Get(k).value <= i
  {
    FitBounds(marks, s, i);
  }

  lemma FitBounds(marks: Marks, s: State, i: nat)
    requires Fit(marks, s, i)
    ensures forall k :: marks.Get(k).Some? ==> marks.Get(k).value <= i
  {
  }

  lemma ByteCalls(es: seq<Event>, marks: Marks, p: Parser, t: Step, data: string, i: nat)
    requires i < |data| && Fit(marks, p.state, i) && !Bulk(p.state)
    requires t.exit.Next? && Disciplined(p.state, t)
    ensures var m := Marking(marks, t, i);
            (forall k :: m.Get(k).Some? ==> m.Get(k).value <= i) &&
            Fit(Cleared(m, t), t.p.state, i + 1) &&
            Agree(es, Calls(m, t, data, i), Pending(Cleared(m, t), t.p.state, data, i + 1),
                  Pending(marks, p.state, data, i), ByteEvents(p.state, data[i], t))
  {
    MarkingBounds(marks, p.state, t, i);
    if t.flush.None? {
      KeptCalls(es, marks, p, t, data, i);
      assert Calls(Marking(marks, t, i), t, data, i) == Notes(t.tells);
    } else {
      HandedCalls(es, marks, p, t, data, i);
      ClearedPending(marks, p, t, data, i);
    }
  }

  // ------------------------------------------------------------- stretches

  lemma GrowStretch(es: seq<Event>, x: string, y: string)
    requires y != ""
    ensures PushAll(PushAll(es, [Piece(Body, x)]), Singles(Body, y)) == PushAll(es, [Piece(Body, x + y)])
    ensures PushAll(PushAll(es, []), Singles(Body, y)) == PushAll(es, [Piece(Body, y)])
  {
    PushSingles(Push(es, Piece(Body, x)), Body, y);
    PushSingles(es, Body, y);
    PushTwice(es, Body, x, y);
    assert forall e: Event :: [e][1..] == [];
  }

  lemma BodyMark(marks: Marks, s: State, next: State, data: string, i: nat, j: nat)
    requires i < j <= |data| && Bulk(s) && Fit(marks, s, i) && InBody(next)
    ensures var m := marks.Mark(Body, i);
            Fit(m, next, j) && m.body.Some? && m.body.value <= i && (marks.body.Some? ==> m == marks && m.body.value < i) &&
            (marks.body.None? ==> m.body.value == i) &&
            Pending(m, next, data, j) == [Piece(Body, data[m.body.value..j])]
    ensures Pending(marks, s, data, i) == if marks.body.Some? then [Piece(Body, data[marks.body.value..i])] else []
  {
  }

  /** A stretch of body bytes only moves the end of what is pending. */
  lemma StretchPending(es: seq<Event>, marks: Marks, s: State, next: State, data: string, i: nat, j: nat)
    requires i < j <= |data| && Bulk(s) && Fit(marks, s, i) && InBody(next)
    ensures var m := marks.Mark(Body, i);
            Fit(m, next, j) && m.body.Some? && m.body.value <= i &&
            Pending(m, next, data, j) == [Piece(Body, data[m.body.value..j])]
    ensures PushAll(es, [Piece(Body, data[marks.Mark(Body, i).body.value..j])]) ==
            PushAll(PushAll(es, Pending(marks, s, data, i)), Singles(Body, data[i..j]))
  {
    BodyMark(marks, s, next, data, i, j);
    if marks.body.Some? {
      var at := marks.body.value;
      GrowStretch(es, data[at..i], data[i..j]);
      assert data[at..i] + data[i..j] == data[at..j];
    } else {
      GrowStretch(es, "", data[i..j]);
    }
  }

  lemma ChunkLastByte(p: Parser, ch: char, hooks: Hooks)
    requires Good(p) && p.state.ChunkData? && p.length == 1
    ensures Bytewise(hooks)(p, ch) == Ran(To(Shorter(p, 1), ChunkDataAlmostDone), [Piece(Body, [ch])], Next, 1)
  {
    assert Advance(p, ch, hooks) == Step(To(Shorter(p, 1), ChunkDataAlmostDone), Some(Body), None, [], Next);
  }

  /** A run, one byte longer. */
  lemma RunSnoc(step: Stepper, p: Parser, a: string, c: char, mid: Ran, last: Ran)
    requires Run(step, p, a) == mid && mid.exit.Next? && step(mid.p, c) == last
    ensures Run(step, p, a + [c]) == Ran(last.p, mid.events + last.events, last.exit, mid.used + last.used)
  {
    RunAppend(step, p, a, [c]);
    assert [c][1..] == "";
    assert last.events + [] == last.events;
  }

  /** The rest of a chunk. */
  lemma RunChunk(p: Parser, s: string, hooks: Hooks)
    requires Good(p) && p.state.ChunkData? && |s| == p.length
    ensures Run(Bytewise(hooks), p, s) == Ran(To(Shorter(p, |s|), ChunkDataAlmostDone), Singles(Body, s), Next, |s|)
  {
    var a, c := s[..|s| - 1], s[|s| - 1];
    assert s == a + [c];
    RunBody(p, a, hooks);
    var q := Shorter(p, |a|);
    ChunkLastByte(q, c, hooks);
    RunSnoc(Bytewise(hooks), p, a, c, Ran(q, Singles(Body, a), Next, |a|),
            Ran(To(Shorter(q, 1), ChunkDataAlmostDone), [Piece(Body, [c])], Next, 1));
    assert Singles(Body, s) == Singles(Body, a) + [Piece(Body, [c])];
  }

  lemma BodyLastByte(p: Parser, ch: char, hooks: Hooks)
    requires Good(p) && p.state.BodyIdentity? && p.length == 1
    ensures var t := Complete(To(Shorter(p, 1), MessageDone), hooks);
            Bytewise(hooks)(p, ch) == Ran(t.p, [Piece(Body, [ch])] + Notes(t.tells), t.exit, 1)
  {
    var t := Complete(To(Shorter(p, 1), MessageDone), hooks);
    assert Advance(p, ch, hooks) == t.(mark := Some(Body), flush := Some(Flush(Body, true)));
    assert Notes(t.tells) == seq(|t.tells|, i requires 0 <= i < |t.tells| => Note(t.tells[i]));
  }

  /** The rest of a body of known length, and the end of its message. */
  lemma RunIdentity(p: Parser, s: string, hooks: Hooks)
    requires Good(p) && p.state.BodyIdentity? && |s| == p.length
    ensures var t := Complete(To(Shorter(p, |s|), MessageDone), hooks);
            Run(Bytewise(hooks), p, s) == Ran(t.p, Singles(Body, s) + Notes(t.tells), t.exit, |s|)
  {
    var a, c := s[..|s| - 1], s[|s| - 1];
    assert s == a + [c];
    RunBody(p, a, hooks);
    var q := Shorter(p, |a|);
    BodyLastByte(q, c, hooks);
    assert Shorter(q, 1) == Shorter(p, |s|);
    var t := Complete(To(Shorter(p, |s|), MessageDone), hooks);
    RunSnoc(Bytewise(hooks), p, a, c, Ran(q, Singles(Body, a), Next, |a|),
            Ran(t.p, [Piece(Body, [c])] + Notes(t.tells), t.exit, 1));
    SinglesSnoc(a, c, Notes(t.tells));
  }

  lemma CompleteEnds(p: Parser, hooks: Hooks)
    requires p.errno.Ok? && Bounded(p)
    ensures var t := Complete(p, hooks);
            Sound(t) && !t.exit.Leave? && !t.exit.Error? && (t.exit.Next? ==> Live(t.p.state).None?)
  {
    CompleteLight(p, hooks);
    LightIsSound(Complete(p, hooks));
    CompleteQuiet(p, hooks);
  }

  lemma SinglesSnoc(a: string, c: char, notes: seq<Event>)
    ensures Singles(Body, a) + ([Piece(Body, [c])] + notes) == Singles(Body, a + [c]) + notes
  {
  }

  // ---------------------------------------------------------------- a call

  /** `i` bytes of `data` have gone by: the parser is where single bytes leave
      it, and the callbacks `es` with what is pending are theirs. */
  ghost predicate Running(step: Stepper, p0: Parser, data: string, i: nat, p: Parser, marks: Marks, es: seq<Event>) {
    i <= |data| && Fit(marks, p.state, i) &&
    var r := Run(step, p0, data[..i]);
    r.exit.Next? && r.p == p && r.used == i && Good(p) &&
    PushAll(Norm(es), Pending(marks, p.state, data, i)) == Norm(r.events)
  }

  /** The call ends after `n` bytes. After an error the data of the unfinished
      mark, `lost`, has not been handed out. */
  ghost predicate Ended(r: Ran, n: nat, p: Parser, es: seq<Event>, lost: seq<Event>) {
    r.p == p && r.used == n && Norm(es + lost) == Norm(r.events) &&
    (!r.exit.Error? ==> lost == []) && |lost| <= 1 && forall e | e in lost :: e.Piece?
  }

  /** The run over all of `data` from the run up to a cut. */
  lemma RunFrom(step: Stepper, p0: Parser, data: string, i: nat, j: nat, r: Ran, s: Ran)
    requires i <= j <= |data| && r == Run(step, p0, data[..i]) && r.exit.Next?
    requires s == Run(step, r.p, data[i..j])
    ensures Run(step, p0, data[..j]) == Then(r, s)
    ensures !s.exit.Next? ==> Run(step, p0, data) == Then(r, s)
  {
    assert data[..j] == data[..i] + data[i..j];
    RunAppend(step, p0, data[..i], data[i..j]);
    if !s.exit.Next? {
      assert data == data[..j] + data[j..];
      RunAppend(step, p0, data[..j], data[j..]);
    }
  }

  lemma RunByte(step: Stepper, p: Parser, c: char)
    ensures var r := step(p, c); Run(step, p, [c]) == Then(r, if r.exit.Next? then Ran(r.p, [], Next, 0) else Ran(r.p, [], r.exit, 0))
  {
    assert [c][1..] == "";
    var r := step(p, c);
    assert r.events + [] == r.events;
  }

  /** `t` is what `step` does with one byte, and it keeps the rules. */
  ghost predicate Takes(step: Stepper, p: Parser, ch: char, t: Step) {
    step(p, ch) == Ran(t.p, ByteEvents(p.state, ch, t), t.exit, Consumed(t.exit)) && Tidy(p.state, t) && Sound(t)
  }

  lemma AdvanceTakes(p: Parser, ch: char, hooks: Hooks)
    requires Good(p)
    ensures Takes(Bytewise(hooks), p, ch, Advance(p, ch, hooks))
  {
    AdvanceSound(p, ch, hooks);
    AdvanceTidy(p, ch, hooks);
  }

  lemma RunningByte(step: Stepper, p0: Parser, data: string, i: nat, p: Parser, marks: Marks, es: seq<Event>, t: Step)
    requires i < |data| && Running(step, p0, data, i, p, marks, es) && !Bulk(p.state)
    requires Takes(step, p, data[i], t) && t.exit.Next?
    ensures var m := Marking(marks, t, i);
            (forall k :: m.Get(k).Some? ==> m.Get(k).value <= i) &&
            Running(step, p0, data, i + 1, t.p, Cleared(m, t), es + Calls(m, t, data, i))
  {
    ByteCalls(Norm(es), marks, p, t, data, i);
    var m := Marking(marks, t, i);
    NormAppend(es, Calls(m, t, data, i));
    var now := ByteEvents(p.state, data[i], t);
    StepOn(step, p0, data, i, p, Ran(t.p, now, Next, 1));
    NormAppend(Run(step, p0, data[..i]).events, now);
  }

  lemma StepOn(step: Stepper, p0: Parser, data: string, i: nat, p: Parser, one: Ran)
    requires i < |data| && Run(step, p0, data[..i]).exit.Next? && Run(step, p0, data[..i]).p == p
    requires step(p, data[i]) == one
    ensures var r := Run(step, p0, data[..i]);
            Run(step, p0, data[..i + 1]) == Ran(one.p, r.events + one.events, one.exit, r.used + one.used)
    ensures !one.exit.Next? ==> Run(step, p0, data) == Run(step, p0, data[..i + 1])
  {
    assert data[i..i + 1] == [data[i]];
    RunByte(step, p, data[i]);
    RunFrom(step, p0, data, i, i + 1, Run(step, p0, data[..i]), Run(step, p, data[i..i + 1]));
    assert one.events + [] == one.events;
  }

  lemma ErrorByte(step: Stepper, p0: Parser, data: string, i: nat, p: Parser, marks: Marks, es: seq<Event>, t: Step)
    requires i < |data| && Running(step, p0, data, i, p, marks, es) && !Bulk(p.state)
    requires Takes(step, p, data[i], t) && t.exit.Error?
    ensures Ended(Run(step, p0, data), i, t.p, es, Pending(marks, p.state, data, i))
  {
    assert ByteEvents(p.state, data[i], t) == [];
    var r := Run(step, p0, data[..i]);
    StepOn(step, p0, data, i, p, Ran(t.p, [], Error, 0));
    NormAppend(es, Pending(marks, p.state, data, i));
    assert r.events + [] == r.events;
  }

  lemma StoppingByte(step: Stepper, p0: Parser, data: string, i: nat, p: Parser, marks: Marks, es: seq<Event>, t: Step)
    requires i < |data| && Running(step, p0, data, i, p, marks, es) && !Bulk(p.state)
    requires Takes(step, p, data[i], t) && (t.exit.Halt? || t.exit.Leave?)
    ensures Ended(Run(step, p0, data), i + Consumed(t.exit), t.p, es + Notes(t.tells), [])
  {
    assert ByteEvents(p.state, data[i], t) == Notes(t.tells) + [] == Notes(t.tells);
    assert Pending(marks, p.state, data, i) == [];
    var r := Run(step, p0, data[..i]);
    StepOn(step, p0, data, i, p, Ran(t.p, Notes(t.tells), t.exit, Consumed(t.exit)));
    NormCongruent(es, r.events, Notes(t.tells));
    assert es + Notes(t.tells) + [] == es + Notes(t.tells);
  }

  /** A stretch of body bytes that ends within the body. */
  lemma RunningStretch(step: Stepper, p0: Parser, data: string, i: nat, j: nat, p: Parser, marks: Marks, es: seq<Event>, q: Parser)
    requires i < j <= |data| && Running(step, p0, data, i, p, marks, es) && Bulk(p.state)
    requires Run(step, p, data[i..j]) == Ran(q, Singles(Body, data[i..j]), Next, j - i)
    requires InBody(q.state) && Good(q)
    ensures Running(step, p0, data, j, q, marks.Mark(Body, i), es)
  {
    var r := Run(step, p0, data[..i]);
    StretchPending(Norm(es), marks, p.state, q.state, data, i, j);
    RunFrom(step, p0, data, i, j, r, Run(step, p, data[i..j]));
    NormAppend(r.events, Singles(Body, data[i..j]));
  }

  /** Handing out a whole stretch at once, or byte by byte. */
  lemma StretchNorm(es: seq<Event>, pend: seq<Event>, rs: seq<Event>, piece: seq<Event>, singles: seq<Event>, notes: seq<Event>)
    requires PushAll(Norm(es), pend) == Norm(rs)
    requires PushAll(Norm(es), piece) == PushAll(PushAll(Norm(es), pend), singles)
    ensures Norm(es + piece + notes) == Norm(rs + (singles + notes))
  {
    NormAppend(es, piece);
    NormAppend(rs, singles);
    NormCongruent(es + piece, rs + singles, notes);
    Associate(rs, singles, notes);
  }

  lemma Associate<T>(a: seq<T>, b: seq<T>, c: seq<T>)
    ensures a + (b + c) == a + b + c
  {
  }

  lemma Suffix<T>(a: seq<T>, b: seq<T>)
    ensures (a + b)[|a|..] == b && a <= a + b
  {
  }

  lemma NormCongruent(a: seq<Event>, b: seq<Event>, c: seq<Event>)
    requires Norm(a) == Norm(b)
    ensures Norm(a + c) == Norm(b + c)
  {
    NormAppend(a, c);
    NormAppend(b, c);
  }

  /** A stretch of body bytes up to the end of the message. */
  lemma EndingStretch(step: Stepper, p0: Parser, data: string, i: nat, j: nat, p: Parser, marks: Marks, es: seq<Event>, t: Step)
    requires i < j <= |data| && Running(step, p0, data, i, p, marks, es) && p.state.BodyIdentity?
    requires Run(step, p, data[i..j]) == Ran(t.p, Singles(Body, data[i..j]) + Notes(t.tells), t.exit, j - i)
    ensures var m := marks.Mark(Body, i); m.body.Some? && m.body.value <= i
    ensures var m := marks.Mark(Body, i);
            var r := Run(step, p0, data[..j]);
            Norm(es + [Piece(Body, data[m.body.value..j])] + Notes(t.tells)) == Norm(r.events) &&
            r.p == t.p && r.exit == t.exit && r.used == j && (!t.exit.Next? ==> Run(step, p0, data) == r)
  {
    var r, s := Run(step, p0, data[..i]), Run(step, p, data[i..j]);
    StretchPending(Norm(es), marks, p.state, p.state, data, i, j);
    RunFrom(step, p0, data, i, j, r, s);
    StretchNorm(es, Pending(marks, p.state, data, i), r.events, [Piece(Body, data[marks.Mark(Body, i).body.value..j])],
                Singles(Body, data[i..j]), Notes(t.tells));
  }

  class Executor {
    const hooks: Hooks
    var p: Parser
    var trace: seq<Event>       // the callbacks made, oldest first

    constructor (t: ParserType, hooks: Hooks)
      ensures p == InitialParser(t) && this.hooks == hooks && trace == [] && Good(p)
    {
      this.hooks := hooks;
      p, trace := InitialParser(t), [];
    }

    /** `http_parser_execute`. The parser ends where feeding the bytes one at a
        time ends, the same number of bytes is consumed, and the callbacks are
        the same but for how stretches of data are cut (and, after an error, for
        the data of the unfinished stretch). */
    method Execute(data: string) returns (n: nat, ghost lost: seq<Event>)
      requires Inv(p)
      modifies this
      ensures Inv(p) && old(trace) <= trace
      ensures !old(p).errno.Ok? ==> n == 0 && p == old(p) && trace == old(trace) && lost == []
      ensures old(p).errno.Ok? && data != "" ==> Ended(Run(Bytewise(hooks), old(p), data), n, p, trace[|old(trace)|..], lost)
      ensures old(p).errno.Ok? && data == "" ==> AtEof(old(p), n, p, trace[|old(trace)|..])
    {
      n, lost := 0, [];
      // a parser with an error stays as it is
      if !p.errno.Ok? {
        return;
      }
      if |data| == 0 {
        n := Eof();
        return;
      }
      n, lost := Parse(data);
    }

    /** What a call with no bytes, the end of input, does. */
    ghost predicate AtEof(q: Parser, n: nat, r: Parser, es: seq<Event>) {
      if q.state.BodyIdentityEof? then
        n == 0 && es == [Note(MessageComplete)] && r == Tell(q, MessageComplete, hooks).p
      else if q.state.Dead? || q.state.StartReqOrRes? || q.state.StartRes? || q.state.StartReq? then
        n == 0 && es == [] && r == q
      else n == 1 && es == [] && r == q.(errno := InvalidEofState)
    }

    method Eof() returns (n: nat)
      requires Good(p)
      modifies this
      ensures Inv(p) && old(trace) <= trace && AtEof(old(p), n, p, trace[|old(trace)|..])
    {
      n := 0;
      if p.state.BodyIdentityEof? {
        p := Tell(p, MessageComplete, hooks).p;
        trace := trace + [Note(MessageComplete)];
      } else if !(p.state.Dead? || p.state.StartReqOrRes? || p.state.StartRes? || p.state.StartReq?) {
        p := p.(errno := InvalidEofState);
        n := 1;
      }
    }

    /** The switch on one byte. */
    method Take(ch: char) returns (t: Step)
      requires Good(p)
      modifies this`p
      ensures Takes(Bytewise(hooks), old(p), ch, t) && p == t.p
    {
      t := Advance(p, ch, hooks);
      AdvanceTakes(p, ch, hooks);
      p := t.p;
    }

    /** A byte that is not part of a body. */
    method OneOf(data: string, i: nat, marks: Marks, ghost p0: Parser, ghost es: seq<Event>)
      returns (next: nat, left: Marks, calls: seq<Event>, stop: bool, ghost lost: seq<Event>)
      requires i < |data| && !Bulk(p.state) && Running(Bytewise(hooks), p0, data, i, p, marks, es)
      modifies this`p
      ensures !stop ==> i < next <= |data| && lost == [] && Running(Bytewise(hooks), p0, data, next, p, left, es + calls)
      ensures stop ==> Inv(p) && Ended(Run(Bytewise(hooks), p0, data), next, p, es + calls, lost)
    {
      ghost var q := p;
      ghost var step := Bytewise(hooks);
      var t := Take(data[i]);
      next, left, calls, stop, lost := Outcome(step, p0, data, i, q, marks, es, t);
    }

    /** How the loop goes on after the switch on one byte. */
    static method Outcome(ghost step: Stepper, ghost p0: Parser, data: string, i: nat, ghost q: Parser, marks: Marks, ghost es: seq<Event>, t: Step)
      returns (next: nat, left: Marks, calls: seq<Event>, stop: bool, ghost lost: seq<Event>)
      requires i < |data| && Running(step, p0, data, i, q, marks, es) && !Bulk(q.state) && Takes(step, q, data[i], t)
      ensures !stop ==> i < next <= |data| && lost == [] && Running(step, p0, data, next, t.p, left, es + calls)
      ensures stop ==> Inv(t.p) && Ended(Run(step, p0, data), next, t.p, es + calls, lost)
    {
      if t.exit.Next? {
        RunningByte(step, p0, data, i, q, marks, es, t);
        left := Marking(marks, t, i);
        calls := Calls(left, t, data, i);
        return i + 1, Cleared(left, t), calls, false, [];
      }
      stop, left := true, marks;
      if t.exit.Error? {
        ErrorByte(step, p0, data, i, q, marks, es, t);
        assert es + [] == es;
        next, calls, lost := i, [], Pending(marks, q.state, data, i);
      } else {
        // a callback stopped the parser, or the message is an upgrade
        StoppingByte(step, p0, data, i, q, marks, es, t);
        next, calls, lost := i + Consumed(t.exit), Notes(t.tells), [];
      }
    }

    /** As much of a body as the buffer holds. */
    method BodyStretch(data: string, i: nat, marks: Marks, ghost p0: Parser, ghost es: seq<Event>)
      returns (next: nat, left: Marks, calls: seq<Event>, stop: bool)
      requires i < |data| && Bulk(p.state) && Running(Bytewise(hooks), p0, data, i, p, marks, es)
      modifies this`p
      ensures !stop ==> i < next <= |data| && Running(Bytewise(hooks), p0, data, next, p, left, es + calls)
      ensures stop ==> Inv(p) && Ended(Run(Bytewise(hooks), p0, data), next, p, es + calls, [])
    {
      // read until EOF, or as far as the length goes
      var toRead := if !p.state.BodyIdentityEof? && p.length < |data| - i then p.length else |data| - i;
      next := i + toRead;
      if p.state.BodyIdentity? && toRead == p.length {
        calls, stop := LastStretch(data, i, next, marks, p0, es);
        left := NO_MARKS;
      } else {
        ghost var q := p;
        ReadOn(data[i..next], toRead);
        RunningStretch(Bytewise(hooks), p0, data, i, next, q, marks, es, p);
        assert es + [] == es;
        left, calls, stop := marks.Mark(Body, i), [], false;
      }
    }

    /** Body bytes that do not end the message: only the length changes, and a
        chunk may come to its end. */
    method ReadOn(ghost s: string, n: nat)
      requires Good(p) && Bulk(p.state) && |s| == n > 0
      requires !p.state.BodyIdentityEof? ==> n <= p.length
      requires p.state.BodyIdentity? ==> n < p.length
      modifies this`p
      ensures Run(Bytewise(hooks), old(p), s) == Ran(p, Singles(Body, s), Next, n)
      ensures InBody(p.state) && Good(p)
    {
      if p.state.BodyIdentityEof? {
        RunBodyEof(p, s, hooks);
        return;
      }
      assert p.length != 0 && p.length != ULLONG_MAX;
      if p.length == n { RunChunk(p, s, hooks); } else { RunBody(p, s, hooks); }
      p := p.(length := p.length - n);
      if p.length == 0 {
        p := To(p, ChunkDataAlmostDone);
      }
    }

    /** The rest of a body of known length: its data, through the last byte,
        and the end of the message. */
    method LastStretch(data: string, i: nat, j: nat, marks: Marks, ghost p0: Parser, ghost es: seq<Event>)
      returns (calls: seq<Event>, stop: bool)
      requires i < j <= |data| && p.state.BodyIdentity? && p.length == j - i
      requires Running(Bytewise(hooks), p0, data, i, p, marks, es)
      modifies this`p
      ensures !stop ==> Running(Bytewise(hooks), p0, data, j, p, NO_MARKS, es + calls)
      ensures stop ==> Inv(p) && Ended(Run(Bytewise(hooks), p0, data), j, p, es + calls, [])
    {
      ghost var q := p;
      var t := Finish(data[i..j]);
      EndingStretch(Bytewise(hooks), p0, data, i, j, q, marks, es, t);
      stop := !t.exit.Next?;
      var piece := Piece(Body, data[marks.Mark(Body, i).body.value..j]);
      calls := [piece] + Notes(t.tells);
      Associate(es, [piece], Notes(t.tells));
      assert es + calls + [] == es + calls;
    }

    /** The end of a body of known length, of which `s` is left. */
    method Finish(ghost s: string) returns (t: Step)
      requires Good(p) && p.state.BodyIdentity? && |s| == p.length
      modifies this`p
      ensures Run(Bytewise(hooks), old(p), s) == Ran(p, Singles(Body, s) + Notes(t.tells), t.exit, |s|)
      ensures p == t.p && Sound(t) && !t.exit.Leave? && !t.exit.Error?
      ensures t.exit.Next? ==> Live(p.state).None?
    {
      RunIdentity(p, s, hooks);
      var q := To(p.(length := 0), MessageDone);
      assert q == To(Shorter(p, |s|), MessageDone);
      CompleteEnds(q, hooks);
      t := Complete(q, hooks);
      p := t.p;
    }

    method Parse(data: string) returns (n: nat, ghost lost: seq<Event>)
      requires Good(p) && data != ""
      modifies this
      ensures Inv(p) && old(trace) <= trace
      ensures Ended(Run(Bytewise(hooks), old(p), data), n, p, trace[|old(trace)|..], lost)
    {
      var marks := match Live(p.state) case Some(k) => Only(k, 0) case None => NO_MARKS;
      var i := 0;
      ghost var es := [];
      assert data[..0] == "" && trace == old(trace) + [];
      while i < |data|
        invariant i <= |data| && trace == old(trace) + es
        invariant Running(Bytewise(hooks), old(p), data, i, p, marks, es)
      {
        var calls, stop;
        if Bulk(p.state) {
          i, marks, calls, stop := BodyStretch(data, i, marks, old(p), es);
          lost := [];
        } else {
          i, marks, calls, stop, lost := OneOf(data, i, marks, old(p), es);
        }
        trace := trace + calls;
        Associate(old(trace), es, calls);
        es := es + calls;
        if stop {
          Suffix(old(trace), es);
          return i, lost;
        }
      }
      assert data[..i] == data;
      // hand out what is still marked, which is one stretch at most
      var rest := Leftover(marks, p.state, data);
      trace := trace + rest;
      Associate(old(trace), es, rest);
      Suffix(old(trace), es + rest);
      RunningEnds(Bytewise(hooks), old(p), data, p, marks, es);
      return i, [];
    }
  }

  /** The data callbacks for the marks left at the end of the buffer: there is
      at most one. */
  function Leftover(marks: Marks, s: State, data: string): (es: seq<Event>)
    requires data != "" && Fit(marks, s, |data|)
    ensures es == Pending(marks, s, data, |data|) && |es| <= 1
  {
    DataUpTo(marks, Field, data, |data|) + DataUpTo(marks, Value, data, |data|) +
    DataUpTo(marks, Url, data, |data|) + DataUpTo(marks, Body, data, |data|)
  }

  lemma RunningEnds(step: Stepper, p0: Parser, data: string, p: Parser, marks: Marks, es: seq<Event>)
    requires data != "" && Running(step, p0, data, |data|, p, marks, es)
    ensures Ended(Run(step, p0, data), |data|, p, es + Leftover(marks, p.state, data), [])
  {
    assert data[..|data|] == data;
    var rest := Leftover(marks, p.state, data);
    NormAppend(es, rest);
    assert es + rest + [] == es + rest;
  }
}
