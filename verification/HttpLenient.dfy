/** What passes besides messages in their proper form: line ends without CR,
  folded header values, blank lines before a message, spaces between the
  words of a start line, and requests without a version. */
module HttpLenient {
  import opened Common
  import opened HttpTypes
  import opened HttpStep
  import opened HttpRun
  import opened HttpSplit
  import opened HttpFraming
  import opened HttpLength
  import opened HttpLine
  import opened HttpWords
  import opened HttpHeaders
  import HttpRequest

  // -------------------------------------------------------------- line feeds

  lemma ValueLfOf(step: Stepper, p: Parser)
    requires Good(p) && p.state.HeaderValue? && Does(step, p, '\n', StepHeaderValue(Counted(p), '\n'))
    ensures step(p, '\n') == Ran(LineOver(p), [Piece(Value, "")], Next, 1) && Good(LineOver(p))
  {
  }

  /** Behind a header value, LF does what CRLF does, but that one byte less is
      counted. */
  lemma BareLf(p: Parser, hooks: Hooks)
    requires Good(p) && p.state.HeaderValue? && Room(p, 2)
    ensures var t := Bytewise(hooks)(p, '\n');
            t.exit.Next? && t.used == 1 && Run(Bytewise(hooks), p, "\r\n") == Ran(t.p.(nread := t.p.nread + 1), t.events, Next, 2)
  {
    var step := Bytewise(hooks);
    ValueDoes(p, '\n', hooks);
    ValueLfOf(step, p);
    ValueCr(p, hooks);
    var m := HttpLength.Blank(p, HeaderAlmostDone, 1);
    LineLf(m, hooks);
    ThenSilent(step, p, '\r', Ran(m, [Piece(Value, "")], Next, 1), '\n', LineOver(m));
    assert ['\r', '\n'] == "\r\n";
  }

  lemma EmptyLfOf(step: Stepper, p: Parser)
    requires Good(p) && p.state.HeaderValueStart? && Does(step, p, '\n', StepHeaderValueStart(Counted(p), '\n'))
    ensures step(p, '\n') == Ran(p.(state := HeaderFieldStart, index := 0, nread := p.nread + 1), [Piece(Value, "")], Next, 1)
  {
  }

  /** Behind the colon LF ends an empty value, which then cannot be folded. */
  lemma EmptyLf(p: Parser, hooks: Hooks)
    requires Good(p) && p.state.HeaderValueStart? && Room(p, 1)
    ensures Bytewise(hooks)(p, '\n') ==
            Ran(p.(state := HeaderFieldStart, index := 0, nread := p.nread + 1), [Piece(Value, "")], Next, 1)
  {
    FreeDoes(p, '\n', hooks);
    assert SwitchFree(Counted(p), '\n', hooks) == StepHeaderValueStart(Counted(p), '\n');
    EmptyLfOf(Bytewise(hooks), p);
  }

  lemma BlankLfOf(step: Stepper, p: Parser, q: Parser, t: Step)
    requires p.state.HeaderFieldStart? && q == To(p, HeadersAlmostDone) && t.mark.None? && t.flush.None?
    requires Does(step, p, '\n', t) && Does(step, q, '\n', t)
    ensures step(p, '\n') == step(q, '\n')
  {
  }

  lemma BlankLfStep(p: Parser, hooks: Hooks)
    ensures StepHeaderFieldStart(p, '\n', hooks) == StepHeadersAlmostDone(To(p, HeadersAlmostDone), '\n', hooks)
    ensures var t := StepHeadersAlmostDone(p, '\n', hooks); t.mark.None? && t.flush.None?
  {
  }

  /** Where a line begins, LF does what the LF of a blank line does. */
  lemma BlankLf(p: Parser, hooks: Hooks)
    requires Good(p) && p.state.HeaderFieldStart? && Room(p, 1)
    ensures Bytewise(hooks)(p, '\n') == Bytewise(hooks)(To(p, HeadersAlmostDone), '\n')
  {
    var q := To(p, HeadersAlmostDone);
    FieldStartDoes(p, '\n', hooks);
    HeadersEndDoes(q, '\n', hooks);
    BlankLfStep(Counted(p), hooks);
    BlankLfStep(Counted(q), hooks);
    assert To(Counted(p), HeadersAlmostDone) == Counted(q);
    BlankLfOf(Bytewise(hooks), p, q, StepHeadersAlmostDone(Counted(q), '\n', hooks));
  }

  lemma MinorLfStep(p: Parser, hooks: Hooks)
    requires p.state.ReqMinor?
    ensures OnLine(p.state) && SwitchLine(p, '\n', hooks) == Go(p, HeaderFieldStart)
  {
  }

  /** A request line may end in LF. */
  lemma MinorLf(p: Parser, hooks: Hooks)
    requires Good(p) && p.state.ReqMinor? && Room(p, 1)
    ensures Silent(Bytewise(hooks), p, '\n', At(p, HeaderFieldStart, 1))
  {
    MinorLfStep(Counted(p), hooks);
    GoByte(p, '\n', HeaderFieldStart, hooks);
  }

  // ------------------------------------------------------ lines without a colon

  lemma NameEndOf(step: Stepper, p: Parser, ch: char)
    requires Good(p) && p.state.HeaderField? && (ch == '\r' || ch == '\n') && Does(step, p, ch, StepHeaderField(Counted(p), ch))
    ensures step(p, ch) ==
            Ran(At(p, if ch == '\r' then HeaderAlmostDone else HeaderFieldStart, 1), [Piece(Field, "")], Next, 1)
    ensures Good(step(p, ch).p)
  {
  }

  /** A line without a colon is reported as a name and no value. */
  lemma ColonlessLine(p: Parser, name: string, ch: char, hooks: Hooks) returns (q: Parser)
    requires Good(p) && p.state.HeaderFieldStart? && name != "" && IsToken(name) && (ch == '\r' || ch == '\n') && Room(p, |name| + 1)
    ensures Run(Bytewise(hooks), p, name + [ch]) == Ran(q, Singles(Field, name) + [Piece(Field, "")], Next, |name| + 1)
    ensures q == p.(state := if ch == '\r' then HeaderAlmostDone else HeaderFieldStart, header := q.header, index := q.index,
                    nread := p.nread + |name| + 1)
  {
    var n := NameAll(p, name, hooks);
    FieldDoes(n, ch, hooks);
    NameEndOf(Bytewise(hooks), n, ch);
    q := Bytewise(hooks)(n, ch).p;
    EndOfData(Bytewise(hooks), p, Field, name, n, ch, q);
  }

  // ------------------------------------------------------------ folded values

  lemma FoldByteOf(step: Stepper, p: Parser, ch: char, hooks: Hooks)
    requires Good(p) && p.state.HeaderValueLws? && HttpHeaders.Blank(ch)
    requires Does(step, p, ch, StepHeaderValueLws(Counted(p), ch, hooks))
    ensures Silent(step, p, ch, At(p, HeaderValueStart, 1))
  {
  }

  lemma FoldByte(p: Parser, ch: char, hooks: Hooks)
    requires Good(p) && p.state.HeaderValueLws? && HttpHeaders.Blank(ch) && Room(p, 1)
    ensures Silent(Bytewise(hooks), p, ch, At(p, HeaderValueStart, 1))
  {
    FreeDoes(p, ch, hooks);
    assert SwitchFree(Counted(p), ch, hooks) == StepHeaderValueLws(Counted(p), ch, hooks);
    FoldByteOf(Bytewise(hooks), p, ch, hooks);
  }

  /** A line that begins with a blank goes on with the value of the header
      before it. */
  function FoldBytes(blank: char, pad: string, text: string): string { [blank] + (pad + (text + "\r\n")) }

  /** A header line that has ended, and whose header is none of those that mean
      something. */
  predicate Ended(p: Parser) { Good(p) && p.state.HeaderValueLws? && p.header.General? }

  lemma FoldRun(p: Parser, blank: char, pad: string, text: string, hooks: Hooks) returns (q: Parser)
    requires Ended(p) && HttpHeaders.Blank(blank) && (forall c <- pad :: HttpHeaders.Blank(c))
    requires text != "" && ValueText(General, text) && Room(p, |FoldBytes(blank, pad, text)|)
    ensures Run(Bytewise(hooks), p, FoldBytes(blank, pad, text)) ==
            Ran(q, Singles(Value, text) + [Piece(Value, "")], Next, |FoldBytes(blank, pad, text)|)
    ensures q == p.(index := q.index, nread := p.nread + |FoldBytes(blank, pad, text)|) && Ended(q)
  {
    var step := Bytewise(hooks);
    var a := At(p, HeaderValueStart, 1);
    FoldByte(p, blank, hooks);
    PadRun(a, pad, hooks);
    var b := a.(nread := a.nread + |pad|);
    var n := TextRun(b, text, hooks);
    LineEnd(b, text, n, hooks);
    q := n.(state := HeaderValueLws, nread := n.nread + 2, flags := FlagsAtEnd(n.header, n.flags));
    AfterSilent(step, a, pad, b, text + "\r\n");
    SilentOne(step, p, blank, a);
    AfterSilent(step, p, [blank], a, pad + (text + "\r\n"));
  }

  /** A header and its continuation: the value reported is the two pieces of
      text put together, without the blanks between them. */
  lemma FoldedValue(name: string, value: string, text: string)
    requires name != "" && text != ""
    ensures Norm(Singles(Field, name) + [Piece(Field, "")] + (Singles(Value, value) + [Piece(Value, "")]) +
                 (Singles(Value, text) + [Piece(Value, "")])) ==
            Norm([Piece(Field, name), Piece(Value, value + text)])
  {
    var line := Singles(Field, name) + [Piece(Field, "")] + (Singles(Value, value) + [Piece(Value, "")]);
    var more := Singles(Value, text) + [Piece(Value, "")];
    LineNorm(name, value);
    SinglesNorm(Value, text);
    NormBoth(line, more, [Piece(Field, name), Piece(Value, value)], [Piece(Value, text)]);
    var t := [Piece(Field, name)];
    assert [Piece(Field, name), Piece(Value, value)] + [Piece(Value, text)] == t + [Piece(Value, value), Piece(Value, text)];
    PushAllAppend([], t, [Piece(Value, value), Piece(Value, text)]);
    PushAllAppend([], t, [Piece(Value, value + text)]);
    assert t + [Piece(Value, value + text)] == [Piece(Field, name), Piece(Value, value + text)];
    PushTwice(PushAll([], t), Value, value, text);
    PushOne(PushAll([], t), Piece(Value, value + text));
    PushBoth(PushAll([], t), Piece(Value, value), Piece(Value, text));
  }

  lemma PushOne(t: seq<Event>, e: Event)
    ensures PushAll(t, [e]) == Push(t, e)
  {
    assert [e][1..] == [];
  }

  lemma PushBoth(t: seq<Event>, d: Event, e: Event)
    ensures PushAll(t, [d, e]) == Push(Push(t, d), e)
  {
    assert [d, e][1..] == [e];
    PushOne(Push(t, d), e);
  }

  // ------------------------------------------------------------- line ends before a message

  predicate LineEnds(s: string) { forall c <- s :: c == '\r' || c == '\n' }

  /** Where a message may begin, or none any more. */
  predicate Outside(s: State) { s.StartReq? || s.StartReqOrRes? || s.Dead? }

  lemma OutsideStep(p: Parser, ch: char, hooks: Hooks)
    requires Outside(p.state) && (ch == '\r' || ch == '\n')
    ensures Free(p.state) && SwitchFree(p, ch, hooks) == Plain(p)
  {
  }

  lemma OutsideByteOf(step: Stepper, p: Parser, ch: char)
    requires Good(p) && Outside(p.state) && Does(step, p, ch, Plain(Counted(p)))
    ensures Silent(step, p, ch, At(p, p.state, 1))
  {
  }

  lemma OutsideByte(p: Parser, ch: char, hooks: Hooks)
    requires Good(p) && Outside(p.state) && (ch == '\r' || ch == '\n') && Room(p, 1)
    ensures Silent(Bytewise(hooks), p, ch, At(p, p.state, 1))
  {
    OutsideStep(Counted(p), ch, hooks);
    FreeDoes(p, ch, hooks);
    OutsideByteOf(Bytewise(hooks), p, ch);
  }

  /** Line ends before a request, or behind the last message, are passed over. */
  lemma {:induction false} LineEndsRun(p: Parser, s: string, hooks: Hooks)
    requires Good(p) && Outside(p.state) && LineEnds(s) && Room(p, |s|)
    ensures SilentRun(Bytewise(hooks), p, s, At(p, p.state, |s|))
    decreases |s|
  {
    if s != "" {
      ValueGlue("", s);
      OutsideByte(p, s[0], hooks);
      LineEndsRun(At(p, p.state, 1), s[1..], hooks);
      SilentCons(Bytewise(hooks), p, s[0], At(p, p.state, 1), s[1..], At(p, p.state, |s|));
    }
  }

  lemma BeforeResponseOf(step: Stepper, p: Parser, ch: char, hooks: Hooks)
    requires Good(p) && p.state.StartRes? && (ch == '\r' || ch == '\n') && Calm(hooks)
    requires Does(step, p, ch, StepStartRes(Counted(p), ch, hooks))
    ensures step(p, ch) == Ran(p.(flags := NO_FLAGS, length := ULLONG_MAX, nread := p.nread + 1), [Note(MessageBegin)], Next, 1)
  {
  }

  /** But before a response each of them is reported as the beginning of a message. */
  lemma BeforeResponse(p: Parser, ch: char, hooks: Hooks)
    requires Good(p) && p.state.StartRes? && (ch == '\r' || ch == '\n') && Calm(hooks) && Room(p, 1)
    ensures Bytewise(hooks)(p, ch) ==
            Ran(p.(flags := NO_FLAGS, length := ULLONG_MAX, nread := p.nread + 1), [Note(MessageBegin)], Next, 1)
  {
    FreeDoes(p, ch, hooks);
    assert SwitchFree(Counted(p), ch, hooks) == StepStartRes(Counted(p), ch, hooks);
    BeforeResponseOf(Bytewise(hooks), p, ch, hooks);
  }

  // ------------------------------------------------------------ spaces in a line

  predicate BeforeWord(s: State) { s.ReqHttpStart? || s.ResFirstStatusCode? }

  lemma SpaceStep(p: Parser, hooks: Hooks)
    requires BeforeWord(p.state)
    ensures OnLine(p.state) && SwitchLine(p, ' ', hooks) == Go(p, p.state)
  {
  }

  /** Any number of spaces may stand before the protocol of a request and the
      code of a response. */
  lemma {:induction false} SpacesRun(p: Parser, n: nat, hooks: Hooks)
    requires Good(p) && BeforeWord(p.state) && Room(p, n)
    ensures SilentRun(Bytewise(hooks), p, seq(n, _ => ' '), At(p, p.state, n))
    decreases n
  {
    if n > 0 {
      SpaceStep(Counted(p), hooks);
      GoByte(p, ' ', p.state, hooks);
      SpacesRun(At(p, p.state, 1), n - 1, hooks);
      SilentCons(Bytewise(hooks), p, ' ', At(p, p.state, 1), seq(n - 1, _ => ' '), At(p, p.state, n));
      OneSpace(n - 1);
    }
  }

  lemma TargetSpaceOf(step: Stepper, p: Parser)
    requires Good(p) && p.state.ReqSpacesBeforeUrl? && Does(step, p, ' ', StepUrl(Counted(p), ' '))
    ensures Silent(step, p, ' ', At(p, p.state, 1))
  {
  }

  /** And before the target. */
  lemma {:induction false} TargetSpaces(p: Parser, n: nat, hooks: Hooks)
    requires Good(p) && p.state.ReqSpacesBeforeUrl? && Room(p, n)
    ensures SilentRun(Bytewise(hooks), p, seq(n, _ => ' '), At(p, p.state, n))
    decreases n
  {
    if n > 0 {
      HttpRequest.UrlDoes(p, ' ', hooks);
      TargetSpaceOf(Bytewise(hooks), p);
      TargetSpaces(At(p, p.state, 1), n - 1, hooks);
      SilentCons(Bytewise(hooks), p, ' ', At(p, p.state, 1), seq(n - 1, _ => ' '), At(p, p.state, n));
      OneSpace(n - 1);
    }
  }

  lemma OneSpace(n: nat)
    ensures [' '] + seq(n, _ => ' ') == seq(n + 1, _ => ' ')
  {
  }

  lemma PhraseLfStep(p: Parser, hooks: Hooks)
    requires p.state.ResStatusCode? || p.state.ResStatus?
    ensures OnLine(p.state) && SwitchLine(p, '\n', hooks) == Go(p, HeaderFieldStart)
  {
  }

  /** A status line that ends in LF alone is not reported as complete. */
  lemma PhraseLf(p: Parser, hooks: Hooks)
    requires Good(p) && (p.state.ResStatusCode? || p.state.ResStatus?) && Room(p, 1)
    ensures Silent(Bytewise(hooks), p, '\n', At(p, HeaderFieldStart, 1))
  {
    PhraseLfStep(Counted(p), hooks);
    GoByte(p, '\n', HeaderFieldStart, hooks);
  }

  // ------------------------------------------------------ requests without a version

  lemma TargetEndOf(step: Stepper, p: Parser, ch: char)
    requires Good(p) && HttpRequest.UrlEnd(p.state) && (ch == '\r' || ch == '\n') && Does(step, p, ch, StepUrl(Counted(p), ch))
    ensures step(p, ch) ==
            Ran(p.(major := 0, minor := 9, nread := p.nread + 1, state := if ch == '\r' then ReqLineAlmostDone else HeaderFieldStart),
                [Piece(Url, "")], Next, 1)
    ensures Good(step(p, ch).p)
  {
  }

  /** A target with the end of the line behind it: the version is taken for 0.9. */
  lemma ShortLine(p: Parser, s: string, ch: char, hooks: Hooks)
    requires Good(p) && p.state.ReqSpacesBeforeUrl? && HttpRequest.Target(p.verb, s) && Room(p, |s| + 1) && (ch == '\r' || ch == '\n')
    ensures Run(Bytewise(hooks), p, s + [ch]) ==
            Ran(p.(major := 0, minor := 9, nread := p.nread + |s| + 1, state := if ch == '\r' then ReqLineAlmostDone else HeaderFieldStart),
                Singles(Url, s) + [Piece(Url, "")], Next, |s| + 1)
  {
    HttpRequest.UrlRest(p, s, hooks);
    var n := HttpRequest.Walked(p, s);
    HttpRequest.UrlDoes(n, ch, hooks);
    TargetEndOf(Bytewise(hooks), n, ch);
    EndOfData(Bytewise(hooks), p, Url, s, n, ch, Bytewise(hooks)(n, ch).p);
  }
}
