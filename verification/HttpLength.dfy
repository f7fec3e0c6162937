/** Bodies framed by Content-Length, from the header value to the last byte. */
module HttpLength {
  import opened HttpTypes
  import opened HttpStep
  import opened HttpRun
  import opened HttpParser
  import opened HttpFraming
  import opened HttpSplit

  predicate Digits(s: string) { forall c <- s :: IsNum(c) && IsHex(c) }

  /** Some bytes that hand out the data `text` of one kind and change the
      parser. */
  ghost predicate DataRun(step: Stepper, p: Parser, k: Data, s: string, q: Parser) {
    Run(step, p, s) == Ran(q, Singles(k, s), Next, |s|) && Good(q)
  }

  lemma DataCons(step: Stepper, p: Parser, k: Data, ch: char, q: Parser, s: string, r: Parser)
    requires step(p, ch) == Ran(q, [Piece(k, [ch])], Next, 1) && DataRun(step, q, k, s, r)
    ensures DataRun(step, p, k, [ch] + s, r)
  {
    assert ([ch] + s)[1..] == s;
    assert [Piece(k, [ch])] + Singles(k, s) == Singles(k, [ch] + s);
  }

  lemma LengthByte(p: Parser, ch: char, hooks: Hooks)
    requires Good(p) && p.state.HeaderValue? && p.header.ContentLength? && IsNum(ch) && IsHex(ch) && Room(p, 1)
    requires p.length * 10 + HexDigit(ch) < ULLONG_MAX
    ensures var q := Sized(p, p.length * 10 + HexDigit(ch), 1);
            Bytewise(hooks)(p, ch) == Ran(q, [Piece(Value, [ch])], Next, 1) && Good(q)
  {
    GrowLengthExact(Counted(p), 10, HexDigit(ch));
    assert Advance(p, ch, hooks) == StepHeaderValue(Counted(p), ch);
  }

  lemma FirstLengthByte(p: Parser, ch: char, hooks: Hooks)
    requires Good(p) && p.state.HeaderValueStart? && p.header.ContentLength? && IsNum(ch) && IsHex(ch) && Room(p, 1)
    ensures var q := Sized(p, HexDigit(ch), 1).(state := HeaderValue, index := 0);
            Bytewise(hooks)(p, ch) == Ran(q, [Piece(Value, [ch])], Next, 1) && Good(q)
  {
    assert Advance(p, ch, hooks) == StepHeaderValueStart(Counted(p), ch);
  }

  lemma DigitsGlue(v: nat, s: string)
    requires s != "" && Digits(s)
    ensures s == [s[0]] + s[1..] && IsNum(s[0]) && Digits(s[1..])
    ensures var w := v * 10 + HexDigit(s[0]); w <= Numeral(w, 10, s[1..]) == Numeral(v, 10, s)
  {
    NumeralGlue(v, 10, s);
    assert s[0] in s && forall c <- s[1..] :: c in s;
  }

  lemma {:induction false} RunLength(p: Parser, s: string, hooks: Hooks)
    requires Good(p) && p.state.HeaderValue? && p.header.ContentLength? && Digits(s) && Room(p, |s|)
    requires Numeral(p.length, 10, s) < ULLONG_MAX
    ensures DataRun(Bytewise(hooks), p, Value, s, Sized(p, Numeral(p.length, 10, s), |s|))
    decreases |s|
  {
    if s != "" {
      DigitsGlue(p.length, s);
      var q := Sized(p, p.length * 10 + HexDigit(s[0]), 1);
      LengthByte(p, s[0], hooks);
      RunLength(q, s[1..], hooks);
      DataCons(Bytewise(hooks), p, Value, s[0], q, s[1..], Sized(q, Numeral(q.length, 10, s[1..]), |s| - 1));
    }
  }

  /** The parser once a Content-Length value has been read. */
  function Lengthy(p: Parser, n: nat, size: nat): Parser {
    Sized(p, n, size).(state := HeaderValue, index := 0)
  }

  lemma RunLengthValue(p: Parser, digits: string, hooks: Hooks)
    requires Good(p) && p.state.HeaderValueStart? && p.header.ContentLength?
    requires digits != "" && Digits(digits) && Room(p, |digits|) && Numeral(0, 10, digits) < ULLONG_MAX
    ensures DataRun(Bytewise(hooks), p, Value, digits, Lengthy(p, Numeral(0, 10, digits), |digits|))
  {
    assert digits[0] in digits && forall c <- digits[1..] :: c in digits;
    var q := Sized(p, HexDigit(digits[0]), 1).(state := HeaderValue, index := 0);
    FirstLengthByte(p, digits[0], hooks);
    RunLength(q, digits[1..], hooks);
    assert digits == [digits[0]] + digits[1..];
    DataCons(Bytewise(hooks), p, Value, digits[0], q, digits[1..], Lengthy(p, Numeral(0, 10, digits), |digits|));
  }

  // ------------------------------------------------- the end of the headers

  /** The parser at the blank line, with `n` more bytes counted. */
  function Blank(p: Parser, s: State, n: nat): Parser { p.(state := s, nread := p.nread + n) }

  lemma ValueCr(p: Parser, hooks: Hooks)
    requires Good(p) && p.state.HeaderValue? && Room(p, 1)
    ensures Bytewise(hooks)(p, '\r') == Ran(Blank(p, HeaderAlmostDone, 1), [Piece(Value, "")], Next, 1)
    ensures Good(Blank(p, HeaderAlmostDone, 1))
  {
    assert Advance(p, '\r', hooks) == StepHeaderValue(Counted(p), '\r');
  }

  lemma ValueLf(p: Parser, hooks: Hooks)
    requires Good(p) && p.state.HeaderAlmostDone? && p.header.ContentLength? && Room(p, 1)
    ensures Silent(Bytewise(hooks), p, '\n', Blank(p, HeaderValueLws, 1))
  {
    assert Advance(p, '\n', hooks) == StepHeaderAlmostDone(Counted(p), '\n');
  }

  lemma BlankCr(p: Parser, hooks: Hooks)
    requires Good(p) && p.state.HeaderValueLws? && Room(p, 1)
    ensures Silent(Bytewise(hooks), p, '\r', Blank(p, HeadersAlmostDone, 1))
  {
    assert Advance(p, '\r', hooks) == StepHeaderValueLws(Counted(p), '\r', hooks);
  }

  /** The parser that the headers-complete callback sees, back in the switch. */
  function Done(p: Parser): Parser { p.(state := HeadersDone, nread := 0, upgrade := false) }

  /** A message that is framed by its length alone. */
  predicate ByLength(p: Parser) {
    !p.flags.trailing && !p.flags.upgrade && !p.flags.skipBody && !p.flags.chunked && p.verb != CONNECT &&
    p.length < ULLONG_MAX
  }

  /** The callback leaves the body alone. */
  ghost predicate Obliging(hooks: Hooks) { forall q: Parser :: hooks(HeadersComplete, q).GoOn? }

  /** After the blank line: into the body, or at the end of an empty one. */
  function AfterHeaders(p: Parser, hooks: Hooks): Ran {
    if p.length == 0 then
      var t := Complete(Done(p), hooks);
      Ran(t.p, [Note(HeadersComplete), Note(MessageComplete)], t.exit, 1)
    else Ran(To(Done(p), BodyIdentity), [Note(HeadersComplete)], Next, 1)
  }

  lemma BlankLf(p: Parser, hooks: Hooks)
    requires Good(p) && p.state.HeadersAlmostDone? && Room(p, 1) && ByLength(p) && Obliging(hooks)
    ensures Bytewise(hooks)(p, '\n') == AfterHeaders(p, hooks)
    ensures p.length > 0 ==> Good(To(Done(p), BodyIdentity))
  {
    var q := Counted(p).(state := HeadersDone, upgrade := false);
    assert hooks(HeadersComplete, q).GoOn?;
    var s := StepHeadersDone(q, '\n', hooks);
    assert Advance(p, '\n', hooks) == Told(HeadersComplete, s);
    assert q.(nread := 0) == Done(p);
    NotesOfOne(HeadersComplete, s);
  }

  lemma NotesOfOne(n: Notify, s: Step)
    ensures s.tells == [] ==> Notes([n] + s.tells) == [Note(n)]
    ensures forall m :: s.tells == [m] ==> Notes([n] + s.tells) == [Note(n), Note(m)]
  {
  }

  lemma BlankRun(p: Parser, hooks: Hooks)
    requires Good(p) && p.state.HeaderAlmostDone? && p.header.ContentLength? && Room(p, 3) && ByLength(p) && Obliging(hooks)
    ensures var a := AfterHeaders(Blank(p, HeadersAlmostDone, 2), hooks);
            Run(Bytewise(hooks), p, "\n\r\n") == Ran(a.p, a.events, a.exit, 3)
  {
    var c, d := Blank(p, HeaderValueLws, 1), Blank(p, HeadersAlmostDone, 2);
    ValueLf(p, hooks);
    BlankCr(c, hooks);
    BlankLf(d, hooks);
    ThreeBytes(Bytewise(hooks), p, '\n', c, '\r', d, '\n', AfterHeaders(d, hooks));
    assert ['\n', '\r', '\n'] == "\n\r\n";
  }

  /** The blank line after the value. */
  lemma HeadersEnd(p: Parser, hooks: Hooks)
    requires Good(p) && p.state.HeaderValue? && p.header.ContentLength? && Room(p, 4) && ByLength(p) && Obliging(hooks)
    ensures var a := AfterHeaders(Blank(p, HeadersAlmostDone, 3), hooks);
            Run(Bytewise(hooks), p, "\r\n\r\n") == Ran(a.p, [Piece(Value, "")] + a.events, a.exit, 4)
  {
    ValueCr(p, hooks);
    BlankRun(Blank(p, HeaderAlmostDone, 1), hooks);
    assert "\r\n\r\n"[1..] == "\n\r\n";
  }

  /** The parser when the blank line is in. */
  function Headed(p: Parser, n: nat, size: nat): Parser {
    Blank(Lengthy(p, n, size), HeadersAlmostDone, 3)
  }

  /** A length read and the headers ended: `r` runs from there. */
  lemma RunHead(p: Parser, digits: string, hooks: Hooks)
    requires Good(p) && p.state.HeaderValueStart? && p.header.ContentLength? && ByLength(p.(length := 0)) && Obliging(hooks)
    requires digits != "" && Digits(digits) && Room(p, |digits| + 4) && Numeral(0, 10, digits) < ULLONG_MAX
    ensures var a := AfterHeaders(Headed(p, Numeral(0, 10, digits), |digits|), hooks);
            Run(Bytewise(hooks), p, digits + "\r\n\r\n") ==
            Ran(a.p, Singles(Value, digits) + ([Piece(Value, "")] + a.events), a.exit, |digits| + 4)
  {
    RunLengthValue(p, digits, hooks);
    var q := Lengthy(p, Numeral(0, 10, digits), |digits|);
    HeadersEnd(q, hooks);
    RunAppend(Bytewise(hooks), p, digits, "\r\n\r\n");
  }

  /** The callbacks of a message body framed by its length. */
  function LengthEvents(digits: string, body: string): seq<Event> {
    [Piece(Value, digits), Note(HeadersComplete)] + (if body == "" then [] else [Piece(Body, body)]) + [Note(MessageComplete)]
  }

  lemma OnePush(e: Event)
    ensures Norm([e]) == [e] == Push([], e)
  {
    assert Push([], e) == [e];
    assert [e][1..] == [] && PushAll([e], []) == [e];
  }

  /** Single bytes of one kind, merged; a last empty piece adds nothing. */
  lemma SinglesNorm(k: Data, text: string)
    requires text != ""
    ensures Norm(Singles(k, text)) == [Piece(k, text)] == Norm([Piece(k, text)])
    ensures Norm(Singles(k, text) + [Piece(k, "")]) == [Piece(k, text)]
  {
    PushSingles([], k, text);
    OnePush(Piece(k, text));
    NormAppend(Singles(k, text), [Piece(k, "")]);
    LastPiece([], k, text, "", []);
    assert text + "" == text && [Piece(k, "")] + [] == [Piece(k, "")];
    assert [Piece(k, text)] + [] == [Piece(k, text)];
  }

  lemma LengthNorm(digits: string, body: string, tail: seq<Event>)
    requires digits != ""
    requires tail == (if body == "" then [Note(HeadersComplete), Note(MessageComplete)]
                      else [Note(HeadersComplete)] + (Singles(Body, body) + [Note(MessageComplete)]))
    ensures Norm(Singles(Value, digits) + ([Piece(Value, "")] + tail)) == Norm(LengthEvents(digits, body))
  {
    var value := [Piece(Value, digits)];
    SinglesNorm(Value, digits);
    Associate(Singles(Value, digits), [Piece(Value, "")], tail);
    if body == "" {
      NormBoth(Singles(Value, digits) + [Piece(Value, "")], tail, value, tail);
      assert LengthEvents(digits, body) == value + tail;
    } else {
      SinglesNorm(Body, body);
      var done, ends := [Note(HeadersComplete)], [Note(MessageComplete)];
      NormBoth(Singles(Body, body), ends, [Piece(Body, body)], ends);
      NormBoth(done, Singles(Body, body) + ends, done, [Piece(Body, body)] + ends);
      NormBoth(Singles(Value, digits) + [Piece(Value, "")], tail, value, done + ([Piece(Body, body)] + ends));
      assert LengthEvents(digits, body) == value + (done + ([Piece(Body, body)] + ends));
    }
  }

  /** With Content-Length N the message is over after exactly N more bytes, all
      of them handed out, whatever they are. */
  lemma LengthRun(p: Parser, digits: string, body: string, hooks: Hooks)
    requires Good(p) && p.state.HeaderValueStart? && p.header.ContentLength? && ByLength(p.(length := 0)) && Obliging(hooks)
    requires digits != "" && Digits(digits) && Room(p, |digits| + 4) && Numeral(0, 10, digits) == |body| < ULLONG_MAX
    ensures var r := Run(Bytewise(hooks), p, digits + "\r\n\r\n" + body);
            var h := Done(Headed(p, |body|, |digits|));
            var t := Complete(if body == "" then h else To(Shorter(h, |body|), MessageDone), hooks);
            r.p == t.p && r.exit == t.exit && r.used == |digits| + 4 + |body| &&
            Norm(r.events) == Norm(LengthEvents(digits, body))
  {
    var head := digits + "\r\n\r\n";
    RunHead(p, digits, hooks);
    var q := Headed(p, |body|, |digits|);
    if body == "" {
      assert head + body == head;
      LengthNorm(digits, body, AfterHeaders(q, hooks).events);
    } else {
      var b := To(Done(q), BodyIdentity);
      RunWholeBody(b, body, hooks);
      RunAppend(Bytewise(hooks), p, head, body);
      Regroup(Singles(Value, digits), [Piece(Value, "")], [Note(HeadersComplete)], Singles(Body, body) + [Note(MessageComplete)]);
      LengthNorm(digits, body, [Note(HeadersComplete)] + (Singles(Body, body) + [Note(MessageComplete)]));
    }
  }

  lemma RunWholeBody(p: Parser, s: string, hooks: Hooks)
    requires p.state.BodyIdentity? && p.errno.Ok? && Bounded(p) && 0 < p.length == |s| < ULLONG_MAX
    ensures var t := Complete(To(Shorter(p, |s|), MessageDone), hooks);
            Run(Bytewise(hooks), p, s) == Ran(t.p, Singles(Body, s) + [Note(MessageComplete)], t.exit, |s|)
  {
    GoodBody(p);
    RunIdentity(p, s, hooks);
    assert Notes([MessageComplete]) == [Note(MessageComplete)];
  }

  lemma GoodBody(p: Parser)
    requires p.state.BodyIdentity? && p.errno.Ok? && Bounded(p) && 0 < p.length < ULLONG_MAX
    ensures Good(p)
  {
  }

  lemma Regroup<T>(a: seq<T>, b: seq<T>, c: seq<T>, d: seq<T>)
    ensures (a + (b + c)) + d == a + (b + (c + d))
  {
  }

  /** Whatever calls bring it in: the `on_body` bytes are the N bytes. */
  lemma LengthBody(p: Parser, digits: string, body: string, hooks: Hooks, n: nat, q: Parser, es: seq<Event>, lost: seq<Event>)
    requires Good(p) && p.state.HeaderValueStart? && p.header.ContentLength? && ByLength(p.(length := 0)) && Obliging(hooks)
    requires digits != "" && Digits(digits) && Room(p, |digits| + 4) && Numeral(0, 10, digits) == |body| < ULLONG_MAX
    requires Ended(Run(Bytewise(hooks), p, digits + "\r\n\r\n" + body), n, q, es, lost)
    ensures n == |digits| + 4 + |body| && BodyBytes(es) == body && Norm(es) == Norm(LengthEvents(digits, body))
  {
    LengthRun(p, digits, body, hooks);
    var h := Done(Headed(p, |body|, |digits|));
    CompleteEnds(if body == "" then h else To(Shorter(h, |body|), MessageDone), hooks);
    assert es + [] == es;
    BodyBytesNorm(es);
    BodyBytesNorm(LengthEvents(digits, body));
    LengthBytes(digits, body);
  }

  lemma OneBody(e: Event)
    ensures BodyBytes([e]) == BodyText(e)
  {
    assert [e][..0] == [] && "" + BodyText(e) == BodyText(e);
  }

  lemma LengthBytes(digits: string, body: string)
    ensures BodyBytes(LengthEvents(digits, body)) == body
  {
    var head, rest := [Piece(Value, digits)] + [Note(HeadersComplete)], if body == "" then [] else [Piece(Body, body)];
    OneBody(Piece(Value, digits));
    OneBody(Note(HeadersComplete));
    OneBody(Piece(Body, body));
    BodyBytesAppend([Piece(Value, digits)], [Note(HeadersComplete)]);
    BodyBytesAppend(head, rest);
    BodyBytesSnoc(head + rest, Note(MessageComplete));
    assert LengthEvents(digits, body) == head + rest + [Note(MessageComplete)];
    assert "" + body + "" == body;
  }
}
