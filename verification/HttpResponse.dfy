/** The line of a response: the version, the status code and the phrase. */
module HttpResponse {
  import opened Common
  import opened HttpTypes
  import opened HttpStep
  import opened HttpRun
  import opened HttpFraming
  import opened HttpLine

  // -------------------------------------------------------- the first letter

  function Begun(p: Parser): Parser {
    p.(flags := NO_FLAGS, length := ULLONG_MAX, state := ResH, nread := p.nread + 1)
  }

  lemma BeginsWithH(p: Parser, hooks: Hooks)
    requires Good(p) && p.state.StartRes? && Room(p, 1) && Calm(hooks)
    ensures Bytewise(hooks)(p, 'H') == Ran(Begun(p), [Note(MessageBegin)], Next, 1) && Good(Begun(p))
  {
    assert hooks(MessageBegin, Begun(p)).GoOn?;
    assert Advance(p, 'H', hooks) == Step(Begun(p), None, None, [MessageBegin], Next);
  }

  // -------------------------------------------------------------- the phrase

  predicate PhraseText(s: string) { forall c <- s :: c != '\r' && c != '\n' }

  /** Steps from the version to the end of the line. */
  lemma StatusSteps(p: Parser, hooks: Hooks)
    ensures p.state.ResMinor? ==> SwitchLine(p, ' ', hooks) == Go(p, ResFirstStatusCode)
    ensures p.state.ResStatusCode? ==> SwitchLine(p, ' ', hooks) == Go(p, ResStatus)
    ensures p.state.ResStatusCode? || p.state.ResStatus? ==> SwitchLine(p, '\r', hooks) == Go(p, ResLineAlmostDone)
  {
  }

  lemma SpaceByte(p: Parser, hooks: Hooks)
    requires Good(p) && (p.state.ResMinor? || p.state.ResStatusCode?) && Room(p, 1)
    ensures Silent(Bytewise(hooks), p, ' ', At(p, if p.state.ResMinor? then ResFirstStatusCode else ResStatus, 1))
  {
    StatusSteps(Counted(p), hooks);
    GoByte(p, ' ', if p.state.ResMinor? then ResFirstStatusCode else ResStatus, hooks);
  }

  lemma CrByte(p: Parser, hooks: Hooks)
    requires Good(p) && (p.state.ResStatus? || p.state.ResStatusCode?) && Room(p, 1)
    ensures Silent(Bytewise(hooks), p, '\r', At(p, ResLineAlmostDone, 1))
  {
    StatusSteps(Counted(p), hooks);
    GoByte(p, '\r', ResLineAlmostDone, hooks);
  }

  lemma PhraseStep(p: Parser, ch: char, hooks: Hooks)
    requires p.state.ResStatus? && ch != '\r' && ch != '\n'
    ensures SwitchLine(p, ch, hooks) == Go(p, ResStatus)
  {
  }

  lemma PhraseByte(p: Parser, ch: char, hooks: Hooks)
    requires Good(p) && p.state.ResStatus? && ch != '\r' && ch != '\n' && Room(p, 1)
    ensures Silent(Bytewise(hooks), p, ch, At(p, ResStatus, 1))
  {
    PhraseStep(Counted(p), ch, hooks);
    GoByte(p, ch, ResStatus, hooks);
  }

  lemma PhraseGlue(p: Parser, s: string)
    requires s != "" && PhraseText(s)
    ensures s[0] != '\r' && s[0] != '\n' && PhraseText(s[1..]) && [s[0]] + s[1..] == s
    ensures At(At(p, ResStatus, 1), ResStatus, |s[1..]|) == At(p, ResStatus, |s|)
  {
    assert s[0] in s && forall c <- s[1..] :: c in s;
  }

  lemma {:induction false} PhraseRun(p: Parser, s: string, hooks: Hooks)
    requires Good(p) && p.state.ResStatus? && PhraseText(s) && Room(p, |s|)
    ensures SilentRun(Bytewise(hooks), p, s, At(p, ResStatus, |s|))
    decreases |s|
  {
    if s != "" {
      PhraseGlue(p, s);
      PhraseByte(p, s[0], hooks);
      PhraseRun(At(p, ResStatus, 1), s[1..], hooks);
      SilentCons(Bytewise(hooks), p, s[0], At(p, ResStatus, 1), s[1..], At(p, ResStatus, |s|));
    }
  }

  function PhraseBytes(phrase: Option<string>): string {
    match phrase case None => "" case Some(s) => " " + s
  }

  /** Where the phrase leaves off, if there is one. */
  function AfterPhrase(phrase: Option<string>): State { if phrase.Some? then ResStatus else ResStatusCode }

  lemma SomePhraseRun(p: Parser, phrase: Option<string>, hooks: Hooks)
    requires Good(p) && p.state.ResStatusCode? && (phrase.Some? ==> PhraseText(phrase.value)) && Room(p, |PhraseBytes(phrase)|)
    ensures SilentRun(Bytewise(hooks), p, PhraseBytes(phrase), At(p, AfterPhrase(phrase), |PhraseBytes(phrase)|))
  {
    match phrase {
      case None =>
      case Some(s) =>
        var q := At(p, ResStatus, 1);
        SpaceByte(p, hooks);
        PhraseRun(q, s, hooks);
        SilentCons(Bytewise(hooks), p, ' ', q, s, At(q, ResStatus, |s|));
        assert [' '] == " " && At(q, ResStatus, |s|) == At(p, ResStatus, 1 + |s|);
    }
  }

  // ---------------------------------------------------------------- the line

  lemma LfStep(p: Parser, hooks: Hooks)
    requires p.state.ResLineAlmostDone? && Calm(hooks)
    ensures SwitchLine(p, '\n', hooks) == Step(To(p, HeaderFieldStart), None, None, [StatusComplete], Next)
  {
    assert hooks(StatusComplete, To(p, HeaderFieldStart)).GoOn?;
  }

  lemma LfByteOf(step: Stepper, p: Parser)
    requires Good(p) && p.state.ResLineAlmostDone? && Room(p, 1)
    requires Does(step, p, '\n', Step(To(Counted(p), HeaderFieldStart), None, None, [StatusComplete], Next))
    ensures step(p, '\n') == Ran(At(p, HeaderFieldStart, 1), [Note(StatusComplete)], Next, 1) && Good(At(p, HeaderFieldStart, 1))
  {
  }

  lemma LfByte(p: Parser, hooks: Hooks)
    requires Good(p) && p.state.ResLineAlmostDone? && Room(p, 1) && Calm(hooks)
    ensures Bytewise(hooks)(p, '\n') == Ran(At(p, HeaderFieldStart, 1), [Note(StatusComplete)], Next, 1)
    ensures Good(At(p, HeaderFieldStart, 1))
  {
    LineDoes(p, '\n', hooks);
    LfStep(Counted(p), hooks);
    LfByteOf(Bytewise(hooks), p);
  }

  /** From behind the "H" to the end of the phrase. */
  function Inner(s: StartLine): string
    requires s.StatusLine?
  {
    VersionBytes(s.major, s.minor) + (" " + (s.code + PhraseBytes(s.phrase)))
  }

  function StartBytes(s: StartLine): string
    requires s.StatusLine?
  {
    "H" + (Inner(s) + "\r\n")
  }

  predicate StartText(s: StartLine)
    requires s.StatusLine?
  {
    Number(s.major) && Number(s.minor) && Number(s.code) && (s.phrase.Some? ==> PhraseText(s.phrase.value))
  }

  /** The parser within the line, `n` bytes on. */
  function Within(p: Parser, s: StartLine, t: State, n: nat): Parser
    requires s.StatusLine? && StartText(s)
  {
    p.(state := t, major := Numeral(0, 10, s.major), minor := Numeral(0, 10, s.minor), status := Numeral(0, 10, s.code),
       nread := p.nread + n)
  }

  lemma InnerRun(p: Parser, s: StartLine, hooks: Hooks)
    requires Good(p) && p.state.ResH? && s.StatusLine? && StartText(s) && Room(p, |Inner(s)|)
    ensures SilentRun(Bytewise(hooks), p, Inner(s), Within(p, s, AfterPhrase(s.phrase), |Inner(s)|))
  {
    var a := Versioned(p, Numeral(0, 10, s.major), Numeral(0, 10, s.minor), |VersionBytes(s.major, s.minor)|);
    var b := At(a, ResFirstStatusCode, 1);
    var c := Valued(To(b, Entered(b.state)), Numeral(0, 10, s.code), |s.code|);
    VersionRun(p, s.major, s.minor, hooks);
    SpaceByte(a, hooks);
    var d := At(c, AfterPhrase(s.phrase), |PhraseBytes(s.phrase)|);
    CodeRun(b, s.code, s.phrase, hooks);
    InnerGlue(Bytewise(hooks), p, VersionBytes(s.major, s.minor), a, b, s.code + PhraseBytes(s.phrase), d);
    WithinIs(p, s, a, b, c, d);
  }

  /** The code and the phrase. */
  lemma CodeRun(p: Parser, code: string, phrase: Option<string>, hooks: Hooks)
    requires Good(p) && p.state.ResFirstStatusCode? && Number(code) && Room(p, |code + PhraseBytes(phrase)|)
    requires phrase.Some? ==> PhraseText(phrase.value)
    ensures var c := Valued(To(p, Entered(p.state)), Numeral(0, 10, code), |code|);
            SilentRun(Bytewise(hooks), p, code + PhraseBytes(phrase), At(c, AfterPhrase(phrase), |PhraseBytes(phrase)|))
  {
    var c := Valued(To(p, Entered(p.state)), Numeral(0, 10, code), |code|);
    NumberRun(p, code, hooks);
    SomePhraseRun(c, phrase, hooks);
    SilentAppend(Bytewise(hooks), p, code, c, PhraseBytes(phrase), At(c, AfterPhrase(phrase), |PhraseBytes(phrase)|));
  }

  lemma WithinIs(p: Parser, s: StartLine, a: Parser, b: Parser, c: Parser, d: Parser)
    requires s.StatusLine? && StartText(s) && p.state.ResH?
    requires a == Versioned(p, Numeral(0, 10, s.major), Numeral(0, 10, s.minor), |VersionBytes(s.major, s.minor)|)
    requires b == At(a, ResFirstStatusCode, 1) && c == Valued(To(b, Entered(b.state)), Numeral(0, 10, s.code), |s.code|)
    requires d == At(c, AfterPhrase(s.phrase), |PhraseBytes(s.phrase)|)
    ensures d == Within(p, s, AfterPhrase(s.phrase), |Inner(s)|)
  {
  }

  lemma InnerGlue(step: Stepper, p: Parser, version: string, a: Parser, b: Parser, rest: string, d: Parser)
    requires SilentRun(step, p, version, a) && Silent(step, a, ' ', b) && SilentRun(step, b, rest, d)
    ensures SilentRun(step, p, version + (" " + rest), d)
  {
    SilentCons(step, a, ' ', b, rest, d);
    assert [' '] == " ";
    SilentAppend(step, p, version, a, " " + rest, d);
  }

  /** The parser behind the status line. */
  function Started(p: Parser, s: StartLine): Parser
    requires s.StatusLine? && StartText(s)
  {
    Within(Begun(p).(nread := p.nread), s, HeaderFieldStart, |StartBytes(s)|)
  }

  const START_EVENTS: seq<Event> := [Note(MessageBegin), Note(StatusComplete)]

  /** A status line begins a message, with its version and its code. */
  lemma StartRun(p: Parser, s: StartLine, hooks: Hooks) returns (r: Ran)
    requires Good(p) && p.state.StartRes? && Calm(hooks) && s.StatusLine? && StartText(s) && Room(p, |StartBytes(s)|)
    ensures r == Run(Bytewise(hooks), p, StartBytes(s)) && r.exit.Next? && r.used == |StartBytes(s)|
    ensures r.p == Started(p, s) && Good(r.p) && r.events == START_EVENTS
  {
    r := Run(Bytewise(hooks), p, StartBytes(s));
    var a := Begun(p);
    var b := Within(a, s, AfterPhrase(s.phrase), |Inner(s)|);
    var c := At(b, ResLineAlmostDone, 1);
    BeginsWithH(p, hooks);
    InnerRun(a, s, hooks);
    CrByte(b, hooks);
    LfByte(c, hooks);
    StartGlue(Bytewise(hooks), p, a, Inner(s), b, c, At(c, HeaderFieldStart, 1));
  }

  lemma StartGlue(step: Stepper, p: Parser, a: Parser, inner: string, b: Parser, c: Parser, d: Parser)
    requires step(p, 'H') == Ran(a, [Note(MessageBegin)], Next, 1) && SilentRun(step, a, inner, b) && Silent(step, b, '\r', c)
    requires step(c, '\n') == Ran(d, [Note(StatusComplete)], Next, 1)
    ensures Run(step, p, "H" + (inner + "\r\n")) == Ran(d, [Note(MessageBegin), Note(StatusComplete)], Next, |inner| + 3)
  {
    LastByte(step, c, '\n', step(c, '\n'));
    SilentOne(step, b, '\r', c);
    AfterSilent(step, b, ['\r'], c, ['\n']);
    AfterSilent(step, a, inner, b, ['\r'] + ['\n']);
    FirstThen(step, p, 'H', step(p, 'H'), inner + (['\r'] + ['\n']));
    assert ['H'] + (inner + (['\r'] + ['\n'])) == "H" + (inner + "\r\n");
    assert [Note(MessageBegin)] + [Note(StatusComplete)] == [Note(MessageBegin), Note(StatusComplete)];
  }
}
