/** Start lines: what the line of a request and that of a response have in
  common, the protocol, the two numbers of its version and the status code. */
module HttpLine {
  import opened Common
  import opened HttpTypes
  import opened HttpStep
  import opened HttpRun
  import opened HttpFraming
  import opened HttpLength
  import HttpMarks

  /** Callbacks that let everything pass. */
  ghost predicate Calm(hooks: Hooks) { forall n: Notify, q: Parser :: hooks(n, q).GoOn? }

  /** A start line as it is written. */
  datatype StartLine =
    | RequestLine(verb: Method, target: string, major: string, minor: string)
    | StatusLine(major: string, minor: string, code: string, phrase: Option<string>)

  // ------------------------------------------------------------ single bytes

  predicate InStatus(s: State) { s.ResFirstStatusCode? || s.ResStatusCode? || s.ResStatus? || s.ResLineAlmostDone? }

  /** Behind the target of a request, or the first letter of a response. */
  predicate OnLine(s: State) {
    InRequestWord(s) || InRequestVersion(s) || InResponseWord(s) || InResponseVersion(s) || InStatus(s)
  }

  lemma LineSwitch(p: Parser, ch: char, hooks: Hooks)
    requires OnLine(p.state)
    ensures Free(p.state) && SwitchFree(p, ch, hooks) == SwitchLine(p, ch, hooks)
  {
  }

  lemma LineDoes(p: Parser, ch: char, hooks: Hooks)
    requires Good(p) && OnLine(p.state) && Room(p, 1)
    ensures Does(Bytewise(hooks), p, ch, SwitchLine(Counted(p), ch, hooks))
  {
    LineSwitch(Counted(p), ch, hooks);
    FreeDoes(p, ch, hooks);
  }

  lemma LineMarksNothing(s: State)
    requires OnLine(s)
    ensures HttpMarks.Live(s).None? && ParsingHeader(s)
  {
    if InRequestWord(s) || InRequestVersion(s) {
    } else if InResponseWord(s) || InResponseVersion(s) {
    }
  }

  /** A step that only changes the parser. */
  lemma PlainByte(step: Stepper, p: Parser, ch: char, t: Step, q: Parser)
    requires Does(step, p, ch, t) && t == Plain(q) && q.errno.Ok? && HttpMarks.Live(p.state).None?
    ensures Silent(step, p, ch, q)
  {
  }

  lemma LineByte(p: Parser, ch: char, q: Parser, hooks: Hooks)
    requires Good(p) && OnLine(p.state) && Room(p, 1)
    requires SwitchLine(Counted(p), ch, hooks) == Plain(q) && q.errno.Ok?
    ensures Silent(Bytewise(hooks), p, ch, q)
  {
    LineDoes(p, ch, hooks);
    LineMarksNothing(p.state);
    PlainByte(Bytewise(hooks), p, ch, SwitchLine(Counted(p), ch, hooks), q);
  }

  /** Some bytes further on. */
  function At(p: Parser, s: State, n: nat): Parser { p.(state := s, nread := p.nread + n) }

  lemma GoByte(p: Parser, ch: char, s: State, hooks: Hooks)
    requires Good(p) && OnLine(p.state) && Room(p, 1) && SwitchLine(Counted(p), ch, hooks) == Go(Counted(p), s)
    ensures Silent(Bytewise(hooks), p, ch, At(p, s, 1))
  {
    LineMarksNothing(p.state);
    LineByte(p, ch, At(p, s, 1), hooks);
  }

  // ---------------------------------------------------------------- the word

  predicate InWord(s: State) { InRequestWord(s) || InResponseWord(s) }

  /** The letter waited for, and where it leads. */
  function Letter(s: State): char {
    if s.ReqHttpStart? then 'H'
    else if s.ReqHttpH? || s.ReqHttpHT? || s.ResH? || s.ResHT? then 'T'
    else if s.ReqHttpHTT? || s.ResHTT? then 'P'
    else '/'
  }

  function AfterLetter(s: State): State {
    if s.ReqHttpStart? then ReqHttpH
    else if s.ReqHttpH? then ReqHttpHT
    else if s.ReqHttpHT? then ReqHttpHTT
    else if s.ReqHttpHTT? then ReqHttpHTTP
    else if s.ReqHttpHTTP? then ReqFirstMajor
    else if s.ResH? then ResHT
    else if s.ResHT? then ResHTT
    else if s.ResHTT? then ResHTTP
    else ResFirstMajor
  }

  lemma LetterStep(p: Parser, hooks: Hooks)
    requires InWord(p.state)
    ensures SwitchLine(p, Letter(p.state), hooks) == Go(p, AfterLetter(p.state))
  {
  }

  lemma WordByte(p: Parser, hooks: Hooks)
    requires Good(p) && InWord(p.state) && Room(p, 1)
    ensures Silent(Bytewise(hooks), p, Letter(p.state), At(p, AfterLetter(p.state), 1))
  {
    LetterStep(Counted(p), hooks);
    GoByte(p, Letter(p.state), AfterLetter(p.state), hooks);
  }

  /** Behind the "H" of either word. */
  predicate AtWord(s: State) { s.ReqHttpH? || s.ResH? }

  /** The state before the first number. */
  function FirstNumber(s: State): State { if s.ReqHttpH? then ReqFirstMajor else ResFirstMajor }

  lemma WordRun(p: Parser, hooks: Hooks)
    requires Good(p) && AtWord(p.state) && Room(p, 4)
    ensures SilentRun(Bytewise(hooks), p, "TTP/", At(p, FirstNumber(p.state), 4))
  {
    var a := At(p, AfterLetter(p.state), 1);
    var b := At(a, AfterLetter(a.state), 1);
    var c := At(b, AfterLetter(b.state), 1);
    WordLetters(p, a, b, c);
    WordByte(p, hooks);
    WordByte(a, hooks);
    WordByte(b, hooks);
    WordByte(c, hooks);
    WordGlue(Bytewise(hooks), p, a, b, c);
  }

  lemma WordLetters(p: Parser, a: Parser, b: Parser, c: Parser)
    requires AtWord(p.state) && a == At(p, AfterLetter(p.state), 1) && b == At(a, AfterLetter(a.state), 1)
    requires c == At(b, AfterLetter(b.state), 1)
    ensures InWord(p.state) && InWord(a.state) && InWord(b.state) && InWord(c.state)
    ensures Letter(p.state) == 'T' && Letter(a.state) == 'T' && Letter(b.state) == 'P' && Letter(c.state) == '/'
    ensures a.nread == p.nread + 1 && b.nread == p.nread + 2 && c.nread == p.nread + 3
  {
  }

  lemma WordGlue(step: Stepper, p: Parser, a: Parser, b: Parser, c: Parser)
    requires AtWord(p.state) && a == At(p, AfterLetter(p.state), 1) && b == At(a, AfterLetter(a.state), 1)
    requires c == At(b, AfterLetter(b.state), 1)
    requires Silent(step, p, 'T', a) && Silent(step, a, 'T', b) && Silent(step, b, 'P', c)
    requires Silent(step, c, '/', At(c, AfterLetter(c.state), 1))
    ensures SilentRun(step, p, "TTP/", At(p, FirstNumber(p.state), 4))
  {
    FourBytes(step, p, 'T', a, 'T', b, 'P', c, '/', At(c, AfterLetter(c.state), 1));
    assert ['T', 'T', 'P', '/'] == "TTP/" && At(c, AfterLetter(c.state), 1) == At(p, FirstNumber(p.state), 4);
  }

  lemma FourBytes(step: Stepper, p: Parser, c1: char, q1: Parser, c2: char, q2: Parser, c3: char, q3: Parser, c4: char, q4: Parser)
    requires Silent(step, p, c1, q1) && Silent(step, q1, c2, q2) && Silent(step, q2, c3, q3) && Silent(step, q3, c4, q4)
    ensures SilentRun(step, p, [c1, c2, c3, c4], q4)
  {
    SilentTwo(step, p, c1, q1, c2, q2);
    SilentTwo(step, q2, c3, q3, c4, q4);
    SilentAppend(step, p, [c1, c2], q2, [c3, c4], q4);
    assert [c1, c2] + [c3, c4] == [c1, c2, c3, c4];
  }

  // -------------------------------------------------------------- the numbers

  /** Digits, with a value below 1000. */
  predicate Number(s: string) { s != "" && Digits(s) && Numeral(0, 10, s) <= 999 }

  predicate BeforeNumber(s: State) {
    s.ReqFirstMajor? || s.ReqFirstMinor? || s.ResFirstMajor? || s.ResFirstMinor? || s.ResFirstStatusCode?
  }

  predicate InNumber(s: State) { s.ReqMajor? || s.ReqMinor? || s.ResMajor? || s.ResMinor? || s.ResStatusCode? }

  function Entered(s: State): State {
    if s.ReqFirstMajor? then ReqMajor
    else if s.ReqFirstMinor? then ReqMinor
    else if s.ResFirstMajor? then ResMajor
    else if s.ResFirstMinor? then ResMinor
    else ResStatusCode
  }

  /** The number that the state is about, and that number set, `n` bytes on. */
  function ValueOf(p: Parser): nat {
    if p.state.ReqMajor? || p.state.ResMajor? then p.major
    else if p.state.ReqMinor? || p.state.ResMinor? then p.minor
    else p.status
  }

  function Valued(p: Parser, v: nat, n: nat): Parser {
    (if p.state.ReqMajor? || p.state.ResMajor? then p.(major := v)
     else if p.state.ReqMinor? || p.state.ResMinor? then p.(minor := v)
     else p.(status := v)).(nread := p.nread + n)
  }

  lemma DigitStep(p: Parser, ch: char, hooks: Hooks)
    requires InNumber(p.state) && IsNum(ch) && ValueOf(p) * 10 + NumValue(ch) <= 999
    ensures SwitchLine(p, ch, hooks) == Plain(Valued(p, ValueOf(p) * 10 + NumValue(ch), 0))
  {
  }

  lemma FirstDigitStep(p: Parser, ch: char, hooks: Hooks)
    requires BeforeNumber(p.state) && IsNum(ch) && (p.state.ReqFirstMajor? ==> ch != '0')
    ensures SwitchLine(p, ch, hooks) == Plain(Valued(To(p, Entered(p.state)), NumValue(ch), 0))
  {
  }

  lemma DigitByte(p: Parser, ch: char, hooks: Hooks)
    requires Good(p) && InNumber(p.state) && IsNum(ch) && Room(p, 1) && ValueOf(p) * 10 + NumValue(ch) <= 999
    ensures Silent(Bytewise(hooks), p, ch, Valued(p, ValueOf(p) * 10 + NumValue(ch), 1))
  {
    DigitStep(Counted(p), ch, hooks);
    LineByte(p, ch, Valued(p, ValueOf(p) * 10 + NumValue(ch), 1), hooks);
  }

  lemma FirstDigitByte(p: Parser, ch: char, hooks: Hooks)
    requires Good(p) && BeforeNumber(p.state) && IsNum(ch) && (p.state.ReqFirstMajor? ==> ch != '0') && Room(p, 1)
    ensures Silent(Bytewise(hooks), p, ch, Valued(To(p, Entered(p.state)), NumValue(ch), 1))
  {
    FirstDigitStep(Counted(p), ch, hooks);
    LineByte(p, ch, Valued(To(p, Entered(p.state)), NumValue(ch), 1), hooks);
  }

  lemma DigitValue(ch: char)
    requires IsNum(ch)
    ensures IsHex(ch) && HexDigit(ch) == NumValue(ch)
  {
  }

  /** The parser by value and by digits read. */
  function Counter(p: Parser): (nat, nat) -> Parser { (v: nat, n: nat) => Valued(p, v, n) }

  /** Every digit moves `at` on, as long as there is room. */
  ghost predicate Digitwise(step: Stepper, at: (nat, nat) -> Parser, room: nat) {
    forall v: nat, n: nat, ch ::
      n < room && v <= 999 && IsNum(ch) && v * 10 + NumValue(ch) <= 999 ==> Silent(step, at(v, n), ch, at(v * 10 + NumValue(ch), n + 1))
  }

  lemma NextDigit(v: nat, s: string)
    requires s != "" && Digits(s)
    ensures s == [s[0]] + s[1..] && IsNum(s[0]) && Digits(s[1..])
    ensures var w := v * 10 + NumValue(s[0]); v <= w <= Numeral(w, 10, s[1..]) == Numeral(v, 10, s)
  {
    DigitsGlue(v, s);
    DigitValue(s[0]);
  }

  lemma FirstDigit(s: string)
    requires s != "" && Digits(s)
    ensures s == [s[0]] + s[1..] && IsNum(s[0]) && Digits(s[1..]) && Numeral(NumValue(s[0]), 10, s[1..]) == Numeral(0, 10, s)
  {
    DigitsSplit(s);
    DigitValue(s[0]);
  }

  lemma DigitsSplit(s: string)
    requires s != "" && Digits(s)
    ensures s == [s[0]] + s[1..] && IsNum(s[0]) && Digits(s[1..])
  {
    assert s[0] in s && forall c <- s[1..] :: c in s;
  }

  lemma {:induction false} DigitsRead(step: Stepper, at: (nat, nat) -> Parser, room: nat, v: nat, n: nat, s: string)
    requires Digitwise(step, at, room) && Digits(s) && n + |s| <= room && Numeral(v, 10, s) <= 999 && Good(at(v, n))
    ensures SilentRun(step, at(v, n), s, at(Numeral(v, 10, s), n + |s|))
    decreases |s|
  {
    if s != "" {
      NextDigit(v, s);
      var w := v * 10 + NumValue(s[0]);
      DigitsRead(step, at, room, w, n + 1, s[1..]);
      SilentCons(step, at(v, n), s[0], at(w, n + 1), s[1..], at(Numeral(v, 10, s), n + |s|));
    }
  }

  /** A number set twice. */
  lemma ValuedTwice(p: Parser, v: nat, m: nat, w: nat, n: nat)
    requires InNumber(p.state)
    ensures var q := Valued(p, v, m); ValueOf(q) == v && InNumber(q.state) && Valued(q, w, n) == Valued(p, w, m + n)
    ensures Good(p) && v <= 999 && Room(p, m) ==> Good(Valued(p, v, m))
  {
  }

  lemma CounterCounts(p: Parser, hooks: Hooks, room: nat)
    requires Good(p) && InNumber(p.state) && Room(p, room)
    ensures Digitwise(Bytewise(hooks), Counter(p), room)
  {
    forall v: nat, n: nat, ch | n < room && v <= 999 && IsNum(ch) && v * 10 + NumValue(ch) <= 999
      ensures Silent(Bytewise(hooks), Counter(p)(v, n), ch, Counter(p)(v * 10 + NumValue(ch), n + 1))
    {
      ValuedTwice(p, v, n, v * 10 + NumValue(ch), 1);
      DigitByte(Valued(p, v, n), ch, hooks);
    }
  }

  lemma MoreDigits(p: Parser, v: nat, w: nat, s: string, hooks: Hooks)
    requires Good(p) && InNumber(p.state) && Digits(s) && Room(p, 1 + |s|) && Numeral(v, 10, s) == w <= 999
    ensures SilentRun(Bytewise(hooks), Valued(p, v, 1), s, Valued(p, w, 1 + |s|))
  {
    ValuedTwice(p, v, 1, v, 0);
    CounterCounts(p, hooks, 1 + |s|);
    DigitsRead(Bytewise(hooks), Counter(p), 1 + |s|, v, 1, s);
  }

  lemma EnteredGood(p: Parser)
    requires Good(p) && BeforeNumber(p.state)
    ensures var e := To(p, Entered(p.state)); Good(e) && InNumber(e.state) && e.nread == p.nread
  {
  }

  lemma NumberRun(p: Parser, s: string, hooks: Hooks)
    requires Good(p) && BeforeNumber(p.state) && Number(s) && (p.state.ReqFirstMajor? ==> s[0] != '0') && Room(p, |s|)
    ensures SilentRun(Bytewise(hooks), p, s, Valued(To(p, Entered(p.state)), Numeral(0, 10, s), |s|))
  {
    FirstDigit(s);
    var e, v, w := To(p, Entered(p.state)), NumValue(s[0]), Numeral(0, 10, s);
    EnteredGood(p);
    FirstDigitByte(p, s[0], hooks);
    MoreDigits(e, v, w, s[1..], hooks);
    DigitThen(Bytewise(hooks), p, e, v, w, s);
  }

  lemma DigitThen(step: Stepper, p: Parser, e: Parser, v: nat, w: nat, s: string)
    requires s != "" && Silent(step, p, s[0], Valued(e, v, 1))
    requires SilentRun(step, Valued(e, v, 1), s[1..], Valued(e, w, 1 + |s[1..]|))
    ensures SilentRun(step, p, s, Valued(e, w, |s|))
  {
    SilentCons(step, p, s[0], Valued(e, v, 1), s[1..], Valued(e, w, 1 + |s[1..]|));
    assert [s[0]] + s[1..] == s;
  }

  lemma DotStep(p: Parser, hooks: Hooks)
    ensures p.state.ReqMajor? ==> SwitchLine(p, '.', hooks) == Go(p, ReqFirstMinor)
    ensures p.state.ResMajor? ==> SwitchLine(p, '.', hooks) == Go(p, ResFirstMinor)
  {
  }

  lemma DotByte(p: Parser, hooks: Hooks)
    requires Good(p) && (p.state.ReqMajor? || p.state.ResMajor?) && Room(p, 1)
    ensures Silent(Bytewise(hooks), p, '.', At(p, if p.state.ReqMajor? then ReqFirstMinor else ResFirstMinor, 1))
  {
    DotStep(Counted(p), hooks);
    GoByte(p, '.', if p.state.ReqMajor? then ReqFirstMinor else ResFirstMinor, hooks);
  }

  function VersionBytes(major: string, minor: string): string { "TTP/" + (major + ("." + minor)) }

  /** The parser within the second number. */
  function Versioned(p: Parser, major: nat, minor: nat, n: nat): Parser {
    p.(state := if p.state.ReqHttpH? then ReqMinor else ResMinor, major := major, minor := minor, nread := p.nread + n)
  }

  /** A version, from behind the first letter of the protocol to its last digit. */
  lemma VersionRun(p: Parser, major: string, minor: string, hooks: Hooks)
    requires Good(p) && AtWord(p.state) && Room(p, |VersionBytes(major, minor)|)
    requires Number(major) && Number(minor) && (p.state.ReqHttpH? ==> major[0] != '0')
    ensures SilentRun(Bytewise(hooks), p, VersionBytes(major, minor),
                      Versioned(p, Numeral(0, 10, major), Numeral(0, 10, minor), |VersionBytes(major, minor)|))
  {
    var a := At(p, FirstNumber(p.state), 4);
    var b := Valued(To(a, Entered(a.state)), Numeral(0, 10, major), |major|);
    var c := At(b, if b.state.ReqMajor? then ReqFirstMinor else ResFirstMinor, 1);
    var d := Valued(To(c, Entered(c.state)), Numeral(0, 10, minor), |minor|);
    WordRun(p, hooks);
    NumberRun(a, major, hooks);
    DotByte(b, hooks);
    NumberRun(c, minor, hooks);
    VersionGlue(Bytewise(hooks), p, a, major, b, c, minor, d);
    VersionedIs(p, a, major, b, c, minor, d);
  }

  lemma VersionedIs(p: Parser, a: Parser, major: string, b: Parser, c: Parser, minor: string, d: Parser)
    requires AtWord(p.state) && Number(major) && Number(minor) && a == At(p, FirstNumber(p.state), 4)
    requires b == Valued(To(a, Entered(a.state)), Numeral(0, 10, major), |major|)
    requires c == At(b, if b.state.ReqMajor? then ReqFirstMinor else ResFirstMinor, 1)
    requires d == Valued(To(c, Entered(c.state)), Numeral(0, 10, minor), |minor|)
    ensures d == Versioned(p, Numeral(0, 10, major), Numeral(0, 10, minor), |VersionBytes(major, minor)|)
  {
  }

  lemma VersionGlue(step: Stepper, p: Parser, a: Parser, major: string, b: Parser, c: Parser, minor: string, d: Parser)
    requires SilentRun(step, p, "TTP/", a) && SilentRun(step, a, major, b) && Silent(step, b, '.', c)
    requires SilentRun(step, c, minor, d)
    ensures SilentRun(step, p, VersionBytes(major, minor), d)
  {
    SilentOne(step, b, '.', c);
    assert ['.'] == ".";
    SilentAppend(step, b, ".", c, minor, d);
    SilentAppend(step, a, major, b, "." + minor, d);
    SilentAppend(step, p, "TTP/", a, major + ("." + minor), d);
  }
}
