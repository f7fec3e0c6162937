/** The line of a request: the method, the target and the version. */
module HttpRequest {
  import opened Common
  import opened HttpTypes
  import opened HttpStep
  import opened HttpRun
  import opened HttpSplit
  import opened HttpFraming
  import opened HttpLength
  import opened HttpLine
  import opened HttpWords
  import opened HttpHeaders
  import HttpUrl
  import Text = HttpUrlGrammar

  // ------------------------------------------------------------ the method

  function Behind(p: Parser, m: Method): Parser { Accepted(Begun(p, Lead(m, 1)), m, |MethodString(m)|) }

  lemma MethodRun(p: Parser, m: Method, hooks: Hooks)
    requires Good(p) && p.state.StartReq? && Calm(hooks) && Room(p, |MethodString(m)| + 1)
    ensures Run(Bytewise(hooks), p, MethodString(m) + " ") == Ran(Behind(p, m), [Note(MessageBegin)], Next, |MethodString(m)| + 1)
    ensures Good(Behind(p, m))
  {
    var w := MethodString(m);
    FirstOfMethod(m);
    FirstLetter(p, w[0], hooks);
    MethodIsAccepted(Begun(p, Lead(m, 1)), m, 1, hooks);
    ThenRest(Bytewise(hooks), p, w, Ran(Begun(p, Lead(m, 1)), [Note(MessageBegin)], Next, 1), Behind(p, m));
  }

  lemma ThenRest(step: Stepper, p: Parser, w: string, r: Ran, q: Parser)
    requires w != "" && step(p, w[0]) == r && r.exit.Next? && SilentRun(step, r.p, w[1..] + " ", q)
    ensures Run(step, p, w + " ") == Ran(q, r.events, Next, r.used + |w|)
  {
    assert w + " " == [w[0]] + (w[1..] + " ");
    FirstThen(step, p, w[0], r, w[1..] + " ");
    assert r.events + [] == r.events;
  }

  // --------------------------------------------------------------- the URL

  lemma {:induction false} WalkCons(from: State, s: string)
    requires s != ""
    ensures HttpUrl.Walk(from, s) == HttpUrl.Walk(ParseUrlChar(from, s[0]), s[1..])
    decreases |s|
  {
    if |s| > 1 {
      var init := s[..|s| - 1];
      WalkCons(from, init);
      assert s[1..][..|s| - 2] == init[1..];
    }
  }

  lemma {:induction false} WalkDies(s: string)
    ensures HttpUrl.Walk(Dead, s).Dead?
    decreases |s|
  {
    if s != "" { WalkDies(s[..|s| - 1]); }
  }

  /** Where a URL may end. */
  predicate UrlEnd(s: State) {
    s.ReqServer? || s.ReqServerWithAt? || s.ReqPath? || s.ReqQueryStart? || s.ReqQuery? || s.ReqFragmentStart? || s.ReqFragment?
  }

  /** Where the URL machine starts. */
  function UrlStart(m: Method): State { if m == CONNECT then ReqServerStart else ReqSpacesBeforeUrl }

  /** A request target that is accepted; that of CONNECT is an authority. */
  predicate Target(m: Method, s: string) { UrlEnd(HttpUrl.Walk(UrlStart(m), s)) }

  predicate AtUrl(p: Parser) { InUrl(p.state) || p.state.ReqSpacesBeforeUrl? }

  function UrlFrom(p: Parser): State { if p.state.ReqSpacesBeforeUrl? then UrlStart(p.verb) else p.state }

  lemma UrlStep(p: Parser, ch: char)
    requires AtUrl(p) && !ParseUrlChar(UrlFrom(p), ch).Dead?
    ensures var t := ParseUrlChar(UrlFrom(p), ch);
            InUrl(t) && StepUrl(p, ch) == Go(p, t).(mark := if InUrl(p.state) then None else Some(Url))
  {
  }

  lemma UrlDoes(p: Parser, ch: char, hooks: Hooks)
    requires Good(p) && Room(p, 1) && AtUrl(p)
    ensures Does(Bytewise(hooks), p, ch, StepUrl(Counted(p), ch))
  {
    UrlSwitch(Counted(p), ch, hooks);
    FreeDoes(p, ch, hooks);
  }

  lemma UrlSwitch(p: Parser, ch: char, hooks: Hooks)
    requires AtUrl(p)
    ensures Free(p.state) && SwitchFree(p, ch, hooks) == StepUrl(p, ch)
  {
  }

  lemma UrlByteOf(step: Stepper, p: Parser, ch: char)
    requires Good(p) && Room(p, 1) && AtUrl(p)
    requires !ParseUrlChar(UrlFrom(p), ch).Dead? && Does(step, p, ch, StepUrl(Counted(p), ch))
    ensures var q := At(p, ParseUrlChar(UrlFrom(p), ch), 1);
            step(p, ch) == Ran(q, [Piece(Url, [ch])], Next, 1) && Good(q) && InUrl(q.state)
  {
    UrlStep(Counted(p), ch);
  }

  lemma UrlByte(p: Parser, ch: char, hooks: Hooks)
    requires Good(p) && Room(p, 1) && AtUrl(p) && !ParseUrlChar(UrlFrom(p), ch).Dead?
    ensures var q := At(p, ParseUrlChar(UrlFrom(p), ch), 1);
            Bytewise(hooks)(p, ch) == Ran(q, [Piece(Url, [ch])], Next, 1) && Good(q) && InUrl(q.state)
  {
    UrlDoes(p, ch, hooks);
    UrlByteOf(Bytewise(hooks), p, ch);
  }

  function Walked(p: Parser, s: string): Parser { At(p, HttpUrl.Walk(UrlFrom(p), s), |s|) }

  lemma {:induction false} UrlRest(p: Parser, s: string, hooks: Hooks)
    requires Good(p) && Room(p, |s|) && AtUrl(p) && (s == "" ==> InUrl(p.state))
    requires !HttpUrl.Walk(UrlFrom(p), s).Dead?
    ensures DataRun(Bytewise(hooks), p, Url, s, Walked(p, s))
    decreases |s|
  {
    if s != "" {
      WalkedOn(p, s);
      UrlByte(p, s[0], hooks);
      var q := At(p, ParseUrlChar(UrlFrom(p), s[0]), 1);
      UrlRest(q, s[1..], hooks);
      DataCons(Bytewise(hooks), p, Url, s[0], q, s[1..], Walked(p, s));
    }
  }

  lemma WalkedOn(p: Parser, s: string)
    requires AtUrl(p) && s != "" && !HttpUrl.Walk(UrlFrom(p), s).Dead?
    ensures var t := ParseUrlChar(UrlFrom(p), s[0]);
            !t.Dead? && InUrl(t) && !HttpUrl.Walk(t, s[1..]).Dead? && Walked(At(p, t, 1), s[1..]) == Walked(p, s)
    ensures [s[0]] + s[1..] == s
  {
    WalkCons(UrlFrom(p), s);
    if ParseUrlChar(UrlFrom(p), s[0]).Dead? { WalkDies(s[1..]); } else { UrlStep(p, s[0]); }
  }

  lemma UrlSpaceOf(step: Stepper, p: Parser)
    requires Good(p) && Room(p, 1) && UrlEnd(p.state) && Does(step, p, ' ', StepUrl(Counted(p), ' '))
    ensures step(p, ' ') == Ran(At(p, ReqHttpStart, 1), [Piece(Url, "")], Next, 1) && Good(At(p, ReqHttpStart, 1))
  {
  }

  /** A request target and the space behind it. */
  lemma UrlRun(p: Parser, s: string, hooks: Hooks)
    requires Good(p) && p.state.ReqSpacesBeforeUrl? && Target(p.verb, s) && Room(p, |s| + 1)
    ensures var q := At(p, ReqHttpStart, |s| + 1);
            Run(Bytewise(hooks), p, s + " ") == Ran(q, Singles(Url, s) + [Piece(Url, "")], Next, |s| + 1) && Good(q)
  {
    UrlRest(p, s, hooks);
    var n := Walked(p, s);
    UrlDoes(n, ' ', hooks);
    UrlSpaceOf(Bytewise(hooks), n);
    EndOfData(Bytewise(hooks), p, Url, s, n, ' ', At(n, ReqHttpStart, 1));
    assert s + [' '] == s + " ";
  }

  // ------------------------------------------------- which targets there are

  /** Something behind the schema: an authority, a path or at least a "?". */
  predicate Something(w: Text.Parts) { w.server != "" || w.path != "" || w.query.Some? }

  ghost predicate IsTarget(m: Method, s: string) {
    exists w: Text.Parts :: Text.Well(w, m == CONNECT) && Text.Compose(w) == s && Something(w)
  }

  lemma EndExact(w: Text.Parts, connect: bool)
    requires Text.Well(w, connect)
    ensures UrlEnd(Text.EndState(w, connect)) <==> Something(w)
  {
  }

  /** A target is accepted if and only if it is put together from parts. */
  lemma TargetExact(m: Method, s: string)
    ensures Target(m, s) <==> IsTarget(m, s)
  {
    if Target(m, s) {
      var w := Text.Decompose(s, m == CONNECT);
      assert Text.Built(w, s, HttpUrl.Walk(UrlStart(m), s), m == CONNECT);
      EndExact(w, m == CONNECT);
    } else if IsTarget(m, s) {
      var w: Text.Parts :| Text.Well(w, m == CONNECT) && Text.Compose(w) == s && Something(w);
      Text.PartsWalked(w, m == CONNECT);
      EndExact(w, m == CONNECT);
    }
  }

  /** A request target as it mostly is: a path, with a query and a fragment or
      without. */
  lemma PathTarget(m: Method, path: string, query: Option<string>, fragment: Option<string>)
    requires path != "" && path[0] == '/' && Text.Every(path, Text.UrlText)
    requires query.Some? ==> Text.Every(query.value, Text.QueryPiece)
    requires fragment.Some? ==> Text.Every(fragment.value, Text.FragmentPiece) && (fragment.value != "" ==> fragment.value[0] != '#')
    ensures Target(m, path + Text.Query(query) + match fragment case None => "" case Some(t) => "#" + t)
  {
    var w := Text.Parts(None, "", path, query, if fragment.Some? then 1 else 0, if fragment.Some? then fragment.value else "");
    assert Text.Compose(w) == path + Text.Query(query) + match fragment case None => "" case Some(t) => "#" + t by {
      assert Text.Hashes(1) == "#" && Text.Hashes(0) == "";
    }
    assert Text.Well(w, m == CONNECT);
    TargetExact(m, Text.Compose(w));
  }

  /** No byte that ends a target. */
  predicate Unbroken(s: string) { forall c <- s :: c != ' ' && c != '\r' && c != '\n' }

  ghost predicate Refuses(r: Ran) { r.exit.Error? && r.p.errno == InvalidUrl }

  lemma UrlRefusedOf(step: Stepper, p: Parser, ch: char, t: Step)
    requires Does(step, p, ch, t) && t.exit.Error? && t.p.errno == InvalidUrl
    ensures Refuses(step(p, ch))
  {
  }

  lemma UrlRefused(p: Parser, ch: char, hooks: Hooks)
    requires Good(p) && Room(p, 1) && AtUrl(p)
    requires if ch == ' ' then InUrl(p.state) && !UrlEnd(p.state)
             else ch != '\r' && ch != '\n' && ParseUrlChar(UrlFrom(p), ch).Dead?
    ensures Refuses(Bytewise(hooks)(p, ch))
  {
    UrlDoes(p, ch, hooks);
    UrlRefusedOf(Bytewise(hooks), p, ch, StepUrl(Counted(p), ch));
  }

  lemma RefusedAfter(step: Stepper, p: Parser, ch: char, r: Ran, s: string)
    requires step(p, ch) == r && if r.exit.Next? then Refuses(Run(step, r.p, s)) else Refuses(r)
    ensures Refuses(Run(step, p, [ch] + s))
  {
    assert ([ch] + s)[1..] == s;
  }

  lemma {:induction false} RefusedRest(p: Parser, s: string, hooks: Hooks)
    requires Good(p) && Room(p, |s| + 1) && AtUrl(p) && Unbroken(s) && (s == "" ==> InUrl(p.state))
    requires !UrlEnd(HttpUrl.Walk(UrlFrom(p), s))
    ensures Refuses(Run(Bytewise(hooks), p, s + " "))
    decreases |s|
  {
    if s == "" {
      UrlRefused(p, ' ', hooks);
      RefusedAfter(Bytewise(hooks), p, ' ', Bytewise(hooks)(p, ' '), "");
      assert [' '] + "" == s + " ";
    } else {
      var c, rest := s[0], s[1..];
      WalkCons(UrlFrom(p), s);
      assert c in s && (forall e <- rest :: e in s) && [c] + (rest + " ") == s + " ";
      if ParseUrlChar(UrlFrom(p), c).Dead? {
        UrlRefused(p, c, hooks);
      } else {
        UrlByte(p, c, hooks);
        RefusedRest(At(p, ParseUrlChar(UrlFrom(p), c), 1), rest, hooks);
      }
      RefusedAfter(Bytewise(hooks), p, c, Bytewise(hooks)(p, c), rest + " ");
    }
  }

  /** Whatever else stands where the target belongs is refused as such. */
  lemma TargetRefused(p: Parser, m: Method, s: string, rest: string, hooks: Hooks)
    requires Good(p) && p.state.StartReq? && Calm(hooks) && Room(p, |MethodString(m)| + |s| + 2)
    requires s != "" && Unbroken(s) && !IsTarget(m, s)
    ensures Refuses(Run(Bytewise(hooks), p, MethodString(m) + " " + s + " " + rest))
  {
    MethodRun(p, m, hooks);
    TargetExact(m, s);
    RefusedRest(Behind(p, m), s, hooks);
    RefusedBetween(Bytewise(hooks), p, MethodString(m) + " ", s + " ", rest);
    assert MethodString(m) + " " + (s + " ") + rest == MethodString(m) + " " + s + " " + rest;
  }

  lemma RefusedBetween(step: Stepper, p: Parser, w: string, s: string, rest: string)
    requires Run(step, p, w).exit.Next? && Refuses(Run(step, Run(step, p, w).p, s))
    ensures Refuses(Run(step, p, w + s + rest))
  {
    RunAppend(step, p, w, s);
    RunAppend(step, p, w + s, rest);
  }

  // --------------------------------------------------------------- the line

  /** From the protocol to the end of the line. */
  function TailBytes(major: string, minor: string): string { "H" + (VersionBytes(major, minor) + "\r\n") }

  lemma HStep(p: Parser, hooks: Hooks)
    requires p.state.ReqHttpStart?
    ensures SwitchLine(p, 'H', hooks) == Go(p, ReqHttpH)
  {
  }

  lemma EndSteps(p: Parser, hooks: Hooks)
    ensures p.state.ReqMinor? ==> SwitchLine(p, '\r', hooks) == Go(p, ReqLineAlmostDone)
    ensures p.state.ReqLineAlmostDone? ==> SwitchLine(p, '\n', hooks) == Go(p, HeaderFieldStart)
  {
  }

  lemma LineCr(p: Parser, hooks: Hooks)
    requires Good(p) && p.state.ReqMinor? && Room(p, 1)
    ensures Silent(Bytewise(hooks), p, '\r', At(p, ReqLineAlmostDone, 1))
  {
    EndSteps(Counted(p), hooks);
    GoByte(p, '\r', ReqLineAlmostDone, hooks);
  }

  lemma LineLf(p: Parser, hooks: Hooks)
    requires Good(p) && p.state.ReqLineAlmostDone? && Room(p, 1)
    ensures Silent(Bytewise(hooks), p, '\n', At(p, HeaderFieldStart, 1))
  {
    EndSteps(Counted(p), hooks);
    GoByte(p, '\n', HeaderFieldStart, hooks);
  }

  lemma LineEndRun(p: Parser, hooks: Hooks)
    requires Good(p) && p.state.ReqMinor? && Room(p, 2)
    ensures SilentRun(Bytewise(hooks), p, "\r\n", At(p, HeaderFieldStart, 2))
  {
    LineCr(p, hooks);
    LineLf(At(p, ReqLineAlmostDone, 1), hooks);
    SilentTwo(Bytewise(hooks), p, '\r', At(p, ReqLineAlmostDone, 1), '\n', At(p, HeaderFieldStart, 2));
    assert ['\r', '\n'] == "\r\n";
  }

  /** The parser behind the request line, `n` bytes from the protocol on. */
  function LineRead(p: Parser, major: nat, minor: nat, n: nat): Parser {
    p.(state := HeaderFieldStart, major := major, minor := minor, nread := p.nread + n)
  }

  lemma TailRun(p: Parser, major: string, minor: string, hooks: Hooks)
    requires Good(p) && p.state.ReqHttpStart? && Room(p, |TailBytes(major, minor)|)
    requires Number(major) && major[0] != '0' && Number(minor)
    ensures SilentRun(Bytewise(hooks), p, TailBytes(major, minor),
                      LineRead(p, Numeral(0, 10, major), Numeral(0, 10, minor), |TailBytes(major, minor)|))
  {
    var a := At(p, ReqHttpH, 1);
    var b := Versioned(a, Numeral(0, 10, major), Numeral(0, 10, minor), |VersionBytes(major, minor)|);
    HStep(Counted(p), hooks);
    GoByte(p, 'H', ReqHttpH, hooks);
    VersionRun(a, major, minor, hooks);
    LineEndRun(b, hooks);
    TailGlue(Bytewise(hooks), p, a, VersionBytes(major, minor), b, At(b, HeaderFieldStart, 2));
  }

  lemma TailGlue(step: Stepper, p: Parser, a: Parser, version: string, b: Parser, c: Parser)
    requires Silent(step, p, 'H', a) && SilentRun(step, a, version, b) && SilentRun(step, b, "\r\n", c)
    ensures SilentRun(step, p, "H" + (version + "\r\n"), c)
  {
    SilentAppend(step, a, version, b, "\r\n", c);
    SilentCons(step, p, 'H', a, version + "\r\n", c);
    assert ['H'] == "H";
  }

  function StartBytes(s: StartLine): string
    requires s.RequestLine?
  {
    MethodString(s.verb) + " " + (s.target + " " + TailBytes(s.major, s.minor))
  }

  predicate StartText(s: StartLine)
    requires s.RequestLine?
  {
    Target(s.verb, s.target) && Number(s.major) && s.major[0] != '0' && Number(s.minor)
  }

  /** The parser behind the request line. */
  function Started(p: Parser, s: StartLine): Parser
    requires s.RequestLine? && StartText(s)
  {
    LineRead(Begun(p, s.verb).(index := |MethodString(s.verb)| + 1, nread := p.nread),
             Numeral(0, 10, s.major), Numeral(0, 10, s.minor), |StartBytes(s)|)
  }

  function StartEvents(s: StartLine): seq<Event>
    requires s.RequestLine?
  {
    [Note(MessageBegin), Piece(Url, s.target)]
  }

  /** A request line begins a message, with its method, target and version. */
  lemma StartRun(p: Parser, s: StartLine, hooks: Hooks) returns (r: Ran)
    requires Good(p) && p.state.StartReq? && Calm(hooks) && s.RequestLine? && StartText(s) && Room(p, |StartBytes(s)|)
    ensures r == Run(Bytewise(hooks), p, StartBytes(s)) && r.exit.Next? && r.used == |StartBytes(s)|
    ensures r.p == Started(p, s) && Good(r.p) && Norm(r.events) == Norm(StartEvents(s))
  {
    r := Run(Bytewise(hooks), p, StartBytes(s));
    var a := Behind(p, s.verb);
    MethodRun(p, s.verb, hooks);
    var b := At(a, ReqHttpStart, |s.target| + 1);
    TargetNotEmpty(s.verb, s.target);
    UrlRun(a, s.target, hooks);
    TailRun(b, s.major, s.minor, hooks);
    StartedIs(p, s, b);
    StartGlue(Bytewise(hooks), p, s, a, b, Started(p, s));
  }

  lemma StartedIs(p: Parser, s: StartLine, b: Parser)
    requires s.RequestLine? && StartText(s) && b == At(Behind(p, s.verb), ReqHttpStart, |s.target| + 1)
    ensures Started(p, s) == LineRead(b, Numeral(0, 10, s.major), Numeral(0, 10, s.minor), |TailBytes(s.major, s.minor)|)
  {
  }

  lemma TargetNotEmpty(m: Method, s: string)
    requires Target(m, s)
    ensures s != ""
  {
  }

  lemma StartGlue(step: Stepper, p: Parser, s: StartLine, a: Parser, b: Parser, c: Parser)
    requires s.RequestLine? && s.target != ""
    requires Run(step, p, MethodString(s.verb) + " ") == Ran(a, [Note(MessageBegin)], Next, |MethodString(s.verb)| + 1)
    requires Run(step, a, s.target + " ") == Ran(b, Singles(Url, s.target) + [Piece(Url, "")], Next, |s.target| + 1)
    requires SilentRun(step, b, TailBytes(s.major, s.minor), c)
    ensures var r := Run(step, p, StartBytes(s));
            r.exit.Next? && r.used == |StartBytes(s)| && r.p == c && Good(c) && Norm(r.events) == Norm(StartEvents(s))
  {
    var v := TailBytes(s.major, s.minor);
    var url := Singles(Url, s.target) + [Piece(Url, "")];
    BeforeSilent(step, a, s.target + " ", Ran(b, url, Next, |s.target| + 1), v, c);
    RunAppend(step, p, MethodString(s.verb) + " ", s.target + " " + v);
    SinglesNorm(Url, s.target);
    NormBoth([Note(MessageBegin)], url, [Note(MessageBegin)], [Piece(Url, s.target)]);
    assert [Note(MessageBegin)] + [Piece(Url, s.target)] == StartEvents(s);
  }
}
