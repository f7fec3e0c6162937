/** The words the parser recognises as they go by: request methods and the
  names of the headers that frame messages. */
module HttpWords {
  import opened Common
  import opened HttpTypes
  import opened HttpStep
  import opened HttpRun
  import opened HttpFraming

  // ---------------------------------------------------------------- methods

  /** The start of a word is read, and the method held so far begins with it. */
  predicate Spelling(p: Parser, s: string) {
    p.state.ReqMethod? && p.index == |s| > 0 && s <= MethodString(p.verb)
  }

  lemma PrefixSnoc(w: string, s: string, ch: char)
    ensures s + [ch] <= w <==> s <= w && |s| < |w| && w[|s|] == ch
  {
    var t := s + [ch];
    if s <= w && |s| < |w| && w[|s|] == ch {
      assert w[..|s| + 1] == w[..|s|] + [w[|s|]];
    }
    if t <= w {
      assert t[..|s|] == s && t[|s|] == ch;
    }
  }

  /** The methods switched between share what has been read. */
  lemma SwitchShares(m: Method, i: nat, ch: char)
    requires SwitchMethod(m, i, ch).Some?
    ensures var v, w := MethodString(m), MethodString(SwitchMethod(m, i, ch).value);
            i <= |v| && i < |w| && w[i] == ch && i <= 4 &&
            (i > 0 ==> v[0] == w[0]) && (i > 1 ==> v[1] == w[1]) && (i > 2 ==> v[2] == w[2]) && (i > 3 ==> v[3] == w[3])
  {
  }

  /** A mid-word switch keeps to what has been read. */
  lemma SwitchKeeps(m: Method, s: string, ch: char)
    requires s <= MethodString(m) && SwitchMethod(m, |s|, ch).Some?
    ensures s + [ch] <= MethodString(SwitchMethod(m, |s|, ch).value)
  {
    SwitchShares(m, |s|, ch);
    SharedPrefix(MethodString(m), MethodString(SwitchMethod(m, |s|, ch).value), s, ch);
  }

  lemma SharedPrefix(v: string, w: string, s: string, ch: char)
    requires s <= v && |s| < |w| && w[|s|] == ch && forall k :: 0 <= k < |s| ==> v[k] == w[k]
    ensures s + [ch] <= w
  {
    assert forall k :: 0 <= k < |s| ==> s[k] == v[k];
    PrefixSnoc(w, s, ch);
  }

  lemma MethodByte(p: Parser, s: string, ch: char)
    requires Good(p) && Spelling(p, s) && ch != ' '
    ensures var t := StepMethod(p, ch);
            if t.exit.Next? then Spelling(t.p, s + [ch]) && t == Plain(t.p) else t == Err(p, InvalidMethod)
  {
    PrefixSnoc(MethodString(p.verb), s, ch);
    if SwitchMethod(p.verb, p.index, ch).Some? { SwitchKeeps(p.verb, s, ch); }
  }

  lemma MethodOne(p: Parser, s: string, ch: char, hooks: Hooks)
    requires Good(p) && Spelling(p, s) && Room(p, 1) && ch != ' '
    ensures var r := OneByte(p, ch, hooks);
            if r.exit.Next? then Spelling(r.p, s + [ch]) && Good(r.p) && r.p.nread == p.nread + 1
            else r.exit.Error? && r.p.errno == InvalidMethod
  {
    assert Advance(p, ch, hooks) == StepMethod(Counted(p), ch);
    MethodByte(Counted(p), s, ch);
    AdvanceSound(p, ch, hooks);
  }

  lemma MethodSpace(p: Parser, s: string, hooks: Hooks)
    requires Good(p) && Spelling(p, s) && Room(p, 1)
    ensures var r := OneByte(p, ' ', hooks);
            if r.exit.Next? then r.p.state.ReqSpacesBeforeUrl? && MethodString(r.p.verb) == s
            else r.exit.Error? && r.p.errno == InvalidMethod
  {
    assert Advance(p, ' ', hooks) == StepMethod(Counted(p), ' ');
    NoSwitch(p.verb, |s|);
    NoSpaces(p.verb, |s|);
  }

  lemma NoSwitch(m: Method, i: nat)
    ensures SwitchMethod(m, i, ' ').None?
  {
  }

  lemma NoSpaces(m: Method, i: nat)
    ensures i < |MethodString(m)| ==> MethodString(m)[i] != ' ' && MethodString(m)[i] != '\0'
  {
  }

  lemma MethodEnd(p: Parser, s: string, hooks: Hooks)
    requires Good(p) && Spelling(p, s) && Room(p, 1)
    ensures var r := Run(Bytewise(hooks), p, " ");
            if r.exit.Next? then r.p.state.ReqSpacesBeforeUrl? && MethodString(r.p.verb) == s
            else r.exit.Error? && r.p.errno == InvalidMethod
  {
    MethodSpace(p, s, hooks);
    LastByte(Bytewise(hooks), p, ' ', OneByte(p, ' ', hooks));
    assert " " == [' '];
  }

  lemma RestGlue(s: string, rest: string)
    requires rest != ""
    ensures (rest + " ")[0] == rest[0] && (rest + " ")[1..] == rest[1..] + " "
    ensures s + rest == (s + [rest[0]]) + rest[1..]
    ensures ' ' !in rest ==> ' ' !in rest[1..] && rest[0] != ' '
  {
  }

  /** A word that is accepted is a method, and that method is reported. */
  lemma {:induction false} AcceptedIsMethod(p: Parser, s: string, rest: string, hooks: Hooks)
    requires Good(p) && Spelling(p, s) && ' ' !in rest && Room(p, |rest| + 1)
    ensures var r := Run(Bytewise(hooks), p, rest + " ");
            if r.exit.Next? then r.p.state.ReqSpacesBeforeUrl? && MethodString(r.p.verb) == s + rest
            else r.exit.Error? && r.p.errno == InvalidMethod
    decreases |rest|
  {
    if rest == "" {
      MethodEnd(p, s, hooks);
      assert s + rest == s && rest + " " == " ";
    } else {
      var ch := rest[0];
      MethodOne(p, s, ch, hooks);
      RestGlue(s, rest);
      var r := OneByte(p, ch, hooks);
      if r.exit.Next? {
        AcceptedIsMethod(r.p, s + [ch], rest[1..], hooks);
      }
    }
  }

  /** The method held after `i` characters of the word for `m`. */
  function Lead(m: Method, i: nat): Method {
    match m
    case CHECKOUT => if i < 2 then CONNECT else m
    case COPY => if i < 3 then CONNECT else m
    case MOVE => if i < 2 then MKCOL else m
    case MERGE => if i < 2 then MKCOL else m
    case MSEARCH => if i < 2 then MKCOL else m
    case MKACTIVITY => if i < 3 then MKCOL else m
    case SEARCH => if i < 2 then SUBSCRIBE else m
    case PROPFIND => if i < 2 then POST else m
    case PROPPATCH => if i < 2 then POST else if i < 5 then PROPFIND else m
    case PUT => if i < 2 then POST else m
    case PATCH => if i < 2 then POST else m
    case PURGE => if i < 2 then POST else if i < 3 then PUT else m
    case UNSUBSCRIBE => if i < 3 then UNLOCK else m
    case _ => m
  }

  lemma LeadStep(m: Method, i: nat)
    requires 0 < i < |MethodString(m)|
    ensures var w, l, n := MethodString(m), Lead(m, i), Lead(m, i + 1);
            if i < |MethodString(l)| && w[i] == MethodString(l)[i] then l == n else SwitchMethod(l, i, w[i]) == Some(n)
  {
  }

  /** The start of the word for `m` is read. */
  predicate Leading(p: Parser, m: Method, i: nat) {
    p.state.ReqMethod? && p.index == i && p.verb == Lead(m, i) && 0 < i <= |MethodString(m)|
  }

  /** One more letter of `m`, and then the space. */
  function Onward(p: Parser, m: Method, i: nat): Parser { p.(verb := Lead(m, i), index := i, nread := p.nread + 1) }

  function Accepted(p: Parser, m: Method, n: nat): Parser {
    p.(state := ReqSpacesBeforeUrl, verb := m, index := |MethodString(m)| + 1, nread := p.nread + n)
  }

  lemma AcceptLetter(p: Parser, m: Method, i: nat, hooks: Hooks)
    requires Good(p) && Leading(p, m, i) && Room(p, 1) && i < |MethodString(m)|
    ensures Silent(Bytewise(hooks), p, MethodString(m)[i], Onward(p, m, i + 1)) && Leading(Onward(p, m, i + 1), m, i + 1)
  {
    var ch := MethodString(m)[i];
    NoSpaces(m, i);
    LeadStep(m, i);
    assert StepMethod(Counted(p), ch) == Plain(Onward(p, m, i + 1));
    assert Advance(p, ch, hooks) == StepMethod(Counted(p), ch);
    AdvanceSound(p, ch, hooks);
  }

  lemma AcceptSpace(p: Parser, m: Method, hooks: Hooks)
    requires Good(p) && Leading(p, m, |MethodString(m)|) && Room(p, 1)
    ensures Silent(Bytewise(hooks), p, ' ', Accepted(p, m, 1))
  {
    LeadEnd(m);
    assert Advance(p, ' ', hooks) == StepMethod(Counted(p), ' ');
    AdvanceSound(p, ' ', hooks);
  }

  lemma LeadEnd(m: Method)
    ensures Lead(m, |MethodString(m)|) == m
  {
  }

  lemma WordGlue(w: string, i: nat)
    requires i < |w|
    ensures w[i..] + " " == [w[i]] + (w[i + 1..] + " ")
  {
  }

  /** Every method is accepted, without a callback. */
  lemma {:induction false} MethodIsAccepted(p: Parser, m: Method, i: nat, hooks: Hooks)
    requires Good(p) && Leading(p, m, i) && Room(p, |MethodString(m)| - i + 1)
    ensures SilentRun(Bytewise(hooks), p, MethodString(m)[i..] + " ", Accepted(p, m, |MethodString(m)| - i + 1))
    decreases |MethodString(m)| - i
  {
    var w := MethodString(m);
    if i == |w| {
      AcceptSpace(p, m, hooks);
      SilentOne(Bytewise(hooks), p, ' ', Accepted(p, m, 1));
      assert w[i..] + " " == [' '];
    } else {
      AcceptLetter(p, m, i, hooks);
      MethodIsAccepted(Onward(p, m, i + 1), m, i + 1, hooks);
      SilentCons(Bytewise(hooks), p, w[i], Onward(p, m, i + 1), w[i + 1..] + " ", Accepted(p, m, |w| - i + 1));
      WordGlue(w, i);
    }
  }

  ghost predicate IsMethod(w: string) { exists m :: MethodString(m) == w }

  /** The parser after the first letter of a method. */
  function Begun(p: Parser, m: Method): Parser {
    p.(flags := NO_FLAGS, length := ULLONG_MAX, verb := m, index := 1, state := ReqMethod, nread := p.nread + 1)
  }

  lemma FirstLetter(p: Parser, ch: char, hooks: Hooks)
    requires Good(p) && p.state.StartReq? && Room(p, 1) && ch != '\r' && ch != '\n'
    requires forall q: Parser :: hooks(MessageBegin, q).GoOn?
    ensures var r := OneByte(p, ch, hooks);
            match FirstMethod(ch)
            case None => r.exit.Error? && r.p.errno == InvalidMethod
            case Some(m) => r == Ran(Begun(p, m), [Note(MessageBegin)], Next, 1) && Good(Begun(p, m)) && [ch] <= MethodString(m)
  {
    assert Advance(p, ch, hooks) == StepStartReq(Counted(p), ch, hooks);
    if FirstMethod(ch).Some? {
      var q := Begun(p, FirstMethod(ch).value);
      assert hooks(MessageBegin, q).GoOn?;
      assert MethodString(q.verb)[0] == ch;
    }
  }

  lemma FirstOfMethod(m: Method)
    ensures var w := MethodString(m);
            w != "" && ' ' !in w && w[0] != '\r' && w[0] != '\n' && FirstMethod(w[0]) == Some(Lead(m, 1))
  {
  }

  /** A word followed by a space is accepted if and only if it is one of the
      26 methods, and that method is the one reported. */
  lemma MethodsExact(p: Parser, w: string, hooks: Hooks)
    requires Good(p) && p.state.StartReq? && Room(p, |w| + 1)
    requires w != "" && ' ' !in w && w[0] != '\r' && w[0] != '\n'
    requires forall q: Parser :: hooks(MessageBegin, q).GoOn?
    ensures var r := Run(Bytewise(hooks), p, w + " ");
            (r.exit.Next? <==> IsMethod(w)) &&
            if r.exit.Next? then r.p.state.ReqSpacesBeforeUrl? && MethodString(r.p.verb) == w
            else r.exit.Error? && r.p.errno == InvalidMethod
  {
    var ch := w[0];
    FirstLetter(p, ch, hooks);
    assert (w + " ")[0] == ch && (w + " ")[1..] == w[1..] + " ";
    if FirstMethod(ch).Some? {
      var q := Begun(p, FirstMethod(ch).value);
      AcceptedIsMethod(q, [ch], w[1..], hooks);
      assert [ch] + w[1..] == w;
    }
    if IsMethod(w) {
      var m :| MethodString(m) == w;
      FirstOfMethod(m);
      MethodIsAccepted(Begun(p, Lead(m, 1)), m, 1, hooks);
    }
  }

  // A parser that takes requests and responses, at the start of either.

  /** The parser after the first letter of a method, now one of requests. */
  function BegunRequest(p: Parser, m: Method): Parser { Begun(p, m).(kind := Request) }

  lemma FirstOfEither(p: Parser, ch: char, hooks: Hooks)
    requires Good(p) && p.state.StartReqOrRes? && Room(p, 1) && ch != '\r' && ch != '\n' && ch != 'H'
    requires forall q: Parser :: hooks(MessageBegin, q).GoOn?
    ensures var r := OneByte(p, ch, hooks);
            match FirstMethod(ch)
            case None => r.exit.Error?
            case Some(m) =>
              r == Ran(BegunRequest(p, m), [Note(MessageBegin)], Next, 1) && Good(BegunRequest(p, m)) && [ch] <= MethodString(m)
  {
    EitherDoes(p, ch, hooks);
    if FirstMethod(ch).Some? {
      var q := BegunRequest(p, FirstMethod(ch).value);
      assert hooks(MessageBegin, q).GoOn?;
      assert MethodString(q.verb)[0] == ch;
    }
  }

  /** "H" may begin a response or the method HEAD. */
  function BegunEither(p: Parser): Parser {
    p.(flags := NO_FLAGS, length := ULLONG_MAX, state := ResOrRespH, nread := p.nread + 1)
  }

  lemma FirstH(p: Parser, hooks: Hooks)
    requires Good(p) && p.state.StartReqOrRes? && Room(p, 1)
    requires forall q: Parser :: hooks(MessageBegin, q).GoOn?
    ensures OneByte(p, 'H', hooks) == Ran(BegunEither(p), [Note(MessageBegin)], Next, 1) && Good(BegunEither(p))
  {
    EitherDoes(p, 'H', hooks);
    assert hooks(MessageBegin, BegunEither(p)).GoOn?;
  }

  /** "E" makes it HEAD, at the third letter. */
  function Headward(p: Parser): Parser {
    p.(kind := Request, verb := HEAD, index := 2, state := ReqMethod, nread := p.nread + 1)
  }

  lemma SecondLetter(p: Parser, ch: char, hooks: Hooks)
    requires Good(p) && p.state.ResOrRespH? && Room(p, 1)
    ensures var r := OneByte(p, ch, hooks);
            if ch == 'E' then r == Ran(Headward(p), [], Next, 1) && Good(Headward(p))
            else if ch == 'T' then r.exit.Next? && Good(r.p) && r.p.state.ResHT? && r.p.nread == p.nread + 1
            else r.exit.Error?
  {
    FreeDoes(p, ch, hooks);
  }

  predicate InResponseLine(s: State) { InResponseWord(s) || InResponseVersion(s) }

  /** The beginning of a response, as far as there are no spaces. */
  lemma ResponseByte(p: Parser, ch: char, hooks: Hooks)
    requires Good(p) && InResponseLine(p.state) && Room(p, 1)
    ensures var r := OneByte(p, ch, hooks);
            r.exit.Next? ==>
              Good(r.p) && r.p.nread == p.nread + 1 && !r.p.state.ReqSpacesBeforeUrl? && (ch != ' ' ==> InResponseLine(r.p.state))
  {
    ResponseDoes(p, ch, hooks);
    ResponseLineStep(Counted(p), ch);
  }

  function StepResponseLine(p: Parser, ch: char): Step {
    if InResponseWord(p.state) then StepResponseWord(p, ch) else StepResponseVersion(p, ch)
  }

  lemma ResponseDoes(p: Parser, ch: char, hooks: Hooks)
    requires Good(p) && InResponseLine(p.state) && Room(p, 1)
    ensures Does(Bytewise(hooks), p, ch, StepResponseLine(Counted(p), ch))
  {
    ResponseSwitch(Counted(p), ch, hooks);
    FreeDoes(p, ch, hooks);
  }

  lemma ResponseSwitch(p: Parser, ch: char, hooks: Hooks)
    requires InResponseLine(p.state)
    ensures Free(p.state) && SwitchFree(p, ch, hooks) == StepResponseLine(p, ch)
  {
  }

  lemma ResponseLineStep(p: Parser, ch: char)
    requires InResponseLine(p.state)
    ensures var t := StepResponseLine(p, ch);
            t.exit.Next? ==> t.p.nread == p.nread && !t.p.state.ReqSpacesBeforeUrl? && (ch != ' ' ==> InResponseLine(t.p.state))
  {
  }

  /** A response is never taken for a request. */
  lemma {:induction false} ResponseRun(p: Parser, rest: string, hooks: Hooks)
    requires Good(p) && InResponseLine(p.state) && ' ' !in rest && Room(p, |rest| + 1)
    ensures var r := Run(Bytewise(hooks), p, rest + " "); r.exit.Next? ==> !r.p.state.ReqSpacesBeforeUrl?
    decreases |rest|
  {
    if rest == "" {
      ResponseByte(p, ' ', hooks);
      LastByte(Bytewise(hooks), p, ' ', OneByte(p, ' ', hooks));
      assert "" + " " == [' '];
    } else {
      RestGlue("", rest);
      ResponseByte(p, rest[0], hooks);
      var r := OneByte(p, rest[0], hooks);
      if r.exit.Next? { ResponseRun(r.p, rest[1..], hooks); }
    }
  }

  lemma OnlyHead(w: string)
    requires IsMethod(w) && w != "" && w[0] == 'H'
    ensures w == "HEAD"
  {
    var m :| MethodString(m) == w;
    FirstOfMethod(m);
    assert m == HEAD;
  }

  lemma HeadExact(w: string)
    requires w != "" && w[0] == 'H'
    ensures IsMethod(w) <==> w[1..] == "EAD"
    ensures w[1..] == "EAD" ==> w == MethodString(HEAD)
  {
    if IsMethod(w) { OnlyHead(w); }
    assert w == ['H'] + w[1..];
    if w[1..] == "EAD" { assert w == "HEAD" == MethodString(HEAD); }
  }

  /** A word that does not begin with "H": the request that it begins. */
  lemma OtherWord(p: Parser, w: string, hooks: Hooks)
    requires Good(p) && p.state.StartReqOrRes? && Room(p, |w| + 1)
    requires w != "" && ' ' !in w && w[0] != '\r' && w[0] != '\n' && w[0] != 'H'
    requires forall q: Parser :: hooks(MessageBegin, q).GoOn?
    ensures var r := Run(Bytewise(hooks), p, w + " ");
            (r.exit.Next? <==> IsMethod(w)) &&
            (r.exit.Next? ==> r.p.state.ReqSpacesBeforeUrl? && MethodString(r.p.verb) == w)
  {
    FirstOfEither(p, w[0], hooks);
    WordRuns(Bytewise(hooks), p, w);
    match FirstMethod(w[0]) {
      case None => NoMethod(w);
      case Some(m) => OtherRest(BegunRequest(p, m), m, w, hooks);
    }
  }

  /** A word and the space behind it, by its first letter. */
  lemma WordRuns(step: Stepper, p: Parser, w: string)
    requires w != ""
    ensures var r := step(p, w[0]);
            Run(step, p, w + " ") == if r.exit.Next? then Then(r, Run(step, r.p, w[1..] + " ")) else r
  {
    RestGlue("", w);
  }

  lemma NoMethod(w: string)
    requires w != "" && FirstMethod(w[0]).None?
    ensures !IsMethod(w)
  {
    if IsMethod(w) {
      var m :| MethodString(m) == w;
      FirstOfMethod(m);
    }
  }

  /** The rest of the word is accepted if and only if all of it is a method. */
  lemma OtherRest(p: Parser, m: Method, w: string, hooks: Hooks)
    requires w != "" && FirstMethod(w[0]) == Some(m) && Good(p) && Spelling(p, [w[0]]) && p.verb == m
    requires ' ' !in w && Room(p, |w|)
    ensures var r := Run(Bytewise(hooks), p, w[1..] + " ");
            (r.exit.Next? <==> IsMethod(w)) &&
            (r.exit.Next? ==> r.p.state.ReqSpacesBeforeUrl? && MethodString(r.p.verb) == w)
  {
    assert [w[0]] + w[1..] == w;
    AcceptedIsMethod(p, [w[0]], w[1..], hooks);
    if IsMethod(w) {
      var n :| MethodString(n) == w;
      FirstOfMethod(n);
      MethodIsAccepted(p, n, 1, hooks);
    }
  }

  /** A word that begins with "H", behind that letter. */
  lemma HWord(p: Parser, rest: string, hooks: Hooks)
    requires Good(p) && p.state.ResOrRespH? && Room(p, |rest| + 1) && ' ' !in rest
    ensures var r := Run(Bytewise(hooks), p, rest + " ");
            (r.exit.Next? && r.p.state.ReqSpacesBeforeUrl? <==> rest == "EAD") &&
            (rest == "EAD" ==> r.p.verb == HEAD)
  {
    if rest == "" {
      SecondLetter(p, ' ', hooks);
      LastByte(Bytewise(hooks), p, ' ', OneByte(p, ' ', hooks));
      assert rest + " " == [' '];
    } else {
      SecondLetter(p, rest[0], hooks);
      WordRuns(Bytewise(hooks), p, rest);
      RestGlue("", rest);
      var q := OneByte(p, rest[0], hooks).p;
      if rest[0] == 'T' {
        ResponseRun(q, rest[1..], hooks);
      } else if rest[0] == 'E' {
        HeadRest(q, rest[1..], hooks);
        assert rest == ['E'] + rest[1..];
      }
    }
  }

  /** Behind "HE", only "AD". */
  lemma HeadRest(p: Parser, rest: string, hooks: Hooks)
    requires Good(p) && Leading(p, HEAD, 2) && Room(p, |rest| + 1) && ' ' !in rest
    ensures var r := Run(Bytewise(hooks), p, rest + " ");
            (r.exit.Next? && r.p.state.ReqSpacesBeforeUrl? <==> rest == "AD") && (rest == "AD" ==> r.p.verb == HEAD)
  {
    AcceptedIsMethod(p, "HE", rest, hooks);
    HeadOnly(rest);
    if rest == "AD" {
      assert rest == MethodString(HEAD)[2..];
      MethodIsAccepted(p, HEAD, 2, hooks);
    }
  }

  lemma HeadOnly(rest: string)
    ensures IsMethod("HE" + rest) ==> rest == "AD"
  {
    if IsMethod("HE" + rest) {
      OnlyHead("HE" + rest);
      assert rest == ("HE" + rest)[2..] == "AD";
    }
  }

  /** Also where a response may begin: a word followed by a space is taken for
      a request if and only if it is one of the 26 methods, which is the one
      reported. */
  lemma MethodsExactEither(p: Parser, w: string, hooks: Hooks)
    requires Good(p) && p.state.StartReqOrRes? && Room(p, |w| + 1)
    requires w != "" && ' ' !in w && w[0] != '\r' && w[0] != '\n'
    requires forall q: Parser :: hooks(MessageBegin, q).GoOn?
    ensures var r := Run(Bytewise(hooks), p, w + " ");
            (r.exit.Next? && r.p.state.ReqSpacesBeforeUrl? <==> IsMethod(w)) &&
            (IsMethod(w) ==> MethodString(r.p.verb) == w)
  {
    if w[0] != 'H' {
      OtherWord(p, w, hooks);
    } else {
      FirstH(p, hooks);
      RestGlue("", w);
      HWord(BegunEither(p), w[1..], hooks);
      HeadExact(w);
    }
  }

  // ------------------------------------------------------------ header names

  predicate IsToken(s: string) { forall c <- s :: Token(c) != '\0' }

  function Lowered(s: string): (r: string)
    ensures |r| == |s|
  {
    seq(|s|, i requires 0 <= i < |s| => Token(s[i]))
  }

  /** What a header name is to the parser, given the letters read so far. */
  function Known(s: string): HeaderKind {
    if s == "connection" || s == "proxy-connection" then Connection
    else if s == "content-length" then ContentLength
    else if s == "transfer-encoding" then TransferEncoding
    else if s == "upgrade" then Upgrade
    else if s == "c" then H_C
    else if s == "co" then H_CO
    else if s == "con" then H_CON
    else if s <= "connection" then MatchingConnection
    else if s <= "content-length" then MatchingContentLength
    else if s <= "proxy-connection" then MatchingProxyConnection
    else if s <= "transfer-encoding" then MatchingTransferEncoding
    else if s <= "upgrade" then MatchingUpgrade
    else General
  }

  /** Two words differ at `k`: what begins the one and goes past `k` does not
      begin the other. */
  lemma Differ(v: string, w: string, k: nat, s: string)
    requires k < |v| && k < |w| && v[k] != w[k] && s <= v && k < |s|
    ensures !(s <= w)
  {
    assert s[k] == v[k];
  }

  lemma Initial(s: string, w: string)
    requires s != "" && w != ""
    ensures s <= w ==> s[0] == w[0]
  {
  }

  /** A text that begins one of the words begins no other, unless it is at most
      the common "con". */
  lemma Apart(s: string)
    requires s != ""
    ensures s <= "connection" && s <= "content-length" ==> |s| <= 3
    ensures s <= "proxy-connection" ==> !(s <= "connection") && !(s <= "content-length") && !(s <= "transfer-encoding") && !(s <= "upgrade")
    ensures s <= "transfer-encoding" ==> !(s <= "connection") && !(s <= "content-length") && !(s <= "upgrade")
    ensures s <= "upgrade" ==> !(s <= "connection") && !(s <= "content-length")
  {
    if s <= "connection" && |s| > 3 { Differ("connection", "content-length", 3, s); }
    Initial(s, "connection");
    Initial(s, "content-length");
    Initial(s, "proxy-connection");
    Initial(s, "transfer-encoding");
    Initial(s, "upgrade");
  }

  lemma Short(s: string)
    requires s <= "connection" || s <= "content-length"
    ensures |s| == 1 <==> s == "c"
    ensures |s| == 2 <==> s == "co"
    ensures |s| == 3 <==> s == "con"
    ensures |s| <= 3 ==> s <= "connection" && s <= "content-length"
  {
  }

  /** Reading one more letter of a name. */
  lemma KnownStep(s: string, ch: char, c: char)
    requires s != "" && c == Token(ch) && c != '\0'
    ensures Known(s + [c]) == NameChar(Known(s), |s|, ch, c)
  {
    Apart(s);
    Apart(s + [c]);
    PrefixSnoc("connection", s, c);
    PrefixSnoc("content-length", s, c);
    PrefixSnoc("proxy-connection", s, c);
    PrefixSnoc("transfer-encoding", s, c);
    PrefixSnoc("upgrade", s, c);
    WholeWords(s);
    WholeWords(s + [c]);
    if s <= "connection" || s <= "content-length" { KnownC(s, ch, c); }
  }

  /** "connection" and "content-length", which begin alike. */
  lemma KnownC(s: string, ch: char, c: char)
    requires s != "" && c == Token(ch) && c != '\0' && (s <= "connection" || s <= "content-length")
    ensures Known(s + [c]) == NameChar(Known(s), |s|, ch, c)
  {
    Apart(s);
    Apart(s + [c]);
    Short(s);
    if s + [c] <= "connection" || s + [c] <= "content-length" { Short(s + [c]); }
    PrefixSnoc("connection", s, c);
    PrefixSnoc("content-length", s, c);
    PrefixSnoc("proxy-connection", s, c);
    PrefixSnoc("transfer-encoding", s, c);
    PrefixSnoc("upgrade", s, c);
    WholeWords(s);
    WholeWords(s + [c]);
  }

  lemma WholeWords(s: string)
    ensures s == "connection" <==> s <= "connection" && |s| == 10
    ensures s == "content-length" <==> s <= "content-length" && |s| == 14
    ensures s == "proxy-connection" <==> s <= "proxy-connection" && |s| == 16
    ensures s == "transfer-encoding" <==> s <= "transfer-encoding" && |s| == 17
    ensures s == "upgrade" <==> s <= "upgrade" && |s| == 7
  {
  }

  /** The name read so far is `s`, in lower case. */
  predicate Naming(p: Parser, s: string) {
    p.state.HeaderField? && s != "" && p.header == Known(s) && (Counts(p.header) ==> p.index == |s| - 1)
  }

  function NameBegun(p: Parser, c: char): Parser {
    p.(index := 0, state := HeaderField, header := FirstNameChar(c), nread := p.nread + 1)
  }

  lemma FirstNameByte(p: Parser, ch: char, hooks: Hooks)
    requires Good(p) && p.state.HeaderFieldStart? && Room(p, 1) && Token(ch) != '\0'
    ensures OneByte(p, ch, hooks) == Ran(NameBegun(p, Token(ch)), [Piece(Field, [ch])], Next, 1)
    ensures Good(NameBegun(p, Token(ch)))
  {
    FieldStartDoes(p, ch, hooks);
    FirstNameStep(Bytewise(hooks), p, ch, hooks);
  }

  lemma FirstNameStep(step: Stepper, p: Parser, ch: char, hooks: Hooks)
    requires Good(p) && p.state.HeaderFieldStart? && Token(ch) != '\0'
    requires Does(step, p, ch, StepHeaderFieldStart(Counted(p), ch, hooks))
    ensures step(p, ch) == Ran(NameBegun(p, Token(ch)), [Piece(Field, [ch])], Next, 1)
    ensures Good(NameBegun(p, Token(ch)))
  {
  }

  lemma NameBegins(p: Parser, c: char)
    ensures Naming(NameBegun(p, c), [c])
  {
    KnownFirst(c);
  }

  lemma KnownFirst(c: char)
    ensures Known([c]) == FirstNameChar(c)
  {
    var s := [c];
    Apart(s);
    WholeWords(s);
    PrefixSnoc("connection", "", c);
    PrefixSnoc("content-length", "", c);
    PrefixSnoc("proxy-connection", "", c);
    PrefixSnoc("transfer-encoding", "", c);
    PrefixSnoc("upgrade", "", c);
    assert "" + s == s;
  }

  lemma NameByte(p: Parser, s: string, ch: char, hooks: Hooks)
    requires Good(p) && Naming(p, s) && Room(p, 1) && Token(ch) != '\0'
    ensures var r := OneByte(p, ch, hooks);
            r == Ran(r.p, [Piece(Field, [ch])], Next, 1) && Good(r.p) && r.p.nread == p.nread + 1 && Naming(r.p, s + [Token(ch)])
  {
    FieldDoes(p, ch, hooks);
    KnownStep(s, ch, Token(ch));
  }

  lemma NameColon(p: Parser, hooks: Hooks)
    requires Good(p) && p.state.HeaderField? && Room(p, 1)
    ensures var q := p.(state := HeaderValueStart, nread := p.nread + 1);
            OneByte(p, ':', hooks) == Ran(q, [Piece(Field, "")], Next, 1) && Good(q)
  {
    FieldDoes(p, ':', hooks);
  }
}
