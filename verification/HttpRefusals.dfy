/** What the HTTP parser refuses, byte by byte and number by number, and what
  becomes of the callbacks' answers. */
module HttpRefusals {
  import opened Common
  import opened HttpTypes
  import opened HttpStep
  import opened HttpRun
  import opened HttpFraming
  import opened HttpLength
  import opened HttpLine

  // ------------------------------------------------------------------ tables

  /** The entries of `tokens` for eight characters; NUL where there is none. */
  function TokenRow(k: nat): (r: string)
    ensures |r| == 8
  {
    if k == 4 then "\0!\0#$%&'"
    else if k == 5 then "\0\0*+\0-.\0"
    else if k == 6 then "01234567"
    else if k == 7 then "89\0\0\0\0\0\0"
    else if k == 8 then "\0abcdefg"
    else if k == 9 || k == 13 then "hijklmno"
    else if k == 10 || k == 14 then "pqrstuvw"
    else if k == 11 then "xyz\0\0\0^_"
    else if k == 12 then "`abcdefg"
    else if k == 15 then "xyz\0|\0~\0"
    else "\0\0\0\0\0\0\0\0"
  }

  function TokenText(c: char): char { TokenRow(c as int / 8)[c as int % 8] }

  lemma TokenExact(c: char)
    ensures Token(c) == TokenText(c)
  {
    var k, b := c as int / 8, c as int % 8;
    assert c as int == 8 * k + b;
    TokenAt(c, k, b);
  }

  lemma TokenAt(c: char, k: nat, b: nat)
    requires c as int == 8 * k + b && b < 8
    ensures Token(c) == TokenRow(k)[b]
  {
  }

  const SMALL_HEX: string := "0123456789abcdef"
  const CAPITAL_HEX: string := "0123456789ABCDEF"

  /** The digits count from 0 to 15; above ASCII the table has zeros. */
  lemma UnhexExact(c: char)
    ensures forall v :: 0 <= v < 16 && (SMALL_HEX[v] == c || CAPITAL_HEX[v] == c) ==> Unhex(c) == v
    ensures c !in SMALL_HEX && c !in CAPITAL_HEX ==> Unhex(c) == if c as int < 128 then -1 else 0
  {
  }

  const CAPITALS: string := "ABCDEFGHIJKLMNOPQRSTUVWXYZ"
  const LETTERS: string := "abcdefghijklmnopqrstuvwxyz"

  /** Capitals become small letters; of the rest, what comes to be compared with
      is itself. */
  lemma LowerExact(v: nat, c: char)
    requires v < 26
    ensures Lower(CAPITALS[v]) == LETTERS[v] && Lower(LETTERS[v]) == LETTERS[v]
    ensures c in "0123456789-" ==> Lower(c) == c
  {
    LettersRow(v);
  }

  lemma LettersRow(v: nat)
    requires v < 26
    ensures CAPITALS[v] as int == 65 + v && LETTERS[v] as int == 97 + v
  {
  }

  // ------------------------------------------------------------- single bytes

  /** The characters awaited in the states that await a few, and what any other
      is refused with. */
  function Awaited(s: State): Option<(string, Errno)> {
    if s.Dead? then Some(("\r\n", ClosedConnection))
    else if s.ResOrRespH? then Some(("TE", InvalidConstant))
    else if s.StartRes? then Some(("H\r\n", InvalidConstant))
    else if s.ReqHttpStart? then Some(("H ", InvalidConstant))
    else if s.ResH? || s.ResHT? || s.ReqHttpH? || s.ReqHttpHT? then Some(("T", Strict))
    else if s.ResHTT? || s.ReqHttpHTT? then Some(("P", Strict))
    else if s.ResHTTP? || s.ReqHttpHTTP? then Some(("/", Strict))
    else if s.ReqFirstMajor? then Some(("123456789", InvalidVersion))
    else if s.ResFirstMajor? || s.ReqFirstMinor? || s.ResFirstMinor? then Some(("0123456789", InvalidVersion))
    else if s.ReqMajor? || s.ResMajor? then Some((".0123456789", InvalidVersion))
    else if s.ReqMinor? then Some(("\r\n0123456789", InvalidVersion))
    else if s.ResMinor? then Some((" 0123456789", InvalidVersion))
    else if s.ResFirstStatusCode? then Some((" 0123456789", InvalidStatus))
    else if s.ResStatusCode? then Some((" \r\n0123456789", InvalidStatus))
    else if s.ReqLineAlmostDone? then Some(("\n", LfExpected))
    else if s.ResLineAlmostDone? || s.HeaderAlmostDone? || s.HeadersAlmostDone? || s.HeadersDone? then Some(("\n", Strict))
    else if s.ChunkSizeAlmostDone? || s.ChunkDataDone? then Some(("\n", Strict))
    else if s.ChunkDataAlmostDone? then Some(("\r", Strict))
    else None
  }

  /** The number being read, if any. */
  function NumberRead(p: Parser): nat {
    if p.state.ReqMajor? || p.state.ResMajor? then p.major
    else if p.state.ReqMinor? || p.state.ResMinor? then p.minor
    else if p.state.ResStatusCode? then p.status
    else 0
  }

  /** A digit that makes a number too long. */
  predicate TooLong(p: Parser, ch: char) { '0' <= ch <= '9' && NumberRead(p) * 10 + (ch as int - 48) > 999 }

  function Expected(p: Parser, ch: char): Errno
    requires Awaited(p.state).Some?
  {
    var (chars, e) := Awaited(p.state).value; if ch !in chars || TooLong(p, ch) then e else Ok
  }

  lemma WordRefuses(p: Parser, ch: char, hooks: Hooks)
    requires p.errno.Ok? && (InRequestWord(p.state) || InResponseWord(p.state))
    ensures Awaited(p.state).Some? && SwitchLine(p, ch, hooks).p.errno == Expected(p, ch)
  {
  }

  /** What is awaited where a number begins, and within it. */
  lemma DigitsAwaited(ch: char)
    ensures ch in "0123456789" <==> '0' <= ch <= '9'
    ensures ch in "123456789" <==> '1' <= ch <= '9'
    ensures ch in ".0123456789" <==> ch == '.' || '0' <= ch <= '9'
    ensures ch in " 0123456789" <==> ch == ' ' || '0' <= ch <= '9'
  {
  }

  lemma LineEndAwaited(ch: char)
    ensures ch in "\r\n0123456789" <==> ch == '\r' || ch == '\n' || '0' <= ch <= '9'
    ensures ch in " \r\n0123456789" <==> ch == ' ' || ch == '\r' || ch == '\n' || '0' <= ch <= '9'
  {
  }

  lemma FirstMajorRefuses(p: Parser, ch: char, hooks: Hooks)
    requires p.errno.Ok? && (p.state.ReqFirstMajor? || p.state.ResFirstMajor?)
    ensures Awaited(p.state).Some? && SwitchLine(p, ch, hooks).p.errno == Expected(p, ch)
  {
    DigitsAwaited(ch);
  }

  lemma FirstMinorRefuses(p: Parser, ch: char, hooks: Hooks)
    requires p.errno.Ok? && (p.state.ReqFirstMinor? || p.state.ResFirstMinor?)
    ensures Awaited(p.state).Some? && SwitchLine(p, ch, hooks).p.errno == Expected(p, ch)
  {
    DigitsAwaited(ch);
  }

  lemma MajorRefuses(p: Parser, ch: char, hooks: Hooks)
    requires p.errno.Ok? && (p.state.ReqMajor? || p.state.ResMajor?)
    ensures Awaited(p.state).Some? && SwitchLine(p, ch, hooks).p.errno == Expected(p, ch)
  {
    DigitsAwaited(ch);
  }

  lemma MinorRefuses(p: Parser, ch: char, hooks: Hooks)
    requires p.errno.Ok? && (p.state.ReqMinor? || p.state.ReqLineAlmostDone?)
    ensures Awaited(p.state).Some? && SwitchLine(p, ch, hooks).p.errno == Expected(p, ch)
  {
    LineEndAwaited(ch);
  }

  lemma ResponseMinorRefuses(p: Parser, ch: char, hooks: Hooks)
    requires p.errno.Ok? && p.state.ResMinor?
    ensures Awaited(p.state).Some? && SwitchLine(p, ch, hooks).p.errno == Expected(p, ch)
  {
    DigitsAwaited(ch);
  }

  lemma FirstCodeRefuses(p: Parser, ch: char, hooks: Hooks)
    requires p.errno.Ok? && p.state.ResFirstStatusCode?
    ensures SwitchLine(p, ch, hooks).p.errno == Expected(p, ch)
  {
    DigitsAwaited(ch);
  }

  lemma CodeRefuses(p: Parser, ch: char, hooks: Hooks)
    requires p.errno.Ok? && p.state.ResStatusCode?
    ensures SwitchLine(p, ch, hooks).p.errno == Expected(p, ch)
  {
    LineEndAwaited(ch);
  }

  lemma PhraseRefuses(p: Parser, ch: char, hooks: Hooks)
    requires p.errno.Ok? && Calm(hooks) && (p.state.ResStatus? || p.state.ResLineAlmostDone?)
    ensures SwitchLine(p, ch, hooks).p.errno == if p.state.ResStatus? then Ok else Expected(p, ch)
  {
  }

  /** Besides the characters of a name, what may stand in it, or in its place. */
  function Marks(s: State): string {
    if s.HeaderField? then ":\r\n" else if s.HeaderValueLws? then " \t\r\n" else "\r\n"
  }

  predicate HexText(c: char) { c in SMALL_HEX || c in CAPITAL_HEX || c as int >= 128 }

  /** In 64 bits, and the test for an overflow. */
  function Wrapped(v: nat, base: nat, d: nat): nat { (v * base + d) % 0x1_0000_0000_0000_0000 }

  predicate Wraps(v: nat, base: nat, d: nat) {
    Wrapped(v, base, d) < v || Wrapped(v, base, d) == 0xffff_ffff_ffff_ffff
  }

  /** What a byte is refused with in the states that await no few characters. */
  function Otherwise(p: Parser, ch: char): Errno {
    if p.state.HeaderFieldStart? || p.state.HeaderField? || p.state.HeaderValueLws? then
      if TokenText(ch) != '\0' || ch in Marks(p.state) then Ok else InvalidHeaderToken
    else if p.state.HeaderValueStart? && p.header.ContentLength? then
      if ch in " \t\r\n0123456789" then Ok else InvalidContentLength
    else if p.state.HeaderValue? && p.header.ContentLength? then
      if ch in " \r\n" || ('0' <= ch <= '9' && !Wraps(p.length, 10, ch as int - 48)) then Ok else InvalidContentLength
    else if p.state.ChunkSizeStart? then if HexText(ch) then Ok else InvalidChunkSize
    else if p.state.ChunkSize? then
      if ch in "\r; " then Ok
      else if !HexText(ch) then InvalidChunkSize
      else if Wraps(p.length, 16, Unhex(ch)) then InvalidContentLength
      else Ok
    else Ok
  }

  lemma FieldStartRefuses(p: Parser, ch: char, hooks: Hooks)
    requires p.errno.Ok? && Calm(hooks) && p.state.HeaderFieldStart?
    ensures StepHeaderFieldStart(p, ch, hooks).p.errno == Otherwise(p, ch)
  {
    TokenExact(ch);
  }

  lemma LwsRefuses(p: Parser, ch: char, hooks: Hooks)
    requires p.errno.Ok? && Calm(hooks) && p.state.HeaderValueLws?
    ensures StepHeaderValueLws(p, ch, hooks).p.errno == Otherwise(p, ch)
  {
    FieldStartRefuses(To(p, HeaderFieldStart), ch, hooks);
  }

  lemma FieldRefuses(p: Parser, ch: char)
    requires p.errno.Ok? && p.state.HeaderField?
    ensures StepHeaderField(p, ch).p.errno == Otherwise(p, ch)
  {
    TokenExact(ch);
  }

  lemma ValueStartRefuses(p: Parser, ch: char)
    requires p.errno.Ok? && p.state.HeaderValueStart?
    ensures StepHeaderValueStart(p, ch).p.errno == Otherwise(p, ch)
  {
  }

  lemma ValueRefuses(p: Parser, ch: char)
    requires p.errno.Ok? && p.state.HeaderValue?
    ensures StepHeaderValue(p, ch).p.errno == Otherwise(p, ch)
  {
  }

  lemma FirstSizeRefuses(p: Parser, ch: char)
    requires p.errno.Ok? && p.state.ChunkSizeStart?
    ensures StepChunkHeader(p, ch).p.errno == Otherwise(p, ch)
  {
    UnhexExact(ch);
  }

  lemma SizeRefuses(p: Parser, ch: char)
    requires p.errno.Ok? && p.state.ChunkSize?
    ensures StepChunkSize(p, ch).p.errno == Otherwise(p, ch)
  {
    HexExact(ch);
  }

  /** What the table says of it. */
  lemma HexExact(ch: char)
    ensures Unhex(ch) != -1 <==> HexText(ch)
    ensures ch in "\r; " ==> !HexText(ch)
  {
    UnhexExact(ch);
  }

  /** The states of which methods and targets say when they refuse a byte. */
  predicate Elsewhere(s: State) {
    s.StartReq? || s.StartReqOrRes? || s.ReqMethod? || s.ReqSpacesBeforeUrl? || InUrl(s)
  }

  function Refusal(p: Parser, ch: char): Errno {
    if Awaited(p.state).Some? then Expected(p, ch) else Otherwise(p, ch)
  }

  lemma FreeRefuses(p: Parser, ch: char, hooks: Hooks)
    requires p.errno.Ok? && Calm(hooks) && Free(p.state) && !OnLine(p.state) && !Elsewhere(p.state)
    ensures SwitchFree(p, ch, hooks).p.errno == Refusal(p, ch)
  {
    if p.state.HeaderFieldStart? {
      FieldStartRefuses(p, ch, hooks);
    } else if p.state.HeaderValueLws? {
      LwsRefuses(p, ch, hooks);
    } else if p.state.HeaderValueStart? {
      ValueStartRefuses(p, ch);
    }
  }

  lemma ChunkRefuses(p: Parser, ch: char)
    requires p.errno.Ok? && InChunks(p.state) && (p.state.ChunkSizeStart? ==> p.nread == 1)
    requires (p.state.ChunkData? ==> p.length != 0 && p.length != ULLONG_MAX) && (p.state.ChunkDataAlmostDone? ==> p.length == 0)
    ensures SwitchChunked(p, ch).p.errno == Refusal(p, ch)
  {
    if p.state.ChunkSizeStart? || p.state.ChunkSize? {
      AnySizeRefuses(p, ch);
    } else if p.state.ChunkParameters? || p.state.ChunkSizeAlmostDone? {
      SizeEndRefuses(p, ch);
    } else {
      DataRefuses(p, ch);
    }
  }

  lemma AnySizeRefuses(p: Parser, ch: char)
    requires p.errno.Ok? && (p.state.ChunkSizeStart? || p.state.ChunkSize?)
    ensures StepChunkHeader(p, ch).p.errno == Otherwise(p, ch) && Awaited(p.state).None?
  {
    if p.state.ChunkSizeStart? { FirstSizeRefuses(p, ch); } else { SizeRefuses(p, ch); }
  }

  lemma DataRefuses(p: Parser, ch: char)
    requires p.errno.Ok? && (p.state.ChunkData? || p.state.ChunkDataAlmostDone? || p.state.ChunkDataDone?)
    requires (p.state.ChunkData? ==> p.length != 0 && p.length != ULLONG_MAX) && (p.state.ChunkDataAlmostDone? ==> p.length == 0)
    ensures SwitchChunked(p, ch).p.errno == Refusal(p, ch)
  {
  }

  lemma SizeEndRefuses(p: Parser, ch: char)
    requires p.errno.Ok? && (p.state.ChunkParameters? || p.state.ChunkSizeAlmostDone?)
    ensures StepChunkHeader(p, ch).p.errno == Refusal(p, ch)
  {
  }

  lemma BusyRefuses(p: Parser, ch: char, hooks: Hooks)
    requires Good(p) && Calm(hooks) && !Free(p.state) && !Elsewhere(p.state)
    ensures SwitchBusy(p, ch, hooks).p.errno == Refusal(Counted(p), ch)
  {
    if InChunks(p.state) {
      InChunksBusy(p, ch, hooks);
      ChunkRefuses(Counted(p), ch);
    } else if p.state.BodyIdentity? {
      assert Otherwise(p, ch) == Ok;
    } else if p.state.HeaderField? {
      NameRefuses(p, ch, hooks);
    } else {
      TextRefuses(p, ch, hooks);
    }
  }

  lemma NameRefuses(p: Parser, ch: char, hooks: Hooks)
    requires Good(p) && p.state.HeaderField?
    ensures SwitchBusy(p, ch, hooks).p.errno == Refusal(Counted(p), ch)
  {
    FieldRefuses(Counted(p), ch);
    NameBusy(p, ch, hooks);
  }

  lemma NameBusy(p: Parser, ch: char, hooks: Hooks)
    requires Good(p) && p.state.HeaderField?
    ensures SwitchBusy(p, ch, hooks) == StepHeaderField(Counted(p), ch) && Awaited(p.state).None? && Counted(p).errno.Ok?
  {
  }

  lemma TextRefuses(p: Parser, ch: char, hooks: Hooks)
    requires Good(p) && p.state.HeaderValue?
    ensures SwitchBusy(p, ch, hooks).p.errno == Refusal(Counted(p), ch)
  {
    ValueRefuses(Counted(p), ch);
  }

  lemma InChunksBusy(p: Parser, ch: char, hooks: Hooks)
    requires Good(p) && InChunks(p.state)
    ensures var q := Counted(p);
            q.errno.Ok? && q.state == p.state && (p.state.ChunkSizeStart? ==> q.nread == 1) &&
            (p.state.ChunkData? ==> q.length != 0 && q.length != ULLONG_MAX) && (p.state.ChunkDataAlmostDone? ==> q.length == 0) &&
            SwitchBusy(p, ch, hooks) == SwitchChunked(q, ch)
  {
  }

  lemma VersionRefuses(p: Parser, ch: char, hooks: Hooks)
    requires p.errno.Ok? && (InRequestVersion(p.state) || InResponseVersion(p.state))
    ensures Awaited(p.state).Some? && SwitchLine(p, ch, hooks).p.errno == Expected(p, ch)
  {
    if p.state.ReqMajor? || p.state.ResMajor? {
      MajorRefuses(p, ch, hooks);
    } else if p.state.ReqMinor? || p.state.ReqLineAlmostDone? {
      MinorRefuses(p, ch, hooks);
    } else if p.state.ResMinor? {
      ResponseMinorRefuses(p, ch, hooks);
    } else if p.state.ReqFirstMinor? || p.state.ResFirstMinor? {
      FirstMinorRefuses(p, ch, hooks);
    } else {
      FirstMajorRefuses(p, ch, hooks);
    }
  }

  lemma LineRefuses(p: Parser, ch: char, hooks: Hooks)
    requires p.errno.Ok? && Calm(hooks) && OnLine(p.state)
    ensures SwitchLine(p, ch, hooks).p.errno == Refusal(p, ch)
  {
    if InRequestWord(p.state) || InResponseWord(p.state) {
      WordRefuses(p, ch, hooks);
    } else if p.state.ResFirstStatusCode? {
      FirstCodeRefuses(p, ch, hooks);
    } else if p.state.ResStatusCode? {
      CodeRefuses(p, ch, hooks);
    } else if p.state.ResStatus? || p.state.ResLineAlmostDone? {
      PhraseRefuses(p, ch, hooks);
    } else {
      VersionRefuses(p, ch, hooks);
    }
  }

  lemma CountedRefusal(p: Parser, ch: char)
    ensures Refusal(Counted(p), ch) == Refusal(p, ch)
  {
  }

  /** With callbacks that let everything pass, a byte is refused if and only if
      it is not one of those awaited, or it makes a number too long. */
  lemma RefusedExact(p: Parser, ch: char, hooks: Hooks)
    requires Good(p) && Calm(hooks) && !Elsewhere(p.state)
    ensures Advance(p, ch, hooks).p.errno ==
            if ParsingHeader(p.state) && p.nread >= 81920 then HeaderOverflow else Refusal(p, ch)
  {
    CountedRefusal(p, ch);
    if OnLine(p.state) {
      LineSwitch(Counted(p), ch, hooks);
      LineRefuses(Counted(p), ch, hooks);
    } else if Free(p.state) {
      FreeRefuses(Counted(p), ch, hooks);
    } else {
      BusyRefuses(p, ch, hooks);
    }
  }

  /** The first letters of the methods. */
  const INITIALS: string := "CDGHLMNOPRSTU"

  lemma StartRefuses(p: Parser, ch: char, hooks: Hooks)
    requires p.errno.Ok? && Calm(hooks)
    ensures StepStartReq(p, ch, hooks).p.errno == if ch in INITIALS || ch in "\r\n" then Ok else InvalidMethod
  {
  }

  lemma EitherRefuses(p: Parser, ch: char, hooks: Hooks)
    requires p.errno.Ok? && Calm(hooks)
    ensures StepStartReqOrRes(p, ch, hooks).p.errno == if ch in INITIALS || ch in "\r\n" then Ok else InvalidMethod
  {
    if ch != 'H' && ch != '\r' && ch != '\n' {
      StartRefuses(p.(flags := NO_FLAGS, length := ULLONG_MAX, kind := Request, state := StartReq), ch, hooks);
    }
  }

  lemma MethodRefuses(p: Parser, ch: char)
    requires p.errno.Ok?
    ensures var e := StepMethod(p, ch).p.errno; e.Ok? || e == InvalidMethod
  {
  }

  lemma UrlRefuses(p: Parser, ch: char)
    requires p.errno.Ok?
    ensures var e := StepUrl(p, ch).p.errno; e.Ok? || e == InvalidUrl
  {
  }

  /** The error, if there is one, where methods and targets decide. */
  lemma ElsewhereRefuses(p: Parser, ch: char, hooks: Hooks)
    requires Good(p) && Calm(hooks) && Elsewhere(p.state) && p.nread < 81920
    ensures var e := Advance(p, ch, hooks).p.errno;
            if p.state.StartReq? || p.state.StartReqOrRes? then e == if ch in INITIALS || ch in "\r\n" then Ok else InvalidMethod
            else if p.state.ReqMethod? then e.Ok? || e == InvalidMethod
            else e.Ok? || e == InvalidUrl
  {
    if p.state.StartReq? {
      StartRefuses(Counted(p), ch, hooks);
    } else if p.state.StartReqOrRes? {
      EitherRefuses(Counted(p), ch, hooks);
    } else if p.state.ReqMethod? {
      MethodRefuses(Counted(p), ch);
    } else {
      assert Advance(p, ch, hooks) == StepUrl(Counted(p), ch);
      UrlRefuses(Counted(p), ch);
    }
  }

  // ------------------------------------------------------- numbers that wrap

  /** A length or a size, as long as the value fits. */
  predicate Figures(s: string) { forall c <- s :: IsNum(c) || c == ' ' }

  /** The digits of a length; spaces behind its first digit are passed over. */
  function Spaceless(s: string): (d: string)
    ensures Figures(s) ==> Digits(d)
  {
    if s == "" then "" else (if s[0] == ' ' then "" else [s[0]]) + Spaceless(s[1..])
  }

  /** The outcome of a byte that is counted and reported. */
  ghost predicate Counts(r: Ran, p: Parser, length: nat, ch: char) {
    r == Ran(Sized(p, length, 1), [Piece(Value, [ch])], Next, 1) && Good(r.p)
  }

  /** Within the value of a length, with room for `n` more bytes. */
  predicate InLength(p: Parser, n: nat) {
    Good(p) && p.state.HeaderValue? && p.header.ContentLength? && Room(p, n) && p.length < ULLONG_MAX
  }

  /** What becomes of a digit or a space there. */
  ghost predicate StepsLength(r: Ran, p: Parser, ch: char)
    requires IsNum(ch) || ch == ' '
  {
    if ch == ' ' then Counts(r, p, p.length, ch)
    else if Wraps(p.length, 10, NumValue(ch)) then !r.exit.Next?
    else Counts(r, p, Wrapped(p.length, 10, NumValue(ch)), ch)
  }

  lemma LengthStepOf(step: Stepper, p: Parser, ch: char)
    requires InLength(p, 1) && (IsNum(ch) || ch == ' ') && Does(step, p, ch, StepHeaderValue(Counted(p), ch))
    ensures StepsLength(step(p, ch), p, ch)
  {
  }

  ghost predicate Lengthwise(step: Stepper) {
    forall p: Parser, ch: char {:trigger step(p, ch)} :: InLength(p, 1) && (IsNum(ch) || ch == ' ') ==> StepsLength(step(p, ch), p, ch)
  }

  lemma LengthSteps(hooks: Hooks)
    ensures Lengthwise(Bytewise(hooks))
  {
    var step := Bytewise(hooks);
    forall p: Parser, ch: char {:trigger step(p, ch)} | InLength(p, 1) && (IsNum(ch) || ch == ' ')
      ensures StepsLength(step(p, ch), p, ch)
    {
      ValueDoes(p, ch, hooks);
      LengthStepOf(step, p, ch);
    }
  }

  lemma FitsExactly(v: nat, base: nat, d: nat)
    requires base >= 1 && v * base + d < ULLONG_MAX
    ensures !Wraps(v, base, d) && Wrapped(v, base, d) == v * base + d
  {
    assert v <= v * base;
  }

  lemma NeverReserved(v: nat, base: nat, d: nat)
    requires !Wraps(v, base, d)
    ensures Wrapped(v, base, d) < ULLONG_MAX
  {
  }

  /** What a length is read as: its value if that fits, and at any rate less
      than the reserved one. */
  predicate ReadsAs(r: Ran, value: nat) {
    (r.exit.Next? ==> r.p.length < ULLONG_MAX) && (value < ULLONG_MAX ==> r.exit.Next? && r.p.length == value)
  }

  /** A run by its first byte. */
  lemma FirstOf(step: Stepper, p: Parser, ch: char, s: string)
    ensures var r, t := Run(step, p, [ch] + s), step(p, ch);
            if t.exit.Next? then (var m := Run(step, t.p, s); r.p == m.p && r.exit == m.exit) else r == t
  {
    assert ([ch] + s)[1..] == s;
  }

  /** The same, which the comparison keeps the verifier from taking apart. */
  predicate ReadAs(r: Ran, value: nat) { ReadsAs(r, value) == true }

  lemma FigureGlue(v: nat, s: string)
    requires s != "" && Figures(s)
    ensures s == [s[0]] + s[1..] && Figures(s[1..]) && (IsNum(s[0]) || s[0] == ' ')
    ensures Numeral(v, 10, Spaceless(s)) == Numeral(if s[0] == ' ' then v else v * 10 + NumValue(s[0]), 10, Spaceless(s[1..]))
  {
    assert s[0] in s && forall c <- s[1..] :: c in s;
    if s[0] == ' ' {
      assert Spaceless(s) == Spaceless(s[1..]) by { NothingFirst(Spaceless(s[1..])); }
    } else {
      OneDigit(v, s[0], Spaceless(s[1..]));
    }
  }

  lemma OneDigit(v: nat, c: char, s: string)
    requires IsNum(c) && Digits(s)
    ensures Digits([c] + s) && Numeral(v, 10, [c] + s) == Numeral(v * 10 + NumValue(c), 10, s)
  {
    DigitValue(c);
    assert ([c] + s)[1..] == s;
  }

  lemma {:induction false} LengthReads(step: Stepper, p: Parser, s: string)
    requires Lengthwise(step) && InLength(p, |s|) && Figures(s)
    ensures ReadAs(Run(step, p, s), Numeral(p.length, 10, Spaceless(s)))
    decreases |s|
  {
    if s != "" {
      FigureGlue(p.length, s);
      assert StepsLength(step(p, s[0]), p, s[0]);
      if step(p, s[0]).exit.Next? {
        FigureStays(step(p, s[0]), p, s[0], |s| - 1);
        LengthReads(step, step(p, s[0]).p, s[1..]);
      }
      FigureRead(step, p, s[0], s[1..]);
    }
  }

  lemma FigureStays(r: Ran, p: Parser, ch: char, n: nat)
    requires InLength(p, n + 1) && (IsNum(ch) || ch == ' ') && StepsLength(r, p, ch) && r.exit.Next?
    ensures InLength(r.p, n)
  {
    if ch != ' ' { NeverReserved(p.length, 10, NumValue(ch)); }
  }

  /** A figure and what follows it. */
  lemma FigureRead(step: Stepper, p: Parser, c: char, rest: string)
    requires (IsNum(c) || c == ' ') && Figures(rest) && StepsLength(step(p, c), p, c)
    requires var t := step(p, c); t.exit.Next? ==> ReadAs(Run(step, t.p, rest), Numeral(t.p.length, 10, Spaceless(rest)))
    ensures ReadAs(Run(step, p, [c] + rest), Numeral(if c == ' ' then p.length else p.length * 10 + NumValue(c), 10, Spaceless(rest)))
  {
    if c == ' ' {
      SpaceRead(step, p, c, rest, step(p, c).p, Numeral(p.length, 10, Spaceless(rest)));
    } else {
      DigitStepRead(step, p, c, rest);
    }
  }

  lemma DigitStepRead(step: Stepper, p: Parser, c: char, rest: string)
    requires IsNum(c) && Figures(rest) && StepsLength(step(p, c), p, c)
    requires var t := step(p, c); t.exit.Next? ==> ReadAs(Run(step, t.p, rest), Numeral(t.p.length, 10, Spaceless(rest)))
    ensures ReadAs(Run(step, p, [c] + rest), Numeral(p.length * 10 + NumValue(c), 10, Spaceless(rest)))
  {
    DigitRead(step, p, c, rest, step(p, c).p, p.length, 10, NumValue(c), Spaceless(rest));
  }

  lemma SpaceRead(step: Stepper, p: Parser, c: char, rest: string, q: Parser, n: nat)
    requires step(p, c).exit.Next? && step(p, c).p == q && ReadAs(Run(step, q, rest), n)
    ensures ReadAs(Run(step, p, [c] + rest), n)
  {
    FirstOf(step, p, c, rest);
  }

  /** A digit and what follows it, behind which the parser is `q`. */
  lemma DigitRead(step: Stepper, p: Parser, c: char, rest: string, q: Parser, v: nat, base: nat, d: nat, s: string)
    requires base > 1 && forall e <- s :: IsHex(e)
    requires if Wraps(v, base, d) then !step(p, c).exit.Next?
             else step(p, c).exit.Next? && step(p, c).p == q && ReadAs(Run(step, q, rest), Numeral(Wrapped(v, base, d), base, s))
    ensures ReadAs(Run(step, p, [c] + rest), Numeral(v * base + d, base, s))
  {
    FirstOf(step, p, c, rest);
    if v * base + d < ULLONG_MAX { FitsExactly(v, base, d); }
  }

  /** A Content-Length is accepted at its value if and only if that is below
      2^64 - 1. */
  lemma LengthExact(p: Parser, s: string, hooks: Hooks)
    requires Good(p) && p.state.HeaderValueStart? && p.header.ContentLength? && Room(p, |s|)
    requires s != "" && Figures(s) && s[0] != ' '
    ensures var r := Run(Bytewise(hooks), p, s); var n := Numeral(0, 10, Spaceless(s));
            r.exit.Next? && r.p.length == n <==> n < 0xffff_ffff_ffff_ffff
  {
    FigureGlue(0, s);
    DigitValue(s[0]);
    FirstLengthByte(p, s[0], hooks);
    FirstOf(Bytewise(hooks), p, s[0], s[1..]);
    LengthSteps(hooks);
    var q := Sized(p, HexDigit(s[0]), 1).(state := HeaderValue, index := 0);
    LengthReads(Bytewise(hooks), q, s[1..]);
    assert ReadsAs(Run(Bytewise(hooks), q, s[1..]), Numeral(0, 10, Spaceless(s)));
  }

  lemma ZeroNext(v: nat, s: string)
    requires Digits(s)
    ensures Digits("0" + s) && Numeral(v, 10, "0" + s) == Numeral(v * 10, 10, s)
  {
    OneDigit(v, '0', s);
    assert ['0'] + s == "0" + s;
  }

  lemma SixZeros(v: nat, s: string)
    requires Digits(s)
    ensures Digits("000000" + s) && Numeral(v, 10, "000000" + s) == Numeral(v * 1000000, 10, s)
  {
    ZeroNext(v * 100000, s);
    ZeroNext(v * 10000, "0" + s);
    ZeroNext(v * 1000, "0" + ("0" + s));
    ZeroNext(v * 100, "0" + ("0" + ("0" + s)));
    ZeroNext(v * 10, "0" + ("0" + ("0" + ("0" + s))));
    ZeroNext(v, "0" + ("0" + ("0" + ("0" + ("0" + s)))));
    assert "0" + ("0" + ("0" + ("0" + ("0" + ("0" + s))))) == "000000" + s;
  }

  const EIGHTEEN_ZEROS: string := "000000" + ("000000" + ("000000" + ""))

  lemma FiveQuintillion()
    ensures var s := "5" + EIGHTEEN_ZEROS; |s| == 19 && Digits(s) && Numeral(0, 10, s) == 5_000_000_000_000_000_000
  {
    SixZeros(5_000_000_000_000, "");
    SixZeros(5_000_000, "000000" + "");
    SixZeros(5, "000000" + ("000000" + ""));
    OneDigit(0, '5', EIGHTEEN_ZEROS);
    assert ['5'] + EIGHTEEN_ZEROS == "5" + EIGHTEEN_ZEROS;
  }

  lemma LastFigure(step: Stepper, p: Parser, s: string, q: Parser, ch: char, r: Ran)
    requires DataRun(step, p, Value, s, q) && step(q, ch) == r
    ensures Run(step, p, s + [ch]).p == r.p && Run(step, p, s + [ch]).exit == r.exit
  {
    LastByte(step, q, ch, r);
    RunAppend(step, p, s, [ch]);
  }

  /** A Content-Length of 5 * 10^19 is accepted as what is left of it modulo 2^64. */
  lemma LengthMisread(p: Parser, hooks: Hooks)
    requires Good(p) && p.state.HeaderValueStart? && p.header.ContentLength? && Room(p, 20)
    ensures var r := Run(Bytewise(hooks), p, "5" + EIGHTEEN_ZEROS + ['0']);
            r.exit.Next? && r.p.length == 13_106_511_852_580_896_768
  {
    var s := "5" + EIGHTEEN_ZEROS;
    FiveQuintillion();
    RunLengthValue(p, s, hooks);
    var q := Lengthy(p, 5_000_000_000_000_000_000, 19);
    LengthSteps(hooks);
    ZeroBehind(Bytewise(hooks), q);
    LastFigure(Bytewise(hooks), p, s, q, '0', Bytewise(hooks)(q, '0'));
  }

  lemma TenTimes(v: nat)
    requires v == 5_000_000_000_000_000_000
    ensures !Wraps(v, 10, 0) && Wrapped(v, 10, 0) == 13_106_511_852_580_896_768
  {
  }

  lemma ZeroBehind(step: Stepper, q: Parser)
    requires Lengthwise(step) && InLength(q, 1) && q.length == 5_000_000_000_000_000_000
    ensures step(q, '0').exit.Next? && step(q, '0').p.length == 13_106_511_852_580_896_768
  {
    TenTimes(q.length);
    assert StepsLength(step(q, '0'), q, '0');
  }

  /** Within the size of a chunk. */
  predicate InSize(p: Parser, n: nat) { Good(p) && p.state.ChunkSize? && Room(p, n) && p.length < ULLONG_MAX }

  ghost predicate StepsSize(r: Ran, p: Parser, ch: char)
    requires IsHex(ch)
  {
    if Wraps(p.length, 16, HexDigit(ch)) then !r.exit.Next?
    else r == Ran(Sized(p, Wrapped(p.length, 16, HexDigit(ch)), 1), [], Next, 1) && Good(r.p)
  }

  lemma SizeStep(p: Parser, ch: char, hooks: Hooks)
    requires InSize(p, 1) && IsHex(ch)
    ensures StepsSize(Bytewise(hooks)(p, ch), p, ch)
  {
    BusyDoes(p, ch, hooks);
    assert SwitchBusy(p, ch, hooks) == StepChunkSize(Counted(p), ch);
  }

  ghost predicate Sizewise(step: Stepper) {
    forall p: Parser, ch: char {:trigger step(p, ch)} :: InSize(p, 1) && IsHex(ch) ==> StepsSize(step(p, ch), p, ch)
  }

  lemma SizeSteps(hooks: Hooks)
    ensures Sizewise(Bytewise(hooks))
  {
    var step := Bytewise(hooks);
    forall p: Parser, ch: char {:trigger step(p, ch)} | InSize(p, 1) && IsHex(ch)
      ensures StepsSize(step(p, ch), p, ch)
    {
      SizeStep(p, ch, hooks);
    }
  }

  lemma StaysInSize(p: Parser, length: nat, n: nat)
    requires InSize(p, n + 1) && length < ULLONG_MAX
    ensures InSize(Sized(p, length, 1), n)
  {
  }

  lemma {:induction false} SizeReads(step: Stepper, p: Parser, s: string)
    requires Sizewise(step) && InSize(p, |s|) && forall c <- s :: IsHex(c)
    ensures ReadAs(Run(step, p, s), Numeral(p.length, 16, s))
    decreases |s|
  {
    if s != "" {
      var c, rest := s[0], s[1..];
      NumeralGlue(p.length, 16, s);
      var v, d := p.length, HexDigit(c);
      var q := Sized(p, Wrapped(v, 16, d), 1);
      assert StepsSize(step(p, c), p, c);
      if !Wraps(v, 16, d) {
        NeverReserved(v, 16, d);
        StaysInSize(p, Wrapped(v, 16, d), |rest|);
        SizeReads(step, q, rest);
      }
      DigitRead(step, p, c, rest, q, v, 16, d, rest);
    }
  }

  /** The size of a chunk is accepted at its value if and only if that is below
      2^64 - 1. */
  lemma SizeExact(p: Parser, s: string, hooks: Hooks)
    requires Good(p) && p.state.ChunkSizeStart? && Room(p, |s|) && s != "" && forall c <- s :: IsHex(c)
    ensures var r := Run(Bytewise(hooks), p, s);
            r.exit.Next? && r.p.length == Numeral(0, 16, s) <==> Numeral(0, 16, s) < 0xffff_ffff_ffff_ffff
  {
    NumeralGlue(0, 16, s);
    FirstHexByte(p, s[0], hooks);
    FirstOf(Bytewise(hooks), p, s[0], s[1..]);
    var q := To(Sized(p, HexDigit(s[0]), 1), ChunkSize);
    SizeSteps(hooks);
    SizeReads(Bytewise(hooks), q, s[1..]);
    assert ReadsAs(Run(Bytewise(hooks), q, s[1..]), Numeral(0, 16, s));
  }

  // ------------------------------------------------------- the callbacks' answers

  /** The callback for `n` always answers `v`. */
  ghost predicate Answers(hooks: Hooks, n: Notify, v: Verdict) { forall q: Parser :: hooks(n, q) == v }

  /** If `n` is told at all, it is told last, and the parser stops. */
  predicate Obeys(t: Step, n: Notify, v: Verdict) {
    n in t.tells ==> t.exit.Halt? && t.tells[|t.tells| - 1] == n && t.p.errno == if v.Fail? then CallbackFailed(n) else Paused
  }

  ghost predicate Stops(hooks: Hooks, n: Notify, v: Verdict) { Answers(hooks, n, v) && (v.Fail? || v.PauseParser?) }

  lemma TellObeys(p: Parser, m: Notify, hooks: Hooks, n: Notify, v: Verdict)
    requires Stops(hooks, n, v)
    ensures Obeys(Tell(p, m, hooks), n, v)
  {
  }

  lemma StartObeys(p: Parser, ch: char, hooks: Hooks, n: Notify, v: Verdict)
    requires Stops(hooks, n, v)
    ensures Obeys(StepStartReq(p, ch, hooks), n, v) && Obeys(StepStartRes(p, ch, hooks), n, v)
  {
  }

  lemma EitherObeys(p: Parser, ch: char, hooks: Hooks, n: Notify, v: Verdict)
    requires Stops(hooks, n, v)
    ensures Obeys(StepStartReqOrRes(p, ch, hooks), n, v)
  {
    StartObeys(p.(flags := NO_FLAGS, length := ULLONG_MAX, kind := Request, state := StartReq), ch, hooks, n, v);
  }

  lemma DoneObeys(p: Parser, ch: char, hooks: Hooks, n: Notify, v: Verdict)
    requires Stops(hooks, n, v)
    ensures Obeys(StepHeadersDone(p, ch, hooks), n, v)
  {
    TellObeys(To(p.(nread := 0), NewMessage(p.(nread := 0))), MessageComplete, hooks, n, v);
  }

  lemma AlmostDoneObeys(p: Parser, ch: char, hooks: Hooks, n: Notify, v: Verdict)
    requires Stops(hooks, n, v)
    ensures Obeys(StepHeadersAlmostDone(p, ch, hooks), n, v)
  {
    var q := p.(state := HeadersDone, upgrade := p.flags.upgrade || p.verb == CONNECT);
    var b := q.(flags := q.flags.(skipBody := true));
    if n != HeadersComplete {
      DoneObeys(q, ch, hooks, n, v);
      DoneObeys(b, ch, hooks, n, v);
      ToldObeys(StepHeadersDone(q, ch, hooks), n, v);
      ToldObeys(StepHeadersDone(b, ch, hooks), n, v);
    }
    TellObeys(To(p, NewMessage(p)), MessageComplete, hooks, n, v);
  }

  lemma ToldObeys(t: Step, n: Notify, v: Verdict)
    requires n != HeadersComplete && Obeys(t, n, v)
    ensures Obeys(Told(HeadersComplete, t), n, v)
  {
  }

  lemma FieldStartObeys(p: Parser, ch: char, hooks: Hooks, n: Notify, v: Verdict)
    requires Stops(hooks, n, v)
    ensures Obeys(StepHeaderFieldStart(p, ch, hooks), n, v)
  {
    AlmostDoneObeys(To(p, HeadersAlmostDone), ch, hooks, n, v);
  }

  lemma LwsObeys(p: Parser, ch: char, hooks: Hooks, n: Notify, v: Verdict)
    requires Stops(hooks, n, v)
    ensures Obeys(StepHeaderValueLws(p, ch, hooks), n, v)
  {
    FieldStartObeys(To(p, HeaderFieldStart), ch, hooks, n, v);
  }

  lemma LineObeys(p: Parser, ch: char, hooks: Hooks, n: Notify, v: Verdict)
    requires Stops(hooks, n, v)
    ensures Obeys(SwitchLine(p, ch, hooks), n, v)
  {
  }

  lemma FreeObeys(p: Parser, ch: char, hooks: Hooks, n: Notify, v: Verdict)
    requires Stops(hooks, n, v)
    ensures Obeys(SwitchFree(p, ch, hooks), n, v)
  {
    if p.state.StartReqOrRes? {
      EitherObeys(p, ch, hooks, n, v);
    } else if p.state.StartRes? || p.state.StartReq? {
      StartObeys(p, ch, hooks, n, v);
    } else if p.state.HeaderFieldStart? {
      FieldStartObeys(p, ch, hooks, n, v);
    } else if p.state.HeaderValueLws? {
      LwsObeys(p, ch, hooks, n, v);
    } else if p.state.HeadersAlmostDone? {
      AlmostDoneObeys(p, ch, hooks, n, v);
    } else if p.state.HeadersDone? {
      DoneObeys(p, ch, hooks, n, v);
    } else {
      LineObeys(p, ch, hooks, n, v);
    }
  }

  lemma BusyObeys(p: Parser, ch: char, hooks: Hooks, n: Notify, v: Verdict)
    requires Stops(hooks, n, v) && Good(p) && !Free(p.state)
    ensures Obeys(SwitchBusy(p, ch, hooks), n, v)
  {
    if p.state.BodyIdentity? {
      var q := p.(length := p.length - 1);
      TellObeys(To(q, NewMessage(To(q, MessageDone))), MessageComplete, hooks, n, v);
    }
  }

  lemma AdvanceObeys(p: Parser, ch: char, hooks: Hooks, n: Notify, v: Verdict)
    requires Stops(hooks, n, v) && Good(p)
    ensures Obeys(Advance(p, ch, hooks), n, v)
  {
    if ParsingHeader(p.state) && p.nread + 1 > MAX_HEADER_SIZE {
    } else if Free(p.state) {
      FreeObeys(Counted(p), ch, hooks, n, v);
    } else {
      BusyObeys(p, ch, hooks, n, v);
    }
  }

  /** A callback that fails or pauses the parser stops it there: it is the last
      one called, and the error says which it was. */
  lemma StoppedBy(p: Parser, ch: char, hooks: Hooks, n: Notify, v: Verdict)
    requires Good(p) && Stops(hooks, n, v) && n in Advance(p, ch, hooks).tells
    ensures var t := Advance(p, ch, hooks);
            t.exit.Halt? && t.tells[|t.tells| - 1] == n && t.p.errno == if v.Fail? then CallbackFailed(n) else Paused
  {
    AdvanceObeys(p, ch, hooks, n, v);
  }

  /** A parser told that there is no body has its message over with the headers,
      whatever length they give. */
  lemma NoBodyEnds(p: Parser, hooks: Hooks)
    requires Good(p) && p.state.HeadersAlmostDone? && !p.flags.trailing && Room(p, 1)
    requires Answers(hooks, HeadersComplete, NoBody) && Answers(hooks, MessageComplete, GoOn)
    ensures var t := Advance(p, '\n', hooks);
            t.tells == [HeadersComplete, MessageComplete] && (t.exit.Next? || t.exit.Leave?) &&
            (t.p.state.StartReq? || t.p.state.StartRes? || t.p.state.Dead?)
  {
    assert Advance(p, '\n', hooks) == StepHeadersAlmostDone(Counted(p), '\n', hooks);
  }
}
