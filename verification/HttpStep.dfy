/** What one byte does to the HTTP parser: the switch of `http_parser_execute`
  in strict mode, with its `reexecute_byte` jumps followed to the end. */
module HttpStep {
  import opened Common
  import opened HttpTypes

  /** How the byte leaves the loop body. */
  datatype Exit =
    | Next                      // on to the next byte
    | Error                     // an errno is set and the byte is not consumed
    | Halt(consumed: bool)      // a callback stopped the parser
    | Leave                     // the rest of the connection is another protocol

  datatype Flush = Flush(what: Data, through: bool)

  /** One byte: the new parser, the mark it sets (if none is set), the marked
      data it hands over (up to or through the byte), the notifications it
      makes, in this order, and how it ends. */
  datatype Step = Step(p: Parser, mark: Option<Data>, flush: Option<Flush>, tells: seq<Notify>, exit: Exit)

  function To(p: Parser, s: State): Parser { p.(state := s) }

  function Plain(p: Parser): Step { Step(p, None, None, [], Next) }

  function Go(p: Parser, s: State): Step { Plain(To(p, s)) }

  function Err(p: Parser, e: Errno): Step { Step(p.(errno := e), None, None, [], Error) }

  /** CALLBACK_NOTIFY */
  function Tell(p: Parser, n: Notify, hooks: Hooks): Step {
    match hooks(n, p)
    case Fail => Step(p.(errno := CallbackFailed(n)), None, None, [n], Halt(true))
    case PauseParser => Step(p.(errno := Paused), None, None, [n], Halt(true))
    case _ => Step(p, None, None, [n], Next)
  }

  // -------------------------------------------------- keep-alive and framing

  predicate MessageNeedsEof(p: Parser) {
    if p.kind.Request? then false
    else if p.status / 100 == 1 || p.status == 204 || p.status == 304 || p.flags.skipBody then false
    else if p.flags.chunked || p.length != ULLONG_MAX then false
    else true
  }

  predicate ShouldKeepAlive(p: Parser) {
    (if p.major > 0 && p.minor > 0 then !p.flags.close else p.flags.keepAlive) && !MessageNeedsEof(p)
  }

  /** NEW_MESSAGE */
  function NewMessage(p: Parser): State {
    if ShouldKeepAlive(p) then (if p.kind.Request? then StartReq else StartRes) else Dead
  }

  function Complete(p: Parser, hooks: Hooks): Step {
    Tell(To(p, NewMessage(p)), MessageComplete, hooks)
  }

  // ------------------------------------------------------------- start lines

  function StepStartReq(p: Parser, ch: char, hooks: Hooks): Step {
    if ch == '\r' || ch == '\n' then Plain(p)
    else
      var q := p.(flags := NO_FLAGS, length := ULLONG_MAX);
      match FirstMethod(ch)
      case None => Err(if IsAlpha(ch) then q.(verb := DELETE, index := 1) else q, InvalidMethod)
      case Some(m) => Tell(q.(verb := m, index := 1, state := ReqMethod), MessageBegin, hooks)
  }

  /** The method tried first for an initial letter. */
  function FirstMethod(ch: char): Option<Method> {
    match ch
    case 'C' => Some(CONNECT) case 'D' => Some(DELETE) case 'G' => Some(GET) case 'H' => Some(HEAD)
    case 'L' => Some(LOCK) case 'M' => Some(MKCOL) case 'N' => Some(NOTIFY) case 'O' => Some(OPTIONS)
    case 'P' => Some(POST) case 'R' => Some(REPORT) case 'S' => Some(SUBSCRIBE) case 'T' => Some(TRACE)
    case 'U' => Some(UNLOCK)
    case _ => None
  }

  function StepStartReqOrRes(p: Parser, ch: char, hooks: Hooks): Step {
    if ch == '\r' || ch == '\n' then Plain(p)
    else
      var q := p.(flags := NO_FLAGS, length := ULLONG_MAX);
      if ch == 'H' then Tell(To(q, ResOrRespH), MessageBegin, hooks)
      else StepStartReq(q.(kind := Request, state := StartReq), ch, hooks)
  }

  function StepResOrRespH(p: Parser, ch: char): Step {
    if ch == 'T' then Go(p.(kind := Response), ResHT)
    else if ch == 'E' then Go(p.(kind := Request, verb := HEAD, index := 2), ReqMethod)
    else Err(p, InvalidConstant)
  }

  function StepStartRes(p: Parser, ch: char, hooks: Hooks): Step {
    var q := p.(flags := NO_FLAGS, length := ULLONG_MAX);
    if ch == 'H' then Tell(To(q, ResH), MessageBegin, hooks)
    else if ch == '\r' || ch == '\n' then Tell(q, MessageBegin, hooks)
    else Err(q, InvalidConstant)
  }

  /** STRICT_CHECK for one expected character */
  function Expect(p: Parser, ch: char, want: char, s: State): Step {
    if ch == want then Go(p, s) else Err(p, Strict)
  }

  function StepMajor(p: Parser, ch: char, next: State): Step {
    if ch == '.' then Go(p, next)
    else if !IsNum(ch) then Err(p, InvalidVersion)
    else
      var q := p.(major := p.major * 10 + NumValue(ch));
      if q.major > 999 then Err(q, InvalidVersion) else Plain(q)
  }

  function StepFirstMinor(p: Parser, ch: char, next: State): Step {
    if !IsNum(ch) then Err(p, InvalidVersion) else Go(p.(minor := NumValue(ch)), next)
  }

  function StepMinorDigit(p: Parser, ch: char): Step {
    if !IsNum(ch) then Err(p, InvalidVersion)
    else
      var q := p.(minor := p.minor * 10 + NumValue(ch));
      if q.minor > 999 then Err(q, InvalidVersion) else Plain(q)
  }

  function StepStatusCode(p: Parser, ch: char): Step {
    if !IsNum(ch) then
      if ch == ' ' then Go(p, ResStatus)
      else if ch == '\r' then Go(p, ResLineAlmostDone)
      else if ch == '\n' then Go(p, HeaderFieldStart)
      else Err(p, InvalidStatus)
    else
      var q := p.(status := p.status * 10 + NumValue(ch));
      if q.status > 999 then Err(q, InvalidStatus) else Plain(q)
  }

  /** The "HTTP/" of a response, whose "H" is already read. */
  function StepResponseWord(p: Parser, ch: char): Step {
    if p.state.ResH? then Expect(p, ch, 'T', ResHT)
    else if p.state.ResHT? then Expect(p, ch, 'T', ResHTT)
    else if p.state.ResHTT? then Expect(p, ch, 'P', ResHTTP)
    else Expect(p, ch, '/', ResFirstMajor)
  }

  function StepResponseVersion(p: Parser, ch: char): Step {
    if p.state.ResFirstMajor? then
      if !IsNum(ch) then Err(p, InvalidVersion) else Go(p.(major := NumValue(ch)), ResMajor)
    else if p.state.ResMajor? then StepMajor(p, ch, ResFirstMinor)
    else if p.state.ResFirstMinor? then StepFirstMinor(p, ch, ResMinor)
    else if ch == ' ' then Go(p, ResFirstStatusCode)
    else StepMinorDigit(p, ch)
  }

  function StepResponseStatus(p: Parser, ch: char, hooks: Hooks): Step {
    if p.state.ResFirstStatusCode? then
      if IsNum(ch) then Go(p.(status := NumValue(ch)), ResStatusCode)
      else if ch == ' ' then Plain(p)
      else Err(p, InvalidStatus)
    else if p.state.ResStatusCode? then StepStatusCode(p, ch)
    else if p.state.ResStatus? then
      if ch == '\r' then Go(p, ResLineAlmostDone) else if ch == '\n' then Go(p, HeaderFieldStart) else Plain(p)
    else if ch != '\n' then Err(p, Strict)
    else Tell(To(p, HeaderFieldStart), StatusComplete, hooks)
  }

  /** The method to continue with after a mismatch at `index`, if any. */
  function SwitchMethod(m: Method, index: nat, ch: char): Option<Method> {
    if m == CONNECT then
      if index == 1 && ch == 'H' then Some(CHECKOUT)
      else if index == 2 && ch == 'P' then Some(COPY)
      else None
    else if m == MKCOL then
      if index == 1 && ch == 'O' then Some(MOVE)
      else if index == 1 && ch == 'E' then Some(MERGE)
      else if index == 1 && ch == '-' then Some(MSEARCH)
      else if index == 2 && ch == 'A' then Some(MKACTIVITY)
      else None
    else if m == SUBSCRIBE then
      if index == 1 && ch == 'E' then Some(SEARCH) else None
    else if index == 1 && m == POST then
      if ch == 'R' then Some(PROPFIND) else if ch == 'U' then Some(PUT) else if ch == 'A' then Some(PATCH) else None
    else if index == 2 then
      if m == PUT then if ch == 'R' then Some(PURGE) else None
      else if m == UNLOCK then if ch == 'S' then Some(UNSUBSCRIBE) else None
      else None
    else if index == 4 && m == PROPFIND && ch == 'P' then Some(PROPPATCH)
    else None
  }

  function StepMethod(p: Parser, ch: char): Step {
    var matcher := MethodString(p.verb);
    var q := p.(index := p.index + 1);
    if ch == '\0' then Err(p, InvalidMethod)
    else if ch == ' ' && p.index == |matcher| then Go(q, ReqSpacesBeforeUrl)
    else if p.index < |matcher| && ch == matcher[p.index] then Plain(q)
    else
      match SwitchMethod(p.verb, p.index, ch)
      case None => Err(p, InvalidMethod)
      case Some(m) => Plain(q.(verb := m))
  }

  // --------------------------------------------------------------------- URL

  /** `parse_url_char` */
  function ParseUrlChar(s: State, ch: char): State {
    if ch == ' ' || ch == '\r' || ch == '\n' || ch == '\t' || ch == 12 as char then Dead
    else if s.ReqSpacesBeforeUrl? then
      if ch == '/' || ch == '*' then ReqPath else if IsAlpha(ch) then ReqSchema else Dead
    else if s.ReqSchema? then if IsAlpha(ch) then s else if ch == ':' then ReqSchemaSlash else Dead
    else if s.ReqSchemaSlash? then if ch == '/' then ReqSchemaSlashSlash else Dead
    else if s.ReqSchemaSlashSlash? then if ch == '/' then ReqServerStart else Dead
    else if s.ReqServerWithAt? then if ch == '@' then Dead else ServerChar(ch)
    else if s.ReqServerStart? || s.ReqServer? then ServerChar(ch)
    else if s.ReqPath? then
      if IsUrlChar(ch) then s else if ch == '?' then ReqQueryStart else if ch == '#' then ReqFragmentStart else Dead
    else if s.ReqQueryStart? || s.ReqQuery? then QueryChar(ch)
    else if s.ReqFragmentStart? then
      if IsUrlChar(ch) then ReqFragment else if ch == '?' then ReqFragment else if ch == '#' then s else Dead
    else if s.ReqFragment? then if IsUrlChar(ch) || ch == '?' || ch == '#' then s else Dead
    else Dead
  }

  function ServerChar(ch: char): State {
    if ch == '/' then ReqPath
    else if ch == '?' then ReqQueryStart
    else if ch == '@' then ReqServerWithAt
    else if IsUserinfoChar(ch) || ch == '[' || ch == ']' then ReqServer
    else Dead
  }

  function QueryChar(ch: char): State {
    if IsUrlChar(ch) || ch == '?' then ReqQuery else if ch == '#' then ReqFragmentStart else Dead
  }

  predicate InUrl(s: State) {
    s.ReqSchema? || s.ReqSchemaSlash? || s.ReqSchemaSlashSlash? || s.ReqServerStart? || s.ReqServer? ||
    s.ReqServerWithAt? || s.ReqPath? || s.ReqQueryStart? || s.ReqQuery? || s.ReqFragmentStart? || s.ReqFragment?
  }

  function UrlChar(p: Parser, from: State, ch: char): Step {
    var s := ParseUrlChar(from, ch);
    if s.Dead? then Err(To(p, s), InvalidUrl) else Go(p, s)
  }

  function StepUrl(p: Parser, ch: char): Step {
    if p.state.ReqSpacesBeforeUrl? then
      if ch == ' ' then Plain(p)
      else UrlChar(p, if p.verb == CONNECT then ReqServerStart else p.state, ch).(mark := Some(Url))
    else if p.state.ReqSchema? || p.state.ReqSchemaSlash? || p.state.ReqSchemaSlashSlash? || p.state.ReqServerStart? then
      if ch == ' ' || ch == '\r' || ch == '\n' then Err(p, InvalidUrl) else UrlChar(p, p.state, ch)
    else if ch == ' ' then Go(p, ReqHttpStart).(flush := Some(Flush(Url, false)))
    else if ch == '\r' || ch == '\n' then
      Go(p.(major := 0, minor := 9), if ch == '\r' then ReqLineAlmostDone else HeaderFieldStart)
        .(flush := Some(Flush(Url, false)))
    else UrlChar(p, p.state, ch)
  }

  function StepRequestWord(p: Parser, ch: char): Step {
    if p.state.ReqHttpStart? then
      if ch == 'H' then Go(p, ReqHttpH) else if ch == ' ' then Plain(p) else Err(p, InvalidConstant)
    else if p.state.ReqHttpH? then Expect(p, ch, 'T', ReqHttpHT)
    else if p.state.ReqHttpHT? then Expect(p, ch, 'T', ReqHttpHTT)
    else if p.state.ReqHttpHTT? then Expect(p, ch, 'P', ReqHttpHTTP)
    else Expect(p, ch, '/', ReqFirstMajor)
  }

  function StepRequestVersion(p: Parser, ch: char): Step {
    if p.state.ReqFirstMajor? then
      if '1' <= ch <= '9' then Go(p.(major := NumValue(ch)), ReqMajor) else Err(p, InvalidVersion)
    else if p.state.ReqMajor? then StepMajor(p, ch, ReqFirstMinor)
    else if p.state.ReqFirstMinor? then StepFirstMinor(p, ch, ReqMinor)
    else if p.state.ReqMinor? then
      if ch == '\r' then Go(p, ReqLineAlmostDone)
      else if ch == '\n' then Go(p, HeaderFieldStart)
      else StepMinorDigit(p, ch)
    else if ch != '\n' then Err(p, LfExpected)
    else Go(p, HeaderFieldStart)
  }

  // ----------------------------------------------------------------- headers

  /** The next character of a header name or value being matched to `word`. */
  function Matching(word: string, found: HeaderKind, h: HeaderKind, index: nat, c: char): HeaderKind {
    if index >= |word| || c != word[index] then General
    else if index == |word| - 1 then found
    else h
  }

  /** Header matching on a name character; `index` is already that of `c`. */
  function NameChar(h: HeaderKind, index: nat, ch: char, c: char): HeaderKind {
    if h.H_C? then if c == 'o' then H_CO else General
    else if h.H_CO? then if c == 'n' then H_CON else General
    else if h.H_CON? then if c == 'n' then MatchingConnection else if c == 't' then MatchingContentLength else General
    else if h.MatchingConnection? then Matching("connection", Connection, h, index, c)
    else if h.MatchingProxyConnection? then Matching("proxy-connection", Connection, h, index, c)
    else if h.MatchingContentLength? then Matching("content-length", ContentLength, h, index, c)
    else if h.MatchingTransferEncoding? then Matching("transfer-encoding", TransferEncoding, h, index, c)
    else if h.MatchingUpgrade? then Matching("upgrade", Upgrade, h, index, c)
    else if h.Connection? || h.ContentLength? || h.TransferEncoding? || h.Upgrade? then if ch == ' ' then h else General
    else h
  }

  /** The header kinds whose matching counts characters. */
  predicate Counts(h: HeaderKind) {
    h.H_C? || h.H_CO? || h.H_CON? || h.MatchingConnection? || h.MatchingProxyConnection? ||
    h.MatchingContentLength? || h.MatchingTransferEncoding? || h.MatchingUpgrade?
  }

  predicate CountsValue(h: HeaderKind) {
    h.MatchingChunked? || h.MatchingKeepAlive? || h.MatchingClose?
  }

  /** The kinds a header may have while its name is read; any other is the
      "Unknown header_state" assertion of the source. */
  predicate NameKind(h: HeaderKind) {
    h.General? || Counts(h) || h.Connection? || h.ContentLength? || h.TransferEncoding? || h.Upgrade?
  }

  function FirstNameChar(c: char): HeaderKind {
    if c == 'c' then H_C
    else if c == 'p' then MatchingProxyConnection
    else if c == 't' then MatchingTransferEncoding
    else if c == 'u' then MatchingUpgrade
    else General
  }

  function StepHeaderFieldStart(p: Parser, ch: char, hooks: Hooks): Step {
    if ch == '\r' then Go(p, HeadersAlmostDone)
    else if ch == '\n' then StepHeadersAlmostDone(To(p, HeadersAlmostDone), ch, hooks)
    else
      var c := Token(ch);
      if c == '\0' then Err(p, InvalidHeaderToken)
      else Plain(p.(index := 0, state := HeaderField, header := FirstNameChar(c))).(mark := Some(Field))
  }

  function StepHeaderField(p: Parser, ch: char): Step {
    if Token(ch) != '\0' then StepNameChar(p, ch, Token(ch)) else StepNameEnd(p, ch)
  }

  function StepNameChar(p: Parser, ch: char, c: char): Step {
    var i := if Counts(p.header) then p.index + 1 else p.index;
    Plain(p.(index := i, header := NameChar(p.header, i, ch, c)))
  }

  function StepNameEnd(p: Parser, ch: char): Step {
    if ch == ':' then Go(p, HeaderValueStart).(flush := Some(Flush(Field, false)))
    else if ch == '\r' then Go(p, HeaderAlmostDone).(flush := Some(Flush(Field, false)))
    else if ch == '\n' then Go(p, HeaderFieldStart).(flush := Some(Flush(Field, false)))
    else Err(p, InvalidHeaderToken)
  }

  function StepHeaderValueStart(p: Parser, ch: char): Step {
    if ch == ' ' || ch == '\t' then Plain(p)
    else
      var q := p.(state := HeaderValue, index := 0);
      (if ch == '\r' then
         Go(q.(header := General), HeaderAlmostDone).(flush := Some(Flush(Value, false)))
       else if ch == '\n' then
         Go(q, HeaderFieldStart).(flush := Some(Flush(Value, false)))
       else FirstValueChar(q, ch)).(mark := Some(Value))
  }

  function FirstValueChar(p: Parser, ch: char): Step {
    var c := Lower(ch);
    if p.header.Upgrade? then Plain(p.(flags := p.flags.(upgrade := true), header := General))
    else if p.header.TransferEncoding? then Plain(p.(header := if c == 'c' then MatchingChunked else General))
    else if p.header.ContentLength? then
      if !IsNum(ch) then Err(p, InvalidContentLength) else Plain(p.(length := NumValue(ch)))
    else if p.header.Connection? then
      Plain(p.(header := if c == 'k' then MatchingKeepAlive else if c == 'c' then MatchingClose else General))
    else Plain(p.(header := General))
  }

  function StepHeaderValue(p: Parser, ch: char): Step {
    if ch == '\r' then Go(p, HeaderAlmostDone).(flush := Some(Flush(Value, false)))
    else if ch == '\n' then
      StepHeaderAlmostDone(To(p, HeaderAlmostDone), ch).(flush := Some(Flush(Value, false)))
    else if p.header.ContentLength? then
      if ch == ' ' then Plain(p) else GrowLength(p, IsNum(ch), 10, if IsNum(ch) then NumValue(ch) else 0)
    else
      var i := if CountsValue(p.header) then p.index + 1 else p.index;
      Plain(p.(index := i, header := ValueChar(p.header, i, ch)))
  }

  /** Header matching on a value character. */
  function ValueChar(h: HeaderKind, index: nat, ch: char): HeaderKind {
    if h.MatchingChunked? then Matching("chunked", Chunked, h, index, Lower(ch))
    else if h.MatchingKeepAlive? then Matching("keep-alive", KeepAlive, h, index, Lower(ch))
    else if h.MatchingClose? then Matching("close", Close, h, index, Lower(ch))
    else if (h.Chunked? || h.KeepAlive? || h.Close?) && ch == ' ' then h
    else General
  }

  /** One more digit of a 64-bit length, with the overflow test of the source. */
  function GrowLength(p: Parser, digit: bool, base: nat, d: nat): Step {
    if !digit then Err(p, InvalidContentLength)
    else
      var t := (p.length * base + d) % TWO_64;
      if t < p.length || t == ULLONG_MAX then Err(p, InvalidContentLength) else Plain(p.(length := t))
  }

  function StepHeaderAlmostDone(p: Parser, ch: char): Step {
    if ch != '\n' then Err(p, Strict)
    else
      var q := To(p, HeaderValueLws);
      if p.header.KeepAlive? then Plain(q.(flags := q.flags.(keepAlive := true)))
      else if p.header.Close? then Plain(q.(flags := q.flags.(close := true)))
      else if p.header.Chunked? then Plain(q.(flags := q.flags.(chunked := true)))
      else Plain(q)
  }

  function StepHeaderValueLws(p: Parser, ch: char, hooks: Hooks): Step {
    if ch == ' ' || ch == '\t' then Go(p, HeaderValueStart)
    else StepHeaderFieldStart(To(p, HeaderFieldStart), ch, hooks)
  }

  function StepHeadersAlmostDone(p: Parser, ch: char, hooks: Hooks): Step {
    if ch != '\n' then Err(p, Strict)
    else if p.flags.trailing then Complete(p, hooks)
    else
      var q := p.(state := HeadersDone, upgrade := p.flags.upgrade || p.verb == CONNECT);
      match hooks(HeadersComplete, q)
      case Fail => Step(q.(errno := CallbackFailed(HeadersComplete)), None, None, [HeadersComplete], Halt(false))
      case PauseParser => Step(q.(errno := Paused), None, None, [HeadersComplete], Halt(false))
      case NoBody => Told(HeadersComplete, StepHeadersDone(q.(flags := q.flags.(skipBody := true)), ch, hooks))
      case GoOn => Told(HeadersComplete, StepHeadersDone(q, ch, hooks))
  }

  function Told(n: Notify, s: Step): Step { s.(tells := [n] + s.tells) }

  function StepHeadersDone(p: Parser, ch: char, hooks: Hooks): Step {
    if ch != '\n' then Err(p, Strict)
    else
      var q := p.(nread := 0);
      if q.upgrade then
        var s := Complete(q, hooks);
        if s.exit.Next? then s.(exit := Leave) else s
      else if q.flags.skipBody then Complete(q, hooks)
      else if q.flags.chunked then Go(q, ChunkSizeStart)
      else if q.length == 0 then Complete(q, hooks)
      else if q.length != ULLONG_MAX then Go(q, BodyIdentity)
      else if q.kind.Request? || !MessageNeedsEof(q) then Complete(q, hooks)
      else Go(q, BodyIdentityEof)
  }

  // -------------------------------------------------------------------- body

  /** One byte of a body of known length; the last one also ends the message. */
  function StepBodyIdentity(p: Parser, hooks: Hooks): Step
    requires p.length > 0
  {
    var q := p.(length := p.length - 1);
    if q.length > 0 then Plain(q).(mark := Some(Body))
    else Complete(To(q, MessageDone), hooks).(mark := Some(Body), flush := Some(Flush(Body, true)))
  }

  function StepChunkData(p: Parser): Step
    requires p.length > 0
  {
    var q := p.(length := p.length - 1);
    (if q.length > 0 then Plain(q) else Go(q, ChunkDataAlmostDone)).(mark := Some(Body))
  }

  function StepChunkSize(p: Parser, ch: char): Step {
    var v := Unhex(ch);
    if ch == '\r' then Go(p, ChunkSizeAlmostDone)
    else if v == -1 then
      if ch == ';' || ch == ' ' then Go(p, ChunkParameters) else Err(p, InvalidChunkSize)
    else GrowLength(p, true, 16, v)
  }

  function StepChunkHeader(p: Parser, ch: char): Step {
    if p.state.ChunkSizeStart? then
      var v := Unhex(ch);
      if v == -1 then Err(p, InvalidChunkSize) else Go(p.(length := v), ChunkSize)
    else if p.state.ChunkSize? then StepChunkSize(p, ch)
    else if p.state.ChunkParameters? then
      if ch == '\r' then Go(p, ChunkSizeAlmostDone) else Plain(p)
    else if ch != '\n' then Err(p, Strict)
    else
      var q := p.(nread := 0);
      if q.length == 0 then Go(q.(flags := q.flags.(trailing := true)), HeaderFieldStart) else Go(q, ChunkData)
  }

  // ------------------------------------------------------------ the invariant

  predicate InChunks(s: State) {
    s.ChunkSizeStart? || s.ChunkSize? || s.ChunkParameters? || s.ChunkSizeAlmostDone? ||
    s.ChunkData? || s.ChunkDataAlmostDone? || s.ChunkDataDone?
  }

  /** The word a matching header kind compares with. */
  function Word(h: HeaderKind): string {
    if h.MatchingProxyConnection? then "proxy-connection"
    else if h.MatchingContentLength? then "content-length"
    else if h.MatchingTransferEncoding? then "transfer-encoding"
    else if h.MatchingUpgrade? then "upgrade"
    else if h.MatchingChunked? then "chunked"
    else if h.MatchingKeepAlive? then "keep-alive"
    else if h.MatchingClose? then "close"
    else "connection"
  }

  /** The kinds a header may have while its value is read: two of those left
      out are the "Shouldn't get here" assertion of the source. */
  predicate ValueKind(h: HeaderKind) {
    h.General? || h.ContentLength? || h.MatchingChunked? || h.MatchingKeepAlive? || h.MatchingClose? ||
    h.Chunked? || h.KeepAlive? || h.Close?
  }

  /** How far the matching of a header name has come. */
  predicate NamePosition(h: HeaderKind, index: nat) {
    if h.H_C? then index == 0
    else if h.H_CO? then index == 1
    else if h.H_CON? then index == 2
    else Counts(h) ==> index + 1 < |Word(h)|
  }

  predicate Bounded(p: Parser) {
    p.nread <= MAX_HEADER_SIZE && p.length <= ULLONG_MAX && p.major <= 999 && p.minor <= 999 && p.status <= 999
  }

  /** What is special about the state the parser is in: every assertion of the
      source follows from the clause for its state. */
  predicate Facts(p: Parser) {
    (p.state.ReqMethod? ==> p.index <= |MethodString(p.verb)|) &&
    (p.state.HeaderField? ==> NameKind(p.header) && NamePosition(p.header, p.index)) &&
    (p.state.HeaderValue? ==> ValueKind(p.header) && (CountsValue(p.header) ==> p.index + 1 < |Word(p.header)|)) &&
    (InChunks(p.state) ==> p.flags.chunked) &&
    (p.state.ChunkSizeStart? ==> p.nread == 0) &&
    (p.state.ChunkSize? || p.state.ChunkParameters? || p.state.ChunkSizeAlmostDone? ==> p.length != ULLONG_MAX) &&
    (p.state.BodyIdentity? || p.state.ChunkData? ==> p.length != 0 && p.length != ULLONG_MAX) &&
    (p.state.ChunkDataAlmostDone? ==> p.length == 0) &&
    !p.state.MessageDone?
  }

  /** A state about which there is nothing special. */
  predicate Free(s: State) {
    !s.ReqMethod? && !s.HeaderField? && !s.HeaderValue? && !InChunks(s) && !s.BodyIdentity? && !s.MessageDone?
  }

  /** What holds between two bytes while there is no error. */
  predicate Good(p: Parser) { p.errno.Ok? && Bounded(p) && Facts(p) }

  predicate Inv(p: Parser) { p.errno.Ok? ==> Good(p) }

  /** One byte counted against the header limit. */
  function Counted(p: Parser): Parser {
    if ParsingHeader(p.state) then p.(nread := p.nread + 1) else p
  }

  /** The switch, once the byte is counted. */
  function Switch(p: Parser, ch: char, hooks: Hooks): Step
    requires Good(p)
  {
    if Free(p.state) then SwitchFree(Counted(p), ch, hooks) else SwitchBusy(p, ch, hooks)
  }

  function SwitchFree(p: Parser, ch: char, hooks: Hooks): Step {
    if p.state.Dead? then if ch == '\r' || ch == '\n' then Plain(p) else Err(p, ClosedConnection)
    else if p.state.StartReqOrRes? then StepStartReqOrRes(p, ch, hooks)
    else if p.state.ResOrRespH? then StepResOrRespH(p, ch)
    else if p.state.StartRes? then StepStartRes(p, ch, hooks)
    else if p.state.StartReq? then StepStartReq(p, ch, hooks)
    else if p.state.HeaderFieldStart? then StepHeaderFieldStart(p, ch, hooks)
    else if p.state.HeaderValueStart? then StepHeaderValueStart(p, ch)
    else if p.state.HeaderAlmostDone? then StepHeaderAlmostDone(p, ch)
    else if p.state.HeaderValueLws? then StepHeaderValueLws(p, ch, hooks)
    else if p.state.HeadersAlmostDone? then StepHeadersAlmostDone(p, ch, hooks)
    else if p.state.HeadersDone? then StepHeadersDone(p, ch, hooks)
    else if p.state.BodyIdentityEof? then Plain(p).(mark := Some(Body))
    else SwitchLine(p, ch, hooks)
  }

  /** Within a request or response line. */
  function SwitchLine(p: Parser, ch: char, hooks: Hooks): Step {
    if p.state.ReqSpacesBeforeUrl? || InUrl(p.state) then StepUrl(p, ch)
    else if InRequestWord(p.state) then StepRequestWord(p, ch)
    else if InRequestVersion(p.state) then StepRequestVersion(p, ch)
    else if InResponseWord(p.state) then StepResponseWord(p, ch)
    else if InResponseVersion(p.state) then StepResponseVersion(p, ch)
    else StepResponseStatus(p, ch, hooks)
  }

  /** The states the source makes assertions about; here they are proved. */
  function SwitchBusy(q: Parser, ch: char, hooks: Hooks): Step
    requires Good(q) && !Free(q.state)
  {
    var p := Counted(q);
    if p.state.ReqMethod? then assert p.index <= |MethodString(p.verb)|; StepMethod(p, ch)
    else if p.state.HeaderField? then assert NameKind(p.header); StepHeaderField(p, ch)
    else if p.state.HeaderValue? then
      assert !p.header.Connection? && !p.header.TransferEncoding?;
      StepHeaderValue(p, ch)
    else if p.state.BodyIdentity? then
      assert p.length != 0 && p.length != ULLONG_MAX;
      StepBodyIdentity(p, hooks)
    else
      assert p.flags.chunked;
      SwitchChunked(p, ch)
  }

  function SwitchChunked(p: Parser, ch: char): Step
    requires p.state.ChunkSizeStart? ==> p.nread == 1
    requires p.state.ChunkData? ==> p.length != 0 && p.length != ULLONG_MAX
    requires p.state.ChunkDataAlmostDone? ==> p.length == 0
  {
    if p.state.ChunkData? then StepChunkData(p)
    else if p.state.ChunkDataAlmostDone? then
      if ch != '\r' then Err(p, Strict) else Go(p, ChunkDataDone).(flush := Some(Flush(Body, false)))
    else if p.state.ChunkDataDone? then
      if ch != '\n' then Err(p, Strict) else Go(p.(nread := 0), ChunkSizeStart)
    else StepChunkHeader(p, ch)
  }

  predicate InRequestWord(s: State) {
    s.ReqHttpStart? || s.ReqHttpH? || s.ReqHttpHT? || s.ReqHttpHTT? || s.ReqHttpHTTP?
  }

  predicate InRequestVersion(s: State) {
    s.ReqFirstMajor? || s.ReqMajor? || s.ReqFirstMinor? || s.ReqMinor? || s.ReqLineAlmostDone?
  }

  predicate InResponseWord(s: State) { s.ResH? || s.ResHT? || s.ResHTT? || s.ResHTTP? }

  predicate InResponseVersion(s: State) { s.ResFirstMajor? || s.ResMajor? || s.ResFirstMinor? || s.ResMinor? }

  /** One byte, counted and switched on. */
  function Advance(p: Parser, ch: char, hooks: Hooks): Step
    requires Good(p)
  {
    if ParsingHeader(p.state) && p.nread + 1 > MAX_HEADER_SIZE then
      Err(p.(nread := p.nread + 1), HeaderOverflow)
    else Switch(p, ch, hooks)
  }

  // ------------------------------------------------- the invariant is kept

  predicate Settles(s: Step) { s.p.errno.Ok? <==> s.exit.Next? || s.exit.Leave? }

  predicate Sound(s: Step) { Settles(s) && (s.p.errno.Ok? ==> Good(s.p)) }

  /** The step goes on to a state with nothing special about it, or stops. */
  predicate IsLight(s: Step) { Settles(s) && (s.p.errno.Ok? ==> Bounded(s.p) && Free(s.p.state)) }

  /** The same, which the comparison keeps the verifier from taking apart. */
  predicate Light(s: Step) { IsLight(s) == true }

  lemma LightIsSound(s: Step)
    requires Light(s)
    ensures Sound(s)
  {
  }

  lemma CompleteLight(p: Parser, hooks: Hooks)
    requires p.errno.Ok? && Bounded(p)
    ensures Light(Complete(p, hooks)) && !Complete(p, hooks).exit.Leave?
  {
  }

  lemma HeadersDoneSound(p: Parser, ch: char, hooks: Hooks)
    requires p.errno.Ok? && Bounded(p.(nread := 0))
    ensures Sound(StepHeadersDone(p, ch, hooks))
  {
    CompleteLight(p.(nread := 0), hooks);
    LightIsSound(Complete(p.(nread := 0), hooks));
  }

  lemma HeadersAlmostDoneSound(p: Parser, ch: char, hooks: Hooks)
    requires p.errno.Ok? && Bounded(p)
    ensures Sound(StepHeadersAlmostDone(p, ch, hooks))
  {
    CompleteLight(p, hooks);
    LightIsSound(Complete(p, hooks));
    var q := p.(state := HeadersDone, upgrade := p.flags.upgrade || p.verb == CONNECT);
    match hooks(HeadersComplete, q) {
      case NoBody => HeadersDoneSound(q.(flags := q.flags.(skipBody := true)), ch, hooks);
      case GoOn => HeadersDoneSound(q, ch, hooks);
      case _ =>
    }
  }

  lemma HeaderFieldStartSound(p: Parser, ch: char, hooks: Hooks)
    requires p.errno.Ok? && Bounded(p)
    ensures Sound(StepHeaderFieldStart(p, ch, hooks))
  {
    if ch == '\n' {
      HeadersAlmostDoneSound(To(p, HeadersAlmostDone), ch, hooks);
    }
  }

  lemma StartReqSound(p: Parser, ch: char, hooks: Hooks)
    requires p.errno.Ok? && Bounded(p) && p.state.StartReq?
    ensures Sound(StepStartReq(p, ch, hooks))
  {
  }

  lemma StartReqOrResSound(p: Parser, ch: char, hooks: Hooks)
    requires p.errno.Ok? && Bounded(p) && p.state.StartReqOrRes?
    ensures Sound(StepStartReqOrRes(p, ch, hooks))
  {
    var q := p.(flags := NO_FLAGS, length := ULLONG_MAX);
    if ch == 'H' {
      LightIsSound(Tell(To(q, ResOrRespH), MessageBegin, hooks));
    } else {
      StartReqSound(q.(kind := Request, state := StartReq), ch, hooks);
    }
  }

  lemma StartResLight(p: Parser, ch: char, hooks: Hooks)
    requires p.errno.Ok? && Bounded(p) && p.state.StartRes?
    ensures Light(StepStartRes(p, ch, hooks))
  {
  }

  lemma MajorLight(p: Parser, ch: char, next: State)
    requires p.errno.Ok? && Bounded(p) && Free(p.state) && Free(next)
    ensures Light(StepMajor(p, ch, next))
  {
  }

  lemma MinorLight(p: Parser, ch: char, next: State)
    requires p.errno.Ok? && Bounded(p) && Free(p.state) && Free(next)
    ensures Light(StepFirstMinor(p, ch, next)) && Light(StepMinorDigit(p, ch))
  {
  }

  lemma ExpectLight(p: Parser, ch: char, want: char, next: State)
    requires p.errno.Ok? && Bounded(p) && Free(next)
    ensures Light(Expect(p, ch, want, next))
  {
  }

  lemma ResponseWordLight(p: Parser, ch: char)
    requires p.errno.Ok? && Bounded(p) && Free(p.state)
    ensures Light(StepResponseWord(p, ch))
  {
    ExpectLight(p, ch, 'T', ResHT);
    ExpectLight(p, ch, 'T', ResHTT);
    ExpectLight(p, ch, 'P', ResHTTP);
    ExpectLight(p, ch, '/', ResFirstMajor);
  }

  lemma RequestWordLight(p: Parser, ch: char)
    requires p.errno.Ok? && Bounded(p) && Free(p.state)
    ensures Light(StepRequestWord(p, ch))
  {
    ExpectLight(p, ch, 'T', ReqHttpHT);
    ExpectLight(p, ch, 'T', ReqHttpHTT);
    ExpectLight(p, ch, 'P', ReqHttpHTTP);
    ExpectLight(p, ch, '/', ReqFirstMajor);
  }

  lemma ResponseVersionLight(p: Parser, ch: char)
    requires p.errno.Ok? && Bounded(p) && Free(p.state)
    ensures Light(StepResponseVersion(p, ch))
  {
    MajorLight(p, ch, ResFirstMinor);
    MinorLight(p, ch, ResMinor);
  }

  lemma ResponseStatusLight(p: Parser, ch: char, hooks: Hooks)
    requires p.errno.Ok? && Bounded(p) && Free(p.state)
    ensures Light(StepResponseStatus(p, ch, hooks))
  {
  }

  lemma RequestVersionLight(p: Parser, ch: char)
    requires p.errno.Ok? && Bounded(p) && Free(p.state)
    ensures Light(StepRequestVersion(p, ch))
  {
    MajorLight(p, ch, ReqFirstMinor);
    MinorLight(p, ch, ReqMinor);
  }

  lemma UrlCharLight(p: Parser, from: State, ch: char)
    requires p.errno.Ok? && Bounded(p) && Free(p.state)
    ensures Light(UrlChar(p, from, ch))
  {
    assert Free(ParseUrlChar(from, ch));
  }

  lemma UrlLight(p: Parser, ch: char)
    requires p.errno.Ok? && Bounded(p) && Free(p.state)
    ensures Light(StepUrl(p, ch))
  {
    UrlCharLight(p, if p.state.ReqSpacesBeforeUrl? && p.verb == CONNECT then ReqServerStart else p.state, ch);
  }

  lemma MethodSound(p: Parser, ch: char)
    requires Good(p) && p.state.ReqMethod?
    ensures Sound(StepMethod(p, ch))
  {
  }

  lemma NameCharKind(h: HeaderKind, index: nat, ch: char, c: char)
    requires NameKind(h) && NamePosition(h, index)
    ensures var i := if Counts(h) then index + 1 else index;
            var k := NameChar(h, i, ch, c); NameKind(k) && NamePosition(k, i)
  {
  }

  lemma HeaderFieldSound(p: Parser, ch: char)
    requires Good(p) && p.state.HeaderField?
    ensures Sound(StepHeaderField(p, ch))
  {
    if Token(ch) != '\0' {
      NameCharKind(p.header, p.index, ch, Token(ch));
    } else {
      LightIsSound(StepNameEnd(p, ch));
    }
  }

  lemma HeaderValueStartSound(p: Parser, ch: char)
    requires p.errno.Ok? && Bounded(p) && p.state.HeaderValueStart?
    ensures Sound(StepHeaderValueStart(p, ch))
  {
    FirstValueCharSound(p.(state := HeaderValue, index := 0), ch);
  }

  lemma FirstValueCharSound(p: Parser, ch: char)
    requires p.errno.Ok? && Bounded(p) && p.state.HeaderValue? && p.index == 0
    ensures Sound(FirstValueChar(p, ch))
  {
  }

  lemma HeaderAlmostDoneLight(p: Parser, ch: char)
    requires p.errno.Ok? && Bounded(p)
    ensures Light(StepHeaderAlmostDone(p, ch))
  {
  }

  lemma GrowLengthSound(p: Parser, digit: bool, base: nat, d: nat)
    requires Good(p) && (p.state.HeaderValue? || p.state.ChunkSize?)
    ensures Sound(GrowLength(p, digit, base, d))
  {
  }

  lemma ValueCharKind(h: HeaderKind, index: nat, ch: char)
    requires ValueKind(h) && !h.ContentLength? && (CountsValue(h) ==> 0 < index < |Word(h)|)
    ensures var k := ValueChar(h, index, ch); ValueKind(k) && (CountsValue(k) ==> index + 1 < |Word(k)|)
  {
  }

  lemma HeaderValueSound(p: Parser, ch: char)
    requires Good(p) && p.state.HeaderValue?
    ensures Sound(StepHeaderValue(p, ch))
  {
    if ch == '\n' {
      HeaderAlmostDoneLight(To(p, HeaderAlmostDone), ch);
      LightIsSound(StepHeaderValue(p, ch));
    } else if ch == '\r' {
      LightIsSound(StepHeaderValue(p, ch));
    } else if p.header.ContentLength? {
      GrowLengthSound(p, IsNum(ch), 10, if IsNum(ch) then NumValue(ch) else 0);
    } else {
      ValueCharKind(p.header, if CountsValue(p.header) then p.index + 1 else p.index, ch);
    }
  }

  lemma ChunkHeaderSound(p: Parser, ch: char)
    requires p.errno.Ok? && Bounded(p) && Facts(p.(nread := 0))
    requires p.state.ChunkSizeStart? || p.state.ChunkSize? || p.state.ChunkParameters? || p.state.ChunkSizeAlmostDone?
    ensures Sound(StepChunkHeader(p, ch))
  {
    if p.state.ChunkSize? && Unhex(ch) != -1 { GrowLengthSound(p, true, 16, Unhex(ch)); }
  }

  lemma BodyIdentityLight(p: Parser, hooks: Hooks)
    requires Good(p) && p.state.BodyIdentity?
    ensures Sound(StepBodyIdentity(p, hooks))
  {
    var q := p.(length := p.length - 1);
    CompleteLight(To(q, MessageDone), hooks);
    LightIsSound(Complete(To(q, MessageDone), hooks));
  }

  lemma ChunkDataSound(p: Parser)
    requires Good(p) && p.state.ChunkData?
    ensures Sound(StepChunkData(p))
  {
  }

  lemma ChunkEndSound(p: Parser)
    requires Good(p) && (p.state.ChunkDataAlmostDone? || p.state.ChunkDataDone?)
    ensures Sound(Go(p, ChunkDataDone)) && Sound(Go(p.(nread := 0), ChunkSizeStart))
  {
  }

  lemma SwitchLineLight(p: Parser, ch: char, hooks: Hooks)
    requires p.errno.Ok? && Bounded(p) && Free(p.state)
    ensures Light(SwitchLine(p, ch, hooks))
  {
    UrlLight(p, ch);
    RequestWordLight(p, ch);
    ResponseWordLight(p, ch);
    RequestVersionLight(p, ch);
    ResponseVersionLight(p, ch);
    ResponseStatusLight(p, ch, hooks);
  }

  lemma MiscSound(p: Parser, ch: char)
    requires p.errno.Ok? && Bounded(p) && Free(p.state)
    ensures Sound(Err(p, ClosedConnection)) && Sound(Plain(p)) && Sound(Plain(p).(mark := Some(Body)))
    ensures Sound(StepResOrRespH(p, ch))
  {
  }

  lemma SwitchFreeSound(p: Parser, ch: char, hooks: Hooks)
    requires p.errno.Ok? && Bounded(p) && Free(p.state)
    ensures Sound(SwitchFree(p, ch, hooks))
  {
    if p.state.StartReqOrRes? { StartReqOrResSound(p, ch, hooks); }
    else if p.state.StartRes? { StartResLight(p, ch, hooks); LightIsSound(StepStartRes(p, ch, hooks)); }
    else if p.state.StartReq? { StartReqSound(p, ch, hooks); }
    else if p.state.HeaderFieldStart? { HeaderFieldStartSound(p, ch, hooks); }
    else if p.state.HeaderValueStart? { HeaderValueStartSound(p, ch); }
    else if p.state.HeaderAlmostDone? { HeaderAlmostDoneLight(p, ch); LightIsSound(StepHeaderAlmostDone(p, ch)); }
    else if p.state.HeaderValueLws? { HeaderValueLwsSound(p, ch, hooks); }
    else if p.state.HeadersAlmostDone? { HeadersAlmostDoneSound(p, ch, hooks); }
    else if p.state.HeadersDone? { HeadersDoneSound(p, ch, hooks); }
    else if p.state.Dead? || p.state.ResOrRespH? || p.state.BodyIdentityEof? { MiscSound(p, ch); }
    else { SwitchLineLight(p, ch, hooks); LightIsSound(SwitchLine(p, ch, hooks)); }
  }

  lemma HeaderValueLwsSound(p: Parser, ch: char, hooks: Hooks)
    requires p.errno.Ok? && Bounded(p)
    ensures Sound(StepHeaderValueLws(p, ch, hooks))
  {
    HeaderFieldStartSound(To(p, HeaderFieldStart), ch, hooks);
  }

  lemma SwitchBusySound(p: Parser, ch: char, hooks: Hooks)
    requires Good(p) && !Free(p.state) && Bounded(Counted(p))
    ensures Sound(SwitchBusy(p, ch, hooks))
  {
    var q := Counted(p);
    if p.state.ReqMethod? { MethodSound(q, ch); }
    else if p.state.HeaderField? { HeaderFieldSound(q, ch); }
    else if p.state.HeaderValue? { HeaderValueSound(q, ch); }
    else if p.state.BodyIdentity? { BodyIdentityLight(q, hooks); }
    else { SwitchChunkedSound(p, q, ch); }
  }

  lemma SwitchChunkedSound(p: Parser, q: Parser, ch: char)
    requires Good(p) && InChunks(p.state) && q == Counted(p) && Bounded(q)
    ensures Sound(SwitchChunked(q, ch))
  {
    if p.state.ChunkData? { ChunkDataSound(q); }
    else if p.state.ChunkDataAlmostDone? || p.state.ChunkDataDone? { ChunkEndSound(q); }
    else { ChunkHeaderSound(q, ch); }
  }

  /** Every byte keeps the invariant, or ends in an error. */
  lemma AdvanceSound(p: Parser, ch: char, hooks: Hooks)
    requires Good(p)
    ensures Sound(Advance(p, ch, hooks))
  {
    if !(ParsingHeader(p.state) && p.nread + 1 > MAX_HEADER_SIZE) {
      if Free(p.state) {
        SwitchFreeSound(Counted(p), ch, hooks);
      } else {
        SwitchBusySound(p, ch, hooks);
      }
    }
  }
}
