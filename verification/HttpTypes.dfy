/** The vocabulary of the HTTP parser: its states, flags, errors and the
  character classes of strict mode. A byte is a `char`; the tables have no
  entry above 255. */
module HttpTypes {
  datatype ParserType = Request | Response | Both

  datatype State =
    | Dead
    | StartReqOrRes | ResOrRespH | StartRes
    | ResH | ResHT | ResHTT | ResHTTP
    | ResFirstMajor | ResMajor | ResFirstMinor | ResMinor
    | ResFirstStatusCode | ResStatusCode | ResStatus | ResLineAlmostDone
    | StartReq | ReqMethod | ReqSpacesBeforeUrl
    | ReqSchema | ReqSchemaSlash | ReqSchemaSlashSlash
    | ReqServerStart | ReqServer | ReqServerWithAt
    | ReqPath | ReqQueryStart | ReqQuery | ReqFragmentStart | ReqFragment
    | ReqHttpStart | ReqHttpH | ReqHttpHT | ReqHttpHTT | ReqHttpHTTP
    | ReqFirstMajor | ReqMajor | ReqFirstMinor | ReqMinor | ReqLineAlmostDone
    | HeaderFieldStart | HeaderField
    | HeaderValueStart | HeaderValue | HeaderValueLws | HeaderAlmostDone
    | ChunkSizeStart | ChunkSize | ChunkParameters | ChunkSizeAlmostDone
    | HeadersAlmostDone | HeadersDone
    | ChunkData | ChunkDataAlmostDone | ChunkDataDone
    | BodyIdentity | BodyIdentityEof
    | MessageDone

  /** The states up to `s_headers_done`, whose bytes count against the limit. */
  predicate ParsingHeader(s: State) {
    !(s.ChunkData? || s.ChunkDataAlmostDone? || s.ChunkDataDone? || s.BodyIdentity? || s.BodyIdentityEof? || s.MessageDone?)
  }

  datatype HeaderKind =
    | General | H_C | H_CO | H_CON
    | MatchingConnection | MatchingProxyConnection | MatchingContentLength
    | MatchingTransferEncoding | MatchingUpgrade
    | Connection | ContentLength | TransferEncoding | Upgrade
    | MatchingChunked | MatchingKeepAlive | MatchingClose
    | Chunked | KeepAlive | Close

  datatype Flags = Flags(chunked: bool, keepAlive: bool, close: bool, trailing: bool, upgrade: bool, skipBody: bool)

  const NO_FLAGS: Flags := Flags(false, false, false, false, false, false)

  datatype Errno =
    | Ok
    | CallbackFailed(which: Notify)
    | InvalidEofState | HeaderOverflow | ClosedConnection
    | InvalidVersion | InvalidStatus | InvalidMethod | InvalidUrl
    | LfExpected | InvalidHeaderToken | InvalidContentLength | InvalidChunkSize
    | InvalidConstant | Strict | Paused

  datatype Method =
    | DELETE | GET | HEAD | POST | PUT | CONNECT | OPTIONS | TRACE
    | COPY | LOCK | MKCOL | MOVE | PROPFIND | PROPPATCH | SEARCH | UNLOCK
    | REPORT | MKACTIVITY | CHECKOUT | MERGE
    | MSEARCH | NOTIFY | SUBSCRIBE | UNSUBSCRIBE
    | PATCH | PURGE

  function MethodString(m: Method): (s: string) {
    match m
    case DELETE => "DELETE" case GET => "GET" case HEAD => "HEAD" case POST => "POST" case PUT => "PUT"
    case CONNECT => "CONNECT" case OPTIONS => "OPTIONS" case TRACE => "TRACE"
    case COPY => "COPY" case LOCK => "LOCK" case MKCOL => "MKCOL" case MOVE => "MOVE"
    case PROPFIND => "PROPFIND" case PROPPATCH => "PROPPATCH" case SEARCH => "SEARCH" case UNLOCK => "UNLOCK"
    case REPORT => "REPORT" case MKACTIVITY => "MKACTIVITY" case CHECKOUT => "CHECKOUT" case MERGE => "MERGE"
    case MSEARCH => "M-SEARCH" case NOTIFY => "NOTIFY"
    case SUBSCRIBE => "SUBSCRIBE" case UNSUBSCRIBE => "UNSUBSCRIBE"
    case PATCH => "PATCH" case PURGE => "PURGE"
  }

  datatype Notify = MessageBegin | StatusComplete | HeadersComplete | MessageComplete

  datatype Data = Url | Field | Value | Body

  /** What a notification callback answers: go on, fail, pause the parser, or
      (headers complete only) declare that there is no body. */
  datatype Verdict = GoOn | Fail | PauseParser | NoBody

  datatype Parser = Parser(
    kind: ParserType,
    flags: Flags,
    state: State,
    header: HeaderKind,
    index: nat,
    nread: nat,
    length: nat,          // content_length
    major: nat,
    minor: nat,
    status: nat,
    verb: Method,
    errno: Errno,
    upgrade: bool)

  type Hooks = (Notify, Parser) -> Verdict

  const ULLONG_MAX: nat := 0xffff_ffff_ffff_ffff
  const MAX_HEADER_SIZE: nat := 80 * 1024

  function InitialState(t: ParserType): State {
    match t case Request => StartReq case Response => StartRes case Both => StartReqOrRes
  }

  function InitialParser(t: ParserType): Parser {
    Parser(t, NO_FLAGS, InitialState(t), General, 0, 0, 0, 0, 0, 0, DELETE, Ok, false)
  }

  // ------------------------------------------------------ character classes

  /** `c | 0x20` */
  function Lower(c: char): char {
    if c < 256 as char && (c as int / 32) % 2 == 0 then (c as int + 32) as char else c
  }

  predicate IsAlpha(c: char) { 'a' <= Lower(c) <= 'z' }

  predicate IsNum(c: char) { '0' <= c <= '9' }

  function NumValue(c: char): nat
    requires IsNum(c)
  {
    c as int - '0' as int
  }

  predicate IsAlphaNum(c: char) { IsAlpha(c) || IsNum(c) }

  predicate IsHex(c: char) { IsNum(c) || 'a' <= Lower(c) <= 'f' }

  predicate IsMark(c: char) { c in "-_.!~*'()" }

  predicate IsUserinfoChar(c: char) { IsAlphaNum(c) || IsMark(c) || c in "%;:&=+$," }

  predicate IsHostChar(c: char) { IsAlphaNum(c) || c == '.' || c == '-' }

  /** The `normal_url_char` table: visible ASCII other than `#` and `?`. */
  predicate IsUrlChar(c: char) { '!' <= c <= '~' && c != '#' && c != '?' }

  /** The `tokens` table: the lower-cased token character, or NUL. */
  function Token(c: char): char {
    if 'A' <= c <= 'Z' then (c as int + 32) as char
    else if 'a' <= c <= 'z' || '0' <= c <= '9' || c in "!#$%&'*+-.^_`|~" then c
    else '\0'
  }

  /** The `unhex` table: -1 for other ASCII, and 0 above it, where the table
      has no initialisers. */
  function Unhex(c: char): (v: int)
    ensures -1 <= v < 16
  {
    if '0' <= c <= '9' then c as int - '0' as int
    else if 'a' <= c <= 'f' then c as int - 'a' as int + 10
    else if 'A' <= c <= 'F' then c as int - 'A' as int + 10
    else if c >= 128 as char then 0
    else -1
  }
}
