/** RESP replies, their wire form, and a recursive grammar for them.

  Nothing here knows about buffers, feeds or task stacks: it is the reference
  the incremental reader of `RedisReader` is proved against. */
module RedisGrammar {
  import opened Common

  /** A reply tree. `NegativeArray` is what a count below -1 produces: an array
      object without elements whose count field is negative. */
  datatype Reply =
    | Status(text: string)
    | Failure(text: string)
    | Integer(number: int)
    | Bulk(text: string)
    | Nil
    | Array(elems: seq<Reply>)
    | NegativeArray(count: int)

  datatype ProtocolError = BadTypeByte(c: char) | TooDeep

  /** Nested arrays may not start at this stack index. */
  const MAX_DEPTH: nat := 8

  const CRLF: string := "\r\n"

  // ---------------------------------------------------------------- lines

  predicate IsCrlfAt(s: string, j: int) {
    0 <= j && j + 1 < |s| && s[j] == '\r' && s[j + 1] == '\n'
  }

  /** Position of the first CRLF. */
  function FirstCrlf(s: string): (r: Option<nat>)
    ensures r.Some? ==> IsCrlfAt(s, r.value) && forall j | 0 <= j < r.value :: !IsCrlfAt(s, j)
    ensures r.None? ==> forall j :: !IsCrlfAt(s, j)
  {
    if |s| < 2 then None
    else if IsCrlfAt(s, 0) then Some(0)
    else
      var r := FirstCrlf(s[1..]);
      assert forall j | j >= 1 :: IsCrlfAt(s, j) <==> IsCrlfAt(s[1..], j - 1);
      if r.None? then None else Some(r.value + 1)
  }

  lemma FirstCrlfIs(s: string, k: nat)
    requires IsCrlfAt(s, k)
    requires forall j | 0 <= j < k :: !IsCrlfAt(s, j)
    ensures FirstCrlf(s) == Some(k)
  {
    var r := FirstCrlf(s);
    assert r.Some? && k >= r.value;
  }

  lemma FirstCrlfAppend(s: string, x: string)
    requires FirstCrlf(s).Some?
    ensures FirstCrlf(s + x) == FirstCrlf(s)
  {
    var k := FirstCrlf(s).value;
    forall j | 0 <= j < k ensures !IsCrlfAt(s + x, j) {
      assert !IsCrlfAt(s, j);
    }
    FirstCrlfIs(s + x, k);
  }

  // ------------------------------------------------------------- numerals

  predicate IsDigit(c: char) { '0' <= c <= '9' }

  function DigitValue(c: char): nat
    requires IsDigit(c)
  {
    c as int - '0' as int
  }

  /** Digits of a numeral up to the first CR or the end, accumulated onto `v`:
      `None` on leaving the range of long long, `Some(-1)` on any other byte.
      `sign` is applied to the final value only. */
  function ReadDigits(s: string, v: nat, sign: int): Option<int> {
    if s == "" || s[0] == '\r' then Some(sign * v)
    else if !IsDigit(s[0]) then Some(-1)
    else
      var w := v * 10 + DigitValue(s[0]);
      if w > LLONG_MAX then None else ReadDigits(s[1..], w, sign)
  }

  /** The value a numeral line denotes to the reader. */
  function ReadLongLong(line: string): Option<int> {
    if line != "" && line[0] == '-' then ReadDigits(line[1..], 0, -1)
    else if line != "" && line[0] == '+' then ReadDigits(line[1..], 0, 1)
    else ReadDigits(line, 0, 1)
  }

  // -------------------------------------------------------------- grammar

  /** The first construct of `s`: a whole leaf, the header of a non-empty
      array, or a reason why there is none. */
  datatype Token =
    | NeedMore
    | Leaf(reply: Reply, rest: string)
    | Open(count: nat, rest: string)
    | Bad(error: ProtocolError)
    | OutOfRange

  function LineToken(c: char, body: string): Token
    requires c in "+-:"
  {
    match FirstCrlf(body)
    case None => NeedMore
    case Some(k) =>
      var rest := body[k + 2..];
      if c == ':' then
        match ReadLongLong(body[..k])
        case None => OutOfRange
        case Some(n) => Leaf(Integer(n), rest)
      else
        Leaf(if c == '+' then Status(body[..k]) else Failure(body[..k]), rest)
  }

  function BulkToken(body: string): Token {
    match FirstCrlf(body)
    case None => NeedMore
    case Some(k) =>
      match ReadLongLong(body[..k])
      case None => OutOfRange
      case Some(n) =>
        var rest := body[k + 2..];
        if n < 0 then Leaf(Nil, rest)
        else if n + 2 > LLONG_MAX then OutOfRange
        else if n + 2 > |rest| then NeedMore
        else Leaf(Bulk(rest[..n]), rest[n + 2..])
  }

  function ArrayToken(body: string, depth: nat): Token {
    if depth == MAX_DEPTH then Bad(TooDeep)
    else
      match FirstCrlf(body)
      case None => NeedMore
      case Some(k) =>
        match ReadLongLong(body[..k])
        case None => OutOfRange
        case Some(n) =>
          var rest := body[k + 2..];
          if n == -1 then Leaf(Nil, rest)
          else if n < INT_MIN || n > INT_MAX then OutOfRange
          else if n > 0 then Open(n, rest)
          else if n == 0 then Leaf(Array([]), rest)
          else Leaf(NegativeArray(n), rest)
  }

  function NextToken(s: string, depth: nat): (t: Token)
    ensures t.Leaf? ==> |t.rest| < |s|
    ensures t.Open? ==> |t.rest| < |s| && 0 < t.count <= INT_MAX && depth != MAX_DEPTH
  {
    if s == "" then NeedMore
    else if s[0] in "+-:" then LineToken(s[0], s[1..])
    else if s[0] == '$' then BulkToken(s[1..])
    else if s[0] == '*' then ArrayToken(s[1..], depth)
    else Bad(BadTypeByte(s[0]))
  }

  /** The same token with `x` added after the input it was read from. */
  function Extended(t: Token, x: string): Token {
    match t
    case Leaf(v, rest) => Leaf(v, rest + x)
    case Open(n, rest) => Open(n, rest + x)
    case _ => t
  }

  /** Where the first line of `s` ends, and what follows, after `x` is added. */
  lemma LineAppend(s: string, x: string)
    requires FirstCrlf(s).Some?
    ensures FirstCrlf(s + x) == FirstCrlf(s)
    ensures var k := FirstCrlf(s).value;
            (s + x)[..k] == s[..k] && (s + x)[k + 2..] == s[k + 2..] + x
  {
    FirstCrlfAppend(s, x);
  }

  lemma BulkTokenAppend(body: string, x: string)
    requires !BulkToken(body).NeedMore?
    ensures BulkToken(body + x) == Extended(BulkToken(body), x)
  {
    LineAppend(body, x);
    var k := FirstCrlf(body).value;
    var rest := body[k + 2..];
    match ReadLongLong(body[..k]) {
      case None =>
      case Some(n) =>
        if 0 <= n && n + 2 <= |rest| {
          assert (rest + x)[..n] == rest[..n];
          assert (rest + x)[n + 2..] == rest[n + 2..] + x;
        }
    }
  }

  /** More input never changes a token that is already decided. */
  lemma NextTokenAppend(s: string, x: string, depth: nat)
    requires !NextToken(s, depth).NeedMore?
    ensures NextToken(s + x, depth) == Extended(NextToken(s, depth), x)
  {
    var body := s[1..];
    assert (s + x)[0] == s[0] && (s + x)[1..] == body + x;
    if s[0] in "+-:" {
      LineAppend(body, x);
    } else if s[0] == '$' {
      BulkTokenAppend(body, x);
    } else if s[0] == '*' && depth != MAX_DEPTH {
      LineAppend(body, x);
    }
  }

  datatype Outcome<+T> =
    | Done(value: T, rest: string)
    | Incomplete
    | Broken(error: ProtocolError)
    | Unrepresentable

  /** One reply at nesting level `depth`. */
  function ParseReply(s: string, depth: nat): (o: Outcome<Reply>)
    ensures o.Done? ==> |o.rest| < |s|
    decreases |s|, 0
  {
    match NextToken(s, depth)
    case NeedMore => Incomplete
    case Bad(e) => Broken(e)
    case OutOfRange => Unrepresentable
    case Leaf(v, rest) => Done(v, rest)
    case Open(n, rest) =>
      match ParseReplies(rest, n, depth + 1)
      case Done(vs, rest') => Done(Array(vs), rest')
      case Incomplete => Incomplete
      case Broken(e) => Broken(e)
      case Unrepresentable => Unrepresentable
  }

  /** Exactly `n` replies in a row at nesting level `depth`. */
  function ParseReplies(s: string, n: nat, depth: nat): (o: Outcome<seq<Reply>>)
    ensures o.Done? ==> |o.rest| <= |s| && |o.value| == n
    decreases |s|, 1
  {
    if n == 0 then Done([], s)
    else
      match ParseReply(s, depth)
      case Incomplete => Incomplete
      case Broken(e) => Broken(e)
      case Unrepresentable => Unrepresentable
      case Done(v, rest) =>
        match ParseReplies(rest, n - 1, depth)
        case Done(vs, rest') => Done([v] + vs, rest')
        case Incomplete => Incomplete
        case Broken(e) => Broken(e)
        case Unrepresentable => Unrepresentable
  }

  datatype Ending = AwaitingMore | ProtocolFailure(error: ProtocolError) | NumeralOverflow

  datatype Stream = Stream(replies: seq<Reply>, ending: Ending)

  /** A whole input read as a sequence of replies. */
  function ParseStream(s: string): Stream
    decreases |s|
  {
    match ParseReply(s, 0)
    case Incomplete => Stream([], AwaitingMore)
    case Broken(e) => Stream([], ProtocolFailure(e))
    case Unrepresentable => Stream([], NumeralOverflow)
    case Done(v, rest) => var t := ParseStream(rest); Stream([v] + t.replies, t.ending)
  }
}
