/** The wire form of replies: every spelling that a server may choose, and what
  the grammar makes of it. */
module RedisWire {
  import opened Common
  import opened RedisGrammar

  // ---------------------------------------------------------------- numerals

  function Decimal(n: nat): (s: string)
    ensures |s| > 0 && forall c | c in s :: IsDigit(c)
  {
    if n < 10 then [('0' as int + n) as char]
    else Decimal(n / 10) + [('0' as int + n % 10) as char]
  }

  function SignedDecimal(n: int): string {
    if n < 0 then "-" + Decimal(-n) else Decimal(n)
  }

  const DIGITS: string := "0123456789"

  predicate Signed(sign: string) { sign == "" || sign == "+" || sign == "-" }

  predicate Digits(d: string) { forall c <- d :: c in DIGITS }

  /** The number that digits stand for, the last one counting least. */
  function ValueOf(d: string): nat
    requires Digits(d)
    decreases |d|
  {
    if d == "" then 0
    else
      var c := d[|d| - 1];
      assert forall e <- d[..|d| - 1] :: e in d;
      10 * ValueOf(d[..|d| - 1]) +
      if c == '0' then 0 else if c == '1' then 1 else if c == '2' then 2 else if c == '3' then 3 else if c == '4' then 4
      else if c == '5' then 5 else if c == '6' then 6 else if c == '7' then 7 else if c == '8' then 8 else 9
  }

  /** Digits in any number, zeros in front included, behind a sign or none. */
  predicate NumeralOf(s: string, n: int, sign: string, d: string) {
    Signed(sign) && s == sign + d && Digits(d) && ValueOf(d) <= LLONG_MAX &&
    if sign == "-" then n == -(ValueOf(d) as int) else n == ValueOf(d)
  }

  /** What the reader takes for -1: after a sign and some digits, or none, a
      character that is no digit. */
  predicate GarbledOf(s: string, sign: string, d: string, more: string) {
    Signed(sign) && s == sign + d + more && Digits(d) && ValueOf(d) <= LLONG_MAX && '\r' !in s &&
    more != "" && more[0] !in DIGITS && (sign + d == "" ==> more[0] != '+' && more[0] != '-')
  }

  /** A line that the reader takes for the number `n`. */
  ghost predicate Spelled(s: string, n: int) {
    (exists sign, d :: NumeralOf(s, n, sign, d)) || (n == -1 && exists sign, d, more :: GarbledOf(s, sign, d, more))
  }

  /** The same, which the comparison keeps the verifier from taking apart. */
  ghost predicate Spells(s: string, n: int) { Spelled(s, n) == true }

  lemma InDigits(c: char)
    ensures c in DIGITS <==> IsDigit(c)
  {
  }

  /** Reading digits in two parts. */
  lemma {:induction false} ReadDigitsAppend(a: string, b: string, v: nat, w: nat, sign: int)
    requires forall c | c in a :: IsDigit(c)
    requires ReadDigits(a, v, 1) == Some(w)
    ensures ReadDigits(a + b, v, sign) == ReadDigits(b, w, sign)
  {
    if a == "" {
      assert a + b == b;
    } else {
      assert IsDigit(a[0]);
      var v' := v * 10 + DigitValue(a[0]);
      assert v' <= LLONG_MAX;
      assert (a + b)[0] == a[0] && (a + b)[1..] == a[1..] + b;
      ReadDigitsAppend(a[1..], b, v', w, sign);
    }
  }

  /** Digits are read as the number they stand for, and the rest after them. */
  lemma {:induction false} ReadNumber(d: string, b: string, sign: int)
    requires Digits(d) && ValueOf(d) <= LLONG_MAX
    ensures ReadDigits(d + b, 0, sign) == ReadDigits(b, ValueOf(d), sign)
    decreases |d|
  {
    if d == "" {
      assert d + b == b;
    } else {
      var init, c := d[..|d| - 1], d[|d| - 1];
      assert forall e <- init :: e in d;
      InDigits(c);
      ReadNumber(init, [c] + b, sign);
      assert d + b == init + ([c] + b) && ([c] + b)[1..] == b;
    }
  }

  lemma UnsignedRead(d: string, b: string)
    requires Digits(d) && ValueOf(d) <= LLONG_MAX
    requires d == "" && b != "" ==> b[0] != '+' && b[0] != '-'
    ensures ReadLongLong(d + b) == ReadDigits(b, ValueOf(d), 1)
  {
    ReadNumber(d, b, 1);
    if d != "" {
      assert d[0] in d;
      InDigits(d[0]);
    } else {
      assert d + b == b;
    }
  }

  lemma SignedRead(sign: string, d: string, b: string)
    requires (sign == "+" || sign == "-") && Digits(d) && ValueOf(d) <= LLONG_MAX
    ensures ReadLongLong(sign + d + b) == ReadDigits(b, ValueOf(d), if sign == "-" then -1 else 1)
  {
    var s := sign + d + b;
    assert s[0] == sign[0] && s[1..] == d + b;
    ReadNumber(d, b, if sign == "-" then -1 else 1);
  }

  lemma EitherRead(sign: string, d: string, b: string)
    requires Signed(sign) && Digits(d) && ValueOf(d) <= LLONG_MAX
    requires sign + d == "" && b != "" ==> b[0] != '+' && b[0] != '-'
    ensures ReadLongLong(sign + d + b) == ReadDigits(b, ValueOf(d), if sign == "-" then -1 else 1)
  {
    if sign == "" {
      assert sign + d + b == d + b && sign + d == d;
      UnsignedRead(d, b);
    } else {
      SignedRead(sign, d, b);
    }
  }

  lemma NumeralRead(s: string, n: int, sign: string, d: string)
    requires NumeralOf(s, n, sign, d)
    ensures ReadLongLong(s) == Some(n) && '\r' !in s
  {
    EitherRead(sign, d, "");
    assert sign + d + "" == s;
  }

  lemma GarbledRead(s: string, sign: string, d: string, more: string)
    requires GarbledOf(s, sign, d, more)
    ensures ReadLongLong(s) == Some(-1)
  {
    InDigits(more[0]);
    assert more[0] == s[|sign + d|] && more[0] in s;
    EitherRead(sign, d, more);
  }

  lemma ReadSpelled(s: string, n: int)
    requires Spells(s, n)
    ensures ReadLongLong(s) == Some(n) && '\r' !in s
  {
    if sign, d :| NumeralOf(s, n, sign, d) {
      NumeralRead(s, n, sign, d);
    } else {
      var sign, d, more :| GarbledOf(s, sign, d, more);
      GarbledRead(s, sign, d, more);
    }
  }

  lemma {:induction false} DecimalNumber(n: nat)
    ensures Digits(Decimal(n)) && ValueOf(Decimal(n)) == n
  {
    forall c | c in Decimal(n) ensures c in DIGITS { InDigits(c); }
    var c := ('0' as int + n % 10) as char;
    if n < 10 {
      assert [c][..0] == "";
    } else {
      DecimalNumber(n / 10);
      assert (Decimal(n / 10) + [c])[..|Decimal(n / 10)|] == Decimal(n / 10);
    }
  }

  /** The way a client writes a number is one of them. */
  lemma DecimalSpells(n: nat)
    requires n <= LLONG_MAX
    ensures Spells(Decimal(n), n)
  {
    DecimalNumber(n);
    assert NumeralOf(Decimal(n), n, "", Decimal(n));
  }

  // --------------------------------------------------------------- the forms

  /** A reply as it is written: with the line that stands for its number, count
      or length. Nil is a negative length or the count -1. */
  datatype Wire =
    | Plain(text: string)
    | Fault(text: string)
    | Number(numeral: string, number: int)
    | Text(size: string, text: string)
    | NoText(size: string, length: int)
    | List(count: string, items: seq<Wire>)
    | NoList(count: string, negative: int)

  /** The reply that is meant. */
  function Meaning(w: Wire): Reply {
    match w
    case Plain(t) => Status(t)
    case Fault(t) => Failure(t)
    case Number(_, n) => Integer(n)
    case Text(_, t) => Bulk(t)
    case NoText(_, _) => Nil
    case List(_, ws) => Array(Meanings(ws))
    case NoList(_, n) => if n == -1 then Nil else NegativeArray(n)
  }

  function Meanings(ws: seq<Wire>): (vs: seq<Reply>)
    ensures |vs| == |ws|
  {
    if ws == [] then [] else [Meaning(ws[0])] + Meanings(ws[1..])
  }

  function Encode(w: Wire): string
    decreases w, 0
  {
    match w
    case Plain(t) => "+" + t + CRLF
    case Fault(t) => "-" + t + CRLF
    case Number(s, _) => ":" + s + CRLF
    case Text(s, t) => "$" + s + CRLF + t + CRLF
    case NoText(s, _) => "$" + s + CRLF
    case List(s, ws) => "*" + s + CRLF + EncodeAll(ws)
    case NoList(s, _) => "*" + s + CRLF
  }

  function EncodeAll(ws: seq<Wire>): string
    decreases ws, 1
  {
    if ws == [] then "" else Encode(ws[0]) + EncodeAll(ws[1..])
  }

  ghost predicate NoCrlf(t: string) { forall j :: !IsCrlfAt(t, j) }

  /** The lines are spelled right, nesting aside. */
  ghost predicate Fits(w: Wire)
    decreases w, 0
  {
    match w
    case Plain(t) => NoCrlf(t)
    case Fault(t) => NoCrlf(t)
    case Number(s, n) => Spells(s, n)
    case Text(s, t) => Spells(s, |t|) && |t| + 2 <= LLONG_MAX
    case NoText(s, n) => Spells(s, n) && n < 0
    case List(s, ws) => Spells(s, |ws|) && |ws| <= INT_MAX && AllFit(ws)
    case NoList(s, n) => Spells(s, n) && INT_MIN <= n < 0
  }

  ghost predicate AllFit(ws: seq<Wire>)
    decreases ws, 1
  {
    ws == [] || (Fits(ws[0]) && AllFit(ws[1..]))
  }

  /** How many arrays deep a tree goes. */
  function Nesting(w: Wire): nat
    decreases w, 0
  {
    match w
    case List(_, ws) => 1 + MaxNesting(ws)
    case NoList(_, _) => 1
    case _ => 0
  }

  function MaxNesting(ws: seq<Wire>): nat
    decreases ws, 1
  {
    if ws == [] then 0
    else
      var a, b := Nesting(ws[0]), MaxNesting(ws[1..]);
      if a > b then a else b
  }

  ghost predicate Sendable(w: Wire, depth: nat) {
    Fits(w) && depth + Nesting(w) <= 8
  }

  ghost predicate AllSendable(ws: seq<Wire>, depth: nat) {
    AllFit(ws) && depth + MaxNesting(ws) <= 8
  }

  // ----------------------------------------------------------- round trip

  lemma FirstCrlfOfLine(t: string, x: string)
    requires NoCrlf(t)
    ensures var s := t + CRLF + x;
            FirstCrlf(s) == Some(|t|) && s[..|t|] == t && s[|t| + 2..] == x
  {
    var s := t + CRLF + x;
    forall j | 0 <= j < |t| ensures !IsCrlfAt(s, j) {
      assert !IsCrlfAt(t, j);
      assert s[|t|] == '\r';
    }
    FirstCrlfIs(s, |t|);
  }

  /** A numeral line at the head of `s`, in the shape the token functions see. */
  lemma NumeralLine(t: string, n: int, x: string)
    requires Spells(t, n)
    ensures var s := t + CRLF + x;
            FirstCrlf(s) == Some(|t|) && ReadLongLong(s[..|t|]) == Some(n) && s[|t| + 2..] == x
  {
    ReadSpelled(t, n);
    forall j ensures !IsCrlfAt(t, j) {
      if 0 <= j < |t| { assert t[j] in t; }
    }
    FirstCrlfOfLine(t, x);
  }

  lemma LineLeaf(w: Wire, x: string, depth: nat)
    requires w.Plain? || w.Fault? || w.Number?
    requires Sendable(w, depth)
    ensures NextToken(Encode(w) + x, depth) == Leaf(Meaning(w), x)
  {
    var c := if w.Plain? then '+' else if w.Fault? then '-' else ':';
    var line := if w.Number? then w.numeral else w.text;
    if w.Number? { NumeralLine(line, w.number, x); } else { FirstCrlfOfLine(line, x); }
    LineTokenOf(c, line, x, depth);
  }

  lemma LineTokenOf(c: char, line: string, x: string, depth: nat)
    requires c in "+-:"
    ensures NextToken([c] + line + CRLF + x, depth) == LineToken(c, line + CRLF + x)
  {
    assert ([c] + line + CRLF + x)[1..] == line + CRLF + x;
  }

  lemma TextLeaf(s: string, t: string, x: string, depth: nat)
    requires Sendable(Text(s, t), depth)
    ensures NextToken(Encode(Text(s, t)) + x, depth) == Leaf(Bulk(t), x)
  {
    RegroupBulk(s, t, x);
    DollarToken(s + CRLF + (t + CRLF + x), depth);
    TextBody(s, t, x);
  }

  lemma TextBody(s: string, t: string, x: string)
    requires Spells(s, |t|) && |t| + 2 <= LLONG_MAX
    ensures BulkToken(s + CRLF + (t + CRLF + x)) == Leaf(Bulk(t), x)
  {
    NumeralLine(s, |t|, t + CRLF + x);
    BulkRest(t, x);
  }

  lemma RegroupBulk(line: string, t: string, x: string)
    ensures "$" + line + CRLF + t + CRLF + x == ['$'] + (line + CRLF + (t + CRLF + x))
  {
  }

  lemma DollarToken(body: string, depth: nat)
    ensures NextToken(['$'] + body, depth) == BulkToken(body)
  {
    assert (['$'] + body)[1..] == body;
  }

  lemma BulkRest(t: string, x: string)
    ensures var rest := t + CRLF + x; rest[..|t|] == t && rest[|t| + 2..] == x && |rest| == |t| + 2 + |x|
  {
  }

  lemma RegroupLine(c: char, line: string, x: string)
    ensures [c] + line + CRLF + x == [c] + (line + CRLF + x)
  {
  }

  lemma NoTextLeaf(s: string, n: int, x: string, depth: nat)
    requires Spells(s, n) && n < 0
    ensures NextToken(Encode(NoText(s, n)) + x, depth) == Leaf(Nil, x)
  {
    RegroupLine('$', s, x);
    DollarToken(s + CRLF + x, depth);
    NumeralLine(s, n, x);
  }

  /** A count that opens nothing. */
  lemma ClosedLeaf(s: string, n: int, x: string, depth: nat)
    requires Spells(s, n) && INT_MIN <= n <= 0 && depth != MAX_DEPTH
    ensures NextToken("*" + s + CRLF + x, depth) ==
            Leaf(if n == 0 then Array([]) else if n == -1 then Nil else NegativeArray(n), x)
  {
    RegroupLine('*', s, x);
    StarToken(s + CRLF + x, depth);
    NumeralLine(s, n, x);
  }

  lemma LeafToken(w: Wire, x: string, depth: nat)
    requires Sendable(w, depth)
    requires w.List? ==> w.items == []
    ensures NextToken(Encode(w) + x, depth) == Leaf(Meaning(w), x)
  {
    match w {
      case Text(s, t) => TextLeaf(s, t, x, depth);
      case NoText(s, n) => NoTextLeaf(s, n, x, depth);
      case List(s, _) =>
        assert Encode(w) == "*" + s + CRLF;
        ClosedLeaf(s, 0, x, depth);
      case NoList(s, n) => ClosedLeaf(s, n, x, depth);
      case _ => LineLeaf(w, x, depth);
    }
  }

  lemma RegroupHeader(line: string, b: string, x: string)
    ensures "*" + line + CRLF + b + x == ['*'] + (line + CRLF + (b + x))
  {
  }

  lemma OpenToken(s: string, ws: seq<Wire>, x: string, depth: nat)
    requires ws != [] && Spells(s, |ws|) && |ws| <= INT_MAX && depth != MAX_DEPTH
    ensures NextToken(Encode(List(s, ws)) + x, depth) == Open(|ws|, EncodeAll(ws) + x)
  {
    var body := s + CRLF + (EncodeAll(ws) + x);
    ListBytes(s, ws, x);
    StarToken(body, depth);
    CountToken(s, |ws|, EncodeAll(ws) + x, depth);
  }

  lemma ListBytes(s: string, ws: seq<Wire>, x: string)
    ensures Encode(List(s, ws)) + x == ['*'] + (s + CRLF + (EncodeAll(ws) + x))
  {
    RegroupHeader(s, EncodeAll(ws), x);
  }

  lemma CountToken(s: string, n: nat, rest: string, depth: nat)
    requires Spells(s, n) && 0 < n <= INT_MAX && depth != MAX_DEPTH
    ensures ArrayToken(s + CRLF + rest, depth) == Open(n, rest)
  {
    NumeralLine(s, n, rest);
  }

  lemma StarToken(body: string, depth: nat)
    ensures NextToken(['*'] + body, depth) == ArrayToken(body, depth)
  {
    assert (['*'] + body)[1..] == body;
  }

  /** Parsing undoes encoding, however it is spelled and whatever follows on the
      wire. */
  lemma {:induction false} ParseEncode(w: Wire, x: string, depth: nat)
    requires Sendable(w, depth)
    ensures ParseReply(Encode(w) + x, depth) == Done(Meaning(w), x)
    decreases w, 0
  {
    if w.List? && w.items != [] {
      OpenToken(w.count, w.items, x, depth);
      ParseEncodeAll(w.items, x, depth + 1);
    } else {
      LeafToken(w, x, depth);
    }
  }

  lemma {:induction false} ParseEncodeAll(ws: seq<Wire>, x: string, depth: nat)
    requires AllSendable(ws, depth)
    ensures ParseReplies(EncodeAll(ws) + x, |ws|, depth) == Done(Meanings(ws), x)
    decreases ws, 1
  {
    if ws == [] {
      assert EncodeAll(ws) + x == x;
    } else {
      var tail := EncodeAll(ws[1..]) + x;
      Regrouped(Encode(ws[0]), EncodeAll(ws[1..]), x);
      ParseEncode(ws[0], tail, depth);
      ParseEncodeAll(ws[1..], x, depth);
    }
  }

  /** A tree nested too deep is refused: the bound in `Sendable` is exact. */
  lemma {:induction false} TooDeepRefused(w: Wire, x: string, depth: nat)
    requires Fits(w) && depth <= 8 < depth + Nesting(w)
    ensures ParseReply(Encode(w) + x, depth) == Broken(TooDeep)
    decreases w, 0
  {
    if depth == MAX_DEPTH {
      StarTooDeep(w, x);
    } else {
      var ws := w.items;
      assert depth + 1 + MaxNesting(ws) > MAX_DEPTH;
      SomeTooDeepRefused(ws, x, depth + 1);
      ListTooDeep(w.count, ws, x, depth);
    }
  }

  lemma ListTooDeep(s: string, ws: seq<Wire>, x: string, depth: nat)
    requires ws != [] && Spells(s, |ws|) && |ws| <= INT_MAX && depth != MAX_DEPTH
    requires ParseReplies(EncodeAll(ws) + x, |ws|, depth + 1) == Broken(TooDeep)
    ensures ParseReply(Encode(List(s, ws)) + x, depth) == Broken(TooDeep)
  {
    OpenToken(s, ws, x, depth);
  }

  lemma StarTooDeep(w: Wire, x: string)
    requires Nesting(w) > 0
    ensures NextToken(Encode(w) + x, MAX_DEPTH) == Bad(TooDeep)
  {
    assert Encode(w)[0] == '*';
    assert (Encode(w) + x)[0] == '*';
  }

  lemma {:induction false} SomeTooDeepRefused(ws: seq<Wire>, x: string, depth: nat)
    requires AllFit(ws) && depth <= 8 < depth + MaxNesting(ws)
    ensures ParseReplies(EncodeAll(ws) + x, |ws|, depth) == Broken(TooDeep)
    decreases ws, 1
  {
    var tail := EncodeAll(ws[1..]) + x;
    FirstOfMany(ws, x);
    if depth + Nesting(ws[0]) > MAX_DEPTH {
      TooDeepRefused(ws[0], tail, depth);
      FirstBroken(Encode(ws[0]) + tail, |ws|, depth);
    } else {
      ParseEncode(ws[0], tail, depth);
      SomeTooDeepRefused(ws[1..], x, depth);
      RestBroken(Encode(ws[0]) + tail, Meaning(ws[0]), tail, |ws|, depth);
    }
  }

  lemma FirstOfMany(ws: seq<Wire>, x: string)
    requires AllFit(ws) && MaxNesting(ws) > 0
    ensures ws != [] && Fits(ws[0]) && AllFit(ws[1..])
    ensures MaxNesting(ws) == Nesting(ws[0]) || MaxNesting(ws) == MaxNesting(ws[1..])
    ensures EncodeAll(ws) + x == Encode(ws[0]) + (EncodeAll(ws[1..]) + x)
  {
    Regrouped(Encode(ws[0]), EncodeAll(ws[1..]), x);
  }

  /** Replies in a row are refused with the first of them, or with the others. */
  lemma FirstBroken(s: string, n: nat, depth: nat)
    requires n > 0 && ParseReply(s, depth) == Broken(TooDeep)
    ensures ParseReplies(s, n, depth) == Broken(TooDeep)
  {
  }

  lemma RestBroken(s: string, v: Reply, tail: string, n: nat, depth: nat)
    requires n > 0 && ParseReply(s, depth) == Done(v, tail) && ParseReplies(tail, n - 1, depth) == Broken(TooDeep)
    ensures ParseReplies(s, n, depth) == Broken(TooDeep)
  {
  }

  // ------------------------------------------------------------- whole inputs

  /** Replies before whatever else comes in. */
  lemma {:induction false} StreamAfter(ws: seq<Wire>, x: string)
    requires AllSendable(ws, 0)
    ensures var t := ParseStream(x); ParseStream(EncodeAll(ws) + x) == Stream(Meanings(ws) + t.replies, t.ending)
  {
    if ws == [] {
      assert EncodeAll(ws) + x == x && Meanings(ws) + ParseStream(x).replies == ParseStream(x).replies;
    } else {
      var tail := EncodeAll(ws[1..]) + x;
      Regrouped(Encode(ws[0]), EncodeAll(ws[1..]), x);
      ParseEncode(ws[0], tail, 0);
      StreamAfter(ws[1..], x);
      Regrouped([Meaning(ws[0])], Meanings(ws[1..]), ParseStream(x).replies);
    }
  }

  /** A written list of replies is read back as that list. */
  lemma StreamRoundTrip(ws: seq<Wire>)
    requires AllSendable(ws, 0)
    ensures ParseStream(EncodeAll(ws)) == Stream(Meanings(ws), AwaitingMore)
  {
    StreamAfter(ws, "");
    assert EncodeAll(ws) + "" == EncodeAll(ws) && ParseStream("") == Stream([], AwaitingMore);
    assert Meanings(ws) + [] == Meanings(ws);
  }

  ghost predicate Breaks(x: string, e: ProtocolError) {
    match e
    case BadTypeByte(c) => x != "" && c == x[0] && c !in "+-:$*"
    case TooDeep => exists w, y :: Fits(w) && Nesting(w) > MAX_DEPTH && x == Encode(w) + y
  }

  /** What does not begin with the byte of a type, or nests too deep, is an error
      behind the replies before it, and nothing behind it is read. */
  lemma StreamBreaks(ws: seq<Wire>, x: string, e: ProtocolError)
    requires AllSendable(ws, 0) && Breaks(x, e)
    ensures ParseStream(EncodeAll(ws) + x) == Stream(Meanings(ws), ProtocolFailure(e))
  {
    StreamAfter(ws, x);
    if e.TooDeep? {
      var w, y :| Fits(w) && Nesting(w) > MAX_DEPTH && x == Encode(w) + y;
      TooDeepRefused(w, y, 0);
    } else {
      assert NextToken(x, 0) == Bad(e);
    }
    assert Meanings(ws) + [] == Meanings(ws);
  }
}
