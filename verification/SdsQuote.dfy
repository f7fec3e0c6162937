/** Quoting with `sdscatrepr` and its inverse, `sdssplitargs`. */
module SdsQuote {
  import opened Common
  import opened Sds

  const BELL: char := 7 as char
  const BACKSPACE: char := 8 as char

  /** `isspace` */
  predicate IsSpace(c: char) { c == ' ' || 9 as char <= c <= 13 as char }

  /** `isprint` */
  predicate IsPrint(c: char) { ' ' <= c <= '~' }

  function HexDigit(n: nat): char
    requires n < 16
  {
    if n < 10 then ('0' as int + n) as char else ('a' as int + n - 10) as char
  }

  /** `%02x` of a byte */
  function Hex(c: char): (s: string)
    ensures |s| == 2
  {
    [HexDigit(c as int / 16 % 16), HexDigit(c as int % 16)]
  }

  // ------------------------------------------------------------------ quoting

  function Escape(c: char): (e: string)
    ensures |e| > 0
  {
    if c == '\\' || c == '\"' then ['\\', c]
    else if c == '\n' then "\\n"
    else if c == '\r' then "\\r"
    else if c == '\t' then "\\t"
    else if c == BELL then "\\a"
    else if c == BACKSPACE then "\\b"
    else if IsPrint(c) then [c]
    else "\\x" + Hex(c)
  }

  function Escapes(s: string): string {
    if s == "" then "" else Escape(s[0]) + Escapes(s[1..])
  }

  function Repr(s: string): string { "\"" + Escapes(s) + "\"" }

  lemma {:induction false} EscapesSnoc(s: string, c: char)
    ensures Escapes(s + [c]) == Escapes(s) + Escape(c)
  {
    if s == "" {
      assert s + [c] == [c] && [c][1..] == "" && "" + Escape(c) == Escape(c) + "";
    } else {
      assert (s + [c])[1..] == s[1..] + [c];
      EscapesSnoc(s[1..], c);
      assert Escape(s[0]) + (Escapes(s[1..]) + Escape(c)) == Escapes(s) + Escape(c);
    }
  }

  lemma EscapesNext(before: string, p: string, i: nat)
    requires i < |p|
    ensures before + "\"" + Escapes(p[..i]) + Escape(p[i]) == before + "\"" + Escapes(p[..i + 1])
  {
    assert p[..i + 1] == p[..i] + [p[i]];
    EscapesSnoc(p[..i], p[i]);
    assert before + "\"" + Escapes(p[..i]) + Escape(p[i]) == before + "\"" + (Escapes(p[..i]) + Escape(p[i]));
  }

  lemma EscapesAll(before: string, p: string)
    ensures p[..|p|] == p && before + "\"" + Escapes("") == before + "\""
    ensures before + "\"" + Escapes(p) + "\"" == before + Repr(p)
  {
    Regroup(before, "\"", Escapes(p), "\"");
    assert before + "\"" + "" == before + "\"";
  }

  lemma Regroup(a: string, b: string, c: string, d: string)
    ensures a + b + c + d == a + (b + c + d)
  {
  }

  /** `sdscatrepr` */
  method CatRepr(s: String, p: string)
    requires s.Valid()
    modifies s, s.buf
    ensures s.Valid() && s.Contents() == old(s.Contents()) + Repr(p)
    ensures s.buf == old(s.buf) || fresh(s.buf)
  {
    ghost var before := s.Contents();
    EscapesAll(before, p);
    s.CatLen("\"");
    var i := 0;
    while i < |p|
      invariant i <= |p| && s.Valid() && s.Contents() == before + "\"" + Escapes(p[..i])
      invariant s.buf == old(s.buf) || fresh(s.buf)
    {
      EscapesNext(before, p, i);
      s.CatLen(Escape(p[i]));
      i := i + 1;
    }
    s.CatLen("\"");
  }

  // ----------------------------------------------------------------- splitting

  /** The byte at the front of a C string; NUL at its end. */
  function Front(s: string): char { if s == "" then '\0' else s[0] }

  function Second(s: string): char { if |s| < 2 then '\0' else s[1] }

  /** The character behind a backslash. */
  function Unescape(c: char): char {
    if c == 'n' then '\n' else if c == 'r' then '\r' else if c == 't' then '\t'
    else if c == 'b' then BACKSPACE else if c == 'a' then BELL else c
  }

  /** A token from the front of `s`, behind `current`, in quotes or not: the
      token and what is behind it. */
  function Token(s: string, inq: bool, current: string): (r: Option<(string, string)>)
    ensures r.Some? ==> |r.value.1| <= |s|
    decreases |s|
  {
    var c := Front(s);
    if inq then
      if c == '\\' && Second(s) != '\0' then Token(s[2..], true, current + [Unescape(Second(s))])
      else if c == '\"' then if Second(s) != '\0' && !IsSpace(Second(s)) then None else Some((current, s[1..]))
      else if c == '\0' then None
      else Token(s[1..], true, current + [c])
    else if c == ' ' || c == '\n' || c == '\r' || c == '\t' then Some((current, s[1..]))
    else if c == '\0' then Some((current, s))
    else if c == '\"' then Token(s[1..], true, current)
    else Token(s[1..], false, current + [c])
  }

  function Skip(s: string): (r: string)
    ensures |r| <= |s| && !IsSpace(Front(r))
  {
    if IsSpace(Front(s)) then Skip(s[1..]) else s
  }

  function Arguments(s: string): Option<seq<string>>
    decreases |s|
  {
    var t := Skip(s);
    if Front(t) == '\0' then Some([])
    else
      TokenConsumes(t);
      match Token(t, false, "")
      case None => None
      case Some((token, rest)) =>
        match Arguments(rest) case None => None case Some(more) => Some([token] + more)
  }

  lemma TokenConsumes(t: string)
    requires Front(t) != '\0' && !IsSpace(Front(t))
    ensures var r := Token(t, false, ""); r.Some? ==> |r.value.1| < |t|
  {
  }

  // ------------------------------------------------------------------ inverse

  const HEX_DIGITS: string := "0123456789abcdef"

  /** A byte that is not printable and has no escape of its own is written as
      its two hexadecimal digits. */
  lemma HexExact(c: char)
    requires c as int < 256 && !Returns(c)
    ensures Escape(c) == "\\x" + [HEX_DIGITS[c as int / 16], HEX_DIGITS[c as int % 16]]
  {
    DigitExact(c as int / 16);
    DigitExact(c as int % 16);
  }

  lemma DigitExact(n: nat)
    requires n < 16
    ensures HexDigit(n) == HEX_DIGITS[n]
  {
  }

  /** The characters that come back as they were. */
  predicate Returns(c: char) { 32 <= c as int <= 126 || c as int in {7, 8, 9, 10, 13} }

  /** What comes back of a character: its hexadecimal escape is not undone. */
  function Back(c: char): string { if Returns(c) then [c] else "x" + Hex(c) }

  function Backs(s: string): string {
    if s == "" then "" else Back(s[0]) + Backs(s[1..])
  }

  lemma HexPlain(c: char)
    ensures forall d <- Hex(c) :: d != '\\' && d != '\"' && d != '\0'
  {
  }

  lemma ReadPlain(d: char, rest: string, current: string)
    requires d != '\\' && d != '\"' && d != '\0'
    ensures Token([d] + rest, true, current) == Token(rest, true, current + [d])
  {
    assert ([d] + rest)[1..] == rest;
  }

  /** Inside quotes, an escaped character reads back. */
  lemma ReadEscape(c: char, rest: string, current: string)
    ensures Token(Escape(c) + rest, true, current) == Token(rest, true, current + Back(c))
  {
    var e := Escape(c);
    var s := e + rest;
    if |e| == 1 {
      assert s[1..] == rest && s[0] == c;
    } else if |e| == 2 {
      assert s[2..] == rest && s[0] == '\\' && s[1] == e[1];
    } else {
      HexPlain(c);
      var h := Hex(c);
      assert e == ['\\', 'x', h[0], h[1]];
      assert s[0] == '\\' && s[1] == 'x' && s[2..] == [h[0]] + ([h[1]] + rest);
      assert h[0] in h && h[1] in h;
      ReadPlain(h[0], [h[1]] + rest, current + ['x']);
      ReadPlain(h[1], rest, current + ['x'] + [h[0]]);
      assert current + ['x'] + [h[0]] + [h[1]] == current + Back(c);
    }
  }

  lemma {:induction false} ReadEscapes(p: string, rest: string, current: string)
    ensures Token(Escapes(p) + rest, true, current) == Token(rest, true, current + Backs(p))
  {
    if p == "" {
      assert Escapes(p) + rest == rest && current + Backs(p) == current;
    } else {
      assert Escapes(p) + rest == Escape(p[0]) + (Escapes(p[1..]) + rest);
      ReadEscape(p[0], Escapes(p[1..]) + rest, current);
      ReadEscapes(p[1..], rest, current + Back(p[0]));
      assert current + Back(p[0]) + Backs(p[1..]) == current + Backs(p);
    }
  }

  /** A quoted string, at the end or before a space. */
  lemma ReadRepr(p: string, rest: string)
    requires rest == "" || rest[0] == ' '
    ensures Token(Repr(p) + rest, false, "") == Some((Backs(p), rest))
  {
    var s := Repr(p) + rest;
    var t := "\"" + rest;
    assert s[0] == '\"' && s[1..] == Escapes(p) + t;
    Opening(s);
    ReadEscapes(p, t, "");
    Closing(rest, Backs(p));
    assert "" + Backs(p) == Backs(p);
  }

  lemma Opening(s: string)
    requires s != "" && s[0] == '\"'
    ensures Token(s, false, "") == Token(s[1..], true, "")
  {
  }

  lemma Closing(rest: string, current: string)
    requires rest == "" || rest[0] == ' '
    ensures Token("\"" + rest, true, current) == Some((current, rest))
  {
    var t := "\"" + rest;
    assert t[0] == '\"' && t[1..] == rest;
    assert rest != "" ==> t[1] == ' ';
  }

  /** A list of strings, quoted, with spaces between. */
  function Line(ps: seq<string>): string {
    if ps == [] then "" else if |ps| == 1 then Repr(ps[0]) else Repr(ps[0]) + (" " + Line(ps[1..]))
  }

  function AllBacks(ps: seq<string>): seq<string> {
    if ps == [] then [] else [Backs(ps[0])] + AllBacks(ps[1..])
  }

  lemma SkipSpace(s: string)
    ensures Skip(" " + s) == Skip(s)
  {
    assert (" " + s)[1..] == s;
  }

  /** Splitting a line of quoted strings gives them back, but for the bytes
      that were written in hexadecimal. */
  lemma {:induction false} SplitQuoted(ps: seq<string>)
    ensures Arguments(Line(ps)) == Some(AllBacks(ps))
    decreases |ps|
  {
    if ps != [] {
      var rest := if |ps| == 1 then "" else " " + Line(ps[1..]);
      var s := Line(ps);
      assert s == Repr(ps[0]) + rest;
      assert s[0] == '\"' && Skip(s) == s;
      ReadRepr(ps[0], rest);
      SplitQuoted(ps[1..]);
      if |ps| > 1 {
        SkipSpace(Line(ps[1..]));
        SameArguments(rest, Line(ps[1..]));
      }
    }
  }

  lemma SameArguments(s: string, t: string)
    requires Skip(s) == Skip(t)
    ensures Arguments(s) == Arguments(t)
  {
  }

  lemma {:induction false} BacksSame(p: string)
    ensures Backs(p) == p <==> forall c <- p :: Returns(c)
    ensures |Backs(p)| >= |p|
  {
    if p != "" {
      BacksSame(p[1..]);
      assert p[0] in p && forall c <- p[1..] :: c in p;
      assert p == [p[0]] + p[1..];
      if Returns(p[0]) {
        assert Backs(p)[1..] == Backs(p[1..]);
      } else {
        assert |Backs(p)| > |p|;
      }
    }
  }

  lemma {:induction false} AllBacksSame(ps: seq<string>)
    ensures AllBacks(ps) == ps <==> forall p <- ps, c <- p :: Returns(c)
    decreases |ps|
  {
    if ps != [] {
      AllBacksSame(ps[1..]);
      BacksSame(ps[0]);
      assert ps == [ps[0]] + ps[1..] && AllBacks(ps)[1..] == AllBacks(ps[1..]);
    }
  }

  /** Splitting undoes quoting if and only if every byte is printable or one of
      the five control characters that have an escape of their own. */
  lemma QuotingInverse(ps: seq<string>)
    ensures Arguments(Line(ps)) == Some(ps) <==> forall p <- ps, c <- p :: Returns(c)
  {
    SplitQuoted(ps);
    AllBacksSame(ps);
  }

  // --------------------------------------------- lines as they are written

  /** A character within quotes, or one behind a backslash. */
  datatype Bit = Char(c: char) | Escaped(c: char)

  function BitText(b: Bit): string { match b case Char(c) => [c] case Escaped(c) => ['\\', c] }

  /** A letter with a meaning of its own behind a backslash, or the character itself. */
  function BitMeans(b: Bit): char {
    match b
    case Char(c) => c
    case Escaped(c) =>
      if c == 'n' then 10 as char else if c == 'r' then 13 as char else if c == 't' then 9 as char
      else if c == 'b' then 8 as char else if c == 'a' then 7 as char else c
  }

  predicate WellBit(b: Bit) { b.c != '\0' && (b.Char? ==> b.c != '\\' && b.c != '\"') }

  function BitsText(bs: seq<Bit>): string { if bs == [] then "" else BitText(bs[0]) + BitsText(bs[1..]) }

  function BitsMean(bs: seq<Bit>): string { if bs == [] then "" else [BitMeans(bs[0])] + BitsMean(bs[1..]) }

  /** An argument: some text as it is, and then perhaps some in quotes. */
  datatype Argument = Argument(plain: string, quoted: Option<seq<Bit>>)

  function Quoted(bs: seq<Bit>): string { "\"" + (BitsText(bs) + "\"") }

  function ArgumentText(a: Argument): string { a.plain + match a.quoted case None => "" case Some(bs) => Quoted(bs) }

  function ArgumentMeans(a: Argument): string { a.plain + match a.quoted case None => "" case Some(bs) => BitsMean(bs) }

  /** What ends text outside quotes: not every space does. */
  predicate EndsText(c: char) { c == ' ' || c == '\n' || c == '\r' || c == '\t' }

  predicate PlainText(s: string) { forall c <- s :: !EndsText(c) && c != '\"' && c != '\0' }

  predicate WellBits(bs: seq<Bit>) { forall b <- bs :: WellBit(b) }

  predicate WellArgument(a: Argument) {
    PlainText(a.plain) && (a.plain != "" ==> !Space(a.plain[0])) && (a.plain == "" ==> a.quoted.Some?) &&
    (a.quoted.Some? ==> WellBits(a.quoted.value))
  }

  /** The white space of the C locale. */
  predicate Space(c: char) { c as int in {9, 10, 11, 12, 13, 32} }

  predicate Blank(s: string) { forall c <- s :: Space(c) }

  /** What may follow an argument: nothing, or a space that ends it. */
  predicate Follows(a: Argument, s: string) { s == "" || if a.quoted.Some? then Space(s[0]) else EndsText(s[0]) }

  /** An argument and the spaces before it. */
  datatype Placed = Placed(before: string, argument: Argument)

  function PlacedText(ps: seq<Placed>, tail: string): string {
    if ps == [] then tail else ps[0].before + (ArgumentText(ps[0].argument) + PlacedText(ps[1..], tail))
  }

  function PlacedMeans(ps: seq<Placed>): seq<string> {
    if ps == [] then [] else [ArgumentMeans(ps[0].argument)] + PlacedMeans(ps[1..])
  }

  /** Each is ended by what follows it. */
  predicate WellPlaced(ps: seq<Placed>, tail: string) {
    if ps == [] then true
    else
      Blank(ps[0].before) && WellArgument(ps[0].argument) && WellPlaced(ps[1..], tail) &&
      Follows(ps[0].argument, PlacedText(ps[1..], tail))
  }

  lemma ReadBit(b: Bit, rest: string, current: string)
    requires WellBit(b)
    ensures Token(BitText(b) + rest, true, current) == Token(rest, true, current + [BitMeans(b)])
  {
    var s := BitText(b) + rest;
    if b.Char? { assert s[0] == b.c && s[1..] == rest; } else { assert s[0] == '\\' && s[1] == b.c && s[2..] == rest; }
  }

  lemma {:induction false} ReadBits(bs: seq<Bit>, rest: string, current: string)
    requires WellBits(bs)
    ensures Token(BitsText(bs) + rest, true, current) == Token(rest, true, current + BitsMean(bs))
    decreases |bs|
  {
    if bs == [] {
      assert "" + rest == rest && current + "" == current;
    } else {
      assert bs[0] in bs && forall b <- bs[1..] :: b in bs;
      ReadBit(bs[0], BitsText(bs[1..]) + rest, current);
      ReadBits(bs[1..], rest, current + [BitMeans(bs[0])]);
      Regrouped(BitText(bs[0]), BitsText(bs[1..]), rest);
      Regrouped(current, [BitMeans(bs[0])], BitsMean(bs[1..]));
    }
  }

  lemma {:induction false} ReadText(t: string, rest: string, current: string)
    requires PlainText(t)
    ensures Token(t + rest, false, current) == Token(rest, false, current + t)
    decreases |t|
  {
    if t == "" {
      assert "" + rest == rest && current + "" == current;
    } else {
      var s := t + rest;
      assert t[0] in t && (forall c <- t[1..] :: c in t) && s[0] == t[0] && s[1..] == t[1..] + rest;
      ReadText(t[1..], rest, current + [t[0]]);
      assert current + [t[0]] + t[1..] == current + t;
    }
  }

  /** The end of a quotation. */
  lemma ReadClose(rest: string, current: string)
    ensures Token("\"" + rest, true, current) ==
            if rest != "" && rest[0] != '\0' && !IsSpace(rest[0]) then None else Some((current, rest))
  {
    var t := "\"" + rest;
    assert t[0] == '\"' && t[1..] == rest && (rest != "" ==> t[1] == rest[0]);
  }

  lemma ReadQuoted(bs: seq<Bit>, rest: string, current: string)
    requires WellBits(bs)
    ensures Token(Quoted(bs) + rest, false, current) == Token("\"" + rest, true, current + BitsMean(bs))
  {
    var s := Quoted(bs) + rest;
    assert s[0] == '\"' && s[1..] == BitsText(bs) + ("\"" + rest);
    ReadBits(bs, "\"" + rest, current);
  }

  lemma ReadArgument(a: Argument, rest: string)
    requires WellArgument(a) && Follows(a, rest)
    ensures var r := Token(ArgumentText(a) + rest, false, "");
            r.Some? && r.value.0 == ArgumentMeans(a) && Skip(r.value.1) == Skip(rest)
  {
    NothingFirst(a.plain);
    if a.quoted.Some? {
      Regrouped(a.plain, Quoted(a.quoted.value), rest);
      ReadText(a.plain, Quoted(a.quoted.value) + rest, "");
      ReadQuoted(a.quoted.value, rest, a.plain);
      ReadClose(rest, ArgumentMeans(a));
    } else {
      assert a.plain + "" == a.plain;
      ReadText(a.plain, rest, "");
      ReadEnd(rest, a.plain);
    }
  }

  /** The end of text outside quotes. */
  lemma ReadEnd(rest: string, current: string)
    requires rest == "" || EndsText(rest[0])
    ensures var r := Token(rest, false, current); r.Some? && r.value.0 == current && Skip(r.value.1) == Skip(rest)
  {
  }

  lemma {:induction false} SkipBlank(s: string, rest: string)
    requires Blank(s)
    ensures Skip(s + rest) == Skip(rest)
    decreases |s|
  {
    if s == "" {
      assert s + rest == rest;
    } else {
      assert s[0] in s && (forall c <- s[1..] :: c in s) && (s + rest)[0] == s[0] && (s + rest)[1..] == s[1..] + rest;
      SkipBlank(s[1..], rest);
    }
  }

  /** The first byte of an argument is no space. */
  lemma StartsArgument(a: Argument, rest: string)
    requires WellArgument(a)
    ensures var s := ArgumentText(a) + rest; Skip(s) == s && Front(s) != '\0'
  {
    var s := ArgumentText(a) + rest;
    if a.plain != "" { assert s[0] == a.plain[0] && a.plain[0] in a.plain; } else { assert s[0] == '\"'; }
  }

  /** Arguments, and then whatever the rest of the line denotes. */
  lemma {:induction false} SplitBehind(ps: seq<Placed>, tail: string)
    requires WellPlaced(ps, tail)
    ensures Arguments(PlacedText(ps, tail)) ==
            match Arguments(tail) case None => None case Some(more) => Some(PlacedMeans(ps) + more)
    decreases |ps|
  {
    if ps == [] {
      assert forall more: seq<string> :: [] + more == more;
    } else {
      SplitBehind(ps[1..], tail);
      SplitFirst(ps[0].before, ps[0].argument, PlacedText(ps[1..], tail));
      assert forall more: seq<string> ::
          [ArgumentMeans(ps[0].argument)] + (PlacedMeans(ps[1..]) + more) == PlacedMeans(ps) + more;
    }
  }

  lemma SplitFirst(before: string, a: Argument, rest: string)
    requires Blank(before) && WellArgument(a) && Follows(a, rest)
    ensures Arguments(before + (ArgumentText(a) + rest)) ==
            match Arguments(rest) case None => None case Some(more) => Some([ArgumentMeans(a)] + more)
  {
    SkipBlank(before, ArgumentText(a) + rest);
    StartsArgument(a, rest);
    ReadArgument(a, rest);
    SameArguments(Token(ArgumentText(a) + rest, false, "").value.1, rest);
  }

  /** Arguments separated by spaces are what the line denotes, with the text in
      quotes unescaped. */
  lemma SplitPlaced(ps: seq<Placed>, tail: string)
    requires WellPlaced(ps, tail) && Blank(tail)
    ensures Arguments(PlacedText(ps, tail)) == Some(PlacedMeans(ps))
  {
    SplitBehind(ps, tail);
    assert tail + "" == tail;
    SkipBlank(tail, "");
    assert PlacedMeans(ps) + [] == PlacedMeans(ps);
  }

  /** Where a quotation breaks off: the line is over, or text is glued to its end. */
  predicate Broken(s: string) {
    Front(s) == '\0' || (s[0] == '\\' && Second(s) == '\0') ||
    (s[0] == '\"' && Second(s) != '\0' && !Space(Second(s)))
  }

  lemma ReadBroken(s: string, current: string)
    requires Broken(s)
    ensures Token(s, true, current) == None
  {
  }

  /** Behind any arguments, such a quotation has the whole line refused. */
  lemma SplitRefused(ps: seq<Placed>, before: string, plain: string, bs: seq<Bit>, rest: string)
    requires Blank(before) && WellArgument(Argument(plain, Some(bs))) && Broken(rest)
    requires WellPlaced(ps, before + (plain + ("\"" + (BitsText(bs) + rest))))
    ensures Arguments(PlacedText(ps, before + (plain + ("\"" + (BitsText(bs) + rest))))) == None
  {
    var q := "\"" + (BitsText(bs) + rest);
    SplitBehind(ps, before + (plain + q));
    SkipBlank(before, plain + q);
    BeginsQuoted(plain, BitsText(bs) + rest);
    ReadText(plain, q, "");
    assert q[0] == '\"' && q[1..] == BitsText(bs) + rest;
    ReadBits(bs, rest, "" + plain);
    ReadBroken(rest, "" + plain + BitsMean(bs));
  }

  lemma BeginsQuoted(plain: string, rest: string)
    requires PlainText(plain) && (plain != "" ==> !Space(plain[0]))
    ensures var s := plain + ("\"" + rest); Skip(s) == s && Front(s) != '\0'
  {
    var s := plain + ("\"" + rest);
    if plain != "" { assert s[0] == plain[0] && plain[0] in plain; } else { assert s[0] == '\"'; }
  }

  // ---------------------------------------------------------------- the code

  /** One token of `sdssplitargs`, from `at` on. */
  method NextToken(line: string, at: nat) returns (token: Option<string>, p: nat)
    requires at <= |line| && Front(line[at..]) != '\0' && !IsSpace(Front(line[at..]))
    ensures match Token(line[at..], false, "")
            case None => token.None?
            case Some((t, rest)) => token == Some(t) && at < p <= |line| && line[p..] == rest
  {
    var inq, done, current := false, false, "";
    p := at;
    ghost var whole := Token(line[at..], false, "");
    TokenConsumes(line[at..]);
    while !done
      invariant at <= p <= |line|
      invariant if done then whole == Some((current, line[p..])) else whole == Token(line[p..], inq, current)
      decreases |line| - p, !done
    {
      var s := line[p..];
      var c := Front(s);
      if inq {
        if c == '\\' && Second(s) != '\0' {
          p := p + 1;
          current := current + [Unescape(line[p])];
        } else if c == '\"' {
          // text glued to the end of a quotation
          if Second(s) != '\0' && !IsSpace(Second(s)) {
            return None, p;
          }
          done := true;
        } else if c == '\0' {
          // the line is over inside a quotation
          return None, p;
        } else {
          current := current + [c];
        }
      } else if c == ' ' || c == '\n' || c == '\r' || c == '\t' || c == '\0' {
        done := true;
      } else if c == '\"' {
        inq := true;
      } else {
        current := current + [c];
      }
      if Front(line[p..]) != '\0' {
        p := p + 1;
      }
    }
    token := Some(current);
  }

  /** `sdssplitargs` */
  method SplitArgs(line: string) returns (args: Option<seq<string>>)
    ensures args == Arguments(line)
  {
    var vector: seq<string>, p: nat := [], 0;
    assert line[0..] == line;
    if Arguments(line).Some? { assert vector + Arguments(line).value == Arguments(line).value; }
    while true
      invariant p <= |line|
      invariant Arguments(line) == match Arguments(line[p..]) case None => None case Some(more) => Some(vector + more)
      decreases |line| - p
    {
      ghost var s := line[p..];
      while IsSpace(Front(line[p..]))
        invariant p <= |line| && Skip(line[p..]) == Skip(s) && |line[p..]| <= |s|
        decreases |line| - p
      {
        p := p + 1;
      }
      SameArguments(s, line[p..]);
      if Front(line[p..]) == '\0' {
        assert vector + [] == vector;
        return Some(vector);
      }
      var token, next := NextToken(line, p);
      if token.None? {
        return None;
      }
      ghost var was := vector;
      vector, p := vector + [token.value], next;
      assert forall more: seq<string> :: was + ([token.value] + more) == vector + more;
    }
  }
}
