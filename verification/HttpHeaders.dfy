/** A header line by line: what is reported of it and what it does to the
  framing of its message. */
module HttpHeaders {
  import opened Common
  import opened HttpTypes
  import opened HttpStep
  import opened HttpRun
  import opened HttpSplit
  import opened HttpFraming
  import opened HttpLength
  import opened HttpWords
  import opened HttpAssembler

  // ------------------------------------------------------------- the name

  lemma NameByteFields(p: Parser, ch: char, hooks: Hooks)
    requires Good(p) && Room(p, 1) && Token(ch) != '\0' && p.state.HeaderField?
    ensures var q := OneByte(p, ch, hooks).p;
            q == p.(state := HeaderField, header := q.header, index := q.index, nread := p.nread + 1)
  {
    FieldDoes(p, ch, hooks);
  }

  /** In a name, with the rest of the parser as it was. */
  predicate InName(p: Parser, q: Parser, n: nat) {
    q == p.(state := HeaderField, header := q.header, index := q.index, nread := p.nread + n)
  }

  lemma NameOne(p: Parser, s: string, ch: char, hooks: Hooks) returns (q: Parser)
    requires Good(p) && Naming(p, s) && Room(p, 1) && Token(ch) != '\0'
    ensures Bytewise(hooks)(p, ch) == Ran(q, [Piece(Field, [ch])], Next, 1) && Good(q) && InName(p, q, 1) && Naming(q, s + [Token(ch)])
  {
    NameByte(p, s, ch, hooks);
    NameByteFields(p, ch, hooks);
    q := OneByte(p, ch, hooks).p;
  }

  lemma {:induction false} NameRest(p: Parser, s: string, name: string, hooks: Hooks) returns (q: Parser)
    requires Good(p) && Naming(p, s) && IsToken(name) && Room(p, |name|)
    ensures DataRun(Bytewise(hooks), p, Field, name, q) && Naming(q, s + Lowered(name)) && InName(p, q, |name|)
    decreases |name|
  {
    if name == "" {
      q := p;
      assert s + Lowered(name) == s;
    } else {
      NameGlue(s, name);
      var m := NameOne(p, s, name[0], hooks);
      q := NameRest(m, s + [Token(name[0])], name[1..], hooks);
      DataCons(Bytewise(hooks), p, Field, name[0], m, name[1..], q);
    }
  }

  lemma NameGlue(s: string, name: string)
    requires name != "" && IsToken(name)
    ensures name == [name[0]] + name[1..] && Token(name[0]) != '\0' && IsToken(name[1..])
    ensures s + Lowered(name) == s + [Token(name[0])] + Lowered(name[1..])
  {
    assert name[0] in name && forall c <- name[1..] :: c in name;
    LoweredCons(name);
    Regrouped(s, [Token(name[0])], Lowered(name[1..]));
  }

  lemma LoweredCons(name: string)
    requires name != ""
    ensures name == [name[0]] + name[1..] && Lowered(name) == [Token(name[0])] + Lowered(name[1..])
  {
  }

  lemma NameAll(p: Parser, name: string, hooks: Hooks) returns (q: Parser)
    requires Good(p) && p.state.HeaderFieldStart? && name != "" && IsToken(name) && Room(p, |name|)
    ensures DataRun(Bytewise(hooks), p, Field, name, q) && Naming(q, Lowered(name)) && InName(p, q, |name|)
  {
    assert name[0] in name && forall c <- name[1..] :: c in name;
    FirstNameByte(p, name[0], hooks);
    NameBegins(p, Token(name[0]));
    var m := NameBegun(p, Token(name[0]));
    q := NameRest(m, [Token(name[0])], name[1..], hooks);
    DataCons(Bytewise(hooks), p, Field, name[0], m, name[1..], q);
    LoweredCons(name);
  }

  /** The parser behind the colon after `name`. */
  predicate Named(p: Parser, q: Parser, name: string) {
    q == p.(state := HeaderValueStart, header := Known(Lowered(name)), index := q.index, nread := p.nread + |name| + 1)
  }

  /** A header name and its colon. */
  lemma NameRun(p: Parser, name: string, hooks: Hooks) returns (q: Parser)
    requires Good(p) && p.state.HeaderFieldStart? && name != "" && IsToken(name) && Room(p, |name| + 1)
    ensures Good(q) && Named(p, q, name)
    ensures Run(Bytewise(hooks), p, name + ":") == Ran(q, Singles(Field, name) + [Piece(Field, "")], Next, |name| + 1)
  {
    var n := NameAll(p, name, hooks);
    q := n.(state := HeaderValueStart, nread := n.nread + 1);
    NameColon(n, hooks);
    EndOfData(Bytewise(hooks), p, Field, name, n, ':', q);
  }

  /** Data and the byte that ends it. */
  lemma EndOfData(step: Stepper, p: Parser, k: Data, s: string, n: Parser, ch: char, q: Parser)
    requires DataRun(step, p, k, s, n) && step(n, ch) == Ran(q, [Piece(k, "")], Next, 1)
    ensures Run(step, p, s + [ch]) == Ran(q, Singles(k, s) + [Piece(k, "")], Next, |s| + 1)
  {
    LastByte(step, n, ch, step(n, ch));
    RunAppend(step, p, s, [ch]);
  }

  /** A header is taken for one that matters if and only if its name is that
      header's name, ignoring case. */
  lemma NamesExact(p: Parser, name: string, hooks: Hooks)
    requires Good(p) && p.state.HeaderFieldStart? && name != "" && IsToken(name) && Room(p, |name| + 1)
    ensures var r := Run(Bytewise(hooks), p, name + ":"); var w := Lowered(name);
            r.exit.Next? && r.p.state.HeaderValueStart? &&
            (r.p.header.ContentLength? <==> w == "content-length") &&
            (r.p.header.TransferEncoding? <==> w == "transfer-encoding") &&
            (r.p.header.Upgrade? <==> w == "upgrade") &&
            (r.p.header.Connection? <==> w == "connection" || w == "proxy-connection")
  {
    var q := NameRun(p, name, hooks);
  }

  // ------------------------------------------------------------- the value

  function LowerAll(s: string): (r: string)
    ensures |r| == |s|
  {
    seq(|s|, i requires 0 <= i < |s| => Lower(s[i]))
  }

  /** `s` is the word, in any case, with spaces after it. */
  predicate Spaced(w: string, s: string) {
    |w| <= |s| && LowerAll(s[..|w|]) == w && forall c <- s[|w|..] :: c == ' '
  }

  /** What has been seen of a value that may be the word `w`. */
  function Seen(w: string, matching: HeaderKind, found: HeaderKind, s: string): HeaderKind {
    if Spaced(w, s) then found
    else if LowerAll(s) <= w then matching
    else General
  }

  /** The words looked for in the value of a header, and what it means to find
      them; after a first letter at most one is left. */
  function ValueSeen(h: HeaderKind, s: string): HeaderKind
    requires s != ""
  {
    match h
    case TransferEncoding => Seen("chunked", MatchingChunked, Chunked, s)
    case Connection =>
      if Lower(s[0]) == 'k' then Seen("keep-alive", MatchingKeepAlive, KeepAlive, s)
      else Seen("close", MatchingClose, Close, s)
    case _ => General
  }

  lemma LowerSnoc(s: string, ch: char)
    ensures LowerAll(s + [ch]) == LowerAll(s) + [Lower(ch)]
  {
  }

  lemma SpacedSnoc(w: string, s: string, ch: char)
    ensures |w| <= |s| ==> (Spaced(w, s + [ch]) <==> Spaced(w, s) && ch == ' ')
    ensures |w| == |s| + 1 ==> (Spaced(w, s + [ch]) <==> LowerAll(s + [ch]) == w)
    ensures |w| > |s| + 1 ==> !Spaced(w, s + [ch])
  {
    var t := s + [ch];
    if |w| <= |s| {
      assert t[..|w|] == s[..|w|] && t[|w|..] == s[|w|..] + [ch];
      assert ch in t[|w|..] && forall c <- s[|w|..] :: c in t[|w|..];
    } else if |w| == |s| + 1 {
      assert t[..|w|] == t && t[|w|..] == "";
    }
  }

  /** One more character of a value. */
  lemma SeenStep(w: string, matching: HeaderKind, found: HeaderKind, s: string, ch: char)
    requires w != "" && !matching.General? && !found.General? && matching != found
    ensures var h := Seen(w, matching, found, s);
            Seen(w, matching, found, s + [ch]) ==
            if h == matching then Matching(w, found, matching, |s|, Lower(ch))
            else if h == found then if ch == ' ' then found else General
            else General
  {
    LowerSnoc(s, ch);
    SpacedSnoc(w, s, ch);
    PrefixSnoc(w, LowerAll(s), Lower(ch));
    assert Spaced(w, s) ==> |w| <= |s|;
    if LowerAll(s) <= w && |s| == |w| {
      assert s[..|w|] == s && s[|w|..] == "";
      assert Spaced(w, s);
    }
  }

  predicate Valuing(p: Parser, h: HeaderKind, s: string) {
    p.state.HeaderValue? && s != "" && p.header == ValueSeen(h, s) && (CountsValue(p.header) ==> p.index == |s| - 1)
  }

  lemma ValueStep(h: HeaderKind, s: string, ch: char)
    requires s != ""
    ensures ValueSeen(h, s + [ch]) == ValueChar(ValueSeen(h, s), |s|, ch)
  {
    assert (s + [ch])[0] == s[0];
    match h {
      case TransferEncoding => SeenStep("chunked", MatchingChunked, Chunked, s, ch);
      case Connection =>
        if Lower(s[0]) == 'k' {
          SeenStep("keep-alive", MatchingKeepAlive, KeepAlive, s, ch);
        } else {
          SeenStep("close", MatchingClose, Close, s, ch);
        }
      case _ =>
    }
  }

  lemma ValueByteOf(step: Stepper, p: Parser, h: HeaderKind, s: string, ch: char)
    requires Good(p) && Valuing(p, h, s) && ch != '\r' && ch != '\n' && Does(step, p, ch, StepHeaderValue(Counted(p), ch))
    requires ValueSeen(h, s + [ch]) == ValueChar(ValueSeen(h, s), |s|, ch)
    ensures var r := step(p, ch);
            r == Ran(r.p, [Piece(Value, [ch])], Next, 1) && Good(r.p) && Valuing(r.p, h, s + [ch]) &&
            r.p == p.(header := r.p.header, index := r.p.index, nread := p.nread + 1)
  {
  }

  lemma ValueByte(p: Parser, h: HeaderKind, s: string, ch: char, hooks: Hooks)
    requires Good(p) && Valuing(p, h, s) && Room(p, 1) && ch != '\r' && ch != '\n'
    ensures var r := OneByte(p, ch, hooks);
            r == Ran(r.p, [Piece(Value, [ch])], Next, 1) && Good(r.p) && Valuing(r.p, h, s + [ch]) &&
            r.p == p.(header := r.p.header, index := r.p.index, nread := p.nread + 1)
  {
    ValueDoes(p, ch, hooks);
    ValueStep(h, s, ch);
    ValueByteOf(Bytewise(hooks), p, h, s, ch);
  }

  lemma {:induction false} ValueRest(p: Parser, h: HeaderKind, s: string, value: string, hooks: Hooks) returns (q: Parser)
    requires Good(p) && Valuing(p, h, s) && Room(p, |value|) && forall c <- value :: c != '\r' && c != '\n'
    ensures DataRun(Bytewise(hooks), p, Value, value, q) && Valuing(q, h, s + value)
    ensures q == p.(header := q.header, index := q.index, nread := p.nread + |value|)
    decreases |value|
  {
    if value == "" {
      q := p;
      assert s + value == s;
    } else {
      ValueGlue(s, value);
      ValueByte(p, h, s, value[0], hooks);
      var m := OneByte(p, value[0], hooks).p;
      q := ValueRest(m, h, s + [value[0]], value[1..], hooks);
      DataCons(Bytewise(hooks), p, Value, value[0], m, value[1..], q);
    }
  }

  lemma ValueGlue(s: string, value: string)
    requires value != ""
    ensures value[0] in value && forall c <- value[1..] :: c in value
    ensures value == [value[0]] + value[1..] && s + value == s + [value[0]] + value[1..]
  {
  }

  /** The flags once the first character of a value has been seen. */
  function FlagsAtStart(h: HeaderKind, f: Flags): Flags { if h.Upgrade? then f.(upgrade := true) else f }

  lemma FirstSeen(h: HeaderKind, ch: char)
    ensures var c := Lower(ch);
            ValueSeen(h, [ch]) ==
            match h
            case TransferEncoding => if c == 'c' then MatchingChunked else General
            case Connection => if c == 'k' then MatchingKeepAlive else if c == 'c' then MatchingClose else General
            case _ => General
  {
    var s := LowerAll([ch]);
    assert s == "" + [Lower(ch)];
    PrefixSnoc("chunked", "", Lower(ch));
    PrefixSnoc("keep-alive", "", Lower(ch));
    PrefixSnoc("close", "", Lower(ch));
  }

  lemma FirstValueByte(p: Parser, ch: char, hooks: Hooks)
    requires Good(p) && p.state.HeaderValueStart? && !p.header.ContentLength? && Room(p, 1)
    requires ch != '\r' && ch != '\n' && ch != ' ' && ch != '\t'
    ensures var r := OneByte(p, ch, hooks);
            r == Ran(r.p, [Piece(Value, [ch])], Next, 1) && Good(r.p) && Valuing(r.p, p.header, [ch]) &&
            r.p == p.(state := HeaderValue, header := r.p.header, index := 0, nread := p.nread + 1, flags := FlagsAtStart(p.header, p.flags))
  {
    assert Advance(p, ch, hooks) == StepHeaderValueStart(Counted(p), ch);
    AdvanceSound(p, ch, hooks);
    FirstSeen(p.header, ch);
  }

  // -------------------------------------------------------------- the line

  /** The flags that a header sets. */
  function FlagsFor(h: HeaderKind, value: string, f: Flags): Flags {
    match h
    case Upgrade => if value != "" then f.(upgrade := true) else f
    case TransferEncoding => if Spaced("chunked", value) then f.(chunked := true) else f
    case Connection =>
      if Spaced("keep-alive", value) then f.(keepAlive := true)
      else if Spaced("close", value) then f.(close := true)
      else f
    case _ => f
  }

  /** The length that a header sets. */
  function LengthFor(h: HeaderKind, value: string, length: nat): nat
    requires ValueText(h, value)
  {
    if h.ContentLength? && value != "" then Numeral(0, 10, value) else length
  }

  predicate Blank(c: char) { c == ' ' || c == '\t' }

  /** A value that is accepted: of Content-Length, any number below the reserved
      one; of any other header, any text. */
  predicate ValueText(h: HeaderKind, value: string) {
    (forall c <- value :: c != '\r' && c != '\n') && (value != "" ==> !Blank(value[0])) &&
    (h.ContentLength? ==> Digits(value) && Numeral(0, 10, value) < ULLONG_MAX)
  }

  /** After a header line that took `n` bytes from the value on. */
  predicate LineDone(p: Parser, q: Parser, h: HeaderKind, value: string, n: nat)
    requires ValueText(h, value)
  {
    q == p.(state := HeaderValueLws, header := q.header, index := q.index, nread := p.nread + n,
            flags := FlagsFor(h, value, p.flags), length := LengthFor(h, value, p.length))
  }

  /** The flags set when the line ends. */
  function FlagsAtEnd(h: HeaderKind, f: Flags): Flags {
    match h
    case KeepAlive => f.(keepAlive := true)
    case Close => f.(close := true)
    case Chunked => f.(chunked := true)
    case _ => f
  }

  /** The parser behind the LF of a line. */
  function LineOver(p: Parser): Parser {
    p.(state := HeaderValueLws, nread := p.nread + 1, flags := FlagsAtEnd(p.header, p.flags))
  }

  lemma LineLfStep(step: Stepper, p: Parser)
    requires Good(p) && p.state.HeaderAlmostDone? && Does(step, p, '\n', StepHeaderAlmostDone(Counted(p), '\n'))
    ensures Silent(step, p, '\n', LineOver(p))
  {
  }

  lemma LineLf(p: Parser, hooks: Hooks)
    requires Good(p) && p.state.HeaderAlmostDone? && Room(p, 1)
    ensures Silent(Bytewise(hooks), p, '\n', LineOver(p))
  {
    AlmostDoneDoes(p, '\n', hooks);
    LineLfStep(Bytewise(hooks), p);
  }

  lemma EmptyValueCr(p: Parser, hooks: Hooks)
    requires Good(p) && p.state.HeaderValueStart? && Room(p, 1)
    ensures var q := p.(state := HeaderAlmostDone, header := General, index := 0, nread := p.nread + 1);
            Bytewise(hooks)(p, '\r') == Ran(q, [Piece(Value, "")], Next, 1) && Good(q)
  {
    assert Advance(p, '\r', hooks) == StepHeaderValueStart(Counted(p), '\r');
  }

  lemma SpacedFirst(w: string, s: string)
    requires w != "" && Spaced(w, s)
    ensures s != "" && Lower(s[0]) == w[0]
  {
    assert LowerAll(s[..|w|])[0] == Lower(s[0]);
  }

  /** What the line sets at its start and at its end is what it should. */
  lemma FlagsAgree(h: HeaderKind, value: string, f: Flags)
    requires value != ""
    ensures FlagsAtEnd(ValueSeen(h, value), FlagsAtStart(h, f)) == FlagsFor(h, value, f)
  {
    if h.Connection? {
      if Spaced("keep-alive", value) { SpacedFirst("keep-alive", value); }
      if Spaced("close", value) { SpacedFirst("close", value); }
    }
  }

  /** The value, its CR and its LF, from where the value begins. */
  lemma TextRun(p: Parser, value: string, hooks: Hooks) returns (q: Parser)
    requires Good(p) && p.state.HeaderValueStart? && !p.header.ContentLength?
    requires value != "" && ValueText(p.header, value) && Room(p, |value|)
    ensures DataRun(Bytewise(hooks), p, Value, value, q) && q.state.HeaderValue?
    ensures q == p.(state := HeaderValue, header := ValueSeen(p.header, value), index := q.index, nread := p.nread + |value|,
                    flags := FlagsAtStart(p.header, p.flags))
  {
    ValueGlue("", value);
    FirstValueByte(p, value[0], hooks);
    var m := OneByte(p, value[0], hooks).p;
    q := ValueRest(m, p.header, [value[0]], value[1..], hooks);
    DataCons(Bytewise(hooks), p, Value, value[0], m, value[1..], q);
  }

  /** The end of a line after its value. */
  lemma LineEnd(p: Parser, k: string, n: Parser, hooks: Hooks)
    requires DataRun(Bytewise(hooks), p, Value, k, n) && n.state.HeaderValue? && Room(n, 2)
    ensures var q := n.(state := HeaderValueLws, nread := n.nread + 2, flags := FlagsAtEnd(n.header, n.flags));
            Run(Bytewise(hooks), p, k + "\r\n") == Ran(q, Singles(Value, k) + [Piece(Value, "")], Next, |k| + 2) && Good(q)
  {
    ValueCr(n, hooks);
    var m := HttpLength.Blank(n, HeaderAlmostDone, 1);
    LineLf(m, hooks);
    var q := n.(state := HeaderValueLws, nread := n.nread + 2, flags := FlagsAtEnd(n.header, n.flags));
    assert q == LineOver(m);
    DataLine(Bytewise(hooks), p, k, n, m, q);
  }

  lemma DataLine(step: Stepper, p: Parser, k: string, n: Parser, m: Parser, q: Parser)
    requires DataRun(step, p, Value, k, n) && step(n, '\r') == Ran(m, [Piece(Value, "")], Next, 1) && Silent(step, m, '\n', q)
    ensures Run(step, p, k + "\r\n") == Ran(q, Singles(Value, k) + [Piece(Value, "")], Next, |k| + 2) && Good(q)
  {
    EndOfData(step, p, Value, k, n, '\r', m);
    SilentOne(step, m, '\n', q);
    BeforeSilent(step, p, k + ['\r'], Ran(m, Singles(Value, k) + [Piece(Value, "")], Next, |k| + 1), ['\n'], q);
    assert k + ['\r'] + ['\n'] == k + "\r\n";
  }

  lemma EmptyValueRun(p: Parser, hooks: Hooks) returns (q: Parser)
    requires Good(p) && p.state.HeaderValueStart? && Room(p, 2)
    ensures q == p.(state := HeaderValueLws, header := General, index := 0, nread := p.nread + 2) && Good(q)
    ensures Run(Bytewise(hooks), p, "\r\n") == Ran(q, [Piece(Value, "")], Next, 2)
  {
    var m := p.(state := HeaderAlmostDone, header := General, index := 0, nread := p.nread + 1);
    EmptyValueCr(p, hooks);
    LineLf(m, hooks);
    q := LineOver(m);
    EmptyLine(Bytewise(hooks), p, m, q);
  }

  lemma EmptyLine(step: Stepper, p: Parser, m: Parser, q: Parser)
    requires step(p, '\r') == Ran(m, [Piece(Value, "")], Next, 1) && Silent(step, m, '\n', q)
    ensures Run(step, p, "\r\n") == Ran(q, [Piece(Value, "")], Next, 2)
  {
    ThenSilent(step, p, '\r', Ran(m, [Piece(Value, "")], Next, 1), '\n', q);
    assert ['\r', '\n'] == "\r\n";
  }

  /** A value of any kind, to the end of its line. */
  lemma ValueRun(p: Parser, value: string, hooks: Hooks) returns (q: Parser)
    requires Good(p) && p.state.HeaderValueStart? && ValueText(p.header, value) && Room(p, |value| + 2)
    ensures Good(q) && LineDone(p, q, p.header, value, |value| + 2)
    ensures Run(Bytewise(hooks), p, value + "\r\n") == Ran(q, Singles(Value, value) + [Piece(Value, "")], Next, |value| + 2)
  {
    if value == "" {
      q := EmptyValueRun(p, hooks);
      assert value + "\r\n" == "\r\n" && Singles(Value, value) + [Piece(Value, "")] == [Piece(Value, "")];
      EmptyLineDone(p, q);
    } else if p.header.ContentLength? {
      RunLengthValue(p, value, hooks);
      var n := Lengthy(p, Numeral(0, 10, value), |value|);
      LineEnd(p, value, n, hooks);
      q := n.(state := HeaderValueLws, nread := n.nread + 2, flags := FlagsAtEnd(n.header, n.flags));
      LengthLineDone(p, value, q);
    } else {
      var n := TextRun(p, value, hooks);
      LineEnd(p, value, n, hooks);
      q := n.(state := HeaderValueLws, nread := n.nread + 2, flags := FlagsAtEnd(n.header, n.flags));
      TextLineDone(p, value, n, q);
    }
  }

  lemma EmptyLineDone(p: Parser, q: Parser)
    requires q == p.(state := HeaderValueLws, header := General, index := 0, nread := p.nread + 2)
    requires ValueText(p.header, "")
    ensures LineDone(p, q, p.header, "", 2)
  {
    assert !Spaced("chunked", "") && !Spaced("keep-alive", "") && !Spaced("close", "");
  }

  lemma LengthLineDone(p: Parser, value: string, q: Parser)
    requires value != "" && ValueText(p.header, value) && p.header.ContentLength?
    requires var n := Lengthy(p, Numeral(0, 10, value), |value|);
             q == n.(state := HeaderValueLws, nread := n.nread + 2, flags := FlagsAtEnd(n.header, n.flags))
    ensures LineDone(p, q, p.header, value, |value| + 2)
  {
  }

  lemma TextLineDone(p: Parser, value: string, n: Parser, q: Parser)
    requires value != "" && ValueText(p.header, value) && !p.header.ContentLength?
    requires n == p.(state := HeaderValue, header := ValueSeen(p.header, value), index := n.index, nread := p.nread + |value|,
                     flags := FlagsAtStart(p.header, p.flags))
    requires q == n.(state := HeaderValueLws, nread := n.nread + 2, flags := FlagsAtEnd(n.header, n.flags))
    ensures LineDone(p, q, p.header, value, |value| + 2)
  {
    FlagsAgree(p.header, value, p.flags);
  }

  // ------------------------------------------------------------- the block

  /** A header line as it is written. */
  datatype Line = Line(name: string, pad: string, value: string)

  predicate LineText(l: Line) {
    l.name != "" && IsToken(l.name) && (forall c <- l.pad :: Blank(c)) && ValueText(Known(Lowered(l.name)), l.value)
  }

  function LineBytes(l: Line): string { l.name + ":" + (l.pad + (l.value + "\r\n")) }

  function Effect(p: Parser, l: Line): Parser
    requires LineText(l)
  {
    var h := Known(Lowered(l.name));
    p.(flags := FlagsFor(h, l.value, p.flags), length := LengthFor(h, l.value, p.length), nread := p.nread + |LineBytes(l)|)
  }

  /** The same parser but for where the header machine stands. */
  predicate Alike(p: Parser, q: Parser) { q == p.(state := q.state, header := q.header, index := q.index) }

  lemma PadByte(p: Parser, ch: char, hooks: Hooks)
    requires Good(p) && p.state.HeaderValueStart? && Blank(ch) && Room(p, 1)
    ensures Silent(Bytewise(hooks), p, ch, p.(nread := p.nread + 1))
  {
    assert Advance(p, ch, hooks) == StepHeaderValueStart(Counted(p), ch);
  }

  lemma {:induction false} PadRun(p: Parser, pad: string, hooks: Hooks)
    requires Good(p) && p.state.HeaderValueStart? && (forall c <- pad :: Blank(c)) && Room(p, |pad|)
    ensures SilentRun(Bytewise(hooks), p, pad, p.(nread := p.nread + |pad|))
    decreases |pad|
  {
    if pad != "" {
      ValueGlue("", pad);
      PadByte(p, pad[0], hooks);
      var q := p.(nread := p.nread + 1);
      PadRun(q, pad[1..], hooks);
      SilentCons(Bytewise(hooks), p, pad[0], q, pad[1..], p.(nread := p.nread + |pad|));
    }
  }

  /** A line, from the start of its name. */
  lemma LineRun(p: Parser, l: Line, hooks: Hooks) returns (q: Parser)
    requires Good(p) && p.state.HeaderFieldStart? && LineText(l) && Room(p, |LineBytes(l)|)
    ensures Good(q) && q.state.HeaderValueLws? && Alike(Effect(p, l), q)
    ensures Run(Bytewise(hooks), p, LineBytes(l)) ==
            Ran(q, Singles(Field, l.name) + [Piece(Field, "")] + (Singles(Value, l.value) + [Piece(Value, "")]), Next, |LineBytes(l)|)
  {
    var step := Bytewise(hooks);
    var n := NameRun(p, l.name, hooks);
    PadRun(n, l.pad, hooks);
    var v := n.(nread := n.nread + |l.pad|);
    q := ValueRun(v, l.value, hooks);
    AfterSilent(step, n, l.pad, v, l.value + "\r\n");
    RunAppend(step, p, l.name + ":", l.pad + (l.value + "\r\n"));
  }

  lemma LwsByte(p: Parser, ch: char, hooks: Hooks)
    requires Good(p) && p.state.HeaderValueLws? && !Blank(ch) && Room(p, 1)
    ensures OneByte(p, ch, hooks) == OneByte(To(p, HeaderFieldStart), ch, hooks)
  {
    var q := To(p, HeaderFieldStart);
    assert Advance(p, ch, hooks) == StepHeaderValueLws(Counted(p), ch, hooks);
    assert Advance(q, ch, hooks) == StepHeaderFieldStart(Counted(q), ch, hooks);
    assert To(Counted(p), HeaderFieldStart) == Counted(q);
    FieldStartLive(Counted(q), ch, hooks);
  }

  lemma FieldStartLive(p: Parser, ch: char, hooks: Hooks)
    ensures ByteEvents(HeaderValueLws, ch, StepHeaderFieldStart(p, ch, hooks)) ==
            ByteEvents(HeaderFieldStart, ch, StepHeaderFieldStart(p, ch, hooks))
  {
  }

  /** Between lines, nothing else distinguishes the two states. */
  lemma LwsRun(p: Parser, s: string, hooks: Hooks)
    requires Good(p) && p.state.HeaderValueLws? && s != "" && !Blank(s[0]) && Room(p, 1)
    ensures Run(Bytewise(hooks), p, s) == Run(Bytewise(hooks), To(p, HeaderFieldStart), s)
  {
    LwsByte(p, s[0], hooks);
  }

  function BlockBytes(ls: seq<Line>): string {
    if ls == [] then "" else LineBytes(ls[0]) + BlockBytes(ls[1..])
  }

  function Effects(p: Parser, ls: seq<Line>): Parser
    requires forall l <- ls :: LineText(l)
    decreases |ls|
  {
    if ls == [] then p else Effects(Effect(p, ls[0]), ls[1..])
  }

  function Headers(ls: seq<Line>): seq<Header> {
    if ls == [] then [] else [(ls[0].name, ls[0].value)] + Headers(ls[1..])
  }

  /** Between two header lines, or before the first. */
  predicate AtLine(p: Parser) { p.state.HeaderFieldStart? || p.state.HeaderValueLws? }

  lemma LineStarts(l: Line)
    requires LineText(l)
    ensures LineBytes(l) != "" && !Blank(LineBytes(l)[0])
  {
    assert LineBytes(l)[0] == l.name[0] && l.name[0] in l.name;
  }

  lemma LineAnywhere(p: Parser, l: Line, hooks: Hooks) returns (q: Parser)
    requires Good(p) && AtLine(p) && LineText(l) && Room(p, |LineBytes(l)|)
    ensures Good(q) && q.state.HeaderValueLws? && Alike(Effect(p, l), q)
    ensures Run(Bytewise(hooks), p, LineBytes(l)) ==
            Ran(q, Singles(Field, l.name) + [Piece(Field, "")] + (Singles(Value, l.value) + [Piece(Value, "")]), Next, |LineBytes(l)|)
  {
    q := LineRun(To(p, HeaderFieldStart), l, hooks);
    LineStarts(l);
    if p.state.HeaderValueLws? { LwsRun(p, LineBytes(l), hooks); }
  }

  /** The callbacks of a line are its name and its value. */
  lemma LineNorm(name: string, value: string)
    requires name != ""
    ensures Norm(Singles(Field, name) + [Piece(Field, "")] + (Singles(Value, value) + [Piece(Value, "")])) ==
            Norm([Piece(Field, name), Piece(Value, value)])
  {
    SinglesNorm(Field, name);
    if value == "" {
      assert Singles(Value, value) + [Piece(Value, "")] == [Piece(Value, value)];
    } else {
      SinglesNorm(Value, value);
    }
    NormBoth(Singles(Field, name) + [Piece(Field, "")], Singles(Value, value) + [Piece(Value, "")],
             [Piece(Field, name)], [Piece(Value, value)]);
    assert [Piece(Field, name)] + [Piece(Value, value)] == [Piece(Field, name), Piece(Value, value)];
  }

  lemma {:induction false} EffectsAlike(p: Parser, q: Parser, ls: seq<Line>)
    requires Alike(p, q) && forall l <- ls :: LineText(l)
    ensures Alike(Effects(p, ls), Effects(q, ls))
    decreases |ls|
  {
    if ls != [] { EffectsAlike(Effect(p, ls[0]), Effect(q, ls[0]), ls[1..]); }
  }

  /** A block of header lines: the names and values reported are the ones
      written, and the flags and the length are set by them, one after another. */
  lemma {:induction false} BlockRun(p: Parser, ls: seq<Line>, hooks: Hooks) returns (r: Ran)
    requires Good(p) && AtLine(p) && (forall l <- ls :: LineText(l)) && Room(p, |BlockBytes(ls)|)
    ensures r == Run(Bytewise(hooks), p, BlockBytes(ls)) && r.exit.Next? && r.used == |BlockBytes(ls)|
    ensures Good(r.p) && AtLine(r.p) && Alike(Effects(p, ls), r.p)
    ensures Norm(r.events) == Norm(Block(Headers(ls)))
    decreases |ls|
  {
    r := Run(Bytewise(hooks), p, BlockBytes(ls));
    if ls != [] {
      assert ls[0] in ls && forall l <- ls[1..] :: l in ls;
      var q := LineAnywhere(p, ls[0], hooks);
      var s := BlockRun(q, ls[1..], hooks);
      EffectsAlike(Effect(p, ls[0]), q, ls[1..]);
      BlockGlue(Bytewise(hooks), p, ls, q, s);
    }
  }

  /** A line and the rest of its block. */
  lemma BlockGlue(step: Stepper, p: Parser, ls: seq<Line>, q: Parser, s: Ran)
    requires ls != [] && ls[0].name != "" && s == Run(step, q, BlockBytes(ls[1..])) && s.used == |BlockBytes(ls[1..])|
    requires var l := ls[0];
             Run(step, p, LineBytes(l)) ==
             Ran(q, Singles(Field, l.name) + [Piece(Field, "")] + (Singles(Value, l.value) + [Piece(Value, "")]), Next, |LineBytes(l)|)
    requires Norm(s.events) == Norm(Block(Headers(ls[1..])))
    ensures var r := Run(step, p, BlockBytes(ls));
            r.p == s.p && r.exit == s.exit && r.used == |BlockBytes(ls)| && Norm(r.events) == Norm(Block(Headers(ls)))
  {
    var l := ls[0];
    RunAppend(step, p, LineBytes(l), BlockBytes(ls[1..]));
    LineNorm(l.name, l.value);
    NormBoth(Run(step, p, LineBytes(l)).events, s.events, [Piece(Field, l.name), Piece(Value, l.value)], Block(Headers(ls[1..])));
  }
}
