/** How bodies are framed: by Content-Length and in chunks. */
module HttpFraming {
  import opened Common
  import opened HttpTypes
  import opened HttpStep
  import opened HttpRun
  import opened HttpParser

  /** The bytes handed to `on_body`. */
  function BodyBytes(es: seq<Event>): string {
    if es == [] then ""
    else BodyBytes(es[..|es| - 1]) + BodyText(es[|es| - 1])
  }

  function BodyText(e: Event): string {
    if e.Piece? && e.what.Body? then e.text else ""
  }

  lemma BodyBytesSnoc(es: seq<Event>, e: Event)
    ensures BodyBytes(es + [e]) == BodyBytes(es) + BodyText(e)
  {
    assert (es + [e])[..|es|] == es;
  }

  lemma {:induction false} BodyBytesAppend(a: seq<Event>, b: seq<Event>)
    ensures BodyBytes(a + b) == BodyBytes(a) + BodyBytes(b)
    decreases |b|
  {
    if b == [] {
      assert a + b == a;
    } else {
      var init, e := b[..|b| - 1], b[|b| - 1];
      assert a + b == (a + init) + [e] && b == init + [e];
      BodyBytesAppend(a, init);
      BodyBytesSnoc(a + init, e);
      BodyBytesSnoc(init, e);
      Regrouped(BodyBytes(a), BodyBytes(init), BodyText(e));
    }
  }

  lemma BodyBytesPush(t: seq<Event>, e: Event)
    ensures BodyBytes(Push(t, e)) == BodyBytes(t) + BodyText(e)
  {
    if Joins(t, e) {
      var init, last := t[..|t| - 1], t[|t| - 1];
      BodyBytesSnoc(init, Piece(e.what, last.text + e.text));
      Regrouped(BodyBytes(init), BodyText(last), BodyText(e));
    } else {
      BodyBytesSnoc(t, e);
    }
  }

  /** However the body is cut into callbacks, its bytes are the same. */
  lemma {:induction false} BodyBytesNorm(es: seq<Event>)
    ensures BodyBytes(Norm(es)) == BodyBytes(es)
    decreases |es|
  {
    if es != [] {
      var init, e := es[..|es| - 1], es[|es| - 1];
      assert es == init + [e] && [e][1..] == [];
      BodyBytesNorm(init);
      PushAllAppend([], init, [e]);
      BodyBytesPush(Norm(init), e);
    }
  }

  lemma {:induction false} BodyBytesSingles(s: string)
    ensures BodyBytes(Singles(Body, s)) == s
    decreases |s|
  {
    if s != "" {
      var es := Singles(Body, s);
      assert es[..|es| - 1] == Singles(Body, s[..|s| - 1]);
      BodyBytesSingles(s[..|s| - 1]);
      assert s == s[..|s| - 1] + [s[|s| - 1]];
    }
  }

  // ------------------------------------------------------------------ runs

  /** One byte that only changes the parser. */
  ghost predicate Silent(step: Stepper, p: Parser, ch: char, q: Parser) { step(p, ch) == Ran(q, [], Next, 1) && Good(q) }

  /** Some bytes that only change the parser. */
  ghost predicate SilentRun(step: Stepper, p: Parser, s: string, q: Parser) { Run(step, p, s) == Ran(q, [], Next, |s|) && Good(q) }

  lemma SilentCons(step: Stepper, p: Parser, ch: char, q: Parser, s: string, r: Parser)
    requires Silent(step, p, ch, q) && SilentRun(step, q, s, r)
    ensures SilentRun(step, p, [ch] + s, r)
  {
    assert ([ch] + s)[1..] == s;
  }

  lemma SilentAppend(step: Stepper, p: Parser, a: string, q: Parser, b: string, r: Parser)
    requires SilentRun(step, p, a, q) && SilentRun(step, q, b, r)
    ensures SilentRun(step, p, a + b, r)
  {
    RunAppend(step, p, a, b);
  }

  lemma SilentTwo(step: Stepper, p: Parser, c: char, q: Parser, d: char, r: Parser)
    requires Silent(step, p, c, q) && Silent(step, q, d, r)
    ensures SilentRun(step, p, [c, d], r)
  {
    assert SilentRun(step, r, "", r);
    SilentCons(step, q, d, r, "", r);
    SilentCons(step, p, c, q, [d] + "", r);
    assert [c] + ([d] + "") == [c, d];
  }

  lemma SilentOne(step: Stepper, p: Parser, ch: char, q: Parser)
    requires Silent(step, p, ch, q)
    ensures SilentRun(step, p, [ch], q)
  {
    assert [ch][1..] == "" && Run(step, q, "") == Ran(q, [], Next, 0);
  }

  /** Two silent bytes and another. */
  lemma ThreeBytes(step: Stepper, p: Parser, c: char, q: Parser, d: char, r: Parser, e: char, last: Ran)
    requires Silent(step, p, c, q) && Silent(step, q, d, r) && step(r, e) == last
    ensures Run(step, p, [c, d, e]) == Ran(last.p, last.events, last.exit, 2 + last.used)
  {
    SilentTwo(step, p, c, q, d, r);
    LastByte(step, r, e, last);
    AfterSilent(step, p, [c, d], r, [e]);
    assert [c, d] + [e] == [c, d, e];
  }

  /** A byte and a silent one. */
  lemma ThenSilent(step: Stepper, p: Parser, c: char, r: Ran, d: char, q: Parser)
    requires step(p, c) == r && r.exit.Next? && r.used == 1 && Silent(step, r.p, d, q)
    ensures Run(step, p, [c, d]) == Ran(q, r.events, Next, 2)
  {
    LastByte(step, p, c, r);
    SilentOne(step, r.p, d, q);
    BeforeSilent(step, p, [c], r, [d], q);
    assert [c] + [d] == [c, d];
  }

  lemma FirstThen(step: Stepper, p: Parser, ch: char, r: Ran, s: string)
    requires step(p, ch) == r && r.exit.Next?
    ensures Run(step, p, [ch] + s) == Then(r, Run(step, r.p, s))
  {
    assert ([ch] + s)[1..] == s;
  }

  /** A run after a silent one. */
  lemma AfterSilent(step: Stepper, p: Parser, a: string, q: Parser, b: string)
    requires SilentRun(step, p, a, q)
    ensures var r := Run(step, q, b); Run(step, p, a + b) == Ran(r.p, r.events, r.exit, |a| + r.used)
  {
    RunAppend(step, p, a, b);
    assert [] + Run(step, q, b).events == Run(step, q, b).events;
  }

  // --------------------------------------------------------------- numerals

  function HexDigit(ch: char): (d: nat)
    requires IsHex(ch)
    ensures d < 16
  {
    Unhex(ch)
  }

  lemma GrowsBy(v: nat, base: nat)
    requires base > 1
    ensures v * base >= v
  {
  }

  /** The value of a numeral read after `v`. */
  function Numeral(v: nat, base: nat, s: string): (r: nat)
    requires base > 1 && forall c <- s :: IsHex(c)
    ensures r >= v
    decreases |s|
  {
    if s == "" then v else
      GrowsBy(v, base);
      Numeral(v * base + HexDigit(s[0]), base, s[1..])
  }

  /** A parser with a new length, after `n` header bytes. */
  function Sized(p: Parser, length: nat, n: nat): Parser { p.(length := length, nread := p.nread + n) }

  lemma GrowLengthExact(p: Parser, base: nat, d: nat)
    requires p.length <= ULLONG_MAX && 1 <= base && p.length * base + d < ULLONG_MAX
    ensures GrowLength(p, true, base, d) == Plain(p.(length := p.length * base + d))
  {
    assert p.length <= p.length * base;
  }

  lemma HexByte(p: Parser, ch: char, hooks: Hooks)
    requires Good(p) && p.state.ChunkSize? && IsHex(ch) && Room(p, 1) && p.length * 16 + HexDigit(ch) < ULLONG_MAX
    ensures Silent(Bytewise(hooks), p, ch, Sized(p, p.length * 16 + HexDigit(ch), 1))
  {
    GrowLengthExact(Counted(p), 16, HexDigit(ch));
    assert Advance(p, ch, hooks) == StepChunkSize(Counted(p), ch);
  }

  lemma NumeralGlue(v: nat, base: nat, s: string)
    requires base > 1 && s != "" && forall c <- s :: IsHex(c)
    ensures s == [s[0]] + s[1..] && IsHex(s[0]) && forall c <- s[1..] :: IsHex(c)
    ensures var w := v * base + HexDigit(s[0]); w <= Numeral(w, base, s[1..]) == Numeral(v, base, s)
  {
    assert s[0] in s;
  }

  lemma {:induction false} RunHex(p: Parser, s: string, hooks: Hooks)
    requires Good(p) && p.state.ChunkSize? && (forall c <- s :: IsHex(c)) && Room(p, |s|)
    requires Numeral(p.length, 16, s) < ULLONG_MAX
    ensures SilentRun(Bytewise(hooks), p, s, Sized(p, Numeral(p.length, 16, s), |s|))
    decreases |s|
  {
    if s != "" {
      NumeralGlue(p.length, 16, s);
      var q := Sized(p, p.length * 16 + HexDigit(s[0]), 1);
      HexByte(p, s[0], hooks);
      RunHex(q, s[1..], hooks);
      SilentCons(Bytewise(hooks), p, s[0], q, s[1..], Sized(q, Numeral(q.length, 16, s[1..]), |s| - 1));
    }
  }

  // ----------------------------------------------------------------- chunks

  /** A chunk as it is written: the size in hexadecimal, whatever parameters
      follow it, and the data (section 3.6.1 of RFC 2616). */
  datatype Chunk = Chunk(size: string, parameters: string, data: string)

  predicate Parameters(s: string) {
    s == "" || ((s[0] == ';' || s[0] == ' ') && forall c <- s :: c != '\r')
  }

  predicate WellFormed(k: Chunk) {
    k.size != "" && (forall c <- k.size :: IsHex(c)) && Parameters(k.parameters) &&
    Numeral(0, 16, k.size) == |k.data| < ULLONG_MAX && |k.size| + |k.parameters| + 2 <= MAX_HEADER_SIZE
  }

  function SizeLine(k: Chunk): string { k.size + (k.parameters + "\r\n") }

  function Written(k: Chunk): string { SizeLine(k) + (k.data + "\r\n") }

  lemma FirstHexByte(p: Parser, ch: char, hooks: Hooks)
    requires Good(p) && p.state.ChunkSizeStart? && IsHex(ch)
    ensures Silent(Bytewise(hooks), p, ch, To(Sized(p, HexDigit(ch), 1), ChunkSize))
  {
    assert Advance(p, ch, hooks) == StepChunkHeader(Counted(p), ch);
  }

  lemma ParameterByte(p: Parser, ch: char, hooks: Hooks)
    requires Good(p) && Room(p, 1)
    requires (p.state.ChunkSize? && (ch == ';' || ch == ' ')) || (p.state.ChunkParameters? && ch != '\r')
    ensures Silent(Bytewise(hooks), p, ch, To(Sized(p, p.length, 1), ChunkParameters))
  {
    assert Advance(p, ch, hooks) == StepChunkHeader(Counted(p), ch);
  }

  lemma {:induction false} RunParameters(p: Parser, s: string, hooks: Hooks)
    requires Good(p) && p.state.ChunkParameters? && Room(p, |s|) && forall c <- s :: c != '\r'
    ensures SilentRun(Bytewise(hooks), p, s, Sized(p, p.length, |s|))
    decreases |s|
  {
    if s != "" {
      var q := To(Sized(p, p.length, 1), ChunkParameters);
      assert s[0] in s && forall c <- s[1..] :: c in s;
      ParameterByte(p, s[0], hooks);
      RunParameters(q, s[1..], hooks);
      SilentCons(Bytewise(hooks), p, s[0], q, s[1..], Sized(q, q.length, |s| - 1));
      assert s == [s[0]] + s[1..];
    }
  }

  /** What follows a size: the parser with its size, on the way to the end of the line. */
  lemma RunAllParameters(p: Parser, s: string, hooks: Hooks) returns (q: Parser)
    requires Good(p) && p.state.ChunkSize? && Room(p, |s|) && Parameters(s)
    ensures q.state.ChunkSize? || q.state.ChunkParameters?
    ensures q == To(Sized(p, p.length, |s|), q.state)
    ensures SilentRun(Bytewise(hooks), p, s, q)
  {
    if s == "" {
      q := p;
    } else {
      var m := To(Sized(p, p.length, 1), ChunkParameters);
      assert forall c <- s[1..] :: c in s;
      ParameterByte(p, s[0], hooks);
      RunParameters(m, s[1..], hooks);
      q := Sized(m, m.length, |s| - 1);
      SilentCons(Bytewise(hooks), p, s[0], m, s[1..], q);
      assert s == [s[0]] + s[1..];
    }
  }

  /** The parser after a size line. */
  function Opened(p: Parser, size: nat): Parser {
    if size == 0 then p.(length := 0, nread := 0, flags := p.flags.(trailing := true), state := HeaderFieldStart)
    else p.(length := size, nread := 0, state := ChunkData)
  }

  lemma CrByte(p: Parser, hooks: Hooks)
    requires Good(p) && (p.state.ChunkSize? || p.state.ChunkParameters?) && Room(p, 1)
    ensures Silent(Bytewise(hooks), p, '\r', To(Sized(p, p.length, 1), ChunkSizeAlmostDone))
  {
    assert Advance(p, '\r', hooks) == StepChunkHeader(Counted(p), '\r');
  }

  lemma LfByte(p: Parser, hooks: Hooks)
    requires Good(p) && p.state.ChunkSizeAlmostDone? && Room(p, 1)
    ensures Silent(Bytewise(hooks), p, '\n', Opened(p, p.length))
  {
    assert Advance(p, '\n', hooks) == StepChunkHeader(Counted(p), '\n');
  }

  lemma LineEndBytes(p: Parser, hooks: Hooks)
    requires Good(p) && (p.state.ChunkSize? || p.state.ChunkParameters?) && Room(p, 2)
    ensures SilentRun(Bytewise(hooks), p, "\r\n", Opened(p, p.length))
  {
    var q := To(Sized(p, p.length, 1), ChunkSizeAlmostDone);
    CrByte(p, hooks);
    LfByte(q, hooks);
    SilentTwo(Bytewise(hooks), p, '\r', q, '\n', Opened(p, p.length));
  }

  lemma RunSizeLine(p: Parser, k: Chunk, hooks: Hooks)
    requires Good(p) && p.state.ChunkSizeStart? && WellFormed(k)
    ensures SilentRun(Bytewise(hooks), p, SizeLine(k), Opened(p, |k.data|))
  {
    var step := Bytewise(hooks);
    assert k.size[0] in k.size;
    var a := To(Sized(p, HexDigit(k.size[0]), 1), ChunkSize);
    FirstHexByte(p, k.size[0], hooks);
    var b := Sized(a, |k.data|, |k.size| - 1);
    RunHex(a, k.size[1..], hooks);
    SilentCons(step, p, k.size[0], a, k.size[1..], b);
    assert k.size == [k.size[0]] + k.size[1..];
    var c := RunAllParameters(b, k.parameters, hooks);
    LineEndBytes(c, hooks);
    SilentAppend(step, b, k.parameters, c, "\r\n", Opened(c, |k.data|));
    SilentAppend(step, p, k.size, b, k.parameters + "\r\n", Opened(c, |k.data|));
    assert Opened(c, |k.data|) == Opened(p, |k.data|);
  }

  /** The parser between chunks. */
  function Between(p: Parser): Parser { p.(length := 0, nread := 0, state := ChunkSizeStart) }

  lemma ChunkEndBytes(p: Parser, hooks: Hooks)
    requires Good(p) && p.state.ChunkDataAlmostDone?
    ensures SilentRun(Bytewise(hooks), p, "\r\n", Between(p))
  {
    var q := To(p, ChunkDataDone);
    assert Advance(p, '\r', hooks) == Go(p, ChunkDataDone).(flush := Some(Flush(Body, false)));
    assert Advance(q, '\n', hooks) == Go(q.(nread := 0), ChunkSizeStart);
    SilentTwo(Bytewise(hooks), p, '\r', q, '\n', Between(p));
  }

  /** A run before a silent one. */
  lemma BeforeSilent(step: Stepper, p: Parser, a: string, r: Ran, b: string, q: Parser)
    requires Run(step, p, a) == r && r.exit.Next? && SilentRun(step, r.p, b, q)
    ensures Run(step, p, a + b) == Ran(q, r.events, Next, r.used + |b|)
  {
    RunAppend(step, p, a, b);
    assert r.events + [] == r.events;
  }

  lemma RunDataEnd(p: Parser, s: string, hooks: Hooks)
    requires Good(p) && p.state.ChunkData? && |s| == p.length
    ensures Run(Bytewise(hooks), p, s + "\r\n") == Ran(Between(p), Singles(Body, s), Next, |s| + 2)
    ensures Good(Between(p))
  {
    RunChunk(p, s, hooks);
    var b := To(Shorter(p, |s|), ChunkDataAlmostDone);
    ChunkEndBytes(b, hooks);
    BeforeSilent(Bytewise(hooks), p, s, Ran(b, Singles(Body, s), Next, |s|), "\r\n", Between(b));
  }

  /** A chunk with data: `on_body` is called for its bytes. */
  lemma RunWritten(p: Parser, k: Chunk, hooks: Hooks)
    requires Good(p) && p.state.ChunkSizeStart? && WellFormed(k) && k.data != ""
    ensures Run(Bytewise(hooks), p, Written(k)) == Ran(Between(p), Singles(Body, k.data), Next, |Written(k)|)
    ensures Good(Between(p))
  {
    var a := Opened(p, |k.data|);
    RunSizeLine(p, k, hooks);
    RunDataEnd(a, k.data, hooks);
    AfterSilent(Bytewise(hooks), p, SizeLine(k), a, k.data + "\r\n");
    assert Between(a) == Between(p);
  }

  /** A run of one byte. */
  lemma LastByte(step: Stepper, p: Parser, ch: char, r: Ran)
    requires step(p, ch) == r
    ensures Run(step, p, [ch]) == r
  {
    assert [ch][1..] == "" && r.events + [] == r.events;
  }

  lemma TrailerLf(p: Parser, hooks: Hooks)
    requires Good(p) && p.state.HeadersAlmostDone? && p.flags.trailing && Room(p, 1)
    ensures var t := Complete(p.(nread := p.nread + 1), hooks);
            Bytewise(hooks)(p, '\n') == Ran(t.p, [Note(MessageComplete)], t.exit, 1)
  {
    assert Advance(p, '\n', hooks) == Complete(Counted(p), hooks);
  }

  lemma TrailerCr(p: Parser, hooks: Hooks)
    requires Good(p) && p.state.HeaderFieldStart? && Room(p, 1)
    ensures Silent(Bytewise(hooks), p, '\r', To(p.(nread := p.nread + 1), HeadersAlmostDone))
  {
    assert Advance(p, '\r', hooks) == Go(Counted(p), HeadersAlmostDone);
  }

  /** The chunks of a message and the size line of the last one. */
  function AllWritten(ks: seq<Chunk>, last: Chunk): string {
    if ks == [] then SizeLine(last) else Written(ks[0]) + AllWritten(ks[1..], last)
  }

  function AllSingles(ks: seq<Chunk>): seq<Event> {
    if ks == [] then [] else Singles(Body, ks[0].data) + AllSingles(ks[1..])
  }

  function AllData(ks: seq<Chunk>): string {
    if ks == [] then "" else ks[0].data + AllData(ks[1..])
  }

  /** Chunks of data, and a last one of size zero. */
  predicate Chunking(ks: seq<Chunk>, last: Chunk) {
    WellFormed(last) && last.data == "" && forall k <- ks :: WellFormed(k) && k.data != ""
  }

  /** A chunked body: every byte of every chunk is handed out, in order, and
      the size line of the last chunk leads to the trailer. */
  lemma {:induction false} ChunkedRun(p: Parser, ks: seq<Chunk>, last: Chunk, hooks: Hooks)
    requires Good(p) && p.state.ChunkSizeStart? && Chunking(ks, last)
    ensures Run(Bytewise(hooks), p, AllWritten(ks, last)) == Ran(Opened(p, 0), AllSingles(ks), Next, |AllWritten(ks, last)|)
    ensures Good(Opened(p, 0))
    decreases |ks|
  {
    if ks == [] {
      RunSizeLine(p, last, hooks);
    } else {
      RunWritten(p, ks[0], hooks);
      ChunkedRun(Between(p), ks[1..], last, hooks);
      RunAppend(Bytewise(hooks), p, Written(ks[0]), AllWritten(ks[1..], last));
      assert Opened(Between(p), 0) == Opened(p, 0);
    }
  }
}
