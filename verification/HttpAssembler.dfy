/** `HttpParser` of httpparser.cpp: header names and values put together from
  the pieces the push parser hands out. */
module HttpAssembler {
  import opened Common
  import opened HttpTypes
  import opened HttpStep
  import opened HttpRun
  import opened HttpParser
  import HttpSplit

  type Header = (string, string)

  /** `m_curField`, `m_curValue`, `m_lastWasValue` and the `onHeader` calls. */
  datatype Assembly = Assembly(field: string, value: string, lastWasValue: bool, headers: seq<Header>)

  const INITIAL: Assembly := Assembly("", "", true, [])

  /** The header at hand reported, if there is one. */
  function Report(a: Assembly): seq<Header> {
    if a.field == "" then a.headers else a.headers + [(a.field, a.value)]
  }

  function Handle(a: Assembly, e: Event): Assembly {
    match e
    case Note(MessageBegin) => Assembly("", "", true, a.headers)
    case Note(HeadersComplete) => a.(headers := Report(a))
    case Piece(Field, text) =>
      if a.lastWasValue then Assembly(text, "", false, Report(a)) else a.(field := a.field + text)
    case Piece(Value, text) => a.(value := a.value + text, lastWasValue := true)
    case _ => a
  }

  function HandleAll(a: Assembly, es: seq<Event>): Assembly
    decreases |es|
  {
    if es == [] then a else HandleAll(Handle(a, es[0]), es[1..])
  }

  lemma {:induction false} HandleAllAppend(a: Assembly, es: seq<Event>, fs: seq<Event>)
    ensures HandleAll(a, es + fs) == HandleAll(HandleAll(a, es), fs)
    decreases |es|
  {
    if es == [] {
      assert es + fs == fs;
    } else {
      assert (es + fs)[1..] == es[1..] + fs;
      HandleAllAppend(Handle(a, es[0]), es[1..], fs);
    }
  }

  lemma HandleLast(a: Assembly, es: seq<Event>, e: Event)
    ensures HandleAll(a, es + [e]) == Handle(HandleAll(a, es), e)
  {
    HandleAllAppend(a, es, [e]);
    assert [e][1..] == [];
  }

  /** Two pieces in a row are handled like their concatenation. */
  lemma HandleTwice(a: Assembly, k: Data, x: string, y: string)
    ensures Handle(Handle(a, Piece(k, x)), Piece(k, y)) == Handle(a, Piece(k, x + y))
  {
    assert a.field + x + y == a.field + (x + y);
    assert a.value + x + y == a.value + (x + y);
  }

  lemma HandlePush(a: Assembly, t: seq<Event>, e: Event)
    ensures HandleAll(a, Push(t, e)) == Handle(HandleAll(a, t), e)
  {
    if Joins(t, e) {
      var init, last := t[..|t| - 1], t[|t| - 1];
      assert t == init + [last];
      HandleLast(a, init, last);
      HandleLast(a, init, Piece(e.what, last.text + e.text));
      HandleTwice(HandleAll(a, init), e.what, last.text, e.text);
    } else {
      HandleLast(a, t, e);
    }
  }

  /** Only the merged trace matters: the headers do not depend on how the data
      was cut into callbacks. */
  lemma {:induction false} HandleNorm(a: Assembly, es: seq<Event>)
    ensures HandleAll(a, Norm(es)) == HandleAll(a, es)
    decreases |es|
  {
    if es != [] {
      var init, e := es[..|es| - 1], es[|es| - 1];
      assert es == init + [e] && [e][1..] == [];
      HandleNorm(a, init);
      PushAllAppend([], init, [e]);
      HandlePush(a, Norm(init), e);
      HandleLast(a, init, e);
    }
  }

  // ------------------------------------------------- which headers these are

  /** The callbacks of a block of headers, each name and value in one piece. */
  function Block(hs: seq<Header>): seq<Event> {
    if hs == [] then [] else [Piece(Field, hs[0].0), Piece(Value, hs[0].1)] + Block(hs[1..])
  }

  lemma {:induction false} HandleBlock(a: Assembly, hs: seq<Header>)
    requires a.lastWasValue && forall h <- hs :: h.0 != ""
    ensures var b := HandleAll(a, Block(hs)); b.lastWasValue && Report(b) == Report(a) + hs
    decreases |hs|
  {
    if hs != [] {
      var two := [Piece(Field, hs[0].0), Piece(Value, hs[0].1)];
      HandleAllAppend(a, two, Block(hs[1..]));
      assert two == [two[0]] + [two[1]];
      HandleLast(a, [two[0]], two[1]);
      HandleLast(a, [], two[0]);
      assert [] + [two[0]] == [two[0]];
      var b := Handle(Handle(a, two[0]), two[1]);
      assert "" + hs[0].1 == hs[0].1;
      HandleBlock(b, hs[1..]);
      assert Report(a) + [hs[0]] + hs[1..] == Report(a) + hs;
    }
  }

  /** Callbacks that come between the start of a message and its headers. */
  predicate Preamble(es: seq<Event>) {
    forall e <- es :: e == Note(StatusComplete) || (e.Piece? && e.what.Url?)
  }

  lemma {:induction false} HandlePreamble(a: Assembly, es: seq<Event>)
    requires Preamble(es)
    ensures HandleAll(a, es) == a
    decreases |es|
  {
    if es != [] { HandlePreamble(a, es[1..]); }
  }

  /** A message whose callbacks are, in some cut, those of the headers `hs`:
      `onHeader` is called for exactly these, in this order. */
  lemma MessageHeaders(a: Assembly, preamble: seq<Event>, hs: seq<Header>, es: seq<Event>)
    requires Preamble(preamble) && forall h <- hs :: h.0 != ""
    requires Norm(es) == Norm([Note(MessageBegin)] + preamble + Block(hs) + [Note(HeadersComplete)])
    ensures HandleAll(a, es).headers == a.headers + hs
  {
    var begun := Handle(a, Note(MessageBegin));
    HandleNorm(a, es);
    HandleNorm(a, [Note(MessageBegin)] + preamble + Block(hs) + [Note(HeadersComplete)]);
    HandleLast(a, [Note(MessageBegin)] + preamble + Block(hs), Note(HeadersComplete));
    HandleAllAppend(a, [Note(MessageBegin)] + preamble, Block(hs));
    HandleAllAppend(a, [Note(MessageBegin)], preamble);
    HandleLast(a, [], Note(MessageBegin));
    assert [] + [Note(MessageBegin)] == [Note(MessageBegin)];
    HandlePreamble(begun, preamble);
    HandleBlock(begun, hs);
  }

  lemma NextBuffer(hooks: Hooks, p: Parser, fed: string, n1: nat, q: Parser, es1: seq<Event>, lost1: seq<Event>,
                   buffers: seq<string>, i: nat, n2: nat, r: Parser, es2: seq<Event>, lost2: seq<Event>)
    requires Good(p) && i < |buffers| && fed == Flatten(buffers[..i])
    requires Ended(Run(Bytewise(hooks), p, fed), n1, q, es1, lost1) && !Run(Bytewise(hooks), p, fed).exit.Leave?
    requires HttpSplit.Call(Bytewise(hooks), q, buffers[i], n2, r, es2, lost2)
    ensures fed + buffers[i] == Flatten(buffers[..i + 1])
    ensures var x := Run(Bytewise(hooks), p, fed + buffers[i]);
            Ended(x, n1 + n2, r, es1 + es2, lost1 + lost2) && (x.exit.Leave? ==> r.upgrade)
  {
    BytewiseIsTrusty(hooks);
    HttpSplit.NextCall(Bytewise(hooks), p, fed, n1, q, es1, lost1, buffers[i], n2, r, es2, lost2);
    HttpSplit.LeaveUpgrades(hooks, p, fed + buffers[i]);
    NextFed(buffers, i);
  }

  lemma NextFed(buffers: seq<string>, i: nat)
    requires i < |buffers|
    ensures Flatten(buffers[..i]) + buffers[i] == Flatten(buffers[..i + 1])
  {
    assert buffers[..i + 1] == buffers[..i] + [buffers[i]];
    FlattenSnoc(buffers[..i], buffers[i]);
  }

  lemma Reported(hooks: Hooks, p: Parser, fed: string, n: nat, q: Parser, es: seq<Event>, lost: seq<Event>)
    requires Good(p) && Ended(Run(Bytewise(hooks), p, fed), n, q, es, lost) && q.errno.Ok?
    ensures Norm(es) == Norm(Run(Bytewise(hooks), p, fed).events)
    ensures HandleAll(INITIAL, es) == HandleAll(INITIAL, Run(Bytewise(hooks), p, fed).events)
  {
    BytewiseIsTrusty(hooks);
    RunKeepsGood(Bytewise(hooks), p, fed);
    assert es + lost == es;
    HandleNorm(INITIAL, es);
    HandleNorm(INITIAL, Run(Bytewise(hooks), p, fed).events);
  }

  /** A call without an error takes the whole buffer, up to an upgrade. */
  lemma AllTaken(hooks: Hooks, p: Parser, buffer: string, n: nat, q: Parser, es: seq<Event>, lost: seq<Event>)
    requires Inv(p) && HttpSplit.Call(Bytewise(hooks), p, buffer, n, q, es, lost)
    ensures q.errno.Ok? ==> n == |buffer| || q.upgrade
  {
    if p.errno.Ok? {
      BytewiseIsTrusty(hooks);
      RunKeepsGood(Bytewise(hooks), p, buffer);
      HttpSplit.LeaveUpgrades(hooks, p, buffer);
    }
  }

  // ---------------------------------------------------------------- the class

  class Assembler {
    const parser: Executor
    var curField: string
    var curValue: string
    var lastWasValue: bool
    var headers: seq<Header>        // the onHeader calls, oldest first

    ghost predicate Valid()
      reads this, parser
    {
      Inv(parser.p) && View() == HandleAll(INITIAL, parser.trace)
    }

    function View(): Assembly
      reads this
    {
      Assembly(curField, curValue, lastWasValue, headers)
    }

    constructor (t: ParserType, hooks: Hooks)
      ensures Valid() && fresh(parser) && parser.p == InitialParser(t) && parser.hooks == hooks && parser.trace == []
    {
      parser := new Executor(t, hooks);
      curField, curValue, lastWasValue, headers := "", "", true, [];
    }

    method HandleMessageBegin()
      modifies this
      ensures View() == Handle(old(View()), Note(MessageBegin))
    {
      curField, curValue, lastWasValue := "", "", true;
    }

    method HandleHeaderField(text: string)
      modifies this
      ensures View() == Handle(old(View()), Piece(Field, text))
    {
      if lastWasValue {
        if curField != "" {
          headers := headers + [(curField, curValue)];
        }
        curField, curValue := "", "";
      }
      assert "" + text == text;
      curField := curField + text;
      lastWasValue := false;
    }

    method HandleHeaderValue(text: string)
      modifies this
      ensures View() == Handle(old(View()), Piece(Value, text))
    {
      curValue := curValue + text;
      lastWasValue := true;
    }

    method HandleHeadersComplete()
      modifies this
      ensures View() == Handle(old(View()), Note(HeadersComplete))
    {
      if curField != "" {
        headers := headers + [(curField, curValue)];
      }
    }

    /** `onParser` */
    method OnParser(e: Event)
      modifies this
      ensures View() == Handle(old(View()), e)
    {
      match e {
        case Note(MessageBegin) => HandleMessageBegin();
        case Note(HeadersComplete) => HandleHeadersComplete();
        case Piece(Field, text) => HandleHeaderField(text);
        case Piece(Value, text) => HandleHeaderValue(text);
        case _ =>
      }
    }

    method Deliver(es: seq<Event>)
      modifies this
      ensures View() == HandleAll(old(View()), es)
    {
      for i := 0 to |es|
        invariant View() == HandleAll(old(View()), es[..i])
      {
        assert es[..i + 1] == es[..i] + [es[i]];
        HandleLast(old(View()), es[..i], es[i]);
        OnParser(es[i]);
      }
      assert es[..|es|] == es;
    }

    /** `execute`: the HTTP status to answer with, or 0. The callbacks are
        delivered after the parse; they do not influence it. */
    method Execute(buffer: string) returns (code: nat, n: nat, ghost es: seq<Event>, ghost lost: seq<Event>)
      requires Valid() && buffer != ""
      modifies this, parser
      ensures Valid() && parser.trace == old(parser.trace) + es
      ensures HttpSplit.Call(Bytewise(parser.hooks), old(parser.p), buffer, n, parser.p, es, lost)
      ensures code == if parser.p.upgrade || n == |buffer| then 0 else 400
      ensures parser.p.errno.Ok? ==> code == 0
    {
      ghost var before, q := parser.trace, parser.p;
      var k := |parser.trace|;
      n, lost := parser.Execute(buffer);
      es := parser.trace[k..];
      assert parser.trace == before + es;
      HandleAllAppend(INITIAL, before, es);
      Deliver(parser.trace[k..]);
      AllTaken(parser.hooks, q, buffer, n, parser.p, es, lost);
      code := if parser.p.upgrade || n == |buffer| then 0 else 400;
    }

    /** `execute` with no bytes, at the end of a connection. */
    method End() returns (code: nat)
      requires Valid() && Good(parser.p)
      modifies this, parser
      ensures Valid() && old(parser.trace) <= parser.trace
      ensures exists n :: parser.AtEof(old(parser.p), n, parser.p, parser.trace[|old(parser.trace)|..]) &&
                          code == if parser.p.upgrade || n == 0 then 0 else 400
    {
      ghost var before := parser.trace;
      var k := |parser.trace|;
      var n := parser.Eof();
      assert parser.trace == before + parser.trace[k..];
      HandleAllAppend(INITIAL, before, parser.trace[k..]);
      Deliver(parser.trace[k..]);
      code := if parser.p.upgrade || n == 0 then 0 else 400;
    }

    /** A connection: buffers go in as they are read, until one is refused or
        the protocol changes. Wherever the bytes were cut, the callbacks and the
        headers reported are those of the bytes fed one at a time. */
    method Serve(buffers: seq<string>) returns (code: nat, ghost used: nat, ghost fed: string)
      requires Valid() && parser.trace == [] && Good(parser.p)
      requires forall b <- buffers :: b != ""
      modifies this, parser
      ensures Valid() && used <= |buffers| && fed == Flatten(buffers[..used])
      ensures parser.p == Run(Bytewise(parser.hooks), old(parser.p), fed).p
      ensures parser.p.errno.Ok? ==> Norm(parser.trace) == Norm(Run(Bytewise(parser.hooks), old(parser.p), fed).events)
      ensures parser.p.errno.Ok? ==> View() == HandleAll(INITIAL, Run(Bytewise(parser.hooks), old(parser.p), fed).events)
      ensures code == 0 && !parser.p.upgrade ==> fed == Flatten(buffers)
      ensures parser.p.errno.Ok? ==> code == 0
    {
      ghost var step, p0, count, lost := Bytewise(parser.hooks), parser.p, 0, [];
      code, used, fed := 0, 0, "";
      var i := 0;
      assert parser.trace + lost == [];
      while i < |buffers| && code == 0 && !parser.p.upgrade
        invariant used == i <= |buffers| && Valid() && fed == Flatten(buffers[..i])
        invariant Ended(Run(step, p0, fed), count, parser.p, parser.trace, lost)
        invariant Run(step, p0, fed).exit.Leave? ==> parser.p.upgrade
        invariant parser.p.errno.Ok? ==> code == 0
      {
        assert buffers[i] in buffers;
        ghost var q, before, es, more := parser.p, parser.trace, [], [];
        var n;
        code, n, es, more := Execute(buffers[i]);
        NextBuffer(parser.hooks, p0, fed, count, q, before, lost, buffers, i, n, parser.p, es, more);
        fed, count, lost := fed + buffers[i], count + n, lost + more;
        i, used := i + 1, used + 1;
      }
      assert buffers[..|buffers|] == buffers;
      if parser.p.errno.Ok? {
        Reported(parser.hooks, p0, fed, count, parser.p, parser.trace, lost);
      }
    }
  }
}
