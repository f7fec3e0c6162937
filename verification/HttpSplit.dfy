/** How the bytes of a connection are cut into calls of `http_parser_execute`
  does not matter. */
module HttpSplit {
  import opened HttpTypes
  import opened HttpStep
  import opened HttpRun
  import opened HttpParser

  /** One call on a non-empty buffer, as `Executor.Execute` promises it. */
  ghost predicate Call(step: Stepper, p: Parser, data: string, n: nat, q: Parser, es: seq<Event>, lost: seq<Event>) {
    if p.errno.Ok? then Ended(Run(step, p, data), n, q, es, lost)
    else n == 0 && q == p && es == [] && lost == []
  }

  /** Another call after bytes that are already in, unless these ended in an
      upgrade: together they are one call on all the bytes. */
  lemma NextCall(step: Stepper, p: Parser, a: string, n1: nat, q: Parser, es1: seq<Event>, lost1: seq<Event>,
                 b: string, n2: nat, r: Parser, es2: seq<Event>, lost2: seq<Event>)
    requires Trusty(step) && Good(p)
    requires Ended(Run(step, p, a), n1, q, es1, lost1) && !Run(step, p, a).exit.Leave?
    requires Call(step, q, b, n2, r, es2, lost2)
    ensures Ended(Run(step, p, a + b), n1 + n2, r, es1 + es2, lost1 + lost2)
  {
    var x := Run(step, p, a);
    Gather(es1, lost1, [], []);
    RunKeepsGood(step, p, a);
    RunAppend(step, p, a, b);
    if x.exit.Next? {
      NormBoth(es1, es2 + lost2, x.events, if q.errno.Ok? then Run(step, q, b).events else []);
      Gather(es1, lost1, es2, lost2);
    } else {
      assert es1 + es2 == es1 && lost1 + lost2 == lost1;
    }
  }

  lemma Gather<T>(a: seq<T>, none: seq<T>, b: seq<T>, c: seq<T>)
    ensures none == [] ==> a + none == a && a + (b + c) == a + b + (none + c) && none + c == c
  {
  }

  lemma NormBoth(a: seq<Event>, b: seq<Event>, c: seq<Event>, d: seq<Event>)
    requires Norm(a) == Norm(c) && Norm(b) == Norm(d)
    ensures Norm(a + b) == Norm(c + d)
  {
    NormAppend(a, b);
    NormAppend(c, d);
    PushAllNorm(Norm(a), b, d);
  }

  // A trace and its merged form add the same to anything that came before.

  lemma {:induction false} PushAllNorm(t: seq<Event>, a: seq<Event>, b: seq<Event>)
    requires Norm(a) == Norm(b)
    ensures PushAll(t, a) == PushAll(t, b)
  {
    PushNormed(t, a);
    PushNormed(t, b);
  }

  lemma {:induction false} PushNormed(t: seq<Event>, a: seq<Event>)
    ensures PushAll(t, Norm(a)) == PushAll(t, a)
    decreases |a|
  {
    if a != [] {
      var init, e := a[..|a| - 1], a[|a| - 1];
      assert a == init + [e] && [e][1..] == [];
      PushNormed(t, init);
      PushAllAppend(t, init, [e]);
      PushAllAppend([], init, [e]);
      PushAllPush(t, Norm(init), e);
    }
  }

  lemma PushAllPush(t: seq<Event>, u: seq<Event>, e: Event)
    ensures PushAll(t, Push(u, e)) == Push(PushAll(t, u), e)
  {
    if Joins(u, e) {
      var init, last := u[..|u| - 1], u[|u| - 1];
      assert u == init + [last] && [last][1..] == [];
      var joined := Piece(e.what, last.text + e.text);
      assert [joined][1..] == [];
      PushAllAppend(t, init, [last]);
      PushAllAppend(t, init, [joined]);
      PushTwice(PushAll(t, init), e.what, last.text, e.text);
    } else {
      PushAllAppend(t, u, [e]);
      assert [e][1..] == [];
    }
  }

  /** Two calls or one: the parser ends the same, as many bytes are consumed,
      and the callbacks are the same but for how data is cut. What an error
      leaves unfinished is not handed out, so there the statement includes it. */
  lemma SplitInvariance(hooks: Hooks, p: Parser, a: string, n1: nat, q: Parser, es1: seq<Event>, lost1: seq<Event>,
                        b: string, n2: nat, r: Parser, es2: seq<Event>, lost2: seq<Event>,
                        n: nat, s: Parser, es: seq<Event>, lost: seq<Event>)
    requires Good(p) && !Run(Bytewise(hooks), p, a).exit.Leave?
    requires Call(Bytewise(hooks), p, a, n1, q, es1, lost1)
    requires Call(Bytewise(hooks), q, b, n2, r, es2, lost2)
    requires Call(Bytewise(hooks), p, a + b, n, s, es, lost)
    ensures r == s && n1 + n2 == n
    ensures s.errno.Ok? ==> Norm(es1 + es2) == Norm(es)
    ensures Norm(es1 + es2 + (lost1 + lost2)) == Norm(es + lost)
  {
    BytewiseIsTrusty(hooks);
    RunKeepsGood(Bytewise(hooks), p, a + b);
    NextCall(Bytewise(hooks), p, a, n1, q, es1, lost1, b, n2, r, es2, lost2);
    assert es1 + es2 + [] == es1 + es2 && es + [] == es;
  }

  /** After an upgrade the first call is all there is: one call on everything
      stops there too, and the rest is for the other protocol. */
  lemma UpgradeStops(hooks: Hooks, p: Parser, a: string, n1: nat, q: Parser, es1: seq<Event>, lost1: seq<Event>,
                     b: string, n: nat, s: Parser, es: seq<Event>, lost: seq<Event>)
    requires Good(p) && Run(Bytewise(hooks), p, a).exit.Leave?
    requires Call(Bytewise(hooks), p, a, n1, q, es1, lost1)
    requires Call(Bytewise(hooks), p, a + b, n, s, es, lost)
    ensures s == q && n == n1 && Norm(es) == Norm(es1) && s.errno.Ok? && s.upgrade
  {
    BytewiseIsTrusty(hooks);
    RunAppend(Bytewise(hooks), p, a, b);
    RunKeepsGood(Bytewise(hooks), p, a);
    LeaveUpgrades(hooks, p, a);
    assert es1 + [] == es1 && es + [] == es;
  }

  /** A step leaves for another protocol only with the parser saying so, and
      goes on with it saying so only if it did before. */
  predicate Upgrades(p: Parser, s: Step) {
    (s.exit.Leave? ==> s.p.upgrade) && (s.exit.Next? && s.p.upgrade ==> p.upgrade)
  }

  /** What steps that have nothing to do with upgrades do. */
  predicate Stays(p: Parser, s: Step) { !s.exit.Leave? && s.p.upgrade == p.upgrade }

  lemma HeadersDoneUpgrades(p: Parser, ch: char, hooks: Hooks)
    ensures var s := StepHeadersDone(p, ch, hooks); (s.exit.Leave? ==> s.p.upgrade) && (s.exit.Next? ==> !s.p.upgrade)
  {
  }

  lemma HeadersAlmostDoneUpgrades(p: Parser, ch: char, hooks: Hooks)
    ensures Upgrades(p, StepHeadersAlmostDone(p, ch, hooks))
  {
    var q := p.(state := HeadersDone, upgrade := p.flags.upgrade || p.verb == CONNECT);
    HeadersDoneUpgrades(q, ch, hooks);
    HeadersDoneUpgrades(q.(flags := q.flags.(skipBody := true)), ch, hooks);
  }

  lemma FieldStartUpgrades(p: Parser, ch: char, hooks: Hooks)
    ensures Upgrades(p, StepHeaderFieldStart(p, ch, hooks))
  {
    HeadersAlmostDoneUpgrades(To(p, HeadersAlmostDone), ch, hooks);
  }

  lemma StartsStay(p: Parser, ch: char, hooks: Hooks)
    ensures Stays(p, StepStartReqOrRes(p, ch, hooks)) && Stays(p, StepResOrRespH(p, ch))
    ensures Stays(p, StepStartRes(p, ch, hooks)) && Stays(p, StepStartReq(p, ch, hooks))
  {
  }

  lemma ValuesStay(p: Parser, ch: char)
    ensures Stays(p, StepHeaderValueStart(p, ch)) && Stays(p, StepHeaderAlmostDone(p, ch))
  {
  }

  lemma LinesStay(p: Parser, ch: char, hooks: Hooks)
    ensures Stays(p, SwitchLine(p, ch, hooks))
  {
  }

  lemma FreeUpgrades(p: Parser, ch: char, hooks: Hooks)
    requires Free(p.state)
    ensures Upgrades(p, SwitchFree(p, ch, hooks))
  {
    if p.state.HeadersDone? { HeadersDoneUpgrades(p, ch, hooks); }
    else if p.state.HeadersAlmostDone? { HeadersAlmostDoneUpgrades(p, ch, hooks); }
    else if p.state.HeaderFieldStart? { FieldStartUpgrades(p, ch, hooks); }
    else if p.state.HeaderValueLws? { FieldStartUpgrades(To(p, HeaderFieldStart), ch, hooks); }
    else if p.state.StartReqOrRes? || p.state.ResOrRespH? || p.state.StartRes? || p.state.StartReq? { StartsStay(p, ch, hooks); }
    else if p.state.HeaderValueStart? || p.state.HeaderAlmostDone? { ValuesStay(p, ch); }
    else if !p.state.Dead? && !p.state.BodyIdentityEof? { LinesStay(p, ch, hooks); }
  }

  lemma BusyStays(p: Parser, ch: char, hooks: Hooks)
    requires Good(p) && !Free(p.state)
    ensures Stays(p, SwitchBusy(p, ch, hooks))
  {
  }

  lemma AdvanceUpgrades(p: Parser, ch: char, hooks: Hooks)
    requires Good(p)
    ensures Upgrades(p, Advance(p, ch, hooks))
  {
    if Free(p.state) { FreeUpgrades(Counted(p), ch, hooks); } else { BusyStays(p, ch, hooks); }
  }

  /** The parser leaves for another protocol only when it says so, and when it
      has not left it does not come to say so. */
  lemma {:induction false} LeaveUpgrades(hooks: Hooks, p: Parser, s: string)
    requires Good(p)
    ensures var r := Run(Bytewise(hooks), p, s); (r.exit.Leave? ==> r.p.upgrade) && (r.exit.Next? && r.p.upgrade ==> p.upgrade)
    decreases |s|
  {
    if s != "" {
      AdvanceUpgrades(p, s[0], hooks);
      AdvanceSound(p, s[0], hooks);
      var t := OneByte(p, s[0], hooks);
      if t.exit.Next? { LeaveUpgrades(hooks, t.p, s[1..]); }
    }
  }
}
