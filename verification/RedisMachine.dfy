/** What the explicit task stack of the reader means.

  A frame is an array that still lacks elements. The stack of frames plus the
  unread input is the whole state of a reader between two items; `Drain` runs
  it until the input is exhausted. Two facts carry the reader's correctness:
  `DrainAppend` (feeds may be cut anywhere) and `DrainIsParse` (the run yields
  what the recursive grammar reads). */
module RedisMachine {
  import opened RedisGrammar

  datatype Frame = Frame(count: nat, done: seq<Reply>)

  /** No frame is full, and the stack fits the reader's nine tasks. */
  predicate WellFormed(frames: seq<Frame>) {
    |frames| <= MAX_DEPTH && forall f | f in frames :: |f.done| < f.count
  }

  function Init(frames: seq<Frame>): seq<Frame>
    requires frames != []
  {
    frames[..|frames| - 1]
  }

  function Last(frames: seq<Frame>): Frame
    requires frames != []
  {
    frames[|frames| - 1]
  }

  datatype Plugged = Plugged(frames: seq<Frame>, emitted: seq<Reply>)

  /** Put a finished item in place, closing every array it completes. */
  function Plug(frames: seq<Frame>, v: Reply): (p: Plugged)
    requires WellFormed(frames)
    ensures WellFormed(p.frames) && |p.frames| <= |frames| && |p.emitted| <= 1
    ensures p.emitted != [] ==> p.frames == []
    ensures p.emitted == [] ==> p.frames != []
  {
    if frames == [] then Plugged([], [v])
    else
      var f := Last(frames);
      var done := f.done + [v];
      assert forall g | g in Init(frames) :: g in frames;
      if |done| == f.count then Plug(Init(frames), Array(done))
      else Plugged(Init(frames) + [Frame(f.count, done)], [])
  }

  datatype Status =
    | Waiting(frames: seq<Frame>, rest: string)
    | Failed(error: ProtocolError)
    | Overflowed

  datatype Drained = Drained(replies: seq<Reply>, status: Status)

  /** Read items until one is incomplete or wrong. */
  function Drain(frames: seq<Frame>, s: string): (d: Drained)
    requires WellFormed(frames)
    ensures d.status.Waiting? ==> WellFormed(d.status.frames)
    decreases |s|
  {
    match NextToken(s, |frames|)
    case NeedMore => Drained([], Waiting(frames, s))
    case Bad(e) => Drained([], Failed(e))
    case OutOfRange => Drained([], Overflowed)
    case Open(n, rest) => Drain(frames + [Frame(n, [])], rest)
    case Leaf(v, rest) =>
      var p := Plug(frames, v);
      var d := Drain(p.frames, rest);
      Drained(p.emitted + d.replies, d.status)
  }

  datatype FirstReply =
    | Whole(reply: Reply, rest: string)
    | Partial(frames: seq<Frame>, rest: string)
    | Refused(error: ProtocolError)
    | Overflow

  /** Read items until the first whole reply. */
  function First(frames: seq<Frame>, s: string): (f: FirstReply)
    requires WellFormed(frames)
    ensures f.Partial? ==> WellFormed(f.frames)
    ensures f.Whole? ==> |f.rest| < |s|
    decreases |s|
  {
    match NextToken(s, |frames|)
    case NeedMore => Partial(frames, s)
    case Bad(e) => Refused(e)
    case OutOfRange => Overflow
    case Open(n, rest) => First(frames + [Frame(n, [])], rest)
    case Leaf(v, rest) =>
      var p := Plug(frames, v);
      if p.emitted == [] then First(p.frames, rest) else Whole(p.emitted[0], rest)
  }

  /** Draining is taking first replies until there is none. */
  lemma {:induction false} DrainFirst(frames: seq<Frame>, s: string)
    requires WellFormed(frames)
    ensures Drain(frames, s) ==
            match First(frames, s)
            case Whole(v, rest) => var d := Drain([], rest); Drained([v] + d.replies, d.status)
            case Partial(fs, rest) => Drained([], Waiting(fs, rest))
            case Refused(e) => Drained([], Failed(e))
            case Overflow => Drained([], Overflowed)
    decreases |s|
  {
    match NextToken(s, |frames|) {
      case Open(n, rest) => DrainFirst(frames + [Frame(n, [])], rest);
      case Leaf(v, rest) =>
        var p := Plug(frames, v);
        if p.emitted == [] {
          DrainFirst(p.frames, rest);
          assert [] + Drain(p.frames, rest).replies == Drain(p.frames, rest).replies;
        } else {
          assert p.emitted == [p.emitted[0]];
        }
      case _ =>
    }
  }

  // ------------------------------------------------------- feeds at any cut

  function After(d: Drained, x: string): Drained
    requires d.status.Waiting? ==> WellFormed(d.status.frames)
  {
    if d.status.Waiting? then
      var e := Drain(d.status.frames, d.status.rest + x);
      Drained(d.replies + e.replies, e.status)
    else d
  }

  /** Draining `s + x` is draining `s`, then feeding `x` and draining again. */
  lemma {:induction false} DrainAppend(frames: seq<Frame>, s: string, x: string)
    requires WellFormed(frames)
    ensures Drain(frames, s + x) == After(Drain(frames, s), x)
    decreases |s|
  {
    var t := NextToken(s, |frames|);
    if !t.NeedMore? { NextTokenAppend(s, x, |frames|); }
    match t {
      case Open(n, rest) => DrainAppend(frames + [Frame(n, [])], rest, x);
      case Leaf(v, rest) =>
        DrainAppend(Plug(frames, v).frames, rest, x);
        assert forall a: seq<Reply>, b, c {:trigger a + b + c} :: a + b + c == a + (b + c);
      case _ =>
    }
  }

  // ----------------------------------------------------- the stack, as syntax

  function Promote(o: Outcome<seq<Reply>>, done: seq<Reply>): Outcome<Reply> {
    match o
    case Done(vs, rest) => Done(Array(done + vs), rest)
    case Incomplete => Incomplete
    case Broken(e) => Broken(e)
    case Unrepresentable => Unrepresentable
  }

  /** The root reply that results when item `v` has just been read with `s`
      left: the grammar reads the missing elements of each open array. */
  function Finish(frames: seq<Frame>, v: Reply, s: string): Outcome<Reply>
    requires WellFormed(frames)
  {
    if frames == [] then Done(v, s)
    else
      var f := Last(frames);
      assert forall g | g in Init(frames) :: g in frames;
      match Promote(ParseReplies(s, f.count - |f.done| - 1, |frames|), f.done + [v])
      case Done(a, rest) => Finish(Init(frames), a, rest)
      case o => o
  }

  /** From the reply that fills the next slot to the root reply. */
  function Up(frames: seq<Frame>, o: Outcome<Reply>): Outcome<Reply>
    requires WellFormed(frames)
  {
    match o
    case Done(v, rest) => Finish(frames, v, rest)
    case o => o
  }

  function Continue(frames: seq<Frame>, s: string): Outcome<Reply>
    requires WellFormed(frames)
  {
    Up(frames, ParseReply(s, |frames|))
  }

  /** The missing elements of an array, the first of them read on its own. */
  lemma PromoteNext(s: string, n: nat, depth: nat, done: seq<Reply>)
    requires n > 0
    ensures Promote(ParseReplies(s, n, depth), done) ==
            match ParseReply(s, depth)
            case Done(w, rest) => Promote(ParseReplies(rest, n - 1, depth), done + [w])
            case o => o
  {
    var o := ParseReply(s, depth);
    if o.Done? { PromoteCons(ParseReplies(o.rest, n - 1, depth), done, o.value); }
  }

  lemma PromoteCons(o: Outcome<seq<Reply>>, done: seq<Reply>, w: Reply)
    ensures Promote(match o case Done(ws, r) => Done([w] + ws, r) case o => o, done) == Promote(o, done + [w])
  {
    if o.Done? { assert done + ([w] + o.value) == (done + [w]) + o.value; }
  }

  lemma FinishUp(frames: seq<Frame>, v: Reply, s: string)
    requires WellFormed(frames) && frames != [] && WellFormed(Init(frames))
    ensures var f := Last(frames);
            Finish(frames, v, s) == Up(Init(frames), Promote(ParseReplies(s, f.count - |f.done| - 1, |frames|), f.done + [v]))
  {
  }

  /** The elements still missing, with those that are there. */
  lemma ContinueUp(frames: seq<Frame>, s: string)
    requires WellFormed(frames) && frames != [] && WellFormed(Init(frames))
    ensures var f := Last(frames);
            Continue(frames, s) == Up(Init(frames), Promote(ParseReplies(s, f.count - |f.done|, |frames|), f.done))
  {
    var f := Last(frames);
    PromoteNext(s, f.count - |f.done|, |frames|, f.done);
    var o := ParseReply(s, |frames|);
    if o.Done? { FinishUp(frames, o.value, o.rest); }
  }

  lemma OpenParses(s: string, depth: nat)
    requires NextToken(s, depth).Open?
    ensures var t := NextToken(s, depth);
            t.count > 0 && ParseReply(s, depth) == Promote(ParseReplies(t.rest, t.count, depth + 1), [])
  {
    var t := NextToken(s, depth);
    var o := ParseReplies(t.rest, t.count, depth + 1);
    if o.Done? { assert [] + o.value == o.value; }
  }

  /** Opening an array, whose `n` elements begin at `rest`, is invisible to the
      grammar. */
  lemma ContinueOpen(frames: seq<Frame>, s: string, n: nat, rest: string)
    requires WellFormed(frames) && n > 0 && |frames| < MAX_DEPTH
    requires ParseReply(s, |frames|) == Promote(ParseReplies(rest, n, |frames| + 1), [])
    ensures WellFormed(frames + [Frame(n, [])])
    ensures Continue(frames, s) == Continue(frames + [Frame(n, [])], rest)
  {
    var inner := frames + [Frame(n, [])];
    assert Init(inner) == frames && Last(inner) == Frame(n, []);
    ContinueUp(inner, rest);
  }

  /** Nor does it see an element put in place, in `p`, with others missing. */
  lemma FinishStays(frames: seq<Frame>, v: Reply, p: seq<Frame>, s: string)
    requires WellFormed(frames) && frames != [] && |Last(frames).done| + 1 < Last(frames).count
    requires WellFormed(p) && |p| == |frames| && Init(p) == Init(frames) && WellFormed(Init(p))
    requires Last(p) == Frame(Last(frames).count, Last(frames).done + [v])
    ensures Finish(frames, v, s) == Continue(p, s)
  {
    FinishUp(frames, v, s);
    ContinueUp(p, s);
  }

  /** So is closing the arrays an item completes. */
  lemma {:induction false} FinishPlug(frames: seq<Frame>, v: Reply, s: string)
    requires WellFormed(frames)
    ensures var p := Plug(frames, v);
            Finish(frames, v, s) == if p.emitted != [] then Done(p.emitted[0], s) else Continue(p.frames, s)
    decreases |frames|
  {
    if frames != [] {
      var f := Last(frames);
      assert forall g | g in Init(frames) :: g in frames;
      if |f.done| + 1 == f.count {
        FinishPlug(Init(frames), Array(f.done + [v]), s);
        assert (f.done + [v]) + [] == f.done + [v];
      } else {
        var p := Init(frames) + [Frame(f.count, f.done + [v])];
        assert Init(p) == Init(frames);
        FinishStays(frames, v, p, s);
      }
    }
  }

  // --------------------------------------------------- machine and grammar

  /** The stream the grammar reads from a reader state. */
  function Remaining(frames: seq<Frame>, s: string): Stream
    requires WellFormed(frames)
  {
    match Continue(frames, s)
    case Incomplete => Stream([], AwaitingMore)
    case Broken(e) => Stream([], ProtocolFailure(e))
    case Unrepresentable => Stream([], NumeralOverflow)
    case Done(v, rest) => var t := ParseStream(rest); Stream([v] + t.replies, t.ending)
  }

  function EndingOf(st: Status): Ending {
    match st
    case Waiting(_, _) => AwaitingMore
    case Failed(e) => ProtocolFailure(e)
    case Overflowed => NumeralOverflow
  }

  lemma RemainingAtRoot(s: string)
    ensures Remaining([], s) == ParseStream(s)
  {
  }

  lemma {:induction false} DrainIsRemaining(frames: seq<Frame>, s: string)
    requires WellFormed(frames)
    ensures var d := Drain(frames, s);
            Remaining(frames, s) == Stream(d.replies, EndingOf(d.status))
    decreases |s|
  {
    match NextToken(s, |frames|) {
      case Open(n, rest) =>
        OpenParses(s, |frames|);
        ContinueOpen(frames, s, n, rest);
        DrainIsRemaining(frames + [Frame(n, [])], rest);
      case Leaf(v, rest) =>
        FinishPlug(frames, v, rest);
        var p := Plug(frames, v);
        DrainIsRemaining(p.frames, rest);
        if p.emitted == [] {
          assert [] + Drain(p.frames, rest).replies == Drain(p.frames, rest).replies;
        } else {
          RemainingAtRoot(rest);
          assert p.emitted == [p.emitted[0]];
        }
      case _ =>
    }
  }

  /** From a fresh reader the replies and the ending are those of the grammar. */
  lemma DrainIsParse(s: string)
    ensures var d := Drain([], s);
            ParseStream(s) == Stream(d.replies, EndingOf(d.status))
  {
    RemainingAtRoot(s);
    DrainIsRemaining([], s);
  }
}
