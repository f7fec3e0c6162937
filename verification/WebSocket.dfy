/** `WsConnection`: frames read from a connection as their bytes come in, and
  messages put together from them. */
module WebSocket {
  import opened Common
  import opened WebSocketFrame

  datatype Status = FrameStart | FramePayloadLen | FramePayloadLen16 | FramePayloadLen64 | FrameMaskingKey | FrameData | FrameFinal | FrameError

  /** What the connection does: its callbacks, and the pong it answers with. */
  datatype Event = Message(opcode: byte, data: seq<byte>) | Close | PongSent(data: seq<byte>) | Pong(data: seq<byte>) | Failure

  // ------------------------------------------------------------- messages

  /** `m_appData` and `m_lastOpcode`: the message being put together. */
  datatype Assembly = Assembly(appData: seq<byte>, lastOpcode: byte)

  /** `handleMessage`: nothing for an unknown opcode. */
  function Handled(opcode: byte, data: seq<byte>): Option<Event> {
    if opcode == 1 || opcode == 2 then Some(Message(opcode, data))
    else if opcode == 8 then Some(Close)
    else if opcode == 9 then Some(PongSent(data))
    else if opcode == 10 then Some(Pong(data))
    else None
  }

  /** The outcome of a frame: the message being put together and the event, if
      there is one. */
  datatype Outcome = Refused | Done(now: Assembly, event: Option<Event>)

  function Deliver(a: Assembly, opcode: byte, data: seq<byte>): Outcome {
    match Handled(opcode, data) case None => Refused case Some(e) => Done(a, Some(e))
  }

  /** `handleFrameData` */
  function HandleFrame(a: Assembly, final: bool, opcode: byte, data: seq<byte>): Outcome {
    if IsControl(opcode) then
      if !final then Refused else Deliver(a, opcode, data)
    else if opcode == 0 then
      if a.appData == [] then Refused
      else if final then Deliver(a.(appData := []), a.lastOpcode, a.appData + data)
      else Done(a.(appData := a.appData + data), None)
    else if a.appData != [] then Refused
    else if final then Deliver(a, opcode, data)
    else Done(Assembly(data, opcode), None)
  }

  // ----------------------------------------- reassembly, as the standard has it

  /** A data message in fragments, with control frames between them (section
      5.4 of RFC 6455). The key and the form of a frame are its own business. */
  datatype Part = Part(payload: seq<byte>, key: Option<seq<byte>>, form: Form)
  datatype Script =
    | Control(opcode: byte, part: Part)
    | Data(opcode: byte, first: Part, rest: seq<Piece>)

  /** A further fragment, after some control frames. */
  datatype Piece = Piece(before: seq<Script>, part: Part)

  function FrameOf(final: bool, opcode: byte, p: Part): Frame { Frame(final, opcode, p.key, p.payload, p.form) }

  /** The frames of the rest of a message. */
  function PieceFrames(ps: seq<Piece>): seq<Frame>
    requires forall p <- ps :: AllControl(p.before)
  {
    if ps == [] then [] else ControlFrames(ps[0].before) + [FrameOf(|ps| == 1, 0, ps[0].part)] + PieceFrames(ps[1..])
  }

  predicate AllControl(cs: seq<Script>) { forall c <- cs :: c.Control? && c.opcode in {8, 9, 10} }

  function ControlFrames(cs: seq<Script>): seq<Frame>
    requires AllControl(cs)
  {
    if cs == [] then [] else [FrameOf(true, cs[0].opcode, cs[0].part)] + ControlFrames(cs[1..])
  }

  function ControlEvents(cs: seq<Script>): seq<Event>
    requires AllControl(cs)
  {
    if cs == [] then [] else [ControlEvent(cs[0].opcode, cs[0].part.payload)] + ControlEvents(cs[1..])
  }

  function ControlEvent(opcode: byte, data: seq<byte>): Event {
    if opcode == 8 then Close else if opcode == 9 then PongSent(data) else Pong(data)
  }

  function PieceEvents(ps: seq<Piece>): seq<Event>
    requires forall p <- ps :: AllControl(p.before)
  {
    if ps == [] then [] else ControlEvents(ps[0].before) + PieceEvents(ps[1..])
  }

  function PiecePayload(ps: seq<Piece>): seq<byte> {
    if ps == [] then [] else ps[0].part.payload + PiecePayload(ps[1..])
  }

  /** What the standard allows: messages are text or binary, and between their
      fragments there are only control frames. */
  predicate Legal(s: Script) {
    match s
    case Control(opcode, _) => opcode in {8, 9, 10}
    case Data(opcode, _, rest) => (opcode == 1 || opcode == 2) && forall p <- rest :: AllControl(p.before)
  }

  /** The first of several fragments is not empty, which the standard does not
      ask for. */
  predicate Begins(s: Script) { s.Data? && s.rest != [] ==> s.first.payload != [] }

  function ScriptFrames(s: Script): seq<Frame>
    requires Legal(s)
  {
    match s
    case Control(opcode, part) => [FrameOf(true, opcode, part)]
    case Data(opcode, first, rest) => [FrameOf(rest == [], opcode, first)] + PieceFrames(rest)
  }

  /** What is to come of it: the control frames at once, the message whole. */
  function ScriptEvents(s: Script): seq<Event>
    requires Legal(s)
  {
    match s
    case Control(opcode, part) => [ControlEvent(opcode, part.payload)]
    case Data(opcode, first, rest) => PieceEvents(rest) + [Message(opcode, first.payload + PiecePayload(rest))]
  }

  function AllFrames(ss: seq<Script>): seq<Frame>
    requires forall s <- ss :: Legal(s)
  {
    if ss == [] then [] else ScriptFrames(ss[0]) + AllFrames(ss[1..])
  }

  function AllEvents(ss: seq<Script>): seq<Event>
    requires forall s <- ss :: Legal(s)
  {
    if ss == [] then [] else ScriptEvents(ss[0]) + AllEvents(ss[1..])
  }

  // ----------------------------------------------- frames one after another

  datatype Ran = Stopped | Went(now: Assembly, events: seq<Event>)

  function Run(a: Assembly, fs: seq<Frame>): Ran
    decreases |fs|
  {
    if fs == [] then Went(a, [])
    else
      match HandleFrame(a, fs[0].final, fs[0].opcode, fs[0].payload)
      case Refused => Stopped
      case Done(b, e) =>
        match Run(b, fs[1..])
        case Stopped => Stopped
        case Went(c, es) => Went(c, (match e case None => [] case Some(x) => [x]) + es)
  }

  lemma {:induction false} RunAppend(a: Assembly, fs: seq<Frame>, gs: seq<Frame>)
    ensures Run(a, fs + gs) ==
            match Run(a, fs)
            case Stopped => Stopped
            case Went(b, es) => match Run(b, gs) case Stopped => Stopped case Went(c, more) => Went(c, es + more)
    decreases |fs|
  {
    if fs == [] {
      assert fs + gs == gs;
      match Run(a, gs) { case Stopped => case Went(c, more) => assert [] + more == more; }
    } else {
      assert (fs + gs)[1..] == fs[1..] + gs;
      match HandleFrame(a, fs[0].final, fs[0].opcode, fs[0].payload) {
        case Refused =>
        case Done(b, e) =>
          RunAppend(b, fs[1..], gs);
          match Run(b, fs[1..]) {
            case Stopped =>
            case Went(c, es) =>
              match Run(c, gs) { case Stopped => case Went(_, more) => Associate(match e case None => [] case Some(x) => [x], es, more); }
          }
      }
    }
  }

  lemma Associate<T>(a: seq<T>, b: seq<T>, c: seq<T>)
    ensures a + (b + c) == a + b + c
  {
  }

  lemma {:induction false} RunControls(a: Assembly, cs: seq<Script>)
    requires AllControl(cs)
    ensures Run(a, ControlFrames(cs)) == Went(a, ControlEvents(cs))
    decreases |cs|
  {
    if cs != [] {
      assert cs[0] in cs && forall c <- cs[1..] :: c in cs;
      RunControls(a, cs[1..]);
      assert ControlFrames(cs)[1..] == ControlFrames(cs[1..]);
    }
  }

  lemma RunOne(a: Assembly, f: Frame)
    ensures Run(a, [f]) ==
            match HandleFrame(a, f.final, f.opcode, f.payload)
            case Refused => Stopped
            case Done(b, None) => Went(b, [])
            case Done(b, Some(e)) => Went(b, [e])
  {
    assert [f][1..] == [];
    assert forall e: Event :: [e] + [] == [e];
  }

  /** The rest of a message that has begun. */
  lemma {:induction false} RunPieces(a: Assembly, ps: seq<Piece>)
    requires a.appData != [] && (a.lastOpcode == 1 || a.lastOpcode == 2) && ps != []
    requires forall p <- ps :: AllControl(p.before)
    ensures Run(a, PieceFrames(ps)) ==
            Went(a.(appData := []), PieceEvents(ps) + [Message(a.lastOpcode, a.appData + PiecePayload(ps))])
    decreases |ps|
  {
    var p, more := ps[0], ps[1..];
    assert p in ps && forall q <- more :: q in ps;
    PayloadGlue(a.appData, ps);
    RunPiece(a, p, |ps| == 1);
    RunAppend(a, ControlFrames(p.before) + [FrameOf(|ps| == 1, 0, p.part)], PieceFrames(more));
    if more == [] {
      Nothing(ControlEvents(p.before));
      Nothing(ControlEvents(p.before) + [Message(a.lastOpcode, a.appData + PiecePayload(ps))]);
    } else {
      RunPieces(a.(appData := a.appData + p.part.payload), more);
      Associate(ControlEvents(p.before), PieceEvents(more), [Message(a.lastOpcode, a.appData + PiecePayload(ps))]);
    }
  }

  lemma Nothing<T>(s: seq<T>)
    ensures s + [] == s
  {
  }

  /** A further fragment, the last one or not. */
  lemma RunPiece(a: Assembly, p: Piece, last: bool)
    requires a.appData != [] && (a.lastOpcode == 1 || a.lastOpcode == 2) && AllControl(p.before)
    ensures var data := a.appData + p.part.payload;
            Run(a, ControlFrames(p.before) + [FrameOf(last, 0, p.part)]) ==
            if last then Went(a.(appData := []), ControlEvents(p.before) + [Message(a.lastOpcode, data)])
            else Went(a.(appData := data), ControlEvents(p.before))
  {
    RunControls(a, p.before);
    var f := FrameOf(last, 0, p.part);
    RunOne(a, f);
    RunAppend(a, ControlFrames(p.before), [f]);
    Nothing(ControlEvents(p.before));
  }

  lemma PayloadGlue(data: seq<byte>, ps: seq<Piece>)
    requires ps != []
    ensures data + PiecePayload(ps) == data + ps[0].part.payload + PiecePayload(ps[1..])
    ensures |ps| == 1 ==> PiecePayload(ps) == ps[0].part.payload
  {
    Associate(data, ps[0].part.payload, PiecePayload(ps[1..]));
    if |ps| == 1 {
      assert PiecePayload(ps[1..]) == [];
      assert ps[0].part.payload + [] == ps[0].part.payload;
    }
  }

  /** A first fragment without data is not remembered, so the next fragment,
      whatever comes in between, has nothing to continue. */
  lemma EmptyStart(a: Assembly, ps: seq<Piece>)
    requires a.appData == [] && ps != [] && forall p <- ps :: AllControl(p.before)
    ensures Run(a, PieceFrames(ps)).Stopped?
  {
    var p := ps[0];
    assert p in ps && forall q <- ps[1..] :: q in ps;
    var cs, f := ControlFrames(p.before), FrameOf(|ps| == 1, 0, p.part);
    RunControls(a, p.before);
    RunOne(a, f);
    RunAppend(a, cs, [f]);
    RunAppend(a, cs + [f], PieceFrames(ps[1..]));
  }

  /** One message, with the control frames in it: it is taken if and only if
      its first fragment has data or is all of it. */
  lemma RunScript(a: Assembly, s: Script)
    requires a.appData == [] && Legal(s)
    ensures var r := Run(a, ScriptFrames(s));
            (r.Went? <==> Begins(s)) && (r.Went? ==> r.now.appData == [] && r.events == ScriptEvents(s))
  {
    match s {
      case Control(opcode, part) => RunOne(a, FrameOf(true, opcode, part));
      case Data(opcode, first, rest) => if rest == [] { RunWhole(a, opcode, first); } else { RunParts(a, opcode, first, rest); }
    }
  }

  lemma RunWhole(a: Assembly, opcode: byte, first: Part)
    requires a.appData == [] && (opcode == 1 || opcode == 2)
    ensures var s := Data(opcode, first, []); Run(a, ScriptFrames(s)) == Went(a, ScriptEvents(s))
  {
    var f := FrameOf(true, opcode, first);
    RunOne(a, f);
    assert [f] + [] == [f] && first.payload + [] == first.payload;
    assert [] + [Message(opcode, first.payload)] == [Message(opcode, first.payload)];
  }

  lemma RunParts(a: Assembly, opcode: byte, first: Part, rest: seq<Piece>)
    requires a.appData == [] && (opcode == 1 || opcode == 2) && rest != [] && forall p <- rest :: AllControl(p.before)
    ensures var s := Data(opcode, first, rest); var r := Run(a, ScriptFrames(s));
            if first.payload == [] then r.Stopped? else r.Went? && r.now.appData == [] && r.events == ScriptEvents(s)
  {
    var f := FrameOf(false, opcode, first);
    RunOne(a, f);
    RunAppend(a, [f], PieceFrames(rest));
    if first.payload == [] {
      EmptyStart(Assembly([], opcode), rest);
    } else {
      RunPieces(Assembly(first.payload, opcode), rest);
      NothingFirst(PieceEvents(rest) + [Message(opcode, first.payload + PiecePayload(rest))]);
    }
  }

  /** Whatever messages are sent in whatever fragments, with control frames
      between: all of it is taken if and only if no message begins with an empty
      fragment and goes on, and then every message comes out whole, and every
      control frame in its turn. */
  lemma {:induction false} Reassembly(a: Assembly, ss: seq<Script>)
    requires a.appData == [] && forall s <- ss :: Legal(s)
    ensures var r := Run(a, AllFrames(ss));
            (r.Went? <==> forall s <- ss :: Begins(s)) && (r.Went? ==> r.now.appData == [] && r.events == AllEvents(ss))
    decreases |ss|
  {
    if ss != [] {
      assert ss[0] in ss && forall s <- ss[1..] :: s in ss;
      assert forall s <- ss :: s == ss[0] || s in ss[1..];
      RunScript(a, ss[0]);
      RunAppend(a, ScriptFrames(ss[0]), AllFrames(ss[1..]));
      if Begins(ss[0]) { Reassembly(Run(a, ScriptFrames(ss[0])).now, ss[1..]); }
    }
  }

  /** So a message that the standard allows is refused: its first fragment is
      empty, and another one follows. */
  lemma EmptyFirstFragment(a: Assembly, opcode: byte, first: Part, rest: seq<Piece>)
    requires a.appData == [] && (opcode == 1 || opcode == 2) && forall p <- rest :: AllControl(p.before)
    ensures Run(a, [FrameOf(rest == [], opcode, first)] + PieceFrames(rest)).Went? <==> (rest != [] ==> first.payload != [])
  {
    RunScript(a, Data(opcode, first, rest));
  }

  // ------------------------------------------------------------ the class

  /** What the fields say about the bytes of the frame so far. */
  datatype Fields = Fields(status: Status, cache: seq<byte>, payloadLen: nat, maskingKey: seq<byte>, final: byte, opcode: byte, mask: bool)

  /** The first two bytes are as the fields have them. */
  predicate Headed(f: Fields, got: seq<byte>) {
    |got| >= 2 && f.final == FinalBit(got[0]) && f.opcode == OpcodeOf(got[0]) && (f.mask <==> Masked(got[1])) && !BadControl(got)
  }

  /** The length has been read. */
  predicate Measured(f: Fields, got: seq<byte>, limit: nat) {
    Headed(f, got) && |got| >= HeaderSize(got) && !TooLong(got, limit) && f.payloadLen == LengthOf(got)
  }

  predicate Holds(f: Fields, got: seq<byte>, limit: nat) {
    match f.status
    case FrameStart => got == []
    case FramePayloadLen => |got| == 1 && f.final == FinalBit(got[0]) && f.opcode == OpcodeOf(got[0]) && f.cache == []
    case FramePayloadLen16 => Headed(f, got) && FormOf(got[1]).Two? && f.cache == got[2..] && |f.cache| < 2
    case FramePayloadLen64 => Headed(f, got) && FormOf(got[1]).Eight? && f.cache == got[2..] && |f.cache| < 8
    case FrameMaskingKey =>
      Measured(f, got, limit) && f.mask && f.payloadLen > 0 && f.cache == got[HeaderSize(got)..] && |f.cache| < 4
    case FrameData =>
      Measured(f, got, limit) && f.payloadLen > 0 && |got| >= DataStart(got) && f.cache == got[DataStart(got)..] &&
      |f.cache| < f.payloadLen && (f.mask ==> f.maskingKey == got[HeaderSize(got)..HeaderSize(got) + 4])
    case FrameFinal =>
      Measured(f, got, limit) && |got| == FrameSize(got) && f.cache == PayloadOf(got)
    case FrameError => true
  }

  /** A frame that is still being read is not complete. */
  lemma HoldsPartial(f: Fields, got: seq<byte>, limit: nat)
    requires Holds(f, got, limit) && !f.status.FrameFinal? && !f.status.FrameError?
    ensures Read(got, limit).Partial?
  {
  }

  lemma HoldsFull(f: Fields, got: seq<byte>, limit: nat)
    requires Holds(f, got, limit) && f.status.FrameFinal?
    ensures Read(got, limit) == Full(|got|, f.cache)
  {
  }

  /** The fields after `handleFramePayloadLen`. */
  function Lengthed(f: Fields, n: nat): Fields {
    f.(payloadLen := n, cache := [], status := if n == 0 then FrameFinal else if f.mask then FrameMaskingKey else FrameData)
  }

  lemma LengthedHolds(f: Fields, got: seq<byte>, limit: nat)
    requires Headed(f, got) && |got| == HeaderSize(got) && !TooLong(got, limit)
    ensures Holds(Lengthed(f, LengthOf(got)), got, limit)
  {
  }

  /** `tryRead`: how many bytes it takes. */
  predicate Reads(cache: seq<byte>, data: seq<byte>, want: nat, now: seq<byte>, ret: nat) {
    if |cache| + |data| < want then ret == 0 && now == cache + data
    else ret == want - |cache| && ret <= |data| && now == cache + data[..ret]
  }

  /** The status of a frame that is being read. */
  predicate Midway(st: Status) { st.FramePayloadLen16? || st.FramePayloadLen64? || st.FrameMaskingKey? || st.FrameData? }

  /** How many bytes of the frame are waited for. */
  function Wanted(f: Fields): nat
    requires Midway(f.status)
  {
    match f.status
    case FramePayloadLen16 => 2
    case FramePayloadLen64 => 8
    case FrameMaskingKey => 4
    case _ => f.payloadLen
  }

  /** Not enough has come. */
  lemma ReadsOn(f: Fields, got: seq<byte>, rest: seq<byte>, limit: nat)
    requires Holds(f, got, limit) && Midway(f.status) && |f.cache| + |rest| < Wanted(f)
    ensures Holds(f.(cache := f.cache + rest), got + rest, limit)
  {
    match f.status {
      case FramePayloadLen16 => KeepsTail(got, rest, 2);
      case FramePayloadLen64 => KeepsTail(got, rest, 2);
      case FrameMaskingKey => SameHeader(got, got + rest, limit); KeepsTail(got, rest, HeaderSize(got));
      case FrameData =>
        SameHeader(got, got + rest, limit);
        KeepsTail(got, rest, DataStart(got));
        if f.mask { PrefixSlice(got, got + rest, HeaderSize(got), HeaderSize(got) + 4); }
    }
  }

  lemma KeepsTail(got: seq<byte>, rest: seq<byte>, k: nat)
    requires k <= |got|
    ensures (got + rest)[k..] == got[k..] + rest && got <= got + rest
  {
  }

  /** The bytes of the length are complete. */
  lemma LengthRead(f: Fields, got: seq<byte>, rest: seq<byte>, limit: nat)
    requires Holds(f, got, limit) && (f.status.FramePayloadLen16? || f.status.FramePayloadLen64?)
    requires |f.cache| + |rest| == Wanted(f)
    ensures var now, all := f.cache + rest, got + rest;
            |all| == HeaderSize(all) && Headed(f, all) && LengthOf(all) == BigValue(now) &&
            (TooLong(all, limit) <==> LittleValue(now) > limit)
  {
    KeepsTail(got, rest, 2);
    var all := got + rest;
    assert all[0] == got[0] && all[1] == got[1];
    assert all[2..HeaderSize(all)] == all[2..];
  }

  /** The masking key is complete. */
  lemma KeyRead(f: Fields, got: seq<byte>, rest: seq<byte>, limit: nat)
    requires Holds(f, got, limit) && f.status.FrameMaskingKey? && |f.cache| + |rest| == 4
    ensures Holds(f.(maskingKey := f.cache + rest, cache := [], status := FrameData), got + rest, limit)
  {
    var all := got + rest;
    SameHeader(got, all, limit);
    KeepsTail(got, rest, HeaderSize(got));
    assert all[HeaderSize(got)..HeaderSize(got) + 4] == all[HeaderSize(got)..];
    assert all[DataStart(all)..] == [];
  }

  /** The data is complete. */
  lemma DataRead(f: Fields, got: seq<byte>, rest: seq<byte>, limit: nat)
    requires Holds(f, got, limit) && f.status.FrameData? && |f.cache| + |rest| == f.payloadLen
    requires f.mask ==> |f.maskingKey| == 4
    ensures var data := f.cache + rest;
            Holds(f.(cache := if f.mask then Mask(f.maskingKey, data) else data, status := FrameFinal), got + rest, limit)
  {
    var all := got + rest;
    SameHeader(got, all, limit);
    KeepsTail(got, rest, DataStart(got));
    assert all[DataStart(all)..FrameSize(all)] == all[DataStart(all)..];
    if f.mask { PrefixSlice(got, all, HeaderSize(got), HeaderSize(got) + 4); }
  }

  class WsConnection {
    const maxPayloadLen: nat
    var status: Status
    var cache: seq<byte>
    var appData: seq<byte>
    var payloadLen: nat
    var maskingKey: seq<byte>
    var final: byte
    var opcode: byte
    var mask: bool
    var lastOpcode: byte
    var events: seq<Event>          // the callbacks made and pongs sent, oldest first
    ghost var got: seq<byte>        // the bytes of the frame being read

    function View(): Fields
      reads this`status, this`cache, this`payloadLen, this`maskingKey, this`final, this`opcode, this`mask
    {
      Fields(status, cache, payloadLen, maskingKey, final, opcode, mask)
    }

    function Building(): Assembly
      reads this`appData, this`lastOpcode
    {
      Assembly(appData, lastOpcode)
    }

    /** Between two calls. */
    ghost predicate Valid()
      reads this
    {
      Holds(View(), got, maxPayloadLen) && !status.FrameFinal? && !status.FramePayloadLen? && Plain(final, opcode)
    }

    constructor (maxPayloadLen: nat)
      ensures Valid() && status.FrameStart? && events == [] && Building() == Assembly([], 0) && this.maxPayloadLen == maxPayloadLen
    {
      this.maxPayloadLen := maxPayloadLen;
      status, cache, appData, payloadLen, maskingKey := FrameStart, [], [], 0, [0, 0, 0, 0];
      final, opcode, mask, lastOpcode, events, got := 0, 0, false, 0, [], [];
    }

    method OnFrameStart(header: byte) returns (ret: int)
      modifies this`cache, this`final, this`opcode, this`status
      ensures View() == if Reserved(header) then old(View()).(cache := [])
                        else old(View()).(cache := [], final := FinalBit(header), opcode := OpcodeOf(header), status := FramePayloadLen)
      ensures ret == if Reserved(header) then -1 else 1
    {
      cache := [];
      if Reserved(header) {
        // an extension nobody has agreed on
        return -1;
      }
      final, opcode, status := FinalBit(header), OpcodeOf(header), FramePayloadLen;
      return 1;
    }

    method HandleFramePayloadLen(n: nat)
      modifies this`payloadLen, this`cache, this`status
      ensures View() == Lengthed(old(View()), n)
    {
      payloadLen, cache := n, [];
      if n == 0 {
        status := FrameFinal;
      } else {
        status := if mask then FrameMaskingKey else FrameData;
      }
    }

    method OnFramePayloadLen(b: byte) returns (ret: int)
      requires cache == []
      modifies this`mask, this`payloadLen, this`cache, this`status
      ensures ret == (if IsControl(opcode) && Len7(b) >= 126 then -1 else 1)
      ensures var f := old(View()).(mask := Masked(b));
              View() == if ret < 0 then f
                        else if Len7(b) < 126 then Lengthed(f, Len7(b))
                        else f.(status := if Len7(b) == 126 then FramePayloadLen16 else FramePayloadLen64)
    {
      mask := Masked(b);
      if IsControl(opcode) && Len7(b) >= 126 {
        // too long for a control frame
        return -1;
      }
      if Len7(b) < 126 {
        HandleFramePayloadLen(Len7(b));
      } else {
        status := if Len7(b) == 126 then FramePayloadLen16 else FramePayloadLen64;
      }
      return 1;
    }

    /** The case `FrameStart`, which falls through into the next: a rejection of
        the header is forgotten, and the same byte is read as a length. */
    method Start(first: byte, second: byte) returns (ret: int, used: nat)
      requires Valid() && status.FrameStart?
      modifies this
      ensures Building() == old(Building()) && events == old(events) && Plain(final, opcode)
      ensures var g := if Reserved(first) then [Header(old(final) >= 128, old(opcode)), first] else [first, second];
              if BadControl(g) then ret < 0
              else ret > 0 && got == g && Holds(View(), g, maxPayloadLen) && !status.FrameStart? && !status.FramePayloadLen? && !status.FrameError?
      ensures ret > 0 ==> used == if Reserved(first) then 1 else 2
    {
      used := 0;
      ghost var header := Header(final >= 128, opcode);
      ret := OnFrameStart(first);
      if ret > 0 {
        used := 1;
      }
      var b := if used == 1 then second else first;
      ghost var g := if Reserved(first) then [header, first] else [first, second];
      StaleHeader(final, opcode);
      ghost var f := View().(mask := Masked(b));
      ret := OnFramePayloadLen(b);
      got := g;
      if ret > 0 {
        used := used + 1;
        StartHeads(f, first, second, header);
        StartHolds(f, g, maxPayloadLen);
      }
    }

    method TryRead(data: seq<byte>, want: nat) returns (ret: nat)
      requires |cache| < want
      modifies this`cache
      ensures Reads(old(cache), data, want, cache, ret)
    {
      var pending := |cache|;
      if pending + |data| < want {
        cache := cache + data;
        return 0;
      }
      ret := want - pending;
      cache := cache + data[..ret];
    }

    /** What a handler makes of the bytes `rest` at hand. */
    ghost predicate Stepped(was: seq<byte>, rest: seq<byte>, ret: int)
      reads this`status, this`cache, this`payloadLen, this`maskingKey, this`final, this`opcode, this`mask, this`got
    {
      ret <= |rest| &&
      if ret < 0 then Read(was + rest, maxPayloadLen).Bad?
      else if ret == 0 then got == was + rest && Holds(View(), got, maxPayloadLen) && Midway(status)
      else got == was + rest[..ret] && Holds(View(), got, maxPayloadLen) && (Midway(status) || status.FrameFinal?)
    }

    /** `onFramePayloadLen16` and `onFramePayloadLen64` */
    method OnLength(rest: seq<byte>) returns (ret: int)
      requires Holds(View(), got, maxPayloadLen) && (status.FramePayloadLen16? || status.FramePayloadLen64?)
      modifies this`cache, this`payloadLen, this`status, this`got
      ensures Stepped(old(got), rest, ret)
    {
      ghost var f, was := View(), got;
      var n := TryRead(rest, if status.FramePayloadLen16? then 2 else 8);
      if n == 0 {
        ReadsOn(f, was, rest, maxPayloadLen);
        got := got + rest;
        return 0;
      }
      got := got + rest[..n];
      LengthRead(f, was, rest[..n], maxPayloadLen);
      if LittleValue(cache) > maxPayloadLen {
        assert was + rest[..n] <= was + rest;
        ReadPrefix(was + rest[..n], was + rest, maxPayloadLen);
        return -1;
      }
      LengthedHolds(View(), got, maxPayloadLen);
      HandleFramePayloadLen(BigValue(cache));
      return n;
    }

    method OnFrameMaskingKey(rest: seq<byte>) returns (ret: int)
      requires Holds(View(), got, maxPayloadLen) && status.FrameMaskingKey?
      modifies this`cache, this`maskingKey, this`status, this`got
      ensures Stepped(old(got), rest, ret)
    {
      ghost var f, was := View(), got;
      var n := TryRead(rest, 4);
      if n == 0 {
        ReadsOn(f, was, rest, maxPayloadLen);
        got := got + rest;
        return 0;
      }
      KeyRead(f, was, rest[..n], maxPayloadLen);
      got := got + rest[..n];
      maskingKey, cache, status := cache, [], FrameData;
      return n;
    }

    method OnFrameData(rest: seq<byte>) returns (ret: int)
      requires Holds(View(), got, maxPayloadLen) && status.FrameData?
      modifies this`cache, this`status, this`got
      ensures Stepped(old(got), rest, ret)
    {
      ghost var f, was := View(), got;
      var n := TryRead(rest, payloadLen);
      if n == 0 {
        ReadsOn(f, was, rest, maxPayloadLen);
        got := got + rest;
        return 0;
      }
      if f.mask { KeyLength(f, was, maxPayloadLen); }
      DataRead(f, was, rest[..n], maxPayloadLen);
      got := got + rest[..n];
      if mask {
        Unmask();
      }
      status := FrameFinal;
      return n;
    }

    /** The data unmasked in place. */
    method Unmask()
      requires |maskingKey| == 4
      modifies this`cache
      ensures cache == Mask(maskingKey, old(cache))
    {
      var i := 0;
      while i < |cache|
        invariant i <= |cache| == |old(cache)|
        invariant forall j :: 0 <= j < |cache| ==> cache[j] == (if j < i then Xor(old(cache)[j], maskingKey[j % 4]) else old(cache)[j])
      {
        cache := cache[i := Xor(cache[i], maskingKey[i % 4])];
        i := i + 1;
      }
    }

    /** One turn of the switch in the middle of a frame. */
    method Step(rest: seq<byte>) returns (ret: int)
      requires Holds(View(), got, maxPayloadLen) && Midway(status)
      modifies this`cache, this`payloadLen, this`maskingKey, this`status, this`got
      ensures Stepped(old(got), rest, ret)
    {
      match status {
        case FramePayloadLen16 => ret := OnLength(rest);
        case FramePayloadLen64 => ret := OnLength(rest);
        case FrameMaskingKey => ret := OnFrameMaskingKey(rest);
        case FrameData => ret := OnFrameData(rest);
      }
    }

    /** `handleMessage` */
    method HandleMessage(op: byte, data: seq<byte>) returns (ret: int)
      modifies this`events
      ensures match Handled(op, data)
              case None => ret == -1 && events == old(events)
              case Some(e) => ret == 0 && events == old(events) + [e]
    {
      ret := 0;
      match Handled(op, data) {
        case None => ret := -1;
        case Some(e) => events := events + [e];
      }
    }

    /** `handleFrameData` */
    method HandleFrameData() returns (ret: int)
      modifies this`appData, this`lastOpcode, this`cache, this`status, this`events, this`got
      ensures match HandleFrame(old(Building()), final > 0, opcode, old(cache))
              case Refused => ret == -1 && events == old(events)
              case Done(b, e) =>
                ret == 0 && Building() == b && status.FrameStart? && got == [] &&
                events == old(events) + (match e case None => [] case Some(x) => [x])
    {
      var op, data := opcode, cache;
      if IsControl(opcode) {
        if final == 0 {
          // a control frame in pieces
          return -1;
        }
      } else if opcode == 0 {
        // more of the message at hand
        if appData == [] {
          // but there is none, as far as the buffer tells
          return -1;
        }
        appData := appData + cache;
        if final > 0 {
          op, data, appData := lastOpcode, appData, [];
        }
      } else {
        // the first frame of a message
        if appData != [] {
          // but another one is not over yet
          return -1;
        }
        if final == 0 {
          lastOpcode, appData := opcode, cache;
        }
      }
      cache := [];
      if final > 0 {
        ret := HandleMessage(op, data);
        if ret < 0 {
          return;
        }
      }
      status, got := FrameStart, [];
      return 0;
    }

    /** The frame at hand comes to `s` with the bytes that are left. */
    ghost predicate Going(s: seq<byte>, rest: seq<byte>)
      reads this
    {
      Holds(View(), got, maxPayloadLen) && got + rest == s && (Midway(status) || status.FrameFinal?) && Plain(final, opcode)
    }

    /** All of `s` has been dealt with, but for reporting an error. */
    ghost predicate Settled(s: seq<byte>, a: Assembly, before: seq<Event>, ret: int)
      reads this
    {
      Plain(final, opcode) &&
      match Read(s, maxPayloadLen)
      case Partial => ret >= 0 && Going(s, []) && Midway(status) && Building() == a && events == before
      case Bad => ret < 0 && events == before
      case Full(_, payload) =>
        match HandleFrame(a, FinalBit(s[0]) > 0, OpcodeOf(s[0]), payload)
        case Refused => ret < 0 && events == before
        case Done(b, e) =>
          ret == 0 && status.FrameStart? && got == [] && Building() == b && events == before + (match e case None => [] case Some(x) => [x])
    }

    /** A complete frame is handled; what lies behind it is dropped. */
    method Complete(ghost s: seq<byte>, ghost rest: seq<byte>) returns (ret: int)
      requires Going(s, rest) && status.FrameFinal?
      modifies this
      ensures Settled(s, old(Building()), old(events), ret) && ret <= 0
    {
      HoldsFull(View(), got, maxPayloadLen);
      assert got <= s;
      ReadPrefix(got, s, maxPayloadLen);
      ret := HandleFrameData();
    }

    /** The first turn of the loop at the beginning of a frame. */
    method TurnStart(data: seq<byte>, behind: byte, ghost s: seq<byte>) returns (ret: int, next: nat)
      requires Valid() && status.FrameStart? && data != [] && s == Effective(Header(final >= 128, opcode), data, behind)
      modifies this
      ensures ret > 0 ==> Going(s, From(data, next)) && next > 0 && Building() == old(Building()) && events == old(events)
      ensures ret <= 0 ==> Settled(s, old(Building()), old(events), ret)
    {
      ghost var header := Header(final >= 128, opcode);
      ret, next := Start(data[0], if |data| > 1 then data[1] else behind);
      if ret < 0 {
        BadStart(s, header, data, behind, maxPayloadLen);
      } else {
        StartsWith(s, header, data, behind);
      }
    }

    /** One turn of the loop, from the first byte or in the middle of a frame. */
    method Turn(data: seq<byte>, readLen: nat, behind: byte, ghost s: seq<byte>) returns (ret: int, next: nat)
      requires readLen < |data| && Plain(final, opcode)
      requires if status.FrameStart? then Valid() && readLen == 0 && s == Effective(Header(final >= 128, opcode), data, behind)
               else Going(s, data[readLen..])
      modifies this
      ensures ret > 0 ==> Going(s, From(data, next)) && next > readLen && Building() == old(Building()) && events == old(events)
      ensures next >= readLen
      ensures ret <= 0 ==> Settled(s, old(Building()), old(events), ret)
    {
      if status.FrameStart? {
        ret, next := TurnStart(data, behind, s);
      } else if status.FrameFinal? {
        next := readLen;
        ret := Complete(s, data[readLen..]);
      } else {
        ret, next := TurnMiddle(data, readLen, s);
      }
    }

    method TurnMiddle(data: seq<byte>, readLen: nat, ghost s: seq<byte>) returns (ret: int, next: nat)
      requires readLen < |data| && Going(s, data[readLen..]) && Midway(status)
      modifies this`cache, this`payloadLen, this`maskingKey, this`status, this`got
      ensures ret > 0 ==> Going(s, From(data, next)) && next > readLen
      ensures next >= readLen
      ensures ret <= 0 ==> Settled(s, Building(), events, ret)
    {
      ghost var was := got;
      next := readLen;
      ret := Step(data[readLen..]);
      if ret > 0 {
        next := readLen + ret;
        Onward(was, data, readLen, ret);
      } else if ret == 0 {
        HoldsPartial(View(), got, maxPayloadLen);
      }
    }

    /** The loop of `onRead`, and the frame that is complete when the bytes end. */
    method Scan(data: seq<byte>, behind: byte, ghost s: seq<byte>) returns (ret: int)
      requires Valid() && data != [] && !status.FrameError? && s == BytesOf(data, behind)
      modifies this
      ensures Settled(s, old(Building()), old(events), ret)
    {
      var readLen := 0;
      ret := 1;
      while readLen < |data| && ret > 0
        invariant ret > 0 ==> Building() == old(Building()) && events == old(events) && Plain(final, opcode)
        invariant ret > 0 && status.FrameStart? ==>
                    Valid() && readLen == 0 && s == Effective(Header(final >= 128, opcode), data, behind)
        invariant ret > 0 && !status.FrameStart? ==> Going(s, From(data, readLen))
        invariant ret <= 0 ==> Settled(s, old(Building()), old(events), ret)
        decreases |data| - readLen, ret
      {
        ret, readLen := Turn(data, readLen, behind, s);
      }
      if ret > 0 {
        if status.FrameFinal? {
          ret := Complete(s, []);
        } else {
          assert got + [] == got;
          HoldsPartial(View(), got, maxPayloadLen);
        }
      }
    }

    /** The bytes of the frame, with those of a call. */
    ghost function BytesOf(data: seq<byte>, behind: byte): seq<byte>
      requires Plain(final, opcode) && data != []
      reads this`got, this`final, this`opcode
    {
      if got == [] then Effective(Header(final >= 128, opcode), data, behind) else got + data
    }

    /** `onRead`; `behind` is the byte behind the buffer, which is read when a
        call begins a frame with a single byte. */
    method OnRead(data: seq<byte>, behind: byte) returns (ret: int)
      requires Valid()
      modifies this
      ensures Valid()
      ensures data == [] || old(status).FrameError? ==>
                View() == old(View()) && got == old(got) && Building() == old(Building()) && events == old(events)
      ensures data != [] && !old(status).FrameError? ==> Answered(old(BytesOf(data, behind)), old(Building()), old(events))
    {
      if data == [] || status.FrameError? {
        return if data == [] then 1 else -1;
      }
      ret := Scan(data, behind, BytesOf(data, behind));
      assert got + [] == got;
      if ret < 0 {
        // the connection is given up
        status := FrameError;
        events := events + [Failure];
      }
    }

    /** The answer to the bytes `s` of a frame and what came before it. */
    ghost predicate Answered(s: seq<byte>, a: Assembly, before: seq<Event>)
      reads this
    {
      match Read(s, maxPayloadLen)
      case Partial => got == s && Midway(status) && Building() == a && events == before
      case Bad => status.FrameError? && events == before + [Failure]
      case Full(_, payload) =>
        match HandleFrame(a, FinalBit(s[0]) > 0, OpcodeOf(s[0]), payload)
        case Refused => status.FrameError? && events == before + [Failure]
        case Done(b, e) =>
          status.FrameStart? && got == [] && Building() == b && events == before + (match e case None => [] case Some(x) => [x])
    }

    /** `sendFrame`: the bytes handed to the connection. */
    method SendFrame(finalFrame: bool, op: byte, message: seq<byte>) returns (buf: seq<byte>)
      requires op < 16 && |message| < 0x1_0000_0000_0000_0000
      ensures buf == Encode(Sent(finalFrame, op, message))
    {
      buf := [Header(finalFrame, op)];
      var n := |message|;
      if n < 126 {
        buf := buf + [LengthByte(false, n)];
      } else if n <= 0xFFFF {
        buf := buf + [LengthByte(false, 126)];
        buf := buf + BigBytes(n, 2);
        Associate([Header(finalFrame, op)], [LengthByte(false, 126)], BigBytes(n, 2));
      } else {
        buf := buf + [LengthByte(false, 127)];
        buf := buf + BigBytes(n, 8);
        Associate([Header(finalFrame, op)], [LengthByte(false, 127)], BigBytes(n, 8));
      }
      buf := buf + message;
    }

    /** A frame, in as many calls as it takes. */
    method ReceiveFrame(ghost f: Frame, calls: seq<seq<byte>>, behind: byte)
      requires Valid() && status.FrameStart? && maxPayloadLen >= 0xffff && Cut(f, calls)
      modifies this
      ensures Valid() && Received(f, old(Building()), old(events))
    {
      Call(f, calls, 0, behind, Building(), events);
      var i := 1;
      while i < |calls|
        invariant 1 <= i <= |calls| && Valid() && After(f, calls, i, old(Building()), old(events))
      {
        Call(f, calls, i, behind, old(Building()), old(events));
        i := i + 1;
      }
      assert calls[..|calls|] == calls;
      WholeSize(f);
    }

    /** After the first `i` calls. */
    ghost predicate After(f: Frame, calls: seq<seq<byte>>, i: nat, a: Assembly, before: seq<Event>)
      requires i <= |calls| && WellFormed(f)
      reads this
    {
      if |Flatten(calls[..i])| < ReadSize(f) then
        Midway(status) && got == Flatten(calls[..i]) && got != [] && Building() == a && events == before
      else Received(f, a, before)
    }

    method Call(ghost f: Frame, calls: seq<seq<byte>>, i: nat, behind: byte, ghost a: Assembly, ghost before: seq<Event>)
      requires Valid() && maxPayloadLen >= 0xffff && Cut(f, calls) && i < |calls|
      requires if i == 0 then status.FrameStart? && Building() == a && events == before else After(f, calls, i, a, before)
      modifies this
      ensures Valid() && After(f, calls, i + 1, a, before)
    {
      CallsGrow(f, calls, i);
      if i == 0 {
        FirstCall(f, calls, Header(final >= 128, opcode), behind, maxPayloadLen);
      } else if calls[i] != [] {
        LaterCall(f, calls, i, maxPayloadLen);
      }
      var _ := OnRead(calls[i], behind);
    }

    /** What a complete frame leads to. */
    ghost predicate Received(f: Frame, a: Assembly, before: seq<Event>)
      reads this
    {
      match HandleFrame(a, f.final, f.opcode, f.payload)
      case Refused => status.FrameError? && events == before + [Failure]
      case Done(b, e) =>
        status.FrameStart? && Building() == b && events == before + (match e case None => [] case Some(x) => [x])
    }

    /** A whole conversation: any messages, in any fragments, with control frames
        between, every frame in any number of calls. What comes out is what was
        sent, unless a message begins with an empty fragment and goes on; then
        the connection is given up. */
    method ReceiveAll(ss: seq<Script>, calls: seq<seq<seq<byte>>>, behind: byte)
      requires Valid() && status.FrameStart? && maxPayloadLen >= 0xffff && appData == []
      requires (forall s <- ss :: Legal(s)) && |calls| == |AllFrames(ss)|
      requires forall k :: 0 <= k < |calls| ==> Cut(AllFrames(ss)[k], calls[k])
      modifies this
      ensures Valid()
      ensures if forall s <- ss :: Begins(s) then status.FrameStart? && appData == [] && events == old(events) + AllEvents(ss)
              else status.FrameError?
    {
      Reassembly(Building(), ss);
      ReceiveFrames(AllFrames(ss), calls, behind);
    }

    /** After some frames. */
    ghost predicate Through(r: Ran, before: seq<Event>)
      reads this
    {
      match r
      case Stopped => status.FrameError?
      case Went(b, es) => status.FrameStart? && Building() == b && events == before + es
    }

    method ReceiveFrames(ghost fs: seq<Frame>, calls: seq<seq<seq<byte>>>, behind: byte)
      requires Valid() && status.FrameStart? && maxPayloadLen >= 0xffff && |calls| == |fs|
      requires forall k :: 0 <= k < |calls| ==> Cut(fs[k], calls[k])
      modifies this
      ensures Valid() && Through(Run(old(Building()), fs), old(events))
    {
      var k := 0;
      ghost var a := Building();
      assert fs[..0] == [] && events + [] == events;
      while k < |calls|
        invariant k <= |calls| && Valid() && Through(Run(a, fs[..k]), old(events))
      {
        ReceiveNext(fs, calls[k], behind, k, a, old(events));
        k := k + 1;
      }
      assert fs[..|fs|] == fs;
    }

    method ReceiveNext(ghost fs: seq<Frame>, calls: seq<seq<byte>>, behind: byte, ghost k: nat, ghost a: Assembly, ghost before: seq<Event>)
      requires Valid() && maxPayloadLen >= 0xffff && k < |fs| && Cut(fs[k], calls)
      requires Through(Run(a, fs[..k]), before)
      modifies this
      ensures Valid() && Through(Run(a, fs[..k + 1]), before)
    {
      NextFrame(a, fs, k);
      if status.FrameError? {
        Ignore(calls, behind);
      } else {
        ghost var es := Run(a, fs[..k]).events;
        ghost var o := HandleFrame(Building(), fs[k].final, fs[k].opcode, fs[k].payload);
        ReceiveFrame(fs[k], calls, behind);
        if o.Done? { Associate(before, es, match o.event case None => [] case Some(x) => [x]); }
      }
    }

    /** After an error nothing more happens. */
    method Ignore(calls: seq<seq<byte>>, behind: byte)
      requires Valid() && status.FrameError?
      modifies this
      ensures Valid() && status.FrameError? && events == old(events)
    {
      for i := 0 to |calls|
        invariant Valid() && status.FrameError? && events == old(events)
      {
        var _ := OnRead(calls[i], behind);
      }
    }
  }

  lemma NextFrame(a: Assembly, fs: seq<Frame>, k: nat)
    requires k < |fs|
    ensures Run(a, fs[..k + 1]) ==
            match Run(a, fs[..k])
            case Stopped => Stopped
            case Went(b, es) =>
              match HandleFrame(b, fs[k].final, fs[k].opcode, fs[k].payload)
              case Refused => Stopped
              case Done(c, e) => Went(c, es + match e case None => [] case Some(x) => [x])
  {
    assert fs[..k + 1] == fs[..k] + [fs[k]];
    RunAppend(a, fs[..k], [fs[k]]);
    if Run(a, fs[..k]).Went? { RunOne(Run(a, fs[..k]).now, fs[k]); }
  }

  /** The calls that bring a frame in: the first one with both header bytes. An
      empty frame with a masking key is taken for complete before its key, so
      the call that brings in the end of its header brings in the key as well. */
  predicate Cut(f: Frame, calls: seq<seq<byte>>) {
    Readable(f) && calls != [] && Flatten(calls) == Encode(f) && |calls[0]| >= 2 &&
    (f.payload == [] && f.key.Some? ==> KeyInTime(f, calls))
  }

  /** Nothing comes after the call with which the frame is complete. */
  predicate KeyInTime(f: Frame, calls: seq<seq<byte>>)
    requires WellFormed(f)
  {
    forall i :: 0 < i < |calls| && |Flatten(calls[..i])| >= ReadSize(f) ==> calls[i] == []
  }

  lemma CallsGrow(f: Frame, calls: seq<seq<byte>>, i: nat)
    requires Cut(f, calls) && i < |calls|
    ensures Flatten(calls[..i + 1]) == Flatten(calls[..i]) + calls[i] && Flatten(calls[..i + 1]) <= Encode(f)
  {
    assert calls[..i + 1] == calls[..i] + [calls[i]];
    FlattenSnoc(calls[..i], calls[i]);
    assert calls == calls[..i + 1] + calls[i + 1..];
    FlattenAppend(calls[..i + 1], calls[i + 1..]);
  }

  /** A part of a frame, or all of it. */
  lemma ReadPart(f: Frame, s: seq<byte>, limit: nat)
    requires Readable(f) && limit >= 0xffff && s <= Encode(f)
    ensures if |s| < ReadSize(f) then Read(s, limit).Partial? else Read(s, limit) == Full(ReadSize(f), f.payload)
    ensures |s| >= 2 ==> (FinalBit(s[0]) > 0 <==> f.final) && OpcodeOf(s[0]) == f.opcode && !Reserved(s[0])
  {
    ReadEncoded(f, limit);
    EncodedHeader(f);
    HeaderParts(f.final, f.opcode);
    if !Read(s, limit).Partial? {
      ReadPrefix(s, Encode(f), limit);
      FullFits(s, limit);
    } else if |s| >= 2 {
      assert s[0] == Encode(f)[0] && s[1] == Encode(f)[1];
      if |s| >= HeaderSize(s) { SameHeader(s, Encode(f), limit); }
    }
  }

  lemma FullFits(s: seq<byte>, limit: nat)
    ensures Read(s, limit).Full? ==> Read(s, limit).size <= |s|
  {
  }

  lemma WholeSize(f: Frame)
    requires WellFormed(f)
    ensures ReadSize(f) <= |Encode(f)| && (!(f.payload == [] && f.key.Some?) ==> ReadSize(f) == |Encode(f)|)
  {
  }

  /** An empty frame with a masking key is taken for complete four bytes before
      its end: what of the key comes in a later call begins a new frame. */
  lemma EmptyMaskedEndsEarly(f: Frame, limit: nat)
    requires Readable(f) && limit >= 0xffff && f.payload == [] && f.key.Some?
    ensures ReadSize(f) == |Encode(f)| - 4 && Read(Encode(f)[..ReadSize(f)], limit) == Full(ReadSize(f), [])
  {
    ReadEncoded(f, limit);
    EncodedHeader(f);
    var e := Encode(f);
    var s := e[..ReadSize(f)];
    assert s[0] == e[0] && s[1] == e[1];
    SameHeader(s, e, limit);
  }

  lemma FirstCall(f: Frame, calls: seq<seq<byte>>, header: byte, behind: byte, limit: nat)
    requires Cut(f, calls) && limit >= 0xffff
    ensures Effective(header, calls[0], behind) == calls[0] == Flatten(calls[..1])
    ensures var s := calls[0];
            (if |s| < ReadSize(f) then Read(s, limit).Partial? else Read(s, limit) == Full(ReadSize(f), f.payload)) &&
            (FinalBit(s[0]) > 0 <==> f.final) && OpcodeOf(s[0]) == f.opcode
  {
    CallsGrow(f, calls, 0);
    assert calls[..0] == [] && [] + calls[0] == calls[0];
    ReadPart(f, calls[0], limit);
  }

  lemma LaterCall(f: Frame, calls: seq<seq<byte>>, i: nat, limit: nat)
    requires Cut(f, calls) && limit >= 0xffff && 0 < i < |calls| && calls[i] != []
    ensures |Flatten(calls[..i])| < ReadSize(f)
    ensures var s := Flatten(calls[..i]) + calls[i];
            |s| >= 2 && (if |s| < ReadSize(f) then Read(s, limit).Partial? else Read(s, limit) == Full(ReadSize(f), f.payload)) &&
            (FinalBit(s[0]) > 0 <==> f.final) && OpcodeOf(s[0]) == f.opcode
  {
    WholeSize(f);
    CallsGrow(f, calls, i);
    assert calls[..i] == [calls[0]] + calls[1..i];
    FlattenAppend([calls[0]], calls[1..i]);
    ReadPart(f, Flatten(calls[..i]) + calls[i], limit);
  }

  /** The bytes from `i` on; none behind the end. */
  function From(data: seq<byte>, i: nat): seq<byte> { if i <= |data| then data[i..] else [] }

  /** The bytes a call is taken for when it begins a frame. With a reserved bit
      set, the first byte is read as the second one of a frame whose first byte
      is that of the frame before; a single byte is read with the byte behind
      the buffer. */
  function Effective(header: byte, data: seq<byte>, behind: byte): seq<byte>
    requires data != []
  {
    if Reserved(data[0]) then [header] + data
    else if |data| == 1 then data + [behind]
    else data
  }

  /** A call that begins a frame is taken for the bytes it holds if and only if
      it holds two at least and the first has no reserved bit. */
  lemma ReadAsItIs(header: byte, data: seq<byte>, behind: byte)
    requires data != []
    ensures Effective(header, data, behind) == data <==> |data| >= 2 && !Reserved(data[0])
  {
    assert |[header] + data| == |data| + 1;
  }

  /** A first byte with reserved bits is refused, by any call, if and only if the
      frame before it was a control frame and the byte would be too long a
      length for one, or what comes for a length is beyond the limit. */
  lemma ReservedRefused(header: byte, data: seq<byte>, behind: byte, limit: nat)
    requires data != [] && Reserved(data[0])
    ensures var s := Effective(header, data, behind);
            var k := HeaderSizeOf(FormOf(data[0])) - 1;
            Read(s, limit).Bad? <==>
              (IsControl(OpcodeOf(header)) && Len7(data[0]) >= 126) ||
              (Len7(data[0]) >= 126 && |data| >= k && LittleValue(data[1..k]) > limit)
  {
    var s, k := [header] + data, HeaderSizeOf(FormOf(data[0])) - 1;
    if |data| >= k { assert s[2..k + 1] == data[1..k]; }
  }

  /** On its own it is refused if and only if it would be too long a length for
      the control frame before it; else the connection waits for more. */
  lemma ReservedAlone(header: byte, b: byte, behind: byte, limit: nat)
    requires Reserved(b)
    ensures var s := Effective(header, [b], behind);
            if IsControl(OpcodeOf(header)) && Len7(b) >= 126 then Read(s, limit).Bad? else Read(s, limit).Partial?
  {
  }

  /** A single byte that begins a frame is waited with if and only if the byte
      behind the buffer would be a length, and one that such a frame may have;
      a zero completes a frame that nobody sent. */
  lemma SingleByte(header: byte, b: byte, behind: byte, limit: nat)
    requires !Reserved(b)
    ensures var r := Read(Effective(header, [b], behind), limit);
            (r.Partial? <==> Len7(behind) != 0 && !(IsControl(OpcodeOf(b)) && Len7(behind) >= 126)) &&
            (r.Full? <==> Len7(behind) == 0) && (r.Full? ==> r == Full(2, []))
  {
  }

  /** A new connection and a first byte with a reserved bit: no error. */
  method ReservedPasses() returns (failed: bool, events: seq<Event>)
    ensures !failed && events == []
  {
    var c := new WsConnection(10 * 1024 * 1024);
    var _ := c.OnRead([0xC1], 0);
    failed, events := c.status.FrameError?, c.events;
  }

  lemma EmptyText(header: byte, limit: nat)
    ensures var s := Effective(header, [0x81], 0);
            Read(s, limit) == Full(2, []) && FinalBit(s[0]) > 0 && OpcodeOf(s[0]) == 1
    ensures HandleFrame(Assembly([], 0), true, 1, []) == Done(Assembly([], 0), Some(Message(1, [])))
  {
    assert Effective(header, [0x81], 0) == [0x81, 0];
  }

  /** A new connection and the first byte of a text message, with a zero behind
      it in memory: an empty message, which was not sent. */
  method MessageOutOfNothing() returns (failed: bool, events: seq<Event>)
    ensures !failed && events == [Message(1, [])]
  {
    var c := new WsConnection(10 * 1024 * 1024);
    EmptyText(Header(c.final >= 128, c.opcode), c.maxPayloadLen);
    var _ := c.OnRead([0x81], 0);
    failed, events := c.status.FrameError?, c.events;
  }

  lemma BadStart(s: seq<byte>, header: byte, data: seq<byte>, behind: byte, limit: nat)
    requires data != [] && s == Effective(header, data, behind)
    requires BadControl(if Reserved(data[0]) then [header, data[0]] else [data[0], if |data| > 1 then data[1] else behind])
    ensures Read(s, limit).Bad?
  {
  }

  lemma StartsWith(s: seq<byte>, header: byte, data: seq<byte>, behind: byte)
    requires data != [] && s == Effective(header, data, behind)
    ensures if Reserved(data[0]) then s == [header, data[0]] + From(data, 1)
            else s == [data[0], if |data| > 1 then data[1] else behind] + From(data, 2)
  {
  }

  lemma Onward(was: seq<byte>, data: seq<byte>, i: nat, n: nat)
    requires i + n <= |data|
    ensures was + data[i..][..n] + From(data, i + n) == was + data[i..]
  {
  }

  /** The fields `final` and `opcode`, as a header byte leaves them. */
  predicate Plain(final: byte, opcode: byte) { (final == 0 || final == 128) && opcode < 16 }

  /** They make a header byte again. */
  lemma StaleHeader(final: byte, opcode: byte)
    requires Plain(final, opcode)
    ensures var h := Header(final >= 128, opcode); OpcodeOf(h) == opcode && FinalBit(h) == final
  {
  }

  /** The first two bytes, the first of them perhaps a stale header. */
  lemma StartHeads(f: Fields, first: byte, second: byte, header: byte)
    requires if Reserved(first) then f.final == FinalBit(header) && f.opcode == OpcodeOf(header) && f.mask == Masked(first)
             else f.final == FinalBit(first) && f.opcode == OpcodeOf(first) && f.mask == Masked(second)
    requires !BadControl(if Reserved(first) then [header, first] else [first, second])
    ensures Headed(f, if Reserved(first) then [header, first] else [first, second])
  {
  }

  /** After the first two bytes. */
  lemma StartHolds(f: Fields, g: seq<byte>, limit: nat)
    requires |g| == 2 && f.cache == [] && Headed(f, g)
    ensures Holds(if Len7(g[1]) < 126 then Lengthed(f, Len7(g[1]))
                  else f.(status := if Len7(g[1]) == 126 then FramePayloadLen16 else FramePayloadLen64), g, limit)
  {
    if Len7(g[1]) < 126 { LengthedHolds(f, g, limit); }
  }

  lemma KeyLength(f: Fields, got: seq<byte>, limit: nat)
    requires Holds(f, got, limit) && f.status.FrameData? && f.mask
    ensures |f.maskingKey| == 4
  {
  }
}
