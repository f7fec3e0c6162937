/** A TCP connection: its status, its send buffer and its events, with the
  kernel taking what it likes and the callback doing what it likes. */
module Connection {
  import opened Common

  datatype Status = Unconnected | Connecting | Connected | Disconnecting | Disconnected

  /** What `writev` does: take some bytes, at most all; ask to try again; or fail. */
  datatype Written = Took(n: nat) | TryAgain | WriteFailed

  /** What `recv` does. */
  datatype Received = Got(data: string) | Ended | NothingYet | ReadFailed

  datatype Event = Listen | Connect | ConnFail | Read(data: string) | WriteComplete | Close | Error

  /** What the callback does when an event is reported. */
  datatype Operation = Send(data: string) | ShutDown(after: nat)

  function Rank(s: Status): nat {
    match s case Unconnected => 0 case Connecting => 1 case Connected => 2 case Disconnecting => 3 case Disconnected => 4
  }

  function Closes(es: seq<Event>): nat {
    if es == [] then 0 else Closes(es[..|es| - 1]) + if es[|es| - 1].Close? then 1 else 0
  }

  lemma ClosesSnoc(es: seq<Event>, e: Event)
    ensures Closes(es + [e]) == Closes(es) + if e.Close? then 1 else 0
  {
    assert (es + [e])[..|es|] == es;
  }

  lemma NextEvent(a: seq<Event>, e: Event, b: seq<Event>)
    requires a + [e] <= b
    ensures |a| <= |b| && e in b[|a|..]
  {
    assert b[|a|] == (a + [e])[|a|] == b[|a|..][0];
  }

  /** What is left to send once the kernel has taken `n` bytes of `pending` and
      `data`. */
  function Left(pending: string, data: string, n: nat): string
    requires n <= |pending| + |data|
  {
    if |pending| < n then data[n - |pending|..] else pending[n..] + data
  }

  /** Nothing is lost or reordered. */
  lemma LeftExact(pending: string, data: string, n: nat)
    requires n <= |pending| + |data|
    ensures Left(pending, data, n) == (pending + data)[n..]
  {
  }

  /** `wire` takes `n` of the bytes `all` behind it. */
  lemma Taken(wire: string, all: string, n: nat)
    requires n <= |all|
    ensures wire + all[..n] + all[n..] == wire + all && wire <= wire + all[..n]
  {
    assert all[..n] + all[n..] == all;
    assert wire + all[..n] + all[n..] == wire + (all[..n] + all[n..]);
  }

  lemma Grouped(wire: string, pending: string, data: string)
    ensures wire + pending + data == wire + (pending + data)
  {
  }

  /** What happens to a connection from outside. */
  datatype Happening =
    | Establish                                                        // onEstablished
    | ConnectTo(ok: bool)                                              // connect
    | Ready(read: Option<Received>, write: bool, error: bool)          // onHandler
    | Ask(operation: Operation)                                        // send and shutDown
    | Timer                                                            // the close put off by shutDown

  class Conn {
    var status: Status
    var sendBuffer: string
    var answers: seq<Written>             // of the kernel, to come
    var reactions: seq<seq<Operation>>    // of the callback, to come
    var events: seq<Event>                // reported, oldest first
    var descriptors: nat                  // how often the descriptor was closed
    var writing: bool                     // TNET_WRITE is asked for
    ghost var wire: string                // the bytes the kernel has taken
    ghost var accepted: string            // the data of every send that returned 0
    ghost var failed: bool                // a write has failed for good

    /** What is on the wire and what is buffered are what was accepted. */
    ghost predicate Valid()
      reads this
    {
      (!failed ==> wire + sendBuffer == accepted) && Settled()
    }

    /** The descriptor is closed once, and the close event reported at most once. */
    ghost predicate Settled()
      reads this
    {
      (failed ==> status.Disconnected?) && ClosedOnce()
    }

    ghost predicate ClosedOnce()
      reads this`status, this`events, this`descriptors
    {
      Closes(events) <= 1 && (Closes(events) == 1 ==> status.Disconnected?) &&
      descriptors == (if status.Disconnected? then 1 else 0)
    }

    /** Buffered bytes wait for an event that will come. */
    predicate Watched()
      reads this`status, this`sendBuffer, this`writing
    {
      sendBuffer != "" ==> !status.Unconnected? && (status.Connected? ==> writing)
    }

    /** What the callback does at the next event. */
    function Reaction(): seq<Operation>
      reads this`reactions
    {
      if reactions == [] then [] else reactions[0]
    }

    /** And later. */
    function Reactions(): seq<seq<Operation>>
      reads this`reactions
    {
      if reactions == [] then [] else reactions[1..]
    }

    /** It sends some data then. */
    predicate SendsBack()
      reads this`reactions
    {
      |Reaction()| == 1 && Reaction()[0].Send? && Reaction()[0].data != ""
    }

    /** The callback never sends. */
    predicate Silent()
      reads this`reactions
    {
      forall r <- reactions, o <- r :: o.ShutDown?
    }

    /** Bytes that were waiting for an event go on doing so, if the callback does
        not send. */
    twostate predicate Attended()
      reads this`status, this`sendBuffer, this`writing, this`reactions
    {
      old(Silent()) ==> Silent() && (old(Watched()) ==> Watched())
    }

    /** Nothing was sent that is still waiting, if the callback does not send. */
    twostate predicate Unfilled()
      reads this`sendBuffer
    {
      old(Silent()) && old(sendBuffer) == "" ==> sendBuffer == ""
    }

    twostate predicate Reported(e: Event)
      reads this`events
    {
      |old(events)| <= |events| && e in events[|old(events)|..]
    }

    /** Nothing is taken back: the status only moves on, the rest only grows. */
    twostate predicate Evolved()
      reads this
    {
      Rank(old(status)) <= Rank(status) && old(accepted) <= accepted && old(wire) <= wire && old(events) <= events &&
      (old(failed) ==> failed) && |reactions| <= |old(reactions)|
    }

    constructor (answers: seq<Written>, reactions: seq<seq<Operation>>)
      ensures Valid() && status.Unconnected? && events == [] && accepted == "" && wire == "" && !failed && sendBuffer == ""
      ensures this.answers == answers && this.reactions == reactions
    {
      status, sendBuffer, events, descriptors, writing := Unconnected, "", [], 0, false;
      this.answers, this.reactions := answers, reactions;
      wire, accepted, failed := "", "", false;
    }

    method Report(e: Event)
      requires Valid() && (e.Close? ==> status.Disconnected? && Closes(events) == 0)
      modifies this`events
      ensures Valid() && events == old(events) + [e]
    {
      ClosesSnoc(events, e);
      events := events + [e];
    }

    /** `m_callback`: the event is reported, and the callback reacts. */
    method Emit(e: Event)
      requires Valid() && (e.Close? ==> status.Disconnected? && Closes(events) == 0)
      modifies this
      ensures Valid() && Evolved() && Attended() && Unfilled() && old(events) + [e] <= events && Reported(e)
      ensures old(Reaction()) == [] ==> events == old(events) + [e] && Still() && reactions == old(Reactions())
      ensures old(SendsBack()) && old(status).Connected? ==>
                SentAlone(old(sendBuffer) + old(Reaction())[0].data, old(Next()))
      decreases |reactions|, 1
    {
      Report(e);
      Respond();
      NextEvent(old(events), e, events);
    }

    method Respond()
      requires Valid()
      modifies this
      ensures Valid() && Evolved() && Attended() && Unfilled()
      ensures old(Reaction()) == [] ==> events == old(events) && Still() && reactions == old(Reactions())
      ensures old(SendsBack()) && old(status).Connected? ==>
                SentAlone(old(sendBuffer) + old(Reaction())[0].data, old(Next()))
      decreases |reactions|, 0
    {
      if reactions != [] {
        var now := reactions[0];
        reactions := reactions[1..];
        React(now);
      }
    }

    /** `all` was offered to the kernel, which has answered. */
    predicate SentAlone(all: string, answer: Written)
      reads this`status, this`sendBuffer
    {
      match answer
      case TryAgain => sendBuffer == all && status.Connected?
      case WriteFailed => status.Disconnected?
      case Took(n) => n < |all| ==> sendBuffer == all[n..] && status.Connected?
    }

    /** No more than an event was reported. */
    twostate predicate Still()
      reads this
    {
      status == old(status) && sendBuffer == old(sendBuffer) && answers == old(answers) &&
      descriptors == old(descriptors) && writing == old(writing) && wire == old(wire) && accepted == old(accepted) &&
      failed == old(failed)
    }

    method React(operations: seq<Operation>)
      requires Valid()
      modifies this
      ensures Valid() && Evolved() && Attended() && ((forall o <- operations :: o.ShutDown?) ==> Unfilled())
      ensures operations == [] ==> Still() && events == old(events) && reactions == old(reactions)
      ensures |operations| == 1 && operations[0].Send? && operations[0].data != "" && old(status).Connected? ==>
                SentAlone(old(sendBuffer) + operations[0].data, old(Next()))
      decreases |reactions|, 6
    {
      var i := 0;
      while i < |operations|
        invariant i <= |operations| && Valid() && Evolved() && Attended()
        invariant (forall o <- operations :: o.ShutDown?) ==> Unfilled()
        invariant i == 0 ==> Still() && events == old(events) && reactions == old(reactions)
        invariant i == 1 && operations[0].Send? && operations[0].data != "" && old(status).Connected? ==>
                    SentAlone(old(sendBuffer) + operations[0].data, old(Next()))
      {
        assert operations[i] in operations;
        match operations[i] {
          case Send(data) => var _ := Transmit(data);
          case ShutDown(after) => Shut(after);
        }
        i := i + 1;
      }
    }

    /** `send`: -1 unless connected. */
    method Transmit(data: string) returns (ret: int)
      requires Valid()
      modifies this
      ensures Valid() && Evolved()
      ensures if old(status).Connected? then ret == 0 && old(accepted) + data <= accepted
              else ret == -1 && accepted == old(accepted) && wire == old(wire) && sendBuffer == old(sendBuffer)
      ensures Attended() && (old(status).Connected? ==> Wrote(data))
      ensures old(Overtakes(data)) ==> (Watched() <==> old(Answer(1)).WriteFailed?)
      decreases |reactions|, 5
    {
      if !status.Connected? {
        return -1;
      }
      accepted := accepted + data;
      HandleWrite(data);
      return 0;
    }

    /** The answer of the kernel to write `k` from now. */
    function Answer(k: nat): Written
      reads this`answers
    {
      if k < |answers| then answers[k] else TryAgain
    }

    function Next(): Written
      reads this`answers
    {
      Answer(0)
    }

    predicate Takes(k: nat, data: string)
      reads this`answers
    {
      Answer(k).Took? && Answer(k).n >= |data|
    }

    /** The buffered bytes and `data` were offered to the kernel. */
    twostate predicate Wrote(data: string)
      reads this
    {
      var all := old(sendBuffer) + data;
      if !old(status).Connected? || all == "" then wire == old(wire) && sendBuffer == old(sendBuffer) && status == old(status)
      else
        match old(Next())
        case TryAgain => wire == old(wire) && sendBuffer == all && status == old(status) && writing
        case WriteFailed => failed && status.Disconnected? && Reported(Error)
        case Took(n) =>
          if n < |all| then wire == old(wire) + all[..n] && sendBuffer == all[n..] && status == old(status) && writing
          else old(wire) + all <= wire && Reported(WriteComplete) && !writing
    }

    /** Nothing is to be written, or the kernel will not take all of it. */
    predicate Unfinished(data: string)
      reads this`status, this`sendBuffer, this`answers
    {
      !status.Connected? || sendBuffer + data == "" || Next().TryAgain? || (Next().Took? && Next().n < |sendBuffer| + |data|)
    }

    /** The kernel will take all of it. */
    predicate Finished(data: string)
      reads this`status, this`sendBuffer, this`answers
    {
      !Unfinished(data) && Next().Took?
    }

    /** The kernel will take all of it, and the callback answers with data of
        which it will not take all. */
    predicate Overtakes(data: string)
      reads this`status, this`sendBuffer, this`answers, this`reactions
    {
      Finished(data) && SendsBack() && !Takes(1, Reaction()[0].data)
    }

    /** `handleWrite`, for `data` that is already accepted: the buffered bytes go
        before it. */
    method HandleWrite(data: string)
      requires Settled() && (!failed ==> wire + sendBuffer + data == accepted) && (data != "" ==> status.Connected?)
      modifies this
      ensures Valid() && Evolved() && Attended() && Wrote(data)
      ensures old(Unfinished(data)) ==> events == old(events)
      ensures old(Finished(data)) && old(Reaction()) == [] ==> sendBuffer == "" && status == old(status)
      ensures old(Overtakes(data)) ==> (Watched() <==> old(Answer(1)).WriteFailed?)
      decreases |reactions|, 3
    {
      Grouped(wire, sendBuffer, data);
      if !status.Connected? {
        return;
      }
      if sendBuffer == "" && data == "" {
        writing := false;
        return;
      }
      var answer := Next();
      answers := if answers == [] then [] else answers[1..];
      match answer {
        case Took(n) =>
          if n >= |sendBuffer| + |data| {
            Finish(data);
          } else {
            Keep(n, data);
            writing := true;
          }
        case TryAgain =>
          sendBuffer := sendBuffer + data;
          writing := true;
        case WriteFailed =>
          sendBuffer, failed := "", true;
          HandleError();
      }
    }

    /** The kernel has taken everything. */
    method Finish(data: string)
      requires Settled() && (!failed ==> wire + (sendBuffer + data) == accepted) && status.Connected?
      modifies this
      ensures Valid() && Evolved() && old(wire) + (old(sendBuffer) + data) <= wire && Reported(WriteComplete) && !writing
      ensures old(Silent()) ==> Silent() && sendBuffer == ""
      ensures old(Reaction()) == [] ==> sendBuffer == "" && status == old(status)
      ensures old(SendsBack()) ==> SentAlone(old(Reaction())[0].data, old(Next()))
      decreases |reactions|, 2
    {
      wire, sendBuffer := wire + (sendBuffer + data), "";
      assert wire + sendBuffer == wire;
      if SendsBack() { assert sendBuffer + Reaction()[0].data == Reaction()[0].data; }
      Emit(WriteComplete);
      // whatever the callback has sent
      writing := false;
    }

    /** The kernel has taken `n` bytes and no more. */
    method Keep(n: nat, data: string)
      requires n < |sendBuffer| + |data|
      modifies this`wire, this`sendBuffer
      ensures wire == old(wire) + (old(sendBuffer) + data)[..n] && sendBuffer == (old(sendBuffer) + data)[n..]
      ensures wire + sendBuffer == old(wire) + (old(sendBuffer) + data) && old(wire) <= wire
    {
      LeftExact(sendBuffer, data, n);
      Taken(wire, sendBuffer + data, n);
      wire := wire + (sendBuffer + data)[..n];
      if |sendBuffer| < n {
        sendBuffer := data[n - |sendBuffer|..];
      } else {
        sendBuffer := sendBuffer[n..];
        sendBuffer := sendBuffer + data;
      }
    }

    /** `disconnect`: whether there was anything to close. */
    method Disconnect() returns (done: bool)
      requires ClosedOnce() && (!failed ==> wire + sendBuffer == accepted)
      modifies this`status, this`descriptors
      ensures Valid() && status.Disconnected? && done == !old(status).Disconnected?
    {
      if status.Disconnected? {
        return false;
      }
      status := Disconnected;
      descriptors := descriptors + 1;
      return true;
    }

    method HandleError()
      requires ClosedOnce() && (!failed ==> wire + sendBuffer == accepted)
      modifies this
      ensures Valid() && Evolved() && Attended() && status.Disconnected? && old(events) + [Error] <= events && Reported(Error)
      decreases |reactions|, 2
    {
      var _ := Disconnect();
      Emit(Error);
    }

    method HandleClose()
      requires Valid()
      modifies this
      ensures Valid() && Evolved() && Attended() && Unfilled() && status.Disconnected?
      ensures !old(status).Disconnected? ==> old(events) + [Close] <= events
      ensures old(status).Disconnected? ==> events == old(events)
      decreases |reactions|, 2
    {
      var done := Disconnect();
      if done {
        Emit(Close);
      }
    }

    /** `shutDown`: at once, or after a while. */
    method Shut(after: nat)
      requires Valid()
      modifies this
      ensures Valid() && Evolved() && Attended() && Unfilled() && Rank(status) >= 3
      ensures after == 0 && !old(status).Disconnecting? ==> status.Disconnected?
      ensures after == 0 && Rank(old(status)) < 3 ==> old(events) + [Close] <= events
      ensures after > 0 || Rank(old(status)) >= 3 ==> events == old(events) && descriptors == old(descriptors)
      decreases |reactions|, 5
    {
      if status.Disconnecting? || status.Disconnected? {
        return;
      }
      status := Disconnecting;
      if after == 0 {
        HandleClose();
      }
    }

    method OnEstablished()
      requires Valid()
      modifies this
      ensures Valid() && Evolved() && Attended()
      ensures if old(status).Unconnected? then Rank(status) >= 2 && old(events) + [Listen] <= events
              else status == old(status) && events == old(events)
      ensures old(status).Unconnected? && old(Reaction()) == [] ==>
                status.Connected? && sendBuffer == old(sendBuffer) && answers == old(answers) && reactions == old(Reactions())
    {
      if !status.Unconnected? {
        return;
      }
      status, writing := Connected, false;
      Emit(Listen);
    }

    /** `connect`, with the answer of the kernel. */
    method ConnectTo(ok: bool)
      requires Valid()
      modifies this
      ensures Valid() && Evolved() && Attended()
      ensures if old(status).Unconnected? then
                (ok ==> Rank(status) >= 2) && old(events) + [if ok then Connect else ConnFail] <= events
              else status == old(status) && events == old(events)
    {
      if !status.Unconnected? {
        return;
      }
      if !ok {
        Emit(ConnFail);
        return;
      }
      status, writing := Connected, false;
      Emit(Connect);
    }

    method HandleRead(r: Received)
      requires Valid()
      modifies this
      ensures Valid() && Evolved() && Attended()
      ensures !old(status).Connected? || r.NothingYet? ==> Still() && events == old(events)
      ensures old(status).Connected? && r.Got? ==> old(events) + [Read(r.data)] <= events
      ensures old(Reaction()) == [] && r.Got? ==> Still()
      ensures old(status).Connected? && r.Ended? ==> status.Disconnected? && old(events) + [Close] <= events
      ensures old(status).Connected? && r.ReadFailed? ==> status.Disconnected? && old(events) + [Error] <= events
    {
      if !status.Connected? {
        return;
      }
      match r {
        case Got(data) => Emit(Read(data));
        case Ended => HandleClose();
        case NothingYet =>
        case ReadFailed => HandleError();
      }
    }

    /** `onHandler` */
    method OnHandler(read: Option<Received>, write: bool, error: bool)
      requires Valid()
      modifies this
      ensures Valid() && Evolved() && Attended()
      ensures error ==> status.Disconnected? && Reported(Error)
      ensures read.Some? && old(status).Connected? ==>
                match read.value
                case Got(data) => old(events) + [Read(data)] <= events
                case Ended => status.Disconnected? && old(events) + [Close] <= events
                case NothingYet => true
                case ReadFailed => status.Disconnected? && old(events) + [Error] <= events
      ensures write && !error && !old(status).Connecting? && (read.None? || (read.value.Got? && old(Reaction()) == [])) ==>
                Wrote("")
    {
      if read.Some? {
        HandleRead(read.value);
      }
      if write && !status.Connecting? {
        if !failed { assert wire + sendBuffer + "" == wire + sendBuffer; }
        HandleWrite("");
      }
      if error {
        HandleError();
      }
    }

    /** Any run at all: the bytes on the wire and the send buffer make up what
        was accepted until a write fails for good; the status never moves back;
        the connection is closed once, and reported closed at most once. */
    method Live(happenings: seq<Happening>)
      requires Valid()
      modifies this
      ensures Valid() && Evolved() && Attended()
    {
      var i := 0;
      while i < |happenings|
        invariant Valid() && Evolved() && Attended()
      {
        match happenings[i] {
          case Establish => OnEstablished();
          case ConnectTo(ok) => ConnectTo(ok);
          case Ready(read, write, error) => OnHandler(read, write, error);
          case Ask(operation) => React([operation]);
          case Timer => HandleClose();
        }
        i := i + 1;
      }
    }
  }

  /** What the callback sends when a write is complete is buffered without an
      event to send it: the interest in one is given up after the callback. */
  method Stalls() returns (conn: Conn)
    ensures conn.status.Connected? && conn.sendBuffer != "" && !conn.writing
  {
    conn := new Conn([Took(1)], [[], [Send("b")]]);
    conn.OnEstablished();
    var _ := conn.Transmit("a");
  }
}
