/** The read side of a Redis connection: every piece of input is fed to the
  reader, which is then drained. */
module RedisConnection {
  import opened Common
  import opened RedisGrammar
  import opened RedisWire
  import opened RedisMachine
  import opened RedisReader

  class Connection {
    const reader: Reader
    var errors: nat                     // error callbacks made
    ghost var fed: string               // all input so far
    ghost var delivered: seq<Reply>     // the trees handed to the reply callback

    /** The reader stands where draining all input at once would leave it. */
    ghost predicate Synced()
      reads this, reader, reader.rstack, reader.live, reader.closed
    {
      reader.Valid() && reader.Settled() &&
      Agrees(Drain([], fed))
    }

    ghost predicate Agrees(d: Drained)
      reads this, reader, reader.rstack
    {
      delivered == d.replies && Stopped(d.status)
    }

    ghost predicate Stopped(st: Status)
      reads reader, reader.rstack
    {
      reader.pos <= |reader.buf| && (reader.ridx == -1 || 0 <= reader.ridx < reader.rstack.Length) &&
      match st
      case Waiting(fs, rest) => reader.err == 0 && !reader.halted && reader.frames == fs && reader.Rest() == rest
      case Failed(e) => reader.err == ERR_PROTOCOL && reader.error == Some(e) && !reader.halted
      case Overflowed => reader.err == 0 && reader.halted
    }

    constructor ()
      ensures Synced() && fed == "" && delivered == [] && errors == 0
      ensures fresh(this) && fresh(reader) && fresh(reader.rstack) && fresh(reader.live)
    {
      reader := new Reader();
      errors := 0;
      fed, delivered := "", [];
    }

    /** After any number of pieces, cut anywhere, the trees delivered and the
        state of the reader are what the grammar reads from the whole input. */
    method HandleRead(data: string)
      requires Synced()
      modifies this, reader, reader.rstack, reader.live
      ensures Synced() && fresh(reader.live - old(reader.live))
      ensures fed == old(fed) + data
      ensures ParseStream(fed).replies == delivered
      ensures ParseStream(fed).ending == AwaitingMore <==> reader.err == 0 && !reader.halted
      ensures forall e :: ParseStream(fed).ending == ProtocolFailure(e) <==> reader.error == Some(e)
      ensures errors == if reader.err == 0 then old(errors) else old(errors) + 1
    {
      DrainIsParse(fed + data);
      var ok := Receive(data);
      if ok {
        ok := DrainReplies(Drain([], fed));
      }
      if !ok && reader.err != 0 {
        errors := errors + 1;
      }
    }

    method Receive(data: string) returns (ok: bool)
      requires Synced()
      modifies this`fed, reader`buf, reader`avail, reader`pos
      ensures reader.Valid() && reader.Settled() && fed == old(fed) + data && reader.live == old(reader.live)
      ensures if ok then reader.err == 0 && !reader.halted && Left(Drain([], fed)) else Agrees(Drain([], fed))
    {
      DrainAppend([], fed, data);
      ok := reader.Feed(data);
      assert this !in reader.live && this !in reader.closed;
      fed := fed + data;
    }

    /** Hand over one reply after the other until there is none. */
    method DrainReplies(ghost whole: Drained) returns (ok: bool)
      requires reader.Valid() && reader.Settled() && reader.err == 0 && !reader.halted
      requires Left(whole)
      modifies this`delivered, reader, reader.rstack, reader.live
      ensures reader.Valid() && reader.Settled() && fresh(reader.live - old(reader.live))
      ensures Agrees(whole) && ok == (reader.err == 0 && !reader.halted)
    {
      while true
        invariant reader.Valid() && reader.Settled() && reader.err == 0 && !reader.halted
        invariant fresh(reader.live - old(reader.live))
        invariant Left(whole)
        decreases |reader.Rest()|
      {
        var reply;
        ok, reply := NextReply();
        if reply == null {
          return;
        }
        OneFewer(delivered, reply.value, Drain(reader.frames, reader.Rest()));
        Deliver(reply);
      }
    }

    /** The reply callback. */
    method Deliver(reply: ReplyObject)
      requires reader.Valid()
      modifies this`delivered
      ensures delivered == old(delivered) + [reply.value]
      ensures reader.Valid() && Drain(reader.frames, reader.Rest()) == old(Drain(reader.frames, reader.Rest()))
    {
      assert this !in reader.live && this !in reader.closed;
      delivered := delivered + [reply.value];
    }

    /** What is still to be delivered completes `whole`. */
    ghost predicate Left(whole: Drained)
      requires reader.Valid()
      reads this, reader, reader.rstack, reader.live, reader.closed
    {
      var d := Drain(reader.frames, reader.Rest());
      whole == Drained(delivered + d.replies, d.status)
    }

    method NextReply() returns (ok: bool, reply: ReplyObject?)
      requires reader.Valid() && reader.Settled() && reader.err == 0 && !reader.halted
      modifies reader, reader.rstack, reader.live
      ensures reader.Valid() && reader.Settled() && fresh(reader.live - old(reader.live))
      ensures ok == (reader.err == 0 && !reader.halted)
      ensures var d := old(Drain(reader.frames, reader.Rest()));
              if reply == null then d.replies == [] && Stopped(d.status)
              else ok && |reader.Rest()| < old(|reader.Rest()|) &&
                   var e := Drain(reader.frames, reader.Rest()); d == Drained([reply.value] + e.replies, e.status)
    {
      DrainFirst(reader.frames, reader.Rest());
      ok, reply := reader.GetReply();
    }
  }

  lemma OneFewer(before: seq<Reply>, v: Reply, d: Drained)
    ensures before + ([v] + d.replies) == before + [v] + d.replies
  {
  }

  ghost predicate Ends(c: Connection, ending: Ending)
    reads c, c.reader
  {
    (ending == AwaitingMore <==> c.reader.err == 0 && !c.reader.halted) &&
    (forall e :: ending == ProtocolFailure(e) <==> c.reader.error == Some(e)) && (ending.ProtocolFailure? <==> c.reader.err != 0)
  }

  /** A connection on which pieces of some input come in. */
  method Receives(pieces: seq<string>) returns (c: Connection)
    ensures fresh(c) && fresh(c.reader) && c.Synced() && c.fed == Flatten(pieces)
    ensures ParseStream(c.fed).replies == c.delivered
    ensures Ends(c, ParseStream(c.fed).ending)
    ensures c.reader.err == 0 ==> c.errors == 0
    ensures c.reader.err != 0 ==> c.errors > 0
  {
    c := new Connection();
    var i := 0;
    assert pieces[..0] == [];
    DrainIsParse("");
    while i < |pieces|
      invariant 0 <= i <= |pieces| && c.Synced()
      invariant fresh(c) && fresh(c.reader) && fresh(c.reader.rstack) && fresh(c.reader.live)
      invariant c.fed == Flatten(pieces[..i]) && Ends(c, ParseStream(c.fed).ending)
      invariant c.reader.err == 0 ==> c.errors == 0
      invariant c.reader.err != 0 ==> c.errors > 0
    {
      NextPiece(pieces, i);
      ErrorStays(c.fed, pieces[i]);
      c.HandleRead(pieces[i]);
      i := i + 1;
    }
    assert pieces[..i] == pieces;
    DrainIsParse(c.fed);
  }

  lemma NextPiece(pieces: seq<string>, i: nat)
    requires i < |pieces|
    ensures Flatten(pieces[..i + 1]) == Flatten(pieces[..i]) + pieces[i]
  {
    assert pieces[..i + 1] == pieces[..i] + [pieces[i]];
    FlattenSnoc(pieces[..i], pieces[i]);
  }
  /** Replies written by a peer, in any spelling, and cut into pieces at any
      positions arrive as the same list of trees. */
  method Session(pieces: seq<string>, ghost ws: seq<Wire>) returns (c: Connection)
    requires AllSendable(ws, 0) && Flatten(pieces) == EncodeAll(ws)
    ensures c.delivered == Meanings(ws) && c.reader.err == 0 && c.errors == 0
  {
    StreamRoundTrip(ws);
    c := Receives(pieces);
  }

  /** Input that breaks off the protocol: the replies before that are delivered,
      and the error is reported. */
  method BrokenSession(pieces: seq<string>, ghost ws: seq<Wire>, ghost x: string, ghost e: ProtocolError) returns (c: Connection)
    requires AllSendable(ws, 0) && Breaks(x, e) && Flatten(pieces) == EncodeAll(ws) + x
    ensures c.delivered == Meanings(ws) && c.reader.error == Some(e) && c.errors > 0
  {
    StreamBreaks(ws, x, e);
    c := Receives(pieces);
  }

  /** An error stays. */
  lemma ErrorStays(a: string, b: string)
    ensures ParseStream(a).ending != AwaitingMore ==> ParseStream(a + b).ending == ParseStream(a).ending
  {
    DrainIsParse(a);
    DrainIsParse(a + b);
    DrainAppend([], a, b);
  }

  /** A prefix of well-formed input is never an error. */
  lemma PrefixAwaits(a: string, b: string, ws: seq<Wire>)
    requires AllSendable(ws, 0) && a + b == EncodeAll(ws)
    ensures ParseStream(a).ending == AwaitingMore
  {
    StreamRoundTrip(ws);
    ErrorStays(a, b);
  }
}
