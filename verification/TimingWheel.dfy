/** The timing wheel: handlers in a ring of buckets, against an agenda that
  writes down the tick at which each of them is due. */
module TimingWheel {
  import opened Common

  type Handler = nat

  /** A call of `add`, made by a handler when it fires. */
  datatype Request = Request(handler: Handler, timeout: nat)

  /** A handler and the number of ticks before the one in which it is to fire. */
  datatype Entry = Entry(due: nat, handler: Handler)

  /** The two halves of the 64-bit value that `add` returns. */
  datatype Slot = Slot(bucket: nat, id: nat)

  /** What is due in tick `t`, in the order in which it was added. */
  function DueAt(agenda: seq<Entry>, t: nat): seq<Handler> {
    if agenda == [] then []
    else
      var rest, last := DueAt(agenda[..|agenda| - 1], t), agenda[|agenda| - 1];
      if last.due == t then rest + [last.handler] else rest
  }

  lemma DueSnoc(agenda: seq<Entry>, e: Entry, t: nat)
    ensures DueAt(agenda + [e], t) == if e.due == t then DueAt(agenda, t) + [e.handler] else DueAt(agenda, t)
  {
    assert (agenda + [e])[..|agenda|] == agenda;
  }

  /** Entries are only ever appended: what is due in a tick stays in its place. */
  lemma {:induction false} DueGrows(agenda: seq<Entry>, later: seq<Entry>, t: nat)
    requires agenda <= later
    ensures DueAt(agenda, t) <= DueAt(later, t)
    decreases |later|
  {
    if agenda != later {
      var init, last := later[..|later| - 1], later[|later| - 1];
      assert later == init + [last] && agenda <= init;
      DueGrows(agenda, init, t);
      DueSnoc(init, last, t);
    }
  }

  lemma {:induction false} NoneDue(agenda: seq<Entry>, t: nat)
    requires forall e <- agenda :: e.due != t
    ensures DueAt(agenda, t) == []
  {
    if agenda != [] {
      var last := agenda[|agenda| - 1];
      assert last in agenda && forall e <- agenda[..|agenda| - 1] :: e in agenda;
      NoneDue(agenda[..|agenda| - 1], t);
    }
  }

  lemma AtLeast(n: nat, k: int)
    requires k >= 1
    ensures n * k >= n
  {
  }

  lemma Unique(n: nat, x: nat, q: int, r: nat)
    requires r < n && x == n * q + r
    ensures x % n == r
  {
    var p, m := x / n, x % n;
    assert x == n * p + m;
    Distribute(n, q, p);
    Distribute(n, p, q);
    NoMultiple(n, q - p, m - r);
    NoMultiple(n, p - q, r - m);
  }

  /** Ticks less than a turn apart are in different buckets. */
  lemma Apart(s: nat, t: nat, n: nat)
    requires n > 0 && s < t < s + n
    ensures s % n != t % n
  {
    if s % n == t % n {
      var p, q := s / n, t / n;
      assert s == n * p + s % n && t == n * q + t % n;
      Distribute(n, q, p);
      NoMultiple(n, q - p, t - s);
    }
  }

  lemma Distribute(n: nat, q: int, p: int)
    ensures n * (q - p) == n * q - n * p
  {
  }

  /** No multiple lies strictly between zero and `n`. */
  lemma NoMultiple(n: nat, k: int, d: int)
    requires d == n * k
    ensures !(0 < d < n)
  {
    if k >= 1 {
      AtLeast(n, k);
    } else {
      AtLeast(n, 1 - k);
      Distribute(n, 1, k);
    }
  }

  /** The bucket `q` places on from that of tick `t`. */
  lemma BucketOf(t: nat, q: nat, n: nat)
    requires n > 0
    ensures (t % n + q) % n == (t + q) % n
  {
    var w := t % n + q;
    assert t == n * (t / n) + t % n && w == n * (w / n) + w % n;
    assert n * (t / n + w / n) == n * (t / n) + n * (w / n);
    Unique(n, t + q, t / n + w / n, w % n);
  }

  lemma OneBucket(s: nat, t: nat, n: nat)
    requires n > 0 && s < t + n && t < s + n
    ensures s % n == t % n <==> s == t
  {
    if s < t { Apart(s, t, n); } else if t < s { Apart(t, s, n); }
  }

  lemma FullTurn(t: nat, n: nat)
    requires n > 0
    ensures (t + n) % n == t % n
  {
    assert t == n * (t / n) + t % n && n * (t / n + 1) == n * (t / n) + n;
    Unique(n, t + n, t / n + 1, t % n);
  }

  lemma Mono(interval: nat, q: nat, n: nat)
    requires q >= n
    ensures interval * q >= interval * n
  {
  }

  lemma WithinTurn(timeout: nat, interval: nat, n: nat)
    requires interval > 0 && timeout < interval * n
    ensures timeout / interval < n
  {
    var q := timeout / interval;
    assert timeout == interval * q + timeout % interval;
    if q >= n { Mono(interval, q, n); }
  }

  // --------------------------------------------------- what the agenda says

  lemma {:induction false} DueMembers(agenda: seq<Entry>, t: nat, h: Handler)
    ensures h in DueAt(agenda, t) <==> Entry(t, h) in agenda
    decreases |agenda|
  {
    if agenda != [] {
      var init, last := agenda[..|agenda| - 1], agenda[|agenda| - 1];
      assert agenda == init + [last];
      DueMembers(init, t, h);
      DueSnoc(init, last, t);
    }
  }

  /** A handler that was added once is called in the tick it is due in and in
      no other. */
  lemma FiresThen(agenda: seq<Entry>, fired: seq<seq<Handler>>, e: Entry, t: nat)
    requires Kept(fired, agenda) && e in agenda && t < |fired|
    requires forall d <- agenda :: d.handler == e.handler ==> d == e
    ensures e.handler in fired[t] <==> t == e.due
  {
    DueMembers(agenda, t, e.handler);
  }

  /** A slot locates its handler until it fires. */
  lemma SlotLocates(buckets: seq<seq<Handler>>, before: seq<Entry>, due: nat, h: Handler, now: seq<Entry>, ticks: nat, n: nat)
    requires Holds(buckets, now, ticks, n) && before + [Entry(due, h)] <= now && ticks <= due < ticks + n
    ensures var slot := Slot(due % n, |DueAt(before, due)|);
            slot.id < |buckets[slot.bucket]| && buckets[slot.bucket][slot.id] == h
  {
    DueSnoc(before, Entry(due, h), due);
    DueGrows(before + [Entry(due, h)], now, due);
  }

  // --------------------------------------------------------------- the ring

  /** The buckets hold what is due in the `n` ticks from `ticks` on. */
  ghost predicate Holds(buckets: seq<seq<Handler>>, agenda: seq<Entry>, ticks: nat, n: nat) {
    n > 0 && |buckets| == n && forall t :: ticks <= t < ticks + n ==> buckets[t % n] == DueAt(agenda, t)
  }

  lemma AddSoon(buckets: seq<seq<Handler>>, agenda: seq<Entry>, ticks: nat, n: nat, q: nat, h: Handler)
    requires Holds(buckets, agenda, ticks, n) && q < n
    ensures var b := (ticks + q) % n;
            Holds(buckets[b := buckets[b] + [h]], agenda + [Entry(ticks + q, h)], ticks, n)
  {
    var b, e := (ticks + q) % n, Entry(ticks + q, h);
    var now := buckets[b := buckets[b] + [h]];
    forall t | ticks <= t < ticks + n
      ensures now[t % n] == DueAt(agenda + [e], t)
    {
      DueSnoc(agenda, e, t);
      OneBucket(t, ticks + q, n);
    }
  }

  lemma AddLate(buckets: seq<seq<Handler>>, agenda: seq<Entry>, ticks: nat, n: nat, h: Handler)
    requires Holds(buckets, agenda, ticks, n)
    ensures Holds(buckets, agenda + [Entry(ticks + n, h)], ticks, n)
  {
    forall t | ticks <= t < ticks + n
      ensures buckets[t % n] == DueAt(agenda + [Entry(ticks + n, h)], t)
    {
      DueSnoc(agenda, Entry(ticks + n, h), t);
    }
  }

  /** A tick later, the bucket just emptied stands for the end of the turn. */
  lemma NextTurn(buckets: seq<seq<Handler>>, agenda: seq<Entry>, ticks: nat, n: nat, last: seq<Handler>)
    requires Holds(buckets, agenda, ticks, n) && last == DueAt(agenda, ticks + n)
    ensures Holds(buckets[ticks % n := last], agenda, ticks + 1, n)
  {
    forall t | ticks + 1 <= t < ticks + 1 + n
      ensures buckets[ticks % n := last][t % n] == DueAt(agenda, t)
    {
      if t == ticks + n { FullTurn(ticks, n); } else { Apart(ticks, t, n); }
    }
  }

  /** What was fired stays what was due, whatever is added for later. */
  ghost predicate Kept(fired: seq<seq<Handler>>, agenda: seq<Entry>) {
    forall t :: 0 <= t < |fired| ==> fired[t] == DueAt(agenda, t)
  }

  lemma AddKeeps(fired: seq<seq<Handler>>, agenda: seq<Entry>, e: Entry)
    requires Kept(fired, agenda) && e.due >= |fired|
    ensures Kept(fired, agenda + [e])
  {
    forall t | 0 <= t < |fired| ensures fired[t] == DueAt(agenda + [e], t) { DueSnoc(agenda, e, t); }
  }

  class Wheel {
    const interval: nat
    const maxBuckets: nat
    const reacts: Handler -> seq<Request>
    var nextBucket: nat
    var onTimer: bool
    var buckets: seq<seq<Handler>>
    var curBucket: seq<Handler>
    ghost var ticks: nat                 // completed
    ghost var agenda: seq<Entry>         // everything ever added
    var fired: seq<seq<Handler>>         // the handlers called, tick by tick

    /** The buckets are the agenda for the turn to come. */
    ghost predicate Refines()
      reads this
    {
      interval > 0 && maxBuckets > 0 && nextBucket == ticks % maxBuckets && Holds(buckets, agenda, ticks, maxBuckets)
    }

    /** Between two ticks: those so far have fired what was due in them. */
    ghost predicate Valid()
      reads this
    {
      Refines() && !onTimer && |fired| == ticks && Kept(fired, agenda) &&
      forall e <- agenda :: e.due < ticks + maxBuckets
    }

    /** Inside a tick: what is put off by a whole turn waits apart. */
    ghost predicate Ticking()
      reads this
    {
      Refines() && onTimer && |fired| == ticks && Kept(fired, agenda) &&
      curBucket == DueAt(agenda, ticks + maxBuckets) && forall e <- agenda :: e.due <= ticks + maxBuckets
    }

    constructor (interval: nat, maxBuckets: nat, reacts: Handler -> seq<Request>)
      requires interval > 0 && maxBuckets > 0
      ensures Valid() && ticks == 0 && agenda == [] && this.interval == interval && this.maxBuckets == maxBuckets && this.reacts == reacts
    {
      this.interval, this.maxBuckets, this.reacts := interval, maxBuckets, reacts;
      nextBucket, onTimer, curBucket, ticks, agenda, fired := 0, false, [], 0, [], [];
      buckets := seq(maxBuckets, _ => []);
    }

    /** The tick in which a handler that is added now is to fire: in q whole
        intervals the q+1st tick from now; inside a tick the qth, or after a
        whole turn if q is zero. */
    ghost function Due(timeout: nat): nat
      requires interval > 0
      reads this`ticks, this`onTimer
    {
      var q := timeout / interval;
      if onTimer && q == 0 then ticks + maxBuckets else ticks + q
    }

    /** `add`: the slot, or nothing if the timeout is too long. */
    method Add(handler: Handler, timeout: nat) returns (slot: Option<Slot>)
      requires Valid() || Ticking()
      modifies this`curBucket, this`buckets, this`agenda
      ensures if onTimer then Ticking() else Valid()
      ensures timeout >= interval * maxBuckets ==> slot.None? && agenda == old(agenda)
      ensures timeout < interval * maxBuckets ==>
                agenda == old(agenda) + [Entry(Due(timeout), handler)] &&
                slot == Some(Slot(Due(timeout) % maxBuckets, |DueAt(old(agenda), Due(timeout))|))
    {
      if timeout >= interval * maxBuckets {
        return None;
      }
      var q := timeout / interval;
      WithinTurn(timeout, interval, maxBuckets);
      BucketOf(ticks, q, maxBuckets);
      slot := Put(handler, q, (nextBucket + q) % maxBuckets);
    }

    /** The handler goes to its bucket, or waits for the next turn. */
    method Put(handler: Handler, q: nat, bucket: nat) returns (slot: Option<Slot>)
      requires (Valid() || Ticking()) && q < maxBuckets && bucket == (ticks + q) % maxBuckets
      modifies this`curBucket, this`buckets, this`agenda
      ensures if onTimer then Ticking() else Valid()
      ensures var due := if onTimer && q == 0 then ticks + maxBuckets else ticks + q;
              agenda == old(agenda) + [Entry(due, handler)] && slot == Some(Slot(due % maxBuckets, |DueAt(old(agenda), due)|))
    {
      if q > 0 { Apart(ticks, ticks + q, maxBuckets); }
      if onTimer && bucket == nextBucket {
        slot := Later(handler);
      } else {
        slot := Sooner(handler, q, bucket);
      }
    }

    method Later(handler: Handler) returns (slot: Option<Slot>)
      requires Ticking()
      modifies this`curBucket, this`agenda
      ensures Ticking() && agenda == old(agenda) + [Entry(ticks + maxBuckets, handler)]
      ensures slot == Some(Slot((ticks + maxBuckets) % maxBuckets, |DueAt(old(agenda), ticks + maxBuckets)|))
    {
      ghost var e := Entry(ticks + maxBuckets, handler);
      FullTurn(ticks, maxBuckets);
      AddKeeps(fired, agenda, e);
      DueSnoc(agenda, e, e.due);
      AddLate(buckets, agenda, ticks, maxBuckets, handler);
      slot := Some(Slot(nextBucket, |curBucket|));
      curBucket := curBucket + [handler];
      agenda := agenda + [e];
    }

    method Sooner(handler: Handler, q: nat, bucket: nat) returns (slot: Option<Slot>)
      requires (Valid() || (Ticking() && q > 0)) && q < maxBuckets && bucket == (ticks + q) % maxBuckets
      modifies this`buckets, this`agenda
      ensures if onTimer then Ticking() else Valid()
      ensures agenda == old(agenda) + [Entry(ticks + q, handler)]
      ensures slot == Some(Slot(bucket, |DueAt(old(agenda), ticks + q)|))
    {
      ghost var e := Entry(ticks + q, handler);
      AddKeeps(fired, agenda, e);
      DueSnoc(agenda, e, ticks + maxBuckets);
      AddSoon(buckets, agenda, ticks, maxBuckets, q, handler);
      slot := Some(Slot(bucket, |buckets[bucket]|));
      buckets := buckets[bucket := buckets[bucket] + [handler]];
      agenda := agenda + [e];
    }

    /** A handler is called: it may call `add` any number of times. */
    method Fire(handler: Handler)
      requires Ticking()
      modifies this`curBucket, this`buckets, this`agenda
      ensures Ticking() && old(agenda) <= agenda && DueAt(agenda, ticks) == DueAt(old(agenda), ticks)
    {
      var requests := reacts(handler);
      var i := 0;
      while i < |requests|
        invariant i <= |requests| && Ticking() && old(agenda) <= agenda && DueAt(agenda, ticks) == DueAt(old(agenda), ticks)
      {
        var r := requests[i];
        if r.timeout < interval * maxBuckets { DueSnoc(agenda, Entry(Due(r.timeout), r.handler), ticks); }
        var _ := Add(r.handler, r.timeout);
        i := i + 1;
      }
    }

    /** `onTimer`: calls what is due, in the order in which it was added. */
    method OnTimer()
      requires Valid()
      modifies this`curBucket, this`buckets, this`agenda, this`onTimer, this`nextBucket, this`ticks, this`fired
      ensures Valid() && ticks == old(ticks) + 1 && old(agenda) <= agenda
      ensures fired == old(fired) + [DueAt(old(agenda), old(ticks))]
    {
      var chans := DueNow();
      if chans != [] {
        NoneDue(agenda, ticks + maxBuckets);
        curBucket, onTimer := [], true;
        FireAll(chans);
      }
      Finish(chans);
    }

    method DueNow() returns (chans: seq<Handler>)
      requires Valid()
      ensures chans == DueAt(agenda, ticks)
    {
      chans := buckets[nextBucket];
    }

    /** The loop of `onTimer`; the handlers it runs over stay as they are. */
    method FireAll(chans: seq<Handler>)
      requires Ticking() && DueAt(agenda, ticks) == chans
      modifies this`curBucket, this`buckets, this`agenda
      ensures Ticking() && DueAt(agenda, ticks) == chans && old(agenda) <= agenda
    {
      var i := 0;
      while i < |chans|
        invariant i <= |chans| && Ticking() && DueAt(agenda, ticks) == chans && old(agenda) <= agenda
      {
        Fire(chans[i]);
        i := i + 1;
      }
    }

    /** The end of a tick: the handlers put off take the place of those called. */
    method Finish(calls: seq<Handler>)
      requires (Ticking() || (Valid() && DueAt(agenda, ticks) == [])) && calls == DueAt(agenda, ticks)
      modifies this`buckets, this`onTimer, this`nextBucket, this`ticks, this`fired
      ensures Valid() && ticks == old(ticks) + 1 && fired == old(fired) + [calls]
    {
      NextTurn(buckets, agenda, ticks, maxBuckets, DueAt(agenda, ticks + maxBuckets));
      BucketOf(ticks, 1, maxBuckets);
      if onTimer {
        buckets := buckets[nextBucket := curBucket];
        onTimer := false;
      } else {
        NoneDue(agenda, ticks + maxBuckets);
        assert buckets == buckets[nextBucket := []];
      }
      nextBucket := (nextBucket + 1) % maxBuckets;
      fired := fired + [calls];
      ticks := ticks + 1;
    }
  }
}
