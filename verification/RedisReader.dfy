/** The incremental RESP reader: a growing buffer, nine read tasks and reply
  trees filled in place through the parent task's object. */
module RedisReader {
  import opened Common
  import opened RedisGrammar
  import opened RedisMachine
  import Sds

  // REDIS_REPLY_* and REDIS_ERR_*
  const REPLY_UNSET: int := -1
  const REPLY_STRING: int := 1
  const REPLY_ARRAY: int := 2
  const REPLY_INTEGER: int := 3
  const REPLY_NIL: int := 4
  const REPLY_STATUS: int := 5
  const REPLY_ERROR: int := 6
  const ERR_PROTOCOL: int := 4

  const READER_MAX_BUF: int := 16 * 1024
  const DISCARD_THRESHOLD: int := 1024
  const TASKS: nat := 9

  /** A reply node. `value` and `repr` are what the finished node stands for
      and the objects it may reach; they are set when it is finished. */
  class ReplyObject {
    var kind: int
    var integer: int
    var len: int
    var str: string
    var elements: int
    var element: array?<ReplyObject?>
    ghost var value: Reply
    ghost var repr: set<object>

    /** The subtree rooted here is finished and spells `value`. */
    ghost predicate Complete()
      reads this, repr
      decreases repr
    {
      this in repr &&
      match value
      case Status(t) => kind == REPLY_STATUS && str == t && len == ToInt32(|t|)
      case Failure(t) => kind == REPLY_ERROR && str == t && len == ToInt32(|t|)
      case Bulk(t) => kind == REPLY_STRING && str == t && len == ToInt32(|t|)
      case Integer(n) => kind == REPLY_INTEGER && integer == n
      case Nil => kind == REPLY_NIL
      case NegativeArray(n) => kind == REPLY_ARRAY && element == null && elements == TWO_64 + n
      case Array(vs) =>
        kind == REPLY_ARRAY && elements == |vs| &&
        if vs == [] then element == null
        else
          element != null && element in repr && element.Length == |vs| &&
          forall j | 0 <= j < |vs| ::
            var e := element[j];
            e != null && e in repr && e.repr <= repr - {this} && e.value == vs[j] && e.Complete()
    }

    constructor String(kind: int, text: string)
      requires kind == REPLY_STATUS || kind == REPLY_ERROR || kind == REPLY_STRING
      ensures fresh(this) && repr == {this} && Complete()
      ensures value == if kind == REPLY_STATUS then Status(text)
                       else if kind == REPLY_ERROR then Failure(text) else Bulk(text)
    {
      this.kind, str, len, element := kind, text, ToInt32(|text|), null;
      value := if kind == REPLY_STATUS then Status(text)
               else if kind == REPLY_ERROR then Failure(text) else Bulk(text);
      repr := {this};
    }

    constructor Number(n: int)
      ensures fresh(this) && repr == {this} && Complete() && value == Integer(n)
    {
      kind, integer, element, value := REPLY_INTEGER, n, null, Integer(n);
      repr := {this};
    }

    constructor Null()
      ensures fresh(this) && repr == {this} && Complete() && value == Nil
    {
      kind, element, value := REPLY_NIL, null, Nil;
      repr := {this};
    }

    /** An array node: `elements` null slots, or no vector at all. */
    constructor Array(n: int)
      requires INT_MIN <= n <= INT_MAX
      ensures fresh(this) && kind == REPLY_ARRAY
      ensures n > 0 ==> element != null && fresh(element) && elements == n == element.Length
      ensures n <= 0 ==> repr == {this} && Complete()
      ensures n <= 0 ==> value == if n == 0 then Reply.Array([]) else NegativeArray(n)
    {
      var slots: array?<ReplyObject?> := null;
      if n > 0 {
        slots := new ReplyObject?[n](_ => null);
      }
      kind, element := REPLY_ARRAY, slots;
      elements := if n < 0 then TWO_64 + n else n;
      value := if n >= 0 then Reply.Array([]) else NegativeArray(n);
      repr := {this};
    }
  }

  /** One entry of the task stack; `parent` is the index of the parent task. */
  datatype Task = Task(kind: int, elements: int, idx: int, obj: ReplyObject?, parent: int)

  const FRESH_TASK: Task := Task(REPLY_UNSET, REPLY_UNSET, -1, null, -1)

  /** The type byte a task has already consumed. */
  function TypeByte(kind: int): string {
    if kind == REPLY_ERROR then "-"
    else if kind == REPLY_STATUS then "+"
    else if kind == REPLY_INTEGER then ":"
    else if kind == REPLY_STRING then "$"
    else if kind == REPLY_ARRAY then "*"
    else ""
  }

  predicate IsKind(kind: int) {
    kind == REPLY_UNSET || TypeByte(kind) != ""
  }

  /** Position of the first CRLF, as the two nested scanning loops find it. A CR
      in last place is followed by the terminating NUL of the buffer. */
  method SeekNewline(s: string) returns (r: Option<nat>)
    ensures r == FirstCrlf(s)
  {
    var pos: nat := 0;
    var last := |s| - 1;
    while pos < last
      invariant pos <= |s|
      invariant forall j | 0 <= j < pos :: !IsCrlfAt(s, j)
    {
      while pos < last && s[pos] != '\r'
        invariant pos <= last
        invariant forall j | 0 <= j < pos :: !IsCrlfAt(s, j)
      {
        pos := pos + 1;
      }
      if s[pos] != '\r' {
        return None;
      } else if pos + 1 < |s| && s[pos + 1] == '\n' {
        FirstCrlfIs(s, pos);
        return Some(pos);
      }
      pos := pos + 1;
    }
    return None;
  }

  /** The value of the numeral at the head of `s`, which some CR must end.
      `None` stands for leaving the range of long long. */
  method ReadNumber(s: string) returns (r: Option<int>)
    requires '\r' in s
    ensures r == ReadLongLong(s)
  {
    var v: nat := 0;
    var mult := 1;
    var i := 0;
    if s[0] == '-' {
      mult := -1;
      i := 1;
    } else if s[0] == '+' {
      i := 1;
    }
    while s[i] != '\r'
      invariant 0 <= i < |s| && '\r' in s[i..]
      invariant ReadLongLong(s) == ReadDigits(s[i..], v, mult)
      decreases |s| - i
    {
      assert s[i..][1..] == s[i + 1..];
      if !IsDigit(s[i]) {
        return Some(-1);
      }
      var w := v * 10 + DigitValue(s[i]);
      if w > LLONG_MAX {
        return None;
      }
      v := w;
      i := i + 1;
    }
    return Some(mult * v);
  }

  /** Only the bytes before the first CR matter to a numeral. */
  lemma {:induction false} ReadDigitsPrefix(s: string, k: nat, v: nat, sign: int)
    requires k < |s| && s[k] == '\r'
    ensures ReadDigits(s[..k], v, sign) == ReadDigits(s, v, sign)
  {
    if k > 0 && s[0] != '\r' && IsDigit(s[0]) {
      var w := v * 10 + DigitValue(s[0]);
      assert s[..k][1..] == s[1..][..k - 1];
      if w <= LLONG_MAX { ReadDigitsPrefix(s[1..], k - 1, w, sign); }
    }
  }

  lemma ReadLongLongPrefix(s: string, k: nat)
    requires k < |s| && s[k] == '\r'
    ensures ReadLongLong(s[..k]) == ReadLongLong(s)
  {
    if k > 0 && (s[0] == '-' || s[0] == '+') {
      assert s[..k][1..] == s[1..][..k - 1];
      ReadDigitsPrefix(s[1..], k - 1, 0, if s[0] == '-' then -1 else 1);
    } else {
      ReadDigitsPrefix(s, k, 0, 1);
    }
  }

  class Reader {
    var err: int
    var error: Option<ProtocolError>
    var halted: bool            // a numeral left its C type: no defined behaviour from here on
    var buf: string
    var avail: int              // unused bytes of the buffer, as sdsavail reports them
    var pos: nat
    const rstack: array<Task>
    var ridx: int
    var reply: ReplyObject?

    ghost var frames: seq<Frame>        // what the task stack means
    ghost var objs: seq<ReplyObject>    // the unfinished array nodes, outermost first
    ghost var vecs: seq<array<ReplyObject?>>    // their element vectors
    ghost var live: set<object>         // those nodes and vectors
    ghost var closed: set<object>       // everything finished nodes may reach

    /** `o` is finished and spells `v`. */
    ghost predicate Holds(o: ReplyObject?, v: Reply)
      reads this`closed, closed
    {
      o != null && o in closed && o.repr <= closed && o.value == v && o.Complete()
    }

    /** Task `l` is an array whose first elements are finished. */
    ghost predicate Level(l: nat)
      reads this`frames, this`objs, this`vecs, this`live, this`closed, rstack, live, closed
    {
      l < |objs| == |vecs| == |frames| <= MAX_DEPTH < rstack.Length &&
      var t, o, e, f := rstack[l], objs[l], vecs[l], frames[l];
      t.kind == REPLY_ARRAY && t.obj == o && t.elements == f.count && t.parent == l as int - 1 &&
      (l > 0 ==> t.idx == |frames[l - 1].done|) &&
      o in live && o.kind == REPLY_ARRAY && o.elements == f.count &&
      e in live && o.element == e && e.Length == f.count && |f.done| < f.count &&
      (forall j | 0 <= j < |f.done| :: Holds(e[j], f.done[j])) &&
      (l + 1 < |objs| ==> e[|f.done|] == objs[l + 1])
    }

    static ghost predicate OnlyNodes(s: set<object>) {
      forall x | x in s :: x is ReplyObject || x is array<ReplyObject?>
    }

    ghost predicate Stack()
      reads this`frames, this`objs, this`vecs, this`live, this`closed, rstack, live, closed
    {
      |objs| == |vecs| == |frames| <= MAX_DEPTH && rstack.Length == TASKS &&
      live !! closed &&
      OnlyNodes(live) && OnlyNodes(closed) &&
      (forall l | 0 <= l < |objs| :: Level(l)) &&
      (forall l, m | 0 <= l < m < |objs| :: objs[l] != objs[m]) &&
      (forall l, m | 0 <= l < m < |vecs| :: vecs[l] != vecs[m])
    }

    /** The slot the innermost open array fills next. */
    ghost function Slot(): ReplyObject?
      requires Stack() && objs != []
      reads this`frames, this`objs, this`vecs, this`live, this`closed, rstack, live, closed
    {
      assert Level(|objs| - 1);
      vecs[|vecs| - 1][|Last(frames).done|]
    }

    twostate lemma HoldsKept(new o: ReplyObject?, v: Reply)
      requires o != null ==> old(allocated(o))
      requires old(Holds(o, v))
      requires old(closed) <= closed && forall x | x in old(closed) :: unchanged(x)
      ensures Holds(o, v)
    {
    }

    twostate lemma LevelKept(l: nat)
      requires old(Level(l)) && l < |objs| == |vecs| == |frames| <= MAX_DEPTH
      requires objs[l] == old(objs[l]) && vecs[l] == old(vecs[l]) && frames[l] == old(frames[l])
      requires l > 0 ==> frames[l - 1] == old(frames[l - 1])
      requires rstack[l] == old(rstack[l])
      requires objs[l] in live && vecs[l] in live && unchanged(objs[l]) && unchanged(vecs[l])
      requires old(closed) <= closed && forall x | x in old(closed) :: unchanged(x)
      requires l + 1 < |objs| ==> l + 1 < old(|objs|) && objs[l + 1] == old(objs[l + 1])
      ensures Level(l)
    {
      var e, f := vecs[l], frames[l];
      forall j | 0 <= j < |f.done| ensures Holds(e[j], f.done[j]) {
        HoldsKept(e[j], f.done[j]);
      }
    }

    /** The task now being read is a slot of the innermost open array. */
    ghost predicate Top()
      reads this, rstack, live, closed
    {
      ridx == |frames| && Stack() &&
      rstack[ridx].parent == ridx - 1 &&
      (ridx > 0 ==> rstack[ridx].idx == |frames[ridx - 1].done| && reply == objs[0])
    }

    ghost predicate Valid()
      reads this, rstack, live, closed
    {
      WellFormed(frames) && Stack() && pos <= |buf| &&
      ((ridx == -1 && frames == [] && reply == null) || (Top() && IsKind(rstack[ridx].kind) && (ridx == 0 ==> reply == null))) &&
      ((err != 0) <==> error.Some?) &&
      (err != 0 ==> err == ERR_PROTOCOL && ridx == -1)
    }

    /** The input not yet turned into items. */
    function Rest(): string
      requires pos <= |buf| && (ridx == -1 || 0 <= ridx < rstack.Length)
      reads this, rstack
    {
      (if ridx == -1 then "" else TypeByte(rstack[ridx].kind)) + buf[pos..]
    }

    constructor ()
      ensures Valid() && fresh(live) && fresh(rstack) && fresh(closed)
      ensures err == 0 && !halted && frames == [] && ridx == -1 && Rest() == ""
    {
      err, error, halted := 0, None, false;
      buf, avail, pos, ridx, reply := "", 0, 0, -1, null;
      rstack := new Task[TASKS](_ => FRESH_TASK);
      frames, objs, vecs, live, closed := [], [], [], {}, {};
    }

    /** Entries above the open arrays do not matter to them. */
    twostate lemma UpperTasksFree()
      requires old(Stack()) && objs == old(objs) && vecs == old(vecs) && frames == old(frames)
      requires live == old(live) && closed == old(closed)
      requires forall l | 0 <= l < |objs| :: rstack[l] == old(rstack[l])
      requires forall x | x in live :: unchanged(x)
      requires forall x | x in closed :: unchanged(x)
      ensures Stack()
    {
      forall l | 0 <= l < |objs| ensures Level(l) {
        assert old(Level(l));
        LevelKept(l);
      }
    }

    /** The next slot of the innermost array, not its last one, is filled with `v`. */
    ghost method FillSlot(v: Reply)
      requires WellFormed(frames) && frames != [] && Stack()
      requires |Last(frames).done| + 1 < Last(frames).count && Holds(Slot(), v)
      modifies this`frames
      ensures frames == Init(old(frames)) + [Frame(Last(old(frames)).count, Last(old(frames)).done + [v])]
      ensures Stack()
    {
      var n := |objs| - 1;
      var f := frames[n];
      assert Level(n);
      frames := frames[..n] + [Frame(f.count, f.done + [v])];
      forall l | 0 <= l < n ensures Level(l) {
        assert old(Level(l));
      }
    }

    /** Reuse the top task for the slot after the one `v` has just filled. */
    method NextSlot(ghost v: Reply)
      requires WellFormed(frames) && frames != [] && Top()
      requires |Last(frames).done| + 1 < Last(frames).count && Holds(Slot(), v)
      modifies this`frames, rstack
      ensures frames == Init(old(frames)) + [Frame(Last(old(frames)).count, Last(old(frames)).done + [v])]
      ensures Top() && rstack[ridx].kind == REPLY_UNSET
    {
      // of the next slot nothing is known yet
      var cur := rstack[ridx];
      rstack[ridx] := cur.(kind := REPLY_UNSET, elements := REPLY_UNSET, idx := cur.idx + 1);
      UpperTasksFree();
      FillSlot(v);
    }

    /** Go back to the parent task, whose array `v` has just completed. */
    method PopTask(ghost v: Reply) returns (ghost a: Reply)
      requires WellFormed(frames) && frames != [] && Top()
      requires |Last(frames).done| + 1 == Last(frames).count && Holds(Slot(), v)
      modifies this`ridx, this`frames, this`objs, this`vecs, this`live, this`closed, live
      ensures ridx == old(ridx) - 1
      ensures a == Array(Last(old(frames)).done + [v]) && frames == Init(old(frames)) && Top()
      ensures live <= old(live) && closed <= old(closed) + old(live) && old(closed) <= closed
      ensures if ridx > 0 then Holds(Slot(), a) else Holds(reply, a)
    {
      assert Level(ridx - 1);
      a := CloseArray(v);
      ridx := ridx - 1;
      if ridx > 0 { assert Level(ridx - 1); }
    }

    /** Leave the task that has just been finished for the next one, closing
        every array this completes. */
    method MoveToNextTask(ghost v: Reply)
      requires WellFormed(frames) && Top()
      requires ridx > 0 ==> Holds(Slot(), v)
      modifies this`ridx, this`frames, this`objs, this`vecs, this`live, this`closed, rstack, live
      ensures var p := Plug(old(frames), v);
              frames == p.frames && Stack() &&
              if p.emitted == [] then Top() && rstack[ridx].kind == REPLY_UNSET
              else ridx == -1 && (old(ridx) > 0 ==> Holds(reply, p.emitted[0]))
      ensures old(ridx) == 0 ==> closed == old(closed)
      ensures live <= old(live) && closed <= old(closed) + old(live) && old(closed) <= closed
    {
      ghost var cur := v;
      while ridx >= 0
        invariant 0 <= ridx <= old(ridx) && WellFormed(frames) && Top()
        invariant Plug(frames, cur) == Plug(old(frames), v)
        invariant ridx > 0 ==> Holds(Slot(), cur)
        invariant ridx == 0 < old(ridx) ==> Holds(reply, cur)
        invariant old(ridx) == 0 ==> closed == old(closed)
        invariant live <= old(live) && closed <= old(closed) + old(live) && old(closed) <= closed
        decreases ridx
      {
        if ridx == 0 {
          ridx := ridx - 1;
          return;
        }
        var c, p := rstack[ridx], rstack[ridx - 1];
        assert Level(ridx - 1);
        assert p.kind == REPLY_ARRAY;
        if c.idx == p.elements - 1 {
          cur := PopTask(cur);
        } else {
          assert c.idx < p.elements;
          NextSlot(cur);
          return;
        }
      }
    }

    /** The stack without its innermost array, once that array is finished. */
    twostate lemma PoppedStack(n: nat)
      requires old(Stack()) && n + 1 == old(|objs|)
      requires objs == old(objs)[..n] && vecs == old(vecs)[..n] && frames == old(frames)[..n]
      requires live == old(live) - {old(objs[n]), old(vecs[n])}
      requires closed == old(closed) + {old(objs[n]), old(vecs[n])}
      requires unchanged(rstack)
      requires forall x | x in old(closed) :: unchanged(x)
      requires forall x | x in live :: unchanged(x)
      ensures Stack()
    {
      assert old(Level(n));
      forall l | 0 <= l < n ensures Level(l) {
        assert old(Level(l));
        LevelKept(l);
      }
    }

    twostate lemma FilledArray(new o: ReplyObject, new e: array<ReplyObject?>, new f: Frame, new v: Reply)
      requires old(Stack()) && old(objs) != [] && old(Level(|objs| - 1))
      requires o == old(objs[|objs| - 1]) && e == old(vecs[|vecs| - 1]) && f == old(frames[|frames| - 1])
      requires |f.done| + 1 == f.count && old(Holds(e[|f.done|], v))
      requires closed == old(closed) + {o, e}
      requires o.repr == closed && o.value == Array(f.done + [v])
      requires unchanged(o`kind) && unchanged(o`elements) && unchanged(o`element) && unchanged(e)
      requires forall x | x in old(closed) :: unchanged(x)
      ensures Holds(o, Array(f.done + [v]))
    {
      var vs := f.done + [v];
      forall j | 0 <= j < |vs| ensures Holds(e[j], vs[j]) && e[j].repr <= old(closed) {
        assert old(Holds(e[j], vs[j]));
        HoldsKept(e[j], vs[j]);
      }
    }

    /** The innermost open array has got its last element `v`. */
    ghost method CloseArray(v: Reply) returns (a: Reply)
      requires WellFormed(frames) && frames != [] && Stack()
      requires |Last(frames).done| + 1 == Last(frames).count && Holds(Slot(), v)
      modifies this`frames, this`objs, this`vecs, this`live, this`closed, live
      ensures a == Array(Last(old(frames)).done + [v])
      ensures frames == Init(old(frames)) && objs == old(objs)[..|old(objs)| - 1] && Stack()
      ensures live <= old(live) && closed <= old(closed) + old(live) && old(closed) <= closed
      ensures Holds(old(objs)[|old(objs)| - 1], a)
      ensures frames != [] ==> Holds(Slot(), a)
    {
      var n := |objs| - 1;
      var o, e, f := objs[n], vecs[n], frames[n];
      assert Level(n);
      a := Array(f.done + [v]);
      if n > 0 { assert Level(n - 1); }
      PopArray(o, e, a);
      FilledArray(o, e, f, v);
    }

    /** The innermost array is no longer open; its node gets the value `a`. */
    ghost method PopArray(o: ReplyObject, e: array<ReplyObject?>, a: Reply)
      requires Stack() && objs != [] && Level(|objs| - 1)
      requires o == objs[|objs| - 1] && e == vecs[|objs| - 1]
      modifies this`frames, this`objs, this`vecs, this`live, this`closed, live
      ensures o.value == a && o.repr == closed && unchanged(o`kind) && unchanged(o`elements) && unchanged(o`element)
      ensures live == old(live) - {o, e} && closed == old(closed) + {o, e} && Stack()
      ensures forall x | x in old(live) && x != o :: unchanged(x)
      ensures var n := old(|objs|) - 1;
              frames == old(frames)[..n] && objs == old(objs)[..n] && vecs == old(vecs)[..n]
    {
      var n := |objs| - 1;
      o.value := a;
      o.repr := closed + {o, e};
      closed := closed + {o, e};
      live := live - {o, e};
      objs, vecs, frames := objs[..n], vecs[..n], frames[..n];
      PoppedStack(n);
    }

    /** A reply node goes into the slot the current task is for. */
    method PutInSlot(o: ReplyObject)
      requires WellFormed(frames) && Top()
      modifies live
      ensures Stack() && (ridx > 0 ==> Slot() == o)
      ensures forall x | x in live && x !in (set v | v in vecs) :: unchanged(x)
    {
      var task := rstack[ridx];
      if ridx > 0 { assert Level(ridx - 1); }
      if task.parent >= 0 {
        var parent := rstack[task.parent].obj;
        assert parent.kind == REPLY_ARRAY;
        parent.element[task.idx] := o;
      }
      SlotWritten();
    }

    /** A finished node is what the current task was for. */
    method Attach(o: ReplyObject)
      requires WellFormed(frames) && Top()
      requires o.Complete() && o.repr == {o} && o !in live && o !in closed
      modifies this`closed, live
      ensures Top() && closed == old(closed) + {o} && o.value == old(o.value)
      ensures Holds(o, o.value) && (ridx > 0 ==> Slot() == o)
    {
      closed := closed + {o};
      ClosedGrown();
      PutInSlot(o);
    }

    twostate lemma ClosedGrown()
      requires old(Stack()) && objs == old(objs) && vecs == old(vecs) && frames == old(frames)
      requires live == old(live) && old(closed) <= closed && live !! closed && OnlyNodes(closed)
      requires unchanged(rstack)
      requires forall x | x in old(closed) :: unchanged(x)
      requires forall x | x in live :: unchanged(x)
      ensures Stack()
    {
      forall l | 0 <= l < |objs| ensures Level(l) {
        assert old(Level(l));
        LevelKept(l);
      }
    }

    /** Writing the next slot of the innermost array disturbs nothing. */
    twostate lemma SlotWritten()
      requires old(Stack()) && objs == old(objs) && vecs == old(vecs) && frames == old(frames)
      requires live == old(live) && old(closed) <= closed && live !! closed && OnlyNodes(closed)
      requires unchanged(rstack)
      requires forall x | x in old(closed) :: unchanged(x)
      requires forall l | 0 <= l < |objs| :: unchanged(objs[l])
      requires forall l | 0 <= l < |vecs| - 1 :: unchanged(vecs[l])
      requires vecs != [] ==> |Last(frames).done| <= vecs[|vecs| - 1].Length
      requires vecs != [] ==>
        vecs[|vecs| - 1][..|Last(frames).done|] == old(vecs[|vecs| - 1][..|Last(frames).done|])
      ensures Stack()
    {
      forall l | 0 <= l < |objs| ensures Level(l) {
        assert old(Level(l));
        if l < |objs| - 1 {
          LevelKept(l);
        } else {
          var e, f := vecs[l], frames[l];
          forall j | 0 <= j < |f.done| ensures Holds(e[j], f.done[j]) {
            assert e[j] == e[..|f.done|][j] == old(e[j]);
            HoldsKept(e[j], f.done[j]);
          }
        }
      }
    }

    /** A new, still empty array node is what the current task is for; the next
        task on the stack starts on its first slot. */
    method OpenArray(o: ReplyObject, count: int)
      requires WellFormed(frames) && Top() && |frames| < MAX_DEPTH && rstack[ridx].kind == REPLY_ARRAY
      requires o.kind == REPLY_ARRAY && o.element != null && 0 < count == o.elements == o.element.Length
      requires {o, o.element} !! live + closed
      modifies this`ridx, this`frames, this`objs, this`vecs, this`live, rstack, live
      ensures frames == old(frames) + [Frame(count, [])] && WellFormed(frames)
      ensures ridx == old(ridx) + 1 && rstack[ridx].kind == REPLY_UNSET
      ensures live == old(live) + {o, o.element} && Stack() && rstack[ridx].parent == ridx - 1
      ensures objs == old(objs) + [o] && rstack[ridx].idx == 0
    {
      PutInSlot(o);
      PushTask(o, count);
    }

    method PushTask(o: ReplyObject, count: int)
      requires WellFormed(frames) && Top() && |frames| < MAX_DEPTH && rstack[ridx].kind == REPLY_ARRAY
      requires o.kind == REPLY_ARRAY && o.element != null && 0 < count == o.elements == o.element.Length
      requires {o, o.element} !! live + closed
      requires ridx > 0 ==> Slot() == o
      modifies this`ridx, this`frames, this`objs, this`vecs, this`live, rstack
      ensures frames == old(frames) + [Frame(count, [])] && WellFormed(frames)
      ensures ridx == old(ridx) + 1 && rstack[ridx].kind == REPLY_UNSET
      ensures live == old(live) + {o, o.element} && Stack() && rstack[ridx].parent == ridx - 1
      ensures objs == old(objs) + [o] && rstack[ridx].idx == 0
    {
      rstack[ridx] := rstack[ridx].(elements := count, obj := o);
      ridx := ridx + 1;
      rstack[ridx] := Task(REPLY_UNSET, REPLY_UNSET, 0, null, ridx - 1);
      frames := frames + [Frame(count, [])];
      objs, vecs, live := objs + [o], vecs + [o.element], live + {o, o.element};
      PushedStack(|old(frames)|);
    }

    twostate lemma PushedStack(n: nat)
      requires old(Stack()) && n == old(|frames|) < MAX_DEPTH
      requires |objs| == |vecs| == |frames| == n + 1
      requires objs[..n] == old(objs) && vecs[..n] == old(vecs) && frames[..n] == old(frames)
      requires objs[n] !in old(live) + closed && vecs[n] !in old(live) + closed
      requires live == old(live) + {objs[n], vecs[n]} && closed == old(closed)
      requires forall x | x in old(live) :: unchanged(x)
      requires forall x | x in closed :: unchanged(x)
      requires forall l | 0 <= l < n :: rstack[l] == old(rstack[l])
      requires n > 0 ==> old(Slot()) == objs[n]
      requires rstack[n].kind == REPLY_ARRAY && rstack[n].obj == objs[n]
      requires rstack[n].parent == n - 1 && rstack[n].elements == frames[n].count
      requires n > 0 ==> rstack[n].idx == |frames[n - 1].done|
      requires frames[n].done == [] && 0 < frames[n].count
      requires objs[n].kind == REPLY_ARRAY && objs[n].element == vecs[n]
      requires objs[n].elements == frames[n].count == vecs[n].Length
      ensures Stack()
    {
      forall l | 0 <= l <= n ensures Level(l) {
        if l < n {
          assert old(Level(l));
          PrefixAt(l, n);
          if l < n - 1 {
            LevelKept(l);
          } else {
            var f, v := frames[l], vecs[l];
            forall j | 0 <= j < |f.done| ensures Holds(v[j], f.done[j]) {
              HoldsKept(v[j], f.done[j]);
            }
          }
        }
      }
      forall l, m | 0 <= l < m <= n ensures objs[l] != objs[m] && vecs[l] != vecs[m] {
        assert old(Level(l));
        PrefixAt(l, n);
        if m < n { PrefixAt(m, n); }
      }
    }

    twostate lemma PrefixAt(new l: nat, new n: nat)
      requires l < n == old(|frames|) == old(|objs|) == old(|vecs|) && |objs| == |vecs| == |frames| == n + 1
      requires objs[..n] == old(objs) && vecs[..n] == old(vecs) && frames[..n] == old(frames)
      ensures objs[l] == old(objs[l]) && vecs[l] == old(vecs[l]) && frames[l] == old(frames[l])
      ensures l > 0 ==> frames[l - 1] == old(frames[l - 1])
      ensures l + 1 < n ==> objs[l + 1] == old(objs[l + 1])
    {
      assert objs[l] == objs[..n][l] && vecs[l] == vecs[..n][l] && frames[l] == frames[..n][l];
      if l > 0 { assert frames[l - 1] == frames[..n][l - 1]; }
      if l + 1 < n { assert objs[l + 1] == objs[..n][l + 1]; }
    }

    // ------------------------------------------------------------ one item

    /** A whole reply `v` has just been finished. */
    ghost predicate Ready(v: Reply)
      reads this, rstack, live, closed
    {
      ridx == -1 && frames == [] && Stack() && pos <= |buf| && err == 0 && error.None? && Holds(reply, v)
    }

    ghost predicate Working()
      reads this, rstack, live, closed
    {
      Valid() && err == 0 && !halted && ridx >= 0
    }

    /** The state after trying to read the item `tok` from stack `fs` and input `s`. */
    ghost predicate Stepped(tok: Token, ok: bool, fs: seq<Frame>, s: string)
      requires WellFormed(fs)
      reads this, rstack, live, closed
    {
      match tok
      case NeedMore => !ok && Working() && frames == fs && Rest() == s
      case Bad(e) => !ok && Valid() && error == Some(e) && !halted
      case OutOfRange => !ok && Valid() && err == 0 && halted
      case Open(n, rest) => ok && Working() && frames == fs + [Frame(n, [])] && Rest() == rest
      case Leaf(v, rest) =>
        var p := Plug(fs, v);
        ok && frames == p.frames && !halted &&
        if p.emitted == [] then Working() && Rest() == rest else Ready(p.emitted[0]) && Rest() == rest
    }

    /** The current item is the finished node `o`. */
    method FinishItem(o: ReplyObject)
      requires Working() && o.Complete() && o.repr == {o} && o !in live && o !in closed
      modifies this`closed, this`reply, this`ridx, this`frames, this`objs, this`vecs, this`live, rstack, live
      ensures var p := Plug(old(frames), old(o.value));
              frames == p.frames &&
              if p.emitted == [] then Working() && Rest() == buf[pos..] else Ready(p.emitted[0])
      ensures live <= old(live)
    {
      Attach(o);
      // the root object
      if ridx == 0 {
        reply := o;
      }
      MoveToNextTask(o.value);
    }

    /** The current item, the finished node `o`, ends `n` bytes further on. */
    method TakeItem(o: ReplyObject, n: nat)
      requires Working() && n <= |buf| - pos
      requires o.Complete() && o.repr == {o} && o !in live && o !in closed
      modifies this`pos, this`closed, this`reply, this`ridx, this`frames, this`objs, this`vecs, this`live, rstack, live
      ensures Stepped(Leaf(old(o.value), old(buf[pos + n..])), true, old(frames), old(Rest()))
      ensures live <= old(live)
    {
      pos := pos + n;
      FinishItem(o);
    }

    /** The numeral of the current item leaves its type. */
    method Halt()
      requires Working()
      modifies this`halted
      ensures Stepped(OutOfRange, false, old(frames), old(Rest()))
    {
      halted := true;
    }

    method ProcessLineItem(ghost tok: Token) returns (ok: bool)
      requires Working()
      requires rstack[ridx].kind == REPLY_STATUS || rstack[ridx].kind == REPLY_ERROR || rstack[ridx].kind == REPLY_INTEGER
      requires tok == LineToken(TypeByte(rstack[ridx].kind)[0], buf[pos..])
      modifies this, rstack, live
      ensures Stepped(tok, ok, old(frames), old(Rest()))
      ensures live <= old(live)
    {
      var found, o, used := LineReply(rstack[ridx].kind, buf[pos..]);
      if !found {
        return false;
      }
      if o == null {
        Halt();
        return false;
      }
      assert buf[pos..][used..] == buf[pos + used..];
      TakeItem(o, used);
      return true;
    }

    method ProcessBulkItem(ghost tok: Token) returns (ok: bool)
      requires Working() && rstack[ridx].kind == REPLY_STRING && tok == BulkToken(buf[pos..])
      modifies this, rstack, live
      ensures Stepped(tok, ok, old(frames), old(Rest()))
      ensures live <= old(live)
    {
      var overflow, o, bytelen := BulkReply(buf[pos..]);
      if overflow {
        Halt();
        return false;
      }
      // proceed when the object was created
      if o == null {
        return false;
      }
      assert buf[pos..][bytelen..] == buf[pos + bytelen..];
      TakeItem(o, bytelen);
      return true;
    }

    /** The current item is a non-empty array whose header takes `n` bytes. */
    method OpenItem(o: ReplyObject, count: nat, n: nat)
      requires Working() && n <= |buf| - pos && |frames| < MAX_DEPTH && rstack[ridx].kind == REPLY_ARRAY
      requires o.kind == REPLY_ARRAY && o.element != null && 0 < count == o.elements == o.element.Length
      requires {o, o.element} !! live + closed
      modifies this`pos, this`reply, this`ridx, this`frames, this`objs, this`vecs, this`live, rstack, live
      ensures Stepped(Open(count, old(buf[pos + n..])), true, old(frames), old(Rest()))
      ensures live == old(live) + {o, o.element}
    {
      pos := pos + n;
      var root := ridx == 0;
      OpenArray(o, count);
      // the outermost array is what the caller will get
      if root {
        reply := o;
      }
    }

    /** Drop everything and remember the protocol error. */
    method SetError(e: ProtocolError)
      requires WellFormed(frames) && Stack()
      modifies this`reply, this`buf, this`pos, this`ridx, this`err, this`error, this`frames, this`objs, this`vecs, this`live
      ensures Valid() && error == Some(e) && halted == old(halted) && live == {}
    {
      reply := null;
      buf, pos, ridx := "", 0, -1;
      err, error := ERR_PROTOCOL, Some(e);
      frames, objs, vecs, live := [], [], [], {};
    }

    method ProcessMultiBulkItem(ghost tok: Token) returns (ok: bool)
      requires Working() && rstack[ridx].kind == REPLY_ARRAY && tok == ArrayToken(buf[pos..], |frames|)
      modifies this, rstack, live
      ensures Stepped(tok, ok, old(frames), old(Rest()))
      ensures fresh(live - old(live))
    {
      if ridx == MAX_DEPTH {
        SetError(TooDeep);
        return false;
      }
      ok := ProcessArrayHeader(tok);
    }

    method ProcessArrayHeader(ghost tok: Token) returns (ok: bool)
      requires Working() && rstack[ridx].kind == REPLY_ARRAY && |frames| != MAX_DEPTH
      requires tok == ArrayToken(buf[pos..], |frames|)
      modifies this, rstack, live
      ensures Stepped(tok, ok, old(frames), old(Rest()))
      ensures fresh(live - old(live))
    {
      var found, o, open, used := ArrayReply(buf[pos..], ridx);
      if !found {
        return false;
      }
      if o == null {
        Halt();
        return false;
      }
      assert buf[pos..][used..] == buf[pos + used..];
      TakeHeader(o, open, used);
      return true;
    }

    /** The node for the array header of `n` bytes just read. */
    method TakeHeader(o: ReplyObject, open: bool, n: nat)
      requires Working() && n <= |buf| - pos && |frames| < MAX_DEPTH && rstack[ridx].kind == REPLY_ARRAY
      requires o !in live && o !in closed
      requires !open ==> o.Complete() && o.repr == {o}
      requires open ==> o.kind == REPLY_ARRAY && o.element != null && 0 < o.elements == o.element.Length
      requires open ==> o.element !in live && o.element !in closed
      modifies this, rstack, live
      ensures Stepped(if open then Open(old(o.elements), old(buf[pos + n..])) else Leaf(old(o.value), old(buf[pos + n..])),
                      true, old(frames), old(Rest()))
      ensures live <= old(live) + if open then {o, o.element} else {}
    {
      if open {
        OpenItem(o, o.elements, n);
      } else {
        TakeItem(o, n);
      }
    }

    /** Read one item: consume its type byte unless that is already done, then
        handle it by type. */
    method ProcessItem() returns (ok: bool)
      requires Working()
      modifies this, rstack, live
      ensures Stepped(NextToken(old(Rest()), |old(frames)|), ok, old(frames), old(Rest()))
      ensures fresh(live - old(live))
    {
      ghost var tok := NextToken(Rest(), |frames|);
      if rstack[ridx].kind < 0 {
        if |buf| - pos < 1 {
          return false;
        }
        var c := buf[pos];
        if c !in "-+:$*" {
          SetError(BadTypeByte(c));
          return false;
        }
        TakeTypeByte();
      }
      TypedToken(rstack[ridx].kind, buf[pos..], |frames|);
      ok := ProcessTyped(tok);
    }

    method TakeTypeByte()
      requires Working() && rstack[ridx].kind == REPLY_UNSET
      requires pos < |buf| && buf[pos] in "-+:$*"
      modifies this`pos, rstack
      ensures Working() && rstack[ridx].kind > 0 && Rest() == old(Rest()) && ridx == old(ridx)
    {
      var c := buf[pos];
      assert buf[pos..] == [c] + buf[pos + 1..];
      var kind := if c == '-' then REPLY_ERROR
                  else if c == '+' then REPLY_STATUS
                  else if c == ':' then REPLY_INTEGER
                  else if c == '$' then REPLY_STRING
                  else REPLY_ARRAY;
      pos := pos + 1;
      rstack[ridx] := rstack[ridx].(kind := kind);
      UpperTasksFree();
    }

    method ProcessTyped(ghost tok: Token) returns (ok: bool)
      requires Working() && rstack[ridx].kind > 0
      requires rstack[ridx].kind == REPLY_STRING ==> tok == BulkToken(buf[pos..])
      requires rstack[ridx].kind == REPLY_ARRAY ==> tok == ArrayToken(buf[pos..], |frames|)
      requires rstack[ridx].kind != REPLY_STRING && rstack[ridx].kind != REPLY_ARRAY ==>
                 tok == LineToken(TypeByte(rstack[ridx].kind)[0], buf[pos..])
      modifies this, rstack, live
      ensures Stepped(tok, ok, old(frames), old(Rest()))
      ensures fresh(live - old(live))
    {
      var kind := rstack[ridx].kind;
      if kind == REPLY_STRING {
        ok := ProcessBulkItem(tok);
      } else if kind == REPLY_ARRAY {
        ok := ProcessMultiBulkItem(tok);
      } else {
        ok := ProcessLineItem(tok);
      }
    }

    // ------------------------------------------------------------ the API

    /** A task that has met its last allowed array has already failed. */
    predicate Settled()
      reads this, rstack
    {
      !halted && ridx == MAX_DEPTH < rstack.Length ==> rstack[ridx].kind != REPLY_ARRAY
    }

    /** Append a piece of input. */
    method Feed(data: string) returns (ok: bool)
      requires Valid() && Settled()
      modifies this`buf, this`avail, this`pos
      ensures Valid() && Settled() && ok == (err == 0 && !halted)
      ensures Rest() == if ok then old(Rest()) + data else old(Rest())
    {
      if err != 0 || halted {
        return false;
      }
      if |data| >= 1 {
        // a large buffer with nothing in it is given back
        if |buf| == 0 && avail > READER_MAX_BUF {
          avail := 0;
        }
        avail := if avail >= |data| then avail - |data| else |buf| + |data|;
        assert (buf + data)[pos..] == buf[pos..] + data;
        buf := buf + data;
      }
      return true;
    }

    /** What a call of `GetReply` that finds `f` first leaves behind. */
    ghost predicate Got(f: FirstReply, ok: bool, r: ReplyObject?)
      requires Valid()
      reads this, rstack, live, closed
    {
      match f
      case Whole(v, rest) => ok && frames == [] && ridx == -1 && Rest() == rest && err == 0 && !halted && Holds(r, v)
      case Partial(fs, rest) => ok && r == null && frames == fs && Rest() == rest && err == 0 && !halted
      case Refused(e) => !ok && r == null && error == Some(e) && !halted
      case Overflow => !ok && r == null && err == 0 && halted
    }

    /** The next whole reply, if the input holds one. */
    method GetReply() returns (ok: bool, r: ReplyObject?)
      requires Valid() && Settled()
      modifies this, rstack, live
      ensures Valid() && Settled() && fresh(live - old(live))
      ensures old(err != 0 || halted) ==> !ok && r == null && err == old(err) && halted == old(halted) && error == old(error)
      ensures old(err == 0 && !halted) ==> Got(First(old(frames), old(Rest())), ok, r)
    {
      // a reader in an erroneous state stays there
      if err != 0 || halted {
        return false, null;
      }
      // no bytes, no reply
      if |buf| == 0 {
        NothingYet();
        return true, null;
      }
      ghost var f := First(frames, Rest());
      // an empty stack gets a task for the next item
      if ridx == -1 {
        StartTask();
      }
      ReadItems();
      ok, r := Conclude(f);
    }

    /** What `GetReply` makes of the items read. */
    method Conclude(ghost f: FirstReply) returns (ok: bool, r: ReplyObject?)
      requires Progress(f)
      modifies this`buf, this`avail, this`pos, this`reply
      ensures Valid() && Settled() && Got(f, ok, r)
    {
      if err != 0 || halted {
        return false, null;
      }
      r := EmitReply(f);
      return true, r;
    }

    method EmitReply(ghost f: FirstReply) returns (r: ReplyObject?)
      requires (f.Whole? || f.Partial?) && Progress(f)
      modifies this`buf, this`avail, this`pos, this`reply
      ensures Valid() && Settled() && Got(f, true, r)
    {
      // discard what has been consumed, once that is at least 1k
      if pos >= DISCARD_THRESHOLD {
        Discard();
      }
      // the stack is done: its reply goes to the caller
      r := null;
      if ridx == -1 {
        r := reply;
        reply := null;
      }
    }

    /** Drop the consumed bytes; their room is there for new ones. */
    method Discard()
      requires 0 < pos <= |buf|
      modifies this`buf, this`avail, this`pos
      ensures pos == 0 && buf == old(buf[pos..]) && avail == old(avail + pos)
    {
      Sds.RangeSuffix(buf, pos);
      buf := Sds.Range(buf, pos, -1);
      avail := avail + pos;
      pos := 0;
    }

    lemma NothingYet()
      requires Valid() && Settled() && buf == "" && !halted
      ensures First(frames, Rest()) == Partial(frames, Rest())
    {
      if ridx >= 0 && rstack[ridx].kind != REPLY_UNSET {
        TypedToken(rstack[ridx].kind, "", |frames|);
        assert Rest() == TypeByte(rstack[ridx].kind) + "";
      } else {
        assert Rest() == "";
      }
    }

    method StartTask()
      requires Valid() && ridx == -1 && err == 0 && !halted
      modifies this`ridx, rstack
      ensures Working() && Rest() == old(Rest()) && frames == old(frames)
    {
      rstack[0] := FRESH_TASK;
      ridx := 0;
    }

    /** Process items until a reply is whole or the input does not suffice. */
    method ReadItems()
      requires Working()
      modifies this, rstack, live
      ensures fresh(live - old(live))
      ensures Progress(First(old(frames), old(Rest())))
    {
      ghost var f := First(frames, Rest());
      while ridx >= 0
        invariant fresh(live - old(live))
        invariant Underway(f)
        decreases if ridx >= 0 then |Rest()| + 1 else 0
      {
        var go := ReadItem(f);
        if !go {
          break;
        }
      }
    }

    method ReadItem(ghost f: FirstReply) returns (go: bool)
      requires Working() && First(frames, Rest()) == f
      modifies this, rstack, live
      ensures fresh(live - old(live))
      ensures if go then Underway(f) else Progress(f)
      ensures go && ridx >= 0 ==> |Rest()| < old(|Rest()|)
    {
      ghost var tok, fs, s := NextToken(Rest(), |frames|), frames, Rest();
      go := ProcessItem();
      FirstStep(tok, fs, s);
    }

    /** One step of `First`. */
    lemma FirstStep(tok: Token, fs: seq<Frame>, s: string)
      requires WellFormed(fs) && tok == NextToken(s, |fs|)
      ensures First(fs, s) ==
              match tok
              case NeedMore => Partial(fs, s)
              case Bad(e) => Refused(e)
              case OutOfRange => Overflow
              case Open(n, rest) => First(fs + [Frame(n, [])], rest)
              case Leaf(v, rest) =>
                var p := Plug(fs, v);
                if p.emitted == [] then First(p.frames, rest) else Whole(p.emitted[0], rest)
    {
    }

    ghost predicate Underway(f: FirstReply)
      reads this, rstack, live, closed
    {
      if ridx >= 0 then Working() && First(frames, Rest()) == f
      else f.Whole? && Ready(f.reply) && Rest() == f.rest && !halted
    }

    ghost predicate Progress(f: FirstReply)
      reads this, rstack, live, closed
    {
      match f
      case Whole(v, rest) => Ready(v) && Rest() == rest && !halted
      case Partial(fs, rest) => Working() && Settled() && frames == fs && Rest() == rest
      case Refused(e) => Valid() && Settled() && error == Some(e) && !halted
      case Overflow => Valid() && Settled() && err == 0 && halted
    }
  }

  /** The bulk item at the head of `body`: its node and the bytes it takes, or
      `null` while some of them are missing. */
  method BulkReply(body: string) returns (overflow: bool, o: ReplyObject?, bytelen: nat)
    ensures o != null ==> !overflow && bytelen <= |body|
    ensures o != null ==> fresh(o) && o.repr == {o} && o.Complete()
    ensures BulkToken(body) ==
            if overflow then OutOfRange else if o == null then NeedMore else Leaf(o.value, body[bytelen..])
  {
    var line := SeekNewline(body);
    if line.None? {
      return false, null, 0;
    }
    var len := line.value;
    overflow, o, bytelen := false, null, len + 2;
    ReadLongLongPrefix(body, len);
    assert body[len] == '\r';
    var n := ReadNumber(body);
    if n.None? {
      overflow := true;
    } else if n.value < 0 {
      // nil, which takes no more bytes than its line
      o := new ReplyObject.Null();
    } else if n.value + 2 > LLONG_MAX {
      overflow := true;
    } else {
      // the item is read at once or not at all
      bytelen := bytelen + n.value + 2;
      if bytelen <= |body| {
        var text := body[len + 2..][..n.value];
        assert body[len + 2..][n.value + 2..] == body[bytelen..];
        o := new ReplyObject.String(REPLY_STRING, text);
      }
    }
  }

  /** The array header at the head of `body`, if its line is whole: the node
      for nil, for an array without slots or for one that is `open`, or `null`
      when the count is not an int; and the bytes the header takes. */
  method ArrayReply(body: string, ghost depth: nat)
    returns (found: bool, o: ReplyObject?, open: bool, used: nat)
    requires depth != MAX_DEPTH
    ensures !found ==> ArrayToken(body, depth) == NeedMore
    ensures found ==> used <= |body|
    ensures found && o == null ==> ArrayToken(body, depth) == OutOfRange
    ensures o != null ==> fresh(o)
    ensures o != null && open ==>
              o.kind == REPLY_ARRAY && o.element != null && fresh(o.element) && 0 < o.elements == o.element.Length
    ensures found && o != null ==>
              ArrayToken(body, depth) == if open then Open(o.elements, body[used..]) else Leaf(o.value, body[used..])
    ensures o != null && !open ==> o.repr == {o} && o.Complete()
  {
    o, open := null, false;
    var line := SeekNewline(body);
    if line.None? {
      return false, null, false, 0;
    }
    var len := line.value;
    ReadLongLongPrefix(body, len);
    assert body[len] == '\r';
    var n := ReadNumber(body);
    if n.Some? {
      var elements := n.value;
      if elements == -1 {
        o := new ReplyObject.Null();
      } else if INT_MIN <= elements <= INT_MAX {
        o := new ReplyObject.Array(elements);
        open := elements > 0;
      }
    }
    return true, o, open, len + 2;
  }

  /** The line at the head of `body`, if it is whole: its node, `null` when its
      numeral overflows, and the bytes it takes. */
  method LineReply(kind: int, body: string) returns (found: bool, o: ReplyObject?, used: nat)
    requires kind == REPLY_STATUS || kind == REPLY_ERROR || kind == REPLY_INTEGER
    ensures found ==> used <= |body|
    ensures o != null ==> fresh(o) && o.repr == {o} && o.Complete()
    ensures LineToken(TypeByte(kind)[0], body) ==
            if !found then NeedMore else if o == null then OutOfRange else Leaf(o.value, body[used..])
  {
    var line := SeekNewline(body);
    if line.None? {
      return false, null, 0;
    }
    var len := line.value;
    found, o, used := true, null, len + 2;
    if kind == REPLY_INTEGER {
      ReadLongLongPrefix(body, len);
      assert body[len] == '\r';
      var n := ReadNumber(body);
      if n.Some? {
        o := new ReplyObject.Number(n.value);
      }
    } else {
      o := new ReplyObject.String(kind, body[..len]);
    }
  }

  lemma TypedToken(kind: int, body: string, depth: nat)
    requires TypeByte(kind) != ""
    ensures NextToken(TypeByte(kind) + body, depth) ==
            if kind == REPLY_STRING then BulkToken(body)
            else if kind == REPLY_ARRAY then ArrayToken(body, depth)
            else LineToken(TypeByte(kind)[0], body)
  {
    assert (TypeByte(kind) + body)[1..] == body;
  }
}
