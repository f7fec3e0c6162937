/** The cross-thread callback queue of the event loop: `addCallback`, `stop`,
  `run` and `handleCallbacks`, the spin lock and the wake-up counter, as
  atomic steps of any number of threads and of the loop. */
module CallbackQueue {
  type Callback = nat
  type Thread = nat

  /** Where a thread is in `addCallback` or `stop`. */
  datatype Adder =
    | Idle
    | Locking(callback: Callback)     // spinning on the lock
    | Pushing(callback: Callback)     // holds the lock
    | Unlocking                       // holds the lock, has pushed
    | Stopping                        // about to clear m_running
    | Notifying                       // about to write the wake-up counter

  /** Where the loop is in `run` and `handleCallbacks`. */
  datatype LoopAt = Checking | Polling | Acquiring | Swapping | Releasing | Executing | Stopped

  /** `pushed` and `executed` record the callbacks in the order of these events. */
  datatype State = State(
    lock: bool,
    callbacks: seq<Callback>,
    counter: nat,
    running: bool,
    at: LoopAt,
    batch: seq<Callback>,             // what is left of the local vector
    threads: map<Thread, Adder>,
    pushed: seq<Callback>,
    executed: seq<Callback>)

  datatype Action =
    | Add(t: Thread, callback: Callback)    // a call of addCallback begins
    | Stop(t: Thread)                       // a call of stop begins
    | Go(t: Thread)                         // the thread takes its next step
    | Loop(timeout: bool)                   // the loop takes its next step

  const INITIAL: State := State(false, [], 0, true, Checking, [], map[], [], [])

  /** The largest value an eventfd counter takes; a write beyond it fails. */
  const COUNTER_MAX: nat := 0xffff_ffff_ffff_fffe

  function At(s: State, t: Thread): Adder { if t in s.threads then s.threads[t] else Idle }

  function Move(s: State, t: Thread, a: Adder): State { s.(threads := s.threads[t := a]) }

  /** `eventfd_write` of 1 */
  function Written(counter: nat): nat { if counter < COUNTER_MAX then counter + 1 else counter }

  /** The next step of a thread. */
  function GoOn(s: State, t: Thread): State {
    match At(s, t)
    case Idle => s
    case Locking(c) => if s.lock then s else Move(s.(lock := true), t, Pushing(c))
    case Pushing(c) => Move(s.(callbacks := s.callbacks + [c], pushed := s.pushed + [c]), t, Unlocking)
    case Unlocking => Move(s.(lock := false), t, Notifying)
    case Stopping => Move(s.(running := false), t, Notifying)
    case Notifying => Move(s.(counter := Written(s.counter)), t, Idle)
  }

  /** The next step of the loop; polling blocks while the counter is zero, but
      for a timeout. */
  function LoopOn(s: State, timeout: bool): State {
    match s.at
    case Checking => s.(at := if s.running then Polling else Stopped)
    case Polling =>
      if s.counter > 0 then s.(counter := 0, at := Acquiring)
      else if timeout then s.(at := Acquiring)
      else s
    case Acquiring => if s.lock then s else s.(lock := true, at := Swapping)
    case Swapping => s.(batch := s.callbacks, callbacks := [], at := Releasing)
    case Releasing => s.(lock := false, at := Executing)
    case Executing =>
      if s.batch == [] then s.(at := Checking)
      else s.(executed := s.executed + [s.batch[0]], batch := s.batch[1..])
    case Stopped => s
  }

  function Apply(s: State, a: Action): State {
    match a
    case Add(t, c) => if At(s, t).Idle? then Move(s, t, Locking(c)) else s
    case Stop(t) => if At(s, t).Idle? && s.running then Move(s, t, Stopping) else s
    case Go(t) => GoOn(s, t)
    case Loop(timeout) => LoopOn(s, timeout)
  }

  function Run(s: State, actions: seq<Action>): State
    decreases |actions|
  {
    if actions == [] then s else Run(Apply(s, actions[0]), actions[1..])
  }

  // --------------------------------------------------------- the invariant

  /** Threads that hold the lock, and the loop when it does. */
  predicate Critical(s: State, t: Thread) { At(s, t).Pushing? || At(s, t).Unlocking? }

  predicate LoopCritical(s: State) { s.at.Swapping? || s.at.Releasing? }

  /** At most one of them is in its critical section, and the lock is taken
      exactly then. */
  ghost predicate MutualExclusion(s: State) {
    (forall t, u :: Critical(s, t) && Critical(s, u) ==> t == u) &&
    (LoopCritical(s) ==> forall t :: !Critical(s, t)) &&
    (s.lock <==> LoopCritical(s) || exists t :: Critical(s, t))
  }

  /** Callbacks are executed in the order in which they were pushed, each once,
      and none is lost. */
  predicate Conserved(s: State) {
    s.executed + s.batch + s.callbacks == s.pushed && (s.batch != [] ==> s.at.Releasing? || s.at.Executing?)
  }

  /** The loop is between its poll and its swap. */
  predicate Woken(s: State) { s.at.Acquiring? || s.at.Swapping? }

  /** A thread has pushed, and is yet to write the counter. */
  ghost predicate WillNotify(s: State) { exists t :: At(s, t).Unlocking? || At(s, t).Notifying? }

  /** No wake-up is lost: for callbacks in the list, somebody is about to notify,
      or the counter is positive, or the loop is about to take them. */
  ghost predicate NoLostWakeUp(s: State) { s.callbacks != [] ==> WillNotify(s) || s.counter > 0 || Woken(s) }

  /** Nor is a request to stop: the loop will find it without waiting. */
  ghost predicate StopSeen(s: State) { !s.running ==> WillNotify(s) || s.counter > 0 || !s.at.Polling? }

  ghost predicate Inv(s: State) { MutualExclusion(s) && Conserved(s) && NoLostWakeUp(s) && StopSeen(s) }

  lemma AtMoved(s: State, t: Thread, a: Adder, u: Thread)
    ensures At(Move(s, t, a), u) == if u == t then a else At(s, u)
  {
  }

  lemma StartKeeps(s: State, t: Thread, a: Adder)
    requires Inv(s) && At(s, t).Idle? && !a.Pushing? && !a.Unlocking?
    ensures Inv(Move(s, t, a))
  {
    var r := Move(s, t, a);
    forall u ensures Critical(r, u) == Critical(s, u) { AtMoved(s, t, a, u); }
    if WillNotify(s) {
      var u :| At(s, u).Unlocking? || At(s, u).Notifying?;
      AtMoved(s, t, a, u);
    }
  }

  lemma LockKeeps(s: State, t: Thread, c: Callback)
    requires Inv(s) && At(s, t) == Locking(c) && !s.lock
    ensures Inv(GoOn(s, t))
  {
    var r := GoOn(s, t);
    forall u ensures Critical(r, u) <==> u == t {
      AtMoved(s.(lock := true), t, Pushing(c), u);
      assert Critical(s, u) ==> s.lock;
    }
    assert Critical(r, t);
    StillNotifies(s, r, t);
  }

  /** A thread that did not owe a notification moved. */
  lemma StillNotifies(s: State, r: State, t: Thread)
    requires !At(s, t).Unlocking? && !At(s, t).Notifying? && forall u | u != t :: At(r, u) == At(s, u)
    ensures WillNotify(s) ==> WillNotify(r)
  {
    if WillNotify(s) {
      var u :| At(s, u).Unlocking? || At(s, u).Notifying?;
      assert At(r, u) == At(s, u);
    }
  }

  lemma PushKeeps(s: State, t: Thread, c: Callback)
    requires Inv(s) && At(s, t) == Pushing(c)
    ensures Inv(GoOn(s, t))
  {
    var r := GoOn(s, t);
    forall u ensures Critical(r, u) == Critical(s, u) && (u != t ==> At(r, u) == At(s, u)) { AtMoved(s, t, Unlocking, u); }
    assert At(r, t).Unlocking? && Critical(s, t) && Critical(r, t);
    assert s.executed + s.batch + (s.callbacks + [c]) == s.executed + s.batch + s.callbacks + [c];
  }

  lemma UnlockKeeps(s: State, t: Thread)
    requires Inv(s) && At(s, t).Unlocking?
    ensures Inv(GoOn(s, t))
  {
    var r := GoOn(s, t);
    assert Critical(s, t);
    forall u ensures !Critical(r, u) { AtMoved(s.(lock := false), t, Notifying, u); assert Critical(s, u) ==> u == t; }
    assert At(r, t).Notifying?;
  }

  lemma StopKeeps(s: State, t: Thread)
    requires Inv(s) && At(s, t).Stopping?
    ensures Inv(GoOn(s, t))
  {
    var r := GoOn(s, t);
    forall u ensures Critical(r, u) == Critical(s, u) { AtMoved(s.(running := false), t, Notifying, u); }
    assert At(r, t).Notifying?;
  }

  lemma NotifyKeeps(s: State, t: Thread)
    requires Inv(s) && At(s, t).Notifying?
    ensures Inv(GoOn(s, t))
  {
    var r := GoOn(s, t);
    forall u ensures Critical(r, u) == Critical(s, u) { AtMoved(s.(counter := Written(s.counter)), t, Idle, u); }
    assert r.counter > 0;
  }

  lemma GoKeeps(s: State, t: Thread)
    requires Inv(s)
    ensures Inv(GoOn(s, t))
  {
    match At(s, t) {
      case Idle =>
      case Locking(c) => if !s.lock { LockKeeps(s, t, c); }
      case Pushing(c) => PushKeeps(s, t, c);
      case Unlocking => UnlockKeeps(s, t);
      case Stopping => StopKeeps(s, t);
      case Notifying => NotifyKeeps(s, t);
    }
  }

  lemma LoopExcludes(s: State, r: State)
    requires Inv(s) && (r == LoopOn(s, false) || r == LoopOn(s, true))
    ensures MutualExclusion(r) && (WillNotify(s) <==> WillNotify(r))
  {
    assert r.threads == s.threads;
    SameThreads(s, r);
    if s.at.Acquiring? && !s.lock {
      forall t ensures !Critical(r, t) { assert Critical(s, t) ==> s.lock; }
    }
  }

  lemma SameThreads(s: State, r: State)
    requires s.threads == r.threads
    ensures forall t :: At(r, t) == At(s, t) && Critical(r, t) == Critical(s, t)
    ensures WillNotify(s) <==> WillNotify(r)
  {
    assert forall t :: At(r, t) == At(s, t);
  }

  lemma LoopConserves(s: State, timeout: bool)
    requires Conserved(s)
    ensures Conserved(LoopOn(s, timeout))
  {
    if s.at.Executing? && s.batch != [] {
      assert s.executed + [s.batch[0]] + s.batch[1..] == s.executed + s.batch;
    }
    if s.at.Swapping? { assert s.executed + [] + s.callbacks == s.executed + s.callbacks + []; }
  }

  lemma LoopKeeps(s: State, timeout: bool)
    requires Inv(s)
    ensures Inv(LoopOn(s, timeout))
  {
    LoopExcludes(s, LoopOn(s, timeout));
    LoopConserves(s, timeout);
  }

  lemma ApplyKeeps(s: State, a: Action)
    requires Inv(s)
    ensures Inv(Apply(s, a))
  {
    match a {
      case Add(t, c) => if At(s, t).Idle? { StartKeeps(s, t, Locking(c)); }
      case Stop(t) => if At(s, t).Idle? { StartKeeps(s, t, Stopping); }
      case Go(t) => GoKeeps(s, t);
      case Loop(timeout) => LoopKeeps(s, timeout);
    }
  }

  lemma {:induction false} RunKeeps(s: State, actions: seq<Action>)
    requires Inv(s)
    ensures Inv(Run(s, actions))
    decreases |actions|
  {
    if actions != [] {
      ApplyKeeps(s, actions[0]);
      RunKeeps(Apply(s, actions[0]), actions[1..]);
    }
  }

  /** Over every interleaving: the lock excludes, callbacks run in the order in
      which they were pushed, each at most once, and no wake-up is lost. */
  lemma AlwaysInv(actions: seq<Action>)
    ensures var s := Run(INITIAL, actions);
            MutualExclusion(s) && s.executed + s.batch + s.callbacks == s.pushed && s.executed <= s.pushed &&
            NoLostWakeUp(s) && StopSeen(s)
  {
    RunKeeps(INITIAL, actions);
    var s := Run(INITIAL, actions);
    assert s.executed + s.batch + s.callbacks == s.executed + (s.batch + s.callbacks);
  }

  /** What has been pushed stays pushed, and what has been executed stays
      executed. */
  lemma {:induction false} RunGrows(s: State, actions: seq<Action>)
    ensures s.pushed <= Run(s, actions).pushed && s.executed <= Run(s, actions).executed
    decreases |actions|
  {
    if actions != [] { RunGrows(Apply(s, actions[0]), actions[1..]); }
  }

  // ---------------------------------------------- what becomes of every call

  /** Nobody is in addCallback or stop. */
  ghost predicate Quiet(s: State) { forall t :: At(s, t).Idle? }

  /** The callback that a thread has been asked to add and has not pushed. */
  function Owed(a: Adder): multiset<Callback> {
    if a.Locking? || a.Pushing? then multiset{a.callback} else multiset{}
  }

  /** What the threads below `n` owe. */
  function AllOwed(threads: map<Thread, Adder>, n: nat): multiset<Callback> {
    if n == 0 then multiset{}
    else AllOwed(threads, n - 1) + if n - 1 in threads then Owed(threads[n - 1]) else multiset{}
  }

  lemma {:induction false} OwedElse(threads: map<Thread, Adder>, t: Thread, a: Adder, n: nat)
    requires n <= t
    ensures AllOwed(threads[t := a], n) == AllOwed(threads, n)
  {
    if n > 0 { OwedElse(threads, t, a, n - 1); }
  }

  lemma Exchanged(x: multiset<Callback>, y: multiset<Callback>, z: multiset<Callback>)
    ensures x + y + z == x + z + y
  {
  }

  lemma {:induction false} OwedMoves(threads: map<Thread, Adder>, t: Thread, a: Adder, n: nat)
    requires t < n
    ensures AllOwed(threads[t := a], n) + (if t in threads then Owed(threads[t]) else multiset{}) == AllOwed(threads, n) + Owed(a)
  {
    var was := if t in threads then Owed(threads[t]) else multiset{};
    if t == n - 1 {
      OwedElse(threads, t, a, t);
      Exchanged(AllOwed(threads, t), Owed(a), was);
    } else {
      OwedMoves(threads, t, a, n - 1);
      var last := if n - 1 in threads then Owed(threads[n - 1]) else multiset{};
      Exchanged(AllOwed(threads[t := a], n - 1), last, was);
      Exchanged(AllOwed(threads, n - 1), Owed(a), last);
    }
  }

  /** A call of addCallback begins, unless the thread is in one. */
  function Begins(s: State, a: Action): multiset<Callback> {
    if a.Add? && At(s, a.t).Idle? then multiset{a.callback} else multiset{}
  }

  /** The callbacks of the calls that begin. */
  function Begun(s: State, actions: seq<Action>): multiset<Callback>
    decreases |actions|
  {
    if actions == [] then multiset{}
    else Begins(s, actions[0]) + Begun(Apply(s, actions[0]), actions[1..])
  }

  /** The action is of a thread below `n`, or of the loop. */
  predicate Below(a: Action, n: nat) { a.Loop? || a.t < n }

  lemma MoveOwes(s: State, t: Thread, r: State, a: Adder, n: nat)
    requires t < n && r.threads == s.threads[t := a]
    ensures AllOwed(r.threads, n) + Owed(At(s, t)) == AllOwed(s.threads, n) + Owed(a)
  {
    OwedMoves(s.threads, t, a, n);
  }

  lemma StepOwes(s: State, a: Action, n: nat)
    requires Below(a, n)
    ensures var r := Apply(s, a);
            multiset(r.pushed) + AllOwed(r.threads, n) == multiset(s.pushed) + AllOwed(s.threads, n) + Begins(s, a)
  {
    var r := Apply(s, a);
    if a.Loop? {
      assert r.pushed == s.pushed && r.threads == s.threads;
    } else if r != s {
      var was, now := At(s, a.t), At(r, a.t);
      ThreadMoves(s, a);
      MoveOwes(s, a.t, r, now, n);
      Balanced(multiset(s.pushed), AllOwed(r.threads, n), AllOwed(s.threads, n), Owed(was), Owed(now), Begins(s, a), Pushes(s, a));
    } else {
      assert Begins(s, a) == multiset{};
    }
  }

  function Pushes(s: State, a: Action): multiset<Callback> {
    if a.Go? && At(s, a.t).Pushing? then multiset{At(s, a.t).callback} else multiset{}
  }

  lemma ThreadMoves(s: State, a: Action)
    requires !a.Loop? && Apply(s, a) != s
    ensures var r := Apply(s, a);
            r.threads == s.threads[a.t := At(r, a.t)] && multiset(r.pushed) == multiset(s.pushed) + Pushes(s, a) &&
            Owed(At(s, a.t)) + Begins(s, a) == Owed(At(r, a.t)) + Pushes(s, a)
  {
    var to := NextOf(s, a);
    MovesTo(s, a);
    OwesNext(s, a);
    PushedBy(s, a);
    AtMoved(s, a.t, to, a.t);
    assert At(Apply(s, a), a.t) == to;
  }

  /** Where the thread of an action goes. */
  function NextOf(s: State, a: Action): Adder
    requires !a.Loop?
  {
    if a.Add? then Locking(a.callback)
    else if a.Stop? then Stopping
    else
      match At(s, a.t)
      case Idle => Idle
      case Locking(c) => Pushing(c)
      case Pushing(c) => Unlocking
      case Unlocking => Notifying
      case Stopping => Notifying
      case Notifying => Idle
  }

  lemma MovesTo(s: State, a: Action)
    requires !a.Loop? && Apply(s, a) != s
    ensures Apply(s, a).threads == s.threads[a.t := NextOf(s, a)]
  {
  }

  lemma OwesNext(s: State, a: Action)
    requires !a.Loop? && (a.Go? || At(s, a.t).Idle?)
    ensures Owed(At(s, a.t)) + Begins(s, a) == Owed(NextOf(s, a)) + Pushes(s, a)
  {
    var none: multiset<Callback> := multiset{};
    assert none + Begins(s, a) == Begins(s, a) && Owed(At(s, a.t)) + none == Owed(At(s, a.t));
  }

  lemma PushedBy(s: State, a: Action)
    requires !a.Loop?
    ensures multiset(Apply(s, a).pushed) == multiset(s.pushed) + Pushes(s, a)
  {
    assert multiset(s.pushed) + multiset{} == multiset(s.pushed);
  }

  lemma Balanced(p: multiset<Callback>, r: multiset<Callback>, s: multiset<Callback>, was: multiset<Callback>,
                 now: multiset<Callback>, begun: multiset<Callback>, pushed: multiset<Callback>)
    requires r + was == s + now && was + begun == now + pushed
    ensures p + pushed + r == p + s + begun
  {
    forall c: Callback ensures (p + pushed + r)[c] == (p + s + begun)[c] {
      assert (r + was)[c] == (s + now)[c] && (was + begun)[c] == (now + pushed)[c];
    }
  }

  /** Every call pushes its callback, once, and nothing else is pushed. */
  lemma {:induction false} Accounted(s: State, actions: seq<Action>, n: nat)
    requires forall a <- actions :: Below(a, n)
    ensures var r := Run(s, actions);
            multiset(r.pushed) + AllOwed(r.threads, n) == multiset(s.pushed) + AllOwed(s.threads, n) + Begun(s, actions)
    decreases |actions|
  {
    if actions != [] {
      assert actions[0] in actions && forall a <- actions[1..] :: a in actions;
      StepOwes(s, actions[0], n);
      Accounted(Apply(s, actions[0]), actions[1..], n);
    }
  }

  lemma {:induction false} IdleOwes(s: State, n: nat)
    requires Quiet(s)
    ensures AllOwed(s.threads, n) == multiset{}
  {
    if n > 0 {
      IdleOwes(s, n - 1);
      assert At(s, n - 1).Idle?;
    }
  }

  lemma {:induction false} SomeBound(actions: seq<Action>) returns (n: nat)
    ensures forall a <- actions :: Below(a, n)
    decreases |actions|
  {
    if actions == [] {
      n := 0;
    } else {
      var m := SomeBound(actions[1..]);
      n := if actions[0].Loop? || actions[0].t < m then m else actions[0].t + 1;
      assert forall a <- actions :: a == actions[0] || a in actions[1..];
    }
  }

  /** When nobody is in a call, what was asked for is what was pushed. */
  lemma AllPushed(actions: seq<Action>)
    requires Quiet(Run(INITIAL, actions))
    ensures multiset(Run(INITIAL, actions).pushed) == Begun(INITIAL, actions)
  {
    var n := SomeBound(actions);
    Accounted(INITIAL, actions, n);
    IdleOwes(INITIAL, n);
    var r := Run(INITIAL, actions);
    IdleOwes(r, n);
    assert multiset(r.pushed) + multiset{} == multiset(r.pushed);
    assert multiset(INITIAL.pushed) + multiset{} + Begun(INITIAL, actions) == Begun(INITIAL, actions);
  }

  /** A thread is about to clear m_running, or it is cleared. */
  predicate Halting(s: State, t: Thread) { !s.running || At(s, t).Stopping? }

  lemma {:induction false} HaltingStays(s: State, t: Thread, actions: seq<Action>)
    requires Halting(s, t)
    ensures Halting(Run(s, actions), t)
    decreases |actions|
  {
    if actions != [] { HaltingStays(Apply(s, actions[0]), t, actions[1..]); }
  }

  /** A call of stop that has returned has cleared m_running, whatever went on
      beside it. */
  lemma StopTakes(s: State, t: Thread, actions: seq<Action>)
    requires At(s, t).Idle?
    ensures var r := Run(Apply(s, Stop(t)), actions); At(r, t).Idle? ==> !r.running
  {
    HaltingStays(Apply(s, Stop(t)), t, actions);
  }

  ghost predicate NoStop(s: State) { s.running && forall t :: !At(s, t).Stopping? }

  lemma GoNoStop(s: State, a: Action)
    requires NoStop(s) && !a.Stop?
    ensures NoStop(Apply(s, a))
  {
    var r := Apply(s, a);
    forall t ensures !At(r, t).Stopping? { assert !At(s, t).Stopping?; }
  }

  /** Nothing else clears it. */
  lemma {:induction false} OnlyStop(s: State, actions: seq<Action>)
    requires NoStop(s) && forall a <- actions :: !a.Stop?
    ensures NoStop(Run(s, actions))
    decreases |actions|
  {
    if actions != [] {
      assert actions[0] in actions && forall a <- actions[1..] :: a in actions;
      GoNoStop(s, actions[0]);
      OnlyStop(Apply(s, actions[0]), actions[1..]);
    }
  }

  // ------------------------------------------------------------- progress

  /** `k` steps of the loop on its own, none of them a timeout. */
  function Alone(s: State, k: nat): State
    decreases k
  {
    if k == 0 then s else Alone(LoopOn(s, false), k - 1)
  }

  /** How far the loop is from its next callback. */
  function Distance(s: State): nat {
    match s.at
    case Executing => if s.batch == [] then 6 else 0
    case Checking => 5
    case Polling => 4
    case Acquiring => 3
    case Swapping => 2
    case Releasing => if s.batch == [] then 7 else 1
    case Stopped => 0
  }

  /** How far it is from its end, when it is to stop. */
  function StopDistance(s: State): nat {
    match s.at
    case Polling => 6
    case Acquiring => 5
    case Swapping => 4
    case Releasing => 3
    case Executing => 2
    case Checking => 1
    case Stopped => 0
  }

  lemma QuietLoop(s: State)
    requires Inv(s) && Quiet(s)
    ensures Inv(LoopOn(s, false)) && Quiet(LoopOn(s, false)) && LoopOn(s, false).pushed == s.pushed
    ensures LoopOn(s, false).running == s.running
  {
    LoopKeeps(s, false);
    var r := LoopOn(s, false);
    assert forall t :: At(r, t) == At(s, t);
  }

  lemma QuietFacts(s: State)
    requires Inv(s) && Quiet(s)
    ensures (s.lock ==> LoopCritical(s)) && !WillNotify(s)
  {
    assert forall t :: !Critical(s, t);
  }

  /** Once the adders are done, the loop runs every callback without waiting for
      a timeout. */
  lemma {:induction false} Drains(s: State) returns (k: nat)
    requires Inv(s) && Quiet(s) && s.running && !s.at.Stopped?
    ensures Alone(s, k).executed == s.pushed == Alone(s, k).pushed
    decreases |s.batch| + |s.callbacks|, Distance(s)
  {
    if s.batch == [] && s.callbacks == [] {
      k := 0;
    } else {
      var r := LoopOn(s, false);
      QuietLoop(s);
      QuietFacts(s);
      var j := Drains(r);
      k := j + 1;
    }
  }

  /** Once `stop` is done, the loop stops without waiting for a timeout. */
  lemma {:induction false} Stops(s: State) returns (k: nat)
    requires Inv(s) && Quiet(s) && !s.running
    ensures Alone(s, k).at.Stopped?
    decreases |s.batch| + |s.callbacks|, StopDistance(s)
  {
    if s.at.Stopped? {
      k := 0;
    } else {
      QuietLoop(s);
      QuietFacts(s);
      var j := Stops(LoopOn(s, false));
      k := j + 1;
    }
  }

  /** How far it is from its next wait. */
  function WaitDistance(s: State): nat {
    match s.at
    case Acquiring => 5
    case Swapping => 4
    case Releasing => 3
    case Executing => 2
    case Checking => 1
    case Polling => 0
    case Stopped => 0
  }

  /** The loop waits: without a timeout nothing changes. */
  predicate Waits(s: State) { LoopOn(s, false) == s && s.at.Polling? && s.callbacks == [] }

  /** And when there is nothing left to do, it comes to wait. */
  lemma {:induction false} Rests(s: State) returns (k: nat)
    requires Inv(s) && Quiet(s) && s.running && !s.at.Stopped?
    ensures Waits(Alone(s, k))
    decreases s.counter, |s.batch| + |s.callbacks|, WaitDistance(s)
  {
    QuietFacts(s);
    if Waits(s) {
      k := 0;
    } else {
      QuietLoop(s);
      var j := Rests(LoopOn(s, false));
      k := j + 1;
    }
  }
}
