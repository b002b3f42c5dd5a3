/**
 Whole runs of the connection pool: any number of threads, handles, moves, wake-ups, time-outs,
 factory failures and broken connections, in any interleaving of the pool's atomic steps.
 */
module PoolProtocol {
  import opened Wrappers
  import opened ConnectionPools

  /**
   The pool together with its callers. `holders` maps each non-empty handle to its connection;
   `taken` and `returned` count the hand-overs in both directions; `lost` counts the connections
   destroyed without a replacement. The log notes what the calls and the environment's answers say, and
   nothing of what the pool makes of them.
   */
  datatype World = World(pool: PoolState, holders: map<Handle, Connection>,
                         taken: multiset<Connection>, returned: multiset<Connection>, lost: nat, log: Log)

  /**
   `dead`: the connections whose last health check failed. `entered`: all connections that ought to have
   been queued so far, in order, `served` of them taken from the queue since. `inside`: the threads whose
   `acquire` has not returned.
   */
  datatype Log = Log(dead: set<Connection>, entered: seq<Connection>, served: nat, inside: set<Thread>)

  datatype Event =
    | Acquire(thread: Thread, handle: Handle, healthy: bool, made: Made)
    | Wakeup(thread: Thread)
    | Resumed(thread: Thread, handle: Handle, expired: bool, healthy: bool, made: Made)
    | Move(from: Handle, to: Handle)
    | Destroy(handle: Handle, healthy: bool, made: Made, pick: Thread)
    | ShutDown

  /** A new object is distinct from every live one. */
  predicate Fresh(w: World, made: Made) {
    made.Yielded? ==> made.conn !in w.pool.available && made.conn !in w.holders.Values
  }

  predicate PickOk(w: World, pick: Thread) {
    w.pool.waiting != {} ==> pick in w.pool.waiting
  }

  predicate Enabled(w: World, e: Event) {
    match e
    case Acquire(t, h, _, made) =>
      t !in w.pool.waiting && t !in w.pool.ready && h !in w.holders && Fresh(w, made)
    case Wakeup(t) => t in w.pool.waiting
    case Resumed(t, h, _, _, made) => t in w.pool.ready && h !in w.holders && Fresh(w, made)
    case Move(from, to) => to !in w.holders
    case Destroy(_, _, made, pick) => Fresh(w, made) && PickOk(w, pick)
    case ShutDown => true
  }

  /** What the pool answers the caller, where the event is a step of `acquire`. */
  function Answer(w: World, e: Event): Option<Outcome> {
    match e
    case Acquire(t, _, healthy, made) => Some(w.pool.Enter(t, healthy, made).1)
    case Resumed(t, _, expired, healthy, made) => Some(w.pool.Resume(t, expired, healthy, made).1)
    case _ => None
  }

  function Settle(w: World, h: Handle, step: (PoolState, Outcome)): World {
    var w' := w.(pool := step.0, lost := w.lost + Losses(step.1));
    match step.1
    case Handed(Some(conn)) => w'.(holders := w.holders[h := conn], taken := w.taken + multiset{conn})
    case _ => w'
  }

  function Losses(outcome: Outcome): nat {
    if outcome == Handed(None) || outcome == FactoryThrew then 1 else 0
  }

  function Next(w: World, e: Event): World {
    Moved(w, e).(log := Logged(w, e))
  }

  /** A running `acquire` finds a connection to check. */
  predicate Serves(w: World, e: Event) {
    (e.Acquire? || e.Resumed?) && !w.pool.shutdown && w.pool.available != []
  }

  /** A destroyed handle's connection is checked before it is queued again. */
  predicate Returns(w: World, e: Event) {
    e.Destroy? && e.handle in w.holders && !w.pool.shutdown
  }

  /** What a health check of `conn` and the factory's answer mean for the dead. */
  function Checked(dead: set<Connection>, conn: Connection, healthy: bool, made: Made): set<Connection> {
    if healthy then dead - {conn}
    else dead + {conn} - if made.Yielded? then {made.conn} else {}
  }

  function Logged(w: World, e: Event): Log {
    var log := w.log;
    if Serves(w, e) then
      log.(dead := Checked(log.dead, w.pool.available[0], e.healthy, e.made), served := log.served + 1,
           inside := log.inside - {e.thread})
    else if Returns(w, e) then
      var conn := w.holders[e.handle];
      log.(dead := Checked(log.dead, conn, e.healthy, e.made),
           entered := log.entered + if e.healthy then [conn] else if e.made.Yielded? then [e.made.conn] else [])
    else match e
      case Acquire(t, _, _, _) => if w.pool.shutdown then log else log.(inside := log.inside + {t})
      case Resumed(t, _, expired, _, _) => if w.pool.shutdown || expired then log.(inside := log.inside - {t}) else log
      case _ => log
  }

  /** The pool's and the handles' part of a step. */
  function Moved(w: World, e: Event): World {
    match e
    case Acquire(t, h, healthy, made) => Settle(w, h, w.pool.Enter(t, healthy, made))
    case Wakeup(t) => w.(pool := w.pool.Wake(t))
    case Resumed(t, h, expired, healthy, made) => Settle(w, h, w.pool.Resume(t, expired, healthy, made))
    case Move(from, to) =>
      if from in w.holders then w.(holders := (w.holders - {from})[to := w.holders[from]]) else w
    case Destroy(h, healthy, made, pick) =>
      if h in w.holders then
        w.(pool := w.pool.Release(Some(w.holders[h]), healthy, made, pick),
           holders := w.holders - {h},
           returned := w.returned + multiset{w.holders[h]},
           lost := w.lost + if healthy || made.Yielded? then 0 else 1)
      else w
    case ShutDown => w.(pool := w.pool.Shutdown())
  }

  function Run(w: World, es: seq<Event>): World
    decreases |es|
  {
    if es == [] then w else Run(Next(w, es[0]), es[1..])
  }

  predicate Legal(w: World, es: seq<Event>)
    decreases |es|
  {
    es != [] ==> Enabled(w, es[0]) && Legal(Next(w, es[0]), es[1..])
  }

  lemma RunConcat(w: World, a: seq<Event>, b: seq<Event>)
    requires Legal(w, a + b)
    ensures Legal(w, a) && Legal(Run(w, a), b) && Run(w, a + b) == Run(Run(w, a), b)
    decreases |a|
  {
    if a == [] {
      assert a + b == b;
    } else {
      assert (a + b)[1..] == a[1..] + b;
      RunConcat(Next(w, a[0]), a[1..], b);
    }
  }

  /** A pool as its constructor leaves it: the factory yields distinct objects. */
  predicate Starts(w: World, made: seq<Made>) {
    && w == World(PoolState(Yields(made), false, {}, {}), map[], multiset{}, multiset{}, |made| - |Yields(made)|,
                  Log({}, Yields(made), 0, {}))
    && Distinct(Yields(made))
  }

  predicate Distinct(s: seq<Connection>) {
    forall i, j :: 0 <= i < j < |s| ==> s[i] != s[j]
  }

  /** No connection has two owners, where the queue and each handle are the possible owners. */
  ghost predicate Exclusive(available: seq<Connection>, holders: map<Handle, Connection>) {
    && Distinct(available)
    && (forall h <- holders :: holders[h] !in available)
    && (forall g, h :: g in holders && h in holders && g != h ==> holders[g] != holders[h])
  }

  /** Every hand-over so far was undone by exactly one release, unless a handle still owns it. */
  ghost predicate Balanced(holders: map<Handle, Connection>, taken: multiset<Connection>,
                           returned: multiset<Connection>)
  {
    forall c: Connection :: taken[c] == returned[c] + if c in holders.Values then 1 else 0
  }

  /** Scheduling and counting: no lost wake-up, shutdown, and where `size` connections went. */
  predicate Sound(pool: PoolState, held: nat, lost: nat, size: nat) {
    && pool.waiting !! pool.ready
    && (pool.waiting != {} ==> |pool.available| <= |pool.ready|)
    && (pool.shutdown ==> pool.available == [] && pool.waiting == {})
    && (!pool.shutdown ==> |pool.available| + held + lost == size)
  }

  ghost predicate Inv(w: World, size: nat) {
    && Sound(w.pool, |w.holders|, w.lost, size)
    && Exclusive(w.pool.available, w.holders)
    && Balanced(w.holders, w.taken, w.returned)
  }

  /** No connection that failed its last health check is queued or handed out. */
  ghost predicate NoneDead(w: World) {
    forall c :: c in w.log.dead ==> c !in w.pool.available && c !in w.holders.Values
  }

  /** The queue holds what was put in and not yet taken, in order. */
  predicate FirstInFirstOut(pool: PoolState, entered: seq<Connection>, served: nat) {
    !pool.shutdown ==> served <= |entered| && pool.available == entered[served..]
  }

  /** The threads inside `acquire` are blocked or woken. */
  predicate AllInside(pool: PoolState, inside: set<Thread>) {
    inside == pool.waiting + pool.ready
  }

  ghost predicate Logs(w: World) {
    NoneDead(w) && FirstInFirstOut(w.pool, w.log.entered, w.log.served) && AllInside(w.pool, w.log.inside)
  }

  lemma InsertHolder(available: seq<Connection>, holders: map<Handle, Connection>,
                     taken: multiset<Connection>, returned: multiset<Connection>, h: Handle, c: Connection)
    requires Exclusive(available, holders) && Balanced(holders, taken, returned) && available != []
    requires h !in holders
    requires c == available[0] || (c !in available && c !in holders.Values)
    ensures Exclusive(available[1..], holders[h := c])
    ensures Balanced(holders[h := c], taken + multiset{c}, returned)
  {
    assert available[0] !in available[1..];
    assert c !in holders.Values;
    var holders' := holders[h := c];
    assert holders'[h] == c && forall g <- holders :: holders'[g] == holders[g];
    assert forall v :: v in holders'.Values <==> v in holders.Values || v == c;
  }

  lemma RemoveHolder(available: seq<Connection>, holders: map<Handle, Connection>,
                     taken: multiset<Connection>, returned: multiset<Connection>, h: Handle)
    requires Exclusive(available, holders) && Balanced(holders, taken, returned) && h in holders
    ensures Exclusive(available, holders - {h}) && |holders - {h}| == |holders| - 1
    ensures holders[h] !in available && holders[h] !in (holders - {h}).Values
    ensures Balanced(holders - {h}, taken, returned + multiset{holders[h]})
  {
    var holders' := holders - {h};
    assert holders'.Keys == holders.Keys - {h};
    forall c: Connection ensures c in holders'.Values <==> c in holders.Values && c != holders[h] {
      if c in holders.Values && c != holders[h] {
        var g :| g in holders && holders[g] == c;
        assert g in holders';
      }
    }
  }

  lemma RenameHolder(available: seq<Connection>, holders: map<Handle, Connection>,
                     taken: multiset<Connection>, returned: multiset<Connection>, from: Handle, to: Handle)
    requires Exclusive(available, holders) && Balanced(holders, taken, returned)
    requires from in holders && to !in holders
    ensures var holders' := (holders - {from})[to := holders[from]];
            |holders'| == |holders| && Exclusive(available, holders') && Balanced(holders', taken, returned)
  {
    var holders' := (holders - {from})[to := holders[from]];
    assert holders'.Keys == holders.Keys - {from} + {to};
    forall c: Connection ensures c in holders'.Values <==> c in holders.Values {
      if c in holders.Values {
        var g :| g in holders && holders[g] == c;
        assert holders'[if g == from then to else g] == c;
      }
    }
  }

  lemma PushExclusive(available: seq<Connection>, holders: map<Handle, Connection>, c: Connection)
    requires Exclusive(available, holders) && c !in available && c !in holders.Values
    ensures Exclusive(available + [c], holders)
  {
  }

  lemma TakeKeepsInv(w: World, pool: PoolState, h: Handle, healthy: bool, made: Made, size: nat)
    requires Inv(w, size) && h !in w.holders && Fresh(w, made) && pool.CanProceed()
    requires pool == w.pool.(ready := pool.ready) && pool.ready <= w.pool.ready
    requires |w.pool.ready| <= |pool.ready| + 1
    ensures Inv(Settle(w, h, pool.Take(healthy, made)), size)
  {
    if !pool.shutdown {
      var w' := Settle(w, h, pool.Take(healthy, made));
      assert w'.pool.available == w.pool.available[1..];
      if healthy || made.Yielded? {
        var c := if healthy then w.pool.available[0] else made.conn;
        InsertHolder(w.pool.available, w.holders, w.taken, w.returned, h, c);
        assert w' == w.(pool := w'.pool, holders := w.holders[h := c], taken := w.taken + multiset{c});
      }
    }
  }

  lemma AcquireKeepsInv(w: World, e: Event, size: nat)
    requires Inv(w, size) && Enabled(w, e) && e.Acquire?
    ensures Inv(Next(w, e), size)
  {
    if w.pool.CanProceed() {
      TakeKeepsInv(w, w.pool, e.handle, e.healthy, e.made, size);
    }
  }

  lemma ResumedKeepsInv(w: World, e: Event, size: nat)
    requires Inv(w, size) && Enabled(w, e) && e.Resumed?
    ensures Inv(Next(w, e), size)
  {
    var running := w.pool.(ready := w.pool.ready - {e.thread});
    if w.pool.CanProceed() {
      TakeKeepsInv(w, running, e.handle, e.healthy, e.made, size);
    }
  }

  lemma DestroyKeepsInv(w: World, e: Event, size: nat)
    requires Inv(w, size) && Enabled(w, e) && e.Destroy? && e.handle in w.holders
    ensures Inv(Next(w, e), size)
  {
    RemoveHolder(w.pool.available, w.holders, w.taken, w.returned, e.handle);
    var holders := w.holders - {e.handle};
    if e.healthy {
      PushExclusive(w.pool.available, holders, w.holders[e.handle]);
    } else if e.made.Yielded? {
      assert forall c :: c in holders.Values ==> c in w.holders.Values;
      PushExclusive(w.pool.available, holders, e.made.conn);
    }
  }

  lemma StepKeepsInv(w: World, e: Event, size: nat)
    requires Inv(w, size) && Enabled(w, e)
    ensures Inv(Next(w, e), size)
  {
    match e
    case Acquire(_, _, _, _) => AcquireKeepsInv(w, e, size);
    case Resumed(_, _, _, _, _) => ResumedKeepsInv(w, e, size);
    case Move(from, to) =>
      if from in w.holders { RenameHolder(w.pool.available, w.holders, w.taken, w.returned, from, to); }
    case Destroy(h, _, _, _) => if h in w.holders { DestroyKeepsInv(w, e, size); }
    case Wakeup(_) =>
    case ShutDown =>
  }

  // ---- health, order, and the threads inside ----------------------------------------------------

  /** The connection an `acquire` hands out: the front one if it is healthy, else what the factory yields. */
  function Got(front: Connection, healthy: bool, made: Made): Option<Connection> {
    if healthy then Some(front) else if made.Yielded? then Some(made.conn) else None
  }

  lemma Serving(w: World, e: Event)
    requires Serves(w, e)
    ensures Next(w, e).pool.available == w.pool.available[1..] && !Next(w, e).pool.shutdown
    ensures Next(w, e).log.dead == Checked(w.log.dead, w.pool.available[0], e.healthy, e.made)
    ensures var got := Got(w.pool.available[0], e.healthy, e.made);
            && Answer(w, e) == Some(if got == None && e.made.Threw? then FactoryThrew else Handed(got))
            && Next(w, e).holders == if got.Some? then w.holders[e.handle := got.value] else w.holders
  {
  }

  lemma AliveWithOneMore(available: seq<Connection>, holders: map<Handle, Connection>, dead: set<Connection>,
                         h: Handle, healthy: bool, made: Made)
    requires available != [] && Exclusive(available, holders)
    requires forall c :: c in dead ==> c !in available && c !in holders.Values
    requires made.Yielded? ==> made.conn !in available && made.conn !in holders.Values
    ensures var got := Got(available[0], healthy, made);
            forall c :: c in Checked(dead, available[0], healthy, made) ==>
              && c !in available[1..]
              && c !in (if got.Some? then holders[h := got.value] else holders).Values
  {
    var front, got := available[0], Got(available[0], healthy, made);
    assert front !in available[1..] && front !in holders.Values;
    if got.Some? {
      assert forall v :: v in holders[h := got.value].Values ==> v in holders.Values || v == got.value;
    }
  }

  lemma ServedIsAlive(w: World, e: Event)
    requires Exclusive(w.pool.available, w.holders) && Enabled(w, e) && Serves(w, e) && NoneDead(w)
    ensures NoneDead(Next(w, e))
  {
    Serving(w, e);
    AliveWithOneMore(w.pool.available, w.holders, w.log.dead, e.handle, e.healthy, e.made);
  }

  lemma Returning(w: World, e: Event)
    requires Returns(w, e)
    ensures var got := Got(w.holders[e.handle], e.healthy, e.made);
            Next(w, e).pool.available == w.pool.available + if got.Some? then [got.value] else []
    ensures Next(w, e).holders == w.holders - {e.handle} && !Next(w, e).pool.shutdown
    ensures Next(w, e).log.dead == Checked(w.log.dead, w.holders[e.handle], e.healthy, e.made)
  {
  }

  lemma AliveWithOneLess(available: seq<Connection>, holders: map<Handle, Connection>, dead: set<Connection>,
                         h: Handle, healthy: bool, made: Made)
    requires h in holders && Exclusive(available, holders)
    requires forall c :: c in dead ==> c !in available && c !in holders.Values
    requires made.Yielded? ==> made.conn !in available && made.conn !in holders.Values
    ensures var got := Got(holders[h], healthy, made);
            forall c :: c in Checked(dead, holders[h], healthy, made) ==>
              && c !in available + (if got.Some? then [got.value] else [])
              && c !in (holders - {h}).Values
  {
    var rest := holders - {h};
    assert forall v :: v in rest.Values ==> v in holders.Values;
    assert holders[h] !in rest.Values;
  }

  lemma ReturnedIsAlive(w: World, e: Event)
    requires Exclusive(w.pool.available, w.holders) && Enabled(w, e) && Returns(w, e) && NoneDead(w)
    ensures NoneDead(Next(w, e))
  {
    Returning(w, e);
    AliveWithOneLess(w.pool.available, w.holders, w.log.dead, e.handle, e.healthy, e.made);
  }

  lemma OthersStayAlive(w: World, e: Event, size: nat)
    requires Inv(w, size) && Enabled(w, e) && NoneDead(w) && !Serves(w, e) && !Returns(w, e)
    ensures NoneDead(Next(w, e)) && Next(w, e).pool.available == if e.ShutDown? then [] else w.pool.available
  {
    match e
    case Move(from, to) =>
      if from in w.holders { RenameHolder(w.pool.available, w.holders, w.taken, w.returned, from, to); }
      assert forall v :: v in Next(w, e).holders.Values ==> v in w.holders.Values;
    case Destroy(h, _, _, _) =>
      if h in w.holders { RemoveHolder(w.pool.available, w.holders, w.taken, w.returned, h); }
    case _ =>
  }

  lemma StaysAliveStep(w: World, e: Event, size: nat)
    requires Inv(w, size) && Enabled(w, e) && NoneDead(w)
    ensures NoneDead(Next(w, e))
  {
    if Serves(w, e) {
      ServedIsAlive(w, e);
    } else if Returns(w, e) {
      ReturnedIsAlive(w, e);
    } else {
      OthersStayAlive(w, e, size);
    }
  }

  lemma StaysInOrderStep(w: World, e: Event, size: nat)
    requires Inv(w, size) && Enabled(w, e) && NoneDead(w)
    requires FirstInFirstOut(w.pool, w.log.entered, w.log.served)
    ensures FirstInFirstOut(Next(w, e).pool, Next(w, e).log.entered, Next(w, e).log.served)
  {
    if Serves(w, e) {
      Serving(w, e);
    } else if Returns(w, e) {
      Returning(w, e);
    } else {
      OthersStayAlive(w, e, size);
    }
  }

  lemma StaysInsideStep(w: World, e: Event)
    requires Enabled(w, e) && AllInside(w.pool, w.log.inside) && w.pool.waiting !! w.pool.ready
    ensures AllInside(Next(w, e).pool, Next(w, e).log.inside)
  {
  }

  lemma LogStep(w: World, e: Event, size: nat)
    requires Inv(w, size) && Enabled(w, e) && Logs(w)
    ensures Logs(Next(w, e))
  {
    StaysAliveStep(w, e, size);
    StaysInOrderStep(w, e, size);
    StaysInsideStep(w, e);
  }

  lemma {:induction false} RunKeepsInv(w: World, es: seq<Event>, size: nat)
    requires Inv(w, size) && Legal(w, es)
    ensures Inv(Run(w, es), size)
    ensures Logs(w) ==> Logs(Run(w, es))
    decreases |es|
  {
    if es != [] {
      StepKeepsInv(w, es[0], size);
      if Logs(w) { LogStep(w, es[0], size); }
      RunKeepsInv(Next(w, es[0]), es[1..], size);
    }
  }

  lemma StartsWithInv(w: World, made: seq<Made>)
    requires Starts(w, made)
    ensures Inv(w, |made|) && Logs(w)
  {
    assert w.pool.available[0..] == w.pool.available;
  }

  lemma ReachableInv(w: World, made: seq<Made>, es: seq<Event>)
    requires Starts(w, made) && Legal(w, es)
    ensures Inv(Run(w, es), |made|) && Logs(Run(w, es))
  {
    StartsWithInv(w, made);
    RunKeepsInv(w, es, |made|);
  }

  // ---- main results -----------------------------------------------------------------------

  /**
   No wake-up is lost: while a thread is blocked, the woken threads suffice to take every available
   connection, and whichever of them runs next does take one.
   */
  lemma NoLostWakeup(w: World, made: seq<Made>, es: seq<Event>)
    requires Starts(w, made) && Legal(w, es)
    ensures var s := Run(w, es).pool;
            s.waiting != {} ==>
              && |s.available| <= |s.ready|
              && (s.available != [] ==> s.ready != {})
              && forall t, expired, healthy, made' :: t in s.ready && s.available != [] ==>
                   var (s', outcome) := s.Resume(t, expired, healthy, made');
                   outcome != Blocked && outcome != TimedOut && s'.available == s.available[1..]
  {
    ReachableInv(w, made, es);
    if Run(w, es).pool.waiting != {} {
      WokenSuffice(Run(w, es).pool, |Run(w, es).holders|, Run(w, es).lost, |made|);
    }
  }

  lemma WokenSuffice(s: PoolState, held: nat, lost: nat, size: nat)
    requires Sound(s, held, lost, size) && s.waiting != {}
    ensures s.available != [] ==> s.ready != {}
    ensures forall t, expired, healthy, made' :: t in s.ready && s.available != [] ==>
              var (s', outcome) := s.Resume(t, expired, healthy, made');
              outcome != Blocked && outcome != TimedOut && s'.available == s.available[1..]
  {
  }

  /** Once every woken thread has run, a blocked thread means an empty queue. */
  lemma QuiescentMeansDrained(w: World, made: seq<Made>, es: seq<Event>)
    requires Starts(w, made) && Legal(w, es) && Run(w, es).pool.ready == {}
    ensures Run(w, es).pool.waiting == {} || Run(w, es).pool.available == []
  {
    ReachableInv(w, made, es);
  }

  /**
   Conservation: before shutdown the connections queued, owned by handles and lost add up to the
   pool size, so with a factory that always yields nothing leaks and nothing is duplicated.
   */
  lemma Conservation(w: World, made: seq<Made>, es: seq<Event>)
    requires Starts(w, made) && Legal(w, es) && !Run(w, es).pool.shutdown
    ensures var w' := Run(w, es);
            && |w'.pool.available| + |w'.holders| + w'.lost == |made|
            && ((forall m <- made :: m.Yielded?) && (forall e <- es :: FactoryYields(e)) ==>
                  |w'.pool.available| + |w'.holders| == |made|)
  {
    ReachableInv(w, made, es);
    if (forall m <- made :: m.Yielded?) && (forall e <- es :: FactoryYields(e)) {
      NothingLost(w, es);
      assert forall i :: 0 <= i < |made| ==> made[i] in made;
      YieldsAllIff(made);
    }
  }

  /**
   No connection that failed its last health check is queued or owned by a handle: whoever finds one
   broken, at an `acquire` or at a release, replaces it or is left without.
   */
  lemma NoDeadConnection(w: World, made: seq<Made>, es: seq<Event>)
    requires Starts(w, made) && Legal(w, es)
    ensures var w' := Run(w, es);
            forall c :: c in w'.log.dead ==> c !in w'.pool.available && forall h <- w'.holders :: w'.holders[h] != c
  {
    ReachableInv(w, made, es);
  }

  /** The connections are handed out in the order in which they were queued, replacements in the place of the broken. */
  lemma QueueIsFirstInFirstOut(w: World, made: seq<Made>, es: seq<Event>)
    requires Starts(w, made) && Legal(w, es) && !Run(w, es).pool.shutdown
    ensures var w' := Run(w, es);
            w'.log.served <= |w'.log.entered| && w'.pool.available == w'.log.entered[w'.log.served..]
  {
    ReachableInv(w, made, es);
  }

  /**
   What an `acquire` answers, first or after a wake-up: a healthy connection in its turn, or just what
   the factory made of a broken one's turn. It waits only for an empty queue, and gives up only on that.
   */
  lemma AcquireAnswers(w: World, made: seq<Made>, es: seq<Event>, e: Event)
    requires Starts(w, made) && Legal(w, es) && Enabled(Run(w, es), e) && (e.Acquire? || e.Resumed?)
    ensures var w' := Run(w, es);
            var log := w'.log;
            Answer(w', e) ==
            Some(if w'.pool.shutdown then ShuttingDown
                 else if |log.entered| <= log.served then if e.Resumed? && e.expired then TimedOut else Blocked
                 else if e.healthy then Handed(Some(log.entered[log.served]))
                 else match e.made
                   case Yielded(conn) => Handed(Some(conn))
                   case Null => Handed(None)
                   case Threw => FactoryThrew)
    ensures var w', answer := Run(w, es), Answer(Run(w, es), e);
            Next(w', e).holders ==
            match answer case Some(Handed(Some(conn))) => w'.holders[e.handle := conn] case _ => w'.holders
  {
    ReachableInv(w, made, es);
    var w' := Run(w, es);
    if Serves(w', e) {
      Serving(w', e);
      assert w'.log.entered[w'.log.served..][0] == w'.log.entered[w'.log.served];
    } else {
      NotServing(w', e);
    }
  }

  lemma NotServing(w: World, e: Event)
    requires (e.Acquire? || e.Resumed?) && !Serves(w, e)
    ensures Answer(w, e) ==
            Some(if w.pool.shutdown then ShuttingDown else if e.Resumed? && e.expired then TimedOut else Blocked)
    ensures Next(w, e).holders == w.holders
  {
  }

  /** A thread inside `acquire` is blocked or has been woken, never both; shutdown leaves none blocked. */
  lemma NoThreadForgotten(w: World, made: seq<Made>, es: seq<Event>)
    requires Starts(w, made) && Legal(w, es)
    ensures var w' := Run(w, es);
            && w'.log.inside == w'.pool.waiting + w'.pool.ready && w'.pool.waiting !! w'.pool.ready
            && (w'.pool.shutdown ==> w'.pool.ready == w'.log.inside)
  {
    ReachableInv(w, made, es);
  }

  /** `notify_one`: a release wakes one blocked thread if there is one, even when it queued nothing. */
  lemma ReleaseWakesOne(w: World, e: Event)
    requires Enabled(w, e) && e.Destroy? && e.handle in w.holders && !w.pool.shutdown
    ensures var woken := if w.pool.waiting == {} then {} else {e.pick};
            && Next(w, e).pool.waiting == w.pool.waiting - woken && Next(w, e).pool.ready == w.pool.ready + woken
            && woken <= w.pool.waiting
  {
  }

  predicate FactoryYields(e: Event) {
    match e
    case Acquire(_, _, healthy, made) => healthy || made.Yielded?
    case Resumed(_, _, _, healthy, made) => healthy || made.Yielded?
    case Destroy(_, healthy, made, _) => healthy || made.Yielded?
    case _ => true
  }

  lemma {:induction false} NothingLost(w: World, es: seq<Event>)
    requires Legal(w, es) && forall e <- es :: FactoryYields(e)
    ensures Run(w, es).lost == w.lost
    decreases |es|
  {
    if es != [] {
      assert FactoryYields(es[0]);
      NothingLost(Next(w, es[0]), es[1..]);
    }
  }

  /** No two handles, and no handle and the queue, ever share a connection. */
  lemma NoSharedConnection(w: World, made: seq<Made>, es: seq<Event>)
    requires Starts(w, made) && Legal(w, es)
    ensures Exclusive(Run(w, es).pool.available, Run(w, es).holders)
  {
    ReachableInv(w, made, es);
  }

  /**
   Each ownership is released exactly once, however often it was moved: when no handle owns
   anything any more, the releases match the hand-overs connection by connection.
   */
  lemma ReleasedExactlyOnce(w: World, made: seq<Made>, es: seq<Event>)
    requires Starts(w, made) && Legal(w, es)
    ensures Balanced(Run(w, es).holders, Run(w, es).taken, Run(w, es).returned)
    ensures Run(w, es).holders == map[] ==> Run(w, es).returned == Run(w, es).taken
  {
    ReachableInv(w, made, es);
  }

  /**
   Shutdown is final: in every later state the queue is empty and nobody is blocked, every
   `acquire` that runs is refused, and a release puts nothing back.
   */
  lemma {:induction false} ShutdownIsFinal(w: World, made: seq<Made>, before: seq<Event>, after: seq<Event>, e: Event)
    requires Starts(w, made) && Legal(w, before + [ShutDown] + after + [e])
    ensures var w' := Run(w, before + [ShutDown] + after);
            && w'.pool.shutdown && w'.pool.available == [] && w'.pool.waiting == {}
            && (Answer(w', e).Some? ==> Answer(w', e) == Some(ShuttingDown))
            && Next(w', e).pool.available == [] && Next(w', e).pool.waiting == {}
            && Next(w', e).taken == w'.taken
  {
    RunConcat(w, before + [ShutDown] + after, [e]);
    RunConcat(w, before + [ShutDown], after);
    RunConcat(w, before, [ShutDown]);
    var w1, w' := Run(w, before + [ShutDown]), Run(w, before + [ShutDown] + after);
    RunOfOne(Run(w, before), ShutDown);
    StaysShut(w1, after);
    ReachableInv(w, made, before + [ShutDown] + after);
    ShutStep(w', e);
  }

  lemma RunOfOne(w: World, e: Event)
    ensures Run(w, [e]) == Next(w, e)
  {
    assert [e][1..] == [];
  }

  /** A step of a pool that is shut, empty and without blocked threads. */
  lemma ShutStep(w: World, e: Event)
    requires w.pool.shutdown && w.pool.available == [] && w.pool.waiting == {}
    ensures Answer(w, e).Some? ==> Answer(w, e) == Some(ShuttingDown)
    ensures Next(w, e).pool.available == [] && Next(w, e).pool.waiting == {} && Next(w, e).taken == w.taken
  {
  }

  lemma {:induction false} StaysShut(w: World, es: seq<Event>)
    requires w.pool.shutdown && Legal(w, es)
    ensures Run(w, es).pool.shutdown
    decreases |es|
  {
    if es != [] {
      StaysShut(Next(w, es[0]), es[1..]);
    }
  }
}
