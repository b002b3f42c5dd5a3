/**
 The bounded connection pool and its RAII handle.

 Every critical section of the pool runs under one mutex, so each is one atomic step. `acquire`
 has two: the first either takes a connection or blocks on the condition variable; a woken thread
 later re-takes the mutex and re-evaluates the predicate. The health check, the factory and the
 clock belong to the environment, so their answers are parameters.
 */
module ConnectionPools {
  import opened Wrappers

  type Connection = nat
  type Thread = nat
  type Handle = nat

  /** The factory yields a connection, returns null, or throws. */
  datatype Made = Yielded(conn: Connection) | Null | Threw

  datatype Outcome = Blocked | Handed(conn: Option<Connection>) | TimedOut | ShuttingDown | FactoryThrew

  /** `waiting`: blocked in `wait_for`. `ready`: woken, but yet to run with the mutex. */
  datatype PoolState = PoolState(available: seq<Connection>, shutdown: bool,
                                 waiting: set<Thread>, ready: set<Thread>)
  {
    predicate CanProceed() {
      available != [] || shutdown
    }

    /** The tail of `acquire`, from the shutdown test on. */
    function Take(healthy: bool, made: Made): (PoolState, Outcome)
      requires CanProceed()
    {
      if shutdown then (this, ShuttingDown)
      else
        var popped := this.(available := available[1..]);
        if healthy then (popped, Handed(Some(available[0])))
        else match made
          case Yielded(conn) => (popped, Handed(Some(conn)))
          case Null => (popped, Handed(None))
          case Threw => (popped, FactoryThrew)
    }

    function Enter(t: Thread, healthy: bool, made: Made): (PoolState, Outcome) {
      if CanProceed() then Take(healthy, made)
      else (this.(waiting := waiting + {t}), Blocked)
    }

    function Resume(t: Thread, expired: bool, healthy: bool, made: Made): (PoolState, Outcome) {
      var running := this.(ready := ready - {t});
      if CanProceed() then running.Take(healthy, made)
      else if expired then (running, TimedOut)
      else (running.(waiting := waiting + {t}), Blocked)
    }

    /** One thread leaves the condition variable: notified, timed out, or spuriously woken. */
    function Wake(t: Thread): PoolState {
      this.(waiting := waiting - {t}, ready := ready + {t})
    }

    /** `notify_one`; the scheduler's choice among the waiting threads is `pick`. */
    function NotifyOne(pick: Thread): PoolState {
      if waiting == {} then this else Wake(pick)
    }

    function Push(conn: Connection): PoolState {
      this.(available := available + [conn])
    }

    function Release(conn: Option<Connection>, healthy: bool, made: Made, pick: Thread): PoolState {
      if conn.None? || shutdown then this
      else if healthy then Push(conn.value).NotifyOne(pick)
      else if made.Yielded? then Push(made.conn).NotifyOne(pick)
      else NotifyOne(pick)
    }

    function Shutdown(): PoolState {
      PoolState([], true, {}, ready + waiting)
    }
  }

  function Yields(made: seq<Made>): (r: seq<Connection>)
    ensures |r| <= |made|
  {
    if made == [] then [] else (if made[0].Yielded? then [made[0].conn] else []) + Yields(made[1..])
  }

  /** Pre-creation fills the pool exactly when every call yields a connection. */
  lemma {:induction false} YieldsAllIff(made: seq<Made>)
    ensures |Yields(made)| == |made| <==> forall i :: 0 <= i < |made| ==> made[i].Yielded?
  {
    if made != [] {
      var rest := made[1..];
      YieldsAllIff(rest);
      assert forall i :: 0 <= i < |rest| ==> rest[i] == made[i + 1];
    }
  }

  lemma Assoc(a: seq<Connection>, b: seq<Connection>, c: seq<Connection>)
    ensures a + (b + c) == a + b + c
  {
  }

  lemma YieldsCons(m: Made, rest: seq<Made>)
    ensures Yields([m] + rest) == (if m.Yielded? then [m.conn] else []) + Yields(rest)
  {
    assert ([m] + rest)[1..] == rest;
  }

  lemma {:induction false} YieldsConcat(a: seq<Made>, b: seq<Made>)
    ensures Yields(a + b) == Yields(a) + Yields(b)
  {
    if a == [] {
      assert a + b == b && Yields(a) + Yields(b) == Yields(b);
    } else {
      var m, rest := a[0], a[1..];
      YieldsConcat(rest, b);
      assert a == [m] + rest && a + b == [m] + (rest + b);
      YieldsCons(m, rest);
      YieldsCons(m, rest + b);
      Assoc(if m.Yielded? then [m.conn] else [], Yields(rest), Yields(b));
    }
  }

  /** Each yielded connection has its place; nulls and exceptions leave none. */
  lemma YieldsInOrder(before: seq<Made>, m: Made, after: seq<Made>)
    ensures Yields(before + [m] + after) == Yields(before) + (if m.Yielded? then [m.conn] else []) + Yields(after)
  {
    YieldsConcat(before + [m], after);
    YieldsConcat(before, [m]);
    assert [m][1..] == [];
  }

  class ConnectionPool {
    const poolSize: nat
    var available: seq<Connection>
    var shutdown: bool
    var waiting: set<Thread>
    var ready: set<Thread>

    ghost function State(): PoolState reads this {
      PoolState(available, shutdown, waiting, ready)
    }

    /** Calls the factory `poolSize` times; a null or an exception leaves one connection fewer. */
    constructor (poolSize: nat, made: seq<Made>)
      requires |made| == poolSize
      ensures this.poolSize == poolSize
      ensures State() == PoolState(Yields(made), false, {}, {})
    {
      this.poolSize := poolSize;
      available, shutdown, waiting, ready := [], false, {}, {};
      new;
      for i := 0 to poolSize
        invariant State() == PoolState(Yields(made[..i]), false, {}, {})
      {
        YieldsInOrder(made[..i], made[i], []);
        assert made[..i] + [made[i]] + [] == made[..i + 1];
        if made[i].Yielded? {
          available := available + [made[i].conn];
        }
      }
      assert made[..poolSize] == made;
    }

    method Take(healthy: bool, made: Made) returns (outcome: Outcome)
      requires State().CanProceed()
      modifies this
      ensures (State(), outcome) == old(State().Take(healthy, made))
    {
      if shutdown {
        return ShuttingDown;
      }
      var conn := available[0];
      available := available[1..];
      if healthy {
        return Handed(Some(conn));
      }
      match made
      case Yielded(fresh') => return Handed(Some(fresh'));
      case Null => return Handed(None);
      case Threw => return FactoryThrew;
    }

    method BeginAcquire(t: Thread, healthy: bool, made: Made) returns (outcome: Outcome)
      modifies this
      ensures (State(), outcome) == old(State().Enter(t, healthy, made))
    {
      if available == [] && !shutdown {
        waiting := waiting + {t};
        return Blocked;
      }
      outcome := Take(healthy, made);
    }

    method ResumeAcquire(t: Thread, expired: bool, healthy: bool, made: Made) returns (outcome: Outcome)
      requires t in ready
      modifies this
      ensures (State(), outcome) == old(State().Resume(t, expired, healthy, made))
    {
      ready := ready - {t};
      if available == [] && !shutdown {
        if expired {
          return TimedOut;
        }
        waiting := waiting + {t};
        return Blocked;
      }
      outcome := Take(healthy, made);
    }

    method NotifyOne(pick: Thread)
      requires waiting != {} ==> pick in waiting
      modifies this
      ensures State() == old(State().NotifyOne(pick))
    {
      if waiting != {} {
        waiting, ready := waiting - {pick}, ready + {pick};
      }
    }

    method Release(conn: Option<Connection>, healthy: bool, made: Made, pick: Thread)
      requires waiting != {} ==> pick in waiting
      modifies this
      ensures State() == old(State().Release(conn, healthy, made, pick))
    {
      if conn.None? || shutdown {
        return;
      }
      if healthy {
        available := available + [conn.value];
      } else if made.Yielded? {
        available := available + [made.conn];
      }
      NotifyOne(pick);
    }

    method Shutdown()
      modifies this
      ensures State() == old(State().Shutdown())
    {
      shutdown := true;
      while available != []
        invariant State() == old(State()).(shutdown := true, available := available)
        decreases |available|
      {
        available := available[1..];
      }
      waiting, ready := {}, ready + waiting;
    }
  }

  /** The move-only RAII handle: a non-empty one owes the pool exactly one release. */
  class PooledConnection {
    const pool: ConnectionPool
    var conn: Option<Connection>

    /** Runs when the handle's `acquire` has returned `conn`. */
    constructor (pool: ConnectionPool, conn: Option<Connection>)
      ensures this.pool == pool && this.conn == conn
    {
      this.pool, this.conn := pool, conn;
    }

    constructor Move(other: PooledConnection)
      modifies other
      ensures pool == other.pool && conn == old(other.conn) && other.conn == None
    {
      pool, conn := other.pool, other.conn;
      new;
      other.conn := None;
    }

    method Destroy(healthy: bool, made: Made, pick: Thread)
      requires pool.waiting != {} ==> pick in pool.waiting
      modifies this, pool
      ensures pool.State() == old(pool.State().Release(conn, healthy, made, pick))
      ensures conn == None
    {
      if conn.Some? {
        pool.Release(conn, healthy, made, pick);
        conn := None;
      }
    }
  }
}
