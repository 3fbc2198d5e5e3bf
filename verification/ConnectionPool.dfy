/** internal/pool/pool.go: the connection pool of one broker.  `idle` is a buffered
    channel of connections, `sem` a buffered channel used as a counting semaphore,
    both with capacity maxSize. */
module ConnectionPool {
  import opened Picking
  import opened Wire

  type Conn = nat

  const SECOND := 1_000_000_000
  const DEFAULT_MAX_CONNECTIONS := 50
  const DEFAULT_IDLE_TIMEOUT := 30 * SECOND

  function MaxSize(configured: int): (n: nat)
    ensures n > 0
  {
    if configured <= 0 then DEFAULT_MAX_CONNECTIONS else configured
  }

  // ------------------------------------------------------ every interleaving of calls

  /** Who has a connection in hand: a Get that took it and has yet to check it, a
      caller that Get returned it to, or the cleanup that drained it. */
  datatype Holder = Getter | Caller | Cleaner

  /** A call that occupies a slot without its connection being idle. */
  datatype Local = Holding(who: Holder, conn: Conn) | Dialing | Releasing

  datatype Pool = Pool(maxSize: nat, idle: seq<Conn>, sem: nat, locals: multiset<Local>, dialed: nat, closed: set<Conn>)

  datatype Step =
    | TakeIdle(who: Holder)
    | Acquire
    | Dial(ok: bool)
    | Return(conn: Conn)
    | Close(who: Holder, conn: Conn)
    | PutIdle(who: Holder, conn: Conn)
    | Release

  /** A channel operation that would block is not possible. */
  predicate Possible(p: Pool, step: Step) {
    match step
    case TakeIdle(who) => !who.Caller? && p.idle != []
    case Acquire => p.sem < p.maxSize
    case Dial(_) => Dialing in p.locals
    case Return(conn) => Holding(Getter, conn) in p.locals
    case Close(who, conn) => Holding(who, conn) in p.locals
    case PutIdle(who, conn) => MayPut(p, who, conn) && |p.idle| < p.maxSize
    case Release => Releasing in p.locals && p.sem > 0
  }

  /** Callers and the cleanup put connections back; a Get returns or closes its own. */
  predicate MayPut(p: Pool, who: Holder, conn: Conn) {
    !who.Getter? && Holding(who, conn) in p.locals
  }

  function Moved(p: Pool, l: Local, l': Local): Pool {
    p.(locals := p.locals - multiset{l} + multiset{l'})
  }

  function Next(p: Pool, step: Step): Pool {
    if !Possible(p, step) then p else
    match step
    case TakeIdle(who) => p.(idle := p.idle[1..], locals := p.locals + multiset{Holding(who, p.idle[0])})
    case Acquire => p.(sem := p.sem + 1, locals := p.locals + multiset{Dialing})
    case Dial(ok) =>
      if ok then Moved(p, Dialing, Holding(Caller, p.dialed)).(dialed := p.dialed + 1)
      else Moved(p, Dialing, Releasing)
    case Return(conn) => Moved(p, Holding(Getter, conn), Holding(Caller, conn))
    case Close(who, conn) => Moved(p, Holding(who, conn), Releasing).(closed := p.closed + {conn})
    case PutIdle(who, conn) => p.(idle := p.idle + [conn], locals := p.locals - multiset{Holding(who, conn)})
    case Release => p.(sem := p.sem - 1, locals := p.locals - multiset{Releasing})
  }

  function Run(configured: int, steps: seq<Step>): Pool {
    if steps == [] then Pool(MaxSize(configured), [], 0, multiset{}, 0, {})
    else Next(Run(configured, steps[..|steps| - 1]), steps[|steps| - 1])
  }

  /** How many calls have a connection in hand. */
  function InHands(locals: multiset<Local>, conn: Conn): nat {
    locals[Holding(Getter, conn)] + locals[Holding(Caller, conn)] + locals[Holding(Cleaner, conn)]
  }

  /** How many times a connection is idle or in hand. */
  function Holds(p: Pool, conn: Conn): nat {
    multiset(p.idle)[conn] + InHands(p.locals, conn)
  }

  ghost predicate Conserved(p: Pool) {
    && p.sem == |p.idle| + |p.locals| <= p.maxSize
    && (forall c :: c in p.closed ==> c < p.dialed)
    && (forall c: Conn :: Holds(p, c) == if c < p.dialed && c !in p.closed then 1 else 0)
  }

  lemma SlotsKept(p: Pool, step: Step)
    requires p.sem == |p.idle| + |p.locals| <= p.maxSize
    ensures var p' := Next(p, step);
            p'.maxSize == p.maxSize && p'.sem == |p'.idle| + |p'.locals| <= p'.maxSize
  {
  }

  lemma TakeSplits(idle: seq<Conn>)
    requires idle != []
    ensures multiset(idle) == multiset{idle[0]} + multiset(idle[1..])
  {
    assert idle == [idle[0]] + idle[1..];
  }

  lemma InHand(p: Pool, who: Holder, conn: Conn)
    requires Conserved(p) && Holding(who, conn) in p.locals
    ensures conn < p.dialed && conn !in p.closed
    ensures conn !in p.idle && p.locals[Holding(who, conn)] == 1
    ensures forall other :: other != who ==> Holding(other, conn) !in p.locals
  {
    assert Holds(p, conn) >= 1;
    assert conn in p.idle ==> multiset(p.idle)[conn] >= 1;
    forall other | other != who ensures Holding(other, conn) !in p.locals {
      assert other.Getter? || other.Caller? || other.Cleaner?;
      assert who.Getter? || who.Caller? || who.Cleaner?;
    }
  }

  predicate Has(l: Local, c: Conn) {
    l.Holding? && l.conn == c
  }

  lemma HandsGain(locals: multiset<Local>, l: Local, c: Conn)
    ensures InHands(locals + multiset{l}, c) == InHands(locals, c) + (if Has(l, c) then 1 else 0)
  {
    if Has(l, c) {
      assert l.who.Getter? || l.who.Caller? || l.who.Cleaner?;
    }
  }

  lemma HandsLose(locals: multiset<Local>, l: Local, c: Conn)
    requires l in locals
    ensures InHands(locals - multiset{l}, c) == InHands(locals, c) - (if Has(l, c) then 1 else 0)
  {
    HandsGain(locals - multiset{l}, l, c);
    assert locals - multiset{l} + multiset{l} == locals;
  }

  lemma HandsMove(p: Pool, l: Local, l': Local, c: Conn)
    requires l in p.locals
    ensures InHands(Moved(p, l, l').locals, c)
         == InHands(p.locals, c) - (if Has(l, c) then 1 else 0) + (if Has(l', c) then 1 else 0)
  {
    HandsLose(p.locals, l, c);
    HandsGain(p.locals - multiset{l}, l', c);
  }

  lemma TakeKeepsHolds(p: Pool, who: Holder, c: Conn)
    requires Possible(p, TakeIdle(who))
    ensures Holds(Next(p, TakeIdle(who)), c) == Holds(p, c)
  {
    TakeSplits(p.idle);
    HandsGain(p.locals, Holding(who, p.idle[0]), c);
  }

  lemma PutKeepsHolds(p: Pool, who: Holder, conn: Conn, c: Conn)
    requires Possible(p, PutIdle(who, conn))
    ensures Holds(Next(p, PutIdle(who, conn)), c) == Holds(p, c)
  {
    assert multiset(p.idle + [conn]) == multiset(p.idle) + multiset{conn};
    HandsLose(p.locals, Holding(who, conn), c);
  }

  lemma SlotStepHolds(p: Pool, step: Step, c: Conn)
    requires Possible(p, step) && (step.Acquire? || step.Release?)
    ensures Holds(Next(p, step), c) == Holds(p, c)
  {
    if step.Acquire? {
      HandsGain(p.locals, Dialing, c);
    } else {
      HandsLose(p.locals, Releasing, c);
    }
  }

  /** Only dialing and closing change how often a connection is held. */
  lemma HoldsStep(p: Pool, step: Step, c: Conn)
    requires Possible(p, step)
    ensures Holds(Next(p, step), c) == Holds(p, c)
      + (if step.Dial? && step.ok && c == p.dialed then 1 else 0) - (if step.Close? && step.conn == c then 1 else 0)
  {
    match step
    case TakeIdle(who) => TakeKeepsHolds(p, who, c);
    case PutIdle(who, conn) => PutKeepsHolds(p, who, conn, c);
    case Dial(ok) => HandsMove(p, Dialing, if ok then Holding(Caller, p.dialed) else Releasing, c);
    case Return(conn) => HandsMove(p, Holding(Getter, conn), Holding(Caller, conn), c);
    case Close(who, conn) => HandsMove(p, Holding(who, conn), Releasing, c);
    case _ => SlotStepHolds(p, step, c);
  }

  lemma NextNames(p: Pool, step: Step)
    requires Possible(p, step)
    ensures Next(p, step).dialed == p.dialed + (if step.Dial? && step.ok then 1 else 0)
    ensures Next(p, step).closed == p.closed + (if step.Close? then {step.conn} else {})
  {
  }

  lemma HoldsKept(p: Pool, step: Step, c: Conn)
    requires Conserved(p) && Possible(p, step)
    ensures Holds(Next(p, step), c) == if c < Next(p, step).dialed && c !in Next(p, step).closed then 1 else 0
  {
    if step.Close? {
      InHand(p, step.who, step.conn);
    }
    NextNames(p, step);
    HoldsStep(p, step, c);
  }

  lemma NextConserved(p: Pool, step: Step)
    requires Conserved(p)
    ensures Conserved(Next(p, step))
  {
    SlotsKept(p, step);
    if Possible(p, step) {
      NextNames(p, step);
      if step.Close? {
        InHand(p, step.who, step.conn);
      }
      forall c: Conn { HoldsKept(p, step, c); }
    }
  }

  lemma {:induction false} AlwaysConserved(configured: int, steps: seq<Step>)
    ensures Conserved(Run(configured, steps))
  {
    if steps != [] {
      AlwaysConserved(configured, steps[..|steps| - 1]);
      NextConserved(Run(configured, steps[..|steps| - 1]), steps[|steps| - 1]);
    }
  }

  /** Under every interleaving of Get, Put, cleanup and health checks, the occupied
      slots are the idle connections plus those in hand, being dialed or about to be
      released, and never more than the maximum. */
  lemma {:induction false} SlotsAreConserved(configured: int, steps: seq<Step>)
    ensures var p := Run(configured, steps);
            p.sem == |p.idle| + |p.locals| <= p.maxSize
  {
    AlwaysConserved(configured, steps);
  }

  /** So releasing a slot and putting a connection back never block. */
  lemma {:induction false} GivingBackNeverBlocks(configured: int, steps: seq<Step>, who: Holder, conn: Conn)
    ensures var p := Run(configured, steps);
            && (Releasing in p.locals ==> Possible(p, Release))
            && (MayPut(p, who, conn) ==> Possible(p, PutIdle(who, conn)))
  {
    AlwaysConserved(configured, steps);
    var p := Run(configured, steps);
    if p.locals != multiset{} {
      assert |p.locals| > 0;
    }
  }

  /** A connection has at most one holder; it has one exactly from when it is opened
      until it is closed, so none is leaked and none is used after its close. */
  lemma {:induction false} OneHolder(configured: int, steps: seq<Step>, conn: Conn)
    ensures var p := Run(configured, steps);
            Holds(p, conn) == if conn < p.dialed && conn !in p.closed then 1 else 0
  {
    AlwaysConserved(configured, steps);
  }

  /** A Get that found every slot taken waits on the idle channel, not for a slot. */
  predicate MustWait(p: Pool) {
    !Possible(p, TakeIdle(Getter))
  }

  lemma RunSnoc(configured: int, steps: seq<Step>, step: Step, p: Pool)
    requires Run(configured, steps) == p
    ensures Run(configured, steps + [step]) == Next(p, step)
  {
    assert (steps + [step])[..|steps + [step]| - 1] == steps;
  }

  /** In every run, one step ends the wait if and only if it puts a connection back, for
      a caller or for the cleanup. */
  lemma WaitsForAReturnOnly(configured: int, steps: seq<Step>, step: Step)
    requires MustWait(Run(configured, steps))
    ensures MustWait(Run(configured, steps + [step]))
       <==> !(step.PutIdle? && Possible(Run(configured, steps), step))
  {
    RunSnoc(configured, steps, step, Run(configured, steps));
  }

  lemma CloseFreesASlot(p: Pool, conn: Conn)
    requires Conserved(p) && MustWait(p) && Holding(Caller, conn) in p.locals
    ensures var p' := Next(Next(p, Close(Caller, conn)), Release);
            MustWait(p') && Possible(p', Acquire)
  {
    var p1 := Next(p, Close(Caller, conn));
    assert Releasing in p1.locals && |p1.locals| > 0;
    SlotsKept(p, Close(Caller, conn));
  }

  /** So when a caller closes its connection and releases the slot, a waiting Get goes
      on waiting, beside a slot that is free. */
  lemma WaitsBesideAFreeSlot(configured: int, steps: seq<Step>, conn: Conn)
    requires MustWait(Run(configured, steps)) && Holding(Caller, conn) in Run(configured, steps).locals
    ensures var p := Run(configured, steps + [Close(Caller, conn)] + [Release]);
            MustWait(p) && Possible(p, Acquire)
  {
    var p := Run(configured, steps);
    AlwaysConserved(configured, steps);
    RunSnoc(configured, steps, Close(Caller, conn), p);
    RunSnoc(configured, steps + [Close(Caller, conn)], Release, Next(p, Close(Caller, conn)));
    CloseFreesASlot(p, conn);
  }

  // ------------------------------------------------------------------------ the pool

  datatype PooledConn = PooledConn(conn: Conn, lastUsed: int)

  datatype GetResult = Reused(conn: Conn) | Dialed(conn: Conn) | DialFailed | Blocked

  predicate Expired(pc: PooledConn, now: int, idleTimeout: int) {
    now - pc.lastUsed > idleTimeout
  }

  /** How many connections at the front of the channel have expired. */
  function StaleCount(idle: seq<PooledConn>, now: int, idleTimeout: int): (n: nat)
    ensures n <= |idle|
  {
    if idle == [] || !Expired(idle[0], now, idleTimeout) then 0 else 1 + StaleCount(idle[1..], now, idleTimeout)
  }

  /** That is, up to the first that has not. */
  lemma {:induction false} StaleUpToFirstLive(idle: seq<PooledConn>, now: int, idleTimeout: int)
    ensures var n := StaleCount(idle, now, idleTimeout);
            && (forall i :: 0 <= i < n ==> now - idle[i].lastUsed > idleTimeout)
            && (n < |idle| ==> now - idle[n].lastUsed <= idleTimeout)
  {
    if idle != [] && Expired(idle[0], now, idleTimeout) {
      StaleUpToFirstLive(idle[1..], now, idleTimeout);
      var n := StaleCount(idle, now, idleTimeout);
      forall i | 0 <= i < n ensures now - idle[i].lastUsed > idleTimeout {
        assert i > 0 ==> idle[i] == idle[1..][i - 1];
      }
    }
  }

  /** The connections the cleanup keeps, in order. */
  function Unexpired(idle: seq<PooledConn>, now: int, idleTimeout: int): seq<PooledConn> {
    if idle == [] then []
    else
      var kept, last := Unexpired(idle[..|idle| - 1], now, idleTimeout), idle[|idle| - 1];
      if Expired(last, now, idleTimeout) then kept else kept + [last]
  }

  /** By position: exactly those idle for at most the timeout. */
  lemma {:induction false} UnexpiredAt(idle: seq<PooledConn>, now: int, idleTimeout: int) returns (at: seq<nat>)
    ensures Picks(Unexpired(idle, now, idleTimeout), idle, at)
    ensures forall j :: 0 <= j < |idle| ==> (j in at <==> now - idle[j].lastUsed <= idleTimeout)
  {
    at := [];
    if idle != [] {
      var last := |idle| - 1;
      at := UnexpiredAt(idle[..last], now, idleTimeout);
      PicksSnoc(Unexpired(idle[..last], now, idleTimeout), idle[..last], at, idle[last]);
      assert idle == idle[..last] + [idle[last]];
      if !Expired(idle[last], now, idleTimeout) {
        at := at + [last];
      }
    }
  }

  /** The pool run by one call at a time; a dial is its outcome, given by the caller. */
  class BrokerPool {
    const maxSize: nat
    const idleTimeout: int
    var idle: seq<PooledConn>
    var sem: nat

    /** The slots whose connections are with callers. */
    function OutCount(): int
      reads this
    {
      sem - |idle|
    }

    ghost predicate Valid()
      reads this
    {
      0 < maxSize && 0 < idleTimeout && |idle| <= sem <= maxSize
    }

    constructor (configured: int, timeout: int)
      ensures Valid() && idle == [] && sem == 0
      ensures maxSize == if configured <= 0 then 50 else configured
      ensures idleTimeout == if timeout <= 0 then 30_000_000_000 else timeout
    {
      maxSize, idle, sem := MaxSize(configured), [], 0;
      idleTimeout := if timeout <= 0 then DEFAULT_IDLE_TIMEOUT else timeout;
    }

    /** The first connection that has not expired, in the order they were put back;
        those before it are closed and their slots released.  Without one, a new
        connection if a slot is free; Blocked when Get would wait for one to come
        back, which is exactly when all slots are with callers. */
    twostate predicate Gets(now: int, dial: Option<Conn>, r: GetResult)
      reads this
    {
      && var stale, out := StaleCount(old(idle), now, idleTimeout), old(OutCount());
      && (stale < |old(idle)| ==>
            r == Reused(old(idle)[stale].conn) && idle == old(idle)[stale + 1..] && sem == old(sem) - stale)
      && (stale == |old(idle)| ==>
            && idle == []
            && (out == maxSize ==> r == Blocked && sem == maxSize)
            && (out < maxSize && dial.Some? ==> r == Dialed(dial.value) && sem == out + 1)
            && (out < maxSize && dial.None? ==> r == DialFailed && sem == out))
      && OutCount() == out + (if r.Reused? || r.Dialed? then 1 else 0)
    }

    method Get(now: int, dial: Option<Conn>) returns (r: GetResult)
      requires Valid()
      modifies this
      ensures Valid()
      ensures Gets(now, dial, r)
    {
      ghost var i := 0;
      while true
        invariant Valid() && i <= |old(idle)| && idle == old(idle)[i..] && sem == old(sem) - i
        invariant StaleCount(old(idle), now, idleTimeout) == i + StaleCount(idle, now, idleTimeout)
        decreases |idle|
      {
        if idle != [] {
          var pc := idle[0];
          idle := idle[1..];
          if !(now - pc.lastUsed > idleTimeout) {
            return Reused(pc.conn);
          }
          sem := sem - 1;
          i := i + 1;
          continue;
        }
        if sem < maxSize {
          sem := sem + 1;
          match dial {
            case None =>
              sem := sem - 1;
              return DialFailed;
            case Some(conn) =>
              return Dialed(conn);
          }
        }
        return Blocked;
      }
      assert false;
    }

    /** A blocked Get once a connection has come back: it takes the first, and if that
        has expired starts over.  The outcome is that of a new call, which does not
        block again. */
    method GetResumed(now: int, dial: Option<Conn>) returns (r: GetResult)
      requires Valid() && idle != []
      modifies this
      ensures Valid()
      ensures Gets(now, dial, r) && !r.Blocked?
    {
      var pc := idle[0];
      idle := idle[1..];
      if !(now - pc.lastUsed > idleTimeout) {
        return Reused(pc.conn);
      }
      sem := sem - 1;
      r := Get(now, dial);
    }

    method Put(conn: Conn, now: int)
      requires Valid() && OutCount() > 0
      modifies this
      ensures Valid() && idle == old(idle) + [PooledConn(conn, now)] && OutCount() == old(OutCount()) - 1
    {
      idle := idle + [PooledConn(conn, now)];
    }

    /** For a connection that was got and then closed. */
    method ReleaseSem()
      requires Valid() && OutCount() > 0
      modifies this
      ensures Valid() && idle == old(idle) && OutCount() == old(OutCount()) - 1
    {
      if sem > 0 {
        sem := sem - 1;
      }
    }

    /** Closes exactly the expired idle connections and keeps the others in order. */
    method CleanupBrokerPool(now: int)
      requires Valid()
      modifies this
      ensures Valid() && idle == Unexpired(old(idle), now, idleTimeout) && OutCount() == old(OutCount())
    {
      var idleConns: seq<PooledConn> := [];
      while idle != []
        invariant idleConns + idle == old(idle) && sem == old(sem)
        decreases |idle|
      {
        assert idleConns + idle == idleConns + [idle[0]] + idle[1..];
        idleConns := idleConns + [idle[0]];
        idle := idle[1..];
      }
      assert idleConns == old(idle);
      for i := 0 to |idleConns|
        invariant idle == Unexpired(idleConns[..i], now, idleTimeout)
        invariant |idle| <= i && sem == old(sem) - i + |idle|
      {
        assert idleConns[..i + 1][..i] == idleConns[..i];
        if now - idleConns[i].lastUsed > idleTimeout {
          sem := sem - 1;
        } else {
          idle := idle + [idleConns[i]];
        }
      }
      assert idleConns[..|idleConns|] == idleConns;
    }
  }
}
