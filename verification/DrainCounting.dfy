/** internal/proxy/drain.go: the connection count of one business unit, under every
    interleaving of registrations, unregistrations and forced closes.  The count is
    an atomic counter kept outside the lock that guards the connection map, so the
    two agree only up to the operations in flight. */
module DrainCounting {
  import opened DisasterRecovery

  type Id = nat

  /** Where a connection is in its life.  A registration takes an id, counts up, then
      inserts; a removal, by Unregister or by a forced close, deletes under the lock
      and then counts down. */
  datatype Phase = Numbered(target: Cluster) | Counted(target: Cluster) | Tracked(target: Cluster) | Leaving | Gone

  datatype Tracker = Tracker(count: int, nextId: nat, phases: map<Id, Phase>, countedDown: multiset<Id>)

  datatype Step =
    | Allocate(target: Cluster)
    | CountUp(id: Id)
    | Insert(id: Id)
    | Unregister(id: Id)
    | ForceClose(oldActive: Cluster)
    | CountDown(id: Id)

  const EMPTY := Tracker(0, 0, map[], multiset{})

  predicate At(t: Tracker, id: Id, p: Phase -> bool) {
    id in t.phases && p(t.phases[id])
  }

  /** A step of an operation that is not at that point does nothing. */
  function Next(t: Tracker, step: Step): Tracker {
    match step
    case Allocate(target) => t.(nextId := t.nextId + 1, phases := t.phases[t.nextId + 1 := Numbered(target)])
    case CountUp(id) =>
      if At(t, id, (p: Phase) => p.Numbered?)
      then t.(count := t.count + 1, phases := t.phases[id := Counted(t.phases[id].target)])
      else t
    case Insert(id) =>
      if At(t, id, (p: Phase) => p.Counted?) then t.(phases := t.phases[id := Tracked(t.phases[id].target)]) else t
    case Unregister(id) =>
      if At(t, id, (p: Phase) => p.Tracked?) then t.(phases := t.phases[id := Leaving]) else t
    case ForceClose(oldActive) =>
      t.(phases := map id | id in t.phases :: if t.phases[id] == Tracked(oldActive) then Leaving else t.phases[id])
    case CountDown(id) =>
      if At(t, id, (p: Phase) => p.Leaving?)
      then t.(count := t.count - 1, phases := t.phases[id := Gone], countedDown := t.countedDown + multiset{id})
      else t
  }

  function Run(steps: seq<Step>): Tracker {
    if steps == [] then EMPTY else Next(Run(steps[..|steps| - 1]), steps[|steps| - 1])
  }

  /** The connections at some phase of their life. */
  function Where(t: Tracker, p: Phase -> bool): set<Id> {
    set id | id in t.phases && p(t.phases[id])
  }

  function InMap(t: Tracker): set<Id> {
    Where(t, (p: Phase) => p.Tracked?)
  }

  function Registering(t: Tracker): set<Id> {
    Where(t, (p: Phase) => p.Counted?)
  }

  function Removing(t: Tracker): set<Id> {
    Where(t, (p: Phase) => p.Leaving?)
  }

  /** Those the count includes. */
  function Live(t: Tracker): set<Id> {
    Where(t, (p: Phase) => p.Counted? || p.Tracked? || p.Leaving?)
  }

  ghost predicate Counts(t: Tracker) {
    && t.count == |Live(t)|
    && (forall id :: id in t.phases ==> id <= t.nextId)
    && (forall id :: t.countedDown[id] == if id in t.phases && t.phases[id].Gone? then 1 else 0)
  }

  lemma NextLive(t: Tracker, step: Step)
    requires Counts(t)
    ensures var up := step.CountUp? && At(t, step.id, (p: Phase) => p.Numbered?);
            var down := step.CountDown? && At(t, step.id, (p: Phase) => p.Leaving?);
            && (up ==> Live(Next(t, step)) == Live(t) + {step.id} && step.id !in Live(t))
            && (down ==> Live(Next(t, step)) == Live(t) - {step.id} && step.id in Live(t))
            && (!up && !down ==> Live(Next(t, step)) == Live(t))
  {
  }

  lemma NextCounts(t: Tracker, step: Step)
    requires Counts(t)
    ensures Counts(Next(t, step))
  {
    NextLive(t, step);
  }

  lemma {:induction false} AlwaysCounts(steps: seq<Step>)
    ensures Counts(Run(steps))
  {
    if steps != [] {
      AlwaysCounts(steps[..|steps| - 1]);
      NextCounts(Run(steps[..|steps| - 1]), steps[|steps| - 1]);
    }
  }

  lemma LiveParts(t: Tracker)
    ensures |Live(t)| == |InMap(t)| + |Registering(t)| + |Removing(t)|
  {
    var a, b, c := InMap(t), Registering(t), Removing(t);
    assert Live(t) == (a + b) + c;
    assert a !! b && (a + b) !! c;
  }

  /** However the operations interleave, the count equals the tracked connections plus
      the registrations that have counted and not inserted plus the removals that have
      deleted and not counted; so it is never negative, zero means that nothing is
      tracked, and it is exact when nothing is in flight.  Each id is counted down at
      most once, whatever is unregistered twice. */
  lemma CountIsTrackedPlusInFlight(steps: seq<Step>)
    ensures var t := Run(steps);
            && t.count == |InMap(t)| + |Registering(t)| + |Removing(t)|
            && t.count >= 0
            && (t.count == 0 ==> InMap(t) == {})
            && (Registering(t) == {} && Removing(t) == {} ==> t.count == |InMap(t)|)
            && (forall id :: t.countedDown[id] <= 1)
  {
    AlwaysCounts(steps);
    LiveParts(Run(steps));
  }

  /** A tracked connection stays so until it is unregistered or forced off the cluster
      it targets: other steps, of it or of others, leave it alone. */
  lemma OnlyRemovalsRemove(t: Tracker, step: Step, id: Id, target: Cluster)
    requires Counts(t) && id in t.phases && t.phases[id] == Tracked(target)
    ensures id in Next(t, step).phases
    ensures Next(t, step).phases[id] ==
      if step == Unregister(id) || step == ForceClose(target) then Leaving else Tracked(target)
  {
  }

  // -------------------------------------------------------------------- the tracker

  /** The connections a forced close takes: those still on the old cluster. */
  function OnCluster(conns: map<Id, Cluster>, c: Cluster): set<Id> {
    set id | id in conns && conns[id] == c
  }

  lemma RemovedFrom(m: map<Id, Cluster>, ids: set<Id>)
    requires ids <= m.Keys
    ensures |m - ids| == |m| - |ids| && (m - ids).Keys == m.Keys - ids
  {
    assert m.Keys == (m.Keys - ids) + ids;
    assert (m - ids).Keys == m.Keys - ids;
  }

  lemma AddedTo(m: map<Id, Cluster>, id: Id, c: Cluster)
    requires id !in m
    ensures |m[id := c]| == |m| + 1
  {
    assert m[id := c].Keys == m.Keys + {id};
  }

  /** One business unit's tracker, run by one operation at a time. */
  class ConnTracker {
    var count: int
    var nextId: nat
    var conns: map<Id, Cluster>

    ghost predicate Valid()
      reads this
    {
      count == |conns| && forall id :: id in conns ==> id <= nextId
    }

    constructor ()
      ensures Valid() && conns == map[] && nextId == 0
    {
      count, nextId, conns := 0, 0, map[];
    }

    method Register(target: Cluster) returns (id: Id)
      requires Valid()
      modifies this
      ensures Valid() && id !in old(conns) && id == nextId == old(nextId) + 1
      ensures conns == old(conns)[id := target]
    {
      nextId := nextId + 1;
      id := nextId;
      count := count + 1;
      AddedTo(conns, id, target);
      conns := conns[id := target];
    }

    method Unregister(id: Id)
      requires Valid()
      modifies this
      ensures Valid() && nextId == old(nextId) && conns == old(conns) - {id}
    {
      if id in conns {
        RemovedFrom(conns, {id});
        conns := conns - {id};
        count := count - 1;
      } else {
        assert conns - {id} == conns;
      }
    }

    /** Collects them in whatever order the map yields its keys. */
    method CollectOld(oldActive: Cluster) returns (toClose: seq<Id>)
      ensures multiset(toClose) == multiset(OnCluster(conns, oldActive))
    {
      toClose := [];
      var rest := conns.Keys;
      ghost var found: set<Id> := {};
      while rest != {}
        invariant rest <= conns.Keys
        invariant found == OnCluster(conns, oldActive) - rest
        invariant multiset(toClose) == multiset(found)
        decreases |rest|
      {
        var id :| id in rest;
        if conns[id] == oldActive {
          toClose := toClose + [id];
          found := found + {id};
        }
        rest := rest - {id};
      }
      assert found == OnCluster(conns, oldActive);
    }

    method DeleteAll(ids: seq<Id>)
      modifies this`conns
      ensures conns == old(conns) - Elements(ids)
    {
      assert conns == conns - Elements([]);
      for i := 0 to |ids|
        invariant conns == old(conns) - Elements(ids[..i])
      {
        assert Elements(ids[..i + 1]) == Elements(ids[..i]) + {ids[i]};
        conns := conns - {ids[i]};
      }
      assert ids[..|ids|] == ids;
    }

    /** Closes each and counts it down. */
    method CloseAll(ids: seq<Id>) returns (closed: seq<Id>)
      modifies this`count
      ensures closed == ids && count == old(count) - |ids|
    {
      closed := [];
      for i := 0 to |ids|
        invariant closed == ids[..i] && count == old(count) - i
      {
        closed := closed + [ids[i]];
        count := count - 1;
      }
    }

    /** Closes the connections still on the old cluster: each once, and no other. */
    method ForceCloseOld(oldActive: Cluster) returns (closed: seq<Id>)
      requires Valid()
      modifies this
      ensures Valid() && nextId == old(nextId)
      ensures conns == old(conns) - OnCluster(old(conns), oldActive)
      ensures multiset(closed) == multiset(OnCluster(old(conns), oldActive))
    {
      ghost var all := conns;
      var toClose := CollectOld(oldActive);
      ElementsOf(toClose, OnCluster(all, oldActive));
      RemovedFrom(all, OnCluster(all, oldActive));
      DeleteAll(toClose);
      closed := CloseAll(toClose);
    }
  }

  ghost function Elements(s: seq<Id>): set<Id> {
    set id | id in s
  }

  lemma ElementsOf(s: seq<Id>, ids: set<Id>)
    requires multiset(s) == multiset(ids)
    ensures Elements(s) == ids && |s| == |ids|
  {
    assert |multiset(s)| == |s| && |multiset(ids)| == |ids|;
    forall id ensures id in s <==> id in ids {
      assert id in s <==> id in multiset(s);
    }
  }
}
