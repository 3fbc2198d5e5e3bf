/** The order in which the callbacks of committed transitions run, and the drain they
    leave: when it is the order of the commits, and what happens when it is not. */
module CallbackOrder {
  import D = DisasterRecovery
  import opened TransitionRaces
  import opened Wire

  /** Some commit's callback has yet to run. */
  ghost predicate Pending(m: Machine) {
    exists e :: Firing(e) in m.calls
  }

  /** In the whole run no call commits while the callback of another is pending. */
  ghost predicate Orderly(m: Machine, steps: seq<Step>) {
    if steps == [] then true
    else
      var before, step := Run(m, steps[..|steps| - 1]), steps[|steps| - 1];
      Orderly(m, steps[..|steps| - 1]) && !(step.Take? && Commits(before, step.call) && Pending(before))
  }

  /** The callbacks have run in the order of the commits, and whichever runs next, they
      still will have. */
  ghost predicate InOrder(m: Machine) {
    && m.fired <= m.commits
    && forall e :: Firing(e) in m.calls ==> m.fired + [e] <= m.commits
  }

  ghost predicate AlwaysInOrder(m: Machine, steps: seq<Step>) {
    if steps == [] then InOrder(m)
    else AlwaysInOrder(m, steps[..|steps| - 1]) && InOrder(Run(m, steps))
  }

  lemma PathEdges(from: D.BuState, edges: seq<Edge>, to: D.BuState, i: nat)
    requires Path(from, edges, to) && i + 1 < |edges|
    ensures edges[i] != edges[i + 1]
  {
    var last := edges[|edges| - 1];
    if i + 2 == |edges| {
      var before := edges[..|edges| - 1];
      assert before[|before| - 1] == edges[i] && edges[i].to == last.from;
    } else {
      PathEdges(from, edges[..|edges| - 1], last.from, i);
    }
  }

  /** The edges that are committed and not fired, when the order is kept so far. */
  lemma PendingEdges(start: D.BuState, m: Machine, e: Edge)
    requires Invariant(start, m) && m.fired <= m.commits
    ensures Firing(e) in m.calls <==> e in m.commits[|m.fired|..]
  {
    var rest := m.commits[|m.fired|..];
    assert m.commits == m.fired + rest;
    assert multiset(m.commits) == multiset(m.fired) + multiset(rest);
    assert e in rest <==> multiset(rest)[e] > 0;
  }

  lemma TwoPending(start: D.BuState, m: Machine)
    requires Invariant(start, m) && m.fired <= m.commits && |m.commits| > |m.fired| + 1
    ensures !InOrder(m)
  {
    var n := |m.fired|;
    var e := m.commits[n + 1];
    PathEdges(start, m.commits, m.state, n);
    PendingEdges(start, m, e);
    assert e == m.commits[n..][1];
    assert (m.fired + [e])[n] != m.commits[n];
  }

  lemma OnePending(start: D.BuState, m: Machine)
    requires Invariant(start, m) && m.fired <= m.commits && |m.commits| <= |m.fired| + 1
    ensures InOrder(m)
  {
    forall e | Firing(e) in m.calls
      ensures m.fired + [e] <= m.commits
    {
      PendingEdges(start, m, e);
      assert e == m.commits[|m.fired|..][0];
    }
  }

  /** With the order kept so far, it can be lost by the next callback if and only if two
      are pending. */
  lemma AtMostOnePending(start: D.BuState, m: Machine)
    requires Invariant(start, m) && m.fired <= m.commits
    ensures InOrder(m) <==> |m.commits| <= |m.fired| + 1
  {
    if |m.commits| > |m.fired| + 1 {
      TwoPending(start, m);
    } else {
      OnePending(start, m);
    }
  }

  lemma PendingIffUnfired(start: D.BuState, m: Machine)
    requires Invariant(start, m) && m.fired <= m.commits
    ensures Pending(m) <==> |m.commits| > |m.fired|
  {
    if |m.commits| > |m.fired| {
      PendingEdges(start, m, m.commits[|m.fired|]);
      assert m.commits[|m.fired|..][0] == m.commits[|m.fired|];
    }
    if e :| Firing(e) in m.calls {
      PendingEdges(start, m, e);
    }
  }

  /** A step adds one commit, or one callback that keeps the order, or neither. */
  lemma StepLengths(m: Machine, step: Step)
    requires InOrder(m)
    ensures var m' := Next(m, step);
            && m'.fired <= m'.commits
            && (if step.Take? && Commits(m, step.call)
                then |m'.commits| == |m.commits| + 1 && |m'.fired| == |m.fired|
                else |m'.commits| == |m.commits| && |m'.fired| >= |m.fired|)
  {
  }

  lemma NextInOrder(start: D.BuState, m: Machine, step: Step)
    requires Invariant(start, m) && InOrder(m)
    ensures InOrder(Next(m, step)) <==> !(step.Take? && Commits(m, step.call) && Pending(m))
  {
    NextKeeps(start, m, step);
    StepLengths(m, step);
    AtMostOnePending(start, m);
    PendingIffUnfired(start, m);
    AtMostOnePending(start, Next(m, step));
  }

  /** The callbacks run in the order of the commits, and cannot fail to by the next one,
      at every point of a run if and only if no call commits in it while another has
      committed and not yet fired. */
  lemma {:induction false} OrderKeptExactly(start: D.BuState, drain: Option<D.Drain>, steps: seq<Step>)
    ensures AlwaysInOrder(Start(start, drain), steps) <==> Orderly(Start(start, drain), steps)
  {
    if steps != [] {
      var s, past := Start(start, drain), steps[..|steps| - 1];
      OrderKeptExactly(start, drain, past);
      AlwaysInvariant(start, drain, past);
      if AlwaysInOrder(s, past) {
        LastInOrder(s, past);
        NextInOrder(start, Run(s, past), steps[|steps| - 1]);
      }
    }
  }

  /** In an orderly run the callbacks lag behind the commits by one at most. */
  lemma OrderlyLag(start: D.BuState, drain: Option<D.Drain>, steps: seq<Step>)
    requires Orderly(Start(start, drain), steps)
    ensures var m := Run(Start(start, drain), steps);
            m.fired <= m.commits && |m.commits| <= |m.fired| + 1
  {
    OrderKeptExactly(start, drain, steps);
    LastInOrder(Start(start, drain), steps);
    AlwaysInvariant(start, drain, steps);
    AtMostOnePending(start, Run(Start(start, drain), steps));
  }

  lemma LastInOrder(m: Machine, steps: seq<Step>)
    requires AlwaysInOrder(m, steps)
    ensures InOrder(Run(m, steps))
  {
  }

  /** The drain the callbacks of some edges leave. */
  function DrainOf(drain: Option<D.Drain>, edges: seq<Edge>): Option<D.Drain> {
    if edges == [] then drain
    else DrainAfter(DrainOf(drain, edges[..|edges| - 1]), edges[|edges| - 1])
  }

  lemma {:induction false} DrainFollowsFired(start: D.BuState, drain: Option<D.Drain>, steps: seq<Step>)
    ensures var m := Run(Start(start, drain), steps);
            m.drain == DrainOf(drain, m.fired)
  {
    if steps != [] {
      var m, step := Run(Start(start, drain), steps[..|steps| - 1]), steps[|steps| - 1];
      DrainFollowsFired(start, drain, steps[..|steps| - 1]);
      if step.Take? && step.call.Firing? && step.call in m.calls {
        assert (m.fired + [step.call.edge])[..|m.fired|] == m.fired;
      }
    }
  }

  lemma LastEdgeDrains(from: D.BuState, edges: seq<Edge>, to: D.BuState, drain: Option<D.Drain>)
    requires Path(from, edges, to) && edges != [] && to.Draining?
    ensures DrainOf(drain, edges) == Some(D.DrainFrom(edges[|edges| - 1].from))
  {
  }

  lemma QuietDrain(start: D.BuState, m: Machine, drain: Option<D.Drain>)
    requires Invariant(start, m) && m.fired <= m.commits && m.drain == DrainOf(drain, m.fired)
    ensures !Pending(m) && m.state.Draining? && m.commits != [] ==>
      m.drain == Some(D.DrainFrom(m.commits[|m.commits| - 1].from))
  {
    PendingIffUnfired(start, m);
    if !Pending(m) && m.state.Draining? && m.commits != [] {
      LastEdgeDrains(start, m.commits, m.state, drain);
    }
  }

  /** So after an orderly run, with no callback pending, a BU that is DRAINING has the
      drain to the cluster opposite to the state it was entered from. */
  lemma OrderlyDrainIsRight(start: D.BuState, drain: Option<D.Drain>, steps: seq<Step>)
    requires Orderly(Start(start, drain), steps)
    ensures var m := Run(Start(start, drain), steps);
            !Pending(m) && m.state.Draining? && m.commits != [] ==>
              m.drain == Some(D.DrainFrom(m.commits[|m.commits| - 1].from))
  {
    OrderlyLag(start, drain, steps);
    AlwaysInvariant(start, drain, steps);
    DrainFollowsFired(start, drain, steps);
    QuietDrain(start, Run(Start(start, drain), steps), drain);
  }

  // --------------------------------------------------------------- three overtaken calls

  lemma CallAfter(state: D.BuState, drain: Option<D.Drain>, pending: multiset<Call>, commits: seq<Edge>, to: D.BuState)
    requires state != to && D.IsValidTransition(state, to)
    ensures var edge := Edge(state, to);
            Uninterrupted(Machine(state, drain, pending, commits, []), to)
            == Machine(to, drain, pending + multiset{Firing(edge)}, commits + [edge], [])
  {
    UninterruptedDecides(Machine(state, drain, pending, commits, []), to);
  }

  lemma FireLast(
      state: D.BuState, drain: Option<D.Drain>, pending: multiset<Call>, e: Edge, commits: seq<Edge>, fired: seq<Edge>)
    ensures Next(Machine(state, drain, pending + multiset{Firing(e)}, commits, fired), Take(Firing(e)))
         == Machine(state, DrainAfter(drain, e), pending, commits, fired + [e])
  {
    PutBack(pending, Firing(e));
  }

  lemma ThreeFires(state: D.BuState, drain: Option<D.Drain>, a: Edge, b: Edge, c: Edge, commits: seq<Edge>)
    ensures var m := Machine(state, drain, multiset{} + multiset{Firing(a)} + multiset{Firing(b)} + multiset{Firing(c)},
                             commits, []);
            var last := DrainAfter(DrainAfter(DrainAfter(drain, c), b), a);
            Next(Next(Next(m, Take(Firing(c))), Take(Firing(b))), Take(Firing(a)))
            == Machine(state, last, multiset{}, commits, [] + [c] + [b] + [a])
  {
    var fa := multiset{} + multiset{Firing(a)};
    FireLast(state, drain, fa + multiset{Firing(b)}, c, commits, []);
    FireLast(state, DrainAfter(drain, c), fa, b, commits, [] + [c]);
    FireLast(state, DrainAfter(DrainAfter(drain, c), b), multiset{}, a, commits, [] + [c] + [b]);
  }

  /** Otherwise callbacks need not come in the order of the commits, and the BU can be
      left DRAINING from the secondary with a drain to the secondary: here a failover,
      its end and the failback are each overtaken between commit and callback (one,
      two, three), and the callbacks run latest first. */
  lemma CallbacksCanReorder(a: Edge, b: Edge, c: Edge, one: Machine, two: Machine, three: Machine)
    requires a == Edge(D.Primario, D.Draining) && b == Edge(D.Draining, D.Secundario)
    requires c == Edge(D.Secundario, D.Draining)
    requires one == Machine(D.Draining, None, multiset{} + multiset{Firing(a)}, [] + [a], [])
    requires two == Machine(D.Secundario, None, one.calls + multiset{Firing(b)}, one.commits + [b], [])
    requires three == Machine(D.Draining, None, two.calls + multiset{Firing(c)}, two.commits + [c], [])
    ensures Uninterrupted(Start(D.Primario, None), D.Draining) == one
    ensures Uninterrupted(one, D.Secundario) == two
    ensures Uninterrupted(two, D.Draining) == three
    ensures Next(Next(Next(three, Take(Firing(c))), Take(Firing(b))), Take(Firing(a)))
         == Machine(D.Draining, Some(D.Drain(D.Primary, D.Secondary)), multiset{},
                    [] + [a] + [b] + [c], [] + [c] + [b] + [a])
  {
    CallAfter(D.Primario, None, multiset{}, [], D.Draining);
    CallAfter(D.Draining, None, one.calls, one.commits, D.Secundario);
    CallAfter(D.Secundario, None, two.calls, two.commits, D.Draining);
    ThreeFires(D.Draining, None, a, b, c, three.commits);
  }
}
