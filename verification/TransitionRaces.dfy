/** internal/failover/state.go, Transition: any number of concurrent calls for one
    initialised business unit.  A call reads the state under the lock, validates
    without it, commits under the lock if the state is still the one it read, and
    fires the callbacks outside all locks; other calls may run between any two of
    these.  Calls are anonymous: the machine holds a multiset of them.  The callback
    is the coordinator's: firing an edge into DRAINING starts its drain. */
module TransitionRaces {
  import opened DisasterRecovery
  import opened Wire

  /** A committed transition. */
  datatype Edge = Edge(from: BuState, to: BuState)

  /** Where a call is.  `seen` is how many commits there had been when it read. */
  datatype Call =
    | Reading(to: BuState)
    | Deciding(from: BuState, to: BuState, seen: nat)
    | Firing(edge: Edge)

  /** The BU's state and drain, the calls in progress, and the edges that have been
      committed and whose callbacks have run. */
  datatype Machine = Machine(
    state: BuState,
    drain: Option<Drain>,
    calls: multiset<Call>,
    commits: seq<Edge>,
    fired: seq<Edge>)

  datatype Step = Begin(to: BuState) | Take(call: Call)

  function Finished(m: Machine, call: Call): Machine {
    m.(calls := m.calls - multiset{call})
  }

  function Moved(m: Machine, call: Call, call': Call): Machine {
    m.(calls := m.calls - multiset{call} + multiset{call'})
  }

  /** The call is about to commit: valid, and not overtaken. */
  predicate Commits(m: Machine, call: Call) {
    && call in m.calls && call.Deciding?
    && call.from != call.to && IsValidTransition(call.from, call.to) && m.state == call.from
  }

  /** One step of one call; a call that is not in progress does nothing. */
  function Next(m: Machine, step: Step): Machine {
    match step
    case Begin(to) => m.(calls := m.calls + multiset{Reading(to)})
    case Take(call) =>
      if call !in m.calls then m else
      match call
      case Reading(to) => Moved(m, call, Deciding(m.state, to, |m.commits|))
      case Deciding(from, to, _) =>
        if !Commits(m, call) then Finished(m, call)
        else Moved(m, call, Firing(Edge(from, to))).(state := to, commits := m.commits + [Edge(from, to)])
      case Firing(edge) => Finished(m, call).(fired := m.fired + [edge], drain := DrainAfter(m.drain, edge))
  }

  function DrainAfter(drain: Option<Drain>, edge: Edge): Option<Drain> {
    if edge.to.Draining? then Some(DrainFrom(edge.from)) else drain
  }

  function Run(m: Machine, steps: seq<Step>): Machine {
    if steps == [] then m else Next(Run(m, steps[..|steps| - 1]), steps[|steps| - 1])
  }

  function Start(state: BuState, drain: Option<Drain>): Machine {
    Machine(state, drain, multiset{}, [], [])
  }

  /** The edges lead, one after the other, from one state to another in the graph. */
  predicate Path(from: BuState, edges: seq<Edge>, to: BuState) {
    if edges == [] then from == to
    else
      var last := edges[|edges| - 1];
      last.to == to && IsValidTransition(last.from, last.to) && Path(from, edges[..|edges| - 1], last.from)
  }

  /** What a call read was the state when there had been `seen` commits. */
  predicate WasRead(start: BuState, commits: seq<Edge>, call: Call) {
    call.Deciding? ==> call.seen <= |commits| && Path(start, commits[..call.seen], call.from)
  }

  ghost predicate Invariant(start: BuState, m: Machine) {
    && Path(start, m.commits, m.state)
    && (forall e :: multiset(m.commits)[e] == multiset(m.fired)[e] + m.calls[Firing(e)])
    && (forall c :: c in m.calls ==> WasRead(start, m.commits, c))
  }

  lemma PathSnoc(from: BuState, edges: seq<Edge>, to: BuState, to': BuState)
    requires Path(from, edges, to) && IsValidTransition(to, to')
    ensures Path(from, edges + [Edge(to, to')], to')
  {
    assert (edges + [Edge(to, to')])[..|edges|] == edges;
  }

  lemma CommitKeeps(start: BuState, m: Machine, call: Call)
    requires Invariant(start, m) && Commits(m, call)
    ensures Invariant(start, Next(m, Take(call)))
  {
    var m', edge := Next(m, Take(call)), Edge(call.from, call.to);
    PathSnoc(start, m.commits, call.from, call.to);
    assert multiset(m'.commits) == multiset(m.commits) + multiset{edge};
    assert m'.calls == m.calls - multiset{call} + multiset{Firing(edge)};
    forall c | c in m'.calls ensures WasRead(start, m'.commits, c) {
      if c.Deciding? {
        assert c in m.calls && m'.commits[..c.seen] == m.commits[..c.seen];
      }
    }
  }

  lemma FireKeeps(start: BuState, m: Machine, edge: Edge)
    requires Invariant(start, m) && Firing(edge) in m.calls
    ensures Invariant(start, Next(m, Take(Firing(edge))))
  {
    var m' := Next(m, Take(Firing(edge)));
    assert multiset(m'.fired) == multiset(m.fired) + multiset{edge};
    assert forall c :: c in m'.calls ==> c in m.calls;
  }

  lemma ReadKeeps(start: BuState, m: Machine, to: BuState)
    requires Invariant(start, m) && Reading(to) in m.calls
    ensures Invariant(start, Next(m, Take(Reading(to))))
  {
    var m' := Next(m, Take(Reading(to)));
    assert m.commits[..|m.commits|] == m.commits;
    assert forall c :: c in m'.calls ==> c in m.calls || c == Deciding(m.state, to, |m.commits|);
  }

  lemma LeaveKeeps(start: BuState, m: Machine, call: Call)
    requires Invariant(start, m) && call in m.calls && !call.Firing?
    ensures Invariant(start, Finished(m, call))
  {
    assert forall c :: c in Finished(m, call).calls ==> c in m.calls;
  }

  lemma BeginKeeps(start: BuState, m: Machine, to: BuState)
    requires Invariant(start, m)
    ensures Invariant(start, Next(m, Begin(to)))
  {
    assert forall c :: c in Next(m, Begin(to)).calls ==> c in m.calls || c == Reading(to);
  }

  lemma NextKeeps(start: BuState, m: Machine, step: Step)
    requires Invariant(start, m)
    ensures Invariant(start, Next(m, step))
  {
    match step
    case Begin(to) => BeginKeeps(start, m, to);
    case Take(call) =>
      if call in m.calls {
        match call
        case Reading(to) => ReadKeeps(start, m, to);
        case Firing(edge) => FireKeeps(start, m, edge);
        case Deciding(from, to, _) =>
          if !Commits(m, call) {
            LeaveKeeps(start, m, call);
          } else {
            CommitKeeps(start, m, call);
          }
      }
  }

  lemma {:induction false} AlwaysInvariant(start: BuState, drain: Option<Drain>, steps: seq<Step>)
    ensures Invariant(start, Run(Start(start, drain), steps))
  {
    if steps != [] {
      AlwaysInvariant(start, drain, steps[..|steps| - 1]);
      NextKeeps(start, Run(Start(start, drain), steps[..|steps| - 1]), steps[|steps| - 1]);
    }
  }

  /** Whatever calls are made and however they interleave, the committed edges form a
      path in the allowed graph from the initial state to the current one. */
  lemma {:induction false} CommitsFormAPath(start: BuState, drain: Option<Drain>, steps: seq<Step>)
    ensures var m := Run(Start(start, drain), steps);
            Path(start, m.commits, m.state)
  {
    AlwaysInvariant(start, drain, steps);
  }

  /** Each commit fires one callback with its edge: the commits are, as a multiset,
      those fired and those some call is about to fire; when no call is in progress,
      the callbacks have received exactly the committed edges. */
  lemma OneCallbackPerCommit(start: BuState, drain: Option<Drain>, steps: seq<Step>)
    ensures var m := Run(Start(start, drain), steps);
            && (forall e :: multiset(m.commits)[e] == multiset(m.fired)[e] + m.calls[Firing(e)])
            && (m.calls == multiset{} ==> multiset(m.fired) == multiset(m.commits))
  {
    AlwaysInvariant(start, drain, steps);
    var m := Run(Start(start, drain), steps);
    if m.calls == multiset{} {
      assert forall e :: multiset(m.commits)[e] == multiset(m.fired)[e];
    }
  }

  /** A path has one end. */
  lemma PathEnd(from: BuState, edges: seq<Edge>, to: BuState, to': BuState)
    requires Path(from, edges, to) && Path(from, edges, to')
    ensures to == to'
  {
  }

  /** A call whose edge is allowed gives up only if some other call committed after it
      read; without one, it commits. */
  lemma {:induction false} GivesUpOnlyWhenOvertaken(start: BuState, drain: Option<Drain>, steps: seq<Step>, call: Call)
    requires call.Deciding? && call in Run(Start(start, drain), steps).calls
    requires call.from != call.to && IsValidTransition(call.from, call.to)
    ensures var m := Run(Start(start, drain), steps);
            && call.seen <= |m.commits|
            && (|m.commits| == call.seen ==> Next(m, Take(call)).commits == m.commits + [Edge(call.from, call.to)])
  {
    AlwaysInvariant(start, drain, steps);
    var m := Run(Start(start, drain), steps);
    if |m.commits| == call.seen {
      assert m.commits[..call.seen] == m.commits;
      PathEnd(start, m.commits, call.from, m.state);
    }
  }

  // ------------------------------------------------------------------ one call alone

  /** A call begins, reads and decides with no other in between. */
  function Uninterrupted(m: Machine, to: BuState): Machine {
    Next(Next(Next(m, Begin(to)), Take(Reading(to))), Take(Deciding(m.state, to, |m.commits|)))
  }

  lemma PutBack(calls: multiset<Call>, call: Call)
    ensures calls + multiset{call} - multiset{call} == calls
  {
  }

  lemma UninterruptedDecides(m: Machine, to: BuState)
    ensures Uninterrupted(m, to) ==
      if m.state == to || !IsValidTransition(m.state, to) then m
      else
        var edge := Edge(m.state, to);
        m.(state := to, calls := m.calls + multiset{Firing(edge)}, commits := m.commits + [edge])
  {
    PutBack(m.calls, Reading(to));
    PutBack(m.calls, Deciding(m.state, to, |m.commits|));
  }

  /** A call that runs alone does what a request does to the BU, its drain included, and
      fires exactly when the state changed. */
  lemma AloneIsRequest(b: Bu, to: BuState)
    ensures var m := Next(Uninterrupted(Start(b.state, b.drain), to), Take(Firing(Edge(b.state, to))));
            && m.calls == multiset{} && m.state == Request(b, to).state && m.drain == Request(b, to).drain
            && m.fired == m.commits == if Request(b, to).state == b.state then [] else [Edge(b.state, to)]
  {
    UninterruptedDecides(Start(b.state, b.drain), to);
  }
}
