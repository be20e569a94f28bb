/** Calls that do their work between OS_WaitMutex and OS_ReleaseMutex, by any number of threads. */
module LockedCall {
  import opened Words
  import Mutex

  /** Waiting for the mutex with its argument, at work under it, or on the way out. */
  datatype Stage<A, W> = Out | Entering(arg: A) | Inside(work: W) | Leaving

  ghost predicate Matches<A, W>(pc: Mutex.Pc, st: Stage<A, W>) {
    match st
    case Out => pc == Mutex.Idle
    case Entering(_) => pc != Mutex.Idle && !pc.Releasing? && !pc.Clearing? && !pc.Unlatching?
    case Inside(_) => pc == Mutex.Granted
    case Leaving => pc == Mutex.Granted || pc.Releasing? || pc.Clearing? || pc.Unlatching?
  }

  ghost predicate AllMatch<A, W>(m: Mutex.State, stages: seq<Stage<A, W>>) {
    Mutex.Inv(m) && |stages| == |m.pcs| && forall i | 0 <= i < |stages| :: Matches(m.pcs[i], stages[i])
  }

  predicate MayEnter<A, W>(m: Mutex.State, stages: seq<Stage<A, W>>, i: nat) {
    i < |stages| == |m.pcs| && stages[i].Out? && m.pcs[i] == Mutex.Idle
  }

  /** A step inside the mutex functions; the owner releases only when its work is done. */
  predicate MayMove<A, W>(m: Mutex.State, stages: seq<Stage<A, W>>, i: nat, r: nat) {
    && i < |stages| == |m.pcs| && Mutex.Enabled(m, Mutex.Step(i, r))
    && (m.pcs[i] == Mutex.Granted ==> stages[i].Leaving?)
  }

  function Moved<A, W>(m: Mutex.State, stages: seq<Stage<A, W>>, i: nat, r: nat): seq<Stage<A, W>>
    requires MayMove(m, stages, i, r)
  {
    if Mutex.Next(m, Mutex.Step(i, r)).pcs[i] == Mutex.Idle then stages[i := Out] else stages
  }

  /** OS_WaitMutex returns 0: the call gives up without having been under the mutex. */
  predicate Refused<A, W>(m: Mutex.State, stages: seq<Stage<A, W>>, i: nat, r: nat)
    requires MayMove(m, stages, i, r)
  {
    stages[i].Entering? && Mutex.Next(m, Mutex.Step(i, r)).pcs[i] == Mutex.Idle
  }

  predicate AtWork<A, W>(m: Mutex.State, stages: seq<Stage<A, W>>, i: nat) {
    i < |stages| == |m.pcs| && m.pcs[i] == Mutex.Granted
  }

  lemma EnterKeeps<A, W>(m: Mutex.State, stages: seq<Stage<A, W>>, i: nat, timeout: nat, arg: A)
    requires AllMatch(m, stages) && MayEnter(m, stages, i)
    ensures AllMatch(Mutex.Next(m, Mutex.Wait(i, timeout)), stages[i := Entering(arg)])
  {
    Mutex.StepKeeps(m, Mutex.Wait(i, timeout));
  }

  lemma MoveKeeps<A, W>(m: Mutex.State, stages: seq<Stage<A, W>>, i: nat, r: nat)
    requires AllMatch(m, stages) && MayMove(m, stages, i, r)
    ensures AllMatch(Mutex.Next(m, Mutex.Step(i, r)), Moved(m, stages, i, r))
    ensures forall j | 0 <= j < |stages| && stages[j].Inside? :: j != i && Moved(m, stages, i, r)[j] == stages[j]
    ensures forall j | 0 <= j < |stages| && Moved(m, stages, i, r)[j].Inside? :: stages[j] == Moved(m, stages, i, r)[j]
  {
    Mutex.StepKeeps(m, Mutex.Step(i, r));
  }

  lemma WorkKeeps<A, W>(m: Mutex.State, stages: seq<Stage<A, W>>, i: nat, st: Stage<A, W>)
    requires AllMatch(m, stages) && AtWork(m, stages, i) && (st.Inside? || st.Leaving?)
    ensures AllMatch(m, stages[i := st])
  {
  }

  /** When the one at work leaves, nobody is inside. */
  lemma NobodyInside<A, W>(m: Mutex.State, stages: seq<Stage<A, W>>, i: nat)
    requires AllMatch(m, stages) && AtWork(m, stages, i)
    ensures var t := stages[i := Leaving]; forall j | 0 <= j < |t| :: !t[j].Inside?
  {
    forall j | 0 <= j < |stages| && stages[j].Inside? ensures j == i {
      OneInside(m, stages, i, j);
    }
  }

  /** At most one call is at work, whatever the others do. */
  lemma OneInside<A, W>(m: Mutex.State, stages: seq<Stage<A, W>>, i: nat, j: nat)
    requires AllMatch(m, stages) && AtWork(m, stages, i) && j < |stages| && stages[j].Inside?
    ensures i == j
  {
    assert Mutex.Owns(m.pcs[i]) && Mutex.Owns(m.pcs[j]);
  }

  // ---------------------------------------------------------------------------------------------
  // The order of the results is the order in which the mutex was taken
  // ---------------------------------------------------------------------------------------------

  /** Thread i has taken the mutex, and its call has no result yet. */
  predicate Open<A, W>(m: Mutex.State, stages: seq<Stage<A, W>>, i: nat) {
    i < |stages| == |m.pcs| && Mutex.Owns(m.pcs[i]) && !stages[i].Leaving?
  }

  /** `takers`: who took the mutex, in order; `callers`: who got a result under it, in order. */
  ghost predicate LockOrder<A, W>(m: Mutex.State, stages: seq<Stage<A, W>>, takers: seq<nat>, callers: seq<nat>) {
    && (forall i: nat | Open(m, stages, i) :: takers == callers + [i])
    && ((forall i: nat :: !Open(m, stages, i)) ==> takers == callers)
  }

  function Takers(m: Mutex.State, i: nat, takers: seq<nat>): seq<nat> {
    if i < |m.pcs| && m.pcs[i].Setting? then takers + [i] else takers
  }

  /** Nothing changes for anybody. */
  lemma SameOpen<A, W>(m: Mutex.State, stages: seq<Stage<A, W>>, n: Mutex.State, next: seq<Stage<A, W>>,
                       takers: seq<nat>, callers: seq<nat>)
    requires LockOrder(m, stages, takers, callers) && forall j: nat :: Open(n, next, j) <==> Open(m, stages, j)
    ensures LockOrder(n, next, takers, callers)
  {
  }

  lemma EnterKeepsOrder<A, W>(m: Mutex.State, stages: seq<Stage<A, W>>, i: nat, timeout: nat, arg: A,
                              takers: seq<nat>, callers: seq<nat>)
    requires AllMatch(m, stages) && MayEnter(m, stages, i) && LockOrder(m, stages, takers, callers)
    ensures LockOrder(Mutex.Next(m, Mutex.Wait(i, timeout)), stages[i := Entering(arg)], takers, callers)
  {
    SameOpen(m, stages, Mutex.Next(m, Mutex.Wait(i, timeout)), stages[i := Entering(arg)], takers, callers);
  }

  lemma MoveKeepsOrder<A, W>(m: Mutex.State, stages: seq<Stage<A, W>>, i: nat, r: nat, takers: seq<nat>, callers: seq<nat>)
    requires AllMatch(m, stages) && MayMove(m, stages, i, r) && LockOrder(m, stages, takers, callers)
    ensures LockOrder(Mutex.Next(m, Mutex.Step(i, r)), Moved(m, stages, i, r), Takers(m, i, takers), callers)
  {
    var n, next := Mutex.Next(m, Mutex.Step(i, r)), Moved(m, stages, i, r);
    if m.pcs[i].Setting? {
      TakingOpens(m, stages, i, r);
    } else {
      forall j: nat ensures Open(n, next, j) <==> Open(m, stages, j) {
        OthersStayOpen(m, stages, i, r, j);
      }
      SameOpen(m, stages, n, next, takers, callers);
    }
  }

  lemma TakingOpens<A, W>(m: Mutex.State, stages: seq<Stage<A, W>>, i: nat, r: nat)
    requires AllMatch(m, stages) && MayMove(m, stages, i, r) && m.pcs[i].Setting?
    ensures forall j: nat :: !Open(m, stages, j)
    ensures forall j: nat :: Open(Mutex.Next(m, Mutex.Step(i, r)), Moved(m, stages, i, r), j) <==> j == i
  {
    assert !m.flag;
    assert forall j | 0 <= j < |m.pcs| :: !Mutex.Owns(m.pcs[j]);
  }

  lemma OthersStayOpen<A, W>(m: Mutex.State, stages: seq<Stage<A, W>>, i: nat, r: nat, j: nat)
    requires AllMatch(m, stages) && MayMove(m, stages, i, r) && !m.pcs[i].Setting?
    ensures Open(Mutex.Next(m, Mutex.Step(i, r)), Moved(m, stages, i, r), j) <==> Open(m, stages, j)
  {
  }

  /** Work that goes on. */
  lemma WorkKeepsOrder<A, W>(m: Mutex.State, stages: seq<Stage<A, W>>, i: nat, work: W, takers: seq<nat>, callers: seq<nat>)
    requires AllMatch(m, stages) && AtWork(m, stages, i) && !stages[i].Leaving? && LockOrder(m, stages, takers, callers)
    ensures LockOrder(m, stages[i := Inside(work)], takers, callers)
  {
    SameOpen(m, stages, m, stages[i := Inside(work)], takers, callers);
  }

  /** A result: the caller is the one who took the mutex last. */
  lemma ResultKeepsOrder<A, W>(m: Mutex.State, stages: seq<Stage<A, W>>, i: nat, takers: seq<nat>, callers: seq<nat>)
    requires AllMatch(m, stages) && AtWork(m, stages, i) && !stages[i].Leaving? && LockOrder(m, stages, takers, callers)
    ensures LockOrder(m, stages[i := Leaving], takers, callers + [i])
  {
    var next := stages[i := Leaving];
    assert Open(m, stages, i);
    assert Mutex.Owns(m.pcs[i]);
    forall j: nat ensures !Open(m, next, j) {
    }
  }
}
