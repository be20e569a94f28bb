/**
The two-level mutex of the OS layer: a kernel lock held for a few statements guards `flag`, which is
set from a successful OS_WaitMutex until the matching OS_ReleaseMutex.  Any number of threads step
through the two functions, one access to shared state at a time.
*/
module Mutex {
  import opened Words

  /** Where a thread stands. `t` is what is left of its timeout. */
  datatype Pc =
    | Idle
    | TryOnce                // zero timeout: mutex_trylock
    | Waiting(t: nat)        // wait_event_timeout for flag == 0
    | Trying(t: nat)         // mutex_trylock in the loop
    | Testing(t: nat)        // lock held: is the flag still clear?
    | Unlocking(t: nat)      // lock held: it is not
    | Holding                // lock held: `if(exclusive)`, test of the flag
    | Setting                // lock held: take the flag
    | Leaving(granted: bool) // lock held: mutex_unlock, return
    | Granted                // OS_WaitMutex has returned 1
    | Releasing              // mutex_lock in OS_ReleaseMutex
    | Clearing               // lock held: clear the flag
    | Unlatching             // lock held: mutex_unlock

  datatype State = State(flag: bool, lock: Option<nat>, pcs: seq<Pc>)

  predicate HoldsLock(pc: Pc) {
    pc.Testing? || pc.Unlocking? || pc.Holding? || pc.Setting? || pc.Leaving? || pc.Clearing? || pc.Unlatching?
  }

  /** Granted and not yet released. */
  predicate Owns(pc: Pc) {
    (pc.Leaving? && pc.granted) || pc.Granted? || pc.Releasing? || pc.Clearing?
  }

  predicate Init(s: State) {
    !s.flag && s.lock == None && forall i | 0 <= i < |s.pcs| :: s.pcs[i] == Idle
  }

  /** A thread calls OS_WaitMutex, or takes its next step; `r` is what wait_event_timeout returns. */
  datatype Action = Wait(i: nat, timeout: nat) | Step(i: nat, r: nat)

  predicate Enabled(s: State, a: Action) {
    && a.i < |s.pcs|
    && match a
       case Wait(i, _) => s.pcs[i] == Idle
       case Step(i, r) =>
         match s.pcs[i]
         case Idle => false
         case Waiting(t) => if s.flag then r == 0 else 0 < r <= t
         case Releasing => s.lock == None
         case _ => true
  }

  /** Back to the head of the loop while time is left; otherwise OS_WaitMutex returns 0. */
  function Retry(t: nat): Pc { if t > 0 then Waiting(t) else Idle }

  function Next(s: State, a: Action): State
    requires Enabled(s, a)
  {
    var i := a.i;
    match a
    case Wait(_, timeout) => s.(pcs := s.pcs[i := if timeout == 0 then TryOnce else Waiting(timeout)])
    case Step(_, r) =>
      match s.pcs[i]
      case TryOnce =>
        if s.lock == None then s.(lock := Some(i), pcs := s.pcs[i := Holding]) else s.(pcs := s.pcs[i := Idle])
      case Waiting(_) => s.(pcs := s.pcs[i := Trying(r)])
      case Trying(t) =>
        if s.lock == None then s.(lock := Some(i), pcs := s.pcs[i := Testing(t)]) else s.(pcs := s.pcs[i := Retry(t)])
      case Testing(t) => s.(pcs := s.pcs[i := if s.flag then Unlocking(t) else Holding])
      case Unlocking(t) => s.(lock := None, pcs := s.pcs[i := Retry(t)])
      case Holding => s.(pcs := s.pcs[i := if s.flag then Leaving(false) else Setting])
      case Setting => s.(flag := true, pcs := s.pcs[i := Leaving(true)])
      case Leaving(granted) => s.(lock := None, pcs := s.pcs[i := if granted then Granted else Idle])
      case Granted => s.(pcs := s.pcs[i := Releasing])
      case Releasing => s.(lock := Some(i), pcs := s.pcs[i := Clearing])
      case Clearing => s.(flag := false, pcs := s.pcs[i := Unlatching])
      case Unlatching => s.(lock := None, pcs := s.pcs[i := Idle])
  }

  predicate Legal(s: State, run: seq<Action>)
    decreases |run|
  {
    run == [] || (Enabled(s, run[0]) && Legal(Next(s, run[0]), run[1..]))
  }

  function After(s: State, run: seq<Action>): (t: State)
    requires Legal(s, run)
    ensures |t.pcs| == |s.pcs|
    decreases |run|
  {
    if run == [] then s else After(Next(s, run[0]), run[1..])
  }

  // ---------------------------------------------------------------------------------------------
  // Invariant
  // ---------------------------------------------------------------------------------------------

  /** The kernel lock is held by the thread inside its short section. */
  ghost predicate LockHeld(lock: Option<nat>, pcs: seq<Pc>) {
    && (lock.Some? ==> lock.value < |pcs|)
    && forall i | 0 <= i < |pcs| :: HoldsLock(pcs[i]) <==> lock == Some(i)
  }

  ghost predicate OneOwner(flag: bool, pcs: seq<Pc>) {
    && (forall i, j | 0 <= i < |pcs| && 0 <= j < |pcs| && Owns(pcs[i]) && Owns(pcs[j]) :: i == j)
    && (flag <==> exists i :: 0 <= i < |pcs| && Owns(pcs[i]))
    && (forall i | 0 <= i < |pcs| && pcs[i].Setting? :: !flag)
  }

  /** A thread that has found the flag set keeps it from changing until it lets go of the kernel lock. */
  ghost predicate FoundSet(flag: bool, pcs: seq<Pc>) {
    forall i | 0 <= i < |pcs| && (pcs[i].Unlocking? || pcs[i] == Leaving(false)) :: flag
  }

  ghost predicate Inv(s: State) {
    && LockHeld(s.lock, s.pcs) && OneOwner(s.flag, s.pcs) && FoundSet(s.flag, s.pcs)
    && forall i | 0 <= i < |s.pcs| && s.pcs[i].Waiting? :: s.pcs[i].t > 0
  }

  lemma StepKeepsLock(s: State, a: Action)
    requires LockHeld(s.lock, s.pcs) && Enabled(s, a)
    ensures LockHeld(Next(s, a).lock, Next(s, a).pcs)
  {
  }

  lemma SameOwners(pcs: seq<Pc>, i: nat, pc: Pc, flag: bool)
    requires i < |pcs| && OneOwner(flag, pcs) && (Owns(pcs[i]) <==> Owns(pc)) && (pc.Setting? ==> !flag)
    ensures OneOwner(flag, pcs[i := pc])
  {
    var t := pcs[i := pc];
    forall k | 0 <= k < |pcs|
      ensures Owns(t[k]) <==> Owns(pcs[k])
    {
    }
    if flag {
      var k :| 0 <= k < |pcs| && Owns(pcs[k]);
      assert Owns(t[k]);
    }
  }

  /** Only the holder of the kernel lock changes the flag, and only when it is entitled to. */
  lemma StepKeepsOwner(s: State, a: Action)
    requires Inv(s) && Enabled(s, a)
    ensures OneOwner(Next(s, a).flag, Next(s, a).pcs)
  {
    var t := Next(s, a);
    var i := a.i;
    if a.Step? && s.pcs[i].Setting? {
      assert Owns(t.pcs[i]);
      forall j | 0 <= j < |s.pcs| && j != i ensures !Owns(t.pcs[j]) && !t.pcs[j].Setting? {
        assert t.pcs[j] == s.pcs[j];
      }
    } else if a.Step? && s.pcs[i].Clearing? {
      forall j | 0 <= j < |s.pcs| ensures !Owns(t.pcs[j]) {
        assert Owns(s.pcs[i]);
      }
    } else {
      SameOwners(s.pcs, i, t.pcs[i], s.flag);
    }
  }

  lemma StepKeepsFound(s: State, a: Action)
    requires Inv(s) && Enabled(s, a)
    ensures FoundSet(Next(s, a).flag, Next(s, a).pcs)
  {
    var t := Next(s, a);
    forall j | 0 <= j < |t.pcs| && (t.pcs[j].Unlocking? || t.pcs[j] == Leaving(false))
      ensures t.flag
    {
      if j != a.i {
        assert t.pcs[j] == s.pcs[j] && HoldsLock(s.pcs[j]);
        assert !HoldsLock(s.pcs[a.i]);
      }
    }
  }

  lemma StepKeeps(s: State, a: Action)
    requires Inv(s) && Enabled(s, a)
    ensures Inv(Next(s, a))
  {
    StepKeepsLock(s, a);
    StepKeepsOwner(s, a);
    StepKeepsFound(s, a);
  }

  lemma {:induction false} RunKeeps(s: State, run: seq<Action>)
    requires Inv(s) && Legal(s, run)
    ensures Inv(After(s, run))
    decreases |run|
  {
    if run != [] {
      StepKeeps(s, run[0]);
      RunKeeps(Next(s, run[0]), run[1..]);
    }
  }

  // ---------------------------------------------------------------------------------------------
  // Results
  // ---------------------------------------------------------------------------------------------

  /** In every run of any number of threads, at most one owns the mutex, and the flag is set exactly then. */
  lemma MutualExclusion(s: State, run: seq<Action>)
    requires Init(s) && Legal(s, run)
    ensures var t := After(s, run);
            && (forall i, j | 0 <= i < |t.pcs| && 0 <= j < |t.pcs| && Owns(t.pcs[i]) && Owns(t.pcs[j]) :: i == j)
            && (t.flag <==> exists i :: 0 <= i < |t.pcs| && Owns(t.pcs[i]))
            && (forall i, j | 0 <= i < |t.pcs| && 0 <= j < |t.pcs| && HoldsLock(t.pcs[i]) && HoldsLock(t.pcs[j]) :: i == j)
  {
    RunKeeps(s, run);
  }

  datatype Event = Take(who: nat) | Drop(who: nat)

  /** What a step does to the flag. */
  function EventOf(s: State, a: Action): seq<Event>
    requires Enabled(s, a)
  {
    if a.Step? && s.pcs[a.i] == Setting then [Take(a.i)]
    else if a.Step? && s.pcs[a.i] == Clearing then [Drop(a.i)]
    else []
  }

  function Events(s: State, run: seq<Action>): seq<Event>
    requires Legal(s, run)
    decreases |run|
  {
    if run == [] then [] else EventOf(s, run[0]) + Events(Next(s, run[0]), run[1..])
  }

  /** Every taking is followed by a dropping of the same thread before anybody takes again. */
  predicate Alternates(owner: Option<nat>, events: seq<Event>)
    decreases |events|
  {
    events == [] ||
    match events[0]
    case Take(i) => owner == None && Alternates(Some(i), events[1..])
    case Drop(i) => owner == Some(i) && Alternates(None, events[1..])
  }

  ghost predicate OwnedBy(s: State, owner: Option<nat>) {
    match owner
    case None => !s.flag
    case Some(i) => i < |s.pcs| && Owns(s.pcs[i])
  }

  lemma StepOwner(s: State, a: Action, owner: Option<nat>)
    requires Inv(s) && Enabled(s, a) && OwnedBy(s, owner)
    ensures var e := EventOf(s, a);
            var after := if e == [] then owner else if e[0].Take? then Some(a.i) else None;
            OwnedBy(Next(s, a), after) && (e == [] || (if e[0].Take? then owner == None else owner == Some(a.i)))
  {
    StepKeeps(s, a);
    if a.Step? && s.pcs[a.i] == Clearing { assert Owns(s.pcs[a.i]); }
  }

  /** The mutex passes from owner to owner: takings and droppings alternate, in matching pairs. */
  lemma {:induction false} OwnershipAlternates(s: State, run: seq<Action>, owner: Option<nat>)
    requires Inv(s) && Legal(s, run) && OwnedBy(s, owner)
    ensures Alternates(owner, Events(s, run))
    decreases |run|
  {
    if run != [] {
      var e := EventOf(s, run[0]);
      var after := if e == [] then owner else if e[0].Take? then Some(run[0].i) else None;
      StepKeeps(s, run[0]);
      StepOwner(s, run[0], owner);
      OwnershipAlternates(Next(s, run[0]), run[1..], after);
      var rest := Events(Next(s, run[0]), run[1..]);
      assert e == [] ==> e + rest == rest;
      assert e != [] ==> (e + rest)[1..] == rest;
    }
  }

  /** Nobody gets stuck: as long as some thread is inside one of the two functions, some thread can move. */
  lemma NoDeadlock(s: State, i: nat)
    requires Inv(s) && i < |s.pcs| && s.pcs[i] != Idle
    ensures exists j, r :: Enabled(s, Step(j, r))
  {
    if s.pcs[i].Waiting? {
      assert Enabled(s, Step(i, if s.flag then 0 else 1));
    } else if s.pcs[i].Releasing? && s.lock.Some? {
      assert HoldsLock(s.pcs[s.lock.value]);
      assert Enabled(s, Step(s.lock.value, 0));
    } else {
      assert Enabled(s, Step(i, 0));
    }
  }

  // ---------------------------------------------------------------------------------------------
  // Granted and refused
  // ---------------------------------------------------------------------------------------------

  /** Somebody else is in the way of thread i. */
  predicate InTheWay(s: State, i: nat) { s.flag || (s.lock.Some? && s.lock.value != i) }

  /** A refusal has a cause: where OS_WaitMutex returns 0, the mutex is taken or another thread has the kernel lock. */
  lemma RefusalHasCause(s: State, i: nat, r: nat)
    requires Inv(s) && Enabled(s, Step(i, r)) && !s.pcs[i].Unlatching?
    ensures Next(s, Step(i, r)).pcs[i] == Idle ==> InTheWay(s, i) && InTheWay(Next(s, Step(i, r)), i)
  {
  }

  predicate Returned(pc: Pc) { pc == Idle || pc == Granted }

  /** Only thread i steps, and only until OS_WaitMutex returns. */
  predicate OwnSteps(s: State, i: nat, run: seq<Action>)
    decreases |run|
  {
    run == [] ||
    (i < |s.pcs| && !Returned(s.pcs[i]) && run[0].Step? && run[0].i == i && Enabled(s, run[0])
     && OwnSteps(Next(s, run[0]), i, run[1..]))
  }

  lemma {:induction false} OwnStepsAreLegal(s: State, i: nat, run: seq<Action>)
    requires OwnSteps(s, i, run)
    ensures Legal(s, run)
    decreases |run|
  {
    if run != [] {
      OwnStepsAreLegal(Next(s, run[0]), i, run[1..]);
    }
  }

  /** With nobody in the way, this is what thread i finds at each point of OS_WaitMutex. */
  predicate Unhindered(s: State, i: nat) {
    && i < |s.pcs|
    && match s.pcs[i]
       case TryOnce => !s.flag && s.lock == None
       case Waiting(t) => !s.flag && s.lock == None && t > 0
       case Trying(t) => !s.flag && s.lock == None && t > 0
       case Testing(_) => !s.flag && s.lock == Some(i)
       case Holding => !s.flag && s.lock == Some(i)
       case Setting => !s.flag && s.lock == Some(i)
       case Leaving(granted) => granted && s.flag && s.lock == Some(i)
       case Granted => s.flag && s.lock == None
       case _ => false
  }

  /** Steps that are left. */
  function ToGo(pc: Pc): nat {
    match pc
    case Waiting(_) => 6
    case Trying(_) => 5
    case Testing(_) => 4
    case TryOnce => 4
    case Holding => 3
    case Setting => 2
    case Leaving(_) => 1
    case _ => 0
  }

  lemma UnhinderedStep(s: State, i: nat, r: nat)
    requires Unhindered(s, i) && !Returned(s.pcs[i]) && Enabled(s, Step(i, r))
    ensures var t := Next(s, Step(i, r)); Unhindered(t, i) && ToGo(t.pcs[i]) == ToGo(s.pcs[i]) - 1
  {
  }

  lemma {:induction false} UnhinderedRun(s: State, i: nat, run: seq<Action>)
    requires Unhindered(s, i) && OwnSteps(s, i, run)
    ensures Legal(s, run) && Unhindered(After(s, run), i) && ToGo(After(s, run).pcs[i]) == ToGo(s.pcs[i]) - |run|
    decreases |run|
  {
    if run != [] {
      UnhinderedStep(s, i, run[0].r);
      UnhinderedRun(Next(s, run[0]), i, run[1..]);
    }
  }

  /**
  A free mutex is granted: with the flag clear, the kernel lock free and only its own steps, OS_WaitMutex
  returns after at most six of them, and with 1, whatever the timeout.
  */
  lemma FreeIsGranted(s: State, i: nat, timeout: nat, run: seq<Action>)
    requires Inv(s) && !s.flag && s.lock == None && i < |s.pcs| && s.pcs[i] == Idle
    requires OwnSteps(Next(s, Wait(i, timeout)), i, run)
    ensures Legal(Next(s, Wait(i, timeout)), run) && |run| <= 6
    ensures var t := After(Next(s, Wait(i, timeout)), run);
            t.pcs[i] != Idle && (Returned(t.pcs[i]) ==> t.pcs[i] == Granted && t.flag && t.lock == None)
  {
    UnhinderedRun(Next(s, Wait(i, timeout)), i, run);
  }

  /** And it does return: such a run exists. */
  lemma FreeReturns(s: State, i: nat, timeout: nat) returns (run: seq<Action>)
    requires Inv(s) && !s.flag && s.lock == None && i < |s.pcs| && s.pcs[i] == Idle
    ensures OwnSteps(Next(s, Wait(i, timeout)), i, run) && Legal(Next(s, Wait(i, timeout)), run)
    ensures After(Next(s, Wait(i, timeout)), run).pcs[i] == Granted && After(Next(s, Wait(i, timeout)), run).flag
  {
    run := UnhinderedReturns(Next(s, Wait(i, timeout)), i);
  }

  lemma {:induction false} UnhinderedReturns(s: State, i: nat) returns (run: seq<Action>)
    requires Unhindered(s, i)
    ensures OwnSteps(s, i, run) && Legal(s, run) && After(s, run).pcs[i] == Granted && After(s, run).flag
    decreases ToGo(s.pcs[i])
  {
    if s.pcs[i] == Granted {
      run := [];
    } else {
      var a := Step(i, 1);
      UnhinderedStep(s, i, 1);
      var rest := UnhinderedReturns(Next(s, a), i);
      run := [a] + rest;
      assert run[1..] == rest;
    }
  }

  // ---------------------------------------------------------------------------------------------
  // The two functions
  // ---------------------------------------------------------------------------------------------

  class PrivMutex {
    var flag: bool
    var lock: Option<nat>
    /** Where every thread stands. No statement below branches on it. */
    var pcs: seq<Pc>

    function Snap(): State reads this { State(flag, lock, pcs) }

    ghost predicate Valid() reads this { Inv(Snap()) }

    constructor (threads: nat)
      ensures Valid() && Init(Snap()) && |pcs| == threads
    {
      flag, lock, pcs := false, None, seq(threads, _ => Idle);
    }

    /** Any number of steps of all other threads. */
    method Interfere(me: nat)
      requires Valid() && me < |pcs|
      modifies this
      ensures Valid() && |pcs| == old(|pcs|) && pcs[me] == old(pcs[me])
      ensures Owns(pcs[me]) || HoldsLock(pcs[me]) ==> flag == old(flag)
    {
      var n: nat := *;
      while n > 0
        invariant Valid() && |pcs| == old(|pcs|) && pcs[me] == old(pcs[me])
        invariant Owns(pcs[me]) || HoldsLock(pcs[me]) ==> flag == old(flag)
        decreases n
      {
        var a: Action := *;
        if Enabled(Snap(), a) && a.i != me {
          StepKeeps(Snap(), a);
          ghost var s := Snap();
          var t := Next(Snap(), a);
          OthersLeaveMe(s, a, me);
          flag, lock, pcs := t.flag, t.lock, t.pcs;
        }
        n := n - 1;
      }
    }

    /** `me` moves on to `pc`. */
    method Move(me: nat, pc: Pc)
      requires me < |pcs|
      modifies `pcs
      ensures pcs == old(pcs)[me := pc]
    {
      pcs := pcs[me := pc];
    }

    /**
    OS_WaitMutex. The retry loop need not end; `returned` says that it did within some number of turns.
    `ret` is only set on the way out with the flag taken by this very call, and only left clear with
    somebody else in the way.
    */
    method WaitMutex(me: nat, timeout: nat) returns (returned: bool, ret: bool)
      requires Valid() && me < |pcs| && pcs[me] == Idle
      modifies this
      ensures Valid() && |pcs| == old(|pcs|)
      ensures returned ==> pcs[me] == if ret then Granted else Idle
      ensures returned && ret ==> flag
      ensures returned && !ret ==> InTheWay(Snap(), me)
      ensures !returned ==> timeout > 0 && pcs[me].Waiting?
    {
      var exclusive: bool;
      StepKeeps(Snap(), Wait(me, timeout));
      Move(me, if timeout == 0 then TryOnce else Waiting(timeout));
      if timeout == 0 {
        Interfere(me);
        exclusive := TryLock(me);
      } else {
        returned, exclusive := RetryLoop(me, timeout);
        if !returned {
          return false, false;
        }
      }
      ret := false;
      if exclusive {
        ret := TakeFlag(me);
      }
      returned := true;
    }

    method TryLock(me: nat) returns (exclusive: bool)
      requires Valid() && me < |pcs| && (pcs[me].TryOnce? || pcs[me].Trying?)
      modifies this
      ensures Valid() && |pcs| == old(|pcs|) && flag == old(flag)
      ensures exclusive == (old(lock) == None)
      ensures pcs[me] == if old(pcs[me]).TryOnce? then (if exclusive then Holding else Idle)
                         else if exclusive then Testing(old(pcs[me]).t) else Retry(old(pcs[me]).t)
      ensures !exclusive ==> InTheWay(Snap(), me)
    {
      assert lock == Some(me) ==> HoldsLock(pcs[me]);
      StepKeeps(Snap(), Step(me, 0));
      exclusive := lock == None;
      if exclusive {
        lock := Some(me);
      }
      Move(me, if pcs[me].TryOnce? then (if exclusive then Holding else Idle)
               else if exclusive then Testing(pcs[me].t) else Retry(pcs[me].t));
    }

    /** Wait for a clear flag, try to lock, look at the flag again; while time is left. */
    method RetryLoop(me: nat, timeout: nat) returns (returned: bool, exclusive: bool)
      requires Valid() && me < |pcs| && pcs[me] == Waiting(timeout)
      modifies this
      ensures Valid() && |pcs| == old(|pcs|)
      ensures returned ==> pcs[me] == if exclusive then Holding else Idle
      ensures returned && !exclusive ==> InTheWay(Snap(), me)
      ensures !returned ==> pcs[me].Waiting?
    {
      var turns: nat := *;
      var t := timeout;
      exclusive := false;
      while turns > 0
        invariant Valid() && |pcs| == old(|pcs|) && pcs[me] == Waiting(t) && !exclusive
        decreases turns
      {
        Interfere(me);
        t := WaitEvent(me, t);
        Interfere(me);
        exclusive := TryLock(me);
        if exclusive {
          Interfere(me);
          exclusive := TestFlag(me);
          if exclusive {
            return true, true;
          }
        }
        if t == 0 {
          return true, false;
        }
        turns := turns - 1;
      }
      returned := false;
    }

    /** wait_event_timeout: 0 if time is up and the flag is set, otherwise what is left. */
    method WaitEvent(me: nat, t: nat) returns (left: nat)
      requires Valid() && me < |pcs| && pcs[me] == Waiting(t)
      modifies this
      ensures Valid() && pcs == old(pcs)[me := Trying(left)] && flag == old(flag)
      ensures if flag then left == 0 else 0 < left <= t
    {
      if flag {
        left := 0;
      } else {
        left :| 0 < left <= t;
      }
      StepKeeps(Snap(), Step(me, left));
      Move(me, Trying(left));
    }

    /** The flag may have been taken since; then the lock is given back. */
    method TestFlag(me: nat) returns (clear: bool)
      requires Valid() && me < |pcs| && pcs[me].Testing?
      modifies this
      ensures Valid() && |pcs| == old(|pcs|)
      ensures pcs[me] == if clear then Holding else Retry(old(pcs[me]).t)
      ensures !clear ==> flag
    {
      StepKeeps(Snap(), Step(me, 0));
      var t := pcs[me].t;
      clear := !flag;
      Move(me, if clear then Holding else Unlocking(t));
      if !clear {
        Interfere(me);
        StepKeeps(Snap(), Step(me, 0));
        lock := None;
        Move(me, Retry(t));
      }
    }

    method TakeFlag(me: nat) returns (ret: bool)
      requires Valid() && me < |pcs| && pcs[me] == Holding
      modifies this
      ensures Valid() && |pcs| == old(|pcs|) && pcs[me] == (if ret then Granted else Idle)
      ensures flag
    {
      StepKeeps(Snap(), Step(me, 0));
      ret := !flag;
      Move(me, if ret then Setting else Leaving(false));
      Interfere(me);
      if ret {
        StepKeeps(Snap(), Step(me, 0));
        flag := true;
        Move(me, Leaving(true));
        Interfere(me);
      }
      StepKeeps(Snap(), Step(me, 0));
      lock := None;
      Move(me, if ret then Granted else Idle);
    }

    /** OS_ReleaseMutex, by the owner; it waits for the lock, `locked` says that it got it. */
    method ReleaseMutex(me: nat) returns (locked: bool)
      requires Valid() && me < |pcs| && pcs[me] == Granted
      modifies this
      ensures Valid() && |pcs| == old(|pcs|)
      ensures pcs[me] == if locked then Idle else Releasing
      ensures !locked ==> flag && lock.Some? && lock.value != me
    {
      StepKeeps(Snap(), Step(me, 0));
      assert Owns(pcs[me]);
      Move(me, Releasing);
      Interfere(me);
      if lock != None {
        assert Owns(pcs[me]) && !HoldsLock(pcs[me]);
        return false;
      }
      StepKeeps(Snap(), Step(me, 0));
      lock := Some(me);
      Move(me, Clearing);
      ClearFlag(me);
      locked := true;
    }

    method ClearFlag(me: nat)
      requires Valid() && me < |pcs| && pcs[me] == Clearing
      modifies this
      ensures Valid() && |pcs| == old(|pcs|) && pcs[me] == Idle
    {
      Interfere(me);
      StepKeeps(Snap(), Step(me, 0));
      flag := false;
      Move(me, Unlatching);
      Interfere(me);
      StepKeeps(Snap(), Step(me, 0));
      lock := None;
      Move(me, Idle);
    }
  }

  /** Nobody else moves me, or changes the flag as long as I own the mutex or hold the lock. */
  lemma OthersLeaveMe(s: State, a: Action, me: nat)
    requires Inv(s) && Enabled(s, a) && a.i != me && me < |s.pcs|
    ensures |Next(s, a).pcs| == |s.pcs| && Next(s, a).pcs[me] == s.pcs[me]
    ensures Owns(s.pcs[me]) || HoldsLock(s.pcs[me]) ==> Next(s, a).flag == s.flag
  {
    if a.Step? && s.pcs[a.i].Setting? { assert HoldsLock(s.pcs[a.i]); }
  }
}
