/**
 Endpoint-readiness generations of a Service context: work reserves the current
 generation, and invalidating a generation waits until no reservation is left.
 */
module Readiness {

  /** Channels are numbered in order of creation. */
  type Chan = nat

  /** What the context's state mutex protects. */
  datatype Core = Core(
    ready: bool, generation: nat, operations: int,
    endpointsReady: Chan, endpointsLost: Chan, nextChan: Chan,
    isWatched: bool, watchingStopped: Chan,
    closed: set<Chan>, panicked: bool, cancelled: bool)
  {
    function Close(channel: Chan): Core {
      this.(closed := closed + {channel}, panicked := panicked || channel in closed)
    }

    predicate Current(g: nat) { ready && generation == g }

    predicate Grants(g: nat) { !cancelled && Current(g) }

    function Signal(): Core {
      if ready then this else this.(ready := true).Close(endpointsReady)
    }

    /** The part of a reset before its wait. */
    function Invalidate(): Core {
      this.(generation := generation + 1, endpointsReady := nextChan, endpointsLost := nextChan + 1,
            nextChan := nextChan + 2, ready := false).Close(endpointsLost)
    }

    function Acquire(): Core { this.(operations := operations + 1) }

    function Release(): Core { this.(operations := operations - 1) }

    function StartWatching(): Core {
      if cancelled || isWatched then this
      else this.(isWatched := true, watchingStopped := nextChan, nextChan := nextChan + 1)
    }

    function StopWatching(): Core {
      if isWatched then this.(isWatched := false).Close(watchingStopped) else this
    }
  }

  /** The two channels handed out with one generation. */
  datatype Signals = Signals(ready: Chan, lost: Chan)

  /**
   The context together with everybody who uses it. `held` maps the unreleased
   reservations to their generation, `parked` and `awake` the resets that wait on
   the condition variable; `resets` lists the generations reset so far and `done`
   those whose reset has returned. `signals[g - 1]` are the channels of generation g.
   */
  datatype State = State(
    core: Core, signals: seq<Signals>, held: map<nat, nat>, nextReservation: nat,
    parked: map<nat, nat>, awake: map<nat, nat>, resets: seq<nat>, done: set<nat>)

  datatype Step =
    | Signal
    | Reset(caller: nat, g: nat)
    | Recheck(caller: nat)
    | Acquire(g: nat)
    | Release(r: nat)
    | Cancel
    | StartWatching
    | StopWatching

  function Next(s: State, step: Step): State {
    match step
    case Signal => s.(core := s.core.Signal())
    case Reset(w, g) =>
      if w in s.parked || w in s.awake || !s.core.Current(g) then s
      else
        var c := s.core.Invalidate();
        var s' := s.(core := c, signals := s.signals + [Signals(c.endpointsReady, c.endpointsLost)], resets := s.resets + [g]);
        if c.operations > 0 then s'.(parked := s.parked[w := g]) else s'.(done := s.done + {g})
    case Recheck(w) =>
      if w !in s.awake then s
      else if s.core.operations > 0 then s.(awake := s.awake - {w}, parked := s.parked[w := s.awake[w]])
      else s.(awake := s.awake - {w}, done := s.done + {s.awake[w]})
    case Acquire(g) =>
      if s.core.Grants(g)
      then s.(core := s.core.Acquire(), held := s.held[s.nextReservation := g], nextReservation := s.nextReservation + 1)
      else s
    case Release(r) =>
      if r !in s.held then s
      else
        var c := s.core.Release();
        var s' := s.(core := c, held := s.held - {r});
        if c.operations == 0 then s'.(awake := s.awake + s.parked, parked := map[]) else s'
    case Cancel => s.(core := s.core.(cancelled := true))
    case StartWatching => s.(core := s.core.StartWatching())
    case StopWatching => s.(core := s.core.StopWatching())
  }

  function New(): State {
    State(Core(false, 1, 0, 0, 1, 2, false, 0, {}, false, false), [Signals(0, 1)], map[], 0, map[], map[], [], {})
  }

  /** The state after further steps. */
  function Exec(s: State, steps: seq<Step>): State
    decreases |steps|
  {
    if steps == [] then s else Next(Exec(s, steps[..|steps| - 1]), steps[|steps| - 1])
  }

  // ---- Invariants ------------------------------------------------------------------

  /** The channels that can still be closed are open. */
  ghost predicate CoreOk(c: Core)
  {
    && !c.panicked && c.generation >= 1
    && (forall x :: x in c.closed ==> x < c.nextChan)
    && c.endpointsReady < c.nextChan && c.endpointsLost < c.nextChan && c.endpointsReady != c.endpointsLost
    && (c.endpointsReady in c.closed <==> c.ready) && c.endpointsLost !in c.closed
    && (c.isWatched ==> c.watchingStopped < c.nextChan && c.watchingStopped !in c.closed
                        && c.watchingStopped != c.endpointsReady && c.watchingStopped != c.endpointsLost)
  }

  /** Of every generation: it is lost exactly when superseded, and was ready then. */
  ghost predicate SignalsOk(s: State)
  {
    && |s.signals| == s.core.generation >= 1
    && s.signals[s.core.generation - 1] == Signals(s.core.endpointsReady, s.core.endpointsLost)
    && (forall i :: 0 <= i < |s.signals| - 1 ==> s.signals[i].ready in s.core.closed && s.signals[i].lost in s.core.closed)
  }

  /** The operation counter is the number of unreleased reservations. */
  ghost predicate Counted(s: State)
  {
    && s.core.operations == |s.held|
    && (forall r :: r in s.held ==> r < s.nextReservation && s.held[r] <= s.core.generation)
    && (forall r :: r in s.held && s.held[r] == s.core.generation ==> s.core.ready)
  }

  /** A finished reset left no reservation of its generation or an earlier one. */
  ghost predicate Invalidated(s: State)
  {
    forall g :: g in s.done ==> g < s.core.generation && Gone(s.held, g)
  }

  /** No reservation of generation `g` or an earlier one. */
  ghost predicate Gone(held: map<nat, nat>, g: nat)
  {
    forall r :: r in held ==> held[r] > g
  }

  /** No lost wakeup: without reservations nobody is parked. */
  ghost predicate WaitersOk(s: State)
  {
    && (s.core.operations == 0 ==> s.parked == map[])
    && (forall w :: w in s.parked ==> s.parked[w] < s.core.generation)
    && (forall w :: w in s.awake ==> s.awake[w] < s.core.generation)
  }

  /** The generations reset so far are 1, 2, ... up to the one before the current, each once. */
  ghost predicate ResetInOrder(s: State)
  {
    |s.resets| == s.core.generation - 1 && forall i :: 0 <= i < |s.resets| ==> s.resets[i] == i + 1
  }

  ghost predicate Inv(s: State)
  {
    && CoreOk(s.core) && SignalsOk(s) && Counted(s) && Invalidated(s) && WaitersOk(s) && ResetInOrder(s)
  }

  lemma CoreOkNext(c: Core)
    requires CoreOk(c)
    ensures CoreOk(c.Signal()) && CoreOk(c.StartWatching()) && CoreOk(c.StopWatching())
    ensures c.ready ==> CoreOk(c.Invalidate())
  {
  }

  lemma CountedAcquire(s: State, g: nat)
    requires Counted(s)
    ensures Counted(Next(s, Acquire(g)))
  {
    assert s.nextReservation !in s.held;
    assert |s.held[s.nextReservation := g]| == |s.held| + 1;
  }

  lemma CountedRelease(s: State, r: nat)
    requires Counted(s)
    ensures Counted(Next(s, Release(r)))
  {
    if r in s.held {
      assert (s.held - {r})[r := s.held[r]] == s.held;
      assert |s.held - {r}| == |s.held| - 1;
    }
  }

  lemma CountedReset(s: State, w: nat, g: nat)
    requires Counted(s)
    ensures Counted(Next(s, Reset(w, g)))
  {
  }

  lemma CountedNext(s: State, step: Step)
    requires Counted(s)
    ensures Counted(Next(s, step))
  {
    match step {
      case Acquire(g) => CountedAcquire(s, g);
      case Release(r) => CountedRelease(s, r);
      case Reset(w, g) => CountedReset(s, w, g);
      case _ =>
    }
  }

  lemma SignalsOkReset(s: State, w: nat, g: nat)
    requires CoreOk(s.core) && SignalsOk(s)
    ensures SignalsOk(Next(s, Reset(w, g)))
  {
    assert s.core.closed <= s.core.Invalidate().closed;
  }

  lemma SignalsOkNext(s: State, step: Step)
    requires CoreOk(s.core) && SignalsOk(s)
    ensures SignalsOk(Next(s, step))
  {
    if step.Reset? {
      SignalsOkReset(s, step.caller, step.g);
    } else {
      assert Next(s, step).signals == s.signals && s.core.closed <= Next(s, step).core.closed;
    }
  }

  /** A reservation is made only of the current generation. */
  lemma HeldChanges(s: State, step: Step)
    ensures var s' := Next(s, step);
            && s.core.generation <= s'.core.generation
            && (forall r :: r in s'.held ==> (r in s.held && s'.held[r] == s.held[r]) || s'.held[r] == s.core.generation)
  {
  }

  /** A reset returns only when nothing is reserved. */
  lemma DoneChanges(s: State, step: Step)
    requires Counted(s) && WaitersOk(s)
    ensures var s' := Next(s, step);
            s'.done != s.done ==> s'.held == map[] && exists g :: g < s'.core.generation && s'.done == s.done + {g}
  {
    if step.Reset? {
      assert Next(s, step).done == s.done || Next(s, step).done == s.done + {step.g};
    } else if step.Recheck? && step.caller in s.awake {
      assert Next(s, step).done == s.done || Next(s, step).done == s.done + {s.awake[step.caller]};
    }
  }

  lemma InvalidatedNext(s: State, step: Step)
    requires Counted(s) && Invalidated(s) && WaitersOk(s)
    ensures Invalidated(Next(s, step))
  {
    var s' := Next(s, step);
    HeldChanges(s, step);
    DoneChanges(s, step);
    forall g | g in s'.done ensures g < s'.core.generation && Gone(s'.held, g) {
      if g in s.done {
        assert Gone(s.held, g);
      }
    }
  }

  lemma WaitersOkNext(s: State, step: Step)
    requires Counted(s) && WaitersOk(s)
    ensures WaitersOk(Next(s, step))
  {
  }

  lemma CoreOkStep(s: State, step: Step)
    requires CoreOk(s.core)
    ensures CoreOk(Next(s, step).core)
  {
    CoreOkNext(s.core);
  }

  lemma ResetInOrderNext(s: State, step: Step)
    requires ResetInOrder(s)
    ensures ResetInOrder(Next(s, step))
  {
  }

  lemma InvNext(s: State, step: Step)
    requires Inv(s)
    ensures Inv(Next(s, step))
  {
    CoreOkStep(s, step);
    ResetInOrderNext(s, step);
    SignalsOkNext(s, step);
    CountedNext(s, step);
    InvalidatedNext(s, step);
    WaitersOkNext(s, step);
  }

  /**
   Readiness over every run: the counter is exact, no channel is closed twice, the
   generations are reset in order and once each, and no waiting reset is forgotten.
   */
  lemma {:induction false} ReadinessSafe(steps: seq<Step>)
    ensures Inv(Exec(New(), steps))
    decreases |steps|
  {
    if steps == [] {
    } else {
      ReadinessSafe(steps[..|steps| - 1]);
      InvNext(Exec(New(), steps[..|steps| - 1]), steps[|steps| - 1]);
    }
  }

  lemma {:induction false} DoneStays(s: State, steps: seq<Step>, g: nat)
    requires Inv(s) && g in s.done
    ensures Inv(Exec(s, steps)) && g in Exec(s, steps).done
    decreases |steps|
  {
    if steps == [] {
    } else {
      DoneStays(s, steps[..|steps| - 1], g);
      InvNext(Exec(s, steps[..|steps| - 1]), steps[|steps| - 1]);
    }
  }

  /**
   Invalidation is complete: once the reset of `g` has returned, no reservation of
   `g` or an earlier generation is held, and none is granted later, whatever else runs.
   */
  lemma InvalidationComplete(before: seq<Step>, after: seq<Step>, g: nat, old': nat)
    requires g in Exec(New(), before).done && old' <= g
    ensures var s := Exec(Exec(New(), before), after);
            && Gone(s.held, g)
            && !s.core.Grants(old') && Next(s, Acquire(old')) == s
  {
    ReadinessSafe(before);
    DoneStays(Exec(New(), before), after, g);
  }

  /** A reset that succeeds is the only one of its generation: a second call changes nothing. */
  lemma ResetOnce(before: seq<Step>, g: nat, w: nat, after: seq<Step>, v: nat)
    requires Next(Exec(New(), before), Reset(w, g)) != Exec(New(), before)
    ensures var s := Exec(Next(Exec(New(), before), Reset(w, g)), after);
            Next(s, Reset(v, g)) == s
  {
    ReadinessSafe(before);
    var s1 := Next(Exec(New(), before), Reset(w, g));
    InvNext(Exec(New(), before), Reset(w, g));
    GenerationGrows(s1, after);
  }

  lemma GenerationGrowsNext(s: State, step: Step)
    ensures s.core.generation <= Next(s, step).core.generation
  {
  }

  lemma {:induction false} GenerationGrows(s: State, steps: seq<Step>)
    ensures s.core.generation <= Exec(s, steps).core.generation
    decreases |steps|
  {
    if steps == [] {
    } else {
      GenerationGrows(s, steps[..|steps| - 1]);
      GenerationGrowsNext(Exec(s, steps[..|steps| - 1]), steps[|steps| - 1]);
    }
  }

  /** The lost channel of a generation is closed exactly when that generation was superseded. */
  lemma LostMeansSuperseded(steps: seq<Step>, g: nat)
    requires 1 <= g <= Exec(New(), steps).core.generation
    ensures var s := Exec(New(), steps);
            && |s.signals| == s.core.generation
            && (s.signals[g - 1].lost in s.core.closed <==> g < s.core.generation)
            && (s.signals[g - 1].ready in s.core.closed <==> g < s.core.generation || s.core.ready)
  {
    ReadinessSafe(steps);
  }

  /** Releasing the last reservation wakes every parked reset, and each then returns at its next check. */
  lemma LastReleaseFreesResets(steps: seq<Step>, r: nat, w: nat)
    requires var s := Exec(New(), steps); r in s.held && |s.held| == 1 && w in s.parked
    ensures var s := Exec(New(), steps);
            var s1 := Next(s, Release(r));
            && s1.parked == map[] && w in s1.awake
            && s.parked[w] in Next(s1, Recheck(w)).done
  {
    ReadinessSafe(steps);
    var s := Exec(New(), steps);
    assert w !in s.awake || s.awake[w] < s.core.generation;
    assert (s.awake + s.parked)[w] == s.parked[w];
  }

  /** Releasing any other reservation wakes nobody. */
  lemma EarlierReleaseWakesNobody(steps: seq<Step>, r: nat)
    requires r in Exec(New(), steps).held && |Exec(New(), steps).held| > 1
    ensures var s := Exec(New(), steps);
            var s' := Next(s, Release(r));
            s'.parked == s.parked && s'.awake == s.awake && s'.held == s.held - {r} && s'.core.operations == s.core.operations - 1
  {
    ReadinessSafe(steps);
  }

  // ---- What each call brings about ------------------------------------------------------

  /**
   In every reachable state, also with resets of earlier generations still waiting,
   a signal makes the current generation ready and tells everybody who waits for it;
   work on it is then granted exactly when the context is not cancelled.
   */
  lemma SignalMakesReady(steps: seq<Step>)
    ensures var s := Exec(New(), steps);
            var s1, g := Next(s, Signal), s.core.generation;
            && s1.core.ready && 1 <= g == s1.core.generation <= |s1.signals| && s1.signals[g - 1].ready in s1.core.closed
            && s1.core.operations == s.core.operations && s1 == s.(core := s1.core)
            && (s.core.cancelled ==> Next(s1, Acquire(g)) == s1)
            && (!s.core.cancelled ==> Next(s1, Acquire(g)).held == s1.held[s1.nextReservation := g])
  {
    ReadinessSafe(steps);
    SignalledAt(Exec(New(), steps));
    GrantedAt(Next(Exec(New(), steps), Signal));
  }

  lemma SignalledAt(s: State)
    requires CoreOk(s.core) && SignalsOk(s)
    ensures var s1, g := Next(s, Signal), s.core.generation;
            && s1.core.ready && 1 <= g == s1.core.generation <= |s1.signals| && s1.signals[g - 1].ready in s1.core.closed
            && s1.core.operations == s.core.operations && s1.core.cancelled == s.core.cancelled && s1 == s.(core := s1.core)
  {
  }

  lemma GrantedAt(s: State)
    requires s.core.ready
    ensures var g := s.core.generation;
            if s.core.cancelled then Next(s, Acquire(g)) == s else Next(s, Acquire(g)).held == s.held[s.nextReservation := g]
  {
  }

  /** A reservation is granted exactly for the generation that is current and ready, in a context that is not cancelled. */
  lemma AcquireExactly(steps: seq<Step>, g: nat)
    ensures var s := Exec(New(), steps);
            var s' := Next(s, Acquire(g));
            if !s.core.cancelled && s.core.ready && s.core.generation == g
            then s'.held == s.held[s.nextReservation := g] && s.nextReservation !in s.held && |s'.held| == s'.core.operations == s.core.operations + 1
            else s' == s
  {
    ReadinessSafe(steps);
    CountedAcquire(Exec(New(), steps), g);
  }

  /**
   A reset of the ready, current generation ends it at once, tells everybody who
   depends on it, opens the next one, and returns at once exactly when nothing is
   reserved; a reset of any other generation is refused.
   */
  lemma ResetExactly(steps: seq<Step>, w: nat, g: nat)
    requires var s := Exec(New(), steps); w !in s.parked && w !in s.awake
    ensures var s := Exec(New(), steps);
            var s' := Next(s, Reset(w, g));
            if s.core.ready && s.core.generation == g
            then
              && g >= 1 && s'.core.generation == g + 1 == |s'.signals| && !s'.core.ready && s'.signals[..g] == s.signals
              && s'.signals[g - 1].lost in s'.core.closed && s'.signals[g].ready !in s'.core.closed && s'.signals[g].lost !in s'.core.closed
              && s'.held == s.held && (w in s'.parked <==> s.held != map[]) && (g in s'.done <==> s.held == map[])
            else s' == s
  {
    ReadinessSafe(steps);
    InvNext(Exec(New(), steps), Reset(w, g));
  }

  /** Every waiting reset can return: once the reservations are released and it is scheduled, it does. */
  lemma {:induction false} ResetCompletes(steps: seq<Step>, w: nat) returns (longer: seq<Step>)
    requires var s := Exec(New(), steps); w in s.parked || w in s.awake
    ensures var s, s' := Exec(New(), steps), Exec(New(), longer);
            (if w in s.parked then s.parked[w] else s.awake[w]) in s'.done && s'.core.generation == s.core.generation
    decreases |Exec(New(), steps).held|
  {
    var s := Exec(New(), steps);
    ReadinessSafe(steps);
    if s.held == map[] {
      longer := steps + [Recheck(w)];
      assert longer[..|steps|] == steps;
    } else {
      var r :| r in s.held;
      var next := steps + [Release(r)];
      assert next[..|steps|] == steps;
      ReleaseKeepsWaiting(s, r, w);
      longer := ResetCompletes(next, w);
    }
  }

  lemma ReleaseKeepsWaiting(s: State, r: nat, w: nat)
    requires Inv(s) && r in s.held && (w in s.parked || w in s.awake)
    ensures var s' := Next(s, Release(r));
            && |s'.held| < |s.held| && (w in s'.parked || w in s'.awake) && s'.core.generation == s.core.generation
            && (if w in s'.parked then s'.parked[w] else s'.awake[w]) == (if w in s.parked then s.parked[w] else s.awake[w])
  {
    CountedRelease(s, r);
  }

  lemma CancelledNext(s: State, step: Step)
    ensures s.core.cancelled ==> Next(s, step).core.cancelled
  {
  }

  lemma {:induction false} StaysCancelled(s: State, steps: seq<Step>)
    requires s.core.cancelled
    ensures Exec(s, steps).core.cancelled
    decreases |steps|
  {
    if steps == [] {
    } else {
      StaysCancelled(s, steps[..|steps| - 1]);
      CancelledNext(Exec(s, steps[..|steps| - 1]), steps[|steps| - 1]);
    }
  }

  /** Once the context is cancelled nothing is granted and no watch starts, whatever is signalled later. */
  lemma CancelledForGood(s: State, after: seq<Step>, g: nat)
    ensures var s' := Exec(Next(s, Cancel), after); Next(s', Acquire(g)) == s' && Next(s', StartWatching) == s'
  {
    StaysCancelled(Next(s, Cancel), after);
  }

  /** A watch that was started has a stop channel of its own, and stopping it closes exactly that channel. */
  lemma WatchOnce(steps: seq<Step>)
    requires !Exec(New(), steps).core.cancelled && !Exec(New(), steps).core.isWatched
    ensures var s := Exec(New(), steps);
            var s1 := Next(s, StartWatching);
            var s2 := Next(s1, StopWatching);
            && s1.core.isWatched && s1.core.watchingStopped !in s1.core.closed && s1.core.closed == s.core.closed
            && Next(s1, StartWatching) == s1
            && !s2.core.isWatched && s2.core.closed == s.core.closed + {s1.core.watchingStopped} && Next(s2, StopWatching) == s2
  {
    ReadinessSafe(steps);
  }

  // ---- The context's own code ---------------------------------------------------------

  class Context {
    var ready: bool
    var generation: nat
    var operations: int
    var endpointsReady: Chan
    var endpointsLost: Chan
    var nextChan: Chan
    var isWatched: bool
    var watchingStopped: Chan
    var closed: set<Chan>
    var cancelled: bool

    ghost function View(): Core
      reads this
    {
      Core(ready, generation, operations, endpointsReady, endpointsLost, nextChan, isWatched, watchingStopped, closed, false, cancelled)
    }

    constructor ()
      ensures View() == New().core && CoreOk(View())
    {
      ready, generation, operations, cancelled := false, 1, 0, false;
      endpointsReady, endpointsLost, nextChan := 0, 1, 2;
      isWatched, watchingStopped, closed := false, 0, {};
    }

    /** Closing a closed channel panics; the precondition says it never happens. */
    method Close(channel: Chan)
      requires channel !in closed
      modifies this`closed
      ensures closed == old(closed) + {channel}
    {
      closed := closed + {channel};
    }

    method MakeChan() returns (channel: Chan)
      modifies this`nextChan
      ensures channel == old(nextChan) && nextChan == old(nextChan) + 1
    {
      channel := nextChan;
      nextChan := nextChan + 1;
    }

    /** The critical section of a reset up to its wait; `parks` says whether it has to wait. */
    method BeginReset(g: nat) returns (accepted: bool, parks: bool)
      requires CoreOk(View())
      modifies this
      ensures accepted == old(ready && generation == g)
      ensures View() == if accepted then old(View()).Invalidate() else old(View())
      ensures parks == (accepted && operations > 0)
      ensures CoreOk(View())
    {
      CoreOkNext(View());
      if !ready || generation != g {
        return false, false;
      }
      Close(endpointsLost);
      generation := generation + 1;
      endpointsReady := MakeChan();
      endpointsLost := MakeChan();
      ready := false;
      return true, operations > 0;
    }

    method SignalReadiness()
      requires CoreOk(View())
      modifies this
      ensures View() == old(View()).Signal() && CoreOk(View())
      ensures ready && old(endpointsReady) in closed && generation == old(generation) && operations == old(operations)
    {
      CoreOkNext(View());
      if ready {
        return;
      }
      Close(endpointsReady);
      ready := true;
    }

    method AcquireReadinessGeneration(g: nat) returns (acquired: bool)
      requires CoreOk(View())
      modifies this`operations
      ensures acquired == old(!cancelled && ready && generation == g)
      ensures View() == if acquired then old(View()).Acquire() else old(View())
    {
      if cancelled || !ready || generation != g {
        return false;
      }
      operations := operations + 1;
      return true;
    }

    /** `broadcast` tells whether the parked resets are woken. */
    method ReleaseReadinessGeneration() returns (broadcast: bool)
      modifies this`operations
      ensures View() == old(View()).Release() && broadcast == (operations == 0)
    {
      operations := operations - 1;
      return operations == 0;
    }

    method StartWatching() returns (started: bool)
      requires CoreOk(View())
      modifies this
      ensures View() == old(View()).StartWatching() && CoreOk(View())
      ensures started == (!old(cancelled) && !old(isWatched))
    {
      CoreOkNext(View());
      if cancelled || isWatched {
        return false;
      }
      isWatched := true;
      watchingStopped := MakeChan();
      return true;
    }

    method StopWatching()
      requires CoreOk(View())
      modifies this
      ensures View() == old(View()).StopWatching() && CoreOk(View())
    {
      CoreOkNext(View());
      if !isWatched {
        return;
      }
      isWatched := false;
      Close(watchingStopped);
    }
  }
}
