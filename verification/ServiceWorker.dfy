/**
 The generations of a cluster's Service worker: each owns a stop and a done
 channel, and one stop call closes the stop channel after dropping the lock.
 */
module ServiceWorker {
  import opened Text

  /** Channels are numbered in order of creation. */
  type Chan = nat

  datatype Worker = Worker(stop: Chan, done: Chan, stopping: bool, preserve: set<string>)

  /**
   `signalling` holds the channels that a stop call has decided to close and
   closes outside the lock. `panicked` records a second close of any channel.
   `started` lists the done channels of all generations.
   */
  datatype State = State(
    stop: Chan, service: Option<Worker>, nextChan: Chan,
    closed: set<Chan>, signalling: set<Chan>, panicked: bool, started: seq<Chan>)
  {
    function Close(channel: Chan): State {
      this.(closed := closed + {channel}, panicked := panicked || channel in closed)
    }

    function RenewStop(): State {
      this.(stop := nextChan, nextChan := nextChan + 1)
    }
  }

  datatype Step =
    | Stop
    | PrepareStop(preserve: set<string>)
    | Signal(channel: Chan)
    | StartWorker
    | Finish(done: Chan)

  function Next(s: State, step: Step): State {
    match step
    case Stop =>
      if s.service.None? then s.RenewStop().Close(s.stop)
      else if s.service.value.stopping then s
      else s.(service := Some(s.service.value.(stopping := true))).RenewStop().Close(s.service.value.stop)
    case PrepareStop(preserve) =>
      if s.service.None? then s
      else
        var w := s.service.value;
        if w.stopping then s.(service := Some(w.(preserve := w.preserve + preserve)))
        else s.(service := Some(w.(stopping := true, preserve := preserve)),
                signalling := s.signalling + {w.stop}, panicked := s.panicked || w.stop in s.signalling).RenewStop()
    case Signal(channel) =>
      if channel in s.signalling then s.(signalling := s.signalling - {channel}).Close(channel) else s
    case StartWorker =>
      if s.service.Some? then s
      else s.(service := Some(Worker(s.stop, s.nextChan, false, {})), nextChan := s.nextChan + 1, started := s.started + [s.nextChan])
    case Finish(done) =>
      if s.service.Some? && s.service.value.done == done then s.(service := None).Close(done) else s
  }

  function Init(): State {
    State(0, None, 1, {}, {}, false, [])
  }

  /** The state after further steps. */
  function Exec(s: State, steps: seq<Step>): State
    decreases |steps|
  {
    if steps == [] then s else Next(Exec(s, steps[..|steps| - 1]), steps[|steps| - 1])
  }

  /** The address is kept by the generation's own cleanup pass. */
  predicate Preserved(s: State, done: Chan, address: string) {
    s.service.Some? && s.service.value.done == done && address in s.service.value.preserve
  }

  /** No channel is closed twice, neither now nor once the outstanding signals are performed. */
  ghost predicate ClosedOnce(s: State)
  {
    !s.panicked && s.closed !! s.signalling
  }

  /** The channel a next generation would start on is open and nobody is about to close it. */
  ghost predicate StopOpen(s: State)
  {
    s.stop < s.nextChan && s.stop !in s.closed && s.stop !in s.signalling
  }

  ghost predicate WorkerOk(s: State)
  {
    s.service.Some? ==>
      var w := s.service.value;
      && w.done < s.nextChan && w.stop < s.nextChan && w.done != w.stop && w.done != s.stop
      && w.done !in s.closed && w.done !in s.signalling
      && (!w.stopping ==> w.stop == s.stop && w.preserve == {})
      && (w.stopping ==> w.stop in s.closed || w.stop in s.signalling)
  }

  /** At most one generation is live: all started ones have finished, except the current one. */
  ghost predicate OneLive(s: State)
  {
    && (forall i :: 0 <= i < |s.started| && s.started[i] !in s.closed ==> s.service.Some? && s.service.value.done == s.started[i])
    && (s.service.Some? ==> s.started != [] && s.service.value.done == s.started[|s.started| - 1])
    && (forall i, j :: 0 <= i < j < |s.started| ==> s.started[i] < s.started[j])
    && (forall i :: 0 <= i < |s.started| ==> s.started[i] < s.nextChan && s.started[i] != s.stop && s.started[i] !in s.signalling)
  }

  ghost predicate Inv(s: State)
  {
    && (forall c :: c in s.closed || c in s.signalling ==> c < s.nextChan)
    && ClosedOnce(s) && StopOpen(s) && WorkerOk(s) && OneLive(s)
  }

  lemma InvNext(s: State, step: Step)
    requires Inv(s)
    ensures Inv(Next(s, step))
  {
  }

  /** Generations over every run: one live, each channel closed at most once, and an open stop channel to start on. */
  lemma {:induction false} GenerationsSafe(steps: seq<Step>)
    ensures Inv(Exec(Init(), steps))
    decreases |steps|
  {
    if steps == [] {
    } else {
      GenerationsSafe(steps[..|steps| - 1]);
      InvNext(Exec(Init(), steps[..|steps| - 1]), steps[|steps| - 1]);
    }
  }

  /** A started generation owns a fresh done channel and a stop channel that is still open. */
  lemma StartsOpen(steps: seq<Step>)
    ensures var s := Exec(Init(), steps);
            var s' := Next(s, StartWorker);
            s.service.None? ==>
              && s'.service.Some? && s'.service.value.stop !in s'.closed && s'.service.value.stop !in s'.signalling
              && s'.service.value.done !in s.started && s'.service.value.done !in s'.closed
  {
    GenerationsSafe(steps);
  }

  /** What may have become of the stopping generation `w` by state `s`. */
  ghost predicate StillStopping(s: State, w: Worker)
  {
    if s.service.Some? && s.service.value.done == w.done
    then s.service.value.stopping && s.service.value.stop == w.stop && w.preserve <= s.service.value.preserve
    else w.done in s.closed && w.done < s.nextChan
  }

  lemma StillStoppingNext(s: State, step: Step, w: Worker)
    requires Inv(s) && StillStopping(s, w)
    ensures StillStopping(Next(s, step), w)
  {
  }

  /** Until it finishes, a stopping generation keeps stopping and its preserved set only grows. */
  lemma {:induction false} PreserveGrows(s: State, steps: seq<Step>, w: Worker)
    requires Inv(s) && s.service == Some(w) && w.stopping
    ensures Inv(Exec(s, steps)) && StillStopping(Exec(s, steps), w)
    decreases |steps|
  {
    if steps == [] {
    } else {
      PreserveGrows(s, steps[..|steps| - 1], w);
      InvNext(Exec(s, steps[..|steps| - 1]), steps[|steps| - 1]);
      StillStoppingNext(Exec(s, steps[..|steps| - 1]), steps[|steps| - 1], w);
    }
  }

  /**
   What a preserving stop asks for is honoured by every later query of that
   generation's cleanup pass, whatever else happens in between.
   */
  lemma PreservedUntilFinished(s: State, preserve: set<string>, steps: seq<Step>, address: string)
    requires Inv(s) && s.service.Some? && address in preserve
    ensures var done := s.service.value.done;
            var s' := Exec(Next(s, PrepareStop(preserve)), steps);
            Preserved(s', done, address) || done in s'.closed
  {
    var s1 := Next(s, PrepareStop(preserve));
    InvNext(s, PrepareStop(preserve));
    PreserveGrows(s1, steps, s1.service.value);
  }

  /** A pass that began because its context ended, before any stop call, sees nothing preserved. */
  lemma NothingPreservedBeforeStop(steps: seq<Step>, address: string)
    ensures var s := Exec(Init(), steps);
            s.service.Some? && !s.service.value.stopping ==> !Preserved(s, s.service.value.done, address)
  {
    GenerationsSafe(steps);
  }

  /** A generation that has been replaced or has finished sees nothing preserved. */
  lemma NothingPreservedForOthers(steps: seq<Step>, done: Chan, address: string)
    requires var s := Exec(Init(), steps); s.service.None? || s.service.value.done != done
    ensures !Preserved(Exec(Init(), steps), done, address)
  {
  }

  // ---- What each call brings about --------------------------------------------

  /** A stop call asks the running generation to stop by closing its channel, or, with none running, closes the one it would have used. */
  lemma StopExactly(steps: seq<Step>)
    ensures var s := Exec(Init(), steps);
            var s' := Next(s, Stop);
            && (s.service.Some? && s.service.value.stopping ==> s' == s)
            && (s.service.Some? && !s.service.value.stopping ==>
                  && s'.service == Some(s.service.value.(stopping := true))
                  && s'.closed == s.closed + {s.service.value.stop} && s.service.value.stop !in s.closed)
            && (s.service.None? ==> s'.service.None? && s'.closed == s.closed + {s.stop} && s.stop !in s.closed)
            && s'.stop !in s'.closed && s'.signalling == s.signalling && s'.started == s.started
  {
    GenerationsSafe(steps);
    InvNext(Exec(Init(), steps), Stop);
  }

  /** A preserving stop marks the generation, adds its addresses, and leaves exactly one caller to close the stop channel. */
  lemma PrepareExactly(steps: seq<Step>, preserve: set<string>)
    ensures var s := Exec(Init(), steps);
            var s' := Next(s, PrepareStop(preserve));
            && (s.service.None? ==> s' == s)
            && (s.service.Some? ==>
                  var w := s.service.value;
                  && s'.service == Some(w.(stopping := true, preserve := if w.stopping then w.preserve + preserve else preserve))
                  && s'.signalling == (if w.stopping then s.signalling else s.signalling + {w.stop})
                  && (w.stopping || w.stop !in s.signalling))
            && s'.closed == s.closed && s'.started == s.started
  {
    GenerationsSafe(steps);
  }

  /** A generation that finishes closes exactly its own done channel and makes room for the next; a stale one does nothing. */
  lemma FinishExactly(steps: seq<Step>, done: Chan)
    ensures var s := Exec(Init(), steps);
            var s' := Next(s, Finish(done));
            if s.service.Some? && s.service.value.done == done
            then s'.service.None? && done !in s.closed && s'.closed == s.closed + {done} && s'.stop == s.stop && s'.signalling == s.signalling
            else s' == s
  {
    GenerationsSafe(steps);
  }

  /** The close that the prepared stop left to its caller. */
  lemma SignalExactly(steps: seq<Step>, channel: Chan)
    requires channel in Exec(Init(), steps).signalling
    ensures var s := Exec(Init(), steps);
            var s' := Next(s, Signal(channel));
            channel !in s.closed && s'.closed == s.closed + {channel} && s'.signalling == s.signalling - {channel} && s'.service == s.service
  {
    GenerationsSafe(steps);
  }

  /** The handover of one generation to the next. */
  function Handover(s: State, w: Worker, preserve: set<string>): State {
    Next(Next(Next(Next(s, PrepareStop(preserve)), Signal(w.stop)), Finish(w.done)), StartWorker)
  }

  /** Every running generation can be stopped, finished and replaced, and its two channels tell everybody who waits. */
  lemma GenerationHandedOver(steps: seq<Step>, preserve: set<string>)
    requires Exec(Init(), steps).service.Some? && !Exec(Init(), steps).service.value.stopping
    ensures var s := Exec(Init(), steps);
            var w := s.service.value;
            var s' := Handover(s, w, preserve);
            && w.stop in s'.closed && w.done in s'.closed && |s'.started| == |s.started| + 1
            && s'.service.Some? && !s'.service.value.stopping && s'.service.value.preserve == {} && s'.service.value.done == s'.started[|s.started|]
            && s'.service.value.stop !in s'.closed && s'.service.value.done !in s'.closed
  {
    GenerationsSafe(steps);
    HandedOverAt(Exec(Init(), steps), preserve);
  }

  lemma HandedOverAt(s: State, preserve: set<string>)
    requires Inv(s) && s.service.Some? && !s.service.value.stopping
    ensures var w := s.service.value;
            var s' := Handover(s, w, preserve);
            && w.stop in s'.closed && w.done in s'.closed && |s'.started| == |s.started| + 1
            && s'.service.Some? && !s'.service.value.stopping && s'.service.value.preserve == {} && s'.service.value.done == s'.started[|s.started|]
            && s'.service.value.stop !in s'.closed && s'.service.value.done !in s'.closed
  {
    var w := s.service.value;
    var s1 := Next(s, PrepareStop(preserve));
    var s2 := Next(s1, Signal(w.stop));
    var s3 := Next(s2, Finish(w.done));
    InvNext(s, PrepareStop(preserve));
    InvNext(s1, Signal(w.stop));
    InvNext(s2, Finish(w.done));
    InvNext(s3, StartWorker);
    assert s3.service.None? && s3.started == s.started;
  }

  // ---- The cluster's own code -------------------------------------------------

  class Cluster {
    var stop: Chan
    var service: Option<Worker>
    var nextChan: Chan
    var closed: set<Chan>
    ghost var signalling: set<Chan>
    ghost var started: seq<Chan>

    ghost function View(): State
      reads this
    {
      State(stop, service, nextChan, closed, signalling, false, started)
    }

    constructor ()
      ensures View() == Init()
    {
      stop, service, nextChan, closed, signalling, started := 0, None, 1, {}, {}, [];
    }

    /** Closing a closed channel panics; the precondition says it never happens. */
    method Close(channel: Chan)
      requires channel !in closed
      modifies this`closed
      ensures closed == old(closed) + {channel}
    {
      closed := closed + {channel};
    }

    method MakeChan() returns (channel: Chan)
      modifies this`nextChan
      ensures channel == old(nextChan) && nextChan == old(nextChan) + 1
    {
      channel := nextChan;
      nextChan := nextChan + 1;
    }

    method StopWorkers()
      requires Inv(View())
      modifies this
      ensures View() == Next(old(View()), Stop) && Inv(View())
    {
      InvNext(View(), Stop);
      if service.Some? {
        var workers := service.value;
        if workers.stopping {
          return;
        }
        service := Some(workers.(stopping := true));
        stop := MakeChan();
        Close(workers.stop);
        return;
      }
      var current := stop;
      stop := MakeChan();
      Close(current);
    }

    /** The locked half of a waiting stop; the caller closes the channel when told to signal. */
    method PrepareServiceStop(preserve: set<string>) returns (workers: Option<Worker>, signal: bool)
      requires Inv(View())
      modifies this
      ensures View() == Next(old(View()), PrepareStop(preserve)) && Inv(View())
      ensures workers == service
      ensures signal <==> old(service).Some? && !old(service).value.stopping
      ensures signal ==> workers.Some? && workers.value.stop in signalling && workers.value.stop !in closed
    {
      InvNext(View(), PrepareStop(preserve));
      if service.None? {
        return None, false;
      }
      var w := service.value;
      if w.stopping {
        service := Some(w.(preserve := w.preserve + preserve));
        return service, false;
      }
      service := Some(w.(stopping := true, preserve := preserve));
      stop := MakeChan();
      signalling := signalling + {w.stop};
      return service, true;
    }

    /** The close performed outside the lock. */
    method SignalStop(channel: Chan)
      requires Inv(View()) && channel in signalling
      modifies this
      ensures View() == Next(old(View()), Signal(channel)) && Inv(View())
    {
      InvNext(View(), Signal(channel));
      Close(channel);
      signalling := signalling - {channel};
    }

    method StartServicesWorker() returns (workers: Option<(Chan, Chan)>)
      requires Inv(View())
      modifies this
      ensures View() == Next(old(View()), StartWorker) && Inv(View())
      ensures workers.None? <==> old(service).Some?
      ensures workers.Some? ==> service == Some(Worker(workers.value.0, workers.value.1, false, {})) && workers.value.0 !in closed
    {
      InvNext(View(), StartWorker);
      if service.Some? {
        return None;
      }
      var done := MakeChan();
      service := Some(Worker(stop, done, false, {}));
      started := started + [done];
      return Some((stop, done));
    }

    method PreserveServiceVIP(done: Chan, address: string) returns (preserve: bool)
      ensures preserve == Preserved(View(), done, address)
      ensures preserve && Inv(View()) ==> service.Some? && service.value.stopping
    {
      if service.None? || service.value.done != done {
        return false;
      }
      return address in service.value.preserve;
    }

    method FinishServicesWorker(done: Chan)
      requires Inv(View())
      modifies this
      ensures View() == Next(old(View()), Finish(done)) && Inv(View())
    {
      InvNext(View(), Finish(done));
      if service.None? || service.value.done != done {
        return;
      }
      service := None;
      Close(done);
    }
  }
}
