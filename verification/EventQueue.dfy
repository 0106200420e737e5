/**
 The Service event queue: per-key task lists fed by the watcher and drained by
 any number of workers through a client-go work queue.
 */
module EventQueue {
  import opened Coalescing

  type Key = string
  type Uid = string

  /** A queued event: the UID of its Service and the identity of its closure. */
  type Task = Item<Uid, nat>

  /**
   What the queue's two locks protect. `ready`, `dirty` and `processing` are the
   work queue's; `tasks` is guarded by the event queue's own mutex.
   */
  datatype Core = Core(
    ready: seq<Key>,
    dirty: set<Key>,
    processing: set<Key>,
    shuttingDown: bool,
    tasks: map<Key, seq<Task>>,
    cancelled: bool)
  {
    function Pending(key: Key): seq<Task> {
      if key in tasks then tasks[key] else []
    }

    /** The queued task list after a new task: the newest entry of the same UID is replaced. */
    static function Push(pending: seq<Task>, task: Task): seq<Task> {
      if pending != [] && pending[|pending| - 1].tag == task.tag
      then pending[..|pending| - 1] + [task]
      else pending + [task]
    }

    predicate Accepts() { !cancelled && !shuttingDown }

    function AddTask(key: Key, task: Task): Core {
      this.(tasks := tasks[key := Push(Pending(key), task)])
    }

    /** The work queue's own Add. */
    function AddKey(key: Key): Core {
      if shuttingDown || key in dirty then this
      else this.(dirty := dirty + {key},
                 ready := if key in processing then ready else ready + [key])
    }

    /** The work queue's own Get, when a key is ready. */
    function Take(): Core
      requires ready != []
    {
      this.(ready := ready[1..], processing := processing + {ready[0]}, dirty := dirty - {ready[0]})
    }

    function PopTask(key: Key): Core {
      if |Pending(key)| <= 1 then this.(tasks := tasks - {key})
      else this.(tasks := tasks[key := Pending(key)[1..]])
    }

    /** The work queue's own Done: a key that was added meanwhile is queued again. */
    function Finish(key: Key): Core {
      this.(processing := processing - {key},
            ready := if key in dirty then ready + [key] else ready)
    }
  }

  /** Where one worker goroutine stands in `run` and `runNext`. */
  datatype Worker =
    | Idle
    | Looking(key: Key)
    | Running(key: Key, task: Task)
    | Emptied(key: Key)
    | Exited
  {
    predicate Holds(k: Key) { (Looking? || Running? || Emptied?) && key == k }
    predicate WillLook(k: Key) { (Looking? || Running?) && key == k }
  }

  /**
   A state of the whole pipeline. `adding` is the key of an Add that has written
   the task list and has not reached the work queue yet; it still holds the mutex.
   `lost` collects keys whose Add reached the work queue after ShutDown, when the key
   was not dirty and no worker would look at its list again.
   The histories are per key: what was added, handed to a worker, and run.
   */
  datatype State = State(
    core: Core,
    workers: seq<Worker>,
    adding: set<Key>,
    lost: set<Key>,
    added: map<Key, seq<Task>>,
    taken: map<Key, seq<Task>>,
    ran: map<Key, seq<Task>>)

  function At(history: map<Key, seq<Task>>, key: Key): seq<Task> {
    if key in history then history[key] else []
  }

  datatype Step =
    | AddTask(key: Key, uid: Uid)
    | AddKey(key: Key)
    | Get(w: nat)
    | NextTask(w: nat)
    | RunTask(w: nat)
    | Done(w: nat)
    | Cancel
    | ShutDown
    | Clear

  /** Every Add brings a closure of its own; a key's closures are numbered in the order of their Adds. */
  function NewTask(s: State, key: Key, uid: Uid): Task { Item(uid, |At(s.added, key)|) }

  /** Some worker will look at the key's list again before it reports the key done. */
  predicate Attended(s: State, key: Key) {
    exists w :: 0 <= w < |s.workers| && s.workers[w].WillLook(key)
  }

  predicate AllExited(s: State) {
    forall w :: 0 <= w < |s.workers| ==> s.workers[w].Exited?
  }

  /** One atomic step; a step that is not enabled leaves the state alone. */
  function Next(s: State, step: Step): State {
    match step
    case AddTask(key, uid) =>
      if s.adding != {} || !s.core.Accepts() then s
      else
        var task := NewTask(s, key, uid);
        s.(core := s.core.AddTask(key, task), adding := {key}, added := s.added[key := At(s.added, key) + [task]])
    case AddKey(key) =>
      if key !in s.adding then s
      else s.(core := s.core.AddKey(key), adding := s.adding - {key},
              lost := if s.core.shuttingDown && key !in s.core.dirty && !Attended(s, key) then s.lost + {key} else s.lost)
    case Get(w) =>
      if w >= |s.workers| || !s.workers[w].Idle? then s
      else if s.core.ready != [] then
        s.(core := s.core.Take(), workers := s.workers[w := Looking(s.core.ready[0])])
      else if s.core.shuttingDown then s.(workers := s.workers[w := Exited])
      else s
    case NextTask(w) =>
      if w >= |s.workers| || !s.workers[w].Looking? || s.adding != {} then s
      else
        var key := s.workers[w].key;
        var pending := s.core.Pending(key);
        if pending == [] then
          s.(core := s.core.PopTask(key), workers := s.workers[w := Emptied(key)])
        else
          s.(core := s.core.PopTask(key), workers := s.workers[w := Running(key, pending[0])],
             taken := s.taken[key := At(s.taken, key) + [pending[0]]])
    case RunTask(w) =>
      if w >= |s.workers| || !s.workers[w].Running? then s
      else
        var Running(key, task) := s.workers[w];
        s.(workers := s.workers[w := Looking(key)],
           ran := if s.core.cancelled then s.ran else s.ran[key := At(s.ran, key) + [task]])
    case Done(w) =>
      if w >= |s.workers| || !s.workers[w].Emptied? then s
      else s.(core := s.core.Finish(s.workers[w].key), workers := s.workers[w := Idle])
    case Cancel => s.(core := s.core.(cancelled := true))
    case ShutDown => s.(core := s.core.(shuttingDown := true))
    case Clear =>
      if s.core.shuttingDown && AllExited(s) && s.adding == {} then s.(core := s.core.(tasks := map[])) else s
  }

  function Start(workers: nat): State {
    State(Core([], {}, {}, false, map[], false), seq(workers, _ => Idle), {}, {}, map[], map[], map[])
  }

  /** The state after any sequence of steps of any number of workers. */
  function Run(workers: nat, steps: seq<Step>): State
    decreases |steps|
  {
    if steps == [] then Start(workers)
    else Next(Run(workers, steps[..|steps| - 1]), steps[|steps| - 1])
  }

  // ---- Invariants --------------------------------------------------------

  /** The work queue agrees with the workers: ready keys are distinct, dirty and not in process. */
  ghost predicate QueueOk(s: State)
  {
    && (forall i, j :: 0 <= i < j < |s.core.ready| ==> s.core.ready[i] != s.core.ready[j])
    && (forall k :: k in s.core.ready <==> k in s.core.dirty && k !in s.core.processing)
    && (forall k :: k in s.core.processing <==> exists w :: 0 <= w < |s.workers| && s.workers[w].Holds(k))
  }

  /** No two workers hold the same key. */
  ghost predicate Exclusive(s: State)
  {
    forall v, w, k :: 0 <= v < |s.workers| && 0 <= w < |s.workers| && s.workers[v].Holds(k) && s.workers[w].Holds(k) ==> v == w
  }

  ghost predicate Awake(s: State, key: Key)
  {
    || key in s.core.dirty
    || key in s.adding
    || key in s.lost
    || Attended(s, key)
  }

  /** No lost wakeup: a key with pending tasks is dirty, being added, or still to be looked at by its worker. */
  ghost predicate NoLostWakeup(s: State)
  {
    forall k :: s.core.Pending(k) != [] ==> Awake(s, k)
  }

  /** Taken then pending tasks are the added ones, coalesced. */
  ghost predicate Merged(s: State, key: Key)
  {
    && DistinctNeighbours(s.core.Pending(key))
    && Coalesced(At(s.added, key), At(s.taken, key) + s.core.Pending(key))
  }

  /** Without cancellation the tasks run so far are the taken ones, minus one a worker is running. */
  ghost predicate RanTaken(s: State, key: Key)
  {
    || (At(s.taken, key) == At(s.ran, key) && forall w :: 0 <= w < |s.workers| ==> !InFlight(s, w, key))
    || (exists w :: 0 <= w < |s.workers| && InFlight(s, w, key) && At(s.taken, key) == At(s.ran, key) + [s.workers[w].task])
  }

  ghost predicate InFlight(s: State, w: nat, key: Key)
    requires w < |s.workers|
  {
    s.workers[w].Running? && s.workers[w].key == key
  }

  /** Once every worker has left, the work queue is empty for good. */
  ghost predicate Drained(s: State)
  {
    && ((exists w :: 0 <= w < |s.workers| && s.workers[w].Exited?) ==> s.core.shuttingDown)
    && (s.workers != [] && AllExited(s) ==> s.core.ready == [])
    && (s.lost != {} ==> s.core.shuttingDown)
  }

  ghost predicate Inv(s: State)
  {
    && QueueOk(s) && Exclusive(s) && NoLostWakeup(s) && Drained(s)
  }

  // ---- Preservation ------------------------------------------------------

  lemma InvStart(workers: nat)
    ensures Inv(Start(workers))
  {
  }

  lemma QueueOkNext(s: State, step: Step)
    requires QueueOk(s) && Exclusive(s)
    ensures QueueOk(Next(s, step)) && Exclusive(Next(s, step))
  {
    match step {
      case Get(w) => GetOk(s, w);
      case Done(w) => DoneOk(s, w);
      case NextTask(w) => TaskOk(s, w);
      case RunTask(w) => TaskOk(s, w);
      case AddKey(key) => AddKeyOk(s, key);
      case _ => SameKeys(s, Next(s, step), |s.workers|);
    }
  }

  lemma GetOk(s: State, w: nat)
    requires QueueOk(s) && Exclusive(s)
    ensures QueueOk(Next(s, Get(w))) && Exclusive(Next(s, Get(w)))
  {
    if w < |s.workers| && s.workers[w].Idle? && s.core.ready != [] {
      TakeOk(s, w);
    } else {
      SameKeys(s, Next(s, Get(w)), w);
    }
  }

  lemma DoneOk(s: State, w: nat)
    requires QueueOk(s) && Exclusive(s)
    ensures QueueOk(Next(s, Done(w))) && Exclusive(Next(s, Done(w)))
  {
    if w < |s.workers| && s.workers[w].Emptied? {
      FinishOk(s, w);
    }
  }

  lemma TaskOk(s: State, w: nat)
    requires QueueOk(s) && Exclusive(s)
    ensures QueueOk(Next(s, NextTask(w))) && Exclusive(Next(s, NextTask(w)))
    ensures QueueOk(Next(s, RunTask(w))) && Exclusive(Next(s, RunTask(w)))
  {
    SameKeys(s, Next(s, NextTask(w)), w);
    SameKeys(s, Next(s, RunTask(w)), w);
  }

  lemma AddKeyOk(s: State, key: Key)
    requires QueueOk(s) && Exclusive(s)
    ensures QueueOk(Next(s, AddKey(key))) && Exclusive(Next(s, AddKey(key)))
  {
    assert Next(s, AddKey(key)).workers == s.workers;
  }

  /** A worker that moves on with the same key leaves the work queue's view unchanged. */
  lemma SameKeys(s: State, s': State, w: nat)
    requires QueueOk(s) && Exclusive(s)
    requires |s'.workers| == |s.workers|
    requires s'.core.ready == s.core.ready && s'.core.dirty == s.core.dirty && s'.core.processing == s.core.processing
    requires w < |s.workers| ==> forall k :: s'.workers[w].Holds(k) <==> s.workers[w].Holds(k)
    requires forall v :: 0 <= v < |s.workers| && v != w ==> s'.workers[v] == s.workers[v]
    ensures QueueOk(s') && Exclusive(s')
  {
    forall v, k | 0 <= v < |s.workers|
      ensures s'.workers[v].Holds(k) <==> s.workers[v].Holds(k)
    {
    }
    forall k
      ensures k in s'.core.processing <==> exists v :: 0 <= v < |s'.workers| && s'.workers[v].Holds(k)
    {
      if k in s'.core.processing {
        var v :| 0 <= v < |s.workers| && s.workers[v].Holds(k);
        assert s'.workers[v].Holds(k);
      }
    }
  }

  lemma TakeOk(s: State, w: nat)
    requires QueueOk(s) && Exclusive(s)
    requires w < |s.workers| && s.workers[w].Idle? && s.core.ready != []
    ensures QueueOk(Next(s, Get(w))) && Exclusive(Next(s, Get(w)))
  {
    var s' := Next(s, Get(w));
    var key := s.core.ready[0];
    assert key in s.core.ready;
    forall k ensures k in s'.core.ready <==> k in s'.core.dirty && k !in s'.core.processing
    {
      if k in s'.core.ready {
        assert k in s.core.ready;
      }
    }
    forall v | 0 <= v < |s.workers| && v != w
      ensures s'.workers[v] == s.workers[v] && !s'.workers[v].Holds(key)
    {
      assert s.workers[v].Holds(key) ==> key in s.core.processing;
    }
    forall k
      ensures k in s'.core.processing <==> exists v :: 0 <= v < |s'.workers| && s'.workers[v].Holds(k)
    {
      if k == key {
        assert s'.workers[w].Holds(k);
      } else if k in s.core.processing {
        var v :| 0 <= v < |s.workers| && s.workers[v].Holds(k);
        assert s'.workers[v].Holds(k);
      }
    }
  }

  lemma FinishOk(s: State, w: nat)
    requires QueueOk(s) && Exclusive(s)
    requires w < |s.workers| && s.workers[w].Emptied?
    ensures QueueOk(Next(s, Done(w))) && Exclusive(Next(s, Done(w)))
  {
    var s' := Next(s, Done(w));
    var key := s.workers[w].key;
    assert s.workers[w].Holds(key);
    assert key in s.core.processing && key !in s.core.ready;
    forall v | 0 <= v < |s.workers| && v != w
      ensures s'.workers[v] == s.workers[v] && !s'.workers[v].Holds(key)
    {
    }
    forall k
      ensures k in s'.core.processing <==> exists v :: 0 <= v < |s'.workers| && s'.workers[v].Holds(k)
    {
      if k in s'.core.processing {
        var v :| 0 <= v < |s.workers| && s.workers[v].Holds(k);
        assert s'.workers[v].Holds(k);
      }
    }
  }

  lemma WakeupNext(s: State, step: Step)
    requires NoLostWakeup(s)
    ensures NoLostWakeup(Next(s, step))
  {
    forall k | Next(s, step).core.Pending(k) != []
      ensures Awake(Next(s, step), k)
    {
      assert s.core.Pending(k) != [] ==> Awake(s, k);
      AwakeNext(s, step, k);
    }
  }

  lemma AwakeNext(s: State, step: Step, k: Key)
    requires s.core.Pending(k) != [] ==> Awake(s, k)
    requires Next(s, step).core.Pending(k) != []
    ensures Awake(Next(s, step), k)
  {
    var s' := Next(s, step);
    if s.core.Pending(k) == [] {
      PendingMeansAdding(s, step, k);
    } else if k !in s.core.dirty && k !in s.adding && k !in s.lost {
      var v :| 0 <= v < |s.workers| && s.workers[v].WillLook(k);
      StillLooking(s, step, k, v);
    } else {
      if step.Get? {
        AwakeGet(s, step.w, k);
      } else {
        AwakeKept(s, step, k);
      }
    }
  }

  lemma PendingMeansAdding(s: State, step: Step, k: Key)
    requires s.core.Pending(k) == [] && Next(s, step).core.Pending(k) != []
    ensures k in Next(s, step).adding
  {
  }

  lemma AwakeKept(s: State, step: Step, k: Key)
    requires !step.Get? && (k in s.core.dirty || k in s.adding || k in s.lost)
    ensures Awake(Next(s, step), k)
  {
    var s' := Next(s, step);
    if step == AddKey(k) {
      assert s'.workers == s.workers && Attended(s', k) == Attended(s, k);
    } else {
      assert k in s'.core.dirty || k in s'.adding || k in s'.lost;
    }
  }

  lemma AwakeGet(s: State, w: nat, k: Key)
    requires k in s.core.dirty || k in s.adding || k in s.lost
    ensures Awake(Next(s, Get(w)), k)
  {
    var s' := Next(s, Get(w));
    if k in s.core.dirty && k !in s'.core.dirty {
      assert s'.workers[w].WillLook(k);
    }
  }

  lemma StillLooking(s: State, step: Step, k: Key, v: nat)
    requires v < |s.workers| && s.workers[v].WillLook(k) && s.core.Pending(k) != []
    ensures |Next(s, step).workers| == |s.workers| && Next(s, step).workers[v].WillLook(k)
  {
  }

  lemma DrainedNext(s: State, step: Step)
    requires QueueOk(s) && Drained(s)
    ensures Drained(Next(s, step))
  {
    ExitedNext(s, step);
    EmptyNext(s, step);
  }

  lemma ExitedNext(s: State, step: Step)
    requires Drained(s)
    ensures var s' := Next(s, step);
            && (forall w :: 0 <= w < |s'.workers| && s'.workers[w].Exited? ==> s'.core.shuttingDown)
            && (s'.lost != {} ==> s'.core.shuttingDown)
  {
    assert forall w :: 0 <= w < |s.workers| && s.workers[w].Exited? ==> s.core.shuttingDown;
  }

  lemma EmptyNext(s: State, step: Step)
    requires Drained(s)
    ensures var s' := Next(s, step); s'.workers != [] && AllExited(s') ==> s'.core.ready == []
  {
    var s' := Next(s, step);
    if s'.workers != [] && AllExited(s') {
      assert s'.workers[0].Exited?;
      if AllExited(s) {
        NothingAddedLate(s, step);
      } else {
        OneLeft(s, step);
      }
    }
  }

  /** With every worker gone the queue is shutting down and takes no key. */
  lemma NothingAddedLate(s: State, step: Step)
    requires Drained(s) && AllExited(s) && s.workers != []
    ensures Next(s, step).core.ready == []
  {
    assert s.workers[0].Exited?;
  }

  /** The last worker to leave finds nothing ready. */
  lemma OneLeft(s: State, step: Step)
    requires !AllExited(s) && AllExited(Next(s, step))
    ensures Next(s, step).core.ready == []
  {
    var s' := Next(s, step);
    assert s'.workers != s.workers;
    var w :| 0 <= w < |s.workers| && !s.workers[w].Exited?;
    assert s'.workers[w].Exited?;
  }

  lemma InvNext(s: State, step: Step)
    requires Inv(s)
    ensures Inv(Next(s, step))
    ensures |Next(s, step).workers| == |s.workers|
  {
    QueueOkNext(s, step);
    WakeupNext(s, step);
    DrainedNext(s, step);
  }

  /** Every reachable state keeps the work queue consistent, keys exclusive and wakeups alive. */
  lemma {:induction false} InvRun(workers: nat, steps: seq<Step>)
    ensures Inv(Run(workers, steps))
    ensures |Run(workers, steps).workers| == workers
    decreases |steps|
  {
    if steps == [] {
      InvStart(workers);
    } else {
      InvRun(workers, steps[..|steps| - 1]);
      InvNext(Run(workers, steps[..|steps| - 1]), steps[|steps| - 1]);
    }
  }

  // ---- Coalescing over whole runs ----------------------------------------

  lemma MergedPush(s: State, key: Key, uid: Uid)
    requires Merged(s, key) && s.adding == {} && s.core.Accepts()
    ensures Merged(Next(s, AddTask(key, uid)), key)
  {
    var s', task := Next(s, AddTask(key, uid)), NewTask(s, key, uid);
    var pending, taken := s.core.Pending(key), At(s.taken, key);
    assert s'.core.Pending(key) == Core.Push(pending, task);
    if pending != [] && pending[|pending| - 1].tag == task.tag {
      CoalescedReplace(At(s.added, key), taken + pending, task);
      assert (taken + pending)[..|taken + pending| - 1] + [task] == taken + Core.Push(pending, task);
    } else {
      CoalescedAppend(At(s.added, key), taken + pending, task);
      assert taken + pending + [task] == taken + Core.Push(pending, task);
    }
  }

  lemma MergedPop(s: State, w: nat)
    requires w < |s.workers| && s.workers[w].Looking? && s.adding == {}
    requires Merged(s, s.workers[w].key)
    ensures Merged(Next(s, NextTask(w)), s.workers[w].key)
  {
    var key := s.workers[w].key;
    var s', pending, taken := Next(s, NextTask(w)), s.core.Pending(key), At(s.taken, key);
    if pending != [] {
      assert s'.core.Pending(key) == pending[1..];
      assert taken + pending == (taken + [pending[0]]) + pending[1..];
    }
  }

  ghost predicate Touches(s: State, step: Step, key: Key)
  {
    || (step.AddTask? && step.key == key)
    || (step.NextTask? && step.w < |s.workers| && s.workers[step.w].Looking? && s.workers[step.w].key == key)
  }

  /** Only Add and nextTask of the same key, and Wait's final clear, touch a key's lists. */
  lemma ListsKept(s: State, step: Step, key: Key)
    requires !Touches(s, step, key)
    requires step.Clear? ==> s.core.Pending(key) == []
    ensures var s' := Next(s, step);
            s'.core.Pending(key) == s.core.Pending(key) && At(s'.taken, key) == At(s.taken, key) && At(s'.added, key) == At(s.added, key)
  {
    if step.NextTask? {
      OthersPopped(s, step.w, key);
    }
  }

  lemma OthersPopped(s: State, w: nat, key: Key)
    requires !Touches(s, NextTask(w), key)
    ensures var s' := Next(s, NextTask(w));
            s'.core.Pending(key) == s.core.Pending(key) && At(s'.taken, key) == At(s.taken, key) && s'.added == s.added
  {
  }

  lemma MergedNext(s: State, step: Step, key: Key)
    requires Merged(s, key)
    requires step.Clear? ==> s.core.Pending(key) == []
    ensures Merged(Next(s, step), key)
  {
    if !Touches(s, step, key) {
      ListsKept(s, step, key);
    } else {
      match step
      case AddTask(k, uid) =>
        if s.adding == {} && s.core.Accepts() {
          MergedPush(s, key, uid);
        }
      case NextTask(w) =>
        if s.adding == {} {
          MergedPop(s, w);
        }
    }
  }

  /** Once all workers have left, only an Add overtaken by ShutDown can have left tasks behind. */
  lemma LeftBehind(s: State, key: Key)
    requires Inv(s) && s.workers != [] && AllExited(s) && s.adding == {} && s.core.Pending(key) != []
    ensures key in s.lost
  {
    assert Awake(s, key);
    assert key !in s.core.ready;
    assert key !in s.core.processing;
  }

  // ---- What ShutDown can overtake ----------------------------------------

  ghost predicate Numbered(s: State, key: Key)
  {
    forall i :: 0 <= i < |At(s.added, key)| ==> At(s.added, key)[i].body == i
  }

  /** Nobody will ever look at the key again, and its newest task was not taken. */
  ghost predicate Abandoned(s: State, key: Key)
  {
    && s.core.shuttingDown && key !in s.core.dirty && key !in s.adding && !Attended(s, key)
    && At(s.added, key) != []
    && forall i :: 0 <= i < |At(s.taken, key)| ==> At(s.taken, key)[i].body < |At(s.added, key)| - 1
  }

  lemma OthersAttended(s: State, step: Step, key: Key)
    requires QueueOk(s) && key !in s.core.dirty && !Attended(s, key)
    ensures !Attended(Next(s, step), key)
  {
    var s' := Next(s, step);
    if step.Get? && s.core.ready != [] {
      assert s.core.ready[0] in s.core.ready;
    }
    forall w | 0 <= w < |s'.workers| ensures !s'.workers[w].WillLook(key) {
      assert !s.workers[w].WillLook(key);
    }
  }

  /** With the queue shut down, the lists of a key nobody looks at stay as they are, until Wait clears them. */
  lemma AbandonedLists(s: State, step: Step, key: Key)
    requires s.core.shuttingDown && !Attended(s, key)
    ensures var s' := Next(s, step);
            && At(s'.taken, key) == At(s.taken, key) && At(s'.added, key) == At(s.added, key)
            && (s'.core.Pending(key) == s.core.Pending(key) || s'.core.Pending(key) == [])
  {
    if step.NextTask? {
      assert step.w < |s.workers| ==> !s.workers[step.w].WillLook(key);
      OthersPopped(s, step.w, key);
    }
  }

  lemma AbandonedNext(s: State, step: Step, key: Key)
    requires QueueOk(s) && Abandoned(s, key)
    ensures Abandoned(Next(s, step), key)
  {
    OthersAttended(s, step, key);
    AbandonedLists(s, step, key);
  }

  /** The last element of a coalesced output has a larger number than all others. */
  lemma NumbersIncrease(added: seq<Task>, output: seq<Task>)
    requires Coalesced(added, output) && forall i :: 0 <= i < |added| ==> added[i].body == i
    ensures forall i :: 0 <= i < |output| - 1 ==> output[i].body < |added| - 1
  {
    var keep: seq<nat> :| KeptBy(added, output, keep);
    forall i | 0 <= i < |output| - 1 ensures output[i].body < |added| - 1 {
      assert keep[i] < keep[|output| - 1] < |added|;
    }
  }

  lemma LostIsAbandoned(s: State, key: Key)
    requires Merged(s, key) && Numbered(s, key) && key in s.adding && s.core.Pending(key) != []
    requires s.core.shuttingDown && key !in s.core.dirty && !Attended(s, key)
    ensures Abandoned(Next(s, AddKey(key)), key)
  {
    var taken, pending := At(s.taken, key), s.core.Pending(key);
    NumbersIncrease(At(s.added, key), taken + pending);
    NewestKept(At(s.added, key), taken + pending);
    assert forall i :: 0 <= i < |taken| ==> (taken + pending)[i] == taken[i];
    assert Next(s, AddKey(key)).workers == s.workers;
  }

  /** Everything a run keeps about one key's lists. */
  ghost predicate Story(s: State, key: Key)
  {
    && Numbered(s, key)
    && (key in s.adding ==> s.core.Pending(key) != [] && Merged(s, key) && key !in s.lost)
    && (key in s.lost ==> Abandoned(s, key))
    && (Merged(s, key) || (key in s.lost && s.core.Pending(key) == []))
  }

  lemma NumberedNext(s: State, step: Step, key: Key)
    requires Numbered(s, key)
    ensures Numbered(Next(s, step), key)
  {
    var s' := Next(s, step);
    assert At(s'.added, key) == At(s.added, key)
           || (step.AddTask? && At(s'.added, key) == At(s.added, key) + [Item(step.uid, |At(s.added, key)|)]);
  }

  lemma AddingNext(s: State, step: Step, key: Key)
    requires key in s.adding ==> s.core.Pending(key) != []
    ensures var s' := Next(s, step); key in s'.adding ==> s'.core.Pending(key) != []
  {
  }

  lemma LostNext(s: State, step: Step, key: Key)
    requires QueueOk(s) && Story(s, key) && key in Next(s, step).lost
    ensures Abandoned(Next(s, step), key)
  {
    if key in s.lost {
      AbandonedNext(s, step, key);
    } else {
      assert step == AddKey(key);
      LostIsAbandoned(s, key);
    }
  }

  lemma LostGrows(s: State, step: Step)
    ensures s.lost <= Next(s, step).lost
  {
  }

  lemma StoryNext(s: State, step: Step, key: Key)
    requires Inv(s) && s.workers != [] && Story(s, key)
    ensures Story(Next(s, step), key)
  {
    var s' := Next(s, step);
    NumberedNext(s, step, key);
    AddingNext(s, step, key);
    LostGrows(s, step);
    if key in s'.lost {
      LostNext(s, step, key);
    }
    if Merged(s, key) {
      MergedOrCleared(s, step, key);
    } else {
      AbandonedLists(s, step, key);
    }
  }

  lemma MergedOrCleared(s: State, step: Step, key: Key)
    requires Inv(s) && s.workers != [] && Merged(s, key)
    ensures Merged(Next(s, step), key) || (key in Next(s, step).lost && Next(s, step).core.Pending(key) == [] && Next(s, step).adding == {})
  {
    if step.Clear? && s.core.Pending(key) != [] {
      if s.core.shuttingDown && AllExited(s) && s.adding == {} {
        LeftBehind(s, key);
      }
    } else {
      MergedNext(s, step, key);
    }
  }

  lemma {:induction false} StoryRun(workers: nat, steps: seq<Step>, key: Key)
    requires workers > 0
    ensures Story(Run(workers, steps), key)
    decreases |steps|
  {
    if steps == [] {
      CoalescedNothing<Uid, nat>();
      var none: seq<Task> := [];
      assert none + none == none;
    } else {
      StoryRun(workers, steps[..|steps| - 1], key);
      InvRun(workers, steps[..|steps| - 1]);
      StoryNext(Run(workers, steps[..|steps| - 1]), steps[|steps| - 1], key);
    }
  }

  lemma AbandonedNotMerged(s: State, key: Key)
    requires Abandoned(s, key) && Numbered(s, key)
    ensures !Coalesced(At(s.added, key), At(s.taken, key))
  {
    if Coalesced(At(s.added, key), At(s.taken, key)) {
      NewestKept(At(s.added, key), At(s.taken, key));
    }
  }

  lemma MergedExact(s: State, key: Key)
    requires Story(s, key)
    ensures Merged(s, key) <==> key !in s.lost || s.core.Pending(key) != []
  {
    if key in s.lost && s.core.Pending(key) == [] {
      AbandonedNotMerged(s, key);
      assert At(s.taken, key) + [] == At(s.taken, key);
    }
  }

  /**
   Coalescing: in every reachable state the tasks handed to workers followed by the
   pending ones are the added tasks in order, minus only tasks directly followed by one
   of the same UID, with pending neighbours that always differ, if and only if the key was
   not lost or its list is still there.
   */
  lemma MergedRun(workers: nat, steps: seq<Step>, key: Key)
    requires workers > 0
    ensures var s := Run(workers, steps); Merged(s, key) <==> key !in s.lost || s.core.Pending(key) != []
  {
    StoryRun(workers, steps, key);
    MergedExact(Run(workers, steps), key);
  }

  /** Once all workers have left, exactly the lost keys have tasks left over or dropped by Wait. */
  lemma LeftOverExact(workers: nat, steps: seq<Step>, key: Key)
    requires workers > 0 && AllExited(Run(workers, steps)) && Run(workers, steps).adding == {}
    ensures var s := Run(workers, steps); key in s.lost <==> s.core.Pending(key) != [] || !Merged(s, key)
  {
    var s := Run(workers, steps);
    InvRun(workers, steps);
    MergedRun(workers, steps, key);
    if s.core.Pending(key) != [] {
      LeftBehind(s, key);
    }
  }

  lemma RanTakenNext(s: State, step: Step, key: Key)
    requires Exclusive(s) && RanTaken(s, key) && !Next(s, step).core.cancelled
    ensures RanTaken(Next(s, step), key)
  {
    var s' := Next(s, step);
    if step.NextTask? && Touches(s, step, key) {
      NextTaskRanTaken(s, step.w);
    } else if step.RunTask? && step.w < |s.workers| && InFlight(s, step.w, key) {
      RunTaskRanTaken(s, step.w);
    } else {
      OthersInFlight(s, step, key);
      if w :| 0 <= w < |s.workers| && InFlight(s, w, key) && At(s.taken, key) == At(s.ran, key) + [s.workers[w].task] {
        assert InFlight(s', w, key);
      }
    }
  }

  lemma NextTaskRanTaken(s: State, w: nat)
    requires w < |s.workers| && s.workers[w].Looking? && Exclusive(s) && RanTaken(s, s.workers[w].key)
    ensures RanTaken(Next(s, NextTask(w)), s.workers[w].key)
  {
    var key := s.workers[w].key;
    var s' := Next(s, NextTask(w));
    assert s.workers[w].Holds(key);
    forall v | 0 <= v < |s.workers| ensures !InFlight(s, v, key) {
      assert s.workers[v].Holds(key) ==> v == w;
    }
    if s'.workers[w].Running? {
      assert InFlight(s', w, key);
    }
  }

  lemma RunTaskRanTaken(s: State, w: nat)
    requires w < |s.workers| && s.workers[w].Running? && Exclusive(s) && RanTaken(s, s.workers[w].key) && !s.core.cancelled
    ensures RanTaken(Next(s, RunTask(w)), s.workers[w].key)
  {
    var key := s.workers[w].key;
    var s' := Next(s, RunTask(w));
    assert InFlight(s, w, key);
    forall v | 0 <= v < |s.workers| ensures InFlight(s, v, key) ==> v == w {
      assert s.workers[w].Holds(key) && (InFlight(s, v, key) ==> s.workers[v].Holds(key));
    }
    assert At(s.taken, key) == At(s.ran, key) + [s.workers[w].task] == At(s'.ran, key);
    forall v | 0 <= v < |s'.workers| ensures !InFlight(s', v, key) {
      assert v != w ==> s'.workers[v] == s.workers[v] && !InFlight(s, v, key);
    }
  }

  lemma OthersInFlight(s: State, step: Step, key: Key)
    requires !(step.NextTask? && Touches(s, step, key))
    requires !(step.RunTask? && step.w < |s.workers| && InFlight(s, step.w, key))
    ensures var s' := Next(s, step);
            && |s'.workers| == |s.workers|
            && At(s'.taken, key) == At(s.taken, key) && At(s'.ran, key) == At(s.ran, key)
            && forall w :: 0 <= w < |s.workers| ==>
                 (InFlight(s', w, key) <==> InFlight(s, w, key)) && (InFlight(s, w, key) ==> s'.workers[w] == s.workers[w])
  {
    HistoriesKept(s, step, key);
  }

  lemma HistoriesKept(s: State, step: Step, key: Key)
    requires !(step.NextTask? && Touches(s, step, key))
    requires !(step.RunTask? && step.w < |s.workers| && InFlight(s, step.w, key))
    ensures var s' := Next(s, step); At(s'.taken, key) == At(s.taken, key) && At(s'.ran, key) == At(s.ran, key)
  {
  }

  lemma {:induction false} RanTakenRun(workers: nat, steps: seq<Step>, key: Key)
    requires !Run(workers, steps).core.cancelled
    ensures RanTaken(Run(workers, steps), key)
    decreases |steps|
  {
    if steps == [] {
    } else {
      var s, step := Run(workers, steps[..|steps| - 1]), steps[|steps| - 1];
      InvRun(workers, steps[..|steps| - 1]);
      StaysCancelled(s, step);
      RanTakenRun(workers, steps[..|steps| - 1], key);
      RanTakenNext(s, step, key);
    }
  }

  lemma StaysCancelled(s: State, step: Step)
    ensures s.core.cancelled ==> Next(s, step).core.cancelled
  {
  }

  /** Cancellation drops everything that has not been run: after it, whatever else happens, no further task is run. */
  lemma {:induction false} RanAfterCancel(workers: nat, before: seq<Step>, after: seq<Step>)
    ensures Run(workers, before + [Cancel] + after).ran == Run(workers, before).ran
    ensures Run(workers, before + [Cancel] + after).core.cancelled
    decreases |after|
  {
    if after == [] {
      assert before + [Cancel] + after == before + [Cancel];
      RunAppend(workers, before, Cancel);
    } else {
      var shorter, last := after[..|after| - 1], after[|after| - 1];
      RanAfterCancel(workers, before, shorter);
      assert before + [Cancel] + after == (before + [Cancel] + shorter) + [last];
      RunAppend(workers, before + [Cancel] + shorter, last);
      CancelledNext(Run(workers, before + [Cancel] + shorter), last);
    }
  }

  lemma CancelledNext(s: State, step: Step)
    requires s.core.cancelled
    ensures Next(s, step).core.cancelled && Next(s, step).ran == s.ran
  {
  }

  /** With or without cancellation the tasks run of a key are the first of those taken, in order. */
  lemma {:induction false} RanFirst(workers: nat, steps: seq<Step>, key: Key)
    ensures At(Run(workers, steps).ran, key) <= At(Run(workers, steps).taken, key)
    decreases |steps|
  {
    if steps == [] {
      assert Run(workers, steps) == Start(workers);
    } else if !Run(workers, steps).core.cancelled {
      RanTakenRun(workers, steps, key);
    } else {
      var s, step := Run(workers, steps[..|steps| - 1]), steps[|steps| - 1];
      RanFirst(workers, steps[..|steps| - 1], key);
      TakenGrows(s, step, key);
    }
  }

  lemma TakenGrows(s: State, step: Step, key: Key)
    ensures At(s.taken, key) <= At(Next(s, step).taken, key)
    ensures s.core.cancelled || step.Cancel? ==> Next(s, step).ran == s.ran
    ensures Next(s, step).core.cancelled ==> s.core.cancelled || step.Cancel?
  {
    FlagsNext(s, step);
    if step.NextTask? {
      NextTaskTakes(s, step.w, key);
    } else {
      assert Next(s, step).taken == s.taken;
    }
  }

  lemma NextTaskTakes(s: State, w: nat, key: Key)
    ensures At(s.taken, key) <= At(Next(s, NextTask(w)).taken, key) && Next(s, NextTask(w)).ran == s.ran
  {
  }

  // ---- What the watcher sent ----------------------------------------------

  /** Neither the context was cancelled nor the queue shut down. */
  predicate Open(steps: seq<Step>) { Cancel !in steps && ShutDown !in steps }

  /** The events of a key that the watcher handed to Add, one Add at a time, before the queue was closed. */
  ghost function Sent(workers: nat, steps: seq<Step>, key: Key): seq<Task>
    decreases |steps|
  {
    if steps == [] then []
    else
      var before, last := steps[..|steps| - 1], steps[|steps| - 1];
      var sent := Sent(workers, before, key);
      if last.AddTask? && last.key == key && Open(before) && Run(workers, before).adding == {} then sent + [Item(last.uid, |sent|)] else sent
  }

  lemma {:induction false} OpenExactly(workers: nat, steps: seq<Step>)
    ensures var core := Run(workers, steps).core; (!core.cancelled && !core.shuttingDown) <==> Open(steps)
    decreases |steps|
  {
    if steps == [] {
      assert Run(workers, steps) == Start(workers);
    } else {
      var before, last := steps[..|steps| - 1], steps[|steps| - 1];
      OpenExactly(workers, before);
      FlagsNext(Run(workers, before), last);
      assert steps == before + [last];
    }
  }

  lemma FlagsNext(s: State, step: Step)
    ensures Next(s, step).core.cancelled == (s.core.cancelled || step.Cancel?)
    ensures Next(s, step).core.shuttingDown == (s.core.shuttingDown || step.ShutDown?)
  {
  }

  /** No event is turned away while the queue is open, and none is taken in afterwards. */
  lemma {:induction false} AddedIsSent(workers: nat, steps: seq<Step>, key: Key)
    ensures At(Run(workers, steps).added, key) == Sent(workers, steps, key)
    decreases |steps|
  {
    if steps == [] {
      assert Run(workers, steps) == Start(workers);
    } else {
      var before, last := steps[..|steps| - 1], steps[|steps| - 1];
      AddedIsSent(workers, before, key);
      OpenExactly(workers, before);
      AddedNext(Run(workers, before), last, key);
    }
  }

  lemma AddedNext(s: State, step: Step, key: Key)
    ensures At(Next(s, step).added, key)
            == At(s.added, key)
               + if step.AddTask? && step.key == key && !s.core.cancelled && !s.core.shuttingDown && s.adding == {}
                 then [Item(step.uid, |At(s.added, key)|)] else []
  {
  }

  // ---- Workers get there ---------------------------------------------------

  /** The worker has a step to take. */
  ghost predicate CanMove(s: State, w: nat) {
    Next(s, Get(w)) != s || Next(s, NextTask(w)) != s || Next(s, RunTask(w)) != s || Next(s, Done(w)) != s
  }

  ghost predicate Quiet(s: State) {
    s.adding == {} && forall w :: 0 <= w < |s.workers| ==> !CanMove(s, w)
  }

  /** With no Add under way, a worker stands still only if it has left or waits for a key in an open queue. */
  lemma WorkerMoves(s: State, w: nat)
    requires s.adding == {} && w < |s.workers|
    ensures CanMove(s, w) <==> !s.workers[w].Exited? && (s.workers[w].Idle? ==> s.core.ready != [] || s.core.shuttingDown)
  {
    match s.workers[w]
    case Idle => assert s.core.ready != [] || s.core.shuttingDown ==> !Next(s, Get(w)).workers[w].Idle?;
    case Looking(key) => assert !Next(s, NextTask(w)).workers[w].Looking?;
    case Running(key, task) => assert Next(s, RunTask(w)).workers[w].Looking?;
    case Emptied(key) => assert Next(s, Done(w)).workers[w].Idle?;
    case Exited =>
  }

  lemma QuietPending(s: State, key: Key)
    requires Inv(s) && s.workers != [] && Quiet(s) && key !in s.lost
    ensures s.core.Pending(key) == []
  {
    forall w | 0 <= w < |s.workers| ensures s.workers[w].Exited? || (s.workers[w].Idle? && s.core.ready == []) {
      WorkerMoves(s, w);
    }
    assert s.core.ready == [] && key !in s.core.processing && !Attended(s, key);
    assert s.core.Pending(key) != [] ==> Awake(s, key);
  }

  /**
   Progress: whatever the schedule, as long as an event of a key that was not lost is
   still to be run and no Add is under way, some worker has a step to take.
   */
  lemma Progress(workers: nat, steps: seq<Step>, key: Key)
    requires workers > 0 && Run(workers, steps).adding == {} && !Run(workers, steps).core.cancelled && key !in Run(workers, steps).lost
    requires !Delivery(Run(workers, steps), key)
    ensures var s := Run(workers, steps); exists w :: 0 <= w < |s.workers| && CanMove(s, w)
  {
    if Quiet(Run(workers, steps)) {
      QuietDelivered(workers, steps, key);
    }
  }

  /** When no worker has a step left, with or without ShutDown, everything sent was delivered. */
  lemma QuietDelivered(workers: nat, steps: seq<Step>, key: Key)
    requires workers > 0 && Quiet(Run(workers, steps)) && !Run(workers, steps).core.cancelled && key !in Run(workers, steps).lost
    ensures Delivery(Run(workers, steps), key) && At(Run(workers, steps).added, key) == Sent(workers, steps, key)
  {
    AddedIsSent(workers, steps, key);
    InvRun(workers, steps);
    StoryRun(workers, steps, key);
    RanTakenRun(workers, steps, key);
    QuietDelivery(Run(workers, steps), key);
  }

  lemma QuietDelivery(s: State, key: Key)
    requires Inv(s) && Story(s, key) && RanTaken(s, key) && s.workers != [] && Quiet(s) && key !in s.lost
    ensures Delivery(s, key)
  {
    QuietPending(s, key);
    forall w | 0 <= w < |s.workers| ensures !InFlight(s, w, key) {
      WorkerMoves(s, w);
    }
    var ran := At(s.ran, key);
    assert ran + [] == ran;
    NewestKept(At(s.added, key), ran);
  }

  /** Wait has returned and nothing was cancelled: every worker has left and no Add is under way. */
  ghost predicate Waited(s: State) { AllExited(s) && s.adding == {} && !s.core.cancelled }

  /** The run events are the added ones, coalesced, and end with the newest. */
  ghost predicate Delivery(s: State, key: Key)
  {
    var added, ran := At(s.added, key), At(s.ran, key);
    Coalesced(added, ran) && (added != [] ==> ran != [] && ran[|ran| - 1] == added[|added| - 1])
  }

  /**
   Delivery: when Wait returns without cancellation, every event of a key was run in
   order, except those directly superseded by a newer event of the same Service, and the
   newest event was run last, if and only if the key was not lost. The events are all
   those that the watcher sent before it shut the queue down.
   */
  lemma Delivered(workers: nat, steps: seq<Step>, key: Key)
    requires workers > 0 && Waited(Run(workers, steps))
    ensures Delivery(Run(workers, steps), key) <==> key !in Run(workers, steps).lost
    ensures At(Run(workers, steps).added, key) == Sent(workers, steps, key)
  {
    AddedIsSent(workers, steps, key);
    InvRun(workers, steps);
    StoryRun(workers, steps, key);
    RanTakenRun(workers, steps, key);
    DeliveredAt(Run(workers, steps), key);
  }

  lemma DeliveredAt(s: State, key: Key)
    requires Inv(s) && Story(s, key) && RanTaken(s, key) && |s.workers| > 0 && Waited(s)
    ensures Delivery(s, key) <==> key !in s.lost
  {
    NobodyRunning(s, key);
    if key in s.lost {
      AbandonedNotMerged(s, key);
    } else {
      NothingPending(s, key);
      var ran := At(s.ran, key);
      assert ran + [] == ran;
      NewestKept(At(s.added, key), ran);
    }
  }

  /** The caller does not shut the queue down in the middle of an Add, as the Service watcher does not. */
  ghost predicate SequentialRun(workers: nat, steps: seq<Step>)
    decreases |steps|
  {
    steps == [] ||
    (SequentialRun(workers, steps[..|steps| - 1])
     && (steps[|steps| - 1].ShutDown? ==> Run(workers, steps[..|steps| - 1]).adding == {}))
  }

  /** Such a caller loses nothing. */
  lemma {:induction false} SequentialLosesNothing(workers: nat, steps: seq<Step>)
    requires SequentialRun(workers, steps)
    ensures var s := Run(workers, steps); s.lost == {} && (s.core.shuttingDown ==> s.adding == {})
    decreases |steps|
  {
    if steps == [] {
      assert Run(workers, steps) == Start(workers);
    } else {
      SequentialLosesNothing(workers, steps[..|steps| - 1]);
      SequentialNext(Run(workers, steps[..|steps| - 1]), steps[|steps| - 1]);
    }
  }

  lemma SequentialNext(s: State, step: Step)
    requires s.lost == {} && (s.core.shuttingDown || step.ShutDown? ==> s.adding == {})
    ensures var s' := Next(s, step); s'.lost == {} && (s'.core.shuttingDown ==> s'.adding == {})
  {
  }

  lemma NothingPending(s: State, key: Key)
    requires Inv(s) && s.workers != [] && AllExited(s) && s.adding == {} && key !in s.lost
    ensures s.core.Pending(key) == []
  {
    if s.core.Pending(key) != [] {
      LeftBehind(s, key);
    }
  }

  lemma NobodyRunning(s: State, key: Key)
    requires AllExited(s) && RanTaken(s, key)
    ensures At(s.taken, key) == At(s.ran, key)
  {
  }

  lemma RunAppend(workers: nat, steps: seq<Step>, step: Step)
    ensures Run(workers, steps + [step]) == Next(Run(workers, steps), step)
  {
    assert (steps + [step])[..|steps|] == steps;
  }

  /** A run of the queue in which ShutDown overtakes an Add and its event is lost. */
  lemma ShutDownOvertakesAdd(key: Key, uid: Uid) returns (steps: seq<Step>)
    ensures Waited(Run(1, steps)) && key in Run(1, steps).lost && !Delivery(Run(1, steps), key)
  {
    steps := [] + [AddTask(key, uid)];
    RunAppend(1, [], AddTask(key, uid));
    assert Run(1, steps).workers == [Idle] && Run(1, steps).adding == {key} && Run(1, steps).core.dirty == {};
    RunAppend(1, steps, ShutDown);
    steps := steps + [ShutDown];
    RunAppend(1, steps, AddKey(key));
    steps := steps + [AddKey(key)];
    assert key in Run(1, steps).lost && Run(1, steps).core.ready == [] && Run(1, steps).workers == [Idle];
    RunAppend(1, steps, Get(0));
    steps := steps + [Get(0)];
    assert Run(1, steps).workers == [Exited];
    Delivered(1, steps, key);
  }

  lemma Popped(c: Core, key: Key)
    ensures c.PopTask(key).Pending(key) == if c.Pending(key) == [] then [] else c.Pending(key)[1..]
    ensures c.PopTask(key).tasks - {key} == c.tasks - {key}
    ensures c.PopTask(key) == c.(tasks := c.PopTask(key).tasks)
    ensures c.Pending(key) == [] ==> c.PopTask(key).tasks == c.tasks - {key}
  {
  }

  // ---- The queue itself --------------------------------------------------

  /** The queue as the source keeps it; each method is one critical section. */
  class ServiceEventQueue {
    var ready: seq<Key>
    var dirty: set<Key>
    var processing: set<Key>
    var shuttingDown: bool
    var tasks: map<Key, seq<Task>>
    var cancelled: bool

    ghost function View(): Core
      reads this
    {
      Core(ready, dirty, processing, shuttingDown, tasks, cancelled)
    }

    constructor ()
      ensures View() == Start(0).core
    {
      ready, dirty, processing, shuttingDown, tasks, cancelled := [], {}, {}, false, map[], false;
    }

    method Add(key: Key, uid: Uid, run: nat)
      modifies this
      ensures View() == if old(View().Accepts()) then old(View()).AddTask(key, Item(uid, run)).AddKey(key) else old(View())
      ensures old(cancelled || shuttingDown) ==> View() == old(View())
      ensures !old(cancelled || shuttingDown) ==>
                && key in dirty && key in tasks && tasks[key] != [] && tasks[key][|tasks[key]| - 1] == Item(uid, run)
                && dirty == old(dirty) + {key} && tasks - {key} == old(tasks) - {key} && processing == old(processing)
                && (key in ready || key in processing <==> old(key in ready || key in processing || key !in dirty))
    {
      if cancelled || shuttingDown {
        return;
      }
      var list := if key in tasks then tasks[key] else [];
      var task := Item(uid, run);
      if |list| != 0 && list[|list| - 1].tag == uid {
        list := list[|list| - 1 := task];
        assert list == list[..|list| - 1] + [task];
      } else {
        list := list + [task];
      }
      tasks := tasks[key := list];
      if key !in dirty {
        dirty := dirty + {key};
        if key !in processing {
          ready := ready + [key];
        }
      }
    }

    method NextTask(key: Key) returns (task: seq<Task>)
      modifies this`tasks
      ensures View() == old(View()).PopTask(key)
      ensures task == if old(View().Pending(key)) == [] then [] else [old(View().Pending(key))[0]]
    {
      var list := if key in tasks then tasks[key] else [];
      if |list| == 0 {
        tasks := tasks - {key};
        return [];
      }
      task := [list[0]];
      if |list| == 1 {
        tasks := tasks - {key};
      } else {
        tasks := tasks[key := list[1..]];
      }
    }

    /** One uninterrupted pass of a worker over a key: run everything, then report the key done. */
    method RunNext(key: Key) returns (ran: seq<Task>)
      modifies this
      ensures ran == if cancelled then [] else old(View().Pending(key))
      ensures View() == old(View()).(tasks := old(tasks) - {key}).Finish(key)
    {
      ran := [];
      ghost var was := View();
      ghost var left := was.Pending(key);
      while true
        invariant View() == was.(tasks := tasks) && tasks - {key} == was.tasks - {key}
        invariant left == View().Pending(key)
        invariant cancelled ==> ran == []
        invariant !cancelled ==> ran + left == was.Pending(key)
        decreases |left|
      {
        Popped(View(), key);
        var task := NextTask(key);
        if task == [] {
          break;
        }
        if !cancelled {
          assert (ran + task) + left[1..] == ran + left;
          ran := ran + task;
        }
        left := left[1..];
      }
      assert tasks == was.tasks - {key};
      processing := processing - {key};
      if key in dirty {
        ready := ready + [key];
      }
    }
  }
}
