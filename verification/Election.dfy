/**
 The election generations of a shared lease: one local runner per generation
 drives it, every other participant observes it through one-shot channels.
 */
module Election {
  import opened Text

  datatype Phase = Idle | Campaigning | Leading

  /** One generation; `decided` and `done` say whether its channels are closed, `led` whether it ever led. */
  datatype Generation = Generation(phase: Phase, decided: bool, done: bool, led: bool)

  /** Generations are identified by their position; `election` is the current one. */
  datatype Lease = Lease(generations: seq<Generation>, election: Option<nat>, panicked: bool)
  {
    function Join(): Lease {
      if election.Some? then this
      else this.(generations := generations + [Generation(Campaigning, false, false, false)], election := Some(|generations|))
    }

    predicate Drives(session: Session) {
      session.owner && session.generation < |generations| && election == Some(session.generation)
    }

    predicate CanStart(session: Session) {
      Drives(session) && generations[session.generation].phase == Campaigning
    }

    predicate CanStop(session: Session) {
      Drives(session) && generations[session.generation].phase != Idle
    }

    function Start(session: Session): Lease
      requires CanStart(session)
    {
      var g := generations[session.generation];
      this.(generations := generations[session.generation := g.(phase := Leading, decided := true, led := true)],
            panicked := panicked || g.decided)
    }

    function Stop(session: Session): Lease
      requires CanStop(session)
    {
      var g := generations[session.generation];
      this.(generations := generations[session.generation := g.(phase := Idle, decided := true, done := true)],
            election := None,
            panicked := panicked || g.done || (g.phase == Campaigning && g.decided))
    }
  }

  datatype Session = Session(generation: nat, owner: bool)

  /** Somebody inside WaitForLeader; a blocked one gives up, and reports no leadership, when its own context or the lease's ends. */
  datatype Waiter =
    | Checking(generation: nat)
    | Blocked(generation: nat)
    | Returned(generation: nat, leader: bool)
    | GaveUp(generation: nat)

  datatype State = State(lease: Lease, sessions: seq<Session>, waiters: seq<Waiter>)

  datatype Step =
    | Join
    | Started(session: nat)
    | Stopped(session: nat)
    | Wait(session: nat)
    | Check(waiter: nat)
    | Wake(waiter: nat)
    | GiveUp(waiter: nat)

  /** What electionState reports for a generation: nothing unless it is current. */
  function ElectionState(lease: Lease, generation: nat): (Phase, bool) {
    if generation < |lease.generations| && lease.election == Some(generation)
    then (lease.generations[generation].phase, true) else (Idle, false)
  }

  function Next(s: State, step: Step): State {
    match step
    case Join =>
      var lease := s.lease.Join();
      s.(lease := lease, sessions := s.sessions + [Session(if lease.election.Some? then lease.election.value else 0, s.lease.election.None?)])
    case Started(i) =>
      if i < |s.sessions| && s.lease.CanStart(s.sessions[i]) then s.(lease := s.lease.Start(s.sessions[i])) else s
    case Stopped(i) =>
      if i < |s.sessions| && s.lease.CanStop(s.sessions[i]) then s.(lease := s.lease.Stop(s.sessions[i])) else s
    case Wait(i) =>
      if i < |s.sessions| then s.(waiters := s.waiters + [Checking(s.sessions[i].generation)]) else s
    case Check(w) =>
      if w < |s.waiters| && s.waiters[w].Checking? then
        var g := s.waiters[w].generation;
        var (phase, current) := ElectionState(s.lease, g);
        s.(waiters := s.waiters[w := if !current then Returned(g, false)
                                     else if phase == Leading then Returned(g, true)
                                     else if phase == Idle then Returned(g, false)
                                     else Blocked(g)])
      else s
    case Wake(w) =>
      if w < |s.waiters| && s.waiters[w].Blocked? && s.waiters[w].generation < |s.lease.generations|
         && s.lease.generations[s.waiters[w].generation].decided
      then s.(waiters := s.waiters[w := Checking(s.waiters[w].generation)]) else s
    case GiveUp(w) =>
      if w < |s.waiters| && s.waiters[w].Blocked? then s.(waiters := s.waiters[w := GaveUp(s.waiters[w].generation)]) else s
  }

  function Init(): State {
    State(Lease([], None, false), [], [])
  }

  /** The state after further steps. */
  function Exec(s: State, steps: seq<Step>): State
    decreases |steps|
  {
    if steps == [] then s else Next(Exec(s, steps[..|steps| - 1]), steps[|steps| - 1])
  }

  // ---- Invariants -----------------------------------------------------------------------

  ghost predicate GenerationOk(g: Generation)
  {
    (g.decided <==> g.phase != Campaigning) && (g.done <==> g.phase == Idle) && (g.phase == Leading ==> g.led) && (g.led ==> g.decided)
  }

  /** Channels tell the phases, and only the newest generation can be under way. */
  ghost predicate LeaseOk(l: Lease)
  {
    && !l.panicked
    && (forall i :: 0 <= i < |l.generations| ==> GenerationOk(l.generations[i]))
    && (forall i :: 0 <= i < |l.generations| ==> (l.generations[i].phase != Idle <==> l.election == Some(i)))
    && (l.election.Some? ==> l.election.value == |l.generations| - 1)
  }

  /** Every session belongs to a generation, and every generation has exactly one runner. */
  ghost predicate SessionsOk(s: State)
  {
    && (forall i :: 0 <= i < |s.sessions| ==> s.sessions[i].generation < |s.lease.generations|)
    && (forall i, j :: 0 <= i < j < |s.sessions| && s.sessions[i].owner && s.sessions[j].owner ==>
          s.sessions[i].generation != s.sessions[j].generation)
    && (forall g :: 0 <= g < |s.lease.generations| ==> HasRunner(s, g))
  }

  ghost predicate HasRunner(s: State, g: nat)
  {
    exists i :: 0 <= i < |s.sessions| && s.sessions[i] == Session(g, true)
  }

  ghost predicate WaitersOk(s: State)
  {
    forall w :: 0 <= w < |s.waiters| ==>
      && s.waiters[w].generation < |s.lease.generations|
      && (s.waiters[w].Returned? ==> s.lease.generations[s.waiters[w].generation].decided)
      && (s.waiters[w].Returned? && s.waiters[w].leader ==> s.lease.generations[s.waiters[w].generation].led)
  }

  ghost predicate Inv(s: State) { LeaseOk(s.lease) && SessionsOk(s) && WaitersOk(s) }

  lemma LeaseOkNext(l: Lease, session: Session)
    requires LeaseOk(l)
    ensures LeaseOk(l.Join()) && l.Join().election.Some?
    ensures l.CanStart(session) ==> LeaseOk(l.Start(session))
    ensures l.CanStop(session) ==> LeaseOk(l.Stop(session))
  {
  }

  lemma SessionsOkNext(s: State, step: Step)
    requires LeaseOk(s.lease) && SessionsOk(s)
    ensures SessionsOk(Next(s, step))
  {
    var s' := Next(s, step);
    forall g | 0 <= g < |s'.lease.generations| ensures HasRunner(s', g) {
      if g < |s.lease.generations| {
        assert HasRunner(s, g);
        var i :| 0 <= i < |s.sessions| && s.sessions[i] == Session(g, true);
        assert s'.sessions[i] == Session(g, true);
      } else {
        assert s'.sessions[|s.sessions|] == Session(g, true);
      }
    }
  }

  lemma WaitersOkNext(s: State, step: Step)
    requires Inv(s)
    ensures WaitersOk(Next(s, step))
  {
  }

  lemma InvNext(s: State, step: Step)
    requires Inv(s)
    ensures Inv(Next(s, step))
  {
    SessionsOkNext(s, step);
    WaitersOkNext(s, step);
    match step
    case Started(i) => if i < |s.sessions| { LeaseOkNext(s.lease, s.sessions[i]); }
    case Stopped(i) => if i < |s.sessions| { LeaseOkNext(s.lease, s.sessions[i]); }
    case _ => LeaseOkNext(s.lease, Session(0, false));
  }

  /**
   Election generations over every run: one runner each, at most the newest under
   way, `decided` closed exactly when the campaign is over, `done` exactly when
   the generation ended, and no channel closed twice.
   */
  lemma {:induction false} ElectionSafe(steps: seq<Step>)
    ensures Inv(Exec(Init(), steps))
    decreases |steps|
  {
    if steps == [] {
    } else {
      ElectionSafe(steps[..|steps| - 1]);
      InvNext(Exec(Init(), steps[..|steps| - 1]), steps[|steps| - 1]);
    }
  }

  /** Only one generation, and so only one runner, can be leading at a time. */
  lemma OneLeader(steps: seq<Step>, i: nat, j: nat)
    requires var s := Exec(Init(), steps);
             && i < |s.sessions| && j < |s.sessions| && s.sessions[i].owner && s.sessions[j].owner
             && ElectionState(s.lease, s.sessions[i].generation) == (Leading, true)
             && ElectionState(s.lease, s.sessions[j].generation) == (Leading, true)
    ensures i == j
  {
    ElectionSafe(steps);
  }

  /** How a phase may move in one step. */
  predicate Moves(from: Phase, to: Phase) {
    from == to || (from == Campaigning && to == Leading) || to == Idle
  }

  function Rank(phase: Phase): nat {
    match phase case Campaigning => 0 case Leading => 1 case Idle => 2
  }

  lemma PhaseMovesNext(s: State, step: Step, g: nat)
    requires g < |s.lease.generations|
    ensures var s' := Next(s, step);
            && |s.lease.generations| <= |s'.lease.generations|
            && Moves(s.lease.generations[g].phase, s'.lease.generations[g].phase)
            && (s.lease.generations[g].led ==> s'.lease.generations[g].led)
  {
  }

  /** Phases only move forward: campaigning, leading, idle; a closed generation never reopens. */
  lemma {:induction false} PhasesForward(s: State, steps: seq<Step>, g: nat)
    requires g < |s.lease.generations|
    ensures var s' := Exec(s, steps);
            && |s.lease.generations| <= |s'.lease.generations|
            && Rank(s.lease.generations[g].phase) <= Rank(s'.lease.generations[g].phase)
            && (s.lease.generations[g].led ==> s'.lease.generations[g].led)
    decreases |steps|
  {
    if steps == [] {
    } else {
      PhasesForward(s, steps[..|steps| - 1], g);
      PhaseMovesNext(Exec(s, steps[..|steps| - 1]), steps[|steps| - 1], g);
    }
  }

  /** Observers and superseded or ended sessions change nothing. */
  lemma StaleSessionsDoNothing(steps: seq<Step>, i: nat)
    requires var s := Exec(Init(), steps);
             i < |s.sessions| && (!s.sessions[i].owner || s.lease.election != Some(s.sessions[i].generation))
    ensures var s := Exec(Init(), steps); Next(s, Started(i)) == s && Next(s, Stopped(i)) == s
  {
  }

  /** Once a runner has stopped, its session can never again affect the lease, whatever starts later. */
  lemma StoppedForGood(before: seq<Step>, i: nat, after: seq<Step>)
    requires var s := Exec(Init(), before); i < |s.sessions| && s.lease.CanStop(s.sessions[i])
    ensures var s := Exec(Next(Exec(Init(), before), Stopped(i)), after);
            i < |s.sessions| && Next(s, Started(i)) == s && Next(s, Stopped(i)) == s
  {
    var s := Exec(Init(), before);
    ElectionSafe(before);
    InvNext(s, Stopped(i));
    var s1 := Next(s, Stopped(i));
    SessionsKept(s1, after);
    PhasesForward(s1, after, s.sessions[i].generation);
  }

  lemma {:induction false} SessionsKept(s: State, steps: seq<Step>)
    ensures s.sessions <= Exec(s, steps).sessions
    decreases |steps|
  {
    if steps == [] {
    } else {
      SessionsKept(s, steps[..|steps| - 1]);
    }
  }

  /** A check returns if and only if its generation is decided, and then says whether it leads; otherwise it blocks. */
  lemma DecidedEndsWait(steps: seq<Step>, w: nat)
    requires var s := Exec(Init(), steps); w < |s.waiters| && s.waiters[w].Checking?
    ensures var s := Exec(Init(), steps);
            var g := s.waiters[w].generation;
            && g < |s.lease.generations|
            && Next(s, Check(w)).waiters
               == s.waiters[w := if s.lease.generations[g].decided then Returned(g, s.lease.generations[g].phase == Leading) else Blocked(g)]
  {
    ElectionSafe(steps);
  }

  /** Whoever returned without giving up did so for a decided generation, and saw leadership only of one that led. */
  lemma ReturnedMeansDecided(steps: seq<Step>, w: nat)
    requires var s := Exec(Init(), steps); w < |s.waiters| && s.waiters[w].Returned?
    ensures var s := Exec(Init(), steps);
            var g := s.waiters[w].generation;
            && g < |s.lease.generations| && s.lease.generations[g].decided
            && (s.waiters[w].leader ==> s.lease.generations[g].led)
  {
    ElectionSafe(steps);
  }

  // ---- What each call brings about -------------------------------------------------------

  /** Joining a lease with an election under way observes it; otherwise it opens a new one and becomes its runner. */
  lemma JoinExactly(steps: seq<Step>)
    ensures var s := Exec(Init(), steps);
            var s' := Next(s, Join);
            && s'.waiters == s.waiters && |s'.sessions| == |s.sessions| + 1 && s'.sessions[..|s.sessions|] == s.sessions
            && (s.lease.election.Some? ==> s'.lease == s.lease && s'.sessions[|s.sessions|] == Session(s.lease.election.value, false))
            && (s.lease.election.None? ==>
                  && s'.sessions[|s.sessions|] == Session(|s.lease.generations|, true) && s'.lease.election == Some(|s.lease.generations|)
                  && s'.lease.generations == s.lease.generations + [Generation(Campaigning, false, false, false)])
  {
    ElectionSafe(steps);
  }

  predicate Undecided(lease: Lease, g: nat) { g < |lease.generations| && !lease.generations[g].decided }

  /** The runner of the current election can start leading as long as it is undecided. */
  lemma RunnerStarts(steps: seq<Step>, i: nat)
    requires var s := Exec(Init(), steps);
             && i < |s.sessions| && s.sessions[i].owner && s.lease.election == Some(s.sessions[i].generation)
             && Undecided(s.lease, s.sessions[i].generation)
    ensures var s := Exec(Init(), steps);
            var g := s.sessions[i].generation;
            && ElectionState(s.lease, g) == (Campaigning, true)
            && Next(s, Started(i)) == s.(lease := s.lease.(generations := s.lease.generations[g := Generation(Leading, true, false, true)]))
  {
    ElectionSafe(steps);
  }

  /** The runner of the current election can always end it, and frees the lease for the next one. */
  lemma RunnerStops(steps: seq<Step>, i: nat)
    requires var s := Exec(Init(), steps);
             i < |s.sessions| && s.sessions[i].owner && s.lease.election == Some(s.sessions[i].generation)
    ensures var s := Exec(Init(), steps);
            var g := s.sessions[i].generation;
            && Next(s, Stopped(i)).lease.election.None?
            && Next(s, Stopped(i)) == s.(lease := s.lease.(
                 generations := s.lease.generations[g := Generation(Idle, true, true, s.lease.generations[g].led)], election := None))
  {
    ElectionSafe(steps);
  }

  /** Waiting begins with a check of the session's own generation, and a blocked waiter can give up at any time. */
  lemma WaitBeginsAndEnds(s: State, i: nat, w: nat)
    ensures i < |s.sessions| ==> Next(s, Wait(i)) == s.(waiters := s.waiters + [Checking(s.sessions[i].generation)])
    ensures w < |s.waiters| && s.waiters[w].Blocked? ==> Next(s, GiveUp(w)).waiters[w] == GaveUp(s.waiters[w].generation)
  {
  }

  /** The run of one waiter that is woken and checks again. */
  function WakeAndCheck(s: State, w: nat): State { Next(Next(s, Wake(w)), Check(w)) }

  /** Nobody waits in vain: when the runner starts or stops, everybody blocked on its campaign can return with the outcome. */
  lemma WaitersReleased(steps: seq<Step>, i: nat, w: nat)
    requires var s := Exec(Init(), steps);
             && w < |s.waiters| && s.waiters[w].Blocked? && i < |s.sessions| && s.sessions[i] == Session(s.waiters[w].generation, true)
             && s.lease.election == Some(s.waiters[w].generation) && Undecided(s.lease, s.waiters[w].generation)
    ensures var s := Exec(Init(), steps);
            var g := s.waiters[w].generation;
            && WakeAndCheck(Next(s, Started(i)), w).waiters[w] == Returned(g, true)
            && WakeAndCheck(Next(s, Stopped(i)), w).waiters[w] == Returned(g, false)
  {
    var s := Exec(Init(), steps);
    ElectionSafe(steps);
    RunnerStarts(steps, i);
    RunnerStops(steps, i);
    var g := s.waiters[w].generation;
    assert Next(Next(s, Started(i)), Wake(w)).waiters[w] == Checking(g);
    assert Next(Next(s, Stopped(i)), Wake(w)).waiters[w] == Checking(g);
  }

  /** Nobody is stuck on an ended or won campaign: a blocked waiter can wake exactly when its campaign is over. */
  lemma BlockedMeansCampaigning(steps: seq<Step>, w: nat)
    requires var s := Exec(Init(), steps); w < |s.waiters| && s.waiters[w].Blocked?
    ensures var s := Exec(Init(), steps);
            ElectionState(s.lease, s.waiters[w].generation) != (Campaigning, true) <==> Next(s, Wake(w)) != s
  {
    ElectionSafe(steps);
    var s := Exec(Init(), steps);
    var s' := Next(s, Wake(w));
    if s.lease.generations[s.waiters[w].generation].decided {
      assert s'.waiters[w].Checking?;
    }
  }

  // ---- The lease's own code ----------------------------------------------------------------

  class LeaseElection {
    var generations: seq<Generation>
    var election: Option<nat>

    ghost function View(): Lease
      reads this
    {
      Lease(generations, election, false)
    }

    constructor ()
      ensures View() == Init().lease && LeaseOk(View())
    {
      generations, election := [], None;
    }

    method JoinElection() returns (session: Session, runner: bool)
      requires LeaseOk(View())
      modifies this
      ensures View() == old(View()).Join() && LeaseOk(View())
      ensures runner == old(election).None? && election == Some(session.generation) && session.owner == runner
    {
      runner := election.None?;
      if runner {
        generations := generations + [Generation(Campaigning, false, false, false)];
        election := Some(|generations| - 1);
      }
      session := Session(election.value, runner);
    }

    method Started(session: Session) returns (ok: bool)
      requires LeaseOk(View())
      modifies this
      ensures ok == old(View()).CanStart(session)
      ensures View() == if ok then old(View()).Start(session) else old(View())
      ensures LeaseOk(View())
    {
      LeaseOkNext(View(), session);
      if !session.owner || session.generation >= |generations| {
        return false;
      }
      var g := generations[session.generation];
      if election != Some(session.generation) || g.phase != Campaigning {
        return false;
      }
      generations := generations[session.generation := g.(phase := Leading, decided := true, led := true)];
      return true;
    }

    method Stopped(session: Session) returns (ok: bool)
      requires LeaseOk(View())
      modifies this
      ensures ok == old(View()).CanStop(session)
      ensures View() == if ok then old(View()).Stop(session) else old(View())
      ensures LeaseOk(View())
    {
      LeaseOkNext(View(), session);
      if !session.owner || session.generation >= |generations| {
        return false;
      }
      var g := generations[session.generation];
      if election != Some(session.generation) || g.phase == Idle {
        return false;
      }
      if g.phase == Campaigning {
        g := g.(decided := true);
      }
      generations := generations[session.generation := g.(phase := Idle, done := true)];
      election := None;
      return true;
    }

    method IsLeading(session: Session) returns (leading: bool)
      ensures leading == (ElectionState(View(), session.generation) == (Leading, true))
    {
      return session.generation < |generations| && election == Some(session.generation) && generations[session.generation].phase == Leading;
    }
  }
}
