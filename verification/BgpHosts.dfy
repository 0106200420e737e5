/**
 The BGP host tracker and the control-plane health check that announces and
 withdraws the VIP route through it.
 */
module BgpHosts {

  type Addr = string
  type Owner = string

  /**
   What comes back from a call that has to touch a path: it is done, the BGP server refuses
   it, there is no path for the address, or the address does not parse.
   */
  datatype Reply = Done | Refused | NoPath | Malformed

  /** The tracker and the paths the BGP server advertises. */
  datatype Server = Server(tracker: map<Addr, set<Owner>>, advertised: set<Addr>)
  {
    predicate Claims(addr: Addr, owner: Owner) { addr in tracker && owner in tracker[addr] }

    /** A failing call leaves the new, empty entry behind. */
    function AddHost(addr: Addr, owner: Owner, reply: Reply): Server {
      if addr in tracker then this.(tracker := tracker[addr := tracker[addr] + {owner}])
      else if reply.Done? then Server(tracker[addr := {owner}], advertised + {addr})
      else this.(tracker := tracker[addr := {}])
    }

    predicate AddHostOk(addr: Addr, reply: Reply) { addr in tracker || reply.Done? }

    /** The owner is dropped before the path is deleted; a failing deletion keeps the entry. */
    function DelHost(addr: Addr, owner: Owner, reply: Reply): Server {
      if addr !in tracker || reply.Malformed? then this
      else
        var left := tracker[addr] - {owner};
        if left == {} && reply.Done? then Server(tracker - {addr}, advertised - {addr})
        else this.(tracker := tracker[addr := left])
    }

    /** The call returns no error; without a path there is nothing to delete. */
    predicate DelHostOk(addr: Addr, owner: Owner, reply: Reply) {
      addr in tracker ==> !reply.Malformed? && (tracker[addr] - {owner} == {} ==> !reply.Refused?)
    }

    function Do(call: Call): Server {
      match call
      case Add(addr, owner, reply) => AddHost(addr, owner, reply)
      case Del(addr, owner, reply) => DelHost(addr, owner, reply)
    }

    function DoAll(calls: seq<Call>): Server
      decreases |calls|
    {
      if calls == [] then this else DoAll(calls[..|calls| - 1]).Do(calls[|calls| - 1])
    }
  }

  datatype Call = Add(addr: Addr, owner: Owner, reply: Reply) | Del(addr: Addr, owner: Owner, reply: Reply)

  /** The tracker agrees with the advertisements. */
  predicate Agrees(s: Server) { s.advertised == s.tracker.Keys }

  /** An announcement succeeds exactly when its owner has a claim afterwards; only the first of an address makes the BGP server advertise. */
  lemma AddHostExactly(s: Server, addr: Addr, owner: Owner, reply: Reply)
    ensures var s' := s.AddHost(addr, owner, reply);
            && (s.AddHostOk(addr, reply) <==> addr in s.tracker || reply.Done?)
            && (s.AddHostOk(addr, reply) <==> s'.Claims(addr, owner))
            && (forall a, o :: a != addr || o != owner ==> (s'.Claims(a, o) <==> s.Claims(a, o)))
            && s'.advertised == s.advertised + if addr !in s.tracker && reply.Done? then {addr} else {}
  {
  }

  /** A withdrawal takes its owner's claim whatever the BGP server says; the advertisement goes with the last claim, if the server agrees. */
  lemma DelHostExactly(s: Server, addr: Addr, owner: Owner, reply: Reply)
    requires addr in s.tracker
    ensures var s' := s.DelHost(addr, owner, reply);
            && (reply.Malformed? ==> s' == s && !s.DelHostOk(addr, owner, reply))
            && (!reply.Malformed? ==>
                  var last := s.tracker[addr] <= {owner};
                  && !s'.Claims(addr, owner) && (forall a, o :: a != addr || o != owner ==> (s'.Claims(a, o) <==> s.Claims(a, o)))
                  && s'.advertised == s.advertised - (if last && reply.Done? then {addr} else {})
                  && (addr in s'.tracker <==> !(last && reply.Done?)) && (s.DelHostOk(addr, owner, reply) <==> !(last && reply.Refused?)))
  {
    assert s.tracker[addr] - {owner} == {} <==> s.tracker[addr] <= {owner};
  }

  /** The last call of the owner about the address is an announcement. */
  predicate Wants(calls: seq<Call>, addr: Addr, owner: Owner)
    decreases |calls|
  {
    if calls == [] then false
    else
      var last := calls[|calls| - 1];
      if last.addr == addr && last.owner == owner then last.Add? else Wants(calls[..|calls| - 1], addr, owner)
  }

  ghost predicate Wanted(calls: seq<Call>, addr: Addr)
  {
    exists owner :: Wants(calls, addr, owner)
  }

  /** Every entry has an owner. */
  predicate NoneEmpty(s: Server) { forall addr :: addr in s.tracker ==> s.tracker[addr] != {} }

  lemma DoExactly(s: Server, call: Call)
    requires Agrees(s) && NoneEmpty(s) && call.reply.Done?
    ensures var s' := s.Do(call);
            && Agrees(s') && NoneEmpty(s') && (s'.Claims(call.addr, call.owner) <==> call.Add?)
            && forall a, o :: a != call.addr || o != call.owner ==> (s'.Claims(a, o) <==> s.Claims(a, o))
  {
    AgreementExact(s, call.addr, call.owner, call.reply);
    if call.Add? {
      AddHostExactly(s, call.addr, call.owner, call.reply);
    } else if call.addr in s.tracker {
      DelHostExactly(s, call.addr, call.owner, call.reply);
    }
  }

  /**
   Reference counting over every series of calls that the BGP server accepts: an owner
   has a claim if and only if its last call announced, and an address is advertised if
   and only if some owner has one.
   */
  lemma {:induction false} AdvertisedWhileWanted(calls: seq<Call>)
    requires forall call :: call in calls ==> call.reply.Done?
    ensures var s := Server(map[], {}).DoAll(calls);
            && Agrees(s) && NoneEmpty(s)
            && (forall addr, owner :: s.Claims(addr, owner) <==> Wants(calls, addr, owner))
            && (forall addr :: addr in s.advertised <==> Wanted(calls, addr))
    decreases |calls|
  {
    var s := Server(map[], {}).DoAll(calls);
    if calls == [] {
      assert s == Server(map[], {});
    } else {
      AdvertisedWhileWanted(calls[..|calls| - 1]);
      DoExactly(Server(map[], {}).DoAll(calls[..|calls| - 1]), calls[|calls| - 1]);
    }
    forall addr ensures addr in s.advertised <==> Wanted(calls, addr) {
      if addr in s.advertised {
        var owner :| owner in s.tracker[addr];
        assert s.Claims(addr, owner) && Wants(calls, addr, owner);
      }
      if Wanted(calls, addr) {
        var owner :| Wants(calls, addr, owner);
        assert s.Claims(addr, owner);
      }
    }
  }

  /** Agreement survives a call exactly when it is not a failing announcement of an untracked address. */
  lemma AgreementExact(s: Server, addr: Addr, owner: Owner, reply: Reply)
    requires Agrees(s)
    ensures Agrees(s.AddHost(addr, owner, reply)) <==> s.AddHostOk(addr, reply)
    ensures Agrees(s.DelHost(addr, owner, reply))
  {
    if addr !in s.tracker && !reply.Done? {
      assert addr in s.AddHost(addr, owner, reply).tracker.Keys && addr !in s.advertised;
    }
    if addr in s.tracker {
      var after := s.DelHost(addr, owner, reply);
      assert after.tracker.Keys == s.tracker.Keys || after.tracker.Keys == s.tracker.Keys - {addr};
    }
  }

  /** An entry without advertisement, as a failed announcement leaves it. */
  predicate Stuck(s: Server, addr: Addr) { addr in s.tracker && addr !in s.advertised }

  /** This call withdraws the last owner of the address, successfully. */
  predicate Withdraws(s: Server, addr: Addr, call: Call) {
    call.Del? && call.addr == addr && call.reply.Done? && addr in s.tracker && s.tracker[addr] - {call.owner} == {}
  }

  /** Nothing but that repairs it: no announcement advertises the address, whoever makes it. */
  lemma StuckExact(s: Server, addr: Addr, call: Call)
    requires Stuck(s, addr)
    ensures Stuck(s.Do(call), addr) <==> !Withdraws(s, addr, call)
  {
  }

  /** Over any series of calls after a failed announcement the address stays unadvertised until it is withdrawn. */
  lemma {:induction false} FailedAnnouncementSticks(s: Server, addr: Addr, owner: Owner, reply: Reply, calls: seq<Call>)
    requires Agrees(s) && addr !in s.tracker && !reply.Done?
    requires var s' := s.AddHost(addr, owner, reply);
             forall k :: 0 <= k < |calls| ==> !Withdraws(s'.DoAll(calls[..k]), addr, calls[k])
    ensures Stuck(s.AddHost(addr, owner, reply).DoAll(calls), addr)
    decreases |calls|
  {
    var s' := s.AddHost(addr, owner, reply);
    if calls == [] {
      assert s'.DoAll(calls) == s';
    } else {
      var shorter := calls[..|calls| - 1];
      assert forall k :: 0 <= k < |shorter| ==> shorter[..k] == calls[..k] && shorter[k] == calls[k];
      FailedAnnouncementSticks(s, addr, owner, reply, shorter);
      StuckExact(s'.DoAll(shorter), addr, calls[|calls| - 1]);
    }
  }

  // ---- The health check loop ---------------------------------------------------------------

  datatype Config = Config(addr: Addr, node: Owner, threshold: int)

  /** How the announce or withdraw call of a round ends: a failing one may still have dropped the claim. */
  datatype Answer = Succeeds | FailsDropping | FailsKeeping

  datatype Round = Round(healthy: bool, answer: Answer)

  /** `rounds` is the history of the loop. */
  datatype Loop = Loop(failures: nat, announced: bool, server: Server, rounds: seq<Round>)

  /** A round of the loop, or a call by somebody else in between. */
  datatype Step = Check(healthy: bool, reply: Reply) | Other(call: Call)

  function RoundOf(c: Config, server: Server, healthy: bool, reply: Reply): Round {
    if healthy then Round(true, if server.AddHostOk(c.addr, reply) then Succeeds else FailsKeeping)
    else if server.DelHostOk(c.addr, c.node, reply) then Round(false, Succeeds)
    else Round(false, if reply.Malformed? then FailsKeeping else FailsDropping)
  }

  function Next(c: Config, l: Loop, step: Step): Loop {
    match step
    case Check(healthy, reply) =>
      var round := RoundOf(c, l.server, healthy, reply);
      if healthy then
        if l.announced then Loop(0, true, l.server, l.rounds + [round])
        else Loop(0, round.answer.Succeeds?, l.server.AddHost(c.addr, c.node, reply), l.rounds + [round])
      else
        var failures := l.failures + 1;
        if failures >= c.threshold && l.announced
        then Loop(failures, !round.answer.Succeeds?, l.server.DelHost(c.addr, c.node, reply), l.rounds + [round])
        else l.(failures := failures, rounds := l.rounds + [round])
    case Other(call) => if call.owner == c.node then l else l.(server := l.server.Do(call))
  }

  /** The state after further steps. */
  function Exec(c: Config, l: Loop, steps: seq<Step>): Loop
    decreases |steps|
  {
    if steps == [] then l else Next(c, Exec(c, l, steps[..|steps| - 1]), steps[|steps| - 1])
  }

  function Run(c: Config, server: Server, steps: seq<Step>): Loop {
    Exec(c, Loop(0, false, server, []), steps)
  }

  /** What happens when the context ends. */
  function Exit(c: Config, l: Loop, reply: Reply): Server {
    if l.announced then l.server.DelHost(c.addr, c.node, reply) else l.server
  }

  /** The length of the trailing run of failed checks. */
  function TrailingFailures(rounds: seq<Round>): nat {
    if rounds == [] || rounds[|rounds| - 1].healthy then 0 else 1 + TrailingFailures(rounds[..|rounds| - 1])
  }

  /** In this round the failures reach the threshold, and a withdrawal succeeds. */
  ghost predicate Ends(rounds: seq<Round>, j: nat, threshold: int)
    requires j < |rounds|
  {
    !rounds[j].healthy && rounds[j].answer.Succeeds? && TrailingFailures(rounds[..j + 1]) >= threshold
  }

  /** In this round the failures reach the threshold, and a withdrawal drops the claim, failing or not. */
  ghost predicate Drops(rounds: seq<Round>, j: nat, threshold: int)
    requires j < |rounds|
  {
    !rounds[j].healthy && !rounds[j].answer.FailsKeeping? && TrailingFailures(rounds[..j + 1]) >= threshold
  }

  ghost predicate Announces(rounds: seq<Round>, i: nat)
    requires i < |rounds|
  {
    rounds[i].healthy && rounds[i].answer.Succeeds?
  }

  /** A healthy round that could announce the route has not been followed by a withdrawal. */
  ghost predicate StandsSince(rounds: seq<Round>, i: nat, threshold: int)
    requires i < |rounds|
  {
    Announces(rounds, i) && forall j :: i < j < |rounds| ==> !Ends(rounds, j, threshold)
  }

  ghost predicate Stands(rounds: seq<Round>, threshold: int)
  {
    exists i :: 0 <= i < |rounds| && StandsSince(rounds, i, threshold)
  }

  /** The round that announced the route anew has not been followed by one that drops the claim. */
  ghost predicate OwnedSince(rounds: seq<Round>, i: nat, threshold: int)
    requires i < |rounds|
  {
    && Announces(rounds, i) && !Stands(rounds[..i], threshold)
    && forall j :: i < j < |rounds| ==> !Drops(rounds, j, threshold)
  }

  ghost predicate Owned(rounds: seq<Round>, threshold: int)
  {
    exists i :: 0 <= i < |rounds| && OwnedSince(rounds, i, threshold)
  }

  lemma TrailingNext(rounds: seq<Round>, round: Round)
    ensures TrailingFailures(rounds + [round]) == if round.healthy then 0 else TrailingFailures(rounds) + 1
  {
    assert (rounds + [round])[..|rounds|] == rounds;
  }

  /** What a further round leaves of the earlier ones, and what it does itself. */
  lemma RoundsNext(rounds: seq<Round>, round: Round, threshold: int)
    ensures var longer := rounds + [round];
            && (forall j :: 0 <= j < |rounds| ==> Ends(longer, j, threshold) == Ends(rounds, j, threshold))
            && (forall j :: 0 <= j < |rounds| ==> Drops(longer, j, threshold) == Drops(rounds, j, threshold))
            && (forall j :: 0 <= j < |rounds| ==> Announces(longer, j) == Announces(rounds, j))
            && (Ends(longer, |rounds|, threshold) <==> !round.healthy && round.answer.Succeeds? && TrailingFailures(rounds) + 1 >= threshold)
            && (Drops(longer, |rounds|, threshold) <==> !round.healthy && !round.answer.FailsKeeping? && TrailingFailures(rounds) + 1 >= threshold)
            && (Announces(longer, |rounds|) <==> round.healthy && round.answer.Succeeds?)
  {
    var longer := rounds + [round];
    forall j | 0 <= j < |rounds| ensures longer[..j + 1] == rounds[..j + 1] && longer[j] == rounds[j] {
    }
    assert longer[..|rounds| + 1] == longer;
    TrailingNext(rounds, round);
  }

  lemma StandsNext(rounds: seq<Round>, round: Round, threshold: int)
    ensures var longer, n := rounds + [round], |rounds|;
            Stands(longer, threshold) <==> Announces(longer, n) || (Stands(rounds, threshold) && !Ends(longer, n, threshold))
  {
    var longer, n := rounds + [round], |rounds|;
    RoundsNext(rounds, round, threshold);
    if Announces(longer, n) {
      assert StandsSince(longer, n, threshold);
    }
    if Stands(rounds, threshold) && !Ends(longer, n, threshold) {
      var i :| 0 <= i < n && StandsSince(rounds, i, threshold);
      assert StandsSince(longer, i, threshold);
    }
    if Stands(longer, threshold) && !Announces(longer, n) {
      var i :| 0 <= i < |longer| && StandsSince(longer, i, threshold);
      assert StandsSince(rounds, i, threshold);
    }
  }

  lemma OwnedNext(rounds: seq<Round>, round: Round, threshold: int)
    ensures var longer, n := rounds + [round], |rounds|;
            Owned(longer, threshold) <==>
              (Announces(longer, n) && !Stands(rounds, threshold)) || (Owned(rounds, threshold) && !Drops(longer, n, threshold))
  {
    var longer, n := rounds + [round], |rounds|;
    RoundsNext(rounds, round, threshold);
    forall i | 0 <= i <= n ensures longer[..i] == rounds[..i] {
    }
    assert rounds[..n] == rounds;
    if Announces(longer, n) && !Stands(rounds, threshold) {
      assert OwnedSince(longer, n, threshold);
    }
    if Owned(rounds, threshold) && !Drops(longer, n, threshold) {
      var i :| 0 <= i < n && OwnedSince(rounds, i, threshold);
      assert OwnedSince(longer, i, threshold);
    }
    if Owned(longer, threshold) && !(Announces(longer, n) && !Stands(rounds, threshold)) {
      var i :| 0 <= i < |longer| && OwnedSince(longer, i, threshold);
      assert OwnedSince(rounds, i, threshold);
    }
  }

  function AtLeastOne(threshold: int): int { if threshold < 1 then 1 else threshold }

  /** The hysteresis proper: some check has succeeded, and since then fewer than the threshold have failed in a row. */
  predicate ShouldAnnounce(rounds: seq<Round>, threshold: int) {
    (exists i :: 0 <= i < |rounds| && rounds[i].healthy) && TrailingFailures(rounds) < AtLeastOne(threshold)
  }

  lemma ShouldAnnounceNext(rounds: seq<Round>, round: Round, threshold: int)
    ensures ShouldAnnounce(rounds + [round], threshold) <==>
            round.healthy || (ShouldAnnounce(rounds, threshold) && TrailingFailures(rounds) + 1 < AtLeastOne(threshold))
  {
    var longer := rounds + [round];
    TrailingNext(rounds, round);
    assert longer[|rounds|] == round;
    assert forall i :: 0 <= i < |rounds| ==> longer[i] == rounds[i];
  }

  /** When every call succeeds, the route stands exactly by the hysteresis. */
  lemma {:induction false} StandsByHysteresis(rounds: seq<Round>, threshold: int)
    requires forall i :: 0 <= i < |rounds| ==> rounds[i].answer.Succeeds?
    ensures Stands(rounds, threshold) <==> ShouldAnnounce(rounds, threshold)
    decreases |rounds|
  {
    if rounds == [] {
      assert !Stands(rounds, threshold);
    } else {
      var shorter, last := rounds[..|rounds| - 1], rounds[|rounds| - 1];
      assert rounds == shorter + [last];
      StandsByHysteresis(shorter, threshold);
      StandsNext(shorter, last, threshold);
      RoundsNext(shorter, last, threshold);
      ShouldAnnounceNext(shorter, last, threshold);
    }
  }

  /** The loop's view of the route, and its claim in the tracker, by its history alone. */
  ghost predicate LoopOk(c: Config, l: Loop)
  {
    && l.announced == Stands(l.rounds, c.threshold)
    && l.failures == TrailingFailures(l.rounds)
    && (l.server.Claims(c.addr, c.node) <==> Owned(l.rounds, c.threshold))
    && (Owned(l.rounds, c.threshold) ==> Stands(l.rounds, c.threshold))
  }

  lemma LoopOkCheck(c: Config, l: Loop, healthy: bool, reply: Reply)
    requires LoopOk(c, l)
    ensures LoopOk(c, Next(c, l, Check(healthy, reply)))
  {
    var l', round := Next(c, l, Check(healthy, reply)), RoundOf(c, l.server, healthy, reply);
    assert l'.rounds == l.rounds + [round];
    StandsNext(l.rounds, round, c.threshold);
    OwnedNext(l.rounds, round, c.threshold);
    RoundsNext(l.rounds, round, c.threshold);
    TrailingNext(l.rounds, round);
    ClaimCheck(c, l, healthy, reply);
  }

  /** What one round does to the claim. */
  lemma ClaimCheck(c: Config, l: Loop, healthy: bool, reply: Reply)
    requires l.server.Claims(c.addr, c.node) ==> l.announced
    ensures var l', round := Next(c, l, Check(healthy, reply)), RoundOf(c, l.server, healthy, reply);
            l'.server.Claims(c.addr, c.node) <==>
              (healthy && round.answer.Succeeds? && !l.announced)
              || (l.server.Claims(c.addr, c.node) && !(!healthy && !round.answer.FailsKeeping? && l.failures + 1 >= c.threshold))
  {
  }

  lemma LoopOkNext(c: Config, l: Loop, step: Step)
    requires LoopOk(c, l)
    ensures LoopOk(c, Next(c, l, step))
  {
    if step.Check? {
      LoopOkCheck(c, l, step.healthy, step.reply);
    } else if step.call.owner != c.node {
      OthersCall(c, l.server, step.call);
    }
  }

  lemma OthersCall(c: Config, s: Server, call: Call)
    requires call.owner != c.node
    ensures s.Do(call).Claims(c.addr, c.node) == s.Claims(c.addr, c.node)
  {
    if call.Del? && call.addr in s.tracker && c.node in s.tracker[call.addr] {
      assert c.node in s.tracker[call.addr] - {call.owner};
    }
  }

  /**
   Hysteresis over every history, with announcements and withdrawals that may fail and
   whatever others do with the tracker: the loop counts the route as announced exactly
   when a healthy round could announce it and no later round withdrew it at the
   threshold, and it owns the address exactly when the round that announced it anew has
   not been followed by a failing round at the threshold that dropped the claim.
   */
  lemma {:induction false} HysteresisExact(c: Config, server: Server, steps: seq<Step>)
    requires !server.Claims(c.addr, c.node)
    ensures LoopOk(c, Run(c, server, steps))
    decreases |steps|
  {
    if steps == [] {
      assert !Stands([], c.threshold) && !Owned([], c.threshold);
    } else {
      HysteresisExact(c, server, steps[..|steps| - 1]);
      LoopOkNext(c, Run(c, server, steps[..|steps| - 1]), steps[|steps| - 1]);
    }
  }

  /** With a BGP server that does what it is asked, tracker, advertisements and announcement agree. */
  ghost predicate InStep(c: Config, l: Loop)
  {
    && Agrees(l.server)
    && l.server.Claims(c.addr, c.node) == l.announced
    && forall i :: 0 <= i < |l.rounds| ==> l.rounds[i].answer.Succeeds?
  }

  predicate Answered(step: Step) {
    match step
    case Check(_, reply) => reply.Done?
    case Other(call) => call.reply.Done?
  }

  lemma InStepNext(c: Config, l: Loop, step: Step)
    requires InStep(c, l) && Answered(step)
    ensures InStep(c, Next(c, l, step))
  {
    match step {
      case Check(healthy, reply) => AgreementExact(l.server, c.addr, c.node, Done);
      case Other(call) =>
        AgreementExact(l.server, call.addr, call.owner, Done);
        if call.owner != c.node {
          OthersCall(c, l.server, call);
        }
    }
  }

  /** The route is then owned and advertised exactly by the hysteresis, or kept up by others. */
  lemma {:induction false} AnnouncedExactly(c: Config, server: Server, steps: seq<Step>)
    requires Agrees(server) && !server.Claims(c.addr, c.node)
    requires forall i :: 0 <= i < |steps| ==> Answered(steps[i])
    ensures var l := Run(c, server, steps);
            && InStep(c, l)
            && (l.server.Claims(c.addr, c.node) <==> ShouldAnnounce(l.rounds, c.threshold))
            && (ShouldAnnounce(l.rounds, c.threshold) ==> c.addr in l.server.advertised)
    decreases |steps|
  {
    if steps == [] {
      assert Run(c, server, steps) == Loop(0, false, server, []);
    } else {
      AnnouncedExactly(c, server, steps[..|steps| - 1]);
      InStepNext(c, Run(c, server, steps[..|steps| - 1]), steps[|steps| - 1]);
    }
    HysteresisExact(c, server, steps);
    StandsByHysteresis(Run(c, server, steps).rounds, c.threshold);
  }

  /**
   The two parts can come apart: whenever a withdrawal at the threshold fails after it
   dropped the claim, the loop counts the route as announced and does not own it for as
   long as the checks succeed, whatever others do.
   */
  lemma {:induction false} FailedWithdrawalLosesClaim(c: Config, l: Loop, reply: Reply, steps: seq<Step>)
    requires LoopOk(c, l) && l.announced && l.failures + 1 >= c.threshold
    requires RoundOf(c, l.server, false, reply).answer == FailsDropping
    requires forall i :: 0 <= i < |steps| ==> (steps[i].Check? ==> steps[i].healthy)
    ensures var l' := Exec(c, Next(c, l, Check(false, reply)), steps);
            LoopOk(c, l') && l'.announced && !l'.server.Claims(c.addr, c.node)
    decreases |steps|
  {
    var failed := Next(c, l, Check(false, reply));
    if steps == [] {
      LoopOkCheck(c, l, false, reply);
      ClaimCheck(c, l, false, reply);
    } else {
      FailedWithdrawalLosesClaim(c, l, reply, steps[..|steps| - 1]);
      var before, last := Exec(c, failed, steps[..|steps| - 1]), steps[|steps| - 1];
      LoopOkNext(c, before, last);
      if last.Check? {
        ClaimCheck(c, before, true, last.reply);
      } else if last.call.owner != c.node {
        OthersCall(c, before.server, last.call);
      }
    }
  }

  /** On exit the claim is gone in every history unless the address does not parse, and others keep theirs. */
  lemma ExitWithdraws(c: Config, server: Server, steps: seq<Step>, reply: Reply)
    requires !server.Claims(c.addr, c.node)
    ensures var l := Run(c, server, steps);
            && (Exit(c, l, reply).Claims(c.addr, c.node) <==> reply.Malformed? && l.server.Claims(c.addr, c.node))
            && forall a, o :: (a != c.addr || o != c.node) ==> (Exit(c, l, reply).Claims(a, o) <==> l.server.Claims(a, o))
  {
    HysteresisExact(c, server, steps);
    OthersKept(c, Run(c, server, steps).server, reply);
  }

  /** Calls of other owners in between are carried out as they come, and a claim of another owner keeps the address advertised. */
  lemma OthersInBetween(c: Config, l: Loop, call: Call, reply: Reply)
    requires call.owner != c.node
    ensures Next(c, l, Other(call)) == l.(server := l.server.Do(call))
    ensures call == Add(c.addr, call.owner, Done) && c.addr !in l.server.tracker ==>
              c.addr in Next(c, Next(c, l, Other(call)), Check(false, reply)).server.advertised
  {
    if call == Add(c.addr, call.owner, Done) && c.addr !in l.server.tracker {
      var between := Next(c, l, Other(call));
      assert call.owner in between.server.tracker[c.addr] - {c.node};
    }
  }

  lemma OthersKept(c: Config, s: Server, reply: Reply)
    ensures var s' := s.DelHost(c.addr, c.node, reply);
            forall a, o :: (a != c.addr || o != c.node) ==> (s'.Claims(a, o) <==> s.Claims(a, o))
  {
    forall a, o | a != c.addr || o != c.node
      ensures s.DelHost(c.addr, c.node, reply).Claims(a, o) <==> s.Claims(a, o)
    {
      if a == c.addr && s.Claims(a, o) {
        assert o in s.tracker[a] - {c.node};
      }
    }
  }

  // ---- The server's and the loop's own code ---------------------------------------------------

  class BgpServer {
    var tracker: map<Addr, set<Owner>>
    var advertised: set<Addr>

    ghost function View(): Server
      reads this
    {
      Server(tracker, advertised)
    }

    constructor ()
      ensures View() == Server(map[], {})
    {
      tracker, advertised := map[], {};
    }

    method AddHost(addr: Addr, owner: Owner, reply: Reply) returns (ok: bool)
      modifies this
      ensures View() == old(View()).AddHost(addr, owner, reply) && ok == old(View()).AddHostOk(addr, reply)
    {
      if addr !in tracker {
        tracker := tracker[addr := {}];
        if !reply.Done? {
          return false;
        }
        advertised := advertised + {addr};
      }
      tracker := tracker[addr := tracker[addr] + {owner}];
      assert {} + {owner} == {owner};
      return true;
    }

    method DelHost(addr: Addr, owner: Owner, reply: Reply) returns (ok: bool)
      modifies this
      ensures View() == old(View()).DelHost(addr, owner, reply) && ok == old(View()).DelHostOk(addr, owner, reply)
    {
      if addr !in tracker {
        return true;
      }
      if reply.Malformed? {
        return false;
      }
      tracker := tracker[addr := tracker[addr] - {owner}];
      if tracker[addr] == {} {
        if reply.NoPath? {
          return true;
        }
        if reply.Refused? {
          return false;
        }
        advertised := advertised - {addr};
        tracker := tracker - {addr};
      }
      return true;
    }
  }

  /** One round of the loop. */
  method CheckRound(c: Config, server: BgpServer, healthy: bool, reply: Reply, failures: nat, announced: bool, ghost rounds: seq<Round>)
    returns (consecutiveFailures: nat, routeAnnounced: bool)
    modifies server
    ensures Loop(consecutiveFailures, routeAnnounced, server.View(), rounds + [RoundOf(c, old(server.View()), healthy, reply)])
            == Next(c, Loop(failures, announced, old(server.View()), rounds), Check(healthy, reply))
  {
    consecutiveFailures, routeAnnounced := failures, announced;
    if healthy {
      consecutiveFailures := 0;
      if !routeAnnounced {
        routeAnnounced := server.AddHost(c.addr, c.node, reply);
      }
    } else {
      consecutiveFailures := consecutiveFailures + 1;
      if consecutiveFailures >= c.threshold && routeAnnounced {
        var withdrawn := server.DelHost(c.addr, c.node, reply);
        routeAnnounced := !withdrawn;
      }
    }
  }

  /** After every round the route was announced exactly when it stood. */
  ghost predicate Recorded(rounds: seq<Round>, announced: seq<bool>, threshold: int)
  {
    |rounds| == |announced| && forall k :: 0 <= k < |announced| ==> announced[k] == Stands(rounds[..k + 1], threshold)
  }

  lemma RecordedNext(rounds: seq<Round>, announced: seq<bool>, threshold: int, round: Round, next: bool)
    requires Recorded(rounds, announced, threshold) && next == Stands(rounds + [round], threshold)
    ensures Recorded(rounds + [round], announced + [next], threshold)
  {
    var longer, n := rounds + [round], |rounds|;
    forall k | 0 <= k < n + 1 ensures (announced + [next])[k] == Stands(longer[..k + 1], threshold) {
      if k < n {
        assert longer[..k + 1] == rounds[..k + 1];
      } else {
        assert longer[..k + 1] == longer;
      }
    }
  }

  /**
   The loop of the source over a given series of check results, each with the BGP server's
   answer to the call it may make, up to the end of its context.
   */
  method BgpHealthCheckLoop(c: Config, server: BgpServer, checks: seq<bool>, replies: seq<Reply>)
    returns (announced: seq<bool>, ghost rounds: seq<Round>)
    requires |replies| == |checks| + 1 && !server.View().Claims(c.addr, c.node)
    modifies server
    ensures |rounds| == |checks| && Recorded(rounds, announced, c.threshold)
    ensures forall i :: 0 <= i < |checks| ==> rounds[i].healthy == checks[i] && (replies[i].Done? ==> rounds[i].answer.Succeeds?)
    ensures server.View().Claims(c.addr, c.node) <==> replies[|checks|].Malformed? && Owned(rounds, c.threshold)
  {
    var consecutiveFailures: nat, routeAnnounced := 0, false;
    rounds, announced := [], [];
    for i := 0 to |checks|
      invariant LoopOk(c, Loop(consecutiveFailures, routeAnnounced, server.View(), rounds))
      invariant |rounds| == i && Recorded(rounds, announced, c.threshold)
      invariant forall k :: 0 <= k < i ==> rounds[k].healthy == checks[k] && (replies[k].Done? ==> rounds[k].answer.Succeeds?)
    {
      ghost var round := RoundOf(c, server.View(), checks[i], replies[i]);
      LoopOkCheck(c, Loop(consecutiveFailures, routeAnnounced, server.View(), rounds), checks[i], replies[i]);
      consecutiveFailures, routeAnnounced :=
        CheckRound(c, server, checks[i], replies[i], consecutiveFailures, routeAnnounced, rounds);
      RecordedNext(rounds, announced, c.threshold, round, routeAnnounced);
      rounds, announced := rounds + [round], announced + [routeAnnounced];
    }
    if routeAnnounced {
      var withdrawn := server.DelHost(c.addr, c.node, replies[|checks|]);
    }
  }
}
