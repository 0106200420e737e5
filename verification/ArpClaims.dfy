/**
 Claim counting in the ARP manager, and the VIP cleanup that consults the count
 before it deletes an address outside the manager's lock.
 */
module ArpClaims {

  type Name = string
  type ClaimId = nat

  /** A cleanup that found no claim on the name; `since` are the claims registered after that check. */
  datatype Pass = Pass(name: Name, since: set<ClaimId>)

  /** One DeleteIP call: the claims registered on the name at that moment, and those newer than the check. */
  datatype Deletion = Deletion(name: Name, registered: set<ClaimId>, since: set<ClaimId>)

  datatype State = State(
    counts: map<Name, nat>, claims: map<ClaimId, Name>, passes: map<nat, Pass>, deletions: seq<Deletion>)
  {
    function Count(name: Name): nat { if name in counts then counts[name] else 0 }

    function On(name: Name): set<ClaimId> { set c | c in claims && claims[c] == name }
  }

  function CountUp(counts: map<Name, nat>, name: Name): map<Name, nat> {
    if name in counts then counts[name := counts[name] + 1] else counts[name := 1]
  }

  function CountDown(counts: map<Name, nat>, name: Name): map<Name, nat>
    requires name in counts ==> counts[name] > 0
  {
    if name !in counts then counts
    else if counts[name] == 1 then counts - {name}
    else counts[name := counts[name] - 1]
  }

  datatype Step =
    | Insert(claim: ClaimId, name: Name)
    | Remove(claim: ClaimId, deleteIP: bool)
    | Check(pass: nat, name: Name)
    | Delete(pass: nat)

  ghost predicate Positive(counts: map<Name, nat>) {
    forall n :: n in counts ==> counts[n] > 0
  }

  function Next(s: State, step: Step): State
    requires Positive(s.counts)
  {
    match step
    case Insert(c, name) =>
      if c in s.claims then s
      else s.(counts := CountUp(s.counts, name), claims := s.claims[c := name],
              passes := map p | p in s.passes :: if s.passes[p].name == name then Pass(name, s.passes[p].since + {c}) else s.passes[p])
    case Remove(c, deleteIP) =>
      if c !in s.claims then s
      else
        var name := s.claims[c];
        var s' := s.(counts := CountDown(s.counts, name), claims := s.claims - {c});
        if deleteIP && s.Count(name) == 1 then s'.(deletions := s.deletions + [Deletion(name, s'.On(name), {})]) else s'
    case Check(p, name) =>
      if p !in s.passes && s.Count(name) == 0 then s.(passes := s.passes[p := Pass(name, {})]) else s
    case Delete(p) =>
      if p in s.passes then
        s.(passes := s.passes - {p},
           deletions := s.deletions + [Deletion(s.passes[p].name, s.On(s.passes[p].name), s.passes[p].since)])
      else s
  }

  /** The counter of a name is the number of claims registered on it, and no zero is kept. */
  ghost predicate Counted(s: State)
  {
    && Positive(s.counts)
    && forall n :: s.Count(n) == |s.On(n)|
  }

  /** Claims a waiting cleanup could hurt are all newer than its check. */
  ghost predicate PassesOk(s: State)
  {
    forall p :: p in s.passes ==> s.On(s.passes[p].name) <= s.passes[p].since
  }

  /** No address was deleted under a claim that was registered when the deletion was decided. */
  ghost predicate DeletionsOk(s: State)
  {
    forall i :: 0 <= i < |s.deletions| ==> s.deletions[i].registered <= s.deletions[i].since
  }

  ghost predicate Inv(s: State) { Counted(s) && PassesOk(s) && DeletionsOk(s) }

  lemma OnInsert(s: State, c: ClaimId, name: Name, n: Name)
    requires Positive(s.counts) && c !in s.claims
    ensures Next(s, Insert(c, name)).On(n) == if n == name then s.On(n) + {c} else s.On(n)
  {
  }

  lemma CountedInsert(s: State, c: ClaimId, name: Name)
    requires Counted(s) && c !in s.claims
    ensures Counted(Next(s, Insert(c, name)))
  {
    var s' := Next(s, Insert(c, name));
    forall n ensures s'.Count(n) == |s'.On(n)| {
      OnInsert(s, c, name, n);
      assert c !in s.On(n) && s.Count(n) == |s.On(n)|;
    }
  }

  lemma OnRemove(s: State, c: ClaimId, deleteIP: bool, n: Name)
    requires Positive(s.counts) && c in s.claims
    ensures Next(s, Remove(c, deleteIP)).On(n) == s.On(n) - {c}
    ensures |s.On(n) - {c}| == if n == s.claims[c] then |s.On(n)| - 1 else |s.On(n)|
  {
    if n == s.claims[c] {
      assert c in s.On(n);
    } else {
      assert s.On(n) - {c} == s.On(n);
    }
  }

  lemma CountedRemove(s: State, c: ClaimId, deleteIP: bool)
    requires Counted(s) && c in s.claims
    ensures Counted(Next(s, Remove(c, deleteIP)))
    ensures forall n :: Next(s, Remove(c, deleteIP)).On(n) == s.On(n) - {c}
    ensures s.Count(s.claims[c]) == 1 ==> Next(s, Remove(c, deleteIP)).On(s.claims[c]) == {}
  {
    var s', name := Next(s, Remove(c, deleteIP)), s.claims[c];
    forall n ensures s'.On(n) == s.On(n) - {c} && s'.Count(n) == |s'.On(n)| {
      OnRemove(s, c, deleteIP, n);
      assert s.Count(n) == |s.On(n)|;
    }
  }

  lemma PassesInsert(s: State, c: ClaimId, name: Name)
    requires Positive(s.counts) && PassesOk(s) && c !in s.claims
    ensures PassesOk(Next(s, Insert(c, name)))
  {
    var s' := Next(s, Insert(c, name));
    forall p | p in s'.passes ensures s'.On(s'.passes[p].name) <= s'.passes[p].since {
      OnInsert(s, c, name, s.passes[p].name);
    }
  }

  lemma PassInv(s: State, step: Step)
    requires Inv(s) && (step.Check? || step.Delete?)
    ensures Inv(Next(s, step))
  {
    var s' := Next(s, step);
    assert forall n :: s'.On(n) == s.On(n);
    assert forall n :: s'.Count(n) == s.Count(n);
    assert step.Check? && s' != s ==> |s.On(step.name)| == 0;
  }

  lemma InvNext(s: State, step: Step)
    requires Inv(s)
    ensures Inv(Next(s, step))
  {
    match step
    case Insert(c, name) =>
      if c !in s.claims {
        CountedInsert(s, c, name);
        PassesInsert(s, c, name);
      }
    case Remove(c, deleteIP) =>
      if c in s.claims {
        CountedRemove(s, c, deleteIP);
      }
    case _ => PassInv(s, step);
  }

  ghost function Run(steps: seq<Step>): (s: State)
    ensures Inv(s)
    decreases |steps|
  {
    if steps == [] then EmptyInv(); State(map[], map[], map[], [])
    else
      var s := Run(steps[..|steps| - 1]);
      InvNext(s, steps[|steps| - 1]);
      Next(s, steps[|steps| - 1])
  }

  lemma EmptyInv()
    ensures Inv(State(map[], map[], map[], []))
  {
    var s := State(map[], map[], map[], []);
    assert forall n :: s.On(n) == {};
  }

  /** Giving back a claim takes it away, and the manager then deletes the address if and only if it was asked to and no claim on its name is left. */
  lemma RemovalDeletesUnclaimed(steps: seq<Step>, c: ClaimId, deleteIP: bool)
    ensures var s, s' := Run(steps), Next(Run(steps), Remove(c, deleteIP));
            && s'.claims == s.claims - {c} && s'.passes == s.passes
            && (s'.deletions != s.deletions <==> c in s.claims && deleteIP && s'.On(s.claims[c]) == {})
            && (s'.deletions != s.deletions ==> s'.deletions == s.deletions + [Deletion(s.claims[c], {}, {})])
  {
    var s := Run(steps);
    if c in s.claims {
      CountedRemove(s, c, deleteIP);
      OnRemove(s, c, deleteIP, s.claims[c]);
      assert s.Count(s.claims[c]) == |s.On(s.claims[c])|;
    }
  }

  /** A claim that is new is registered on its name. */
  lemma InsertRegisters(steps: seq<Step>, c: ClaimId, name: Name)
    requires c !in Run(steps).claims
    ensures var s, s' := Run(steps), Next(Run(steps), Insert(c, name));
            s'.claims == s.claims[c := name] && s'.Count(name) == s.Count(name) + 1 && s'.deletions == s.deletions
  {
  }

  /** A cleanup goes on to delete if and only if its check finds no registered claim, and then deletes exactly once. */
  lemma CheckDecides(steps: seq<Step>, p: nat, name: Name)
    requires p !in Run(steps).passes
    ensures var s, s' := Run(steps), Next(Run(steps), Check(p, name));
            && s' == (if s.On(name) == {} then s.(passes := s.passes[p := Pass(name, {})]) else s)
            && (p in s'.passes ==>
                  var s2 := Next(s', Delete(p));
                  s2.deletions == s.deletions + [Deletion(name, {}, {})] && p !in s2.passes && s2.claims == s.claims)
  {
    var s := Run(steps);
    assert s.Count(name) == |s.On(name)|;
    if s.On(name) == {} {
      assert Next(s, Check(p, name)).On(name) == {};
    }
  }

  /**
   A cleanup deletes an address under a registered claim exactly when a claim
   registered between its check and its deletion is still there.
   */
  lemma CleanupDeletesUnclaimed(steps: seq<Step>, p: nat)
    requires p in Run(steps).passes
    ensures var s := Run(steps);
            var pass := s.passes[p];
            s.On(pass.name) != {} <==> exists c :: c in pass.since && c in s.claims && s.claims[c] == pass.name
  {
    PassHurtsNewcomers(Run(steps), p);
  }

  lemma PassHurtsNewcomers(s: State, p: nat)
    requires PassesOk(s) && p in s.passes
    ensures s.On(s.passes[p].name) != {} <==>
              exists c :: c in s.passes[p].since && c in s.claims && s.claims[c] == s.passes[p].name
  {
    if s.On(s.passes[p].name) != {} {
      var c :| c in s.On(s.passes[p].name);
      assert c in s.passes[p].since;
    }
    if c :| c in s.passes[p].since && c in s.claims && s.claims[c] == s.passes[p].name {
      assert c in s.On(s.passes[p].name);
    }
  }

  lemma RunAppend(steps: seq<Step>, step: Step)
    ensures Run(steps + [step]) == Next(Run(steps), step)
  {
    assert (steps + [step])[..|steps|] == steps;
  }

  /** The gap is real: a claim registered after the check loses its address. */
  lemma CheckThenInsert(name: Name)
    ensures exists steps :: exists i :: 0 <= i < |Run(steps).deletions| && Run(steps).deletions[i].registered != {}
  {
    var checked: seq<Step> := [] + [Check(0, name)];
    var inserted := checked + [Insert(0, name)];
    var steps := inserted + [Delete(0)];
    RunAppend([], Check(0, name));
    assert 0 in Run(checked).passes && Run(checked).passes[0].name == name && Run(checked).claims == map[];
    RunAppend(checked, Insert(0, name));
    assert 0 in Run(inserted).passes && Run(inserted).passes[0].name == name && 0 in Run(inserted).On(name);
    RunAppend(inserted, Delete(0));
    var deletions := Run(steps).deletions;
    assert 0 in deletions[|deletions| - 1].registered;
  }

  // ---- The manager's own code -----------------------------------------------------

  class Manager {
    var counts: map<Name, nat>
    /** The names whose address the manager has deleted, in order. */
    var deleted: seq<Name>
    /** The claims the callers hold; the manager itself only counts them. */
    ghost var claims: map<ClaimId, Name>

    ghost function View(): State
      reads this
    {
      State(counts, claims, map[], [])
    }

    constructor ()
      ensures View() == State(map[], map[], map[], []) && Counted(View()) && deleted == []
    {
      counts, deleted, claims := map[], [], map[];
      new;
      EmptyInv();
    }

    method Insert(name: Name, ghost c: ClaimId)
      requires Positive(counts) && c !in claims
      modifies this`counts, this`claims
      ensures counts == CountUp(old(counts), name) && claims == old(claims)[c := name] && Positive(counts)
      ensures old(Counted(View())) ==> Counted(View())
    {
      if Counted(View()) {
        CountedInsert(View(), c, name);
      }
      claims := claims[c := name];
      if name !in counts {
        counts := counts[name := 1];
        return;
      }
      counts := counts[name := counts[name] + 1];
    }

    /** Gives back the claim `c`; nothing stops a caller that holds none. */
    method RemoveWithIPDelete(name: Name, deleteIP: bool, ghost c: ClaimId)
      requires Positive(counts)
      modifies this
      ensures counts == CountDown(old(counts), name) && claims == old(claims) - {c} && Positive(counts)
      ensures deleted == if deleteIP && name in old(counts) && name !in counts then old(deleted) + [name] else old(deleted)
      ensures old(Counted(View())) && c in old(claims) && old(claims)[c] == name ==>
                Counted(View()) && (deleted != old(deleted) ==> View().On(name) == {})
    {
      if Counted(View()) && c in claims && claims[c] == name {
        CountedRemove(View(), c, false);
      }
      claims := claims - {c};
      if name in counts {
        var left := counts[name] - 1;
        counts := counts[name := left];
        if left == 0 {
          if deleteIP {
            deleted := deleted + [name];
          }
          counts := counts - {name};
          assert counts == CountDown(old(counts), name);
        }
      }
    }

    /** The number of registered claims on the name, as long as callers give back only what they hold. */
    method Count(name: Name) returns (count: nat)
      ensures count == View().Count(name)
      ensures Counted(View()) ==> count == |View().On(name)|
    {
      if name in counts {
        return counts[name];
      }
      return 0;
    }
  }
}
