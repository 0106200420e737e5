/**
 Ownership of VLAN links: the instance that created a link deletes it, unless
 another instance still uses it and takes the ownership over.
 */
module Links {
  import opened Text

  type Uid = string
  type Name = string

  /** An instance: the VLAN link it uses, if any, and whether it owns one. */
  datatype Instance = Instance(uid: Uid, vlan: Option<Name>, owned: bool)
  {
    predicate Uses(name: Name) { vlan == Some(name) }
    predicate Owns(name: Name) { owned && vlan == Some(name) }
  }

  /** What adding the link and bringing it up led to. */
  datatype Outcome = Up | AddFailed | SetUpFailed

  /** One addVLAN call; `valid` says whether a link that is there already is accepted. */
  datatype Attempt = Attempt(outcome: Outcome, valid: bool)

  /** A construction under way: whether the link is there, used by the instance, and owned by it. */
  datatype Build = Build(present: bool, uses: bool, owned: bool)

  /** addVLAN: the ownership is taken before the link is brought up. */
  function AddVLAN(b: Build, a: Attempt): Build {
    if b.present then (if a.valid then b.(uses := true) else b)
    else match a.outcome
      case Up => Build(true, true, true)
      case AddFailed => b
      case SetUpFailed => Build(true, b.uses, true)
  }

  /** The calls of one construction, one for every address and host name of the Service. */
  function Construct(b: Build, attempts: seq<Attempt>): Build
    decreases |attempts|
  {
    if attempts == [] then b else AddVLAN(Construct(b, attempts[..|attempts| - 1]), attempts[|attempts| - 1])
  }

  /** The instance under cleanup; the instances that remained at its detachment are the first ones tracked. */
  datatype Cleaning = Cleaning(inst: Instance, remaining: nat)

  /**
   `foreign` are the links that were there before, `leaked` those that kube-vip
   created and nobody owns.
   */
  datatype State = State(
    kernel: set<Name>, foreign: set<Name>, leaked: set<Name>, tracked: seq<Instance>, cleaning: Option<Cleaning>)
  {
    predicate Free(uid: Uid) { Find(tracked, uid).None? && (cleaning.Some? ==> cleaning.value.inst.uid != uid) }
  }

  /**
   `deleted` is the outcome of a kernel deletion, `rest` that of the instance's other
   attachments: a cleanup that fails in any part puts the instance back.
   */
  datatype Step =
    | Create(uid: Uid, name: Name, attempts: seq<Attempt>)
    | CreateFails(name: Name, attempts: seq<Attempt>, deleted: bool)
    | Detach(uid: Uid)
    | Finish(deleted: bool, rest: bool)

  function Find(tracked: seq<Instance>, uid: Uid): (found: Option<nat>)
    ensures found.Some? ==> found.value < |tracked| && tracked[found.value].uid == uid
    ensures found.None? ==> forall i :: 0 <= i < |tracked| ==> tracked[i].uid != uid
  {
    if tracked == [] then None
    else if tracked[0].uid == uid then Some(0)
    else match Find(tracked[1..], uid) case Some(i) => Some(i + 1) case None => None
  }

  /** The first instance that uses the link. */
  function FirstUser(instances: seq<Instance>, name: Name): (user: Option<nat>)
    ensures user.Some? ==> user.value < |instances| && instances[user.value].Uses(name)
    ensures user.Some? ==> forall k :: 0 <= k < user.value ==> !instances[k].Uses(name)
    ensures user.None? ==> forall i :: 0 <= i < |instances| ==> !instances[i].Uses(name)
  {
    if instances == [] then None
    else if instances[0].Uses(name) then Some(0)
    else match FirstUser(instances[1..], name) case Some(i) => Some(i + 1) case None => None
  }

  function Built(s: State, name: Name, attempts: seq<Attempt>): Build {
    Construct(Build(name in s.kernel, false, false), attempts)
  }

  /** Ends a cleanup: `inst` is what is left of the instance, `ok` whether nothing failed. */
  function Ended(s: State, inst: Instance, ok: bool): State {
    s.(cleaning := None, tracked := if ok then s.tracked else s.tracked + [inst])
  }

  function Next(s: State, step: Step): State {
    match step
    case Create(uid, name, attempts) =>
      if !s.Free(uid) then s
      else
        var b := Built(s, name, attempts);
        s.(tracked := s.tracked + [Instance(uid, if b.uses then Some(name) else None, b.owned)],
           kernel := if b.present then s.kernel + {name} else s.kernel,
           leaked := if b.owned && !b.uses then s.leaked + {name} else s.leaked)
    case CreateFails(name, attempts, deleted) =>
      // A failed construction cleans up its own link, with no other instance to hand it to.
      var b := Built(s, name, attempts);
      if b.owned && !(b.uses && deleted) then s.(kernel := s.kernel + {name}, leaked := s.leaked + {name}) else s
    case Detach(uid) =>
      if s.cleaning.Some? || Find(s.tracked, uid).None? then s
      else
        var i := Find(s.tracked, uid).value;
        s.(tracked := s.tracked[..i] + s.tracked[i + 1..], cleaning := Some(Cleaning(s.tracked[i], |s.tracked| - 1)))
    case Finish(deleted, rest) =>
      if s.cleaning.None? || s.cleaning.value.remaining > |s.tracked| then s
      else
        var Cleaning(inst, n) := s.cleaning.value;
        if !inst.owned || inst.vlan.None? then Ended(s, inst.(owned := false), rest)
        else
          var name := inst.vlan.value;
          match FirstUser(s.tracked[..n], name)
          case Some(u) => Ended(s.(tracked := s.tracked[u := s.tracked[u].(owned := true)]), inst.(owned := false), rest)
          case None =>
            if deleted then Ended(s.(kernel := s.kernel - {name}), inst.(owned := false), rest) else Ended(s, inst, false)
  }

  function Init(foreign: set<Name>): State { State(foreign, foreign, {}, [], None) }

  function Run(foreign: set<Name>, steps: seq<Step>): State
    decreases |steps|
  {
    if steps == [] then Init(foreign) else Next(Run(foreign, steps[..|steps| - 1]), steps[|steps| - 1])
  }

  // ---- One construction ----------------------------------------------------------------

  ghost predicate Created(attempts: seq<Attempt>)
  {
    exists k :: 0 <= k < |attempts| && attempts[k].outcome != AddFailed
  }

  /** The first call that adds the link cannot bring it up, and no later call accepts it. */
  ghost predicate LeftDownAt(attempts: seq<Attempt>, k: nat)
    requires k < |attempts|
  {
    && attempts[k].outcome == SetUpFailed
    && (forall i :: 0 <= i < k ==> attempts[i].outcome == AddFailed)
    && (forall i :: k < i < |attempts| ==> !attempts[i].valid)
  }

  ghost predicate LeftDown(attempts: seq<Attempt>)
  {
    exists k :: 0 <= k < |attempts| && LeftDownAt(attempts, k)
  }

  lemma CreatedNext(attempts: seq<Attempt>, a: Attempt)
    ensures Created(attempts + [a]) <==> Created(attempts) || a.outcome != AddFailed
  {
    var longer := attempts + [a];
    assert longer[|attempts|] == a;
    if Created(attempts) {
      var k :| 0 <= k < |attempts| && attempts[k].outcome != AddFailed;
      assert longer[k] == attempts[k];
    }
  }

  lemma LeftDownNext(attempts: seq<Attempt>, a: Attempt)
    ensures LeftDown(attempts + [a]) <==> (!Created(attempts) && a.outcome == SetUpFailed) || (LeftDown(attempts) && !a.valid)
  {
    var longer, n := attempts + [a], |attempts|;
    assert longer[n] == a && forall i :: 0 <= i < n ==> longer[i] == attempts[i];
    if !Created(attempts) && a.outcome == SetUpFailed {
      assert LeftDownAt(longer, n);
    }
    if LeftDown(attempts) && !a.valid {
      var k :| 0 <= k < n && LeftDownAt(attempts, k);
      assert LeftDownAt(longer, k);
    }
    if LeftDown(longer) {
      var k :| 0 <= k < |longer| && LeftDownAt(longer, k);
      if k < n {
        assert LeftDownAt(attempts, k) && !longer[n].valid;
      }
    }
  }

  /** A construction on a missing link owns it if some call added it, and does not use it if it was left down. */
  lemma {:induction false} ConstructExact(attempts: seq<Attempt>)
    ensures var b := Construct(Build(false, false, false), attempts);
            && (b.owned <==> Created(attempts)) && b.present == b.owned && (b.uses ==> b.owned)
            && (b.owned && !b.uses <==> LeftDown(attempts))
    decreases |attempts|
  {
    if attempts == [] {
      assert !Created(attempts) && !LeftDown(attempts);
    } else {
      var shorter, last := attempts[..|attempts| - 1], attempts[|attempts| - 1];
      assert attempts == shorter + [last];
      ConstructExact(shorter);
      CreatedNext(shorter, last);
      LeftDownNext(shorter, last);
    }
  }

  /** A construction on an existing link never owns it. */
  lemma {:induction false} ConstructAdopts(attempts: seq<Attempt>)
    ensures var b := Construct(Build(true, false, false), attempts);
            !b.owned && b.present && (b.uses <==> exists k :: 0 <= k < |attempts| && attempts[k].valid)
    decreases |attempts|
  {
    if attempts == [] {
      assert Construct(Build(true, false, false), attempts) == Build(true, false, false);
    } else {
      ConstructAdopts(attempts[..|attempts| - 1]);
    }
  }

  // ---- Invariants ----------------------------------------------------------------------

  ghost predicate HasOwner(m: set<Instance>, name: Name)
  {
    exists x :: x in m && x.Owns(name)
  }

  /** A link was there before, or was leaked, or has exactly one owner, and only one of these. */
  ghost predicate Balanced(kernel: set<Name>, foreign: set<Name>, leaked: set<Name>, m: set<Instance>)
  {
    && foreign <= kernel && leaked <= kernel && foreign !! leaked
    && (forall name :: name in kernel ==> (name in foreign || name in leaked <==> !HasOwner(m, name)))
    && (forall x, y, name :: x in m && y in m && x.Owns(name) && y.Owns(name) ==> x == y)
    && (forall x, name :: x in m && x.Owns(name) ==> name in kernel)
  }

  /** Everybody who may own a link: the tracked instances, and the one under cleanup. */
  ghost function Members(s: State): set<Instance> {
    (set x | x in s.tracked) + (if s.cleaning.Some? then {s.cleaning.value.inst} else {})
  }

  ghost predicate Distinct(s: State)
  {
    && (forall i, j :: 0 <= i < j < |s.tracked| ==> s.tracked[i].uid != s.tracked[j].uid)
    && (s.cleaning.Some? ==> s.cleaning.value.remaining <= |s.tracked|)
    && (s.cleaning.Some? ==> forall i :: 0 <= i < |s.tracked| ==> s.tracked[i].uid != s.cleaning.value.inst.uid)
  }

  ghost predicate Conserved(s: State)
  {
    Balanced(s.kernel, s.foreign, s.leaked, Members(s)) && Distinct(s)
  }

  lemma BalancedAdd(kernel: set<Name>, foreign: set<Name>, leaked: set<Name>, m: set<Instance>, inst: Instance, name: Name)
    requires Balanced(kernel, foreign, leaked, m) && (inst.vlan.Some? ==> inst.vlan == Some(name))
    requires inst.owned ==> name !in kernel
    ensures inst.owned && inst.vlan.Some? ==> Balanced(kernel + {name}, foreign, leaked, m + {inst})
    ensures inst.owned && inst.vlan.None? ==> Balanced(kernel + {name}, foreign, leaked + {name}, m + {inst})
    ensures !inst.owned ==> Balanced(kernel, foreign, leaked, m + {inst})
  {
    assert name !in kernel ==> !HasOwner(m, name);
    forall n ensures HasOwner(m + {inst}, n) <==> HasOwner(m, n) || inst.Owns(n) {
    }
  }

  /** Nobody owned the link: it becomes a leaked one. */
  lemma BalancedLeak(kernel: set<Name>, foreign: set<Name>, leaked: set<Name>, m: set<Instance>, name: Name)
    requires Balanced(kernel, foreign, leaked, m) && name !in kernel
    ensures Balanced(kernel + {name}, foreign, leaked + {name}, m)
  {
    assert !HasOwner(m, name);
  }

  /** Members that own nothing may come and go. */
  lemma BalancedSame(kernel: set<Name>, foreign: set<Name>, leaked: set<Name>, m: set<Instance>, m': set<Instance>)
    requires Balanced(kernel, foreign, leaked, m)
    requires forall x: Instance, name :: x.Owns(name) ==> (x in m <==> x in m')
    ensures Balanced(kernel, foreign, leaked, m')
  {
    forall n ensures HasOwner(m', n) <==> HasOwner(m, n) {
      if x :| x in m && x.Owns(n) { assert x in m'; }
    }
  }

  /** The ownership of a link moves from one member to another that used it. */
  lemma BalancedMove(kernel: set<Name>, foreign: set<Name>, leaked: set<Name>, m: set<Instance>, m': set<Instance>,
                     from: Instance, to: Instance, name: Name)
    requires Balanced(kernel, foreign, leaked, m) && from in m && from.Owns(name) && to.Owns(name) && to in m'
    requires forall x: Instance, n :: x.Owns(n) && x != from && x != to ==> (x in m <==> x in m')
    requires from != to ==> from !in m'
    ensures Balanced(kernel, foreign, leaked, m')
  {
    forall n ensures HasOwner(m', n) <==> HasOwner(m, n) {
      if x :| x in m && x.Owns(n) {
        assert if x == from then to in m' && to.Owns(n) else x == to || x in m';
      }
      if x :| x in m' && x.Owns(n) {
        assert if x == to then from in m && from.Owns(n) else x in m;
      }
    }
  }

  /** The owner and its link go together. */
  lemma BalancedDrop(kernel: set<Name>, foreign: set<Name>, leaked: set<Name>, m: set<Instance>, m': set<Instance>, owner: Instance, name: Name)
    requires Balanced(kernel, foreign, leaked, m) && owner in m && owner.Owns(name) && owner !in m'
    requires forall x: Instance, n :: x.Owns(n) && x != owner ==> (x in m <==> x in m')
    ensures Balanced(kernel - {name}, foreign, leaked, m')
  {
    assert HasOwner(m, name);
    forall n | n != name ensures HasOwner(m', n) <==> HasOwner(m, n) {
      if x :| x in m && x.Owns(n) { assert x in m'; }
    }
  }

  // ---- Preservation --------------------------------------------------------------------

  lemma CreateConserves(s: State, uid: Uid, name: Name, attempts: seq<Attempt>)
    requires Conserved(s)
    ensures Conserved(Next(s, Create(uid, name, attempts)))
  {
    var s', b := Next(s, Create(uid, name, attempts)), Built(s, name, attempts);
    if s.Free(uid) {
      var inst := Instance(uid, if b.uses then Some(name) else None, b.owned);
      ConstructExact(attempts);
      ConstructAdopts(attempts);
      BalancedAdd(s.kernel, s.foreign, s.leaked, Members(s), inst, name);
      assert Members(s') == Members(s) + {inst};
      assert name in s.kernel ==> s.kernel + {name} == s.kernel;
    }
  }

  lemma CreateFailsConserves(s: State, name: Name, attempts: seq<Attempt>, deleted: bool)
    requires Conserved(s)
    ensures Conserved(Next(s, CreateFails(name, attempts, deleted)))
  {
    var s' := Next(s, CreateFails(name, attempts, deleted));
    ConstructAdopts(attempts);
    if s' != s && name !in s.kernel {
      BalancedLeak(s.kernel, s.foreign, s.leaked, Members(s), name);
      assert Members(s') == Members(s);
    }
  }

  lemma DetachConserves(s: State, uid: Uid)
    requires Conserved(s)
    ensures Conserved(Next(s, Detach(uid)))
  {
    var s' := Next(s, Detach(uid));
    if s' != s {
      var i := Find(s.tracked, uid).value;
      forall k | 0 <= k < |s'.tracked| ensures s'.tracked[k] == s.tracked[if k < i then k else k + 1] {
      }
      forall x ensures x in Members(s') <==> x in Members(s) {
        if x in s.tracked {
          var k :| 0 <= k < |s.tracked| && s.tracked[k] == x;
          assert k < i ==> s'.tracked[k] == x;
          assert k > i ==> s'.tracked[k - 1] == x;
        }
      }
      assert Members(s') == Members(s);
    }
  }

  /** The end of a cleanup keeps the others distinct. */
  lemma EndedDistinct(s: State, tracked: seq<Instance>, inst: Instance, ok: bool)
    requires Distinct(s) && s.cleaning.Some? && inst.uid == s.cleaning.value.inst.uid
    requires |tracked| == |s.tracked| && forall i :: 0 <= i < |tracked| ==> tracked[i].uid == s.tracked[i].uid
    ensures Distinct(Ended(s.(tracked := tracked), inst, ok))
  {
  }

  lemma TransferConserves(s: State, rest: bool, u: nat)
    requires Conserved(s) && s.cleaning.Some? && s.cleaning.value.inst.owned && s.cleaning.value.inst.vlan.Some?
    requires u < |s.tracked| && s.tracked[u].Uses(s.cleaning.value.inst.vlan.value)
    ensures Conserved(Ended(s.(tracked := s.tracked[u := s.tracked[u].(owned := true)]), s.cleaning.value.inst.(owned := false), rest))
  {
    var inst, user, heir := s.cleaning.value.inst, s.tracked[u], s.tracked[u].(owned := true);
    var name, tracked := inst.vlan.value, s.tracked[u := heir];
    var s' := Ended(s.(tracked := tracked), inst.(owned := false), rest);
    EndedDistinct(s, tracked, inst.(owned := false), rest);
    assert inst.Owns(name) && inst in Members(s) && user in Members(s) && !user.Owns(name);
    forall x: Instance, n | x.Owns(n) && x != inst && x != heir ensures x in Members(s) <==> x in Members(s') {
      if x in s.tracked {
        var k :| 0 <= k < |s.tracked| && s.tracked[k] == x;
        assert tracked[k] == x;
      }
      if x in tracked {
        var k :| 0 <= k < |tracked| && tracked[k] == x;
        assert k != u && s.tracked[k] == x;
      }
    }
    assert tracked[u] == heir;
    assert inst !in Members(s');
    BalancedMove(s.kernel, s.foreign, s.leaked, Members(s), Members(s'), inst, heir, name);
  }

  lemma FinishConserves(s: State, deleted: bool, rest: bool)
    requires Conserved(s)
    ensures Conserved(Next(s, Finish(deleted, rest)))
  {
    if s.cleaning.Some? {
      var Cleaning(inst, n) := s.cleaning.value;
      var s', released := Next(s, Finish(deleted, rest)), inst.(owned := false);
      if !inst.owned || inst.vlan.None? {
        EndedDistinct(s, s.tracked, released, rest);
        BalancedSame(s.kernel, s.foreign, s.leaked, Members(s), Members(s'));
      } else {
        match FirstUser(s.tracked[..n], inst.vlan.value) {
          case Some(u) => TransferConserves(s, rest, u);
          case None => LastUserConserves(s, deleted, rest);
        }
      }
    }
  }

  lemma LastUserConserves(s: State, deleted: bool, rest: bool)
    requires Conserved(s) && s.cleaning.Some? && s.cleaning.value.inst.owned && s.cleaning.value.inst.vlan.Some?
    requires FirstUser(s.tracked[..s.cleaning.value.remaining], s.cleaning.value.inst.vlan.value).None?
    ensures Conserved(Next(s, Finish(deleted, rest)))
  {
    var inst, s' := s.cleaning.value.inst, Next(s, Finish(deleted, rest));
    var name := inst.vlan.value;
    if deleted {
      EndedDistinct(s, s.tracked, inst.(owned := false), rest);
      assert inst.Owns(name) && inst in Members(s) && inst !in Members(s');
      BalancedDrop(s.kernel, s.foreign, s.leaked, Members(s), Members(s'), inst, name);
    } else {
      EndedDistinct(s, s.tracked, inst, false);
      assert Members(s') == Members(s);
    }
  }

  /** Link ownership is conserved over any sequence of creations, detachments and cleanups, in any interleaving. */
  lemma {:induction false} LinksConserved(foreign: set<Name>, steps: seq<Step>)
    ensures Conserved(Run(foreign, steps)) && Run(foreign, steps).foreign == foreign
    decreases |steps|
  {
    if steps == [] {
      assert Members(Init(foreign)) == {};
    } else {
      LinksConserved(foreign, steps[..|steps| - 1]);
      StepConserves(Run(foreign, steps[..|steps| - 1]), steps[|steps| - 1]);
    }
  }

  lemma StepConserves(s: State, step: Step)
    requires Conserved(s)
    ensures Conserved(Next(s, step)) && Next(s, step).foreign == s.foreign
  {
    match step {
      case Create(uid, name, attempts) => CreateConserves(s, uid, name, attempts);
      case CreateFails(name, attempts, deleted) => CreateFailsConserves(s, name, attempts, deleted);
      case Detach(uid) => DetachConserves(s, uid);
      case Finish(deleted, rest) => FinishConserves(s, deleted, rest);
    }
  }

  // ---- When a link disappears ----------------------------------------------------------

  /** Some instance that remained at the detachment uses the link. */
  ghost predicate StillUsed(s: State, name: Name)
    requires s.cleaning.Some?
  {
    exists i :: 0 <= i < |s.tracked| && i < s.cleaning.value.remaining && s.tracked[i].Uses(name)
  }

  /**
   In every run a step removes a link if and only if it ends, with a successful deletion,
   the cleanup of the link's owner while no instance that remained at the detachment uses
   it; links that were there before and leaked ones are never removed.
   */
  lemma DeletedExactly(foreign: set<Name>, steps: seq<Step>, step: Step, name: Name)
    requires name in Run(foreign, steps).kernel
    ensures var s := Run(foreign, steps);
            name !in Next(s, step).kernel <==>
              step.Finish? && step.deleted && s.cleaning.Some? && s.cleaning.value.inst.Owns(name) && !StillUsed(s, name)
    ensures name !in Next(Run(foreign, steps), step).kernel ==> name !in foreign && name !in Run(foreign, steps).leaked
  {
    LinksConserved(foreign, steps);
    RemovedExactly(Run(foreign, steps), step, name);
  }

  lemma RemovedExactly(s: State, step: Step, name: Name)
    requires Conserved(s) && name in s.kernel
    ensures name !in Next(s, step).kernel <==>
              step.Finish? && step.deleted && s.cleaning.Some? && s.cleaning.value.inst.Owns(name) && !StillUsed(s, name)
    ensures name !in Next(s, step).kernel ==> name !in s.foreign && name !in s.leaked
  {
    if step.Finish? && s.cleaning.Some? {
      var inst, n := s.cleaning.value.inst, s.cleaning.value.remaining;
      assert inst in Members(s);
      if StillUsed(s, name) {
        var i :| 0 <= i < |s.tracked| && i < n && s.tracked[i].Uses(name);
        assert s.tracked[..n][i].Uses(name);
      }
      assert inst.Owns(name) ==> HasOwner(Members(s), name);
    }
  }

  /** So only an instance created during the cleanup can lose a link it uses, and one does. */
  lemma NewcomerLosesLink(foreign: set<Name>, name: Name, a: Uid, b: Uid) returns (steps: seq<Step>)
    requires name !in foreign && a != b
    ensures var s := Run(foreign, steps); s.tracked == [Instance(b, Some(name), false)] && name !in s.kernel
  {
    var owner := Instance(a, Some(name), true);
    steps := Extend(foreign, [], Create(a, name, [Attempt(Up, true)]));
    CreateOnce(Init(foreign), a, name, Attempt(Up, true));
    steps := Extend(foreign, steps, Detach(a));
    DetachOnly(State(foreign + {name}, foreign, {}, [owner], None), owner);
    var detached := State(foreign + {name}, foreign, {}, [], Some(Cleaning(owner, 0)));
    assert Run(foreign, steps) == detached;
    steps := Extend(foreign, steps, Create(b, name, [Attempt(AddFailed, true)]));
    CreateOnce(detached, b, name, Attempt(AddFailed, true));
    assert Run(foreign, steps) == detached.(tracked := [Instance(b, Some(name), false)]);
    steps := Extend(foreign, steps, Finish(true, true));
  }

  lemma CreateOnce(s: State, uid: Uid, name: Name, a: Attempt)
    requires s.Free(uid) && a.valid && (name in s.kernel || a.outcome == Up)
    ensures Next(s, Create(uid, name, [a]))
            == s.(tracked := s.tracked + [Instance(uid, Some(name), name !in s.kernel)], kernel := s.kernel + {name})
  {
    var b := Build(name in s.kernel, false, false);
    assert [a][..0] == [] && Construct(b, []) == b;
    assert Built(s, name, [a]) == AddVLAN(b, a);
    assert name in s.kernel ==> s.kernel + {name} == s.kernel;
  }

  lemma DetachOnly(s: State, inst: Instance)
    requires s.tracked == [inst] && s.cleaning.None?
    ensures Next(s, Detach(inst.uid)) == s.(tracked := [], cleaning := Some(Cleaning(inst, 0)))
  {
    assert Find(s.tracked, inst.uid) == Some(0);
    assert s.tracked[..0] + s.tracked[1..] == [];
  }

  lemma Extend(foreign: set<Name>, steps: seq<Step>, step: Step) returns (longer: seq<Step>)
    ensures Run(foreign, longer) == Next(Run(foreign, steps), step)
  {
    longer := steps + [step];
    assert longer[..|steps|] == steps;
  }

  /** A failed deletion keeps the link and its owner, and a retry while nobody else uses it deletes it. */
  lemma FailedDeleteKeepsOwner(foreign: set<Name>, steps: seq<Step>, rest: bool)
    requires var s := Run(foreign, steps);
             && s.cleaning.Some? && s.cleaning.value.inst.owned && s.cleaning.value.inst.vlan.Some?
             && !StillUsed(s, s.cleaning.value.inst.vlan.value)
    ensures var s := Run(foreign, steps);
            var inst, failed := s.cleaning.value.inst, Next(s, Finish(false, rest));
            && failed.kernel == s.kernel && failed.tracked == s.tracked + [inst] && failed.cleaning.None?
            && ((forall i :: 0 <= i < |s.tracked| ==> !s.tracked[i].Uses(inst.vlan.value)) ==>
                  Next(Next(failed, Detach(inst.uid)), Finish(true, rest)).kernel == s.kernel - {inst.vlan.value})
  {
    LinksConserved(foreign, steps);
    FailedDeleteRetried(Run(foreign, steps), rest);
  }

  lemma FailedDeleteRetried(s: State, rest: bool)
    requires Conserved(s) && s.cleaning.Some? && s.cleaning.value.inst.owned && s.cleaning.value.inst.vlan.Some?
    requires !StillUsed(s, s.cleaning.value.inst.vlan.value)
    ensures var inst, failed := s.cleaning.value.inst, Next(s, Finish(false, rest));
            && failed.kernel == s.kernel && failed.tracked == s.tracked + [inst] && failed.cleaning.None?
            && ((forall i :: 0 <= i < |s.tracked| ==> !s.tracked[i].Uses(inst.vlan.value)) ==>
                  Next(Next(failed, Detach(inst.uid)), Finish(true, rest)).kernel == s.kernel - {inst.vlan.value})
  {
    var inst, n := s.cleaning.value.inst, s.cleaning.value.remaining;
    var name, failed := inst.vlan.value, Next(s, Finish(false, rest));
    assert FirstUser(s.tracked[..n], name).None?;
    assert failed.tracked[|s.tracked|] == inst;
    assert Find(failed.tracked, inst.uid) == Some(|s.tracked|);
    var again := Next(failed, Detach(inst.uid));
    assert again.tracked == s.tracked && again.cleaning == Some(Cleaning(inst, |s.tracked|));
    assert again.tracked[..|s.tracked|] == s.tracked;
  }

  // ---- What each step brings about ---------------------------------------------------------

  /** No instance, tracked or under cleanup, has the UID. */
  predicate Unknown(s: State, uid: Uid) {
    (forall i :: 0 <= i < |s.tracked| ==> s.tracked[i].uid != uid) && (s.cleaning.Some? ==> s.cleaning.value.inst.uid != uid)
  }

  /**
   An instance with a new UID is always tracked. It owns the link exactly when the link was
   not there and a call added it, and it uses the link exactly when a call brought it up
   or accepted it.
   */
  lemma CreateExactly(s: State, uid: Uid, name: Name, attempts: seq<Attempt>)
    ensures var s' := Next(s, Create(uid, name, attempts));
            if !Unknown(s, uid) then s' == s
            else
              && |s'.tracked| == |s.tracked| + 1 && s'.tracked[..|s.tracked|] == s.tracked && s'.cleaning == s.cleaning
              && var inst := s'.tracked[|s.tracked|];
              && inst.uid == uid && (inst.vlan.Some? ==> inst.vlan == Some(name))
              && (inst.owned <==> name !in s.kernel && Created(attempts))
              && (name in s.kernel ==> (inst.vlan.Some? <==> exists k :: 0 <= k < |attempts| && attempts[k].valid))
              && (name !in s.kernel ==> (inst.vlan.Some? <==> Created(attempts) && !LeftDown(attempts)))
              && s'.kernel == s.kernel + (if inst.owned then {name} else {})
  {
    ConstructExact(attempts);
    ConstructAdopts(attempts);
    assert name in s.kernel ==> s.kernel + {name} == s.kernel;
  }

  /** With no cleanup under way, any tracked instance can be detached; the others stay as they are. */
  lemma DetachExactly(s: State, i: nat)
    requires s.cleaning.None? && i < |s.tracked| && Distinct(s)
    ensures Next(s, Detach(s.tracked[i].uid))
            == s.(tracked := s.tracked[..i] + s.tracked[i + 1..], cleaning := Some(Cleaning(s.tracked[i], |s.tracked| - 1)))
  {
    assert Find(s.tracked, s.tracked[i].uid) == Some(i);
  }

  /**
   In every run the end of a cleanup puts the instance back exactly when something failed,
   and hands a link it owned to the first remaining user, if there is one.
   */
  lemma FinishExactly(foreign: set<Name>, steps: seq<Step>, deleted: bool, rest: bool)
    requires Run(foreign, steps).cleaning.Some?
    ensures var s := Run(foreign, steps);
            var s', inst := Next(s, Finish(deleted, rest)), s.cleaning.value.inst;
            var alone := inst.owned && inst.vlan.Some? && !StillUsed(s, inst.vlan.value);
            && s'.cleaning.None?
            && |s'.tracked| == |s.tracked| + (if rest && (alone ==> deleted) then 0 else 1)
            && (forall i :: 0 <= i < |s.tracked| ==> s'.tracked[i] == s.tracked[i] || HandedOver(s, s', i))
            && (inst.owned && inst.vlan.Some? && !alone ==> exists i :: 0 <= i < |s.tracked| && HandedOver(s, s', i))
  {
    LinksConserved(foreign, steps);
    FinishedAt(Run(foreign, steps), deleted, rest);
  }

  /** The ownership went to this instance, the first of those that remained to use the link. */
  ghost predicate HandedOver(s: State, s': State, i: nat)
    requires i < |s.tracked| <= |s'.tracked|
  {
    && s.cleaning.Some? && i < s.cleaning.value.remaining && s.cleaning.value.inst.owned && s.tracked[i].vlan.Some?
    && s.tracked[i].vlan == s.cleaning.value.inst.vlan && s'.tracked[i] == s.tracked[i].(owned := true)
    && forall k :: 0 <= k < i ==> s.tracked[k].vlan != s.tracked[i].vlan
  }

  lemma FinishedAt(s: State, deleted: bool, rest: bool)
    requires Distinct(s) && s.cleaning.Some?
    ensures var s', inst := Next(s, Finish(deleted, rest)), s.cleaning.value.inst;
            var alone := inst.owned && inst.vlan.Some? && !StillUsed(s, inst.vlan.value);
            && s'.cleaning.None?
            && |s'.tracked| == |s.tracked| + (if rest && (alone ==> deleted) then 0 else 1)
            && (forall i :: 0 <= i < |s.tracked| ==> s'.tracked[i] == s.tracked[i] || HandedOver(s, s', i))
            && (inst.owned && inst.vlan.Some? && !alone ==> exists i :: 0 <= i < |s.tracked| && HandedOver(s, s', i))
  {
    var s', inst, n := Next(s, Finish(deleted, rest)), s.cleaning.value.inst, s.cleaning.value.remaining;
    if inst.owned && inst.vlan.Some? {
      UsedByFirst(s, inst.vlan.value);
      match FirstUser(s.tracked[..n], inst.vlan.value) {
        case Some(u) =>
          assert forall k :: 0 <= k < u ==> s.tracked[..n][k] == s.tracked[k];
          assert HandedOver(s, s', u);
        case None =>
      }
    }
  }

  lemma UsedByFirst(s: State, name: Name)
    requires s.cleaning.Some? && s.cleaning.value.remaining <= |s.tracked|
    ensures StillUsed(s, name) <==> FirstUser(s.tracked[..s.cleaning.value.remaining], name).Some?
  {
    var n := s.cleaning.value.remaining;
    match FirstUser(s.tracked[..n], name)
    case Some(u) => assert s.tracked[u].Uses(name);
    case None => assert forall i :: 0 <= i < n ==> !s.tracked[..n][i].Uses(name);
  }

  // ---- When a link is leaked -----------------------------------------------------------

  /**
   A link is leaked if and only if a construction added it and left it down, never
   accepting it later, or failed and could not delete it.
   */
  lemma LeaksExactly(s: State, step: Step)
    requires Conserved(s)
    ensures Next(s, step).leaked != s.leaked <==>
            match step
            case Create(uid, name, attempts) => s.Free(uid) && name !in s.kernel && LeftDown(attempts)
            case CreateFails(name, attempts, deleted) => name !in s.kernel && Created(attempts) && (LeftDown(attempts) || !deleted)
            case Detach(_) => false
            case Finish(_, _) => false
  {
    match step {
      case Create(uid, name, attempts) =>
        ConstructExact(attempts);
        ConstructAdopts(attempts);
        assert name !in s.kernel ==> name !in s.leaked;
      case CreateFails(name, attempts, deleted) =>
        ConstructExact(attempts);
        ConstructAdopts(attempts);
        assert name !in s.kernel ==> name !in s.leaked;
      case _ =>
    }
  }

  // ---- The instances' own code ------------------------------------------------------------

  class LinkKernel {
    var links: set<Name>

    /** Deletes a link; a missing link is fine, the outcome of a real deletion is the kernel's. */
    method DeleteOwnedLink(name: Name, succeeds: bool) returns (ok: bool)
      modifies this
      ensures links == if name != "" && succeeds then old(links) - {name} else old(links)
      ensures ok == (name == "" || name !in old(links) || succeeds)
    {
      if name == "" || name !in links {
        return true;
      }
      if !succeeds {
        return false;
      }
      links := links - {name};
      return true;
    }
  }

  /** A constructed instance; which links it uses does not change any more. */
  class LinkInstance {
    const isVLAN: bool
    const vlanInterface: Name
    const isDHCP: bool
    const dhcpInterface: Name
    var vlanOwned: bool
    var dhcpOwned: bool

    constructor (isVLAN: bool, vlanInterface: Name, isDHCP: bool, dhcpInterface: Name, vlanOwned: bool, dhcpOwned: bool)
      ensures this.isVLAN == isVLAN && this.vlanInterface == vlanInterface && this.isDHCP == isDHCP && this.dhcpInterface == dhcpInterface
      ensures this.vlanOwned == vlanOwned && this.dhcpOwned == dhcpOwned
    {
      this.isVLAN, this.vlanInterface, this.isDHCP, this.dhcpInterface := isVLAN, vlanInterface, isDHCP, dhcpInterface;
      this.vlanOwned, this.dhcpOwned := vlanOwned, dhcpOwned;
    }

    predicate UsesLink(name: Name, vlan: bool) {
      if vlan then isVLAN && vlanInterface == name else isDHCP && dhcpInterface == name
    }

    function Link(vlan: bool): Name {
      if vlan then vlanInterface else dhcpInterface
    }

    predicate Owned(vlan: bool)
      reads this
    {
      if vlan then vlanOwned else dhcpOwned
    }

    method SetOwned(vlan: bool, owned: bool)
      modifies this`vlanOwned, this`dhcpOwned
      ensures Owned(vlan) == owned && Owned(!vlan) == old(Owned(!vlan))
    {
      if vlan {
        vlanOwned := owned;
      } else {
        dhcpOwned := owned;
      }
    }

    /** Hands the ownership to the first user of the link, and to nobody else. */
    static method TransferLinkAttachmentOwnership(name: Name, instances: seq<LinkInstance>, vlan: bool) returns (moved: bool)
      modifies instances`vlanOwned, instances`dhcpOwned
      ensures moved <==> name != "" && UsedBy(instances, name, vlan)
      ensures !moved ==> forall o, kind :: o in instances ==> o.Owned(kind) == old(o.Owned(kind))
      ensures moved ==>
                exists u :: 0 <= u < |instances| && instances[u].UsesLink(name, vlan) && instances[u].Owned(vlan)
                            && (forall k :: 0 <= k < u ==> !instances[k].UsesLink(name, vlan))
                            && (forall o, kind :: o in instances && (o != instances[u] || kind != vlan) ==> o.Owned(kind) == old(o.Owned(kind)))
    {
      if name == "" {
        return false;
      }
      for i := 0 to |instances|
        invariant forall k :: 0 <= k < i ==> !instances[k].UsesLink(name, vlan)
        invariant forall o, kind :: o in instances ==> o.Owned(kind) == old(o.Owned(kind))
      {
        if instances[i].UsesLink(name, vlan) {
          instances[i].SetOwned(vlan, true);
          return true;
        }
      }
      return false;
    }

    /** Another instance uses the same link. */
    ghost predicate Shared(remaining: seq<LinkInstance>, vlan: bool)
    {
      Link(vlan) != "" && UsedBy(remaining, Link(vlan), vlan)
    }

    /** One half of the cleanup: afterwards nothing is owned, unless the link had no other user and could not be deleted. */
    method CleanupKind(vlan: bool, kernel: LinkKernel, remaining: seq<LinkInstance>, succeeds: bool) returns (ok: bool)
      requires this !in remaining
      modifies this`vlanOwned, this`dhcpOwned, kernel, remaining`vlanOwned, remaining`dhcpOwned
      ensures ok <==> !Owned(vlan)
      ensures Owned(vlan) <==> old(Owned(vlan)) && !Shared(remaining, vlan) && !succeeds && Link(vlan) != "" && Link(vlan) in old(kernel.links)
      ensures kernel.links == old(kernel.links) - Gone(old(Owned(vlan)) && !Shared(remaining, vlan) && succeeds, Link(vlan))
      ensures old(Owned(vlan)) && Shared(remaining, vlan) ==> Inherited(remaining, Link(vlan), vlan)
      ensures !old(Owned(vlan)) || !Shared(remaining, vlan) ==> forall o :: o in remaining ==> o.Owned(vlan) == old(o.Owned(vlan))
      ensures forall kind :: kind != vlan ==> Owned(kind) == old(Owned(kind))
      ensures forall o, kind :: o in remaining && kind != vlan ==> o.Owned(kind) == old(o.Owned(kind))
    {
      ok := true;
      if Owned(vlan) {
        var moved := TransferLinkAttachmentOwnership(Link(vlan), remaining, vlan);
        if moved {
          SetOwned(vlan, false);
        } else {
          ok := kernel.DeleteOwnedLink(Link(vlan), succeeds);
          if ok {
            SetOwned(vlan, false);
          }
        }
      }
    }

    /**
     The macvlan link of DHCP first, then the VLAN link: each is handed to its first other
     user, else deleted; the cleanup fails exactly when something is still owned.
     */
    method CleanupLinkAttachments(kernel: LinkKernel, remaining: seq<LinkInstance>, dhcpSucceeds: bool, vlanSucceeds: bool) returns (ok: bool)
      requires this !in remaining
      modifies this`vlanOwned, this`dhcpOwned, kernel, remaining`vlanOwned, remaining`dhcpOwned
      ensures ok <==> !dhcpOwned && !vlanOwned
      ensures kernel.links == old(kernel.links) - Gone(old(dhcpOwned) && !Shared(remaining, false) && dhcpSucceeds, dhcpInterface)
                              - Gone(old(vlanOwned) && !Shared(remaining, true) && vlanSucceeds, vlanInterface)
      ensures dhcpOwned ==> old(dhcpOwned) && !Shared(remaining, false) && !dhcpSucceeds
      ensures vlanOwned ==> old(vlanOwned) && !Shared(remaining, true) && !vlanSucceeds
      ensures old(dhcpOwned) && Shared(remaining, false) ==> Inherited(remaining, dhcpInterface, false)
      ensures old(vlanOwned) && Shared(remaining, true) ==> Inherited(remaining, vlanInterface, true)
      ensures !old(dhcpOwned) || !Shared(remaining, false) ==> forall o :: o in remaining ==> o.dhcpOwned == old(o.dhcpOwned)
      ensures !old(vlanOwned) || !Shared(remaining, true) ==> forall o :: o in remaining ==> o.vlanOwned == old(o.vlanOwned)
    {
      var dhcpOk := CleanupKind(false, kernel, remaining, dhcpSucceeds);
      ghost var inherited, u := Inherited(remaining, dhcpInterface, false), 0;
      if inherited {
        u :| 0 <= u < |remaining| && remaining[u].UsesLink(dhcpInterface, false) && remaining[u].Owned(false)
             && forall k :: 0 <= k < u ==> !remaining[k].UsesLink(dhcpInterface, false);
      }
      assert forall o :: o in remaining ==> o.Owned(true) == old(o.Owned(true));
      var vlanOk := CleanupKind(true, kernel, remaining, vlanSucceeds);
      assert inherited ==> remaining[u].UsesLink(dhcpInterface, false) && remaining[u].Owned(false);
      assert forall o :: o in remaining ==> o.Owned(false) == o.dhcpOwned && o.Owned(true) == o.vlanOwned;
      return dhcpOk && vlanOk;
    }
  }

  /** The link that a cleanup deletes, if any. */
  function Gone(deleted: bool, name: Name): set<Name> { if deleted && name != "" then {name} else {} }

  ghost predicate UsedBy(instances: seq<LinkInstance>, name: Name, vlan: bool)
  {
    exists i :: 0 <= i < |instances| && instances[i].UsesLink(name, vlan)
  }

  /** The first user of the link owns it now. */
  ghost predicate Inherited(instances: seq<LinkInstance>, name: Name, vlan: bool)
    reads instances
  {
    exists u :: 0 <= u < |instances| && instances[u].UsesLink(name, vlan) && instances[u].Owned(vlan)
                && forall k :: 0 <= k < u ==> !instances[k].UsesLink(name, vlan)
  }
}
