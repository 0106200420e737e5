/**
 Membership of shared leases: participants register against the lease object that
 is current for an ID, and a release only ever touches the object it registered on.
 */
module LeaseRegistry {
  import opened Text

  type Id = string
  type Provider = nat

  datatype Spec = Spec(name: string, provider: Provider)

  /** One lease object; `id` is the ID it was created for. */
  datatype Lease = Lease(id: Id, members: map<string, Provider>, cancelled: bool)

  function AddMembers(members: map<string, Provider>, specs: seq<Spec>): map<string, Provider>
    decreases |specs|
  {
    if specs == [] then members else AddMembers(members[specs[0].name := specs[0].provider], specs[1..])
  }

  /** A batch is accepted when its names are non-empty, distinct and not registered yet. */
  predicate Acceptable(members: map<string, Provider>, specs: seq<Spec>) {
    && (forall i :: 0 <= i < |specs| ==> specs[i].name != "" && specs[i].name !in members)
    && (forall i, j :: 0 <= i < j < |specs| ==> specs[i].name != specs[j].name)
  }

  /** The manager: lease objects are numbered in order of creation, `current` maps an ID to its object. */
  datatype Manager = Manager(current: map<Id, nat>, leases: seq<Lease>)
  {
    ghost predicate Ok() {
      && (forall id :: id in current ==> current[id] < |leases| && leases[current[id]].id == id)
      && (forall l :: 0 <= l < |leases| && !leases[l].cancelled ==> IsCurrent(l))
    }

    predicate IsCurrent(l: nat) { l < |leases| && leases[l].id in current && current[leases[l].id] == l }

    /** Hand out the live lease of an ID, or a new one when there is none, which is born cancelled if the parent context has ended. */
    function Ensure(id: Id, ended: bool): Manager
      requires id in current ==> current[id] < |leases|
    {
      if id in current && !leases[current[id]].cancelled then this
      else Manager(current[id := |leases|], leases + [Lease(id, map[], ended)])
    }

    function WithMembers(l: nat, members: map<string, Provider>): Manager
      requires l < |leases|
    {
      this.(leases := leases[l := leases[l].(members := members)])
    }

    function Register(l: nat, name: string, provider: Provider): Manager
      requires l < |leases|
    {
      if name in leases[l].members then this else WithMembers(l, leases[l].members[name := provider])
    }

    function Retire(id: Id, l: nat): Manager
      requires l < |leases|
    {
      Manager(current - {id}, leases[l := leases[l].(cancelled := true)])
    }

    /** The caller's lease is the registered one, or the caller named none. */
    predicate Fresh(id: Id, l: Option<nat>) { id in current && (l.Some? ==> l.value == current[id]) }

    function Remove(id: Id, name: string, l: Option<nat>): Manager
      requires id in current ==> current[id] < |leases|
    {
      if !Fresh(id, l) then this
      else
        var left := leases[current[id]].members - {name};
        var m := WithMembers(current[id], left);
        if left == map[] then m.Retire(id, current[id]) else m
    }

    predicate Retires(id: Id, name: string, l: Option<nat>)
      requires id in current ==> current[id] < |leases|
    {
      Fresh(id, l) && leases[current[id]].members - {name} == map[]
    }

    function AcquireAll(id: Id, specs: seq<Spec>, ended: bool): Manager
      requires id in current ==> current[id] < |leases|
    {
      var m := Ensure(id, ended);
      var l := m.current[id];
      if Acceptable(m.leases[l].members, specs) then m.WithMembers(l, AddMembers(m.leases[l].members, specs))
      else if m.leases[l].members == map[] then m.Retire(id, l)
      else m
    }
  }

  /** A release handle. */
  datatype Registration = Registration(id: Id, spec: Spec, lease: nat, owned: bool, released: bool)

  datatype State = State(m: Manager, handles: seq<Registration>)

  datatype Step =
    | Acquire(id: Id, spec: Spec, ended: bool)
    | AcquireAll(id: Id, specs: seq<Spec>, ended: bool)
    | Claim(id: Id, spec: Spec)
    | Release(handle: nat)
    | Delete(id: Id, name: string, lease: Option<nat>)
    | Cancel(l: nat)

  function Handles(id: Id, specs: seq<Spec>, lease: nat): seq<Registration> {
    seq(|specs|, i requires 0 <= i < |specs| => Registration(id, specs[i], lease, true, false))
  }

  function Next(s: State, step: Step): State
    requires forall id :: id in s.m.current ==> s.m.current[id] < |s.m.leases|
  {
    match step
    case Acquire(id, spec, ended) =>
      var m := s.m.Ensure(id, ended);
      s.(m := m.Register(m.current[id], spec.name, spec.provider))
    case AcquireAll(id, specs, ended) =>
      var m := s.m.Ensure(id, ended);
      var l := m.current[id];
      s.(m := s.m.AcquireAll(id, specs, ended),
         handles := if Acceptable(m.leases[l].members, specs) then s.handles + Handles(id, specs, l) else s.handles)
    case Claim(id, spec) =>
      if id !in s.m.current then s
      else
        var l := s.m.current[id];
        State(s.m.Register(l, spec.name, spec.provider),
              s.handles + [Registration(id, spec, l, spec.name !in s.m.leases[l].members, false)])
    case Release(r) =>
      if r < |s.handles| && s.handles[r].owned && !s.handles[r].released then
        var h := s.handles[r];
        State(s.m.Remove(h.id, h.spec.name, Some(h.lease)), s.handles[r := h.(released := true)])
      else s
    case Delete(id, name, lease) => s.(m := s.m.Remove(id, name, lease))
    case Cancel(l) =>
      if l < |s.m.leases| then s.(m := s.m.(leases := s.m.leases[l := s.m.leases[l].(cancelled := true)])) else s
  }

  // ---- Invariants ----------------------------------------------------------------------

  /** Handles name the lease object they were made on. */
  ghost predicate HandlesOk(s: State)
  {
    && (forall r :: 0 <= r < |s.handles| ==> s.handles[r].lease < |s.m.leases| && s.m.leases[s.handles[r].lease].id == s.handles[r].id)
  }

  ghost predicate Inv(s: State) { s.m.Ok() && HandlesOk(s) }

  lemma EnsureOk(m: Manager, id: Id, ended: bool)
    requires m.Ok()
    ensures m.Ensure(id, ended).Ok() && id in m.Ensure(id, ended).current && m.Ensure(id, ended).current[id] < |m.Ensure(id, ended).leases|
    ensures m.Ensure(id, ended).leases[m.Ensure(id, ended).current[id]].cancelled ==> ended
    ensures |m.leases| <= |m.Ensure(id, ended).leases| && forall l :: 0 <= l < |m.leases| ==> m.Ensure(id, ended).leases[l] == m.leases[l]
    ensures forall l :: 0 <= l < |m.leases| && m.Ensure(id, ended).IsCurrent(l) ==> m.IsCurrent(l)
  {
  }

  /** What every step keeps: consistency, the objects' IDs, and nothing old becomes current. */
  ghost predicate Evolves(m: Manager, m': Manager)
  {
    && m'.Ok() && |m.leases| <= |m'.leases|
    && (forall l :: 0 <= l < |m.leases| ==> m'.leases[l].id == m.leases[l].id)
    && (forall l :: 0 <= l < |m.leases| && m'.IsCurrent(l) ==> m.IsCurrent(l))
  }

  lemma EnsureEvolves(m: Manager, id: Id, ended: bool)
    requires m.Ok()
    ensures Evolves(m, m.Ensure(id, ended))
  {
    EnsureOk(m, id, ended);
  }

  lemma MembersEvolve(m: Manager, l: nat, members: map<string, Provider>)
    requires m.Ok() && l < |m.leases|
    ensures Evolves(m, m.WithMembers(l, members))
  {
  }

  lemma RetireEvolves(m: Manager, id: Id)
    requires m.Ok() && id in m.current
    ensures Evolves(m, m.Retire(id, m.current[id]))
  {
  }

  lemma RemoveEvolves(m: Manager, id: Id, name: string, l: Option<nat>)
    requires m.Ok()
    ensures Evolves(m, m.Remove(id, name, l))
  {
    if m.Fresh(id, l) {
      var left := m.leases[m.current[id]].members - {name};
      MembersEvolve(m, m.current[id], left);
      RetireEvolves(m.WithMembers(m.current[id], left), id);
    }
  }

  lemma RegisterEvolves(m: Manager, l: nat, spec: Spec)
    requires m.Ok() && l < |m.leases|
    ensures Evolves(m, m.Register(l, spec.name, spec.provider))
  {
    MembersEvolve(m, l, m.leases[l].members[spec.name := spec.provider]);
  }

  lemma AcquireAllEvolves(m: Manager, id: Id, specs: seq<Spec>, ended: bool)
    requires m.Ok()
    ensures Evolves(m, m.AcquireAll(id, specs, ended))
  {
    EnsureEvolves(m, id, ended);
    var e := m.Ensure(id, ended);
    MembersEvolve(e, e.current[id], AddMembers(e.leases[e.current[id]].members, specs));
    RetireEvolves(e, id);
  }

  lemma ManagerNext(s: State, step: Step)
    requires s.m.Ok()
    ensures Evolves(s.m, Next(s, step).m)
  {
    match step
    case Acquire(id, spec, ended) =>
      EnsureEvolves(s.m, id, ended);
      RegisterEvolves(s.m.Ensure(id, ended), s.m.Ensure(id, ended).current[id], spec);
    case AcquireAll(id, specs, ended) => AcquireAllEvolves(s.m, id, specs, ended);
    case Claim(id, spec) => if id in s.m.current { RegisterEvolves(s.m, s.m.current[id], spec); }
    case Release(r) => if r < |s.handles| { RemoveEvolves(s.m, s.handles[r].id, s.handles[r].spec.name, Some(s.handles[r].lease)); }
    case Delete(id, name, lease) => RemoveEvolves(s.m, id, name, lease);
    case Cancel(l) =>
  }

  lemma InvNext(s: State, step: Step)
    requires Inv(s)
    ensures Inv(Next(s, step))
  {
    ManagerNext(s, step);
    if step.AcquireAll? {
      EnsureOk(s.m, step.id, step.ended);
    }
  }

  function Init(): State { State(Manager(map[], []), []) }

  /** The state after further steps of a consistent one. */
  ghost function Exec(s: State, steps: seq<Step>): (s': State)
    requires Inv(s)
    ensures Inv(s')
    decreases |steps|
  {
    if steps == [] then s
    else
      var before := Exec(s, steps[..|steps| - 1]);
      InvNext(before, steps[|steps| - 1]);
      Next(before, steps[|steps| - 1])
  }

  // ---- Generation safety -----------------------------------------------------------------

  /** A lease object that was replaced or retired never becomes current again, and its members never change again. */
  lemma {:induction false} RetiredForGood(s: State, steps: seq<Step>, l: nat)
    requires Inv(s) && l < |s.m.leases| && !s.m.IsCurrent(l)
    ensures var s' := Exec(s, steps);
            l < |s'.m.leases| && !s'.m.IsCurrent(l) && s'.m.leases[l].members == s.m.leases[l].members && s'.m.leases[l].cancelled
    decreases |steps|
  {
    if steps == [] {
    } else {
      RetiredForGood(s, steps[..|steps| - 1], l);
      var before := Exec(s, steps[..|steps| - 1]);
      ManagerNext(before, steps[|steps| - 1]);
      OthersUntouched(before, steps[|steps| - 1], l);
    }
  }

  /** No step changes the members of a lease object that is not current. */
  lemma OthersUntouched(s: State, step: Step, l: nat)
    requires Inv(s) && l < |s.m.leases| && !s.m.IsCurrent(l)
    ensures l < |Next(s, step).m.leases| && Next(s, step).m.leases[l].members == s.m.leases[l].members
  {
    match step
    case Acquire(id, spec, ended) => EnsureOk(s.m, id, ended);
    case AcquireAll(id, specs, ended) => EnsureOk(s.m, id, ended);
    case Release(r) => if r < |s.handles| { RemovalExact(s.m, s.handles[r].id, s.handles[r].spec.name, Some(s.handles[r].lease)); }
    case Delete(id, name, lease) => RemovalExact(s.m, id, name, lease);
    case _ =>
  }

  /**
   A delayed release is harmless: once the lease object of a handle is no longer
   current, releasing the handle leaves every lease as it is, at any later time.
   */
  lemma StaleReleaseDoesNothing(s: State, steps: seq<Step>, r: nat)
    requires Inv(s) && r < |s.handles| && !s.m.IsCurrent(s.handles[r].lease)
    ensures var s' := Exec(s, steps); Next(s', Release(r)).m == s'.m
  {
    RetiredForGood(s, steps, s.handles[r].lease);
    HandlesKept(s, steps, r);
  }

  lemma HandleNext(s: State, step: Step, r: nat)
    requires Inv(s) && r < |s.handles|
    ensures var s' := Next(s, step);
            r < |s'.handles| && (s'.handles[r] == s.handles[r] || s'.handles[r] == s.handles[r].(released := true))
  {
  }

  lemma {:induction false} HandlesKept(s: State, steps: seq<Step>, r: nat)
    requires Inv(s) && r < |s.handles|
    ensures var s' := Exec(s, steps);
            && r < |s'.handles|
            && (s'.handles[r] == s.handles[r] || s'.handles[r] == s.handles[r].(released := true))
            && (s.handles[r].released ==> s'.handles[r].released)
    decreases |steps|
  {
    if steps == [] {
    } else {
      var before, last := Exec(s, steps[..|steps| - 1]), steps[|steps| - 1];
      HandlesKept(s, steps[..|steps| - 1], r);
      HandleNext(before, last, r);
    }
  }

  /** A handle acts at most once: after its release it changes nothing, at any later time. */
  lemma ReleaseOnce(s: State, r: nat, steps: seq<Step>)
    requires Inv(s) && r < |s.handles|
    ensures Inv(Next(s, Release(r)))
    ensures var s' := Exec(Next(s, Release(r)), steps); Next(s', Release(r)) == s'
  {
    InvNext(s, Release(r));
    HandlesKept(Next(s, Release(r)), steps, r);
  }

  /** A removal by a caller with the current lease takes out that member only, and retires the lease exactly when none is left. */
  lemma RemovalExact(m: Manager, id: Id, name: string, l: Option<nat>)
    requires m.Ok()
    ensures var m' := m.Remove(id, name, l);
            if id !in m.current || (l.Some? && l.value != m.current[id]) then m' == m
            else
              var c := m.current[id];
              && |m'.leases| == |m.leases| && m'.leases[c].members == m.leases[c].members - {name}
              && (forall k :: 0 <= k < |m.leases| && k != c ==> m'.leases[k] == m.leases[k])
              && (forall other :: other != id ==>
                    (other in m'.current <==> other in m.current) && (other in m.current ==> m'.current[other] == m.current[other]))
              && (id !in m'.current <==> m'.leases[c].members == map[])
              && (id !in m'.current ==> m'.leases[c].cancelled)
              && (id in m'.current ==> m'.current[id] == c && m'.leases[c].cancelled == m.leases[c].cancelled)
  {
  }

  /** What the release of a live owner's handle does while its lease is handed out. */
  ghost predicate TakenOut(m: Manager, m': Manager, l: nat, name: string)
    requires l < |m.leases|
  {
    var id := m.leases[l].id;
    && |m'.leases| == |m.leases| && m'.leases[l].members == m.leases[l].members - {name}
    && (forall k :: 0 <= k < |m.leases| && k != l ==> m'.leases[k] == m.leases[k])
    && (forall other :: other != id ==>
          (other in m'.current <==> other in m.current) && (other in m.current ==> m'.current[other] == m.current[other]))
    && (if m'.leases[l].members == map[] then id !in m'.current && m'.leases[l].cancelled
        else id in m'.current && m'.current[id] == l && m'.leases[l].cancelled == m.leases[l].cancelled)
  }

  /**
   Releasing an owned handle for the first time, while its lease object is current,
   takes exactly its name out of that object, touches no other lease, and retires the
   object if and only if no member is left.
   */
  lemma ReleaseTakesOut(s: State, r: nat)
    requires Inv(s) && r < |s.handles| && s.handles[r].owned && !s.handles[r].released && s.m.IsCurrent(s.handles[r].lease)
    ensures var s', h := Next(s, Release(r)), s.handles[r];
            TakenOut(s.m, s'.m, h.lease, h.spec.name) && s'.handles == s.handles[r := h.(released := true)]
  {
    var h := s.handles[r];
    RemovalExact(s.m, h.id, h.spec.name, Some(h.lease));
  }

  /** The step registers the name under the ID. */
  ghost predicate Registers(step: Step, id: Id, name: string)
  {
    match step
    case Acquire(i, spec, _) => i == id && spec.name == name
    case AcquireAll(i, specs, _) => i == id && Specified(specs, name)
    case Claim(i, spec) => i == id && spec.name == name
    case _ => false
  }

  lemma AbsentNext(s: State, step: Step, l: nat, name: string)
    requires Inv(s) && l < |s.m.leases| && name !in s.m.leases[l].members && !Registers(step, s.m.leases[l].id, name)
    ensures var s' := Next(s, step); l < |s'.m.leases| && name !in s'.m.leases[l].members && s'.m.leases[l].id == s.m.leases[l].id
  {
    ManagerNext(s, step);
    match step {
      case Acquire(id, spec, ended) => AcquireRegisters(s, id, spec, ended);
      case AcquireAll(id, specs, ended) => AbsentBatch(s, id, specs, ended, l, name);
      case Claim(id, spec) => if id in s.m.current { ClaimRegisters(s, id, spec); }
      case Release(r) => if r < |s.handles| { RemovalExact(s.m, s.handles[r].id, s.handles[r].spec.name, Some(s.handles[r].lease)); }
      case Delete(id, n, lease) => RemovalExact(s.m, id, n, lease);
      case Cancel(_) =>
    }
  }

  lemma AbsentBatch(s: State, id: Id, specs: seq<Spec>, ended: bool, l: nat, name: string)
    requires Inv(s) && l < |s.m.leases| && name !in s.m.leases[l].members && !(s.m.leases[l].id == id && Specified(specs, name))
    ensures var s' := Next(s, AcquireAll(id, specs, ended)); l < |s'.m.leases| && name !in s'.m.leases[l].members
  {
    EnsureOk(s.m, id, ended);
    var m := s.m.Ensure(id, ended);
    if Acceptable(m.leases[m.current[id]].members, specs) {
      AddedMembers(m.leases[m.current[id]].members, specs);
    }
  }

  lemma {:induction false} AbsentUntilRegistered(s: State, steps: seq<Step>, l: nat, name: string)
    requires Inv(s) && l < |s.m.leases| && name !in s.m.leases[l].members
    requires forall step :: step in steps ==> !Registers(step, s.m.leases[l].id, name)
    ensures var s' := Exec(s, steps); l < |s'.m.leases| && name !in s'.m.leases[l].members && s'.m.leases[l].id == s.m.leases[l].id
    decreases |steps|
  {
    if steps == [] {
    } else {
      AbsentUntilRegistered(s, steps[..|steps| - 1], l, name);
      AbsentNext(Exec(s, steps[..|steps| - 1]), steps[|steps| - 1], l, name);
    }
  }

  /** A released member is gone for good: its lease has no member of that name until a later registration of it. */
  lemma ReleasedUntilRegistered(s: State, r: nat, steps: seq<Step>)
    requires Inv(s) && r < |s.handles| && s.handles[r].owned && !s.handles[r].released && s.m.IsCurrent(s.handles[r].lease)
    requires forall step :: step in steps ==> !Registers(step, s.handles[r].id, s.handles[r].spec.name)
    ensures Inv(Next(s, Release(r)))
    ensures var s', h := Exec(Next(s, Release(r)), steps), s.handles[r];
            h.lease < |s'.m.leases| && h.spec.name !in s'.m.leases[h.lease].members
  {
    InvNext(s, Release(r));
    ReleaseTakesOut(s, r);
    ManagerNext(s, Release(r));
    AbsentUntilRegistered(Next(s, Release(r)), steps, s.handles[r].lease, s.handles[r].spec.name);
  }

  /** The lease handed out for an ID is the registered one while it lives, and otherwise a new one without members. */
  lemma HandedOut(m: Manager, id: Id, ended: bool)
    requires m.Ok()
    ensures var m' := m.Ensure(id, ended);
            if id in m.current && !m.leases[m.current[id]].cancelled then m' == m
            else m'.leases == m.leases + [Lease(id, map[], ended)] && m'.current == m.current[id := |m.leases|]
  {
  }

  /** A cancelled lease is never handed out again: the next acquisition makes a new one. */
  lemma CancelledIsReplaced(s: State, id: Id, spec: Spec)
    requires Inv(s) && id in s.m.current
    ensures var s1 := Next(s, Cancel(s.m.current[id]));
            var s2 := Next(s1, Acquire(id, spec, false));
            && s1.m.leases[s.m.current[id]].cancelled && s1.handles == s.handles
            && s2.m.current[id] == |s.m.leases| && |s2.m.leases| == |s.m.leases| + 1
            && s2.m.leases[|s.m.leases|] == Lease(id, map[spec.name := spec.provider], false)
            && forall l :: 0 <= l < |s.m.leases| ==> s2.m.leases[l].members == s.m.leases[l].members
  {
  }

  /** An acquisition ends with the name a member of the ID's lease; a name that was there keeps its provider, and nothing else changes. */
  lemma AcquireRegisters(s: State, id: Id, spec: Spec, ended: bool)
    requires Inv(s)
    ensures var s', m := Next(s, Acquire(id, spec, ended)), s.m.Ensure(id, ended);
            var l := m.current[id];
            && s'.handles == s.handles && s'.m.current == m.current && id in m.current && l < |m.leases|
            && s'.m.leases == m.leases[l := m.leases[l].(members := s'.m.leases[l].members)]
            && s'.m.leases[l].members
               == if spec.name in m.leases[l].members then m.leases[l].members else m.leases[l].members[spec.name := spec.provider]
  {
    EnsureOk(s.m, id, ended);
  }

  /** A batch of new, distinct and non-empty names is always registered as a whole, with a live owner's handle for each. */
  lemma BatchRegisters(s: State, id: Id, specs: seq<Spec>, ended: bool)
    requires Inv(s)
    requires forall i :: 0 <= i < |specs| ==>
               specs[i].name != "" && (id in s.m.current && !s.m.leases[s.m.current[id]].cancelled ==>
                                         specs[i].name !in s.m.leases[s.m.current[id]].members)
    requires forall i, j :: 0 <= i < j < |specs| ==> specs[i].name != specs[j].name
    ensures var s', m := Next(s, AcquireAll(id, specs, ended)), s.m.Ensure(id, ended);
            var l := m.current[id];
            && s'.m.current == m.current && l < |m.leases| == |s'.m.leases|
            && (forall k :: 0 <= k < |m.leases| && k != l ==> s'.m.leases[k] == m.leases[k])
            && (forall n :: n in s'.m.leases[l].members <==> n in m.leases[l].members || Specified(specs, n))
            && |s'.handles| == |s.handles| + |specs| && s'.handles[..|s.handles|] == s.handles
            && (forall i :: 0 <= i < |specs| ==>
                  s'.handles[|s.handles| + i] == Registration(id, specs[i], l, true, false)
                  && specs[i].name in s'.m.leases[l].members && s'.m.leases[l].members[specs[i].name] == specs[i].provider)
  {
    EnsureOk(s.m, id, ended);
    HandedOut(s.m, id, ended);
    var m := s.m.Ensure(id, ended);
    AddedMembers(m.leases[m.current[id]].members, specs);
  }

  /** A claim on a registered lease makes the name a member and owns it exactly when it was not one. */
  lemma ClaimRegisters(s: State, id: Id, spec: Spec)
    requires Inv(s) && id in s.m.current
    ensures var s', l := Next(s, Claim(id, spec)), s.m.current[id];
            && s'.m.current == s.m.current && |s'.m.leases| == |s.m.leases|
            && (forall k :: 0 <= k < |s.m.leases| && k != l ==> s'.m.leases[k] == s.m.leases[k])
            && spec.name in s'.m.leases[l].members
            && (spec.name !in s.m.leases[l].members ==> s'.m.leases[l].members == s.m.leases[l].members[spec.name := spec.provider])
            && s'.handles == s.handles + [Registration(id, spec, l, spec.name !in s.m.leases[l].members, false)]
  {
  }

  /** A failed batch leaves no member behind: every lease keeps its members, and a lease made for it is retired. */
  lemma FailedBatchLeavesNothing(s: State, id: Id, specs: seq<Spec>, ended: bool)
    requires Inv(s)
    requires var m := s.m.Ensure(id, ended); !Acceptable(m.leases[m.current[id]].members, specs)
    ensures var s' := Next(s, AcquireAll(id, specs, ended));
            && s'.handles == s.handles
            && (forall l :: 0 <= l < |s.m.leases| ==> s'.m.leases[l].members == s.m.leases[l].members)
            && (forall l :: |s.m.leases| <= l < |s'.m.leases| ==> s'.m.leases[l].members == map[] && s'.m.leases[l].cancelled)
            && (id in s'.m.current ==> id in s.m.current && s'.m.current[id] == s.m.current[id])
  {
    EnsureOk(s.m, id, ended);
  }

  ghost predicate Specified(specs: seq<Spec>, n: string)
  {
    exists i :: 0 <= i < |specs| && specs[i].name == n
  }

  lemma SpecifiedFirst(specs: seq<Spec>, n: string)
    requires specs != []
    ensures Specified(specs, n) <==> n == specs[0].name || Specified(specs[1..], n)
  {
    if Specified(specs[1..], n) {
      var i :| 0 <= i < |specs[1..]| && specs[1..][i].name == n;
      assert specs[i + 1].name == n;
    }
    if Specified(specs, n) {
      var i :| 0 <= i < |specs| && specs[i].name == n;
      assert i > 0 ==> specs[1..][i - 1].name == n;
    }
  }

  lemma {:induction false} AddedMembers(members: map<string, Provider>, specs: seq<Spec>)
    requires forall i, j :: 0 <= i < j < |specs| ==> specs[i].name != specs[j].name
    ensures var added := AddMembers(members, specs);
            && (forall n :: n in added <==> n in members || Specified(specs, n))
            && (forall i :: 0 <= i < |specs| ==> specs[i].name in added && added[specs[i].name] == specs[i].provider)
            && (forall n :: n in members && !Specified(specs, n) ==> n in added && added[n] == members[n])
    decreases |specs|
  {
    if specs == [] {
    } else {
      var next := members[specs[0].name := specs[0].provider];
      AddedMembers(next, specs[1..]);
      assert forall i :: 0 < i < |specs| ==> specs[i] == specs[1..][i - 1];
      forall n { SpecifiedFirst(specs, n); }
      assert specs[0].name in next && !Specified(specs[1..], specs[0].name);
    }
  }

  // ---- Ownership ---------------------------------------------------------------------------

  ghost predicate Owns(h: Registration, l: nat, name: string)
  {
    h.owned && !h.released && h.lease == l && h.spec.name == name
  }

  /** A live owner is a member, with its own provider, of the lease object it registered on. */
  ghost predicate Backed(m: Manager, h: Registration)
    requires h.lease < |m.leases|
  {
    h.owned && !h.released ==>
      h.spec.name in m.leases[h.lease].members && m.leases[h.lease].members[h.spec.name] == h.spec.provider
  }

  ghost predicate SameMember(g: Registration, h: Registration)
  {
    g.owned && !g.released && h.owned && !h.released && g.lease == h.lease && g.spec.name == h.spec.name
  }

  /** Every live owner is backed by its membership, and no membership has two live owners. */
  ghost predicate OwnersOk(s: State)
    requires Inv(s)
  {
    && (forall r :: 0 <= r < |s.handles| ==> Backed(s.m, s.handles[r]))
    && (forall q, r :: 0 <= q < r < |s.handles| ==> !SameMember(s.handles[q], s.handles[r]))
  }

  /** Deleting by name bypasses the handles: this is when it takes nobody's membership. */
  ghost predicate Disciplined(s: State, step: Step)
  {
    step.Delete? && s.m.Fresh(step.id, step.lease) ==>
      forall r :: 0 <= r < |s.handles| ==> !Owns(s.handles[r], s.m.current[step.id], step.name)
  }

  /** No member of any lease object is dropped or changed. */
  ghost predicate MembersKept(m: Manager, m': Manager)
  {
    && |m.leases| <= |m'.leases|
    && forall l, n :: 0 <= l < |m.leases| && n in m.leases[l].members ==>
         n in m'.leases[l].members && m'.leases[l].members[n] == m.leases[l].members[n]
  }

  lemma KeptBacks(m: Manager, m': Manager, h: Registration)
    requires h.lease < |m.leases| && MembersKept(m, m') && Backed(m, h)
    ensures Backed(m', h)
  {
  }

  lemma AcquireKeeps(s: State, id: Id, spec: Spec, ended: bool)
    requires Inv(s)
    ensures MembersKept(s.m, Next(s, Acquire(id, spec, ended)).m)
  {
    EnsureOk(s.m, id, ended);
  }

  lemma AcquireAllKeeps(s: State, id: Id, specs: seq<Spec>, ended: bool)
    requires Inv(s)
    ensures MembersKept(s.m, Next(s, AcquireAll(id, specs, ended)).m)
  {
    EnsureOk(s.m, id, ended);
    var m := s.m.Ensure(id, ended);
    if Acceptable(m.leases[m.current[id]].members, specs) {
      AddedMembers(m.leases[m.current[id]].members, specs);
    }
  }

  lemma AcquireAllOwners(s: State, id: Id, specs: seq<Spec>, ended: bool)
    requires Inv(s) && OwnersOk(s)
    ensures Inv(Next(s, AcquireAll(id, specs, ended))) && OwnersOk(Next(s, AcquireAll(id, specs, ended)))
  {
    InvNext(s, AcquireAll(id, specs, ended));
    var s' := Next(s, AcquireAll(id, specs, ended));
    EnsureOk(s.m, id, ended);
    var m := s.m.Ensure(id, ended);
    var l := m.current[id];
    if Acceptable(m.leases[l].members, specs) {
      AddedMembers(m.leases[l].members, specs);
    }
    AcquireAllKeeps(s, id, specs, ended);
    forall r | 0 <= r < |s.handles| ensures Backed(s'.m, s.handles[r]) {
      KeptBacks(s.m, s'.m, s.handles[r]);
    }
    forall q, r | 0 <= q < |s.handles| <= r < |s'.handles| ensures !SameMember(s'.handles[q], s'.handles[r]) {
      assert Backed(s.m, s.handles[q]);
    }
  }

  lemma ClaimOwners(s: State, id: Id, spec: Spec)
    requires Inv(s) && OwnersOk(s)
    ensures Inv(Next(s, Claim(id, spec))) && OwnersOk(Next(s, Claim(id, spec)))
  {
    InvNext(s, Claim(id, spec));
    var s' := Next(s, Claim(id, spec));
    if id in s.m.current {
      forall r | 0 <= r < |s.handles| ensures Backed(s'.m, s.handles[r]) && !SameMember(s.handles[r], s'.handles[|s.handles|]) {
        KeptBacks(s.m, s'.m, s.handles[r]);
      }
    }
  }

  /** Removing a member keeps every live owner of another member backed. */
  lemma RemoveBacks(m: Manager, id: Id, name: string, l: Option<nat>, h: Registration)
    requires m.Ok() && h.lease < |m.leases| && Backed(m, h)
    ensures |m.Remove(id, name, l).leases| == |m.leases|
    ensures Backed(m.Remove(id, name, l), h) <==> (m.Fresh(id, l) ==> !Owns(h, m.current[id], name))
  {
    RemovalExact(m, id, name, l);
  }

  lemma ReleaseOwners(s: State, r: nat)
    requires Inv(s) && OwnersOk(s)
    ensures Inv(Next(s, Release(r))) && OwnersOk(Next(s, Release(r)))
  {
    InvNext(s, Release(r));
    var s' := Next(s, Release(r));
    if s' != s {
      var h := s.handles[r];
      forall q | 0 <= q < |s.handles| ensures Backed(s'.m, s'.handles[q]) {
        if q != r {
          assert !SameMember(s.handles[q], h) by { assert q < r ==> !SameMember(s.handles[q], h); assert r < q ==> !SameMember(h, s.handles[q]); }
          RemoveBacks(s.m, h.id, h.spec.name, Some(h.lease), s.handles[q]);
        }
      }
    }
  }

  /** A deletion by name keeps every live owner a member if and only if no live handle owns that name. */
  lemma DeleteExact(s: State, id: Id, name: string, lease: Option<nat>)
    requires Inv(s) && OwnersOk(s)
    ensures Inv(Next(s, Delete(id, name, lease)))
    ensures OwnersOk(Next(s, Delete(id, name, lease))) <==> Disciplined(s, Delete(id, name, lease))
  {
    var s' := Next(s, Delete(id, name, lease));
    InvNext(s, Delete(id, name, lease));
    forall r | 0 <= r < |s.handles|
      ensures Backed(s'.m, s.handles[r]) <==> (s.m.Fresh(id, lease) ==> !Owns(s.handles[r], s.m.current[id], name))
    {
      RemoveBacks(s.m, id, name, lease, s.handles[r]);
    }
    if OwnersOk(s') && s.m.Fresh(id, lease) {
      assert forall r :: 0 <= r < |s.handles| ==> Backed(s'.m, s'.handles[r]);
    }
  }

  /** The live owners on the leases that are still handed out are members, and no membership there has two. */
  ghost predicate CurrentOwnersOk(s: State)
    requires Inv(s)
  {
    && (forall r :: 0 <= r < |s.handles| ==> BackedNow(s.m, s.handles[r]))
    && (forall q, r :: 0 <= q < r < |s.handles| ==> !SameNow(s.m, s.handles[q], s.handles[r]))
  }

  ghost predicate BackedNow(m: Manager, h: Registration)
    requires h.lease < |m.leases|
  {
    m.IsCurrent(h.lease) ==> Backed(m, h)
  }

  ghost predicate SameNow(m: Manager, g: Registration, h: Registration)
  {
    m.IsCurrent(g.lease) && SameMember(g, h)
  }

  /** The deletion retires the lease, or takes nobody's membership. */
  ghost predicate Harmless(s: State, step: Step)
    requires Inv(s)
  {
    step.Delete? ==> s.m.Retires(step.id, step.name, step.lease) || Disciplined(s, step)
  }

  /** On the leases that are current afterwards it does so if and only if it retires the lease or nobody owns the name. */
  lemma DeleteExactCurrent(s: State, id: Id, name: string, lease: Option<nat>)
    requires Inv(s) && CurrentOwnersOk(s)
    ensures Inv(Next(s, Delete(id, name, lease)))
    ensures CurrentOwnersOk(Next(s, Delete(id, name, lease))) <==> Harmless(s, Delete(id, name, lease))
  {
    var s' := Next(s, Delete(id, name, lease));
    InvNext(s, Delete(id, name, lease));
    forall r | 0 <= r < |s.handles|
      ensures BackedNow(s'.m, s.handles[r])
              <==> s.m.Retires(id, name, lease) || (s.m.Fresh(id, lease) ==> !Owns(s.handles[r], s.m.current[id], name))
    {
      RemoveBacksNow(s.m, id, name, lease, s.handles[r]);
    }
    forall q, r | 0 <= q < r < |s.handles| ensures !SameNow(s'.m, s'.handles[q], s'.handles[r]) {
      RemoveEvolves(s.m, id, name, lease);
      assert !SameNow(s.m, s.handles[q], s.handles[r]);
    }
    if CurrentOwnersOk(s') && s.m.Fresh(id, lease) {
      assert forall r :: 0 <= r < |s.handles| ==> BackedNow(s'.m, s'.handles[r]);
    }
  }

  lemma RemoveBacksNow(m: Manager, id: Id, name: string, l: Option<nat>, h: Registration)
    requires m.Ok() && h.lease < |m.leases| && BackedNow(m, h)
    ensures |m.Remove(id, name, l).leases| == |m.leases|
    ensures BackedNow(m.Remove(id, name, l), h) <==> m.Retires(id, name, l) || (m.Fresh(id, l) ==> !Owns(h, m.current[id], name))
  {
    RemovalExact(m, id, name, l);
    RemoveEvolves(m, id, name, l);
  }

  /** A registry that keeps all members keeps the current owners. */
  lemma KeptBacksNow(m: Manager, m': Manager, h: Registration)
    requires h.lease < |m.leases| && MembersKept(m, m') && Evolves(m, m') && BackedNow(m, h)
    ensures BackedNow(m', h)
  {
    if m'.IsCurrent(h.lease) {
      KeptBacks(m, m', h);
    }
  }

  lemma CurrentKept(s: State, s': State)
    requires Inv(s) && CurrentOwnersOk(s) && Inv(s') && s'.handles == s.handles && MembersKept(s.m, s'.m) && Evolves(s.m, s'.m)
    ensures CurrentOwnersOk(s')
  {
    forall r | 0 <= r < |s.handles| ensures BackedNow(s'.m, s'.handles[r]) {
      KeptBacksNow(s.m, s'.m, s.handles[r]);
    }
    forall q, r | 0 <= q < r < |s.handles| ensures !SameNow(s'.m, s'.handles[q], s'.handles[r]) {
      assert !SameNow(s.m, s.handles[q], s.handles[r]);
    }
  }

  lemma AcquireAllCurrent(s: State, id: Id, specs: seq<Spec>, ended: bool)
    requires Inv(s) && CurrentOwnersOk(s)
    ensures Inv(Next(s, AcquireAll(id, specs, ended))) && CurrentOwnersOk(Next(s, AcquireAll(id, specs, ended)))
  {
    InvNext(s, AcquireAll(id, specs, ended));
    ManagerNext(s, AcquireAll(id, specs, ended));
    AcquireAllKeeps(s, id, specs, ended);
    var s' := Next(s, AcquireAll(id, specs, ended));
    EnsureOk(s.m, id, ended);
    var m := s.m.Ensure(id, ended);
    var l := m.current[id];
    if Acceptable(m.leases[l].members, specs) {
      AddedMembers(m.leases[l].members, specs);
      NewHandlesCurrent(s, s', l, specs);
    } else {
      CurrentKept(s, s');
    }
  }

  /** New members of one lease, with handles of their own, collide with nobody. */
  lemma NewHandlesCurrent(s: State, s': State, l: nat, specs: seq<Spec>)
    requires Inv(s) && CurrentOwnersOk(s) && Inv(s') && MembersKept(s.m, s'.m) && Evolves(s.m, s'.m) && l < |s'.m.leases|
    requires |s'.handles| == |s.handles| + |specs| && s.handles <= s'.handles
    requires forall r :: |s.handles| <= r < |s'.handles| ==>
               s'.handles[r].lease == l && s'.handles[r].spec == specs[r - |s.handles|] && Backed(s'.m, s'.handles[r])
    requires forall i :: 0 <= i < |specs| && l < |s.m.leases| ==> specs[i].name !in s.m.leases[l].members
    requires forall i, j :: 0 <= i < j < |specs| ==> specs[i].name != specs[j].name
    ensures CurrentOwnersOk(s')
  {
    forall r | 0 <= r < |s'.handles| ensures BackedNow(s'.m, s'.handles[r]) {
      if r < |s.handles| {
        assert s'.handles[r] == s.handles[r];
        KeptBacksNow(s.m, s'.m, s.handles[r]);
      }
    }
    forall q, r | 0 <= q < r < |s'.handles| ensures !SameNow(s'.m, s'.handles[q], s'.handles[r]) {
      if q < |s.handles| {
        assert s'.handles[q] == s.handles[q];
        if r < |s.handles| {
          assert s'.handles[r] == s.handles[r] && !SameNow(s.m, s.handles[q], s.handles[r]);
        } else {
          assert BackedNow(s.m, s.handles[q]) && s'.handles[r].spec == specs[r - |s.handles|];
        }
      }
    }
  }

  lemma ClaimCurrent(s: State, id: Id, spec: Spec)
    requires Inv(s) && CurrentOwnersOk(s)
    ensures Inv(Next(s, Claim(id, spec))) && CurrentOwnersOk(Next(s, Claim(id, spec)))
  {
    InvNext(s, Claim(id, spec));
    ManagerNext(s, Claim(id, spec));
    var s' := Next(s, Claim(id, spec));
    if id in s.m.current {
      forall r | 0 <= r < |s.handles|
        ensures BackedNow(s'.m, s.handles[r]) && !SameNow(s'.m, s.handles[r], s'.handles[|s.handles|])
      {
        KeptBacksNow(s.m, s'.m, s.handles[r]);
      }
      forall q, r | 0 <= q < r < |s.handles| ensures !SameNow(s'.m, s'.handles[q], s'.handles[r]) {
        assert !SameNow(s.m, s.handles[q], s.handles[r]);
      }
    }
  }

  lemma ReleaseCurrent(s: State, r: nat)
    requires Inv(s) && CurrentOwnersOk(s)
    ensures Inv(Next(s, Release(r))) && CurrentOwnersOk(Next(s, Release(r)))
  {
    InvNext(s, Release(r));
    var s' := Next(s, Release(r));
    if s' != s {
      var h := s.handles[r];
      RemoveEvolves(s.m, h.id, h.spec.name, Some(h.lease));
      forall q | 0 <= q < |s.handles| ensures BackedNow(s'.m, s'.handles[q]) {
        if q != r {
          assert !SameNow(s.m, s.handles[if q < r then q else r], s.handles[if q < r then r else q]);
          RemoveBacksNow(s.m, h.id, h.spec.name, Some(h.lease), s.handles[q]);
        }
      }
      forall p, q | 0 <= p < q < |s.handles| ensures !SameNow(s'.m, s'.handles[p], s'.handles[q]) {
        assert !SameNow(s.m, s.handles[p], s.handles[q]);
      }
    }
  }

  /** One step keeps the owners on current leases if and only if it is harmless. */
  lemma CurrentStepExact(s: State, step: Step)
    requires Inv(s) && CurrentOwnersOk(s)
    ensures Inv(Next(s, step)) && (CurrentOwnersOk(Next(s, step)) <==> Harmless(s, step))
  {
    InvNext(s, step);
    ManagerNext(s, step);
    match step {
      case Acquire(id, spec, ended) =>
        AcquireKeeps(s, id, spec, ended);
        CurrentKept(s, Next(s, step));
      case AcquireAll(id, specs, ended) => AcquireAllCurrent(s, id, specs, ended);
      case Claim(id, spec) => ClaimCurrent(s, id, spec);
      case Release(r) => ReleaseCurrent(s, r);
      case Delete(id, name, lease) => DeleteExactCurrent(s, id, name, lease);
      case Cancel(l) => CurrentKept(s, Next(s, step));
    }
  }

  ghost predicate HarmlessRun(steps: seq<Step>)
    decreases |steps|
  {
    steps == [] || (HarmlessRun(steps[..|steps| - 1]) && Harmless(Exec(Init(), steps[..|steps| - 1]), steps[|steps| - 1]))
  }

  /** The owners on the current leases are members after every prefix of the run. */
  ghost predicate CurrentAlwaysOk(steps: seq<Step>)
    decreases |steps|
  {
    CurrentOwnersOk(Exec(Init(), steps)) && (steps == [] || CurrentAlwaysOk(steps[..|steps| - 1]))
  }

  /** Over whole runs: the owners on current leases stay members all along if and only if every deletion by name is harmless. */
  lemma {:induction false} CurrentOwnersExact(steps: seq<Step>)
    ensures CurrentAlwaysOk(steps) <==> HarmlessRun(steps)
    decreases |steps|
  {
    if steps == [] {
      assert CurrentOwnersOk(Init());
    } else {
      var shorter := steps[..|steps| - 1];
      CurrentOwnersExact(shorter);
      if CurrentAlwaysOk(shorter) {
        CurrentStepExact(Exec(Init(), shorter), steps[|steps| - 1]);
      }
    }
  }

  lemma OwnersNext(s: State, step: Step)
    requires Inv(s) && OwnersOk(s) && Disciplined(s, step)
    ensures Inv(Next(s, step)) && OwnersOk(Next(s, step))
  {
    InvNext(s, step);
    match step
    case Acquire(id, spec, ended) =>
      AcquireKeeps(s, id, spec, ended);
      forall r | 0 <= r < |s.handles| ensures Backed(Next(s, step).m, s.handles[r]) { KeptBacks(s.m, Next(s, step).m, s.handles[r]); }
    case AcquireAll(id, specs, ended) => AcquireAllOwners(s, id, specs, ended);
    case Claim(id, spec) => ClaimOwners(s, id, spec);
    case Release(r) => ReleaseOwners(s, r);
    case Delete(id, name, lease) => DeleteExact(s, id, name, lease);
    case Cancel(l) =>
      forall r | 0 <= r < |s.handles| ensures Backed(Next(s, step).m, s.handles[r]) { KeptBacks(s.m, Next(s, step).m, s.handles[r]); }
  }

  ghost predicate DisciplinedRun(steps: seq<Step>)
    decreases |steps|
  {
    steps == [] || (DisciplinedRun(steps[..|steps| - 1]) && Disciplined(Exec(Init(), steps[..|steps| - 1]), steps[|steps| - 1]))
  }

  /**
   Registrations over every run: a live owner stays a member, with its own VIP
   provider, of the lease object it registered on, even after that was replaced.
   */
  lemma {:induction false} OwnersSafe(steps: seq<Step>)
    requires DisciplinedRun(steps)
    ensures OwnersOk(Exec(Init(), steps))
    decreases |steps|
  {
    if steps == [] {
    } else {
      OwnersSafe(steps[..|steps| - 1]);
      OwnersNext(Exec(Init(), steps[..|steps| - 1]), steps[|steps| - 1]);
    }
  }

  /** The owners are backed after every prefix of the run. */
  ghost predicate OwnersAlwaysOk(steps: seq<Step>)
    decreases |steps|
  {
    OwnersOk(Exec(Init(), steps)) && (steps == [] || OwnersAlwaysOk(steps[..|steps| - 1]))
  }

  /** The discipline is exact: the owners are backed all along a run if and only if the run is disciplined. */
  lemma {:induction false} OwnersExact(steps: seq<Step>)
    ensures OwnersAlwaysOk(steps) <==> DisciplinedRun(steps)
    decreases |steps|
  {
    if steps == [] {
      assert OwnersOk(Init());
    } else {
      var shorter := steps[..|steps| - 1];
      OwnersExact(shorter);
      if OwnersAlwaysOk(shorter) {
        LastStepExact(Exec(Init(), shorter), steps[|steps| - 1]);
      }
    }
  }

  lemma LastStepExact(s: State, step: Step)
    requires Inv(s) && OwnersOk(s)
    ensures Inv(Next(s, step)) && (OwnersOk(Next(s, step)) <==> Disciplined(s, step))
  {
    if step.Delete? {
      DeleteExact(s, step.id, step.name, step.lease);
    } else {
      OwnersNext(s, step);
    }
  }

  /** A duplicate claim never evicts the original: it changes no lease, and releasing its handle does nothing. */
  lemma DuplicateClaimDoesNothing(s: State, id: Id, spec: Spec)
    requires Inv(s) && id in s.m.current && spec.name in s.m.leases[s.m.current[id]].members
    ensures var s' := Next(s, Claim(id, spec));
            s'.m == s.m && |s'.handles| == |s.handles| + 1 && Next(s', Release(|s.handles|)) == s'
  {
  }

  lemma ExecAppend(s: State, steps: seq<Step>, step: Step)
    requires Inv(s)
    ensures Exec(s, steps + [step]) == Next(Exec(s, steps), step)
  {
    assert (steps + [step])[..|steps|] == steps;
  }

  /**
   The discipline is needed: with two members on a lease, acquiring a name somebody owns
   and deleting it by name leaves the owner's lease current and the owner without membership.
   */
  lemma DeleteByNameEvicts(id: Id, spec: Spec, other: Spec, provider: Provider)
    requires spec.name != "" && other.name != "" && spec.name != other.name
    ensures var steps := [AcquireAll(id, [spec, other], false)] + [Acquire(id, Spec(spec.name, provider), false)] + [Delete(id, spec.name, Some(0))];
            var s := Exec(Init(), steps);
            && |s.handles| == 2 && Owns(s.handles[0], 0, spec.name) && spec.name !in s.m.leases[0].members
            && s.m.IsCurrent(0) && !OwnersOk(s) && !CurrentOwnersOk(s)
  {
    var batch, again, delete := AcquireAll(id, [spec, other], false), Acquire(id, Spec(spec.name, provider), false), Delete(id, spec.name, Some(0));
    var members := map[spec.name := spec.provider, other.name := other.provider];
    assert [spec, other][1..] == [other] && [other][1..] == [];
    assert AddMembers(map[spec.name := spec.provider], [other]) == members;
    assert [] + [batch] == [batch];
    ExecAppend(Init(), [], batch);
    var s1 := Exec(Init(), [batch]);
    assert s1 == State(Manager(map[id := 0], [Lease(id, members, false)]), Handles(id, [spec, other], 0));
    ExecAppend(Init(), [batch], again);
    assert Exec(Init(), [batch] + [again]) == s1;
    ExecAppend(Init(), [batch] + [again], delete);
    var s := Exec(Init(), [batch] + [again] + [delete]);
    assert other.name in members - {spec.name} && spec.name !in members - {spec.name};
    assert s.m == Manager(map[id := 0], [Lease(id, members - {spec.name}, false)]);
    assert !Backed(s.m, s.handles[0]) && !BackedNow(s.m, s.handles[0]);
  }

  // ---- The manager's own code -----------------------------------------------------------------

  class LeaseManager {
    var current: map<Id, nat>
    var leases: seq<Lease>

    ghost function View(): Manager
      reads this
    {
      Manager(current, leases)
    }

    constructor ()
      ensures View() == Init().m && View().Ok()
    {
      current, leases := map[], [];
    }

    method AddLocked(id: Id, ended: bool) returns (l: nat)
      requires View().Ok()
      modifies this
      ensures View() == old(View()).Ensure(id, ended) && View().Ok()
      ensures id in current && current[id] == l && l < |leases| && (leases[l].cancelled ==> ended)
    {
      EnsureOk(View(), id, ended);
      if id !in current || leases[current[id]].cancelled {
        leases := leases + [Lease(id, map[], ended)];
        current := current[id := |leases| - 1];
      }
      l := current[id];
    }

    method AddWithVIPProvider(l: nat, spec: Spec) returns (added: bool)
      requires View().Ok() && l < |leases|
      modifies this`leases
      ensures View() == old(View()).Register(l, spec.name, spec.provider) && View().Ok()
      ensures added == (spec.name !in old(leases)[l].members)
    {
      RegisterEvolves(View(), l, spec);
      if spec.name in leases[l].members {
        return false;
      }
      leases := leases[l := leases[l].(members := leases[l].members[spec.name := spec.provider])];
      return true;
    }

    method Acquire(id: Id, spec: Spec, ended: bool) returns (l: nat, added: bool)
      requires View().Ok()
      modifies this
      ensures View() == Next(State(old(View()), []), Step.Acquire(id, spec, ended)).m && View().Ok()
      ensures id in current && current[id] == l < |leases|
      ensures added == (spec.name !in old(View()).Ensure(id, ended).leases[l].members)
    {
      l := AddLocked(id, ended);
      added := AddWithVIPProvider(l, spec);
    }

    /** The batch check and registration on one lease: all of it or nothing. */
    method AddAll(l: nat, specs: seq<Spec>) returns (ok: bool)
      requires View().Ok() && l < |leases|
      modifies this`leases
      ensures ok == Acceptable(old(leases)[l].members, specs)
      ensures View() == if ok then old(View()).WithMembers(l, AddMembers(old(leases)[l].members, specs)) else old(View())
      ensures View().Ok()
    {
      MembersEvolve(View(), l, AddMembers(leases[l].members, specs));
      var seen: set<string> := {};
      for i := 0 to |specs|
        invariant leases == old(leases)
        invariant forall n :: n in seen <==> exists k :: 0 <= k < i && specs[k].name == n
        invariant Acceptable(leases[l].members, specs[..i])
      {
        var name := specs[i].name;
        AcceptableStep(leases[l].members, specs, i);
        if name == "" || name in seen || name in leases[l].members {
          PrefixAcceptable(leases[l].members, specs, i + 1);
          return false;
        }
        seen := seen + {name};
      }
      assert specs[..|specs|] == specs;
      for i := 0 to |specs|
        invariant |leases| == |old(leases)| && l < |leases|
        invariant leases == old(leases)[l := old(leases)[l].(members := leases[l].members)]
        invariant AddMembers(leases[l].members, specs[i..]) == AddMembers(old(leases)[l].members, specs)
      {
        leases := leases[l := leases[l].(members := leases[l].members[specs[i].name := specs[i].provider])];
        assert specs[i..][0] == specs[i] && specs[i..][1..] == specs[i + 1..];
      }
      return true;
    }

    method AcquireRegistrations(id: Id, specs: seq<Spec>, ended: bool) returns (registered: Option<nat>)
      requires View().Ok()
      modifies this
      ensures View() == old(View()).AcquireAll(id, specs, ended) && View().Ok()
      ensures var m := old(View()).Ensure(id, ended);
              registered == if Acceptable(m.leases[m.current[id]].members, specs) then Some(m.current[id]) else None
    {
      AcquireAllEvolves(View(), id, specs, ended);
      var l := AddLocked(id, ended);
      var ok := AddAll(l, specs);
      if !ok {
        if |leases[l].members| == 0 {
          current := current - {id};
          leases := leases[l := leases[l].(cancelled := true)];
        }
        return None;
      }
      return Some(l);
    }

    method Delete(id: Id, name: string, l: Option<nat>) returns (retired: bool)
      requires View().Ok()
      modifies this
      ensures View() == old(View()).Remove(id, name, l) && View().Ok()
      ensures retired <==> id in old(current) && id !in current
    {
      RemoveEvolves(View(), id, name, l);
      if id !in current || (l.Some? && l.value != current[id]) {
        return false;
      }
      var c := current[id];
      leases := leases[c := leases[c].(members := leases[c].members - {name})];
      if |leases[c].members| < 1 {
        leases := leases[c := leases[c].(cancelled := true)];
        current := current - {id};
        return true;
      }
      return false;
    }
  }

  lemma AcceptableStep(members: map<string, Provider>, specs: seq<Spec>, i: nat)
    requires i < |specs|
    ensures Acceptable(members, specs[..i + 1])
            <==> (Acceptable(members, specs[..i]) && specs[i].name != "" && specs[i].name !in members
                  && forall k :: 0 <= k < i ==> specs[k].name != specs[i].name)
  {
    var longer, shorter := specs[..i + 1], specs[..i];
    assert longer == shorter + [specs[i]];
    assert forall k :: 0 <= k < i ==> longer[k] == shorter[k] == specs[k];
    if Acceptable(members, longer) {
      assert forall k :: 0 <= k < i ==> longer[k].name != longer[i].name;
    }
  }

  lemma PrefixAcceptable(members: map<string, Provider>, specs: seq<Spec>, i: nat)
    requires i <= |specs| && !Acceptable(members, specs[..i])
    ensures !Acceptable(members, specs)
  {
    if Acceptable(members, specs) {
      assert forall k :: 0 <= k < i ==> specs[..i][k] == specs[k];
    }
  }
}
