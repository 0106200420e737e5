/**
 Admission of Service instances: a claim on the Service's VIPs is reserved before
 the instance is built, so that two Services only ever share a VIP when the
 sharing rule allows it.
 */
module Admission {
  import opened Text

  type Uid = string

  datatype Policy = Cluster | Local | Unset

  /** The election settings that decide lease identities and VIP sharing. */
  datatype Config = Config(etcd: bool, perServiceElection: bool)

  /** A Service as admission reads it; `addresses` is what FetchServiceAddresses returns for it. */
  datatype Service = Service(
    uid: Uid, namespace: string, name: string, lease: string, policy: Policy, addresses: seq<string>)

  datatype CleanupInfo = CleanupInfo(namespace: string, name: string, lease: string, policy: Policy)

  /** A tracked instance. `captured` is nil, here empty, for a Service without literal addresses. */
  datatype Instance = Instance(uid: Uid, captured: seq<string>, info: CleanupInfo, snapshot: Service)
  {
    function Addresses(): seq<string> {
      if captured != [] then captured else snapshot.addresses
    }
  }

  function NewInstance(service: Service): Instance {
    Instance(service.uid, service.addresses,
             CleanupInfo(service.namespace, service.name, service.lease, service.policy), service)
  }

  datatype Claim = Claim(
    uid: Uid, namespace: string, name: string, leaseID: string, policy: Policy, addresses: seq<string>)

  /** The namespace and name of a Service's lease; an annotation may name both. */
  function ServiceNameFor(namespace: string, serviceName: string, leaseName: string): (string, string)
  {
    var name := if leaseName == "" then "kubevip-" + serviceName else leaseName;
    var parts := Split(name, '/');
    if |parts| > 1 then (parts[0], parts[1]) else (namespace, name)
  }

  function LeaseID(config: Config, namespace: string, serviceName: string, leaseName: string): string
  {
    var (ns, name) := ServiceNameFor(namespace, serviceName, leaseName);
    if config.etcd then ns + "-" + name else ns + "/" + name
  }

  /** Without an annotation the lease follows the Service. */
  lemma OwnLease(namespace: string, serviceName: string)
    requires '/' !in serviceName
    ensures ServiceNameFor(namespace, serviceName, "") == (namespace, "kubevip-" + serviceName)
  {
    SplitAtFirst("kubevip-" + serviceName, '/');
  }

  /**
   An annotation without a slash names a lease in the Service's namespace; one
   with a slash names the namespace before the first slash and the lease between
   the first slash and the second, if any.
   */
  lemma AnnotatedLease(namespace: string, serviceName: string, leaseName: string)
    requires leaseName != ""
    ensures ServiceNameFor(namespace, serviceName, leaseName)
            == if '/' !in leaseName then (namespace, leaseName)
               else
                 var i := IndexOf(leaseName, '/');
                 var rest := leaseName[i + 1..];
                 (leaseName[..i], rest[..IndexOf(rest, '/')])
  {
    SplitAtFirst(leaseName, '/');
    if '/' in leaseName {
      var rest := leaseName[IndexOf(leaseName, '/') + 1..];
      SplitAtFirst(rest, '/');
      assert Split(leaseName, '/')[1] == Split(rest, '/')[0];
    }
  }

  lemma LeaseNameHasNoSlash(namespace: string, serviceName: string, leaseName: string)
    ensures '/' !in ServiceNameFor(namespace, serviceName, leaseName).1
  {
    var name := if leaseName == "" then "kubevip-" + serviceName else leaseName;
    var parts := Split(name, '/');
    SplitParts(name, '/');
    SplitAtFirst(name, '/');
    if |parts| > 1 {
      assert parts[1] in parts;
    }
  }

  /** The lease of a Service, as a namespace and a name. */
  function LeaseOf(service: Service): (string, string) {
    ServiceNameFor(service.namespace, service.name, service.lease)
  }

  /** With Kubernetes leases an identifier names one lease: no two leases share one. */
  lemma KubernetesLeaseID(config: Config, a: Service, b: Service)
    requires !config.etcd
    ensures LeaseID(config, a.namespace, a.name, a.lease) == LeaseID(config, b.namespace, b.name, b.lease) <==> LeaseOf(a) == LeaseOf(b)
  {
    LeaseNameHasNoSlash(a.namespace, a.name, a.lease);
    LeaseNameHasNoSlash(b.namespace, b.name, b.lease);
    if LeaseID(config, a.namespace, a.name, a.lease) == LeaseID(config, b.namespace, b.name, b.lease) {
      LastSeparator(LeaseOf(a).0, LeaseOf(a).1, '/', LeaseOf(b).0, LeaseOf(b).1);
    }
  }

  /** Two different leases that differ only in where the dash between namespace and name is. */
  ghost predicate DashMoved(first: (string, string), second: (string, string)) {
    exists middle :: second.0 == first.0 + "-" + middle && first.1 == middle + "-" + second.1
  }

  lemma DashIDs(first: (string, string), second: (string, string))
    requires |first.0| <= |second.0|
    ensures (first.0 + "-" + first.1 == second.0 + "-" + second.1) <==> (first == second || DashMoved(first, second))
  {
    var s, s' := first.0 + "-" + first.1, second.0 + "-" + second.1;
    if s == s' {
      assert s[..|first.0|] == first.0 && s'[..|second.0|] == second.0 && s'[|second.0| + 1..] == second.1;
      assert s[|first.0| + 1..] == first.1;
      if |first.0| < |second.0| {
        var middle := second.0[|first.0| + 1..];
        assert second.0[|first.0|] == s[|first.0|] == '-';
        assert second.0 == first.0 + "-" + middle;
        assert s == first.0 + "-" + middle + "-" + second.1;
        assert first.1 == middle + "-" + second.1;
      }
    }
    if DashMoved(first, second) {
      var middle :| second.0 == first.0 + "-" + middle && first.1 == middle + "-" + second.1;
      assert s == first.0 + "-" + middle + "-" + second.1 == s';
    }
  }

  /** With etcd identifiers collide exactly for equal leases and for leases that differ in the place of the dash. */
  lemma EtcdLeaseID(config: Config, a: Service, b: Service)
    requires config.etcd
    ensures (LeaseID(config, a.namespace, a.name, a.lease) == LeaseID(config, b.namespace, b.name, b.lease))
            <==> (LeaseOf(a) == LeaseOf(b) || DashMoved(LeaseOf(a), LeaseOf(b)) || DashMoved(LeaseOf(b), LeaseOf(a)))
  {
    if |LeaseOf(a).0| <= |LeaseOf(b).0| {
      DashIDs(LeaseOf(a), LeaseOf(b));
    } else {
      DashIDs(LeaseOf(b), LeaseOf(a));
    }
  }

  /** Leases c in namespace a-b and b-c in namespace a are two leases with one etcd identifier. */
  lemma EtcdLeasesCollide(config: Config, uid: Uid, other: Uid, policy: Policy, addresses: seq<string>)
    requires config.etcd
    ensures var a := Service(uid, "a-b", "first", "c", policy, addresses);
            var b := Service(other, "a", "second", "b-c", policy, addresses);
            && LeaseOf(a) == ("a-b", "c") && LeaseOf(b) == ("a", "b-c")
            && LeaseID(config, a.namespace, a.name, a.lease) == LeaseID(config, b.namespace, b.name, b.lease) == "a-b-c"
  {
    AnnotatedLease("a-b", "first", "c");
    AnnotatedLease("a", "second", "b-c");
  }

  function ClaimOf(config: Config, service: Service): Claim {
    Claim(service.uid, service.namespace, service.name,
          LeaseID(config, service.namespace, service.name, service.lease), service.policy, service.addresses)
  }

  /** The claim rebuilt from a tracked instance. */
  function TrackedClaim(config: Config, inst: Instance): Claim {
    Claim(inst.uid, inst.info.namespace, inst.info.name,
          LeaseID(config, inst.info.namespace, inst.info.name, inst.info.lease), inst.info.policy, inst.Addresses())
  }

  /** The sharing rule: two Services may share a VIP only under these policies and leases. */
  predicate MayShare(config: Config, a: Claim, b: Claim) {
    a.policy == Cluster && b.policy == Cluster && (config.perServiceElection ==> a.leaseID == b.leaseID)
  }

  predicate Overlap(a: Claim, b: Claim) {
    exists x :: x in a.addresses && x in b.addresses
  }

  predicate Compatible(config: Config, a: Claim, b: Claim) {
    Overlap(a, b) ==> MayShare(config, a, b)
  }

  lemma CompatibleSymmetric(config: Config, a: Claim, b: Claim)
    ensures Compatible(config, a, b) <==> Compatible(config, b, a)
  {
  }

  predicate ShareAddress(a: Service, b: Service) {
    exists x :: x in a.addresses && x in b.addresses
  }

  /** The same lease, as far as the identifiers of this configuration tell. */
  ghost predicate SameLease(config: Config, a: Service, b: Service) {
    || LeaseOf(a) == LeaseOf(b)
    || (config.etcd && (DashMoved(LeaseOf(a), LeaseOf(b)) || DashMoved(LeaseOf(b), LeaseOf(a))))
  }

  /** When two Services may be served together, in terms of the Services themselves. */
  ghost predicate MayServeBoth(config: Config, a: Service, b: Service) {
    ShareAddress(a, b) ==> a.policy == Cluster && b.policy == Cluster && (config.perServiceElection ==> SameLease(config, a, b))
  }

  /** The check on claims decides exactly that. */
  lemma SharingRule(config: Config, a: Service, b: Service)
    ensures Compatible(config, ClaimOf(config, a), ClaimOf(config, b)) <==> MayServeBoth(config, a, b)
  {
    if config.etcd {
      EtcdLeaseID(config, a, b);
    } else {
      KubernetesLeaseID(config, a, b);
    }
    assert Overlap(ClaimOf(config, a), ClaimOf(config, b)) <==> ShareAddress(a, b);
  }

  /** With an election per Service, Services of different namespaces without annotations never share an address. */
  lemma NamespacesDoNotShare(config: Config, a: Service, b: Service)
    requires config.perServiceElection && !config.etcd && a.lease == "" && b.lease == ""
    requires '/' !in a.name && '/' !in b.name && (a.namespace != b.namespace || a.name != b.name) && ShareAddress(a, b)
    ensures !Compatible(config, ClaimOf(config, a), ClaimOf(config, b))
  {
    SharingRule(config, a, b);
    OwnLease(a.namespace, a.name);
    OwnLease(b.namespace, b.name);
    assert ("kubevip-" + a.name)[8..] == a.name && ("kubevip-" + b.name)[8..] == b.name;
  }

  /** The Service as a tracked instance remembers it. */
  function Recorded(inst: Instance): Service {
    Service(inst.uid, inst.info.namespace, inst.info.name, inst.info.lease, inst.info.policy, inst.Addresses())
  }

  /** No tracked instance of another Service that was seen, and no reservation of one, is in the way. */
  ghost predicate NothingInTheWay(config: Config, service: Service, seen: seq<Instance>, pending: map<Uid, Pending>) {
    && (forall i :: 0 <= i < |seen| && seen[i].uid != service.uid ==> MayServeBoth(config, service, Recorded(seen[i])))
    && (forall uid :: uid in pending && uid != service.uid ==> Compatible(config, ClaimOf(config, service), pending[uid].claim))
  }

  /** A check under way reserves exactly when nothing is in the way, and otherwise ends without a trace. */
  lemma CommitDecides(sys: System, s: State, t: nat)
    requires t < |s.threads| && s.threads[t].Checking?
    ensures var Checking(service, seen) := s.threads[t];
            Next(sys, s, Commit(t))
            == if NothingInTheWay(sys.config, service, seen, s.pending)
               then s.(pending := s.pending[service.uid := Pending(t, ClaimOf(sys.config, service))], threads := s.threads[t := Admitted(service)])
               else s.(threads := s.threads[t := Idle])
  {
    var Checking(service, seen) := s.threads[t];
    PassesExactly(sys.config, service, seen, s.pending);
  }

  lemma PassesExactly(config: Config, service: Service, seen: seq<Instance>, pending: map<Uid, Pending>)
    ensures Passes(config, ClaimOf(config, service), seen, pending) <==> NothingInTheWay(config, service, seen, pending)
  {
    forall i | 0 <= i < |seen|
      ensures Compatible(config, ClaimOf(config, service), TrackedClaim(config, seen[i])) <==> MayServeBoth(config, service, Recorded(seen[i]))
    {
      SharingRule(config, service, Recorded(seen[i]));
    }
  }

  /** The instance built for an admitted Service claims exactly what was reserved for it. */
  lemma RebuiltClaim(config: Config, service: Service)
    ensures TrackedClaim(config, NewInstance(service)) == ClaimOf(config, service)
  {
  }

  // ---- The protocol --------------------------------------------------------

  /** One admission, step by step; `Checking` holds the admission mutex. */
  datatype Thread =
    | Idle
    | Checking(service: Service, seen: seq<Instance>)
    | Admitted(service: Service)
    | Closing(service: Service)
  {
    predicate Reserved() { Admitted? || Closing? }
    predicate Active(uid: Uid) { !Idle? && service.uid == uid }
  }

  /** A pending reservation; the owner stands for the identity of its claim pointer. */
  datatype Pending = Pending(owner: nat, claim: Claim)

  /** The one deletion that holds the cleanup mutex. */
  datatype Cleaning = NotCleaning | Cleaning(inst: Instance, remaining: seq<Instance>)

  datatype State = State(
    tracked: seq<Instance>, pending: map<Uid, Pending>, threads: seq<Thread>, cleaning: Cleaning)

  datatype Step =
    | Begin(t: nat, service: Service)
    | Commit(t: nat)
    | Append(t: nat, created: bool)
    | Release(t: nat)
    | Detach(uid: Uid)
    | EndCleanup(ok: bool)
    | Refresh(uid: Uid, service: Service)

  /** Runs are parameterised by the configuration and by whether admissions of one UID are serialized. */
  datatype System = System(config: Config, serialized: bool)

  predicate MutexFree(s: State) {
    forall t :: 0 <= t < |s.threads| ==> !s.threads[t].Checking?
  }

  predicate UidFree(s: State, uid: Uid) {
    forall t :: 0 <= t < |s.threads| ==> !s.threads[t].Active(uid)
  }

  function Without(tracked: seq<Instance>, uid: Uid): seq<Instance> {
    if tracked == [] then []
    else if tracked[0].uid == uid then Without(tracked[1..], uid)
    else [tracked[0]] + Without(tracked[1..], uid)
  }

  predicate Tracks(tracked: seq<Instance>, uid: Uid) {
    exists i :: 0 <= i < |tracked| && tracked[i].uid == uid
  }

  function Find(tracked: seq<Instance>, uid: Uid): (i: nat)
    requires Tracks(tracked, uid)
    ensures i < |tracked| && tracked[i].uid == uid
  {
    if tracked[0].uid == uid then 0 else 1 + Find(tracked[1..], uid)
  }

  /** Instances are shared by reference: a new snapshot shows wherever the instance is listed. */
  function Refreshed(tracked: seq<Instance>, uid: Uid, service: Service): seq<Instance> {
    if Tracks(tracked, uid) then
      var i := Find(tracked, uid);
      tracked[i := tracked[i].(snapshot := service)]
    else tracked
  }

  /** The reservation check: against the tracked instances seen at the start and the current reservations. */
  predicate Passes(config: Config, claim: Claim, seen: seq<Instance>, pending: map<Uid, Pending>) {
    && (forall i :: 0 <= i < |seen| && seen[i].uid != claim.uid ==> Compatible(config, claim, TrackedClaim(config, seen[i])))
    && (forall uid :: uid in pending && uid != claim.uid ==> Compatible(config, claim, pending[uid].claim))
  }

  function Next(sys: System, s: State, step: Step): State {
    match step
    case Begin(t, service) =>
      if t < |s.threads| && s.threads[t].Idle? && MutexFree(s) && (sys.serialized ==> UidFree(s, service.uid))
      then s.(threads := s.threads[t := Checking(service, s.tracked)]) else s
    case Commit(t) =>
      if t < |s.threads| && s.threads[t].Checking? then
        var Checking(service, seen) := s.threads[t];
        var claim := ClaimOf(sys.config, service);
        if Passes(sys.config, claim, seen, s.pending)
        then s.(pending := s.pending[service.uid := Pending(t, claim)], threads := s.threads[t := Admitted(service)])
        else s.(threads := s.threads[t := Idle])
      else s
    case Append(t, created) =>
      if t < |s.threads| && s.threads[t].Admitted? && !(s.cleaning.Cleaning? && s.cleaning.inst.uid == s.threads[t].service.uid) then
        var service := s.threads[t].service;
        s.(threads := s.threads[t := Closing(service)],
           tracked := if created && !Tracks(s.tracked, service.uid) then s.tracked + [NewInstance(service)] else s.tracked)
      else s
    case Release(t) =>
      if t < |s.threads| && s.threads[t].Closing? && MutexFree(s) then
        var uid := s.threads[t].service.uid;
        s.(threads := s.threads[t := Idle],
           pending := if uid in s.pending && s.pending[uid].owner == t then s.pending - {uid} else s.pending)
      else s
    case Detach(uid) =>
      if s.cleaning.NotCleaning? && Tracks(s.tracked, uid) then
        s.(tracked := Without(s.tracked, uid),
           cleaning := Cleaning(s.tracked[Find(s.tracked, uid)], Without(s.tracked, uid)))
      else s
    case EndCleanup(ok) =>
      if s.cleaning.NotCleaning? then s
      else if ok then s.(cleaning := NotCleaning)
      else s.(cleaning := NotCleaning, tracked := s.tracked + [s.cleaning.inst])
    case Refresh(uid, service) =>
      if Tracks(s.tracked, uid) && service.uid == uid then
        s.(tracked := Refreshed(s.tracked, uid, service),
           cleaning := if s.cleaning.NotCleaning? then NotCleaning
                       else Cleaning(s.cleaning.inst, Refreshed(s.cleaning.remaining, uid, service)))
      else s
  }

  function Start(threads: nat): State {
    State([], map[], seq(threads, _ => Idle), NotCleaning)
  }

  function Run(sys: System, threads: nat, steps: seq<Step>): State
    decreases |steps|
  {
    if steps == [] then Start(threads)
    else Next(sys, Run(sys, threads, steps[..|steps| - 1]), steps[|steps| - 1])
  }

  // ---- Safety ----------------------------------------------------------------

  ghost predicate HasClaim(config: Config, s: State, claim: Claim)
  {
    || (exists i :: 0 <= i < |s.tracked| && TrackedClaim(config, s.tracked[i]) == claim)
    || (exists uid :: uid in s.pending && s.pending[uid].claim == claim)
  }

  /** Any two claims of different Services that share an address satisfy the sharing rule. */
  ghost predicate Safe(config: Config, s: State)
  {
    forall c, d :: HasClaim(config, s, c) && HasClaim(config, s, d) && c.uid != d.uid ==> Compatible(config, c, d)
  }

  /** A claim agrees with everything tracked or pending for other Services. */
  ghost predicate Fits(config: Config, s: State, claim: Claim)
  {
    forall c :: HasClaim(config, s, c) && c.uid != claim.uid ==> Compatible(config, claim, c)
  }

  /** Reservations are held by their threads, each under its own UID. */
  ghost predicate Held(config: Config, s: State)
  {
    && (forall t :: 0 <= t < |s.threads| && s.threads[t].Reserved() ==>
          var service := s.threads[t].service;
          service.uid in s.pending && s.pending[service.uid] == Pending(t, ClaimOf(config, service)))
    && (forall uid :: uid in s.pending ==> s.pending[uid].claim.uid == uid)
    && (forall t, u :: 0 <= t < u < |s.threads| && !s.threads[t].Idle? && !s.threads[u].Idle? ==>
          s.threads[t].service.uid != s.threads[u].service.uid)
    && (forall t, u :: 0 <= t < u < |s.threads| ==> !(s.threads[t].Checking? && s.threads[u].Checking?))
  }

  /** The check under way in thread `t` is going to pass. */
  ghost predicate WillPass(config: Config, s: State, t: nat)
    requires t < |s.threads| && s.threads[t].Checking?
  {
    Passes(config, ClaimOf(config, s.threads[t].service), s.threads[t].seen, s.pending)
  }

  /** The check under way rejects its claim anyway, or its claim agrees with this one. */
  ghost predicate CoversClaim(config: Config, s: State, t: nat, c: Claim)
    requires t < |s.threads| && s.threads[t].Checking?
  {
    var claim := ClaimOf(config, s.threads[t].service);
    WillPass(config, s, t) ==> c.uid == claim.uid || Compatible(config, claim, c)
  }

  ghost predicate Covered(config: Config, s: State, t: nat)
    requires t < |s.threads| && s.threads[t].Checking?
  {
    forall i :: 0 <= i < |s.tracked| ==> CoversClaim(config, s, t, TrackedClaim(config, s.tracked[i]))
  }

  ghost predicate ChecksCovered(config: Config, s: State)
  {
    forall t :: 0 <= t < |s.threads| && s.threads[t].Checking? ==> Covered(config, s, t)
  }

  ghost predicate Distinct(tracked: seq<Instance>)
  {
    forall i, j :: 0 <= i < j < |tracked| ==> tracked[i].uid != tracked[j].uid
  }

  /** The instance being cleaned up is not tracked. */
  ghost predicate Detached(s: State)
  {
    s.cleaning.Cleaning? ==> !Tracks(s.tracked, s.cleaning.inst.uid)
  }

  /** What serialized runs keep whatever their steps do. */
  ghost predicate Structure(config: Config, s: State)
  {
    Held(config, s) && Distinct(s.tracked) && Detached(s)
  }

  ghost predicate Inv(config: Config, s: State)
  {
    Structure(config, s) && Safe(config, s) && ChecksCovered(config, s)
  }

  /** Safe now, and safe when any check under way commits. */
  ghost predicate SafeSoon(sys: System, s: State)
  {
    Safe(sys.config, s) && forall t: nat :: Safe(sys.config, Next(sys, s, Commit(t)))
  }

  /** A claim can be tracked without a reservation: it fits, and every check under way that passes agrees with it. */
  ghost predicate Admits(config: Config, s: State, claim: Claim)
  {
    && Fits(config, s, claim)
    && forall t :: 0 <= t < |s.threads| && s.threads[t].Checking? ==> CoversClaim(config, s, t, claim)
  }

  /**
   The two steps that bypass the reservation, and when they do no harm: a failed
   cleanup puts its instance back without a check, and a snapshot refresh can
   change the addresses of an instance that captured none.
   */
  ghost predicate Benign(config: Config, s: State, step: Step)
  {
    && (step.EndCleanup? && !step.ok && s.cleaning.Cleaning? ==> Admits(config, s, TrackedClaim(config, s.cleaning.inst)))
    && (step.Refresh? && Tracks(s.tracked, step.uid) && step.service.uid == step.uid ==>
          Admits(config, s, RefreshedClaim(config, s, step.uid, step.service)))
  }

  ghost function RefreshedClaim(config: Config, s: State, uid: Uid, service: Service): Claim
    requires Tracks(s.tracked, uid)
  {
    TrackedClaim(config, s.tracked[Find(s.tracked, uid)].(snapshot := service))
  }

  ghost predicate BenignRun(sys: System, threads: nat, steps: seq<Step>)
    decreases |steps|
  {
    steps == [] ||
    (BenignRun(sys, threads, steps[..|steps| - 1])
     && Benign(sys.config, Run(sys, threads, steps[..|steps| - 1]), steps[|steps| - 1]))
  }

  // ---- Preservation, step by step ---------------------------------------------

  lemma {:induction false} WithoutMembers(tracked: seq<Instance>, uid: Uid)
    ensures forall x :: x in Without(tracked, uid) <==> x in tracked && x.uid != uid
    ensures Distinct(tracked) ==> Distinct(Without(tracked, uid))
  {
    if tracked == [] {
    } else {
      WithoutMembers(tracked[1..], uid);
    }
  }

  lemma FewerClaims(config: Config, s: State, s': State)
    requires Safe(config, s)
    requires forall i :: 0 <= i < |s'.tracked| ==> HasClaim(config, s, TrackedClaim(config, s'.tracked[i]))
    requires forall uid :: uid in s'.pending ==> HasClaim(config, s, s'.pending[uid].claim)
    ensures Safe(config, s')
  {
    forall c | HasClaim(config, s', c) ensures HasClaim(config, s, c) {
    }
  }

  /** Adding one claim keeps a state safe exactly when the claim fits. */
  lemma OneMoreClaim(config: Config, s: State, s': State, claim: Claim)
    requires Safe(config, s)
    requires forall c :: HasClaim(config, s', c) ==> c == claim || HasClaim(config, s, c)
    requires Fits(config, s, claim)
    ensures Safe(config, s')
  {
  }

  lemma BeginInv(sys: System, s: State, t: nat, service: Service)
    requires sys.serialized && Inv(sys.config, s)
    ensures Inv(sys.config, Next(sys, s, Begin(t, service)))
  {
    var s' := Next(sys, s, Begin(t, service));
    BeginStructure(sys, s, t, service);
    if s' != s {
      FewerClaims(sys.config, s, s');
      assert forall u :: 0 <= u < |s.threads| && u != t ==> s'.threads[u] == s.threads[u] && !s'.threads[u].Checking?;
      SeenCovered(sys.config, s', t);
    }
  }

  lemma BeginStructure(sys: System, s: State, t: nat, service: Service)
    requires sys.serialized && Structure(sys.config, s)
    ensures Structure(sys.config, Next(sys, s, Begin(t, service)))
  {
    var s' := Next(sys, s, Begin(t, service));
    if s' != s {
      assert forall u :: 0 <= u < |s.threads| && u != t ==> s'.threads[u] == s.threads[u] && !s.threads[u].Active(service.uid);
    }
  }

  /** A check covers what it has seen. */
  lemma SeenCovered(config: Config, s: State, t: nat)
    requires t < |s.threads| && s.threads[t].Checking? && s.threads[t].seen == s.tracked
    ensures Covered(config, s, t)
  {
    forall i | 0 <= i < |s.tracked| ensures CoversClaim(config, s, t, TrackedClaim(config, s.tracked[i])) {
      assert s.threads[t].seen[i] == s.tracked[i];
    }
  }

  /** A check that passes has a claim that fits exactly when it covers what is tracked. */
  lemma CommitFits(config: Config, s: State, t: nat)
    requires Held(config, s) && t < |s.threads| && s.threads[t].Checking? && WillPass(config, s, t)
    ensures Fits(config, s, ClaimOf(config, s.threads[t].service)) <==> Covered(config, s, t)
  {
    var claim := ClaimOf(config, s.threads[t].service);
    if Fits(config, s, claim) {
      forall i | 0 <= i < |s.tracked| ensures CoversClaim(config, s, t, TrackedClaim(config, s.tracked[i])) {
        assert HasClaim(config, s, TrackedClaim(config, s.tracked[i]));
      }
    }
    if Covered(config, s, t) {
      forall c | HasClaim(config, s, c) && c.uid != claim.uid ensures Compatible(config, claim, c) {
        if i :| 0 <= i < |s.tracked| && TrackedClaim(config, s.tracked[i]) == c {
          assert CoversClaim(config, s, t, TrackedClaim(config, s.tracked[i]));
        }
      }
    }
  }

  /** The commit of a check is safe exactly when the check covers what is tracked. */
  lemma CommitExact(sys: System, s: State, t: nat)
    requires Held(sys.config, s) && Safe(sys.config, s) && t < |s.threads| && s.threads[t].Checking?
    ensures Safe(sys.config, Next(sys, s, Commit(t))) <==> Covered(sys.config, s, t)
  {
    var s', config := Next(sys, s, Commit(t)), sys.config;
    if WillPass(config, s, t) {
      CommitFits(config, s, t);
      CommittedClaims(sys, s, t);
      SafeExact(config, s, s', ClaimOf(config, s.threads[t].service));
    } else {
      FewerClaims(config, s, s');
    }
  }

  lemma CommittedClaims(sys: System, s: State, t: nat)
    requires Held(sys.config, s) && t < |s.threads| && s.threads[t].Checking? && WillPass(sys.config, s, t)
    ensures var s', claim := Next(sys, s, Commit(t)), ClaimOf(sys.config, s.threads[t].service);
            && HasClaim(sys.config, s', claim)
            && (forall d :: HasClaim(sys.config, s, d) && d.uid != claim.uid ==> HasClaim(sys.config, s', d))
            && (forall d :: HasClaim(sys.config, s', d) ==> d == claim || HasClaim(sys.config, s, d))
  {
    var s', service := Next(sys, s, Commit(t)), s.threads[t].service;
    assert service.uid in s'.pending && s'.pending[service.uid].claim == ClaimOf(sys.config, service);
    forall d | HasClaim(sys.config, s, d) && d.uid != service.uid ensures HasClaim(sys.config, s', d) {
      if uid :| uid in s.pending && s.pending[uid].claim == d {
        assert uid in s'.pending && s'.pending[uid].claim == d;
      }
    }
  }

  /** Being safe soon is being safe with every check under way covered. */
  lemma SoonExact(sys: System, s: State)
    requires Held(sys.config, s)
    ensures SafeSoon(sys, s) <==> Safe(sys.config, s) && ChecksCovered(sys.config, s)
  {
    if Safe(sys.config, s) {
      forall t: nat
        ensures Safe(sys.config, Next(sys, s, Commit(t))) <==> (t < |s.threads| && s.threads[t].Checking? ==> Covered(sys.config, s, t))
      {
        if t < |s.threads| && s.threads[t].Checking? {
          CommitExact(sys, s, t);
        } else {
          assert Next(sys, s, Commit(t)) == s;
        }
      }
    }
  }

  lemma CommitInv(sys: System, s: State, t: nat)
    requires Inv(sys.config, s)
    ensures Inv(sys.config, Next(sys, s, Commit(t)))
  {
    var s', config := Next(sys, s, Commit(t)), sys.config;
    CommitStructure(sys, s, t);
    if t < |s.threads| && s.threads[t].Checking? {
      CommitExact(sys, s, t);
      assert forall u :: 0 <= u < |s'.threads| ==> !s'.threads[u].Checking?;
    }
  }

  lemma CommitStructure(sys: System, s: State, t: nat)
    requires Structure(sys.config, s)
    ensures Structure(sys.config, Next(sys, s, Commit(t)))
    ensures t < |s.threads| && s.threads[t].Checking? ==> MutexFree(Next(sys, s, Commit(t)))
  {
    var s' := Next(sys, s, Commit(t));
    if t < |s.threads| && s.threads[t].Checking? {
      assert forall u :: 0 <= u < |s.threads| && u != t ==> s'.threads[u] == s.threads[u] && !s'.threads[u].Checking?;
    }
  }

  /** Appending the admitted instance adds no claim: its reservation is still pending. */
  lemma AppendClaims(sys: System, s: State, t: nat, created: bool)
    requires Inv(sys.config, s) && Next(sys, s, Append(t, created)) != s
    ensures var s' := Next(sys, s, Append(t, created));
            && Safe(sys.config, s')
            && forall i :: 0 <= i < |s'.tracked| ==>
                 i < |s.tracked| || exists uid :: uid in s.pending && s.pending[uid].claim == TrackedClaim(sys.config, s'.tracked[i])
  {
    var s', service := Next(sys, s, Append(t, created)), s.threads[t].service;
    RebuiltClaim(sys.config, service);
    assert service.uid in s.pending && s.pending[service.uid].claim == ClaimOf(sys.config, service);
    FewerClaims(sys.config, s, s');
  }

  lemma AppendInv(sys: System, s: State, t: nat, created: bool)
    requires Inv(sys.config, s)
    ensures Inv(sys.config, Next(sys, s, Append(t, created)))
  {
    var s', config := Next(sys, s, Append(t, created)), sys.config;
    if s' != s {
      AppendClaims(sys, s, t, created);
      AppendHeld(sys, s, t, created);
      forall u | 0 <= u < |s'.threads| && s'.threads[u].Checking? ensures Covered(config, s', u) {
        AppendCovered(config, s, s', u);
      }
    }
  }

  lemma AppendHeld(sys: System, s: State, t: nat, created: bool)
    requires Structure(sys.config, s)
    ensures var s' := Next(sys, s, Append(t, created));
            && Structure(sys.config, s')
            && (s' != s ==> forall u :: 0 <= u < |s.threads| && u != t ==> s'.threads[u] == s.threads[u])
  {
  }

  lemma AppendCovered(config: Config, s: State, s': State, u: nat)
    requires u < |s.threads| && u < |s'.threads| && s'.threads[u] == s.threads[u] && s.threads[u].Checking? && s'.pending == s.pending
    requires Held(config, s) && Covered(config, s, u) && s.tracked <= s'.tracked
    requires forall i :: |s.tracked| <= i < |s'.tracked| ==>
               exists uid :: uid in s.pending && s.pending[uid].claim == TrackedClaim(config, s'.tracked[i])
    ensures Covered(config, s', u)
  {
    forall i | 0 <= i < |s'.tracked| ensures CoversClaim(config, s', u, TrackedClaim(config, s'.tracked[i])) {
      if i < |s.tracked| {
        assert s'.tracked[i] == s.tracked[i];
        assert CoversClaim(config, s, u, TrackedClaim(config, s.tracked[i]));
      }
    }
  }

  lemma ReleaseInv(sys: System, s: State, t: nat)
    requires Inv(sys.config, s)
    ensures Inv(sys.config, Next(sys, s, Release(t)))
  {
    var s', config := Next(sys, s, Release(t)), sys.config;
    ReleaseStructure(sys, s, t);
    if s' != s {
      FewerClaims(config, s, s');
      assert forall u :: 0 <= u < |s.threads| && u != t ==> s'.threads[u] == s.threads[u] && !s'.threads[u].Checking?;
    }
  }

  lemma ReleaseStructure(sys: System, s: State, t: nat)
    requires Structure(sys.config, s)
    ensures Structure(sys.config, Next(sys, s, Release(t)))
  {
    var s' := Next(sys, s, Release(t));
    if s' != s {
      assert forall u :: 0 <= u < |s.threads| && u != t ==> s'.threads[u] == s.threads[u];
    }
  }

  lemma DetachInv(sys: System, s: State, uid: Uid)
    requires Inv(sys.config, s)
    ensures Inv(sys.config, Next(sys, s, Detach(uid)))
  {
    var s', config := Next(sys, s, Detach(uid)), sys.config;
    DetachStructure(sys, s, uid);
    if s' != s {
      WithoutMembers(s.tracked, uid);
      forall i | 0 <= i < |s'.tracked|
        ensures s'.tracked[i] in s.tracked && s'.tracked[i].uid != uid && HasClaim(config, s, TrackedClaim(config, s'.tracked[i]))
      {
        assert s'.tracked[i] in s'.tracked;
      }
      FewerClaims(config, s, s');
      forall t | 0 <= t < |s'.threads| && s'.threads[t].Checking? ensures Covered(config, s', t) {
        FewerCovered(config, s, s', t);
      }
    }
  }

  lemma DetachStructure(sys: System, s: State, uid: Uid)
    requires Structure(sys.config, s)
    ensures Structure(sys.config, Next(sys, s, Detach(uid)))
  {
    var s' := Next(sys, s, Detach(uid));
    if s' != s {
      WithoutMembers(s.tracked, uid);
      forall i | 0 <= i < |s'.tracked| ensures s'.tracked[i].uid != uid {
        assert s'.tracked[i] in s'.tracked;
      }
    }
  }

  lemma FewerCovered(config: Config, s: State, s': State, t: nat)
    requires s'.threads == s.threads && s'.pending == s.pending && forall i :: 0 <= i < |s'.tracked| ==> s'.tracked[i] in s.tracked
    requires t < |s.threads| && s.threads[t].Checking? && Covered(config, s, t)
    ensures Covered(config, s', t)
  {
    forall i | 0 <= i < |s'.tracked| ensures CoversClaim(config, s', t, TrackedClaim(config, s'.tracked[i])) {
      var k :| 0 <= k < |s.tracked| && s.tracked[k] == s'.tracked[i];
      assert CoversClaim(config, s, t, TrackedClaim(config, s.tracked[k]));
    }
  }

  /** A tracked claim that is added or changed keeps the state safe exactly when it fits. */
  lemma SafeExact(config: Config, s: State, s': State, c: Claim)
    requires Safe(config, s) && HasClaim(config, s', c)
    requires forall d :: HasClaim(config, s, d) && d.uid != c.uid ==> HasClaim(config, s', d)
    requires forall d :: HasClaim(config, s', d) ==> d == c || HasClaim(config, s, d)
    ensures Safe(config, s') <==> Fits(config, s, c)
  {
    if Fits(config, s, c) {
      OneMoreClaim(config, s, s', c);
    }
  }

  /** It keeps the checks covered exactly when they cover it. */
  lemma CoverExact(config: Config, s: State, s': State, k: nat)
    requires ChecksCovered(config, s) && s'.threads == s.threads && s'.pending == s.pending && k < |s'.tracked|
    requires forall i :: 0 <= i < |s'.tracked| && i != k ==> s'.tracked[i] in s.tracked
    ensures ChecksCovered(config, s') <==>
              forall t :: 0 <= t < |s.threads| && s.threads[t].Checking? ==> CoversClaim(config, s, t, TrackedClaim(config, s'.tracked[k]))
  {
    var c := TrackedClaim(config, s'.tracked[k]);
    forall t | 0 <= t < |s.threads| && s.threads[t].Checking?
      ensures Covered(config, s', t) <==> CoversClaim(config, s, t, c)
    {
      assert Covered(config, s, t);
      forall i | 0 <= i < |s'.tracked| && i != k ensures CoversClaim(config, s', t, TrackedClaim(config, s'.tracked[i])) {
        var m :| 0 <= m < |s.tracked| && s.tracked[m] == s'.tracked[i];
        assert CoversClaim(config, s, t, TrackedClaim(config, s.tracked[m]));
      }
    }
  }

  /**
   Putting an instance back after a failed cleanup is safe, now and when any check under
   way commits, if and only if its claim is admitted.
   */
  lemma ReappendExact(sys: System, s: State)
    requires Structure(sys.config, s) && SafeSoon(sys, s) && s.cleaning.Cleaning?
    ensures SafeSoon(sys, Next(sys, s, EndCleanup(false))) <==> Admits(sys.config, s, TrackedClaim(sys.config, s.cleaning.inst))
  {
    SoonExact(sys, s);
    ReappendSafe(sys, s);
    ReappendCovers(sys, s);
    ReappendRest(sys, s);
    SoonExact(sys, Next(sys, s, EndCleanup(false)));
  }

  lemma ReappendSafe(sys: System, s: State)
    requires Safe(sys.config, s) && s.cleaning.Cleaning?
    ensures Safe(sys.config, Next(sys, s, EndCleanup(false))) <==> Fits(sys.config, s, TrackedClaim(sys.config, s.cleaning.inst))
  {
    ReappendedClaims(sys, s);
    SafeExact(sys.config, s, Next(sys, s, EndCleanup(false)), TrackedClaim(sys.config, s.cleaning.inst));
  }

  lemma ReappendCovers(sys: System, s: State)
    requires ChecksCovered(sys.config, s) && s.cleaning.Cleaning?
    ensures ChecksCovered(sys.config, Next(sys, s, EndCleanup(false))) <==>
              forall t :: 0 <= t < |s.threads| && s.threads[t].Checking? ==>
                CoversClaim(sys.config, s, t, TrackedClaim(sys.config, s.cleaning.inst))
  {
    CoverExact(sys.config, s, Next(sys, s, EndCleanup(false)), |s.tracked|);
  }

  lemma ReappendRest(sys: System, s: State)
    requires Structure(sys.config, s)
    ensures Structure(sys.config, Next(sys, s, EndCleanup(false)))
  {
  }

  lemma ReappendedClaims(sys: System, s: State)
    requires s.cleaning.Cleaning?
    ensures var s', claim := Next(sys, s, EndCleanup(false)), TrackedClaim(sys.config, s.cleaning.inst);
            && HasClaim(sys.config, s', claim)
            && (forall d :: HasClaim(sys.config, s, d) ==> HasClaim(sys.config, s', d))
            && (forall d :: HasClaim(sys.config, s', d) ==> d == claim || HasClaim(sys.config, s, d))
  {
    var s', config := Next(sys, s, EndCleanup(false)), sys.config;
    assert s'.tracked[|s.tracked|] == s.cleaning.inst;
    forall d | HasClaim(config, s, d) ensures HasClaim(config, s', d) {
      if i :| 0 <= i < |s.tracked| && TrackedClaim(config, s.tracked[i]) == d {
        assert s'.tracked[i] == s.tracked[i];
      }
    }
  }

  lemma EndCleanupInv(sys: System, s: State, ok: bool)
    requires Inv(sys.config, s) && Benign(sys.config, s, EndCleanup(ok))
    ensures Inv(sys.config, Next(sys, s, EndCleanup(ok)))
  {
    var s', config := Next(sys, s, EndCleanup(ok)), sys.config;
    if s.cleaning.Cleaning? {
      if ok {
        FewerClaims(config, s, s');
        forall t | 0 <= t < |s'.threads| && s'.threads[t].Checking? ensures Covered(config, s', t) {
          FewerCovered(config, s, s', t);
        }
      } else {
        ReappendSafe(sys, s);
        ReappendCovers(sys, s);
        ReappendRest(sys, s);
      }
    }
  }

  /**
   Replacing a snapshot is safe, now and when any check under way commits, if and only
   if the claim the instance then has is admitted.
   */
  lemma RefreshExact(sys: System, s: State, uid: Uid, service: Service)
    requires Structure(sys.config, s) && SafeSoon(sys, s) && Tracks(s.tracked, uid) && service.uid == uid
    ensures SafeSoon(sys, Next(sys, s, Refresh(uid, service))) <==> Admits(sys.config, s, RefreshedClaim(sys.config, s, uid, service))
  {
    SoonExact(sys, s);
    RefreshSafe(sys, s, uid, service);
    RefreshCovers(sys, s, uid, service);
    RefreshRest(sys, s, uid, service);
    SoonExact(sys, Next(sys, s, Refresh(uid, service)));
  }

  lemma RefreshSafe(sys: System, s: State, uid: Uid, service: Service)
    requires Safe(sys.config, s) && Tracks(s.tracked, uid) && service.uid == uid
    ensures Safe(sys.config, Next(sys, s, Refresh(uid, service))) <==> Fits(sys.config, s, RefreshedClaim(sys.config, s, uid, service))
  {
    RefreshedClaims(sys, s, uid, service);
    SafeExact(sys.config, s, Next(sys, s, Refresh(uid, service)), RefreshedClaim(sys.config, s, uid, service));
  }

  lemma RefreshCovers(sys: System, s: State, uid: Uid, service: Service)
    requires ChecksCovered(sys.config, s) && Tracks(s.tracked, uid) && service.uid == uid
    ensures ChecksCovered(sys.config, Next(sys, s, Refresh(uid, service))) <==>
              forall t :: 0 <= t < |s.threads| && s.threads[t].Checking? ==>
                CoversClaim(sys.config, s, t, RefreshedClaim(sys.config, s, uid, service))
  {
    CoverExact(sys.config, s, Next(sys, s, Refresh(uid, service)), Find(s.tracked, uid));
  }

  lemma RefreshRest(sys: System, s: State, uid: Uid, service: Service)
    requires Structure(sys.config, s)
    ensures Structure(sys.config, Next(sys, s, Refresh(uid, service)))
  {
    var s' := Next(sys, s, Refresh(uid, service));
    assert forall i :: 0 <= i < |s.tracked| ==> s'.tracked[i].uid == s.tracked[i].uid;
  }

  lemma RefreshedClaims(sys: System, s: State, uid: Uid, service: Service)
    requires Tracks(s.tracked, uid) && service.uid == uid
    ensures var s', claim := Next(sys, s, Refresh(uid, service)), RefreshedClaim(sys.config, s, uid, service);
            && HasClaim(sys.config, s', claim)
            && (forall d :: HasClaim(sys.config, s, d) && d.uid != uid ==> HasClaim(sys.config, s', d))
            && (forall d :: HasClaim(sys.config, s', d) ==> d == claim || HasClaim(sys.config, s, d))
  {
    var s', config, k := Next(sys, s, Refresh(uid, service)), sys.config, Find(s.tracked, uid);
    assert TrackedClaim(config, s'.tracked[k]) == RefreshedClaim(config, s, uid, service);
    forall d | HasClaim(config, s, d) && d.uid != uid ensures HasClaim(config, s', d) {
      if i :| 0 <= i < |s.tracked| && TrackedClaim(config, s.tracked[i]) == d {
        assert s'.tracked[i] == s.tracked[i];
      }
    }
    forall d | HasClaim(config, s', d) ensures d == RefreshedClaim(config, s, uid, service) || HasClaim(config, s, d) {
      if i :| 0 <= i < |s'.tracked| && TrackedClaim(config, s'.tracked[i]) == d {
        assert i != k ==> s'.tracked[i] == s.tracked[i];
      }
    }
  }

  lemma RefreshInv(sys: System, s: State, uid: Uid, service: Service)
    requires Inv(sys.config, s) && Benign(sys.config, s, Refresh(uid, service))
    ensures Inv(sys.config, Next(sys, s, Refresh(uid, service)))
  {
    if Tracks(s.tracked, uid) && service.uid == uid {
      RefreshSafe(sys, s, uid, service);
      RefreshCovers(sys, s, uid, service);
      RefreshRest(sys, s, uid, service);
    } else {
      assert Next(sys, s, Refresh(uid, service)) == s;
    }
  }

  lemma StepInv(sys: System, s: State, step: Step)
    requires sys.serialized && Inv(sys.config, s) && Benign(sys.config, s, step)
    ensures Inv(sys.config, Next(sys, s, step))
  {
    match step {
      case Begin(t, service) => BeginInv(sys, s, t, service);
      case Commit(t) => CommitInv(sys, s, t);
      case Append(t, created) => AppendInv(sys, s, t, created);
      case Release(t) => ReleaseInv(sys, s, t);
      case Detach(uid) => DetachInv(sys, s, uid);
      case EndCleanup(ok) => EndCleanupInv(sys, s, ok);
      case Refresh(uid, service) => RefreshInv(sys, s, uid, service);
    }
  }

  /**
   Admission safety: in every interleaving of reservations, appends, releases and
   detachments, claims of different Services that share an address obey the
   sharing rule, although the tracked instances are read outside their lock.
   */
  lemma {:induction false} AdmissionSafe(sys: System, threads: nat, steps: seq<Step>)
    requires sys.serialized && BenignRun(sys, threads, steps)
    ensures Inv(sys.config, Run(sys, threads, steps))
    decreases |steps|
  {
    if steps == [] {
    } else {
      AdmissionSafe(sys, threads, steps[..|steps| - 1]);
      StepInv(sys, Run(sys, threads, steps[..|steps| - 1]), steps[|steps| - 1]);
    }
  }

  lemma StructureNext(sys: System, s: State, step: Step)
    requires sys.serialized && Structure(sys.config, s)
    ensures Structure(sys.config, Next(sys, s, step))
  {
    match step {
      case Begin(t, service) => BeginStructure(sys, s, t, service);
      case Commit(t) => CommitStructure(sys, s, t);
      case Append(t, created) => AppendHeld(sys, s, t, created);
      case Release(t) => ReleaseStructure(sys, s, t);
      case Detach(uid) => DetachStructure(sys, s, uid);
      case EndCleanup(ok) => ReappendRest(sys, s);
      case Refresh(uid, service) => RefreshRest(sys, s, uid, service);
    }
  }

  lemma {:induction false} StructureRun(sys: System, threads: nat, steps: seq<Step>)
    requires sys.serialized
    ensures Structure(sys.config, Run(sys, threads, steps))
    decreases |steps|
  {
    if steps == [] {
      assert Run(sys, threads, steps) == Start(threads);
    } else {
      StructureRun(sys, threads, steps[..|steps| - 1]);
      StructureNext(sys, Run(sys, threads, steps[..|steps| - 1]), steps[|steps| - 1]);
    }
  }

  /** After every prefix of the run the state is safe, and safe when any check under way commits. */
  ghost predicate SafeAllAlong(sys: System, threads: nat, steps: seq<Step>)
    decreases |steps|
  {
    SafeSoon(sys, Run(sys, threads, steps)) && (steps == [] || SafeAllAlong(sys, threads, steps[..|steps| - 1]))
  }

  /** Benign is exact for safety: a serialized run is safe all along if and only if its bypassing steps are benign. */
  lemma {:induction false} AdmissionExact(sys: System, threads: nat, steps: seq<Step>)
    requires sys.serialized
    ensures SafeAllAlong(sys, threads, steps) <==> BenignRun(sys, threads, steps)
    decreases |steps|
  {
    StructureRun(sys, threads, steps);
    SoonExact(sys, Run(sys, threads, steps));
    if steps == [] {
      AdmissionSafe(sys, threads, steps);
    } else {
      var shorter := steps[..|steps| - 1];
      AdmissionExact(sys, threads, shorter);
      if SafeAllAlong(sys, threads, shorter) {
        StructureRun(sys, threads, shorter);
        StepExact(sys, Run(sys, threads, shorter), steps[|steps| - 1]);
      }
    }
  }

  lemma StepExact(sys: System, s: State, step: Step)
    requires sys.serialized && Structure(sys.config, s) && SafeSoon(sys, s)
    ensures SafeSoon(sys, Next(sys, s, step)) <==> Benign(sys.config, s, step)
  {
    if Benign(sys.config, s, step) {
      SoonExact(sys, s);
      StepInv(sys, s, step);
      SoonExact(sys, Next(sys, s, step));
    } else if step.EndCleanup? {
      ReappendExact(sys, s);
    } else {
      RefreshExact(sys, s, step.uid, step.service);
    }
  }

  // ---- While an instance is cleaned up -------------------------------------------

  /**
   The instances that remained at the detachment are still tracked, ahead of any
   newcomer, and agree with the instance being cleaned up.
   */
  ghost predicate CleaningOk(config: Config, s: State)
  {
    s.cleaning.Cleaning? ==>
      && s.cleaning.remaining <= s.tracked
      && forall i :: 0 <= i < |s.cleaning.remaining| ==>
           Compatible(config, TrackedClaim(config, s.cleaning.inst), TrackedClaim(config, s.cleaning.remaining[i]))
  }

  lemma DetachCleaning(sys: System, s: State, uid: Uid)
    requires Inv(sys.config, s) && CleaningOk(sys.config, s)
    ensures CleaningOk(sys.config, Next(sys, s, Detach(uid)))
  {
    var s', config := Next(sys, s, Detach(uid)), sys.config;
    if s' != s {
      WithoutMembers(s.tracked, uid);
      assert HasClaim(config, s, TrackedClaim(config, s'.cleaning.inst));
      forall i | 0 <= i < |s'.tracked| ensures Compatible(config, TrackedClaim(config, s'.cleaning.inst), TrackedClaim(config, s'.tracked[i])) {
        assert s'.tracked[i] in s'.tracked;
        assert HasClaim(config, s, TrackedClaim(config, s'.tracked[i]));
      }
    }
  }

  lemma {:induction false} FindPrefix(prefix: seq<Instance>, tracked: seq<Instance>, uid: Uid)
    requires prefix <= tracked && Tracks(prefix, uid)
    ensures Tracks(tracked, uid) && Find(tracked, uid) == Find(prefix, uid)
    decreases |prefix|
  {
    var k := Find(prefix, uid);
    assert tracked[k].uid == uid;
    if prefix[0].uid == uid {
      assert tracked[0] == prefix[0];
    } else {
      assert tracked[0] == prefix[0];
      assert prefix[1..][k - 1].uid == uid;
      FindPrefix(prefix[1..], tracked[1..], uid);
    }
  }

  /** A refresh of a remaining instance keeps this if and only if the new claim agrees with the one being cleaned up. */
  lemma RefreshCleaningExact(sys: System, s: State, uid: Uid, service: Service)
    requires CleaningOk(sys.config, s) && s.cleaning.Cleaning? && Tracks(s.cleaning.remaining, uid) && service.uid == uid
    ensures Tracks(s.tracked, uid)
    ensures CleaningOk(sys.config, Next(sys, s, Refresh(uid, service)))
            <==> Compatible(sys.config, TrackedClaim(sys.config, s.cleaning.inst), RefreshedClaim(sys.config, s, uid, service))
  {
    var s', config, k := Next(sys, s, Refresh(uid, service)), sys.config, Find(s.cleaning.remaining, uid);
    FindPrefix(s.cleaning.remaining, s.tracked, uid);
    assert s'.cleaning.remaining <= s'.tracked;
    assert TrackedClaim(config, s'.cleaning.remaining[k]) == RefreshedClaim(config, s, uid, service);
    assert forall i :: 0 <= i < |s.cleaning.remaining| && i != k ==> s'.cleaning.remaining[i] == s.cleaning.remaining[i];
  }

  ghost predicate Settled(config: Config, s: State, step: Step)
  {
    step.Refresh? && s.cleaning.Cleaning? && Tracks(s.cleaning.remaining, step.uid) && Tracks(s.tracked, step.uid) && step.service.uid == step.uid ==>
      Compatible(config, TrackedClaim(config, s.cleaning.inst), RefreshedClaim(config, s, step.uid, step.service))
  }

  ghost predicate SettledRun(sys: System, threads: nat, steps: seq<Step>)
    decreases |steps|
  {
    steps == [] ||
    (SettledRun(sys, threads, steps[..|steps| - 1])
     && Settled(sys.config, Run(sys, threads, steps[..|steps| - 1]), steps[|steps| - 1]))
  }

  lemma CleaningNext(sys: System, s: State, step: Step)
    requires Inv(sys.config, s) && CleaningOk(sys.config, s) && Settled(sys.config, s, step)
    ensures CleaningOk(sys.config, Next(sys, s, step))
  {
    if step.Detach? {
      DetachCleaning(sys, s, step.uid);
    } else if step.Refresh? && s.cleaning.Cleaning? && Tracks(s.tracked, step.uid) && step.service.uid == step.uid {
      if Tracks(s.cleaning.remaining, step.uid) {
        RefreshCleaningExact(sys, s, step.uid, step.service);
      } else {
        NewcomerRefreshed(s.cleaning.remaining, s.tracked, step.uid, step.service);
      }
    }
  }

  lemma NewcomerRefreshed(prefix: seq<Instance>, tracked: seq<Instance>, uid: Uid, service: Service)
    requires prefix <= tracked && !Tracks(prefix, uid) && Tracks(tracked, uid)
    ensures prefix <= Refreshed(tracked, uid, service)
  {
    assert forall i :: 0 <= i < |prefix| ==> tracked[i].uid != uid;
  }

  /** Over every benign run whose refreshes agree with the instance being cleaned up. */
  lemma {:induction false} CleaningSafe(sys: System, threads: nat, steps: seq<Step>)
    requires sys.serialized && BenignRun(sys, threads, steps) && SettledRun(sys, threads, steps)
    ensures CleaningOk(sys.config, Run(sys, threads, steps))
    decreases |steps|
  {
    if steps == [] {
      assert Run(sys, threads, steps).cleaning == NotCleaning;
    } else {
      CleaningSafe(sys, threads, steps[..|steps| - 1]);
      AdmissionSafe(sys, threads, steps[..|steps| - 1]);
      CleaningNext(sys, Run(sys, threads, steps[..|steps| - 1]), steps[|steps| - 1]);
    }
  }

  // ---- Where the reservation is bypassed ---------------------------------------

  /** A check that passes against the claim makes the state unsafe when it commits. */
  lemma UncoveredCheckBreaks(sys: System, s: State, t: nat)
    requires s.cleaning.Cleaning? && t < |s.threads| && s.threads[t].Checking?
    requires !CoversClaim(sys.config, s, t, TrackedClaim(sys.config, s.cleaning.inst))
    ensures !Safe(sys.config, Next(sys, Next(sys, s, EndCleanup(false)), Commit(t)))
  {
    var config, service := sys.config, s.threads[t].service;
    var s1 := Next(sys, s, EndCleanup(false));
    var s2 := Next(sys, s1, Commit(t));
    assert s1.threads == s.threads && s1.tracked[|s.tracked|] == s.cleaning.inst;
    assert s2.tracked[|s.tracked|] == s.cleaning.inst && service.uid in s2.pending;
    assert HasClaim(config, s2, TrackedClaim(config, s.cleaning.inst));
    assert HasClaim(config, s2, s2.pending[service.uid].claim);
  }

  /** Extending a run by one step; the run itself is left abstract. */
  lemma Extend(sys: System, threads: nat, steps: seq<Step>, step: Step) returns (longer: seq<Step>)
    ensures Run(sys, threads, longer) == Next(sys, Run(sys, threads, steps), step)
  {
    longer := steps + [step];
    assert longer[..|steps|] == steps;
  }

  /** An uninterrupted reservation that passes the check. */
  lemma ReserveAlone(sys: System, threads: nat, steps: seq<Step>, t: nat, service: Service) returns (longer: seq<Step>)
    requires var s := Run(sys, threads, steps);
             && t < |s.threads| && s.threads[t].Idle? && MutexFree(s) && (sys.serialized ==> UidFree(s, service.uid))
             && Passes(sys.config, ClaimOf(sys.config, service), s.tracked, s.pending)
    ensures Run(sys, threads, longer)
            == var s := Run(sys, threads, steps);
               s.(pending := s.pending[service.uid := Pending(t, ClaimOf(sys.config, service))], threads := s.threads[t := Admitted(service)])
  {
    longer := Extend(sys, threads, steps, Begin(t, service));
    longer := Extend(sys, threads, longer, Commit(t));
  }

  /** An undisturbed admission of a Service that fits ends with it tracked and nothing pending. */
  lemma AdmitAlone(sys: System, steps: seq<Step>, service: Service) returns (longer: seq<Step>)
    requires var s := Run(sys, 1, steps);
             && s.threads == [Idle] && s.pending == map[] && !Tracks(s.tracked, service.uid)
             && (s.cleaning.Cleaning? ==> s.cleaning.inst.uid != service.uid)
             && Passes(sys.config, ClaimOf(sys.config, service), s.tracked, map[])
    ensures Run(sys, 1, longer) == var s := Run(sys, 1, steps); s.(tracked := s.tracked + [NewInstance(service)])
  {
    var s := Run(sys, 1, steps);
    longer := ReserveAlone(sys, 1, steps, 0, service);
    longer := Extend(sys, 1, longer, Append(0, true));
    assert Run(sys, 1, longer).threads == [Closing(service)];
    longer := Extend(sys, 1, longer, Release(0));
    assert Run(sys, 1, longer).threads == [Idle] && Run(sys, 1, longer).pending == map[];
  }

  /** A granted admission whose UID is not being cleaned up ends with the Service tracked and its reservation returned. */
  lemma AdmissionCompletes(sys: System, threads: nat, steps: seq<Step>, t: nat) returns (longer: seq<Step>)
    requires var s := Run(sys, threads, steps);
             && t < |s.threads| && s.threads[t].Admitted? && MutexFree(s)
             && (s.cleaning.Cleaning? ==> s.cleaning.inst.uid != s.threads[t].service.uid)
    ensures var s, s' := Run(sys, threads, steps), Run(sys, threads, longer);
            var service := s.threads[t].service;
            && Tracks(s'.tracked, service.uid) && s'.threads == s.threads[t := Idle] && s'.cleaning == s.cleaning
            && s'.tracked == (if Tracks(s.tracked, service.uid) then s.tracked else s.tracked + [NewInstance(service)])
            && (service.uid in s.pending && s.pending[service.uid].owner == t ==> s'.pending == s.pending - {service.uid})
  {
    var s := Run(sys, threads, steps);
    var service := s.threads[t].service;
    longer := Extend(sys, threads, steps, Append(t, true));
    var s1 := Run(sys, threads, longer);
    assert s1.threads[t] == Closing(service) && MutexFree(s1);
    if !Tracks(s.tracked, service.uid) {
      assert s1.tracked[|s.tracked|].uid == service.uid;
    }
    longer := Extend(sys, threads, longer, Release(t));
    assert s1.threads[t := Idle] == s.threads[t := Idle];
  }

  /** With no cleanup under way every tracked Service can be detached, and only its own instances go. */
  lemma DetachTakesOne(sys: System, s: State, uid: Uid)
    requires s.cleaning.NotCleaning? && Tracks(s.tracked, uid)
    ensures var s' := Next(sys, s, Detach(uid));
            && s'.cleaning.Cleaning? && s'.cleaning.inst in s.tracked && s'.cleaning.inst.uid == uid
            && (forall inst :: inst in s'.tracked <==> inst in s.tracked && inst.uid != uid)
            && s'.pending == s.pending && s'.threads == s.threads
  {
    WithoutKeeps(s.tracked, uid);
  }

  /** A cleanup that succeeds is over and changes nothing more; one that fails puts its instance back. */
  lemma CleanupEnds(sys: System, s: State, ok: bool)
    requires s.cleaning.Cleaning?
    ensures var s' := Next(sys, s, EndCleanup(ok));
            && s'.cleaning.NotCleaning? && s'.pending == s.pending && s'.threads == s.threads
            && s'.tracked == s.tracked + if ok then [] else [s.cleaning.inst]
  {
  }

  /** A new snapshot moves only the addresses of an instance that captured none; policy, names and lease stay those of its admission. */
  lemma RefreshShows(sys: System, s: State, i: nat, service: Service)
    requires i < |s.tracked| && s.tracked[i].uid == service.uid && forall k :: 0 <= k < i ==> s.tracked[k].uid != service.uid
    ensures var s' := Next(sys, s, Refresh(service.uid, service));
            && |s'.tracked| == |s.tracked| && s'.tracked[i].snapshot == service
            && Recorded(s'.tracked[i])
               == Recorded(s.tracked[i]).(addresses := if s.tracked[i].captured == [] then service.addresses else s.tracked[i].captured)
            && forall k :: 0 <= k < |s.tracked| && k != i ==> s'.tracked[k] == s.tracked[k]
  {
    FindsFirst(s.tracked, i, service.uid);
  }

  lemma {:induction false} FindsFirst(tracked: seq<Instance>, i: nat, uid: Uid)
    requires i < |tracked| && tracked[i].uid == uid && forall k :: 0 <= k < i ==> tracked[k].uid != uid
    ensures Tracks(tracked, uid) && Find(tracked, uid) == i
  {
    if i == 0 {
      assert tracked[0].uid == uid;
    } else {
      assert tracked[1..][i - 1].uid == uid;
      FindsFirst(tracked[1..], i - 1, uid);
    }
  }

  lemma {:induction false} WithoutKeeps(tracked: seq<Instance>, uid: Uid)
    ensures forall inst :: inst in Without(tracked, uid) <==> inst in tracked && inst.uid != uid
  {
    if tracked == [] {
    } else {
      WithoutKeeps(tracked[1..], uid);
      assert tracked == [tracked[0]] + tracked[1..];
    }
  }

  /** A Service is admitted, and its cleanup begins. */
  lemma AdmitAndDetach(sys: System, a: Service) returns (steps: seq<Step>)
    ensures Run(sys, 1, steps) == State([], map[], [Idle], Cleaning(NewInstance(a), []))
  {
    steps := AdmitAlone(sys, [], a);
    var s := Run(sys, 1, steps);
    assert s.tracked == [NewInstance(a)] && s.tracked[0].uid == a.uid && s.tracked[1..] == [];
    assert Without(s.tracked, a.uid) == [];
    steps := Extend(sys, 1, steps, Detach(a.uid));
  }

  /** For any two conflicting Services there is a run in which a failed cleanup tracks both. */
  lemma ReappendBreaksSafety(sys: System, a: Service, b: Service) returns (steps: seq<Step>)
    requires a.uid != b.uid && !Compatible(sys.config, ClaimOf(sys.config, a), ClaimOf(sys.config, b))
    ensures !Safe(sys.config, Run(sys, 1, steps))
  {
    steps := AdmitAndDetach(sys, a);
    steps := AdmitAlone(sys, steps, b);
    steps := Extend(sys, 1, steps, EndCleanup(false));
    var s := Run(sys, 1, steps);
    assert s.tracked == [NewInstance(b), NewInstance(a)];
    assert TrackedClaim(sys.config, s.tracked[0]) == ClaimOf(sys.config, b);
    assert TrackedClaim(sys.config, s.tracked[1]) == ClaimOf(sys.config, a);
    assert HasClaim(sys.config, s, ClaimOf(sys.config, a)) && HasClaim(sys.config, s, ClaimOf(sys.config, b));
  }

  /** A check under way is part of the condition: the state is safe after the failed cleanup, and unsafe when the check commits. */
  lemma CheckInFlightBreaksSafety(sys: System, a: Service, b: Service) returns (steps: seq<Step>)
    requires a.uid != b.uid && !Compatible(sys.config, ClaimOf(sys.config, a), ClaimOf(sys.config, b))
    ensures Safe(sys.config, Run(sys, 1, steps)) && !Safe(sys.config, Next(sys, Run(sys, 1, steps), Commit(0)))
  {
    steps := AdmitAndDetach(sys, a);
    steps := Extend(sys, 1, steps, Begin(0, b));
    BeginAlone(sys, b, Cleaning(NewInstance(a), []));
    steps := Extend(sys, 1, steps, EndCleanup(false));
    InFlight(sys, a, b);
  }

  lemma BeginAlone(sys: System, service: Service, cleaning: Cleaning)
    ensures Next(sys, State([], map[], [Idle], cleaning), Begin(0, service)) == State([], map[], [Checking(service, [])], cleaning)
  {
  }

  lemma InFlight(sys: System, a: Service, b: Service)
    requires a.uid != b.uid && !Compatible(sys.config, ClaimOf(sys.config, a), ClaimOf(sys.config, b))
    ensures var s := State([], map[], [Checking(b, [])], Cleaning(NewInstance(a), []));
            var s1 := Next(sys, s, EndCleanup(false));
            Safe(sys.config, s1) && !Safe(sys.config, Next(sys, s1, Commit(0)))
  {
    var s := State([], map[], [Checking(b, [])], Cleaning(NewInstance(a), []));
    EmptyCheckUncovered(sys.config, a, b);
    UncoveredCheckBreaks(sys, s, 0);
    OneClaimSafe(sys.config, Next(sys, s, EndCleanup(false)), NewInstance(a));
  }

  lemma EmptyCheckUncovered(config: Config, a: Service, b: Service)
    requires a.uid != b.uid && !Compatible(config, ClaimOf(config, a), ClaimOf(config, b))
    ensures !CoversClaim(config, State([], map[], [Checking(b, [])], Cleaning(NewInstance(a), [])), 0, TrackedClaim(config, NewInstance(a)))
  {
    CompatibleSymmetric(config, ClaimOf(config, a), ClaimOf(config, b));
    RebuiltClaim(config, a);
  }

  lemma OneClaimSafe(config: Config, s: State, inst: Instance)
    requires s.tracked == [inst] && s.pending == map[]
    ensures Safe(config, s)
  {
    assert forall c :: HasClaim(config, s, c) ==> c == TrackedClaim(config, inst);
  }

  /** A refresh of a Service that captured no address can collide with one admitted since. */
  lemma RefreshBreaksSafety(sys: System, a: Service, later: Service, b: Service) returns (steps: seq<Step>)
    requires a.uid == later.uid != b.uid && a.addresses == []
    requires !Compatible(sys.config, TrackedClaim(sys.config, NewInstance(a).(snapshot := later)), ClaimOf(sys.config, b))
    ensures !Safe(sys.config, Run(sys, 1, steps))
  {
    steps := AdmitAlone(sys, [], a);
    assert Run(sys, 1, steps).tracked == [NewInstance(a)];
    steps := AdmitAlone(sys, steps, b);
    assert Run(sys, 1, steps).tracked == [NewInstance(a), NewInstance(b)];
    assert Run(sys, 1, steps).tracked[0].uid == a.uid;
    steps := Extend(sys, 1, steps, Refresh(a.uid, later));
    var s := Run(sys, 1, steps);
    assert s.tracked == [NewInstance(a).(snapshot := later), NewInstance(b)];
    var c, d := TrackedClaim(sys.config, s.tracked[0]), TrackedClaim(sys.config, s.tracked[1]);
    assert HasClaim(sys.config, s, c) && HasClaim(sys.config, s, d);
  }

  /** The second reservation of a UID replaces the first. */
  lemma ReserveTwice(config: Config, first: Service, second: Service) returns (steps: seq<Step>)
    requires first.uid == second.uid
    ensures Run(System(config, false), 3, steps)
            == State([], map[first.uid := Pending(1, ClaimOf(config, second))], [Admitted(first), Admitted(second), Idle], NotCleaning)
  {
    var sys := System(config, false);
    steps := ReserveAlone(sys, 3, [], 0, first);
    assert Run(sys, 3, steps).threads == [Admitted(first), Idle, Idle];
    steps := ReserveAlone(sys, 3, steps, 1, second);
    assert Run(sys, 3, steps).threads == [Admitted(first), Admitted(second), Idle];
  }

  /** Two unserialized admissions of one Service can lose the first one's reservation. */
  lemma UnserializedBreaksSafety(config: Config, first: Service, second: Service, other: Service) returns (steps: seq<Step>)
    requires first.uid == second.uid != other.uid
    requires !Compatible(config, ClaimOf(config, first), ClaimOf(config, other))
    requires Compatible(config, ClaimOf(config, other), ClaimOf(config, second))
    ensures !Safe(config, Run(System(config, false), 3, steps))
  {
    var sys := System(config, false);
    steps := ReserveTwice(config, first, second);
    steps := ReserveAlone(sys, 3, steps, 2, other);
    assert Run(sys, 3, steps).pending[other.uid].claim == ClaimOf(config, other);
    steps := Extend(sys, 3, steps, Append(0, true));
    var s := Run(sys, 3, steps);
    assert s.tracked == [NewInstance(first)] && TrackedClaim(config, s.tracked[0]) == ClaimOf(config, first);
    assert HasClaim(config, s, ClaimOf(config, first)) && HasClaim(config, s, ClaimOf(config, other));
  }

  // ---- The processor's own code ----------------------------------------------------

  /** The pairwise check of the source: the first shared address, when sharing is not allowed. */
  method ValidateServiceVIPConflict(config: Config, claim: Claim, other: Claim) returns (conflict: Option<string>)
    ensures conflict.None? <==> Compatible(config, claim, other)
    ensures conflict.Some? ==> conflict.value in claim.addresses && conflict.value in other.addresses
  {
    if claim.policy == Cluster && other.policy == Cluster && (!config.perServiceElection || claim.leaseID == other.leaseID) {
      return None;
    }
    for i := 0 to |claim.addresses|
      invariant forall k :: 0 <= k < i ==> claim.addresses[k] !in other.addresses
    {
      for j := 0 to |other.addresses|
        invariant claim.addresses[i] !in other.addresses[..j]
      {
        if claim.addresses[i] == other.addresses[j] {
          assert claim.addresses[i] in other.addresses;
          return Some(claim.addresses[i]);
        }
      }
      assert other.addresses[..|other.addresses|] == other.addresses;
    }
    return None;
  }

  /** The last instance of the UID, and the others in their order. */
  method SplitOff(all: seq<Instance>, uid: Uid) returns (found: Option<Instance>, remaining: seq<Instance>)
    ensures found.Some? <==> Tracks(all, uid)
    ensures found.Some? ==> LastOf(all, uid, found.value)
    ensures remaining == Without(all, uid)
  {
    found, remaining := None, [];
    for i := 0 to |all|
      invariant remaining == Without(all[..i], uid)
      invariant found.Some? <==> Tracks(all[..i], uid)
      invariant found.Some? ==> LastOf(all[..i], uid, found.value)
    {
      DetachStep(all, i, uid);
      if all[i].uid == uid {
        found := Some(all[i]);
      } else {
        remaining := remaining + [all[i]];
      }
    }
    assert all[..|all|] == all;
  }

  class Processor {
    const config: Config
    var tracked: seq<Instance>
    var pending: map<Uid, Pending>

    constructor (config: Config)
      ensures this.config == config && tracked == [] && pending == map[]
    {
      this.config, tracked, pending := config, [], map[];
    }

    /** The reservation, run without interference: it succeeds exactly when the claim passes the check. */
    method ReserveServiceAdmission(t: nat, service: Service) returns (ok: bool)
      modifies this`pending
      ensures ok <==> NothingInTheWay(config, service, tracked, old(pending))
      ensures pending == if ok then old(pending)[service.uid := Pending(t, ClaimOf(config, service))] else old(pending)
    {
      PassesExactly(config, service, tracked, pending);
      var claim := ClaimOf(config, service);
      for i := 0 to |tracked|
        invariant pending == old(pending)
        invariant forall k :: 0 <= k < i && tracked[k].uid != claim.uid ==> Compatible(config, claim, TrackedClaim(config, tracked[k]))
      {
        if tracked[i].uid != service.uid {
          var conflict := ValidateServiceVIPConflict(config, claim, TrackedClaim(config, tracked[i]));
          if conflict.Some? {
            return false;
          }
        }
      }
      var todo := pending.Keys;
      while todo != {}
        invariant todo <= pending.Keys && pending == old(pending)
        invariant forall uid :: uid in pending && uid !in todo && uid != claim.uid ==> Compatible(config, claim, pending[uid].claim)
        decreases todo
      {
        var uid :| uid in todo;
        if uid != service.uid {
          var conflict := ValidateServiceVIPConflict(config, claim, pending[uid].claim);
          if conflict.Some? {
            return false;
          }
        }
        todo := todo - {uid};
      }
      pending := pending[service.uid := Pending(t, claim)];
      return true;
    }

    method ReleaseAdmission(t: nat, service: Service)
      modifies this`pending
      ensures pending == if service.uid in old(pending) && old(pending)[service.uid].owner == t
                         then old(pending) - {service.uid} else old(pending)
    {
      if service.uid in pending && pending[service.uid].owner == t {
        pending := pending - {service.uid};
      }
    }

    method AppendServiceInstance(inst: Instance)
      modifies this`tracked
      ensures tracked == old(tracked) + [inst]
    {
      tracked := tracked + [inst];
    }

    /** Detaches every instance of the UID, in one pass that keeps the order of the others. */
    method DetachServiceInstance(uid: Uid) returns (found: Option<Instance>, remaining: seq<Instance>)
      modifies this`tracked
      ensures found.Some? <==> Tracks(old(tracked), uid)
      ensures found.Some? ==> LastOf(old(tracked), uid, found.value)
      ensures remaining == Without(old(tracked), uid) && tracked == remaining
    {
      found, remaining := SplitOff(tracked, uid);
      if found.Some? {
        tracked := remaining;
      } else {
        WithoutNothing(tracked, uid);
      }
    }
  }

  /** The position of the last instance of the UID. */
  ghost predicate IsLast(tracked: seq<Instance>, uid: Uid, k: nat)
    requires k < |tracked|
  {
    tracked[k].uid == uid && forall m :: k < m < |tracked| ==> tracked[m].uid != uid
  }

  ghost predicate LastOf(tracked: seq<Instance>, uid: Uid, inst: Instance)
  {
    exists k :: 0 <= k < |tracked| && IsLast(tracked, uid, k) && tracked[k] == inst
  }

  lemma {:induction false} WithoutAppend(tracked: seq<Instance>, inst: Instance, uid: Uid)
    ensures Without(tracked + [inst], uid) == Without(tracked, uid) + (if inst.uid == uid then [] else [inst])
    decreases |tracked|
  {
    if tracked == [] {
      assert (tracked + [inst])[1..] == [];
    } else {
      WithoutAppend(tracked[1..], inst, uid);
      assert (tracked + [inst])[0] == tracked[0] && (tracked + [inst])[1..] == tracked[1..] + [inst];
    }
  }

  lemma DetachStep(tracked: seq<Instance>, i: nat, uid: Uid)
    requires i < |tracked|
    ensures Without(tracked[..i + 1], uid) == Without(tracked[..i], uid) + (if tracked[i].uid == uid then [] else [tracked[i]])
    ensures Tracks(tracked[..i + 1], uid) <==> Tracks(tracked[..i], uid) || tracked[i].uid == uid
    ensures tracked[i].uid == uid ==> LastOf(tracked[..i + 1], uid, tracked[i])
    ensures tracked[i].uid != uid ==> forall inst :: LastOf(tracked[..i], uid, inst) ==> LastOf(tracked[..i + 1], uid, inst)
  {
    var longer, shorter := tracked[..i + 1], tracked[..i];
    assert longer == shorter + [tracked[i]];
    WithoutAppend(shorter, tracked[i], uid);
    if Tracks(shorter, uid) {
      var k :| 0 <= k < |shorter| && shorter[k].uid == uid;
      assert longer[k].uid == uid;
    }
    assert longer[i] == tracked[i];
    if tracked[i].uid != uid {
      forall inst | LastOf(shorter, uid, inst) ensures LastOf(longer, uid, inst) {
        var k :| 0 <= k < |shorter| && IsLast(shorter, uid, k) && shorter[k] == inst;
        assert IsLast(longer, uid, k);
      }
    } else {
      assert IsLast(longer, uid, i);
    }
  }

  lemma {:induction false} WithoutNothing(tracked: seq<Instance>, uid: Uid)
    requires !Tracks(tracked, uid)
    ensures Without(tracked, uid) == tracked
  {
    if tracked == [] {
    } else {
      assert tracked[0].uid != uid;
      forall i | 0 <= i < |tracked[1..]| ensures tracked[1..][i].uid != uid {
        assert tracked[i + 1].uid != uid;
      }
      WithoutNothing(tracked[1..], uid);
    }
  }
}
