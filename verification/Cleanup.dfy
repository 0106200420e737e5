/**
 Cleanup of one deleted Service: the VIPs it shares with the remaining Services
 are preserved, every other VIP of its networks is deleted.
 */
module Cleanup {
  import opened Text
  import opened Admission
  import ArpClaims

  /** One network of a cluster: its address and the name of its ARP claim. */
  datatype Network = Network(ip: string, arpName: string)

  /** ARP mode and the claim counts the pass reads from the ARP manager. */
  datatype Arp = Arp(enabled: bool, counts: map<string, nat>)
  {
    predicate Claimed(name: string) { enabled && name in counts && counts[name] > 0 }
  }

  /** What the cleanup tests of a candidate: its captured policy and lease against the deleted Service's snapshot. */
  predicate SharesWith(config: Config, snapshot: Service, candidate: Instance) {
    && snapshot.policy == Cluster && candidate.info.policy == Cluster
    && (config.perServiceElection ==>
          LeaseID(config, candidate.info.namespace, candidate.info.name, candidate.info.lease)
          == LeaseID(config, snapshot.namespace, snapshot.name, snapshot.lease))
  }

  /** An address of the deleted Service that a sharing candidate lists too. */
  predicate IsShared(config: Config, inst: Instance, remaining: seq<Instance>, x: string) {
    x in inst.Addresses() && exists i :: 0 <= i < |remaining| && SharesWith(config, inst.snapshot, remaining[i]) && x in remaining[i].Addresses()
  }

  method SharedServiceVIPs(config: Config, inst: Instance, remaining: seq<Instance>) returns (shared: set<string>)
    ensures forall x :: x in shared <==> IsShared(config, inst, remaining, x)
  {
    shared := {};
    if inst.snapshot.policy != Cluster {
      return;
    }
    var lease := LeaseID(config, inst.snapshot.namespace, inst.snapshot.name, inst.snapshot.lease);
    var addresses := inst.Addresses();
    for i := 0 to |remaining|
      invariant forall x :: x in shared <==> IsShared(config, inst, remaining[..i], x)
    {
      var candidate := remaining[i];
      var shares := candidate.info.policy == Cluster;
      if config.perServiceElection && LeaseID(config, candidate.info.namespace, candidate.info.name, candidate.info.lease) != lease {
        shares := false;
      }
      var common := {};
      if shares {
        common := CommonAddresses(candidate.Addresses(), addresses);
      }
      shared := shared + common;
      SharedStep(config, inst, remaining, i);
    }
    assert remaining[..|remaining|] == remaining;
  }

  lemma SharedStep(config: Config, inst: Instance, remaining: seq<Instance>, i: nat)
    requires i < |remaining|
    ensures forall x :: IsShared(config, inst, remaining[..i + 1], x) <==>
              || IsShared(config, inst, remaining[..i], x)
              || (SharesWith(config, inst.snapshot, remaining[i]) && x in inst.Addresses() && x in remaining[i].Addresses())
  {
    assert remaining[..i + 1] == remaining[..i] + [remaining[i]];
    forall x | IsShared(config, inst, remaining[..i], x) ensures IsShared(config, inst, remaining[..i + 1], x) {
      var k :| 0 <= k < i && SharesWith(config, inst.snapshot, remaining[..i][k]) && x in remaining[..i][k].Addresses();
      assert remaining[..i + 1][k] == remaining[..i][k];
    }
    assert remaining[..i + 1][i] == remaining[i];
  }

  method CommonAddresses(listed: seq<string>, own: seq<string>) returns (common: set<string>)
    ensures forall x :: x in common <==> x in listed && x in own
  {
    common := {};
    for i := 0 to |listed|
      invariant forall x :: x in common <==> x in listed[..i] && x in own
    {
      ghost var before := common;
      for j := 0 to |own|
        invariant forall x :: x in common <==> x in before || (x == listed[i] && x in own[..j])
      {
        if listed[i] == own[j] {
          common := common + {listed[i]};
        }
      }
      assert own[..|own|] == own;
    }
    assert listed[..|listed|] == listed;
  }

  /** An address is preserved exactly for a remaining instance of Cluster policy and, under per-service election, of the same lease. */
  lemma SharedBySameLease(config: Config, inst: Instance, remaining: seq<Instance>, x: string)
    ensures IsShared(config, inst, remaining, x)
            <==> (x in inst.Addresses() && inst.snapshot.policy == Cluster
                  && exists i :: 0 <= i < |remaining| && x in remaining[i].Addresses() && remaining[i].info.policy == Cluster
                       && (config.perServiceElection ==> SameLease(config, Recorded(remaining[i]), inst.snapshot)))
  {
    forall i | 0 <= i < |remaining|
      ensures SharesWith(config, inst.snapshot, remaining[i])
              <==> (inst.snapshot.policy == Cluster && remaining[i].info.policy == Cluster
                    && (config.perServiceElection ==> SameLease(config, Recorded(remaining[i]), inst.snapshot)))
    {
      if config.etcd {
        EtcdLeaseID(config, Recorded(remaining[i]), inst.snapshot);
      } else {
        KubernetesLeaseID(config, Recorded(remaining[i]), inst.snapshot);
      }
    }
  }

  // ---- The sharing rule makes the cleanup exact -------------------------------------

  ghost predicate AllCompatible(config: Config, inst: Instance, remaining: seq<Instance>)
  {
    forall i :: 0 <= i < |remaining| ==> Compatible(config, TrackedClaim(config, inst), TrackedClaim(config, remaining[i]))
  }

  /** Some remaining instance lists an address of the deleted one. */
  ghost predicate Listed(inst: Instance, remaining: seq<Instance>, x: string)
  {
    x in inst.Addresses() && exists i :: 0 <= i < |remaining| && x in remaining[i].Addresses()
  }

  ghost predicate CoversListed(config: Config, inst: Instance, remaining: seq<Instance>)
  {
    forall x :: Listed(inst, remaining, x) ==> IsShared(config, inst, remaining, x)
  }

  /** The snapshot of the deleted Service allows sharing, and under per-service election has the lease captured at creation. */
  predicate SnapshotShares(config: Config, inst: Instance) {
    && inst.snapshot.policy == Cluster
    && (config.perServiceElection ==>
          LeaseID(config, inst.snapshot.namespace, inst.snapshot.name, inst.snapshot.lease)
          == LeaseID(config, inst.info.namespace, inst.info.name, inst.info.lease))
  }

  /**
   Under the admission invariant the preserved set covers every address that a
   remaining instance lists if and only if there is no such address or the
   snapshot still shares the way the instance was admitted.
   */
  lemma SharedCoversExactly(config: Config, inst: Instance, remaining: seq<Instance>)
    requires AllCompatible(config, inst, remaining)
    ensures CoversListed(config, inst, remaining)
            <==> (exists x :: Listed(inst, remaining, x)) ==> SnapshotShares(config, inst)
  {
    forall x ensures IsShared(config, inst, remaining, x) <==> Listed(inst, remaining, x) && SnapshotShares(config, inst) {
      SharedExactly(config, inst, remaining, x);
    }
  }

  /** Address by address: what a remaining instance lists is preserved exactly when the snapshot shares. */
  lemma SharedExactly(config: Config, inst: Instance, remaining: seq<Instance>, x: string)
    requires AllCompatible(config, inst, remaining)
    ensures IsShared(config, inst, remaining, x) <==> Listed(inst, remaining, x) && SnapshotShares(config, inst)
  {
    var mine := TrackedClaim(config, inst);
    forall i | x in inst.Addresses() && 0 <= i < |remaining| && x in remaining[i].Addresses()
      ensures MayShare(config, mine, TrackedClaim(config, remaining[i]))
      ensures SharesWith(config, inst.snapshot, remaining[i]) <==> SnapshotShares(config, inst)
    {
      assert Overlap(mine, TrackedClaim(config, remaining[i]));
    }
  }

  /** The snapshot has the policy, and under per-service election the lease, captured at creation. */
  predicate SnapshotKept(config: Config, inst: Instance) {
    && inst.snapshot.policy == inst.info.policy
    && (config.perServiceElection ==>
          LeaseID(config, inst.snapshot.namespace, inst.snapshot.name, inst.snapshot.lease)
          == LeaseID(config, inst.info.namespace, inst.info.name, inst.info.lease))
  }

  /** An unchanged snapshot shares whenever sharing matters, whatever the policy of the Service. */
  lemma KeptShares(config: Config, inst: Instance, remaining: seq<Instance>, x: string)
    requires AllCompatible(config, inst, remaining) && SnapshotKept(config, inst) && Listed(inst, remaining, x)
    ensures SnapshotShares(config, inst)
  {
    var i :| 0 <= i < |remaining| && x in remaining[i].Addresses();
    assert Overlap(TrackedClaim(config, inst), TrackedClaim(config, remaining[i]));
  }

  // ---- The cleanup pass ----------------------------------------------------------------

  /** The address of a network is deleted: neither preserved nor claimed by somebody else. */
  predicate Deletes(config: Config, inst: Instance, remaining: seq<Instance>, arp: Arp, clusters: seq<seq<Network>>, x: string) {
    exists k, n :: 0 <= k < |clusters| && 0 <= n < |clusters[k]| && clusters[k][n].ip == x
                   && !IsShared(config, inst, remaining, x) && !arp.Claimed(clusters[k][n].arpName)
  }

  /** One worker's pass over its networks, in order. */
  method CleanupServiceVIPs(networks: seq<Network>, preserve: set<string>, arp: Arp) returns (deleted: seq<string>)
    ensures forall x :: x in deleted <==>
              (x !in preserve && exists n :: 0 <= n < |networks| && networks[n].ip == x && !arp.Claimed(networks[n].arpName))
  {
    deleted := [];
    for i := 0 to |networks|
      invariant forall x :: x in deleted <==> x !in preserve && exists n :: 0 <= n < i && networks[n].ip == x && !arp.Claimed(networks[n].arpName)
    {
      if networks[i].ip !in preserve {
        var count := if networks[i].arpName in arp.counts then arp.counts[networks[i].arpName] else 0;
        if !(arp.enabled && count > 0) {
          deleted := deleted + [networks[i].ip];
        }
      }
    }
  }

  /** The stop part of the Service cleanup: each cluster is stopped preserving its shared networks. */
  method CleanupService(config: Config, inst: Instance, remaining: seq<Instance>, arp: Arp, clusters: seq<seq<Network>>)
    returns (deleted: seq<string>)
    ensures forall x :: x in deleted <==> Deletes(config, inst, remaining, arp, clusters, x)
  {
    var shared := SharedServiceVIPs(config, inst, remaining);
    deleted := [];
    for k := 0 to |clusters|
      invariant forall x :: x in deleted <==> Deletes(config, inst, remaining, arp, clusters[..k], x)
    {
      var preserve := {};
      for n := 0 to |clusters[k]|
        invariant forall x :: x in preserve <==> x in shared && exists m :: 0 <= m < n && clusters[k][m].ip == x
      {
        if clusters[k][n].ip in shared {
          preserve := preserve + {clusters[k][n].ip};
        }
      }
      var gone := CleanupServiceVIPs(clusters[k], preserve, arp);
      deleted := deleted + gone;
      DeletesStep(config, inst, remaining, arp, clusters, k);
    }
    assert clusters[..|clusters|] == clusters;
  }

  lemma DeletesStep(config: Config, inst: Instance, remaining: seq<Instance>, arp: Arp, clusters: seq<seq<Network>>, k: nat)
    requires k < |clusters|
    ensures forall x :: Deletes(config, inst, remaining, arp, clusters[..k + 1], x) <==>
              || Deletes(config, inst, remaining, arp, clusters[..k], x)
              || Deletes(config, inst, remaining, arp, [clusters[k]], x)
  {
    var longer, shorter, one := clusters[..k + 1], clusters[..k], [clusters[k]];
    forall x | Deletes(config, inst, remaining, arp, shorter, x) ensures Deletes(config, inst, remaining, arp, longer, x) {
      var j, n :| 0 <= j < |shorter| && 0 <= n < |shorter[j]| && shorter[j][n].ip == x
                  && !IsShared(config, inst, remaining, x) && !arp.Claimed(shorter[j][n].arpName);
      assert longer[j][n].ip == x;
    }
    forall x | Deletes(config, inst, remaining, arp, one, x) ensures Deletes(config, inst, remaining, arp, longer, x) {
      var j, n :| 0 <= j < |one| && 0 <= n < |one[j]| && one[j][n].ip == x
                  && !IsShared(config, inst, remaining, x) && !arp.Claimed(one[j][n].arpName);
      assert longer[k][n].ip == x;
    }
    forall x | Deletes(config, inst, remaining, arp, longer, x)
      ensures Deletes(config, inst, remaining, arp, shorter, x) || Deletes(config, inst, remaining, arp, one, x)
    {
      var j, n :| 0 <= j < |longer| && 0 <= n < |longer[j]| && longer[j][n].ip == x
                  && !IsShared(config, inst, remaining, x) && !arp.Claimed(longer[j][n].arpName);
      if j < k {
        assert shorter[j][n].ip == x;
      } else {
        assert one[0][n].ip == x;
      }
    }
  }

  /** Every network serves one of the Service's literal addresses. */
  ghost predicate LiteralNetworks(inst: Instance, clusters: seq<seq<Network>>)
  {
    forall k, n :: 0 <= k < |clusters| && 0 <= n < |clusters[k]| ==> clusters[k][n].ip in inst.Addresses()
  }

  /** Some network with the address has no claim of somebody else. */
  ghost predicate Unclaimed(arp: Arp, clusters: seq<seq<Network>>, x: string)
  {
    exists k, n :: 0 <= k < |clusters| && 0 <= n < |clusters[k]| && clusters[k][n].ip == x && !arp.Claimed(clusters[k][n].arpName)
  }

  ghost predicate ListedBy(instances: seq<Instance>, x: string)
  {
    exists i :: 0 <= i < |instances| && x in instances[i].Addresses()
  }

  /**
   The pass deletes an unclaimed address exactly unless a remaining instance lists it and
   the snapshot shares; with an unchanged snapshot exactly unless a remaining one lists it.
   */
  lemma PassExact(config: Config, inst: Instance, remaining: seq<Instance>, arp: Arp, clusters: seq<seq<Network>>, x: string)
    requires AllCompatible(config, inst, remaining) && LiteralNetworks(inst, clusters)
    ensures Deletes(config, inst, remaining, arp, clusters, x)
            <==> Unclaimed(arp, clusters, x) && !(ListedBy(remaining, x) && SnapshotShares(config, inst))
    ensures SnapshotKept(config, inst) ==>
              (Deletes(config, inst, remaining, arp, clusters, x) <==> Unclaimed(arp, clusters, x) && !ListedBy(remaining, x))
  {
    SharedExactly(config, inst, remaining, x);
    assert Deletes(config, inst, remaining, arp, clusters, x) <==> Unclaimed(arp, clusters, x) && !IsShared(config, inst, remaining, x);
    if Unclaimed(arp, clusters, x) && ListedBy(remaining, x) {
      assert x in inst.Addresses() && Listed(inst, remaining, x);
      if SnapshotKept(config, inst) {
        KeptShares(config, inst, remaining, x);
      }
    }
  }

  /** Outside ARP mode nothing is claimed: the pass deletes an address of its networks exactly unless it is shared. */
  lemma WithoutArp(config: Config, inst: Instance, remaining: seq<Instance>, counts: map<string, nat>, clusters: seq<seq<Network>>, x: string)
    ensures Deletes(config, inst, remaining, Arp(false, counts), clusters, x)
            <==> !IsShared(config, inst, remaining, x) && exists k, n :: 0 <= k < |clusters| && 0 <= n < |clusters[k]| && clusters[k][n].ip == x
  {
  }

  /**
   Cleanup respects sharing, in every admission run and for every Service: while it is
   cleaned up, a tracked instance loses an address it lists exactly when a network with
   the address is unclaimed and no instance that remained at the detachment lists it with
   a snapshot that shares. With an unchanged snapshot such an instance was admitted since.
   */
  lemma CleanupRespectsSharing(sys: System, threads: nat, steps: seq<Step>, arp: Arp, clusters: seq<seq<Network>>, x: string, i: nat)
    requires sys.serialized && BenignRun(sys, threads, steps) && SettledRun(sys, threads, steps)
    requires var s := Run(sys, threads, steps);
             s.cleaning.Cleaning? && LiteralNetworks(s.cleaning.inst, clusters) && i < |s.tracked| && x in s.tracked[i].Addresses()
    ensures var s := Run(sys, threads, steps);
            var inst, remaining := s.cleaning.inst, s.cleaning.remaining;
            var deleted := Deletes(sys.config, inst, remaining, arp, clusters, x);
            && (deleted <==> Unclaimed(arp, clusters, x) && !(ListedBy(remaining, x) && SnapshotShares(sys.config, inst)))
            && (SnapshotKept(sys.config, inst) ==>
                  (deleted <==> i >= |remaining| && Unclaimed(arp, clusters, x) && !ListedBy(remaining, x)))
  {
    CleaningSafe(sys, threads, steps);
    var s := Run(sys, threads, steps);
    PassExact(sys.config, s.cleaning.inst, s.cleaning.remaining, arp, clusters, x);
    assert i < |s.cleaning.remaining| ==> s.cleaning.remaining[i] == s.tracked[i];
  }

  /**
   In ARP mode, with the counts of any state the ARP manager can reach, the pass deletes
   an address exactly when it is not shared and one of its networks has no registered claim.
   */
  lemma DeletesUnregistered(config: Config, inst: Instance, remaining: seq<Instance>, claims: seq<ArpClaims.Step>,
                            clusters: seq<seq<Network>>, x: string)
    ensures var s := ArpClaims.Run(claims);
            Deletes(config, inst, remaining, Arp(true, s.counts), clusters, x) <==>
              !IsShared(config, inst, remaining, x)
              && exists k, n :: 0 <= k < |clusters| && 0 <= n < |clusters[k]| && clusters[k][n].ip == x && s.On(clusters[k][n].arpName) == {}
  {
    var s := ArpClaims.Run(claims);
    forall name ensures Arp(true, s.counts).Claimed(name) <==> s.On(name) != {} {
      CountsRegistered(s, name);
    }
  }

  lemma CountsRegistered(s: ArpClaims.State, name: string)
    requires ArpClaims.Counted(s)
    ensures Arp(true, s.counts).Claimed(name) <==> s.On(name) != {}
  {
    assert s.Count(name) == |s.On(name)|;
  }

  /** The newcomer is real: a Service admitted during the cleanup of another loses the address they have in common. */
  lemma NewcomerLosesAddress(sys: System, a: Service, b: Service, x: string, arp: Arp) returns (steps: seq<Step>)
    requires a.uid != b.uid && x in a.addresses && x in b.addresses && !arp.Claimed(x)
    ensures var s := Run(sys, 1, steps);
            && s.cleaning == Cleaning(NewInstance(a), []) && s.tracked == [NewInstance(b)] && x in s.tracked[0].Addresses()
            && Deletes(sys.config, s.cleaning.inst, s.cleaning.remaining, arp, [[Network(x, x)]], x)
  {
    steps := AdmitAndDetach(sys, a);
    steps := AdmitAlone(sys, steps, b);
    assert !IsShared(sys.config, NewInstance(a), [], x);
    var clusters: seq<seq<Network>> := [[Network(x, x)]];
    assert clusters[0][0].ip == x;
  }
}
