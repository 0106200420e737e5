/**
 WireGuard tunnel claims: a tunnel is up exactly while somebody owns it, and a
 Service acquires the tunnels of all its VIPs or gives up what it acquired.
 */
module Tunnels {
  import opened Text

  type Owner = string
  type Key = string

  /** `configs` are the configured VIPs; `tunnels` those whose tunnel is up. */
  datatype State = State(configs: set<Key>, tunnels: set<Key>, owners: map<Key, set<Owner>>)
  {
    predicate Owns(key: Key, owner: Owner) { key in owners && owner in owners[key] }

    predicate CanAcquire(key: Key, owner: Owner, up: bool) {
      owner != "" && (Owns(key, owner) || key in tunnels || (key in configs && up))
    }

    function Claim(key: Key, owner: Owner): State {
      this.(tunnels := tunnels + {key}, owners := owners[key := (if key in owners then owners[key] else {}) + {owner}])
    }

    /** Acquisition; `up` says whether bringing up a new tunnel, with its policy routing, succeeds. */
    function Acquire(key: Key, owner: Owner, up: bool): State {
      if CanAcquire(key, owner, up) then Claim(key, owner) else this
    }

    function Release(key: Key, owner: Owner): State {
      if owner == "" || !Owns(key, owner) then this
      else
        var left := owners[key] - {owner};
        if left == {} then this.(tunnels := tunnels - {key}, owners := owners - {key})
        else this.(owners := owners[key := left])
    }
  }

  /** A tunnel exists exactly when its owner set is non-empty. */
  ghost predicate Valid(s: State)
  {
    && s.tunnels == s.owners.Keys
    && (forall key :: key in s.owners ==> s.owners[key] != {})
  }

  lemma ValidAcquire(s: State, key: Key, owner: Owner, up: bool)
    requires Valid(s)
    ensures Valid(s.Acquire(key, owner, up))
    ensures forall k, o :: s.Acquire(key, owner, up).Owns(k, o) <==> s.Owns(k, o) || (s.CanAcquire(key, owner, up) && k == key && o == owner)
    ensures s.Owns(key, owner) ==> s.Acquire(key, owner, up) == s
  {
    if s.Owns(key, owner) {
      assert s.owners[key] + {owner} == s.owners[key];
      assert s.tunnels + {key} == s.tunnels;
    }
    if s.CanAcquire(key, owner, up) {
      assert owner in s.Claim(key, owner).owners[key];
    }
  }

  lemma ValidRelease(s: State, key: Key, owner: Owner)
    requires Valid(s)
    ensures Valid(s.Release(key, owner))
    ensures forall k, o :: s.Release(key, owner).Owns(k, o) <==> s.Owns(k, o) && !(owner != "" && k == key && o == owner)
  {
    if s.Owns(key, owner) {
      forall o | o in s.owners[key] && o != owner ensures o in s.owners[key] - {owner} {
      }
    }
  }

  /** Whether an acquisition succeeds depends on the tunnel alone: it is up, or it is configured and comes up. */
  lemma AcquirableExactly(s: State, key: Key, owner: Owner, up: bool)
    requires Valid(s)
    ensures s.CanAcquire(key, owner, up) <==> owner != "" && (key in s.tunnels || (key in s.configs && up))
    ensures var s' := s.Acquire(key, owner, up);
            s'.tunnels == s.tunnels + (if s.CanAcquire(key, owner, up) then {key} else {}) && s'.configs == s.configs
  {
  }

  /** The tunnel goes down exactly with its last owner. */
  lemma ReleasedExactly(s: State, key: Key, owner: Owner)
    requires Valid(s)
    ensures s.Release(key, owner).tunnels == s.tunnels - (if owner != "" && s.Owns(key, owner) && s.owners[key] == {owner} then {key} else {})
  {
    if s.Owns(key, owner) {
      assert s.owners[key] - {owner} == {} <==> s.owners[key] == {owner};
    }
  }

  /** Repeating an acquisition or a release changes nothing. */
  lemma Idempotent(s: State, key: Key, owner: Owner, up: bool, again: bool)
    requires Valid(s)
    ensures s.CanAcquire(key, owner, up) ==> s.Acquire(key, owner, up).Acquire(key, owner, again) == s.Acquire(key, owner, up)
    ensures s.Release(key, owner).Release(key, owner) == s.Release(key, owner)
  {
    ValidAcquire(s, key, owner, up);
    ValidAcquire(s.Acquire(key, owner, up), key, owner, again);
    ValidRelease(s, key, owner);
  }

  /** States are determined by who owns what. */
  lemma SameOwners(a: State, b: State)
    requires Valid(a) && Valid(b) && a.configs == b.configs
    requires forall k, o :: a.Owns(k, o) <==> b.Owns(k, o)
    ensures a == b
  {
    forall k ensures k in a.owners <==> k in b.owners {
      if k in a.owners { var o :| o in a.owners[k]; assert a.Owns(k, o); }
      if k in b.owners { var o :| o in b.owners[k]; assert b.Owns(k, o); }
    }
    forall k | k in a.owners ensures a.owners[k] == b.owners[k] {
      forall o ensures o in a.owners[k] <==> o in b.owners[k] {
        assert a.Owns(k, o) <==> b.Owns(k, o);
      }
    }
  }

  /** A first claim and its release cancel out. */
  lemma AcquireThenRelease(s: State, key: Key, owner: Owner, up: bool)
    requires Valid(s) && s.CanAcquire(key, owner, up)
    ensures s.Acquire(key, owner, up).Release(key, owner) == s <==> !s.Owns(key, owner)
  {
    ValidAcquire(s, key, owner, up);
    ValidRelease(s.Acquire(key, owner, up), key, owner);
    if !s.Owns(key, owner) {
      SameOwners(s.Acquire(key, owner, up).Release(key, owner), s);
    }
  }

  // ---- The manager -----------------------------------------------------------------------

  class TunnelManager {
    const configs: set<Key>
    var tunnels: set<Key>
    var owners: map<Key, set<Owner>>

    ghost function View(): State
      reads this
    {
      State(configs, tunnels, owners)
    }

    constructor (configs: set<Key>)
      ensures View() == State(configs, {}, map[]) && Valid(View())
    {
      this.configs, tunnels, owners := configs, {}, map[];
    }

    method AcquireTunnelForVIP(vip: string, owner: Owner, up: bool) returns (ok: bool)
      requires Valid(View())
      modifies this
      ensures View() == old(View()).Acquire(StripCIDR(vip), owner, up) && Valid(View())
      ensures ok <==> owner != "" && (StripCIDR(vip) in old(tunnels) || (StripCIDR(vip) in configs && up))
      ensures tunnels == old(tunnels) + if ok then {StripCIDR(vip)} else {}
    {
      AcquirableExactly(View(), StripCIDR(vip), owner, up);
      var key := StripCIDR(vip);
      ValidAcquire(View(), key, owner, up);
      if owner == "" {
        return false;
      }
      if key in owners && owner in owners[key] {
        return true;
      }
      ok := EnsureTunnel(key, up);
      if !ok {
        return;
      }
      var claims := if key in owners then owners[key] else {};
      owners := owners[key := claims + {owner}];
      return true;
    }

    method EnsureTunnel(key: Key, up: bool) returns (ok: bool)
      modifies this`tunnels
      ensures ok == (key in old(tunnels) || (key in configs && up))
      ensures tunnels == if ok then old(tunnels) + {key} else old(tunnels)
    {
      if key in tunnels {
        return true;
      }
      if key !in configs || !up {
        return false;
      }
      tunnels := tunnels + {key};
      return true;
    }

    method ReleaseTunnelForVIP(vip: string, owner: Owner) returns (ok: bool)
      requires Valid(View())
      modifies this
      ensures View() == old(View()).Release(StripCIDR(vip), owner) && Valid(View())
      ensures ok == (owner != "")
    {
      var key := StripCIDR(vip);
      ValidRelease(View(), key, owner);
      if owner == "" {
        return false;
      }
      if key !in owners || owner !in owners[key] {
        return true;
      }
      owners := owners[key := owners[key] - {owner}];
      if owners[key] == {} {
        owners := owners - {key};
        tunnels := tunnels - {key};
      }
      return true;
    }

    /** The VIPs of a Service, all or none: see FailedAcquisition for what a failure leaves. */
    method AcquireServiceTunnels(vips: seq<string>, owner: Owner, up: seq<bool>) returns (ok: bool)
      requires Valid(View()) && |up| == |vips|
      modifies this
      ensures Valid(View())
      ensures ok == (AllConfigured(configs, vips) && FailingAt(old(View()), vips, owner, up).None?)
      ensures View() == if !AllConfigured(configs, vips) then old(View()) else AcquireAll(old(View()), vips, owner, up)
    {
      for i := 0 to |vips|
        invariant AllConfigured(configs, vips[..i])
      {
        if StripCIDR(vips[i]) !in configs {
          return false;
        }
      }
      ghost var start := View();
      for i := 0 to |vips|
        invariant Valid(View())
        invariant AllConfigured(configs, vips)
        invariant View() == Acquired(start, vips[..i], owner, up[..i])
        invariant FailingAt(start, vips[..i], owner, up[..i]).None?
      {
        assert vips[..i + 1][..i] == vips[..i] && up[..i + 1][..i] == up[..i];
        var got := AcquireTunnelForVIP(vips[i], owner, up[i]);
        if !got {
          FailsFirst(start, vips, owner, up, i);
          RollBack(vips[..i], owner);
          return false;
        }
      }
      assert vips[..|vips|] == vips && up[..|vips|] == up;
      return true;
    }

    method RollBack(acquired: seq<string>, owner: Owner)
      requires Valid(View())
      modifies this
      ensures View() == RolledBack(old(View()), acquired, owner) && Valid(View())
    {
      var i := |acquired|;
      assert acquired[..i] == acquired;
      while i > 0
        invariant 0 <= i <= |acquired| && Valid(View())
        invariant RolledBack(View(), acquired[..i], owner) == RolledBack(old(View()), acquired, owner)
      {
        i := i - 1;
        assert acquired[..i + 1][..i] == acquired[..i];
        var _ := ReleaseTunnelForVIP(acquired[i], owner);
      }
    }
  }

  // ---- Acquiring the tunnels of one Service ---------------------------------------------------

  predicate AllConfigured(configs: set<Key>, vips: seq<string>) {
    forall i :: 0 <= i < |vips| ==> StripCIDR(vips[i]) in configs
  }

  /** Acquiring the VIPs in order. */
  function Acquired(s: State, vips: seq<string>, owner: Owner, up: seq<bool>): State
    requires |up| == |vips|
    decreases |vips|
  {
    if vips == [] then s
    else
      var n := |vips| - 1;
      Acquired(s, vips[..n], owner, up[..n]).Acquire(StripCIDR(vips[n]), owner, up[n])
  }

  /** The first VIP whose acquisition fails. */
  function FailingAt(s: State, vips: seq<string>, owner: Owner, up: seq<bool>): Option<nat>
    requires |up| == |vips|
    decreases |vips|
  {
    if vips == [] then None
    else
      var n := |vips| - 1;
      var earlier := FailingAt(s, vips[..n], owner, up[..n]);
      if earlier.Some? then earlier
      else if Acquired(s, vips[..n], owner, up[..n]).CanAcquire(StripCIDR(vips[n]), owner, up[n]) then None else Some(n)
  }

  /** Releasing the VIPs from the last to the first. */
  function RolledBack(s: State, vips: seq<string>, owner: Owner): State
    decreases |vips|
  {
    if vips == [] then s else RolledBack(s.Release(StripCIDR(vips[|vips| - 1]), owner), vips[..|vips| - 1], owner)
  }

  function AcquireAll(s: State, vips: seq<string>, owner: Owner, up: seq<bool>): State
    requires |up| == |vips|
  {
    match FailingAt(s, vips, owner, up)
    case None => Acquired(s, vips, owner, up)
    case Some(i) => if i <= |vips| then RolledBack(Acquired(s, vips[..i], owner, up[..i]), vips[..i], owner) else s
  }

  lemma {:induction false} FailsFirst(s: State, vips: seq<string>, owner: Owner, up: seq<bool>, i: nat)
    requires |up| == |vips| && i < |vips| && FailingAt(s, vips[..i], owner, up[..i]).None?
    requires !Acquired(s, vips[..i], owner, up[..i]).CanAcquire(StripCIDR(vips[i]), owner, up[i])
    ensures FailingAt(s, vips, owner, up) == Some(i)
    decreases |vips|
  {
    if i == |vips| - 1 {
      assert FailingAt(s, vips[..i], owner, up[..i]).None?;
    } else {
      var n := |vips| - 1;
      assert vips[..n][..i] == vips[..i] && up[..n][..i] == up[..i];
      FailsFirst(s, vips[..n], owner, up[..n], i);
    }
  }

  ghost predicate Among(vips: seq<string>, key: Key)
  {
    exists i :: 0 <= i < |vips| && StripCIDR(vips[i]) == key
  }

  lemma AmongLast(vips: seq<string>, key: Key)
    requires vips != []
    ensures Among(vips, key) <==> Among(vips[..|vips| - 1], key) || StripCIDR(vips[|vips| - 1]) == key
  {
    var n := |vips| - 1;
    if i :| 0 <= i < n && StripCIDR(vips[..n][i]) == key {
      assert StripCIDR(vips[i]) == key;
    }
    if i :| 0 <= i < |vips| && StripCIDR(vips[i]) == key {
      assert i < n ==> StripCIDR(vips[..n][i]) == key;
    }
  }

  lemma {:induction false} AcquiredOwners(s: State, vips: seq<string>, owner: Owner, up: seq<bool>)
    requires |up| == |vips| && Valid(s) && FailingAt(s, vips, owner, up).None?
    ensures var s' := Acquired(s, vips, owner, up);
            Valid(s') && s'.configs == s.configs && forall k, o :: s'.Owns(k, o) <==> s.Owns(k, o) || (o == owner && Among(vips, k))
    decreases |vips|
  {
    if vips == [] {
    } else {
      var n := |vips| - 1;
      AcquiredOwners(s, vips[..n], owner, up[..n]);
      ValidAcquire(Acquired(s, vips[..n], owner, up[..n]), StripCIDR(vips[n]), owner, up[n]);
      forall k ensures Among(vips, k) <==> Among(vips[..n], k) || StripCIDR(vips[n]) == k { AmongLast(vips, k); }
    }
  }

  lemma {:induction false} RolledBackOwners(s: State, vips: seq<string>, owner: Owner)
    requires Valid(s)
    ensures var s' := RolledBack(s, vips, owner);
            Valid(s') && s'.configs == s.configs && forall k, o :: s'.Owns(k, o) <==> s.Owns(k, o) && !(owner != "" && o == owner && Among(vips, k))
    decreases |vips|
  {
    if vips == [] {
    } else {
      var n := |vips| - 1;
      ValidRelease(s, StripCIDR(vips[n]), owner);
      RolledBackOwners(s.Release(StripCIDR(vips[n]), owner), vips[..n], owner);
      forall k ensures Among(vips, k) <==> Among(vips[..n], k) || StripCIDR(vips[n]) == k { AmongLast(vips, k); }
    }
  }

  lemma {:induction false} FailingPrefix(s: State, vips: seq<string>, owner: Owner, up: seq<bool>)
    requires |up| == |vips| && FailingAt(s, vips, owner, up).Some?
    ensures var i := FailingAt(s, vips, owner, up).value;
            i < |vips| && FailingAt(s, vips[..i], owner, up[..i]).None?
    decreases |vips|
  {
    var n := |vips| - 1;
    if FailingAt(s, vips[..n], owner, up[..n]).Some? {
      FailingPrefix(s, vips[..n], owner, up[..n]);
      var i := FailingAt(s, vips, owner, up).value;
      assert vips[..n][..i] == vips[..i] && up[..n][..i] == up[..i];
    }
  }

  /** The VIP's tunnel is up already, by an earlier claim or an earlier VIP of the same Service, or comes up now. */
  ghost predicate ComesUp(s: State, vips: seq<string>, up: seq<bool>, i: nat)
    requires i < |vips| == |up|
  {
    StripCIDR(vips[i]) in s.tunnels || Among(vips[..i], StripCIDR(vips[i])) || (StripCIDR(vips[i]) in s.configs && up[i])
  }

  /** The acquisition of a Service's tunnels fails exactly at the first VIP whose tunnel is not up and does not come up. */
  lemma {:induction false} FailsAtFirst(s: State, vips: seq<string>, owner: Owner, up: seq<bool>)
    requires |up| == |vips| && Valid(s) && owner != ""
    ensures var f := FailingAt(s, vips, owner, up);
            && (f.None? <==> forall i :: 0 <= i < |vips| ==> ComesUp(s, vips, up, i))
            && (f.Some? ==> f.value < |vips| && !ComesUp(s, vips, up, f.value) && forall i :: 0 <= i < f.value ==> ComesUp(s, vips, up, i))
    decreases |vips|
  {
    if vips == [] {
    } else {
      var n := |vips| - 1;
      var before, ups := vips[..n], up[..n];
      FailsAtFirst(s, before, owner, ups);
      forall i | 0 <= i < n ensures ComesUp(s, before, ups, i) <==> ComesUp(s, vips, up, i) {
        assert before[..i] == vips[..i];
      }
      if FailingAt(s, before, owner, ups).None? {
        AcquiredOwners(s, before, owner, ups);
        var sofar, key := Acquired(s, before, owner, ups), StripCIDR(vips[n]);
        UpExactly(s, sofar, before, owner, key);
        AcquirableExactly(sofar, key, owner, up[n]);
        assert FailingAt(s, vips, owner, up).None? <==> ComesUp(s, vips, up, n);
        assert forall i :: 0 <= i < n ==> ComesUp(s, before, ups, i);
      } else {
        var f := FailingAt(s, vips, owner, up).value;
        assert !ComesUp(s, before, ups, f);
      }
    }
  }

  lemma UpExactly(s: State, s': State, vips: seq<string>, owner: Owner, key: Key)
    requires Valid(s) && Valid(s') && forall k, o :: s'.Owns(k, o) <==> s.Owns(k, o) || (o == owner && Among(vips, k))
    ensures key in s'.tunnels <==> key in s.tunnels || Among(vips, key)
  {
    if key in s.tunnels {
      var o :| o in s.owners[key];
      assert s.Owns(key, o) && s'.Owns(key, o);
    }
    if Among(vips, key) {
      assert s'.Owns(key, owner);
    }
    if key in s'.tunnels {
      var o :| o in s'.owners[key];
      assert s'.Owns(key, o);
    }
  }

  lemma {:induction false} NamelessFails(s: State, vips: seq<string>, up: seq<bool>)
    requires |up| == |vips| && vips != []
    ensures FailingAt(s, vips, "", up) == Some(0)
    decreases |vips|
  {
    if |vips| == 1 {
      assert vips[..0] == [];
    } else {
      NamelessFails(s, vips[..|vips| - 1], up[..|vips| - 1]);
    }
  }

  /**
   A failed acquisition of several VIPs rolls back to exactly the owners and
   tunnels it started from if and only if the owner held none of the VIPs that
   were processed before the failing one.
   */
  lemma FailedAcquisition(s: State, vips: seq<string>, owner: Owner, up: seq<bool>)
    requires |up| == |vips| && Valid(s) && FailingAt(s, vips, owner, up).Some?
    ensures var i := FailingAt(s, vips, owner, up).value;
            && i < |vips|
            && (AcquireAll(s, vips, owner, up) == s <==> forall k :: 0 <= k < i ==> !s.Owns(StripCIDR(vips[k]), owner))
  {
    FailingPrefix(s, vips, owner, up);
    var i := FailingAt(s, vips, owner, up).value;
    if owner == "" {
      NamelessFails(s, vips, up);
    } else {
      var done := vips[..i];
      AcquiredOwners(s, done, owner, up[..i]);
      RolledBackOwners(Acquired(s, done, owner, up[..i]), done, owner);
      var s' := AcquireAll(s, vips, owner, up);
      if forall k :: 0 <= k < i ==> !s.Owns(StripCIDR(vips[k]), owner) {
        forall k, o ensures s'.Owns(k, o) <==> s.Owns(k, o) {
          if Among(done, k) && o == owner {
            var j :| 0 <= j < |done| && StripCIDR(done[j]) == k;
            assert StripCIDR(vips[j]) == k;
          }
        }
        SameOwners(s', s);
      } else {
        var k :| 0 <= k < i && s.Owns(StripCIDR(vips[k]), owner);
        assert StripCIDR(done[k]) == StripCIDR(vips[k]);
        assert Among(done, StripCIDR(vips[k]));
        assert !s'.Owns(StripCIDR(vips[k]), owner);
      }
    }
  }

  /** A successful acquisition adds exactly the owner's claims, with every tunnel up. */
  lemma SuccessfulAcquisition(s: State, vips: seq<string>, owner: Owner, up: seq<bool>)
    requires |up| == |vips| && Valid(s) && FailingAt(s, vips, owner, up).None?
    ensures var s' := AcquireAll(s, vips, owner, up);
            && (forall k, o :: s'.Owns(k, o) <==> s.Owns(k, o) || (o == owner && Among(vips, k)))
            && forall k :: Among(vips, k) ==> k in s'.tunnels
  {
    AcquiredOwners(s, vips, owner, up);
    var s' := AcquireAll(s, vips, owner, up);
    forall k | Among(vips, k) ensures k in s'.tunnels { assert s'.Owns(k, owner); }
  }

  // ---- Runs ---------------------------------------------------------------------------------------

  datatype Step =
    | Acquire(vip: string, owner: Owner, comesUp: bool)
    | Release(vip: string, owner: Owner)
    | AcquireService(vips: seq<string>, owner: Owner, up: seq<bool>)

  function Next(s: State, step: Step): State {
    match step
    case Acquire(vip, owner, up) => s.Acquire(StripCIDR(vip), owner, up)
    case Release(vip, owner) => s.Release(StripCIDR(vip), owner)
    case AcquireService(vips, owner, up) =>
      if |up| == |vips| && AllConfigured(s.configs, vips) then AcquireAll(s, vips, owner, up) else s
  }

  function Run(configs: set<Key>, steps: seq<Step>): State
    decreases |steps|
  {
    if steps == [] then State(configs, {}, map[]) else Next(Run(configs, steps[..|steps| - 1]), steps[|steps| - 1])
  }

  /** Over every run a tunnel is up exactly while its owner set is non-empty. */
  lemma {:induction false} TunnelIffOwned(configs: set<Key>, steps: seq<Step>)
    ensures var s := Run(configs, steps);
            Valid(s) && forall key :: key in s.tunnels <==> exists o :: s.Owns(key, o)
    decreases |steps|
  {
    if steps == [] {
      assert Run(configs, steps) == State(configs, {}, map[]);
    } else {
      TunnelIffOwned(configs, steps[..|steps| - 1]);
      var s := Run(configs, steps[..|steps| - 1]);
      match steps[|steps| - 1] {
        case Acquire(vip, owner, up) => ValidAcquire(s, StripCIDR(vip), owner, up);
        case Release(vip, owner) => ValidRelease(s, StripCIDR(vip), owner);
        case AcquireService(vips, owner, up) => if |up| == |vips| { AcquireAllValid(s, vips, owner, up); }
      }
    }
    var s := Run(configs, steps);
    forall key | key in s.tunnels ensures exists o :: s.Owns(key, o) {
      var o :| o in s.owners[key];
      assert s.Owns(key, o);
    }
  }

  /** In every run a call is about the address before the slash: a claim is made if the tunnel is up or comes up, and a release ends it. */
  lemma CallsExactly(configs: set<Key>, steps: seq<Step>, address: Key, prefix: string, owner: Owner, up: bool)
    requires '/' !in address && owner != ""
    ensures var s, vip := Run(configs, steps), address + "/" + prefix;
            var acquired, released := Next(s, Acquire(vip, owner, up)), Next(s, Release(vip, owner));
            && (acquired.Owns(address, owner) <==> address in s.tunnels || (address in s.configs && up))
            && !released.Owns(address, owner)
            && forall k, o :: k != address || o != owner ==> (acquired.Owns(k, o) <==> s.Owns(k, o)) && (released.Owns(k, o) <==> s.Owns(k, o))
  {
    var s := Run(configs, steps);
    TunnelIffOwned(configs, steps);
    Stripped(address, prefix);
    ValidAcquire(s, address, owner, up);
    AcquirableExactly(s, address, owner, up);
    ValidRelease(s, address, owner);
  }

  /** In every run a Service whose VIPs are all configured gets all its tunnels if and only if each is up or comes up. */
  lemma ServiceAcquires(configs: set<Key>, steps: seq<Step>, vips: seq<string>, owner: Owner, up: seq<bool>)
    requires |up| == |vips| && owner != "" && vips != [] && AllConfigured(Run(configs, steps).configs, vips)
    requires forall i :: 0 <= i < |vips| ==> !Run(configs, steps).Owns(StripCIDR(vips[i]), owner)
    ensures var s := Run(configs, steps);
            var s' := Next(s, AcquireService(vips, owner, up));
            if forall i :: 0 <= i < |vips| ==> ComesUp(s, vips, up, i)
            then forall i :: 0 <= i < |vips| ==> s'.Owns(StripCIDR(vips[i]), owner) && StripCIDR(vips[i]) in s'.tunnels
            else s' == s
  {
    var s := Run(configs, steps);
    TunnelIffOwned(configs, steps);
    FailsAtFirst(s, vips, owner, up);
    if FailingAt(s, vips, owner, up).None? {
      SuccessfulAcquisition(s, vips, owner, up);
      assert forall i :: 0 <= i < |vips| ==> Among(vips, StripCIDR(vips[i]));
    } else {
      FailedAcquisition(s, vips, owner, up);
    }
  }

  lemma AcquireAllValid(s: State, vips: seq<string>, owner: Owner, up: seq<bool>)
    requires |up| == |vips| && Valid(s)
    ensures Valid(AcquireAll(s, vips, owner, up))
  {
    match FailingAt(s, vips, owner, up)
    case None => AcquiredOwners(s, vips, owner, up);
    case Some(i) =>
      FailingPrefix(s, vips, owner, up);
      AcquiredOwners(s, vips[..i], owner, up[..i]);
      RolledBackOwners(Acquired(s, vips[..i], owner, up[..i]), vips[..i], owner);
  }

  // ---- An acquisition among others --------------------------------------------------------------

  /** Where the acquisition of a Service's tunnels stands; the lock is taken per VIP. */
  datatype Phase = Acquiring(next: nat) | RollingBack(failed: nat, left: nat) | Failed(at: nat) | Succeeded

  datatype Acquisition = Acquisition(s: State, phase: Phase)

  /** One VIP of this acquisition, or a call of another owner in between. */
  datatype Turn = Mine(up: bool) | Others(step: Step)

  function Take(a: Acquisition, vips: seq<string>, owner: Owner, turn: Turn): Acquisition {
    match turn
    case Others(step) => if step.owner == owner then a else a.(s := Next(a.s, step))
    case Mine(up) =>
      match a.phase
      case Acquiring(i) =>
        if i >= |vips| then a.(phase := Succeeded)
        else if a.s.CanAcquire(StripCIDR(vips[i]), owner, up)
        then Acquisition(a.s.Acquire(StripCIDR(vips[i]), owner, up), Acquiring(i + 1))
        else a.(phase := RollingBack(i, i))
      case RollingBack(f, n) =>
        if n == 0 || n > |vips| then a.(phase := Failed(f))
        else Acquisition(a.s.Release(StripCIDR(vips[n - 1]), owner), RollingBack(f, n - 1))
      case _ => a
  }

  function TakeAll(s: State, vips: seq<string>, owner: Owner, turns: seq<Turn>): Acquisition
    decreases |turns|
  {
    if turns == [] then Acquisition(s, Acquiring(0))
    else Take(TakeAll(s, vips, owner, turns[..|turns| - 1]), vips, owner, turns[|turns| - 1])
  }

  /** What the owner holds of a key, by where the acquisition stands. */
  ghost predicate Holds(start: State, vips: seq<string>, owner: Owner, phase: Phase, key: Key)
    requires Sensible(vips, owner, phase)
  {
    match phase
    case Acquiring(i) => start.Owns(key, owner) || Among(vips[..i], key)
    case RollingBack(f, n) => (start.Owns(key, owner) || Among(vips[..f], key)) && !Among(vips[n..f], key)
    case Failed(f) => start.Owns(key, owner) && !Among(vips[..f], key)
    case Succeeded => start.Owns(key, owner) || Among(vips, key)
  }

  /** The phase is within the VIPs; an owner without name never gets past the first. */
  predicate Sensible(vips: seq<string>, owner: Owner, phase: Phase) {
    match phase
    case Acquiring(i) => i <= |vips| && (owner == "" ==> i == 0)
    case RollingBack(f, n) => n <= f < |vips| && (owner == "" ==> f == 0)
    case Failed(f) => f < |vips|
    case Succeeded => true
  }

  /** Calls of others leave this owner's claims alone. */
  lemma OthersLeaveClaims(s: State, step: Step, owner: Owner)
    requires Valid(s) && step.owner != owner
    ensures Valid(Next(s, step)) && forall key :: Next(s, step).Owns(key, owner) <==> s.Owns(key, owner)
  {
    match step {
      case Acquire(vip, other, up) => ValidAcquire(s, StripCIDR(vip), other, up);
      case Release(vip, other) => ValidRelease(s, StripCIDR(vip), other);
      case AcquireService(vips, other, up) =>
        if |up| == |vips| && AllConfigured(s.configs, vips) {
          AcquireAllValid(s, vips, other, up);
          match FailingAt(s, vips, other, up) {
            case None => AcquiredOwners(s, vips, other, up);
            case Some(i) =>
              FailingPrefix(s, vips, other, up);
              AcquiredOwners(s, vips[..i], other, up[..i]);
              RolledBackOwners(Acquired(s, vips[..i], other, up[..i]), vips[..i], other);
          }
        }
    }
  }

  /** A turn of this acquisition leaves everybody else's claims alone. */
  lemma MineLeavesOthers(a: Acquisition, vips: seq<string>, owner: Owner, up: bool)
    requires Valid(a.s)
    ensures var a' := Take(a, vips, owner, Mine(up));
            Valid(a'.s) && forall key, o :: o != owner ==> (a'.s.Owns(key, o) <==> a.s.Owns(key, o))
  {
    match a.phase {
      case Acquiring(i) => if i < |vips| { ValidAcquire(a.s, StripCIDR(vips[i]), owner, up); }
      case RollingBack(f, n) => if 0 < n <= |vips| { ValidRelease(a.s, StripCIDR(vips[n - 1]), owner); }
      case _ =>
    }
  }

  /** A bound on the turns this acquisition still needs. */
  function TurnsLeft(vips: seq<string>, phase: Phase): nat {
    match phase
    case Acquiring(i) => if i <= |vips| then 2 * |vips| - i + 2 else 1
    case RollingBack(f, n) => n + 1
    case _ => 0
  }

  /** Whatever others do, a turn of an unfinished acquisition brings it nearer to its end; it goes on exactly while tunnels come up. */
  lemma TurnsRunOut(a: Acquisition, vips: seq<string>, owner: Owner, up: bool)
    requires Valid(a.s) && Sensible(vips, owner, a.phase) && (a.phase.Acquiring? || a.phase.RollingBack?)
    ensures var a' := Take(a, vips, owner, Mine(up));
            && TurnsLeft(vips, a'.phase) < TurnsLeft(vips, a.phase)
            && (a'.phase.Succeeded? <==> a.phase == Acquiring(|vips|))
            && (a'.phase.Failed? <==> a.phase.RollingBack? && a.phase.left == 0)
            && (a.phase.Acquiring? && a.phase.next < |vips| ==>
                  var key := StripCIDR(vips[a.phase.next]);
                  (a'.phase.Acquiring? <==> owner != "" && (key in a.s.tunnels || (key in a.s.configs && up))))
  {
    if a.phase.Acquiring? && a.phase.next < |vips| {
      AcquirableExactly(a.s, StripCIDR(vips[a.phase.next]), owner, up);
    }
  }

  lemma AmongFirst(vips: seq<string>, n: nat, f: nat, key: Key)
    requires n < f <= |vips|
    ensures Among(vips[n..f], key) <==> StripCIDR(vips[n]) == key || Among(vips[n + 1..f], key)
  {
    var whole, rest := vips[n..f], vips[n + 1..f];
    if Among(rest, key) {
      var i :| 0 <= i < |rest| && StripCIDR(rest[i]) == key;
      assert whole[i + 1] == rest[i];
    }
    if Among(whole, key) {
      var i :| 0 <= i < |whole| && StripCIDR(whole[i]) == key;
      assert i > 0 ==> rest[i - 1] == whole[i];
    }
    assert whole[0] == vips[n];
  }

  lemma MineHolds(start: State, a: Acquisition, vips: seq<string>, owner: Owner, up: bool, key: Key)
    requires Valid(a.s) && Sensible(vips, owner, a.phase) && (a.s.Owns(key, owner) <==> Holds(start, vips, owner, a.phase, key))
    ensures var a' := Take(a, vips, owner, Mine(up));
            Sensible(vips, owner, a'.phase) && (a'.s.Owns(key, owner) <==> Holds(start, vips, owner, a'.phase, key))
  {
    match a.phase {
      case Acquiring(i) =>
        if i < |vips| {
          ValidAcquire(a.s, StripCIDR(vips[i]), owner, up);
          assert vips[..i + 1][..i] == vips[..i] && vips[i..i] == [];
          AmongLast(vips[..i + 1], key);
        } else {
          assert vips[..i] == vips;
        }
      case RollingBack(f, n) =>
        if n > 0 {
          ValidRelease(a.s, StripCIDR(vips[n - 1]), owner);
          AmongFirst(vips, n - 1, f, key);
        } else {
          assert vips[0..f] == vips[..f];
        }
      case _ =>
    }
  }

  ghost predicate AcquisitionOk(start: State, a: Acquisition, vips: seq<string>, owner: Owner)
  {
    && Valid(a.s) && Sensible(vips, owner, a.phase)
    && forall key :: a.s.Owns(key, owner) <==> Holds(start, vips, owner, a.phase, key)
  }

  /**
   An acquisition interleaved with any calls of other owners: at every moment the owner
   holds exactly what its phase says. In particular a success adds all its VIPs, and a
   failure leaves what it held before, without the VIPs processed before the failing one.
   */
  lemma {:induction false} InterleavedAcquisition(start: State, vips: seq<string>, owner: Owner, turns: seq<Turn>)
    requires Valid(start)
    ensures AcquisitionOk(start, TakeAll(start, vips, owner, turns), vips, owner)
    decreases |turns|
  {
    if turns == [] {
      assert forall key :: !Among(vips[..0], key);
    } else {
      InterleavedAcquisition(start, vips, owner, turns[..|turns| - 1]);
      TurnOk(start, TakeAll(start, vips, owner, turns[..|turns| - 1]), vips, owner, turns[|turns| - 1]);
    }
  }

  lemma TurnOk(start: State, a: Acquisition, vips: seq<string>, owner: Owner, turn: Turn)
    requires AcquisitionOk(start, a, vips, owner)
    ensures AcquisitionOk(start, Take(a, vips, owner, turn), vips, owner)
  {
    match turn {
      case Others(step) =>
        if step.owner != owner {
          OthersLeaveClaims(a.s, step, owner);
        }
      case Mine(up) =>
        MineLeavesOthers(a, vips, owner, up);
        var a' := Take(a, vips, owner, turn);
        MineHolds(start, a, vips, owner, up, "");
        forall key ensures a'.s.Owns(key, owner) <==> Holds(start, vips, owner, a'.phase, key) {
          MineHolds(start, a, vips, owner, up, key);
        }
    }
  }
}
