/**
 Address recovery at start-up: tagged addresses that no longer belong to this node
 are removed from the kernel, judged by the lease holders of the API server.
 */
module Recovery {
  import opened Text
  import Admission
  import LeaseVips

  // ---- The kernel sweep --------------------------------------------------------------------

  const FIRST_USER_PROTOCOL := 4

  /** A kernel address. */
  datatype Address = Address(linkIndex: int, ip: Option<string>, prefix: nat, protocol: int)
  {
    function IP(): string { if ip.Some? then ip.value else "<nil>" }
  }

  predicate IsKubeVIPAddress(a: Address, protocol: int) {
    protocol >= FIRST_USER_PROTOCOL && a.protocol == protocol
  }

  function AddressKey(a: Address): string {
    if a.linkIndex <= 0 || a.ip.None? then "" else Join([Decimal(a.linkIndex), a.ip.value, Decimal(a.prefix)], '/')
  }

  /** The text of an IP address has no slash. */
  ghost predicate RealIPs(links: seq<seq<Address>>)
  {
    forall l, i :: 0 <= l < |links| && 0 <= i < |links[l]| && links[l][i].ip.Some? ==> '/' !in links[l][i].ip.value
  }

  /** A usable key determines the link, the address and the prefix length. */
  lemma KeyDetermines(a: Address, b: Address)
    requires AddressKey(a) != "" && AddressKey(a) == AddressKey(b)
    requires '/' !in a.ip.value && '/' !in b.ip.value
    ensures a.linkIndex == b.linkIndex && a.ip == b.ip && a.prefix == b.prefix
  {
    var x, y := [Decimal(a.linkIndex), a.ip.value, Decimal(a.prefix)], [Decimal(b.linkIndex), b.ip.value, Decimal(b.prefix)];
    SplitJoin(x, '/');
    SplitJoin(y, '/');
    assert x == y;
    assert x[0] == y[0] && x[1] == y[1] && x[2] == y[2];
    DecimalInjective(a.linkIndex, b.linkIndex);
    DecimalInjective(a.prefix, b.prefix);
  }

  lemma KeyUsable(a: Address)
    ensures AddressKey(a) == "" <==> a.linkIndex <= 0 || a.ip.None?
  {
    if a.linkIndex > 0 && a.ip.Some? {
      assert AddressKey(a) == Decimal(a.linkIndex) + ['/'] + Join([a.ip.value, Decimal(a.prefix)], '/');
    }
  }

  /** A tagged address of the link with this key has a retained IP. */
  ghost predicate LinkRetains(protocol: int, vips: set<string>, link: seq<Address>, key: string)
  {
    exists i :: 0 <= i < |link| && IsKubeVIPAddress(link[i], protocol) && link[i].IP() in vips && AddressKey(link[i]) == key
  }

  ghost predicate KeyRetained(protocol: int, vips: set<string>, links: seq<seq<Address>>, key: string)
  {
    exists l :: 0 <= l < |links| && LinkRetains(protocol, vips, links[l], key)
  }

  method RetainedKubeVIPAddressKeys(protocol: int, vips: set<string>, links: seq<seq<Address>>) returns (retained: set<string>)
    ensures forall key :: key in retained <==> KeyRetained(protocol, vips, links, key)
  {
    retained := {};
    for l := 0 to |links|
      invariant forall key :: key in retained <==> KeyRetained(protocol, vips, links[..l], key)
    {
      ghost var before := retained;
      var link := links[l];
      for i := 0 to |link|
        invariant forall key :: key in retained <==> key in before || LinkRetains(protocol, vips, link[..i], key)
      {
        LinkRetainsStep(protocol, vips, link, i);
        if IsKubeVIPAddress(link[i], protocol) && link[i].IP() in vips {
          retained := retained + {AddressKey(link[i])};
        }
      }
      assert link[..|link|] == link;
      KeyRetainedStep(protocol, vips, links, l);
    }
    assert links[..|links|] == links;
  }

  lemma LinkRetainsStep(protocol: int, vips: set<string>, link: seq<Address>, i: nat)
    requires i < |link|
    ensures forall key :: LinkRetains(protocol, vips, link[..i + 1], key) <==>
              (LinkRetains(protocol, vips, link[..i], key)
               || (IsKubeVIPAddress(link[i], protocol) && link[i].IP() in vips && AddressKey(link[i]) == key))
  {
    var longer, shorter := link[..i + 1], link[..i];
    assert longer == shorter + [link[i]];
    forall key | LinkRetains(protocol, vips, shorter, key) ensures LinkRetains(protocol, vips, longer, key) {
      var k :| 0 <= k < |shorter| && IsKubeVIPAddress(shorter[k], protocol) && shorter[k].IP() in vips && AddressKey(shorter[k]) == key;
      assert longer[k] == shorter[k];
    }
    assert longer[i] == link[i];
  }

  lemma KeyRetainedStep(protocol: int, vips: set<string>, links: seq<seq<Address>>, l: nat)
    requires l < |links|
    ensures forall key :: KeyRetained(protocol, vips, links[..l + 1], key) <==>
              (KeyRetained(protocol, vips, links[..l], key) || LinkRetains(protocol, vips, links[l], key))
  {
    var longer, shorter := links[..l + 1], links[..l];
    assert longer == shorter + [links[l]];
    forall key | KeyRetained(protocol, vips, shorter, key) ensures KeyRetained(protocol, vips, longer, key) {
      var k :| 0 <= k < |shorter| && LinkRetains(protocol, vips, shorter[k], key);
      assert longer[k] == shorter[k];
    }
    assert longer[l] == links[l];
  }

  /** What the sweep leaves alone. */
  predicate Kept(protocol: int, retained: set<string>, a: Address) {
    !IsKubeVIPAddress(a, protocol) || AddressKey(a) == "" || AddressKey(a) in retained
  }

  function Sweep(protocol: int, retained: set<string>, addresses: seq<Address>): seq<Address> {
    if addresses == [] then []
    else
      var last := addresses[|addresses| - 1];
      Sweep(protocol, retained, addresses[..|addresses| - 1]) + (if Kept(protocol, retained, last) then [last] else [])
  }

  /** Nothing kept is lost and nothing appears, even when a deletion fails. */
  ghost predicate Harmless(protocol: int, retained: set<string>, before: seq<Address>, after: seq<Address>)
  {
    && (forall a :: a in before && Kept(protocol, retained, a) ==> a in after)
    && (forall a :: a in after ==> a in before)
  }

  /** Every address to be removed can be removed. */
  ghost predicate Deletable(protocol: int, retained: set<string>, link: seq<Address>, undeletable: set<Address>)
  {
    forall i :: 0 <= i < |link| && !Kept(protocol, retained, link[i]) ==> link[i] !in undeletable
  }

  lemma {:induction false} SweepMembers(protocol: int, retained: set<string>, addresses: seq<Address>)
    ensures forall a :: a in Sweep(protocol, retained, addresses) <==> a in addresses && Kept(protocol, retained, a)
  {
    if addresses == [] {
    } else {
      SweepMembers(protocol, retained, addresses[..|addresses| - 1]);
    }
  }

  lemma StoppedWithin(protocol: int, retained: set<string>, addresses: seq<Address>, i: nat)
    requires i <= |addresses|
    ensures Harmless(protocol, retained, addresses, Sweep(protocol, retained, addresses[..i]) + addresses[i..])
  {
    SweepMembers(protocol, retained, addresses[..i]);
    assert addresses == addresses[..i] + addresses[i..];
  }

  lemma LinkStep(protocol: int, retained: set<string>, addresses: seq<Address>, i: nat, undeletable: set<Address>)
    requires i < |addresses|
    ensures Sweep(protocol, retained, addresses[..i + 1])
            == Sweep(protocol, retained, addresses[..i]) + (if Kept(protocol, retained, addresses[i]) then [addresses[i]] else [])
    ensures Deletable(protocol, retained, addresses[..i + 1], undeletable) <==>
              Deletable(protocol, retained, addresses[..i], undeletable) && (Kept(protocol, retained, addresses[i]) || addresses[i] !in undeletable)
    ensures Deletable(protocol, retained, addresses, undeletable) ==> Kept(protocol, retained, addresses[i]) || addresses[i] !in undeletable
  {
    var longer, shorter := addresses[..i + 1], addresses[..i];
    assert longer[..i] == shorter && longer[i] == addresses[i];
    assert forall k :: 0 <= k < i ==> longer[k] == shorter[k];
  }

  method CleanupLink(protocol: int, retained: set<string>, addresses: seq<Address>, undeletable: set<Address>)
    returns (left: seq<Address>, removed: nat, ok: bool)
    ensures ok ==> left == Sweep(protocol, retained, addresses)
    ensures ok == Deletable(protocol, retained, addresses, undeletable)
    ensures Harmless(protocol, retained, addresses, left)
    ensures |left| + removed == |addresses|
  {
    left, removed, ok := [], 0, true;
    for i := 0 to |addresses|
      invariant left == Sweep(protocol, retained, addresses[..i]) && |left| + removed == i
      invariant Deletable(protocol, retained, addresses[..i], undeletable)
    {
      LinkStep(protocol, retained, addresses, i, undeletable);
      if Kept(protocol, retained, addresses[i]) {
        left := left + [addresses[i]];
        continue;
      }
      if addresses[i] in undeletable {
        StoppedWithin(protocol, retained, addresses, i);
        left, ok := left + addresses[i..], false;
        return;
      }
      removed := removed + 1;
    }
    assert addresses[..|addresses|] == addresses;
    SweepMembers(protocol, retained, addresses);
  }

  ghost predicate AllHarmless(protocol: int, retained: set<string>, links: seq<seq<Address>>, left: seq<seq<Address>>)
  {
    |left| == |links| && forall l :: 0 <= l < |links| ==> Harmless(protocol, retained, links[l], left[l])
  }

  ghost predicate AllSwept(protocol: int, retained: set<string>, links: seq<seq<Address>>, left: seq<seq<Address>>)
  {
    |left| == |links| && forall l :: 0 <= l < |links| ==> left[l] == Sweep(protocol, retained, links[l])
  }

  ghost predicate AllDeletable(protocol: int, retained: set<string>, links: seq<seq<Address>>, undeletable: set<Address>)
  {
    forall l :: 0 <= l < |links| ==> Deletable(protocol, retained, links[l], undeletable)
  }

  /** Listing the links fails at once, listing the addresses of a link when its turn comes. */
  predicate ReadFails(links: seq<seq<Address>>, failsAt: Option<nat>) {
    failsAt.Some? && (failsAt.value == 0 || failsAt.value < |links|)
  }

  /** Sweeps link by link; stops at the first deletion or listing that fails. */
  method CleanupKubeVIPAddresses(protocol: int, retained: set<string>, links: seq<seq<Address>>, undeletable: set<Address>, failsAt: Option<nat>)
    returns (left: seq<seq<Address>>, removed: nat, ok: bool)
    ensures AllHarmless(protocol, retained, links, left)
    ensures ok ==> AllSwept(protocol, retained, links, left)
    ensures ok == (AllDeletable(protocol, retained, links, undeletable) && !ReadFails(links, failsAt))
  {
    if failsAt == Some(0) {
      return links, 0, false;
    }
    left, removed, ok := [], 0, true;
    for l := 0 to |links|
      invariant ok
      invariant AllSwept(protocol, retained, links[..l], left)
      invariant AllDeletable(protocol, retained, links[..l], undeletable)
      invariant failsAt.Some? ==> failsAt.value >= l
    {
      if failsAt == Some(l) {
        Unread(protocol, retained, links, l, left);
        return left + links[l..], removed, false;
      }
      var row, count, done := CleanupLink(protocol, retained, links[l], undeletable);
      DeletableStep(protocol, retained, links, l, undeletable);
      if done {
        SweptStep(protocol, retained, links, l, left, row);
      }
      if !done {
        StoppedAt(protocol, retained, links, l, left, row);
        left, removed, ok := left + [row] + links[l + 1..], removed + count, false;
        return;
      }
      left, removed := left + [row], removed + count;
    }
    assert links[..|links|] == links;
    SweptHarmless(protocol, retained, links, left);
  }

  lemma DeletableStep(protocol: int, retained: set<string>, links: seq<seq<Address>>, l: nat, undeletable: set<Address>)
    requires l < |links|
    ensures AllDeletable(protocol, retained, links[..l + 1], undeletable)
            <==> AllDeletable(protocol, retained, links[..l], undeletable) && Deletable(protocol, retained, links[l], undeletable)
    ensures AllDeletable(protocol, retained, links, undeletable) ==> Deletable(protocol, retained, links[l], undeletable)
  {
    var longer, shorter := links[..l + 1], links[..l];
    assert longer == shorter + [links[l]];
    if AllDeletable(protocol, retained, longer, undeletable) {
      assert forall k :: 0 <= k < l ==> shorter[k] == longer[k];
      assert longer[l] == links[l];
    }
  }

  lemma SweptStep(protocol: int, retained: set<string>, links: seq<seq<Address>>, l: nat, left: seq<seq<Address>>, row: seq<Address>)
    requires l < |links| && AllSwept(protocol, retained, links[..l], left) && row == Sweep(protocol, retained, links[l])
    ensures AllSwept(protocol, retained, links[..l + 1], left + [row])
  {
    assert forall k :: 0 <= k < l ==> links[..l + 1][k] == links[..l][k];
  }

  lemma SweptHarmless(protocol: int, retained: set<string>, links: seq<seq<Address>>, left: seq<seq<Address>>)
    requires AllSwept(protocol, retained, links, left)
    ensures AllHarmless(protocol, retained, links, left)
  {
    forall l | 0 <= l < |links| ensures Harmless(protocol, retained, links[l], left[l]) {
      SweepMembers(protocol, retained, links[l]);
    }
  }

  lemma Unread(protocol: int, retained: set<string>, links: seq<seq<Address>>, l: nat, left: seq<seq<Address>>)
    requires l < |links| && AllSwept(protocol, retained, links[..l], left)
    ensures AllHarmless(protocol, retained, links, left + links[l..])
  {
    assert left + links[l..] == left + [links[l]] + links[l + 1..];
    StoppedAt(protocol, retained, links, l, left, links[l]);
  }

  lemma StoppedAt(protocol: int, retained: set<string>, links: seq<seq<Address>>, l: nat, left: seq<seq<Address>>, row: seq<Address>)
    requires l < |links| && AllSwept(protocol, retained, links[..l], left) && Harmless(protocol, retained, links[l], row)
    ensures AllHarmless(protocol, retained, links, left + [row] + links[l + 1..])
  {
    SweptHarmless(protocol, retained, links[..l], left);
    var result := left + [row] + links[l + 1..];
    forall k | 0 <= k < |links| ensures Harmless(protocol, retained, links[k], result[k]) {
      if k < l {
        assert links[k] == links[..l][k] && result[k] == left[k];
      } else if k == l {
        assert result[k] == row;
      } else {
        assert result[k] == links[k];
      }
    }
  }

  /**
   The sweep is exact: of the tagged addresses exactly those survive whose IP is
   retained or that have no usable key; addresses with another tag are untouched.
   */
  lemma SweepExact(protocol: int, vips: set<string>, links: seq<seq<Address>>, retained: set<string>, l: nat, i: nat)
    requires RealIPs(links) && l < |links| && i < |links[l]|
    requires forall key :: key in retained <==> KeyRetained(protocol, vips, links, key)
    ensures var a := links[l][i];
            Kept(protocol, retained, a)
            <==> protocol < FIRST_USER_PROTOCOL || a.protocol != protocol || a.linkIndex <= 0 || a.ip.None? || a.ip.value in vips
  {
    var a := links[l][i];
    KeyUsable(a);
    if IsKubeVIPAddress(a, protocol) && AddressKey(a) != "" {
      if AddressKey(a) in retained {
        var m :| 0 <= m < |links| && LinkRetains(protocol, vips, links[m], AddressKey(a));
        var j :| 0 <= j < |links[m]| && IsKubeVIPAddress(links[m][j], protocol) && links[m][j].IP() in vips
          && AddressKey(links[m][j]) == AddressKey(a);
        KeyUsable(links[m][j]);
        KeyDetermines(links[m][j], a);
      }
      if a.ip.value in vips {
        assert LinkRetains(protocol, vips, links[l], AddressKey(a));
        assert KeyRetained(protocol, vips, links, AddressKey(a));
      }
    }
  }

  // ---- What the API server says ------------------------------------------------------------

  const SECOND := 1_000_000_000

  /** A lease as the API server lists it; times are in nanoseconds, the duration in seconds. */
  datatype Lease = Lease(
    namespace: string, name: string, holder: Option<string>, annotation: string, renewTime: Option<int>, duration: Option<int>)
  {
    function Holder(): string { if holder.Some? then holder.value else "" }
  }

  /** A Service; `vips` are its addresses followed by those of its load-balancer status. */
  datatype Service = Service(
    namespace: string, name: string, lease: string, loadBalancer: bool, ignored: bool, filtered: bool, vips: seq<string>)

  datatype Config = Config(
    nodeName: string, routingProtocol: int, hasClient: bool, etcd: bool, servicesElection: bool, arp: bool, wireguard: bool,
    bgp: bool, routingTable: bool, leaderElection: bool, servicesLease: string, namespace: string,
    controlPlane: bool, controlPlaneVIPs: seq<string>, controlPlaneLease: string)

  datatype Lookup = Found(holder: Option<string>) | NotFound | Broken

  /**
   Everything a recovery pass reads. `services` and `leases` are the two lists, or None
   when the list call fails; `get` is the answer for one lease, `clock` the time at
   which the lease with that position is judged.
   */
  datatype Api = Api(
    services: Option<seq<Service>>, leases: Option<seq<Lease>>, get: (string, string) -> Lookup,
    clock: nat -> int, decode: LeaseVips.Decoder, parseIP: string -> Option<string>)

  predicate LeaseOwnershipCurrent(lease: Lease, now: int) {
    lease.renewTime.None? || lease.duration.None? || now < lease.renewTime.value + lease.duration.value * SECOND
  }

  predicate ServiceOwnsRecoverableVIP(service: Service) {
    service.loadBalancer && !service.ignored && !service.filtered
  }

  predicate UsesGlobalServiceElection(config: Config) {
    config.arp || config.wireguard || ((config.bgp || config.routingTable) && config.leaderElection)
  }

  /** A configured lease may name its namespace. */
  function NamespaceName(lease: string, namespace: string): (string, string) {
    var parts := Split(lease, '/');
    if |parts| > 1 then (parts[0], parts[1]) else (namespace, lease)
  }

  function ServiceRecoveryLease(config: Config, service: Service): (string, string) {
    if config.servicesElection then Admission.ServiceNameFor(service.namespace, service.name, service.lease)
    else NamespaceName(config.servicesLease, config.namespace)
  }

  /** Without etcd the lease list is read first; with etcd it is not read at all. */
  function Listing(config: Config, api: Api): seq<Lease> {
    if config.etcd || api.leases.None? then [] else api.leases.value
  }

  // ---- Reference: who holds what -----------------------------------------------------------

  /** The holder the list gives; a later entry replaces an earlier one. */
  function ListedHolder(leases: seq<Lease>, namespace: string, name: string): Option<string> {
    if leases == [] then None
    else
      var last := leases[|leases| - 1];
      if last.namespace == namespace && last.name == name then Some(last.Holder())
      else ListedHolder(leases[..|leases| - 1], namespace, name)
  }

  /** The holder of a lease: as listed, else as asked for directly; None when the API server fails. */
  function Holder(config: Config, api: Api, namespace: string, name: string): Option<string> {
    match ListedHolder(Listing(config, api), namespace, name)
    case Some(holder) => Some(holder)
    case None => Asked(api, namespace, name)
  }

  /** What the API server answers when it is asked for the lease itself. */
  function Asked(api: Api, namespace: string, name: string): Option<string> {
    match api.get(namespace, name)
    case Found(holder) => Some(if holder.Some? then holder.value else "")
    case NotFound => Some("")
    case Broken => None
  }

  /** The list and the single answers are of one mind. */
  ghost predicate OneSnapshot(config: Config, api: Api) {
    forall namespace, name :: ListedHolder(Listing(config, api), namespace, name).Some? ==>
      Asked(api, namespace, name) == ListedHolder(Listing(config, api), namespace, name)
  }

  /** When nothing changes between the list and the single questions, the list makes no difference. */
  lemma HolderIsAsked(config: Config, api: Api, namespace: string, name: string)
    requires OneSnapshot(config, api)
    ensures Holder(config, api, namespace, name) == Asked(api, namespace, name)
  {
    var listed := ListedHolder(Listing(config, api), namespace, name);
    assert listed.Some? ==> Asked(api, namespace, name) == listed;
  }

  predicate Elected(config: Config) {
    !config.etcd && (config.servicesElection || UsesGlobalServiceElection(config))
  }

  /** The answer for one Service: kept here or not, None when its holder is unknown. */
  function ServiceKept(config: Config, api: Api, service: Service): Option<bool> {
    if !Elected(config) then Some(true)
    else
      var (namespace, name) := ServiceRecoveryLease(config, service);
      var holder := Holder(config, api, namespace, name);
      if holder.None? then None else Some(holder.value == config.nodeName)
  }

  /** The lease carries an annotation of this node that is still in force. */
  predicate ClaimsHere(config: Config, lease: Lease, now: int) {
    lease.annotation != "" && lease.Holder() == config.nodeName && LeaseOwnershipCurrent(lease, now)
  }

  predicate Readable(api: Api, lease: Lease) {
    api.decode(lease.annotation).Some? && LeaseVips.WellFormed(api.decode(lease.annotation).value)
  }

  /** The annotation was written for this routing protocol and lists the VIP. */
  predicate Names(config: Config, api: Api, lease: Lease, vip: string) {
    && Readable(api, lease)
    && api.decode(lease.annotation).value.ifaProto == config.routingProtocol
    && exists k :: 0 <= k < |api.decode(lease.annotation).value.vips| && api.decode(lease.annotation).value.vips[k].value == vip
  }

  ghost predicate Desired(services: seq<Service>, vip: string) {
    exists i :: 0 <= i < |services| && ServiceOwnsRecoverableVIP(services[i]) && vip in services[i].vips
  }

  ghost predicate Annotated(config: Config, api: Api, leases: seq<Lease>, vip: string) {
    exists i :: 0 <= i < |leases| && ClaimsHere(config, leases[i], api.clock(i)) && Names(config, api, leases[i], vip)
  }

  ghost predicate ServiceKeeps(config: Config, api: Api, services: seq<Service>, vip: string) {
    exists i :: 0 <= i < |services| && ServiceOwnsRecoverableVIP(services[i]) && vip in services[i].vips
      && ServiceKept(config, api, services[i]) == Some(true)
  }

  function ControlPlaneKept(config: Config, api: Api): Option<bool> {
    if config.etcd || !config.leaderElection then Some(true)
    else
      var (namespace, name) := NamespaceName(config.controlPlaneLease, config.namespace);
      var holder := Holder(config, api, namespace, name);
      if holder.None? then None else Some(holder.value == config.nodeName)
  }

  /** Every configured control-plane VIP is an address. */
  predicate AddressesKnown(config: Config, api: Api) {
    forall i :: 0 <= i < |config.controlPlaneVIPs| ==> api.parseIP(StripCIDR(config.controlPlaneVIPs[i])).Some?
  }

  ghost predicate ControlPlaneVIP(config: Config, api: Api, vip: string) {
    exists i :: 0 <= i < |config.controlPlaneVIPs| && api.parseIP(StripCIDR(config.controlPlaneVIPs[i])) == Some(vip)
  }

  ghost predicate ControlPlaneKeeps(config: Config, api: Api, vip: string) {
    config.controlPlane && ControlPlaneKept(config, api) == Some(true) && ControlPlaneVIP(config, api, vip)
  }

  /** The VIPs this node has a claim to. */
  ghost predicate ShouldRetain(config: Config, api: Api, vip: string)
    requires api.services.Some?
  {
    || (Desired(api.services.value, vip) && Annotated(config, api, Listing(config, api), vip))
    || ServiceKeeps(config, api, api.services.value, vip)
    || ControlPlaneKeeps(config, api, vip)
  }

  /** The API server answered every question the pass asks. */
  ghost predicate Answered(config: Config, api: Api) {
    && api.services.Some?
    && (config.etcd || api.leases.Some?)
    && (forall i :: 0 <= i < |Listing(config, api)| && ClaimsHere(config, Listing(config, api)[i], api.clock(i))
          ==> Readable(api, Listing(config, api)[i]))
    && (forall i :: 0 <= i < |api.services.value| && ServiceOwnsRecoverableVIP(api.services.value[i])
          ==> ServiceKept(config, api, api.services.value[i]).Some?)
    && (config.controlPlane && AddressesKnown(config, api) ==> ControlPlaneKept(config, api).Some?)
  }

  // ---- What that comes to -------------------------------------------------------------------

  /** A configured lease without a slash is in the default namespace; one with a slash names its own. */
  lemma ConfiguredLease(lease: string, namespace: string)
    ensures NamespaceName(lease, namespace)
            == if '/' !in lease then (namespace, lease)
               else
                 var i := IndexOf(lease, '/');
                 var rest := lease[i + 1..];
                 (lease[..i], rest[..IndexOf(rest, '/')])
  {
    SplitAtFirst(lease, '/');
    if '/' in lease {
      var rest := lease[IndexOf(lease, '/') + 1..];
      SplitAtFirst(rest, '/');
      assert Split(lease, '/')[1] == Split(rest, '/')[0];
    }
  }

  /** The Service is a load balancer of this instance and has the VIP. */
  predicate Serves(service: Service, vip: string) {
    service.loadBalancer && !service.ignored && !service.filtered && vip in service.vips
  }

  /** The Services' VIPs depend on who holds a Kubernetes lease. */
  predicate LeaseDecides(config: Config) {
    && !config.etcd
    && (config.servicesElection || config.arp || config.wireguard
        || (config.bgp && config.leaderElection) || (config.routingTable && config.leaderElection))
  }

  /** Where no lease decides, every VIP of a Service stays. */
  lemma KeptWithoutElection(config: Config, api: Api, service: Service, vip: string)
    requires api.services.Some? && service in api.services.value && Serves(service, vip) && !LeaseDecides(config)
    ensures ShouldRetain(config, api, vip)
  {
    var i :| 0 <= i < |api.services.value| && api.services.value[i] == service;
    assert ServiceKept(config, api, api.services.value[i]) == Some(true);
  }

  /** The API server lists no such lease and, asked for it, names a holder. */
  ghost predicate HeldBy(config: Config, api: Api, namespace: string, name: string, holder: string) {
    && api.get(namespace, name) == Found(Some(holder))
    && forall lease :: lease in Listing(config, api) ==> lease.namespace != namespace || lease.name != name
  }

  lemma {:induction false} NotListed(leases: seq<Lease>, namespace: string, name: string)
    requires forall lease :: lease in leases ==> lease.namespace != namespace || lease.name != name
    ensures ListedHolder(leases, namespace, name).None?
  {
    if leases == [] {
    } else {
      assert leases[|leases| - 1] in leases;
      NotListed(leases[..|leases| - 1], namespace, name);
    }
  }

  /** Where a lease decides, and all claims to a VIP are Services with that lease, exactly the holder keeps it. */
  lemma HolderDecides(config: Config, api: Api, service: Service, vip: string, namespace: string, name: string, holder: string)
    requires api.services.Some? && service in api.services.value && Serves(service, vip) && LeaseDecides(config)
    requires HeldBy(config, api, namespace, name, holder)
    requires forall s :: s in api.services.value && Serves(s, vip) ==> ServiceRecoveryLease(config, s) == (namespace, name)
    requires !config.controlPlane && !Annotated(config, api, Listing(config, api), vip)
    ensures ShouldRetain(config, api, vip) <==> holder == config.nodeName
  {
    NotListed(Listing(config, api), namespace, name);
    assert Holder(config, api, namespace, name) == Some(holder);
    var i :| 0 <= i < |api.services.value| && api.services.value[i] == service;
    assert ServiceKept(config, api, api.services.value[i]) == Some(holder == config.nodeName);
    if ShouldRetain(config, api, vip) {
      var k :| 0 <= k < |api.services.value| && ServiceOwnsRecoverableVIP(api.services.value[k]) && vip in api.services.value[k].vips
        && ServiceKept(config, api, api.services.value[k]) == Some(true);
      assert Serves(api.services.value[k], vip);
    }
  }

  /** A VIP that no Service has any more, and that is not the control plane's, goes, whatever an old annotation says. */
  lemma UnwantedGoes(config: Config, api: Api, vip: string)
    requires api.services.Some? && (forall s :: s in api.services.value ==> !Serves(s, vip))
    requires !(config.controlPlane && ControlPlaneVIP(config, api, vip))
    ensures !ShouldRetain(config, api, vip)
  {
    forall i | 0 <= i < |api.services.value| ensures !Serves(api.services.value[i], vip) {
      assert api.services.value[i] in api.services.value;
    }
  }

  /** A control-plane VIP may be given with a prefix length. */
  lemma PrefixLengthIgnored(config: Config, api: Api, address: string, prefix: string, vip: string)
    requires '/' !in address && api.parseIP(address) == Some(vip)
    requires address in config.controlPlaneVIPs || address + "/" + prefix in config.controlPlaneVIPs
    ensures ControlPlaneVIP(config, api, vip)
  {
    Stripped(address, prefix);
    var text := if address in config.controlPlaneVIPs then address else address + "/" + prefix;
    var i :| 0 <= i < |config.controlPlaneVIPs| && config.controlPlaneVIPs[i] == text;
  }

  /** With etcd the Kubernetes leases are not consulted at all. */
  lemma EtcdIgnoresLeases(config: Config, api: Api, other: Api, vip: string)
    requires config.etcd && api.services.Some? && other == api.(leases := other.leases, get := other.get)
    ensures ShouldRetain(config, api, vip) <==> ShouldRetain(config, other, vip)
  {
    assert Listing(config, api) == [] == Listing(config, other);
    forall service ensures ServiceKept(config, api, service) == Some(true) == ServiceKept(config, other, service) {
    }
    assert ControlPlaneVIP(config, api, vip) <==> ControlPlaneVIP(config, other, vip);
  }

  /** A lease that does not exist has no holder: that is an answer, and no node with a name keeps the VIP for it. */
  lemma MissingLease(config: Config, api: Api, service: Service, namespace: string, name: string)
    requires LeaseDecides(config) && ServiceRecoveryLease(config, service) == (namespace, name) && api.get(namespace, name) == NotFound
    requires forall lease :: lease in Listing(config, api) ==> lease.namespace != namespace || lease.name != name
    ensures config.nodeName != "" ==> ServiceKept(config, api, service) == Some(false)
  {
    NotListed(Listing(config, api), namespace, name);
  }

  /** With an election per Service and no annotation, that lease is the Service's own. */
  lemma OwnLeaseDecides(config: Config, service: Service)
    requires config.servicesElection && service.lease == "" && '/' !in service.name
    ensures ServiceRecoveryLease(config, service) == (service.namespace, "kubevip-" + service.name)
  {
    Admission.OwnLease(service.namespace, service.name);
  }

  /** An annotation that is this node's, not lapsed, written for this routing protocol and lists the VIP keeps it; no other does. */
  lemma AnnotationKeeps(config: Config, api: Api, vip: string)
    ensures Annotated(config, api, Listing(config, api), vip)
            <==> exists i :: 0 <= i < |Listing(config, api)| && KeepsFor(config, api, Listing(config, api)[i], api.clock(i), vip)
  {
    var leases := Listing(config, api);
    forall i | 0 <= i < |leases|
      ensures KeepsFor(config, api, leases[i], api.clock(i), vip)
              <==> ClaimsHere(config, leases[i], api.clock(i)) && Names(config, api, leases[i], vip)
    {
      KeepsForExactly(config, api, leases[i], api.clock(i), vip);
    }
  }

  ghost predicate KeepsFor(config: Config, api: Api, lease: Lease, now: int, vip: string) {
    && lease.annotation != "" && (lease.holder == Some(config.nodeName) || (lease.holder.None? && config.nodeName == ""))
    && (lease.renewTime.Some? && lease.duration.Some? ==> now < lease.renewTime.value + lease.duration.value * 1_000_000_000)
    && Readable(api, lease) && api.decode(lease.annotation).value.ifaProto == config.routingProtocol
    && exists v :: v in api.decode(lease.annotation).value.vips && v.value == vip
  }

  lemma KeepsForExactly(config: Config, api: Api, lease: Lease, now: int, vip: string)
    ensures KeepsFor(config, api, lease, now, vip) <==> ClaimsHere(config, lease, now) && Names(config, api, lease, vip)
  {
  }

  /** The control plane's VIPs stay without an election, and with one exactly at the holder of its lease. */
  lemma ControlPlaneDecides(config: Config, api: Api, vip: string, namespace: string, name: string, holder: string)
    requires config.controlPlane && ControlPlaneVIP(config, api, vip)
    requires NamespaceName(config.controlPlaneLease, config.namespace) == (namespace, name) && HeldBy(config, api, namespace, name, holder)
    ensures ControlPlaneKeeps(config, api, vip) <==> (!config.etcd && config.leaderElection ==> holder == config.nodeName)
  {
    NotListed(Listing(config, api), namespace, name);
  }

  // ---- The memo of lease holders -----------------------------------------------------------

  function Key(namespace: string, name: string): string { namespace + ['/'] + name }

  /** Lease names have no slash, so a key names one lease whatever its namespace. */
  lemma KeyInjective(namespace: string, name: string, otherNamespace: string, otherName: string)
    requires '/' !in name && '/' !in otherName && Key(namespace, name) == Key(otherNamespace, otherName)
    ensures namespace == otherNamespace && name == otherName
  {
    LastSeparator(namespace, name, '/', otherNamespace, otherName);
  }

  lemma RecoveryLeaseNames(config: Config, service: Service, lease: string)
    ensures '/' !in ServiceRecoveryLease(config, service).1
    ensures '/' !in NamespaceName(lease, config.namespace).1
  {
    Admission.LeaseNameHasNoSlash(service.namespace, service.name, service.lease);
    NameHasNoSlash(lease, config.namespace);
    NameHasNoSlash(config.servicesLease, config.namespace);
  }

  lemma NameHasNoSlash(lease: string, namespace: string)
    ensures '/' !in NamespaceName(lease, namespace).1
  {
    var parts := Split(lease, '/');
    SplitParts(lease, '/');
    SplitAtFirst(lease, '/');
    if |parts| > 1 {
      assert parts[1] in parts;
    }
  }

  /** The memo holds exactly the holders of these leases. */
  ghost predicate MemoOfList(leases: seq<Lease>, holders: map<string, string>) {
    forall namespace, name :: '/' !in name ==>
      ListedHolder(leases, namespace, name) == if Key(namespace, name) in holders then Some(holders[Key(namespace, name)]) else None
  }

  /** The memo agrees with asking directly and knows every listed lease. */
  ghost predicate MemoOk(config: Config, api: Api, holders: map<string, string>) {
    forall namespace, name :: '/' !in name ==>
      if Key(namespace, name) in holders then Holder(config, api, namespace, name) == Some(holders[Key(namespace, name)])
      else ListedHolder(Listing(config, api), namespace, name).None?
  }

  method KubernetesLeaseHolder(config: Config, api: Api, namespace: string, name: string, holders: map<string, string>)
    returns (holder: Option<string>, memo: map<string, string>)
    requires '/' !in name && MemoOk(config, api, holders)
    ensures holder == Holder(config, api, namespace, name)
    ensures OneSnapshot(config, api) ==> holder == Asked(api, namespace, name)
    ensures MemoOk(config, api, memo)
  {
    if OneSnapshot(config, api) {
      HolderIsAsked(config, api, namespace, name);
    }
    var key := Key(namespace, name);
    if key in holders {
      return Some(holders[key]), holders;
    }
    match api.get(namespace, name) {
      case Broken => return None, holders;
      case NotFound => holder := Some("");
      case Found(h) => holder := Some(if h.Some? then h.value else "");
    }
    memo := holders[key := holder.value];
    forall ns, n | '/' !in n && Key(ns, n) == key ensures ns == namespace && n == name {
      KeyInjective(ns, n, namespace, name);
    }
  }

  lemma MemoOfListStep(leases: seq<Lease>, i: nat, holders: map<string, string>)
    requires i < |leases| && '/' !in leases[i].name && MemoOfList(leases[..i], holders)
    ensures MemoOfList(leases[..i + 1], holders[Key(leases[i].namespace, leases[i].name) := leases[i].Holder()])
  {
    var longer, lease := leases[..i + 1], leases[i];
    assert longer[..i] == leases[..i];
    forall ns, n | '/' !in n && Key(ns, n) == Key(lease.namespace, lease.name) ensures ns == lease.namespace && n == lease.name {
      KeyInjective(ns, n, lease.namespace, lease.name);
    }
  }

  // ---- The pass ----------------------------------------------------------------------------

  ghost predicate NamesValid(leases: seq<Lease>) {
    forall i :: 0 <= i < |leases| ==> '/' !in leases[i].name
  }

  method DesiredServiceVIPs(services: seq<Service>) returns (desired: set<string>)
    ensures forall vip :: vip in desired <==> Desired(services, vip)
  {
    desired := {};
    for i := 0 to |services|
      invariant forall vip :: vip in desired <==> Desired(services[..i], vip)
    {
      assert services[..i + 1] == services[..i] + [services[i]];
      DesiredStep(services, i);
      if !ServiceOwnsRecoverableVIP(services[i]) {
        continue;
      }
      desired := desired + (set v | v in services[i].vips);
    }
    assert services[..|services|] == services;
  }

  lemma DesiredStep(services: seq<Service>, i: nat)
    requires i < |services|
    ensures forall vip :: Desired(services[..i + 1], vip) <==>
              (Desired(services[..i], vip) || (ServiceOwnsRecoverableVIP(services[i]) && vip in services[i].vips))
  {
    var longer, shorter := services[..i + 1], services[..i];
    assert longer == shorter + [services[i]];
    forall vip | Desired(shorter, vip) ensures Desired(longer, vip) {
      var k :| 0 <= k < |shorter| && ServiceOwnsRecoverableVIP(shorter[k]) && vip in shorter[k].vips;
      assert longer[k] == shorter[k];
    }
    assert longer[i] == services[i];
  }

  method RetainAnnotatedLeaseVIPs(config: Config, api: Api, leases: seq<Lease>, desired: set<string>)
    returns (holders: map<string, string>, retained: set<string>, ok: bool)
    requires NamesValid(leases)
    ensures ok == forall i :: 0 <= i < |leases| && ClaimsHere(config, leases[i], api.clock(i)) ==> Readable(api, leases[i])
    ensures ok ==> MemoOfList(leases, holders)
    ensures ok ==> forall vip :: vip in retained <==> vip in desired && Annotated(config, api, leases, vip)
  {
    holders, retained, ok := map[], {}, true;
    for i := 0 to |leases|
      invariant forall k :: 0 <= k < i && ClaimsHere(config, leases[k], api.clock(k)) ==> Readable(api, leases[k])
      invariant MemoOfList(leases[..i], holders)
      invariant forall vip :: vip in retained <==> vip in desired && Annotated(config, api, leases[..i], vip)
    {
      var lease := leases[i];
      MemoOfListStep(leases, i, holders);
      AnnotatedStep(config, api, leases, i);
      holders := holders[Key(lease.namespace, lease.name) := lease.Holder()];
      if lease.annotation == "" || lease.Holder() != config.nodeName || !LeaseOwnershipCurrent(lease, api.clock(i)) {
        continue;
      }
      var metadata := LeaseVips.ParseLeaseVIPs(api.decode, lease.annotation);
      if metadata.None? {
        ok := false;
        return;
      }
      if metadata.value.ifaProto != config.routingProtocol {
        continue;
      }
      var claimed := set k | 0 <= k < |metadata.value.vips| && metadata.value.vips[k].value in desired :: metadata.value.vips[k].value;
      assert forall vip :: vip in claimed <==> vip in desired && Names(config, api, lease, vip);
      retained := retained + claimed;
    }
    assert leases[..|leases|] == leases;
  }

  lemma AnnotatedStep(config: Config, api: Api, leases: seq<Lease>, i: nat)
    requires i < |leases|
    ensures forall vip :: Annotated(config, api, leases[..i + 1], vip) <==>
              (Annotated(config, api, leases[..i], vip)
               || (ClaimsHere(config, leases[i], api.clock(i)) && Names(config, api, leases[i], vip)))
  {
    var longer, shorter := leases[..i + 1], leases[..i];
    assert longer == shorter + [leases[i]];
    forall vip | Annotated(config, api, shorter, vip) ensures Annotated(config, api, longer, vip) {
      var k :| 0 <= k < |shorter| && ClaimsHere(config, shorter[k], api.clock(k)) && Names(config, api, shorter[k], vip);
      assert longer[k] == shorter[k];
    }
    assert longer[i] == leases[i];
  }

  method ServiceAddressRetained(config: Config, api: Api, service: Service, holders: map<string, string>)
    returns (retain: Option<bool>, memo: map<string, string>)
    requires MemoOk(config, api, holders)
    ensures retain == ServiceKept(config, api, service)
    ensures MemoOk(config, api, memo)
  {
    if config.etcd {
      return Some(true), holders;
    }
    if !config.servicesElection && !UsesGlobalServiceElection(config) {
      return Some(true), holders;
    }
    var (namespace, name) := ServiceRecoveryLease(config, service);
    RecoveryLeaseNames(config, service, "");
    var holder, m := KubernetesLeaseHolder(config, api, namespace, name, holders);
    return if holder.None? then None else Some(holder.value == config.nodeName), m;
  }

  method RetainServiceVIPs(config: Config, api: Api, services: seq<Service>, holders: map<string, string>, before: set<string>)
    returns (memo: map<string, string>, retained: set<string>, ok: bool)
    requires MemoOk(config, api, holders)
    ensures ok == forall i :: 0 <= i < |services| && ServiceOwnsRecoverableVIP(services[i]) ==> ServiceKept(config, api, services[i]).Some?
    ensures ok ==> MemoOk(config, api, memo)
    ensures ok ==> forall vip :: vip in retained <==> vip in before || ServiceKeeps(config, api, services, vip)
  {
    memo, retained, ok := holders, before, true;
    for i := 0 to |services|
      invariant MemoOk(config, api, memo)
      invariant forall k :: 0 <= k < i && ServiceOwnsRecoverableVIP(services[k]) ==> ServiceKept(config, api, services[k]).Some?
      invariant forall vip :: vip in retained <==> vip in before || ServiceKeeps(config, api, services[..i], vip)
    {
      ServiceKeepsStep(config, api, services, i);
      if !ServiceOwnsRecoverableVIP(services[i]) {
        continue;
      }
      var retain;
      retain, memo := ServiceAddressRetained(config, api, services[i], memo);
      if retain.None? {
        ok := false;
        return;
      }
      if !retain.value {
        continue;
      }
      retained := retained + (set v | v in services[i].vips);
    }
    assert services[..|services|] == services;
  }

  lemma ServiceKeepsStep(config: Config, api: Api, services: seq<Service>, i: nat)
    requires i < |services|
    ensures forall vip :: ServiceKeeps(config, api, services[..i + 1], vip) <==>
              (ServiceKeeps(config, api, services[..i], vip)
               || (ServiceOwnsRecoverableVIP(services[i]) && vip in services[i].vips && ServiceKept(config, api, services[i]) == Some(true)))
  {
    var longer, shorter := services[..i + 1], services[..i];
    assert longer == shorter + [services[i]];
    forall vip | ServiceKeeps(config, api, shorter, vip) ensures ServiceKeeps(config, api, longer, vip) {
      var k :| 0 <= k < |shorter| && ServiceOwnsRecoverableVIP(shorter[k]) && vip in shorter[k].vips
        && ServiceKept(config, api, shorter[k]) == Some(true);
      assert longer[k] == shorter[k];
    }
    assert longer[i] == services[i];
  }

  method ConfiguredVIPAddresses(config: Config, api: Api) returns (addresses: Option<set<string>>)
    ensures addresses.Some? == AddressesKnown(config, api)
    ensures addresses.Some? ==> forall vip :: vip in addresses.value <==> ControlPlaneVIP(config, api, vip)
  {
    var known: set<string> := {};
    for i := 0 to |config.controlPlaneVIPs|
      invariant forall k :: 0 <= k < i ==> api.parseIP(StripCIDR(config.controlPlaneVIPs[k])).Some?
      invariant forall vip :: vip in known <==> exists k :: 0 <= k < i && api.parseIP(StripCIDR(config.controlPlaneVIPs[k])) == Some(vip)
    {
      var address := api.parseIP(StripCIDR(config.controlPlaneVIPs[i]));
      if address.None? {
        return None;
      }
      known := known + {address.value};
    }
    return Some(known);
  }

  /** The control-plane part: `canClean` is false for a VIP given by host name. */
  method RetainControlPlaneVIPs(config: Config, api: Api, holders: map<string, string>, before: set<string>)
    returns (canClean: bool, retained: set<string>, ok: bool)
    requires MemoOk(config, api, holders)
    ensures ok == (config.controlPlane && AddressesKnown(config, api) ==> ControlPlaneKept(config, api).Some?)
    ensures ok ==> canClean == (config.controlPlane ==> AddressesKnown(config, api))
    ensures ok && canClean ==> forall vip :: vip in retained <==> vip in before || ControlPlaneKeeps(config, api, vip)
  {
    canClean, retained, ok := true, before, true;
    if !config.controlPlane {
      return;
    }
    var addresses := ConfiguredVIPAddresses(config, api);
    if addresses.None? {
      canClean := false;
      return;
    }
    if config.etcd || !config.leaderElection {
      retained := retained + addresses.value;
      return;
    }
    var (namespace, name) := NamespaceName(config.controlPlaneLease, config.namespace);
    NameHasNoSlash(config.controlPlaneLease, config.namespace);
    var holder, _ := KubernetesLeaseHolder(config, api, namespace, name, holders);
    if holder.None? {
      canClean, ok := false, false;
      return;
    }
    if holder.value == config.nodeName {
      retained := retained + addresses.value;
    }
  }

  datatype Verdict = Unknown | Skip | Sweeping(vips: set<string>)

  /** The decision: exact whenever the API server answered. */
  method Decide(config: Config, api: Api) returns (verdict: Verdict)
    requires api.leases.Some? ==> NamesValid(api.leases.value)
    ensures verdict.Unknown? == !Answered(config, api)
    ensures verdict.Skip? == (Answered(config, api) && config.controlPlane && !AddressesKnown(config, api))
    ensures verdict.Sweeping? ==> api.services.Some? && forall vip :: vip in verdict.vips <==> ShouldRetain(config, api, vip)
  {
    if api.services.None? {
      return Unknown;
    }
    var services := api.services.value;
    var desired := DesiredServiceVIPs(services);
    var holders: map<string, string>, retained: set<string>, ok := map[], {}, true;
    if !config.etcd {
      if api.leases.None? {
        return Unknown;
      }
      holders, retained, ok := RetainAnnotatedLeaseVIPs(config, api, api.leases.value, desired);
      if !ok {
        return Unknown;
      }
    }
    assert MemoOk(config, api, holders);
    ghost var annotated := retained;
    holders, retained, ok := RetainServiceVIPs(config, api, services, holders, retained);
    if !ok {
      return Unknown;
    }
    var canClean;
    canClean, retained, ok := RetainControlPlaneVIPs(config, api, holders, retained);
    if !ok {
      return Unknown;
    }
    if !canClean {
      return Skip;
    }
    return Sweeping(retained);
  }

  /** What a completed pass leaves of an address. */
  ghost predicate Survives(config: Config, api: Api, a: Address)
    requires api.services.Some?
  {
    a.protocol != config.routingProtocol || a.linkIndex <= 0 || a.ip.None? || ShouldRetain(config, api, a.ip.value)
  }

  class Processor {
    var recovered: bool
    var links: seq<seq<Address>>

    /**
     Nothing is touched unless the API server answered, the control-plane VIPs are addresses
     and the kernel could be read once; then no address with a claim is lost even when a
     deletion or a listing fails in the middle of the sweep, and a pass that reports
     success leaves exactly the addresses with a claim.
     */
    method RecoverAddresses(config: Config, api: Api, kernelReadable: bool, failsAt: Option<nat>, undeletable: set<Address>)
      returns (ok: bool)
      requires api.leases.Some? ==> NamesValid(api.leases.value)
      requires RealIPs(links)
      modifies this
      ensures old(recovered) || !config.hasClient || config.routingProtocol < FIRST_USER_PROTOCOL ==>
                ok && links == old(links) && recovered == old(recovered)
      ensures !Answered(config, api) || (config.controlPlane && !AddressesKnown(config, api)) || !kernelReadable ==>
                links == old(links) && recovered == old(recovered)
      ensures |links| == |old(links)|
      ensures forall l, a :: 0 <= l < |links| && a in links[l] ==> a in old(links)[l]
      ensures api.services.Some? ==>
                forall l, a :: 0 <= l < |links| && a in old(links)[l] && Survives(config, api, a) ==> a in links[l]
      ensures recovered && !old(recovered) ==> ok && Answered(config, api)
      ensures (config.hasClient && config.routingProtocol >= FIRST_USER_PROTOCOL && Answered(config, api) && kernelReadable
               && (config.controlPlane ==> AddressesKnown(config, api)) && undeletable == {} && failsAt.None?) ==> recovered
      ensures recovered && !old(recovered) ==>
                forall l, a :: 0 <= l < |links| && a in old(links)[l] ==> (a in links[l] <==> Survives(config, api, a))
    {
      if recovered || !config.hasClient || config.routingProtocol < FIRST_USER_PROTOCOL {
        return true;
      }
      var verdict := Decide(config, api);
      match verdict {
        case Unknown => return false;
        case Skip => return true;
        case Sweeping(vips) =>
          if !kernelReadable {
            return false;
          }
          var retained := RetainedKubeVIPAddressKeys(config.routingProtocol, vips, links);
          var left, removed, done := CleanupKubeVIPAddresses(config.routingProtocol, retained, links, undeletable, failsAt);
          KeptSurvives(config, api, vips, links, retained);
          SweptExactly(config.routingProtocol, retained, links, left);
          links := left;
          if !done {
            return false;
          }
          recovered := true;
          return true;
      }
    }
  }

  lemma KeptSurvives(config: Config, api: Api, vips: set<string>, links: seq<seq<Address>>, retained: set<string>)
    requires api.services.Some? && RealIPs(links) && config.routingProtocol >= FIRST_USER_PROTOCOL
    requires forall vip :: vip in vips <==> ShouldRetain(config, api, vip)
    requires forall key :: key in retained <==> KeyRetained(config.routingProtocol, vips, links, key)
    ensures forall l, a :: 0 <= l < |links| && a in links[l] ==>
              (Kept(config.routingProtocol, retained, a) <==> Survives(config, api, a))
  {
    forall l, a | 0 <= l < |links| && a in links[l]
      ensures Kept(config.routingProtocol, retained, a) <==> Survives(config, api, a)
    {
      var i :| 0 <= i < |links[l]| && links[l][i] == a;
      SweepExact(config.routingProtocol, vips, links, retained, l, i);
    }
  }

  lemma SweptExactly(protocol: int, retained: set<string>, links: seq<seq<Address>>, left: seq<seq<Address>>)
    requires AllHarmless(protocol, retained, links, left)
    ensures AllSwept(protocol, retained, links, left) ==>
              forall l, a :: 0 <= l < |links| ==> (a in left[l] <==> a in links[l] && Kept(protocol, retained, a))
  {
    if AllSwept(protocol, retained, links, left) {
      forall l | 0 <= l < |links| ensures forall a :: a in left[l] <==> a in links[l] && Kept(protocol, retained, a) {
        SweepMembers(protocol, retained, links[l]);
      }
    }
  }

  // ---- Across nodes ------------------------------------------------------------------------

  /** Every claim to the VIP, by a Service, an annotation or the control plane, runs through this one lease. */
  ghost predicate OneLease(config: Config, api: Api, vip: string, namespace: string, name: string)
    requires api.services.Some?
  {
    && (forall i :: 0 <= i < |api.services.value| && ServiceOwnsRecoverableVIP(api.services.value[i]) && vip in api.services.value[i].vips
          ==> ServiceRecoveryLease(config, api.services.value[i]) == (namespace, name))
    && (forall i :: 0 <= i < |Listing(config, api)| && Names(config, api, Listing(config, api)[i], vip)
          ==> Listing(config, api)[i].namespace == namespace && Listing(config, api)[i].name == name)
    && ((config.controlPlane && ControlPlaneVIP(config, api, vip))
          ==> config.leaderElection && NamespaceName(config.controlPlaneLease, config.namespace) == (namespace, name))
  }

  ghost predicate UniqueLeases(leases: seq<Lease>) {
    forall i, j :: 0 <= i < |leases| && 0 <= j < |leases| && leases[i].namespace == leases[j].namespace && leases[i].name == leases[j].name ==> i == j
  }

  lemma {:induction false} ListedOnce(leases: seq<Lease>, i: nat)
    requires i < |leases| && UniqueLeases(leases)
    ensures ListedHolder(leases, leases[i].namespace, leases[i].name) == Some(leases[i].Holder())
  {
    var shorter := leases[..|leases| - 1];
    if i == |leases| - 1 {
      assert leases[|leases| - 1] == leases[i];
    } else {
      assert shorter[i] == leases[i];
      ListedOnce(shorter, i);
    }
  }

  /** A node with a claim is the holder of the lease all claims run through. */
  lemma ClaimNamesHolder(config: Config, api: Api, vip: string, namespace: string, name: string)
    requires api.services.Some? && Elected(config) && UniqueLeases(Listing(config, api))
    requires OneLease(config, api, vip, namespace, name) && ShouldRetain(config, api, vip)
    ensures Holder(config, api, namespace, name) == Some(config.nodeName)
  {
    var leases := Listing(config, api);
    if Annotated(config, api, leases, vip) {
      var i :| 0 <= i < |leases| && ClaimsHere(config, leases[i], api.clock(i)) && Names(config, api, leases[i], vip);
      ListedOnce(leases, i);
    }
  }

  /**
   At most one node keeps a VIP: two elected nodes that read the same answers both keep
   it only when they are the same node.
   */
  lemma OneNodeKeeps(first: Config, second: Config, api: Api, vip: string, namespace: string, name: string)
    requires api.services.Some? && second == first.(nodeName := second.nodeName)
    requires Elected(first) && UniqueLeases(Listing(first, api))
    requires OneLease(first, api, vip, namespace, name)
    requires ShouldRetain(first, api, vip) && ShouldRetain(second, api, vip)
    ensures first.nodeName == second.nodeName
  {
    SameLease(first, second, api, vip, namespace, name);
    ClaimNamesHolder(first, api, vip, namespace, name);
    ClaimNamesHolder(second, api, vip, namespace, name);
  }

  lemma SameLease(first: Config, second: Config, api: Api, vip: string, namespace: string, name: string)
    requires api.services.Some? && second == first.(nodeName := second.nodeName)
    requires OneLease(first, api, vip, namespace, name)
    ensures OneLease(second, api, vip, namespace, name)
    ensures Elected(second) == Elected(first) && Listing(second, api) == Listing(first, api)
    ensures Holder(second, api, namespace, name) == Holder(first, api, namespace, name)
  {
    forall i | 0 <= i < |Listing(second, api)| && Names(second, api, Listing(second, api)[i], vip)
      ensures Listing(second, api)[i].namespace == namespace && Listing(second, api)[i].name == name
    {
      assert Names(first, api, Listing(first, api)[i], vip);
    }
    forall i | 0 <= i < |api.services.value| && ServiceOwnsRecoverableVIP(api.services.value[i]) && vip in api.services.value[i].vips
      ensures ServiceRecoveryLease(second, api.services.value[i]) == (namespace, name)
    {
      assert ServiceRecoveryLease(first, api.services.value[i]) == (namespace, name);
    }
  }

  // ---- The spelling of addresses -----------------------------------------------------------

  /** No Service and no control-plane setting spells the address in another way than `text`. */
  ghost predicate OnlySpelling(config: Config, api: Api, address: string, text: string)
    requires api.services.Some?
  {
    && (forall i, u :: 0 <= i < |api.services.value| && u in api.services.value[i].vips && api.parseIP(u) == Some(address) ==> u == text)
    && !ControlPlaneVIP(config, api, address)
  }

  /**
   A Service kept on this node keeps its VIP in the kernel exactly when the Service spells
   the address as the kernel does: the sweep compares texts, not addresses.
   */
  lemma RetainedIffCanonical(config: Config, api: Api, i: nat, text: string, address: string)
    requires api.services.Some? && i < |api.services.value| && text in api.services.value[i].vips
    requires ServiceOwnsRecoverableVIP(api.services.value[i]) && ServiceKept(config, api, api.services.value[i]) == Some(true)
    requires api.parseIP(text) == Some(address) && api.parseIP(address) == Some(address)
    requires OnlySpelling(config, api, address, text)
    ensures ShouldRetain(config, api, address) <==> text == address
  {
    if ShouldRetain(config, api, address) {
      assert Desired(api.services.value, address);
    }
    if text == address {
      assert ServiceKeeps(config, api, api.services.value, address);
    }
  }

  /** A Service this node holds loses its VIP when its status spells an IPv6 address in capitals. */
  lemma CapitalsLoseVIP(api: Api, config: Config)
    requires api.services == Some([Service("default", "web", "", true, false, false, ["FD00::1"])])
    requires api.parseIP("FD00::1") == Some("fd00::1") && api.parseIP("fd00::1") == Some("fd00::1")
    requires api.leases == Some([]) && (forall ns, n :: api.get(ns, n) == Found(Some(config.nodeName)))
    requires config.servicesElection && !config.etcd && !config.controlPlane && config.controlPlaneVIPs == []
    ensures ServiceKept(config, api, api.services.value[0]) == Some(true)
    ensures !ShouldRetain(config, api, "fd00::1")
  {
    assert "FD00::1"[0] != "fd00::1"[0];
    RetainedIffCanonical(config, api, 0, "FD00::1", "fd00::1");
  }
}
