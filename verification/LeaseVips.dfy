/**
 The VIP annotation of a lease: a canonical, versioned list of the VIPs that a
 holder owns, independent of the order in which callers collect them.
 */
module LeaseVips {
  import opened Text

  /** A parsed address; IPv4-mapped ones are unmapped already. */
  datatype Addr = Addr(bits: nat, value: nat, zone: string)

  /** The address parser of the standard library; nothing below depends on what it accepts. */
  type Parser = string -> Option<Addr>

  predicate AddrLess(a: Addr, b: Addr) {
    a.bits < b.bits || (a.bits == b.bits && (a.value < b.value || (a.value == b.value && Before(a.zone, b.zone))))
  }

  /** strings.Compare. */
  function CompareStrings(a: string, b: string): int {
    if Before(a, b) then -1 else if a == b then 0 else 1
  }

  function CompareLeaseVIPs(parse: Parser, a: string, b: string): int {
    match (parse(a), parse(b))
    case (Some(x), Some(y)) =>
      if AddrLess(x, y) then -1 else if AddrLess(y, x) then 1 else CompareStrings(a, b)
    case (Some(_), None) => -1
    case (None, Some(_)) => 1
    case (None, None) => CompareStrings(a, b)
  }

  predicate Less(parse: Parser, a: string, b: string) { CompareLeaseVIPs(parse, a, b) < 0 }

  lemma AddrTotal(a: Addr, b: Addr)
    ensures AddrLess(a, b) || AddrLess(b, a) <==> a != b
    ensures !(AddrLess(a, b) && AddrLess(b, a))
  {
    BeforeTotal(a.zone, b.zone);
  }

  lemma AddrTransitive(a: Addr, b: Addr, c: Addr)
    requires AddrLess(a, b) && AddrLess(b, c)
    ensures AddrLess(a, c)
  {
    if a.zone != b.zone && b.zone != c.zone && Before(a.zone, b.zone) && Before(b.zone, c.zone) {
      BeforeTransitive(a.zone, b.zone, c.zone);
    }
  }

  /** The comparison is a strict total order on distinct strings, whatever the parser makes of them. */
  lemma ComparesTotally(parse: Parser, a: string, b: string)
    ensures CompareLeaseVIPs(parse, a, b) == 0 <==> a == b
    ensures CompareLeaseVIPs(parse, a, b) == -CompareLeaseVIPs(parse, b, a)
  {
    BeforeTotal(a, b);
    if parse(a).Some? && parse(b).Some? {
      AddrTotal(parse(a).value, parse(b).value);
    }
  }

  lemma LessTransitive(parse: Parser, a: string, b: string, c: string)
    requires Less(parse, a, b) && Less(parse, b, c)
    ensures Less(parse, a, c)
  {
    match (parse(a), parse(b), parse(c)) {
      case (Some(x), Some(y), Some(z)) =>
        AddrTotal(x, y);
        AddrTotal(y, z);
        AddrTotal(x, z);
        if AddrLess(x, y) && AddrLess(y, z) {
          AddrTransitive(x, y, z);
        } else if x == y && y == z {
          BeforeTransitive(a, b, c);
        }
      case (None, None, None) => BeforeTransitive(a, b, c);
      case _ =>
    }
  }

  // ---- Normalization ----------------------------------------------------------------------

  const KIND_ADDRESS := "address"
  const KIND_NAME := "name"
  const VERSION := "v1"

  datatype LeaseVIP = LeaseVIP(index: int, value: string, kind: string)

  ghost predicate TrimmedPart(parts: seq<string>, x: string)
  {
    exists j :: 0 <= j < |parts| && x == TrimSpace(parts[j])
  }

  /** A trimmed comma-separated part of a value. */
  ghost predicate PartOf(value: string, x: string)
  {
    TrimmedPart(Split(value, ','), x)
  }

  /** A non-empty part of one of the values. */
  ghost predicate Candidate(values: seq<string>, x: string)
  {
    x != "" && exists i :: 0 <= i < |values| && PartOf(values[i], x)
  }

  /** A comma-separated list gives its parts without the white space around them, and no others; empty ones do not count. */
  lemma ListCandidates(parts: seq<string>, x: string)
    requires parts != [] && forall p :: p in parts ==> ',' !in p
    ensures Candidate([Join(parts, ',')], x) <==> x != "" && exists p :: p in parts && TrimSpace(p) == x
  {
    SplitJoin(parts, ',');
    var value := Join(parts, ',');
    assert Candidate([value], x) <==> x != "" && PartOf([value][0], x);
    if PartOf(value, x) {
      var j :| 0 <= j < |parts| && x == TrimSpace(parts[j]);
      assert parts[j] in parts;
    }
  }

  /** A value without commas and outer white space is its own candidate. */
  lemma PlainCandidate(values: seq<string>, x: string)
    requires x in values && x != "" && ',' !in x && Trimmed(x)
    ensures Candidate(values, x)
  {
    var i :| 0 <= i < |values| && values[i] == x;
    SplitWhole(x, ',');
    assert [] + x + [] == x;
    TrimsAround([], x, []);
    assert TrimSpace(Split(x, ',')[0]) == x;
    assert PartOf(values[i], x);
  }

  predicate Increasing(parse: Parser, s: seq<string>) {
    forall i, j :: 0 <= i < j < |s| ==> Less(parse, s[i], s[j])
  }

  /** Strictly increasing lists with the same elements are equal. */
  lemma {:induction false} IncreasingUnique(parse: Parser, a: seq<string>, b: seq<string>)
    requires Increasing(parse, a) && Increasing(parse, b)
    requires forall x :: x in a <==> x in b
    ensures a == b
    decreases |a|
  {
    EmptyTogether(a, b);
    if a == [] {
      assert b == [];
    } else {
      HeadsAgree(parse, a, b);
      forall x ensures x in a[1..] <==> x in b[1..] {
        TailMembers(parse, a, x);
        TailMembers(parse, b, x);
      }
      IncreasingUnique(parse, a[1..], b[1..]);
    }
  }

  lemma EmptyTogether(a: seq<string>, b: seq<string>)
    requires forall x :: x in a <==> x in b
    ensures a == [] <==> b == []
    ensures a != [] ==> a[0] in b && b[0] in a
  {
    if a != [] { assert a[0] in a; }
    if b != [] { assert b[0] in b; }
  }

  lemma HeadsAgree(parse: Parser, a: seq<string>, b: seq<string>)
    requires a != [] && b != [] && Increasing(parse, a) && Increasing(parse, b) && a[0] in b && b[0] in a
    ensures a[0] == b[0]
  {
    var i :| 0 <= i < |b| && b[i] == a[0];
    var j :| 0 <= j < |a| && a[j] == b[0];
    ComparesTotally(parse, a[0], b[0]);
  }

  lemma TailMembers(parse: Parser, a: seq<string>, x: string)
    requires a != [] && Increasing(parse, a)
    ensures x in a[1..] <==> x in a && x != a[0]
  {
    if x in a[1..] {
      var i :| 0 <= i < |a[1..]| && a[1..][i] == x;
      assert a[i + 1] == x && Less(parse, a[0], x);
      ComparesTotally(parse, a[0], x);
    }
  }

  function KindOf(parse: Parser, value: string): string { if parse(value).Some? then KIND_ADDRESS else KIND_NAME }

  function Values(vips: seq<LeaseVIP>): seq<string> { seq(|vips|, i requires 0 <= i < |vips| => vips[i].value) }

  /** The normal form of a list of VIPs: every candidate once, in order, with its position and kind. */
  ghost predicate Normalized(parse: Parser, values: seq<string>, vips: seq<LeaseVIP>)
  {
    && (forall i :: 0 <= i < |vips| ==> vips[i].index == i && vips[i].kind == KindOf(parse, vips[i].value))
    && Increasing(parse, Values(vips))
    && (forall x :: x in Values(vips) <==> Candidate(values, x))
  }

  /** Addresses come before names, the shorter family first and then by number; names are in alphabetical order. */
  lemma NormalOrder(parse: Parser, values: seq<string>, vips: seq<LeaseVIP>, i: nat, j: nat)
    requires Normalized(parse, values, vips) && i < j < |vips|
    ensures vips[i].kind == KIND_NAME ==> vips[j].kind == KIND_NAME && Before(vips[i].value, vips[j].value)
    ensures vips[i].kind == KIND_ADDRESS && vips[j].kind == KIND_ADDRESS ==>
              var x, y := parse(vips[i].value), parse(vips[j].value);
              && x.Some? && y.Some? && x.value.bits <= y.value.bits
              && (x.value.bits == y.value.bits ==> x.value.value <= y.value.value)
              && (x == y ==> Before(vips[i].value, vips[j].value))
  {
    var a, b := vips[i].value, vips[j].value;
    assert Values(vips)[i] == a && Values(vips)[j] == b && Less(parse, a, b);
    ComparesTotally(parse, a, b);
    BeforeTotal(a, b);
    assert KIND_NAME != KIND_ADDRESS by {
      assert |KIND_NAME| != |KIND_ADDRESS|;
    }
    if parse(a).Some? && parse(b).Some? {
      AddrTotal(parse(a).value, parse(b).value);
    }
  }

  /** The annotation is canonical: lists with the same candidates have the same normal form. */
  lemma NormalFormCanonical(parse: Parser, first: seq<string>, second: seq<string>, a: seq<LeaseVIP>, b: seq<LeaseVIP>)
    requires Normalized(parse, first, a) && Normalized(parse, second, b)
    requires forall x :: Candidate(first, x) <==> Candidate(second, x)
    ensures a == b
  {
    IncreasingUnique(parse, Values(a), Values(b));
    forall i | 0 <= i < |a| ensures a[i] == b[i] {
      assert Values(a)[i] == a[i].value && Values(b)[i] == b[i].value;
    }
  }

  /** Insertion into a sorted list; stands for the library's sort. */
  method Insert(parse: Parser, sorted: seq<string>, x: string) returns (longer: seq<string>)
    requires Increasing(parse, sorted) && x !in sorted
    ensures Increasing(parse, longer)
    ensures forall y :: y in longer <==> y in sorted || y == x
  {
    var i := 0;
    while i < |sorted| && CompareLeaseVIPs(parse, sorted[i], x) < 0
      invariant 0 <= i <= |sorted|
      invariant forall k :: 0 <= k < i ==> Less(parse, sorted[k], x)
    {
      i := i + 1;
    }
    longer := sorted[..i] + [x] + sorted[i..];
    Inserted(parse, sorted, x, i);
  }

  lemma Inserted(parse: Parser, sorted: seq<string>, x: string, i: nat)
    requires Increasing(parse, sorted) && x !in sorted && i <= |sorted|
    requires forall k :: 0 <= k < i ==> Less(parse, sorted[k], x)
    requires i < |sorted| ==> !Less(parse, sorted[i], x)
    ensures Increasing(parse, sorted[..i] + [x] + sorted[i..])
    ensures forall y :: y in sorted[..i] + [x] + sorted[i..] <==> y in sorted || y == x
  {
    var longer := sorted[..i] + [x] + sorted[i..];
    forall k | i <= k < |sorted| ensures Less(parse, x, sorted[k]) {
      assert sorted[i] in sorted;
      ComparesTotally(parse, sorted[i], x);
      if k > i {
        LessTransitive(parse, x, sorted[i], sorted[k]);
      }
    }
    assert forall a :: 0 <= a < |longer| ==> longer[a] == if a < i then sorted[a] else if a == i then x else sorted[a - 1];
    assert sorted == sorted[..i] + sorted[i..];
  }

  method NormalizeLeaseVIPs(parse: Parser, values: seq<string>) returns (vips: seq<LeaseVIP>)
    ensures Normalized(parse, values, vips)
  {
    var addresses := CollectCandidates(values);
    var sorted := SortVIPs(parse, addresses);
    vips := [];
    for i := 0 to |sorted|
      invariant |vips| == i
      invariant forall k :: 0 <= k < i ==> vips[k] == LeaseVIP(k, sorted[k], KindOf(parse, sorted[k]))
    {
      var kind := if parse(sorted[i]).Some? then KIND_ADDRESS else KIND_NAME;
      vips := vips + [LeaseVIP(|vips|, sorted[i], kind)];
    }
    assert Values(vips) == sorted;
  }

  method SortVIPs(parse: Parser, addresses: seq<string>) returns (sorted: seq<string>)
    requires forall i, j :: 0 <= i < j < |addresses| ==> addresses[i] != addresses[j]
    ensures Increasing(parse, sorted) && forall x :: x in sorted <==> x in addresses
  {
    sorted := [];
    for i := 0 to |addresses|
      invariant Increasing(parse, sorted)
      invariant forall x :: x in sorted <==> x in addresses[..i]
    {
      assert addresses[i] !in addresses[..i];
      sorted := Insert(parse, sorted, addresses[i]);
    }
    assert addresses[..|addresses|] == addresses;
  }

  /** The distinct candidates, in order of appearance. */
  method CollectCandidates(values: seq<string>) returns (addresses: seq<string>)
    ensures forall x :: x in addresses <==> Candidate(values, x)
    ensures forall i, j :: 0 <= i < j < |addresses| ==> addresses[i] != addresses[j]
  {
    var unique: set<string> := {};
    addresses := [];
    for i := 0 to |values|
      invariant forall x :: x in addresses <==> Candidate(values[..i], x)
      invariant forall x :: x in unique <==> x in addresses
      invariant forall k, l :: 0 <= k < l < |addresses| ==> addresses[k] != addresses[l]
    {
      var parts := Split(values[i], ',');
      ghost var before := addresses;
      for j := 0 to |parts|
        invariant forall x :: x in addresses <==> x in before || (x != "" && TrimmedPart(parts[..j], x))
        invariant forall x :: x in unique <==> x in addresses
        invariant forall k, l :: 0 <= k < l < |addresses| ==> addresses[k] != addresses[l]
      {
        var candidate := TrimSpace(parts[j]);
        TrimmedPartStep(parts, j);
        if candidate == "" || candidate in unique {
          continue;
        }
        unique := unique + {candidate};
        addresses := addresses + [candidate];
      }
      CandidateStep(values, i);
      assert parts[..|parts|] == parts;
    }
    assert values[..|values|] == values;
  }

  lemma TrimmedPartStep(parts: seq<string>, j: nat)
    requires j < |parts|
    ensures forall x :: TrimmedPart(parts[..j + 1], x) <==> TrimmedPart(parts[..j], x) || x == TrimSpace(parts[j])
  {
    var longer, shorter := parts[..j + 1], parts[..j];
    assert longer == shorter + [parts[j]];
    forall x | TrimmedPart(shorter, x) ensures TrimmedPart(longer, x) {
      var k :| 0 <= k < |shorter| && x == TrimSpace(shorter[k]);
      assert longer[k] == shorter[k];
    }
    assert longer[j] == parts[j];
  }

  lemma CandidateStep(values: seq<string>, i: nat)
    requires i < |values|
    ensures forall x :: Candidate(values[..i + 1], x) <==> Candidate(values[..i], x) || (x != "" && PartOf(values[i], x))
  {
    forall x ensures Candidate(values[..i + 1], x) <==> Candidate(values[..i], x) || (x != "" && PartOf(values[i], x)) {
      if a :| 0 <= a < i && PartOf(values[..i][a], x) {
        assert PartOf(values[..i + 1][a], x);
      }
      assert values[..i + 1][i] == values[i];
    }
  }

  // ---- Encoding -------------------------------------------------------------------------------

  datatype LeaseVIPsValue = LeaseVIPsValue(version: string, instanceName: string, ifaProto: int, vips: seq<LeaseVIP>)

  /** The JSON codec: encoding, and decoding of any text. */
  type Encoder = LeaseVIPsValue -> string
  type Decoder = string -> Option<LeaseVIPsValue>

  ghost predicate Inverts(encode: Encoder, decode: Decoder) {
    forall v :: decode(encode(v)) == Some(v)
  }

  /** The values the parser accepts. */
  predicate WellFormed(v: LeaseVIPsValue) {
    v.version == VERSION && forall i :: 0 <= i < |v.vips| ==> v.vips[i].index == i && (v.vips[i].kind == KIND_ADDRESS || v.vips[i].kind == KIND_NAME)
  }

  method ParseLeaseVIPs(decode: Decoder, value: string) returns (parsed: Option<LeaseVIPsValue>)
    ensures parsed == if decode(value).Some? && WellFormed(decode(value).value) then decode(value) else None
    ensures parsed.Some? ==> parsed.value.version == "v1"
    ensures decode(value).Some? && decode(value).value.version == "v1" ==>
              (parsed.Some? <==> forall i :: 0 <= i < |decode(value).value.vips| ==>
                                   decode(value).value.vips[i].index == i && decode(value).value.vips[i].kind in ["address", "name"])
  {
    match decode(value) {
      case None => return None;
      case Some(v) =>
        if v.version != VERSION {
          return None;
        }
        for i := 0 to |v.vips|
          invariant forall k :: 0 <= k < i ==> v.vips[k].index == k && (v.vips[k].kind == KIND_ADDRESS || v.vips[k].kind == KIND_NAME)
        {
          if v.vips[i].index != i {
            return None;
          }
          if v.vips[i].kind != KIND_ADDRESS && v.vips[i].kind != KIND_NAME {
            return None;
          }
        }
        return Some(v);
    }
  }

  /** The other annotations are kept, and the encoded one holds the normal form of the VIPs. */
  method WithLeaseVIPs(parse: Parser, encode: Encoder, key: string, annotations: map<string, string>,
                       instanceName: string, ifaProto: int, vips: seq<string>)
    returns (result: map<string, string>)
    ensures result.Keys == annotations.Keys + {key}
    ensures forall k :: k in annotations && k != key ==> result[k] == annotations[k]
    ensures exists normal :: Normalized(parse, vips, normal) && result[key] == encode(LeaseVIPsValue(VERSION, instanceName, ifaProto, normal))
  {
    var normal := NormalizeLeaseVIPs(parse, vips);
    result := annotations[key := encode(LeaseVIPsValue(VERSION, instanceName, ifaProto, normal))];
  }

  /**
   Round trip: given an invertible codec, the annotation is accepted and returns
   exactly the normal form, and it is the same text for any two lists with the
   same candidates, whatever their order, spacing and repetitions.
   */
  lemma AnnotationRoundTrip(parse: Parser, encode: Encoder, decode: Decoder, instanceName: string, ifaProto: int,
                            first: seq<string>, second: seq<string>, a: seq<LeaseVIP>, b: seq<LeaseVIP>)
    requires Inverts(encode, decode) && Normalized(parse, first, a) && Normalized(parse, second, b)
    requires forall x :: Candidate(first, x) <==> Candidate(second, x)
    ensures var v, w := LeaseVIPsValue(VERSION, instanceName, ifaProto, a), LeaseVIPsValue(VERSION, instanceName, ifaProto, b);
            encode(v) == encode(w) && decode(encode(w)) == Some(v) && WellFormed(v)
  {
    NormalFormCanonical(parse, first, second, a, b);
  }
}
