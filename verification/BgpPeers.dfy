/**
 BGP peer configuration: the parser of the comma-separated peer list, a renderer
 for its documented layout, and exactly which peers can be written down.
 */
module BgpPeers {
  import opened Text

  datatype Peer = Peer(
    address: string, port: nat, iface: string, asn: nat, password: string, multiHop: bool,
    mpbgp: Mpbgp, bfd: Bfd)

  datatype Mpbgp = Mpbgp(nexthop: string, ipv4: string, ipv6: string)

  datatype Bfd = Bfd(enabled: bool, receive: nat, transmit: nat, multiplier: nat)

  datatype Error =
    | NoPeers | NoBracket | Incomplete | BadAS | BadMultiHop | BadPort | MissingValue | Unsupported | BadBFD

  datatype Result<+T> = Ok(value: T) | Err(error: Error)
  {
    predicate IsFailure() { Err? }
    function PropagateFailure<U>(): Result<U> requires Err? { Err(error) }
    function Extract(): T requires Ok? { value }
  }

  const UINT16: nat := 0x1_0000
  const UINT32: nat := 0x1_0000_0000
  const DEFAULT_PORT: nat := 179
  const UNNUMBERED := "unnumbered:"
  const NO_MPBGP := Mpbgp("", "", "")
  const NO_BFD := Bfd(false, 300, 300, 3)

  /** strconv.ParseBool. */
  function ParseBool(s: string): Option<bool> {
    if s in ["1", "t", "T", "TRUE", "true", "True"] then Some(true)
    else if s in ["0", "f", "F", "FALSE", "false", "False"] then Some(false)
    else None
  }

  function Number(s: string, limit: nat, error: Error): Result<nat> {
    match ParseUint(s, limit) case Some(n) => Ok(n) case None => Err(error)
  }

  function Boolean(s: string, error: Error): Result<bool> {
    match ParseBool(s) case Some(b) => Ok(b) case None => Err(error)
  }

  // ---- One peer --------------------------------------------------------------------------

  datatype Form = Plain | Bracketed | Unnumbered

  /** The leading address or interface, and the colon-separated fields; the first field of a bracketed peer is ignored. */
  datatype Head = Head(form: Form, address: string, fields: seq<string>)

  function FormOf(s: string): Form
    requires s != ""
  {
    if s[0] == '[' then Bracketed else if UNNUMBERED <= s then Unnumbered else Plain
  }

  function ParseHead(s: string): Result<Head>
    requires s != ""
  {
    match FormOf(s)
    case Bracketed =>
      var end := IndexOf(s, ']');
      if end == |s| then Err(NoBracket) else Ok(Head(Bracketed, s[1..end], Split(s[end + 1..], ':')))
    case Unnumbered => Ok(Head(Unnumbered, "", Split(s[|UNNUMBERED|..], ':')))
    case Plain => Ok(Head(Plain, Split(s, ':')[0], Split(s, ':')))
  }

  /** A field, or the empty string when it is left out. */
  function Field(fields: seq<string>, i: nat): string { if i < |fields| then fields[i] else "" }

  function ParseOption(m: Mpbgp, option: string): Result<Mpbgp> {
    var c := Split(option, '=');
    if |c| < 2 then Err(MissingValue)
    else if c[0] == "mpbgp_nexthop" then Ok(m.(nexthop := c[1]))
    else if c[0] == "mpbgp_ipv4" then Ok(m.(ipv4 := c[1]))
    else if c[0] == "mpbgp_ipv6" then Ok(m.(ipv6 := c[1]))
    else Err(Unsupported)
  }

  function ParseOptions(m: Mpbgp, options: seq<string>): Result<Mpbgp>
    decreases |options|
  {
    if options == [] then Ok(m)
    else
      var next :- ParseOption(m, options[0]);
      ParseOptions(next, options[1..])
  }

  function ParseMpbgp(field: string): Result<Mpbgp> {
    if field == "" then Ok(NO_MPBGP) else ParseOptions(NO_MPBGP, Split(field, ';'))
  }

  function OptionalNumber(s: string, default: nat): Result<nat> {
    if s == "" then Ok(default) else Number(s, UINT32, BadBFD)
  }

  function ParseBfd(field: string): Result<Bfd> {
    if field == "" then Ok(NO_BFD)
    else
      var c := Split(field, ';');
      if |c| < 4 then Err(BadBFD)
      else
        var enabled :- Boolean(c[0], BadBFD);
        var receive :- OptionalNumber(c[1], 300);
        var transmit :- OptionalNumber(c[2], 300);
        var multiplier :- OptionalNumber(c[3], 3);
        Ok(Bfd(enabled, receive, transmit, multiplier))
  }

  function ParsePort(form: Form, fields: seq<string>): Result<nat> {
    if |fields| >= 5 then (if fields[4] == "" then Ok(DEFAULT_PORT) else Number(fields[4], UINT16, BadPort))
    else Ok(if form == Unnumbered then 0 else DEFAULT_PORT)
  }

  function Assemble(form: Form, address: string, f: seq<string>): Result<Peer> {
    if |f| < 2 && form != Unnumbered then Err(Incomplete)
    else
      var asn :- if |f| >= 2 then Number(f[1], UINT32, BadAS) else Ok(0);
      var multiHop :- if Field(f, 3) == "" then Ok(false) else Boolean(f[3], BadMultiHop);
      var port :- ParsePort(form, f);
      var mpbgp :- ParseMpbgp(Field(f, 5));
      var bfd :- ParseBfd(Field(f, 6));
      Ok(Peer(address, port, if form == Unnumbered then Field(f, 0) else "", asn, Field(f, 2), multiHop, mpbgp, bfd))
  }

  function ParsePeer(s: string): Result<Peer>
    requires s != ""
  {
    var head :- ParseHead(s);
    Assemble(head.form, head.address, head.fields)
  }

  /** The parser as a value; empty parts never reach it. */
  const PARSE_PEER: string -> Result<Peer> := (s: string) => if s == "" then Err(Incomplete) else ParsePeer(s)

  // ---- The list ---------------------------------------------------------------------------------

  /** The peers of the non-empty parts, in order, up to the first error. */
  function ParseParts<T>(parse: string -> Result<T>, parts: seq<string>): Result<seq<T>>
    decreases |parts|
  {
    if parts == [] then Ok([])
    else if parts[0] == "" then ParseParts(parse, parts[1..])
    else
      var peer :- parse(parts[0]);
      var rest :- ParseParts(parse, parts[1..]);
      Ok([peer] + rest)
  }

  function Peers(parts: seq<string>): Result<seq<Peer>> {
    ParseParts(PARSE_PEER, parts)
  }

  function ParseConfig(config: string): Result<seq<Peer>> {
    if config == "" then Err(NoPeers) else Peers(Split(config, ','))
  }

  lemma {:induction false} PartsConcat<T>(parse: string -> Result<T>, a: seq<string>, b: seq<string>)
    ensures ParseParts(parse, a + b).Ok? <==> ParseParts(parse, a).Ok? && ParseParts(parse, b).Ok?
    ensures ParseParts(parse, a + b).Ok? ==> ParseParts(parse, a + b).value == ParseParts(parse, a).value + ParseParts(parse, b).value
    ensures ParseParts(parse, a).Err? ==> ParseParts(parse, a + b) == ParseParts(parse, a)
    decreases |a|
  {
    if a == [] {
      assert a + b == b;
    } else {
      PartsConcat(parse, a[1..], b);
      assert (a + b)[0] == a[0] && (a + b)[1..] == a[1..] + b;
    }
  }

  /** Lists compose: a joined list parses exactly when both parts do, to the peers of both in order. */
  lemma ListsCompose(a: string, b: string)
    requires a != "" && b != ""
    ensures var joined := ParseConfig(a + "," + b);
            && (joined.Ok? <==> ParseConfig(a).Ok? && ParseConfig(b).Ok?)
            && (joined.Ok? ==> joined.value == ParseConfig(a).value + ParseConfig(b).value)
            && (ParseConfig(a).Err? ==> joined == ParseConfig(a))
  {
    SplitAppend(a, ',', b);
    assert "," == [','];
    PartsConcat(PARSE_PEER, Split(a, ','), Split(b, ','));
  }

  /** No text is an error, while a list of empty parts is an empty list. */
  lemma EmptyLists(parts: seq<string>)
    requires |parts| > 1 && forall p :: p in parts ==> p == ""
    ensures ParseConfig("") == Err(NoPeers)
    ensures ParseConfig(Join(parts, ',')) == Ok([])
  {
    SplitJoin(parts, ',');
    assert parts[0] in parts;
    assert Join(parts, ',') == "" + [','] + Join(parts[1..], ',');
    NothingParsed(parts);
  }

  lemma {:induction false} NothingParsed(parts: seq<string>)
    requires forall p :: p in parts ==> p == ""
    ensures Peers(parts) == Ok([])
    decreases |parts|
  {
    if parts == [] {
    } else {
      assert parts[0] in parts;
      forall p | p in parts[1..] ensures p == "" {
        assert p in parts;
      }
      NothingParsed(parts[1..]);
    }
  }

  // ---- What is accepted ----------------------------------------------------------------------------

  predicate NumberBelow(s: string, limit: nat) { s != "" && AllDigits(s) && Value(s) < limit }

  predicate TrueWord(s: string) { s == "1" || s == "t" || s == "T" || s == "true" || s == "True" || s == "TRUE" }

  predicate FalseWord(s: string) { s == "0" || s == "f" || s == "F" || s == "false" || s == "False" || s == "FALSE" }

  /** A name before the first equals sign, and a value. */
  predicate OptionOk(option: string) {
    && '=' in option
    && (option[..IndexOf(option, '=')] == "mpbgp_nexthop" || option[..IndexOf(option, '=')] == "mpbgp_ipv4"
        || option[..IndexOf(option, '=')] == "mpbgp_ipv6")
  }

  lemma OptionExactly(m: Mpbgp, option: string)
    ensures ParseOption(m, option).Ok? <==> OptionOk(option)
  {
    SplitAtFirst(option, '=');
  }

  lemma {:induction false} OptionsExactly(m: Mpbgp, options: seq<string>)
    ensures ParseOptions(m, options).Ok? <==> forall option :: option in options ==> OptionOk(option)
    decreases |options|
  {
    if options == [] {
    } else {
      OptionExactly(m, options[0]);
      assert options == [options[0]] + options[1..];
      if ParseOption(m, options[0]).Ok? {
        OptionsExactly(ParseOption(m, options[0]).value, options[1..]);
      }
    }
  }

  ghost predicate MpbgpOk(field: string) {
    field == "" || forall option :: option in Split(field, ';') ==> OptionOk(option)
  }

  ghost predicate BfdOk(field: string) {
    field == "" ||
    (var c := Split(field, ';');
     && |c| >= 4 && (TrueWord(c[0]) || FalseWord(c[0]))
     && (c[1] == "" || NumberBelow(c[1], UINT32)) && (c[2] == "" || NumberBelow(c[2], UINT32)) && (c[3] == "" || NumberBelow(c[3], UINT32)))
  }

  /** The peers that are accepted: exactly these conditions on the fields, whatever follows the seventh. */
  lemma AcceptedExactly(form: Form, address: string, f: seq<string>)
    ensures Assemble(form, address, f).Ok? <==>
              && (|f| >= 2 || form == Unnumbered) && (|f| >= 2 ==> NumberBelow(f[1], UINT32))
              && (Field(f, 3) == "" || TrueWord(f[3]) || FalseWord(f[3]))
              && (Field(f, 4) == "" || NumberBelow(f[4], UINT16))
              && MpbgpOk(Field(f, 5)) && BfdOk(Field(f, 6))
  {
    OptionsExactly(NO_MPBGP, Split(Field(f, 5), ';'));
    BfdExactly(Field(f, 6));
  }

  /** Which error a rejected peer gets: that of its first bad field. */
  lemma RejectedWith(form: Form, address: string, f: seq<string>)
    requires Assemble(form, address, f).Err?
    ensures var error := Assemble(form, address, f).error;
            if |f| < 2 && form != Unnumbered then error == Incomplete
            else if |f| >= 2 && !NumberBelow(f[1], UINT32) then error == BadAS
            else if Field(f, 3) != "" && !TrueWord(f[3]) && !FalseWord(f[3]) then error == BadMultiHop
            else if Field(f, 4) != "" && !NumberBelow(f[4], UINT16) then error == BadPort
            else if !MpbgpOk(Field(f, 5)) then error == MissingValue || error == Unsupported
            else error == BadBFD
  {
    OptionsExactly(NO_MPBGP, Split(Field(f, 5), ';'));
    OptionErrors(NO_MPBGP, Split(Field(f, 5), ';'));
    BfdExactly(Field(f, 6));
  }

  lemma {:induction false} OptionErrors(m: Mpbgp, options: seq<string>)
    ensures ParseOptions(m, options).Err? ==> ParseOptions(m, options).error == MissingValue || ParseOptions(m, options).error == Unsupported
    decreases |options|
  {
    if options == [] {
    } else {
      if ParseOption(m, options[0]).Ok? {
        OptionErrors(ParseOption(m, options[0]).value, options[1..]);
      }
    }
  }

  lemma BfdExactly(field: string)
    ensures ParseBfd(field).Ok? <==> BfdOk(field)
    ensures ParseBfd(field).Ok? && field != "" ==>
              var b, c := ParseBfd(field).value, Split(field, ';');
              && |c| >= 4 && (b.enabled <==> TrueWord(c[0]))
              && (c[1] == "" ==> b.receive == 300) && (c[2] == "" ==> b.transmit == 300) && (c[3] == "" ==> b.multiplier == 3)
  {
  }

  /** What a field that is empty or left out stands for. */
  lemma OmittedFields(form: Form, address: string, f: seq<string>)
    requires Assemble(form, address, f).Ok?
    ensures var p := Assemble(form, address, f).value;
            && (|f| < 2 ==> p.asn == 0)
            && (Field(f, 3) == "" ==> !p.multiHop)
            && (|f| < 5 ==> p.port == if form == Unnumbered then 0 else 179) && (|f| >= 5 && f[4] == "" ==> p.port == 179)
            && (Field(f, 5) == "" ==> p.mpbgp == Mpbgp("", "", ""))
            && (Field(f, 6) == "" ==> p.bfd == Bfd(false, 300, 300, 3))
  {
  }

  /** What the given fields stand for. */
  lemma GivenFields(form: Form, address: string, f: seq<string>)
    requires Assemble(form, address, f).Ok?
    ensures var p := Assemble(form, address, f).value;
            && p.address == address && p.password == Field(f, 2) && p.iface == (if form == Unnumbered then Field(f, 0) else "")
            && (|f| >= 2 ==> NumberBelow(f[1], UINT32) && p.asn == Value(f[1]))
            && (Field(f, 3) != "" ==> (p.multiHop <==> TrueWord(f[3])))
            && (Field(f, 4) != "" ==> NumberBelow(f[4], UINT16) && p.port == Value(f[4]))
  {
    AcceptedExactly(form, address, f);
  }

  // ---- Rendering ---------------------------------------------------------------------------------

  function RenderBool(b: bool): string { if b then "true" else "false" }

  function RenderMpbgp(m: Mpbgp): string {
    Join(["mpbgp_nexthop=" + m.nexthop, "mpbgp_ipv4=" + m.ipv4, "mpbgp_ipv6=" + m.ipv6], ';')
  }

  function RenderBfd(b: Bfd): string {
    Join([RenderBool(b.enabled), Decimal(b.receive), Decimal(b.transmit), Decimal(b.multiplier)], ';')
  }

  /** The fields of the documented layout after the address or interface. */
  function Tail(p: Peer): seq<string> {
    [Decimal(p.asn), p.password, RenderBool(p.multiHop), Decimal(p.port), RenderMpbgp(p.mpbgp), RenderBfd(p.bfd)]
  }

  function FirstField(p: Peer, form: Form): string {
    match form case Plain => p.address case Bracketed => "" case Unnumbered => p.iface
  }

  /** The first `k` fields. */
  function Fields(p: Peer, form: Form, k: nat): seq<string>
    requires 1 <= k <= 7
  {
    [FirstField(p, form)] + Tail(p)[..k - 1]
  }

  function Render(p: Peer, form: Form, k: nat): string
    requires 1 <= k <= 7
  {
    var fields := Join(Fields(p, form, k), ':');
    match form
    case Plain => fields
    case Bracketed => "[" + p.address + "]" + fields
    case Unnumbered => UNNUMBERED + fields
  }

  predicate Avoids(s: string, delimiters: string) {
    forall c :: c in delimiters ==> c !in s
  }

  /** The common fields fit the layout: numbers in range, texts free of delimiters. */
  predicate CleanTail(p: Peer) {
    && p.asn < UINT32 && p.port < UINT16 && Avoids(p.password, ":,")
    && Avoids(p.mpbgp.nexthop, ":,;=") && Avoids(p.mpbgp.ipv4, ":,;=") && Avoids(p.mpbgp.ipv6, ":,;=")
    && p.bfd.receive < UINT32 && p.bfd.transmit < UINT32 && p.bfd.multiplier < UINT32
  }

  /** The address or interface can be written in the given form. */
  predicate HeadFits(p: Peer, form: Form) {
    match form
    case Plain => p.iface == "" && Avoids(p.address, ":,") && !("[" <= p.address) && p.address != "unnumbered"
    case Bracketed => p.iface == "" && Avoids(p.address, "],")
    case Unnumbered => p.address == "" && Avoids(p.iface, ":,")
  }

  predicate Fits(p: Peer, form: Form) { CleanTail(p) && HeadFits(p, form) }

  /** The peer that remains when only the first `k` fields are given: the rest have their defaults. */
  function Truncated(p: Peer, form: Form, k: nat): Peer {
    Peer(p.address,
         if k >= 5 then p.port else if form == Unnumbered then 0 else DEFAULT_PORT,
         p.iface,
         if k >= 2 then p.asn else 0,
         if k >= 3 then p.password else "",
         k >= 4 && p.multiHop,
         if k >= 6 then p.mpbgp else NO_MPBGP,
         if k >= 7 then p.bfd else NO_BFD)
  }

  lemma BoolRoundTrip(b: bool)
    ensures ParseBool(RenderBool(b)) == Some(b) && RenderBool(b) != ""
    ensures ':' !in RenderBool(b) && ',' !in RenderBool(b) && ';' !in RenderBool(b)
  {
    assert "true" in ["1", "t", "T", "TRUE", "true", "True"];
    assert "false" in ["0", "f", "F", "FALSE", "false", "False"];
    assert "false" !in ["1", "t", "T", "TRUE", "true", "True"] by {
      assert |"false"| == 5 && |"TRUE"| == 4;
    }
  }

  lemma OptionSplit(name: string, value: string)
    requires '=' !in name && '=' !in value
    ensures Split(name + "=" + value, '=') == [name, value]
  {
    assert "=" == ['='];
    SplitAppend(name, '=', value);
    SplitWhole(name, '=');
    SplitWhole(value, '=');
  }

  lemma MpbgpRoundTrip(m: Mpbgp)
    requires Avoids(m.nexthop, ";=") && Avoids(m.ipv4, ";=") && Avoids(m.ipv6, ";=")
    ensures ParseMpbgp(RenderMpbgp(m)) == Ok(m)
  {
    assert ';' in ";=" && '=' in ";=";
    var a, b, c := "mpbgp_nexthop=" + m.nexthop, "mpbgp_ipv4=" + m.ipv4, "mpbgp_ipv6=" + m.ipv6;
    assert a == "mpbgp_nexthop" + "=" + m.nexthop && b == "mpbgp_ipv4" + "=" + m.ipv4 && c == "mpbgp_ipv6" + "=" + m.ipv6;
    SplitJoin([a, b, c], ';');
    OptionSplit("mpbgp_nexthop", m.nexthop);
    OptionSplit("mpbgp_ipv4", m.ipv4);
    OptionSplit("mpbgp_ipv6", m.ipv6);
    ThreeOptions(m, a, b, c);
    assert Join([a, b, c], ';')[0] == 'm';
  }

  lemma ThreeOptions(m: Mpbgp, a: string, b: string, c: string)
    requires Split(a, '=') == ["mpbgp_nexthop", m.nexthop] && Split(b, '=') == ["mpbgp_ipv4", m.ipv4] && Split(c, '=') == ["mpbgp_ipv6", m.ipv6]
    ensures ParseOptions(NO_MPBGP, [a, b, c]) == Ok(m)
  {
    assert |"mpbgp_nexthop"| == 13 && |"mpbgp_ipv4"| == 10 && "mpbgp_ipv6"[9] == '6' && "mpbgp_ipv4"[9] == '4';
    var m1, m2 := Mpbgp(m.nexthop, "", ""), Mpbgp(m.nexthop, m.ipv4, "");
    assert ParseOption(NO_MPBGP, a) == Ok(m1);
    assert ParseOption(m1, b) == Ok(m2);
    assert ParseOption(m2, c) == Ok(m);
    assert [a, b, c][1..] == [b, c] && [b, c][1..] == [c] && [c][1..] == [];
    assert ParseOptions(m2, [c]) == Ok(m);
    assert ParseOptions(m1, [b, c]) == Ok(m);
  }

  lemma BfdRoundTrip(b: Bfd)
    requires b.receive < UINT32 && b.transmit < UINT32 && b.multiplier < UINT32
    ensures ParseBfd(RenderBfd(b)) == Ok(b)
  {
    BoolRoundTrip(b.enabled);
    ParseDecimal(b.receive, UINT32);
    ParseDecimal(b.transmit, UINT32);
    ParseDecimal(b.multiplier, UINT32);
    SplitJoin([RenderBool(b.enabled), Decimal(b.receive), Decimal(b.transmit), Decimal(b.multiplier)], ';');
    assert RenderBfd(b) != "";
  }

  /** Neither colons nor commas appear in a rendered field. */
  lemma TailAvoids(p: Peer, d: char)
    requires CleanTail(p) && (d == ':' || d == ',')
    ensures forall i :: 0 <= i < 6 ==> d !in Tail(p)[i]
  {
    assert ':' in ":," && ',' in ":," && ':' in ":,;=" && ',' in ":,;=";
    BoolRoundTrip(p.multiHop);
    MpbgpAvoids(p.mpbgp, d);
    BfdAvoids(p.bfd, d);
  }

  lemma MpbgpAvoids(m: Mpbgp, d: char)
    requires d !in m.nexthop && d !in m.ipv4 && d !in m.ipv6 && (d == ':' || d == ',')
    ensures d !in RenderMpbgp(m)
  {
    var a, b, c := "mpbgp_nexthop=" + m.nexthop, "mpbgp_ipv4=" + m.ipv4, "mpbgp_ipv6=" + m.ipv6;
    assert d !in "mpbgp_nexthop=" && d !in "mpbgp_ipv4=" && d !in "mpbgp_ipv6=";
    assert d !in a && d !in b && d !in c;
    JoinChars([a, b, c], ';', d);
  }

  lemma BfdAvoids(b: Bfd, d: char)
    requires d == ':' || d == ','
    ensures d !in RenderBfd(b)
  {
    BoolRoundTrip(b.enabled);
    JoinChars([RenderBool(b.enabled), Decimal(b.receive), Decimal(b.transmit), Decimal(b.multiplier)], ';', d);
  }

  lemma FieldAt(p: Peer, form: Form, k: nat, i: nat)
    requires 1 <= k <= 7
    ensures |Fields(p, form, k)| == k
    ensures Field(Fields(p, form, k), i) == if i >= k then "" else if i == 0 then FirstField(p, form) else Tail(p)[i - 1]
  {
  }

  /** The fields are parsed independently of each other. */
  lemma Assembled(form: Form, address: string, f: seq<string>, asn: nat, multiHop: bool, port: nat, mpbgp: Mpbgp, bfd: Bfd)
    requires |f| >= 2 || form == Unnumbered
    requires (if |f| >= 2 then Number(f[1], UINT32, BadAS) else Ok(0)) == Ok(asn)
    requires (if Field(f, 3) == "" then Ok(false) else Boolean(Field(f, 3), BadMultiHop)) == Ok(multiHop)
    requires ParsePort(form, f) == Ok(port) && ParseMpbgp(Field(f, 5)) == Ok(mpbgp) && ParseBfd(Field(f, 6)) == Ok(bfd)
    ensures Assemble(form, address, f)
            == Ok(Peer(address, port, if form == Unnumbered then Field(f, 0) else "", asn, Field(f, 2), multiHop, mpbgp, bfd))
  {
  }

  lemma PortRoundTrip(p: Peer, form: Form, k: nat)
    requires p.port < UINT16 && 1 <= k <= 7
    ensures ParsePort(form, Fields(p, form, k)) == Ok(Truncated(p, form, k).port)
  {
    ParseDecimal(p.port, UINT16);
    FieldAt(p, form, k, 4);
  }

  lemma MultiProtocolRoundTrip(p: Peer, form: Form, k: nat)
    requires CleanTail(p) && 1 <= k <= 7
    ensures ParseMpbgp(Field(Fields(p, form, k), 5)) == Ok(Truncated(p, form, k).mpbgp)
    ensures ParseBfd(Field(Fields(p, form, k), 6)) == Ok(Truncated(p, form, k).bfd)
  {
    assert ';' in ":,;=" && '=' in ":,;=";
    MpbgpRoundTrip(p.mpbgp);
    BfdRoundTrip(p.bfd);
    FieldAt(p, form, k, 5);
    FieldAt(p, form, k, 6);
  }

  lemma AssembleRoundTrip(p: Peer, form: Form, k: nat)
    requires Fits(p, form) && 1 <= k <= 7 && (form != Unnumbered ==> k >= 2)
    ensures Assemble(form, p.address, Fields(p, form, k)) == Ok(Truncated(p, form, k))
  {
    var f, t := Fields(p, form, k), Truncated(p, form, k);
    FieldAt(p, form, k, 0);
    FieldAt(p, form, k, 1);
    FieldAt(p, form, k, 2);
    FieldAt(p, form, k, 3);
    ParseDecimal(p.asn, UINT32);
    BoolRoundTrip(p.multiHop);
    PortRoundTrip(p, form, k);
    MultiProtocolRoundTrip(p, form, k);
    Assembled(form, p.address, f, t.asn, t.multiHop, t.port, t.mpbgp, t.bfd);
  }

  lemma HeadRoundTrip(p: Peer, form: Form, k: nat)
    requires Fits(p, form) && 1 <= k <= 7 && (form != Unnumbered ==> k >= 2)
    ensures Render(p, form, k) != ""
    ensures ParseHead(Render(p, form, k)) == Ok(Head(form, p.address, Fields(p, form, k)))
  {
    var f := Fields(p, form, k);
    TailAvoids(p, ':');
    assert ':' in ":," && ']' in "],";
    assert forall i :: 0 <= i < |f| ==> ':' !in f[i];
    SplitJoin(f, ':');
    var s, joined := Render(p, form, k), Join(f, ':');
    match form {
      case Plain =>
        assert joined == p.address + [':'] + Join(f[1..], ':');
        PlainForm(p.address, Join(f[1..], ':'));
      case Bracketed =>
        BracketedForm(p.address, joined);
      case Unnumbered =>
        assert s[0] == 'u' && s[|UNNUMBERED|..] == joined;
    }
  }

  lemma BracketedForm(address: string, rest: string)
    requires ']' !in address
    ensures var s := "[" + address + "]" + rest;
            IndexOf(s, ']') == |address| + 1 && s[1..|address| + 1] == address && s[|address| + 2..] == rest && s[0] == '['
  {
    var s, front := "[" + address + "]" + rest, "[" + address;
    assert "]" == [']'] && s == front + [']'] + rest;
    IndexOfPrefix(front, ']', rest);
    assert |front| == |address| + 1 && front[1..] == address;
  }

  lemma PlainForm(address: string, rest: string)
    requires ':' !in address && !("[" <= address) && address != "unnumbered"
    ensures FormOf(address + [':'] + rest) == Plain
  {
    var s := address + [':'] + rest;
    assert address != "" ==> s[0] == address[0] && "[" == ['['];
    UnnumberedPrefix(address, rest);
  }

  lemma UnnumberedPrefix(address: string, rest: string)
    requires ':' !in address
    ensures UNNUMBERED <= address + [':'] + rest <==> address == "unnumbered"
  {
    var s := address + [':'] + rest;
    assert UNNUMBERED == "unnumbered" + [':'];
    if UNNUMBERED <= s {
      assert s[10] == ':' && s[|address|] == ':';
      assert forall i :: 0 <= i < 10 ==> s[i] == UNNUMBERED[i] != ':';
      assert address == s[..10];
    }
  }

  /**
   Round trip: a peer whose fields avoid the delimiters, rendered in any form it
   fits with any number of trailing fields left out, is parsed back with the
   defaults for what was left out.
   */
  lemma PeerRoundTrip(p: Peer, form: Form, k: nat)
    requires Fits(p, form) && 1 <= k <= 7 && (form != Unnumbered ==> k >= 2)
    ensures Render(p, form, k) != "" && ParsePeer(Render(p, form, k)) == Ok(Truncated(p, form, k))
    ensures Truncated(p, form, 7) == p
  {
    HeadRoundTrip(p, form, k);
    AssembleRoundTrip(p, form, k);
  }

  // ---- Exactly which peers can be written down -----------------------------------------------------

  predicate CleanMpbgp(m: Mpbgp) { Avoids(m.nexthop, ":,;=") && Avoids(m.ipv4, ":,;=") && Avoids(m.ipv6, ":,;=") }

  lemma OptionClean(m: Mpbgp, option: string)
    requires CleanMpbgp(m) && Avoids(option, ":,;")
    ensures ParseOption(m, option).Ok? ==> CleanMpbgp(ParseOption(m, option).value)
  {
    assert ':' in ":,;" && ',' in ":,;" && ';' in ":,;";
    SplitParts(option, '=');
    SplitChars(option, '=', ':');
    SplitChars(option, '=', ',');
    SplitChars(option, '=', ';');
    var c := Split(option, '=');
    if |c| >= 2 {
      assert c[1] in c;
      assert Avoids(c[1], ":,;=");
    }
  }

  lemma {:induction false} OptionsClean(m: Mpbgp, options: seq<string>)
    requires CleanMpbgp(m) && forall i :: 0 <= i < |options| ==> Avoids(options[i], ":,;")
    ensures ParseOptions(m, options).Ok? ==> CleanMpbgp(ParseOptions(m, options).value)
    decreases |options|
  {
    if options == [] {
    } else {
      OptionClean(m, options[0]);
      if ParseOption(m, options[0]).Ok? {
        OptionsClean(ParseOption(m, options[0]).value, options[1..]);
      }
    }
  }

  lemma MpbgpClean(field: string)
    requires Avoids(field, ":,")
    ensures ParseMpbgp(field).Ok? ==> CleanMpbgp(ParseMpbgp(field).value)
  {
    assert ':' in ":," && ',' in ":,";
    SplitParts(field, ';');
    SplitChars(field, ';', ':');
    SplitChars(field, ';', ',');
    var options := Split(field, ';');
    forall i | 0 <= i < |options| ensures Avoids(options[i], ":,;") {
      assert options[i] in options;
    }
    OptionsClean(NO_MPBGP, options);
  }

  lemma AssembleClean(form: Form, address: string, f: seq<string>)
    requires forall i :: 0 <= i < |f| ==> Avoids(f[i], ":,")
    ensures Assemble(form, address, f).Ok? ==> CleanTail(Assemble(form, address, f).value)
  {
    MpbgpClean(Field(f, 5));
  }

  /** Whatever is parsed could have been written by the renderer. */
  lemma ParsedFits(s: string)
    requires s != "" && ',' !in s
    ensures ParsePeer(s).Ok? ==> exists form :: Fits(ParsePeer(s).value, form)
  {
    if ParsePeer(s).Ok? {
      var head := ParseHead(s).value;
      HeadClean(s);
      AssembleClean(head.form, head.address, head.fields);
      var p := ParsePeer(s).value;
      assert ',' in "],";
      match head.form {
        case Plain => PlainFits(s, p);
        case Bracketed =>
          assert p.address == s[1..IndexOf(s, ']')];
          assert forall c :: c in p.address ==> c in s[..IndexOf(s, ']')];
          assert Fits(p, Bracketed);
        case Unnumbered =>
          assert p.iface == Field(head.fields, 0);
          assert Fits(p, Unnumbered);
      }
    }
  }

  lemma HeadClean(s: string)
    requires s != "" && ',' !in s && ParseHead(s).Ok?
    ensures var head := ParseHead(s).value; forall i :: 0 <= i < |head.fields| ==> Avoids(head.fields[i], ":,")
  {
    var head := ParseHead(s).value;
    var text := match head.form case Plain => s case Bracketed => s[IndexOf(s, ']') + 1..] case Unnumbered => s[|UNNUMBERED|..];
    assert head.fields == Split(text, ':');
    SplitParts(text, ':');
    SplitChars(text, ':', ',');
    forall i | 0 <= i < |head.fields| ensures Avoids(head.fields[i], ":,") {
      assert head.fields[i] in head.fields;
    }
  }

  lemma PlainFits(s: string, p: Peer)
    requires s != "" && ',' !in s && FormOf(s) == Plain && ParsePeer(s) == Ok(p) && CleanTail(p)
    ensures Fits(p, Plain)
  {
    HeadClean(s);
    SplitFirst(s, ':');
    var first := Split(s, ':')[0];
    assert p.address == first && first + [':'] <= s;
    assert ':' in ":,";
    var rest := s[|first| + 1..];
    assert s == first + [':'] + rest;
    UnnumberedPrefix(first, rest);
    assert "[" == ['['];
    assert first != "" ==> first[0] == s[0];
  }

  lemma {:induction false} FromPart<T>(parse: string -> Result<T>, parts: seq<string>, peer: T)
    requires ParseParts(parse, parts).Ok? && peer in ParseParts(parse, parts).value
    ensures exists i :: 0 <= i < |parts| && parts[i] != "" && parse(parts[i]) == Ok(peer)
    decreases |parts|
  {
    var value := ParseParts(parse, parts).value;
    if parts[0] != "" && parse(parts[0]) == Ok(peer) {
      assert parts[0] != "";
    } else {
      assert peer in ParseParts(parse, parts[1..]).value by {
        if parts[0] != "" {
          assert value == [parse(parts[0]).value] + ParseParts(parse, parts[1..]).value;
        }
      }
      FromPart(parse, parts[1..], peer);
      var i :| 0 <= i < |parts[1..]| && parts[1..][i] != "" && parse(parts[1..][i]) == Ok(peer);
      assert parts[i + 1] == parts[1..][i];
    }
  }

  /**
   A peer can be configured at all if and only if its fields fit the layout in
   some form. In particular no MP-BGP address with a colon, so no IPv6 one, can.
   */
  lemma ConfigurableExactly(p: Peer)
    ensures (exists config :: Configures(config, p)) <==> exists form :: Fits(p, form)
    ensures (exists form :: Fits(p, form)) ==> exists config :: ParseConfig(config) == Ok([p])
  {
    if config :| Configures(config, p) {
      ConfiguredFits(config, p);
    }
    if form :| Fits(p, form) {
      Rendered(p, form);
      assert p in [p];
      assert Configures(Render(p, form, 7), p);
    }
  }

  /** The configuration parses, to a list with the peer. */
  ghost predicate Configures(config: string, p: Peer)
  {
    ParseConfig(config).Ok? && p in ParseConfig(config).value
  }

  /** Every peer of every configured list fits the layout. */
  lemma ConfiguredFits(config: string, p: Peer)
    requires Configures(config, p)
    ensures exists form :: Fits(p, form)
  {
    var parts := Split(config, ',');
    FromPart(PARSE_PEER, parts, p);
    var i :| 0 <= i < |parts| && parts[i] != "" && PARSE_PEER(parts[i]) == Ok(p);
    SplitParts(config, ',');
    assert parts[i] in parts;
    ParsedFits(parts[i]);
  }

  lemma Rendered(p: Peer, form: Form)
    requires Fits(p, form)
    ensures ParseConfig(Render(p, form, 7)) == Ok([p])
  {
    PeerRoundTrip(p, form, 7);
    var s := Render(p, form, 7);
    RenderAvoidsComma(p, form);
    SplitWhole(s, ',');
    assert ParseParts(PARSE_PEER, [s][1..]) == Ok([]);
    assert [p] + [] == [p];
  }

  lemma RenderAvoidsComma(p: Peer, form: Form)
    requires Fits(p, form)
    ensures ',' !in Render(p, form, 7)
  {
    TailAvoids(p, ',');
    assert ',' in ":," && ',' in "],";
    assert forall i :: 0 <= i < 7 ==> ',' !in Fields(p, form, 7)[i];
    JoinChars(Fields(p, form, 7), ':', ',');
  }

  /** An IPv6 next hop cannot be given: its colons end the field. */
  lemma NoIPv6NextHop(p: Peer, config: string)
    requires ':' in p.mpbgp.ipv6
    ensures !Configures(config, p)
  {
    assert ':' in ":,;=";
    if Configures(config, p) {
      ConfiguredFits(config, p);
    }
  }

  // ---- The parser's own loop -------------------------------------------------------------------------

  /** The options loop: later settings of one key win. */
  method ParseOptionLoop(field: string) returns (r: Result<Mpbgp>)
    ensures r == ParseMpbgp(field)
  {
    var m := NO_MPBGP;
    if field != "" {
      var configData := Split(field, ';');
      for i := 0 to |configData|
        invariant ParseOptions(m, configData[i..]) == ParseOptions(NO_MPBGP, configData)
      {
        assert configData[i..][0] == configData[i] && configData[i..][1..] == configData[i + 1..];
        var c := Split(configData[i], '=');
        if |c| < 2 {
          return Err(MissingValue);
        }
        if c[0] == "mpbgp_nexthop" {
          m := m.(nexthop := c[1]);
        } else if c[0] == "mpbgp_ipv4" {
          m := m.(ipv4 := c[1]);
        } else if c[0] == "mpbgp_ipv6" {
          m := m.(ipv6 := c[1]);
        } else {
          return Err(Unsupported);
        }
      }
    }
    return Ok(m);
  }

  method ParseBGPPeerConfig(config: string) returns (r: Result<seq<Peer>>)
    ensures r == ParseConfig(config)
  {
    var parts := Split(config, ',');
    if |parts| == 0 || config == "" {
      return Err(NoPeers);
    }
    var peers: seq<Peer> := [];
    assert parts[0..] == parts;
    assert Prepend([], Peers(parts)) == Peers(parts) by { if Peers(parts).Ok? { assert [] + Peers(parts).value == Peers(parts).value; } }
    for x := 0 to |parts|
      invariant Peers(parts) == Prepend(peers, Peers(parts[x..]))
    {
      assert parts[x..][0] == parts[x] && parts[x..][1..] == parts[x + 1..];
      if parts[x] == "" {
        continue;
      }
      var head := ParseHead(parts[x]);
      if head.Err? {
        return Err(head.error);
      }
      var f := head.value.fields;
      var peer := AssembleLoop(head.value.form, head.value.address, f);
      assert PARSE_PEER(parts[x]) == peer;
      if peer.Err? {
        return Err(peer.error);
      }
      PrependStep(peers, peer.value, Peers(parts[x + 1..]));
      peers := peers + [peer.value];
    }
    assert peers + [] == peers;
    return Ok(peers);
  }

  function Prepend<T>(first: seq<T>, r: Result<seq<T>>): Result<seq<T>> {
    if r.Ok? then Ok(first + r.value) else r
  }

  lemma PrependStep<T>(first: seq<T>, x: T, r: Result<seq<T>>)
    ensures Prepend(first, Prepend([x], r)) == Prepend(first + [x], r)
  {
    if r.Ok? {
      assert first + ([x] + r.value) == (first + [x]) + r.value;
    }
  }

  method AssembleLoop(form: Form, address: string, peer: seq<string>) returns (r: Result<Peer>)
    ensures r == Assemble(form, address, peer)
  {
    if |peer| < 2 && form != Unnumbered {
      return Err(Incomplete);
    }
    var iface := if form == Unnumbered && |peer| > 0 then peer[0] else "";
    var asn := 0;
    if |peer| >= 2 {
      var n := ParseUint(peer[1], UINT32);
      if n.None? {
        return Err(BadAS);
      }
      asn := n.value;
    }
    var password := if |peer| >= 3 then peer[2] else "";
    var multiHop := false;
    if |peer| >= 4 && peer[3] != "" {
      var b := ParseBool(peer[3]);
      if b.None? {
        return Err(BadMultiHop);
      }
      multiHop := b.value;
    }
    var port := ParsePort(form, peer);
    if port.Err? {
      return Err(port.error);
    }
    var mpbgp := ParseOptionLoop(if |peer| >= 6 then peer[5] else "");
    if mpbgp.Err? {
      return Err(mpbgp.error);
    }
    var bfd := ParseBfd(if |peer| >= 7 then peer[6] else "");
    if bfd.Err? {
      return Err(bfd.error);
    }
    return Ok(Peer(address, port.value, iface, asn, password, multiHop, mpbgp.value, bfd.value));
  }
}
