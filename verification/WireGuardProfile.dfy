/**
 The WireGuard profile parser and its normal form.

 Key decoding, CIDR and IP parsing and the digest are parameters (`Oracle`)
 with the few laws the round trip needs; text handling is spelled out.
 */
module WireGuardProfile {
  import opened Common
  import opened Text

  const MAX_PROFILE: nat := 128 * 1024
  const PORT: nat := 1637
  const DEFAULT_KEEPALIVE: nat := 25
  const DEFAULT_MTU: nat := 1320
  const ANY_IPV4 := "0.0.0.0/0"

  /** The result of `net.ParseIP`, with the canonical spelling of an IPv4 address. */
  datatype Ip = NotIp | Ipv6 | Ipv4(canonical: string)

  /** `cidr` answers `Some(true)` for an IPv4 and `Some(false)` for an IPv6 prefix. */
  datatype Oracle = Oracle(isKey: string -> bool, cidr: string -> Option<bool>, ip: string -> Ip,
                           digest: string -> string)

  predicate DottedDigits(s: string) {
    s != "" && forall i :: 0 <= i < |s| ==> IsDigit(s[i]) || s[i] == '.'
  }

  /** Empty texts decode to nothing, and a canonical IPv4 address is its own canonical form. */
  ghost predicate Laws(o: Oracle) {
    && !o.isKey("") && o.cidr("").None?
    && forall s :: o.ip(s).Ipv4? ==> DottedDigits(o.ip(s).canonical) && o.ip(o.ip(s).canonical) == o.ip(s)
  }

  /** Such an oracle exists. */
  lemma LawsCanBeMet() returns (o: Oracle)
    ensures Laws(o)
  {
    o := Oracle(s => |s| == 44, s => if s == "" then None else Some(true),
                s => if DottedDigits(s) then Ipv4(s) else NotIp, s => s);
  }

  // ----- endpoint -----

  /** Position of the last `c`, or the length when there is none. */
  function LastIndexOf(s: string, c: char): (i: nat)
    ensures i <= |s| && (i < |s| ==> s[i] == c && c !in s[i + 1..]) && (i == |s| ==> c !in s)
  {
    if s == "" then 0
    else if s[|s| - 1] == c then |s| - 1
    else
      var i := LastIndexOf(s[..|s| - 1], c);
      if i == |s| - 1 then |s| else i
  }

  /** `net.SplitHostPort`. */
  function SplitHostPort(s: string): Option<(string, string)> {
    var i := LastIndexOf(s, ':');
    if i == |s| then None
    else if s[0] == '[' then
      var end := IndexOf(s, ']');
      if end + 1 != i || '[' in s[1..] || ']' in s[end + 1..] then None
      else Some((s[1..end], s[i + 1..]))
    else if ':' in s[..i] || '[' in s || ']' in s then None
    else Some((s[..i], s[i + 1..]))
  }

  predicate HostText(host: string) {
    Utf8Size(host) <= 253 && forall c <- host :: c !in " \t\r\n/\\"
  }

  function ValidateEndpoint(value: string, o: Oracle): Result<string> {
    var split := SplitHostPort(value);
    if split.None? || split.value.0 == "" || Atoi(split.value.1) != Some(PORT) then Err
    else
      match o.ip(split.value.0)
      case Ipv4(canonical) => Ok(canonical)
      case Ipv6 => Err
      case NotIp => if HostText(split.value.0) then Ok(split.value.0) else Err
  }

  /** What an accepted endpoint host is, before any condition on its spelling. */
  predicate ValidHost(host: string, o: Oracle) {
    && host != "" && '[' !in host && ']' !in host
    && (o.ip(host) == Ipv4(host) || (o.ip(host) == NotIp && HostText(host)))
  }

  lemma DottedIsPlain(s: string)
    requires DottedDigits(s)
    ensures '[' !in s && ']' !in s && ':' !in s && '\n' !in s && '\0' !in s && !IsSpace(s[0])
  {
  }

  lemma SplitHostPortHost(value: string)
    requires SplitHostPort(value).Some?
    ensures var host := SplitHostPort(value).value.0;
            '[' !in host && ']' !in host && forall c <- host :: c in value
  {
    var i := LastIndexOf(value, ':');
    if value[0] == '[' {
      var end := IndexOf(value, ']');
      assert forall c <- value[1..end] :: c in value[1..] && c in value[..end];
    }
  }

  lemma EndpointHost(value: string, o: Oracle)
    requires Laws(o) && ValidateEndpoint(value, o).Ok?
    ensures var host := ValidateEndpoint(value, o).value;
            ValidHost(host, o) && ('\n' !in value ==> '\n' !in host) && ('\0' !in value ==> '\0' !in host)
  {
    SplitHostPortHost(value);
    var host := SplitHostPort(value).value.0;
    if o.ip(host).Ipv4? {
      DottedIsPlain(o.ip(host).canonical);
    }
  }

  function EndpointText(host: string, port: nat): string {
    host + ":" + Itoa(port)
  }

  lemma {:induction false} LastIndexUnique(s: string, c: char, i: nat)
    requires i < |s| && s[i] == c && c !in s[i + 1..]
    ensures LastIndexOf(s, c) == i
  {
    var k := LastIndexOf(s, c);
  }

  lemma EndpointShape(host: string, port: nat)
    requires '[' !in host && ']' !in host
    ensures var s := EndpointText(host, port);
            && '[' !in s && ']' !in s
            && s[|host|] == ':' && ':' !in s[|host| + 1..] && s[|host| + 1..] == Itoa(port) && s[..|host|] == host
  {
    DigitsAreTrimmed(Itoa(port));
    var s := EndpointText(host, port);
    assert s[|host| + 1..] == Itoa(port);
  }

  lemma SplitEndpoint(host: string, port: nat)
    requires host != "" && '[' !in host && ']' !in host
    ensures SplitHostPort(EndpointText(host, port)) == if ':' in host then None else Some((host, Itoa(port)))
  {
    var s := EndpointText(host, port);
    EndpointShape(host, port);
    LastIndexUnique(s, ':', |host|);
    assert s[0] in s;
  }

  lemma BracketedShape(host: string, port: string)
    requires ']' !in host && ':' !in port
    ensures var s, end := "[" + host + "]:" + port, |host| + 1;
            && LastIndexOf(s, ':') == end + 1 && IndexOf(s, ']') == end
            && s[1..end] == host && s[end + 1..] == ":" + port && s[end + 2..] == port && s[1..] == host + "]:" + port
  {
    var s, end := "[" + host + "]:" + port, |host| + 1;
    assert s[end + 2..] == port;
    LastIndexUnique(s, ':', end + 1);
    assert s[..end] == "[" + host;
    IndexOfUnique(s, ']', end);
  }

  lemma SplitBracketed(host: string, port: string)
    requires '[' !in host && ']' !in host && '[' !in port && ']' !in port && ':' !in port
    ensures SplitHostPort("[" + host + "]:" + port) == Some((host, port))
  {
    BracketedShape(host, port);
    assert '[' !in host + "]:" + port && ']' !in ":" + port;
  }

  /** An accepted host is read back from its own endpoint text exactly when it has no colon. */
  lemma EndpointRoundTrip(host: string, o: Oracle)
    requires ValidHost(host, o)
    ensures ValidateEndpoint(EndpointText(host, PORT), o) == if ':' in host then Err else Ok(host)
  {
    SplitEndpoint(host, PORT);
    AtoiItoa(PORT);
  }

  // ----- lines -----

  type Values = map<string, string>

  type Sections = map<string, Values>

  datatype Scan = Scan(sections: Sections, section: string)

  predicate SupportedKey(section: string, key: string) {
    if section == "Interface" then key in {"PrivateKey", "Address", "DNS", "MTU"}
    else key in {"PublicKey", "PresharedKey", "Endpoint", "AllowedIPs", "PersistentKeepalive"}
  }

  predicate IsHeader(line: string) {
    |line| >= 2 && line[0] == '[' && line[|line| - 1] == ']'
  }

  function StoreEntry(st: Scan, key: string, value: string): Result<Scan>
    requires st.section in st.sections
  {
    if key == "" || value == "" || '\0' in value || key in st.sections[st.section] ||
      !SupportedKey(st.section, key) then Err
    else Ok(st.(sections := st.sections[st.section := st.sections[st.section][key := value]]))
  }

  function EntryStep(st: Scan, line: string): Result<Scan>
    requires st.section in st.sections
  {
    var i := IndexOf(line, '=');
    if i == |line| then Err
    else StoreEntry(st, TrimSpace(line[..i]), TrimSpace(line[i + 1..]))
  }

  /** One pass of the parser's loop. */
  function LineStep(st: Scan, raw: string): Result<Scan> {
    var line := TrimSpace(raw);
    if line == "" || line[0] == ';' || line[0] == '#' then Ok(st)
    else if IsHeader(line) then
      var section := TrimSpace(line[1..|line| - 1]);
      if (section != "Interface" && section != "Peer") || section in st.sections then Err
      else Ok(Scan(st.sections[section := map[]], section))
    else if st.section !in st.sections then Err
    else EntryStep(st, line)
  }

  /** The parser's loop over lines, for any step. */
  function Scanned<S>(st: S, lines: seq<string>, step: (S, string) -> Result<S>): Result<S>
    decreases |lines|
  {
    if lines == [] then Ok(st)
    else
      var next := step(st, lines[0]);
      if next.Err? then Err else Scanned(next.value, lines[1..], step)
  }

  lemma {:induction false} ScannedConcat<S>(st: S, a: seq<string>, b: seq<string>, step: (S, string) -> Result<S>)
    ensures Scanned(st, a + b, step) ==
            var r := Scanned(st, a, step);
            if r.Err? then Err else Scanned(r.value, b, step)
    decreases |a|
  {
    if a == [] {
      assert a + b == b;
    } else {
      assert (a + b)[0] == a[0] && (a + b)[1..] == a[1..] + b;
      var next := step(st, a[0]);
      if next.Ok? {
        ScannedConcat(next.value, a[1..], b, step);
      }
    }
  }

  lemma ScannedOne<S>(st: S, line: string, step: (S, string) -> Result<S>)
    ensures Scanned(st, [line], step) == step(st, line)
  {
    assert [line][1..] == [];
  }

  /** What every stored value looks like. */
  predicate CleanValue(v: string) {
    v != "" && Trimmed(v) && '\n' !in v && '\0' !in v
  }

  ghost predicate CleanSections(sections: Sections) {
    forall section, key :: section in sections && key in sections[section] ==> CleanValue(sections[section][key])
  }

  lemma LineStepClean(st: Scan, raw: string)
    requires CleanSections(st.sections) && '\n' !in raw && LineStep(st, raw).Ok?
    ensures CleanSections(LineStep(st, raw).value.sections)
  {
    var line := TrimSpace(raw);
    TrimSpaceTrims(raw);
    if line != "" && line[0] != ';' && line[0] != '#' && !IsHeader(line) && st.section in st.sections {
      var i := IndexOf(line, '=');
      var rest := line[i + 1..];
      assert forall c <- rest :: c in line;
      TrimSpaceTrims(rest);
      assert CleanValue(TrimSpace(rest));
    }
  }

  lemma {:induction false} ScannedClean(st: Scan, lines: seq<string>)
    requires CleanSections(st.sections) && (forall l <- lines :: '\n' !in l) && Scanned(st, lines, LineStep).Ok?
    ensures CleanSections(Scanned(st, lines, LineStep).value.sections)
    decreases |lines|
  {
    if lines != [] {
      assert lines[0] in lines;
      LineStepClean(st, lines[0]);
      ScannedClean(LineStep(st, lines[0]).value, lines[1..]);
    }
  }

  // ----- addresses and allowed prefixes -----

  /** The IPv4 interface addresses, in order; an IPv6 one is dropped, or refused when strict. */
  function Addresses(parts: seq<string>, strict: bool, o: Oracle): Result<seq<string>>
    decreases |parts|
  {
    if parts == [] then Ok([])
    else
      var part := TrimSpace(parts[0]);
      match o.cidr(part)
      case None => Err
      case Some(v4) =>
        if !v4 && strict then Err
        else
          var rest := Addresses(parts[1..], strict, o);
          if rest.Err? then Err else if v4 then Ok([part] + rest.value) else rest
  }

  /** Exactly one 0.0.0.0/0; an IPv6 prefix is skipped, or refused when strict. */
  predicate AllowedIps(parts: seq<string>, strict: bool, found: bool)
    decreases |parts|
  {
    if parts == [] then found
    else
      var part := TrimSpace(parts[0]);
      if ':' in part then !strict && AllowedIps(parts[1..], strict, found)
      else part == ANY_IPV4 && !found && AllowedIps(parts[1..], strict, true)
  }

  predicate GoodAddress(a: string, o: Oracle) {
    CleanValue(a) && ',' !in a && o.cidr(a) == Some(true)
  }

  lemma {:induction false} AddressesAreGood(parts: seq<string>, strict: bool, o: Oracle)
    requires Laws(o) && (forall p <- parts :: ',' !in p && '\n' !in p && '\0' !in p) && Addresses(parts, strict, o).Ok?
    ensures forall a <- Addresses(parts, strict, o).value :: GoodAddress(a, o)
    decreases |parts|
  {
    if parts != [] {
      assert parts[0] in parts;
      TrimSpaceTrims(parts[0]);
      AddressesAreGood(parts[1..], strict, o);
    }
  }

  lemma AddressHead(lead: string, a: string, parts: seq<string>, o: Oracle)
    requires GoodAddress(a, o) && (lead == "" || lead == " ")
    ensures var rest := Addresses(parts, true, o);
            Addresses([lead + a] + parts, true, o) == if rest.Err? then Err else Ok([a] + rest.value)
  {
    TrimAfterSpace(a);
    TrimTrimmed(a);
    assert "" + a == a;
    assert ([lead + a] + parts)[1..] == parts;
  }

  /** Joined with ", " and split again, with or without the leading space of an inner part. */
  lemma {:induction false} AddressesRoundTrip(addresses: seq<string>, lead: string, o: Oracle)
    requires addresses != [] && (forall a <- addresses :: GoodAddress(a, o)) && (lead == "" || lead == " ")
    ensures Addresses(Split(lead + Join(addresses, ", "), ','), true, o) == Ok(addresses)
    decreases |addresses|
  {
    var a, rest := addresses[0], addresses[1..];
    assert a in addresses && ',' !in lead + a;
    if rest == [] {
      SplitWhole(lead + a, ',');
      AddressHead(lead, a, [], o);
      assert [lead + a] + [] == [lead + a] && [a] + [] == addresses;
    } else {
      var tail := " " + Join(rest, ", ");
      assert lead + Join(addresses, ", ") == (lead + a) + [','] + tail;
      SplitHead(lead + a, ',', tail);
      AddressesRoundTrip(rest, " ", o);
      AddressHead(lead, a, Split(tail, ','), o);
      assert addresses == [a] + rest;
    }
  }

  lemma {:induction false} JoinIsClean(addresses: seq<string>, o: Oracle)
    requires addresses != [] && forall a <- addresses :: GoodAddress(a, o)
    ensures CleanValue(Join(addresses, ", "))
    decreases |addresses|
  {
    assert addresses[0] in addresses;
    if |addresses| > 1 {
      JoinIsClean(addresses[1..], o);
      var s := Join(addresses, ", ");
      var tail := Join(addresses[1..], ", ");
      assert s[|s| - 1] == tail[|tail| - 1];
    }
  }

  // ----- from sections to fields -----

  datatype Fields = Fields(privateKey: string, addresses: seq<string>, mtu: nat, publicKey: string,
                           presharedKey: string, host: string, keepalive: nat)

  /** The values looked up, empty where there is none. */
  datatype Texts = Texts(privateKey: string, address: string, mtu: string, publicKey: string,
                         presharedKey: string, allowedIps: string, endpoint: string, keepalive: string)

  function Get(m: Values, key: string): string {
    if key in m then m[key] else ""
  }

  function Lookup(iface: Values, peer: Values): Texts {
    Texts(Get(iface, "PrivateKey"), Get(iface, "Address"), Get(iface, "MTU"), Get(peer, "PublicKey"),
          Get(peer, "PresharedKey"), Get(peer, "AllowedIPs"), Get(peer, "Endpoint"), Get(peer, "PersistentKeepalive"))
  }

  /** An optional decimal setting with a default and a range. */
  function Setting(text: string, default: nat, low: nat, high: nat): Result<nat>
    requires low <= default <= high
  {
    if text == "" then Ok(default)
    else if Atoi(text).Some? && low <= Atoi(text).value <= high then Ok(Atoi(text).value)
    else Err
  }

  predicate KeyText(text: string, o: Oracle) {
    text != "" && o.isKey(text)
  }

  function FromTexts(t: Texts, strict: bool, o: Oracle): (r: Result<Fields>)
    ensures r.Ok? ==> r.value.addresses != []
  {
    var addresses := Addresses(Split(t.address, ','), strict, o);
    var host := ValidateEndpoint(t.endpoint, o);
    var keepalive := Setting(t.keepalive, DEFAULT_KEEPALIVE, 0, 120);
    var mtu := Setting(t.mtu, DEFAULT_MTU, 576, 9000);
    if !KeyText(t.privateKey, o) || t.address == "" || addresses.Err? || addresses.value == [] ||
       !KeyText(t.publicKey, o) || !KeyText(t.presharedKey, o) || t.endpoint == "" || t.allowedIps == "" ||
       host.Err? || !AllowedIps(Split(t.allowedIps, ','), strict, false) || keepalive.Err? || mtu.Err?
    then Err
    else Ok(Fields(t.privateKey, addresses.value, mtu.value, t.publicKey, t.presharedKey, host.value, keepalive.value))
  }

  function Finish(sections: Sections, strict: bool, o: Oracle): Result<Fields> {
    if "Interface" !in sections || "Peer" !in sections then Err
    else FromTexts(Lookup(sections["Interface"], sections["Peer"]), strict, o)
  }

  /** What the parser guarantees about the fields it accepted. */
  ghost predicate ValidFields(f: Fields, o: Oracle) {
    && CleanValue(f.privateKey) && CleanValue(f.publicKey) && CleanValue(f.presharedKey)
    && o.isKey(f.privateKey) && o.isKey(f.publicKey) && o.isKey(f.presharedKey)
    && f.addresses != [] && (forall a <- f.addresses :: GoodAddress(a, o))
    && 576 <= f.mtu <= 9000 && f.keepalive <= 120
    && ValidHost(f.host, o) && '\n' !in f.host && '\0' !in f.host
  }

  lemma {:induction false} PartsOf(s: string)
    ensures forall p <- Split(s, ',') :: forall c <- p :: c in s
    decreases |s|
  {
    var i := IndexOf(s, ',');
    if i < |s| {
      PartsOf(s[i + 1..]);
    }
  }

  lemma AddressesAreValid(value: string, strict: bool, o: Oracle)
    requires Laws(o) && CleanValue(value) && Addresses(Split(value, ','), strict, o).Ok?
    ensures forall a <- Addresses(Split(value, ','), strict, o).value :: GoodAddress(a, o)
  {
    PartsOf(value);
    AddressesAreGood(Split(value, ','), strict, o);
  }

  predicate EmptyOrClean(v: string) {
    v != "" ==> CleanValue(v)
  }

  lemma TextsAreClean(sections: Sections, section: string, key: string)
    requires CleanSections(sections) && section in sections
    ensures EmptyOrClean(Get(sections[section], key))
  {
  }

  lemma HostIsValid(t: Texts, strict: bool, o: Oracle)
    requires EmptyOrClean(t.endpoint) && Laws(o) && FromTexts(t, strict, o).Ok?
    ensures var host := FromTexts(t, strict, o).value.host; ValidHost(host, o) && '\n' !in host && '\0' !in host
  {
    EndpointHost(t.endpoint, o);
  }

  lemma AddressListIsValid(t: Texts, strict: bool, o: Oracle)
    requires EmptyOrClean(t.address) && Laws(o) && FromTexts(t, strict, o).Ok?
    ensures forall a <- FromTexts(t, strict, o).value.addresses :: GoodAddress(a, o)
  {
    AddressesAreValid(t.address, strict, o);
  }

  lemma FieldsAreValid(t: Texts, strict: bool, o: Oracle)
    requires EmptyOrClean(t.privateKey) && EmptyOrClean(t.address) && EmptyOrClean(t.publicKey)
    requires EmptyOrClean(t.presharedKey) && EmptyOrClean(t.endpoint)
    requires Laws(o) && FromTexts(t, strict, o).Ok?
    ensures ValidFields(FromTexts(t, strict, o).value, o)
  {
    AddressListIsValid(t, strict, o);
    HostIsValid(t, strict, o);
    KeysAndNumbers(t, strict, o);
  }

  lemma KeysAndNumbers(t: Texts, strict: bool, o: Oracle)
    requires FromTexts(t, strict, o).Ok?
    ensures var f := FromTexts(t, strict, o).value;
            && f.privateKey == t.privateKey && f.publicKey == t.publicKey && f.presharedKey == t.presharedKey
            && KeyText(t.privateKey, o) && KeyText(t.publicKey, o) && KeyText(t.presharedKey, o)
            && 576 <= f.mtu <= 9000 && f.keepalive <= 120
  {
  }

  lemma FinishIsValid(sections: Sections, strict: bool, o: Oracle)
    requires Laws(o) && CleanSections(sections) && Finish(sections, strict, o).Ok?
    ensures ValidFields(Finish(sections, strict, o).value, o)
  {
    TextsAreClean(sections, "Interface", "PrivateKey");
    TextsAreClean(sections, "Interface", "Address");
    TextsAreClean(sections, "Peer", "PublicKey");
    TextsAreClean(sections, "Peer", "PresharedKey");
    TextsAreClean(sections, "Peer", "Endpoint");
    FieldsAreValid(Lookup(sections["Interface"], sections["Peer"]), strict, o);
  }

  // ----- the normal form -----

  /** A printed `Key = value` entry. */
  type Entry = (string, string)

  function InterfaceEntries(f: Fields): seq<Entry> {
    [("PrivateKey", f.privateKey), ("Address", Join(f.addresses, ", ")), ("MTU", Itoa(f.mtu))]
  }

  /** The endpoint is a parameter: other texts than the printed one spell the same host. */
  function PeerEntries(f: Fields, endpoint: string): seq<Entry> {
    [("PublicKey", f.publicKey), ("PresharedKey", f.presharedKey), ("AllowedIPs", ANY_IPV4),
     ("Endpoint", endpoint), ("PersistentKeepalive", Itoa(f.keepalive))]
  }

  function EntryLine(e: Entry): string {
    e.0 + " = " + e.1
  }

  function EntryLines(es: seq<Entry>): seq<string> {
    if es == [] then [] else [EntryLine(es[0])] + EntryLines(es[1..])
  }

  /** A section: its header, its entries, and an empty line. */
  function SectionLines(name: string, es: seq<Entry>): seq<string> {
    ["[" + name + "]"] + EntryLines(es) + [""]
  }

  function ProfileLines(f: Fields, endpoint: string): seq<string> {
    SectionLines("Interface", InterfaceEntries(f)) + SectionLines("Peer", PeerEntries(f, endpoint))
  }

  function ProfileText(f: Fields, endpoint: string): string {
    Join(ProfileLines(f, endpoint), "\n")
  }

  /** The normalized profile text. */
  function Render(f: Fields): string {
    ProfileText(f, EndpointText(f.host, PORT))
  }

  datatype Metadata = Metadata(host: string, port: nat, tunnelAddress: string, sha256: string)

  datatype Profile = Profile(config: string, metadata: Metadata)

  function ProfileOf(f: Fields, o: Oracle): Profile
    requires f.addresses != []
  {
    Profile(Render(f), Metadata(f.host, PORT, f.addresses[0], o.digest(Render(f))))
  }

  /** `strings.ReplaceAll(s, "\r\n", "\n")`. */
  function DropCarriageReturns(s: string): string {
    if s == "" then ""
    else if |s| >= 2 && s[0] == '\r' && s[1] == '\n' then "\n" + DropCarriageReturns(s[2..])
    else [s[0]] + DropCarriageReturns(s[1..])
  }

  /** Line endings unified and a leading byte order mark removed. */
  function Unify(data: string): string {
    var text := DropCarriageReturns(data);
    if text != "" && text[0] == '\U{FEFF}' then text[1..] else text
  }

  const START := Scan(map[], "")

  function ParsedFields(data: string, strict: bool, o: Oracle): Result<Fields> {
    if data == "" || Utf8Size(data) > MAX_PROFILE then Err
    else
      var scan := Scanned(START, Split(Unify(data), '\n'), LineStep);
      if scan.Err? then Err else Finish(scan.value.sections, strict, o)
  }

  function Parse(data: string, strict: bool, o: Oracle): Result<Profile> {
    var fields := ParsedFields(data, strict, o);
    if fields.Err? then Err else Ok(ProfileOf(fields.value, o))
  }

  lemma ParsedIsValid(data: string, strict: bool, o: Oracle)
    requires Laws(o) && ParsedFields(data, strict, o).Ok?
    ensures ValidFields(ParsedFields(data, strict, o).value, o)
  {
    var lines := Split(Unify(data), '\n');
    ScannedClean(START, lines);
    FinishIsValid(Scanned(START, lines, LineStep).value.sections, strict, o);
  }

  // ----- the loops -----

  function After(done: seq<string>, rest: Result<seq<string>>): Result<seq<string>> {
    if rest.Err? then Err else Ok(done + rest.value)
  }

  lemma AddressesStep(done: seq<string>, parts: seq<string>, i: nat, strict: bool, o: Oracle)
    requires i < |parts|
    ensures var part := TrimSpace(parts[i]);
            var next := Addresses(parts[i + 1..], strict, o);
            After(done, Addresses(parts[i..], strict, o)) ==
            match o.cidr(part)
            case None => Err
            case Some(v4) => if v4 then After(done + [part], next) else if strict then Err else After(done, next)
  {
    assert parts[i..][0] == parts[i] && parts[i..][1..] == parts[i + 1..];
    var next := Addresses(parts[i + 1..], strict, o);
    if next.Ok? {
      var part := TrimSpace(parts[i]);
      assert done + ([part] + next.value) == done + [part] + next.value;
    }
  }

  method ValidateAddresses(value: string, strict: bool, o: Oracle) returns (r: Result<(seq<string>, string)>)
    requires Laws(o)
    ensures var all := Addresses(Split(value, ','), strict, o);
            r == if all.Err? || all.value == [] then Err else Ok((all.value, all.value[0]))
  {
    var parts := Split(value, ',');
    var addresses: seq<string>, first := [], "";
    ghost var all := Addresses(parts, strict, o);
    assert parts[0..] == parts && (all.Ok? ==> [] + all.value == all.value);
    for i := 0 to |parts|
      invariant first == if addresses == [] then "" else addresses[0]
      invariant "" !in addresses
      invariant all == After(addresses, Addresses(parts[i..], strict, o))
    {
      AddressesStep(addresses, parts, i, strict, o);
      var part := TrimSpace(parts[i]);
      var prefix := o.cidr(part);
      if prefix.None? {
        return Err;
      }
      if !prefix.value {
        if strict {
          return Err;
        }
        continue;
      }
      if first == "" {
        first := part;
      }
      addresses := addresses + [part];
    }
    assert addresses + [] == addresses;
    if addresses == [] {
      return Err;
    }
    return Ok((addresses, first));
  }

  method CheckAllowedIps(value: string, strict: bool) returns (ok: bool)
    ensures ok == AllowedIps(Split(value, ','), strict, false)
  {
    var parts := Split(value, ',');
    var found := false;
    for i := 0 to |parts|
      invariant AllowedIps(parts, strict, false) == AllowedIps(parts[i..], strict, found)
    {
      assert parts[i..][0] == parts[i] && parts[i..][1..] == parts[i + 1..];
      var allowed := TrimSpace(parts[i]);
      if ':' in allowed {
        if strict {
          return false;
        }
        continue;
      }
      if allowed != ANY_IPV4 || found {
        return false;
      }
      found := true;
    }
    return found;
  }

  /** The scan over lines, filling the section maps. */
  method ScanLines(lines: seq<string>) returns (r: Result<Sections>)
    ensures var all := Scanned(START, lines, LineStep);
            r == if all.Err? then Err else Ok(all.value.sections)
  {
    var st := START;
    for i := 0 to |lines|
      invariant Scanned(START, lines, LineStep) == Scanned(st, lines[i..], LineStep)
    {
      assert lines[i..][0] == lines[i] && lines[i..][1..] == lines[i + 1..];
      var next := LineStep(st, lines[i]);
      if next.Err? {
        return Err;
      }
      st := next.value;
    }
    return Ok(st.sections);
  }

  /** The checks after the scan, in their order; also the first address, the tunnel's own. */
  method CheckFields(t: Texts, strict: bool, o: Oracle) returns (r: Result<(Fields, string)>)
    requires Laws(o)
    ensures var f := FromTexts(t, strict, o);
            r == if f.Err? then Err else Ok((f.value, f.value.addresses[0]))
  {
    if !KeyText(t.privateKey, o) || t.address == "" {
      return Err;
    }
    var addresses := ValidateAddresses(t.address, strict, o);
    if addresses.Err? || !KeyText(t.publicKey, o) || !KeyText(t.presharedKey, o) || t.endpoint == "" ||
      t.allowedIps == "" {
      return Err;
    }
    var host := ValidateEndpoint(t.endpoint, o);
    var allowed := CheckAllowedIps(t.allowedIps, strict);
    var keepalive := Setting(t.keepalive, DEFAULT_KEEPALIVE, 0, 120);
    var mtu := Setting(t.mtu, DEFAULT_MTU, 576, 9000);
    if host.Err? || !allowed || keepalive.Err? || mtu.Err? {
      return Err;
    }
    var f := Fields(t.privateKey, addresses.value.0, mtu.value, t.publicKey, t.presharedKey, host.value,
                    keepalive.value);
    return Ok((f, addresses.value.1));
  }

  method ParseProfile(data: string, strict: bool, o: Oracle) returns (r: Result<Profile>)
    requires Laws(o)
    ensures r == Parse(data, strict, o)
  {
    if data == "" || Utf8Size(data) > MAX_PROFILE {
      return Err;
    }
    var sections := ScanLines(Split(Unify(data), '\n'));
    if sections.Err? || "Interface" !in sections.value || "Peer" !in sections.value {
      return Err;
    }
    var fields := CheckFields(Lookup(sections.value["Interface"], sections.value["Peer"]), strict, o);
    if fields.Err? {
      return Err;
    }
    var (f, tunnel) := fields.value;
    return Ok(Profile(Render(f), Metadata(f.host, PORT, tunnel, o.digest(Render(f)))));
  }
}
