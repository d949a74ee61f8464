/**
 What a profile says, read off its lines: which lines are entries of which
 section, and what every field of the answer is in terms of them.
 */
module WireGuardMeaning {
  import opened Common
  import opened Text
  import opened WireGuardProfile

  // ----- one line -----

  datatype Line = Ignored | Header(name: string) | KeyValue(key: string, value: string) | Malformed

  function LineOf(raw: string): Line {
    var line := TrimSpace(raw);
    if line == "" || line[0] in {';', '#'} then Ignored
    else if |line| >= 2 && line[0] == '[' && line[|line| - 1] == ']' then Header(TrimSpace(line[1..|line| - 1]))
    else if '=' !in line then Malformed
    else
      var i := IndexOf(line, '=');
      KeyValue(TrimSpace(line[..i]), TrimSpace(line[i + 1..]))
  }

  /** A setting is split at its first equals sign, both sides trimmed. */
  lemma KeyValueIff(raw: string, a: string, b: string)
    requires TrimSpace(raw) == a + "=" + b && '=' !in a
    ensures LineOf(raw) == KeyValue(TrimSpace(a), TrimSpace(b)) <==>
            (a != "" ==> a[0] !in {';', '#'}) && !(a != "" && a[0] == '[' && (a + "=" + b)[|a + "=" + b| - 1] == ']')
  {
    var line := a + "=" + b;
    assert line[|a|] == '=' && line[..|a|] == a && line[|a| + 1..] == b;
    IndexOfUnique(line, '=', |a|);
    assert a != "" ==> line[0] == a[0];
  }

  // ----- all lines -----

  /** The section that a line after these belongs to. */
  function Current(lines: seq<string>): Option<string> {
    if lines == [] then None
    else if LineOf(lines[|lines| - 1]).Header? then Some(LineOf(lines[|lines| - 1]).name)
    else Current(lines[..|lines| - 1])
  }

  ghost predicate Opens(lines: seq<string>, section: string) {
    exists i :: 0 <= i < |lines| && LineOf(lines[i]) == Header(section)
  }

  /** Some line of that section is `key = value`. */
  ghost predicate Sets(lines: seq<string>, section: string, key: string, value: string) {
    exists i :: SetAt(lines, i, section, key, value)
  }

  ghost predicate Supported(section: string, key: string) {
    || (section == "Interface" && key in {"PrivateKey", "Address", "DNS", "MTU"})
    || (section == "Peer" && key in {"PublicKey", "PresharedKey", "Endpoint", "AllowedIPs", "PersistentKeepalive"})
  }

  /** A line that may follow these: a comment, a section not opened yet, or a known key of the section not set yet. */
  ghost predicate MayFollow(lines: seq<string>, raw: string) {
    match LineOf(raw)
    case Ignored => true
    case Malformed => false
    case Header(name) => name in {"Interface", "Peer"} && !Opens(lines, name)
    case KeyValue(key, value) =>
      && value != "" && '\0' !in value && Current(lines).Some? && Supported(Current(lines).value, key)
      && forall other :: !Sets(lines, Current(lines).value, key, other)
  }

  ghost predicate WellFormed(lines: seq<string>) {
    forall i :: 0 <= i < |lines| ==> MayFollow(lines[..i], lines[i])
  }

  // ----- the scan finds exactly these -----

  predicate Stored(sections: Sections, section: string, key: string, value: string) {
    section in sections && key in sections[section] && sections[section][key] == value
  }

  ghost predicate Explains(lines: seq<string>, st: Scan) {
    && (forall name :: name in st.sections <==> Opens(lines, name))
    && (forall section, key, value ::
          Stored(st.sections, section, key, value) <==> Sets(lines, section, key, value))
    && (Current(lines).None? ==> st.section !in st.sections)
    && (Current(lines).Some? ==> Current(lines) == Some(st.section) && st.section in st.sections)
    && st.sections.Keys <= {"Interface", "Peer"}
  }

  lemma OpensStep(lines: seq<string>, raw: string, name: string)
    ensures Opens(lines + [raw], name) <==> Opens(lines, name) || LineOf(raw) == Header(name)
  {
    var longer := lines + [raw];
    assert longer[|lines|] == raw;
    if Opens(lines, name) {
      var i :| 0 <= i < |lines| && LineOf(lines[i]) == Header(name);
      assert longer[i] == lines[i];
    }
  }

  /** Line `i` sets the key. */
  predicate SetAt(lines: seq<string>, i: int, section: string, key: string, value: string) {
    0 <= i < |lines| && Current(lines[..i]) == Some(section) && LineOf(lines[i]) == KeyValue(key, value)
  }

  lemma SetAtStep(lines: seq<string>, raw: string, i: int, section: string, key: string, value: string)
    requires i < |lines|
    ensures SetAt(lines + [raw], i, section, key, value) <==> SetAt(lines, i, section, key, value)
  {
    if 0 <= i {
      assert (lines + [raw])[i] == lines[i] && (lines + [raw])[..i] == lines[..i];
    }
  }

  lemma SetsStep(lines: seq<string>, raw: string, section: string, key: string, value: string)
    ensures Sets(lines + [raw], section, key, value) <==>
            || Sets(lines, section, key, value)
            || (Current(lines) == Some(section) && LineOf(raw) == KeyValue(key, value))
  {
    var longer := lines + [raw];
    assert longer[|lines|] == raw && longer[..|lines|] == lines;
    forall i | i < |lines| ensures SetAt(longer, i, section, key, value) <==> SetAt(lines, i, section, key, value) {
      SetAtStep(lines, raw, i, section, key, value);
    }
    if Current(lines) == Some(section) && LineOf(raw) == KeyValue(key, value) {
      assert SetAt(longer, |lines|, section, key, value);
    }
  }

  lemma CurrentStep(lines: seq<string>, raw: string)
    ensures Current(lines + [raw]) == if LineOf(raw).Header? then Some(LineOf(raw).name) else Current(lines)
  {
    assert (lines + [raw])[..|lines|] == lines;
  }

  /** One line, seen by the scan and by its form. */
  lemma LineStepIs(st: Scan, raw: string)
    ensures LineStep(st, raw) ==
            match LineOf(raw)
            case Ignored => Ok(st)
            case Malformed => Err
            case Header(name) =>
              if name !in {"Interface", "Peer"} || name in st.sections then Err
              else Ok(Scan(st.sections[name := map[]], name))
            case KeyValue(key, value) =>
              if st.section !in st.sections then Err else StoreEntry(st, key, value)
  {
  }

  lemma HeaderStep(lines: seq<string>, st: Scan, raw: string, name: string)
    requires Explains(lines, st) && LineOf(raw) == Header(name) && name in {"Interface", "Peer"}
    requires name !in st.sections
    ensures Explains(lines + [raw], Scan(st.sections[name := map[]], name))
  {
    var sections := st.sections[name := map[]];
    CurrentStep(lines, raw);
    forall other ensures other in sections <==> Opens(lines + [raw], other) {
      OpensStep(lines, raw, other);
    }
    forall section, key, value
      ensures Stored(sections, section, key, value) <==> Sets(lines + [raw], section, key, value) {
      SetsStep(lines, raw, section, key, value);
      assert Stored(sections, section, key, value) <==> Stored(st.sections, section, key, value);
    }
  }

  lemma KeyValueStep(lines: seq<string>, st: Scan, raw: string, k: string, v: string)
    requires Explains(lines, st) && LineOf(raw) == KeyValue(k, v) && st.section in st.sections
    requires k !in st.sections[st.section] && Current(lines).Some?
    ensures var sections := st.sections[st.section := st.sections[st.section][k := v]];
            Explains(lines + [raw], Scan(sections, st.section))
  {
    var sections := st.sections[st.section := st.sections[st.section][k := v]];
    CurrentStep(lines, raw);
    forall other ensures other in sections <==> Opens(lines + [raw], other) {
      OpensStep(lines, raw, other);
    }
    forall section, key, value
      ensures Stored(sections, section, key, value) <==> Sets(lines + [raw], section, key, value) {
      SetsStep(lines, raw, section, key, value);
      StoredAfter(st.sections, st.section, k, v, section, key, value);
    }
  }

  lemma StoredAfter(sections: Sections, s: string, k: string, v: string, section: string, key: string, value: string)
    requires s in sections && k !in sections[s]
    ensures Stored(sections[s := sections[s][k := v]], section, key, value) <==>
            Stored(sections, section, key, value) || (section == s && key == k && value == v)
  {
  }

  lemma IgnoredStep(lines: seq<string>, st: Scan, raw: string)
    requires Explains(lines, st) && LineOf(raw) == Ignored
    ensures Explains(lines + [raw], st)
  {
    CurrentStep(lines, raw);
    forall other ensures other in st.sections <==> Opens(lines + [raw], other) {
      OpensStep(lines, raw, other);
    }
    forall section, key, value
      ensures Stored(st.sections, section, key, value) <==> Sets(lines + [raw], section, key, value) {
      SetsStep(lines, raw, section, key, value);
    }
  }

  lemma SupportedIff(section: string, key: string)
    requires section in {"Interface", "Peer"}
    ensures SupportedKey(section, key) <==> Supported(section, key)
    ensures Supported(section, key) ==> key != ""
  {
  }

  lemma UnsetIff(lines: seq<string>, st: Scan, key: string)
    requires Explains(lines, st) && st.section in st.sections
    ensures key !in st.sections[st.section] <==> forall other :: !Sets(lines, st.section, key, other)
  {
    if key in st.sections[st.section] {
      assert Stored(st.sections, st.section, key, st.sections[st.section][key]);
    }
    forall other | Sets(lines, st.section, key, other) ensures key in st.sections[st.section] {
      assert Stored(st.sections, st.section, key, other);
    }
  }

  /** The scan takes a line exactly when it may follow. */
  lemma TakesIff(lines: seq<string>, st: Scan, raw: string)
    requires Explains(lines, st)
    ensures LineStep(st, raw).Ok? <==> MayFollow(lines, raw)
  {
    LineStepIs(st, raw);
    match LineOf(raw)
    case Ignored =>
    case Malformed =>
    case Header(name) =>
    case KeyValue(key, value) =>
      if st.section in st.sections {
        SupportedIff(st.section, key);
        UnsetIff(lines, st, key);
      }
  }

  lemma TakeStep(lines: seq<string>, st: Scan, raw: string)
    requires Explains(lines, st) && LineStep(st, raw).Ok?
    ensures Explains(lines + [raw], LineStep(st, raw).value)
  {
    LineStepIs(st, raw);
    match LineOf(raw)
    case Ignored => IgnoredStep(lines, st, raw);
    case Header(name) => HeaderStep(lines, st, raw, name);
    case KeyValue(key, value) => KeyValueStep(lines, st, raw, key, value);
    case Malformed => assert false;
  }

  lemma {:induction false} ScanMeans(lines: seq<string>)
    ensures Scanned(START, lines, LineStep).Ok? <==> WellFormed(lines)
    ensures Scanned(START, lines, LineStep).Ok? ==> Explains(lines, Scanned(START, lines, LineStep).value)
  {
    if lines == [] {
      assert Explains([], START);
    } else {
      var init, raw := lines[..|lines| - 1], lines[|lines| - 1];
      ScanMeans(init);
      WellFormedStep(lines);
      assert lines == init + [raw];
      ScannedConcat(START, init, [raw], LineStep);
      var before := Scanned(START, init, LineStep);
      if before.Ok? {
        ScannedOne(before.value, raw, LineStep);
        TakesIff(init, before.value, raw);
        if LineStep(before.value, raw).Ok? {
          TakeStep(init, before.value, raw);
        }
      }
    }
  }

  lemma WellFormedStep(lines: seq<string>)
    requires lines != []
    ensures WellFormed(lines) <==>
            WellFormed(lines[..|lines| - 1]) && MayFollow(lines[..|lines| - 1], lines[|lines| - 1])
  {
    var init := lines[..|lines| - 1];
    forall i | 0 <= i < |init| ensures MayFollow(init[..i], init[i]) <==> MayFollow(lines[..i], lines[i]) {
      assert init[..i] == lines[..i];
    }
    if WellFormed(init) && MayFollow(init, lines[|lines| - 1]) {
      forall i | 0 <= i < |lines| ensures MayFollow(lines[..i], lines[i]) {
        if i < |init| {
          assert MayFollow(init[..i], init[i]);
        }
      }
    }
  }

  // ----- one value -----

  /** The IPv4 prefixes among the parts, in order. */
  function V4Parts(parts: seq<string>, o: Oracle): seq<string> {
    if parts == [] then []
    else
      var last := TrimSpace(parts[|parts| - 1]);
      V4Parts(parts[..|parts| - 1], o) + (if o.cidr(last) == Some(true) then [last] else [])
  }

  /** Prefixes only, and only IPv4 ones when strict; the addresses are the IPv4 ones. */
  ghost predicate AddressesIn(text: string, addresses: seq<string>, strict: bool, o: Oracle) {
    && addresses != [] && addresses == V4Parts(Split(text, ','), o)
    && forall p <- Split(text, ',') :: o.cidr(TrimSpace(p)).Some? && (strict ==> o.cidr(TrimSpace(p)) == Some(true))
  }

  lemma {:induction false} V4PartsCons(part: string, rest: seq<string>, o: Oracle)
    ensures V4Parts([part] + rest, o) ==
            (if o.cidr(TrimSpace(part)) == Some(true) then [TrimSpace(part)] else []) + V4Parts(rest, o)
    decreases |rest|
  {
    var all := [part] + rest;
    if rest == [] {
      assert all[..0] == [];
    } else {
      V4PartsCons(part, rest[..|rest| - 1], o);
      assert all[..|all| - 1] == [part] + rest[..|rest| - 1] && all[|all| - 1] == rest[|rest| - 1];
    }
  }

  ghost predicate PrefixParts(parts: seq<string>, strict: bool, o: Oracle) {
    forall p <- parts :: o.cidr(TrimSpace(p)).Some? && (strict ==> o.cidr(TrimSpace(p)) == Some(true))
  }

  lemma {:induction false} AddressesAre(parts: seq<string>, strict: bool, o: Oracle)
    ensures Addresses(parts, strict, o).Ok? <==> PrefixParts(parts, strict, o)
    ensures Addresses(parts, strict, o).Ok? ==> Addresses(parts, strict, o).value == V4Parts(parts, o)
    decreases |parts|
  {
    if parts != [] {
      AddressesAre(parts[1..], strict, o);
      V4PartsCons(parts[0], parts[1..], o);
      assert parts == [parts[0]] + parts[1..];
      assert forall p :: p in parts <==> p == parts[0] || p in parts[1..];
    }
  }

  predicate MayBeV6(part: string, strict: bool) {
    !strict && ':' in TrimSpace(part)
  }

  /** One part is 0.0.0.0/0; any other is IPv6, and there is none when strict. */
  ghost predicate OnlyDefaultRoute(parts: seq<string>, strict: bool) {
    exists i :: IsDefaultRoute(parts, i, strict)
  }

  ghost predicate IsDefaultRoute(parts: seq<string>, i: int, strict: bool) {
    && 0 <= i < |parts| && TrimSpace(parts[i]) == "0.0.0.0/0"
    && forall j :: 0 <= j < |parts| && j != i ==> MayBeV6(parts[j], strict)
  }

  ghost predicate OnlyV6(parts: seq<string>, strict: bool) {
    forall j :: 0 <= j < |parts| ==> MayBeV6(parts[j], strict)
  }

  lemma NoColonInDefault()
    ensures ':' !in ANY_IPV4 && ANY_IPV4 == "0.0.0.0/0"
  {
  }

  lemma {:induction false} AllowedMore(parts: seq<string>, strict: bool)
    ensures AllowedIps(parts, strict, true) <==> OnlyV6(parts, strict)
    decreases |parts|
  {
    if parts != [] {
      AllowedMore(parts[1..], strict);
      ConsV6(parts, strict);
    }
  }

  lemma ConsV6(parts: seq<string>, strict: bool)
    requires parts != []
    ensures OnlyV6(parts, strict) <==> MayBeV6(parts[0], strict) && OnlyV6(parts[1..], strict)
  {
    if MayBeV6(parts[0], strict) && OnlyV6(parts[1..], strict) {
      forall j | 0 <= j < |parts| ensures MayBeV6(parts[j], strict) {
        assert j > 0 ==> parts[j] == parts[1..][j - 1];
      }
    }
    if OnlyV6(parts, strict) {
      forall j | 0 <= j < |parts[1..]| ensures MayBeV6(parts[1..][j], strict) {
        assert parts[1..][j] == parts[j + 1];
      }
    }
  }

  lemma {:induction false} AllowedAre(parts: seq<string>, strict: bool)
    ensures AllowedIps(parts, strict, false) <==> OnlyDefaultRoute(parts, strict)
    decreases |parts|
  {
    if parts != [] {
      NoColonInDefault();
      AllowedAre(parts[1..], strict);
      AllowedMore(parts[1..], strict);
      ConsRoute(parts, strict);
    }
  }

  lemma ConsRoute(parts: seq<string>, strict: bool)
    requires parts != []
    ensures OnlyDefaultRoute(parts, strict) <==>
            || (TrimSpace(parts[0]) == "0.0.0.0/0" && OnlyV6(parts[1..], strict))
            || (MayBeV6(parts[0], strict) && OnlyDefaultRoute(parts[1..], strict))
  {
    var rest := parts[1..];
    if OnlyDefaultRoute(parts, strict) {
      var i :| IsDefaultRoute(parts, i, strict);
      forall j | 0 <= j < |rest| && j != i - 1 ensures MayBeV6(rest[j], strict) {
        assert rest[j] == parts[j + 1];
      }
      assert i > 0 ==> IsDefaultRoute(rest, i - 1, strict);
    }
    if TrimSpace(parts[0]) == "0.0.0.0/0" && OnlyV6(rest, strict) {
      forall j | 0 <= j < |parts| && j != 0 ensures MayBeV6(parts[j], strict) {
        assert parts[j] == rest[j - 1];
      }
      assert IsDefaultRoute(parts, 0, strict);
    }
    if MayBeV6(parts[0], strict) && OnlyDefaultRoute(rest, strict) {
      var i :| IsDefaultRoute(rest, i, strict);
      forall j | 0 <= j < |parts| && j != i + 1 ensures MayBeV6(parts[j], strict) {
        assert j > 0 ==> parts[j] == rest[j - 1];
      }
      assert IsDefaultRoute(parts, i + 1, strict);
    }
  }

  /** The endpoint is a host, in brackets or without a colon, and port 1637. */
  ghost predicate Endpoint(text: string, host: string, port: string) {
    && '[' !in host && ']' !in host && '[' !in port && ']' !in port && ':' !in port
    && ((':' !in host && text == host + ":" + port) || text == "[" + host + "]:" + port)
  }

  lemma PlainSplit(host: string, port: string)
    requires '[' !in host && ']' !in host && '[' !in port && ']' !in port && ':' !in port && ':' !in host
    ensures SplitHostPort(host + ":" + port) == Some((host, port))
  {
    var text := host + ":" + port;
    assert text[|host|] == ':' && text[|host| + 1..] == port && text[..|host|] == host;
    LastIndexUnique(text, ':', |host|);
    assert text[0] in text;
  }

  lemma SplitIsEndpoint(text: string)
    requires SplitHostPort(text).Some?
    ensures Endpoint(text, SplitHostPort(text).value.0, SplitHostPort(text).value.1)
  {
    var i := LastIndexOf(text, ':');
    var (host, port) := SplitHostPort(text).value;
    SplitHostPortHost(text);
    assert text == text[..i] + ":" + port;
    if text[0] == '[' {
      assert text[..i] == "[" + host + "]";
      assert forall c <- port :: c in text[1..] && c in text[|host| + 2..];
    } else {
      assert forall c <- port :: c in text;
    }
  }

  lemma EndpointIff(text: string, host: string, port: string)
    ensures SplitHostPort(text) == Some((host, port)) <==> Endpoint(text, host, port)
  {
    if Endpoint(text, host, port) {
      if text == "[" + host + "]:" + port {
        SplitBracketed(host, port);
      } else {
        PlainSplit(host, port);
      }
    }
    if SplitHostPort(text).Some? {
      SplitIsEndpoint(text);
    }
  }

  /** An IPv4 address in its canonical form, or a host name as it is. */
  ghost predicate Names(text: string, host: string, o: Oracle) {
    || o.ip(text) == Ipv4(host)
    || (o.ip(text) == NotIp && host == text && Utf8Size(text) <= 253 &&
        forall c <- text :: c !in {' ', '\t', '\r', '\n', '/', '\\'})
  }

  ghost predicate HostIn(text: string, host: string, o: Oracle) {
    exists name, port :: Endpoint(text, name, port) && name != "" && Atoi(port) == Some(1637) && Names(name, host, o)
  }

  lemma NamesIff(text: string)
    ensures HostText(text) <==> Utf8Size(text) <= 253 && forall c <- text :: c !in {' ', '\t', '\r', '\n', '/', '\\'}
  {
    forall c: char ensures c in " \t\r\n/\\" <==> c in {' ', '\t', '\r', '\n', '/', '\\'} {
      var bad := " \t\r\n/\\";
      assert bad[0] == ' ' && bad[1] == '\t' && bad[2] == '\r' && bad[3] == '\n' && bad[4] == '/' && bad[5] == '\\';
    }
  }

  lemma HostInIff(text: string, host: string, o: Oracle)
    ensures ValidateEndpoint(text, o) == Ok(host) <==> HostIn(text, host, o)
  {
    if ValidateEndpoint(text, o) == Ok(host) {
      var (name, port) := SplitHostPort(text).value;
      EndpointIff(text, name, port);
      NamesIff(name);
      assert Names(name, host, o);
    }
    if HostIn(text, host, o) {
      var name, port :| Endpoint(text, name, port) && name != "" && Atoi(port) == Some(1637) && Names(name, host, o);
      EndpointIff(text, name, port);
      NamesIff(name);
    }
  }

  /** The default when nothing is said, or the decimal value of what is said. */
  ghost predicate NumberIs(text: string, default: nat, low: nat, high: nat, n: nat) {
    if text == "" then n == default else Atoi(text) == Some(n) && low <= n <= high
  }

  // ----- the texts -----

  lemma NumberIff(text: string, default: nat, low: nat, high: nat, n: nat)
    requires low <= default <= high
    ensures WireGuardProfile.Setting(text, default, low, high) == Ok(n) <==> NumberIs(text, default, low, high, n)
  {
  }

  ghost predicate TextsSay(t: Texts, f: Fields, strict: bool, o: Oracle) {
    && f.privateKey == t.privateKey && f.publicKey == t.publicKey && f.presharedKey == t.presharedKey
    && "" !in {t.privateKey, t.publicKey, t.presharedKey, t.address, t.endpoint, t.allowedIps}
    && o.isKey(t.privateKey) && o.isKey(t.publicKey) && o.isKey(t.presharedKey)
    && AddressesIn(t.address, f.addresses, strict, o) && HostIn(t.endpoint, f.host, o)
    && OnlyDefaultRoute(Split(t.allowedIps, ','), strict)
    && NumberIs(t.mtu, 1320, 576, 9000, f.mtu) && NumberIs(t.keepalive, 25, 0, 120, f.keepalive)
  }

  lemma AddressesInIff(text: string, addresses: seq<string>, strict: bool, o: Oracle)
    ensures AddressesIn(text, addresses, strict, o) <==>
            addresses != [] && Addresses(Split(text, ','), strict, o) == Ok(addresses)
  {
    AddressesAre(Split(text, ','), strict, o);
  }

  lemma TextsIff(t: Texts, f: Fields, strict: bool, o: Oracle)
    ensures FromTexts(t, strict, o) == Ok(f) <==> TextsSay(t, f, strict, o)
  {
    AddressesInIff(t.address, f.addresses, strict, o);
    HostInIff(t.endpoint, f.host, o);
    AllowedAre(Split(t.allowedIps, ','), strict);
    NumberIff(t.mtu, 1320, 576, 9000, f.mtu);
    NumberIff(t.keepalive, 25, 0, 120, f.keepalive);
  }

  // ----- what the profile says -----

  /** `text` is what the lines set the key to, or empty when none does. */
  ghost predicate Finds(lines: seq<string>, section: string, key: string, text: string) {
    && (text != "" ==> Sets(lines, section, key, text))
    && (forall t :: Sets(lines, section, key, t) ==> t == text && t != "")
  }

  lemma NothingEmpty(lines: seq<string>, section: string, key: string, value: string)
    requires WellFormed(lines) && Sets(lines, section, key, value)
    ensures value != ""
  {
    var i :| SetAt(lines, i, section, key, value);
    assert MayFollow(lines[..i], lines[i]);
  }

  lemma GetFinds(lines: seq<string>, st: Scan, section: string, key: string)
    requires WellFormed(lines) && Explains(lines, st) && section in st.sections
    ensures Finds(lines, section, key, Get(st.sections[section], key))
  {
    var text := Get(st.sections[section], key);
    if key in st.sections[section] {
      assert Stored(st.sections, section, key, text);
      NothingEmpty(lines, section, key, text);
    }
    forall t | Sets(lines, section, key, t) ensures t == text && t != "" {
      assert Stored(st.sections, section, key, t);
      NothingEmpty(lines, section, key, t);
    }
  }

  lemma FoundIsSet(lines: seq<string>, section: string, key: string, text: string)
    requires Finds(lines, section, key, text)
    ensures forall t :: Sets(lines, section, key, t) <==> t == text && t != ""
  {
  }

  /** A key that some line sets. */
  ghost predicate Key(lines: seq<string>, section: string, key: string, value: string, o: Oracle) {
    Sets(lines, section, key, value) && o.isKey(value)
  }

  /** The default when no line sets the key, or the value of the line that does. */
  ghost predicate Number(lines: seq<string>, section: string, key: string, default: nat, low: nat, high: nat, n: nat) {
    || (n == default && forall t :: !Sets(lines, section, key, t))
    || exists t :: Sets(lines, section, key, t) && Atoi(t) == Some(n) && low <= n <= high
  }

  ghost predicate HasAddresses(lines: seq<string>, addresses: seq<string>, strict: bool, o: Oracle) {
    exists t :: Sets(lines, "Interface", "Address", t) && AddressesIn(t, addresses, strict, o)
  }

  ghost predicate HasHost(lines: seq<string>, host: string, o: Oracle) {
    exists t :: Sets(lines, "Peer", "Endpoint", t) && HostIn(t, host, o)
  }

  ghost predicate HasRoute(lines: seq<string>, strict: bool) {
    exists t :: Sets(lines, "Peer", "AllowedIPs", t) && OnlyDefaultRoute(Split(t, ','), strict)
  }

  /** Every field, in terms of the lines. */
  ghost predicate Spells(lines: seq<string>, f: Fields, strict: bool, o: Oracle) {
    && Key(lines, "Interface", "PrivateKey", f.privateKey, o)
    && HasAddresses(lines, f.addresses, strict, o)
    && Number(lines, "Interface", "MTU", 1320, 576, 9000, f.mtu)
    && Key(lines, "Peer", "PublicKey", f.publicKey, o) && Key(lines, "Peer", "PresharedKey", f.presharedKey, o)
    && HasHost(lines, f.host, o) && HasRoute(lines, strict)
    && Number(lines, "Peer", "PersistentKeepalive", 25, 0, 120, f.keepalive)
  }

  lemma NumberFound(lines: seq<string>, section: string, key: string, text: string,
                    default: nat, low: nat, high: nat, n: nat)
    requires Finds(lines, section, key, text)
    ensures Number(lines, section, key, default, low, high, n) <==> NumberIs(text, default, low, high, n)
  {
    FoundIsSet(lines, section, key, text);
    if text != "" {
      assert Sets(lines, section, key, text);
    }
  }

  ghost predicate FindsAll(lines: seq<string>, t: Texts) {
    && Finds(lines, "Interface", "PrivateKey", t.privateKey) && Finds(lines, "Interface", "Address", t.address)
    && Finds(lines, "Interface", "MTU", t.mtu) && Finds(lines, "Peer", "PublicKey", t.publicKey)
    && Finds(lines, "Peer", "PresharedKey", t.presharedKey) && Finds(lines, "Peer", "AllowedIPs", t.allowedIps)
    && Finds(lines, "Peer", "Endpoint", t.endpoint)
    && Finds(lines, "Peer", "PersistentKeepalive", t.keepalive)
  }

  lemma SpellsIff(lines: seq<string>, t: Texts, f: Fields, strict: bool, o: Oracle)
    requires FindsAll(lines, t)
    ensures Spells(lines, f, strict, o) <==> TextsSay(t, f, strict, o)
  {
    NumberFound(lines, "Interface", "MTU", t.mtu, 1320, 576, 9000, f.mtu);
    NumberFound(lines, "Peer", "PersistentKeepalive", t.keepalive, 25, 0, 120, f.keepalive);
    KeysFound(lines, t, f, o);
    AddressesFound(lines, t.address, f.addresses, strict, o);
    HostFound(lines, t.endpoint, f.host, o);
    RouteFound(lines, t.allowedIps, strict);
  }

  lemma KeysFound(lines: seq<string>, t: Texts, f: Fields, o: Oracle)
    requires FindsAll(lines, t)
    ensures Key(lines, "Interface", "PrivateKey", f.privateKey, o) <==>
            f.privateKey == t.privateKey && t.privateKey != "" && o.isKey(t.privateKey)
    ensures Key(lines, "Peer", "PublicKey", f.publicKey, o) <==>
            f.publicKey == t.publicKey && t.publicKey != "" && o.isKey(t.publicKey)
    ensures Key(lines, "Peer", "PresharedKey", f.presharedKey, o) <==>
            f.presharedKey == t.presharedKey && t.presharedKey != "" && o.isKey(t.presharedKey)
  {
    FoundIsSet(lines, "Interface", "PrivateKey", t.privateKey);
    FoundIsSet(lines, "Peer", "PublicKey", t.publicKey);
    FoundIsSet(lines, "Peer", "PresharedKey", t.presharedKey);
  }

  lemma AddressesFound(lines: seq<string>, text: string, addresses: seq<string>, strict: bool, o: Oracle)
    requires Finds(lines, "Interface", "Address", text)
    ensures HasAddresses(lines, addresses, strict, o) <==> text != "" && AddressesIn(text, addresses, strict, o)
  {
    FoundIsSet(lines, "Interface", "Address", text);
  }

  lemma HostFound(lines: seq<string>, text: string, host: string, o: Oracle)
    requires Finds(lines, "Peer", "Endpoint", text)
    ensures HasHost(lines, host, o) <==> text != "" && HostIn(text, host, o)
  {
    FoundIsSet(lines, "Peer", "Endpoint", text);
  }

  lemma RouteFound(lines: seq<string>, text: string, strict: bool)
    requires Finds(lines, "Peer", "AllowedIPs", text)
    ensures HasRoute(lines, strict) <==> text != "" && OnlyDefaultRoute(Split(text, ','), strict)
  {
    FoundIsSet(lines, "Peer", "AllowedIPs", text);
  }

  lemma LookupFinds(lines: seq<string>, st: Scan)
    requires WellFormed(lines) && Explains(lines, st) && "Interface" in st.sections && "Peer" in st.sections
    ensures FindsAll(lines, Lookup(st.sections["Interface"], st.sections["Peer"]))
  {
    GetFinds(lines, st, "Interface", "PrivateKey");
    GetFinds(lines, st, "Interface", "Address");
    GetFinds(lines, st, "Interface", "MTU");
    GetFinds(lines, st, "Peer", "PublicKey");
    GetFinds(lines, st, "Peer", "PresharedKey");
    GetFinds(lines, st, "Peer", "AllowedIPs");
    GetFinds(lines, st, "Peer", "Endpoint");
    GetFinds(lines, st, "Peer", "PersistentKeepalive");
  }

  lemma SpellingOpens(lines: seq<string>, st: Scan, f: Fields, strict: bool, o: Oracle)
    requires Explains(lines, st) && Spells(lines, f, strict, o)
    ensures "Interface" in st.sections && "Peer" in st.sections
  {
    assert Stored(st.sections, "Interface", "PrivateKey", f.privateKey);
    assert Stored(st.sections, "Peer", "PublicKey", f.publicKey);
  }

  lemma FinishIff(lines: seq<string>, st: Scan, f: Fields, strict: bool, o: Oracle)
    requires WellFormed(lines) && Explains(lines, st)
    ensures Finish(st.sections, strict, o) == Ok(f) <==> Spells(lines, f, strict, o)
  {
    if "Interface" in st.sections && "Peer" in st.sections {
      var t := Lookup(st.sections["Interface"], st.sections["Peer"]);
      LookupFinds(lines, st);
      TextsIff(t, f, strict, o);
      SpellsIff(lines, t, f, strict, o);
    } else if Spells(lines, f, strict, o) {
      SpellingOpens(lines, st, f, strict, o);
    }
  }

  /**
   What is accepted, and with which fields, for every input, strict or tolerant: at
   most 128 KiB of well-formed lines that spell the fields.
   */
  lemma ParsedFieldsIff(data: string, f: Fields, strict: bool, o: Oracle)
    ensures var lines := Split(Unify(data), '\n');
            ParsedFields(data, strict, o) == Ok(f) <==>
            data != "" && Utf8Size(data) <= 131072 && WellFormed(lines) && Spells(lines, f, strict, o)
  {
    var lines := Split(Unify(data), '\n');
    ScanMeans(lines);
    var scan := Scanned(START, lines, LineStep);
    if scan.Ok? {
      FinishIff(lines, scan.value, f, strict, o);
    }
  }

  // ----- the answer -----

  /** Each line, ended by a newline. */
  function Unlines(lines: seq<string>): string {
    if lines == [] then "" else lines[0] + "\n" + Unlines(lines[1..])
  }

  lemma {:induction false} JoinIsUnlines(lines: seq<string>)
    ensures Join(lines + [""], "\n") == Unlines(lines)
    decreases |lines|
  {
    if lines != [] {
      JoinIsUnlines(lines[1..]);
      JoinCons(lines[0], lines[1..] + [""], "\n");
      assert lines + [""] == [lines[0]] + (lines[1..] + [""]);
    }
  }

  /** The normal form of a profile. */
  function NormalLines(f: Fields): seq<string> {
    ["[" + "Interface" + "]",
     "PrivateKey" + " = " + f.privateKey,
     "Address" + " = " + Join(f.addresses, ", "),
     "MTU" + " = " + Itoa(f.mtu),
     "",
     "[" + "Peer" + "]",
     "PublicKey" + " = " + f.publicKey,
     "PresharedKey" + " = " + f.presharedKey,
     "AllowedIPs" + " = " + "0.0.0.0/0",
     "Endpoint" + " = " + (f.host + ":" + Itoa(1637)),
     "PersistentKeepalive" + " = " + Itoa(f.keepalive)]
  }

  lemma ThreeLines(a: Entry, b: Entry, c: Entry)
    ensures EntryLines([a, b, c]) == [EntryLine(a), EntryLine(b), EntryLine(c)]
  {
    assert [a, b, c][1..] == [b, c] && [b, c][1..] == [c] && [c][1..] == [];
    assert EntryLines([c]) == [EntryLine(c)] + EntryLines([]);
    assert EntryLines([b, c]) == [EntryLine(b)] + EntryLines([c]);
  }

  lemma FiveLines(a: Entry, b: Entry, c: Entry, d: Entry, e: Entry)
    ensures EntryLines([a, b, c, d, e]) == [EntryLine(a), EntryLine(b), EntryLine(c), EntryLine(d), EntryLine(e)]
  {
    assert [a, b, c, d, e][1..] == [b, c, d, e] && [b, c, d, e][1..] == [c, d, e];
    ThreeLines(c, d, e);
  }

  lemma RenderedText(f: Fields)
    ensures Render(f) == Unlines(NormalLines(f))
  {
    var i, p := InterfaceEntries(f), PeerEntries(f, EndpointText(f.host, PORT));
    ThreeLines(i[0], i[1], i[2]);
    FiveLines(p[0], p[1], p[2], p[3], p[4]);
    assert ProfileLines(f, EndpointText(f.host, PORT)) == NormalLines(f) + [""];
    JoinIsUnlines(NormalLines(f));
  }

  /** The lines of the data are well formed and spell these fields. */
  ghost predicate Says(data: string, f: Fields, strict: bool, o: Oracle) {
    var lines := Split(Unify(data), '\n');
    data != "" && Utf8Size(data) <= 131072 && WellFormed(lines) && Spells(lines, f, strict, o)
  }

  /** The whole answer, for every input: accepted exactly when it spells some fields, and then their normal form. */
  lemma ProfileIff(data: string, p: Profile, strict: bool, o: Oracle)
    ensures Parse(data, strict, o) == Ok(p) <==>
            exists f :: && Says(data, f, strict, o) && f.addresses != []
                        && p.config == Unlines(NormalLines(f))
                        && p.metadata == Metadata(f.host, 1637, f.addresses[0], o.digest(p.config))
  {
    var fields := ParsedFields(data, strict, o);
    forall f ensures fields == Ok(f) <==> Says(data, f, strict, o) {
      ParsedFieldsIff(data, f, strict, o);
    }
    if fields.Ok? {
      RenderedText(fields.value);
    }
  }

  // ----- line endings -----

  lemma {:induction false} NothingDropped(s: string)
    requires '\r' !in s
    ensures DropCarriageReturns(s) == s
    decreases |s|
  {
    if s != "" {
      NothingDropped(s[1..]);
    }
  }

  lemma {:induction false} DropAfter(line: string, rest: string)
    requires '\r' !in line
    ensures DropCarriageReturns(line + "\r\n" + rest) == line + "\n" + DropCarriageReturns(rest)
    decreases |line|
  {
    var s := line + "\r\n" + rest;
    if line == "" {
      assert s[2..] == rest;
    } else {
      DropAfter(line[1..], rest);
      assert s[0] == line[0] && s[1..] == line[1..] + "\r\n" + rest;
    }
  }

  lemma {:induction false} DropJoined(lines: seq<string>)
    requires forall l <- lines :: '\r' !in l
    ensures DropCarriageReturns(Join(lines, "\r\n")) == Join(lines, "\n")
    decreases |lines|
  {
    if |lines| == 1 {
      NothingDropped(lines[0]);
    } else if |lines| > 1 {
      JoinCons(lines[0], lines[1..], "\r\n");
      JoinCons(lines[0], lines[1..], "\n");
      assert lines == [lines[0]] + lines[1..];
      DropAfter(lines[0], Join(lines[1..], "\r\n"));
      DropJoined(lines[1..]);
    }
  }

  /** Lines ended either way, with or without a byte order mark in front, are the same lines. */
  lemma LineEndings(lines: seq<string>, sep: string, bom: string)
    requires lines != [] && (forall l <- lines :: '\r' !in l && '\n' !in l && '\U{FEFF}' !in l)
    requires sep in {"\n", "\r\n"} && bom in {"", "\U{FEFF}"}
    ensures Split(Unify(bom + Join(lines, sep)), '\n') == lines
  {
    var text := Join(lines, "\n");
    JoinHasOnly(lines);
    if sep == "\n" {
      NothingDropped(text);
    } else {
      DropJoined(lines);
    }
    assert "" + Join(lines, sep) == Join(lines, sep);
    if bom != "" {
      DropAfterMark(Join(lines, sep));
    }
    SplitJoin(lines, '\n');
  }

  lemma DropAfterMark(s: string)
    ensures DropCarriageReturns("\U{FEFF}" + s) == "\U{FEFF}" + DropCarriageReturns(s)
    ensures Unify("\U{FEFF}" + s) == DropCarriageReturns(s)
  {
    var marked := "\U{FEFF}" + s;
    assert marked[0] == '\U{FEFF}' && marked[1..] == s;
    assert ("\U{FEFF}" + DropCarriageReturns(s))[1..] == DropCarriageReturns(s);
  }

  lemma {:induction false} JoinHasOnly(lines: seq<string>)
    requires forall l <- lines :: '\r' !in l && '\U{FEFF}' !in l
    ensures '\r' !in Join(lines, "\n") && '\U{FEFF}' !in Join(lines, "\n")
    decreases |lines|
  {
    if |lines| > 1 {
      JoinHasOnly(lines[1..]);
    }
  }
}
