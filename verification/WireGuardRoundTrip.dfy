/**
 Normalized profile text is read again by the strict parser and by
 `WireGuardSettings`. Both get back what was printed exactly when the text fits
 and the endpoint host has neither a colon nor leading white space.
 */
module WireGuardRoundTrip {
  import opened Common
  import opened Text
  import opened WireGuardProfile

  // ----- one printed line -----

  /** A key as the printer writes it. */
  predicate PrintedKey(key: string) {
    key != "" && Trimmed(key) && '=' !in key && '\n' !in key && key[0] !in ";#["
  }

  /** A value as the printer writes it: it may begin with white space, but does not end with it. */
  predicate PrintedValue(v: string) {
    v != "" && !IsSpace(v[|v| - 1]) && '\n' !in v && '\0' !in v
  }

  predicate Printed(e: Entry) {
    PrintedKey(e.0) && PrintedValue(e.1)
  }

  lemma {:induction false} TrimLeftKeepsEnd(v: string)
    requires v != "" && !IsSpace(v[|v| - 1])
    ensures TrimLeft(v) != "" && TrimSpace(v) == TrimLeft(v) && TrimSpace(" " + v) == TrimSpace(v)
    ensures forall c <- TrimSpace(v) :: c in v
    decreases |v|
  {
    assert (" " + v)[0] == ' ' && (" " + v)[1..] == v;
    assert TrimLeft(" " + v) == TrimLeft(v);
    if IsSpace(v[0]) {
      TrimLeftKeepsEnd(v[1..]);
    }
  }

  lemma EntryText(e: Entry)
    requires Printed(e)
    ensures var line := EntryLine(e);
            && TrimSpace(line) == line && line[0] == e.0[0] && !IsSpace(line[0]) && !IsSpace(line[|line| - 1])
            && IndexOf(line, '=') == |e.0| + 1
            && TrimSpace(line[..|e.0| + 1]) == e.0 && TrimSpace(line[|e.0| + 2..]) == TrimSpace(e.1)
  {
    var key, value := e.0, e.1;
    var line := EntryLine(e);
    assert line[0] == key[0] && line[|line| - 1] == value[|value| - 1];
    TrimTrimmed(line);
    assert line[|key| + 1] == '=' && line[..|key| + 1] == key + " " && line[|key| + 2..] == " " + value;
    IndexOfUnique(line, '=', |key| + 1);
    TrimBeforeSpace(key);
    TrimLeftKeepsEnd(value);
  }

  // ----- a printed section, for any reader -----

  /** The values stored from entries, under a name for each key. */
  function Stored(m: Values, es: seq<Entry>, name: string -> string): Values
    decreases |es|
  {
    if es == [] then m else Stored(m[name(es[0].0) := TrimSpace(es[0].1)], es[1..], name)
  }

  ghost predicate Distinct(es: seq<Entry>, name: string -> string) {
    forall i, j :: 0 <= i < j < |es| ==> name(es[i].0) != name(es[j].0)
  }

  lemma {:induction false} StoredOthers(m: Values, es: seq<Entry>, name: string -> string, key: string)
    requires forall e <- es :: name(e.0) != key
    ensures Get(Stored(m, es, name), key) == Get(m, key) && (key in Stored(m, es, name) <==> key in m)
    decreases |es|
  {
    if es != [] {
      assert es[0] in es;
      StoredOthers(m[name(es[0].0) := TrimSpace(es[0].1)], es[1..], name, key);
    }
  }

  lemma {:induction false} StoredHas(m: Values, es: seq<Entry>, name: string -> string, i: nat)
    requires i < |es| && Distinct(es, name)
    ensures Get(Stored(m, es, name), name(es[i].0)) == TrimSpace(es[i].1)
    decreases |es|
  {
    var next := m[name(es[0].0) := TrimSpace(es[0].1)];
    if i == 0 {
      StoredOthers(next, es[1..], name, name(es[0].0));
    } else {
      StoredHas(next, es[1..], name, i - 1);
    }
  }

  /** A reader that stores each printed entry stores them all; `at` is its state around the values. */
  lemma {:induction false} EntriesAreRead<S>(at: Values -> S, m: Values, es: seq<Entry>, name: string -> string,
                                             fits: Entry -> bool, step: (S, string) -> Result<S>)
    requires forall n, e :: fits(e) && name(e.0) !in n ==>
             step(at(n), EntryLine(e)) == Ok(at(n[name(e.0) := TrimSpace(e.1)]))
    requires (forall e <- es :: fits(e) && name(e.0) !in m) && Distinct(es, name)
    ensures Scanned(at(m), EntryLines(es), step) == Ok(at(Stored(m, es, name)))
    decreases |es|
  {
    if es != [] {
      assert es[0] in es;
      var next := m[name(es[0].0) := TrimSpace(es[0].1)];
      assert step(at(m), EntryLine(es[0])) == Ok(at(next));
      assert EntryLines(es)[0] == EntryLine(es[0]) && EntryLines(es)[1..] == EntryLines(es[1..]);
      forall e <- es[1..] ensures e in es && name(e.0) !in next {
        var j :| 0 <= j < |es[1..]| && es[1..][j] == e;
        assert name(es[0].0) != name(es[j + 1].0);
      }
      EntriesAreRead(at, next, es[1..], name, fits, step);
    }
  }

  lemma SectionIsRead<S>(st: S, header: string, at: Values -> S, m: Values, es: seq<Entry>, name: string -> string,
                         fits: Entry -> bool, step: (S, string) -> Result<S>)
    requires step(st, header) == Ok(at(m)) && forall n :: step(at(n), "") == Ok(at(n))
    requires forall n, e :: fits(e) && name(e.0) !in n ==>
             step(at(n), EntryLine(e)) == Ok(at(n[name(e.0) := TrimSpace(e.1)]))
    requires (forall e <- es :: fits(e) && name(e.0) !in m) && Distinct(es, name)
    ensures Scanned(st, [header] + EntryLines(es) + [""], step) == Ok(at(Stored(m, es, name)))
  {
    ScannedOne(st, header, step);
    EntriesAreRead(at, m, es, name, fits, step);
    ScannedConcat(st, [header], EntryLines(es), step);
    ScannedConcat(st, [header] + EntryLines(es), [""], step);
    ScannedOne(at(Stored(m, es, name)), "", step);
  }

  // ----- what the printer writes -----

  predicate Letters(s: string) {
    s != "" && forall i :: 0 <= i < |s| ==> 'A' <= s[i] <= 'Z' || 'a' <= s[i] <= 'z'
  }

  lemma SupportedKeysAreLetters(section: string, key: string)
    requires SupportedKey(section, key)
    ensures Letters(key)
  {
  }

  lemma LettersArePrinted(key: string)
    requires Letters(key)
    ensures PrintedKey(key)
  {
  }

  lemma KeyIsPrinted(section: string, key: string)
    requires SupportedKey(section, key)
    ensures PrintedKey(key)
  {
    SupportedKeysAreLetters(section, key);
    LettersArePrinted(key);
  }

  predicate FitsSection(section: string, e: Entry) {
    SupportedKey(section, e.0) && PrintedValue(e.1)
  }

  lemma InterfaceFits(f: Fields, o: Oracle)
    requires ValidFields(f, o)
    ensures forall e <- InterfaceEntries(f) :: FitsSection("Interface", e)
    ensures Distinct(InterfaceEntries(f), k => k)
  {
    JoinIsClean(f.addresses, o);
    DigitsAreTrimmed(Itoa(f.mtu));
  }

  lemma EndpointIsPrinted(f: Fields, o: Oracle)
    requires ValidFields(f, o)
    ensures PrintedValue(EndpointText(f.host, PORT))
  {
    DigitsAreTrimmed(Itoa(PORT));
    var s := EndpointText(f.host, PORT);
    assert s[|s| - 1] == Itoa(PORT)[|Itoa(PORT)| - 1];
  }

  lemma PeerFits(f: Fields, endpoint: string, o: Oracle)
    requires ValidFields(f, o) && PrintedValue(endpoint)
    ensures forall e <- PeerEntries(f, endpoint) :: FitsSection("Peer", e)
    ensures Distinct(PeerEntries(f, endpoint), k => k)
  {
    DigitsAreTrimmed(Itoa(f.keepalive));
  }

  // ----- the parser on printed sections -----

  function InSection(sections: Sections, section: string, m: Values): Scan {
    Scan(sections[section := m], section)
  }

  lemma EntryIsParsed(sections: Sections, section: string, m: Values, e: Entry)
    requires PrintedKey(e.0) && FitsSection(section, e) && e.0 !in m
    ensures LineStep(InSection(sections, section, m), EntryLine(e)) ==
            Ok(InSection(sections, section, m[e.0 := TrimSpace(e.1)]))
  {
    EntryText(e);
    TrimLeftKeepsEnd(e.1);
    EntryLineStep(InSection(sections, section, m), EntryLine(e));
    EntryIsStored(sections, section, m, e.0, TrimSpace(e.1));
  }

  /** A line that is neither blank, comment nor header goes to the entry step. */
  lemma EntryLineStep(st: Scan, line: string)
    requires TrimSpace(line) == line && line != "" && line[0] !in ";#[" && st.section in st.sections
    ensures LineStep(st, line) == EntryStep(st, line)
  {
  }

  lemma EntryIsStored(sections: Sections, section: string, m: Values, key: string, value: string)
    requires key != "" && value != "" && '\0' !in value && key !in m && SupportedKey(section, key)
    ensures StoreEntry(InSection(sections, section, m), key, value) == Ok(InSection(sections, section, m[key := value]))
  {
    LastUpdateWins(sections, section, m, m[key := value]);
  }

  lemma LastUpdateWins<K, V>(m: map<K, V>, key: K, a: V, b: V)
    ensures m[key := a][key := b] == m[key := b]
  {
  }

  lemma HeaderIsParsed(st: Scan, name: string)
    requires (name == "Interface" || name == "Peer") && name !in st.sections
    ensures LineStep(st, "[" + name + "]") == Ok(InSection(st.sections, name, map[]))
  {
    var line := "[" + name + "]";
    assert line[0] == '[' && line[|line| - 1] == ']' && line[1..|line| - 1] == name;
    TrimTrimmed(line);
    TrimTrimmed(name);
  }

  lemma SectionIsParsed(st: Scan, section: string, es: seq<Entry>)
    requires (section == "Interface" || section == "Peer") && section !in st.sections
    requires (forall e <- es :: FitsSection(section, e)) && Distinct(es, k => k)
    ensures Scanned(st, SectionLines(section, es), LineStep) ==
            Ok(InSection(st.sections, section, Stored(map[], es, k => k)))
  {
    var at := m => InSection(st.sections, section, m);
    var name := (k: string) => k;
    var fits := e => FitsSection(section, e);
    HeaderIsParsed(st, section);
    TrimTrimmed("");
    forall n, e | fits(e) && name(e.0) !in n
      ensures LineStep(at(n), EntryLine(e)) == Ok(at(n[name(e.0) := TrimSpace(e.1)])) {
      KeyIsPrinted(section, e.0);
      EntryIsParsed(st.sections, section, n, e);
    }
    SectionIsRead(st, "[" + section + "]", at, map[], es, name, fits, LineStep);
  }

  function PrintedTexts(f: Fields, endpoint: string): Texts {
    Texts(f.privateKey, Join(f.addresses, ", "), Itoa(f.mtu), f.publicKey, f.presharedKey, ANY_IPV4,
          TrimSpace(endpoint), Itoa(f.keepalive))
  }

  lemma InterfaceIsStored(f: Fields, o: Oracle)
    requires ValidFields(f, o)
    ensures var m := Stored(map[], InterfaceEntries(f), k => k);
            && Get(m, "PrivateKey") == f.privateKey && Get(m, "Address") == Join(f.addresses, ", ")
            && Get(m, "MTU") == Itoa(f.mtu)
  {
    InterfaceFits(f, o);
    StoredHas(map[], InterfaceEntries(f), k => k, 0);
    StoredHas(map[], InterfaceEntries(f), k => k, 1);
    StoredHas(map[], InterfaceEntries(f), k => k, 2);
    JoinIsClean(f.addresses, o);
    DigitsAreTrimmed(Itoa(f.mtu));
  }

  lemma PeerIsStored(f: Fields, endpoint: string, o: Oracle)
    requires ValidFields(f, o) && PrintedValue(endpoint)
    ensures var m := Stored(map[], PeerEntries(f, endpoint), k => k);
            && Get(m, "PublicKey") == f.publicKey && Get(m, "PresharedKey") == f.presharedKey
            && Get(m, "AllowedIPs") == ANY_IPV4 && Get(m, "Endpoint") == TrimSpace(endpoint)
            && Get(m, "PersistentKeepalive") == Itoa(f.keepalive)
  {
    PeerFits(f, endpoint, o);
    StoredHas(map[], PeerEntries(f, endpoint), k => k, 0);
    StoredHas(map[], PeerEntries(f, endpoint), k => k, 1);
    StoredHas(map[], PeerEntries(f, endpoint), k => k, 2);
    StoredHas(map[], PeerEntries(f, endpoint), k => k, 3);
    StoredHas(map[], PeerEntries(f, endpoint), k => k, 4);
    DigitsAreTrimmed(Itoa(f.keepalive));
  }

  /** The parser's scan of the printed lines finds the printed texts. */
  lemma LinesAreParsed(f: Fields, endpoint: string, strict: bool, o: Oracle)
    requires ValidFields(f, o) && PrintedValue(endpoint)
    ensures Scanned(START, ProfileLines(f, endpoint), LineStep).Ok?
    ensures Finish(Scanned(START, ProfileLines(f, endpoint), LineStep).value.sections, strict, o) ==
            FromTexts(PrintedTexts(f, endpoint), strict, o)
  {
    InterfaceFits(f, o);
    PeerFits(f, endpoint, o);
    SectionIsParsed(START, "Interface", InterfaceEntries(f));
    var between := InSection(map[], "Interface", Stored(map[], InterfaceEntries(f), k => k));
    SectionIsParsed(between, "Peer", PeerEntries(f, endpoint));
    ScannedConcat(START, SectionLines("Interface", InterfaceEntries(f)),
                  SectionLines("Peer", PeerEntries(f, endpoint)), LineStep);
    InterfaceIsStored(f, o);
    PeerIsStored(f, endpoint, o);
  }

  // ----- the text as lines -----

  predicate WholeLine(l: string) {
    '\n' !in l && (l != "" ==> l[|l| - 1] != '\r')
  }

  predicate NoCrLf(s: string) {
    forall i :: 0 <= i < |s| - 1 && s[i] == '\r' ==> s[i + 1] != '\n'
  }

  lemma {:induction false} NothingToDrop(s: string)
    requires NoCrLf(s)
    ensures DropCarriageReturns(s) == s
    decreases |s|
  {
    if s != "" {
      assert NoCrLf(s[1..]) by {
        forall i | 0 <= i < |s[1..]| - 1 && s[1..][i] == '\r' ensures s[1..][i + 1] != '\n' {
          assert s[i + 1] == '\r';
        }
      }
      NothingToDrop(s[1..]);
    }
  }

  lemma {:induction false} JoinedLines(lines: seq<string>)
    requires forall l <- lines :: WholeLine(l)
    ensures NoCrLf(Join(lines, "\n"))
    decreases |lines|
  {
    if lines != [] {
      assert lines[0] in lines;
      if |lines| > 1 {
        JoinedLines(lines[1..]);
        var head, tail := lines[0], Join(lines[1..], "\n");
        var s := Join(lines, "\n");
        assert s == head + "\n" + tail;
        forall i | 0 <= i < |s| - 1 && s[i] == '\r' ensures s[i + 1] != '\n' {
          if i > |head| {
            assert s[i] == tail[i - |head| - 1] && s[i + 1] == tail[i - |head|];
          }
        }
      }
    }
  }

  lemma EntryLineIsWhole(e: Entry)
    requires Printed(e)
    ensures WholeLine(EntryLine(e))
  {
    EntryText(e);
  }

  lemma {:induction false} EntryLinesAreWhole(section: string, es: seq<Entry>)
    requires (section == "Interface" || section == "Peer") && forall e <- es :: FitsSection(section, e)
    ensures forall l <- EntryLines(es) :: WholeLine(l)
    decreases |es|
  {
    if es != [] {
      assert es[0] in es;
      KeyIsPrinted(section, es[0].0);
      EntryLineIsWhole(es[0]);
      EntryLinesAreWhole(section, es[1..]);
    }
  }

  lemma SectionLinesAreWhole(section: string, es: seq<Entry>)
    requires (section == "Interface" || section == "Peer") && forall e <- es :: FitsSection(section, e)
    ensures forall l <- SectionLines(section, es) :: WholeLine(l)
  {
    EntryLinesAreWhole(section, es);
    var header := "[" + section + "]";
    assert WholeLine(header) && WholeLine("");
  }

  lemma TextHasLines(f: Fields, endpoint: string, o: Oracle)
    requires ValidFields(f, o) && PrintedValue(endpoint)
    ensures ProfileText(f, endpoint) != "" && Split(Unify(ProfileText(f, endpoint)), '\n') ==
            Split(ProfileText(f, endpoint), '\n') == ProfileLines(f, endpoint)
  {
    InterfaceFits(f, o);
    PeerFits(f, endpoint, o);
    SectionLinesAreWhole("Interface", InterfaceEntries(f));
    SectionLinesAreWhole("Peer", PeerEntries(f, endpoint));
    JoinedLines(ProfileLines(f, endpoint));
    NothingToDrop(ProfileText(f, endpoint));
    assert ProfileText(f, endpoint)[0] == '[';
    SplitJoin(ProfileLines(f, endpoint), '\n');
  }

  // ----- strict parsing of the normal form -----

  /** What a caller checks before relying on the round trip. */
  predicate Stable(f: Fields) {
    Utf8Size(Render(f)) <= MAX_PROFILE && ':' !in f.host && (f.host != "" ==> !IsSpace(f.host[0]))
  }

  lemma PrintedNumbers(f: Fields)
    requires 576 <= f.mtu <= 9000 && f.keepalive <= 120
    ensures Setting(Itoa(f.mtu), DEFAULT_MTU, 576, 9000) == Ok(f.mtu)
    ensures Setting(Itoa(f.keepalive), DEFAULT_KEEPALIVE, 0, 120) == Ok(f.keepalive)
  {
    AtoiItoa(f.mtu);
    AtoiItoa(f.keepalive);
  }

  lemma PrintedAllowedIps()
    ensures AllowedIps(Split(ANY_IPV4, ','), true, false)
  {
    SplitWhole(ANY_IPV4, ',');
    TrimTrimmed(ANY_IPV4);
    assert [ANY_IPV4][1..] == [];
  }

  lemma PrintedAddresses(f: Fields, o: Oracle)
    requires ValidFields(f, o)
    ensures Join(f.addresses, ", ") != "" && Addresses(Split(Join(f.addresses, ", "), ','), true, o) == Ok(f.addresses)
  {
    JoinIsClean(f.addresses, o);
    AddressesRoundTrip(f.addresses, "", o);
    assert "" + Join(f.addresses, ", ") == Join(f.addresses, ", ");
  }

  /** Everything printed is read back as it was; the endpoint alone decides. */
  lemma PrintedFields(f: Fields, endpoint: string, o: Oracle)
    requires ValidFields(f, o) && PrintedValue(endpoint)
    ensures var host := ValidateEndpoint(PrintedTexts(f, endpoint).endpoint, o);
            FromTexts(PrintedTexts(f, endpoint), true, o) == if host.Err? then Err else Ok(f.(host := host.value))
  {
    PrintedNumbers(f);
    PrintedAllowedIps();
    PrintedAddresses(f, o);
    TrimLeftKeepsEnd(endpoint);
  }

  /** An endpoint without brackets and without leading white space has a host without it. */
  lemma HostOfTrimmed(value: string, o: Oracle)
    requires Laws(o) && Trimmed(value) && '[' !in value && ValidateEndpoint(value, o).Ok?
    ensures var host := ValidateEndpoint(value, o).value; host != "" && !IsSpace(host[0])
  {
    assert value[0] in value;
    var host := SplitHostPort(value).value.0;
    if o.ip(host).Ipv4? {
      DottedIsPlain(o.ip(host).canonical);
    }
  }

  /** The host read back is never one with leading white space. */
  lemma HostReadBack(f: Fields, o: Oracle)
    requires Laws(o) && ValidFields(f, o)
    ensures var host := ValidateEndpoint(TrimSpace(EndpointText(f.host, PORT)), o);
            && (host.Ok? ==> host.value != "" && !IsSpace(host.value[0]))
            && (host == Ok(f.host) <==> ':' !in f.host && !IsSpace(f.host[0]))
  {
    var printed := EndpointText(f.host, PORT);
    var value := TrimSpace(printed);
    EndpointIsPrinted(f, o);
    TrimLeftKeepsEnd(printed);
    TrimSpaceTrims(printed);
    EndpointShape(f.host, PORT);
    if ValidateEndpoint(value, o).Ok? {
      HostOfTrimmed(value, o);
    }
    if !IsSpace(f.host[0]) {
      assert printed[0] == f.host[0];
      TrimTrimmed(printed);
      EndpointRoundTrip(f.host, o);
    }
  }

  /** Parsing a profile laid out like the normal form, with any endpoint text. */
  lemma ParsedText(f: Fields, endpoint: string, o: Oracle)
    requires ValidFields(f, o) && PrintedValue(endpoint)
    ensures var host := ValidateEndpoint(TrimSpace(endpoint), o);
            ParsedFields(ProfileText(f, endpoint), true, o) ==
            if Utf8Size(ProfileText(f, endpoint)) > MAX_PROFILE || host.Err? then Err else Ok(f.(host := host.value))
  {
    TextHasLines(f, endpoint, o);
    LinesAreParsed(f, endpoint, true, o);
    PrintedFields(f, endpoint, o);
  }

  /**
   Normalization is idempotent: for every accepted profile, tolerant or strict,
   strict parsing of the normalized text returns the same text and metadata
   exactly when the fields are `Stable`.
   */
  lemma ParseIsIdempotentIff(data: string, strict: bool, o: Oracle)
    requires Laws(o) && ParsedFields(data, strict, o).Ok?
    ensures var f, p := ParsedFields(data, strict, o).value, Parse(data, strict, o).value;
            && (Parse(p.config, true, o) == Ok(p) <==> Stable(f))
            && (ParsedFields(p.config, true, o) == Ok(f) <==> Stable(f))
  {
    var f, p := ParsedFields(data, strict, o).value, Parse(data, strict, o).value;
    ParsedIsValid(data, strict, o);
    EndpointIsPrinted(f, o);
    ParsedText(f, EndpointText(f.host, PORT), o);
    HostReadBack(f, o);
    assert f.(host := f.host) == f;
  }

  // ----- the second reader -----

  function Key(section: string, key: string): string {
    section + "." + key
  }

  datatype Reader = Reader(values: Values, section: string)

  /** One pass of the settings loop: no comment, duplicate or key checks. */
  function ReadLine(st: Reader, raw: string): Result<Reader> {
    var line := TrimSpace(raw);
    if line == "" then Ok(st)
    else if IsHeader(line) then Ok(st.(section := line[1..|line| - 1]))
    else
      var i := IndexOf(line, '=');
      if i == |line| then Ok(st)
      else Ok(st.(values := st.values[Key(st.section, TrimSpace(line[..i])) := TrimSpace(line[i + 1..])]))
  }

  datatype Settings = Settings(privateKey: string, address: string, publicKey: string, presharedKey: string,
                               host: string, port: int, mtu: int, keepalive: int)

  function NumberOrZero(s: string): int {
    if Atoi(s).Some? then Atoi(s).value else 0
  }

  function AfterLastColon(s: string): string {
    var i := LastIndexOf(s, ':');
    if i == |s| then s else s[i + 1..]
  }

  function SettingsFrom(m: Values): Result<Settings> {
    var endpoint := Get(m, Key("Peer", "Endpoint"));
    var split := SplitHostPort(endpoint);
    if split.None? then Err
    else
      Ok(Settings(Get(m, Key("Interface", "PrivateKey")), Get(m, Key("Interface", "Address")),
                  Get(m, Key("Peer", "PublicKey")),
                  Get(m, Key("Peer", "PresharedKey")), split.value.0, NumberOrZero(AfterLastColon(endpoint)),
                  NumberOrZero(Get(m, Key("Interface", "MTU"))),
                    NumberOrZero(Get(m, Key("Peer", "PersistentKeepalive")))))
  }

  const EMPTY := Reader(map[], "")

  function ReadSettings(config: string): Result<Settings> {
    var read := Scanned(EMPTY, Split(config, '\n'), ReadLine);
    if read.Err? then Err else SettingsFrom(read.value.values)
  }

  function WireGuardSettings(config: string, o: Oracle): Result<Settings> {
    var parsed := Parse(config, true, o);
    if parsed.Err? then Err else ReadSettings(parsed.value.config)
  }

  method CollectValues(lines: seq<string>) returns (values: Values)
    ensures Scanned(EMPTY, lines, ReadLine).Ok? && values == Scanned(EMPTY, lines, ReadLine).value.values
  {
    values := map[];
    var section := "";
    for i := 0 to |lines|
      invariant Scanned(EMPTY, lines, ReadLine) == Scanned(Reader(values, section), lines[i..], ReadLine)
    {
      assert lines[i..][0] == lines[i] && lines[i..][1..] == lines[i + 1..];
      var line := TrimSpace(lines[i]);
      if line == "" {
        continue;
      }
      if IsHeader(line) {
        section := line[1..|line| - 1];
        continue;
      }
      var k := IndexOf(line, '=');
      if k < |line| {
        values := values[Key(section, TrimSpace(line[..k])) := TrimSpace(line[k + 1..])];
      }
    }
  }

  method ReadWireGuardSettings(p: Profile, o: Oracle) returns (r: Result<Settings>)
    requires Laws(o)
    ensures r == WireGuardSettings(p.config, o)
  {
    var parsed := ParseProfile(p.config, true, o);
    if parsed.Err? {
      return Err;
    }
    var values := CollectValues(Split(parsed.value.config, '\n'));
    r := SettingsFrom(values);
  }

  lemma EntryIsReadAgain(section: string, m: Values, e: Entry)
    requires Printed(e)
    ensures ReadLine(Reader(m, section), EntryLine(e)) == Ok(Reader(m[Key(section, e.0) := TrimSpace(e.1)], section))
  {
    EntryText(e);
  }

  lemma HeaderIsReadAgain(st: Reader, name: string)
    requires name == "Interface" || name == "Peer"
    ensures ReadLine(st, "[" + name + "]") == Ok(Reader(st.values, name))
  {
    var line := "[" + name + "]";
    assert line[0] == '[' && line[|line| - 1] == ']' && line[1..|line| - 1] == name;
    TrimTrimmed(line);
  }

  function Qualified(section: string): string -> string {
    key => Key(section, key)
  }

  lemma QualifiedDistinct(section: string, es: seq<Entry>)
    requires Distinct(es, k => k)
    ensures Distinct(es, Qualified(section))
  {
    var name := Qualified(section);
    forall i, j | 0 <= i < j < |es| ensures name(es[i].0) != name(es[j].0) {
      assert name(es[i].0)[|section| + 1..] == es[i].0 && name(es[j].0)[|section| + 1..] == es[j].0;
    }
  }

  lemma SectionIsReadAgain(st: Reader, section: string, es: seq<Entry>)
    requires section == "Interface" || section == "Peer"
    requires (forall e <- es :: FitsSection(section, e) && Qualified(section)(e.0) !in st.values) &&
             Distinct(es, k => k)
    ensures Scanned(st, SectionLines(section, es), ReadLine) ==
            Ok(Reader(Stored(st.values, es, Qualified(section)), section))
  {
    var at := m => Reader(m, section);
    var name := Qualified(section);
    var fits := e => FitsSection(section, e);
    HeaderIsReadAgain(st, section);
    TrimTrimmed("");
    forall n, e | fits(e) && name(e.0) !in n
      ensures ReadLine(at(n), EntryLine(e)) == Ok(at(n[name(e.0) := TrimSpace(e.1)])) {
      KeyIsPrinted(section, e.0);
      EntryIsReadAgain(section, n, e);
    }
    QualifiedDistinct(section, es);
    SectionIsRead(st, "[" + section + "]", at, st.values, es, name, fits, ReadLine);
  }

  /** The values the second reader collects from two sections. */
  function Both(iface: seq<Entry>, peer: seq<Entry>): Values {
    Stored(Stored(map[], iface, Qualified("Interface")), peer, Qualified("Peer"))
  }

  function Collected(f: Fields): Values {
    Both(InterfaceEntries(f), PeerEntries(f, EndpointText(f.host, PORT)))
  }

  lemma KeysDiffer(a: string, b: string)
    ensures Key("Interface", a) != Key("Peer", b)
  {
    assert Key("Interface", a)[0] == 'I' && Key("Peer", b)[0] == 'P';
  }

  lemma PeerKeysAreNew(iface: seq<Entry>, key: string)
    ensures Key("Peer", key) !in Stored(map[], iface, Qualified("Interface"))
  {
    forall e <- iface ensures Qualified("Interface")(e.0) != Key("Peer", key) {
      KeysDiffer(e.0, key);
    }
    StoredOthers(map[], iface, Qualified("Interface"), Key("Peer", key));
  }

  lemma LinesAreReadAgain(f: Fields, o: Oracle)
    requires ValidFields(f, o)
    ensures Scanned(EMPTY, ProfileLines(f, EndpointText(f.host, PORT)), ReadLine) == Ok(Reader(Collected(f), "Peer"))
  {
    InterfaceFits(f, o);
    EndpointIsPrinted(f, o);
    PeerFits(f, EndpointText(f.host, PORT), o);
    SectionIsReadAgain(EMPTY, "Interface", InterfaceEntries(f));
    var between := Reader(Stored(map[], InterfaceEntries(f), Qualified("Interface")), "Interface");
    forall e <- PeerEntries(f, EndpointText(f.host, PORT)) ensures Qualified("Peer")(e.0) !in between.values {
      PeerKeysAreNew(InterfaceEntries(f), e.0);
    }
    SectionIsReadAgain(between, "Peer", PeerEntries(f, EndpointText(f.host, PORT)));
    ScannedConcat(EMPTY, SectionLines("Interface", InterfaceEntries(f)),
                  SectionLines("Peer", PeerEntries(f, EndpointText(f.host, PORT))), ReadLine);
  }

  lemma InterfaceCollected(iface: seq<Entry>, peer: seq<Entry>, i: nat)
    requires Distinct(iface, k => k) && i < |iface|
    ensures Get(Both(iface, peer), Key("Interface", iface[i].0)) == TrimSpace(iface[i].1)
  {
    QualifiedDistinct("Interface", iface);
    StoredHas(map[], iface, Qualified("Interface"), i);
    var key := Key("Interface", iface[i].0);
    forall e <- peer ensures Qualified("Peer")(e.0) != key {
      KeysDiffer(iface[i].0, e.0);
    }
    StoredOthers(Stored(map[], iface, Qualified("Interface")), peer, Qualified("Peer"), key);
  }

  lemma PeerCollected(iface: seq<Entry>, peer: seq<Entry>, i: nat)
    requires Distinct(peer, k => k) && i < |peer|
    ensures Get(Both(iface, peer), Key("Peer", peer[i].0)) == TrimSpace(peer[i].1)
  {
    QualifiedDistinct("Peer", peer);
    StoredHas(Stored(map[], iface, Qualified("Interface")), peer, Qualified("Peer"), i);
  }

  function SettingsOf(f: Fields): Settings {
    Settings(f.privateKey, Join(f.addresses, ", "), f.publicKey, f.presharedKey, f.host, PORT, f.mtu, f.keepalive)
  }

  lemma NumberIsRead(n: nat)
    ensures TrimSpace(Itoa(n)) == Itoa(n) && NumberOrZero(Itoa(n)) == n
  {
    DigitsAreTrimmed(Itoa(n));
    TrimTrimmed(Itoa(n));
    AtoiItoa(n);
  }

  lemma InterfaceSettings(f: Fields, o: Oracle)
    requires ValidFields(f, o)
    ensures var m := Collected(f);
            && Get(m, Key("Interface", "PrivateKey")) == f.privateKey
            && Get(m, Key("Interface", "Address")) == Join(f.addresses, ", ")
            && NumberOrZero(Get(m, Key("Interface", "MTU"))) == f.mtu
  {
    var iface, peer := InterfaceEntries(f), PeerEntries(f, EndpointText(f.host, PORT));
    InterfaceFits(f, o);
    InterfaceCollected(iface, peer, 0);
    InterfaceCollected(iface, peer, 1);
    InterfaceCollected(iface, peer, 2);
    JoinIsClean(f.addresses, o);
    NumberIsRead(f.mtu);
  }

  lemma PeerSettings(f: Fields, o: Oracle)
    requires ValidFields(f, o)
    ensures var m := Collected(f);
            && Get(m, Key("Peer", "PublicKey")) == f.publicKey
            && Get(m, Key("Peer", "PresharedKey")) == f.presharedKey
            && Get(m, Key("Peer", "Endpoint")) == TrimSpace(EndpointText(f.host, PORT))
            && NumberOrZero(Get(m, Key("Peer", "PersistentKeepalive"))) == f.keepalive
  {
    var iface, peer := InterfaceEntries(f), PeerEntries(f, EndpointText(f.host, PORT));
    EndpointIsPrinted(f, o);
    PeerFits(f, EndpointText(f.host, PORT), o);
    PeerCollected(iface, peer, 0);
    PeerCollected(iface, peer, 1);
    PeerCollected(iface, peer, 3);
    PeerCollected(iface, peer, 4);
    NumberIsRead(f.keepalive);
  }

  lemma {:induction false} TrimLeftConcat(a: string, b: string)
    requires b != "" && !IsSpace(b[0])
    ensures TrimLeft(a + b) == TrimLeft(a) + b
    decreases |a|
  {
    if a == "" {
      assert a + b == b;
    } else {
      assert (a + b)[0] == a[0] && (a + b)[1..] == a[1..] + b;
      TrimLeftConcat(a[1..], b);
    }
  }

  lemma SplitAnyEndpoint(host: string)
    requires '[' !in host && ']' !in host
    ensures var s := EndpointText(host, PORT);
            && SplitHostPort(s) == (if ':' in host then None else Some((host, Itoa(PORT))))
            && NumberOrZero(AfterLastColon(s)) == PORT
  {
    EndpointShape(host, PORT);
    LastIndexUnique(EndpointText(host, PORT), ':', |host|);
    NumberIsRead(PORT);
    assert EndpointText(host, PORT)[0] in EndpointText(host, PORT);
  }

  lemma TrimmedEndpoint(host: string)
    ensures TrimSpace(EndpointText(host, PORT)) == EndpointText(TrimLeft(host), PORT)
  {
    var port := ":" + Itoa(PORT);
    DigitsAreTrimmed(Itoa(PORT));
    TrimLeftConcat(host, port);
    assert EndpointText(host, PORT) == host + port && EndpointText(TrimLeft(host), PORT) == TrimLeft(host) + port;
    assert !IsSpace((TrimLeft(host) + port)[|TrimLeft(host) + port| - 1]);
  }

  lemma EndpointSettings(f: Fields, o: Oracle)
    requires ValidFields(f, o)
    ensures var s := TrimSpace(EndpointText(f.host, PORT));
            && SplitHostPort(s) == (if ':' in f.host then None else Some((TrimLeft(f.host), Itoa(PORT))))
            && NumberOrZero(AfterLastColon(s)) == PORT
  {
    TrimmedEndpoint(f.host);
    TrimLeftSlice(f.host);
    TrimLeftKeeps(f.host, ':');
    SplitAnyEndpoint(TrimLeft(f.host));
  }

  lemma {:induction false} TrimLeftKeeps(s: string, c: char)
    requires !IsSpace(c)
    ensures c in TrimLeft(s) <==> c in s
    decreases |s|
  {
    if s != "" && IsSpace(s[0]) {
      TrimLeftKeeps(s[1..], c);
    }
  }

  /** The normalized text of any accepted profile, read by the second reader. */
  lemma SettingsAreRead(f: Fields, o: Oracle)
    requires ValidFields(f, o)
    ensures ReadSettings(Render(f)) ==
            if ':' in f.host then Err else Ok(SettingsOf(f.(host := TrimLeft(f.host))))
  {
    EndpointIsPrinted(f, o);
    TextHasLines(f, EndpointText(f.host, PORT), o);
    LinesAreReadAgain(f, o);
    InterfaceSettings(f, o);
    PeerSettings(f, o);
    EndpointSettings(f, o);
  }

  /** What `WireGuardSettings` answers, for every text. */
  lemma SettingsAnswer(config: string, o: Oracle)
    requires Laws(o)
    ensures var fields := ParsedFields(config, true, o);
            WireGuardSettings(config, o) ==
            if fields.Err? || ':' in fields.value.host then Err
            else Ok(SettingsOf(fields.value.(host := TrimLeft(fields.value.host))))
  {
    if ParsedFields(config, true, o).Ok? {
      ParsedIsValid(config, true, o);
      SettingsAreRead(ParsedFields(config, true, o).value, o);
    }
  }

  /** `WireGuardSettings` gives back every parsed field under exactly the same condition. */
  lemma SettingsReadBackIff(data: string, strict: bool, o: Oracle)
    requires Laws(o) && ParsedFields(data, strict, o).Ok?
    ensures var f, p := ParsedFields(data, strict, o).value, Parse(data, strict, o).value;
            WireGuardSettings(p.config, o) == Ok(SettingsOf(f)) <==> Stable(f)
  {
    var f, p := ParsedFields(data, strict, o).value, Parse(data, strict, o).value;
    ParsedIsValid(data, strict, o);
    ParseIsIdempotentIff(data, strict, o);
    if ParsedFields(p.config, true, o).Ok? {
      var g := ParsedFields(p.config, true, o).value;
      ParsedIsValid(p.config, true, o);
      EndpointIsPrinted(f, o);
      ParsedText(f, EndpointText(f.host, PORT), o);
      HostReadBack(f, o);
      SettingsAreRead(g, o);
      assert !IsSpace(g.host[0]) ==> TrimLeft(g.host) == g.host;
    }
  }

  /** The exclusions are needed: inside brackets an endpoint may carry a colon or leading white space. */
  lemma BracketedHostIsAccepted(host: string, o: Oracle)
    requires host != "" && '[' !in host && ']' !in host && o.ip(host) == NotIp && HostText(host)
    ensures ValidateEndpoint("[" + host + "]:" + Itoa(PORT), o) == Ok(host)
  {
    DigitsAreTrimmed(Itoa(PORT));
    SplitBracketed(host, Itoa(PORT));
    AtoiItoa(PORT);
  }

  lemma BracketedIsPrinted(host: string)
    requires '\n' !in host && '\0' !in host
    ensures var s := "[" + host + "]:" + Itoa(PORT); PrintedValue(s) && TrimSpace(s) == s
  {
    var s := "[" + host + "]:" + Itoa(PORT);
    DigitsAreTrimmed(Itoa(PORT));
    assert s[0] == '[' && s[|s| - 1] == Itoa(PORT)[|Itoa(PORT)| - 1];
    TrimTrimmed(s);
  }

  /**
   So every profile whose host is a name occurs as the strict parser's answer,
   with a colon or leading white space in the host too, and for those the answer's
   own normalized text does not read back.
   */
  lemma UnstableProfilesOccur(f: Fields, o: Oracle)
    requires Laws(o) && ValidFields(f, o) && o.ip(f.host) == NotIp
    requires Utf8Size(ProfileText(f, "[" + f.host + "]:" + Itoa(PORT))) <= MAX_PROFILE
    ensures var data := ProfileText(f, "[" + f.host + "]:" + Itoa(PORT));
            && ParsedFields(data, true, o) == Ok(f)
            && (':' in f.host || IsSpace(f.host[0]) ==>
                Parse(Parse(data, true, o).value.config, true, o) != Parse(data, true, o))
  {
    var endpoint := "[" + f.host + "]:" + Itoa(PORT);
    BracketedIsPrinted(f.host);
    BracketedHostIsAccepted(f.host, o);
    ParsedText(f, endpoint, o);
    assert f.(host := f.host) == f;
    ParseIsIdempotentIff(ProfileText(f, endpoint), true, o);
  }
}
