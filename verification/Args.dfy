/** Podman `--publish` and `--volume` argument values: printing and parsing. */
module Args {
  import opened Text

  datatype Result<+T, +E> = Ok(value: T) | Err(error: E)

  type Port = n: nat | n < 0x1_0000

  datatype Protocol = Tcp | Udp | Sctp

  datatype PortMapping = PortMapping(hostPort: Port, containerPort: Port, protocol: Protocol, hostIp: Option<string>)

  datatype PortError = UnknownProtocol | MissingHostPort | InvalidContainerPort | InvalidHostPort

  function PrintProtocol(p: Protocol): string {
    match p
    case Tcp => "tcp"
    case Udp => "udp"
    case Sctp => "sctp"
  }

  function ParseProtocol(s: string): Option<Protocol> {
    var t := LowerAscii(Trim(s));
    if t == "tcp" then Some(Tcp) else if t == "udp" then Some(Udp) else if t == "sctp" then Some(Sctp) else None
  }

  /** `str::parse::<u16>`: one optional plus sign, then at least one digit, any number of leading zeros. */
  function ParsePort(s: string): Option<Port> {
    var d := if s != [] && s[0] == '+' then s[1..] else s;
    if d == [] || !AllDigits(d) || DecimalValue(d) > 0xFFFF then None else Some(DecimalValue(d))
  }

  function HostPrefix(ip: Option<string>): string {
    if ip.Some? then ip.value + ":" else ""
  }

  /** `to_publish_arg`. */
  function PrintPort(p: PortMapping): string {
    HostPrefix(p.hostIp) + Decimal(p.hostPort) + ":" + Decimal(p.containerPort) + "/" + PrintProtocol(p.protocol)
  }

  /** `PortMapping::parse`. */
  function ParsePortMapping(raw: string): Result<PortMapping, PortError> {
    match RSplitOnce(raw, '/')
    case None => ParseHead(raw, Tcp)
    case Some((head, proto)) =>
      match ParseProtocol(proto)
      case None => Err(UnknownProtocol)
      case Some(p) => ParseHead(head, p)
  }

  /** `[host_ip:]host_port:container_port`, split from the right. */
  function ParseHead(head: string, protocol: Protocol): Result<PortMapping, PortError> {
    match RSplitOnce(head, ':')
    case None => Err(MissingHostPort)
    case Some((rest, container)) =>
      match RSplitOnce(rest, ':')
      case None => ParsePorts(None, rest, container, protocol)
      case Some((ip, host)) => ParsePorts(Some(ip), host, container, protocol)
  }

  function ParsePorts(ip: Option<string>, host: string, container: string, protocol: Protocol): Result<PortMapping, PortError> {
    match ParsePort(container)
    case None => Err(InvalidContainerPort)
    case Some(c) =>
      match ParsePort(host)
      case None => Err(InvalidHostPort)
      case Some(h) => Ok(PortMapping(h, c, protocol, ip))
  }

  // ----- The language of publish arguments -----

  /** A protocol suffix: absent for TCP, or a slash and a protocol name. */
  predicate SuffixDenotes(suffix: string, p: Protocol) {
    if suffix == [] then p == Tcp
    else suffix[0] == '/' && '/' !in suffix[1..] && ParseProtocol(suffix[1..]) == Some(p)
  }

  function Head(ip: Option<string>, host: string, container: string): string {
    HostPrefix(ip) + host + ":" + container
  }

  /** `raw` is `[host_ip:]host:container[suffix]` for these parts, and they denote `m`. Without a suffix, the
      host address must hold no slash. */
  predicate Spells(raw: string, host: string, container: string, suffix: string, m: PortMapping) {
    && raw == Head(m.hostIp, host, container) + suffix
    && ParsePort(host) == Some(m.hostPort)
    && ParsePort(container) == Some(m.containerPort)
    && SuffixDenotes(suffix, m.protocol)
    && (suffix == [] && m.hostIp.Some? ==> '/' !in m.hostIp.value)
  }

  lemma {:induction false} PortTextPlain(s: string)
    requires ParsePort(s).Some?
    ensures ':' !in s && '/' !in s
  {
  }

  lemma {:induction false} ParsePrintedPort(n: Port)
    ensures ParsePort(Decimal(n)) == Some(n)
  {
    DecimalRoundTrip(n);
    assert IsDigit(Decimal(n)[0]);
  }

  /** A port text is at least one digit, after an optional plus sign, with a value below 65536. */
  lemma {:induction false} PortTexts(s: string, n: nat)
    ensures ParsePort(s).Some? && ParsePort(s).value == n
       <==> || (s != [] && AllDigits(s) && DecimalValue(s) == n < 0x1_0000)
            || (|s| > 1 && s[0] == '+' && AllDigits(s[1..]) && DecimalValue(s[1..]) == n < 0x1_0000)
  {
  }

  /** Zeros in front of a port text change nothing. */
  lemma {:induction false} LeadingZero(d: string)
    requires d != [] && AllDigits(d)
    ensures ParsePort("0" + d) == ParsePort(d)
  {
    ZeroValue(d);
    assert IsDigit(d[0]);
  }

  lemma {:induction false} ZeroValue(d: string)
    requires AllDigits(d)
    ensures AllDigits("0" + d) && DecimalValue("0" + d) == DecimalValue(d)
  {
    var z := "0" + d;
    if d == [] {
      assert z == ['0'] && z[..0] == [];
    } else {
      ZeroValue(d[..|d| - 1]);
      assert z[..|z| - 1] == "0" + d[..|d| - 1];
    }
  }

  /** A protocol text is the protocol's name in any case, with any blanks around it. */
  lemma {:induction false} ProtocolTexts(s: string, p: Protocol)
    ensures ParseProtocol(s) == Some(p) <==> LowerAscii(Trim(s)) == PrintProtocol(p)
  {
    ProtocolNames();
  }

  lemma {:induction false} ProtocolNames()
    ensures "tcp" != "udp" && "tcp" != "sctp" && "udp" != "sctp"
  {
    assert "tcp"[0] == 't' && "udp"[0] == 'u' && "sctp"[0] == 's';
  }

  lemma {:induction false} HostSplits(ip: Option<string>, host: string)
    requires ':' !in host
    ensures RSplitOnce(HostPrefix(ip) + host, ':') == if ip.Some? then Some((ip.value, host)) else None
    ensures ip.None? ==> HostPrefix(ip) + host == host
  {
    if ip.Some? {
      RSplitOnceAt(ip.value, ':', host);
      assert HostPrefix(ip) + host == ip.value + [':'] + host;
    } else {
      assert HostPrefix(ip) + host == host;
    }
  }

  lemma {:induction false} HeadSplits(ip: Option<string>, host: string, container: string, p: Protocol)
    requires ':' !in host && ':' !in container
    ensures ParseHead(Head(ip, host, container), p) == ParsePorts(ip, host, container, p)
  {
    var rest := HostPrefix(ip) + host;
    assert Head(ip, host, container) == rest + [':'] + container;
    RSplitOnceAt(rest, ':', container);
    HostSplits(ip, host);
  }

  /** What becomes of an address, a host port text and a container port text: the container port is looked at first. */
  lemma {:induction false} HeadOutcome(ip: Option<string>, host: string, container: string, p: Protocol)
    requires ':' !in host && ':' !in container
    ensures
      var r := ParseHead(Head(ip, host, container), p);
      && (r == Err(InvalidContainerPort) <==> ParsePort(container) == None)
      && (r == Err(InvalidHostPort) <==> ParsePort(container) != None && ParsePort(host) == None)
      && (r.Ok? <==> ParsePort(container) != None && ParsePort(host) != None)
  {
    HeadSplits(ip, host, container, p);
  }

  lemma {:induction false} HeadSpelled(host: string, container: string, m: PortMapping)
    requires ParsePort(host) == Some(m.hostPort) && ParsePort(container) == Some(m.containerPort)
    ensures ParseHead(Head(m.hostIp, host, container), m.protocol) == Ok(m)
  {
    PortTextPlain(host);
    PortTextPlain(container);
    HeadSplits(m.hostIp, host, container, m.protocol);
  }

  /** The protocol is looked at before anything else. */
  lemma {:induction false} ProtocolFirst(raw: string, head: string, proto: string)
    requires raw == head + ['/'] + proto && '/' !in proto
    ensures ParsePortMapping(raw)
         == if ParseProtocol(proto).None? then Err(UnknownProtocol) else ParseHead(head, ParseProtocol(proto).value)
  {
    RSplitOnceAt(head, '/', proto);
  }

  lemma {:induction false} SuffixSplits(raw: string, head: string, suffix: string, p: Protocol)
    requires raw == head + suffix && SuffixDenotes(suffix, p) && (suffix == [] ==> '/' !in head)
    ensures ParsePortMapping(raw) == ParseHead(head, p)
  {
    if suffix == [] {
      assert raw == head;
    } else {
      assert raw == head + ['/'] + suffix[1..];
      ProtocolFirst(raw, head, suffix[1..]);
    }
  }

  lemma {:induction false} HeadSlashes(ip: Option<string>, host: string, container: string)
    requires '/' !in host && '/' !in container
    ensures '/' in Head(ip, host, container) <==> ip.Some? && '/' in ip.value
  {
  }

  /** Every spelling of a mapping parses to it. */
  lemma {:induction false} SpellingParses(raw: string, host: string, container: string, suffix: string, m: PortMapping)
    requires Spells(raw, host, container, suffix, m)
    ensures ParsePortMapping(raw) == Ok(m)
  {
    PortTextPlain(host);
    PortTextPlain(container);
    HeadSlashes(m.hostIp, host, container);
    SuffixSplits(raw, Head(m.hostIp, host, container), suffix, m.protocol);
    HeadSpelled(host, container, m);
  }

  lemma {:induction false} PortsParsed(ip: Option<string>, host: string, container: string, protocol: Protocol)
    requires ParsePorts(ip, host, container, protocol).Ok?
    ensures
      var m := ParsePorts(ip, host, container, protocol).value;
      && m.hostIp == ip && m.protocol == protocol
      && ParsePort(host) == Some(m.hostPort) && ParsePort(container) == Some(m.containerPort)
  {
  }

  lemma {:induction false} HeadIsSpelled(head: string, protocol: Protocol) returns (host: string, container: string)
    requires ParseHead(head, protocol).Ok?
    ensures var m := ParseHead(head, protocol).value;
            && head == Head(m.hostIp, host, container)
            && ParsePort(host) == Some(m.hostPort) && ParsePort(container) == Some(m.containerPort)
            && m.protocol == protocol
  {
    var (rest, c) := RSplitOnce(head, ':').value;
    container := c;
    match RSplitOnce(rest, ':')
    case None =>
      host := rest;
      PortsParsed(None, host, container, protocol);
      assert HostPrefix(None) + host == host;
    case Some((i, h)) =>
      host := h;
      PortsParsed(Some(i), host, container, protocol);
      assert HostPrefix(Some(i)) + host == rest;
  }

  lemma {:induction false} BareIsSpelled(raw: string) returns (host: string, container: string)
    requires '/' !in raw && ParseHead(raw, Tcp).Ok?
    ensures Spells(raw, host, container, [], ParseHead(raw, Tcp).value)
  {
    host, container := HeadIsSpelled(raw, Tcp);
    var m := ParseHead(raw, Tcp).value;
    PortTextPlain(host);
    PortTextPlain(container);
    HeadSlashes(m.hostIp, host, container);
    assert raw == Head(m.hostIp, host, container) + [];
  }

  lemma {:induction false} SuffixedIsSpelled(head: string, proto: string, p: Protocol)
    returns (host: string, container: string)
    requires '/' !in proto && ParseProtocol(proto) == Some(p) && ParseHead(head, p).Ok?
    ensures Spells(head + ['/'] + proto, host, container, ['/'] + proto, ParseHead(head, p).value)
  {
    host, container := HeadIsSpelled(head, p);
    assert head + ['/'] + proto == head + (['/'] + proto);
  }

  /** Everything that parses to a mapping is a spelling of it. */
  lemma {:induction false} ParsedIsSpelled(raw: string) returns (host: string, container: string, suffix: string)
    requires ParsePortMapping(raw).Ok?
    ensures Spells(raw, host, container, suffix, ParsePortMapping(raw).value)
  {
    match RSplitOnce(raw, '/')
    case None =>
      host, container := BareIsSpelled(raw);
      suffix := [];
    case Some((head, proto)) =>
      host, container := SuffixedIsSpelled(head, proto, ParseProtocol(proto).value);
      suffix := ['/'] + proto;
  }

  lemma {:induction false} ParsePrintedProtocol(p: Protocol)
    ensures ParseProtocol(PrintProtocol(p)) == Some(p) && '/' !in PrintProtocol(p)
  {
    LowerCaseFixed(PrintProtocol(p));
  }

  /** Parsing a printed mapping gives it back, whatever the host string holds. */
  lemma {:induction false} PortRoundTrip(p: PortMapping)
    ensures ParsePortMapping(PrintPort(p)) == Ok(p)
  {
    ParsePrintedPort(p.hostPort);
    ParsePrintedPort(p.containerPort);
    ParsePrintedProtocol(p.protocol);
    var suffix := "/" + PrintProtocol(p.protocol);
    assert suffix[1..] == PrintProtocol(p.protocol);
    assert PrintPort(p) == Head(p.hostIp, Decimal(p.hostPort), Decimal(p.containerPort)) + suffix;
    SpellingParses(PrintPort(p), Decimal(p.hostPort), Decimal(p.containerPort), suffix, p);
  }

  /** Without a slash the protocol is TCP. */
  lemma {:induction false} BareIsTcp(raw: string)
    requires '/' !in raw
    ensures ParsePortMapping(raw) == ParseHead(raw, Tcp)
  {
  }

  /** One part alone is missing the host port. */
  lemma {:induction false} OnePartRefused(head: string, p: Protocol)
    ensures ParseHead(head, p) == Err(MissingHostPort) <==> ':' !in head
  {
  }

  /** A printed mapping, read from the right: the protocol's name, and both ports without leading zeros. */
  lemma {:induction false} PortPrinted(p: PortMapping)
    ensures
      var name := match p.protocol case Tcp => "tcp" case Udp => "udp" case Sctp => "sctp";
      RSplitOnce(PrintPort(p), '/') == Some((Head(p.hostIp, Decimal(p.hostPort), Decimal(p.containerPort)), name))
    ensures Decimal(p.hostPort)[0] == '0' ==> p.hostPort == 0
    ensures Decimal(p.containerPort)[0] == '0' ==> p.containerPort == 0
  {
    var name := PrintProtocol(p.protocol);
    ParsePrintedProtocol(p.protocol);
    RSplitOnceAt(Head(p.hostIp, Decimal(p.hostPort), Decimal(p.containerPort)), '/', name);
    DecimalPlain(p.hostPort);
    DecimalPlain(p.containerPort);
  }

  // ----- Volumes -----

  datatype VolumeMount = VolumeMount(source: string, destination: string, readOnly: bool)

  datatype VolumeError = InvalidMode(mode: string) | Malformed

  /** `to_volume_arg`. */
  function PrintVolume(v: VolumeMount): string {
    v.source + ":" + v.destination + if v.readOnly then ":ro" else ""
  }

  /** `VolumeMount::parse`. */
  function ParseVolume(raw: string): Result<VolumeMount, VolumeError> {
    match SplitOnce(raw, ':')
    case None => Err(Malformed)
    case Some((source, rest)) =>
      match SplitOnce(rest, ':')
      case None => Ok(VolumeMount(source, rest, false))
      case Some((destination, mode)) => ParseMode(source, destination, mode)
  }

  function ParseMode(source: string, destination: string, mode: string): Result<VolumeMount, VolumeError> {
    var m := LowerAscii(mode);
    if m == "ro" then Ok(VolumeMount(source, destination, true))
    else if m == "rw" || m == "" then Ok(VolumeMount(source, destination, false))
    else Err(InvalidMode(m))
  }

  /** A printed mount, read from the right: `ro` for a read-only one, otherwise the destination. */
  lemma {:induction false} VolumePrinted(v: VolumeMount)
    ensures v.readOnly ==> RSplitOnce(PrintVolume(v), ':') == Some((v.source + ":" + v.destination, "ro"))
    ensures !v.readOnly && ':' !in v.destination ==> RSplitOnce(PrintVolume(v), ':') == Some((v.source, v.destination))
  {
    var both := v.source + ":" + v.destination;
    if v.readOnly {
      RSplitOnceAt(both, ':', "ro");
      assert both + ":ro" == both + [':'] + "ro";
    } else if ':' !in v.destination {
      RSplitOnceAt(v.source, ':', v.destination);
      assert both + "" == v.source + [':'] + v.destination;
    }
  }

  predicate ColonFree(v: VolumeMount) {
    ':' !in v.source && ':' !in v.destination
  }

  /** The mode part of an argument: none, or a colon and `ro`, `rw` or nothing, in any case. */
  predicate ModeDenotes(suffix: string, readOnly: bool) {
    || (suffix == [] && !readOnly)
    || (suffix != [] && suffix[0] == ':' && LowerAscii(suffix[1..]) == "ro" && readOnly)
    || (suffix != [] && suffix[0] == ':' && (LowerAscii(suffix[1..]) == "rw" || suffix[1..] == "") && !readOnly)
  }

  lemma {:induction false} ModeNames()
    ensures "ro" != "rw" && "ro" != "" && "rw" != ""
  {
    assert "ro"[1] == 'o' && "rw"[1] == 'w';
  }

  /** `raw` is the paths of `v`, which hold no colon, and a mode part that denotes its mode. */
  predicate SpellsVolume(raw: string, v: VolumeMount, suffix: string) {
    ColonFree(v) && ModeDenotes(suffix, v.readOnly) && raw == v.source + [':'] + (v.destination + suffix)
  }

  lemma {:induction false} ModeParsed(source: string, destination: string, mode: string, v: VolumeMount)
    ensures ParseMode(source, destination, mode) == Ok(v)
       <==> v.source == source && v.destination == destination && ModeDenotes([':'] + mode, v.readOnly)
  {
    ModeNames();
    assert ([':'] + mode)[1..] == mode;
  }

  lemma {:induction false} TwoParts(source: string, destination: string)
    requires ':' !in source && ':' !in destination
    ensures ParseVolume(source + [':'] + destination) == Ok(VolumeMount(source, destination, false))
  {
    SplitOnceAt(source, ':', destination);
  }

  lemma {:induction false} ThreeParts(source: string, destination: string, mode: string)
    requires ':' !in source && ':' !in destination
    ensures ParseVolume(source + [':'] + (destination + [':'] + mode)) == ParseMode(source, destination, mode)
  {
    SplitOnceAt(source, ':', destination + [':'] + mode);
    SplitOnceAt(destination, ':', mode);
  }

  /** Every `source:destination` with a mode part parses to the mount it denotes. */
  lemma {:induction false} VolumeSpellingParses(raw: string, v: VolumeMount, suffix: string)
    requires SpellsVolume(raw, v, suffix)
    ensures ParseVolume(raw) == Ok(v)
  {
    if suffix == [] {
      TwoParts(v.source, v.destination);
      assert v.destination + suffix == v.destination;
    } else {
      var mode := suffix[1..];
      assert suffix == [':'] + mode && v.destination + suffix == v.destination + [':'] + mode;
      ThreeParts(v.source, v.destination, mode);
      ModeParsed(v.source, v.destination, mode, v);
    }
  }

  lemma {:induction false} NoModeSpelled(source: string, destination: string)
    requires ':' !in source && ':' !in destination
    ensures SpellsVolume(source + [':'] + destination, VolumeMount(source, destination, false), [])
  {
    assert destination + [] == destination;
  }

  lemma {:induction false} ModeSpelled(source: string, destination: string, mode: string, v: VolumeMount)
    requires ':' !in source && ':' !in destination && ParseMode(source, destination, mode) == Ok(v)
    ensures SpellsVolume(source + [':'] + (destination + [':'] + mode), v, [':'] + mode)
  {
    ModeParsed(source, destination, mode, v);
    assert destination + [':'] + mode == destination + ([':'] + mode);
  }

  /** Whatever parses to a mount is such a text for it, and its paths hold no colon. */
  lemma {:induction false} ParsedVolumeIsSpelled(raw: string) returns (suffix: string)
    requires ParseVolume(raw).Ok?
    ensures SpellsVolume(raw, ParseVolume(raw).value, suffix)
  {
    var (source, rest) := SplitOnce(raw, ':').value;
    match SplitOnce(rest, ':')
    case None =>
      suffix := [];
      NoModeSpelled(source, rest);
    case Some((destination, mode)) =>
      suffix := [':'] + mode;
      ModeSpelled(source, destination, mode, ParseVolume(raw).value);
  }

  /** What is refused: a text without a colon, or one whose third part, colons and all, is no mode. */
  lemma {:induction false} VolumeErrors(raw: string, source: string, destination: string, mode: string)
    ensures ParseVolume(raw) == Err(Malformed) <==> ':' !in raw
    ensures
      && ':' !in source && ':' !in destination && raw == source + [':'] + (destination + [':'] + mode)
      && LowerAscii(mode) != "ro" && LowerAscii(mode) != "rw" && mode != ""
      ==> ParseVolume(raw) == Err(InvalidMode(LowerAscii(mode)))
  {
    if ':' !in source && ':' !in destination { ThreeParts(source, destination, mode); }
  }

  lemma {:induction false} PrintedSpells(v: VolumeMount)
    requires ColonFree(v)
    ensures SpellsVolume(PrintVolume(v), v, if v.readOnly then ":ro" else "")
  {
    var suffix := if v.readOnly then ":ro" else "";
    assert LowerAscii("ro") == "ro" && ":ro"[1..] == "ro";
    assert PrintVolume(v) == v.source + [':'] + (v.destination + suffix);
  }

  lemma {:induction false} ColonFreeRoundTrip(v: VolumeMount)
    requires ColonFree(v)
    ensures ParseVolume(PrintVolume(v)) == Ok(v)
  {
    PrintedSpells(v);
    VolumeSpellingParses(PrintVolume(v), v, if v.readOnly then ":ro" else "");
  }

  lemma {:induction false} ParsedColonFree(raw: string)
    requires ParseVolume(raw).Ok?
    ensures ColonFree(ParseVolume(raw).value)
  {
    var suffix := ParsedVolumeIsSpelled(raw);
  }

  /** A mount survives printing and parsing exactly when neither path holds a colon. */
  lemma {:induction false} VolumeRoundTrip(v: VolumeMount)
    ensures ParseVolume(PrintVolume(v)) == Ok(v) <==> ColonFree(v)
  {
    if ColonFree(v) {
      ColonFreeRoundTrip(v);
    } else if ParseVolume(PrintVolume(v)).Ok? {
      ParsedColonFree(PrintVolume(v));
    }
  }

  /** Printing and re-parsing anything that was parsed changes nothing. */
  lemma {:induction false} VolumeReparse(raw: string)
    requires ParseVolume(raw).Ok?
    ensures ParseVolume(PrintVolume(ParseVolume(raw).value)) == ParseVolume(raw)
  {
    ParsedColonFree(raw);
    ColonFreeRoundTrip(ParseVolume(raw).value);
  }
}
