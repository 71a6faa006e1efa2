/** Port strings: the printer of named ports and the parser that reads them back. */
module Ports {
  import opened Options
  import opened Colons

  const MAX_PORT := 65535

  datatype Protocol = TCP | UDP | SCTP

  datatype NamedPort = NamedPort(containerPort: int, hostPort: int, hostIP: string, protocol: string)

  datatype PortMapping = PortMapping(hostIP: string, hostPort: int, containerPort: int, protocol: Protocol)

  // ---- Decimal numbers ----

  predicate IsDigit(ch: char) {
    '0' <= ch <= '9'
  }

  /** The characters from `from` on are digits. */
  predicate AllDigits(s: string, from: nat) {
    |s| <= from || (IsDigit(s[|s| - 1]) && AllDigits(s[..|s| - 1], from))
  }

  function DigitOf(ch: char): nat
    requires IsDigit(ch)
  {
    ch as nat - '0' as nat
  }

  function Digits(n: nat): (s: string)
    ensures s != "" && AllDigits(s, 0)
  {
    if n < 10 then [('0' as nat + n) as char]
    else
      var s := Digits(n / 10) + [('0' as nat + n % 10) as char];
      assert s[..|s| - 1] == Digits(n / 10);
      s
  }

  /** `%d` */
  function FormatInt(n: int): string {
    if n < 0 then "-" + Digits(-n) else Digits(n)
  }

  function Magnitude(s: string, from: nat): nat
    requires AllDigits(s, from)
  {
    if |s| <= from then 0 else 10 * Magnitude(s[..|s| - 1], from) + DigitOf(s[|s| - 1])
  }

  predicate IsInt32(n: int) {
    -0x8000_0000 <= n < 0x8000_0000
  }

  /** `strconv.ParseInt(s, 10, 32)`: an optional sign, digits, and a value that fits. */
  function ParseInt32(s: string): Option<int> {
    var from := if s != "" && (s[0] == '-' || s[0] == '+') then 1 else 0;
    if |s| == from || !AllDigits(s, from) then None
    else
      var n := if s[0] == '-' then 0 - Magnitude(s, from) else Magnitude(s, from);
      if IsInt32(n) then Some(n) else None
  }

  lemma {:induction false} MagnitudeOfDigits(n: nat)
    ensures Magnitude(Digits(n), 0) == n
  {
    if n >= 10 {
      var s := Digits(n);
      MagnitudeOfDigits(n / 10);
      assert s[..|s| - 1] == Digits(n / 10);
    }
  }

  lemma {:induction false} MagnitudeAfterSign(digits: string)
    requires AllDigits(digits, 0)
    ensures AllDigits("-" + digits, 1) && Magnitude("-" + digits, 1) == Magnitude(digits, 0)
  {
    if digits != "" {
      var s := "-" + digits;
      assert s[..|s| - 1] == "-" + digits[..|digits| - 1];
      MagnitudeAfterSign(digits[..|digits| - 1]);
    }
  }

  lemma {:induction false} ParseDigits(digits: string)
    requires AllDigits(digits, 0) && digits != ""
    ensures ParseInt32(digits) == if IsInt32(Magnitude(digits, 0)) then Some(Magnitude(digits, 0)) else None
    ensures ParseInt32("-" + digits)
         == if IsInt32(0 - Magnitude(digits, 0)) then Some(0 - Magnitude(digits, 0)) else None
  {
    DigitAt(digits, 0);
    MagnitudeAfterSign(digits);
  }

  /** A printed number is read back exactly when it fits in 32 bits. */
  lemma {:induction false} ParseFormatted(n: int)
    ensures ParseInt32(FormatInt(n)) == if IsInt32(n) then Some(n) else None
  {
    var m := if n < 0 then -n else n;
    MagnitudeOfDigits(m);
    ParseDigits(Digits(m));
  }

  lemma {:induction false} DigitAt(s: string, k: nat)
    requires AllDigits(s, 0) && k < |s|
    ensures IsDigit(s[k])
  {
    if k < |s| - 1 { DigitAt(s[..|s| - 1], k); }
  }

  lemma {:induction false} FormattedHasNo(n: int, ch: char)
    requires !IsDigit(ch) && ch != '-'
    ensures ch !in FormatInt(n)
  {
    var digits := Digits(if n < 0 then -n else n);
    forall k | 0 <= k < |digits| ensures digits[k] != ch {
      DigitAt(digits, k);
    }
  }

  // ---- Splitting ----

  /** `strings.LastIndex(s, "/")` */
  function LastSlash(s: string): (k: int)
    ensures -1 <= k < |s| && (k >= 0 ==> s[k] == '/') && forall i :: k < i < |s| ==> s[i] != '/'
  {
    if s == "" then -1
    else if s[|s| - 1] == '/' then |s| - 1
    else LastSlash(s[..|s| - 1])
  }

  /** Lower-casing of letters; no other character becomes a letter of a protocol name. */
  function LowerChar(ch: char): char {
    if 'A' <= ch <= 'Z' then (ch as nat + 32) as char else ch
  }

  function ToLower(s: string): (r: string)
    ensures |r| == |s| && forall i :: 0 <= i < |s| ==> r[i] == LowerChar(s[i])
  {
    seq(|s|, i requires 0 <= i < |s| => LowerChar(s[i]))
  }

  // ---- The parser ----

  function SplitProto(s: string): (string, string) {
    var k := LastSlash(s);
    if k >= 0 then (ToLower(s[k + 1..]), s[..k]) else ("tcp", s)
  }

  function ParseProto(proto: string): Option<Protocol> {
    if proto == "tcp" then Some(TCP)
    else if proto == "udp" then Some(UDP)
    else if proto == "sctp" then Some(SCTP)
    else None
  }

  function ParsePortParts(protocol: Protocol, parts: seq<string>): Option<PortMapping> {
    if |parts| == 1 then
      var cp := ParseInt32(parts[0]);
      if cp.None? then None else Some(PortMapping("", 0, cp.value, protocol))
    else if |parts| == 2 then
      HostAndContainer("", parts[0], parts[1], protocol)
    else if |parts| == 3 then
      HostAndContainer(parts[0], parts[1], parts[2], protocol)
    else None
  }

  function HostAndContainer(ip: string, host: string, container: string, protocol: Protocol): Option<PortMapping> {
    var hp := ParseInt32(host);
    var cp := ParseInt32(container);
    if hp.None? || cp.None? then None else Some(PortMapping(ip, hp.value, cp.value, protocol))
  }

  function ParsePort(s: string): Option<PortMapping> {
    var (proto, core) := SplitProto(s);
    var p := ParseProto(proto);
    if p.None? then None else ParsePortParts(p.value, Split(core))
  }

  // ---- The printer ----

  predicate PrintsProtocol(np: NamedPort) {
    np.protocol != "" && np.protocol != "tcp"
  }

  function FormatCore(np: NamedPort): string {
    if np.hostPort == 0 then FormatInt(np.containerPort)
    else if np.hostIP != "" then np.hostIP + ":" + FormatInt(np.hostPort) + ":" + FormatInt(np.containerPort)
    else FormatInt(np.hostPort) + ":" + FormatInt(np.containerPort)
  }

  function FormatNamedPort(np: NamedPort): string {
    if PrintsProtocol(np) then FormatCore(np) + "/" + np.protocol else FormatCore(np)
  }

  // ---- The mapping built directly from a named port ----

  function ClampPort(p: int): int {
    if p > MAX_PORT then MAX_PORT else if p < 0 then 0 else p
  }

  function DirectProtocol(protocol: string): Protocol {
    var p := ToLower(protocol);
    if p == "udp" then UDP else if p == "sctp" then SCTP else TCP
  }

  function DirectMapping(np: NamedPort): PortMapping {
    PortMapping(
      np.hostIP,
      if np.hostPort > 0 then ClampPort(np.hostPort) else 0,
      ClampPort(np.containerPort),
      DirectProtocol(np.protocol))
  }

  // ---- The round trip ----

  predicate KnownProtocol(protocol: string) {
    protocol == "" || ParseProto(ToLower(protocol)).Some?
  }

  predicate ValidPort(p: int) {
    0 <= p <= MAX_PORT
  }

  /** A slash in the address is harmless only when a protocol is printed after it. */
  predicate PrintableAddress(np: NamedPort) {
    if np.hostPort == 0 then np.hostIP == ""
    else ':' !in np.hostIP && ('/' in np.hostIP ==> PrintsProtocol(np))
  }

  predicate Printable(np: NamedPort) {
    ValidPort(np.containerPort) && ValidPort(np.hostPort) && KnownProtocol(np.protocol) && PrintableAddress(np)
  }

  lemma {:induction false} LastSlashAfter(core: string, tail: string)
    requires '/' !in tail
    ensures LastSlash(core + "/" + tail) == |core|
  {
    var s := core + "/" + tail;
    assert s[|core|] == '/';
    assert forall i :: |core| < i < |s| ==> s[i] == tail[i - |core| - 1];
  }

  lemma {:induction false} CoreSplits(np: NamedPort)
    ensures Split(FormatCore(np)) ==
      (if np.hostPort == 0 then [] else (if np.hostIP == "" then [] else Split(np.hostIP)) + [FormatInt(np.hostPort)])
      + [FormatInt(np.containerPort)]
  {
    var hp, cp := FormatInt(np.hostPort), FormatInt(np.containerPort);
    FormattedHasNo(np.hostPort, ':');
    FormattedHasNo(np.containerPort, ':');
    SplitField(hp);
    SplitField(cp);
    SplitJoined(np.hostIP + ":" + hp, cp);
    SplitJoined(np.hostIP, hp);
    SplitJoined(hp, cp);
  }

  /** What the fields of the printed core are read as. */
  function ReadBack(np: NamedPort, protocol: Protocol): Option<PortMapping> {
    if !IsInt32(np.containerPort) || !IsInt32(np.hostPort) then None
    else if np.hostPort == 0 then Some(PortMapping("", 0, np.containerPort, protocol))
    else if ':' in np.hostIP then None
    else Some(PortMapping(np.hostIP, np.hostPort, np.containerPort, protocol))
  }

  lemma {:induction false} CoreReadBack(np: NamedPort, protocol: Protocol)
    ensures ParsePortParts(protocol, Split(FormatCore(np))) == ReadBack(np, protocol)
  {
    CoreSplits(np);
    ParseFormatted(np.hostPort);
    ParseFormatted(np.containerPort);
    if ':' in np.hostIP {
      SplitCounts(np.hostIP);
    } else {
      SplitField(np.hostIP);
    }
  }

  lemma {:induction false} CoreSlashes(np: NamedPort)
    ensures '/' in FormatCore(np) <==> np.hostPort != 0 && '/' in np.hostIP
  {
    FormattedHasNo(np.hostPort, '/');
    FormattedHasNo(np.containerPort, '/');
  }

  /** With a protocol printed, its slash is the last one. */
  lemma {:induction false} PrintedProtocolRead(np: NamedPort)
    requires PrintsProtocol(np) && '/' !in np.protocol
    ensures ParsePort(FormatNamedPort(np)) ==
      var p := ParseProto(ToLower(np.protocol)); if p.None? then None else ReadBack(np, p.value)
  {
    var core := FormatCore(np);
    var text := core + "/" + np.protocol;
    LastSlashAfter(core, np.protocol);
    assert text[..|core|] == core && text[|core| + 1..] == np.protocol;
    var p := ParseProto(ToLower(np.protocol));
    if p.Some? { CoreReadBack(np, p.value); }
  }

  /** Without one, a slash in the address makes the rest of the string the protocol, which is none. */
  lemma {:induction false} UnprintedProtocolRead(np: NamedPort)
    requires !PrintsProtocol(np)
    ensures ParsePort(FormatNamedPort(np)) ==
      if np.hostPort != 0 && '/' in np.hostIP then None else ReadBack(np, TCP)
  {
    var core := FormatCore(np);
    CoreSlashes(np);
    CoreReadBack(np, TCP);
    if np.hostPort != 0 && '/' in np.hostIP {
      AddressSlashUnread(np);
    }
  }

  lemma {:induction false} ColonIsNoProtocol(s: string, i: nat)
    requires i < |s| && s[i] == ':'
    ensures ParseProto(ToLower(s)) == None
  {
    assert ToLower(s)[i] == ':';
  }

  /** The last slash of an address followed by something without one. */
  lemma {:induction false} LastSlashWithin(a: string, rest: string)
    requires '/' in a && '/' !in rest
    ensures 0 <= LastSlash(a + rest) < |a|
  {
    var s := a + rest;
    var i :| 0 <= i < |a| && a[i] == '/';
    assert s[i] == '/';
    assert forall j :: |a| <= j < |s| ==> s[j] == rest[j - |a|];
  }

  lemma {:induction false} AddressSlashUnread(np: NamedPort)
    requires np.hostPort != 0 && '/' in np.hostIP
    ensures ParseProto(SplitProto(FormatCore(np)).0) == None && LastSlash(FormatCore(np)) >= 0
  {
    var core, n := FormatCore(np), |np.hostIP|;
    var rest := ":" + FormatInt(np.hostPort) + ":" + FormatInt(np.containerPort);
    FormattedHasNo(np.hostPort, '/');
    FormattedHasNo(np.containerPort, '/');
    assert core == np.hostIP + rest;
    LastSlashWithin(np.hostIP, rest);
    var k := LastSlash(core);
    assert core[n] == ':' && core[k + 1..][n - k - 1] == core[n];
    ColonIsNoProtocol(core[k + 1..], n - k - 1);
  }

  /** The mapping read back is the direct one exactly when the ports are in range and the address was printed. */
  lemma {:induction false} ReadBackIsDirect(np: NamedPort)
    ensures ReadBack(np, DirectProtocol(np.protocol)) == Some(DirectMapping(np)) <==>
      ValidPort(np.containerPort) && ValidPort(np.hostPort)
      && (if np.hostPort == 0 then np.hostIP == "" else ':' !in np.hostIP)
  { }

  lemma {:induction false} LowerKeepsSlash(s: string)
    ensures '/' in s ==> '/' in ToLower(s)
  {
    forall i | 0 <= i < |s| && s[i] == '/' ensures '/' in ToLower(s) {
      assert ToLower(s)[i] == '/';
    }
  }

  lemma {:induction false} KnownHasNoSlash(protocol: string)
    ensures KnownProtocol(protocol) ==> '/' !in protocol
  {
    LowerKeepsSlash(protocol);
  }

  lemma {:induction false} PrintedIsDirect(np: NamedPort, read: Option<PortMapping>)
    requires PrintsProtocol(np)
    requires read == var p := ParseProto(ToLower(np.protocol)); if p.None? then None else ReadBack(np, p.value)
    ensures read == Some(DirectMapping(np)) <==> Printable(np)
  {
    ReadBackIsDirect(np);
  }

  lemma {:induction false} UnprintedIsDirect(np: NamedPort, read: Option<PortMapping>)
    requires !PrintsProtocol(np)
    requires read == if np.hostPort != 0 && '/' in np.hostIP then None else ReadBack(np, TCP)
    ensures read == Some(DirectMapping(np)) <==> Printable(np)
  {
    ReadBackIsDirect(np);
    assert ToLower("tcp") == "tcp";
  }

  // ---- Protocols that contain a slash ----

  lemma {:induction false} SlashIsNoDigit(s: string, from: nat, i: nat)
    requires from <= i < |s| && s[i] == '/'
    ensures !AllDigits(s, from)
  {
    if i < |s| - 1 { SlashIsNoDigit(s[..|s| - 1], from, i); }
  }

  lemma {:induction false} SlashIsNoInt(a: string, b: string)
    ensures ParseInt32(a + "/" + b) == None
  {
    var s := a + "/" + b;
    var from := if s[0] == '-' || s[0] == '+' then 1 else 0;
    assert s[|a|] == '/';
    SlashIsNoDigit(s, from, |a|);
  }

  /** What comes before and after the last slash of the protocol. */
  function BeforeSlash(protocol: string): string {
    var k := LastSlash(protocol);
    if k >= 0 then protocol[..k] else ""
  }

  function AfterSlash(protocol: string): string {
    var k := LastSlash(protocol);
    protocol[k + 1..]
  }

  /** Two slashes: the container port and what follows it run together into one field. */
  lemma {:induction false} SlashedFields(np: NamedPort, before: string)
    ensures var p, q, cp := Split(FormatCore(np)), Split(before), FormatInt(np.containerPort);
      Split(FormatCore(np) + "/" + before) == p[..|p| - 1] + [cp + "/" + q[0]] + q[1..]
  {
    var core, cp := FormatCore(np), FormatInt(np.containerPort);
    CoreSplits(np);
    AfterSlashFields(before);
    SplitConcat(core, "/" + before);
    assert core + "/" + before == core + ("/" + before);
    assert cp + ("/" + Split(before)[0]) == cp + "/" + Split(before)[0];
  }

  lemma {:induction false} AfterSlashFields(before: string)
    ensures Split("/" + before)[0] == "/" + Split(before)[0] && Split("/" + before)[1..] == Split(before)[1..]
  {
    SplitHead("/", before);
  }

  /** Such a field can only be the address, so the core must be a bare port and what follows hold two more fields. */
  lemma {:induction false} SlashedParts(np: NamedPort, before: string, protocol: Protocol)
    ensures var q, cp := Split(before), FormatInt(np.containerPort);
      ParsePortParts(protocol, Split(FormatCore(np) + "/" + before)) ==
      if np.hostPort == 0 && |q| == 3 then HostAndContainer(cp + "/" + q[0], q[1], q[2], protocol) else None
  {
    var p, q, cp := Split(FormatCore(np)), Split(before), FormatInt(np.containerPort);
    CoreSplits(np);
    SlashedFields(np, before);
    SlashIsNoInt(cp, q[0]);
    var parts := p[..|p| - 1] + [cp + "/" + q[0]] + q[1..];
    assert |parts| == |p| + |q| - 1 && parts[|p| - 1] == cp + "/" + q[0];
    assert np.hostPort == 0 <==> |p| == 1;
    assert |p| == 1 && |q| == 3 ==> parts[1] == q[1] && parts[2] == q[2];
  }

  lemma {:induction false} SlashedRead(np: NamedPort)
    requires '/' in np.protocol
    ensures ParsePort(FormatNamedPort(np)) ==
      var p, q := ParseProto(ToLower(AfterSlash(np.protocol))), Split(BeforeSlash(np.protocol));
      if p.None? || np.hostPort != 0 || |q| != 3 then None
      else HostAndContainer(FormatInt(np.containerPort) + "/" + q[0], q[1], q[2], p.value)
  {
    var before, after := BeforeSlash(np.protocol), AfterSlash(np.protocol);
    SlashedText(np);
    ParseAfterSlash(FormatCore(np) + "/" + before, after);
    var p := ParseProto(ToLower(after));
    if p.Some? { SlashedParts(np, before, p.value); }
  }

  lemma {:induction false} SlashedText(np: NamedPort)
    requires '/' in np.protocol
    ensures '/' !in AfterSlash(np.protocol)
    ensures FormatNamedPort(np) == FormatCore(np) + "/" + BeforeSlash(np.protocol) + "/" + AfterSlash(np.protocol)
  {
    assert np.protocol == BeforeSlash(np.protocol) + "/" + AfterSlash(np.protocol);
  }

  /** The protocol hides an address and two ports that happen to be those of the named port. */
  predicate Coincides(np: NamedPort) {
    var q := Split(BeforeSlash(np.protocol));
    && '/' in np.protocol && ToLower(AfterSlash(np.protocol)) == "tcp"
    && np.hostPort == 0 && |q| == 3
    && np.hostIP == FormatInt(np.containerPort) + "/" + q[0]
    && ParseInt32(q[1]) == Some(0) && ParseInt32(q[2]) == Some(ClampPort(np.containerPort))
  }

  lemma {:induction false} SlashedIsDirect(np: NamedPort, read: Option<PortMapping>)
    requires '/' in np.protocol
    requires read ==
      var p, q := ParseProto(ToLower(AfterSlash(np.protocol))), Split(BeforeSlash(np.protocol));
      if p.None? || np.hostPort != 0 || |q| != 3 then None
      else HostAndContainer(FormatInt(np.containerPort) + "/" + q[0], q[1], q[2], p.value)
    ensures read == Some(DirectMapping(np)) <==> Coincides(np)
  {
    LowerKeepsSlash(np.protocol);
    assert DirectProtocol(np.protocol) == TCP;
  }

  /**
    * Printing a named port and parsing it gives the mapping built from it directly if and only if the port is
    * printable, or its protocol hides that very mapping.
    */
  lemma {:induction false} RoundTripIff(np: NamedPort)
    ensures ParsePort(FormatNamedPort(np)) == Some(DirectMapping(np)) <==> Printable(np) || Coincides(np)
  {
    KnownHasNoSlash(np.protocol);
    if '/' in np.protocol {
      SlashedRead(np);
      SlashedIsDirect(np, ParsePort(FormatNamedPort(np)));
    } else {
      UnslashedIsDirect(np);
    }
  }

  lemma {:induction false} UnslashedIsDirect(np: NamedPort)
    requires '/' !in np.protocol
    ensures ParsePort(FormatNamedPort(np)) == Some(DirectMapping(np)) <==> Printable(np)
  {
    if PrintsProtocol(np) {
      PrintedProtocolRead(np);
      PrintedIsDirect(np, ParsePort(FormatNamedPort(np)));
    } else {
      UnprintedProtocolRead(np);
      UnprintedIsDirect(np, ParsePort(FormatNamedPort(np)));
    }
  }

  lemma {:induction false} RoundTrip(np: NamedPort)
    requires Printable(np)
    ensures ParsePort(FormatNamedPort(np)) == Some(DirectMapping(np))
  {
    RoundTripIff(np);
  }

  function Coincident(p: int): NamedPort {
    NamedPort(p, 0, FormatInt(p) + "/x", "x:0:" + FormatInt(p) + "/tcp")
  }

  lemma {:induction false} HiddenFields(port: string)
    requires ':' !in port
    ensures Split("x:0:" + port) == ["x", "0", port]
  {
    assert "x:0:" + port == "x" + ":" + ("0" + ":" + port);
    SplitFirst("x", "0" + ":" + port);
    SplitFirst("0", port);
    SplitField(port);
  }

  lemma {:induction false} TcpSuffix(before: string)
    ensures BeforeSlash(before + "/tcp") == before && AfterSlash(before + "/tcp") == "tcp" && '/' in before + "/tcp"
  {
    var s := before + "/tcp";
    assert s == before + "/" + "tcp";
    LastSlashAfter(before, "tcp");
    assert s[..|before|] == before && s[|before| + 1..] == "tcp" && s[|before|] == '/';
  }

  /** Such ports exist: nothing stops a protocol from posing as fields. */
  lemma {:induction false} SlashedProtocolCoincidence(p: int)
    requires ValidPort(p)
    ensures Coincides(Coincident(p)) && !Printable(Coincident(p))
  {
    var port := FormatInt(p);
    FormattedHasNo(p, ':');
    HiddenFields(port);
    TcpSuffix("x:0:" + port);
    ParseFormatted(p);
    ParseFormatted(0);
    assert FormatInt(0) == "0" && ToLower("tcp") == "tcp";
  }

  // ---- The formats, spelled out ----

  /** Decimal notation: the digits in order, a minus sign in front. */
  lemma {:induction false} FormatIntMeans(n: nat, d: nat)
    requires d < 10
    ensures FormatInt(d) == ["0123456789"[d]]
    ensures n > 0 ==> FormatInt(10 * n + d) == FormatInt(n) + ["0123456789"[d]] && FormatInt(0 - n) == "-" + FormatInt(n)
  {
    assert (10 * n + d) / 10 == n && (10 * n + d) % 10 == d;
    assert "0123456789"[d] == ('0' as nat + d) as char;
  }

  /** How a named port is printed: no host port, no address; TCP goes without saying. */
  lemma {:induction false} FormatMeans(cp: int, hp: int, ip: string, protocol: string)
    requires hp != 0 && ip != "" && protocol != "" && protocol != "tcp"
    ensures FormatNamedPort(NamedPort(cp, 0, ip, "tcp")) == FormatNamedPort(NamedPort(cp, 0, ip, "")) == FormatInt(cp)
    ensures FormatNamedPort(NamedPort(cp, 0, ip, protocol)) == FormatInt(cp) + "/" + protocol
    ensures FormatNamedPort(NamedPort(cp, hp, "", "")) == FormatInt(hp) + ":" + FormatInt(cp)
    ensures FormatNamedPort(NamedPort(cp, hp, "", protocol)) == FormatInt(hp) + ":" + FormatInt(cp) + "/" + protocol
    ensures FormatNamedPort(NamedPort(cp, hp, ip, "tcp")) == ip + ":" + FormatInt(hp) + ":" + FormatInt(cp)
    ensures FormatNamedPort(NamedPort(cp, hp, ip, protocol)) == ip + ":" + FormatInt(hp) + ":" + FormatInt(cp) + "/" + protocol
  { }

  /** A leading plus is read, and a minus too; what is not all digits is not a number. */
  lemma {:induction false} Int32Means(s: string)
    ensures ParseInt32("") == None
    ensures (exists k :: 0 < k < |s| && s[k] !in "0123456789") ==> ParseInt32(s) == None
    ensures s != "" && s[0] !in "0123456789" && s[0] != '+' && s[0] != '-' ==> ParseInt32(s) == None
  {
    forall k | 0 < k < |s| && s[k] !in "0123456789" ensures ParseInt32(s) == None {
      DigitListed(s[k]);
      NoDigitAt(s, 0, k);
      NoDigitAt(s, 1, k);
    }
    if s != "" && s[0] !in "0123456789" && s[0] != '+' && s[0] != '-' {
      DigitListed(s[0]);
      NoDigitAt(s, 0, 0);
    }
  }

  lemma {:induction false} DigitListed(ch: char)
    ensures IsDigit(ch) <==> ch in "0123456789"
  {
    if IsDigit(ch) { assert "0123456789"[DigitOf(ch)] == ch; }
  }

  lemma {:induction false} NoDigitAt(s: string, from: nat, i: nat)
    requires from <= i < |s| && !IsDigit(s[i])
    ensures !AllDigits(s, from)
  {
    if i < |s| - 1 { NoDigitAt(s[..|s| - 1], from, i); }
  }

  lemma {:induction false} ParseAfterSlash(core: string, proto: string)
    requires '/' !in proto
    ensures ParsePort(core + "/" + proto) ==
      var p := ParseProto(ToLower(proto)); if p.None? then None else ParsePortParts(p.value, Split(core))
  {
    var s := core + "/" + proto;
    LastSlashAfter(core, proto);
    assert s[..|core|] == core && s[|core| + 1..] == proto;
  }

  /** What a port string ends in for each protocol; TCP may go without. */
  predicate Ending(suffix: string, protocol: Protocol) {
    match protocol
    case TCP => suffix == "" || suffix == "/tcp"
    case UDP => suffix == "/udp"
    case SCTP => suffix == "/sctp"
  }

  lemma {:induction false} ParseCore(core: string, suffix: string, protocol: Protocol)
    requires '/' !in core && Ending(suffix, protocol)
    ensures ParsePort(core + suffix) == ParsePortParts(protocol, Split(core))
  {
    if suffix == "" {
      assert core + suffix == core;
    } else {
      var proto := suffix[1..];
      assert ToLower(proto) == proto;
      assert core + suffix == core + "/" + proto;
      ParseAfterSlash(core, proto);
    }
  }

  /** The documented formats: container port, host and container port, and the two behind an address. */
  lemma {:induction false} FormatsRead(ip: string, hp: int, cp: int, suffix: string, protocol: Protocol)
    requires -0x8000_0000 <= hp < 0x8000_0000 && -0x8000_0000 <= cp < 0x8000_0000 && ':' !in ip && '/' !in ip
    requires Ending(suffix, protocol)
    ensures var h, c := FormatInt(hp), FormatInt(cp);
      && ParsePort(c + suffix) == Some(PortMapping("", 0, cp, protocol))
      && ParsePort(h + ":" + c + suffix) == Some(PortMapping("", hp, cp, protocol))
      && ParsePort(ip + ":" + (h + ":" + c) + suffix) == Some(PortMapping(ip, hp, cp, protocol))
  {
    var h, c := FormatInt(hp), FormatInt(cp);
    FieldsRead(ip, hp, cp, protocol);
    FormattedHasNo(hp, '/');
    FormattedHasNo(cp, '/');
    ParseCore(c, suffix, protocol);
    ParseCore(h + ":" + c, suffix, protocol);
    ParseCore(ip + ":" + (h + ":" + c), suffix, protocol);
  }

  lemma {:induction false} FieldsRead(ip: string, hp: int, cp: int, protocol: Protocol)
    requires IsInt32(hp) && IsInt32(cp) && ':' !in ip
    ensures var h, c := FormatInt(hp), FormatInt(cp);
      && ParsePortParts(protocol, Split(c)) == Some(PortMapping("", 0, cp, protocol))
      && ParsePortParts(protocol, Split(h + ":" + c)) == Some(PortMapping("", hp, cp, protocol))
      && ParsePortParts(protocol, Split(ip + ":" + (h + ":" + c))) == Some(PortMapping(ip, hp, cp, protocol))
  {
    var h, c := FormatInt(hp), FormatInt(cp);
    FormattedHasNo(hp, ':');
    FormattedHasNo(cp, ':');
    ParseFormatted(hp);
    ParseFormatted(cp);
    SplitField(c);
    SplitFirst(h, c);
    SplitFirst(ip, h + ":" + c);
  }

  /** Nothing else is read: more than three fields, or another protocol. */
  lemma {:induction false} OthersUnread(core: string, proto: string)
    requires '/' !in proto
    ensures |Split(core)| > 3 ==> ParsePort(core + "/" + proto) == None
    ensures ToLower(proto) !in ["tcp", "udp", "sctp"] ==> ParsePort(core + "/" + proto) == None
  {
    ParseAfterSlash(core, proto);
    var names := ["tcp", "udp", "sctp"];
    assert names[0] == "tcp" && names[1] == "udp" && names[2] == "sctp";
  }

  lemma {:induction false} LowerMeans(i: nat)
    requires i < 26
    ensures LowerChar("ABCDEFGHIJKLMNOPQRSTUVWXYZ"[i]) == "abcdefghijklmnopqrstuvwxyz"[i]
    ensures LowerChar("abcdefghijklmnopqrstuvwxyz"[i]) == "abcdefghijklmnopqrstuvwxyz"[i]
  {
    assert "ABCDEFGHIJKLMNOPQRSTUVWXYZ"[i] == ('A' as nat + i) as char;
    assert "abcdefghijklmnopqrstuvwxyz"[i] == ('a' as nat + i) as char;
  }

  /** A named port's own mapping: its ports clamped to 0 through 65535, its address, TCP unless it names another. */
  lemma {:induction false} DirectMeans(np: NamedPort)
    ensures var m := DirectMapping(np);
      && 0 <= m.containerPort <= 65535 && 0 <= m.hostPort <= 65535 && m.hostIP == np.hostIP
      && (0 <= np.containerPort <= 65535 ==> m.containerPort == np.containerPort)
      && (0 <= np.hostPort <= 65535 ==> m.hostPort == np.hostPort)
      && (np.containerPort > 65535 ==> m.containerPort == 65535) && (np.containerPort < 0 ==> m.containerPort == 0)
      && (np.hostPort > 65535 ==> m.hostPort == 65535) && (np.hostPort < 0 ==> m.hostPort == 0)
      && (m.protocol == UDP <==> ToLower(np.protocol) == "udp")
      && (m.protocol == SCTP <==> ToLower(np.protocol) == "sctp")
  { }

  // ---- Lists of ports ----

  /** All of them, or nothing when one is missing. */
  function Collect<T>(rs: seq<Option<T>>): (r: Option<seq<T>>)
    ensures r.Some? <==> forall k :: 0 <= k < |rs| ==> rs[k].Some?
    ensures r.Some? ==> |r.value| == |rs| && forall k :: 0 <= k < |rs| ==> rs[k] == Some(r.value[k])
  {
    if rs == [] then Some([])
    else
      var n := |rs| - 1;
      var before := Collect(rs[..n]);
      if before.None? || rs[n].None? then None else Some(before.value + [rs[n].value])
  }

  function Reads(ports: seq<string>): (rs: seq<Option<PortMapping>>)
    ensures |rs| == |ports| && forall k :: 0 <= k < |ports| ==> rs[k] == ParsePort(ports[k])
  {
    seq(|ports|, k requires 0 <= k < |ports| => ParsePort(ports[k]))
  }

  /** The mappings of all the port strings, or nothing when one does not parse. */
  function ParseAll(ports: seq<string>): Option<seq<PortMapping>> {
    Collect(Reads(ports))
  }

  lemma {:induction false} CollectJoined<T>(a: seq<Option<T>>, b: seq<Option<T>>)
    ensures Collect(a + b) ==
      if Collect(a).None? || Collect(b).None? then None else Some(Collect(a).value + Collect(b).value)
  {
    if Collect(a).None? {
      var k :| 0 <= k < |a| && a[k].None?;
      assert (a + b)[k].None?;
    } else if Collect(b).None? {
      var k :| 0 <= k < |b| && b[k].None?;
      assert (a + b)[|a| + k].None?;
    } else {
      assert forall k :: 0 <= k < |a + b| ==> (a + b)[k] == Some((Collect(a).value + Collect(b).value)[k]);
      assert Collect(a + b).value == Collect(a).value + Collect(b).value;
    }
  }

  lemma {:induction false} ReadsJoined(a: seq<string>, b: seq<string>)
    ensures Reads(a + b) == Reads(a) + Reads(b)
  { }

  lemma {:induction false} ParseAllJoined(a: seq<string>, b: seq<string>)
    ensures ParseAll(a + b) ==
      if ParseAll(a).None? || ParseAll(b).None? then None else Some(ParseAll(a).value + ParseAll(b).value)
  {
    ReadsJoined(a, b);
    CollectJoined(Reads(a), Reads(b));
  }

  lemma {:induction false} CollectNext<T>(rs: seq<Option<T>>, k: nat, before: seq<T>)
    requires k < |rs| && Collect(rs[..k]) == Some(before)
    ensures rs[k].None? ==> Collect(rs) == None
    ensures rs[k].Some? ==> Collect(rs[..k + 1]) == Some(before + [rs[k].value])
  {
    assert rs[..k + 1][..k] == rs[..k];
  }

  function DirectAll(named: seq<NamedPort>): (r: seq<PortMapping>)
    ensures |r| == |named| && forall k :: 0 <= k < |named| ==> r[k] == DirectMapping(named[k])
  {
    seq(|named|, k requires 0 <= k < |named| => DirectMapping(named[k]))
  }

  /** The first loop of ParsePorts: stops at the first string that does not parse. */
  method ParseStrings(ports: seq<string>) returns (r: Option<seq<PortMapping>>)
    ensures r == ParseAll(ports)
  {
    var result: seq<PortMapping> := [];
    ghost var rs := Reads(ports);
    for k := 0 to |ports|
      invariant Collect(rs[..k]) == Some(result)
    {
      var pm := ParsePort(ports[k]);
      assert pm == rs[k];
      CollectNext(rs, k, result);
      if pm.None? {
        return None;
      }
      result := result + [pm.value];
    }
    assert rs[..|ports|] == rs;
    return Some(result);
  }

  method ParsePorts(ports: seq<string>, named: seq<NamedPort>) returns (r: Option<seq<PortMapping>>)
    ensures r == if ParseAll(ports).None? then None else Some(ParseAll(ports).value + DirectAll(named))
  {
    var parsed := ParseStrings(ports);
    if parsed.None? {
      return None;
    }
    var result := parsed.value;
    for k := 0 to |named|
      invariant result == parsed.value + DirectAll(named[..k])
    {
      DirectNext(named, k);
      result := result + [DirectMapping(named[k])];
    }
    assert named[..|named|] == named;
    return Some(result);
  }

  lemma {:induction false} DirectNext(named: seq<NamedPort>, k: nat)
    requires k < |named|
    ensures DirectAll(named[..k + 1]) == DirectAll(named[..k]) + [DirectMapping(named[k])]
  {
    assert forall i :: 0 <= i < k ==> named[..k + 1][i] == named[..k][i];
  }

  function Printed(named: seq<NamedPort>): (r: seq<string>)
    ensures |r| == |named| && forall k :: 0 <= k < |named| ==> r[k] == FormatNamedPort(named[k])
  {
    seq(|named|, k requires 0 <= k < |named| => FormatNamedPort(named[k]))
  }

  lemma {:induction false} PrintedNext(named: seq<NamedPort>, k: nat)
    requires k < |named|
    ensures Printed(named[..k + 1]) == Printed(named[..k]) + [FormatNamedPort(named[k])]
  {
    assert forall i :: 0 <= i < k ==> named[..k + 1][i] == named[..k][i];
  }

  /** A service's port strings followed by its named ports, printed. */
  method BuildPorts(ports: seq<string>, named: seq<NamedPort>) returns (r: seq<string>)
    ensures r == ports + Printed(named)
  {
    r := ports;
    for k := 0 to |named|
      invariant r == ports + Printed(named[..k])
    {
      PrintedNext(named, k);
      r := r + [FormatNamedPort(named[k])];
    }
    assert named[..|named|] == named;
  }

  lemma {:induction false} CollectSome<T>(rs: seq<Option<T>>, values: seq<T>)
    requires |rs| == |values| && forall k :: 0 <= k < |rs| ==> rs[k] == Some(values[k])
    ensures Collect(rs) == Some(values)
  {
    assert Collect(rs).value == values;
  }

  /** Printed into the port strings or passed beside them, printable named ports give the same mappings. */
  lemma {:induction false} NamedPortsEitherWay(ports: seq<string>, named: seq<NamedPort>)
    requires forall k :: 0 <= k < |named| ==> Printable(named[k])
    ensures ParseAll(ports + Printed(named)) ==
      if ParseAll(ports).None? then None else Some(ParseAll(ports).value + DirectAll(named))
  {
    ParseAllJoined(ports, Printed(named));
    PrintedReadsDirect(named);
    CollectSome(Reads(Printed(named)), DirectAll(named));
  }

  lemma {:induction false} PrintedReadsDirect(named: seq<NamedPort>)
    requires forall k :: 0 <= k < |named| ==> Printable(named[k])
    ensures forall k :: 0 <= k < |named| ==> Reads(Printed(named))[k] == Some(DirectAll(named)[k])
  {
    forall k | 0 <= k < |named| ensures Reads(Printed(named))[k] == Some(DirectAll(named)[k]) {
      assert Reads(Printed(named))[k] == ParsePort(FormatNamedPort(named[k]));
      RoundTrip(named[k]);
    }
  }
}
