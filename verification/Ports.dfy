/**
 Port mappings: the parser of the configuration (dockfleet/cli/config.py, `_parse_port_mapping`) and the separately
 written extraction of host ports that the orchestrator waits for (dockfleet/core/orchestrator.py,
 `_extract_host_ports`).
 */
module Ports {
  import opened Wrappers
  import opened Text

  const PROTOCOLS: set<string> := {"tcp", "udp", "sctp"}

  const MAX_PORT: nat := 65535

  datatype Mapping = Mapping(ip: Option<string>, host: nat, container: nat)

  datatype PortError = BadFormat | BadProtocol | OutOfRange

  datatype Parts = Parts(ip: Option<string>, host: string, container: string)

  // ---------------------------------------------------------------- parsing

  predicate Bracketed(mapping: string) {
    mapping != "" && mapping[0] == '['
  }

  /** The three parts of a mapping without its protocol. */
  function Cut(mapping: string): Option<Parts> {
    if Bracketed(mapping) then
      var rest := After(mapping, ']');
      if ']' !in mapping || rest == "" || rest[0] != ':' then None
      else Some(Parts(Some(Before(mapping, ']')[1..]), Before(rest[1..], ':'), After(rest[1..], ':')))
    else
      var parts := Split(mapping, ':');
      if |parts| == 2 then Some(Parts(None, parts[0], parts[1]))
      else if |parts| == 3 then Some(Parts(Some(parts[0]), parts[1], parts[2]))
      else None
  }

  predicate IsPort(n: nat) {
    1 <= n <= MAX_PORT
  }

  function Checked(parts: Parts): Result<Mapping, PortError> {
    if parts.ip == Some("") then Err(BadFormat)
    else if !IsDigits(parts.host) || !IsDigits(parts.container) then Err(BadFormat)
    else if !IsPort(ToNat(parts.host)) || !IsPort(ToNat(parts.container)) then Err(OutOfRange)
    else Ok(Mapping(parts.ip, ToNat(parts.host), ToNat(parts.container)))
  }

  predicate GoodProtocol(protocol: string) {
    protocol == "" || Lower(protocol) in PROTOCOLS
  }

  function ParseParts(mapping: string, protocol: string): Result<Mapping, PortError> {
    if !GoodProtocol(protocol) then Err(BadProtocol)
    else
      match Cut(mapping)
      case None => Err(BadFormat)
      case Some(parts) => Checked(parts)
  }

  function Parse(port: string): Result<Mapping, PortError> {
    ParseParts(Before(port, '/'), After(port, '/'))
  }

  // ---------------------------------------------------------------- printing

  /** Addresses with a colon are written in brackets, and those that would look as if they were. */
  predicate NeedsBrackets(ip: string) {
    ':' in ip || Bracketed(ip)
  }

  function Prefix(ip: Option<string>): string {
    match ip
    case None => ""
    case Some(ip) => if NeedsBrackets(ip) then "[" + ip + "]:" else ip + ":"
  }

  function Print(m: Mapping): string {
    Prefix(m.ip) + Digits(m.host) + ":" + Digits(m.container)
  }

  /** What a mapping can say: both ports in range, and an address that is not empty and ends where it should. */
  predicate Printable(m: Mapping) {
    && IsPort(m.host) && IsPort(m.container)
    && (m.ip.Some? ==> m.ip.value != "" && '/' !in m.ip.value && (NeedsBrackets(m.ip.value) ==> ']' !in m.ip.value))
  }

  lemma DigitsHaveNo(s: string, c: char)
    requires IsDigits(s) && !IsDigit(c)
    ensures c !in s
  {
  }

  lemma CutOfTwo(host: string, container: string)
    requires IsDigits(host) && IsDigits(container)
    ensures Cut(host + ":" + container) == Some(Parts(None, host, container))
  {
    SplitConcat(host, ':', container);
  }

  lemma CutOfThree(ip: string, host: string, container: string)
    requires IsDigits(host) && IsDigits(container) && !NeedsBrackets(ip)
    ensures Cut(ip + ":" + (host + ":" + container)) == Some(Parts(Some(ip), host, container))
  {
    var ports := host + ":" + container;
    SplitConcat(ip, ':', ports);
    SplitConcat(host, ':', container);
    assert Split(ip + ":" + ports, ':') == [ip, host, container];
    assert !Bracketed(ip + ":" + ports);
  }

  lemma CutOfBracketed(ip: string, host: string, container: string)
    requires IsDigits(host) && IsDigits(container) && ']' !in ip
    ensures Cut("[" + ip + "]:" + (host + ":" + container)) == Some(Parts(Some(ip), host, container))
  {
    var ports := host + ":" + container;
    var mapping := "[" + ip + "]:" + ports;
    assert mapping == ("[" + ip) + "]" + (":" + ports);
    BeforeFirst("[" + ip, ']', ":" + ports);
    assert (":" + ports)[1..] == ports && ("[" + ip)[1..] == ip;
    BeforeFirst(host, ':', container);
  }

  lemma NoSlash(prefix: string, host: string, container: string)
    requires IsDigits(host) && IsDigits(container) && '/' !in prefix
    ensures '/' !in prefix + host + ":" + container
  {
    DigitsHaveNo(host, '/');
    DigitsHaveNo(container, '/');
  }

  lemma CutOfPrefixed(ip: Option<string>, host: string, container: string)
    requires IsDigits(host) && IsDigits(container)
    requires ip.Some? && NeedsBrackets(ip.value) ==> ']' !in ip.value
    ensures Cut(Prefix(ip) + (host + ":" + container)) == Some(Parts(ip, host, container))
  {
    var ports := host + ":" + container;
    if ip.None? {
      assert Prefix(ip) + ports == ports;
      CutOfTwo(host, container);
    } else if NeedsBrackets(ip.value) {
      CutOfBracketed(ip.value, host, container);
    } else {
      CutOfThree(ip.value, host, container);
    }
  }

  lemma PrefixHasNoSlash(ip: Option<string>)
    requires ip.Some? ==> '/' !in ip.value
    ensures '/' !in Prefix(ip)
  {
  }

  lemma Regrouped(prefix: string, host: string, container: string)
    ensures prefix + host + ":" + container == prefix + (host + ":" + container)
  {
  }

  lemma CutOfPrinted(m: Mapping)
    requires Printable(m)
    ensures Cut(Print(m)) == Some(Parts(m.ip, Digits(m.host), Digits(m.container)))
    ensures '/' !in Print(m)
  {
    var host, container := Digits(m.host), Digits(m.container);
    DigitsRoundTrip(m.host);
    DigitsRoundTrip(m.container);
    CutOfPrefixed(m.ip, host, container);
    Regrouped(Prefix(m.ip), host, container);
    PrefixHasNoSlash(m.ip);
    NoSlash(Prefix(m.ip), host, container);
  }

  /** Printing and parsing gives the mapping back, for every port, address and protocol suffix, or none. */
  lemma PrintedIsParsed(m: Mapping, protocol: string)
    requires Printable(m) && Lower(protocol) in PROTOCOLS
    ensures Parse(Print(m)) == Ok(m) == Parse(Print(m) + "/" + protocol)
  {
    CutOfPrinted(m);
    DigitsRoundTrip(m.host);
    DigitsRoundTrip(m.container);
    BeforeFirst(Print(m), '/', protocol);
  }

  lemma ParseWithoutSlash(mapping: string)
    requires '/' !in mapping
    ensures Before(mapping, '/') == mapping && After(mapping, '/') == ""
  {
  }

  lemma CheckedDigits(host: nat, container: nat)
    ensures Checked(Parts(None, Digits(host), Digits(container)))
         == if 1 <= host <= 65535 && 1 <= container <= 65535 then Ok(Mapping(None, host, container))
            else Err(OutOfRange)
  {
    DigitsRoundTrip(host);
    DigitsRoundTrip(container);
  }

  lemma NoSlashInPorts(host: string, container: string)
    requires IsDigits(host) && IsDigits(container)
    ensures '/' !in host + ":" + container
  {
    DigitsHaveNo(host, '/');
    DigitsHaveNo(container, '/');
  }

  /** Two numbers with a colon between them are a mapping exactly when both are between 1 and 65535. */
  lemma PortRangeIsExact(host: nat, container: nat)
    ensures Parse(Digits(host) + ":" + Digits(container))
         == if 1 <= host <= 65535 && 1 <= container <= 65535 then Ok(Mapping(None, host, container))
            else Err(OutOfRange)
  {
    var left, right := Digits(host), Digits(container);
    DigitsRoundTrip(host);
    DigitsRoundTrip(container);
    CutOfTwo(left, right);
    NoSlashInPorts(left, right);
    ParseWithoutSlash(left + ":" + right);
    CheckedDigits(host, container);
  }

  /** What follows a slash is accepted exactly when it is nothing, or tcp, udp or sctp in any case. */
  lemma ProtocolIsExact(mapping: string, protocol: string)
    requires '/' !in mapping
    ensures Parse(mapping + "/" + protocol)
         == if protocol == "" || Lower(protocol) in {"tcp", "udp", "sctp"} then Parse(mapping) else Err(BadProtocol)
  {
    ParseWithoutSlash(mapping);
    BeforeFirst(mapping, '/', protocol);
    assert Parse(mapping + "/" + protocol) == ParseParts(mapping, protocol);
  }

  /** What acceptance says about the parts. */
  lemma AcceptedParts(port: string) returns (parts: Parts)
    requires Parse(port).Ok?
    ensures Cut(Before(port, '/')) == Some(parts) && GoodProtocol(After(port, '/'))
    ensures IsDigits(parts.host) && IsDigits(parts.container) && parts.ip != Some("")
    ensures Parse(port).value == Mapping(parts.ip, ToNat(parts.host), ToNat(parts.container))
    ensures IsPort(ToNat(parts.host)) && IsPort(ToNat(parts.container))
  {
    parts := Cut(Before(port, '/')).value;
  }

  /** What is accepted is printable, so printing gives a normal form of it. */
  lemma AcceptedIsPrintable(port: string)
    requires Parse(port).Ok?
    ensures Printable(Parse(port).value)
  {
    var parts := AcceptedParts(port);
    if parts.ip.Some? {
      CutIsClean(Before(port, '/'), parts);
    }
  }

  lemma CutIsClean(mapping: string, parts: Parts)
    requires '/' !in mapping && Cut(mapping) == Some(parts) && parts.ip.Some?
    ensures '/' !in parts.ip.value && (NeedsBrackets(parts.ip.value) ==> ']' !in parts.ip.value)
  {
    if Bracketed(mapping) {
      var inside := Before(mapping, ']');
      assert forall c | c in inside[1..] :: c in inside;
    } else {
      var ip := Before(mapping, ':');
      assert parts.ip.value == ip && forall c | c in ip :: c in mapping;
      assert ip != "" ==> ip[0] == mapping[0];
    }
  }

  // ---------------------------------------------------------------- extracting host ports

  const ANY_ADDRESS := "0.0.0.0"

  datatype HostPort = HostPort(address: string, port: nat)

  /** What the extraction makes of its parts. */
  function FromParts(parts: seq<string>): Option<HostPort> {
    if |parts| == 2 then
      if '.' in parts[0] || !IsDigits(parts[0]) then None else Some(HostPort(ANY_ADDRESS, ToNat(parts[0])))
    else if |parts| == 3 && IsDigits(parts[1]) then
      Some(HostPort(if parts[0] == "" then ANY_ADDRESS else parts[0], ToNat(parts[1])))
    else None
  }

  function Extract(port: string): Option<HostPort> {
    FromParts(Split(Before(Trim(port), '/'), ':'))
  }

  function Found(host: Option<HostPort>): seq<HostPort> {
    match host
    case None => []
    case Some(found) => [found]
  }

  function HostPorts(ports: seq<string>): seq<HostPort> {
    if ports == [] then []
    else
      var n := |ports| - 1;
      HostPorts(ports[..n]) + Found(Extract(ports[n]))
  }

  method ExtractOne(port: string) returns (found: seq<HostPort>)
    ensures found == Found(Extract(port))
  {
    found := [];
    var s := Trim(port);
    if s == "" {
      return;
    }
    if '/' in s {
      s := Before(s, '/');
    }
    var parts := Split(s, ':');
    if |parts| == 2 {
      if '.' !in parts[0] && IsDigits(parts[0]) {
        found := [HostPort(ANY_ADDRESS, ToNat(parts[0]))];
      }
    } else if |parts| == 3 {
      var address := if parts[0] != "" then parts[0] else ANY_ADDRESS;
      if parts[1] != "" && IsDigits(parts[1]) {
        found := [HostPort(address, ToNat(parts[1]))];
      }
    }
  }

  method ExtractHostPorts(ports: seq<string>) returns (found: seq<HostPort>)
    ensures found == HostPorts(ports)
  {
    found := [];
    for i := 0 to |ports|
      invariant found == HostPorts(ports[..i])
    {
      assert ports[..i + 1][..i] == ports[..i];
      var more := ExtractOne(ports[i]);
      found := found + more;
    }
    assert ports[..|ports|] == ports;
  }

  // ---------------------------------------------------------------- the two agree

  lemma {:induction false} SplitEnds(s: string) returns (front: string)
    ensures s == front + Split(s, ':')[|Split(s, ':')| - 1]
    decreases |s|
  {
    if ':' in s {
      var more := SplitEnds(After(s, ':'));
      front := Before(s, ':') + ":" + more;
    } else {
      front := "";
    }
  }

  lemma BracketedParts(mapping: string) returns (inside: string)
    requires Bracketed(mapping) && Cut(mapping).Some? && Cut(mapping).value.container != ""
    ensures inside == Before(mapping, ']')
    ensures var parts := Cut(mapping).value;
            mapping == inside + "]" + ":" + (parts.host + ":" + parts.container)
  {
    inside := Before(mapping, ']');
    var rest := After(mapping, ']');
    assert rest == ":" + rest[1..];
  }

  lemma EndsLike(front: string, end: string)
    requires IsDigits(end)
    ensures front + end != "" && IsDigit((front + end)[|front + end| - 1])
  {
    assert (front + end)[|front + end| - 1] == end[|end| - 1];
  }

  lemma BracketedEnds(mapping: string, parts: Parts)
    requires Bracketed(mapping) && Cut(mapping) == Some(parts) && IsDigits(parts.container)
    ensures mapping != "" && IsDigit(mapping[|mapping| - 1])
  {
    var inside := BracketedParts(mapping);
    var front := inside + "]" + ":" + (parts.host + ":");
    assert mapping == front + parts.container;
    EndsLike(front, parts.container);
  }

  lemma PlainEnds(mapping: string, parts: Parts)
    requires !Bracketed(mapping) && Cut(mapping) == Some(parts) && IsDigits(parts.container)
    ensures mapping != "" && IsDigit(mapping[|mapping| - 1])
  {
    var front := SplitEnds(mapping);
    EndsLike(front, parts.container);
  }

  /** A mapping ends with its container port. */
  lemma CutEnds(mapping: string, parts: Parts)
    requires Cut(mapping) == Some(parts) && IsDigits(parts.container)
    ensures mapping != "" && IsDigit(mapping[|mapping| - 1])
  {
    if Bracketed(mapping) {
      BracketedEnds(mapping, parts);
    } else {
      PlainEnds(mapping, parts);
    }
  }

  lemma ProtocolEnds(protocol: string)
    requires GoodProtocol(protocol) && protocol != ""
    ensures !IsSpace(protocol[|protocol| - 1])
  {
    assert Lower(protocol)[|protocol| - 1] == LowerChar(protocol[|protocol| - 1]);
  }

  lemma WholeEnds(port: string, mapping: string, protocol: string)
    requires mapping != "" && IsDigit(mapping[|mapping| - 1])
    requires protocol != "" ==> !IsSpace(protocol[|protocol| - 1])
    requires port == mapping || port == mapping + "/" + protocol
    ensures port != "" && !IsSpace(port[|port| - 1])
  {
  }

  lemma AcceptedEnds(port: string)
    requires Parse(port).Ok?
    ensures port != "" && !IsSpace(port[|port| - 1])
  {
    var parts := AcceptedParts(port);
    var mapping, protocol := Before(port, '/'), After(port, '/');
    CutEnds(mapping, parts);
    if protocol != "" {
      ProtocolEnds(protocol);
    }
    WholeEnds(port, mapping, protocol);
  }

  lemma TrimEndKeeps(s: string)
    requires s != "" ==> !IsSpace(s[|s| - 1])
    ensures TrimEnd(s) == s
  {
  }

  lemma StripStart(port: string) returns (space: string, s: string)
    ensures s == TrimStart(port) && port == space + s && (s != "" ==> !IsSpace(s[0]))
    ensures forall c | c in space :: IsSpace(c)
  {
    s := TrimStart(port);
    space := port[..|port| - |s|];
    assert port == space + s;
  }

  lemma LastOf(front: string, end: string)
    ensures end != "" ==> (front + end)[|front + end| - 1] == end[|end| - 1]
    ensures end == "" && front != "" ==> (front + end)[|front + end| - 1] in front
  {
  }

  /** Stripping a string that does not end with white space only strips its front. */
  lemma Stripped(port: string) returns (space: string, s: string)
    requires port != "" && !IsSpace(port[|port| - 1])
    ensures s == Trim(port) && port == space + s && (s != "" ==> !IsSpace(s[0]))
    ensures forall c | c in space :: IsSpace(c)
  {
    space, s := StripStart(port);
    LastOf(space, s);
    TrimEndKeeps(s);
  }

  lemma SeenBehindSpace(space: string, s: string)
    requires forall c | c in space :: IsSpace(c)
    ensures var parts := Split(Before(s, '/'), ':');
            Split(Before(space + s, '/'), ':') == [space + parts[0]] + parts[1..]
  {
    assert '/' !in space && ':' !in space;
    BeforeSkips(space, s, '/');
    SplitSkips(space, Before(s, '/'), ':');
  }

  lemma FrontOfParts(s: string)
    ensures Split(Before(s, '/'), ':')[0] <= s
  {
  }

  /** The parts the extraction sees are those of the mapping, but for white space in front of the first. */
  lemma PartsSeen(port: string) returns (space: string, parts: seq<string>)
    requires Parse(port).Ok?
    ensures parts == Split(Before(Trim(port), '/'), ':')
    ensures forall c | c in space :: IsSpace(c)
    ensures Split(Before(port, '/'), ':') == [space + parts[0]] + parts[1..]
    ensures parts[0] != "" ==> !IsSpace(parts[0][0])
  {
    AcceptedEnds(port);
    var s;
    space, s := Stripped(port);
    SeenBehindSpace(space, s);
    parts := Split(Before(s, '/'), ':');
    FrontOfParts(s);
  }

  /** A bracketed address with a colon in it. */
  predicate ColonInBrackets(mapping: string) {
    Bracketed(mapping) && ':' in Before(mapping, ']')
  }

  lemma SplitOfThree(front: string, host: string, container: string)
    requires IsDigits(host) && IsDigits(container)
    ensures Split(front + ":" + (host + ":" + container), ':') == Split(front, ':') + [host, container]
  {
    SplitConcat(front, ':', host + ":" + container);
    SplitConcat(host, ':', container);
  }

  lemma SplitOfBracketed(mapping: string, parts: Parts)
    requires Bracketed(mapping) && Cut(mapping) == Some(parts) && IsDigits(parts.host) && IsDigits(parts.container)
    ensures var split := Split(mapping, ':');
            if ColonInBrackets(mapping) then |split| > 3 else |split| == 3 && split[1] == parts.host
  {
    var inside := BracketedParts(mapping);
    SplitOfThree(inside + "]", parts.host, parts.container);
    assert ':' in inside + "]" <==> ':' in inside;
  }

  lemma HeadOf(front: string, rest: string)
    ensures front != "" ==> front + rest != "" && (front + rest)[0] == front[0] && front[0] in front
  {
  }

  lemma PlainParts(space: string, seen: seq<string>, all: seq<string>, host: string)
    requires seen != [] && all == [space + seen[0]] + seen[1..] && IsDigits(host)
    requires forall c | c in space :: IsSpace(c)
    requires (|all| == 2 && all[0] == host) || (|all| == 3 && all[1] == host)
    ensures FromParts(seen).Some? && FromParts(seen).value.port == ToNat(host)
  {
    if |all| == 2 {
      HeadOf(space, seen[0]);
      assert space == "" && space + seen[0] == seen[0];
      DigitsHaveNo(host, '.');
    } else {
      assert seen[1] == all[1];
    }
  }

  lemma ExtractedFromParts(mapping: string, parts: Parts, space: string, seen: seq<string>)
    requires Cut(mapping) == Some(parts) && IsDigits(parts.host) && IsDigits(parts.container)
    requires seen != [] && Split(mapping, ':') == [space + seen[0]] + seen[1..]
    requires forall c | c in space :: IsSpace(c)
    ensures if ColonInBrackets(mapping) then FromParts(seen) == None
            else FromParts(seen).Some? && FromParts(seen).value.port == ToNat(parts.host)
  {
    if Bracketed(mapping) {
      SplitOfBracketed(mapping, parts);
    }
    if !ColonInBrackets(mapping) {
      PlainParts(space, seen, Split(mapping, ':'), parts.host);
    }
  }

  /** An accepted mapping yields exactly its host port, unless it hides colons in brackets; then it yields nothing. */
  lemma ExtractedIsParsed(port: string)
    requires Parse(port).Ok?
    ensures Extract(port).Some? <==> !ColonInBrackets(Before(port, '/'))
    ensures Extract(port).Some? ==> Extract(port).value.port == Parse(port).value.host
  {
    var parts := AcceptedParts(port);
    var space, seen := PartsSeen(port);
    ExtractedFromParts(Before(port, '/'), parts, space, seen);
  }

  lemma PrintedHidesColon(m: Mapping)
    requires Printable(m) && m.ip.Some? && ':' in m.ip.value
    ensures ColonInBrackets(Print(m))
  {
    var front, ports := "[" + m.ip.value, ":" + Digits(m.host) + ":" + Digits(m.container);
    assert Print(m) == front + "]" + ports;
    BeforeFirst(front, ']', ports);
  }

  /** Every IPv6 mapping is accepted when it is printed with brackets, and its host port is never waited for. */
  lemma BracketedHostPortIsMissed(ip: string, host: nat, container: nat)
    requires Printable(Mapping(Some(ip), host, container)) && ':' in ip
    ensures Parse(Print(Mapping(Some(ip), host, container))) == Ok(Mapping(Some(ip), host, container))
    ensures Extract(Print(Mapping(Some(ip), host, container))) == None
  {
    var m := Mapping(Some(ip), host, container);
    assert Lower("tcp") == "tcp";
    PrintedIsParsed(m, "tcp");
    CutOfPrinted(m);
    PrintedHidesColon(m);
    ExtractedIsParsed(Print(m));
  }

  // ---------------------------------------------------------------- what an accepted mapping says

  /** How an address is written in front of the ports. */
  predicate FrontOf(front: string, ip: Option<string>) {
    match ip
    case None => front == ""
    case Some(ip) => front == ip + ":" || front == "[" + ip + "]:"
  }

  lemma SplitOfThreeParts(s: string)
    ensures |Split(s, ':')| == 2 ==> s == Split(s, ':')[0] + ":" + Split(s, ':')[1]
    ensures |Split(s, ':')| == 3 ==> s == Split(s, ':')[0] + ":" + (Split(s, ':')[1] + ":" + Split(s, ':')[2])
  {
    if ':' in s {
      var rest := After(s, ':');
      assert Split(s, ':') == [Before(s, ':')] + Split(rest, ':');
      if ':' in rest {
        assert Split(rest, ':') == [Before(rest, ':')] + Split(After(rest, ':'), ':');
      }
    }
  }

  lemma FrontOfCut(mapping: string, parts: Parts) returns (front: string)
    requires Cut(mapping) == Some(parts) && parts.container != ""
    ensures FrontOf(front, parts.ip) && mapping == front + (parts.host + ":" + parts.container)
  {
    var ports := parts.host + ":" + parts.container;
    if Bracketed(mapping) {
      var inside := BracketedParts(mapping);
      front := "[" + inside[1..] + "]:";
      assert inside != "" && inside[0] == '[' by {
        assert inside <= mapping;
      }
      assert inside == "[" + inside[1..];
      assert mapping == front + ports;
    } else {
      SplitOfThreeParts(mapping);
      front := if parts.ip.None? then "" else parts.ip.value + ":";
      assert mapping == front + ports;
    }
  }

  /**
   An accepted mapping reads as an address, if any, then a host port and a container port in digits with a colon between
   them; the result is that address and the two numbers.
   */
  lemma AcceptedReads(port: string) returns (front: string, host: string, container: string)
    requires Parse(port).Ok?
    ensures FrontOf(front, Parse(port).value.ip) && IsDigits(host) && IsDigits(container)
    ensures Before(port, '/') == front + (host + ":" + container)
    ensures Parse(port).value.host == ToNat(host) && Parse(port).value.container == ToNat(container)
  {
    var parts := AcceptedParts(port);
    front := FrontOfCut(Before(port, '/'), parts);
    host, container := parts.host, parts.container;
  }

  // ---------------------------------------------------------------- the address beside the host port

  lemma PlainAddress(mapping: string, parts: Parts, space: string, seen: seq<string>)
    requires !Bracketed(mapping) && Cut(mapping) == Some(parts) && seen != []
    requires Split(mapping, ':') == [space + seen[0]] + seen[1..] && FromParts(seen).Some?
    ensures var address := FromParts(seen).value.address;
            match parts.ip
            case None => address == "0.0.0.0"
            case Some(ip) => ip == space + seen[0] && address == if seen[0] == "" then "0.0.0.0" else seen[0]
  {
  }

  /**
   Without an address in the mapping the host port is on any address; a plain one is kept but for white space in front
   of it, and is any address when nothing else is left.
   */
  lemma ExtractedAddress(port: string) returns (space: string, rest: string)
    requires Parse(port).Ok? && !Bracketed(Before(port, '/'))
    ensures Extract(port).Some? && (forall c | c in space :: IsSpace(c)) && (rest != "" ==> !IsSpace(rest[0]))
    ensures var address := Extract(port).value.address;
            match Parse(port).value.ip
            case None => address == "0.0.0.0"
            case Some(ip) => ip == space + rest && address == if rest == "" then "0.0.0.0" else rest
  {
    var parts := AcceptedParts(port);
    var seen;
    space, seen := PartsSeen(port);
    rest := seen[0];
    ExtractedIsParsed(port);
    PlainAddress(Before(port, '/'), parts, space, seen);
  }
}
