/** Which texts are short port mappings, and of what: the grammar of the compose short syntax, with every
    part spelled out. */
module PortTexts {
  import opened Wrappers
  import opened Text
  import opened ShortPorts

  /** The parts of a text: spaces, an address if there is one, two numbers, a protocol if there is one,
      and spaces. */
  datatype Parts = Parts(left: string, ip: Option<string>, host: string, container: string,
                         protocol: Option<string>, right: string)

  function AddressOf(t: Parts): string
  {
    (match t.ip case Some(ip) => ip + ":" case None => "") + t.host + ":" + t.container
  }

  function CoreOf(t: Parts): string
  {
    AddressOf(t) + match t.protocol case Some(protocol) => "/" + protocol case None => ""
  }

  /** A text has these parts. A bind address has no colon; without a protocol it has no slash either, as
      the text behind the last slash is the protocol. */
  predicate HasParts(text: string, t: Parts)
  {
    && text == t.left + CoreOf(t) + t.right && AllSpaces(t.left) && AllSpaces(t.right)
    && IsDigits(t.host) && IsDigits(t.container)
    && (t.ip.Some? ==> ':' !in t.ip.value && (t.ip.value != "" ==> !IsSpace(t.ip.value[0])))
    && match t.protocol
       case Some(p) => p != "" && '/' !in p && !IsSpace(p[|p| - 1])
       case None => t.ip.Some? ==> '/' !in t.ip.value
  }

  /** The mapping with these parts. */
  function MappingOf(t: Parts): ShortPort
    requires IsDigits(t.host) && IsDigits(t.container)
  {
    ShortPort(t.ip, ParseNat(t.host), ParseNat(t.container), match t.protocol case Some(p) => p case None => "tcp")
  }

  // ---------------------------------------------------------------- whatever has these parts is parsed

  lemma SplitOfTwo(host: string, container: string)
    requires IsDigits(host) && IsDigits(container)
    ensures Split(host + ":" + container, ':') == [host, container]
  {
    DigitsContainNo(host, ':');
    DigitsContainNo(container, ':');
    SplitAtFirst(container, "", ':');
    SplitAtFirst(host, container, ':');
    assert host + ":" + container == host + [':'] + container;
  }

  lemma SplitOfThree(ip: string, host: string, container: string)
    requires IsDigits(host) && IsDigits(container) && ':' !in ip
    ensures Split(ip + ":" + host + ":" + container, ':') == [ip, host, container]
  {
    SplitOfTwo(host, container);
    SplitAtFirst(ip, host + ":" + container, ':');
    Regrouped(ip, host, container);
    assert [ip] + [host, container] == [ip, host, container];
  }

  lemma Regrouped(ip: string, host: string, container: string)
    ensures ip + ":" + host + ":" + container == ip + [':'] + (host + ":" + container)
  {
  }

  lemma SplitOfParts(t: Parts)
    requires IsDigits(t.host) && IsDigits(t.container) && (t.ip.Some? ==> ':' !in t.ip.value)
    ensures Split(AddressOf(t), ':') ==
      match t.ip case Some(ip) => [ip, t.host, t.container] case None => [t.host, t.container]
  {
    match t.ip
    case Some(ip) => SplitOfThree(ip, t.host, t.container);
    case None =>
      SplitOfTwo(t.host, t.container);
      assert AddressOf(t) == t.host + ":" + t.container;
  }

  lemma AddressShape(t: Parts)
    requires IsDigits(t.host) && IsDigits(t.container)
    requires t.ip.Some? ==> (t.ip.value != "" ==> !IsSpace(t.ip.value[0]))
    ensures AddressOf(t) != "" && IsStripped(AddressOf(t))
    ensures '/' in AddressOf(t) ==> t.ip.Some? && '/' in t.ip.value
  {
    DigitsContainNo(t.host, '/');
    DigitsContainNo(t.container, '/');
    var a := AddressOf(t);
    assert a[|a| - 1] == t.container[|t.container| - 1];
  }

  lemma ProtocolBehindSlash(address: string, p: string)
    requires p != "" && '/' !in p
    ensures SplitProtocol(address + "/" + p) == (address, p)
  {
    var core := address + "/" + p;
    LastSlash(address, p);
    assert core[..|address|] == address && core[|address| + 1..] == p;
  }

  lemma ProtocolOfParts(text: string, t: Parts)
    requires HasParts(text, t)
    ensures SplitProtocol(CoreOf(t)) == (AddressOf(t), match t.protocol case Some(p) => p case None => "tcp")
    ensures CoreOf(t) != "" && IsStripped(CoreOf(t))
  {
    var address := AddressOf(t);
    AddressShape(t);
    match t.protocol
    case None => assert CoreOf(t) == address;
    case Some(p) =>
      assert CoreOf(t) == address + "/" + p && CoreOf(t)[0] == address[0];
      ProtocolBehindSlash(address, p);
  }

  /** Every text with such parts is read as the mapping of them. */
  lemma ParseIsComplete(text: string, t: Parts)
    requires HasParts(text, t)
    ensures Parse(text) == Some(MappingOf(t))
  {
    ProtocolOfParts(text, t);
    StripIsTheCore(t.left, CoreOf(t), t.right);
    SplitOfParts(t);
  }

  // ---------------------------------------------------------------- and nothing else is

  /** The parts of what stands before the protocol. */
  lemma AddressParts(address: string, protocol: string, m: ShortPort) returns (t: Parts)
    requires var parts := Split(address, ':');
      || (|parts| == 2 && IsDigits(parts[0]) && IsDigits(parts[1])
          && m == ShortPort(None, ParseNat(parts[0]), ParseNat(parts[1]), protocol))
      || (|parts| == 3 && IsDigits(parts[1]) && IsDigits(parts[2])
          && m == ShortPort(Some(parts[0]), ParseNat(parts[1]), ParseNat(parts[2]), protocol))
    ensures address == AddressOf(t) && IsDigits(t.host) && IsDigits(t.container)
    ensures m == ShortPort(t.ip, ParseNat(t.host), ParseNat(t.container), protocol)
    ensures t.ip.Some? ==> ':' !in t.ip.value && t.ip.value <= address
  {
    var parts := Split(address, ':');
    SplitJoins(address, ':');
    if |parts| == 2 {
      t := Parts("", None, parts[0], parts[1], None, "");
      assert address == "" + parts[0] + ":" + parts[1];
    } else {
      t := Parts("", Some(parts[0]), parts[1], parts[2], None, "");
      JoinedWithAddress(address, parts[0], parts[1], parts[2]);
    }
  }

  /** Whatever is parsed has such parts, and is read as the mapping of them. */
  lemma ParseIsSound(text: string) returns (t: Parts)
    requires Parse(text).Some?
    ensures HasParts(text, t) && Parse(text) == Some(MappingOf(t))
  {
    var left, right := StripCuts(text);
    var core := Strip(text);
    var (address, protocol) := SplitProtocol(core);
    var bare := AddressParts(address, protocol, Parse(text).value);
    assert address[|address| - 1] == bare.container[|bare.container| - 1];
    var given := GivenProtocol(core, address, protocol);
    t := bare.(left := left, protocol := given, right := right);
    PartsOfCore(text, core, address, bare, given, left, right);
  }

  lemma PartsOfCore(text: string, core: string, address: string, bare: Parts, given: Option<string>, left: string,
                    right: string)
    requires text == left + core + right && address == AddressOf(bare) && core != "" && IsStripped(core)
    requires core == address + (match given case Some(p) => "/" + p case None => "")
    requires bare.ip.Some? ==> bare.ip.value <= address
    ensures var t := bare.(left := left, protocol := given, right := right);
      && text == t.left + CoreOf(t) + t.right
      && (t.ip.Some? && t.ip.value != "" ==> !IsSpace(t.ip.value[0]))
      && (t.ip.Some? && '/' !in address ==> '/' !in t.ip.value)
  {
    var t := bare.(left := left, protocol := given, right := right);
    assert AddressOf(t) == address;
    assert core[0] == address[0];
  }

  lemma JoinedWithAddress(address: string, ip: string, host: string, container: string)
    requires address == ip + [':'] + host + [':'] + container
    ensures address == (ip + ":") + host + ":" + container
  {
  }

  /** The protocol that a text gives, if the rest of it ends in a digit. */
  lemma GivenProtocol(core: string, address: string, protocol: string) returns (given: Option<string>)
    requires SplitProtocol(core) == (address, protocol) && core != "" && IsStripped(core)
    requires address != "" && IsDigit(address[|address| - 1])
    ensures core == address + (match given case Some(p) => "/" + p case None => "")
    ensures protocol == match given case Some(p) => p case None => "tcp"
    ensures match given
      case Some(p) => p != "" && '/' !in p && !IsSpace(p[|p| - 1])
      case None => '/' !in address
  {
    given := None;
    if '/' in core {
      var i := LastIndexOf(core, '/');
      assert core == core[..i] + "/" + core[i + 1..];
      if core[i + 1..] != "" {
        given := Some(protocol);
        assert protocol[|protocol| - 1] == core[|core| - 1];
      }
    }
  }

  /** So a text without a colon is never a mapping. */
  lemma MappingsHaveColons(text: string)
    requires Parse(text).Some?
    ensures ':' in text
  {
    var t := ParseIsSound(text);
    var i := |AddressOf(t)| - |t.container| - 1;
    assert AddressOf(t)[i] == ':';
    assert text[|t.left| + i] == ':';
  }

  /** In particular a container port alone is left as it is, with a protocol or without. */
  lemma ContainerPortAlone(port: string, protocol: string)
    requires IsDigits(port) && ':' !in protocol
    ensures Parse(port) == None && Parse(port + "/" + protocol) == None
  {
    DigitsContainNo(port, ':');
    if Parse(port).Some? { MappingsHaveColons(port); }
    if Parse(port + "/" + protocol).Some? { MappingsHaveColons(port + "/" + protocol); }
  }

  lemma TextOf(m: ShortPort)
    requires m.hostPort >= 0 && m.protocol != ""
    ensures Render(m) ==
            (if m.hostIp.Some? && m.hostIp.value != "" then m.hostIp.value + ":" else "") +
            Decimal(m.hostPort) + ":" + Decimal(m.containerPort) +
            (if m.protocol != "tcp" then "/" + m.protocol else "")
  {
    var ip := if m.hostIp.Some? && m.hostIp.value != "" then m.hostIp.value + ":" else "";
    var tail := if m.protocol != "tcp" then "/" + m.protocol else "";
    var host, container := Decimal(m.hostPort), Decimal(m.containerPort);
    FourParts(ip, host, container);
    assert RenderAddress(m) == ip + (host + ":" + container);
    assert RenderAddress(m) + tail == Render(m);
  }

  lemma FourParts(ip: string, host: string, container: string)
    ensures ip + (host + ":" + container) == ip + host + ":" + container
  {
  }

  /** What a mapping is rewritten to, whatever it looked like: the bind address unless it is empty, the
      new host port and the container port without leading zeros, and the protocol unless it is tcp. */
  lemma RewrittenText(text: string, t: Parts, port: nat)
    requires HasParts(text, t)
    ensures Parse(text).Some?
    ensures Render(Parse(text).value.(hostPort := port)) ==
            (if t.ip.Some? && t.ip.value != "" then t.ip.value + ":" else "") +
            Decimal(port) + ":" + Decimal(ParseNat(t.container)) +
            (if t.protocol.Some? && t.protocol.value != "tcp" then "/" + t.protocol.value else "")
  {
    ParseIsComplete(text, t);
    TextOf(MappingOf(t).(hostPort := port));
  }
}
