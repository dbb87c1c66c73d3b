/** The short port syntax of compose files: `[address:]host:container[/protocol]`. */
module ShortPorts {
  import opened Text
  import opened Wrappers

  datatype ShortPort = ShortPort(hostIp: Option<string>, hostPort: int, containerPort: nat, protocol: string)

  /** The text without its protocol, and the protocol. A trailing '/' counts as text. */
  function SplitProtocol(text: string): (string, string)
  {
    if '/' !in text then (text, "tcp") else
    var i := LastIndexOf(text, '/');
    if text[i + 1..] == "" then (text, "tcp") else (text[..i], text[i + 1..])
  }

  function Parse(value: string): Option<ShortPort>
  {
    var text := Strip(value);
    if text == "" then None else
    var (address, protocol) := SplitProtocol(text);
    var parts := Split(address, ':');
    if |parts| == 2 then
      if IsDigits(parts[0]) && IsDigits(parts[1])
      then Some(ShortPort(None, ParseNat(parts[0]), ParseNat(parts[1]), protocol))
      else None
    else if |parts| == 3 then
      if IsDigits(parts[1]) && IsDigits(parts[2])
      then Some(ShortPort(Some(parts[0]), ParseNat(parts[1]), ParseNat(parts[2]), protocol))
      else None
    else None
  }

  function RenderAddress(m: ShortPort): string
  {
    var base := Numeral(m.hostPort) + ":" + Decimal(m.containerPort);
    if m.hostIp.Some? && m.hostIp.value != "" then m.hostIp.value + ":" + base else base
  }

  function Render(m: ShortPort): string
  {
    if m.protocol != "" && m.protocol != "tcp" then RenderAddress(m) + "/" + m.protocol else RenderAddress(m)
  }

  /** An empty bind address is no bind address. */
  function WithoutEmptyAddress(m: ShortPort): ShortPort
  {
    if m.hostIp == Some("") then m.(hostIp := None) else m
  }

  /** What the parser guarantees about its result. */
  predicate Parsed(m: ShortPort)
  {
    && (m.hostIp.Some? ==> ':' !in m.hostIp.value && (m.hostIp.value != "" ==> !IsSpace(m.hostIp.value[0])))
    && m.hostPort >= 0
    && m.protocol != "" && '/' !in m.protocol && !IsSpace(m.protocol[|m.protocol| - 1])
  }

  /** The one case that does not survive: the printer omits the protocol "tcp", so a '/' inside the
      bind address is then read back as the protocol separator. */
  predicate SurvivesPrinting(m: ShortPort)
  {
    m.protocol != "tcp" || m.hostIp.None? || '/' !in m.hostIp.value
  }

  lemma ParseResultIsParsed(value: string)
    requires Parse(value).Some?
    ensures Parsed(Parse(value).value)
  {
    var text := Strip(value);
    var (address, protocol) := SplitProtocol(text);
    var parts := Split(address, ':');
    if parts[0] != "" {
      assert parts[0][0] == text[0];
    }
  }

  /** The parts of a printed address. */
  lemma SplitOfAddress(m: ShortPort)
    requires Parsed(m)
    ensures Split(RenderAddress(m), ':') ==
      (if m.hostIp.Some? && m.hostIp.value != "" then [m.hostIp.value] else []) +
      [Decimal(m.hostPort), Decimal(m.containerPort)]
  {
    var host, container := Decimal(m.hostPort), Decimal(m.containerPort);
    DigitsContainNo(host, ':');
    DigitsContainNo(container, ':');
    SplitAtFirst(container, "", ':');
    SplitAtFirst(host, container, ':');
    var base := host + ":" + container;
    assert Split(base, ':') == [host, container];
    if m.hostIp.Some? && m.hostIp.value != "" {
      SplitAtFirst(m.hostIp.value, base, ':');
      assert RenderAddress(m) == m.hostIp.value + [':'] + base;
    } else {
      assert RenderAddress(m) == base;
    }
  }

  /** The address begins and ends with a character that stripping keeps, and a '/' in it lies in
      the bind address. */
  lemma ShapeOfAddress(m: ShortPort)
    requires Parsed(m)
    ensures var a := RenderAddress(m); a != "" && !IsSpace(a[0]) && !IsSpace(a[|a| - 1])
    ensures '/' in RenderAddress(m) <==> m.hostIp.Some? && '/' in m.hostIp.value
  {
    DigitsContainNo(Decimal(m.hostPort), '/');
    DigitsContainNo(Decimal(m.containerPort), '/');
  }

  lemma LastSlash(left: string, right: string)
    requires '/' !in right
    ensures '/' in left + "/" + right && LastIndexOf(left + "/" + right, '/') == |left|
  {
    var s := left + "/" + right;
    assert s[|left|] == '/';
    assert forall k :: |left| < k < |s| ==> s[k] == right[k - |left| - 1];
  }

  lemma ParseOfPrintedAddress(m: ShortPort, value: string)
    requires Parsed(m)
    requires Strip(value) == value != ""
    requires SplitProtocol(value) == (RenderAddress(m), m.protocol)
    ensures Parse(value) == Some(WithoutEmptyAddress(m))
  {
    SplitOfAddress(m);
    DecimalRoundTrip(m.hostPort);
    DecimalRoundTrip(m.containerPort);
  }

  /** Parsing undoes printing, for every mapping the parser can produce and whatever host port is
      written into it, if and only if the mapping is not a tcp one with a '/' in its address; in the
      excluded case the printed text is not parsed at all. */
  lemma PrintThenParse(m: ShortPort)
    requires Parsed(m)
    ensures Parse(Render(m)) == if SurvivesPrinting(m) then Some(WithoutEmptyAddress(m)) else None
  {
    ShapeOfAddress(m);
    var address := RenderAddress(m);
    if m.protocol != "tcp" {
      LastSlash(address, m.protocol);
      var text := address + "/" + m.protocol;
      assert Render(m) == text && text[0] == address[0];
      assert text[..|address|] == address && text[|address| + 1..] == m.protocol;
      ParseOfPrintedAddress(m, text);
    } else if SurvivesPrinting(m) {
      ParseOfPrintedAddress(m, address);
    } else {
      SlashInAddress(m);
    }
  }

  lemma SlashInAddress(m: ShortPort)
    requires Parsed(m) && !SurvivesPrinting(m)
    ensures Parse(Render(m)).None?
  {
    ShapeOfAddress(m);
    var text, ip := RenderAddress(m), m.hostIp.value;
    var i := LastIndexOf(ip, '/');
    var right := ip[i + 1..] + ":" + Decimal(m.hostPort) + ":" + Decimal(m.containerPort);
    DigitsContainNo(Decimal(m.hostPort), '/');
    DigitsContainNo(Decimal(m.containerPort), '/');
    assert text == ip[..i] + "/" + right;
    LastSlash(ip[..i], right);
    assert text[..i] == ip[..i] && text[i + 1..] == right;
    assert SplitProtocol(text) == (ip[..i], right);
    SplitAtFirst(ip[..i], "", ':');
  }

  /** Reading back what was read and printed gives the same mapping exactly when the guard holds. */
  lemma ParsePrintParse(value: string)
    requires Parse(value).Some?
    ensures Parse(Render(Parse(value).value)) == Some(WithoutEmptyAddress(Parse(value).value)) <==>
            SurvivesPrinting(Parse(value).value)
  {
    ParseResultIsParsed(value);
    PrintThenParse(Parse(value).value);
  }

  /** A concrete value that does not survive. */
  lemma SlashAddressIsLost()
    ensures Parse("a/b:80:90/tcp") == Some(ShortPort(Some("a/b"), 80, 90, "tcp"))
    ensures Parse(Render(ShortPort(Some("a/b"), 80, 90, "tcp"))) == None
  {
    var m := ShortPort(Some("a/b"), 80, 90, "tcp");
    ExplicitTcp(m);
    PrintThenParse(m);
    PrintedExample(m);
  }

  lemma PrintedExample(m: ShortPort)
    requires m == ShortPort(Some("a/b"), 80, 90, "tcp")
    ensures RenderAddress(m) + "/tcp" == "a/b:80:90/tcp"
  {
    TwoDigits(80);
    TwoDigits(90);
  }

  lemma TwoDigits(n: nat)
    requires 10 <= n < 100
    ensures Decimal(n) == [(n / 10 + '0' as int) as char, (n % 10 + '0' as int) as char]
  {
  }

  /** Written with an explicit protocol, every mapping is read back. */
  lemma ExplicitTcp(m: ShortPort)
    requires Parsed(m) && m.protocol == "tcp"
    ensures Parse(RenderAddress(m) + "/tcp") == Some(WithoutEmptyAddress(m))
  {
    ShapeOfAddress(m);
    var address := RenderAddress(m);
    var text := address + "/" + m.protocol;
    assert text == address + "/tcp" by { assert "/" + m.protocol == "/tcp"; }
    LastSlash(address, m.protocol);
    assert text[0] == address[0];
    assert text[..|address|] == address && text[|address| + 1..] == m.protocol;
    ParseOfPrintedAddress(m, text);
  }

  /** The text an entry is rewritten to when its port does not move. */
  function NormalForm(value: string): string
  {
    match Parse(value)
    case None => value
    case Some(m) => Render(m)
  }

  /** Rewriting twice is rewriting once, for every text. */
  lemma NormalFormIsStable(value: string)
    ensures NormalForm(NormalForm(value)) == NormalForm(value)
  {
    if Parse(value).Some? {
      var m := Parse(value).value;
      ParseResultIsParsed(value);
      PrintThenParse(m);
    }
  }
}
