/** Endpoint text: parsing and printing of transport addresses and of endpoint
    specifications with a role prefix. The text form of IP addresses is a parameter. */
module Endpoint {
  import opened Words
  import opened Options

  // ---- Text ----

  /** The first place of `c`. */
  function Find(s: string, c: char): (r: Option<nat>)
    ensures r.None? ==> c !in s
    ensures r.Some? ==> r.value < |s| && s[r.value] == c && c !in s[..r.value]
  {
    if s == "" then None
    else if s[0] == c then Some(0)
    else
      match Find(s[1..], c)
      case None => None
      case Some(i) => Some(i + 1)
  }

  /** The last place of `c`. */
  function FindLast(s: string, c: char): (r: Option<nat>)
    ensures r.None? ==> c !in s
    ensures r.Some? ==> r.value < |s| && s[r.value] == c && c !in s[r.value + 1..]
  {
    if s == "" then None
    else
      var last := |s| - 1;
      if s[last] == c then Some(last) else FindLast(s[..last], c)
  }

  lemma {:induction false} FindAt(a: string, c: char, b: string)
    requires c !in a
    ensures Find(a + [c] + b, c) == Some(|a|)
  {
    if a != "" {
      FindAt(a[1..], c, b);
      assert (a + [c] + b)[1..] == a[1..] + [c] + b;
    }
  }

  lemma {:induction false} FindLastAt(a: string, c: char, b: string)
    requires c !in b
    ensures FindLast(a + [c] + b, c) == Some(|a|)
  {
    if b != "" {
      var last := |b| - 1;
      FindLastAt(a, c, b[..last]);
      assert (a + [c] + b)[..|a| + |b|] == a + [c] + b[..last];
    }
  }

  const SEPARATOR := "://"

  /** The first place of the scheme separator. */
  function FindSeparator(s: string): (r: Option<nat>)
    ensures r.Some? ==> r.value + 3 <= |s| && s[r.value..r.value + 3] == SEPARATOR
  {
    if |s| < 3 then None
    else if s[..3] == SEPARATOR then Some(0)
    else
      match FindSeparator(s[1..])
      case None => None
      case Some(i) => Some(i + 1)
  }

  lemma {:induction false} SeparatorAt(a: string, b: string)
    requires ':' !in a
    ensures FindSeparator(a + SEPARATOR + b) == Some(|a|)
  {
    var s := a + SEPARATOR + b;
    if a == "" {
      assert s[..3] == SEPARATOR;
    } else {
      SeparatorAt(a[1..], b);
      assert s[1..] == a[1..] + SEPARATOR + b;
      assert s[..3][0] == a[0] != ':';
    }
  }

  // ---- Ports ----

  predicate IsDigit(c: char) {
    '0' <= c <= '9'
  }

  function Digit(n: nat): char
    requires n < 10
  {
    (n + 48) as char
  }

  function PrintNumber(n: nat): (s: string)
    ensures s != "" && forall i :: 0 <= i < |s| ==> IsDigit(s[i])
  {
    if n < 10 then [Digit(n)] else PrintNumber(n / 10) + [Digit(n % 10)]
  }

  function DigitValue(c: char): nat
    requires IsDigit(c)
  {
    c as int - 48
  }

  function DigitsValue(s: string): nat
    requires forall i :: 0 <= i < |s| ==> IsDigit(s[i])
  {
    if s == "" then 0 else 10 * DigitsValue(s[..|s| - 1]) + DigitValue(s[|s| - 1])
  }

  predicate AllDigits(s: string) {
    forall i :: 0 <= i < |s| ==> IsDigit(s[i])
  }

  /** Decimal text with an optional plus sign, below 2^16. */
  function ParsePort(s: string): (r: Option<nat>)
    ensures r.Some? ==> r.value < 65536
  {
    var digits := if s != "" && s[0] == '+' then s[1..] else s;
    if digits == "" || !AllDigits(digits) then None
    else if DigitsValue(digits) < 65536 then Some(DigitsValue(digits)) else None
  }

  lemma {:induction false} NumberReadsBack(n: nat)
    ensures DigitsValue(PrintNumber(n)) == n
  {
    if n >= 10 {
      NumberReadsBack(n / 10);
      var s := PrintNumber(n);
      assert s[..|s| - 1] == PrintNumber(n / 10);
    } else {
      assert PrintNumber(n)[..0] == "";
    }
  }

  lemma PortReadsBack(port: nat)
    requires port < 65536
    ensures ParsePort(PrintNumber(port)) == Some(port)
  {
    NumberReadsBack(port);
    assert IsDigit(PrintNumber(port)[0]);
  }

  // ---- Hosts ----

  const OPEN_BRACKET := 91 as char
  const CLOSE_BRACKET := 93 as char

  type Address128 = x: int | 0 <= x < 0x1_0000_0000_0000_0000_0000_0000_0000_0000

  datatype Ip = V4(bits32: Word32) | V6(bits128: Address128)

  /** The text form of IP addresses. */
  datatype IpText = IpText(parse: string -> Option<Ip>, show: Ip -> string)

  predicate V4Char(c: char) {
    IsDigit(c) || c == '.'
  }

  predicate V6Char(c: char) {
    IsDigit(c) || 'a' <= c <= 'f' || c == ':' || c == '.'
  }

  /** The hypothesis on IP text: it reads back, and uses the usual characters. */
  ghost predicate Faithful(t: IpText) {
    forall ip ::
      && t.parse(t.show(ip)) == Some(ip) && t.show(ip) != ""
      && (ip.V4? ==> forall i :: 0 <= i < |t.show(ip)| ==> V4Char(t.show(ip)[i]))
      && (ip.V6? ==> forall i :: 0 <= i < |t.show(ip)| ==> V6Char(t.show(ip)[i]))
  }

  /** A text form that meets the hypothesis: addresses as decimal numbers, marked by their
      family, and no other text accepted. */
  function PlainShow(ip: Ip): string {
    match ip
    case V4(n) => PrintNumber(n) + "."
    case V6(n) => PrintNumber(n) + ":"
  }

  function PlainRead(s: string): Option<Ip> {
    if s == "" || exists i :: 0 <= i < |s| - 1 && !IsDigit(s[i]) then None
    else
      var last, n := s[|s| - 1], DigitsValue(s[..|s| - 1]);
      if last == '.' && n < 0x1_0000_0000 then Some(V4(n))
      else if last == ':' && n < 0x1_0000_0000_0000_0000_0000_0000_0000_0000 then Some(V6(n))
      else None
  }

  /** The hypothesis can be met, with parsed addresses within their widths. */
  lemma FaithfulTextExists()
    ensures Faithful(IpText(PlainRead, PlainShow))
  {
    forall ip: Ip
      ensures PlainRead(PlainShow(ip)) == Some(ip) && PlainShow(ip) != ""
      ensures ip.V4? ==> forall i :: 0 <= i < |PlainShow(ip)| ==> V4Char(PlainShow(ip)[i])
      ensures ip.V6? ==> forall i :: 0 <= i < |PlainShow(ip)| ==> V6Char(PlainShow(ip)[i])
    {
      var n: nat := if ip.V4? then ip.bits32 else ip.bits128;
      var s := PlainShow(ip);
      assert s[..|s| - 1] == PrintNumber(n);
      NumberReadsBack(n);
    }
  }

  datatype Host = IpHost(ip: Ip) | Name(name: string) | Wildcard

  predicate HostChar(c: char) {
    IsDigit(c) || 'a' <= c <= 'z' || 'A' <= c <= 'Z' || c == '.' || c == '-'
  }

  datatype Result<T> = Ok(value: T) | InvalidEndpoint | UnsupportedScheme

  function ParseHost(t: IpText, s: string): Result<Host> {
    if s == "*" || s == "" then Ok(Wildcard)
    else if ':' in s then InvalidEndpoint
    else
      match t.parse(s)
      case Some(ip) => Ok(IpHost(ip))
      case None =>
        if exists i :: 0 <= i < |s| && !HostChar(s[i]) then InvalidEndpoint else Ok(Name(s))
  }

  function PrintHost(t: IpText, h: Host): string {
    match h
    case IpHost(V4(a)) => t.show(V4(a))
    case IpHost(V6(a)) => "[" + t.show(V6(a)) + "]"
    case Name(n) => n
    case Wildcard => "*"
  }

  datatype Address = Address(host: Host, port: nat)

  function ParseBracketed(t: IpText, stripped: string): Result<Address> {
    match Find(stripped, CLOSE_BRACKET)
    case None => InvalidEndpoint
    case Some(close) =>
      var after := stripped[close + 1..];
      if after == "" || after[0] != ':' then InvalidEndpoint
      else
        match (ParsePort(after[1..]), t.parse(stripped[..close]))
        case (Some(port), Some(ip)) => Ok(Address(IpHost(ip), port))
        case _ => InvalidEndpoint
  }

  function ParseHostPort(t: IpText, rest: string): Result<Address> {
    if rest != "" && rest[0] == OPEN_BRACKET then ParseBracketed(t, rest[1..])
    else
      match FindLast(rest, ':')
      case None => InvalidEndpoint
      case Some(i) =>
        var portText := rest[i + 1..];
        var port := if portText == "*" then Some(0) else ParsePort(portText);
        match (port, ParseHost(t, rest[..i]))
        case (Some(p), Ok(h)) => Ok(Address(h, p))
        case _ => InvalidEndpoint
  }

  function PrintAddress(t: IpText, a: Address): string {
    PrintHost(t, a.host) + ":" + PrintNumber(a.port)
  }

  /** The hosts parsing can produce. */
  predicate ValidHost(t: IpText, h: Host) {
    h.Name? ==> h.name != "" && t.parse(h.name).None? && forall i :: 0 <= i < |h.name| ==> HostChar(h.name[i])
  }

  predicate ValidAddress(t: IpText, a: Address) {
    ValidHost(t, a.host) && a.port < 65536
  }

  lemma ParsedAddressValid(t: IpText, rest: string)
    ensures ParseHostPort(t, rest).Ok? ==> ValidAddress(t, ParseHostPort(t, rest).value)
  {
  }

  /** The characters printed addresses are made of. */
  predicate AddressChar(c: char) {
    HostChar(c) || c == ':' || c == OPEN_BRACKET || c == CLOSE_BRACKET || c == '*'
  }

  predicate AllAddressChars(s: string) {
    forall i :: 0 <= i < |s| ==> AddressChar(s[i])
  }

  lemma AddressText(t: IpText, a: Address)
    requires Faithful(t) && ValidAddress(t, a)
    ensures AllAddressChars(PrintAddress(t, a)) && PrintAddress(t, a) != ""
  {
    HostText(t, a.host);
    var h, p := PrintHost(t, a.host), PrintNumber(a.port);
    assert PrintAddress(t, a) == h + ":" + p;
  }

  lemma HostText(t: IpText, h: Host)
    requires Faithful(t) && ValidHost(t, h)
    ensures AllAddressChars(PrintHost(t, h))
  {
    match h {
      case IpHost(V4(a)) => assert forall i :: 0 <= i < |t.show(V4(a))| ==> V4Char(t.show(V4(a))[i]);
      case IpHost(V6(a)) => assert forall i :: 0 <= i < |t.show(V6(a))| ==> V6Char(t.show(V6(a))[i]);
      case Name(n) => assert forall i :: 0 <= i < |n| ==> HostChar(n[i]);
      case Wildcard =>
    }
  }

  lemma BracketedReadsBack(t: IpText, ip: Ip, port: nat)
    requires Faithful(t) && ip.V6? && port < 65536
    ensures ParseHostPort(t, "[" + t.show(ip) + "]" + ":" + PrintNumber(port)) == Ok(Address(IpHost(ip), port))
  {
    var text, number := t.show(ip), PrintNumber(port);
    var rest := "[" + text + "]" + ":" + number;
    var stripped := rest[1..];
    assert stripped == text + [CLOSE_BRACKET] + (":" + number);
    assert forall i :: 0 <= i < |text| ==> V6Char(text[i]);
    assert CLOSE_BRACKET !in text;
    FindAt(text, CLOSE_BRACKET, ":" + number);
    assert stripped[|text| + 1..] == ":" + number;
    assert (":" + number)[1..] == number;
    assert stripped[..|text|] == text;
    PortReadsBack(port);
  }

  lemma PlainReadsBack(t: IpText, h: Host, text: string, port: nat)
    requires port < 65536 && ParseHost(t, text) == Ok(h) && (text != "" ==> text[0] != OPEN_BRACKET)
    ensures ParseHostPort(t, text + ":" + PrintNumber(port)) == Ok(Address(h, port))
  {
    var number := PrintNumber(port);
    var rest := text + ":" + number;
    assert rest == text + [':'] + number;
    assert rest[0] != OPEN_BRACKET;
    assert forall i :: 0 <= i < |number| ==> IsDigit(number[i]);
    assert ':' !in number;
    FindLastAt(text, ':', number);
    assert rest[..|text|] == text && rest[|text| + 1..] == number;
    assert IsDigit(number[0]);
    assert number != "*";
    PortReadsBack(port);
  }

  lemma HostReadsBack(t: IpText, h: Host)
    requires Faithful(t) && ValidHost(t, h) && !(h.IpHost? && h.ip.V6?)
    ensures ParseHost(t, PrintHost(t, h)) == Ok(h)
    ensures PrintHost(t, h) != "" && PrintHost(t, h)[0] != OPEN_BRACKET
  {
    match h {
      case IpHost(ip) =>
        var text := t.show(ip);
        assert forall i :: 0 <= i < |text| ==> V4Char(text[i]);
        assert V4Char(text[0]);
      case Name(n) =>
        assert HostChar(n[0]);
      case Wildcard =>
    }
  }

  lemma AddressReadsBack(t: IpText, a: Address)
    requires Faithful(t) && ValidAddress(t, a)
    ensures ParseHostPort(t, PrintAddress(t, a)) == Ok(a)
  {
    hide ParseHostPort, ParseHost, Faithful;
    if a.host.IpHost? && a.host.ip.V6? {
      BracketedReadsBack(t, a.host.ip, a.port);
    } else {
      HostReadsBack(t, a.host);
      PlainReadsBack(t, a.host, PrintHost(t, a.host), a.port);
    }
  }

  // ---- Endpoints ----

  datatype Transport = Tcp | Lz4Tcp | ZstdTcp

  datatype WebTransport = Ws | Wss | Lz4Ws

  datatype IpcPath = Filesystem(path: string) | Abstract(name: string)

  /** An endpoint on a Unix platform with compression and WebSocket support. */
  datatype Endpoint =
    | Stream(transport: Transport, address: Address)
    | Ipc(path: IpcPath)
    | Inproc(name: string)
    | Udp(group: Option<string>, address: Address)
    | Web(web: WebTransport, address: Address, urlPath: string)

  function StreamScheme(tr: Transport): string {
    match tr
    case Tcp => "tcp"
    case Lz4Tcp => "lz4+tcp"
    case ZstdTcp => "zstd+tcp"
  }

  function WebScheme(w: WebTransport): string {
    match w
    case Ws => "ws"
    case Wss => "wss"
    case Lz4Ws => "lz4+ws"
  }

  function ParseStream(t: IpText, tr: Transport, rest: string): Result<Endpoint> {
    match ParseHostPort(t, rest)
    case Ok(a) => Ok(Stream(tr, a))
    case _ => InvalidEndpoint
  }

  function ParseIpc(rest: string): Result<Endpoint> {
    if rest == "" then InvalidEndpoint
    else if rest[0] == '@' then
      if rest[1..] == "" then InvalidEndpoint else Ok(Ipc(Abstract(rest[1..])))
    else Ok(Ipc(Filesystem(rest)))
  }

  function ParseUdp(t: IpText, rest: string): Result<Endpoint> {
    var (group, hp) :=
      match Find(rest, '@')
      case Some(i) => if i > 0 then (Some(rest[..i]), rest[i + 1..]) else (None, rest)
      case None => (None, rest);
    match ParseHostPort(t, hp)
    case Ok(a) => Ok(Udp(group, a))
    case _ => InvalidEndpoint
  }

  predicate PathOk(path: string) {
    '\r' !in path && '\n' !in path
  }

  function ParseWeb(t: IpText, w: WebTransport, rest: string): Result<Endpoint> {
    var (hp, path) :=
      match Find(rest, '/')
      case Some(i) => (rest[..i], rest[i..])
      case None => (rest, "/");
    match ParseHostPort(t, hp)
    case Ok(a) => if PathOk(path) then Ok(Web(w, a, path)) else InvalidEndpoint
    case _ => InvalidEndpoint
  }

  function ParseScheme(t: IpText, scheme: string, rest: string): Result<Endpoint> {
    if scheme == "tcp" then ParseStream(t, Tcp, rest)
    else if scheme == "ipc" then ParseIpc(rest)
    else if scheme == "inproc" then if rest == "" then InvalidEndpoint else Ok(Inproc(rest))
    else if scheme == "udp" then ParseUdp(t, rest)
    else if scheme == "lz4+tcp" then ParseStream(t, Lz4Tcp, rest)
    else if scheme == "zstd+tcp" then ParseStream(t, ZstdTcp, rest)
    else if scheme == "ws" then ParseWeb(t, Ws, rest)
    else if scheme == "wss" then ParseWeb(t, Wss, rest)
    else if scheme == "lz4+ws" then ParseWeb(t, Lz4Ws, rest)
    else UnsupportedScheme
  }

  function Parse(t: IpText, s: string): Result<Endpoint> {
    match FindSeparator(s)
    case None => InvalidEndpoint
    case Some(i) => ParseScheme(t, s[..i], s[i + 3..])
  }

  function SchemeOf(e: Endpoint): string {
    match e
    case Stream(tr, _) => StreamScheme(tr)
    case Ipc(_) => "ipc"
    case Inproc(_) => "inproc"
    case Udp(_, _) => "udp"
    case Web(w, _, _) => WebScheme(w)
  }

  function PrintRest(t: IpText, e: Endpoint): string {
    match e
    case Stream(_, a) => PrintAddress(t, a)
    case Ipc(Filesystem(path)) => path
    case Ipc(Abstract(name)) => "@" + name
    case Inproc(name) => name
    case Udp(Some(group), a) => group + "@" + PrintAddress(t, a)
    case Udp(None, a) => PrintAddress(t, a)
    case Web(_, a, path) => PrintAddress(t, a) + path
  }

  function Print(t: IpText, e: Endpoint): string {
    SchemeOf(e) + SEPARATOR + PrintRest(t, e)
  }

  /** The endpoints that parsing can produce, said without parsing. */
  predicate ValidEndpoint(t: IpText, e: Endpoint) {
    match e
    case Stream(_, a) => ValidAddress(t, a)
    case Ipc(Filesystem(path)) => path != "" && path[0] != '@'
    case Ipc(Abstract(name)) => name != ""
    case Inproc(name) => name != ""
    case Udp(group, a) => ValidAddress(t, a) && (group.Some? ==> group.value != "" && '@' !in group.value)
    case Web(_, a, path) => ValidAddress(t, a) && path != "" && path[0] == '/' && PathOk(path)
  }

  lemma ParsedEndpointValid(t: IpText, s: string)
    ensures Parse(t, s).Ok? ==> ValidEndpoint(t, Parse(t, s).value)
  {
    hide ParseHostPort, Find, FindSeparator, ValidAddress;
    if Parse(t, s).Ok? {
      var i := FindSeparator(s).value;
      ParsedRestValid(t, s[..i], s[i + 3..]);
    }
  }

  lemma ParsedRestValid(t: IpText, scheme: string, rest: string)
    ensures ParseScheme(t, scheme, rest).Ok? ==> ValidEndpoint(t, ParseScheme(t, scheme, rest).value)
  {
    hide ParseHostPort, Find, ValidAddress;
    ParsedAddressValid(t, rest);
    match Find(rest, '@') {
      case Some(i) => ParsedAddressValid(t, rest[i + 1..]);
      case None =>
    }
    match Find(rest, '/') {
      case Some(i) => ParsedAddressValid(t, rest[..i]);
      case None =>
    }
  }

  lemma UdpReadsBack(t: IpText, group: Option<string>, a: Address)
    requires Faithful(t) && ValidEndpoint(t, Udp(group, a))
    ensures ParseUdp(t, PrintRest(t, Udp(group, a))) == Ok(Udp(group, a))
  {
    hide ParseHostPort, PrintAddress, Faithful, ValidAddress;
    AddressReadsBack(t, a);
    var text := PrintAddress(t, a);
    if group.Some? {
      var rest := group.value + "@" + text;
      assert rest == group.value + ['@'] + text;
      FindAt(group.value, '@', text);
      assert rest[..|group.value|] == group.value && rest[|group.value| + 1..] == text;
    } else {
      NotInAddress(t, a, '@');
    }
  }

  lemma NotInAddress(t: IpText, a: Address, c: char)
    requires Faithful(t) && ValidAddress(t, a) && !AddressChar(c)
    ensures c !in PrintAddress(t, a)
  {
    hide Faithful, ValidAddress, PrintAddress;
    AddressText(t, a);
  }

  lemma WebReadsBack(t: IpText, w: WebTransport, a: Address, path: string)
    requires Faithful(t) && ValidEndpoint(t, Web(w, a, path))
    ensures ParseWeb(t, w, PrintAddress(t, a) + path) == Ok(Web(w, a, path))
  {
    hide ParseHostPort, PrintAddress, Faithful, ValidAddress, Find;
    AddressReadsBack(t, a);
    NotInAddress(t, a, '/');
    var text := PrintAddress(t, a);
    var rest := text + path;
    assert rest == text + ['/'] + path[1..];
    FindAt(text, '/', path[1..]);
    assert rest[..|text|] == text && rest[|text|..] == path;
  }

  lemma RestReadsBack(t: IpText, e: Endpoint)
    requires Faithful(t) && ValidEndpoint(t, e)
    ensures ParseScheme(t, SchemeOf(e), PrintRest(t, e)) == Ok(e)
  {
    hide ParseHostPort, PrintAddress, Faithful, ValidAddress, Find, ParseUdp, ParseWeb;
    match e {
      case Stream(tr, a) => AddressReadsBack(t, a);
      case Ipc(Abstract(name)) => assert ("@" + name)[1..] == name;
      case Udp(group, a) => UdpReadsBack(t, group, a);
      case Web(w, a, path) => WebReadsBack(t, w, a, path);
      case _ =>
    }
  }

  /** Printing a valid endpoint and parsing the text gives the endpoint back. */
  lemma EndpointReadsBack(t: IpText, e: Endpoint)
    requires Faithful(t) && ValidEndpoint(t, e)
    ensures Parse(t, Print(t, e)) == Ok(e)
  {
    hide Faithful, ValidEndpoint, ParseScheme, PrintRest, FindSeparator;
    var scheme, rest := SchemeOf(e), PrintRest(t, e);
    SeparatorAt(scheme, rest);
    assert Print(t, e)[..|scheme|] == scheme && Print(t, e)[|scheme| + 3..] == rest;
    RestReadsBack(t, e);
  }

  /** For every text that parses, printing the result and parsing again gives the same
      endpoint; and the endpoints that parse from some text are exactly the valid ones. */
  lemma ParsePrintParse(t: IpText, s: string)
    requires Faithful(t) && Parse(t, s).Ok?
    ensures Parse(t, Print(t, Parse(t, s).value)) == Parse(t, s)
    ensures ValidEndpoint(t, Parse(t, s).value)
  {
    hide Parse, Print, Faithful, ValidEndpoint;
    ParsedEndpointValid(t, s);
    EndpointReadsBack(t, Parse(t, s).value);
  }

  // ---- Specifications ----

  datatype Role = Bind | Connect | Default

  datatype EndpointSpec = EndpointSpec(role: Role, endpoint: Endpoint)

  function ParseSpec(t: IpText, s: string): Result<EndpointSpec> {
    var (role, rest) :=
      if s != "" && s[0] == '@' then (Bind, s[1..])
      else if s != "" && s[0] == '>' then (Connect, s[1..])
      else (Default, s);
    match Parse(t, rest)
    case Ok(e) => Ok(EndpointSpec(role, e))
    case InvalidEndpoint => InvalidEndpoint
    case UnsupportedScheme => UnsupportedScheme
  }

  function PrintSpec(t: IpText, x: EndpointSpec): string {
    match x.role
    case Bind => "@" + Print(t, x.endpoint)
    case Connect => ">" + Print(t, x.endpoint)
    case Default => Print(t, x.endpoint)
  }

  lemma PrintStartsWithLetter(t: IpText, e: Endpoint)
    ensures Print(t, e) != "" && Print(t, e)[0] != '@' && Print(t, e)[0] != '>'
  {
    hide PrintRest;
  }

  /** The same round trip with role prefixes. */
  lemma ParsePrintParseSpec(t: IpText, s: string)
    requires Faithful(t) && ParseSpec(t, s).Ok?
    ensures ParseSpec(t, PrintSpec(t, ParseSpec(t, s).value)) == ParseSpec(t, s)
  {
    hide Parse, Print, Faithful;
    var x := ParseSpec(t, s).value;
    ParsedEndpointValid(t, if s != "" && (s[0] == '@' || s[0] == '>') then s[1..] else s);
    EndpointReadsBack(t, x.endpoint);
    PrintStartsWithLetter(t, x.endpoint);
    assert ("@" + Print(t, x.endpoint))[1..] == Print(t, x.endpoint);
    assert (">" + Print(t, x.endpoint))[1..] == Print(t, x.endpoint);
  }

  // ---- Literal texts ----

  /** Digits stand for their values, and ports end at 65535. */
  lemma DigitTexts(n: nat)
    ensures forall i :: 0 <= i < 10 ==> Digit(i) == "0123456789"[i] && DigitValue("0123456789"[i]) == i
    ensures ParsePort(PrintNumber(n)) == if n <= 65535 then Some(n) else None
    ensures ParsePort("+" + PrintNumber(n)) == ParsePort(PrintNumber(n))
    ensures ParsePort("").None? && ParsePort("+").None?
  {
    NumberReadsBack(n);
    assert IsDigit(PrintNumber(n)[0]);
    assert ("+" + PrintNumber(n))[1..] == PrintNumber(n);
  }

  lemma NoOtherPorts(s: string, i: nat)
    requires i < |s| && !('0' <= s[i] <= '9') && !(i == 0 && s[0] == '+')
    ensures ParsePort(s).None?
  {
    var digits := if s != "" && s[0] == '+' then s[1..] else s;
    var j := if s[0] == '+' then i - 1 else i;
    assert 0 <= j < |digits| && !IsDigit(digits[j]);
    assert !AllDigits(digits);
  }

  /** A host that is not an IP address is a name of letters, digits, dots and hyphens. */
  lemma NameTexts(t: IpText, s: string)
    requires s != "" && s != "*" && t.parse(s).None?
    ensures ParseHost(t, s).Ok? <==>
              forall i :: 0 <= i < |s| ==>
                || '0' <= s[i] <= '9' || 'a' <= s[i] <= 'z' || 'A' <= s[i] <= 'Z' || s[i] == '.' || s[i] == '-'
    ensures ParseHost(t, s).Ok? ==> ParseHost(t, s) == Ok(Name(s))
  {
    if ':' in s {
      var i :| 0 <= i < |s| && s[i] == ':';
    } else if i :| 0 <= i < |s| && !HostChar(s[i]) {
      assert !('0' <= s[i] <= '9');
    }
  }

  /** `*` and nothing at all are the wildcard host, and `*` is port 0. */
  lemma StarTexts(t: IpText, host: string)
    requires host != "" ==> host[0] != OPEN_BRACKET
    ensures ParseHost(t, "*") == ParseHost(t, "") == Ok(Wildcard)
    ensures ParseHostPort(t, host + ":*") ==
              match ParseHost(t, host) case Ok(h) => Ok(Address(h, 0)) case _ => InvalidEndpoint
  {
    hide ParseHost;
    StarHost(t);
    var rest := host + ":*";
    assert rest == host + [':'] + "*";
    FindLastAt(host, ':', "*");
    assert rest[..|host|] == host && rest[|host| + 1..] == "*";
    assert rest[0] != OPEN_BRACKET;
  }

  lemma StarHost(t: IpText)
    ensures ParseHost(t, "*") == ParseHost(t, "") == Ok(Wildcard)
  {
  }

  /** A text splits at its first separator; what is in front of it names the transport. */
  lemma SchemeTexts(t: IpText, scheme: string, rest: string)
    requires ':' !in scheme
    ensures var r := Parse(t, scheme + "://" + rest);
            && (scheme == "tcp" ==> r == ParseStream(t, Tcp, rest))
            && (scheme == "lz4+tcp" ==> r == ParseStream(t, Lz4Tcp, rest))
            && (scheme == "zstd+tcp" ==> r == ParseStream(t, ZstdTcp, rest))
            && (scheme == "ipc" ==> r == ParseIpc(rest))
            && (scheme == "inproc" ==> r == if rest == "" then InvalidEndpoint else Ok(Inproc(rest)))
            && (scheme == "udp" ==> r == ParseUdp(t, rest))
            && (scheme == "ws" ==> r == ParseWeb(t, Ws, rest))
            && (scheme == "wss" ==> r == ParseWeb(t, Wss, rest))
            && (scheme == "lz4+ws" ==> r == ParseWeb(t, Lz4Ws, rest))
            && (scheme !in ["tcp", "lz4+tcp", "zstd+tcp", "ipc", "inproc", "udp", "ws", "wss", "lz4+ws"] ==>
                  r == UnsupportedScheme)
  {
    hide FindSeparator, ParseStream, ParseIpc, ParseUdp, ParseWeb;
    var s := scheme + "://" + rest;
    SeparatorAt(scheme, rest);
    assert s[..|scheme|] == scheme && s[|scheme| + 3..] == rest;
  }

  /** IPC names after `@` are abstract, all others are paths. */
  lemma IpcTexts(name: string)
    ensures ParseIpc("@" + name) == if name == "" then InvalidEndpoint else Ok(Ipc(Abstract(name)))
    ensures name != "" && name[0] != '@' ==> ParseIpc(name) == Ok(Ipc(Filesystem(name)))
    ensures ParseIpc("") == InvalidEndpoint
  {
    assert ("@" + name)[1..] == name;
  }

  /** What stands before the first `@` of a UDP address is the group. */
  lemma UdpTexts(t: IpText, group: string, rest: string)
    requires '@' !in group
    ensures group != "" ==>
              ParseUdp(t, group + "@" + rest) ==
                match ParseHostPort(t, rest) case Ok(a) => Ok(Udp(Some(group), a)) case _ => InvalidEndpoint
    ensures ParseUdp(t, group) ==
              match ParseHostPort(t, group) case Ok(a) => Ok(Udp(None, a)) case _ => InvalidEndpoint
  {
    hide ParseHostPort;
    var s := group + "@" + rest;
    assert s == group + ['@'] + rest;
    FindAt(group, '@', rest);
    assert s[..|group|] == group && s[|group| + 1..] == rest;
  }

  /** A WebSocket path starts at the first slash, and is the root without one. */
  lemma WebTexts(t: IpText, w: WebTransport, hp: string, path: string)
    requires '/' !in hp
    ensures ParseWeb(t, w, hp) ==
              match ParseHostPort(t, hp) case Ok(a) => Ok(Web(w, a, "/")) case _ => InvalidEndpoint
    ensures ParseWeb(t, w, hp + "/" + path) ==
              match ParseHostPort(t, hp)
              case Ok(a) =>
                if '\r' in path || '\n' in path then InvalidEndpoint else Ok(Web(w, a, "/" + path))
              case _ => InvalidEndpoint
  {
    hide ParseHostPort;
    var s := hp + "/" + path;
    assert s == hp + ['/'] + path;
    FindAt(hp, '/', path);
    assert s[..|hp|] == hp && s[|hp|..] == "/" + path;
    PathTexts(path);
  }

  lemma PathTexts(path: string)
    ensures PathOk("/") && (PathOk("/" + path) <==> '\r' !in path && '\n' !in path)
  {
    var p := "/" + path;
    assert forall i :: 0 <= i < |path| ==> p[i + 1] == path[i];
  }

  /** `@` asks to bind and `>` to connect. */
  lemma RoleTexts(t: IpText, s: string)
    ensures Parse(t, s).Ok? ==>
              && ParseSpec(t, "@" + s) == Ok(EndpointSpec(Bind, Parse(t, s).value))
              && ParseSpec(t, ">" + s) == Ok(EndpointSpec(Connect, Parse(t, s).value))
              && (s != "" && s[0] != '@' && s[0] != '>' ==>
                    ParseSpec(t, s) == Ok(EndpointSpec(Default, Parse(t, s).value)))
  {
    hide Parse;
    assert ("@" + s)[1..] == s && (">" + s)[1..] == s;
  }
}
