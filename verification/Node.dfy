/**
 Upstream node addresses: `host`, `host:port` and `[ipv6]:port`, read and written. The bracketed form is the
 IP-literal of section 3.2.2 of RFC 3986.
 */
module NodeAddr {
  import opened Wrappers
  import opened Texts
  import opened Decimal
  import opened Sorting

  type Port = p: int | 1 <= p <= 65535 witness 80

  datatype Scheme = Http | Https | Grpc | Grpcs

  datatype Node = Node(host: Text, port: Option<Port>, weight: nat, priority: int)

  datatype AddrError = InvalidAddressFormat | InvalidHost | InvalidPort

  /** The library parsers of IP addresses and the host name expression, as far as their character sets go. */
  datatype RawSyntax = Syntax(v4: Text -> bool, v6: Text -> bool, fqdn: Text -> bool)

  ghost predicate PlausibleSyntax(syn: RawSyntax) {
    && (forall s: Text :: syn.v4(s) || syn.fqdn(s) ==> s != [] && COLON !in s && LBRACKET !in s)
    && (forall s: Text :: syn.v6(s) ==> COLON in s && LBRACKET !in s && RBRACKET !in s && NEWLINE !in s)
  }

  // ----- validation -----

  function Bracketed(host: Text): Text {
    [LBRACKET] + host + [RBRACKET]
  }

  predicate HasBrackets(host: Text) {
    |host| > 2 && host[0] == LBRACKET && host[|host| - 1] == RBRACKET
  }

  function StripIpv6Brackets(host: Text): Text {
    if HasBrackets(host) then Inside(host) else host
  }

  function Inside(host: Text): Text
    requires HasBrackets(host)
  {
    host[1..|host| - 1]
  }

  function Split(s: Text, sep: Byte): seq<Text>
    decreases |s|
  {
    if s == [] then [[]]
    else if s[0] == sep then [[]] + Split(s[1..], sep)
    else var parts := Split(s[1..], sep); [[s[0]] + parts[0]] + parts[1..]
  }

  /** Four nonempty parts of digits between dots. */
  predicate Ipv4Shaped(s: Text) {
    var parts := Split(s, DOT);
    |parts| == 4 && forall i :: 0 <= i < 4 ==> parts[i] != [] && AllDigits(parts[i])
  }

  method IsIpv4Shaped(s: Text) returns (shaped: bool)
    ensures shaped == Ipv4Shaped(s)
  {
    var parts := 0;
    var all := Split(s, DOT);
    for i := 0 to |all|
      invariant parts == i <= 4
      invariant forall j :: 0 <= j < i ==> all[j] != [] && AllDigits(all[j])
    {
      parts := parts + 1;
      if parts > 4 || all[i] == [] || !AllDigits(all[i]) {
        return false;
      }
    }
    return parts == 4;
  }

  predicate ValidHost(syn: RawSyntax, host: Text) {
    && host != []
    && (host[0] == LBRACKET ==> HasBrackets(host))
    && var bare := StripIpv6Brackets(host);
       syn.v4(bare) || syn.v6(bare) || (!Ipv4Shaped(bare) && syn.fqdn(host))
  }

  // ----- reading -----

  /** What the optional port group and the end of the address match. */
  function Tail(s: Text): Option<Option<Text>> {
    if s == [] then Some(None)
    else if s[0] == COLON && |s| > 1 && AllDigits(s[1..]) then Some(Some(s[1..]))
    else None
  }

  /** The first `]` at or after `k` that ends a bracketed host. */
  function CloseFrom(addr: Text, k: nat): (c: Option<nat>)
    ensures c.Some? ==> k <= c.value < |addr| && addr[c.value] == RBRACKET && Tail(addr[c.value + 1..]).Some?
    decreases |addr| - k
  {
    if k >= |addr| then None
    else if addr[k] == RBRACKET && Tail(addr[k + 1..]).Some? then Some(k)
    else if addr[k] == NEWLINE then None
    else CloseFrom(addr, k + 1)
  }

  /** The bracketed alternative takes at least one character that is not a newline. */
  function Close(addr: Text): (c: Option<nat>)
    ensures c.Some? ==> 2 <= c.value < |addr| && addr[c.value] == RBRACKET && Tail(addr[c.value + 1..]).Some?
  {
    if |addr| > 2 && addr[0] == LBRACKET && addr[1] != NEWLINE then CloseFrom(addr, 2) else None
  }

  function UpTo(addr: Text, b: Byte): (n: nat)
    ensures n <= |addr| && b !in addr[..n] && (n < |addr| ==> addr[n] == b)
  {
    if addr == [] || addr[0] == b then 0
    else var n := UpTo(addr[1..], b); assert addr[..n + 1] == [addr[0]] + addr[1..][..n]; n + 1
  }

  /** The host and port groups of the address expression; the bracketed alternative is preferred. */
  function Captures(addr: Text): Option<(Text, Option<Text>)> {
    match Close(addr)
    case Some(k) => Some((addr[1..k], Tail(addr[k + 1..]).value))
    case None =>
      var n := UpTo(addr, COLON);
      if n > 0 && Tail(addr[n..]).Some? then Some((addr[..n], Tail(addr[n..]).value)) else None
  }

  function SplitHostPort(syn: RawSyntax, addr: Text): Result<(Text, Option<Port>), AddrError> {
    match Captures(addr)
    case None => Err(InvalidAddressFormat)
    case Some((host, digits)) =>
      if !ValidHost(syn, host) then Err(InvalidHost)
      else
        match digits
        case None => Ok((host, None))
        case Some(d) =>
          DigitsOf(addr);
          if 1 <= Value(d) <= 65535 then Ok((host, Some(Value(d)))) else Err(InvalidPort)
  }

  lemma {:induction false} DigitsOf(addr: Text)
    ensures Captures(addr).Some? && Captures(addr).value.1.Some? ==> AllDigits(Captures(addr).value.1.value)
  {
  }

  lemma {:induction false} CloseSkipsNoNewline(addr: Text, k: nat)
    requires CloseFrom(addr, k).Some?
    ensures NEWLINE !in addr[k..CloseFrom(addr, k).value]
    decreases |addr| - k
  {
    var c := CloseFrom(addr, k).value;
    if c > k {
      CloseSkipsNoNewline(addr, k + 1);
      assert addr[k..c] == [addr[k]] + addr[k + 1..c];
    }
  }

  // The reference: what the address expression matches.

  function TailText(digits: Option<Text>): Text {
    match digits
    case None => []
    case Some(d) => [COLON] + d
  }

  ghost predicate PortGroup(digits: Option<Text>) {
    digits.Some? ==> digits.value != [] && AllDigits(digits.value)
  }

  ghost predicate MatchesBracketed(addr: Text, host: Text, digits: Option<Text>) {
    host != [] && NEWLINE !in host && PortGroup(digits) && addr == Bracketed(host) + TailText(digits)
  }

  ghost predicate MatchesPlain(addr: Text, host: Text, digits: Option<Text>) {
    host != [] && COLON !in host && PortGroup(digits) && addr == host + TailText(digits)
  }

  lemma {:induction false} TailMatches(s: Text, digits: Option<Text>)
    ensures Tail(s) == Some(digits) <==> PortGroup(digits) && s == TailText(digits)
  {
    if s != [] {
      assert s == [s[0]] + s[1..];
    }
    if digits.Some? && s == TailText(digits) {
      assert s[1..] == digits.value;
    }
  }

  lemma {:induction false} TailHasNoBracket(s: Text, i: nat)
    requires i < |s| && s[i] == RBRACKET
    ensures Tail(s).None?
  {
    if i > 0 {
      assert s[1..][i - 1] == RBRACKET;
    }
  }

  /** A `]` followed by nothing but an optional port is the last one, so the bracketed match is unique. */
  lemma {:induction false} CloseFinds(addr: Text, k: nat, c: nat)
    requires k <= c < |addr| && addr[c] == RBRACKET && Tail(addr[c + 1..]).Some? && NEWLINE !in addr[k..c]
    ensures CloseFrom(addr, k) == Some(c)
    decreases c - k
  {
    if k < c {
      assert addr[k] in addr[k..c];
      TailHasNoBracket(addr[k + 1..], c - k - 1);
      assert forall x :: x in addr[k + 1..c] ==> x in addr[k..c];
      CloseFinds(addr, k + 1, c);
    }
  }

  /** The captured groups are those of the address expression, the bracketed alternative tried first. */
  lemma {:induction false} CapturesAreMatches(addr: Text, host: Text, digits: Option<Text>)
    ensures Captures(addr) == Some((host, digits)) <==>
            MatchesBracketed(addr, host, digits)
            || (Close(addr) == None && MatchesPlain(addr, host, digits))
    ensures Close(addr).Some? <==> exists h, d :: MatchesBracketed(addr, h, d)
  {
    CloseIffBracketed(addr);
    match Close(addr) {
      case Some(k) =>
        CloseSkipsNoNewline(addr, 2);
        BracketedIff(addr, k, host, digits);
      case None =>
        PlainIff(addr, host, digits);
    }
  }

  lemma {:induction false} CloseIffBracketed(addr: Text)
    ensures Close(addr).Some? <==> exists h, d :: MatchesBracketed(addr, h, d)
  {
    if Close(addr).Some? {
      var k := Close(addr).value;
      CloseSkipsNoNewline(addr, 2);
      BracketedIff(addr, k, addr[1..k], Tail(addr[k + 1..]).value);
    }
    forall h, d | MatchesBracketed(addr, h, d) ensures Close(addr).Some? {
      BracketedCloses(addr, h, d);
    }
  }

  lemma {:induction false} Enclosed(open: Byte, host: Text, close: Byte, tail: Text)
    ensures var s := [open] + host + [close] + tail;
            s[1..|host| + 1] == host && s[|host| + 1] == close && s[|host| + 2..] == tail
  {
    var s := [open] + host + [close] + tail;
    assert s == [open] + (host + ([close] + tail));
    assert s[1..] == host + ([close] + tail);
  }

  lemma {:induction false} BracketedCloses(addr: Text, host: Text, digits: Option<Text>)
    requires MatchesBracketed(addr, host, digits)
    ensures Close(addr) == Some(|host| + 1) && addr[1..|host| + 1] == host && addr[|host| + 2..] == TailText(digits)
  {
    var c := |host| + 1;
    Enclosed(LBRACKET, host, RBRACKET, TailText(digits));
    TailMatches(addr[c + 1..], digits);
    assert addr[2..c] == host[1..];
    CloseFinds(addr, 2, c);
  }

  lemma {:induction false} BracketedIff(addr: Text, k: nat, host: Text, digits: Option<Text>)
    requires Close(addr) == Some(k) && 2 <= k < |addr| && addr[k] == RBRACKET && NEWLINE !in addr[2..k]
    ensures MatchesBracketed(addr, host, digits) <==> host == addr[1..k] && Tail(addr[k + 1..]) == Some(digits)
  {
    if MatchesBracketed(addr, host, digits) {
      BracketedCloses(addr, host, digits);
      TailMatches(addr[k + 1..], digits);
    }
    if host == addr[1..k] && Tail(addr[k + 1..]) == Some(digits) {
      TailMatches(addr[k + 1..], digits);
      assert addr == [LBRACKET] + addr[1..k] + [RBRACKET] + addr[k + 1..];
      assert addr[1..k] == [addr[1]] + addr[2..k];
    }
  }

  lemma {:induction false} PlainIff(addr: Text, host: Text, digits: Option<Text>)
    ensures MatchesPlain(addr, host, digits) <==>
            var n := UpTo(addr, COLON); n > 0 && host == addr[..n] && Tail(addr[n..]) == Some(digits)
  {
    var n := UpTo(addr, COLON);
    TailMatches(addr[n..], digits);
    assert addr == addr[..n] + addr[n..];
    if MatchesPlain(addr, host, digits) {
      assert addr[..|host|] == host && addr[|host|..] == TailText(digits);
      UpToFinds(addr, COLON, |host|);
    }
  }

  lemma {:induction false} UpToFinds(s: Text, b: Byte, n: nat)
    requires n <= |s| && b !in s[..n] && (n < |s| ==> s[n] == b)
    ensures UpTo(s, b) == n
  {
    if n > 0 {
      assert s[0] in s[..n];
      assert forall x :: x in s[1..][..n - 1] ==> x in s[..n];
      UpToFinds(s[1..], b, n - 1);
    }
  }

  // ----- writing -----

  function BareHost(n: Node): Text {
    StripIpv6Brackets(n.host)
  }

  function AddrText(host: Text, port: Option<Port>): Text {
    (if COLON in host then Bracketed(host) else host) + TailText(if port.Some? then Some(Dec(port.value)) else None)
  }

  function Show(n: Node): Text {
    AddrText(BareHost(n), n.port)
  }

  class Output {
    var text: Text

    constructor ()
      ensures text == []
    {
      text := [];
    }

    method Write(s: Text)
      modifies this
      ensures text == old(text) + s
    {
      text := text + s;
    }
  }

  /** Appends an address; an IPv6 host is bracketed, a missing port is left out. */
  method WriteAddr(out: Output, host: Text, port: Option<Port>)
    modifies out
    ensures out.text == old(out.text) + AddrText(host, port)
  {
    if COLON in host {
      out.Write([LBRACKET] + host + [RBRACKET]);
    } else {
      out.Write(host);
    }
    if port.Some? {
      out.Write([COLON] + Dec(port.value));
    }
  }

  predicate MatchesAddr(syn: RawSyntax, n: Node, addr: Text) {
    match SplitHostPort(syn, addr)
    case Ok((host, port)) => BareHost(n) == host && n.port == port
    case Err(_) => false
  }

  /** The node an address stands for on its own: weight 1, priority 0. */
  function FromStr(syn: RawSyntax, addr: Text): Result<Node, AddrError> {
    match SplitHostPort(syn, addr)
    case Ok((host, port)) => Ok(Node(host, port, 1, 0))
    case Err(e) => Err(e)
  }

  function DefaultPort(scheme: Scheme): Port {
    if scheme.Https? || scheme.Grpcs? then 443 else 80
  }

  function EffectivePort(n: Node, scheme: Scheme): Port {
    n.port.GetOr(DefaultPort(scheme))
  }

  /** The scheme defaults that an omitted port stands for. */
  lemma {:induction false} OmittedPorts(host: Text, weight: nat, priority: int)
    ensures EffectivePort(Node(host, None, weight, priority), Http) == 80
    ensures EffectivePort(Node(host, None, weight, priority), Grpc) == 80
    ensures EffectivePort(Node(host, None, weight, priority), Https) == 443
    ensures EffectivePort(Node(host, None, weight, priority), Grpcs) == 443
  {
  }

  /** `addr` is an address of `host` with these port digits; the bracketed reading is preferred. */
  ghost predicate Matches(addr: Text, host: Text, digits: Option<Text>) {
    MatchesBracketed(addr, host, digits)
    || (!(exists h, d :: MatchesBracketed(addr, h, d)) && MatchesPlain(addr, host, digits))
  }

  /** The digits, if there are any, name this port, if there is one. */
  ghost predicate NamesPort(digits: Option<Text>, port: Option<Port>) {
    match digits
    case None => port.None?
    case Some(d) => port.Some? && AllDigits(d) && Value(d) == port.value
  }

  /** What an address reads as: its host if that is valid, and its port if that is between 1 and 65535. */
  lemma {:induction false} SplitReads(syn: RawSyntax, addr: Text, host: Text, port: Option<Port>)
    ensures SplitHostPort(syn, addr) == Ok((host, port)) <==>
            exists digits :: Matches(addr, host, digits) && ValidHost(syn, host) && NamesPort(digits, port)
  {
    forall h, d ensures Captures(addr) == Some((h, d)) <==> Matches(addr, h, d) {
      CapturesAreMatches(addr, h, d);
    }
    if Captures(addr).Some? {
      DigitsOf(addr);
      assert Matches(addr, Captures(addr).value.0, Captures(addr).value.1);
    }
  }

  /** How an address is refused: for its form, else for its host, else for its port. */
  lemma {:induction false} SplitRefuses(syn: RawSyntax, addr: Text)
    ensures SplitHostPort(syn, addr) == Err(InvalidAddressFormat) <==> !exists h, d :: Matches(addr, h, d)
    ensures SplitHostPort(syn, addr) == Err(InvalidHost) <==> exists h, d :: Matches(addr, h, d) && !ValidHost(syn, h)
    ensures SplitHostPort(syn, addr) == Err(InvalidPort) <==>
            exists h, d :: Matches(addr, h, d) && ValidHost(syn, h) && d.Some? && AllDigits(d.value)
                           && !(1 <= Value(d.value) <= 65535)
  {
    forall h, d ensures Captures(addr) == Some((h, d)) <==> Matches(addr, h, d) {
      CapturesAreMatches(addr, h, d);
    }
    if Captures(addr).Some? {
      DigitsOf(addr);
      assert Matches(addr, Captures(addr).value.0, Captures(addr).value.1);
    }
  }

  lemma {:induction false} DigitsAndDots(s: Text)
    requires forall i :: 0 <= i < |Split(s, DOT)| ==> AllDigits(Split(s, DOT)[i])
    ensures forall b :: b in s ==> IsDigit(b) || b == DOT
  {
    if s != [] {
      var parts := Split(s[1..], DOT);
      forall i | 0 <= i < |parts| ensures AllDigits(parts[i]) {
        if s[0] == DOT {
          assert Split(s, DOT)[i + 1] == parts[i];
        } else if i > 0 {
          assert Split(s, DOT)[i] == parts[i];
        } else {
          assert Split(s, DOT)[0] == [s[0]] + parts[0];
          assert forall j :: 0 <= j < |parts[0]| ==> Split(s, DOT)[0][j + 1] == parts[0][j];
        }
      }
      DigitsAndDots(s[1..]);
      if s[0] != DOT {
        assert Split(s, DOT)[0][0] == s[0];
      }
    }
  }

  /** The parts put together again. */
  function Join(parts: seq<Text>): Text {
    if parts == [] then []
    else if |parts| == 1 then parts[0]
    else parts[0] + ([DOT] + Join(parts[1..]))
  }

  lemma {:induction false} JoinGrows(b: Byte, parts: seq<Text>)
    requires parts != [] && b != 0xFF
    ensures Join([[b] + parts[0]] + parts[1..]) == [b] + Join(parts)
  {
    var grown := [[b] + parts[0]] + parts[1..];
    assert grown[1..] == parts[1..];
    if |parts| > 1 {
      assert ([b] + parts[0]) + ([DOT] + Join(parts[1..])) == [b] + (parts[0] + ([DOT] + Join(parts[1..])));
    }
  }

  lemma {:induction false} JoinSplit(s: Text)
    ensures Join(Split(s, DOT)) == s
    decreases |s|
  {
    if s != [] {
      var parts := Split(s[1..], DOT);
      JoinSplit(s[1..]);
      assert s == [s[0]] + s[1..];
      if s[0] == DOT {
        assert Split(s, DOT)[1..] == parts;
      } else {
        JoinGrows(s[0], parts);
      }
    }
  }

  lemma {:induction false} SplitFirst(part: Text, rest: Text)
    requires DOT !in part
    ensures Split(part, DOT) == [part]
    ensures Split(part + ([DOT] + rest), DOT) == [part] + Split(rest, DOT)
    decreases |part|
  {
    var s := part + ([DOT] + rest);
    if part == [] {
      assert s[1..] == rest;
    } else {
      assert part[0] in part;
      assert s[1..] == part[1..] + ([DOT] + rest);
      SplitFirst(part[1..], rest);
      assert [part[0]] + part[1..] == part;
    }
  }

  predicate Digits(s: Text) {
    s != [] && AllDigits(s)
  }

  ghost predicate IsDottedQuad(s: Text, a: Text, b: Text, c: Text, d: Text) {
    Digits(a) && Digits(b) && Digits(c) && Digits(d) && s == a + ([DOT] + (b + ([DOT] + (c + ([DOT] + d)))))
  }

  /** The shape is that of four numbers with dots between them. */
  lemma {:induction false} ShapedIffDottedQuad(s: Text)
    ensures Ipv4Shaped(s) <==> exists a, b, c, d :: IsDottedQuad(s, a, b, c, d)
  {
    if Ipv4Shaped(s) {
      var parts := Split(s, DOT);
      JoinSplit(s);
      JoinFour(parts);
      assert IsDottedQuad(s, parts[0], parts[1], parts[2], parts[3]);
    }
    if a, b, c, d :| IsDottedQuad(s, a, b, c, d) {
      QuadIsShaped(s, a, b, c, d);
    }
  }

  lemma {:induction false} JoinFour(parts: seq<Text>)
    requires |parts| == 4
    ensures Join(parts)
         == parts[0] + ([DOT] + (parts[1] + ([DOT] + (parts[2] + ([DOT] + parts[3])))))
  {
    assert parts[1..][1..][1..] == [parts[3]];
    assert parts[1..][0] == parts[1] && parts[1..][1..][0] == parts[2];
    assert Join(parts[1..][1..][1..]) == parts[3];
    assert Join(parts[1..][1..]) == parts[2] + ([DOT] + parts[3]);
  }

  lemma {:induction false} QuadIsShaped(s: Text, a: Text, b: Text, c: Text, d: Text)
    requires IsDottedQuad(s, a, b, c, d)
    ensures Ipv4Shaped(s)
  {
    SplitFirst(a, b + ([DOT] + (c + ([DOT] + d))));
    SplitFirst(b, c + ([DOT] + d));
    SplitFirst(c, d);
    SplitFirst(d, []);
    assert Split(s, DOT) == [a, b, c, d];
  }

  /** An address that looks like dotted decimal but is none is refused, although it would do as a host name. */
  lemma {:induction false} LookalikesAreRefused(syn: RawSyntax, addr: Text)
    requires Ipv4Shaped(addr) && !syn.v4(addr) && !syn.v6(addr)
    ensures SplitHostPort(syn, addr) == Err(InvalidHost)
  {
    DigitsAndDots(addr);
    assert addr != [];
    PlainHost(addr);
    SplitRefuses(syn, addr);
    assert Matches(addr, addr, None) && !ValidHost(syn, addr);
  }

  lemma {:induction false} StartsWithBracket(addr: Text, host: Text, digits: Option<Text>)
    ensures MatchesBracketed(addr, host, digits) ==> addr != [] && addr[0] == LBRACKET
  {
  }

  /** A text without colon or bracket is its own plain host. */
  lemma {:induction false} PlainHost(addr: Text)
    requires addr != [] && COLON !in addr && LBRACKET !in addr
    ensures Matches(addr, addr, None)
  {
    assert addr + [] == addr;
    forall h, d ensures MatchesBracketed(addr, h, d) ==> LBRACKET in addr {
      StartsWithBracket(addr, h, d);
    }
  }

  /** The hosts that are accepted on their own: IPv4 addresses, host names that do not look like one, bracketed IPv6. */
  lemma {:induction false} HostsAreRead(syn: RawSyntax, host: Text)
    requires PlausibleSyntax(syn)
    ensures syn.v4(host) || (syn.fqdn(host) && !Ipv4Shaped(host)) ==> SplitHostPort(syn, host) == Ok((host, None))
    ensures syn.v6(host) ==> SplitHostPort(syn, Bracketed(host)) == Ok((host, None))
  {
    if syn.v4(host) || (syn.fqdn(host) && !Ipv4Shaped(host)) {
      assert host != [] && COLON !in host && LBRACKET !in host;
      assert host[0] != LBRACKET;
      PlainHost(host);
      SplitReads(syn, host, host, None);
    }
    if syn.v6(host) {
      assert host != [] && host[0] != LBRACKET;
      BracketedParses(syn, host);
    }
  }

  /** A node that was read from an address matches it unless it was given a bracketed host in brackets of its own. */
  lemma {:induction false} MatchesOwnAddress(syn: RawSyntax, addr: Text, n: Node)
    requires FromStr(syn, addr) == Ok(n)
    ensures MatchesAddr(syn, n, addr) <==> !HasBrackets(n.host)
  {
  }

  /** A node matches exactly the addresses that read as its bare host with its port. */
  lemma {:induction false} MatchesIffReads(syn: RawSyntax, n: Node, addr: Text)
    ensures MatchesAddr(syn, n, addr) <==>
            exists digits :: Matches(addr, BareHost(n), digits) && ValidHost(syn, BareHost(n))
                             && NamesPort(digits, n.port)
  {
    SplitReads(syn, addr, BareHost(n), n.port);
  }

  lemma {:induction false} BareIsBare(syn: RawSyntax, host: Text)
    requires PlausibleSyntax(syn) && ValidHost(syn, host)
    ensures var bare := StripIpv6Brackets(host);
            && bare != [] && bare[0] != LBRACKET
            && StripIpv6Brackets(bare) == bare
            && ValidHost(syn, bare)
            && (COLON in bare ==> RBRACKET !in bare && NEWLINE !in bare)
  {
    var bare := StripIpv6Brackets(host);
    if host[0] == LBRACKET {
      assert LBRACKET in host;
    }
    assert syn.v4(bare) || syn.v6(bare) || syn.fqdn(bare);
    assert LBRACKET !in bare;
  }

  /** Reading what was written gives back the bare host and the port. */
  lemma {:induction false} RoundTrip(syn: RawSyntax, n: Node)
    requires PlausibleSyntax(syn) && ValidHost(syn, n.host)
    ensures SplitHostPort(syn, Show(n)) == Ok((BareHost(n), n.port))
  {
    var bare := BareHost(n);
    var digits := if n.port.Some? then Some(Dec(n.port.value)) else None;
    BareIsBare(syn, n.host);
    CapturesAreMatches(Show(n), bare, digits);
    if COLON in bare {
      assert MatchesBracketed(Show(n), bare, digits);
    } else {
      assert Show(n)[0] == bare[0];
      assert MatchesPlain(Show(n), bare, digits);
    }
    if n.port.Some? {
      ValueOfDec(n.port.value);
    }
  }

  /** The printed form determines the bare host and the port, and the node accepts its own address. */
  lemma {:induction false} ShowIdentifies(syn: RawSyntax, m: Node, n: Node)
    requires PlausibleSyntax(syn) && ValidHost(syn, m.host) && ValidHost(syn, n.host)
    ensures Show(m) == Show(n) <==> BareHost(m) == BareHost(n) && m.port == n.port
    ensures MatchesAddr(syn, m, Show(n)) <==> BareHost(m) == BareHost(n) && m.port == n.port
  {
    RoundTrip(syn, m);
    RoundTrip(syn, n);
  }

  /** Printing after parsing reaches a normal form: a second round changes nothing. */
  lemma {:induction false} PrintParseIdempotent(syn: RawSyntax, addr: Text)
    requires PlausibleSyntax(syn) && FromStr(syn, addr).Ok?
    ensures var printed := Show(FromStr(syn, addr).value);
            FromStr(syn, printed).Ok? && Show(FromStr(syn, printed).value) == printed
  {
    var n := FromStr(syn, addr).value;
    RoundTrip(syn, n);
    BareIsBare(syn, n.host);
  }

  // ----- canonical node order -----

  datatype SortKey = SortKey(host: Text, port: nat, weight: nat, priority: int)

  /** An omitted port sorts as 0. */
  function KeyOf(n: Node): SortKey {
    SortKey(BareHost(n), if n.port.Some? then n.port.value else 0, n.weight, n.priority)
  }

  predicate KeyLe(a: SortKey, b: SortKey) {
    if a.host != b.host then TextLe(a.host, b.host)
    else if a.port != b.port then a.port < b.port
    else if a.weight != b.weight then a.weight < b.weight
    else a.priority <= b.priority
  }

  function NodeKeyOrder(): (SortKey, SortKey) -> bool {
    (a: SortKey, b: SortKey) => KeyLe(a, b)
  }

  lemma {:induction false} NodeKeyOrderIsTotal()
    ensures TotalOrder(NodeKeyOrder())
  {
    forall a: SortKey, b: SortKey ensures KeyLe(a, b) || KeyLe(b, a) {
      TextLeTotal(a.host, b.host);
    }
    forall a: SortKey, b: SortKey | KeyLe(a, b) && KeyLe(b, a) ensures a == b {
      TextLeTotal(a.host, b.host);
    }
    forall a: SortKey, b: SortKey, c: SortKey | KeyLe(a, b) && KeyLe(b, c) ensures KeyLe(a, c) {
      if a.host != b.host && b.host != c.host {
        TextLeTransitive(a.host, b.host, c.host);
        TextLeTotal(a.host, b.host);
      }
    }
  }

  /** Nodes by sort key; nodes that differ only in how they spell the host stay in the order they came in. */
  function NodeOrder(): (Node, Node) -> bool {
    (a: Node, b: Node) => KeyLe(KeyOf(a), KeyOf(b))
  }

  function KeyFunction(): Node -> SortKey {
    (n: Node) => KeyOf(n)
  }

  function SortedKeysOf(nodes: seq<Node>): seq<SortKey> {
    SortBy(Map(KeyFunction(), nodes), NodeKeyOrder())
  }

  // ----- nodes from the map form -----

  type Entry = (Text, nat)

  /** The node of one map entry; only looked at when the address parses. */
  function EntryNode(syn: RawSyntax): Entry -> Node {
    (e: Entry) => match FromStr(syn, e.0)
                  case Ok(n) => n.(weight := e.1)
                  case Err(_) => Node([], None, e.1, 0)
  }

  function BadAddresses(syn: RawSyntax, entries: seq<Entry>): set<Text> {
    set e | e in entries && FromStr(syn, e.0).Err? :: e.0
  }

  /** What comes of the map when its entries are met in this order. */
  function Canonical(syn: RawSyntax, entries: seq<Entry>): Result<seq<Node>, set<Text>> {
    if BadAddresses(syn, entries) == {} then Ok(SortBy(Map(EntryNode(syn), entries), NodeOrder()))
    else Err(BadAddresses(syn, entries))
  }

  ghost predicate Enumerates(entries: seq<Entry>, weights: map<Text, nat>) {
    multiset(entries) == multiset(weights.Items)
  }

  /** Node `n` is what the map says about the address `addr`. */
  ghost predicate Configures(syn: RawSyntax, weights: map<Text, nat>, addr: Text, n: Node) {
    addr in weights && SplitHostPort(syn, addr) == Ok((n.host, n.port)) && n.weight == weights[addr] && n.priority == 0
  }

  /** One node for each entry of the map, with its weight and no priority, by sort key; or every bad address. */
  ghost predicate IsNodesOf(syn: RawSyntax, weights: map<Text, nat>, r: Result<seq<Node>, set<Text>>) {
    match r
    case Ok(nodes) =>
      && |nodes| == |weights|
      && (forall addr: Text :: addr in weights ==> exists n :: n in nodes && Configures(syn, weights, addr, n))
      && (forall n :: n in nodes ==> exists addr: Text :: Configures(syn, weights, addr, n))
      && SortedBy(Map(KeyFunction(), nodes), NodeKeyOrder())
    case Err(bad) =>
      && bad != {}
      && forall addr: Text :: addr in bad <==> addr in weights && SplitHostPort(syn, addr).Err?
  }

  lemma {:induction false} ItemsOf(met: seq<Entry>, weights: map<Text, nat>)
    requires Enumerates(met, weights)
    ensures |met| == |weights|
    ensures forall e: Entry :: e in met <==> e.0 in weights && weights[e.0] == e.1
  {
    assert |multiset(weights.Items)| == |weights.Items| == |weights|;
    assert |multiset(met)| == |met|;
    forall e: Entry ensures e in met <==> e.0 in weights && weights[e.0] == e.1 {
      assert e in met <==> e in multiset(met);
      assert e in multiset(weights.Items) <==> e in weights.Items;
    }
  }

  /** In whatever order the entries are met. */
  lemma {:induction false} CanonicalIsNodesOf(syn: RawSyntax, met: seq<Entry>, weights: map<Text, nat>)
    requires Enumerates(met, weights)
    ensures IsNodesOf(syn, weights, Canonical(syn, met))
  {
    ItemsOf(met, weights);
    if BadAddresses(syn, met) == {} {
      NodesAreEntries(syn, met, weights);
    } else {
      forall addr: Text
        ensures addr in BadAddresses(syn, met) <==> addr in weights && SplitHostPort(syn, addr).Err?
      {
        if addr in weights {
          assert (addr, weights[addr]) in met;
        }
      }
    }
  }

  lemma {:induction false} NodesAreEntries(syn: RawSyntax, met: seq<Entry>, weights: map<Text, nat>)
    requires |met| == |weights| && forall e: Entry :: e in met <==> e.0 in weights && weights[e.0] == e.1
    requires BadAddresses(syn, met) == {}
    ensures IsNodesOf(syn, weights, Ok(SortBy(Map(EntryNode(syn), met), NodeOrder())))
  {
    var all := Map(EntryNode(syn), met);
    var nodes := SortBy(all, NodeOrder());
    SortedNodes(all);
    forall e | e in met ensures Configures(syn, weights, e.0, EntryNode(syn)(e)) {
      assert e.0 !in BadAddresses(syn, met);
    }
    forall addr: Text | addr in weights ensures exists n :: n in nodes && Configures(syn, weights, addr, n) {
      var e: Entry := (addr, weights[addr]);
      var i :| 0 <= i < |met| && met[i] == e;
      assert all[i] in multiset(nodes);
      assert all[i] in nodes && Configures(syn, weights, addr, all[i]);
    }
    forall n | n in nodes ensures exists addr: Text :: Configures(syn, weights, addr, n) {
      var e := EntryOf(syn, met, n);
      assert Configures(syn, weights, e.0, n);
    }
  }

  lemma {:induction false} SortedNodes(all: seq<Node>)
    ensures multiset(SortBy(all, NodeOrder())) == multiset(all) && |SortBy(all, NodeOrder())| == |all|
    ensures SortedBy(Map(KeyFunction(), SortBy(all, NodeOrder())), NodeKeyOrder())
  {
    NodeKeyOrderIsTotal();
    SortBySorts(Map(KeyFunction(), all), NodeKeyOrder());
    SortByMaps(all, NodeOrder(), KeyFunction(), NodeKeyOrder());
    SortKeeps(all, NodeOrder());
    assert |multiset(SortBy(all, NodeOrder()))| == |multiset(all)|;
  }

  /** Meets the entries in some order, reports every bad address, or sorts the nodes. */
  method TryFromMap(syn: RawSyntax, weights: map<Text, nat>)
    returns (r: Result<seq<Node>, set<Text>>)
    ensures exists met :: Enumerates(met, weights) && r == Canonical(syn, met)
    ensures IsNodesOf(syn, weights, r)
  {
    var errors: set<Text> := {};
    var nodes: seq<Node> := [];
    var rest := weights.Items;
    ghost var met: seq<Entry> := [];
    while rest != {}
      invariant multiset(met) + multiset(rest) == multiset(weights.Items)
      invariant errors == BadAddresses(syn, met)
      invariant errors == {} ==> nodes == Map(EntryNode(syn), met)
      decreases |rest|
    {
      var entry :| entry in rest;
      OneMoreEntry(syn, met, rest, entry);
      rest := rest - {entry};
      match FromStr(syn, entry.0) {
        case Ok(node) => nodes := nodes + [node.(weight := entry.1)];
        case Err(_) => errors := errors + {entry.0};
      }
      met := met + [entry];
    }
    if errors == {} {
      r := Ok(SortBy(nodes, NodeOrder()));
    } else {
      r := Err(errors);
    }
    assert Enumerates(met, weights) && r == Canonical(syn, met);
    CanonicalIsNodesOf(syn, met, weights);
  }

  lemma {:induction false} OneMoreEntry(syn: RawSyntax, met: seq<Entry>, rest: set<Entry>, e: Entry)
    requires e in rest
    ensures multiset(met + [e]) + multiset(rest - {e}) == multiset(met) + multiset(rest)
    ensures Map(EntryNode(syn), met + [e]) == Map(EntryNode(syn), met) + [EntryNode(syn)(e)]
    ensures BadAddresses(syn, met + [e]) == BadAddresses(syn, met) + if FromStr(syn, e.0).Err? then {e.0} else {}
  {
    assert forall f :: f in met + [e] <==> f in met || f == e;
    assert multiset(rest) == multiset(rest - {e}) + multiset{e};
  }

  lemma {:induction false} OrderMetShowsNoErrors(syn: RawSyntax, met: seq<Entry>, met': seq<Entry>)
    requires multiset(met) == multiset(met')
    ensures BadAddresses(syn, met) == BadAddresses(syn, met')
  {
    assert forall e :: e in met <==> e in multiset(met);
    assert forall e :: e in met' <==> e in multiset(met');
  }

  lemma {:induction false} NodeOrderShowsNoKeys(nodes: seq<Node>, nodes': seq<Node>)
    requires multiset(nodes) == multiset(nodes')
    ensures Map(KeyFunction(), SortBy(nodes, NodeOrder())) == Map(KeyFunction(), SortBy(nodes', NodeOrder()))
  {
    MapMultiset(KeyFunction(), nodes, nodes');
    NodeKeyOrderIsTotal();
    SortForgetsOrder(Map(KeyFunction(), nodes), Map(KeyFunction(), nodes'), NodeKeyOrder());
    SortByMaps(nodes, NodeOrder(), KeyFunction(), NodeKeyOrder());
    SortByMaps(nodes', NodeOrder(), KeyFunction(), NodeKeyOrder());
  }

  /** The order met shows neither in the errors nor in the sort keys of the list. */
  lemma {:induction false} OrderMetShowsNoKeys(syn: RawSyntax, met: seq<Entry>, met': seq<Entry>)
    requires multiset(met) == multiset(met')
    ensures BadAddresses(syn, met) == BadAddresses(syn, met')
    ensures Map(KeyFunction(), SortBy(Map(EntryNode(syn), met), NodeOrder()))
            == Map(KeyFunction(), SortBy(Map(EntryNode(syn), met'), NodeOrder()))
  {
    OrderMetShowsNoErrors(syn, met, met');
    MapMultiset(EntryNode(syn), met, met');
    NodeOrderShowsNoKeys(Map(EntryNode(syn), met), Map(EntryNode(syn), met'));
  }

  /** Two entries that give different nodes with one sort key: their hosts differ only by brackets. */
  ghost predicate Aliases(syn: RawSyntax, e: Entry, f: Entry) {
    EntryNode(syn)(e) != EntryNode(syn)(f) && KeyOf(EntryNode(syn)(e)) == KeyOf(EntryNode(syn)(f))
  }

  lemma {:induction false} SortedFrom(s: seq<Node>, n: Node)
    ensures n in SortBy(s, NodeOrder()) ==> n in s
  {
    if s != [] {
      SortedFrom(s[1..], n);
      InsertedFrom(SortBy(s[1..], NodeOrder()), s[0], n);
    }
  }

  lemma {:induction false} InsertedFrom(s: seq<Node>, x: Node, n: Node)
    ensures n in InsertBy(s, x, NodeOrder()) ==> n in s || n == x
  {
    if s != [] {
      InsertedFrom(s[1..], x, n);
    }
  }

  /** Inserting two nodes of one sort key leaves the later one first. */
  lemma {:induction false} InsertionOrderShows(s: seq<Node>, x: Node, y: Node)
    requires x != y && KeyOf(x) == KeyOf(y)
    ensures InsertBy(InsertBy(s, x, NodeOrder()), y, NodeOrder())
            != InsertBy(InsertBy(s, y, NodeOrder()), x, NodeOrder())
  {
    assert NodeOrder()(x, y) && NodeOrder()(y, x) by {
      NodeKeyOrderIsTotal();
      assert NodeKeyOrder()(KeyOf(x), KeyOf(y));
    }
    if s == [] {
      assert InsertBy([], x, NodeOrder()) == [x] && InsertBy([], y, NodeOrder()) == [y];
      assert InsertBy([x], y, NodeOrder())[0] == y;
      assert InsertBy([y], x, NodeOrder())[0] == x;
    } else if NodeOrder()(x, s[0]) {
      assert InsertBy([x] + s, y, NodeOrder())[0] == y;
      assert InsertBy([y] + s, x, NodeOrder())[0] == x;
    } else {
      InsertionOrderShows(s[1..], x, y);
      var ix, iy := InsertBy(s[1..], x, NodeOrder()), InsertBy(s[1..], y, NodeOrder());
      assert InsertBy([s[0]] + ix, y, NodeOrder()) == [s[0]] + InsertBy(ix, y, NodeOrder()) by {
        assert ([s[0]] + ix)[1..] == ix;
      }
      assert InsertBy([s[0]] + iy, x, NodeOrder()) == [s[0]] + InsertBy(iy, x, NodeOrder()) by {
        assert ([s[0]] + iy)[1..] == iy;
      }
      Behind(s[0], InsertBy(ix, y, NodeOrder()), InsertBy(iy, x, NodeOrder()));
    }
  }

  lemma {:induction false} Behind(n: Node, s: seq<Node>, t: seq<Node>)
    requires s != t
    ensures [n] + s != [n] + t
  {
    assert ([n] + s)[1..] == s && ([n] + t)[1..] == t;
  }

  /** Two nodes with one sort key come out in the order they were met. */
  lemma {:induction false} AliasOrderShows(syn: RawSyntax, e: Entry, f: Entry, rest: seq<Entry>)
    requires Aliases(syn, e, f)
    ensures SortBy(Map(EntryNode(syn), [e, f] + rest), NodeOrder())
            != SortBy(Map(EntryNode(syn), [f, e] + rest), NodeOrder())
  {
    var m := EntryNode(syn);
    var s := SortBy(Map(m, rest), NodeOrder());
    TwoInserted(m, e, f, rest);
    TwoInserted(m, f, e, rest);
    InsertionOrderShows(s, m(f), m(e));
  }

  lemma {:induction false} TwoInserted(m: Entry -> Node, e: Entry, f: Entry, rest: seq<Entry>)
    ensures SortBy(Map(m, [e, f] + rest), NodeOrder())
            == InsertBy(InsertBy(SortBy(Map(m, rest), NodeOrder()), m(f), NodeOrder()), m(e), NodeOrder())
  {
    var all := Map(m, [e, f] + rest);
    assert all == [m(e)] + ([m(f)] + Map(m, rest));
    assert all[1..] == [m(f)] + Map(m, rest);
    assert all[1..][1..] == Map(m, rest);
  }

  /** Any set of entries can be met in some order. */
  lemma {:induction false} SomeOrder(entries: set<Entry>) returns (met: seq<Entry>)
    ensures multiset(met) == multiset(entries)
  {
    met := [];
    if entries != {} {
      var e :| e in entries;
      met := SomeOrder(entries - {e});
      assert multiset(entries) == multiset(entries - {e}) + multiset{e};
      met := [e] + met;
    }
  }

  /** Every order of meeting the entries gives the same result. */
  ghost predicate Deterministic(syn: RawSyntax, weights: map<Text, nat>) {
    forall met, met' :: Enumerates(met, weights) && Enumerates(met', weights) ==>
                          Canonical(syn, met) == Canonical(syn, met')
  }

  ghost predicate AliasFree(syn: RawSyntax, entries: set<Entry>) {
    forall e, f :: e in entries && f in entries ==> !Aliases(syn, e, f)
  }

  lemma {:induction false} SameKeysSameNodes(a: seq<Node>, b: seq<Node>)
    requires Map(KeyFunction(), a) == Map(KeyFunction(), b)
    requires forall x, y :: x in a && y in b && KeyOf(x) == KeyOf(y) ==> x == y
    ensures a == b
  {
    assert |a| == |Map(KeyFunction(), a)| == |b|;
    forall i | 0 <= i < |a| ensures a[i] == b[i] {
      assert Map(KeyFunction(), a)[i] == KeyOf(a[i]) && Map(KeyFunction(), b)[i] == KeyOf(b[i]);
      assert a[i] in a && b[i] in b;
    }
  }

  lemma {:induction false} AliasFreeIsDeterministic(syn: RawSyntax, weights: map<Text, nat>, met: seq<Entry>,
                                                    met': seq<Entry>)
    requires Enumerates(met, weights) && Enumerates(met', weights) && AliasFree(syn, weights.Items)
    ensures Canonical(syn, met) == Canonical(syn, met')
  {
    OrderMetShowsNoKeys(syn, met, met');
    var a, b := SortBy(Map(EntryNode(syn), met), NodeOrder()), SortBy(Map(EntryNode(syn), met'), NodeOrder());
    forall x, y | x in a && y in b && KeyOf(x) == KeyOf(y) ensures x == y {
      var e := EntryOf(syn, met, x);
      var f := EntryOf(syn, met', y);
      assert e in multiset(weights.Items) && f in multiset(weights.Items);
      assert !Aliases(syn, e, f);
    }
    SameKeysSameNodes(a, b);
  }

  lemma {:induction false} EntryOf(syn: RawSyntax, met: seq<Entry>, n: Node) returns (e: Entry)
    requires n in SortBy(Map(EntryNode(syn), met), NodeOrder())
    ensures e in met && EntryNode(syn)(e) == n
  {
    SortedFrom(Map(EntryNode(syn), met), n);
    var i :| 0 <= i < |met| && Map(EntryNode(syn), met)[i] == n;
    e := met[i];
  }

  /** Sorting makes a well-formed map's node list deterministic exactly when no two entries are aliases. */
  lemma {:induction false} DeterministicIffNoAliases(syn: RawSyntax, weights: map<Text, nat>)
    requires forall a: Text :: a in weights ==> FromStr(syn, a).Ok?
    ensures Deterministic(syn, weights) <==> AliasFree(syn, weights.Items)
  {
    if AliasFree(syn, weights.Items) {
      forall met, met' | Enumerates(met, weights) && Enumerates(met', weights)
        ensures Canonical(syn, met) == Canonical(syn, met')
      {
        AliasFreeIsDeterministic(syn, weights, met, met');
      }
    } else {
      var e, f :| e in weights.Items && f in weights.Items && Aliases(syn, e, f);
      var met, met' := AliasesMakeTwoOrders(syn, weights, e, f);
    }
  }

  lemma {:induction false} TwoFirst(entries: set<Entry>, e: Entry, f: Entry, rest: seq<Entry>)
    requires e in entries && f in entries && e != f && multiset(rest) == multiset(entries - {e, f})
    ensures multiset([e, f] + rest) == multiset([f, e] + rest) == multiset(entries)
  {
    assert multiset(entries) == multiset(entries - {e, f}) + multiset{e, f};
  }

  lemma {:induction false} AliasesMakeTwoOrders(syn: RawSyntax, weights: map<Text, nat>, e: Entry, f: Entry)
    returns (met: seq<Entry>, met': seq<Entry>)
    requires forall a: Text :: a in weights ==> FromStr(syn, a).Ok?
    requires e in weights.Items && f in weights.Items && Aliases(syn, e, f)
    ensures Enumerates(met, weights) && Enumerates(met', weights) && Canonical(syn, met) != Canonical(syn, met')
  {
    var rest := SomeOrder(weights.Items - {e, f});
    met, met' := [e, f] + rest, [f, e] + rest;
    TwoFirst(weights.Items, e, f, rest);
    AliasOrderShows(syn, e, f, rest);
    NoBadAddresses(syn, weights, met);
    NoBadAddresses(syn, weights, met');
  }

  lemma {:induction false} NoBadAddresses(syn: RawSyntax, weights: map<Text, nat>, met: seq<Entry>)
    requires Enumerates(met, weights) && forall a: Text :: a in weights ==> FromStr(syn, a).Ok?
    ensures BadAddresses(syn, met) == {}
  {
    forall e | e in met ensures FromStr(syn, e.0).Ok? {
      assert e in multiset(weights.Items);
    }
  }

  lemma {:induction false} BracketedParses(syn: RawSyntax, host: Text)
    requires ValidHost(syn, host) && NEWLINE !in host
    ensures SplitHostPort(syn, Bracketed(host)) == Ok((host, None))
  {
    assert Bracketed(host) == Bracketed(host) + TailText(None);
    assert MatchesBracketed(Bracketed(host), host, None);
    CapturesAreMatches(Bracketed(host), host, None);
  }

  /** Such aliases exist: an IPv6 address in one and in two pairs of brackets. */
  lemma {:induction false} DoubleBracketsAlias(syn: RawSyntax, host: Text, weight: nat)
    requires PlausibleSyntax(syn) && syn.v6(host)
    ensures FromStr(syn, Bracketed(host)).Ok? && FromStr(syn, Bracketed(Bracketed(host))).Ok?
    ensures Aliases(syn, (Bracketed(host), weight), (Bracketed(Bracketed(host)), weight))
  {
    var once := Bracketed(host);
    assert COLON in host && host[0] != LBRACKET;
    assert HasBrackets(once) && Inside(once) == host;
    assert StripIpv6Brackets(host) == host && StripIpv6Brackets(once) == host;
    BracketedParses(syn, host);
    BracketedParses(syn, once);
    assert EntryNode(syn)((once, weight)) == Node(host, None, weight, 0);
    assert EntryNode(syn)((Bracketed(once), weight)) == Node(once, None, weight, 0);
  }
}
