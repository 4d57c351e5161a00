/** Port mappings as text: `protocol://source-target-host:port`. */
module PortMapping {
  import opened Basics

  datatype Protocol = Tcp | Udp | Other(number: nat)

  /** A textual form kept by a library, for the values its parser can produce: what is assumed is that
      its own output parses back and holds no dash. */
  datatype Codec<!A> = Codec(show: A -> string, parse: string -> Option<A>)

  ghost predicate Faithful<A(!new)>(c: Codec<A>) {
    forall a: A :: c.parse(c.show(a)) == Some(a) && '-' !in c.show(a)
  }

  datatype Mapping<S> = Mapping(protocol: Protocol, src: S, target: Ip, host: string, port: nat)

  // ---------- splitting ----------

  /** The first place of a character, or the length. */
  function FirstOf(s: string, c: char): (i: nat)
    ensures i <= |s|
  {
    if s == [] || s[0] == c then 0 else FirstOf(s[1..], c) + 1
  }

  /** The last place of a character, if any. */
  function LastOf(s: string, c: char): (i: Option<nat>)
    ensures i.Some? ==> i.value < |s|
  {
    if s == [] then None
    else if s[|s| - 1] == c then Some(|s| - 1)
    else LastOf(s[..|s| - 1], c)
  }

  const SCHEME := "://"

  /** The first place of the scheme separator, or the length. */
  function SchemeAt(s: string): (i: nat)
    ensures i <= |s| && (i < |s| ==> i + |SCHEME| <= |s|)
  {
    if s == [] || SCHEME <= s then 0 else SchemeAt(s[1..]) + 1
  }

  lemma {:induction false} FirstOfAppend(a: string, c: char, b: string)
    requires c !in a
    ensures FirstOf(a + [c] + b, c) == |a|
  {
    var s := a + [c] + b;
    if a == [] {
      assert s[0] == c;
    } else {
      assert s[0] == a[0] && s[1..] == a[1..] + [c] + b;
      FirstOfAppend(a[1..], c, b);
    }
  }

  lemma {:induction false} LastOfAppend(a: string, c: char, b: string)
    requires c !in b
    ensures LastOf(a + [c] + b, c) == Some(|a|)
  {
    var s := a + [c] + b;
    if b == [] {
      assert s[|s| - 1] == c;
    } else {
      var front := b[..|b| - 1];
      assert s[|s| - 1] == b[|b| - 1] && s[..|s| - 1] == a + [c] + front;
      LastOfAppend(a, c, front);
    }
  }

  lemma {:induction false} SchemeAtAppend(a: string, b: string)
    requires ':' !in a
    ensures SchemeAt(a + SCHEME + b) == |a|
  {
    var s := a + SCHEME + b;
    if a == [] {
      assert s == SCHEME + b;
    } else {
      assert s[0] == a[0] != SCHEME[0];
      assert s[1..] == a[1..] + SCHEME + b;
      SchemeAtAppend(a[1..], b);
    }
  }

  // ---------- numbers and protocols ----------

  function Digit(n: nat): char
    requires n < 10
  {
    ['0', '1', '2', '3', '4', '5', '6', '7', '8', '9'][n]
  }

  function ShowNat(n: nat): (s: string)
    ensures s != []
  {
    if n < 10 then [Digit(n)] else ShowNat(n / 10) + [Digit(n % 10)]
  }

  function DigitValue(c: char): Option<nat> {
    if '0' <= c <= '9' then Some(c as int - '0' as int) else None
  }

  /** Decimal digits, at least one, with any number of leading zeros. */
  function ParseDigits(s: string): Option<nat> {
    if s == [] then None
    else
      var d := DigitValue(s[|s| - 1]);
      if d.None? then None
      else if |s| == 1 then d
      else
        var r := ParseDigits(s[..|s| - 1]);
        if r.None? then None else Some(r.value * 10 + d.value)
  }

  /** A 16-bit number; a plus sign may lead it. */
  function ParseU16(s: string): Option<nat> {
    var r := ParseDigits(if |s| > 1 && s[0] == '+' then s[1..] else s);
    if r.Some? && r.value < 0x1_0000 then r else None
  }

  lemma DigitBack(n: nat)
    requires n < 10
    ensures DigitValue(Digit(n)) == Some(n) && Digit(n) !in "+:-"
  {
  }

  lemma {:induction false} ShowNatParses(n: nat)
    ensures ParseDigits(ShowNat(n)) == Some(n) && ShowNat(n)[0] != '+' && ':' !in ShowNat(n)
  {
    DigitBack(n % 10);
    if n >= 10 {
      ShowNatParses(n / 10);
      var front := ShowNat(n / 10);
      assert ShowNat(n)[..|front|] == front;
    }
  }

  function ShowProtocol(p: Protocol): string {
    match p
    case Tcp => "tcp"
    case Udp => "udp"
    case Other(_) => "unknown"
  }

  function Lower(s: string): string {
    seq(|s|, i requires 0 <= i < |s| => if 'A' <= s[i] <= 'Z' then s[i] + ('a' - 'A') else s[i])
  }

  function ParseProtocol(s: string): Option<Protocol> {
    if Lower(s) == "tcp" then Some(Tcp) else if Lower(s) == "udp" then Some(Udp) else None
  }

  // ---------- mappings ----------

  function Show<S>(src: Codec<S>, ip: Codec<Ip>, m: Mapping<S>): string {
    ShowProtocol(m.protocol) + SCHEME
    + (src.show(m.src) + "-" + (ip.show(m.target) + "-" + (m.host + ":" + ShowNat(m.port))))
  }

  function Parse<S>(src: Codec<S>, ip: Codec<Ip>, s: string): Result<Mapping<S>> {
    var at := SchemeAt(s);
    if at == |s| then Err
    else
      var protocol := ParseProtocol(s[..at]);
      if protocol.None? then Err else ParseRest(src, ip, protocol.value, s[at + |SCHEME|..])
  }

  /** Up to the first dash the source, up to the second the target, then the destination. */
  function ParseRest<S>(src: Codec<S>, ip: Codec<Ip>, protocol: Protocol, rest: string): Result<Mapping<S>> {
    var one := FirstOf(rest, '-');
    var from := src.parse(rest[..one]);
    if from.None? || one == |rest| then Err
    else
      var tail := rest[one + 1..];
      var two := FirstOf(tail, '-');
      var target := ip.parse(tail[..two]);
      if target.None? || two == |tail| then Err
      else ParseDestination(protocol, from.value, target.value, tail[two + 1..])
  }

  function ParseDestination<S>(protocol: Protocol, src: S, target: Ip, dst: string): Result<Mapping<S>> {
    var colon := LastOf(dst, ':');
    if colon.None? then Err
    else
      var port := ParseU16(dst[colon.value + 1..]);
      if port.None? || port.value == 0 then Err
      else Ok(Mapping(protocol, src, target, dst[..colon.value], port.value))
  }

  // ---------- round trip ----------

  lemma DestinationBack<S>(m: Mapping<S>)
    requires m.port < 0x1_0000
    ensures ParseDestination(m.protocol, m.src, m.target, m.host + ":" + ShowNat(m.port))
         == if m.port == 0 then Err else Ok(m)
  {
    var port := ShowNat(m.port);
    ShowNatParses(m.port);
    LastOfAppend(m.host, ':', port);
    var dst := m.host + ":" + port;
    assert dst[|m.host| + 1..] == port && dst[..|m.host|] == m.host;
  }

  lemma RestBack<S(!new)>(src: Codec<S>, ip: Codec<Ip>, protocol: Protocol, a: S, b: Ip, dst: string)
    requires Faithful(src) && Faithful(ip)
    ensures ParseRest(src, ip, protocol, src.show(a) + "-" + (ip.show(b) + "-" + dst))
      == ParseDestination(protocol, a, b, dst)
  {
    var tail := ip.show(b) + "-" + dst;
    var rest := src.show(a) + "-" + tail;
    FirstOfAppend(src.show(a), '-', tail);
    FirstOfAppend(ip.show(b), '-', dst);
    assert rest[..|src.show(a)|] == src.show(a) && rest[|src.show(a)| + 1..] == tail;
    assert tail[..|ip.show(b)|] == ip.show(b) && tail[|ip.show(b)| + 1..] == dst;
  }

  lemma ProtocolBack(p: Protocol)
    ensures ParseProtocol(ShowProtocol(p)) == if p.Other? then None else Some(p)
    ensures ':' !in ShowProtocol(p)
  {
    assert Lower("tcp") == "tcp" && Lower("udp") == "udp" && |Lower("unknown")| == 7;
  }

  /** Parsing the printed form of a mapping gives it back exactly when it is a TCP or UDP mapping to a
      port other than zero, whatever its host contains. */
  lemma RoundTrip<S(!new)>(src: Codec<S>, ip: Codec<Ip>, m: Mapping<S>)
    requires Faithful(src) && Faithful(ip) && m.port < 0x1_0000
    ensures Parse(src, ip, Show(src, ip, m)) == Ok(m) <==> !m.protocol.Other? && m.port != 0
  {
    var proto, dst := ShowProtocol(m.protocol), m.host + ":" + ShowNat(m.port);
    var rest := src.show(m.src) + "-" + (ip.show(m.target) + "-" + dst);
    var s := proto + SCHEME + rest;
    ProtocolBack(m.protocol);
    SchemeAtAppend(proto, rest);
    assert s[..|proto|] == proto && s[|proto| + 3..] == rest;
    RestBack(src, ip, m.protocol, m.src, m.target, dst);
    DestinationBack(m);
  }

  /** So every mapping that was parsed survives being printed and parsed again. */
  lemma ParsedSurvives<S(!new)>(src: Codec<S>, ip: Codec<Ip>, text: string)
    requires Faithful(src) && Faithful(ip) && Parse(src, ip, text).Ok?
    ensures var m := Parse(src, ip, text).value;
      Parse(src, ip, Show(src, ip, m)) == Ok(m) && !m.protocol.Other? && 0 < m.port < 0x1_0000
  {
    RoundTrip(src, ip, Parse(src, ip, text).value);
  }

  /** Two mappings that can be parsed never print alike. */
  lemma ShowInjective<S(!new)>(src: Codec<S>, ip: Codec<Ip>, a: Mapping<S>, b: Mapping<S>)
    requires Faithful(src) && Faithful(ip) && Show(src, ip, a) == Show(src, ip, b)
    requires !a.protocol.Other? && !b.protocol.Other? && 0 < a.port < 0x1_0000 && 0 < b.port < 0x1_0000
    ensures a == b
  {
    RoundTrip(src, ip, a);
    RoundTrip(src, ip, b);
  }

  // ---------- what the parser accepts ----------

  lemma {:induction false} FirstOfMeans(s: string, c: char)
    ensures var i := FirstOf(s, c); c !in s[..i] && (i < |s| ==> s[i] == c)
  {
    if s != [] && s[0] != c {
      FirstOfMeans(s[1..], c);
      var i := FirstOf(s[1..], c);
      assert s[..i + 1] == [s[0]] + s[1..][..i];
    }
  }

  lemma {:induction false} LastOfMeans(s: string, c: char)
    ensures var i := LastOf(s, c);
      if i.None? then c !in s else s[i.value] == c && c !in s[i.value + 1..]
  {
    if s != [] && s[|s| - 1] != c {
      var front, last := s[..|s| - 1], s[|s| - 1];
      LastOfMeans(front, c);
      assert s == front + [last];
      var i := LastOf(front, c);
      if i.Some? {
        assert s[i.value + 1..] == front[i.value + 1..] + [last];
      }
    }
  }

  lemma {:induction false} SchemeAtMeans(s: string)
    requires SchemeAt(s) < |s|
    ensures var i := SchemeAt(s); s == s[..i] + SCHEME + s[i + 3..]
  {
    if !(SCHEME <= s) {
      SchemeAtMeans(s[1..]);
      var i := SchemeAt(s[1..]);
      assert s[..i + 1] == [s[0]] + s[1..][..i] && s[i + 1 + 3..] == s[1..][i + 3..];
    }
  }

  /** A port in text: an optional plus sign, any number of leading zeros, and the decimal number. */
  predicate IsPort(text: string, port: nat) {
    0 < port < 0x1_0000 && IsDecimal(if |text| > 0 && text[0] == '+' then text[1..] else text, port)
  }

  predicate IsDecimal(text: string, n: nat) {
    var number := ShowNat(n);
    |number| <= |text| && text[|text| - |number|..] == number
    && forall i :: 0 <= i < |text| - |number| ==> text[i] == '0'
  }

  lemma {:induction false} DecimalIff(text: string, n: nat)
    ensures ParseDigits(text) == Some(n) <==> IsDecimal(text, n)
  {
    if text == [] {
      NoDigits(n);
    } else {
      var front, c := text[..|text| - 1], text[|text| - 1];
      assert text == front + [c];
      DecimalIff(front, n / 10);
      DecimalStep(front, c, n);
    }
  }

  lemma DecimalStep(front: string, c: char, n: nat)
    requires ParseDigits(front) == Some(n / 10) <==> IsDecimal(front, n / 10)
    ensures ParseDigits(front + [c]) == Some(n) <==> IsDecimal(front + [c], n)
  {
    hide ParseDigits, IsDecimal, ShowNat, Digit, DigitValue;
    DigitIff(c, n % 10);
    NoDigits(n / 10);
    DigitsNext(front, c, n);
    if n >= 10 {
      DecimalNext(front, c, n);
    } else {
      DecimalLast(front, c, n);
    }
  }

  lemma NoDigits(n: nat)
    ensures ParseDigits([]) == None && !IsDecimal([], n)
  {
    assert ShowNat(n) != [];
  }

  lemma DigitsNext(front: string, c: char, n: nat)
    ensures ParseDigits(front + [c]) == Some(n) <==>
      DigitValue(c) == Some(n % 10) && if front == [] then n < 10 else ParseDigits(front) == Some(n / 10)
  {
    var text := front + [c];
    assert text[..|text| - 1] == front;
  }

  lemma DigitIff(c: char, d: nat)
    requires d < 10
    ensures DigitValue(c) == Some(d) <==> c == Digit(d)
  {
  }

  lemma DecimalNext(front: string, c: char, n: nat)
    requires n >= 10
    ensures IsDecimal(front + [c], n) <==> IsDecimal(front, n / 10) && c == Digit(n % 10)
  {
    var text, number, less := front + [c], ShowNat(n), ShowNat(n / 10);
    assert number == less + [Digit(n % 10)];
    if |number| <= |text| {
      var k := |text| - |number|;
      assert text[k..] == front[k..] + [c];
      assert forall i :: 0 <= i < k ==> text[i] == front[i];
      if text[k..] == number {
        assert front[k..] == text[k..][..|less|] == less && text[k..][|less|] == c;
      }
    }
  }

  lemma DecimalLast(front: string, c: char, n: nat)
    requires n < 10
    ensures IsDecimal(front + [c], n) <==> c == Digit(n) && forall i :: 0 <= i < |front| ==> front[i] == '0'
    ensures IsDecimal(front, 0) || front == [] <==> forall i :: 0 <= i < |front| ==> front[i] == '0'
  {
    var text := front + [c];
    assert text[|text| - 1..] == [c];
    assert forall i :: 0 <= i < |front| ==> text[i] == front[i];
    if front != [] {
      assert ShowNat(0) == ['0'] && front[|front| - 1..] == [front[|front| - 1]];
    }
  }

  lemma PortIff(text: string, port: nat)
    ensures ParseU16(text) == Some(port) && port != 0 <==> IsPort(text, port)
  {
    hide ParseDigits, IsDecimal;
    NoDigits(port);
    PlusIsNoDigit(port);
    DecimalIff(if |text| > 1 && text[0] == '+' then text[1..] else text, port);
    if |text| == 1 && text[0] == '+' {
      assert text == ['+'] && text[1..] == [];
    }
  }

  lemma PlusIsNoDigit(n: nat)
    ensures ParseDigits(['+']) == None
  {
  }

  predicate Names(text: string, p: Protocol) {
    (p == Tcp && Lower(text) == "tcp") || (p == Udp && Lower(text) == "udp")
  }

  lemma NamesIff(text: string, p: Protocol)
    ensures ParseProtocol(text) == Some(p) <==> Names(text, p)
    ensures Names(text, p) ==> ':' !in text
  {
    if ':' in text {
      var i :| 0 <= i < |text| && text[i] == ':';
      assert Lower(text)[i] == ':';
      assert ':' !in "tcp" && ':' !in "udp";
    }
  }

  /** The text is written out of these parts: the source ends at the first dash, the target at the
      next, and the port starts at the last colon, so that the host may hold dashes and colons. */
  ghost predicate WrittenAs<S>(src: Codec<S>, ip: Codec<Ip>, text: string, m: Mapping<S>, proto: string, a: string,
                               t: string, port: string) {
    && text == proto + "://" + (a + "-" + (t + "-" + (m.host + ":" + port)))
    && Names(proto, m.protocol)
    && '-' !in a && src.parse(a) == Some(m.src)
    && '-' !in t && ip.parse(t) == Some(m.target)
    && ':' !in port && IsPort(port, m.port)
  }

  lemma DestinationIff<S>(protocol: Protocol, src: S, target: Ip, dst: string, m: Mapping<S>)
    ensures ParseDestination(protocol, src, target, dst) == Ok(m) <==>
      && m.protocol == protocol && m.src == src && m.target == target
      && exists port :: dst == m.host + ":" + port && ':' !in port && IsPort(port, m.port)
  {
    hide IsPort, ParseU16;
    LastOfMeans(dst, ':');
    var colon := LastOf(dst, ':');
    if colon.Some? {
      var port := dst[colon.value + 1..];
      assert dst == dst[..colon.value] + ":" + port;
      PortIff(port, m.port);
    }
    forall port | dst == m.host + ":" + port && ':' !in port && IsPort(port, m.port)
      ensures colon == Some(|m.host|) && dst[|m.host| + 1..] == port && dst[..|m.host|] == m.host
    {
      LastOfAppend(m.host, ':', port);
    }
  }

  /** Up to the first dash. */
  lemma DashIff(s: string, a: string, b: string)
    ensures s == a + "-" + b && '-' !in a <==>
      var i := FirstOf(s, '-'); i < |s| && a == s[..i] && b == s[i + 1..]
  {
    hide FirstOf;
    var i := FirstOf(s, '-');
    FirstOfMeans(s, '-');
    if s == a + "-" + b && '-' !in a {
      FirstOfAppend(a, '-', b);
      assert a + ['-'] + b == s;
      assert i == |a| && s[..|a|] == a && s[|a| + 1..] == b;
    }
    if i < |s| && a == s[..i] && b == s[i + 1..] {
      assert s == s[..i] + [s[i]] + s[i + 1..];
      assert s == a + "-" + b;
    }
  }

  /** Up to the scheme separator, after a protocol name. */
  lemma SchemeIff(s: string, proto: string, p: Protocol, rest: string)
    requires Names(proto, p)
    ensures s == proto + "://" + rest <==>
      var i := SchemeAt(s); i < |s| && proto == s[..i] && rest == s[i + 3..]
  {
    hide Names;
    NamesIff(proto, p);
    var i := SchemeAt(s);
    if i < |s| {
      SchemeAtMeans(s);
    }
    if s == proto + "://" + rest {
      SchemeAtAppend(proto, rest);
      assert s[..|proto|] == proto && s[|proto| + 3..] == rest;
    }
  }

  /** The texts that parse to a mapping: just those written out of its parts. */
  lemma ParsesIff<S>(src: Codec<S>, ip: Codec<Ip>, text: string, m: Mapping<S>)
    ensures Parse(src, ip, text) == Ok(m) <==>
      exists proto, a, t, port :: WrittenAs(src, ip, text, m, proto, a, t, port)
  {
    if Parse(src, ip, text) == Ok(m) {
      var proto, a, t, port := PartsOf(src, ip, text, m);
    }
    if proto, a, t, port :| WrittenAs(src, ip, text, m, proto, a, t, port) {
      PartsParse(src, ip, text, m, proto, a, t, port);
    }
  }

  lemma PartsParse<S>(src: Codec<S>, ip: Codec<Ip>, text: string, m: Mapping<S>, proto: string, a: string, t: string,
                      port: string)
    requires WrittenAs(src, ip, text, m, proto, a, t, port)
    ensures Parse(src, ip, text) == Ok(m)
  {
    hide IsPort, Names, ParseDestination;
    var dst := m.host + ":" + port;
    NamesIff(proto, m.protocol);
    SchemeIff(text, proto, m.protocol, a + "-" + (t + "-" + dst));
    DashIff(a + "-" + (t + "-" + dst), a, t + "-" + dst);
    DashIff(t + "-" + dst, t, dst);
    DestinationIff(m.protocol, m.src, m.target, dst, m);
  }

  lemma PartsOf<S>(src: Codec<S>, ip: Codec<Ip>, text: string, m: Mapping<S>)
    returns (proto: string, a: string, t: string, port: string)
    requires Parse(src, ip, text) == Ok(m)
    ensures WrittenAs(src, ip, text, m, proto, a, t, port)
  {
    hide IsPort, Names, ParseDestination;
    var at := SchemeAt(text);
    var rest := text[at + 3..];
    var tail := rest[FirstOf(rest, '-') + 1..];
    var dst := tail[FirstOf(tail, '-') + 1..];
    proto, a, t := text[..at], rest[..FirstOf(rest, '-')], tail[..FirstOf(tail, '-')];
    SchemeAtMeans(text);
    DashIff(rest, a, tail);
    DashIff(tail, t, dst);
    DestinationIff(ParseProtocol(proto).value, src.parse(a).value, ip.parse(t).value, dst, m);
    port :| dst == m.host + ":" + port && ':' !in port && IsPort(port, m.port);
    NamesIff(proto, m.protocol);
  }
}
