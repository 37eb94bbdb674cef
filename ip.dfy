/** `IpAddr::from_str`: an IPv4 dotted-quad in Rust's strict form, otherwise an IPv6
    text, whose parser is a parameter of the model. */
module Ip {
  import opened Wrappers
  import opened Text
  import opened Numeric

  datatype IpAddr = V4(a: nat, b: nat, c: nat, d: nat) | V6(segments: seq<nat>)

  /** An IPv6 text parser (the RFC 4291 section 2.2 text form), given from outside. */
  type Ipv6Parser = string -> Option<seq<nat>>

  /** One IPv4 octet as Rust reads it: one to three ASCII digits, no leading zero
      unless the octet is exactly "0", no sign, value at most 255. */
  function ParseOctet(t: string): (r: Option<nat>)
    ensures r.Some? ==> r.value <= 255
  {
    if 1 <= |t| <= 3 && AllDigits(t) && (|t| == 1 || t[0] != '0') && DigitsValue(t) <= 255
    then Some(DigitsValue(t))
    else None
  }

  /** `Ipv4Addr::from_str`: exactly four octets separated by '.', nothing else. */
  function ParseIpv4(s: string): (r: Option<IpAddr>)
    ensures r.Some? ==> r.value.V4? && r.value.a <= 255 && r.value.b <= 255
                        && r.value.c <= 255 && r.value.d <= 255
  {
    var parts := Split(s, '.');
    if |parts| != 4 then None
    else
      var a :- ParseOctet(parts[0]);
      var b :- ParseOctet(parts[1]);
      var c :- ParseOctet(parts[2]);
      var d :- ParseOctet(parts[3]);
      Some(V4(a, b, c, d))
  }

  /** `IpAddr::from_str`: the IPv4 form is tried first, then the IPv6 form. */
  function FromStr(s: string, ipv6: Ipv6Parser): (r: Option<IpAddr>)
    ensures ParseIpv4(s).Some? ==> r == ParseIpv4(s)
    ensures ParseIpv4(s).None? ==> r.None? || r.value.V6?
    ensures ParseIpv4(s).None? ==> (r.Some? <==> ipv6(s).Some?)
    ensures ParseIpv4(s).None? && ipv6(s).Some? ==> r == Some(V6(ipv6(s).value))
  {
    match ParseIpv4(s)
    case Some(addr) => Some(addr)
    case None =>
      match ipv6(s)
      case Some(segments) => Some(V6(segments))
      case None => None
  }

  predicate IsOctet(n: nat) {
    n <= 255
  }

  /** The dotted-quad text of an IPv4 address, as `{}` prints it. */
  function Ipv4Text(a: nat, b: nat, c: nat, d: nat): string {
    Join([Decimal(a), Decimal(b), Decimal(c), Decimal(d)], '.')
  }

  lemma OctetRoundTrip(n: nat)
    requires IsOctet(n)
    ensures ParseOctet(Decimal(n)) == Some(n)
  {
    DecimalValue(n);
    DecimalThreeDigits(n);
  }

  lemma OctetCanonical(t: string, n: nat)
    requires ParseOctet(t) == Some(n)
    ensures Decimal(n) == t
  {
    DecimalOfDigits(t);
  }

  /** Printing an IPv4 address and parsing the text gives the address back. */
  lemma Ipv4RoundTrip(a: nat, b: nat, c: nat, d: nat)
    requires IsOctet(a) && IsOctet(b) && IsOctet(c) && IsOctet(d)
    ensures ParseIpv4(Ipv4Text(a, b, c, d)) == Some(V4(a, b, c, d))
  {
    var parts := [Decimal(a), Decimal(b), Decimal(c), Decimal(d)];
    SplitJoin(parts, '.');
    OctetRoundTrip(a);
    OctetRoundTrip(b);
    OctetRoundTrip(c);
    OctetRoundTrip(d);
  }

  /** The accepted IPv4 texts are exactly the canonical ones: whatever the parser
      accepts is the printed form of the address it returns. */
  lemma Ipv4Canonical(s: string, addr: IpAddr)
    requires ParseIpv4(s) == Some(addr)
    ensures addr.V4? && s == Ipv4Text(addr.a, addr.b, addr.c, addr.d)
  {
    var parts := Split(s, '.');
    OctetCanonical(parts[0], addr.a);
    OctetCanonical(parts[1], addr.b);
    OctetCanonical(parts[2], addr.c);
    OctetCanonical(parts[3], addr.d);
    JoinSplit(s, '.');
    assert parts == [Decimal(addr.a), Decimal(addr.b), Decimal(addr.c), Decimal(addr.d)];
  }

  /** An octet above 255 makes the whole text fail as IPv4 ("999.999.999.999", for one). */
  lemma Ipv4RejectsLargeOctet(a: nat, b: nat, c: nat, d: nat)
    requires !IsOctet(a) || !IsOctet(b) || !IsOctet(c) || !IsOctet(d)
    ensures ParseIpv4(Ipv4Text(a, b, c, d)) == None
  {
    var parts := [Decimal(a), Decimal(b), Decimal(c), Decimal(d)];
    SplitJoin(parts, '.');
    if ParseIpv4(Ipv4Text(a, b, c, d)).Some? {
      var addr := ParseIpv4(Ipv4Text(a, b, c, d)).value;
      OctetCanonical(parts[0], addr.a);
      OctetCanonical(parts[1], addr.b);
      OctetCanonical(parts[2], addr.c);
      OctetCanonical(parts[3], addr.d);
      DecimalInjective(a, addr.a);
      DecimalInjective(b, addr.b);
      DecimalInjective(c, addr.c);
      DecimalInjective(d, addr.d);
    }
  }
}
