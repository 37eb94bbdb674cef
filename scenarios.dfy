/** Examples of the argument syntax and of one probe run. Most are stated over printed
    numbers and addresses, so that they hold for every instance of the example's shape;
    the timeout examples and the local-listener run are stated on their literal text. */
module Scenarios {
  import opened Wrappers
  import opened Text
  import opened Numeric
  import opened Ip
  import opened Resolver
  import opened ResolverLemmas
  import opened Probe

  lemma PortExpansion(p: nat)
    requires p <= U16_MAX
    ensures Expansion(Decimal(p)) == [p]
  {
    ParseDecimal(p, U16_MAX);
  }

  /** "443,80,8000-8002" shape: two single ports and a range resolve to the two
      ports followed by the range, in that order. */
  lemma PortListExample(a: nat, b: nat, lo: nat, hi: nat)
    requires a <= U16_MAX && b <= U16_MAX && lo <= U16_MAX && hi <= U16_MAX
    ensures ResolvePorts([Decimal(a), Decimal(b), Decimal(lo) + "-" + Decimal(hi)])
         == [a, b] + InclusiveRange(lo, hi)
  {
    var range := Decimal(lo) + "-" + Decimal(hi);
    ThreeTokens(Decimal(a), Decimal(b), range);
    PortExpansion(a);
    PortExpansion(b);
    RangeTokenExpansion(lo, hi);
  }

  lemma {:induction false} ThreeTokens(x: string, y: string, z: string)
    ensures ResolvePorts([x, y, z]) == Expansion(x) + Expansion(y) + Expansion(z)
  {
    ResolvePortsFirst([x, y, z]);
    assert [x, y, z][1..] == [y, z];
    ResolvePortsFirst([y, z]);
    assert [y, z][1..] == [z];
    ResolvePortsOne(z);
  }

  /** A port given twice is probed twice; a malformed token between them is skipped. */
  lemma DuplicatesAndMalformed(p: nat, bad: string)
    requires p <= U16_MAX && ParsePortToken(bad).Err?
    ensures ResolvePorts([Decimal(p), bad, Decimal(p)]) == [p, p]
  {
    ResolvePortsSkipsFailed([Decimal(p)], bad, [Decimal(p)]);
    assert [Decimal(p)] + [bad] + [Decimal(p)] == [Decimal(p), bad, Decimal(p)];
    ResolvePortsAppend([Decimal(p)], [Decimal(p)]);
    ResolvePortsOne(Decimal(p));
    PortExpansion(p);
  }

  lemma MillisecondsExample()
    ensures ParseTimeout("500ms") == Ok(500)
  {
    TimeoutUnits(500);
    assert Decimal(500) + "ms" == "500ms";
  }

  lemma SecondsExample()
    ensures ParseTimeout("3s") == Ok(3000)
  {
    TimeoutUnits(3);
    assert Decimal(3) + "s" == "3s";
  }

  lemma UnknownUnitExample()
    ensures ParseTimeout("5x") == Err(InvalidTimeoutUnit)
  {
  }

  /** A unit with no number before it is an invalid value, not a missing unit. */
  lemma UnitWithoutNumberExample()
    ensures ParseTimeout("ms") == Err(InvalidTimeoutValue)
  {
  }

  lemma NonNumericSecondsExample()
    ensures ParseTimeout("xs") == Err(InvalidTimeoutValue)
  {
  }

  /** A single IPv4 host such as "10.0.0.1" resolves to that one address. */
  lemma SingleHostExample(a: nat, b: nat, c: nat, d: nat, ipv6: Ipv6Parser)
    requires IsOctet(a) && IsOctet(b) && IsOctet(c) && IsOctet(d)
    ensures ParseHosts(Split(Ipv4Text(a, b, c, d), ','), ipv6) == Ok([V4(a, b, c, d)])
  {
    var text := Ipv4Text(a, b, c, d);
    Ipv4RoundTrip(a, b, c, d);
    JoinNoComma(a, b, c, d);
    SplitFree(text, ',');
    assert FromStr(text, ipv6) == Some(V4(a, b, c, d));
    OneHost(text, ipv6);
  }

  lemma OneHost(tok: string, ipv6: Ipv6Parser)
    requires FromStr(tok, ipv6).Some?
    ensures ParseHosts([tok], ipv6) == Ok([FromStr(tok, ipv6).value])
  {
    var r := ParseHosts([tok], ipv6);
    assert [tok][0] == tok;
    assert r.Ok? && |r.value| == 1;
    assert r.value == [r.value[0]];
  }

  lemma JoinNoComma(a: nat, b: nat, c: nat, d: nat)
    ensures ',' !in Ipv4Text(a, b, c, d)
  {
    var parts := [Decimal(a), Decimal(b), Decimal(c), Decimal(d)];
    forall k | 0 <= k < 4 ensures ',' !in parts[k] {
      assert AllDigits(parts[k]);
    }
    JoinAvoids(parts, '.', ',');
  }

  /** A host like "999.999.999.999", no IPv4 address and not taken by the IPv6 parser,
      fails the whole parse. */
  lemma InvalidHostExample(args: seq<string>, a: nat, b: nat, c: nat, d: nat, ipv6: Ipv6Parser)
    requires |args| >= 4 && args[1] == Ipv4Text(a, b, c, d)
    requires !IsOctet(a) || !IsOctet(b) || !IsOctet(c) || !IsOctet(d)
    requires ipv6(args[1]).None?
    ensures ParseArgs(args, ipv6) == Err(InvalidHost)
  {
    Ipv4RejectsLargeOctet(a, b, c, d);
    JoinNoComma(a, b, c, d);
    SplitFree(args[1], ',');
    ParseArgsOutcome(args, ipv6);
    assert !HostsValid(args, ipv6) by {
      assert HostTokens(args)[0] == args[1];
    }
  }

  /** "<ip> -p <lo>-<hi>" with nothing after it probes that one host on the range,
      with the two-second default timeout. */
  lemma HostAndRangeExample(a: nat, b: nat, c: nat, d: nat, lo: nat, hi: nat, ipv6: Ipv6Parser)
    requires IsOctet(a) && IsOctet(b) && IsOctet(c) && IsOctet(d)
    requires lo <= U16_MAX && hi <= U16_MAX
    ensures ParseArgs(["spark", Ipv4Text(a, b, c, d), "-p", Decimal(lo) + "-" + Decimal(hi)], ipv6)
         == Ok(Resolved([V4(a, b, c, d)], InclusiveRange(lo, hi), 2000))
  {
    var args := ["spark", Ipv4Text(a, b, c, d), "-p", Decimal(lo) + "-" + Decimal(hi)];
    SingleHostExample(a, b, c, d, ipv6);
    var range := Decimal(lo) + "-" + Decimal(hi);
    SplitFree(range, ',');
    ResolvePortsOne(range);
    RangeTokenExpansion(lo, hi);
    assert HostTokens(args) == Split(Ipv4Text(a, b, c, d), ',');
    assert PortTokens(args) == [range];
  }

  /** A local listener on port 2 only: the arguments "spark 127.0.0.1 -p 1-3" resolve to
      one host, ports 1, 2, 3 and the default timeout, and the probe reports port 1
      closed, port 2 open and port 3 closed, in that order. */
  lemma LocalListenerExample(args: seq<string>, ipv6: Ipv6Parser)
    requires args == ["spark", "127.0.0.1", "-p", "1-3"]
    ensures ParseArgs(args, ipv6) == Ok(Resolved([V4(127, 0, 0, 1)], [1, 2, 3], 2000))
    ensures var res := ParseArgs(args, ipv6).value;
      Report(Targets(res.ips, res.ports), res.timeoutMs, (t: SocketAddr, ms: nat) => t.port == 2)
        == ["[-] 1 is CLOSED", "[+] 2 is OPEN", "[-] 3 is CLOSED"]
  {
    LocalListenerParse(args, ipv6);
    LocalListenerReport(V4(127, 0, 0, 1));
  }

  lemma LocalListenerParse(args: seq<string>, ipv6: Ipv6Parser)
    requires args == ["spark", "127.0.0.1", "-p", "1-3"]
    ensures ParseArgs(args, ipv6) == Ok(Resolved([V4(127, 0, 0, 1)], [1, 2, 3], 2000))
  {
    HostAndRangeExample(127, 0, 0, 1, 1, 3, ipv6);
    LocalListenerArgs();
  }

  lemma LocalListenerArgs()
    ensures ["spark", Ipv4Text(127, 0, 0, 1), "-p", Decimal(1) + "-" + Decimal(3)]
         == ["spark", "127.0.0.1", "-p", "1-3"]
    ensures InclusiveRange(1, 3) == [1, 2, 3]
  {
    assert Ipv4Text(127, 0, 0, 1) == "127.0.0.1";
    assert Decimal(1) + "-" + Decimal(3) == "1-3";
    assert InclusiveRange(1, 3) == [1, 2, 3];
  }

  lemma LocalListenerReport(ip: IpAddr)
    ensures Report(Targets([ip], [1, 2, 3]), 2000, (t: SocketAddr, ms: nat) => t.port == 2)
         == ["[-] 1 is CLOSED", "[+] 2 is OPEN", "[-] 3 is CLOSED"]
  {
    assert Targets([ip], [1, 2, 3]) == [SocketAddr(ip, 1), SocketAddr(ip, 2), SocketAddr(ip, 3)];
    assert StatusLine(1, false) == "[-] 1 is CLOSED";
    assert StatusLine(2, true) == "[+] 2 is OPEN";
    assert StatusLine(3, false) == "[-] 3 is CLOSED";
  }
}
