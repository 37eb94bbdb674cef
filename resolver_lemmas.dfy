/** What `parse_args` promises, stated over the model of module Resolver. */
module ResolverLemmas {
  import opened Wrappers
  import opened Text
  import opened Numeric
  import opened Ip
  import opened Resolver

  // ---------------------------------------------------------------- port tokens

  /** A dash token "x-y" (one dash) is the inclusive range of its two ports, or
      "Invalid port number" when either side is not a `u16`. */
  lemma PortTokenRange(x: string, y: string)
    requires '-' !in x && '-' !in y
    ensures ParsePortToken(x + "-" + y) ==
      if ParseUnsigned(x, U16_MAX).Some? && ParseUnsigned(y, U16_MAX).Some?
      then Ok(InclusiveRange(ParseUnsigned(x, U16_MAX).value, ParseUnsigned(y, U16_MAX).value))
      else Err(InvalidPortNumber)
  {
    SplitJoin([x, y], '-');
    assert Join([x, y], '-') == x + "-" + y;
  }

  /** Every token with exactly one dash has that "x-y" shape. */
  lemma OneDashToken(tok: string)
    requires Count(tok, '-') == 1
    ensures exists x, y :: '-' !in x && '-' !in y && tok == x + "-" + y
  {
    SplitTwo(tok, '-');
    var parts := Split(tok, '-');
    assert '-' !in parts[0] && '-' !in parts[1];
    assert tok == parts[0] + "-" + parts[1];
  }

  /** A token without a dash is one port, or "Invalid port number". */
  lemma PortTokenSingle(tok: string)
    requires '-' !in tok
    ensures ParsePortToken(tok) ==
      if ParseUnsigned(tok, U16_MAX).Some? then Ok([ParseUnsigned(tok, U16_MAX).value])
      else Err(InvalidPortNumber)
  {
  }

  /** The printed range "a-b" expands to a, a+1, ..., b: b-a+1 ports when a <= b,
      none at all (and no error) when a > b. */
  lemma RangeTokenExpansion(a: nat, b: nat)
    requires a <= U16_MAX && b <= U16_MAX
    ensures ParsePortToken(Decimal(a) + "-" + Decimal(b)) == Ok(InclusiveRange(a, b))
    ensures a > b ==> Expansion(Decimal(a) + "-" + Decimal(b)) == []
    ensures a <= b ==> |Expansion(Decimal(a) + "-" + Decimal(b))| == b - a + 1
  {
    ParseDecimal(a, U16_MAX);
    ParseDecimal(b, U16_MAX);
    PortTokenRange(Decimal(a), Decimal(b));
  }

  // ---------------------------------------------------------------- port list

  /** `flat_map` distributes over concatenation. */
  lemma {:induction false} FlatMapAppend<T>(a: seq<T>, b: seq<T>, f: T -> seq<nat>)
    ensures FlatMap(a + b, f) == FlatMap(a, f) + FlatMap(b, f)
  {
    if |a| == 0 {
      assert a + b == b;
    } else {
      assert (a + b)[0] == a[0];
      assert (a + b)[1..] == a[1..] + b;
      FlatMapAppend(a[1..], b, f);
    }
  }

  /** The port list of a concatenation of token lists is the concatenation of their
      port lists: order is kept and duplicates are not removed. */
  lemma ResolvePortsAppend(a: seq<string>, b: seq<string>)
    ensures ResolvePorts(a + b) == ResolvePorts(a) + ResolvePorts(b)
  {
    FlatMapAppend(a, b, Expansion);
  }

  /** The port list of a single token is that token's expansion. */
  lemma ResolvePortsOne(tok: string)
    ensures ResolvePorts([tok]) == Expansion(tok)
  {
    ResolvePortsFirst([tok]);
    assert [tok][1..] == [];
  }

  /** The port list starts with the first token's expansion. */
  lemma ResolvePortsFirst(tokens: seq<string>)
    requires |tokens| > 0
    ensures ResolvePorts(tokens) == Expansion(tokens[0]) + ResolvePorts(tokens[1..])
  {
  }

  /** A token whose closure fails is dropped without a trace: it neither aborts the
      parse nor contributes a port. */
  lemma ResolvePortsSkipsFailed(a: seq<string>, tok: string, b: seq<string>)
    requires ParsePortToken(tok).Err?
    ensures ResolvePorts(a + [tok] + b) == ResolvePorts(a + b)
  {
    ResolvePortsOne(tok);
    ResolvePortsAppend(a, [tok]);
    ResolvePortsAppend(a + [tok], b);
    ResolvePortsAppend(a, b);
  }

  /** A port is in the list exactly when some token parsed successfully and its
      expansion holds that port. */
  lemma {:induction false} ResolvePortsMembership(tokens: seq<string>, p: nat)
    ensures p in ResolvePorts(tokens) <==>
      exists k :: 0 <= k < |tokens| && ParsePortToken(tokens[k]).Ok? && p in ParsePortToken(tokens[k]).value
  {
    if |tokens| > 0 {
      ResolvePortsFirst(tokens);
      ResolvePortsMembership(tokens[1..], p);
      assert forall k :: 1 <= k < |tokens| ==> tokens[1..][k - 1] == tokens[k];
      if p in ResolvePorts(tokens[1..]) {
        var k :| 0 <= k < |tokens[1..]| && ParsePortToken(tokens[1..][k]).Ok?
          && p in ParsePortToken(tokens[1..][k]).value;
        assert tokens[k + 1] == tokens[1..][k];
      }
    }
  }

  // ---------------------------------------------------------------- timeout

  /** "<x>ms" is x milliseconds, or "Invalid timeout value" when x is not a `u64`. */
  lemma TimeoutMillisText(x: string)
    ensures ParseTimeout(x + "ms") ==
      if ParseUnsigned(x, U64_MAX).Some? then Ok(ParseUnsigned(x, U64_MAX).value)
      else Err(InvalidTimeoutValue)
  {
  }

  /** "<x>s", where x does not itself end in 'm', is x seconds in milliseconds, or
      "Invalid timeout value" when x is not a `u64`. */
  lemma TimeoutSecondsText(x: string)
    requires !EndsWith(x, "m")
    ensures ParseTimeout(x + "s") ==
      if ParseUnsigned(x, U64_MAX).Some? then Ok(ParseUnsigned(x, U64_MAX).value * 1000)
      else Err(InvalidTimeoutValue)
  {
  }

  /** The printed number n with unit "ms" is n milliseconds, with unit "s" n seconds. */
  lemma TimeoutUnits(n: nat)
    requires n <= U64_MAX
    ensures ParseTimeout(Decimal(n) + "ms") == Ok(n)
    ensures ParseTimeout(Decimal(n) + "s") == Ok(n * 1000)
  {
    ParseDecimal(n, U64_MAX);
    TimeoutMillisText(Decimal(n));
    var d := Decimal(n);
    assert !EndsWith(d, "m") by {
      assert IsDigit(d[|d| - 1]);
      assert d[|d| - 1..] == [d[|d| - 1]];
    }
    TimeoutSecondsText(d);
  }

  // ---------------------------------------------------------------- parse_args

  predicate HostsValid(args: seq<string>, ipv6: Ipv6Parser)
    requires |args| >= 2
  {
    forall k :: 0 <= k < |HostTokens(args)| ==> FromStr(HostTokens(args)[k], ipv6).Some?
  }

  /** The checks run in source order and the first failing one decides the error:
      usage, then every host token, then the "-p" flag, then the timeout; the port
      tokens never cause an error. */
  lemma ParseArgsOutcome(args: seq<string>, ipv6: Ipv6Parser)
    ensures |args| < 4 ==> ParseArgs(args, ipv6) == Err(Usage)
    ensures |args| >= 4 && !HostsValid(args, ipv6) ==> ParseArgs(args, ipv6) == Err(InvalidHost)
    ensures |args| >= 4 && HostsValid(args, ipv6) && args[2] != "-p" ==>
      ParseArgs(args, ipv6) == Err(InvalidArgument)
    ensures |args| >= 4 && HostsValid(args, ipv6) && args[2] == "-p" && TimeoutArg(args).Err? ==>
      ParseArgs(args, ipv6) == Err(TimeoutArg(args).error)
    ensures ParseArgs(args, ipv6).Ok? <==>
      |args| >= 4 && HostsValid(args, ipv6) && args[2] == "-p" && TimeoutArg(args).Ok?
  {
  }

  /** On success the tuple holds one address per host token, the resolved port list
      and the timeout. */
  lemma ParseArgsValues(args: seq<string>, ipv6: Ipv6Parser)
    requires ParseArgs(args, ipv6).Ok?
    ensures var res := ParseArgs(args, ipv6).value;
      |res.ips| == |HostTokens(args)|
      && (forall k :: 0 <= k < |res.ips| ==> FromStr(HostTokens(args)[k], ipv6) == Some(res.ips[k]))
      && res.ports == ResolvePorts(PortTokens(args))
      && Ok(res.timeoutMs) == TimeoutArg(args)
  {
  }

  /** Whatever the port argument holds, it changes nothing but the port list. */
  lemma PortArgumentNeverFails(args: seq<string>, other: string, ipv6: Ipv6Parser)
    requires |args| >= 4
    ensures var r, r' := ParseArgs(args, ipv6), ParseArgs(args[3 := other], ipv6);
      (r.Err? ==> r' == r)
      && (r.Ok? ==> r' == Ok(r.value.(ports := ResolvePorts(Split(other, ',')))))
  {
  }

  /** Arguments after the timeout value, and a fifth argument other than "-t" with
      everything after it, are ignored. */
  lemma TrailingArgumentsIgnored(args: seq<string>, extra: seq<string>, ipv6: Ipv6Parser)
    requires |args| >= 6 || (|args| == 5 && args[4] != "-t")
    ensures ParseArgs(args + extra, ipv6) == ParseArgs(args, ipv6)
  {
  }

  /** Without a valid "-t <value>" the timeout is the two-second default. */
  lemma DefaultTimeout(args: seq<string>, ipv6: Ipv6Parser)
    requires ParseArgs(args, ipv6).Ok?
    requires |args| <= 4 || args[4] != "-t"
    ensures ParseArgs(args, ipv6).value.timeoutMs == 2000
  {
  }
}
