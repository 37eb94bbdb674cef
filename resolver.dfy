/** `parse_args` of src/main.rs: the positional argument vector (program name first)
    becomes a host list, a port list and a connect timeout in milliseconds, or one of
    the fixed error messages. */
module Resolver {
  import opened Wrappers
  import opened Text
  import opened Numeric
  import opened Ip

  /** The errors `parse_args` can return. */
  datatype Error =
    | Usage
    | InvalidHost
    | InvalidArgument
    | MissingTimeoutValue
    | InvalidTimeoutValue
    | InvalidTimeoutUnit
  {
    function Message(): string {
      match this
      case Usage => "Usage: ./spark <ips> -p <ports> [-t <timeout>]"
      case InvalidHost => "Invalid IP address or CIDR range"
      case InvalidArgument => "Invalid argument"
      case MissingTimeoutValue => "Timeout value is missing"
      case InvalidTimeoutValue => "Invalid timeout value"
      case InvalidTimeoutUnit => "Invalid timeout unit"
    }
  }

  /** The errors of the per-port-token closure; `flat_map` discards them. */
  datatype PortError = InvalidPortRange | InvalidPortNumber {
    function Message(): string {
      match this
      case InvalidPortRange => "Invalid port range"
      case InvalidPortNumber => "Invalid port number"
    }
  }

  /** The resolved tuple: hosts, ports and the timeout in milliseconds. */
  datatype Resolved = Resolved(ips: seq<IpAddr>, ports: seq<nat>, timeoutMs: nat)

  const DEFAULT_TIMEOUT_MS: nat := 2000

  // ---------------------------------------------------------------- hosts

  /** The host tokens: `args[1]` split on ','. */
  function HostTokens(args: seq<string>): seq<string>
    requires |args| >= 2
  {
    Split(args[1], ',')
  }

  /** Every host token must be an IP literal; one that is not fails the whole list.
      The result keeps the tokens' order, one address per token. */
  function ParseHosts(tokens: seq<string>, ipv6: Ipv6Parser): (r: Result<seq<IpAddr>, Error>)
    ensures r.Ok? <==> forall k :: 0 <= k < |tokens| ==> FromStr(tokens[k], ipv6).Some?
    ensures r.Err? ==> r.error == InvalidHost
    ensures r.Ok? ==> |r.value| == |tokens|
    ensures r.Ok? ==> forall k :: 0 <= k < |tokens| ==> FromStr(tokens[k], ipv6) == Some(r.value[k])
  {
    if |tokens| == 0 then Ok([])
    else
      var ip :- FromStr(tokens[0], ipv6).OkOr(InvalidHost);
      var rest :- ParseHosts(tokens[1..], ipv6);
      assert forall k :: 1 <= k < |tokens| ==> tokens[k] == tokens[1..][k - 1];
      Ok([ip] + rest)
  }

  // ---------------------------------------------------------------- ports

  /** `start..=end` collected into a vector: ascending and inclusive, empty when
      `start > end`. */
  function InclusiveRange(start: nat, end: nat): (r: seq<nat>)
    decreases end + 1 - start
    ensures |r| == if start <= end then end - start + 1 else 0
    ensures forall k :: 0 <= k < |r| ==> r[k] == start + k
  {
    if start > end then [] else [start] + InclusiveRange(start + 1, end)
  }

  /** `s.parse::<u16>().map_err(|_| "Invalid port number")`. */
  function ParsePort(s: string): Result<nat, PortError> {
    ParseUnsigned(s, U16_MAX).OkOr(InvalidPortNumber)
  }

  /** The per-token closure of the port list: a token with a '-' is a range and must
      have exactly one dash, with a port on each side; any other token is one port. */
  function ParsePortToken(tok: string): (r: Result<seq<nat>, PortError>)
    ensures r == Err(InvalidPortRange) <==> Count(tok, '-') >= 2
    ensures r.Ok? ==> forall k :: 0 <= k < |r.value| ==> r.value[k] <= U16_MAX
  {
    if '-' in tok then
      var range := Split(tok, '-');
      if |range| != 2 then Err(InvalidPortRange)
      else
        var start :- ParsePort(range[0]);
        var end :- ParsePort(range[1]);
        Ok(InclusiveRange(start, end))
    else
      var port :- ParsePort(tok);
      Ok([port])
  }

  /** What one token contributes after `flat_map(..).flatten()`: its ports, or
      nothing when the closure failed. */
  function Expansion(tok: string): (ports: seq<nat>)
    ensures forall k :: 0 <= k < |ports| ==> ports[k] <= U16_MAX
  {
    match ParsePortToken(tok)
    case Ok(ports) => ports
    case Err(_) => []
  }

  /** `flat_map(f)` collected: the pieces `f` gives the elements, concatenated in order. */
  function FlatMap<T>(xs: seq<T>, f: T -> seq<nat>): seq<nat> {
    if |xs| == 0 then []
    else f(xs[0]) + FlatMap(xs[1..], f)
  }

  /** If no piece exceeds `bound`, neither does any element of the concatenation. */
  lemma {:induction false} FlatMapBounded<T>(xs: seq<T>, f: T -> seq<nat>, bound: nat)
    requires forall x, k :: 0 <= k < |f(x)| ==> f(x)[k] <= bound
    ensures forall k :: 0 <= k < |FlatMap(xs, f)| ==> FlatMap(xs, f)[k] <= bound
  {
    if |xs| > 0 {
      FlatMapBounded(xs[1..], f, bound);
    }
  }

  /** The port list: the expansions of the tokens, in token order. */
  function ResolvePorts(tokens: seq<string>): (ports: seq<nat>)
    ensures forall k :: 0 <= k < |ports| ==> ports[k] <= U16_MAX
  {
    FlatMapBounded(tokens, Expansion, U16_MAX);
    FlatMap(tokens, Expansion)
  }

  /** The port tokens: `args[3]` split on ','. */
  function PortTokens(args: seq<string>): seq<string>
    requires |args| >= 4
  {
    Split(args[3], ',')
  }

  // ---------------------------------------------------------------- timeout

  /** The timeout value: "<n>ms" is n milliseconds, otherwise "<n>s" is n seconds,
      with n a `u64`; the "ms" suffix is tested first. */
  function ParseTimeout(s: string): (r: Result<nat, Error>)
    ensures r.Err? ==> r.error == InvalidTimeoutValue || r.error == InvalidTimeoutUnit
    ensures r == Err(InvalidTimeoutUnit) <==> !EndsWith(s, "s")
    ensures r.Ok? ==> r.value <= U64_MAX * 1000
  {
    if EndsWith(s, "ms") then
      var millis :- ParseUnsigned(s[..|s| - 2], U64_MAX).OkOr(InvalidTimeoutValue);
      Ok(millis)
    else if EndsWith(s, "s") then
      var secs :- ParseUnsigned(s[..|s| - 1], U64_MAX).OkOr(InvalidTimeoutValue);
      Ok(secs * 1000)
    else
      Err(InvalidTimeoutUnit)
  }

  /** The timeout arguments: only an exact "-t" in `args[4]` introduces a value in
      `args[5]`; otherwise the default of two seconds. */
  function TimeoutArg(args: seq<string>): (r: Result<nat, Error>)
    requires |args| >= 4
    ensures !(|args| > 4 && args[4] == "-t") ==> r == Ok(DEFAULT_TIMEOUT_MS)
    ensures |args| == 5 && args[4] == "-t" ==> r == Err(MissingTimeoutValue)
    ensures |args| >= 6 && args[4] == "-t" ==> r == ParseTimeout(args[5])
  {
    if |args| > 4 && args[4] == "-t" then
      if |args| < 6 then Err(MissingTimeoutValue)
      else ParseTimeout(args[5])
    else Ok(DEFAULT_TIMEOUT_MS)
  }

  // ---------------------------------------------------------------- parse_args

  function ParseArgs(args: seq<string>, ipv6: Ipv6Parser): (r: Result<Resolved, Error>)
    ensures |args| < 4 ==> r == Err(Usage)
    ensures r.Ok? ==> |args| >= 4 && args[2] == "-p"
    ensures r.Ok? ==> forall k :: 0 <= k < |r.value.ports| ==> r.value.ports[k] <= U16_MAX
  {
    if |args| < 4 then Err(Usage)
    else
      var ips :- ParseHosts(HostTokens(args), ipv6);
      if args[2] != "-p" then Err(InvalidArgument)
      else
        var ports := ResolvePorts(PortTokens(args));
        var timeout :- TimeoutArg(args);
        Ok(Resolved(ips, ports, timeout))
  }
}
