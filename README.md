# spark: a verified model of the argument resolver and probe loop

`spark` (src/main.rs) is a command-line TCP connectivity probe:

```
spark <ips> -p <ports> [-t <timeout>]
```

`parse_args` turns the positional arguments into a host list, a port list and a
connect timeout, or into one of six fixed error messages. `tcp_connect` then tries one
TCP connection per (host, port) pair, hosts outer and ports inner, and prints
`[+] <port> is OPEN` or `[-] <port> is CLOSED` for each attempt. `main` prints
`Error: <message>` instead when parsing fails.

The model is written in Dafny and has these modules:

- `Wrappers` (wrappers.dfy) holds `Option` and `Result`. `:-` plays the part of Rust's `?`.
- `Text` (text.dfy) models Rust's `str::split(char)`, `contains` and `ends_with` on
  strings (sequences of characters). It proves `split` and `join` inverse both ways.
- `Numeric` (numeric.dfy) models `str::parse::<u16>()` and `str::parse::<u64>()` as a
  partial function: an optional single `+`, then one or more ASCII digits, with a value
  at most the type's maximum. It also gives the decimal text that `{}` prints and proves
  the two are inverses.
- `Ip` (ip.dfy) models `IpAddr::from_str`. The IPv4 dotted-quad is modelled concretely,
  with Rust's rules: four octets, each one to three digits, no leading zero, value at
  most 255. The IPv6 text parser is a parameter.
- `Resolver` (resolver.dfy) holds `parse_args` as pure functions: the usage check, the
  host tokens, the `-p` flag, the port tokens and their expansion, and the timeout.
- `ResolverLemmas` (resolver_lemmas.dfy) holds what `parse_args` promises, stated as
  lemmas.
- `Probe` (probe.dfy) models `tcp_connect` as a method with nested loops over a connect
  oracle, and `main` as a method `Run`. Both return the attempts made and the lines
  printed.
- `Scenarios` (scenarios.dfy) holds examples of the argument syntax and of one probe run.
  The host, port and range examples are stated for every instance of their shape, for
  example every printed range `<lo>-<hi>`. The five timeout examples and the
  local-listener run are stated on their literal text.

The timeout is a natural number of milliseconds, so `Duration::from_secs(n)` is `n * 1000`.

## Behaviour a reader might not expect (the model follows the code)

- A malformed port token is silently dropped and does not fail the parse. The per-token
  closure returns a `Result`, and `flat_map` treats an `Err` as empty (src/main.rs:33-50).
  So "Invalid port range" and "Invalid port number" never reach the caller, where a
  reader might expect an error.
- A reversed range such as `80-79` yields no ports and no error (src/main.rs:41), where
  a reader might expect an error.
- A fifth argument other than exactly `-t` is ignored, and the timeout defaults to
  2 s (src/main.rs:52). Arguments after the timeout value are ignored too.
- Hosts are a list in token order, not a set. Duplicates are kept.
- CIDR blocks are commented out in the source (src/main.rs:1, 19-20) and are not
  accepted.
- The host block does not type-check as written (`&args[1]` and `flat_map` over a
  `Result` at src/main.rs:14-25). The model takes its evident meaning: every token must
  be an IP literal, or the whole parse fails with "Invalid IP address or CIDR range".

## Model

| member | source | states |
|---|---|---|
| `Text.Count` | src/main.rs:34 | `port.contains('-')`: the count of a character is zero exactly when the string does not contain it |
| `Text.Split` | src/main.rs:15 | `split(c)` gives one more piece than there are separators, and no piece contains the separator |
| `Text.JoinSplit` | src/main.rs:32 | splitting loses nothing: joining the pieces with the separator gives back the original string |
| `Text.SplitJoin` | src/main.rs:35 | separator-free pieces joined and split again come back unchanged |
| `Text.SplitTwo` | src/main.rs:35-36 | a token that splits into exactly two pieces is those pieces around its one separator |
| `Numeric.ParseUnsigned` | src/main.rs:39-40 | `parse::<u16>` and `parse::<u64>`: an accepted text is all digits or `+` then digits, is neither empty nor a lone `+`, holds no `-`, `,` or `.`, and its value is at most the type's maximum |
| `Numeric.ParseDigits` | src/main.rs:39-40 | every non-empty digit string, leading zeros allowed, with or without one leading `+`, parses to its value when that is at most the maximum and is rejected otherwise |
| `Numeric.Decimal` | src/main.rs:82-83 | the printed number is non-empty, all digits, and has no leading zero unless it is "0" |
| `Numeric.DecimalValue` | src/main.rs:82-83 | reading the printed number back gives the number |
| `Numeric.ParseDecimal` | src/main.rs:44 | every printed number within range parses back to itself |
| `Numeric.ParsePlusDecimal` | src/main.rs:44 | a leading `+` is accepted and leaves the value unchanged |
| `Numeric.ParseOverflow` | src/main.rs:44 | the printed form of any value above the type's maximum is rejected |
| `Numeric.DecimalInjective` | src/main.rs:82-83 | different ports print differently |
| `Numeric.DecimalOfDigits` | src/main.rs:44 | a digit string without a superfluous leading zero is the printed form of its value |
| `Numeric.DecimalThreeDigits` | src/main.rs:17 | an IPv4 octet prints in at most three digits |
| `Ip.ParseOctet` | src/main.rs:17 | an accepted octet is at most 255 |
| `Ip.ParseIpv4` | src/main.rs:17 | an accepted dotted quad is an IPv4 address whose four octets are all at most 255 |
| `Ip.FromStr` | src/main.rs:17-23 | the IPv4 reading wins whenever it succeeds; otherwise a text is accepted exactly when the IPv6 parser accepts it, as the IPv6 address of the segments that parser gives |
| `Ip.OctetRoundTrip` | src/main.rs:17 | every printed octet parses back to itself |
| `Ip.OctetCanonical` | src/main.rs:17 | an accepted octet text is the printed form of its value |
| `Ip.Ipv4RoundTrip` | src/main.rs:17 | parsing a printed IPv4 address gives the address back |
| `Ip.Ipv4Canonical` | src/main.rs:17 | every accepted IPv4 text is the printed form of the address it returns |
| `Ip.Ipv4RejectsLargeOctet` | src/main.rs:17-22 | a dotted quad with an octet above 255 (e.g. "999.999.999.999") is not an IPv4 address |
| `Resolver.ParseHosts` | src/main.rs:14-25 | succeeds exactly when every host token is an IP literal; otherwise fails with "Invalid IP address or CIDR range"; on success gives one address per token, in order |
| `Resolver.InclusiveRange` | src/main.rs:41-42 | `start..=end` has end-start+1 elements when start <= end and none otherwise; element k is start+k |
| `Resolver.ParsePortToken` | src/main.rs:33-47 | "Invalid port range" exactly when the token has two or more dashes; every port produced is at most 65535 |
| `Resolver.Expansion` | src/main.rs:33-49 | what one token contributes after `flatten` never holds a port above 65535 |
| `Resolver.FlatMapBounded` | src/main.rs:31-50 | if no token's piece exceeds a bound, no element of the `flat_map` result does |
| `Resolver.ResolvePorts` | src/main.rs:31-50 | every resolved port is at most 65535 |
| `Resolver.ParseTimeout` | src/main.rs:56-69 | "Invalid timeout unit" exactly when the value does not end in `s`; any other failure is "Invalid timeout value" |
| `Resolver.TimeoutArg` | src/main.rs:52-55 | 2000 ms unless `args[4]` is exactly `-t`; "Timeout value is missing" when `-t` is the last argument; otherwise the parse of `args[5]` |
| `Resolver.ParseArgs` | src/main.rs:7-75 | fewer than 4 arguments give the usage error; success implies `args[2]` is "-p" and every port is at most 65535 |
| `ResolverLemmas.PortTokenRange` | src/main.rs:34-42 | a one-dash token "x-y" is the inclusive range of its two ports, or "Invalid port number" if either side is not a u16 |
| `ResolverLemmas.OneDashToken` | src/main.rs:35-36 | every token with exactly one dash has the shape "x-y" with no dash in x or y |
| `ResolverLemmas.PortTokenSingle` | src/main.rs:43-46 | a token without a dash is one port, or "Invalid port number" |
| `ResolverLemmas.RangeTokenExpansion` | src/main.rs:41-42 | the printed range "a-b" expands to a..b: b-a+1 ports when a <= b, none and no error when a > b |
| `ResolverLemmas.FlatMapAppend` | src/main.rs:31-50 | `flat_map` distributes over concatenation of its input |
| `ResolverLemmas.ResolvePortsFirst` | src/main.rs:31-50 | the port list starts with the first token's expansion, followed by the rest |
| `ResolverLemmas.ResolvePortsOne` | src/main.rs:31-50 | a single token's port list is its expansion |
| `ResolverLemmas.ResolvePortsAppend` | src/main.rs:31-50 | the ports of concatenated token lists are the concatenated ports: order kept, duplicates kept |
| `ResolverLemmas.ResolvePortsSkipsFailed` | src/main.rs:33-50 | a token whose parse fails is dropped: removing it changes nothing |
| `ResolverLemmas.ResolvePortsMembership` | src/main.rs:31-50 | a port is in the list exactly when some successfully parsed token's expansion holds it |
| `ResolverLemmas.TimeoutMillisText` | src/main.rs:57-61 | "<x>ms" is x milliseconds, or "Invalid timeout value" when x is not a u64 |
| `ResolverLemmas.TimeoutSecondsText` | src/main.rs:62-66 | "<x>s", for x not ending in m, is x*1000 milliseconds, or "Invalid timeout value" |
| `ResolverLemmas.TimeoutUnits` | src/main.rs:57-66 | the printed n with "ms" is n ms; with "s" it is n*1000 ms, because "ms" is tested first |
| `ResolverLemmas.ParseArgsOutcome` | src/main.rs:10-74 | checks run in order (usage, hosts, "-p", timeout), the first failure decides the error, and port tokens never cause one |
| `ResolverLemmas.ParseArgsValues` | src/main.rs:14-74 | on success: one address per host token, the resolved port list, and the timeout |
| `ResolverLemmas.PortArgumentNeverFails` | src/main.rs:31-50 | replacing the port argument changes nothing but the port list; errors stay the same |
| `ResolverLemmas.TrailingArgumentsIgnored` | src/main.rs:52-56 | arguments after the timeout value, or after a fifth argument that is not "-t", do not affect the result |
| `ResolverLemmas.DefaultTimeout` | src/main.rs:70-71 | without "-t" in fifth place the timeout is 2000 ms |
| `Probe.Row` | src/main.rs:79-80 | the attempts for one host: one per port, in port order |
| `Probe.TargetsAt` | src/main.rs:78-80 | exactly |ips|*|ports| attempts, and attempt i*|ports|+j goes to host i and port j (host-major, port-minor) |
| `Probe.TargetsLength` | src/main.rs:78-79 | the number of attempts is |ips|*|ports| |
| `Probe.Report` | src/main.rs:81-84 | one line per attempt, in attempt order: OPEN when the connection succeeds, CLOSED otherwise |
| `Probe.StatusLineRoundTrip` | src/main.rs:82-83 | each printed line determines its port and its status |
| `Probe.TcpConnect` | src/main.rs:77-87 | the attempts made are exactly the host-major, port-minor targets, \|ips\|*\|ports\| of them, and the lines are their OPEN/CLOSED reports |
| `Probe.Run` | src/main.rs:89-99 | on a parse error: no attempt and the single line "Error: <message>"; otherwise the probe of the resolved tuple |
| `Scenarios.PortListExample` | src/main.rs:31-50 | "443,80,8000-8002" shape: two ports, then the range, in order |
| `Scenarios.DuplicatesAndMalformed` | src/main.rs:31-50 | a repeated port is kept twice; a malformed token between them is skipped |
| `Scenarios.MillisecondsExample` | src/main.rs:57-61 | "500ms" is 500 ms |
| `Scenarios.SecondsExample` | src/main.rs:62-66 | "3s" is 3000 ms |
| `Scenarios.UnknownUnitExample` | src/main.rs:67-68 | "5x" is "Invalid timeout unit" |
| `Scenarios.UnitWithoutNumberExample` | src/main.rs:59-60 | "ms" is "Invalid timeout value" |
| `Scenarios.NonNumericSecondsExample` | src/main.rs:64-65 | "xs" is "Invalid timeout value" |
| `Scenarios.SingleHostExample` | src/main.rs:14-25 | a single IPv4 host such as "10.0.0.1" resolves to that one address |
| `Scenarios.InvalidHostExample` | src/main.rs:17-25 | a host like "999.999.999.999", if IPv6 rejects it too, fails the whole parse |
| `Scenarios.HostAndRangeExample` | src/main.rs:7-75 | "<ip> -p <lo>-<hi>" resolves to that host, the range and the 2 s default |
| `Scenarios.LocalListenerExample` | src/main.rs:7-87 | "spark 127.0.0.1 -p 1-3" resolves to that host, ports 1, 2, 3 and 2 s; with only port 2 listening the probe prints "[-] 1 is CLOSED", "[+] 2 is OPEN", "[-] 3 is CLOSED" |

## Left out

- `env::args()` (src/main.rs:8): the arguments are a parameter, program name first.
- `println!` (src/main.rs:82-83, 95): the printed lines are returned as a sequence of strings.
- `TcpStream::connect_timeout` (src/main.rs:81): a parameter `connect(target, timeoutMs)`
  decides each attempt. Real timing, deadlines and the causes of failure are not modelled.
  The oracle is a function, so a pair that is probed twice (a repeated port) gets the
  same outcome both times.
- The IPv6 text form of `IpAddr::from_str` (RFC 4291 section 2.2) is a parameter
  `ipv6: string -> Option<seq<nat>>`. Only the IPv4 dotted quad is modelled concretely.
- CIDR expansion: it is commented out in the source and has no behaviour.
- `Duration` is a natural number of milliseconds. Its seconds/nanoseconds representation
  is not modelled.
- Rust strings are UTF-8 bytes and Dafny strings are characters. Every suffix and
  separator the parser uses is ASCII, so byte slicing and character slicing agree here.
