/** `tcp_connect` and `main` of src/main.rs: one connection attempt per (host, port)
    pair, hosts outer and ports inner, each reported as an OPEN or CLOSED line. The
    network is a parameter: `connect(target, timeoutMs)` says whether
    `TcpStream::connect_timeout` succeeds. */
module Probe {
  import opened Wrappers
  import opened Numeric
  import opened Ip
  import opened Resolver

  datatype SocketAddr = SocketAddr(ip: IpAddr, port: nat)

  type Connector = (SocketAddr, nat) -> bool

  /** The attempts for one host: one per port, in port order. */
  function Row(ip: IpAddr, ports: seq<nat>): (r: seq<SocketAddr>)
    ensures |r| == |ports|
    ensures forall j :: 0 <= j < |ports| ==> r[j] == SocketAddr(ip, ports[j])
  {
    seq(|ports|, j requires 0 <= j < |ports| => SocketAddr(ip, ports[j]))
  }

  /** All attempts, host-major then port-minor. */
  function Targets(ips: seq<IpAddr>, ports: seq<nat>): seq<SocketAddr> {
    if |ips| == 0 then []
    else Targets(ips[..|ips| - 1], ports) + Row(ips[|ips| - 1], ports)
  }

  /** The line printed for one attempt. */
  function StatusLine(port: nat, open: bool): string {
    if open then "[+] " + Decimal(port) + " is OPEN"
    else "[-] " + Decimal(port) + " is CLOSED"
  }

  /** The lines for a sequence of attempts, one per attempt and in the same order. */
  function Report(attempts: seq<SocketAddr>, timeoutMs: nat, connect: Connector): (lines: seq<string>)
    ensures |lines| == |attempts|
    ensures forall k :: 0 <= k < |attempts| ==>
      lines[k] == StatusLine(attempts[k].port, connect(attempts[k], timeoutMs))
  {
    seq(|attempts|, k requires 0 <= k < |attempts| =>
      StatusLine(attempts[k].port, connect(attempts[k], timeoutMs)))
  }

  /** There are exactly |ips| * |ports| attempts, and attempt i * |ports| + j goes
      to host i and port j. */
  lemma {:induction false} TargetsAt(ips: seq<IpAddr>, ports: seq<nat>, i: nat, j: nat)
    requires i < |ips| && j < |ports|
    ensures |Targets(ips, ports)| == |ips| * |ports|
    ensures i * |ports| + j < |ips| * |ports|
    ensures Targets(ips, ports)[i * |ports| + j] == SocketAddr(ips[i], ports[j])
  {
    var n := |ports|;
    var init := ips[..|ips| - 1];
    TargetsLength(init, ports);
    assert |ips| * n == |init| * n + n;
    if i < |init| {
      TargetsAt(init, ports, i, j);
      assert init[i] == ips[i];
    } else {
      assert i * n == |init| * n;
    }
  }

  lemma {:induction false} TargetsLength(ips: seq<IpAddr>, ports: seq<nat>)
    ensures |Targets(ips, ports)| == |ips| * |ports|
  {
    if |ips| > 0 {
      TargetsLength(ips[..|ips| - 1], ports);
      assert |ips| * |ports| == (|ips| - 1) * |ports| + |ports|;
    }
  }

  /** Reads a status line back: the port and whether it was open. */
  function ReadStatusLine(line: string): Option<(nat, bool)> {
    if |line| >= 12 && line[..4] == "[+] " && line[|line| - 8..] == " is OPEN" then
      var port :- ParseUnsigned(line[4..|line| - 8], U16_MAX);
      Some((port, true))
    else if |line| >= 14 && line[..4] == "[-] " && line[|line| - 10..] == " is CLOSED" then
      var port :- ParseUnsigned(line[4..|line| - 10], U16_MAX);
      Some((port, false))
    else None
  }

  /** Each line names its port and its status unambiguously. */
  lemma StatusLineRoundTrip(port: nat, open: bool)
    requires port <= U16_MAX
    ensures ReadStatusLine(StatusLine(port, open)) == Some((port, open))
  {
    ParseDecimal(port, U16_MAX);
    var line := StatusLine(port, open);
    var d := Decimal(port);
    if open {
      assert line[..4] == "[+] ";
      assert line[|line| - 8..] == " is OPEN";
      assert line[4..|line| - 8] == d;
    } else {
      assert line[..4] == "[-] ";
      assert line[|line| - 10..] == " is CLOSED";
      assert line[4..|line| - 10] == d;
      assert line[..4] != "[+] " by {
        assert line[1] == '-';
      }
    }
  }

  /** `tcp_connect`: the nested loops. Returns the attempts made, in order, and the
      lines printed. */
  method TcpConnect(ips: seq<IpAddr>, ports: seq<nat>, timeoutMs: nat, connect: Connector)
    returns (attempts: seq<SocketAddr>, lines: seq<string>)
    ensures attempts == Targets(ips, ports)
    ensures |attempts| == |ips| * |ports|
    ensures lines == Report(attempts, timeoutMs, connect)
  {
    attempts, lines := [], [];
    for i := 0 to |ips|
      invariant attempts == Targets(ips[..i], ports)
      invariant lines == Report(attempts, timeoutMs, connect)
    {
      var ip := ips[i];
      for j := 0 to |ports|
        invariant attempts == Targets(ips[..i], ports) + Row(ip, ports[..j])
        invariant lines == Report(attempts, timeoutMs, connect)
      {
        var target := SocketAddr(ip, ports[j]);
        var open := connect(target, timeoutMs);
        attempts := attempts + [target];
        lines := lines + [StatusLine(ports[j], open)];
      }
      assert ports[..|ports|] == ports;
      assert ips[..i + 1][..i] == ips[..i];
    }
    assert ips[..|ips|] == ips;
    TargetsLength(ips, ports);
  }

  /** `main`: parse the arguments; on an error print it and probe nothing, otherwise
      probe every target. */
  method Run(args: seq<string>, ipv6: Ipv6Parser, connect: Connector)
    returns (attempts: seq<SocketAddr>, output: seq<string>)
    ensures ParseArgs(args, ipv6).Err? ==>
      attempts == [] && output == ["Error: " + ParseArgs(args, ipv6).error.Message()]
    ensures ParseArgs(args, ipv6).Ok? ==>
      var res := ParseArgs(args, ipv6).value;
      attempts == Targets(res.ips, res.ports) && output == Report(attempts, res.timeoutMs, connect)
  {
    match ParseArgs(args, ipv6)
    case Ok(res) =>
      attempts, output := TcpConnect(res.ips, res.ports, res.timeoutMs, connect);
    case Err(err) =>
      attempts, output := [], ["Error: " + err.Message()];
  }
}
