/** The whole run of the scanner's `__main__` block: extend the port list,
    sweep the local /24, and build one table row per live host. */
module Scanner {
  import opened Options
  import opened Seqs
  import opened Text
  import opened Decimal
  import opened Ipv4
  import opened Liveness
  import opened Sweep
  import opened Ports
  import opened Report

  /** One run from the local address: `local` stands for the resolved
      address (`gethostbyname(gethostname())`), `custom` for the parsed
      port input, `run` and `connect` for the network. Its rows are the
      live hosts of the local /24 in ascending order, each with exactly the
      ports of the extended list that accepted a connection. */
  function Run(local: Address, custom: Option<Port>, run: Address -> CommandOutcome,
               connect: (string, Port) -> bool): (rows: seq<Row>)
    ensures var live := LiveHosts(NetworkOf(local), run);
      && |rows| == |live|
      && forall i :: 0 <= i < |rows| ==>
           && rows[i].ip == Format(live[i])
           && ParseCell(rows[i].openPorts) == Some(CheckPorts(rows[i].ip, ExtendPorts(DefaultPorts, custom), connect))
  {
    var ports := ExtendPorts(DefaultPorts, custom);
    var ips := ScanNetwork(NetworkOf(local), run);
    ShowResults(ips, ports, connect)
  }

  /** Scenario oracles: on 192.168.1.0/24 only `.1` and `.50` answer the
      ping, and only `.1` accepts connections, on ports 80 and 443. */
  function TwoHostsRun(h: Address): CommandOutcome
  {
    if h.d == 1 || h.d == 50 then Completed("ttl=64") else Failed
  }

  function TwoHostsConnect(ip: string, p: Port): bool
  {
    ip == "192.168.1.1" && (p == 80 || p == 443)
  }

  /** Of the 254 hosts, only the first and the fiftieth reply. */
  lemma TwoHostsReplies(net: Network)
    requires net == Network(192, 168, 1)
    ensures forall i :: 0 <= i < 254 ==> (Replies(TwoHostsRun)(Hosts(net)[i]) <==> i == 0 || i == 49)
  {
    assert Responds(Completed("ttl=64"));
    forall i | 0 <= i < 254
      ensures Replies(TwoHostsRun)(Hosts(net)[i]) <==> i == 0 || i == 49
    {
      var h := Hosts(net)[i];
      assert h.d == i + 1;
      assert Replies(TwoHostsRun)(h) == Responds(TwoHostsRun(h));
    }
  }

  lemma TwoHostsLive(net: Network)
    requires net == Network(192, 168, 1)
    ensures LiveHosts(net, TwoHostsRun) == [Address(192, 168, 1, 1), Address(192, 168, 1, 50)]
  {
    var hosts, keep := Hosts(net), Replies(TwoHostsRun);
    TwoHostsReplies(net);
    assert hosts[..0] == [];
    FilterStep(hosts, keep, 0);
    FilterSkipsRejected(hosts, keep, 1, 49);
    FilterStep(hosts, keep, 49);
    FilterSkipsRejected(hosts, keep, 50, 254);
    assert hosts[..254] == hosts;
  }

  lemma TwoHostsAddresses()
    ensures Format(Address(192, 168, 1, 1)) == "192.168.1.1"
    ensures Format(Address(192, 168, 1, 50)) == "192.168.1.50"
  {
  }

  lemma TwoHostsScan(net: Network)
    requires net == Network(192, 168, 1)
    ensures ScanNetwork(net, TwoHostsRun) == ["192.168.1.1", "192.168.1.50"]
  {
    var a, b := Address(192, 168, 1, 1), Address(192, 168, 1, 50);
    TwoHostsLive(net);
    assert Map(Format, [a, b]) == [Format(a), Format(b)];
    TwoHostsAddresses();
  }

  lemma TwoHostsCells()
    ensures PortCell([80, 443]) == "80, 443"
    ensures PortCell([]) == "None"
  {
    assert IntToString(80) == "80" && IntToString(443) == "443";
    var xs := Map(IntToString, [80, 443]);
    assert xs == ["80", "443"];
    assert xs[1..] == ["443"];
    assert Join(xs, ", ") == "80" + ", " + Join(["443"], ", ");
  }

  lemma TwoHostsRows(ips: seq<string>)
    requires ips == ["192.168.1.1", "192.168.1.50"]
    ensures ShowResults(ips, DefaultPorts, TwoHostsConnect) ==
      [Row("192.168.1.1", "80, 443"), Row("192.168.1.50", "None")]
  {
    assert ips[1] != "192.168.1.1" by {
      assert ips[1][10] != "192.168.1.1"[10];
    }
    ShowResultsPair(ips[0], ips[1], DefaultPorts, TwoHostsConnect);
    TwoHostsPorts(ips[0], DefaultPorts);
    TwoHostsPorts(ips[1], DefaultPorts);
    TwoHostsCells();
  }

  /** The two-host scenario: `.1` listed with "80, 443", `.50` listed with
      "None" rather than left out, in that order. */
  lemma TwoHostsReport(local: Address)
    requires NetworkOf(local) == Network(192, 168, 1)
    ensures Run(local, None, TwoHostsRun, TwoHostsConnect) ==
      [Row("192.168.1.1", "80, 443"), Row("192.168.1.50", "None")]
  {
    TwoHostsScan(NetworkOf(local));
    TwoHostsRows(ScanNetwork(NetworkOf(local), TwoHostsRun));
  }

  /** `.1` has 80 and 443 open, every other address nothing. */
  lemma TwoHostsPorts(ip: string, ports: seq<Port>)
    requires ports == DefaultPorts
    ensures CheckPorts(ip, ports, TwoHostsConnect) == (if ip == "192.168.1.1" then [80, 443] else [])
  {
    if ip == "192.168.1.1" {
      assert ports[..0] == [];
      CheckPortsStep(ip, ports, 0, TwoHostsConnect);
      CheckPortsStep(ip, ports, 1, TwoHostsConnect);
      CheckPortsStep(ip, ports, 2, TwoHostsConnect);
      CheckPortsStep(ip, ports, 3, TwoHostsConnect);
      CheckPortsStep(ip, ports, 4, TwoHostsConnect);
      assert ports[..5] == ports;
    } else {
      var none := CheckPorts(ip, ports, TwoHostsConnect);
      assert |none| > 0 ==> TwoHostsConnect(ip, none[0]);
    }
  }

  /** The report has no rows (an empty table, not an error) exactly when no
      usable address of the local /24 reports a reply, whether its command
      failed or completed without a TTL marker. */
  lemma NoHostReport(local: Address, custom: Option<Port>, run: Address -> CommandOutcome,
                     connect: (string, Port) -> bool)
    ensures Run(local, custom, run, connect) == [] <==>
      forall h :: NetworkOf(h) == NetworkOf(local) && h.d != 0 && h.d != 255 ==> !Responds(run(h))
  {
    NoReplyNoHosts(NetworkOf(local), run);
  }
}
