/** Port Prober and Port Set: the default port list, the optional custom
    port appended at startup, and `check_ports`. */
module Ports {
  import opened Options
  import opened Seqs

  /** Python's `int`: the custom port is not range-checked. */
  type Port = int

  /** `PORTS_TO_CHECK` as the program starts. */
  const DefaultPorts: seq<Port> := [22, 80, 443, 8080, 3306]

  /** The `__main__` step: a custom port, when given, goes at the end of the
      list; with no input the list is unchanged. */
  function ExtendPorts(ports: seq<Port>, custom: Option<Port>): (r: seq<Port>)
    ensures custom.None? ==> r == ports
    ensures custom.Some? ==> |r| == |ports| + 1 && r[..|ports|] == ports && r[|ports|] == custom.value
  {
    match custom
    case None => ports
    case Some(p) => ports + [p]
  }

  /** `check_ports(ip)`: the ports whose connect attempt succeeded, in port
      list order; `connect` is the oracle for one TCP connect attempt. Every
      port reported accepted a connection. */
  function CheckPorts(ip: string, ports: seq<Port>, connect: (string, Port) -> bool): (open: seq<Port>)
    ensures |open| <= |ports|
    ensures forall i :: 0 <= i < |open| ==> connect(ip, open[i])
  {
    Filter(ports, p => connect(ip, p))
  }

  /** The open ports are exactly the listed ports that accepted: none is
      missed and none outside the list appears. */
  lemma CheckPortsExactly(ip: string, ports: seq<Port>, connect: (string, Port) -> bool)
    ensures forall p :: p in CheckPorts(ip, ports, connect) <==> p in ports && connect(ip, p)
  {
    FilterMembers(ports, p => connect(ip, p));
  }

  /** No port is reported exactly when no listed port accepted. */
  lemma NothingOpenIff(ip: string, ports: seq<Port>, connect: (string, Port) -> bool)
    ensures CheckPorts(ip, ports, connect) == [] <==> forall j :: 0 <= j < |ports| ==> !connect(ip, ports[j])
  {
    var open := CheckPorts(ip, ports, connect);
    CheckPortsExactly(ip, ports, connect);
    if open == [] {
      forall j | 0 <= j < |ports|
        ensures !connect(ip, ports[j])
      {
        FilterKeepsAccepted(ports, p => connect(ip, p), j);
      }
    } else {
      assert open[0] in open;
      var j :| 0 <= j < |ports| && ports[j] == open[0];
    }
  }

  /** An accepting port comes back as often as it is listed (twice for a
      custom port that repeats a default one), a refusing port never. */
  lemma CheckPortsCount(ip: string, ports: seq<Port>, connect: (string, Port) -> bool, p: Port)
    ensures multiset(CheckPorts(ip, ports, connect))[p] == if connect(ip, p) then multiset(ports)[p] else 0
  {
    FilterCount(ports, q => connect(ip, q), p);
  }

  /** The open ports come in port-list order: a subsequence of the list. */
  lemma CheckPortsInListOrder(ip: string, ports: seq<Port>, connect: (string, Port) -> bool)
    ensures IsSubsequence(CheckPorts(ip, ports, connect), ports)
  {
    FilterIsSubsequence(ports, p => connect(ip, p));
  }

  /** The custom port is probed after every default port, so its result
      comes last. */
  lemma CustomPortProbedLast(ip: string, ports: seq<Port>, p: Port, connect: (string, Port) -> bool)
    ensures CheckPorts(ip, ExtendPorts(ports, Some(p)), connect) ==
      CheckPorts(ip, ports, connect) + (if connect(ip, p) then [p] else [])
  {
  }

  /** Probing one more port of the list adds at most that port, at the end. */
  lemma CheckPortsStep(ip: string, ports: seq<Port>, k: nat, connect: (string, Port) -> bool)
    requires k < |ports|
    ensures CheckPorts(ip, ports[..k + 1], connect) ==
      CheckPorts(ip, ports[..k], connect) + (if connect(ip, ports[k]) then [ports[k]] else [])
  {
    assert ports[..k + 1] == ExtendPorts(ports[..k], Some(ports[k]));
    CustomPortProbedLast(ip, ports[..k], ports[k], connect);
  }

  /** The list is not kept sorted, and a port already present is not
      dropped: a custom 25 lands after 3306, a custom 80 appears twice. */
  lemma ExtendKeepsInsertionOrder()
    ensures ExtendPorts(DefaultPorts, Some(25)) == [22, 80, 443, 8080, 3306, 25]
    ensures ExtendPorts(DefaultPorts, Some(80))[1] == ExtendPorts(DefaultPorts, Some(80))[5] == 80
  {
  }
}
