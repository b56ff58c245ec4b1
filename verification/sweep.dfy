/** Liveness Sweeper: `scan_network`, which pings every host of the /24
    through a pool whose `map` hands results back in input order, and keeps
    the truthy ones. */
module Sweep {
  import opened Options
  import opened Seqs
  import opened Ipv4
  import opened Liveness

  /** `executor.map(ping, network.hosts())`: one ping result per host, in
      host order; `run` is the oracle for each host's `ping` command. */
  function PingAll(hosts: seq<Address>, run: Address -> CommandOutcome): (results: seq<Option<string>>)
    ensures |results| == |hosts|
  {
    Map(h => Ping(Format(h), run(h)), hosts)
  }

  /** Each host's ping result: present exactly when the host replied, and
      then the host's own address text. */
  lemma PingAllResults(hosts: seq<Address>, run: Address -> CommandOutcome, i: nat)
    requires i < |hosts|
    ensures PingAll(hosts, run)[i].Some? <==> Responds(run(hosts[i]))
    ensures PingAll(hosts, run)[i].Some? ==> PingAll(hosts, run)[i].value == Format(hosts[i])
  {
  }

  /** The collecting loop: append every result that is truthy, i.e. a
      non-empty string. */
  function Collect(results: seq<Option<string>>): (ips: seq<string>)
    ensures |ips| <= |results|
  {
    if |results| == 0 then []
    else
      var last := results[|results| - 1];
      Collect(results[..|results| - 1]) + (if last.Some? && last.value != "" then [last.value] else [])
  }

  /** `scan_network`: the address texts of the hosts that answered, which
      are exactly the texts of the live hosts in ascending address order. */
  function ScanNetwork(net: Network, run: Address -> CommandOutcome): (ips: seq<string>)
    ensures ips == Map(Format, LiveHosts(net, run))
    ensures |ips| <= 254
  {
    CollectPings(Hosts(net), run);
    Collect(PingAll(Hosts(net), run))
  }

  /** Whether a host's ping command reports a reply. */
  function Replies(run: Address -> CommandOutcome): Address -> bool
  {
    h => Responds(run(h))
  }

  /** Reference definition: the hosts of `net` whose ping command reports a
      reply, as addresses. */
  function LiveHosts(net: Network, run: Address -> CommandOutcome): (live: seq<Address>)
    ensures |live| <= 254
    ensures forall i :: 0 <= i < |live| ==> Responds(run(live[i]))
  {
    Filter(Hosts(net), Replies(run))
  }

  /** The live hosts keep the enumeration's ascending order: a subsequence
      of the host list, strictly increasing by address. */
  lemma LiveHostsAscending(net: Network, run: Address -> CommandOutcome)
    ensures IsSubsequence(LiveHosts(net, run), Hosts(net))
    ensures StrictlyIncreasing(LiveHosts(net, run), Value)
  {
    FilterIsSubsequence(Hosts(net), Replies(run));
    FilterKeepsOrder(Hosts(net), Replies(run), Value);
  }

  /** The live hosts are exactly the usable addresses of the network that
      replied; the network and broadcast addresses never appear. */
  lemma LiveHostsExactly(net: Network, run: Address -> CommandOutcome)
    ensures forall h :: h in LiveHosts(net, run) <==>
      NetworkOf(h) == net && h.d != 0 && h.d != 255 && Responds(run(h))
  {
    FilterMembers(Hosts(net), Replies(run));
    forall h
      ensures h in LiveHosts(net, run) <==> NetworkOf(h) == net && h.d != 0 && h.d != 255 && Responds(run(h))
    {
      HostsAreUsableAddresses(net, h);
    }
  }

  /** The sweep finds nothing exactly when no usable address of the
      network replies; addresses outside it play no part. */
  lemma NoReplyNoHosts(net: Network, run: Address -> CommandOutcome)
    ensures LiveHosts(net, run) == [] <==>
      forall h :: NetworkOf(h) == net && h.d != 0 && h.d != 255 ==> !Responds(run(h))
  {
    var live := LiveHosts(net, run);
    LiveHostsExactly(net, run);
    if live != [] {
      assert live[0] in live;
    }
  }

  /** The collecting loop over the mapped pings is the formatted filter of
      the hosts that replied. */
  lemma {:induction false} CollectPings(hosts: seq<Address>, run: Address -> CommandOutcome)
    ensures Collect(PingAll(hosts, run)) == Map(Format, Filter(hosts, Replies(run)))
  {
    if |hosts| > 0 {
      var init, last := hosts[..|hosts| - 1], hosts[|hosts| - 1];
      CollectPings(init, run);
      assert PingAll(hosts, run)[..|hosts| - 1] == PingAll(init, run);
      var f := Filter(init, Replies(run));
      if Responds(run(last)) {
        assert Map(Format, f + [last]) == Map(Format, f) + [Format(last)];
      }
    }
  }

  /** Two runs whose probes give the same replies on the network sweep to
      the same list, whatever they do elsewhere. */
  lemma SweepDependsOnlyOnReplies(net: Network, run1: Address -> CommandOutcome, run2: Address -> CommandOutcome)
    requires forall h :: NetworkOf(h) == net ==> (Responds(run1(h)) <==> Responds(run2(h)))
    ensures ScanNetwork(net, run1) == ScanNetwork(net, run2)
  {
    FilterCongruent(Hosts(net), Replies(run1), Replies(run2));
  }
}
