/** IPv4 addresses and /24 networks, reduced to what the scanner relies on
    from Python's `ipaddress`: dotted-quad text and the host list of a /24. */
module Ipv4 {
  import opened Decimal
  import opened Seqs
  import opened Text

  type Octet = x: nat | x < 256

  datatype Address = Address(a: Octet, b: Octet, c: Octet, d: Octet)

  /** A /24 network, given by the three octets its members share. */
  datatype Network = Network(a: Octet, b: Octet, c: Octet)

  /** The address as a 32-bit number, for ordering. */
  function Value(addr: Address): int
  {
    ((addr.a * 256 + addr.b) * 256 + addr.c) * 256 + addr.d
  }

  /** `str(ip)`: dotted decimal. */
  function Format(addr: Address): (s: string)
    ensures |s| >= 7
  {
    NatToString(addr.a) + "." + NatToString(addr.b) + "." +
    NatToString(addr.c) + "." + NatToString(addr.d)
  }

  function NetworkOf(addr: Address): Network
  {
    Network(addr.a, addr.b, addr.c)
  }

  /** The network's CIDR text, `a.b.c.0/24`. */
  function Cidr(net: Network): string
  {
    Format(Address(net.a, net.b, net.c, 0)) + "/24"
  }

  lemma CidrText(net: Network)
    ensures Cidr(net) == NatToString(net.a) + "." + NatToString(net.b) + "." + NatToString(net.c) + ".0/24"
  {
  }

  /** `ip_network(...).hosts()` for a /24: the 254 addresses that are
      neither the network address (`.0`) nor the broadcast address (`.255`),
      in ascending order. */
  function Hosts(net: Network): (hosts: seq<Address>)
    ensures |hosts| == 254
    ensures forall i :: 0 <= i < 254 ==> NetworkOf(hosts[i]) == net
    ensures StrictlyIncreasing(hosts, Value)
  {
    seq(254, i requires 0 <= i < 254 => Address(net.a, net.b, net.c, i + 1))
  }

  /** The host list holds exactly the usable addresses of the network. */
  lemma HostsAreUsableAddresses(net: Network, addr: Address)
    ensures addr in Hosts(net) <==> NetworkOf(addr) == net && addr.d != 0 && addr.d != 255
  {
    if NetworkOf(addr) == net && addr.d != 0 && addr.d != 255 {
      assert Hosts(net)[addr.d - 1] == addr;
    }
  }

  /** A dotted quad splits into its four decimal fields. */
  lemma FormatFields(addr: Address)
    ensures Split(Format(addr), '.') ==
      [NatToString(addr.a), NatToString(addr.b), NatToString(addr.c), NatToString(addr.d)]
  {
    var parts := [NatToString(addr.a), NatToString(addr.b), NatToString(addr.c), NatToString(addr.d)];
    JoinFour(NatToString(addr.a), NatToString(addr.b), NatToString(addr.c), NatToString(addr.d), ".");
    forall i | 0 <= i < 4
      ensures '.' !in parts[i]
    {
      assert AllDigits(parts[i]);
    }
    SplitJoin(parts, '.');
  }
}
