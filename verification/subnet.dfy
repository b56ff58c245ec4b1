/** Local Subnet Resolver: the string step of `get_local_network`, which
    turns the machine's IPv4 address into the CIDR text of its /24. */
module Subnet {
  import opened Options
  import opened Text
  import opened Ipv4

  /** The first three dot-separated fields of `ip` followed by `.0/24`.
      With fewer than three fields (fewer than two dots) the source's
      indexing raises `IndexError`; that is `None` here. */
  function LocalNetwork(ip: string): (cidr: Option<string>)
    ensures cidr.Some? <==> multiset(ip)['.'] >= 2
    ensures cidr.Some? ==> |cidr.value| >= 5 && cidr.value[|cidr.value| - 5..] == ".0/24"
  {
    var fields := Split(ip, '.');
    SplitCount(ip, '.');
    if |fields| < 3 then None
    else Some(fields[0] + "." + fields[1] + "." + fields[2] + ".0/24")
  }

  /** The network text's fields are the address's first three fields and
      then `0/24`: prefix length 24, last octet zero. */
  lemma NetworkFields(ip: string)
    requires LocalNetwork(ip).Some?
    ensures Split(LocalNetwork(ip).value, '.') == Split(ip, '.')[..3] + ["0/24"]
  {
    var f := Split(ip, '.');
    var parts := [f[0], f[1], f[2], "0/24"];
    assert f[..3] + ["0/24"] == parts;
    JoinFour(f[0], f[1], f[2], "0/24", ".");
    assert f[0] + "." + f[1] + "." + f[2] + "." + "0/24" == LocalNetwork(ip).value;
    assert '.' !in "0/24";
    SplitJoin(parts, '.');
  }

  /** The text before `.0/24` is a prefix of the address text: the network
      keeps the address's first three octets as written. */
  lemma NetworkSharesPrefix(ip: string)
    requires LocalNetwork(ip).Some?
    ensures var cidr := LocalNetwork(ip).value; cidr[..|cidr| - 5] <= ip
  {
    var f := Split(ip, '.');
    var cidr := LocalNetwork(ip).value;
    var head := f[0] + "." + f[1] + "." + f[2];
    assert cidr == head + ".0/24";
    assert cidr[..|cidr| - 5] == head;
    JoinSplit(ip, '.');
    JoinStartsWithThree(f, ".");
  }

  /** For the text of an actual address the result is that address's /24. */
  lemma LocalNetworkOfAddress(addr: Address)
    ensures LocalNetwork(Format(addr)) == Some(Cidr(NetworkOf(addr)))
  {
    FormatFields(addr);
    NetworkOfFields(Format(addr), Split(Format(addr), '.'));
    CidrText(NetworkOf(addr));
  }

  lemma NetworkOfFields(ip: string, f: seq<string>)
    requires Split(ip, '.') == f && |f| >= 3
    ensures LocalNetwork(ip) == Some(f[0] + "." + f[1] + "." + f[2] + ".0/24")
  {
  }
}
