/** Result Aggregator: the rows `show_results` adds to its table, one per
    live address, with the open ports as text. Rendering the table is not
    modelled; the rows are its whole content. */
module Report {
  import opened Options
  import opened Seqs
  import opened Text
  import opened Decimal
  import opened Ports

  /** One table row: the "IP Address" and "Open Ports" cells. */
  datatype Row = Row(ip: string, openPorts: string)

  /** `", ".join(map(str, ports))`. */
  function JoinPorts(ports: seq<Port>): (s: string)
    ensures |ports| == 0 <==> s == ""
    ensures |ports| > 0 ==> IntToString(ports[0]) <= s
  {
    var xs := Map(IntToString, ports);
    if |ports| > 0 then
      JoinStartsWith(xs, ", ");
      Join(xs, ", ")
    else Join(xs, ", ")
  }

  /** Reads a `", "`-separated list of integers back. */
  function ParsePortList(s: string): Option<seq<Port>>
    decreases |s|
  {
    var k := FirstIndex(s, ',');
    match ParseInt(s[..k])
    case None => None
    case Some(p) =>
      if k == |s| then Some([p])
      else if k + 1 < |s| && s[k + 1] == ' ' then
        match ParsePortList(s[k + 2..])
        case None => None
        case Some(rest) => Some([p] + rest)
      else None
  }

  /** Reads an "Open Ports" cell back into the ports it lists. */
  function ParseCell(cell: string): Option<seq<Port>>
  {
    if cell == "None" then Some([]) else ParsePortList(cell)
  }

  /** The "Open Ports" cell: the joined ports, or `None` when there are
      none. The cell determines the port list exactly, and reads `None`
      only when no port is open. */
  function PortCell(open: seq<Port>): (cell: string)
    ensures ParseCell(cell) == Some(open)
    ensures cell == "None" <==> |open| == 0
  {
    if |open| > 0 then
      JoinPortsRoundTrip(open);
      JoinPortsStart(open);
      JoinPorts(open)
    else "None"
  }

  /** A rendered integer holds no comma. */
  lemma NoCommaInInt(p: Port)
    ensures ',' !in IntToString(p)
  {
  }

  /** A joined list begins with the first port's text, which is not `N`. */
  lemma JoinPortsStart(ports: seq<Port>)
    requires |ports| > 0
    ensures |JoinPorts(ports)| > 0 && JoinPorts(ports)[0] != 'N'
  {
  }

  /** A list of two or more ports is the first port's text, the separator,
      and the rest. */
  lemma JoinPortsCons(ports: seq<Port>)
    requires |ports| > 1
    ensures JoinPorts(ports) == IntToString(ports[0]) + ", " + JoinPorts(ports[1..])
  {
    var xs := Map(IntToString, ports);
    assert xs[1..] == Map(IntToString, ports[1..]);
  }

  /** Reading a comma-free integer with nothing after it. */
  lemma ParseLast(x: string, p: Port)
    requires ',' !in x && ParseInt(x) == Some(p)
    ensures ParsePortList(x) == Some([p])
  {
    FirstIndexAbsent(x, ',');
    assert x[..|x|] == x;
  }

  /** Reading a comma-free integer followed by the separator reads the rest
      after it. */
  lemma ParseCons(x: string, p: Port, tail: string)
    requires ',' !in x && ParseInt(x) == Some(p)
    ensures ParsePortList(x + ", " + tail) ==
      match ParsePortList(tail)
      case None => None
      case Some(rest) => Some([p] + rest)
  {
    var s := x + [','] + (" " + tail);
    assert x + ", " + tail == s;
    FirstIndexAfter(x, ',', " " + tail);
    assert s[..|x|] == x;
    assert s[|x| + 2..] == tail;
  }

  lemma {:induction false} JoinPortsRoundTrip(ports: seq<Port>)
    requires |ports| > 0
    ensures ParsePortList(JoinPorts(ports)) == Some(ports)
  {
    var x := IntToString(ports[0]);
    NoCommaInInt(ports[0]);
    IntToStringRoundTrip(ports[0]);
    if |ports| == 1 {
      assert Map(IntToString, ports) == [x];
      ParseLast(x, ports[0]);
      assert ports == [ports[0]];
    } else {
      JoinPortsCons(ports);
      ParseCons(x, ports[0], JoinPorts(ports[1..]));
      JoinPortsRoundTrip(ports[1..]);
      assert ports == [ports[0]] + ports[1..];
    }
  }

  /** Only a joined list reads back as a list: any text `ParsePortList`
      accepts is the `", "`-join of the decimal renderings of what it reads. */
  lemma ParsePortListOnlyJoin(s: string, ports: seq<Port>)
    requires ParsePortList(s) == Some(ports)
    ensures |ports| > 0 && s == JoinPorts(ports)
    decreases |s|
  {
    var k := FirstIndex(s, ',');
    var p := ParseInt(s[..k]).value;
    ParseIntOnlyRendering(s[..k], p);
    if k == |s| {
      assert s[..k] == s;
      JoinPortsSingle(p);
    } else {
      var rest := ParsePortList(s[k + 2..]).value;
      ParsePortListOnlyJoin(s[k + 2..], rest);
      JoinPortsCons([p] + rest);
      assert ([p] + rest)[1..] == rest;
      SeparatorAt(s, k);
    }
  }

  lemma JoinPortsSingle(p: Port)
    ensures JoinPorts([p]) == IntToString(p)
  {
  }

  lemma SeparatorAt(s: string, k: nat)
    requires k + 1 < |s| && s[k] == ',' && s[k + 1] == ' '
    ensures s == s[..k] + ", " + s[k + 2..]
  {
  }

  /** A cell text reads back as `open` exactly when it is the cell
      `show_results` writes for `open`: the reading pins the text down. */
  lemma CellDeterminesText(cell: string, open: seq<Port>)
    ensures ParseCell(cell) == Some(open) <==> cell == PortCell(open)
  {
    if ParseCell(cell) == Some(open) && cell != "None" {
      ParsePortListOnlyJoin(cell, open);
    }
  }

  /** `show_results`'s loop: one row per address, in input order; each row's
      port cell lists exactly the ports `check_ports` found open, and reads
      `None` exactly when none of the probed ports accepted. */
  function ShowResults(ips: seq<string>, ports: seq<Port>, connect: (string, Port) -> bool): (rows: seq<Row>)
    ensures |rows| == |ips|
    ensures forall i :: 0 <= i < |rows| ==>
      rows[i].ip == ips[i] && ParseCell(rows[i].openPorts) == Some(CheckPorts(ips[i], ports, connect))
    ensures forall i :: 0 <= i < |rows| ==>
      (rows[i].openPorts == "None" <==> forall j :: 0 <= j < |ports| ==> !connect(ips[i], ports[j]))
  {
    var rows := Map(ip => Row(ip, PortCell(CheckPorts(ip, ports, connect))), ips);
    assert forall i :: 0 <= i < |rows| ==>
      (rows[i].openPorts == "None" <==> forall j :: 0 <= j < |ports| ==> !connect(ips[i], ports[j])) by {
      forall i | 0 <= i < |rows|
        ensures rows[i].openPorts == "None" <==> forall j :: 0 <= j < |ports| ==> !connect(ips[i], ports[j])
      {
        NothingOpenIff(ips[i], ports, connect);
      }
    }
    rows
  }

  /** The rows for two addresses. */
  lemma ShowResultsPair(a: string, b: string, ports: seq<Port>, connect: (string, Port) -> bool)
    ensures ShowResults([a, b], ports, connect) ==
      [Row(a, PortCell(CheckPorts(a, ports, connect))), Row(b, PortCell(CheckPorts(b, ports, connect)))]
  {
  }
}
