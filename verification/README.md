# Local network scanner, modelled in Dafny

The program is a one-file command-line scanner (`main.py`). It takes the
machine's IPv4 address and turns it into the CIDR text of its /24. It pings
each of the 254 usable hosts of that /24 and keeps the hosts that answer. For
each answering host it tries a TCP connection to every port of a fixed list,
plus an optional custom port the user types in. It reports one table row per
host: the host's address and its open ports, or `None`.

The model keeps that pipeline and drops the operating system:

- `Subnet`: the address text becomes the network text (`get_local_network`).
- `Liveness`: what one `ping` command's outcome means.
- `Sweep`: the host sweep (`scan_network`). Pinging is an oracle
  `run: Address -> CommandOutcome`.
- `Ports`: the port list and `check_ports`. A TCP connect attempt is an oracle
  `connect: (string, Port) -> bool`.
- `Report`: the rows `show_results` builds.
- `Scanner`: the `__main__` sequence of those steps, plus one worked scenario.

Supporting modules:

- `Ipv4`: dotted quads and the host list of a /24.
- `Text`: Python's `str.split`, `str.join` and `in` on strings.
- `Decimal`: `str(int)` and its inverse.
- `Seqs`: the order-preserving filter that each "append if accepted" loop
  computes.
- `Options`: the optional values.

An "Open Ports" cell is judged by a parser written for the purpose,
`ParseCell`. The parser accepts integers only in the form `str` writes them:
no leading zeros, and no `-0`. Every cell reads back as exactly the list of
open ports. A cell reads `None` only when no port accepted. No other text reads
back as the same list, so the reading fixes the cell's exact text.

Four behaviours of the code that a reader might not expect are modelled as
the code has them:

- A custom port that is already in the list is appended again
  (main.py:80). It is probed twice, and it is listed twice when both attempts
  succeed (`ExtendKeepsInsertionOrder`, `CheckPortsCount`).
- The sweep never sorts (main.py:55). It relies on the pool's `map`
  returning results in input order, and the hosts come out in ascending
  order anyway (`LiveHostsAscending`).
- `int()` on non-numeric custom-port text raises a `ValueError` that nothing
  catches (main.py:80). The model takes the parsed port, so that path is
  outside it.
- No port range is checked, so `Port` is an unbounded integer here.

## Model

| member | source | states |
|---|---|---|
| Subnet.LocalNetwork | main.py:23-24 | A network text exists exactly when the address text has at least two dots; otherwise the indexing fails (None). When it exists, it ends in `.0/24`. |
| Subnet.NetworkFields | main.py:23-24 | Splitting the network text on dots gives the address's first three fields, then `0/24`. |
| Subnet.NetworkSharesPrefix | main.py:23-24 | The network text without `.0/24` is a prefix of the address text. |
| Subnet.LocalNetworkOfAddress | main.py:22-24 | For the dotted-quad text of any address, the result is the CIDR text of that address's /24. |
| Text.Split | main.py:23 | `str.split` on one character gives at least one field, and no field contains the separator. |
| Text.SplitCount | main.py:23 | Splitting on a character gives one more field than the number of times the character occurs. |
| Text.JoinSplit | main.py:23 | Joining the split fields with the separator gives back the original text. |
| Text.SplitJoin | main.py:23 | Splitting a join of separator-free fields gives back the fields. |
| Ipv4.Format | main.py:32 | `str(ip)` is at least seven characters long. `FormatFields` shows that it splits into its four decimal fields. |
| Ipv4.FormatFields | main.py:22-23 | A dotted quad splits into exactly its four decimal fields. |
| Ipv4.Hosts | main.py:55 | There are 254 hosts. All of them lie in the network, and they come in strictly ascending address order. |
| Ipv4.HostsAreUsableAddresses | main.py:55 | An address is a host exactly when it lies in the network and is neither the `.0` nor the `.255` address. |
| Text.Contains | main.py:31 | A match needs the text to be at least as long as the pattern, and the empty pattern always matches. `ContainsIff` gives its full meaning. |
| Text.ContainsIff | main.py:31 | `pat in s` holds exactly when `pat` occurs in `s` at some position. |
| Liveness.Ping | main.py:30-34 | A result exists exactly when the command completed and printed a TTL marker. The result is the address text itself. A failed command gives None. |
| Liveness.PingReplyIff | main.py:31-32 | A completed command counts as a reply exactly when `TTL=` or `ttl=` occurs in its output. Otherwise the result is None. |
| Sweep.LiveHosts | main.py:55-57 | The kept hosts number at most 254, and each one replied. |
| Sweep.LiveHostsExactly | main.py:55-57 | A host is kept exactly when it lies in the network, is not `.0` or `.255`, and replied. |
| Sweep.LiveHostsAscending | main.py:55-57 | The kept hosts are a subsequence of the host list and strictly ascend by address. |
| Sweep.CollectPings | main.py:55-57 | Collecting the truthy results of the in-order ping map gives the texts of the hosts that replied, in host order. |
| Sweep.ScanNetwork | main.py:54-58 | The sweep returns the texts of the live hosts in ascending order, at most 254 of them. |
| Sweep.PingAll | main.py:55 | There is one result per host. `PingAllResults` and `CollectPings` give their meaning. |
| Sweep.PingAllResults | main.py:55 | The result at each host's position exists exactly when that host's ping reported a reply, and it is that host's dotted-quad text. |
| Sweep.Collect | main.py:56-57 | The loop keeps at most as many texts as there were results. `CollectPings` gives its full meaning. |
| Sweep.NoReplyNoHosts | main.py:54-58 | The sweep returns nothing exactly when no usable address of the network replies. Replies from addresses outside the network play no part. |
| Sweep.SweepDependsOnlyOnReplies | main.py:54-55 | Two runs that agree on which hosts of the network reply return the same list. |
| Ports.ExtendPorts | main.py:79-80 | With no custom port the list is unchanged. Otherwise the list keeps its order, grows by one, and the custom port comes last. |
| Ports.ExtendKeepsInsertionOrder | main.py:79-80 | Starting from the default list of main.py:17 (22, 80, 443, 8080, 3306), a custom 25 lands after 3306. A custom 80 makes 80 appear twice. |
| Ports.CheckPorts | main.py:38-46 | No more ports come back than were listed, and every port returned accepted a connection. |
| Ports.CheckPortsExactly | main.py:38-46 | A port is returned exactly when it is listed and accepted a connection. |
| Ports.NothingOpenIff | main.py:38-46 | The result is empty exactly when no listed port accepted a connection. |
| Ports.CheckPortsCount | main.py:39-42 | An accepting port comes back as many times as it is listed, and a refusing port never comes back. |
| Ports.CheckPortsInListOrder | main.py:39-42 | Open ports come back in port-list order, as a subsequence of the list. |
| Decimal.NatToString | main.py:69 | `str` of a non-negative integer is at least one decimal digit, with no leading zero for a positive value. |
| Decimal.NatToStringValue | main.py:69 | The digits of `str(n)` denote `n`. |
| Decimal.IntToString | main.py:69 | The text is decimal digits, with a leading `-` only for a negative value. It has no leading zero: a positive value starts with a non-zero digit, and a negative one has a non-zero digit right after the `-`. |
| Decimal.ParseIntOnlyRendering | main.py:69 | Any text the reader accepts is exactly the decimal rendering of the integer it reads, so each integer has one accepted text. |
| Decimal.IntToStringRoundTrip | main.py:69 | Reading back the decimal text of any integer gives that integer. |
| Report.JoinPorts | main.py:69 | The joined text is empty exactly when there are no ports. Otherwise it begins with the first port's decimal text. `JoinPortsRoundTrip` and `ParsePortListOnlyJoin` give its full meaning. |
| Report.JoinPortsRoundTrip | main.py:69 | Reading back a non-empty comma-joined port list gives exactly that list. |
| Report.JoinPortsStart | main.py:68-71 | A non-empty joined list is non-empty text that does not begin with `N`, so it cannot be mistaken for `None`. |
| Report.PortCell | main.py:68-71 | The cell reads back as exactly the open ports, and it is `None` exactly when no port is open. |
| Report.CellDeterminesText | main.py:68-71 | A text reads back as a port list exactly when it is the cell written for that list. |
| Report.ShowResults | main.py:66-71 | There is one row per address, in input order. Each row holds its address and a cell that reads back as exactly that address's open ports. A cell reads `None` exactly when no listed port accepted. |
| Scanner.Run | main.py:78-83 | There is one row per live host of the local /24, in ascending order. Each row lists exactly the ports of the extended list that accepted. |
| Scanner.NoHostReport | main.py:81-83 | There are no rows (an empty table, not an error) exactly when no usable address of the local /24 reports a reply. A failed command and a completed command without a TTL marker both count as no reply. |
| Scanner.TwoHostsLive | main.py:54-58 | On 192.168.1.0/24 with only `.1` and `.50` answering, the live hosts are `.1` then `.50`. |
| Scanner.TwoHostsScan | main.py:54-58 | The same scenario sweeps to `["192.168.1.1", "192.168.1.50"]`. |
| Scanner.TwoHostsPorts | main.py:38-46 | With only `.1` accepting on 80 and 443, `.1` has `[80, 443]` open and every other address has none. |
| Scanner.TwoHostsCells | main.py:68-71 | `[80, 443]` shows as `80, 443`, and no ports shows as `None`. |
| Scanner.TwoHostsRows | main.py:66-71 | The scenario's two addresses give the rows (`.1`, `80, 443`) and (`.50`, `None`). |
| Scanner.TwoHostsReport | main.py:81-83 | The whole run of the scenario, with no custom port, reports those two rows in that order. |

## Left out

- Choosing the `ping` command by operating system (main.py:13-14, 28): the command runs behind the `run` oracle. Only how it ended is modelled.
- Exceptions from `subprocess.check_output` other than `CalledProcessError`: `ping` catches only that one (main.py:33). Examples are `FileNotFoundError` or `PermissionError` when the binary cannot be started, and `UnicodeDecodeError` when the output cannot be decoded. Such an exception escapes `ping`, is re-raised by the `executor.map` iterator (main.py:55), and aborts the sweep. The oracle has no such outcome.
- `socket.gethostname` and `socket.gethostbyname`: `Run` takes the resolved address as a parameter. `LocalNetworkOfAddress` links that address to the CIDR text.
- `ipaddress.ip_network(cidr, strict=False)`: `ScanNetwork` takes the parsed /24 directly.
- TCP connections, the one-second timeouts and `sock.close`: these are behind the `connect` oracle, which is total. How a port outside 0..65535 behaves depends on the platform's address resolution, and it is not modelled. The resolution error may be caught and the port reported closed, the number may be silently truncated, or an uncaught `OverflowError` may be raised.
- `ThreadPoolExecutor` concurrency: it is modelled as a map whose results come back in input order. `SweepDependsOnlyOnReplies` states that two runs that agree on which hosts of the network reply give the same list.
- The `rich` console, the progress bar and the table rendering: only the rows added to the table are modelled.
- `input()` and `int()` for the custom port: the custom port arrives already parsed, as `Option<Port>`. The `ValueError` on non-numeric text is not modelled.
- Ports.CheckPorts: the function's own contract states only soundness and the length bound. Completeness, multiplicity and order are in `CheckPortsExactly`, `CheckPortsCount` and `CheckPortsInListOrder`. They are kept out of the function contract because of solver cost.
- Sweep.LiveHosts: the function's own contract states only that each kept host replied. Membership and order are in `LiveHostsExactly` and `LiveHostsAscending`.
- Scanner.Run: its contract does not restate the network-text step. `Subnet.LocalNetworkOfAddress` shows that the text built from the address is the CIDR text of the address's own /24, and this is the network `Run` sweeps. No CIDR parser is modelled.
- Repeated connect attempts: the `connect` oracle gives one answer per address and port. So the two probes of a duplicated custom port always agree, where in the program one may connect while the other times out. `CheckPortsCount`'s "as many times as listed" rests on this.
