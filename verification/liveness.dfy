/** Liveness Prober: the result rule of `ping`. Running the `ping` command
    is an oracle; this module sees only how the command ended. */
module Liveness {
  import opened Options
  import opened Text

  /** How one `ping` command ended: it exited with status 0 and printed
      `output`, or it exited non-zero (`CalledProcessError`). */
  datatype CommandOutcome = Completed(output: string) | Failed

  /** The reply marker either platform's `ping` prints. */
  predicate HasTtl(output: string)
  {
    Contains(output, "TTL=") || Contains(output, "ttl=")
  }

  predicate Responds(outcome: CommandOutcome)
  {
    outcome.Completed? && HasTtl(outcome.output)
  }

  /** `ping(ip)`: the address text when the command succeeded and printed a
      TTL marker; `None` when it printed none or failed. */
  function Ping(ip: string, outcome: CommandOutcome): (r: Option<string>)
    ensures r.Some? <==> Responds(outcome)
    ensures r.Some? ==> r.value == ip
    ensures outcome.Failed? ==> r == None
  {
    match outcome
    case Failed => None
    case Completed(output) =>
      if Contains(output, "TTL=") || Contains(output, "ttl=") then Some(ip) else None
  }

  /** A completed command counts as a reply exactly when `TTL=` or `ttl=`
      occurs somewhere in its output; no other spelling does. */
  lemma PingReplyIff(ip: string, output: string)
    ensures Ping(ip, Completed(output)) == Some(ip) <==>
      exists i: nat :: OccursAt(output, "TTL=", i) || OccursAt(output, "ttl=", i)
    ensures Ping(ip, Completed(output)) != Some(ip) ==> Ping(ip, Completed(output)) == None
  {
    ContainsIff(output, "TTL=");
    ContainsIff(output, "ttl=");
  }
}
