/**
 What the connection table and the fragment table store in a slot, when an entry has
 expired, and what a second insert of the same hash does to the entry that is there.
 */
module Entries {
  import opened Common

  datatype FlowProto = Tcp | Udp | Other
  datatype TcpFlowState = NotTcp | Handshake | Established | Closing

  /** The backend, the time stamp expiry is measured from (`last_seen` of a flow,
      `inserted_at` of a fragment) and, for a flow, its protocol and TCP state. */
  datatype Record = Record(ip: Ip, stamp: int, proto: FlowProto, state: TcpFlowState)

  /** Times and durations are integers in one unit, say nanoseconds. */
  datatype ConnTtls = ConnTtls(handshake: nat, established: nat, closing: nat, udp: nat, other: nat)

  /** Which table a slot array belongs to, and the time of the call. */
  datatype Policy = Flows(ttls: ConnTtls, now: int) | Fragments(ttl: nat, now: int)

  function TtlFor(ttls: ConnTtls, proto: FlowProto, state: TcpFlowState): nat {
    match (proto, state)
    case (Tcp, Handshake) => ttls.handshake
    case (Tcp, Closing) => ttls.closing
    case (Tcp, _) => ttls.established
    case (Udp, _) => ttls.udp
    case (Other, _) => ttls.other
  }

  function Ttl(p: Policy, r: Record): nat {
    match p
    case Flows(ttls, _) => TtlFor(ttls, r.proto, r.state)
    case Fragments(ttl, _) => ttl
  }

  /** `Instant::duration_since` saturates at zero, so a stamp in the future never
      counts as expired; the plain difference says the same. */
  predicate Expired(p: Policy, r: Record) {
    p.now - r.stamp > Ttl(p, r)
  }

  function PromoteState(existing: TcpFlowState, incoming: TcpFlowState): (r: TcpFlowState)
    ensures StateRank(r) >= StateRank(existing) && StateRank(r) >= StateRank(incoming)
    ensures r in {existing, incoming}
  {
    if existing.Closing? || incoming.Closing? then Closing
    else if existing.Established? || incoming.Established? then Established
    else if existing.NotTcp? || incoming.NotTcp? then NotTcp
    else Handshake
  }

  /** The order in which a stored flow may only climb. */
  function StateRank(s: TcpFlowState): nat {
    match s
    case Handshake => 0
    case NotTcp => 1
    case Established => 2
    case Closing => 3
  }

  function Merge(p: Policy, existing: Record, incoming: Record): (r: Record)
    ensures r.ip == incoming.ip && r.stamp == incoming.stamp
  {
    match p
    case Flows(_, _) => incoming.(state := PromoteState(existing.state, incoming.state))
    case Fragments(_, _) => incoming
  }
}
