/** DNS messages: the parts of a message that the router reads or rewrites. */
module Dns {
  import opened GoArith

  const TYPE_A: nat := 1
  const TYPE_SOA: nat := 6
  const TYPE_AAAA: nat := 28
  const RCODE_SUCCESS: nat := 0
  const RCODE_SERVER_FAILURE: nat := 2
  const RCODE_NAME_ERROR: nat := 3

  datatype Question = Question(name: string, qtype: nat, qclass: nat)

  datatype EdnsOption =
    | Subnet(family: nat, netmask: nat, scope: nat, address: string)
    | OtherOption(code: nat, data: string)

  // Opt stands for every record whose type is OPT.  Its header TTL field holds flags,
  // among them the DO bit, and is never a lifetime.
  datatype RR =
    | Opt(udpSize: nat, dnssecOk: bool, options: seq<EdnsOption>)
    | Record(rrtype: nat, ttl: U32, data: string)

  /** The value of a message. */
  datatype Msg = Msg(
    id: nat, truncated: bool, rcode: nat, question: seq<Question>,
    answer: seq<RR>, ns: seq<RR>, extra: seq<RR>)
  {
    function Records(): seq<RR> {
      answer + ns + extra
    }
  }

  /** The index of the OPT record that the DNS library reports: the last one. */
  function LastOpt(rrs: seq<RR>): (i: int)
    ensures -1 <= i < |rrs|
    ensures i >= 0 ==> rrs[i].Opt?
    ensures forall j :: i < j < |rrs| ==> !rrs[j].Opt?
  {
    if rrs == [] then -1
    else if rrs[|rrs| - 1].Opt? then |rrs| - 1
    else LastOpt(rrs[..|rrs| - 1])
  }

  /** A message object: its holders may rewrite the value in place. */
  class Message {
    var val: Msg

    constructor (v: Msg)
      ensures val == v
    {
      val := v;
    }

    method Copy() returns (m: Message)
      ensures fresh(m) && m.val == val
    {
      m := new Message(val);
    }
  }
}
