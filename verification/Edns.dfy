/** What the handler does to a request before it goes upstream: the policy for client subnets
    and the DNSSEC flag, and what is then left in the cache key of the client's EDNS data. */
module Edns {
  import opened GoArith
  import opened Dns
  import opened CacheKey

  /** A prefix masked to its length: four address bytes for IPv4, sixteen for IPv6. */
  datatype Prefix = Prefix(is4: bool, bits: nat, addr: string)

  datatype Policy = Off | Pass | Override(prefix: Prefix)

  function Family(p: Prefix): nat {
    if p.is4 then 1 else 2
  }

  function FixedSubnet(p: Prefix): EdnsOption {
    Subnet(Family(p), p.bits, 0, p.addr)
  }

  /** now is was without what is gone: all the rest, in order. */
  ghost predicate IsWithout<T>(was: seq<T>, now: seq<T>, gone: T -> bool) {
    if was == [] then now == []
    else if gone(was[0]) then IsWithout(was[1..], now, gone)
    else now != [] && now[0] == was[0] && IsWithout(was[1..], now[1..], gone)
  }

  lemma {:induction false} WithoutOneMore<T>(was: seq<T>, now: seq<T>, gone: T -> bool, x: T)
    requires IsWithout(was, now, gone)
    ensures IsWithout(was + [x], now + if gone(x) then [] else [x], gone)
  {
    if was == [] {
      assert (was + [x])[1..] == [];
    } else if gone(was[0]) {
      WithoutOneMore(was[1..], now, gone, x);
      assert (was + [x])[1..] == was[1..] + [x];
    } else {
      WithoutOneMore(was[1..], now[1..], gone, x);
      assert (was + [x])[1..] == was[1..] + [x];
      assert (now + if gone(x) then [] else [x])[1..] == now[1..] + if gone(x) then [] else [x];
    }
  }

  // ---------- removing all EDNS data ----------

  function NonOpts(rrs: seq<RR>): (r: seq<RR>)
    ensures forall i :: 0 <= i < |r| ==> !r[i].Opt?
  {
    if rrs == [] then []
    else NonOpts(rrs[..|rrs| - 1]) + if rrs[|rrs| - 1].Opt? then [] else [rrs[|rrs| - 1]]
  }

  lemma {:induction false} NonOptsIs(rrs: seq<RR>)
    ensures IsWithout(rrs, NonOpts(rrs), (r: RR) => r.Opt?)
  {
    if rrs != [] {
      NonOptsIs(rrs[..|rrs| - 1]);
      WithoutOneMore(rrs[..|rrs| - 1], NonOpts(rrs[..|rrs| - 1]), (r: RR) => r.Opt?, rrs[|rrs| - 1]);
      assert rrs == rrs[..|rrs| - 1] + [rrs[|rrs| - 1]];
    }
  }

  method StripOpt(m: Message)
    modifies m
    ensures m.val == old(m.val).(extra := NonOpts(old(m.val).extra))
    ensures m.val.(extra := []) == old(m.val).(extra := []) && IsWithout(old(m.val).extra, m.val.extra, (r: RR) => r.Opt?)
  {
    NonOptsIs(m.val.extra);
    if |m.val.extra| == 0 { return; }
    var was := m.val.extra;
    var extra := [];
    for i := 0 to |was|
      invariant extra == NonOpts(was[..i])
    {
      assert was[..i + 1][..i] == was[..i];
      if was[i].Opt? { continue; }
      extra := extra + [was[i]];
    }
    assert was[..|was|] == was;
    m.val := m.val.(extra := extra);
  }

  // ---------- a fixed client subnet ----------

  function NonSubnets(options: seq<EdnsOption>): (r: seq<EdnsOption>)
    ensures forall i :: 0 <= i < |r| ==> !r[i].Subnet?
  {
    if options == [] then []
    else NonSubnets(options[..|options| - 1]) + if options[|options| - 1].Subnet? then [] else [options[|options| - 1]]
  }

  lemma {:induction false} NonSubnetsIs(options: seq<EdnsOption>)
    ensures IsWithout(options, NonSubnets(options), (o: EdnsOption) => o.Subnet?)
  {
    if options != [] {
      var front := options[..|options| - 1];
      NonSubnetsIs(front);
      WithoutOneMore(front, NonSubnets(front), (o: EdnsOption) => o.Subnet?, options[|options| - 1]);
      assert options == front + [options[|options| - 1]];
    }
  }

  /** The OPT record that gets the subnet: the one the request has, or a new one. */
  function WithSubnet(opt: RR, p: Prefix): RR
    requires opt.Opt?
  {
    opt.(options := NonSubnets(opt.options) + [FixedSubnet(p)])
  }

  function Overridden(m: Msg, p: Prefix): Msg {
    var i := LastOpt(m.extra);
    if i < 0 then m.(extra := m.extra + [WithSubnet(Opt(0, false, []), p)])
    else m.(extra := m.extra[i := WithSubnet(m.extra[i], p)])
  }

  method SetEcsOverride(m: Message, p: Prefix)
    modifies m
    ensures m.val == Overridden(old(m.val), p)
  {
    var i := LastOpt(m.val.extra);
    if i < 0 {
      i := |m.val.extra|;
      m.val := m.val.(extra := m.val.extra + [Opt(0, false, [])]);
    }
    var was := m.val.extra[i].options;
    var opts := [];
    for j := 0 to |was|
      invariant opts == NonSubnets(was[..j])
    {
      assert was[..j + 1][..j] == was[..j];
      if was[j].Subnet? { continue; }
      opts := opts + [was[j]];
    }
    assert was[..|was|] == was;
    opts := opts + [Subnet(if p.is4 then 1 else 2, p.bits, 0, p.addr)];
    m.val := m.val.(extra := m.val.extra[i := m.val.extra[i].(options := opts)]);
  }

  lemma {:induction false} NonSubnetsAppend(options: seq<EdnsOption>, o: EdnsOption)
    ensures NonSubnets(options + [o]) == NonSubnets(options) + if o.Subnet? then [] else [o]
    ensures Subnets(options + [o]) == Subnets(options) + if o.Subnet? then [SubnetKey(o.family, o.netmask, o.address)] else []
  {
    assert (options + [o])[..|options|] == options;
  }

  lemma {:induction false} NoSubnetsLeft(options: seq<EdnsOption>)
    ensures NonSubnets(NonSubnets(options)) == NonSubnets(options)
    ensures Subnets(NonSubnets(options)) == []
  {
    if options != [] {
      var front, o := options[..|options| - 1], options[|options| - 1];
      NoSubnetsLeft(front);
      if o.Subnet? {
        assert NonSubnets(options) == NonSubnets(front);
      } else {
        NonSubnetsAppend(NonSubnets(front), o);
      }
    }
  }

  /** The edited record has the configured subnet and no other, and all its other options in
      their order; its flags are as they were. */
  lemma OneSubnetLeft(opt: RR, p: Prefix)
    requires opt.Opt?
    ensures var edited := WithSubnet(opt, p);
      && edited.udpSize == opt.udpSize && edited.dnssecOk == opt.dnssecOk
      && Subnets(edited.options) == [SubnetKey(if p.is4 then 1 else 2, p.bits, p.addr)]
      && edited.options != []
      && IsWithout(opt.options, edited.options[..|edited.options| - 1], (o: EdnsOption) => o.Subnet?)
      && edited.options[|edited.options| - 1] == Subnet(if p.is4 then 1 else 2, p.bits, 0, p.addr)
  {
    var kept := NonSubnets(opt.options);
    NonSubnetsIs(opt.options);
    assert (kept + [FixedSubnet(p)])[..|kept|] == kept;
    NoSubnetsLeft(opt.options);
    NonSubnetsAppend(NonSubnets(opt.options), FixedSubnet(p));
  }

  /** It is the record that the library reports, or a new one behind all others; nothing else
      in the message changes. */
  lemma OverrideEditsOneRecord(m: Msg, p: Prefix)
    ensures var was, i := LastOpt(m.extra), LastOpt(Overridden(m, p).extra);
      && Overridden(m, p).(extra := []) == m.(extra := [])
      && i == (if was >= 0 then was else |m.extra|) < |Overridden(m, p).extra|
      && |Overridden(m, p).extra| == (if was >= 0 then |m.extra| else |m.extra| + 1)
      && (forall j :: 0 <= j < |m.extra| && j != i ==> Overridden(m, p).extra[j] == m.extra[j])
      && Overridden(m, p).extra[i] == WithSubnet(if was >= 0 then m.extra[was] else Opt(0, false, []), p)
  {
    var was := LastOpt(m.extra);
    LastOptIs(Overridden(m, p).extra, if was >= 0 then was else |m.extra|);
  }

  lemma {:induction false} LastOptIs(rrs: seq<RR>, i: int)
    requires 0 <= i < |rrs| && rrs[i].Opt? && forall j :: i < j < |rrs| ==> !rrs[j].Opt?
    ensures LastOpt(rrs) == i
  {
    var last := LastOpt(rrs);
  }

  lemma NoOptMeansNone(rrs: seq<RR>)
    requires forall j :: 0 <= j < |rrs| ==> !rrs[j].Opt?
    ensures LastOpt(rrs) == -1
  {
    var last := LastOpt(rrs);
  }

  // ---------- the DNSSEC flag ----------

  predicate ClientWantsDO(m: Msg) {
    var i := LastOpt(m.extra);
    i >= 0 && m.extra[i].dnssecOk
  }

  function WithDO(m: Msg): Msg {
    var i := LastOpt(m.extra);
    if i >= 0 then m.(extra := m.extra[i := m.extra[i].(dnssecOk := true)])
    else m.(extra := m.extra + [Opt(1232, true, [])])
  }

  method SetDO(m: Message)
    modifies m
    ensures m.val == WithDO(old(m.val))
  {
    var i := LastOpt(m.val.extra);
    if i >= 0 {
      if !m.val.extra[i].dnssecOk {
        m.val := m.val.(extra := m.val.extra[i := m.val.extra[i].(dnssecOk := true)]);
      } else {
        assert m.val.extra[i := m.val.extra[i].(dnssecOk := true)] == m.val.extra;
      }
      return;
    }
    m.val := m.val.(extra := m.val.extra + [Opt(1232, true, [])]);
  }

  /** The flag goes into the record that the library reports, or into a new one that offers a
      payload of 1232 bytes; nothing else changes. */
  lemma FlagEditsOneRecord(m: Msg)
    ensures var was, i := LastOpt(m.extra), LastOpt(WithDO(m).extra);
      && WithDO(m).(extra := []) == m.(extra := [])
      && i == (if was >= 0 then was else |m.extra|) < |WithDO(m).extra|
      && |WithDO(m).extra| == (if was >= 0 then |m.extra| else |m.extra| + 1)
      && (forall j :: 0 <= j < |m.extra| && j != i ==> WithDO(m).extra[j] == m.extra[j])
      && (if was >= 0 then WithDO(m).extra[i] == Opt(m.extra[was].udpSize, true, m.extra[was].options)
          else WithDO(m).extra[i] == Opt(1232, true, []))
  {
    var was := LastOpt(m.extra);
    LastOptIs(WithDO(m).extra, if was >= 0 then was else |m.extra|);
  }

  // ---------- the request that goes upstream ----------

  function Applied(policy: Policy, m: Msg): Msg {
    match policy
    case Off => m.(extra := NonOpts(m.extra))
    case Pass => m
    case Override(p) => Overridden(m, p)
  }

  function Rewritten(policy: Policy, dnssec: bool, m: Msg): Msg {
    if dnssec && ClientWantsDO(m) then WithDO(Applied(policy, m)) else Applied(policy, m)
  }

  /** The order matters: the client's flag is read before the policy may remove it, and set
      after. */
  method RewriteRequest(policy: Policy, dnssec: bool, m: Message)
    modifies m
    ensures m.val == Rewritten(policy, dnssec, old(m.val))
  {
    var clientDO := dnssec && ClientWantsDO(m.val);
    match policy {
      case Off => StripOpt(m);
      case Pass =>
      case Override(p) => SetEcsOverride(m, p);
    }
    if clientDO { SetDO(m); }
  }

  ghost predicate Stripped(was: seq<RR>, now: seq<RR>) {
    IsWithout(was, now, (r: RR) => r.Opt?)
  }

  /** What goes upstream.  Under off: no EDNS data but the flag, and that only if the client set
      it and DNSSEC is passed on.  Under pass: the client's own request.  Under override: that
      request with the configured subnet, its flag as it was. */
  lemma UpstreamRequest(policy: Policy, dnssec: bool, m: Msg)
    ensures var r := Rewritten(policy, dnssec, m);
      && r.(extra := []) == m.(extra := [])
      && (policy.Off? ==> exists others ::
            && Stripped(m.extra, others)
            && r.extra == others + if dnssec && WantsDnssec(m) then [Opt(1232, true, [])] else [])
      && (policy.Pass? ==> r == m)
      && (policy.Override? ==> r == Overridden(m, policy.prefix))
  {
    ClientFlag(m);
    match policy {
      case Off =>
        NonOptsIs(m.extra);
        NoOptMeansNone(NonOpts(m.extra));
        assert Stripped(m.extra, NonOpts(m.extra));
      case Pass =>
        if ClientWantsDO(m) { FlagSetAlready(m); }
      case Override(p) =>
        OverrideEditsOneRecord(m, p);
        if ClientWantsDO(m) { FlagSetAlready(Overridden(m, p)); }
    }
  }

  lemma FlagSetAlready(m: Msg)
    requires ClientWantsDO(m)
    ensures WithDO(m) == m
  {
    var i := LastOpt(m.extra);
    assert m.extra[i := m.extra[i].(dnssecOk := true)] == m.extra;
  }

  lemma ClientFlag(m: Msg)
    ensures ClientWantsDO(m) <==> WantsDnssec(m)
  {
    var i := LastOpt(m.extra);
    assert i >= 0 ==> LastOptAt(m, i);
    assert forall j :: LastOptAt(m, j) ==> j == i;
  }

  // ---------- what the cache key then says ----------

  lemma WithDOIdentity(m: Msg)
    requires |m.question| == 1
    ensures |WithDO(m).question| == 1 && IdentityOf(WithDO(m)) == IdentityOf(m).(dnssecOk := true)
  {
    var i := LastOpt(m.extra);
    LastOptIs(WithDO(m).extra, if i >= 0 then i else |m.extra|);
  }

  /** Under off, nothing of the client's EDNS data is left but the flag, and that only when
      DNSSEC is passed on. */
  lemma OffIdentity(dnssec: bool, m: Msg)
    requires |m.question| == 1
    ensures var q := m.question[0];
      |Rewritten(Off, dnssec, m).question| == 1 &&
      IdentityOf(Rewritten(Off, dnssec, m)) == Identity(Lower(q.name), q.qtype, q.qclass, dnssec && ClientWantsDO(m), [])
  {
    var stripped := Applied(Off, m);
    NoOptMeansNone(stripped.extra);
    if dnssec && ClientWantsDO(m) { WithDOIdentity(stripped); }
  }

  lemma OverriddenIdentity(m: Msg, p: Prefix)
    requires |m.question| == 1
    ensures Overridden(m, p).question == m.question
    ensures IdentityOf(Overridden(m, p)) == IdentityOf(m).(dnssecOk := ClientWantsDO(m), subnets := [SubnetKey(if p.is4 then 1 else 2, p.bits, p.addr)])
  {
    var was := LastOpt(m.extra);
    OverrideEditsOneRecord(m, p);
    OneSubnetLeft(if was >= 0 then m.extra[was] else Opt(0, false, []), p);
  }

  /** Under override the subnet is always the configured one; the client's flag stays,
      whether or not DNSSEC is passed on. */
  lemma OverrideIdentity(p: Prefix, dnssec: bool, m: Msg)
    requires |m.question| == 1
    ensures var q := m.question[0];
      |Rewritten(Override(p), dnssec, m).question| == 1 &&
      IdentityOf(Rewritten(Override(p), dnssec, m))
        == Identity(Lower(q.name), q.qtype, q.qclass, ClientWantsDO(m), [SubnetKey(if p.is4 then 1 else 2, p.bits, p.addr)])
  {
    OverriddenIdentity(m, p);
    if dnssec && ClientWantsDO(m) { WithDOIdentity(Overridden(m, p)); }
  }

  /** Under pass the identity is that of the client's own request. */
  lemma PassIdentity(dnssec: bool, m: Msg)
    requires |m.question| == 1
    ensures |Rewritten(Pass, dnssec, m).question| == 1 && IdentityOf(Rewritten(Pass, dnssec, m)) == IdentityOf(m)
  {
    if dnssec && ClientWantsDO(m) { WithDOIdentity(m); }
  }

  /** Two clients share an entry of the cache, whatever else their EDNS data say, exactly when
      they ask the same question and agree on the flag as far as the policy heeds it. */
  lemma ClientsShareEntries(policy: Policy, dnssec: bool, a: Msg, b: Msg)
    requires !policy.Pass? && |a.question| == 1 && |b.question| == 1
    requires '|' !in a.question[0].name && '|' !in b.question[0].name
    ensures var x, y := Rewritten(policy, dnssec, a), Rewritten(policy, dnssec, b);
      |x.question| == 1 && |y.question| == 1 &&
      (KeyOf(x) == KeyOf(y) <==>
        && SameName(a.question[0].name, b.question[0].name)
        && a.question[0].qtype == b.question[0].qtype && a.question[0].qclass == b.question[0].qclass
        && (policy.Override? || dnssec ==> (WantsDnssec(a) <==> WantsDnssec(b))))
  {
    LowerMeetsCase(a.question[0].name, b.question[0].name);
    LowerMeetsCase(b.question[0].name, a.question[0].name);
    ClientFlag(a);
    ClientFlag(b);
    match policy {
      case Off => OffIdentity(dnssec, a); OffIdentity(dnssec, b);
      case Override(p) => OverrideIdentity(p, dnssec, a); OverrideIdentity(p, dnssec, b);
    }
    var n := if policy.Override? then |policy.prefix.addr| else 0;
    KeysSeparate(_ => n, Rewritten(policy, dnssec, a), Rewritten(policy, dnssec, b));
  }

  /** Under pass two clients share one exactly when their own requests ask the same. */
  lemma PassingClientsShareEntries(len: Lengths, dnssec: bool, a: Msg, b: Msg)
    requires |a.question| == 1 && |b.question| == 1
    requires Regular(len, IdentityOf(a)) && Regular(len, IdentityOf(b))
    ensures var x, y := Rewritten(Pass, dnssec, a), Rewritten(Pass, dnssec, b);
      |x.question| == 1 && |y.question| == 1 && (KeyOf(x) == KeyOf(y) <==> AskTheSame(a, b))
  {
    UpstreamRequest(Pass, dnssec, a);
    UpstreamRequest(Pass, dnssec, b);
    RequestsShareKey(len, a, b);
  }
}
