/** Which responses may be cached, for how long, and how TTLs are rewritten. */
module Ttl {
  import opened GoArith
  import opened Dns

  // ---------- which responses are cacheable ----------

  predicate HasIPAnswer(m: Msg) {
    exists i :: 0 <= i < |m.answer| && m.answer[i].Record? &&
                (m.answer[i].rrtype == TYPE_A || m.answer[i].rrtype == TYPE_AAAA)
  }

  predicate HasSOA(m: Msg) {
    exists i :: 0 <= i < |m.ns| && m.ns[i].Record? && m.ns[i].rrtype == TYPE_SOA
  }

  predicate Cacheable(m: Msg) {
    !m.truncated && |m.question| == 1 &&
    if m.rcode == RCODE_SUCCESS then
      (m.question[0].qtype != TYPE_A && m.question[0].qtype != TYPE_AAAA) || HasIPAnswer(m) || HasSOA(m)
    else if m.rcode == RCODE_NAME_ERROR then HasSOA(m)
    else m.rcode == RCODE_SERVER_FAILURE
  }

  ghost predicate Has(rrs: seq<RR>, rrtype: nat) {
    exists r :: r in rrs && r.Record? && r.rrtype == rrtype
  }

  /** A whole answer to one question: a server failure (code 2); a name error (3) with an SOA
      (type 6) in the authority section; or a success (0), which for an address question (types
      1 and 28) needs an address or such an SOA. */
  lemma CacheableIs(m: Msg)
    ensures Cacheable(m) <==>
      && !m.truncated && |m.question| == 1
      && (|| m.rcode == 2
          || (m.rcode == 3 && Has(m.ns, 6))
          || (m.rcode == 0 && (m.question[0].qtype in {1, 28} ==> Has(m.answer, 1) || Has(m.answer, 28) || Has(m.ns, 6))))
  {
    assert HasIPAnswer(m) <==> Has(m.answer, 1) || Has(m.answer, 28) by {
      if r :| r in m.answer && r.Record? && r.rrtype in {1, 28} { assert r in m.answer; }
    }
    assert HasSOA(m) <==> Has(m.ns, 6);
  }

  // ---------- the lifetime of a response ----------

  /** The least TTL over the non-OPT records, MAX_U32 when there is none. */
  function LeastTtl(rrs: seq<RR>): U32 {
    if rrs == [] then MAX_U32
    else
      var rest := LeastTtl(rrs[..|rrs| - 1]);
      var last := rrs[|rrs| - 1];
      if last.Record? && last.ttl < rest then last.ttl else rest
  }

  function RecordTtl(m: Msg): U32 {
    if m.truncated || |m.question| != 1 then 0
    else
      var ttl := LeastTtl(m.Records());
      if ttl == MAX_U32 then 0
      else if m.rcode == RCODE_SERVER_FAILURE && ttl > 30 then 30
      else ttl
  }

  lemma {:induction false} LeastTtlIsLeast(rrs: seq<RR>)
    ensures forall i :: 0 <= i < |rrs| && rrs[i].Record? ==> LeastTtl(rrs) <= rrs[i].ttl
    ensures LeastTtl(rrs) != MAX_U32 ==>
              exists i :: 0 <= i < |rrs| && rrs[i].Record? && rrs[i].ttl == LeastTtl(rrs)
  {
    if rrs != [] {
      var front := rrs[..|rrs| - 1];
      LeastTtlIsLeast(front);
      forall i | 0 <= i < |rrs| && rrs[i].Record? ensures LeastTtl(rrs) <= rrs[i].ttl {
        if i < |front| { assert rrs[i] == front[i]; }
      }
      if LeastTtl(rrs) != MAX_U32 && LeastTtl(rrs) == LeastTtl(front) {
        var i :| 0 <= i < |front| && front[i].Record? && front[i].ttl == LeastTtl(front);
        assert rrs[i] == front[i];
      }
    }
  }

  lemma {:induction false} LeastTtlConcat(a: seq<RR>, b: seq<RR>)
    ensures LeastTtl(a + b) == Min(LeastTtl(a), LeastTtl(b))
  {
    if b == [] {
      assert a + b == a;
    } else {
      LeastTtlConcat(a, b[..|b| - 1]);
      assert (a + b)[..|a + b| - 1] == a + b[..|b| - 1];
    }
  }

  /** A positive lifetime never exceeds the TTL of any record of the message, and only
      a truncated message, a missing question, a zero TTL or the lack of a record with
      a TTL below the sentinel makes it zero. */
  lemma RecordTtlBound(m: Msg)
    ensures forall i :: 0 <= i < |m.Records()| && m.Records()[i].Record? ==> RecordTtl(m) <= m.Records()[i].ttl
    ensures m.rcode == RCODE_SERVER_FAILURE ==> RecordTtl(m) <= 30
    ensures RecordTtl(m) == 0 <==>
              || m.truncated
              || |m.question| != 1
              || (forall i :: 0 <= i < |m.Records()| && m.Records()[i].Record? ==> m.Records()[i].ttl == MAX_U32)
              || (exists i :: 0 <= i < |m.Records()| && m.Records()[i].Record? && m.Records()[i].ttl == 0)
  {
    LeastTtlIsLeast(m.Records());
  }

  /** r is a record of one of the sections. */
  predicate Holds(m: Msg, r: RR) {
    r in m.answer || r in m.ns || r in m.extra
  }

  /** n is the least TTL of the records that have one. */
  ghost predicate LeastOf(m: Msg, n: U32) {
    && (exists r :: Holds(m, r) && r.Record? && r.ttl == n)
    && (forall r :: Holds(m, r) && r.Record? ==> n <= r.ttl)
  }

  /** The lifetime is that least TTL, 30 at most for SERVFAIL. */
  lemma RecordTtlIs(m: Msg, n: U32)
    requires !m.truncated && |m.question| == 1 && LeastOf(m, n) && n < 0xFFFF_FFFF
    ensures RecordTtl(m) == if m.rcode == 2 && n > 30 then 30 else n
  {
    var all := m.Records();
    LeastTtlIsLeast(all);
    assert forall r :: Holds(m, r) ==> r in all;
    var r :| Holds(m, r) && r.Record? && r.ttl == n;
    if i :| 0 <= i < |all| && all[i].Record? && all[i].ttl == LeastTtl(all) { assert Holds(m, all[i]); }
  }

  lemma SomeLeast(m: Msg) returns (n: U32)
    requires RecordTtl(m) != 0
    ensures LeastOf(m, n) && n < 0xFFFF_FFFF
  {
    var all := m.Records();
    LeastTtlIsLeast(all);
    n := LeastTtl(all);
    var i :| 0 <= i < |all| && all[i].Record? && all[i].ttl == n;
    assert Holds(m, all[i]);
    assert forall r :: Holds(m, r) ==> r in all;
  }

  /** The loop of recordTTL over one section, continuing from the least TTL so far. */
  method LeastOverSection(rrset: seq<RR>, start: U32) returns (ttl: U32)
    ensures ttl == Min(start, LeastTtl(rrset))
  {
    ttl := start;
    for i := 0 to |rrset|
      invariant ttl == Min(start, LeastTtl(rrset[..i]))
    {
      assert rrset[..i + 1][..i] == rrset[..i];
      if rrset[i].Opt? { continue; }
      if rrset[i].ttl < ttl { ttl := rrset[i].ttl; }
    }
    assert rrset[..|rrset|] == rrset;
  }

  method ComputeRecordTtl(m: Message) returns (ttl: U32)
    ensures ttl == RecordTtl(m.val)
  {
    if m.val.truncated || |m.val.question| != 1 { return 0; }
    ttl := LeastOverSection(m.val.answer, MAX_U32);
    ttl := LeastOverSection(m.val.ns, ttl);
    ttl := LeastOverSection(m.val.extra, ttl);
    LeastTtlConcat(m.val.answer + m.val.ns, m.val.extra);
    LeastTtlConcat(m.val.answer, m.val.ns);
    if ttl == MAX_U32 { return 0; }
    if m.val.rcode == RCODE_SERVER_FAILURE && ttl > 30 { return 30; }
  }

  // ---------- rewriting TTLs ----------

  function MapTtl(rrs: seq<RR>, f: U32 -> U32): (r: seq<RR>)
    ensures |r| == |rrs|
    ensures forall i :: 0 <= i < |rrs| ==>
              r[i] == if rrs[i].Opt? then rrs[i] else rrs[i].(ttl := f(rrs[i].ttl))
  {
    seq(|rrs|, i requires 0 <= i < |rrs| =>
      if rrs[i].Opt? then rrs[i] else rrs[i].(ttl := f(rrs[i].ttl)))
  }

  /** m with the TTL of every record but OPT mapped through f. */
  function MapTtls(m: Msg, f: U32 -> U32): Msg {
    m.(answer := MapTtl(m.answer, f), ns := MapTtl(m.ns, f), extra := MapTtl(m.extra, f))
  }

  function WithTtl(m: Msg, ttl: U32): Msg {
    MapTtls(m, _ => ttl)
  }

  predicate SameHeader(was: Msg, now: Msg) {
    now.id == was.id && now.truncated == was.truncated && now.rcode == was.rcode && now.question == was.question
  }

  /** A section before and after: every record but OPT has the TTL now, and that is all. */
  predicate TtlsAre(ttl: U32, was: seq<RR>, now: seq<RR>) {
    |now| == |was| && forall i :: 0 <= i < |was| ==> now[i] == if was[i].Opt? then was[i] else was[i].(ttl := ttl)
  }

  lemma WithTtlIs(m: Msg, ttl: U32, now: Msg)
    ensures now == WithTtl(m, ttl) <==>
      SameHeader(m, now) && TtlsAre(ttl, m.answer, now.answer) && TtlsAre(ttl, m.ns, now.ns) && TtlsAre(ttl, m.extra, now.extra)
  {
    var f := (_: U32) => ttl;
    if TtlsAre(ttl, m.answer, now.answer) { assert now.answer == MapTtl(m.answer, f); }
    if TtlsAre(ttl, m.ns, now.ns) { assert now.ns == MapTtl(m.ns, f); }
    if TtlsAre(ttl, m.extra, now.extra) { assert now.extra == MapTtl(m.extra, f); }
  }

  /** A section before and after: the same records, but for TTLs. */
  predicate SameRecords(was: seq<RR>, now: seq<RR>) {
    |now| == |was| && forall i :: 0 <= i < |was| ==>
      if was[i].Opt? then now[i] == was[i] else now[i].Record? && now[i].rrtype == was[i].rrtype && now[i].data == was[i].data
  }

  predicate SameButTtls(was: Msg, now: Msg) {
    SameHeader(was, now) && SameRecords(was.answer, now.answer) && SameRecords(was.ns, now.ns) && SameRecords(was.extra, now.extra)
  }

  lemma MapTtlsRecords(m: Msg, f: U32 -> U32)
    ensures MapTtls(m, f).Records() == MapTtl(m.Records(), f)
  {
  }

  method SetTtlSection(rrset: seq<RR>, ttl: U32) returns (out: seq<RR>)
    ensures out == MapTtl(rrset, _ => ttl)
  {
    out := rrset;
    for i := 0 to |rrset|
      invariant |out| == |rrset|
      invariant forall j :: 0 <= j < i ==> out[j] == if rrset[j].Opt? then rrset[j] else rrset[j].(ttl := ttl)
      invariant forall j :: i <= j < |rrset| ==> out[j] == rrset[j]
    {
      if out[i].Opt? { continue; }
      out := out[i := out[i].(ttl := ttl)];
    }
  }

  method SetTtl(m: Message, ttl: U32)
    modifies m
    ensures m.val == WithTtl(old(m.val), ttl)
  {
    var answer := SetTtlSection(m.val.answer, ttl);
    m.val := m.val.(answer := answer);
    var ns := SetTtlSection(m.val.ns, ttl);
    m.val := m.val.(ns := ns);
    var extra := SetTtlSection(m.val.extra, ttl);
    m.val := m.val.(extra := extra);
  }

  // ---------- clamping ----------

  function ClampOne(min: U32, max: U32, ttl: U32): U32 {
    var raised := if min > 0 && ttl < min then min else ttl;
    if max > 0 && raised > max then max else raised
  }

  /** Both bounds zero means clamping is off. */
  function ClampMsg(min: U32, max: U32, m: Msg): Msg {
    if min == 0 && max == 0 then m else MapTtls(m, (t: U32) => ClampOne(min, max, t))
  }

  method ClampSection(rrset: seq<RR>, min: U32, max: U32) returns (out: seq<RR>)
    ensures out == MapTtl(rrset, (t: U32) => ClampOne(min, max, t))
  {
    out := rrset;
    for i := 0 to |rrset|
      invariant |out| == |rrset|
      invariant forall j :: 0 <= j < i ==>
                  out[j] == if rrset[j].Opt? then rrset[j] else rrset[j].(ttl := ClampOne(min, max, rrset[j].ttl))
      invariant forall j :: i <= j < |rrset| ==> out[j] == rrset[j]
    {
      if out[i].Opt? { continue; }
      var ttl := out[i].ttl;
      if min > 0 && ttl < min { ttl := min; }
      if max > 0 && ttl > max { ttl := max; }
      out := out[i := out[i].(ttl := ttl)];
    }
  }

  method ClampMessage(m: Message, min: U32, max: U32)
    modifies m
    ensures m.val == ClampMsg(min, max, old(m.val))
  {
    if min == 0 && max == 0 { return; }
    var answer := ClampSection(m.val.answer, min, max);
    m.val := m.val.(answer := answer);
    var ns := ClampSection(m.val.ns, min, max);
    m.val := m.val.(ns := ns);
    var extra := ClampSection(m.val.extra, min, max);
    m.val := m.val.(extra := extra);
  }

  /** A record before and after: OPT stays; of all others the upper bound takes those above it,
      and everything when the lower bound is above it; the lower bound takes those below it;
      the rest stay. */
  predicate Clamped(min: U32, max: U32, was: RR, now: RR) {
    if was.Opt? then now == was
    else
      && now.Record? && now.rrtype == was.rrtype && now.data == was.data
      && (max > 0 && (was.ttl > max || min > max) ==> now.ttl == max)
      && (was.ttl < min && (max == 0 || min <= max) ==> now.ttl == min)
      && (was.ttl >= min && (max == 0 || (was.ttl <= max && min <= max)) ==> now.ttl == was.ttl)
  }

  predicate ClampedSection(min: U32, max: U32, was: seq<RR>, now: seq<RR>) {
    |now| == |was| && forall i :: 0 <= i < |was| ==> Clamped(min, max, was[i], now[i])
  }

  /** Section by section, every record is clamped; the rest of the message is as it was. */
  predicate ClampedBySection(min: U32, max: U32, was: Msg, now: Msg) {
    && SameHeader(was, now)
    && ClampedSection(min, max, was.answer, now.answer)
    && ClampedSection(min, max, was.ns, now.ns)
    && ClampedSection(min, max, was.extra, now.extra)
  }

  /** Whatever the bounds, that says exactly what clamping does. */
  lemma ClampIs(min: U32, max: U32, m: Msg, now: Msg)
    ensures now == ClampMsg(min, max, m) <==> ClampedBySection(min, max, m, now)
  {
    SectionIs(min, max, m.answer, now.answer);
    SectionIs(min, max, m.ns, now.ns);
    SectionIs(min, max, m.extra, now.extra);
    if min == 0 && max == 0 {
      OffIsIdentity(m.answer);
      OffIsIdentity(m.ns);
      OffIsIdentity(m.extra);
    }
  }

  lemma SectionIs(min: U32, max: U32, was: seq<RR>, now: seq<RR>)
    ensures now == MapTtl(was, (t: U32) => ClampOne(min, max, t)) <==> ClampedSection(min, max, was, now)
  {
    var f := (t: U32) => ClampOne(min, max, t);
    if ClampedSection(min, max, was, now) {
      forall i | 0 <= i < |was| ensures now[i] == MapTtl(was, f)[i] {
        assert Clamped(min, max, was[i], now[i]);
      }
    }
  }

  lemma OffIsIdentity(rrs: seq<RR>)
    ensures MapTtl(rrs, (t: U32) => ClampOne(0, 0, t)) == rrs
  {
  }

  /** With ordered bounds every TTL then lies between them. */
  lemma ClampMeetsBounds(min: U32, max: U32, m: Msg)
    requires min > 0 && max > 0 ==> min <= max
    ensures ClampedBySection(min, max, m, ClampMsg(min, max, m))
    ensures forall r :: Holds(ClampMsg(min, max, m), r) && r.Record? ==> min <= r.ttl && (max > 0 ==> r.ttl <= max)
    ensures |ClampMsg(min, max, m).Records()| == |m.Records()|
    ensures forall i :: 0 <= i < |m.Records()| ==> Clamped(min, max, m.Records()[i], ClampMsg(min, max, m).Records()[i])
  {
    ClampIs(min, max, m, ClampMsg(min, max, m));
    ClampRecords(min, max, m);
  }

  lemma ClampRecords(min: U32, max: U32, m: Msg)
    ensures ClampMsg(min, max, m).Records() == MapTtl(m.Records(), (t: U32) => ClampOne(min, max, t))
  {
    MapTtlsRecords(m, (t: U32) => ClampOne(min, max, t));
  }

  /** No two TTLs change their order. */
  lemma ClampKeepsOrder(min: U32, max: U32, m: Msg, i: nat, j: nat)
    requires i < |m.Records()| && j < |m.Records()| && m.Records()[i].Record? && m.Records()[j].Record?
    requires m.Records()[i].ttl <= m.Records()[j].ttl
    ensures |ClampMsg(min, max, m).Records()| == |m.Records()|
    ensures var c := ClampMsg(min, max, m).Records(); c[i].Record? && c[j].Record? && c[i].ttl <= c[j].ttl
  {
    ClampRecords(min, max, m);
  }

  /** A second clamp changes nothing. */
  lemma ClampTwice(min: U32, max: U32, m: Msg)
    requires min > 0 && max > 0 ==> min <= max
    ensures ClampMsg(min, max, ClampMsg(min, max, m)) == ClampMsg(min, max, m)
  {
    var f := (t: U32) => ClampOne(min, max, t);
    var c := MapTtls(m, f);
    assert MapTtls(c, f) == c;
  }

  /** The lifetime that a clamped response is stored for, when lifetimes follow the
      records: within the bounds, apart from the 30 second cap on SERVFAIL. */
  lemma ClampedLifetime(min: U32, max: U32, m: Msg)
    requires min > 0 && max > 0 ==> min <= max
    ensures var life := RecordTtl(ClampMsg(min, max, m));
      life > 0 ==>
        && (max > 0 ==> life <= max)
        && (if m.rcode == RCODE_SERVER_FAILURE then Min(min, 30) <= life <= 30 else min <= life)
  {
    var c := ClampMsg(min, max, m);
    ClampMeetsBounds(min, max, m);
    LeastTtlIsLeast(c.Records());
    if LeastTtl(c.Records()) != MAX_U32 {
      var i :| 0 <= i < |c.Records()| && c.Records()[i].Record? && c.Records()[i].ttl == LeastTtl(c.Records());
      assert Clamped(min, max, m.Records()[i], c.Records()[i]);
    }
  }

  /** Neither clamping nor one TTL for all changes more than TTLs. */
  lemma ClampedThenTtl(min: U32, max: U32, m: Msg, clamped: Msg, ttl: U32, now: Msg)
    requires ClampedBySection(min, max, m, clamped) && now == WithTtl(clamped, ttl)
    ensures SameButTtls(m, now)
  {
    WithTtlIs(clamped, ttl, now);
    SectionThenTtl(min, max, m.answer, clamped.answer, ttl, now.answer);
    SectionThenTtl(min, max, m.ns, clamped.ns, ttl, now.ns);
    SectionThenTtl(min, max, m.extra, clamped.extra, ttl, now.extra);
  }

  lemma SectionThenTtl(min: U32, max: U32, was: seq<RR>, clamped: seq<RR>, ttl: U32, now: seq<RR>)
    requires ClampedSection(min, max, was, clamped) && TtlsAre(ttl, clamped, now)
    ensures SameRecords(was, now)
  {
    forall i | 0 <= i < |was| ensures if was[i].Opt? then now[i] == was[i]
      else now[i].Record? && now[i].rrtype == was[i].rrtype && now[i].data == was[i].data
    {
      assert Clamped(min, max, was[i], clamped[i]);
    }
  }
}
