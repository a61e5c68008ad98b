/** Runs of the response cache: which response an answer comes from, and its TTLs. */
module CacheRuns {
  import opened GoArith
  import opened Dns
  import opened Ttl
  import opened CacheKey
  import opened Eviction
  import opened CacheSpec
  import Runs

  datatype Call =
    | CallGet(req: Msg, now: int)
    | CallGetStale(req: Msg, now: int)
    | CallSet(req: Msg, resp: Msg, wireLength: nat, now: int)
    | CallClear

  /** The configuration admits the three known policies only. */
  ghost function After(cfg: Config, calls: seq<Call>): (s: Cached)
    requires !cfg.eviction.Other?
    ensures WF(s)
  {
    if calls == [] then State(map[], 0)
    else
      var s := After(cfg, Runs.Front(calls));
      OpIsCall(cfg, s, Runs.Last(calls));
      Runs.StepKeepsWF(LimitsOf(cfg), s, OpOf(cfg, Runs.Last(calls)));
      CallStep(cfg, s, Runs.Last(calls))
  }

  lemma {:induction false} AfterIsRun(cfg: Config, calls: seq<Call>)
    requires !cfg.eviction.Other?
    ensures After(cfg, calls) == Runs.Run(LimitsOf(cfg), Ops(cfg, calls))
  {
    if calls != [] {
      AfterIsRun(cfg, Runs.Front(calls));
      OpIsCall(cfg, After(cfg, Runs.Front(calls)), Runs.Last(calls));
      assert Runs.Front(Ops(cfg, calls)) == Ops(cfg, Runs.Front(calls));
    }
  }

  ghost function CallStep(cfg: Config, s: Cached, call: Call): Cached
    requires !cfg.eviction.Other? && Distinct(s.recs)
  {
    match call
    case CallGet(req, now) => Get(cfg, s, req, now).0
    case CallGetStale(req, now) => GetStale(cfg, s, req, now).0
    case CallSet(req, resp, wireLength, now) => Set(cfg, s, req, resp, wireLength, now)
    case CallClear => Clear(s)
  }

  function LimitsOf(cfg: Config): Runs.Limits {
    Runs.Limits(cfg.eviction, cfg.maxBytes)
  }

  function OpOf(cfg: Config, call: Call): Runs.Op<string, Msg> {
    match call
    case CallGet(req, now) =>
      if |req.question| != 1 then Runs.Nothing else Runs.Find(KeyOf(req), now)
    case CallGetStale(req, now) =>
      if |req.question| != 1 || cfg.staleMaxAge <= 0 then Runs.Nothing else Runs.FindStale(KeyOf(req), now)
    case CallSet(req, resp, wireLength, now) =>
      if !Accepts(cfg, req, resp) then Runs.Nothing
      else Runs.Write(KeyOf(req), Stored(cfg, resp, resp, KeyOf(req), wireLength, now))
    case CallClear => Runs.Reset
  }

  function Ops(cfg: Config, calls: seq<Call>): (ops: seq<Runs.Op<string, Msg>>)
    ensures |ops| == |calls| && Runs.Sized(ops)
    ensures forall i :: 0 <= i < |calls| ==> ops[i] == OpOf(cfg, calls[i])
  {
    seq(|calls|, i requires 0 <= i < |calls| => OpOf(cfg, calls[i]))
  }

  lemma OpIsCall(cfg: Config, s: Cached, call: Call)
    requires !cfg.eviction.Other? && Distinct(s.recs)
    ensures CallStep(cfg, s, call) == Runs.Step(LimitsOf(cfg), s, OpOf(cfg, call))
  {
    if call.CallSet? && Accepts(cfg, call.req, call.resp) {
      SetPuts(cfg, s, call.req, call.resp, call.wireLength, call.now);
    }
  }

  predicate SetsKey(cfg: Config, call: Call, key: string) {
    call.CallSet? && Accepts(cfg, call.req, call.resp) && KeyOf(call.req) == key
  }

  /** Call i is the last accepted Set of the key, and nothing was cleared since. */
  ghost predicate LatestSet(cfg: Config, calls: seq<Call>, key: string, i: int) {
    0 <= i < |calls| && SetsKey(cfg, calls[i], key) &&
    forall j :: i < j < |calls| ==> !SetsKey(cfg, calls[j], key) && !calls[j].CallClear?
  }

  /** v is what the latest accepted Set of the key, call i, stored. */
  ghost predicate StoredBy(cfg: Config, calls: seq<Call>, key: string, i: int, v: Value<Msg>) {
    LatestSet(cfg, calls, key, i) &&
    v == Stored(cfg, calls[i].resp, calls[i].resp, key, calls[i].wireLength, calls[i].now)
  }

  lemma RecordIsLatest(cfg: Config, calls: seq<Call>, key: string)
    requires !cfg.eviction.Other? && key in After(cfg, calls).recs
    ensures exists i :: StoredBy(cfg, calls, key, i, After(cfg, calls).recs[key].val)
  {
    var ops := Ops(cfg, calls);
    AfterIsRun(cfg, calls);
    Runs.RunRefinesPlain(LimitsOf(cfg), ops);
    Runs.PlainIsLastWrite(ops, key);
    LastWriteIsLatestSet(cfg, calls, key, Runs.LastWrite(ops, key));
  }

  lemma LastWriteIsLatestSet(cfg: Config, calls: seq<Call>, key: string, i: int)
    requires i == Runs.LastWrite(Ops(cfg, calls), key) && i >= 0
    ensures StoredBy(cfg, calls, key, i, Ops(cfg, calls)[i].val)
  {
    var ops := Ops(cfg, calls);
    assert ops[i] == OpOf(cfg, calls[i]);
    forall j | i < j < |calls| ensures !SetsKey(cfg, calls[j], key) && !calls[j].CallClear? {
      assert ops[j] == OpOf(cfg, calls[j]);
    }
  }

  /** What Set stores, on the messages themselves. */
  lemma SetAccepts(cfg: Config, req: Msg, resp: Msg)
    ensures Accepts(cfg, req, resp) <==>
      && |req.question| == 1 && Cacheable(resp)
      && (cfg.ttl <= 0 ==>
            && (exists r :: Holds(resp, r) && r.Record? && r.ttl < 0xFFFF_FFFF)
            && (forall r :: Holds(resp, r) && r.Record? ==> r.ttl != 0))
  {
    RecordTtlBound(resp);
    var all := resp.Records();
    assert forall r :: r in all <==> Holds(resp, r);
    if r :| Holds(resp, r) && r.Record? && r.ttl < 0xFFFF_FFFF { var i :| 0 <= i < |all| && all[i] == r; }
    if r :| Holds(resp, r) && r.Record? && r.ttl == 0 { var i :| 0 <= i < |all| && all[i] == r; }
  }

  lemma PresentIsLatest(cfg: Config, calls: seq<Call>, key: string, i: int)
    requires !cfg.eviction.Other? && key in After(cfg, calls).recs && LatestSet(cfg, calls, key, i)
    ensures StoredBy(cfg, calls, key, i, After(cfg, calls).recs[key].val)
  {
    RecordIsLatest(cfg, calls, key);
    var j :| StoredBy(cfg, calls, key, j, After(cfg, calls).recs[key].val);
    assert i == j;
  }

  // ---------- answers ----------

  /** A present key: which of the two lookups answers, and when the entry goes. */
  lemma PresentKeyAnswers(cfg: Config, s: Cached, req: Msg, now: int)
    requires |req.question| == 1 && KeyOf(req) in s.recs
    ensures var key := KeyOf(req); var v := s.recs[key].val;
      && (Get(cfg, s, req, now).1.Some? <==> now <= v.expire)
      && (cfg.staleMaxAge > 0 ==> (GetStale(cfg, s, req, now).1.Some? <==> v.expire <= now <= v.staleUntil))
      && (key !in Get(cfg, s, req, now).0.recs <==> now > v.expire && now > v.staleUntil)
      && (cfg.staleMaxAge > 0 ==> (key !in GetStale(cfg, s, req, now).0.recs <==> now >= v.expire && now > v.staleUntil))
      && (key in GetStale(cfg, s, req, now).0.recs ==> GetStale(cfg, s, req, now).0.recs == s.recs)
  {
  }

  /** Get answers up to the expiry, GetStale from then on for StaleMaxAge, if that is allowed. */
  ghost predicate AnswersUntil(cfg: Config, s: Cached, req: Msg, now: int, expire: int) {
    && (Get(cfg, s, req, now).1.Some? <==> now <= expire)
    && (GetStale(cfg, s, req, now).1.Some? <==> cfg.staleMaxAge > 0 && expire <= now <= expire + cfg.staleMaxAge)
  }

  /** After any run, for a key that is present, counted from its latest accepted Set: the expiry
      comes after the fixed lifetime, or after the least TTL of the response in seconds, 30 at
      most for SERVFAIL. */
  lemma PresentKeyWindows(cfg: Config, calls: seq<Call>, req: Msg, now: int, i: int)
    requires !cfg.eviction.Other? && |req.question| == 1 && KeyOf(req) in After(cfg, calls).recs
    requires LatestSet(cfg, calls, KeyOf(req), i)
    ensures cfg.ttl > 0 ==> AnswersUntil(cfg, After(cfg, calls), req, now, calls[i].now + cfg.ttl)
    ensures cfg.ttl <= 0 ==> (exists n: U32 ::
      && LeastOf(calls[i].resp, n)
      && AnswersUntil(cfg, After(cfg, calls), req, now,
                      calls[i].now + 1_000_000_000 * if calls[i].resp.rcode == 2 && n > 30 then 30 else n))
  {
    var resp := calls[i].resp;
    PresentIsLatest(cfg, calls, KeyOf(req), i);
    PresentKeyAnswers(cfg, After(cfg, calls), req, now);
    if cfg.ttl <= 0 {
      var n := SomeLeast(resp);
      RecordTtlIs(resp, n);
    }
  }

  /** What is stored: the response, and the size that counts against the limit. */
  lemma PresentKeyHolds(cfg: Config, calls: seq<Call>, key: string, i: int)
    requires !cfg.eviction.Other? && key in After(cfg, calls).recs && LatestSet(cfg, calls, key, i)
    ensures After(cfg, calls).recs[key].val.msg == calls[i].resp
    ensures After(cfg, calls).recs[key].val.size == calls[i].wireLength + |key|
  {
    PresentIsLatest(cfg, calls, key, i);
  }

  lemma AbsentKeyMisses(cfg: Config, s: Cached, req: Msg, now: int)
    requires |req.question| != 1 || KeyOf(req) !in s.recs
    ensures Get(cfg, s, req, now) == GetStale(cfg, s, req, now) == (State(s.recs, s.clock + 1), None)
  {
  }

  /** When what a Set stored expires. */
  function ExpireOf(cfg: Config, call: Call): int
    requires call.CallSet?
  {
    call.now + Lifetime(cfg, call.resp)
  }

  /** a is the response of the latest accepted Set, within its lifetime. */
  ghost predicate FreshFrom(cfg: Config, calls: seq<Call>, key: string, i: int, now: int, a: Msg) {
    LatestSet(cfg, calls, key, i) && now <= ExpireOf(cfg, calls[i]) &&
    a == WithTtl(calls[i].resp, FreshTtl(cfg, ExpireOf(cfg, calls[i]), now))
  }

  /** Or so, from its expiry until StaleMaxAge later. */
  ghost predicate StaleFrom(cfg: Config, calls: seq<Call>, key: string, i: int, now: int, a: Msg) {
    LatestSet(cfg, calls, key, i) && ExpireOf(cfg, calls[i]) <= now <= ExpireOf(cfg, calls[i]) + cfg.staleMaxAge &&
    a == WithTtl(calls[i].resp, StaleTtl(cfg))
  }

  lemma GetAnswersLatest(cfg: Config, calls: seq<Call>, req: Msg, now: int, a: Msg)
    requires !cfg.eviction.Other? && Get(cfg, After(cfg, calls), req, now).1 == Some(a)
    ensures |req.question| == 1 && exists i :: FreshFrom(cfg, calls, KeyOf(req), i, now, a)
  {
    var s, key := After(cfg, calls), KeyOf(req);
    GetReads(cfg, s, req, now, a);
    RecordIsLatest(cfg, calls, key);
    var i :| StoredBy(cfg, calls, key, i, s.recs[key].val);
    StoredIsFresh(cfg, calls, key, i, s.recs[key].val, now, a);
  }

  lemma GetReads(cfg: Config, s: Cached, req: Msg, now: int, a: Msg)
    requires Get(cfg, s, req, now).1 == Some(a)
    ensures |req.question| == 1 && KeyOf(req) in s.recs && IsFresh(cfg, s.recs[KeyOf(req)].val, now, a)
  {
  }

  ghost predicate IsFresh(cfg: Config, v: Value<Msg>, now: int, a: Msg) {
    now <= v.expire && a == WithTtl(v.msg, FreshTtl(cfg, v.expire, now))
  }

  lemma StoredIsFresh(cfg: Config, calls: seq<Call>, key: string, i: int, v: Value<Msg>, now: int, a: Msg)
    requires StoredBy(cfg, calls, key, i, v) && IsFresh(cfg, v, now, a)
    ensures FreshFrom(cfg, calls, key, i, now, a)
  {
    assert v.expire == ExpireOf(cfg, calls[i]) && v.msg == calls[i].resp;
  }

  lemma GetStaleAnswersLatest(cfg: Config, calls: seq<Call>, req: Msg, now: int, a: Msg)
    requires !cfg.eviction.Other? && GetStale(cfg, After(cfg, calls), req, now).1 == Some(a)
    ensures |req.question| == 1 && exists i :: StaleFrom(cfg, calls, KeyOf(req), i, now, a)
  {
    RecordIsLatest(cfg, calls, KeyOf(req));
    var i :| StoredBy(cfg, calls, KeyOf(req), i, After(cfg, calls).recs[KeyOf(req)].val);
    assert StaleFrom(cfg, calls, KeyOf(req), i, now, a);
  }

  /** The request that the answer was stored under asked for the same thing. */
  lemma AnswersAskedQuestion(len: Lengths, cfg: Config, calls: seq<Call>, req: Msg, i: int)
    requires |req.question| == 1 && LatestSet(cfg, calls, KeyOf(req), i)
    requires Regular(len, IdentityOf(req)) && Regular(len, IdentityOf(calls[i].req))
    ensures IdentityOf(calls[i].req) == IdentityOf(req) && AskTheSame(calls[i].req, req)
  {
    RequestsShareKey(len, calls[i].req, req);
    KeysSeparate(len, calls[i].req, req);
  }

  // ---------- the TTLs of fresh answers ----------

  const WRAP: int := 0x1_0000_0000   // seconds: what a 32-bit TTL cannot hold

  lemma FreshTtlMeets(cfg: Config, expire: int, now: int)
    requires now <= expire < now + WRAP * SECOND
    ensures var ttl := FreshTtl(cfg, expire, now);
      && 1 <= ttl && (cfg.MaxSeconds() > 0 ==> ttl <= cfg.MaxSeconds())
      && now + ttl * SECOND <= expire + SECOND
      && (ttl == 1 || ttl == cfg.MaxSeconds() || now + ttl * SECOND <= expire < now + (ttl + 1) * SECOND)
  {
  }

  /** Exactly: the whole seconds that are left, one at least, the maximum at most. */
  lemma FreshTtlIs(cfg: Config, expire: int, now: int, n: nat)
    requires n * SECOND <= expire - now < (n + 1) * SECOND && n < WRAP && 0 <= cfg.maxTtl < WRAP * SECOND
    ensures FreshTtl(cfg, expire, now) == Capped(if n == 0 then 1 else n, cfg.maxTtl / SECOND)
  {
  }

  /** A stale answer has the configured TTL in whole seconds, within the same limits. */
  lemma StaleTtlIs(cfg: Config, n: nat)
    requires n * SECOND <= cfg.staleAnswerTtl < (n + 1) * SECOND && n < WRAP && 0 <= cfg.maxTtl < WRAP * SECOND
    ensures StaleTtl(cfg) == Capped(if n == 0 then 1 else n, cfg.maxTtl / SECOND)
  {
  }

  function Capped(ttl: int, max: int): int {
    if 0 < max < ttl then max else ttl
  }

  /** An answer is the response that was set: its header, and in each section its records, with
      one TTL in all of them but OPT. */
  lemma FreshSaysResponse(cfg: Config, calls: seq<Call>, key: string, i: int, now: int, a: Msg)
    requires FreshFrom(cfg, calls, key, i, now, a)
    ensures SaysWithTtl(calls[i].resp, FreshTtl(cfg, ExpireOf(cfg, calls[i]), now), a)
  {
    WithTtlIs(calls[i].resp, FreshTtl(cfg, ExpireOf(cfg, calls[i]), now), a);
  }

  lemma StaleSaysResponse(cfg: Config, calls: seq<Call>, key: string, i: int, now: int, a: Msg)
    requires StaleFrom(cfg, calls, key, i, now, a)
    ensures SaysWithTtl(calls[i].resp, StaleTtl(cfg), a)
  {
    WithTtlIs(calls[i].resp, StaleTtl(cfg), a);
  }

  predicate SaysWithTtl(resp: Msg, ttl: U32, a: Msg) {
    SameHeader(resp, a) && TtlsAre(ttl, resp.answer, a.answer) && TtlsAre(ttl, resp.ns, a.ns) && TtlsAre(ttl, resp.extra, a.extra)
  }

  lemma FreshTtlFalls(cfg: Config, expire: int, now: int, later: int)
    requires now <= later <= expire < now + WRAP * SECOND
    ensures FreshTtl(cfg, expire, later) <= FreshTtl(cfg, expire, now)
  {
    assert (expire - later) / SECOND <= (expire - now) / SECOND;
  }

  /** The clock has not run back: every Set was made no later than now. */
  predicate SetsBefore(calls: seq<Call>, now: int) {
    forall i :: 0 <= i < |calls| && calls[i].CallSet? ==> calls[i].now <= now
  }

  lemma LifetimeFits(cfg: Config, resp: Msg)
    requires cfg.ttl < WRAP * SECOND
    ensures Lifetime(cfg, resp) < WRAP * SECOND
  {
  }

  /** Between two Sets of a key the TTLs that Get answers with never rise, in any record,
      however many other operations come in between. */
  lemma TtlsNeverRise(cfg: Config, calls: seq<Call>, more: seq<Call>, req: Msg, now: int, a: Msg, req': Msg, later: int, b: Msg)
    requires !cfg.eviction.Other? && cfg.ttl < WRAP * SECOND && SetsBefore(calls, now) && now <= later
    requires Get(cfg, After(cfg, calls), req, now).1 == Some(a)
    requires Get(cfg, After(cfg, calls + more), req', later).1 == Some(b)
    requires KeyOf(req) == KeyOf(req') && forall i :: 0 <= i < |more| ==> !SetsKey(cfg, more[i], KeyOf(req))
    ensures NoneRises(cfg, a, b)
  {
    GetAnswersLatest(cfg, calls, req, now, a);
    GetAnswersLatest(cfg, calls + more, req', later, b);
    var i :| FreshFrom(cfg, calls, KeyOf(req), i, now, a);
    var j :| FreshFrom(cfg, calls + more, KeyOf(req), j, later, b);
    FreshNeverRise(cfg, calls, more, KeyOf(req), i, now, a, j, later, b);
  }

  /** Record by record, b says the same as a but for TTLs that are no greater, and positive. */
  ghost predicate NoneRises(cfg: Config, a: Msg, b: Msg) {
    && |b.Records()| == |a.Records()|
    && forall n :: 0 <= n < |a.Records()| ==>
         if a.Records()[n].Opt? then b.Records()[n] == a.Records()[n]
         else
           && b.Records()[n].Record? && b.Records()[n].(ttl := 0) == a.Records()[n].(ttl := 0)
           && 1 <= b.Records()[n].ttl <= a.Records()[n].ttl
           && (cfg.MaxSeconds() > 0 ==> a.Records()[n].ttl <= cfg.MaxSeconds())
  }

  lemma FreshNeverRise(cfg: Config, calls: seq<Call>, more: seq<Call>, key: string, i: int, now: int, a: Msg, j: int, later: int, b: Msg)
    requires cfg.ttl < WRAP * SECOND && SetsBefore(calls, now) && now <= later
    requires FreshFrom(cfg, calls, key, i, now, a) && FreshFrom(cfg, calls + more, key, j, later, b)
    requires forall n :: 0 <= n < |more| ==> !SetsKey(cfg, more[n], key)
    ensures NoneRises(cfg, a, b)
  {
    SameSet(cfg, calls, more, key, i, j);
    var expire := ExpireOf(cfg, calls[i]);
    TtlsInOrder(cfg, calls[i].resp, calls[i].now, expire, now, later);
    WithTtlRises(cfg, calls[i].resp, FreshTtl(cfg, expire, now), FreshTtl(cfg, expire, later));
  }

  lemma WithTtlRises(cfg: Config, m: Msg, ttl: U32, ttl': U32)
    requires 1 <= ttl' <= ttl && (cfg.MaxSeconds() > 0 ==> ttl <= cfg.MaxSeconds())
    ensures NoneRises(cfg, WithTtl(m, ttl), WithTtl(m, ttl'))
  {
    MapTtlsRecords(m, _ => ttl);
    MapTtlsRecords(m, _ => ttl');
  }

  lemma TtlsInOrder(cfg: Config, resp: Msg, start: int, expire: int, now: int, later: int)
    requires cfg.ttl < WRAP * SECOND && start <= now <= later <= expire == start + Lifetime(cfg, resp)
    ensures 1 <= FreshTtl(cfg, expire, later) <= FreshTtl(cfg, expire, now)
    ensures cfg.MaxSeconds() > 0 ==> FreshTtl(cfg, expire, now) <= cfg.MaxSeconds()
  {
    LifetimeFits(cfg, resp);
    FreshTtlMeets(cfg, expire, now);
    FreshTtlMeets(cfg, expire, later);
    FreshTtlFalls(cfg, expire, now, later);
  }

  lemma SameSet(cfg: Config, calls: seq<Call>, more: seq<Call>, key: string, i: int, j: int)
    requires LatestSet(cfg, calls, key, i) && LatestSet(cfg, calls + more, key, j)
    requires forall n :: 0 <= n < |more| ==> !SetsKey(cfg, more[n], key)
    ensures i == j && (calls + more)[j] == calls[i]
  {
    var all := calls + more;
    assert forall n :: 0 <= n < |calls| ==> all[n] == calls[n];
    assert forall n :: |calls| <= n < |all| ==> all[n] == more[n - |calls|];
  }

  /** A fresh answer's TTLs are within a second of the end of its lifetime; and when the
      lifetime follows the records, no answer says that a record lives longer than the
      record itself said. */
  lemma AnswersNeverOutlive(cfg: Config, calls: seq<Call>, key: string, i: int, now: int, a: Msg, n: nat)
    requires cfg.ttl < WRAP * SECOND && SetsBefore(calls, now) && FreshFrom(cfg, calls, key, i, now, a)
    requires n < |a.Records()| && a.Records()[n].Record?
    ensures now + a.Records()[n].ttl * SECOND <= ExpireOf(cfg, calls[i]) + SECOND
    ensures n < |calls[i].resp.Records()| && calls[i].resp.Records()[n].Record?
    ensures cfg.ttl <= 0 ==> a.Records()[n].ttl <= calls[i].resp.Records()[n].ttl
  {
    var expire := ExpireOf(cfg, calls[i]);
    TtlWithinLifetime(cfg, calls[i].resp, calls[i].now, expire, now);
    MapTtlsRecords(calls[i].resp, _ => FreshTtl(cfg, expire, now));
  }

  lemma TtlWithinLifetime(cfg: Config, resp: Msg, start: int, expire: int, now: int)
    requires cfg.ttl < WRAP * SECOND && (cfg.ttl <= 0 ==> RecordTtl(resp) >= 1)
    requires start <= now <= expire == start + Lifetime(cfg, resp)
    ensures var ttl := FreshTtl(cfg, expire, now);
      && now + ttl * SECOND <= expire + SECOND
      && (cfg.ttl <= 0 ==> forall n :: 0 <= n < |resp.Records()| && resp.Records()[n].Record? ==> ttl <= resp.Records()[n].ttl)
  {
    LifetimeFits(cfg, resp);
    FreshTtlMeets(cfg, expire, now);
    if cfg.ttl <= 0 {
      var ttl := RecordTtl(resp);
      assert (expire - now) / SECOND <= ttl by { assert expire - now <= ttl * SECOND; }
      assert FreshTtl(cfg, expire, now) <= ttl;
      RecordTtlBound(resp);
    }
  }
}
