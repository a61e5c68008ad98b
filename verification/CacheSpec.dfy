/** The response cache as a value: what each operation does to a map of stamped records.
    The class Cache is proved to refine these functions. */
module CacheSpec {
  import opened GoArith
  import opened Dns
  import opened Ttl
  import opened CacheKey
  import opened Eviction

  /** Durations are in nanoseconds; see the fields of the same names in the program. */
  datatype Config = Config(
    maxBytes: int, ttl: int, eviction: Policy,
    staleMaxAge: int, staleAnswerTtl: int, minTtl: int, maxTtl: int)
  {
    function MinSeconds(): U32 { ToU32(TruncDiv(minTtl, SECOND)) }
    function MaxSeconds(): U32 { ToU32(TruncDiv(maxTtl, SECOND)) }
  }

  /** The defaults that New fills in. */
  function Defaults(c: Config): Config {
    var d := if c.eviction == Other("") then c.(eviction := LRU) else c;
    if d.staleAnswerTtl <= 0 then d.(staleAnswerTtl := 30 * SECOND) else d
  }

  type Cached = State<string, Msg>

  // ---------- the operations ----------

  function Accepts(cfg: Config, req: Msg, resp: Msg): bool {
    |req.question| == 1 && Cacheable(resp) && (cfg.ttl > 0 || RecordTtl(resp) != 0)
  }

  function Lifetime(cfg: Config, resp: Msg): int {
    if cfg.ttl > 0 then cfg.ttl else RecordTtl(resp) * SECOND
  }

  /** What a response is stored as, whatever holds the message. */
  function Stored<M>(cfg: Config, msg: M, resp: Msg, key: string, wireLength: nat, now: int): Value<M> {
    var life := Lifetime(cfg, resp);
    Value(msg, wireLength + |key|, now + life, now + (life + cfg.staleMaxAge))
  }

  /** An eviction policy that the configuration rules out would never make room. */
  ghost predicate CanSet<M>(cfg: Config, s: State<string, M>, req: Msg, resp: Msg, wireLength: nat) {
    Accepts(cfg, req, resp) ==> CanPut(cfg.eviction, cfg.maxBytes, s, KeyOf(req), wireLength + |KeyOf(req)|)
  }

  ghost function Set(cfg: Config, s: Cached, req: Msg, resp: Msg, wireLength: nat, now: int): Cached
    requires CanSet(cfg, s, req, resp, wireLength)
  {
    if !Accepts(cfg, req, resp) then Tick(s)
    else
      var key := KeyOf(req);
      Put(cfg.eviction, cfg.maxBytes, s, key, Stored(cfg, resp, resp, key, wireLength, now))
  }

  lemma SetPuts(cfg: Config, s: Cached, req: Msg, resp: Msg, wireLength: nat, now: int)
    requires CanSet(cfg, s, req, resp, wireLength) && Accepts(cfg, req, resp)
    ensures var key := KeyOf(req);
      && CanPut(cfg.eviction, cfg.maxBytes, s, key, wireLength + |key|)
      && Set(cfg, s, req, resp, wireLength, now)
         == Put(cfg.eviction, cfg.maxBytes, s, key, Stored(cfg, resp, resp, key, wireLength, now))
  {
  }

  /** The TTL of a fresh answer: what remains of the lifetime, in whole seconds, at least
      one and at most the configured maximum. */
  function FreshTtl(cfg: Config, expire: int, now: int): U32
    requires now <= expire
  {
    AnswerTtl(cfg, ToU32((expire - now) / SECOND))
  }

  function StaleTtl(cfg: Config): U32 {
    AnswerTtl(cfg, ToU32(TruncDiv(cfg.staleAnswerTtl, SECOND)))
  }

  function AnswerTtl(cfg: Config, seconds: U32): U32 {
    var atLeastOne := if seconds == 0 then 1 else seconds;
    if cfg.MaxSeconds() > 0 && atLeastOne > cfg.MaxSeconds() then cfg.MaxSeconds() else atLeastOne
  }

  function FreshAnswer(cfg: Config, found: Option<Value<Msg>>, now: int): Option<Msg>
    requires found.Some? ==> now <= found.value.expire
  {
    match found
    case None => None
    case Some(v) => Some(WithTtl(v.msg, FreshTtl(cfg, v.expire, now)))
  }

  function StaleAnswer(cfg: Config, found: Option<Value<Msg>>): Option<Msg> {
    match found
    case None => None
    case Some(v) => Some(WithTtl(v.msg, StaleTtl(cfg)))
  }

  function Get(cfg: Config, s: Cached, req: Msg, now: int): (Cached, Option<Msg>) {
    if |req.question| != 1 then (Tick(s), None)
    else
      var (t, found) := Lookup(s, KeyOf(req), now);
      (t, FreshAnswer(cfg, found, now))
  }

  function GetStale(cfg: Config, s: Cached, req: Msg, now: int): (Cached, Option<Msg>) {
    if |req.question| != 1 || cfg.staleMaxAge <= 0 then (Tick(s), None)
    else
      var (t, found) := LookupStale(s, KeyOf(req), now);
      (t, StaleAnswer(cfg, found))
  }

  function Clear(s: Cached): Cached {
    State(map[], s.clock + 1)
  }
}
