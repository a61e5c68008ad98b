/** Durations in the configuration, and the settings that the cache, the breaker and the
    scheduler rely on. */
module Config {
  import opened GoArith
  import opened Dns
  import opened Strings
  import opened Ttl
  import CacheSpec
  import Eviction

  const HOUR: int := 3600 * SECOND
  const DAY: int := 24 * HOUR

  // ---------- durations with days ----------

  datatype DayForm = DayForm(digits: string, rest: string)

  /** Digits, a 'd', and then nothing or a text that starts with a digit. */
  function MatchDays(s: string): (r: Option<DayForm>)
    ensures r.Some? ==> r.value.rest == "" || IsDigit(r.value.rest[0])
    ensures r.Some? ==> r.value.digits != "" && forall i :: 0 <= i < |r.value.digits| ==> IsDigit(r.value.digits[i])
  {
    var n := DigitCount(s);
    if n == 0 || n == |s| || s[n] != 'd' then None
    else
      var rest := s[n + 1..];
      if rest == "" || (IsDigit(rest[0]) && '\n' !in rest) then Some(DayForm(s[..n], rest)) else None
  }

  /** One way to split the text, if there is one. */
  lemma MatchDaysIs(s: string, digits: string, rest: string)
    ensures MatchDays(s) == Some(DayForm(digits, rest)) <==>
      && s == digits + "d" + rest
      && digits != "" && (forall i :: 0 <= i < |digits| ==> '0' <= digits[i] <= '9')
      && (rest == "" || ('0' <= rest[0] <= '9' && '\n' !in rest))
  {
    var n := DigitCount(s);
    if s == digits + "d" + rest && forall i :: 0 <= i < |digits| ==> '0' <= digits[i] <= '9' {
      assert forall i :: 0 <= i < |digits| ==> s[i] == digits[i];
      assert s[|digits|] == 'd';
      assert n == |digits|;
      assert s[..n] == digits && s[n + 1..] == rest;
    }
    if n < |s| && s[n] == 'd' { assert s == s[..n] + "d" + s[n + 1..]; }
  }

  /** A count of days as nanoseconds, over 64-bit arithmetic and with the overflow test. */
  function DaysChecked(days: nat): Option<int> {
    if days > MAX_INT64 then None
    else
      var dayDur := Wrap64(Wrap64(days * 24) * HOUR);
      if TruncDiv(TruncDiv(dayDur, 24), HOUR) != days then None else Some(dayDur)
  }

  function SumChecked(dayDur: int, rest: int): Option<int> {
    if Wrap64(dayDur + rest) < 0 then None else Some(Wrap64(dayDur + rest))
  }

  /** std is the standard parser: what it accepts, and the nanoseconds it returns. */
  function ParseDuration(std: string -> Option<int>, s: string): Option<int> {
    if std(s).Some? then std(s)
    else
      match MatchDays(s)
      case None => None
      case Some(DayForm(digits, rest)) =>
        match DaysChecked(Atoi(digits))
        case None => None
        case Some(dayDur) =>
          if rest == "" then Some(dayDur)
          else
            match std(rest)
            case None => None
            case Some(r) => SumChecked(dayDur, r)
  }

  /** What the standard parser is known to return for a text that starts with a digit. */
  ghost predicate Standard(std: string -> Option<int>) {
    forall s :: s != "" && IsDigit(s[0]) && std(s).Some? ==> 0 <= std(s).value <= MAX_INT64
  }

  /** Digits are read in base ten: each place counts ten times the next. */
  lemma {:induction false} AtoiIs(digits: string, more: string)
    requires forall i :: 0 <= i < |digits + more| ==> IsDigit((digits + more)[i])
    ensures (forall i :: 0 <= i < |digits| ==> IsDigit(digits[i])) && (forall i :: 0 <= i < |more| ==> IsDigit(more[i]))
    ensures Atoi(digits + more) == Atoi(digits) * Power10(|more|) + Atoi(more)
    ensures |more| == 1 ==> Atoi(more) == more[0] as int - 48
    decreases |more|
  {
    assert forall i :: 0 <= i < |digits| ==> digits[i] == (digits + more)[i];
    assert forall i :: 0 <= i < |more| ==> more[i] == (digits + more)[|digits| + i];
    if more == [] {
      assert digits + more == digits;
    } else {
      var front := more[..|more| - 1];
      assert (digits + more)[..|digits + more| - 1] == digits + front;
      AtoiIs(digits, front);
      TenTimes(Atoi(digits), Power10(|front|));
    }
  }

  lemma TenTimes(a: int, b: int)
    ensures 10 * (a * b) == a * (10 * b)
  {
  }

  function Power10(n: nat): int {
    if n == 0 then 1 else 10 * Power10(n - 1)
  }

  /** What a day form means, in integers without bounds. */
  function Meaning(std: string -> Option<int>, s: string): Option<int> {
    match MatchDays(s)
    case None => None
    case Some(DayForm(digits, rest)) =>
      if rest == "" then Some(Atoi(digits) * DAY)
      else
        match std(rest)
        case None => None
        case Some(r) => Some(Atoi(digits) * DAY + r)
  }

  /** v, if it fits. */
  function Fitting(v: int): Option<int> {
    if v <= MAX_INT64 then Some(v) else None
  }

  /** The first overflow test rejects exactly the day counts that do not fit. */
  lemma DaysAreExact(days: nat)
    ensures DaysChecked(days) == Fitting(days * DAY)
  {
    var dayDur := Wrap64(Wrap64(days * 24) * HOUR);
    assert InInt64(dayDur);
    if days * DAY <= MAX_INT64 {
      assert Wrap64(days * 24) == days * 24;
      assert dayDur == days * 24 * HOUR;
      assert TruncDiv(dayDur, 24) == days * HOUR;
    } else {
      assert TruncDiv(TruncDiv(dayDur, 24), HOUR) <= 106751;
    }
  }

  /** A day has 86400 seconds, and 106751 days are the most that fit. */
  lemma MostDays(days: nat)
    ensures DaysChecked(days) == if days <= 106_751 then Some(days * 86_400_000_000_000) else None
  {
    DaysAreExact(days);
  }

  /** The second overflow test: with neither part negative, a sum that does not fit comes out
      negative. */
  lemma SumIsExact(a: int, b: int)
    requires 0 <= a <= MAX_INT64 && 0 <= b <= MAX_INT64
    ensures SumChecked(a, b) == Fitting(a + b)
  {
  }

  /** What the standard parser accepts is its business.  Any other text either fails to parse or
      means exactly what is returned; and it fails only when it has no meaning or the meaning does
      not fit. */
  lemma ParseDurationIsExact(std: string -> Option<int>, s: string)
    requires Standard(std)
    ensures std(s).Some? ==> ParseDuration(std, s) == std(s)
    ensures std(s).None? && Meaning(std, s).None? ==> ParseDuration(std, s).None?
    ensures std(s).None? && Meaning(std, s).Some? ==> ParseDuration(std, s) == Fitting(Meaning(std, s).value)
  {
    if std(s).None? && MatchDays(s).Some? { DayFormIsExact(std, s, MatchDays(s).value.digits, MatchDays(s).value.rest); }
  }

  lemma DayFormIsExact(std: string -> Option<int>, s: string, digits: string, rest: string)
    requires Standard(std) && std(s).None? && MatchDays(s) == Some(DayForm(digits, rest))
    ensures Meaning(std, s).None? ==> ParseDuration(std, s).None?
    ensures Meaning(std, s).Some? ==> ParseDuration(std, s) == Fitting(Meaning(std, s).value)
  {
    var days := Atoi(digits);
    DaysAreExact(days);
    if rest != "" && std(rest).Some? { RestIsExact(days * DAY, std(rest).value); }
  }

  lemma RestIsExact(day: nat, rest: int)
    requires 0 <= rest <= MAX_INT64
    ensures Fitting(day).None? ==> Fitting(day + rest).None?
    ensures Fitting(day).Some? ==> SumChecked(day, rest) == Fitting(day + rest)
  {
    if day <= MAX_INT64 { SumIsExact(day, rest); }
  }

  // ---------- settings ----------

  predicate IsPolicy(name: string) {
    name == "fifo" || name == "lru" || name == "lfu"
  }

  predicate IsMode(name: string) {
    name == "fastest" || name == "weighted"
  }

  function PolicyOf(name: string): Eviction.Policy {
    if name == "fifo" then Eviction.FIFO
    else if name == "lru" then Eviction.LRU
    else if name == "lfu" then Eviction.LFU
    else Eviction.Other(name)
  }

  predicate WeightsOk(weights: map<string, int>) {
    forall n :: n in weights ==> n != "" && 1 <= weights[n] <= 100
  }

  /** The settings that reach the cache, the race, the breaker and the scheduler.  Durations
      are in nanoseconds; cacheTtl None is a setting left out. */
  class Config {
    var probeTimeout: int
    var cacheSizeBytes: int
    var cacheTtl: Option<int>
    var cacheEviction: string
    var cacheStaleMaxAge: int
    var cacheStaleAnswerTtl: int
    var ttlMin: int
    var ttlMax: int
    var upstreamMode: string
    var upstreamWeights: map<string, int>
    var raceWindow: int
    var breakerFailThreshold: int
    var breakerCooldown: int

    constructor (probeTimeout: int, cacheSizeBytes: int, cacheTtl: Option<int>, cacheEviction: string, cacheStaleMaxAge: int,
        cacheStaleAnswerTtl: int, ttlMin: int, ttlMax: int, upstreamMode: string, upstreamWeights: map<string, int>,
        raceWindow: int, breakerFailThreshold: int, breakerCooldown: int)
    {
      this.probeTimeout, this.cacheSizeBytes, this.cacheTtl, this.cacheEviction := probeTimeout, cacheSizeBytes, cacheTtl, cacheEviction;
      this.cacheStaleMaxAge, this.cacheStaleAnswerTtl, this.ttlMin, this.ttlMax := cacheStaleMaxAge, cacheStaleAnswerTtl, ttlMin, ttlMax;
      this.upstreamMode, this.upstreamWeights, this.raceWindow := upstreamMode, upstreamWeights, raceWindow;
      this.breakerFailThreshold, this.breakerCooldown := breakerFailThreshold, breakerCooldown;
    }

    /** What normalize rejects nothing of. */
    predicate Acceptable()
      reads this
    {
      && (cacheEviction == "" || IsPolicy(cacheEviction))
      && ttlMin >= 0 && ttlMax >= 0 && !(ttlMin > 0 && ttlMax > 0 && ttlMin > ttlMax)
      && (upstreamMode == "" || IsMode(upstreamMode))
      && breakerFailThreshold >= 0 && breakerCooldown >= 0
      && WeightsOk(upstreamWeights)
    }

    /** What the rest of the program may rely on. */
    predicate Normalized()
      reads this
    {
      && Acceptable() && probeTimeout > 0 && cacheSizeBytes > 0 && cacheTtl.Some? && cacheEviction != "" && upstreamMode != ""
      && raceWindow > 0 && (breakerFailThreshold > 0 ==> breakerCooldown > 0)
    }

    /** The part of normalize about these settings. */
    method Normalize() returns (ok: bool)
      modifies `probeTimeout, `cacheSizeBytes, `cacheTtl, `cacheEviction, `upstreamMode, `raceWindow, `breakerCooldown
      ensures ok <==> old(Acceptable())
      ensures ok ==> probeTimeout == if old(probeTimeout) > 0 then old(probeTimeout) else 3_000_000_000
      ensures ok ==> cacheSizeBytes == if old(cacheSizeBytes) > 0 then old(cacheSizeBytes) else 67_108_864
      ensures ok && old(cacheTtl).None? ==> cacheTtl == Some(1_800_000_000_000)
      ensures ok ==> raceWindow == if old(raceWindow) > 0 then old(raceWindow) else 50_000_000
      ensures ok && old(cacheEviction) == "" ==> cacheEviction == "lru"
      ensures ok ==> upstreamMode == if old(upstreamMode) == "" then "fastest" else old(upstreamMode)
      ensures ok ==> Normalized()
      ensures old(Normalized()) ==> unchanged(this)
      ensures ok && old(cacheTtl).Some? ==> cacheTtl == old(cacheTtl)
      ensures ok && old(cacheEviction) != "" ==> cacheEviction == old(cacheEviction)
      ensures ok && breakerFailThreshold > 0 && old(breakerCooldown) == 0 ==> breakerCooldown == 30 * SECOND
      ensures ok && (breakerFailThreshold == 0 || old(breakerCooldown) > 0) ==> breakerCooldown == old(breakerCooldown)
    {
      FillIn();
      ok := NormalizeEviction();
      if !ok { return; }
      if ttlMin < 0 || ttlMax < 0 { return false; }
      if ttlMin > 0 && ttlMax > 0 && ttlMin > ttlMax { return false; }
      ok := NormalizeRace();
    }

    /** The mode, the breaker and the weights. */
    method NormalizeRace() returns (ok: bool)
      modifies `upstreamMode, `breakerCooldown
      ensures ok <==>
        && (old(upstreamMode) == "" || IsMode(old(upstreamMode)))
        && breakerFailThreshold >= 0 && old(breakerCooldown) >= 0 && WeightsOk(upstreamWeights)
      ensures upstreamMode == if old(upstreamMode) == "" then "fastest" else old(upstreamMode)
      ensures ok ==> breakerCooldown == if breakerFailThreshold > 0 && old(breakerCooldown) == 0 then 30 * SECOND else old(breakerCooldown)
    {
      ok := NormalizeMode();
      if !ok { return; }
      ok := NormalizeBreaker();
      if !ok { return; }
      ok := CheckWeights(upstreamWeights);
    }

    /** Defaults that no check depends on. */
    method FillIn()
      modifies `probeTimeout, `cacheSizeBytes, `cacheTtl, `raceWindow
      ensures probeTimeout == if old(probeTimeout) <= 0 then 3 * SECOND else old(probeTimeout)
      ensures cacheSizeBytes == if old(cacheSizeBytes) <= 0 then 64 * 1024 * 1024 else old(cacheSizeBytes)
      ensures cacheTtl == if old(cacheTtl).None? then Some(1800 * SECOND) else old(cacheTtl)
      ensures raceWindow == if old(raceWindow) <= 0 then 50_000_000 else old(raceWindow)
    {
      if probeTimeout <= 0 { probeTimeout := 3 * SECOND; }
      if cacheSizeBytes <= 0 { cacheSizeBytes := 64 * 1024 * 1024; }
      if cacheTtl.None? { cacheTtl := Some(1800 * SECOND); }
      if raceWindow <= 0 { raceWindow := 50_000_000; }
    }

    method NormalizeEviction() returns (ok: bool)
      modifies `cacheEviction
      ensures cacheEviction == if old(cacheEviction) == "" then "lru" else old(cacheEviction)
      ensures ok <==> IsPolicy(cacheEviction)
    {
      if cacheEviction == "" { cacheEviction := "lru"; }
      ok := IsPolicy(cacheEviction);
    }

    method NormalizeMode() returns (ok: bool)
      modifies `upstreamMode
      ensures upstreamMode == if old(upstreamMode) == "" then "fastest" else old(upstreamMode)
      ensures ok <==> IsMode(upstreamMode)
    {
      if upstreamMode == "" { upstreamMode := "fastest"; }
      ok := IsMode(upstreamMode);
    }

    method NormalizeBreaker() returns (ok: bool)
      modifies `breakerCooldown
      ensures ok <==> breakerFailThreshold >= 0 && old(breakerCooldown) >= 0
      ensures breakerCooldown == if ok && breakerFailThreshold > 0 && old(breakerCooldown) == 0 then 30 * SECOND else old(breakerCooldown)
    {
      if breakerFailThreshold < 0 { return false; }
      if breakerCooldown < 0 { return false; }
      if breakerFailThreshold > 0 && breakerCooldown == 0 { breakerCooldown := 30 * SECOND; }
      ok := true;
    }

    /** The configuration that the scheduler gives the cache. */
    function CacheConfig(): CacheSpec.Config
      requires cacheTtl.Some?
      reads this
    {
      CacheSpec.Config(cacheSizeBytes, cacheTtl.value, PolicyOf(cacheEviction), cacheStaleMaxAge, cacheStaleAnswerTtl, ttlMin, ttlMax)
    }
  }

  method CheckWeights(weights: map<string, int>) returns (ok: bool)
    ensures ok <==> WeightsOk(weights)
  {
    var rest := weights.Keys;
    while rest != {}
      invariant rest <= weights.Keys
      invariant forall n :: n in weights && n !in rest ==> n != "" && 1 <= weights[n] <= 100
      decreases |rest|
    {
      var name :| name in rest;
      if name == "" { return false; }
      if weights[name] < 1 || weights[name] > 100 { return false; }
      rest := rest - {name};
    }
    ok := true;
  }

  /** What is accepted, setting by setting. */
  lemma AcceptableIs(c: Config)
    ensures c.Acceptable() <==>
      && c.cacheEviction in {"", "fifo", "lru", "lfu"} && c.upstreamMode in {"", "fastest", "weighted"}
      && 0 <= c.ttlMin && 0 <= c.ttlMax && (c.ttlMin == 0 || c.ttlMax == 0 || c.ttlMin <= c.ttlMax)
      && 0 <= c.breakerFailThreshold && 0 <= c.breakerCooldown
      && "" !in c.upstreamWeights && forall n :: n in c.upstreamWeights ==> 1 <= c.upstreamWeights[n] <= 100
  {
  }

  // ---------- what normalized settings guarantee ----------

  /** The cache has a policy that makes room, and its bounds in whole seconds are ordered as
      the settings are: below 2^32 seconds dropping the fractions cannot cross them. */
  lemma CacheGetsSoundBounds(c: Config)
    requires c.Normalized() && c.ttlMin < 0x1_0000_0000 * SECOND && c.ttlMax < 0x1_0000_0000 * SECOND
    ensures var cfg := CacheSpec.Defaults(c.CacheConfig());
      && !cfg.eviction.Other? && cfg.maxBytes == c.cacheSizeBytes > 0 && c.cacheTtl == Some(cfg.ttl)
      && (cfg.eviction.FIFO? <==> c.cacheEviction == "fifo")
      && (cfg.eviction.LRU? <==> c.cacheEviction == "lru")
      && (cfg.eviction.LFU? <==> c.cacheEviction == "lfu")
      && cfg.staleMaxAge == c.cacheStaleMaxAge
      && cfg.staleAnswerTtl == (if c.cacheStaleAnswerTtl > 0 then c.cacheStaleAnswerTtl else 30_000_000_000)
      && cfg.MinSeconds() == c.ttlMin / SECOND && cfg.MaxSeconds() == c.ttlMax / SECOND
      && (cfg.MinSeconds() > 0 && c.ttlMax > 0 ==> cfg.MaxSeconds() > 0)
      && (cfg.MinSeconds() > 0 && cfg.MaxSeconds() > 0 ==> cfg.MinSeconds() <= cfg.MaxSeconds())
  {
    assert c.ttlMax > 0 ==> c.ttlMin / SECOND <= c.ttlMax / SECOND;
  }

  /** So clamping meets the bounds for every response, and what is then stored lives within
      them too when lifetimes follow the records: apart from SERVFAIL, which is capped at 30
      seconds there. */
  lemma ResponsesMeetBounds(c: Config, m: Msg, i: nat)
    requires c.Normalized() && c.ttlMin < 0x1_0000_0000 * SECOND && c.ttlMax < 0x1_0000_0000 * SECOND
    requires i < |m.Records()| && m.Records()[i].Record?
    ensures var cfg := CacheSpec.Defaults(c.CacheConfig());
      var clamped := ClampMsg(cfg.MinSeconds(), cfg.MaxSeconds(), m);
      && |clamped.Records()| == |m.Records()| && clamped.Records()[i].Record?
      && c.ttlMin / SECOND <= clamped.Records()[i].ttl
      && (c.ttlMax >= SECOND ==> clamped.Records()[i].ttl <= c.ttlMax / SECOND)
      && (cfg.ttl <= 0 && RecordTtl(clamped) > 0 ==>
            && (c.ttlMax >= SECOND ==> CacheSpec.Lifetime(cfg, clamped) <= c.ttlMax)
            && (m.rcode != RCODE_SERVER_FAILURE ==> c.ttlMin / SECOND * SECOND <= CacheSpec.Lifetime(cfg, clamped))
            && (m.rcode == RCODE_SERVER_FAILURE ==> CacheSpec.Lifetime(cfg, clamped) <= 30 * SECOND))
  {
    var cfg := CacheSpec.Defaults(c.CacheConfig());
    CacheGetsSoundBounds(c);
    ClampMeetsBounds(cfg.MinSeconds(), cfg.MaxSeconds(), m);
    ClampedLifetime(cfg.MinSeconds(), cfg.MaxSeconds(), m);
  }

  /** The cap is gone with a fixed lifetime: a failure is then kept as long as any answer. */
  lemma FixedLifetimeHasNoCap(cfg: CacheSpec.Config, m: Msg)
    requires m.rcode == RCODE_SERVER_FAILURE
    ensures CacheSpec.Lifetime(cfg, m) <= 30 * SECOND <==> cfg.ttl <= 30 * SECOND
  {
    RecordTtlBound(m);
  }
}
