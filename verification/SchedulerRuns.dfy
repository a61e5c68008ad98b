/** Any sequence of events in the life of a scheduler: rounds with any outcome, the passing of
    time, delayed closes, requests, and its retirement. */
module SchedulerRuns {
  import opened GoArith
  import opened Lifecycle
  import S = Scheduler

  datatype Event =
    | Round
    | Pass(time: int)
    | Fire(upstream: nat)
    | Load(at: int)
    | Retire(delay: int)
    | EndLoop
    | CloseAll

  /** The record of all upstreams at one time, and those that are live. */
  datatype Record = Record(ups: Upstreams, live: set<nat>)

  /** If retirement has been asked for, it left the span of a request. */
  predicate Patient(s: S.Scheduler)
    reads s
  {
    s.asked.Some? ==> s.grace >= 2 * s.probeTimeout
  }

  /** An event that cannot happen now does not. */
  method Perform(s: S.Scheduler, e: Event)
    requires s.Valid()
    modifies s
    ensures s.Valid() && Grows(old(s.ups), s.ups)
    ensures Patient(s) ==> old(Patient(s)) && (old(s.Safe()) ==> s.Safe())
  {
    match e {
      case Round => TryRound(s);
      case Fire(u) => TryFire(s, u);
      case Load(at) => TryLoad(s, at);
      case CloseAll => TryCloseAll(s);
      case _ => TryRest(s, e);
    }
    assert Grows(s.ups, s.ups);
  }

  /** The events that touch no upstream. */
  method TryRest(s: S.Scheduler, e: Event)
    requires s.Valid()
    modifies s`now, s`asked, s`grace, s`ended
    ensures s.Valid() && (Patient(s) ==> old(Patient(s)) && (old(s.Safe()) ==> s.Safe()))
  {
    match e {
      case Pass(time) => if s.now <= time { s.Advance(time); }
      case Retire(delay) => if s.asked.None? { s.Retire(delay); }
      case EndLoop => if s.asked.Some? && s.ended.None? && !s.over { s.EndLoop(); }
      case _ =>
    }
  }

  method TryFire(s: S.Scheduler, u: nat)
    requires s.Valid()
    modifies s`ups
    ensures s.Valid() && Grows(old(s.ups), s.ups) && (old(s.Safe()) ==> s.Safe())
  {
    if u in s.ups.timers && s.ups.timers[u] <= s.now { s.Fire(u); }
  }

  method TryRound(s: S.Scheduler)
    requires s.Valid()
    modifies s`ups, s`live, s`signature, s`current, s`addrs
    ensures s.Valid() && Grows(old(s.ups), s.ups) && (old(s.Safe()) ==> s.Safe())
  {
    if s.ended.None? && !s.over { var probes, selected := s.ProbeAndSelect(); }
  }

  method TryLoad(s: S.Scheduler, at: int)
    requires s.Valid()
    modifies s`requests
    ensures s.Valid() && (Patient(s) && old(s.Safe()) ==> s.Safe())
  {
    if at <= s.now && (s.asked.Some? ==> at <= s.asked.value) { var members := s.CurrentConfig(at); }
  }

  method TryCloseAll(s: S.Scheduler)
    requires s.Valid()
    modifies s`ups, s`live, s`over
    ensures s.Valid() && Grows(old(s.ups), s.ups) && (Patient(s) && old(s.Safe()) ==> s.Safe())
  {
    if s.ended.Some? && !s.over && s.Due() <= s.now { s.CloseAllLive(); }
  }

  /** From a to a later record b: what was closed is closed, still once; what was not live is
      not live. */
  ghost predicate NoReturn(a: Record, b: Record) {
    && |a.ups.closes| <= |b.ups.closes|
    && forall u :: 0 <= u < |a.ups.closes| ==>
         && a.ups.closes[u] <= b.ups.closes[u] <= 1
         && (u !in a.live ==> u !in b.live)
         && (b.ups.closes[u] == 1 ==> u !in b.live && u !in b.ups.timers)
  }

  lemma RecordsNoReturn(a: Record, b: Record)
    requires Placed(a.ups, a.live, {}) && Placed(b.ups, b.live, {}) && Grows(a.ups, b.ups)
    ensures NoReturn(a, b)
  {
    NoneComesBack(a.ups, a.live, b.ups, b.live);
    forall u | 0 <= u < |b.ups.closes|
      ensures b.ups.closes[u] <= 1 && (b.ups.closes[u] == 1 ==> u !in b.live && u !in b.ups.timers)
    {
      assert InOnePlace(b.ups, b.live, {}, u);
    }
  }

  /** The records of a run, each with all upstreams in their places, and growing. */
  ghost predicate Chain(records: seq<Record>) {
    && (forall i :: 0 <= i < |records| ==> Placed(records[i].ups, records[i].live, {}))
    && (forall i, j :: 0 <= i <= j < |records| ==> Grows(records[i].ups, records[j].ups))
  }

  lemma ChainOneMore(records: seq<Record>, r: Record)
    requires Chain(records) && records != [] && Placed(r.ups, r.live, {}) && Grows(records[|records| - 1].ups, r.ups)
    ensures Chain(records + [r])
  {
    var more := records + [r];
    forall i, j | 0 <= i <= j < |more| ensures Grows(more[i].ups, more[j].ups) {
      if i < |records| == j { GrowsOn(records[i].ups, records[|records| - 1].ups, r.ups); }
    }
  }

  /** Over any run every upstream is at any time in exactly one place, none is closed twice, and
      none comes back; and if the retirement was patient, or has not come, no request has been or
      will be cut short. */
  method Replay(s: S.Scheduler, events: seq<Event>) returns (ghost records: seq<Record>)
    requires s.Valid() && s.Safe()
    modifies s
    ensures s.Valid() && (Patient(s) ==> s.Safe())
    ensures |records| == |events| + 1
    ensures records[0] == Record(old(s.ups), old(s.live.Values)) && records[|events|] == Record(s.ups, s.live.Values)
    ensures forall i :: 0 <= i < |records| ==> Placed(records[i].ups, records[i].live, {})
    ensures forall i, j :: 0 <= i <= j < |records| ==> NoReturn(records[i], records[j])
  {
    records := [Record(s.ups, s.live.Values)];
    for k := 0 to |events|
      invariant s.Valid() && (Patient(s) ==> s.Safe())
      invariant |records| == k + 1 && records[0] == Record(old(s.ups), old(s.live.Values))
      invariant records[k] == Record(s.ups, s.live.Values) && Chain(records)
    {
      Perform(s, events[k]);
      ChainOneMore(records, Record(s.ups, s.live.Values));
      records := records + [Record(s.ups, s.live.Values)];
    }
    forall i, j | 0 <= i <= j < |records| ensures NoReturn(records[i], records[j]) {
      RecordsNoReturn(records[i], records[j]);
    }
  }
}
