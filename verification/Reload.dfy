/** A reload of the configuration: the new scheduler takes over once its first round has found
    upstreams, and the old one retires. */
module Reload {
  import opened GoArith
  import opened Lifecycle
  import S = Scheduler

  class Handler {
    var sched: S.Scheduler

    constructor (s: S.Scheduler)
      ensures sched == s
    {
      sched := s;
    }

    method Swap(s: S.Scheduler) returns (was: S.Scheduler)
      modifies this
      ensures sched == s && was == old(sched)
    {
      was := sched;
      sched := s;
    }
  }

  /** next has been through its first round.  The old scheduler's upstreams stay open for the
      span of the new one's requests, not of its own. */
  method ReloadTo(h: Handler, next: S.Scheduler)
    requires h.sched != next && h.sched.Valid() && next.Valid() && h.sched.asked.None? && next.asked.None?
    modifies h, h.sched`asked, h.sched`grace, next`asked, next`grace
    ensures old(h.sched).Valid() && next.Valid()
    ensures old(h.sched.Safe()) ==> old(h.sched).Safe()
    ensures next.current.None? ==>
      h.sched == old(h.sched) && h.sched.asked.None? && next.asked == Some(next.now) && next.grace == 0
    ensures next.current.Some? ==>
      && h.sched == next && next.asked.None?
      && old(h.sched).asked == Some(old(h.sched).now) && old(h.sched).grace == 2 * next.probeTimeout
  {
    if next.current.None? {
      next.Retire(0);
      return;
    }
    var was := h.Swap(next);
    was.Retire(2 * next.probeTimeout);
  }

  /** When the loop of the old scheduler ends at once: whatever late requests still come and
      whenever its upstreams are then closed, nobody is cut short, exactly when the new timeout
      is no shorter than the old one, or nothing is live. */
  lemma ReloadIsSafeIff(was: S.Scheduler, next: S.Scheduler)
    requires was.Valid() && was.Safe() && was.asked == was.ended == Some(was.now)
    requires was.grace == 2 * next.probeTimeout && next.probeTimeout >= 0
    ensures EveryCloseIsSafe(was.ups, was.live.Values, was.requests, was.now, was.Due(), 2 * was.probeTimeout)
      <==> was.live == map[] || next.probeTimeout >= was.probeTimeout
  {
    was.RetirementIsSafeIff();
  }

  /** The end of a retired scheduler, whatever its grace: no upstream is left live, each has been
      closed once or still has its delayed close; and requests stay safe exactly when those that
      use something live have run out of time by then. */
  method CloseRetired(s: S.Scheduler, time: int)
    requires s.Valid() && !s.over && s.ended.Some? && s.Due() <= time && s.now <= time
    modifies s
    ensures s.Valid() && s.over && s.live == map[] && s.requests == old(s.requests) && Grows(old(s.ups), s.ups)
    ensures forall u :: 0 <= u < |s.ups.closes| ==> s.ups.closes[u] == if u in s.ups.timers then 0 else 1
    ensures s.Safe() <==> old(s.Safe()) && LiveUseOver(old(s.live.Values), s.requests, 2 * s.probeTimeout, time)
  {
    s.Advance(time);
    s.CloseAllLive();
    assert s.live.Values == {};
    forall u | 0 <= u < |s.ups.closes| ensures s.ups.closes[u] == if u in s.ups.timers then 0 else 1 {
      assert InOnePlace(s.ups, s.live.Values, {}, u);
    }
  }
}
