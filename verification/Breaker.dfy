/** The circuit breaker beside a race: per member, a count of consecutive failures and the
    time since which the member is shut out.  Both are proved to be functions of the
    reports made so far. */
module Breaker {
  import opened GoArith

  datatype Report = Report(failed: bool, at: int)

  /** openedAt None is the program's zero time. */
  datatype MemberState = MemberState(consecutive: nat, openedAt: Option<int>)

  // ---------- what the reports say ----------

  /** How many of the last reports failed in a row. */
  function TrailingFailures(log: seq<Report>): (n: nat)
    ensures n <= |log|
  {
    if log == [] || !log[|log| - 1].failed then 0 else 1 + TrailingFailures(log[..|log| - 1])
  }

  lemma {:induction false} TrailingFailuresIsLongest(log: seq<Report>, n: nat)
    ensures n == TrailingFailures(log) <==>
      && n <= |log|
      && (forall i :: |log| - n <= i < |log| ==> log[i].failed)
      && (n < |log| ==> !log[|log| - 1 - n].failed)
  {
    if log != [] && log[|log| - 1].failed {
      var front := log[..|log| - 1];
      TrailingFailuresIsLongest(front, TrailingFailures(front));
      if n > 0 {
        TrailingFailuresIsLongest(front, n - 1);
        assert n - 1 < |front| ==> front[|front| - 1 - (n - 1)] == log[|log| - 1 - n];
        assert forall i :: 0 <= i < |front| ==> front[i] == log[i];
      }
    }
  }

  predicate Open(threshold: int, log: seq<Report>) {
    TrailingFailures(log) >= 1 && TrailingFailures(log) >= threshold
  }

  function StateOf(threshold: int, log: seq<Report>): MemberState {
    MemberState(TrailingFailures(log), if Open(threshold, log) then Some(log[|log| - 1].at) else None)
  }

  /** Shut out: the failures reached the threshold, and the last one is recent. */
  predicate Excluded(threshold: int, cooldown: int, log: seq<Report>, now: int) {
    Open(threshold, log) && now - log[|log| - 1].at < cooldown
  }

  /** The breaker opens with the failure that brings the threshold, and the member is shut out
      from then on for the cooldown: exactly when its last reports, as many as the threshold,
      all failed and the last of them is recent. */
  lemma OpensAtThreshold(threshold: int, cooldown: int, log: seq<Report>, now: int)
    requires threshold >= 1
    ensures StateOf(threshold, log).consecutive == TrailingFailures(log)
    ensures StateOf(threshold, log).openedAt.Some? <==> TrailingFailures(log) >= threshold
    ensures TrailingFailures(log) >= threshold ==> log != [] && StateOf(threshold, log).openedAt == Some(log[|log| - 1].at)
    ensures Excluded(threshold, cooldown, log, now) <==>
      && |log| >= threshold
      && (forall i :: |log| - threshold <= i < |log| ==> log[i].failed)
      && now - log[|log| - 1].at < cooldown
  {
    var n := TrailingFailures(log);
    TrailingFailuresIsLongest(log, n);
    if |log| >= threshold && n < threshold { assert !log[|log| - 1 - n].failed; }
  }

  /** When the cooldown is over every caller is let in, at any later time and however often
      it asks, until the next report: there is no single half-open probe. */
  lemma CooldownAdmitsEveryone(threshold: int, cooldown: int, log: seq<Report>, now: int)
    requires Open(threshold, log) && cooldown >= 0
    ensures Excluded(threshold, cooldown, log, now) <==> now < log[|log| - 1].at + cooldown
    ensures !Excluded(threshold, cooldown, log, now) ==> forall t :: t >= now ==> !Excluded(threshold, cooldown, log, t)
  {
  }

  /** One failure after the cooldown shuts the member out again at once; one success lets
      it in for as long as fewer failures than the threshold follow. */
  lemma NextReportDecides(threshold: int, cooldown: int, log: seq<Report>, r: Report, now: int)
    ensures r.failed && Open(threshold, log) ==>
      (Excluded(threshold, cooldown, log + [r], now) <==> now - r.at < cooldown)
    ensures !r.failed ==> StateOf(threshold, log + [r]) == MemberState(0, None)
  {
    assert (log + [r])[..|log|] == log;
  }

  lemma {:induction false} SuccessForgives(threshold: int, cooldown: int, log: seq<Report>, r: Report, more: seq<Report>, now: int)
    requires !r.failed && |more| < threshold
    ensures !Excluded(threshold, cooldown, log + [r] + more, now)
  {
    var all := log + [r] + more;
    TrailingFailuresIsLongest(all, TrailingFailures(all));
    assert all[|log|] == r;
  }

  /** Failures reported to the breaker are errors; a reply without a response and without
      an error is not one.  A member that only ever does that is never shut out. */
  lemma {:induction false} EmptyRepliesNeverOpen(threshold: int, cooldown: int, log: seq<Report>, now: int)
    requires forall i :: 0 <= i < |log| ==> !log[i].failed
    ensures !Excluded(threshold, cooldown, log, now)
  {
    TrailingFailuresIsLongest(log, 0);
  }

  class Breaker {
    const failThreshold: int
    const cooldown: int
    var states: seq<MemberState>
    ghost var logs: seq<seq<Report>>   // per member, every report so far

    constructor (n: nat, failThreshold: int, cooldown: int)
      ensures Valid() && logs == seq(n, _ => []) && this.failThreshold == failThreshold && this.cooldown == cooldown
    {
      this.failThreshold, this.cooldown := failThreshold, cooldown;
      states := seq(n, _ => MemberState(0, None));
      logs := seq(n, _ => []);
    }

    ghost predicate Valid()
      reads this
    {
      |states| == |logs| && forall i :: 0 <= i < |logs| ==> states[i] == StateOf(failThreshold, logs[i])
    }

    /** now is the clock, read when the failure is counted. */
    method ReportResult(i: int, failed: bool, now: int)
      requires Valid()
      modifies this
      ensures Valid()
      ensures logs == if 0 <= i < |old(logs)| then old(logs)[i := old(logs)[i] + [Report(failed, now)]] else old(logs)
    {
      if i < 0 || i >= |states| { return; }
      ghost var log := logs[i] + [Report(failed, now)];
      assert log[..|logs[i]|] == logs[i];
      logs := logs[i := log];
      var st := states[i];
      if !failed {
        if st.openedAt.None? && st.consecutive == 0 { return; }
        states := states[i := MemberState(0, None)];
        return;
      }
      states := states[i := states[i].(consecutive := st.consecutive + 1)];
      if states[i].consecutive >= failThreshold {
        states := states[i := states[i].(openedAt := Some(now))];
      }
    }

    predicate OpenNow(i: nat, now: int)
      requires i < |states|
      reads this
    {
      states[i].openedAt.Some? && now - states[i].openedAt.value < cooldown
    }

    /** The members that take part: exactly those not shut out, in ascending order. */
    method Pick(n: nat, now: int) returns (idx: seq<nat>)
      requires Valid() && n <= |logs|
      ensures forall i: nat :: i in idx <==> i < n && !Excluded(failThreshold, cooldown, logs[i], now)
      ensures forall j, k :: 0 <= j < k < |idx| ==> idx[j] < idx[k]
    {
      idx := [];
      for i := 0 to n
        invariant forall j: nat :: j in idx <==> j < i && !Excluded(failThreshold, cooldown, logs[j], now)
        invariant forall j, k :: 0 <= j < k < |idx| ==> idx[j] < idx[k]
      {
        assert idx != [] ==> idx[|idx| - 1] in idx;
        assert forall j :: 0 <= j < |idx| ==> idx[j] in idx;
        if OpenNow(i, now) { continue; }
        idx := idx + [i];
      }
    }
  }
}
