/** Where an upstream is in its life.  Upstreams are numbered in the order in which they are
    made; each is live, or waits for its delayed close, or is closed, or is for the moment
    held by a probe round that made it. */
module Lifecycle {
  /** closes[u] counts the calls of Close on u, and closedAt[u] is the time of the last.
      timers holds the delayed closes and when they are due. */
  datatype Upstreams = Upstreams(closes: seq<nat>, closedAt: seq<int>, timers: map<nat, int>)

  predicate Exists(ups: Upstreams, u: nat) {
    u < |ups.closes| == |ups.closedAt|
  }

  ghost predicate InOnePlace(ups: Upstreams, live: set<nat>, held: set<nat>, u: nat)
    requires Exists(ups, u)
  {
    ups.closes[u] + (if u in live then 1 else 0) + (if u in ups.timers then 1 else 0) + (if u in held then 1 else 0) == 1
  }

  /** Every upstream ever made is in exactly one place, and is closed once at most. */
  ghost predicate Placed(ups: Upstreams, live: set<nat>, held: set<nat>) {
    && |ups.closes| == |ups.closedAt|
    && (forall u :: u in live ==> Exists(ups, u))
    && (forall u :: u in held ==> Exists(ups, u))
    && (forall u :: u in ups.timers ==> Exists(ups, u))
    && (forall u :: 0 <= u < |ups.closes| ==> InOnePlace(ups, live, held, u))
  }

  /** What is closed was closed by now. */
  ghost predicate Past(ups: Upstreams, now: int) {
    forall u :: 0 <= u < |ups.closes| == |ups.closedAt| && ups.closes[u] >= 1 ==> ups.closedAt[u] <= now
  }

  lemma LiveIsOpen(ups: Upstreams, live: set<nat>, held: set<nat>)
    requires Placed(ups, live, held)
    ensures forall u :: u in live ==> u !in held && u !in ups.timers && ups.closes[u] == 0
  {
    forall u | u in live ensures u !in held && u !in ups.timers && ups.closes[u] == 0 {
      assert InOnePlace(ups, live, held, u);
    }
  }

  // ---------- how the record grows ----------

  /** b is a later record than a: nothing that was made is forgotten, no close is undone or
      repeated at another time, and a delayed close still waits for its time or took place
      no sooner. */
  ghost predicate Grows(a: Upstreams, b: Upstreams) {
    && |a.closes| == |a.closedAt| <= |b.closes| == |b.closedAt|
    && (forall u :: 0 <= u < |a.closes| ==> a.closes[u] <= b.closes[u] && (a.closes[u] >= 1 ==> b.closedAt[u] == a.closedAt[u]))
    && (forall u :: u in a.timers ==> Delayed(b, u, a.timers[u]))
  }

  predicate Delayed(ups: Upstreams, u: nat, due: int) {
    (u in ups.timers && ups.timers[u] == due) || (Exists(ups, u) && ups.closes[u] >= 1 && ups.closedAt[u] >= due)
  }

  lemma GrowsOn(a: Upstreams, b: Upstreams, c: Upstreams)
    requires Grows(a, b) && Grows(b, c)
    ensures Grows(a, c)
  {
    forall u | u in a.timers ensures Delayed(c, u, a.timers[u]) {
      assert Delayed(b, u, a.timers[u]);
    }
  }

  /** So what was closed stays closed, once, and what has left the live upstreams never comes
      back to them. */
  lemma NoneComesBack(a: Upstreams, live: set<nat>, b: Upstreams, live': set<nat>)
    requires Placed(a, live, {}) && Placed(b, live', {}) && Grows(a, b)
    ensures forall u :: 0 <= u < |a.closes| && u !in live ==> u !in live'
    ensures forall u :: 0 <= u < |a.closes| && a.closes[u] == 1 ==> b.closes[u] == 1 && b.closedAt[u] == a.closedAt[u] && u !in b.timers
  {
    forall u | 0 <= u < |a.closes|
      ensures u !in live ==> u !in live'
      ensures a.closes[u] == 1 ==> b.closes[u] == 1 && b.closedAt[u] == a.closedAt[u] && u !in b.timers
    {
      assert InOnePlace(a, live, {}, u) && InOnePlace(b, live', {}, u);
      assert u in a.timers ==> Delayed(b, u, a.timers[u]);
    }
  }

  // ---------- requests ----------

  /** A request that started at the time at may use its upstreams for span. */
  datatype Request = Request(at: int, upstreams: set<nat>)

  /** u is not closed before the time until. */
  ghost predicate OpenUntil(ups: Upstreams, live: set<nat>, u: nat, until: int) {
    && Exists(ups, u)
    && (u in live || (u in ups.timers && ups.timers[u] >= until) || (ups.closes[u] >= 1 && ups.closedAt[u] >= until))
  }

  ghost predicate RequestsSafe(ups: Upstreams, live: set<nat>, requests: seq<Request>, span: int) {
    forall i, u {:trigger u in requests[i].upstreams} :: 0 <= i < |requests| && u in requests[i].upstreams ==>
      OpenUntil(ups, live, u, requests[i].at + span)
  }

  /** What was live is open until the given time. */
  ghost predicate LiveStays(live: set<nat>, ups': Upstreams, live': set<nat>, until: int) {
    forall u :: u in live ==> OpenUntil(ups', live', u, until)
  }

  /** A record that grows keeps requests safe as long as it leaves open what is live, until the
      last of them is over. */
  lemma GrowthIsSafe(a: Upstreams, live: set<nat>, b: Upstreams, live': set<nat>, requests: seq<Request>, span: int, until: int)
    requires RequestsSafe(a, live, requests, span) && Grows(a, b) && LiveStays(live, b, live', until)
    requires forall i :: 0 <= i < |requests| ==> requests[i].at + span <= until
    ensures RequestsSafe(b, live', requests, span)
  {
    forall i, u {:trigger u in requests[i].upstreams} | 0 <= i < |requests| && u in requests[i].upstreams
      ensures OpenUntil(b, live', u, requests[i].at + span)
    {
      assert OpenUntil(a, live, u, requests[i].at + span);
      assert u in a.timers ==> Delayed(b, u, a.timers[u]);
    }
  }

  // ---------- what happens to upstreams ----------

  function Make(ups: Upstreams): Upstreams {
    ups.(closes := ups.closes + [0], closedAt := ups.closedAt + [0])
  }

  function Close(ups: Upstreams, u: nat, now: int): Upstreams
    requires Exists(ups, u)
  {
    ups.(closes := ups.closes[u := ups.closes[u] + 1], closedAt := ups.closedAt[u := now])
  }

  lemma MakeHolds(ups: Upstreams, live: set<nat>, held: set<nat>, u: nat)
    requires Placed(ups, live, held) && u == |ups.closes|
    ensures Placed(Make(ups), live, held + {u}) && u !in live && u !in held && u !in ups.timers && Grows(ups, Make(ups))
  {
    forall v | 0 <= v < |ups.closes| ensures InOnePlace(Make(ups), live, held + {u}, v) {
      assert InOnePlace(ups, live, held, v);
    }
  }

  /** A round closes what it holds. */
  lemma CloseHeld(ups: Upstreams, live: set<nat>, held: set<nat>, u: nat, now: int)
    requires Placed(ups, live, held) && u in held
    ensures Exists(ups, u) && Placed(Close(ups, u, now), live, held - {u}) && Grows(ups, Close(ups, u, now))
  {
    var now' := Close(ups, u, now);
    forall v | 0 <= v < |ups.closes| ensures InOnePlace(now', live, held - {u}, v) {
      assert InOnePlace(ups, live, held, v);
    }
    assert InOnePlace(ups, live, held, u);
  }

  /** A timer that is due closes its upstream. */
  function Fire(ups: Upstreams, u: nat, now: int): Upstreams
    requires Exists(ups, u)
  {
    Close(ups, u, now).(timers := ups.timers - {u})
  }

  lemma FireKeeps(ups: Upstreams, live: set<nat>, u: nat, now: int)
    requires Placed(ups, live, {}) && u in ups.timers && ups.timers[u] <= now
    ensures Exists(ups, u) && Placed(Fire(ups, u, now), live, {}) && Grows(ups, Fire(ups, u, now))
  {
    var fired := Fire(ups, u, now);
    forall v | 0 <= v < |ups.closes| ensures InOnePlace(fired, live, {}, v) {
      assert InOnePlace(ups, live, {}, v);
    }
    assert InOnePlace(ups, live, {}, u);
  }

  lemma FireIsSafe(ups: Upstreams, live: set<nat>, u: nat, now: int, requests: seq<Request>, span: int)
    requires Placed(ups, live, {}) && u in ups.timers && ups.timers[u] <= now && RequestsSafe(ups, live, requests, span)
    ensures Exists(ups, u) && RequestsSafe(Fire(ups, u, now), live, requests, span)
  {
    assert InOnePlace(ups, live, {}, u);
  }

  /** Each of the upstreams us got a timer for the time due. */
  ghost predicate Scheduled(was: map<nat, int>, timers: map<nat, int>, us: set<nat>, due: int) {
    && timers.Keys == was.Keys + us
    && (forall u :: u in us ==> timers[u] == due)
    && (forall u :: u in was && u !in us ==> timers[u] == was[u])
  }

  /** The live upstreams were replaced: the record has grown, what was live stays open until due,
      and what is live no more has a timer for then. */
  ghost predicate Replaced(a: Upstreams, live: set<nat>, b: Upstreams, live': set<nat>, due: int) {
    Grows(a, b) && LiveStays(live, b, live', due) && Scheduled(a.timers, b.timers, live - live', due)
  }

  /** The live upstreams that are not kept get a timer each, due after the delay; kept and
      held ones are the live ones from now on. */
  lemma ReplaceLive(ups: Upstreams, live: set<nat>, held: set<nat>, kept: set<nat>, due: int, ups': Upstreams)
    requires Placed(ups, live, held) && kept <= live
    requires ups'.closes == ups.closes && ups'.closedAt == ups.closedAt
    requires Scheduled(ups.timers, ups'.timers, live - kept, due)
    ensures Placed(ups', kept + held, {}) && Grows(ups, ups') && LiveStays(live, ups', kept + held, due)
  {
    LiveIsOpen(ups, live, held);
    forall u | 0 <= u < |ups.closes| ensures InOnePlace(ups', kept + held, {}, u) {
      assert InOnePlace(ups, live, held, u);
    }
  }

  /** The upstreams us were closed once each, and no others. */
  ghost predicate ClosedEach(ups: Upstreams, ups': Upstreams, us: set<nat>, now: int) {
    && |ups.closes| == |ups.closedAt| == |ups'.closes| == |ups'.closedAt| && ups'.timers == ups.timers
    && forall u :: 0 <= u < |ups.closes| ==>
      ups'.closes[u] == ups.closes[u] + (if u in us then 1 else 0) && ups'.closedAt[u] == if u in us then now else ups.closedAt[u]
  }

  lemma ClosedOneMore(ups: Upstreams, ups': Upstreams, us: set<nat>, now: int, u: nat)
    requires ClosedEach(ups, ups', us, now) && u !in us && Exists(ups, u)
    ensures Exists(ups', u) && ClosedEach(ups, Close(ups', u, now), us + {u}, now)
  {
  }

  /** The requests that use something live have run out of time. */
  ghost predicate LiveUseOver(live: set<nat>, requests: seq<Request>, span: int, now: int) {
    forall i, u {:trigger u in requests[i].upstreams} :: 0 <= i < |requests| && u in requests[i].upstreams && u in live ==>
      requests[i].at + span <= now
  }

  /** All live upstreams are closed at once.  Nothing is left live, whoever still uses it; and
      requests stay safe exactly when those that use something live have run out of time. */
  lemma CloseAll(ups: Upstreams, live: set<nat>, now: int, ups': Upstreams)
    requires Placed(ups, live, {}) && ClosedEach(ups, ups', live, now)
    ensures Placed(ups', {}, {}) && Grows(ups, ups')
  {
    LiveIsOpen(ups, live, {});
    forall u | 0 <= u < |ups.closes| ensures InOnePlace(ups', {}, {}, u) {
      assert InOnePlace(ups, live, {}, u);
    }
  }

  lemma CloseAllIsSafeIff(ups: Upstreams, live: set<nat>, now: int, ups': Upstreams, requests: seq<Request>, span: int)
    requires Placed(ups, live, {}) && ClosedEach(ups, ups', live, now)
    ensures RequestsSafe(ups', {}, requests, span) <==> RequestsSafe(ups, live, requests, span) && LiveUseOver(live, requests, span, now)
  {
    forall i, u {:trigger u in requests[i].upstreams} | 0 <= i < |requests| && u in requests[i].upstreams
      ensures OpenUntil(ups', {}, u, requests[i].at + span)
        <==> OpenUntil(ups, live, u, requests[i].at + span) && (u in live ==> requests[i].at + span <= now)
    {
      if Exists(ups, u) { assert InOnePlace(ups, live, {}, u); }
    }
  }

  /** What a request relies on: within its span nothing it uses has been closed. */
  lemma NothingClosedUnderRequest(ups: Upstreams, live: set<nat>, requests: seq<Request>, span: int, i: nat, u: nat, now: int)
    requires Placed(ups, live, {}) && RequestsSafe(ups, live, requests, span)
    requires i < |requests| && u in requests[i].upstreams && now < requests[i].at + span && Past(ups, now)
    ensures Exists(ups, u) && ups.closes[u] == 0
  {
    assert OpenUntil(ups, live, u, requests[i].at + span);
    assert InOnePlace(ups, live, {}, u);
  }

  // ---------- how long to wait before closing everything ----------

  /** Requests that started no later than the time asked and use what is live. */
  ghost predicate Late(more: seq<Request>, asked: int, live: set<nat>) {
    forall i :: 0 <= i < |more| ==> more[i].at <= asked && more[i].upstreams <= live
  }

  /** Whatever requests still come, and whenever from the time due on everything live is
      closed, no request loses an upstream before its time. */
  ghost predicate EveryCloseIsSafe(ups: Upstreams, live: set<nat>, requests: seq<Request>, asked: int, due: int, span: int) {
    forall more, t, ups' :: Late(more, asked, live) && due <= t && ClosedEach(ups, ups', live, t) ==>
      RequestsSafe(ups', {}, requests + more, span)
  }

  /** That is so exactly when nothing is live or a whole span lies between. */
  lemma EveryCloseIsSafeIff(ups: Upstreams, live: set<nat>, requests: seq<Request>, asked: int, due: int, span: int)
    requires Placed(ups, live, {}) && RequestsSafe(ups, live, requests, span)
    requires forall i :: 0 <= i < |requests| ==> requests[i].at <= asked
    ensures EveryCloseIsSafe(ups, live, requests, asked, due, span) <==> live == {} || asked + span <= due
  {
    if live == {} || asked + span <= due {
      forall more, t, ups' | Late(more, asked, live) && due <= t && ClosedEach(ups, ups', live, t)
        ensures RequestsSafe(ups', {}, requests + more, span)
      {
        LateIsSafe(ups, live, requests, more, asked, span);
        CloseAllIsSafeIff(ups, live, t, ups', requests + more, span);
        assert LiveUseOver(live, requests + more, span, t);
      }
    } else {
      EarlyCloseFails(ups, live, requests, asked, due, span);
    }
  }

  lemma LateIsSafe(ups: Upstreams, live: set<nat>, requests: seq<Request>, more: seq<Request>, asked: int, span: int)
    requires Placed(ups, live, {}) && RequestsSafe(ups, live, requests, span) && Late(more, asked, live)
    ensures RequestsSafe(ups, live, requests + more, span)
  {
    var all := requests + more;
    forall i, u {:trigger u in all[i].upstreams} | 0 <= i < |all| && u in all[i].upstreams
      ensures OpenUntil(ups, live, u, all[i].at + span)
    {
      if i < |requests| { assert u in requests[i].upstreams; } else { assert all[i] == more[i - |requests|]; }
    }
  }

  /** From any state with something live, a close that comes too early cuts a request short:
      one that started just before the retirement was asked for. */
  lemma EarlyCloseFails(ups: Upstreams, live: set<nat>, requests: seq<Request>, asked: int, due: int, span: int)
    requires Placed(ups, live, {}) && live != {} && due < asked + span
    ensures !EveryCloseIsSafe(ups, live, requests, asked, due, span)
  {
    var ups' := Upstreams(
      seq(|ups.closes|, u requires 0 <= u < |ups.closes| => ups.closes[u] + if u in live then 1 else 0),
      seq(|ups.closes|, u requires 0 <= u < |ups.closedAt| => if u in live then due else ups.closedAt[u]), ups.timers);
    var more := [Request(asked, live)];
    assert Late(more, asked, live) && ClosedEach(ups, ups', live, due);
    var u :| u in live;
    var all := requests + more;
    assert all[|requests|] == more[0] && u in all[|requests|].upstreams;
    assert InOnePlace(ups, live, {}, u);
    assert !OpenUntil(ups', {}, u, asked + span);
  }
}
