/** The race between the upstreams that are currently the best: whose reply is returned,
    for every order in which the replies can arrive. */
module Racing {
  import opened GoArith
  import B = Breaker

  datatype Error<E> = NoUpstreams | NoReply | Failed(cause: E)

  /** What an exchange returns: a response or none, an error or none. */
  datatype Reply<R, E> = Reply(resp: Option<R>, err: Option<Error<E>>)

  datatype Result<R, E> = Result(member: nat, weight: int, reply: Reply<R, E>, elapsed: int)

  predicate Succeeds<R, E>(r: Reply<R, E>) {
    r.err.None? && r.resp.Some?
  }

  ghost predicate SomeSucceeds<R, E>(arrivals: seq<Result<R, E>>) {
    exists i :: 0 <= i < |arrivals| && Succeeds(arrivals[i].reply)
  }

  // ---------- fastest ----------

  ghost predicate FirstSuccess<R, E>(arrivals: seq<Result<R, E>>, i: int) {
    0 <= i < |arrivals| && Succeeds(arrivals[i].reply) && forall j :: 0 <= j < i ==> !Succeeds(arrivals[j].reply)
  }

  ghost predicate ErrorAt<R, E>(arrivals: seq<Result<R, E>>, i: int) {
    0 <= i < |arrivals| && arrivals[i].reply.err.Some? && forall j :: i < j < |arrivals| ==> arrivals[j].reply.err.None?
  }

  ghost predicate LastError<R, E>(arrivals: seq<Result<R, E>>, e: Error<E>) {
    || (e == NoReply && forall j :: 0 <= j < |arrivals| ==> arrivals[j].reply.err.None?)
    || (exists i :: ErrorAt(arrivals, i) && arrivals[i].reply.err == Some(e))
  }

  /** The first success in order of arrival; without one, the last error. */
  ghost predicate FastestMeets<R, E>(arrivals: seq<Result<R, E>>, out: Reply<R, E>) {
    if SomeSucceeds(arrivals) then exists i :: FirstSuccess(arrivals, i) && out == arrivals[i].reply
    else out.resp.None? && out.err.Some? && LastError(arrivals, out.err.value)
  }

  /** The last error among the replies so far, or none yet. */
  ghost predicate LastSeen<R, E>(arrivals: seq<Result<R, E>>, lastErr: Option<Error<E>>) {
    if lastErr.None? then forall j :: 0 <= j < |arrivals| ==> arrivals[j].reply.err.None?
    else exists i :: ErrorAt(arrivals, i) && arrivals[i].reply.err == lastErr
  }

  function NextError<R, E>(lastErr: Option<Error<E>>, reply: Reply<R, E>): Option<Error<E>> {
    if reply.err.Some? then reply.err else lastErr
  }

  lemma SeenOneMore<R, E>(arrivals: seq<Result<R, E>>, lastErr: Option<Error<E>>, res: Result<R, E>)
    requires LastSeen(arrivals, lastErr)
    ensures LastSeen(arrivals + [res], NextError(lastErr, res.reply))
  {
    var more := arrivals + [res];
    if res.reply.err.Some? {
      assert ErrorAt(more, |arrivals|);
    } else if lastErr.Some? {
      var i :| ErrorAt(arrivals, i) && arrivals[i].reply.err == lastErr;
      assert ErrorAt(more, i);
    }
  }

  method CollectFastest<R, E>(arrivals: seq<Result<R, E>>) returns (out: Reply<R, E>)
    ensures FastestMeets(arrivals, out)
  {
    var lastErr: Option<Error<E>> := None;
    for k := 0 to |arrivals|
      invariant forall j :: 0 <= j < k ==> !Succeeds(arrivals[j].reply)
      invariant LastSeen(arrivals[..k], lastErr)
    {
      var res := arrivals[k];
      if res.reply.err.None? && res.reply.resp.Some? {
        assert FirstSuccess(arrivals, k);
        return Reply(res.reply.resp, None);
      }
      SeenOneMore(arrivals[..k], lastErr, res);
      assert arrivals[..k + 1] == arrivals[..k] + [res];
      if res.reply.err.Some? { lastErr := res.reply.err; }
    }
    assert arrivals[..|arrivals|] == arrivals;
    return Reply(None, Some(if lastErr.Some? then lastErr.value else NoReply));
  }

  // ---------- weighted ----------

  predicate Better<R, E>(a: Result<R, E>, b: Result<R, E>) {
    if a.weight != b.weight then a.weight > b.weight else a.elapsed < b.elapsed
  }

  ghost predicate Sorted<R, E>(s: seq<Result<R, E>>) {
    forall i, j :: 0 <= i < j < |s| ==> !Better(s[j], s[i])
  }

  /** One way to sort the candidates, best first. */
  function SortBest<R, E>(cands: seq<Result<R, E>>): (s: seq<Result<R, E>>)
    ensures multiset(s) == multiset(cands) && Sorted(s)
  {
    if cands == [] then []
    else
      assert cands == cands[..|cands| - 1] + [cands[|cands| - 1]];
      Insert(SortBest(cands[..|cands| - 1]), cands[|cands| - 1])
  }

  function Insert<R, E>(s: seq<Result<R, E>>, r: Result<R, E>): (t: seq<Result<R, E>>)
    requires Sorted(s)
    ensures multiset(t) == multiset(s) + multiset{r} && Sorted(t)
  {
    if s == [] || !Better(r, s[|s| - 1]) then s + [r]
    else
      var front, last := s[..|s| - 1], s[|s| - 1];
      assert s == front + [last];
      var t := Insert(front, r);
      LastSorted(front, last, r, t);
      t + [last]
  }

  lemma LastSorted<R, E>(front: seq<Result<R, E>>, last: Result<R, E>, r: Result<R, E>, t: seq<Result<R, E>>)
    requires Sorted(front + [last]) && Better(r, last)
    requires multiset(t) == multiset(front) + multiset{r} && Sorted(t)
    ensures Sorted(t + [last])
  {
    forall i | 0 <= i < |t| ensures !Better(last, t[i]) {
      assert t[i] in multiset(t);
      if t[i] != r {
        assert t[i] in multiset(front);
        var k :| 0 <= k < |front| && front[k] == t[i];
        assert (front + [last])[k] == t[i] && (front + [last])[|front|] == last;
      }
    }
  }

  /** i is a success among the first taken arrivals that none of them beats. */
  ghost predicate Best<R, E>(arrivals: seq<Result<R, E>>, taken: nat, i: int) {
    0 <= i < taken <= |arrivals| && Succeeds(arrivals[i].reply) &&
    forall j :: 0 <= j < taken && Succeeds(arrivals[j].reply) ==>
      arrivals[j].weight < arrivals[i].weight ||
      (arrivals[j].weight == arrivals[i].weight && arrivals[i].elapsed <= arrivals[j].elapsed)
  }

  /** The first taken arrivals were considered: all of them, or enough to hold a success. */
  ghost predicate WeightedMeets<R, E>(arrivals: seq<Result<R, E>>, taken: nat, out: Reply<R, E>) {
    && taken <= |arrivals|
    && (taken < |arrivals| ==> SomeSucceeds(arrivals[..taken]))
    && (if SomeSucceeds(arrivals) then exists i :: Best(arrivals, taken, i) && out == arrivals[i].reply
        else out == Reply(None, Some(NoReply)))
  }

  /** The successes, in order of arrival. */
  ghost function Successes<R, E>(arrivals: seq<Result<R, E>>): (cands: seq<Result<R, E>>)
    ensures forall i :: 0 <= i < |cands| ==> cands[i] in arrivals && Succeeds(cands[i].reply)
    ensures forall i :: 0 <= i < |arrivals| && Succeeds(arrivals[i].reply) ==> arrivals[i] in cands
  {
    if arrivals == [] then []
    else
      var last := arrivals[|arrivals| - 1];
      Successes(arrivals[..|arrivals| - 1]) + if Succeeds(last.reply) then [last] else []
  }

  function FirstOf<R, E>(s: seq<Result<R, E>>): Reply<R, E> {
    if s == [] then Reply(None, Some(NoReply)) else Reply(s[0].reply.resp, None)
  }

  /** Whatever sort is used, and however it orders equals, the first of the sorted successes
      is a best one. */
  lemma SortedFirstIsBest<R, E>(arrivals: seq<Result<R, E>>, taken: nat, s: seq<Result<R, E>>)
    requires taken <= |arrivals| && (taken < |arrivals| ==> s != [])
    requires multiset(s) == multiset(Successes(arrivals[..taken])) && Sorted(s)
    ensures WeightedMeets(arrivals, taken, FirstOf(s))
  {
    var seen := arrivals[..taken];
    if s == [] {
      assert forall r :: r in Successes(seen) ==> r in multiset(s);
      assert forall i :: 0 <= i < |arrivals| ==> seen[i] == arrivals[i];
    } else {
      var i := FirstPlace(seen, s);
      assert Best(arrivals, taken, i);
    }
  }

  lemma FirstPlace<R, E>(seen: seq<Result<R, E>>, s: seq<Result<R, E>>) returns (i: nat)
    requires multiset(s) == multiset(Successes(seen)) && Sorted(s) && s != []
    ensures i < |seen| && seen[i] == s[0] && Succeeds(s[0].reply)
    ensures forall j :: 0 <= j < |seen| && Succeeds(seen[j].reply) ==> !Better(seen[j], s[0])
  {
    var cands := Successes(seen);
    assert s[0] in multiset(cands);
    i :| 0 <= i < |seen| && seen[i] == s[0];
    forall j | 0 <= j < |seen| && Succeeds(seen[j].reply) ensures !Better(seen[j], s[0]) {
      assert seen[j] in multiset(cands);
      var k :| 0 <= k < |s| && s[k] == seen[j];
    }
  }

  method PickWeighted<R, E>(cands: seq<Result<R, E>>, ghost arrivals: seq<Result<R, E>>, ghost taken: nat)
    returns (out: Reply<R, E>)
    requires taken <= |arrivals| && cands == Successes(arrivals[..taken])
    requires taken < |arrivals| ==> cands != []
    ensures WeightedMeets(arrivals, taken, out)
  {
    if |cands| == 0 {
      SortedFirstIsBest(arrivals, taken, []);
      return Reply(None, Some(NoReply));
    }
    var s := SortBest(cands);
    assert cands[0] in multiset(s);
    SortedFirstIsBest(arrivals, taken, s);
    return Reply(s[0].reply.resp, None);
  }

  /** From the first success on, each turn takes the next arrival or ends with the timer;
      the choice is free, as it is when both are ready. */
  method CollectWeighted<R, E>(arrivals: seq<Result<R, E>>) returns (out: Reply<R, E>, taken: nat)
    ensures WeightedMeets(arrivals, taken, out)
  {
    var cands, remaining, timer := [], |arrivals|, false;
    taken := 0;
    assert arrivals[..0] == [];
    while remaining > 0
      invariant 0 <= remaining && taken + remaining == |arrivals|
      invariant cands == Successes(arrivals[..taken]) && (timer <==> cands != [])
    {
      assert arrivals[..taken + 1][..taken] == arrivals[..taken];
      if !timer {
        var res := arrivals[|arrivals| - remaining];
        remaining, taken := remaining - 1, taken + 1;
        if res.reply.err.None? && res.reply.resp.Some? {
          cands := cands + [res];
          timer := true;
        }
        continue;
      }
      if * {
        var res := arrivals[|arrivals| - remaining];
        remaining, taken := remaining - 1, taken + 1;
        if res.reply.err.None? && res.reply.resp.Some? { cands := cands + [res]; }
      } else {
        out := PickWeighted(cands, arrivals, taken);
        return;
      }
    }
    out := PickWeighted(cands, arrivals, taken);
  }

  // ---------- a whole exchange ----------

  /** One result from each candidate, in whatever order. */
  ghost predicate OneEach<R, E>(idx: seq<nat>, weights: seq<int>, replies: seq<Reply<R, E>>, arrivals: seq<Result<R, E>>) {
    OneEachBut(idx, {}, weights, replies, arrivals)
  }

  /** As much, with some candidates still pending. */
  ghost predicate OneEachBut<R, E>(idx: seq<nat>, pending: set<nat>, weights: seq<int>, replies: seq<Reply<R, E>>,
      arrivals: seq<Result<R, E>>)
  {
    && |weights| == |replies|
    && (forall k :: 0 <= k < |arrivals| ==>
          var m := arrivals[k].member;
          m in idx && m !in pending && m < |replies| && arrivals[k].weight == weights[m] && arrivals[k].reply == replies[m])
    && (forall j, k :: 0 <= j < k < |arrivals| ==> arrivals[j].member != arrivals[k].member)
    && (forall i {:trigger i in idx} :: i in idx && i !in pending ==> exists k :: 0 <= k < |arrivals| && arrivals[k].member == i)
  }

  lemma OneMoreArrives<R, E>(idx: seq<nat>, pending: set<nat>, weights: seq<int>, replies: seq<Reply<R, E>>,
      arrivals: seq<Result<R, E>>, i: nat, elapsed: int)
    requires OneEachBut(idx, pending, weights, replies, arrivals) && i in pending && i in idx && i < |replies|
    ensures OneEachBut(idx, pending - {i}, weights, replies, arrivals + [Result(i, weights[i], replies[i], elapsed)])
  {
    var more := arrivals + [Result(i, weights[i], replies[i], elapsed)];
    assert more[|arrivals|].member == i;
    forall m | m in idx && m !in pending - {i} ensures exists k :: 0 <= k < |more| && more[k].member == m {
      if m != i {
        var k :| 0 <= k < |arrivals| && arrivals[k].member == m;
        assert more[k].member == m;
      }
    }
  }

  /** From was to now, each member of done gets one report more, about its own reply. */
  ghost predicate OneReportEach<R, E>(was: seq<seq<B.Report>>, now: seq<seq<B.Report>>, done: set<nat>, replies: seq<Reply<R, E>>) {
    && |was| == |now|
    && forall i {:trigger now[i]} :: 0 <= i < |now| ==>
         if i in done then
           i < |replies| && |now[i]| == |was[i]| + 1 && now[i][..|was[i]|] == was[i] && now[i][|was[i]|].failed == replies[i].err.Some?
         else now[i] == was[i]
  }

  /** In either mode the race fails exactly when no candidate succeeds; otherwise the reply is
      a candidate's own, and a success. */
  lemma RaceFailsOnlyIfAllFail<R, E>(idx: seq<nat>, weights: seq<int>, replies: seq<Reply<R, E>>,
      arrivals: seq<Result<R, E>>, taken: nat, out: Reply<R, E>)
    requires OneEach(idx, weights, replies, arrivals)
    requires FastestMeets(arrivals, out) || WeightedMeets(arrivals, taken, out)
    ensures out.err.None? <==> exists i :: i in idx && i < |replies| && replies[i].err.None? && replies[i].resp.Some?
    ensures out.err.None? ==> out.resp.Some? && exists i :: i in idx && i < |replies| && out == replies[i]
    ensures out.err.Some? ==> out.resp.None?
  {
    if i :| i in idx && i < |replies| && Succeeds(replies[i]) {
      var k :| 0 <= k < |arrivals| && arrivals[k].member == i;
      assert SomeSucceeds(arrivals);
    }
    if SomeSucceeds(arrivals) {
      var k :| 0 <= k < |arrivals| && Succeeds(arrivals[k].reply) && out == arrivals[k].reply;
      assert arrivals[k].member in idx;
    }
  }

  class RacingUpstream {
    const weights: seq<int>
    const weighted: bool
    const breaker: B.Breaker?

    constructor (weights: seq<int>, weighted: bool, breaker: B.Breaker?)
      requires breaker != null ==> breaker.Valid() && |breaker.logs| == |weights|
      ensures Valid()
      ensures this.weights == weights && this.weighted == weighted && this.breaker == breaker
    {
      this.weights, this.weighted, this.breaker := weights, weighted, breaker;
    }

    ghost predicate Valid()
      reads breaker
    {
      breaker != null ==> breaker.Valid() && |breaker.logs| == |weights|
    }

    ghost predicate TakesPart(i: nat, now: int)
      requires Valid()
      reads breaker
    {
      i < |weights| && (breaker != null ==> !B.Excluded(breaker.failThreshold, breaker.cooldown, breaker.logs[i], now))
    }

    method Candidates(now: int) returns (idx: seq<nat>)
      requires Valid()
      ensures forall i: nat :: i in idx <==> TakesPart(i, now)
      ensures forall j, k :: 0 <= j < k < |idx| ==> idx[j] < idx[k]
    {
      if breaker == null {
        idx := [];
        for i := 0 to |weights|
          invariant |idx| == i && forall k :: 0 <= k < i ==> idx[k] == k
          invariant forall k: nat :: k in idx <==> k < i
        {
          idx := idx + [i];
        }
      } else {
        idx := breaker.Pick(|weights|, now);
      }
      assert forall i: nat :: i in idx <==> TakesPart(i, now);
    }

    method ReportResult(i: nat, failed: bool, now: int)
      requires Valid() && i < |weights|
      modifies breaker
      ensures Valid()
      ensures breaker != null ==> breaker.logs == old(breaker.logs)[i := old(breaker.logs)[i] + [B.Report(failed, now)]]
    {
      if breaker != null { breaker.ReportResult(i, failed, now); }
    }

    /** Each candidate gets one report more, about its own reply; nobody else gets any. */
    twostate predicate ReportedOnce<R, E>(idx: set<nat>, replies: seq<Reply<R, E>>)
      reads breaker
    {
      breaker != null ==> OneReportEach(old(breaker.logs), breaker.logs, idx, replies)
    }

    /** The goroutines, in the order in which they report and send.  An early return of the
        collector stops none of them. */
    method Launch<R, E>(idx: seq<nat>, replies: seq<Reply<R, E>>) returns (arrivals: seq<Result<R, E>>)
      requires Valid() && |replies| == |weights| && forall i :: i in idx ==> i < |weights|
      modifies breaker
      ensures Valid() && OneEach(idx, weights, replies, arrivals)
      ensures ReportedOnce((set i | i in idx), replies)
    {
      arrivals := [];
      var pending := set i | i in idx;
      ghost var all := pending;
      while pending != {}
        invariant Valid() && pending <= all
        invariant ReportedOnce(all - pending, replies)
        invariant OneEachBut(idx, pending, weights, replies, arrivals)
        decreases |pending|
      {
        var i :| i in pending;
        var now: int, elapsed: int := *, *;
        ReportResult(i, replies[i].err.Some?, now);
        OneMoreArrives(idx, pending, weights, replies, arrivals, i, elapsed);
        arrivals := arrivals + [Result(i, weights[i], replies[i], elapsed)];
        pending := pending - {i};
      }
      assert all - pending == all;
    }

    /** replies[i] is what member i would reply.  A single member is asked directly, and
        the breaker neither consulted nor told. */
    method Exchange<R, E>(replies: seq<Reply<R, E>>, now: int)
      returns (out: Reply<R, E>, ghost idx: seq<nat>, ghost arrivals: seq<Result<R, E>>, ghost taken: nat)
      requires Valid() && |replies| == |weights|
      modifies breaker
      ensures Valid()
      ensures |weights| == 0 ==> out == Reply(None, Some(NoUpstreams))
      ensures |weights| == 1 ==> out == replies[0]
      ensures |weights| <= 1 && breaker != null ==> breaker.logs == old(breaker.logs)
      ensures |weights| >= 2 ==>
        && (forall i: nat :: i in idx <==> old(TakesPart(i, now)))
        && OneEach(idx, weights, replies, arrivals)
        && ReportedOnce((set i | i in idx), replies)
        && (if weighted then WeightedMeets(arrivals, taken, out) else FastestMeets(arrivals, out))
    {
      idx, arrivals, taken := [], [], 0;
      if |weights| == 0 { return Reply(None, Some(NoUpstreams)), [], [], 0; }
      if |weights| == 1 { return replies[0], [], [], 0; }
      var picked := Candidates(now);
      var order := Launch(picked, replies);
      idx, arrivals := picked, order;
      if weighted {
        var n;
        out, n := CollectWeighted(order);
        taken := n;
      } else {
        out := CollectFastest(order);
      }
    }
  }
}
