/** The race as goroutines and a channel: every interleaving of the candidates' exchanges,
    reports and sends with the collector's receives, its timer and its return. */
module RaceProtocol {
  import opened GoArith
  import opened Racing

  /** What each candidate will reply.  The channel holds as many results. */
  datatype Race<R, E> = Race(results: seq<Result<R, E>>, weighted: bool)

  datatype Pc = Asking | Reporting | Sending | Done

  /** sent: the candidates whose results went into the channel, in order.  taken: how many
      of those the collector has received; cands: the successes among them; lastErr: the last
      error among them. */
  datatype State<R, E> = State(pcs: seq<Pc>, reports: seq<nat>, sent: seq<nat>, taken: nat,
    cands: seq<Result<R, E>>, lastErr: Option<Error<E>>, returned: Option<Reply<R, E>>)

  ghost predicate Init<R, E>(c: Race<R, E>, s: State<R, E>) {
    s == State(seq(|c.results|, _ => Asking), seq(|c.results|, _ => 0), [], 0, [], None, None)
  }

  ghost predicate TypeOk<R, E>(c: Race<R, E>, s: State<R, E>) {
    |s.pcs| == |s.reports| == |c.results| && s.taken <= |s.sent| && forall k :: 0 <= k < |s.sent| ==> s.sent[k] < |c.results|
  }

  function Arrivals<R, E>(c: Race<R, E>, sent: seq<nat>): (a: seq<Result<R, E>>)
    requires forall k :: 0 <= k < |sent| ==> sent[k] < |c.results|
  {
    seq(|sent|, k requires 0 <= k < |sent| => c.results[sent[k]])
  }

  function Received<R, E>(c: Race<R, E>, s: State<R, E>): seq<Result<R, E>>
    requires TypeOk(c, s)
  {
    Arrivals(c, s.sent)[..s.taken]
  }

  // ---------- the steps ----------

  /** order: how the sort leaves the successes held; the fastest mode sorts nothing. */
  datatype Move<R, E> = Answer(i: nat) | Report(i: nat) | Send(i: nat) | Receive | Return(order: seq<Result<R, E>>)

  /** The fastest mode returns at the first success it receives; the weighted mode may go on
      receiving, or return with the timer that its first success started.  Both return when
      nothing is left to receive. */
  ghost predicate Enabled<R, E>(c: Race<R, E>, s: State<R, E>, m: Move<R, E>)
    requires TypeOk(c, s)
  {
    match m
    case Answer(i) => i < |s.pcs| && s.pcs[i] == Asking
    case Report(i) => i < |s.pcs| && s.pcs[i] == Reporting
    case Send(i) => i < |s.pcs| && s.pcs[i] == Sending && |s.sent| - s.taken < |c.results|
    case Receive => s.returned.None? && s.taken < |s.sent| && (c.weighted || s.cands == [])
    case Return(order) =>
      && s.returned.None? && (s.taken == |c.results| || s.cands != [])
      && multiset(order) == multiset(s.cands) && (c.weighted ==> Sorted(order))
  }

  function Collected<R, E>(c: Race<R, E>, s: State<R, E>, order: seq<Result<R, E>>): Reply<R, E> {
    if c.weighted then FirstOf(order)
    else if s.cands != [] then Reply(s.cands[0].reply.resp, None)
    else Reply(None, Some(if s.lastErr.Some? then s.lastErr.value else NoReply))
  }

  function Taken<R, E>(s: State<R, E>, res: Result<R, E>): State<R, E> {
    s.(taken := s.taken + 1,
       cands := if Succeeds(res.reply) then s.cands + [res] else s.cands,
       lastErr := NextError(s.lastErr, res.reply))
  }

  function Apply<R, E>(c: Race<R, E>, s: State<R, E>, m: Move<R, E>): State<R, E>
    requires (m.Answer? || m.Report? || m.Send?) ==> m.i < |s.pcs| == |s.reports|
    requires m.Receive? ==> s.taken < |s.sent| && s.sent[s.taken] < |c.results|
  {
    match m
    case Answer(i) => s.(pcs := s.pcs[i := Reporting])
    case Report(i) => s.(pcs := s.pcs[i := Sending], reports := s.reports[i := s.reports[i] + 1])
    case Send(i) => s.(pcs := s.pcs[i := Done], sent := s.sent + [i])
    case Receive => Taken(s, c.results[s.sent[s.taken]])
    case Return(order) => s.(returned := Some(Collected(c, s, order)))
  }

  // ---------- what every step keeps ----------

  ghost predicate Inv<R, E>(c: Race<R, E>, s: State<R, E>) {
    && TypeOk(c, s)
    && (forall i :: 0 <= i < |s.pcs| ==> s.reports[i] == if s.pcs[i].Sending? || s.pcs[i].Done? then 1 else 0)
    && (forall i :: 0 <= i < |s.pcs| ==> (s.pcs[i].Done? <==> i in s.sent))
    && (forall j, k :: 0 <= j < k < |s.sent| ==> s.sent[j] != s.sent[k])
    && Holds(c, s, Received(c, s))
    && (s.returned.Some? ==> Settled(c, s.returned.value, Received(c, s)))
  }

  /** What the collector holds describes what it received; the fastest mode has received
      nothing after a success. */
  ghost predicate Holds<R, E>(c: Race<R, E>, s: State<R, E>, got: seq<Result<R, E>>) {
    && s.cands == Successes(got) && LastSeen(got, s.lastErr)
    && (!c.weighted ==> forall j :: 0 <= j < |got| - 1 ==> !Succeeds(got[j].reply))
  }

  ghost predicate Settled<R, E>(c: Race<R, E>, out: Reply<R, E>, got: seq<Result<R, E>>) {
    && (|got| == |c.results| || SomeSucceeds(got))
    && if c.weighted then WeightedMeets(got, |got|, out) else FastestMeets(got, out)
  }

  lemma StepKeepsInv<R, E>(c: Race<R, E>, s: State<R, E>, m: Move<R, E>)
    requires Inv(c, s) && Enabled(c, s, m)
    ensures Inv(c, Apply(c, s, m))
  {
    match m
    case Answer(i) => AnswerKeepsInv(c, s, i);
    case Report(i) => ReportKeepsInv(c, s, i);
    case Send(i) => SendKeepsInv(c, s, i);
    case Receive => ReceiveKeepsInv(c, s);
    case Return(order) => ReturnSettles(c, s, Received(c, s), order);
  }

  lemma AnswerKeepsInv<R, E>(c: Race<R, E>, s: State<R, E>, i: nat)
    requires Inv(c, s) && Enabled(c, s, Answer(i))
    ensures Inv(c, Apply(c, s, Answer(i)))
  {
    assert Received(c, Apply(c, s, Answer(i))) == Received(c, s);
  }

  lemma ReportKeepsInv<R, E>(c: Race<R, E>, s: State<R, E>, i: nat)
    requires Inv(c, s) && Enabled(c, s, Report(i))
    ensures Inv(c, Apply(c, s, Report(i)))
  {
    assert Received(c, Apply(c, s, Report(i))) == Received(c, s);
  }

  lemma SendKeepsInv<R, E>(c: Race<R, E>, s: State<R, E>, i: nat)
    requires Inv(c, s) && Enabled(c, s, Send(i))
    ensures Inv(c, Apply(c, s, Send(i)))
  {
    var t := Apply(c, s, Send(i));
    assert Received(c, t) == Received(c, s);
    assert forall j :: 0 <= j < |s.pcs| ==> (j in t.sent <==> j in s.sent || j == i);
  }

  lemma ReceiveKeepsInv<R, E>(c: Race<R, E>, s: State<R, E>)
    requires Inv(c, s) && Enabled(c, s, Receive)
    ensures Inv(c, Apply(c, s, Receive))
  {
    ReceivedOneMore(Arrivals(c, s.sent), s.taken);
    ReceiveKeepsHolds(c, s, Received(c, s), c.results[s.sent[s.taken]]);
  }

  lemma ReceivedOneMore<T>(all: seq<T>, taken: nat)
    requires taken < |all|
    ensures all[..taken + 1] == all[..taken] + [all[taken]]
  {
  }

  lemma ReceiveKeepsHolds<R, E>(c: Race<R, E>, s: State<R, E>, got: seq<Result<R, E>>, res: Result<R, E>)
    requires Holds(c, s, got) && (c.weighted || s.cands == [])
    ensures Holds(c, Taken(s, res), got + [res])
  {
    SeenOneMore(got, s.lastErr, res);
    assert (got + [res])[..|got|] == got;
  }

  /** What the collector returns is what the race promises for the results it received. */
  lemma ReturnSettles<R, E>(c: Race<R, E>, s: State<R, E>, got: seq<Result<R, E>>, order: seq<Result<R, E>>)
    requires Holds(c, s, got) && (|got| == |c.results| || s.cands != [])
    requires multiset(order) == multiset(s.cands) && (c.weighted ==> Sorted(order))
    ensures Settled(c, Collected(c, s, order), got)
  {
    if s.cands != [] {
      assert s.cands[0] in got;
      var i :| 0 <= i < |got| && got[i] == s.cands[0];
      assert FirstSuccess(got, i) || c.weighted;
    }
    if c.weighted {
      assert got[..|got|] == got;
      SortedFirstIsBest(got, |got|, order);
    }
  }

  // ---------- when the collector returns ----------

  /** A response without an error was among what the collector received. */
  ghost predicate GotResponse<R, E>(c: Race<R, E>, s: State<R, E>)
    requires TypeOk(c, s)
  {
    exists k :: 0 <= k < s.taken && c.results[s.sent[k]].reply.err.None? && c.results[s.sent[k]].reply.resp.Some?
  }

  lemma GotMeansHeld<R, E>(c: Race<R, E>, s: State<R, E>)
    requires TypeOk(c, s) && s.cands == Successes(Received(c, s))
    ensures GotResponse(c, s) <==> s.cands != []
  {
    var got := Received(c, s);
    if k :| 0 <= k < s.taken && c.results[s.sent[k]].reply.err.None? && c.results[s.sent[k]].reply.resp.Some? {
      assert got[k] in s.cands;
    }
    if s.cands != [] {
      assert s.cands[0] in got;
      var k :| 0 <= k < |got| && got[k] == s.cands[0];
      assert c.results[s.sent[k]] == got[k];
    }
  }

  /** The collector can return once it has a response, or once it has everything, and not before;
      the fastest mode then receives nothing more, the weighted mode whatever comes. */
  lemma ReturnsWhen<R, E>(c: Race<R, E>, s: State<R, E>, order: seq<Result<R, E>>)
    requires Inv(c, s)
    ensures Enabled(c, s, Return(order)) ==> s.returned.None? && (s.taken == |c.results| || GotResponse(c, s))
    ensures s.returned.None? && (s.taken == |c.results| || GotResponse(c, s)) ==> Enabled(c, s, Return(SortBest(s.cands)))
    ensures Enabled(c, s, Receive) <==> s.returned.None? && s.taken < |s.sent| && (c.weighted || !GotResponse(c, s))
  {
    GotMeansHeld(c, s);
  }

  // ---------- no send ever blocks ----------

  lemma {:induction false} DistinctBelow(s: seq<nat>, n: nat, missing: set<nat>)
    requires forall k :: 0 <= k < |s| ==> s[k] < n && s[k] !in missing
    requires forall j, k :: 0 <= j < k < |s| ==> s[j] != s[k]
    requires forall i :: i in missing ==> i < n
    ensures |s| + |missing| <= n
  {
    if s == [] {
      assert missing <= UpTo(n);
      SubsetSize(missing, UpTo(n));
    } else {
      var last := s[|s| - 1];
      assert forall k :: 0 <= k < |s| - 1 ==> s[k] != last;
      DistinctBelow(s[..|s| - 1], n, missing + {last});
    }
  }

  ghost function UpTo(n: nat): (all: set<nat>)
    ensures forall i: nat :: i in all <==> i < n
    ensures |all| == n
  {
    if n == 0 then {}
    else
      var below := UpTo(n - 1);
      assert n - 1 !in below;
      below + {n - 1}
  }

  ghost function SetOf(s: seq<nat>): (all: set<nat>)
    ensures forall i: nat :: i in all <==> i in s
    ensures |all| <= |s|
  {
    if s == [] then {}
    else
      assert s == s[..|s| - 1] + [s[|s| - 1]];
      SetOf(s[..|s| - 1]) + {s[|s| - 1]}
  }

  lemma SubsetSize<T>(a: set<T>, b: set<T>)
    requires a <= b
    ensures |a| <= |b|
  {
    assert b == a + (b - a);
  }

  /** A candidate ready to send always can: the channel is never full for it. */
  lemma SendNeverBlocks<R, E>(c: Race<R, E>, s: State<R, E>, i: nat)
    requires Inv(c, s) && i < |s.pcs| && s.pcs[i] == Sending
    ensures Enabled(c, s, Send(i))
  {
    DistinctBelow(s.sent, |c.results|, {i});
  }

  // ---------- every run ends, and ends well ----------

  function Left(pcs: seq<Pc>): nat {
    if pcs == [] then 0
    else Left(pcs[..|pcs| - 1]) + match pcs[|pcs| - 1] case Asking => 3 case Reporting => 2 case Sending => 1 case Done => 0
  }

  lemma {:induction false} LeftFalls(pcs: seq<Pc>, i: nat, pc: Pc)
    requires i < |pcs|
    requires (pcs[i].Asking? && pc.Reporting?) || (pcs[i].Reporting? && pc.Sending?) || (pcs[i].Sending? && pc.Done?)
    ensures Left(pcs[i := pc]) == Left(pcs) - 1
  {
    var front := pcs[..|pcs| - 1];
    if i == |front| {
      assert pcs[i := pc][..|front|] == front;
    } else {
      LeftFalls(front, i, pc);
      assert pcs[i := pc][..|front|] == front[i := pc];
    }
  }

  lemma {:induction false} LeftAtFirst(n: nat)
    ensures Left(seq(n, _ => Asking)) == 3 * n
  {
    if n > 0 {
      LeftAtFirst(n - 1);
      assert seq(n, _ => Asking)[..n - 1] == seq(n - 1, _ => Asking);
    }
  }

  function Rank<R, E>(c: Race<R, E>, s: State<R, E>): int {
    Left(s.pcs) + (|c.results| - s.taken) + if s.returned.None? then 1 else 0
  }

  lemma StepFalls<R, E>(c: Race<R, E>, s: State<R, E>, m: Move<R, E>)
    requires Inv(c, s) && Enabled(c, s, m)
    ensures Rank(c, Apply(c, s, m)) == Rank(c, s) - 1
  {
    match m
    case Answer(i) => LeftFalls(s.pcs, i, Reporting);
    case Report(i) => LeftFalls(s.pcs, i, Sending);
    case Send(i) => LeftFalls(s.pcs, i, Done);
    case Receive =>
    case Return(order) =>
  }

  /** The moves can be made one after another, and lead from s to t. */
  ghost predicate Leads<R, E>(c: Race<R, E>, s: State<R, E>, moves: seq<Move<R, E>>, t: State<R, E>)
    decreases |moves|
  {
    if moves == [] then s == t
    else TypeOk(c, s) && Enabled(c, s, moves[0]) && Leads(c, Apply(c, s, moves[0]), moves[1..], t)
  }

  lemma {:induction false} RunKeepsInv<R, E>(c: Race<R, E>, s: State<R, E>, moves: seq<Move<R, E>>, t: State<R, E>)
    requires Inv(c, s) && Leads(c, s, moves, t)
    ensures Inv(c, t) && Rank(c, t) == Rank(c, s) - |moves|
    decreases |moves|
  {
    if moves != [] {
      StepKeepsInv(c, s, moves[0]);
      StepFalls(c, s, moves[0]);
      RunKeepsInv(c, Apply(c, s, moves[0]), moves[1..], t);
    }
  }

  lemma InitInv<R, E>(c: Race<R, E>, s: State<R, E>)
    requires Init(c, s)
    ensures Inv(c, s) && Rank(c, s) == 4 * |c.results| + 1
  {
    LeftAtFirst(|c.results|);
  }

  ghost predicate Over<R, E>(s: State<R, E>) {
    s.returned.Some? && |s.reports| == |s.pcs| && forall i :: 0 <= i < |s.pcs| ==> s.pcs[i].Done? && s.reports[i] == 1
  }

  /** Until everything is over something can move. */
  lemma SomeMove<R, E>(c: Race<R, E>, s: State<R, E>) returns (m: Move<R, E>)
    requires Inv(c, s) && !Over(s)
    ensures Enabled(c, s, m)
  {
    if i :| 0 <= i < |s.pcs| && !s.pcs[i].Done? {
      if s.pcs[i].Asking? { return Answer(i); }
      if s.pcs[i].Reporting? { return Report(i); }
      SendNeverBlocks(c, s, i);
      return Send(i);
    }
    AllSent(c, s);
    return if s.taken == |c.results| || s.cands != [] then Return(SortBest(s.cands)) else Receive;
  }

  lemma AllSent<R, E>(c: Race<R, E>, s: State<R, E>)
    requires Inv(c, s) && forall i :: 0 <= i < |s.pcs| ==> s.pcs[i].Done?
    ensures |s.sent| == |c.results|
  {
    DistinctBelow(s.sent, |c.results|, {});
    forall i | i in UpTo(|c.results|) ensures i in SetOf(s.sent) {
      assert s.pcs[i].Done?;
    }
    SubsetSize(UpTo(|c.results|), SetOf(s.sent));
  }

  /** Every interleaving: it makes at most 4n + 1 moves, it can go on until it is over, and
      then every candidate has reported once and sent once, and the reply is the one that
      the race promises for the order in which the results were sent, whether or not the
      collector waited for all of them. */
  lemma EveryRunEnds<R, E>(c: Race<R, E>, s: State<R, E>, moves: seq<Move<R, E>>, t: State<R, E>)
    requires Init(c, s) && Leads(c, s, moves, t)
    ensures |moves| <= 4 * |c.results| + 1
    ensures TypeOk(c, t) && (Over(t) || exists m :: Enabled(c, t, m))
    ensures forall i :: 0 <= i < |t.pcs| ==> t.reports[i] <= 1
    ensures Over(t) ==> var all := Arrivals(c, t.sent);
      && |all| == |c.results| && (forall i :: 0 <= i < |c.results| ==> i in t.sent)
      && if c.weighted then WeightedMeets(all, t.taken, t.returned.value) else FastestMeets(all, t.returned.value)
  {
    InitInv(c, s);
    RunKeepsInv(c, s, moves, t);
    RankIsNat(c, t);
    if Over(t) {
      AllSent(c, t);
      LateResults(c, Arrivals(c, t.sent), t.taken, t.returned.value);
    } else {
      var m := SomeMove(c, t);
    }
  }

  lemma RankIsNat<R, E>(c: Race<R, E>, s: State<R, E>)
    requires Inv(c, s)
    ensures Rank(c, s) >= 0
  {
    DistinctBelow(s.sent, |c.results|, {});
  }

  /** Results that arrive after the return change nothing in what it was worth. */
  lemma LateResults<R, E>(c: Race<R, E>, all: seq<Result<R, E>>, taken: nat, out: Reply<R, E>)
    requires taken <= |all| == |c.results| && Settled(c, out, all[..taken])
    ensures if c.weighted then WeightedMeets(all, taken, out) else FastestMeets(all, out)
  {
    var got := all[..taken];
    if !SomeSucceeds(got) {
      assert got == all;
    } else if c.weighted {
      var i :| Best(got, |got|, i) && out == got[i].reply;
      assert Best(all, taken, i);
      assert SomeSucceeds(all);
    } else {
      var i :| FirstSuccess(got, i) && out == got[i].reply;
      assert FirstSuccess(all, i);
    }
  }
}
