/** The caching layer over the race: concurrent exchanges and background refreshes that share
    one cache and one coalescer, as atomic steps.  Sets of one key follow its flights. */
module Caching {
  import opened GoArith
  import opened Dns
  import opened CacheKey
  import opened CacheSpec
  import opened CacheRuns
  import Co = Coalescer
  import Ttl

  type Calls = Co.State<string, Msg>

  /** A client's exchange: two looks into the cache, then perhaps a call of the coalescer. */
  datatype Client = Client(req: Msg, stage: Stage)
  datatype Stage = Looking | LookingStale | Served(answer: Msg) | Calling(call: nat)

  /** reqs: the request behind each call of the coalescer.  history: every cache operation
      so far, and makers: the flight behind each Set among them. */
  datatype State = State(
    now: int, clients: seq<Client>, calls: Calls, reqs: seq<Msg>, history: seq<Call>, makers: seq<nat>)

  datatype Fetched = Failure | NoResponse | Response(msg: Msg, wireLength: nat)

  datatype Move =
    | Pass(time: int)
    | Ask(req: Msg)
    | Look(c: nat)
    | LookStale(c: nat)
    | Fetch(p: nat, reply: Fetched)
    | Inside(move: Co.Move<string, Msg>)

  predicate Init(s: State) {
    s.clients == [] && s.calls == Co.State([], map[], [], []) && s.reqs == [] && s.history == [] && s.makers == []
  }

  // ---------- the steps ----------

  /** Requests without their one question bypass this layer.  The coalescer's own moves are
      its internal ones and its callers'; calls arrive, and functions return, from here. */
  predicate Enabled(s: State, m: Move) {
    match m
    case Pass(time) => s.now <= time
    case Ask(req) => |req.question| == 1
    case Look(c) => c < |s.clients| && s.clients[c].stage.Looking?
    case LookStale(c) => c < |s.clients| && s.clients[c].stage.LookingStale?
    case Fetch(p, _) => p < |s.calls.procs| && s.calls.procs[p].pc.Running?
    case Inside(move) => !move.Arrive? && !move.Result? && Co.Enabled(s.calls, move)
  }

  function DoLook(s: State, c: nat, answer: Option<Msg>): State
    requires c < |s.clients|
  {
    var req := s.clients[c].req;
    s.(history := s.history + [CallGet(req, s.now)], makers := s.makers + [0],
       clients := s.clients[c := Client(req, if answer.Some? then Served(answer.value) else LookingStale)])
  }

  /** With a stale answer the call is a refresh in the background, and the client is served;
      without one the client makes the call itself.  The refresh has its own copy of the
      request. */
  ghost function DoLookStale(s: State, c: nat, answer: Option<Msg>): State
    requires c < |s.clients| && |s.clients[c].req.question| == 1 && Co.Inv(s.calls)
  {
    var req := s.clients[c].req;
    s.(history := s.history + [CallGetStale(req, s.now)], makers := s.makers + [0],
       calls := Co.Apply(s.calls, Co.Arrive(KeyOf(req))), reqs := s.reqs + [req],
       clients := s.clients[c := Client(req, if answer.Some? then Served(answer.value) else Calling(|s.calls.procs|))])
  }

  /** The function that the leader runs: a response is clamped and set, then returned. */
  ghost function DoFetch(cfg: Config, s: State, p: nat, f: nat, reply: Fetched): State
    requires p < |s.calls.procs| == |s.reqs| && f < |s.calls.flights|
  {
    match reply
    case Failure => s.(calls := Co.DoResult(s.calls, p, f, None, true))
    case NoResponse => s.(calls := Co.DoResult(s.calls, p, f, None, false))
    case Response(msg, wireLength) =>
      var resp := Ttl.ClampMsg(cfg.MinSeconds(), cfg.MaxSeconds(), msg);
      s.(calls := Co.DoResult(s.calls, p, f, Some(resp), false),
         history := s.history + [CallSet(s.reqs[p], resp, wireLength, s.now)], makers := s.makers + [f])
  }

  ghost function Apply(cfg: Config, s: State, m: Move): State
    requires !cfg.eviction.Other? && Sound(s) && Enabled(s, m)
  {
    match m
    case Pass(time) => s.(now := time)
    case Ask(req) => s.(clients := s.clients + [Client(req, Looking)])
    case Look(c) => DoLook(s, c, Get(cfg, After(cfg, s.history), s.clients[c].req, s.now).1)
    case LookStale(c) => DoLookStale(s, c, GetStale(cfg, After(cfg, s.history), s.clients[c].req, s.now).1)
    case Fetch(p, reply) =>
      assert Co.ProcOk(s.calls, p);
      DoFetch(cfg, s, p, s.calls.procs[p].pc.flight, reply)
    case Inside(move) => s.(calls := Co.Apply(s.calls, move))
  }

  // ---------- what every step keeps ----------

  ghost predicate Sound(s: State) {
    && Co.Inv(s.calls)
    && |s.reqs| == |s.calls.procs| && |s.makers| == |s.history|
    && (forall c :: 0 <= c < |s.clients| ==> |s.clients[c].req.question| == 1)
    && (forall p :: 0 <= p < |s.reqs| ==> |s.reqs[p].question| == 1 && s.calls.procs[p].key == KeyOf(s.reqs[p]))
  }

  /** Operation i is a Set under the key, accepted or not. */
  predicate SetOf(history: seq<Call>, i: int, key: string) {
    0 <= i < |history| && history[i].CallSet? && |history[i].req.question| == 1 && KeyOf(history[i].req) == key
  }

  /** A Set stores what its flight's function returned, under the flight's key. */
  ghost predicate MadeBy(flights: seq<Co.Flight<string, Msg>>, call: Call, f: nat) {
    f < |flights| && call.CallSet? && |call.req.question| == 1 && flights[f].key == KeyOf(call.req) && flights[f].result == Some(call.resp)
  }

  ghost predicate SetsMade(s: State)
    requires |s.makers| == |s.history|
  {
    forall i :: 0 <= i < |s.history| && s.history[i].CallSet? ==>
      MadeBy(s.calls.flights, s.history[i], s.makers[i]) && s.history[i].now <= s.now
  }

  /** Sets of one key come in the order of their flights, one each at most. */
  ghost predicate SetsInOrder(history: seq<Call>, makers: seq<nat>)
    requires |makers| == |history|
  {
    forall i, j, key :: SetOf(history, i, key) && SetOf(history, j, key) && i < j ==> makers[i] < makers[j]
  }

  /** A flight whose function still runs is later than all Sets of its key. */
  ghost predicate RunningLate(s: State)
    requires |s.makers| == |s.history|
  {
    forall p, i :: 0 <= p < |s.calls.procs| && s.calls.procs[p].pc.Running? && SetOf(s.history, i, s.calls.procs[p].key) ==>
      s.makers[i] < s.calls.procs[p].pc.flight
  }

  ghost predicate Inv(s: State) {
    Sound(s) && SetsMade(s) && SetsInOrder(s.history, s.makers) && RunningLate(s)
  }

  lemma InitInv(s: State)
    requires Init(s)
    ensures Inv(s)
  {
  }

  /** Operations that are no Sets, and progress that makes no result, keep the order. */
  lemma ContinuingKeepsOrder(s: State, t: State)
    requires |s.makers| == |s.history| && SetsInOrder(s.history, s.makers) && SetsMade(s) && RunningLate(s)
    requires Co.Continues(s.calls, t.calls) && s.now <= t.now && |t.history| == |t.makers|
    requires |s.history| <= |t.history| && s.history == t.history[..|s.history|] && s.makers == t.makers[..|s.makers|]
    requires forall i :: |s.history| <= i < |t.history| ==> !t.history[i].CallSet?
    ensures SetsMade(t) && SetsInOrder(t.history, t.makers) && RunningLate(t)
  {
    assert forall i :: 0 <= i < |s.history| ==> t.history[i] == s.history[i] && t.makers[i] == s.makers[i];
    assert forall i, key :: SetOf(t.history, i, key) ==> SetOf(s.history, i, key);
    forall p, i | 0 <= p < |t.calls.procs| && t.calls.procs[p].pc.Running? && SetOf(t.history, i, t.calls.procs[p].key)
      ensures t.makers[i] < t.calls.procs[p].pc.flight
    {
      assert SetOf(s.history, i, t.calls.procs[p].key);
      assert MadeBy(s.calls.flights, s.history[i], s.makers[i]);
    }
  }

  lemma PassKeepsInv(s: State, time: int)
    requires Inv(s) && s.now <= time
    ensures Inv(s.(now := time))
  {
  }

  lemma AskKeepsInv(s: State, req: Msg)
    requires Inv(s) && |req.question| == 1
    ensures Inv(s.(clients := s.clients + [Client(req, Looking)]))
  {
  }

  lemma LookKeepsInv(s: State, c: nat, answer: Option<Msg>)
    requires Inv(s) && c < |s.clients|
    ensures Inv(DoLook(s, c, answer))
  {
    ContinuingKeepsOrder(s, DoLook(s, c, answer));
  }

  lemma LookStaleKeepsInv(s: State, c: nat, answer: Option<Msg>)
    requires Inv(s) && c < |s.clients|
    ensures |s.clients[c].req.question| == 1 && Inv(DoLookStale(s, c, answer))
  {
    var key := KeyOf(s.clients[c].req);
    Co.StepKeepsInv(s.calls, Co.Arrive(key));
    Co.StepContinues(s.calls, Co.Arrive(key));
    ContinuingKeepsOrder(s, DoLookStale(s, c, answer));
  }

  lemma InsideKeepsInv(s: State, move: Co.Move<string, Msg>)
    requires Inv(s) && !move.Arrive? && !move.Result? && Co.Enabled(s.calls, move)
    ensures Inv(s.(calls := Co.Apply(s.calls, move)))
  {
    Co.StepKeepsInv(s.calls, move);
    Co.StepContinues(s.calls, move);
    ContinuingKeepsOrder(s, s.(calls := Co.Apply(s.calls, move)));
  }

  /** A function that returns: its flight had no Set before, and no other process runs a
      flight of the key. */
  lemma FetchKeepsInv(cfg: Config, s: State, p: nat, f: nat, reply: Fetched)
    requires Inv(s) && p < |s.calls.procs| && s.calls.procs[p].pc == Co.Running(f)
    ensures Co.ProcOk(s.calls, p) && Inv(DoFetch(cfg, s, p, f, reply))
  {
    assert Co.ProcOk(s.calls, p);
    NotMadeYet(s, p, f);
    if reply.Response? {
      ResponseKeepsInv(s, p, f, Ttl.ClampMsg(cfg.MinSeconds(), cfg.MaxSeconds(), reply.msg), reply.wireLength);
    } else {
      ResultKeepsInv(s, p, f, None, reply.Failure?, s.(calls := Co.DoResult(s.calls, p, f, None, reply.Failure?)));
    }
  }

  lemma ResponseKeepsInv(s: State, p: nat, f: nat, resp: Msg, wireLength: nat)
    requires Inv(s) && p < |s.calls.procs| && s.calls.procs[p].pc == Co.Running(f) && f < |s.calls.flights|
    ensures Inv(s.(calls := Co.DoResult(s.calls, p, f, Some(resp), false),
                   history := s.history + [CallSet(s.reqs[p], resp, wireLength, s.now)], makers := s.makers + [f]))
  {
    NotMadeYet(s, p, f);
    var t := s.(calls := Co.DoResult(s.calls, p, f, Some(resp), false));
    ResultKeepsInv(s, p, f, Some(resp), false, t);
    Co.ResultChangesOneFlight(s.calls, p, f, Some(resp), false, t.calls);
    NewSet(t, CallSet(s.reqs[p], resp, wireLength, s.now), f);
  }

  lemma NotMadeYet(s: State, p: nat, f: nat)
    requires Inv(s) && p < |s.calls.procs| && s.calls.procs[p].pc == Co.Running(f)
    ensures f < |s.calls.flights| && s.calls.flights[f].key == s.calls.procs[p].key == KeyOf(s.reqs[p])
    ensures forall i :: 0 <= i < |s.history| && s.history[i].CallSet? ==> s.makers[i] != f
    ensures forall i :: SetOf(s.history, i, s.calls.procs[p].key) ==> s.makers[i] < f
    ensures forall q :: 0 <= q < |s.calls.procs| && q != p && s.calls.procs[q].pc.Running? ==> s.calls.procs[q].key != s.calls.procs[p].key
  {
    assert Co.ProcOk(s.calls, p);
    forall i | 0 <= i < |s.history| && s.history[i].CallSet? ensures s.makers[i] != f {
      assert MadeBy(s.calls.flights, s.history[i], s.makers[i]);
      assert SetOf(s.history, i, KeyOf(s.history[i].req));
    }
    forall q | 0 <= q < |s.calls.procs| && q != p && s.calls.procs[q].pc.Running? ensures s.calls.procs[q].key != s.calls.procs[p].key {
      assert Co.ProcOk(s.calls, q);
    }
  }

  lemma ResultKeepsInv(s: State, p: nat, f: nat, result: Option<Msg>, failed: bool, t: State)
    requires Inv(s) && p < |s.calls.procs| && s.calls.procs[p].pc == Co.Running(f) && f < |s.calls.flights|
    requires forall i :: 0 <= i < |s.history| && s.history[i].CallSet? ==> s.makers[i] != f
    requires t == s.(calls := Co.DoResult(s.calls, p, f, result, failed))
    ensures Inv(t)
  {
    Co.ResultChangesOneFlight(s.calls, p, f, result, failed, t.calls);
    Co.ResultKeepsInv(s.calls, p, f, result, failed);
    OldSetsStay(s, t, f);
  }

  /** A result for a flight that has made no Set disturbs none. */
  lemma OldSetsStay(s: State, t: State, f: nat)
    requires |s.makers| == |s.history| && SetsMade(s) && RunningLate(s)
    requires t.now == s.now && t.history == s.history && t.makers == s.makers && |t.calls.flights| == |s.calls.flights|
    requires forall g :: 0 <= g < |s.calls.flights| && g != f ==> t.calls.flights[g] == s.calls.flights[g]
    requires forall i :: 0 <= i < |s.history| && s.history[i].CallSet? ==> s.makers[i] != f
    requires |t.calls.procs| == |s.calls.procs|
    requires forall q :: 0 <= q < |s.calls.procs| && t.calls.procs[q].pc.Running? ==> t.calls.procs[q] == s.calls.procs[q]
    ensures SetsMade(t) && RunningLate(t)
  {
    forall i | 0 <= i < |s.history| && s.history[i].CallSet? ensures MadeBy(t.calls.flights, t.history[i], t.makers[i]) {
      assert MadeBy(s.calls.flights, s.history[i], s.makers[i]);
    }
  }

  /** A Set of the last flight of its key, made when no function runs for that key. */
  lemma NewSet(s: State, call: Call, f: nat)
    requires |s.makers| == |s.history| && SetsMade(s) && RunningLate(s) && SetsInOrder(s.history, s.makers)
    requires MadeBy(s.calls.flights, call, f) && call.now == s.now
    requires forall i :: SetOf(s.history, i, s.calls.flights[f].key) ==> s.makers[i] < f
    requires forall q :: 0 <= q < |s.calls.procs| && s.calls.procs[q].pc.Running? ==> s.calls.procs[q].key != s.calls.flights[f].key
    ensures var t := s.(history := s.history + [call], makers := s.makers + [f]);
      SetsMade(t) && RunningLate(t) && SetsInOrder(t.history, t.makers)
  {
    var t := s.(history := s.history + [call], makers := s.makers + [f]);
    var n, key := |s.history|, s.calls.flights[f].key;
    forall i, k | SetOf(t.history, i, k) ensures if i < n then SetOf(s.history, i, k) else i == n && k == key {
    }
  }

  lemma StepKeepsInv(cfg: Config, s: State, m: Move)
    requires !cfg.eviction.Other? && Inv(s) && Enabled(s, m)
    ensures Inv(Apply(cfg, s, m))
  {
    match m
    case Pass(time) => PassKeepsInv(s, time);
    case Ask(req) => AskKeepsInv(s, req);
    case Look(c) => LookKeepsInv(s, c, Get(cfg, After(cfg, s.history), s.clients[c].req, s.now).1);
    case LookStale(c) => LookStaleKeepsInv(s, c, GetStale(cfg, After(cfg, s.history), s.clients[c].req, s.now).1);
    case Fetch(p, reply) => FetchKeepsInv(cfg, s, p, s.calls.procs[p].pc.flight, reply);
    case Inside(move) => InsideKeepsInv(s, move);
  }

  // ---------- what holds in every state that can be reached ----------

  ghost predicate Reaches(cfg: Config, s: State, moves: seq<Move>, t: State)
    requires !cfg.eviction.Other?
    decreases |moves|
  {
    if moves == [] then s == t
    else Sound(s) && Enabled(s, moves[0]) && Reaches(cfg, Apply(cfg, s, moves[0]), moves[1..], t)
  }

  lemma {:induction false} RunKeepsInv(cfg: Config, s: State, moves: seq<Move>, t: State)
    requires !cfg.eviction.Other? && Inv(s) && Reaches(cfg, s, moves, t)
    ensures Inv(t)
    decreases |moves|
  {
    if moves != [] {
      StepKeepsInv(cfg, s, moves[0]);
      RunKeepsInv(cfg, Apply(cfg, s, moves[0]), moves[1..], t);
    }
  }

  /** Set i is the latest accepted one under the key; its flight is the latest of all flights
      of the key that had a response accepted, and made that response. */
  ghost predicate FromLatestFlight(cfg: Config, s: State, key: string, i: int)
    requires |s.makers| == |s.history|
  {
    && LatestSet(cfg, s.history, key, i)
    && s.makers[i] < |s.calls.flights|
    && s.calls.flights[s.makers[i]].key == key
    && s.calls.flights[s.makers[i]].result == Some(s.history[i].resp)
    && s.history[i].now <= s.now
    && forall j :: 0 <= j < |s.history| && SetsKey(cfg, s.history[j], key) && j != i ==> s.makers[j] < s.makers[i]
  }

  lemma LatestIsFromFlight(cfg: Config, s: State, key: string, i: int)
    requires Inv(s) && LatestSet(cfg, s.history, key, i)
    ensures FromLatestFlight(cfg, s, key, i)
  {
    assert MadeBy(s.calls.flights, s.history[i], s.makers[i]);
    forall j | 0 <= j < |s.history| && SetsKey(cfg, s.history[j], key) && j != i ensures s.makers[j] < s.makers[i] {
      assert SetOf(s.history, j, key) && SetOf(s.history, i, key);
    }
  }

  /** A client served from the cache gets what the latest accepted flight of its key fetched,
      with the TTLs that are left; and the clock of the Sets never runs back. */
  lemma FreshAnswersFollowFlights(cfg: Config, s: State, c: nat)
    requires !cfg.eviction.Other? && Inv(s) && Enabled(s, Look(c))
    requires Apply(cfg, s, Look(c)).clients[c].stage.Served?
    ensures SetsBefore(s.history, s.now)
    ensures var key, a := KeyOf(s.clients[c].req), Apply(cfg, s, Look(c)).clients[c].stage.answer;
      exists i :: FromLatestFlight(cfg, s, key, i) && FreshFrom(cfg, s.history, key, i, s.now, a)
  {
    var key, a := KeyOf(s.clients[c].req), Apply(cfg, s, Look(c)).clients[c].stage.answer;
    GetAnswersLatest(cfg, s.history, s.clients[c].req, s.now, a);
    var i :| FreshFrom(cfg, s.history, key, i, s.now, a);
    LatestIsFromFlight(cfg, s, key, i);
  }

  /** With a stale answer it is the same, no longer than StaleMaxAge after the expiry, and a
      refresh under the same key is on its way. */
  lemma StaleAnswersFollowFlights(cfg: Config, s: State, c: nat)
    requires !cfg.eviction.Other? && Inv(s) && Enabled(s, LookStale(c))
    requires Apply(cfg, s, LookStale(c)).clients[c].stage.Served?
    ensures var key, a := KeyOf(s.clients[c].req), Apply(cfg, s, LookStale(c)).clients[c].stage.answer;
      exists i :: FromLatestFlight(cfg, s, key, i) && StaleFrom(cfg, s.history, key, i, s.now, a)
    ensures Apply(cfg, s, LookStale(c)).calls.procs == s.calls.procs + [Co.Proc(KeyOf(s.clients[c].req), Co.Entering)]
  {
    var key, a := KeyOf(s.clients[c].req), Apply(cfg, s, LookStale(c)).clients[c].stage.answer;
    GetStaleAnswersLatest(cfg, s.history, s.clients[c].req, s.now, a);
    var i :| StaleFrom(cfg, s.history, key, i, s.now, a);
    LatestIsFromFlight(cfg, s, key, i);
  }

  // ---------- what flights return is clamped ----------

  /** What a flight returns, to its leader, to its waiters and to the cache, meets the bounds
      already: clamping it again would change nothing. */
  ghost predicate ResultsClamped(cfg: Config, flights: seq<Co.Flight<string, Msg>>) {
    forall f :: 0 <= f < |flights| && flights[f].result.Some? ==>
      Ttl.ClampMsg(cfg.MinSeconds(), cfg.MaxSeconds(), flights[f].result.value) == flights[f].result.value
  }

  lemma StepKeepsClamped(cfg: Config, s: State, m: Move)
    requires !cfg.eviction.Other? && Inv(s) && Enabled(s, m) && ResultsClamped(cfg, s.calls.flights)
    requires cfg.MinSeconds() > 0 && cfg.MaxSeconds() > 0 ==> cfg.MinSeconds() <= cfg.MaxSeconds()
    ensures ResultsClamped(cfg, Apply(cfg, s, m).calls.flights)
  {
    match m
    case Pass(time) =>
    case Ask(req) =>
    case Look(c) =>
    case LookStale(c) =>
    case Inside(move) => InsideKeepsClamped(cfg, s.calls, move);
    case Fetch(p, reply) =>
      assert Co.ProcOk(s.calls, p);
      FetchKeepsClamped(cfg, s, p, s.calls.procs[p].pc.flight, reply);
  }

  lemma InsideKeepsClamped(cfg: Config, calls: Calls, move: Co.Move<string, Msg>)
    requires Co.Inv(calls) && Co.Enabled(calls, move) && !move.Arrive? && !move.Result? && ResultsClamped(cfg, calls.flights)
    ensures ResultsClamped(cfg, Co.Apply(calls, move).flights)
  {
    Co.StepContinues(calls, move);
    Co.OnlyNewFlights(calls, move);
  }

  lemma FetchKeepsClamped(cfg: Config, s: State, p: nat, f: nat, reply: Fetched)
    requires p < |s.calls.procs| == |s.reqs| && s.calls.procs[p].pc == Co.Running(f) && f < |s.calls.flights|
    requires ResultsClamped(cfg, s.calls.flights)
    requires cfg.MinSeconds() > 0 && cfg.MaxSeconds() > 0 ==> cfg.MinSeconds() <= cfg.MaxSeconds()
    ensures ResultsClamped(cfg, DoFetch(cfg, s, p, f, reply).calls.flights)
  {
    var t := DoFetch(cfg, s, p, f, reply).calls;
    Co.ResultChangesOneFlight(s.calls, p, f, t.flights[f].result, reply.Failure?, t);
    if reply.Response? { Ttl.ClampTwice(cfg.MinSeconds(), cfg.MaxSeconds(), reply.msg); }
  }

  /** So in every state that can be reached. */
  lemma {:induction false} RunKeepsClamped(cfg: Config, s: State, moves: seq<Move>, t: State)
    requires !cfg.eviction.Other? && Inv(s) && ResultsClamped(cfg, s.calls.flights) && Reaches(cfg, s, moves, t)
    requires cfg.MinSeconds() > 0 && cfg.MaxSeconds() > 0 ==> cfg.MinSeconds() <= cfg.MaxSeconds()
    ensures ResultsClamped(cfg, t.calls.flights)
    decreases |moves|
  {
    if moves != [] {
      StepKeepsInv(cfg, s, moves[0]);
      StepKeepsClamped(cfg, s, moves[0]);
      RunKeepsClamped(cfg, Apply(cfg, s, moves[0]), moves[1..], t);
    }
  }

  // ---------- what upstreams replied ----------

  /** What a flight has when its function was given the reply: the response clamped, section by
      section, and no error; or nothing, and the error if there was one. */
  ghost predicate Follows(cfg: Config, reply: Fetched, result: Option<Msg>, failed: bool) {
    match reply
    case Failure => result.None? && failed
    case NoResponse => result.None? && !failed
    case Response(m, _) => result.Some? && !failed && Ttl.ClampedBySection(cfg.MinSeconds(), cfg.MaxSeconds(), m, result.value)
  }

  /** A reply becomes the flight's result, in the leader's hand, and, if it is a response, the
      one Set, for the request of that call and with the length reported; otherwise there is no
      Set. */
  lemma FetchFollowsReply(cfg: Config, s: State, p: nat, reply: Fetched)
    requires !cfg.eviction.Other? && Sound(s) && Enabled(s, Fetch(p, reply))
    ensures var t, f := Apply(cfg, s, Fetch(p, reply)), s.calls.procs[p].pc.flight;
      && f < |t.calls.flights| && t.calls.flights[f].leader == p < |t.calls.procs| && p < |s.reqs|
      && Follows(cfg, reply, t.calls.flights[f].result, t.calls.flights[f].failed)
      && t.calls.procs[p].pc.Finishing? && t.calls.procs[p].pc.flight == f && t.calls.procs[p].pc.failed == reply.Failure?
      && (match reply
          case Response(_, wireLength) =>
            && t.calls.flights[f].result.Some?
            && t.history == s.history + [CallSet(s.reqs[p], t.calls.flights[f].result.value, wireLength, s.now)]
            && t.calls.objects == s.calls.objects + [t.calls.flights[f].result.value]
            && t.calls.procs[p].pc.got == Some(|s.calls.objects|)
          case _ => t.history == s.history && t.calls.objects == s.calls.objects && t.calls.procs[p].pc.got.None?)
  {
    assert Co.ProcOk(s.calls, p);
    if reply.Response? {
      Ttl.ClampIs(cfg.MinSeconds(), cfg.MaxSeconds(), reply.msg, Ttl.ClampMsg(cfg.MinSeconds(), cfg.MaxSeconds(), reply.msg));
    }
  }

  /** In the course of the moves process p was given a reply that the flight follows. */
  ghost predicate Got(cfg: Config, moves: seq<Move>, p: nat, flight: Co.Flight<string, Msg>) {
    exists i :: 0 <= i < |moves| && moves[i].Fetch? && moves[i].p == p && Follows(cfg, moves[i].reply, flight.result, flight.failed)
  }

  ghost predicate FlightTraced(cfg: Config, moves: seq<Move>, calls: Calls, f: nat)
    requires f < |calls.flights|
  {
    calls.flights[f].leader < |calls.procs| && !calls.procs[calls.flights[f].leader].pc.Running? ==>
      Got(cfg, moves, calls.flights[f].leader, calls.flights[f])
  }

  /** Every flight whose function has returned follows a reply given to its leader. */
  ghost predicate FlightsTraced(cfg: Config, moves: seq<Move>, calls: Calls) {
    forall f :: 0 <= f < |calls.flights| ==> FlightTraced(cfg, moves, calls, f)
  }

  /** A client that waits for a call waits for one that was made for its request. */
  ghost predicate ClientsCall(s: State) {
    forall c :: 0 <= c < |s.clients| && s.clients[c].stage.Calling? ==>
      s.clients[c].stage.call < |s.reqs| && s.reqs[s.clients[c].stage.call] == s.clients[c].req
  }

  ghost predicate Traced(cfg: Config, moves: seq<Move>, s: State) {
    FlightsTraced(cfg, moves, s.calls) && ClientsCall(s)
  }

  lemma GotBefore(cfg: Config, moves: seq<Move>, m: Move, p: nat, was: Co.Flight<string, Msg>, now: Co.Flight<string, Msg>)
    requires Got(cfg, moves, p, was) && Co.SameFlight(was, now)
    ensures Got(cfg, moves + [m], p, now)
  {
    var i :| 0 <= i < |moves| && moves[i].Fetch? && moves[i].p == p && Follows(cfg, moves[i].reply, was.result, was.failed);
    assert (moves + [m])[i] == moves[i];
  }

  lemma ContinuingTraces(cfg: Config, moves: seq<Move>, m: Move, a: Calls, b: Calls)
    requires Co.Inv(a) && FlightsTraced(cfg, moves, a) && Co.Continues(a, b)
    ensures FlightsTraced(cfg, moves + [m], b)
  {
    forall f | 0 <= f < |b.flights| ensures FlightTraced(cfg, moves + [m], b, f) {
      if f < |a.flights| {
        assert Co.FlightOk(a, f) && FlightTraced(cfg, moves, a, f);
        if !a.procs[a.flights[f].leader].pc.Running? { GotBefore(cfg, moves, m, a.flights[f].leader, a.flights[f], b.flights[f]); }
      }
    }
  }

  lemma FetchTraces(cfg: Config, moves: seq<Move>, a: Calls, p: nat, f: nat, reply: Fetched, result: Option<Msg>, failed: bool, b: Calls)
    requires Co.Inv(a) && FlightsTraced(cfg, moves, a) && p < |a.procs| && a.procs[p].pc == Co.Running(f) && f < |a.flights|
    requires b == Co.DoResult(a, p, f, result, failed) && Follows(cfg, reply, result, failed)
    ensures FlightsTraced(cfg, moves + [Fetch(p, reply)], b)
  {
    var m := Fetch(p, reply);
    var more := moves + [m];
    assert Co.ProcOk(a, p) && more[|moves|] == m;
    Co.ResultChangesOneFlight(a, p, f, result, failed, b);
    assert b.flights[f].failed == failed;
    forall g | 0 <= g < |b.flights| ensures FlightTraced(cfg, more, b, g) {
      assert Co.FlightOk(a, g) && FlightTraced(cfg, moves, a, g);
      var flight := a.flights[g];
      if g != f && !a.procs[flight.leader].pc.Running? { GotBefore(cfg, moves, m, flight.leader, flight, b.flights[g]); }
    }
  }

  lemma ClientsStillCall(cfg: Config, s: State, m: Move)
    requires !cfg.eviction.Other? && Sound(s) && Enabled(s, m) && ClientsCall(s)
    ensures ClientsCall(Apply(cfg, s, m))
  {
    match m
    case Look(c) => LookStillCalls(s, c, Get(cfg, After(cfg, s.history), s.clients[c].req, s.now).1);
    case LookStale(c) => LookStaleStillCalls(s, c, GetStale(cfg, After(cfg, s.history), s.clients[c].req, s.now).1);
    case Fetch(p, reply) =>
      assert Co.ProcOk(s.calls, p);
      FetchStillCalls(cfg, s, p, s.calls.procs[p].pc.flight, reply);
    case Ask(req) => AskStillCalls(s, req);
    case Pass(time) =>
    case Inside(move) =>
  }

  lemma FetchStillCalls(cfg: Config, s: State, p: nat, f: nat, reply: Fetched)
    requires p < |s.calls.procs| == |s.reqs| && f < |s.calls.flights| && ClientsCall(s)
    ensures ClientsCall(DoFetch(cfg, s, p, f, reply))
  {
  }

  lemma AskStillCalls(s: State, req: Msg)
    requires ClientsCall(s)
    ensures ClientsCall(s.(clients := s.clients + [Client(req, Looking)]))
  {
  }

  lemma LookStillCalls(s: State, c: nat, answer: Option<Msg>)
    requires c < |s.clients| && ClientsCall(s)
    ensures ClientsCall(DoLook(s, c, answer))
  {
  }

  lemma LookStaleStillCalls(s: State, c: nat, answer: Option<Msg>)
    requires Sound(s) && c < |s.clients| && ClientsCall(s)
    ensures ClientsCall(DoLookStale(s, c, answer))
  {
  }

  lemma StepTraces(cfg: Config, moves: seq<Move>, s: State, m: Move)
    requires !cfg.eviction.Other? && Sound(s) && Enabled(s, m) && Traced(cfg, moves, s)
    ensures Traced(cfg, moves + [m], Apply(cfg, s, m))
  {
    var t := Apply(cfg, s, m);
    ClientsStillCall(cfg, s, m);
    match m
    case Fetch(p, reply) =>
      var f := s.calls.procs[p].pc.flight;
      assert Co.ProcOk(s.calls, p);
      FetchFollowsReply(cfg, s, p, reply);
      FetchTraces(cfg, moves, s.calls, p, f, reply, t.calls.flights[f].result, reply.Failure?, t.calls);
    case Inside(move) =>
      Co.StepContinues(s.calls, move);
      ContinuingTraces(cfg, moves, m, s.calls, t.calls);
    case LookStale(c) =>
      Co.StepContinues(s.calls, Co.Arrive(KeyOf(s.clients[c].req)));
      ContinuingTraces(cfg, moves, m, s.calls, t.calls);
    case _ => ContinuingTraces(cfg, moves, m, s.calls, t.calls);
  }

  lemma {:induction false} RunTraces(cfg: Config, past: seq<Move>, s: State, moves: seq<Move>, t: State)
    requires !cfg.eviction.Other? && Inv(s) && Traced(cfg, past, s) && Reaches(cfg, s, moves, t)
    ensures Inv(t) && Traced(cfg, past + moves, t)
    decreases |moves|
  {
    if moves == [] {
      assert past + moves == past;
    } else {
      StepKeepsInv(cfg, s, moves[0]);
      StepTraces(cfg, past, s, moves[0]);
      RunTraces(cfg, past + [moves[0]], Apply(cfg, s, moves[0]), moves[1..], t);
      assert past + [moves[0]] + moves[1..] == past + moves;
    }
  }

  lemma RunFromStart(cfg: Config, start: State, moves: seq<Move>, s: State)
    requires !cfg.eviction.Other? && Init(start) && Reaches(cfg, start, moves, s)
    ensures Inv(s) && Traced(cfg, moves, s)
  {
    InitInv(start);
    RunTraces(cfg, [], start, moves, s);
    assert [] + moves == moves;
  }

  // ---------- what clients get, over a run ----------

  /** Some upstream's response m, fetched in the run for a request of this key. */
  ghost predicate Replied(moves: seq<Move>, s: State, key: string, m: Msg) {
    exists i :: 0 <= i < |moves| && moves[i].Fetch? && moves[i].reply.Response? && moves[i].reply.msg == m &&
                moves[i].p < |s.reqs| && |s.reqs[moves[i].p].question| == 1 && KeyOf(s.reqs[moves[i].p]) == key
  }

  lemma ResultIsReply(cfg: Config, moves: seq<Move>, s: State, f: nat) returns (m: Msg)
    requires Sound(s) && FlightsTraced(cfg, moves, s.calls) && f < |s.calls.flights| && s.calls.flights[f].result.Some?
    requires Co.FlightOk(s.calls, f) && !s.calls.procs[s.calls.flights[f].leader].pc.Running?
    ensures Replied(moves, s, s.calls.flights[f].key, m)
    ensures Ttl.ClampedBySection(cfg.MinSeconds(), cfg.MaxSeconds(), m, s.calls.flights[f].result.value)
  {
    var flight := s.calls.flights[f];
    assert FlightTraced(cfg, moves, s.calls, f);
    var i :| 0 <= i < |moves| && moves[i].Fetch? && moves[i].p == flight.leader && Follows(cfg, moves[i].reply, flight.result, flight.failed);
    m := moves[i].reply.msg;
    assert s.calls.procs[flight.leader].key == KeyOf(s.reqs[flight.leader]);
  }

  /** Or a reply without a response, with or without an error. */
  ghost predicate RepliedNothing(moves: seq<Move>, s: State, key: string, failed: bool) {
    exists i :: 0 <= i < |moves| && moves[i].Fetch? && !moves[i].reply.Response? && moves[i].reply.Failure? == failed &&
                moves[i].p < |s.reqs| && |s.reqs[moves[i].p].question| == 1 && KeyOf(s.reqs[moves[i].p]) == key
  }

  lemma SetsAreReplies(cfg: Config, moves: seq<Move>, s: State, key: string, i: int) returns (m: Msg)
    requires Inv(s) && FlightsTraced(cfg, moves, s.calls) && LatestSet(cfg, s.history, key, i)
    ensures Replied(moves, s, key, m)
    ensures Ttl.ClampedBySection(cfg.MinSeconds(), cfg.MaxSeconds(), m, s.history[i].resp)
  {
    var f := s.makers[i];
    assert MadeBy(s.calls.flights, s.history[i], f);
    assert Co.FlightOk(s.calls, f);
    var leader := s.calls.flights[f].leader;
    if s.calls.procs[leader].pc.Running? {
      assert SetOf(s.history, i, s.calls.procs[leader].key);
      assert false;
    }
    m := ResultIsReply(cfg, moves, s, f);
  }

  /** In any run, a client served from the cache gets what some upstream replied to a request of
      its key, in every section, but for TTLs. */
  lemma FreshAnswersAreReplies(cfg: Config, start: State, moves: seq<Move>, s: State, c: nat)
    requires !cfg.eviction.Other? && Init(start) && Reaches(cfg, start, moves, s)
    requires Inv(s) && Enabled(s, Look(c)) && Apply(cfg, s, Look(c)).clients[c].stage.Served?
    ensures exists m :: Replied(moves, s, KeyOf(s.clients[c].req), m) && Ttl.SameButTtls(m, Apply(cfg, s, Look(c)).clients[c].stage.answer)
  {
    var key, a := KeyOf(s.clients[c].req), Apply(cfg, s, Look(c)).clients[c].stage.answer;
    RunFromStart(cfg, start, moves, s);
    GetAnswersLatest(cfg, s.history, s.clients[c].req, s.now, a);
    var i :| FreshFrom(cfg, s.history, key, i, s.now, a);
    var m := SetsAreReplies(cfg, moves, s, key, i);
    var ttl := FreshTtl(cfg, ExpireOf(cfg, s.history[i]), s.now);
    Ttl.ClampedThenTtl(cfg.MinSeconds(), cfg.MaxSeconds(), m, s.history[i].resp, ttl, a);
  }

  /** So does one that is served a stale answer. */
  lemma StaleAnswersAreReplies(cfg: Config, start: State, moves: seq<Move>, s: State, c: nat)
    requires !cfg.eviction.Other? && Init(start) && Reaches(cfg, start, moves, s)
    requires Inv(s) && Enabled(s, LookStale(c)) && Apply(cfg, s, LookStale(c)).clients[c].stage.Served?
    ensures exists m :: Replied(moves, s, KeyOf(s.clients[c].req), m)
                        && Ttl.SameButTtls(m, Apply(cfg, s, LookStale(c)).clients[c].stage.answer)
  {
    var key, a := KeyOf(s.clients[c].req), Apply(cfg, s, LookStale(c)).clients[c].stage.answer;
    RunFromStart(cfg, start, moves, s);
    GetStaleAnswersLatest(cfg, s.history, s.clients[c].req, s.now, a);
    var i :| StaleFrom(cfg, s.history, key, i, s.now, a);
    var m := SetsAreReplies(cfg, moves, s, key, i);
    Ttl.ClampedThenTtl(cfg.MinSeconds(), cfg.MaxSeconds(), m, s.history[i].resp, StaleTtl(cfg), a);
  }

  /** What a call ends with: a message of its own that says what an upstream replied to a request
      of the same key, clamped, and no error; or what an upstream failed with. */
  ghost predicate EndsWell(cfg: Config, moves: seq<Move>, s: State, key: string, objects: seq<Msg>, got: Option<nat>, failed: bool) {
    match got
    case None => RepliedNothing(moves, s, key, failed)
    case Some(a) =>
      && !failed && a < |objects|
      && exists m :: Replied(moves, s, key, m) && Ttl.ClampedBySection(cfg.MinSeconds(), cfg.MaxSeconds(), m, objects[a])
  }

  lemma FlightEndsWell(cfg: Config, moves: seq<Move>, s: State, f: nat, objects: seq<Msg>, got: Option<nat>)
    requires Sound(s) && FlightsTraced(cfg, moves, s.calls) && f < |s.calls.flights|
    requires Co.FlightOk(s.calls, f) && !s.calls.procs[s.calls.flights[f].leader].pc.Running?
    requires match s.calls.flights[f].result
             case None => got.None?
             case Some(r) => got.Some? && got.value < |objects| && objects[got.value] == r
    ensures EndsWell(cfg, moves, s, s.calls.flights[f].key, objects, got, got.None? && s.calls.flights[f].failed)
    ensures s.calls.flights[f].result.Some? ==> !s.calls.flights[f].failed
  {
    var flight := s.calls.flights[f];
    assert FlightTraced(cfg, moves, s.calls, f);
    var i :| 0 <= i < |moves| && moves[i].Fetch? && moves[i].p == flight.leader && Follows(cfg, moves[i].reply, flight.result, flight.failed);
    assert s.calls.procs[flight.leader].key == KeyOf(s.reqs[flight.leader]);
    if flight.result.Some? { assert Replied(moves, s, flight.key, moves[i].reply.msg); }
  }

  /** In any run, so end the calls that lead a flight: what they have in hand when they delete it
      is what they return. */
  lemma LeadersEndWell(cfg: Config, start: State, moves: seq<Move>, s: State, q: nat, f: nat, got: Option<nat>, failed: bool)
    requires !cfg.eviction.Other? && Init(start) && Reaches(cfg, start, moves, s)
    requires q < |s.calls.procs| && s.calls.procs[q].pc == Co.Deleting(f, got, failed)
    ensures Inv(s) && |s.reqs[q].question| == 1 && EndsWell(cfg, moves, s, KeyOf(s.reqs[q]), s.calls.objects, got, failed)
  {
    RunFromStart(cfg, start, moves, s);
    LeaderHolds(s.calls, q, f, got, failed);
    FlightEndsWell(cfg, moves, s, f, s.calls.objects, got);
  }

  lemma LeaderHolds(calls: Calls, q: nat, f: nat, got: Option<nat>, failed: bool)
    requires Co.Inv(calls) && q < |calls.procs| && calls.procs[q].pc == Co.Deleting(f, got, failed)
    ensures f < |calls.flights| && Co.FlightOk(calls, f) && calls.flights[f].leader == q
    ensures calls.flights[f].key == calls.procs[q].key && calls.flights[f].failed == failed
    ensures match calls.flights[f].result
            case None => got.None?
            case Some(r) => got.Some? && got.value < |calls.objects| && calls.objects[got.value] == r
  {
    assert Co.ProcOk(calls, q) && Co.ResultOk(calls, q) && Co.FlightOk(calls, f);
  }

  /** And those that wait for one. */
  lemma WaitersEndWell(cfg: Config, start: State, moves: seq<Move>, s: State, q: nat, f: nat, t: Calls)
    requires !cfg.eviction.Other? && Init(start) && Reaches(cfg, start, moves, s)
    requires Co.Inv(s.calls) && Co.Enabled(s.calls, Co.Wake(q)) && s.calls.procs[q].pc == Co.Waiting(f)
    requires t == Co.Apply(s.calls, Co.Wake(q))
    ensures t.procs[q].pc.Returned? && q < |s.reqs| && |s.reqs[q].question| == 1
    ensures EndsWell(cfg, moves, s, KeyOf(s.reqs[q]), t.objects, t.procs[q].pc.got, t.procs[q].pc.failed)
  {
    RunFromStart(cfg, start, moves, s);
    Co.WaiterReturnsCopy(s.calls, q, f);
    assert Co.FlightOk(s.calls, f) && Co.ProcOk(s.calls, s.calls.flights[f].leader);
    FlightEndsWell(cfg, moves, s, f, t.objects, t.procs[q].pc.got);
  }

  /** A client that finds nothing in the cache, fresh or stale, waits for a call made for its own
      request. */
  lemma MissesCall(cfg: Config, s: State, c: nat)
    requires !cfg.eviction.Other? && Sound(s)
    ensures Enabled(s, Look(c)) && !Apply(cfg, s, Look(c)).clients[c].stage.Served? ==>
      Apply(cfg, s, Look(c)).clients[c] == Client(s.clients[c].req, LookingStale)
    ensures Enabled(s, LookStale(c)) && !Apply(cfg, s, LookStale(c)).clients[c].stage.Served? ==>
      var t := Apply(cfg, s, LookStale(c));
      && t.clients[c] == Client(s.clients[c].req, Calling(|s.calls.procs|))
      && t.calls.procs == s.calls.procs + [Co.Proc(KeyOf(s.clients[c].req), Co.Entering)]
      && t.reqs == s.reqs + [s.clients[c].req]
  {
  }

  /** In any run, what a client waits for is a call for its request. */
  lemma ClientsWaitForTheirs(cfg: Config, start: State, moves: seq<Move>, s: State, c: nat)
    requires !cfg.eviction.Other? && Init(start) && Reaches(cfg, start, moves, s)
    requires c < |s.clients| && s.clients[c].stage.Calling?
    ensures s.clients[c].stage.call < |s.calls.procs| == |s.reqs| && s.reqs[s.clients[c].stage.call] == s.clients[c].req
  {
    RunFromStart(cfg, start, moves, s);
  }
}
