/** The coalescer: concurrent calls under one key share the result of the first.  Do is cut
    into atomic steps at its lock, its wait group and the function it runs; every
    interleaving of any number of calls is a sequence of these steps. */
module Coalescer {
  import opened GoArith

  /** One coalesced call.  result is the value of what the leader's function returned;
      snapshot is the address of the copy made of it for the waiters. */
  datatype Flight<K, V> = Flight(key: K, leader: nat, done: bool, failed: bool, result: Option<V>, snapshot: Option<nat>)

  datatype Pc =
    | Entering
    | Waiting(flight: nat)
    | Running(flight: nat)
    | Finishing(flight: nat, got: Option<nat>, failed: bool)
    | Deleting(flight: nat, got: Option<nat>, failed: bool)
    | Returned(flight: nat, got: Option<nat>, failed: bool)

  /** A process is one call of Do. */
  datatype Proc<K> = Proc(key: K, pc: Pc)

  /** objects: every message made, by its address. */
  datatype State<K, V> = State(objects: seq<V>, table: map<K, nat>, flights: seq<Flight<K, V>>, procs: seq<Proc<K>>)

  datatype Move<K, V> =
    | Arrive(key: K)
    | Enter(p: nat)
    | Result(p: nat, result: Option<V>, failed: bool)
    | Finish(p: nat)
    | Delete(p: nat)
    | Wake(p: nat)
    | Rewrite(p: nat, value: V)   // a caller changes the message that it was given

  /** The flight that a process leads, from registering it to deleting it. */
  predicate Leads(pc: Pc, f: nat) {
    (pc.Running? || pc.Finishing? || pc.Deleting?) && pc.flight == f
  }

  /** The message that a process, or its caller afterwards, has in hand. */
  function Held(pc: Pc): Option<nat> {
    if pc.Finishing? || pc.Deleting? || pc.Returned? then pc.got else None
  }

  // ---------- the steps ----------

  predicate Enabled<K, V>(s: State<K, V>, m: Move<K, V>) {
    m.Arrive? ||
    (m.p < |s.procs| &&
     match s.procs[m.p].pc
     case Entering => m.Enter?
     case Waiting(f) => m.Wake? && f < |s.flights| && s.flights[f].done
     case Running(_) => m.Result?
     case Finishing(_, _, _) => m.Finish?
     case Deleting(_, _, _) => m.Delete?
     case Returned(_, got, _) => m.Rewrite? && got.Some?)
  }

  function Goto<K>(procs: seq<Proc<K>>, p: nat, pc: Pc): seq<Proc<K>>
    requires p < |procs|
  {
    procs[p := procs[p].(pc := pc)]
  }

  /** A new message: its address, and the memory with it. */
  function Make<V>(objects: seq<V>, v: Option<V>): (seq<V>, Option<nat>) {
    if v.Some? then (objects + [v.value], Some(|objects|)) else (objects, None)
  }

  /** Join the flight under the key, or register one and lead it. */
  function DoEnter<K, V>(s: State<K, V>, p: nat): State<K, V>
    requires p < |s.procs|
  {
    var key := s.procs[p].key;
    if key in s.table then s.(procs := Goto(s.procs, p, Waiting(s.table[key])))
    else
      var f := |s.flights|;
      State(s.objects, s.table[key := f], s.flights + [Flight(key, p, false, false, None, None)], Goto(s.procs, p, Running(f)))
  }

  /** The leader's function returns, perhaps with a message. */
  function DoResult<K, V>(s: State<K, V>, p: nat, f: nat, result: Option<V>, failed: bool): State<K, V>
    requires p < |s.procs| && f < |s.flights|
  {
    var (objects, got) := Make(s.objects, result);
    State(objects, s.table, s.flights[f := s.flights[f].(result := result, failed := failed)],
          Goto(s.procs, p, Finishing(f, got, failed)))
  }

  /** The waiters are let go, with a copy of the result to copy from. */
  function DoFinish<K, V>(s: State<K, V>, p: nat, f: nat, got: Option<nat>, failed: bool): State<K, V>
    requires p < |s.procs| && f < |s.flights| && (got.Some? ==> got.value < |s.objects|)
  {
    var (objects, snapshot) := Make(s.objects, if got.Some? then Some(s.objects[got.value]) else None);
    State(objects, s.table, s.flights[f := s.flights[f].(done := true, snapshot := snapshot)],
          Goto(s.procs, p, Deleting(f, got, failed)))
  }

  function DoDelete<K, V>(s: State<K, V>, p: nat, f: nat, got: Option<nat>, failed: bool): State<K, V>
    requires p < |s.procs|
  {
    s.(table := s.table - {s.procs[p].key}, procs := Goto(s.procs, p, Returned(f, got, failed)))
  }

  /** A waiter takes a copy of its own; only without a message does it see the error. */
  function DoWake<K, V>(s: State<K, V>, p: nat, f: nat): State<K, V>
    requires p < |s.procs| && f < |s.flights| && (s.flights[f].snapshot.Some? ==> s.flights[f].snapshot.value < |s.objects|)
  {
    var snapshot := s.flights[f].snapshot;
    var (objects, got) := Make(s.objects, if snapshot.Some? then Some(s.objects[snapshot.value]) else None);
    s.(objects := objects, procs := Goto(s.procs, p, Returned(f, got, got.None? && s.flights[f].failed)))
  }

  ghost function Apply<K, V>(s: State<K, V>, m: Move<K, V>): State<K, V>
    requires Inv(s) && Enabled(s, m)
  {
    match m
    case Arrive(key) => s.(procs := s.procs + [Proc(key, Entering)])
    case Enter(p) => DoEnter(s, p)
    case Result(p, result, failed) =>
      assert ProcOk(s, p);
      DoResult(s, p, s.procs[p].pc.flight, result, failed)
    case Finish(p) =>
      assert ProcOk(s, p);
      DoFinish(s, p, s.procs[p].pc.flight, s.procs[p].pc.got, s.procs[p].pc.failed)
    case Delete(p) => DoDelete(s, p, s.procs[p].pc.flight, s.procs[p].pc.got, s.procs[p].pc.failed)
    case Wake(p) =>
      assert FlightOk(s, s.procs[p].pc.flight);
      DoWake(s, p, s.procs[p].pc.flight)
    case Rewrite(p, value) =>
      assert ProcOk(s, p);
      s.(objects := s.objects[s.procs[p].pc.got.value := value])
  }

  // ---------- what every step keeps ----------

  /** What a process knows about its flight.  A leader's flight is in the table under the
      leader's key; a waiter's flight is done or still led. */
  ghost predicate ProcOk<K, V>(s: State<K, V>, p: nat)
    requires p < |s.procs|
  {
    var proc := s.procs[p];
    && (Held(proc.pc).Some? ==> Held(proc.pc).value < |s.objects|)
    && (!proc.pc.Entering? ==>
          var f := proc.pc.flight;
          && f < |s.flights| && s.flights[f].key == proc.key
          && (Leads(proc.pc, f) ==>
                s.flights[f].leader == p && proc.key in s.table && s.table[proc.key] == f && s.flights[f].done == proc.pc.Deleting?)
          && (proc.pc.Waiting? && !s.flights[f].done ==> proc.key in s.table && s.table[proc.key] == f)
          && (proc.pc.Returned? ==> s.flights[f].done))
  }

  /** A key in the table has a flight of its own, with its leader at work. */
  ghost predicate EntryOk<K, V>(s: State<K, V>, k: K)
    requires k in s.table
  {
    var f := s.table[k];
    && f < |s.flights| && s.flights[f].key == k && s.flights[f].leader < |s.procs|
    && Leads(s.procs[s.flights[f].leader].pc, f)
  }

  predicate LeaderOf<K(==)>(proc: Proc<K>, key: K, f: nat) {
    !proc.pc.Entering? && !proc.pc.Waiting? && proc.pc.flight == f && proc.key == key
  }

  /** A flight has its leader for good.  A snapshot is made when the flight is done and says
      what the flight's result said. */
  ghost predicate FlightOk<K, V>(s: State<K, V>, f: nat)
    requires f < |s.flights|
  {
    var flight := s.flights[f];
    && flight.leader < |s.procs| && LeaderOf(s.procs[flight.leader], flight.key, f)
    && (if flight.done && flight.result.Some? then
          flight.snapshot.Some? && flight.snapshot.value < |s.objects| && s.objects[flight.snapshot.value] == flight.result.value
        else flight.snapshot.None?)
  }

  /** Until its leader returns it, a result is as the function returned it. */
  ghost predicate ResultOk<K, V>(s: State<K, V>, p: nat)
    requires p < |s.procs|
  {
    var pc := s.procs[p].pc;
    pc.Finishing? || pc.Deleting? ==>
      && pc.flight < |s.flights| && s.flights[pc.flight].failed == pc.failed
      && (if pc.got.Some? then pc.got.value < |s.objects| && s.flights[pc.flight].result == Some(s.objects[pc.got.value])
          else s.flights[pc.flight].result.None?)
  }

  /** No message is in two hands, and no snapshot is in anybody's. */
  ghost predicate Apart<K, V>(s: State<K, V>) {
    && (forall p, q :: 0 <= p < |s.procs| && 0 <= q < |s.procs| && p != q && Held(s.procs[p].pc).Some? ==> Held(s.procs[p].pc) != Held(s.procs[q].pc))
    && (forall p, f :: 0 <= p < |s.procs| && 0 <= f < |s.flights| && Held(s.procs[p].pc).Some? ==>
          Held(s.procs[p].pc) != s.flights[f].snapshot)
  }

  ghost predicate TableOk<K, V>(s: State<K, V>) {
    forall k :: k in s.table ==> EntryOk(s, k)
  }

  ghost predicate ProcsOk<K, V>(s: State<K, V>) {
    forall p :: 0 <= p < |s.procs| ==> ProcOk(s, p)
  }

  ghost predicate ValuesOk<K, V>(s: State<K, V>) {
    && (forall f :: 0 <= f < |s.flights| ==> FlightOk(s, f))
    && (forall p :: 0 <= p < |s.procs| ==> ResultOk(s, p))
  }

  ghost predicate Inv<K, V>(s: State<K, V>) {
    ProcsOk(s) && TableOk(s) && ValuesOk(s) && Apart(s)
  }

  lemma InitInv<K, V>(s: State<K, V>)
    requires s == State([], map[], [], [])
    ensures Inv(s)
  {
  }

  /** Addresses in use are addresses of messages made. */
  ghost predicate InRange<K, V>(s: State<K, V>) {
    && (forall p :: 0 <= p < |s.procs| && Held(s.procs[p].pc).Some? ==> Held(s.procs[p].pc).value < |s.objects|)
    && (forall f :: 0 <= f < |s.flights| && s.flights[f].snapshot.Some? ==> s.flights[f].snapshot.value < |s.objects|)
  }

  lemma InvInRange<K, V>(s: State<K, V>)
    requires ProcsOk(s) && ValuesOk(s)
    ensures InRange(s)
  {
    forall p | 0 <= p < |s.procs| && Held(s.procs[p].pc).Some? ensures Held(s.procs[p].pc).value < |s.objects| {
      assert ProcOk(s, p);
    }
    forall f | 0 <= f < |s.flights| && s.flights[f].snapshot.Some? ensures s.flights[f].snapshot.value < |s.objects| {
      assert FlightOk(s, f);
    }
  }

  /** A process takes a message that is new, or keeps what it has. */
  lemma TakingKeepsApart<K, V>(s: State<K, V>, t: State<K, V>, p: nat)
    requires Apart(s) && InRange(s) && p < |s.procs| == |t.procs| && |t.flights| == |s.flights|
    requires forall q :: 0 <= q < |s.procs| && q != p ==> Held(t.procs[q].pc) == Held(s.procs[q].pc)
    requires forall f :: 0 <= f < |s.flights| ==> t.flights[f].snapshot == s.flights[f].snapshot
    requires Held(t.procs[p].pc) in {None, Some(|s.objects|), Held(s.procs[p].pc)}
    ensures Apart(t)
  {
  }

  /** A flight gets a snapshot that is new, or none. */
  lemma SnappingKeepsApart<K, V>(s: State<K, V>, t: State<K, V>, f: nat)
    requires Apart(s) && InRange(s) && |s.procs| == |t.procs| && f < |t.flights| == |s.flights|
    requires forall q :: 0 <= q < |s.procs| ==> Held(t.procs[q].pc) == Held(s.procs[q].pc)
    requires forall g :: 0 <= g < |s.flights| && g != f ==> t.flights[g].snapshot == s.flights[g].snapshot
    requires t.flights[f].snapshot in {None, Some(|s.objects|)}
    ensures Apart(t)
  {
  }

  /** To see that a part of t is as it should be, look at the same part of s. */
  lemma RecallProcs<K, V>(s: State<K, V>, t: State<K, V>)
    requires ProcsOk(s) && TableOk(s)
    ensures forall q: nat {:trigger ProcOk(t, q)} :: q < |s.procs| ==> ProcOk(s, q)
    ensures forall k {:trigger EntryOk(t, k)} :: k in s.table ==> EntryOk(s, k)
  {
  }

  lemma RecallValues<K, V>(s: State<K, V>, t: State<K, V>)
    requires ValuesOk(s)
    ensures forall g: nat {:trigger FlightOk(t, g)} :: g < |s.flights| ==> FlightOk(s, g)
    ensures forall q: nat {:trigger ResultOk(t, q)} :: q < |s.procs| ==> ResultOk(s, q)
  {
  }

  lemma ArriveKeepsInv<K, V>(s: State<K, V>, key: K)
    requires Inv(s)
    ensures Inv(Apply(s, Arrive(key)))
  {
    var t := Apply(s, Arrive(key));
    RecallProcs(s, t);
    RecallValues(s, t);
  }

  lemma JoinKeepsProcs<K, V>(s: State<K, V>, p: nat, t: State<K, V>)
    requires ProcsOk(s) && TableOk(s) && p < |s.procs| && s.procs[p].pc.Entering? && s.procs[p].key in s.table
    requires t == DoEnter(s, p)
    ensures ProcsOk(t) && TableOk(t)
  {
    assert EntryOk(s, s.procs[p].key);
    RecallProcs(s, t);
  }

  lemma RegisterKeepsProcs<K, V>(s: State<K, V>, p: nat, t: State<K, V>)
    requires ProcsOk(s) && TableOk(s) && p < |s.procs| && s.procs[p].pc.Entering? && s.procs[p].key !in s.table
    requires t == DoEnter(s, p)
    ensures ProcsOk(t) && TableOk(t)
  {
    RecallProcs(s, t);
  }

  lemma EnterKeepsValues<K, V>(s: State<K, V>, p: nat, t: State<K, V>)
    requires ValuesOk(s) && p < |s.procs| && s.procs[p].pc.Entering? && t == DoEnter(s, p)
    ensures ValuesOk(t)
  {
    RecallValues(s, t);
  }

  lemma EnterKeepsApart<K, V>(s: State<K, V>, p: nat, t: State<K, V>)
    requires Apart(s) && p < |s.procs| && s.procs[p].pc.Entering? && t == DoEnter(s, p)
    ensures Apart(t)
  {
  }

  lemma EnterKeepsInv<K, V>(s: State<K, V>, p: nat)
    requires Inv(s) && p < |s.procs| && s.procs[p].pc.Entering?
    ensures Inv(DoEnter(s, p))
  {
    var t := DoEnter(s, p);
    if s.procs[p].key in s.table {
      JoinKeepsProcs(s, p, t);
    } else {
      RegisterKeepsProcs(s, p, t);
    }
    EnterKeepsValues(s, p, t);
    EnterKeepsApart(s, p, t);
  }

  lemma ResultKeepsProcs<K, V>(s: State<K, V>, p: nat, f: nat, result: Option<V>, failed: bool, t: State<K, V>)
    requires ProcsOk(s) && TableOk(s) && p < |s.procs| && s.procs[p].pc == Running(f) && f < |s.flights|
    requires t == DoResult(s, p, f, result, failed)
    ensures ProcsOk(t) && TableOk(t)
  {
    assert ProcOk(s, p);
    RecallProcs(s, t);
  }

  lemma ResultKeepsValues<K, V>(s: State<K, V>, p: nat, f: nat, result: Option<V>, failed: bool, t: State<K, V>)
    requires ProcsOk(s) && ValuesOk(s) && p < |s.procs| && s.procs[p].pc == Running(f) && f < |s.flights|
    requires t == DoResult(s, p, f, result, failed)
    ensures ValuesOk(t)
  {
    assert ProcOk(s, p) && FlightOk(s, f);
    forall q | 0 <= q < |t.procs| ensures ResultOk(t, q) {
      assert ProcOk(s, q) && ResultOk(s, q);
    }
    RecallValues(s, t);
  }

  lemma ResultKeepsInv<K, V>(s: State<K, V>, p: nat, f: nat, result: Option<V>, failed: bool)
    requires Inv(s) && p < |s.procs| && s.procs[p].pc == Running(f)
    ensures ProcOk(s, p) && Inv(DoResult(s, p, f, result, failed))
  {
    assert ProcOk(s, p);
    var t := DoResult(s, p, f, result, failed);
    InvInRange(s);
    TakingKeepsApart(s, t, p);
    ResultKeepsProcs(s, p, f, result, failed, t);
    ResultKeepsValues(s, p, f, result, failed, t);
  }

  ghost predicate Finishes<K, V>(s: State<K, V>, p: nat, f: nat, got: Option<nat>, failed: bool) {
    p < |s.procs| && s.procs[p].pc == Finishing(f, got, failed) && f < |s.flights| && (got.Some? ==> got.value < |s.objects|)
  }

  lemma FinishKeepsProcs<K, V>(s: State<K, V>, p: nat, f: nat, got: Option<nat>, failed: bool, t: State<K, V>)
    requires ProcsOk(s) && TableOk(s) && Finishes(s, p, f, got, failed) && t == DoFinish(s, p, f, got, failed)
    ensures ProcsOk(t) && TableOk(t)
  {
    assert ProcOk(s, p);
    RecallProcs(s, t);
  }

  lemma FinishKeepsValues<K, V>(s: State<K, V>, p: nat, f: nat, got: Option<nat>, failed: bool, t: State<K, V>)
    requires ValuesOk(s) && InRange(s) && Finishes(s, p, f, got, failed) && t == DoFinish(s, p, f, got, failed)
    ensures ValuesOk(t)
  {
    assert ResultOk(s, p) && FlightOk(s, f);
    RecallValues(s, t);
  }

  lemma FinishKeepsInv<K, V>(s: State<K, V>, p: nat, f: nat, got: Option<nat>, failed: bool)
    requires Inv(s) && p < |s.procs| && s.procs[p].pc == Finishing(f, got, failed)
    ensures ProcOk(s, p) && Inv(DoFinish(s, p, f, got, failed))
  {
    assert ProcOk(s, p) && ResultOk(s, p);
    var t := DoFinish(s, p, f, got, failed);
    InvInRange(s);
    SnappingKeepsApart(s, t, f);
    FinishKeepsProcs(s, p, f, got, failed, t);
    FinishKeepsValues(s, p, f, got, failed, t);
  }

  lemma DeleteKeepsProcs<K, V>(s: State<K, V>, p: nat, f: nat, got: Option<nat>, failed: bool, t: State<K, V>)
    requires ProcsOk(s) && TableOk(s) && p < |s.procs| && s.procs[p].pc == Deleting(f, got, failed)
    requires t == DoDelete(s, p, f, got, failed)
    ensures ProcsOk(t) && TableOk(t)
  {
    assert ProcOk(s, p);
    RecallProcs(s, t);
  }

  lemma DeleteKeepsInv<K, V>(s: State<K, V>, p: nat, f: nat, got: Option<nat>, failed: bool)
    requires Inv(s) && p < |s.procs| && s.procs[p].pc == Deleting(f, got, failed)
    ensures Inv(DoDelete(s, p, f, got, failed))
  {
    assert ProcOk(s, p);
    var t := DoDelete(s, p, f, got, failed);
    InvInRange(s);
    TakingKeepsApart(s, t, p);
    DeleteKeepsProcs(s, p, f, got, failed, t);
    RecallValues(s, t);
  }

  lemma WakeKeepsProcs<K, V>(s: State<K, V>, p: nat, f: nat, t: State<K, V>)
    requires ProcsOk(s) && TableOk(s) && InRange(s) && p < |s.procs| && s.procs[p].pc == Waiting(f)
    requires f < |s.flights| && s.flights[f].done && t == DoWake(s, p, f)
    ensures ProcsOk(t) && TableOk(t)
  {
    assert ProcOk(s, p);
    RecallProcs(s, t);
  }

  lemma WakeKeepsInv<K, V>(s: State<K, V>, p: nat, f: nat)
    requires Inv(s) && p < |s.procs| && s.procs[p].pc == Waiting(f) && f < |s.flights| && s.flights[f].done
    ensures FlightOk(s, f) && Inv(DoWake(s, p, f))
  {
    assert FlightOk(s, f);
    var t := DoWake(s, p, f);
    InvInRange(s);
    TakingKeepsApart(s, t, p);
    WakeKeepsProcs(s, p, f, t);
    RecallValues(s, t);
  }

  lemma RewriteKeepsInv<K, V>(s: State<K, V>, p: nat, value: V)
    requires Inv(s) && Enabled(s, Rewrite(p, value))
    ensures Inv(Apply(s, Rewrite(p, value)))
  {
    assert ProcOk(s, p);
    var t := Apply(s, Rewrite(p, value));
    RecallProcs(s, t);
    RecallValues(s, t);
  }

  lemma StepKeepsInv<K, V>(s: State<K, V>, m: Move<K, V>)
    requires Inv(s) && Enabled(s, m)
    ensures Inv(Apply(s, m))
  {
    match m
    case Arrive(key) => ArriveKeepsInv(s, key);
    case Enter(p) => EnterKeepsInv(s, p);
    case Result(p, result, failed) => ResultKeepsInv(s, p, s.procs[p].pc.flight, result, failed);
    case Finish(p) => FinishKeepsInv(s, p, s.procs[p].pc.flight, s.procs[p].pc.got, s.procs[p].pc.failed);
    case Delete(p) => DeleteKeepsInv(s, p, s.procs[p].pc.flight, s.procs[p].pc.got, s.procs[p].pc.failed);
    case Wake(p) => WakeKeepsInv(s, p, s.procs[p].pc.flight);
    case Rewrite(p, value) => RewriteKeepsInv(s, p, value);
  }

  /** What a flight keeps but for the return of its function. */
  ghost predicate SameFlight<K, V>(a: Flight<K, V>, b: Flight<K, V>) {
    b.key == a.key && b.leader == a.leader && b.result == a.result && b.failed == a.failed
  }

  /** From a state to a later one: keys, results and errors stay, nobody stops running, and only a
      flight that is new can have started to run. */
  ghost predicate Continues<K, V>(a: State<K, V>, b: State<K, V>) {
    && |a.flights| <= |b.flights| && |a.procs| <= |b.procs|
    && (forall f :: 0 <= f < |a.flights| ==> SameFlight(a.flights[f], b.flights[f]))
    && (forall f :: |a.flights| <= f < |b.flights| ==> b.flights[f].leader < |b.procs| && b.procs[b.flights[f].leader].pc == Running(f))
    && (forall p :: 0 <= p < |a.procs| && a.procs[p].pc.Running? ==> b.procs[p].pc == a.procs[p].pc)
    && (forall p :: 0 <= p < |a.procs| ==> b.procs[p].key == a.procs[p].key)
    && (forall p :: 0 <= p < |b.procs| && b.procs[p].pc.Running? ==>
          b.procs[p].pc.flight >= |a.flights| || (p < |a.procs| && a.procs[p].pc == b.procs[p].pc))
  }

  lemma StepContinues<K, V>(s: State<K, V>, m: Move<K, V>)
    requires Inv(s) && Enabled(s, m) && !m.Result?
    ensures Continues(s, Apply(s, m))
    ensures m.Arrive? ==> Apply(s, m).procs == s.procs + [Proc(m.key, Entering)]
    ensures !m.Arrive? ==> |Apply(s, m).procs| == |s.procs|
  {
    match m
    case Arrive(key) =>
    case Enter(p) => EnterContinues(s, p);
    case Finish(p) => FinishContinues(s, p);
    case Delete(p) =>
    case Wake(p) =>
    case Rewrite(p, value) =>
  }

  lemma EnterContinues<K, V>(s: State<K, V>, p: nat)
    requires p < |s.procs| && s.procs[p].pc.Entering?
    ensures Continues(s, DoEnter(s, p))
  {
  }

  lemma FinishContinues<K, V>(s: State<K, V>, p: nat)
    requires Inv(s) && Enabled(s, Finish(p))
    ensures Continues(s, Apply(s, Finish(p)))
  {
    assert ProcOk(s, p);
  }

  lemma OnlyNewFlights<K, V>(s: State<K, V>, m: Move<K, V>)
    requires Inv(s) && Enabled(s, m) && !m.Result?
    ensures forall f :: |s.flights| <= f < |Apply(s, m).flights| ==> Apply(s, m).flights[f].result.None?
  {
    if m.Finish? { assert ProcOk(s, m.p); }
  }

  /** What the function returned is now the flight's, and the leader has it in hand. */
  lemma ResultIsGiven<K, V>(s: State<K, V>, p: nat, result: Option<V>, failed: bool)
    requires Inv(s) && Enabled(s, Result(p, result, failed))
    ensures var t, f := Apply(s, Result(p, result, failed)), s.procs[p].pc.flight;
      && f < |t.flights| == |s.flights| && t.flights[f].leader == p < |t.procs|
      && t.flights[f].result == result && t.flights[f].failed == failed
      && (match result
          case None => t.procs[p].pc == Finishing(f, None, failed) && t.objects == s.objects
          case Some(v) => t.procs[p].pc == Finishing(f, Some(|s.objects|), failed) && t.objects == s.objects + [v])
  {
    assert ProcOk(s, p);
  }

  /** A call that arrives during a flight of its key waits for that flight, and for no other; one
      that arrives without makes a flight of its own. */
  lemma JoinsOrLeads<K, V>(s: State<K, V>, p: nat, f: nat)
    requires Inv(s) && Enabled(s, Enter(p)) && f < |s.flights| && s.flights[f].key == s.procs[p].key
    ensures var t := Apply(s, Enter(p));
      if exists q :: 0 <= q < |s.procs| && Leads(s.procs[q].pc, f) then
        t.procs[p].pc == Waiting(f) && t.flights == s.flights
      else t.procs[p].pc != Waiting(f)
  {
    if q :| 0 <= q < |s.procs| && Leads(s.procs[q].pc, f) {
      assert ProcOk(s, q);
    } else if s.procs[p].key in s.table {
      assert EntryOk(s, s.procs[p].key);
    }
  }

  lemma ResultChangesOneFlight<K, V>(s: State<K, V>, p: nat, f: nat, result: Option<V>, failed: bool, t: State<K, V>)
    requires p < |s.procs| && s.procs[p].pc == Running(f) && f < |s.flights| && t == DoResult(s, p, f, result, failed)
    ensures |t.flights| == |s.flights| && t.flights[f].key == s.flights[f].key && t.flights[f].result == result
    ensures forall g :: 0 <= g < |s.flights| && g != f ==> t.flights[g] == s.flights[g]
    ensures |t.procs| == |s.procs| && t.procs[p].key == s.procs[p].key && !t.procs[p].pc.Running?
    ensures forall q :: 0 <= q < |s.procs| && q != p ==> t.procs[q] == s.procs[q]
  {
  }

  // ---------- what callers may rely on, in every state that can be reached ----------

  /** The moves can be made one after another from s, and lead to t. */
  ghost predicate Reaches<K, V>(s: State<K, V>, moves: seq<Move<K, V>>, t: State<K, V>)
    decreases |moves|
  {
    if moves == [] then s == t
    else Inv(s) && Enabled(s, moves[0]) && Reaches(Apply(s, moves[0]), moves[1..], t)
  }

  lemma {:induction false} RunKeepsInv<K, V>(s: State<K, V>, moves: seq<Move<K, V>>, t: State<K, V>)
    requires Inv(s) && Reaches(s, moves, t)
    ensures Inv(t)
    decreases |moves|
  {
    if moves != [] {
      StepKeepsInv(s, moves[0]);
      RunKeepsInv(Apply(s, moves[0]), moves[1..], t);
    }
  }

  /** Between registering and deleting there is one leader per key, and what it deletes is
      its own flight. */
  lemma OneLeaderPerKey<K, V>(s: State<K, V>, p: nat, q: nat, f: nat, g: nat)
    requires Inv(s) && p < |s.procs| && q < |s.procs|
    requires Leads(s.procs[p].pc, f) && Leads(s.procs[q].pc, g) && s.procs[p].key == s.procs[q].key
    ensures p == q && f == g && s.procs[p].key in s.table && s.table[s.procs[p].key] == f
  {
    assert ProcOk(s, p) && ProcOk(s, q);
  }

  /** When a flight is registered, all earlier flights of its key are done, deleted and
      returned from: the flights of a key never overlap. */
  lemma FlightsNeverOverlap<K, V>(s: State<K, V>, p: nat, f: nat)
    requires Inv(s) && p < |s.procs| && s.procs[p].pc.Entering? && s.procs[p].key !in s.table
    requires f < |s.flights| && s.flights[f].key == s.procs[p].key
    ensures DoEnter(s, p).procs[p].pc == Running(|s.flights|)
    ensures s.flights[f].done && s.flights[f].leader < |s.procs| && s.procs[s.flights[f].leader].pc.Returned?
    ensures forall q :: 0 <= q < |s.procs| ==> !Leads(s.procs[q].pc, f)
  {
    assert FlightOk(s, f) && ProcOk(s, s.flights[f].leader);
    forall q | 0 <= q < |s.procs| ensures !Leads(s.procs[q].pc, f) {
      assert ProcOk(s, q);
    }
  }

  /** Nobody waits in vain: a flight that is not done has its leader still running. */
  lemma WaitersHaveLeader<K, V>(s: State<K, V>, p: nat)
    requires Inv(s) && p < |s.procs| && s.procs[p].pc.Waiting?
    ensures var f := s.procs[p].pc.flight;
      && f < |s.flights| && s.flights[f].key == s.procs[p].key && s.flights[f].leader < |s.procs|
      && (!s.flights[f].done ==>
            var pc := s.procs[s.flights[f].leader].pc; (pc.Running? || pc.Finishing?) && pc.flight == f)
  {
    var f := s.procs[p].pc.flight;
    assert ProcOk(s, p) && FlightOk(s, f);
    if !s.flights[f].done {
      assert EntryOk(s, s.procs[p].key);
      assert ProcOk(s, s.flights[f].leader);
    }
  }

  /** So some process that has not returned can move, as long as there is one. */
  lemma SomebodyMoves<K, V>(s: State<K, V>, p: nat) returns (q: nat)
    requires Inv(s) && p < |s.procs| && !s.procs[p].pc.Returned?
    ensures q < |s.procs| && !s.procs[q].pc.Returned?
    ensures q == p || (s.procs[p].pc.Waiting? && s.procs[p].pc.flight < |s.flights| && q == s.flights[s.procs[p].pc.flight].leader)
    ensures Enabled(s, Enter(q)) || Enabled(s, Result(q, None, true)) || Enabled(s, Finish(q)) || Enabled(s, Delete(q)) || Enabled(s, Wake(q))
  {
    assert ProcOk(s, p);
    if s.procs[p].pc.Waiting? && !s.flights[s.procs[p].pc.flight].done {
      WaitersHaveLeader(s, p);
      return s.flights[s.procs[p].pc.flight].leader;
    }
    return p;
  }

  /** What a waiter returns: a message of its own that says what its flight's function
      returned, or the function's error when that returned no message. */
  lemma WaiterReturnsCopy<K, V>(s: State<K, V>, p: nat, f: nat)
    requires Inv(s) && Enabled(s, Wake(p)) && s.procs[p].pc == Waiting(f)
    ensures var t := Apply(s, Wake(p));
      && f < |t.flights| && t.flights == s.flights && t.flights[f].key == s.procs[p].key
      && (t.flights[f].result.Some? ==>
            t.procs[p].pc == Returned(f, Some(|s.objects|), false) && t.objects == s.objects + [t.flights[f].result.value])
      && (t.flights[f].result.None? ==> t.procs[p].pc == Returned(f, None, t.flights[f].failed) && t.objects == s.objects)
  {
    assert ProcOk(s, p) && FlightOk(s, f);
  }

  /** The leader returns the message that its function made, unchanged. */
  lemma LeaderReturnsResult<K, V>(s: State<K, V>, p: nat, f: nat, got: Option<nat>, failed: bool)
    requires Inv(s) && p < |s.procs| && s.procs[p].pc == Deleting(f, got, failed)
    ensures var t := Apply(s, Delete(p));
      && t.procs[p].pc == Returned(f, got, failed) && f < |t.flights| && t.flights[f].failed == failed
      && (got.Some? ==> got.value < |t.objects| && t.flights[f].result == Some(t.objects[got.value]))
      && (got.None? ==> t.flights[f].result.None?)
      && t.table == s.table - {s.procs[p].key}
  {
    assert ResultOk(s, p);
  }

  /** Whatever callers do to the messages they were given, the results that others still
      have to return stay what they were. */
  lemma CallersCannotInterfere<K, V>(s: State<K, V>, p: nat, value: V, f: nat)
    requires Inv(s) && Enabled(s, Rewrite(p, value)) && f < |s.flights| && s.flights[f].done && s.flights[f].result.Some?
    ensures var t := Apply(s, Rewrite(p, value));
      && f < |t.flights| && t.flights[f].snapshot.Some? && t.flights[f].snapshot.value < |t.objects|
      && t.objects[t.flights[f].snapshot.value] == s.flights[f].result.value
  {
    RewriteKeepsInv(s, p, value);
    assert FlightOk(Apply(s, Rewrite(p, value)), f);
  }

  // ---------- what callers get, over a run ----------

  /** In the course of the moves the function of process p returned this. */
  ghost predicate Gave<K, V>(moves: seq<Move<K, V>>, p: nat, result: Option<V>, failed: bool) {
    exists i :: 0 <= i < |moves| && moves[i] == Result(p, result, failed)
  }

  /** No process has its function return twice. */
  ghost predicate OnceEach<K, V>(moves: seq<Move<K, V>>) {
    forall i, j :: 0 <= i < j < |moves| && moves[i].Result? && moves[j].Result? ==> moves[i].p != moves[j].p
  }

  predicate Past(pc: Pc) {
    pc.Finishing? || pc.Deleting? || pc.Returned?
  }

  ghost predicate FlightTraced<K, V>(moves: seq<Move<K, V>>, s: State<K, V>, f: nat)
    requires f < |s.flights|
  {
    s.flights[f].leader < |s.procs| && !s.procs[s.flights[f].leader].pc.Running? ==>
      Gave(moves, s.flights[f].leader, s.flights[f].result, s.flights[f].failed)
  }

  /** The moves account for the state: what a flight says is what its leader's function returned,
      unless that still runs. */
  ghost predicate Traced<K, V>(moves: seq<Move<K, V>>, s: State<K, V>) {
    && (forall f :: 0 <= f < |s.flights| ==> FlightTraced(moves, s, f))
    && (forall i :: 0 <= i < |moves| && moves[i].Result? ==> moves[i].p < |s.procs| && Past(s.procs[moves[i].p].pc))
    && OnceEach(moves)
  }

  lemma GaveBefore<K, V>(moves: seq<Move<K, V>>, m: Move<K, V>, p: nat, result: Option<V>, failed: bool)
    requires Gave(moves, p, result, failed)
    ensures Gave(moves + [m], p, result, failed)
  {
    var i :| 0 <= i < |moves| && moves[i] == Result(p, result, failed);
    assert (moves + [m])[i] == moves[i];
  }

  lemma ContinuingTraces<K, V>(moves: seq<Move<K, V>>, s: State<K, V>, m: Move<K, V>, t: State<K, V>)
    requires Inv(s) && Traced(moves, s) && !m.Result? && Continues(s, t)
    requires forall p :: 0 <= p < |s.procs| && Past(s.procs[p].pc) ==> Past(t.procs[p].pc)
    ensures Traced(moves + [m], t)
  {
    forall f | 0 <= f < |t.flights| ensures FlightTraced(moves + [m], t, f) {
      if f < |s.flights| {
        assert FlightOk(s, f) && FlightTraced(moves, s, f);
        var flight := s.flights[f];
        if !s.procs[flight.leader].pc.Running? { GaveBefore(moves, m, flight.leader, flight.result, flight.failed); }
      }
    }
  }

  lemma ResultTraces<K, V>(moves: seq<Move<K, V>>, s: State<K, V>, p: nat, f: nat, result: Option<V>, failed: bool, t: State<K, V>)
    requires Inv(s) && Traced(moves, s) && p < |s.procs| && s.procs[p].pc == Running(f) && f < |s.flights|
    requires t == DoResult(s, p, f, result, failed)
    ensures Traced(moves + [Result(p, result, failed)], t)
  {
    var m := Result(p, result, failed);
    var more := moves + [m];
    ResultChangesOneFlight(s, p, f, result, failed, t);
    assert ProcOk(s, p);
    forall g | 0 <= g < |t.flights| ensures FlightTraced(more, t, g) {
      assert FlightOk(s, g) && FlightTraced(moves, s, g);
      if g == f {
        assert more[|moves|] == m;
      } else if !s.procs[s.flights[g].leader].pc.Running? {
        GaveBefore(moves, m, s.flights[g].leader, s.flights[g].result, s.flights[g].failed);
      }
    }
    assert forall i :: 0 <= i < |moves| && moves[i].Result? ==> moves[i].p != p;
  }

  lemma StepTraces<K, V>(moves: seq<Move<K, V>>, s: State<K, V>, m: Move<K, V>)
    requires Inv(s) && Enabled(s, m) && Traced(moves, s)
    ensures Traced(moves + [m], Apply(s, m))
  {
    if m.Result? {
      assert ProcOk(s, m.p);
      ResultTraces(moves, s, m.p, s.procs[m.p].pc.flight, m.result, m.failed, Apply(s, m));
    } else {
      StepContinues(s, m);
      PastStays(s, m);
      ContinuingTraces(moves, s, m, Apply(s, m));
    }
  }

  lemma PastStays<K, V>(s: State<K, V>, m: Move<K, V>)
    requires Inv(s) && Enabled(s, m) && !m.Result?
    ensures |s.procs| <= |Apply(s, m).procs|
    ensures forall p :: 0 <= p < |s.procs| && Past(s.procs[p].pc) ==> Past(Apply(s, m).procs[p].pc)
  {
  }

  lemma {:induction false} RunTraces<K, V>(past: seq<Move<K, V>>, s: State<K, V>, moves: seq<Move<K, V>>, t: State<K, V>)
    requires Inv(s) && Traced(past, s) && Reaches(s, moves, t)
    ensures Inv(t) && Traced(past + moves, t)
    decreases |moves|
  {
    if moves == [] {
      assert past + moves == past;
    } else {
      StepKeepsInv(s, moves[0]);
      StepTraces(past, s, moves[0]);
      RunTraces(past + [moves[0]], Apply(s, moves[0]), moves[1..], t);
      assert past + [moves[0]] + moves[1..] == past + moves;
    }
  }

  lemma RunFromStart<K, V>(start: State<K, V>, moves: seq<Move<K, V>>, s: State<K, V>)
    requires start == State([], map[], [], []) && Reaches(start, moves, s)
    ensures Inv(s) && Traced(moves, s)
  {
    RunTraces([], start, moves, s);
    assert [] + moves == moves;
  }

  /** In any run a leader returns exactly what its function returned, message and error, and its
      function has returned once. */
  lemma LeadersGetTheirResult<K, V>(start: State<K, V>, moves: seq<Move<K, V>>, s: State<K, V>, p: nat, f: nat, got: Option<nat>, failed: bool)
    requires start == State([], map[], [], []) && Reaches(start, moves, s)
    requires p < |s.procs| && s.procs[p].pc == Deleting(f, got, failed)
    ensures Inv(s) && OnceEach(moves) && (got.Some? ==> got.value < |s.objects|)
    ensures Gave(moves, p, if got.Some? then Some(s.objects[got.value]) else None, failed)
    ensures Apply(s, Delete(p)).procs[p].pc == Returned(f, got, failed) && Apply(s, Delete(p)).objects == s.objects
  {
    RunFromStart(start, moves, s);
    assert ProcOk(s, p) && ResultOk(s, p) && FlightTraced(moves, s, f);
  }

  /** A waiter returns what the leader of its flight got: a copy of the message, which then hides
      an error; or, without a message, the error if there was one. */
  lemma WaitersGetTheLeadersResult<K, V>(start: State<K, V>, moves: seq<Move<K, V>>, s: State<K, V>, p: nat, f: nat)
    requires start == State([], map[], [], []) && Reaches(start, moves, s)
    requires Enabled(s, Wake(p)) && s.procs[p].pc == Waiting(f)
    ensures Inv(s) && OnceEach(moves) && f < |s.flights| && s.flights[f].key == s.procs[p].key
    ensures exists result, failed :: Gave(moves, s.flights[f].leader, result, failed) && WakesWith(s, Apply(s, Wake(p)), p, f, result, failed)
  {
    RunFromStart(start, moves, s);
    WaiterReturnsCopy(s, p, f);
    assert FlightOk(s, f) && FlightTraced(moves, s, f);
    assert ProcOk(s, s.flights[f].leader);
    assert WakesWith(s, Apply(s, Wake(p)), p, f, s.flights[f].result, s.flights[f].failed);
  }

  ghost predicate WakesWith<K, V>(s: State<K, V>, t: State<K, V>, p: nat, f: nat, result: Option<V>, failed: bool) {
    p < |t.procs| &&
    match result
    case None => t.procs[p].pc == Returned(f, None, failed) && t.objects == s.objects
    case Some(v) => t.procs[p].pc == Returned(f, Some(|s.objects|), false) && t.objects == s.objects + [v]
  }

  lemma Lands<K, V>(s: State<K, V>, p: nat, f: nat, got: Option<nat>, failed: bool) returns (moves: seq<Move<K, V>>, t: State<K, V>)
    requires Inv(s) && p < |s.procs| && s.procs[p].pc == Finishing(f, got, failed)
    ensures Inv(t) && Reaches(s, moves, t) && t.table == s.table - {s.procs[p].key}
    ensures f < |t.flights| == |s.flights| && t.flights[f].done
    ensures t.flights[f].key == s.flights[f].key && t.flights[f].result == s.flights[f].result
    ensures |t.procs| == |s.procs| && forall q :: 0 <= q < |s.procs| && q != p ==> t.procs[q] == s.procs[q]
  {
    FinishKeepsInv(s, p, f, got, failed);
    var c := DoFinish(s, p, f, got, failed);
    DeleteKeepsInv(c, p, f, got, failed);
    t := DoDelete(c, p, f, got, failed);
    moves := [Finish(p)] + ([Delete(p)] + []);
    OneMore(c, Delete(p), [], t);
    OneMore(s, Finish(p), [Delete(p)] + [], t);
  }

  lemma RunsOn<K, V>(s: State<K, V>, p: nat, f: nat, result: Option<V>, failed: bool) returns (moves: seq<Move<K, V>>, t: State<K, V>)
    requires Inv(s) && p < |s.procs| && s.procs[p].pc == Running(f)
    ensures Inv(t) && Reaches(s, moves, t) && t.table == s.table - {s.procs[p].key}
    ensures f < |t.flights| == |s.flights| && t.flights[f].done
    ensures t.flights[f].key == s.flights[f].key && t.flights[f].result == result
    ensures |t.procs| == |s.procs| && forall q :: 0 <= q < |s.procs| && q != p ==> t.procs[q] == s.procs[q]
  {
    ResultKeepsInv(s, p, f, result, failed);
    var b := DoResult(s, p, f, result, failed);
    var rest;
    rest, t := Lands(b, p, f, b.procs[p].pc.got, failed);
    OneMore(s, Result(p, result, failed), rest, t);
    moves := [Result(p, result, failed)] + rest;
  }

  /** A call that finds no flight can run through while all others stand still. */
  lemma RunsThrough<K, V>(s: State<K, V>, p: nat, result: Option<V>, failed: bool) returns (moves: seq<Move<K, V>>, t: State<K, V>)
    requires Inv(s) && p < |s.procs| && s.procs[p].pc.Entering? && s.procs[p].key !in s.table
    ensures Inv(t) && Reaches(s, moves, t) && t.table == s.table && |t.procs| == |s.procs| && |t.flights| == |s.flights| + 1
    ensures t.flights[|s.flights|].key == s.procs[p].key && t.flights[|s.flights|].done && t.flights[|s.flights|].result == result
    ensures forall q :: 0 <= q < |s.procs| && q != p ==> t.procs[q] == s.procs[q]
  {
    EnterKeepsInv(s, p);
    var a := DoEnter(s, p);
    assert a.procs[p] == s.procs[p].(pc := Running(|s.flights|)) && a.table - {s.procs[p].key} == s.table;
    var rest;
    rest, t := RunsOn(a, p, |s.flights|, result, failed);
    OneMore(s, Enter(p), rest, t);
    moves := [Enter(p)] + rest;
  }

  /** So two calls that arrived together can both run the function, one after the other. */
  lemma TogetherYetTwice<K, V>(s: State<K, V>, p: nat, q: nat, result: Option<V>, failed: bool)
    returns (moves: seq<Move<K, V>>, t: State<K, V>)
    requires Inv(s) && p < |s.procs| && q < |s.procs| && p != q && s.procs[p] == s.procs[q]
    requires s.procs[p].pc.Entering? && s.procs[p].key !in s.table
    ensures Reaches(s, moves, t) && |t.flights| == |s.flights| + 1
    ensures t.flights[|s.flights|].key == s.procs[p].key && t.flights[|s.flights|].done && t.flights[|s.flights|].result == result
    ensures q < |t.procs| && DoEnter(t, q).procs[q].pc == Running(|s.flights| + 1)
  {
    moves, t := RunsThrough(s, p, result, failed);
  }

  lemma OneMore<K, V>(s: State<K, V>, m: Move<K, V>, moves: seq<Move<K, V>>, t: State<K, V>)
    requires Inv(s) && Enabled(s, m) && Reaches(Apply(s, m), moves, t)
    ensures Reaches(s, [m] + moves, t)
  {
    assert ([m] + moves)[1..] == moves;
  }
}
