/** Runs of a store: what holds after any sequence of operations, stated against the
    sequence itself. */
module Runs {
  import opened GoArith
  import opened Eviction

  datatype Op<K, M> =
    | Find(key: K, now: int)
    | FindStale(key: K, now: int)
    | Write(key: K, val: Value<M>)
    | Reset
    | Nothing

  datatype Limits = Limits(policy: Policy, maxBytes: int)

  ghost predicate Sized<K, M>(ops: seq<Op<K, M>>) {
    forall i :: 0 <= i < |ops| && ops[i].Write? ==> ops[i].val.size >= 0
  }

  ghost function Step<K, M>(l: Limits, s: State<K, M>, op: Op<K, M>): State<K, M>
    requires !l.policy.Other? && Distinct(s.recs)
  {
    match op
    case Find(key, now) => Lookup(s, key, now).0
    case FindStale(key, now) => LookupStale(s, key, now).0
    case Write(key, val) => Put(l.policy, l.maxBytes, s, key, val)
    case Reset => State(map[], s.clock + 1)
    case Nothing => Tick(s)
  }

  lemma StepKeepsWF<K(!new), M>(l: Limits, s: State<K, M>, op: Op<K, M>)
    requires !l.policy.Other? && WF(s) && (op.Write? ==> op.val.size >= 0)
    ensures WF(Step(l, s, op)) && Step(l, s, op).clock == s.clock + 1
  {
    match op
    case Find(key, now) => LookupKeepsWF(s, key, now);
    case FindStale(key, now) => LookupKeepsWF(s, key, now);
    case Write(key, val) => PutKeepsWF(l.policy, l.maxBytes, s, key, val);
    case Reset =>
    case Nothing =>
  }

  /** The state after ops, starting from the empty store. */
  ghost function Run<K(!new), M>(l: Limits, ops: seq<Op<K, M>>): (s: State<K, M>)
    requires !l.policy.Other? && Sized(ops)
    ensures WF(s) && s.clock == |ops|
  {
    if ops == [] then State(map[], 0)
    else
      var s := Run(l, Front(ops));
      StepKeepsWF(l, s, Last(ops));
      Step(l, s, Last(ops))
  }

  function Front<T>(s: seq<T>): seq<T>
    requires s != []
  {
    s[..|s| - 1]
  }

  function Last<T>(s: seq<T>): T
    requires s != []
  {
    s[|s| - 1]
  }

  // ---------- history ----------

  ghost predicate Inserts<K, M>(s: State<K, M>, op: Op<K, M>, k: K) {
    op.Write? && op.key == k && k !in s.recs
  }

  /** Writing a key uses it, and so does a fresh hit.  A stale hit does not. */
  ghost predicate Touches<K, M>(s: State<K, M>, op: Op<K, M>, k: K) {
    || (op.Write? && op.key == k)
    || (op.Find? && op.key == k && k in s.recs && op.now <= s.recs[k].val.expire)
  }

  ghost function LastInsert<K(!new), M>(l: Limits, ops: seq<Op<K, M>>, k: K): int
    requires !l.policy.Other? && Sized(ops)
  {
    if ops == [] then -1
    else if Inserts(Run(l, Front(ops)), Last(ops), k) then |ops| - 1
    else LastInsert(l, Front(ops), k)
  }

  ghost function LastTouch<K(!new), M>(l: Limits, ops: seq<Op<K, M>>, k: K): int
    requires !l.policy.Other? && Sized(ops)
  {
    if ops == [] then -1
    else if Touches(Run(l, Front(ops)), Last(ops), k) then |ops| - 1
    else LastTouch(l, Front(ops), k)
  }

  /** How often k was used since it was last inserted, that insertion included. */
  ghost function TouchCount<K(!new), M>(l: Limits, ops: seq<Op<K, M>>, k: K): int
    requires !l.policy.Other? && Sized(ops)
  {
    if ops == [] then 0
    else if Inserts(Run(l, Front(ops)), Last(ops), k) then 1
    else TouchCount(l, Front(ops), k) + if Touches(Run(l, Front(ops)), Last(ops), k) then 1 else 0
  }

  /** A record that an operation leaves behind: as it was, or touched, or new. */
  lemma StepOnKey<K(!new), M>(l: Limits, s: State<K, M>, op: Op<K, M>, k: K)
    requires !l.policy.Other? && WF(s) && k in Step(l, s, op).recs
    ensures !Inserts(s, op, k) ==> k in s.recs
    ensures var r := Step(l, s, op).recs[k];
      && (Inserts(s, op, k) ==> r == Rec(op.val, s.clock, s.clock, 1))
      && (!Inserts(s, op, k) ==> r.born == s.recs[k].born)
      && (!Inserts(s, op, k) && Touches(s, op, k) ==> r.touched == s.clock && r.uses == s.recs[k].uses + 1)
      && (!Touches(s, op, k) ==> r == s.recs[k])
  {
    if op.Write? && op.key !in s.recs {
      EvictForMakesRoom(l.policy, l.maxBytes, s.recs, op.val.size);
    }
  }

  /** The stamps of a present entry are facts about the operations so far. */
  lemma {:induction false} StampsAreHistory<K(!new), M>(l: Limits, ops: seq<Op<K, M>>, k: K)
    requires !l.policy.Other? && Sized(ops) && k in Run(l, ops).recs
    ensures var r := Run(l, ops).recs[k];
      r.born == LastInsert(l, ops, k) && r.touched == LastTouch(l, ops, k) && r.uses == TouchCount(l, ops, k)
  {
    if ops != [] {
      var s := Run(l, Front(ops));
      StepOnKey(l, s, Last(ops), k);
      if !Inserts(s, Last(ops), k) { StampsAreHistory(l, Front(ops), k); }
    }
  }

  /** Which of two entries the policy gives up first, by their history. */
  ghost predicate GoesFirst<K(!new), M>(l: Limits, ops: seq<Op<K, M>>, e: K, k: K)
    requires !l.policy.Other? && Sized(ops)
  {
    match l.policy
    case FIFO => LastInsert(l, ops, e) < LastInsert(l, ops, k)
    case LRU => LastTouch(l, ops, e) < LastTouch(l, ops, k)
    case LFU =>
      || TouchCount(l, ops, e) < TouchCount(l, ops, k)
      || (TouchCount(l, ops, e) == TouchCount(l, ops, k) && LastInsert(l, ops, e) < LastInsert(l, ops, k))
  }

  /** The write of a new key gives up e. */
  ghost predicate Evicts<K, M>(l: Limits, s: State<K, M>, op: Op<K, M>, e: K)
    requires !l.policy.Other? && Distinct(s.recs)
  {
    op.Write? && op.key !in s.recs && e in s.recs && e !in Step(l, s, op).recs
  }

  /** Whenever a write makes room, whatever it gives up goes before whatever it keeps. */
  lemma EvictionFollowsHistory<K(!new), M>(l: Limits, ops: seq<Op<K, M>>, op: Op<K, M>, e: K, k: K)
    requires !l.policy.Other? && Sized(ops)
    requires Evicts(l, Run(l, ops), op, e) && k in Run(l, ops).recs && k in Step(l, Run(l, ops), op).recs
    ensures GoesFirst(l, ops, e, k)
  {
    EvictForMakesRoom(l.policy, l.maxBytes, Run(l, ops).recs, op.val.size);
    StampsAreHistory(l, ops, e);
    StampsAreHistory(l, ops, k);
  }

  /** Entries leave in three ways only. */
  lemma OnlyTheseRemove<K(!new), M>(l: Limits, s: State<K, M>, op: Op<K, M>, k: K)
    requires !l.policy.Other? && WF(s) && k in s.recs && k !in Step(l, s, op).recs
    ensures
      || op.Reset?
      || (op.Write? && op.key !in s.recs && MustEvict(l.maxBytes, s.recs, op.val.size))
      || ((op.Find? || op.FindStale?) && op.key == k && op.now > s.recs[k].val.staleUntil && op.now >= s.recs[k].val.expire)
  {
  }

  // ---------- the bound on the total ----------

  ghost predicate Within<K, M>(l: Limits, recs: map<K, Rec<M>>) {
    l.maxBytes <= 0 || Total(recs) <= l.maxBytes || |recs| <= 1
  }

  /** A write that inserts: the bound holds afterwards, whatever the total was before; no
      fewer victims would have done. */
  lemma InsertMakesRoom<K(!new), M>(l: Limits, s: State<K, M>, key: K, val: Value<M>)
    requires !l.policy.Other? && WF(s) && key !in s.recs && val.size >= 0
    ensures var after := Put(l.policy, l.maxBytes, s, key, val).recs;
      && key in after && after[key].val == val
      && (l.maxBytes <= 0 || Total(after) <= l.maxBytes || after.Keys == {key})
      && Within(l, after)
      && MadeRoom(l.policy, l.maxBytes, s.recs, val.size, after - {key})
  {
    var left := EvictFor(l.policy, l.maxBytes, s.recs, val.size);
    EvictForMakesRoom(l.policy, l.maxBytes, s.recs, val.size);
    TotalWith(left, key, Rec(val, s.clock, s.clock, 1));
    OneMore(left, key, Rec(val, s.clock, s.clock, 1));
  }

  lemma OneMore<K, M>(left: map<K, Rec<M>>, key: K, r: Rec<M>)
    requires key !in left
    ensures left - {key} == left && left[key := r] - {key} == left
    ensures left == map[] ==> left[key := r].Keys == {key} && |left[key := r]| == 1
    ensures left != map[] ==> |left[key := r]| >= 2
  {
    assert left[key := r].Keys == left.Keys + {key};
    assert |left[key := r]| == |left.Keys + {key}| == |left.Keys| + 1;
    if left != map[] {
      var k :| k in left;
      assert k in left.Keys;
    } else {
      assert left.Keys == {};
    }
  }

  /** A write that replaces evicts nothing and moves the total by the difference. */
  lemma ReplaceShiftsTotal<K, M>(l: Limits, s: State<K, M>, key: K, val: Value<M>)
    requires !l.policy.Other? && WF(s) && key in s.recs
    ensures var after := Put(l.policy, l.maxBytes, s, key, val).recs;
      && after.Keys == s.recs.Keys
      && (forall k :: k in s.recs && k != key ==> after[k] == s.recs[k])
      && after[key].val == val
      && Total(after) == Total(s.recs) - s.recs[key].val.size + val.size
  {
    TotalUpdate(s.recs, key, Used(s.recs[key].(val := val), s.clock));
  }

  /** A replacement that leaves too much beside another entry. */
  ghost predicate Overflows<K, M>(l: Limits, s: State<K, M>, op: Op<K, M>) {
    op.Write? && op.key in s.recs && l.maxBytes > 0 && |s.recs| >= 2 &&
    Total(s.recs) - s.recs[op.key].val.size + op.val.size > l.maxBytes
  }

  /** From within the bound, exactly such a replacement leads out of it. */
  lemma BoundStep<K(!new), M>(l: Limits, s: State<K, M>, op: Op<K, M>)
    requires !l.policy.Other? && WF(s) && Within(l, s.recs) && (op.Write? ==> op.val.size >= 0)
    ensures Within(l, Step(l, s, op).recs) <==> !Overflows(l, s, op)
  {
    match op
    case Find(key, now) => FindBound(l, s, key, now);
    case FindStale(key, now) => FindStaleBound(l, s, key, now);
    case Write(key, val) =>
      if key in s.recs { ReplaceBound(l, s, key, val); } else { InsertBound(l, s, key, val); }
    case Reset =>
    case Nothing =>
  }

  lemma InsertBound<K(!new), M>(l: Limits, s: State<K, M>, key: K, val: Value<M>)
    requires !l.policy.Other? && WF(s) && key !in s.recs && val.size >= 0
    ensures Within(l, Put(l.policy, l.maxBytes, s, key, val).recs)
  {
    InsertMakesRoom(l, s, key, val);
  }

  lemma ReplaceBound<K, M>(l: Limits, s: State<K, M>, key: K, val: Value<M>)
    requires !l.policy.Other? && WF(s) && Within(l, s.recs) && key in s.recs
    ensures Within(l, Put(l.policy, l.maxBytes, s, key, val).recs) <==> !Overflows(l, s, Write(key, val))
  {
    ReplaceShiftsTotal(l, s, key, val);
    var after := Put(l.policy, l.maxBytes, s, key, val).recs;
    assert |after.Keys| == |s.recs.Keys|;
  }

  lemma FindBound<K, M>(l: Limits, s: State<K, M>, key: K, now: int)
    requires WF(s) && Within(l, s.recs)
    ensures Within(l, Lookup(s, key, now).0.recs)
  {
    if key in s.recs {
      RemoveBound(l, s, key);
      UseBound(l, s, key);
    }
  }

  lemma FindStaleBound<K, M>(l: Limits, s: State<K, M>, key: K, now: int)
    requires WF(s) && Within(l, s.recs)
    ensures Within(l, LookupStale(s, key, now).0.recs)
  {
    RemoveBound(l, s, key);
  }

  lemma RemoveBound<K, M>(l: Limits, s: State<K, M>, key: K)
    requires WF(s) && Within(l, s.recs)
    ensures Within(l, s.recs - {key})
  {
    var after := s.recs - {key};
    TotalOfPart(after, s.recs);
    assert after.Keys == s.recs.Keys - {key};
    assert |after.Keys| <= |s.recs.Keys|;
  }

  lemma UseBound<K, M>(l: Limits, s: State<K, M>, key: K)
    requires Within(l, s.recs) && key in s.recs
    ensures Within(l, s.recs[key := Used(s.recs[key], s.clock)])
  {
    var after := s.recs[key := Used(s.recs[key], s.clock)];
    TotalUpdate(s.recs, key, Used(s.recs[key], s.clock));
    assert after.Keys == s.recs.Keys;
    assert |after.Keys| == |s.recs.Keys|;
  }

  lemma {:induction false} BoundOverRuns<K(!new), M>(l: Limits, ops: seq<Op<K, M>>)
    requires !l.policy.Other? && Sized(ops)
    requires forall n :: 0 <= n < |ops| ==> !Overflows(l, Run(l, ops[..n]), ops[n])
    ensures Within(l, Run(l, ops).recs)
  {
    if ops != [] {
      var front := Front(ops);
      forall n | 0 <= n < |front| ensures !Overflows(l, Run(l, front[..n]), front[n]) {
        assert front[..n] == ops[..n] && front[n] == ops[n];
      }
      BoundOverRuns(l, front);
      assert front == ops[..|ops| - 1];
      BoundStep(l, Run(l, front), Last(ops));
    }
  }

  /** With room enough a write evicts nothing. */
  lemma InsertWithRoom<K, M>(l: Limits, s: State<K, M>, key: K, val: Value<M>)
    requires !l.policy.Other? && WF(s) && key !in s.recs && Total(s.recs) + val.size <= l.maxBytes
    ensures var after := Put(l.policy, l.maxBytes, s, key, val).recs;
      after == s.recs[key := Rec(val, s.clock, s.clock, 1)] && Total(after) == Total(s.recs) + val.size
  {
    TotalWith(s.recs, key, Rec(val, s.clock, s.clock, 1));
    assert s.recs - {key} == s.recs;
  }

  /** The bound is no invariant: under every policy three writes lead out of it. */
  lemma ReplacingOverflows<M>(l: Limits, msg: M)
    requires !l.policy.Other? && l.maxBytes >= 2
    ensures var one, big := Value(msg, 1, 0, 0), Value(msg, l.maxBytes, 0, 0);
      var ops := [Write(0, one), Write(1, one), Write(0, big)];
      Sized(ops) && Total(Run(l, ops).recs) == l.maxBytes + 1 && Run(l, ops).recs.Keys == {0, 1}
  {
    var one, big := Value(msg, 1, 0, 0), Value(msg, l.maxBytes, 0, 0);
    var w0, w1, w2 := Write(0, one), Write(1, one), Write(0, big);
    assert Sized([w0]) && Sized([w0, w1]) && Sized([w0, w1, w2]);
    assert Front([w0]) == [] && Front([w0, w1]) == [w0] && Front([w0, w1, w2]) == [w0, w1];
    InsertWithRoom(l, Run(l, []), 0, one);
    var first := Run(l, [w0]);
    assert first == Step(l, Run(l, []), w0);
    InsertWithRoom(l, first, 1, one);
    var second := Run(l, [w0, w1]);
    assert second == Step(l, first, w1);
    ReplaceShiftsTotal(l, second, 0, big);
    assert Run(l, [w0, w1, w2]) == Step(l, second, w2);
  }

  // ---------- a store is a map of the last writes ----------

  ghost predicate Expires<K, M>(op: Op<K, M>, key: K, val: Value<M>) {
    (op.Find? || op.FindStale?) && op.key == key && op.now > val.staleUntil &&
    (op.now > val.expire || (op.FindStale? && op.now == val.expire))
  }

  ghost function PlainStep<K, M>(m: map<K, Value<M>>, op: Op<K, M>): map<K, Value<M>> {
    match op
    case Write(key, val) => m[key := val]
    case Reset => map[]
    case Nothing => m
    case _ => if op.key in m && Expires(op, op.key, m[op.key]) then m - {op.key} else m
  }

  /** The same operations on a plain map: no stamps, no total, no eviction. */
  ghost function Plain<K, M>(ops: seq<Op<K, M>>): map<K, Value<M>> {
    if ops == [] then map[] else PlainStep(Plain(Front(ops)), Last(ops))
  }

  ghost predicate PartOf<K, M>(recs: map<K, Rec<M>>, m: map<K, Value<M>>) {
    forall k :: k in recs ==> k in m && m[k] == recs[k].val
  }

  /** Eviction apart, the store is that map. */
  lemma {:induction false} RunRefinesPlain<K(!new), M>(l: Limits, ops: seq<Op<K, M>>)
    requires !l.policy.Other? && Sized(ops)
    ensures PartOf(Run(l, ops).recs, Plain(ops))
    ensures l.maxBytes <= 0 ==> Run(l, ops).recs.Keys == Plain(ops).Keys
  {
    if ops != [] {
      RunRefinesPlain(l, Front(ops));
      PlainStepRefined(l, Run(l, Front(ops)), Last(ops), Plain(Front(ops)));
    }
  }

  lemma PlainStepRefined<K(!new), M>(l: Limits, s: State<K, M>, op: Op<K, M>, m: map<K, Value<M>>)
    requires !l.policy.Other? && WF(s) && PartOf(s.recs, m)
    requires l.maxBytes <= 0 ==> s.recs.Keys == m.Keys
    ensures PartOf(Step(l, s, op).recs, PlainStep(m, op))
    ensures l.maxBytes <= 0 ==> Step(l, s, op).recs.Keys == PlainStep(m, op).Keys
  {
    match op
    case Write(key, val) => PlainWriteRefined(l, s, key, val, m);
    case Find(key, now) =>
    case FindStale(key, now) =>
    case Reset =>
    case Nothing =>
  }

  lemma PlainWriteRefined<K(!new), M>(l: Limits, s: State<K, M>, key: K, val: Value<M>, m: map<K, Value<M>>)
    requires !l.policy.Other? && WF(s) && PartOf(s.recs, m)
    requires l.maxBytes <= 0 ==> s.recs.Keys == m.Keys
    ensures PartOf(Put(l.policy, l.maxBytes, s, key, val).recs, m[key := val])
    ensures l.maxBytes <= 0 ==> Put(l.policy, l.maxBytes, s, key, val).recs.Keys == m[key := val].Keys
  {
    if key !in s.recs { EvictForMakesRoom(l.policy, l.maxBytes, s.recs, val.size); }
  }

  /** The index of the last write of k since the last reset. */
  ghost function LastWrite<K, M>(ops: seq<Op<K, M>>, k: K): (i: int)
    ensures -1 <= i < |ops|
    ensures i >= 0 ==> ops[i].Write? && ops[i].key == k
    ensures i >= 0 ==> forall j :: i < j < |ops| ==> !ops[j].Reset? && !(ops[j].Write? && ops[j].key == k)
    ensures i < 0 ==> forall j :: 0 <= j < |ops| && ops[j].Write? && ops[j].key == k ==>
              exists n :: j < n < |ops| && ops[n].Reset?
  {
    if ops == [] || Last(ops).Reset? then -1
    else if Last(ops).Write? && Last(ops).key == k then |ops| - 1
    else LastWrite(Front(ops), k)
  }

  /** The plain map holds a key from its last write until a lookup finds it past its
      stale time. */
  lemma {:induction false} PlainIsLastWrite<K(!new), M>(ops: seq<Op<K, M>>, k: K)
    ensures k in Plain(ops) <==>
      LastWrite(ops, k) >= 0 && forall j :: LastWrite(ops, k) < j < |ops| ==> !Expires(ops[j], k, ops[LastWrite(ops, k)].val)
    ensures k in Plain(ops) ==> Plain(ops)[k] == ops[LastWrite(ops, k)].val
  {
    if ops != [] {
      PlainIsLastWrite(Front(ops), k);
      var i := LastWrite(ops, k);
      if 0 <= i < |ops| - 1 {
        assert i == LastWrite(Front(ops), k) && Front(ops)[i] == ops[i];
        assert forall j :: i < j < |ops| - 1 ==> Front(ops)[j] == ops[j];
      }
    }
  }
}
