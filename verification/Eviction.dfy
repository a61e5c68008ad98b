/** Which entries the cache gives up, and in what order: the eviction policies as functions
    of stamped records.  The list and the heap of the cache do not appear here. */
module Eviction {
  import opened GoArith

  datatype Policy = FIFO | LRU | LFU | Other(name: string)

  /** What a cache entry holds. */
  datatype Value<M> = Value(msg: M, size: int, expire: int, staleUntil: int)

  /** born: the operation that inserted the entry.  touched: the last one that inserted it,
      replaced it or hit it fresh.  uses: how many such operations there were. */
  datatype Rec<M> = Rec(val: Value<M>, born: nat, touched: nat, uses: nat)

  /** clock counts the operations so far. */
  datatype State<K, M> = State(recs: map<K, Rec<M>>, clock: nat)

  // ---------- the order in which a policy gives entries up ----------

  predicate Before<M>(p: Policy, a: Rec<M>, b: Rec<M>) {
    match p
    case FIFO => a.born < b.born
    case LRU => a.touched < b.touched
    case LFU => a.uses < b.uses || (a.uses == b.uses && a.born < b.born)
    case Other(_) => false
  }

  ghost predicate Distinct<K, M>(recs: map<K, Rec<M>>) {
    forall j, k :: j in recs && k in recs && j != k ==>
      recs[j].born != recs[k].born && recs[j].touched != recs[k].touched
  }

  ghost predicate WF<K, M>(s: State<K, M>) {
    Distinct(s.recs) &&
    forall k :: k in s.recs ==> s.recs[k].born <= s.recs[k].touched < s.clock && s.recs[k].uses >= 1 && s.recs[k].val.size >= 0
  }

  ghost predicate IsVictim<K, M>(p: Policy, recs: map<K, Rec<M>>, v: K) {
    v in recs && forall k :: k in recs && k != v ==> Before(p, recs[v], recs[k])
  }

  lemma {:induction false} VictimExists<K, M>(p: Policy, recs: map<K, Rec<M>>)
    requires recs != map[] && Distinct(recs) && !p.Other?
    ensures exists v :: IsVictim(p, recs, v)
    decreases |recs|
  {
    var k :| k in recs;
    var rest := recs - {k};
    if rest == map[] {
      assert forall j :: j in recs && j != k ==> j in rest;
      assert IsVictim(p, recs, k);
    } else {
      VictimExists(p, rest);
      var w :| IsVictim(p, rest, w);
      VictimWithOneMore(p, recs, k, w);
    }
  }

  lemma VictimWithOneMore<K, M>(p: Policy, recs: map<K, Rec<M>>, k: K, w: K)
    requires k in recs && k != w && IsVictim(p, recs - {k}, w) && !p.Other?
    requires recs[k].born != recs[w].born && recs[k].touched != recs[w].touched
    ensures IsVictim(p, recs, if Before(p, recs[w], recs[k]) then w else k)
  {
    forall j | j in recs && j != k ensures j == w || Before(p, recs[w], recs[j]) {
      assert j in recs - {k};
    }
  }

  /** The entry that the policy names. */
  ghost function Victim<K, M>(p: Policy, recs: map<K, Rec<M>>): (v: K)
    requires recs != map[] && Distinct(recs) && !p.Other?
    ensures IsVictim(p, recs, v)
  {
    VictimExists(p, recs);
    var v :| IsVictim(p, recs, v);
    v
  }

  lemma VictimIsUnique<K, M>(p: Policy, recs: map<K, Rec<M>>, v: K)
    requires recs != map[] && Distinct(recs) && !p.Other? && IsVictim(p, recs, v)
    ensures v == Victim(p, recs)
  {
    assert IsVictim(p, recs, Victim(p, recs));
  }

  // ---------- the running total ----------

  ghost function Total<K, M>(recs: map<K, Rec<M>>): int
    decreases |recs|
  {
    if recs == map[] then 0
    else
      var k :| k in recs;
      recs[k].val.size + Total(recs - {k})
  }

  lemma {:induction false} TotalWithout<K, M>(recs: map<K, Rec<M>>, k: K)
    requires k in recs
    ensures Total(recs) == recs[k].val.size + Total(recs - {k})
    decreases |recs|
  {
    var j :| j in recs && Total(recs) == recs[j].val.size + Total(recs - {j});
    if j != k {
      TotalWithout(recs - {j}, k);
      TotalWithout(recs - {k}, j);
      assert recs - {j} - {k} == recs - {k} - {j};
    }
  }

  lemma TotalWith<K, M>(recs: map<K, Rec<M>>, k: K, r: Rec<M>)
    ensures Total(recs[k := r]) == r.val.size + Total(recs - {k})
  {
    TotalWithout(recs[k := r], k);
    assert recs[k := r] - {k} == recs - {k};
  }

  lemma TotalWithNew<K, M>(recs: map<K, Rec<M>>, k: K, r: Rec<M>)
    requires k !in recs
    ensures Total(recs[k := r]) == Total(recs) + r.val.size
  {
    TotalWith(recs, k, r);
    assert recs - {k} == recs;
  }

  lemma TotalUpdate<K, M>(recs: map<K, Rec<M>>, k: K, r: Rec<M>)
    requires k in recs
    ensures Total(recs[k := r]) == Total(recs) - recs[k].val.size + r.val.size
  {
    TotalWith(recs, k, r);
    TotalWithout(recs, k);
  }

  lemma {:induction false} TotalOfPart<K, M>(part: map<K, Rec<M>>, recs: map<K, Rec<M>>)
    requires forall k :: k in part ==> k in recs && recs[k] == part[k]
    requires forall k :: k in recs ==> recs[k].val.size >= 0
    ensures 0 <= Total(part) <= Total(recs)
    decreases |recs|
  {
    if k :| k in recs {
      TotalWithout(recs, k);
      if k in part {
        TotalWithout(part, k);
        TotalOfPart(part - {k}, recs - {k});
      } else {
        TotalOfPart(part, recs - {k});
      }
    } else {
      assert part == map[];
    }
  }

  // ---------- making room ----------

  ghost predicate MustEvict<K, M>(maxBytes: int, recs: map<K, Rec<M>>, size: int) {
    maxBytes > 0 && recs != map[] && Total(recs) + size > maxBytes
  }

  ghost function EvictFor<K, M>(p: Policy, maxBytes: int, recs: map<K, Rec<M>>, size: int): map<K, Rec<M>>
    requires Distinct(recs)
    requires p.Other? ==> !MustEvict(maxBytes, recs, size)
    decreases |recs|
  {
    if !MustEvict(maxBytes, recs, size) then recs
    else EvictFor(p, maxBytes, recs - {Victim(p, recs)}, size)
  }

  /** What is left after making room, said without the loop: the entries given up come
      before all others in the policy's order, the rest fits (or nothing is left), and
      taking the last victim back would overflow. */
  ghost predicate MadeRoom<K(!new), M>(p: Policy, maxBytes: int, recs: map<K, Rec<M>>, size: int, left: map<K, Rec<M>>) {
    && (forall k :: k in left ==> k in recs && left[k] == recs[k])
    && (forall e, k :: e in recs && e !in left && k in left ==> Before(p, recs[e], recs[k]))
    && !MustEvict(maxBytes, left, size)
    && (left != recs ==> exists v :: LastVictim(p, maxBytes, recs, size, left, v))
  }

  ghost predicate LastVictim<K, M>(p: Policy, maxBytes: int, recs: map<K, Rec<M>>, size: int, left: map<K, Rec<M>>, v: K) {
    && v in recs && v !in left
    && (forall e :: e in recs && e !in left && e != v ==> Before(p, recs[e], recs[v]))
    && maxBytes > 0 && Total(left) + recs[v].val.size + size > maxBytes
  }

  /** One more victim in front of room already made. */
  lemma MadeRoomStep<K(!new), M>(p: Policy, maxBytes: int, recs: map<K, Rec<M>>, size: int, v: K, left: map<K, Rec<M>>)
    requires IsVictim(p, recs, v) && MustEvict(maxBytes, recs, size)
    requires MadeRoom(p, maxBytes, recs - {v}, size, left)
    ensures MadeRoom(p, maxBytes, recs, size, left)
  {
    var rest := recs - {v};
    if left == rest {
      TotalWithout(recs, v);
      assert LastVictim(p, maxBytes, recs, size, left, v);
    } else {
      var w :| LastVictim(p, maxBytes, rest, size, left, w);
      assert LastVictim(p, maxBytes, recs, size, left, w);
    }
  }

  lemma {:induction false} EvictForMakesRoom<K(!new), M>(p: Policy, maxBytes: int, recs: map<K, Rec<M>>, size: int)
    requires Distinct(recs)
    requires p.Other? ==> !MustEvict(maxBytes, recs, size)
    ensures MadeRoom(p, maxBytes, recs, size, EvictFor(p, maxBytes, recs, size))
    decreases |recs|
  {
    if MustEvict(maxBytes, recs, size) {
      var v := Victim(p, recs);
      EvictForMakesRoom(p, maxBytes, recs - {v}, size);
      MadeRoomStep(p, maxBytes, recs, size, v, EvictFor(p, maxBytes, recs - {v}, size));
    }
  }

  ghost predicate Past<K, M>(recs: map<K, Rec<M>>, clock: nat) {
    forall k :: k in recs ==> recs[k].born < clock && recs[k].touched < clock
  }

  lemma EvictForLeavesPart<K(!new), M>(p: Policy, maxBytes: int, recs: map<K, Rec<M>>, size: int, clock: nat)
    requires Distinct(recs) && Past(recs, clock)
    requires p.Other? ==> !MustEvict(maxBytes, recs, size)
    ensures EvictFor(p, maxBytes, recs, size).Keys <= recs.Keys && Past(EvictFor(p, maxBytes, recs, size), clock)
  {
    EvictForMakesRoom(p, maxBytes, recs, size);
  }

  /** MadeRoom leaves no choice: with sizes that are not negative, it holds of one map only. */
  lemma MadeRoomDecides<K(!new), M>(p: Policy, maxBytes: int, recs: map<K, Rec<M>>, size: int, a: map<K, Rec<M>>, b: map<K, Rec<M>>)
    requires forall k :: k in recs ==> recs[k].val.size >= 0
    requires MadeRoom(p, maxBytes, recs, size, a) && MadeRoom(p, maxBytes, recs, size, b)
    ensures a == b
  {
    forall x | x in recs ensures x in a <==> x in b {
      if x in b { KeptMeansKept(p, maxBytes, recs, size, a, b, x); }
      if x in a { KeptMeansKept(p, maxBytes, recs, size, b, a, x); }
    }
    assert a.Keys == b.Keys;
  }

  lemma KeptMeansKept<K(!new), M>(p: Policy, maxBytes: int, recs: map<K, Rec<M>>, size: int, a: map<K, Rec<M>>, b: map<K, Rec<M>>, x: K)
    requires forall k :: k in recs ==> recs[k].val.size >= 0
    requires MadeRoom(p, maxBytes, recs, size, a) && MadeRoom(p, maxBytes, recs, size, b)
    requires x in b
    ensures x in a
  {
    if x !in a {
      var v :| LastVictim(p, maxBytes, recs, size, a, v);
      LastVictimIsKept(p, maxBytes, recs, size, a, b, x, v);
      assert recs[v] == b[v];
      TotalOfMore(a, v, b);
    }
  }

  lemma TotalOfMore<K, M>(part: map<K, Rec<M>>, v: K, recs: map<K, Rec<M>>)
    requires forall k :: k in part ==> k in recs && recs[k] == part[k]
    requires forall k :: k in recs ==> recs[k].val.size >= 0
    requires v in recs && v !in part
    ensures Total(part) + recs[v].val.size <= Total(recs)
  {
    TotalWithout(recs, v);
    TotalOfPart(part, recs - {v});
  }

  /** If b keeps what a gives up, it keeps everything that comes later. */
  lemma LastVictimIsKept<K, M>(p: Policy, maxBytes: int, recs: map<K, Rec<M>>, size: int, a: map<K, Rec<M>>, b: map<K, Rec<M>>, x: K, v: K)
    requires LastVictim(p, maxBytes, recs, size, a, v) && x in recs && x in b && x !in a
    requires forall k :: k in a ==> k in recs && a[k] == recs[k]
    requires forall e, k :: e in recs && e !in a && k in a ==> Before(p, recs[e], recs[k])
    requires forall k :: k in b ==> k in recs
    requires forall e, k :: e in recs && e !in b && k in b ==> Before(p, recs[e], recs[k])
    ensures v in b && forall k :: k in a ==> k in b
  {
    assert v in b by {
      if x != v { assert Before(p, recs[x], recs[v]); }
    }
    forall k | k in a ensures k in b {
      assert Before(p, recs[v], recs[k]);
    }
  }

  // ---------- one use of an entry ----------

  function Used<M>(r: Rec<M>, stamp: nat): Rec<M> {
    r.(touched := stamp, uses := r.uses + 1)
  }

  lemma RemoveKeepsWF<K, M>(s: State<K, M>, k: K)
    requires WF(s)
    ensures WF(State(s.recs - {k}, s.clock))
  {
  }

  lemma TickKeepsWF<K, M>(s: State<K, M>)
    requires WF(s)
    ensures WF(State(s.recs, s.clock + 1))
  {
  }

  /** A record written under a key, new or not, with the current clock as its last use. */
  lemma WriteKeepsWF<K, M>(s: State<K, M>, k: K, r: Rec<M>)
    requires WF(s) && r.touched == s.clock && r.uses >= 1 && r.val.size >= 0
    requires r.born == if k in s.recs then s.recs[k].born else s.clock
    ensures WF(State(s.recs[k := r], s.clock + 1))
  {
  }

  // ---------- looking entries up, and storing values ----------

  function Tick<K, M>(s: State<K, M>): State<K, M> {
    s.(clock := s.clock + 1)
  }

  /** A fresh entry answers and is used; one past its stale time is removed. */
  function Lookup<K, M>(s: State<K, M>, key: K, now: int): (r: (State<K, M>, Option<Value<M>>))
    ensures r.1.Some? ==> now <= r.1.value.expire
  {
    if key !in s.recs then (Tick(s), None)
    else
      var r := s.recs[key];
      if now <= r.val.expire then (Tick(s).(recs := s.recs[key := Used(r, s.clock)]), Some(r.val))
      else if now <= r.val.staleUntil then (Tick(s), None)
      else (Tick(s).(recs := s.recs - {key}), None)
  }

  /** An expired entry answers up to its stale time, and is not used by that. */
  function LookupStale<K, M>(s: State<K, M>, key: K, now: int): (State<K, M>, Option<Value<M>>) {
    if key !in s.recs then (Tick(s), None)
    else
      var r := s.recs[key];
      if now < r.val.expire then (Tick(s), None)
      else if now <= r.val.staleUntil then (Tick(s), Some(r.val))
      else (Tick(s).(recs := s.recs - {key}), None)
  }

  ghost predicate CanPut<K, M>(p: Policy, maxBytes: int, s: State<K, M>, key: K, size: int) {
    Distinct(s.recs) && (p.Other? && key !in s.recs ==> !MustEvict(maxBytes, s.recs, size))
  }

  /** A present key gets the new value and a use; a new key first makes room. */
  ghost function Put<K, M>(p: Policy, maxBytes: int, s: State<K, M>, key: K, val: Value<M>): State<K, M>
    requires CanPut(p, maxBytes, s, key, val.size)
  {
    if key in s.recs then
      Tick(s).(recs := s.recs[key := Used(s.recs[key].(val := val), s.clock)])
    else
      Tick(s).(recs := EvictFor(p, maxBytes, s.recs, val.size)[key := Rec(val, s.clock, s.clock, 1)])
  }

  lemma LookupKeepsWF<K, M>(s: State<K, M>, key: K, now: int)
    requires WF(s)
    ensures WF(Lookup(s, key, now).0) && WF(LookupStale(s, key, now).0)
  {
    TickKeepsWF(s);
    RemoveKeepsWF(s, key);
    TickKeepsWF(State(s.recs - {key}, s.clock));
    if key in s.recs { WriteKeepsWF(s, key, Used(s.recs[key], s.clock)); }
  }

  lemma PutKeepsWF<K(!new), M>(p: Policy, maxBytes: int, s: State<K, M>, key: K, val: Value<M>)
    requires WF(s) && CanPut(p, maxBytes, s, key, val.size) && val.size >= 0
    ensures WF(Put(p, maxBytes, s, key, val))
  {
    if key in s.recs {
      WriteKeepsWF(s, key, Used(s.recs[key].(val := val), s.clock));
    } else {
      EvictForMakesRoom(p, maxBytes, s.recs, val.size);
      WriteKeepsWF(State(EvictFor(p, maxBytes, s.recs, val.size), s.clock), key, Rec(val, s.clock, s.clock, 1));
    }
  }
}
