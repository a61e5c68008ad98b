/** The structures inside the response cache: a map, a running total, and a list or a heap
    for the eviction policy.  Keys and messages are opaque here.  Every operation is proved
    to keep the structures in step and to change the abstract state as it should. */
module Store {
  import opened GoArith
  import opened Eviction
  import opened Heap

  // ---------- the structures as values ----------

  /** e is the entry that the map has under its key. */
  ghost predicate In<K, M>(e: Entry<K, M>, live: map<K, Entry<K, M>>) {
    e.key in live && live[e.key] == e
  }

  ghost predicate Keyed<K, M>(live: map<K, Entry<K, M>>, recs: map<K, Rec<M>>) {
    live.Keys == recs.Keys && forall k :: k in live ==> live[k].key == k
  }

  /** s holds exactly the live entries but those in gone. */
  ghost predicate HoldsBut<K, M>(s: seq<Entry<K, M>>, live: map<K, Entry<K, M>>, gone: set<Entry<K, M>>) {
    (forall i :: 0 <= i < |s| ==> In(s[i], live) && s[i] !in gone) &&
    (forall k {:trigger live[k] in s} :: k in live && live[k] !in gone ==> live[k] in s)
  }

  /** s is in the order in which the policy gives entries up. */
  ghost predicate Queued<K, M>(p: Policy, s: seq<Entry<K, M>>, recs: map<K, Rec<M>>) {
    (forall i :: 0 <= i < |s| ==> s[i].key in recs) &&
    (forall i, j :: 0 <= i < j < |s| ==> Before(p, recs[s[i].key], recs[s[j].key]))
  }

  ghost predicate NoRepeats<T>(s: seq<T>) {
    forall i, j :: 0 <= i < j < |s| ==> s[i] != s[j]
  }

  predicate UsesList(p: Policy) {
    p.FIFO? || p.LRU?
  }

  /** The list is the policy's structure, or empty. */
  ghost predicate ListAgrees<K, M>(p: Policy, order: seq<Entry<K, M>>, live: map<K, Entry<K, M>>, recs: map<K, Rec<M>>, gone: set<Entry<K, M>>) {
    if UsesList(p) then HoldsBut(order, live, gone) && Queued(p, order, recs) else order == []
  }

  /** The heap is the policy's structure, or empty. */
  ghost predicate HeapAgrees<K, M>(p: Policy, h: seq<Entry<K, M>>, live: map<K, Entry<K, M>>, gone: set<Entry<K, M>>) {
    if p.LFU? then HoldsBut(h, live, gone) else h == []
  }

  function Omit<T>(s: seq<T>, i: int): seq<T>
    requires 0 <= i < |s|
  {
    s[..i] + s[i + 1..]
  }

  lemma OmitHolds<K, M>(p: Policy, s: seq<Entry<K, M>>, i: int, live: map<K, Entry<K, M>>, recs: map<K, Rec<M>>)
    requires 0 <= i < |s| && HoldsBut(s, live, {}) && Queued(p, s, recs)
    requires NoRepeats(s)
    ensures NoRepeats(Omit(s, i)) && HoldsBut(Omit(s, i), live, {s[i]}) && Queued(p, Omit(s, i), recs)
    ensures forall x :: x in s && x != s[i] <==> x in Omit(s, i)
  {
    var t := Omit(s, i);
    forall x | x in s && x != s[i] ensures x in t {
      var j :| 0 <= j < |s| && s[j] == x;
      assert t[if j < i then j else j - 1] == x;
    }
    forall k | k in live && live[k] != s[i] ensures live[k] in t {
      assert live[k] in s;
    }
  }

  lemma WithoutHolds<K, M>(now: seq<Entry<K, M>>, was: seq<Entry<K, M>>, e: Entry<K, M>, live: map<K, Entry<K, M>>)
    requires HoldsBut(was, live, {}) && Without(now, was, e)
    ensures HoldsBut(now, live, {e})
  {
    assert forall i :: 0 <= i < |now| ==> now[i] in was;
    assert forall k :: k in live ==> live[k] in was;
  }

  lemma MoveKeepsEntries<T>(s: seq<T>, i: int, t: seq<T>)
    requires 0 <= i < |s| && NoRepeats(s) && t == Omit(s, i) + [s[i]]
    ensures NoRepeats(t) && (forall x :: x in t <==> x in s)
  {
    forall j | 0 <= j < |s| ensures s[j] in t {
      assert t[if j < i then j else if j == i then |t| - 1 else j - 1] == s[j];
    }
  }

  lemma MoveKeepsQueue<K, M>(s: seq<Entry<K, M>>, i: int, t: seq<Entry<K, M>>,
      live: map<K, Entry<K, M>>, recs: map<K, Rec<M>>, stamp: nat)
    requires 0 <= i < |s| && Keyed(live, recs) && HoldsBut(s, live, {}) && Queued(LRU, s, recs) && NoRepeats(s)
    requires forall k :: k in recs ==> recs[k].touched < stamp
    requires t == Omit(s, i) + [s[i]]
    ensures s[i].key in recs && Queued(LRU, t, recs[s[i].key := Used(recs[s[i].key], stamp)])
  {
    var o := Omit(s, i);
    assert In(s[i], live);
    forall j | 0 <= j < |o| ensures o[j].key != s[i].key && o[j].key in recs {
      assert In(o[j], live);
      assert o[j] == s[if j < i then j else j + 1];
    }
    assert forall j, k :: 0 <= j < k < |o| ==> Before(LRU, recs[o[j].key], recs[o[k].key]);
  }

  lemma FrontIsVictim<K, M>(p: Policy, s: seq<Entry<K, M>>, live: map<K, Entry<K, M>>, recs: map<K, Rec<M>>)
    requires Keyed(live, recs) && HoldsBut(s, live, {}) && Queued(p, s, recs) && |s| > 0
    ensures IsVictim(p, recs, s[0].key)
  {
    forall k | k in recs && k != s[0].key ensures Before(p, recs[s[0].key], recs[k]) {
      assert live[k] in s;
      var i :| 0 <= i < |s| && s[i] == live[k];
    }
  }

  /** New contents under old stamps change nothing in the order. */
  lemma RewriteKeepsQueue<K, M>(p: Policy, s: seq<Entry<K, M>>, recs: map<K, Rec<M>>, k: K, r: Rec<M>)
    requires k in recs && r.born == recs[k].born && r.touched == recs[k].touched && r.uses == recs[k].uses
    ensures Queued(p, s, recs) ==> Queued(p, s, recs[k := r])
  {
  }

  /** list.PushBack */
  method ListPushBack<K, M>(s: seq<Entry<K, M>>, e: Entry<K, M>,
      ghost p: Policy, ghost live: map<K, Entry<K, M>>, ghost recs: map<K, Rec<M>>, ghost r: Rec<M>) returns (t: seq<Entry<K, M>>)
    requires Keyed(live, recs) && HoldsBut(s, live, {}) && Queued(p, s, recs) && NoRepeats(s) && UsesList(p)
    requires e.key !in live && e !in s
    requires forall k :: k in recs ==> recs[k].born < r.born && recs[k].touched < r.touched
    ensures NoRepeats(t) && HoldsBut(t, live[e.key := e], {}) && Queued(p, t, recs[e.key := r])
    ensures forall x :: x in t <==> x in s || x == e
  {
    t := s + [e];
    assert forall k :: k in live ==> live[k] in s;
    assert t[|s|] == e;
  }

  lemma PushHolds<K, M>(now: seq<Entry<K, M>>, was: seq<Entry<K, M>>, e: Entry<K, M>, live: map<K, Entry<K, M>>)
    requires HoldsBut(was, live, {}) && SameEntries(now, was + [e]) && e.key !in live
    ensures HoldsBut(now, live[e.key := e], {})
  {
    assert forall x :: x in was + [e] <==> x in was || x == e;
    assert forall i :: 0 <= i < |now| ==> now[i] in was + [e];
    assert forall k :: k in live ==> live[k] in was;
    assert e in was + [e];
  }

  /** list.MoveToBack, for LRU: the entry goes to the end with its new stamp. */
  method ListMoveToBack<K, M>(s: seq<Entry<K, M>>, e: Entry<K, M>,
      ghost live: map<K, Entry<K, M>>, ghost recs: map<K, Rec<M>>, ghost stamp: nat) returns (t: seq<Entry<K, M>>)
    requires e in s && Keyed(live, recs) && HoldsBut(s, live, {}) && Queued(LRU, s, recs) && NoRepeats(s)
    requires forall k :: k in recs ==> recs[k].touched < stamp
    ensures SameEntries(t, s) && NoRepeats(t) && HoldsBut(t, live, {})
    ensures e.key in recs && Queued(LRU, t, recs[e.key := Used(recs[e.key], stamp)])
  {
    var i :| 0 <= i < |s| && s[i] == e;
    t := Omit(s, i) + [e];
    MoveKeepsEntries(s, i, t);
    SameHolds(t, s, live);
    MoveKeepsQueue(s, i, t, live, recs, stamp);
  }

  /** list.Remove */
  method ListRemove<K, M>(s: seq<Entry<K, M>>, e: Entry<K, M>,
      ghost p: Policy, ghost live: map<K, Entry<K, M>>, ghost recs: map<K, Rec<M>>) returns (t: seq<Entry<K, M>>)
    requires e in s && Keyed(live, recs) && HoldsBut(s, live, {}) && Queued(p, s, recs) && NoRepeats(s)
    ensures e !in t && NoRepeats(t) && HoldsBut(t, live - {e.key}, {}) && Queued(p, t, recs - {e.key})
    ensures (forall x :: x in s && x != e ==> x in t) && (forall x :: x in t ==> x in s)
  {
    var i :| 0 <= i < |s| && s[i] == e;
    OmitHolds(p, s, i, live, recs);
    t := Omit(s, i);
    Forget(e, t, live, recs);
  }

  /** Under FIFO a use changes nothing in the order. */
  lemma UseKeepsFifo<K, M>(s: seq<Entry<K, M>>, recs: map<K, Rec<M>>, k: K, stamp: nat)
    requires Queued(FIFO, s, recs) && k in recs
    ensures Queued(FIFO, s, recs[k := Used(recs[k], stamp)])
  {
  }

  lemma SameHolds<K, M>(now: seq<Entry<K, M>>, was: seq<Entry<K, M>>, live: map<K, Entry<K, M>>)
    requires HoldsBut(was, live, {}) && SameEntries(now, was)
    ensures HoldsBut(now, live, {})
  {
    assert forall i :: 0 <= i < |now| ==> now[i] in was;
    assert forall k :: k in live ==> live[k] in was;
  }

  /** Once a removed entry is in neither structure, the map may forget it. */
  lemma Forget<K, M>(e: Entry<K, M>, s: seq<Entry<K, M>>, live: map<K, Entry<K, M>>, recs: map<K, Rec<M>>)
    requires Keyed(live, recs) && In(e, live) && HoldsBut(s, live, {e})
    ensures HoldsBut(s, live - {e.key}, {})
    ensures forall p :: Queued(p, s, recs) ==> Queued(p, s, recs - {e.key})
  {
  }

  class Store<K(==,!new), M> {
    const policy: Policy
    const maxBytes: int
    var items: map<K, Entry<K, M>>
    var total: int
    var order: seq<Entry<K, M>>
    const heap: LfuHeap<K, M>
    var seqNo: int

    // What the store stands for, the entries it may use, and the stamps of the insertions
    // that were given a sequence number.
    ghost var recs: map<K, Rec<M>>
    ghost var clock: nat
    ghost var entries: set<Entry<K, M>>
    ghost var births: seq<nat>

    ghost function View(): State<K, M>
      reads this`recs, this`clock
    {
      State(recs, clock)
    }

    // ---------- the invariant ----------

    /** The entry is what the record says. */
    ghost predicate Mirrored(e: Entry<K, M>, r: Rec<M>)
      requires e in entries
      reads this`entries, this`births
      reads entries`val, entries`freq, entries`seqNo
    {
      e.val == r.val &&
      (policy.LFU? ==> e.freq == r.uses && 1 <= e.seqNo <= |births| && births[e.seqNo - 1] == r.born)
    }

    ghost predicate Mirrors(live: map<K, Entry<K, M>>, recs: map<K, Rec<M>>)
      requires live.Keys == recs.Keys
      reads this`entries, this`births
      reads entries`val, entries`freq, entries`seqNo
    {
      forall k :: k in live ==> live[k] in entries && Mirrored(live[k], recs[k])
    }

    /** Entries know whether they are in the list and in the heap. */
    ghost predicate Flags()
      reads this`entries, this`order, heap`h, entries`linked, entries`heapIdx
    {
      forall e :: e in entries ==> (e.linked <==> e in order) && (e !in heap.h ==> e.heapIdx == -1)
    }

    ghost predicate Allocated(s: seq<Entry<K, M>>)
      reads this`entries
    {
      forall i :: 0 <= i < |s| ==> s[i] in entries
    }

    ghost predicate Births()
      reads this`births, this`seqNo, this`clock
    {
      |births| == seqNo && (forall i, j :: 0 <= i < j < |births| ==> births[i] < births[j]) &&
      (forall i :: 0 <= i < |births| ==> births[i] < clock)
    }

    /** All structures agree; under LFU the entries in gone have already left the heap. */
    ghost predicate Agree(gone: set<Entry<K, M>>)
      reads this, heap, entries
    {
      Keyed(items, recs) && Mirrors(items, recs) &&
      ListAgrees(policy, order, items, recs, {}) && NoRepeats(order) &&
      HeapAgrees(policy, heap.h, items, gone) && Allocated(heap.h) && heap.Valid() &&
      Flags() && Births() &&
      total == Total(recs)
    }

    ghost predicate Valid()
      reads this, heap, entries
    {
      Agree({})
    }

    ghost predicate Stamped()
      reads this`recs, this`clock
    {
      Past(recs, clock)
    }

    constructor (policy: Policy, maxBytes: int)
      ensures Valid() && fresh(heap) && entries == {}
      ensures View() == State(map[], 0) && this.policy == policy && this.maxBytes == maxBytes
    {
      this.policy, this.maxBytes := policy, maxBytes;
      items, total, order, seqNo := map[], 0, [], 0;
      heap := new LfuHeap();
      recs, clock, entries, births := map[], 0, {}, [];
    }

    // ---------- removal ----------

    /** removeEntry.  When LFU evicts, the entry has already left the heap. */
    method RemoveEntry(e: Entry<K, M>, ghost gone: set<Entry<K, M>>)
      requires Agree(gone) && In(e, items)
      requires gone == {} || (gone == {e} && policy.LFU?)
      modifies this`items, this`total, this`order, this`recs, heap, entries`linked, entries`heapIdx
      ensures Agree({})
      ensures recs == old(recs) - {e.key}
    {
      ghost var live, rs := items, recs;
      Unmap(e);
      Unlink(e, live, rs);
      Unheap(e, live, rs, gone);
    }

    method Unmap(e: Entry<K, M>)
      requires Keyed(items, recs) && In(e, items) && Mirrors(items, recs)
      requires total == Total(recs)
      modifies this`items, this`total, this`recs
      ensures items == old(items) - {e.key} && recs == old(recs) - {e.key}
      ensures Keyed(items, recs) && Mirrors(items, recs)
      ensures total == Total(recs)
    {
      items := items - {e.key};
      Unbook(e.key, e.val.size);
    }

    method Unbook(ghost key: K, size: int)
      requires total == Total(recs) && key in recs && size == recs[key].val.size
      modifies this`total, this`recs
      ensures recs == old(recs) - {key} && total == Total(recs)
    {
      TotalWithout(recs, key);
      total := total - size;
      recs := recs - {key};
    }

    method Unlink(e: Entry<K, M>, ghost live: map<K, Entry<K, M>>, ghost rs: map<K, Rec<M>>)
      requires Keyed(live, rs) && In(e, live) && e in entries && items == live - {e.key} && recs == rs - {e.key}
      requires ListAgrees(policy, order, live, rs, {}) && NoRepeats(order) && Flags() && Births()
      requires Mirrors(items, recs) && Allocated(heap.h) && heap.Valid()
      modifies this`order, e`linked
      ensures ListAgrees(policy, order, items, recs, {}) && NoRepeats(order) && Flags() && Births()
      ensures Mirrors(items, recs) && Allocated(heap.h) && heap.Valid()
    {
      assert UsesList(policy) ==> live[e.key] in order;
      if e.linked {
        order := ListRemove(order, e, policy, live, rs);
        e.linked := false;
      }
    }

    method Unheap(e: Entry<K, M>, ghost live: map<K, Entry<K, M>>, ghost rs: map<K, Rec<M>>, ghost gone: set<Entry<K, M>>)
      requires Keyed(live, rs) && In(e, live) && e in entries && items == live - {e.key} && recs == rs - {e.key}
      requires HeapAgrees(policy, heap.h, live, gone) && Allocated(heap.h) && heap.Valid() && Flags() && Births()
      requires gone == {} || (gone == {e} && policy.LFU?)
      requires Mirrors(items, recs)
      modifies heap, entries`heapIdx
      ensures HeapAgrees(policy, heap.h, items, {}) && Allocated(heap.h) && heap.Valid() && Flags() && Births()
      ensures Mirrors(items, recs)
    {
      if e.heapIdx >= 0 { DropFromHeap(e, live); }
      if policy.LFU? { Forget(e, heap.h, live, rs); }
    }

    method DropFromHeap(e: Entry<K, M>, ghost live: map<K, Entry<K, M>>)
      requires HeapAgrees(policy, heap.h, live, {}) && Allocated(heap.h) && heap.Valid() && Flags()
      requires e in heap.h && In(e, live) && items.Keys == recs.Keys && Mirrors(items, recs)
      modifies heap, entries`heapIdx
      ensures HeapAgrees(policy, heap.h, live, {e}) && Allocated(heap.h) && heap.Valid() && Flags()
      ensures Mirrors(items, recs)
    {
      ghost var was := heap.h;
      heap.HeapRemove(e.heapIdx);
      WithoutHolds(heap.h, was, e, live);
      assert forall i :: 0 <= i < |heap.h| ==> heap.h[i] in was;
      e.heapIdx := -1;
    }

    // ---------- use ----------

    /** touch: case LRU, then case LFU. */
    method Touch(e: Entry<K, M>)
      requires Valid() && In(e, items) && Stamped()
      modifies this`order, this`recs, this`clock, heap, entries
      ensures Valid() && clock == old(clock) + 1
      ensures recs == old(recs)[e.key := Used(old(recs)[e.key], old(clock))]
    {
      ghost var rs, stamp := recs, clock;
      Record(e);
      TouchList(e, rs, stamp);
      TouchHeap(e, rs, stamp);
    }

    ghost method Record(e: Entry<K, M>)
      requires In(e, items) && Keyed(items, recs) && total == Total(recs) && Births()
      requires Mirrors(items, recs) && Flags() && Allocated(heap.h) && heap.Valid()
      modifies this`recs, this`clock
      ensures clock == old(clock) + 1
      ensures recs == old(recs)[e.key := Used(old(recs)[e.key], old(clock))]
      ensures Keyed(items, recs) && total == Total(recs) && Births()
      ensures Mirrors(items, old(recs)) && Flags() && Allocated(heap.h) && heap.Valid()
    {
      Stamp(e.key);
    }

    ghost method Stamp(key: K)
      requires key in recs && total == Total(recs) && Births()
      modifies this`recs, this`clock
      ensures clock == old(clock) + 1 && recs == old(recs)[key := Used(old(recs)[key], old(clock))]
      ensures total == Total(recs) && Births()
    {
      var used := Used(recs[key], clock);
      TotalUpdate(recs, key, used);
      recs, clock := recs[key := used], clock + 1;
    }

    method TouchList(e: Entry<K, M>, ghost rs: map<K, Rec<M>>, ghost stamp: nat)
      requires In(e, items) && Keyed(items, rs) && Mirrors(items, rs) && Flags()
      requires ListAgrees(policy, order, items, rs, {}) && NoRepeats(order)
      requires forall k :: k in rs ==> rs[k].touched < stamp
      requires Allocated(heap.h) && heap.Valid()
      modifies this`order
      ensures Mirrors(items, rs) && Flags() && NoRepeats(order)
      ensures ListAgrees(policy, order, items, rs[e.key := Used(rs[e.key], stamp)], {})
      ensures Allocated(heap.h) && heap.Valid()
    {
      assert UsesList(policy) ==> items[e.key] in order;
      if policy.LRU? && e.linked {
        order := ListMoveToBack(order, e, items, rs, stamp);
      }
      if policy.FIFO? { UseKeepsFifo(order, rs, e.key, stamp); }
    }

    method TouchHeap(e: Entry<K, M>, ghost rs: map<K, Rec<M>>, ghost stamp: nat)
      requires In(e, items) && Keyed(items, rs) && Mirrors(items, rs) && Flags()
      requires HeapAgrees(policy, heap.h, items, {}) && Allocated(heap.h) && heap.Valid()
      modifies heap, entries`heapIdx, entries`freq
      ensures Mirrors(items, rs[e.key := Used(rs[e.key], stamp)]) && Flags()
      ensures HeapAgrees(policy, heap.h, items, {}) && Allocated(heap.h) && heap.Valid()
    {
      assert policy.LFU? ==> items[e.key] in heap.h;
      if policy.LFU? && e.heapIdx >= 0 {
        ghost var was := heap.h;
        heap.Promote(e);
        SameHolds(heap.h, was, items);
      }
    }

    /** replaceEntry: the new value counts as a use; nothing is evicted. */
    method ReplaceEntry(e: Entry<K, M>, val: Value<M>)
      requires Valid() && In(e, items) && Stamped()
      modifies this`total, this`order, this`recs, this`clock, heap, entries
      ensures Valid() && clock == old(clock) + 1
      ensures recs == old(recs)[e.key := Used(old(recs)[e.key].(val := val), old(clock))]
    {
      Rewrite(e, val, recs[e.key].(val := val));
      Touch(e);
    }

    method Rewrite(e: Entry<K, M>, val: Value<M>, ghost r: Rec<M>)
      requires Valid() && In(e, items) && Stamped() && r == recs[e.key].(val := val)
      modifies this`total, this`recs, e`val
      ensures Valid() && Stamped() && recs == old(recs)[e.key := r]
    {
      RewriteKeepsQueue(policy, order, recs, e.key, r);
      Overwrite(e, val, r);
    }

    method Overwrite(e: Entry<K, M>, val: Value<M>, ghost r: Rec<M>)
      requires In(e, items) && Keyed(items, recs) && Mirrors(items, recs) && Stamped() && total == Total(recs)
      requires Flags() && Births() && Allocated(heap.h) && heap.Valid() && r == recs[e.key].(val := val)
      modifies this`total, this`recs, e`val
      ensures recs == old(recs)[e.key := r]
      ensures Keyed(items, recs) && Mirrors(items, recs) && Stamped() && total == Total(recs)
      ensures Flags() && Births() && Allocated(heap.h) && heap.Valid()
    {
      var size := e.val.size;
      SetVal(e, val, r);
      Rebook(e, size, recs[e.key := r]);
    }

    method Rebook(e: Entry<K, M>, size: int, ghost rs: map<K, Rec<M>>)
      requires In(e, items) && Keyed(items, recs) && Stamped() && total == Total(recs) && size == recs[e.key].val.size
      requires rs == recs[e.key := recs[e.key].(val := e.val)] && Mirrors(items, rs) && Flags() && heap.Valid()
      modifies this`total, this`recs
      ensures recs == rs && total == Total(recs) && Keyed(items, recs) && Stamped()
      ensures Mirrors(items, rs) && Flags() && heap.Valid()
    {
      UpdateTotal(e.key, e.val.size - size, rs);
    }

    method UpdateTotal(ghost key: K, difference: int, ghost rs: map<K, Rec<M>>)
      requires total == Total(recs) && key in recs && key in rs && rs == recs[key := rs[key]]
      requires difference == rs[key].val.size - recs[key].val.size
      modifies this`total, this`recs
      ensures recs == rs && total == Total(recs)
    {
      TotalUpdate(recs, key, rs[key]);
      total := total + difference;
      recs := rs;
    }

    method SetVal(e: Entry<K, M>, val: Value<M>, ghost r: Rec<M>)
      requires In(e, items) && Keyed(items, recs) && Mirrors(items, recs) && Flags() && heap.Valid()
      requires r == recs[e.key].(val := val)
      modifies e`val
      ensures Mirrors(items, recs[e.key := r]) && Flags() && heap.Valid()
    {
      e.val := val;
    }

    // ---------- insertion ----------

    /** insertEntry, for a key that is not present. */
    method InsertEntry(key: K, val: Value<M>)
      requires Valid() && key !in items && Stamped()
      modifies this`items, this`total, this`order, this`seqNo, this`recs, this`clock, this`entries, this`births
      modifies heap, entries
      ensures Valid() && clock == old(clock) + 1 && fresh(entries - old(entries))
      ensures recs == old(recs)[key := Rec(val, old(clock), old(clock), 1)]
    {
      ghost var live, rs := items, recs;
      var e := new Entry(key, val);
      ghost var r := NewRec(e, clock);
      Place(e, live, rs, r);
    }

    /** The new entry goes into the map, and into the list or the heap. */
    method Place(e: Entry<K, M>, ghost live: map<K, Entry<K, M>>, ghost rs: map<K, Rec<M>>, ghost r: Rec<M>)
      requires Valid() && live == items && rs == recs && e.key !in items && Stamped()
      requires e !in entries && !e.linked && e.heapIdx == -1 && e.freq == 1 && r == NewRec(e, clock)
      modifies this`items, this`total, this`order, this`seqNo, this`recs, this`clock, this`entries, this`births
      modifies heap, entries, e
      ensures Valid() && clock == old(clock) + 1 && entries == old(entries) + {e} && recs == rs[e.key := r]
    {
      Admit(e);
      Enter(e, live, rs, r);
      AppendList(e, live, rs, r);
      PushHeap(e, live, rs, r);
    }

    ghost function NewRec(e: Entry<K, M>, stamp: nat): Rec<M>
      reads e`val
    {
      Rec(e.val, stamp, stamp, 1)
    }

    ghost method Admit(e: Entry<K, M>)
      requires Keyed(items, recs) && Mirrors(items, recs) && Flags() && Allocated(heap.h) && heap.Valid()
      requires !e.linked && e.heapIdx == -1 && e !in order && e !in heap.h
      modifies this`entries
      ensures entries == old(entries) + {e}
      ensures Mirrors(items, recs) && Flags() && Allocated(heap.h) && heap.Valid()
    {
      entries := entries + {e};
    }

    method Enter(e: Entry<K, M>, ghost live: map<K, Entry<K, M>>, ghost rs: map<K, Rec<M>>, ghost r: Rec<M>)
      requires live == items && rs == recs && Keyed(items, recs) && Mirrors(live, rs) && total == Total(recs)
      requires e.key !in items && Flags() && Births() && Allocated(heap.h) && heap.Valid() && r == NewRec(e, clock)
      modifies this`items, this`total, this`recs, this`clock
      ensures items == live[e.key := e] && clock == old(clock) + 1 && recs == rs[e.key := r]
      ensures Keyed(items, recs) && Mirrors(live, rs) && total == Total(recs)
      ensures Flags() && Births() && Allocated(heap.h) && heap.Valid()
    {
      Book(e, rs, r);
      items := items[e.key := e];
    }

    method Book(e: Entry<K, M>, ghost rs: map<K, Rec<M>>, ghost r: Rec<M>)
      requires rs == recs && total == Total(recs) && e.key !in recs && r == NewRec(e, clock) && Births()
      modifies this`total, this`recs, this`clock
      ensures recs == rs[e.key := r] && total == Total(recs) && clock == old(clock) + 1 && Births()
    {
      TotalWithNew(rs, e.key, r);
      total := total + e.val.size;
      recs, clock := rs[e.key := r], clock + 1;
    }

    method AppendList(e: Entry<K, M>, ghost live: map<K, Entry<K, M>>, ghost rs: map<K, Rec<M>>, ghost r: Rec<M>)
      requires Keyed(live, rs) && e.key !in live && e in entries && !e.linked && e !in order
      requires ListAgrees(policy, order, live, rs, {}) && NoRepeats(order) && Flags() && Mirrors(live, rs)
      requires forall k :: k in rs ==> rs[k].born < r.born && rs[k].touched < r.touched
      requires Allocated(heap.h) && heap.Valid()
      modifies this`order, e`linked
      ensures ListAgrees(policy, order, live[e.key := e], rs[e.key := r], {}) && NoRepeats(order)
      ensures Flags() && Mirrors(live, rs) && Allocated(heap.h) && heap.Valid()
    {
      if UsesList(policy) {
        order := ListPushBack(order, e, policy, live, rs, r);
        e.linked := true;
      }
    }

    method PushHeap(e: Entry<K, M>, ghost live: map<K, Entry<K, M>>, ghost rs: map<K, Rec<M>>, ghost r: Rec<M>)
      requires Keyed(live, rs) && e.key !in live && e in entries && e.heapIdx == -1 && e !in heap.h
      requires HeapAgrees(policy, heap.h, live, {}) && Allocated(heap.h) && heap.Valid() && Flags()
      requires Mirrors(live, rs) && Births() && r.born < clock && e.freq == 1 && r == NewRec(e, r.born)
      requires forall i :: 0 <= i < |births| ==> births[i] < r.born
      modifies this`seqNo, this`births, heap, entries`heapIdx, e`seqNo
      ensures HeapAgrees(policy, heap.h, live[e.key := e], {}) && Allocated(heap.h) && heap.Valid() && Flags()
      ensures Mirrors(live[e.key := e], rs[e.key := r]) && Births()
    {
      if policy.LFU? {
        Number(e, live, rs, r);
        ghost var was := heap.h;
        heap.HeapPush(e);
        PushHolds(heap.h, was, e, live);
      }
    }

    method Number(e: Entry<K, M>, ghost live: map<K, Entry<K, M>>, ghost rs: map<K, Rec<M>>, ghost r: Rec<M>)
      requires Keyed(live, rs) && e.key !in live && e in entries && e !in heap.h
      requires Mirrors(live, rs) && Births() && r.born < clock && e.freq == 1 && r == NewRec(e, r.born)
      requires forall i :: 0 <= i < |births| ==> births[i] < r.born
      requires heap.Valid() && Flags()
      modifies this`seqNo, this`births, e`seqNo
      ensures Mirrors(live[e.key := e], rs[e.key := r]) && Births()
      ensures heap.Valid() && Flags()
    {
      seqNo := seqNo + 1;
      e.seqNo := seqNo;
      births := births + [r.born];
    }

    // ---------- eviction ----------

    /** evictOne: the entry that the policy names. */
    method EvictOne()
      requires Valid() && Distinct(recs)
      modifies this`items, this`total, this`order, this`recs, heap, entries`linked, entries`heapIdx
      ensures Valid()
      ensures policy.Other? || old(recs) == map[] ==> recs == old(recs)
      ensures !policy.Other? && old(recs) != map[] ==> recs == old(recs) - {Victim(policy, old(recs))}
    {
      ghost var rs := recs;
      if policy.FIFO? || policy.LRU? {
        if |order| == 0 { return; }
        var front := order[0];
        FrontIsVictim(policy, order, items, recs);
        VictimIsUnique(policy, rs, front.key);
        RemoveEntry(front, {});
      } else if policy.LFU? {
        if |heap.h| == 0 { return; }
        RootIsVictim();
        VictimIsUnique(policy, rs, heap.h[0].key);
        PopAndRemove();
      }
    }

    method PopAndRemove()
      requires Valid() && policy.LFU? && |heap.h| > 0
      modifies this`items, this`total, this`order, this`recs, heap, entries`linked, entries`heapIdx
      ensures Valid() && recs == old(recs) - {old(heap.h[0]).key}
    {
      ghost var was := heap.h;
      var e := heap.HeapPop();
      WithoutHolds(heap.h, was, e, items);
      assert forall i :: 0 <= i < |heap.h| ==> heap.h[i] in was;
      RemoveEntry(e, {e});
    }

    lemma RootIsVictim()
      requires Valid() && policy.LFU? && |heap.h| > 0 && Distinct(recs)
      ensures heap.h[0].key in recs && IsVictim(policy, recs, heap.h[0].key)
    {
      var root := heap.h[0];
      assert In(root, items);
      forall k | k in recs && k != root.key ensures Before(policy, recs[root.key], recs[k]) {
        assert items[k] in heap.h;
        RootIsBefore(k);
      }
    }

    lemma RootIsBefore(k: K)
      requires policy.LFU? && Keyed(items, recs) && Mirrors(items, recs) && Births() && heap.Valid() && |heap.h| > 0
      requires k in items && items[k] in heap.h && In(heap.h[0], items) && heap.h[0].key != k
      requires recs[heap.h[0].key].born != recs[k].born
      ensures Before(policy, recs[heap.h[0].key], recs[k])
    {
      var root, r := heap.h[0], heap.Ranks();
      assert root == items[root.key];
      var i :| 0 <= i < |heap.h| && heap.h[i] == items[k];
      RootIsLeast(r, |r|, i);
      assert r[0] == RankOf(root) && r[i] == RankOf(items[k]);
    }

    /** evictFor */
    method EvictFor(size: int)
      requires Valid() && Distinct(recs)
      requires policy.Other? ==> !MustEvict(maxBytes, recs, size)
      modifies this`items, this`total, this`order, this`recs, heap, entries`linked, entries`heapIdx
      ensures Valid() && recs == Eviction.EvictFor(policy, maxBytes, old(recs), size)
    {
      if maxBytes <= 0 { return; }
      ghost var goal := Eviction.EvictFor(policy, maxBytes, recs, size);
      while |items| > 0 && total + size > maxBytes
        invariant Valid() && Distinct(recs)
        invariant policy.Other? ==> !MustEvict(maxBytes, recs, size)
        invariant Eviction.EvictFor(policy, maxBytes, recs, size) == goal
        decreases |items|
      {
        EvictStep(size, goal);
      }
    }

    method EvictStep(size: int, ghost goal: map<K, Rec<M>>)
      requires Valid() && Distinct(recs) && MustEvict(maxBytes, recs, size) && !policy.Other?
      requires Eviction.EvictFor(policy, maxBytes, recs, size) == goal
      modifies this`items, this`total, this`order, this`recs, heap, entries`linked, entries`heapIdx
      ensures Valid() && Distinct(recs) && |items| < |old(items)|
      ensures Eviction.EvictFor(policy, maxBytes, recs, size) == goal
    {
      ghost var v := Victim(policy, recs);
      EvictOne();
      assert items.Keys == old(items).Keys - {v};
    }

    method Clear()
      requires Valid()
      modifies this`items, this`total, this`order, this`recs, this`entries, heap
      ensures Valid() && recs == map[] && entries == {}
    {
      heap.Clear();
      items, total, order, recs, entries := map[], 0, [], map[], {};
    }

    // ---------- whole operations ----------

    ghost predicate Sound()
      reads this, heap, entries
    {
      Valid() && WF(View())
    }

    /** The end of an operation that used no entry. */
    ghost method Tick()
      requires Sound()
      modifies this`clock
      ensures Sound() && View() == Eviction.Tick(old(View()))
    {
      TickKeepsWF(View());
      clock := clock + 1;
    }

    /** The end of one that finds an entry past its stale time. */
    method Discard(e: Entry<K, M>)
      requires Sound() && In(e, items)
      modifies this`items, this`total, this`order, this`recs, this`clock, heap, entries`linked, entries`heapIdx
      ensures Sound() && View() == State(old(recs) - {e.key}, old(clock) + 1)
    {
      RemoveKeepsWF(View(), e.key);
      RemoveEntry(e, {});
      Tick();
    }

    /** The end of one that hits an entry. */
    method Use(e: Entry<K, M>)
      requires Sound() && In(e, items) && e.key in recs
      modifies this`order, this`recs, this`clock, heap, entries
      ensures Sound() && View() == State(old(recs)[e.key := Used(old(recs)[e.key], old(clock))], old(clock) + 1)
    {
      WriteKeepsWF(View(), e.key, Used(recs[e.key], clock));
      Touch(e);
    }

    method Lookup(key: K, now: int) returns (found: Option<Value<M>>)
      requires Sound()
      modifies this, heap, entries
      ensures Sound() && entries == old(entries)
      ensures (View(), found) == Eviction.Lookup(old(View()), key, now)
    {
      if key !in items {
        Tick();
        return None;
      }
      var e := items[key];
      if now > e.val.expire {
        if now > e.val.staleUntil {
          Discard(e);
        } else {
          Tick();
        }
        return None;
      }
      found := Some(e.val);
      Use(e);
    }

    method LookupStale(key: K, now: int) returns (found: Option<Value<M>>)
      requires Sound()
      modifies this, heap, entries
      ensures Sound() && entries == old(entries)
      ensures (View(), found) == Eviction.LookupStale(old(View()), key, now)
    {
      if key !in items {
        Tick();
        return None;
      }
      var e := items[key];
      if now < e.val.expire {
        Tick();
        return None;
      }
      if now > e.val.staleUntil {
        Discard(e);
        return None;
      }
      found := Some(e.val);
      Tick();
    }

    method Put(key: K, val: Value<M>)
      requires Sound() && val.size >= 0 && CanPut(policy, maxBytes, View(), key, val.size)
      modifies this, heap, entries
      ensures Sound() && fresh(entries - old(entries))
      ensures View() == Eviction.Put(policy, maxBytes, old(View()), key, val)
    {
      PutKeepsWF(policy, maxBytes, View(), key, val);
      if key in items {
        ReplaceEntry(items[key], val);
      } else {
        MakeRoomFor(key, val);
        InsertEntry(key, val);
      }
    }

    method MakeRoomFor(ghost key: K, val: Value<M>)
      requires Sound() && key !in recs && (policy.Other? ==> !MustEvict(maxBytes, recs, val.size))
      modifies this`items, this`total, this`order, this`recs, heap, entries`linked, entries`heapIdx
      ensures Valid() && Stamped() && key !in recs
      ensures recs == Eviction.EvictFor(policy, maxBytes, old(recs), val.size)
    {
      EvictForLeavesPart(policy, maxBytes, recs, val.size, clock);
      EvictFor(val.size);
    }

    method Reset()
      requires Sound()
      modifies this, heap
      ensures Sound() && entries == {} && View() == State(map[], old(clock) + 1)
    {
      Clear();
      Tick();
    }
  }
}
