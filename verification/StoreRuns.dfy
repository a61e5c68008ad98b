/** Any sequence of operations on the store itself: its structures stay in step, and what they
    stand for is the run of the same operations. */
module StoreRuns {
  import opened GoArith
  import opened Eviction
  import opened Runs
  import S = Store

  method Perform<K(==,!new), M>(store: S.Store<K, M>, op: Op<K, M>, ghost l: Limits, ghost s: State<K, M>)
    requires store.Sound() && store.View() == s && l == Limits(store.policy, store.maxBytes)
    requires !l.policy.Other? && (op.Write? ==> op.val.size >= 0)
    modifies store, store.heap, store.entries
    ensures store.Sound() && store.View() == Step(l, s, op) && fresh(store.entries - old(store.entries))
  {
    match op {
      case Find(key, now) => var found := store.Lookup(key, now);
      case FindStale(key, now) => var found := store.LookupStale(key, now);
      case Write(key, val) => store.Put(key, val);
      case Reset => store.Reset();
      case Nothing => Skip(store);
    }
  }

  ghost method Skip<K(!new), M>(store: S.Store<K, M>)
    requires store.Sound()
    modifies store`clock
    ensures store.Sound() && store.View() == Tick(old(store.View()))
  {
    store.Tick();
  }

  method PerformNext<K(==,!new), M>(store: S.Store<K, M>, ops: seq<Op<K, M>>, i: nat, ghost l: Limits)
    requires !l.policy.Other? && Sized(ops) && i < |ops| && l == Limits(store.policy, store.maxBytes)
    requires store.Sound() && Sized(ops[..i]) && store.View() == Run(l, ops[..i])
    modifies store, store.heap, store.entries
    ensures store.Sound() && Sized(ops[..i + 1]) && store.View() == Run(l, ops[..i + 1])
    ensures fresh(store.entries - old(store.entries))
  {
    assert Front(ops[..i + 1]) == ops[..i];
    Perform(store, ops[i], l, Run(l, ops[..i]));
  }

  method Replay<K(==,!new), M>(l: Limits, ops: seq<Op<K, M>>) returns (store: S.Store<K, M>)
    requires !l.policy.Other? && Sized(ops)
    ensures fresh(store) && store.Sound() && store.View() == Run(l, ops)
  {
    store := new S.Store(l.policy, l.maxBytes);
    for i := 0 to |ops|
      invariant fresh(store) && fresh(store.heap) && fresh(store.entries) && Limits(store.policy, store.maxBytes) == l
      invariant store.Sound() && Sized(ops[..i]) && store.View() == Run(l, ops[..i])
    {
      PerformNext(store, ops, i, l);
    }
    assert ops[..|ops|] == ops;
  }
}
