/** A cache holds message objects; its meaning is what those objects say.  Looking up,
    making room and storing do not look inside, so they commute with reading. */
module Reading {
  import opened GoArith
  import opened Eviction

  ghost predicate Owned<K, M, N>(recs: map<K, Rec<M>>, contents: map<M, N>) {
    forall k :: k in recs ==> recs[k].val.msg in contents
  }

  ghost function ReadValue<M, N>(v: Value<M>, contents: map<M, N>): Value<N>
    requires v.msg in contents
  {
    Value(contents[v.msg], v.size, v.expire, v.staleUntil)
  }

  ghost function ReadRec<M, N>(r: Rec<M>, contents: map<M, N>): Rec<N>
    requires r.val.msg in contents
  {
    Rec(ReadValue(r.val, contents), r.born, r.touched, r.uses)
  }

  /** The records with the messages' values in place of the messages. */
  ghost function Read<K, M, N>(recs: map<K, Rec<M>>, contents: map<M, N>): map<K, Rec<N>>
    requires Owned(recs, contents)
  {
    map k | k in recs :: ReadRec(recs[k], contents)
  }

  ghost function ReadState<K, M, N>(s: State<K, M>, contents: map<M, N>): State<K, N>
    requires Owned(s.recs, contents)
  {
    State(Read(s.recs, contents), s.clock)
  }

  ghost function ReadFound<M, N>(found: Option<Value<M>>, contents: map<M, N>): Option<Value<N>>
    requires found.Some? ==> found.value.msg in contents
  {
    if found.None? then None else Some(ReadValue(found.value, contents))
  }

  lemma ReadUpdate<K, M, N>(recs: map<K, Rec<M>>, contents: map<M, N>, k: K, r: Rec<M>)
    requires Owned(recs, contents) && r.val.msg in contents
    ensures Owned(recs[k := r], contents)
    ensures Read(recs[k := r], contents) == Read(recs, contents)[k := ReadRec(r, contents)]
  {
  }

  lemma ReadWithout<K, M, N>(recs: map<K, Rec<M>>, contents: map<M, N>, k: K)
    requires Owned(recs, contents)
    ensures Owned(recs - {k}, contents)
    ensures Read(recs - {k}, contents) == Read(recs, contents) - {k}
  {
  }

  lemma ReadLookup<K, M, N>(s: State<K, M>, contents: map<M, N>, key: K, now: int)
    requires Owned(s.recs, contents)
    ensures Owned(Lookup(s, key, now).0.recs, contents)
    ensures Lookup(s, key, now).1.Some? ==> Lookup(s, key, now).1.value.msg in contents
    ensures Lookup(ReadState(s, contents), key, now)
      == (ReadState(Lookup(s, key, now).0, contents), ReadFound(Lookup(s, key, now).1, contents))
  {
    ReadWithout(s.recs, contents, key);
    if key in s.recs { ReadUpdate(s.recs, contents, key, Used(s.recs[key], s.clock)); }
  }

  lemma ReadLookupStale<K, M, N>(s: State<K, M>, contents: map<M, N>, key: K, now: int)
    requires Owned(s.recs, contents)
    ensures Owned(LookupStale(s, key, now).0.recs, contents)
    ensures LookupStale(s, key, now).1.Some? ==> LookupStale(s, key, now).1.value.msg in contents
    ensures LookupStale(ReadState(s, contents), key, now)
      == (ReadState(LookupStale(s, key, now).0, contents), ReadFound(LookupStale(s, key, now).1, contents))
  {
    ReadWithout(s.recs, contents, key);
  }

  lemma {:induction false} ReadTotal<K, M, N>(recs: map<K, Rec<M>>, contents: map<M, N>)
    requires Owned(recs, contents)
    ensures Total(Read(recs, contents)) == Total(recs)
    decreases |recs|
  {
    if k :| k in recs {
      TotalWithout(recs, k);
      TotalWithout(Read(recs, contents), k);
      ReadWithout(recs, contents, k);
      ReadTotal(recs - {k}, contents);
    } else {
      assert Read(recs, contents) == map[];
    }
  }

  lemma ReadVictim<K, M, N>(p: Policy, recs: map<K, Rec<M>>, contents: map<M, N>)
    requires Owned(recs, contents) && Distinct(recs) && recs != map[] && !p.Other?
    ensures Distinct(Read(recs, contents)) && Read(recs, contents) != map[]
    ensures Victim(p, Read(recs, contents)) == Victim(p, recs)
  {
    var v := Victim(p, recs);
    assert v in Read(recs, contents);
    assert IsVictim(p, Read(recs, contents), v);
    VictimIsUnique(p, Read(recs, contents), v);
  }

  lemma ReadMustEvict<K, M, N>(maxBytes: int, recs: map<K, Rec<M>>, size: int, contents: map<M, N>)
    requires Owned(recs, contents)
    ensures MustEvict(maxBytes, Read(recs, contents), size) == MustEvict(maxBytes, recs, size)
  {
    ReadTotal(recs, contents);
    assert Read(recs, contents).Keys == recs.Keys;
    if k :| k in recs { assert k in Read(recs, contents); }
  }

  lemma {:induction false} ReadEvictFor<K, M, N>(p: Policy, maxBytes: int, recs: map<K, Rec<M>>, size: int, contents: map<M, N>)
    requires Owned(recs, contents) && Distinct(recs)
    requires p.Other? ==> !MustEvict(maxBytes, recs, size)
    ensures Distinct(Read(recs, contents))
    ensures MustEvict(maxBytes, Read(recs, contents), size) == MustEvict(maxBytes, recs, size)
    ensures Owned(EvictFor(p, maxBytes, recs, size), contents)
    ensures EvictFor(p, maxBytes, Read(recs, contents), size) == Read(EvictFor(p, maxBytes, recs, size), contents)
    decreases |recs|
  {
    ReadMustEvict(maxBytes, recs, size, contents);
    if MustEvict(maxBytes, recs, size) {
      var v := Victim(p, recs);
      ReadVictim(p, recs, contents);
      ReadWithout(recs, contents, v);
      ReadEvictFor(p, maxBytes, recs - {v}, size, contents);
    }
  }

  lemma ReadPut<K, M, N>(p: Policy, maxBytes: int, s: State<K, M>, key: K, val: Value<M>, contents: map<M, N>)
    requires Owned(s.recs, contents) && val.msg in contents && CanPut(p, maxBytes, s, key, val.size)
    ensures CanPut(p, maxBytes, ReadState(s, contents), key, val.size)
    ensures Owned(Put(p, maxBytes, s, key, val).recs, contents)
    ensures Put(p, maxBytes, ReadState(s, contents), key, ReadValue(val, contents))
      == ReadState(Put(p, maxBytes, s, key, val), contents)
  {
    ReadMustEvict(maxBytes, s.recs, val.size, contents);
    if key in s.recs {
      ReadUpdate(s.recs, contents, key, Used(s.recs[key].(val := val), s.clock));
    } else {
      ReadEvictFor(p, maxBytes, s.recs, val.size, contents);
      ReadUpdate(EvictFor(p, maxBytes, s.recs, val.size), contents, key, Rec(val, s.clock, s.clock, 1));
    }
  }

  /** A message made later changes nothing in what is stored now. */
  lemma ReadGrown<K, M, N>(recs: map<K, Rec<M>>, contents: map<M, N>, m: M, v: N)
    requires Owned(recs, contents) && m !in contents
    ensures Owned(recs, contents[m := v]) && Read(recs, contents[m := v]) == Read(recs, contents)
  {
  }
}
