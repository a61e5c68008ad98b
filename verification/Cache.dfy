/** The response cache.  Every operation is proved to do what CacheSpec says; the messages
    inside are the cache's own copies, and no caller ever holds one of them. */
module ResponseCache {
  import opened GoArith
  import opened Dns
  import opened Eviction
  import opened Reading
  import Store
  import Ttl
  import CacheKey
  import CacheSpec

  ghost predicate Answers(resp: Message?, answer: Option<Msg>)
    reads resp
  {
    match answer
    case None => resp == null
    case Some(m) => resp != null && resp.val == m
  }

  /** What was found is f, with a message for its value. */
  ghost predicate Says(found: Option<Value<Message>>, f: Option<Value<Msg>>)
    reads if found.Some? then {found.value.msg} else {}
  {
    match found
    case None => f.None?
    case Some(v) => f == Some(Value(v.msg.val, v.size, v.expire, v.staleUntil))
  }

  lemma ReadStored<M>(cfg: CacheSpec.Config, val: Value<M>, r: Msg, key: string, wireLength: nat, ttl: int, now: int,
      contents: map<M, Msg>)
    requires val.msg in contents && contents[val.msg] == r && ttl == CacheSpec.Lifetime(cfg, r)
    requires val == Value(val.msg, wireLength + |key|, now + ttl, now + (ttl + cfg.staleMaxAge))
    ensures ReadValue(val, contents) == CacheSpec.Stored(cfg, r, r, key, wireLength, now)
  {
  }

  class Cache {
    const cfg: CacheSpec.Config
    const store: Store.Store<string, Message>
    ghost var contents: map<Message, Msg>   // the copies made so far, and what they say

    constructor (c: CacheSpec.Config)
      ensures Valid() && fresh(Repr()) && contents == map[]
      ensures View() == State(map[], 0) && cfg == CacheSpec.Defaults(c)
      ensures cfg == c.(eviction := if c.eviction == Other("") then LRU else c.eviction,
                        staleAnswerTtl := if c.staleAnswerTtl <= 0 then 30_000_000_000 else c.staleAnswerTtl)
    {
      cfg := CacheSpec.Defaults(c);
      store := new Store.Store(CacheSpec.Defaults(c).eviction, c.maxBytes);
      contents := map[];
    }

    /** The objects an operation may change; the messages are not among them. */
    ghost function Repr(): set<object>
      reads this, store
    {
      {this, store, store.heap} + store.entries
    }

    /** Nobody has changed a copy. */
    ghost predicate Intact()
      reads this`contents, contents.Keys`val
    {
      forall m :: m in contents ==> m.val == contents[m]
    }

    ghost predicate Valid()
      reads this, store, store.heap, store.entries, contents.Keys`val
    {
      store.policy == cfg.eviction && store.maxBytes == cfg.maxBytes &&
      store.Sound() && Owned(store.recs, contents) && Intact()
    }

    ghost function View(): State<string, Msg>
      requires Owned(store.recs, contents)
      reads this, store
    {
      ReadState(store.View(), contents)
    }

    // ---------- reading ----------

    method Get(req: Message?, now: int) returns (resp: Message?)
      requires Valid()
      modifies store, store.heap, store.entries
      ensures Valid() && store.entries == old(store.entries)
      ensures req == null ==> resp == null && View() == Tick(old(View()))
      ensures req != null ==> View() == CacheSpec.Get(cfg, old(View()), old(req.val), now).0
      ensures req != null ==> Answers(resp, CacheSpec.Get(cfg, old(View()), old(req.val), now).1)
      ensures resp != null ==> fresh(resp)
    {
      if req == null || |req.val.question| != 1 {
        Miss();
        return null;
      }
      resp := GetMessage(req, now, req.val, View());
    }

    method GetMessage(req: Message, now: int, ghost q: Msg, ghost s: State<string, Msg>) returns (resp: Message?)
      requires Valid() && s == View() && q == req.val && |q.question| == 1
      modifies store, store.heap, store.entries
      ensures Valid() && store.entries == old(store.entries)
      ensures View() == CacheSpec.Get(cfg, s, q, now).0 && Answers(resp, CacheSpec.Get(cfg, s, q, now).1)
      ensures resp != null ==> fresh(resp)
    {
      var key := CacheKey.ComputeKey(req);
      resp := GetUnder(key, now, s);
    }

    method GetUnder(key: string, now: int, ghost s: State<string, Msg>) returns (resp: Message?)
      requires Valid() && s == View()
      modifies store, store.heap, store.entries
      ensures Valid() && store.entries == old(store.entries) && View() == Lookup(s, key, now).0
      ensures Answers(resp, CacheSpec.FreshAnswer(cfg, Lookup(s, key, now).1, now)) && (resp != null ==> fresh(resp))
    {
      var found := Find(key, now, s);
      resp := CopyFresh(found, now, Lookup(s, key, now).1);
    }

    method GetStale(req: Message?, now: int) returns (resp: Message?, ok: bool)
      requires Valid()
      modifies store, store.heap, store.entries
      ensures Valid() && store.entries == old(store.entries)
      ensures req == null ==> resp == null && View() == Tick(old(View()))
      ensures req != null ==> View() == CacheSpec.GetStale(cfg, old(View()), old(req.val), now).0
      ensures req != null ==> Answers(resp, CacheSpec.GetStale(cfg, old(View()), old(req.val), now).1)
      ensures ok == (resp != null)
      ensures resp != null ==> fresh(resp)
    {
      if req == null || |req.val.question| != 1 || cfg.staleMaxAge <= 0 {
        Miss();
        return null, false;
      }
      resp := GetStaleMessage(req, now, req.val, View());
      ok := resp != null;
    }

    method GetStaleMessage(req: Message, now: int, ghost q: Msg, ghost s: State<string, Msg>) returns (resp: Message?)
      requires Valid() && s == View() && q == req.val && |q.question| == 1 && cfg.staleMaxAge > 0
      modifies store, store.heap, store.entries
      ensures Valid() && store.entries == old(store.entries)
      ensures View() == CacheSpec.GetStale(cfg, s, q, now).0 && Answers(resp, CacheSpec.GetStale(cfg, s, q, now).1)
      ensures resp != null ==> fresh(resp)
    {
      var key := CacheKey.ComputeKey(req);
      resp := GetStaleUnder(key, now, s);
    }

    method GetStaleUnder(key: string, now: int, ghost s: State<string, Msg>) returns (resp: Message?)
      requires Valid() && s == View()
      modifies store, store.heap, store.entries
      ensures Valid() && store.entries == old(store.entries) && View() == LookupStale(s, key, now).0
      ensures Answers(resp, CacheSpec.StaleAnswer(cfg, LookupStale(s, key, now).1)) && (resp != null ==> fresh(resp))
    {
      var found := FindStale(key, now, s);
      resp := CopyStale(found, LookupStale(s, key, now).1);
    }

    method Find(key: string, now: int, ghost s: State<string, Msg>) returns (found: Option<Value<Message>>)
      requires Valid() && s == View()
      modifies store, store.heap, store.entries
      ensures Valid() && store.entries == old(store.entries)
      ensures View() == Lookup(s, key, now).0 && Says(found, Lookup(s, key, now).1)
    {
      ReadLookup(store.View(), contents, key, now);
      found := store.Lookup(key, now);
    }

    method FindStale(key: string, now: int, ghost s: State<string, Msg>) returns (found: Option<Value<Message>>)
      requires Valid() && s == View()
      modifies store, store.heap, store.entries
      ensures Valid() && store.entries == old(store.entries)
      ensures View() == LookupStale(s, key, now).0 && Says(found, LookupStale(s, key, now).1)
    {
      ReadLookupStale(store.View(), contents, key, now);
      found := store.LookupStale(key, now);
    }

    /** A call that leaves the store alone still counts as an operation. */
    ghost method Miss()
      requires Valid()
      modifies store`clock
      ensures Valid() && View() == Tick(old(View()))
    {
      store.Tick();
    }

    method CopyFresh(found: Option<Value<Message>>, now: int, ghost f: Option<Value<Msg>>) returns (resp: Message?)
      requires Says(found, f) && (f.Some? ==> now <= f.value.expire)
      ensures Answers(resp, CacheSpec.FreshAnswer(cfg, f, now)) && (resp != null ==> fresh(resp))
    {
      if found.None? { return null; }
      resp := found.value.msg.Copy();
      var remaining := ToU32((found.value.expire - now) / SECOND);
      if remaining == 0 { remaining := 1; }
      var max := cfg.MaxSeconds();
      if max > 0 && remaining > max { remaining := max; }
      Ttl.SetTtl(resp, remaining);
    }

    method CopyStale(found: Option<Value<Message>>, ghost f: Option<Value<Msg>>) returns (resp: Message?)
      requires Says(found, f)
      ensures Answers(resp, CacheSpec.StaleAnswer(cfg, f)) && (resp != null ==> fresh(resp))
    {
      if found.None? { return null; }
      resp := found.value.msg.Copy();
      var ttl := ToU32(TruncDiv(cfg.staleAnswerTtl, SECOND));
      if ttl == 0 { ttl := 1; }
      var max := cfg.MaxSeconds();
      if max > 0 && ttl > max { ttl := max; }
      Ttl.SetTtl(resp, ttl);
    }

    // ---------- writing ----------

    /** wireLength is what Message.Len reports for the response. */
    method Set(req: Message?, resp: Message?, wireLength: nat, now: int) returns (ghost copy: Message?)
      requires Valid()
      requires req != null && resp != null ==> CacheSpec.CanSet(cfg, View(), req.val, resp.val, wireLength)
      modifies Repr()
      ensures Valid() && fresh(store.entries - old(store.entries))
      ensures contents.Keys == if copy == null then old(contents.Keys) else old(contents.Keys) + {copy}
      ensures copy != null ==> fresh(copy)
      ensures req == null || resp == null ==> View() == Tick(old(View()))
      ensures req != null && resp != null ==>
        View() == CacheSpec.Set(cfg, old(View()), old(req.val), old(resp.val), wireLength, now)
    {
      if req == null || resp == null || |req.val.question| != 1 || !Ttl.Cacheable(resp.val) {
        Miss();
        return null;
      }
      copy := SetMessage(req, resp, wireLength, now, req.val, View());
    }

    method SetMessage(req: Message, resp: Message, wireLength: nat, now: int, ghost q: Msg, ghost s: State<string, Msg>)
      returns (ghost copy: Message?)
      requires Valid() && s == View() && q == req.val && |q.question| == 1 && Ttl.Cacheable(resp.val)
      requires CacheSpec.CanSet(cfg, s, q, resp.val, wireLength)
      modifies Repr()
      ensures Valid() && fresh(store.entries - old(store.entries))
      ensures contents.Keys == if copy == null then old(contents.Keys) else old(contents.Keys) + {copy}
      ensures copy != null ==> fresh(copy)
      ensures View() == CacheSpec.Set(cfg, s, q, old(resp.val), wireLength, now)
    {
      var ttl := LifetimeOf(resp);
      if ttl == 0 {
        Miss();
        return null;
      }
      var key := CacheKey.ComputeKey(req);
      CacheSpec.SetPuts(cfg, s, q, resp.val, wireLength, now);
      copy := Write(key, resp, wireLength, ttl, now, s);
    }

    method LifetimeOf(resp: Message) returns (ttl: int)
      ensures ttl == CacheSpec.Lifetime(cfg, resp.val)
    {
      ttl := cfg.ttl;
      if ttl <= 0 {
        var secs := Ttl.ComputeRecordTtl(resp);
        ttl := secs * SECOND;
      }
    }

    /** The locked part of Set: the message is copied, and the copy is stored. */
    method Write(key: string, resp: Message, wireLength: nat, ttl: int, now: int, ghost s: State<string, Msg>)
      returns (ghost copy: Message)
      requires Valid() && s == View() && CanPut(cfg.eviction, cfg.maxBytes, s, key, wireLength + |key|)
      requires ttl == CacheSpec.Lifetime(cfg, resp.val)
      modifies Repr()
      ensures Valid() && fresh(store.entries - old(store.entries))
      ensures fresh(copy) && contents.Keys == old(contents.Keys) + {copy}
      ensures View() == Put(cfg.eviction, cfg.maxBytes, s, key,
                            CacheSpec.Stored(cfg, old(resp.val), old(resp.val), key, wireLength, now))
    {
      ghost var r := resp.val;
      var stored := CopyOf(resp);
      copy := stored;
      StoreCopy(key, stored, wireLength, ttl, now, r, s);
    }

    method StoreCopy(key: string, stored: Message, wireLength: nat, ttl: int, now: int, ghost r: Msg, ghost s: State<string, Msg>)
      requires Valid() && s == View() && stored in contents && contents[stored] == r && ttl == CacheSpec.Lifetime(cfg, r)
      requires CanPut(cfg.eviction, cfg.maxBytes, s, key, wireLength + |key|)
      modifies store, store.heap, store.entries
      ensures Valid() && fresh(store.entries - old(store.entries))
      ensures View() == Put(cfg.eviction, cfg.maxBytes, s, key, CacheSpec.Stored(cfg, r, r, key, wireLength, now))
    {
      var val := Value(stored, wireLength + |key|, now + ttl, now + (ttl + cfg.staleMaxAge));
      ReadStored(cfg, val, r, key, wireLength, ttl, now, contents);
      PutCopy(key, val, CacheSpec.Stored(cfg, r, r, key, wireLength, now), s);
    }

    method CopyOf(resp: Message) returns (copy: Message)
      requires Valid()
      modifies this`contents
      ensures Valid() && View() == old(View()) && fresh(copy)
      ensures contents.Keys == old(contents.Keys) + {copy} && contents[copy] == resp.val
    {
      copy := resp.Copy();
      ReadGrown(store.recs, contents, copy, copy.val);
      contents := contents[copy := copy.val];
    }

    method PutCopy(key: string, val: Value<Message>, ghost v: Value<Msg>, ghost s: State<string, Msg>)
      requires Valid() && val.msg in contents && val.size >= 0 && v == ReadValue(val, contents)
      requires View() == s && CanPut(cfg.eviction, cfg.maxBytes, s, key, val.size)
      modifies store, store.heap, store.entries
      ensures Valid() && fresh(store.entries - old(store.entries))
      ensures View() == Put(cfg.eviction, cfg.maxBytes, s, key, v)
    {
      CanPutRead(key, val.size);
      ReadPut(cfg.eviction, cfg.maxBytes, store.View(), key, val, contents);
      StorePut(key, val, Put(cfg.eviction, cfg.maxBytes, store.View(), key, val));
    }

    method StorePut(key: string, val: Value<Message>, ghost t: State<string, Message>)
      requires store.Sound() && Intact() && val.size >= 0 && CanPut(store.policy, store.maxBytes, store.View(), key, val.size)
      requires t == Put(store.policy, store.maxBytes, store.View(), key, val)
      modifies store, store.heap, store.entries
      ensures store.Sound() && Intact() && fresh(store.entries - old(store.entries)) && store.View() == t
    {
      store.Put(key, val);
    }

    /** Whether room can be made does not depend on what the messages say. */
    lemma CanPutRead(key: string, size: int)
      requires Valid() && CanPut(cfg.eviction, cfg.maxBytes, View(), key, size)
      ensures CanPut(cfg.eviction, cfg.maxBytes, store.View(), key, size)
    {
      ReadMustEvict(cfg.maxBytes, store.recs, size, contents);
    }

    method Clear()
      requires Valid()
      modifies Repr()
      ensures Valid() && contents == old(contents) && fresh(Repr() - old(Repr()))
      ensures View() == CacheSpec.Clear(old(View()))
    {
      store.Reset();
    }

    /** Clamp rewrites the response of its caller in place; the cache is not involved. */
    method Clamp(resp: Message?) returns (r: Message?)
      modifies resp
      ensures r == resp
      ensures resp != null ==> resp.val == Ttl.ClampMsg(cfg.MinSeconds(), cfg.MaxSeconds(), old(resp.val))
    {
      r := resp;
      if resp == null { return; }
      Ttl.ClampMessage(resp, cfg.MinSeconds(), cfg.MaxSeconds());
    }

    method Size() returns (total: int)
      requires Valid()
      ensures total == Total(View().recs)
    {
      ReadTotal(store.recs, contents);
      total := store.total;
    }
  }
}
