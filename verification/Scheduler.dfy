/** The scheduler: rounds of probes that reuse, make, select and retire upstreams, and its
    retirement when a new configuration takes over. */
module Scheduler {
  import opened GoArith
  import opened Strings
  import opened Lifecycle
  import opened Signature

  datatype Probe = Probe(addr: string, upstream: nat, rtt: int, ok: bool, made: bool)

  datatype ProviderProbe = ProviderProbe(name: string, results: seq<Probe>)

  datatype Member = Member(weight: int, upstream: nat)

  /** The key of an upstream among the live ones. */
  function Key(name: string, addr: string): string {
    name + ['\0'] + addr
  }

  lemma KeysDiffer(name: string, addr: string, name': string, addr': string)
    requires '\0' !in name && '\0' !in name' && Key(name, addr) == Key(name', addr')
    ensures name == name' && addr == addr'
  {
    FindEnd(name, '\0', addr);
    FindEnd(name', '\0', addr');
  }

  // ---------- the probes of one provider ----------

  function MadeIn(results: seq<Probe>): (r: set<nat>) {
    set i | 0 <= i < |results| && results[i].made :: results[i].upstream
  }

  /** A probe reuses the live upstream of its key; only without one it makes another. */
  predicate Reuses(live: map<string, nat>, name: string, p: Probe) {
    var key := Key(name, p.addr);
    if p.made then key !in live else key in live && live[key] == p.upstream
  }

  ghost predicate ProbesOk(live: map<string, nat>, name: string, results: seq<Probe>) {
    && (forall i :: 0 <= i < |results| ==> Reuses(live, name, results[i]))
    && (forall i, j :: 0 <= i < j < |results| && results[i].made && results[j].made ==> results[i].upstream != results[j].upstream)
  }

  predicate Probed(results: seq<Probe>, addr: string) {
    exists i :: 0 <= i < |results| && results[i].addr == addr
  }

  lemma StillProbed(before: seq<Probe>, results: seq<Probe>)
    requires results == before || (|results| == |before| + 1 && results[..|before|] == before)
    ensures forall addr :: Probed(before, addr) ==> Probed(results, addr)
  {
    forall addr | Probed(before, addr) ensures Probed(results, addr) {
      var i :| 0 <= i < |before| && before[i].addr == addr;
      assert results[i] == before[i];
    }
  }

  lemma OneMoreProbe(live: map<string, nat>, name: string, results: seq<Probe>, p: Probe)
    requires ProbesOk(live, name, results) && Reuses(live, name, p) && (p.made ==> p.upstream !in MadeIn(results))
    ensures ProbesOk(live, name, results + [p])
    ensures MadeIn(results + [p]) == MadeIn(results) + if p.made then {p.upstream} else {}
  {
    var more := results + [p];
    forall u | u in MadeIn(results) ensures u in MadeIn(more) {
      var i :| 0 <= i < |results| && results[i].made && results[i].upstream == u;
      assert more[i] == results[i];
    }
    assert more[|results|] == p;
    forall i | 0 <= i < |results| && results[i].made ensures results[i].upstream in MadeIn(results) {
    }
  }

  /** The best result: it answered, none that answered was faster, and no earlier one was as
      fast. */
  ghost predicate IsBest(results: seq<Probe>, i: int) {
    0 <= i < |results| && results[i].ok &&
    (forall j :: 0 <= j < |results| && results[j].ok ==> results[i].rtt <= results[j].rtt) &&
    (forall j :: 0 <= j < i && results[j].ok ==> results[i].rtt < results[j].rtt)
  }

  predicate SomeOk(results: seq<Probe>) {
    exists i :: 0 <= i < |results| && results[i].ok
  }

  /** The provider is selected with its best result, or not at all when nothing answered. */
  ghost predicate BestSelected(probe: ProviderProbe, selected: Selection) {
    if SomeOk(probe.results) then
      probe.name in selected && exists b :: IsBest(probe.results, b) && selected[probe.name] == probe.results[b]
    else probe.name !in selected
  }

  method PickBest(results: seq<Probe>) returns (best: Option<nat>)
    ensures best.Some? ==> IsBest(results, best.value)
    ensures best.None? <==> forall i :: 0 <= i < |results| ==> !results[i].ok
  {
    best := None;
    for i := 0 to |results|
      invariant best.Some? ==> best.value < i && IsBest(results[..i], best.value)
      invariant best.None? <==> forall j :: 0 <= j < i ==> !results[j].ok
    {
      assert forall j :: 0 <= j < i ==> results[..i + 1][j] == results[..i][j];
      if !results[i].ok { continue; }
      if best.None? || results[i].rtt < results[best.value].rtt { best := Some(i); }
    }
    assert results[..|results|] == results;
  }

  // ---------- what was selected ----------

  type Selection = map<string, Probe>

  function AddrOf(selected: Selection): map<string, string> {
    map n | n in selected :: selected[n].addr
  }

  function UpstreamsOf(selected: Selection): set<nat> {
    set n | n in selected :: selected[n].upstream
  }

  function NewIn(selected: Selection): set<nat> {
    set n | n in selected && selected[n].made :: selected[n].upstream
  }

  ghost predicate SelectionOk(live: map<string, nat>, selected: Selection) {
    && (forall n :: n in selected ==> '\0' !in n && Reuses(live, n, selected[n]))
    && (forall m, n :: m in selected && n in selected && m != n ==> selected[m].upstream != selected[n].upstream)
  }

  ghost predicate Injective(live: map<string, nat>) {
    forall j, k :: j in live && k in live && j != k ==> live[j] != live[k]
  }

  predicate KeyFor(addrs: map<string, string>, n: string, k: string) {
    n in addrs && k == Key(n, addrs[n])
  }

  /** live has the keys of the selected providers and their addresses, and no others. */
  ghost predicate Serves(live: map<string, nat>, addrs: map<string, string>) {
    && (forall n, k :: KeyFor(addrs, n, k) ==> k in live)
    && (forall k {:trigger k in live} :: k in live ==> exists n :: KeyFor(addrs, n, k))
  }

  /** A selection with the addresses of the live one needs no fresh upstream. */
  lemma SameSelectionReuses(live: map<string, nat>, selected: Selection)
    requires SelectionOk(live, selected) && Serves(live, AddrOf(selected))
    ensures NewIn(selected) == {} && forall n :: n in selected ==> !selected[n].made
  {
    forall n | n in selected ensures !selected[n].made {
      assert KeyFor(AddrOf(selected), n, Key(n, selected[n].addr));
    }
  }

  lemma OneMoreSelected(live: map<string, nat>, selected: Selection, name: string, p: Probe)
    requires SelectionOk(live, selected) && Injective(live) && name !in selected
    requires '\0' !in name && Reuses(live, name, p) && (if p.made then p.upstream !in UpstreamsOf(selected) else p.upstream !in NewIn(selected))
    ensures SelectionOk(live, selected[name := p])
    ensures NewIn(selected[name := p]) == NewIn(selected) + if p.made then {p.upstream} else {}
  {
    forall n | n in selected ensures selected[n].upstream != p.upstream {
      if !selected[n].made && !p.made && selected[n].upstream == p.upstream {
        KeysDiffer(n, selected[n].addr, name, p.addr);
      }
      assert selected[n].upstream in UpstreamsOf(selected);
      assert selected[n].made ==> selected[n].upstream in NewIn(selected);
    }
    var more := selected[name := p];
    forall u | u in NewIn(selected) ensures u in NewIn(more) {
      var n :| n in selected && selected[n].made && selected[n].upstream == u;
      assert more[n] == selected[n];
    }
    assert more[name] == p;
  }

  /** The providers and addresses are configured ones. */
  ghost predicate SelectedFrom(dns: map<string, seq<string>>, selected: Selection) {
    forall n :: n in selected ==> n in dns && selected[n].addr in dns[n]
  }

  function Weight(weights: map<string, int>, name: string): int {
    if name in weights && weights[name] >= 1 then weights[name] else 1
  }

  /** The members of a selection: one for each selected provider, with its configured weight, or
      with 1 if it has none. */
  lemma MembersHaveWeights(weights: map<string, int>, selected: Selection, members: seq<Member>, n: string)
    requires Enlisted(weights, selected, members) && n in selected
    ensures n in weights && 1 <= weights[n] <= 100 ==> Member(weights[n], selected[n].upstream) in members
    ensures n !in weights ==> Member(1, selected[n].upstream) in members
    ensures forall i :: 0 <= i < |members| ==> members[i].upstream in UpstreamsOf(selected)
  {
    assert MemberFor(weights, selected, n, Member(Weight(weights, n), selected[n].upstream));
    MembersAreSelected(weights, selected, members);
    forall i | 0 <= i < |members| ensures members[i].upstream in MembersOf(members) {
    }
  }

  predicate MemberFor(weights: map<string, int>, part: Selection, n: string, m: Member) {
    n in part && m == Member(Weight(weights, n), part[n].upstream)
  }

  /** What a round builds from the selected providers in part: their upstreams by key ... */
  ghost predicate Keyed(part: Selection, selUp: map<string, nat>) {
    && (forall n, k :: KeyFor(AddrOf(part), n, k) ==> k in selUp && selUp[k] == part[n].upstream)
    && (forall k {:trigger k in selUp} :: k in selUp ==> exists n :: KeyFor(AddrOf(part), n, k))
  }

  /** ... and one weighted member each. */
  ghost predicate Enlisted(weights: map<string, int>, part: Selection, members: seq<Member>) {
    && (forall n, m :: MemberFor(weights, part, n, m) ==> m in members)
    && (forall i :: 0 <= i < |members| ==> IsMember(weights, part, members[i]))
  }

  ghost predicate IsMember(weights: map<string, int>, part: Selection, m: Member) {
    exists n :: MemberFor(weights, part, n, m)
  }

  lemma KeyedOneMore(part: Selection, selUp: map<string, nat>, name: string, p: Probe)
    requires Keyed(part, selUp) && name !in part && '\0' !in name && forall n :: n in part ==> '\0' !in n
    ensures Keyed(part[name := p], selUp[Key(name, p.addr) := p.upstream])
  {
    var part', key := part[name := p], Key(name, p.addr);
    forall n, k | KeyFor(AddrOf(part'), n, k) ensures if n == name then k == key else KeyFor(AddrOf(part), n, k) && k != key {
      if n != name && k == key { KeysDiffer(n, part[n].addr, name, p.addr); }
    }
    assert KeyFor(AddrOf(part'), name, key);
    forall k | k in selUp && k != key ensures exists n :: KeyFor(AddrOf(part'), n, k) {
      var n :| KeyFor(AddrOf(part), n, k);
      assert KeyFor(AddrOf(part'), n, k);
    }
  }

  lemma EnlistedOneMore(weights: map<string, int>, part: Selection, members: seq<Member>, name: string, p: Probe)
    requires Enlisted(weights, part, members) && name !in part
    ensures Enlisted(weights, part[name := p], members + [Member(Weight(weights, name), p.upstream)])
  {
    var part', more := part[name := p], members + [Member(Weight(weights, name), p.upstream)];
    forall n, m | MemberFor(weights, part', n, m) ensures m in more {
      if n == name {
        assert more[|members|] == m;
      } else {
        assert MemberFor(weights, part, n, m);
        var i :| 0 <= i < |members| && members[i] == m;
        assert more[i] == m;
      }
    }
    forall i | 0 <= i < |more| ensures IsMember(weights, part', more[i]) {
      if i < |members| {
        assert IsMember(weights, part, members[i]);
        var n :| MemberFor(weights, part, n, members[i]);
        assert MemberFor(weights, part', n, more[i]);
      } else {
        assert MemberFor(weights, part', name, more[i]);
      }
    }
  }

  lemma KeyedServes(live: map<string, nat>, selected: Selection, selUp: map<string, nat>)
    requires SelectionOk(live, selected) && Keyed(selected, selUp)
    ensures Injective(selUp) && Serves(selUp, AddrOf(selected))
    ensures selUp.Values == UpstreamsOf(selected)
  {
    forall j, k | j in selUp && k in selUp && j != k ensures selUp[j] != selUp[k] {
      var m :| KeyFor(AddrOf(selected), m, j);
      var n :| KeyFor(AddrOf(selected), n, k);
    }
    forall n | n in selected ensures selected[n].upstream in selUp.Values {
      assert KeyFor(AddrOf(selected), n, Key(n, selected[n].addr));
    }
    forall k | k in selUp ensures selUp[k] in UpstreamsOf(selected) {
      var n :| KeyFor(AddrOf(selected), n, k);
    }
  }

  /** The selected upstreams are the kept live ones and the new ones. */
  lemma SelectedAreKeptOrNew(live: map<string, nat>, selected: Selection, selUp: map<string, nat>)
    requires SelectionOk(live, selected) && Keyed(selected, selUp)
    ensures UpstreamsOf(selected) == Kept(live, selUp) + NewIn(selected)
  {
    forall u | u in Kept(live, selUp) ensures u in UpstreamsOf(selected) {
      var k :| k in live && k in selUp && live[k] == u;
      var n :| KeyFor(AddrOf(selected), n, k);
    }
    forall n | n in selected ensures selected[n].upstream in Kept(live, selUp) + NewIn(selected) {
      assert KeyFor(AddrOf(selected), n, Key(n, selected[n].addr));
    }
  }

  lemma KeptOrDropped(live: map<string, nat>, selUp: map<string, nat>)
    requires Injective(live)
    ensures live.Values - Kept(live, selUp) == Dropped(live, live.Keys, selUp) && Kept(live, selUp) <= live.Values
  {
    forall k | k in live ensures live[k] in Kept(live, selUp) <==> k in selUp {
    }
  }

  /** What is live and not selected again is what loses its key. */
  lemma DroppedAreGone(ups: Upstreams, live: map<string, nat>, selected: Selection, selUp: map<string, nat>)
    requires Injective(live) && SelectionOk(live, selected) && Keyed(selected, selUp) && Placed(ups, live.Values, NewIn(selected))
    ensures Dropped(live, live.Keys, selUp) == live.Values - UpstreamsOf(selected)
  {
    KeptOrDropped(live, selUp);
    SelectedAreKeptOrNew(live, selected, selUp);
    HeldIsNotLive(ups, live.Values, NewIn(selected));
  }

  lemma MembersAreSelected(weights: map<string, int>, selected: Selection, members: seq<Member>)
    requires Enlisted(weights, selected, members)
    ensures MembersOf(members) == UpstreamsOf(selected)
  {
    forall i | 0 <= i < |members| ensures members[i].upstream in UpstreamsOf(selected) {
      assert IsMember(weights, selected, members[i]);
    }
    forall n | n in selected ensures selected[n].upstream in MembersOf(members) {
      assert MemberFor(weights, selected, n, Member(Weight(weights, n), selected[n].upstream));
    }
  }

  /** The live upstreams whose key is selected again, and those under the given keys whose
      key is not. */
  function Kept(live: map<string, nat>, selUp: map<string, nat>): set<nat> {
    set k | k in live && k in selUp :: live[k]
  }

  function Dropped(live: map<string, nat>, keys: set<string>, selUp: map<string, nat>): set<nat> {
    set k | k in keys && k in live && k !in selUp :: live[k]
  }

  // ---------- the probes of all providers ----------

  function AllMade(probes: seq<ProviderProbe>): set<nat> {
    if probes == [] then {} else MadeIn(probes[0].results) + AllMade(probes[1..])
  }

  /** What the providers are probed for stays apart: distinct names, distinct upstreams. */
  ghost predicate Separate(live: map<string, nat>, dns: map<string, seq<string>>, probes: seq<ProviderProbe>) {
    probes == [] ||
    (var first, rest := probes[0], probes[1..];
     && first.name in dns && ProbesOk(live, first.name, first.results)
     && (forall i :: 0 <= i < |first.results| ==> first.results[i].addr in dns[first.name])
     && (forall i :: 0 <= i < |rest| ==> rest[i].name != first.name)
     && MadeIn(first.results) !! AllMade(rest)
     && Separate(live, dns, rest))
  }

  predicate AwayFrom(probes: seq<ProviderProbe>, pending: set<string>) {
    forall i :: 0 <= i < |probes| ==> probes[i].name !in pending
  }

  ghost predicate Covers(probes: seq<ProviderProbe>, names: set<string>) {
    forall n :: n in names ==> exists i :: 0 <= i < |probes| && probes[i].name == n
  }

  predicate PlainNames(dns: map<string, seq<string>>) {
    forall n :: n in dns ==> '\0' !in n && '=' !in n && forall i :: 0 <= i < |dns[n]| ==> ';' !in dns[n][i]
  }

  function MembersOf(members: seq<Member>): set<nat> {
    set i | 0 <= i < |members| :: members[i].upstream
  }

  class Scheduler {
    const dns: map<string, seq<string>>   // per provider, its addresses in the order of modes
    const weights: map<string, int>
    const probeTimeout: int
    var now: int
    var live: map<string, nat>
    var signature: string
    var current: Option<seq<Member>>
    var ups: Upstreams

    // When retirement was asked for, and how long the live upstreams are left open once the
    // loop has ended; over is true when they have been closed.
    var asked: Option<int>
    var grace: int
    var ended: Option<int>
    var over: bool

    // The addresses that the signature stands for, and the requests made so far.
    ghost var addrs: map<string, string>
    ghost var requests: seq<Request>

    /** Upstreams are in their places, and what is closed was closed by now. */
    ghost predicate Ups(held: set<nat>)
      reads this`ups, this`live, this`now
    {
      Placed(ups, live.Values, held) && Past(ups, now)
    }

    /** Nobody's upstream was or will be closed too early. */
    ghost predicate Safe()
      reads this`ups, this`live, this`requests
    {
      RequestsSafe(ups, live.Values, requests, 2 * probeTimeout)
    }

    /** The selection that requests get is the live one. */
    ghost predicate Consistent()
      reads this`live, this`signature, this`current, this`addrs
    {
      && Injective(live) && Serves(live, addrs) && Plain(addrs) && IsSignature(addrs, signature)
      && (if current.Some? then MembersOf(current.value) == live.Values && live != map[] else live == map[])
    }

    /** No request that started after the retirement was asked for comes here. */
    ghost predicate OnTime()
      reads this`asked, this`ended, this`now, this`requests
    {
      && (forall i :: 0 <= i < |requests| ==> requests[i].at <= now)
      && (asked.Some? ==> asked.value <= now && forall i :: 0 <= i < |requests| ==> requests[i].at <= asked.value)
      && (ended.Some? ==> asked.Some? && asked.value <= ended.value <= now)
    }

    /** When everything live may be closed: a grace that is not positive means at once. */
    function Due(): int
      requires ended.Some?
      reads this`ended, this`grace
    {
      ended.value + if grace > 0 then grace else 0
    }

    /** The last selection stays in place when its upstreams have been closed. */
    ghost predicate Abandoned()
      reads this`live, this`ended, this`grace, this`current, this`ups
    {
      live == map[] && ended.Some? &&
      (current.Some? ==> forall u :: u in MembersOf(current.value) ==> Exists(ups, u) && ups.closes[u] == 1 && ups.closedAt[u] >= Due())
    }

    ghost predicate Valid()
      reads this
    {
      PlainNames(dns) && Ups({}) && OnTime() && if over then Abandoned() else Consistent()
    }

    constructor (dns: map<string, seq<string>>, weights: map<string, int>, probeTimeout: int, now: int)
      requires PlainNames(dns) && probeTimeout >= 0
      ensures Valid() && Safe() && live == map[] && current == None && requests == [] && ups == Upstreams([], [], map[])
      ensures asked == None && ended == None && !over
      ensures this.dns == dns && this.weights == weights && this.probeTimeout == probeTimeout
    {
      this.dns, this.weights, this.probeTimeout, this.now := dns, weights, probeTimeout, now;
      live, signature, current, ups := map[], "", None, Upstreams([], [], map[]);
      asked, grace, ended, over := None, 0, None, false;
      addrs, requests := map[], [];
      new;
      assert Text([], map[]) == "" && Ascending([]) && Lists([], addrs.Keys);
    }

    // ---------- one round ----------

    method Make(ghost held: set<nat>) returns (u: nat)
      requires Ups(held)
      modifies this`ups
      ensures u !in held && Ups(held + {u}) && Grows(old(ups), ups) && ups.timers == old(ups.timers)
    {
      u := |ups.closes|;
      MakeHolds(ups, live.Values, held, u);
      ups := Lifecycle.Make(ups);
    }

    method Close(u: nat, ghost held: set<nat>)
      requires Ups(held) && u in held
      modifies this`ups
      ensures Ups(held - {u}) && Grows(old(ups), ups) && ups.timers == old(ups.timers)
    {
      CloseHeld(ups, live.Values, held, u, now);
      ups := Lifecycle.Close(ups, u, now);
    }

    /** probeProvider: the modes are probed in any order; making an upstream and probing it
        may fail. */
    method ProbeProvider(name: string, ghost held: set<nat>) returns (results: seq<Probe>)
      requires Ups(held) && name in dns
      modifies this`ups
      ensures ProbesOk(live, name, results) && forall i :: 0 <= i < |results| ==> results[i].addr in dns[name]
      ensures forall addr :: addr in dns[name] && Key(name, addr) in live ==> Probed(results, addr)
      ensures MadeIn(results) !! held && Ups(held + MadeIn(results)) && Grows(old(ups), ups) && ups.timers == old(ups.timers)
    {
      results := [];
      var pending := dns[name];
      assert held + MadeIn(results) == held;
      while pending != []
        invariant forall i :: 0 <= i < |pending| ==> pending[i] in dns[name]
        invariant forall addr :: addr in dns[name] && Key(name, addr) in live ==> addr in pending || Probed(results, addr)
        invariant ProbesOk(live, name, results) && forall i :: 0 <= i < |results| ==> results[i].addr in dns[name]
        invariant MadeIn(results) !! held && Ups(held + MadeIn(results)) && Grows(old(ups), ups) && ups.timers == old(ups.timers)
        decreases |pending|
      {
        var i: nat :| i < |pending|;
        var addr := pending[i];
        ghost var was := pending;
        pending := pending[..i] + pending[i + 1..];
        assert was == was[..i] + [addr] + was[i + 1..];
        results := ProbeMode(name, addr, results, held);
      }
    }

    method ProbeMode(name: string, addr: string, before: seq<Probe>, ghost held: set<nat>) returns (results: seq<Probe>)
      requires Ups(held + MadeIn(before)) && MadeIn(before) !! held && ProbesOk(live, name, before)
      modifies this`ups
      ensures ProbesOk(live, name, results) && (results == before || (|results| == |before| + 1 && results[..|before|] == before && results[|before|].addr == addr))
      ensures Key(name, addr) in live ==> Probed(results, addr)
      ensures forall a :: Probed(before, a) ==> Probed(results, a)
      ensures MadeIn(results) !! held && Ups(held + MadeIn(results)) && Grows(old(ups), ups) && ups.timers == old(ups.timers)
    {
      results := before;
      var u: nat, made: bool, rtt: int, ok: bool := 0, false, *, *;
      var key := Key(name, addr);
      if key in live {
        u := live[key];
      } else {
        if * { return; }
        u := Make(held + MadeIn(before));
        made := true;
      }
      var p := Probe(addr, u, rtt, ok, made);
      OneMoreProbe(live, name, before, p);
      results := before + [p];
      assert results[|before|].addr == addr;
      StillProbed(before, results);
      if made {
        assert held + MadeIn(results) == held + MadeIn(before) + {u};
      } else {
        assert held + MadeIn(results) == held + MadeIn(before);
      }
    }

    method ProbeAll() returns (probes: seq<ProviderProbe>)
      requires Ups({})
      modifies this`ups
      ensures Separate(live, dns, probes) && Ups(AllMade(probes)) && Covers(probes, dns.Keys) && Grows(old(ups), ups) && ups.timers == old(ups.timers)
    {
      probes := [];
      var pending := dns.Keys;
      while pending != {}
        invariant pending <= dns.Keys && AwayFrom(probes, pending) && Covers(probes, dns.Keys - pending)
        invariant Separate(live, dns, probes) && Ups(AllMade(probes)) && Grows(old(ups), ups) && ups.timers == old(ups.timers)
        decreases |pending|
      {
        var name :| name in pending;
        probes := ProbeAnother(name, probes, pending);
        pending := pending - {name};
      }
      assert dns.Keys - pending == dns.Keys;
    }

    method ProbeAnother(name: string, probes: seq<ProviderProbe>, ghost pending: set<string>) returns (more: seq<ProviderProbe>)
      requires Separate(live, dns, probes) && Ups(AllMade(probes))
      requires name in dns && name in pending && AwayFrom(probes, pending) && Covers(probes, dns.Keys - pending)
      modifies this`ups
      ensures Separate(live, dns, more) && Ups(AllMade(more)) && Grows(old(ups), ups) && ups.timers == old(ups.timers)
      ensures AwayFrom(more, pending - {name}) && Covers(more, dns.Keys - (pending - {name}))
    {
      var results := ProbeProvider(name, AllMade(probes));
      more := [ProviderProbe(name, results)] + probes;
      assert more[1..] == probes;
      assert AllMade(more) == AllMade(probes) + MadeIn(results);
      CoversOneMore(probes, more, dns.Keys - pending, name);
      assert dns.Keys - (pending - {name}) == (dns.Keys - pending) + {name};
    }

    /** closeFresh */
    method CloseMade(results: seq<Probe>, keep: Option<nat>, ghost held: set<nat>)
      requires Ups(held) && MadeIn(results) <= held
      requires forall i, j :: 0 <= i < j < |results| && results[i].made && results[j].made ==> results[i].upstream != results[j].upstream
      modifies this`ups
      ensures Ups(held - (MadeIn(results) - KeepSet(keep))) && Grows(old(ups), ups) && ups.timers == old(ups.timers)
    {
      assert held - (MadeIn(results[..0]) - KeepSet(keep)) == held;
      for k := 0 to |results|
        invariant Ups(held - (MadeIn(results[..k]) - KeepSet(keep))) && Grows(old(ups), ups) && ups.timers == old(ups.timers)
      {
        MadeInOneMore(results, k);
        ghost var left := held - (MadeIn(results[..k]) - KeepSet(keep));
        var r := results[k];
        if r.made && Some(r.upstream) != keep {
          Close(r.upstream, left);
          assert left - {r.upstream} == held - (MadeIn(results[..k + 1]) - KeepSet(keep));
        } else {
          assert left == held - (MadeIn(results[..k + 1]) - KeepSet(keep));
        }
      }
      assert results[..|results|] == results;
    }

    /** The best result of each provider is selected, and what else was made for it closed. */
    method SelectAll(probes: seq<ProviderProbe>) returns (selected: Selection)
      requires PlainNames(dns) && Injective(live) && Separate(live, dns, probes) && Ups(AllMade(probes))
      modifies this`ups
      ensures SelectionOk(live, selected) && SelectedFrom(dns, selected) && Ups(NewIn(selected))
      ensures Grows(old(ups), ups) && ups.timers == old(ups.timers)
      ensures forall i :: 0 <= i < |probes| ==> BestSelected(probes[i], selected)
    {
      selected := map[];
      var todo := probes;
      ghost var done: set<string> := {};
      assert AllMade(todo) + NewIn(selected) == AllMade(todo);
      while todo != []
        invariant Selecting(live, dns, probes, todo, done, selected)
        invariant SelectionOk(live, selected) && SelectedFrom(dns, selected) && NewIn(selected) !! AllMade(todo)
        invariant Ups(AllMade(todo) + NewIn(selected)) && Grows(old(ups), ups) && ups.timers == old(ups.timers)
        decreases |todo|
      {
        ghost var before, was := selected, ups;
        selected := SelectOne(todo[0], todo[1..], selected);
        GrowsOn(old(ups), was, ups);
        SelectedOneMore(live, dns, probes, todo, done, before, selected);
        done := done + {todo[0].name};
        todo := todo[1..];
      }
      assert AllMade(todo) + NewIn(selected) == NewIn(selected);
    }

    method SelectOne(first: ProviderProbe, ghost rest: seq<ProviderProbe>, before: Selection) returns (selected: Selection)
      requires PlainNames(dns) && Injective(live) && MaySelect(live, dns, first, rest, before)
      requires Ups(MadeIn(first.results) + AllMade(rest) + NewIn(before))
      modifies this`ups
      ensures SelectionOk(live, selected) && SelectedFrom(dns, selected) && SameBut(before, selected, first.name)
      ensures BestSelected(first, selected)
      ensures NewIn(selected) !! AllMade(rest) && NewIn(selected) <= NewIn(before) + MadeIn(first.results)
      ensures Ups(AllMade(rest) + NewIn(selected)) && Grows(old(ups), ups) && ups.timers == old(ups.timers)
    {
      ghost var held := MadeIn(first.results) + AllMade(rest) + NewIn(before);
      var best := PickBest(first.results);
      if best.None? {
        CloseMade(first.results, None, held);
        assert held - (MadeIn(first.results) - KeepSet(None)) == AllMade(rest) + NewIn(before);
        return before;
      }
      selected := SelectBest(first, best.value, rest, before);
    }

    method SelectBest(first: ProviderProbe, best: nat, ghost rest: seq<ProviderProbe>, before: Selection) returns (selected: Selection)
      requires PlainNames(dns) && Injective(live) && MaySelect(live, dns, first, rest, before) && IsBest(first.results, best)
      requires Ups(MadeIn(first.results) + AllMade(rest) + NewIn(before))
      modifies this`ups
      ensures selected == before[first.name := first.results[best]] && SelectionOk(live, selected)
      ensures NewIn(selected) !! AllMade(rest) && NewIn(selected) <= NewIn(before) + MadeIn(first.results)
      ensures Ups(AllMade(rest) + NewIn(selected)) && Grows(old(ups), ups) && ups.timers == old(ups.timers)
    {
      ghost var held := MadeIn(first.results) + AllMade(rest) + NewIn(before);
      var p := first.results[best];
      HeldIsNotLive(ups, live.Values, held);
      assert p.made ==> p.upstream in MadeIn(first.results);
      NotYetSelected(live, before, first.name, p, held);
      OneMoreSelected(live, before, first.name, p);
      CloseMade(first.results, Some(p.upstream), held);
      selected := before[first.name := p];
      assert held - (MadeIn(first.results) - KeepSet(Some(p.upstream))) == AllMade(rest) + NewIn(selected);
    }

    method Collect(selected: Selection) returns (selAddr: map<string, string>, selUp: map<string, nat>, members: seq<Member>)
      requires forall n :: n in selected ==> '\0' !in n
      ensures selAddr == AddrOf(selected) && Keyed(selected, selUp) && Enlisted(weights, selected, members)
    {
      selAddr, selUp, members := map[], map[], [];
      var rest := selected.Keys;
      ghost var part: Selection := map[];
      while rest != {}
        invariant rest <= selected.Keys && part.Keys == selected.Keys - rest && forall n :: n in part ==> part[n] == selected[n]
        invariant selAddr == AddrOf(part) && Keyed(part, selUp) && Enlisted(weights, part, members)
        decreases |rest|
      {
        var name :| name in rest;
        var b := selected[name];
        KeyedOneMore(part, selUp, name, b);
        EnlistedOneMore(weights, part, members, name, b);
        selAddr := selAddr[name := b.addr];
        selUp := selUp[Key(name, b.addr) := b.upstream];
        members := members + [Member(Weight(weights, name), b.upstream)];
        part := part[name := b];
        rest := rest - {name};
      }
      assert part == selected;
    }

    /** The selection is adopted, unless its signature is that of the last one. */
    method Adopt(selected: Selection, ghost due: int)
      requires due == now + 2 * probeTimeout
      requires PlainNames(dns) && Consistent() && SelectionOk(live, selected) && SelectedFrom(dns, selected) && Ups(NewIn(selected))
      modifies this`ups, this`live, this`signature, this`current, this`addrs
      ensures Consistent() && Ups({}) && Replaced(old(ups), old(live.Values), ups, live.Values, due)
      ensures live.Values == UpstreamsOf(selected) && addrs == AddrOf(selected)
      ensures addrs == old(addrs) && old(current).Some? ==> current == old(current) && live == old(live) && ups == old(ups)
      ensures (addrs != old(addrs) || old(current).None?) && current.Some? ==> Enlisted(weights, selected, current.value)
    {
      var selAddr, selUp, members := Collect(selected);
      var same := Settle(selected, selAddr, selUp, members, due);
    }

    method Settle(ghost selected: Selection, selAddr: map<string, string>, selUp: map<string, nat>, members: seq<Member>, ghost due: int)
      returns (same: bool)
      requires due == now + 2 * probeTimeout
      requires PlainNames(dns) && Consistent() && SelectionOk(live, selected) && SelectedFrom(dns, selected) && Ups(NewIn(selected))
      requires selAddr == AddrOf(selected) && Keyed(selected, selUp) && Enlisted(weights, selected, members)
      modifies this`ups, this`live, this`signature, this`current, this`addrs
      ensures Consistent() && Ups({}) && Replaced(old(ups), old(live.Values), ups, live.Values, due)
      ensures live.Values == UpstreamsOf(selected) && addrs == selAddr
      ensures same <==> selAddr == old(addrs) && old(current).Some?
      ensures same ==> current == old(current) && live == old(live) && ups == old(ups)
      ensures !same && current.Some? ==> current.value == members
    {
      var newSig;
      newSig, same := Recognise(selected, selAddr);
      if same {
        KeptAsIs(selected, due);
      } else {
        Replace(selected, selAddr, selUp, members, newSig, due);
      }
    }

    lemma KeptAsIs(selected: Selection, due: int)
      requires Ups(NewIn(selected)) && NewIn(selected) == {}
      ensures Ups({}) && Replaced(ups, live.Values, ups, live.Values, due)
    {
      StaysOpen(ups, live.Values, due);
    }

    method Replace(ghost selected: Selection, selAddr: map<string, string>, selUp: map<string, nat>, members: seq<Member>, newSig: string,
        ghost due: int)
      requires due == now + 2 * probeTimeout
      requires Injective(live) && SelectionOk(live, selected) && Keyed(selected, selUp) && Enlisted(weights, selected, members)
      requires selAddr == AddrOf(selected) && Plain(selAddr) && IsSignature(selAddr, newSig) && Ups(NewIn(selected))
      modifies this`ups, this`live, this`signature, this`current, this`addrs
      ensures Consistent() && Ups({}) && Replaced(old(ups), old(live.Values), ups, live.Values, due)
      ensures live.Values == UpstreamsOf(selected) && addrs == selAddr && (current.Some? ==> current.value == members)
    {
      Switch(selected, selUp);
      Install(selected, selAddr, selUp, members, newSig);
    }

    /** Whether the selection is that of the last round; if so, it needs nothing new. */
    method Recognise(ghost selected: Selection, selAddr: map<string, string>) returns (newSig: string, same: bool)
      requires PlainNames(dns) && Consistent() && SelectionOk(live, selected) && SelectedFrom(dns, selected) && selAddr == AddrOf(selected)
      ensures Plain(selAddr) && IsSignature(selAddr, newSig)
      ensures same <==> selAddr == addrs && current.Some?
      ensures same ==> NewIn(selected) == {} && live.Values == UpstreamsOf(selected)
    {
      newSig := SelectSignature(selAddr);
      same := newSig == signature && current.Some?;
      AddrsArePlain(dns, selected);
      if selAddr == addrs { SignatureIsUnique(addrs, newSig, signature); }
      if same {
        SignatureSeparates(selAddr, addrs, newSig);
        SameSelectionReuses(live, selected);
        SameSelectionIsLive(live, selected);
      }
    }

    method Install(ghost selected: Selection, selAddr: map<string, string>, selUp: map<string, nat>, members: seq<Member>, newSig: string)
      requires SelectionOk(live, selected) && Keyed(selected, selUp) && Enlisted(weights, selected, members)
      requires selAddr == AddrOf(selected) && Plain(selAddr) && IsSignature(selAddr, newSig)
      modifies this`live, this`signature, this`current, this`addrs
      ensures Consistent() && live.Values == UpstreamsOf(selected) && addrs == selAddr
      ensures current.Some? ==> current.value == members
    {
      MembersAreSelected(weights, selected, members);
      KeyedServes(live, selected, selUp);
      current := if |members| > 0 then Some(members) else None;
      live, signature, addrs := selUp, newSig, selAddr;
      NothingServed(live, members);
    }

    method Switch(ghost selected: Selection, selUp: map<string, nat>)
      requires Injective(live) && SelectionOk(live, selected) && Keyed(selected, selUp) && Ups(NewIn(selected))
      modifies this`ups
      ensures Placed(ups, UpstreamsOf(selected), {}) && Past(ups, now)
      ensures Replaced(old(ups), live.Values, ups, UpstreamsOf(selected), now + 2 * probeTimeout)
    {
      ghost var was := ups;
      var timers := RetireOthers(live, selUp, ups.timers, now + 2 * probeTimeout);
      ups := ups.(timers := timers);
      KeptOrDropped(live, selUp);
      SelectedAreKeptOrNew(live, selected, selUp);
      ReplaceLive(was, live.Values, NewIn(selected), Kept(live, selUp), now + 2 * probeTimeout, ups);
      DroppedAreGone(was, live, selected, selUp);
    }

    /** probeAndSelect: one round, with any outcome of making and probing upstreams.  No
        upstream that had left the selection comes back, and no request is cut short.  If the
        best addresses are those of the last selection, that selection stays, with its cache;
        otherwise requests get a new one. */
    method ProbeAndSelect() returns (ghost probes: seq<ProviderProbe>, ghost selected: Selection)
      requires Valid() && ended.None? && !over
      modifies this`ups, this`live, this`signature, this`current, this`addrs
      ensures Valid() && Grows(old(ups), ups) && (old(Safe()) ==> Safe())
      ensures forall u :: u in live.Values ==> u in old(live.Values) || u >= |old(ups.closes)|
      ensures Covers(probes, dns.Keys) && forall i :: 0 <= i < |probes| ==> BestSelected(probes[i], selected)
      ensures ups.timers.Keys == old(ups.timers).Keys + (old(live.Values) - live.Values)
      ensures forall u :: u in old(live.Values) && u !in live.Values ==> ups.timers[u] == now + 2 * probeTimeout
      ensures forall u :: u in old(ups.timers) && u !in old(live.Values) ==> ups.timers[u] == old(ups.timers)[u]
      ensures current.Some? <==> selected != map[]
      ensures live.Values == UpstreamsOf(selected) && addrs == AddrOf(selected)
      ensures addrs == old(addrs) && old(current).Some? ==> current == old(current) && live == old(live)
      ensures (addrs != old(addrs) || old(current).None?) && current.Some? ==> Enlisted(weights, selected, current.value)
    {
      ghost var was, wasLive := ups, live.Values;
      probes, selected := Round(now + 2 * probeTimeout);
      NoneComesBack(was, wasLive, ups, live.Values);
      NothingSelected(live, selected);
      if old(Safe()) { GrowthIsSafe(was, wasLive, ups, live.Values, requests, 2 * probeTimeout, now + 2 * probeTimeout); }
    }

    method Round(ghost due: int) returns (ghost probes: seq<ProviderProbe>, ghost selected: Selection)
      requires due == now + 2 * probeTimeout
      requires PlainNames(dns) && Consistent() && Ups({})
      modifies this`ups, this`live, this`signature, this`current, this`addrs
      ensures Consistent() && Ups({}) && Grows(old(ups), ups) && LiveStays(old(live.Values), ups, live.Values, due)
      ensures ups.timers.Keys == old(ups.timers).Keys + (old(live.Values) - live.Values)
      ensures forall u :: u in old(live.Values) && u !in live.Values ==> ups.timers[u] == due
      ensures forall u :: u in old(ups.timers) && u !in old(live.Values) ==> ups.timers[u] == old(ups.timers)[u]
      ensures Covers(probes, dns.Keys) && forall i :: 0 <= i < |probes| ==> BestSelected(probes[i], selected)
      ensures live.Values == UpstreamsOf(selected) && addrs == AddrOf(selected)
      ensures addrs == old(addrs) && old(current).Some? ==> current == old(current) && live == old(live)
      ensures (addrs != old(addrs) || old(current).None?) && current.Some? ==> Enlisted(weights, selected, current.value)
    {
      ghost var was := ups;
      var all := ProbeAll();
      ghost var probed := ups;
      var chosen := SelectAll(all);
      GrowsOn(was, probed, ups);
      probed := ups;
      Adopt(chosen, due);
      GrowsOn(was, probed, ups);
      probes, selected := all, chosen;
    }

    // ---------- time, requests and retirement ----------

    method Advance(time: int)
      requires Valid() && now <= time
      modifies this`now
      ensures Valid() && now == time && (old(Safe()) ==> Safe())
    {
      now := time;
    }

    /** A delayed close. */
    method Fire(u: nat)
      requires Valid() && u in ups.timers && ups.timers[u] <= now
      modifies this`ups
      ensures Valid() && Grows(old(ups), ups) && (old(Safe()) ==> Safe())
      ensures u !in ups.timers && Exists(ups, u) && ups.closes[u] == 1
      ensures |ups.closes| == |old(ups.closes)| && forall v :: 0 <= v < |ups.closes| && v != u ==> ups.closes[v] == old(ups.closes)[v]
    {
      ghost var was := ups;
      FireKeeps(ups, live.Values, u, now);
      ups := Lifecycle.Fire(ups, u, now);
      assert InOnePlace(ups, live.Values, {}, u);
      if old(Safe()) { FireIsSafe(was, live.Values, u, now, requests, 2 * probeTimeout); }
    }

    /** A request that found this scheduler in charge at the time at now loads the current
        selection.  It is safe unless it comes so late that the selection is closed and was so
        before its span is over. */
    method CurrentConfig(at: int) returns (members: Option<seq<Member>>)
      requires Valid() && at <= now && (asked.Some? ==> at <= asked.value)
      modifies this`requests
      ensures Valid() && members == current
      ensures requests == old(requests) + [Request(at, if current.Some? then MembersOf(current.value) else {})]
      ensures old(Safe()) && (over ==> at + 2 * probeTimeout <= Due()) ==> Safe()
    {
      members := current;
      ghost var r := Request(at, if current.Some? then MembersOf(current.value) else {});
      if Safe() && (over ==> at + 2 * probeTimeout <= Due()) { NewRequest(r); }
      requests := requests + [r];
    }

    lemma NewRequest(r: Request)
      requires Valid() && Safe() && r.upstreams == (if current.Some? then MembersOf(current.value) else {})
      requires over ==> r.at + 2 * probeTimeout <= Due()
      ensures RequestsSafe(ups, live.Values, requests + [r], 2 * probeTimeout)
    {
      var more := requests + [r];
      forall i, u {:trigger u in more[i].upstreams} | 0 <= i < |more| && u in more[i].upstreams
        ensures OpenUntil(ups, live.Values, u, more[i].at + 2 * probeTimeout)
      {
        if i < |requests| { assert u in requests[i].upstreams; }
      }
    }

    /** Retire asks the loop to end, and says how long the upstreams are to stay open. */
    method Retire(delay: int)
      requires Valid() && asked.None?
      modifies this`asked, this`grace
      ensures Valid() && asked == Some(now) && grace == delay && (old(Safe()) ==> Safe())
    {
      asked, grace := Some(now), delay;
    }

    /** The loop notices, perhaps after more rounds, and ends. */
    method EndLoop()
      requires Valid() && asked.Some? && ended.None? && !over
      modifies this`ended
      ensures Valid() && ended == Some(now) && (old(Safe()) ==> Safe())
    {
      ended := Some(now);
    }

    lemma LongGraceSuffices()
      requires Valid() && ended.Some? && Due() <= now && (grace >= 2 * probeTimeout || live == map[])
      ensures LiveUseOver(live.Values, requests, 2 * probeTimeout, now)
    {
    }

    /** When the loop has ended and the grace is over, everything live is closed, whoever still
        uses it; current is left as it is.  Requests stay safe exactly when those that use
        something live have run out of time, as they have after a grace of their span. */
    method CloseAllLive()
      requires Valid() && !over && ended.Some? && Due() <= now
      modifies this`ups, this`live, this`over
      ensures Valid() && over && live == map[] && Grows(old(ups), ups)
      ensures Safe() <==> old(Safe()) && LiveUseOver(old(live.Values), requests, 2 * probeTimeout, now)
      ensures old(Safe()) && (grace >= 2 * probeTimeout || old(live) == map[]) ==> Safe()
    {
      ghost var was, used := ups, live.Values;
      if grace >= 2 * probeTimeout || live == map[] { LongGraceSuffices(); }
      CloseLive();
      CloseAll(was, used, now, ups);
      CloseAllIsSafeIff(was, used, now, ups, requests, 2 * probeTimeout);
      assert live.Values == {};
    }

    method CloseLive()
      requires Valid() && !over && ended.Some? && Due() <= now
      modifies this`ups, this`live, this`over
      ensures Valid() && over && live == map[] && ClosedEach(old(ups), ups, old(live.Values), now)
    {
      LiveIsOpen(ups, live.Values, {});
      var closed := CloseEach(live, ups, now);
      CloseAll(ups, live.Values, now, closed);
      ClosedLate(ups, live.Values, closed, now, Due());
      ups := closed;
      live := map[];
      over := true;
      assert live.Values == {};
    }

    /** When the loop has ended: whatever late requests still come, and whenever everything is
        closed, nobody is cut short, exactly when nothing is live or the last request that can
        come is over by the earliest close. */
    lemma RetirementIsSafeIff()
      requires Valid() && Safe() && ended.Some?
      ensures EveryCloseIsSafe(ups, live.Values, requests, asked.value, if now > Due() then now else Due(), 2 * probeTimeout)
        <==> live == map[] || asked.value + 2 * probeTimeout <= Due() || asked.value + 2 * probeTimeout <= now
    {
      EveryCloseIsSafeIff(ups, live.Values, requests, asked.value, if now > Due() then now else Due(), 2 * probeTimeout);
      if live.Values == {} { NothingServed(live, []); }
    }

    /** Within its span, nothing that a request uses has been closed. */
    lemma RequestsAreServed(i: nat, u: nat)
      requires Valid() && Safe() && i < |requests| && u in requests[i].upstreams && now < requests[i].at + 2 * probeTimeout
      ensures Exists(ups, u) && ups.closes[u] == 0
    {
      NothingClosedUnderRequest(ups, live.Values, requests, 2 * probeTimeout, i, u, now);
    }
  }

  lemma ClosedLate(ups: Upstreams, live: set<nat>, closed: Upstreams, now: int, due: int)
    requires Placed(ups, live, {}) && ClosedEach(ups, closed, live, now) && due <= now
    ensures forall u :: u in live ==> Exists(closed, u) && closed.closes[u] == 1 && closed.closedAt[u] >= due
    ensures Past(ups, now) ==> Past(closed, now)
  {
    LiveIsOpen(ups, live, {});
  }

  /** A provider that is not selected yet, with probes that nothing else holds on to. */
  ghost predicate MaySelect(live: map<string, nat>, dns: map<string, seq<string>>, first: ProviderProbe, rest: seq<ProviderProbe>,
      before: Selection)
  {
    && SelectionOk(live, before) && SelectedFrom(dns, before)
    && first.name in dns && first.name !in before && ProbesOk(live, first.name, first.results)
    && (forall i :: 0 <= i < |first.results| ==> first.results[i].addr in dns[first.name])
    && MadeIn(first.results) !! AllMade(rest) && NewIn(before) !! MadeIn(first.results) && NewIn(before) !! AllMade(rest)
  }

  lemma StaysOpen(ups: Upstreams, live: set<nat>, until: int)
    requires Placed(ups, live, {})
    ensures Replaced(ups, live, ups, live, until)
  {
  }

  lemma AddrsArePlain(dns: map<string, seq<string>>, selected: Selection)
    requires PlainNames(dns) && SelectedFrom(dns, selected)
    ensures Plain(AddrOf(selected))
  {
    forall n | n in selected ensures '=' !in n && ';' !in selected[n].addr {
      assert selected[n].addr in dns[n];
    }
  }

  lemma NothingServed(live: map<string, nat>, members: seq<Member>)
    requires live.Values == MembersOf(members)
    ensures live == map[] <==> members == []
  {
    assert forall k :: k in live ==> live[k] in live.Values;
    if members != [] { assert members[0].upstream in live.Values; }
  }

  lemma NothingSelected(live: map<string, nat>, selected: Selection)
    requires live.Values == UpstreamsOf(selected)
    ensures live == map[] <==> selected == map[]
  {
    assert forall k :: k in live ==> live[k] in live.Values;
    if n :| n in selected { assert selected[n].upstream in live.Values; }
  }

  ghost predicate SameBut(before: Selection, selected: Selection, name: string) {
    selected.Keys <= before.Keys + {name} && forall n :: n in before && n != name ==> n in selected && selected[n] == before[n]
  }

  /** Of the probes all but those still to do have had their best selected. */
  ghost predicate Selecting(live: map<string, nat>, dns: map<string, seq<string>>, probes: seq<ProviderProbe>, todo: seq<ProviderProbe>,
      done: set<string>, selected: Selection)
  {
    && |todo| <= |probes| && todo == probes[|probes| - |todo|..]
    && Separate(live, dns, todo) && AwayFrom(todo, done) && selected.Keys <= done
    && forall i :: 0 <= i < |probes| - |todo| ==> probes[i].name in done && BestSelected(probes[i], selected)
  }

  lemma SelectedOneMore(live: map<string, nat>, dns: map<string, seq<string>>, probes: seq<ProviderProbe>, todo: seq<ProviderProbe>,
      done: set<string>, before: Selection, selected: Selection)
    requires todo != [] && Selecting(live, dns, probes, todo, done, before)
    requires SameBut(before, selected, todo[0].name) && BestSelected(todo[0], selected)
    ensures Selecting(live, dns, probes, todo[1..], done + {todo[0].name}, selected)
  {
    var k := |probes| - |todo|;
    assert todo[0] == probes[k] && todo[1..] == probes[k + 1..];
    assert todo[0].name !in done;
    OthersStaySelected(probes, k, before, selected);
  }

  lemma OthersStaySelected(probes: seq<ProviderProbe>, k: nat, before: Selection, selected: Selection)
    requires k < |probes| && SameBut(before, selected, probes[k].name)
    requires forall i :: 0 <= i < k ==> probes[i].name != probes[k].name && BestSelected(probes[i], before)
    ensures forall i :: 0 <= i < k ==> BestSelected(probes[i], selected)
  {
    forall i | 0 <= i < k ensures BestSelected(probes[i], selected) {
      if SomeOk(probes[i].results) {
        var b :| IsBest(probes[i].results, b) && before[probes[i].name] == probes[i].results[b];
        assert selected[probes[i].name] == probes[i].results[b];
      }
    }
  }

  lemma CoversOneMore(probes: seq<ProviderProbe>, more: seq<ProviderProbe>, names: set<string>, name: string)
    requires Covers(probes, names) && |more| == |probes| + 1 && more[0].name == name && more[1..] == probes
    ensures Covers(more, names + {name})
  {
    forall n | n in names ensures exists i :: 0 <= i < |more| && more[i].name == n {
      var i :| 0 <= i < |probes| && probes[i].name == n;
      assert more[i + 1] == more[1..][i];
    }
  }

  lemma HeldIsNotLive(ups: Upstreams, live: set<nat>, held: set<nat>)
    requires Placed(ups, live, held)
    ensures live !! held && live !! ups.timers.Keys
  {
    forall u | u in live ensures u !in held && u !in ups.timers {
      assert InOnePlace(ups, live, held, u);
    }
  }

  lemma NotYetSelected(live: map<string, nat>, selected: Selection, name: string, p: Probe, held: set<nat>)
    requires SelectionOk(live, selected) && Reuses(live, name, p) && live.Values !! held && NewIn(selected) <= held
    requires p.made ==> p.upstream in held && p.upstream !in NewIn(selected)
    ensures if p.made then p.upstream !in UpstreamsOf(selected) else p.upstream !in NewIn(selected)
  {
    forall n | n in selected && p.made ensures selected[n].upstream != p.upstream {
      if selected[n].made {
        assert selected[n].upstream in NewIn(selected);
      } else {
        assert live[Key(n, selected[n].addr)] in live.Values;
      }
    }
  }

  lemma SameSelectionIsLive(live: map<string, nat>, selected: Selection)
    requires SelectionOk(live, selected) && Serves(live, AddrOf(selected))
    ensures live.Values == UpstreamsOf(selected)
  {
    SameSelectionReuses(live, selected);
    forall k | k in live ensures live[k] in UpstreamsOf(selected) {
      var n :| KeyFor(AddrOf(selected), n, k);
    }
  }

  /** Every live upstream that is not selected again gets a timer for its close. */
  method RetireOthers(live: map<string, nat>, selUp: map<string, nat>, was: map<nat, int>, due: int) returns (timers: map<nat, int>)
    ensures Scheduled(was, timers, Dropped(live, live.Keys, selUp), due)
  {
    timers := was;
    var rest := live.Keys;
    ghost var done: set<string> := {};
    while rest != {}
      invariant rest <= live.Keys && done == live.Keys - rest
      invariant Scheduled(was, timers, Dropped(live, done, selUp), due)
      decreases |rest|
    {
      var key :| key in rest;
      timers := RetireOther(live, selUp, key, was, timers, done, due);
      rest, done := rest - {key}, done + {key};
    }
    assert done == live.Keys;
  }

  method RetireOther(live: map<string, nat>, selUp: map<string, nat>, key: string, ghost was: map<nat, int>, timers: map<nat, int>,
      ghost done: set<string>, due: int) returns (timers': map<nat, int>)
    requires key in live && Scheduled(was, timers, Dropped(live, done, selUp), due)
    ensures Scheduled(was, timers', Dropped(live, done + {key}, selUp), due)
  {
    DroppedOneMore(live, done, key, selUp, done + {key});
    if key in selUp { return timers; }
    timers' := timers[live[key] := due];
  }

  /** Every live upstream is closed, once. */
  method CloseEach(live: map<string, nat>, ups: Upstreams, now: int) returns (closed: Upstreams)
    requires Injective(live) && |ups.closes| == |ups.closedAt| && forall k :: k in live ==> Exists(ups, live[k])
    ensures ClosedEach(ups, closed, live.Values, now)
  {
    closed := ups;
    var rest := live.Keys;
    ghost var done: set<nat> := {};
    while rest != {}
      invariant rest <= live.Keys && done <= live.Values
      invariant forall k :: k in live ==> (live[k] in done <==> k !in rest)
      invariant ClosedEach(ups, closed, done, now)
      decreases |rest|
    {
      var key :| key in rest;
      ClosedOneMore(ups, closed, done, now, live[key]);
      closed := Lifecycle.Close(closed, live[key], now);
      rest, done := rest - {key}, done + {live[key]};
    }
    assert done == live.Values;
  }

  lemma DroppedOneMore(live: map<string, nat>, done: set<string>, key: string, selUp: map<string, nat>, more: set<string>)
    requires key in live && more == done + {key}
    ensures Dropped(live, more, selUp) == Dropped(live, done, selUp) + if key in selUp then {} else {live[key]}
  {
  }

  function KeepSet(keep: Option<nat>): set<nat> {
    if keep.Some? then {keep.value} else {}
  }

  lemma MadeInOneMore(results: seq<Probe>, k: nat)
    requires k < |results|
    requires forall i, j :: 0 <= i < j < |results| && results[i].made && results[j].made ==> results[i].upstream != results[j].upstream
    ensures MadeIn(results[..k + 1]) == MadeIn(results[..k]) + if results[k].made then {results[k].upstream} else {}
    ensures results[k].made ==> results[k].upstream !in MadeIn(results[..k]) && results[k].upstream in MadeIn(results)
    ensures MadeIn(results[..k]) <= MadeIn(results)
  {
    forall u | u in MadeIn(results[..k]) ensures u in MadeIn(results[..k + 1]) && u in MadeIn(results) {
      var i :| 0 <= i < k && results[..k][i].made && results[..k][i].upstream == u;
      assert results[..k + 1][i] == results[i];
    }
    assert results[..k + 1][k] == results[k];
    forall i | 0 <= i < k && results[i].made ensures results[i].upstream in MadeIn(results[..k]) {
      assert results[..k][i] == results[i];
    }
  }
}
