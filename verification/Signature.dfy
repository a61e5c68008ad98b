/** The signature of a selection: a text by which a later round recognises the same
    selection.  It says which provider has which address, whatever the order of a map. */
module Signature {
  import opened GoArith
  import opened Strings

  // ---------- the order of names ----------

  predicate Less(a: string, b: string) {
    if b == "" then false
    else if a == "" then true
    else if a[0] != b[0] then a[0] < b[0]
    else Less(a[1..], b[1..])
  }

  lemma {:induction false} LessOrders(a: string, b: string)
    ensures (Less(a, b) && !Less(b, a) && a != b) || (Less(b, a) && !Less(a, b) && a != b) || (a == b && !Less(a, b))
  {
    if a != "" && b != "" && a[0] == b[0] {
      LessOrders(a[1..], b[1..]);
      assert a == [a[0]] + a[1..] && b == [b[0]] + b[1..];
    }
  }

  lemma {:induction false} LessTransitive(a: string, b: string, c: string)
    requires Less(a, b) && Less(b, c)
    ensures Less(a, c)
  {
    if a != "" && a[0] == b[0] && b[0] == c[0] { LessTransitive(a[1..], b[1..], c[1..]); }
  }

  ghost predicate Ascending(names: seq<string>) {
    forall i, j :: 0 <= i < j < |names| ==> Less(names[i], names[j])
  }

  ghost predicate Lists(names: seq<string>, keys: set<string>) {
    forall n :: n in names <==> n in keys
  }

  /** A set of names can be listed in ascending order in one way only. */
  lemma {:induction false} OneAscendingList(a: seq<string>, b: seq<string>, keys: set<string>)
    requires Ascending(a) && Ascending(b) && Lists(a, keys) && Lists(b, keys)
    ensures a == b
  {
    if |a| > 0 { assert a[0] in b; }
    if |b| > 0 { assert b[0] in a; }
    if |a| > 0 {
      SameFirst(a, b, keys);
      RestLists(a, keys);
      RestLists(b, keys);
      OneAscendingList(a[1..], b[1..], keys - {a[0]});
      assert a == [a[0]] + a[1..] && b == [b[0]] + b[1..];
    }
  }

  lemma SameFirst(a: seq<string>, b: seq<string>, keys: set<string>)
    requires Ascending(a) && Ascending(b) && Lists(a, keys) && Lists(b, keys) && a != [] && b != []
    ensures a[0] == b[0]
  {
    assert a[0] in b && b[0] in a;
    var i :| 0 <= i < |b| && b[i] == a[0];
    var j :| 0 <= j < |a| && a[j] == b[0];
    if i > 0 && j > 0 {
      assert Less(b[0], a[0]) && Less(a[0], b[0]);
      LessOrders(a[0], b[0]);
    }
  }

  lemma RestLists(a: seq<string>, keys: set<string>)
    requires Ascending(a) && Lists(a, keys) && a != []
    ensures Ascending(a[1..]) && Lists(a[1..], keys - {a[0]})
  {
    forall n ensures n in a[1..] <==> n in keys - {a[0]} {
      if n in a[1..] {
        var i :| 0 <= i < |a[1..]| && a[1..][i] == n;
        LessOrders(a[0], a[i + 1]);
        assert n in a;
      }
      if n in keys - {a[0]} {
        assert n in a;
        var i :| 0 <= i < |a| && a[i] == n;
        assert a[1..][i - 1] == n;
      }
    }
  }

  // ---------- the text ----------

  function Part(name: string, addr: string): string {
    name + ['='] + (addr + [';'])
  }

  function Text(names: seq<string>, selected: map<string, string>): string
    requires forall n :: n in names ==> n in selected
  {
    if names == [] then ""
    else
      assert names[0] in names && forall n :: n in names[1..] ==> n in names;
      Part(names[0], selected[names[0]]) + Text(names[1..], selected)
  }

  ghost predicate IsSignature(selected: map<string, string>, sig: string) {
    exists names :: Ascending(names) && Lists(names, selected.Keys) && sig == Text(names, selected)
  }

  /** A selection has one signature, in whatever order its map was walked. */
  lemma SignatureIsUnique(selected: map<string, string>, a: string, b: string)
    requires IsSignature(selected, a) && IsSignature(selected, b)
    ensures a == b
  {
    var x :| Ascending(x) && Lists(x, selected.Keys) && a == Text(x, selected);
    var y :| Ascending(y) && Lists(y, selected.Keys) && b == Text(y, selected);
    OneAscendingList(x, y, selected.Keys);
  }

  /** The characters that end a name and an address occur in neither. */
  ghost predicate Plain(selected: map<string, string>) {
    forall n :: n in selected ==> '=' !in n && ';' !in selected[n]
  }

  /** Two selections of plain names and addresses have the same signature only if they are
      the same. */
  lemma SignatureSeparates(a: map<string, string>, b: map<string, string>, sig: string)
    requires Plain(a) && Plain(b) && IsSignature(a, sig) && IsSignature(b, sig)
    ensures a == b
  {
    var x :| Ascending(x) && Lists(x, a.Keys) && sig == Text(x, a);
    var y :| Ascending(y) && Lists(y, b.Keys) && sig == Text(y, b);
    TextSeparates(x, a, y, b);
    assert a.Keys == b.Keys by { assert forall n :: n in a.Keys <==> n in x; }
    assert forall n :: n in a ==> n in x;
  }

  lemma TextEmpty(names: seq<string>, selected: map<string, string>)
    requires forall n :: n in names ==> n in selected
    ensures Text(names, selected) == "" <==> names == []
  {
    if names != [] {
      assert names[0] in names;
      assert |Part(names[0], selected[names[0]])| >= 2;
    }
  }

  lemma {:induction false} TextSeparates(x: seq<string>, a: map<string, string>, y: seq<string>, b: map<string, string>)
    requires (forall n :: n in x ==> n in a) && (forall n :: n in y ==> n in b)
    requires Plain(a) && Plain(b) && Text(x, a) == Text(y, b)
    ensures x == y && forall n :: n in x ==> a[n] == b[n]
  {
    TextEmpty(x, a);
    TextEmpty(y, b);
    if x != [] {
      assert x[0] in x && y[0] in y;
      PartsAgree(x[0], a[x[0]], Text(x[1..], a), y[0], b[y[0]], Text(y[1..], b));
      assert (forall n :: n in x[1..] ==> n in x) && (forall n :: n in y[1..] ==> n in y);
      TextSeparates(x[1..], a, y[1..], b);
      assert x == [x[0]] + x[1..] && y == [y[0]] + y[1..];
    }
  }

  /** What stands before the first '=', and from there to the first ';', is the first part. */
  lemma PartsAgree(name: string, addr: string, rest: string, name': string, addr': string, rest': string)
    requires '=' !in name && ';' !in addr && '=' !in name' && ';' !in addr'
    requires Part(name, addr) + rest == Part(name', addr') + rest'
    ensures name == name' && addr == addr' && rest == rest'
  {
    PartThen(name, addr, rest);
    PartThen(name', addr', rest');
    FindEnd(name, '=', addr + [';'] + rest);
    FindEnd(name', '=', addr' + [';'] + rest');
    FindEnd(addr, ';', rest);
    FindEnd(addr', ';', rest');
  }

  lemma PartThen(name: string, addr: string, rest: string)
    ensures Part(name, addr) + rest == name + ['='] + (addr + [';'] + rest)
  {
  }

  /** Without plainness two selections can collide: a name may end where an address begins. */
  lemma SignaturesCollide()
    ensures var a, b := map["a=b" := "c"], map["a" := "b=c"];
      a != b && IsSignature(a, "a=b=c;") && IsSignature(b, "a=b=c;")
  {
    var a, b := map["a=b" := "c"], map["a" := "b=c"];
    assert Text(["a=b"], a) == Part("a=b", "c") + Text([], a);
    assert Text(["a"], b) == Part("a", "b=c") + Text([], b);
    assert Lists(["a=b"], a.Keys) && Ascending(["a=b"]);
    assert Lists(["a"], b.Keys) && Ascending(["a"]);
    assert "a=b" in a && "a" in b && "a=b" !in b;
  }

  // ---------- computing it ----------

  /** An insertion into an ascending list. */
  method Insert(names: seq<string>, n: string) returns (r: seq<string>)
    requires Ascending(names) && n !in names
    ensures Ascending(r) && forall x :: x in r <==> x in names || x == n
  {
    var k := |names|;
    while k > 0 && Less(n, names[k - 1])
      invariant 0 <= k <= |names| && forall j :: k <= j < |names| ==> Less(n, names[j])
    {
      k := k - 1;
    }
    r := names[..k] + [n] + names[k..];
    assert names == names[..k] + names[k..];
    InsertAscends(names, k, n, r);
  }

  lemma InsertAscends(names: seq<string>, k: nat, n: string, r: seq<string>)
    requires Ascending(names) && k <= |names| && r == names[..k] + [n] + names[k..] && n !in names
    requires k > 0 ==> !Less(n, names[k - 1])
    requires forall j :: k <= j < |names| ==> Less(n, names[j])
    ensures Ascending(r)
  {
    forall i, j | 0 <= i < j < |r| ensures Less(r[i], r[j]) {
      if j == k {
        LessOrders(n, names[k - 1]);
        if i < k - 1 { LessTransitive(names[i], names[k - 1], n); }
      }
    }
  }

  ghost predicate Distinct(names: seq<string>) {
    forall i, j :: 0 <= i < j < |names| ==> names[i] != names[j]
  }

  method SortNames(names: seq<string>) returns (r: seq<string>)
    requires Distinct(names)
    ensures Ascending(r) && forall x :: x in r <==> x in names
  {
    r := [];
    for k := 0 to |names|
      invariant Ascending(r) && forall x :: x in r <==> x in names[..k]
    {
      assert names[..k + 1] == names[..k] + [names[k]];
      r := Insert(r, names[k]);
    }
    assert names[..|names|] == names;
  }

  lemma OneMoreName(names: seq<string>, keys: set<string>, n: string)
    requires Distinct(names) && Lists(names, keys) && n !in keys
    ensures Distinct(names + [n]) && Lists(names + [n], keys + {n})
  {
    assert forall i :: 0 <= i < |names| ==> names[i] in names;
  }

  method NamesOf(keys: set<string>) returns (names: seq<string>)
    ensures Distinct(names) && Lists(names, keys)
  {
    names := [];
    var rest := keys;
    ghost var done := {};
    while rest != {}
      invariant done + rest == keys && done !! rest && Distinct(names) && Lists(names, done)
      decreases |rest|
    {
      var n :| n in rest;
      OneMoreName(names, done, n);
      names, rest, done := names + [n], rest - {n}, done + {n};
    }
  }

  method SelectSignature(selected: map<string, string>) returns (sig: string)
    ensures IsSignature(selected, sig)
  {
    var names := NamesOf(selected.Keys);
    names := SortNames(names);
    sig := "";
    for i := 0 to |names|
      invariant forall n :: n in names ==> n in selected
      invariant sig == Text(names[..i], selected)
    {
      TextAppend(names[..i], names[i], selected);
      PartSpelled(sig, names[i], selected[names[i]]);
      assert names[..i + 1] == names[..i] + [names[i]];
      sig := sig + names[i] + "=" + selected[names[i]] + ";";
    }
    assert names[..|names|] == names;
  }

  lemma PartSpelled(sig: string, name: string, addr: string)
    ensures sig + name + "=" + addr + ";" == sig + Part(name, addr)
  {
    assert sig + name + "=" + addr + ";" == sig + (name + "=" + addr + ";");
    assert name + "=" + addr + ";" == name + ("=" + (addr + ";"));
  }

  lemma {:induction false} TextAppend(names: seq<string>, n: string, selected: map<string, string>)
    requires (forall x :: x in names ==> x in selected) && n in selected
    ensures Text(names + [n], selected) == Text(names, selected) + Part(n, selected[n])
  {
    if names == [] {
      assert [n][1..] == [];
    } else {
      assert names[0] in names && forall x :: x in names[1..] ==> x in names;
      TextAppend(names[1..], n, selected);
      assert (names + [n])[1..] == names[1..] + [n];
    }
  }
}
