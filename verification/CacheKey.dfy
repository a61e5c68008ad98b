/** The cache key of a request: what it contains and what can be read back from it. */
module CacheKey {
  import opened GoArith
  import opened Dns
  import opened Strings

  datatype SubnetKey = SubnetKey(family: nat, netmask: nat, address: string)

  /** Everything about a request that its answer may depend on. */
  datatype Identity = Identity(name: string, qtype: nat, qclass: nat, dnssecOk: bool, subnets: seq<SubnetKey>)

  function LowerChar(c: char): char {
    if 'A' <= c <= 'Z' then c + ('a' - 'A') else c
  }

  function Lower(s: string): (r: string)
    ensures |r| == |s| && forall i :: 0 <= i < |s| ==> r[i] == LowerChar(s[i])
  {
    seq(|s|, i requires 0 <= i < |s| => LowerChar(s[i]))
  }

  /** The same character, or one ASCII letter in its two cases. */
  predicate SameLetter(c: char, d: char) {
    || c == d
    || ('A' <= c <= 'Z' && d as int == c as int + 32)
    || ('A' <= d <= 'Z' && c as int == d as int + 32)
  }

  predicate SameName(a: string, b: string) {
    |a| == |b| && forall i :: 0 <= i < |a| ==> SameLetter(a[i], b[i])
  }

  /** Names that differ in case at most, and no others, are one name in a key. */
  lemma LowerMeetsCase(a: string, b: string)
    ensures Lower(a) == Lower(b) <==> SameName(a, b)
    ensures '|' in Lower(a) <==> '|' in a
  {
    assert forall i :: 0 <= i < |a| ==> SameLetter(a[i], Lower(a)[i]) && (Lower(a)[i] == '|' <==> a[i] == '|');
    if Lower(a) == Lower(b) {
      forall i | 0 <= i < |a| ensures SameLetter(a[i], b[i]) {
        assert Lower(a)[i] == Lower(b)[i];
      }
    }
  }

  /** The client subnets among the options of an OPT record, in order. */
  function Subnets(options: seq<EdnsOption>): seq<SubnetKey> {
    if options == [] then []
    else
      var last := options[|options| - 1];
      Subnets(options[..|options| - 1]) +
      if last.Subnet? then [SubnetKey(last.family, last.netmask, last.address)] else []
  }

  /** The same client subnets in the same order, whatever other options lie between them; the
      scope of a subnet is nothing a request says. */
  predicate SameSubnets(a: seq<EdnsOption>, b: seq<EdnsOption>)
    decreases |a| + |b|
  {
    if a != [] && !a[0].Subnet? then SameSubnets(a[1..], b)
    else if b != [] && !b[0].Subnet? then SameSubnets(a, b[1..])
    else if a == [] || b == [] then a == b
    else a[0].family == b[0].family && a[0].netmask == b[0].netmask && a[0].address == b[0].address && SameSubnets(a[1..], b[1..])
  }

  lemma {:induction false} FirstSubnet(options: seq<EdnsOption>)
    requires options != []
    ensures var o := options[0];
      Subnets(options) == (if o.Subnet? then [SubnetKey(o.family, o.netmask, o.address)] else []) + Subnets(options[1..])
  {
    if |options| > 1 {
      FirstSubnet(options[..|options| - 1]);
      assert options[..|options| - 1][1..] == options[1..][..|options| - 2];
    }
  }

  lemma {:induction false} SubnetsMeet(a: seq<EdnsOption>, b: seq<EdnsOption>)
    ensures Subnets(a) == Subnets(b) <==> SameSubnets(a, b)
    decreases |a| + |b|
  {
    if a != [] { FirstSubnet(a); }
    if b != [] { FirstSubnet(b); }
    if a != [] && !a[0].Subnet? {
      SubnetsMeet(a[1..], b);
    } else if b != [] && !b[0].Subnet? {
      SubnetsMeet(a, b[1..]);
    } else if a != [] && b != [] {
      SubnetsMeet(a[1..], b[1..]);
      FirstsMeet(SubnetKey(a[0].family, a[0].netmask, a[0].address), Subnets(a[1..]),
                 SubnetKey(b[0].family, b[0].netmask, b[0].address), Subnets(b[1..]));
    }
  }

  lemma FirstsMeet<T>(x: T, xs: seq<T>, y: T, ys: seq<T>)
    ensures [x] + xs == [y] + ys <==> x == y && xs == ys
  {
    if [x] + xs == [y] + ys {
      assert ([x] + xs)[0] == x && ([y] + ys)[0] == y;
      assert ([x] + xs)[1..] == xs && ([y] + ys)[1..] == ys;
    }
  }

  function IdentityOf(m: Msg): Identity
    requires |m.question| == 1
  {
    var q := m.question[0];
    var i := LastOpt(m.extra);
    Identity(Lower(q.name), q.qtype, q.qclass,
             i >= 0 && m.extra[i].dnssecOk,
             if i >= 0 then Subnets(m.extra[i].options) else [])
  }

  // ---------- writing the key ----------

  function Itoa(n: nat): string {
    if n < 10 then [('0' as int + n) as char] else Itoa(n / 10) + [('0' as int + n % 10) as char]
  }

  function WriteSubnet(s: SubnetKey): string {
    "|" + Itoa(s.family) + "/" + Itoa(s.netmask) + "/" + s.address
  }

  /** Concatenation regrouped to the right. */
  lemma Regroup(a: string, b: string, c: string, d: string, e: string, f: string)
    ensures a + b + c + d + e + f == a + (b + (c + (d + (e + f))))
  {
    Assoc(a + b + c + d, e, f);
    Assoc(a + b + c, d, e + f);
    Assoc(a + b, c, d + (e + f));
    Assoc(a, b, c + (d + (e + f)));
  }

  lemma Append6(before: string, family: string, netmask: string, address: string)
    ensures before + "|" + family + "/" + netmask + "/" + address
         == before + ("|" + family + "/" + netmask + "/" + address)
  {
    Regroup(before, "|", family, "/", netmask, "/" + address);
    Assoc(before + "|" + family + "/" + netmask, "/", address);
    Regroup("|", family, "/", netmask, "/", address);
  }

  lemma Assoc(a: string, b: string, c: string)
    ensures a + b + c == a + (b + c)
  {
  }

  function WriteSubnets(ss: seq<SubnetKey>): string {
    if ss == [] then "" else WriteSubnet(ss[0]) + WriteSubnets(ss[1..])
  }

  function Write(id: Identity): string {
    id.name + "|" + Itoa(id.qtype) + "|" + Itoa(id.qclass)
    + (if id.dnssecOk then "|D" else "") + WriteSubnets(id.subnets)
  }

  function KeyOf(m: Msg): string
    requires |m.question| == 1
  {
    Write(IdentityOf(m))
  }

  lemma {:induction false} WriteSubnetsAppend(ss: seq<SubnetKey>, s: SubnetKey)
    ensures WriteSubnets(ss + [s]) == WriteSubnets(ss) + WriteSubnet(s)
  {
    if ss == [] {
      assert WriteSubnets([s][1..]) == "";
    } else {
      WriteSubnetsAppend(ss[1..], s);
      assert (ss + [s])[1..] == ss[1..] + [s];
    }
  }

  /** keyOf: builds the key piece by piece. */
  method ComputeKey(m: Message) returns (key: string)
    requires |m.val.question| == 1
    ensures key == KeyOf(m.val)
  {
    var q := m.val.question[0];
    key := Lower(q.name) + "|" + Itoa(q.qtype) + "|" + Itoa(q.qclass);
    var opt := LastOpt(m.val.extra);
    if opt < 0 {
      assert key + "" == key;
      return key;
    }
    if m.val.extra[opt].dnssecOk { key := key + "|D"; }
    ghost var head := key;
    var options := m.val.extra[opt].options;
    for i := 0 to |options|
      invariant key == head + WriteSubnets(Subnets(options[..i]))
    {
      assert options[..i + 1][..i] == options[..i];
      var o := options[i];
      if !o.Subnet? {
        assert Subnets(options[..i + 1]) == Subnets(options[..i]);
        continue;
      }
      WriteSubnetsAppend(Subnets(options[..i]), SubnetKey(o.family, o.netmask, o.address));
      ghost var before := key;
      ghost var piece := SubnetKey(o.family, o.netmask, o.address);
      key := key + "|" + Itoa(o.family) + "/" + Itoa(o.netmask) + "/" + o.address;
      Append6(before, Itoa(o.family), Itoa(o.netmask), o.address);
      Assoc(head, WriteSubnets(Subnets(options[..i])), WriteSubnet(piece));
    }
    assert options[..|options|] == options;
  }

  // ---------- reading the key back ----------

  /** How many address bytes a family has; the proofs ask nothing about these numbers.  A
      program may write an IPv4 address as its four bytes, or mapped to sixteen as the DNS
      library keeps it. */
  type Lengths = nat -> nat

  /** The address has its family's length; or it is sixteen bytes long, with a zero where an
      address of that length would have ended, as a mapped IPv4 address has. */
  predicate Fits(len: Lengths, s: SubnetKey) {
    var n := len(s.family);
    |s.address| == n || (n < 16 == |s.address| && s.address[n] == '\0')
  }

  predicate AllFit(len: Lengths, ss: seq<SubnetKey>) {
    forall i :: 0 <= i < |ss| ==> Fits(len, ss[i])
  }

  predicate Regular(len: Lengths, id: Identity) {
    '|' !in id.name && AllFit(len, id.subnets)
  }

  /** A number ended by the given character, and what follows it. */
  function ReadNumber(s: string, end: char): (r: Option<(nat, string)>)
    ensures r.Some? ==> |r.value.1| < |s|
  {
    var n := DigitCount(s);
    if n == 0 || n == |s| || s[n] != end then None else Some((Atoi(s[..n]), s[n + 1..]))
  }

  /** How much of the text is an address of the family: a zero after the family's length
      belongs to the address, and what follows an address never is one. */
  function AddressEnd(len: Lengths, family: nat, s: string): nat {
    var n := len(family);
    if n < 16 <= |s| && s[n] == '\0' then 16 else n
  }

  function ReadSubnets(len: Lengths, s: string): Option<seq<SubnetKey>>
    decreases |s|
  {
    if s == "" then Some([])
    else if s[0] != '|' then None
    else
      match ReadNumber(s[1..], '/')
      case None => None
      case Some((family, s1)) =>
        match ReadNumber(s1, '/')
        case None => None
        case Some((netmask, s2)) =>
          var n := AddressEnd(len, family, s2);
          if |s2| < n then None
          else
            match ReadSubnets(len, s2[n..])
            case None => None
            case Some(rest) => Some([SubnetKey(family, netmask, s2[..n])] + rest)
  }

  /** What follows the class number: the DO mark and the subnets. */
  function ReadEdns(len: Lengths, s: string): Option<(bool, seq<SubnetKey>)> {
    var dnssecOk := |s| >= 2 && s[..2] == "|D";
    match ReadSubnets(len, if dnssecOk then s[2..] else s)
    case None => None
    case Some(subnets) => Some((dnssecOk, subnets))
  }

  function Read(len: Lengths, key: string): Option<Identity> {
    var n := Find(key, '|');
    if n == |key| then None
    else
      match ReadNumber(key[n + 1..], '|')
      case None => None
      case Some((qtype, s)) =>
        var d := DigitCount(s);
        match ReadEdns(len, s[d..])
        case None => None
        case Some((dnssecOk, subnets)) => Some(Identity(key[..n], qtype, Atoi(s[..d]), dnssecOk, subnets))
  }

  lemma {:induction false} ItoaDigits(n: nat)
    ensures |Itoa(n)| > 0
    ensures forall i :: 0 <= i < |Itoa(n)| ==> IsDigit(Itoa(n)[i])
    ensures Atoi(Itoa(n)) == n
  {
    if n < 10 {
      assert Itoa(n)[..0] == "";
    } else {
      ItoaDigits(n / 10);
      assert Itoa(n)[..|Itoa(n)| - 1] == Itoa(n / 10);
    }
  }

  lemma {:induction false} DigitsEnd(digits: string, rest: string)
    requires forall i :: 0 <= i < |digits| ==> IsDigit(digits[i])
    requires rest == "" || !IsDigit(rest[0])
    ensures DigitCount(digits + rest) == |digits|
  {
    var s := digits + rest;
    assert forall i :: 0 <= i < |digits| ==> IsDigit(s[i]);
    assert rest != "" ==> s[|digits|] == rest[0];
  }

  lemma ReadNumberWritten(n: nat, end: char, rest: string)
    requires !IsDigit(end)
    ensures ReadNumber(Itoa(n) + ([end] + rest), end) == Some((n, rest))
  {
    ItoaDigits(n);
    var s := Itoa(n) + ([end] + rest);
    DigitsEnd(Itoa(n), [end] + rest);
    assert s[..|Itoa(n)|] == Itoa(n);
    assert s[|Itoa(n)| + 1..] == rest;
  }

  lemma AddressWritten(len: Lengths, h: SubnetKey, t: string)
    requires Fits(len, h) && (t == "" || t[0] == '|')
    ensures var s := h.address + t;
      AddressEnd(len, h.family, s) == |h.address| && s[..|h.address|] == h.address && s[|h.address|..] == t
  {
    var s, n := h.address + t, len(h.family);
    assert n < |h.address| ==> s[n] == h.address[n];
    assert |h.address| == n < |s| ==> s[n] == t[0];
  }

  lemma ReadSubnetWritten(len: Lengths, h: SubnetKey, t: string, rest: seq<SubnetKey>)
    requires Fits(len, h) && (t == "" || t[0] == '|')
    requires ReadSubnets(len, t) == Some(rest)
    ensures ReadSubnets(len, WriteSubnet(h) + t) == Some([h] + rest)
  {
    var family, netmask := Itoa(h.family), Itoa(h.netmask);
    var s2 := h.address + t;
    var s1 := netmask + (['/'] + s2);
    var s0 := family + (['/'] + s1);
    var s := WriteSubnet(h) + t;
    Assoc("|" + family + "/" + netmask + "/", h.address, t);
    Regroup("|", family, "/", netmask, "/", s2);
    assert s == "|" + s0;
    assert s[0] == '|' && s[1..] == s0;
    ReadNumberWritten(h.family, '/', s1);
    ReadNumberWritten(h.netmask, '/', s2);
    AddressWritten(len, h, t);
  }

  lemma {:induction false} ReadSubnetsWritten(len: Lengths, ss: seq<SubnetKey>)
    requires AllFit(len, ss)
    ensures ReadSubnets(len, WriteSubnets(ss)) == Some(ss)
  {
    if ss != [] {
      ReadSubnetsWritten(len, ss[1..]);
      SubnetsStart(ss[1..]);
      ReadSubnetWritten(len, ss[0], WriteSubnets(ss[1..]), ss[1..]);
      assert [ss[0]] + ss[1..] == ss;
    }
  }

  /** The subnets' text starts with a bar that no DO mark follows. */
  lemma SubnetsStart(ss: seq<SubnetKey>)
    ensures ss == [] ==> WriteSubnets(ss) == ""
    ensures ss != [] ==> |WriteSubnets(ss)| >= 2 && WriteSubnets(ss)[0] == '|' && IsDigit(WriteSubnets(ss)[1])
  {
    if ss != [] {
      ItoaDigits(ss[0].family);
      var digits := Itoa(ss[0].family);
      assert WriteSubnet(ss[0])[1] == digits[0];
    }
  }

  lemma ReadEdnsWritten(len: Lengths, dnssecOk: bool, ss: seq<SubnetKey>)
    requires AllFit(len, ss)
    ensures ReadEdns(len, (if dnssecOk then "|D" else "") + WriteSubnets(ss)) == Some((dnssecOk, ss))
  {
    var subnets := WriteSubnets(ss);
    var s := (if dnssecOk then "|D" else "") + subnets;
    ReadSubnetsWritten(len, ss);
    if dnssecOk {
      assert s[..2] == "|D" && s[2..] == subnets;
    } else {
      SubnetsStart(ss);
      assert s == subnets;
      assert |s| >= 2 ==> s[..2][1] == s[1];
    }
  }

  lemma WriteParts(name: string, qtype: string, qclass: string, mark: string, subnets: string)
    ensures name + "|" + qtype + "|" + qclass + mark + subnets == name + ['|'] + (qtype + (['|'] + (qclass + (mark + subnets))))
  {
    Assoc(name + "|" + qtype + "|" + qclass, mark, subnets);
    Regroup(name, "|", qtype, "|", qclass, mark + subnets);
    Assoc(name, "|", qtype + ("|" + (qclass + (mark + subnets))));
  }

  /** The class number is read up to the first character that is no digit. */
  lemma ReadClassWritten(len: Lengths, qclass: nat, dnssecOk: bool, ss: seq<SubnetKey>, s: string)
    requires AllFit(len, ss)
    requires s == Itoa(qclass) + ((if dnssecOk then "|D" else "") + WriteSubnets(ss))
    ensures var d := DigitCount(s); Atoi(s[..d]) == qclass && ReadEdns(len, s[d..]) == Some((dnssecOk, ss))
  {
    var digits := Itoa(qclass);
    var rest := (if dnssecOk then "|D" else "") + WriteSubnets(ss);
    ItoaDigits(qclass);
    SubnetsStart(ss);
    DigitsEnd(digits, rest);
    assert s[..|digits|] == digits && s[|digits|..] == rest;
    ReadEdnsWritten(len, dnssecOk, ss);
  }

  /** Reading is a left inverse of writing. */
  lemma ReadWritten(len: Lengths, id: Identity)
    requires Regular(len, id)
    ensures Read(len, Write(id)) == Some(id)
  {
    var mark := if id.dnssecOk then "|D" else "";
    var s1 := Itoa(id.qclass) + (mark + WriteSubnets(id.subnets));
    var s0 := Itoa(id.qtype) + (['|'] + s1);
    var key := Write(id);
    WriteParts(id.name, Itoa(id.qtype), Itoa(id.qclass), mark, WriteSubnets(id.subnets));
    FindEnd(id.name, '|', s0);
    ReadNumberWritten(id.qtype, '|', s1);
    ReadClassWritten(len, id.qclass, id.dnssecOk, id.subnets, s1);
  }

  /** Two requests share a key exactly when everything the key stands for agrees, whatever
      lengths the families have. */
  lemma KeysSeparate(len: Lengths, a: Msg, b: Msg)
    requires |a.question| == 1 && |b.question| == 1
    requires Regular(len, IdentityOf(a)) && Regular(len, IdentityOf(b))
    ensures KeyOf(a) == KeyOf(b) <==> IdentityOf(a) == IdentityOf(b)
  {
    ReadWritten(len, IdentityOf(a));
    ReadWritten(len, IdentityOf(b));
  }

  /** The flag and the options that count: those of the last OPT record, if there is one. */
  ghost predicate WantsDnssec(m: Msg) {
    exists i :: LastOptAt(m, i) && m.extra[i].dnssecOk
  }

  ghost predicate LastOptAt(m: Msg, i: int) {
    0 <= i < |m.extra| && m.extra[i].Opt? && forall j :: i < j < |m.extra| ==> !m.extra[j].Opt?
  }

  ghost predicate HasOptions(m: Msg, options: seq<EdnsOption>) {
    if exists i :: LastOptAt(m, i) then exists i :: LastOptAt(m, i) && m.extra[i].options == options
    else options == []
  }

  /** Two requests ask the same of the cache, said of the requests as they are: names equal but
      for case, type and class, the flag, and the client subnets. */
  ghost predicate AskTheSame(a: Msg, b: Msg)
    requires |a.question| == 1 && |b.question| == 1
  {
    && SameName(a.question[0].name, b.question[0].name)
    && a.question[0].qtype == b.question[0].qtype && a.question[0].qclass == b.question[0].qclass
    && (WantsDnssec(a) <==> WantsDnssec(b))
    && exists x, y :: HasOptions(a, x) && HasOptions(b, y) && SameSubnets(x, y)
  }

  lemma OptionsOf(m: Msg) returns (options: seq<EdnsOption>)
    requires |m.question| == 1
    ensures HasOptions(m, options) && IdentityOf(m).subnets == Subnets(options)
    ensures forall x :: HasOptions(m, x) ==> x == options
    ensures IdentityOf(m).dnssecOk <==> WantsDnssec(m)
  {
    var i := LastOpt(m.extra);
    assert forall j :: LastOptAt(m, j) <==> j == i >= 0;
    options := if i >= 0 then m.extra[i].options else [];
    assert i >= 0 ==> LastOptAt(m, i);
  }

  lemma IdentityMeets(a: Msg, b: Msg)
    requires |a.question| == 1 && |b.question| == 1
    ensures IdentityOf(a) == IdentityOf(b) <==> AskTheSame(a, b)
    ensures '|' in IdentityOf(a).name <==> '|' in a.question[0].name
  {
    LowerMeetsCase(a.question[0].name, b.question[0].name);
    var x := OptionsOf(a);
    var y := OptionsOf(b);
    SubnetsMeet(x, y);
  }

  /** So two requests share a key exactly when they ask the same. */
  lemma RequestsShareKey(len: Lengths, a: Msg, b: Msg)
    requires |a.question| == 1 && |b.question| == 1
    requires Regular(len, IdentityOf(a)) && Regular(len, IdentityOf(b))
    ensures KeyOf(a) == KeyOf(b) <==> AskTheSame(a, b)
  {
    KeysSeparate(len, a, b);
    IdentityMeets(a, b);
  }

  /** The lengths on the wire, by section 6 of RFC 7871: four bytes for IPv4, sixteen for IPv6;
      the library gives the unspecified family sixteen too. */
  function WireLength(family: nat): nat {
    if family == 1 then 4 else 16
  }

  /** An address that a request can bring or a configured prefix can have: IPv4 as four bytes, or
      as sixteen that begin with ten zeros; all others as sixteen. */
  predicate Receivable(s: SubnetKey) {
    if s.family == 1 && |s.address| == 4 then true
    else |s.address| == 16 && (s.family == 1 ==> forall i :: 0 <= i < 10 ==> s.address[i] == '\0')
  }

  /** So for what requests bring and prefixes have, in any mixture, the name is all that is left
      to ask about. */
  lemma ReceivedKeysSeparate(a: Msg, b: Msg)
    requires |a.question| == 1 && |b.question| == 1
    requires '|' !in a.question[0].name && '|' !in b.question[0].name
    requires forall i :: 0 <= i < |IdentityOf(a).subnets| ==> Receivable(IdentityOf(a).subnets[i])
    requires forall i :: 0 <= i < |IdentityOf(b).subnets| ==> Receivable(IdentityOf(b).subnets[i])
    ensures KeyOf(a) == KeyOf(b) <==> AskTheSame(a, b)
  {
    IdentityMeets(a, b);
    KeysSeparate(WireLength, a, b);
  }

  lemma SingleSubnet(family: nat, netmask: nat, address: string)
    requires family < 10 && netmask < 10
    ensures WriteSubnets([SubnetKey(family, netmask, address)])
         == "|" + [('0' as int + family) as char] + "/" + [('0' as int + netmask) as char] + "/" + address
  {
    var s := SubnetKey(family, netmask, address);
    WriteSubnetsAppend([], s);
    assert [] + [s] == [s];
  }

  /** Both halves of Regular are needed.  A name with a bar can spell out a subnet: such a name
      can be received. */
  lemma BarredNameMeets(name: string, a: string)
    requires |a| == 12
    ensures Write(Identity(name, 1, 1, false, [SubnetKey(2, 8, a + "|1|1")]))
         == Write(Identity(name + "|1|1|2/8/" + a, 1, 1, false, []))
  {
    SingleSubnet(2, 8, a + "|1|1");
    assert Itoa(1) == "1";
    var head := name + "|1|1";
    assert name + "|" + "1" + "|" + "1" + "" == head;
    assert "|" + "2" + "/" + "8" + "/" == "|2/8/";
    Assoc(head, "|2/8/", a + "|1|1");
    Assoc(head + "|2/8/", a, "|1|1");
    Assoc(name, "|1|1", "|2/8/");
    assert "|1|1" + "|2/8/" == "|1|1|2/8/";
    var barred := name + "|1|1|2/8/" + a;
    assert barred + "|" + "1" + "|" + "1" + "" + "" == barred + "|1|1";
  }

  /** An address whose length its family does not fix can spell out another subnet.  This one is
      an illustration of why lengths have to be fixed: no request and no prefix has it. */
  lemma LooseAddressMeets()
    ensures
      var one := Identity("x.", 1, 1, false, [SubnetKey(1, 8, "ab|1/8/cd")]);
      var two := Identity("x.", 1, 1, false, [SubnetKey(1, 8, "ab"), SubnetKey(1, 8, "cd")]);
      Write(one) == Write(two) && '|' !in one.name
  {
    var ab, cd := SubnetKey(1, 8, "ab"), SubnetKey(1, 8, "cd");
    SingleSubnet(1, 8, "ab|1/8/cd");
    SingleSubnet(1, 8, "ab");
    SingleSubnet(1, 8, "cd");
    WriteSubnetsAppend([ab], cd);
    assert [ab] + [cd] == [ab, cd];
    assert WriteSubnets([cd]) == "" + WriteSubnet(cd) by { WriteSubnetsAppend([], cd); assert [] + [cd] == [cd]; }
    assert WriteSubnets([ab, cd]) == WriteSubnets([SubnetKey(1, 8, "ab|1/8/cd")]);
  }
}
