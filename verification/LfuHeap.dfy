/** Cache entries and the min-heap of the LFU policy.  Every entry records its own position
    in the heap, and the heap operations of the Go library keep that position right. */
module Heap {
  import opened Eviction

  class Entry<K, M> {
    const key: K
    var val: Value<M>
    var freq: int
    var seqNo: int
    var linked: bool   // whether the entry has a node in the order list
    var heapIdx: int   // position in the heap, or -1

    constructor (key: K, val: Value<M>)
      ensures this.key == key && this.val == val
      ensures freq == 1 && !linked && heapIdx == -1
    {
      this.key, this.val := key, val;
      freq, seqNo, linked, heapIdx := 1, 0, false, -1;
    }
  }

  ghost predicate SameEntries<K, M>(a: seq<Entry<K, M>>, b: seq<Entry<K, M>>) {
    (forall e :: e in a ==> e in b) && (forall e :: e in b ==> e in a)
  }

  /** h holds the entries of was, without e. */
  ghost predicate Without<K, M>(h: seq<Entry<K, M>>, was: seq<Entry<K, M>>, e: Entry<K, M>) {
    e in was && e !in h && |h| == |was| - 1 &&
    (forall x :: x in h ==> x in was) && (forall x :: x in was && x != e ==> x in h)
  }

  lemma DropLast<K, M>(now: seq<Entry<K, M>>, was: seq<Entry<K, M>>)
    requires |now| == |was| > 0 && SameEntries(now, was)
    requires now[|now| - 1] !in now[..|now| - 1]
    ensures Without(now[..|now| - 1], was, now[|now| - 1])
  {
    var n := |now| - 1;
    forall x | x in was && x != now[n] ensures x in now[..n] {
      var k :| 0 <= k < |now| && now[k] == x;
      assert now[..n][k] == x;
    }
  }

  ghost predicate SameFrom<K, M>(a: seq<Entry<K, M>>, b: seq<Entry<K, M>>, n: int)
    requires 0 <= n <= |a| == |b|
  {
    forall k :: n <= k < |a| ==> a[k] == b[k]
  }

  lemma SwapFrame<K, M>(was: seq<Entry<K, M>>, i: int, j: int, n: int, first: seq<Entry<K, M>>)
    requires 0 <= i < n <= |was| == |first| && 0 <= j < n
    requires SameEntries(was, first) && SameFrom(was, first, n)
    ensures SameEntries(Swapped(was, i, j), first) && SameFrom(Swapped(was, i, j), first, n)
  {
    var now := Swapped(was, i, j);
    assert forall k :: 0 <= k < |now| ==> now[k] in was;
    assert was[i] == now[j] && was[j] == now[i];
    assert forall k :: 0 <= k < |was| && k != i && k != j ==> was[k] == now[k];
  }

  // ---------- heap order over ranks ----------

  datatype Rank = Rank(freq: int, seqNo: int) {
    predicate LessEq(that: Rank) {
      freq < that.freq || (freq == that.freq && seqNo <= that.seqNo)
    }
  }

  function Parent(i: int): int
    requires i > 0
  {
    (i - 1) / 2
  }

  /** The first n ranks are in heap order. */
  ghost predicate Ordered(r: seq<Rank>, n: int)
    requires n <= |r|
  {
    forall i :: 0 < i < n ==> r[Parent(i)].LessEq(r[i])
  }

  /** The first n ranks are in heap order, except that the one at x may be out of order
      with its parent and its children; those are in order with one another. */
  ghost predicate OrderedBut(r: seq<Rank>, n: int, x: int)
    requires n <= |r|
  {
    (forall i :: 0 < i < n && i != x && Parent(i) != x ==> r[Parent(i)].LessEq(r[i])) &&
    (forall i :: 0 < x < i < n && Parent(i) == x ==> r[Parent(x)].LessEq(r[i]))
  }

  ghost predicate AboveChildren(r: seq<Rank>, n: int, x: int)
    requires n <= |r|
  {
    forall i :: 0 <= x < i < n && Parent(i) == x ==> r[x].LessEq(r[i])
  }

  function Swapped<T>(s: seq<T>, i: int, j: int): seq<T>
    requires 0 <= i < |s| && 0 <= j < |s|
  {
    s[i := s[j]][j := s[i]]
  }

  lemma {:induction false} RootIsLeast(r: seq<Rank>, n: int, i: int)
    requires 0 <= i < n <= |r| && Ordered(r, n)
    ensures r[0].LessEq(r[i])
    decreases i
  {
    if i > 0 {
      assert r[Parent(i)].LessEq(r[i]);
      RootIsLeast(r, n, Parent(i));
    }
  }

  lemma UpStep(r: seq<Rank>, n: int, j: int)
    requires 0 < j < n <= |r| && OrderedBut(r, n, j) && AboveChildren(r, n, j)
    requires !r[Parent(j)].LessEq(r[j])
    ensures OrderedBut(Swapped(r, Parent(j), j), n, Parent(j))
    ensures AboveChildren(Swapped(r, Parent(j), j), n, Parent(j))
  {
    var p := Parent(j);
    var s := Swapped(r, p, j);
    forall i | 0 < i < n && Parent(i) == p ensures s[p].LessEq(s[i]) {
      if i != j { assert r[p].LessEq(r[i]); }
    }
    forall i | 0 < i < n && i != p && Parent(i) != p ensures s[Parent(i)].LessEq(s[i]) {
      if Parent(i) == j { assert r[p].LessEq(r[i]); }
    }
    if p > 0 {
      assert r[Parent(p)].LessEq(r[p]);
      forall i | p < i < n && Parent(i) == p ensures s[Parent(p)].LessEq(s[i]) {
        if i != j { assert r[p].LessEq(r[i]); }
      }
    }
  }

  lemma DownStep(r: seq<Rank>, n: int, i: int, j: int)
    requires 0 <= i < j < n <= |r| && Parent(j) == i && OrderedBut(r, n, i)
    requires !r[i].LessEq(r[j])
    requires forall k :: i < k < n && Parent(k) == i ==> r[j].LessEq(r[k])
    ensures OrderedBut(Swapped(r, i, j), n, j)
    ensures Swapped(r, i, j)[i].LessEq(Swapped(r, i, j)[j])
  {
    var s := Swapped(r, i, j);
    forall k | 0 < k < n && k != j && Parent(k) != j ensures s[Parent(k)].LessEq(s[k]) {
      if k == i { assert r[Parent(i)].LessEq(r[j]); }
    }
    forall k | j < k < n && Parent(k) == j ensures s[i].LessEq(s[k]) {
      assert r[j].LessEq(r[k]);
    }
  }

  lemma Settled(r: seq<Rank>, n: int, x: int)
    requires n <= |r| && 0 <= x && OrderedBut(r, n, x) && AboveChildren(r, n, x)
    requires 0 < x < n ==> r[Parent(x)].LessEq(r[x])
    ensures Ordered(r, n)
  {
  }

  /** A new rank at x disturbs the order around x only. */
  lemma OneRankChanged(r: seq<Rank>, s: seq<Rank>, x: int)
    requires |r| == |s| && Ordered(r, |r|) && 0 <= x < |r|
    requires forall i :: 0 <= i < |r| && i != x ==> s[i] == r[i]
    ensures OrderedBut(s, |s|, x)
  {
    forall i | 0 < x < i < |r| && Parent(i) == x ensures s[Parent(x)].LessEq(s[i]) {
      assert r[Parent(x)].LessEq(r[x]) && r[x].LessEq(r[i]);
    }
  }

  /** Bringing the last rank to x disturbs the order around x only. */
  lemma LastToX(r: seq<Rank>, x: int)
    requires 0 <= x < |r| && Ordered(r, |r|)
    ensures OrderedBut(Swapped(r, x, |r| - 1), |r| - 1, x)
  {
    forall i | 0 < x < i < |r| - 1 && Parent(i) == x ensures r[Parent(x)].LessEq(r[i]) {
      assert r[Parent(x)].LessEq(r[x]) && r[x].LessEq(r[i]);
    }
  }

  /** The child that Down compares with is a least one. */
  lemma LesserChild(r: seq<Rank>, n: int, i: int, j: int)
    requires 0 <= i && 2 * i + 1 < n <= |r|
    requires j == if 2 * i + 2 < n && !r[2 * i + 1].LessEq(r[2 * i + 2]) then 2 * i + 2 else 2 * i + 1
    ensures Parent(j) == i
    ensures forall k :: i < k < n && Parent(k) == i ==> r[j].LessEq(r[k])
    ensures r[i].LessEq(r[j]) ==> AboveChildren(r, n, i)
  {
    forall k | i < k < n && Parent(k) == i ensures r[j].LessEq(r[k]) {
      assert k == 2 * i + 1 || k == 2 * i + 2;
    }
  }

  function RankOf<K, M>(e: Entry<K, M>): Rank
    reads e`freq, e`seqNo
  {
    Rank(e.freq, e.seqNo)
  }

  class LfuHeap<K, M> {
    var h: seq<Entry<K, M>>

    constructor ()
      ensures h == []
    {
      h := [];
    }

    /** Every entry knows its position; in particular no entry occurs twice. */
    ghost predicate Indexed()
      reads this`h, h`heapIdx
    {
      forall i :: 0 <= i < |h| ==> h[i].heapIdx == i
    }

    ghost function Ranks(): (r: seq<Rank>)
      reads this, h
      ensures |r| == |h|
    {
      seq(|h|, i requires 0 <= i < |h| reads this, h => RankOf(h[i]))
    }

    ghost predicate InOrder()
      reads this`h, h`freq, h`seqNo
    {
      forall i :: 0 < i < |h| ==> RankOf(h[Parent(i)]).LessEq(RankOf(h[i]))
    }

    ghost predicate Valid()
      reads this`h, h`heapIdx, h`freq, h`seqNo
    {
      Indexed() && InOrder()
    }

    predicate Less(i: int, j: int): (r: bool)
      requires 0 <= i < |h| && 0 <= j < |h|
      reads this, h
      ensures r == !Ranks()[j].LessEq(Ranks()[i])
    {
      if h[i].freq != h[j].freq then h[i].freq < h[j].freq else h[i].seqNo < h[j].seqNo
    }

    method Clear()
      modifies this
      ensures h == [] && Valid()
    {
      h := [];
    }

    // ---------- the methods the heap library calls ----------

    method Swap(i: int, j: int)
      requires 0 <= i < |h| && 0 <= j < |h| && Indexed()
      modifies this, h`heapIdx
      ensures h == Swapped(old(h), i, j) && Indexed()
      ensures Ranks() == Swapped(old(Ranks()), i, j)
    {
      h := h[i := h[j]][j := h[i]];
      h[i].heapIdx := i;
      h[j].heapIdx := j;
    }

    method PushBack(e: Entry<K, M>)
      requires Indexed() && e !in h
      modifies this, e`heapIdx
      ensures h == old(h) + [e] && Indexed()
    {
      e.heapIdx := |h|;
      h := h + [e];
    }

    method PopBack() returns (e: Entry<K, M>)
      requires Indexed() && |h| > 0
      modifies this, h`heapIdx
      ensures e == old(h)[|old(h)| - 1] && h == old(h)[..|old(h)| - 1] && Indexed()
      ensures e.heapIdx == -1 && e !in h
    {
      var n := |h|;
      e := h[n - 1];
      h := h[..n - 1];
      e.heapIdx := -1;
    }

    // ---------- container/heap ----------

    method Up(n: int, start: int)
      requires 0 <= start < n <= |h| && Indexed()
      requires OrderedBut(Ranks(), n, start) && AboveChildren(Ranks(), n, start)
      modifies this, h`heapIdx
      ensures |h| == |old(h)| && Indexed() && SameEntries(h, old(h)) && SameFrom(h, old(h), n)
      ensures Ordered(Ranks(), n)
    {
      var j := start;
      while true
        invariant 0 <= j < n <= |h| == |old(h)| && Indexed() && SameEntries(h, old(h)) && SameFrom(h, old(h), n)
        invariant OrderedBut(Ranks(), n, j) && AboveChildren(Ranks(), n, j)
        decreases j
      {
        // Go computes (0-1)/2 as 0, so the root is its own parent.
        if j == 0 { break; }
        var i := Parent(j);
        if !Less(j, i) { break; }
        UpStep(Ranks(), n, j);
        SwapFrame(h, i, j, n, old(h));
        assert forall k :: 0 <= k < |h| ==> h[k] in old(h);
        Swap(i, j);
        j := i;
      }
    }

    method Down(n: int, start: int) returns (moved: bool)
      requires 0 <= n <= |h| && 0 <= start && Indexed()
      requires OrderedBut(Ranks(), n, start)
      modifies this, h`heapIdx
      ensures |h| == |old(h)| && Indexed() && SameEntries(h, old(h)) && SameFrom(h, old(h), n)
      ensures moved ==> Ordered(Ranks(), n)
      ensures !moved ==> h == old(h) && Ranks() == old(Ranks()) && AboveChildren(Ranks(), n, start)
    {
      var i := start;
      while true
        invariant start <= i && 0 <= n <= |h| == |old(h)| && Indexed() && SameEntries(h, old(h)) && SameFrom(h, old(h), n)
        invariant i == start ==> h == old(h) && Ranks() == old(Ranks())
        invariant OrderedBut(Ranks(), n, i)
        invariant i > start ==> i < n && Ranks()[Parent(i)].LessEq(Ranks()[i])
        decreases n - i
      {
        ghost var r := Ranks();
        var j1 := 2 * i + 1;
        if j1 >= n { break; }
        var j := j1;
        var j2 := j1 + 1;
        if j2 < n && Less(j2, j1) { j := j2; }
        LesserChild(r, n, i, j);
        if !Less(j, i) { break; }
        assert forall k :: 0 <= k < |h| ==> h[k] in old(h);
        Sink(i, j, n, old(h));
        i := j;
      }
      moved := i > start;
      if moved { Settled(Ranks(), n, i); }
    }

    method Sink(i: int, j: int, n: int, ghost was: seq<Entry<K, M>>)
      requires 0 <= i < j < n <= |h| == |was| && Parent(j) == i && OrderedBut(Ranks(), n, i) && !Ranks()[i].LessEq(Ranks()[j])
      requires forall k :: i < k < n && Parent(k) == i ==> Ranks()[j].LessEq(Ranks()[k])
      requires Indexed() && SameEntries(h, was) && SameFrom(h, was, n)
      modifies this, h`heapIdx
      ensures |h| == |was| && Indexed() && SameEntries(h, was) && SameFrom(h, was, n)
      ensures OrderedBut(Ranks(), n, j) && Ranks()[i].LessEq(Ranks()[j])
    {
      DownStep(Ranks(), n, i, j);
      SwapFrame(h, i, j, n, was);
      Swap(i, j);
    }

    method Fix(i: int)
      requires 0 <= i < |h| && Indexed() && OrderedBut(Ranks(), |h|, i)
      modifies this, h`heapIdx
      ensures Valid() && SameEntries(h, old(h))
    {
      var moved := Down(|h|, i);
      if !moved { Up(|h|, i); }
    }

    /** One more use of an entry of the heap. */
    method Promote(e: Entry<K, M>)
      requires Valid() && e in h
      modifies this, h`heapIdx, e`freq
      ensures Valid() && SameEntries(h, old(h)) && e.freq == old(e.freq) + 1
    {
      ghost var ranks := Ranks();
      e.freq := e.freq + 1;
      OneRankChanged(ranks, Ranks(), e.heapIdx);
      Fix(e.heapIdx);
    }

    method HeapPush(e: Entry<K, M>)
      requires Valid() && e !in h
      modifies this, h`heapIdx, e`heapIdx
      ensures Valid() && SameEntries(h, old(h) + [e])
    {
      PushBack(e);
      Up(|h|, |h| - 1);
    }

    method HeapPop() returns (e: Entry<K, M>)
      requires Valid() && |h| > 0
      modifies this, h`heapIdx
      ensures Valid() && e == old(h)[0] && e.heapIdx == -1 && Without(h, old(h), e)
    {
      var n := |h| - 1;
      SwapFrame(h, 0, n, n + 1, h);
      LastToX(Ranks(), 0);
      Swap(0, n);
      var moved := Down(n, 0);
      if !moved { Settled(Ranks(), n, 0); }
      e := DropBack(old(h));
    }

    /** Pop, once the entry to remove has been brought to the end. */
    method DropBack(ghost was: seq<Entry<K, M>>) returns (e: Entry<K, M>)
      requires Indexed() && |h| == |was| > 0 && SameEntries(h, was) && Ordered(Ranks(), |h| - 1)
      modifies this, was`heapIdx
      ensures Valid() && e == old(h)[|was| - 1] && e.heapIdx == -1 && Without(h, was, e)
    {
      assert forall k :: 0 <= k < |h| ==> h[k] in was;
      assert h[|h| - 1] !in h[..|h| - 1];
      DropLast(h, was);
      e := PopBack();
    }

    method HeapRemove(i: int)
      requires Valid() && 0 <= i < |h|
      modifies this, h`heapIdx
      ensures Valid() && old(h)[i].heapIdx == -1 && Without(h, old(h), old(h)[i])
    {
      var n := |h| - 1;
      if n != i { BringToEnd(i, n); }
      var e := DropBack(old(h));
    }

    method BringToEnd(i: int, n: int)
      requires Valid() && 0 <= i < n == |h| - 1
      modifies this, h`heapIdx
      ensures |h| == |old(h)| && Indexed() && SameEntries(h, old(h)) && Ordered(Ranks(), n) && h[n] == old(h)[i]
    {
      SwapFrame(h, i, n, n + 1, h);
      LastToX(Ranks(), i);
      Swap(i, n);
      var moved := Down(n, i);
      if !moved { Up(n, i); }
    }
  }
}
