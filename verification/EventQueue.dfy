/**
 The event queue: a slice kept as a binary min-heap on execution time by Go's container/heap.
 */
module EventQueue {
  import opened Events
  import opened Wrappers

  function Parent(j: int): (i: int)
    ensures 2 * i + 1 <= j <= 2 * i + 2
  {
    (j - 1) / 2
  }

  /** Every item but the root runs no earlier than its parent. */
  ghost predicate HeapOrdered(items: seq<Event>) {
    OrderedExcept(items, |items|, |items|)
  }

  /** The first n items are in heap order, save where `hole` is the child. */
  ghost predicate OrderedExcept(items: seq<Event>, n: nat, hole: int)
    requires n <= |items|
  {
    forall j {:trigger Parent(j)} :: 0 < j < n && j != hole ==> items[Parent(j)].at <= items[j].at
  }

  lemma {:induction false} RootIsEarliest(items: seq<Event>, j: nat)
    requires HeapOrdered(items) && j < |items|
    ensures items[0].at <= items[j].at
    decreases j
  {
    if j > 0 { RootIsEarliest(items, Parent(j)); }
  }

  lemma SwapKeepsContents(s: seq<Event>, i: nat, j: nat)
    requires i < |s| && j < |s|
    ensures multiset(s[i := s[j]][j := s[i]]) == multiset(s)
  {}

  /** The first n items are in heap order, save that item i may run later than its children. */
  ghost predicate SiftedTo(items: seq<Event>, n: nat, i: nat)
    requires n <= |items|
  {
    && (forall j {:trigger Parent(j)} :: 0 < j < n && Parent(j) != i ==> items[Parent(j)].at <= items[j].at)
    && (forall j {:trigger Parent(j)} :: 0 < i && j < n && Parent(j) == i ==> items[Parent(i)].at <= items[j].at)
  }

  lemma SiftStep(s: seq<Event>, n: nat, i: nat, j: nat)
    requires i < j < n <= |s| && Parent(j) == i && SiftedTo(s, n, i) && s[j].at < s[i].at
    requires forall k {:trigger Parent(k)} :: 0 < k < n && Parent(k) == i ==> s[j].at <= s[k].at
    ensures SiftedTo(s[i := s[j]][j := s[i]], n, j)
  {
    var t := s[i := s[j]][j := s[i]];
    forall k | 0 < k < n && Parent(k) != j ensures t[Parent(k)].at <= t[k].at {}
    forall k | 0 < k < n && Parent(k) == j ensures t[Parent(j)].at <= t[k].at {}
  }

  class Queue {
    var items: seq<Event>

    constructor ()
      ensures items == []
    {
      items := [];
    }

    method Swap(i: nat, j: nat)
      requires i < |items| && j < |items|
      modifies this
      ensures items == old(items)[i := old(items)[j]][j := old(items)[i]]
      ensures multiset(items) == multiset(old(items))
    {
      SwapKeepsContents(items, i, j);
      items := items[i := items[j]][j := items[i]];
    }

    /** container/heap's up: sift a new last item towards the root. */
    method Up(start: nat)
      requires |items| == start + 1 && OrderedExcept(items, |items|, start)
      modifies this
      ensures HeapOrdered(items) && multiset(items) == multiset(old(items))
    {
      var j := start;
      while j > 0 && items[j].at < items[Parent(j)].at
        invariant 0 <= j < |items| == start + 1
        invariant multiset(items) == multiset(old(items))
        invariant OrderedExcept(items, |items|, j)
        invariant j > 0 ==> forall k {:trigger Parent(k)} ::
            0 < k < |items| && Parent(k) == j ==> items[Parent(j)].at <= items[k].at
      {
        var i := Parent(j);
        assert i > 0 ==> items[Parent(i)].at <= items[i].at;
        Swap(i, j);
        j := i;
      }
    }

    /** container/heap's down, over the first n items: sift the root towards the leaves. */
    method Down(n: nat)
      requires n <= |items|
      requires forall j {:trigger Parent(j)} :: 0 < Parent(j) && j < n ==> items[Parent(j)].at <= items[j].at
      modifies this
      ensures |items| == |old(items)| && OrderedExcept(items, n, n) && items[n..] == old(items)[n..]
      ensures multiset(items) == multiset(old(items))
    {
      var i := 0;
      while 2 * i + 1 < n
        invariant 0 <= i && |items| == |old(items)| && items[n..] == old(items)[n..]
        invariant multiset(items) == multiset(old(items))
        invariant SiftedTo(items, n, i)
      {
        var j1 := 2 * i + 1;
        var j := if j1 + 1 < n && items[j1 + 1].at < items[j1].at then j1 + 1 else j1;
        if items[i].at <= items[j].at { break; }
        SiftStep(items, n, i, j);
        Swap(i, j);
        i := j;
      }
    }

    method Schedule(e: Event)
      requires HeapOrdered(items)
      modifies this
      ensures HeapOrdered(items)
      ensures multiset(items) == multiset(old(items)) + multiset{e}
      ensures forall x :: x in items ==> x in old(items) || x == e
      ensures forall now :: DueWork(items, now) == DueWork(old(items), now) + DueRank(e, now)
    {
      items := items + [e];
      Up(|items| - 1);
      forall x | x in items ensures x in old(items) || x == e { assert x in multiset(items); }
      forall now ensures DueWork(items, now) == DueWork(old(items), now) + DueRank(e, now) {
        DueWorkAdded(old(items), e, items, now);
      }
    }

    method Peek() returns (r: Option<Event>)
      requires HeapOrdered(items)
      ensures r.None? <==> items == []
      ensures r.Some? ==> r.value in items && forall e :: e in items ==> r.value.at <= e.at
    {
      if |items| == 0 { return None; }
      forall j | 0 <= j < |items| ensures items[0].at <= items[j].at { RootIsEarliest(items, j); }
      r := Some(items[0]);
    }

    /** Removes one event of least execution time; the rest stays queued, as a multiset. */
    method PopEvent() returns (r: Option<Event>)
      requires HeapOrdered(items)
      modifies this
      ensures HeapOrdered(items)
      ensures r.None? <==> old(items) == []
      ensures r.None? ==> items == []
      ensures r.Some? ==> multiset(old(items)) == multiset(items) + multiset{r.value}
      ensures r.Some? ==> forall e :: e in old(items) ==> r.value.at <= e.at
      ensures r.Some? ==> forall now :: DueWork(old(items), now) == DueWork(items, now) + DueRank(r.value, now)
    {
      if |items| == 0 { return None; }
      var n := |items| - 1;
      ghost var was := items;
      forall j | 0 <= j <= n ensures was[0].at <= was[j].at { RootIsEarliest(was, j); }
      Swap(0, n);
      Down(n);
      var item := items[n];
      assert item == items[n..][0] == was[0];
      assert items == items[..n] + [item];
      items := items[..n];
      r := Some(item);
      forall now ensures DueWork(was, now) == DueWork(items, now) + DueRank(item, now) {
        DueWorkAdded(items, item, was, now);
      }
    }
  }
}
