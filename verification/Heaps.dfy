/**
 * std::make_heap, push_heap and pop_heap on a list of numbers. `below` is the comparator; the rank it goes by
 * is greatest at the front.
 */
module Heaps {

  type Order = (nat, nat) -> bool

  type Rank = nat -> int

  function Parent(i: nat): (p: nat)
    requires i > 0
    ensures p < i && (i == 2 * p + 1 || i == 2 * p + 2)
  {
    (i - 1) / 2
  }

  /** On the elements of h, the comparator goes by rank. */
  ghost predicate GoesBy(below: Order, rank: Rank, h: seq<nat>) {
    forall a, b :: a in h && b in h ==> (below(a, b) <==> rank(a) < rank(b))
  }

  ghost predicate InOrder(rank: Rank, h: seq<nat>, i: nat)
    requires 0 < i < |h|
  {
    rank(h[Parent(i)]) >= rank(h[i])
  }

  /** No element is above its parent. */
  ghost predicate IsHeap(rank: Rank, h: seq<nat>) {
    forall i :: 0 < i < |h| ==> InOrder(rank, h, i)
  }

  /** The front of a heap is below none of its elements. */
  lemma {:induction false} FrontIsTop(rank: Rank, h: seq<nat>, i: nat)
    requires IsHeap(rank, h) && i < |h|
    ensures rank(h[0]) >= rank(h[i])
  {
    if i > 0 {
      FrontIsTop(rank, h, Parent(i));
      assert InOrder(rank, h, i);
    }
  }

  predicate NoRepeats(h: seq<nat>) {
    forall a, b :: 0 <= a < b < |h| ==> h[a] != h[b]
  }

  /** The same elements, in another order. */
  ghost predicate Rearranged(h: seq<nat>, h': seq<nat>) {
    multiset(h) == multiset(h')
  }

  lemma SameElements(h: seq<nat>, h': seq<nat>)
    requires Rearranged(h, h')
    ensures |h| == |h'| && forall x :: x in h <==> x in h'
  {
    assert |multiset(h)| == |h| && |multiset(h')| == |h'|;
    forall x ensures x in h <==> x in h' {
      assert x in h <==> x in multiset(h);
      assert x in h' <==> x in multiset(h');
    }
  }

  lemma {:induction false} CountOne(h: seq<nat>)
    ensures NoRepeats(h) <==> forall x :: multiset(h)[x] <= 1
  {
    if |h| > 0 {
      var n := |h| - 1;
      var front, last := h[..n], h[n];
      assert h == front + [last];
      CountOne(front);
      assert multiset(h) == multiset(front) + multiset{last};
      assert last in front <==> last in multiset(front);
      if NoRepeats(h) {
        assert NoRepeats(front) && last !in front;
      } else if NoRepeats(front) {
        var a, b :| 0 <= a < b < |h| && h[a] == h[b];
        assert front[a] == last;
        assert multiset(h)[last] >= 2;
      } else {
        var x :| multiset(front)[x] > 1;
        assert multiset(h)[x] > 1;
      }
    }
  }

  lemma RepeatsKept(h: seq<nat>, h': seq<nat>)
    requires Rearranged(h, h') && NoRepeats(h)
    ensures NoRepeats(h')
  {
    CountOne(h);
    CountOne(h');
  }

  function Swapped(h: seq<nat>, i: nat, j: nat): (h': seq<nat>)
    requires i < |h| && j < |h|
    ensures multiset(h') == multiset(h) && |h'| == |h|
  {
    h[i := h[j]][j := h[i]]
  }

  /** A heap but for the element at k, which may be above its parent. */
  ghost predicate Rising(rank: Rank, h: seq<nat>, k: nat) {
    && k < |h|
    && (forall i :: 0 < i < |h| && i != k ==> InOrder(rank, h, i))
    && (forall i :: 0 < i < |h| && k > 0 && Parent(i) == k ==> rank(h[Parent(k)]) >= rank(h[i]))
  }

  lemma Rises(rank: Rank, h: seq<nat>, k: nat)
    requires Rising(rank, h, k) && k > 0 && rank(h[Parent(k)]) < rank(h[k])
    ensures Rising(rank, Swapped(h, k, Parent(k)), Parent(k))
  {
    var p, h' := Parent(k), Swapped(h, k, Parent(k));
    forall i | 0 < i < |h| && i != p ensures InOrder(rank, h', i) {
      assert i != k ==> InOrder(rank, h, i);
    }
    forall i | 0 < i < |h| && p > 0 && Parent(i) == p ensures rank(h'[Parent(p)]) >= rank(h'[i]) {
      assert InOrder(rank, h, p);
      assert i != k ==> InOrder(rank, h, i);
    }
  }

  /** push_heap: the last element goes up until its parent is not below it. */
  method Push(h: seq<nat>, below: Order, ghost rank: Rank) returns (h': seq<nat>)
    requires |h| > 0 && GoesBy(below, rank, h) && IsHeap(rank, h[..|h| - 1])
    ensures IsHeap(rank, h') && Rearranged(h, h')
  {
    h' := h;
    var k: nat := |h| - 1;
    PushStarts(rank, h);
    while k > 0 && below(h'[Parent(k)], h'[k])
      invariant Rising(rank, h', k) && Rearranged(h, h') && GoesBy(below, rank, h')
    {
      Rises(rank, h', k);
      SameElements(h', Swapped(h', k, Parent(k)));
      h', k := Swapped(h', k, Parent(k)), Parent(k);
    }
    if k > 0 {
      assert InOrder(rank, h', k);
    }
  }

  lemma PushStarts(rank: Rank, h: seq<nat>)
    requires |h| > 0 && IsHeap(rank, h[..|h| - 1])
    ensures Rising(rank, h, |h| - 1)
  {
    forall i | 0 < i < |h| - 1 ensures InOrder(rank, h, i) {
      assert InOrder(rank, h[..|h| - 1], i);
    }
  }

  /** A heap but for the element at k, which may be below its children. */
  ghost predicate Sinking(rank: Rank, h: seq<nat>, k: nat) {
    && k < |h|
    && (forall i :: 0 < i < |h| && Parent(i) != k ==> InOrder(rank, h, i))
    && (forall i :: 0 < i < |h| && k > 0 && Parent(i) == k ==> rank(h[Parent(k)]) >= rank(h[i]))
  }

  lemma Sinks(rank: Rank, h: seq<nat>, k: nat, c: nat)
    requires Sinking(rank, h, k) && 0 < c < |h| && Parent(c) == k && rank(h[c]) >= rank(h[k])
    requires forall i :: 0 < i < |h| && Parent(i) == k ==> rank(h[c]) >= rank(h[i])
    ensures Sinking(rank, Swapped(h, k, c), c)
  {
    var h' := Swapped(h, k, c);
    forall i | 0 < i < |h| && Parent(i) != c ensures InOrder(rank, h', i) {
      if Parent(i) != k {
        assert InOrder(rank, h, i);
      }
    }
    forall i | 0 < i < |h| && Parent(i) == c ensures rank(h'[Parent(c)]) >= rank(h'[i]) {
      assert InOrder(rank, h, i);
    }
  }

  /** The child of k that is below no other. */
  method UpperChild(h: seq<nat>, k: nat, below: Order, ghost rank: Rank) returns (c: nat)
    requires GoesBy(below, rank, h) && 2 * k + 1 < |h|
    ensures 0 < c < |h| && Parent(c) == k
    ensures forall i :: 0 < i < |h| && Parent(i) == k ==> rank(h[c]) >= rank(h[i])
  {
    c := 2 * k + 1;
    if c + 1 < |h| && below(h[c], h[c + 1]) {
      c := c + 1;
    }
  }

  /** pop_heap: the front is taken out, the last element put in its place and sunk. */
  method Pop(h: seq<nat>, below: Order, ghost rank: Rank) returns (h': seq<nat>)
    requires |h| > 0 && GoesBy(below, rank, h) && IsHeap(rank, h)
    ensures IsHeap(rank, h') && Rearranged(h, h' + [h[0]])
  {
    var n := |h| - 1;
    if n == 0 {
      assert [] + [h[0]] == h;
      return [];
    }
    h' := h[..n][0 := h[n]];
    var k: nat := 0;
    PopStarts(rank, h, h');
    PopTakes(h, h');
    while 2 * k + 1 < |h'|
      invariant Sinking(rank, h', k) && Rearranged(h, h' + [h[0]]) && GoesBy(below, rank, h')
      decreases |h'| - k
    {
      var c := UpperChild(h', k, below, rank);
      if !below(h'[k], h'[c]) {
        break;
      }
      Sinks(rank, h', k, c);
      SameElements(h', Swapped(h', k, c));
      h', k := Swapped(h', k, c), c;
    }
    forall i | 0 < i < |h'| ensures InOrder(rank, h', i) {
    }
  }

  lemma PopStarts(rank: Rank, h: seq<nat>, h': seq<nat>)
    requires |h| > 1 && IsHeap(rank, h) && h' == h[..|h| - 1][0 := h[|h| - 1]]
    ensures Sinking(rank, h', 0)
  {
    forall i | 0 < i < |h'| && Parent(i) != 0 ensures InOrder(rank, h', i) {
      assert InOrder(rank, h, i);
    }
  }

  lemma PopTakes(h: seq<nat>, h': seq<nat>)
    requires |h| > 1 && h' == h[..|h| - 1][0 := h[|h| - 1]]
    ensures Rearranged(h, h' + [h[0]]) && forall x :: x in h' ==> x in h
  {
    assert h' + [h[0]] == Swapped(h, 0, |h| - 1);
    assert forall i :: 0 <= i < |h'| ==> h'[i] == h[if i == 0 then |h| - 1 else i];
  }

  /** make_heap: the elements are pushed one after another. */
  method Make(h: seq<nat>, below: Order, ghost rank: Rank) returns (h': seq<nat>)
    requires GoesBy(below, rank, h)
    ensures IsHeap(rank, h') && Rearranged(h, h')
  {
    h' := [];
    for n := 0 to |h|
      invariant |h'| == n && IsHeap(rank, h') && Rearranged(h[..n], h')
    {
      assert (h' + [h[n]])[..n] == h' && h[..n + 1] == h[..n] + [h[n]];
      SameElements(h[..n + 1], h' + [h[n]]);
      h' := Push(h' + [h[n]], below, rank);
      SameElements(h[..n + 1], h');
    }
    assert h[..|h|] == h;
  }
}
