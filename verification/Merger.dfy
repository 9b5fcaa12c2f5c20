/**
 * The merging iterator: a heap of child cursors, one of them current, that together move through the
 * sorted merge of the children in both directions.
 */
module Merger {
  import opened Cursor
  import Heaps
  import opened Keys

  // ---------- The sorted merge ----------

  /** No two entries of the children have the same internal key, and each child is sorted. */
  ghost predicate Mergeable(children: seq<seq<Entry>>) {
    && (forall c :: 0 <= c < |children| ==> Sorted(children[c]))
    && (forall c, i, d, j :: 0 <= c < d < |children| && 0 <= i < |children[c]| && 0 <= j < |children[d]| ==>
                               EntryBefore(children[c][i], children[d][j]) || EntryBefore(children[d][j], children[c][i]))
  }

  ghost predicate FromChild(children: seq<seq<Entry>>, e: Entry) {
    exists c :: 0 <= c < |children| && e in children[c]
  }

  /** `merged` lists exactly the children's entries, in order. */
  ghost predicate MergeOf(merged: seq<Entry>, children: seq<seq<Entry>>) {
    Sorted(merged) && forall e :: e in merged <==> FromChild(children, e)
  }

  function Merge(a: seq<Entry>, b: seq<Entry>): seq<Entry> {
    if |a| == 0 then b
    else if |b| == 0 then a
    else if EntryBefore(a[0], b[0]) then [a[0]] + Merge(a[1..], b)
    else [b[0]] + Merge(a, b[1..])
  }

  function MergeAll(children: seq<seq<Entry>>): seq<Entry> {
    if |children| == 0 then []
    else Merge(children[0], MergeAll(children[1..]))
  }

  lemma EntryOrder()
    ensures forall a: Entry :: !EntryBefore(a, a)
    ensures forall a: Entry, b: Entry, c: Entry :: EntryBefore(a, b) && EntryBefore(b, c) ==> EntryBefore(a, c)
  {
    LessIsStrictTotalOrder();
  }

  lemma {:induction false} MergeMembers(a: seq<Entry>, b: seq<Entry>)
    ensures forall e :: e in Merge(a, b) <==> e in a || e in b
  {
    if |a| > 0 && |b| > 0 {
      assert a == [a[0]] + a[1..] && b == [b[0]] + b[1..];
      if EntryBefore(a[0], b[0]) { MergeMembers(a[1..], b); } else { MergeMembers(a, b[1..]); }
    }
  }

  lemma {:induction false} MergeSorted(a: seq<Entry>, b: seq<Entry>)
    requires Sorted(a) && Sorted(b)
    requires forall i, j :: 0 <= i < |a| && 0 <= j < |b| ==> EntryBefore(a[i], b[j]) || EntryBefore(b[j], a[i])
    ensures Sorted(Merge(a, b))
  {
    if |a| > 0 && |b| > 0 {
      EntryOrder();
      if EntryBefore(a[0], b[0]) {
        MergeSorted(a[1..], b);
        HeadFirst(a[0], a[1..], b);
      } else {
        MergeSorted(a, b[1..]);
        HeadFirst(b[0], a, b[1..]);
      }
    }
  }

  lemma HeadFirst(h: Entry, a: seq<Entry>, b: seq<Entry>)
    requires Sorted(Merge(a, b))
    requires forall i :: 0 <= i < |a| ==> EntryBefore(h, a[i])
    requires forall i :: 0 <= i < |b| ==> EntryBefore(h, b[i])
    ensures Sorted([h] + Merge(a, b))
  {
    MergeMembers(a, b);
    forall i | 0 <= i < |Merge(a, b)| ensures EntryBefore(h, Merge(a, b)[i]) {
      assert Merge(a, b)[i] in Merge(a, b);
    }
  }

  lemma FromFirstOrRest(children: seq<seq<Entry>>, e: Entry)
    requires |children| > 0
    ensures FromChild(children, e) <==> e in children[0] || FromChild(children[1..], e)
  {
    var rest := children[1..];
    if FromChild(children, e) {
      var c :| 0 <= c < |children| && e in children[c];
      assert c > 0 ==> e in rest[c - 1];
    }
    if FromChild(rest, e) {
      var c :| 0 <= c < |rest| && e in rest[c];
      assert e in children[c + 1];
    }
  }

  lemma FirstApart(children: seq<seq<Entry>>, i: nat, e: Entry)
    requires Mergeable(children) && |children| > 0 && i < |children[0]| && FromChild(children[1..], e)
    ensures EntryBefore(children[0][i], e) || EntryBefore(e, children[0][i])
  {
    var rest := children[1..];
    var c :| 0 <= c < |rest| && e in rest[c];
    var k :| 0 <= k < |rest[c]| && rest[c][k] == e;
    assert children[c + 1][k] == e;
  }

  /** Children with distinct keys have a sorted merge. */
  lemma {:induction false} MergeAllIsMerge(children: seq<seq<Entry>>)
    requires Mergeable(children)
    ensures MergeOf(MergeAll(children), children)
  {
    if |children| > 0 {
      var rest := children[1..];
      assert Mergeable(rest);
      MergeAllIsMerge(rest);
      var m := MergeAll(rest);
      MergeMembers(children[0], m);
      forall i, j | 0 <= i < |children[0]| && 0 <= j < |m|
        ensures EntryBefore(children[0][i], m[j]) || EntryBefore(m[j], children[0][i])
      {
        assert m[j] in m;
        FirstApart(children, i, m[j]);
      }
      MergeSorted(children[0], m);
      forall e ensures e in MergeAll(children) <==> FromChild(children, e) {
        FromFirstOrRest(children, e);
      }
    }
  }

  // ---------- The iterator ----------

  /** Where an entry stands in the merge. */
  ghost function Rank(merged: seq<Entry>, e: Entry): (r: nat)
    requires e in merged
    ensures r < |merged| && merged[r] == e
  {
    var r :| 0 <= r < |merged| && merged[r] == e;
    r
  }

  lemma SortedUnique(merged: seq<Entry>, p: nat, q: nat)
    requires Sorted(merged) && p < |merged| && q < |merged| && merged[p] == merged[q]
    ensures p == q
  {
    assert p < q ==> EntryBefore(merged[p], merged[q]);
    assert q < p ==> EntryBefore(merged[q], merged[p]);
    EntryOrder();
  }

  lemma RankOrder(merged: seq<Entry>)
    requires Sorted(merged)
    ensures forall a, b {:trigger EntryBefore(a, b)} :: a in merged && b in merged ==>
              (EntryBefore(a, b) <==> Rank(merged, a) < Rank(merged, b))
    ensures forall p :: 0 <= p < |merged| ==> Rank(merged, merged[p]) == p
  {
    forall a, b | a in merged && b in merged
      ensures EntryBefore(a, b) <==> Rank(merged, a) < Rank(merged, b)
    {
      var p, q := Rank(merged, a), Rank(merged, b);
      assert p < q ==> EntryBefore(merged[p], merged[q]);
      assert q < p ==> EntryBefore(merged[q], merged[p]);
      EntryOrder();
    }
    forall p | 0 <= p < |merged| ensures Rank(merged, merged[p]) == p {
      SortedUnique(merged, p, Rank(merged, merged[p]));
    }
  }

  /** How many entries of a sorted stream come before the target. */
  function LowerBound(es: seq<Entry>, target: Entry): (k: nat)
    ensures k <= |es|
    ensures forall j :: 0 <= j < k ==> EntryBefore(es[j], target)
    ensures k < |es| ==> !EntryBefore(es[k], target)
  {
    if |es| > 0 && EntryBefore(es[0], target) then 1 + LowerBound(es[1..], target) else 0
  }

  /** A plain cursor over the merge. */
  function CursorStep(merged: seq<Entry>, k: nat, op: Op<Entry>): (k': nat)
    requires k <= |merged|
    ensures k' <= |merged|
  {
    Moved(|merged|, k, op, if op.Seek? then LowerBound(merged, op.target) else 0)
  }

  ghost function EntryOf(children: seq<seq<Entry>>): Entry -> bool {
    (e: Entry) => FromChild(children, e)
  }

  function ByEntry(): (Entry, Entry) -> bool {
    (a: Entry, b: Entry) => EntryBefore(a, b)
  }

  /** What a move shows of the children's entries, by their order alone. */
  ghost predicate ShowsMove(children: seq<seq<Entry>>, was: Option<Entry>, op: Op<Entry>, now: Option<Entry>) {
    Shows(EntryOf(children), ByEntry(), ByEntry(), was, op, now)
  }

  ghost function MoveIn(children: seq<seq<Entry>>): (Option<Entry>, Op<Entry>, Option<Entry>) -> bool {
    (was: Option<Entry>, op: Op<Entry>, now: Option<Entry>) => ShowsMove(children, was, op, now)
  }

  lemma SortedByIndex(merged: seq<Entry>)
    requires Sorted(merged)
    ensures forall i, j :: 0 <= i < |merged| && 0 <= j < |merged| ==> (EntryBefore(merged[i], merged[j]) <==> i < j)
  {
    EntryOrder();
    forall i, j | 0 <= i < |merged| && 0 <= j < |merged| ensures EntryBefore(merged[i], merged[j]) <==> i < j {
      assert i < j ==> EntryBefore(merged[i], merged[j]);
      assert j < i ==> EntryBefore(merged[j], merged[i]);
    }
  }

  lemma BoundIsEarly(merged: seq<Entry>, target: Entry)
    requires Sorted(merged)
    ensures forall i :: 0 <= i < |merged| ==> (EntryBefore(merged[i], target) <==> i < LowerBound(merged, target))
  {
    EntryOrder();
    var p := LowerBound(merged, target);
    forall i | 0 <= i < |merged| ensures EntryBefore(merged[i], target) <==> i < p {
      if i > p { assert EntryBefore(merged[p], merged[i]); }
    }
  }

  /** A step of the plain cursor over the merge shows the children's first entry, last, next, one before, or first not
      before the target, as was asked. */
  lemma StepShows(merged: seq<Entry>, children: seq<seq<Entry>>, k: nat, op: Op<Entry>)
    requires MergeOf(merged, children) && k <= |merged|
    ensures ShowsMove(children, At(merged, k), op, At(merged, CursorStep(merged, k, op)))
  {
    SortedByIndex(merged);
    if op.Seek? {
      BoundIsEarly(merged, op.target);
    }
    MovedShows(merged, EntryOf(children), ByEntry(), ByEntry(), k, op,
               if op.Seek? then LowerBound(merged, op.target) else 0);
  }

  class MergingIterator {
    const children: seq<seq<Entry>>
    const keyNum: Entry -> nat
    ghost const merged: seq<Entry>
    var pos: seq<nat>        // each child cursor's position; its length when it is not valid
    var comparisons: seq<nat>
    var heap: seq<nat>
    var current: nat         // |children| when there is none
    var forward: bool

    /** The children have a merge, and key numbers follow the key order. */
    ghost predicate Fixed() {
      && MergeOf(merged, children) && Mergeable(children)
      && (forall a, b :: EntryBefore(a, b) ==> keyNum(a) <= keyNum(b))
    }

    /** The rank in the merge of child c's entry i. */
    ghost function R(c: nat, i: nat): (r: nat)
      requires Fixed() && c < |children| && i < |children[c]|
      ensures r < |merged| && merged[r] == children[c][i]
    {
      assert children[c][i] in children[c];
      Rank(merged, children[c][i])
    }

    lemma RankOfChildren()
      requires Fixed()
      ensures forall c, i, j :: 0 <= c < |children| && 0 <= i < j < |children[c]| ==> R(c, i) < R(c, j)
      ensures forall c, i, d, j | 0 <= c < |children| && 0 <= d < |children| && 0 <= i < |children[c]| && 0 <= j < |children[d]| ::
                c != d ==> R(c, i) != R(d, j)
    {
      forall c, i, j | 0 <= c < |children| && 0 <= i < j < |children[c]| ensures R(c, i) < R(c, j) {
        assert EntryBefore(children[c][i], children[c][j]);
        RankBefore(c, i, c, j);
      }
      forall c, i, d, j | 0 <= c < |children| && 0 <= d < |children| && 0 <= i < |children[c]| && 0 <= j < |children[d]|
        ensures c != d ==> R(c, i) != R(d, j)
      {
        RankBefore(c, i, d, j);
        RankBefore(d, j, c, i);
        assert c != d ==> EntryBefore(children[c][i], children[d][j]) || EntryBefore(children[d][j], children[c][i]);
      }
    }

    lemma RankBefore(c: nat, i: nat, d: nat, j: nat)
      requires Fixed() && c < |children| && i < |children[c]| && d < |children| && j < |children[d]|
      ensures EntryBefore(children[c][i], children[d][j]) <==> R(c, i) < R(d, j)
    {
      RankOrder(merged);
      assert merged[R(c, i)] in merged && merged[R(d, j)] in merged;
    }

    /** Every rank is some child's entry. */
    lemma RankTaken(p: nat) returns (c: nat, i: nat)
      requires Fixed() && p < |merged|
      ensures c < |children| && i < |children[c]| && R(c, i) == p
    {
      RankOrder(merged);
      assert merged[p] in merged;
      c :| 0 <= c < |children| && merged[p] in children[c];
      i :| 0 <= i < |children[c]| && children[c][i] == merged[p];
    }

    ghost predicate InRange(ps: seq<nat>) {
      |ps| == |children| && forall c :: 0 <= c < |children| ==> ps[c] <= |children[c]|
    }

    predicate On(ps: seq<nat>, c: nat)
      requires |ps| == |children|
    {
      c < |children| && ps[c] < |children[c]|
    }

    /** At position k, child c stands at its first entry of rank p or more. */
    ghost predicate ChildFrom(c: nat, k: nat, p: int)
      requires Fixed() && c < |children| && k <= |children[c]|
    {
      (forall i :: 0 <= i < k ==> R(c, i) < p) && (k < |children[c]| ==> R(c, k) >= p)
    }

    /** At position k, child c stands at its last entry of rank p or less. */
    ghost predicate ChildUpTo(c: nat, k: nat, p: int)
      requires Fixed() && c < |children| && k <= |children[c]|
    {
      && (k < |children[c]| ==> R(c, k) <= p)
      && forall i :: (if k < |children[c]| then k + 1 else 0) <= i < |children[c]| ==> R(c, i) > p
    }

    ghost predicate ChildPlaced(c: nat, k: nat, up: bool, p: int)
      requires Fixed() && c < |children| && k <= |children[c]|
    {
      if up then ChildFrom(c, k, p) else ChildUpTo(c, k, p)
    }

    ghost predicate Placed(ps: seq<nat>, up: bool, p: int)
      requires Fixed() && InRange(ps)
    {
      forall c :: 0 <= c < |children| ==> ChildPlaced(c, ps[c], up, p)
    }

    /** The listed children are valid and their numbers up to date. */
    ghost predicate Numbered(h: seq<nat>, ps: seq<nat>, nums: seq<nat>) {
      && InRange(ps) && |nums| == |children|
      && forall a :: 0 <= a < |h| ==> On(ps, h[a]) && nums[h[a]] == keyNum(children[h[a]][ps[h[a]]])
    }

    /** How high in the heap a child belongs: first in the direction of travel, highest. */
    ghost function Height(ps: seq<nat>, up: bool): Heaps.Rank
      requires Fixed() && InRange(ps)
    {
      (c: nat) => if !On(ps, c) then 0 else var r: int := R(c, ps[c]); if up then -r else r
    }

    /** The heap holds exactly the valid children, each once, with their numbers up to date. */
    ghost predicate HeapHolds()
      reads this
    {
      Heaps.NoRepeats(heap) && Numbered(heap, pos, comparisons) && forall c: nat :: c in heap <==> On(pos, c)
    }

    /** No child of the heap comes before its parent in the direction of travel. */
    ghost predicate Heaped()
      requires Fixed() && InRange(pos)
      reads this
    {
      Heaps.IsHeap(Height(pos, forward), heap)
    }

    ghost function Position(): nat
      requires Fixed() && InRange(pos) && (current < |children| ==> On(pos, current))
      reads this
    {
      if current < |children| then R(current, pos[current]) else |merged|
    }

    /** The current child is the heap's front; the others stand just past it in the direction of travel. */
    ghost predicate Valid()
      reads this
    {
      && Fixed() && HeapHolds() && Heaped() && current <= |children|
      && (current < |children| ==>
            |heap| > 0 && heap[0] == current && On(pos, current) && Placed(pos, forward, Position()))
    }

    /** HeapComparator: whether l belongs below r in the heap. */
    predicate HeapLess(ps: seq<nat>, nums: seq<nat>, up: bool, l: nat, r: nat)
      requires |ps| == |children| == |nums| && On(ps, l) && On(ps, r)
    {
      var a, b := if up then r else l, if up then l else r;
      nums[a] < nums[b] || (nums[a] == nums[b] && EntryBefore(children[a][ps[a]], children[b][ps[b]]))
    }

    function Comparator(ps: seq<nat>, nums: seq<nat>, up: bool): Heaps.Order
      requires |ps| == |children| == |nums|
    {
      (l: nat, r: nat) => On(ps, l) && On(ps, r) && HeapLess(ps, nums, up, l, r)
    }

    /** With the numbers up to date, the comparator puts the children in the order of the merge. */
    lemma ComparatorGoesByHeight(h: seq<nat>, ps: seq<nat>, nums: seq<nat>, up: bool)
      requires Fixed() && Numbered(h, ps, nums)
      ensures Heaps.GoesBy(Comparator(ps, nums, up), Height(ps, up), h)
    {
      forall l, r | l in h && r in h ensures
        Comparator(ps, nums, up)(l, r) <==> Height(ps, up)(l) < Height(ps, up)(r)
      {
        RankBefore(l, ps[l], r, ps[r]);
        RankBefore(r, ps[r], l, ps[l]);
      }
    }

    lemma RearrangedHolds(h: seq<nat>, h': seq<nat>, ps: seq<nat>, nums: seq<nat>)
      requires Heaps.NoRepeats(h) && Numbered(h, ps, nums) && Heaps.Rearranged(h, h')
      ensures Heaps.NoRepeats(h') && Numbered(h', ps, nums) && forall x: nat :: x in h' <==> x in h
    {
      Heaps.SameElements(h, h');
      Heaps.RepeatsKept(h, h');
      assert forall a :: 0 <= a < |h'| ==> h'[a] in h;
    }

    method ReinitializeComparisons()
      requires Fixed() && InRange(pos) && |comparisons| == |children|
      modifies this`comparisons, this`heap
      ensures HeapHolds() && Heaped()
    {
      var h: seq<nat> := [];
      for c := 0 to |children|
        invariant Heaps.NoRepeats(h) && Numbered(h, pos, comparisons)
        invariant forall x: nat :: x in h <==> x < c && On(pos, x)
      {
        if On(pos, c) {
          comparisons := comparisons[c := keyNum(children[c][pos[c]])];
          h := h + [c];
        }
      }
      ComparatorGoesByHeight(h, pos, comparisons, forward);
      heap := Heaps.Make(h, Comparator(pos, comparisons, forward), Height(pos, forward));
      RearrangedHolds(h, heap, pos, comparisons);
    }

    method PopCurrentComparison()
      requires Fixed() && HeapHolds() && Heaped() && |heap| > 0 && heap[0] == current
      modifies this`heap
      ensures Heaps.NoRepeats(heap) && Numbered(heap, pos, comparisons) && Heaped()
      ensures forall c: nat :: c in heap <==> On(pos, c) && c != current
    {
      ComparatorGoesByHeight(heap, pos, comparisons, forward);
      var h := Heaps.Pop(heap, Comparator(pos, comparisons, forward), Height(pos, forward));
      RearrangedHolds(heap, h + [current], pos, comparisons);
      FrontTaken(h, current, heap);
      heap := h;
    }

    lemma FrontTaken(h: seq<nat>, x: nat, all: seq<nat>)
      requires Heaps.NoRepeats(h + [x]) && Numbered(h + [x], pos, comparisons)
      requires forall c: nat :: c in h + [x] <==> c in all
      ensures Heaps.NoRepeats(h) && Numbered(h, pos, comparisons)
      ensures forall c: nat :: c in h <==> c in all && c != x
    {
      assert forall a :: 0 <= a < |h| ==> (h + [x])[a] == h[a];
      assert (h + [x])[|h|] == x;
    }

    /** Moving a child that is not in the heap leaves it a heap. */
    lemma OthersStay(h: seq<nat>, c: nat, ps: seq<nat>, ps': seq<nat>, up: bool)
      requires Fixed() && InRange(ps) && InRange(ps') && c !in h
      requires forall d :: 0 <= d < |children| && d != c ==> ps'[d] == ps[d]
      requires Heaps.IsHeap(Height(ps, up), h)
      ensures Heaps.IsHeap(Height(ps', up), h)
    {
      forall i | 0 < i < |h| ensures Heaps.InOrder(Height(ps', up), h, i) {
        assert Heaps.InOrder(Height(ps, up), h, i);
      }
    }

    /** The moved child goes back into the heap if it is still valid. */
    method PushCurrentComparison()
      requires Fixed() && InRange(pos) && current < |children|
      requires Heaps.NoRepeats(heap) && Numbered(heap, pos, comparisons) && Heaped()
      requires forall c: nat :: c in heap <==> On(pos, c) && c != current
      modifies this`heap, this`comparisons
      ensures HeapHolds() && Heaped()
    {
      if On(pos, current) {
        comparisons := comparisons[current := keyNum(children[current][pos[current]])];
        var h := heap + [current];
        assert h[..|h| - 1] == heap;
        ComparatorGoesByHeight(h, pos, comparisons, forward);
        heap := Heaps.Push(h, Comparator(pos, comparisons, forward), Height(pos, forward));
        RearrangedHolds(h, heap, pos, comparisons);
      }
    }

    /** With every child at rank p or beyond, the smallest is rank p itself; and likewise in reverse. */
    lemma TopIsRank(p: int)
      requires Fixed() && HeapHolds() && Heaped() && Placed(pos, forward, p)
      requires if forward then 0 <= p <= |merged| else -1 <= p < |merged|
      ensures if 0 <= p < |merged| then |heap| > 0 && R(heap[0], pos[heap[0]]) == p else |heap| == 0
    {
      if 0 <= p < |merged| {
        var c, i := RankTaken(p);
        RankOfChildren();
        assert ChildPlaced(c, pos[c], forward, p);
        assert c in heap;
        var a :| 0 <= a < |heap| && heap[a] == c;
        Heaps.FrontIsTop(Height(pos, forward), heap, a);
      }
      if |heap| > 0 {
        assert On(pos, heap[0]);
        assert ChildPlaced(heap[0], pos[heap[0]], forward, p);
      }
    }

    /** FindSmallest and FindLargest: the current child is the heap's front. */
    method FindTop(ghost p: int)
      requires Fixed() && HeapHolds() && Heaped() && Placed(pos, forward, p)
      requires if forward then 0 <= p <= |merged| else -1 <= p < |merged|
      modifies this`current
      ensures Valid() && Position() == if p == -1 then |merged| else p
    {
      TopIsRank(p);
      current := if |heap| > 0 then heap[0] else |children|;
    }

    // Moving one child.

    lemma ChildSeeks(c: nat, target: Entry, p: nat)
      requires Fixed() && c < |children| && p <= |merged|
      requires forall i :: 0 <= i < |merged| ==> (EntryBefore(merged[i], target) <==> i < p)
      ensures ChildFrom(c, LowerBound(children[c], target), p)
    {
    }

    lemma TargetRank(target: Entry)
      requires Fixed()
      ensures forall i :: 0 <= i < |merged| ==> (EntryBefore(merged[i], target) <==> i < LowerBound(merged, target))
    {
      BoundIsEarly(merged, target);
    }

    method Seek(target: Entry)
      requires Valid()
      modifies this
      ensures Valid() && Position() == CursorStep(merged, old(Position()), Op.Seek(target))
    {
      ghost var p := LowerBound(merged, target);
      TargetRank(target);
      for c := 0 to |children|
        invariant Fixed() && InRange(pos) && |comparisons| == |children|
        invariant forall d :: 0 <= d < c ==> ChildFrom(d, pos[d], p)
      {
        ChildSeeks(c, target, p);
        pos := pos[c := LowerBound(children[c], target)];
      }
      forward := true;
      ReinitializeComparisons();
      FindTop(p);
    }

    method SeekToFirst()
      requires Valid()
      modifies this
      ensures Valid() && Position() == CursorStep(merged, old(Position()), Op.SeekToFirst)
    {
      pos := seq(|children|, _ => 0);
      forward := true;
      ReinitializeComparisons();
      FindTop(0);
    }

    method SeekToLast()
      requires Valid()
      modifies this
      ensures Valid() && Position() == CursorStep(merged, old(Position()), Op.SeekToLast)
    {
      pos := seq(|children|, c requires 0 <= c < |children| => if |children[c]| == 0 then 0 else |children[c]| - 1);
      forward := false;
      ReinitializeComparisons();
      FindTop(|merged| - 1);
    }

    /** Where child c's cursor goes from position k. */
    function Moved(c: nat, k: nat, up: bool): nat
      requires c < |children| && k < |children[c]|
    {
      if up then k + 1 else if k == 0 then |children[c]| else k - 1
    }

    /** Standing at rank p, the current child moves past p, where the others already are. */
    lemma CurrentMoves(p: nat, up: bool, ps: seq<nat>)
      requires Fixed() && InRange(pos) && On(pos, current) && R(current, pos[current]) == p && Placed(pos, up, p)
      requires ps == pos[current := Moved(current, pos[current], up)]
      ensures InRange(ps) && Placed(ps, up, if up then p + 1 else p - 1)
    {
      forall c | 0 <= c < |children| ensures ChildPlaced(c, ps[c], up, if up then p + 1 else p - 1) {
        assert ChildPlaced(c, pos[c], up, p);
        RankOfChildren();
      }
    }

    /** The current child is taken from the heap, moved and put back; the front is the new current. */
    method Advance()
      requires Valid() && current < |children|
      modifies this
      ensures Valid()
      ensures Position() == if old(forward) then old(Position()) + 1
                            else if old(Position()) == 0 then |merged| else old(Position()) - 1
    {
      ghost var p: int := Position();
      var ps := pos[current := Moved(current, pos[current], forward)];
      CurrentMoves(p, forward, ps);
      PopCurrentComparison();
      assert Numbered(heap, ps, comparisons);
      OthersStay(heap, current, pos, ps, forward);
      pos := ps;
      PushCurrentComparison();
      FindTop(if forward then p + 1 else p - 1);
    }

    /** The switch of direction: every other child is put just past the current entry. */
    method TurnForward()
      requires Valid() && current < |children| && !forward
      modifies this
      ensures Valid() && forward && current == old(current) && current < |children| && Position() == old(Position())
    {
      ghost var p := Position();
      var key := children[current][pos[current]];
      KeyRank(p);
      RankOfChildren();
      for c := 0 to |children|
        invariant Fixed() && InRange(pos) && |comparisons| == |children| && !forward
        invariant current == old(current) && pos[current] == old(pos[current]) && R(current, pos[current]) == p
        invariant forall d :: 0 <= d < c && d != current ==> ChildFrom(d, pos[d], p)
      {
        if c != current {
          ChildSeeks(c, key, p);
          var k := LowerBound(children[c], key);
          var equal := k < |children[c]| && !EntryBefore(key, children[c][k]);
          pos := pos[c := if equal then k + 1 else k];
        }
      }
      forward := true;
      ReinitializeComparisons();
      FrontIsCurrent(p);
    }

    lemma KeyRank(p: nat)
      requires Fixed() && p < |merged|
      ensures forall i :: 0 <= i < |merged| ==> (EntryBefore(merged[i], merged[p]) <==> i < p)
    {
      EntryOrder();
      forall i | 0 <= i < |merged| ensures EntryBefore(merged[i], merged[p]) <==> i < p {
        assert i < p ==> EntryBefore(merged[i], merged[p]);
        assert p < i ==> EntryBefore(merged[p], merged[i]);
      }
    }

    lemma FrontIsCurrent(p: nat)
      requires Fixed() && HeapHolds() && Heaped() && p < |merged|
      requires On(pos, current) && R(current, pos[current]) == p
      requires forall c :: 0 <= c < |children| && c != current ==> ChildPlaced(c, pos[c], forward, p)
      ensures Valid()
    {
      RankOfChildren();
      assert ChildPlaced(current, pos[current], forward, p);
      TopIsRank(p);
      assert On(pos, heap[0]);
    }

    method TurnReverse()
      requires Valid() && current < |children| && forward
      modifies this
      ensures Valid() && !forward && current == old(current) && current < |children| && Position() == old(Position())
    {
      ghost var p := Position();
      var key := children[current][pos[current]];
      KeyRank(p);
      RankOfChildren();
      for c := 0 to |children|
        invariant Fixed() && InRange(pos) && |comparisons| == |children| && forward
        invariant current == old(current) && pos[current] == old(pos[current]) && R(current, pos[current]) == p
        invariant forall d :: 0 <= d < c && d != current ==> ChildUpTo(d, pos[d], p)
      {
        if c != current {
          ChildSeeks(c, key, p);
          var k := LowerBound(children[c], key);
          ChildStepsBack(c, k, p);
          pos := pos[c := StepBack(c, k)];
        }
      }
      forward := false;
      ReinitializeComparisons();
      FrontIsCurrent(p);
    }

    /** Past the end goes to the last entry, the first entry to no entry, any other one back. */
    function StepBack(c: nat, k: nat): nat
      requires c < |children| && k <= |children[c]|
    {
      if k < |children[c]| then (if k == 0 then |children[c]| else k - 1)
      else if |children[c]| == 0 then 0 else |children[c]| - 1
    }

    lemma ChildStepsBack(c: nat, k: nat, p: nat)
      requires Fixed() && c < |children| && k <= |children[c]| && ChildFrom(c, k, p)
      requires forall i :: 0 <= i < |children[c]| ==> R(c, i) != p
      ensures StepBack(c, k) <= |children[c]| && ChildUpTo(c, StepBack(c, k), p)
    {
      RankOfChildren();
    }

    method Next()
      requires Valid() && current < |children|
      modifies this
      ensures Valid() && Position() == CursorStep(merged, old(Position()), Op.Next)
    {
      if !forward {
        TurnForward();
      }
      Advance();
    }

    method Prev()
      requires Valid() && current < |children|
      modifies this
      ensures Valid() && Position() == CursorStep(merged, old(Position()), Op.Prev)
    {
      if forward {
        TurnReverse();
      }
      Advance();
    }

    constructor (children: seq<seq<Entry>>, keyNum: Entry -> nat)
      requires Mergeable(children) && forall a, b :: EntryBefore(a, b) ==> keyNum(a) <= keyNum(b)
      ensures Valid() && Position() == |merged| && this.children == children
      ensures MergeOf(merged, children)
    {
      MergeAllIsMerge(children);
      this.children, this.keyNum, merged := children, keyNum, MergeAll(children);
      pos := seq(|children|, c requires 0 <= c < |children| => |children[c]|);
      comparisons := seq(|children|, _ => 0);
      heap, current, forward := [], |children|, true;
    }

    /** The current child's entry, if there is a current child. */
    ghost function Showing(): Option<Entry>
      requires Valid()
      reads this
    {
      if current < |children| then Some(children[current][pos[current]]) else None
    }

    lemma ShowsPosition()
      requires Valid()
      ensures Showing() == At(merged, Position())
    {
    }

    method Move(op: Op<Entry>)
      requires Valid()
      modifies this
      ensures Valid() && Position() == CursorStep(merged, old(Position()), op)
    {
      match op {
        case Seek(t) => Seek(t);
        case SeekToFirst => SeekToFirst();
        case SeekToLast => SeekToLast();
        case Next => if current < |children| { Next(); }
        case Prev => if current < |children| { Prev(); }
      }
    }

    /** One call by a client, which makes Next and Prev only on a valid iterator. */
    method Step(op: Op<Entry>) returns (shown: Option<Entry>)
      requires Valid()
      modifies this
      ensures Valid() && Position() == CursorStep(merged, old(Position()), op)
      ensures shown == Showing() && ShowsMove(children, old(Showing()), op, shown)
    {
      ShowsPosition();
      ghost var k := Position();
      shown := MoveAndShow(op);
      ShowsPosition();
      StepShows(merged, children, k, op);
    }

    method MoveAndShow(op: Op<Entry>) returns (shown: Option<Entry>)
      requires Valid()
      modifies this
      ensures Valid() && Position() == CursorStep(merged, old(Position()), op)
      ensures shown == Showing() == At(merged, Position())
    {
      Move(op);
      ShowsPosition();
      shown := None;
      if current < |children| {
        var e := Current();
        shown := Some(e);
      }
    }

    /** Key and value: the current child's entry is the merge's entry at the position. */
    method Current() returns (e: Entry)
      requires Valid() && current < |children|
      ensures Position() < |merged| && e == merged[Position()] && Showing() == Some(e)
    {
      e := children[current][pos[current]];
    }

    /** Any run of calls shows, call after call, what the plain cursor over the merge shows. */
    method Run(ops: seq<Op<Entry>>) returns (trace: seq<Option<Entry>>)
      requires Valid()
      modifies this
      ensures Valid() && trace == CursorTrace(merged, old(Position()), ops)
      ensures AllShow(MoveIn(children), old(Showing()), ops, trace)
    {
      ghost var start := Position();
      ShowsPosition();
      trace := Trace(ops);
      TraceShows(merged, children, start, ops);
    }

    method Trace(ops: seq<Op<Entry>>) returns (trace: seq<Option<Entry>>)
      requires Valid()
      modifies this
      ensures Valid() && trace == CursorTrace(merged, old(Position()), ops)
    {
      ghost var start := Position();
      trace := [];
      for n := 0 to |ops|
        invariant Valid()
        invariant CursorTrace(merged, start, ops) == trace + CursorTrace(merged, Position(), ops[n..])
      {
        var shown := MoveAndShow(ops[n]);
        assert ops[n..][1..] == ops[n + 1..];
        trace := trace + [shown];
      }
    }
  }

  function CursorTrace(merged: seq<Entry>, k: nat, ops: seq<Op<Entry>>): (r: seq<Option<Entry>>)
    requires k <= |merged|
    decreases |ops|
  {
    if |ops| == 0 then []
    else
      var k' := CursorStep(merged, k, ops[0]);
      [At(merged, k')] + CursorTrace(merged, k', ops[1..])
  }

  lemma {:induction false} TraceShows(merged: seq<Entry>, children: seq<seq<Entry>>, k: nat, ops: seq<Op<Entry>>)
    requires MergeOf(merged, children) && k <= |merged|
    ensures var trace := CursorTrace(merged, k, ops);
            |trace| == |ops| && AllShow(MoveIn(children), At(merged, k), ops, trace)
    decreases |ops|
  {
    if |ops| > 0 {
      StepShows(merged, children, k, ops[0]);
      TraceShows(merged, children, CursorStep(merged, k, ops[0]), ops[1..]);
      OneMoreShows(MoveIn(children), At(merged, k), ops, CursorTrace(merged, k, ops));
    }
  }
}
