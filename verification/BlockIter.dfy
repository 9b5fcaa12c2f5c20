/** Block::Iter: a two-way cursor over a finished block. */
module BlockIter {
  import opened Blocks
  import opened Cursor
  import opened Keys
  import Crc

  // ---------- A block that can be read ----------

  /** Entry i is read from its place. */
  ghost predicate Decodes(body: Bytes, es: seq<Pair>, lay: Layout, i: nat)
    requires i < |es| && |lay.offs| == |es| + 1 && |lay.shared| == |es|
  {
    var key, n := es[i].key, lay.shared[i];
    && n <= |key| && n <= |KeyBefore(es, i)| && KeyBefore(es, i)[..n] == key[..n]
    && DecodeEntry(body, lay.offs[i]) == Some(Decoded(n, key[n..], es[i].value, lay.offs[i + 1]))
  }

  ghost predicate PointsTo(data: Bytes, restarts: nat, lay: Layout, k: nat)
    requires k < |lay.heads| && restarts + 4 * |lay.heads| <= |data|
  {
    lay.heads[k] < |lay.offs| && RestartPoint(data, restarts, k) == lay.offs[lay.heads[k]]
  }

  ghost predicate OffsetsRise(offs: seq<nat>) {
    forall i, j :: 0 <= i < j < |offs| ==> offs[i] < offs[j]
  }

  ghost predicate Readable(data: Bytes, restarts: nat, es: seq<Pair>, lay: Layout) {
    && restarts + 4 * |lay.heads| <= |data|
    && Shaped(es, lay, restarts) && OffsetsRise(lay.offs)
    && (forall i :: 0 <= i < |es| ==> Decodes(data[..restarts], es, lay, i))
    && (forall k :: 0 <= k < |lay.heads| && lay.heads[k] < |es| ==> lay.shared[lay.heads[k]] == 0)
    && (forall k :: 0 <= k < |lay.heads| ==> PointsTo(data, restarts, lay, k))
  }

  lemma EntryGrows(data: Bytes, es: seq<Pair>, lay: Layout, i: nat)
    requires Laid(data, es, lay) && i < |es|
    ensures lay.shared[i] <= |es[i].key|
    ensures lay.offs[i] + (|es[i].key| - lay.shared[i]) + |es[i].value| < lay.offs[i + 1]
  {
    assert EntryAt(data, es, lay, i);
  }

  lemma {:induction false} OffsetsRising(data: Bytes, es: seq<Pair>, lay: Layout, i: nat, j: nat)
    requires Laid(data, es, lay) && i < j <= |es|
    ensures lay.offs[i] < lay.offs[j]
  {
    EntryGrows(data, es, lay, j - 1);
    if i < j - 1 {
      OffsetsRising(data, es, lay, i, j - 1);
    }
  }

  /** No key is longer than the bytes written up to its entry's end. */
  lemma {:induction false} KeysFit(data: Bytes, es: seq<Pair>, lay: Layout, i: nat)
    requires Laid(data, es, lay) && i < |es|
    ensures |es[i].key| <= lay.offs[i + 1]
  {
    EntryGrows(data, es, lay, i);
    assert EntryAt(data, es, lay, i);
    if i > 0 {
      KeysFit(data, es, lay, i - 1);
    }
  }

  lemma EntryDecodes(data: Bytes, es: seq<Pair>, lay: Layout, i: nat)
    requires Laid(data, es, lay) && i < |es| && |data| < Crc.WORD
    ensures Decodes(data, es, lay, i)
  {
    assert EntryAt(data, es, lay, i);
    var n := lay.shared[i];
    EntryGrows(data, es, lay, i);
    KeysFit(data, es, lay, i);
    if i + 1 < |es| {
      OffsetsRising(data, es, lay, i + 1, |es|);
    }
    EntryRead(data, lay.offs[i], n, es[i].key[n..], es[i].value);
  }

  /** A finished block can be read. */
  lemma FinishedIsReadable(buffer: Bytes, restarts: seq<nat>, es: seq<Pair>, lay: Layout)
    requires Laid(buffer, es, lay) && RestartsAt(restarts, lay.heads, lay.offs) && Fits(buffer, restarts)
    ensures Readable(Contents(buffer, restarts), |buffer|, es, lay)
  {
    var data := Contents(buffer, restarts);
    OpensFinished(buffer, restarts);
    forall i | 0 <= i < |es| ensures Decodes(data[..|buffer|], es, lay, i) {
      EntryDecodes(buffer, es, lay, i);
    }
    forall i, j | 0 <= i < j < |lay.offs| ensures lay.offs[i] < lay.offs[j] {
      OffsetsRising(buffer, es, lay, i, j);
    }
    forall k | 0 <= k < |lay.heads| ensures PointsTo(data, |buffer|, lay, k) {
      PointFound(buffer, restarts, k);
    }
  }

  // ---------- The iterator ----------

  ghost predicate Linked(a: Bytes, b: Bytes, c: Bytes) { true }

  /** For use where Linked is asserted. */
  ghost predicate Transitive(before: (Bytes, Bytes) -> bool) {
    forall a: Bytes, b: Bytes, c: Bytes {:trigger Linked(a, b, c)} :: before(a, b) && before(b, c) ==> before(a, c)
  }

  ghost predicate InOrder(before: (Bytes, Bytes) -> bool, es: seq<Pair>) {
    Transitive(before) && forall i, j :: 0 <= i < j < |es| ==> before(es[i].key, es[j].key)
  }

  /** The restart point to go back to from entry i: the last one at or before it, or one before that. */
  ghost predicate HeadFor(lay: Layout, k: nat, i: nat) {
    && k < |lay.heads| && lay.heads[k] <= i && (k + 1 < |lay.heads| ==> lay.heads[k + 1] >= i)
  }

  class Iter {
    const data: Bytes
    const restarts: nat
    const num: nat
    const before: (Bytes, Bytes) -> bool
    ghost const es: seq<Pair>
    ghost const lay: Layout
    var current: nat
    var restartIndex: nat
    var key: Bytes
    var value: Bytes
    var next: nat              // where the entry after the current one starts
    ghost var pos: nat

    /** The cursor is on entry i. */
    ghost predicate On(i: nat)
      reads this
    {
      && i < |es| && |lay.offs| == |es| + 1
      && current == lay.offs[i] && next == lay.offs[i + 1] && key == es[i].key && value == es[i].value
      && HeadFor(lay, restartIndex, i)
    }

    ghost predicate Good()
    {
      Readable(data, restarts, es, lay) && num == |lay.heads| && InOrder(before, es)
    }

    ghost predicate Valid()
      reads this
    {
      && Good() && pos <= |es|
      && if pos < |es| then On(pos) else current == restarts
    }

    constructor (data: Bytes, restarts: nat, num: nat, before: (Bytes, Bytes) -> bool,
                 ghost es: seq<Pair>, ghost lay: Layout)
      requires Readable(data, restarts, es, lay) && num == |lay.heads| && InOrder(before, es)
      ensures Valid() && pos == |es| && this.es == es && this.before == before
    {
      this.data, this.restarts, this.num, this.before := data, restarts, num, before;
      this.es, this.lay := es, lay;
      current, restartIndex, key, value, next := restarts, num, [], [], 0;
      pos := |es|;
    }

    function Point(k: nat): (p: nat)
      requires Good() && k < num
      ensures lay.heads[k] < |lay.offs| && p == lay.offs[lay.heads[k]]
    {
      assert PointsTo(data, restarts, lay, k);
      RestartPoint(data, restarts, k)
    }

    /** The key so far is enough to go on to entry j. */
    ghost predicate Ready(j: nat)
      reads this
    {
      && j <= |es| && |lay.offs| == |es| + 1 && |lay.shared| == |es| && next == lay.offs[j]
      && restartIndex < |lay.heads| && lay.heads[restartIndex] <= j
      && (j < |es| ==> lay.shared[j] <= |key| && lay.shared[j] <= |es[j].key|
                       && key[..lay.shared[j]] == es[j].key[..lay.shared[j]])
    }

    method SeekToRestartPoint(k: nat)
      requires Good() && k < num
      modifies this`key, this`restartIndex, this`value, this`next
      ensures Ready(lay.heads[k]) && restartIndex == k
    {
      key := [];
      restartIndex := k;
      value, next := [], Point(k);
    }

    /** Goes on to entry j, or off the end. */
    method ParseNextKey(ghost j: nat) returns (ok: bool)
      requires Good() && Ready(j)
      modifies this
      ensures ok <==> j < |es|
      ensures pos == j && Valid()
    {
      pos := j;
      current := next;
      if current >= restarts {
        OffEnd(lay.offs, |es|, j);
        current := restarts;
        restartIndex := num;
        return false;
      }
      LoadEntry(j);
      AdvanceRestart(j);
      ok := true;
    }

    /** Reads the entry at current, keeping as much of the key as it shares. */
    method LoadEntry(ghost j: nat)
      requires Good() && Ready(j) && j < |es| && current == next
      modifies this`key, this`value, this`next
      ensures Loaded(j)
    {
      assert Decodes(data[..restarts], es, lay, j);
      var entry := DecodeEntry(data[..restarts], current);
      if entry.None? || |key| < entry.value.shared {
        assert false;
      }
      Rejoined(key, es[j].key, entry.value.shared);
      key := key[..entry.value.shared] + entry.value.delta;
      value, next := entry.value.value, entry.value.next;
    }

    method AdvanceRestart(ghost j: nat)
      requires Good() && Loaded(j) && restartIndex < num && lay.heads[restartIndex] <= j
      modifies this`restartIndex
      ensures On(j)
    {
      while restartIndex + 1 < num && Point(restartIndex + 1) < current
        invariant restartIndex < num && lay.heads[restartIndex] <= j
        decreases num - restartIndex
      {
        PointBefore(lay, restartIndex + 1, j, |es|);
        restartIndex := restartIndex + 1;
      }
      if restartIndex + 1 < num {
        PointAfter(lay, restartIndex + 1, j, |es|);
      }
    }

    ghost predicate Loaded(i: nat)
      reads this
    {
      && i < |es| && |lay.offs| == |es| + 1
      && current == lay.offs[i] && next == lay.offs[i + 1] && key == es[i].key && value == es[i].value
    }

    /** On an entry, the cursor is ready for the one after it. */
    lemma ReadyForNext(i: nat)
      requires Good() && On(i)
      ensures Ready(i + 1)
    {
      if i + 1 < |es| {
        assert Decodes(data[..restarts], es, lay, i + 1);
      }
    }

    method Next()
      requires Valid() && pos < |es|
      modifies this
      ensures Valid() && pos == old(pos) + 1
    {
      ReadyForNext(pos);
      var _ := ParseNextKey(pos + 1);
    }

    /** Goes back to a restart point before the current entry and reads on up to the entry before it. */
    method Prev()
      requires Valid() && pos < |es|
      modifies this
      ensures Valid() && pos == if old(pos) == 0 then |es| else old(pos) - 1
    {
      var original := current;
      ghost var i := pos;
      while Point(restartIndex) >= original
        invariant restartIndex < num && lay.heads[restartIndex] <= i
        invariant unchanged(this`pos) && unchanged(this`current)
        decreases restartIndex
      {
        PointAfter(lay, restartIndex, i, |es|);
        if restartIndex == 0 {
          current := restarts;
          restartIndex := num;
          pos := |es|;
          return;
        }
        assert lay.heads[restartIndex - 1] < lay.heads[restartIndex];
        restartIndex := restartIndex - 1;
      }
      PointBefore(lay, restartIndex, i, |es|);
      SeekToRestartPoint(restartIndex);
      ScanTo(original, i - 1, lay.heads[restartIndex]);
    }

    /** Reads entries, from entry j on, until the one that ends at the given offset: entry i. */
    method ScanTo(end: nat, ghost i: nat, ghost j: nat)
      requires Good() && Ready(j) && j <= i && (|es| == 0 ==> i == 0)
      requires |es| > 0 ==> i < |es| && end == lay.offs[i + 1]
      modifies this
      ensures Valid() && pos == i
    {
      var more := ParseNextKey(j);
      while more && next < end
        invariant Valid() && j <= pos <= i && (more <==> |es| > 0)
        decreases i - pos
      {
        NotYet(lay.offs, pos, i);
        ReadyForNext(pos);
        more := ParseNextKey(pos + 1);
      }
      if more {
        EndsThere(lay.offs, pos, i);
      }
    }

    method SeekToFirst()
      requires Valid()
      modifies this
      ensures Valid() && pos == 0
    {
      SeekToRestartPoint(0);
      var _ := ParseNextKey(0);
    }

    method SeekToLast()
      requires Valid()
      modifies this
      ensures Valid() && pos == if |es| == 0 then 0 else |es| - 1
    {
      SeekToRestartPoint(num - 1);
      ScanTo(restarts, if |es| == 0 then 0 else |es| - 1, lay.heads[num - 1]);
    }

    /** Binary search for the last restart point whose key is before the target, or the first of all. */
    method FindRestart(target: Bytes) returns (left: nat)
      requires Good()
      ensures left < num && (lay.heads[left] > 0 ==> before(es[lay.heads[left]].key, target))
      ensures left == 0 || before(es[lay.heads[left]].key, target)
      ensures forall k :: left < k < num ==> !before(es[lay.heads[k]].key, target)
    {
      left := 0;
      var right := num - 1;
      while left < right
        invariant 0 <= left <= right < num
        invariant left == 0 || before(es[lay.heads[left]].key, target)
        invariant forall k :: right < k < num ==> !before(es[lay.heads[k]].key, target)
      {
        var mid := (left + right + 1) / 2;
        assert Decodes(data[..restarts], es, lay, lay.heads[mid]);
        var entry := DecodeEntry(data[..restarts], Point(mid));
        if entry.None? || entry.value.shared != 0 {
          assert false;
        }
        assert es[lay.heads[mid]].key[0..] == es[lay.heads[mid]].key;
        if before(entry.value.delta, target) {
          left := mid;
        } else {
          HeadsBeyond(mid, target);
          right := mid - 1;
        }
      }
    }

    lemma HeadsBeyond(mid: nat, target: Bytes)
      requires Good() && 0 < mid < num && !before(es[lay.heads[mid]].key, target)
      ensures forall k :: mid <= k < num ==> !before(es[lay.heads[k]].key, target)
    {
      forall k | mid < k < num ensures !before(es[lay.heads[k]].key, target) {
        assert before(es[lay.heads[mid]].key, es[lay.heads[k]].key);
        assert Linked(es[lay.heads[mid]].key, es[lay.heads[k]].key, target);
      }
    }

    /** Lands on the first entry whose key is not before the target. */
    method Seek(target: Bytes)
      requires Valid()
      modifies this
      ensures Valid() && IsLowerBound(before, es, target, pos)
    {
      var left := FindRestart(target);
      SeekToRestartPoint(left);
      ghost var head := lay.heads[left];
      BeforeHead(head, target);
      ScanFor(target, head);
    }

    method ScanFor(target: Bytes, ghost head: nat)
      requires Good() && Ready(head) && forall i :: 0 <= i < head ==> before(es[i].key, target)
      modifies this
      ensures Valid() && IsLowerBound(before, es, target, pos)
    {
      var more := ParseNextKey(head);
      while more && before(key, target)
        invariant Valid() && (more <==> pos < |es|)
        invariant forall i :: 0 <= i < pos ==> before(es[i].key, target)
        decreases |es| - pos
      {
        ReadyForNext(pos);
        more := ParseNextKey(pos + 1);
      }
    }

    lemma BeforeHead(head: nat, target: Bytes)
      requires Good() && (head > 0 ==> head < |es| && before(es[head].key, target))
      ensures forall i :: 0 <= i < head ==> before(es[i].key, target)
    {
      forall i | 0 <= i < head ensures before(es[i].key, target) {
        assert before(es[i].key, es[head].key);
        assert Linked(es[i].key, es[head].key, target);
      }
    }

    method Step(op: Op<Bytes>)
      requires Valid() && (op.Next? || op.Prev? ==> pos < |es|)
      modifies this
      ensures Valid() && CursorStep(before, es, old(pos), op, pos)
    {
      match op
      case Seek(target) => Seek(target);
      case SeekToFirst => SeekToFirst();
      case SeekToLast => SeekToLast();
      case Next => Next();
      case Prev => Prev();
    }

    /** Valid() of the source. */
    lemma CurrentTells()
      requires Valid()
      ensures current < restarts <==> pos < |es|
    {
    }

    /** Makes a move, if it can be made, and shows the entry it leads to. */
    method Do(op: Op<Bytes>) returns (shown: Option<Pair>)
      requires Valid()
      modifies this
      ensures Valid() && MovesTo(before, es, op, old(pos), pos, shown)
    {
      CurrentTells();
      if current < restarts || !(op.Next? || op.Prev?) {
        Step(op);
      }
      CurrentTells();
      shown := if current < restarts then Some(Pair(key, value)) else None;
    }
  }

  // ---------- A plain cursor over the entries ----------

  /** Position i, counting from 0, with the number of entries for "not valid". */
  ghost predicate IsLowerBound(before: (Bytes, Bytes) -> bool, es: seq<Pair>, target: Bytes, i: nat) {
    && i <= |es| && (forall j :: 0 <= j < i ==> before(es[j].key, target))
    && (i < |es| ==> !before(es[i].key, target))
  }

  ghost predicate CursorStep(before: (Bytes, Bytes) -> bool, es: seq<Pair>, i: nat, op: Op<Bytes>, i': nat) {
    if op.Seek? then IsLowerBound(before, es, op.target, i') else i <= |es| && i' == Moved(|es|, i, op, 0)
  }

  ghost predicate MovesTo(before: (Bytes, Bytes) -> bool, es: seq<Pair>, op: Op<Bytes>, i: nat, i': nat,
                        shown: Option<Pair>) {
    CursorStep(before, es, i, op, i') && shown == if i' < |es| then Some(es[i']) else None
  }

  /**
   * Finishes a block built with any restart interval and drives an iterator over it: it shows, move after move,
   * what a plain cursor over the entries would. A move that needs a current entry is left out when there is none.
   */
  method Run(b: BlockBuilder, before: (Bytes, Bytes) -> bool, ops: seq<Op<Bytes>>)
      returns (shown: seq<Option<Pair>>, ghost trace: seq<nat>)
    requires b.Valid() && Fits(b.buffer, b.restarts) && InOrder(before, b.es)
    ensures |shown| == |ops| && |trace| == |ops| + 1 && trace[0] == |b.es|
    ensures forall k :: 0 <= k < |ops| ==> MovesTo(before, b.es, ops[k], trace[k], trace[k + 1], shown[k])
  {
    var data := b.Finish();
    OpensFinished(b.buffer, b.restarts);
    FinishedIsReadable(b.buffer, b.restarts, b.es, b.lay);
    var (restarts, num) := Open(data).value;
    var it := new Iter(data, restarts, num, before, b.es, b.lay);
    shown, trace := [], [|b.es|];
    for k := 0 to |ops|
      invariant fresh(it) && it.Valid() && it.es == b.es && it.before == before
      invariant |shown| == k && |trace| == k + 1 && trace[0] == |b.es| && trace[k] == it.pos
      invariant forall j :: 0 <= j < k ==> MovesTo(before, b.es, ops[j], trace[j], trace[j + 1], shown[j])
    {
      var show := it.Do(ops[k]);
      shown, trace := shown + [show], trace + [it.pos];
    }
  }

  lemma NotYet(offs: seq<nat>, p: nat, i: nat)
    requires p <= i && i + 1 < |offs| && offs[p + 1] < offs[i + 1]
    ensures p < i
  {
  }

  lemma EndsThere(offs: seq<nat>, p: nat, i: nat)
    requires OffsetsRise(offs) && p <= i && i + 1 < |offs| && offs[p + 1] >= offs[i + 1]
    ensures p == i
  {
  }

  lemma OffEnd(offs: seq<nat>, n: nat, j: nat)
    requires OffsetsRise(offs) && |offs| == n + 1 && j <= n && offs[j] >= offs[n]
    ensures j == n
  {
  }

  lemma PointBefore(lay: Layout, k: nat, j: nat, n: nat)
    requires OffsetsRise(lay.offs) && |lay.offs| == n + 1 && k < |lay.heads| && lay.heads[k] <= n && j <= n
    requires lay.offs[lay.heads[k]] < lay.offs[j]
    ensures lay.heads[k] < j
  {
  }

  lemma PointAfter(lay: Layout, k: nat, j: nat, n: nat)
    requires OffsetsRise(lay.offs) && |lay.offs| == n + 1 && k < |lay.heads| && lay.heads[k] <= n && j <= n
    requires lay.offs[lay.heads[k]] >= lay.offs[j]
    ensures lay.heads[k] >= j
  {
  }
}
