/**
 * Tables: shortened index keys between blocks, and a lookup that opens one block. Blocks are lists of entries here;
 * how a block stores and searches them is in modules Blocks and BlockIter.
 */
module Table {
  import opened Guards
  import opened Keys

  // ---------- Separators ----------

  lemma {:induction false} LessAt(a: Bytes, b: Bytes, n: nat)
    requires n <= |a| && n < |b| && a[..n] == b[..n]
    requires n == |a| || a[n] < b[n]
    ensures Less(a, b)
  {
    if n > 0 {
      assert a[0] == a[..n][0] == b[..n][0] == b[0];
      assert a[1..][..n - 1] == a[..n][1..] && b[1..][..n - 1] == b[..n][1..];
      LessAt(a[1..], b[1..], n - 1);
    }
  }

  /** The keys differ at d and not before it. */
  predicate DifferAt(a: Bytes, b: Bytes, d: int) {
    0 <= d < |a| && d < |b| && a[..d] == b[..d] && a[d] != b[d]
  }

  /** The first d bytes, the last of them one up. */
  function Raised(key: Bytes, d: nat): Bytes
    requires d < |key| && key[d] < 0xFF
  {
    key[..d] + [key[d] + 1]
  }

  lemma SameBefore(a: Bytes, b: Bytes, n: nat, i: nat)
    requires i < n <= |a| && n <= |b| && a[..n] == b[..n]
    ensures a[i] == b[i]
  {
    assert a[..n][i] == b[..n][i];
  }

  lemma DifferOnce(a: Bytes, b: Bytes, d: nat, e: nat)
    requires DifferAt(a, b, d) && DifferAt(a, b, e)
    ensures d == e
  {
    if d < e {
      SameBefore(a, b, e, d);
    } else if e < d {
      SameBefore(a, b, d, e);
    }
  }

  /** BytewiseComparator::FindShortestSeparator: start, cut and raised by one where the two first differ if that stays
      below limit. It is not before start, and, if it changed at all, between the two. */
  method ShortestSeparator(start: Bytes, limit: Bytes) returns (r: Bytes)
    ensures r == start || (Less(start, r) && Less(r, limit) && |r| <= |start|)
    ensures forall d :: DifferAt(start, limit, d) ==>
              r == if start[d] < 0xFF && start[d] + 1 < limit[d] then Raised(start, d) else start
  {
    var diff := 0;
    while diff < |start| && diff < |limit| && start[diff] == limit[diff]
      invariant diff <= |start| && diff <= |limit| && start[..diff] == limit[..diff]
    {
      diff := diff + 1;
    }
    r := start;
    if diff < |start| && diff < |limit| && start[diff] < 0xFF && start[diff] + 1 < limit[diff] {
      r := Raised(start, diff);
      LessAt(start, r, diff);
      LessAt(r, limit, diff);
    }
    forall d | DifferAt(start, limit, d)
      ensures r == if start[d] < 0xFF && start[d] + 1 < limit[d] then Raised(start, d) else start
    {
      if diff < |start| && diff < |limit| {
        DifferOnce(start, limit, d, diff);
      } else {
        SameBefore(start, limit, diff, d);
      }
    }
  }

  /** Byte i is the first that can be raised. */
  predicate FirstRaisable(key: Bytes, i: int) {
    0 <= i < |key| && key[i] != 0xFF && forall j :: 0 <= j < i ==> key[j] == 0xFF
  }

  /** BytewiseComparator::FindShortSuccessor: the same key or a later one, cut and raised where it first can be. */
  method ShortSuccessor(key: Bytes) returns (r: Bytes)
    ensures r == key || Less(key, r)
    ensures forall i :: FirstRaisable(key, i) ==> r == Raised(key, i)
  {
    for i := 0 to |key|
      invariant forall j :: 0 <= j < i ==> key[j] == 0xFF
    {
      if key[i] != 0xFF {
        r := Raised(key, i);
        LessAt(key, r, i);
        return;
      }
    }
    r := key;
  }

  /** The tag that sorts first among a user key's entries. */
  const SEEK_TAG: nat := Tag(MAX_SEQUENCE, VALUE)

  /** A key at or after start; if it is not start itself, its user key lies strictly between the two. */
  ghost predicate Separates(start: InternalKey, limit: InternalKey, r: InternalKey) {
    r == start || (Less(start.user, r.user) && Less(r.user, limit.user))
  }

  /** InternalKeyComparator::FindShortestSeparator. */
  method Separator(start: InternalKey, limit: InternalKey) returns (r: InternalKey)
    ensures Separates(start, limit, r)
    ensures forall d :: DifferAt(start.user, limit.user, d) && start.user[d] < 0xFF && start.user[d] + 1 < limit.user[d]
              ==> r == if d + 1 < |start.user| then InternalKey(Raised(start.user, d), SEEK_TAG) else start
  {
    var tmp := ShortestSeparator(start.user, limit.user);
    r := if |tmp| < |start.user| && Less(start.user, tmp) then InternalKey(tmp, SEEK_TAG) else start;
    LessIrreflexive(start.user);
  }

  /** InternalKeyComparator::FindShortSuccessor. */
  method Successor(key: InternalKey) returns (r: InternalKey)
    ensures r == key || Less(key.user, r.user)
    ensures forall i :: FirstRaisable(key.user, i) ==>
              r == if i + 1 < |key.user| then InternalKey(Raised(key.user, i), SEEK_TAG) else key
  {
    var tmp := ShortSuccessor(key.user);
    r := if |tmp| < |key.user| && Less(key.user, tmp) then InternalKey(tmp, SEEK_TAG) else key;
  }

  // ---------- Building a table ----------

  function KeyOf(e: Entry): InternalKey {
    InternalKey(e.user, Tag(e.seqno, e.kind))
  }

  /** The entries of the first n blocks. */
  function Flat(blocks: seq<seq<Entry>>, n: nat): seq<Entry>
    requires n <= |blocks|
  {
    if n == 0 then [] else Flat(blocks, n - 1) + blocks[n - 1]
  }

  lemma {:induction false} FlatPrefix(blocks: seq<seq<Entry>>, more: seq<Entry>, n: nat)
    requires n <= |blocks|
    ensures Flat(blocks + [more], n) == Flat(blocks, n)
  {
    if n > 0 {
      FlatPrefix(blocks, more, n - 1);
    }
  }

  function LastKey(block: seq<Entry>): InternalKey
    requires |block| > 0
  {
    KeyOf(block[|block| - 1])
  }

  /** The key of the first entry after block i: in the next block, or in the block still open. */
  function KeyAfter(blocks: seq<seq<Entry>>, open: seq<Entry>, i: nat): InternalKey {
    if i + 1 < |blocks| && |blocks[i + 1]| > 0 then KeyOf(blocks[i + 1][0])
    else if |open| > 0 then KeyOf(open[0]) else InternalKey([], 0)
  }

  ghost predicate SeparatedAt(blocks: seq<seq<Entry>>, open: seq<Entry>, index: seq<InternalKey>, i: nat) {
    && i < |index| && i < |blocks| && |blocks[i]| > 0
    && Separates(LastKey(blocks[i]), KeyAfter(blocks, open, i), index[i])
  }

  /** The index keys so far separate each block from the entry after it. */
  ghost predicate Indexed(blocks: seq<seq<Entry>>, open: seq<Entry>, index: seq<InternalKey>) {
    && |index| <= |blocks| && (forall i :: 0 <= i < |blocks| ==> |blocks[i]| > 0)
    && (0 < |index| == |blocks| ==> |open| > 0)
    && (forall i :: 0 <= i < |index| ==> SeparatedAt(blocks, open, index, i))
  }

  lemma OpenGrows(blocks: seq<seq<Entry>>, open: seq<Entry>, index: seq<InternalKey>, e: Entry)
    requires Indexed(blocks, open, index)
    ensures Indexed(blocks, open + [e], index)
  {
    forall i | 0 <= i < |index| ensures SeparatedAt(blocks, open + [e], index, i) {
      assert SeparatedAt(blocks, open, index, i);
    }
  }

  lemma KeyAdded(blocks: seq<seq<Entry>>, index: seq<InternalKey>, e: Entry, key: InternalKey)
    requires Indexed(blocks, [], index) && |blocks| == |index| + 1
    requires Separates(LastKey(blocks[|index|]), KeyOf(e), key)
    ensures Indexed(blocks, [e], index + [key])
  {
    forall i | 0 <= i < |index| + 1 ensures SeparatedAt(blocks, [e], index + [key], i) {
      assert i < |index| ==> SeparatedAt(blocks, [], index, i);
    }
  }

  lemma BlockClosed(blocks: seq<seq<Entry>>, open: seq<Entry>, index: seq<InternalKey>)
    requires Indexed(blocks, open, index) && |index| == |blocks| && |open| > 0
    ensures Indexed(blocks + [open], [], index)
  {
    forall i | 0 <= i < |index| ensures SeparatedAt(blocks + [open], [], index, i) {
      assert SeparatedAt(blocks, open, index, i);
    }
  }

  /** The block became full with its last entry. */
  ghost predicate FilledLast(full: seq<Entry> -> bool, block: seq<Entry>) {
    |block| > 0 && full(block) && NotYetFull(full, block[..|block| - 1])
  }

  /** The block was not full after any of its entries. */
  ghost predicate NotYetFull(full: seq<Entry> -> bool, block: seq<Entry>) {
    forall n :: 0 < n <= |block| ==> !full(block[..n])
  }

  /** Of the first n blocks each was closed as soon as it was full. */
  ghost predicate WellCut(full: seq<Entry> -> bool, blocks: seq<seq<Entry>>, n: int) {
    n <= |blocks| && forall i :: 0 <= i < n ==> FilledLast(full, blocks[i])
  }

  lemma OneMoreEntry(full: seq<Entry> -> bool, block: seq<Entry>, e: Entry)
    requires NotYetFull(full, block)
    ensures if full(block + [e]) then FilledLast(full, block + [e]) else NotYetFull(full, block + [e])
  {
    assert (block + [e])[..|block|] == block;
    forall n | 0 < n <= |block| ensures !full((block + [e])[..n]) {
      assert (block + [e])[..n] == block[..n];
    }
    assert (block + [e])[..|block| + 1] == block + [e];
  }

  class TableBuilder {
    const full: seq<Entry> -> bool
    var lastKey: InternalKey
    var pending: bool
    var block: seq<Entry>
    var blocks: seq<seq<Entry>>
    var index: seq<InternalKey>
    ghost var all: seq<Entry>

    ghost predicate Valid()
      reads this
    {
      && all == Flat(blocks, |blocks|) + block
      && |blocks| == |index| + (if pending then 1 else 0) && (pending ==> block == [])
      && Indexed(blocks, block, index) && (pending ==> lastKey == LastKey(blocks[|blocks| - 1]))
      && (block != [] ==> lastKey == LastKey(block))
    }

    /** Every block so far was closed as soon as it was full, and the open one is not full. */
    ghost predicate Cut()
      reads this
    {
      WellCut(full, blocks, |blocks|) && NotYetFull(full, block)
    }

    constructor (full: seq<Entry> -> bool)
      ensures Valid() && Cut() && all == [] && this.full == full
    {
      this.full := full;
      lastKey, pending, block, blocks, index, all := InternalKey([], 0), false, [], [], [], [];
    }

    method Add(e: Entry)
      requires Valid()
      modifies this
      ensures Valid() && all == old(all) + [e]
      ensures old(Cut()) ==> Cut()
    {
      if Cut() { OneMoreEntry(full, block, e); }
      Take(e);
      if full(block) {
        Flush();
      }
    }

    /** The part of Add before the block is closed. */
    method Take(e: Entry)
      requires Valid()
      modifies this
      ensures Valid() && all == old(all) + [e] && block == old(block) + [e] && blocks == old(blocks)
    {
      if pending {
        var key := Separator(lastKey, KeyOf(e));
        KeyAdded(blocks, index, e, key);
        index := index + [key];
        pending := false;
        assert block + [e] == [e];
      } else {
        OpenGrows(blocks, block, index, e);
      }
      lastKey := KeyOf(e);
      all := all + [e];
      assert Flat(blocks, |blocks|) + (block + [e]) == Flat(blocks, |blocks|) + block + [e];
      block := block + [e];
    }

    method Flush()
      requires Valid()
      modifies this
      ensures Valid() && all == old(all) && block == []
      ensures blocks == if old(block) == [] then old(blocks) else old(blocks) + [old(block)]
    {
      if block != [] {
        FlatPrefix(blocks, block, |blocks|);
        BlockClosed(blocks, block, index);
        assert Flat(blocks + [block], |blocks| + 1) + [] == Flat(blocks, |blocks|) + block;
        blocks := blocks + [block];
        block := [];
        pending := true;
      }
    }

    /** The blocks and their index keys; the last block's key is a successor of its last entry's. */
    method Finish()
      requires Valid()
      modifies this
      ensures all == old(all) == Flat(blocks, |blocks|)
      ensures Searchable(blocks, index)
      ensures old(Cut()) ==> WellCut(full, blocks, |blocks| - 1)
    {
      Flush();
      assert Flat(blocks, |blocks|) + [] == Flat(blocks, |blocks|);
      if pending {
        var key := Successor(lastKey);
        ghost var before := index;
        index := index + [key];
        forall i | 0 <= i < |blocks| - 1 ensures SeparatedAt(blocks, [], index, i) {
          assert SeparatedAt(blocks, [], before, i);
        }
      }
    }
  }

  /** Every block has an index key: it separates it from the next, or, for the last block, is not before its end. */
  ghost predicate Searchable(blocks: seq<seq<Entry>>, index: seq<InternalKey>) {
    && |index| == |blocks| && (forall i :: 0 <= i < |blocks| ==> |blocks[i]| > 0)
    && (forall i :: 0 <= i < |blocks| - 1 ==> SeparatedAt(blocks, [], index, i))
    && (|blocks| > 0 ==>
          var last := LastKey(blocks[|blocks| - 1]);
          index[|blocks| - 1] == last || Less(last.user, index[|blocks| - 1].user))
  }

  // ---------- Looking up a key ----------

  /** The index keys of a sorted table are in strict order, as a block's binary search needs them. */
  lemma IndexAscends(blocks: seq<seq<Entry>>, index: seq<InternalKey>, i: nat, j: nat)
    requires Searchable(blocks, index) && Sorted(Flat(blocks, |blocks|)) && i < j < |blocks|
    ensures KeyBefore(index[i], index[j])
  {
    var first, last := KeyOf(blocks[i + 1][0]), LastKey(blocks[j]);
    IndexBeforeNext(blocks, index, i);
    if i + 1 < j || |blocks[j]| > 1 {
      AcrossBlocks(blocks, i + 1, 0, j, |blocks[j]| - 1);
      KeyTransitive(index[i], first, last);
    }
    LastAtMostIndex(blocks, index, j);
    BeforeAtMost(index[i], last, index[j]);
  }

  lemma IndexBeforeNext(blocks: seq<seq<Entry>>, index: seq<InternalKey>, i: nat)
    requires Searchable(blocks, index) && Sorted(Flat(blocks, |blocks|)) && i + 1 < |blocks|
    ensures KeyBefore(index[i], KeyOf(blocks[i + 1][0]))
  {
    assert SeparatedAt(blocks, [], index, i);
    AcrossBlocks(blocks, i, |blocks[i]| - 1, i + 1, 0);
  }

  lemma BeforeAtMost(a: InternalKey, b: InternalKey, c: InternalKey)
    requires KeyBefore(a, b) && KeyAtMost(b, c)
    ensures KeyBefore(a, c)
  {
    KeyTrichotomy(b, c);
    if KeyBefore(b, c) {
      KeyTransitive(a, b, c);
    }
  }

  lemma {:induction false} FlatAt(blocks: seq<seq<Entry>>, n: nat, i: nat, m: nat)
    requires i < n <= |blocks| && m < |blocks[i]|
    ensures |Flat(blocks, i)| + |blocks[i]| <= |Flat(blocks, n)|
    ensures Flat(blocks, n)[|Flat(blocks, i)| + m] == blocks[i][m]
  {
    if i < n - 1 {
      FlatAt(blocks, n - 1, i, m);
    }
  }

  /** In a sorted table, entries are in order across blocks. */
  lemma AcrossBlocks(blocks: seq<seq<Entry>>, i: nat, m: nat, j: nat, n: nat)
    requires Sorted(Flat(blocks, |blocks|)) && i < |blocks| && m < |blocks[i]| && j < |blocks| && n < |blocks[j]|
    requires i < j || (i == j && m < n)
    ensures EntryBefore(blocks[i][m], blocks[j][n])
  {
    FlatAt(blocks, |blocks|, i, m);
    FlatAt(blocks, |blocks|, j, n);
    if i < j {
      FlatAt(blocks, j, i, m);
    }
  }

  lemma AtMostBefore(a: InternalKey, b: InternalKey, c: InternalKey)
    requires KeyAtMost(a, b) && KeyBefore(b, c)
    ensures KeyBefore(a, c)
  {
    KeyTrichotomy(a, b);
    if KeyBefore(a, b) {
      KeyTransitive(a, b, c);
    }
  }

  /** Seek on a list of keys, as a block's iterator does it. */
  method SeekKey(keys: seq<InternalKey>, k: InternalKey) returns (i: nat)
    ensures i <= |keys| && (forall j :: 0 <= j < i ==> KeyBefore(keys[j], k))
    ensures i < |keys| ==> !KeyBefore(keys[i], k)
  {
    i := 0;
    while i < |keys| && KeyBefore(keys[i], k)
      invariant i <= |keys| && forall j :: 0 <= j < i ==> KeyBefore(keys[j], k)
    {
      i := i + 1;
    }
  }

  method SeekEntry(block: seq<Entry>, k: InternalKey) returns (i: nat)
    ensures i <= |block| && (forall j :: 0 <= j < i ==> KeyBefore(KeyOf(block[j]), k))
    ensures i < |block| ==> !KeyBefore(KeyOf(block[i]), k)
  {
    i := 0;
    while i < |block| && KeyBefore(KeyOf(block[i]), k)
      invariant i <= |block| && forall j :: 0 <= j < i ==> KeyBefore(KeyOf(block[j]), k)
    {
      i := i + 1;
    }
  }

  /** What is handed to the saver: the first entry at or after the key in the one block the index points to. */
  ghost predicate Handed(blocks: seq<seq<Entry>>, index: seq<InternalKey>, k: InternalKey, r: Option<Entry>) {
    exists i: nat :: HandedFrom(blocks, index, k, r, i)
  }

  ghost predicate HandedFrom(blocks: seq<seq<Entry>>, index: seq<InternalKey>, k: InternalKey, r: Option<Entry>, i: nat) {
    && |index| == |blocks| && i <= |index| && (forall j :: 0 <= j < i ==> KeyBefore(index[j], k))
    && (i < |index| ==> !KeyBefore(index[i], k))
    && match r
       case None => i < |blocks| ==> forall m :: 0 <= m < |blocks[i]| ==> KeyBefore(KeyOf(blocks[i][m]), k)
       case Some(e) =>
         && i < |blocks|
         && exists m :: FirstIn(blocks[i], k, m) && blocks[i][m] == e
  }

  ghost predicate FirstIn(es: seq<Entry>, k: InternalKey, m: int) {
    0 <= m < |es| && (forall j :: 0 <= j < m ==> KeyBefore(KeyOf(es[j]), k)) && !KeyBefore(KeyOf(es[m]), k)
  }

  method InternalGet(blocks: seq<seq<Entry>>, index: seq<InternalKey>, k: InternalKey) returns (r: Option<Entry>)
    requires |index| == |blocks|
    ensures Handed(blocks, index, k, r)
  {
    r := None;
    var i := SeekKey(index, k);
    if i < |index| {
      var m := SeekEntry(blocks[i], k);
      if m < |blocks[i]| {
        r := Some(blocks[i][m]);
        assert FirstIn(blocks[i], k, m);
      }
    }
    assert HandedFrom(blocks, index, k, r, i);
  }

  /** The last key of a block is at or before its index key. */
  lemma LastAtMostIndex(blocks: seq<seq<Entry>>, index: seq<InternalKey>, i: nat)
    requires Searchable(blocks, index) && i < |blocks|
    ensures KeyAtMost(LastKey(blocks[i]), index[i])
  {
    var last := LastKey(blocks[i]);
    if i < |blocks| - 1 {
      assert SeparatedAt(blocks, [], index, i);
    }
    KeyIrreflexive(last);
    if Less(last.user, index[i].user) && KeyBefore(index[i], last) {
      LessTransitive(last.user, index[i].user, last.user);
      LessIrreflexive(last.user);
    }
  }

  /** Blocks whose index keys are before the key lie wholly before it. */
  lemma BlockBefore(blocks: seq<seq<Entry>>, index: seq<InternalKey>, k: InternalKey, i: nat, m: nat)
    requires Searchable(blocks, index) && Sorted(Flat(blocks, |blocks|)) && i < |blocks| && m < |blocks[i]|
    requires KeyBefore(index[i], k)
    ensures KeyBefore(KeyOf(blocks[i][m]), k)
  {
    LastAtMostIndex(blocks, index, i);
    AtMostBefore(LastKey(blocks[i]), index[i], k);
    var n := |blocks[i]| - 1;
    if m < n {
      AcrossBlocks(blocks, i, m, i, n);
      KeyTransitive(KeyOf(blocks[i][m]), LastKey(blocks[i]), k);
    }
  }

  /** What is handed over from block i is the first entry of the whole table at or after the key. */
  lemma HandedIsFirst(blocks: seq<seq<Entry>>, index: seq<InternalKey>, k: InternalKey, r: Option<Entry>, i: nat)
    requires Searchable(blocks, index) && Sorted(Flat(blocks, |blocks|))
    requires HandedFrom(blocks, index, k, r, i) && r.Some?
    ensures exists j, m :: TableFirst(blocks, k, j, m) && blocks[j][m] == r.value
  {
    var m :| FirstIn(blocks[i], k, m) && blocks[i][m] == r.value;
    forall j, n | 0 <= j < i && 0 <= n < |blocks[j]| ensures KeyBefore(KeyOf(blocks[j][n]), k) {
      BlockBefore(blocks, index, k, j, n);
    }
    assert TableFirst(blocks, k, i, m);
  }

  /** The first entry of the table at or after the key. */
  ghost predicate TableFirst(blocks: seq<seq<Entry>>, k: InternalKey, j: int, m: int) {
    && 0 <= j < |blocks| && FirstIn(blocks[j], k, m)
    && forall i, n :: 0 <= i < j && 0 <= n < |blocks[i]| ==> KeyBefore(KeyOf(blocks[i][n]), k)
  }

  /** A key between a block and the next has a user key that none of the later entries has. */
  lemma BetweenBlocks(blocks: seq<seq<Entry>>, index: seq<InternalKey>, k: InternalKey, i: nat, j: nat, m: nat)
    requires Searchable(blocks, index) && Sorted(Flat(blocks, |blocks|))
    requires i < j < |blocks| && m < |blocks[j]|
    requires KeyBefore(LastKey(blocks[i]), k) && KeyAtMost(k, index[i])
    ensures blocks[j][m].user != k.user
  {
    assert SeparatedAt(blocks, [], index, i);
    var s, first := index[i], blocks[i + 1][0];
    assert s != LastKey(blocks[i]);
    assert Less(s.user, first.user);
    AtMostUser(k, s);
    if k.user != s.user {
      LessTransitive(k.user, s.user, first.user);
    }
    if i + 1 < j || 0 < m {
      AcrossBlocks(blocks, i + 1, 0, j, m);
    }
    if first.user != blocks[j][m].user {
      LessTransitive(k.user, first.user, blocks[j][m].user);
    }
    LessIrreflexive(k.user);
  }

  lemma AtMostUser(k: InternalKey, s: InternalKey)
    requires KeyAtMost(k, s)
    ensures k.user == s.user || Less(k.user, s.user)
  {
    LessTrichotomy(k.user, s.user);
  }

  /** When the first entry at or after the key is the sought user key's, the one block opened has it. */
  lemma OneBlockSuffices(blocks: seq<seq<Entry>>, index: seq<InternalKey>, k: InternalKey, r: Option<Entry>,
                         i: nat, j: nat, m: nat)
    requires Searchable(blocks, index) && Sorted(Flat(blocks, |blocks|)) && HandedFrom(blocks, index, k, r, i)
    requires TableFirst(blocks, k, j, m) && blocks[j][m].user == k.user
    ensures r == Some(blocks[j][m])
  {
    NotPast(blocks, index, k, i, j, m);
    if i < j {
      var n := |blocks[i]| - 1;
      assert KeyBefore(KeyOf(blocks[i][n]), k);
      BetweenBlocks(blocks, index, k, i, j, m);
    } else {
      assert i == j && !KeyBefore(KeyOf(blocks[i][m]), k);
      if r.Some? {
        var n :| FirstIn(blocks[i], k, n) && blocks[i][n] == r.value;
        assert n == m;
      }
    }
  }

  lemma NotPast(blocks: seq<seq<Entry>>, index: seq<InternalKey>, k: InternalKey, i: nat, j: nat, m: nat)
    requires Searchable(blocks, index) && Sorted(Flat(blocks, |blocks|)) && i <= |index|
    requires forall h :: 0 <= h < i ==> KeyBefore(index[h], k)
    requires TableFirst(blocks, k, j, m)
    ensures i <= j
  {
    if j < i {
      BlockBefore(blocks, index, k, j, m);
    }
  }

  // ---------- The newest entry a snapshot sees ----------

  /** The snapshot's lookup key is at or before the entry's key, if they have one user key. */
  predicate Visible(e: Entry, snapshot: nat) {
    Tag(e.seqno, e.kind) <= Tag(snapshot, VALUE)
  }

  ghost predicate SeenAt(blocks: seq<seq<Entry>>, u: Bytes, snapshot: nat, j: int, m: int) {
    0 <= j < |blocks| && 0 <= m < |blocks[j]| && blocks[j][m].user == u && Visible(blocks[j][m], snapshot)
  }

  /** Entry (j, m) is the newest of the user key that the snapshot sees. */
  ghost predicate NewestSeen(blocks: seq<seq<Entry>>, u: Bytes, snapshot: nat, j: int, m: int) {
    && SeenAt(blocks, u, snapshot, j, m)
    && forall i, n :: SeenAt(blocks, u, snapshot, i, n) ==>
         Tag(blocks[i][n].seqno, blocks[i][n].kind) <= Tag(blocks[j][m].seqno, blocks[j][m].kind)
  }

  /** Of readable entries the snapshot sees those with a sequence number no greater than its own. */
  lemma SeenTag(e: Entry, snapshot: nat)
    requires e.kind <= VALUE
    ensures e.seqno <= snapshot <==> Visible(e, snapshot)
  {
  }

  /** The newest entry seen is the table's first at or after the lookup key. */
  lemma NewestIsFirst(blocks: seq<seq<Entry>>, u: Bytes, snapshot: nat, j: nat, m: nat)
    requires Sorted(Flat(blocks, |blocks|)) && NewestSeen(blocks, u, snapshot, j, m)
    ensures TableFirst(blocks, InternalKey(u, Tag(snapshot, VALUE)), j, m)
  {
    LessIrreflexive(u);
    forall i, n | 0 <= i < |blocks| && 0 <= n < |blocks[i]| && (i < j || (i == j && n < m))
      ensures KeyBefore(KeyOf(blocks[i][n]), InternalKey(u, Tag(snapshot, VALUE)))
    {
      EarlierIsBefore(blocks, u, snapshot, j, m, i, n);
    }
  }

  lemma EarlierIsBefore(blocks: seq<seq<Entry>>, u: Bytes, snapshot: nat, j: nat, m: nat, i: nat, n: nat)
    requires Sorted(Flat(blocks, |blocks|)) && NewestSeen(blocks, u, snapshot, j, m)
    requires i < |blocks| && n < |blocks[i]| && (i < j || (i == j && n < m))
    ensures KeyBefore(KeyOf(blocks[i][n]), InternalKey(u, Tag(snapshot, VALUE)))
  {
    AcrossBlocks(blocks, i, n, j, m);
    if blocks[i][n].user == u {
      LessIrreflexive(u);
      assert !SeenAt(blocks, u, snapshot, i, n);
    }
  }

  /**
   * A lookup opens one block and finds the newest entry of the user key that the snapshot sees whenever there is
   * one; and an entry of the user key is handed over only if it is that one.
   */
  lemma GetFindsNewest(blocks: seq<seq<Entry>>, index: seq<InternalKey>, u: Bytes, snapshot: nat, r: Option<Entry>)
    requires Searchable(blocks, index) && Sorted(Flat(blocks, |blocks|))
    requires Handed(blocks, index, InternalKey(u, Tag(snapshot, VALUE)), r)
    ensures forall j, m :: NewestSeen(blocks, u, snapshot, j, m) ==> r == Some(blocks[j][m])
    ensures r.Some? && r.value.user == u ==>
              exists j, m :: NewestSeen(blocks, u, snapshot, j, m) && blocks[j][m] == r.value
  {
    var k := InternalKey(u, Tag(snapshot, VALUE));
    var i: nat :| HandedFrom(blocks, index, k, r, i);
    forall j, m | NewestSeen(blocks, u, snapshot, j, m) ensures r == Some(blocks[j][m]) {
      NewestIsFirst(blocks, u, snapshot, j, m);
      OneBlockSuffices(blocks, index, k, r, i, j, m);
    }
    if r.Some? && r.value.user == u {
      HandedIsFirst(blocks, index, k, r, i);
      var j, m :| TableFirst(blocks, k, j, m) && blocks[j][m] == r.value;
      FirstIsNewest(blocks, u, snapshot, j, m);
    }
  }

  lemma FirstIsNewest(blocks: seq<seq<Entry>>, u: Bytes, snapshot: nat, j: nat, m: nat)
    requires Sorted(Flat(blocks, |blocks|))
    requires TableFirst(blocks, InternalKey(u, Tag(snapshot, VALUE)), j, m) && blocks[j][m].user == u
    ensures NewestSeen(blocks, u, snapshot, j, m)
  {
    LessIrreflexive(u);
    forall i, n | SeenAt(blocks, u, snapshot, i, n)
      ensures Tag(blocks[i][n].seqno, blocks[i][n].kind) <= Tag(blocks[j][m].seqno, blocks[j][m].kind)
    {
      SeenIsOlder(blocks, u, snapshot, j, m, i, n);
    }
  }

  lemma SeenIsOlder(blocks: seq<seq<Entry>>, u: Bytes, snapshot: nat, j: nat, m: nat, i: nat, n: nat)
    requires Sorted(Flat(blocks, |blocks|)) && SeenAt(blocks, u, snapshot, i, n)
    requires TableFirst(blocks, InternalKey(u, Tag(snapshot, VALUE)), j, m) && blocks[j][m].user == u
    ensures Tag(blocks[i][n].seqno, blocks[i][n].kind) <= Tag(blocks[j][m].seqno, blocks[j][m].kind)
  {
    LessIrreflexive(u);
    assert !KeyBefore(KeyOf(blocks[i][n]), InternalKey(u, Tag(snapshot, VALUE)));
    if i != j || n != m {
      AcrossBlocks(blocks, j, m, i, n);
    }
  }
}
