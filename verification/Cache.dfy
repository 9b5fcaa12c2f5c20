/** One shard of the LRU cache: its chained hash table, recency list, reference counts and eviction. */
module Cache {
  import opened Keys

  /** Entries are found by hash and key together. */
  datatype Key = Key(key: Bytes, hash: nat)

  /** A cache entry as the hash table sees it. */
  datatype Handle = Handle(id: nat, k: Key)

  /** Taking one element out of a sequence without repetitions. */
  lemma RemovedAt<T>(s: seq<T>, i: nat)
    requires i < |s| && forall i, j :: 0 <= i < j < |s| ==> s[i] != s[j]
    ensures var r := s[..i] + s[i + 1..];
            && (forall x :: x in r <==> x in s && x != s[i])
            && (forall i, j :: 0 <= i < j < |r| ==> r[i] != r[j])
  {
    var r := s[..i] + s[i + 1..];
    assert forall j :: 0 <= j < |r| ==> r[j] == s[if j < i then j else j + 1];
    forall x | x in s && x != s[i] ensures x in r {
      var j :| 0 <= j < |s| && s[j] == x;
      assert r[if j < i then j else j - 1] == x;
    }
  }

  // ---------- The hash table ----------

  /** For these lengths masking with length - 1 is the remainder. */
  predicate PowerOfTwo(n: nat) {
    n == 1 || (n > 0 && n % 2 == 0 && PowerOfTwo(n / 2))
  }

  /** A bucket's chain holds, each once, exactly the entries of the contents that hash there. */
  ghost predicate ChainOk(chain: seq<Handle>, b: nat, length: nat, contents: map<Key, Handle>)
    requires length > 0
  {
    && (forall i :: 0 <= i < |chain| ==>
          chain[i].k.hash % length == b && chain[i].k in contents && contents[chain[i].k] == chain[i])
    && (forall i, j :: 0 <= i < j < |chain| ==> chain[i] != chain[j])
    && (forall k :: k in contents && k.hash % length == b ==> contents[k] in chain)
  }

  ghost predicate Buckets(list: seq<seq<Handle>>, contents: map<Key, Handle>) {
    forall b :: 0 <= b < |list| ==> ChainOk(list[b], b, |list|, contents)
  }

  class HandleTable {
    var list: seq<seq<Handle>>     // the buckets' chains
    var elems: nat
    ghost var contents: map<Key, Handle>

    ghost predicate Valid()
      reads this
    {
      && |list| > 0 && PowerOfTwo(|list|) && elems == |contents|
      && (forall k :: k in contents ==> contents[k].k == k)
      && Buckets(list, contents)
    }

    constructor ()
      ensures Valid() && contents == map[]
    {
      list := [[], [], [], []];
      elems, contents := 0, map[];
      assert PowerOfTwo(1) && PowerOfTwo(2) && PowerOfTwo(4);
    }

    /** FindPointer: the place in the bucket's chain of the matching entry, or its end. */
    method FindPointer(k: Key) returns (i: nat)
      requires Valid()
      ensures var chain := list[k.hash % |list|];
              i <= |chain| && (i == |chain| <==> k !in contents) && (i < |chain| ==> chain[i] == contents[k])
    {
      var b := k.hash % |list|;
      var chain := list[b];
      assert ChainOk(chain, b, |list|, contents);
      i := 0;
      while i < |chain| && (chain[i].k.hash != k.hash || chain[i].k.key != k.key)
        invariant i <= |chain|
        invariant forall j :: 0 <= j < i ==> chain[j].k != k
      {
        i := i + 1;
      }
    }

    method Lookup(k: Key) returns (h: Option<Handle>)
      requires Valid()
      ensures h == if k in contents then Some(contents[k]) else None
    {
      var i := FindPointer(k);
      var chain := list[k.hash % |list|];
      h := if i < |chain| then Some(chain[i]) else None;
    }

    /** Puts the entry in, displacing and returning the one with the same key, if any. */
    method Insert(h: Handle) returns (displaced: Option<Handle>)
      requires Valid()
      modifies this
      ensures Valid() && contents == old(contents)[h.k := h]
      ensures displaced == if h.k in old(contents) then Some(old(contents)[h.k]) else None
    {
      var i := FindPointer(h.k);
      var b := h.k.hash % |list|;
      var chain := list[b];
      ghost var contents' := contents[h.k := h];
      if i < |chain| {
        displaced := Some(chain[i]);
        ChainReplaced(chain, i, b, |list|, contents, h);
        BucketChanged(list, chain[i := h], contents, contents', h.k);
        list, contents := list[b := chain[i := h]], contents';
      } else {
        displaced := None;
        ChainExtended(chain, b, |list|, contents, h);
        BucketChanged(list, chain + [h], contents, contents', h.k);
        list, contents := list[b := chain + [h]], contents';
        elems := elems + 1;
        if elems > |list| {
          Resize();
        }
      }
    }

    method Remove(k: Key) returns (h: Option<Handle>)
      requires Valid()
      modifies this
      ensures Valid() && contents == old(contents) - {k}
      ensures h == if k in old(contents) then Some(old(contents)[k]) else None
    {
      var i := FindPointer(k);
      var b := k.hash % |list|;
      var chain := list[b];
      if i == |chain| {
        h := None;
        assert contents - {k} == contents;
      } else {
        h := Some(chain[i]);
        var chain' := chain[..i] + chain[i + 1..];
        Unlinked(list, contents, k, i);
        list, contents, elems := list[b := chain'], contents - {k}, elems - 1;
      }
    }

    /** Moves every entry to its bucket in a table at least as long as the number of entries. */
    method Resize()
      requires Valid()
      modifies this`list
      ensures Valid() && |list| >= elems
    {
      var newLength := NewLength(elems);
      var newList: seq<seq<Handle>> := seq(newLength, _ => []);
      var oldList := list;
      ghost var moved: map<Key, Handle> := map[];
      for i := 0 to |oldList|
        invariant list == oldList && |newList| == newLength
        invariant Buckets(newList, moved)
        invariant forall k :: k in moved ==> k in contents && moved[k] == contents[k]
        invariant forall k :: k in contents ==> (k in moved <==> k.hash % |oldList| < i)
      {
        assert ChainOk(oldList[i], i, |oldList|, contents);
        newList, moved := MoveChain(oldList[i], newList, contents, i, |oldList|, moved);
      }
      assert moved == contents;
      list := newList;
    }
  }

  /** A table has at least one bucket for each entry; its length is a power of two. */
  method NewLength(elems: nat) returns (n: nat)
    ensures n >= elems && n >= 4 && PowerOfTwo(n)
    ensures n > 4 ==> n < 2 * elems
  {
    n := 4;
    assert PowerOfTwo(1) && PowerOfTwo(2);
    while n < elems
      invariant n >= 4 && PowerOfTwo(n)
      invariant n > 4 ==> n < 2 * elems
    {
      n := n * 2;
    }
  }

  /** Pushes each entry of a chain at the head of its new bucket. */
  method MoveChain(chain: seq<Handle>, buckets: seq<seq<Handle>>,
                   ghost contents: map<Key, Handle>, ghost b: nat, ghost length: nat, ghost moved: map<Key, Handle>)
      returns (buckets': seq<seq<Handle>>, ghost moved': map<Key, Handle>)
    requires length > 0 && ChainOk(chain, b, length, contents) && |buckets| > 0
    requires Buckets(buckets, moved)
    requires forall i :: 0 <= i < |chain| ==> chain[i].k !in moved
    requires forall k :: k in contents ==> contents[k].k == k
    ensures |buckets'| == |buckets|
    ensures Buckets(buckets', moved')
    ensures forall k :: k in moved' <==> k in moved || (k in contents && k.hash % length == b)
    ensures forall k :: k in moved ==> moved'[k] == moved[k]
    ensures forall k :: k in moved' && k !in moved ==> moved'[k] == contents[k]
  {
    buckets', moved' := buckets, moved;
    for j := 0 to |chain|
      invariant |buckets'| == |buckets|
      invariant Buckets(buckets', moved')
      invariant forall i :: 0 <= i < j ==> chain[i].k in moved'
      invariant forall i :: j <= i < |chain| ==> chain[i].k !in moved'
      invariant forall k :: k in moved ==> k in moved' && moved'[k] == moved[k]
      invariant forall k :: k in moved' && k !in moved ==>
                  k in contents && k.hash % length == b && moved'[k] == contents[k]
    {
      var h := chain[j];
      var c := h.k.hash % |buckets'|;
      ChainPushed(buckets'[c], c, |buckets'|, moved', h);
      BucketChanged(buckets', [h] + buckets'[c], moved', moved'[h.k := h], h.k);
      moved' := moved'[h.k := h];
      buckets' := buckets'[c := [h] + buckets'[c]];
    }
    forall k | k in contents && k.hash % length == b ensures k in moved' {
      var i :| 0 <= i < |chain| && chain[i] == contents[k];
    }
  }

  lemma ChainPushed(chain: seq<Handle>, b: nat, length: nat, contents: map<Key, Handle>, h: Handle)
    requires length > 0 && ChainOk(chain, b, length, contents) && h.k !in contents && h.k.hash % length == b
    ensures ChainOk([h] + chain, b, length, contents[h.k := h])
  {
    var chain', contents' := [h] + chain, contents[h.k := h];
    forall k | k in contents' && k.hash % length == b ensures contents'[k] in chain' {
      if k != h.k {
        var j :| 0 <= j < |chain| && chain[j] == contents[k];
        assert chain'[j + 1] == contents'[k];
      } else {
        assert chain'[0] == h;
      }
    }
  }

  /** Changing one key's entry touches only that key's bucket. */
  lemma BucketChanged(list: seq<seq<Handle>>, chain: seq<Handle>,
                      contents: map<Key, Handle>, contents': map<Key, Handle>, k: Key)
    requires |list| > 0 && Buckets(list, contents)
    requires contents' - {k} == contents - {k}
    requires ChainOk(chain, k.hash % |list|, |list|, contents')
    ensures Buckets(list[k.hash % |list| := chain], contents')
  {
    forall c | 0 <= c < |list| && c != k.hash % |list| ensures ChainOk(list[c], c, |list|, contents') {
      OtherChain(list[c], c, |list|, contents, contents', k);
    }
  }

  lemma OtherChain(chain: seq<Handle>, b: nat, length: nat,
                   contents: map<Key, Handle>, contents': map<Key, Handle>, k: Key)
    requires length > 0 && ChainOk(chain, b, length, contents) && k.hash % length != b
    requires contents' - {k} == contents - {k}
    ensures ChainOk(chain, b, length, contents')
  {
    forall j: Key | j != k
      ensures (j in contents <==> j in contents') && (j in contents ==> contents[j] == contents'[j])
    {
      assert j in contents - {k} <==> j in contents;
      assert j in contents' - {k} <==> j in contents';
    }
  }

  lemma ChainReplaced(chain: seq<Handle>, i: nat, b: nat, length: nat, contents: map<Key, Handle>, h: Handle)
    requires length > 0 && ChainOk(chain, b, length, contents) && i < |chain| && chain[i].k == h.k
    requires forall k :: k in contents ==> contents[k].k == k
    ensures ChainOk(chain[i := h], b, length, contents[h.k := h])
  {
    var chain', contents' := chain[i := h], contents[h.k := h];
    forall k | k in contents' && k.hash % length == b ensures contents'[k] in chain' {
      if k != h.k {
        var j :| 0 <= j < |chain| && chain[j] == contents[k];
        assert chain'[j] == contents'[k];
      } else {
        assert chain'[i] == h;
      }
    }
  }

  lemma ChainExtended(chain: seq<Handle>, b: nat, length: nat, contents: map<Key, Handle>, h: Handle)
    requires length > 0 && ChainOk(chain, b, length, contents) && h.k !in contents && h.k.hash % length == b
    ensures ChainOk(chain + [h], b, length, contents[h.k := h])
  {
  }

  lemma ChainShortened(chain: seq<Handle>, i: nat, b: nat, length: nat, contents: map<Key, Handle>)
    requires length > 0 && ChainOk(chain, b, length, contents) && i < |chain|
    requires forall k :: k in contents ==> contents[k].k == k
    ensures ChainOk(chain[..i] + chain[i + 1..], b, length, contents - {chain[i].k})
  {
    RemovedAt(chain, i);
    var chain' := chain[..i] + chain[i + 1..];
    forall j | 0 <= j < |chain'| ensures chain'[j] in chain && chain'[j].k != chain[i].k {
      assert chain'[j] in chain';
    }
  }

  /** A key's entry unlinked from its bucket's chain. */
  lemma Unlinked(list: seq<seq<Handle>>, contents: map<Key, Handle>, k: Key, i: nat)
    requires |list| > 0 && Buckets(list, contents) && k in contents
    requires forall j :: j in contents ==> contents[j].k == j
    requires i < |list[k.hash % |list|]| && list[k.hash % |list|][i] == contents[k]
    ensures var b := k.hash % |list|;
            Buckets(list[b := list[b][..i] + list[b][i + 1..]], contents - {k})
    ensures |contents - {k}| == |contents| - 1
  {
    var b := k.hash % |list|;
    assert ChainOk(list[b], b, |list|, contents);
    ChainShortened(list[b], i, b, |list|, contents);
    BucketChanged(list, list[b][..i] + list[b][i + 1..], contents, contents - {k}, k);
    OneFewer(contents, k);
  }

  lemma OneFewer(contents: map<Key, Handle>, k: Key)
    requires k in contents
    ensures |contents - {k}| == |contents| - 1
  {
    assert contents == (contents - {k})[k := contents[k]];
  }

  // ---------- Recency, reference counts and charges ----------

  /** A cache entry; refs is 0 once the entry has been freed. */
  datatype Slot = Slot(k: Key, value: int, charge: nat, refs: nat)

  ghost predicate NoDup(s: seq<nat>) {
    forall i, j :: 0 <= i < j < |s| ==> s[i] != s[j]
  }

  /** The list s' is s with x taken out of it. */
  ghost predicate TakenOut(s: seq<nat>, x: nat, s': seq<nat>) {
    exists i :: 0 <= i < |s| && s[i] == x && s' == s[..i] + s[i + 1..]
  }

  /** The list s' is s with x moved to its newest end. */
  ghost predicate Renewed(s: seq<nat>, x: nat, s': seq<nat>) {
    |s'| > 0 && s'[|s'| - 1] == x && TakenOut(s, x, s'[..|s'| - 1])
  }

  /** What an entry adds to the usage: its charge, while the cache or some caller has it. */
  ghost function Share(slots: seq<Slot>, lru: seq<nat>, held: seq<nat>, id: nat): nat
    requires id < |slots| == |held|
  {
    if held[id] > 0 || id in lru then slots[id].charge else 0
  }

  ghost function InUse(slots: seq<Slot>, lru: seq<nat>, held: seq<nat>, n: nat): nat
    requires n <= |slots| == |held|
  {
    if n == 0 then 0 else InUse(slots, lru, held, n - 1) + Share(slots, lru, held, n - 1)
  }

  /** The usage moves with the one entry whose share changes. */
  lemma {:induction false} InUseChanges(slots: seq<Slot>, lru: seq<nat>, held: seq<nat>,
                                        slots': seq<Slot>, lru': seq<nat>, held': seq<nat>, id: nat, n: nat)
    requires |slots| == |held| && |slots'| == |held'| && n <= |slots| && n <= |slots'|
    requires forall j :: 0 <= j < n && j != id ==> Share(slots', lru', held', j) == Share(slots, lru, held, j)
    ensures InUse(slots', lru', held', n) == InUse(slots, lru, held, n)
            + if id < n then Share(slots', lru', held', id) - Share(slots, lru, held, id) else 0
  {
    if n > 0 {
      InUseChanges(slots, lru, held, slots', lru', held', id, n - 1);
    }
  }

  /** Entries change only in their reference counts. */
  ghost predicate SameEntries(slots: seq<Slot>, slots': seq<Slot>) {
    |slots'| == |slots| && forall i :: 0 <= i < |slots| ==> slots'[i] == slots[i].(refs := slots'[i].refs)
  }

  /** While the list was any of the first n tails of full, the usage was over the capacity. */
  ghost predicate Overfull(slots: seq<Slot>, full: seq<nat>, held: seq<nat>, n: nat, capacity: nat)
    requires n <= |full| && |slots| == |held|
  {
    forall m :: 0 <= m < n ==> InUse(slots, full[m..], held, |slots|) > capacity
  }

  lemma StillInUse(slots: seq<Slot>, slots': seq<Slot>, held: seq<nat>, full: seq<nat>, n: nat, capacity: nat)
    requires SameEntries(slots, slots') && |slots| == |held| && n <= |full|
    requires Overfull(slots, full, held, n, capacity)
    ensures Overfull(slots', full, held, n, capacity)
  {
    forall m | 0 <= m < n ensures InUse(slots', full[m..], held, |slots|) > capacity {
      InUseChanges(slots, full[m..], held, slots', full[m..], held, |slots|, |slots|);
    }
  }

  /** Each entry's count is one for the cache, while it is on the recency list, and one for each handle held. */
  ghost predicate RefsCount(slots: seq<Slot>, lru: seq<nat>, held: seq<nat>) {
    && |held| == |slots|
    && (forall i :: 0 <= i < |lru| ==> lru[i] < |slots|)
    && (forall id :: 0 <= id < |slots| ==> slots[id].refs == held[id] + if id in lru then 1 else 0)
  }

  /** The hash table finds exactly the entries on the recency list. */
  ghost predicate TableMatches(slots: seq<Slot>, lru: seq<nat>, contents: map<Key, Handle>) {
    && (forall k :: k in contents ==>
          contents[k].id in lru && contents[k].id < |slots| && slots[contents[k].id].k == k)
    && (forall i :: 0 <= i < |lru| ==>
          lru[i] < |slots| && slots[lru[i]].k in contents
          && contents[slots[lru[i]].k] == Handle(lru[i], slots[lru[i]].k))
  }

  /** The deleter has been called once for each entry nobody refers to, and for no other. */
  ghost predicate DeletedOnce(slots: seq<Slot>, deleted: seq<nat>) {
    && NoDup(deleted)
    && (forall i :: 0 <= i < |deleted| ==> deleted[i] < |slots|)
    && (forall id :: 0 <= id < |slots| ==> (id in deleted <==> slots[id].refs == 0))
  }

  ghost predicate Cached(slots: seq<Slot>, lru: seq<nat>, k: Key) {
    exists i :: 0 <= i < |lru| && lru[i] < |slots| && slots[lru[i]].k == k
  }

  lemma TableFinds(slots: seq<Slot>, lru: seq<nat>, contents: map<Key, Handle>, k: Key)
    requires TableMatches(slots, lru, contents)
    ensures k in contents <==> Cached(slots, lru, k)
    ensures k in contents ==> contents[k].id in lru && contents[k].id < |slots| && slots[contents[k].id].k == k
  {
    if k in contents {
      var i :| 0 <= i < |lru| && lru[i] == contents[k].id;
      assert slots[lru[i]].k == k;
    }
  }

  lemma TableStill(slots: seq<Slot>, slots': seq<Slot>, lru: seq<nat>, lru': seq<nat>, contents: map<Key, Handle>)
    requires TableMatches(slots, lru, contents) && SameEntries(slots, slots')
    requires forall x :: x in lru <==> x in lru'
    ensures TableMatches(slots', lru', contents)
  {
    forall i | 0 <= i < |lru'|
      ensures lru'[i] < |slots'| && slots'[lru'[i]].k in contents
              && contents[slots'[lru'[i]].k] == Handle(lru'[i], slots'[lru'[i]].k)
    {
      assert lru'[i] in lru;
    }
  }

  lemma TableShrinks(slots: seq<Slot>, slots': seq<Slot>, lru: seq<nat>, lru': seq<nat>,
                     contents: map<Key, Handle>, id: nat)
    requires TableMatches(slots, lru, contents) && SameEntries(slots, slots') && id in lru && id < |slots|
    requires forall x :: x in lru' <==> x in lru && x != id
    ensures TableMatches(slots', lru', contents - {slots[id].k})
  {
    forall i | 0 <= i < |lru'|
      ensures lru'[i] < |slots'| && slots'[lru'[i]].k in contents - {slots[id].k}
              && contents[slots'[lru'[i]].k] == Handle(lru'[i], slots'[lru'[i]].k)
    {
      assert lru'[i] in lru && lru'[i] != id;
    }
  }

  /** The new entry takes its key over from the entry it displaces, if there was one. */
  lemma TableGrows(slots: seq<Slot>, slots': seq<Slot>, lru: seq<nat>, lru': seq<nat>,
                   contents: map<Key, Handle>, k: Key)
    requires TableMatches(slots, lru, contents)
    requires |slots'| == |slots| + 1 && SameEntries(slots, slots'[..|slots|]) && slots'[|slots|].k == k
    requires forall x :: x in lru' <==>
                         x == |slots| || (x in lru && !(k in contents && x == contents[k].id))
    ensures TableMatches(slots', lru', contents[k := Handle(|slots|, k)])
  {
    var contents' := contents[k := Handle(|slots|, k)];
    assert forall i :: 0 <= i < |slots| ==> slots'[i].k == slots'[..|slots|][i].k == slots[i].k;
    forall i | 0 <= i < |lru'|
      ensures lru'[i] < |slots'| && slots'[lru'[i]].k in contents'
              && contents'[slots'[lru'[i]].k] == Handle(lru'[i], slots'[lru'[i]].k)
    {
      assert lru'[i] in lru';
    }
  }

  /** The new entry is the newest, and the entry it displaces, alone of the others, has left the list. */
  ghost predicate Admitted(slots: seq<Slot>, slots': seq<Slot>, lru: seq<nat>, lru': seq<nat>, id: nat, k: Key) {
    && id == |slots| && |slots'| == id + 1 && SameEntries(slots, slots'[..id]) && slots'[id].k == k
    && |lru'| > 0 && lru'[|lru'| - 1] == id
    && if Cached(slots, lru, k)
       then exists x :: x in lru && x < |slots| && slots[x].k == k && TakenOut(lru, x, lru'[..|lru'| - 1])
       else lru' == lru + [id]
  }

  lemma TakenFromFront(lru: seq<nat>, id: nat, x: nat, lru': seq<nat>, lru'': seq<nat>)
    requires lru' == lru + [id] && x != id && TakenOut(lru', x, lru'')
    ensures |lru''| > 0 && lru''[|lru''| - 1] == id && TakenOut(lru, x, lru''[..|lru''| - 1])
  {
    var i :| 0 <= i < |lru'| && lru'[i] == x && lru'' == lru'[..i] + lru'[i + 1..];
    assert lru[i] == x && lru''[..|lru''| - 1] == lru[..i] + lru[i + 1..];
  }

  lemma Admission(slots: seq<Slot>, slots': seq<Slot>, slots'': seq<Slot>,
                  lru: seq<nat>, lru': seq<nat>, lru'': seq<nat>, contents: map<Key, Handle>, k: Key)
    requires TableMatches(slots, lru, contents) && (forall i :: 0 <= i < |lru| ==> lru[i] < |slots|)
    requires |slots'| == |slots| + 1 && slots'[..|slots|] == slots && slots'[|slots|].k == k
    requires SameEntries(slots', slots'') && lru' == lru + [|slots|]
    requires if k in contents
             then TakenOut(lru', contents[k].id, lru'') && forall x :: x in lru'' <==> x in lru' && x != contents[k].id
             else lru'' == lru'
    ensures TableMatches(slots'', lru'', contents[k := Handle(|slots|, k)])
    ensures Admitted(slots, slots'', lru, lru'', |slots|, k)
  {
    TableFinds(slots, lru, contents, k);
    if k in contents {
      TakenFromFront(lru, |slots|, contents[k].id, lru', lru'');
    }
    assert forall x :: x in lru' <==> x in lru || x == |slots|;
    assert forall i :: 0 <= i < |slots| ==> slots[i] == slots'[..|slots|][i] == slots'[i];
    TableGrows(slots, slots'', lru, lru'', contents, k);
  }

  class LRUCache {
    const capacity: nat
    const table: HandleTable
    var usage: int
    var lru: seq<nat>           // oldest first
    var slots: seq<Slot>        // every entry ever inserted
    var deleted: seq<nat>       // entries whose deleter has been called, in order
    ghost var held: seq<nat>    // handles callers hold to each entry

    ghost predicate Counts()
      reads this
    {
      && NoDup(lru) && RefsCount(slots, lru, held) && DeletedOnce(slots, deleted)
      && usage == InUse(slots, lru, held, |slots|)
    }

    ghost predicate Valid()
      reads this, table
    {
      Counts() && table.Valid() && TableMatches(slots, lru, table.contents)
    }

    constructor (capacity: nat)
      ensures Valid() && this.capacity == capacity && fresh(table) && lru == [] && slots == []
    {
      this.capacity := capacity;
      table := new HandleTable();
      usage, lru, slots, deleted, held := 0, [], [], [], [];
    }

    /** Drops one of the references held to an entry, freeing it when that was the last of all. */
    method Unref(id: nat)
      requires Counts() && id < |slots| && held[id] > 0
      modifies this`usage, this`slots, this`deleted, this`held
      ensures Counts() && held == old(held)[id := old(held)[id] - 1] && SameEntries(old(slots), slots)
      ensures deleted == old(deleted) + if held[id] == 0 && id !in lru then [id] else []
    {
      var e := slots[id];
      ghost var was, washeld := slots, held;
      held := held[id := held[id] - 1];
      slots := slots[id := e.(refs := e.refs - 1)];
      InUseChanges(was, lru, washeld, slots, lru, held, id, |slots|);
      if e.refs - 1 <= 0 {
        usage := usage - e.charge;
        deleted := deleted + [id];
      }
    }

    /** Takes the entry off the recency list; the cache's reference passes to the running operation. */
    method LruRemove(id: nat)
      requires Counts() && id in lru
      modifies this`lru, this`held
      ensures Counts() && id < |slots| && TakenOut(old(lru), id, lru)
      ensures forall x :: x in lru <==> x in old(lru) && x != id
      ensures held == old(held)[id := old(held)[id] + 1]
    {
      var i :| 0 <= i < |lru| && lru[i] == id;
      RemovedAt(lru, i);
      ghost var was, washeld := lru, held;
      held := held[id := held[id] + 1];
      lru := lru[..i] + lru[i + 1..];
      InUseChanges(slots, was, washeld, slots, lru, held, id, |slots|);
    }

    /** Puts the entry at the newest end; a reference passes from the running operation to the cache. */
    method LruAppend(id: nat)
      requires Counts() && id < |slots| && id !in lru && held[id] > 0
      modifies this`lru, this`held
      ensures Counts() && lru == old(lru) + [id]
      ensures held == old(held)[id := old(held)[id] - 1]
    {
      ghost var was, washeld := lru, held;
      held := held[id := held[id] - 1];
      lru := lru + [id];
      InUseChanges(slots, was, washeld, slots, lru, held, id, |slots|);
    }

    /** Makes an entry the newest. */
    method Touch(id: nat)
      requires Counts() && id in lru
      modifies this`lru, this`held
      ensures Counts() && Renewed(old(lru), id, lru) && held == old(held)
      ensures forall x :: x in lru <==> x in old(lru)
    {
      LruRemove(id);
      ghost var lru' := lru;
      LruAppend(id);
      assert held == old(held) && lru[..|lru| - 1] == lru';
    }

    method Ref(id: nat)
      requires Counts() && id in lru
      modifies this`slots, this`held
      ensures Counts() && held == old(held)[id := old(held)[id] + 1] && SameEntries(old(slots), slots)
    {
      ghost var was, washeld := slots, held;
      held := held[id := held[id] + 1];
      slots := slots[id := slots[id].(refs := slots[id].refs + 1)];
      InUseChanges(was, lru, washeld, slots, lru, held, id, |slots|);
    }

    /** Hands out one more reference to an entry and makes it the newest. */
    method Use(id: nat)
      requires Counts() && id in lru
      modifies this`lru, this`held, this`slots
      ensures Counts() && SameEntries(old(slots), slots)
      ensures Renewed(old(lru), id, lru) && held == old(held)[id := old(held)[id] + 1]
      ensures forall x :: x in lru <==> x in old(lru)
    {
      Ref(id);
      Touch(id);
    }

    method Lookup(k: Key) returns (e: Option<nat>)
      requires Valid()
      modifies this`lru, this`held, this`slots
      ensures Valid() && SameEntries(old(slots), slots)
      ensures e.Some? <==> Cached(old(slots), old(lru), k)
      ensures e.None? ==> unchanged(this)
      ensures e.Some? ==> e.value in old(lru) && slots[e.value].k == k
      ensures e.Some? ==> Renewed(old(lru), e.value, lru)
      ensures e.Some? ==> held == old(held)[e.value := old(held)[e.value] + 1]
    {
      var h := table.Lookup(k);
      TableFinds(slots, lru, table.contents, k);
      if h.None? {
        return None;
      }
      var id := h.value.id;
      Use(id);
      TableStill(old(slots), slots, old(lru), lru, table.contents);
      e := Some(id);
    }

    /** Gives back a handle. */
    method Release(id: nat)
      requires Valid() && id < |slots| && held[id] > 0
      modifies this`usage, this`slots, this`deleted, this`held
      ensures Valid() && held == old(held)[id := old(held)[id] - 1] && SameEntries(old(slots), slots)
      ensures deleted == old(deleted) + if held[id] == 0 && id !in lru then [id] else []
    {
      Unref(id);
    }

    /** Makes an entry that the running operation holds twice. */
    method Create(k: Key, value: int, charge: nat) returns (id: nat)
      requires Counts()
      modifies this`usage, this`slots, this`held
      ensures Counts() && id == |old(slots)| && id !in lru
      ensures slots == old(slots) + [Slot(k, value, charge, 2)] && held == old(held) + [2]
    {
      id := |slots|;
      ghost var was, washeld := slots, held;
      slots, held, usage := slots + [Slot(k, value, charge, 2)], held + [2], usage + charge;
      InUseChanges(was, lru, washeld, slots, lru, held, id, id);
    }

    /** Takes the entry off the recency list and drops the cache's reference to it. */
    method Drop(id: nat)
      requires Counts() && id in lru
      modifies this`usage, this`slots, this`deleted, this`held, this`lru
      ensures Counts() && TakenOut(old(lru), id, lru) && held == old(held) && SameEntries(old(slots), slots)
      ensures forall x :: x in lru <==> x in old(lru) && x != id
      ensures deleted == old(deleted) + if held[id] == 0 then [id] else []
    {
      LruRemove(id);
      Unref(id);
      assert held == old(held);
    }

    method EvictOldest()
      requires Valid() && lru != []
      modifies this`usage, this`slots, this`deleted, this`held, this`lru, table
      ensures Valid() && lru == old(lru)[1..] && held == old(held) && SameEntries(old(slots), slots)
    {
      var id := lru[0];
      var _ := table.Remove(slots[id].k);
      Drop(id);
      TableShrinks(old(slots), slots, old(lru), lru, old(table.contents), id);
    }

    method Erase(k: Key)
      requires Valid()
      modifies this`usage, this`slots, this`deleted, this`held, this`lru, table
      ensures Valid() && held == old(held) && SameEntries(old(slots), slots)
      ensures !Cached(slots, lru, k)
      ensures if Cached(old(slots), old(lru), k)
              then exists id :: id in old(lru) && slots[id].k == k && TakenOut(old(lru), id, lru)
              else lru == old(lru)
    {
      TableFinds(slots, lru, table.contents, k);
      var h := table.Remove(k);
      if h.Some? {
        Drop(h.value.id);
        TableShrinks(old(slots), slots, old(lru), lru, old(table.contents), h.value.id);
      }
      TableFinds(slots, lru, table.contents, k);
    }

    method Push(k: Key, value: int, charge: nat) returns (id: nat)
      requires Counts()
      modifies this`usage, this`slots, this`held, this`lru
      ensures Counts() && id == |old(slots)| && lru == old(lru) + [id]
      ensures slots == old(slots) + [Slot(k, value, charge, 2)] && held == old(held) + [1]
    {
      id := Create(k, value, charge);
      LruAppend(id);
      assert held == old(held) + [1];
    }

    /** The part of Insert before eviction: the new entry is in, and the one it displaces is out. */
    method Admit(k: Key, value: int, charge: nat) returns (id: nat)
      requires Valid()
      modifies this`usage, this`slots, this`deleted, this`held, this`lru, table
      ensures Valid() && Admitted(old(slots), slots, old(lru), lru, id, k)
      ensures slots[id].value == value && slots[id].charge == charge && held == old(held) + [1]
    {
      TableFinds(slots, lru, table.contents, k);
      id := Push(k, value, charge);
      ghost var lru', slots' := lru, slots;
      var displaced := table.Insert(Handle(id, k));
      if displaced.Some? {
        Drop(displaced.value.id);
      }
      Admission(old(slots), slots', slots, old(lru), lru', lru, old(table.contents), k);
    }

    method EvictToFit() returns (ghost n: nat)
      requires Valid()
      modifies this`usage, this`slots, this`deleted, this`held, this`lru, table
      ensures Valid() && SameEntries(old(slots), slots) && held == old(held)
      ensures n <= |old(lru)| && lru == old(lru)[n..]
      ensures usage <= capacity || lru == []
      ensures Overfull(slots, old(lru), held, n, capacity)
    {
      n := 0;
      ghost var full := lru;
      while usage > capacity && lru != []
        invariant Valid() && SameEntries(old(slots), slots) && held == old(held)
        invariant n <= |full| && lru == full[n..]
        invariant Overfull(slots, full, held, n, capacity)
        decreases |lru|
      {
        ghost var was := slots;
        assert Overfull(slots, full, held, n + 1, capacity);
        EvictOldest();
        StillInUse(was, slots, held, full, n + 1, capacity);
        n := n + 1;
      }
    }

    /** Insert evicts, oldest first, no more entries than it takes to bring the usage within the capacity. */
    method Insert(k: Key, value: int, charge: nat) returns (id: nat, ghost full: seq<nat>, ghost n: nat)
      requires Valid()
      modifies this`usage, this`slots, this`deleted, this`held, this`lru, table
      ensures Valid() && Admitted(old(slots), slots, old(lru), full, id, k)
      ensures slots[id].value == value && slots[id].charge == charge && held == old(held) + [1]
      ensures n <= |full| && lru == full[n..]
      ensures usage <= capacity || lru == []
      ensures Overfull(slots, full, held, n, capacity)
    {
      id := Admit(k, value, charge);
      full := lru;
      n := EvictToFit();
    }
  }
}
