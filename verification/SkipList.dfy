/**
 * The memtable's skip list under any number of concurrent inserters and lock-free searches, as a
 * state machine of atomic loads, stores and compare-and-swaps.
 */
module SkipList {
  import opened Keys

  // ---------- Keys and their numbers ----------

  /** A memtable key: a user key and its packed sequence number and kind. */
  datatype Key = Key(user: Bytes, tag: nat)

  predicate KeyLess(a: Key, b: Key) {
    Before(a.user, a.tag, b.user, b.tag)
  }

  /** The first n bytes as a big-endian number, short strings padded with zero bytes. */
  function BigEndian(s: Bytes, n: nat): nat {
    if n == 0 then 0
    else if |s| == 0 then BigEndian(s, n - 1)
    else s[0] * Pow256(n - 1) + BigEndian(s[1..], n - 1)
  }

  function Pow256(n: nat): (p: nat)
    ensures p >= 1
  {
    if n == 0 then 1 else 256 * Pow256(n - 1)
  }

  function KeyNum(k: Key): nat {
    BigEndian(k.user, 8)
  }

  const NO_HINT: nat := 0xFFFF_FFFF_FFFF_FFFF

  lemma Carry(x: nat, y: nat, p: nat, r: nat)
    requires x < y && r < p
    ensures x * p + r < y * p
  {
    assert (x + 1) * p <= y * p;
  }

  lemma {:induction false} BigEndianBound(s: Bytes, n: nat)
    ensures BigEndian(s, n) < Pow256(n)
  {
    if n > 0 {
      if |s| == 0 {
        BigEndianBound(s, n - 1);
      } else {
        BigEndianBound(s[1..], n - 1);
        Carry(s[0], 256, Pow256(n - 1), BigEndian(s[1..], n - 1));
      }
    }
  }

  lemma {:induction false} BigEndianMonotone(a: Bytes, b: Bytes, n: nat)
    requires Less(a, b)
    ensures BigEndian(a, n) <= BigEndian(b, n)
  {
    if n > 0 {
      if |a| == 0 {
        BigEndianEmpty(n);
      } else if a[0] == b[0] {
        BigEndianMonotone(a[1..], b[1..], n - 1);
      } else {
        BigEndianBound(a[1..], n - 1);
        Carry(a[0], b[0], Pow256(n - 1), BigEndian(a[1..], n - 1));
      }
    }
  }

  lemma {:induction false} BigEndianEmpty(n: nat)
    ensures BigEndian([], n) == 0
  {
    if n > 0 { BigEndianEmpty(n - 1); }
  }

  /** Key numbers never exceed the hint for "no successor", and follow the key order. */
  lemma KeyNumMonotone(a: Key, b: Key)
    ensures KeyNum(a) <= NO_HINT
    ensures KeyLess(a, b) ==> KeyNum(a) <= KeyNum(b)
  {
    BigEndianBound(a.user, 8);
    assert Pow256(8) == NO_HINT + 1 by {
      assert Pow256(4) == 0x1_0000_0000;
    }
    if Less(a.user, b.user) {
      BigEndianMonotone(a.user, b.user, 8);
    }
  }

  lemma KeyOrder()
    ensures forall a: Key :: !KeyLess(a, a)
    ensures forall a: Key, b: Key, c: Key :: KeyLess(a, b) && KeyLess(b, c) ==> KeyLess(a, c)
    ensures forall a: Key, b: Key {:trigger KeyLess(a, b)} :: KeyLess(a, b) || a == b || KeyLess(b, a)
    ensures forall a: Key, b: Key {:trigger KeyLess(a, b)} :: KeyLess(a, b) ==> KeyNum(a) <= KeyNum(b)
    ensures forall a: Key {:trigger KeyNum(a)} :: KeyNum(a) <= NO_HINT
  {
    LessIsStrictTotalOrder();
    forall a: Key, b: Key ensures KeyNum(a) <= NO_HINT && (KeyLess(a, b) ==> KeyNum(a) <= KeyNum(b)) {
      KeyNumMonotone(a, b);
    }
  }

  // ---------- The list and its threads ----------

  const LEVELS := 17
  const HEAD: nat := 0

  /** A pointer with the hint stored beside it. */
  datatype Link = Link(cmp: nat, next: Option<nat>)

  /** What never changes in a node. */
  datatype Node = Node(key: Key, height: nat)

  datatype Job = Search(key: Key) | Insert(key: Key)

  /** Where a thread stands, with its local variables. */
  datatype Thread =
    | Idle
    // FindGreaterOrEqual: compare the hint; load the hint; load the pointer
    | Hint(job: Job, x: nat, level: nat, prev: seq<nat>, obs: seq<Option<nat>>)
    | LoadCmp(job: Job, x: nat, level: nat, prev: seq<nat>, obs: seq<Option<nat>>)
    | LoadNext(job: Job, x: nat, level: nat, prev: seq<nat>, obs: seq<Option<nat>>, c: nat)
    | Found(target: Key, result: Option<nat>)
    // FindLessThan, and FindLast without a limit: load the pointer
    | Back(limit: Option<Key>, x: nat, level: nat)
    | FoundBack(limit: Option<Key>, x: nat)
    // Insert: allocate; then per level set the node's own pointer, swap it in, lower the hint or retry
    | Alloc(newKey: Key, prev: seq<nat>, obs: seq<Option<nat>>)
    | Prepare(node: nat, i: nat, prev: seq<nat>, obs: seq<Option<nat>>)
    | Cas(node: nat, i: nat, prev: seq<nat>, obs: seq<Option<nat>>)
    | Lower(node: nat, i: nat, prev: seq<nat>, obs: seq<Option<nat>>, expected: nat)
    | RetryCmp(node: nat, i: nat, prev: seq<nat>, obs: seq<Option<nat>>)
    | RetryNext(node: nat, i: nat, prev: seq<nat>, obs: seq<Option<nat>>, c: nat)
    | Inserted(node: nat)
    // A null pointer was followed
    | Crashed

  /**
   * The allocated nodes, and a record that no thread reads: `linked[l]` the nodes that have been
   * swapped into level l, `claimed` the thread asked to insert a key, `built` the node made for it.
   */
  datatype Index = Index(nodes: map<nat, Node>, linked: seq<set<nat>>, claimed: map<Key, nat>, built: map<Key, nat>)

  /** The pointers, by node and level. */
  type Links = map<(nat, nat), Link>

  datatype State = State(ix: Index, links: Links, threads: map<nat, Thread>)

  datatype Action = StartSearch(key: Key) | StartBack(limit: Option<Key>) | StartInsert(key: Key) | Allocate(id: nat, height: nat) | Run

  function Blank(x: nat, height: nat): Links {
    map l | 0 <= l < height :: (x, l) := Link(NO_HINT, None)
  }

  function Init(tids: set<nat>): State {
    State(Index(map[HEAD := Node(Key([], 0), LEVELS)], seq(LEVELS, _ => {}), map[], map[]),
          Blank(HEAD, LEVELS),
          map t | t in tids :: Idle)
  }

  function NodeNum(ix: Index, n: Option<nat>): nat
    requires n.Some? ==> n.value in ix.nodes
  {
    if n.None? then NO_HINT else KeyNum(ix.nodes[n.value].key)
  }

  /** KeyIsAfterNode: a null node is after every key. */
  predicate IsAfter(ix: Index, k: Key, n: Option<nat>)
    requires n.Some? ==> n.value in ix.nodes
  {
    n.Some? && KeyLess(ix.nodes[n.value].key, k)
  }

  predicate Followable(ix: Index, links: Links, x: nat, l: nat) {
    (x, l) in links && (links[(x, l)].next.Some? ==> links[(x, l)].next.value in ix.nodes)
  }

  predicate Noted(ix: Index, prev: seq<nat>, obs: seq<Option<nat>>) {
    |prev| == LEVELS == |obs| && forall m :: 0 <= m < LEVELS && obs[m].Some? ==> obs[m].value in ix.nodes
  }

  /** The thread is inside an operation and what its next step touches is there to be touched. */
  predicate Runnable(ix: Index, links: Links, th: Thread) {
    if th.Back? then th.level < LEVELS && Followable(ix, links, th.x, th.level)
    else if th.Hint? || th.LoadCmp? || th.LoadNext? then
      th.level < LEVELS && Noted(ix, th.prev, th.obs) && Followable(ix, links, th.x, th.level)
    else if th.Prepare? || th.Cas? || th.Lower? || th.RetryCmp? || th.RetryNext? then
      && th.i < LEVELS == |ix.linked| && Noted(ix, th.prev, th.obs) && th.node in ix.nodes
      && Followable(ix, links, th.prev[th.i], th.i)
    else false
  }

  predicate Resting(th: Thread) {
    th.Idle? || th.Found? || th.FoundBack? || th.Inserted?
  }

  predicate Enabled(ix: Index, links: Links, th: Thread, a: Action) {
    match a
    case StartSearch(_) => Resting(th)
    case StartBack(_) => Resting(th)
    case StartInsert(k) => Resting(th) && k !in ix.claimed
    case Allocate(id, height) => th.Alloc? && id !in ix.nodes && 1 <= height <= LEVELS
    case Run => Runnable(ix, links, th)
  }

  function Begin(job: Job): Thread {
    Hint(job, HEAD, LEVELS - 1, seq(LEVELS, _ => HEAD), seq(LEVELS, _ => None))
  }

  /** What one atomic step leaves: the memory, and where the stepping thread stands. */
  datatype Result = Result(ix: Index, links: Links, th: Thread)

  /** One atomic step of thread t, which stands at th. */
  function Step(ix: Index, links: Links, t: nat, th: Thread, a: Action): (r: Result)
    requires Enabled(ix, links, th, a)
  {
    match a
    case StartSearch(k) => Result(ix, links, Begin(Search(k)))
    case StartBack(limit) => Result(ix, links, Back(limit, HEAD, LEVELS - 1))
    case StartInsert(k) => Result(ix.(claimed := ix.claimed[k := t]), links, Begin(Insert(k)))
    case Allocate(id, height) =>
      Result(ix.(nodes := ix.nodes[id := Node(th.newKey, height)], built := ix.built[th.newKey := id]),
             links + Blank(id, height), Prepare(id, 0, th.prev, th.obs))
    case Run =>
      if th.Back? then Result(ix, links, BackStep(ix, links, th))
      else if th.Hint? || th.LoadCmp? || th.LoadNext? then Result(ix, links, SearchStep(ix, links, th))
      else LinkStep(ix, links, th)
  }

  function SearchStep(ix: Index, links: Links, th: Thread): (th': Thread)
    requires Runnable(ix, links, th) && (th.Hint? || th.LoadCmp? || th.LoadNext?)
  {
    match th
    case Hint(job, x, l, prev, obs) =>
      if l > 0 && links[(x, l)].cmp > KeyNum(job.key)
      then Hint(job, x, l - 1, prev[l := x], obs[l := None])
      else LoadCmp(job, x, l, prev, obs)
    case LoadCmp(job, x, l, prev, obs) => LoadNext(job, x, l, prev, obs, links[(x, l)].cmp)
    case LoadNext(job, x, l, prev, obs, c) =>
      var n := links[(x, l)].next;
      if c < KeyNum(job.key) || IsAfter(ix, job.key, n) then
        if n.None? then Crashed else Hint(job, n.value, l, prev, obs)
      else if l > 0 then Hint(job, x, l - 1, prev[l := x], obs[l := n])
      else if job.Search? then Found(job.key, n)
      else Alloc(job.key, prev[l := x], obs[l := n])
  }

  /** The node is at the limit or beyond it; a null node is beyond every limit, and without one nothing else is. */
  predicate Beyond(ix: Index, limit: Option<Key>, n: Option<nat>)
    requires n.Some? ==> n.value in ix.nodes
  {
    n.None? || (limit.Some? && !KeyLess(ix.nodes[n.value].key, limit.value))
  }

  function BackStep(ix: Index, links: Links, th: Thread): (th': Thread)
    requires Runnable(ix, links, th) && th.Back?
  {
    var n := links[(th.x, th.level)].next;
    if !Beyond(ix, th.limit, n) then Back(th.limit, n.value, th.level)
    else if th.level > 0 then Back(th.limit, th.x, th.level - 1)
    else FoundBack(th.limit, th.x)
  }

  function LinkStep(ix: Index, links: Links, th: Thread): (r: Result)
    requires Runnable(ix, links, th) && !(th.Back? || th.Hint? || th.LoadCmp? || th.LoadNext?)
  {
    match th
    case Prepare(node, i, prev, obs) =>
      var c := NodeNum(ix, obs[i]);
      Result(ix, links[(node, i) := Link(c, obs[i])],
             if c >= KeyNum(ix.nodes[node].key) then Cas(node, i, prev, obs) else RetryCmp(node, i, prev, obs))
    case Cas(node, i, prev, obs) =>
      var link := links[(prev[i], i)];
      if link.next == obs[i] then
        Result(ix.(linked := ix.linked[i := ix.linked[i] + {node}]),
               links[(prev[i], i) := link.(next := Some(node))],
               Lower(node, i, prev, obs, NO_HINT))
      else Result(ix, links, RetryCmp(node, i, prev, obs))
    case Lower(node, i, prev, obs, expected) =>
      var num := KeyNum(ix.nodes[node].key);
      var link := links[(prev[i], i)];
      if expected > num then
        Result(ix, if link.cmp == expected then links[(prev[i], i) := link.(cmp := num)] else links,
               Lower(node, i, prev, obs, link.cmp))
      else
        Result(ix, links, if i + 1 < ix.nodes[node].height then Prepare(node, i + 1, prev, obs) else Inserted(node))
    case RetryCmp(node, i, prev, obs) =>
      Result(ix, links, RetryNext(node, i, prev, obs, links[(prev[i], i)].cmp))
    case RetryNext(node, i, prev, obs, c) =>
      var n := links[(prev[i], i)].next;
      if c < KeyNum(ix.nodes[node].key) || IsAfter(ix, ix.nodes[node].key, n) then
        Result(ix, links, if n.None? then Crashed else RetryCmp(node, i, prev[i := n.value], obs[i := n]))
      else Result(ix, links, Prepare(node, i, prev, obs[i := n]))
  }

  // ---------- The invariant ----------

  predicate InLevel(ix: Index, l: nat, x: nat)
    requires l < |ix.linked|
  {
    x == HEAD || x in ix.linked[l]
  }

  predicate NodeBefore(ix: Index, x: nat, k: Key)
    requires x in ix.nodes
  {
    x == HEAD || KeyLess(ix.nodes[x].key, k)
  }

  /** x is the one node made for k, so no two nodes share a key. */
  predicate Registered(ix: Index, x: nat, k: Key) {
    k in ix.claimed && k in ix.built && ix.built[k] == x
  }

  /** Each level holds only nodes of the level below. */
  ghost predicate Shape(ix: Index) {
    && |ix.linked| == LEVELS
    && HEAD in ix.nodes && ix.nodes[HEAD].height == LEVELS
    && (forall x :: x in ix.nodes ==> ix.nodes[x].height <= LEVELS)
    && (forall l, x :: 0 <= l < LEVELS && x in ix.linked[l] ==> x in ix.nodes && x != HEAD && l < ix.nodes[x].height)
    && (forall x :: x in ix.nodes && x != HEAD ==> Registered(ix, x, ix.nodes[x].key))
    && (forall k :: k in ix.built ==> k in ix.claimed)
    && (forall l :: 0 <= l < LEVELS - 1 ==> ix.linked[l + 1] <= ix.linked[l])
  }

  /** n is the node of level l that follows x in key order. */
  ghost predicate IsSuccessor(ix: Index, l: nat, x: nat, n: Option<nat>)
    requires Shape(ix) && l < LEVELS && x in ix.nodes
  {
    match n
    case None => forall z :: z in ix.linked[l] ==> !NodeBefore(ix, x, ix.nodes[z].key)
    case Some(y) =>
      && y in ix.linked[l] && NodeBefore(ix, x, ix.nodes[y].key)
      && forall z :: z in ix.linked[l] && NodeBefore(ix, x, ix.nodes[z].key) ==>
                       !KeyLess(ix.nodes[z].key, ix.nodes[y].key)
  }

  /** The pointer leads to the next key of its level, and its hint bounds that key's number. */
  ghost predicate LinkOk(ix: Index, l: nat, x: nat, link: Link)
    requires Shape(ix) && l < LEVELS && x in ix.nodes
  {
    IsSuccessor(ix, l, x, link.next) && NodeNum(ix, link.next) <= link.cmp <= NO_HINT
  }

  ghost predicate Lists(ix: Index, links: Links)
    requires Shape(ix)
  {
    && (forall l, x :: x in ix.nodes && 0 <= l < ix.nodes[x].height ==> (x, l) in links)
    && (forall l, x :: 0 <= l < LEVELS && InLevel(ix, l, x) ==> LinkOk(ix, l, x, links[(x, l)]))
  }

  ghost predicate Slot(ix: Index, m: nat, p: nat, o: Option<nat>, k: Key)
    requires Shape(ix) && m < LEVELS
  {
    && InLevel(ix, m, p) && NodeBefore(ix, p, k)
    && (o.Some? ==> o.value in ix.linked[m] && KeyLess(k, ix.nodes[o.value].key))
  }

  ghost predicate Slots(ix: Index, from: nat, prev: seq<nat>, obs: seq<Option<nat>>, k: Key)
    requires Shape(ix)
  {
    Noted(ix, prev, obs) && forall m :: from <= m < LEVELS ==> Slot(ix, m, prev[m], obs[m], k)
  }

  ghost predicate Unbuilt(ix: Index, t: nat, k: Key) {
    k in ix.claimed && ix.claimed[k] == t && k !in ix.built
  }

  ghost predicate Searching(ix: Index, t: nat, job: Job, x: nat, l: nat, prev: seq<nat>, obs: seq<Option<nat>>)
    requires Shape(ix)
  {
    && l < LEVELS && InLevel(ix, l, x) && NodeBefore(ix, x, job.key) && Noted(ix, prev, obs)
    && (job.Insert? ==> Unbuilt(ix, t, job.key) && Slots(ix, l + 1, prev, obs, job.key))
  }

  /**
   * The node is linked exactly at the levels below `upto`, t is the thread inserting it, and the
   * neighbours t has noted for levels `from` and up enclose the node's key.
   */
  ghost predicate Linking(ix: Index, t: nat, node: nat, i: nat, upto: nat, from: nat, prev: seq<nat>, obs: seq<Option<nat>>)
    requires Shape(ix)
  {
    && node in ix.nodes && node != HEAD && ix.claimed[ix.nodes[node].key] == t
    && i < ix.nodes[node].height
    && (forall m :: 0 <= m < LEVELS ==> (node in ix.linked[m] <==> m < upto))
    && Slots(ix, from, prev, obs, ix.nodes[node].key)
    && Slot(ix, i, prev[i], None, ix.nodes[node].key)
  }

  /** A hint below the key's number can only have been read in front of a smaller node. */
  ghost predicate HintRead(ix: Index, l: nat, n: Option<nat>, c: nat, k: Key)
    requires Shape(ix) && l < LEVELS
  {
    c < KeyNum(k) ==> n.Some? && n.value in ix.linked[l] && KeyLess(ix.nodes[n.value].key, k)
  }

  /** The node is linked at every level up to its height. */
  ghost predicate Everywhere(ix: Index, node: nat)
    requires Shape(ix)
  {
    node in ix.linked[0] && forall m :: 0 <= m < ix.nodes[node].height ==> node in ix.linked[m]
  }

  ghost predicate ThreadOk(ix: Index, links: Links, t: nat, th: Thread)
    requires Shape(ix) && Lists(ix, links)
  {
    match th
    case Idle => true
    case Hint(job, x, l, prev, obs) => Searching(ix, t, job, x, l, prev, obs)
    case LoadCmp(job, x, l, prev, obs) => Searching(ix, t, job, x, l, prev, obs)
    case LoadNext(job, x, l, prev, obs, c) =>
      Searching(ix, t, job, x, l, prev, obs) && HintRead(ix, l, links[(x, l)].next, c, job.key)
    case Found(_, _) => true
    case Back(limit, x, l) => l < LEVELS && InLevel(ix, l, x) && (limit.Some? ==> NodeBefore(ix, x, limit.value))
    case FoundBack(_, _) => true
    case Alloc(k, prev, obs) => Unbuilt(ix, t, k) && Slots(ix, 0, prev, obs, k)
    case Prepare(node, i, prev, obs) => Linking(ix, t, node, i, i, i, prev, obs)
    case Cas(node, i, prev, obs) =>
      Linking(ix, t, node, i, i, i, prev, obs) && links[(node, i)] == Link(NodeNum(ix, obs[i]), obs[i])
    case Lower(node, i, prev, obs, _) => Linking(ix, t, node, i, i + 1, i + 1, prev, obs)
    case RetryCmp(node, i, prev, obs) => Linking(ix, t, node, i, i, i + 1, prev, obs)
    case RetryNext(node, i, prev, obs, c) =>
      && Linking(ix, t, node, i, i, i + 1, prev, obs)
      && HintRead(ix, i, links[(prev[i], i)].next, c, ix.nodes[node].key)
    case Inserted(node) => Everywhere(ix, node)
    case Crashed => false
  }

  ghost predicate Inv(s: State) {
    && Shape(s.ix) && Lists(s.ix, s.links)
    && forall t :: t in s.threads ==> ThreadOk(s.ix, s.links, t, s.threads[t])
  }

  // ---------- What a step of one thread leaves to the others ----------

  /** Nodes, claims and links are only added, and what is added belongs to thread t. */
  ghost predicate Grows(ix: Index, ix': Index, t: nat)
    requires Shape(ix) && Shape(ix')
  {
    && (forall x :: x in ix.nodes ==> x in ix'.nodes && ix'.nodes[x] == ix.nodes[x])
    && (forall k :: k in ix'.built && k !in ix.built ==> k in ix'.claimed && ix'.claimed[k] == t)
    && (forall k :: k in ix.claimed ==> k in ix'.claimed && ix'.claimed[k] == ix.claimed[k])
    && (forall l :: 0 <= l < LEVELS ==> ix.linked[l] <= ix'.linked[l])
    && (forall l, x :: 0 <= l < LEVELS && x in ix'.linked[l] && x !in ix.linked[l] ==>
                         ix'.claimed[ix'.nodes[x].key] == t)
  }

  /** In a level, a pointer only ever moves back to a node newly placed before its old target. */
  ghost predicate MovesBack(ix': Index, l: nat, n: Option<nat>, n': Option<nat>)
    requires Shape(ix') && l < LEVELS
  {
    n' == n || (n'.Some? && n'.value in ix'.linked[l]
                && (n.Some? && n.value in ix'.nodes ==> KeyLess(ix'.nodes[n'.value].key, ix'.nodes[n.value].key)))
  }

  /** Pointers in a level move back; pointers outside it change only if they are thread t's. */
  ghost predicate Yields(ix: Index, links: Links, ix': Index, links': Links, t: nat)
    requires Shape(ix) && Shape(ix') && Lists(ix, links) && Lists(ix', links') && Grows(ix, ix', t)
  {
    && (forall l, x :: 0 <= l < LEVELS && InLevel(ix, l, x) ==>
                         MovesBack(ix', l, links[(x, l)].next, links'[(x, l)].next))
    && (forall l, x | x in ix.nodes && 0 <= l < ix.nodes[x].height && !InLevel(ix, l, x) ::
          ix.claimed[ix.nodes[x].key] != t ==> links'[(x, l)] == links[(x, l)])
  }

  /** A step of thread t keeps the memory sound, leaves the others their knowledge and t its own. */
  ghost predicate GoodStep(ix: Index, links: Links, t: nat, r: Result)
    requires Shape(ix) && Lists(ix, links)
  {
    && Shape(r.ix) && Lists(r.ix, r.links) && Grows(ix, r.ix, t) && Yields(ix, links, r.ix, r.links, t)
    && ThreadOk(r.ix, r.links, t, r.th)
  }

  lemma SlotsKept(ix: Index, ix': Index, t: nat, from: nat, prev: seq<nat>, obs: seq<Option<nat>>, k: Key)
    requires Shape(ix) && Shape(ix') && Grows(ix, ix', t)
    requires Slots(ix, from, prev, obs, k)
    ensures Slots(ix', from, prev, obs, k)
  {
    forall m | from <= m < LEVELS ensures Slot(ix', m, prev[m], obs[m], k) {
      assert Slot(ix, m, prev[m], obs[m], k);
    }
  }

  lemma SearchingKept(ix: Index, ix': Index, t: nat, u: nat, job: Job, x: nat, l: nat, prev: seq<nat>, obs: seq<Option<nat>>)
    requires Shape(ix) && Shape(ix') && Grows(ix, ix', t) && u != t
    requires Searching(ix, u, job, x, l, prev, obs)
    ensures Searching(ix', u, job, x, l, prev, obs)
  {
    if job.Insert? {
      SlotsKept(ix, ix', t, l + 1, prev, obs, job.key);
    }
  }

  lemma LinkingKept(ix: Index, ix': Index, t: nat, u: nat, node: nat, i: nat, upto: nat, from: nat,
                    prev: seq<nat>, obs: seq<Option<nat>>)
    requires Shape(ix) && Shape(ix') && Grows(ix, ix', t) && u != t
    requires Linking(ix, u, node, i, upto, from, prev, obs)
    ensures Linking(ix', u, node, i, upto, from, prev, obs)
  {
    SlotsKept(ix, ix', t, from, prev, obs, ix.nodes[node].key);
    forall m | 0 <= m < LEVELS ensures node in ix'.linked[m] <==> m < upto {
      assert node in ix.linked[m] <==> m < upto;
    }
  }

  lemma HintReadKept(ix: Index, ix': Index, t: nat, l: nat, n: Option<nat>, n': Option<nat>, c: nat, k: Key)
    requires Shape(ix) && Shape(ix') && Grows(ix, ix', t) && l < LEVELS && MovesBack(ix', l, n, n')
    requires HintRead(ix, l, n, c, k)
    ensures HintRead(ix', l, n', c, k)
  {
    KeyOrder();
  }

  /** A step of one thread keeps what every other thread knows. */
  lemma OthersUndisturbed(ix: Index, links: Links, ix': Index, links': Links, t: nat, u: nat, th: Thread)
    requires Shape(ix) && Shape(ix') && Lists(ix, links) && Lists(ix', links')
    requires Grows(ix, ix', t) && Yields(ix, links, ix', links', t) && u != t
    requires ThreadOk(ix, links, u, th)
    ensures ThreadOk(ix', links', u, th)
  {
    if th.Hint? || th.LoadCmp? || th.LoadNext? {
      SearchingKept(ix, ix', t, u, th.job, th.x, th.level, th.prev, th.obs);
      if th.LoadNext? {
        HintReadKept(ix, ix', t, th.level, links[(th.x, th.level)].next, links'[(th.x, th.level)].next, th.c, th.job.key);
      }
    } else if th.Alloc? {
      SlotsKept(ix, ix', t, 0, th.prev, th.obs, th.newKey);
    } else if th.Prepare? || th.Cas? || th.Lower? || th.RetryCmp? || th.RetryNext? {
      var i := th.i;
      LinkingKept(ix, ix', t, u, th.node, i, if th.Lower? then i + 1 else i,
                  if th.Prepare? || th.Cas? then i else i + 1, th.prev, th.obs);
      if th.RetryNext? {
        HintReadKept(ix, ix', t, i, links[(th.prev[i], i)].next, links'[(th.prev[i], i)].next,
                     th.c, ix.nodes[th.node].key);
      }
    }
  }

  // ---------- Every step keeps the invariant ----------

  /** A hint loaded in front of a node that is not before k cannot be below k's number. */
  lemma HintLoaded(ix: Index, l: nat, x: nat, link: Link, k: Key)
    requires Shape(ix) && l < LEVELS && x in ix.nodes && LinkOk(ix, l, x, link)
    ensures HintRead(ix, l, link.next, link.cmp, k)
  {
    KeyOrder();
    if link.next.Some? && !KeyLess(ix.nodes[link.next.value].key, k) {
      assert KeyNum(k) <= KeyNum(ix.nodes[link.next.value].key);
    }
  }

  lemma SlotLoaded(ix: Index, l: nat, x: nat, link: Link, k: Key)
    requires Shape(ix) && l < LEVELS && InLevel(ix, l, x) && NodeBefore(ix, x, k) && LinkOk(ix, l, x, link)
    requires !IsAfter(ix, k, link.next)
    requires forall z :: z in ix.linked[l] ==> ix.nodes[z].key != k
    ensures Slot(ix, l, x, link.next, k)
  {
    KeyOrder();
  }

  lemma Recorded(ix: Index, l: nat, prev: seq<nat>, obs: seq<Option<nat>>, x: nat, o: Option<nat>, k: Key)
    requires Shape(ix) && l < LEVELS && Slots(ix, l + 1, prev, obs, k) && Slot(ix, l, x, o, k)
    ensures Slots(ix, l, prev[l := x], obs[l := o], k)
  {
  }

  lemma Descended(ix: Index, t: nat, job: Job, x: nat, l: nat, prev: seq<nat>, obs: seq<Option<nat>>, o: Option<nat>)
    requires Shape(ix) && Searching(ix, t, job, x, l, prev, obs) && l > 0
    requires o.Some? ==> o.value in ix.nodes
    requires job.Insert? ==> Slot(ix, l, x, o, job.key)
    ensures Searching(ix, t, job, x, l - 1, prev[l := x], obs[l := o])
  {
    assert ix.linked[l - 1 + 1] <= ix.linked[l - 1];
    if job.Insert? { Recorded(ix, l, prev, obs, x, o, job.key); }
  }

  /** A thread inside an operation is never stuck. */
  lemma NeverStuck(ix: Index, links: Links, t: nat, th: Thread)
    requires Shape(ix) && Lists(ix, links) && ThreadOk(ix, links, t, th)
    ensures Resting(th) || th.Alloc? || Runnable(ix, links, th)
  {
    if th.Back? || th.Hint? || th.LoadCmp? || th.LoadNext? {
      assert LinkOk(ix, th.level, th.x, links[(th.x, th.level)]);
    } else if th.Prepare? || th.Cas? || th.Lower? || th.RetryCmp? || th.RetryNext? {
      assert Slot(ix, th.i, th.prev[th.i], None, ix.nodes[th.node].key);
      assert LinkOk(ix, th.i, th.prev[th.i], links[(th.prev[th.i], th.i)]);
    }
  }

  lemma SearchStepOk(ix: Index, links: Links, t: nat, th: Thread)
    requires Shape(ix) && Lists(ix, links) && ThreadOk(ix, links, t, th) && (th.Hint? || th.LoadCmp? || th.LoadNext?)
    requires Runnable(ix, links, th)
    ensures ThreadOk(ix, links, t, SearchStep(ix, links, th))
  {
    var job, x, l, prev, obs := th.job, th.x, th.level, th.prev, th.obs;
    var link := links[(x, l)];
    assert LinkOk(ix, l, x, link);
    if th.LoadCmp? {
      HintLoaded(ix, l, x, link, job.key);
    } else if th.Hint? {
      if l > 0 { Descended(ix, t, job, x, l, prev, obs, None); }
    } else if !(th.c < KeyNum(job.key) || IsAfter(ix, job.key, link.next)) {
      if job.Insert? {
        SlotLoaded(ix, l, x, link, job.key);
        Recorded(ix, l, prev, obs, x, link.next, job.key);
      }
      if l > 0 { Descended(ix, t, job, x, l, prev, obs, link.next); }
    }
  }

  lemma BackStepOk(ix: Index, links: Links, t: nat, th: Thread)
    requires Shape(ix) && Lists(ix, links) && ThreadOk(ix, links, t, th) && th.Back? && Runnable(ix, links, th)
    ensures ThreadOk(ix, links, t, BackStep(ix, links, th))
  {
    assert LinkOk(ix, th.level, th.x, links[(th.x, th.level)]);
    if th.level > 0 {
      assert ix.linked[th.level - 1 + 1] <= ix.linked[th.level - 1];
    }
  }

  lemma RetryStepOk(ix: Index, links: Links, t: nat, th: Thread)
    requires Shape(ix) && Lists(ix, links) && ThreadOk(ix, links, t, th) && (th.RetryCmp? || th.RetryNext?)
    requires Runnable(ix, links, th)
    ensures var r := LinkStep(ix, links, th); r == Result(ix, links, r.th) && ThreadOk(ix, links, t, r.th)
  {
    var i := th.i;
    var p, k := th.prev[i], ix.nodes[th.node].key;
    var link := links[(p, i)];
    assert Slot(ix, i, p, None, k);
    assert LinkOk(ix, i, p, link);
    if th.RetryCmp? {
      HintLoaded(ix, i, p, link, k);
    } else if !(th.c < KeyNum(k) || IsAfter(ix, k, link.next)) {
      SlotLoaded(ix, i, p, link, k);
      Recorded(ix, i, th.prev, th.obs, p, link.next, k);
    }
  }

  lemma PrepareStepOk(ix: Index, links: Links, t: nat, th: Thread)
    requires Shape(ix) && Lists(ix, links) && ThreadOk(ix, links, t, th) && th.Prepare? && Runnable(ix, links, th)
    ensures GoodStep(ix, links, t, LinkStep(ix, links, th))
  {
    assert !InLevel(ix, th.i, th.node);
  }

  /** Where the swapped-in node's neighbours stand: nothing of the level lies between. */
  lemma SwappedSuccessor(ix: Index, links: Links, ix': Index, i: nat, p: nat, node: nat, o: Option<nat>, x: nat)
    requires Shape(ix) && Shape(ix') && Lists(ix, links) && i < LEVELS
    requires node in ix.nodes && node != HEAD && node !in ix.linked[i] && Slot(ix, i, p, o, ix.nodes[node].key)
    requires links[(p, i)].next == o && ix'.nodes == ix.nodes && ix'.linked[i] == ix.linked[i] + {node}
    requires InLevel(ix', i, x)
    ensures IsSuccessor(ix', i, x, if x == p then Some(node) else if x == node then o else links[(x, i)].next)
  {
    KeyOrder();
    assert LinkOk(ix, i, p, links[(p, i)]);
    if x != p && x != node {
      assert LinkOk(ix, i, x, links[(x, i)]);
    }
  }

  function SwapIndex(ix: Index, i: nat, node: nat): Index
    requires i < |ix.linked|
  {
    ix.(linked := ix.linked[i := ix.linked[i] + {node}])
  }

  function SwapLinks(links: Links, i: nat, p: nat, node: nat): Links
    requires (p, i) in links
  {
    links[(p, i) := links[(p, i)].(next := Some(node))]
  }

  lemma SwapLists(ix: Index, links: Links, node: nat, i: nat, p: nat, o: Option<nat>)
    requires Shape(ix) && Lists(ix, links) && node in ix.nodes && node != HEAD && i < ix.nodes[node].height
    requires node !in ix.linked[i] && Slot(ix, i, p, o, ix.nodes[node].key) && links[(p, i)].next == o
    requires links[(node, i)] == Link(NodeNum(ix, o), o) && Shape(SwapIndex(ix, i, node))
    ensures Lists(SwapIndex(ix, i, node), SwapLinks(links, i, p, node))
  {
    var ix', links' := SwapIndex(ix, i, node), SwapLinks(links, i, p, node);
    forall l, x | 0 <= l < LEVELS && InLevel(ix', l, x) ensures LinkOk(ix', l, x, links'[(x, l)]) {
      assert x != node || l != i ==> LinkOk(ix, l, x, links[(x, l)]);
      if l == i {
        KeyOrder();
        SwappedSuccessor(ix, links, ix', i, p, node, o, x);
      }
    }
  }

  lemma SwapYields(ix: Index, links: Links, t: nat, node: nat, i: nat, p: nat, o: Option<nat>)
    requires Shape(ix) && Lists(ix, links) && node in ix.nodes && node != HEAD && i < ix.nodes[node].height
    requires ix.claimed[ix.nodes[node].key] == t && Slot(ix, i, p, o, ix.nodes[node].key) && links[(p, i)].next == o
    requires Shape(SwapIndex(ix, i, node)) && Lists(SwapIndex(ix, i, node), SwapLinks(links, i, p, node))
    ensures Grows(ix, SwapIndex(ix, i, node), t)
    ensures Yields(ix, links, SwapIndex(ix, i, node), SwapLinks(links, i, p, node), t)
  {
  }

  /** The compare-and-swap that found its expected pointer puts the node into its place in the level. */
  lemma SwapOk(ix: Index, links: Links, t: nat, node: nat, i: nat, prev: seq<nat>, obs: seq<Option<nat>>)
    requires Shape(ix) && Lists(ix, links) && ThreadOk(ix, links, t, Cas(node, i, prev, obs))
    requires links[(prev[i], i)].next == obs[i]
    ensures GoodStep(ix, links, t, Result(SwapIndex(ix, i, node), SwapLinks(links, i, prev[i], node),
                                          Lower(node, i, prev, obs, NO_HINT)))
  {
    var p, o, k := prev[i], obs[i], ix.nodes[node].key;
    assert Slot(ix, i, p, o, k);
    SwapShape(ix, i, node);
    SwapLists(ix, links, node, i, p, o);
    SwapYields(ix, links, t, node, i, p, o);
    SlotsKept(ix, SwapIndex(ix, i, node), t, i, prev, obs, k);
  }

  lemma SwapShape(ix: Index, i: nat, node: nat)
    requires Shape(ix) && node in ix.nodes && node != HEAD && i < ix.nodes[node].height
    requires i > 0 ==> node in ix.linked[i - 1]
    ensures Shape(SwapIndex(ix, i, node))
  {
    var ix' := SwapIndex(ix, i, node);
    forall l | 0 <= l < LEVELS - 1 ensures ix'.linked[l + 1] <= ix'.linked[l] {
      assert ix.linked[l + 1] <= ix.linked[l];
    }
  }

  /** The hint may be lowered to a node's number once the node stands behind the pointer. */
  lemma LowerBounds(ix: Index, links: Links, i: nat, p: nat, node: nat)
    requires Shape(ix) && Lists(ix, links) && i < LEVELS && InLevel(ix, i, p)
    requires node in ix.linked[i] && NodeBefore(ix, p, ix.nodes[node].key)
    ensures LinkOk(ix, i, p, links[(p, i)].(cmp := KeyNum(ix.nodes[node].key)))
  {
    KeyOrder();
    var n := links[(p, i)].next;
    assert LinkOk(ix, i, p, links[(p, i)]);
    assert !KeyLess(ix.nodes[node].key, ix.nodes[n.value].key);
  }

  lemma LowerStepOk(ix: Index, links: Links, t: nat, th: Thread)
    requires Shape(ix) && Lists(ix, links) && ThreadOk(ix, links, t, th) && th.Lower? && Runnable(ix, links, th)
    ensures GoodStep(ix, links, t, LinkStep(ix, links, th))
  {
    var i, node := th.i, th.node;
    assert Slot(ix, i, th.prev[i], None, ix.nodes[node].key);
    if th.expected > KeyNum(ix.nodes[node].key) {
      LowerBounds(ix, links, i, th.prev[i], node);
    } else if i + 1 < ix.nodes[node].height {
      assert Slot(ix, i + 1, th.prev[i + 1], th.obs[i + 1], ix.nodes[node].key);
    } else {
      assert Everywhere(ix, node);
    }
  }

  /** A larger index with the same levels judges every pointer alike. */
  lemma SameLevelsLists(ix: Index, ix': Index, links: Links, links': Links, t: nat)
    requires Shape(ix) && Shape(ix') && Lists(ix, links) && Grows(ix, ix', t) && ix'.linked == ix.linked
    requires forall l, x :: x in ix'.nodes && 0 <= l < ix'.nodes[x].height ==> (x, l) in links'
    requires forall l, x :: x in ix.nodes && 0 <= l < ix.nodes[x].height ==> links'[(x, l)] == links[(x, l)]
    ensures Lists(ix', links') && Yields(ix, links, ix', links', t)
  {
    forall l, x | 0 <= l < LEVELS && InLevel(ix', l, x) ensures LinkOk(ix', l, x, links'[(x, l)]) {
      assert InLevel(ix, l, x);
      assert LinkOk(ix, l, x, links[(x, l)]);
    }
  }

  lemma StartInsertOk(ix: Index, links: Links, t: nat, k: Key)
    requires Shape(ix) && Lists(ix, links) && k !in ix.claimed
    ensures GoodStep(ix, links, t, Result(ix.(claimed := ix.claimed[k := t]), links, Begin(Insert(k))))
  {
    var ix' := ix.(claimed := ix.claimed[k := t]);
    SameLevelsLists(ix, ix', links, links, t);
  }

  lemma AllocateIndex(ix: Index, t: nat, k: Key, id: nat, height: nat)
    requires Shape(ix) && Unbuilt(ix, t, k) && id !in ix.nodes && 1 <= height <= LEVELS
    ensures var ix' := ix.(nodes := ix.nodes[id := Node(k, height)], built := ix.built[k := id]);
            Shape(ix') && Grows(ix, ix', t)
  {
  }

  lemma BlankAdded(links: Links, id: nat, height: nat)
    ensures forall l :: 0 <= l < height ==> (id, l) in links + Blank(id, height)
    ensures forall l, x :: (x, l) in links ==> (x, l) in links + Blank(id, height)
    ensures forall l, x :: (x, l) in links && x != id ==> (links + Blank(id, height))[(x, l)] == links[(x, l)]
  {
    assert forall l :: 0 <= l < height ==> (id, l) in Blank(id, height);
  }

  lemma AllocateOk(ix: Index, links: Links, t: nat, th: Thread, id: nat, height: nat)
    requires Shape(ix) && Lists(ix, links) && ThreadOk(ix, links, t, th)
    requires th.Alloc? && id !in ix.nodes && 1 <= height <= LEVELS
    ensures GoodStep(ix, links, t, Step(ix, links, t, th, Allocate(id, height)))
  {
    var ix' := ix.(nodes := ix.nodes[id := Node(th.newKey, height)], built := ix.built[th.newKey := id]);
    var links' := links + Blank(id, height);
    AllocateIndex(ix, t, th.newKey, id, height);
    BlankAdded(links, id, height);
    SameLevelsLists(ix, ix', links, links', t);
    AllocateSlots(ix, ix', t, th.newKey, id, th.prev, th.obs);
  }

  lemma AllocateSlots(ix: Index, ix': Index, t: nat, k: Key, id: nat, prev: seq<nat>, obs: seq<Option<nat>>)
    requires Shape(ix) && Shape(ix') && Grows(ix, ix', t) && ix'.linked == ix.linked && Slots(ix, 0, prev, obs, k)
    requires id !in ix.nodes && id in ix'.nodes && ix'.nodes[id].key == k && ix'.nodes[id].height >= 1
    requires ix'.claimed[k] == t
    ensures Linking(ix', t, id, 0, 0, 0, prev, obs)
  {
    SlotsKept(ix, ix', t, 0, prev, obs, k);
    assert Slot(ix', 0, prev[0], obs[0], k);
  }

  lemma LocalStepOk(ix: Index, links: Links, t: nat, th: Thread)
    requires Shape(ix) && Lists(ix, links) && ThreadOk(ix, links, t, th)
    ensures GoodStep(ix, links, t, Result(ix, links, th))
  {
  }

  lemma CasStepOk(ix: Index, links: Links, t: nat, th: Thread)
    requires Shape(ix) && Lists(ix, links) && ThreadOk(ix, links, t, th) && th.Cas? && Runnable(ix, links, th)
    ensures GoodStep(ix, links, t, LinkStep(ix, links, th))
  {
    if links[(th.prev[th.i], th.i)].next == th.obs[th.i] {
      SwapOk(ix, links, t, th.node, th.i, th.prev, th.obs);
    } else {
      LocalStepOk(ix, links, t, RetryCmp(th.node, th.i, th.prev, th.obs));
    }
  }

  lemma FindStepOk(ix: Index, links: Links, t: nat, th: Thread)
    requires Shape(ix) && Lists(ix, links) && ThreadOk(ix, links, t, th) && Runnable(ix, links, th)
    requires th.Back? || th.Hint? || th.LoadCmp? || th.LoadNext?
    ensures GoodStep(ix, links, t, Step(ix, links, t, th, Run))
  {
    if th.Back? {
      BackStepOk(ix, links, t, th);
      LocalStepOk(ix, links, t, BackStep(ix, links, th));
    } else {
      SearchStepOk(ix, links, t, th);
      LocalStepOk(ix, links, t, SearchStep(ix, links, th));
    }
  }

  lemma LinkStepOk(ix: Index, links: Links, t: nat, th: Thread)
    requires Shape(ix) && Lists(ix, links) && ThreadOk(ix, links, t, th) && Runnable(ix, links, th)
    requires !(th.Back? || th.Hint? || th.LoadCmp? || th.LoadNext?)
    ensures GoodStep(ix, links, t, LinkStep(ix, links, th))
  {
    if th.RetryCmp? || th.RetryNext? {
      RetryStepOk(ix, links, t, th);
      LocalStepOk(ix, links, t, LinkStep(ix, links, th).th);
    } else if th.Prepare? {
      PrepareStepOk(ix, links, t, th);
    } else if th.Lower? {
      LowerStepOk(ix, links, t, th);
    } else {
      CasStepOk(ix, links, t, th);
    }
  }

  lemma StepOk(ix: Index, links: Links, t: nat, th: Thread, a: Action)
    requires Shape(ix) && Lists(ix, links) && ThreadOk(ix, links, t, th) && Enabled(ix, links, th, a)
    ensures GoodStep(ix, links, t, Step(ix, links, t, th, a))
  {
    match a {
      case StartSearch(k) => LocalStepOk(ix, links, t, Begin(Search(k)));
      case StartBack(limit) => LocalStepOk(ix, links, t, Back(limit, HEAD, LEVELS - 1));
      case StartInsert(k) => StartInsertOk(ix, links, t, k);
      case Allocate(id, height) => AllocateOk(ix, links, t, th, id, height);
      case Run =>
        if th.Back? || th.Hint? || th.LoadCmp? || th.LoadNext? {
          FindStepOk(ix, links, t, th);
        } else {
          LinkStepOk(ix, links, t, th);
        }
    }
  }

  // ---------- Runs ----------

  function NextState(s: State, t: nat, a: Action): State
    requires t in s.threads && Enabled(s.ix, s.links, s.threads[t], a)
  {
    var r := Step(s.ix, s.links, t, s.threads[t], a);
    State(r.ix, r.links, s.threads[t := r.th])
  }

  /** A run from the empty list, `sched[i]` naming the thread and action of step i. */
  ghost predicate IsRun(run: seq<State>, sched: seq<(nat, Action)>) {
    && |run| == |sched| + 1
    && (exists tids :: run[0] == Init(tids))
    && forall i :: 0 <= i < |sched| ==>
         && sched[i].0 in run[i].threads
         && Enabled(run[i].ix, run[i].links, run[i].threads[sched[i].0], sched[i].1)
         && run[i + 1] == NextState(run[i], sched[i].0, sched[i].1)
  }

  lemma InitInv(tids: set<nat>)
    ensures Inv(Init(tids))
  {
  }

  lemma NextInv(s: State, t: nat, a: Action)
    requires Inv(s) && t in s.threads && Enabled(s.ix, s.links, s.threads[t], a)
    ensures Inv(NextState(s, t, a))
    ensures Grows(s.ix, NextState(s, t, a).ix, t)
  {
    StepOk(s.ix, s.links, t, s.threads[t], a);
    var s' := NextState(s, t, a);
    forall u | u in s'.threads ensures ThreadOk(s'.ix, s'.links, u, s'.threads[u]) {
      if u != t {
        OthersUndisturbed(s.ix, s.links, s'.ix, s'.links, t, u, s.threads[u]);
      }
    }
  }

  /** Every state of every run, under any interleaving, satisfies the invariant. */
  lemma {:induction false} RunInv(run: seq<State>, sched: seq<(nat, Action)>, i: nat)
    requires IsRun(run, sched) && i < |run|
    ensures Inv(run[i])
  {
    if i == 0 {
      var tids :| run[0] == Init(tids);
      InitInv(tids);
    } else {
      RunInv(run, sched, i - 1);
      NextInv(run[i - 1], sched[i - 1].0, sched[i - 1].1);
    }
  }

  ghost predicate Persists(ix: Index, ix': Index, l: nat, x: nat) {
    && l < |ix.linked| && l < |ix'.linked|
    && (x in ix.linked[l] ==> x in ix'.linked[l])
    && (x in ix.nodes ==> x in ix'.nodes && ix'.nodes[x] == ix.nodes[x])
  }

  /** No node ever leaves a level or changes. */
  lemma RunPersists(run: seq<State>, sched: seq<(nat, Action)>, i: nat, j: nat, l: nat, x: nat)
    requires IsRun(run, sched) && i <= j < |run| && l < LEVELS
    ensures Persists(run[i].ix, run[j].ix, l, x)
  {
    var ixs := seq(|run|, k requires 0 <= k < |run| => run[k].ix);
    HasLevels(run, sched, i);
    forall k | i <= k < j ensures Persists(ixs[k], ixs[k + 1], l, x) {
      PersistsAt(run, sched, k, l, x);
    }
    PersistsThrough(ixs, i, j, l, x);
  }

  lemma {:induction false} PersistsThrough(ixs: seq<Index>, i: nat, j: nat, l: nat, x: nat)
    requires i <= j < |ixs| && l < |ixs[i].linked| && forall k :: i <= k < j ==> Persists(ixs[k], ixs[k + 1], l, x)
    ensures Persists(ixs[i], ixs[j], l, x)
  {
    if i < j {
      PersistsThrough(ixs, i, j - 1, l, x);
      assert Persists(ixs[j - 1], ixs[j - 1 + 1], l, x);
    }
  }

  lemma HasLevels(run: seq<State>, sched: seq<(nat, Action)>, i: nat)
    requires IsRun(run, sched) && i < |run|
    ensures |run[i].ix.linked| == LEVELS
  {
    RunInv(run, sched, i);
  }

  lemma PersistsAt(run: seq<State>, sched: seq<(nat, Action)>, i: nat, l: nat, x: nat)
    requires IsRun(run, sched) && i < |sched| && l < LEVELS
    ensures Persists(run[i].ix, run[i + 1].ix, l, x)
  {
    RunInv(run, sched, i);
    StepPersists(run[i], sched[i].0, sched[i].1, l, x);
  }

  lemma StepPersists(s: State, t: nat, a: Action, l: nat, x: nat)
    requires Inv(s) && t in s.threads && Enabled(s.ix, s.links, s.threads[t], a) && l < LEVELS
    ensures Persists(s.ix, NextState(s, t, a).ix, l, x)
  {
    NextInv(s, t, a);
  }

  // ---------- What follows ----------

  /** The least key of the list at or after k, if any. */
  ghost predicate IsLowerBound(ix: Index, k: Key, n: Option<nat>)
    requires Shape(ix)
  {
    match n
    case None => forall z :: z in ix.linked[0] ==> KeyLess(ix.nodes[z].key, k)
    case Some(y) =>
      && y in ix.linked[0] && !KeyLess(ix.nodes[y].key, k)
      && forall z :: z in ix.linked[0] && !KeyLess(ix.nodes[z].key, k) ==> !KeyLess(ix.nodes[z].key, ix.nodes[y].key)
  }

  /** When a search ends, its answer is right for the list of that moment, and no pointer it followed was null. */
  lemma SearchAnswers(run: seq<State>, sched: seq<(nat, Action)>, i: nat)
    requires IsRun(run, sched) && i < |sched|
    requires var th := run[i].threads[sched[i].0]; th.LoadNext? && th.job.Search? && sched[i].1.Run?
    requires run[i + 1].threads[sched[i].0].Found?
    ensures Inv(run[i + 1])
    ensures var th' := run[i + 1].threads[sched[i].0];
            th'.target == run[i].threads[sched[i].0].job.key && IsLowerBound(run[i + 1].ix, th'.target, th'.result)
  {
    RunInv(run, sched, i);
    RunInv(run, sched, i + 1);
    var s, t := run[i], sched[i].0;
    var th := s.threads[t];
    assert th.level == 0;
    LowerBoundLoaded(s.ix, th.x, s.links[(th.x, 0)], th.job.key);
  }

  lemma LowerBoundLoaded(ix: Index, x: nat, link: Link, k: Key)
    requires Shape(ix) && InLevel(ix, 0, x) && NodeBefore(ix, x, k) && LinkOk(ix, 0, x, link)
    requires !IsAfter(ix, k, link.next)
    ensures IsLowerBound(ix, k, link.next)
  {
    KeyOrder();
  }

  /** The greatest key of the list before the limit, or of all; the head if there is none. */
  ghost predicate IsGreatest(ix: Index, limit: Option<Key>, x: nat)
    requires Shape(ix)
  {
    && InLevel(ix, 0, x) && (limit.Some? ==> NodeBefore(ix, x, limit.value))
    && forall z :: z in ix.linked[0] && (limit.Some? ==> KeyLess(ix.nodes[z].key, limit.value)) ==>
                     x != HEAD && !KeyLess(ix.nodes[x].key, ix.nodes[z].key)
  }

  /** A backward search ends on the greatest key before its limit in the list as it is at that moment. */
  lemma BackAnswers(run: seq<State>, sched: seq<(nat, Action)>, i: nat)
    requires IsRun(run, sched) && i < |sched| && sched[i].1.Run?
    requires run[i].threads[sched[i].0].Back? && run[i + 1].threads[sched[i].0].FoundBack?
    ensures var th, th' := run[i].threads[sched[i].0], run[i + 1].threads[sched[i].0];
            && th'.limit == th.limit && run[i + 1].ix == run[i].ix
            && Shape(run[i].ix) && IsGreatest(run[i].ix, th'.limit, th'.x)
  {
    BackSound(run, sched, i);
    var th := run[i].threads[sched[i].0];
    BackEnds(run[i].ix, run[i].links, sched[i].0, th);
  }

  lemma BackSound(run: seq<State>, sched: seq<(nat, Action)>, i: nat)
    requires IsRun(run, sched) && i < |sched|
    ensures var s, t := run[i], sched[i].0;
            t in s.threads && Shape(s.ix) && Lists(s.ix, s.links) && ThreadOk(s.ix, s.links, t, s.threads[t])
  {
    RunInv(run, sched, i);
  }

  lemma BackEnds(ix: Index, links: Links, t: nat, th: Thread)
    requires Shape(ix) && Lists(ix, links) && ThreadOk(ix, links, t, th) && th.Back? && Runnable(ix, links, th)
    requires BackStep(ix, links, th).FoundBack?
    ensures IsGreatest(ix, th.limit, th.x)
  {
    GreatestLoaded(ix, th.x, links[(th.x, 0)], th.limit);
  }

  lemma GreatestLoaded(ix: Index, x: nat, link: Link, limit: Option<Key>)
    requires Shape(ix) && InLevel(ix, 0, x) && LinkOk(ix, 0, x, link) && Beyond(ix, limit, link.next)
    requires limit.Some? ==> NodeBefore(ix, x, limit.value)
    ensures IsGreatest(ix, limit, x)
  {
    KeyOrder();
    forall z | z in ix.linked[0] && (limit.Some? ==> KeyLess(ix.nodes[z].key, limit.value))
      ensures x != HEAD && !KeyLess(ix.nodes[x].key, ix.nodes[z].key)
    {
      assert !NodeBefore(ix, x, ix.nodes[z].key);
    }
  }

  /** A key linked at some moment of the run is never missed by a search that ends later. */
  lemma SearchSeesEarlierInsert(run: seq<State>, sched: seq<(nat, Action)>, i: nat, j: nat, node: nat)
    requires IsRun(run, sched) && i <= j < |sched| && |run[i].ix.linked| == LEVELS
    requires node in run[i].ix.linked[0] && node in run[i].ix.nodes
    requires var th := run[j].threads[sched[j].0]; th.LoadNext? && th.job.Search? && sched[j].1.Run?
    requires run[j + 1].threads[sched[j].0].Found?
    ensures var th := run[j + 1].threads[sched[j].0];
            !KeyLess(run[i].ix.nodes[node].key, th.target) ==>
              th.result.Some? && th.result.value in run[j + 1].ix.nodes
              && !KeyLess(run[i].ix.nodes[node].key, run[j + 1].ix.nodes[th.result.value].key)
  {
    SearchAnswers(run, sched, j);
    RunPersists(run, sched, i, j + 1, 0, node);
  }

  // ---------- Requests and their answers ----------

  predicate IsStart(a: Action) {
    a.StartSearch? || a.StartBack? || a.StartInsert?
  }

  /** The thread is at work on the operation it was asked for, or done with it. */
  ghost predicate Serves(ix: Index, th: Thread, a: Action)
    requires IsStart(a)
  {
    match a
    case StartSearch(k) => if th.Found? then th.target == k else Finding(th) && th.job == Search(k)
    case StartBack(limit) => (th.Back? || th.FoundBack?) && th.limit == limit
    case StartInsert(k) =>
      if Finding(th) then th.job == Insert(k)
      else if th.Alloc? then th.newKey == k
      else LinksNode(th) && th.node in ix.nodes && ix.nodes[th.node].key == k
  }

  predicate Finding(th: Thread) { th.Hint? || th.LoadCmp? || th.LoadNext? }

  predicate LinksNode(th: Thread) {
    th.Prepare? || th.Cas? || th.Lower? || th.RetryCmp? || th.RetryNext? || th.Inserted?
  }

  lemma StartServes(ix: Index, links: Links, t: nat, th: Thread, a: Action)
    requires Enabled(ix, links, th, a) && IsStart(a)
    ensures var r := Step(ix, links, t, th, a); Serves(r.ix, r.th, a)
  {
  }

  lemma StepServes(ix: Index, links: Links, t: nat, th: Thread, a: Action, asked: Action)
    requires Enabled(ix, links, th, a) && IsStart(asked) && !IsStart(a) && Serves(ix, th, asked)
    ensures var r := Step(ix, links, t, th, a); r.th.Crashed? || Serves(r.ix, r.th, asked)
  {
    if a.Run? && LinksNode(th) {
      LinkServes(ix, links, th);
    }
  }

  lemma LinkServes(ix: Index, links: Links, th: Thread)
    requires Runnable(ix, links, th) && LinksNode(th)
    ensures var r := LinkStep(ix, links, th);
            r.ix.nodes == ix.nodes && (r.th.Crashed? || (LinksNode(r.th) && r.th.node == th.node))
  {
  }

  lemma NoCrash(ix: Index, links: Links, t: nat, th: Thread, a: Action)
    requires Shape(ix) && Lists(ix, links) && ThreadOk(ix, links, t, th) && Enabled(ix, links, th, a)
    ensures !Step(ix, links, t, th, a).th.Crashed?
  {
    StepOk(ix, links, t, th, a);
    assert ThreadOk(Step(ix, links, t, th, a).ix, Step(ix, links, t, th, a).links, t, Step(ix, links, t, th, a).th);
  }

  lemma OthersServe(ix: Index, ix': Index, t: nat, th: Thread, asked: Action)
    requires Shape(ix) && Shape(ix') && Grows(ix, ix', t) && IsStart(asked) && Serves(ix, th, asked)
    ensures Serves(ix', th, asked)
  {
  }

  lemma NextServes(s: State, u: nat, a: Action, t: nat, asked: Action)
    requires Inv(s) && u in s.threads && Enabled(s.ix, s.links, s.threads[u], a) && t in s.threads && IsStart(asked)
    requires (u == t ==> !IsStart(a)) && Serves(s.ix, s.threads[t], asked)
    ensures var s' := NextState(s, u, a); t in s'.threads && Serves(s'.ix, s'.threads[t], asked)
  {
    if u == t {
      NoCrash(s.ix, s.links, t, s.threads[t], a);
      StepServes(s.ix, s.links, t, s.threads[t], a, asked);
    } else {
      NextInv(s, u, a);
      OthersServe(s.ix, NextState(s, u, a).ix, u, s.threads[t], asked);
    }
  }

  /** From its request on, and until its next one, a thread works on what it was asked for. */
  lemma {:induction false} RunServes(run: seq<State>, sched: seq<(nat, Action)>, t: nat, i: nat, j: nat)
    requires IsRun(run, sched) && i < j < |run| && sched[i].0 == t && IsStart(sched[i].1)
    requires forall k :: i < k < j && sched[k].0 == t ==> !IsStart(sched[k].1)
    ensures t in run[j].threads && Serves(run[j].ix, run[j].threads[t], sched[i].1)
  {
    if j == i + 1 {
      StartServes(run[i].ix, run[i].links, t, run[i].threads[t], sched[i].1);
    } else {
      RunServes(run, sched, t, i, j - 1);
      RunInv(run, sched, j - 1);
      NextServes(run[j - 1], sched[j - 1].0, sched[j - 1].1, t, sched[i].1);
    }
  }

  /** An insertion ends with a node of the key asked for, linked at all its levels. */
  lemma InsertAnswers(run: seq<State>, sched: seq<(nat, Action)>, t: nat, i: nat, j: nat)
    requires IsRun(run, sched) && i < j < |run| && sched[i].0 == t && sched[i].1.StartInsert?
    requires forall k :: i < k < j && sched[k].0 == t ==> !IsStart(sched[k].1)
    requires t in run[j].threads && run[j].threads[t].Inserted?
    ensures var node := run[j].threads[t].node;
            && node in run[j].ix.nodes && run[j].ix.nodes[node].key == sched[i].1.key
            && |run[j].ix.linked| == LEVELS && 1 <= run[j].ix.nodes[node].height <= LEVELS
            && forall m :: 0 <= m < run[j].ix.nodes[node].height ==> node in run[j].ix.linked[m]
  {
    RunServes(run, sched, t, i, j);
    RunInv(run, sched, j);
  }

  // A level read as the list its pointers form.

  function Ahead(ix: Index, l: nat, x: nat): set<nat>
    requires l < |ix.linked| && x in ix.nodes && ix.linked[l] <= ix.nodes.Keys
  {
    set z | z in ix.linked[l] && NodeBefore(ix, x, ix.nodes[z].key)
  }

  /** What a reader meets that follows the pointers of level l from x. */
  ghost function Walk(ix: Index, links: Links, l: nat, x: nat): (r: seq<nat>)
    requires Shape(ix) && Lists(ix, links) && l < LEVELS && InLevel(ix, l, x) && ix.linked[l] <= ix.nodes.Keys
    ensures forall a :: 0 <= a < |r| ==> r[a] in ix.linked[l]
    decreases |Ahead(ix, l, x)|
  {
    assert LinkOk(ix, l, x, links[(x, l)]);
    match links[(x, l)].next
    case None => []
    case Some(y) =>
      AheadShrinks(ix, l, x, y);
      [y] + Walk(ix, links, l, y)
  }

  lemma AheadShrinks(ix: Index, l: nat, x: nat, y: nat)
    requires Shape(ix) && l < LEVELS && InLevel(ix, l, x) && ix.linked[l] <= ix.nodes.Keys
    requires IsSuccessor(ix, l, x, Some(y))
    ensures Ahead(ix, l, x) == {y} + Ahead(ix, l, y) && y !in Ahead(ix, l, y)
    ensures |Ahead(ix, l, y)| < |Ahead(ix, l, x)|
  {
    KeyOrder();
    forall z | z in Ahead(ix, l, x) ensures z == y || z in Ahead(ix, l, y) {
      assert Registered(ix, z, ix.nodes[z].key) && Registered(ix, y, ix.nodes[y].key);
    }
    assert Ahead(ix, l, x) - {y} == Ahead(ix, l, y);
  }

  ghost predicate Increasing(ix: Index, w: seq<nat>) {
    && (forall a :: 0 <= a < |w| ==> w[a] in ix.nodes)
    && (forall a, b :: 0 <= a < b < |w| ==> KeyLess(ix.nodes[w[a]].key, ix.nodes[w[b]].key))
  }

  /** Following a level's pointers from the head meets each of its nodes once, in key order. */
  lemma {:induction false} WalkIsSortedLevel(ix: Index, links: Links, l: nat, x: nat)
    requires Shape(ix) && Lists(ix, links) && l < LEVELS && InLevel(ix, l, x) && ix.linked[l] <= ix.nodes.Keys
    ensures forall z :: z in Walk(ix, links, l, x) <==> z in Ahead(ix, l, x)
    ensures Increasing(ix, Walk(ix, links, l, x))
    decreases |Ahead(ix, l, x)|
  {
    assert LinkOk(ix, l, x, links[(x, l)]);
    if links[(x, l)].next.Some? {
      var y := links[(x, l)].next.value;
      AheadShrinks(ix, l, x, y);
      WalkIsSortedLevel(ix, links, l, y);
      var w := Walk(ix, links, l, y);
      assert Walk(ix, links, l, x) == [y] + w;
      forall a | 0 <= a < |w| ensures KeyLess(ix.nodes[y].key, ix.nodes[w[a]].key) {
        assert w[a] in Ahead(ix, l, y);
      }
      IncreasingFrom(ix, y, w);
    }
  }

  lemma IncreasingFrom(ix: Index, y: nat, w: seq<nat>)
    requires y in ix.nodes && Increasing(ix, w)
    requires forall a :: 0 <= a < |w| ==> KeyLess(ix.nodes[y].key, ix.nodes[w[a]].key)
    ensures Increasing(ix, [y] + w)
  {
  }

  /**
   * In every state of every run: each level, read from the head, is a sorted list without repeats
   * and holds only nodes of the level below; every hint bounds its successor's number; no thread has
   * followed a null pointer or is stuck.
   */
  lemma RunsAreSafe(run: seq<State>, sched: seq<(nat, Action)>, i: nat)
    requires IsRun(run, sched) && i < |run|
    ensures Shape(run[i].ix) && Lists(run[i].ix, run[i].links)
    ensures forall l :: 0 <= l < LEVELS ==> LevelIsList(run[i].ix, run[i].links, l)
    ensures forall t :: t in run[i].threads ==>
              var th := run[i].threads[t]; Resting(th) || th.Alloc? || Runnable(run[i].ix, run[i].links, th)
  {
    RunInv(run, sched, i);
    var ix, links := run[i].ix, run[i].links;
    forall l | 0 <= l < LEVELS ensures LevelIsList(ix, links, l) {
      WalkIsSortedLevel(ix, links, l, HEAD);
      assert Ahead(ix, l, HEAD) == ix.linked[l];
    }
    forall t | t in run[i].threads
      ensures var th := run[i].threads[t]; Resting(th) || th.Alloc? || Runnable(ix, links, th)
    {
      NeverStuck(ix, links, t, run[i].threads[t]);
    }
  }

  /** Read from the head, level l is a sorted list of exactly its nodes, all of them nodes of the level below. */
  ghost predicate LevelIsList(ix: Index, links: Links, l: nat)
    requires Shape(ix) && Lists(ix, links) && l < LEVELS
  {
    && ix.linked[l] <= ix.nodes.Keys
    && Increasing(ix, Walk(ix, links, l, HEAD))
    && (forall z :: z in Walk(ix, links, l, HEAD) <==> z in ix.linked[l])
    && (l > 0 ==> ix.linked[l] <= ix.linked[l - 1])
  }
}
