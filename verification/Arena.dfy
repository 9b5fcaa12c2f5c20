/**
 * The memtable's lock-free arena: bytes are reserved by a compare-and-swap on a block's remaining
 * count and then taken from its lower end, or from its upper end when the size is a multiple of the
 * alignment. Any number of threads interleave at every atomic access.
 */
module Arena {

  // Alignment is to eight bytes, the size of a pointer.
  const BLOCK_SIZE: nat := 65536

  function RoundUp(bytes: nat, unit: nat): nat
    requires unit > 0
  {
    (bytes + unit - 1) / unit * unit
  }

  /** Private blocks have not been published; large blocks serve one request and ignore `rem`. */
  datatype Kind = Private(owner: nat) | Shared | Large

  datatype Block = Block(kind: Kind, base: int, size: nat, rem: nat, lower: int, upper: int)

  /** Where a thread stands in Allocate, AllocateLarge or AllocateFinalize. */
  datatype Thread =
    | Idle
    | LoadBlock(bytes: nat)
    | LoadRem(bytes: nat, b: nat)
    | CasRem(bytes: nat, b: nat, rem: nat)
    | Publish(bytes: nat, b: nat, nb: nat)
    | NeedLarge(bytes: nat)
    | Finalize(bytes: nat, b: nat)
    | CasEnd(bytes: nat, b: nat, expected: int)
    | Done(b: nat, addr: int, bytes: nat)

  /** A range handed out: which block it came from, and where. */
  datatype Range = Range(b: nat, addr: int, bytes: nat)

  datatype State = State(page: nat, blocks: map<nat, Block>, current: nat, threads: seq<Thread>, given: seq<Range>)

  datatype Action =
    | Request(bytes: nat)          // Allocate
    | RequestAligned(bytes: nat)   // AllocateAligned
    | Run
    | Map(id: nat, base: int)      // NewBlock: the address the system maps

  /** NewBlock: whole pages, page aligned, away from everything mapped. */
  predicate Mappable(s: State, id: nat, base: int, size: nat)
    requires s.page > 0
  {
    && id !in s.blocks && base % s.page == 0
    && forall x :: x in s.blocks ==> base + size <= s.blocks[x].base || s.blocks[x].base + s.blocks[x].size <= base
  }

  function Fresh(kind: Kind, base: int, size: nat): Block {
    Block(kind, base, size, size, base, base + size)
  }

  /** AllocateFinalize: a size that rounding up to the alignment leaves alone. */
  predicate TakesUpper(bytes: nat) {
    bytes % 8 == 0
  }

  function Begin(bytes: nat): Thread {
    if bytes > BLOCK_SIZE / 4 then NeedLarge(bytes) else LoadBlock(bytes)
  }

  predicate Enabled(s: State, t: nat, a: Action) {
    && t < |s.threads| && s.page > 0
    && var th := s.threads[t];
       match a
       case Request(bytes) => (th.Idle? || th.Done?) && bytes > 0
       case RequestAligned(bytes) => (th.Idle? || th.Done?) && bytes > 0
       case Map(id, base) =>
         if th.NeedLarge? then Mappable(s, id, base, RoundUp(th.bytes, s.page))
         else th.CasRem? && th.rem < th.bytes && Mappable(s, id, base, RoundUp(BLOCK_SIZE, s.page))
       case Run =>
         match th
         case LoadBlock(_) => true
         case LoadRem(_, b) => b in s.blocks
         case CasRem(bytes, b, rem) => rem >= bytes && b in s.blocks
         case Publish(_, _, nb) => nb in s.blocks
         case Finalize(_, b) => b in s.blocks
         case CasEnd(bytes, b, expected) => b in s.blocks
         case _ => false
  }

  function SetThread(s: State, t: nat, th: Thread): State
    requires t < |s.threads|
  {
    s.(threads := s.threads[t := th])
  }

  function Reserve(s: State, t: nat, bytes: nat, b: nat): State
    requires t < |s.threads| && b in s.blocks && bytes <= s.blocks[b].rem
  {
    State(s.page, s.blocks[b := s.blocks[b].(rem := s.blocks[b].rem - bytes)], s.current,
          s.threads[t := Finalize(bytes, b)], s.given)
  }

  function Install(s: State, t: nat, bytes: nat, nb: nat): State
    requires t < |s.threads| && nb in s.blocks
  {
    State(s.page, s.blocks[nb := s.blocks[nb].(kind := Shared)], nb, s.threads[t := LoadBlock(bytes)], s.given)
  }

  function Discard(s: State, t: nat, bytes: nat, nb: nat): State
    requires t < |s.threads|
  {
    State(s.page, s.blocks - {nb}, s.current, s.threads[t := LoadBlock(bytes)], s.given)
  }

  function AddBlock(s: State, t: nat, th: Thread, id: nat, blk: Block): State
    requires t < |s.threads|
  {
    State(s.page, s.blocks[id := blk], s.current, s.threads[t := th], s.given)
  }

  function Hand(s: State, t: nat, b: nat, blk: Block, addr: int, bytes: nat): State
    requires t < |s.threads|
  {
    State(s.page, s.blocks[b := blk], s.current, s.threads[t := Done(b, addr, bytes)], s.given + [Range(b, addr, bytes)])
  }

  /** The compare-and-swap of AllocateFinalize on the end it takes bytes from. */
  function EndStep(s: State, t: nat, bytes: nat, b: nat, expected: int): State
    requires t < |s.threads| && b in s.blocks
  {
    var blk := s.blocks[b];
    if TakesUpper(bytes) then
      if blk.upper != expected then SetThread(s, t, CasEnd(bytes, b, blk.upper))
      else Hand(s, t, b, blk.(upper := expected - bytes), expected - bytes, bytes)
    else
      if blk.lower != expected then SetThread(s, t, CasEnd(bytes, b, blk.lower))
      else Hand(s, t, b, blk.(lower := expected + bytes), expected, bytes)
  }

  /** One atomic step of thread t. */
  function Step(s: State, t: nat, a: Action): (s': State)
    requires Enabled(s, t, a)
  {
    var th := s.threads[t];
    match a
    case Request(bytes) => SetThread(s, t, Begin(bytes))
    case RequestAligned(bytes) => SetThread(s, t, Begin(RoundUp(bytes, 8)))
    case Map(id, base) =>
      if th.NeedLarge? then AddBlock(s, t, Finalize(th.bytes, id), id, Fresh(Large, base, RoundUp(th.bytes, s.page)))
      else AddBlock(s, t, Publish(th.bytes, th.b, id), id, Fresh(Private(t), base, RoundUp(BLOCK_SIZE, s.page)))
    case Run =>
      match th
      case LoadBlock(bytes) => SetThread(s, t, LoadRem(bytes, s.current))
      case LoadRem(bytes, b) => SetThread(s, t, CasRem(bytes, b, s.blocks[b].rem))
      case CasRem(bytes, b, rem) =>
        if s.blocks[b].rem == rem then Reserve(s, t, bytes, b)
        else
          SetThread(s, t, CasRem(bytes, b, s.blocks[b].rem))
      case Publish(bytes, b, nb) =>
        if s.current == b then Install(s, t, bytes, nb) else Discard(s, t, bytes, nb)
      case Finalize(bytes, b) =>
        SetThread(s, t, CasEnd(bytes, b, if TakesUpper(bytes) then s.blocks[b].upper else s.blocks[b].lower))
      case CasEnd(bytes, b, expected) => EndStep(s, t, bytes, b, expected)
  }

  // ---------- The invariant ----------

  /** Bytes the thread has reserved in block b and not yet taken from either end. */
  function Reserved(th: Thread, b: nat): nat {
    if (th.Finalize? || th.CasEnd?) && th.b == b then th.bytes else 0
  }

  function PendingAmong(ths: seq<Thread>, n: nat, b: nat): nat
    requires n <= |ths|
  {
    if n == 0 then 0 else PendingAmong(ths, n - 1, b) + Reserved(ths[n - 1], b)
  }

  function Pending(ths: seq<Thread>, b: nat): nat {
    PendingAmong(ths, |ths|, b)
  }

  lemma {:induction false} PendingAmongSet(ths: seq<Thread>, n: nat, t: nat, th: Thread, b: nat)
    requires n <= |ths| && t < |ths|
    ensures t >= n ==> PendingAmong(ths[t := th], n, b) == PendingAmong(ths, n, b)
    ensures t < n ==> PendingAmong(ths[t := th], n, b) + Reserved(ths[t], b) == PendingAmong(ths, n, b) + Reserved(th, b)
    ensures t < n ==> Reserved(ths[t], b) <= PendingAmong(ths, n, b)
  {
    if n > 0 { PendingAmongSet(ths, n - 1, t, th, b); }
  }

  lemma PendingSet(ths: seq<Thread>, t: nat, th: Thread, b: nat)
    requires t < |ths|
    ensures Pending(ths[t := th], b) + Reserved(ths[t], b) == Pending(ths, b) + Reserved(th, b)
    ensures Reserved(ths[t], b) <= Pending(ths, b)
  {
    PendingAmongSet(ths, |ths|, t, th, b);
  }

  predicate Overlap(a: Range, b: Range) {
    a.addr < b.addr + b.bytes && b.addr < a.addr + a.bytes
  }

  /** What is free in a block is what its counter says, plus what is reserved and not yet taken. */
  predicate Fits(b: Block, pending: nat) {
    && b.upper % 8 == 0 && b.base <= b.lower <= b.upper <= b.base + b.size
    && match b.kind
       case Shared => b.upper - b.lower == b.rem + pending
       case Large => b.upper - b.lower >= pending
       case Private(_) => b.upper - b.lower == b.rem && pending == 0
  }

  /** An unpublished block is known to the thread that made it alone. */
  predicate Known(kind: Kind, ths: seq<Thread>, x: nat) {
    kind.Private? ==> kind.owner < |ths| && ths[kind.owner].Publish? && ths[kind.owner].nb == x
  }

  predicate BlockOk(s: State, x: nat)
    requires x in s.blocks
  {
    Fits(s.blocks[x], Pending(s.threads, x)) && Known(s.blocks[x].kind, s.threads, x)
  }

  predicate ThreadOk(s: State, t: nat)
    requires t < |s.threads|
  {
    match s.threads[t]
    case LoadBlock(bytes) => bytes > 0
    case LoadRem(bytes, b) => bytes > 0 && b in s.blocks && s.blocks[b].kind.Shared?
    case CasRem(bytes, b, _) => bytes > 0 && b in s.blocks && s.blocks[b].kind.Shared?
    case Publish(bytes, b, nb) =>
      bytes > 0 && b in s.blocks && s.blocks[b].kind.Shared? && nb in s.blocks && s.blocks[nb].kind == Private(t)
    case NeedLarge(bytes) => bytes > 0
    case Finalize(bytes, b) => bytes > 0 && b in s.blocks && !s.blocks[b].kind.Private?
    case CasEnd(bytes, b, _) => bytes > 0 && b in s.blocks && !s.blocks[b].kind.Private?
    case _ => true
  }

  /** A range handed out lies in its block, outside the free middle, and is aligned if its size is. */
  predicate RangeOk(s: State, r: Range) {
    && r.bytes > 0 && r.b in s.blocks && !s.blocks[r.b].kind.Private?
    && var b := s.blocks[r.b];
       && b.base <= r.addr && r.addr + r.bytes <= b.base + b.size
       && (r.addr + r.bytes <= b.lower || b.upper <= r.addr)
       && (TakesUpper(r.bytes) ==> r.addr % 8 == 0)
  }

  predicate Apart(s: State, x: nat, y: nat)
    requires x in s.blocks && y in s.blocks
  {
    s.blocks[x].base + s.blocks[x].size <= s.blocks[y].base || s.blocks[y].base + s.blocks[y].size <= s.blocks[x].base
  }

  ghost predicate Inv(s: State) {
    && s.page > 0 && s.page % 8 == 0
    && s.current in s.blocks && s.blocks[s.current].kind.Shared?
    && (forall x :: x in s.blocks ==> BlockOk(s, x))
    && (forall x, y :: x in s.blocks && y in s.blocks && x != y ==> Apart(s, x, y))
    && (forall t :: 0 <= t < |s.threads| ==> ThreadOk(s, t))
    && (forall i :: 0 <= i < |s.given| ==> RangeOk(s, s.given[i]))
    && (forall i, j :: 0 <= i < j < |s.given| ==> !Overlap(s.given[i], s.given[j]))
  }

  /** The arena as constructed: one shared block. */
  ghost predicate Init(s: State) {
    && s.page > 0 && s.page % 8 == 0 && s.given == []
    && s.current in s.blocks && s.blocks.Keys == {s.current}
    && (exists base :: base % s.page == 0 && s.blocks[s.current] == Fresh(Shared, base, RoundUp(BLOCK_SIZE, s.page)))
    && forall t :: 0 <= t < |s.threads| ==> s.threads[t] == Idle
  }

  lemma {:induction false} NonePending(ths: seq<Thread>, n: nat, b: nat)
    requires n <= |ths| && forall t :: 0 <= t < |ths| ==> Reserved(ths[t], b) == 0
    ensures PendingAmong(ths, n, b) == 0
  {
    if n > 0 { NonePending(ths, n - 1, b); }
  }

  /** Whole pages are aligned, whatever the page size. */
  lemma PageAligned(q: int, page: nat)
    requires page % 8 == 0
    ensures (q * page) % 8 == 0
  {
    var p := page / 8;
    assert page == 8 * p;
    assert q * page == 8 * (q * p) by { Regroup(q, p); }
  }

  lemma Regroup(q: int, p: int)
    ensures q * (8 * p) == 8 * (q * p)
  {
  }

  lemma PagesFit(bytes: nat, page: nat)
    requires page > 0 && page % 8 == 0
    ensures RoundUp(bytes, page) >= bytes && RoundUp(bytes, page) % 8 == 0
  {
    var q := (bytes + page - 1) / page;
    assert bytes + page - 1 == q * page + (bytes + page - 1) % page;
    PageAligned(q, page);
  }

  lemma BaseAligned(base: int, page: nat)
    requires page > 0 && page % 8 == 0 && base % page == 0
    ensures base % 8 == 0
  {
    assert base == (base / page) * page;
    PageAligned(base / page, page);
  }

  /** A new block starts whole, and its upper end is aligned. */
  lemma FreshOk(kind: Kind, base: int, bytes: nat, page: nat)
    requires page > 0 && page % 8 == 0 && base % page == 0
    ensures var b := Fresh(kind, base, RoundUp(bytes, page));
            b.upper % 8 == 0 && b.base <= b.lower <= b.upper == b.base + b.size
            && b.upper - b.lower == b.rem == b.size && b.size >= bytes && b.kind == kind && b.base == base
  {
    BaseAligned(base, page);
    PagesFit(bytes, page);
    SumAligned(base, RoundUp(bytes, page));
  }

  lemma SumAligned(a: int, b: int)
    requires a % 8 == 0 && b % 8 == 0
    ensures (a + b) % 8 == 0
  {
  }

  // ---------- Every step keeps it ----------

  lemma InitInv(s: State)
    requires Init(s)
    ensures Inv(s)
  {
    var base :| base % s.page == 0 && s.blocks[s.current] == Fresh(Shared, base, RoundUp(BLOCK_SIZE, s.page));
    FreshOk(Shared, base, BLOCK_SIZE, s.page);
    NonePending(s.threads, |s.threads|, s.current);
    assert BlockOk(s, s.current);
  }

  /** A step that changes only where thread t stands, without reserving or releasing bytes. */
  lemma MoveOk(s: State, t: nat, th: Thread)
    requires Inv(s) && t < |s.threads| && ThreadOk(SetThread(s, t, th), t)
    requires forall x :: Reserved(th, x) == Reserved(s.threads[t], x)
    requires !s.threads[t].Publish? && !th.Publish?
    ensures Inv(SetThread(s, t, th))
  {
    var s' := SetThread(s, t, th);
    forall x | x in s'.blocks ensures BlockOk(s', x) {
      assert BlockOk(s, x);
      PendingSet(s.threads, t, th, x);
    }
    forall u | 0 <= u < |s'.threads| ensures ThreadOk(s', u) {
      assert u != t ==> ThreadOk(s, u);
    }
  }

  lemma OtherThreads(s: State, s': State, t: nat)
    requires Inv(s) && t < |s.threads| == |s'.threads|
    requires forall u :: 0 <= u < |s.threads| && u != t ==> s'.threads[u] == s.threads[u]
    requires forall x :: x in s.blocks && s.blocks[x].kind != Private(t) ==>
                           x in s'.blocks && s'.blocks[x].kind == s.blocks[x].kind
    requires ThreadOk(s', t)
    ensures forall u :: 0 <= u < |s'.threads| ==> ThreadOk(s', u)
  {
    forall u | 0 <= u < |s'.threads| ensures ThreadOk(s', u) {
      assert u != t ==> ThreadOk(s, u);
    }
  }

  /** Blocks that keep their place keep their ranges and their distance. */
  lemma SamePlaces(s: State, s': State)
    requires Inv(s) && s'.given == s.given
    requires forall x :: x in s'.blocks ==> x in s.blocks && s'.blocks[x].base == s.blocks[x].base
                                            && s'.blocks[x].size == s.blocks[x].size
    requires forall x :: x in s.blocks && !s.blocks[x].kind.Private? ==>
                           x in s'.blocks && !s'.blocks[x].kind.Private?
                           && s'.blocks[x].lower == s.blocks[x].lower && s'.blocks[x].upper == s.blocks[x].upper
    ensures forall i :: 0 <= i < |s'.given| ==> RangeOk(s', s'.given[i])
    ensures forall x, y :: x in s'.blocks && y in s'.blocks && x != y ==> Apart(s', x, y)
  {
    forall i | 0 <= i < |s'.given| ensures RangeOk(s', s'.given[i]) {
      assert RangeOk(s, s.given[i]);
    }
    forall x, y | x in s'.blocks && y in s'.blocks && x != y ensures Apart(s', x, y) {
      assert Apart(s, x, y);
    }
  }

  /** The compare-and-swap on `rem` moves bytes from the counter to the pending sum. */
  lemma ReserveOk(s: State, t: nat, bytes: nat, b: nat)
    requires Inv(s) && t < |s.threads| && s.threads[t].CasRem? && bytes > 0
    requires b in s.blocks && s.blocks[b].kind.Shared? && bytes <= s.blocks[b].rem
    ensures Inv(Reserve(s, t, bytes, b))
  {
    var s' := Reserve(s, t, bytes, b);
    forall x | x in s'.blocks ensures BlockOk(s', x) {
      assert BlockOk(s, x);
      PendingSet(s.threads, t, Finalize(bytes, b), x);
    }
    OtherThreads(s, s', t);
    SamePlaces(s, s');
  }

  lemma InstallOk(s: State, t: nat, bytes: nat, nb: nat)
    requires Inv(s) && t < |s.threads| && s.threads[t].Publish? && s.threads[t].nb == nb && bytes > 0
    ensures nb in s.blocks && Inv(Install(s, t, bytes, nb))
  {
    assert ThreadOk(s, t);
    var s' := Install(s, t, bytes, nb);
    forall x | x in s'.blocks ensures BlockOk(s', x) {
      assert BlockOk(s, x);
      PendingSet(s.threads, t, LoadBlock(bytes), x);
    }
    OtherThreads(s, s', t);
    SamePlaces(s, s');
  }

  lemma DiscardOk(s: State, t: nat, bytes: nat, nb: nat)
    requires Inv(s) && t < |s.threads| && s.threads[t].Publish? && s.threads[t].nb == nb && bytes > 0
    ensures Inv(Discard(s, t, bytes, nb))
  {
    assert ThreadOk(s, t);
    var s' := Discard(s, t, bytes, nb);
    forall x | x in s'.blocks ensures BlockOk(s', x) {
      assert BlockOk(s, x);
      PendingSet(s.threads, t, LoadBlock(bytes), x);
    }
    OtherThreads(s, s', t);
    SamePlaces(s, s');
  }

  lemma AddBlockOk(s: State, t: nat, th: Thread, id: nat, blk: Block)
    requires Inv(s) && t < |s.threads| && id !in s.blocks
    requires !s.threads[t].Publish? && !s.threads[t].Finalize? && !s.threads[t].CasEnd?
    requires Fits(blk, Reserved(th, id)) && (forall x :: x != id ==> Reserved(th, x) == 0)
    requires forall x :: x in s.blocks ==> blk.base + blk.size <= s.blocks[x].base || s.blocks[x].base + s.blocks[x].size <= blk.base
    requires ThreadOk(AddBlock(s, t, th, id, blk), t) && Known(blk.kind, s.threads[t := th], id)
    ensures Inv(AddBlock(s, t, th, id, blk))
  {
    var s' := AddBlock(s, t, th, id, blk);
    UnknownBlockNotPending(s, id);
    forall x | x in s'.blocks ensures BlockOk(s', x) {
      assert x != id ==> BlockOk(s, x);
      PendingSet(s.threads, t, th, x);
    }
    OtherThreads(s, s', t);
    forall i | 0 <= i < |s'.given| ensures RangeOk(s', s'.given[i]) {
      assert RangeOk(s, s.given[i]);
    }
    forall x, y | x in s'.blocks && y in s'.blocks && x != y ensures Apart(s', x, y) {
      assert x != id && y != id ==> Apart(s, x, y);
    }
  }

  lemma UnknownBlockNotPending(s: State, id: nat)
    requires Inv(s) && id !in s.blocks
    ensures Pending(s.threads, id) == 0
  {
    forall t | 0 <= t < |s.threads| ensures Reserved(s.threads[t], id) == 0 {
      assert ThreadOk(s, t);
    }
    NonePending(s.threads, |s.threads|, id);
  }

  lemma MapOk(s: State, t: nat, id: nat, base: int)
    requires Inv(s) && Enabled(s, t, Map(id, base))
    ensures Inv(Step(s, t, Map(id, base)))
  {
    var th := s.threads[t];
    assert ThreadOk(s, t);
    if th.NeedLarge? {
      FreshOk(Large, base, th.bytes, s.page);
      AddBlockOk(s, t, Finalize(th.bytes, id), id, Fresh(Large, base, RoundUp(th.bytes, s.page)));
    } else {
      FreshOk(Private(t), base, BLOCK_SIZE, s.page);
      AddBlockOk(s, t, Publish(th.bytes, th.b, id), id, Fresh(Private(t), base, RoundUp(BLOCK_SIZE, s.page)));
    }
  }

  /** An end moved inward by n bytes that were free: the bytes between its old and new place. */
  predicate Taken(blk: Block, blk': Block, addr: int, bytes: nat) {
    && blk'.kind == blk.kind && blk'.base == blk.base && blk'.size == blk.size && blk'.rem == blk.rem
    && (if TakesUpper(bytes) then blk'.lower == blk.lower && blk'.upper == blk.upper - bytes == addr
        else blk'.upper == blk.upper && blk'.lower == blk.lower + bytes && addr == blk.lower)
  }

  /** What a thread has reserved fits between the block's ends. */
  lemma ReservedFits(s: State, t: nat)
    requires Inv(s) && t < |s.threads| && s.threads[t].CasEnd?
    ensures s.threads[t].b in s.blocks && s.threads[t].bytes > 0
    ensures var blk := s.blocks[s.threads[t].b];
            s.threads[t].bytes <= blk.upper - blk.lower && blk.upper % 8 == 0 && !blk.kind.Private?
            && blk.base <= blk.lower <= blk.upper <= blk.base + blk.size
  {
    assert ThreadOk(s, t);
    assert BlockOk(s, s.threads[t].b);
    PendingSet(s.threads, t, Idle, s.threads[t].b);
  }

  lemma TakenFits(blk: Block, blk': Block, addr: int, bytes: nat, pending: nat)
    requires Fits(blk, pending) && Taken(blk, blk', addr, bytes) && !blk.kind.Private? && bytes <= pending
    ensures Fits(blk', pending - bytes)
  {
    var taken: int := bytes;
    if TakesUpper(bytes) { SumAligned(blk.upper, -taken); }
  }

  lemma HandBlocks(s: State, t: nat, b: nat, blk: Block, addr: int, bytes: nat)
    requires Inv(s) && t < |s.threads| && s.threads[t].CasEnd? && s.threads[t].b == b && s.threads[t].bytes == bytes
    requires b in s.blocks && Taken(s.blocks[b], blk, addr, bytes)
    ensures forall x :: x in s.blocks ==> BlockOk(Hand(s, t, b, blk, addr, bytes), x)
  {
    var s' := Hand(s, t, b, blk, addr, bytes);
    ReservedFits(s, t);
    forall x | x in s.blocks ensures BlockOk(s', x) {
      assert BlockOk(s, x);
      PendingSet(s.threads, t, Done(b, addr, bytes), x);
      if x == b {
        TakenFits(s.blocks[b], blk, addr, bytes, Pending(s.threads, b));
      }
    }
  }

  lemma HandRange(s: State, t: nat, b: nat, blk: Block, addr: int, bytes: nat, r: Range)
    requires Inv(s) && t < |s.threads| && s.threads[t].CasEnd? && s.threads[t].b == b && s.threads[t].bytes == bytes
    requires b in s.blocks && Taken(s.blocks[b], blk, addr, bytes) && RangeOk(s, r)
    ensures RangeOk(Hand(s, t, b, blk, addr, bytes), r) && !Overlap(r, Range(b, addr, bytes))
  {
    ReservedFits(s, t);
    if r.b != b { assert Apart(s, r.b, b); }
  }

  /** The compare-and-swap on an end takes bytes that were free and that no one else was given. */
  lemma HandOk(s: State, t: nat, b: nat, blk: Block, addr: int, bytes: nat)
    requires Inv(s) && t < |s.threads| && s.threads[t].CasEnd? && s.threads[t].b == b && s.threads[t].bytes == bytes
    requires b in s.blocks && Taken(s.blocks[b], blk, addr, bytes)
    ensures Inv(Hand(s, t, b, blk, addr, bytes))
  {
    var s' := Hand(s, t, b, blk, addr, bytes);
    HandBlocks(s, t, b, blk, addr, bytes);
    ReservedFits(s, t);
    OtherThreads(s, s', t);
    forall i | 0 <= i < |s.given| ensures RangeOk(s', s.given[i]) && !Overlap(s.given[i], s'.given[|s.given|]) {
      HandRange(s, t, b, blk, addr, bytes, s.given[i]);
    }
    assert RangeOk(s', s'.given[|s.given|]);
    forall x, y | x in s'.blocks && y in s'.blocks && x != y ensures Apart(s', x, y) {
      assert Apart(s, x, y);
    }
  }

  lemma EndStepOk(s: State, t: nat, bytes: nat, b: nat, expected: int)
    requires Inv(s) && t < |s.threads| && s.threads[t] == CasEnd(bytes, b, expected) && b in s.blocks
    ensures Inv(EndStep(s, t, bytes, b, expected))
  {
    var blk := s.blocks[b];
    assert ThreadOk(s, t);
    if TakesUpper(bytes) {
      if blk.upper != expected {
        MoveOk(s, t, CasEnd(bytes, b, blk.upper));
      } else {
        HandOk(s, t, b, blk.(upper := expected - bytes), expected - bytes, bytes);
      }
    } else if blk.lower != expected {
      MoveOk(s, t, CasEnd(bytes, b, blk.lower));
    } else {
      HandOk(s, t, b, blk.(lower := expected + bytes), expected, bytes);
    }
  }

  /** Every atomic step of every thread keeps the invariant. */
  lemma StepInv(s: State, t: nat, a: Action)
    requires Inv(s) && Enabled(s, t, a)
    ensures Inv(Step(s, t, a))
  {
    assert ThreadOk(s, t);
    match a {
      case Request(bytes) => MoveOk(s, t, Begin(bytes));
      case RequestAligned(bytes) =>
        RoundedPositive(bytes);
        MoveOk(s, t, Begin(RoundUp(bytes, 8)));
      case Map(id, base) => MapOk(s, t, id, base);
      case Run =>
        match s.threads[t] {
          case LoadBlock(bytes) => MoveOk(s, t, LoadRem(bytes, s.current));
          case LoadRem(bytes, b) => MoveOk(s, t, CasRem(bytes, b, s.blocks[b].rem));
          case CasRem(bytes, b, rem) =>
            if s.blocks[b].rem == rem {
              ReserveOk(s, t, bytes, b);
            } else {
              MoveOk(s, t, CasRem(bytes, b, s.blocks[b].rem));
            }
          case Publish(bytes, b, nb) =>
            if s.current == b { InstallOk(s, t, bytes, nb); } else { DiscardOk(s, t, bytes, nb); }
          case Finalize(bytes, b) =>
            MoveOk(s, t, CasEnd(bytes, b, if TakesUpper(bytes) then s.blocks[b].upper else s.blocks[b].lower));
          case CasEnd(bytes, b, expected) => EndStepOk(s, t, bytes, b, expected);
        }
    }
  }

  lemma RoundedPositive(bytes: nat)
    requires bytes > 0
    ensures RoundUp(bytes, 8) > 0 && TakesUpper(RoundUp(bytes, 8))
    ensures TakesUpper(bytes) <==> bytes == RoundUp(bytes, 8)
  {
  }

  // ---------- Runs ----------

  ghost predicate IsRun(run: seq<State>, sched: seq<(nat, Action)>) {
    && |run| == |sched| + 1 && Init(run[0])
    && forall i :: 0 <= i < |sched| ==>
         Enabled(run[i], sched[i].0, sched[i].1) && run[i + 1] == Step(run[i], sched[i].0, sched[i].1)
  }

  lemma {:induction false} RunInv(run: seq<State>, sched: seq<(nat, Action)>, i: nat)
    requires IsRun(run, sched) && i < |run|
    ensures Inv(run[i])
  {
    if i == 0 {
      InitInv(run[0]);
    } else {
      RunInv(run, sched, i - 1);
      StepInv(run[i - 1], sched[i - 1].0, sched[i - 1].1);
    }
  }

  /**
   * In every state of every run of any number of threads: the ranges handed out are pairwise
   * disjoint, each inside its block, and those of aligned size aligned; and in every shared block
   * the free middle is exactly the counter plus the bytes reserved and not yet taken.
   */
  lemma RangesDisjoint(run: seq<State>, sched: seq<(nat, Action)>, i: nat)
    requires IsRun(run, sched) && i < |run|
    ensures forall a, b :: 0 <= a < b < |run[i].given| ==> !Overlap(run[i].given[a], run[i].given[b])
    ensures forall a :: 0 <= a < |run[i].given| ==> RangeOk(run[i], run[i].given[a])
    ensures forall x :: x in run[i].blocks && run[i].blocks[x].kind.Shared? ==>
              run[i].blocks[x].upper - run[i].blocks[x].lower == run[i].blocks[x].rem + Pending(run[i].threads, x)
  {
    RunInv(run, sched, i);
    forall x | x in run[i].blocks && run[i].blocks[x].kind.Shared?
      ensures run[i].blocks[x].upper - run[i].blocks[x].lower == run[i].blocks[x].rem + Pending(run[i].threads, x)
    {
      assert BlockOk(run[i], x);
    }
  }

  // ---------- Requests and their answers ----------

  /** What a thread is after while it serves a request. */
  function Sought(th: Thread): nat {
    if th.Idle? then 0 else th.bytes
  }

  predicate IsRequest(a: Action) {
    a.Request? || a.RequestAligned?
  }

  /** The bytes a request takes: an aligned one is rounded up. */
  function Needed(a: Action): nat
    requires IsRequest(a)
  {
    if a.Request? then a.bytes else RoundUp(a.bytes, 8)
  }

  /** A thread that is done has its range on record. */
  ghost predicate OnRecord(s: State, th: Thread) {
    th.Done? ==> Range(th.b, th.addr, th.bytes) in s.given
  }

  lemma StepServes(s: State, u: nat, a: Action, t: nat, bytes: nat)
    requires Enabled(s, u, a) && t < |s.threads| && (u == t ==> !IsRequest(a))
    requires !s.threads[t].Idle? && Sought(s.threads[t]) == bytes && OnRecord(s, s.threads[t])
    ensures var s' := Step(s, u, a);
            && |s'.threads| == |s.threads| && !s'.threads[t].Idle? && Sought(s'.threads[t]) == bytes
            && OnRecord(s', s'.threads[t])
  {
  }

  /** From a request of thread t on, and until its next one, the thread is after the bytes it was asked for. */
  lemma {:induction false} Serves(run: seq<State>, sched: seq<(nat, Action)>, t: nat, i: nat, j: nat)
    requires IsRun(run, sched) && i < j < |run| && sched[i].0 == t && IsRequest(sched[i].1)
    requires forall k :: i < k < j && sched[k].0 == t ==> !IsRequest(sched[k].1)
    ensures t < |run[j].threads| && !run[j].threads[t].Idle? && Sought(run[j].threads[t]) == Needed(sched[i].1)
    ensures OnRecord(run[j], run[j].threads[t])
  {
    assert Enabled(run[j - 1], sched[j - 1].0, sched[j - 1].1);
    if j > i + 1 {
      Serves(run, sched, t, i, j - 1);
      StepServes(run[j - 1], sched[j - 1].0, sched[j - 1].1, t, Needed(sched[i].1));
    }
  }

  /**
   * What a request ends with: a range on record, in its block, of the bytes asked for, and aligned when that was asked
   * for, rounded up to the alignment.
   */
  lemma RequestAnswered(run: seq<State>, sched: seq<(nat, Action)>, t: nat, i: nat, j: nat)
    requires IsRun(run, sched) && i < j < |run| && sched[i].0 == t && IsRequest(sched[i].1)
    requires forall k :: i < k < j && sched[k].0 == t ==> !IsRequest(sched[k].1)
    requires t < |run[j].threads| && run[j].threads[t].Done?
    ensures var th := run[j].threads[t];
            && Range(th.b, th.addr, th.bytes) in run[j].given && RangeOk(run[j], Range(th.b, th.addr, th.bytes))
            && (sched[i].1.Request? ==> th.bytes == sched[i].1.bytes)
            && (sched[i].1.RequestAligned? ==>
                  th.bytes >= sched[i].1.bytes && th.bytes < sched[i].1.bytes + 8 && th.addr % 8 == 0)
  {
    Serves(run, sched, t, i, j);
    RangesDisjoint(run, sched, j);
    var th := run[j].threads[t];
    var a :| 0 <= a < |run[j].given| && run[j].given[a] == Range(th.b, th.addr, th.bytes);
    assert Enabled(run[i], sched[i].0, sched[i].1);
    RoundedPositive(sched[i].1.bytes);
  }

  /** Once handed out a range is never taken back or moved. */
  lemma {:induction false} GivenGrows(run: seq<State>, sched: seq<(nat, Action)>, i: nat, j: nat)
    requires IsRun(run, sched) && i <= j < |run|
    ensures run[i].given <= run[j].given
    decreases j
  {
    if i < j {
      GivenGrows(run, sched, i, j - 1);
    }
  }
}
