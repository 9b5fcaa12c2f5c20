/** The write-ahead log: extents reserved by compare-and-swap, fragments written into blocks, and the reader. */
module Log {
  import opened Coding
  import opened Keys
  import Crc

  const BLOCK := 32768
  const HEADER := 7
  const FULL: Byte := 1
  const FIRST: Byte := 2
  const MIDDLE: Byte := 3
  const LAST: Byte := 4

  // ---------- Layout arithmetic ----------

  /** The block mask is a 32-bit constant: the offset's higher bits are cleared too. */
  function MaskBlock(x: nat): nat {
    x % 0x1_0000_0000 / BLOCK * BLOCK
  }

  /** Where AddRecord takes the first header to go. */
  function RoundUpStart(start: nat): nat {
    if BLOCK - start % BLOCK < HEADER then MaskBlock(start + HEADER) else start
  }

  function ComputeRecordSize(start: nat, remain: nat): nat {
    start + remain / (BLOCK - HEADER) * BLOCK + HEADER + remain % (BLOCK - HEADER)
  }

  /** The end of the extent AddRecord reserves for a record of n bytes. */
  function ReservedEnd(start: nat, n: nat): nat {
    var roundup := RoundUpStart(start);
    var left := BLOCK - roundup % BLOCK;
    if HEADER + n <= left then roundup + HEADER + n
    else ComputeRecordSize(roundup + left, n + HEADER - left)
  }

  /** Where the emit loop puts the next header: past the trailer if too little of the block is left. */
  function Place(offset: nat): nat {
    if BLOCK - offset % BLOCK < HEADER then offset + (BLOCK - offset % BLOCK) else offset
  }

  function Avail(offset: nat): nat {
    PlaceFits(offset);
    BLOCK - Place(offset) % BLOCK - HEADER
  }

  function Fragment(offset: nat, n: nat): nat {
    if n < Avail(offset) then n else Avail(offset)
  }

  lemma PlaceFits(offset: nat)
    ensures Place(offset) % BLOCK + HEADER <= BLOCK
    ensures Place(offset) != offset ==> Place(offset) % BLOCK == 0
  {
    if BLOCK - offset % BLOCK < HEADER {
      NextBlock(offset);
    }
  }

  lemma NextBlock(offset: nat)
    ensures (offset + (BLOCK - offset % BLOCK)) % BLOCK == 0
    ensures offset + (BLOCK - offset % BLOCK) == (offset / BLOCK + 1) * BLOCK
  {
  }

  /** The fragment's end: the fragment does not cross into the next block. */
  lemma FragmentFits(offset: nat, n: nat)
    ensures var p := Place(offset);
            && p % BLOCK + HEADER + Fragment(offset, n) <= BLOCK
            && (Fragment(offset, n) < n ==> (p + HEADER + Fragment(offset, n)) % BLOCK == 0)
  {
    PlaceFits(offset);
    var p := Place(offset);
    if Fragment(offset, n) < n {
      AddUp(p, BLOCK - p % BLOCK);
    }
  }

  lemma AddUp(p: nat, d: nat)
    requires d == BLOCK - p % BLOCK
    ensures (p + d) % BLOCK == 0
  {
  }

  /** A fragment of no bytes is only cut off at the very end of a block. */
  lemma Progress(offset: nat, n: nat)
    requires n > 0
    ensures Fragment(offset, n) > 0 || offset % BLOCK != 0
  {
    PlaceFits(offset);
  }

  /** Where the emit loop ends, for n bytes from an offset. */
  function EmitEnd(offset: nat, n: nat): nat
    decreases n, if offset % BLOCK == 0 then 0 else 1
  {
    FragmentFits(offset, n);
    var next := Place(offset) + HEADER + Fragment(offset, n);
    if Fragment(offset, n) == n then next else Progress(offset, n); EmitEnd(next, n - Fragment(offset, n))
  }

  /** The bytes of a record that spill past its first block. */
  function Spill(start: nat, n: nat): nat {
    if n <= Avail(start) then 0 else n - Avail(start)
  }

  /** The loop is left with nothing only after filling a block: then one more header is reserved than is used. */
  predicate ExactSpill(start: nat, n: nat) {
    Spill(start, n) > 0 && Spill(start, n) % (BLOCK - HEADER) == 0
  }

  lemma LessOne(m: nat)
    requires m >= (BLOCK - HEADER)
    ensures (m - (BLOCK - HEADER)) / (BLOCK - HEADER) == m / (BLOCK - HEADER) - 1
    ensures (m - (BLOCK - HEADER)) % (BLOCK - HEADER) == m % (BLOCK - HEADER)
  {
  }

  /** From the start of a block, whole blocks are filled and the rest gets one header. */
  lemma {:induction false} EmitEndAtBlock(q: nat, m: nat)
    requires q % BLOCK == 0 && m > 0
    ensures EmitEnd(q, m) == ComputeRecordSize(q, m) - if m % (BLOCK - HEADER) == 0 then HEADER else 0
    decreases m
  {
    assert Place(q) == q && Avail(q) == (BLOCK - HEADER);
    if m > (BLOCK - HEADER) {
      LessOne(m);
      AddUp(q, BLOCK);
      EmitEndAtBlock(q + BLOCK, m - (BLOCK - HEADER));
    }
  }

  /** Rounding up is right exactly when the offset stays below 4 GiB. */
  lemma RoundUpExactIff(start: nat)
    ensures RoundUpStart(start) == Place(start)
            <==> (BLOCK - start % BLOCK >= HEADER || start + HEADER < 0x1_0000_0000)
  {
    if BLOCK - start % BLOCK < HEADER {
      NextBlock(start);
      var q := start / BLOCK;
      assert (start + HEADER) / BLOCK == q + 1;
      if start + HEADER >= 0x1_0000_0000 {
        assert (q + 1) * BLOCK >= 0x1_0000_0000;
      }
    }
  }

  /** An extent ends where its emit loop ends, but for one header when the spill fills blocks exactly. */
  lemma ReservedExact(start: nat, n: nat)
    requires start + HEADER < 0x1_0000_0000
    ensures ReservedEnd(start, n) == EmitEnd(start, n) + if ExactSpill(start, n) then HEADER else 0
  {
    RoundUpExactIff(start);
    FragmentFits(start, n);
    if Spill(start, n) > 0 {
      var p := Place(start);
      AddUp(p, BLOCK - p % BLOCK);
      EmitEndAtBlock(p + (BLOCK - p % BLOCK), Spill(start, n));
    }
  }

  // ---------- What is written ----------

  function Zeros(n: nat): Bytes {
    seq(n, _ => 0)
  }

  /** The checksum stored with a fragment of some type, and the reader's test of it. */
  datatype Checksum = Checksum(store: (Byte, Bytes) -> Crc.Word, test: (Crc.Word, Byte, Bytes) -> bool)

  ghost predicate Sound(z: Checksum) {
    forall t: Byte, payload: Bytes :: z.test(z.store(t, payload), t, payload)
  }

  /** The writer extends a checksum of the type kept ready; the reader sums type and payload in one go. */
  function Crc32c(): Checksum {
    Checksum((t: Byte, payload: Bytes) => Crc.Mask(Crc.Extend(Crc.Value([t]), payload)),
             (w: Crc.Word, t: Byte, payload: Bytes) => Crc.Unmask(w) == Crc.Value([t] + payload))
  }

  lemma Crc32cIsSound()
    ensures Sound(Crc32c())
  {
    forall t: Byte, payload: Bytes ensures Crc32c().test(Crc32c().store(t, payload), t, payload) {
      Crc.ExtendComposes(0, [t], payload);
      Crc.UnmaskInvertsMask(Crc.Extend(Crc.Value([t]), payload));
    }
  }

  /** The reader's test passes exactly the checksum that the writer stores. */
  lemma Crc32cIsExact(w: Crc.Word, t: Byte, payload: Bytes)
    ensures Crc32c().test(w, t, payload) <==> w == Crc32c().store(t, payload)
  {
    Crc.ExtendComposes(0, [t], payload);
    Crc.UnmaskInvertsMask(Crc.Extend(Crc.Value([t]), payload));
    Crc.MaskInvertsUnmask(w);
  }

  /** A header and its payload: checksum, length, type. */
  function Physical(z: Checksum, t: Byte, payload: Bytes): (r: Bytes)
    requires |payload| <= 0xFFFF
    ensures |r| == HEADER + |payload|
  {
    Fixed32(z.store(t, payload)) + [|payload| % 0x100, |payload| / 0x100, t] + payload
  }

  function TypeOf(begin: bool, end: bool): Byte {
    if begin && end then FULL else if begin then FIRST else if end then LAST else MIDDLE
  }

  /** Everything the emit loop writes for a record's bytes from ptr on, at an offset. */
  function Emit(z: Checksum, offset: nat, data: Bytes, ptr: nat, begin: bool): Bytes
    requires ptr <= |data|
    decreases |data| - ptr, if offset % BLOCK == 0 then 0 else 1
  {
    FragmentFits(offset, |data| - ptr);
    var k := Fragment(offset, |data| - ptr);
    if ptr + k == |data| then Piece(z, offset, data, ptr, begin)
    else Progress(offset, |data| - ptr);
         Piece(z, offset, data, ptr, begin) + Emit(z, Place(offset) + HEADER + k, data, ptr + k, false)
  }

  /** One turn of the loop: the trailer of the block before, if any, and one fragment. */
  function Piece(z: Checksum, offset: nat, data: Bytes, ptr: nat, begin: bool): (r: Bytes)
    requires ptr <= |data|
    ensures offset + |r| == Place(offset) + HEADER + Fragment(offset, |data| - ptr)
  {
    FragmentFits(offset, |data| - ptr);
    var k := Fragment(offset, |data| - ptr);
    Zeros(Place(offset) - offset) + Physical(z, TypeOf(begin, ptr + k == |data|), data[ptr..ptr + k])
  }

  /** The start of an empty log, byte for byte: the masked CRC-32C of type and payload, the payload's length, the
      type, and as much of the record as the first block takes. */
  lemma FirstHeader(data: Bytes)
    ensures var w := Emit(Crc32c(), 0, data, 0, true);
            var n := if |data| <= 32761 then |data| else 32761;
            && |w| >= 7 + n && (w[4] as int) + 256 * (w[5] as int) == n && w[6] == (if |data| <= 32761 then 1 else 2)
            && LittleEndian(w[..4]) == Crc.Mask(Crc.Value([w[6]] + data[..n]))
            && w[7..7 + n] == data[..n]
  {
    var n := if |data| <= 32761 then |data| else 32761;
    var t: Byte := if |data| <= 32761 then 1 else 2;
    FirstPiece(data, n, t);
    PhysicalLayout(t, data[..n]);
    var physical := Physical(Crc32c(), t, data[..n]);
    var w := Emit(Crc32c(), 0, data, 0, true);
    assert w[..7 + n] == physical;
    assert forall i :: 0 <= i < 7 ==> w[i] == physical[i];
    assert w[7..7 + n] == physical[7..];
    assert w[..4] == physical[..4];
  }

  lemma FirstPiece(data: Bytes, n: nat, t: Byte)
    requires n == (if |data| <= 32761 then |data| else 32761) && t == if |data| <= 32761 then 1 else 2
    ensures Physical(Crc32c(), t, data[..n]) <= Emit(Crc32c(), 0, data, 0, true)
  {
    FragmentFits(0, |data|);
    assert Fragment(0, |data|) == n && Place(0) == 0;
    assert data[0..n] == data[..n];
    assert Zeros(0) + Physical(Crc32c(), t, data[..n]) == Physical(Crc32c(), t, data[..n]);
  }

  lemma PhysicalLayout(t: Byte, payload: Bytes)
    requires |payload| <= 0xFFFF
    ensures var b := Physical(Crc32c(), t, payload);
            && (b[4] as int) + 256 * (b[5] as int) == |payload| && b[6] == t && b[7..] == payload
            && LittleEndian(b[..4]) == Crc.Mask(Crc.Value([t] + payload))
  {
    Crc.ExtendComposes(0, [t], payload);
    Fixed32LittleEndian(Crc32c().store(t, payload));
    assert Physical(Crc32c(), t, payload)[..4] == Fixed32(Crc32c().store(t, payload));
  }

  /** Four bytes as a number, the low one first. */
  function LittleEndian(b: Bytes): nat
    requires |b| == 4
  {
    (b[0] as int) + 0x100 * (b[1] as int) + 0x1_0000 * (b[2] as int) + 0x100_0000 * (b[3] as int)
  }

  lemma Fixed32LittleEndian(w: Crc.Word)
    ensures LittleEndian(Fixed32(w)) == w
  {
    Crc.SplitWord(w);
  }

  lemma {:induction false} EmitLength(z: Checksum, offset: nat, data: Bytes, ptr: nat, begin: bool)
    requires ptr <= |data|
    ensures offset + |Emit(z, offset, data, ptr, begin)| == EmitEnd(offset, |data| - ptr)
    decreases |data| - ptr, if offset % BLOCK == 0 then 0 else 1
  {
    FragmentFits(offset, |data| - ptr);
    var k := Fragment(offset, |data| - ptr);
    var next := offset + |Piece(z, offset, data, ptr, begin)|;
    if ptr + k != |data| {
      Progress(offset, |data| - ptr);
      EmitLength(z, next, data, ptr + k, false);
      assert EmitEnd(offset, |data| - ptr) == EmitEnd(next, |data| - (ptr + k));
    }
  }

  /** A record, the start of its reserved extent, and the bytes its emit loop writes there. */
  datatype Extent = Extent(start: nat, data: Bytes, image: Bytes)

  /** The extents as reserved one after another from the start of the file, with offset the next free byte. */
  ghost predicate Laid(z: Checksum, extents: seq<Extent>, offset: nat) {
    && (forall i :: 0 <= i < |extents| ==> LaidOne(z, extents, offset, i))
    && NextStart(extents, -1, offset) == 0
  }

  ghost predicate LaidOne(z: Checksum, extents: seq<Extent>, offset: nat, i: nat)
    requires i < |extents|
  {
    var e := extents[i];
    && e.image == Emit(z, e.start, e.data, 0, true)
    && ReservedEnd(e.start, |e.data|) == NextStart(extents, i, offset)
  }

  lemma LaidImage(z: Checksum, extents: seq<Extent>, offset: nat, i: nat)
    requires Laid(z, extents, offset) && i < |extents|
    ensures extents[i].image == Emit(z, extents[i].start, extents[i].data, 0, true)
  {
    assert LaidOne(z, extents, offset, i);
  }

  function NextStart(extents: seq<Extent>, i: int, offset: nat): nat
    requires -1 <= i < |extents|
  {
    if i + 1 < |extents| then extents[i + 1].start else offset
  }

  function Stop(e: Extent): nat {
    e.start + |e.image|
  }

  /** Every offset the writer rounds stays below 4 GiB. */
  ghost predicate Small(extents: seq<Extent>) {
    forall i :: 0 <= i < |extents| ==> extents[i].start + HEADER < 0x1_0000_0000
  }

  /** The extents follow one another: each holds all that its loop writes. */
  ghost predicate Apart(extents: seq<Extent>) {
    && (forall i :: 0 <= i < |extents| ==> |extents[i].image| > 0)
    && (forall i, j :: 0 <= i < j < |extents| ==> Stop(extents[i]) <= extents[j].start)
  }

  ghost predicate At(file: Bytes, offset: nat, part: Bytes) {
    offset + |part| <= |file| && forall j :: 0 <= j < |part| ==> file[offset + j] == part[j]
  }

  /** Some extent's loop writes this byte. */
  ghost predicate Covered(extents: seq<Extent>, a: int) {
    exists i :: 0 <= i < |extents| && extents[i].start <= a < Stop(extents[i])
  }

  /** The file holds what the loops write and zeros elsewhere, and ends with the last byte written. */
  ghost predicate IsLog(file: Bytes, extents: seq<Extent>) {
    && |file| == (if |extents| == 0 then 0 else Stop(extents[|extents| - 1]))
    && (forall i :: 0 <= i < |extents| ==> At(file, extents[i].start, extents[i].image))
    && (forall a :: 0 <= a < |file| && !Covered(extents, a) ==> file[a] == 0)
  }

  /** The trailer to fill before the next fragment, and that fragment's length. */
  method Room(offset: nat, left: nat) returns (trailer: Bytes, length: nat)
    ensures trailer == Zeros(Place(offset) - offset) && length == Fragment(offset, left)
  {
    PlaceFits(offset);
    trailer := [];
    var blockOffset := offset % BLOCK;
    var leftover := BLOCK - blockOffset;
    if leftover < HEADER {
      trailer := Zeros(leftover);
      blockOffset := 0;
    }
    var avail := BLOCK - blockOffset - HEADER;
    length := if left < avail then left else avail;
  }

  /** What Emit still has to write at a point of the loop. */
  ghost function Rest(z: Checksum, offset: nat, data: Bytes, ptr: nat, begin: bool): Bytes
    requires ptr <= |data|
  {
    if begin || ptr < |data| then Emit(z, offset, data, ptr, begin) else []
  }

  /** A turn that writes no byte of the record takes the loop to the start of a block. */
  function Work(offset: nat, left: nat): nat {
    2 * left + if offset % BLOCK == 0 then 0 else 1
  }

  /** One turn of the emit loop. */
  method EmitFragment(z: Checksum, offset: nat, data: Bytes, ptr: nat, begin: bool) returns (piece: Bytes, ptr': nat)
    requires ptr <= |data| && (begin || ptr < |data|)
    ensures ptr <= ptr' <= |data|
    ensures ptr < |data| ==> Work(offset + |piece|, |data| - ptr') < Work(offset, |data| - ptr)
    ensures Rest(z, offset, data, ptr, begin) == piece + Rest(z, offset + |piece|, data, ptr', false)
  {
    var left := |data| - ptr;
    FragmentFits(offset, left);
    if left > Fragment(offset, left) {
      Progress(offset, left);
    }
    var trailer, length := Room(offset, left);
    ptr' := ptr + length;
    piece := trailer + Physical(z, TypeOf(begin, left == length), data[ptr..ptr + length]);
    assert piece == Piece(z, offset, data, ptr, begin);
  }

  /** The emit loop: each write goes where the one before it ended. */
  method EmitRecord(z: Checksum, start: nat, data: Bytes) returns (written: Bytes)
    ensures written == Emit(z, start, data, 0, true)
  {
    written := [];
    var ptr: nat, offset: nat, begin := 0, start, true;
    ghost var rest := Emit(z, start, data, 0, true);
    while begin || ptr < |data|
      invariant 0 <= ptr <= |data| && rest == Rest(z, offset, data, ptr, begin)
      invariant written + rest == Emit(z, start, data, 0, true)
      decreases begin, Work(offset, |data| - ptr)
    {
      var piece, ptr' := EmitFragment(z, offset, data, ptr, begin);
      ghost var rest' := Rest(z, offset + |piece|, data, ptr', false);
      assert (written + piece) + rest' == written + rest;
      written := written + piece;
      offset, ptr, begin, rest := offset + |piece|, ptr', false, rest';
    }
    assert written + [] == written;
  }

  // ---------- Writers at once ----------

  lemma {:induction false} EmitGrows(start: nat, n: nat)
    ensures EmitEnd(start, n) > start
    decreases n, if start % BLOCK == 0 then 0 else 1
  {
    FragmentFits(start, n);
    if Fragment(start, n) != n {
      Progress(start, n);
      EmitGrows(Place(start) + HEADER + Fragment(start, n), n - Fragment(start, n));
    }
  }

  /** Between the end of a loop's writes and the next extent lies nothing, or one header's room. */
  lemma ExtentExact(z: Checksum, extents: seq<Extent>, offset: nat, i: nat)
    requires Laid(z, extents, offset) && i < |extents| && extents[i].start + HEADER < 0x1_0000_0000
    ensures |extents[i].image| > 0
    ensures NextStart(extents, i, offset)
            == Stop(extents[i]) + if ExactSpill(extents[i].start, |extents[i].data|) then HEADER else 0
  {
    var e := extents[i];
    assert LaidOne(z, extents, offset, i);
    EmitLength(z, e.start, e.data, 0, true);
    EmitGrows(e.start, |e.data|);
    ReservedExact(e.start, |e.data|);
  }

  lemma {:induction false} ChainApart(extents: seq<Extent>, i: nat, j: nat)
    requires forall k :: 0 <= k < |extents| - 1 ==> Stop(extents[k]) <= extents[k + 1].start
    requires i < j < |extents|
    ensures Stop(extents[i]) <= extents[j].start
  {
    if j > i + 1 {
      ChainApart(extents, i, j - 1);
    }
  }

  /** Extents reserved one after another do not overlap. */
  lemma LaidApart(z: Checksum, extents: seq<Extent>, offset: nat)
    requires Laid(z, extents, offset) && Small(extents)
    ensures Apart(extents)
  {
    forall i | 0 <= i < |extents| ensures |extents[i].image| > 0 && Stop(extents[i]) <= NextStart(extents, i, offset) {
      ExtentExact(z, extents, offset, i);
    }
    assert forall k :: 0 <= k < |extents| - 1 ==> Stop(extents[k]) <= NextStart(extents, k, offset) == extents[k + 1].start;
    forall i, j | 0 <= i < j < |extents| ensures Stop(extents[i]) <= extents[j].start {
      ChainApart(extents, i, j);
    }
  }

  /** What has been reserved, in order of reservation, how much of each extent is written, and where. */
  datatype State = State(offset: nat, extents: seq<Extent>, done: seq<nat>, cells: map<nat, Byte>,
                         loaded: map<nat, nat>)

  /** A writer reads the offset, tries to swap it for its record's end, or writes its next bytes. */
  datatype Step = Load(t: nat) | Swap(t: nat, data: Bytes) | Write(i: nat, k: nat)

  ghost predicate Next(z: Checksum, s: State, step: Step, s': State) {
    match step
    case Load(t) => s' == s.(loaded := s.loaded[t := s.offset])
    case Swap(t, data) =>
      && t in s.loaded
      && if s.loaded[t] == s.offset
         then s' == s.(offset := ReservedEnd(s.offset, |data|), done := s.done + [0], loaded := s.loaded - {t},
                       extents := s.extents + [Extent(s.offset, data, Emit(z, s.offset, data, 0, true))])
         else s' == s.(loaded := s.loaded - {t})
    case Write(i, k) =>
      && i < |s.extents| == |s.done| && s.done[i] + k <= |s.extents[i].image|
      && s' == s.(done := s.done[i := s.done[i] + k], cells := s'.cells)
      && WrittenAt(s.cells, s.extents[i].start + s.done[i],
                   s.extents[i].image[s.done[i]..s.done[i] + k], s'.cells)
  }

  ghost predicate WrittenAt(cells: map<nat, Byte>, offset: nat, part: Bytes, cells': map<nat, Byte>) {
    && (forall a :: a in cells' <==> a in cells || offset <= a < offset + |part|)
    && (forall a :: a in cells' ==> cells'[a] == if offset <= a < offset + |part| then part[a - offset] else cells[a])
  }

  ghost predicate Init(s: State) {
    s == State(0, [], [], map[], map[])
  }

  ghost predicate InPart(extents: seq<Extent>, done: seq<nat>, i: int, a: int) {
    0 <= i < |extents| == |done| && extents[i].start <= a < extents[i].start + done[i]
  }

  /** The cells hold the part of each record that is written, and nothing else. */
  ghost predicate CellsMatch(extents: seq<Extent>, done: seq<nat>, cells: map<nat, Byte>) {
    && |done| == |extents|
    && (forall i :: 0 <= i < |extents| ==> done[i] <= |extents[i].image|)
    && (forall i, a :: InPart(extents, done, i, a) ==>
          a in cells && cells[a] == extents[i].image[a - extents[i].start])
    && (forall a :: a in cells ==> exists i :: InPart(extents, done, i, a))
  }

  ghost predicate Inv(z: Checksum, s: State) {
    Laid(z, s.extents, s.offset) && CellsMatch(s.extents, s.done, s.cells)
  }

  lemma ReservationKeeps(extents: seq<Extent>, done: seq<nat>, cells: map<nat, Byte>, e: Extent)
    requires CellsMatch(extents, done, cells)
    ensures CellsMatch(extents + [e], done + [0], cells)
  {
    var extents', done' := extents + [e], done + [0];
    forall i, a | InPart(extents', done', i, a) ensures InPart(extents, done, i, a) {
    }
    forall a | a in cells ensures exists i :: InPart(extents', done', i, a) {
      var i :| InPart(extents, done, i, a);
      assert InPart(extents', done', i, a);
    }
  }

  /** Writing goes on inside one extent and leaves the other extents' bytes alone. */
  lemma WriteKeeps(extents: seq<Extent>, done: seq<nat>, cells: map<nat, Byte>, i: nat, k: nat, cells': map<nat, Byte>)
    requires Apart(extents) && CellsMatch(extents, done, cells)
    requires i < |extents| && done[i] + k <= |extents[i].image|
    requires WrittenAt(cells, extents[i].start + done[i], extents[i].image[done[i]..done[i] + k], cells')
    ensures CellsMatch(extents, done[i := done[i] + k], cells')
  {
    var done' := done[i := done[i] + k];
    forall h, a | InPart(extents, done', h, a)
      ensures a in cells' && cells'[a] == extents[h].image[a - extents[h].start]
    {
      WrittenStays(extents, done, cells, i, k, cells', h, a);
    }
    forall a | a in cells' ensures exists h :: InPart(extents, done', h, a) {
      if a in cells {
        var h :| InPart(extents, done, h, a);
        assert InPart(extents, done', h, a);
      } else {
        assert InPart(extents, done', i, a);
      }
    }
  }

  lemma WrittenStays(extents: seq<Extent>, done: seq<nat>, cells: map<nat, Byte>, i: nat, k: nat,
                     cells': map<nat, Byte>, h: nat, a: nat)
    requires Apart(extents) && CellsMatch(extents, done, cells)
    requires i < |extents| && done[i] + k <= |extents[i].image|
    requires WrittenAt(cells, extents[i].start + done[i], extents[i].image[done[i]..done[i] + k], cells')
    requires InPart(extents, done[i := done[i] + k], h, a)
    ensures a in cells' && cells'[a] == extents[h].image[a - extents[h].start]
  {
    if h != i {
      assert InPart(extents, done, h, a);
      assert Stop(extents[h]) <= extents[i].start || Stop(extents[i]) <= extents[h].start;
    } else if a < extents[i].start + done[i] {
      assert InPart(extents, done, i, a);
    }
  }

  lemma ReservationLaid(z: Checksum, extents: seq<Extent>, offset: nat, data: Bytes)
    requires Laid(z, extents, offset)
    ensures Laid(z, extents + [Extent(offset, data, Emit(z, offset, data, 0, true))], ReservedEnd(offset, |data|))
  {
    var extents', offset' := extents + [Extent(offset, data, Emit(z, offset, data, 0, true))], ReservedEnd(offset, |data|);
    forall i | 0 <= i < |extents'| ensures LaidOne(z, extents', offset', i) {
      assert i < |extents| ==> LaidOne(z, extents, offset, i);
    }
  }

  lemma SwapKeeps(z: Checksum, s: State, t: nat, data: Bytes, s': State)
    requires Inv(z, s) && Next(z, s, Swap(t, data), s')
    ensures Inv(z, s')
  {
    if s.loaded[t] == s.offset {
      ReservationKeeps(s.extents, s.done, s.cells, Extent(s.offset, data, Emit(z, s.offset, data, 0, true)));
      ReservationLaid(z, s.extents, s.offset, data);
    }
  }

  lemma WriteStepKeeps(z: Checksum, s: State, i: nat, k: nat, s': State)
    requires Inv(z, s) && Next(z, s, Write(i, k), s') && Small(s.extents)
    ensures Inv(z, s')
  {
    assert s'.extents == s.extents && s'.offset == s.offset && s'.done == s.done[i := s.done[i] + k];
    LaidApart(z, s.extents, s.offset);
    WriteKeeps(s.extents, s.done, s.cells, i, k, s'.cells);
  }

  /** Every step of every writer keeps the extents in order and their bytes in place. */
  lemma StepKeeps(z: Checksum, s: State, step: Step, s': State)
    requires Inv(z, s) && Next(z, s, step, s') && Small(s.extents)
    ensures Inv(z, s')
  {
    match step
    case Load(t) =>
      assert s'.extents == s.extents && s'.done == s.done && s'.cells == s.cells;
    case Swap(t, data) =>
      SwapKeeps(z, s, t, data, s');
    case Write(i, k) =>
      WriteStepKeeps(z, s, i, k, s');
  }

  ghost predicate Run(z: Checksum, states: seq<State>, steps: seq<Step>) {
    && |states| == |steps| + 1 && Init(states[0])
    && forall i :: 0 <= i < |steps| ==> Next(z, states[i], steps[i], states[i + 1])
  }

  lemma {:induction false} RunKeeps(z: Checksum, states: seq<State>, steps: seq<Step>, n: nat)
    requires Run(z, states, steps) && n < |states|
    requires forall i :: 0 <= i < |states| ==> Small(states[i].extents)
    ensures Inv(z, states[n])
  {
    if n > 0 {
      RunKeeps(z, states, steps, n - 1);
      StepKeeps(z, states[n - 1], steps[n - 1], states[n]);
    }
  }

  /** The file, whose unwritten bytes read as zeros, up to the last byte written. */
  function FileOf(cells: map<nat, Byte>, size: nat): Bytes {
    seq(size, a => if a in cells then cells[a] else 0)
  }

  ghost predicate Sized(cells: map<nat, Byte>, size: nat) {
    (forall a :: a in cells ==> a < size) && (size > 0 ==> size - 1 in cells)
  }

  /** However the writers interleave, the finished file is the log of the records in order of reservation. */
  lemma FinishedIsLog(z: Checksum, states: seq<State>, steps: seq<Step>, size: nat)
    requires Run(z, states, steps)
    requires forall i :: 0 <= i < |states| ==> Small(states[i].extents)
    requires AllDone(states[|steps|].extents, states[|steps|].done) && Sized(states[|steps|].cells, size)
    ensures IsLog(FileOf(states[|steps|].cells, size), states[|steps|].extents)
    ensures Laid(z, states[|steps|].extents, states[|steps|].offset)
  {
    var s := states[|steps|];
    RunKeeps(z, states, steps, |steps|);
    LaidApart(z, s.extents, s.offset);
    CellsAreLog(s.extents, s.done, s.cells, size);
  }

  ghost predicate AllDone(extents: seq<Extent>, done: seq<nat>) {
    |done| == |extents| && forall i :: 0 <= i < |extents| ==> done[i] == |extents[i].image|
  }

  lemma CellsAreLog(extents: seq<Extent>, done: seq<nat>, cells: map<nat, Byte>, size: nat)
    requires Apart(extents) && CellsMatch(extents, done, cells) && Sized(cells, size) && AllDone(extents, done)
    ensures IsLog(FileOf(cells, size), extents)
  {
    var file := FileOf(cells, size);
    LastByte(extents, done, cells, size);
    forall i | 0 <= i < |extents| ensures At(file, extents[i].start, extents[i].image) {
      ImageInPlace(extents, done, cells, size, i);
    }
    forall a | a in cells ensures Covered(extents, a) {
      var i :| InPart(extents, done, i, a);
      assert extents[i].start <= a < Stop(extents[i]);
    }
  }

  lemma ImageInPlace(extents: seq<Extent>, done: seq<nat>, cells: map<nat, Byte>, size: nat, i: nat)
    requires CellsMatch(extents, done, cells) && Sized(cells, size) && AllDone(extents, done)
    requires i < |extents| && |extents[i].image| > 0
    ensures At(FileOf(cells, size), extents[i].start, extents[i].image)
  {
    forall j | 0 <= j < |extents[i].image|
      ensures extents[i].start + j in cells && cells[extents[i].start + j] == extents[i].image[j]
    {
      assert InPart(extents, done, i, extents[i].start + j);
    }
    assert extents[i].start + (|extents[i].image| - 1) in cells;
  }

  lemma LastByte(extents: seq<Extent>, done: seq<nat>, cells: map<nat, Byte>, size: nat)
    requires Apart(extents) && CellsMatch(extents, done, cells) && Sized(cells, size) && AllDone(extents, done)
    ensures size == if |extents| == 0 then 0 else Stop(extents[|extents| - 1])
  {
    if |extents| > 0 {
      assert InPart(extents, done, |extents| - 1, Stop(extents[|extents| - 1]) - 1);
      var i :| InPart(extents, done, i, size - 1);
      StopsGrow(extents, i);
    }
  }

  lemma StopsGrow(extents: seq<Extent>, i: nat)
    requires Apart(extents) && i < |extents|
    ensures Stop(extents[i]) <= Stop(extents[|extents| - 1])
  {
    assert i < |extents| - 1 ==> Stop(extents[i]) <= extents[|extents| - 1].start;
  }
}
