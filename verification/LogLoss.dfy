/** Reading back a log whose extents leave a gap: the record after a gap is always lost. */
module LogLoss {
  import opened Keys
  import opened Log
  import opened LogReader

  predicate Begins(event: Event) {
    event.Record? && (event.t == FULL || event.t == FIRST)
  }

  /** How many fragments that begin a record are met from pos on. */
  ghost function Starts(parse: Parser, size: nat, pos: nat): nat
    requires Advances(parse, size) && pos <= size
    decreases size - pos
  {
    var p := parse(pos);
    if p.event == Eof then 0 else Starts(parse, size, p.pos) + if Begins(p.event) then 1 else 0
  }

  /** Each record returned had a fragment that began it. */
  lemma {:induction false} RecordsNeedStarts(parse: Parser, size: nat, pos: nat, fragmented: bool, scratch: Bytes,
                                             seen: Output)
    requires Advances(parse, size) && pos <= size
    ensures |ReadFrom(parse, size, pos, fragmented, scratch, seen).records|
            <= |seen.records| + Starts(parse, size, pos) + if fragmented then 1 else 0
    decreases size - pos
  {
    var p := parse(pos);
    if p.event != Eof {
      var t := Absorb(p.event, fragmented, scratch);
      RecordsNeedStarts(parse, size, p.pos, t.fragmented, t.scratch, More(seen, t.record, p.reports + t.reports));
    }
  }

  /** Reading through the rest of a record. */
  lemma {:induction false} StartsThrough(parse: Parser, size: nat, fs: Fragments, begin: bool)
    requires Advances(parse, size) && fs.Found(parse, size, begin) && fs.Stop() <= size
    ensures fs.pos <= size
    ensures Starts(parse, size, fs.pos) == Starts(parse, size, fs.Stop()) + if begin then 1 else 0
  {
    fs.StopBeyond(parse, size, begin);
    if fs.Cons? {
      StartsThrough(parse, size, fs.rest, false);
    }
  }

  /** A block that starts inside a record's bytes starts with one of its later fragments. */
  lemma {:induction false} BlockInside(z: Checksum, file: Bytes, pos: nat, data: Bytes, ptr: nat, begin: bool, q: nat)
      returns (ptr': nat)
    requires ptr <= |data| && Agrees(file, pos, Emit(z, pos, data, ptr, begin))
    requires q % BLOCK == 0 && Place(pos) < q < pos + |Emit(z, pos, data, ptr, begin)|
    ensures ptr' <= |data| && Agrees(file, q, Emit(z, q, data, ptr', false))
    ensures q + |Emit(z, q, data, ptr', false)| == pos + |Emit(z, pos, data, ptr, begin)|
    decreases Work(pos, |data| - ptr)
  {
    var k, end := NextBlock(z, file, pos, data, ptr, begin, q);
    ptr' := ptr + k;
    if q != end {
      ptr' := BlockInside(z, file, end, data, ptr + k, false, q);
    }
  }

  lemma NextBlock(z: Checksum, file: Bytes, pos: nat, data: Bytes, ptr: nat, begin: bool, q: nat)
      returns (k: nat, end: nat)
    requires ptr <= |data| && Agrees(file, pos, Emit(z, pos, data, ptr, begin))
    requires q % BLOCK == 0 && Place(pos) < q < pos + |Emit(z, pos, data, ptr, begin)|
    ensures ptr + k <= |data| && Place(end) == end <= q && Agrees(file, end, Emit(z, end, data, ptr + k, false))
    ensures end + |Emit(z, end, data, ptr + k, false)| == pos + |Emit(z, pos, data, ptr, begin)|
    ensures Work(end, |data| - (ptr + k)) < Work(pos, |data| - ptr)
  {
    k, end := EmitAt(z, file, pos, data, ptr, begin);
    BlockBetween(Place(pos), end, q);
    PlaceOfBlock(end);
  }

  lemma BlockBetween(p: nat, end: nat, q: nat)
    requires q % BLOCK == 0 && p < q && p % BLOCK + (end - p) <= BLOCK
    ensures end <= q
  {
  }

  lemma PlaceOfBlock(q: nat)
    ensures q % BLOCK == 0 ==> Place(q) == q
  {
  }

  /** What a reader that comes to the start of a block inside an extent still meets there. */
  ghost predicate BlocksInside(parse: Parser, size: nat, e: Extent)
    requires Advances(parse, size)
  {
    && e.start < Stop(e) <= size && Starts(parse, size, e.start) == Starts(parse, size, Stop(e)) + 1
    && (forall q :: e.start <= q < Stop(e) && q % BLOCK == 0 ==>
          Starts(parse, size, q) == if q <= Place(e.start) then Starts(parse, size, e.start)
                                    else Starts(parse, size, Stop(e)))
  }

  lemma ExtentBlocks(z: Checksum, file: Bytes, parse: Parser, extents: seq<Extent>, offset: nat, i: nat)
    requires Sound(z) && Parses(z, file, parse) && Laid(z, extents, offset) && i < |extents|
    requires Agrees(file, extents[i].start, extents[i].image) && Stop(extents[i]) <= |file|
    ensures BlocksInside(parse, |file|, extents[i])
  {
    var e := extents[i];
    LaidImage(z, extents, offset, i);
    var fs := FragmentsFound(z, file, parse, e.start, e.data, 0, true);
    StartsThrough(parse, |file|, fs, true);
    fs.StopBeyond(parse, |file|, true);
    forall q | e.start <= q < Stop(e) && q % BLOCK == 0
      ensures Starts(parse, |file|, q) == if q <= Place(e.start) then Starts(parse, |file|, e.start)
                                          else Starts(parse, |file|, Stop(e))
    {
      if q <= Place(e.start) {
        SameParse(z, file, parse, e.start, q);
      } else {
        LaterBlock(z, file, parse, e, q);
      }
    }
  }

  lemma LaterBlock(z: Checksum, file: Bytes, parse: Parser, e: Extent, q: nat)
    requires Sound(z) && Parses(z, file, parse) && e.image == Emit(z, e.start, e.data, 0, true)
    requires Agrees(file, e.start, e.image) && Stop(e) <= |file| && Place(e.start) < q < Stop(e) && q % BLOCK == 0
    ensures Starts(parse, |file|, q) == Starts(parse, |file|, Stop(e))
  {
    var ptr := BlockInside(z, file, e.start, e.data, 0, true, q);
    RestStarts(z, file, parse, q, e.data, ptr, Stop(e));
  }

  lemma RestStarts(z: Checksum, file: Bytes, parse: Parser, q: nat, data: Bytes, ptr: nat, stop: nat)
    requires Sound(z) && Parses(z, file, parse) && ptr <= |data| && Agrees(file, q, Emit(z, q, data, ptr, false))
    requires q + |Emit(z, q, data, ptr, false)| == stop <= |file|
    ensures Starts(parse, |file|, q) == Starts(parse, |file|, stop)
  {
    var rest := FragmentsFound(z, file, parse, q, data, ptr, false);
    StartsThrough(parse, |file|, rest, false);
  }

  lemma SameParse(z: Checksum, file: Bytes, parse: Parser, start: nat, q: nat)
    requires Parses(z, file, parse) && start <= q <= Place(start) && q % BLOCK == 0 && q <= |file|
    ensures Starts(parse, |file|, q) == Starts(parse, |file|, start)
  {
    SamePlace(start, q);
    assert Look(start) && Look(q);
  }

  lemma SamePlace(start: nat, q: nat)
    requires start <= q <= Place(start) && q % BLOCK == 0
    ensures Place(q) == Place(start)
  {
  }

  // ---------- Gaps ----------

  /** After a gap's zeros the reader goes on at the next block. */
  ghost predicate GapAfter(parse: Parser, size: nat, extents: seq<Extent>, i: nat)
    requires Advances(parse, size) && i < |extents| - 1
  {
    var stop := Stop(extents[i]);
    && stop % BLOCK == 0 && stop <= size && extents[i + 1].start == stop + HEADER
    && Starts(parse, size, stop) == Starts(parse, size, BlockEnd(stop, size))
  }

  lemma SpillFillsBlocks(start: nat, n: nat)
    requires ExactSpill(start, n)
    ensures EmitEnd(start, n) % BLOCK == 0
  {
    FragmentFits(start, n);
    var p, m := Place(start), Spill(start, n);
    AddUp(p, BLOCK - p % BLOCK);
    var q := p + (BLOCK - p % BLOCK);
    EmitEndAtBlock(q, m);
    WholeBlocks(q, m / (BLOCK - HEADER));
  }

  lemma WholeBlocks(q: nat, k: nat)
    requires q % BLOCK == 0
    ensures (q + k * BLOCK) % BLOCK == 0
  {
  }

  lemma GapFound(z: Checksum, file: Bytes, parse: Parser, extents: seq<Extent>, offset: nat, i: nat)
    requires Parses(z, file, parse) && Laid(z, extents, offset) && Small(extents) && Apart(extents)
    requires IsLog(file, extents) && i < |extents| - 1 && ExactSpill(extents[i].start, |extents[i].data|)
    ensures GapAfter(parse, |file|, extents, i)
  {
    var stop := Stop(extents[i]);
    ExtentExact(z, extents, offset, i);
    LaidImage(z, extents, offset, i);
    EmitLength(z, extents[i].start, extents[i].data, 0, true);
    SpillFillsBlocks(extents[i].start, |extents[i].data|);
    StopsGrow(extents, i + 1);
    forall a | stop <= a < stop + HEADER ensures file[a] == 0 {
      NotCovered(extents, i, a);
    }
    ZerosSkipped(z, file, parse, stop);
  }

  lemma NotCovered(extents: seq<Extent>, i: nat, a: nat)
    requires Apart(extents) && i < |extents| - 1 && Stop(extents[i]) <= a < extents[i + 1].start
    ensures !Covered(extents, a)
  {
    forall h | 0 <= h < |extents| ensures !(extents[h].start <= a < Stop(extents[h])) {
      assert h < i ==> Stop(extents[h]) <= extents[i].start;
      assert h > i + 1 ==> Stop(extents[i + 1]) <= extents[h].start;
    }
  }

  lemma ZerosSkipped(z: Checksum, file: Bytes, parse: Parser, q: nat)
    requires Parses(z, file, parse) && q % BLOCK == 0 && q + HEADER <= |file|
    requires forall a :: q <= a < q + HEADER ==> file[a] == 0
    ensures Starts(parse, |file|, q) == Starts(parse, |file|, BlockEnd(q, |file|))
  {
    PlaceOfBlock(q);
    HeaderFits(q, |file|);
    var buffer := file[q..BlockEnd(q, |file|)];
    assert buffer[4] == 0 && buffer[5] == 0 && buffer[6] == 0;
    assert Look(q);
  }

  // ---------- Counting what is left ----------

  /** The file's extents, as the reader finds them: each meets the next or leaves a gap before it. */
  ghost predicate Walkable(parse: Parser, size: nat, extents: seq<Extent>)
    requires Advances(parse, size)
  {
    && |extents| > 0 && size == Stop(extents[|extents| - 1]) && Starts(parse, size, size) == 0
    && (forall i :: 0 <= i < |extents| ==> BlocksInside(parse, size, extents[i]))
    && (forall i :: 0 <= i < |extents| - 1 ==> Meets(extents, i) || GapAfter(parse, size, extents, i))
  }

  ghost predicate Meets(extents: seq<Extent>, i: nat)
    requires i < |extents| - 1
  {
    extents[i + 1].start == Stop(extents[i])
  }

  lemma BlockEndOf(stop: nat, size: nat)
    requires stop % BLOCK == 0 && stop <= size
    ensures var q := BlockEnd(stop, size);
            (q % BLOCK == 0 || q == size) && q <= size && (q == size || q == stop + BLOCK)
  {
  }

  lemma PlaceAfterGap(stop: nat)
    requires stop % BLOCK == 0
    ensures Place(stop + HEADER) == stop + HEADER
  {
  }

  /** From the start of a block, no more records can be begun than have not yet been passed. */
  lemma {:induction false} StartsFromBlock(parse: Parser, size: nat, extents: seq<Extent>, i: nat, q: nat)
    requires Advances(parse, size) && Walkable(parse, size, extents)
    requires i < |extents| && extents[i].start <= q <= size && (q % BLOCK == 0 || q == size)
    ensures Starts(parse, size, q) <= |extents| - i - if Place(extents[i].start) < q then 1 else 0
    decreases |extents| - i, 0
  {
    var e := extents[i];
    assert BlocksInside(parse, size, e);
    if q < Stop(e) {
      StartsAfter(parse, size, extents, i);
    } else if i < |extents| - 1 {
      if q >= extents[i + 1].start {
        StartsFromBlock(parse, size, extents, i + 1, q);
      } else {
        StartsAfter(parse, size, extents, i);
        SameBlock(Stop(e), q);
      }
    }
  }

  lemma SameBlock(stop: nat, q: nat)
    requires stop % BLOCK == 0 && q % BLOCK == 0 && stop <= q < stop + HEADER
    ensures q == stop
  {
  }

  /** From where an extent's writes stop; after a gap one record more is out of reach. */
  lemma {:induction false} StartsAfter(parse: Parser, size: nat, extents: seq<Extent>, i: nat)
    requires Advances(parse, size) && Walkable(parse, size, extents) && i < |extents|
    ensures Stop(extents[i]) <= size
    ensures Starts(parse, size, Stop(extents[i]))
            <= |extents| - i - 1 - if i < |extents| - 1 && !Meets(extents, i) then 1 else 0
    decreases |extents| - i - 1, 1
  {
    assert BlocksInside(parse, size, extents[i]);
    if i < |extents| - 1 {
      assert BlocksInside(parse, size, extents[i + 1]);
      if Meets(extents, i) {
        StartsAfter(parse, size, extents, i + 1);
      } else {
        var q := AfterGap(parse, size, extents, i);
        StartsFromBlock(parse, size, extents, i + 1, q);
      }
    }
  }

  lemma AfterGap(parse: Parser, size: nat, extents: seq<Extent>, i: nat) returns (q: nat)
    requires Advances(parse, size) && Walkable(parse, size, extents) && i < |extents| - 1 && !Meets(extents, i)
    ensures extents[i + 1].start <= q <= size && (q % BLOCK == 0 || q == size) && Place(extents[i + 1].start) < q
    ensures Stop(extents[i]) <= size && Starts(parse, size, Stop(extents[i])) == Starts(parse, size, q)
  {
    assert GapAfter(parse, size, extents, i) && BlocksInside(parse, size, extents[i + 1]);
    var stop := Stop(extents[i]);
    q := BlockEnd(stop, size);
    BlockEndOf(stop, size);
    PlaceAfterGap(stop);
  }

  lemma {:induction false} StartsLost(parse: Parser, size: nat, extents: seq<Extent>, i: nat, g: nat)
    requires Advances(parse, size) && Walkable(parse, size, extents) && i <= g < |extents| - 1 && !Meets(extents, g)
    ensures extents[i].start <= size && Starts(parse, size, extents[i].start) < |extents| - i
    decreases g - i
  {
    assert BlocksInside(parse, size, extents[i]);
    if Meets(extents, i) {
      StartsLost(parse, size, extents, i + 1, g);
    } else {
      StartsAfter(parse, size, extents, i);
    }
  }

  lemma LogWalkable(z: Checksum, file: Bytes, parse: Parser, extents: seq<Extent>, offset: nat)
    requires Sound(z) && Parses(z, file, parse) && parse(|file|).event == Eof && |extents| > 0
    requires Laid(z, extents, offset) && Small(extents) && IsLog(file, extents)
    ensures Walkable(parse, |file|, extents)
  {
    LaidApart(z, extents, offset);
    forall i | 0 <= i < |extents| ensures BlocksInside(parse, |file|, extents[i]) {
      StopsGrow(extents, i);
      assert Agrees(file, extents[i].start, extents[i].image);
      ExtentBlocks(z, file, parse, extents, offset, i);
    }
    forall i | 0 <= i < |extents| - 1 ensures Meets(extents, i) || GapAfter(parse, |file|, extents, i) {
      ExtentExact(z, extents, offset, i);
      if ExactSpill(extents[i].start, |extents[i].data|) {
        GapFound(z, file, parse, extents, offset, i);
      }
    }
  }

  /** A whole log reads back exactly when no record but the last spills over a whole number of blocks. */
  lemma LogReadsBackIff(z: Checksum, file: Bytes, extents: seq<Extent>, offset: nat)
    requires Sound(z) && Laid(z, extents, offset) && Small(extents) && IsLog(file, extents)
    ensures ReadWhole(z, file) == Output(Records(extents, |extents|), 0) <==> Dense(extents)
  {
    if Dense(extents) {
      var k := CutLogReadBack(z, file, extents, offset, |file|);
      assert file[..|file|] == file;
      LaidApart(z, extents, offset);
      if |extents| > 0 {
        assert Stop(extents[|extents| - 1]) <= |file|;
      }
    } else {
      var g :| 0 <= g < |extents| - 1 && ExactSpill(extents[g].start, |extents[g].data|);
      RecordLost(z, file, extents, offset, g);
    }
  }

  /** A record that leaves a gap costs at least one of the records after it. */
  lemma RecordLost(z: Checksum, file: Bytes, extents: seq<Extent>, offset: nat, g: nat)
    requires Sound(z) && Laid(z, extents, offset) && Small(extents) && IsLog(file, extents)
    requires g < |extents| - 1 && ExactSpill(extents[g].start, |extents[g].data|)
    ensures |ReadWhole(z, file).records| < |extents|
  {
    var parse := ParserOf(z, file);
    EndsAtSize(z, file, |file|);
    StartLost(z, file, parse, extents, offset, g);
    RecordsNeedStarts(parse, |file|, 0, false, [], Output([], 0));
  }

  lemma StartLost(z: Checksum, file: Bytes, parse: Parser, extents: seq<Extent>, offset: nat, g: nat)
    requires Sound(z) && Parses(z, file, parse) && parse(|file|).event == Eof
    requires Laid(z, extents, offset) && Small(extents) && IsLog(file, extents)
    requires g < |extents| - 1 && ExactSpill(extents[g].start, |extents[g].data|)
    ensures Starts(parse, |file|, 0) < |extents|
  {
    LogWalkable(z, file, parse, extents, offset);
    ExtentExact(z, extents, offset, g);
    StartsLost(parse, |file|, extents, 0, g);
  }

  /** However the writers interleave, their records read back in order of reservation, exactly when none but the
      last spills over a whole number of blocks. */
  lemma WritersReadBackIff(z: Checksum, states: seq<State>, steps: seq<Step>, size: nat)
    requires Sound(z) && Run(z, states, steps)
    requires forall i :: 0 <= i < |states| ==> Small(states[i].extents)
    requires AllDone(states[|steps|].extents, states[|steps|].done) && Sized(states[|steps|].cells, size)
    ensures var extents := states[|steps|].extents;
            ReadWhole(z, FileOf(states[|steps|].cells, size)) == Output(Records(extents, |extents|), 0)
            <==> Dense(extents)
  {
    var s := states[|steps|];
    FinishedIsLog(z, states, steps, size);
    LogReadsBackIff(z, FileOf(s.cells, size), s.extents, s.offset);
  }
}
