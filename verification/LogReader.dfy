/** The log reader, what it returns for any file, and for what the writers left, whole or cut short. */
module LogReader {
  import opened Coding
  import opened Keys
  import opened Log
  import Crc

  // ---------- What the reader makes of a file ----------

  datatype Event = Record(t: Byte, payload: Bytes) | Bad | Eof

  /** The next physical record, the position after it, and the number of corruptions reported. */
  datatype Parsed = Parsed(event: Event, pos: nat, reports: nat)

  function BlockEnd(pos: nat, size: nat): nat {
    if pos - pos % BLOCK + BLOCK <= size then pos - pos % BLOCK + BLOCK else size
  }

  function Length(low: Byte, high: Byte): nat {
    low as int + 0x100 * (high as int)
  }

  /** ReadPhysicalRecord returns the type as stored, and shares its numbers with two of its own: 5 for the end of the
      file and 6 for a bad record. */
  function EventOf(t: Byte, payload: Bytes): Event {
    if t == LAST + 1 then Eof else if t == LAST + 2 then Bad else Record(t, payload)
  }

  /** The record at the head of what is left of a block, with the number of bytes it takes; short when the
      file ends inside the block. */
  function ParseHead(z: Checksum, buffer: Bytes, short: bool): (r: Parsed)
    requires |buffer| >= HEADER
    ensures 0 < r.pos <= |buffer|
  {
    var length := Length(buffer[4], buffer[5]);
    var t := buffer[6];
    if HEADER + length > |buffer| then
      if short then Parsed(Eof, |buffer|, 0) else Parsed(Bad, |buffer|, 1)
    else if t == 0 && length == 0 then Parsed(Bad, |buffer|, 0)
    else
      var payload := buffer[HEADER..HEADER + length];
      if z.test(Crc.Load(buffer[0], buffer[1], buffer[2], buffer[3]), t, payload)
      then Parsed(EventOf(t, payload), HEADER + length, 0)
      else Parsed(Bad, |buffer|, 1)
  }

  /** The record at p, in the block that ends at end. */
  function ParseAt(z: Checksum, file: Bytes, p: nat, end: nat): Parsed
    requires p + HEADER <= end <= |file|
  {
    var r := ParseHead(z, file[p..end], end % BLOCK != 0);
    Parsed(r.event, p + r.pos, r.reports)
  }

  lemma HeaderFits(pos: nat, size: nat)
    requires pos % BLOCK + HEADER <= BLOCK && pos + HEADER <= size
    ensures pos + HEADER <= BlockEnd(pos, size) <= size
  {
  }

  /** What is left of a block after its last header is skipped. */
  function Parse(z: Checksum, file: Bytes, pos: nat): (r: Parsed)
    requires pos <= |file|
    ensures r.pos <= |file| && (r.event != Eof ==> pos < r.pos)
  {
    PlaceFits(pos);
    var p := Place(pos);
    if p + HEADER > |file| then Parsed(Eof, |file|, 0)
    else
      HeaderFits(p, |file|);
      ParseAt(z, file, p, BlockEnd(p, |file|))
  }

  /** What one physical record does to a logical record being gathered. */
  datatype Turn = Turn(fragmented: bool, scratch: Bytes, record: seq<Bytes>, reports: nat)

  function Absorb(event: Event, fragmented: bool, scratch: Bytes): Turn
    requires event != Eof
  {
    var broken := if fragmented && scratch != [] then 1 else 0;
    if event == Bad then Turn(false, if fragmented then [] else scratch, [], if fragmented then 1 else 0)
    else if event.t == FULL then Turn(false, [], [event.payload], broken)
    else if event.t == FIRST then Turn(true, event.payload, [], broken)
    else if event.t == MIDDLE then
      if fragmented then Turn(true, scratch + event.payload, [], 0) else Turn(false, scratch, [], 1)
    else if event.t == LAST then
      if fragmented then Turn(false, [], [scratch + event.payload], 0) else Turn(false, scratch, [], 1)
    else Turn(false, [], [], 1)
  }

  /** All the records returned, and the number of corruptions reported. */
  datatype Output = Output(records: seq<Bytes>, reports: nat)

  function More(seen: Output, record: seq<Bytes>, reports: nat): Output {
    Output(seen.records + record, seen.reports + reports)
  }

  lemma MoreMore(seen: Output, a: nat, record: seq<Bytes>, b: nat)
    ensures More(More(seen, [], a), record, b) == More(seen, record, a + b)
  {
  }

  /** The physical record found at each position of a file of some size: reading always gets further. */
  type Parser = nat -> Parsed

  ghost predicate Advances(parse: Parser, size: nat) {
    forall p: nat :: p <= size ==> parse(p).pos <= size && (parse(p).event != Eof ==> p < parse(p).pos)
  }

  /** Reading on from pos to the end, with a record's first fragments, if any, gathered in scratch. */
  ghost function ReadFrom(parse: Parser, size: nat, pos: nat, fragmented: bool, scratch: Bytes, seen: Output): Output
    requires Advances(parse, size) && pos <= size
    decreases size - pos
  {
    var p := parse(pos);
    if p.event == Eof then More(seen, [], p.reports)
    else
      var t := Absorb(p.event, fragmented, scratch);
      ReadFrom(parse, size, p.pos, t.fragmented, t.scratch, More(seen, t.record, p.reports + t.reports))
  }

  ghost function ParserOf(z: Checksum, file: Bytes): (parse: Parser)
    ensures Advances(parse, |file|)
  {
    (p: nat) => if p <= |file| then Parse(z, file, p) else Parsed(Eof, p, 0)
  }

  /** All that is read from a file. */
  ghost function ReadWhole(z: Checksum, file: Bytes): Output {
    ReadFrom(ParserOf(z, file), |file|, 0, false, [], Output([], 0))
  }

  ghost predicate Look(p: nat) { true }

  /** The parser finds what the file holds; the equation is for use where Look is asserted. */
  ghost predicate Parses(z: Checksum, file: Bytes, parse: Parser) {
    Advances(parse, |file|) && forall p: nat {:trigger Look(p)} :: p <= |file| ==> parse(p) == Parse(z, file, p)
  }

  lemma SliceOf(file: Bytes, a: nat, b: nat, i: nat, j: nat)
    requires a <= b <= |file| && i <= j <= b - a
    ensures file[a..b][i..j] == file[a + i..a + j]
  {
    var whole, part := file[a..b], file[a + i..a + j];
    assert forall h :: 0 <= h < j - i ==> whole[i..j][h] == whole[i + h] == file[a + i + h] == part[h];
  }

  // ---------- The reader ----------

  class Reader {
    const z: Checksum
    const file: Bytes
    var buffer: Bytes
    var eof: bool
    var readPos: nat        // how far the file has been read into the buffer
    var reports: nat

    ghost predicate Valid()
      reads this
    {
      && |buffer| <= readPos <= |file| && buffer == file[readPos - |buffer|..readPos]
      && if eof then readPos == |file| && |buffer| <= readPos % BLOCK
         else readPos % BLOCK == 0 && |buffer| <= BLOCK
    }

    function Pos(): nat
      requires |buffer| <= readPos
      reads this
    {
      readPos - |buffer|
    }

    constructor (z: Checksum, file: Bytes)
      ensures Valid() && Pos() == 0 && reports == 0 && this.z == z && this.file == file
    {
      this.z, this.file := z, file;
      buffer, eof, readPos, reports := [], false, 0, 0;
    }

    lemma BufferEndsBlock()
      requires Valid() && |buffer| > 0
      ensures readPos == BlockEnd(Pos(), |file|) && (eof <==> readPos % BLOCK != 0)
    {
      EndOfBlock(readPos, |buffer|, |file|, eof);
    }

    /** Reads the next block of the file into the emptied buffer. */
    method Refill()
      requires Valid() && !eof
      modifies this`buffer, this`eof, this`readPos
      ensures Valid() && Pos() == old(readPos)
      ensures |buffer| == BlockEnd(old(readPos), |file|) - old(readPos)
      ensures eof <==> |buffer| < BLOCK
    {
      var n := if |file| - readPos < BLOCK then |file| - readPos else BLOCK;
      FullOrShort(readPos, n, |file|);
      buffer := file[readPos..readPos + n];
      readPos := readPos + n;
      if |buffer| < BLOCK {
        eof := true;
      }
    }

    method ReadPhysicalRecord() returns (event: Event)
      requires Valid()
      modifies this
      ensures Valid() && reports >= old(reports)
      ensures Parsed(event, Pos(), reports - old(reports)) == old(Parse(z, file, Pos()))
    {
      ghost var pos := Pos();
      while |buffer| < HEADER
        invariant Valid() && reports == old(reports)
        invariant Pos() == pos || (Pos() == Place(pos) && Pos() % BLOCK == 0)
        decreases |file| - readPos, !eof
      {
        SkipTrailer(pos);
        if !eof {
          buffer := [];
          Refill();
        } else {
          buffer := [];
          return Eof;
        }
      }
      event := ParseHere();
    }

    /** Too few bytes for a header are a block's trailer or the end of the file. */
    lemma SkipTrailer(pos: nat)
      requires Valid() && |buffer| < HEADER
      requires Pos() == pos || (Pos() == Place(pos) && Pos() % BLOCK == 0)
      ensures if eof then Place(pos) + HEADER > |file| else readPos == Place(pos) || readPos == pos
    {
      if |buffer| > 0 {
        BufferEndsBlock();
      }
    }

    /** Drops n bytes from the head of the buffer. */
    method RemovePrefix(n: nat)
      requires Valid() && n <= |buffer|
      modifies this`buffer
      ensures Valid() && |buffer| == |old(buffer)| - n
    {
      SliceOf(file, Pos(), readPos, n, |buffer|);
      buffer := buffer[n..|buffer|];
    }

    /** The part of ReadPhysicalRecord after a header has been found. */
    method ParseBuffer() returns (event: Event)
      requires Valid() && |buffer| >= HEADER
      modifies this`buffer, this`reports
      ensures Valid() && reports >= old(reports) && |buffer| <= |old(buffer)|
      ensures Parsed(event, |old(buffer)| - |buffer|, reports - old(reports)) == ParseHead(z, old(buffer), eof)
    {
      var header := buffer;
      var length := Length(header[4], header[5]);
      var t := header[6];
      if HEADER + length > |buffer| {
        RemovePrefix(|buffer|);
        if !eof {
          reports := reports + 1;
          return Bad;
        }
        return Eof;
      }
      if t == 0 && length == 0 {
        RemovePrefix(|buffer|);
        return Bad;
      }
      var payload := header[HEADER..HEADER + length];
      if !z.test(Crc.Load(header[0], header[1], header[2], header[3]), t, payload) {
        RemovePrefix(|buffer|);
        reports := reports + 1;
        return Bad;
      }
      RemovePrefix(HEADER + length);
      event := EventOf(t, payload);
    }

    method ParseHere() returns (event: Event)
      requires Valid() && |buffer| >= HEADER
      modifies this`buffer, this`reports
      ensures Valid() && reports >= old(reports)
      ensures old(Pos()) % BLOCK + HEADER <= BLOCK && old(Pos()) + HEADER <= BlockEnd(old(Pos()), |file|) <= |file|
      ensures Parsed(event, Pos(), reports - old(reports)) == ParseAt(z, file, old(Pos()), BlockEnd(old(Pos()), |file|))
    {
      BufferEndsBlock();
      HeaderInBlock(Pos(), |file|);
      event := ParseBuffer();
    }

    /** One turn of ReadRecord's loop. */
    method ReadTurn(fragmented: bool, scratch: Bytes, ghost parse: Parser, ghost seen: Output)
        returns (more: bool, turn: Turn)
      requires Valid() && Parses(z, file, parse)
      modifies this
      ensures Valid() && reports >= old(reports) && (more ==> Pos() > old(Pos()))
      ensures var seen' := More(seen, turn.record, reports - old(reports));
              ReadFrom(parse, |file|, old(Pos()), fragmented, scratch, seen)
              == if more then ReadFrom(parse, |file|, Pos(), turn.fragmented, turn.scratch, seen') else seen'
      ensures if more && turn.record != [] then !turn.fragmented && turn.scratch == [] && |turn.record| == 1
              else turn.record == []
    {
      assert Look(Pos());
      var event := ReadPhysicalRecord();
      if event == Eof {
        return false, Turn(false, [], [], 0);
      }
      more, turn := true, Absorb(event, fragmented, scratch);
      reports := reports + turn.reports;
    }

    /** One call returns the first of the records still to come, or none when there are no more. */
    method ReadRecord(ghost parse: Parser, ghost seen: Output) returns (ok: bool, record: Bytes)
      requires Valid() && Parses(z, file, parse)
      modifies this
      ensures Valid() && reports >= old(reports) && (ok ==> Pos() > old(Pos()))
      ensures var seen' := More(seen, if ok then [record] else [], reports - old(reports));
              ReadFrom(parse, |file|, old(Pos()), false, [], seen)
              == if ok then ReadFrom(parse, |file|, Pos(), false, [], seen') else seen'
    {
      record := [];
      var scratch, fragmented := [], false;
      ghost var sofar, whole := More(seen, [], 0), ReadFrom(parse, |file|, Pos(), false, [], seen);
      assert sofar == seen;
      while true
        invariant Valid() && reports >= old(reports) && Pos() >= old(Pos())
        invariant sofar == More(seen, [], reports - old(reports))
        invariant whole == ReadFrom(parse, |file|, Pos(), fragmented, scratch, sofar)
        decreases |file| - Pos()
      {
        ghost var before := reports;
        var more, turn := ReadTurn(fragmented, scratch, parse, sofar);
        MoreMore(seen, before - old(reports), turn.record, reports - before);
        sofar := More(sofar, turn.record, reports - before);
        if !more {
          return false, [];
        }
        scratch, fragmented := turn.scratch, turn.fragmented;
        if turn.record != [] {
          assert turn.record == [turn.record[0]];
          return true, turn.record[0];
        }
      }
    }
  }

  /** The loop that recovers a log. */
  method ReadAll(z: Checksum, file: Bytes) returns (records: seq<Bytes>, reports: nat)
    ensures ReadWhole(z, file) == Output(records, reports)
  {
    records, reports := ReadLoop(z, file, ParserOf(z, file));
  }

  method ReadLoop(z: Checksum, file: Bytes, ghost parse: Parser) returns (records: seq<Bytes>, reports: nat)
    requires Parses(z, file, parse)
    ensures ReadFrom(parse, |file|, 0, false, [], Output([], 0)) == Output(records, reports)
  {
    var reader := new Reader(z, file);
    records := [];
    ghost var out := ReadFrom(parse, |file|, 0, false, [], Output([], 0));
    var ok := true;
    while ok
      invariant fresh(reader) && reader.Valid() && reader.z == z && reader.file == file
      invariant out == if ok then ReadFrom(parse, |file|, reader.Pos(), false, [], Output(records, reader.reports))
                       else Output(records, reader.reports)
      decreases ok, |file| - reader.Pos()
    {
      var record;
      ok, record := reader.ReadRecord(parse, Output(records, reader.reports));
      records := if ok then records + [record] else records;
    }
    reports := reader.reports;
  }

  lemma EndOfBlock(readPos: nat, n: nat, size: nat, eof: bool)
    requires 0 < n <= readPos <= size
    requires if eof then readPos == size && n <= readPos % BLOCK else readPos % BLOCK == 0 && n <= BLOCK
    ensures readPos == BlockEnd(readPos - n, size) && (eof <==> readPos % BLOCK != 0)
  {
  }

  lemma HeaderInBlock(pos: nat, size: nat)
    requires pos + HEADER <= BlockEnd(pos, size)
    ensures pos % BLOCK + HEADER <= BLOCK
  {
  }

  lemma FullOrShort(readPos: nat, n: nat, size: nat)
    requires readPos <= size && readPos % BLOCK == 0
    requires n == if size - readPos < BLOCK then size - readPos else BLOCK
    ensures n == BlockEnd(readPos, size) - readPos
    ensures if n < BLOCK then (readPos + n) % BLOCK == n else (readPos + n) % BLOCK == 0
  {
  }

  // ---------- Reading back what was written ----------

  lemma LengthRoundTrips(n: nat)
    requires n <= 0xFFFF
    ensures Length(n % 0x100, n / 0x100) == n
  {
  }

  /** The file holds the part at the offset, as far as the file goes. */
  ghost predicate Agrees(file: Bytes, offset: nat, part: Bytes) {
    forall j :: 0 <= j < |part| && offset + j < |file| ==> file[offset + j] == part[j]
  }

  lemma AgreesParts(file: Bytes, offset: nat, a: Bytes, b: Bytes)
    requires Agrees(file, offset, a + b)
    ensures Agrees(file, offset, a) && Agrees(file, offset + |a|, b)
  {
    forall j | 0 <= j < |a| && offset + j < |file| ensures file[offset + j] == a[j] {
      assert (a + b)[j] == a[j];
    }
    forall j | 0 <= j < |b| && offset + |a| + j < |file| ensures file[offset + |a| + j] == b[j] {
      assert file[offset + (|a| + j)] == (a + b)[|a| + j] == b[j];
    }
  }

  /** A fragment wholly in the file is read back; one that is cut reads as the end of the file. */
  lemma FragmentRead(z: Checksum, file: Bytes, pos: nat, t: Byte, payload: Bytes)
    requires Sound(z) && 0 < t <= LAST && |payload| <= BLOCK && pos <= |file|
    requires var p := Place(pos);
             p % BLOCK + HEADER + |payload| <= BLOCK && Agrees(file, p, Physical(z, t, payload))
    ensures var end := Place(pos) + HEADER + |payload|;
            var r := Parse(z, file, pos);
            if end <= |file| then r == Parsed(Record(t, payload), end, 0) else r.event == Eof && r.reports == 0
  {
    var p := Place(pos);
    if p + HEADER <= |file| {
      BlockHolds(p, |payload|, |file|);
      ParsedAt(z, file, p, BlockEnd(p, |file|), t, payload);
    }
  }

  lemma ParsedAt(z: Checksum, file: Bytes, p: nat, end: nat, t: Byte, payload: Bytes)
    requires Sound(z) && 0 < t <= LAST && |payload| <= BLOCK && Agrees(file, p, Physical(z, t, payload))
    requires p + HEADER <= end <= |file|
    requires p + HEADER + |payload| > end ==> end % BLOCK != 0
    ensures ParseAt(z, file, p, end)
            == if p + HEADER + |payload| <= end then Parsed(Record(t, payload), p + HEADER + |payload|, 0)
               else Parsed(Eof, end, 0)
  {
    var image, buffer := Physical(z, t, payload), file[p..end];
    forall j | 0 <= j < |buffer| && j < |image| ensures buffer[j] == image[j] {
      assert file[p + j] == image[j];
    }
    HeadParsed(z, buffer, end % BLOCK != 0, t, payload);
  }

  lemma HeadParsed(z: Checksum, buffer: Bytes, short: bool, t: Byte, payload: Bytes)
    requires Sound(z) && 0 < t <= LAST && |payload| <= BLOCK && |buffer| >= HEADER
    requires forall j :: 0 <= j < |buffer| && j < HEADER + |payload| ==> buffer[j] == Physical(z, t, payload)[j]
    requires HEADER + |payload| > |buffer| ==> short
    ensures ParseHead(z, buffer, short)
            == if HEADER + |payload| <= |buffer| then Parsed(Record(t, payload), HEADER + |payload|, 0)
               else Parsed(Eof, |buffer|, 0)
  {
    var w, n := z.store(t, payload), |payload|;
    HeaderBytes(z, buffer, t, payload);
    Crc.SplitWord(w);
    LengthRoundTrips(n);
    assert z.test(w, t, payload);
    if HEADER + n <= |buffer| {
      assert buffer[HEADER..HEADER + n] == payload by {
        assert forall j :: 0 <= j < n ==> Physical(z, t, payload)[HEADER + j] == payload[j];
      }
    }
  }

  lemma HeaderBytes(z: Checksum, buffer: Bytes, t: Byte, payload: Bytes)
    requires |payload| <= BLOCK && |buffer| >= HEADER
    requires forall j :: 0 <= j < |buffer| && j < HEADER + |payload| ==> buffer[j] == Physical(z, t, payload)[j]
    ensures buffer[..4] == Fixed32(z.store(t, payload))
    ensures buffer[4] == |payload| % 0x100 && buffer[5] == |payload| / 0x100 && buffer[6] == t
  {
  }

  lemma BlockHolds(p: nat, n: nat, size: nat)
    requires p % BLOCK + HEADER + n <= BLOCK && p + HEADER <= size
    ensures var end := BlockEnd(p, size);
            if p + HEADER + n <= size then p + HEADER + n <= end else end == size && size % BLOCK != 0
  {
  }

  /** The next fragment of a record, as the emit loop wrote it. */
  lemma EmitAt(z: Checksum, file: Bytes, pos: nat, data: Bytes, ptr: nat, begin: bool) returns (k: nat, end: nat)
    requires ptr <= |data| && Agrees(file, pos, Emit(z, pos, data, ptr, begin))
    ensures ptr + k <= |data| && k <= BLOCK && end == Place(pos) + HEADER + k
    ensures Place(pos) % BLOCK + HEADER + k <= BLOCK
    ensures Agrees(file, Place(pos), Physical(z, TypeOf(begin, ptr + k == |data|), data[ptr..ptr + k]))
    ensures pos + |Emit(z, pos, data, ptr, begin)|
            == if ptr + k == |data| then end else end + |Emit(z, end, data, ptr + k, false)|
    ensures ptr + k < |data| ==>
              && Agrees(file, end, Emit(z, end, data, ptr + k, false)) && end % BLOCK == 0
              && Work(end, |data| - (ptr + k)) < Work(pos, |data| - ptr)
  {
    FragmentFits(pos, |data| - ptr);
    k := Fragment(pos, |data| - ptr);
    end := Place(pos) + HEADER + k;
    var piece := Piece(z, pos, data, ptr, begin);
    if ptr + k < |data| {
      Progress(pos, |data| - ptr);
      AgreesParts(file, pos, piece, Emit(z, end, data, ptr + k, false));
    }
    PieceAt(z, file, pos, data, ptr, begin);
  }

  lemma PieceAt(z: Checksum, file: Bytes, pos: nat, data: Bytes, ptr: nat, begin: bool)
    requires ptr <= |data| && Agrees(file, pos, Piece(z, pos, data, ptr, begin))
    ensures var k := Fragment(pos, |data| - ptr);
            ptr + k <= |data| && k <= BLOCK
            && Agrees(file, Place(pos), Physical(z, TypeOf(begin, ptr + k == |data|), data[ptr..ptr + k]))
  {
    FragmentFits(pos, |data| - ptr);
    var k := Fragment(pos, |data| - ptr);
    AgreesParts(file, pos, Zeros(Place(pos) - pos), Physical(z, TypeOf(begin, ptr + k == |data|), data[ptr..ptr + k]));
  }

  /** A record's fragments: where each starts being read, its part of the record, and where it ends. */
  datatype Fragments = One(pos: nat, payload: Bytes, end: nat)
                     | Cons(pos: nat, payload: Bytes, end: nat, rest: Fragments)
  {
    function Stop(): nat {
      if One? then end else rest.Stop()
    }

    function Data(): Bytes {
      if One? then payload else payload + rest.Data()
    }

    /** Each fragment in the file is found where the one before it ended; from one that is cut the file reads
        as ended. */
    ghost predicate Found(parse: Parser, size: nat, begin: bool) {
      && pos < end
      && (pos <= size ==>
            if end <= size then parse(pos) == Parsed(Record(TypeOf(begin, One?), payload), end, 0)
            else parse(pos).event == Eof && parse(pos).reports == 0)
      && (Cons? ==> rest.pos == end && rest.Found(parse, size, false))
    }

    lemma {:induction false} StopBeyond(parse: Parser, size: nat, begin: bool)
      requires Found(parse, size, begin)
      ensures end <= Stop()
    {
      if Cons? {
        rest.StopBeyond(parse, size, false);
      }
    }
  }

  /** What the emit loop wrote for a record is found again fragment by fragment. */
  lemma {:induction false} FragmentsFound(z: Checksum, file: Bytes, parse: Parser, pos: nat, data: Bytes, ptr: nat,
                                          begin: bool) returns (fs: Fragments)
    requires Sound(z) && Parses(z, file, parse) && ptr <= |data|
    requires Agrees(file, pos, Emit(z, pos, data, ptr, begin))
    ensures fs.pos == pos && fs.Data() == data[ptr..] && fs.Stop() == pos + |Emit(z, pos, data, ptr, begin)|
    ensures fs.Found(parse, |file|, begin)
    decreases Work(pos, |data| - ptr)
  {
    var k, end := NextFragment(z, file, parse, pos, data, ptr, begin);
    if ptr + k == |data| {
      assert data[ptr..ptr + k] == data[ptr..];
      fs := One(pos, data[ptr..ptr + k], end);
    } else {
      var rest := FragmentsFound(z, file, parse, end, data, ptr + k, false);
      assert data[ptr..] == data[ptr..ptr + k] + data[ptr + k..];
      fs := Cons(pos, data[ptr..ptr + k], end, rest);
      ConsFound(parse, |file|, pos, data[ptr..ptr + k], end, rest, begin);
    }
  }

  lemma ConsFound(parse: Parser, size: nat, pos: nat, payload: Bytes, end: nat, rest: Fragments, begin: bool)
    requires pos < end == rest.pos && rest.Found(parse, size, false)
    requires pos <= size ==>
               if end <= size then parse(pos) == Parsed(Record(TypeOf(begin, false), payload), end, 0)
               else parse(pos).event == Eof && parse(pos).reports == 0
    ensures var fs := Cons(pos, payload, end, rest);
            fs.Found(parse, size, begin) && fs.Data() == payload + rest.Data() && fs.Stop() == rest.Stop()
  {
  }

  lemma NextFragment(z: Checksum, file: Bytes, parse: Parser, pos: nat, data: Bytes, ptr: nat, begin: bool)
      returns (k: nat, end: nat)
    requires Sound(z) && Parses(z, file, parse) && ptr <= |data|
    requires Agrees(file, pos, Emit(z, pos, data, ptr, begin))
    ensures ptr + k <= |data| && pos < end
    ensures pos <= |file| ==>
              if end <= |file| then parse(pos) == Parsed(Record(TypeOf(begin, ptr + k == |data|), data[ptr..ptr + k]), end, 0)
              else parse(pos).event == Eof && parse(pos).reports == 0
    ensures pos + |Emit(z, pos, data, ptr, begin)|
            == if ptr + k == |data| then end else end + |Emit(z, end, data, ptr + k, false)|
    ensures ptr + k < |data| ==>
              && Agrees(file, end, Emit(z, end, data, ptr + k, false)) && end % BLOCK == 0
              && Work(end, |data| - (ptr + k)) < Work(pos, |data| - ptr)
  {
    k, end := EmitAt(z, file, pos, data, ptr, begin);
    if pos <= |file| {
      assert Look(pos);
      FragmentRead(z, file, pos, TypeOf(begin, ptr + k == |data|), data[ptr..ptr + k]);
    }
  }

  /** A record is gathered from its fragments, and is returned if it lies wholly before the cut. */
  lemma {:induction false} FragmentsRead(parse: Parser, size: nat, fs: Fragments, begin: bool, scratch: Bytes,
                                         seen: Output)
    requires Advances(parse, size) && fs.Found(parse, size, begin) && fs.pos <= size && (begin ==> scratch == [])
    ensures ReadFrom(parse, size, fs.pos, !begin, scratch, seen)
            == if fs.Stop() <= size
               then ReadFrom(parse, size, fs.Stop(), false, [], More(seen, [scratch + fs.Data()], 0))
               else More(seen, [], 0)
  {
    assert More(seen, [], 0) == seen;
    assert begin ==> scratch + fs.payload == fs.payload;
    if fs.Cons? {
      fs.rest.StopBeyond(parse, size, false);
      assert (scratch + fs.payload) + fs.rest.Data() == scratch + fs.Data();
      if fs.end <= size {
        FragmentsRead(parse, size, fs.rest, false, scratch + fs.payload, seen);
      }
    }
  }

  /** The records of the first n extents. */
  function Records(extents: seq<Extent>, n: nat): seq<Bytes>
    requires n <= |extents|
  {
    seq(n, i requires 0 <= i < n => extents[i].data)
  }

  /** No record but the last fills its last block exactly: nothing lies between the extents. */
  ghost predicate Dense(extents: seq<Extent>) {
    forall i :: 0 <= i < |extents| - 1 ==> !ExactSpill(extents[i].start, |extents[i].data|)
  }

  /** The extent's record is found again. */
  ghost predicate Readable(parse: Parser, size: nat, e: Extent) {
    exists fs: Fragments :: fs.pos == e.start && fs.Data() == e.data && fs.Stop() == Stop(e) && fs.Found(parse, size, true)
  }

  lemma ExtentReadable(z: Checksum, file: Bytes, parse: Parser, extents: seq<Extent>, offset: nat, j: nat)
    requires Sound(z) && Laid(z, extents, offset) && j < |extents| && Agrees(file, extents[j].start, extents[j].image)
    requires Parses(z, file, parse)
    ensures Readable(parse, |file|, extents[j])
  {
    LaidImage(z, extents, offset, j);
    var fs := FragmentsFound(z, file, parse, extents[j].start, extents[j].data, 0, true);
    assert extents[j].data[0..] == extents[j].data;
  }

  lemma ReadableRead(parse: Parser, size: nat, e: Extent, seen: Output)
    requires Advances(parse, size) && Readable(parse, size, e) && e.start <= size
    ensures ReadFrom(parse, size, e.start, false, [], seen)
            == if Stop(e) <= size then ReadFrom(parse, size, Stop(e), false, [], More(seen, [e.data], 0))
               else More(seen, [], 0)
  {
    var fs: Fragments :| fs.pos == e.start && fs.Data() == e.data && fs.Stop() == Stop(e) && fs.Found(parse, size, true);
    FragmentsRead(parse, size, fs, true, [], seen);
    assert [] + fs.Data() == fs.Data();
  }

  /** The extents are read one by one, each starting where the one before it stopped. */
  lemma {:induction false} ChainRead(parse: Parser, size: nat, extents: seq<Extent>, i: nat) returns (k: nat)
    requires Advances(parse, size) && (forall p: nat :: p >= size ==> parse(p).event == Eof && parse(p).reports == 0)
    requires i < |extents| && extents[i].start <= size <= Stop(extents[|extents| - 1])
    requires forall j :: 0 <= j < |extents| ==> Readable(parse, size, extents[j])
    requires forall j :: 0 <= j < |extents| - 1 ==> Stop(extents[j]) == extents[j + 1].start
    ensures i <= k <= |extents|
    ensures forall j :: i <= j < k ==> Stop(extents[j]) <= size
    ensures k < |extents| ==> Stop(extents[k]) > size
    ensures ReadFrom(parse, size, extents[i].start, false, [], Output(Records(extents, i), 0))
            == Output(Records(extents, k), 0)
    decreases |extents| - i
  {
    var seen, seen' := Output(Records(extents, i), 0), Output(Records(extents, i + 1), 0);
    ReadableRead(parse, size, extents[i], seen);
    assert More(seen, [], 0) == seen;
    assert More(seen, [extents[i].data], 0) == seen';
    if Stop(extents[i]) > size {
      k := i;
    } else if i == |extents| - 1 {
      k := i + 1;
      assert More(seen', [], 0) == seen';
    } else {
      k := ChainRead(parse, size, extents, i + 1);
    }
  }

  lemma ExtentsMeet(z: Checksum, extents: seq<Extent>, offset: nat, j: nat)
    requires Laid(z, extents, offset) && Small(extents) && Dense(extents) && j < |extents| - 1
    ensures Stop(extents[j]) == extents[j + 1].start
  {
    ExtentExact(z, extents, offset, j);
  }

  lemma AgreesWhenCut(file: Bytes, cut: nat, offset: nat, part: Bytes)
    requires At(file, offset, part) && cut <= |file|
    ensures Agrees(file[..cut], offset, part)
  {
  }

  lemma EndsAtSize(z: Checksum, file: Bytes, p: nat)
    requires p >= |file|
    ensures ParserOf(z, file)(p).event == Eof && ParserOf(z, file)(p).reports == 0
  {
  }

  lemma LogReadBack(z: Checksum, file: Bytes, cut: nat, parse: Parser, extents: seq<Extent>, offset: nat)
      returns (k: nat)
    requires Sound(z) && Laid(z, extents, offset) && Small(extents) && Dense(extents) && IsLog(file, extents)
    requires |extents| > 0 && cut <= |file| && Parses(z, file[..cut], parse)
    requires forall p: nat :: p >= cut ==> parse(p).event == Eof && parse(p).reports == 0
    ensures k <= |extents| && forall j :: 0 <= j < |extents| ==> (Stop(extents[j]) <= cut <==> j < k)
    ensures ReadFrom(parse, cut, 0, false, [], Output([], 0)) == Output(Records(extents, k), 0)
  {
    var short := file[..cut];
    LaidApart(z, extents, offset);
    forall j | 0 <= j < |extents| ensures Readable(parse, cut, extents[j]) {
      AgreesWhenCut(file, cut, extents[j].start, extents[j].image);
      ExtentReadable(z, short, parse, extents, offset, j);
    }
    forall j | 0 <= j < |extents| - 1 ensures Stop(extents[j]) == extents[j + 1].start {
      ExtentsMeet(z, extents, offset, j);
    }
    k := ChainRead(parse, cut, extents, 0);
    assert Records(extents, 0) == [];
  }

  /** A log cut at any byte: exactly the records that lie wholly before the cut are read back, in order, and
      nothing is reported. */
  lemma CutLogReadBack(z: Checksum, file: Bytes, extents: seq<Extent>, offset: nat, cut: nat) returns (k: nat)
    requires Sound(z) && Laid(z, extents, offset) && Small(extents) && Dense(extents) && IsLog(file, extents)
    requires cut <= |file|
    ensures k <= |extents| && forall j :: 0 <= j < |extents| ==> (Stop(extents[j]) <= cut <==> j < k)
    ensures ReadWhole(z, file[..cut]) == Output(Records(extents, k), 0)
  {
    var short := file[..cut];
    var parse := ParserOf(z, short);
    forall p: nat | p >= cut ensures parse(p).event == Eof && parse(p).reports == 0 {
      EndsAtSize(z, short, p);
    }
    if |extents| == 0 {
      k := 0;
      assert Records(extents, 0) == [] && More(Output([], 0), [], 0) == Output([], 0);
    } else {
      k := LogReadBack(z, file, cut, parse, extents, offset);
    }
  }
}
