/** What a log reader returns from any file, damaged or not: only records whose fragments are in the file intact. */
module LogSound {
  import opened Keys
  import opened Log
  import opened LogReader
  import Crc

  /** A fragment found: where the reader was, its part of a record, and the place behind it. */
  datatype Link = Link(pos: nat, payload: Bytes, end: nat)

  function Gathered(gs: seq<Link>, n: nat): Bytes
    requires n <= |gs|
  {
    if n == 0 then [] else Gathered(gs, n - 1) + gs[n - 1].payload
  }

  /** The fragment, byte for byte: its length and type, a checksum that passes, and its payload, within one block. */
  ghost predicate Intact(z: Checksum, file: Bytes, p: nat, t: Byte, payload: Bytes, end: nat) {
    && end == p + 7 + |payload| <= |file| && p / 32768 == (end - 1) / 32768
    && (file[p + 4] as int) + 256 * (file[p + 5] as int) == |payload| && file[p + 6] == t && file[p + 7..end] == payload
    && z.test(Crc.Load(file[p], file[p + 1], file[p + 2], file[p + 3]), t, payload)
  }

  /** The fragments of a record follow one another: one of type 1, or one of type 2, any number of type 3, and one of
      type 4. */
  ghost predicate Makes(z: Checksum, file: Bytes, from: nat, gs: seq<Link>, record: Bytes) {
    && |gs| > 0 && from <= gs[0].pos && record == Gathered(gs, |gs|)
    && (forall i :: 0 < i < |gs| ==> gs[i].pos == gs[i - 1].end)
    && forall i :: 0 <= i < |gs| ==> InPlace(z, file, gs[i], KindAt(i, |gs|))
  }

  function KindAt(i: nat, n: nat): Byte {
    if n == 1 then 1 else if i == 0 then 2 else if i + 1 < n then 3 else 4
  }

  ghost predicate InPlace(z: Checksum, file: Bytes, g: Link, t: Byte) {
    Intact(z, file, Place(g.pos), t, g.payload, g.end)
  }

  /** The records are made one after another from fragments of the file. */
  ghost predicate Told(z: Checksum, file: Bytes, from: nat, records: seq<Bytes>)
    decreases |records|
  {
    |records| == 0
    || exists gs: seq<Link> :: Makes(z, file, from, gs, records[0]) && Told(z, file, gs[|gs| - 1].end, records[1..])
  }

  // ---------- One fragment ----------

  lemma InOneBlock(p: nat, end: nat)
    requires p < end <= p - p % BLOCK + BLOCK
    ensures p / 32768 == (end - 1) / 32768
  {
    assert (p - p % BLOCK) % 32768 == 0;
  }

  /** A record that the reader finds is intact in the file. */
  lemma FoundIsIntact(z: Checksum, file: Bytes, pos: nat)
    requires pos <= |file| && Parse(z, file, pos).event.Record?
    ensures var r := Parse(z, file, pos);
            Intact(z, file, Place(pos), r.event.t, r.event.payload, r.pos) && pos < r.pos && r.reports == 0
  {
    PlaceFits(pos);
    var p := Place(pos);
    HeaderFits(p, |file|);
    var end := BlockEnd(p, |file|);
    HeadIsIntact(z, file, p, end);
    InOneBlock(p, Parse(z, file, pos).pos);
  }

  lemma HeadIsIntact(z: Checksum, file: Bytes, p: nat, end: nat)
    requires p + HEADER <= end <= |file| && ParseAt(z, file, p, end).event.Record?
    ensures var r := ParseAt(z, file, p, end);
            && r.pos == p + 7 + |r.event.payload| <= end && r.reports == 0
            && (file[p + 4] as int) + 256 * (file[p + 5] as int) == |r.event.payload|
            && file[p + 6] == r.event.t && file[p + 7..r.pos] == r.event.payload
            && z.test(Crc.Load(file[p], file[p + 1], file[p + 2], file[p + 3]), r.event.t, r.event.payload)
  {
    var buffer := file[p..end];
    var length := Length(buffer[4], buffer[5]);
    SliceOf(file, p, end, 7, 7 + length);
  }

  // ---------- The whole file ----------

  /** The first fragments of a record, gathered so far. */
  ghost predicate Partial(z: Checksum, file: Bytes, gs: seq<Link>, pos: nat, scratch: Bytes) {
    && |gs| > 0 && gs[|gs| - 1].end == pos && scratch == Gathered(gs, |gs|)
    && (forall i :: 0 < i < |gs| ==> gs[i].pos == gs[i - 1].end)
    && forall i :: 0 <= i < |gs| ==> InPlace(z, file, gs[i], if i == 0 then 2 else 3)
  }

  lemma {:induction false} GatheredPrefix(gs: seq<Link>, g: Link, n: nat)
    requires n <= |gs|
    ensures Gathered(gs + [g], n) == Gathered(gs, n)
  {
    if n > 0 {
      GatheredPrefix(gs, g, n - 1);
    }
  }

  lemma PartialStarts(z: Checksum, file: Bytes, g: Link)
    requires InPlace(z, file, g, 2)
    ensures Partial(z, file, [g], g.end, g.payload)
  {
    assert Gathered([g], 0) == [];
  }

  lemma PartialGrows(z: Checksum, file: Bytes, gs: seq<Link>, scratch: Bytes, g: Link)
    requires Partial(z, file, gs, g.pos, scratch) && InPlace(z, file, g, 3)
    ensures Partial(z, file, gs + [g], g.end, scratch + g.payload)
  {
    GatheredPrefix(gs, g, |gs|);
    var all := gs + [g];
    forall i | 0 <= i < |all| ensures InPlace(z, file, all[i], if i == 0 then 2 else 3) {
      assert i < |gs| ==> all[i] == gs[i];
    }
  }

  lemma PartialEnds(z: Checksum, file: Bytes, gs: seq<Link>, scratch: Bytes, g: Link, from: nat)
    requires Partial(z, file, gs, g.pos, scratch) && InPlace(z, file, g, 4) && from <= gs[0].pos
    ensures Makes(z, file, from, gs + [g], scratch + g.payload)
  {
    GatheredPrefix(gs, g, |gs|);
  }

  lemma MadeOfOne(z: Checksum, file: Bytes, g: Link, from: nat)
    requires InPlace(z, file, g, 1) && from <= g.pos
    ensures Makes(z, file, from, [g], g.payload)
  {
    assert Gathered([g], 0) == [];
  }

  lemma TellOne(z: Checksum, file: Bytes, from: nat, gs: seq<Link>, record: Bytes, rest: seq<Bytes>)
    requires Makes(z, file, from, gs, record) && Told(z, file, gs[|gs| - 1].end, rest)
    ensures Told(z, file, from, [record] + rest)
  {
    var records := [record] + rest;
    assert records[0] == record && records[1..] == rest;
    assert Makes(z, file, from, gs, records[0]);
  }

  /** One turn of ReadRecord: fragments gathered so far are intact, and so is a record returned. */
  lemma TurnKeeps(z: Checksum, file: Bytes, pos: nat, p: Parsed, fragmented: bool, scratch: Bytes, gs: seq<Link>,
                  from: nat) returns (gs': seq<Link>)
    requires p.event != Eof && from <= pos
    requires p.event.Record? ==> InPlace(z, file, Link(pos, p.event.payload, p.pos), p.event.t)
    requires fragmented ==> Partial(z, file, gs, pos, scratch) && from <= gs[0].pos
    ensures var t := Absorb(p.event, fragmented, scratch);
            if t.record == [] then t.fragmented ==> Partial(z, file, gs', p.pos, t.scratch) && from <= gs'[0].pos
            else !t.fragmented && |t.record| == 1 && Makes(z, file, from, gs', t.record[0]) && gs'[|gs'| - 1].end == p.pos
  {
    gs' := gs;
    if p.event.Record? {
      var g := Link(pos, p.event.payload, p.pos);
      if p.event.t == FULL {
        gs' := [g];
        MadeOfOne(z, file, g, from);
      } else if p.event.t == FIRST {
        gs' := [g];
        PartialStarts(z, file, g);
      } else if fragmented && p.event.t == MIDDLE {
        gs' := gs + [g];
        PartialGrows(z, file, gs, scratch, g);
      } else if fragmented && p.event.t == LAST {
        gs' := gs + [g];
        PartialEnds(z, file, gs, scratch, g, from);
      }
    }
  }

  lemma FoundBy(z: Checksum, file: Bytes, parse: Parser, pos: nat)
    requires Parses(z, file, parse) && pos <= |file|
    ensures var p := parse(pos);
            p.event.Record? ==> InPlace(z, file, Link(pos, p.event.payload, p.pos), p.event.t)
  {
    assert Look(pos);
    if parse(pos).event.Record? {
      FoundIsIntact(z, file, pos);
    }
  }

  /** The reader's state: the fragments behind what it has gathered, if it is inside a record. */
  ghost predicate Holds(z: Checksum, file: Bytes, pos: nat, fragmented: bool, scratch: Bytes, gs: seq<Link>, from: nat) {
    from <= pos && (fragmented ==> Partial(z, file, gs, pos, scratch) && from <= gs[0].pos)
  }

  lemma TurnTells(z: Checksum, file: Bytes, parse: Parser, pos: nat, fragmented: bool, scratch: Bytes, gs: seq<Link>,
                  from: nat) returns (gs': seq<Link>, from': nat)
    requires Parses(z, file, parse) && pos <= |file| && parse(pos).event != Eof
    requires Holds(z, file, pos, fragmented, scratch, gs, from)
    ensures var t := Absorb(parse(pos).event, fragmented, scratch);
            && Holds(z, file, parse(pos).pos, t.fragmented, t.scratch, gs', from')
            && forall rest :: Told(z, file, from', rest) ==> Told(z, file, from, t.record + rest)
  {
    var p := parse(pos);
    FoundBy(z, file, parse, pos);
    var t := Absorb(p.event, fragmented, scratch);
    gs' := TurnKeeps(z, file, pos, p, fragmented, scratch, gs, from);
    from' := if t.record == [] then from else p.pos;
    forall rest | Told(z, file, from', rest) ensures Told(z, file, from, t.record + rest) {
      if t.record == [] {
        assert t.record + rest == rest;
      } else {
        TellOne(z, file, from, gs', t.record[0], rest);
        assert t.record == [t.record[0]];
      }
    }
  }

  /** The records still to come, without the reports. */
  ghost function Coming(parse: Parser, size: nat, pos: nat, fragmented: bool, scratch: Bytes): seq<Bytes>
    requires Advances(parse, size) && pos <= size
    decreases size - pos
  {
    var p := parse(pos);
    if p.event == Eof then []
    else
      var t := Absorb(p.event, fragmented, scratch);
      t.record + Coming(parse, size, p.pos, t.fragmented, t.scratch)
  }

  lemma {:induction false} ReadsComing(parse: Parser, size: nat, pos: nat, fragmented: bool, scratch: Bytes,
                                       seen: Output)
    requires Advances(parse, size) && pos <= size
    ensures ReadFrom(parse, size, pos, fragmented, scratch, seen).records
            == seen.records + Coming(parse, size, pos, fragmented, scratch)
    decreases size - pos
  {
    var p := parse(pos);
    if p.event != Eof {
      var t := Absorb(p.event, fragmented, scratch);
      ReadsComing(parse, size, p.pos, t.fragmented, t.scratch, More(seen, t.record, p.reports + t.reports));
    }
  }

  lemma {:induction false} ComingIsTold(z: Checksum, file: Bytes, parse: Parser, pos: nat, fragmented: bool,
                                        scratch: Bytes, gs: seq<Link>, from: nat)
    requires Parses(z, file, parse) && pos <= |file| && Holds(z, file, pos, fragmented, scratch, gs, from)
    ensures Told(z, file, from, Coming(parse, |file|, pos, fragmented, scratch))
    decreases |file| - pos
  {
    var p := parse(pos);
    if p.event != Eof {
      var t := Absorb(p.event, fragmented, scratch);
      var gs', from' := TurnTells(z, file, parse, pos, fragmented, scratch, gs, from);
      ComingIsTold(z, file, parse, p.pos, t.fragmented, t.scratch, gs', from');
    }
  }

  /** Whatever a file holds, a reader returns only records that lie in it intact, in the order they lie there. */
  lemma NoneMadeUp(z: Checksum, file: Bytes)
    ensures Told(z, file, 0, ReadWhole(z, file).records)
  {
    var parse := ParserOf(z, file);
    ComingIsTold(z, file, parse, 0, false, [], [], 0);
    ReadsComing(parse, |file|, 0, false, [], Output([], 0));
    var rest := Coming(parse, |file|, 0, false, []);
    assert [] + rest == rest;
  }
}
