/** Prefix-compressed blocks: what BlockBuilder writes, and Block::Iter as a cursor over it. */
module Blocks {
  import opened Coding
  import opened Keys
  import Crc

  datatype Pair = Pair(key: Bytes, value: Bytes)

  // ---------- Entries ----------

  /** An entry: how much of the key before it it shares, the rest of the key, and the value. */
  function EntryBytes(shared: nat, delta: Bytes, value: Bytes): (r: Bytes)
    ensures |r| >= 3
  {
    Varint(shared) + (Varint(|delta|) + (Varint(|value|) + (delta + value)))
  }

  datatype Decoded = Decoded(shared: nat, delta: Bytes, value: Bytes, next: nat)

  /** A 32-bit varint: the number kept to 32 bits, and the place behind it. */
  function Read32(data: Bytes, p: nat): Option<(nat, nat)> {
    var r := Read(data, p, 5);
    if r.None? then None else Some((r.value.0 % 0x1_0000_0000, r.value.1))
  }

  function ReadThree(data: Bytes, p: nat): Option<(nat, nat, nat, nat)> {
    var a := Read32(data, p);
    if a.None? then None
    else
      var b := Read32(data, a.value.1);
      if b.None? then None
      else
        var c := Read32(data, b.value.1);
        if c.None? then None else Some((a.value.0, b.value.0, c.value.0, c.value.1))
  }

  /** The three numbers that begin an entry, and the place behind them: one byte each, or varints. */
  function Lengths(data: Bytes, p: nat): Option<(nat, nat, nat, nat)> {
    if p + 3 > |data| then None
    else if data[p] < 128 && data[p + 1] < 128 && data[p + 2] < 128
    then Some((data[p], data[p + 1], data[p + 2], p + 3))
    else ReadThree(data, p)
  }

  function DecodeEntry(data: Bytes, p: nat): Option<Decoded> {
    var lengths := Lengths(data, p);
    if lengths.None? then None
    else
      var (shared, rest, size, q) := lengths.value;
      if q + rest + size > |data| then None
      else Some(Decoded(shared, data[q..q + rest], data[q + rest..q + rest + size], q + rest + size))
  }

  lemma OneByte(v: nat)
    ensures Varint(v)[0] < 128 <==> v < 128
    ensures v < 128 ==> Varint(v) == [v]
  {
  }

  lemma VarintAt(data: Bytes, p: nat, v: nat)
    requires Has(data, p, Varint(v)) && v < Crc.WORD
    ensures Read32(data, p) == Some((v, p + |Varint(v)|)) && p < |data|
    ensures data[p] < 128 ==> |Varint(v)| == 1 && data[p] == v
  {
    FiveGroups(v);
    VarintRead(data, p, v, 5);
    HasByte(data, p, Varint(v), 0);
    OneByte(v);
  }

  /** Wherever these bytes are found, they are read as this number. */
  ghost predicate Codes(part: Bytes, v: nat) {
    && |part| > 0
    && forall data: Bytes, p: nat {:trigger Has(data, p, part)} :: Has(data, p, part) ==>
         Read32(data, p) == Some((v, p + |part|)) && (data[p] < 128 ==> |part| == 1 && data[p] == v)
  }

  lemma VarintCodes(v: nat)
    requires v < Crc.WORD
    ensures Codes(Varint(v), v)
  {
    forall data: Bytes, p: nat | Has(data, p, Varint(v))
      ensures Read32(data, p) == Some((v, p + |Varint(v)|)) && (data[p] < 128 ==> |Varint(v)| == 1 && data[p] == v)
    {
      VarintAt(data, p, v);
    }
  }

  lemma LengthsRead(data: Bytes, p: nat, va: Bytes, vb: Bytes, vc: Bytes, a: nat, b: nat, c: nat)
    requires Has(data, p, va) && Has(data, p + |va|, vb) && Has(data, p + |va| + |vb|, vc)
    requires Codes(va, a) && Codes(vb, b) && Codes(vc, c)
    ensures Lengths(data, p) == Some((a, b, c, p + |va| + |vb| + |vc|))
  {
    var q, r, s := p + |va|, p + |va| + |vb|, p + |va| + |vb| + |vc|;
    ThreeRead(data, p, q, r, s, a, b, c);
    LengthsFrom(data, p, q, r, s, a, b, c);
  }

  lemma ThreeRead(data: Bytes, p: nat, q: nat, r: nat, s: nat, a: nat, b: nat, c: nat)
    requires Read32(data, p) == Some((a, q)) && Read32(data, q) == Some((b, r)) && Read32(data, r) == Some((c, s))
    ensures ReadThree(data, p) == Some((a, b, c, s))
  {
  }

  lemma LengthsFrom(data: Bytes, p: nat, q: nat, r: nat, s: nat, a: nat, b: nat, c: nat)
    requires p < q < r < s <= |data|
    requires ReadThree(data, p) == Some((a, b, c, s))
    requires data[p] < 128 ==> q == p + 1 && data[p] == a
    requires data[q] < 128 ==> r == q + 1 && data[q] == b
    requires data[r] < 128 ==> s == r + 1 && data[r] == c
    ensures Lengths(data, p) == Some((a, b, c, s))
  {
  }

  lemma EntryRead(data: Bytes, p: nat, shared: nat, delta: Bytes, value: Bytes)
    requires Has(data, p, EntryBytes(shared, delta, value))
    requires shared < Crc.WORD && |delta| < Crc.WORD && |value| < Crc.WORD
    ensures DecodeEntry(data, p) == Some(Decoded(shared, delta, value, p + |EntryBytes(shared, delta, value)|))
  {
    VarintCodes(shared);
    VarintCodes(|delta|);
    VarintCodes(|value|);
    PartsRead(data, p, Varint(shared), Varint(|delta|), Varint(|value|), shared, delta, value);
  }

  lemma PartsRead(data: Bytes, p: nat, va: Bytes, vb: Bytes, vc: Bytes, shared: nat, delta: Bytes, value: Bytes)
    requires Has(data, p, va + (vb + (vc + (delta + value))))
    requires Codes(va, shared) && Codes(vb, |delta|) && Codes(vc, |value|)
    ensures DecodeEntry(data, p)
            == Some(Decoded(shared, delta, value, p + |va| + |vb| + |vc| + |delta| + |value|))
  {
    HasFive(data, p, va, vb, vc, delta, value);
    LengthsRead(data, p, va, vb, vc, shared, |delta|, |value|);
    EntryFrom(data, p, p + |va| + |vb| + |vc|, shared, delta, value);
  }

  lemma EntryFrom(data: Bytes, p: nat, q: nat, shared: nat, delta: Bytes, value: Bytes)
    requires Lengths(data, p) == Some((shared, |delta|, |value|, q))
    requires Has(data, q, delta) && Has(data, q + |delta|, value)
    ensures DecodeEntry(data, p) == Some(Decoded(shared, delta, value, q + |delta| + |value|))
  {
  }

  // ---------- The layout of a block ----------

  /** Where the entries start, how much of the key before each shares, and which entries are restart points. */
  datatype Layout = Layout(offs: seq<nat>, shared: seq<nat>, heads: seq<nat>)

  function KeyBefore(es: seq<Pair>, i: nat): Bytes
    requires i <= |es|
  {
    if i == 0 then [] else es[i - 1].key
  }

  ghost predicate Shaped(es: seq<Pair>, lay: Layout, size: nat) {
    && |lay.offs| == |es| + 1 && |lay.shared| == |es|
    && lay.offs[0] == 0 && lay.offs[|es|] == size
    && |lay.heads| > 0 && lay.heads[0] == 0
    && (forall k :: 0 < k < |lay.heads| ==> lay.heads[k] < |es|)
    && (forall j, k :: 0 <= j < k < |lay.heads| ==> lay.heads[j] < lay.heads[k])
  }

  /** Entry i is written at its place, with the bytes it shares with the key before it left out. */
  ghost predicate EntryAt(data: Bytes, es: seq<Pair>, lay: Layout, i: nat)
    requires i < |es| && |lay.offs| == |es| + 1 && |lay.shared| == |es|
  {
    var key, n := es[i].key, lay.shared[i];
    && n <= |key| && n <= |KeyBefore(es, i)| && KeyBefore(es, i)[..n] == key[..n]
    && Has(data, lay.offs[i], EntryBytes(n, key[n..], es[i].value))
    && lay.offs[i + 1] == lay.offs[i] + |EntryBytes(n, key[n..], es[i].value)|
  }

  ghost predicate Laid(data: Bytes, es: seq<Pair>, lay: Layout) {
    && Shaped(es, lay, |data|)
    && (forall i :: 0 <= i < |es| ==> EntryAt(data, es, lay, i))
    && (forall k :: 0 <= k < |lay.heads| && lay.heads[k] < |es| ==> lay.shared[lay.heads[k]] == 0)
  }

  /** The builder's fields agree with the entries added. */
  ghost predicate Consistent(buffer: Bytes, restarts: seq<nat>, lastKey: Bytes, es: seq<Pair>, lay: Layout) {
    Laid(buffer, es, lay) && lastKey == KeyBefore(es, |es|) && RestartsAt(restarts, lay.heads, lay.offs)
  }

  /** The keys share n bytes and no more. */
  predicate Longest(last: Bytes, key: Bytes, n: nat) {
    && n <= |last| && n <= |key| && last[..n] == key[..n]
    && (n < |last| && n < |key| ==> last[n] != key[n])
  }

  /** Every so many entries there is a restart point; all other entries share as much as they can. */
  ghost predicate Compressed(es: seq<Pair>, lay: Layout, interval: nat, counter: nat) {
    && |lay.heads| > 0 && |lay.shared| == |es| && |es| == lay.heads[|lay.heads| - 1] + counter
    && (forall k :: 0 < k < |lay.heads| ==> lay.heads[k] == lay.heads[k - 1] + interval)
    && (forall i :: 0 <= i < |es| ==> SharedAt(es, lay, i))
  }

  ghost predicate SharedAt(es: seq<Pair>, lay: Layout, i: nat)
    requires i < |es| == |lay.shared|
  {
    i in lay.heads || Longest(KeyBefore(es, i), es[i].key, lay.shared[i])
  }

  lemma SharedStays(es: seq<Pair>, lay: Layout, e: Pair, lay': Layout, i: nat)
    requires i < |es| == |lay.shared| && SharedAt(es, lay, i)
    requires |lay'.shared| == |es| + 1 && lay'.shared[i] == lay.shared[i] && lay.heads <= lay'.heads
    ensures SharedAt(es + [e], lay', i)
  {
    if i in lay.heads {
      var k :| 0 <= k < |lay.heads| && lay.heads[k] == i;
      assert lay'.heads[k] == i;
    } else {
      assert KeyBefore(es + [e], i) == KeyBefore(es, i);
    }
  }

  lemma StaysCompressed(es: seq<Pair>, lay: Layout, interval: nat, counter: nat, e: Pair, size: nat, shared: nat,
                        restart: bool)
    requires Compressed(es, lay, interval, counter)
    requires if restart then counter == interval else Longest(KeyBefore(es, |es|), e.key, shared)
    ensures Compressed(es + [e], Grown(lay, |es|, size, shared, restart), interval, if restart then 1 else counter + 1)
  {
    var lay' := Grown(lay, |es|, size, shared, restart);
    forall i | 0 <= i < |es| + 1 ensures SharedAt(es + [e], lay', i) {
      if i < |es| {
        SharedStays(es, lay, e, lay', i);
      } else if restart {
        assert lay'.heads[|lay.heads|] == i;
      } else {
        assert KeyBefore(es + [e], i) == KeyBefore(es, |es|);
      }
    }
  }

  class BlockBuilder {
    const interval: nat
    var buffer: Bytes
    var restarts: seq<nat>
    var counter: nat
    var lastKey: Bytes
    ghost var es: seq<Pair>
    ghost var lay: Layout

    ghost predicate Valid()
      reads this
    {
      && 1 <= interval && counter <= interval && counter <= |es|
      && Consistent(buffer, restarts, lastKey, es, lay)
    }

    ghost predicate Spaced()
      reads this
    {
      Compressed(es, lay, interval, counter)
    }

    constructor (interval: nat)
      requires 1 <= interval
      ensures Valid() && Spaced() && es == [] && this.interval == interval
    {
      this.interval := interval;
      buffer, restarts, counter, lastKey := [], [0], 0, [];
      es, lay := [], Layout([0], [], [0]);
    }

    /** How many bytes the new key shares with the last one. */
    method Shared(key: Bytes) returns (shared: nat)
      ensures Longest(lastKey, key, shared)
    {
      shared := 0;
      while shared < |lastKey| && shared < |key| && lastKey[shared] == key[shared]
        invariant shared <= |key| && shared <= |lastKey| && lastKey[..shared] == key[..shared]
      {
        shared := shared + 1;
      }
    }

    method Add(key: Bytes, value: Bytes)
      requires Valid()
      modifies this
      ensures Valid() && es == old(es) + [Pair(key, value)]
      ensures old(Spaced()) ==> Spaced()
    {
      ghost var shared, restart, size;
      shared, restart, size := Append(key, value);
      if old(Spaced()) {
        StaysCompressed(old(es), old(lay), interval, old(counter), Pair(key, value), size, shared, restart);
      }
    }

    method Append(key: Bytes, value: Bytes) returns (ghost shared: nat, ghost restart: bool, ghost size: nat)
      requires Valid()
      modifies this
      ensures Valid() && es == old(es) + [Pair(key, value)]
      ensures lay == Grown(old(lay), |old(es)|, size, shared, restart)
      ensures if restart then old(counter) == interval && counter == 1
              else counter == old(counter) + 1 && Longest(KeyBefore(old(es), |old(es)|), key, shared)
    {
      var n;
      n, restart := Settle(key);
      shared := n;
      size := Write(key, value, n, restart);
    }

    /** How much of the key is left out: what it shares with the last one, or nothing at a new restart point. */
    method Settle(key: Bytes) returns (shared: nat, ghost restart: bool)
      requires Valid()
      modifies this`restarts, this`counter
      ensures restart <==> old(counter) == interval
      ensures if restart then shared == 0 && |es| > 0 && counter == 0 else Longest(lastKey, key, shared)
      ensures !restart ==> counter == old(counter)
      ensures shared <= |key| && shared <= |lastKey| && lastKey[..shared] == key[..shared]
      ensures RestartsAt(restarts, if restart then lay.heads + [|es|] else lay.heads, lay.offs)
    {
      shared, restart := 0, counter >= interval;
      if counter < interval {
        shared := Shared(key);
      } else {
        restarts := restarts + [|buffer|];
        counter := 0;
      }
    }

    method Finish() returns (data: Bytes)
      requires Valid() && Fits(buffer, restarts)
      ensures data == Contents(buffer, restarts)
    {
      data := buffer;
      for i := 0 to |restarts|
        invariant data == buffer + RestartBytes(restarts, i)
      {
        data := data + Fixed32(restarts[i]);
      }
      data := data + Fixed32(|restarts|);
    }

    /** The part of Add after the sharing is settled. */
    method Write(key: Bytes, value: Bytes, shared: nat, ghost restart: bool) returns (ghost size: nat)
      requires Laid(buffer, es, lay) && lastKey == KeyBefore(es, |es|) && 1 <= interval
      requires counter < interval && counter <= |es|
      requires shared <= |key| && shared <= |lastKey| && lastKey[..shared] == key[..shared]
      requires restart ==> shared == 0 && |es| > 0
      requires RestartsAt(restarts, if restart then lay.heads + [|es|] else lay.heads, lay.offs)
      modifies this`buffer, this`es, this`lay, this`lastKey, this`counter
      ensures Valid() && es == old(es) + [Pair(key, value)] && counter == old(counter) + 1
      ensures lay == Grown(old(lay), |old(es)|, size, shared, restart)
    {
      ghost var e := Pair(key, value);
      var entry := EntryBytes(shared, key[shared..], value);
      size := |buffer| + |entry|;
      ghost var lay' := Grown(lay, |es|, size, shared, restart);
      StaysConsistent(buffer, restarts, lastKey, es, lay, e, shared, restart, entry);
      buffer := buffer + entry;
      es, lay := es + [e], lay';
      lastKey := lastKey[..shared] + key[shared..];
      counter := counter + 1;
    }
  }

  ghost function Grown(lay: Layout, n: nat, size: nat, shared: nat, restart: bool): Layout {
    Layout(lay.offs + [size], lay.shared + [shared], if restart then lay.heads + [n] else lay.heads)
  }

  lemma StaysConsistent(buffer: Bytes, restarts: seq<nat>, lastKey: Bytes, es: seq<Pair>, lay: Layout, e: Pair,
                        shared: nat, restart: bool, entry: Bytes)
    requires Laid(buffer, es, lay) && lastKey == KeyBefore(es, |es|)
    requires shared <= |e.key| && shared <= |lastKey| && lastKey[..shared] == e.key[..shared]
    requires entry == EntryBytes(shared, e.key[shared..], e.value)
    requires restart ==> shared == 0 && |es| > 0
    requires RestartsAt(restarts, if restart then lay.heads + [|es|] else lay.heads, lay.offs)
    ensures Consistent(buffer + entry, restarts, lastKey[..shared] + e.key[shared..], es + [e],
                       Grown(lay, |es|, |buffer| + |entry|, shared, restart))
  {
    var size := |buffer| + |entry|;
    LaidStays(buffer, es, lay, e, shared, restart, entry);
    RestartsStay(restarts, Grown(lay, |es|, size, shared, restart).heads, lay.offs, size);
    Rejoined(lastKey, e.key, shared);
    Consists(buffer + entry, restarts, lastKey[..shared] + e.key[shared..], es + [e],
             Grown(lay, |es|, size, shared, restart));
  }

  lemma LaidStays(buffer: Bytes, es: seq<Pair>, lay: Layout, e: Pair, shared: nat, restart: bool, entry: Bytes)
    requires Laid(buffer, es, lay) && shared <= |e.key| && shared <= |KeyBefore(es, |es|)|
    requires KeyBefore(es, |es|)[..shared] == e.key[..shared] && (restart ==> shared == 0 && |es| > 0)
    requires entry == EntryBytes(shared, e.key[shared..], e.value)
    ensures Laid(buffer + entry, es + [e], Grown(lay, |es|, |buffer| + |entry|, shared, restart))
  {
    Appended(buffer, es, lay, e, shared, Grown(lay, |es|, |buffer| + |entry|, shared, restart), restart);
  }

  lemma Consists(buffer: Bytes, restarts: seq<nat>, lastKey: Bytes, es: seq<Pair>, lay: Layout)
    requires Laid(buffer, es, lay) && |es| > 0 && lastKey == es[|es| - 1].key && RestartsAt(restarts, lay.heads, lay.offs)
    ensures Consistent(buffer, restarts, lastKey, es, lay)
  {
  }

  // ---------- The finished block ----------

  function RestartBytes(restarts: seq<nat>, n: nat): (r: Bytes)
    requires n <= |restarts| && forall k :: 0 <= k < |restarts| ==> restarts[k] < 0x1_0000_0000
    ensures |r| == 4 * n
  {
    if n == 0 then [] else RestartBytes(restarts, n - 1) + Fixed32(restarts[n - 1])
  }

  ghost predicate Fits(buffer: Bytes, restarts: seq<nat>) {
    && |buffer| < 0x1_0000_0000 && |restarts| < 0x1_0000_0000
    && forall k :: 0 <= k < |restarts| ==> restarts[k] < 0x1_0000_0000
  }

  /** The entries, the restart points, and how many restart points there are. */
  ghost function Contents(buffer: Bytes, restarts: seq<nat>): Bytes
    requires Fits(buffer, restarts)
  {
    buffer + RestartBytes(restarts, |restarts|) + Fixed32(|restarts|)
  }

  /** An entry and a block of one restart point, byte for byte. */
  lemma CheckBlock(entry: Bytes, block: Bytes)
    requires entry == [5, 2, 1, 97, 98, 120] && block == entry + [0, 0, 0, 0, 1, 0, 0, 0]
    ensures EntryBytes(5, [97, 98], [120]) == entry && Contents(entry, [0]) == block
  {
    assert RestartBytes([0], 0) == [];
    assert RestartBytes([0], 1) == [0, 0, 0, 0];
    assert Fixed32(1) == [1, 0, 0, 0];
  }

  /** Block::Block: where the restart array starts, and how many points it has; None for a bad block. */
  function Open(data: Bytes): Option<(nat, nat)> {
    if |data| < 4 then None
    else
      var num := DecodeFixed32(data, |data| - 4);
      if num > (|data| - 4) / 4 then None else Some((|data| - (1 + num) * 4, num))
  }

  function RestartPoint(data: Bytes, restarts: nat, index: nat): nat
    requires restarts + 4 * index + 4 <= |data|
  {
    DecodeFixed32(data, restarts + 4 * index)
  }

  lemma {:induction false} RestartAt(restarts: seq<nat>, n: nat, k: nat)
    requires forall k :: 0 <= k < |restarts| ==> restarts[k] < 0x1_0000_0000
    requires k < n <= |restarts|
    ensures Has(RestartBytes(restarts, n), 4 * k, Fixed32(restarts[k]))
  {
    if k == n - 1 {
      HasAtEnd(RestartBytes(restarts, n - 1), Fixed32(restarts[k]));
    } else {
      RestartAt(restarts, n - 1, k);
      HasExtended(RestartBytes(restarts, n - 1), 4 * k, Fixed32(restarts[k]), Fixed32(restarts[n - 1]));
    }
  }

  /** Opening a finished block finds its restart points again. */
  lemma OpensFinished(buffer: Bytes, restarts: seq<nat>)
    requires Fits(buffer, restarts)
    ensures var data := Contents(buffer, restarts);
            Open(data) == Some((|buffer|, |restarts|)) && data[..|buffer|] == buffer
            && |data| == |buffer| + 4 * |restarts| + 4
  {
    var points, count := RestartBytes(restarts, |restarts|), Fixed32(|restarts|);
    HasAtEnd(buffer + points, count);
    Fixed32Read(buffer + points + count, |buffer + points|, |restarts|);
  }

  lemma PointFound(buffer: Bytes, restarts: seq<nat>, k: nat)
    requires Fits(buffer, restarts) && k < |restarts|
    ensures |Contents(buffer, restarts)| == |buffer| + 4 * |restarts| + 4
    ensures RestartPoint(Contents(buffer, restarts), |buffer|, k) == restarts[k]
  {
    var points, count := RestartBytes(restarts, |restarts|), Fixed32(|restarts|);
    RestartAt(restarts, |restarts|, k);
    HasBehind(buffer, points, 4 * k, Fixed32(restarts[k]));
    HasExtended(buffer + points, |buffer| + 4 * k, Fixed32(restarts[k]), count);
    Fixed32Read(buffer + points + count, |buffer| + 4 * k, restarts[k]);
  }

  lemma Rejoined(last: Bytes, key: Bytes, shared: nat)
    requires shared <= |last| && shared <= |key| && last[..shared] == key[..shared]
    ensures last[..shared] + key[shared..] == key
  {
  }

  lemma RestartsStay(restarts: seq<nat>, heads: seq<nat>, offs: seq<nat>, next: nat)
    requires RestartsAt(restarts, heads, offs)
    ensures RestartsAt(restarts, heads, offs + [next])
  {
  }

  ghost predicate RestartsAt(restarts: seq<nat>, heads: seq<nat>, offs: seq<nat>) {
    && |restarts| == |heads|
    && forall k :: 0 <= k < |heads| ==> heads[k] < |offs| && restarts[k] == offs[heads[k]]
  }

  lemma Appended(data: Bytes, es: seq<Pair>, lay: Layout, e: Pair, shared: nat, lay': Layout, restart: bool)
    requires Laid(data, es, lay) && shared <= |e.key| && shared <= |KeyBefore(es, |es|)|
    requires KeyBefore(es, |es|)[..shared] == e.key[..shared] && (restart ==> shared == 0 && |es| > 0)
    requires lay' == Layout(lay.offs + [|data| + |EntryBytes(shared, e.key[shared..], e.value)|], lay.shared + [shared],
                            if restart then lay.heads + [|es|] else lay.heads)
    ensures Laid(data + EntryBytes(shared, e.key[shared..], e.value), es + [e], lay')
  {
    var entry := EntryBytes(shared, e.key[shared..], e.value);
    EntriesStay(data, es, lay, entry, e, lay');
    EntryAdded(data, es, lay, e, shared, lay');
    ShapeGrows(es, lay, e, shared, lay', restart, |data|, |entry|);
    LaidOut(data + entry, es + [e], lay', |es|);
  }

  lemma LaidOut(data: Bytes, es: seq<Pair>, lay: Layout, n: nat)
    requires |es| == n + 1 && Shaped(es, lay, |data|) && EntryAt(data, es, lay, n)
    requires forall i :: 0 <= i < n ==> EntryAt(data, es, lay, i)
    requires forall k :: 0 <= k < |lay.heads| && lay.heads[k] < |es| ==> lay.shared[lay.heads[k]] == 0
    ensures Laid(data, es, lay)
  {
  }

  lemma EntryAdded(data: Bytes, es: seq<Pair>, lay: Layout, e: Pair, shared: nat, lay': Layout)
    requires |lay.offs| == |es| + 1 && |lay.shared| == |es| && lay.offs[|es|] == |data|
    requires shared <= |e.key| && shared <= |KeyBefore(es, |es|)| && KeyBefore(es, |es|)[..shared] == e.key[..shared]
    requires lay'.offs == lay.offs + [|data| + |EntryBytes(shared, e.key[shared..], e.value)|]
    requires lay'.shared == lay.shared + [shared]
    ensures EntryAt(data + EntryBytes(shared, e.key[shared..], e.value), es + [e], lay', |es|)
  {
    HasAtEnd(data, EntryBytes(shared, e.key[shared..], e.value));
  }

  lemma EntriesStay(data: Bytes, es: seq<Pair>, lay: Layout, more: Bytes, e: Pair, lay': Layout)
    requires |lay.offs| == |es| + 1 && |lay.shared| == |es|
    requires forall i :: 0 <= i < |es| ==> EntryAt(data, es, lay, i)
    requires |lay'.offs| == |es| + 2 && |lay'.shared| == |es| + 1
    requires lay'.offs[..|es| + 1] == lay.offs && lay'.shared[..|es|] == lay.shared
    ensures forall i :: 0 <= i < |es| ==> EntryAt(data + more, es + [e], lay', i)
  {
    forall i | 0 <= i < |es| ensures EntryAt(data + more, es + [e], lay', i) {
      EntryStays(data, es, lay, i, more, e, lay');
    }
  }

  lemma EntryStays(data: Bytes, es: seq<Pair>, lay: Layout, i: nat, more: Bytes, e: Pair, lay': Layout)
    requires i < |es| && |lay.offs| == |es| + 1 && |lay.shared| == |es| && EntryAt(data, es, lay, i)
    requires |lay'.offs| == |es| + 2 && |lay'.shared| == |es| + 1
    requires lay'.offs[..|es| + 1] == lay.offs && lay'.shared[..|es|] == lay.shared
    ensures EntryAt(data + more, es + [e], lay', i)
  {
    var n := lay.shared[i];
    assert lay'.shared[..|es|][i] == n && lay'.offs[..|es| + 1][i] == lay.offs[i];
    assert lay'.offs[..|es| + 1][i + 1] == lay.offs[i + 1];
    HasExtended(data, lay.offs[i], EntryBytes(n, es[i].key[n..], es[i].value), more);
  }

  lemma ShapeGrows(es: seq<Pair>, lay: Layout, e: Pair, shared: nat, lay': Layout, restart: bool, size: nat, more: nat)
    requires Shaped(es, lay, size) && shared <= |KeyBefore(es, |es|)| && (restart ==> shared == 0 && |es| > 0)
    requires forall k :: 0 <= k < |lay.heads| && lay.heads[k] < |es| ==> lay.shared[lay.heads[k]] == 0
    requires lay' == Layout(lay.offs + [size + more], lay.shared + [shared],
                            if restart then lay.heads + [|es|] else lay.heads)
    ensures Shaped(es + [e], lay', size + more)
    ensures forall k :: 0 <= k < |lay'.heads| && lay'.heads[k] < |es| + 1 ==> lay'.shared[lay'.heads[k]] == 0
  {
  }
}
