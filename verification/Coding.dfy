/** Fixed-width and variable-width integers in byte strings. */
module Coding {
  import opened Keys
  import Crc

  /** The part is found at the offset. */
  ghost predicate Has(data: Bytes, offset: nat, part: Bytes) {
    offset + |part| <= |data| && data[offset..offset + |part|] == part
  }

  lemma HasParts(data: Bytes, offset: nat, a: Bytes, b: Bytes)
    requires Has(data, offset, a + b)
    ensures Has(data, offset, a) && Has(data, offset + |a|, b)
  {
    var whole := data[offset..offset + |a + b|];
    assert whole[..|a|] == a && whole[|a|..] == b;
    assert whole[..|a|] == data[offset..offset + |a|];
    assert whole[|a|..] == data[offset + |a|..offset + |a| + |b|];
  }

  lemma HasThree(data: Bytes, p: nat, a: Bytes, b: Bytes, c: Bytes, body: Bytes)
    requires Has(data, p, a + (b + (c + body)))
    ensures Has(data, p, a) && Has(data, p + |a|, b) && Has(data, p + |a| + |b|, c)
    ensures Has(data, p + |a| + |b| + |c|, body)
  {
    HasParts(data, p, a, b + (c + body));
    HasParts(data, p + |a|, b, c + body);
    HasParts(data, p + |a| + |b|, c, body);
  }

  lemma HasFive(data: Bytes, p: nat, a: Bytes, b: Bytes, c: Bytes, d: Bytes, e: Bytes)
    requires Has(data, p, a + (b + (c + (d + e))))
    ensures Has(data, p, a) && Has(data, p + |a|, b) && Has(data, p + |a| + |b|, c)
    ensures Has(data, p + |a| + |b| + |c|, d) && Has(data, p + |a| + |b| + |c| + |d|, e)
  {
    HasThree(data, p, a, b, c, d + e);
    HasParts(data, p + |a| + |b| + |c|, d, e);
  }

  lemma HasExtended(data: Bytes, offset: nat, part: Bytes, more: Bytes)
    requires Has(data, offset, part)
    ensures Has(data + more, offset, part)
  {
    assert (data + more)[offset..offset + |part|] == data[offset..offset + |part|];
  }

  lemma HasAtEnd(data: Bytes, part: Bytes)
    ensures Has(data + part, |data|, part)
  {
    assert (data + part)[|data|..|data| + |part|] == part;
  }

  lemma HasBehind(front: Bytes, data: Bytes, p: nat, part: Bytes)
    requires Has(data, p, part)
    ensures Has(front + data, |front| + p, part)
  {
    assert (front + data)[|front| + p..|front| + p + |part|] == data[p..p + |part|];
  }

  lemma HasByte(data: Bytes, offset: nat, part: Bytes, j: nat)
    requires Has(data, offset, part) && j < |part|
    ensures data[offset + j] == part[j]
  {
    assert data[offset..offset + |part|][j] == part[j];
  }

  // ---------- Fixed width ----------

  /** EncodeFixed32, little-endian. */
  function Fixed32(w: Crc.Word): (r: Bytes)
    ensures |r| == 4
  {
    [w % 0x100, w / 0x100 % 0x100, w / 0x1_0000 % 0x100, w / 0x1_0000 / 0x100 % 0x100]
  }

  function DecodeFixed32(data: Bytes, p: nat): Crc.Word
    requires p + 4 <= |data|
  {
    Crc.Load(data[p], data[p + 1], data[p + 2], data[p + 3])
  }

  lemma Fixed32Read(data: Bytes, p: nat, w: Crc.Word)
    requires Has(data, p, Fixed32(w))
    ensures p + 4 <= |data| && DecodeFixed32(data, p) == w
  {
    var part := Fixed32(w);
    HasByte(data, p, part, 0);
    HasByte(data, p, part, 1);
    HasByte(data, p, part, 2);
    HasByte(data, p, part, 3);
    Crc.SplitWord(w);
  }

  // ---------- Variable width ----------

  /** Seven bits to a byte, the low ones first, all bytes but the last marked. */
  function Varint(v: nat): (r: Bytes)
    ensures |r| > 0
  {
    if v < 128 then [v] else [v % 128 + 128] + Varint(v / 128)
  }

  function Power128(k: nat): nat {
    if k == 0 then 1 else 128 * Power128(k - 1)
  }

  /** What a reader of at most so many bytes makes of the bytes at p: the number, and the place behind it. */
  function Read(data: Bytes, p: nat, groups: nat): (r: Option<(nat, nat)>)
    ensures r.Some? ==> p < r.value.1 <= |data|
    decreases |data| - p
  {
    if groups == 0 || p >= |data| then None
    else if data[p] < 128 then Some((data[p], p + 1))
    else
      var rest := Read(data, p + 1, groups - 1);
      if rest.None? then None else Some((data[p] - 128 + 128 * rest.value.0, rest.value.1))
  }

  lemma {:induction false} VarintRead(data: Bytes, p: nat, v: nat, groups: nat)
    requires Has(data, p, Varint(v)) && 0 < groups && v < Power128(groups)
    ensures Read(data, p, groups) == Some((v, p + |Varint(v)|))
    decreases groups
  {
    HasByte(data, p, Varint(v), 0);
    if v >= 128 {
      HasParts(data, p, [v % 128 + 128], Varint(v / 128));
      VarintRead(data, p + 1, v / 128, groups - 1);
    }
  }

  /** 300 takes two bytes, its low seven bits first. */
  lemma CheckVarint(v: nat, data: Bytes)
    requires v == 300 && data == [0xAC, 0x02]
    ensures Varint(v) == data && Read(data, 0, 5) == Some((v, 2))
  {
    assert Varint(2) == [2];
    VarintRead(data, 0, 300, 5);
  }

  lemma FiveGroups(v: nat)
    requires v < 0x1_0000_0000
    ensures v < Power128(5)
  {
    assert Power128(2) == 16384;
    assert Power128(4) == 268435456;
  }

  /** GetVarint32PtrFallback: the loop over at most five bytes, adding up a 32-bit word. */
  method GetVarint32(data: Bytes, p: nat) returns (r: Option<(Crc.Word, nat)>)
    ensures r == match Read(data, p, 5)
                 case None => None
                 case Some((v, q)) => Some((v % 0x1_0000_0000, q))
  {
    var result: nat, scale: nat, q: nat, groups: nat := 0, 1, p, 5;
    while groups > 0 && q < |data|
      invariant groups <= 5 && scale == Power128(5 - groups)
      invariant Read(data, p, 5) == match Read(data, q, groups)
                                    case None => None
                                    case Some((v, q')) => Some((result + scale * v, q'))
      decreases groups
    {
      var byte := data[q];
      if byte < 128 {
        return Some(((result + scale * byte) % 0x1_0000_0000, q + 1));
      }
      Regroup(result, scale, byte - 128, Read(data, q + 1, groups - 1));
      result := result + scale * (byte - 128);
      scale := scale * 128;
      q := q + 1;
      groups := groups - 1;
    }
    r := None;
  }

  lemma Regroup(result: nat, scale: nat, b: nat, rest: Option<(nat, nat)>)
    ensures rest.Some? ==> result + scale * (b + 128 * rest.value.0) == (result + scale * b) + (scale * 128) * rest.value.0
  {
  }
}
