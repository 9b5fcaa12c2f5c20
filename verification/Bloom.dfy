/**
 * The file-level Bloom filter: it has exactly the bits that its keys probe, so it never rules one of them out and rules
 * out every key that probes another bit.
 */
module Bloom {
  import opened Keys

  // ---------- Bits ----------

  /** One shifted left by i. */
  function Mask(i: nat): bv8
    requires i < 8
  {
    if i == 0 then 1 else if i == 1 then 2 else if i == 2 then 4 else if i == 3 then 8
    else if i == 4 then 16 else if i == 5 then 32 else if i == 6 then 64 else 128
  }

  predicate IsSet(a: seq<bv8>, b: nat) {
    b / 8 < |a| && a[b / 8] & Mask(b % 8) != 0
  }

  function SetBit(a: seq<bv8>, b: nat): seq<bv8>
    requires b / 8 < |a|
  {
    a[b / 8 := a[b / 8] | Mask(b % 8)]
  }

  lemma OrKeeps(x: bv8, y: bv8, m: bv8)
    ensures x & m != 0 ==> (x | y) & m != 0
  {
  }

  lemma OrSets(x: bv8, i: nat)
    requires i < 8
    ensures (x | Mask(i)) & Mask(i) != 0
  {
    OrKeeps(Mask(i), x, Mask(i));
    assert Mask(i) & Mask(i) == Mask(i);
    assert x | Mask(i) == Mask(i) | x;
  }

  /** The masks of two bits meet only if the bits are the same. */
  lemma OrSetsNoOther(x: bv8, i: nat, j: nat)
    requires i < 8 && j < 8 && i != j
    ensures (x | Mask(i)) & Mask(j) == x & Mask(j)
  {
    MasksApart(i, j);
    OrApart(x, Mask(i), Mask(j));
  }

  lemma MasksApart(i: nat, j: nat)
    requires i < 8 && j < 8 && i != j
    ensures Mask(i) & Mask(j) == 0
  {
  }

  lemma OrApart(x: bv8, y: bv8, m: bv8)
    requires y & m == 0
    ensures (x | y) & m == x & m
  {
  }

  /** Setting a bit sets that one and changes no other. */
  lemma SetBitSets(a: seq<bv8>, b: nat, c: nat)
    requires b / 8 < |a|
    ensures |SetBit(a, b)| == |a| && (IsSet(SetBit(a, b), c) <==> c == b || IsSet(a, c))
  {
    if c == b {
      OrSets(a[b / 8], b % 8);
    } else if c / 8 == b / 8 {
      OrSetsNoOther(a[b / 8], b % 8, c % 8);
    }
  }

  // ---------- Probes ----------

  type uint32 = x: nat | x < 0x1_0000_0000

  /** The hash rotated right by 17 bits. */
  function Delta(h: uint32): uint32 {
    h / 0x2_0000 + h % 0x2_0000 * 0x8000
  }

  /** Sums wrap at 32 bits. */
  function Add(a: uint32, b: uint32): uint32 {
    (a + b) % 0x1_0000_0000
  }

  /** The j-th hash of the double-hashing sequence that starts at h. */
  function Probe(h: uint32, j: nat): uint32 {
    ProbeFrom(h, Delta(h), j)
  }

  function ProbeFrom(h: uint32, delta: uint32, j: nat): uint32 {
    if j == 0 then h else Add(ProbeFrom(h, delta, j - 1), delta)
  }

  /** Double hashing: the j-th probe is the hash plus j times the hash rotated right by 17 bits, in 32 bits. */
  lemma ProbeClosed(h: uint32, j: nat)
    ensures Probe(h, j) == (h + j * (h / 0x2_0000 + h % 0x2_0000 * 0x8000)) % 0x1_0000_0000
  {
    var delta := h / 0x2_0000 + h % 0x2_0000 * 0x8000;
    ProbeBy(h, Delta(h), j);
    TimesIs(delta, j);
  }

  function Times(delta: nat, j: nat): nat {
    if j == 0 then 0 else Times(delta, j - 1) + delta
  }

  lemma {:induction false} TimesIs(delta: nat, j: nat)
    ensures Times(delta, j) == j * delta
  {
    if j > 0 {
      TimesIs(delta, j - 1);
    }
  }

  lemma {:induction false} ProbeBy(h: uint32, delta: uint32, j: nat)
    ensures ProbeFrom(h, delta, j) == (h + Times(delta, j)) % 0x1_0000_0000
  {
    if j > 0 {
      ProbeBy(h, delta, j - 1);
      AddedOn(ProbeFrom(h, delta, j - 1), h + Times(delta, j - 1), delta);
    }
  }

  lemma AddedOn(p: uint32, prev: nat, delta: uint32)
    requires p == prev % 0x1_0000_0000
    ensures Add(p, delta) == (prev + delta) % 0x1_0000_0000
  {
    AddWraps(prev, delta);
  }

  lemma AddWraps(a: nat, b: nat)
    ensures (a % 0x1_0000_0000 + b) % 0x1_0000_0000 == (a + b) % 0x1_0000_0000
  {
  }

  function BitPos(h: uint32, bits: nat): (b: nat)
    requires bits > 0
    ensures b < bits
  {
    h % bits
  }

  /** Every bit the key probes is set. */
  ghost predicate Matches(a: seq<bv8>, bits: nat, h: uint32, k: nat)
    requires bits > 0
  {
    forall j :: 0 <= j < k ==> IsSet(a, BitPos(Probe(h, j), bits))
  }

  /** Bit c is probed by the hash, in one of its first k probes. */
  ghost predicate Probes(h: uint32, k: nat, bits: nat, c: nat)
    requires bits > 0
  {
    exists j :: 0 <= j < k && c == BitPos(Probe(h, j), bits)
  }

  /** The bits set are those that were, and those the hash probes. */
  ghost predicate Adds(a: seq<bv8>, a': seq<bv8>, h: uint32, k: nat, bits: nat)
    requires bits > 0
  {
    |a'| == |a| && forall c: nat :: IsSet(a', c) <==> IsSet(a, c) || Probes(h, k, bits, c)
  }

  method SetProbe(a0: seq<bv8>, a: seq<bv8>, bits: nat, ghost h0: uint32, h: uint32, ghost j: nat) returns (a': seq<bv8>)
    requires 0 < bits <= |a| * 8 && Adds(a0, a, h0, j, bits) && h == Probe(h0, j)
    ensures Adds(a0, a', h0, j + 1, bits)
  {
    var b := BitPos(h, bits);
    a' := SetBit(a, b);
    forall c: nat ensures IsSet(a', c) <==> IsSet(a0, c) || Probes(h0, j + 1, bits, c) {
      SetBitSets(a, b, c);
      OneMoreProbe(h0, j, bits, c);
    }
  }

  lemma OneMoreProbe(h: uint32, j: nat, bits: nat, c: nat)
    requires bits > 0
    ensures Probes(h, j + 1, bits, c) <==> Probes(h, j, bits, c) || c == BitPos(Probe(h, j), bits)
  {
  }

  method AddKey(a0: seq<bv8>, bits: nat, h0: uint32, k: nat) returns (a: seq<bv8>)
    requires 0 < bits <= |a0| * 8
    ensures Adds(a0, a, h0, k, bits)
  {
    a := a0;
    var h := h0;
    var delta := Delta(h);
    for j := 0 to k
      invariant |a| == |a0| && Adds(a0, a, h0, j, bits) && h == Probe(h0, j)
    {
      a := SetProbe(a0, a, bits, h0, h, j);
      h := Add(h, delta);
    }
  }

  // ---------- The filter ----------

  /** The size of the bit array: bits per key, at least 64 bits, in whole bytes. */
  function FilterBytes(n: nat, bitsPerKey: nat): (bytes: nat)
    ensures bytes >= 8 && n * bitsPerKey <= bytes * 8 && (bytes > 8 ==> bytes * 8 < n * bitsPerKey + 8)
  {
    var bits := n * bitsPerKey;
    ((if bits < 64 then 64 else bits) + 7) / 8
  }

  /** Some key probes the bit. */
  ghost predicate ProbedBySome(hash: Bytes -> uint32, keys: seq<Bytes>, n: nat, k: nat, bits: nat, c: nat)
    requires bits > 0 && n <= |keys|
  {
    exists i :: 0 <= i < n && Probes(hash(keys[i]), k, bits, c)
  }

  /** The bits set are exactly those that the first n keys probe. */
  ghost predicate HasProbesOf(hash: Bytes -> uint32, a: seq<bv8>, keys: seq<Bytes>, n: nat, k: nat)
    requires |a| > 0 && n <= |keys|
  {
    forall c: nat :: IsSet(a, c) <==> ProbedBySome(hash, keys, n, k, |a| * 8, c)
  }

  method FillBits(hash: Bytes -> uint32, bytes: nat, k: nat, keys: seq<Bytes>) returns (a: seq<bv8>)
    requires bytes > 0
    ensures |a| == bytes && HasProbesOf(hash, a, keys, |keys|, k)
  {
    a := seq(bytes, _ => 0);
    for i := 0 to |keys|
      invariant |a| == bytes && HasProbesOf(hash, a, keys, i, k)
    {
      var a' := AddKey(a, bytes * 8, hash(keys[i]), k);
      OneMoreKey(hash, a, a', keys, i, k);
      a := a';
    }
  }

  lemma OneMoreKey(hash: Bytes -> uint32, a: seq<bv8>, a': seq<bv8>, keys: seq<Bytes>, i: nat, k: nat)
    requires |a| > 0 && i < |keys| && HasProbesOf(hash, a, keys, i, k) && Adds(a, a', hash(keys[i]), k, |a| * 8)
    ensures HasProbesOf(hash, a', keys, i + 1, k)
  {
    forall c: nat ensures IsSet(a', c) <==> ProbedBySome(hash, keys, i + 1, k, |a| * 8, c) {
      assert ProbedBySome(hash, keys, i + 1, k, |a| * 8, c) <==>
             ProbedBySome(hash, keys, i, k, |a| * 8, c) || Probes(hash(keys[i]), k, |a| * 8, c);
    }
  }

  /** CreateFilter: the bit array, with exactly the bits the keys probe, followed by the number of probes. */
  method CreateFilter(hash: Bytes -> uint32, bitsPerKey: nat, k: nat, keys: seq<Bytes>) returns (filter: seq<bv8>)
    requires 1 <= k <= 30
    ensures |filter| == FilterBytes(|keys|, bitsPerKey) + 1 && filter[|filter| - 1] as int == k
    ensures HasProbesOf(hash, filter[..|filter| - 1], keys, |keys|, k)
  {
    var a := FillBits(hash, FilterBytes(|keys|, bitsPerKey), k, keys);
    filter := a + [k as bv8];
    assert filter[..|filter| - 1] == a;
  }

  /** A key matches the filter's bits exactly when each bit it probes is probed by one of the filter's keys. */
  lemma MatchesIff(hash: Bytes -> uint32, a: seq<bv8>, keys: seq<Bytes>, k: nat, h: uint32)
    requires |a| > 0 && HasProbesOf(hash, a, keys, |keys|, k)
    ensures Matches(a, |a| * 8, h, k) <==>
            forall j :: 0 <= j < k ==> ProbedBySome(hash, keys, |keys|, k, |a| * 8, BitPos(Probe(h, j), |a| * 8))
  {
    if Matches(a, |a| * 8, h, k) {
      forall j | 0 <= j < k ensures ProbedBySome(hash, keys, |keys|, k, |a| * 8, BitPos(Probe(h, j), |a| * 8)) {
        assert IsSet(a, BitPos(Probe(h, j), |a| * 8));
      }
    } else {
      var j :| 0 <= j < k && !IsSet(a, BitPos(Probe(h, j), |a| * 8));
      assert !ProbedBySome(hash, keys, |keys|, k, |a| * 8, BitPos(Probe(h, j), |a| * 8));
    }
  }

  lemma OwnKeyMatches(hash: Bytes -> uint32, a: seq<bv8>, keys: seq<Bytes>, k: nat, i: nat)
    requires |a| > 0 && HasProbesOf(hash, a, keys, |keys|, k) && i < |keys|
    ensures Matches(a, |a| * 8, hash(keys[i]), k)
  {
    forall j | 0 <= j < k ensures IsSet(a, BitPos(Probe(hash(keys[i]), j), |a| * 8)) {
      var c := BitPos(Probe(hash(keys[i]), j), |a| * 8);
      assert Probes(hash(keys[i]), k, |a| * 8, c);
      assert ProbedBySome(hash, keys, |keys|, k, |a| * 8, c);
    }
  }

  /** A filter answers for a key exactly by the bits: yes if all of its probes are some keys' probes, and only then. */
  method FilterAnswers(hash: Bytes -> uint32, bitsPerKey: nat, k: nat, keys: seq<Bytes>, key: Bytes) returns (may: bool)
    requires 1 <= k <= 30
    ensures var bits := FilterBytes(|keys|, bitsPerKey) * 8;
            may <==> forall j :: 0 <= j < k ==>
                       ProbedBySome(hash, keys, |keys|, k, bits, BitPos(Probe(hash(key), j), bits))
    ensures key in keys ==> may
  {
    var filter := CreateFilter(hash, bitsPerKey, k, keys);
    may := KeyMayMatch(hash, key, filter);
    ghost var a := filter[..|filter| - 1];
    MatchesIff(hash, a, keys, k, hash(key));
    if key in keys {
      var i :| 0 <= i < |keys| && keys[i] == key;
      OwnKeyMatches(hash, a, keys, k, i);
    }
  }

  method KeyMayMatch(hash: Bytes -> uint32, key: Bytes, filter: seq<bv8>) returns (may: bool)
    ensures |filter| < 2 ==> !may
    ensures |filter| >= 2 && filter[|filter| - 1] as int > 30 ==> may
    ensures |filter| >= 2 && filter[|filter| - 1] as int <= 30 ==>
              (may <==> Matches(filter[..|filter| - 1], (|filter| - 1) * 8, hash(key), filter[|filter| - 1] as int))
  {
    if |filter| < 2 { return false; }
    var a := filter[..|filter| - 1];
    var bits := |a| * 8;
    var k := filter[|filter| - 1] as int;
    if k > 30 { return true; }
    var h := hash(key);
    var delta := Delta(h);
    for j := 0 to k
      invariant h == Probe(hash(key), j) && Matches(a, bits, hash(key), j)
    {
      if !IsSet(a, BitPos(h, bits)) {
        return false;
      }
      h := Add(h, delta);
    }
    return true;
  }

  // ---------- The builder that collects a file's keys ----------

  function UserKey(ikey: Bytes): Bytes
    requires |ikey| >= 8
  {
    ikey[..|ikey| - 8]
  }

  class FileLevelFilterBuilder {
    const hash: Bytes -> uint32
    const bitsPerKey: nat
    const k: nat
    var keys: Bytes
    var offsets: seq<nat>
    ghost var added: seq<Bytes>

    /** The flattened buffer, cut at the recorded offsets, is the keys added. */
    ghost predicate Valid()
      reads this
    {
      && 1 <= k <= 30 && |offsets| == |added|
      && (forall i :: 0 <= i < |added| ==> |added[i]| >= 8 && offsets[i] <= End(i) <= |keys|)
      && (forall i :: 0 <= i < |added| ==> keys[offsets[i]..End(i)] == added[i])
    }

    ghost function End(i: nat): nat
      requires i < |offsets|
      reads this
    {
      if i + 1 < |offsets| then offsets[i + 1] else |keys|
    }

    constructor (hash: Bytes -> uint32, bitsPerKey: nat, k: nat)
      requires 1 <= k <= 30
      ensures Valid() && added == [] && this.hash == hash
    {
      this.hash, this.bitsPerKey, this.k := hash, bitsPerKey, k;
      keys, offsets, added := [], [], [];
    }

    method AddKey(key: Bytes)
      requires Valid() && |key| >= 8
      modifies this
      ensures Valid() && added == old(added) + [key]
    {
      ghost var keys0, offsets0, added0 := keys, offsets, added;
      assert forall i :: 0 <= i < |added| ==> (keys + key)[offsets[i]..End(i)] == added[i];
      offsets := offsets + [|keys|];
      keys := keys + key;
      added := added + [key];
      forall i | 0 <= i < |added| ensures offsets[i] <= End(i) <= |keys| && keys[offsets[i]..End(i)] == added[i] {
        if i < |added0| {
          assert offsets[i] == offsets0[i] && End(i) == if i + 1 < |offsets0| then offsets0[i + 1] else |keys0|;
        } else {
          assert keys[|keys0|..|keys0| + |key|] == key;
        }
      }
    }

    /** The list of user keys rebuilt from the flattened buffer. */
    method UserKeys() returns (tmp: seq<Bytes>)
      requires Valid()
      ensures |tmp| == |added| && forall j :: 0 <= j < |added| ==> tmp[j] == UserKey(added[j])
    {
      tmp := [];
      for i := 0 to |offsets|
        invariant |tmp| == i && forall j :: 0 <= j < i ==> tmp[j] == UserKey(added[j])
      {
        var end := if i + 1 < |offsets| then offsets[i + 1] else |keys|;
        assert end == End(i) && keys[offsets[i]..end] == added[i];
        tmp := tmp + [UserKey(keys[offsets[i]..end])];
      }
    }

    /** The filter of the user keys of all keys added, or none; the builder is empty again afterwards. */
    method GenerateFilter() returns (filter: seq<bv8>)
      requires Valid()
      modifies this
      ensures Valid() && added == []
      ensures if old(added) == [] then filter == [] else IsFilterOf(filter, old(added))
    {
      if |offsets| == 0 {
        filter := [];
      } else {
        var tmp := UserKeys();
        filter := CreateFilter(hash, bitsPerKey, k, tmp);
        assert tmp == UserKeysOf(added);
      }
      keys, offsets, added := [], [], [];
    }

    /** The filter has the size for the number of keys, exactly the bits their user keys probe, and the probe count. */
    ghost predicate IsFilterOf(filter: seq<bv8>, ikeys: seq<Bytes>) {
      && (forall i :: 0 <= i < |ikeys| ==> |ikeys[i]| >= 8)
      && |filter| == FilterBytes(|ikeys|, bitsPerKey) + 1 && filter[|filter| - 1] as int == k
      && HasProbesOf(hash, filter[..|filter| - 1], UserKeysOf(ikeys), |ikeys|, k)
    }
  }

  function UserKeysOf(ikeys: seq<Bytes>): (r: seq<Bytes>)
    requires forall i :: 0 <= i < |ikeys| ==> |ikeys[i]| >= 8
    ensures |r| == |ikeys|
  {
    seq(|ikeys|, i requires 0 <= i < |ikeys| => UserKey(ikeys[i]))
  }

  /** A file's filter never skips the file for a key stored in it, whatever sequence number is looked up. */
  method FilterNeverSkips(b: FileLevelFilterBuilder, ikeys: seq<Bytes>, i: nat, probe: Bytes) returns (may: bool)
    requires b.Valid() && b.added == [] && i < |ikeys| && |probe| >= 8
    requires forall j :: 0 <= j < |ikeys| ==> |ikeys[j]| >= 8
    requires UserKey(probe) == UserKey(ikeys[i])
    modifies b
    ensures may
  {
    for j := 0 to |ikeys|
      invariant b.Valid() && b.added == ikeys[..j]
    {
      b.AddKey(ikeys[j]);
      assert ikeys[..j + 1] == ikeys[..j] + [ikeys[j]];
    }
    assert ikeys[..|ikeys|] == ikeys;
    var filter := b.GenerateFilter();
    may := KeyMayMatch(b.hash, UserKey(probe), filter);
    OwnKeyMatches(b.hash, filter[..|filter| - 1], UserKeysOf(ikeys), b.k, i);
  }
}
