/** CRC-32C: slicing by eight against the bit-at-a-time definition, concatenation, and masking. */
module Crc {
  import opened Keys

  const WORD := 0x1_0000_0000

  /** Unsigned 32-bit words. */
  type Word = w: int | 0 <= w < WORD

  /** The Castagnoli polynomial of section 12.1 of RFC 3720, bits reversed. */
  const POLYNOMIAL: Word := 0x82F63B78

  const ONES: Word := 0xFFFF_FFFF

  const MASK_DELTA: Word := 0xA282EAD8

  // ---------- Exclusive or ----------

  function Xor(a: nat, b: nat): nat {
    if a == 0 && b == 0 then 0 else 2 * Xor(a / 2, b / 2) + if a % 2 == b % 2 then 0 else 1
  }

  function Pow2(k: nat): nat {
    if k == 0 then 1 else 2 * Pow2(k - 1)
  }

  lemma {:induction false} XorCommutes(a: nat, b: nat)
    ensures Xor(a, b) == Xor(b, a)
  {
    if a != 0 || b != 0 {
      XorCommutes(a / 2, b / 2);
    }
  }

  lemma XorBits(a: nat, b: nat)
    ensures Xor(a, b) / 2 == Xor(a / 2, b / 2)
    ensures Xor(a, b) % 2 == if a % 2 == b % 2 then 0 else 1
  {
  }

  lemma {:induction false} XorAssociates(a: nat, b: nat, c: nat)
    ensures Xor(Xor(a, b), c) == Xor(a, Xor(b, c))
    decreases a + b + c
  {
    if a == 0 && b == 0 && c == 0 {
      return;
    }
    var x, y := Xor(a, b), Xor(b, c);
    XorBits(a, b);
    XorBits(b, c);
    XorBits(x, c);
    XorBits(a, y);
    XorAssociates(a / 2, b / 2, c / 2);
    SameDigits(Xor(x, c), Xor(a, y));
  }

  lemma SameDigits(x: nat, y: nat)
    requires x / 2 == y / 2 && x % 2 == y % 2
    ensures x == y
  {
  }

  lemma {:induction false} XorZero(a: nat)
    ensures Xor(a, 0) == a && Xor(0, a) == a
  {
    if a != 0 {
      XorZero(a / 2);
    }
  }

  lemma {:induction false} XorSelf(a: nat)
    ensures Xor(a, a) == 0
  {
    if a != 0 {
      XorSelf(a / 2);
    }
  }

  lemma {:induction false} XorBound(a: nat, b: nat, k: nat)
    requires a < Pow2(k) && b < Pow2(k)
    ensures Xor(a, b) < Pow2(k)
  {
    if k > 0 && (a != 0 || b != 0) {
      XorBound(a / 2, b / 2, k - 1);
    }
  }

  lemma XorTwice(x: nat, y: nat)
    ensures Xor(Xor(x, y), y) == x
  {
    XorAssociates(x, y, y);
    XorSelf(y);
    XorZero(x);
  }

  lemma XorShuffles(a: nat, b: nat, c: nat, d: nat)
    ensures Xor(Xor(a, b), Xor(c, d)) == Xor(Xor(a, c), Xor(b, d))
  {
    XorAssociates(a, b, Xor(c, d));
    XorAssociates(b, c, d);
    XorCommutes(b, c);
    XorAssociates(c, b, d);
    XorAssociates(a, c, Xor(b, d));
  }

  /** A shift to the left. */
  function Shl(a: nat, k: nat): nat {
    if k == 0 then a else 2 * Shl(a, k - 1)
  }

  /** Words that share no bits. */
  lemma {:induction false} XorOfParts(lo: nat, hi: nat, k: nat)
    requires lo < Pow2(k)
    ensures Xor(lo, Shl(hi, k)) == lo + Shl(hi, k)
  {
    if k == 0 {
      XorZero(hi);
    } else {
      var m := Shl(hi, k - 1);
      XorOfParts(lo / 2, hi, k - 1);
      XorBits(lo, 2 * m);
      SameDigits(Xor(lo, 2 * m), lo + 2 * m);
    }
  }

  // ---------- The definition ----------

  function XorWord(a: Word, b: Word): Word {
    WordSize();
    XorBound(a, b, 32);
    Xor(a, b)
  }

  lemma WordSize()
    ensures Pow2(8) == 256 && Pow2(32) == WORD
  {
    assert Pow2(4) == 16;
    assert Pow2(8) == 256;
    assert Pow2(12) == 4096;
    assert Pow2(16) == 65536;
    assert Pow2(20) == 0x10_0000;
    assert Pow2(24) == 0x100_0000;
    assert Pow2(28) == 0x1000_0000;
  }

  /** What leaves the register at its low end feeds back as the polynomial. */
  function Feedback(c: Word): Word {
    if c % 2 == 1 then POLYNOMIAL else 0
  }

  function BitStep(c: Word): Word {
    XorWord(c / 2, Feedback(c))
  }

  /** The register after n zero bits. */
  function Zeros(c: Word, n: nat): Word {
    if n == 0 then c else BitStep(Zeros(c, n - 1))
  }

  function ByteStep(c: Word, b: Byte): Word {
    Zeros(XorWord(c, b), 8)
  }

  /** The register after the first n bytes. */
  function Bytewise(c: Word, data: Bytes, n: nat): Word
    requires n <= |data|
  {
    if n == 0 then c else ByteStep(Bytewise(c, data, n - 1), data[n - 1])
  }

  function Extend(c: Word, data: Bytes): Word {
    XorWord(Bytewise(XorWord(c, ONES), data, |data|), ONES)
  }

  function Value(data: Bytes): Word {
    Extend(0, data)
  }

  // ---------- Concatenation ----------

  lemma {:induction false} BytewiseOfPrefix(c: Word, a: Bytes, b: Bytes, n: nat)
    requires n <= |a|
    ensures Bytewise(c, a + b, n) == Bytewise(c, a, n)
  {
    if n > 0 {
      BytewiseOfPrefix(c, a, b, n - 1);
    }
  }

  lemma {:induction false} BytewiseComposes(c: Word, a: Bytes, b: Bytes, n: nat)
    requires n <= |b|
    ensures Bytewise(c, a + b, |a| + n) == Bytewise(Bytewise(c, a, |a|), b, n)
  {
    if n == 0 {
      BytewiseOfPrefix(c, a, b, |a|);
    } else {
      BytewiseComposes(c, a, b, n - 1);
      assert (a + b)[|a| + n - 1] == b[n - 1];
    }
  }

  /** The checksum of a concatenation is computed piece by piece. */
  lemma ExtendComposes(c: Word, a: Bytes, b: Bytes)
    ensures Extend(Extend(c, a), b) == Extend(c, a + b)
  {
    BytewiseComposes(XorWord(c, ONES), a, b, |b|);
    XorTwice(Bytewise(XorWord(c, ONES), a, |a|), ONES);
  }

  // ---------- The register is linear ----------

  lemma FeedbackLinear(a: Word, b: Word)
    ensures Feedback(XorWord(a, b)) == Xor(Feedback(a), Feedback(b))
  {
    XorBits(a, b);
    SelectLinear(POLYNOMIAL, a % 2, b % 2);
  }

  lemma SelectLinear(p: nat, x: nat, y: nat)
    requires x < 2 && y < 2
    ensures Xor(if x == 1 then p else 0, if y == 1 then p else 0) == if x != y then p else 0
  {
    XorZero(p);
    XorSelf(p);
  }

  lemma BitStepLinear(a: Word, b: Word)
    ensures BitStep(XorWord(a, b)) == XorWord(BitStep(a), BitStep(b))
  {
    FeedbackLinear(a, b);
    XorBits(a, b);
    XorShuffles(a / 2, b / 2, Feedback(a), Feedback(b));
  }

  lemma {:induction false} ZerosLinear(a: Word, b: Word, n: nat)
    ensures Zeros(XorWord(a, b), n) == XorWord(Zeros(a, n), Zeros(b, n))
  {
    if n > 0 {
      ZerosLinear(a, b, n - 1);
      BitStepLinear(Zeros(a, n - 1), Zeros(b, n - 1));
    }
  }

  lemma {:induction false} ZerosCompose(c: Word, m: nat, n: nat)
    ensures Zeros(Zeros(c, m), n) == Zeros(c, m + n)
  {
    if n > 0 {
      ZerosCompose(c, m, n - 1);
    }
  }

  /** Zero bits shift a word with nothing in its low bits. */
  lemma {:induction false} ZerosShift(c: Word, n: nat)
    requires Shl(c, n) < WORD
    ensures Zeros(Shl(c, n), n) == c
  {
    if n > 0 {
      var m := Shl(c, n - 1);
      ZerosShift(c, n - 1);
      BitStepHalves(m);
      ZerosFirst(2 * m, n);
    }
  }

  lemma ZerosFirst(c: Word, n: nat)
    requires n > 0
    ensures Zeros(c, n) == Zeros(BitStep(c), n - 1)
  {
    ZerosCompose(c, 1, n - 1);
    assert Zeros(c, 1) == BitStep(Zeros(c, 0));
  }

  lemma BitStepHalves(c: Word)
    requires 2 * c < WORD
    ensures BitStep(2 * c) == c
  {
    XorZero(c);
  }

  // ---------- Slicing by eight ----------

  /** The k-th lookup table: a byte followed by k zero bytes. */
  function Table(k: nat, b: Byte): Word {
    Zeros(b, 8 * (k + 1))
  }

  /** A little-endian word. */
  function Load(b0: Byte, b1: Byte, b2: Byte, b3: Byte): Word {
    b0 + 0x100 * b1 + 0x1_0000 * b2 + 0x100_0000 * b3
  }

  lemma PartSizes()
    ensures Pow2(8) == 0x100 && Pow2(16) == 0x1_0000 && Pow2(24) == 0x100_0000
  {
    assert Pow2(4) == 16;
    assert Pow2(8) == 256;
    assert Pow2(12) == 4096;
    assert Pow2(16) == 65536;
    assert Pow2(20) == 0x10_0000;
  }

  lemma ShiftSizes(b: nat)
    ensures Shl(b, 8) == 0x100 * b && Shl(b, 16) == 0x1_0000 * b && Shl(b, 24) == 0x100_0000 * b
  {
    assert Shl(b, 1) == 2 * b;
    assert Shl(b, 2) == 0x4 * b;
    assert Shl(b, 4) == 0x10 * b;
    assert Shl(b, 6) == 0x40 * b;
    assert Shl(b, 8) == 0x100 * b;
    assert Shl(b, 10) == 0x400 * b;
    assert Shl(b, 12) == 0x1000 * b;
    assert Shl(b, 14) == 0x4000 * b;
    assert Shl(b, 16) == 0x10000 * b;
    assert Shl(b, 18) == 0x40000 * b;
    assert Shl(b, 20) == 0x100000 * b;
    assert Shl(b, 22) == 0x400000 * b;
  }

  lemma LoadIsXor(b0: Byte, b1: Byte, b2: Byte, b3: Byte)
    ensures Xor(Xor(Xor(b0, 0x100 * b1), 0x1_0000 * b2), 0x100_0000 * b3) == Load(b0, b1, b2, b3)
  {
    PartSizes();
    ShiftSizes(b1);
    ShiftSizes(b2);
    ShiftSizes(b3);
    XorOfParts(b0, b1, 8);
    XorOfParts(b0 + 0x100 * b1, b2, 16);
    XorOfParts(b0 + 0x100 * b1 + 0x1_0000 * b2, b3, 24);
  }

  /** The four table lookups for the bytes of a word. */
  function Lookup4(b0: Byte, b1: Byte, b2: Byte, b3: Byte, k: nat): Word
    requires k >= 3
  {
    XorWord(XorWord(XorWord(Table(k, b0), Table(k - 1, b1)), Table(k - 2, b2)), Table(k - 3, b3))
  }

  lemma TableOfPart(b: Byte, j: nat, k: nat)
    requires j <= k && Shl(b, 8 * j) < WORD
    ensures Zeros(Shl(b, 8 * j), 8 * (k + 1)) == Table(k - j, b)
  {
    ZerosShift(b, 8 * j);
    ZerosCompose(Shl(b, 8 * j), 8 * j, 8 * (k - j + 1));
  }

  lemma LookupWord(b0: Byte, b1: Byte, b2: Byte, b3: Byte, k: nat)
    requires k >= 3
    ensures Zeros(Load(b0, b1, b2, b3), 8 * (k + 1)) == Lookup4(b0, b1, b2, b3, k)
  {
    LoadIsXor(b0, b1, b2, b3);
    TableParts(b1, b2, b3, k);
    var n := 8 * (k + 1);
    var x1: Word := XorWord(b0, 0x100 * b1);
    var x2: Word := XorWord(x1, 0x1_0000 * b2);
    ZerosLinear(b0, 0x100 * b1, n);
    ZerosLinear(x1, 0x1_0000 * b2, n);
    ZerosLinear(x2, 0x100_0000 * b3, n);
  }

  lemma TableParts(b1: Byte, b2: Byte, b3: Byte, k: nat)
    requires k >= 3
    ensures Zeros(0x100 * b1, 8 * (k + 1)) == Table(k - 1, b1)
    ensures Zeros(0x1_0000 * b2, 8 * (k + 1)) == Table(k - 2, b2)
    ensures Zeros(0x100_0000 * b3, 8 * (k + 1)) == Table(k - 3, b3)
  {
    ShiftSizes(b1);
    ShiftSizes(b2);
    ShiftSizes(b3);
    TableOfPart(b1, 1, k);
    TableOfPart(b2, 2, k);
    TableOfPart(b3, 3, k);
  }

  /** Absorbing a byte after 8 j zero bits is absorbing it, moved up, before them. */
  lemma AbsorbEarlier(x: Word, b: Byte, j: nat)
    requires Shl(b, 8 * j) < WORD
    ensures ByteStep(Zeros(x, 8 * j), b) == Zeros(XorWord(x, Shl(b, 8 * j)), 8 * (j + 1))
  {
    var m: Word := Shl(b, 8 * j);
    ZerosShift(b, 8 * j);
    ZerosLinear(x, m, 8 * j);
    ZerosCompose(XorWord(x, m), 8 * j, 8);
  }

  function Steps4(c: Word, b0: Byte, b1: Byte, b2: Byte, b3: Byte): Word {
    ByteStep(ByteStep(ByteStep(ByteStep(c, b0), b1), b2), b3)
  }

  lemma Steps4Absorb(c: Word, b0: Byte, b1: Byte, b2: Byte, b3: Byte)
    ensures Steps4(c, b0, b1, b2, b3) == Zeros(XorWord(c, Load(b0, b1, b2, b3)), 32)
  {
    ShiftSizes(b1);
    ShiftSizes(b2);
    ShiftSizes(b3);
    var x0 := XorWord(c, b0);
    var x1 := XorWord(x0, 0x100 * b1);
    var x2 := XorWord(x1, 0x1_0000 * b2);
    AbsorbEarlier(x0, b1, 1);
    AbsorbEarlier(x1, b2, 2);
    AbsorbEarlier(x2, b3, 3);
    LoadIsXor(b0, b1, b2, b3);
    XorAssociates(c, b0, 0x100 * b1);
    XorAssociates(c, Xor(b0, 0x100 * b1), 0x1_0000 * b2);
    XorAssociates(c, Xor(Xor(b0, 0x100 * b1), 0x1_0000 * b2), 0x100_0000 * b3);
  }

  lemma Bytewise4(c: Word, b: Bytes, n: nat)
    requires n + 4 <= |b|
    ensures Bytewise(c, b, n + 4) == Steps4(Bytewise(c, b, n), b[n], b[n + 1], b[n + 2], b[n + 3])
  {
    assert Bytewise(c, b, n + 1) == ByteStep(Bytewise(c, b, n), b[n]);
    assert Bytewise(c, b, n + 2) == ByteStep(Bytewise(c, b, n + 1), b[n + 1]);
    assert Bytewise(c, b, n + 3) == ByteStep(Bytewise(c, b, n + 2), b[n + 2]);
    assert Bytewise(c, b, n + 4) == ByteStep(Bytewise(c, b, n + 3), b[n + 3]);
  }

  /** Eight byte steps are the eight zero bytes after the first word, and the four after the second. */
  lemma Bytewise8(c: Word, b: Bytes, n: nat)
    requires n + 8 <= |b|
    ensures var x := XorWord(Bytewise(c, b, n), Load(b[n], b[n + 1], b[n + 2], b[n + 3]));
            var y := Load(b[n + 4], b[n + 5], b[n + 6], b[n + 7]);
            Bytewise(c, b, n + 8) == XorWord(Zeros(x, 64), Zeros(y, 32))
  {
    var x := XorWord(Bytewise(c, b, n), Load(b[n], b[n + 1], b[n + 2], b[n + 3]));
    var y := Load(b[n + 4], b[n + 5], b[n + 6], b[n + 7]);
    Bytewise4(c, b, n);
    Bytewise4(c, b, n + 4);
    Steps4Absorb(Bytewise(c, b, n), b[n], b[n + 1], b[n + 2], b[n + 3]);
    Steps4Absorb(Bytewise(c, b, n + 4), b[n + 4], b[n + 5], b[n + 6], b[n + 7]);
    ZerosLinear(Zeros(x, 32), y, 32);
    ZerosCompose(x, 32, 32);
  }

  /** The bytes the fast loop picks out of a word are the bytes it was loaded from. */
  lemma SplitWord(x: Word)
    ensures x == Load(x % 0x100, x / 0x100 % 0x100, x / 0x1_0000 % 0x100, x / 0x1_0000 / 0x100 % 0x100)
  {
  }

  lemma Regroup(a: Word, p: Word, q: Word, r: Word)
    ensures XorWord(XorWord(XorWord(a, p), q), r) == XorWord(a, XorWord(XorWord(p, q), r))
  {
    XorAssociates(a, p, q);
    XorAssociates(a, Xor(p, q), r);
  }

  /** The four lookups the fast loop makes for a word. */
  method LookupBytes(x: Word, k: nat) returns (term1: Word, t2: Word, t3: Word)
    requires k >= 3
    ensures XorWord(XorWord(term1, t2), t3) == Zeros(x, 8 * (k + 1))
  {
    term1 := XorWord(Table(k, x % 0x100), Table(k - 1, x / 0x100 % 0x100));
    var term2 := x / 0x1_0000;
    t2, t3 := Table(k - 2, term2 % 0x100), Table(k - 3, term2 / 0x100 % 0x100);
    SplitWord(x);
    LookupWord(x % 0x100, x / 0x100 % 0x100, term2 % 0x100, term2 / 0x100 % 0x100, k);
  }

  /** One round of the fast loop, on eight bytes. */
  method Round(ghost start: Word, running: Word, buf: Bytes, p: nat) returns (crc: Word)
    requires p + 8 <= |buf| && running == Bytewise(start, buf, p)
    ensures crc == Bytewise(start, buf, p + 8)
  {
    Bytewise8(start, buf, p);
    var x := XorWord(running, Load(buf[p], buf[p + 1], buf[p + 2], buf[p + 3]));
    var term1, t2, t3 := LookupBytes(x, 7);
    var first := XorWord(XorWord(term1, t2), t3);
    term1, t2, t3 := LookupBytes(Load(buf[p + 4], buf[p + 5], buf[p + 6], buf[p + 7]), 3);
    crc := XorWord(XorWord(XorWord(first, term1), t2), t3);
    Regroup(first, term1, t2, t3);
  }

  /** How many bytes are taken when the length is a 32-bit word, and so is what is left after the leading bytes. */
  function BytesTaken(length: Word, initBytes: nat): nat {
    initBytes + (length - initBytes) % WORD
  }

  /** Slicing by eight, whatever number of leading bytes is taken to align the buffer. */
  method SliceBy8(runningCrc: Word, buf: Bytes, length: Word, initBytes: nat) returns (crc: Word)
    requires BytesTaken(length, initBytes) <= |buf|
    ensures crc == Bytewise(runningCrc, buf, BytesTaken(length, initBytes))
  {
    crc := runningCrc;
    var p := 0;
    var rest := (length - initBytes) % WORD;
    var runningLength := rest / 8 * 8;
    var endBytes := rest - runningLength;
    for li := 0 to initBytes
      invariant p == li && crc == Bytewise(runningCrc, buf, p)
    {
      crc := TableStep(crc, buf[p]);
      p := p + 1;
    }
    for li := 0 to runningLength / 8
      invariant p == initBytes + 8 * li && crc == Bytewise(runningCrc, buf, p)
    {
      crc := Round(runningCrc, crc, buf, p);
      p := p + 8;
    }
    for li := 0 to endBytes
      invariant p == initBytes + runningLength + li && crc == Bytewise(runningCrc, buf, p)
    {
      crc := TableStep(crc, buf[p]);
      p := p + 1;
    }
  }

  /** The table-driven byte step is eight bit steps. */
  function TableStep(crc: Word, b: Byte): (r: Word)
    ensures r == ByteStep(crc, b)
  {
    TableStepExact(crc, b);
    XorWord(Table(0, XorWord(crc, b) % 0x100), crc / 0x100)
  }

  lemma TableStepExact(crc: Word, b: Byte)
    ensures XorWord(Table(0, XorWord(crc, b) % 0x100), crc / 0x100) == ByteStep(crc, b)
  {
    var x := XorWord(crc, b);
    PartSizes();
    var lo, hi := x % 0x100, x / 0x100;
    ShiftSizes(hi);
    XorOfParts(lo, hi, 8);
    ZerosLinear(lo, 0x100 * hi, 8);
    ZerosShift(hi, 8);
    HighPart(crc, b);
  }

  lemma HighPart(crc: Word, b: Byte)
    ensures Xor(crc, b) / 0x100 == crc / 0x100
  {
    PartSizes();
    var lo, hi := crc % 0x100, crc / 0x100;
    ShiftSizes(hi);
    XorOfParts(lo, hi, 8);
    XorCommutes(lo, 0x100 * hi);
    XorAssociates(0x100 * hi, lo, b);
    XorBound(lo, b, 8);
    XorCommutes(0x100 * hi, Xor(lo, b));
    XorOfParts(Xor(lo, b), hi, 8);
  }

  /** The bytes before the next aligned address. */
  function InitBytes(n: nat, address: nat): (r: nat)
    ensures r <= n && r < 4
  {
    var init := (address + 3) / 4 * 4 - address;
    if init > n then n else init
  }

  /** How much of a buffer counts: all of it below 4 GiB, else what its length leaves in 32 bits, or 4 GiB more. */
  lemma TakenOf(n: nat, address: nat)
    ensures var taken := BytesTaken(n % WORD, InitBytes(n, address));
            && taken <= n && (n < WORD ==> taken == n)
            && taken == n % WORD + (if n % WORD < InitBytes(n, address) then WORD else 0)
  {
    var init, length := InitBytes(n, address), n % WORD;
    if length >= init {
      assert (length - init) % WORD == length - init;
    } else {
      assert (length - init + WORD) % WORD == length - init + WORD;
    }
  }

  /** Extend in software: the number of bytes up to the next aligned address is taken first. */
  method ExtendSoftware(initCrc: Word, data: Bytes, address: nat) returns (crc: Word)
    ensures BytesTaken(|data| % WORD, InitBytes(|data|, address)) <= |data|
    ensures crc == Extend(initCrc, data[..BytesTaken(|data| % WORD, InitBytes(|data|, address))])
    ensures |data| < WORD ==> crc == Extend(initCrc, data)
  {
    TakenOf(|data|, address);
    var init := InitBytes(|data|, address);
    ghost var taken := BytesTaken(|data| % WORD, init);
    crc := SliceBy8(XorWord(initCrc, ONES), data, |data| % WORD, init);
    crc := XorWord(crc, ONES);
    assert data[..taken] + data[taken..] == data;
    BytewiseOfPrefix(XorWord(initCrc, ONES), data[..taken], data[taken..], taken);
    assert |data| < WORD ==> data[..taken] == data;
  }

  // ---------- Masking ----------

  /** Rotation right by 15 bits. */
  function Rotated(c: Word): (r: Word)
    ensures Restored(r) == c
  {
    var high, low := c / 0x8000, c % 0x8000;
    RotateParts(high, low);
    high + low * 0x2_0000
  }

  /** Rotation right by 17 bits, that is, left by 15. */
  function Restored(r: Word): Word {
    r / 0x2_0000 + (r % 0x2_0000) * 0x8000
  }

  lemma RotateParts(high: nat, low: nat)
    requires high < 0x2_0000 && low < 0x8000
    ensures (high + low * 0x2_0000) / 0x2_0000 == low && (high + low * 0x2_0000) % 0x2_0000 == high
  {
  }

  function Mask(c: Word): Word {
    (Rotated(c) + MASK_DELTA) % WORD
  }

  function Unmask(m: Word): Word {
    Restored((m + WORD - MASK_DELTA) % WORD)
  }

  lemma UnmaskInvertsMask(c: Word)
    ensures Unmask(Mask(c)) == c
  {
    AddBack(Rotated(c));
  }

  lemma AddBack(r: Word)
    ensures ((r + MASK_DELTA) % WORD + WORD - MASK_DELTA) % WORD == r
  {
  }

  lemma {:induction false} XorOnes(hi: nat, lo: nat, k: nat)
    requires lo < Pow2(k)
    ensures Xor(lo + Shl(hi, k), Pow2(k) - 1) == Pow2(k) - 1 - lo + Shl(hi, k)
  {
    if k == 0 {
      XorZero(hi);
    } else {
      var a, b := lo + Shl(hi, k), Pow2(k) - 1;
      XorOnes(hi, lo / 2, k - 1);
      Halves(lo, Shl(hi, k - 1), Pow2(k - 1), a, b);
      XorBits(a, b);
      FromHalves(Xor(a, b), lo, Shl(hi, k - 1), Pow2(k - 1));
    }
  }

  lemma Halves(lo: nat, m: nat, p: nat, a: nat, b: nat)
    requires p > 0 && a == lo + 2 * m && b == 2 * p - 1
    ensures a / 2 == lo / 2 + m && b / 2 == p - 1 && a % 2 == lo % 2 && b % 2 == 1
  {
  }

  lemma FromHalves(x: nat, lo: nat, m: nat, p: nat)
    requires p > 0 && x / 2 == p - 1 - lo / 2 + m && x % 2 == if lo % 2 == 1 then 0 else 1
    ensures x == 2 * p - 1 - lo + 2 * m
  {
  }

  /** Without a bit to feed back the register is shifted. */
  lemma ShiftStep(c: Word, half: Word)
    requires c == 2 * half
    ensures BitStep(c) == half
  {
    XorZero(half);
  }

  lemma {:induction false} ShiftsOut(a: nat, n: nat, m: nat)
    requires m <= n && Shl(a, n) < WORD
    ensures Shl(a, n - m) < WORD && Zeros(Shl(a, n), m) == Shl(a, n - m)
  {
    if m > 0 {
      ShiftsOut(a, n, m - 1);
      ShiftStep(Shl(a, n - m + 1), Shl(a, n - m));
    }
  }

  lemma CheckFeedback(c: Word, p: Word)
    requires c == 0x1FF_FFFF && p == POLYNOMIAL
    ensures BitStep(c) == 0x8209_C487
  {
    SizeOf24();
    ShlIs(0x82, 24);
    XorOnes(0x82, 0xF6_3B78, 24);
    XorCommutes(c / 2, p);
  }

  lemma SizeOf24()
    ensures Pow2(24) == 0x100_0000
  {
    assert Pow2(8) == 256;
    assert Pow2(16) == 65536;
  }

  lemma {:induction false} ShlIs(a: nat, k: nat)
    ensures Shl(a, k) == a * Pow2(k)
  {
    if k > 0 {
      ShlIs(a, k - 1);
    }
  }

  lemma Complement(a: Word)
    ensures XorWord(a, ONES) == ONES - a && XorWord(ONES, a) == ONES - a
  {
    WordSize();
    ShlIs(0, 32);
    XorOnes(0, a, 32);
    XorCommutes(a, ONES);
  }

  lemma OneByte(data: Bytes, c: Word, x: Word, y: Word, z: Word)
    requires |data| == 1 && XorWord(0, ONES) == c && XorWord(c, data[0]) == x && Zeros(x, 8) == y && XorWord(y, ONES) == z
    ensures Value(data) == z
  {
    assert Bytewise(c, data, 0) == c;
  }

  lemma CheckZeros(x: Word)
    requires x == 0xFFFF_FF80
    ensures Zeros(x, 8) == 0x8209_C487
  {
    assert Pow2(7) == 128;
    ShlIs(0x1FF_FFFF, 7);
    ShiftsOut(0x1FF_FFFF, 7, 7);
    CheckFeedback(0x1FF_FFFF, POLYNOMIAL);
  }

  lemma CheckMask(v: Word)
    requires v == 0x7DF6_3B78
    ensures Mask(v) == 0x1973_E6C4
  {
    assert v / 0x8000 == 0xFBEC && v % 0x8000 == 0x3B78;
  }

  /** The checksum of the byte 127, and what is stored for it. */
  lemma CheckValue(data: Bytes, v: Word)
    requires data == [0x7F] && v == 0x7DF6_3B78
    ensures Value(data) == v && Mask(v) == 0x1973_E6C4
  {
    Complement(0);
    Complement(0x7F);
    CheckZeros(0xFFFF_FF80);
    Complement(0x8209_C487);
    OneByte(data, ONES, 0xFFFF_FF80, 0x8209_C487, v);
    CheckMask(v);
  }

  lemma MaskInvertsUnmask(m: Word)
    ensures Mask(Unmask(m)) == m
  {
    var r := (m + WORD - MASK_DELTA) % WORD;
    RestoredBack(r);
    assert (r + MASK_DELTA) % WORD == m;
  }

  lemma RestoredBack(r: Word)
    ensures Rotated(Restored(r)) == r
  {
    var low, high := r / 0x2_0000, r % 0x2_0000;
    assert Restored(r) == low + high * 0x8000;
    assert Restored(r) / 0x8000 == high && Restored(r) % 0x8000 == low;
  }
}
