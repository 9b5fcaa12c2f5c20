/** Version edits as manifest records: what DecodeFrom makes of what EncodeTo wrote. */
module Edits {
  import opened Coding
  import opened Keys
  import Builder
  import Guards
  import Replay

  const LEVELS: nat := 7

  // ---------- Fields ----------

  /** A record is a list of fields, each with its tag; only some tags go with each shape. */
  datatype Field =
    | Text(tag: nat, text: Bytes)                     // comparator name
    | Number(tag: nat, number: nat)                   // log, previous log and next file number, last sequence
    | LevelKey(tag: nat, level: nat, key: Bytes)      // compaction pointer, deleted guard
    | LevelNumber(tag: nat, level: nat, number: nat)  // deleted file, sentinel file, deleted sentinel file
    | NewFile(tag: nat, level: nat, number: nat, size: nat, smallest: Bytes, largest: Bytes)
    | NewGuard(tag: nat, level: nat, key: Bytes)      // guard, complete guard; their files are not written

  predicate TagFits(f: Field) {
    match f
    case Text(t, _) => t == 1
    case Number(t, _) => t == 2 || t == 3 || t == 4 || t == 9
    case LevelKey(t, _, _) => t == 5 || t == 10
    case LevelNumber(t, _, _) => t == 6 || t == 13 || t == 14
    case NewFile(t, _, _, _, _, _) => t == 7 || t == 16
    case NewGuard(t, _, _) => t == 11 || t == 15
  }

  /** DecodeFrom takes a level only if there is one. */
  predicate InLevels(f: Field) {
    f.Text? || f.Number? || f.level < LEVELS
  }

  predicate Size32(n: nat) { n < 0x1_0000_0000 }

  predicate Size64(n: nat) { n < 0x1_0000_0000_0000_0000 }

  /** What the edit's own types allow. */
  predicate Proper(f: Field) {
    TagFits(f) && match f
    case Text(_, s) => Size32(|s|)
    case Number(_, n) => Size64(n)
    case LevelKey(_, l, k) => l < LEVELS && Size32(|k|)
    case LevelNumber(_, l, n) => l < LEVELS && Size64(n)
    case NewFile(_, l, n, size, a, b) => l < LEVELS && Size64(n) && Size64(size) && Size32(|a|) && Size32(|b|)
    case NewGuard(_, l, k) => l < LEVELS && Size32(|k|)
  }

  function Prefixed(s: Bytes): Bytes {
    Varint(|s|) + s
  }

  function Payload(f: Field): Bytes {
    match f
    case Text(_, s) => Prefixed(s)
    case Number(_, n) => Varint(n)
    case LevelKey(_, l, k) => Varint(l) + Prefixed(k)
    case LevelNumber(_, l, n) => Varint(l) + Varint(n)
    case NewFile(_, l, n, size, a, b) => Varint(l) + (Varint(n) + (Varint(size) + (Prefixed(a) + Prefixed(b))))
    case NewGuard(_, l, k) => Varint(l) + (Varint(0) + Prefixed(k))
  }

  function FieldBytes(f: Field): Bytes {
    Varint(f.tag) + Payload(f)
  }

  /** The first n parts, one after another. */
  function Joined(parts: seq<Bytes>, n: nat): Bytes
    requires n <= |parts|
  {
    if n == 0 then [] else Joined(parts, n - 1) + parts[n - 1]
  }

  function Join(parts: seq<Bytes>): Bytes {
    Joined(parts, |parts|)
  }

  function Each(fs: seq<Field>, bytes: Field -> Bytes): seq<Bytes> {
    seq(|fs|, i requires 0 <= i < |fs| => bytes(fs[i]))
  }

  function Parts(fs: seq<Field>): seq<Bytes> {
    Each(fs, FieldBytes)
  }

  /** The bytes of the fields. */
  function Encode(fs: seq<Field>): Bytes {
    Join(Parts(fs))
  }

  // ---------- Reading ----------

  /** A value and the place behind it. */
  datatype Got<T> = Fail | Got(value: T, next: nat)

  function Get(data: Bytes, p: nat, groups: nat, bound: nat): (r: Got<nat>)
    requires bound > 0
    ensures r.Got? ==> p < r.next <= |data|
  {
    var v := Read(data, p, groups);
    if v.None? then Fail else Got(v.value.0 % bound, v.value.1)
  }

  function Get32(data: Bytes, p: nat): Got<nat> { Get(data, p, 5, 0x1_0000_0000) }

  function Get64(data: Bytes, p: nat): Got<nat> { Get(data, p, 10, 0x1_0000_0000_0000_0000) }

  function GetLevel(data: Bytes, p: nat): Got<nat> {
    var r := Get32(data, p);
    if r.Fail? || r.value >= LEVELS then Fail else r
  }

  function GetPrefixed(data: Bytes, p: nat): Got<Bytes> {
    var r := Get32(data, p);
    if r.Fail? || r.next + r.value > |data| then Fail else Got(data[r.next..r.next + r.value], r.next + r.value)
  }

  lemma Got32(data: Bytes, p: nat, v: nat)
    requires Has(data, p, Varint(v)) && Size32(v)
    ensures Get32(data, p) == Got(v, p + |Varint(v)|)
  {
    FiveGroups(v);
    VarintRead(data, p, v, 5);
  }

  lemma TenGroups(v: nat)
    requires Size64(v)
    ensures v < Power128(10)
  {
    assert Power128(2) == 16384;
    assert Power128(4) == 0x1000_0000;
    assert Power128(6) == 0x400_0000_0000;
    assert Power128(8) == 0x100_0000_0000_0000;
  }

  lemma Got64(data: Bytes, p: nat, v: nat)
    requires Has(data, p, Varint(v)) && Size64(v)
    ensures Get64(data, p) == Got(v, p + |Varint(v)|)
  {
    TenGroups(v);
    VarintRead(data, p, v, 10);
  }

  lemma GotPrefixed(data: Bytes, p: nat, s: Bytes)
    requires Has(data, p, Prefixed(s)) && Size32(|s|)
    ensures GetPrefixed(data, p) == Got(s, p + |Prefixed(s)|)
  {
    HasParts(data, p, Varint(|s|), s);
    Got32(data, p, |s|);
  }

  function GetNumber(data: Bytes, p: nat, tag: nat): (r: Got<Field>)
    ensures r.Got? ==> p < r.next <= |data| && InLevels(r.value) && r.value.tag == tag
  {
    var n := Get64(data, p);
    if n.Fail? then Fail else Got(Number(tag, n.value), n.next)
  }

  function GetText(data: Bytes, p: nat, tag: nat): (r: Got<Field>)
    ensures r.Got? ==> p < r.next <= |data| && InLevels(r.value) && r.value.tag == tag
  {
    var s := GetPrefixed(data, p);
    if s.Fail? then Fail else Got(Text(tag, s.value), s.next)
  }

  function GetLevelKey(data: Bytes, p: nat, tag: nat): (r: Got<Field>)
    ensures r.Got? ==> p < r.next <= |data| && InLevels(r.value) && r.value.tag == tag
  {
    var l := GetLevel(data, p);
    if l.Fail? then Fail
    else
      var k := GetPrefixed(data, l.next);
      if k.Fail? then Fail else Got(LevelKey(tag, l.value, k.value), k.next)
  }

  function GetLevelNumber(data: Bytes, p: nat, tag: nat): (r: Got<Field>)
    ensures r.Got? ==> p < r.next <= |data| && InLevels(r.value) && r.value.tag == tag
  {
    var l := GetLevel(data, p);
    if l.Fail? then Fail
    else
      var n := Get64(data, l.next);
      if n.Fail? then Fail else Got(LevelNumber(tag, l.value, n.value), n.next)
  }

  function GetNewFile(data: Bytes, p: nat, tag: nat): (r: Got<Field>)
    ensures r.Got? ==> p < r.next <= |data| && InLevels(r.value) && r.value.tag == tag
  {
    var l := GetLevel(data, p);
    if l.Fail? then Fail
    else
      var n := Get64(data, l.next);
      if n.Fail? then Fail
      else
        var size := Get64(data, n.next);
        if size.Fail? then Fail
        else
          var a := GetPrefixed(data, size.next);
          if a.Fail? then Fail
          else
            var b := GetPrefixed(data, a.next);
            if b.Fail? then Fail else Got(NewFile(tag, l.value, n.value, size.value, a.value, b.value), b.next)
  }

  /** A guard without files, which is how EncodeTo writes every guard. */
  function GetNewGuard(data: Bytes, p: nat, tag: nat): (r: Got<Field>)
    ensures r.Got? ==> p < r.next <= |data| && InLevels(r.value) && r.value.tag == tag
  {
    var l := GetLevel(data, p);
    if l.Fail? then Fail
    else
      var segments := Get64(data, l.next);
      if segments.Fail? || segments.value > 0 then Fail
      else
        var k := GetPrefixed(data, segments.next);
        if k.Fail? then Fail else Got(NewGuard(tag, l.value, k.value), k.next)
  }

  function GetPayload(data: Bytes, p: nat, tag: nat): (r: Got<Field>)
    ensures r.Got? ==> p < r.next <= |data| && InLevels(r.value)
  {
    if tag == 1 then GetText(data, p, tag)
    else if tag == 2 || tag == 3 || tag == 4 || tag == 9 then GetNumber(data, p, tag)
    else if tag == 5 || tag == 10 then GetLevelKey(data, p, tag)
    else if tag == 6 || tag == 13 || tag == 14 then GetLevelNumber(data, p, tag)
    else if tag == 7 || tag == 16 then GetNewFile(data, p, tag)
    else if tag == 11 || tag == 15 then GetNewGuard(data, p, tag)
    else Fail
  }

  lemma LevelKeyRead(data: Bytes, p: nat, f: Field)
    requires Proper(f) && f.LevelKey? && Has(data, p, Payload(f))
    ensures GetLevelKey(data, p, f.tag) == Got(f, p + |Payload(f)|)
  {
    HasParts(data, p, Varint(f.level), Prefixed(f.key));
    Got32(data, p, f.level);
    GotPrefixed(data, p + |Varint(f.level)|, f.key);
  }

  lemma LevelNumberRead(data: Bytes, p: nat, f: Field)
    requires Proper(f) && f.LevelNumber? && Has(data, p, Payload(f))
    ensures GetLevelNumber(data, p, f.tag) == Got(f, p + |Payload(f)|)
  {
    HasParts(data, p, Varint(f.level), Varint(f.number));
    Got32(data, p, f.level);
    Got64(data, p + |Varint(f.level)|, f.number);
  }

  lemma NewGuardRead(data: Bytes, p: nat, f: Field)
    requires Proper(f) && f.NewGuard? && Has(data, p, Payload(f))
    ensures GetNewGuard(data, p, f.tag) == Got(f, p + |Payload(f)|)
  {
    var q := p + |Varint(f.level)|;
    HasParts(data, p, Varint(f.level), Varint(0) + Prefixed(f.key));
    HasParts(data, q, Varint(0), Prefixed(f.key));
    Got32(data, p, f.level);
    Got64(data, q, 0);
    GotPrefixed(data, q + |Varint(0)|, f.key);
  }

  lemma NewFileRead(data: Bytes, p: nat, f: Field)
    requires Proper(f) && f.NewFile? && Has(data, p, Payload(f))
    ensures GetNewFile(data, p, f.tag) == Got(f, p + |Payload(f)|)
  {
    var l, n, size := Varint(f.level), Varint(f.number), Varint(f.size);
    var a, b := Prefixed(f.smallest), Prefixed(f.largest);
    HasFive(data, p, l, n, size, a, b);
    NewFileParts(data, p, f, l, n, size, a, b);
  }

  lemma NewFileParts(data: Bytes, p: nat, f: Field, l: Bytes, n: Bytes, size: Bytes, a: Bytes, b: Bytes)
    requires Proper(f) && f.NewFile? && l == Varint(f.level) && n == Varint(f.number) && size == Varint(f.size)
    requires a == Prefixed(f.smallest) && b == Prefixed(f.largest)
    requires Has(data, p, l) && Has(data, p + |l|, n) && Has(data, p + |l| + |n|, size)
    requires Has(data, p + |l| + |n| + |size|, a) && Has(data, p + |l| + |n| + |size| + |a|, b)
    ensures GetNewFile(data, p, f.tag) == Got(f, p + |l| + |n| + |size| + |a| + |b|)
  {
    var q := p + |l|;
    var r := q + |n|;
    var s := r + |size|;
    var t := s + |a|;
    Got32(data, p, f.level);
    Got64(data, q, f.number);
    Got64(data, r, f.size);
    GotPrefixed(data, s, f.smallest);
    GotPrefixed(data, t, f.largest);
    NewFileFrom(data, p, q, r, s, t, t + |b|, f);
  }

  lemma NewFileFrom(data: Bytes, p: nat, q: nat, r: nat, s: nat, t: nat, u: nat, f: Field)
    requires f.NewFile? && GetLevel(data, p) == Got(f.level, q)
    requires Get64(data, q) == Got(f.number, r) && Get64(data, r) == Got(f.size, s)
    requires GetPrefixed(data, s) == Got(f.smallest, t) && GetPrefixed(data, t) == Got(f.largest, u)
    ensures GetNewFile(data, p, f.tag) == Got(f, u)
  {
  }

  lemma PayloadRead(data: Bytes, p: nat, f: Field)
    requires Proper(f) && Has(data, p, Payload(f))
    ensures GetPayload(data, p, f.tag) == Got(f, p + |Payload(f)|)
  {
    match f
    case Text(_, s) => GotPrefixed(data, p, s);
    case Number(_, n) => Got64(data, p, n);
    case LevelKey(_, _, _) => LevelKeyRead(data, p, f);
    case LevelNumber(_, _, _) => LevelNumberRead(data, p, f);
    case NewFile(_, _, _, _, _, _) => NewFileRead(data, p, f);
    case NewGuard(_, _, _) => NewGuardRead(data, p, f);
  }

  // ---------- The edit's members ----------

  datatype Meta = Meta(number: nat, size: nat, smallest: Bytes, largest: Bytes)

  /** A guard knows its level; a new one has level -1. */
  datatype Guard = Guard(level: int, key: Bytes)

  /** A std::set of pairs is the list of its elements in order. */
  datatype VersionEdit = VersionEdit(
    comparator: Option<Bytes>,
    logNumber: Option<nat>,
    prevLogNumber: Option<nat>,
    nextFile: Option<nat>,
    lastSequence: Option<nat>,
    pointers: seq<(nat, Bytes)>,
    deletedFiles: seq<(nat, nat)>,
    newFiles: seq<(nat, Meta)>,
    newGuards: seq<seq<Guard>>,
    newComplete: seq<seq<Guard>>,
    sentinelNumbers: seq<seq<nat>>,
    deletedSentinels: seq<(nat, nat)>)

  const NONE: seq<seq<Guard>> := [[], [], [], [], [], [], []]

  const FRESH: VersionEdit :=
    VersionEdit(None, None, None, None, None, [], [], [], NONE, NONE, [[], [], [], [], [], [], []], [])

  predicate Shaped(e: VersionEdit) {
    |e.newGuards| == |e.newComplete| == |e.sentinelNumbers| == LEVELS
  }

  predicate PairBefore(a: (nat, nat), b: (nat, nat)) {
    a.0 < b.0 || (a.0 == b.0 && a.1 < b.1)
  }

  predicate PairsSorted(ps: seq<(nat, nat)>) {
    forall i, j :: 0 <= i < j < |ps| ==> PairBefore(ps[i], ps[j])
  }

  /** std::set::insert. */
  function InsertPair(ps: seq<(nat, nat)>, x: (nat, nat)): seq<(nat, nat)> {
    if |ps| == 0 || PairBefore(x, ps[0]) then [x] + ps
    else if ps[0] == x then ps
    else [ps[0]] + InsertPair(ps[1..], x)
  }

  // ---------- EncodeTo ----------

  function NumberField(tag: nat, n: Option<nat>): seq<Field> {
    if n.Some? then [Number(tag, n.value)] else []
  }

  function Scalars(e: VersionEdit): seq<Field> {
    (if e.comparator.Some? then [Text(1, e.comparator.value)] else [])
    + NumberField(2, e.logNumber) + NumberField(9, e.prevLogNumber) + NumberField(3, e.nextFile)
    + NumberField(4, e.lastSequence)
  }

  function Pointers(ps: seq<(nat, Bytes)>): seq<Field> {
    seq(|ps|, i requires 0 <= i < |ps| => LevelKey(5, ps[i].0, ps[i].1))
  }

  function Pairs(tag: nat, ps: seq<(nat, nat)>): seq<Field> {
    seq(|ps|, i requires 0 <= i < |ps| => LevelNumber(tag, ps[i].0, ps[i].1))
  }

  function Files(fs: seq<(nat, Meta)>): seq<Field> {
    seq(|fs|, i requires 0 <= i < |fs| =>
        NewFile(7, fs[i].0, fs[i].1.number, fs[i].1.size, fs[i].1.smallest, fs[i].1.largest))
  }

  /** The level written is the guard's own, as an unsigned number. */
  function GuardFields(tag: nat, gs: seq<Guard>): seq<Field> {
    seq(|gs|, i requires 0 <= i < |gs| => NewGuard(tag, gs[i].level % 0x1_0000_0000, gs[i].key))
  }

  /** The guards of the first n levels. */
  function AllGuards(tag: nat, levels: seq<seq<Guard>>, n: nat): seq<Field>
    requires n <= |levels|
  {
    if n == 0 then [] else AllGuards(tag, levels, n - 1) + GuardFields(tag, levels[n - 1])
  }

  function Fields(e: VersionEdit): seq<Field> {
    Scalars(e) + Pointers(e.pointers) + Pairs(6, e.deletedFiles) + Files(e.newFiles)
    + AllGuards(11, e.newGuards, |e.newGuards|) + AllGuards(15, e.newComplete, |e.newComplete|)
    + Pairs(14, e.deletedSentinels)
  }

  lemma OneField(f: Field)
    ensures Encode([f]) == FieldBytes(f)
  {
    assert Parts([f]) == [FieldBytes(f)];
    assert Joined(Parts([f]), 0) == [];
  }

  lemma {:induction false} EncodeAppend(a: seq<Field>, b: seq<Field>, n: nat)
    requires n <= |b|
    ensures Joined(Parts(a + b), |a| + n) == Encode(a) + Joined(Parts(b), n)
  {
    assert Parts(a + b) == Parts(a) + Parts(b);
    if n == 0 {
      JoinedPrefix(Parts(a), Parts(b), |a|);
      assert Encode(a) + Joined(Parts(b), 0) == Encode(a);
    } else {
      EncodeAppend(a, b, n - 1);
    }
  }

  lemma EncodeThen(a: seq<Field>, f: Field, data: Bytes, part: Bytes)
    requires Encode(a) == data && FieldBytes(f) == part
    ensures Encode(a + [f]) == data + part
  {
    EncodeAppend(a, [f], 1);
    OneField(f);
    assert Joined(Parts([f]), 1) == Encode([f]);
    assert |Parts(a + [f])| == |a| + 1;
  }

  lemma {:induction false} OneLevelGuards(tag: nat, levels: seq<seq<Guard>>, k: nat, n: nat)
    requires n <= |levels| && k < |levels| && forall i :: 0 <= i < n && i != k ==> levels[i] == []
    ensures AllGuards(tag, levels, n) == if k < n then GuardFields(tag, levels[k]) else []
  {
    if n > 0 {
      OneLevelGuards(tag, levels, k, n - 1);
      assert n - 1 != k ==> GuardFields(tag, levels[n - 1]) == [];
    }
  }

  /** An edit with one entry of each kind: its fields, in the order written. */
  lemma OneOfEach(e: VersionEdit)
    requires e == VersionEdit(Some([67]), Some(1), Some(2), Some(300), Some(4), [(1, [68])], [(2, 5)],
                              [(3, Meta(6, 7, [69], [70]))], NONE[4 := [Guard(4, [71])]], NONE[5 := [Guard(5, [72])]],
                              FRESH.sentinelNumbers, [(6, 8)])
    ensures Fields(e)
            == [Text(1, [67])] + [Number(2, 1)] + [Number(9, 2)] + [Number(3, 300)] + [Number(4, 4)]
               + [LevelKey(5, 1, [68])] + [LevelNumber(6, 2, 5)] + [NewFile(7, 3, 6, 7, [69], [70])]
               + [NewGuard(11, 4, [71])] + [NewGuard(15, 5, [72])] + [LevelNumber(14, 6, 8)]
  {
    OneLevelGuards(11, e.newGuards, 4, 7);
    OneLevelGuards(15, e.newComplete, 5, 7);
    assert Pointers(e.pointers) == [LevelKey(5, 1, [68])];
    assert Pairs(6, e.deletedFiles) == [LevelNumber(6, 2, 5)];
    assert Files(e.newFiles) == [NewFile(7, 3, 6, 7, [69], [70])];
    assert GuardFields(11, e.newGuards[4]) == [NewGuard(11, 4, [71])];
    assert GuardFields(15, e.newComplete[5]) == [NewGuard(15, 5, [72])];
    assert Pairs(14, e.deletedSentinels) == [LevelNumber(14, 6, 8)];
  }

  lemma OneOfEachBytes()
    ensures FieldBytes(Text(1, [67])) == [1, 1, 67]
    ensures FieldBytes(Number(3, 300)) == [3, 0xAC, 0x02]
    ensures FieldBytes(LevelKey(5, 1, [68])) == [5, 1, 1, 68]
    ensures FieldBytes(LevelNumber(6, 2, 5)) == [6, 2, 5]
    ensures FieldBytes(NewFile(7, 3, 6, 7, [69], [70])) == [7, 3, 6, 7, 1, 69, 1, 70]
    ensures FieldBytes(NewGuard(11, 4, [71])) == [11, 4, 0, 1, 71]
    ensures FieldBytes(NewGuard(15, 5, [72])) == [15, 5, 0, 1, 72]
    ensures FieldBytes(LevelNumber(14, 6, 8)) == [14, 6, 8]
  {
    CheckVarint(300, [0xAC, 0x02]);
  }

  /** That edit's record, byte for byte. */
  lemma CheckRecord(e: VersionEdit)
    requires e == VersionEdit(Some([67]), Some(1), Some(2), Some(300), Some(4), [(1, [68])], [(2, 5)],
                              [(3, Meta(6, 7, [69], [70]))], NONE[4 := [Guard(4, [71])]], NONE[5 := [Guard(5, [72])]],
                              FRESH.sentinelNumbers, [(6, 8)])
    ensures Encode(Fields(e))
            == [1, 1, 67] + [2, 1] + [9, 2] + [3, 0xAC, 0x02] + [4, 4] + [5, 1, 1, 68] + [6, 2, 5]
               + [7, 3, 6, 7, 1, 69, 1, 70] + [11, 4, 0, 1, 71] + [15, 5, 0, 1, 72] + [14, 6, 8]
  {
    OneOfEach(e);
    OneOfEachBytes();
    var a := [Text(1, [67])];
    OneField(a[0]);
    var b := a + [Number(2, 1)] + [Number(9, 2)];
    EncodeThen(a, Number(2, 1), [1, 1, 67], [2, 1]);
    EncodeThen(a + [Number(2, 1)], Number(9, 2), [1, 1, 67] + [2, 1], [9, 2]);
    var c := [1, 1, 67] + [2, 1] + [9, 2];
    EncodeThen(b, Number(3, 300), c, [3, 0xAC, 0x02]);
    var d := b + [Number(3, 300)] + [Number(4, 4)];
    EncodeThen(b + [Number(3, 300)], Number(4, 4), c + [3, 0xAC, 0x02], [4, 4]);
    var f := c + [3, 0xAC, 0x02] + [4, 4];
    CheckRest(d, f);
  }

  lemma CheckRest(d: seq<Field>, f: Bytes)
    requires Encode(d) == f
    ensures Encode(d + [LevelKey(5, 1, [68])] + [LevelNumber(6, 2, 5)] + [NewFile(7, 3, 6, 7, [69], [70])]
                   + [NewGuard(11, 4, [71])] + [NewGuard(15, 5, [72])] + [LevelNumber(14, 6, 8)])
            == f + [5, 1, 1, 68] + [6, 2, 5] + [7, 3, 6, 7, 1, 69, 1, 70] + [11, 4, 0, 1, 71] + [15, 5, 0, 1, 72]
               + [14, 6, 8]
  {
    OneOfEachBytes();
    EncodeThen(d, LevelKey(5, 1, [68]), f, [5, 1, 1, 68]);
    var d1, f1 := d + [LevelKey(5, 1, [68])], f + [5, 1, 1, 68];
    EncodeThen(d1, LevelNumber(6, 2, 5), f1, [6, 2, 5]);
    var d2, f2 := d1 + [LevelNumber(6, 2, 5)], f1 + [6, 2, 5];
    EncodeThen(d2, NewFile(7, 3, 6, 7, [69], [70]), f2, [7, 3, 6, 7, 1, 69, 1, 70]);
    var d3, f3 := d2 + [NewFile(7, 3, 6, 7, [69], [70])], f2 + [7, 3, 6, 7, 1, 69, 1, 70];
    EncodeThen(d3, NewGuard(11, 4, [71]), f3, [11, 4, 0, 1, 71]);
    var d4, f4 := d3 + [NewGuard(11, 4, [71])], f3 + [11, 4, 0, 1, 71];
    EncodeThen(d4, NewGuard(15, 5, [72]), f4, [15, 5, 0, 1, 72]);
    EncodeThen(d4 + [NewGuard(15, 5, [72])], LevelNumber(14, 6, 8), f4 + [15, 5, 0, 1, 72], [14, 6, 8]);
  }

  lemma {:induction false} JoinedPrefix(parts: seq<Bytes>, more: seq<Bytes>, n: nat)
    requires n <= |parts|
    ensures Joined(parts + more, n) == Joined(parts, n)
  {
    if n > 0 {
      JoinedPrefix(parts, more, n - 1);
    }
  }

  lemma JoinOneMore(parts: seq<Bytes>, part: Bytes)
    ensures Join(parts + [part]) == Join(parts) + part
  {
    JoinedPrefix(parts, [part], |parts|);
  }

  method Put(dst: Bytes, ghost before: seq<Bytes>, parts: seq<Bytes>) returns (dst': Bytes)
    requires dst == Join(before)
    ensures dst' == Join(before + parts)
  {
    dst' := dst;
    assert before + parts[..0] == before;
    for i := 0 to |parts|
      invariant dst' == Join(before + parts[..i])
    {
      JoinOneMore(before + parts[..i], parts[i]);
      assert before + parts[..i + 1] == before + parts[..i] + [parts[i]];
      dst' := dst' + parts[i];
    }
    assert parts[..|parts|] == parts;
  }

  method PutSections(a: seq<Bytes>, b: seq<Bytes>, c: seq<Bytes>, d: seq<Bytes>, e: seq<Bytes>, f: seq<Bytes>,
                     g: seq<Bytes>) returns (dst: Bytes)
    ensures dst == Join(a + b + c + d + e + f + g)
  {
    dst := Put([], [], a);
    assert [] + a == a;
    dst := Put(dst, a, b);
    dst := Put(dst, a + b, c);
    dst := Put(dst, a + b + c, d);
    dst := Put(dst, a + b + c + d, e);
    dst := Put(dst, a + b + c + d + e, f);
    dst := Put(dst, a + b + c + d + e + f, g);
  }

  lemma EachAppend(a: seq<Field>, b: seq<Field>, bytes: Field -> Bytes)
    ensures Each(a + b, bytes) == Each(a, bytes) + Each(b, bytes)
  {
  }

  lemma EachOfSections(a: seq<Field>, b: seq<Field>, c: seq<Field>, d: seq<Field>, e: seq<Field>, f: seq<Field>,
                       g: seq<Field>, h: Field -> Bytes)
    ensures Each(a + b + c + d + e + f + g, h)
            == Each(a, h) + Each(b, h) + Each(c, h) + Each(d, h) + Each(e, h) + Each(f, h) + Each(g, h)
  {
    EachAppend(a, b, h);
    EachAppend(a + b, c, h);
    EachAppend(a + b + c, d, h);
    EachAppend(a + b + c + d, e, h);
    EachAppend(a + b + c + d + e, f, h);
    EachAppend(a + b + c + d + e + f, g, h);
  }

  /** The members one after another, as fields. */
  method EncodeTo(e: VersionEdit) returns (dst: Bytes)
    ensures dst == Encode(Fields(e))
  {
    dst := PutFields(Scalars(e), Pointers(e.pointers), Pairs(6, e.deletedFiles), Files(e.newFiles),
                     AllGuards(11, e.newGuards, |e.newGuards|), AllGuards(15, e.newComplete, |e.newComplete|),
                     Pairs(14, e.deletedSentinels));
  }

  method PutFields(a: seq<Field>, b: seq<Field>, c: seq<Field>, d: seq<Field>, e: seq<Field>, f: seq<Field>,
                   g: seq<Field>) returns (dst: Bytes)
    ensures dst == Encode(a + b + c + d + e + f + g)
  {
    EachOfSections(a, b, c, d, e, f, g, FieldBytes);
    dst := PutSections(Parts(a), Parts(b), Parts(c), Parts(d), Parts(e), Parts(f), Parts(g));
  }

  // ---------- DecodeFrom ----------

  /** What one field does to the edit. Deleted guards are read and not kept. */
  function Fill(e: VersionEdit, f: Field): (r: VersionEdit)
    requires Shaped(e) && InLevels(f)
    ensures Shaped(r)
  {
    match f
    case Text(_, s) => e.(comparator := Some(s))
    case Number(t, n) =>
      if t == 2 then e.(logNumber := Some(n))
      else if t == 9 then e.(prevLogNumber := Some(n))
      else if t == 3 then e.(nextFile := Some(n))
      else e.(lastSequence := Some(n))
    case LevelKey(t, l, k) => if t == 5 then e.(pointers := e.pointers + [(l, k)]) else e
    case LevelNumber(t, l, n) =>
      if t == 6 then e.(deletedFiles := InsertPair(e.deletedFiles, (l, n)))
      else if t == 14 then e.(deletedSentinels := InsertPair(e.deletedSentinels, (l, n)))
      else e.(sentinelNumbers := e.sentinelNumbers[l := e.sentinelNumbers[l] + [n]])
    case NewFile(_, l, n, size, a, b) => e.(newFiles := e.newFiles + [(l, Meta(n, size, a, b))])
    case NewGuard(t, l, k) =>
      if t == 11 then e.(newGuards := AddAt(e.newGuards, l, Guard(l, k)))
      else e.(newComplete := AddAt(e.newComplete, l, Guard(l, k)))
  }

  function AddAt(levels: seq<seq<Guard>>, l: nat, g: Guard): (r: seq<seq<Guard>>)
    requires l < |levels|
    ensures |r| == |levels|
  {
    levels[l := levels[l] + [g]]
  }

  /** What a turn of the decoding loop finds at a place. */
  datatype Outcome = NoTag | Broken | One(field: Field, next: nat)

  function GetField(data: Bytes, p: nat): (r: Outcome)
    ensures r.One? ==> p < r.next <= |data| && InLevels(r.field)
  {
    var tag := Get32(data, p);
    if tag.Fail? then NoTag
    else
      var field := GetPayload(data, tag.next, tag.value);
      if field.Fail? then Broken else One(field.value, field.next)
  }

  type Getter = nat -> Outcome

  ghost predicate Advances(get: Getter, size: nat) {
    forall p: nat :: get(p).One? ==> p < get(p).next <= size && InLevels(get(p).field)
  }

  ghost function GetterOf(data: Bytes): (get: Getter)
    ensures Advances(get, |data|)
  {
    (p: nat) => GetField(data, p)
  }

  /** Fields until no tag can be read; anything left over is an error. */
  ghost function Decode(get: Getter, size: nat, p: nat, e: VersionEdit): (r: Option<VersionEdit>)
    requires Advances(get, size) && p <= size && Shaped(e)
    ensures r.Some? ==> Shaped(r.value)
    decreases size - p
  {
    match get(p)
    case NoTag => if p < size then None else Some(e)
    case Broken => None
    case One(f, next) => Decode(get, size, next, Fill(e, f))
  }

  ghost function Decoded(data: Bytes): Option<VersionEdit> {
    Decode(GetterOf(data), |data|, 0, FRESH)
  }

  ghost predicate Look(p: nat) { true }

  /** Into a fresh edit, as recovery does. */
  method DecodeFrom(data: Bytes) returns (r: Option<VersionEdit>)
    ensures r == Decoded(data)
  {
    r := DecodeLoop(data, GetterOf(data));
  }

  method DecodeLoop(data: Bytes, ghost get: Getter) returns (r: Option<VersionEdit>)
    requires Advances(get, |data|) && forall p: nat {:trigger Look(p)} :: get(p) == GetField(data, p)
    ensures r == Decode(get, |data|, 0, FRESH)
  {
    var e: VersionEdit, p: nat := FRESH, 0;
    while true
      invariant Shaped(e) && p <= |data| && Decode(get, |data|, 0, FRESH) == Decode(get, |data|, p, e)
      decreases |data| - p
    {
      assert Look(p);
      var tag := Get32(data, p);
      if tag.Fail? {
        return if p < |data| then None else Some(e);
      }
      var field := GetPayload(data, tag.next, tag.value);
      if field.Fail? {
        return None;
      }
      e, p := Fill(e, field.value), field.next;
    }
  }

  // ---------- Fields read back ----------

  lemma {:induction false} PartAt(parts: seq<Bytes>, n: nat, i: nat)
    requires i < n <= |parts|
    ensures Has(Joined(parts, n), |Joined(parts, i)|, parts[i])
  {
    if i == n - 1 {
      HasAtEnd(Joined(parts, i), parts[i]);
    } else {
      PartAt(parts, n - 1, i);
      HasExtended(Joined(parts, n - 1), |Joined(parts, i)|, parts[i], parts[n - 1]);
    }
  }

  lemma FieldRead(data: Bytes, p: nat, f: Field)
    requires Proper(f) && Has(data, p, FieldBytes(f))
    ensures GetField(data, p) == One(f, p + |FieldBytes(f)|)
  {
    HasParts(data, p, Varint(f.tag), Payload(f));
    Got32(data, p, f.tag);
    PayloadRead(data, p + |Varint(f.tag)|, f);
  }

  ghost predicate FieldBetween(get: Getter, size: nat, fs: seq<Field>, offs: seq<nat>, j: nat)
    requires j < |fs| && |offs| == |fs| + 1
  {
    offs[j + 1] <= size && get(offs[j]) == One(fs[j], offs[j + 1])
  }

  ghost predicate AllInLevels(fs: seq<Field>) {
    forall i :: 0 <= i < |fs| ==> InLevels(fs[i])
  }

  /** The edit after the first n fields. */
  function Filled(e: VersionEdit, fs: seq<Field>, n: nat): (r: VersionEdit)
    requires Shaped(e) && n <= |fs| && forall i :: 0 <= i < n ==> InLevels(fs[i])
    ensures Shaped(r)
  {
    if n == 0 then e else Fill(Filled(e, fs, n - 1), fs[n - 1])
  }

  /** The fields are read one after another, from the places offs on. */
  lemma {:induction false} DecodesFrom(get: Getter, size: nat, fs: seq<Field>, offs: seq<nat>, i: nat)
    requires Advances(get, size) && get(size).NoTag? && |offs| == |fs| + 1 && offs[|fs|] == size && i <= |fs|
    requires AllInLevels(fs) && forall j :: 0 <= j < |fs| ==> FieldBetween(get, size, fs, offs, j)
    ensures offs[i] <= size && Decode(get, size, offs[i], Filled(FRESH, fs, i)) == Some(Filled(FRESH, fs, |fs|))
    decreases |fs| - i
  {
    if i < |fs| {
      DecodesFrom(get, size, fs, offs, i + 1);
      assert FieldBetween(get, size, fs, offs, i);
    }
  }

  lemma {:induction false} JoinedGrows(parts: seq<Bytes>, i: nat, n: nat)
    requires i <= n <= |parts|
    ensures |Joined(parts, i)| <= |Joined(parts, n)|
  {
    if i < n {
      JoinedGrows(parts, i, n - 1);
    }
  }

  function Offsets(parts: seq<Bytes>): seq<nat> {
    seq(|parts| + 1, i requires 0 <= i <= |parts| => |Joined(parts, i)|)
  }

  lemma FieldAt(fs: seq<Field>, i: nat)
    requires i < |fs| && Proper(fs[i])
    ensures FieldBetween(GetterOf(Encode(fs)), |Encode(fs)|, fs, Offsets(Parts(fs)), i)
  {
    PlacedAt(fs, i);
    FieldRead(Encode(fs), Offsets(Parts(fs))[i], fs[i]);
  }

  lemma PlacedAt(fs: seq<Field>, i: nat)
    requires i < |fs|
    ensures var offs := Offsets(Parts(fs));
            Has(Encode(fs), offs[i], FieldBytes(fs[i])) && offs[i + 1] == offs[i] + |FieldBytes(fs[i])| <= |Encode(fs)|
  {
    JoinedGrows(Parts(fs), i + 1, |fs|);
    PartAt(Parts(fs), |fs|, i);
  }

  lemma NothingLeft(data: Bytes)
    ensures GetterOf(data)(|data|).NoTag?
  {
  }

  /** The fields of a record are read back, each once and in order. */
  lemma FieldsReadBack(fs: seq<Field>)
    requires forall j :: 0 <= j < |fs| ==> Proper(fs[j])
    ensures AllInLevels(fs) && Decoded(Encode(fs)) == Some(Filled(FRESH, fs, |fs|))
  {
    var data, offs := Encode(fs), Offsets(Parts(fs));
    forall j | 0 <= j < |fs| ensures FieldBetween(GetterOf(data), |data|, fs, offs, j) {
      FieldAt(fs, j);
    }
    NothingLeft(data);
    DecodesFrom(GetterOf(data), |data|, fs, offs, 0);
  }

  // ---------- Whole edits read back ----------

  /** What the members' types allow. */
  predicate Storable(e: VersionEdit) {
    && Shaped(e) && (e.comparator.Some? ==> Size32(|e.comparator.value|))
    && (e.logNumber.Some? ==> Size64(e.logNumber.value)) && (e.prevLogNumber.Some? ==> Size64(e.prevLogNumber.value))
    && (e.nextFile.Some? ==> Size64(e.nextFile.value)) && (e.lastSequence.Some? ==> Size64(e.lastSequence.value))
    && (forall p :: p in e.pointers ==> p.0 < LEVELS && Size32(|p.1|))
    && PairsSorted(e.deletedFiles) && (forall p :: p in e.deletedFiles ==> p.0 < LEVELS && Size64(p.1))
    && (forall p :: p in e.newFiles ==>
          && p.0 < LEVELS && Size64(p.1.number) && Size64(p.1.size)
          && Size32(|p.1.smallest|) && Size32(|p.1.largest|))
    && PairsSorted(e.deletedSentinels) && (forall p :: p in e.deletedSentinels ==> p.0 < LEVELS && Size64(p.1))
    && KeysFit(e.newGuards) && KeysFit(e.newComplete)
  }

  predicate KeysFit(levels: seq<seq<Guard>>) {
    forall k, i :: 0 <= k < |levels| && 0 <= i < |levels[k]| ==> Size32(|levels[k][i].key|)
  }

  /** Every guard's own level is the level it is listed under. */
  predicate LevelsAgree(levels: seq<seq<Guard>>) {
    forall k, i :: 0 <= k < |levels| && 0 <= i < |levels[k]| ==> levels[k][i].level == k
  }

  /** The guards of each level are its own, and no sentinel file numbers are listed, which are never written. */
  predicate Faithful(e: VersionEdit) {
    && LevelsAgree(e.newGuards) && LevelsAgree(e.newComplete)
    && forall l :: 0 <= l < |e.sentinelNumbers| ==> e.sentinelNumbers[l] == []
  }

  lemma {:induction false} FilledAppend(e: VersionEdit, a: seq<Field>, b: seq<Field>, n: nat)
    requires Shaped(e) && AllInLevels(a) && AllInLevels(b) && n <= |b|
    ensures AllInLevels(a + b) && Filled(e, a + b, |a| + n) == Filled(Filled(e, a, |a|), b, n)
  {
    if n == 0 {
      FilledPrefix(e, a, b, |a|);
    } else {
      FilledAppend(e, a, b, n - 1);
      assert (a + b)[|a| + n - 1] == b[n - 1];
    }
  }

  lemma {:induction false} FilledPrefix(e: VersionEdit, a: seq<Field>, b: seq<Field>, n: nat)
    requires Shaped(e) && AllInLevels(a) && AllInLevels(b) && n <= |a|
    ensures Filled(e, a + b, n) == Filled(e, a, n)
  {
    if n > 0 {
      FilledPrefix(e, a, b, n - 1);
    }
  }

  lemma {:induction false} PointersFill(e: VersionEdit, ps: seq<(nat, Bytes)>, n: nat)
    requires Shaped(e) && n <= |ps| && AllInLevels(Pointers(ps))
    ensures Filled(e, Pointers(ps), n) == e.(pointers := e.pointers + ps[..n])
  {
    if n > 0 {
      PointersFill(e, ps, n - 1);
      assert ps[..n] == ps[..n - 1] + [ps[n - 1]];
      assert (ps[n - 1].0, ps[n - 1].1) == ps[n - 1];
      assert e.pointers + ps[..n] == e.pointers + ps[..n - 1] + [ps[n - 1]];
    } else {
      assert e.pointers + [] == e.pointers;
    }
  }

  lemma {:induction false} FilesFill(e: VersionEdit, fs: seq<(nat, Meta)>, n: nat)
    requires Shaped(e) && n <= |fs| && AllInLevels(Files(fs))
    ensures Filled(e, Files(fs), n) == e.(newFiles := e.newFiles + fs[..n])
  {
    if n > 0 {
      FilesFill(e, fs, n - 1);
      var f := fs[n - 1];
      assert f == (f.0, Meta(f.1.number, f.1.size, f.1.smallest, f.1.largest));
      assert e.newFiles + fs[..n] == e.newFiles + fs[..n - 1] + [f];
    } else {
      assert e.newFiles + [] == e.newFiles;
    }
  }

  /** Inserting in order appends. */
  lemma {:induction false} InsertsLast(ps: seq<(nat, nat)>, x: (nat, nat))
    requires forall i :: 0 <= i < |ps| ==> PairBefore(ps[i], x)
    ensures InsertPair(ps, x) == ps + [x]
  {
    if |ps| > 0 {
      InsertsLast(ps[1..], x);
      assert ps == [ps[0]] + ps[1..];
    }
  }

  lemma {:induction false} DeletedFill(e: VersionEdit, ps: seq<(nat, nat)>, n: nat)
    requires Shaped(e) && n <= |ps| && PairsSorted(ps) && AllInLevels(Pairs(6, ps)) && e.deletedFiles == []
    ensures Filled(e, Pairs(6, ps), n) == e.(deletedFiles := ps[..n])
  {
    if n > 0 {
      DeletedFill(e, ps, n - 1);
      InsertsLast(ps[..n - 1], ps[n - 1]);
      assert (ps[n - 1].0, ps[n - 1].1) == ps[n - 1];
      assert ps[..n] == ps[..n - 1] + [ps[n - 1]];
    }
  }

  lemma {:induction false} SentinelsFill(e: VersionEdit, ps: seq<(nat, nat)>, n: nat)
    requires Shaped(e) && n <= |ps| && PairsSorted(ps) && AllInLevels(Pairs(14, ps)) && e.deletedSentinels == []
    ensures Filled(e, Pairs(14, ps), n) == e.(deletedSentinels := ps[..n])
  {
    if n > 0 {
      SentinelsFill(e, ps, n - 1);
      InsertsLast(ps[..n - 1], ps[n - 1]);
      assert (ps[n - 1].0, ps[n - 1].1) == ps[n - 1];
      assert ps[..n] == ps[..n - 1] + [ps[n - 1]];
    }
  }

  lemma {:induction false} LevelFills(e: VersionEdit, tag: nat, gs: seq<Guard>, k: nat, n: nat)
    requires Shaped(e) && (tag == 11 || tag == 15) && k < LEVELS && n <= |gs| && AllInLevels(GuardFields(tag, gs))
    requires forall i :: 0 <= i < |gs| ==> gs[i].level == k
    ensures Filled(e, GuardFields(tag, gs), n)
            == if tag == 11 then e.(newGuards := e.newGuards[k := e.newGuards[k] + gs[..n]])
               else e.(newComplete := e.newComplete[k := e.newComplete[k] + gs[..n]])
  {
    if n > 0 {
      LevelFills(e, tag, gs, k, n - 1);
      assert gs[n - 1] == Guard(k, gs[n - 1].key);
      assert gs[..n] == gs[..n - 1] + [gs[n - 1]];
      assert e.newGuards[k] + gs[..n] == e.newGuards[k] + gs[..n - 1] + [gs[n - 1]];
      assert e.newComplete[k] + gs[..n] == e.newComplete[k] + gs[..n - 1] + [gs[n - 1]];
    } else {
      assert e.newGuards[k] + [] == e.newGuards[k] && e.newComplete[k] + [] == e.newComplete[k];
    }
  }

  function Fold(e: VersionEdit, fs: seq<Field>): (r: VersionEdit)
    requires Shaped(e) && AllInLevels(fs)
    ensures Shaped(r)
  {
    Filled(e, fs, |fs|)
  }

  lemma FoldAppend(e: VersionEdit, a: seq<Field>, b: seq<Field>)
    requires Shaped(e) && AllInLevels(a) && AllInLevels(b)
    ensures AllInLevels(a + b) && Fold(e, a + b) == Fold(Fold(e, a), b)
  {
    FilledAppend(e, a, b, |b|);
  }

  lemma GuardsStep(tag: nat, levels: seq<seq<Guard>>, n: nat)
    requires n < |levels| <= LEVELS && LevelsAgree(levels)
    ensures AllInLevels(GuardFields(tag, levels[n]))
  {
    var gs := levels[n];
    forall i | 0 <= i < |gs| ensures InLevels(GuardFields(tag, gs)[i]) {
      assert levels[n][i].level == n;
    }
  }

  lemma {:induction false} AllGuardsInLevels(tag: nat, levels: seq<seq<Guard>>, n: nat)
    requires n <= |levels| <= LEVELS && LevelsAgree(levels)
    ensures AllInLevels(AllGuards(tag, levels, n))
  {
    if n > 0 {
      AllGuardsInLevels(tag, levels, n - 1);
      GuardsStep(tag, levels, n - 1);
    }
  }

  lemma {:induction false} GuardsFill(e: VersionEdit, levels: seq<seq<Guard>>, n: nat)
    requires Shaped(e) && e.newGuards == NONE && n <= |levels| == LEVELS && LevelsAgree(levels)
    ensures AllInLevels(AllGuards(11, levels, n))
    ensures Fold(e, AllGuards(11, levels, n)) == e.(newGuards := levels[..n] + NONE[n..])
  {
    AllGuardsInLevels(11, levels, n);
    if n == 0 {
      assert levels[..0] + NONE[0..] == NONE;
    } else {
      GuardsFill(e, levels, n - 1);
      GuardsStep(11, levels, n - 1);
      FoldAppend(e, AllGuards(11, levels, n - 1), GuardFields(11, levels[n - 1]));
      LevelFills(e.(newGuards := levels[..n - 1] + NONE[n - 1..]), 11, levels[n - 1], n - 1, |levels[n - 1]|);
      OneMoreLevel(levels, n);
    }
  }

  lemma {:induction false} CompleteFill(e: VersionEdit, levels: seq<seq<Guard>>, n: nat)
    requires Shaped(e) && e.newComplete == NONE && n <= |levels| == LEVELS && LevelsAgree(levels)
    ensures AllInLevels(AllGuards(15, levels, n))
    ensures Fold(e, AllGuards(15, levels, n)) == e.(newComplete := levels[..n] + NONE[n..])
  {
    AllGuardsInLevels(15, levels, n);
    if n == 0 {
      assert levels[..0] + NONE[0..] == NONE;
    } else {
      CompleteFill(e, levels, n - 1);
      GuardsStep(15, levels, n - 1);
      FoldAppend(e, AllGuards(15, levels, n - 1), GuardFields(15, levels[n - 1]));
      LevelFills(e.(newComplete := levels[..n - 1] + NONE[n - 1..]), 15, levels[n - 1], n - 1, |levels[n - 1]|);
      OneMoreLevel(levels, n);
    }
  }

  lemma OneMoreLevel(levels: seq<seq<Guard>>, n: nat)
    requires 0 < n <= |levels| == LEVELS
    ensures var before, gs := levels[..n - 1] + NONE[n - 1..], levels[n - 1];
            before[n - 1 := before[n - 1] + gs[..|gs|]] == levels[..n] + NONE[n..]
  {
    var before, gs := levels[..n - 1] + NONE[n - 1..], levels[n - 1];
    assert before[n - 1] == [] && gs[..|gs|] == gs && [] + gs == gs;
    assert forall i :: n <= i < LEVELS ==> NONE[n..][i - n] == NONE[i] == before[i];
  }

  lemma ScalarsFill(e: VersionEdit)
    ensures AllInLevels(Scalars(e))
    ensures Fold(FRESH, Scalars(e))
            == FRESH.(comparator := e.comparator, logNumber := e.logNumber, prevLogNumber := e.prevLogNumber,
                      nextFile := e.nextFile, lastSequence := e.lastSequence)
  {
    var a := if e.comparator.Some? then [Text(1, e.comparator.value)] else [];
    var b, c, d, f := NumberField(2, e.logNumber), NumberField(9, e.prevLogNumber), NumberField(3, e.nextFile),
                      NumberField(4, e.lastSequence);
    FoldAppend(FRESH, a, b);
    FoldAppend(FRESH, a + b, c);
    FoldAppend(FRESH, a + b + c, d);
    FoldAppend(FRESH, a + b + c + d, f);
    FoldOne(FRESH, a);
    FoldOne(Fold(FRESH, a), b);
    FoldOne(Fold(FRESH, a + b), c);
    FoldOne(Fold(FRESH, a + b + c), d);
    FoldOne(Fold(FRESH, a + b + c + d), f);
  }

  lemma FoldOne(e: VersionEdit, fs: seq<Field>)
    requires Shaped(e) && |fs| <= 1 && AllInLevels(fs)
    ensures Fold(e, fs) == if fs == [] then e else Fill(e, fs[0])
  {
    if |fs| == 1 {
      assert Filled(e, fs, 1) == Fill(Filled(e, fs, 0), fs[0]);
    }
  }

  ghost predicate AllProper(fs: seq<Field>) {
    forall i :: 0 <= i < |fs| ==> Proper(fs[i])
  }

  lemma {:induction false} GuardsProper(tag: nat, levels: seq<seq<Guard>>, n: nat)
    requires (tag == 11 || tag == 15) && n <= |levels| <= LEVELS && KeysFit(levels) && LevelsAgree(levels)
    ensures AllProper(AllGuards(tag, levels, n))
  {
    if n > 0 {
      GuardsProper(tag, levels, n - 1);
      var gs := levels[n - 1];
      forall i | 0 <= i < |gs| ensures Proper(GuardFields(tag, gs)[i]) {
        assert levels[n - 1][i].level == n - 1 && Size32(|levels[n - 1][i].key|);
      }
    }
  }

  lemma FieldsProper(e: VersionEdit)
    requires Storable(e) && LevelsAgree(e.newGuards) && LevelsAgree(e.newComplete)
    ensures AllProper(Scalars(e)) && AllProper(Pointers(e.pointers)) && AllProper(Pairs(6, e.deletedFiles))
    ensures AllProper(Files(e.newFiles)) && AllProper(Pairs(14, e.deletedSentinels))
    ensures AllProper(AllGuards(11, e.newGuards, LEVELS)) && AllProper(AllGuards(15, e.newComplete, LEVELS))
  {
    GuardsProper(11, e.newGuards, LEVELS);
    GuardsProper(15, e.newComplete, LEVELS);
    forall i | 0 <= i < |e.pointers| ensures Proper(Pointers(e.pointers)[i]) {
      assert e.pointers[i] in e.pointers;
    }
    forall i | 0 <= i < |e.deletedFiles| ensures Proper(Pairs(6, e.deletedFiles)[i]) {
      assert e.deletedFiles[i] in e.deletedFiles;
    }
    forall i | 0 <= i < |e.newFiles| ensures Proper(Files(e.newFiles)[i]) {
      assert e.newFiles[i] in e.newFiles;
    }
    forall i | 0 <= i < |e.deletedSentinels| ensures Proper(Pairs(14, e.deletedSentinels)[i]) {
      assert e.deletedSentinels[i] in e.deletedSentinels;
    }
  }

  lemma ProperInLevels(fs: seq<Field>)
    requires AllProper(fs)
    ensures AllInLevels(fs)
  {
  }

  lemma FoldSections(e: VersionEdit, a: seq<Field>, b: seq<Field>, c: seq<Field>, d: seq<Field>)
    requires Shaped(e) && AllInLevels(a) && AllInLevels(b) && AllInLevels(c) && AllInLevels(d)
    ensures AllInLevels(a + b + c + d) && Fold(e, a + b + c + d) == Fold(Fold(Fold(Fold(e, a), b), c), d)
  {
    FoldAppend(e, a, b);
    FoldAppend(e, a + b, c);
    FoldAppend(e, a + b + c, d);
  }

  /** The first four groups of fields, from a fresh edit. */
  lemma FirstFill(e: VersionEdit)
    requires Storable(e) && LevelsAgree(e.newGuards) && LevelsAgree(e.newComplete)
    ensures var fs := Scalars(e) + Pointers(e.pointers) + Pairs(6, e.deletedFiles) + Files(e.newFiles);
            && AllInLevels(fs)
            && Fold(FRESH, fs)
               == e.(newGuards := NONE, newComplete := NONE, sentinelNumbers := FRESH.sentinelNumbers,
                     deletedSentinels := [])
  {
    FieldsProper(e);
    ProperInLevels(Pointers(e.pointers));
    ProperInLevels(Pairs(6, e.deletedFiles));
    ProperInLevels(Files(e.newFiles));
    ScalarsFill(e);
    FoldSections(FRESH, Scalars(e), Pointers(e.pointers), Pairs(6, e.deletedFiles), Files(e.newFiles));
    var e1 := Fold(FRESH, Scalars(e));
    PointersFill(e1, e.pointers, |e.pointers|);
    var e2 := Fold(e1, Pointers(e.pointers));
    assert [] + e.pointers[..|e.pointers|] == e.pointers;
    DeletedFill(e2, e.deletedFiles, |e.deletedFiles|);
    var e3 := Fold(e2, Pairs(6, e.deletedFiles));
    assert e.deletedFiles[..|e.deletedFiles|] == e.deletedFiles;
    FilesFill(e3, e.newFiles, |e.newFiles|);
    assert [] + e.newFiles[..|e.newFiles|] == e.newFiles;
  }

  lemma LastFill(e: VersionEdit, e0: VersionEdit)
    requires Storable(e) && LevelsAgree(e.newGuards) && LevelsAgree(e.newComplete)
    requires e0 == e.(newGuards := NONE, newComplete := NONE, sentinelNumbers := FRESH.sentinelNumbers,
                      deletedSentinels := [])
    ensures var guards, complete := AllGuards(11, e.newGuards, LEVELS), AllGuards(15, e.newComplete, LEVELS);
            && AllInLevels(guards) && AllInLevels(complete) && AllInLevels(Pairs(14, e.deletedSentinels))
            && Fold(Fold(Fold(e0, guards), complete), Pairs(14, e.deletedSentinels))
               == e.(sentinelNumbers := FRESH.sentinelNumbers)
  {
    FieldsProper(e);
    ProperInLevels(Pairs(14, e.deletedSentinels));
    GuardsFill(e0, e.newGuards, LEVELS);
    assert e.newGuards[..LEVELS] + NONE[LEVELS..] == e.newGuards;
    var e1 := Fold(e0, AllGuards(11, e.newGuards, LEVELS));
    CompleteFill(e1, e.newComplete, LEVELS);
    assert e.newComplete[..LEVELS] + NONE[LEVELS..] == e.newComplete;
    var e2 := Fold(e1, AllGuards(15, e.newComplete, LEVELS));
    SentinelsFill(e2, e.deletedSentinels, |e.deletedSentinels|);
    assert e.deletedSentinels[..|e.deletedSentinels|] == e.deletedSentinels;
  }

  /** An edit whose guards know their levels comes back without the sentinel file numbers. */
  lemma EditReadBack(e: VersionEdit)
    requires Storable(e) && LevelsAgree(e.newGuards) && LevelsAgree(e.newComplete)
    ensures Decoded(Encode(Fields(e))) == Some(e.(sentinelNumbers := FRESH.sentinelNumbers))
  {
    var fs := Scalars(e) + Pointers(e.pointers) + Pairs(6, e.deletedFiles) + Files(e.newFiles);
    var guards, complete := AllGuards(11, e.newGuards, LEVELS), AllGuards(15, e.newComplete, LEVELS);
    var last := Pairs(14, e.deletedSentinels);
    FieldsProper(e);
    FirstFill(e);
    LastFill(e, Fold(FRESH, fs));
    FoldSections(FRESH, fs, guards, complete, last);
    FieldsReadBack(fs + guards + complete + last);
  }

  // Whatever is decoded, its guards are listed under their own levels.

  lemma FillKeepsLevels(e: VersionEdit, f: Field)
    requires Shaped(e) && InLevels(f) && LevelsAgree(e.newGuards) && LevelsAgree(e.newComplete)
    ensures LevelsAgree(Fill(e, f).newGuards) && LevelsAgree(Fill(e, f).newComplete)
  {
  }

  lemma {:induction false} DecodedLevelsAgree(get: Getter, size: nat, p: nat, e: VersionEdit)
    requires Advances(get, size) && p <= size && Shaped(e)
    requires LevelsAgree(e.newGuards) && LevelsAgree(e.newComplete)
    ensures var r := Decode(get, size, p, e);
            r.Some? ==> LevelsAgree(r.value.newGuards) && LevelsAgree(r.value.newComplete)
    decreases size - p
  {
    if get(p).One? {
      FillKeepsLevels(e, get(p).field);
      DecodedLevelsAgree(get, size, get(p).next, Fill(e, get(p).field));
    }
  }

  lemma DecodedListsOwn(data: Bytes)
    ensures Decoded(data).Some? ==>
              LevelsAgree(Decoded(data).value.newGuards) && LevelsAgree(Decoded(data).value.newComplete)
  {
    DecodedLevelsAgree(GetterOf(data), |data|, 0, FRESH);
  }

  lemma NoNumbersIff(e: VersionEdit)
    requires Shaped(e)
    ensures e.(sentinelNumbers := FRESH.sentinelNumbers) == e <==>
            forall l :: 0 <= l < |e.sentinelNumbers| ==> e.sentinelNumbers[l] == []
  {
    if forall l :: 0 <= l < |e.sentinelNumbers| ==> e.sentinelNumbers[l] == [] {
      assert e.sentinelNumbers == FRESH.sentinelNumbers;
    }
  }

  /**
   * An edit written and read is the same edit exactly when its guards are listed under their own levels and it
   * lists no sentinel file numbers.
   */
  lemma EditRoundTripsIff(e: VersionEdit)
    requires Storable(e)
    ensures Decoded(Encode(Fields(e))) == Some(e) <==> Faithful(e)
  {
    DecodedListsOwn(Encode(Fields(e)));
    if LevelsAgree(e.newGuards) && LevelsAgree(e.newComplete) {
      EditReadBack(e);
      NoNumbersIff(e);
    }
  }

  /** A guard put into an edit without its level makes the whole record unreadable. */
  lemma GuardWithoutLevelUnreadable(e: VersionEdit, key: Bytes)
    requires Size32(|key|) && e == FRESH.(newGuards := NONE[1 := [Guard(-1, key)]])
    ensures Storable(e) && Decoded(Encode(Fields(e))) == None
  {
    OneGuardStorable(e, key);
    OneGuardField(e, key);
    UnreadableGuard(Fields(e), NewGuard(11, 0xFFFF_FFFF, key));
  }

  lemma OneGuardStorable(e: VersionEdit, key: Bytes)
    requires Size32(|key|) && e == FRESH.(newGuards := NONE[1 := [Guard(-1, key)]])
    ensures Storable(e)
  {
    assert KeysFit(e.newGuards) && KeysFit(e.newComplete);
  }

  lemma UnreadableGuard(fs: seq<Field>, f: Field)
    requires fs == [f] && f.NewGuard? && TagFits(f) && LEVELS <= f.level && Size32(f.level)
    ensures Decoded(Encode(fs)) == None
  {
    JoinOneMore([], FieldBytes(f));
    assert Parts(fs) == [] + [FieldBytes(f)] && [] + FieldBytes(f) == FieldBytes(f);
    BadLevelBroken(Encode(fs), f);
    BrokenFails(Encode(fs));
  }

  lemma BrokenFails(data: Bytes)
    requires GetField(data, 0) == Broken
    ensures Decoded(data) == None
  {
  }

  lemma BadLevelBroken(data: Bytes, f: Field)
    requires data == FieldBytes(f) && f.NewGuard? && TagFits(f) && LEVELS <= f.level && Size32(f.level)
    ensures GetField(data, 0) == Broken
  {
    assert data[0..0 + |data|] == data;
    HasParts(data, 0, Varint(f.tag), Payload(f));
    HasParts(data, |Varint(f.tag)|, Varint(f.level), Varint(0) + Prefixed(f.key));
    Got32(data, 0, f.tag);
    Got32(data, |Varint(f.tag)|, f.level);
  }

  lemma OneGuardField(e: VersionEdit, key: Bytes)
    requires e == FRESH.(newGuards := NONE[1 := [Guard(-1, key)]])
    ensures Fields(e) == [NewGuard(11, 0xFFFF_FFFF, key)]
  {
    var gs := e.newGuards;
    assert AllGuards(11, gs, 1) == [];
    assert AllGuards(11, gs, 2) == [NewGuard(11, 0xFFFF_FFFF, key)];
    assert AllGuards(11, gs, 4) == AllGuards(11, gs, 2);
    assert AllGuards(11, gs, 6) == AllGuards(11, gs, 4);
    assert AllGuards(11, gs, 7) == AllGuards(11, gs, 6);
    assert AllGuards(15, NONE, 2) == [] && AllGuards(15, NONE, 4) == [] && AllGuards(15, NONE, 6) == [];
    assert AllGuards(15, NONE, 7) == [];
  }

  // ---------- Replaying decoded edits ----------

  /** A number in n bytes, the low one first. */
  function Little(v: nat, n: nat): (r: Bytes)
    ensures |r| == n
  {
    if n == 0 then [] else [v % 256] + Little(v / 256, n - 1)
  }

  function LittleValue(b: Bytes): nat {
    if |b| == 0 then 0 else b[0] + 256 * LittleValue(b[1..])
  }

  /** An internal key's bytes: the user key, then the tag in eight bytes. */
  function KeyBytes(k: Guards.InternalKey): Bytes {
    k.user + Little(k.tag, 8)
  }

  function KeyOf(b: Bytes): Guards.InternalKey
    requires |b| >= 8
  {
    Guards.InternalKey(b[..|b| - 8], LittleValue(b[|b| - 8..]))
  }

  lemma {:induction false} LittleRead(v: nat, n: nat)
    requires v < Power256(n)
    ensures LittleValue(Little(v, n)) == v
  {
    if n > 0 {
      LittleRead(v / 256, n - 1);
      assert Little(v, n)[1..] == Little(v / 256, n - 1);
    }
  }

  function Power256(n: nat): nat {
    if n == 0 then 1 else 256 * Power256(n - 1)
  }

  /** An internal key's bytes give the key back. */
  lemma KeyReadBack(k: Guards.InternalKey)
    requires k.tag < Power256(8)
    ensures KeyOf(KeyBytes(k)) == k
  {
    LittleRead(k.tag, 8);
    var b := KeyBytes(k);
    assert b[..|b| - 8] == k.user && b[|b| - 8..] == Little(k.tag, 8);
  }

  /** Keys are internal keys. */
  predicate HasKeys(e: VersionEdit) {
    && (forall i :: 0 <= i < |e.newFiles| ==> |e.newFiles[i].1.smallest| >= 8 && |e.newFiles[i].1.largest| >= 8)
    && (forall k, i :: 0 <= k < |e.newGuards| && 0 <= i < |e.newGuards[k]| ==> |e.newGuards[k][i].key| >= 8)
    && (forall k, i :: 0 <= k < |e.newComplete| && 0 <= i < |e.newComplete[k]| ==> |e.newComplete[k][i].key| >= 8)
  }

  function DeletedAt(ps: seq<(nat, nat)>, l: nat): set<nat> {
    set i | 0 <= i < |ps| && ps[i].0 == l :: ps[i].1
  }

  function FilesAt(fs: seq<(nat, Meta)>, l: nat, n: nat): seq<Guards.File>
    requires n <= |fs| && forall i :: 0 <= i < n ==> |fs[i].1.smallest| >= 8 && |fs[i].1.largest| >= 8
  {
    if n == 0 then []
    else
      var f := fs[n - 1].1;
      FilesAt(fs, l, n - 1)
      + if fs[n - 1].0 == l then [Guards.File(f.number, KeyOf(f.smallest), KeyOf(f.largest))] else []
  }

  function KeysOf(gs: seq<Guard>): seq<Guards.InternalKey>
    requires forall i :: 0 <= i < |gs| ==> |gs[i].key| >= 8
  {
    seq(|gs|, i requires 0 <= i < |gs| => KeyOf(gs[i].key))
  }

  /** The part of an edit that a builder applies to one level. */
  function AtLevel(e: VersionEdit, l: nat): Replay.Edit
    requires Shaped(e) && HasKeys(e) && l < LEVELS
  {
    Replay.Edit(DeletedAt(e.deletedFiles, l), FilesAt(e.newFiles, l, |e.newFiles|), KeysOf(e.newGuards[l]),
                KeysOf(e.newComplete[l]))
  }

  /** The records are these edits, as they were written. */
  ghost predicate RecordsOf(records: seq<Bytes>, edits: seq<VersionEdit>) {
    |records| == |edits| && forall i :: 0 <= i < |edits| ==> RecordOf(records[i], edits[i])
  }

  ghost predicate RecordOf(record: Bytes, e: VersionEdit) {
    Storable(e) && Faithful(e) && HasKeys(e) && record == Encode(Fields(e))
  }

  ghost function LevelOf(edits: seq<VersionEdit>, l: nat): seq<Replay.Edit>
    requires l < LEVELS && forall i :: 0 <= i < |edits| ==> Shaped(edits[i]) && HasKeys(edits[i])
  {
    seq(|edits|, i requires 0 <= i < |edits| => AtLevel(edits[i], l))
  }

  method DecodeRecord(record: Bytes, ghost edit: VersionEdit) returns (e: VersionEdit)
    requires RecordOf(record, edit)
    ensures e == edit
  {
    EditRoundTripsIff(edit);
    var r := DecodeFrom(record);
    e := r.value;
  }

  /** Recovery reads the first n records and applies them to level l: none fails, and each gives back its edit. */
  method DecodeLevel(records: seq<Bytes>, l: nat, n: nat, ghost edits: seq<VersionEdit>)
    returns (manifest: seq<Replay.Edit>)
    requires l < LEVELS && RecordsOf(records, edits) && n <= |records|
    ensures manifest == LevelOf(edits, l)[..n]
  {
    manifest := [];
    for i := 0 to n
      invariant manifest == LevelOf(edits, l)[..i]
    {
      var e := DecodeRecord(records[i], edits[i]);
      manifest := manifest + [AtLevel(e, l)];
    }
  }

  lemma {:induction false} CompletePrefix(edits: seq<Replay.Edit>, n: nat, i: nat)
    requires i <= n <= |edits|
    ensures Replay.CompleteMap(edits[..n], i) == Replay.CompleteMap(edits, i)
  {
    if i > 0 {
      CompletePrefix(edits, n, i - 1);
    }
  }

  /** A level recovered from the bytes of the first n records. */
  method RecoverLevel(records: seq<Bytes>, l: nat, n: nat, ghost edits: seq<VersionEdit>, ghost plan: seq<Replay.Edit>)
    returns (v: Replay.Level)
    requires l < LEVELS && RecordsOf(records, edits)
    requires Replay.Consistent(plan) && Replay.Records(LevelOf(edits, l), plan, n)
    ensures Replay.Replayed(plan, n, v) && Builder.Lists(v.complete, Replay.CompleteMap(LevelOf(edits, l), n))
  {
    var manifest := DecodeLevel(records, l, n, edits);
    v := Replay.ReplayEdits(manifest, plan, n);
    CompletePrefix(LevelOf(edits, l), n, n);
  }

  /**
   * A store's level, whose manifest was written as the bytes of whole edits, recovers from them up to the record of
   * commit n as it does from the edits themselves.
   */
  method RecoverFromBytes(start: Replay.Level, commits: seq<Replay.Commit>, ghost versions: seq<Replay.Level>,
                          ghost edits: seq<VersionEdit>, records: seq<Bytes>, l: nat, n: nat)
    returns (v: Replay.Level)
    requires l < LEVELS && RecordsOf(records, edits) && n < |commits|
    requires Replay.Ran(start, commits, versions, LevelOf(edits, l))
    requires Replay.Consistent(Replay.Plan(start, commits))
    ensures Replay.Recovers(versions, commits, n, v)
    ensures Replay.Replayed(Replay.Plan(start, commits), n + 2, v)
  {
    ghost var manifest := LevelOf(edits, l);
    Replay.WrittenRecords(start, versions, commits, manifest);
    v := RecoverLevel(records, l, n + 2, edits, Replay.Plan(start, commits));
    Replay.GuardsRecovered(start, versions, commits, manifest, n, v);
  }
}
