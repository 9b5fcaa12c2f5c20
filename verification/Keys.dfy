/** Byte strings, user keys and internal keys, and the orders the store keeps them in. */
module Keys {

  datatype Option<+T> = None | Some(value: T)

  type Byte = b: int | 0 <= b < 256

  type Bytes = seq<Byte>

  /** The bytewise order: the first differing byte decides, a proper prefix comes first. */
  predicate Less(a: Bytes, b: Bytes) {
    if |b| == 0 then false
    else if |a| == 0 then true
    else if a[0] != b[0] then a[0] < b[0]
    else Less(a[1..], b[1..])
  }

  predicate AtMost(a: Bytes, b: Bytes) {
    !Less(b, a)
  }

  lemma {:induction false} LessIrreflexive(a: Bytes)
    ensures !Less(a, a)
  {
    if |a| > 0 {
      LessIrreflexive(a[1..]);
    }
  }

  lemma {:induction false} LessTransitive(a: Bytes, b: Bytes, c: Bytes)
    requires Less(a, b) && Less(b, c)
    ensures Less(a, c)
  {
    if |a| > 0 && a[0] == b[0] == c[0] {
      LessTransitive(a[1..], b[1..], c[1..]);
    }
  }

  lemma {:induction false} LessTrichotomy(a: Bytes, b: Bytes)
    ensures Less(a, b) || a == b || Less(b, a)
  {
    if |a| > 0 && |b| > 0 && a[0] == b[0] {
      LessTrichotomy(a[1..], b[1..]);
      assert a == [a[0]] + a[1..] && b == [b[0]] + b[1..];
    }
  }

  /** The bytewise order is a strict total order. */
  lemma LessIsStrictTotalOrder()
    ensures forall a: Bytes :: !Less(a, a)
    ensures forall a: Bytes, b: Bytes, c: Bytes :: Less(a, b) && Less(b, c) ==> Less(a, c)
    ensures forall a: Bytes, b: Bytes {:trigger Less(a, b)} :: Less(a, b) || a == b || Less(b, a)
  {
    forall a: Bytes ensures !Less(a, a) {
      LessIrreflexive(a);
    }
    forall a: Bytes, b: Bytes, c: Bytes | Less(a, b) && Less(b, c) ensures Less(a, c) {
      LessTransitive(a, b, c);
    }
    forall a: Bytes, b: Bytes ensures Less(a, b) || a == b || Less(b, a) {
      LessTrichotomy(a, b);
    }
  }

  lemma LessThenAtMost(a: Bytes, b: Bytes, c: Bytes)
    requires Less(a, b) && AtMost(b, c)
    ensures Less(a, c)
  {
    LessTrichotomy(b, c);
    if Less(b, c) {
      LessTransitive(a, b, c);
    }
  }

  lemma LessIsAtMost(a: Bytes, b: Bytes)
    requires Less(a, b)
    ensures AtMost(a, b)
  {
    if Less(b, a) {
      LessTransitive(a, b, a);
      LessIrreflexive(a);
    }
  }

  lemma AtMostTransitive(a: Bytes, b: Bytes, c: Bytes)
    requires AtMost(a, b) && AtMost(b, c)
    ensures AtMost(a, c)
  {
    LessTrichotomy(a, b);
    if Less(a, b) {
      LessThenAtMost(a, b, c);
      LessIsAtMost(a, c);
    }
  }

  const DELETION: Byte := 0
  const VALUE: Byte := 1
  const MAX_SEQUENCE: nat := 0xFF_FFFF_FFFF_FFFF

  /**
   * One stored entry. `kind` is the low byte of the key's eight-byte trailer; anything above VALUE
   * is a key that ParseInternalKey rejects.
   */
  datatype Entry = Entry(user: Bytes, seqno: nat, kind: Byte, value: Bytes)

  function Tag(seqno: nat, kind: Byte): nat {
    seqno * 256 + kind
  }

  /** Increasing user key, then decreasing packed sequence number and kind. */
  predicate Before(u: Bytes, tag: nat, v: Bytes, tag': nat) {
    Less(u, v) || (u == v && tag > tag')
  }

  predicate EntryBefore(a: Entry, b: Entry) {
    Before(a.user, Tag(a.seqno, a.kind), b.user, Tag(b.seqno, b.kind))
  }

  predicate Sorted(es: seq<Entry>) {
    forall i, j :: 0 <= i < j < |es| ==> EntryBefore(es[i], es[j])
  }

  /** What a read at `snapshot` may look at. */
  predicate Seen(e: Entry, snapshot: nat) {
    e.kind <= VALUE && e.seqno <= snapshot
  }
}
