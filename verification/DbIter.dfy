/**
 * The user-visible iterator: a two-way cursor that collapses the versions of each user key of a
 * sorted internal stream into the one a snapshot sees.
 */
module DbIter {
  import opened Cursor
  import opened Keys

  // ---------- What the iterator should show ----------

  /** Entry i is the newest entry of its user key that the snapshot may look at. */
  predicate Newest(es: seq<Entry>, snap: nat, i: nat)
    requires i < |es|
  {
    Seen(es[i], snap) && forall j :: 0 <= j < i && es[j].user == es[i].user ==> !Seen(es[j], snap)
  }

  predicate Yields(es: seq<Entry>, snap: nat, i: nat)
    requires i < |es|
  {
    Newest(es, snap, i) && es[i].kind == VALUE
  }

  /** The indices below n that the snapshot shows, in order. */
  function Shown(es: seq<Entry>, snap: nat, n: nat): (r: seq<nat>)
    requires n <= |es|
    ensures |r| <= n
    ensures forall k :: 0 <= k < |r| ==> r[k] < n && Yields(es, snap, r[k])
  {
    if n == 0 then []
    else Shown(es, snap, n - 1) + (if Yields(es, snap, n - 1) then [n - 1] else [])
  }

  /** The snapshot's contents: live user keys with their values. */
  function View(es: seq<Entry>, snap: nat): (r: seq<(Bytes, Bytes)>)
    ensures |r| == |Shown(es, snap, |es|)|
  {
    var s := Shown(es, snap, |es|);
    seq(|s|, k requires 0 <= k < |s| => (es[s[k]].user, es[s[k]].value))
  }

  lemma {:induction false} ShownPrefix(es: seq<Entry>, snap: nat, m: nat, n: nat)
    requires m <= n <= |es|
    ensures Shown(es, snap, m) <= Shown(es, snap, n)
    ensures forall k :: |Shown(es, snap, m)| <= k < |Shown(es, snap, n)| ==> Shown(es, snap, n)[k] >= m
    decreases n
  {
    if m < n {
      ShownPrefix(es, snap, m, n - 1);
    }
  }

  /** Skipping over indices that are not shown does not move the view position. */
  lemma {:induction false} ShownGap(es: seq<Entry>, snap: nat, m: nat, n: nat)
    requires m <= n <= |es|
    requires forall i :: m <= i < n ==> !Yields(es, snap, i)
    ensures Shown(es, snap, m) == Shown(es, snap, n)
    decreases n
  {
    if m < n {
      ShownGap(es, snap, m, n - 1);
    }
  }

  /** A shown index sits in the view at the position counting the shown indices before it. */
  lemma ShownAt(es: seq<Entry>, snap: nat, i: nat)
    requires i < |es| && Yields(es, snap, i)
    ensures var k := |Shown(es, snap, i)|;
            k < |View(es, snap)| && View(es, snap)[k] == (es[i].user, es[i].value)
            && |Shown(es, snap, i + 1)| == k + 1
  {
    ShownPrefix(es, snap, i + 1, |es|);
    assert Shown(es, snap, i + 1) == Shown(es, snap, i) + [i];
  }

  /**
   * The view is the map a reader at the snapshot expects: it is strictly increasing in the user
   * key, and (k, v) is in it exactly when the newest visible entry of k is the value v.
   */
  lemma ViewIsSnapshotMap(es: seq<Entry>, snap: nat)
    requires Sorted(es)
    ensures forall a, b :: 0 <= a < b < |View(es, snap)| ==> Less(View(es, snap)[a].0, View(es, snap)[b].0)
    ensures forall k, v :: (k, v) in View(es, snap) <==>
                           exists i :: 0 <= i < |es| && Newest(es, snap, i)
                                       && es[i].user == k && es[i].kind == VALUE && es[i].value == v
  {
    var s := Shown(es, snap, |es|);
    forall a, b | 0 <= a < b < |s| ensures Less(es[s[a]].user, es[s[b]].user) {
      ShownIncreasing(es, snap, |es|);
      assert EntryBefore(es[s[a]], es[s[b]]);
    }
    forall i | 0 <= i < |es| && Yields(es, snap, i) ensures (es[i].user, es[i].value) in View(es, snap) {
      ShownAt(es, snap, i);
    }
    forall k, v | (k, v) in View(es, snap)
      ensures exists i :: 0 <= i < |es| && Newest(es, snap, i)
                          && es[i].user == k && es[i].kind == VALUE && es[i].value == v
    {
      var a :| 0 <= a < |View(es, snap)| && View(es, snap)[a] == (k, v);
      assert Yields(es, snap, s[a]);
    }
  }

  lemma {:induction false} ShownIncreasing(es: seq<Entry>, snap: nat, n: nat)
    requires n <= |es|
    ensures forall a, b :: 0 <= a < b < |Shown(es, snap, n)| ==> Shown(es, snap, n)[a] < Shown(es, snap, n)[b]
  {
    if n > 0 {
      ShownIncreasing(es, snap, n - 1);
    }
  }

  /** In a sorted stream the entries' user keys are ordered as their indices are, and so come in runs. */
  lemma UserOrder(es: seq<Entry>)
    requires Sorted(es)
    ensures forall i, j {:trigger Less(es[i].user, es[j].user)} :: 0 <= i < |es| && 0 <= j < |es| ==>
              (Less(es[i].user, es[j].user) <==> i < j && es[i].user != es[j].user)
  {
    LessIsStrictTotalOrder();
    forall i, j | 0 <= i < |es| && 0 <= j < |es|
      ensures Less(es[i].user, es[j].user) <==> i < j && es[i].user != es[j].user
    {
      assert i < j ==> EntryBefore(es[i], es[j]);
      assert j < i ==> EntryBefore(es[j], es[i]);
    }
  }

  lemma UserRun(es: seq<Entry>, i: nat, j: nat, k: nat)
    requires Sorted(es) && i <= j <= k < |es| && es[i].user == es[k].user
    ensures es[j].user == es[i].user
  {
    LessIsStrictTotalOrder();
    assert i < j ==> EntryBefore(es[i], es[j]);
    assert j < k ==> EntryBefore(es[j], es[k]);
  }

  // ---------- A plain cursor over a list ----------

  /** The position of the first pair whose key is at or after target. */
  function LowerBound(view: seq<(Bytes, Bytes)>, target: Bytes): (k: nat)
    ensures k <= |view|
    ensures forall j :: 0 <= j < k ==> Less(view[j].0, target)
    ensures k < |view| ==> !Less(view[k].0, target)
  {
    if |view| > 0 && Less(view[0].0, target) then 1 + LowerBound(view[1..], target) else 0
  }

  function CursorStep(view: seq<(Bytes, Bytes)>, k: nat, op: Op<Bytes>): (k': nat)
    requires k <= |view|
    ensures k' <= |view|
  {
    Moved(|view|, k, op, if op.Seek? then LowerBound(view, op.target) else 0)
  }

  function CursorTrace(view: seq<(Bytes, Bytes)>, k: nat, ops: seq<Op<Bytes>>): (r: seq<Option<(Bytes, Bytes)>>)
    requires k <= |view|
    decreases |ops|
  {
    if |ops| == 0 then []
    else
      var k' := CursorStep(view, k, ops[0]);
      [At(view, k')] + CursorTrace(view, k', ops[1..])
  }

  /** What there is to show: a user key with the value that its newest entry the snapshot sees has. */
  ghost predicate Live(es: seq<Entry>, snap: nat, p: (Bytes, Bytes)) {
    exists i :: 0 <= i < |es| && Newest(es, snap, i) && es[i].kind == VALUE && es[i].user == p.0 && es[i].value == p.1
  }

  ghost function LiveAt(es: seq<Entry>, snap: nat): ((Bytes, Bytes)) -> bool {
    (p: (Bytes, Bytes)) => Live(es, snap, p)
  }

  function ByKey(): ((Bytes, Bytes), (Bytes, Bytes)) -> bool {
    (p: (Bytes, Bytes), q: (Bytes, Bytes)) => Less(p.0, q.0)
  }

  function EarlyFor(): ((Bytes, Bytes), Bytes) -> bool {
    (p: (Bytes, Bytes), target: Bytes) => Less(p.0, target)
  }

  /** What a move shows of the live keys, by their order alone. */
  ghost predicate ShowsMove(es: seq<Entry>, snap: nat, was: Option<(Bytes, Bytes)>, op: Op<Bytes>,
                            now: Option<(Bytes, Bytes)>) {
    Shows(LiveAt(es, snap), ByKey(), EarlyFor(), was, op, now)
  }

  ghost function MoveAt(es: seq<Entry>, snap: nat): (Option<(Bytes, Bytes)>, Op<Bytes>, Option<(Bytes, Bytes)>) -> bool {
    (was: Option<(Bytes, Bytes)>, op: Op<Bytes>, now: Option<(Bytes, Bytes)>) => ShowsMove(es, snap, was, op, now)
  }

  /** A step of the plain cursor over the view shows the first live key, the last, the next, the one before or the
      first not before the target, as was asked. */
  lemma StepShows(es: seq<Entry>, snap: nat, k: nat, op: Op<Bytes>)
    requires Sorted(es) && k <= |View(es, snap)|
    ensures var view := View(es, snap);
            ShowsMove(es, snap, At(view, k), op, At(view, CursorStep(view, k, op)))
  {
    var view := View(es, snap);
    var bound := if op.Seek? then LowerBound(view, op.target) else 0;
    ViewIsSnapshotMap(es, snap);
    LessIsStrictTotalOrder();
    forall p: (Bytes, Bytes) ensures Live(es, snap, p) <==> p in view {
      assert p == (p.0, p.1);
    }
    assert forall a, b :: 0 <= a < |view| && 0 <= b < |view| ==> (Less(view[a].0, view[b].0) <==> a < b);
    MovedShows(view, LiveAt(es, snap), ByKey(), EarlyFor(), k, op, bound);
  }

  /** Through any sequence of moves, each shows what it should after the one before. */
  lemma {:induction false} TraceShows(es: seq<Entry>, snap: nat, k: nat, ops: seq<Op<Bytes>>)
    requires Sorted(es) && k <= |View(es, snap)|
    ensures var view := View(es, snap);
            var trace := CursorTrace(view, k, ops);
            |trace| == |ops| && AllShow(MoveAt(es, snap), At(view, k), ops, trace)
    decreases |ops|
  {
    if |ops| > 0 {
      var view := View(es, snap);
      StepShows(es, snap, k, ops[0]);
      TraceShows(es, snap, CursorStep(view, k, ops[0]), ops[1..]);
      OneMoreShows(MoveAt(es, snap), At(view, k), ops, CursorTrace(view, k, ops));
    }
  }

  // ---------- The forward scan ----------

  /** What the forward scan knows: everything shown or hidden between its start and the inner cursor. */
  ghost predicate Passed(es: seq<Entry>, snap: nat, start: nat, iter: nat, skipping0: bool, skip0: Bytes, at: nat,
                         skipping: bool, skip: Bytes, sk: nat) {
    && start <= iter <= |es|
    && (forall j :: start <= j < iter && Yields(es, snap, j) ==> skipping0 && es[j].user == skip0)
    && (skipping0 ==> skipping && at < |es| && skip0 == es[at].user) && (skipping ==> sk < |es| && skip == es[sk].user)
    && (skipping ==> forall j :: iter <= j < sk ==> es[j].user == skip || !Seen(es[j], snap))
    && (skipping && (!skipping0 || sk != at) ==>
          start <= sk < iter && Seen(es[sk], snap) && (skipping0 ==> at <= sk || es[sk].user == skip0))
    && (forall j :: start <= j < iter && Seen(es[j], snap) ==> skipping && (j <= sk || es[j].user == skip))
  }

  ghost predicate Scanning(es: seq<Entry>, snap: nat, start: nat, iter: nat, skipping0: bool, skip0: Bytes, at: nat,
                           skipping: bool, skip: Bytes, sk: nat) {
    && iter < |es| && Passed(es, snap, start, iter, skipping0, skip0, at, skipping, skip, sk)
    && (skipping0 ==> start <= at || es[start].user == skip0)
    && (!skipping0 ==> forall j :: 0 <= j < start && es[j].user == es[start].user ==> !Seen(es[j], snap))
  }

  /** Passing over one entry: one that is not seen, a deletion, or an entry the skipped key hides. */
  lemma ScanSteps(es: seq<Entry>, snap: nat, start: nat, iter: nat, skipping0: bool, skip0: Bytes, at: nat,
                  skipping: bool, skip: Bytes, sk: nat, skipping': bool, skip': Bytes, sk': nat)
    requires Sorted(es) && Scanning(es, snap, start, iter, skipping0, skip0, at, skipping, skip, sk)
    requires if Seen(es[iter], snap) && es[iter].kind == DELETION
             then skipping' && skip' == es[iter].user && sk' == iter
             else skipping' == skipping && skip' == skip && sk' == sk
    requires Seen(es[iter], snap) && es[iter].kind != DELETION ==> skipping && AtMost(es[iter].user, skip)
    ensures Passed(es, snap, start, iter + 1, skipping0, skip0, at, skipping', skip', sk')
  {
    UserOrder(es);
  }

  /** A seen value that no skipped key hides is the next entry to show. */
  lemma ScanFinds(es: seq<Entry>, snap: nat, start: nat, iter: nat, skipping0: bool, skip0: Bytes, at: nat,
                  skipping: bool, skip: Bytes, sk: nat)
    requires Sorted(es) && Scanning(es, snap, start, iter, skipping0, skip0, at, skipping, skip, sk)
    requires Seen(es[iter], snap) && es[iter].kind == VALUE && !(skipping && AtMost(es[iter].user, skip))
    ensures Yields(es, snap, iter) && (skipping0 ==> Less(skip0, es[iter].user))
  {
    UserOrder(es);
    forall j | 0 <= j < start && es[j].user == es[iter].user ensures !Seen(es[j], snap) {
      UserRun(es, j, start, iter);
    }
  }

  // ---------- The backward scan ----------

  /** The newest visible entry of its user key among those from m on. */
  ghost predicate NewestFrom(es: seq<Entry>, snap: nat, m: nat, j: nat)
    requires j < |es|
  {
    Seen(es[j], snap) && forall h :: m <= h < j && es[h].user == es[j].user ==> !Seen(es[h], snap)
  }

  /** What the backward scan knows of the entries from m up to top: the last one to show, if any, is entry i. */
  ghost predicate Rewound(es: seq<Entry>, snap: nat, m: nat, top: nat, kind: Byte, savedKey: Bytes, savedValue: Bytes,
                          i: nat) {
    && m <= top <= |es| && (kind == DELETION || kind == VALUE)
    && (kind == DELETION ==> forall j :: m <= j < top && es[j].kind == VALUE ==> !NewestFrom(es, snap, m, j))
    && (kind == VALUE ==>
          && m <= i < top && NewestFrom(es, snap, m, i) && es[i].kind == VALUE
          && savedKey == es[i].user && savedValue == es[i].value
          && (forall j :: i < j < top && es[j].kind == VALUE ==> !NewestFrom(es, snap, m, j))
          && (forall j :: m <= j < i ==> es[j].user == savedKey || !Seen(es[j], snap)))
  }

  /** Passing over one more entry downwards, unless it belongs to an earlier user key than the one saved. */
  lemma RewindSteps(es: seq<Entry>, snap: nat, m: nat, top: nat, kind: Byte, savedKey: Bytes, savedValue: Bytes, i: nat,
                    kind': Byte, savedKey': Bytes, savedValue': Bytes, i': nat)
    requires Sorted(es) && m < top && Rewound(es, snap, m + 1, top, kind, savedKey, savedValue, i)
    requires Seen(es[m], snap) ==> kind == DELETION || !Less(es[m].user, savedKey)
    requires if !Seen(es[m], snap) then kind' == kind && savedKey' == savedKey && savedValue' == savedValue && i' == i
             else if es[m].kind == DELETION then kind' == DELETION
             else kind' == VALUE && savedKey' == es[m].user && savedValue' == es[m].value && i' == m
    ensures Rewound(es, snap, m, top, kind', savedKey', savedValue', i')
  {
    UserOrder(es);
  }

  /** An earlier user key ends the scan: the entry saved is shown. */
  lemma RewindEnds(es: seq<Entry>, snap: nat, m: nat, top: nat, savedKey: Bytes, savedValue: Bytes, i: nat)
    requires Sorted(es) && 0 < m && Rewound(es, snap, m, top, VALUE, savedKey, savedValue, i)
    requires Less(es[m - 1].user, savedKey)
    ensures Yields(es, snap, i) && forall j :: i < j < top ==> !Yields(es, snap, j)
  {
    UserOrder(es);
  }

  // ---------- The iterator ----------

  class DBIter {
    const es: seq<Entry>
    const snapshot: nat
    var iter: nat          // the inner cursor's position; |es| when it is not valid
    var forward: bool
    var valid: bool
    var savedKey: Bytes
    var savedValue: Bytes
    var corrupt: bool
    ghost var cur: nat     // the entry being shown; |es| when the iterator is not valid

    /** In reverse, no visible entry lies between the inner cursor and the shown key's entries. */
    ghost predicate Parked()
      reads this
    {
      && cur < |es|
      && savedKey == es[cur].user && savedValue == es[cur].value
      && (iter < |es| ==> iter < cur && Less(es[iter].user, savedKey))
      && (iter <= |es|)
      && forall j :: (if iter < |es| then iter + 1 else 0) <= j < cur ==>
                       es[j].user == savedKey || !Seen(es[j], snapshot)
    }

    ghost predicate Valid()
      reads this
    {
      && Sorted(es)
      && iter <= |es|
      && valid == (cur < |es|)
      && (!valid ==> cur == |es|)
      && (valid ==> Yields(es, snapshot, cur))
      && (valid && forward ==> iter == cur)
      && (valid && !forward ==> Parked())
    }

    /** The position of the shown entry in the snapshot's view. */
    ghost function Position(): (k: nat)
      requires Valid()
      reads this
      ensures k <= |View(es, snapshot)|
    {
      ShownPrefix(es, snapshot, cur, |es|);
      |Shown(es, snapshot, cur)|
    }

    /** The key and value that Key and Value give, if any. */
    ghost function Showing(): Option<(Bytes, Bytes)>
      requires Valid()
      reads this
    {
      if valid then Some((es[cur].user, es[cur].value)) else None
    }

    lemma ShowsPosition()
      requires Valid()
      ensures Showing() == At(View(es, snapshot), Position())
    {
      if valid {
        ShownAt(es, snapshot, cur);
      }
    }

    lemma ShowsAfter(k: nat, was: Option<(Bytes, Bytes)>, op: Op<Bytes>)
      requires Valid() && k <= |View(es, snapshot)| && Position() == CursorStep(View(es, snapshot), k, op)
      requires was == At(View(es, snapshot), k)
      ensures ShowsMove(es, snapshot, was, op, Showing())
    {
      ShowsPosition();
      StepShows(es, snapshot, k, op);
    }

    constructor (entries: seq<Entry>, s: nat)
      requires Sorted(entries)
      ensures Valid() && !valid
      ensures es == entries && snapshot == s
    {
      es, snapshot := entries, s;
      iter, cur := |entries|, |entries|;
      forward, valid, corrupt := true, false, false;
      savedKey, savedValue := [], [];
    }

    method Key() returns (k: Bytes)
      requires Valid() && valid
      ensures k == es[cur].user
    {
      if forward { k := es[iter].user; } else { k := savedKey; }
    }

    method Value() returns (v: Bytes)
      requires Valid() && valid
      ensures v == es[cur].value
    {
      if forward { v := es[iter].value; } else { v := savedValue; }
    }

    // The inner cursor.

    method InnerPrev()
      requires iter < |es|
      modifies this`iter
      ensures iter == if old(iter) == 0 then |es| else old(iter) - 1
    {
      iter := if iter == 0 then |es| else iter - 1;
    }

    method InnerSeek(target: Bytes, tag: nat)
      requires Sorted(es)
      modifies this`iter
      ensures iter <= |es|
      ensures forall j :: 0 <= j < iter ==> Before(es[j].user, Tag(es[j].seqno, es[j].kind), target, tag)
      ensures iter < |es| ==> !Before(es[iter].user, Tag(es[iter].seqno, es[iter].kind), target, tag)
    {
      iter := 0;
      while iter < |es| && Before(es[iter].user, Tag(es[iter].seqno, es[iter].kind), target, tag)
        invariant iter <= |es|
        invariant forall j :: 0 <= j < iter ==> Before(es[j].user, Tag(es[j].seqno, es[j].kind), target, tag)
      {
        iter := iter + 1;
      }
    }

    /** Reports a key that cannot be read. */
    method ParseKey(e: Entry) returns (ok: bool)
      modifies this`corrupt
      ensures ok <==> e.kind == DELETION || e.kind == VALUE
      ensures corrupt <==> old(corrupt) || !ok
    {
      ok := e.kind <= VALUE;
      if !ok { corrupt := true; }
    }

    /** Scans forward to the first entry to show. */
    method FindNextUserEntry(skipping0: bool, skip0: Bytes, ghost at: nat)
      requires Sorted(es) && iter < |es| && forward
      requires skipping0 ==> at < |es| && skip0 == es[at].user && (iter <= at || es[iter].user == skip0)
      requires skipping0 ==> forall j :: iter <= j < at ==> es[j].user == skip0 || !Seen(es[j], snapshot)
      requires !skipping0 ==> forall j :: 0 <= j < iter && es[j].user == es[iter].user ==> !Seen(es[j], snapshot)
      modifies this`iter, this`valid, this`savedKey, this`corrupt, this`cur
      ensures Valid() && cur >= old(iter)
      ensures forall j :: old(iter) <= j < cur && Yields(es, snapshot, j) ==> skipping0 && es[j].user == skip0
      ensures valid && skipping0 ==> Less(skip0, es[cur].user)
    {
      var skipping, skip := skipping0, skip0;
      ghost var start: nat, sk: nat := iter, at;
      while true
        invariant Scanning(es, snapshot, start, iter, skipping0, skip0, at, skipping, skip, sk)
        decreases |es| - iter
      {
        var e := es[iter];
        ghost var scan := (skipping, skip, sk);
        var ok := ParseKey(e);
        if ok && e.seqno <= snapshot {
          if e.kind == DELETION {
            skip, skipping, sk := e.user, true, iter;
          } else if skipping && AtMost(e.user, skip) {
            // hidden
          } else {
            ScanFinds(es, snapshot, start, iter, skipping0, skip0, at, skipping, skip, sk);
            valid, savedKey, cur := true, [], iter;
            return;
          }
        }
        ScanSteps(es, snapshot, start, iter, skipping0, skip0, at, scan.0, scan.1, scan.2, skipping, skip, sk);
        iter := iter + 1;
        if iter == |es| { break; }
      }
      savedKey, valid, cur := [], false, |es|;
    }

    /** Scans backward to the last entry to show at or before the inner cursor. */
    method FindPrevUserEntry(ghost limit: nat)
      requires Sorted(es) && iter <= |es| && !forward && limit <= |es|
      requires iter < |es| ==> iter < limit
      requires forall j :: (if iter < |es| then iter + 1 else 0) <= j < limit ==> !Yields(es, snapshot, j)
      modifies this`iter, this`valid, this`savedKey, this`savedValue, this`corrupt, this`cur, this`forward
      ensures Valid()
      ensures valid ==> cur < limit
      ensures forall j :: (if valid then cur + 1 else 0) <= j < limit ==> !Yields(es, snapshot, j)
    {
      ghost var top := if iter < |es| then iter + 1 else 0;
      ghost var i: nat := |es|;
      var kind := DELETION;
      while iter < |es|
        invariant iter <= |es| && !forward && (iter < |es| ==> iter < top)
        invariant Rewound(es, snapshot, if iter < |es| then iter + 1 else 0, top, kind, savedKey, savedValue, i)
        decreases if iter < |es| then iter + 1 else 0
      {
        var e := es[iter];
        ghost var scan := (kind, savedKey, savedValue, i);
        var ok := ParseKey(e);
        if ok && e.seqno <= snapshot {
          if kind != DELETION && Less(e.user, savedKey) {
            RewindEnds(es, snapshot, iter + 1, top, savedKey, savedValue, i);
            break;
          }
          kind := e.kind;
          if kind == DELETION {
            savedKey, savedValue := [], [];
          } else {
            savedKey, savedValue, i := e.user, e.value, iter;
          }
        }
        RewindSteps(es, snapshot, iter, top, scan.0, scan.1, scan.2, scan.3, kind, savedKey, savedValue, i);
        InnerPrev();
      }
      if kind == DELETION {
        valid, savedKey, savedValue, forward, cur := false, [], [], true, |es|;
      } else {
        valid, cur := true, i;
      }
    }

    method Next()
      requires Valid() && valid
      modifies this
      ensures Valid()
      ensures Position() == CursorStep(View(es, snapshot), old(Position()), Op.Next)
      ensures ShowsMove(es, snapshot, old(Showing()), Op.Next, Showing())
    {
      ghost var k, was' := Position(), Showing();
      ShowsPosition();
      UserOrder(es);
      ghost var was := cur;
      if !forward {
        forward := true;
        iter := if iter == |es| then 0 else iter + 1;
        if iter == |es| {
          assert false;
        }
      } else {
        savedKey := es[iter].user;
      }
      FindNextUserEntry(true, savedKey, cur);
      NextPosition(es, snapshot, was, cur);
      ShowsAfter(k, was', Op.Next);
    }

    method Prev()
      requires Valid() && valid
      modifies this
      ensures Valid()
      ensures Position() == CursorStep(View(es, snapshot), old(Position()), Op.Prev)
      ensures ShowsMove(es, snapshot, old(Showing()), Op.Prev, Showing())
    {
      ghost var k, was' := Position(), Showing();
      ShowsPosition();
      ghost var was := cur;
      if forward {
        savedKey := es[iter].user;
        var gone := LeaveEntries(was);
        if gone {
          valid, savedKey, savedValue, cur := false, [], [], |es|;
          NoneBefore(was);
          PrevPosition(es, snapshot, was, cur);
          ShowsAfter(k, was', Op.Prev);
          return;
        }
        forward := false;
      }
      FindPrevUserEntry(was);
      PrevPosition(es, snapshot, was, cur);
      ShowsAfter(k, was', Op.Prev);
    }

    /** Moves back over the saved key's entries, to the one before them if there is one. */
    method LeaveEntries(ghost was: nat) returns (gone: bool)
      requires Sorted(es) && iter == was < |es| && savedKey == es[was].user
      modifies this`iter
      ensures gone <==> iter == |es|
      ensures iter <= |es| && (!gone ==> iter < was && Less(es[iter].user, savedKey))
      ensures forall j :: (if gone then 0 else iter + 1) <= j <= was ==> es[j].user == savedKey
    {
      UserOrder(es);
      while true
        invariant iter < |es| && iter <= was
        invariant forall j :: iter <= j <= was ==> es[j].user == savedKey
        decreases iter
      {
        InnerPrev();
        if iter == |es| {
          return true;
        }
        if Less(es[iter].user, savedKey) {
          return false;
        }
      }
    }

    /** Before the newest entry of the first user key nothing is shown. */
    lemma NoneBefore(was: nat)
      requires was < |es| && Yields(es, snapshot, was) && forall j :: 0 <= j <= was ==> es[j].user == es[was].user
      ensures forall j :: 0 <= j < was ==> !Yields(es, snapshot, j)
    {
    }

    method Seek(target: Bytes)
      requires Valid()
      modifies this
      ensures Valid()
      ensures Position() == CursorStep(View(es, snapshot), old(Position()), Op.Seek(target))
      ensures ShowsMove(es, snapshot, old(Showing()), Op.Seek(target), Showing())
    {
      ghost var k, was' := Position(), Showing();
      ShowsPosition();
      LessIsStrictTotalOrder();
      forward, savedValue := true, [];
      InnerSeek(target, Tag(snapshot, VALUE));
      ghost var from := iter;
      if iter < |es| {
        FindNextUserEntry(false, [], 0);
      } else {
        valid, cur := false, |es|;
      }
      assert cur < |es| ==> !Less(es[cur].user, target);
      SeekPosition(es, snapshot, target, from, cur);
      ShowsAfter(k, was', Op.Seek(target));
    }

    method SeekToFirst()
      requires Valid()
      modifies this
      ensures Valid()
      ensures Position() == CursorStep(View(es, snapshot), old(Position()), Op.SeekToFirst)
      ensures ShowsMove(es, snapshot, old(Showing()), Op.SeekToFirst, Showing())
    {
      ghost var k, was' := Position(), Showing();
      ShowsPosition();
      forward, savedValue := true, [];
      iter := 0;
      if iter < |es| {
        FindNextUserEntry(false, savedKey, 0);
      } else {
        valid, cur := false, |es|;
      }
      ShownGap(es, snapshot, 0, cur);
      ShowsAfter(k, was', Op.SeekToFirst);
    }

    method SeekToLast()
      requires Valid()
      modifies this
      ensures Valid()
      ensures Position() == CursorStep(View(es, snapshot), old(Position()), Op.SeekToLast)
      ensures ShowsMove(es, snapshot, old(Showing()), Op.SeekToLast, Showing())
    {
      ghost var k, was' := Position(), Showing();
      ShowsPosition();
      forward, savedValue := false, [];
      iter := if |es| == 0 then 0 else |es| - 1;
      FindPrevUserEntry(|es|);
      LastPosition();
      ShowsAfter(k, was', Op.SeekToLast);
    }

    lemma LastPosition()
      requires Valid() && forall j :: (if valid then cur + 1 else 0) <= j < |es| ==> !Yields(es, snapshot, j)
      ensures Position() == if |View(es, snapshot)| == 0 then 0 else |View(es, snapshot)| - 1
    {
      if valid {
        ShownAt(es, snapshot, cur);
        ShownGap(es, snapshot, cur + 1, |es|);
      } else {
        ShownGap(es, snapshot, 0, |es|);
      }
    }

    /** One call by a client, which makes Next and Prev only on a valid iterator. */
    method Step(op: Op<Bytes>) returns (shown: Option<(Bytes, Bytes)>)
      requires Valid()
      modifies this
      ensures Valid()
      ensures Position() == CursorStep(View(es, snapshot), old(Position()), op)
      ensures shown == Showing() == At(View(es, snapshot), Position())
      ensures ShowsMove(es, snapshot, old(Showing()), op, shown)
    {
      match op {
        case Seek(t) => Seek(t);
        case SeekToFirst => SeekToFirst();
        case SeekToLast => SeekToLast();
        case Next => if valid { Next(); }
        case Prev => if valid { Prev(); }
      }
      shown := None;
      if valid {
        var key := Key();
        var value := Value();
        shown := Some((key, value));
      }
      ShowsPosition();
    }

    /** Any run of calls shows exactly what the plain cursor over the snapshot's view shows. */
    method Run(ops: seq<Op<Bytes>>) returns (trace: seq<Option<(Bytes, Bytes)>>)
      requires Valid()
      modifies this
      ensures Valid()
      ensures trace == CursorTrace(View(es, snapshot), old(Position()), ops)
      ensures AllShow(MoveAt(es, snapshot), old(Showing()), ops, trace)
    {
      trace := [];
      ShowsPosition();
      TraceShows(es, snapshot, Position(), ops);
      ghost var view := View(es, snapshot);
      ghost var start := Position();
      for n := 0 to |ops|
        invariant Valid()
        invariant CursorTrace(view, start, ops) == trace + CursorTrace(view, Position(), ops[n..])
      {
        var shown := Step(ops[n]);
        assert ops[n..][1..] == ops[n + 1..];
        trace := trace + [shown];
      }
    }
  }

  /** c is the first shown index after was. */
  lemma NextPosition(es: seq<Entry>, snap: nat, was: nat, c: nat)
    requires was < |es| && Yields(es, snap, was) && was < c <= |es|
    requires forall j :: was < j < c ==> !Yields(es, snap, j)
    ensures |Shown(es, snap, c)| == |Shown(es, snap, was)| + 1
    ensures |Shown(es, snap, was)| < |View(es, snap)|
  {
    ShownAt(es, snap, was);
    ShownGap(es, snap, was + 1, c);
  }

  /** c is the last shown index before was, or the end when there is none. */
  lemma PrevPosition(es: seq<Entry>, snap: nat, was: nat, c: nat)
    requires was < |es| && Yields(es, snap, was) && c <= |es|
    requires c < |es| ==> c < was && Yields(es, snap, c)
    requires forall j :: (if c < |es| then c + 1 else 0) <= j < was ==> !Yields(es, snap, j)
    ensures |Shown(es, snap, was)| < |View(es, snap)|
    ensures |Shown(es, snap, c)| ==
            if |Shown(es, snap, was)| == 0 then |View(es, snap)| else |Shown(es, snap, was)| - 1
  {
    ShownAt(es, snap, was);
    if c < |es| {
      ShownAt(es, snap, c);
      ShownGap(es, snap, c + 1, was);
    } else {
      ShownGap(es, snap, 0, was);
    }
  }

  /** What lies before the seek key and is shown has a smaller user key. */
  lemma ShownBeforeTarget(e: Entry, snap: nat, target: Bytes)
    requires Seen(e, snap)
    requires Before(e.user, Tag(e.seqno, e.kind), target, Tag(snap, VALUE))
    ensures Less(e.user, target)
  {
  }

  /** A scan that starts where the seek key falls lands on the view's lower bound. */
  lemma SeekPosition(es: seq<Entry>, snap: nat, target: Bytes, from: nat, c: nat)
    requires Sorted(es) && from <= c <= |es|
    requires c < |es| ==> Yields(es, snap, c) && !Less(es[c].user, target)
    requires forall j :: from <= j < c ==> !Yields(es, snap, j)
    requires forall j :: 0 <= j < from ==> Before(es[j].user, Tag(es[j].seqno, es[j].kind), target, Tag(snap, VALUE))
    ensures |Shown(es, snap, c)| == LowerBound(View(es, snap), target)
  {
    var k := |Shown(es, snap, c)|;
    var view := View(es, snap);
    var s := Shown(es, snap, |es|);
    ShownPrefix(es, snap, c, |es|);
    ShownGap(es, snap, from, c);
    if c < |es| { ShownAt(es, snap, c); }
    forall j | 0 <= j < k ensures Less(view[j].0, target) {
      assert s[j] == Shown(es, snap, from)[j] < from;
      ShownBeforeTarget(es[s[j]], snap, target);
    }
    LowerBoundUnique(view, target, k);
  }

  lemma {:induction false} LowerBoundUnique(view: seq<(Bytes, Bytes)>, target: Bytes, k: nat)
    requires k <= |view|
    requires forall j :: 0 <= j < k ==> Less(view[j].0, target)
    requires k < |view| ==> !Less(view[k].0, target)
    ensures LowerBound(view, target) == k
  {
    if k > 0 {
      assert Less(view[0].0, target);
      LowerBoundUnique(view[1..], target, k - 1);
    }
  }
}
