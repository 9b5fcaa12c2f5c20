/**
 * The guard compaction loop: which entries of the merged input survive, how the survivors are split
 * into output files at guard keys, and what a reader at a live snapshot sees of them.
 */
module Compaction {
  import opened Keys

  // ---------- Is there anything below? ----------

  datatype File = File(smallest: Bytes, largest: Bytes)

  predicate Covers(f: File, key: Bytes) {
    AtMost(f.smallest, key) && AtMost(key, f.largest)
  }

  /** Files of a level are kept by smallest key; they may overlap. */
  predicate SortedBySmallest(files: seq<File>) {
    forall i, j :: 0 <= i < j < |files| ==> AtMost(files[i].smallest, files[j].smallest)
  }

  /** Some file two or more levels below the compaction's level may hold the key. */
  predicate CoveredBelow(levels: seq<seq<File>>, level: nat, key: Bytes) {
    exists l, j :: level + 2 <= l < |levels| && 0 <= j < |levels[l]| && Covers(levels[l][j], key)
  }

  /** The file ends before one of the keys. */
  ghost predicate Behind(keys: set<Bytes>, f: File) {
    exists k :: k in keys && Less(f.largest, k)
  }

  /** The scan that remembers, level by level, how far the keys asked about so far have advanced. */
  class BaseLevelScan {
    const level: nat
    const levels: seq<seq<File>>
    var ptrs: seq<nat>
    ghost var asked: set<Bytes>

    ghost predicate Valid()
      reads this
    {
      && |ptrs| == |levels|
      && (forall l :: 0 <= l < |levels| ==> SortedBySmallest(levels[l]) && ptrs[l] <= |levels[l]|)
      && (forall l, j :: 0 <= l < |levels| && 0 <= j < ptrs[l] ==> Behind(asked, levels[l][j]))
    }

    constructor (level: nat, levels: seq<seq<File>>)
      requires forall l :: 0 <= l < |levels| ==> SortedBySmallest(levels[l])
      ensures Valid() && asked == {} && this.level == level && this.levels == levels
    {
      this.level, this.levels := level, levels;
      ptrs := seq(|levels|, _ => 0);
      asked := {};
    }

    /** Asked along non-decreasing keys, the answer is exact although the scan never looks back. */
    method IsBaseLevelForKey(key: Bytes) returns (base: bool)
      requires Valid() && forall k :: k in asked ==> AtMost(k, key)
      modifies this
      ensures Valid() && asked == old(asked) + {key}
      ensures base <==> !CoveredBelow(levels, level, key)
    {
      LessIsStrictTotalOrder();
      asked := asked + {key};
      var l := level + 2;
      while l < |levels|
        invariant Valid() && asked == old(asked) + {key} && l >= level + 2
        invariant forall m, j :: level + 2 <= m < l && m < |levels| && 0 <= j < |levels[m]| ==> !Covers(levels[m][j], key)
      {
        while ptrs[l] < |levels[l]|
          invariant Valid() && asked == old(asked) + {key}
          invariant forall j :: 0 <= j < ptrs[l] ==> Less(levels[l][j].largest, key)
          decreases |levels[l]| - ptrs[l]
        {
          var f := levels[l][ptrs[l]];
          if AtMost(key, f.largest) {
            if AtMost(f.smallest, key) {
              assert Covers(levels[l][ptrs[l]], key);
              return false;
            }
            break;
          }
          assert key in asked && Less(f.largest, key);
          ptrs := ptrs[l := ptrs[l] + 1];
        }
        l := l + 1;
      }
      return true;
    }
  }

  // ---------- Which entries are dropped ----------

  /** What the drop rule consults besides the stream. */
  datatype Rule = Rule(smallest: nat, cutoff: nat, level: nat, levels: seq<seq<File>>)

  /** The sequence number last seen for this user key; a new key or an unreadable one resets it. */
  function LastSequence(es: seq<Entry>, i: nat): nat
    requires i < |es|
  {
    if i > 0 && es[i - 1].kind <= VALUE && es[i - 1].user == es[i].user then es[i - 1].seqno else MAX_SEQUENCE
  }

  predicate Drops(es: seq<Entry>, r: Rule, i: nat)
    requires i < |es|
  {
    && es[i].kind <= VALUE
    && (LastSequence(es, i) <= r.smallest
        || (es[i].kind == DELETION && es[i].seqno <= r.smallest && !CoveredBelow(r.levels, r.level, es[i].user)))
    && !(LastSequence(es, i) == MAX_SEQUENCE && es[i].seqno >= r.cutoff)
  }

  /** The survivors among the first n entries, in order. */
  function Kept(es: seq<Entry>, r: Rule, n: nat): seq<Entry>
    requires n <= |es|
  {
    if n == 0 then []
    else Kept(es, r, n - 1) + (if Drops(es, r, n - 1) then [] else [es[n - 1]])
  }

  // ---------- What a reader sees ----------

  datatype Answer = Absent | Deleted | Found(value: Bytes)

  function AnswerOf(e: Entry): Answer {
    if e.kind == DELETION then Deleted else Found(e.value)
  }

  predicate Matches(e: Entry, t: nat, k: Bytes) {
    e.user == k && Seen(e, t)
  }

  /** Reading k at snapshot t: the first matching entry of the stream answers. */
  function Lookup(es: seq<Entry>, t: nat, k: Bytes): Answer {
    if |es| == 0 then Absent
    else
      var n := |es| - 1;
      var a := Lookup(es[..n], t, k);
      if a.Absent? && Matches(es[n], t, k) then AnswerOf(es[n]) else a
  }

  lemma KeptUnfold(es: seq<Entry>, r: Rule, t: nat, k: Bytes, n: nat)
    requires 0 < n <= |es|
    ensures var a := Lookup(Kept(es, r, n - 1), t, k);
            Lookup(Kept(es, r, n), t, k) ==
            if !Drops(es, r, n - 1) && a.Absent? && Matches(es[n - 1], t, k) then AnswerOf(es[n - 1]) else a
  {
    var kept := Kept(es, r, n);
    if !Drops(es, r, n - 1) {
      assert kept[..|kept| - 1] == Kept(es, r, n - 1);
    } else {
      assert kept == Kept(es, r, n - 1);
    }
  }

  lemma {:induction false} KeptMisses(es: seq<Entry>, r: Rule, t: nat, k: Bytes, n: nat)
    requires n <= |es| && forall m :: 0 <= m < n && Matches(es[m], t, k) ==> Drops(es, r, m)
    ensures Lookup(Kept(es, r, n), t, k) == Absent
  {
    if n > 0 {
      KeptMisses(es, r, t, k, n - 1);
      KeptUnfold(es, r, t, k, n);
    }
  }

  /** The compacted stream answers with its first surviving match. */
  lemma {:induction false} KeptAnswers(es: seq<Entry>, r: Rule, t: nat, k: Bytes, n: nat, j: nat)
    requires j < n <= |es| && Matches(es[j], t, k) && !Drops(es, r, j)
    requires forall m :: 0 <= m < j && Matches(es[m], t, k) ==> Drops(es, r, m)
    ensures Lookup(Kept(es, r, n), t, k) == AnswerOf(es[j])
  {
    KeptUnfold(es, r, t, k, n);
    if j == n - 1 {
      KeptMisses(es, r, t, k, n - 1);
    } else {
      KeptAnswers(es, r, t, k, n - 1, j);
    }
  }

  lemma {:induction false} StreamMisses(es: seq<Entry>, t: nat, k: Bytes)
    requires forall m :: 0 <= m < |es| ==> !Matches(es[m], t, k)
    ensures Lookup(es, t, k) == Absent
  {
    if |es| > 0 { StreamMisses(es[..|es| - 1], t, k); }
  }

  lemma {:induction false} StreamAnswers(es: seq<Entry>, t: nat, k: Bytes, j: nat)
    requires j < |es| && Visible(es, t, k, j)
    ensures Lookup(es, t, k) == AnswerOf(es[j])
  {
    var n := |es| - 1;
    if j == n {
      StreamMisses(es[..n], t, k);
    } else {
      StreamAnswers(es[..n], t, k, j);
    }
  }

  /** Compaction may turn "deleted" into "absent", and only when nothing below can hold the key. */
  predicate Agrees(es: seq<Entry>, r: Rule, t: nat, k: Bytes) {
    var before, after := Lookup(es, t, k), Lookup(Kept(es, r, |es|), t, k);
    after == before || (before == Deleted && after == Absent && !CoveredBelow(r.levels, r.level, k))
  }

  /** Entry i is what a reader of k at t sees. */
  ghost predicate Visible(es: seq<Entry>, t: nat, k: Bytes, i: nat)
    requires i < |es|
  {
    Matches(es[i], t, k) && forall m :: 0 <= m < i ==> !Matches(es[m], t, k)
  }

  /**
   * A dropped deletion i is followed, after an unreadable key of the same user key, by the value j;
   * every readable entry in between that comes right after an unreadable key is a deletion dropped too.
   */
  ghost predicate Resurrects(es: seq<Entry>, r: Rule, t: nat, k: Bytes, i: nat, j: nat)
    requires i < j < |es|
  {
    && Visible(es, t, k, i) && Drops(es, r, i)
    && es[j].user == k && es[j].kind == VALUE && es[j - 1].kind > VALUE
    && forall m :: i < m < j && es[m].kind <= VALUE && es[m - 1].kind > VALUE ==>
                     es[m].kind == DELETION && es[m].seqno < r.cutoff
  }

  lemma SameUserRun(es: seq<Entry>, i: nat, m: nat, j: nat)
    requires Sorted(es) && i <= m <= j < |es| && es[i].user == es[j].user
    ensures es[m].user == es[i].user
    ensures i < m && es[m].kind <= VALUE && es[i].kind <= VALUE ==> es[m].seqno <= es[i].seqno
  {
    LessIsStrictTotalOrder();
    assert i < m ==> EntryBefore(es[i], es[m]);
    assert m < j ==> EntryBefore(es[m], es[j]);
  }

  /** Nothing newer than what a reader at or above the smallest snapshot sees can hide it. */
  lemma VisibleNotHidden(es: seq<Entry>, r: Rule, t: nat, k: Bytes, i: nat)
    requires Sorted(es) && r.smallest < MAX_SEQUENCE && r.smallest <= t && i < |es| && Visible(es, t, k, i)
    ensures LastSequence(es, i) > r.smallest
    ensures Drops(es, r, i) ==> es[i].kind == DELETION && es[i].seqno <= r.smallest && !CoveredBelow(r.levels, r.level, k)
  {
    if i > 0 && es[i - 1].kind <= VALUE && es[i - 1].user == k {
      assert !Matches(es[i - 1], t, k);
    }
  }

  /** Below a dropped deletion only an entry right after an unreadable key can survive. */
  lemma BelowDropped(es: seq<Entry>, r: Rule, t: nat, k: Bytes, i: nat, j: nat)
    requires Sorted(es) && r.smallest < MAX_SEQUENCE && r.smallest <= t
    requires i < j < |es| && Visible(es, t, k, i) && Drops(es, r, i) && es[j].user == k && es[j].kind <= VALUE
    ensures Matches(es[j], t, k) && es[j - 1].user == k
    ensures Drops(es, r, j) <==> (es[j - 1].kind > VALUE ==> es[j].kind == DELETION && es[j].seqno < r.cutoff)
  {
    VisibleNotHidden(es, r, t, k, i);
    SameUserRun(es, i, j, j);
    SameUserRun(es, i, j - 1, j);
  }

  /**
   * Every reader at or above the smallest snapshot gets the same answer from the compacted stream,
   * up to "absent" for "deleted" where nothing lies below, except exactly where an unreadable key
   * lets an older value outlive its deletion.
   */
  lemma ReadsPreservedExactly(es: seq<Entry>, r: Rule, t: nat, k: Bytes)
    requires Sorted(es) && r.smallest < MAX_SEQUENCE && r.smallest <= t
    ensures Agrees(es, r, t, k) <==> !SomeResurrects(es, r, t, k)
  {
    if i :| 0 <= i < |es| && Visible(es, t, k, i) {
      ReadsOfVisible(es, r, t, k, i);
    } else {
      assert forall m :: 0 <= m < |es| ==> !Matches(es[m], t, k) by { NoneVisible(es, t, k, |es|); }
      StreamMisses(es, t, k);
      KeptMisses(es, r, t, k, |es|);
    }
  }

  lemma {:induction false} NoneVisible(es: seq<Entry>, t: nat, k: Bytes, n: nat)
    requires n <= |es| && forall i :: 0 <= i < |es| ==> !Visible(es, t, k, i)
    ensures forall m :: 0 <= m < n ==> !Matches(es[m], t, k)
  {
    if n > 0 {
      NoneVisible(es, t, k, n - 1);
      assert !Visible(es, t, k, n - 1);
    }
  }

  ghost predicate Survives(es: seq<Entry>, r: Rule, k: Bytes, j: nat)
    requires j < |es|
  {
    es[j].user == k && es[j].kind <= VALUE && !Drops(es, r, j)
  }

  lemma FirstSurvivor(es: seq<Entry>, r: Rule, k: Bytes, i: nat) returns (j: nat)
    requires i < |es|
    ensures i < j <= |es| && (j < |es| ==> Survives(es, r, k, j))
    ensures forall m :: i < m < j ==> !Survives(es, r, k, m)
  {
    j := i + 1;
    while j < |es| && !Survives(es, r, k, j)
      invariant i < j <= |es|
      invariant forall m :: i < m < j ==> !Survives(es, r, k, m)
    {
      j := j + 1;
    }
  }

  lemma DroppedAnswer(es: seq<Entry>, r: Rule, t: nat, k: Bytes, i: nat, j: nat)
    requires Sorted(es) && r.smallest < MAX_SEQUENCE && r.smallest <= t && i < j <= |es|
    requires Visible(es, t, k, i) && Drops(es, r, i)
    requires j < |es| ==> Survives(es, r, k, j)
    requires forall m :: i < m < j ==> !Survives(es, r, k, m)
    ensures Lookup(Kept(es, r, |es|), t, k) == if j == |es| then Absent else AnswerOf(es[j])
  {
    forall m | 0 <= m < j && Matches(es[m], t, k) ensures Drops(es, r, m) {
      assert m >= i;
      assert m > i ==> !Survives(es, r, k, m);
    }
    if j == |es| {
      KeptMisses(es, r, t, k, |es|);
    } else {
      BelowDropped(es, r, t, k, i, j);
      KeptAnswers(es, r, t, k, |es|, j);
    }
  }

  ghost predicate SomeResurrects(es: seq<Entry>, r: Rule, t: nat, k: Bytes) {
    exists i, j :: 0 <= i < j < |es| && Resurrects(es, r, t, k, i, j)
  }

  lemma ReadsOfVisible(es: seq<Entry>, r: Rule, t: nat, k: Bytes, i: nat)
    requires Sorted(es) && r.smallest < MAX_SEQUENCE && r.smallest <= t && i < |es| && Visible(es, t, k, i)
    ensures Agrees(es, r, t, k) <==> !SomeResurrects(es, r, t, k)
  {
    StreamAnswers(es, t, k, i);
    if !Drops(es, r, i) {
      KeptAnswers(es, r, t, k, |es|, i);
      forall i', j | 0 <= i' < j < |es| ensures !Resurrects(es, r, t, k, i', j) {
        assert Visible(es, t, k, i') ==> i' == i;
      }
    } else {
      VisibleNotHidden(es, r, t, k, i);
      var j := FirstSurvivor(es, r, k, i);
      DroppedAnswer(es, r, t, k, i, j);
      forall i', j' | 0 <= i' < j' < |es|
        ensures Resurrects(es, r, t, k, i', j') <==> i' == i && j' == j && es[j].kind == VALUE
      {
        assert Visible(es, t, k, i') ==> i' == i;
        if i' == i { OnlyFirstSurvivor(es, r, t, k, i, j, j'); }
      }
      assert j < |es| && es[j].kind == VALUE ==> Resurrects(es, r, t, k, i, j);
    }
  }

  lemma OnlyFirstSurvivor(es: seq<Entry>, r: Rule, t: nat, k: Bytes, i: nat, j: nat, j': nat)
    requires Sorted(es) && r.smallest < MAX_SEQUENCE && r.smallest <= t && i < j <= |es| && i < j' < |es|
    requires Visible(es, t, k, i) && Drops(es, r, i)
    requires j < |es| ==> Survives(es, r, k, j)
    requires forall m :: i < m < j ==> !Survives(es, r, k, m)
    ensures Resurrects(es, r, t, k, i, j') <==> j' == j && es[j].kind == VALUE
  {
    forall m | i < m < |es| && es[m].user == k && es[m].kind <= VALUE
      ensures Drops(es, r, m) <==> (es[m - 1].kind > VALUE ==> es[m].kind == DELETION && es[m].seqno < r.cutoff)
    {
      BelowDropped(es, r, t, k, i, m);
    }
    forall m | i < m < j' && es[j'].user == k ensures es[m].user == k {
      SameUserRun(es, i, m, j');
    }
    if Resurrects(es, r, t, k, i, j') {
      assert Survives(es, r, k, j');
    } else if j' == j && es[j].kind == VALUE {
      assert Survives(es, r, k, j);
      forall m | i < m < j && es[m].kind <= VALUE && es[m - 1].kind > VALUE
        ensures es[m].kind == DELETION && es[m].seqno < r.cutoff
      {
        assert !Survives(es, r, k, m);
      }
      assert false;
    }
  }

  /** With no unreadable key in the input, every such reader is served. */
  lemma ReadsPreserved(es: seq<Entry>, r: Rule, t: nat, k: Bytes)
    requires Sorted(es) && r.smallest < MAX_SEQUENCE && r.smallest <= t
    requires forall i :: 0 <= i < |es| ==> es[i].kind <= VALUE
    ensures Agrees(es, r, t, k)
  {
    ReadsPreservedExactly(es, r, t, k);
  }

  /** A deletion, an unreadable key and an older value of one user key: the value comes back. */
  lemma UnreadableKeyResurrects()
    ensures var es := [Entry([1], 9, DELETION, []), Entry([1], 8, 2, []), Entry([1], 7, VALUE, [5])];
            var r := Rule(10, MAX_SEQUENCE, 0, []);
            Sorted(es) && Lookup(es, 10, [1]) == Deleted && Lookup(Kept(es, r, 3), 10, [1]) == Found([5])
  {
    var es := [Entry([1], 9, DELETION, []), Entry([1], 8, 2, []), Entry([1], 7, VALUE, [5])];
    var r := Rule(10, MAX_SEQUENCE, 0, []);
    StreamAnswers(es, 10, [1], 0);
    KeptAnswers(es, r, 10, [1], 3, 2);
  }

  // ---------- Reads that go on below the stream ----------

  /** The value read of k at t from the stream, or else from what lies below; a deletion ends the search. */
  function ReadThrough(es: seq<Entry>, deep: seq<Entry>, t: nat, k: Bytes): Option<Bytes> {
    match Lookup(es, t, k)
    case Found(v) => Some(v)
    case Deleted => None
    case Absent =>
      match Lookup(deep, t, k)
      case Found(v) => Some(v)
      case _ => None
  }

  /**
   * Whatever the files two or more levels down hold inside their bounds, and in whatever order they are read after the
   * stream: reading through both gives the same value before and after the compaction, except exactly where an
   * unreadable key lets an older value outlive its deletion.
   */
  lemma ReadsThroughPreserved(es: seq<Entry>, r: Rule, t: nat, k: Bytes, deep: seq<Entry>)
    requires Sorted(es) && r.smallest < MAX_SEQUENCE && r.smallest <= t
    requires forall e :: e in deep ==>
               exists l, j :: r.level + 2 <= l < |r.levels| && 0 <= j < |r.levels[l]|
                              && AtMost(r.levels[l][j].smallest, e.user) && AtMost(e.user, r.levels[l][j].largest)
    ensures ReadThrough(Kept(es, r, |es|), deep, t, k) == ReadThrough(es, deep, t, k) <==> !SomeResurrects(es, r, t, k)
  {
    ReadsPreservedExactly(es, r, t, k);
    if !CoveredBelow(r.levels, r.level, k) {
      forall m | 0 <= m < |deep| ensures !Matches(deep[m], t, k) {
        assert deep[m] in deep;
      }
      StreamMisses(deep, t, k);
    }
    if SomeResurrects(es, r, t, k) {
      ResurrectedIsFound(es, r, t, k);
    }
  }

  lemma ResurrectedIsFound(es: seq<Entry>, r: Rule, t: nat, k: Bytes)
    requires Sorted(es) && r.smallest < MAX_SEQUENCE && r.smallest <= t && SomeResurrects(es, r, t, k)
    ensures Lookup(es, t, k) == Deleted && Lookup(Kept(es, r, |es|), t, k).Found?
  {
    var i, j' :| 0 <= i < j' < |es| && Resurrects(es, r, t, k, i, j');
    VisibleNotHidden(es, r, t, k, i);
    StreamAnswers(es, t, k, i);
    var j := FirstSurvivor(es, r, k, i);
    DroppedAnswer(es, r, t, k, i, j);
    OnlyFirstSurvivor(es, r, t, k, i, j, j');
  }

  /**
   * Of readable keys exactly these are dropped: an entry with a newer one of its user key that all snapshots see; and
   * a deletion that all snapshots see, when no file two or more levels down reaches over its user key, unless it is
   * the newest entry of its key and recent.
   */
  lemma DropsExactly(es: seq<Entry>, r: Rule, i: nat)
    requires Sorted(es) && r.smallest < MAX_SEQUENCE && i < |es|
    requires forall m :: 0 <= m < |es| ==> es[m].kind <= VALUE && es[m].seqno < MAX_SEQUENCE
    ensures Drops(es, r, i) <==>
            || (exists m :: 0 <= m < i && es[m].user == es[i].user && es[m].seqno <= r.smallest)
            || (&& es[i].kind == DELETION && es[i].seqno <= r.smallest
                && (forall l, j :: r.level + 2 <= l < |r.levels| && 0 <= j < |r.levels[l]| ==>
                      Less(es[i].user, r.levels[l][j].smallest) || Less(r.levels[l][j].largest, es[i].user))
                && (es[i].seqno >= r.cutoff ==> exists m :: 0 <= m < i && es[m].user == es[i].user))
  {
    forall m | 0 <= m < i && es[m].user == es[i].user
      ensures es[i - 1].user == es[i].user && es[i - 1].seqno <= es[m].seqno
    {
      SameUserRun(es, m, i - 1, i);
    }
    BelowMeans(r.levels, r.level, es[i].user);
  }

  lemma BelowMeans(levels: seq<seq<File>>, level: nat, k: Bytes)
    ensures !CoveredBelow(levels, level, k) <==>
            forall l, j :: level + 2 <= l < |levels| && 0 <= j < |levels[l]| ==>
              Less(k, levels[l][j].smallest) || Less(levels[l][j].largest, k)
  {
    forall l, j | level + 2 <= l < |levels| && 0 <= j < |levels[l]|
      ensures Covers(levels[l][j], k) <==> !(Less(k, levels[l][j].smallest) || Less(levels[l][j].largest, k))
    {
    }
  }

  // ---------- The loop ----------

  predicate Increasing(guards: seq<Bytes>) {
    forall i, j :: 0 <= i < j < |guards| ==> Less(guards[i], guards[j])
  }

  /** The key lies at or after the first g guard keys and before the others. */
  predicate InInterval(guards: seq<Bytes>, g: nat, key: Bytes)
    requires g <= |guards|
  {
    (g > 0 ==> AtMost(guards[g - 1], key)) && (g < |guards| ==> Less(key, guards[g]))
  }

  datatype Output = Output(smallest: Entry, largest: Entry, entries: seq<Entry>)

  /** The file is not empty, records its own bounds, and stays inside guard interval g. */
  predicate InsideGuard(guards: seq<Bytes>, g: nat, o: Output)
    requires g <= |guards|
  {
    && |o.entries| > 0 && o.smallest == o.entries[0] && o.largest == o.entries[|o.entries| - 1]
    && forall i :: 0 <= i < |o.entries| ==> InInterval(guards, g, o.entries[i].user)
  }

  ghost predicate InSomeGuard(guards: seq<Bytes>, o: Output) {
    exists g :: 0 <= g <= |guards| && InsideGuard(guards, g, o)
  }

  /** An output is followed by another one only when it is full, or a guard key lies between them. */
  ghost predicate CutBetween(guards: seq<Bytes>, full: seq<Entry> -> bool, o: Output, next: Output) {
    full(o.entries)
    || exists g :: 0 <= g < |guards| && Less(o.largest.user, guards[g]) && AtMost(guards[g], next.smallest.user)
  }

  /** The output was not full before its last entry. */
  ghost predicate FilledLast(full: seq<Entry> -> bool, o: Output) {
    forall n :: 0 < n < |o.entries| ==> !full(o.entries[..n])
  }

  ghost predicate WellCut(guards: seq<Bytes>, full: seq<Entry> -> bool, outputs: seq<Output>) {
    && (forall i :: 0 <= i < |outputs| - 1 ==> CutBetween(guards, full, outputs[i], outputs[i + 1]))
    && (forall i :: 0 <= i < |outputs| ==> FilledLast(full, outputs[i]))
  }

  ghost predicate CutOk(guards: seq<Bytes>, full: seq<Entry> -> bool, outputs: seq<Output>, building: seq<Output>) {
    && WellCut(guards, full, outputs + building)
    && (|building| == 1 ==> !full(building[0].entries))
    && (building == [] && outputs != [] ==> full(outputs[|outputs| - 1].entries))
  }

  function Contents(outputs: seq<Output>): seq<Entry> {
    if |outputs| == 0 then []
    else Contents(outputs[..|outputs| - 1]) + outputs[|outputs| - 1].entries
  }

  /** The outputs written so far and the one being built. */
  class CompactionState {
    const guards: seq<Bytes>
    var outputs: seq<Output>
    var building: seq<Output>   // the open output file, if there is one
    var guard: nat

    ghost function Written(): seq<Entry>
      reads this
    {
      Contents(outputs) + if |building| > 0 then building[0].entries else []
    }

    ghost predicate Valid()
      reads this
    {
      && Increasing(guards) && guard <= |guards| && |building| <= 1
      && (forall o :: o in outputs ==> InSomeGuard(guards, o))
      && (|building| == 1 ==> InsideGuard(guards, guard, building[0]))
      && (guard > 0 ==> |Written()| > 0 && AtMost(guards[guard - 1], Written()[|Written()| - 1].user))
    }

    constructor (guards: seq<Bytes>)
      requires Increasing(guards)
      ensures Valid() && Written() == [] && building == [] && outputs == [] && this.guards == guards
    {
      this.guards := guards;
      outputs, building, guard := [], [], 0;
    }

    method Finish()
      requires Valid()
      modifies this
      ensures Valid() && Written() == old(Written()) && building == [] && guard == old(guard)
      ensures outputs == old(outputs) + old(building)
    {
      if |building| == 1 {
        ghost var o := building[0];
        assert (outputs + building)[..|outputs|] == outputs;
        outputs, building := outputs + building, [];
      }
    }

    /** Whatever is closed was full or met a guard key, and what is open is not full. */
    ghost predicate Cut(full: seq<Entry> -> bool)
      reads this
    {
      CutOk(guards, full, outputs, building)
    }

    /** The guard interval of a key at or after everything written. */
    method FindInterval(key: Bytes) returns (g: nat)
      requires Valid() && (|Written()| > 0 ==> AtMost(Written()[|Written()| - 1].user, key))
      ensures guard <= g <= |guards| && InInterval(guards, g, key)
    {
      LessIsStrictTotalOrder();
      g := guard;
      while g < |guards| && AtMost(guards[g], key)
        invariant guard <= g <= |guards|
        invariant g > guard ==> AtMost(guards[g - 1], key)
      {
        g := g + 1;
      }
    }

    /** Adds a surviving entry, closing the file first at a guard key and afterwards when it is full. */
    method Add(e: Entry, full: seq<Entry> -> bool)
      requires Valid() && (|Written()| > 0 ==> AtMost(Written()[|Written()| - 1].user, e.user))
      modifies this
      ensures Valid() && Written() == old(Written()) + [e]
      ensures old(Cut(full)) ==> Cut(full)
    {
      ghost var guard0, outputs0, building0 := guard, outputs, building;
      Place(e);
      if CutOk(guards, full, outputs0, building0) {
        StaysCut(guards, full, guard0, outputs0, building0, guard, e, outputs, building);
      }
      CloseIfFull(full);
    }

    method CloseIfFull(full: seq<Entry> -> bool)
      requires Valid() && |building| == 1
      modifies this
      ensures Valid() && Written() == old(Written()) && guard == old(guard)
      ensures old(WellCut(guards, full, outputs + building)) ==> Cut(full)
    {
      if full(building[0].entries) {
        assert outputs + building + [] == outputs + building;
        Finish();
      }
    }

    /** The entry goes to the open file, or to a new one if a guard key lies between. */
    method Place(e: Entry)
      requires Valid() && (|Written()| > 0 ==> AtMost(Written()[|Written()| - 1].user, e.user))
      modifies this
      ensures Valid() && Written() == old(Written()) + [e] && |building| == 1
      ensures guard >= old(guard) && InInterval(guards, guard, e.user)
      ensures outputs == old(outputs) + if guard == old(guard) then [] else old(building)
      ensures building == [Extended(if guard == old(guard) then old(building) else [], e)]
    {
      var g := FindInterval(e.user);
      if g > guard {
        Finish();
      }
      guard := g;
      Append(e);
    }

    method Append(e: Entry)
      requires Increasing(guards) && guard <= |guards| && |building| <= 1 && InInterval(guards, guard, e.user)
      requires forall o :: o in outputs ==> InSomeGuard(guards, o)
      requires |building| == 1 ==> InsideGuard(guards, guard, building[0])
      modifies this`building
      ensures Valid() && Written() == old(Written()) + [e] && building == [Extended(old(building), e)]
    {
      building := [Extended(building, e)];
    }
  }

  /** The open output with one more entry; its bounds are its first and last. */
  function Extended(building: seq<Output>, e: Entry): Output {
    if |building| == 0 then Output(e, e, [e]) else Output(building[0].smallest, e, building[0].entries + [e])
  }

  /** An entry added to a well-cut state leaves it well cut. */
  lemma StaysCut(guards: seq<Bytes>, full: seq<Entry> -> bool, guard: nat, outputs: seq<Output>, building: seq<Output>,
                 guard': nat, e: Entry, outputs': seq<Output>, building': seq<Output>)
    requires Increasing(guards) && guard <= guard' <= |guards| && InInterval(guards, guard', e.user) && |building| <= 1
    requires |building| == 1 ==> InsideGuard(guards, guard, building[0])
    requires CutOk(guards, full, outputs, building)
    requires outputs' == outputs + (if guard' == guard then [] else building)
    requires building' == [Extended(if guard' == guard then building else [], e)]
    ensures WellCut(guards, full, outputs' + building')
  {
    var before, closed := outputs + building, outputs';
    var after := closed + building';
    assert forall i :: 0 <= i < |closed| ==> closed[i] == before[i];
    assert |building| == 1 ==> FilledLast(full, before[|outputs|]);
    ExtendedFills(full, if guard' == guard then building else [], e);
    forall i | 0 <= i < |after| ensures FilledLast(full, after[i]) {
      assert i < |closed| ==> FilledLast(full, before[i]);
    }
    forall i | 0 <= i < |after| - 1 ensures CutBetween(guards, full, after[i], after[i + 1]) {
      if i < |closed| - 1 {
        assert CutBetween(guards, full, before[i], before[i + 1]);
      } else if guard' == guard && |building| == 1 {
        assert CutBetween(guards, full, before[i], before[i + 1]);
      } else if guard' > guard && |building| == 1 {
        GuardBetween(guards, guard, building[0], guard', e);
      }
    }
  }

  lemma ExtendedFills(full: seq<Entry> -> bool, building: seq<Output>, e: Entry)
    requires |building| == 1 ==> FilledLast(full, building[0]) && !full(building[0].entries)
    requires |building| <= 1
    ensures FilledLast(full, Extended(building, e))
  {
    if |building| == 1 {
      var was := building[0].entries;
      forall n | 0 < n < |was| + 1 ensures !full((was + [e])[..n]) {
        assert (was + [e])[..n] == if n == |was| then was else was[..n];
      }
    }
  }

  lemma GuardBetween(guards: seq<Bytes>, guard: nat, o: Output, guard': nat, e: Entry)
    requires Increasing(guards) && guard < guard' <= |guards| && InsideGuard(guards, guard, o)
    requires InInterval(guards, guard', e.user)
    ensures Less(o.largest.user, guards[guard]) && AtMost(guards[guard], e.user)
  {
    LessIsStrictTotalOrder();
    assert InInterval(guards, guard, o.entries[|o.entries| - 1].user);
    if guard < guard' - 1 {
      assert Less(guards[guard], guards[guard' - 1]);
    }
  }

  /** The entry at hand against the last one: whether to drop it. */
  method ShouldDrop(ghost es: seq<Entry>, ghost n: nat, e: Entry, r: Rule, last: nat, scan: BaseLevelScan)
    returns (drop: bool)
    requires n < |es| && e == es[n] && e.kind <= VALUE && last == LastSequence(es, n)
    requires scan.Valid() && scan.level == r.level && scan.levels == r.levels
    requires forall k :: k in scan.asked ==> AtMost(k, e.user)
    modifies scan
    ensures scan.Valid() && scan.asked <= old(scan.asked) + {e.user}
    ensures drop == Drops(es, r, n)
  {
    drop := false;
    if last <= r.smallest {
      drop := true;
    } else if e.kind == DELETION && e.seqno <= r.smallest {
      drop := scan.IsBaseLevelForKey(e.user);
    }
    if drop && last == MAX_SEQUENCE && e.seqno >= r.cutoff {
      drop := false;
    }
  }

  /**
   * The compaction loop: `full` answers whether the open file has reached its size limit. The outputs
   * hold exactly the entries the drop rule keeps, in order, and each stays inside one guard interval.
   */
  method DoCompactionWork(es: seq<Entry>, r: Rule, compact: CompactionState, full: seq<Entry> -> bool, scan: BaseLevelScan)
    requires Sorted(es) && compact.Valid() && compact.Written() == [] && compact.Cut(full)
    requires scan.Valid() && scan.asked == {} && scan.level == r.level && scan.levels == r.levels
    modifies scan, compact
    ensures Contents(compact.outputs) == Kept(es, r, |es|)
    ensures forall o :: o in compact.outputs ==> InSomeGuard(compact.guards, o)
    ensures WellCut(compact.guards, full, compact.outputs)
  {
    var hasKey, key, last := false, [], MAX_SEQUENCE;
    for n := 0 to |es|
      invariant compact.Valid() && compact.Written() == Kept(es, r, n) && compact.Cut(full)
      invariant scan.Valid() && forall k :: k in scan.asked ==> exists m :: 0 <= m < n && es[m].user == k
      invariant hasKey <==> n > 0 && es[n - 1].kind <= VALUE
      invariant hasKey ==> key == es[n - 1].user && last == es[n - 1].seqno
    {
      KeptUsers(es, r, n);
      var e := es[n];
      var drop := false;
      if e.kind > VALUE {
        hasKey := false;
      } else {
        if !hasKey || e.user != key {
          key, hasKey, last := e.user, true, MAX_SEQUENCE;
        }
        drop := ShouldDrop(es, n, e, r, last, scan);
        last := e.seqno;
      }
      if !drop {
        compact.Add(e, full);
      }
    }
    compact.Finish();
  }

  lemma {:induction false} KeptUsers(es: seq<Entry>, r: Rule, n: nat)
    requires Sorted(es) && n < |es|
    ensures forall m :: 0 <= m <= n ==> AtMost(es[m].user, es[n].user)
    ensures var kept := Kept(es, r, n); |kept| > 0 ==> AtMost(kept[|kept| - 1].user, es[n].user)
  {
    LessIsStrictTotalOrder();
    forall m | 0 <= m <= n ensures AtMost(es[m].user, es[n].user) {
      assert m < n ==> EntryBefore(es[m], es[n]);
    }
    KeptFrom(es, r, n);
    var kept := Kept(es, r, n);
    if |kept| > 0 {
      assert kept[|kept| - 1] in es[..n];
    }
  }

  lemma {:induction false} KeptFrom(es: seq<Entry>, r: Rule, n: nat)
    requires n <= |es|
    ensures forall e :: e in Kept(es, r, n) ==> e in es[..n]
  {
    if n > 0 {
      KeptFrom(es, r, n - 1);
      assert es[..n] == es[..n - 1] + [es[n - 1]];
    }
  }
}
