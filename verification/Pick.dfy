/**
 * Choosing a guard compaction's inputs in one level: whatever does not fit the level's complete
 * guards must be compacted, so that what is left and what is written fit them.
 */
module Pick {
  import opened Keys
  import opened Builder
  import opened Guards
  import C = Compaction
  import M = Merger

  // ---------- The complete guards, sorted and without repeats ----------

  method SortUnique(raw: seq<InternalKey>) returns (r: seq<InternalKey>)
    ensures GuardsSorted(r)
    ensures forall u :: HasUser(r, u) <==> HasUser(raw, u)
  {
    r := InsertAll([], raw, map[]);
    ghost var m := Union(map[], FirstCome(raw, |raw|));
    forall u ensures HasUser(r, u) <==> HasUser(raw, u) {
      FirstComeUsers(raw, |raw|, u);
      assert HasUser(r, u) <==> u in m;
    }
  }

  // ---------- What does not fit ----------

  predicate Ordered(f: File) {
    AtMost(f.smallest.user, f.largest.user)
  }

  lemma SlotOfRange(guards: seq<InternalKey>, f: File, slot: nat)
    requires GuardsSorted(guards) && slot <= |guards| && Ordered(f)
    requires slot > 0 ==> AtMost(guards[slot - 1].user, f.smallest.user)
    requires slot < |guards| ==> Less(f.largest.user, guards[slot].user)
    ensures Fits(guards, f)
  {
    LessIsStrictTotalOrder();
    UserSlotAt(guards, f.smallest.user, slot);
    UserSlotAt(guards, f.largest.user, slot);
  }

  /** The sentinel file reaches the first complete guard. */
  predicate LeavesSentinel(complete: seq<InternalKey>, f: File) {
    |complete| > 0 && AtMost(complete[0].user, f.largest.user)
  }

  method SentinelOverflows(complete: seq<InternalKey>, sentinel: seq<File>) returns (b: bool)
    ensures b <==> exists f :: f in sentinel && LeavesSentinel(complete, f)
  {
    for i := 0 to |sentinel|
      invariant forall j :: 0 <= j < i ==> !LeavesSentinel(complete, sentinel[j])
    {
      if |complete| > 0 && AtMost(complete[0].user, sentinel[i].largest.user) {
        assert LeavesSentinel(complete, sentinel[i]);
        return true;
      }
    }
    return false;
  }

  lemma SentinelFits(complete: seq<InternalKey>, f: File)
    requires GuardsSorted(complete) && Ordered(f)
    ensures !LeavesSentinel(complete, f) ==> Fits(complete, f)
  {
    if !LeavesSentinel(complete, f) { SlotOfRange(complete, f, 0); }
  }

  /** The file leaves the interval of complete guard i. */
  predicate LeavesGuard(complete: seq<InternalKey>, i: nat, f: File)
    requires i < |complete|
  {
    Less(f.smallest.user, complete[i].user)
    || (i < |complete| - 1 && AtMost(complete[i + 1].user, f.largest.user))
  }

  method GuardOverflows(complete: seq<InternalKey>, i: nat, list: seq<File>) returns (b: bool)
    requires i < |complete|
    ensures b <==> exists f :: f in list && LeavesGuard(complete, i, f)
  {
    for j := 0 to |list|
      invariant forall k :: 0 <= k < j ==> !LeavesGuard(complete, i, list[k])
    {
      var f := list[j];
      if (i < |complete| - 1
          && (Less(f.smallest.user, complete[i].user) || AtMost(complete[i + 1].user, f.largest.user)))
         || (i == |complete| - 1 && Less(f.smallest.user, complete[i].user)) {
        assert LeavesGuard(complete, i, f);
        return true;
      }
    }
    return false;
  }

  lemma GuardFits(complete: seq<InternalKey>, i: nat, f: File)
    requires GuardsSorted(complete) && i < |complete| && Ordered(f)
    ensures !LeavesGuard(complete, i, f) ==> Fits(complete, f)
  {
    if !LeavesGuard(complete, i, f) { SlotOfRange(complete, f, i + 1); }
  }

  /** Everything is taken when it must be; a horizontal compaction for size alone takes the small files. */
  method Take(list: seq<File>, all: bool, small: File -> bool) returns (r: seq<File>)
    ensures all ==> r == list
    ensures forall f :: f in r <==> f in list && (all || small(f))
  {
    if all { return list; }
    r := [];
    for i := 0 to |list|
      invariant forall f :: f in r <==> f in list[..i] && small(f)
    {
      assert list[..i + 1] == list[..i] + [list[i]];
      if small(list[i]) { r := r + [list[i]]; }
    }
    assert list[..|list|] == list;
  }

  /** What is taken of a slot that overflows, or that its score selects. */
  predicate Taken(overflows: bool, scored: bool, horizontal: bool, small: File -> bool, f: File) {
    overflows || (scored && (!horizontal || small(f)))
  }

  method PickSlot(list: seq<File>, overflows: bool, scored: bool, horizontal: bool, small: File -> bool)
    returns (inputs: seq<File>)
    ensures forall f :: f in inputs <==> f in list && Taken(overflows, scored, horizontal, small, f)
  {
    if overflows || scored {
      inputs := Take(list, overflows || !horizontal, small);
    } else {
      inputs := [];
    }
  }

  /** The level as it stands when inputs are picked; scores and size tests are given. */
  datatype Picking = Picking(complete: seq<InternalKey>, guards: seq<InternalKey>, sentinel: seq<File>,
                             lists: seq<seq<File>>, sentinelScored: bool, scored: seq<bool>, horizontal: bool,
                             small: File -> bool)
  {
    ghost predicate Valid() {
      GuardsSorted(complete) && GuardsSorted(guards) && |lists| == |guards| == |scored|
    }

    ghost predicate FromSentinel(f: File) {
      f in sentinel
      && Taken(exists f' :: f' in sentinel && LeavesSentinel(complete, f'), sentinelScored, horizontal, small, f)
    }

    /** Guard g goes by complete guard i's interval. */
    ghost predicate FromGuard(g: nat, i: nat, f: File)
      requires g < |lists| == |scored| && i < |complete|
    {
      f in lists[g]
      && Taken(exists f' :: f' in lists[g] && LeavesGuard(complete, i, f'), scored[g], horizontal, small, f)
    }

    /** Picked from one of the first n guards. */
    ghost predicate FromGuards(n: nat, f: File)
      requires Valid() && n <= |guards|
    {
      exists g, i :: 0 <= g < n && 0 <= i < |complete| && guards[g].user == complete[i].user && FromGuard(g, i, f)
    }
  }

  /** One level's inputs: exactly the files of overflowing slots, and what the scores select. */
  method PickInputs(p: Picking) returns (inputs: seq<File>)
    requires p.Valid()
    ensures forall f :: f in inputs <==> p.FromSentinel(f) || p.FromGuards(|p.guards|, f)
  {
    var overflows := SentinelOverflows(p.complete, p.sentinel);
    inputs := PickSlot(p.sentinel, overflows, p.sentinelScored, p.horizontal, p.small);
    var iter := 0;
    for i := 0 to |p.complete|
      invariant iter <= |p.guards|
      invariant forall g, j :: iter <= g < |p.guards| && 0 <= j < i ==> Less(p.complete[j].user, p.guards[g].user)
      invariant forall f :: f in inputs <==> p.FromSentinel(f) || p.FromGuards(iter, f)
    {
      ghost var before := iter;
      var index;
      iter, index := MatchGuard(p.complete, p.guards, i, iter);
      var more := [];
      if index >= 0 {
        more := PickGuard(p, index, i);
      }
      MorePicked(p, before, iter, index, i, more);
      inputs := inputs + more;
    }
    UnmatchedGuards(p.complete, p.guards, iter);
    NoMorePicked(p, iter);
  }

  method PickGuard(p: Picking, g: nat, i: nat) returns (inputs: seq<File>)
    requires p.Valid() && g < |p.guards| && i < |p.complete|
    ensures forall f :: f in inputs <==> p.FromGuard(g, i, f)
  {
    var overflows := GuardOverflows(p.complete, i, p.lists[g]);
    inputs := PickSlot(p.lists[g], overflows, p.scored[g], p.horizontal, p.small);
  }

  lemma MorePicked(p: Picking, before: nat, iter: nat, index: int, i: nat, more: seq<File>)
    requires p.Valid() && before <= iter <= |p.guards| && i < |p.complete|
    requires index == -1 || (before <= index == iter - 1 && p.guards[index].user == p.complete[i].user)
    requires forall g :: before <= g < iter && g != index ==> !HasUser(p.complete, p.guards[g].user)
    requires forall f :: f in more <==> index >= 0 && p.FromGuard(index, i, f)
    ensures forall f :: p.FromGuards(iter, f) <==> p.FromGuards(before, f) || f in more
  {
    LessIsStrictTotalOrder();
    forall f ensures p.FromGuards(iter, f) <==> p.FromGuards(before, f) || f in more {
      if p.FromGuards(iter, f) {
        var g, k :| 0 <= g < iter && 0 <= k < |p.complete| && p.guards[g].user == p.complete[k].user
                    && p.FromGuard(g, k, f);
        if g >= before {
          assert HasUser(p.complete, p.guards[g].user);
          assert k == i;
        }
      }
    }
  }

  lemma NoMorePicked(p: Picking, iter: nat)
    requires p.Valid() && iter <= |p.guards|
    requires forall g :: iter <= g < |p.guards| ==> !HasUser(p.complete, p.guards[g].user)
    ensures forall f :: p.FromGuards(|p.guards|, f) <==> p.FromGuards(iter, f)
  {
    forall f | p.FromGuards(|p.guards|, f) ensures p.FromGuards(iter, f) {
      var g, k :| 0 <= g < |p.guards| && 0 <= k < |p.complete| && p.guards[g].user == p.complete[k].user
                  && p.FromGuard(g, k, f);
      assert HasUser(p.complete, p.guards[g].user);
    }
  }

  /** What is left out of the inputs fits the complete guards. */
  lemma LeftOutFits(p: Picking, f: File)
    requires p.Valid() && Ordered(f)
    ensures f in p.sentinel && !p.FromSentinel(f) ==> Fits(p.complete, f)
    ensures !p.FromGuards(|p.guards|, f)
            ==> (forall g :: 0 <= g < |p.guards| && HasUser(p.complete, p.guards[g].user) && f in p.lists[g] ==>
                               Fits(p.complete, f))
  {
    SentinelFits(p.complete, f);
    if g :| 0 <= g < |p.guards| && HasUser(p.complete, p.guards[g].user) && f in p.lists[g]
            && !p.FromGuards(|p.guards|, f)
    {
      var i :| 0 <= i < |p.complete| && p.complete[i].user == p.guards[g].user;
      assert !p.FromGuard(g, i, f);
      GuardFits(p.complete, i, f);
    }
  }

  lemma UnmatchedGuards(complete: seq<InternalKey>, guards: seq<InternalKey>, iter: nat)
    requires forall g, j :: iter <= g < |guards| && 0 <= j < |complete| ==> Less(complete[j].user, guards[g].user)
    ensures forall g :: iter <= g < |guards| ==> !HasUser(complete, guards[g].user)
  {
    LessIsStrictTotalOrder();
  }

  /** Advances over the guards to the one whose key is complete guard i's, if there is one. */
  method MatchGuard(complete: seq<InternalKey>, guards: seq<InternalKey>, i: nat, iter: nat)
    returns (iter': nat, index: int)
    requires GuardsSorted(complete) && GuardsSorted(guards) && i < |complete| && iter <= |guards|
    requires forall g, j :: iter <= g < |guards| && 0 <= j < i ==> Less(complete[j].user, guards[g].user)
    ensures iter <= iter' <= |guards|
    ensures forall g, j :: iter' <= g < |guards| && 0 <= j <= i ==> Less(complete[j].user, guards[g].user)
    ensures index == -1 || (iter <= index == iter' - 1 && guards[index].user == complete[i].user)
    ensures forall g :: iter <= g < iter' && g != index ==> !HasUser(complete, guards[g].user)
  {
    LessIsStrictTotalOrder();
    iter', index := iter, -1;
    while iter' < |guards|
      invariant iter <= iter' <= |guards|
      invariant forall g :: iter <= g < iter' ==> !HasUser(complete, guards[g].user)
    {
      if guards[iter'].user == complete[i].user {
        index, iter' := iter', iter' + 1;
        return;
      } else if Less(complete[i].user, guards[iter'].user) {
        return;
      } else {
        assert forall j :: i < j < |complete| ==> Less(guards[iter'].user, complete[j].user);
      }
      iter' := iter' + 1;
    }
  }

  // ---------- After the compaction ----------

  lemma {:induction false} DealtHolds(files: seq<File>, slots: seq<nat>, i: nat, n: nat)
    requires |slots| == |files| && i < n <= |files|
    ensures files[i] in Dealt(files, slots, slots[i], n)
  {
    if i < n - 1 { DealtHolds(files, slots, i, n - 1); }
  }

  function GuardUsers(guards: seq<InternalKey>): seq<Bytes> {
    seq(|guards|, i requires 0 <= i < |guards| => guards[i].user)
  }

  /** A compaction output as it enters the level's file list. */
  predicate IsFileOf(f: File, o: C.Output) {
    && f.smallest == InternalKey(o.smallest.user, Tag(o.smallest.seqno, o.smallest.kind))
    && f.largest == InternalKey(o.largest.user, Tag(o.largest.seqno, o.largest.kind))
  }

  lemma OutputFits(complete: seq<InternalKey>, o: C.Output, f: File, g: nat)
    requires GuardsSorted(complete) && g <= |complete| && C.InsideGuard(GuardUsers(complete), g, o) && IsFileOf(f, o)
    ensures Fits(complete, f)
  {
    assert C.InInterval(GuardUsers(complete), g, o.entries[0].user);
    assert C.InInterval(GuardUsers(complete), g, o.entries[|o.entries| - 1].user);
    UserSlotAt(complete, f.smallest.user, g);
    UserSlotAt(complete, f.largest.user, g);
  }

  /**
   * The level's files dealt out to its guards and the misfits picked: exactly the files of overflowing slots and
   * those the scores select, so that what is left out fits.
   */
  method PickFromLevel(files: seq<File>, guards: seq<InternalKey>, complete: seq<InternalKey>,
                       sentinelScored: bool, scored: seq<bool>, horizontal: bool, small: File -> bool)
    returns (p: Picking, inputs: seq<File>)
    requires GuardsSorted(guards) && GuardsSorted(complete) && |scored| == |guards| && OneFilePerNumber(files)
    requires forall f :: f in files ==> Ordered(f)
    requires forall g :: 0 <= g < |guards| ==> HasUser(complete, guards[g].user)
    ensures p == Picking(complete, guards, p.sentinel, p.lists, sentinelScored, scored, horizontal, small) && p.Valid()
    ensures Dealing(files, guards, p.sentinel, p.lists)
    ensures forall f :: f in inputs <==> p.FromSentinel(f) || p.FromGuards(|guards|, f)
    ensures forall f :: f in inputs ==> f in files
    ensures forall f :: f in files ==> f in inputs || Fits(complete, f)
  {
    ghost var slots := seq(|files|, i requires 0 <= i < |files| => FileSlot(files, guards, i));
    var sentinel, lists := PopulateFiles(files, guards, slots);
    p := Picking(complete, guards, sentinel, lists, sentinelScored, scored, horizontal, small);
    inputs := PickInputs(p);
    DealtOut(files, guards, slots, sentinel, lists);
    forall f | f in files ensures f in inputs || Fits(complete, f) {
      LeftOutFits(p, f);
    }
  }

  /** The sentinel and the guards hold the level's files and no others. */
  ghost predicate Dealing(files: seq<File>, guards: seq<InternalKey>, sentinel: seq<File>, lists: seq<seq<File>>) {
    && |lists| == |guards| && (forall f :: f in sentinel ==> f in files)
    && (forall g, f :: 0 <= g < |lists| && f in lists[g] ==> f in files)
    && (forall f :: f in files ==> f in sentinel || exists g :: 0 <= g < |lists| && f in lists[g])
  }

  lemma DealtOut(files: seq<File>, guards: seq<InternalKey>, slots: seq<nat>, sentinel: seq<File>, lists: seq<seq<File>>)
    requires SlotsOf(files, guards, slots) && |lists| == |guards| && OneFilePerNumber(files)
    requires sentinel == Dealt(files, slots, 0, |files|)
    requires forall g :: 0 <= g < |guards| ==> lists[g] == Listed(g + 1, Dealt(files, slots, g + 1, |files|))
    ensures Dealing(files, guards, sentinel, lists)
  {
    SlotsRise(files, guards, slots);
    forall f | f in sentinel ensures f in files {
      DealtAmong(files, slots, 0, |files|, f);
    }
    forall g, f | 0 <= g < |lists| && f in lists[g] ensures f in files {
      ListedFrom(files, slots, g + 1, f);
    }
    forall f | f in files ensures f in sentinel || exists g :: 0 <= g < |lists| && f in lists[g] {
      var i :| 0 <= i < |files| && files[i] == f;
      DealtHolds(files, slots, i, |files|);
      if slots[i] > 0 {
        ListedFrom(files, slots, slots[i], f);
        assert f in lists[slots[i] - 1];
      }
    }
  }

  lemma ListedFrom(files: seq<File>, slots: seq<nat>, slot: nat, f: File)
    requires |slots| == |files| && OneFilePerNumber(files)
    ensures var dealt := Dealt(files, slots, slot, |files|);
            (f in Listed(slot, dealt) <==> f in dealt) && (f in dealt ==> f in files)
  {
    DealtOnce(files, slots, slot);
    ListedHolds(slot, Dealt(files, slots, slot, |files|), f);
    if f in Dealt(files, slots, slot, |files|) {
      DealtAmong(files, slots, slot, |files|, f);
    }
  }

  /** The compaction loop split at the complete guards: what is written fits. */
  method WriteOutputs(es: seq<Entry>, r: C.Rule, complete: seq<InternalKey>, full: seq<Entry> -> bool)
    returns (outputs: seq<C.Output>)
    requires Sorted(es) && GuardsSorted(complete)
    requires forall l :: 0 <= l < |r.levels| ==> C.SortedBySmallest(r.levels[l])
    ensures C.Contents(outputs) == C.Kept(es, r, |es|) && C.WellCut(GuardUsers(complete), full, outputs)
    ensures forall o, f :: o in outputs && IsFileOf(f, o) ==> Fits(complete, f)
  {
    var compact := new C.CompactionState(GuardUsers(complete));
    var scan := new C.BaseLevelScan(r.level, r.levels);
    C.DoCompactionWork(es, r, compact, full, scan);
    outputs := compact.outputs;
    forall o, f | o in outputs && IsFileOf(f, o) ensures Fits(complete, f) {
      var g :| 0 <= g <= |complete| && C.InsideGuard(GuardUsers(complete), g, o);
      OutputFits(complete, o, f, g);
    }
  }

  /** The first n files without the inputs, in order. */
  function Remaining(files: seq<File>, inputs: seq<File>, n: nat): seq<File>
    requires n <= |files|
  {
    if n == 0 then [] else Remaining(files, inputs, n - 1) + if files[n - 1] in inputs then [] else [files[n - 1]]
  }

  lemma {:induction false} RemainingHolds(files: seq<File>, inputs: seq<File>, n: nat, f: File)
    requires n <= |files|
    ensures f in Remaining(files, inputs, n) <==> f in files[..n] && f !in inputs
  {
    if n > 0 {
      RemainingHolds(files, inputs, n - 1, f);
      assert files[..n] == files[..n - 1] + [files[n - 1]];
    }
  }

  method RemoveAll(files: seq<File>, inputs: seq<File>) returns (r: seq<File>)
    ensures r == Remaining(files, inputs, |files|)
    ensures forall f :: f in r <==> f in files && f !in inputs
  {
    r := [];
    for i := 0 to |files|
      invariant r == Remaining(files, inputs, i)
    {
      if files[i] !in inputs { r := r + [files[i]]; }
    }
    forall f ensures f in r <==> f in files && f !in inputs {
      RemainingHolds(files, inputs, |files|, f);
      assert files[..|files|] == files;
    }
  }

  /** Every output becomes a file of its own, in order and with rising numbers. */
  method OutputFiles(outputs: seq<C.Output>, number: nat) returns (r: seq<File>)
    ensures |r| == |outputs|
    ensures forall i :: 0 <= i < |outputs| ==> r[i].number == number + i && IsFileOf(r[i], outputs[i])
  {
    r := [];
    for i := 0 to |outputs|
      invariant |r| == i
      invariant forall j :: 0 <= j < i ==> r[j].number == number + j && IsFileOf(r[j], outputs[j])
    {
      var o := outputs[i];
      r := r + [File(number + i, InternalKey(o.smallest.user, Tag(o.smallest.seqno, o.smallest.kind)),
                     InternalKey(o.largest.user, Tag(o.largest.seqno, o.largest.kind)))];
    }
  }

  /** The entries of each file. */
  function Streams(fs: seq<File>, contents: File -> seq<Entry>): seq<seq<Entry>> {
    seq(|fs|, i requires 0 <= i < |fs| => contents(fs[i]))
  }

  /** Reading files of the level along with what the level above gives is reading their sorted merge. */
  ghost predicate ReadsMerged(read: seq<File> -> seq<Entry>, files: seq<File>, contents: File -> seq<Entry>,
                              above: seq<seq<Entry>>) {
    forall fs :: (forall f :: f in fs ==> f in files) ==> M.MergeOf(read(fs), Streams(fs, contents) + above)
  }

  /**
   * A whole automatic compaction as the level it writes to sees it: sort the complete guards, deal
   * the level's files to its guards, pick the misfits, merge them with what the level above gives,
   * split the survivors at the complete guards and install the result. It restores containment: every
   * file left and every file written lies in one guard interval.
   */
  method CompactIntoLevel(files: seq<File>, guards: seq<InternalKey>, completeGuards: seq<InternalKey>,
                          sentinelScored: bool, scored: seq<bool>, horizontal: bool, small: File -> bool,
                          ghost contents: File -> seq<Entry>, ghost above: seq<seq<Entry>>,
                          read: seq<File> -> seq<Entry>, r: C.Rule, full: seq<Entry> -> bool, number: nat)
    returns (complete: seq<InternalKey>, inputs: seq<File>, outputs: seq<C.Output>, written: seq<File>, after: seq<File>)
    requires GuardsSorted(guards) && |scored| == |guards| && OneFilePerNumber(files)
    requires forall f :: f in files ==> Ordered(f)
    requires forall g :: 0 <= g < |guards| ==> HasUser(completeGuards, guards[g].user)
    requires ReadsMerged(read, files, contents, above)
    requires forall l :: 0 <= l < |r.levels| ==> C.SortedBySmallest(r.levels[l])
    ensures GuardsSorted(complete) && forall u :: HasUser(complete, u) <==> HasUser(completeGuards, u)
    ensures forall f :: f in inputs ==> f in files
    ensures M.MergeOf(read(inputs), Streams(inputs, contents) + above)
    ensures C.Contents(outputs) == C.Kept(read(inputs), r, |read(inputs)|)
    ensures C.WellCut(GuardUsers(complete), full, outputs)
    ensures forall f :: f in after ==> Fits(complete, f)
    ensures |written| == |outputs|
    ensures forall i :: 0 <= i < |outputs| ==> written[i].number == number + i && IsFileOf(written[i], outputs[i])
    ensures after == Remaining(files, inputs, |files|) + written
    ensures forall f :: f in after <==> (f in files && f !in inputs) || f in written
  {
    complete := SortUnique(completeGuards);
    var p;
    p, inputs := PickFromLevel(files, guards, complete, sentinelScored, scored, horizontal, small);
    outputs := WriteOutputs(read(inputs), r, complete, full);
    var left := RemoveAll(files, inputs);
    written := OutputFiles(outputs, number);
    after := left + written;
    forall f | f in written ensures Fits(complete, f) {
      var i :| 0 <= i < |written| && written[i] == f;
      assert outputs[i] in outputs && IsFileOf(f, outputs[i]);
    }
  }

  /**
   * With the complete guards as its guards, such a level has exact lookups if and only if no file ends early on a
   * guard's user key.
   */
  lemma CompactedLookupsExactIff(files: seq<File>, complete: seq<InternalKey>, slots: seq<nat>)
    requires GuardsSorted(complete) && BySmallest(files) && SlotsOf(files, complete, slots)
    requires forall f :: f in files ==> Ordered(f) && Fits(complete, f)
    ensures (forall user :: ConsidersExactly(files, complete, slots, user)) <==> NoneEndsEarly(files, complete)
  {
    forall i | 0 <= i < |files| ensures Ordered(files[i]) && Fits(complete, files[i]) {
      assert files[i] in files;
    }
    LookupsExactWhen(files, complete, slots);
  }
}
