/**
 * One level as edits change it: the versions a running store saves after every edit, with guards appended in
 * between, against the version that replaying its manifest at once gives.
 */
module Replay {
  import opened Keys
  import opened Guards
  import opened Builder
  import opened Manifest

  // ---------- File lists ----------

  /** By smallest key, then by number. */
  predicate FileBefore(a: File, b: File) {
    KeyBefore(a.smallest, b.smallest) || (a.smallest == b.smallest && a.number < b.number)
  }

  predicate FileAtMost(a: File, b: File) {
    !FileBefore(b, a)
  }

  lemma FileTransitive(a: File, b: File, c: File)
    requires FileBefore(a, b) && FileBefore(b, c)
    ensures FileBefore(a, c)
  {
    if KeyBefore(a.smallest, b.smallest) && KeyBefore(b.smallest, c.smallest) {
      KeyTransitive(a.smallest, b.smallest, c.smallest);
    }
  }

  lemma FileAsymmetric(a: File, b: File)
    requires FileBefore(a, b)
    ensures !FileBefore(b, a)
  {
    if FileBefore(b, a) {
      FileTransitive(a, b, a);
      KeyIrreflexive(a.smallest);
    }
  }

  lemma FileTrichotomy(a: File, b: File)
    ensures FileBefore(a, b) || FileBefore(b, a) || (a.smallest == b.smallest && a.number == b.number)
  {
    LessTrichotomy(a.smallest.user, b.smallest.user);
  }

  lemma FileAtMostTransitive(a: File, b: File, c: File)
    requires FileAtMost(a, b) && FileAtMost(b, c)
    ensures FileAtMost(a, c)
  {
    if FileBefore(c, a) {
      FileTrichotomy(b, c);
      if FileBefore(b, c) {
        FileTransitive(b, c, a);
      }
    }
  }

  ghost predicate Ascending(fs: seq<File>) {
    forall i, j :: 0 <= i < j < |fs| ==> FileAtMost(fs[i], fs[j])
  }

  /** By smallest key in the internal order, as lookups need it, and files with one smallest key by number. */
  ghost predicate InFileOrder(fs: seq<File>) {
    && BySmallest(fs)
    && forall i, j :: 0 <= i < j < |fs| && fs[i].smallest == fs[j].smallest ==> fs[i].number <= fs[j].number
  }

  lemma AscendingMeans(fs: seq<File>)
    ensures Ascending(fs) <==> InFileOrder(fs)
  {
    forall i, j | 0 <= i < j < |fs|
      ensures FileAtMost(fs[i], fs[j]) <==>
              && !KeyBefore(fs[j].smallest, fs[i].smallest)
              && (fs[i].smallest == fs[j].smallest ==> fs[i].number <= fs[j].number)
    {
      KeyIrreflexive(fs[i].smallest);
    }
  }

  lemma Tail(a: seq<File>)
    requires |a| > 0 && Ascending(a)
    ensures Ascending(a[1..]) && multiset(a[1..]) == multiset(a) - multiset{a[0]}
  {
    assert a == [a[0]] + a[1..];
    assert forall i :: 0 <= i < |a| - 1 ==> a[1..][i] == a[i + 1];
  }

  /** A collection of files has one list. */
  lemma {:induction false} AscendingUnique(a: seq<File>, b: seq<File>)
    requires Ascending(a) && Ascending(b) && multiset(a) == multiset(b) && OneFilePerNumber(a)
    ensures a == b
  {
    assert |multiset(a)| == |a| && |multiset(b)| == |b|;
    if |a| > 0 {
      HeadsAgree(a, b);
      Tail(a);
      Tail(b);
      assert OneFilePerNumber(a[1..]) by {
        assert forall i :: 0 <= i < |a| - 1 ==> a[1..][i] == a[i + 1];
      }
      AscendingUnique(a[1..], b[1..]);
      assert a == [a[0]] + a[1..] && b == [b[0]] + b[1..];
    }
  }

  lemma HeadsAgree(a: seq<File>, b: seq<File>)
    requires |a| > 0 && |b| > 0 && Ascending(a) && Ascending(b) && multiset(a) == multiset(b) && OneFilePerNumber(a)
    ensures a[0] == b[0]
  {
    assert a[0] in multiset(b) && b[0] in multiset(a);
    var i :| 0 <= i < |b| && b[i] == a[0];
    var j :| 0 <= j < |a| && a[j] == b[0];
    FileTrichotomy(a[0], b[0]);
    if i > 0 && j > 0 {
      assert FileAtMost(b[0], b[i]) && FileAtMost(a[0], a[j]);
    }
  }

  // ---------- Saving files ----------

  /** FileSet::insert: a file with the same smallest key and number is there already. */
  method InsertFile(fs: seq<File>, f: File) returns (r: seq<File>)
    requires Increasing(fs)
    requires forall i :: 0 <= i < |fs| && fs[i].number == f.number ==> fs[i] == f
    ensures Increasing(r)
    ensures forall g :: g in r <==> g in fs || g == f
  {
    var i := 0;
    while i < |fs| && FileBefore(fs[i], f)
      invariant i <= |fs| && forall j :: 0 <= j < i ==> FileBefore(fs[j], f)
    {
      i := i + 1;
    }
    if i < |fs| && !FileBefore(f, fs[i]) {
      FileTrichotomy(f, fs[i]);
      r := fs;
    } else {
      r := fs[..i] + [f] + fs[i..];
      InsertedIncreases(fs, i, f);
    }
  }

  /** A FileSet: each file once. */
  ghost predicate Increasing(fs: seq<File>) {
    forall i, j :: 0 <= i < j < |fs| ==> FileBefore(fs[i], fs[j])
  }

  lemma InsertedIncreases(fs: seq<File>, i: nat, f: File)
    requires Increasing(fs) && i <= |fs| && (i < |fs| ==> FileBefore(f, fs[i]))
    requires forall j :: 0 <= j < i ==> FileBefore(fs[j], f)
    ensures Increasing(fs[..i] + [f] + fs[i..])
  {
    var r := fs[..i] + [f] + fs[i..];
    forall j | i < j < |fs| ensures FileBefore(f, fs[j]) {
      FileTransitive(f, fs[i], fs[j]);
    }
    assert forall j :: 0 <= j < |r| ==> r[j] == if j < i then fs[j] else if j == i then f else fs[j - 1];
  }

  /** MaybeAddFile: a deleted file is passed over. */
  function MaybeAddFile(out: seq<File>, f: File, deleted: set<nat>): seq<File> {
    if f.number in deleted then out else out + [f]
  }

  ghost predicate FilesUpTo(out: seq<File>, f: File) {
    forall i :: 0 <= i < |out| ==> FileAtMost(out[i], f)
  }

  /** The files among the first n that have not been deleted. */
  function Undeleted(fs: seq<File>, deleted: set<nat>, n: nat): multiset<File>
    requires n <= |fs|
  {
    if n == 0 then multiset{}
    else Undeleted(fs, deleted, n - 1) + if fs[n - 1].number in deleted then multiset{} else multiset{fs[n - 1]}
  }

  /** What the merge loops keep. */
  ghost predicate MergingFiles(base: seq<File>, added: seq<File>, deleted: set<nat>, bi: nat, ai: nat, out: seq<File>) {
    && bi <= |base| && ai <= |added| && Ascending(out)
    && multiset(out) == Undeleted(base, deleted, bi) + Undeleted(added, deleted, ai)
    && (bi < |base| ==> FilesUpTo(out, base[bi]))
    && (ai < |added| ==> FilesUpTo(out, added[ai]))
  }

  lemma MaybeAddAscends(out: seq<File>, f: File, deleted: set<nat>)
    requires Ascending(out) && FilesUpTo(out, f)
    ensures Ascending(MaybeAddFile(out, f, deleted)) && FilesUpTo(MaybeAddFile(out, f, deleted), f)
  {
    KeyIrreflexive(f.smallest);
  }

  lemma FilesUpToWider(out: seq<File>, f: File, g: File)
    requires FilesUpTo(out, f) && FileAtMost(f, g)
    ensures FilesUpTo(out, g)
  {
    forall i | 0 <= i < |out| ensures FileAtMost(out[i], g) {
      FileAtMostTransitive(out[i], f, g);
    }
  }

  lemma TakeBaseFile(base: seq<File>, added: seq<File>, deleted: set<nat>, bi: nat, ai: nat, out: seq<File>)
    requires Ascending(base) && MergingFiles(base, added, deleted, bi, ai, out) && bi < |base|
    requires ai < |added| ==> FileAtMost(base[bi], added[ai])
    ensures MergingFiles(base, added, deleted, bi + 1, ai, MaybeAddFile(out, base[bi], deleted))
  {
    var f, out' := base[bi], MaybeAddFile(out, base[bi], deleted);
    MaybeAddAscends(out, f, deleted);
    if bi + 1 < |base| {
      FilesUpToWider(out', f, base[bi + 1]);
    }
    if ai < |added| {
      FilesUpToWider(out', f, added[ai]);
    }
  }

  lemma TakeAddedFile(base: seq<File>, added: seq<File>, deleted: set<nat>, bi: nat, ai: nat, out: seq<File>)
    requires Increasing(added) && MergingFiles(base, added, deleted, bi, ai, out) && ai < |added|
    requires bi < |base| ==> FileBefore(added[ai], base[bi])
    ensures MergingFiles(base, added, deleted, bi, ai + 1, MaybeAddFile(out, added[ai], deleted))
  {
    var f, out' := added[ai], MaybeAddFile(out, added[ai], deleted);
    MaybeAddAscends(out, f, deleted);
    if bi < |base| {
      FileAsymmetric(f, base[bi]);
      FilesUpToWider(out', f, base[bi]);
    }
    if ai + 1 < |added| {
      FileAsymmetric(f, added[ai + 1]);
      FilesUpToWider(out', f, added[ai + 1]);
    }
  }

  method AddBaseFiles(base: seq<File>, added: seq<File>, deleted: set<nat>, bi: nat, ai: nat, out: seq<File>)
      returns (bi': nat, out': seq<File>)
    requires Ascending(base) && MergingFiles(base, added, deleted, bi, ai, out)
    ensures MergingFiles(base, added, deleted, bi', ai, out')
    ensures bi' < |base| ==> ai < |added| && FileBefore(added[ai], base[bi'])
  {
    bi', out' := bi, out;
    while bi' < |base| && (ai == |added| || !FileBefore(added[ai], base[bi']))
      invariant MergingFiles(base, added, deleted, bi', ai, out')
    {
      out' := AddBaseFile(base, added, deleted, bi', ai, out');
      bi' := bi' + 1;
    }
  }

  method AddBaseFile(base: seq<File>, added: seq<File>, deleted: set<nat>, bi: nat, ai: nat, out: seq<File>)
      returns (out': seq<File>)
    requires Ascending(base) && MergingFiles(base, added, deleted, bi, ai, out) && bi < |base|
    requires ai < |added| ==> FileAtMost(base[bi], added[ai])
    ensures MergingFiles(base, added, deleted, bi + 1, ai, out')
  {
    TakeBaseFile(base, added, deleted, bi, ai, out);
    out' := MaybeAddFile(out, base[bi], deleted);
  }

  /** The loops that save a level's files: nothing is lost, nothing but the deleted files is left out. */
  method MergeFiles(base: seq<File>, added: seq<File>, deleted: set<nat>) returns (out: seq<File>)
    requires Ascending(base) && Increasing(added)
    ensures Ascending(out) && InFileOrder(out)
    ensures multiset(out) == Undeleted(base, deleted, |base|) + Undeleted(added, deleted, |added|)
  {
    out := [];
    var bi := 0;
    for ai := 0 to |added|
      invariant MergingFiles(base, added, deleted, bi, ai, out)
    {
      bi, out := AddBaseFiles(base, added, deleted, bi, ai, out);
      TakeAddedFile(base, added, deleted, bi, ai, out);
      out := MaybeAddFile(out, added[ai], deleted);
    }
    bi, out := AddBaseFiles(base, added, deleted, bi, |added|, out);
    AscendingMeans(out);
  }

  // ---------- Edits ----------

  /** One level's part of a version edit. */
  datatype Edit = Edit(deleted: set<nat>, added: seq<File>, guards: seq<InternalKey>, complete: seq<InternalKey>)

  /** One level of a version. The first num complete guards are sorted; writers append behind them. */
  datatype Level = Level(files: seq<File>, guards: seq<InternalKey>, complete: seq<InternalKey>, num: nat)

  function Numbers(fs: seq<File>, n: nat): set<nat>
    requires n <= |fs|
  {
    if n == 0 then {} else Numbers(fs, n - 1) + {fs[n - 1].number}
  }

  /** The file is in one of the first n edits. */
  ghost predicate Mentioned(edits: seq<Edit>, n: nat, f: File)
    requires n <= |edits|
  {
    exists i :: 0 <= i < n && f in edits[i].added
  }

  /** A file number stands for one file throughout the edits. */
  ghost predicate Consistent(edits: seq<Edit>) {
    forall f, g :: Mentioned(edits, |edits|, f) && Mentioned(edits, |edits|, g) && f.number == g.number ==> f == g
  }

  // What one builder has gathered after n edits.
  function Deleted(edits: seq<Edit>, n: nat): set<nat>
    requires n <= |edits|
  {
    if n == 0 then {}
    else Deleted(edits, n - 1) + edits[n - 1].deleted - Numbers(edits[n - 1].added, |edits[n - 1].added|)
  }

  /** The files that are live after n edits: added, and not deleted since. */
  ghost predicate Live(edits: seq<Edit>, n: nat, f: File)
    requires n <= |edits|
  {
    n > 0 && (f in edits[n - 1].added || (Live(edits, n - 1, f) && f.number !in edits[n - 1].deleted))
  }

  ghost predicate AddedAndKept(edits: seq<Edit>, n: nat, f: File, i: int)
    requires n <= |edits|
  {
    0 <= i < n && f in edits[i].added && forall j :: i < j < n ==> f.number !in edits[j].deleted
  }

  /** A file is live exactly when some edit added it and no later one deleted it. */
  lemma {:induction false} LiveMeans(edits: seq<Edit>, n: nat, f: File)
    requires n <= |edits|
    ensures Live(edits, n, f) <==> exists i :: AddedAndKept(edits, n, f, i)
  {
    if n > 0 {
      LiveMeans(edits, n - 1, f);
      if f in edits[n - 1].added {
        assert AddedAndKept(edits, n, f, n - 1);
      } else if Live(edits, n, f) {
        var i :| AddedAndKept(edits, n - 1, f, i);
        assert AddedAndKept(edits, n, f, i);
      } else if i :| AddedAndKept(edits, n, f, i) {
        assert AddedAndKept(edits, n - 1, f, i);
      }
    }
  }

  /** How many times a file is listed when a version is saved after every edit. */
  ghost function Copies(edits: seq<Edit>, n: nat, f: File): nat
    requires n <= |edits|
  {
    if n == 0 then 0
    else
      var e := edits[n - 1];
      (if f.number in e.deleted - Numbers(e.added, |e.added|) then 0 else Copies(edits, n - 1, f))
      + if f in e.added then 1 else 0
  }

  /** No edit adds a file that is live already. */
  ghost predicate NoneReadded(edits: seq<Edit>) {
    forall n, f {:trigger Live(edits, n, f)} :: 0 <= n < |edits| && f in edits[n].added ==> !Live(edits, n, f)
  }

  lemma {:induction false} NumbersOf(fs: seq<File>, n: nat, x: nat)
    requires n <= |fs|
    ensures x in Numbers(fs, n) <==> exists i :: 0 <= i < n && fs[i].number == x
  {
    if n > 0 {
      NumbersOf(fs, n - 1, x);
    }
  }

  lemma {:induction false} LiveMentioned(edits: seq<Edit>, n: nat, f: File)
    requires n <= |edits| && Live(edits, n, f)
    ensures Mentioned(edits, n, f)
  {
    if f !in edits[n - 1].added {
      LiveMentioned(edits, n - 1, f);
    }
  }

  lemma {:induction false} CopiesMentioned(edits: seq<Edit>, n: nat, f: File)
    requires n <= |edits| && Copies(edits, n, f) > 0
    ensures Mentioned(edits, n, f)
  {
    if f !in edits[n - 1].added {
      CopiesMentioned(edits, n - 1, f);
    }
  }

  lemma SameNumberAdded(edits: seq<Edit>, n: nat, f: File)
    requires Consistent(edits) && n < |edits| && Mentioned(edits, n, f)
    ensures f.number in Numbers(edits[n].added, |edits[n].added|) <==> f in edits[n].added
  {
    var added := edits[n].added;
    if f in added {
      var i :| 0 <= i < |added| && added[i] == f;
    }
    NumbersOf(added, |added|, f.number);
    assert Mentioned(edits, |edits|, f);
    if f.number in Numbers(added, |added|) {
      var i :| 0 <= i < |added| && added[i].number == f.number;
      assert Mentioned(edits, |edits|, added[i]);
    }
  }

  /** The last thing an edit said of a live file's number was to add it, of a dead file's to delete it. */
  lemma {:induction false} DeletedOrLive(edits: seq<Edit>, n: nat, f: File)
    requires Consistent(edits) && n <= |edits| && Mentioned(edits, n, f)
    ensures Live(edits, n, f) <==> f.number !in Deleted(edits, n)
  {
    var e := edits[n - 1];
    if exists i :: 0 <= i < n - 1 && f in edits[i].added {
      SameNumberAdded(edits, n - 1, f);
      DeletedOrLive(edits, n - 1, f);
    } else {
      assert f in e.added;
      var i :| 0 <= i < |e.added| && e.added[i] == f;
      NumbersOf(e.added, |e.added|, f.number);
    }
  }

  /** Without a repeated addition, every live file is listed once. */
  lemma {:induction false} CopiesOfLive(edits: seq<Edit>, n: nat, f: File)
    requires Consistent(edits) && NoneReadded(edits) && n <= |edits|
    ensures Copies(edits, n, f) == if Live(edits, n, f) then 1 else 0
  {
    if n > 0 {
      CopiesOfLive(edits, n - 1, f);
      if Live(edits, n - 1, f) {
        LiveMentioned(edits, n - 1, f);
        SameNumberAdded(edits, n - 1, f);
      }
    }
  }

  /** Saving after every edit lists each live file once, throughout, exactly when no edit adds a live file. */
  lemma CopiesExactIff(edits: seq<Edit>)
    requires Consistent(edits)
    ensures (forall n, f {:trigger Copies(edits, n, f)} ::
               0 <= n <= |edits| ==> Copies(edits, n, f) == if Live(edits, n, f) then 1 else 0)
            <==> NoneReadded(edits)
  {
    if NoneReadded(edits) {
      forall n, f | 0 <= n <= |edits| ensures Copies(edits, n, f) == if Live(edits, n, f) then 1 else 0 {
        CopiesOfLive(edits, n, f);
      }
    } else {
      var n, f :| 0 <= n < |edits| && f in edits[n].added && Live(edits, n, f);
      LiveMentioned(edits, n, f);
      SameNumberAdded(edits, n, f);
      assert Copies(edits, n + 1, f) == Copies(edits, n, f) + 1;
      assert Live(edits, n + 1, f);
    }
  }

  lemma {:induction false} UndeletedCount(fs: seq<File>, deleted: set<nat>, n: nat, f: File)
    requires n <= |fs|
    ensures Undeleted(fs, deleted, n)[f] == if f.number in deleted then 0 else multiset(fs[..n])[f]
  {
    if n > 0 {
      UndeletedCount(fs, deleted, n - 1, f);
      assert fs[..n] == fs[..n - 1] + [fs[n - 1]];
    }
  }

  lemma {:induction false} IncreasingCount(fs: seq<File>, n: nat, f: File)
    requires Increasing(fs) && n <= |fs|
    ensures multiset(fs[..n])[f] == if f in fs[..n] then 1 else 0
  {
    if n > 0 {
      IncreasingCount(fs, n - 1, f);
      assert fs[..n] == fs[..n - 1] + [fs[n - 1]];
      NotAmong(fs, n - 1);
    }
  }

  lemma NotAmong(fs: seq<File>, n: nat)
    requires Increasing(fs) && n < |fs|
    ensures fs[n] !in fs[..n]
  {
    KeyIrreflexive(fs[n].smallest);
    assert forall i :: 0 <= i < n ==> FileBefore(fs[i], fs[n]);
  }

  lemma OneAmong(all: seq<File>, fs: seq<File>, f: File)
    requires OneFilePerNumber(all) && f in all && forall g :: g in fs ==> g in all
    ensures forall i :: 0 <= i < |fs| && fs[i].number == f.number ==> fs[i] == f
  {
    var k :| 0 <= k < |all| && all[k] == f;
    forall i | 0 <= i < |fs| && fs[i].number == f.number ensures fs[i] == f {
      assert fs[i] in all;
      var j :| 0 <= j < |all| && all[j] == fs[i];
    }
  }

  // ---------- The builder ----------

  class LevelBuilder {
    const base: Level
    var deleted: set<nat>
    var added: seq<File>
    var addedGuards: seq<InternalKey>
    var addedComplete: seq<InternalKey>
    ghost var guardMap: map<Bytes, nat>
    ghost var completeMap: map<Bytes, nat>

    ghost predicate Valid()
      reads this
    {
      Increasing(added) && Lists(addedGuards, guardMap) && Lists(addedComplete, completeMap)
    }

    constructor (base: Level)
      ensures Valid() && this.base == base
      ensures deleted == {} && added == [] && guardMap == map[] && completeMap == map[]
    {
      this.base := base;
      deleted, added, addedGuards, addedComplete := {}, [], [], [];
      guardMap, completeMap := map[], map[];
    }

    method Apply(edit: Edit)
      requires Valid()
      requires OneFilePerNumber(added + edit.added)
      modifies this
      ensures Valid()
      ensures deleted == old(deleted) + edit.deleted - Numbers(edit.added, |edit.added|)
      ensures forall f :: f in added <==> f in old(added) || f in edit.added
      ensures guardMap == Union(old(guardMap), FirstCome(edit.guards, |edit.guards|))
      ensures completeMap == Union(old(completeMap), FirstCome(edit.complete, |edit.complete|))
    {
      deleted := deleted + edit.deleted;
      AddFiles(edit);
      addedGuards := InsertAll(addedGuards, edit.guards, guardMap);
      guardMap := Union(guardMap, FirstCome(edit.guards, |edit.guards|));
      addedComplete := InsertAll(addedComplete, edit.complete, completeMap);
      completeMap := Union(completeMap, FirstCome(edit.complete, |edit.complete|));
    }

    method AddFiles(edit: Edit)
      requires Increasing(added)
      requires OneFilePerNumber(added + edit.added)
      modifies this`deleted, this`added
      ensures Increasing(added)
      ensures deleted == old(deleted) - Numbers(edit.added, |edit.added|)
      ensures forall f :: f in added <==> f in old(added) || f in edit.added
    {
      for i := 0 to |edit.added|
        invariant Increasing(added)
        invariant deleted == old(deleted) - Numbers(edit.added, i)
        invariant forall f :: f in added <==> f in old(added) || f in edit.added[..i]
      {
        deleted := deleted - {edit.added[i].number};
        OneAmong(old(added) + edit.added, added, edit.added[i]);
        added := InsertFile(added, edit.added[i]);
        assert edit.added[..i + 1] == edit.added[..i] + [edit.added[i]];
      }
      assert edit.added[..|edit.added|] == edit.added;
    }

    /** The version saved, and the complete guards added to the edit. */
    method SaveTo() returns (v: Level, logged: seq<InternalKey>)
      requires Valid() && Ascending(base.files) && GuardsSorted(base.guards)
      requires base.num <= |base.complete| && GuardsSorted(base.complete[..base.num])
      ensures Ascending(v.files) && InFileOrder(v.files)
      ensures multiset(v.files) == Undeleted(base.files, deleted, |base.files|) + Undeleted(added, deleted, |added|)
      ensures Lists(v.guards, Union(FirstCome(base.guards, |base.guards|), guardMap))
      ensures Lists(v.complete, SavedMap(base.complete, base.num, completeMap)) && v.num == |v.complete|
      ensures logged == Logged(base.complete, base.num)
    {
      var files := MergeFiles(base.files, added, deleted);
      SortedRises(base.guards);
      var guards := MergeGuards(base.guards, addedGuards);
      FirstComeOfList(addedGuards, guardMap);
      var complete;
      complete, logged := SaveComplete(base.complete, base.num, addedComplete, completeMap);
      v := Level(files, guards, complete, |complete|);
      AscendingMeans(files);
    }
  }

  // ---------- Replaying and saving after every edit ----------

  function GuardMap(edits: seq<Edit>, n: nat): map<Bytes, nat>
    requires n <= |edits|
  {
    if n == 0 then map[]
    else Union(GuardMap(edits, n - 1), FirstCome(edits[n - 1].guards, |edits[n - 1].guards|))
  }

  function CompleteMap(edits: seq<Edit>, n: nat): map<Bytes, nat>
    requires n <= |edits|
  {
    if n == 0 then map[] else Union(CompleteMap(edits, n - 1), CompleteTags(edits[n - 1]))
  }

  function CompleteTags(edit: Edit): map<Bytes, nat> {
    TagsOf(edit.complete)
  }

  /** The level as one builder saves it after n edits: each live file once. */
  ghost predicate Replayed(edits: seq<Edit>, n: nat, v: Level)
    requires n <= |edits|
  {
    && Lists(v.guards, GuardMap(edits, n)) && Ascending(v.files)
    && forall f :: multiset(v.files)[f] == if Live(edits, n, f) then 1 else 0
  }

  /** The level as saved after each of n edits. */
  ghost predicate Stepped(edits: seq<Edit>, n: nat, v: Level)
    requires n <= |edits|
  {
    && Lists(v.guards, GuardMap(edits, n)) && Ascending(v.files)
    && forall f :: multiset(v.files)[f] == Copies(edits, n, f)
  }

  ghost predicate Gathered(edits: seq<Edit>, n: nat, added: seq<File>)
    requires n <= |edits|
  {
    forall f :: f in added <==> Mentioned(edits, n, f)
  }

  lemma GatheredOnce(edits: seq<Edit>, n: nat, added: seq<File>)
    requires Consistent(edits) && n < |edits| && Gathered(edits, n, added)
    ensures OneFilePerNumber(added + edits[n].added)
  {
    var all := added + edits[n].added;
    forall i | 0 <= i < |all| ensures Mentioned(edits, |edits|, all[i]) {
      if i < |added| {
        assert added[i] in added && Mentioned(edits, n, added[i]);
      } else {
        assert all[i] in edits[n].added;
      }
    }
  }

  lemma GatheredMore(edits: seq<Edit>, n: nat, added: seq<File>, added': seq<File>)
    requires n < |edits| && Gathered(edits, n, added)
    requires forall f :: f in added' <==> f in added || f in edits[n].added
    ensures Gathered(edits, n + 1, added')
  {
    forall f ensures f in added' <==> Mentioned(edits, n + 1, f) {
      assert Mentioned(edits, n + 1, f) <==> Mentioned(edits, n, f) || f in edits[n].added;
    }
  }

  /** The first n records change files and guards as the edits do; they may have more complete guards. */
  ghost predicate Records(manifest: seq<Edit>, edits: seq<Edit>, n: nat) {
    && n <= |manifest| && n <= |edits|
    && forall i :: 0 <= i < n ==>
         && manifest[i].deleted == edits[i].deleted && manifest[i].added == edits[i].added
         && manifest[i].guards == edits[i].guards
  }

  /** Recover, from the first n records: one builder applies them in turn, and saves once. */
  method ReplayEdits(manifest: seq<Edit>, ghost edits: seq<Edit>, n: nat) returns (v: Level)
    requires Consistent(edits) && Records(manifest, edits, n)
    ensures Replayed(edits, n, v) && Lists(v.complete, CompleteMap(manifest, n)) && InFileOrder(v.files)
  {
    var b := new LevelBuilder(Level([], [], [], 0));
    for i := 0 to n
      invariant fresh(b) && b.Valid() && b.base == Level([], [], [], 0) && b.deleted == Deleted(edits, i)
      invariant Gathered(edits, i, b.added)
      invariant b.guardMap == GuardMap(edits, i) && b.completeMap == CompleteMap(manifest, i)
    {
      GatheredOnce(edits, i, b.added);
      ghost var added := b.added;
      b.Apply(manifest[i]);
      GatheredMore(edits, i, added, b.added);
    }
    var logged;
    v, logged := b.SaveTo();
    NothingBefore(b.guardMap);
    SavedOnNothing(b.completeMap);
    ReplayedFiles(edits, n, b.added, v.files);
  }

  lemma SavedOnNothing(m: map<Bytes, nat>)
    ensures SavedMap([], 0, m) == m
  {
    assert Descent([], 0) == 0;
  }

  lemma NothingBefore(m: map<Bytes, nat>)
    ensures Union(map[], m) == m
  {
  }

  lemma ReplayedFiles(edits: seq<Edit>, n: nat, added: seq<File>, files: seq<File>)
    requires Consistent(edits) && n <= |edits| && Increasing(added) && Gathered(edits, n, added)
    requires var deleted := Deleted(edits, n);
             multiset(files) == Undeleted([], deleted, 0) + Undeleted(added, deleted, |added|)
    ensures forall f :: multiset(files)[f] == if Live(edits, n, f) then 1 else 0
  {
    forall f ensures multiset(files)[f] == if Live(edits, n, f) then 1 else 0 {
      ReplayedCount(edits, n, added, f);
    }
  }

  lemma ReplayedCount(edits: seq<Edit>, n: nat, added: seq<File>, f: File)
    requires Consistent(edits) && n <= |edits| && Increasing(added) && Gathered(edits, n, added)
    ensures Undeleted(added, Deleted(edits, n), |added|)[f] == if Live(edits, n, f) then 1 else 0
  {
    UndeletedCount(added, Deleted(edits, n), |added|, f);
    IncreasingCount(added, |added|, f);
    assert added[..|added|] == added;
    if Mentioned(edits, n, f) {
      DeletedOrLive(edits, n, f);
    } else if Live(edits, n, f) {
      LiveMentioned(edits, n, f);
    }
  }

  // ---------- A running store ----------

  /** The guards that writers append to the current version, and then the edit that is logged and applied. */
  datatype Commit = Commit(appended: seq<InternalKey>, edit: Edit)

  /** A level as Recover leaves it. */
  ghost predicate Fresh(v: Level) {
    Increasing(v.files) && GuardsSorted(v.guards) && GuardsSorted(v.complete) && v.num == |v.complete|
  }

  function Grown(v: Level, c: Commit): Level {
    v.(complete := v.complete + c.appended)
  }

  /** The record that LogAndApply writes of the edit. */
  function Record(v: Level, c: Commit): Edit
    requires v.num == |v.complete|
  {
    c.edit.(complete := c.edit.complete + Logged(Grown(v, c).complete, v.num))
  }

  /** WriteSnapshot, before the first record: the current version with all its complete guards. */
  function Snapshot(v: Level, c: Commit): Edit {
    Edit({}, v.files, v.guards, Grown(v, c).complete)
  }

  /** The changes since the start, the snapshot first. */
  function Plan(start: Level, commits: seq<Commit>): seq<Edit> {
    [Edit({}, start.files, start.guards, [])] + seq(|commits|, i requires 0 <= i < |commits| => commits[i].edit)
  }

  /** The complete guards that saving the edit on this version gives. */
  ghost predicate Saved(v: Level, c: Commit, v': Level) {
    && v.num == |v.complete| && v'.num == |v'.complete| && GuardsSorted(v.complete)
    && Lists(v'.complete, SavedMap(Grown(v, c).complete, v.num, FirstCome(c.edit.complete, |c.edit.complete|)))
  }

  ghost predicate Committed(v: Level, c: Commit, v': Level, record: Edit) {
    Saved(v, c, v') && record == Record(v, c)
  }

  /** What the store has saved and written after n commits. */
  ghost predicate Written(versions: seq<Level>, commits: seq<Commit>, manifest: seq<Edit>, n: nat) {
    && |versions| == |manifest| == n + 1 && n <= |commits| && |commits| > 0
    && manifest[0] == Snapshot(versions[0], commits[0])
    && forall i :: 0 <= i < n ==> Committed(versions[i], commits[i], versions[i + 1], manifest[i + 1])
  }

  /** LogAndApply for each commit: a builder on the version before, a version saved, and a record written. */
  method RunStore(start: Level, commits: seq<Commit>) returns (versions: seq<Level>, manifest: seq<Edit>)
    requires Fresh(start) && |commits| > 0 && Consistent(Plan(start, commits))
    ensures Ran(start, commits, versions, manifest)
    ensures forall n :: 0 <= n <= |commits| ==> InFileOrder(versions[n].files)
  {
    ghost var plan := Plan(start, commits);
    var v := start;
    versions, manifest := [v], [Snapshot(v, commits[0])];
    StartStepped(start, commits);
    for n := 0 to |commits|
      invariant Written(versions, commits, manifest, n) && versions[n] == v && versions[0] == start
      invariant v.num == |v.complete| && GuardsSorted(v.complete)
      invariant forall i :: 0 <= i <= n ==> Stepped(plan, i + 1, versions[i])
    {
      assert Stepped(plan, n + 1, v) && plan[n + 1] == commits[n].edit;
      var v', record := LogAndApply(plan, n + 1, v, commits[n]);
      WrittenOn(versions, commits, manifest, n, v', record);
      versions, manifest, v := versions + [v'], manifest + [record], v';
    }
    forall n | 0 <= n <= |commits| ensures InFileOrder(versions[n].files) {
      assert Stepped(plan, n + 1, versions[n]);
      AscendingMeans(versions[n].files);
    }
  }

  lemma WrittenOn(versions: seq<Level>, commits: seq<Commit>, manifest: seq<Edit>, n: nat, v: Level, record: Edit)
    requires Written(versions, commits, manifest, n) && n < |commits|
    requires Committed(versions[n], commits[n], v, record)
    ensures Written(versions + [v], commits, manifest + [record], n + 1)
  {
  }

  lemma StartStepped(start: Level, commits: seq<Commit>)
    requires Fresh(start)
    ensures Stepped(Plan(start, commits), 1, start)
  {
    var plan := Plan(start, commits);
    assert GuardMap(plan, 1) == Union(map[], FirstCome(start.guards, |start.guards|));
    SortedLists(start.guards);
    NothingBefore(FirstCome(start.guards, |start.guards|));
    forall i, j | 0 <= i < j < |start.files| ensures FileAtMost(start.files[i], start.files[j]) {
      FileAsymmetric(start.files[i], start.files[j]);
    }
    forall f ensures multiset(start.files)[f] == Copies(plan, 1, f) {
      IncreasingCount(start.files, |start.files|, f);
      assert start.files[..|start.files|] == start.files;
      assert Copies(plan, 0, f) == 0;
    }
  }

  /** A sorted list lists its own guards. */
  lemma SortedLists(gs: seq<InternalKey>)
    requires GuardsSorted(gs)
    ensures Lists(gs, FirstCome(gs, |gs|))
  {
    forall i | 0 <= i < |gs| ensures gs[i].user in FirstCome(gs, |gs|) && FirstCome(gs, |gs|)[gs[i].user] == gs[i].tag {
      FirstComeOfSorted(gs, |gs|, i);
    }
    forall u | u in FirstCome(gs, |gs|) ensures HasUser(gs, u) {
      FirstComeUsers(gs, |gs|, u);
    }
  }

  method LogAndApply(ghost edits: seq<Edit>, ghost n: nat, base: Level, c: Commit) returns (v: Level, record: Edit)
    requires Consistent(edits) && n < |edits| && edits[n] == c.edit && Stepped(edits, n, base)
    requires base.num == |base.complete| && GuardsSorted(base.complete)
    ensures Stepped(edits, n + 1, v) && Committed(base, c, v, record) && GuardsSorted(v.complete)
    ensures InFileOrder(v.files)
  {
    var b := new LevelBuilder(Grown(base, c));
    AddedOnce(edits, n);
    assert [] + c.edit.added == c.edit.added;
    b.Apply(c.edit);
    assert Grown(base, c).complete[..base.num] == base.complete;
    var logged;
    v, logged := b.SaveTo();
    record := c.edit.(complete := c.edit.complete + logged);
    FirstComeOfList(base.guards, GuardMap(edits, n));
    NothingBefore(FirstCome(c.edit.guards, |c.edit.guards|));
    NothingBefore(FirstCome(c.edit.complete, |c.edit.complete|));
    SteppedFiles(edits, n, base.files, b.added, b.deleted, v.files);
  }

  lemma SteppedFiles(edits: seq<Edit>, n: nat, base: seq<File>, added: seq<File>, deleted: set<nat>, files: seq<File>)
    requires n < |edits| && Increasing(added)
    requires forall f :: multiset(base)[f] == Copies(edits, n, f)
    requires forall f :: f in added <==> f in edits[n].added
    requires deleted == {} + edits[n].deleted - Numbers(edits[n].added, |edits[n].added|)
    requires multiset(files) == Undeleted(base, deleted, |base|) + Undeleted(added, deleted, |added|)
    ensures forall f :: multiset(files)[f] == Copies(edits, n + 1, f)
  {
    assert {} + edits[n].deleted == edits[n].deleted;
    forall f ensures multiset(files)[f] == Copies(edits, n + 1, f) {
      SteppedCount(edits, n, base, added, f);
    }
  }

  lemma AddedOnce(edits: seq<Edit>, n: nat)
    requires Consistent(edits) && n < |edits|
    ensures OneFilePerNumber(edits[n].added)
  {
    var added := edits[n].added;
    forall i | 0 <= i < |added| ensures Mentioned(edits, |edits|, added[i]) {
      assert added[i] in edits[n].added;
    }
  }

  lemma SteppedCount(edits: seq<Edit>, n: nat, base: seq<File>, added: seq<File>, f: File)
    requires n < |edits| && Increasing(added)
    requires forall f :: multiset(base)[f] == Copies(edits, n, f)
    requires forall f :: f in added <==> f in edits[n].added
    ensures var deleted := edits[n].deleted - Numbers(edits[n].added, |edits[n].added|);
            Undeleted(base, deleted, |base|)[f] + Undeleted(added, deleted, |added|)[f] == Copies(edits, n + 1, f)
  {
    var e := edits[n];
    var deleted := e.deleted - Numbers(e.added, |e.added|);
    UndeletedCount(base, deleted, |base|, f);
    UndeletedCount(added, deleted, |added|, f);
    IncreasingCount(added, |added|, f);
    assert base[..|base|] == base && added[..|added|] == added;
    if f in e.added {
      var i :| 0 <= i < |e.added| && e.added[i] == f;
      NumbersOf(e.added, |e.added|, f.number);
    }
  }

  // ---------- Recovering from any prefix of the manifest ----------

  /** The commit's record makes the manifest's guards those of the version saved, if they were before. */
  ghost predicate SettledAt(v: Level, c: Commit, first: bool)
    requires v.num <= |v.complete|
  {
    if first then SettledFirst(CompleteOf(v), Grown(v, c).complete, v.num, CompleteTags(c.edit))
    else Settled(CompleteOf(v), Grown(v, c).complete, v.num, CompleteTags(c.edit))
  }

  function CompleteOf(v: Level): map<Bytes, nat> {
    TagsOf(v.complete)
  }

  lemma SavedTags(v: Level, c: Commit, v': Level)
    requires Saved(v, c, v')
    ensures var base, edit := Grown(v, c).complete, CompleteTags(c.edit);
            CompleteOf(v') == Union(CompleteOf(v), Union(Run(base, v.num), Union(edit, Rest(base, v.num))))
  {
    var base, edit := Grown(v, c).complete, CompleteTags(c.edit);
    assert base[..v.num] == v.complete;
    SortedLists(v.complete);
    SavedInOrder(base, v.num, edit, CompleteOf(v));
    FirstComeOfList(v'.complete, SavedMap(base, v.num, edit));
  }

  lemma SnapshotTags(v: Level, c: Commit)
    requires v.num == |v.complete|
    ensures var base := Grown(v, c).complete;
            CompleteTags(Snapshot(v, c)) == Union(CompleteOf(v), Union(Run(base, v.num), Rest(base, v.num)))
  {
    TagsJoined(v.complete, c.appended, Grown(v, c).complete);
    AppendedInOrder(Grown(v, c).complete, v.num);
    assert Grown(v, c).complete[v.num..] == c.appended;
  }

  /** What the commit makes of the version's guards, and its record of the manifest's. */
  lemma CommitTags(v: Level, c: Commit, v': Level)
    returns (run: map<Bytes, nat>, rest: map<Bytes, nat>, last: map<Bytes, nat>)
    requires Saved(v, c, v')
    ensures CompleteOf(v') == Union(CompleteOf(v), Union(run, Union(CompleteTags(c.edit), rest)))
    ensures CompleteTags(Record(v, c)) == Union(CompleteTags(c.edit), Union(rest, last)) && run.Keys == last.Keys
    ensures CompleteTags(Snapshot(v, c)) == Union(CompleteOf(v), Union(run, rest))
    ensures SettledAt(v, c, false) <==> Union(CompleteOf(v), Union(run, Union(CompleteTags(c.edit), rest)))
                                        == Union(CompleteOf(v), Union(CompleteTags(c.edit), Union(rest, last)))
    ensures SettledAt(v, c, true) <==>
            Union(CompleteOf(v), Union(run, Union(CompleteTags(c.edit), rest)))
            == Union(Union(CompleteOf(v), Union(run, rest)), Union(CompleteTags(c.edit), Union(rest, last)))
  {
    var base := Grown(v, c).complete;
    run, rest, last := Run(base, v.num), Rest(base, v.num), Last(base, v.num);
    SavedTags(v, c, v');
    SnapshotTags(v, c);
    LoggedInOrder(base, v.num, c.edit.complete);
    SameUsersBackwards(base, v.num);
    RecordSettlesIff(CompleteOf(v), base, v.num, CompleteTags(c.edit));
    SnapshotSettlesIff(CompleteOf(v), base, v.num, CompleteTags(c.edit));
  }

  /** A commit keeps the agreement, or the disagreement, of the manifest with the version. */
  lemma CommitAgreesIff(v: Level, c: Commit, v': Level, known: map<Bytes, nat>)
    requires Saved(v, c, v') && known.Keys == CompleteOf(v).Keys
    ensures var known' := Union(known, CompleteTags(Record(v, c)));
            && known'.Keys == CompleteOf(v').Keys
            && (known' == CompleteOf(v') <==> known == CompleteOf(v) && SettledAt(v, c, false))
  {
    var run, rest, last := CommitTags(v, c, v');
    OrdersAgreeOn(CompleteOf(v), known, run, rest, last, CompleteTags(c.edit));
  }

  /** The first record comes after a snapshot that has the appended guards in the order they were appended. */
  lemma FirstAgreesIff(v: Level, c: Commit, v': Level)
    requires Saved(v, c, v')
    ensures var known := Union(CompleteTags(Snapshot(v, c)), CompleteTags(Record(v, c)));
            known.Keys == CompleteOf(v').Keys && (known == CompleteOf(v') <==> SettledAt(v, c, true))
  {
    var run, rest, last := CommitTags(v, c, v');
  }

  /** The first n commits all settle. */
  ghost predicate AllSettled(versions: seq<Level>, commits: seq<Commit>, n: nat)
    requires n <= |commits| && n <= |versions|
  {
    n == 0 || (AllSettled(versions, commits, n - 1) && versions[n - 1].num <= |versions[n - 1].complete|
               && SettledAt(versions[n - 1], commits[n - 1], n == 1))
  }

  /** After any commit: the manifest has the user keys of the version, and its guards if all commits settled. */
  lemma {:induction false} ManifestAgreesIff(versions: seq<Level>, commits: seq<Commit>, manifest: seq<Edit>, n: nat)
    requires Written(versions, commits, manifest, |commits|) && 0 < n <= |commits|
    ensures CompleteMap(manifest, n + 1).Keys == CompleteOf(versions[n]).Keys
    ensures CompleteMap(manifest, n + 1) == CompleteOf(versions[n]) <==> AllSettled(versions, commits, n)
  {
    assert Committed(versions[n - 1], commits[n - 1], versions[n], manifest[n]);
    if n == 1 {
      FirstAgreesIff(versions[0], commits[0], versions[1]);
      NothingBefore(CompleteTags(manifest[0]));
      assert CompleteMap(manifest, 1) == Union(CompleteMap(manifest, 0), CompleteTags(manifest[0]));
    } else {
      ManifestAgreesIff(versions, commits, manifest, n - 1);
      CommitAgreesIff(versions[n - 1], commits[n - 1], versions[n], CompleteMap(manifest, n));
    }
  }

  lemma WrittenRecords(start: Level, versions: seq<Level>, commits: seq<Commit>, manifest: seq<Edit>)
    requires Written(versions, commits, manifest, |commits|) && versions[0] == start
    ensures Records(manifest, Plan(start, commits), |commits| + 1)
  {
    forall i | 0 <= i < |commits| ensures
      && manifest[i + 1].deleted == commits[i].edit.deleted && manifest[i + 1].added == commits[i].edit.added
      && manifest[i + 1].guards == commits[i].edit.guards
    {
      assert Committed(versions[i], commits[i], versions[i + 1], manifest[i + 1]);
    }
  }

  /** The version saved by commit n against the one recovered from the manifest up to its record. */
  ghost predicate Recovers(versions: seq<Level>, commits: seq<Commit>, n: nat, recovered: Level)
    requires n < |commits| && n + 1 < |versions|
  {
    var saved := versions[n + 1];
    && recovered.guards == saved.guards && Users(recovered.complete) == Users(saved.complete)
    && (recovered.complete == saved.complete <==> AllSettled(versions, commits, n + 1))
  }

  lemma GuardsRecovered(start: Level, versions: seq<Level>, commits: seq<Commit>, manifest: seq<Edit>, n: nat, r: Level)
    requires Written(versions, commits, manifest, |commits|) && n < |commits|
    requires Stepped(Plan(start, commits), n + 2, versions[n + 1]) && Replayed(Plan(start, commits), n + 2, r)
    requires Lists(r.complete, CompleteMap(manifest, n + 2))
    ensures Recovers(versions, commits, n, r)
  {
    var saved, logged := versions[n + 1], CompleteMap(manifest, n + 2);
    assert Committed(versions[n], commits[n], saved, manifest[n + 1]);
    ManifestAgreesIff(versions, commits, manifest, n + 1);
    ListsUnique(r.guards, saved.guards, GuardMap(Plan(start, commits), n + 2));
    SameCompleteIff(saved, r, logged);
  }

  lemma SameCompleteIff(saved: Level, r: Level, logged: map<Bytes, nat>)
    requires GuardsSorted(saved.complete) && Lists(r.complete, logged) && logged.Keys == CompleteOf(saved).Keys
    ensures Users(r.complete) == Users(saved.complete)
    ensures r.complete == saved.complete <==> logged == CompleteOf(saved)
  {
    SortedLists(saved.complete);
    UsersListed(r.complete, logged);
    UsersListed(saved.complete, CompleteOf(saved));
    FirstComeOfList(r.complete, logged);
    if logged == CompleteOf(saved) {
      ListsUnique(r.complete, saved.complete, logged);
    }
  }

  /** The manifest and the versions that go with it. */
  ghost predicate Ran(start: Level, commits: seq<Commit>, versions: seq<Level>, manifest: seq<Edit>) {
    && Written(versions, commits, manifest, |commits|) && versions[0] == start
    && forall n :: 0 <= n <= |commits| ==> Stepped(Plan(start, commits), n + 1, versions[n])
  }

  /** Recovery from the manifest up to the record of commit n. */
  method RecoverAt(start: Level, commits: seq<Commit>, ghost versions: seq<Level>, manifest: seq<Edit>, n: nat)
    returns (r: Level)
    requires Ran(start, commits, versions, manifest) && Consistent(Plan(start, commits)) && n < |commits|
    ensures Replayed(Plan(start, commits), n + 2, r) && Recovers(versions, commits, n, r)
  {
    WrittenRecords(start, versions, commits, manifest);
    r := ReplayEdits(manifest, Plan(start, commits), n + 2);
    GuardsRecovered(start, versions, commits, manifest, n, r);
  }

  method RecoverEach(start: Level, commits: seq<Commit>, ghost versions: seq<Level>, manifest: seq<Edit>)
    returns (recovered: seq<Level>)
    requires Ran(start, commits, versions, manifest) && Consistent(Plan(start, commits))
    ensures |recovered| == |commits|
    ensures forall n :: 0 <= n < |commits| ==> Replayed(Plan(start, commits), n + 2, recovered[n])
    ensures forall n :: 0 <= n < |commits| ==> Recovers(versions, commits, n, recovered[n])
  {
    recovered := [];
    for n := 0 to |commits|
      invariant |recovered| == n
      invariant forall i :: 0 <= i < n ==> Replayed(Plan(start, commits), i + 2, recovered[i])
      invariant forall i :: 0 <= i < n ==> Recovers(versions, commits, i, recovered[i])
    {
      var r := RecoverAt(start, commits, versions, manifest, n);
      recovered := recovered + [r];
    }
  }

  /**
   * A store runs, and is recovered from its manifest after each record. The guards come back, and so do the user keys
   * of the complete guards. The complete guards come back with their tags exactly when every commit so far settled,
   * and the files throughout exactly when no edit added a file that was live.
   */
  method RunAndRecover(start: Level, commits: seq<Commit>) returns (versions: seq<Level>, recovered: seq<Level>)
    requires Fresh(start) && |commits| > 0 && Consistent(Plan(start, commits))
    ensures |versions| == |commits| + 1 && |recovered| == |commits| && versions[0] == start
    ensures forall n :: 0 <= n < |commits| ==> Saved(versions[n], commits[n], versions[n + 1])
    ensures forall n :: 0 <= n <= |commits| ==> InFileOrder(versions[n].files)
    ensures forall n :: 0 <= n < |commits| ==> Recovers(versions, commits, n, recovered[n])
    ensures (forall n :: 0 <= n < |commits| ==> recovered[n].files == versions[n + 1].files)
            <==> NoneReadded(Plan(start, commits))
  {
    var manifest;
    versions, manifest := RunStore(start, commits);
    recovered := RecoverEach(start, commits, versions, manifest);
    RanSaved(start, commits, versions, manifest);
    FilesRecoveredIff(start, commits, versions, manifest, recovered);
  }

  lemma RanSaved(start: Level, commits: seq<Commit>, versions: seq<Level>, manifest: seq<Edit>)
    requires Ran(start, commits, versions, manifest)
    ensures forall n :: 0 <= n < |commits| ==> Saved(versions[n], commits[n], versions[n + 1])
  {
    forall n | 0 <= n < |commits| ensures Saved(versions[n], commits[n], versions[n + 1]) {
      assert Committed(versions[n], commits[n], versions[n + 1], manifest[n + 1]);
    }
  }

  lemma FilesRecoveredIff(start: Level, commits: seq<Commit>, versions: seq<Level>, manifest: seq<Edit>,
                          recovered: seq<Level>)
    requires Ran(start, commits, versions, manifest) && Consistent(Plan(start, commits))
    requires |recovered| == |commits|
    requires forall n :: 0 <= n < |commits| ==> Replayed(Plan(start, commits), n + 2, recovered[n])
    ensures (forall n :: 0 <= n < |commits| ==> recovered[n].files == versions[n + 1].files)
            <==> NoneReadded(Plan(start, commits))
  {
    var plan := Plan(start, commits);
    if NoneReadded(plan) {
      forall n | 0 <= n < |commits| ensures recovered[n].files == versions[n + 1].files {
        SameFiles(plan, n + 2, versions[n + 1], recovered[n]);
      }
    } else {
      var n, f :| 0 <= n < |plan| && f in plan[n].added && Live(plan, n, f);
      ReaddedDiffers(plan, n, f);
      assert Stepped(plan, n + 1, versions[n]) && Replayed(plan, n + 1, recovered[n - 1]);
      assert multiset(versions[n].files)[f] != multiset(recovered[n - 1].files)[f];
    }
  }

  /** With no complete guards in the edit: a later commit settles exactly when no new key of its run comes twice. */
  lemma SettledIffNoRepeats(v: Level, c: Commit)
    requires v.num == |v.complete| && c.edit.complete == [] && TagsApart(Grown(v, c).complete, v.num)
    ensures SettledAt(v, c, false) <==> NoNewRepeats(CompleteOf(v), Grown(v, c).complete, v.num)
  {
    RepeatsUnsettle(CompleteOf(v), Grown(v, c).complete, v.num);
  }

  /** One guard key written twice between two commits: the store keeps the first guard, recovery finds the second. */
  lemma TwiceWrittenNotSettled(versions: seq<Level>, u: Bytes, tag: nat, tag': nat)
    requires tag != tag' && |versions| == 3 && versions[0] == Level([], [], [], 0)
    requires var idle := Edit({}, [], [], []);
             && Saved(versions[0], Commit([], idle), versions[1])
             && Saved(versions[1], Commit([InternalKey(u, tag), InternalKey(u, tag')], idle), versions[2])
    ensures var idle := Edit({}, [], [], []);
            var commits := [Commit([], idle), Commit([InternalKey(u, tag), InternalKey(u, tag')], idle)];
            versions[2].complete == [InternalKey(u, tag)] && !AllSettled(versions, commits, 2)
  {
    NothingSaved(versions[0], versions[1]);
    TwiceSaved(versions[1], versions[2], u, tag, tag');
  }

  lemma NothingSaved(v: Level, v': Level)
    requires v == Level([], [], [], 0) && Saved(v, Commit([], Edit({}, [], [], [])), v')
    ensures v'.complete == [] && v'.num == 0
  {
    var none: seq<InternalKey> := [];
    assert none + none == none && FirstCome(none, 0) == map[];
    SavedOnNothing(map[]);
    ListsUnique(v'.complete, none, map[]);
  }

  lemma TwiceSaved(v: Level, v': Level, u: Bytes, tag: nat, tag': nat)
    requires tag != tag' && v.complete == [] && v.num == 0
    requires Saved(v, Commit([InternalKey(u, tag), InternalKey(u, tag')], Edit({}, [], [], [])), v')
    ensures v'.complete == [InternalKey(u, tag)]
    ensures !SettledAt(v, Commit([InternalKey(u, tag), InternalKey(u, tag')], Edit({}, [], [], [])), false)
  {
    var none: seq<InternalKey>, base := [], [InternalKey(u, tag), InternalKey(u, tag')];
    assert none + base == base;
    TwiceAppendedDiffers(base, InternalKey(u, tag), InternalKey(u, tag'));
    ListsUnique(v'.complete, [InternalKey(u, tag)], map[u := tag]);
  }

  lemma SameFiles(edits: seq<Edit>, n: nat, v: Level, w: Level)
    requires Consistent(edits) && NoneReadded(edits) && n <= |edits| && Stepped(edits, n, v) && Replayed(edits, n, w)
    ensures v.files == w.files
  {
    forall f ensures multiset(v.files)[f] == multiset(w.files)[f] {
      CopiesOfLive(edits, n, f);
    }
    assert multiset(v.files) == multiset(w.files);
    forall i | 0 <= i < |v.files| ensures Mentioned(edits, |edits|, v.files[i]) {
      assert v.files[i] in multiset(v.files);
      CopiesMentioned(edits, n, v.files[i]);
    }
    AscendingUnique(v.files, w.files);
  }

  /** A file added while it is live is listed twice by the running store, and once after recovery. */
  lemma ReaddedDiffers(edits: seq<Edit>, n: nat, f: File)
    requires Consistent(edits) && n < |edits| && f in edits[n].added && Live(edits, n, f)
    ensures n > 0 && Live(edits, n + 1, f) && Copies(edits, n + 1, f) > 1
  {
    LiveMentioned(edits, n, f);
    SameNumberAdded(edits, n, f);
    LiveCopied(edits, n, f);
  }

  lemma {:induction false} LiveCopied(edits: seq<Edit>, n: nat, f: File)
    requires Consistent(edits) && n <= |edits| && Live(edits, n, f)
    ensures Copies(edits, n, f) > 0
  {
    if f !in edits[n - 1].added {
      LiveCopied(edits, n - 1, f);
      LiveMentioned(edits, n - 1, f);
      SameNumberAdded(edits, n - 1, f);
    }
  }

  /** A file added twice is listed twice by the running store, and once after recovery. */
  lemma ReaddedFileListedTwice(f: File)
    ensures var edits := [Edit({}, [f], [], []), Edit({}, [f], [], [])];
            Copies(edits, 2, f) == 2 && Live(edits, 2, f) && !NoneReadded(edits)
  {
    var edits := [Edit({}, [f], [], []), Edit({}, [f], [], [])];
    assert Copies(edits, 1, f) == 1;
    assert Live(edits, 1, f) && f in edits[1].added;
  }
}
