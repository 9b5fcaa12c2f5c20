/**
 * Collecting the files of a level that overlap a key range, where each file taken may widen the
 * range and start the search over.
 */
module Overlap {
  import opened Keys
  import opened Compaction

  /** A missing bound stands before, or after, every key. */
  datatype Bound = Unbounded | At(key: Bytes)

  datatype Range = Range(lo: Bound, hi: Bound)

  predicate Overlaps(f: File, r: Range) {
    (r.lo.At? ==> AtMost(r.lo.key, f.largest)) && (r.hi.At? ==> AtMost(f.smallest, r.hi.key))
  }

  predicate InRange(u: Bytes, r: Range) {
    (r.lo.At? ==> AtMost(r.lo.key, u)) && (r.hi.At? ==> AtMost(u, r.hi.key))
  }

  /** A file with a key, and a range with one, overlap exactly when some key is in both. */
  lemma OverlapsIff(f: File, r: Range)
    requires AtMost(f.smallest, f.largest) && (r.lo.At? && r.hi.At? ==> AtMost(r.lo.key, r.hi.key))
    ensures Overlaps(f, r) <==> exists u :: AtMost(f.smallest, u) && AtMost(u, f.largest) && InRange(u, r)
  {
    LessIsStrictTotalOrder();
    var u := if r.lo.At? && Less(f.smallest, r.lo.key) then r.lo.key else f.smallest;
    if Overlaps(f, r) {
      assert AtMost(f.smallest, u) && AtMost(u, f.largest) && InRange(u, r);
    }
  }

  /** A file with a key lies inside a range exactly when all the keys between its bounds do. */
  lemma InsideIff(f: File, r: Range)
    requires AtMost(f.smallest, f.largest)
    ensures Inside(f, r) <==> forall u :: AtMost(f.smallest, u) && AtMost(u, f.largest) ==> InRange(u, r)
  {
    LessIsStrictTotalOrder();
    if forall u :: AtMost(f.smallest, u) && AtMost(u, f.largest) ==> InRange(u, r) {
      assert InRange(f.smallest, r) && InRange(f.largest, r);
    }
  }

  predicate Inside(f: File, r: Range) {
    (r.lo.At? ==> AtMost(r.lo.key, f.smallest)) && (r.hi.At? ==> AtMost(f.largest, r.hi.key))
  }

  /** r lies within q. */
  predicate Within(r: Range, q: Range) {
    && (q.lo.At? ==> r.lo.At? && AtMost(q.lo.key, r.lo.key))
    && (q.hi.At? ==> r.hi.At? && AtMost(r.hi.key, q.hi.key))
  }

  /** The range has absorbed every file it overlaps. */
  predicate Closed(files: seq<File>, r: Range) {
    forall i :: 0 <= i < |files| && Overlaps(files[i], r) ==> Inside(files[i], r)
  }

  /** The least range that holds the request and has absorbed every file it overlaps. */
  ghost predicate IsClosure(files: seq<File>, request: Range, r: Range) {
    && Within(request, r) && Closed(files, r)
    && forall q :: Within(request, q) && Closed(files, q) ==> Within(r, q)
  }

  /** The files among the first n that overlap the range, in file order. */
  function Overlapping(files: seq<File>, r: Range, n: nat): seq<File>
    requires n <= |files|
  {
    if n == 0 then []
    else Overlapping(files, r, n - 1) + (if Overlaps(files[n - 1], r) then [files[n - 1]] else [])
  }

  /** A file is returned exactly when it is one of the level's that overlaps the range. */
  lemma {:induction false} OverlappingHolds(files: seq<File>, r: Range, n: nat, f: File)
    requires n <= |files|
    ensures f in Overlapping(files, r, n) <==> f in files[..n] && Overlaps(f, r)
  {
    if n > 0 {
      OverlappingHolds(files, r, n - 1, f);
      assert files[..n] == files[..n - 1] + [files[n - 1]];
    }
  }

  /** How many files reach out of the range below, and how many above. */
  function Outside(files: seq<File>, r: Range, n: nat): nat
    requires n <= |files|
  {
    if n == 0 then 0
    else Outside(files, r, n - 1)
         + (if r.lo.At? && Less(files[n - 1].smallest, r.lo.key) then 1 else 0)
         + (if r.hi.At? && Less(r.hi.key, files[n - 1].largest) then 1 else 0)
  }

  lemma {:induction false} WiderHasFewerOutside(files: seq<File>, r: Range, r': Range, i: nat, n: nat)
    requires n <= |files| && i < |files| && Within(r, r') && r.lo.At? == r'.lo.At? && r.hi.At? == r'.hi.At?
    requires (r.lo.At? && Less(files[i].smallest, r.lo.key) && r'.lo.key == files[i].smallest)
             || (r.hi.At? && Less(r.hi.key, files[i].largest) && r'.hi.key == files[i].largest)
    ensures Outside(files, r', n) <= Outside(files, r, n)
    ensures i < n ==> Outside(files, r', n) < Outside(files, r, n)
  {
    LessIsStrictTotalOrder();
    if n > 0 { WiderHasFewerOutside(files, r, r', i, n - 1); }
  }

  /** A closed range that holds the current one holds the file it absorbs. */
  lemma AbsorbStaysWithin(files: seq<File>, i: nat, r: Range, q: Range)
    requires i < |files| && Overlaps(files[i], r) && Within(r, q) && Closed(files, q)
    ensures Inside(files[i], q)
  {
    LessIsStrictTotalOrder();
    assert Overlaps(files[i], q);
  }

  method GetOverlappingInputs(files: seq<File>, request: Range) returns (inputs: seq<File>)
    ensures exists r :: IsClosure(files, request, r) && inputs == Overlapping(files, r, |files|)
  {
    LessIsStrictTotalOrder();
    inputs := [];
    var range := request;
    var i := 0;
    while i < |files|
      invariant i <= |files|
      invariant Within(request, range) && range.lo.At? == request.lo.At? && range.hi.At? == request.hi.At?
      invariant forall q :: Within(request, q) && Closed(files, q) ==> Within(range, q)
      invariant inputs == Overlapping(files, range, i)
      invariant forall j :: 0 <= j < i && Overlaps(files[j], range) ==> Inside(files[j], range)
      decreases Outside(files, range, |files|), |files| - i
    {
      var f := files[i];
      ghost var at := i;
      ghost var before := range;
      i := i + 1;
      if Overlaps(f, range) {
        inputs := inputs + [f];
        if range.lo.At? && Less(f.smallest, range.lo.key) {
          range := Range(At(f.smallest), range.hi);
          inputs, i := [], 0;
        } else if range.hi.At? && Less(range.hi.key, f.largest) {
          range := Range(range.lo, At(f.largest));
          inputs, i := [], 0;
        }
        if i == 0 {
          WiderHasFewerOutside(files, before, range, at, |files|);
          forall q | Within(request, q) && Closed(files, q) ensures Within(range, q) {
            AbsorbStaysWithin(files, at, before, q);
          }
        }
      }
    }
    assert IsClosure(files, request, range);
  }

  /** The closure is unique, so the files returned depend on the request alone. */
  lemma ClosureUnique(files: seq<File>, request: Range, r: Range, r': Range)
    requires IsClosure(files, request, r) && IsClosure(files, request, r')
    ensures r == r'
  {
    LessIsStrictTotalOrder();
    assert Within(r, r') && Within(r', r);
  }
}
