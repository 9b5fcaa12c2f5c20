/** A plain cursor over a list, which every iterator of the store is compared with. */
module Cursor {
  import opened Keys

  datatype Op<T> = Seek(target: T) | SeekToFirst | SeekToLast | Next | Prev

  /**
   * Where a move leads in a list of n, with n itself for "not valid". Seek goes to the given bound, the place of
   * the first element not before its target. Next and Prev, which a client may only call on a valid cursor, leave
   * an invalid one where it is.
   */
  function Moved<T>(n: nat, k: nat, op: Op<T>, bound: nat): (k': nat)
    requires k <= n && bound <= n
    ensures k' <= n
  {
    match op
    case Seek(_) => bound
    case SeekToFirst => 0
    case SeekToLast => if n == 0 then 0 else n - 1
    case Next => if k == n then n else k + 1
    case Prev => if k == n || k == 0 then n else k - 1
  }

  function At<T>(list: seq<T>, k: nat): Option<T> {
    if k < |list| then Some(list[k]) else None
  }

  // ---------- What a move shows ----------

  /** The least of these, or none if there are none. */
  ghost predicate Least<T(!new)>(among: T -> bool, before: (T, T) -> bool, found: Option<T>) {
    match found
    case None => forall x :: !among(x)
    case Some(y) => among(y) && forall x :: among(x) ==> !before(x, y)
  }

  ghost predicate Greatest<T(!new)>(among: T -> bool, before: (T, T) -> bool, found: Option<T>) {
    match found
    case None => forall x :: !among(x)
    case Some(y) => among(y) && forall x :: among(x) ==> !before(y, x)
  }

  /**
   * What is shown after a move, told by what there is to show, its order and what was shown before: the least of all,
   * the greatest, the least not early for a target, and the nearest ones after and before.
   */
  ghost predicate Shows<T(!new), Q>(holds: T -> bool, before: (T, T) -> bool, early: (T, Q) -> bool,
                                    was: Option<T>, op: Op<Q>, now: Option<T>) {
    match op
    case Seek(q) => Least((x: T) => holds(x) && !early(x, q), before, now)
    case SeekToFirst => Least(holds, before, now)
    case SeekToLast => Greatest(holds, before, now)
    case Next => if was.None? then now.None? else Least((x: T) => holds(x) && before(was.value, x), before, now)
    case Prev => if was.None? then now.None? else Greatest((x: T) => holds(x) && before(x, was.value), before, now)
  }

  /** A plain cursor over the sorted list of what there is to show shows just that. */
  lemma MovedShows<T(!new), Q>(list: seq<T>, holds: T -> bool, before: (T, T) -> bool, early: (T, Q) -> bool,
                               k: nat, op: Op<Q>, bound: nat)
    requires k <= |list| && bound <= |list| && forall x :: holds(x) <==> x in list
    requires forall i, j :: 0 <= i < |list| && 0 <= j < |list| ==> (before(list[i], list[j]) <==> i < j)
    requires op.Seek? ==> forall j :: 0 <= j < |list| ==> (early(list[j], op.target) <==> j < bound)
    ensures Shows(holds, before, early, At(list, k), op, At(list, Moved(|list|, k, op, bound)))
  {
  }

  /** What was shown before move n. */
  function ShownBefore<T>(was: Option<T>, trace: seq<Option<T>>, n: nat): Option<T>
    requires n <= |trace|
  {
    if n == 0 then was else trace[n - 1]
  }

  /** Every move of a sequence shows what it should after the one before. */
  ghost predicate AllShow<T, Q>(shows: (Option<T>, Op<Q>, Option<T>) -> bool, was: Option<T>, ops: seq<Op<Q>>,
                                trace: seq<Option<T>>) {
    |trace| == |ops| && forall n :: 0 <= n < |ops| ==> shows(ShownBefore(was, trace, n), ops[n], trace[n])
  }

  lemma OneMoreShows<T, Q>(shows: (Option<T>, Op<Q>, Option<T>) -> bool, was: Option<T>, ops: seq<Op<Q>>,
                           trace: seq<Option<T>>)
    requires |trace| == |ops| > 0 && shows(was, ops[0], trace[0])
    requires AllShow(shows, trace[0], ops[1..], trace[1..])
    ensures AllShow(shows, was, ops, trace)
  {
    forall n | 0 < n < |ops| ensures shows(ShownBefore(was, trace, n), ops[n], trace[n]) {
      assert ShownBefore(trace[0], trace[1..], n - 1) == trace[n - 1];
      assert ops[1..][n - 1] == ops[n] && trace[1..][n - 1] == trace[n];
    }
  }
}
