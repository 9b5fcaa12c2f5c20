/**
 * Complete guards in the manifest. A version keeps the first of the guards appended with one user key; the record
 * lists the rising ones backwards, so recovery may keep another one. User keys always agree, and this says exactly
 * when the whole guards do.
 */
module Manifest {
  import opened Keys
  import opened Guards
  import opened Builder

  type Tags = map<Bytes, nat>

  /** The tag of the last guard of each user key among those from lo up to hi. */
  function LastCome(gs: seq<InternalKey>, lo: nat, hi: nat): Tags
    requires hi <= |gs|
    decreases hi - lo
  {
    if lo >= hi then map[] else Admit(LastCome(gs, lo + 1, hi), gs[lo])
  }

  lemma {:induction false} FirstComePrefix(a: seq<InternalKey>, b: seq<InternalKey>, n: nat)
    requires n <= |a|
    ensures FirstCome(a + b, n) == FirstCome(a, n)
  {
    if n > 0 {
      FirstComePrefix(a, b, n - 1);
    }
  }

  lemma {:induction false} FirstComeAppend(a: seq<InternalKey>, b: seq<InternalKey>, n: nat)
    requires n <= |b|
    ensures FirstCome(a + b, |a| + n) == Union(FirstCome(a, |a|), FirstCome(b, n))
  {
    if n == 0 {
      FirstComePrefix(a, b, |a|);
    } else {
      FirstComeAppend(a, b, n - 1);
      assert (a + b)[|a| + n - 1] == b[n - 1];
    }
  }

  function TagsOf(gs: seq<InternalKey>): Tags {
    FirstCome(gs, |gs|)
  }

  lemma TagsJoined(a: seq<InternalKey>, b: seq<InternalKey>, c: seq<InternalKey>)
    requires c == a + b
    ensures TagsOf(c) == Union(TagsOf(a), TagsOf(b))
  {
    FirstComeAppend(a, b, |b|);
  }

  lemma {:induction false} BackwardsLastCome(gs: seq<InternalKey>, lo: nat, hi: nat)
    requires lo <= hi <= |gs|
    ensures FirstCome(Backwards(gs, lo, hi), |Backwards(gs, lo, hi)|) == LastCome(gs, lo, hi)
    decreases hi - lo
  {
    if lo < hi {
      var front := Backwards(gs, lo + 1, hi);
      BackwardsLastCome(gs, lo + 1, hi);
      FirstComePrefix(front, [gs[lo]], |front|);
    }
  }

  // ---------- What was appended ----------

  /** The appended guards up to the first descent. */
  function Run(base: seq<InternalKey>, num: nat): (r: Tags)
    requires num <= |base|
  {
    TagsOf(base[num..Descent(base, num)])
  }

  /** The appended guards from there on. */
  function Rest(base: seq<InternalKey>, num: nat): Tags
    requires num <= |base|
  {
    TagsOf(base[Descent(base, num)..])
  }

  function Last(base: seq<InternalKey>, num: nat): Tags
    requires num <= |base|
  {
    LastCome(base, num, Descent(base, num))
  }

  lemma {:induction false} LastComeUsers(gs: seq<InternalKey>, lo: nat, hi: nat, u: Bytes)
    requires lo <= hi <= |gs|
    ensures u in LastCome(gs, lo, hi) <==> exists i :: lo <= i < hi && gs[i].user == u
    decreases hi - lo
  {
    if lo < hi {
      LastComeUsers(gs, lo + 1, hi, u);
    }
  }

  lemma SameUsersBackwards(base: seq<InternalKey>, num: nat)
    requires num <= |base|
    ensures Run(base, num).Keys == Last(base, num).Keys
  {
    var start := Descent(base, num);
    var run := base[num..start];
    forall u ensures u in Run(base, num) <==> u in Last(base, num) {
      FirstComeUsers(run, |run|, u);
      LastComeUsers(base, num, start, u);
      if u in Run(base, num) {
        var i :| 0 <= i < |run| && run[i].user == u;
        assert base[num + i].user == u;
      }
      if u in Last(base, num) {
        var i :| num <= i < start && base[i].user == u;
        assert run[i - num].user == u;
      }
    }
  }

  lemma UnionAssociates(a: Tags, b: Tags, c: Tags)
    ensures Union(Union(a, b), c) == Union(a, Union(b, c))
  {
  }

  lemma BeforeDescent(base: seq<InternalKey>, num: nat, known: Tags)
    requires num <= |base| && Lists(base[..num], known)
    ensures TagsOf(base[..Descent(base, num)]) == Union(known, Run(base, num))
  {
    var start := Descent(base, num);
    FirstComeOfList(base[..num], known);
    assert base[..start] == base[..num] + base[num..start];
    TagsJoined(base[..num], base[num..start], base[..start]);
  }

  /** The version takes the known guards, the run, the edit's and the rest, in this order. */
  lemma SavedInOrder(base: seq<InternalKey>, num: nat, edit: Tags, known: Tags)
    requires num <= |base| && Lists(base[..num], known)
    ensures SavedMap(base, num, edit) == Union(known, Union(Run(base, num), Union(edit, Rest(base, num))))
  {
    BeforeDescent(base, num, known);
    UnionAssociates(known, Run(base, num), Union(edit, Rest(base, num)));
  }

  /** The record has the edit's, the rest and the run backwards, in this order. */
  lemma LoggedInOrder(base: seq<InternalKey>, num: nat, edit: seq<InternalKey>)
    requires num <= |base|
    ensures TagsOf(edit + Logged(base, num)) == Union(TagsOf(edit), Union(Rest(base, num), Last(base, num)))
  {
    var start := Descent(base, num);
    BackwardsLastCome(base, num, start);
    TagsJoined(base[start..], Backwards(base, num, start), Logged(base, num));
    TagsJoined(edit, Logged(base, num), edit + Logged(base, num));
  }

  lemma AppendedInOrder(base: seq<InternalKey>, num: nat)
    requires num <= |base|
    ensures TagsOf(base[num..]) == Union(Run(base, num), Rest(base, num))
  {
    var start := Descent(base, num);
    assert base[num..] == base[num..start] + base[start..];
    TagsJoined(base[num..start], base[start..], base[num..]);
  }

  // ---------- When the manifest has the version's guards ----------

  /** What was known stays as it was, so the orders agree only if the known guards do. */
  lemma OrdersAgreeOn(known: Tags, known': Tags, run: Tags, rest: Tags, last: Tags, edit: Tags)
    requires known.Keys == known'.Keys && run.Keys == last.Keys
    ensures var version := Union(known, Union(run, Union(edit, rest)));
            && version.Keys == Union(known', Union(edit, Union(rest, last))).Keys
            && (version == Union(known', Union(edit, Union(rest, last))) <==>
                  known' == known && version == Union(known, Union(edit, Union(rest, last))))
  {
    KnownStays(known, known', Union(run, Union(edit, rest)), Union(edit, Union(rest, last)));
  }

  lemma KnownStays(a: Tags, b: Tags, x: Tags, y: Tags)
    requires a.Keys == b.Keys
    ensures Union(a, x) == Union(b, y) ==> a == b
  {
    if Union(a, x) == Union(b, y) {
      forall u | u in a ensures a[u] == b[u] {
        assert Union(a, x)[u] == a[u] && Union(b, y)[u] == b[u];
      }
    }
  }

  /**
   * A record brings the version's guards to the manifest: a new user key appended in the rising run has the same
   * tag where it comes first in the edit, else where it comes first after the run, else where it comes last in it.
   */
  ghost predicate Settled(known: Tags, base: seq<InternalKey>, num: nat, edit: Tags)
    requires num <= |base|
  {
    var run, rest, last := Run(base, num), Rest(base, num), Last(base, num);
    forall u :: u in run && u !in known && (u in edit || u in rest || u in last) ==>
                  run[u] == if u in edit then edit[u] else if u in rest then rest[u] else last[u]
  }

  /** The same for the first record, which follows a snapshot of the version with its appended guards. */
  ghost predicate SettledFirst(known: Tags, base: seq<InternalKey>, num: nat, edit: Tags)
    requires num <= |base|
  {
    var run, rest := Run(base, num), Rest(base, num);
    forall u :: u in edit && u in rest && u !in known && u !in run ==> edit[u] == rest[u]
  }

  lemma RecordSettlesIff(known: Tags, base: seq<InternalKey>, num: nat, edit: Tags)
    requires num <= |base|
    ensures var run, rest, last := Run(base, num), Rest(base, num), Last(base, num);
            Union(known, Union(run, Union(edit, rest))) == Union(known, Union(edit, Union(rest, last)))
            <==> Settled(known, base, num, edit)
  {
    SameUsersBackwards(base, num);
    OrdersAgreeIff(known, Run(base, num), Rest(base, num), Last(base, num), edit);
  }

  lemma OrdersAgreeIff(known: Tags, run: Tags, rest: Tags, last: Tags, edit: Tags)
    requires run.Keys == last.Keys
    ensures Union(known, Union(run, Union(edit, rest))) == Union(known, Union(edit, Union(rest, last)))
            <==> forall u :: u in run && u !in known && (u in edit || u in rest || u in last) ==>
                   run[u] == if u in edit then edit[u] else if u in rest then rest[u] else last[u]
  {
    var version := Union(known, Union(run, Union(edit, rest)));
    var record := Union(known, Union(edit, Union(rest, last)));
    assert version.Keys == record.Keys;
    forall u | u in version ensures
      version[u] == record[u] <==>
      (u in run && u !in known ==> run[u] == if u in edit then edit[u] else if u in rest then rest[u] else last[u])
    {
    }
  }

  lemma SnapshotSettlesIff(known: Tags, base: seq<InternalKey>, num: nat, edit: Tags)
    requires num <= |base|
    ensures var run, rest, last := Run(base, num), Rest(base, num), Last(base, num);
            Union(known, Union(run, Union(edit, rest)))
            == Union(Union(known, Union(run, rest)), Union(edit, Union(rest, last)))
            <==> SettledFirst(known, base, num, edit)
  {
    SameUsersBackwards(base, num);
    SnapshotAgreesIff(known, Run(base, num), Rest(base, num), Last(base, num), edit);
  }

  lemma SnapshotAgreesIff(known: Tags, run: Tags, rest: Tags, last: Tags, edit: Tags)
    requires run.Keys == last.Keys
    ensures Union(known, Union(run, Union(edit, rest)))
            == Union(Union(known, Union(run, rest)), Union(edit, Union(rest, last)))
            <==> forall u :: u in edit && u in rest && u !in known && u !in run ==> edit[u] == rest[u]
  {
    var version := Union(known, Union(run, Union(edit, rest)));
    var record := Union(Union(known, Union(run, rest)), Union(edit, Union(rest, last)));
    assert version.Keys == record.Keys;
    forall u | u in version ensures
      version[u] == record[u] <==> (u in edit && u in rest && u !in known && u !in run ==> edit[u] == rest[u])
    {
      SnapshotAgreesAt(known, run, rest, last, edit, u);
    }
  }

  lemma SnapshotAgreesAt(known: Tags, run: Tags, rest: Tags, last: Tags, edit: Tags, u: Bytes)
    requires run.Keys == last.Keys && u in Union(known, Union(run, Union(edit, rest)))
    ensures u in Union(Union(known, Union(run, rest)), Union(edit, Union(rest, last)))
    ensures Union(known, Union(run, Union(edit, rest)))[u]
            == Union(Union(known, Union(run, rest)), Union(edit, Union(rest, last)))[u]
            <==> (u in edit && u in rest && u !in known && u !in run ==> edit[u] == rest[u])
  {
  }

  // ---------- The condition in terms of repeats ----------

  /** No two appended guards of one user key have the same tag: each got its own sequence number. */
  ghost predicate TagsApart(base: seq<InternalKey>, num: nat) {
    forall i, j :: num <= i < j < |base| && base[i].user == base[j].user ==> base[i].tag != base[j].tag
  }

  lemma {:induction false} FirstAt(gs: seq<InternalKey>, n: nat, u: Bytes) returns (i: nat)
    requires n <= |gs| && u in FirstCome(gs, n)
    ensures i < n && gs[i].user == u && gs[i].tag == FirstCome(gs, n)[u]
    ensures forall j :: 0 <= j < i ==> gs[j].user != u
  {
    if u in FirstCome(gs, n - 1) {
      i := FirstAt(gs, n - 1, u);
    } else {
      i := n - 1;
      FirstComeUsers(gs, n - 1, u);
    }
  }

  lemma {:induction false} LastAt(gs: seq<InternalKey>, lo: nat, hi: nat, u: Bytes) returns (i: nat)
    requires hi <= |gs| && u in LastCome(gs, lo, hi)
    ensures lo <= i < hi && gs[i].user == u && gs[i].tag == LastCome(gs, lo, hi)[u]
    ensures forall j :: i < j < hi ==> gs[j].user != u
    decreases hi - lo
  {
    if u in LastCome(gs, lo + 1, hi) {
      i := LastAt(gs, lo + 1, hi, u);
    } else {
      i := lo;
      LastComeUsers(gs, lo + 1, hi, u);
    }
  }

  /** A new user key of the run comes only once among the appended guards. */
  ghost predicate NoNewRepeats(known: Tags, base: seq<InternalKey>, num: nat)
    requires num <= |base|
  {
    forall i, j :: num <= i < Descent(base, num) && i < j < |base| && base[i].user == base[j].user ==>
                     base[i].user in known
  }

  /** A record without complete guards of its own settles exactly when no new key of the run was appended twice. */
  lemma RepeatsUnsettle(known: Tags, base: seq<InternalKey>, num: nat)
    requires num <= |base| && TagsApart(base, num)
    ensures Settled(known, base, num, map[]) <==> NoNewRepeats(known, base, num)
  {
    SameUsersBackwards(base, num);
    forall u | u in Run(base, num) && u !in known ensures TagKept(base, num, u) <==> ComesOnce(base, num, u) {
      TagTellsRepeats(base, num, u);
    }
    forall u ensures u in Run(base, num) <==> exists i :: num <= i < Descent(base, num) && base[i].user == u {
      LastComeUsers(base, num, Descent(base, num), u);
    }
    SettledIsKept(known, base, num);
  }

  /** The tag of the run's first guard of this user key is the one the record has first. */
  ghost predicate TagKept(base: seq<InternalKey>, num: nat, u: Bytes)
    requires num <= |base| && u in Run(base, num) && u in Last(base, num)
  {
    Run(base, num)[u] == if u in Rest(base, num) then Rest(base, num)[u] else Last(base, num)[u]
  }

  lemma SettledIsKept(known: Tags, base: seq<InternalKey>, num: nat)
    requires num <= |base| && Run(base, num).Keys == Last(base, num).Keys
    ensures Settled(known, base, num, map[]) <==>
            forall u :: u in Run(base, num) && u !in known ==> TagKept(base, num, u)
  {
  }

  ghost predicate ComesOnce(base: seq<InternalKey>, num: nat, u: Bytes) {
    forall i, j :: num <= i < j < |base| && base[i].user == u ==> base[j].user != u
  }

  lemma TagTellsRepeats(base: seq<InternalKey>, num: nat, u: Bytes)
    requires num <= |base| && TagsApart(base, num) && u in Run(base, num) && u in Last(base, num)
    ensures TagKept(base, num, u) <==> ComesOnce(base, num, u)
  {
    var start := Descent(base, num);
    var run, rest := base[num..start], base[start..];
    var i := FirstAt(run, |run|, u);
    assert base[num + i] == run[i];
    if u in Rest(base, num) {
      var j := FirstAt(rest, |rest|, u);
      assert base[start + j] == rest[j];
    } else {
      var j := LastAt(base, num, start, u);
      FirstComeUsers(rest, |rest|, u);
      NoneInRest(base, num, u);
      if i + num == j {
        OnlyHere(base, num, u, j);
      }
    }
  }

  lemma NoneInRest(base: seq<InternalKey>, num: nat, u: Bytes)
    requires num <= |base| && u !in Rest(base, num)
    ensures forall j :: Descent(base, num) <= j < |base| ==> base[j].user != u
  {
    var start := Descent(base, num);
    var rest := base[start..];
    FirstComeUsers(rest, |rest|, u);
    forall j | start <= j < |base| ensures base[j].user != u {
      assert rest[j - start] == base[j];
    }
  }

  lemma OnlyHere(base: seq<InternalKey>, num: nat, u: Bytes, j: nat)
    requires num <= |base| && num <= j < Descent(base, num)
    requires forall i :: 0 <= i < j - num ==> base[num..Descent(base, num)][i].user != u
    requires forall i :: j < i < |base| ==> base[i].user != u
    ensures ComesOnce(base, num, u)
  {
    forall i | num <= i < j ensures base[i].user != u {
      assert base[num..Descent(base, num)][i - num] == base[i];
    }
  }

  lemma TwiceRises(base: seq<InternalKey>, a: InternalKey, b: InternalKey)
    requires base == [a, b] && a.user == b.user
    ensures Descent(base, 0) == 2 && Logged(base, 0) == [b, a]
  {
    LessIrreflexive(a.user);
    assert Descent(base, 2) == 2 && Descent(base, 1) == 2;
    assert Backwards(base, 1, 2) == [b] && Backwards(base, 0, 2) == [b, a];
    assert base[2..] == [];
  }

  lemma TwiceTags(gs: seq<InternalKey>, a: InternalKey, b: InternalKey)
    requires gs == [a, b] && a.user == b.user
    ensures TagsOf(gs) == map[a.user := a.tag] && LastCome(gs, 0, 2) == map[a.user := b.tag]
  {
    assert FirstCome(gs, 1) == map[a.user := a.tag];
    assert LastCome(gs, 1, 2) == map[a.user := b.tag];
  }

  /** One guard key written twice: the version keeps the first guard, the record brings the second one first. */
  lemma TwiceAppendedDiffers(base: seq<InternalKey>, a: InternalKey, b: InternalKey)
    requires base == [a, b] && a.user == b.user && a.tag != b.tag
    ensures SavedMap(base, 0, map[]) == map[a.user := a.tag] && Logged(base, 0) == [b, a]
    ensures TagsOf(Logged(base, 0)) == map[a.user := b.tag]
    ensures !Settled(map[], base, 0, map[])
  {
    TwiceRises(base, a, b);
    TwiceTags(base, a, b);
    TwiceTags([b, a], b, a);
    assert base[..2] == base && base[0..2] == base && base[2..] == [];
    assert a.user in Run(base, 0) && a.user !in Rest(base, 0);
  }
}
