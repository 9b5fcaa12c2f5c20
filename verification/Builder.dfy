/**
 * The guards of one level as VersionSet::Builder saves them (levels do not interact in it): sets of guards,
 * merging added guards into a version's, and taking in what was appended to its complete guards.
 */
module Builder {
  import opened Keys
  import opened Guards

  // ---------- Guard lists ----------

  /** The guards with the first tag that came for each user key, in the order of the first n. */
  function FirstCome(gs: seq<InternalKey>, n: nat): map<Bytes, nat>
    requires n <= |gs|
  {
    if n == 0 then map[] else Admit(FirstCome(gs, n - 1), gs[n - 1])
  }

  function Admit(m: map<Bytes, nat>, g: InternalKey): map<Bytes, nat> {
    if g.user in m then m else m[g.user := g.tag]
  }

  /** First come, first served: the guards of m, then those of m' whose user keys are new. */
  function Union(m: map<Bytes, nat>, m': map<Bytes, nat>): map<Bytes, nat> {
    m' + m
  }

  /** The list holds exactly these guards, by user key. */
  ghost predicate Lists(gs: seq<InternalKey>, m: map<Bytes, nat>) {
    && GuardsSorted(gs)
    && (forall i :: 0 <= i < |gs| ==> gs[i].user in m && m[gs[i].user] == gs[i].tag)
    && (forall u {:trigger HasUser(gs, u)} :: u in m ==> HasUser(gs, u))
  }

  ghost predicate HasUser(gs: seq<InternalKey>, u: Bytes) {
    exists i :: 0 <= i < |gs| && gs[i].user == u
  }

  lemma DistinctUsers(gs: seq<InternalKey>, n: nat)
    requires GuardsSorted(gs) && n < |gs|
    ensures forall i :: 0 <= i < n ==> gs[i].user != gs[n].user
  {
    LessIrreflexive(gs[n].user);
  }

  lemma NotBefore(a: seq<InternalKey>, b: seq<InternalKey>, m: map<Bytes, nat>, n: nat)
    requires Lists(a, m) && Lists(b, m) && n < |a| && n < |b| && forall i :: 0 <= i < n ==> a[i] == b[i]
    ensures b[n].user == a[n].user || Less(b[n].user, a[n].user)
  {
    DistinctUsers(a, n);
    assert forall i :: 0 <= i < n ==> b[i].user != a[n].user;
    assert HasUser(b, a[n].user);
    var j :| 0 <= j < |b| && b[j].user == a[n].user;
    assert j == n || Less(b[n].user, b[j].user);
  }

  lemma SameUser(u: Bytes, v: Bytes)
    requires (u == v || Less(u, v)) && (v == u || Less(v, u))
    ensures u == v
  {
    if u != v {
      LessTransitive(u, v, u);
      LessIrreflexive(u);
    }
  }

  lemma {:induction false} ListsAgree(a: seq<InternalKey>, b: seq<InternalKey>, m: map<Bytes, nat>, n: nat)
    requires Lists(a, m) && Lists(b, m) && n <= |a| && n <= |b|
    ensures forall i :: 0 <= i < n ==> a[i] == b[i]
  {
    if n > 0 {
      ListsAgree(a, b, m, n - 1);
      AgreeAt(a, b, m, n - 1);
    }
  }

  lemma AgreeAt(a: seq<InternalKey>, b: seq<InternalKey>, m: map<Bytes, nat>, n: nat)
    requires Lists(a, m) && Lists(b, m) && n < |a| && n < |b| && forall i :: 0 <= i < n ==> a[i] == b[i]
    ensures a[n] == b[n]
  {
    NotBefore(a, b, m, n);
    NotBefore(b, a, m, n);
    SameUser(a[n].user, b[n].user);
  }

  lemma NoLonger(a: seq<InternalKey>, b: seq<InternalKey>, m: map<Bytes, nat>)
    requires Lists(a, m) && Lists(b, m)
    ensures |a| <= |b|
  {
    if |b| < |a| {
      assert HasUser(b, a[|b|].user);
      DistinctUsers(a, |b|);
      ListsAgree(a, b, m, |b|);
    }
  }

  /** A set of guards has one list. */
  lemma ListsUnique(a: seq<InternalKey>, b: seq<InternalKey>, m: map<Bytes, nat>)
    requires Lists(a, m) && Lists(b, m)
    ensures a == b
  {
    NoLonger(a, b, m);
    NoLonger(b, a, m);
    ListsAgree(a, b, m, |a|);
  }

  /** GuardSet::insert: a guard whose user key is there already is not added. */
  method InsertGuard(gs: seq<InternalKey>, g: InternalKey, ghost m: map<Bytes, nat>) returns (r: seq<InternalKey>)
    requires Lists(gs, m)
    ensures Lists(r, Admit(m, g))
  {
    var i := 0;
    while i < |gs| && Less(gs[i].user, g.user)
      invariant i <= |gs| && forall j :: 0 <= j < i ==> Less(gs[j].user, g.user)
    {
      i := i + 1;
    }
    if i < |gs| && gs[i].user == g.user {
      r := gs;
    } else {
      r := gs[..i] + [g] + gs[i..];
      if i < |gs| {
        LessTrichotomy(gs[i].user, g.user);
      }
      InsertedSorted(gs, i, g);
      InsertedLists(gs, i, g, m);
    }
  }

  lemma AllAfter(gs: seq<InternalKey>, i: nat, u: Bytes)
    requires GuardsSorted(gs) && i <= |gs| && (i < |gs| ==> Less(u, gs[i].user))
    ensures forall j :: i <= j < |gs| ==> Less(u, gs[j].user)
  {
    forall j | i < j < |gs| ensures Less(u, gs[j].user) {
      LessTransitive(u, gs[i].user, gs[j].user);
    }
  }

  lemma InsertedSorted(gs: seq<InternalKey>, i: nat, g: InternalKey)
    requires GuardsSorted(gs) && i <= |gs|
    requires forall j :: 0 <= j < i ==> Less(gs[j].user, g.user)
    requires i < |gs| ==> Less(g.user, gs[i].user)
    ensures GuardsSorted(gs[..i] + [g] + gs[i..])
  {
    AllAfter(gs, i, g.user);
    var r := gs[..i] + [g] + gs[i..];
    assert forall j :: 0 <= j < |r| ==> r[j] == if j < i then gs[j] else if j == i then g else gs[j - 1];
  }

  lemma InsertedLists(gs: seq<InternalKey>, i: nat, g: InternalKey, m: map<Bytes, nat>)
    requires Lists(gs, m) && i <= |gs| && GuardsSorted(gs[..i] + [g] + gs[i..])
    requires forall j :: 0 <= j < i ==> Less(gs[j].user, g.user)
    requires i < |gs| ==> Less(g.user, gs[i].user)
    ensures Lists(gs[..i] + [g] + gs[i..], Admit(m, g))
  {
    var r := gs[..i] + [g] + gs[i..];
    assert forall j :: 0 <= j < |r| ==> r[j] == if j < i then gs[j] else if j == i then g else gs[j - 1];
    NewUser(gs, i, g, m);
    forall u | u in Admit(m, g) ensures HasUser(r, u) {
      if u in m {
        assert HasUser(gs, u);
        var j :| 0 <= j < |gs| && gs[j].user == u;
        assert r[if j < i then j else j + 1].user == u;
      } else {
        assert r[i].user == u;
      }
    }
  }

  lemma NewUser(gs: seq<InternalKey>, i: nat, g: InternalKey, m: map<Bytes, nat>)
    requires Lists(gs, m) && i <= |gs|
    requires forall j :: 0 <= j < i ==> Less(gs[j].user, g.user)
    requires i < |gs| ==> Less(g.user, gs[i].user)
    ensures g.user !in m
  {
    AllAfter(gs, i, g.user);
    LessIrreflexive(g.user);
    assert g.user in m ==> HasUser(gs, g.user);
  }

  // ---------- Merging guards into a version ----------

  /** A base list may repeat a user key; its guards are otherwise in order. */
  ghost predicate Rising(gs: seq<InternalKey>) {
    forall i, j :: 0 <= i < j < |gs| ==> AtMost(gs[i].user, gs[j].user)
  }

  /** MaybeAddGuard and MaybeAddCompleteGuard: a guard with the user key of the last one is passed over. */
  function MaybeAdd(out: seq<InternalKey>, g: InternalKey): seq<InternalKey> {
    if |out| > 0 && out[|out| - 1].user == g.user then out else out + [g]
  }

  /** No guard so far comes after this user key. */
  ghost predicate UpTo(out: seq<InternalKey>, u: Bytes) {
    forall i :: 0 <= i < |out| ==> AtMost(out[i].user, u)
  }

  lemma MaybeAddAdmits(out: seq<InternalKey>, g: InternalKey, m: map<Bytes, nat>)
    requires Lists(out, m) && UpTo(out, g.user)
    ensures Lists(MaybeAdd(out, g), Admit(m, g)) && UpTo(MaybeAdd(out, g), g.user)
  {
    LessIrreflexive(g.user);
    if |out| > 0 && out[|out| - 1].user == g.user {
    } else {
      LastBelow(out, g.user);
      InsertedSorted(out, |out|, g);
      InsertedLists(out, |out|, g, m);
      assert out[..|out|] + [g] + out[|out|..] == out + [g];
    }
  }

  lemma LastBelow(out: seq<InternalKey>, u: Bytes)
    requires GuardsSorted(out) && UpTo(out, u) && (|out| > 0 ==> out[|out| - 1].user != u)
    ensures forall i :: 0 <= i < |out| ==> Less(out[i].user, u)
  {
    if |out| > 0 {
      var last := out[|out| - 1].user;
      LessTrichotomy(last, u);
      forall i | 0 <= i < |out| - 1 ensures Less(out[i].user, u) {
        LessTransitive(out[i].user, last, u);
      }
    }
  }

  lemma {:induction false} FirstComeUsers(gs: seq<InternalKey>, n: nat, u: Bytes)
    requires n <= |gs|
    ensures u in FirstCome(gs, n) <==> exists i :: 0 <= i < n && gs[i].user == u
  {
    if n > 0 {
      FirstComeUsers(gs, n - 1, u);
    }
  }

  lemma AdmitBase(b: map<Bytes, nat>, a: map<Bytes, nat>, g: InternalKey)
    requires g.user !in a
    ensures Admit(Union(b, a), g) == Union(Admit(b, g), a)
  {
  }

  lemma AdmitAdded(b: map<Bytes, nat>, a: map<Bytes, nat>, g: InternalKey)
    ensures Admit(Union(b, a), g) == Union(b, Admit(a, g))
  {
  }

  lemma UpToWider(out: seq<InternalKey>, u: Bytes, v: Bytes)
    requires UpTo(out, u) && AtMost(u, v)
    ensures UpTo(out, v)
  {
    forall i | 0 <= i < |out| ensures AtMost(out[i].user, v) {
      AtMostTransitive(out[i].user, u, v);
    }
  }

  /** What the merge loops keep: the first bi base guards and ai added ones are in the list, the rest lie beyond. */
  ghost predicate Merging(base: seq<InternalKey>, added: seq<InternalKey>, bi: nat, ai: nat, out: seq<InternalKey>) {
    && bi <= |base| && ai <= |added|
    && Lists(out, Union(FirstCome(base, bi), FirstCome(added, ai)))
    && (bi < |base| ==> UpTo(out, base[bi].user))
    && (ai < |added| ==> UpTo(out, added[ai].user))
    && (bi < |base| ==> forall j :: 0 <= j < ai ==> Less(added[j].user, base[bi].user))
  }

  lemma TakeBase(base: seq<InternalKey>, added: seq<InternalKey>, bi: nat, ai: nat, out: seq<InternalKey>)
    requires Rising(base) && Merging(base, added, bi, ai, out) && bi < |base|
    requires ai < |added| ==> AtMost(base[bi].user, added[ai].user)
    ensures Merging(base, added, bi + 1, ai, MaybeAdd(out, base[bi]))
  {
    var g, out' := base[bi], MaybeAdd(out, base[bi]);
    LessIrreflexive(g.user);
    FirstComeUsers(added, ai, g.user);
    AdmitBase(FirstCome(base, bi), FirstCome(added, ai), g);
    MaybeAddAdmits(out, g, Union(FirstCome(base, bi), FirstCome(added, ai)));
    if bi + 1 < |base| {
      UpToWider(out', g.user, base[bi + 1].user);
      forall j | 0 <= j < ai ensures Less(added[j].user, base[bi + 1].user) {
        LessThenAtMost(added[j].user, g.user, base[bi + 1].user);
      }
    }
    if ai < |added| {
      UpToWider(out', g.user, added[ai].user);
    }
  }

  lemma TakeAdded(base: seq<InternalKey>, added: seq<InternalKey>, bi: nat, ai: nat, out: seq<InternalKey>)
    requires GuardsSorted(added) && Merging(base, added, bi, ai, out) && ai < |added|
    requires bi < |base| ==> Less(added[ai].user, base[bi].user)
    ensures Merging(base, added, bi, ai + 1, MaybeAdd(out, added[ai]))
  {
    var g, out' := added[ai], MaybeAdd(out, added[ai]);
    AdmitAdded(FirstCome(base, bi), FirstCome(added, ai), g);
    MaybeAddAdmits(out, g, Union(FirstCome(base, bi), FirstCome(added, ai)));
    if bi < |base| {
      LessIsAtMost(g.user, base[bi].user);
      UpToWider(out', g.user, base[bi].user);
    }
    if ai + 1 < |added| {
      LessIsAtMost(g.user, added[ai + 1].user);
      UpToWider(out', g.user, added[ai + 1].user);
    }
  }

  lemma MergeStarts(base: seq<InternalKey>, added: seq<InternalKey>)
    ensures Merging(base, added, 0, 0, [])
  {
  }

  /** Adds the base guards that upper_bound puts before the next added guard, or all that are left. */
  method AddBase(base: seq<InternalKey>, added: seq<InternalKey>, bi: nat, ai: nat, out: seq<InternalKey>)
      returns (bi': nat, out': seq<InternalKey>)
    requires Rising(base) && Merging(base, added, bi, ai, out)
    ensures Merging(base, added, bi', ai, out')
    ensures bi' < |base| ==> ai < |added| && Less(added[ai].user, base[bi'].user)
  {
    bi', out' := bi, out;
    while bi' < |base| && (ai == |added| || !Less(added[ai].user, base[bi'].user))
      invariant Merging(base, added, bi', ai, out')
    {
      TakeBase(base, added, bi', ai, out');
      out' := MaybeAdd(out', base[bi']);
      bi' := bi' + 1;
    }
  }

  /** The loops that save guards: base guards up to each added one, then that one, then the rest of the base. */
  method MergeGuards(base: seq<InternalKey>, added: seq<InternalKey>) returns (out: seq<InternalKey>)
    requires Rising(base) && GuardsSorted(added)
    ensures Lists(out, Union(FirstCome(base, |base|), FirstCome(added, |added|)))
  {
    out := [];
    var bi := 0;
    MergeStarts(base, added);
    for ai := 0 to |added|
      invariant Merging(base, added, bi, ai, out)
    {
      bi, out := AddBase(base, added, bi, ai, out);
      TakeAdded(base, added, bi, ai, out);
      out := MaybeAdd(out, added[ai]);
    }
    bi, out := AddBase(base, added, bi, |added|, out);
  }

  // ---------- User keys of guard lists ----------

  ghost function Users(gs: seq<InternalKey>): set<Bytes> {
    set i | 0 <= i < |gs| :: gs[i].user
  }

  lemma UsersAppend(a: seq<InternalKey>, b: seq<InternalKey>)
    ensures Users(a + b) == Users(a) + Users(b)
  {
    forall u | u in Users(a) + Users(b) ensures u in Users(a + b) {
      if u in Users(a) {
        var i :| 0 <= i < |a| && a[i].user == u;
        assert (a + b)[i].user == u;
      } else {
        var i :| 0 <= i < |b| && b[i].user == u;
        assert (a + b)[|a| + i].user == u;
      }
    }
  }

  lemma UsersSplit(gs: seq<InternalKey>, n: nat)
    requires n <= |gs|
    ensures Users(gs) == Users(gs[..n]) + Users(gs[n..])
  {
    UsersAppend(gs[..n], gs[n..]);
    assert gs[..n] + gs[n..] == gs;
  }

  lemma UsersListed(gs: seq<InternalKey>, m: map<Bytes, nat>)
    requires Lists(gs, m)
    ensures Users(gs) == m.Keys
  {
    forall u | u in m ensures u in Users(gs) {
      assert HasUser(gs, u);
    }
  }

  lemma UsersFirst(gs: seq<InternalKey>)
    ensures FirstCome(gs, |gs|).Keys == Users(gs)
  {
    forall u ensures u in FirstCome(gs, |gs|) <==> u in Users(gs) {
      FirstComeUsers(gs, |gs|, u);
    }
  }

  // ---------- Complete guards, with those appended since the last version ----------

  lemma SortedRises(gs: seq<InternalKey>)
    requires GuardsSorted(gs)
    ensures Rising(gs)
  {
    forall i, j | 0 <= i < j < |gs| ensures AtMost(gs[i].user, gs[j].user) {
      LessIsAtMost(gs[i].user, gs[j].user);
    }
  }

  lemma RisesOn(gs: seq<InternalKey>, n: nat)
    requires 0 < n < |gs| && Rising(gs[..n]) && AtMost(gs[n - 1].user, gs[n].user)
    ensures Rising(gs[..n + 1])
  {
    var r := gs[..n + 1];
    forall i, j | 0 <= i < j < |r| ensures AtMost(r[i].user, r[j].user) {
      if j < n {
        assert AtMost(gs[..n][i].user, gs[..n][j].user);
      } else if i < n - 1 {
        assert AtMost(gs[..n][i].user, gs[..n][n - 1].user);
        AtMostTransitive(gs[i].user, gs[n - 1].user, gs[n].user);
      }
    }
  }

  /** Where the list first goes down, from place i on. */
  function Descent(gs: seq<InternalKey>, i: nat): (r: nat)
    requires i <= |gs|
    ensures i <= r <= |gs| && (r < |gs| ==> r > 0 && Less(gs[r].user, gs[r - 1].user))
    ensures forall k :: i <= k < r && k > 0 ==> AtMost(gs[k - 1].user, gs[k].user)
    decreases |gs| - i
  {
    if i == |gs| || (i > 0 && Less(gs[i].user, gs[i - 1].user)) then i else Descent(gs, i + 1)
  }

  /** Where the guards appended behind the sorted ones first go down. */
  method UnsortedStart(base: seq<InternalKey>, num: nat) returns (start: nat)
    requires num <= |base| && GuardsSorted(base[..num])
    ensures start == Descent(base, num) && Rising(base[..start])
  {
    SortedRises(base[..num]);
    start := if num <= 0 && |base| > 0 then 1 else num;
    assert num == 0 ==> Rising(base[..start]);
    while start < |base| && !Less(base[start].user, base[start - 1].user)
      invariant num <= start <= |base| && Rising(base[..start]) && (start == 0 ==> |base| == 0)
      invariant Descent(base, num) == Descent(base, start)
    {
      RisesOn(base, start);
      start := start + 1;
    }
  }

  method InsertAll(gs: seq<InternalKey>, more: seq<InternalKey>, ghost m: map<Bytes, nat>) returns (r: seq<InternalKey>)
    requires Lists(gs, m)
    ensures Lists(r, Union(m, FirstCome(more, |more|)))
  {
    r := gs;
    assert Union(m, map[]) == m;
    for i := 0 to |more|
      invariant Lists(r, Union(m, FirstCome(more, i)))
    {
      AdmitAdded(m, FirstCome(more, i), more[i]);
      r := InsertGuard(r, more[i], Union(m, FirstCome(more, i)));
    }
  }

  /** The guards from hi - 1 down to lo. */
  function Backwards(gs: seq<InternalKey>, lo: nat, hi: nat): seq<InternalKey>
    requires hi <= |gs|
    decreases hi - lo
  {
    if lo >= hi then [] else Backwards(gs, lo + 1, hi) + [gs[lo]]
  }

  /** What saving adds to the edit before it is written: the appended guards, the rising ones last and backwards. */
  function Logged(base: seq<InternalKey>, num: nat): seq<InternalKey>
    requires num <= |base|
  {
    base[Descent(base, num)..] + Backwards(base, num, Descent(base, num))
  }

  lemma {:induction false} BackwardsUsers(gs: seq<InternalKey>, lo: nat, hi: nat)
    requires lo <= hi <= |gs|
    ensures Users(Backwards(gs, lo, hi)) == Users(gs[lo..hi])
    decreases hi - lo
  {
    if lo < hi {
      BackwardsUsers(gs, lo + 1, hi);
      UsersAppend(Backwards(gs, lo + 1, hi), [gs[lo]]);
      UsersAppend([gs[lo]], gs[lo + 1..hi]);
      assert [gs[lo]] + gs[lo + 1..hi] == gs[lo..hi];
    }
  }

  lemma LoggedUsers(base: seq<InternalKey>, num: nat)
    requires num <= |base|
    ensures Users(Logged(base, num)) == Users(base[num..])
  {
    var start := Descent(base, num);
    BackwardsUsers(base, num, start);
    UsersAppend(base[start..], Backwards(base, num, start));
    UsersAppend(base[num..start], base[start..]);
    assert base[num..start] + base[start..] == base[num..];
  }

  /** Saves a level's complete guards: what was appended, in any order and with repeats, is sorted in and logged. */
  method SaveComplete(base: seq<InternalKey>, num: nat, added: seq<InternalKey>, ghost m: map<Bytes, nat>)
      returns (out: seq<InternalKey>, logged: seq<InternalKey>)
    requires num <= |base| && GuardsSorted(base[..num]) && Lists(added, m)
    ensures Lists(out, SavedMap(base, num, m)) && logged == Logged(base, num)
  {
    if |base| > 0 {
      var start := UnsortedStart(base, num);
      var combined := InsertAll(added, base[start..], m);
      logged := base[start..];
      for i := start downto num
        invariant logged == base[start..] + Backwards(base, i, start)
      {
        logged := logged + [base[i]];
      }
      out := MergeGuards(base[..start], combined);
      FirstComeOfList(combined, Union(m, FirstCome(base[start..], |base| - start)));
    } else {
      out, logged := added, [];
      assert SavedMap(base, 0, m) == m;
    }
  }

  /** The guards before the descent, then the edit's, then those from there on: first come, first served. */
  function SavedMap(base: seq<InternalKey>, num: nat, m: map<Bytes, nat>): map<Bytes, nat>
    requires num <= |base|
  {
    var start := Descent(base, num);
    Union(FirstCome(base[..start], start), Union(m, FirstCome(base[start..], |base| - start)))
  }

  lemma SavedUsers(base: seq<InternalKey>, num: nat, m: map<Bytes, nat>, out: seq<InternalKey>)
    requires num <= |base| && Lists(out, SavedMap(base, num, m))
    ensures Users(out) == Users(base) + m.Keys
  {
    var start := Descent(base, num);
    UsersListed(out, SavedMap(base, num, m));
    UsersFirst(base[..start]);
    UsersFirst(base[start..]);
    UsersSplit(base, start);
  }

  lemma {:induction false} FirstComeOfSorted(gs: seq<InternalKey>, n: nat, i: nat)
    requires GuardsSorted(gs) && i < n <= |gs|
    ensures gs[i].user in FirstCome(gs, n) && FirstCome(gs, n)[gs[i].user] == gs[i].tag
  {
    if i < n - 1 {
      FirstComeOfSorted(gs, n - 1, i);
      DistinctUsers(gs, n - 1);
    } else {
      DistinctUsers(gs, i);
      FirstComeUsers(gs, i, gs[i].user);
    }
  }

  /** A sorted list comes first as itself. */
  lemma FirstComeOfList(gs: seq<InternalKey>, m: map<Bytes, nat>)
    requires Lists(gs, m)
    ensures FirstCome(gs, |gs|) == m
  {
    var c := FirstCome(gs, |gs|);
    forall u ensures u in c <==> u in m {
      FirstComeUsers(gs, |gs|, u);
      assert HasUser(gs, u) <==> u in m;
    }
    forall u | u in m ensures c[u] == m[u] {
      assert HasUser(gs, u);
      var i :| 0 <= i < |gs| && gs[i].user == u;
      FirstComeOfSorted(gs, |gs|, i);
    }
  }
}
