/**
 * Complete guards while versions are installed: writers append guards to the current version, also while
 * LogAndApply has let go of the lock to write the manifest.
 */
module Install {
  import opened Keys
  import opened Guards
  import opened Builder

  // ---------- Saving one level's guards ----------

  /** A level's complete guards, how many of them are sorted, and the guards its files are dealt to. */
  datatype Level = Level(complete: seq<InternalKey>, num: nat, guards: seq<InternalKey>)

  /** The guards and complete guards an edit adds to a level. */
  datatype Delta = Delta(guards: seq<InternalKey>, complete: seq<InternalKey>)

  ghost predicate LevelOk(l: Level) {
    && l.num <= |l.complete| && GuardsSorted(l.complete[..l.num]) && GuardsSorted(l.guards)
    && Users(l.guards) <= Users(l.complete[..l.num])
  }

  /** What Builder::Apply and SaveTo make of a level. */
  ghost predicate Saves(l: Level, d: Delta, l': Level) {
    && GuardsSorted(l'.complete) && GuardsSorted(l'.guards) && l'.num == |l'.complete|
    && Users(l'.complete) == Users(l.complete) + Users(d.complete)
    && Users(l'.guards) == Users(l.guards) + Users(d.guards)
  }

  method SaveLevel(l: Level, d: Delta) returns (l': Level)
    requires LevelOk(l)
    ensures Saves(l, d, l')
    ensures Lists(l'.guards, Union(FirstCome(l.guards, |l.guards|), FirstCome(d.guards, |d.guards|)))
    ensures Lists(l'.complete, SavedMap(l.complete, l.num, FirstCome(d.complete, |d.complete|)))
  {
    var guards := SaveGuards(l, d);
    var complete := SaveCompleteGuards(l, d);
    l' := Level(complete, |complete|, guards);
  }

  method SaveGuards(l: Level, d: Delta) returns (out: seq<InternalKey>)
    requires LevelOk(l)
    ensures Lists(out, Union(FirstCome(l.guards, |l.guards|), FirstCome(d.guards, |d.guards|)))
    ensures Users(out) == Users(l.guards) + Users(d.guards)
  {
    var added := InsertAll([], d.guards, map[]);
    ghost var m := FirstCome(d.guards, |d.guards|);
    assert Union(map[], m) == m;
    SortedRises(l.guards);
    out := MergeGuards(l.guards, added);
    FirstComeOfList(added, m);
    UsersListed(out, Union(FirstCome(l.guards, |l.guards|), m));
    UsersFirst(l.guards);
    UsersFirst(d.guards);
  }

  method SaveCompleteGuards(l: Level, d: Delta) returns (out: seq<InternalKey>)
    requires LevelOk(l)
    ensures Lists(out, SavedMap(l.complete, l.num, FirstCome(d.complete, |d.complete|)))
    ensures Users(out) == Users(l.complete) + Users(d.complete)
  {
    var added := InsertAll([], d.complete, map[]);
    ghost var m := FirstCome(d.complete, |d.complete|);
    assert Union(map[], m) == m;
    var logged;
    out, logged := SaveComplete(l.complete, l.num, added, m);
    SavedUsers(l.complete, l.num, m, out);
    UsersFirst(d.complete);
  }

  // ---------- The machine ----------

  /** The version being installed, the sizes of the complete guards it was built from, and the keys its record
      puts in the manifest. */
  datatype Saving = Idle | Saving(version: seq<Level>, sizes: seq<nat>, logged: seq<set<Bytes>>)

  /** The current version's levels, the edits under way, the installation under way, and the user keys of the
      complete guards in the manifest. */
  datatype State = State(current: seq<Level>, edits: seq<seq<Delta>>, saving: Saving, manifest: seq<set<Bytes>>)

  datatype Step =
    | Append(user: Bytes, tag: nat, first: nat)   // a writer, holding the lock: a guard of level first and below
    | Collect(levels: set<nat>, complete: bool)   // an edit takes up guards of the current version
    | Begin(e: nat)                               // LogAndApply builds a version and lets go of the lock
    | Finish(ok: bool, kept: bool)                // it takes the lock again; a failed record may still be kept

  function Appended(l: Level, g: InternalKey): Level {
    l.(complete := l.complete + [g])
  }

  /** Each level's guard has the next sequence number, which is the upper part of the tag. */
  function GuardOf(user: Bytes, tag: nat, first: nat, l: nat): InternalKey
    requires first <= l
  {
    InternalKey(user, tag + 256 * (l - first))
  }

  function Collected(l: Level, load: bool, complete: bool): Delta {
    Delta(if load then l.complete else [], if complete then l.complete else [])
  }

  /** SaveTo adds what was appended since the last version to the edit before it is written. */
  ghost function Recorded(l: Level, d: Delta): set<Bytes>
    requires l.num <= |l.complete|
  {
    Users(d.complete + Logged(l.complete, l.num))
  }

  /** The new version, with the complete guards appended to the old one since it was built. */
  function Installed(l: Level, size: nat, v: Level): Level
    requires size <= |l.complete|
  {
    v.(complete := v.complete + l.complete[size..])
  }

  ghost predicate Next(s: State, step: Step, s': State) {
    var n := |s.current|;
    match step
    case Append(user, tag, first) =>
      && |s'.current| == n && s' == s.(current := s'.current)
      && forall l :: 0 <= l < n ==>
           s'.current[l] == if l < first then s.current[l] else Appended(s.current[l], GuardOf(user, tag, first, l))
    case Collect(levels, complete) =>
      && |s'.edits| == |s.edits| + 1 && s' == s.(edits := s'.edits) && s'.edits[..|s.edits|] == s.edits
      && |s'.edits[|s.edits|]| == n
      && forall l :: 0 <= l < n ==> s'.edits[|s.edits|][l] == Collected(s.current[l], l in levels, complete)
    case Begin(e) =>
      && s.saving.Idle? && e < |s.edits| && |s.edits[e]| == n && s'.saving.Saving?
      && s' == s.(saving := s'.saving) && BeginSaves(s.current, s.edits[e], s'.saving)
    case Finish(ok, kept) =>
      && s.saving.Saving? && |s.saving.version| == |s.saving.sizes| == |s.saving.logged| == |s.manifest| == n
      && s'.edits == s.edits && s'.saving.Idle? && |s'.current| == |s'.manifest| == n
      && (forall l :: 0 <= l < n ==> s.saving.sizes[l] <= |s.current[l].complete|)
      && (forall l :: 0 <= l < n ==>
            s'.current[l] == if ok then Installed(s.current[l], s.saving.sizes[l], s.saving.version[l])
                             else s.current[l])
      && (forall l :: 0 <= l < n ==>
            s'.manifest[l] == if ok || kept then s.manifest[l] + s.saving.logged[l] else s.manifest[l])
  }

  ghost predicate BeginSaves(current: seq<Level>, edit: seq<Delta>, saving: Saving)
    requires saving.Saving? && |edit| == |current|
  {
    && |saving.version| == |saving.sizes| == |saving.logged| == |current|
    && (forall l :: 0 <= l < |current| ==> current[l].num <= |current[l].complete|)
    && (forall l :: 0 <= l < |current| ==> Saves(current[l], edit[l], saving.version[l]))
    && (forall l :: 0 <= l < |current| ==> saving.sizes[l] == |current[l].complete|)
    && (forall l :: 0 <= l < |current| ==> saving.logged[l] == Recorded(current[l], edit[l]))
  }

  ghost predicate Init(s: State) {
    && s.edits == [] && s.saving.Idle? && |s.manifest| == |s.current|
    && forall l :: 0 <= l < |s.current| ==> s.current[l] == Level([], 0, []) && s.manifest[l] == {}
  }

  // ---------- What every step keeps ----------

  /** The manifest has the sorted complete guards, and no guard that is not in memory. */
  ghost predicate ManifestOk(l: Level, manifest: set<Bytes>) {
    && l.num <= |l.complete|
    && Users(l.complete[..l.num]) <= manifest <= Users(l.complete)
  }

  ghost predicate DeltaOk(l: Level, d: Delta) {
    Users(d.guards) <= Users(l.complete) && Users(d.complete) <= Users(l.complete)
  }

  ghost predicate SavingOk(l: Level, v: Level, size: nat, logged: set<Bytes>, manifest: set<Bytes>) {
    && size <= |l.complete| && v.num == |v.complete| && GuardsSorted(v.complete) && GuardsSorted(v.guards)
    && Users(v.complete) == Users(l.complete[..size]) && Users(v.guards) <= Users(v.complete)
    && Users(v.complete) <= manifest + logged <= Users(l.complete)
  }

  ghost predicate Nested(current: seq<Level>) {
    forall l :: 0 <= l < |current| - 1 ==> Users(current[l].complete) <= Users(current[l + 1].complete)
  }

  ghost predicate Inv(s: State) {
    && |s.manifest| == |s.current| && Nested(s.current)
    && (forall l :: 0 <= l < |s.current| ==> LevelOk(s.current[l]) && ManifestOk(s.current[l], s.manifest[l]))
    && (forall e :: 0 <= e < |s.edits| ==> |s.edits[e]| == |s.current|)
    && (forall e, l :: 0 <= e < |s.edits| && 0 <= l < |s.current| ==> DeltaOk(s.current[l], s.edits[e][l]))
    && (s.saving.Saving? ==>
          && |s.saving.version| == |s.saving.sizes| == |s.saving.logged| == |s.current|
          && forall l :: 0 <= l < |s.current| ==>
               SavingOk(s.current[l], s.saving.version[l], s.saving.sizes[l], s.saving.logged[l], s.manifest[l]))
  }

  lemma AppendKeeps(l: Level, g: InternalKey)
    requires LevelOk(l)
    ensures LevelOk(Appended(l, g)) && Users(Appended(l, g).complete) == Users(l.complete) + {g.user}
    ensures forall n :: 0 <= n <= |l.complete| ==> Appended(l, g).complete[..n] == l.complete[..n]
  {
    UsersAppend(l.complete, [g]);
    assert Appended(l, g).complete[..l.num] == l.complete[..l.num];
    assert [g][0].user in Users([g]);
    assert Users([g]) == {g.user};
  }

  lemma SaveKeeps(l: Level, d: Delta, v: Level, manifest: set<Bytes>)
    requires LevelOk(l) && ManifestOk(l, manifest) && DeltaOk(l, d) && Saves(l, d, v)
    ensures SavingOk(l, v, |l.complete|, Recorded(l, d), manifest)
  {
    assert l.complete[..|l.complete|] == l.complete;
    UsersSplit(l.complete, l.num);
    LoggedUsers(l.complete, l.num);
    UsersAppend(d.complete, Logged(l.complete, l.num));
  }

  lemma InstallKeeps(l: Level, v: Level, size: nat, logged: set<Bytes>, manifest: set<Bytes>)
    requires LevelOk(l) && SavingOk(l, v, size, logged, manifest)
    ensures var l' := Installed(l, size, v);
            LevelOk(l') && ManifestOk(l', manifest + logged) && Users(l'.complete) == Users(l.complete)
  {
    var l' := Installed(l, size, v);
    UsersAppend(v.complete, l.complete[size..]);
    UsersSplit(l.complete, size);
    assert l'.complete[..l'.num] == v.complete;
  }

  lemma AppendStep(s: State, user: Bytes, tag: nat, first: nat, s': State)
    requires Inv(s) && Next(s, Append(user, tag, first), s')
    ensures Inv(s')
  {
    forall l | 0 <= l < |s.current| ensures
      && Users(s'.current[l].complete) == Users(s.current[l].complete) + (if l >= first then {user} else {})
      && LevelOk(s'.current[l]) && ManifestOk(s'.current[l], s.manifest[l])
    {
      if l >= first { AppendKeeps(s.current[l], GuardOf(user, tag, first, l)); }
    }
    if s.saving.Saving? {
      forall l | 0 <= l < |s.current| ensures
        SavingOk(s'.current[l], s.saving.version[l], s.saving.sizes[l], s.saving.logged[l], s.manifest[l])
      {
        if l >= first { AppendKeeps(s.current[l], GuardOf(user, tag, first, l)); }
      }
    }
  }

  lemma CollectStep(s: State, levels: set<nat>, complete: bool, s': State)
    requires Inv(s) && Next(s, Collect(levels, complete), s')
    ensures Inv(s')
  {
    forall e | 0 <= e < |s'.edits| ensures |s'.edits[e]| == |s.current| {
      assert e < |s.edits| ==> s'.edits[..|s.edits|][e] == s.edits[e];
    }
    forall e, l | 0 <= e < |s'.edits| && 0 <= l < |s.current| ensures DeltaOk(s.current[l], s'.edits[e][l]) {
      if e < |s.edits| {
        assert s'.edits[..|s.edits|][e] == s.edits[e];
        assert DeltaOk(s.current[l], s.edits[e][l]);
      }
    }
  }

  lemma BeginStep(s: State, e: nat, s': State)
    requires Inv(s) && Next(s, Begin(e), s')
    ensures Inv(s')
  {
    forall l | 0 <= l < |s.current| ensures
      SavingOk(s.current[l], s'.saving.version[l], s'.saving.sizes[l], s'.saving.logged[l], s.manifest[l])
    {
      SaveKeeps(s.current[l], s.edits[e][l], s'.saving.version[l], s.manifest[l]);
    }
  }

  lemma FinishStep(s: State, ok: bool, kept: bool, s': State)
    requires Inv(s) && Next(s, Finish(ok, kept), s')
    ensures Inv(s')
    ensures forall l :: 0 <= l < |s.current| ==> Users(s'.current[l].complete) == Users(s.current[l].complete)
  {
    forall l | 0 <= l < |s.current| ensures
      && LevelOk(s'.current[l]) && ManifestOk(s'.current[l], s'.manifest[l])
      && Users(s'.current[l].complete) == Users(s.current[l].complete)
    {
      InstallKeeps(s.current[l], s.saving.version[l], s.saving.sizes[l], s.saving.logged[l], s.manifest[l]);
    }
    forall e, l | 0 <= e < |s'.edits| && 0 <= l < |s'.current| ensures DeltaOk(s'.current[l], s'.edits[e][l]) {
      assert DeltaOk(s.current[l], s.edits[e][l]);
    }
  }

  /** Every step keeps the guards sorted, nested and backed by the manifest. */
  lemma StepKeeps(s: State, step: Step, s': State)
    requires Inv(s) && Next(s, step, s')
    ensures Inv(s')
  {
    match step
    case Append(user, tag, first) => AppendStep(s, user, tag, first, s');
    case Collect(levels, complete) => CollectStep(s, levels, complete, s');
    case Begin(e) => BeginStep(s, e, s');
    case Finish(ok, kept) => FinishStep(s, ok, kept, s');
  }

  /** The complete guards' user keys change only as writers append to them. */
  lemma StepGrows(s: State, step: Step, s': State, l: nat)
    requires Inv(s) && Next(s, step, s') && l < |s.current|
    ensures |s'.current| == |s.current|
    ensures Users(s'.current[l].complete)
            == Users(s.current[l].complete) + if step.Append? && l >= step.first then {step.user} else {}
  {
    if step.Append? {
      if l >= step.first { AppendKeeps(s.current[l], GuardOf(step.user, step.tag, step.first, l)); }
    } else if step.Finish? {
      FinishStep(s, step.ok, step.kept, s');
    }
  }

  ghost predicate Run(states: seq<State>, steps: seq<Step>) {
    && |states| == |steps| + 1 && Init(states[0])
    && forall i :: 0 <= i < |steps| ==> Next(states[i], steps[i], states[i + 1])
  }

  lemma {:induction false} RunKeeps(states: seq<State>, steps: seq<Step>, n: nat)
    requires Run(states, steps) && n < |states|
    ensures Inv(states[n]) && |states[n].current| == |states[0].current|
  {
    if n > 0 {
      RunKeeps(states, steps, n - 1);
      StepKeeps(states[n - 1], steps[n - 1], states[n]);
    }
  }

  /** The user keys appended for level l in the first n steps. */
  ghost function AppendedTo(steps: seq<Step>, l: nat, n: nat): set<Bytes>
    requires n <= |steps|
  {
    if n == 0 then {}
    else AppendedTo(steps, l, n - 1)
         + if steps[n - 1].Append? && l >= steps[n - 1].first then {steps[n - 1].user} else {}
  }

  /**
   * Whatever is installed, fails or is under way: a level's complete guards are exactly those ever appended for it
   * or for a level above it.
   */
  lemma {:induction false} NoneLost(states: seq<State>, steps: seq<Step>, l: nat, n: nat)
    requires Run(states, steps) && n <= |steps| && l < |states[0].current|
    ensures |states[n].current| == |states[0].current|
    ensures Users(states[n].current[l].complete) == AppendedTo(steps, l, n)
  {
    if n == 0 {
      assert states[0].current[l] == Level([], 0, []) && Users([]) == {};
    } else {
      NoneLost(states, steps, l, n - 1);
      GrowsAt(states, steps, l, n - 1);
    }
  }

  lemma GrowsAt(states: seq<State>, steps: seq<Step>, l: nat, n: nat)
    requires Run(states, steps) && n < |steps| && l < |states[n].current|
    ensures |states[n + 1].current| == |states[n].current|
    ensures Users(states[n + 1].current[l].complete)
            == Users(states[n].current[l].complete)
               + if steps[n].Append? && l >= steps[n].first then {steps[n].user} else {}
  {
    RunKeeps(states, steps, n);
    StepGrows(states[n], steps[n], states[n + 1], l);
  }

  /** In every state: sorted prefixes, guards among the sorted complete guards, levels nested, the manifest in between. */
  lemma RunSafe(states: seq<State>, steps: seq<Step>, n: nat, l: nat)
    requires Run(states, steps) && n < |states| && l < |states[n].current|
    ensures var level := states[n].current[l];
            && level.num <= |level.complete| && GuardsSorted(level.complete[..level.num])
            && Users(level.guards) <= Users(level.complete[..level.num])
            && (l + 1 < |states[n].current| ==> Users(level.complete) <= Users(states[n].current[l + 1].complete))
            && |states[n].manifest| == |states[n].current|
            && Users(level.complete[..level.num]) <= states[n].manifest[l] <= Users(level.complete)
  {
    RunKeeps(states, steps, n);
  }

  // ---------- What an edit installs ----------

  /** An edit stays as it was collected. */
  lemma {:induction false} EditKept(states: seq<State>, steps: seq<Step>, i: nat, j: nat, e: nat)
    requires Run(states, steps) && i <= j < |states| && e < |states[i].edits|
    ensures |states[j].edits| >= |states[i].edits| && states[j].edits[e] == states[i].edits[e]
  {
    if i < j {
      EditKept(states, steps, i, j - 1, e);
      KeepsEdits(states[j - 1], steps[j - 1], states[j], e);
    }
  }

  lemma KeepsEdits(s: State, step: Step, s': State, e: nat)
    requires Next(s, step, s') && e < |s.edits|
    ensures |s'.edits| >= |s.edits| && s'.edits[e] == s.edits[e]
  {
    if step.Collect? {
      assert s'.edits[..|s.edits|][e] == s.edits[e];
    }
  }

  /** A version under way stays as it was built until it is installed or given up. */
  lemma {:induction false} SavingKept(states: seq<State>, steps: seq<Step>, i: nat, j: nat)
    requires Run(states, steps) && i <= j < |states| && states[i].saving.Saving?
    requires forall k :: i <= k < j ==> !steps[k].Finish?
    ensures states[j].saving == states[i].saving
  {
    if i < j {
      SavingKept(states, steps, i, j - 1);
      assert Next(states[j - 1], steps[j - 1], states[j]);
    }
  }

  /**
   * An edit that takes up a level's guards at step i, is built into a version at step j and is installed at step k
   * adds every guard appended for the level before step i, and no other, to those its files are dealt to. The
   * sorted complete guards are then all those appended before step j.
   */
  lemma CollectedAreInstalled(states: seq<State>, steps: seq<Step>, i: nat, j: nat, k: nat, l: nat)
    requires Run(states, steps) && i < j < k < |steps| && l < |states[0].current|
    requires steps[i].Collect? && steps[j] == Begin(|states[i].edits|) && steps[k].Finish? && steps[k].ok
    requires forall m :: j < m < k ==> !steps[m].Finish?
    ensures |states[j].current| == |states[k + 1].current| == |states[0].current|
    ensures Users(states[k + 1].current[l].guards)
            == Users(states[j].current[l].guards) + if l in steps[i].levels then AppendedTo(steps, l, i) else {}
    ensures var now := states[k + 1].current[l];
            now.num <= |now.complete| && Users(now.complete[..now.num]) == AppendedTo(steps, l, j)
  {
    var e := |states[i].edits|;
    RunKeeps(states, steps, i);
    RunKeeps(states, steps, j);
    RunKeeps(states, steps, k);
    RunKeeps(states, steps, k + 1);
    NoneLost(states, steps, l, i);
    NoneLost(states, steps, l, j);
    CollectAt(states[i], steps[i], states[i + 1], l);
    EditKept(states, steps, i + 1, j, e);
    BuiltAt(states[j], e, states[j + 1], l);
    SavingKept(states, steps, j + 1, k);
    InstalledAt(states[k], steps[k], states[k + 1], l);
  }

  lemma CollectAt(s: State, step: Step, s': State, l: nat)
    requires Next(s, step, s') && step.Collect? && l < |s.current|
    ensures |s'.edits| == |s.edits| + 1 && |s'.edits[|s.edits|]| == |s.current|
    ensures var d := s'.edits[|s.edits|][l];
            && Users(d.guards) == (if l in step.levels then Users(s.current[l].complete) else {})
            && Users(d.complete) == if step.complete then Users(s.current[l].complete) else {}
  {
    assert Users([]) == {};
  }

  lemma BuiltAt(s: State, e: nat, s': State, l: nat)
    requires Inv(s) && Next(s, Begin(e), s') && l < |s.current|
    ensures s'.saving.Saving? && |s'.saving.version| == |s.current| == |s.edits[e]|
    ensures var v := s'.saving.version[l];
            && v.num == |v.complete| && Users(v.complete) == Users(s.current[l].complete)
            && Users(v.guards) == Users(s.current[l].guards) + Users(s.edits[e][l].guards)
  {
    assert DeltaOk(s.current[l], s.edits[e][l]);
  }

  lemma InstalledAt(s: State, step: Step, s': State, l: nat)
    requires Inv(s) && Next(s, step, s') && step.Finish? && step.ok && l < |s.current|
    ensures |s'.current| == |s.current| && s.saving.Saving? && |s.saving.version| == |s.current|
    ensures var v, now := s.saving.version[l], s'.current[l];
            && now.guards == v.guards && now.num == v.num <= |v.complete| <= |now.complete|
            && now.complete[..now.num] == v.complete[..v.num]
  {
    assert SavingOk(s.current[l], s.saving.version[l], s.saving.sizes[l], s.saving.logged[l], s.manifest[l]);
  }
}
