/**
 * The guards of one level: how the level's files are dealt out to the sentinel and the guards, how a
 * lookup finds the guard of a key, and which files it then considers.
 */
module Guards {
  import opened Keys

  datatype InternalKey = InternalKey(user: Bytes, tag: nat)

  predicate KeyBefore(a: InternalKey, b: InternalKey) {
    Before(a.user, a.tag, b.user, b.tag)
  }

  predicate KeyAtMost(a: InternalKey, b: InternalKey) {
    !KeyBefore(b, a)
  }

  lemma KeyTransitive(a: InternalKey, b: InternalKey, c: InternalKey)
    requires KeyBefore(a, b) && KeyBefore(b, c)
    ensures KeyBefore(a, c)
  {
    if Less(a.user, b.user) && Less(b.user, c.user) {
      LessTransitive(a.user, b.user, c.user);
    }
  }

  lemma KeyTrichotomy(a: InternalKey, b: InternalKey)
    ensures KeyBefore(a, b) || a == b || KeyBefore(b, a)
  {
    LessTrichotomy(a.user, b.user);
  }

  lemma KeyIrreflexive(a: InternalKey)
    ensures !KeyBefore(a, a)
  {
    LessIrreflexive(a.user);
  }

  datatype File = File(number: nat, smallest: InternalKey, largest: InternalKey)

  predicate Covers(f: File, user: Bytes) {
    AtMost(f.smallest.user, user) && AtMost(user, f.largest.user)
  }

  predicate GuardsSorted(guards: seq<InternalKey>) {
    forall i, j :: 0 <= i < j < |guards| ==> Less(guards[i].user, guards[j].user)
  }

  /** A level's file list: by smallest key, each file non-empty, each number once. */
  ghost predicate FilesSorted(files: seq<File>) {
    && (forall i :: 0 <= i < |files| ==> !KeyBefore(files[i].largest, files[i].smallest))
    && (forall i, j :: 0 <= i < j < |files| ==>
          !KeyBefore(files[j].smallest, files[i].smallest) && files[i].number != files[j].number)
  }

  // ---------- Looking up a key's guard ----------

  /** The binary search: the last guard at or before the key, or guard 0 when there is none. */
  method FindGuard(guards: seq<InternalKey>, user: Bytes) returns (g: nat)
    requires GuardsSorted(guards)
    ensures |guards| == 0 ==> g == 0
    ensures |guards| > 0 ==> g < |guards| && (g == 0 || AtMost(guards[g].user, user))
    ensures forall j :: g < j < |guards| ==> Less(user, guards[j].user)
  {
    if |guards| == 0 { return 0; }
    LessIsStrictTotalOrder();
    var left, right := 0, |guards| - 1;
    while left < right
      invariant 0 <= left <= right < |guards|
      invariant left == 0 || AtMost(guards[left].user, user)
      invariant forall j :: right < j < |guards| ==> Less(user, guards[j].user)
    {
      var mid := (left + right) / 2;
      if left + 1 == right {
        if AtMost(guards[right].user, user) { return right; }
        return left;
      }
      if Less(user, guards[mid].user) {
        right := mid - 1;
      } else {
        left := mid;
      }
    }
    return right;
  }

  /** Slot 0 is the sentinel and slot g + 1 is guard g: the slot a user key belongs to, among the first n guards. */
  function UserSlot(guards: seq<InternalKey>, user: Bytes, n: nat): nat
    requires n <= |guards|
  {
    if n == 0 || AtMost(guards[n - 1].user, user) then n else UserSlot(guards, user, n - 1)
  }

  lemma {:induction false} UserSlotBounds(guards: seq<InternalKey>, user: Bytes, n: nat)
    requires n <= |guards|
    ensures var u := UserSlot(guards, user, n);
            u <= n && (u > 0 ==> AtMost(guards[u - 1].user, user)) && forall j :: u <= j < n ==> Less(user, guards[j].user)
  {
    if n > 0 && !AtMost(guards[n - 1].user, user) { UserSlotBounds(guards, user, n - 1); }
  }

  // ---------- Dealing out the files ----------

  /** The slot of an internal key, by the internal order. */
  function KeySlot(guards: seq<InternalKey>, k: InternalKey, n: nat): nat
    requires n <= |guards|
  {
    if n == 0 || !KeyBefore(k, guards[n - 1]) then n else KeySlot(guards, k, n - 1)
  }

  lemma {:induction false} KeySlotBounds(guards: seq<InternalKey>, k: InternalKey, n: nat)
    requires n <= |guards|
    ensures var u := KeySlot(guards, k, n);
            u <= n && (u > 0 ==> !KeyBefore(k, guards[u - 1])) && forall j :: u <= j < n ==> KeyBefore(k, guards[j])
  {
    if n > 0 && KeyBefore(k, guards[n - 1]) { KeySlotBounds(guards, k, n - 1); }
  }

  lemma KeySlotAt(guards: seq<InternalKey>, k: InternalKey, g: nat)
    requires GuardsSorted(guards) && g < |guards|
    ensures KeyBefore(k, guards[g]) <==> KeySlot(guards, k, |guards|) <= g
  {
    LessIsStrictTotalOrder();
    KeySlotBounds(guards, k, |guards|);
    var u := KeySlot(guards, k, |guards|);
    if u > g + 1 {
      assert Less(guards[g].user, guards[u - 1].user);
    }
  }

  function Max(a: nat, b: nat): nat {
    if a < b then b else a
  }

  /** The slot file i is dealt to: the furthest slot a largest key has reached so far. */
  function FileSlot(files: seq<File>, guards: seq<InternalKey>, i: nat): nat
    requires i < |files|
  {
    var own := KeySlot(guards, files[i].largest, |guards|);
    if i == 0 then own else Max(FileSlot(files, guards, i - 1), own)
  }

  lemma {:induction false} FileSlotRises(files: seq<File>, guards: seq<InternalKey>, i: nat, j: nat)
    requires i <= j < |files|
    ensures FileSlot(files, guards, i) <= FileSlot(files, guards, j) <= |guards|
    ensures KeySlot(guards, files[i].largest, |guards|) <= FileSlot(files, guards, j)
    decreases j
  {
    KeySlotBounds(guards, files[j].largest, |guards|);
    if i < j { FileSlotRises(files, guards, i, j - 1); }
    else if i > 0 { FileSlotRises(files, guards, i - 1, j - 1); }
  }

  /** Each file's slot, in file order. */
  ghost predicate SlotsOf(files: seq<File>, guards: seq<InternalKey>, slots: seq<nat>) {
    |slots| == |files| && forall i :: 0 <= i < |files| ==> slots[i] == FileSlot(files, guards, i)
  }

  /** The files among the first n that go to a slot, in file order. */
  function Dealt(files: seq<File>, slots: seq<nat>, slot: nat, n: nat): seq<File>
    requires |slots| == |files| && n <= |files|
  {
    if n == 0 then []
    else Dealt(files, slots, slot, n - 1) + (if slots[n - 1] == slot then [files[n - 1]] else [])
  }

  /** The lists of slots 0 to slot, one after the other, for the first n files. */
  function DealtThrough(files: seq<File>, slots: seq<nat>, slot: nat, n: nat): seq<File>
    requires |slots| == |files| && n <= |files|
  {
    if slot == 0 then Dealt(files, slots, 0, n)
    else DealtThrough(files, slots, slot - 1, n) + Dealt(files, slots, slot, n)
  }

  ghost predicate Rising(slots: seq<nat>) {
    forall i, j :: 0 <= i <= j < |slots| ==> slots[i] <= slots[j]
  }

  lemma {:induction false} NoneDealt(files: seq<File>, slots: seq<nat>, slot: nat, n: nat)
    requires |slots| == |files| && n <= |files| && forall i :: 0 <= i < n ==> slots[i] != slot
    ensures Dealt(files, slots, slot, n) == []
  {
    if n > 0 { NoneDealt(files, slots, slot, n - 1); }
  }

  lemma {:induction false} DealtOneMore(files: seq<File>, slots: seq<nat>, slot: nat, n: nat)
    requires |slots| == |files| && n < |files| && Rising(slots)
    ensures DealtThrough(files, slots, slot, n + 1) ==
            DealtThrough(files, slots, slot, n) + if slot >= slots[n] then [files[n]] else []
  {
    if slot > slots[n] {
      NoneDealt(files, slots, slot, n + 1);
      NoneDealt(files, slots, slot, n);
    }
    if slot > 0 { DealtOneMore(files, slots, slot - 1, n); }
  }

  lemma {:induction false} NothingDealt(files: seq<File>, slots: seq<nat>, slot: nat)
    requires |slots| == |files|
    ensures DealtThrough(files, slots, slot, 0) == []
  {
    if slot > 0 { NothingDealt(files, slots, slot - 1); }
  }

  /** Nothing is lost or doubled: the lists of all slots, one after the other, are the file list. */
  lemma {:induction false} DealingConserves(files: seq<File>, slots: seq<nat>, top: nat, n: nat)
    requires |slots| == |files| && n <= |files| && Rising(slots) && forall i :: 0 <= i < |slots| ==> slots[i] <= top
    ensures DealtThrough(files, slots, top, n) == files[..n]
  {
    if n == 0 {
      NothingDealt(files, slots, top);
    } else {
      DealingConserves(files, slots, top, n - 1);
      DealtOneMore(files, slots, top, n - 1);
      assert files[..n] == files[..n - 1] + [files[n - 1]];
    }
  }

  lemma {:induction false} DealtRun(files: seq<File>, slots: seq<nat>, slot: nat, first: nat, next: nat, n: nat)
    requires |slots| == |files| && first <= next <= |files| && n <= |files|
    requires forall i :: 0 <= i < |files| ==> (slots[i] == slot <==> first <= i < next)
    ensures Dealt(files, slots, slot, n) == if n <= first then [] else if n <= next then files[first..n] else files[first..next]
  {
    if n > 0 { DealtRun(files, slots, slot, first, next, n - 1); }
  }

  method IsFileAlreadyPresent(files: seq<File>, number: nat) returns (present: bool)
    ensures present <==> HasNumber(files, number)
  {
    for i := 0 to |files|
      invariant forall j :: 0 <= j < i ==> files[j].number != number
    {
      if files[i].number == number { return true; }
    }
    return false;
  }

  predicate HasNumber(files: seq<File>, number: nat) {
    exists i :: 0 <= i < |files| && files[i].number == number
  }

  /** The first n files without those whose number came before. */
  function Once(files: seq<File>, n: nat): seq<File>
    requires n <= |files|
  {
    if n == 0 then []
    else Once(files, n - 1) + if HasNumber(Once(files, n - 1), files[n - 1].number) then [] else [files[n - 1]]
  }

  lemma {:induction false} OncePrefix(files: seq<File>, more: seq<File>, n: nat)
    requires n <= |files|
    ensures Once(files + more, n) == Once(files, n)
  {
    if n > 0 { OncePrefix(files, more, n - 1); }
  }

  lemma {:induction false} OnceAmong(files: seq<File>, n: nat, f: File)
    requires n <= |files| && f in Once(files, n)
    ensures f in files[..n]
  {
    if n > 0 {
      assert files[..n] == files[..n - 1] + [files[n - 1]];
      if f in Once(files, n - 1) { OnceAmong(files, n - 1, f); }
    }
  }

  /** A file number stands for one file. */
  ghost predicate OneFilePerNumber(files: seq<File>) {
    forall i, j :: 0 <= i < |files| && 0 <= j < |files| && files[i].number == files[j].number ==> files[i] == files[j]
  }

  /** Where a number stands for one file, no file is lost. */
  lemma {:induction false} OnceHolds(files: seq<File>, n: nat, i: nat)
    requires OneFilePerNumber(files) && i < n <= |files|
    ensures files[i] in Once(files, n)
  {
    if i < n - 1 {
      OnceHolds(files, n - 1, i);
    } else if HasNumber(Once(files, i), files[i].number) {
      var k :| 0 <= k < |Once(files, i)| && Once(files, i)[k].number == files[i].number;
      OnceAmong(files, i, Once(files, i)[k]);
    }
  }

  /** What a slot lists of the files dealt to it: a guard lists a number once, the sentinel whatever comes. */
  function Listed(slot: nat, dealt: seq<File>): seq<File> {
    if slot == 0 then dealt else Once(dealt, |dealt|)
  }

  lemma ListedHolds(slot: nat, dealt: seq<File>, f: File)
    requires OneFilePerNumber(dealt)
    ensures f in Listed(slot, dealt) <==> f in dealt
  {
    if f in dealt {
      var i :| 0 <= i < |dealt| && dealt[i] == f;
      OnceHolds(dealt, |dealt|, i);
    }
    if f in Once(dealt, |dealt|) {
      OnceAmong(dealt, |dealt|, f);
      assert dealt[..|dealt|] == dealt;
    }
  }

  lemma ListedOneMore(slot: nat, dealt: seq<File>, f: File)
    ensures Listed(slot, dealt + [f])
            == Listed(slot, dealt) + if slot > 0 && HasNumber(Listed(slot, dealt), f.number) then [] else [f]
  {
    OncePrefix(dealt, [f], |dealt|);
  }

  lemma SlotReached(guards: seq<InternalKey>, k: InternalKey, slot: nat)
    requires GuardsSorted(guards) && slot <= |guards|
    ensures KeySlot(guards, k, |guards|) <= slot <==> slot == |guards| || KeyBefore(k, guards[slot])
  {
    KeySlotBounds(guards, k, |guards|);
    if slot < |guards| { KeySlotAt(guards, k, slot); }
  }

  method ListFile(slot: nat, list: seq<File>, f: File, ghost dealt: seq<File>, ghost more: seq<File>)
    returns (list': seq<File>)
    requires list == Listed(slot, dealt) && more == dealt + [f]
    ensures list' == Listed(slot, more)
  {
    ListedOneMore(slot, dealt, f);
    var present := IsFileAlreadyPresent(list, f.number);
    list' := if slot == 0 || !present then list + [f] else list;
  }

  /** The inner loop: files go to this slot until one reaches the next guard key. */
  method FillSlot(files: seq<File>, guards: seq<InternalKey>, slot: nat, first: nat)
    returns (list: seq<File>, next: nat)
    requires GuardsSorted(guards) && slot <= |guards| && first <= |files|
    ensures first <= next <= |files| && list == Listed(slot, files[first..next])
    ensures forall i :: first <= i < next ==> KeySlot(guards, files[i].largest, |guards|) <= slot
    ensures next < |files| ==> KeySlot(guards, files[next].largest, |guards|) > slot
  {
    list, next := [], first;
    while next < |files| && (slot == |guards| || KeyBefore(files[next].largest, guards[slot]))
      invariant first <= next <= |files| && list == Listed(slot, files[first..next])
      invariant forall i :: first <= i < next ==> KeySlot(guards, files[i].largest, |guards|) <= slot
    {
      SlotReached(guards, files[next].largest, slot);
      list := ListFile(slot, list, files[next], files[first..next], files[first..next + 1]);
      next := next + 1;
    }
    if next < |files| { SlotReached(guards, files[next].largest, slot); }
  }

  /** A pass over the files that stands at a slot: what goes before has been dealt, the next file reaches it. */
  ghost predicate Reached(files: seq<File>, guards: seq<InternalKey>, slots: seq<nat>, slot: nat, n: nat)
    requires SlotsOf(files, guards, slots)
  {
    && n <= |files| && (forall i :: 0 <= i < n ==> slots[i] < slot)
    && (n < |files| ==> KeySlot(guards, files[n].largest, |guards|) >= slot)
  }

  lemma SlotIsRun(files: seq<File>, guards: seq<InternalKey>, slots: seq<nat>, slot: nat, first: nat, next: nat)
    requires SlotsOf(files, guards, slots) && Rising(slots)
    requires Reached(files, guards, slots, slot, first) && first <= next <= |files|
    requires forall i :: first <= i < next ==> KeySlot(guards, files[i].largest, |guards|) <= slot
    requires next < |files| ==> KeySlot(guards, files[next].largest, |guards|) > slot
    ensures Reached(files, guards, slots, slot + 1, next) && Dealt(files, slots, slot, |files|) == files[first..next]
  {
    RunSlots(files, guards, slots, slot, first, next);
    if next < |files| {
      FileSlotRises(files, guards, next, next);
    }
    DealtRun(files, slots, slot, first, next, |files|);
  }

  lemma {:induction false} RunSlots(files: seq<File>, guards: seq<InternalKey>, slots: seq<nat>, slot: nat, first: nat, next: nat)
    requires SlotsOf(files, guards, slots) && Rising(slots)
    requires Reached(files, guards, slots, slot, first) && first <= next <= |files|
    requires forall i :: first <= i < next ==> KeySlot(guards, files[i].largest, |guards|) <= slot
    ensures forall i :: first <= i < next ==> slots[i] == slot
  {
    if first < next {
      RunSlots(files, guards, slots, slot, first, next - 1);
      assert slots[next - 1] == FileSlot(files, guards, next - 1);
      assert next - 1 > 0 ==> slots[next - 2] == FileSlot(files, guards, next - 2);
    }
  }

  /** The level's files dealt to the sentinel and the guards. */
  method PopulateFiles(files: seq<File>, guards: seq<InternalKey>, ghost slots: seq<nat>)
    returns (sentinel: seq<File>, lists: seq<seq<File>>)
    requires GuardsSorted(guards) && SlotsOf(files, guards, slots)
    ensures |lists| == |guards| && sentinel == Dealt(files, slots, 0, |files|)
    ensures forall g :: 0 <= g < |guards| ==> lists[g] == Listed(g + 1, Dealt(files, slots, g + 1, |files|))
  {
    SlotsRise(files, guards, slots);
    var n;
    sentinel, n := FillOne(files, guards, slots, 0, 0);
    lists := [];
    for g := 0 to |guards|
      invariant |lists| == g && Reached(files, guards, slots, g + 1, n)
      invariant forall h :: 0 <= h < g ==> lists[h] == Listed(h + 1, Dealt(files, slots, h + 1, |files|))
    {
      var list;
      list, n := FillOne(files, guards, slots, g + 1, n);
      lists := lists + [list];
    }
  }

  method FillOne(files: seq<File>, guards: seq<InternalKey>, ghost slots: seq<nat>, slot: nat, first: nat)
    returns (list: seq<File>, next: nat)
    requires GuardsSorted(guards) && SlotsOf(files, guards, slots) && Rising(slots) && slot <= |guards|
    requires Reached(files, guards, slots, slot, first)
    ensures Reached(files, guards, slots, slot + 1, next) && list == Listed(slot, Dealt(files, slots, slot, |files|))
  {
    list, next := FillSlot(files, guards, slot, first);
    SlotIsRun(files, guards, slots, slot, first, next);
  }

  lemma SlotsRise(files: seq<File>, guards: seq<InternalKey>, slots: seq<nat>)
    requires SlotsOf(files, guards, slots)
    ensures Rising(slots) && forall i :: 0 <= i < |slots| ==> slots[i] <= |guards|
  {
    forall i, j | 0 <= i <= j < |slots| ensures slots[i] <= slots[j] <= |guards| {
      FileSlotRises(files, guards, i, j);
    }
  }

  predicate DistinctNumbers(files: seq<File>) {
    forall i, j :: 0 <= i < j < |files| ==> files[i].number != files[j].number
  }

  lemma {:induction false} OnceOfDistinct(files: seq<File>, n: nat)
    requires DistinctNumbers(files) && n <= |files|
    ensures Once(files, n) == files[..n]
  {
    if n > 0 {
      OnceOfDistinct(files, n - 1);
      assert files[..n] == files[..n - 1] + [files[n - 1]];
    }
  }

  predicate AmongFirst(files: seq<File>, n: nat, f: File)
    requires n <= |files|
  {
    exists i :: 0 <= i < n && files[i] == f
  }

  lemma {:induction false} DealtDistinct(files: seq<File>, slots: seq<nat>, slot: nat, n: nat)
    requires |slots| == |files| && n <= |files| && DistinctNumbers(files)
    ensures var dealt := Dealt(files, slots, slot, n);
            DistinctNumbers(dealt) && forall k :: 0 <= k < |dealt| ==> AmongFirst(files, n, dealt[k])
  {
    if n > 0 {
      DealtDistinct(files, slots, slot, n - 1);
      var before, dealt := Dealt(files, slots, slot, n - 1), Dealt(files, slots, slot, n);
      forall k | 0 <= k < |before| ensures before[k].number != files[n - 1].number && AmongFirst(files, n, before[k]) {
        var i :| 0 <= i < n - 1 && files[i] == before[k];
      }
      assert AmongFirst(files, n, files[n - 1]);
      assert forall k :: 0 <= k < |before| ==> dealt[k] == before[k];
    }
  }

  /**
   * What is dealt to the sentinel and the guards, one after the other, is exactly the level's file list; and where no
   * number comes twice each of them lists all that is dealt to it.
   */
  lemma PopulatedListsConserve(files: seq<File>, guards: seq<InternalKey>, slots: seq<nat>)
    requires SlotsOf(files, guards, slots)
    ensures DealtThrough(files, slots, |guards|, |files|) == files
    ensures DistinctNumbers(files) ==>
              forall slot :: Listed(slot, Dealt(files, slots, slot, |files|)) == Dealt(files, slots, slot, |files|)
  {
    SlotsRise(files, guards, slots);
    DealingConserves(files, slots, |guards|, |files|);
    assert files[..|files|] == files;
    if DistinctNumbers(files) {
      forall slot ensures Listed(slot, Dealt(files, slots, slot, |files|)) == Dealt(files, slots, slot, |files|) {
        var dealt := Dealt(files, slots, slot, |files|);
        DealtDistinct(files, slots, slot, |files|);
        OnceOfDistinct(dealt, |dealt|);
        assert dealt[..|dealt|] == dealt;
      }
    }
  }

  // ---------- Which files a lookup considers ----------

  lemma UserSlotAt(guards: seq<InternalKey>, user: Bytes, g: nat)
    requires GuardsSorted(guards) && g <= |guards|
    requires g > 0 ==> AtMost(guards[g - 1].user, user)
    requires g < |guards| ==> Less(user, guards[g].user)
    ensures UserSlot(guards, user, |guards|) == g
  {
    LessIsStrictTotalOrder();
    UserSlotBounds(guards, user, |guards|);
    var u := UserSlot(guards, user, |guards|);
  }

  lemma UserSlotMonotone(guards: seq<InternalKey>, a: Bytes, b: Bytes)
    requires GuardsSorted(guards) && AtMost(a, b)
    ensures UserSlot(guards, a, |guards|) <= UserSlot(guards, b, |guards|)
  {
    LessIsStrictTotalOrder();
    UserSlotBounds(guards, a, |guards|);
    UserSlotBounds(guards, b, |guards|);
  }

  /** Newer files have larger numbers and are read first. */
  predicate NewestFirst(files: seq<File>) {
    forall i, j :: 0 <= i < j < |files| ==> files[i].number >= files[j].number
  }

  method InsertByNumber(files: seq<File>, f: File) returns (r: seq<File>)
    requires NewestFirst(files)
    ensures NewestFirst(r) && multiset(r) == multiset(files) + multiset{f}
  {
    var k := 0;
    while k < |files| && files[k].number > f.number
      invariant k <= |files| && forall i :: 0 <= i < k ==> files[i].number > f.number
    {
      k := k + 1;
    }
    r := files[..k] + [f] + files[k..];
    assert files == files[..k] + files[k..];
  }

  /** The first n files whose range holds the key. */
  function Covering(files: seq<File>, user: Bytes, n: nat): seq<File>
    requires n <= |files|
  {
    if n == 0 then []
    else Covering(files, user, n - 1) + (if Covers(files[n - 1], user) then [files[n - 1]] else [])
  }

  method Narrow(list: seq<File>, user: Bytes) returns (r: seq<File>)
    ensures NewestFirst(r) && multiset(r) == multiset(Covering(list, user, |list|))
  {
    r := [];
    for i := 0 to |list|
      invariant NewestFirst(r) && multiset(r) == multiset(Covering(list, user, i))
    {
      if Covers(list[i], user) {
        r := InsertByNumber(r, list[i]);
      }
    }
  }

  /** The files a lookup reads in one level: the key's slot, narrowed to ranges that hold the key, newest first. */
  method FilesToSearch(guards: seq<InternalKey>, sentinel: seq<File>, lists: seq<seq<File>>, user: Bytes)
    returns (r: seq<File>)
    requires GuardsSorted(guards) && |lists| == |guards|
    ensures forall i, j :: 0 <= i < j < |r| ==> r[i].number >= r[j].number
    ensures var slot := UserSlot(guards, user, |guards|);
            slot <= |guards| && var list := if slot == 0 then sentinel else lists[slot - 1];
            multiset(r) == multiset(Covering(list, user, |list|))
  {
    UserSlotBounds(guards, user, |guards|);
    var g := FindGuard(guards, user);
    if |guards| == 0 || (g == 0 && Less(user, guards[0].user)) {
      UserSlotAt(guards, user, 0);
      r := Narrow(sentinel, user);
    } else {
      UserSlotAt(guards, user, g + 1);
      r := Narrow(lists[g], user);
    }
  }

  /** What a lookup considers of the files dealt out: those of its slot whose range holds the key. */
  function Considered(files: seq<File>, guards: seq<InternalKey>, slots: seq<nat>, user: Bytes): seq<File>
    requires |slots| == |files|
  {
    var list := Dealt(files, slots, UserSlot(guards, user, |guards|), |files|);
    Covering(list, user, |list|)
  }

  /** A lookup of the key considers exactly the files of the level whose range holds it. */
  predicate ConsidersExactly(files: seq<File>, guards: seq<InternalKey>, slots: seq<nat>, user: Bytes)
    requires |slots| == |files|
  {
    Considered(files, guards, slots, user) == Covering(files, user, |files|)
  }

  lemma CoveringAppend(list: seq<File>, f: File, user: Bytes)
    ensures Covering(list + [f], user, |list| + 1) ==
            Covering(list, user, |list|) + if Covers(f, user) then [f] else []
  {
    CoveringPrefix(list, [f], user, |list|);
  }

  lemma {:induction false} CoveringPrefix(list: seq<File>, more: seq<File>, user: Bytes, n: nat)
    requires n <= |list|
    ensures Covering(list + more, user, n) == Covering(list, user, n)
  {
    if n > 0 { CoveringPrefix(list, more, user, n - 1); }
  }

  lemma {:induction false} CoveringDealt(files: seq<File>, slots: seq<nat>, slot: nat, user: Bytes, n: nat)
    requires |slots| == |files| && n <= |files|
    ensures var list := Dealt(files, slots, slot, n);
            var a, b := Covering(list, user, |list|), Covering(files, user, n);
            && |a| <= |b|
            && (|a| == |b| ==> forall i :: 0 <= i < n && Covers(files[i], user) ==> slots[i] == slot)
            && ((forall i :: 0 <= i < n && Covers(files[i], user) ==> slots[i] == slot) ==> a == b)
  {
    if n > 0 {
      CoveringDealt(files, slots, slot, user, n - 1);
      CoveringAppend(Dealt(files, slots, slot, n - 1), files[n - 1], user);
      if slots[n - 1] != slot {
        assert Dealt(files, slots, slot, n) == Dealt(files, slots, slot, n - 1);
      }
    }
  }

  lemma ConsidersExactlyIffSlots(files: seq<File>, guards: seq<InternalKey>, slots: seq<nat>, user: Bytes)
    requires |slots| == |files|
    ensures ConsidersExactly(files, guards, slots, user) <==>
            forall i :: 0 <= i < |files| && Covers(files[i], user) ==> slots[i] == UserSlot(guards, user, |guards|)
  {
    CoveringDealt(files, slots, UserSlot(guards, user, |guards|), user, |files|);
  }

  /** Every file lies within the slot it was dealt to. */
  ghost predicate InOwnSlot(files: seq<File>, guards: seq<InternalKey>, slots: seq<nat>)
    requires |slots| == |files|
  {
    forall i :: 0 <= i < |files| ==>
      slots[i] == UserSlot(guards, files[i].smallest.user, |guards|) == UserSlot(guards, files[i].largest.user, |guards|)
  }

  /** Lookups consider exactly the covering files, for every key, if and only if each file lies in its slot. */
  lemma LookupsExactIff(files: seq<File>, guards: seq<InternalKey>, slots: seq<nat>)
    requires GuardsSorted(guards) && SlotsOf(files, guards, slots)
    requires forall i :: 0 <= i < |files| ==> AtMost(files[i].smallest.user, files[i].largest.user)
    ensures (forall user :: ConsidersExactly(files, guards, slots, user)) <==> InOwnSlot(files, guards, slots)
  {
    LessIsStrictTotalOrder();
    if InOwnSlot(files, guards, slots) {
      forall user ensures ConsidersExactly(files, guards, slots, user) {
        forall i | 0 <= i < |files| && Covers(files[i], user) ensures slots[i] == UserSlot(guards, user, |guards|) {
          UserSlotMonotone(guards, files[i].smallest.user, user);
          UserSlotMonotone(guards, user, files[i].largest.user);
        }
        ConsidersExactlyIffSlots(files, guards, slots, user);
      }
    }
    if forall user :: ConsidersExactly(files, guards, slots, user) {
      forall i | 0 <= i < |files|
        ensures slots[i] == UserSlot(guards, files[i].smallest.user, |guards|) == UserSlot(guards, files[i].largest.user, |guards|)
      {
        ConsidersExactlyIffSlots(files, guards, slots, files[i].smallest.user);
        ConsidersExactlyIffSlots(files, guards, slots, files[i].largest.user);
      }
    }
  }

  /** All of the file's user keys lie in one interval of the guards. */
  predicate Fits(guards: seq<InternalKey>, f: File) {
    UserSlot(guards, f.smallest.user, |guards|) == UserSlot(guards, f.largest.user, |guards|)
  }

  /** The file ends on the guard's user key, yet before the guard: its last entry is newer than the guard. */
  predicate EndsBefore(f: File, guard: InternalKey) {
    f.largest.user == guard.user && f.largest.tag > guard.tag
  }

  /** A file that ends on a guard's user key before the guard comes after one that reaches the guard. */
  ghost predicate NoneEndsEarly(files: seq<File>, guards: seq<InternalKey>) {
    forall i, g :: 0 <= i < |files| && 0 <= g < |guards| && EndsBefore(files[i], guards[g]) ==>
                     ReachedBefore(files, i, guards[g])
  }

  ghost predicate ReachedBefore(files: seq<File>, i: nat, guard: InternalKey)
    requires i <= |files|
  {
    exists j :: 0 <= j < i && !KeyBefore(files[j].largest, guard)
  }

  /** The two orders give a key the same slot, unless it ends just before a guard of its user key. */
  lemma KeySlotOrOneLess(guards: seq<InternalKey>, k: InternalKey)
    requires GuardsSorted(guards)
    ensures var u := UserSlot(guards, k.user, |guards|);
            u <= |guards| && KeySlot(guards, k, |guards|)
            == if u > 0 && guards[u - 1].user == k.user && k.tag > guards[u - 1].tag then u - 1 else u
  {
    LessIsStrictTotalOrder();
    UserSlotBounds(guards, k.user, |guards|);
    KeySlotBounds(guards, k, |guards|);
    var u, s := UserSlot(guards, k.user, |guards|), KeySlot(guards, k, |guards|);
    if s > 0 { UserSlotAtLeast(guards, k.user, s - 1); }
    if u > 0 { KeySlotAt(guards, k, u - 1); }
    if u > 1 {
      KeySlotAt(guards, k, u - 2);
      assert Less(guards[u - 2].user, guards[u - 1].user);
    }
  }

  lemma UserSlotAtLeast(guards: seq<InternalKey>, user: Bytes, g: nat)
    requires GuardsSorted(guards) && g < |guards|
    ensures AtMost(guards[g].user, user) <==> UserSlot(guards, user, |guards|) > g
  {
    LessIsStrictTotalOrder();
    UserSlotBounds(guards, user, |guards|);
    var u := UserSlot(guards, user, |guards|);
    if u > g + 1 {
      assert Less(guards[g].user, guards[u - 1].user);
    }
  }

  lemma {:induction false} FileSlotTaken(files: seq<File>, guards: seq<InternalKey>, i: nat) returns (j: nat)
    requires i < |files|
    ensures j <= i && KeySlot(guards, files[j].largest, |guards|) == FileSlot(files, guards, i)
  {
    if KeySlot(guards, files[i].largest, |guards|) == FileSlot(files, guards, i) {
      j := i;
    } else {
      j := FileSlotTaken(files, guards, i - 1);
    }
  }

  /** A level in the order of its files' smallest keys. */
  ghost predicate BySmallest(files: seq<File>) {
    forall i, j :: 0 <= i < j < |files| ==> !KeyBefore(files[j].smallest, files[i].smallest)
  }

  lemma {:induction false} FittingInOwnSlot(files: seq<File>, guards: seq<InternalKey>, n: nat)
    requires GuardsSorted(guards) && BySmallest(files) && n < |files|
    requires (forall i :: 0 <= i < |files| ==> Fits(guards, files[i])) && NoneEndsEarly(files, guards)
    ensures FileSlot(files, guards, n) == UserSlot(guards, files[n].largest.user, |guards|)
  {
    var u := UserSlot(guards, files[n].largest.user, |guards|);
    KeySlotOrOneLess(guards, files[n].largest);
    if n > 0 {
      FittingInOwnSlot(files, guards, n - 1);
      assert Fits(guards, files[n - 1]) && Fits(guards, files[n]);
      assert !KeyBefore(files[n].smallest, files[n - 1].smallest);
      UserSlotMonotone(guards, files[n - 1].smallest.user, files[n].smallest.user);
    }
    if KeySlot(guards, files[n].largest, |guards|) < u {
      assert EndsBefore(files[n], guards[u - 1]);
      var j :| 0 <= j < n && !KeyBefore(files[j].largest, guards[u - 1]);
      KeySlotAt(guards, files[j].largest, u - 1);
      FileSlotRises(files, guards, j, n);
    }
  }

  lemma OwnSlotReached(files: seq<File>, guards: seq<InternalKey>, i: nat, g: nat)
    requires GuardsSorted(guards) && i < |files| && g < |guards| && EndsBefore(files[i], guards[g])
    requires FileSlot(files, guards, i) == UserSlot(guards, files[i].largest.user, |guards|)
    ensures ReachedBefore(files, i, guards[g])
  {
    LessIsStrictTotalOrder();
    UserSlotAtLeast(guards, files[i].largest.user, g);
    var j := FileSlotTaken(files, guards, i);
    KeySlotAt(guards, files[i].largest, g);
    KeySlotAt(guards, files[j].largest, g);
  }

  /**
   * On a level in order, every lookup considers exactly the files that can hold its key if and only if each file
   * fits one guard interval and none ends early on a guard's user key.
   */
  lemma LookupsExactWhen(files: seq<File>, guards: seq<InternalKey>, slots: seq<nat>)
    requires GuardsSorted(guards) && BySmallest(files) && SlotsOf(files, guards, slots)
    requires forall i :: 0 <= i < |files| ==> AtMost(files[i].smallest.user, files[i].largest.user)
    ensures (forall user :: ConsidersExactly(files, guards, slots, user)) <==>
            (forall i :: 0 <= i < |files| ==> Fits(guards, files[i])) && NoneEndsEarly(files, guards)
  {
    LookupsExactIff(files, guards, slots);
    if InOwnSlot(files, guards, slots) {
      forall i, g | 0 <= i < |files| && 0 <= g < |guards| && EndsBefore(files[i], guards[g])
        ensures ReachedBefore(files, i, guards[g])
      {
        OwnSlotReached(files, guards, i, g);
      }
    } else if (forall i :: 0 <= i < |files| ==> Fits(guards, files[i])) && NoneEndsEarly(files, guards) {
      forall i | 0 <= i < |files| ensures slots[i] == UserSlot(guards, files[i].largest.user, |guards|) {
        FittingInOwnSlot(files, guards, i);
      }
      assert forall i :: 0 <= i < |files| ==> Fits(guards, files[i]);
    }
  }

  /** So when no file reaches beyond its interval or ends on a guard's user key. */
  lemma LookupsExact(files: seq<File>, guards: seq<InternalKey>, slots: seq<nat>, user: Bytes)
    requires GuardsSorted(guards) && FilesSorted(files) && SlotsOf(files, guards, slots)
    requires forall i :: 0 <= i < |files| ==> Fits(guards, files[i])
    requires forall i, g :: 0 <= i < |files| && 0 <= g < |guards| ==> files[i].largest.user != guards[g].user
    ensures ConsidersExactly(files, guards, slots, user)
  {
    forall i | 0 <= i < |files| ensures AtMost(files[i].smallest.user, files[i].largest.user) {
      assert !KeyBefore(files[i].largest, files[i].smallest);
    }
    LookupsExactWhen(files, guards, slots);
  }

  /** A file of the guard's user key alone, with a newer entry than the guard's, is missed by lookups of that key. */
  lemma EndingOnGuardKeyIsMissed()
    ensures var files := [File(7, InternalKey([5], 9), InternalKey([5], 9))];
            var guards := [InternalKey([5], 3)];
            && Fits(guards, files[0]) && Covers(files[0], [5])
            && SlotsOf(files, guards, [0]) && !ConsidersExactly(files, guards, [0], [5])
  {
    var files := [File(7, InternalKey([5], 9), InternalKey([5], 9))];
    var guards := [InternalKey([5], 3)];
    UserSlotAt(guards, [5], 1);
    ConsidersExactlyIffSlots(files, guards, [0], [5]);
  }

  lemma {:induction false} DealtAmong(files: seq<File>, slots: seq<nat>, slot: nat, n: nat, f: File)
    requires |slots| == |files| && n <= |files| && f in Dealt(files, slots, slot, n)
    ensures f in files
  {
    if f in Dealt(files, slots, slot, n - 1) { DealtAmong(files, slots, slot, n - 1, f); }
  }

  lemma DealtOnce(files: seq<File>, slots: seq<nat>, slot: nat)
    requires |slots| == |files| && OneFilePerNumber(files)
    ensures OneFilePerNumber(Dealt(files, slots, slot, |files|))
  {
    var dealt := Dealt(files, slots, slot, |files|);
    forall i, j | 0 <= i < |dealt| && 0 <= j < |dealt| && dealt[i].number == dealt[j].number
      ensures dealt[i] == dealt[j]
    {
      DealtAmong(files, slots, slot, |files|, dealt[i]);
      DealtAmong(files, slots, slot, |files|, dealt[j]);
    }
  }

  lemma {:induction false} CoveringHolds(list: seq<File>, user: Bytes, n: nat, f: File)
    requires n <= |list|
    ensures f in Covering(list, user, n) <==> f in list[..n] && Covers(f, user)
  {
    if n > 0 {
      CoveringHolds(list, user, n - 1, f);
      assert list[..n] == list[..n - 1] + [list[n - 1]];
    }
  }

  /** A level's files dealt out and a key looked up: where lookups are exact, all files that can hold it are found. */
  method LookUp(files: seq<File>, guards: seq<InternalKey>, user: Bytes, ghost slots: seq<nat>) returns (r: seq<File>)
    requires GuardsSorted(guards) && OneFilePerNumber(files) && SlotsOf(files, guards, slots)
    ensures forall i, j :: 0 <= i < j < |r| ==> r[i].number >= r[j].number
    ensures forall f :: f in r <==> f in Considered(files, guards, slots, user)
    ensures ConsidersExactly(files, guards, slots, user) ==> forall f :: f in r <==> f in files && Covers(f, user)
  {
    var sentinel, lists := PopulateFiles(files, guards, slots);
    r := FilesToSearch(guards, sentinel, lists, user);
    ghost var slot := UserSlot(guards, user, |guards|);
    forall f ensures f in r <==> f in Considered(files, guards, slots, user) {
      FoundInSlot(Dealt(files, slots, slot, |files|), slot, files, slots, user, r, f);
    }
    forall f ensures f in Covering(files, user, |files|) <==> f in files && Covers(f, user) {
      CoveringHolds(files, user, |files|, f);
      assert files[..|files|] == files;
    }
  }

  lemma FoundInSlot(dealt: seq<File>, slot: nat, files: seq<File>, slots: seq<nat>, user: Bytes, r: seq<File>, f: File)
    requires |slots| == |files| && OneFilePerNumber(files) && dealt == Dealt(files, slots, slot, |files|)
    requires var list := Listed(slot, dealt); multiset(r) == multiset(Covering(list, user, |list|))
    ensures f in r <==> f in Covering(dealt, user, |dealt|)
  {
    var list := Listed(slot, dealt);
    DealtOnce(files, slots, slot);
    ListedHolds(slot, dealt, f);
    CoveringHolds(list, user, |list|, f);
    CoveringHolds(dealt, user, |dealt|, f);
    assert list[..|list|] == list && dealt[..|dealt|] == dealt;
    assert f in r <==> f in multiset(r);
    assert f in Covering(list, user, |list|) <==> f in multiset(Covering(list, user, |list|));
  }
}
