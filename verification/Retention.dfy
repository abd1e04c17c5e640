/** Retention: which backups a sweep deletes, and what any number of sweeps leaves. */
module Retention {
  import opened Text

  /** Fresh Backups carry no phase yet. */
  datatype Phase = NoPhase | Pending | Started | Running | Finalizing | Completed | Failed | WalArchivingFailing

  datatype Owner = Owner(kind: string, name: string)

  datatype Backup = Backup(
    name: string,
    created: int,            // metadata.creationTimestamp
    startedAt: Option<int>,  // status.startedAt
    phase: Phase,
    owners: seq<Owner>,
    deleting: bool)

  /** What deleteBackupsAfter amounts to: it is not set, cannot be read, or gives the time before which Backups go. */
  datatype Threshold = NotSet | Malformed | At(time: int)

  /** spec.retention of one BackupConfig. */
  datatype Policy = Policy(config: string, threshold: Threshold, minBackupsToKeep: int, ignoreForManualBackups: bool)

  const CONFIG_KIND := "BackupConfig"
  const DEFAULT_MIN_TO_KEEP := 5

  /** A negative minimum stands for "not set". */
  function MinToKeep(p: Policy): (k: nat)
    ensures p.minBackupsToKeep >= 0 ==> k == p.minBackupsToKeep
    ensures p.minBackupsToKeep < 0 ==> k == 5
  {
    if p.minBackupsToKeep >= 0 then p.minBackupsToKeep else DEFAULT_MIN_TO_KEEP
  }

  // ----- Order

  /** The comparator of sort.Slice: start times if both have one, else creation times. */
  predicate Before(a: Backup, b: Backup) {
    if a.startedAt.Some? && b.startedAt.Some? then a.startedAt.value < b.startedAt.value
    else a.created < b.created
  }

  function Time(b: Backup): int {
    if b.startedAt.Some? then b.startedAt.value else b.created
  }

  /** The comparator is what sort.Slice asks for on these Backups: it and its negation are transitive. */
  ghost predicate StrictWeak(list: seq<Backup>) {
    forall a, b, c | a in list && b in list && c in list ::
      && (Before(a, b) && Before(b, c) ==> Before(a, c))
      && (!Before(a, b) && !Before(b, c) ==> !Before(a, c))
  }

  ghost predicate Ordered(list: seq<Backup>) {
    forall i, j | 0 <= i < j < |list| :: !Before(list[j], list[i])
  }

  /** What sort.Slice may make of `list`: a rearrangement, and in order where the comparator is an order on it. */
  ghost predicate MayReturn(sorted: seq<Backup>, list: seq<Backup>) {
    multiset(sorted) == multiset(list) && (StrictWeak(list) ==> Ordered(sorted))
  }

  ghost predicate Uniform(list: seq<Backup>) {
    (forall b | b in list :: b.startedAt.Some?) || (forall b | b in list :: b.startedAt.None?)
  }

  /** Where all or none of the backups have a start time the comparator is an order, and it is that of time. */
  lemma UniformInTimeOrder(sorted: seq<Backup>, list: seq<Backup>)
    requires Uniform(list) && MayReturn(sorted, list)
    ensures StrictWeak(list)
    ensures (forall b | b in list :: b.startedAt.Some?) ==>
              forall i, j | 0 <= i < j < |sorted| ::
                sorted[i].startedAt.Some? && sorted[j].startedAt.Some?
                && sorted[i].startedAt.value <= sorted[j].startedAt.value
    ensures (forall b | b in list :: b.startedAt.None?) ==>
              forall i, j | 0 <= i < j < |sorted| :: sorted[i].created <= sorted[j].created
  {
    forall k | 0 <= k < |sorted|
      ensures sorted[k] in list
    {
      assert sorted[k] in multiset(sorted) && sorted[k] in multiset(list);
    }
  }

  /** Two backups of which only one has a start time are put in the order of their creation. */
  lemma MixedPairByCreation(a: Backup, b: Backup, sorted: seq<Backup>)
    requires a.startedAt.Some? != b.startedAt.Some? && MayReturn(sorted, [a, b])
    ensures |sorted| == 2 && sorted[0].created <= sorted[1].created
  {
    assert |sorted| == |multiset(sorted)| == |multiset([a, b])| == 2;
    assert sorted[0] in multiset(sorted) && sorted[1] in multiset(sorted);
    assert sorted[0] in multiset([a, b]) && sorted[1] in multiset([a, b]);
    assert multiset(sorted) == multiset{sorted[0], sorted[1]} by { assert sorted == [sorted[0], sorted[1]]; }
    assert multiset{sorted[0], sorted[1]} == multiset{a, b};
    assert sorted == [a, b] || sorted == [b, a];
  }

  /** On a mix of started and unstarted backups the comparator can have a cycle, so "sorted" means nothing. */
  lemma ComparatorCycle()
    ensures exists a, b, c :: Before(a, b) && Before(b, c) && Before(c, a)
  {
    var a := Backup("a", 1, Some(10), Completed, [], false);
    var b := Backup("b", 2, None, Completed, [], false);
    var c := Backup("c", 3, Some(5), Completed, [], false);
    assert Before(a, b) && Before(b, c) && Before(c, a);
  }

  lemma SameMembers(a: seq<Backup>, b: seq<Backup>)
    requires multiset(a) == multiset(b)
    ensures forall x :: x in a <==> x in b
    ensures StrictWeak(a) <==> StrictWeak(b)
  {
    hide Before;
    assert forall x :: x in a <==> x in multiset(a);
    assert forall x :: x in b <==> x in multiset(b);
  }

  /** Stands for sort.Slice: a rearrangement in any case, and in order wherever the comparator is an order. */
  method SortSlice(a: array<Backup>)
    modifies a
    ensures MayReturn(a[..], old(a[..]))
  {
    hide StrictWeak;
    for i := 0 to a.Length
      invariant multiset(a[..]) == multiset(old(a[..]))
      invariant StrictWeak(old(a[..])) <==> StrictWeak(a[..])
      invariant StrictWeak(a[..]) ==> Ordered(a[..i])
    {
      InsertionStep(a[..], i);
      SiftDown(a, i);
    }
    assert a[..a.Length] == a[..];
  }

  /** Moves a[i] down past everything it comes before. */
  method SiftDown(a: array<Backup>, i: nat)
    requires i < a.Length
    modifies a
    ensures a[..] == Sift(old(a[..]), i)
  {
    var j := i;
    while j > 0 && Before(a[j], a[j - 1])
      invariant 0 <= j <= i
      invariant Sift(a[..], j) == Sift(old(a[..]), i)
    {
      ghost var s := a[..];
      a[j], a[j - 1] := a[j - 1], a[j];
      assert a[..] == s[j := s[j - 1]][j - 1 := s[j]];
      j := j - 1;
    }
  }

  function Sift(s: seq<Backup>, j: nat): (r: seq<Backup>)
    requires j < |s|
    ensures |r| == |s|
    decreases j
  {
    if j > 0 && Before(s[j], s[j - 1]) then Sift(s[j := s[j - 1]][j - 1 := s[j]], j - 1) else s
  }

  lemma {:induction false} SiftRearranges(s: seq<Backup>, j: nat)
    requires j < |s|
    ensures multiset(Sift(s, j)) == multiset(s)
    decreases j
  {
    if j > 0 && Before(s[j], s[j - 1]) {
      SiftRearranges(s[j := s[j - 1]][j - 1 := s[j]], j - 1);
    }
  }

  /** All but s[j] are in order up to i, and nothing s[j] has passed comes before it. */
  ghost predicate OrderedBut(s: seq<Backup>, j: nat, i: nat) {
    && j <= i < |s|
    && (forall x, y | 0 <= x < y <= i && x != j && y != j :: !Before(s[y], s[x]))
    && (forall y | j < y <= i :: !Before(s[y], s[j]))
  }

  /** Being not before is transitive. */
  lemma NotBefore(list: seq<Backup>, a: Backup, b: Backup, c: Backup)
    requires StrictWeak(list) && a in list && b in list && c in list && !Before(a, b) && !Before(b, c)
    ensures !Before(a, c)
  {
  }

  lemma SwapKeepsOrder(s: seq<Backup>, j: nat, i: nat)
    requires OrderedBut(s, j, i) && j > 0 && Before(s[j], s[j - 1])
    ensures OrderedBut(s[j := s[j - 1]][j - 1 := s[j]], j - 1, i)
  {
    OneWay(s[j], s[j - 1]);
    hide Before;
  }

  lemma {:induction false} SiftSorts(s: seq<Backup>, j: nat, i: nat)
    requires StrictWeak(s) && OrderedBut(s, j, i)
    ensures Ordered(Sift(s, j)[..i + 1])
    decreases j
  {
    if j > 0 && Before(s[j], s[j - 1]) {
      hide StrictWeak;
      var t := s[j := s[j - 1]][j - 1 := s[j]];
      assert multiset(t) == multiset(s);
      SameMembers(t, s);
      SwapKeepsOrder(s, j, i);
      SiftSorts(t, j - 1, i);
    } else {
      hide StrictWeak;
      var r := s[..i + 1];
      forall x, y | 0 <= x < y < |r|
        ensures !Before(r[y], r[x])
      {
        if y == j && x < j - 1 {
          NotBefore(s, s[j], s[j - 1], s[x]);
        }
      }
    }
  }

  lemma InsertionStep(s: seq<Backup>, i: nat)
    requires i < |s|
    requires StrictWeak(s) ==> Ordered(s[..i])
    ensures multiset(Sift(s, i)) == multiset(s)
    ensures StrictWeak(Sift(s, i)) <==> StrictWeak(s)
    ensures StrictWeak(s) ==> Ordered(Sift(s, i)[..i + 1])
  {
    hide StrictWeak, Before;
    SiftRearranges(s, i);
    SameMembers(Sift(s, i), s);
    if StrictWeak(s) {
      assert forall x | 0 <= x < i :: s[..i][x] == s[x];
      SiftSorts(s, i, i);
    }
  }

  // ----- Selection

  predicate Unfinished(b: Backup) {
    b.phase == Pending || b.phase == Started || b.phase == Running || b.phase == Finalizing
  }

  predicate Healthy(b: Backup) {
    b.phase == Completed && !b.deleting
  }

  function CountHealthy(list: seq<Backup>): nat {
    if |list| == 0 then 0 else (if Healthy(list[0]) then 1 else 0) + CountHealthy(list[1..])
  }

  /** shouldDeleteBackup for a backup that has `newer` healthy backups behind it in the sorted list. */
  predicate ShouldDelete(b: Backup, newer: nat, p: Policy) {
    && !b.deleting && !Unfinished(b)
    && !(Healthy(b) && newer < MinToKeep(p))
    && !(p.ignoreForManualBackups && |b.owners| == 1)
    && p.threshold.At? && Time(b) < p.threshold.time
  }

  function ToDelete(list: seq<Backup>, p: Policy): seq<Backup> {
    if |list| == 0 then []
    else (if ShouldDelete(list[0], CountHealthy(list[1..]), p) then [list[0]] else []) + ToDelete(list[1..], p)
  }

  /** What a sweep leaves of the list, in the same order. */
  function Kept(list: seq<Backup>, p: Policy): seq<Backup> {
    if |list| == 0 then []
    else (if ShouldDelete(list[0], CountHealthy(list[1..]), p) then [] else [list[0]]) + Kept(list[1..], p)
  }

  /** Without a policy the array stays as it is; a policy that cannot be read is an error, found after sorting. */
  method GetBackupsToDelete(a: array<Backup>, p: Policy) returns (result: Option<seq<Backup>>)
    modifies a
    ensures p.threshold.NotSet? ==> a[..] == old(a[..]) && result == Some([])
    ensures !p.threshold.NotSet? ==> MayReturn(a[..], old(a[..]))
    ensures result.None? <==> p.threshold.Malformed?
    ensures p.threshold.At? ==> result == Some(ToDelete(a[..], p))
  {
    if p.threshold.NotSet? {
      return Some([]);
    }
    SortSlice(a);
    if p.threshold.Malformed? {
      return None;
    }
    var selected := Select(a[..], p);
    return Some(selected);
  }

  lemma {:induction false} NothingWithoutPolicy(list: seq<Backup>, p: Policy)
    requires !p.threshold.At?
    ensures ToDelete(list, p) == []
  {
    if |list| > 0 {
      NothingWithoutPolicy(list[1..], p);
    }
  }

  method Select(list: seq<Backup>, p: Policy) returns (result: seq<Backup>)
    ensures result == ToDelete(list, p)
  {
    result := [];
    for i := 0 to |list|
      invariant result + ToDelete(list[i..], p) == ToDelete(list, p)
    {
      assert list[i..][1..] == list[i + 1..];
      var newer := CountBy(list[i + 1..]);
      if ShouldDelete(list[i], newer, p) {
        result := result + [list[i]];
      }
    }
  }

  /** lo.CountBy over the healthy backups of a list. */
  method CountBy(list: seq<Backup>) returns (n: nat)
    ensures n == CountHealthy(list)
  {
    n := 0;
    for i := 0 to |list|
      invariant n + CountHealthy(list[i..]) == CountHealthy(list)
    {
      assert list[i..][1..] == list[i + 1..];
      n := n + if Healthy(list[i]) then 1 else 0;
    }
  }

  // ----- One sweep over a list

  /**
   For any list order: at least min(MinBackupsToKeep, healthy ones) healthy backups stay, and no
   more healthy ones stay than there were.
   */
  lemma {:induction false} KeepsEnough(list: seq<Backup>, p: Policy)
    ensures p.minBackupsToKeep >= 0 ==> CountHealthy(Kept(list, p)) >= Min(p.minBackupsToKeep, CountHealthy(list))
    ensures p.minBackupsToKeep < 0 ==> CountHealthy(Kept(list, p)) >= Min(5, CountHealthy(list))
    ensures CountHealthy(Kept(list, p)) <= CountHealthy(list)
  {
    if |list| > 0 {
      KeepsEnough(list[1..], p);
      var rest := Kept(list[1..], p);
      assert ([list[0]] + rest)[1..] == rest;
      assert [] + rest == rest;
    }
  }

  function Min(a: nat, b: nat): (r: nat)
    ensures r <= a && r <= b && (r == a || r == b)
  {
    if a <= b then a else b
  }

  /** The last MinBackupsToKeep healthy backups of the list are among those that stay. */
  lemma {:induction false} KeepsNewest(list: seq<Backup>, i: nat, p: Policy)
    requires i < |list| && list[i].phase == Completed && !list[i].deleting
    requires CountHealthy(list[i + 1..]) < if p.minBackupsToKeep >= 0 then p.minBackupsToKeep else 5
    ensures list[i] in Kept(list, p)
  {
    if i == 0 {
      assert list[0 + 1..] == list[1..];
    } else {
      assert list[1..][i..] == list[i + 1..];
      KeepsNewest(list[1..], i - 1, p);
    }
  }

  function Tally(list: seq<Backup>, f: Backup -> bool): nat {
    if |list| == 0 then 0 else (if f(list[0]) then 1 else 0) + Tally(list[1..], f)
  }

  lemma {:induction false} TallyAppend(a: seq<Backup>, b: seq<Backup>, f: Backup -> bool)
    ensures Tally(a + b, f) == Tally(a, f) + Tally(b, f)
  {
    if |a| == 0 {
      assert a + b == b;
    } else {
      assert (a + b)[1..] == a[1..] + b;
      TallyAppend(a[1..], b, f);
    }
  }

  lemma TakeOut(b: seq<Backup>, k: nat, f: Backup -> bool)
    requires k < |b|
    ensures multiset(b) == multiset(b[..k] + b[k + 1..]) + multiset{b[k]}
    ensures Tally(b, f) == Tally(b[..k] + b[k + 1..], f) + Tally([b[k]], f)
  {
    hide Tally;
    assert b == b[..k] + ([b[k]] + b[k + 1..]);
    TallyAppend(b[..k], [b[k]] + b[k + 1..], f);
    TallyAppend([b[k]], b[k + 1..], f);
    TallyAppend(b[..k], b[k + 1..], f);
  }

  /** A tally does not depend on the order. */
  lemma {:induction false} TallyOrderFree(a: seq<Backup>, b: seq<Backup>, f: Backup -> bool)
    requires multiset(a) == multiset(b)
    ensures Tally(a, f) == Tally(b, f)
  {
    hide Tally;
    assert |a| == |multiset(a)| == |multiset(b)| == |b|;
    if |a| == 0 {
      assert a == b;
    } else {
      assert a[0] in multiset(b);
      var k :| 0 <= k < |b| && b[k] == a[0];
      TakeOut(a, 0, f);
      TakeOut(b, k, f);
      assert a[..0] + a[0 + 1..] == a[1..];
      assert multiset(a[1..]) == multiset(a) - multiset{a[0]} == multiset(b[..k] + b[k + 1..]);
      TallyOrderFree(a[1..], b[..k] + b[k + 1..], f);
    }
  }

  /** Healthy backups of the list that do not come before `b`, and so may stand behind it. */
  function CountBehind(list: seq<Backup>, b: Backup): nat {
    Tally(list, NotBeforeIt(b))
  }

  function NotBeforeIt(b: Backup): Backup -> bool {
    c => Healthy(c) && !Before(c, b)
  }

  lemma {:induction false} BehindAreCounted(list: seq<Backup>, i: nat)
    requires Ordered(list) && i < |list| && Healthy(list[i])
    ensures CountHealthy(list[i + 1..]) < CountBehind(list, list[i])
  {
    if i > 0 {
      assert list[1..][i..] == list[i + 1..];
      BehindAreCounted(list[1..], i - 1);
    } else {
      AllCounted(list[1..], list[0]);
    }
  }

  lemma {:induction false} AllCounted(list: seq<Backup>, b: Backup)
    requires forall c | c in list :: !Before(c, b)
    ensures CountBehind(list, b) == CountHealthy(list)
  {
    if |list| > 0 {
      AllCounted(list[1..], b);
    }
  }

  /**
   In an ordered list every healthy backup is safe that has, itself included, no more than MinBackupsToKeep
   healthy ones that do not come before it.
   */
  lemma NewestSurvive(list: seq<Backup>, b: Backup, p: Policy)
    requires Ordered(list) && b in list && Healthy(b)
    requires CountBehind(list, b) <= MinToKeep(p)
    ensures b in Kept(list, p)
  {
    var i :| 0 <= i < |list| && list[i] == b;
    BehindAreCounted(list, i);
    KeepsNewest(list, i, p);
  }

  /**
   Exactly the Backups that are over, older than the threshold and not ignored manual ones are selected, a completed
   one if at least MinBackupsToKeep healthy ones come behind it.
   */
  lemma {:induction false} SelectsExactly(list: seq<Backup>, b: Backup, p: Policy)
    ensures b in ToDelete(list, p) <==>
              && !b.deleting && b.phase in {NoPhase, Completed, Failed, WalArchivingFailing}
              && p.threshold.At? && (p.ignoreForManualBackups ==> |b.owners| != 1)
              && (b.startedAt.Some? ==> b.startedAt.value < p.threshold.time)
              && (b.startedAt.None? ==> b.created < p.threshold.time)
              && SelectablyPlaced(list, b, p)
  {
    hide CountHealthy;
    if |list| > 0 {
      SelectsExactly(list[1..], b, p);
      PlacedInTail(list, b, p);
    }
  }

  ghost predicate SelectablyPlaced(list: seq<Backup>, b: Backup, p: Policy) {
    exists i :: 0 <= i < |list| && list[i] == b
        && (b.phase == Completed ==>
              CountHealthy(list[i + 1..]) >= if p.minBackupsToKeep >= 0 then p.minBackupsToKeep else 5)
  }

  lemma PlacedInTail(list: seq<Backup>, b: Backup, p: Policy)
    requires |list| > 0
    ensures SelectablyPlaced(list, b, p) <==>
              SelectablyPlaced(list[1..], b, p)
              || (list[0] == b && (b.phase == Completed ==> CountHealthy(list[1..]) >= MinToKeep(p)))
  {
    hide CountHealthy;
    if SelectablyPlaced(list[1..], b, p) {
      var i :| 0 <= i < |list[1..]| && list[1..][i] == b
               && (b.phase == Completed ==> CountHealthy(list[1..][i + 1..]) >= MinToKeep(p));
      assert list[1..][i + 1..] == list[i + 1 + 1..] && list[i + 1] == b;
    }
    if SelectablyPlaced(list, b, p) {
      var i :| 0 <= i < |list| && list[i] == b
          && (b.phase == Completed ==> CountHealthy(list[i + 1..]) >= MinToKeep(p));
      if i > 0 {
        assert list[1..][i - 1 + 1..] == list[i + 1..] && list[1..][i - 1] == b;
      } else {
        assert list[0 + 1..] == list[1..];
      }
    }
  }

  /** A second sweep with the same threshold finds nothing to delete, as long as the survivors stay in order. */
  lemma {:induction false} SecondSweepIdle(list: seq<Backup>, p: Policy)
    ensures ToDelete(Kept(list, p), p) == []
  {
    if |list| > 0 {
      var rest := Kept(list[1..], p);
      SecondSweepIdle(list[1..], p);
      KeepsEnough(list[1..], p);
      if !ShouldDelete(list[0], CountHealthy(list[1..]), p) {
        assert ([list[0]] + rest)[1..] == rest;
        assert !ShouldDelete(list[0], CountHealthy(rest), p);
      } else {
        assert [] + rest == rest;
      }
    }
  }

  /** In the one order the comparator admits. */
  ghost predicate StrictlyOrdered(list: seq<Backup>) {
    forall i, j | 0 <= i < j < |list| :: Before(list[i], list[j])
  }

  lemma {:induction false} KeptAreListed(list: seq<Backup>, p: Policy)
    ensures forall x | x in Kept(list, p) :: x in list
  {
    if |list| > 0 {
      KeptAreListed(list[1..], p);
      assert list == [list[0]] + list[1..];
    }
  }

  /** Healthy, and deleted as soon as enough healthy ones come behind it. */
  predicate Expendable(b: Backup, p: Policy) {
    Healthy(b) && ShouldDelete(b, MinToKeep(p), p)
  }

  lemma {:induction false} OnlyExpendableKept(list: seq<Backup>, b: Backup, newer: nat, p: Policy)
    requires b in Kept(list, p) && ShouldDelete(b, newer, p)
    ensures Expendable(b, p) && newer >= MinToKeep(p)
  {
    if |list| > 0 && b in Kept(list[1..], p) {
      OnlyExpendableKept(list[1..], b, newer, p);
    }
  }

  lemma {:induction false} SelectedAt(list: seq<Backup>, i: nat, p: Policy)
    requires i < |list| && ShouldDelete(list[i], CountHealthy(list[i + 1..]), p)
    ensures ToDelete(list, p) != []
  {
    if i > 0 {
      assert list[1..][i..] == list[i + 1..];
      SelectedAt(list[1..], i - 1, p);
    }
  }

  lemma {:induction false} SomeSelected(list: seq<Backup>, p: Policy) returns (i: nat)
    requires ToDelete(list, p) != []
    ensures i < |list| && ShouldDelete(list[i], CountHealthy(list[i + 1..]), p)
  {
    if ShouldDelete(list[0], CountHealthy(list[1..]), p) {
      i := 0;
    } else {
      var k := SomeSelected(list[1..], p);
      assert list[1..][k + 1..] == list[k + 1 + 1..];
      i := k + 1;
    }
  }

  lemma {:induction false} EarlierNotCounted(list: seq<Backup>, b: Backup)
    requires forall c | c in list :: Before(c, b)
    ensures CountBehind(list, b) == 0
  {
    if |list| > 0 {
      EarlierNotCounted(list[1..], b);
    }
  }

  /** The order that puts a healthy backup as far to the front as it may stand. */
  lemma FirstOfItsKind(list: seq<Backup>, b: Backup) returns (again: seq<Backup>, j: nat)
    requires StrictWeak(list) && Ordered(list) && b in list && Healthy(b)
    ensures Ordered(again) && multiset(again) == multiset(list)
    ensures j < |again| && again[j] == b && CountHealthy(again[j + 1..]) + 1 == CountBehind(list, b)
  {
    hide StrictWeak;
    var i: nat :| i < |list| && list[i] == b;
    j := i;
    while j > 0 && !Before(list[j - 1], b)
      invariant j <= i
      invariant forall k | j <= k <= i :: !Before(list[k], b)
    {
      j := j - 1;
    }
    forall k | 0 <= k < j
      ensures Before(list[k], b)
    {
      if k < j - 1 && !Before(list[k], b) {
        NotBefore(list, list[j - 1], list[k], b);
      }
    }
    again := MovedUp(list, j, i);
    MovedUpRearranges(list, j, i);
    MovedUpIsOrdered(list, j, i);
    MovedUpCount(list, j, i);
  }

  function MovedUp(list: seq<Backup>, j: nat, i: nat): seq<Backup>
    requires j <= i < |list|
  {
    list[..j] + ([list[i]] + (list[j..i] + list[i + 1..]))
  }

  lemma MovedUpRearranges(list: seq<Backup>, j: nat, i: nat)
    requires j <= i < |list|
    ensures multiset(MovedUp(list, j, i)) == multiset(list)
  {
    assert list == list[..j] + (list[j..i] + ([list[i]] + list[i + 1..]));
  }

  lemma MovedUpIsOrdered(list: seq<Backup>, j: nat, i: nat)
    requires Ordered(list) && j <= i < |list| && forall k | j <= k <= i :: !Before(list[k], list[i])
    ensures Ordered(MovedUp(list, j, i))
  {
    hide Before;
    var r := MovedUp(list, j, i);
    forall x, y | 0 <= x < y < |r|
      ensures !Before(r[y], r[x])
    {
      var u := MovedFrom(list, j, i, x);
      var v := MovedFrom(list, j, i, y);
      assert u < v ==> !Before(list[v], list[u]);
    }
  }

  lemma MovedFrom(list: seq<Backup>, j: nat, i: nat, x: nat) returns (u: nat)
    requires j <= i < |list| && x < |list|
    ensures u == (if x < j || x > i then x else if x == j then i else x - 1)
    ensures MovedUp(list, j, i)[x] == list[u]
  {
    u := if x < j || x > i then x else if x == j then i else x - 1;
  }

  lemma MovedUpCount(list: seq<Backup>, j: nat, i: nat)
    requires Ordered(list) && j <= i < |list| && Healthy(list[i])
    requires forall k | j <= k <= i :: !Before(list[k], list[i])
    requires forall k | 0 <= k < j :: Before(list[k], list[i])
    ensures CountHealthy(MovedUp(list, j, i)[j + 1..]) + 1 == CountBehind(list, list[i])
  {
    hide Tally, CountHealthy, Before;
    var b, behind := list[i], list[j..i] + list[i + 1..];
    assert MovedUp(list, j, i)[j + 1..] == behind;
    forall k | 0 <= k < |behind|
      ensures !Before(behind[k], b)
    {
      var v := if k < i - j then j + k else j + k + 1;
      assert behind[k] == list[v];
    }
    MovedUpRearranges(list, j, i);
    TallyOrderFree(MovedUp(list, j, i), list, NotBeforeIt(b));
    CountAround(list[..j], b, behind);
  }

  lemma CountAround(before: seq<Backup>, b: Backup, behind: seq<Backup>)
    requires Healthy(b) && !Before(b, b) && forall k | 0 <= k < |before| :: Before(before[k], b)
    requires forall k | 0 <= k < |behind| :: !Before(behind[k], b)
    ensures CountBehind(before + ([b] + behind), b) == CountHealthy(behind) + 1
  {
    assert ([b] + behind)[1..] == behind;
    TallyAppend(before, [b] + behind, NotBeforeIt(b));
    EarlierNotCounted(before, b);
    AllCounted([b] + behind, b);
  }

  /** Where the comparator is an order, some arrangement is ordered. */
  lemma SortedExists(list: seq<Backup>) returns (sorted: seq<Backup>)
    requires StrictWeak(list)
    ensures Ordered(sorted) && multiset(sorted) == multiset(list) && StrictWeak(sorted)
  {
    hide StrictWeak, Before;
    sorted := list;
    for i := 0 to |list|
      invariant |sorted| == |list| && multiset(sorted) == multiset(list)
      invariant StrictWeak(sorted) && Ordered(sorted[..i])
    {
      InsertionStep(sorted, i);
      sorted := Sift(sorted, i);
    }
    assert sorted[..|list|] == sorted;
  }

  lemma HealthyOrderFree(a: seq<Backup>, b: seq<Backup>)
    requires multiset(a) == multiset(b)
    ensures CountHealthy(a) == CountHealthy(b)
  {
    NothingSpared(a);
    NothingSpared(b);
    TallyOrderFree(a, b, Spared({}));
  }

  lemma {:induction false} HealthyBehind(list: seq<Backup>, i: nat)
    requires i < |list| && Healthy(list[i])
    ensures CountHealthy(list[i + 1..]) < CountHealthy(list)
  {
    if i > 0 {
      assert list[1..][i..] == list[i + 1..];
      HealthyBehind(list[1..], i - 1);
    }
  }

  /**
   An expendable survivor with too many healthy ones that can come behind it. Where the comparator is an order
   these are the ones that do not come before it; where it is not, no order is promised and they may be any.
   */
  ghost predicate Crowded(kept: seq<Backup>, b: Backup, p: Policy) {
    && b in kept && Expendable(b, p)
    && (if StrictWeak(kept) then CountBehind(kept, b) else CountHealthy(kept)) > MinToKeep(p)
  }

  ghost predicate Stable(kept: seq<Backup>, p: Policy) {
    forall b :: !Crowded(kept, b, p)
  }

  lemma SelectionNeedsCrowd(list: seq<Backup>, again: seq<Backup>, p: Policy)
    requires MayReturn(again, Kept(list, p)) && ToDelete(again, p) != []
    ensures !Stable(Kept(list, p), p)
  {
    hide Tally, ToDelete, Kept, Time, Ordered, StrictWeak;
    var kept := Kept(list, p);
    var i := SomeSelected(again, p);
    var b := again[i];
    assert b in multiset(again) && b in multiset(kept);
    OnlyExpendableKept(list, b, CountHealthy(again[i + 1..]), p);
    if StrictWeak(kept) {
      BehindAreCounted(again, i);
      TallyOrderFree(again, kept, NotBeforeIt(b));
    } else {
      HealthyBehind(again, i);
      HealthyOrderFree(again, kept);
    }
    assert Crowded(kept, b, p);
  }

  lemma CrowdedGoesFirst(kept: seq<Backup>, b: Backup, p: Policy) returns (again: seq<Backup>)
    requires Crowded(kept, b, p)
    ensures MayReturn(again, kept) && ToDelete(again, p) != []
  {
    hide Tally, ToDelete, Time, Ordered, StrictWeak;
    if StrictWeak(kept) {
      var sorted := SortedExists(kept);
      assert b in multiset(kept) && b in multiset(sorted);
      TallyOrderFree(sorted, kept, NotBeforeIt(b));
      var j;
      again, j := FirstOfItsKind(sorted, b);
      SelectedAt(again, j, p);
    } else {
      var i :| 0 <= i < |kept| && kept[i] == b;
      again := MovedUp(kept, 0, i);
      MovedUpRearranges(kept, 0, i);
      HealthyOrderFree(again, kept);
      assert again[0] == b && again[0 + 1..] == again[1..];
      SelectedAt(again, 0, p);
    }
  }

  /**
   The exact condition, for every list: a second selection at the same threshold is empty for whatever the
   sort may return if and only if no survivor is crowded.
   */
  lemma SecondSweepExact(list: seq<Backup>, p: Policy)
    ensures (forall again | MayReturn(again, Kept(list, p)) :: ToDelete(again, p) == []) <==> Stable(Kept(list, p), p)
  {
    hide Crowded, MayReturn, ToDelete, Kept;
    if b :| Crowded(Kept(list, p), b, p) {
      var again := CrowdedGoesFirst(Kept(list, p), b, p);
    } else {
      forall again | MayReturn(again, Kept(list, p))
        ensures ToDelete(again, p) == []
      {
        if ToDelete(again, p) != [] {
          SelectionNeedsCrowd(list, again, p);
        }
      }
    }
  }

  lemma {:induction false} StrictNotCrowded(list: seq<Backup>, b: Backup, p: Policy)
    requires StrictlyOrdered(list) && b in Kept(list, p) && Expendable(b, p)
    ensures CountBehind(Kept(list, p), b) <= MinToKeep(p)
  {
    var rest := Kept(list[1..], p);
    assert ([list[0]] + rest)[1..] == rest && [] + rest == rest;
    KeptAreListed(list[1..], p);
    if b in rest {
      StrictNotCrowded(list[1..], b, p);
      assert b in list[1..];
    } else {
      KeepsEnough(list[1..], p);
      forall x | x in rest
        ensures !Before(x, b)
      {
        assert x in list[1..];
      }
      AllCounted(rest, b);
    }
  }

  lemma StrictIsWeak(list: seq<Backup>, kept: seq<Backup>)
    requires StrictlyOrdered(list) && forall x | x in kept :: x in list
    ensures StrictWeak(kept)
  {
    hide Before;
    forall a, b, c | a in kept && b in kept && c in kept
      ensures Before(a, b) && Before(b, c) ==> Before(a, c)
      ensures !Before(a, b) && !Before(b, c) ==> !Before(a, c)
    {
      var i :| 0 <= i < |list| && list[i] == a;
      var j :| 0 <= j < |list| && list[j] == b;
      var k :| 0 <= k < |list| && list[k] == c;
      OneWay(a, b);
      OneWay(b, c);
      OneWay(a, c);
    }
  }

  lemma OneWay(a: Backup, b: Backup)
    ensures !(Before(a, b) && Before(b, a))
  {
  }

  /**
   So where the comparator admits only one order, as with pairwise different times of one kind, the second sweep
   deletes nothing, whatever order its own sort started from.
   */
  lemma SecondSweepIdleResorted(list: seq<Backup>, again: seq<Backup>, p: Policy)
    requires StrictlyOrdered(list) && MayReturn(again, Kept(list, p))
    ensures ToDelete(again, p) == []
  {
    hide Kept, ToDelete, CountBehind, Time, Ordered, StrictWeak, StrictlyOrdered;
    KeptAreListed(list, p);
    StrictIsWeak(list, Kept(list, p));
    forall b | b in Kept(list, p) && Expendable(b, p)
      ensures CountBehind(Kept(list, p), b) <= MinToKeep(p)
    {
      StrictNotCrowded(list, b, p);
    }
    SecondSweepExact(list, p);
  }

  /** Two scheduled and manual Backups of which only the Failed one has no start time. */
  ghost predicate MixedThree(a: Backup, b: Backup, c: Backup, p: Policy) {
    && p == Policy("c", At(100), 1, true)
    && a == Scheduled().(name := "a", created := 1, startedAt := Some(10))
    && b == Manual().(name := "b", created := 2, startedAt := None, phase := Failed)
    && c == Manual().(name := "c", created := 3, startedAt := Some(5))
  }

  /**
   On a mixed list the second sweep may delete although all times are different: an insertion sort leaves both
   lists below as they are, the first is kept whole, and of the second the only scheduled Backup goes.
   */
  lemma MixedOrdersCanDeleteTwice(a: Backup, b: Backup, c: Backup, p: Policy)
    requires MixedThree(a, b, c, p)
    ensures forall x, y: Backup | x in {a, b, c} && y in {a, b, c} && x != y :: Time(x) != Time(y)
    ensures MayReturn([b, c, a], [a, b, c]) && MayReturn([a, b, c], [b, c, a])
    ensures forall i: nat | i < 3 :: Sift([b, c, a], i) == [b, c, a] && Sift([a, b, c], i) == [a, b, c]
    ensures Kept([b, c, a], p) == [b, c, a] && ToDelete([a, b, c], p) == [a]
  {
    hide Kept, ToDelete, CountHealthy;
    FirstOrderKept(a, b, c, p);
    SecondOrderDeletes(a, b, c, p);
    assert multiset([b, c, a]) == multiset{a, b, c} == multiset([a, b, c]);
    assert Before(a, b) && Before(b, c) && !Before(a, c);
    assert a in [a, b, c] && b in [a, b, c] && c in [a, b, c];
    SameMembers([a, b, c], [b, c, a]);
  }

  lemma FirstOrderKept(a: Backup, b: Backup, c: Backup, p: Policy)
    requires MixedThree(a, b, c, p)
    ensures Kept([b, c, a], p) == [b, c, a]
  {
    assert [b, c, a][1..] == [c, a] && [c, a][1..] == [a] && [a][1..] == [];
    CountOne(a);
    assert |b.owners| == 1 && |c.owners| == 1;
    assert forall n: nat :: !ShouldDelete(b, n, p) && !ShouldDelete(c, n, p);
    assert Kept([a], p) == [a];
  }

  lemma SecondOrderDeletes(a: Backup, b: Backup, c: Backup, p: Policy)
    requires MixedThree(a, b, c, p)
    ensures ToDelete([a, b, c], p) == [a]
  {
    assert [a, b, c][1..] == [b, c] && [b, c][1..] == [c] && [c][1..] == [];
    CountOne(c);
    assert !Healthy(b);
    assert forall n: nat :: !ShouldDelete(b, n, p) && !ShouldDelete(c, n, p);
    assert ToDelete([c], p) == [];
    assert ToDelete([b, c], p) == [];
  }

  /**
   With equal times it may: the sort is not stable, and a manual backup the policy ignores can
   change places with the newest scheduled one.
   */
  lemma TiesCanDeleteTwice(list: seq<Backup>, again: seq<Backup>, p: Policy)
    requires list == [Manual(), Scheduled()] && again == [Scheduled(), Manual()] && p == Policy("c", At(10), 1, true)
    ensures MayReturn(list, again) && MayReturn(again, list)
    ensures Kept(list, p) == list && ToDelete(again, p) == [Scheduled()]
  {
    hide Kept, ToDelete, CountHealthy;
    assert multiset(list) == multiset{list[0], list[1]} && multiset(again) == multiset{again[0], again[1]};
    TiedListKept(Manual(), Scheduled(), p);
    TiedListLosesOne(Manual(), Scheduled(), p);
  }

  lemma TiedListKept(m: Backup, s: Backup, p: Policy)
    requires m == Manual() && s == Scheduled() && p == Policy("c", At(10), 1, true)
    ensures Kept([m, s], p) == [m, s]
  {
    assert [m, s][1..] == [s] && [s][1..] == [];
    assert |m.owners| == 1 && forall n: nat :: !ShouldDelete(m, n, p);
    assert Kept([s], p) == [s];
  }

  lemma TiedListLosesOne(m: Backup, s: Backup, p: Policy)
    requires m == Manual() && s == Scheduled() && p == Policy("c", At(10), 1, true)
    ensures ToDelete([s, m], p) == [s]
  {
    assert [s, m][1..] == [m] && [m][1..] == [];
    CountOne(m);
    assert |m.owners| == 1 && forall n: nat :: !ShouldDelete(m, n, p);
    assert ToDelete([m], p) == [];
  }

  function Manual(): Backup {
    Backup("m", 1, None, Completed, [Owner(CONFIG_KIND, "c")], false)
  }

  function Scheduled(): Backup {
    Backup("s", 1, None, Completed, [Owner(CONFIG_KIND, "c"), Owner("ScheduledBackup", "d")], false)
  }

  lemma CountOne(b: Backup)
    ensures CountHealthy([b]) == if b.phase == Completed && !b.deleting then 1 else 0
  {
    assert [b][1..] == [];
  }

  /** With the count of one backup this is all there is to know of the count. */
  lemma {:induction false} CountAdds(a: seq<Backup>, b: seq<Backup>)
    ensures CountHealthy(a + b) == CountHealthy(a) + CountHealthy(b)
  {
    if |a| == 0 {
      assert a + b == b;
    } else {
      assert (a + b)[1..] == a[1..] + b;
      CountAdds(a[1..], b);
    }
  }

  // ----- Sweeps over the Backups of a namespace

  predicate OwnedBy(b: Backup, config: string) {
    Owner(CONFIG_KIND, config) in b.owners
  }

  /** Owned by the config and not being deleted yet, in the order of the API listing. */
  function Relevant(api: seq<Backup>, config: string): seq<Backup> {
    if |api| == 0 then []
    else (if !api[0].deleting && OwnedBy(api[0], config) then [api[0]] else []) + Relevant(api[1..], config)
  }

  function NamesOf(list: seq<Backup>): set<string> {
    set b | b in list :: b.name
  }

  /** Deleting a Backup sets its deletion timestamp; its finalizer keeps the object for now. */
  function MarkDeleted(api: seq<Backup>, names: set<string>): seq<Backup> {
    if |api| == 0 then []
    else [if api[0].name in names then api[0].(deleting := true) else api[0]] + MarkDeleted(api[1..], names)
  }

  ghost predicate DistinctNames(list: seq<Backup>) {
    forall i, j | 0 <= i < j < |list| :: list[i].name != list[j].name
  }

  /** The same, said of the elements regardless of their order. */
  ghost predicate UniqueNames(list: multiset<Backup>) {
    && (forall x, y | x in list && y in list && x.name == y.name :: x == y)
    && (forall x | x in list :: list[x] == 1)
  }

  /** One sweep: some order of the relevant backups, the selection made on it, some deletes refused. */
  ghost predicate IsSweep(api: seq<Backup>, p: Policy, sorted: seq<Backup>, refused: set<string>, api': seq<Backup>) {
    && multiset(sorted) == multiset(Relevant(api, p.config))
    && api' == MarkDeleted(api, NamesOf(ToDelete(sorted, p)) - refused)
  }

  /** Healthy backups of the list whose name is not in `names`. */
  function CountSpared(list: seq<Backup>, names: set<string>): nat {
    Tally(list, Spared(names))
  }

  function Spared(names: set<string>): Backup -> bool {
    b => Healthy(b) && b.name !in names
  }

  lemma {:induction false} MarkingSpares(api: seq<Backup>, names: set<string>, config: string)
    ensures CountHealthy(Relevant(MarkDeleted(api, names), config)) == CountSpared(Relevant(api, config), names)
  {
    if |api| > 0 {
      var head := if api[0].name in names then api[0].(deleting := true) else api[0];
      var rest := MarkDeleted(api[1..], names);
      assert ([head] + rest)[1..] == rest;
      MarkingSpares(api[1..], names, config);
      var r, r' := Relevant(api[1..], config), Relevant(rest, config);
      assert ([api[0]] + r)[1..] == r && ([head] + r')[1..] == r' && [] + r == r && [] + r' == r';
    }
  }

  lemma {:induction false} Partition(list: seq<Backup>, p: Policy)
    ensures multiset(list) == multiset(Kept(list, p)) + multiset(ToDelete(list, p))
  {
    if |list| > 0 {
      hide Kept, ToDelete;
      Partition(list[1..], p);
      PartitionStep(list, p);
      ConsCount(list[0], Kept(list[1..], p));
      ConsCount(list[0], ToDelete(list[1..], p));
      ConsCount(list[0], list[1..]);
      assert [list[0]] + list[1..] == list;
    }
  }

  lemma ConsCount(x: Backup, s: seq<Backup>)
    ensures multiset([x] + s) == multiset{x} + multiset(s)
  {
  }

  lemma PartitionStep(list: seq<Backup>, p: Policy)
    requires |list| > 0
    ensures (Kept(list, p) == [list[0]] + Kept(list[1..], p) && ToDelete(list, p) == ToDelete(list[1..], p))
            || (Kept(list, p) == Kept(list[1..], p) && ToDelete(list, p) == [list[0]] + ToDelete(list[1..], p))
  {
    var kept, gone := Kept(list[1..], p), ToDelete(list[1..], p);
    assert [] + kept == kept && [] + gone == gone;
  }

  lemma {:induction false} DistinctIsUnique(list: seq<Backup>)
    requires DistinctNames(list)
    ensures UniqueNames(multiset(list))
  {
    if |list| > 0 {
      var n := |list| - 1;
      DistinctIsUnique(list[..n]);
      assert list == list[..n] + [list[n]];
      assert forall x | x in multiset(list[..n]) :: x in list[..n] && x.name != list[n].name;
    }
  }

  lemma {:induction false} RelevantAreOwned(api: seq<Backup>, config: string)
    ensures forall b | b in Relevant(api, config) :: !b.deleting && OwnedBy(b, config)
  {
    if |api| > 0 {
      RelevantAreOwned(api[1..], config);
    }
  }

  /** One Backup is relevant if it is owned and not being deleted; a list keeps its relevant ones in order. */
  lemma {:induction false} RelevantExactly(a: seq<Backup>, b: Backup, config: string)
    ensures Relevant(a + [b], config) ==
              Relevant(a, config) + if !b.deleting && Owner("BackupConfig", config) in b.owners then [b] else []
  {
    if |a| == 0 {
      assert a + [b] == [b] && [b][1..] == [];
    } else {
      assert (a + [b])[1..] == a[1..] + [b];
      RelevantExactly(a[1..], b, config);
    }
  }

  lemma RelevantStep(api: seq<Backup>, config: string)
    requires |api| > 0
    ensures Relevant(api, config) == Relevant(api[1..], config)
        || Relevant(api, config) == [api[0]] + Relevant(api[1..], config)
  {
    var rest := Relevant(api[1..], config);
    assert [] + rest == rest;
  }

  lemma {:induction false} RelevantAreListed(api: seq<Backup>, config: string)
    ensures multiset(Relevant(api, config)) <= multiset(api)
  {
    if |api| > 0 {
      hide Relevant;
      RelevantAreListed(api[1..], config);
      RelevantStep(api, config);
      OneMore(Relevant(api[1..], config), api[0], api[1..]);
      assert [api[0]] + api[1..] == api;
    }
  }

  lemma OneMore(a: seq<Backup>, b: Backup, c: seq<Backup>)
    requires multiset(a) <= multiset(c)
    ensures multiset(a) <= multiset([b] + c) && multiset([b] + a) <= multiset([b] + c)
  {
    ConsCount(b, a);
    ConsCount(b, c);
  }

  lemma NamesTellApart(list: seq<Backup>, p: Policy)
    requires UniqueNames(multiset(list))
    ensures forall b | b in Kept(list, p) :: b.name !in NamesOf(ToDelete(list, p))
  {
    Partition(list, p);
    forall b | b in Kept(list, p)
      ensures b.name !in NamesOf(ToDelete(list, p))
    {
      assert b in multiset(Kept(list, p)) && b in multiset(list);
      forall d | d in ToDelete(list, p)
        ensures d.name != b.name
      {
        assert d in multiset(ToDelete(list, p)) && d in multiset(list);
      }
    }
  }

  /** With unique names, what is not selected has none of the selected names. */
  lemma {:induction false} KeptAreSpared(list: seq<Backup>, p: Policy, names: set<string>)
    requires forall b | b in Kept(list, p) :: b.name !in names
    ensures CountSpared(list, names) >= CountHealthy(Kept(list, p))
  {
    if |list| > 0 {
      var rest := Kept(list[1..], p);
      assert ([list[0]] + rest)[1..] == rest && [] + rest == rest;
      assert forall b | b in rest :: b in Kept(list, p);
      assert !ShouldDelete(list[0], CountHealthy(list[1..]), p) ==> list[0] in Kept(list, p);
      KeptAreSpared(list[1..], p, names);
    }
  }

  function Healthies(api: seq<Backup>, config: string): nat {
    CountHealthy(Relevant(api, config))
  }

  lemma {:induction false} NothingSpared(list: seq<Backup>)
    ensures CountSpared(list, {}) == CountHealthy(list)
  {
    if |list| > 0 {
      NothingSpared(list[1..]);
    }
  }

  /** One sweep leaves at least min(MinBackupsToKeep, healthy before) healthy Backups, in whatever order it sorted. */
  lemma SweepKeepsEnough(api: seq<Backup>, p: Policy, sorted: seq<Backup>, refused: set<string>, api': seq<Backup>)
    requires DistinctNames(api) && IsSweep(api, p, sorted, refused, api')
    ensures p.minBackupsToKeep >= 0 ==>
              Healthies(api', p.config) >= Min(p.minBackupsToKeep, Healthies(api, p.config))
    ensures p.minBackupsToKeep < 0 ==> Healthies(api', p.config) >= Min(5, Healthies(api, p.config))
  {
    var relevant := Relevant(api, p.config);
    var names := NamesOf(ToDelete(sorted, p)) - refused;
    RelevantAreListed(api, p.config);
    DistinctIsUnique(api);
    assert UniqueNames(multiset(sorted));
    NamesTellApart(sorted, p);
    MarkingSpares(api, names, p.config);
    TallyOrderFree(relevant, sorted, Spared(names));
    KeptAreSpared(sorted, p, names);
    KeepsEnough(sorted, p);
    NothingSpared(sorted);
    NothingSpared(relevant);
    TallyOrderFree(relevant, sorted, Spared({}));
  }

  // ----- A second sweep over the Backups of a namespace

  /** The entries whose name is not in `names`. */
  function Without(list: seq<Backup>, names: set<string>): seq<Backup> {
    if |list| == 0 then []
    else (if list[0].name in names then [] else [list[0]]) + Without(list[1..], names)
  }

  lemma {:induction false} RelevantAfterMarks(api: seq<Backup>, names: set<string>, config: string)
    ensures Relevant(MarkDeleted(api, names), config) == Without(Relevant(api, config), names)
  {
    if |api| > 0 {
      var head := if api[0].name in names then api[0].(deleting := true) else api[0];
      var rest, r := MarkDeleted(api[1..], names), Relevant(api[1..], config);
      RelevantAfterMarks(api[1..], names, config);
      assert ([head] + rest)[1..] == rest && ([api[0]] + r)[1..] == r && [] + r == r;
    }
  }

  lemma {:induction false} WithoutSelected(list: seq<Backup>, p: Policy, names: set<string>)
    requires forall b | b in Kept(list, p) :: b.name !in names
    requires forall b | b in ToDelete(list, p) :: b.name in names
    ensures Without(list, names) == Kept(list, p)
  {
    if |list| > 0 {
      var kept, gone := Kept(list[1..], p), ToDelete(list[1..], p);
      assert forall b | b in kept :: b in Kept(list, p);
      assert forall b | b in gone :: b in ToDelete(list, p);
      assert !ShouldDelete(list[0], CountHealthy(list[1..]), p) ==> list[0] in Kept(list, p);
      assert ShouldDelete(list[0], CountHealthy(list[1..]), p) ==> list[0] in ToDelete(list, p);
      WithoutSelected(list[1..], p, names);
    }
  }

  lemma {:induction false} WithoutOrderFree(list: seq<Backup>, names: set<string>, x: Backup)
    ensures multiset(Without(list, names))[x] == if x.name in names then 0 else multiset(list)[x]
  {
    if |list| > 0 {
      WithoutOrderFree(list[1..], names, x);
      assert list == [list[0]] + list[1..];
    }
  }

  /** After a sweep without refusals what is relevant is what the selection kept. */
  lemma SweptAreKept(api: seq<Backup>, p: Policy, sorted: seq<Backup>, api1: seq<Backup>)
    requires DistinctNames(api) && IsSweep(api, p, sorted, {}, api1)
    ensures multiset(Relevant(api1, p.config)) == multiset(Kept(sorted, p))
  {
    hide Relevant, MarkDeleted, Kept, ToDelete, Without;
    var names := NamesOf(ToDelete(sorted, p)) - {};
    RelevantAreListed(api, p.config);
    DistinctIsUnique(api);
    assert UniqueNames(multiset(sorted));
    NamesTellApart(sorted, p);
    WithoutSelected(sorted, p, names);
    RelevantAfterMarks(api, names, p.config);
    forall x: Backup
      ensures multiset(Without(Relevant(api, p.config), names))[x] == multiset(Without(sorted, names))[x]
    {
      WithoutOrderFree(Relevant(api, p.config), names, x);
      WithoutOrderFree(sorted, names, x);
    }
  }

  /** A sweep changes nothing exactly when its selection is empty. */
  lemma IdleSweep(api: seq<Backup>, p: Policy, sorted: seq<Backup>, api': seq<Backup>)
    requires IsSweep(api, p, sorted, {}, api')
    ensures api' == api <==> ToDelete(sorted, p) == []
  {
    hide Relevant, MarkDeleted, ToDelete;
    var names := NamesOf(ToDelete(sorted, p)) - {};
    MarkingKeepsNames(api, names);
    if ToDelete(sorted, p) == [] {
      NothingMarked(api);
      assert names == {};
    } else {
      var b := ToDelete(sorted, p)[0];
      Partition(sorted, p);
      assert b in multiset(ToDelete(sorted, p)) && b in multiset(sorted) && b in multiset(Relevant(api, p.config));
      RelevantAreListed(api, p.config);
      RelevantAreOwned(api, p.config);
      assert b in multiset(api);
      var i :| 0 <= i < |api| && api[i] == b;
      assert b.name in names && api'[i] != api[i];
    }
  }

  /**
   The same on the API objects: right after a sweep without refusals another one with the same threshold leaves
   everything as it is, whatever order its sort gives, if and only if no survivor is crowded.
   */
  lemma SweepTwiceExact(api: seq<Backup>, p: Policy, sorted: seq<Backup>, api1: seq<Backup>)
    requires DistinctNames(api) && IsSweep(api, p, sorted, {}, api1)
    ensures (forall again, api2 | MayReturn(again, Relevant(api1, p.config)) && IsSweep(api1, p, again, {}, api2) ::
               api2 == api1)
            <==> Stable(Kept(sorted, p), p)
  {
    hide Relevant, MarkDeleted, Kept, ToDelete, Stable;
    var relevant, kept := Relevant(api1, p.config), Kept(sorted, p);
    SweptAreKept(api, p, sorted, api1);
    SameMayReturn(relevant, kept);
    SecondSweepExact(sorted, p);
    if Stable(kept, p) {
      forall again, api2 | MayReturn(again, relevant) && IsSweep(api1, p, again, {}, api2)
        ensures api2 == api1
      {
        IdleSweep(api1, p, again, api2);
      }
    } else {
      var again :| MayReturn(again, kept) && ToDelete(again, p) != [];
      var api2 := MarkDeleted(api1, NamesOf(ToDelete(again, p)) - {});
      assert MayReturn(again, relevant) && IsSweep(api1, p, again, {}, api2);
      IdleSweep(api1, p, again, api2);
    }
  }

  lemma SameMayReturn(a: seq<Backup>, b: seq<Backup>)
    requires multiset(a) == multiset(b)
    ensures forall again :: MayReturn(again, a) <==> MayReturn(again, b)
  {
    SameMembers(a, b);
  }

  // ----- Runs of sweeps

  /**
   What happens to the Backups of a namespace: sweeps of its configs, Backups that arrive, proceed, or go once
   marked, and whatever users do to one Backup, such as deleting it or changing its owners.
   */
  datatype Event =
    | Sweep(policy: Policy, sorted: seq<Backup>, refused: set<string>)
    | Arrive(backup: Backup)
    | Proceed(k: nat, startedAt: Option<int>, phase: Phase)
    | Vanish(k: nat)
    | Disturb(k: nat, backup: Backup)

  ghost predicate Next(api: seq<Backup>, e: Event, api': seq<Backup>) {
    match e
    case Sweep(p, sorted, refused) => IsSweep(api, p, sorted, refused, api')
    case Arrive(b) => b.name !in NamesOf(api) && api' == api + [b]
    case Proceed(k, start, phase) =>
      k < |api| && api[k].phase != Completed && api' == api[k := api[k].(startedAt := start, phase := phase)]
    case Vanish(k) => k < |api| && api[k].deleting && api' == api[..k] + api[k + 1..]
    case Disturb(k, b) => k < |api| && b.name == api[k].name && api' == api[k := b]
  }

  ghost predicate StepAt(tr: seq<seq<Backup>>, ev: seq<Event>, i: nat)
    requires i < |ev| && |tr| == |ev| + 1
  {
    Next(tr[i], ev[i], tr[i + 1])
  }

  ghost predicate IsRun(tr: seq<seq<Backup>>, ev: seq<Event>) {
    |tr| == |ev| + 1 && DistinctNames(tr[0]) && forall i | 0 <= i < |ev| :: StepAt(tr, ev, i)
  }

  /** A config is only swept with a minimum of at least `k`, and no Backup belongs to two of the swept configs. */
  ghost predicate Respects(ev: seq<Event>, config: string, k: nat) {
    forall i | 0 <= i < |ev| && ev[i].Sweep? ::
      if ev[i].policy.config == config
      then if ev[i].policy.minBackupsToKeep >= 0 then ev[i].policy.minBackupsToKeep >= k else 5 >= k
      else forall b | b in ev[i].sorted :: !OwnedBy(b, config)
  }

  lemma {:induction false} MarkingKeepsNames(api: seq<Backup>, names: set<string>)
    ensures |MarkDeleted(api, names)| == |api|
    ensures forall i | 0 <= i < |api| ::
              MarkDeleted(api, names)[i] == if api[i].name in names then api[i].(deleting := true) else api[i]
  {
    if |api| > 0 {
      MarkingKeepsNames(api[1..], names);
      assert forall i | 1 <= i < |api| :: MarkDeleted(api, names)[i] == MarkDeleted(api[1..], names)[i - 1];
    }
  }

  lemma NothingMarked(api: seq<Backup>)
    ensures MarkDeleted(api, {}) == api
  {
    MarkingKeepsNames(api, {});
  }

  /** Marks on Backups the config does not own do not change what is relevant to it. */
  lemma {:induction false} RelevantUnaffected(api: seq<Backup>, names: set<string>, config: string)
    requires forall b | b in api && b.name in names :: !OwnedBy(b, config)
    ensures Relevant(MarkDeleted(api, names), config) == Relevant(api, config)
  {
    if |api| > 0 {
      assert forall b | b in api[1..] :: b in api;
      RelevantUnaffected(api[1..], names, config);
      assert api[0] in api;
      var rest := MarkDeleted(api[1..], names);
      var head := if api[0].name in names then api[0].(deleting := true) else api[0];
      assert ([head] + rest)[1..] == rest;
    }
  }

  /** What a sweep of one config deletes is not owned by another, when no Backup is owned by both. */
  lemma SweptAreForeign(api: seq<Backup>, p: Policy, sorted: seq<Backup>, config: string)
    requires DistinctNames(api) && multiset(sorted) == multiset(Relevant(api, p.config))
    requires forall b | b in sorted :: !OwnedBy(b, config)
    ensures forall b | b in api && b.name in NamesOf(ToDelete(sorted, p)) :: !OwnedBy(b, config)
  {
    DistinctIsUnique(api);
    RelevantAreListed(api, p.config);
    Partition(sorted, p);
    forall b | b in api && b.name in NamesOf(ToDelete(sorted, p))
      ensures !OwnedBy(b, config)
    {
      var d :| d in ToDelete(sorted, p) && d.name == b.name;
      assert d in multiset(ToDelete(sorted, p)) && d in multiset(sorted) && d in multiset(api);
      assert d in sorted && b in multiset(api);
    }
  }

  lemma {:induction false} HealthiesAdd(a: seq<Backup>, b: seq<Backup>, config: string)
    ensures Healthies(a + b, config) == Healthies(a, config) + Healthies(b, config)
  {
    if |a| == 0 {
      assert a + b == b;
    } else {
      assert (a + b)[1..] == a[1..] + b;
      HealthiesAdd(a[1..], b, config);
      var r, r' := Relevant(a[1..], config), Relevant(a[1..] + b, config);
      assert ([a[0]] + r)[1..] == r && ([a[0]] + r')[1..] == r' && [] + r == r && [] + r' == r';
    }
  }

  lemma HealthiesSplit(api: seq<Backup>, k: nat, config: string)
    requires k < |api|
    ensures Healthies(api, config) ==
              Healthies(api[..k], config) + Healthies([api[k]], config) + Healthies(api[k + 1..], config)
  {
    assert api == api[..k] + ([api[k]] + api[k + 1..]);
    HealthiesAdd(api[..k], [api[k]] + api[k + 1..], config);
    HealthiesAdd([api[k]], api[k + 1..], config);
  }

  lemma HealthiesOne(b: Backup, config: string)
    ensures Healthies([b], config) ==
              if b.phase == Completed && !b.deleting && Owner("BackupConfig", config) in b.owners then 1 else 0
  {
    assert [b][1..] == [] && Relevant([b][1..], config) == [];
    CountOne(b);
  }

  lemma ProceedingKeeps(api: seq<Backup>, k: nat, b: Backup, config: string)
    requires DistinctNames(api) && k < |api| && b.name == api[k].name && !Healthy(api[k])
    ensures DistinctNames(api[k := b]) && Healthies(api[k := b], config) >= Healthies(api, config)
  {
    hide Healthies;
    var api' := api[k := b];
    HealthiesSplit(api, k, config);
    HealthiesSplit(api', k, config);
    assert api'[..k] == api[..k] && api'[k + 1..] == api[k + 1..];
    HealthiesOne(api[k], config);
  }

  lemma DisturbingTakesOne(api: seq<Backup>, k: nat, b: Backup, config: string)
    requires DistinctNames(api) && k < |api| && b.name == api[k].name
    ensures DistinctNames(api[k := b]) && Healthies(api[k := b], config) + 1 >= Healthies(api, config)
  {
    hide Healthies;
    var api' := api[k := b];
    HealthiesSplit(api, k, config);
    HealthiesSplit(api', k, config);
    assert api'[..k] == api[..k] && api'[k + 1..] == api[k + 1..];
    HealthiesOne(api[k], config);
  }

  lemma VanishingKeeps(api: seq<Backup>, k: nat, config: string)
    requires DistinctNames(api) && k < |api| && api[k].deleting
    ensures DistinctNames(api[..k] + api[k + 1..])
        && Healthies(api[..k] + api[k + 1..], config) == Healthies(api, config)
  {
    hide Healthies;
    HealthiesSplit(api, k, config);
    HealthiesOne(api[k], config);
    HealthiesAdd(api[..k], api[k + 1..], config);
  }

  /** Backups that arrive, proceed or vanish do not lower the number of healthy ones. */
  lemma OthersKeepHealthies(api: seq<Backup>, e: Event, api': seq<Backup>, config: string)
    requires DistinctNames(api) && Next(api, e, api') && !e.Sweep? && !e.Disturb?
    ensures DistinctNames(api') && Healthies(api', config) >= Healthies(api, config)
  {
    hide Healthies;
    match e
    case Arrive(b) =>
      assert forall i | 0 <= i < |api| :: api[i] in api;
      HealthiesAdd(api, [b], config);
    case Proceed(k, start, phase) => ProceedingKeeps(api, k, api[k].(startedAt := start, phase := phase), config);
    case Vanish(k) => VanishingKeeps(api, k, config);
  }

  lemma SweepStepKeepsEnough(api: seq<Backup>, e: Event, api': seq<Backup>, config: string, k: nat)
    requires DistinctNames(api) && Next(api, e, api') && e.Sweep?
    requires if e.policy.config == config then MinToKeep(e.policy) >= k
             else forall b | b in e.sorted :: !OwnedBy(b, config)
    ensures DistinctNames(api') && Healthies(api', config) >= Min(k, Healthies(api, config))
  {
    hide OwnedBy, Relevant, ToDelete, MarkDeleted;
    var names := NamesOf(ToDelete(e.sorted, e.policy)) - e.refused;
    MarkingKeepsNames(api, names);
    if e.policy.config == config {
      SweepKeepsEnough(api, e.policy, e.sorted, e.refused, api');
    } else {
      SweptAreForeign(api, e.policy, e.sorted, config);
      RelevantUnaffected(api, names, config);
    }
  }

  lemma StepKeepsEnough(api: seq<Backup>, e: Event, api': seq<Backup>, config: string, k: nat)
    requires DistinctNames(api) && Next(api, e, api')
    requires e.Sweep? ==> if e.policy.config == config then MinToKeep(e.policy) >= k
                          else forall b | b in e.sorted :: !OwnedBy(b, config)
    ensures DistinctNames(api')
    ensures Healthies(api', config) + (if e.Disturb? then 1 else 0) >= Min(k, Healthies(api, config))
  {
    hide Healthies, OwnedBy, IsSweep, DistinctNames;
    match e
    case Sweep(_, _, _) => SweepStepKeepsEnough(api, e, api', config, k);
    case Disturb(i, b) => DisturbingTakesOne(api, i, b, config);
    case _ => OthersKeepHealthies(api, e, api', config);
  }

  function Disturbances(ev: seq<Event>): nat {
    if |ev| == 0 then 0 else Disturbances(ev[..|ev| - 1]) + if ev[|ev| - 1].Disturb? then 1 else 0
  }

  lemma DisturbancesExactly(ev: seq<Event>, e: Event)
    ensures Disturbances([]) == 0
    ensures Disturbances(ev + [e]) == Disturbances(ev) + match e case Disturb(_, _) => 1 case _ => 0
  {
    assert (ev + [e])[..|ev|] == ev;
  }

  /**
   Over any run of sweeps of any configs, with refused deletes and other Backup changes in between, a config
   never drops below min(k, healthy at the start) healthy Backups by more than what users took away themselves.
   */
  lemma {:induction false} GuaranteeOverRuns(tr: seq<seq<Backup>>, ev: seq<Event>, config: string, k: nat, n: nat)
    requires IsRun(tr, ev) && Respects(ev, config, k) && n <= |ev|
    ensures DistinctNames(tr[n])
    ensures Healthies(tr[n], config) + Disturbances(ev[..n]) >= Min(k, Healthies(tr[0], config))
  {
    if n > 0 {
      GuaranteeOverRuns(tr, ev, config, k, n - 1);
      assert StepAt(tr, ev, n - 1);
      StepKeepsEnough(tr[n - 1], ev[n - 1], tr[n], config, k);
      assert ev[..n][..n - 1] == ev[..n - 1];
    }
  }

  lemma {:induction false} MarkingAdds(api: seq<Backup>, a: set<string>, b: set<string>)
    ensures MarkDeleted(MarkDeleted(api, a), b) == MarkDeleted(api, a + b)
  {
    MarkingKeepsNames(api, a);
    MarkingKeepsNames(MarkDeleted(api, a), b);
    MarkingKeepsNames(api, a + b);
  }

  /** Sweeps of configs that share no Backup commute: the other order of the same two sweeps ends the same. */
  lemma SweepsCommute(api: seq<Backup>, p1: Policy, s1: seq<Backup>, r1: set<string>, m1: seq<Backup>,
                      p2: Policy, s2: seq<Backup>, r2: set<string>, end: seq<Backup>) returns (m2: seq<Backup>)
    requires DistinctNames(api) && IsSweep(api, p1, s1, r1, m1) && IsSweep(m1, p2, s2, r2, end)
    requires forall b | b in api :: !(OwnedBy(b, p1.config) && OwnedBy(b, p2.config))
    ensures IsSweep(api, p2, s2, r2, m2) && IsSweep(m2, p1, s1, r1, end)
  {
    var n1, n2 := NamesOf(ToDelete(s1, p1)) - r1, NamesOf(ToDelete(s2, p2)) - r2;
    m2 := MarkDeleted(api, n2);
    SortedAreOwned(api, p1.config, s1);
    SweptAreForeign(api, p1, s1, p2.config);
    RelevantUnaffected(api, n1, p2.config);
    SortedAreOwned(api, p2.config, s2);
    SweptAreForeign(api, p2, s2, p1.config);
    RelevantUnaffected(api, n2, p1.config);
    MarkingAdds(api, n1, n2);
    MarkingAdds(api, n2, n1);
    assert n1 + n2 == n2 + n1;
  }

  lemma SortedAreOwned(api: seq<Backup>, config: string, sorted: seq<Backup>)
    requires multiset(sorted) == multiset(Relevant(api, config))
    ensures forall b | b in sorted :: b in api && OwnedBy(b, config)
  {
    RelevantAreListed(api, config);
    RelevantAreOwned(api, config);
    forall b | b in sorted
      ensures b in api && OwnedBy(b, config)
    {
      assert b in multiset(sorted) && b in multiset(Relevant(api, config)) && b in multiset(api);
    }
  }

  // ----- The controller

  class RetentionController {
    var backups: seq<Backup>  // the Backups of the namespace, as the API server holds them

    constructor (backups: seq<Backup>)
      ensures this.backups == backups
    {
      this.backups := backups;
    }

    /** The periodic check: one sweep after the other, for the configs that have a policy, if they can be listed. */
    method RunBackupsRetentionCheck(listing: Option<seq<Policy>>, refused: set<string>)
        returns (ghost tr: seq<seq<Backup>>, ghost ev: seq<Event>)
      requires DistinctNames(backups)
      modifies this
      ensures IsRun(tr, ev) && tr[0] == old(backups) && tr[|ev|] == backups
      ensures listing.None? ==> ev == []
      ensures listing.Some? ==>
                && |ev| == |WithPolicy(listing.value)|
                && forall i | 0 <= i < |ev| :: ev[i].Sweep? && ev[i].policy == WithPolicy(listing.value)[i]
    {
      tr, ev := [backups], [];
      if listing.None? {
        return;
      }
      var policies := listing.value;
      for i := 0 to |policies|
        invariant IsRun(tr, ev) && tr[0] == old(backups) && tr[|ev|] == backups
        invariant |ev| == |WithPolicy(policies[..i])|
        invariant forall j | 0 <= j < |ev| :: ev[j].Sweep? && ev[j].policy == WithPolicy(policies[..i])[j]
      {
        assert policies[..i + 1][..i] == policies[..i];
        if policies[i].threshold.NotSet? {
          continue;
        }
        ghost var sorted := RunRetentionForBackupConfig(policies[i], refused);
        ExtendRun(tr, ev, Sweep(policies[i], sorted, refused), backups);
        tr, ev := tr + [backups], ev + [Sweep(policies[i], sorted, refused)];
      }
      assert policies[..|policies|] == policies;
    }

    /** Retention for one config; `refused` are the names whose delete call fails. */
    method RunRetentionForBackupConfig(p: Policy, refused: set<string>) returns (ghost sorted: seq<Backup>)
      modifies this
      ensures IsSweep(old(backups), p, sorted, refused, backups)
      ensures !p.threshold.NotSet? ==> MayReturn(sorted, Relevant(old(backups), p.config))
      ensures !p.threshold.At? ==> backups == old(backups)
    {
      var relevant := Relevant(backups, p.config);
      var a := new Backup[|relevant|](i requires 0 <= i < |relevant| => relevant[i]);
      assert a[..] == relevant;
      var toDelete := GetBackupsToDelete(a, p);
      sorted := a[..];
      if !p.threshold.At? {
        NothingWithoutPolicy(sorted, p);
        NothingMarked(backups);
        assert NamesOf(ToDelete(sorted, p)) - refused == {};
        return;
      }
      DeleteAll(toDelete.value, refused);
    }

    /** One delete call per selected Backup; a refused call is only logged. */
    method DeleteAll(toDelete: seq<Backup>, refused: set<string>)
      modifies this
      ensures backups == MarkDeleted(old(backups), NamesOf(toDelete) - refused)
    {
      NothingMarked(backups);
      ghost var done: set<string> := {};
      for i := 0 to |toDelete|
        invariant done == NamesOf(toDelete[..i]) - refused
        invariant backups == MarkDeleted(old(backups), done)
      {
        NamesStep(toDelete, i);
        if toDelete[i].name !in refused {
          MarkingAdds(old(backups), done, {toDelete[i].name});
          backups := MarkDeleted(backups, {toDelete[i].name});
          done := done + {toDelete[i].name};
        }
      }
      assert toDelete[..|toDelete|] == toDelete;
    }
  }

  function WithPolicy(policies: seq<Policy>): seq<Policy> {
    if |policies| == 0 then []
    else
      var last := policies[|policies| - 1];
      WithPolicy(policies[..|policies| - 1]) + if !last.threshold.NotSet? then [last] else []
  }

  /** The policies are taken in order, without those that are not set. */
  lemma WithPolicyExactly(policies: seq<Policy>, p: Policy)
    ensures WithPolicy([]) == []
    ensures WithPolicy(policies + [p]) == WithPolicy(policies) + if p.threshold == NotSet then [] else [p]
  {
    assert (policies + [p])[..|policies|] == policies;
  }

  lemma ExtendRun(tr: seq<seq<Backup>>, ev: seq<Event>, e: Event, api': seq<Backup>)
    requires IsRun(tr, ev) && Next(tr[|ev|], e, api')
    ensures IsRun(tr + [api'], ev + [e])
  {
    hide Next;
    forall i | 0 <= i < |ev| + 1
      ensures StepAt(tr + [api'], ev + [e], i)
    {
      assert i < |ev| ==> StepAt(tr, ev, i);
    }
  }

  lemma NamesStep(list: seq<Backup>, i: nat)
    requires i < |list|
    ensures NamesOf(list[..i + 1]) == NamesOf(list[..i]) + {list[i].name}
  {
    assert list[..i + 1] == list[..i] + [list[i]];
  }
}
