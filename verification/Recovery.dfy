/** Which backups are admitted to the storage, and which one a recovery picks from it. */
module Recovery {
  import opened Text
  import opened WalgBackups

  // ----- The admission guard of a new backup

  datatype Admission = Admitted | AnotherSystem | NoChanges | OutdatedReplica

  ghost predicate AllOfSystem(list: seq<BackupMetadata>, systemId: int) {
    forall b | b in list :: b.systemIdentifier == systemId
  }

  ghost predicate AllBelow(list: seq<BackupMetadata>, lsn: nat) {
    forall b | b in list :: b.finishLSN < lsn
  }

  /**
   A backup is admitted exactly when every stored one is of the same database system and finished
   strictly below the current LSN; a foreign system is reported before an equal LSN, an equal LSN
   before a later one.
   */
  method Guard(backupsList: seq<BackupMetadata>, currentLSN: nat, currentSystemID: int) returns (r: Admission)
    ensures r == Admitted <==> AllOfSystem(backupsList, currentSystemID) && AllBelow(backupsList, currentLSN)
    ensures r == Admitted <==>
              forall b | b in backupsList :: b.systemIdentifier == currentSystemID && b.finishLSN < currentLSN
    ensures r == AnotherSystem <==> exists b :: b in backupsList && b.systemIdentifier != currentSystemID
    ensures r == NoChanges <==> (forall b | b in backupsList :: b.systemIdentifier == currentSystemID)
                                && exists b :: b in backupsList && b.finishLSN == currentLSN
  {
    var hasBackupWithCurrentLSN := false;
    var hasBackupWithLaterLSN := false;
    var hasBackupWithAnotherSystemID := false;
    for i := 0 to |backupsList|
      invariant hasBackupWithAnotherSystemID <==> !AllOfSystem(backupsList[..i], currentSystemID)
      invariant hasBackupWithCurrentLSN <==> exists b :: b in backupsList[..i] && b.finishLSN == currentLSN
      invariant hasBackupWithLaterLSN <==> exists b :: b in backupsList[..i] && b.finishLSN > currentLSN
    {
      var b := backupsList[i];
      assert backupsList[..i + 1] == backupsList[..i] + [b];
      if b.systemIdentifier != currentSystemID {
        hasBackupWithAnotherSystemID := true;
      }
      if b.finishLSN == currentLSN {
        hasBackupWithCurrentLSN := true;
      }
      if b.finishLSN > currentLSN {
        hasBackupWithLaterLSN := true;
      }
    }
    assert backupsList[..|backupsList|] == backupsList;
    if hasBackupWithAnotherSystemID {
      return AnotherSystem;
    }
    if hasBackupWithCurrentLSN {
      return NoChanges;
    }
    if hasBackupWithLaterLSN {
      return OutdatedReplica;
    }
    return Admitted;
  }

  // ----- The stored list over time

  /** A push after the guard, one at a time, or the removal of some backups. */
  datatype Event =
    | Push(currentLSN: nat, systemId: int, backup: BackupMetadata)
    | Remove(names: set<string>)

  function Without(list: seq<BackupMetadata>, names: set<string>): (r: seq<BackupMetadata>)
    ensures forall b :: b in r <==> b in list && b.backupName !in names
  {
    if |list| == 0 then []
    else (if list[0].backupName in names then [] else [list[0]]) + Without(list[1..], names)
  }

  /** The pushed backup is of the system the guard read, finishes no earlier than its LSN and is listed last. */
  ghost predicate Next(list: seq<BackupMetadata>, e: Event, list': seq<BackupMetadata>) {
    match e
    case Push(lsn, sys, b) =>
      && AllOfSystem(list, sys) && AllBelow(list, lsn)
      && b.systemIdentifier == sys && b.finishLSN >= lsn
      && list' == list + [b]
    case Remove(names) => list' == Without(list, names)
  }

  ghost predicate StepAt(tr: seq<seq<BackupMetadata>>, ev: seq<Event>, i: nat)
    requires i < |ev| && |tr| == |ev| + 1
  {
    Next(tr[i], ev[i], tr[i + 1])
  }

  ghost predicate IsRun(tr: seq<seq<BackupMetadata>>, ev: seq<Event>) {
    |tr| == |ev| + 1 && tr[0] == [] && forall i | 0 <= i < |ev| :: StepAt(tr, ev, i)
  }

  ghost predicate Increasing(list: seq<BackupMetadata>) {
    forall i, j | 0 <= i < j < |list| :: list[i].finishLSN < list[j].finishLSN
  }

  ghost predicate OneSystem(list: seq<BackupMetadata>) {
    forall a, b | a in list && b in list :: a.systemIdentifier == b.systemIdentifier
  }

  lemma {:induction false} WithoutKeepsOrder(list: seq<BackupMetadata>, names: set<string>)
    requires Increasing(list)
    ensures Increasing(Without(list, names))
    ensures forall b | b in Without(list, names) :: b in list
  {
    if |list| > 0 {
      var rest := Without(list[1..], names);
      WithoutKeepsOrder(list[1..], names);
      forall i | 0 <= i < |rest|
        ensures list[0].finishLSN < rest[i].finishLSN
      {
        assert rest[i] in rest && rest[i] in list[1..];
      }
      assert Without(list, names) == rest || Without(list, names) == [list[0]] + rest;
    }
  }

  /** Every reachable storage list has one system id and strictly increasing finish LSNs. */
  lemma {:induction false} StorageStaysOrdered(tr: seq<seq<BackupMetadata>>, ev: seq<Event>, n: nat)
    requires IsRun(tr, ev) && n <= |ev|
    ensures Increasing(tr[n]) && OneSystem(tr[n])
  {
    if n > 0 {
      StorageStaysOrdered(tr, ev, n - 1);
      assert StepAt(tr, ev, n - 1);
      if ev[n - 1].Remove? {
        WithoutKeepsOrder(tr[n - 1], ev[n - 1].names);
      } else {
        var list := tr[n - 1];
        assert forall i | 0 <= i < |list| :: list[i] in list;
      }
    }
  }

  // ----- Searching a backup to recover from

  datatype Search = Found(backup: BackupMetadata) | Nothing | BadTarget

  /** An unset target, a target that does not parse, or its value. */
  datatype Target = Unset | Unparsable | At(value: int)

  /** `matches` stands for HasMatchingTimeline with the target timeline. */
  datatype RecoveryTarget = RecoveryTarget(backupID: string, time: Target, lsn: Target, matches: BackupMetadata -> bool)

  /** The last list entry that satisfies the predicate. */
  ghost predicate IsLast(list: seq<BackupMetadata>, eligible: BackupMetadata -> bool, r: Search) {
    match r
    case Found(b) =>
      exists i :: 0 <= i < |list| && list[i] == b && eligible(b) && forall j | i < j < |list| :: !eligible(list[j])
    case Nothing => forall b | b in list :: !eligible(b)
    case BadTarget => false
  }

  method FindClosestBackupFromTargetLSN(backups: seq<BackupMetadata>, t: RecoveryTarget) returns (r: Search)
    requires t.lsn != Unset
    ensures t.lsn == Unparsable ==> r == BadTarget
    ensures t.lsn.At? ==> IsLast(backups, (b: BackupMetadata) => t.matches(b) && b.finishLSN < t.lsn.value, r)
  {
    if t.lsn == Unparsable {
      return BadTarget;
    }
    var i := |backups|;
    while i > 0
      invariant 0 <= i <= |backups|
      invariant forall j | i <= j < |backups| :: !(t.matches(backups[j]) && backups[j].finishLSN < t.lsn.value)
    {
      i := i - 1;
      if t.matches(backups[i]) && backups[i].finishLSN < t.lsn.value {
        return Found(backups[i]);
      }
    }
    return Nothing;
  }

  /** Backups whose finish time does not parse are passed over. */
  method FindClosestBackupFromTargetTime(backups: seq<BackupMetadata>, t: RecoveryTarget) returns (r: Search)
    requires t.time != Unset
    ensures t.time == Unparsable ==> r == BadTarget
    ensures t.time.At? ==>
              IsLast(backups, (b: BackupMetadata) =>
                b.finishTime.Some? && t.matches(b) && b.finishTime.value <= t.time.value, r)
  {
    if t.time == Unparsable {
      return BadTarget;
    }
    var i := |backups|;
    while i > 0
      invariant 0 <= i <= |backups|
      invariant forall j | i <= j < |backups| ::
                  !(backups[j].finishTime.Some? && t.matches(backups[j]) && backups[j].finishTime.value <= t.time.value)
    {
      i := i - 1;
      if backups[i].finishTime.None? {
        continue;
      }
      if t.matches(backups[i]) && backups[i].finishTime.value <= t.time.value {
        return Found(backups[i]);
      }
    }
    return Nothing;
  }

  method FindLatestBackupFromTimeline(backups: seq<BackupMetadata>, t: RecoveryTarget) returns (r: Search)
    ensures IsLast(backups, t.matches, r)
  {
    var i := |backups|;
    while i > 0
      invariant 0 <= i <= |backups|
      invariant forall j | i <= j < |backups| :: !t.matches(backups[j])
    {
      i := i - 1;
      if t.matches(backups[i]) {
        return Found(backups[i]);
      }
    }
    return Nothing;
  }

  ghost predicate IsFirstNamed(list: seq<BackupMetadata>, name: string, b: BackupMetadata) {
    exists i :: 0 <= i < |list| && list[i] == b && b.backupName == name
                && forall j | 0 <= j < i :: list[j].backupName != name
  }

  /** An explicit backup id decides; then a target time, then a target LSN, then the latest backup. */
  method FindMostSuitableBackupForRecovery(backups: seq<BackupMetadata>, t: RecoveryTarget) returns (r: Search)
    ensures t.backupID != "" ==>
              match r
              case Found(b) => IsFirstNamed(backups, t.backupID, b)
              case Nothing => t.backupID !in Names(backups)
              case BadTarget => false
    ensures t.backupID == "" && t.time.At? ==>
              IsLast(backups, (b: BackupMetadata) =>
                b.finishTime.Some? && t.matches(b) && b.finishTime.value <= t.time.value, r)
    ensures t.backupID == "" && t.time == Unset && t.lsn.At? ==>
              IsLast(backups, (b: BackupMetadata) => t.matches(b) && b.finishLSN < t.lsn.value, r)
    ensures t.backupID == "" && t.time == Unset && t.lsn == Unset ==> IsLast(backups, t.matches, r)
    ensures r == BadTarget <==> t.backupID == "" && (t.time == Unparsable || (t.time == Unset && t.lsn == Unparsable))
  {
    if t.backupID != "" {
      var b := GetBackupByName(backups, t.backupID);
      return if b.Some? then Found(b.value) else Nothing;
    }
    if t.time != Unset {
      r := FindClosestBackupFromTargetTime(backups, t);
    } else if t.lsn != Unset {
      r := FindClosestBackupFromTargetLSN(backups, t);
    } else {
      r := FindLatestBackupFromTimeline(backups, t);
    }
  }

  /**
   On every reachable storage list the LSN search is optimal: it returns the eligible backup with
   the greatest finish LSN below the target, and nothing only when no backup is eligible.
   */
  lemma RecoveryOptimal(tr: seq<seq<BackupMetadata>>, ev: seq<Event>, n: nat, t: RecoveryTarget, r: Search)
    requires IsRun(tr, ev) && n <= |ev| && t.lsn.At?
    requires IsLast(tr[n], (b: BackupMetadata) => t.matches(b) && b.finishLSN < t.lsn.value, r)
    ensures match r
            case Found(b) =>
              && b in tr[n] && t.matches(b) && b.finishLSN < t.lsn.value
              && forall c | c in tr[n] && c != b && t.matches(c) && c.finishLSN < t.lsn.value ::
                   c.finishLSN < b.finishLSN
            case Nothing => forall c | c in tr[n] :: !(t.matches(c) && c.finishLSN < t.lsn.value)
            case BadTarget => false
  {
    StorageStaysOrdered(tr, ev, n);
  }

  /** Without the guard the same search can miss the closest backup. */
  lemma UnguardedSearchMisses(t: RecoveryTarget, first: BackupMetadata, second: BackupMetadata)
    requires t.lsn == At(100) && t.matches(first) && t.matches(second)
    requires first.finishLSN == 90 && second.finishLSN == 50
    ensures IsLast([first, second], (b: BackupMetadata) => t.matches(b) && b.finishLSN < 100, Found(second))
    ensures first.finishLSN < 100 && first.finishLSN > second.finishLSN
  {
    var list := [first, second];
    assert list[1] == second;
  }
}
