/** The work of one deletion request, done against the API server and the storage. */
module BackupDeletion {
  import opened Text
  import opened Dependency
  import opened DeletionProtocol
  import opened WalgBackups

  /** The parts of the BackupConfig that deleteWALGBackup looks at. */
  datatype Config = Config(storageWritable: Option<bool>, ignoreForBackupDeletion: bool)

  /** How the calls that leave the process turn out. */
  datatype Calls = Calls(
    semaphoreAcquired: bool,
    versionLabelParses: bool,
    secretsFetched: bool,
    unmarkFails: bool,        // wal-g backup-mark -i
    target: DeleteOutcome,    // wal-g delete target
    left: set<string>,        // and the storage it leaves
    garbageFails: bool,       // wal-g delete garbage
    updateAccepted: bool)     // the API server's answer to the finalizer update

  /** wal-g reports success only after a full deletion, and "does not exist" only for a missing backup. */
  ghost predicate WalgContract(storage: set<string>, id: string, calls: Calls) {
    match calls.target
    case Deleted => id in storage && calls.left == AfterDelete(storage, id)
    case DoesNotExist => id !in storage && calls.left == storage
    case Failed => storage - BuiltOn(storage, id) <= calls.left <= storage
  }

  class Plane {
    var backups: map<Name, Backup>
    var storage: set<string>

    /**
     The finalizer goes exactly when the Backup is ready, the update is accepted and there is no physical backup, or
     it was deleted or is missing, or it is to be kept or cannot be written. Storage becomes what wal-g left exactly
     when wal-g was called. The request succeeds exactly when its Backup was found and is not ready yet or has lost
     its finalizer; no other Backup changes.
     */
    method DeleteWALGBackup(key: Name, config: Config, calls: Calls) returns (ok: bool)
      requires key in backups ==> WalgContract(storage, backups[key].id, calls)
      modifies this
      ensures ok <==> calls.semaphoreAcquired && key in old(backups)
                      && (!IsReady(old(backups), key) || backups != old(backups))
      ensures backups != old(backups) <==>
                && calls.semaphoreAcquired && calls.updateAccepted && key in old(backups)
                && old(backups)[key].annotated && old(backups)[key].dependents == {} && old(backups)[key].finalizer
                && (old(backups)[key].id == ""
                    || (calls.versionLabelParses
                        && (config.storageWritable == Some(false)
                            || (calls.secretsFetched && (config.ignoreForBackupDeletion || calls.target != Failed)))))
      ensures backups != old(backups) ==>
                if old(backups)[key].deleting then key !in backups
                else key in backups && backups[key] == old(backups)[key].(finalizer := false)
      ensures backups - {key} == old(backups) - {key}
      ensures storage ==
                if key in old(backups) && calls.semaphoreAcquired && calls.versionLabelParses && calls.secretsFetched
                   && old(backups)[key].annotated && old(backups)[key].dependents == {} && old(backups)[key].finalizer
                   && old(backups)[key].id != ""
                   && config.storageWritable != Some(false) && !config.ignoreForBackupDeletion
                then calls.left else old(storage)
      ensures backups != old(backups) && storage != old(storage) ==> old(backups)[key].id !in storage
      ensures (backups, storage) == Outcome(old(backups), old(storage), key, config, calls)
    {
      ok := false;
      if !calls.semaphoreAcquired || key !in backups {
        return;
      }
      var backup := backups[key];
      if !backup.annotated || backup.dependents != {} || !backup.finalizer {
        return true;
      }
      if backup.id == "" {
        ok := RemoveBackupFinalizer(key, calls.updateAccepted);
        return;
      }
      if !calls.versionLabelParses {
        return;
      }
      if config.storageWritable == Some(false) {
        ok := RemoveBackupFinalizer(key, calls.updateAccepted);
        return;
      }
      if !calls.secretsFetched {
        return;
      }
      if config.ignoreForBackupDeletion {
        ok := RemoveBackupFinalizer(key, calls.updateAccepted);
        return;
      }
      storage := calls.left;
      var deleted, _, _ := DeleteBackup(backup.id, calls.unmarkFails, calls.target, calls.garbageFails);
      if !deleted {
        return;
      }
      ok := RemoveBackupFinalizer(key, calls.updateAccepted);
    }

    /** Nothing is sent for a Backup that does not carry the finalizer. */
    method RemoveBackupFinalizer(key: Name, updateAccepted: bool) returns (ok: bool)
      requires key in backups
      modifies this`backups
      ensures ok <==> updateAccepted || !old(backups)[key].finalizer
      ensures backups == if ok && old(backups)[key].finalizer then WithoutFinalizer(old(backups), key) else old(backups)
      ensures ok && old(backups)[key].deleting && old(backups)[key].finalizer ==> key !in backups
      ensures !(ok && old(backups)[key].deleting && old(backups)[key].finalizer) ==>
                key in backups && backups[key] == old(backups)[key].(finalizer := old(backups)[key].finalizer && !ok)
      ensures backups - {key} == old(backups) - {key}
    {
      if !backups[key].finalizer {
        return true;
      }
      ok := updateAccepted;
      if updateAccepted {
        backups := WithoutFinalizer(backups, key);
      }
    }
  }

  predicate IsReady(backups: map<Name, Backup>, key: Name) {
    key in backups && backups[key].annotated && backups[key].dependents == {} && backups[key].finalizer
  }

  function Outcome(backups: map<Name, Backup>, storage: set<string>, key: Name, config: Config, calls: Calls)
    : (map<Name, Backup>, set<string>)
  {
    if !calls.semaphoreAcquired || !IsReady(backups, key) then (backups, storage)
    else
      var updated := if calls.updateAccepted then WithoutFinalizer(backups, key) else backups;
      var id := backups[key].id;
      if id == "" then (updated, storage)
      else if !calls.versionLabelParses then (backups, storage)
      else if config.storageWritable == Some(false) then (updated, storage)
      else if !calls.secretsFetched then (backups, storage)
      else if config.ignoreForBackupDeletion then (updated, storage)
      else if calls.target == Failed then (backups, calls.left)
      else (updated, calls.left)
  }

  // ----- The same request as a sequence of protocol steps

  /** A state reached from another by a list of protocol events. */
  ghost predicate Steps(s: State, events: seq<Event>, s': State)
    decreases |events|
  {
    if |events| == 0 then s == s'
    else exists m :: Next(s, events[0], m) && Steps(m, events[1..], s')
  }

  lemma OneStep(s: State, e: Event, s': State)
    requires Next(s, e, s')
    ensures Steps(s, [e], s')
  {
    hide Next;
    assert Steps(s', [e][1..], s');
  }

  lemma {:induction false} StepsJoin(s: State, a: seq<Event>, m: State, b: seq<Event>, t: State)
    requires Steps(s, a, m) && Steps(m, b, t)
    ensures Steps(s, a + b, t)
    decreases |a|
  {
    hide Next;
    if |a| == 0 {
      assert a + b == b;
    } else {
      var k :| Next(s, a[0], k) && Steps(k, a[1..], m);
      StepsJoin(k, a[1..], m, b, t);
      assert (a + b)[1..] == a[1..] + b;
    }
  }

  /** Steps of the environment and the reconciler, not of the queue processor. */
  predicate ByOthers(events: seq<Event>) {
    forall e | e in events :: !e.Dequeue? && !e.Wipe? && !e.WipePartly? && !e.SkipStorage? && !e.RemoveFinalizer?
        && !e.GiveUp?
  }

  lemma {:induction false} OthersKeepWorker(s: State, events: seq<Event>, t: State)
    requires Steps(s, events, t) && ByOthers(events)
    ensures t.worker == s.worker
    decreases |events|
  {
    hide DependsOn, IsDirectDependent;
    if |events| > 0 {
      var m :| Next(s, events[0], m) && Steps(m, events[1..], t);
      assert events[0] in events;
      OthersKeepWorker(m, events[1..], t);
    }
  }

  /** What the processor does with a ready Backup: nothing, take the finalizer off, or clean the storage first. */
  datatype Plan = Drop | Release | Cleanup

  function PlanFor(id: string, config: Config, calls: Calls): Plan {
    if !calls.semaphoreAcquired then Drop
    else if id == "" then Release
    else if !calls.versionLabelParses then Drop
    else if config.storageWritable == Some(false) then Release
    else if !calls.secretsFetched then Drop
    else if config.ignoreForBackupDeletion then Release
    else Cleanup
  }

  /** After the processor has taken its next request and read the Backup. */
  function AfterRead(s: State): State
    requires |s.queue| > 0
  {
    var n := s.queue[0];
    s.(queue := s.queue[1..], worker := if IsReady(s.api, n) then Cleared(n, s.api[n].id) else Idle)
  }

  /** After wal-g has returned, or was not called. */
  function AfterWalg(s: State, config: Config, calls: Calls): State {
    if s.worker.Cleared? && PlanFor(s.worker.id, config, calls).Cleanup?
    then s.(storage := calls.left,
            worker := if calls.target == Failed then Idle else Wiped(s.worker.name, s.worker.id))
    else s
  }

  predicate WantsUpdate(s: State, config: Config, calls: Calls) {
    s.worker.Wiped? || (s.worker.Cleared? && PlanFor(s.worker.id, config, calls).Release?)
  }

  /** After the update of the finalizer, or without one. */
  function AfterUpdate(s: State, config: Config, calls: Calls): State
    requires UpdateAllowed(s, config, calls)
  {
    s.(worker := Idle, api := if calls.updateAccepted && WantsUpdate(s, config, calls)
                              then WithoutFinalizer(s.api, s.worker.name) else s.api)
  }

  /** The API server takes the update only if the Backup is there and was not completed since it was read. */
  predicate UpdateAllowed(s: State, config: Config, calls: Calls) {
    calls.updateAccepted && WantsUpdate(s, config, calls) ==>
      s.worker.name in s.api && s.api[s.worker.name].id == s.worker.id
  }

  lemma ReadRefines(s: State)
    requires s.worker == Idle && |s.queue| > 0
    ensures Steps(s, [Dequeue], AfterRead(s))
  {
    hide DependsOn, IsDirectDependent;
    OneStep(s, Dequeue, AfterRead(s));
  }

  lemma WalgRefines(s: State, config: Config, calls: Calls) returns (events: seq<Event>)
    requires s.worker.Cleared? ==> WalgContract(s.storage, s.worker.id, calls)
    requires !s.worker.Wiped?
    ensures Steps(s, events, AfterWalg(s, config, calls)) && SkipStorage !in events
  {
    hide DependsOn, IsDirectDependent, BuiltOn;
    events := [];
    if AfterWalg(s, config, calls) != s {
      events := [if calls.target == Failed then WipePartly(calls.left) else Wipe];
      OneStep(s, events[0], AfterWalg(s, config, calls));
    }
  }

  lemma UpdateRefines(s: State, config: Config, calls: Calls) returns (events: seq<Event>)
    requires UpdateAllowed(s, config, calls) && !config.ignoreForBackupDeletion
    requires s.worker.Wiped? ==> s.worker.id != ""
    ensures Steps(s, events, AfterUpdate(s, config, calls))
    ensures SkipStorage in events ==> config.storageWritable == Some(false)
  {
    hide DependsOn, IsDirectDependent, WithoutFinalizer;
    var e := if !calls.updateAccepted || !WantsUpdate(s, config, calls) then GiveUp
             else if s.worker.Wiped? || s.worker.id == "" then RemoveFinalizer
             else SkipStorage;
    OneStep(s, e, AfterUpdate(s, config, calls));
    events := [e];
  }

  /**
   Processing the head request is a sequence of protocol steps, whatever the calls answer and whatever others
   do between reading the Backup, calling wal-g and updating the finalizer; and it skips the storage only for an
   unwritable one. So the protocol's results hold of the code's own control flow.
   */
  lemma RefinesInterleaved(s: State, config: Config, calls: Calls, between1: seq<Event>, m1: State,
                           between2: seq<Event>, m2: State) returns (events: seq<Event>)
    requires s.worker == Idle && |s.queue| > 0 && !config.ignoreForBackupDeletion
    requires ByOthers(between1) && Steps(AfterRead(s), between1, m1)
    requires m1.worker.Cleared? ==> WalgContract(m1.storage, m1.worker.id, calls)
    requires ByOthers(between2) && Steps(AfterWalg(m1, config, calls), between2, m2)
    requires UpdateAllowed(m2, config, calls)
    ensures Steps(s, events, AfterUpdate(m2, config, calls))
    ensures SkipStorage in events ==> config.storageWritable == Some(false)
  {
    hide DependsOn, IsDirectDependent, Next, WalgContract, Steps, UpdateAllowed;
    OthersKeepWorker(AfterRead(s), between1, m1);
    OthersKeepWorker(AfterWalg(m1, config, calls), between2, m2);
    ReadRefines(s);
    var walg := WalgRefines(m1, config, calls);
    var update := UpdateRefines(m2, config, calls);
    StepsJoin(s, [Dequeue], AfterRead(s), between1, m1);
    StepsJoin(s, [Dequeue] + between1, m1, walg, AfterWalg(m1, config, calls));
    StepsJoin(s, [Dequeue] + between1 + walg, AfterWalg(m1, config, calls), between2, m2);
    StepsJoin(s, [Dequeue] + between1 + walg + between2, m2, update, AfterUpdate(m2, config, calls));
    events := [Dequeue] + between1 + walg + between2 + update;
  }

  /** Without others in between, these steps end where the method does. */
  lemma RefinesProtocol(s: State, config: Config, calls: Calls) returns (events: seq<Event>, s': State)
    requires s.worker == Idle && |s.queue| > 0 && !config.ignoreForBackupDeletion
    requires s.queue[0] in s.api ==> WalgContract(s.storage, s.api[s.queue[0]].id, calls)
    ensures Steps(s, events, s')
    ensures (s'.api, s'.storage) == Outcome(s.api, s.storage, s.queue[0], config, calls)
    ensures s' == s.(api := s'.api, storage := s'.storage, queue := s.queue[1..])
    ensures SkipStorage in events ==> config.storageWritable == Some(false)
  {
    hide DependsOn, IsDirectDependent, Next, WalgContract, WithoutFinalizer;
    var m1 := AfterRead(s);
    var m2 := AfterWalg(m1, config, calls);
    events := RefinesInterleaved(s, config, calls, [], m1, [], m2);
    s' := AfterUpdate(m2, config, calls);
  }

  // ----- Requests to delete a whole BackupConfig

  const MIN_PG := 11
  const MAX_PG := 19

  datatype ConfigObject = ConfigObject(storageWritable: Option<bool>, ignoreForConfigDeletion: bool, finalizer: bool)

  /** The cleanup is not left out by the user or for an unwritable storage. */
  predicate WantsCleanup(c: ConfigObject) {
    !c.ignoreForConfigDeletion && c.storageWritable != Some(false)
  }

  class ConfigPlane {
    var config: Option<ConfigObject>
    var archives: set<int>  // PostgreSQL versions that still have something in storage

    /**
     Succeeds exactly when the cleanup, if wanted, got the secrets and cleaned every version, and the finalizer, if
     there, could be taken off; the finalizer goes exactly then. So it only goes once no known version has anything
     left in storage. The versions before the first failure are cleaned in any case.
     */
    method DeleteBackupConfig(secretsFetched: bool, cleaned: seq<bool>, updateAccepted: bool) returns (ok: bool)
      requires |cleaned| == MAX_PG - MIN_PG + 1
      modifies this
      ensures old(config).None? ==> ok && config.None? && archives == old(archives)
      ensures old(config).Some? ==>
                config.Some? && config.value.(finalizer := old(config).value.finalizer) == old(config).value
      ensures old(config).Some? ==>
                (ok <==> && (old(config).value.ignoreForConfigDeletion
                             || old(config).value.storageWritable == Some(false)
                             || (secretsFetched && forall i | 0 <= i < |cleaned| :: cleaned[i]))
                         && (old(config).value.finalizer ==> updateAccepted))
      ensures old(config).Some? ==> config.value.finalizer == (old(config).value.finalizer && !ok)
      ensures (old(config).Some? && ok && !old(config).value.ignoreForConfigDeletion
               && old(config).value.storageWritable != Some(false)) ==>
                forall v | 11 <= v <= 19 :: v !in archives
      ensures archives <= old(archives)
      ensures forall v | v in old(archives) :: v !in archives <==>
                && old(config).Some? && secretsFetched && 11 <= v <= 19
                && !old(config).value.ignoreForConfigDeletion && old(config).value.storageWritable != Some(false)
                && forall i | 0 <= i <= v - 11 :: cleaned[i]
    {
      if config.None? {
        return true;
      }
      if WantsCleanup(config.value) {
        if !secretsFetched {
          return false;
        }
        for v := MIN_PG to MAX_PG + 1
          invariant config == old(config) && archives <= old(archives)
          invariant forall i | 0 <= i < v - MIN_PG :: cleaned[i]
          invariant forall x :: x in archives <==> x in old(archives) && !(MIN_PG <= x < v)
        {
          if !cleaned[v - MIN_PG] {
            return false;
          }
          archives := archives - {v};
        }
      }
      if config.value.finalizer {
        if !updateAccepted {
          return false;
        }
        config := Some(config.value.(finalizer := false));
      }
      return true;
    }
  }
}
