/** When archive scans run and what becomes of their results, over whole runs of the archive-check cache. */
module ArchiveSchedule {
  import opened Text
  import opened Conditions
  import opened ArchiveStatus

  // ----- Throttling

  /** Scan j begins at least `interval` after scan j - 1 ended, if both were made under the same fingerprint. */
  ghost predicate SpacedAt(interval: nat, scans: seq<Scan>, j: nat)
    requires 1 <= j < |scans|
  {
    scans[j].fp == scans[j - 1].fp ==> scans[j].start >= scans[j - 1].end + interval
  }

  ghost predicate Spaced(interval: nat, scans: seq<Scan>) {
    forall j | 1 <= j < |scans| :: SpacedAt(interval, scans, j)
  }

  /** The uid the reconcile in flight works with. */
  function PcUid(pc: Pc): Option<nat> {
    match pc
    case Idle => None
    case Read(o) => Some(o.uid)
    case Resolved(o, _) => Some(o.uid)
    case Writing(o, _, _, _) => Some(o.uid)
    case Checking(o, _) => Some(o.uid)
    case Scanning(o, _, _) => Some(o.uid)
    case Saving(o, _, _) => Some(o.uid)
    case Saved(o, _, _) => Some(o.uid)
  }

  /** The fingerprint a reconcile has computed carries the uid of the object it read. */
  ghost predicate PcFingerprint(pc: Pc) {
    match pc
    case Resolved(o, fp) => fp.uid == o.uid
    case Writing(o, fp, _, _) => fp.uid == o.uid
    case Checking(o, fp) => fp.uid == o.uid
    case Scanning(o, fp, _) => fp.uid == o.uid
    case _ => true
  }

  ghost predicate UidsOk(s: State) {
    && (s.obj.Some? ==> s.obj.value.uid in s.uids)
    && (PcUid(s.pc).Some? ==> PcUid(s.pc).value in s.uids)
    && (forall i | 0 <= i < |s.scans| :: s.scans[i].fp.uid in s.uids)
    && PcFingerprint(s.pc)
  }

  /** No reconcile can come up with this uid again. */
  ghost predicate Retired(s: State, uid: nat) {
    (s.obj.Some? ==> s.obj.value.uid != uid) && PcUid(s.pc) != Some(uid)
  }

  /** The last scan is either remembered by the entry, or its resource is gone for good. */
  ghost predicate Remembered(interval: nat, s: State, entry: Option<Entry>) {
    |s.scans| > 0 ==>
      var last := s.scans[|s.scans| - 1];
      (entry.Some? && entry.value.fp == last.fp && entry.value.nextCheck >= last.end + interval)
      || Retired(s, last.fp.uid)
  }

  ghost predicate Throttled(interval: nat, s: State) {
    && UidsOk(s) && Spaced(interval, s.scans)
    && match s.pc
       case Scanning(_, fp, start) =>
         start <= s.now
         && (|s.scans| > 0 && s.scans[|s.scans| - 1].fp == fp ==> start >= s.scans[|s.scans| - 1].end + interval)
       case Saving(_, job, _) => JobThrottled(interval, s, job)
       case Saved(_, job, _) => JobThrottled(interval, s, job)
       case _ => Remembered(interval, s, s.entry)
  }

  ghost predicate JobThrottled(interval: nat, s: State, job: Job) {
    match job
    case Fresh(fp, n) => |s.scans| > 0 && s.scans[|s.scans| - 1].fp == fp && s.scans[|s.scans| - 1].end <= s.now
    case Retry(entry) => Remembered(interval, s, s.entry) && s.entry == Some(entry)
  }

  /** The controller is not restarted, and the entry is not pruned while a reconcile of the key is in flight. */
  predicate KeepsEntries(s: State, e: Event) {
    !e.Restart? && (e.Prune? ==> s.pc == Idle || s.obj.Some?)
  }

  lemma ThrottledEnvironment(interval: nat, s: State, e: Event, s': State)
    requires Throttled(interval, s) && Next(interval, s, e, s') && KeepsEntries(s, e) && ByEnvironment(e)
    ensures Throttled(interval, s')
  {
    hide Spaced;
  }

  lemma ThrottledBeforeScan(interval: nat, s: State, e: Event, s': State)
    requires Throttled(interval, s) && Versioned(s) && Next(interval, s, e, s') && BeforeScan(e)
    ensures Throttled(interval, s')
  {
    hide Spaced, Availability, CredentialsFailed, PhaseOk;
  }

  lemma ThrottledSaving(interval: nat, s: State, e: Event, s': State)
    requires Throttled(interval, s) && Next(interval, s, e, s')
    requires e.GetLatest? || e.Commit? || e.Conflict? || e.GiveUp? || e.Finish?
    ensures Throttled(interval, s')
  {
    hide Spaced, Merge;
  }

  lemma ThrottledEndScan(interval: nat, s: State, e: Event, s': State)
    requires Throttled(interval, s) && Next(interval, s, e, s') && e.EndScan?
    ensures Throttled(interval, s')
  {
    hide AfterScan;
    forall j | 1 <= j < |s'.scans|
      ensures SpacedAt(interval, s'.scans, j)
    {
      assert j < |s.scans| ==> SpacedAt(interval, s.scans, j);
    }
  }

  lemma ThrottledKept(interval: nat, s: State, e: Event, s': State)
    requires Throttled(interval, s) && Versioned(s) && Next(interval, s, e, s') && KeepsEntries(s, e)
    ensures Throttled(interval, s')
  {
    hide Throttled, Next, Versioned;
    if ByEnvironment(e) {
      ThrottledEnvironment(interval, s, e, s');
    } else if BeforeScan(e) {
      ThrottledBeforeScan(interval, s, e, s');
    } else if e.EndScan? {
      ThrottledEndScan(interval, s, e, s');
    } else {
      ThrottledSaving(interval, s, e, s');
    }
  }

  /**
   Two consecutive scans under equal fingerprints are at least the archive interval apart, measured
   from the end of the first, whether it was saved, failed to be saved, or was cancelled.
   */
  lemma {:induction false} ScansThrottled(interval: nat, tr: seq<State>, ev: seq<Event>, n: nat)
    requires IsRun(interval, tr, ev) && n <= |ev|
    requires forall i | 0 <= i < |ev| :: KeepsEntries(tr[i], ev[i])
    ensures Spaced(interval, tr[n].scans)
    ensures Throttled(interval, tr[n])
  {
    if n > 0 {
      ScansThrottled(interval, tr, ev, n - 1);
      VersionedOverRuns(interval, tr, ev, n - 1);
      assert StepAt(interval, tr, ev, n - 1);
      ThrottledKept(interval, tr[n - 1], ev[n - 1], tr[n]);
    }
  }

  /**
   Pruning in between breaks it: when the resource is deleted after availability was stored and the
   entry is pruned before the archive check looks at it, the archive is scanned again at once.
   */
  lemma PruneInFlightRescans(interval: nat, s: State, s1: State, s2: State, s3: State, at: int)
    requires s.pc.Checking? && s.obj.None? && Matches(s.entry, s.pc.fp) && s.now < s.entry.value.nextCheck
    requires |s.scans| > 0 && s.scans[|s.scans| - 1].fp == s.pc.fp && s.now < s.scans[|s.scans| - 1].end + interval
    requires Next(interval, s, Prune, s1) && Next(interval, s1, StartArchive, s2)
        && Next(interval, s2, EndScan(None, at), s3)
    ensures !KeepsEntries(s, Prune) && !Spaced(interval, s3.scans)
  {
    assert !SpacedAt(interval, s3.scans, |s.scans|);
  }

  /** The entry is of the last scan, with its fingerprint and a next check no sooner than allowed. */
  ghost predicate OfLastScan(interval: nat, scans: seq<Scan>, e: Entry) {
    && |scans| == e.scan + 1 && e.fp == scans[|scans| - 1].fp
    && e.nextCheck >= scans[|scans| - 1].end + interval
  }

  /** An entry, where there is one, is about the last scan, except while that scan's result is being saved. */
  ghost predicate EntryCurrent(interval: nat, s: State) {
    match s.pc
    case Saving(_, job, _) => JobCurrent(interval, s, job)
    case Saved(_, job, _) => JobCurrent(interval, s, job)
    case _ => s.entry.Some? ==> OfLastScan(interval, s.scans, s.entry.value)
  }

  ghost predicate JobCurrent(interval: nat, s: State, job: Job) {
    match job
    case Fresh(fp, n) => |s.scans| == n + 1 && s.scans[n].fp == fp && s.scans[n].end <= s.now
    case Retry(e) =>
      OfLastScan(interval, s.scans, e) && (s.entry.Some? ==> OfLastScan(interval, s.scans, s.entry.value))
  }

  lemma EntryCurrentKept(interval: nat, s: State, e: Event, s': State)
    requires EntryCurrent(interval, s) && Next(interval, s, e, s')
    ensures EntryCurrent(interval, s')
  {
    hide Availability, CredentialsFailed, AfterScan, Merge;
  }

  lemma {:induction false} EntryCurrentOverRuns(interval: nat, tr: seq<State>, ev: seq<Event>, n: nat)
    requires IsRun(interval, tr, ev) && n <= |ev|
    ensures EntryCurrent(interval, tr[n])
  {
    if n > 0 {
      EntryCurrentOverRuns(interval, tr, ev, n - 1);
      assert StepAt(interval, tr, ev, n - 1);
      EntryCurrentKept(interval, tr[n - 1], ev[n - 1], tr[n]);
    }
  }

  /** Only the result of the last scan is ever written: an older one that was kept pending never replaces it. */
  lemma LastScanCommitted(interval: nat, tr: seq<State>, ev: seq<Event>, n: nat)
    requires IsRun(interval, tr, ev) && n < |ev| && ev[n].Commit?
    ensures tr[n].pc.Saving? && ScanOf(tr[n].pc.job) + 1 == |tr[n].scans|
  {
    EntryCurrentOverRuns(interval, tr, ev, n);
    assert StepAt(interval, tr, ev, n);
  }

  /**
   Exactly when throttling fails, in any run: an archive check that comes too early after the last scan
   under the same fingerprint scans again if and only if it finds no entry, the entry having been
   pruned or lost in a restart.
   */
  lemma EarlyScanExact(interval: nat, tr: seq<State>, ev: seq<Event>, n: nat)
    requires IsRun(interval, tr, ev) && n < |ev| && ev[n].StartArchive?
    requires |tr[n].scans| > 0 && tr[n].pc.Checking?
    requires var last := tr[n].scans[|tr[n].scans| - 1];
             last.fp == tr[n].pc.fp && tr[n].now < last.end + interval
    ensures tr[n + 1].pc.Scanning? <==> tr[n].entry.None?
  {
    EntryCurrentOverRuns(interval, tr, ev, n);
    assert StepAt(interval, tr, ev, n);
  }

  // ----- Pending results

  ghost predicate PendingExact(s: State, e: Entry) {
    && e.scan < |s.scans|
    && (e.pending.Some? <==> s.scans[e.scan].verdict.Some? && e.scan !in s.reported)
  }

  /** The job's entry is about to lose its pending status because the save was reported. */
  predicate ClearsPending(pc: Pc) {
    pc.Saved? && pc.job.Retry? && pc.reported
  }

  ghost predicate JobUnsaved(s: State, job: Job, saving: bool, reported: bool) {
    match job
    case Fresh(_, n) =>
      && n == |s.scans| - 1 && (s.entry.Some? ==> s.entry.value.scan < n)
      && (saving ==> s.scans[n].verdict.Some?)
      && (n in s.reported <==> !saving && reported)
    case Retry(e) =>
      && e.scan < |s.scans| && s.scans[e.scan].verdict.Some? && e.pending.Some?
      && (e.scan in s.reported <==> !saving && reported)
      && (s.entry.Some? ==> s.entry.value == e)
  }

  ghost predicate Conserved(s: State) {
    && (forall n | n in s.reported :: n < |s.scans|)
    && (forall n: nat :: s.landed[n] == s.late[n] + if n in s.reported then 1 else 0)
    && (s.entry.Some? && !ClearsPending(s.pc) ==> PendingExact(s, s.entry.value))
    && match s.pc
       case Saving(_, job, _) => JobUnsaved(s, job, true, false)
       case Saved(_, job, reported) => JobUnsaved(s, job, false, reported)
       case _ => true
  }

  lemma ConservedEnvironment(interval: nat, s: State, e: Event, s': State)
    requires Conserved(s) && Next(interval, s, e, s') && ByEnvironment(e)
    ensures Conserved(s')
  {
  }

  lemma ConservedBeforeScan(interval: nat, s: State, e: Event, s': State)
    requires Conserved(s) && Next(interval, s, e, s') && BeforeScan(e)
    ensures Conserved(s')
  {
    hide Availability, CredentialsFailed;
  }

  lemma ConservedEndScan(interval: nat, s: State, e: Event, s': State)
    requires Conserved(s) && Next(interval, s, e, s') && e.EndScan?
    ensures Conserved(s')
  {
    hide AfterScan;
  }

  lemma ConservedSaving(interval: nat, s: State, e: Event, s': State)
    requires Conserved(s) && Next(interval, s, e, s')
    requires e.GetLatest? || e.Commit? || e.Conflict? || e.GiveUp? || e.Finish?
    ensures Conserved(s')
  {
    hide Merge;
  }

  lemma ConservedKept(interval: nat, s: State, e: Event, s': State)
    requires Conserved(s) && Next(interval, s, e, s')
    ensures Conserved(s')
  {
    hide Conserved, Next;
    if ByEnvironment(e) {
      ConservedEnvironment(interval, s, e, s');
    } else if BeforeScan(e) {
      ConservedBeforeScan(interval, s, e, s');
    } else if e.EndScan? {
      ConservedEndScan(interval, s, e, s');
    } else {
      ConservedSaving(interval, s, e, s');
    }
  }

  /**
   Pending results over whole runs. A result is pending exactly when its scan completed and no save
   of it was reported as successful. And a result reaches the API server once if its save was
   reported, plus once for every write that landed but was reported as cancelled: it is saved more
   than once exactly when such late cancellations occurred.
   */
  lemma {:induction false} PendingConserved(interval: nat, tr: seq<State>, ev: seq<Event>, n: nat, scan: nat)
    requires IsRun(interval, tr, ev) && n <= |ev|
    ensures tr[n].entry.Some? && !ClearsPending(tr[n].pc) ==> PendingExact(tr[n], tr[n].entry.value)
    ensures tr[n].landed[scan] == tr[n].late[scan] + if scan in tr[n].reported then 1 else 0
    ensures Conserved(tr[n])
  {
    if n > 0 {
      PendingConserved(interval, tr, ev, n - 1, scan);
      assert StepAt(interval, tr, ev, n - 1);
      ConservedKept(interval, tr[n - 1], ev[n - 1], tr[n]);
    }
  }

  /**
   A pending result is never lost: it goes away only when its save was reported, a newer scan has
   finished, or the entry is dropped. Until the next check is due it is saved without a new scan.
   */
  lemma PendingNotLost(interval: nat, s: State, e: Event, s': State)
    requires Conserved(s) && Next(interval, s, e, s') && s.entry.Some? && s.entry.value.pending.Some?
    ensures s'.entry == s.entry || e.Prune? || e.Restart?
            || (e.Finish? && s.pc.job.Fresh? && s.pc.job.scan > s.entry.value.scan)
            || (e.Finish? && s.pc.job == Retry(s.entry.value) && s.entry.value.scan in s.reported)
    ensures e.StartArchive? && s.entry.value.fp == s.pc.fp && s.now < s.entry.value.nextCheck ==>
              s'.pc.Saving? && s'.pc.job == Retry(s.entry.value) && s'.pc.mem.status == s.entry.value.pending.value
  {
    hide Availability, CredentialsFailed, AfterScan, Merge;
  }

  lemma ResultsAccumulate(interval: nat, s: State, e: Event, s': State)
    requires Next(interval, s, e, s')
    ensures s.reported <= s'.reported && s.scans <= s'.scans
  {
    hide Availability, CredentialsFailed, AfterScan, Merge;
  }

  /**
   The same over any stretch of a run without a restart or a prune that drops the entry: a pending
   result stays as it is until its save was reported or a newer scan has finished.
   */
  lemma {:induction false} PendingSurvives(interval: nat, tr: seq<State>, ev: seq<Event>, n: nat, m: nat)
    requires IsRun(interval, tr, ev) && n <= m <= |ev|
    requires tr[n].entry.Some? && tr[n].entry.value.pending.Some?
    requires forall i | n <= i < m :: !ev[i].Restart? && (ev[i].Prune? ==> tr[i].obj.Some?)
    ensures tr[m].entry == tr[n].entry || tr[n].entry.value.scan in tr[m].reported
            || tr[n].entry.value.scan < |tr[m].scans| - 1
    decreases m - n
  {
    hide Conserved;
    if n < m {
      var s, e, s' := tr[m - 1], ev[m - 1], tr[m];
      PendingSurvives(interval, tr, ev, n, m - 1);
      PendingConserved(interval, tr, ev, m - 1, 0);
      assert StepAt(interval, tr, ev, m - 1);
      ResultsAccumulate(interval, s, e, s');
      if s.entry == tr[n].entry {
        SurvivesStep(interval, s, e, s');
      }
    }
  }

  lemma SurvivesStep(interval: nat, s: State, e: Event, s': State)
    requires Conserved(s) && Next(interval, s, e, s') && s.entry.Some? && s.entry.value.pending.Some?
    requires !e.Restart? && (e.Prune? ==> s.obj.Some?)
    ensures s'.entry == s.entry || s.entry.value.scan in s'.reported || s.entry.value.scan < |s'.scans| - 1
  {
    hide Availability, CredentialsFailed, AfterScan, Merge;
    PendingNotLost(interval, s, e, s');
  }

  /** After a late cancellation the result is kept pending although it is stored, so it will be written again. */
  lemma LateCancelKeepsPending(interval: nat, s: State, s1: State, s2: State)
    requires Conserved(s) && Next(interval, s, Commit(true), s1) && Next(interval, s1, Finish, s2) && s.pc.job.Fresh?
    ensures s2.entry.Some? && s2.entry.value.pending.Some? && s2.landed[s2.entry.value.scan] > 0
  {
    hide Merge;
  }

  // ----- Runs that show it

  ghost predicate Reachable(interval: nat, s: State) {
    exists tr, ev :: IsRun(interval, tr, ev) && tr[|ev|] == s
  }

  lemma ReachableStart(interval: nat)
    ensures Reachable(interval, INIT)
  {
    var none: seq<Event> := [];
    assert IsRun(interval, [INIT], none) && [INIT][|none|] == INIT;
  }

  lemma ReachableStep(interval: nat, s: State, e: Event, s': State)
    requires Reachable(interval, s) && Next(interval, s, e, s')
    ensures Reachable(interval, s')
  {
    hide Next;
    var tr, ev :| IsRun(interval, tr, ev) && tr[|ev|] == s;
    var tr', ev' := tr + [s'], ev + [e];
    forall i | 0 <= i < |ev'|
      ensures StepAt(interval, tr', ev', i)
    {
      assert i < |ev| ==> StepAt(interval, tr, ev, i);
    }
    assert IsRun(interval, tr', ev') && tr'[|ev'|] == s';
  }

  function FingerprintOf(s: State): Fingerprint
    requires s.obj.Some?
  {
    Fingerprint(s.obj.value.uid, s.obj.value.generation, s.hash)
  }

  /** A reconcile that nobody disturbs reaches the archive check. */
  lemma Recheck(interval: nat, s: State) returns (t: State)
    requires Reachable(interval, s) && s.pc == Idle && s.obj.Some?
    ensures Reachable(interval, t) && t.obj.Some? && t.obj.value.uid == s.obj.value.uid
    ensures t.obj.value.generation == s.obj.value.generation
    ensures t == s.(obj := t.obj, version := s.version + 1, pc := Checking(t.obj.value, FingerprintOf(s)))
  {
    hide Reachable, Availability;
    var o, fp := s.obj.value, FingerprintOf(s);
    var s1 := s.(pc := Read(o));
    ReachableStep(interval, s, Begin, s1);
    var s2 := s1.(pc := Resolved(o, fp));
    ReachableStep(interval, s1, Resolve, s2);
    var known := Matches(s.entry, fp) && WalOf(o.status).Some?;
    var seen := Observed(None, None);
    var status := Availability(o.status, o.generation, known, true, true, 0, seen);
    var s3 := s2.(pc := Writing(o, fp, status, true));
    ReachableStep(interval, s2, CheckStorage(true, true, 0, seen), s3);
    t := Stored(s3, status);
    t := t.(pc := Checking(t.obj.value, fp));
    ReachableStep(interval, s3, StoreAvailability, t);
  }

  /** A new BackupConfig whose first reconcile has just begun the archive scan. */
  lemma FirstScan(interval: nat) returns (s: State)
    ensures Reachable(interval, s) && s.obj.Some? && s.pc == Scanning(s.obj.value, FingerprintOf(s), 0)
    ensures s.entry.None? && s.scans == [] && s.now == 0 && s.landed == multiset{} && s.reported == {}
  {
    hide Reachable;
    ReachableStart(interval);
    var created := INIT.(obj := Some(Object(0, 0, 1, NO_STATUS)), version := 1, uids := {0});
    ReachableStep(interval, INIT, Create(0), created);
    var checking := Recheck(interval, created);
    s := checking.(pc := Scanning(checking.obj.value, FingerprintOf(checking), 0));
    ReachableStep(interval, checking, StartArchive, s);
  }

  lemma CheckArchive(interval: nat, s: State) returns (t: State)
    requires Reachable(interval, s) && s.pc.Checking? && !(Matches(s.entry, s.pc.fp) && s.now < s.entry.value.nextCheck)
    ensures Reachable(interval, t) && t == s.(pc := Scanning(s.pc.mem, s.pc.fp, s.now))
  {
    hide Reachable;
    t := s.(pc := Scanning(s.pc.mem, s.pc.fp, s.now));
    ReachableStep(interval, s, StartArchive, t);
  }

  lemma SaveAgain(interval: nat, s: State) returns (t: State)
    requires Reachable(interval, s) && s.pc.Checking? && Matches(s.entry, s.pc.fp)
    requires s.now < s.entry.value.nextCheck && s.entry.value.pending.Some?
    ensures Reachable(interval, t)
    ensures t == s.(pc := Saving(s.pc.mem.(status := s.entry.value.pending.value), Retry(s.entry.value), None))
  {
    hide Reachable;
    t := s.(pc := Saving(s.pc.mem.(status := s.entry.value.pending.value), Retry(s.entry.value), None));
    ReachableStep(interval, s, StartArchive, t);
  }

  lemma CancelScan(interval: nat, s: State) returns (t: State)
    requires Reachable(interval, s) && s.pc.Scanning?
    ensures Reachable(interval, t)
    ensures t == s.(scans := s.scans + [Scan(s.pc.fp, s.pc.start, s.now, None)],
                    pc := Saved(s.pc.mem, Fresh(s.pc.fp, |s.scans|), false))
  {
    hide Reachable;
    t := s.(scans := s.scans + [Scan(s.pc.fp, s.pc.start, s.now, None)],
            pc := Saved(s.pc.mem, Fresh(s.pc.fp, |s.scans|), false));
    ReachableStep(interval, s, EndScan(None, 0), t);
  }

  lemma CompleteScan(interval: nat, s: State, f: Finding) returns (t: State)
    requires Reachable(interval, s) && s.pc.Scanning? && f.verdict != CondUnknown
    ensures Reachable(interval, t) && t.pc.Saving?
    ensures t.pc.mem.uid == s.pc.mem.uid && t.pc.mem.generation == s.pc.mem.generation
    ensures t == s.(scans := s.scans + [Scan(s.pc.fp, s.pc.start, s.now, Some(f.verdict))],
                    pc := Saving(t.pc.mem, Fresh(s.pc.fp, |s.scans|), None))
  {
    hide Reachable, AfterScan;
    var mem := s.pc.mem.(status := AfterScan(s.pc.mem.status, f, s.pc.mem.generation, 0));
    t := s.(scans := s.scans + [Scan(s.pc.fp, s.pc.start, s.now, Some(f.verdict))],
            pc := Saving(mem, Fresh(s.pc.fp, |s.scans|), None));
    ReachableStep(interval, s, EndScan(Some(f), 0), t);
  }

  /** The end of a scan that was not reported as saved. */
  lemma FinishUnsaved(interval: nat, s: State) returns (t: State)
    requires Reachable(interval, s) && s.pc.Saved? && s.pc.job.Fresh? && !s.pc.reported && s.pc.job.scan < |s.scans|
    ensures Reachable(interval, t) && t.entry.Some?
    ensures t == s.(pc := Idle, entry := t.entry)
    ensures t.entry.value.fp == s.pc.job.fp && t.entry.value.nextCheck == s.now + interval
    ensures t.entry.value.scan == s.pc.job.scan
    ensures t.entry.value.pending.Some? <==> s.scans[s.pc.job.scan].verdict.Some?
  {
    hide Reachable;
    var n := s.pc.job.scan;
    var pending := if s.scans[n].verdict.Some? then Some(s.pc.mem.status) else None;
    t := s.(pc := Idle, entry := Some(Entry(s.pc.job.fp, s.now + interval, pending, n)));
    ReachableStep(interval, s, Finish, t);
  }

  lemma DeleteAndPrune(interval: nat, s: State) returns (t: State)
    requires Reachable(interval, s) && s.obj.Some?
    ensures Reachable(interval, t) && t == s.(obj := None, entry := None)
  {
    hide Reachable;
    var gone := s.(obj := None);
    ReachableStep(interval, s, Delete, gone);
    t := gone.(entry := None);
    ReachableStep(interval, gone, Prune, t);
  }

  /** A cancelled scan, then a deletion and a prune during the next reconcile: two scans at the same time. */
  lemma PruneInFlightRun(interval: nat) returns (t: State)
    requires interval > 0
    ensures Reachable(interval, t) && !Spaced(interval, t.scans)
  {
    hide Reachable, Next, Spaced;
    var first := FirstScan(interval);
    var cancelled := CancelScan(interval, first);
    var idle := FinishUnsaved(interval, cancelled);
    var checking := Recheck(interval, idle);
    var pruned := DeleteAndPrune(interval, checking);
    var again := CheckArchive(interval, pruned);
    t := CancelScan(interval, again);
    NotSpaced(interval, t.scans);
  }

  lemma NotSpaced(interval: nat, scans: seq<Scan>)
    requires |scans| == 2 && scans[1].fp == scans[0].fp && scans[1].start < scans[0].end + interval
    ensures !Spaced(interval, scans)
  {
    assert !SpacedAt(interval, scans, 1);
  }

  /** One write of the status in hand, which the API server takes. */
  lemma Write(interval: nat, s: State, late: bool) returns (t: State)
    requires Reachable(interval, s) && s.pc.Saving? && s.pc.attempt.None? && s.obj.Some?
    requires s.obj.value.uid == s.pc.mem.uid && s.obj.value.generation == s.pc.mem.generation
    ensures Reachable(interval, t) && t.obj.Some? && t.pc == Saved(s.pc.mem, s.pc.job, !late)
    ensures t.obj.value.uid == s.obj.value.uid && t.obj.value.generation == s.obj.value.generation
    ensures t.landed == s.landed + multiset{ScanOf(s.pc.job)}
    ensures t.reported == if late then s.reported else s.reported + {ScanOf(s.pc.job)}
    ensures t.entry == s.entry && t.scans == s.scans && t.now == s.now && t.hash == s.hash
  {
    hide Reachable, Merge;
    var o, n := Observed(None, None), ScanOf(s.pc.job);
    var merged := Merge(s.obj.value.status, s.pc.mem.status, o);
    var s1 := s.(pc := s.pc.(attempt := Some(Attempt(s.obj.value, merged))));
    ReachableStep(interval, s, GetLatest(o), s1);
    t := Stored(s1, merged).(
      pc := Saved(s.pc.mem, s.pc.job, !late),
      landed := s1.landed + multiset{n},
      late := if late then s1.late + multiset{n} else s1.late,
      reported := if late then s1.reported else s1.reported + {n});
    ReachableStep(interval, s1, Commit(late), t);
  }

  /** One completed scan whose save is cancelled late, and the next reconcile: its result is written twice. */
  lemma WrittenTwiceRun(interval: nat) returns (t: State)
    requires interval > 0
    ensures Reachable(interval, t) && |t.scans| == 1 && t.landed[0] == 2 && t.reported == {0}
  {
    hide Reachable, Next;
    var first := FirstScan(interval);
    var done := CompleteScan(interval, first, Finding(CondTrue, None, None));
    var late := Write(interval, done, true);
    var idle := FinishUnsaved(interval, late);
    var checking := Recheck(interval, idle);
    var again := SaveAgain(interval, checking);
    t := Write(interval, again, false);
  }
}
