/**
 The archive-check cache of the status controller for one BackupConfig key, as a state machine over
 the API object (written with optimistic concurrency), the cache entry, the one reconcile that may
 be in flight for the key, and the clock. Scans, storage checks and all other writers are arbitrary.
 */
module ArchiveStatus {
  import opened Text
  import opened Conditions

  datatype Status = Status(
    conditions: seq<Condition>,
    phase: Phase,
    firstRecoverabilityPoint: Option<int>,
    lastSuccessfulBackup: Option<int>,
    lastFailedBackup: Option<int>,
    consumedStorage: Option<int>)

  const NO_STATUS := Status([], Unknown, None, None, None, None)

  /** uid, generation and the hash of the resolved configuration. */
  datatype Fingerprint = Fingerprint(uid: nat, generation: nat, hash: int)

  /** archiveCheck; `scan` records which scan the entry is about. */
  datatype Entry = Entry(fp: Fingerprint, nextCheck: int, pending: Option<Status>, scan: nat)

  datatype Object = Object(uid: nat, generation: nat, version: nat, status: Status)

  /** A finished scan: under which fingerprint, from when to when, and its verdict if it was not cancelled. */
  datatype Scan = Scan(fp: Fingerprint, start: int, end: int, verdict: Option<CondStatus>)

  /** What a completed archive scan found. */
  datatype Finding = Finding(verdict: CondStatus, first: Option<int>, consumed: Option<int>)

  /** Timestamps derived from the owned Backup resources: first and last success, last failure. */
  datatype Observed = Observed(success: Option<(int, int)>, failed: Option<int>)

  /** updateArchiveStatus saves the scan that just ended, or retries saving the one in the entry. */
  datatype Job = Fresh(fp: Fingerprint, scan: nat) | Retry(entry: Entry)

  datatype Attempt = Attempt(latest: Object, merged: Status)

  datatype Pc =
    | Idle
    | Read(snap: Object)
    | Resolved(snap: Object, fp: Fingerprint)
    | Writing(snap: Object, fp: Fingerprint, status: Status, readable: bool)
    | Checking(mem: Object, fp: Fingerprint)
    | Scanning(mem: Object, fp: Fingerprint, start: int)
    | Saving(mem: Object, job: Job, attempt: Option<Attempt>)
    | Saved(mem: Object, job: Job, reported: bool)

  datatype State = State(
    obj: Option<Object>,
    hash: int,            // of the configuration as it would resolve now
    uids: set<nat>,       // uids ever used
    version: nat,         // last resource version handed out
    entry: Option<Entry>,
    pc: Pc,
    now: int,
    scans: seq<Scan>,     // finished scans, in order
    landed: multiset<nat>,  // scans whose result reached the API server, once per write
    late: multiset<nat>,    // writes that landed but were reported as cancelled
    reported: set<nat>)     // scans whose save was reported as successful

  // ----- Status computations

  function WalOf(st: Status): Option<CondStatus> {
    StatusOf(st.conditions, WAL_INTEGRITY)
  }

  ghost function WithPhase(st: Status): Status {
    st.(phase := PhaseOf(st.conditions))
  }

  function WithTimestamps(st: Status, o: Observed): Status {
    var s := if o.success.Some?
             then st.(firstRecoverabilityPoint := Some(o.success.value.0),
                 lastSuccessfulBackup := Some(o.success.value.1))
             else st;
    if o.failed.Some? then s.(lastFailedBackup := o.failed) else s
  }

  function Cond(kind: string, ok: bool, at: int, gen: nat): Condition {
    Condition(kind, if ok then CondTrue else CondFalse, at, gen, "")
  }

  /** The status stored before the archive scan; the WAL verdict is reset unless the cache knows its origin. */
  ghost function Availability(st: Status, gen: nat, known: bool, readable: bool, writable: bool, at: int,
      o: Observed): Status {
    var c1 := Set(st.conditions, Cond(CREDENTIALS_VALID, true, at, gen));
    var c2 := Set(c1, Cond(STORAGE_READABLE, readable, at, gen));
    var c3 := Set(c2, Cond(STORAGE_WRITABLE, writable, at, gen));
    var c4 := if known then c3 else Set(c3, Condition(WAL_INTEGRITY, CondUnknown, at, gen, "WALIntegrityCheckPending"));
    WithPhase(WithTimestamps(st.(conditions := c4), o))
  }

  /** Secrets could not be fetched: the phase is written as Failed outright. */
  function CredentialsFailed(st: Status, gen: nat, at: int): Status {
    st.(conditions := Set(st.conditions, Cond(CREDENTIALS_VALID, false, at, gen)), phase := Failed)
  }

  function AfterScan(st: Status, f: Finding, gen: nat, at: int): Status {
    st.(firstRecoverabilityPoint := if f.first.Some? then f.first else st.firstRecoverabilityPoint,
        consumedStorage := if f.consumed.Some? then f.consumed else st.consumedStorage,
        conditions := Set(st.conditions, Condition(WAL_INTEGRITY, f.verdict, at, gen, "")))
  }

  /** updateArchiveStatus: the archive fields of the scan on top of the latest status. */
  ghost function Merge(latest: Status, scanned: Status, o: Observed): Status {
    var conds := match Lookup(scanned.conditions, WAL_INTEGRITY)
                 case Some(c) => Set(latest.conditions, c)
                 case None => latest.conditions;
    WithPhase(WithTimestamps(
      latest.(firstRecoverabilityPoint := scanned.firstRecoverabilityPoint,
              consumedStorage := scanned.consumedStorage, conditions := conds), o))
  }

  /** The timestamps come from the observed Backups, and stay as they were where none was observed. */
  ghost predicate TimestampsFrom(st: Status, after: Status, o: Observed) {
    && after.firstRecoverabilityPoint ==
       (if o.success.Some? then Some(o.success.value.0) else st.firstRecoverabilityPoint)
    && after.lastSuccessfulBackup == (if o.success.Some? then Some(o.success.value.1) else st.lastSuccessfulBackup)
    && after.lastFailedBackup == (if o.failed.Some? then o.failed else st.lastFailedBackup)
  }

  /** What an availability write says of a check: its own answer, whatever the others said. */
  lemma AvailabilityStores(st: Status, gen: nat, known: bool, readable: bool, writable: bool, at: int, o: Observed)
    ensures var a := Availability(st, gen, known, readable, writable, at, o);
            && StatusOf(a.conditions, "CredentialsValid") == Some(CondTrue)
            && StatusOf(a.conditions, "StorageReadable") == Some(if readable then CondTrue else CondFalse)
            && StatusOf(a.conditions, "StorageWritable") == Some(if writable then CondTrue else CondFalse)
            && StatusOf(a.conditions, "WALIntegrityCheckPassed")
               == (if known then StatusOf(st.conditions, "WALIntegrityCheckPassed") else Some(CondUnknown))
            && OthersAsBefore(st.conditions, a.conditions)
            && TimestampsFrom(st, a, o) && a.consumedStorage == st.consumedStorage
  {
    hide PhaseOf, Lookup, SinceAfter;
  }

  /** Conditions that are neither of availability nor of the archive are untouched. */
  ghost predicate OthersAsBefore(before: seq<Condition>, after: seq<Condition>) {
    forall k | k !in {"CredentialsValid", "StorageReadable", "StorageWritable", "WALIntegrityCheckPassed"} ::
      Lookup(after, k) == Lookup(before, k)
  }

  /** A credential failure says so and changes nothing else but the phase. */
  lemma CredentialsFailedStores(st: Status, gen: nat, at: int)
    ensures var a := CredentialsFailed(st, gen, at);
            && StatusOf(a.conditions, "CredentialsValid") == Some(CondFalse) && a.phase == Failed
            && (forall k | k != "CredentialsValid" :: Lookup(a.conditions, k) == Lookup(st.conditions, k))
            && a == st.(conditions := a.conditions, phase := a.phase)
  {
  }

  /** A finished scan sets the verdict and what it found, and keeps the rest. */
  lemma AfterScanStores(st: Status, f: Finding, gen: nat, at: int)
    ensures var a := AfterScan(st, f, gen, at);
            && StatusOf(a.conditions, "WALIntegrityCheckPassed") == Some(f.verdict)
            && (forall k | k != "WALIntegrityCheckPassed" :: Lookup(a.conditions, k) == Lookup(st.conditions, k))
            && (f.first.Some? ==> a.firstRecoverabilityPoint == f.first)
            && (f.consumed.Some? ==> a.consumedStorage == f.consumed)
            && (f.first.None? ==> a.firstRecoverabilityPoint == st.firstRecoverabilityPoint)
            && (f.consumed.None? ==> a.consumedStorage == st.consumedStorage)
            && a.lastSuccessfulBackup == st.lastSuccessfulBackup && a.lastFailedBackup == st.lastFailedBackup
  {
  }

  lemma WalOfAvailability(st: Status, gen: nat, known: bool, readable: bool, writable: bool, at: int, o: Observed)
    ensures WalOf(Availability(st, gen, known, readable, writable, at, o)) ==
              if known then WalOf(st) else Some(CondUnknown)
  {
    hide PhaseOf;
  }

  lemma WalOfCredentialsFailed(st: Status, gen: nat, at: int)
    ensures WalOf(CredentialsFailed(st, gen, at)) == WalOf(st)
    ensures CredentialsFailed(st, gen, at).phase == PhaseOf(CredentialsFailed(st, gen, at).conditions)
  {
    CredentialFailureIsFailed(st.conditions, Cond(CREDENTIALS_VALID, false, at, gen));
  }

  lemma WalOfAfterScan(st: Status, f: Finding, gen: nat, at: int)
    ensures WalOf(AfterScan(st, f, gen, at)) == Some(f.verdict)
  {
  }

  lemma WalOfMerge(latest: Status, scanned: Status, o: Observed)
    ensures WalOf(scanned).Some? ==> WalOf(Merge(latest, scanned, o)) == WalOf(scanned)
  {
    if WalOf(scanned).Some? {
      LookupKind(scanned.conditions, WAL_INTEGRITY);
    }
  }

  // ----- Steps

  datatype Event =
    | Tick(d: nat)
    | SecretChange(hash: int)
    | Create(uid: nat)
    | Delete
    | SpecChange
    | Touch(status: Status)
    | Prune
    | Restart
    | Begin
    | Resolve
    | FailCredentials(at: int)
    | CheckStorage(readable: bool, writable: bool, at: int, o: Observed)
    | StoreAvailability
    | Abort
    | StartArchive
    | EndScan(finding: Option<Finding>, at: int)
    | GetLatest(o: Observed)
    | Commit(lateCancel: bool)
    | Conflict
    | GiveUp
    | Finish

  predicate Matches(entry: Option<Entry>, fp: Fingerprint) {
    entry.Some? && entry.value.fp == fp
  }

  function Stored(s: State, status: Status): State
    requires s.obj.Some?
  {
    s.(obj := Some(s.obj.value.(status := status, version := s.version + 1)), version := s.version + 1)
  }

  /** The API server takes a write only if the object is still the one that was read. */
  predicate Unchanged(s: State, o: Object) {
    s.obj.Some? && s.obj.value.version == o.version
  }

  function ScanOf(job: Job): nat {
    match job case Fresh(_, n) => n case Retry(e) => e.scan
  }

  ghost predicate Next(interval: nat, s: State, e: Event, s': State) {
    match e
    // The environment
    case Tick(d) => s' == s.(now := s.now + d)
    case SecretChange(h) => s' == s.(hash := h)
    case Create(uid) =>
      s.obj.None? && uid !in s.uids
      && s' == s.(obj := Some(Object(uid, 0, s.version + 1, NO_STATUS)), version := s.version + 1,
         uids := s.uids + {uid})
    case Delete => s.obj.Some? && s' == s.(obj := None)
    case SpecChange =>
      s.obj.Some?
      && s' == s.(obj := Some(s.obj.value.(generation := s.obj.value.generation + 1, version := s.version + 1)),
                  version := s.version + 1)
    case Touch(st) =>
      // Other writers may change everything but the WAL integrity condition.
      s.obj.Some? && WalOf(st) == WalOf(s.obj.value.status) && s' == Stored(s, st)
    case Restart => s' == s.(entry := None, pc := Idle)
    // enqueueAllStatuses: list and prune
    case Prune => s' == if s.obj.None? then s.(entry := None) else s
    // The reconcile
    case Begin => s.pc == Idle && s.obj.Some? && s' == s.(pc := Read(s.obj.value))
    case Resolve =>
      s.pc.Read? && s' == s.(pc := Resolved(s.pc.snap, Fingerprint(s.pc.snap.uid, s.pc.snap.generation, s.hash)))
    case FailCredentials(at) =>
      s.pc.Read?
      && s' == if Unchanged(s, s.pc.snap)
               then Stored(s, CredentialsFailed(s.pc.snap.status, s.pc.snap.generation, at)).(pc := Idle)
               else s.(pc := Idle)
    case CheckStorage(r, w, at, o) =>
      s.pc.Resolved?
      && var known := Matches(s.entry, s.pc.fp) && WalOf(s.pc.snap.status).Some?;
         s' == s.(pc := Writing(s.pc.snap, s.pc.fp,
                                Availability(s.pc.snap.status, s.pc.snap.generation, known, r, w, at, o), r))
    case StoreAvailability =>
      s.pc.Writing? && Unchanged(s, s.pc.snap)
      && var t := Stored(s, s.pc.status);
         s' == t.(pc := if s.pc.readable then Checking(t.obj.value, s.pc.fp) else Idle)
    case Abort => (s.pc.Read? || s.pc.Resolved? || s.pc.Writing? || s.pc.Checking?) && s' == s.(pc := Idle)
    case StartArchive =>
      s.pc.Checking?
      && s' == if Matches(s.entry, s.pc.fp) && s.now < s.entry.value.nextCheck
               then match s.entry.value.pending
                    case Some(p) => s.(pc := Saving(s.pc.mem.(status := p), Retry(s.entry.value), None))
                    case None => s.(pc := Idle)
               else s.(pc := Scanning(s.pc.mem, s.pc.fp, s.now))
    case EndScan(f, at) =>
      s.pc.Scanning? && (f.Some? ==> f.value.verdict != CondUnknown)
      && var scan := Scan(s.pc.fp, s.pc.start, s.now, if f.Some? then Some(f.value.verdict) else None);
         var job := Fresh(s.pc.fp, |s.scans|);
         s' == s.(scans := s.scans + [scan],
                  pc := match f
                        case Some(f) =>
                          var status := AfterScan(s.pc.mem.status, f, s.pc.mem.generation, at);
                          Saving(s.pc.mem.(status := status), job, None)
                        case None => Saved(s.pc.mem, job, false))
    case GetLatest(o) =>
      s.pc.Saving? && s.pc.attempt.None? && s.obj.Some?
      && s.obj.value.uid == s.pc.mem.uid && s.obj.value.generation == s.pc.mem.generation
      && s' == s.(pc := s.pc.(attempt := Some(Attempt(s.obj.value, Merge(s.obj.value.status, s.pc.mem.status, o)))))
    case Commit(lateCancel) =>
      s.pc.Saving? && s.pc.attempt.Some? && Unchanged(s, s.pc.attempt.value.latest)
      && var n := ScanOf(s.pc.job);
         s' == Stored(s, s.pc.attempt.value.merged).(
                 pc := Saved(s.pc.mem, s.pc.job, !lateCancel),
                 landed := s.landed + multiset{n},
                 late := if lateCancel then s.late + multiset{n} else s.late,
                 reported := if lateCancel then s.reported else s.reported + {n})
    case Conflict =>
      s.pc.Saving? && s.pc.attempt.Some? && !Unchanged(s, s.pc.attempt.value.latest)
          && s' == s.(pc := s.pc.(attempt := None))
    case GiveUp => s.pc.Saving? && s' == s.(pc := Saved(s.pc.mem, s.pc.job, false))
    case Finish =>
      s.pc.Saved?
      && var n := ScanOf(s.pc.job);
         s' == s.(pc := Idle, entry :=
                    match s.pc.job
                    case Fresh(fp, _) =>
                      var completed := n < |s.scans| && s.scans[n].verdict.Some?;
                      var pending := if completed && !s.pc.reported then Some(s.pc.mem.status) else None;
                      Some(Entry(fp, s.now + interval, pending, n))
                    case Retry(entry) => if s.pc.reported then Some(entry.(pending := None)) else s.entry)
  }

  const INIT := State(None, 0, {}, 0, None, Idle, 0, [], multiset{}, multiset{}, {})

  ghost predicate StepAt(interval: nat, tr: seq<State>, ev: seq<Event>, i: nat)
    requires i < |ev| && |tr| == |ev| + 1
  {
    Next(interval, tr[i], ev[i], tr[i + 1])
  }

  ghost predicate IsRun(interval: nat, tr: seq<State>, ev: seq<Event>) {
    |tr| == |ev| + 1 && tr[0] == INIT && forall i | 0 <= i < |ev| :: StepAt(interval, tr, ev, i)
  }

  // ----- Provenance of the WAL verdict

  /** The value is no verdict, or that of a completed scan made under `fp`. */
  ghost predicate Justified(scans: seq<Scan>, fp: Fingerprint, v: Option<CondStatus>) {
    v == Some(CondTrue) || v == Some(CondFalse) ==>
      exists i :: 0 <= i < |scans| && scans[i].fp == fp && scans[i].verdict == v
  }

  ghost predicate StoredJustified(s: State, fp: Fingerprint) {
    s.obj.Some? ==> Justified(s.scans, fp, WalOf(s.obj.value.status))
  }

  ghost predicate EntryJustified(s: State) {
    s.entry.Some? ==> StoredJustified(s, s.entry.value.fp)
  }

  ghost predicate PendingJustified(scans: seq<Scan>, e: Option<Entry>) {
    e.Some? && e.value.pending.Some? ==>
      WalOf(e.value.pending.value).Some? && Justified(scans, e.value.fp, WalOf(e.value.pending.value))
  }

  ghost predicate SavingJustified(s: State, fp: Fingerprint) {
    s.pc.Saving? ==>
      && WalOf(s.pc.mem.status).Some? && Justified(s.scans, fp, WalOf(s.pc.mem.status))
      && (s.pc.attempt.Some? ==> Justified(s.scans, fp, WalOf(s.pc.attempt.value.merged)))
  }

  ghost predicate PcJustified(s: State) {
    match s.pc
    case Idle => EntryJustified(s)
    case Read(snap) =>
      EntryJustified(s) && (s.entry.Some? ==> Justified(s.scans, s.entry.value.fp, WalOf(snap.status)))
    case Resolved(snap, fp) =>
      EntryJustified(s) && (s.entry.Some? ==> Justified(s.scans, s.entry.value.fp, WalOf(snap.status)))
    case Writing(_, fp, st, _) =>
      && EntryJustified(s) && Justified(s.scans, fp, WalOf(st))
      && (s.entry.Some? ==> Justified(s.scans, s.entry.value.fp, WalOf(st)))
    case Checking(_, fp) => EntryJustified(s) && StoredJustified(s, fp)
    case Scanning(_, fp, _) => StoredJustified(s, fp)
    case Saving(_, job, _) => JobJustified(s, s.pc.mem, job)
    case Saved(_, job, _) => JobJustified(s, s.pc.mem, job)
  }

  ghost predicate JobJustified(s: State, mem: Object, job: Job) {
    match job
    case Fresh(fp, n) =>
      && StoredJustified(s, fp) && SavingJustified(s, fp)
      && n < |s.scans| && s.scans[n].fp == fp
      && (s.scans[n].verdict.Some? ==> WalOf(mem.status) == s.scans[n].verdict)
    case Retry(entry) =>
      && StoredJustified(s, entry.fp) && SavingJustified(s, entry.fp)
      && PendingJustified(s.scans, Some(entry))
      && (s.entry.Some? ==> s.entry.value.fp == entry.fp)
  }

  ghost predicate Provenance(s: State) {
    PcJustified(s) && PendingJustified(s.scans, s.entry)
  }

  lemma JustifiedGrows(scans: seq<Scan>, more: seq<Scan>, fp: Fingerprint, v: Option<CondStatus>)
    requires Justified(scans, fp, v) && scans <= more
    ensures Justified(more, fp, v)
  {
    if v == Some(CondTrue) || v == Some(CondFalse) {
      var i :| 0 <= i < |scans| && scans[i].fp == fp && scans[i].verdict == v;
      assert more[i] == scans[i];
    }
  }

  predicate ByEnvironment(e: Event) {
    e.Tick? || e.SecretChange? || e.Create? || e.Delete? || e.SpecChange? || e.Touch? || e.Prune? || e.Restart?
  }

  lemma ProvenanceEnvironment(interval: nat, s: State, e: Event, s': State)
    requires Provenance(s) && Next(interval, s, e, s') && ByEnvironment(e)
    ensures Provenance(s')
  {
    hide Justified;
    if e.Create? {
      assert forall fp :: Justified(s.scans, fp, WalOf(NO_STATUS)) by { NoVerdict(s.scans); }
    }
  }

  lemma NoVerdict(scans: seq<Scan>)
    ensures forall fp :: Justified(scans, fp, WalOf(NO_STATUS)) && Justified(scans, fp, Some(CondUnknown))
  {
  }

  predicate BeforeScan(e: Event) {
    e.Begin? || e.Resolve? || e.FailCredentials? || e.CheckStorage? || e.StoreAvailability? || e.Abort?
        || e.StartArchive?
  }

  lemma ProvenanceBeforeScan(interval: nat, s: State, e: Event, s': State)
    requires Provenance(s) && Next(interval, s, e, s') && BeforeScan(e)
    ensures Provenance(s')
  {
    hide Justified, Availability, CredentialsFailed;
    NoVerdict(s.scans);
    match e
    case FailCredentials(at) => WalOfCredentialsFailed(s.pc.snap.status, s.pc.snap.generation, at);
    case CheckStorage(r, w, at, o) =>
      WalOfAvailability(s.pc.snap.status, s.pc.snap.generation,
                        Matches(s.entry, s.pc.fp) && WalOf(s.pc.snap.status).Some?, r, w, at, o);
    case _ =>
  }

  lemma ProvenanceSaving(interval: nat, s: State, e: Event, s': State)
    requires Provenance(s) && Next(interval, s, e, s')
    requires e.GetLatest? || e.Commit? || e.Conflict? || e.GiveUp?
    ensures Provenance(s')
  {
    hide Justified, Merge;
    if e.GetLatest? {
      WalOfMerge(s.obj.value.status, s.pc.mem.status, e.o);
    }
  }

  lemma ProvenanceFinish(interval: nat, s: State, e: Event, s': State)
    requires Provenance(s) && Next(interval, s, e, s') && e.Finish?
    ensures Provenance(s')
  {
    hide Justified;
    if s.pc.job.Fresh? && s.scans[s.pc.job.scan].verdict.Some? {
      VerdictJustifies(s.scans, s.pc.job.scan);
    }
  }

  lemma VerdictJustifies(scans: seq<Scan>, n: nat)
    requires n < |scans|
    ensures Justified(scans, scans[n].fp, scans[n].verdict)
  {
  }

  lemma ProvenanceEndScan(interval: nat, s: State, e: Event, s': State)
    requires Provenance(s) && Next(interval, s, e, s') && e.EndScan?
    ensures Provenance(s')
  {
    hide Justified, AfterScan;
    var n := |s.scans|;
    assert s.scans <= s'.scans;
    if s.obj.Some? {
      JustifiedGrows(s.scans, s'.scans, s.pc.fp, WalOf(s.obj.value.status));
    }
    if s.entry.Some? && s.entry.value.pending.Some? {
      JustifiedGrows(s.scans, s'.scans, s.entry.value.fp, WalOf(s.entry.value.pending.value));
    }
    if e.finding.Some? {
      WalOfAfterScan(s.pc.mem.status, e.finding.value, s.pc.mem.generation, e.at);
      VerdictJustifies(s'.scans, n);
    }
  }

  lemma ProvenanceKept(interval: nat, s: State, e: Event, s': State)
    requires Provenance(s) && Next(interval, s, e, s')
    ensures Provenance(s')
  {
    hide Provenance, Next;
    if ByEnvironment(e) {
      ProvenanceEnvironment(interval, s, e, s');
    } else if BeforeScan(e) {
      ProvenanceBeforeScan(interval, s, e, s');
    } else if e.EndScan? {
      ProvenanceEndScan(interval, s, e, s');
    } else if e.Finish? {
      ProvenanceFinish(interval, s, e, s');
    } else {
      ProvenanceSaving(interval, s, e, s');
    }
  }

  lemma {:induction false} ProvenanceOverRuns(interval: nat, tr: seq<State>, ev: seq<Event>, n: nat)
    requires IsRun(interval, tr, ev) && n <= |ev|
    ensures Provenance(tr[n])
  {
    if n > 0 {
      ProvenanceOverRuns(interval, tr, ev, n - 1);
      assert StepAt(interval, tr, ev, n - 1);
      ProvenanceKept(interval, tr[n - 1], ev[n - 1], tr[n]);
    }
  }

  /**
   Whatever happened before (config and secret changes, failed saves, cancellations, pruned
   entries, restarts): once a reconcile has stored availability under a fingerprint, a stored
   verdict of True or False is that of a completed scan made under this very fingerprint.
   */
  lemma VerdictProvenance(interval: nat, tr: seq<State>, ev: seq<Event>, n: nat)
    requires IsRun(interval, tr, ev) && n < |ev| && ev[n].StoreAvailability?
    ensures tr[n].pc.Writing? && tr[n + 1].obj.Some?
    ensures Justified(tr[n + 1].scans, tr[n].pc.fp, WalOf(tr[n + 1].obj.value.status))
  {
    assert StepAt(interval, tr, ev, n);
    ProvenanceOverRuns(interval, tr, ev, n);
  }

  // ----- What an availability write stores

  /** The check whose answers the reconcile is about to write is the last one made. */
  ghost predicate LastCheck(tr: seq<State>, ev: seq<Event>, i: nat, n: nat)
    requires i < n <= |ev| && |tr| == |ev| + 1
  {
    && ev[i].CheckStorage? && tr[i].pc.Resolved?
    && (forall j | i < j < n :: !ev[j].CheckStorage?)
    && tr[n].pc == tr[i + 1].pc
  }

  lemma {:induction false} WritingFollowsCheck(interval: nat, tr: seq<State>, ev: seq<Event>, n: nat)
    requires IsRun(interval, tr, ev) && n <= |ev| && tr[n].pc.Writing?
    ensures exists i: nat :: i < n && LastCheck(tr, ev, i, n)
  {
    hide Availability, AfterScan, Merge, CredentialsFailed;
    assert StepAt(interval, tr, ev, n - 1);
    if ev[n - 1].CheckStorage? {
      assert LastCheck(tr, ev, n - 1, n);
    } else {
      assert tr[n - 1].pc == tr[n].pc;
      WritingFollowsCheck(interval, tr, ev, n - 1);
      var i: nat :| i < n - 1 && LastCheck(tr, ev, i, n - 1);
      assert LastCheck(tr, ev, i, n);
    }
  }

  /** The fingerprint in hand was made of what the last read and the last resolving of the configuration gave. */
  ghost predicate LastResolve(tr: seq<State>, ev: seq<Event>, j: nat, n: nat)
    requires j < n <= |ev| && |tr| == |ev| + 1
  {
    && ev[j].Resolve? && tr[j].pc.Read?
    && (forall k | j < k < n :: !ev[k].Resolve?)
    && var o := tr[j].pc.snap; tr[n].pc == Resolved(o, Fingerprint(o.uid, o.generation, tr[j].hash))
  }

  lemma {:induction false} ResolvedFollowsRead(interval: nat, tr: seq<State>, ev: seq<Event>, n: nat)
    requires IsRun(interval, tr, ev) && n <= |ev| && tr[n].pc.Resolved?
    ensures exists j: nat :: j < n && LastResolve(tr, ev, j, n)
  {
    hide Availability, AfterScan, Merge, CredentialsFailed;
    assert StepAt(interval, tr, ev, n - 1);
    if ev[n - 1].Resolve? {
      assert LastResolve(tr, ev, n - 1, n);
    } else {
      assert tr[n - 1].pc == tr[n].pc;
      ResolvedFollowsRead(interval, tr, ev, n - 1);
      var j: nat :| j < n - 1 && LastResolve(tr, ev, j, n - 1);
      assert LastResolve(tr, ev, j, n);
    }
  }

  /**
   An availability write stores that credentials are valid, and of reading and writing the answers of the last check,
   each under its own condition. It keeps the WAL verdict that was read exactly when the cache entry at that check has
   the fingerprint of the object and configuration that were read, and resets it otherwise. It leaves foreign
   conditions as they were read, and the reconcile goes on to the archive exactly when the stored status says that
   storage is readable.
   */
  lemma AvailabilityTruthful(interval: nat, tr: seq<State>, ev: seq<Event>, n: nat) returns (j: nat, i: nat)
    requires IsRun(interval, tr, ev) && n < |ev| && ev[n].StoreAvailability?
    ensures j < i < n && ev[j].Resolve? && tr[j].pc.Read? && ev[i].CheckStorage? && tr[i].pc.Resolved?
    ensures (forall k | j < k < i :: !ev[k].Resolve?) && forall k | i < k < n :: !ev[k].CheckStorage?
    ensures tr[n + 1].obj.Some?
    ensures var before, after := tr[j].pc.snap, tr[n + 1].obj.value.status;
            && StatusOf(after.conditions, "CredentialsValid") == Some(CondTrue)
            && StatusOf(after.conditions, "StorageReadable") == Some(if ev[i].readable then CondTrue else CondFalse)
            && StatusOf(after.conditions, "StorageWritable") == Some(if ev[i].writable then CondTrue else CondFalse)
            && OthersAsBefore(before.status.conditions, after.conditions)
            && TimestampsFrom(before.status, after, ev[i].o)
            && (tr[n + 1].pc.Checking? <==> StatusOf(after.conditions, "StorageReadable") == Some(CondTrue))
    ensures var before, after := tr[j].pc.snap, tr[n + 1].obj.value.status;
            var verdict := StatusOf(before.status.conditions, "WALIntegrityCheckPassed");
            StatusOf(after.conditions, "WALIntegrityCheckPassed") ==
            if tr[i].entry.Some? && verdict.Some?
               && tr[i].entry.value.fp == Fingerprint(before.uid, before.generation, tr[j].hash)
            then verdict else Some(CondUnknown)
  {
    hide Availability, AfterScan, Merge, CredentialsFailed, OthersAsBefore, TimestampsFrom, StatusOf;
    assert StepAt(interval, tr, ev, n);
    WritingFollowsCheck(interval, tr, ev, n);
    i :| i < n && LastCheck(tr, ev, i, n);
    assert StepAt(interval, tr, ev, i);
    ResolvedFollowsRead(interval, tr, ev, i);
    j :| j < i && LastResolve(tr, ev, j, i);
    var snap := tr[i].pc.snap;
    var known := Matches(tr[i].entry, tr[i].pc.fp) && WalOf(snap.status).Some?;
    AvailabilityStores(snap.status, snap.generation, known, ev[i].readable, ev[i].writable, ev[i].at, ev[i].o);
  }

  // ----- Lost updates and phases

  /** A version names one content of the object. */
  ghost predicate SameIfUnchanged(s: State, o: Object) {
    o.version <= s.version && (Unchanged(s, o) ==> s.obj == Some(o))
  }

  ghost predicate PhaseOk(st: Status) {
    st.phase == PhaseOf(st.conditions)
  }

  ghost predicate IsMerge(merged: Status, latest: Status, scanned: Status) {
    exists o :: merged == Merge(latest, scanned, o)
  }

  ghost predicate Versioned(s: State) {
    && (s.obj.Some? ==> s.obj.value.version <= s.version)
    && match s.pc
       case Read(snap) => SameIfUnchanged(s, snap)
       case Resolved(snap, _) => SameIfUnchanged(s, snap)
       case Writing(snap, _, st, _) => SameIfUnchanged(s, snap) && PhaseOk(st)
       case Saving(mem, _, Some(a)) =>
         && SameIfUnchanged(s, a.latest) && PhaseOk(a.merged)
         && a.latest.uid == mem.uid && a.latest.generation == mem.generation
         && IsMerge(a.merged, a.latest.status, mem.status)
       case _ => true
  }

  lemma VersionedEnvironment(interval: nat, s: State, e: Event, s': State)
    requires Versioned(s) && Next(interval, s, e, s') && (ByEnvironment(e) || e.Finish? || e.EndScan?)
    ensures Versioned(s')
  {
    hide PhaseOf, AfterScan, CredentialsFailed, Availability, Merge, IsMerge;
  }

  lemma VersionedBeforeScan(interval: nat, s: State, e: Event, s': State)
    requires Versioned(s) && Next(interval, s, e, s') && BeforeScan(e)
    ensures Versioned(s')
  {
    hide PhaseOf, AfterScan, CredentialsFailed, Availability, Merge, IsMerge, PhaseOk;
    if e.CheckStorage? {
      AvailabilityPhase(s.pc.snap.status, s.pc.snap.generation,
                        Matches(s.entry, s.pc.fp) && WalOf(s.pc.snap.status).Some?, e.readable, e.writable, e.at, e.o);
    }
  }

  lemma VersionedSaving(interval: nat, s: State, e: Event, s': State)
    requires Versioned(s) && Next(interval, s, e, s') && (e.GetLatest? || e.Commit? || e.Conflict? || e.GiveUp?)
    ensures Versioned(s')
  {
    hide PhaseOf, AfterScan, CredentialsFailed, Availability, Merge, IsMerge, PhaseOk;
    if e.GetLatest? {
      MergePhase(s.obj.value.status, s.pc.mem.status, e.o);
    }
  }

  lemma VersionedKept(interval: nat, s: State, e: Event, s': State)
    requires Versioned(s) && Next(interval, s, e, s')
    ensures Versioned(s')
  {
    hide Versioned, Next;
    if BeforeScan(e) {
      VersionedBeforeScan(interval, s, e, s');
    } else if e.GetLatest? || e.Commit? || e.Conflict? || e.GiveUp? {
      VersionedSaving(interval, s, e, s');
    } else {
      VersionedEnvironment(interval, s, e, s');
    }
  }

  lemma AvailabilityPhase(st: Status, gen: nat, known: bool, readable: bool, writable: bool, at: int, o: Observed)
    ensures PhaseOk(Availability(st, gen, known, readable, writable, at, o))
  {
    hide PhaseOf, Set;
  }

  lemma MergePhase(latest: Status, scanned: Status, o: Observed)
    ensures PhaseOk(Merge(latest, scanned, o)) && IsMerge(Merge(latest, scanned, o), latest, scanned)
  {
    hide PhaseOf, Set;
  }

  lemma {:induction false} VersionedOverRuns(interval: nat, tr: seq<State>, ev: seq<Event>, n: nat)
    requires IsRun(interval, tr, ev) && n <= |ev|
    ensures Versioned(tr[n])
  {
    if n > 0 {
      VersionedOverRuns(interval, tr, ev, n - 1);
      assert StepAt(interval, tr, ev, n - 1);
      VersionedKept(interval, tr[n - 1], ev[n - 1], tr[n]);
    }
  }

  /** Apart from the archive fields, the WAL condition, the recomputed timestamps and the phase, nothing differs. */
  ghost predicate OnlyArchiveDiffers(before: Status, after: Status, scanned: Status) {
    && (forall k | k != WAL_INTEGRITY :: Lookup(after.conditions, k) == Lookup(before.conditions, k))
    && WalOf(after) == (if WalOf(scanned).Some? then WalOf(scanned) else WalOf(before))
    && after.consumedStorage == scanned.consumedStorage
    && exists o :: TimestampsFrom(before.(firstRecoverabilityPoint := scanned.firstRecoverabilityPoint), after, o)
  }

  lemma MergeTouchesOnlyArchive(latest: Status, scanned: Status, o: Observed)
    ensures OnlyArchiveDiffers(latest, Merge(latest, scanned, o), scanned)
  {
    hide PhaseOf;
    WalOfMerge(latest, scanned, o);
    if WalOf(scanned).Some? {
      LookupKind(scanned.conditions, WAL_INTEGRITY);
    }
    var after := Merge(latest, scanned, o);
    assert TimestampsFrom(latest.(firstRecoverabilityPoint := scanned.firstRecoverabilityPoint), after, o);
  }

  /**
   Whatever other writers did between scan and commit, the committed status differs from the
   version just before it only in the archive's part, and it is committed only for the uid and
   generation that were scanned.
   */
  lemma NoLostUpdate(interval: nat, tr: seq<State>, ev: seq<Event>, n: nat)
    requires IsRun(interval, tr, ev) && n < |ev| && ev[n].Commit?
    ensures tr[n].obj.Some? && tr[n + 1].obj.Some? && tr[n].pc.Saving?
    ensures tr[n].obj.value.uid == tr[n].pc.mem.uid && tr[n].obj.value.generation == tr[n].pc.mem.generation
    ensures OnlyArchiveDiffers(tr[n].obj.value.status, tr[n + 1].obj.value.status, tr[n].pc.mem.status)
  {
    hide PhaseOf, Merge, OnlyArchiveDiffers;
    assert StepAt(interval, tr, ev, n);
    VersionedOverRuns(interval, tr, ev, n);
    var a := tr[n].pc.attempt.value;
    var o :| a.merged == Merge(a.latest.status, tr[n].pc.mem.status, o);
    MergeTouchesOnlyArchive(a.latest.status, tr[n].pc.mem.status, o);
  }

  /** Every status the controller stores has the phase its conditions determine. */
  lemma StoredPhases(interval: nat, tr: seq<State>, ev: seq<Event>, n: nat)
    requires IsRun(interval, tr, ev) && n < |ev|
    requires ev[n].StoreAvailability? || ev[n].Commit? || (ev[n].FailCredentials? && tr[n + 1].obj != tr[n].obj)
    ensures tr[n + 1].obj.Some? && PhaseOk(tr[n + 1].obj.value.status)
  {
    hide PhaseOf, Merge, Availability, CredentialsFailed;
    assert StepAt(interval, tr, ev, n);
    VersionedOverRuns(interval, tr, ev, n);
    if ev[n].FailCredentials? {
      WalOfCredentialsFailed(tr[n].pc.snap.status, tr[n].pc.snap.generation, ev[n].at);
    }
  }
}
