/** The status controller's shared state: work queue, in-flight set, archive cache, and the archive scan itself. */
module StatusController {
  import opened Text
  import opened Conditions
  import A = ArchiveStatus

  const QUEUE_SIZE := 256
  const WORKERS := 3

  // ----- Workers

  /** The shared queue, what each worker is reconciling, and the in-flight set. */
  datatype Pool = Pool(queue: seq<string>, workers: seq<Option<string>>, inFlight: set<string>)

  datatype Op = Enqueue(key: string) | EnqueueAll(keys: seq<string>) | Take(worker: nat) | Done(worker: nat)

  const START := Pool([], [None, None, None], {})

  predicate Enabled(p: Pool, op: Op) {
    match op
    case Enqueue(_) => true
    case EnqueueAll(_) => true
    case Take(w) => w < |p.workers| && p.workers[w].None? && |p.queue| > 0
    case Done(w) => w < |p.workers| && p.workers[w].Some?
  }

  function Push(queue: seq<string>, key: string): seq<string> {
    if |queue| < QUEUE_SIZE then queue + [key] else queue
  }

  function PushAll(queue: seq<string>, keys: seq<string>): seq<string>
    decreases |keys|
  {
    if |keys| == 0 then queue else PushAll(Push(queue, keys[0]), keys[1..])
  }

  function Apply(p: Pool, op: Op): Pool
    requires Enabled(p, op)
  {
    match op
    case Enqueue(key) => p.(queue := Push(p.queue, key))
    case EnqueueAll(keys) => if |p.queue| > 0 then p else p.(queue := PushAll([], keys))
    case Take(w) =>
      var key, rest := p.queue[0], p.queue[1..];
      if key in p.inFlight then p.(queue := rest)
      else Pool(rest, p.workers[w := Some(key)], p.inFlight + {key})
    case Done(w) => p.(workers := p.workers[w := None], inFlight := p.inFlight - {p.workers[w].value})
  }

  /** No key is with two workers, and exactly the keys with a worker are in flight. */
  ghost predicate Exclusive(p: Pool) {
    && |p.workers| == WORKERS && |p.queue| <= QUEUE_SIZE
    && (forall i, j | 0 <= i < j < |p.workers| && p.workers[i].Some? :: p.workers[i] != p.workers[j])
    && (forall k :: k in p.inFlight <==> Some(k) in p.workers)
  }

  lemma {:induction false} PushAllBounded(queue: seq<string>, keys: seq<string>)
    requires |queue| <= QUEUE_SIZE
    ensures |PushAll(queue, keys)| <= QUEUE_SIZE
    ensures queue <= PushAll(queue, keys)
    ensures |queue| + |keys| <= QUEUE_SIZE ==> PushAll(queue, keys) == queue + keys
    decreases |keys|
  {
    if |keys| > 0 {
      PushAllBounded(Push(queue, keys[0]), keys[1..]);
      assert queue + [keys[0]] + keys[1..] == queue + keys;
    }
  }

  /** All keys are enqueued in order, as many as fit. */
  lemma {:induction false} PushAllExactly(queue: seq<string>, keys: seq<string>)
    requires |queue| <= 256
    ensures PushAll(queue, keys) == queue + keys[..if |queue| + |keys| <= 256 then |keys| else 256 - |queue|]
    decreases |keys|
  {
    if |keys| > 0 {
      PushAllExactly(Push(queue, keys[0]), keys[1..]);
      assert keys == [keys[0]] + keys[1..];
      if |queue| < 256 {
        var n := if |queue| + |keys| <= 256 then |keys| else 256 - |queue|;
        assert keys[..n] == [keys[0]] + keys[1..][..n - 1];
      }
    }
  }

  lemma ExclusiveKept(p: Pool, op: Op)
    requires Exclusive(p) && Enabled(p, op)
    ensures Exclusive(Apply(p, op))
  {
    var s := Apply(p, op);
    match op
    case Enqueue(_) =>
    case EnqueueAll(keys) => PushAllBounded([], keys);
    case Take(w) =>
      assert forall i | 0 <= i < |p.workers| && p.workers[i].Some? :: p.workers[i].value in p.inFlight;
      assert forall k ::
          Some(k) in s.workers <==> (Some(k) in p.workers || (s != p.(queue := p.queue[1..]) && k == p.queue[0])) by {
        if s.workers != p.workers {
          WorkerSet(p.workers, w, Some(p.queue[0]));
        }
      }
    case Done(w) =>
      WorkerSet(p.workers, w, None);
      forall k
        ensures k in s.inFlight <==> Some(k) in s.workers
      {
        if Some(k) in s.workers {
          var i :| 0 <= i < |s.workers| && s.workers[i] == Some(k);
          assert p.workers[i] == Some(k) && i != w;
        }
      }
  }

  lemma WorkerSet(ws: seq<Option<string>>, w: nat, x: Option<string>)
    requires w < |ws|
    ensures x in ws[w := x]
    ensures forall y :: y in ws && y != ws[w] ==> y in ws[w := x]
    ensures forall y :: y in ws[w := x] ==> y in ws || y == x
  {
    assert ws[w := x][w] == x;
    forall y | y in ws && y != ws[w]
      ensures y in ws[w := x]
    {
      var i :| 0 <= i < |ws| && ws[i] == y;
      assert ws[w := x][i] == y;
    }
  }

  ghost predicate StepAt(tr: seq<Pool>, ops: seq<Op>, i: nat)
    requires i < |ops| && |tr| == |ops| + 1
  {
    Enabled(tr[i], ops[i]) && tr[i + 1] == Apply(tr[i], ops[i])
  }

  /** In every reachable state each key is reconciled by at most one of the three workers. */
  lemma {:induction false} OneReconcilePerKey(tr: seq<Pool>, ops: seq<Op>, n: nat)
    requires |tr| == |ops| + 1 && tr[0] == START && n <= |ops|
    requires forall i | 0 <= i < |ops| :: StepAt(tr, ops, i)
    ensures Exclusive(tr[n])
  {
    if n > 0 {
      OneReconcilePerKey(tr, ops, n - 1);
      assert StepAt(tr, ops, n - 1);
      ExclusiveKept(tr[n - 1], ops[n - 1]);
    }
  }

  // ----- The controller

  /** What reconcileArchiveStatus does first: give up as cancelled, nothing, save the pending result again, or scan. */
  datatype Decision = Cancelled | Skip | SaveAgain(status: A.Status) | ScanNow

  class BackupConfigStatusController {
    const archiveInterval: nat
    var archiveChecks: map<string, A.Entry>
    var queue: seq<string>
    var workers: seq<Option<string>>  // the key each worker goroutine has in hand
    var inFlight: set<string>

    constructor (archiveInterval: nat)
      ensures this.archiveInterval == archiveInterval
      ensures archiveChecks == map[] && Model() == START
    {
      this.archiveInterval := archiveInterval;
      archiveChecks, queue, workers, inFlight := map[], [], [None, None, None], {};
    }

    function Model(): Pool
      reads this
    {
      Pool(queue, workers, inFlight)
    }

    /** The cache entry the archive state machine of one key works with. */
    function EntryOf(key: string): Option<A.Entry>
      reads this
    {
      if key in archiveChecks then Some(archiveChecks[key]) else None
    }

    method EnqueueStatusUpdate(key: string)
      requires Exclusive(Model())
      modifies this`queue
      ensures Exclusive(Model()) && Model() == Apply(old(Model()), Enqueue(key))
      ensures queue == if |old(queue)| < 256 then old(queue) + [key] else old(queue)
    {
      ExclusiveKept(Model(), Enqueue(key));
      if |queue| < QUEUE_SIZE {
        queue := queue + [key];
      }
    }

    /**
     Prunes exactly the entries of keys that no longer exist, then enqueues all keys unless some still wait. `listing`
     is None when the BackupConfigs cannot be listed; then nothing happens.
     */
    method EnqueueAllStatuses(listing: Option<seq<string>>)
      requires Exclusive(Model())
      modifies this`queue, this`archiveChecks
      ensures listing.None? ==> archiveChecks == old(archiveChecks) && Model() == old(Model())
      ensures listing.Some? ==>
                && archiveChecks == (map k | k in old(archiveChecks) && k in listing.value :: old(archiveChecks)[k])
                && Model() == Apply(old(Model()), EnqueueAll(listing.value))
                && (old(queue) != [] ==> queue == old(queue))
                && (old(queue) == [] ==>
                      queue == listing.value[..if |listing.value| <= 256 then |listing.value| else 256])
      ensures Exclusive(Model())
    {
      if listing.None? {
        return;
      }
      var listed := listing.value;
      PushAllExactly([], listed);
      ExclusiveKept(Model(), EnqueueAll(listed));
      Prune(listed);
      if |queue| > 0 {
        return;
      }
      for i := 0 to |listed|
        invariant PushAll(queue, listed[i..]) == PushAll([], listed)
        invariant workers == old(workers) && inFlight == old(inFlight)
        invariant archiveChecks == map k | k in old(archiveChecks) && k in listed :: old(archiveChecks)[k]
      {
        assert listed[i..][1..] == listed[i + 1..];
        if |queue| < QUEUE_SIZE {
          queue := queue + [listed[i]];
        }
      }
      assert listed[|listed|..] == [];
    }

    method Prune(listed: seq<string>)
      modifies this`archiveChecks
      ensures archiveChecks == map k | k in old(archiveChecks) && k in listed :: old(archiveChecks)[k]
    {
      var keys := archiveChecks.Keys;
      while keys != {}
        invariant keys <= old(archiveChecks).Keys
        invariant archiveChecks == map k | k in old(archiveChecks) && (k in keys || k in listed) ::
            old(archiveChecks)[k]
      {
        var key :| key in keys;
        if key !in listed {
          archiveChecks := map k | k in archiveChecks && k != key :: archiveChecks[k];
        }
        keys := keys - {key};
      }
    }

    /** An idle worker takes the next key; a key another worker has in hand is dropped. */
    method TakeNext(w: nat) returns (key: string, ok: bool)
      requires Exclusive(Model()) && w < |workers| && workers[w].None? && |queue| > 0
      modifies this`queue, this`inFlight, this`workers
      ensures Exclusive(Model()) && Model() == Apply(old(Model()), Take(w))
      ensures key == old(queue)[0] && queue == old(queue)[1..]
      ensures ok <==> Some(key) !in old(workers)
      ensures workers == if ok then old(workers)[w := Some(key)] else old(workers)
      ensures inFlight == old(inFlight) + {key}
    {
      ExclusiveKept(Model(), Take(w));
      key := queue[0];
      queue := queue[1..];
      ok := TryAcquire(w, key);
    }

    method TryAcquire(w: nat, key: string) returns (ok: bool)
      requires Exclusive(Model()) && w < |workers| && workers[w].None?
      modifies this`inFlight, this`workers
      ensures ok <==> Some(key) !in old(workers)
      ensures inFlight == old(inFlight) + {key}
      ensures workers == if ok then old(workers)[w := Some(key)] else old(workers)
      ensures Exclusive(Model())
    {
      ghost var p := Pool([key], workers, inFlight);
      ExclusiveKept(p, Take(w));
      ok := key !in inFlight;
      if ok {
        inFlight := inFlight + {key};
        workers := workers[w := Some(key)];
      }
    }

    method Release(w: nat)
      requires Exclusive(Model()) && w < |workers| && workers[w].Some?
      modifies this`inFlight, this`workers
      ensures Exclusive(Model()) && Model() == Apply(old(Model()), Done(w))
      ensures inFlight == old(inFlight) - {old(workers)[w].value} && workers == old(workers)[w := None]
    {
      ExclusiveKept(Model(), Done(w));
      inFlight := inFlight - {workers[w].value};
      workers := workers[w := None];
    }

    /** Takes the branch the archive state machine takes on StartArchive. */
    method StartArchive(key: string, fp: A.Fingerprint, now: int, cancelled: bool) returns (d: Decision)
      ensures d.Cancelled? <==> cancelled
      ensures d.ScanNow? <==> !cancelled && !(A.Matches(EntryOf(key), fp) && now < archiveChecks[key].nextCheck)
      ensures d.SaveAgain? ==> archiveChecks[key].pending == Some(d.status)
      ensures d.Skip? ==> archiveChecks[key].pending.None?
      ensures forall s: A.State, s': A.State |
                s.entry == EntryOf(key) && s.now == now && s.pc.Checking? && s.pc.fp == fp
                && A.Next(archiveInterval, s, if cancelled then A.Event.Abort else A.Event.StartArchive, s') ::
                match d
                case Cancelled => s'.pc == A.Idle && s'.entry == s.entry
                case Skip => s'.pc == A.Idle
                case SaveAgain(st) => s'.pc.Saving? && s'.pc.mem.status == st
                case ScanNow => s'.pc.Scanning? && s'.pc.start == now
    {
      if cancelled {
        return Cancelled;
      }
      if key in archiveChecks && archiveChecks[key].fp == fp && now < archiveChecks[key].nextCheck {
        if archiveChecks[key].pending.Some? {
          return SaveAgain(archiveChecks[key].pending.value);
        }
        return Skip;
      }
      return ScanNow;
    }

    /** The deferred store at the end of a scan, however it ended. */
    method RecordScan(key: string, fp: A.Fingerprint, now: int, pending: Option<A.Status>, scan: nat)
      modifies this`archiveChecks
      ensures EntryOf(key) == Some(A.Entry(fp, now + archiveInterval, pending, scan))
      ensures forall k | k != key :: EntryOf(k) == old(EntryOf(k))
    {
      archiveChecks := archiveChecks[key := A.Entry(fp, now + archiveInterval, pending, scan)];
    }
  }

  // ----- The archive scan

  datatype Timeline = Timeline(ok: bool, missingSegments: bool, starts: seq<Option<int>>)

  predicate Sound(t: Timeline) {
    t.ok && !t.missingSegments
  }

  /** The timelines `wal-g wal-show` reported, over all versions it did not fail for. */
  function Reported(shown: seq<Option<seq<Timeline>>>): seq<Timeline> {
    if |shown| == 0 then []
    else Reported(shown[..|shown| - 1]) + if shown[|shown| - 1].Some? then shown[|shown| - 1].value else []
  }

  lemma {:induction false} ReportedExactly(shown: seq<Option<seq<Timeline>>>)
    ensures forall t :: t in Reported(shown) <==> exists i :: 0 <= i < |shown| && shown[i].Some? && t in shown[i].value
  {
    if |shown| > 0 {
      var n := |shown| - 1;
      ReportedExactly(shown[..n]);
      forall t
        ensures t in Reported(shown) <==> exists i :: 0 <= i < |shown| && shown[i].Some? && t in shown[i].value
      {
        if t in Reported(shown[..n]) {
          var i :| 0 <= i < n && shown[..n][i].Some? && t in shown[..n][i].value;
          assert shown[i].Some? && t in shown[i].value;
        }
        if i :| 0 <= i < n && shown[i].Some? && t in shown[i].value {
          assert shown[..n][i].Some? && t in shown[..n][i].value;
        }
      }
    }
  }

  /** Every timeline of every version that was shown is OK and has no missing segments. */
  ghost predicate AllShownSound(shown: seq<Option<seq<Timeline>>>) {
    forall i | 0 <= i < |shown| && shown[i].Some? :: forall t | t in shown[i].value :: t.ok && !t.missingSegments
  }

  lemma SoundIfAllShown(shown: seq<Option<seq<Timeline>>>)
    ensures AllShownSound(shown) <==> forall t | t in Reported(shown) :: Sound(t)
  {
    ReportedExactly(shown);
    if forall t | t in Reported(shown) :: Sound(t) {
      forall i, t | 0 <= i < |shown| && shown[i].Some? && t in shown[i].value
        ensures t.ok && !t.missingSegments
      {
        assert t in Reported(shown) && Sound(t);
      }
    }
  }

  /** The least of the start times that parse. */
  ghost predicate IsEarliest(timelines: seq<Timeline>, r: Option<int>) {
    && (forall t, s | t in timelines && s in t.starts && s.Some? :: r.Some? && r.value <= s.value)
    && (r.Some? ==> exists t :: t in timelines && r in t.starts)
  }

  /**
   `shown[i]` is wal-show's answer for the i-th version: an error is skipped, and so does not fail the check. The
   first recoverability point stays as it was when no start time parses.
   */
  method ReconcileWALStatus(shown: seq<Option<seq<Timeline>>>, firstBefore: Option<int>)
    returns (verdict: CondStatus, first: Option<int>, ghost earliest: Option<int>)
    ensures verdict == CondTrue || verdict == CondFalse
    ensures verdict == CondTrue <==> AllShownSound(shown)
    ensures IsEarliest(Reported(shown), earliest)
    ensures first == if earliest.Some? then earliest else firstBefore
  {
    var allTimelinesOK, hasMissingSegments := true, false;
    var earliestBackupTime: Option<int> := None;
    for i := 0 to |shown|
      invariant (allTimelinesOK && !hasMissingSegments) <==> forall t | t in Reported(shown[..i]) :: Sound(t)
      invariant IsEarliest(Reported(shown[..i]), earliestBackupTime)
    {
      assert shown[..i + 1][..i] == shown[..i];
      ghost var before := Reported(shown[..i]);
      if shown[i].None? {
        assert Reported(shown[..i + 1]) == before;
        continue;
      }
      var timelines := shown[i].value;
      for j := 0 to |timelines|
        invariant (allTimelinesOK && !hasMissingSegments) <==> forall t | t in before + timelines[..j] :: Sound(t)
        invariant IsEarliest(before + timelines[..j], earliestBackupTime)
      {
        assert before + timelines[..j + 1] == (before + timelines[..j]) + [timelines[j]];
        assert timelines[j] in before + timelines[..j + 1];
        if !timelines[j].ok {
          allTimelinesOK := false;
        }
        if timelines[j].missingSegments {
          hasMissingSegments := true;
        }
        earliestBackupTime := EarlierOf(before + timelines[..j], timelines[j], earliestBackupTime);
      }
      assert timelines[..|timelines|] == timelines;
      assert Reported(shown[..i + 1]) == before + timelines;
    }
    assert shown[..|shown|] == shown;
    SoundIfAllShown(shown);
    earliest := earliestBackupTime;
    first := if earliestBackupTime.Some? then earliestBackupTime else firstBefore;
    verdict := if allTimelinesOK && !hasMissingSegments then CondTrue else CondFalse;
  }

  method EarlierOf(ghost seen: seq<Timeline>, t: Timeline, earliest0: Option<int>) returns (earliest: Option<int>)
    requires IsEarliest(seen, earliest0)
    ensures IsEarliest(seen + [t], earliest)
  {
    earliest := earliest0;
    for k := 0 to |t.starts|
      invariant forall u, s | u in seen && s in u.starts && s.Some? :: earliest.Some? && earliest.value <= s.value
      invariant forall s | s in t.starts[..k] && s.Some? :: earliest.Some? && earliest.value <= s.value
      invariant earliest.Some? ==> earliest in t.starts || exists u :: u in seen && earliest in u.starts
    {
      assert t.starts[..k + 1] == t.starts[..k] + [t.starts[k]];
      var start := t.starts[k];
      if start.Some? && (earliest.None? || start.value < earliest.value) {
        earliest := start;
      }
    }
    assert t.starts[..|t.starts|] == t.starts;
    assert t in seen + [t];
  }

  // ----- Which PostgreSQL versions are scanned

  const MIN_PG := 11
  const MAX_PG := 19

  function AllVersions(): seq<int> {
    seq(MAX_PG - MIN_PG + 1, i => MIN_PG + i)
  }

  lemma AllVersionsListed()
    ensures Ascending(AllVersions())
    ensures forall v :: v in AllVersions() <==> MIN_PG <= v <= MAX_PG
  {
    forall v | MIN_PG <= v <= MAX_PG
      ensures v in AllVersions()
    {
      assert AllVersions()[v - MIN_PG] == v;
    }
  }

  predicate Known(v: Option<int>) {
    v.Some? && MIN_PG <= v.value <= MAX_PG
  }

  ghost predicate Ascending(vs: seq<int>) {
    forall i, j | 0 <= i < j < |vs| :: vs[i] < vs[j]
  }

  /**
   `labels` are the version labels of the owned Backups, None when they cannot be listed. Only their
   versions are scanned, once each and in order, if all of them are known, there is one at all, and
   archives do not outlive their Backups; otherwise every known version is.
   */
  method ResolvePGVersions(ignoreForBackupDeletion: bool, labels: Option<seq<Option<int>>>) returns (versions: seq<int>)
    ensures Ascending(versions) && |versions| > 0
    ensures if !ignoreForBackupDeletion && labels.Some? && |labels.value| > 0
               && forall v | v in labels.value :: v.Some? && 11 <= v.value <= 19
            then forall v :: v in versions <==> Some(v) in labels.value
            else forall v :: v in versions <==> 11 <= v <= 19
  {
    AllVersionsListed();
    if ignoreForBackupDeletion || labels.None? {
      return AllVersions();
    }
    var found: set<int> := {};
    for i := 0 to |labels.value|
      invariant forall j | 0 <= j < i :: Known(labels.value[j])
      invariant forall v :: v in found <==> Some(v) in labels.value[..i]
      invariant found == {} <==> i == 0
    {
      assert labels.value[..i + 1] == labels.value[..i] + [labels.value[i]];
      if !Known(labels.value[i]) {
        return AllVersions();
      }
      found := found + {labels.value[i].value};
    }
    assert labels.value[..|labels.value|] == labels.value;
    if found == {} {
      return AllVersions();
    }
    versions := [];
    for v := MIN_PG to MAX_PG + 1
      invariant Ascending(versions)
      invariant forall x :: x in versions <==> x in found && x < v
    {
      if v in found {
        assert forall k | 0 <= k < |versions| :: versions[k] in versions;
        versions := versions + [v];
      }
    }
    assert forall v | v in found :: Known(Some(v));
    ghost var some :| some in found;
    assert some in versions;
  }
}
