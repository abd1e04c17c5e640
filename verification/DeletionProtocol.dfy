/**
 The deletion protocol of one BackupConfig as a state machine over the API server, the wal-g
 storage, the Backup reconciler (one reconcile in flight) and the deletion queue's processor.

 Every read and every write of the reconciler and of the processor is a step of its own, so marks,
 completions and pushes fall anywhere between them. The config is present and
 IgnoreForBackupDeletion is false.
 */
module DeletionProtocol {
  import opened Text
  import opened Dependency

  type Name = string

  datatype Backup = Backup(
    id: string,             // status.backupID, "" while the backup is not complete
    owned: bool,            // has the owner reference to the BackupConfig
    deleting: bool,         // metadata.deletionTimestamp is set
    finalizer: bool,        // carries the plugin's cleanup finalizer
    annotated: bool,        // labels and annotations have been written
    dependents: set<Name>)  // the all-dependents annotation

  /** A computed annotation that has not been sent to the API server yet. */
  datatype Patch = Patch(target: Name, dependents: set<Name>)

  /** A reconcile in flight: what it saw when it read its Backup, and whether it patched it. */
  datatype Task = Task(name: Name, sawDeleting: bool, selfDone: bool, patch: Option<Patch>)

  /** The queue processor: idle, past all checks of a Backup, or done with its physical deletion. */
  datatype Worker = Idle | Cleared(name: Name, id: string) | Wiped(name: Name, id: string)

  datatype State = State(
    api: map<Name, Backup>,
    names: set<Name>,      // names ever used
    storage: set<string>,  // physical backups
    pushed: set<string>,   // physical backups ever pushed
    task: Option<Task>,
    queue: seq<Name>,
    worker: Worker)

  const INIT := State(map[], {}, {}, {}, None, [], Idle)
  const QUEUE_SIZE := 128

  datatype Event =
    | Create(n: Name)
    | Push(id: string)
    | Complete(n: Name, id: string)
    | MarkDeleting(n: Name)
    | BeginReconcile(n: Name)
    | SetOwner
    | ListDependents(n: Name)
    | WritePatch
    | AddFinalizer
    | Enqueue
    | EndReconcile
    | Dequeue
    | Wipe
    | WipePartly(left: set<string>)
    | SkipStorage
    | RemoveFinalizer
    | GiveUp

  /** Listed as owned by the config and carrying a wal-g id. */
  predicate Visible(b: Backup) {
    b.owned && b.id != ""
  }

  predicate Live(b: Backup) {
    Visible(b) && !b.deleting
  }

  function OwnedIds(api: map<Name, Backup>): set<string> {
    set n | n in api && api[n].owned :: api[n].id
  }

  /** What the all-dependents annotation is computed to be: closure over all owned Backups, then the filter. */
  ghost function AllDependents(api: map<Name, Backup>, n: Name): set<Name>
    requires n in api
  {
    if api[n].id == "" then {}
    else set c | c in api && api[c].owned && !api[c].deleting && DependsOn(OwnedIds(api), api[n].id, api[c].id)
  }

  ghost function BuiltOn(storage: set<string>, id: string): set<string> {
    set x | x in storage && (x == id || DependsOn(storage, id, x))
  }

  /** What a successful `wal-g delete target` leaves: the backup goes with everything built on it. */
  ghost function AfterDelete(storage: set<string>, id: string): set<string> {
    if id in storage then storage - BuiltOn(storage, id) else storage
  }

  /** Taking the finalizer off lets a Backup that is marked for deletion go. */
  function WithoutFinalizer(api: map<Name, Backup>, n: Name): map<Name, Backup>
    requires n in api
  {
    if api[n].deleting then map m | m in api && m != n :: api[m] else api[n := api[n].(finalizer := false)]
  }

  ghost predicate Next(s: State, e: Event, s': State) {
    match e
    case Create(n) =>
      && n !in s.names
      && s' == s.(api := s.api[n := Backup("", false, false, false, false, {})], names := s.names + {n})
    case Push(id) =>
      // A delta is taken on a backup that is already there.
      && id != "" && id !in s.pushed && (forall y | y in s.pushed :: !IsDirectDependent(y, id))
      && s' == s.(storage := s.storage + {id}, pushed := s.pushed + {id})
    case Complete(n, id) =>
      && n in s.api && s.api[n].id == "" && id in s.pushed && (forall m | m in s.api :: s.api[m].id != id)
      && s' == s.(api := s.api[n := s.api[n].(id := id)])
    case MarkDeleting(n) =>
      && n in s.api
      && s' == s.(api := if s.api[n].finalizer then s.api[n := s.api[n].(deleting := true)]
                         else map m | m in s.api && m != n :: s.api[m])
    case BeginReconcile(n) =>
      && s.task.None? && n in s.api
      && s' == s.(task := Some(Task(n, s.api[n].deleting, false, None)))
    case SetOwner =>
      && s.task.Some? && !s.task.value.sawDeleting
      && var n := s.task.value.name;
         n in s.api && !s.api[n].deleting && s' == s.(api := s.api[n := s.api[n].(owned := true)])
    case ListDependents(n) =>
      && s.task.Some? && s.task.value.patch.None? && (n == s.task.value.name || s.task.value.selfDone)
      && n in s.api
      && s' == s.(task := Some(s.task.value.(patch := Some(Patch(n, AllDependents(s.api, n))))))
    case WritePatch =>
      && s.task.Some? && s.task.value.patch.Some?
      && var t, p := s.task.value, s.task.value.patch.value;
         s' == if p.target in s.api
               then s.(api := s.api[p.target := s.api[p.target].(annotated := true, dependents := p.dependents)],
                       task := Some(t.(patch := None, selfDone := t.selfDone || p.target == t.name)))
               else s.(task := Some(t.(patch := None)))
    case AddFinalizer =>
      && s.task.Some? && !s.task.value.sawDeleting && s.task.value.selfDone
      && var n := s.task.value.name;
         n in s.api && !s.api[n].deleting && s' == s.(api := s.api[n := s.api[n].(finalizer := true)])
    case Enqueue =>
      && s.task.Some? && s.task.value.sawDeleting && s.task.value.selfDone && s.task.value.patch.None?
      && |s.queue| < QUEUE_SIZE
      && s' == s.(queue := s.queue + [s.task.value.name], task := None)
    case EndReconcile =>
      s.task.Some? && s' == s.(task := None)
    case Dequeue =>
      && s.worker == Idle && |s.queue| > 0
      && var n := s.queue[0];
         s' == s.(queue := s.queue[1..], worker :=
                  if n in s.api && s.api[n].annotated && s.api[n].dependents == {} && s.api[n].finalizer
                  then Cleared(n, s.api[n].id) else Idle)
    case Wipe =>
      && s.worker.Cleared? && s.worker.id != ""
      && s' == s.(storage := AfterDelete(s.storage, s.worker.id), worker := Wiped(s.worker.name, s.worker.id))
    case WipePartly(left) =>
      && s.worker.Cleared? && s.worker.id != ""
      && s.storage - BuiltOn(s.storage, s.worker.id) <= left <= s.storage
      && s' == s.(storage := left, worker := Idle)
    case SkipStorage =>
      // The StorageWritable condition is False: the finalizer goes, the physical backup stays.
      && s.worker.Cleared? && s.worker.id != ""
      && s.worker.name in s.api && s.api[s.worker.name].id == s.worker.id
      && s' == s.(api := WithoutFinalizer(s.api, s.worker.name), worker := Idle)
    case RemoveFinalizer =>
      // The update is refused when the Backup was completed since it was read.
      && (s.worker.Wiped? || (s.worker.Cleared? && s.worker.id == ""))
      && s.worker.name in s.api && s.api[s.worker.name].id == s.worker.id
      && s' == s.(api := WithoutFinalizer(s.api, s.worker.name), worker := Idle)
    case GiveUp =>
      s' == s.(worker := Idle)
  }

  // ----- What the environment has to promise

  /** `x` belongs to a Backup of the config that nobody wants to delete, and is in storage. */
  ghost predicate HeldLive(s: State, x: string) {
    x in s.storage && exists a :: a in s.api && Live(s.api[a]) && s.api[a].id == x
  }

  /** The chain under a physical backup is complete, and no part of it is marked for deletion. */
  ghost predicate AppearOk(s: State, id: string) {
    id in s.storage && forall x | x in s.pushed && DependsOn(s.pushed, x, id) :: HeldLive(s, x)
  }

  /**
   Backups carry the finalizer before they are marked, and a Backup only becomes visible (owned,
   with its id) on a chain that holds no Backup marked for deletion.
   */
  ghost predicate Admissible(s: State, e: Event) {
    match e
    case MarkDeleting(n) => n in s.api && Visible(s.api[n]) ==> s.api[n].finalizer
    case Complete(n, id) => n in s.api && s.api[n].owned && !s.api[n].deleting ==> AppearOk(s, id)
    case SetOwner => s.task.Some? && s.task.value.name in s.api && s.api[s.task.value.name].id != ""
                     ==> AppearOk(s, s.api[s.task.value.name].id)
    case _ => true
  }

  // ----- The safety property

  ghost predicate Held(api: map<Name, Backup>, x: string) {
    exists a :: a in api && api[a].owned && api[a].id == x
  }

  ghost predicate ChainKept(api: map<Name, Backup>, storage: set<string>, pushed: set<string>, id: string) {
    && id in storage
    && forall x | x in pushed && DependsOn(pushed, x, id) :: x in storage && Held(api, x)
  }

  /** Every Backup not marked for deletion has its whole chain, as Backup resources and in storage. */
  ghost predicate Safe(api: map<Name, Backup>, storage: set<string>, pushed: set<string>) {
    forall b | b in api && Live(api[b]) :: ChainKept(api, storage, pushed, api[b].id)
  }

  // ----- Invariants that need no promise

  ghost predicate IdsOk(api: map<Name, Backup>, names: set<Name>, storage: set<string>, pushed: set<string>) {
    && storage <= pushed && "" !in pushed
    && (forall n | n in api :: n in names && (api[n].id == "" || api[n].id in pushed))
    && (forall m, n | m in api && n in api && m != n && api[m].id == api[n].id :: api[m].id == "")
  }

  ghost predicate Doomed(api: map<Name, Backup>, names: set<Name>, n: Name) {
    n in names && (n in api ==> api[n].deleting)
  }

  ghost predicate WorkerOk(s: State) {
    s.worker.Idle? || (
      && s.worker.name in s.api && s.api[s.worker.name].deleting && s.api[s.worker.name].finalizer
      && (s.worker.id != "" ==> s.api[s.worker.name].id == s.worker.id)
      && (s.worker.Wiped? ==> s.worker.id != "" && s.worker.id in s.pushed && s.worker.id !in s.storage))
  }

  ghost predicate Basic(s: State) {
    && IdsOk(s.api, s.names, s.storage, s.pushed)
    && (forall n | n in s.queue :: Doomed(s.api, s.names, n))
    && (s.task.Some? ==> s.task.value.name in s.names)
    && (s.task.Some? && s.task.value.sawDeleting ==> Doomed(s.api, s.names, s.task.value.name))
    && (s.task.Some? && s.task.value.patch.Some? ==> s.task.value.patch.value.target in s.names)
    && WorkerOk(s)
  }

  // ----- Invariants that do

  /** `cover` names every live Backup built on `n`. */
  ghost predicate Shielded(api: map<Name, Backup>, pushed: set<string>, n: Name, cover: set<Name>) {
    n in api && api[n].id != "" ==>
      forall b | b in api && Live(api[b]) && DependsOn(pushed, api[n].id, api[b].id) :: b in cover
  }

  ghost predicate AnnotationCovers(api: map<Name, Backup>, pushed: set<string>, n: Name) {
    n in api ==> Shielded(api, pushed, n, api[n].dependents)
  }

  ghost predicate TaskCovers(s: State) {
    s.task.Some? ==>
      var t := s.task.value;
      && (t.sawDeleting && t.selfDone ==> AnnotationCovers(s.api, s.pushed, t.name))
      && (t.patch.Some? && (t.patch.value.target in s.queue || (t.sawDeleting && t.patch.value.target == t.name))
          ==> Shielded(s.api, s.pushed, t.patch.value.target, t.patch.value.dependents))
  }

  ghost predicate Inv(s: State) {
    && Basic(s)
    && Safe(s.api, s.storage, s.pushed)
    && (forall n | n in s.queue :: AnnotationCovers(s.api, s.pushed, n))
    && TaskCovers(s)
    && (!s.worker.Idle? && s.worker.id != "" ==> Shielded(s.api, s.pushed, s.worker.name, {}))
  }

  // ----- Basic is preserved by every step

  predicate ChangesApi(e: Event) {
    e.Create? || e.Complete? || e.MarkDeleting? || e.SetOwner? || e.WritePatch? || e.AddFinalizer?
    || e.SkipStorage? || e.RemoveFinalizer?
  }

  lemma BasicQuiet(s: State, e: Event, s': State)
    requires Basic(s) && Next(s, e, s') && !ChangesApi(e)
    ensures Basic(s')
  {
    hide DependsOn, IsDirectDependent;
    assert e.Dequeue? ==> s.queue[0] in s.queue;
  }

  lemma BasicRemoval(s: State, e: Event, s': State)
    requires Basic(s) && Next(s, e, s') && (e.MarkDeleting? || e.SkipStorage? || e.RemoveFinalizer?)
    ensures Basic(s')
  {
    hide DependsOn, IsDirectDependent;
  }

  lemma BasicNaming(s: State, e: Event, s': State)
    requires Basic(s) && Next(s, e, s') && (e.Create? || e.Complete?)
    ensures Basic(s')
  {
    hide DependsOn, IsDirectDependent;
  }

  lemma BasicSetOwner(s: State, e: Event, s': State)
    requires Basic(s) && Next(s, e, s') && e.SetOwner?
    ensures Basic(s')
  {
    hide DependsOn, IsDirectDependent;
  }

  lemma BasicAddFinalizer(s: State, e: Event, s': State)
    requires Basic(s) && Next(s, e, s') && e.AddFinalizer?
    ensures Basic(s')
  {
    hide DependsOn, IsDirectDependent;
  }

  lemma BasicWritePatch(s: State, e: Event, s': State)
    requires Basic(s) && Next(s, e, s') && e.WritePatch?
    ensures Basic(s')
  {
    hide DependsOn, IsDirectDependent;
  }

  lemma BasicPreserved(s: State, e: Event, s': State)
    requires Basic(s) && Next(s, e, s')
    ensures Basic(s')
  {
    hide Basic, Next;
    match e
    case Create(_) => BasicNaming(s, e, s');
    case Complete(_, _) => BasicNaming(s, e, s');
    case SetOwner => BasicSetOwner(s, e, s');
    case AddFinalizer => BasicAddFinalizer(s, e, s');
    case WritePatch => BasicWritePatch(s, e, s');
    case MarkDeleting(_) => BasicRemoval(s, e, s');
    case SkipStorage => BasicRemoval(s, e, s');
    case RemoveFinalizer => BasicRemoval(s, e, s');
    case _ => BasicQuiet(s, e, s');
  }

  // ----- How the API objects and the physical backups evolve in one step

  /** Ids are set once, marks are not taken back, and a Backup only becomes live as AppearOk allows. */
  ghost predicate Evolves(s: State, s': State, n: Name) {
    n in s'.api && n in s.names ==>
      && n in s.api
      && (s.api[n].id == "" || s'.api[n].id == s.api[n].id)
      && (s.api[n].deleting ==> s'.api[n].deleting)
      && (Live(s'.api[n]) && !Live(s.api[n]) ==> AppearOk(s, s'.api[n].id) && s'.pushed == s.pushed)
      && (s'.api[n].id != s.api[n].id ==>
            s'.api[n].id in s.pushed && s'.pushed == s.pushed && !Held(s.api, s'.api[n].id))
  }

  lemma StepEvolves(s: State, e: Event, s': State, n: Name)
    requires Basic(s) && Next(s, e, s') && Admissible(s, e)
    ensures Evolves(s, s', n)
    ensures n in s'.api && n !in s.names ==> s'.api[n].id == ""
  {
    hide DependsOn, IsDirectDependent, AppearOk;
  }

  lemma PushedGrows(s: State, e: Event, s': State, root: string, name: string)
    requires Next(s, e, s') && name in s.pushed
    ensures s.pushed <= s'.pushed
    ensures DependsOn(s'.pushed, root, name) ==> DependsOn(s.pushed, root, name)
    ensures DependsOn(s'.pushed, root, name) && root in s'.pushed ==> root in s.pushed
  {
    hide DependsOn, IsDirectDependent;
    if e.Push? && DependsOn(s'.pushed, root, name) {
      NewLeaf(s.pushed, e.id, root, name);
    }
  }

  /** Whoever is live after a step was live before it under the same id, or has just appeared. */
  lemma LiveComesFrom(s: State, e: Event, s': State, b: Name)
    requires Basic(s) && Next(s, e, s') && Admissible(s, e)
    requires b in s'.api && Live(s'.api[b])
    ensures s'.api[b].id in s.pushed && s'.api[b].id != ""
    ensures (b in s.api && Live(s.api[b]) && s.api[b].id == s'.api[b].id)
            || (AppearOk(s, s'.api[b].id) && s'.pushed == s.pushed)
  {
    hide DependsOn, IsDirectDependent, AppearOk, Next, Admissible;
    StepEvolves(s, e, s', b);
  }

  /** A cover of the live dependents of a Backup marked for deletion stays one. */
  lemma ShieldKept(s: State, e: Event, s': State, n: Name, cover: set<Name>)
    requires Basic(s) && Safe(s.api, s.storage, s.pushed) && Next(s, e, s') && Admissible(s, e)
    requires n in s.api && s.api[n].deleting && Shielded(s.api, s.pushed, n, cover)
    ensures Shielded(s'.api, s'.pushed, n, cover)
  {
    hide DependsOn, IsDirectDependent, Next, Admissible;
    if n in s'.api && s'.api[n].id != "" {
      StepEvolves(s, e, s', n);
      forall b | b in s'.api && Live(s'.api[b]) && DependsOn(s'.pushed, s'.api[n].id, s'.api[b].id)
        ensures b in cover
      {
        var x, y := s'.api[n].id, s'.api[b].id;
        LiveComesFrom(s, e, s', b);
        PushedGrows(s, e, s', x, y);
        assert b in s.api && Live(s.api[b]) && s.api[b].id == y ==> ChainKept(s.api, s.storage, s.pushed, y);
      }
    }
  }

  // ----- Safety is preserved

  /** The computed annotation covers every live dependent, whatever is being deleted in between. */
  lemma ListCovers(s: State, n: Name)
    requires Basic(s) && Safe(s.api, s.storage, s.pushed) && n in s.api
    ensures Shielded(s.api, s.pushed, n, AllDependents(s.api, n))
  {
    hide DependsOn, IsDirectDependent;
    if s.api[n].id != "" {
      forall b | b in s.api && Live(s.api[b]) && DependsOn(s.pushed, s.api[n].id, s.api[b].id)
        ensures b in AllDependents(s.api, n)
      {
        assert ChainKept(s.api, s.storage, s.pushed, s.api[b].id);
        AncestorsSuffice(s.pushed, OwnedIds(s.api), s.api[n].id, s.api[b].id);
      }
    }
  }

  /** Removing a cleared backup from storage hits neither a live backup nor anything it is built on. */
  lemma WipeSpares(s: State, b: Name, x: string)
    requires Basic(s) && s.worker.Cleared? && s.worker.id != ""
    requires Shielded(s.api, s.pushed, s.worker.name, {})
    requires b in s.api && Live(s.api[b])
    requires x == s.api[b].id || DependsOn(s.pushed, x, s.api[b].id)
    ensures x !in BuiltOn(s.storage, s.worker.id)
  {
    hide DependsOn, IsDirectDependent;
    var id := s.worker.id;
    if x in BuiltOn(s.storage, id) {
      if x != id {
        DependsMonotone(s.storage, s.pushed, id, x);
        if x != s.api[b].id {
          DependsTransitively(s.pushed, id, x, s.api[b].id);
        }
      }
    }
  }

  /** What is in storage under a live Backup is still there after the step. */
  lemma StorageKept(s: State, e: Event, s': State, b: Name, x: string)
    requires Inv(s) && Next(s, e, s') && Admissible(s, e)
    requires b in s'.api && Live(s'.api[b])
    requires x in s.storage && (x == s'.api[b].id || DependsOn(s.pushed, x, s'.api[b].id))
    ensures x in s'.storage
  {
    hide DependsOn, IsDirectDependent, AppearOk, Safe, Shielded, TaskCovers;
    if e.Wipe? || e.WipePartly? {
      WipeSpares(s, b, x);
    }
  }

  /** A Backup resource a live one is built on is still there after the step. */
  lemma HolderKept(s: State, e: Event, s': State, b: Name, x: string)
    requires Inv(s) && Next(s, e, s') && Admissible(s, e)
    requires b in s'.api && Live(s'.api[b]) && x in s.pushed && DependsOn(s.pushed, x, s'.api[b].id)
    requires Held(s.api, x)
    ensures Held(s'.api, x)
  {
    hide DependsOn, IsDirectDependent, AppearOk, Safe, TaskCovers;
    var a :| a in s.api && s.api[a].owned && s.api[a].id == x;
    assert x != "";
    assert a in s'.api && s'.api[a].owned && s'.api[a].id == x;
  }

  lemma SafeKept(s: State, e: Event, s': State)
    requires Inv(s) && Next(s, e, s') && Admissible(s, e)
    ensures Safe(s'.api, s'.storage, s'.pushed)
  {
    hide DependsOn, IsDirectDependent, Next, Admissible, Held, Shielded, TaskCovers, Basic;
    forall b | b in s'.api && Live(s'.api[b])
      ensures ChainKept(s'.api, s'.storage, s'.pushed, s'.api[b].id)
    {
      var id := s'.api[b].id;
      LiveComesFrom(s, e, s', b);
      assert ChainKept(s.api, s.storage, s.pushed, id) by {
        if AppearOk(s, id) {
          AppearedIsKept(s, id);
        }
      }
      StorageKept(s, e, s', b, id);
      forall x | x in s'.pushed && DependsOn(s'.pushed, x, id)
        ensures x in s'.storage && Held(s'.api, x)
      {
        PushedGrows(s, e, s', x, id);
        StorageKept(s, e, s', b, x);
        HolderKept(s, e, s', b, x);
      }
    }
  }

  lemma AppearedIsKept(s: State, id: string)
    requires AppearOk(s, id)
    ensures ChainKept(s.api, s.storage, s.pushed, id)
  {
    hide DependsOn, IsDirectDependent;
  }

  // ----- The covers are preserved

  lemma QueueCovers(s: State, e: Event, s': State, n: Name)
    requires Inv(s) && Next(s, e, s') && Admissible(s, e) && n in s'.queue
    ensures AnnotationCovers(s'.api, s'.pushed, n)
  {
    hide DependsOn, IsDirectDependent, AppearOk, Safe, Shielded, AllDependents, AfterDelete, BuiltOn;
    BasicPreserved(s, e, s');
    if n in s'.api {
      assert n in s.api && s.api[n].deleting;
      if e.WritePatch? && s.task.value.patch.value.target == n {
        ShieldKept(s, e, s', n, s.task.value.patch.value.dependents);
      } else {
        assert AnnotationCovers(s.api, s.pushed, n);
        ShieldKept(s, e, s', n, s.api[n].dependents);
      }
    }
  }

  lemma OwnAnnotationCovers(s: State, e: Event, s': State)
    requires Inv(s) && Next(s, e, s') && Admissible(s, e)
    requires s'.task.Some? && s'.task.value.sawDeleting && s'.task.value.selfDone
    ensures AnnotationCovers(s'.api, s'.pushed, s'.task.value.name)
  {
    hide DependsOn, IsDirectDependent, AppearOk, Safe, Shielded;
    var n := s'.task.value.name;
    BasicPreserved(s, e, s');
    if n in s'.api {
      assert n in s.api && s.api[n].deleting;
      if e.WritePatch? && s.task.value.patch.value.target == n {
        ShieldKept(s, e, s', n, s.task.value.patch.value.dependents);
      } else {
        ShieldKept(s, e, s', n, s.api[n].dependents);
      }
    }
  }

  lemma PatchCovers(s: State, e: Event, s': State)
    requires Inv(s) && Next(s, e, s') && Admissible(s, e)
    requires s'.task.Some? && s'.task.value.patch.Some?
    requires s'.task.value.patch.value.target in s'.queue
             || (s'.task.value.sawDeleting && s'.task.value.patch.value.target == s'.task.value.name)
    ensures Shielded(s'.api, s'.pushed, s'.task.value.patch.value.target, s'.task.value.patch.value.dependents)
  {
    hide DependsOn, IsDirectDependent, AppearOk, Safe, AllDependents, AfterDelete, BuiltOn;
    var p := s'.task.value.patch.value;
    if p.target in s'.api {
      if e.ListDependents? {
        ListCovers(s, p.target);
      } else {
        BasicPreserved(s, e, s');
        assert p.target in s.api && s.api[p.target].deleting;
        ShieldKept(s, e, s', p.target, p.dependents);
      }
    }
  }

  lemma WorkerCovers(s: State, e: Event, s': State)
    requires Inv(s) && Next(s, e, s') && Admissible(s, e)
    requires !s'.worker.Idle? && s'.worker.id != ""
    ensures Shielded(s'.api, s'.pushed, s'.worker.name, {})
  {
    hide DependsOn, IsDirectDependent, AppearOk, Safe, TaskCovers;
    var n := s'.worker.name;
    if e.Dequeue? {
      assert n in s.queue;
      assert AnnotationCovers(s.api, s.pushed, n);
    }
    ShieldKept(s, e, s', n, {});
  }

  /**
   A marked Backup that only now completes has no live dependents, and by ShieldKept gets none. So an annotation
   computed from its empty id, read before, covers them too.
   */
  lemma LateIdHasNoDependents(s: State, n: Name, id: string, s': State)
    requires Inv(s) && Next(s, Complete(n, id), s') && s.api[n].deleting
    ensures Shielded(s'.api, s'.pushed, n, {})
  {
    hide DependsOn, IsDirectDependent, TaskCovers, Shielded, Basic;
    forall b | b in s'.api && Live(s'.api[b])
      ensures !DependsOn(s'.pushed, id, s'.api[b].id)
    {
      assert b in s.api && Live(s.api[b]) && s'.api[b] == s.api[b];
      assert ChainKept(s.api, s.storage, s.pushed, s.api[b].id);
      assert !Held(s.api, id);
    }
    NobodyToShield(s'.api, s'.pushed, n);
  }

  lemma NobodyToShield(api: map<Name, Backup>, pushed: set<string>, n: Name)
    requires n in api && forall b | b in api && Live(api[b]) :: !DependsOn(pushed, api[n].id, api[b].id)
    ensures Shielded(api, pushed, n, {})
  {
    hide DependsOn;
  }

  lemma InvPreserved(s: State, e: Event, s': State)
    requires Inv(s) && Next(s, e, s') && Admissible(s, e)
    ensures Inv(s')
  {
    hide DependsOn, IsDirectDependent, Next, Admissible, Basic, Safe, AnnotationCovers, Shielded;
    BasicPreserved(s, e, s');
    SafeKept(s, e, s');
    forall n | n in s'.queue
      ensures AnnotationCovers(s'.api, s'.pushed, n)
    {
      QueueCovers(s, e, s', n);
    }
    if s'.task.Some? {
      if s'.task.value.sawDeleting && s'.task.value.selfDone {
        OwnAnnotationCovers(s, e, s');
      }
      if s'.task.value.patch.Some?
         && (s'.task.value.patch.value.target in s'.queue
             || (s'.task.value.sawDeleting && s'.task.value.patch.value.target == s'.task.value.name)) {
        PatchCovers(s, e, s');
      }
    }
    if !s'.worker.Idle? && s'.worker.id != "" {
      WorkerCovers(s, e, s');
    }
  }

  // ----- Whole runs

  ghost predicate StepAt(tr: seq<State>, ev: seq<Event>, i: nat)
    requires i < |ev| && |tr| == |ev| + 1
  {
    Next(tr[i], ev[i], tr[i + 1])
  }

  ghost predicate IsRun(tr: seq<State>, ev: seq<Event>) {
    && |tr| == |ev| + 1 && tr[0] == INIT
    && forall i | 0 <= i < |ev| :: StepAt(tr, ev, i)
  }

  /**
   Ancestor closure: in every reachable state each Backup not marked for deletion still has its
   whole parent chain, both as Backup resources and as physical backups.
   */
  lemma {:induction false} AncestorsKept(tr: seq<State>, ev: seq<Event>, i: nat)
    requires IsRun(tr, ev) && i <= |ev|
    requires forall j | 0 <= j < |ev| :: Admissible(tr[j], ev[j])
    ensures Safe(tr[i].api, tr[i].storage, tr[i].pushed)
    ensures Inv(tr[i])
  {
    if i > 0 {
      AncestorsKept(tr, ev, i - 1);
      assert StepAt(tr, ev, i - 1);
      InvPreserved(tr[i - 1], ev[i - 1], tr[i]);
    }
  }

  lemma {:induction false} BasicOverRuns(tr: seq<State>, ev: seq<Event>, i: nat)
    requires IsRun(tr, ev) && i <= |ev|
    ensures Basic(tr[i])
  {
    if i > 0 {
      BasicOverRuns(tr, ev, i - 1);
      assert StepAt(tr, ev, i - 1);
      BasicPreserved(tr[i - 1], ev[i - 1], tr[i]);
    }
  }

  /** A Backup that is to be cleaned up has the finalizer and an id. */
  predicate ToClean(b: Backup) {
    b.finalizer && b.id != ""
  }

  ghost predicate GoneClean(s: State, n: Name, id: string) {
    && id in s.pushed && n in s.names
    && if n in s.api then ToClean(s.api[n]) && s.api[n].id == id else id !in s.storage
  }

  lemma GoneCleanKept(s: State, e: Event, s': State, n: Name, id: string)
    requires Basic(s) && Next(s, e, s') && !e.SkipStorage? && GoneClean(s, n, id)
    ensures GoneClean(s', n, id)
  {
    hide DependsOn, IsDirectDependent;
  }

  /**
   No leaked physical backup: a Backup with an id that carried the finalizer is only ever missing
   from the API once its physical backup is gone for good. No promise of the environment is
   needed, only that storage cleanup is never skipped for an unwritable storage.
   */
  lemma {:induction false} NoPhysicalLeak(tr: seq<State>, ev: seq<Event>, i: nat, j: nat, n: Name)
    requires IsRun(tr, ev) && i <= j <= |ev|
    requires forall k | 0 <= k < |ev| :: !ev[k].SkipStorage?
    requires n in tr[i].api && ToClean(tr[i].api[n])
    ensures n !in tr[j].api ==> tr[i].api[n].id !in tr[j].storage
    ensures GoneClean(tr[j], n, tr[i].api[n].id)
    decreases j - i
  {
    BasicOverRuns(tr, ev, i);
    if i < j {
      NoPhysicalLeak(tr, ev, i, j - 1, n);
      BasicOverRuns(tr, ev, j - 1);
      assert StepAt(tr, ev, j - 1);
      GoneCleanKept(tr[j - 1], ev[j - 1], tr[j], n, tr[i].api[n].id);
    }
  }

  // ----- The promises are needed

  ghost predicate BuiltOnBy(s: State, n: Name, b: Name)
    requires n in s.api
  {
    b != n && b in s.api && Live(s.api[b]) && DependsOn(s.pushed, s.api[n].id, s.api[b].id)
  }

  /**
   Marking a visible Backup that has no finalizer removes it at once. This keeps the chains of all
   live Backups exactly when no live Backup is built on it.
   */
  lemma UnfinalizedMarkExact(s: State, n: Name, s': State)
    requires Inv(s) && Next(s, MarkDeleting(n), s') && n in s.api && Visible(s.api[n]) && !s.api[n].finalizer
    ensures Safe(s'.api, s'.storage, s'.pushed) <==> forall b :: !BuiltOnBy(s, n, b)
  {
    hide DependsOn, IsDirectDependent, TaskCovers, Shielded;
    var x := s.api[n].id;
    if b :| BuiltOnBy(s, n, b) {
      assert !Held(s'.api, x);
      assert !ChainKept(s'.api, s'.storage, s'.pushed, s'.api[b].id);
    } else {
      forall b, y | b in s'.api && Live(s'.api[b]) && y in s.pushed && DependsOn(s.pushed, y, s.api[b].id)
        ensures y in s.storage && Held(s'.api, y)
      {
        assert ChainKept(s.api, s.storage, s.pushed, s.api[b].id);
        assert !BuiltOnBy(s, n, b);
        var a :| a in s.api && s.api[a].owned && s.api[a].id == y;
        assert a in s'.api;
      }
      forall b | b in s'.api && Live(s'.api[b])
        ensures ChainKept(s'.api, s'.storage, s'.pushed, s'.api[b].id)
      {
        assert ChainKept(s.api, s.storage, s.pushed, s.api[b].id);
      }
    }
  }

  /**
   A physical deletion keeps the chains of all live Backups exactly when, at that moment, no live Backup is
   built on the one in the processor's hands, whatever the annotation said when it was checked.
   */
  lemma WipeExact(s: State, s': State)
    requires Basic(s) && Safe(s.api, s.storage, s.pushed)
    requires s.worker.Cleared? && s.worker.id != "" && Next(s, Wipe, s')
    ensures Safe(s'.api, s'.storage, s'.pushed) <==> Shielded(s.api, s.pushed, s.worker.name, {})
  {
    hide DependsOn, IsDirectDependent, Held;
    var id := s.worker.id;
    if Shielded(s.api, s.pushed, s.worker.name, {}) {
      forall b | b in s'.api && Live(s'.api[b])
        ensures ChainKept(s'.api, s'.storage, s'.pushed, s'.api[b].id)
      {
        assert ChainKept(s.api, s.storage, s.pushed, s.api[b].id);
        forall x | x == s.api[b].id || (x in s.pushed && DependsOn(s.pushed, x, s.api[b].id))
          ensures x in s'.storage
        {
          WipeSpares(s, b, x);
        }
      }
    } else {
      var b :| b in s.api && Live(s.api[b]) && DependsOn(s.pushed, id, s.api[b].id);
      assert ChainKept(s.api, s.storage, s.pushed, s.api[b].id);
      assert !ChainKept(s'.api, s'.storage, s'.pushed, s'.api[b].id);
    }
  }

  /**
   An incremental that becomes visible after a Backup below it passed the processor's check is
   lost: once the physical deletion runs, its chain is broken.
   */
  lemma LateIncrementalLost(s: State, n: Name, id: string, s1: State, s2: State)
    requires Inv(s) && s.worker.Cleared? && s.worker.id != ""
    requires Next(s, Complete(n, id), s1) && Next(s1, Wipe, s2)
    requires Live(s1.api[n]) && DependsOn(s.pushed, s.worker.id, id)
    ensures !AppearOk(s, id) && !Safe(s2.api, s2.storage, s2.pushed)
  {
    hide DependsOn, IsDirectDependent, TaskCovers, Shielded;
    assert s.worker.id in s2.pushed && s.worker.id !in s2.storage;
    assert !ChainKept(s2.api, s2.storage, s2.pushed, id);
    assert !HeldLive(s, s.worker.id);
  }
}
