/** Backup lists as wal-g reports them, and the search for the incrementals built on a backup. */
module WalgBackups {
  import opened Text
  import opened Dependency

  /** The fields of `wal-g backup-list --detail` the operator decides on. */
  datatype BackupMetadata = BackupMetadata(
    backupName: string,
    finishTime: Option<int>,  // None when the reported time does not parse
    finishLSN: nat,
    systemIdentifier: int)

  function Names(list: seq<BackupMetadata>): set<string> {
    set b | b in list :: b.backupName
  }

  ghost predicate NoRepeatedNames(list: seq<BackupMetadata>) {
    forall i, j | 0 <= i < j < |list| :: list[i].backupName != list[j].backupName
  }

  /** The list entries that name `parent` as the backup they were taken on, in list order. */
  function DirectDependents(parent: string, list: seq<BackupMetadata>): (r: seq<BackupMetadata>)
    ensures forall b :: b in r <==> b in list && IsDirectDependent(b.backupName, parent)
  {
    if |list| == 0 then []
    else
      var rest := DirectDependents(parent, list[..|list| - 1]);
      var last := list[|list| - 1];
      assert list == list[..|list| - 1] + [last];
      if IsDirectDependent(last.backupName, parent) then rest + [last] else rest
  }

  /** List order and repetitions are kept: the dependents of a list are those of its parts, one part after the other. */
  lemma {:induction false} DirectDependentsInOrder(parent: string, a: seq<BackupMetadata>, b: seq<BackupMetadata>)
    ensures DirectDependents(parent, a + b) == DirectDependents(parent, a) + DirectDependents(parent, b)
  {
    hide IsDirectDependent;
    if |b| == 0 {
      assert a + b == a;
    } else {
      DirectDependentsInOrder(parent, a, b[..|b| - 1]);
      assert (a + b)[..|a + b| - 1] == a + b[..|b| - 1];
    }
  }

  method FindDirectDependencies(parent: BackupMetadata, backupList: seq<BackupMetadata>)
    returns (result: seq<BackupMetadata>)
    ensures result == DirectDependents(parent.backupName, backupList)
  {
    var parentWalId := OwnWalId(parent.backupName);
    result := [];
    for i := 0 to |backupList|
      invariant result == DirectDependents(parent.backupName, backupList[..i])
    {
      assert backupList[..i + 1][..i] == backupList[..i];
      var backup := backupList[i];
      if backup.backupName == parent.backupName || !Contains(backup.backupName, DELTA) {
        continue;
      }
      var parts := Split(backup.backupName, DELTA);
      if |parts| == 2 && parts[1] == parentWalId {
        result := result + [backup];
      }
    }
    assert backupList[..|backupList|] == backupList;
  }

  ghost predicate Named(list: seq<BackupMetadata>, name: string) {
    exists b :: b in list && b.backupName == name
  }

  ghost predicate AreNamesOf(names: set<string>, list: seq<BackupMetadata>) {
    && (forall b | b in list :: b.backupName in names)
    && (forall n | n in names :: Named(list, n))
  }

  /** Known entries are list entries that depend on `m`. */
  ghost predicate KnownAreDependents(m: string, names: set<string>, list: seq<BackupMetadata>,
                                     known: map<string, BackupMetadata>) {
    forall k | k in known :: known[k].backupName == k && known[k] in list && DependsOn(names, m, k)
  }

  /** Direct dependents of `m`, and of every known name that is not still open, are known. */
  ghost predicate Expanded(m: string, names: set<string>, open: set<string>, known: set<string>) {
    && (forall d | d in names && IsDirectDependent(d, m) :: d in known)
    && (forall k, d | k in known - open && d in names && IsDirectDependent(d, k) :: d in known)
  }

  /** Only known backups are queued, and every open name is. */
  ghost predicate AllQueued(queue: seq<BackupMetadata>, open: set<string>, known: set<string>) {
    && (forall k | k in open :: Named(queue, k))
    && (forall q | q in queue :: q.backupName in known)
  }

  /**
   Without indirect dependents, the direct ones; with them, each list name reachable over one or
   more direct links, exactly once, in an order the caller cannot rely on (Go map iteration).
   */
  method GetDependentBackups(m: BackupMetadata, backupList: seq<BackupMetadata>, includeIndirect: bool)
    returns (result: seq<BackupMetadata>)
    ensures !includeIndirect ==> result == DirectDependents(m.backupName, backupList)
    ensures includeIndirect ==> NoRepeatedNames(result)
    ensures forall b | b in result :: b in backupList
    ensures includeIndirect ==>
              forall name :: name in Names(result) <==> DependsOn(Names(backupList), m.backupName, name)
  {
    var direct := FindDirectDependencies(m, backupList);
    if !includeIndirect {
      return direct;
    }
    var known, _ := SearchAll(m.backupName, Names(backupList), backupList, direct);
    result := MapToSlice(known);
  }

  /** What the search may still have to do: names it does not know, and queued backups. */
  ghost function Left(unknown: set<string>, queue: seq<BackupMetadata>): nat {
    |unknown| + |queue|
  }

  lemma OneLessLeft(unknown: set<string>, queue: seq<BackupMetadata>)
    requires |queue| > 0
    ensures Left(unknown, queue[1..]) + 1 == Left(unknown, queue)
  {
  }

  lemma LearnedStaysLeft(unknown: set<string>, queue: seq<BackupMetadata>, b: BackupMetadata)
    requires b.backupName in unknown
    ensures Left(unknown - {b.backupName}, queue + [b]) == Left(unknown, queue)
  {
  }

  /** The queue-driven part of the search; `names` is only used in the proof and the measure. */
  method SearchAll(ghost m: string, ghost names: set<string>, list: seq<BackupMetadata>, direct: seq<BackupMetadata>)
    returns (known: map<string, BackupMetadata>, ghost searches: nat)
    requires AreNamesOf(names, list)
    requires direct == DirectDependents(m, list)
    ensures searches <= |direct| + |names|
    ensures forall k | k in known :: known[k].backupName == k && known[k] in list
    ensures forall name :: name in known <==> DependsOn(names, m, name)
  {
    hide IsDirectDependent, DependsOn;
    var queue: seq<BackupMetadata> := [];
    known := map[];
    for i := 0 to |direct|
      invariant queue == direct[..i]
      invariant forall k | k in known :: known[k].backupName == k && known[k] in direct
      invariant forall j | 0 <= j < i :: direct[j].backupName in known
    {
      queue := queue + [direct[i]];
      known := known[direct[i].backupName := direct[i]];
    }
    assert direct[..|direct|] == direct;
    ghost var known0, open, unknown := known, known.Keys, names - known.Keys;
    SearchStarts(m, names, list, direct, known);
    searches := 0;
    while |queue| > 0
      invariant searches + Left(unknown, queue) == |names - known0.Keys| + |direct|
      invariant KnownAreDependents(m, names, list, known)
      invariant Expanded(m, names, open, known.Keys)
      invariant AllQueued(queue, open, known.Keys)
      invariant unknown == names - known.Keys
      decreases Left(unknown, queue)
    {
      queue, known, open, unknown := Expand(m, names, list, queue, known, open, unknown);
      searches := searches + 1;
    }
    SearchEnds(m, names, open, known.Keys);
    FewerElements(names - known0.Keys, names);
  }

  lemma {:induction false} FewerElements(a: set<string>, b: set<string>)
    requires a <= b
    ensures |a| <= |b|
  {
    if a != {} {
      var x :| x in a;
      FewerElements(a - {x}, b - {x});
    }
  }

  lemma SearchStarts(m: string, names: set<string>, list: seq<BackupMetadata>,
                     direct: seq<BackupMetadata>, known: map<string, BackupMetadata>)
    requires AreNamesOf(names, list)
    requires direct == DirectDependents(m, list)
    requires forall k | k in known :: known[k].backupName == k && known[k] in direct
    requires forall b | b in direct :: b.backupName in known
    ensures KnownAreDependents(m, names, list, known)
    ensures Expanded(m, names, known.Keys, known.Keys)
    ensures AllQueued(direct, known.Keys, known.Keys)
  {
    hide IsDirectDependent, DependsOn;
    forall k | k in known
      ensures DependsOn(names, m, k) && Named(direct, k)
    {
      assert known[k] in list;
      DependsDirectly(names, m, k);
    }
    DirectAreKnown(m, names, list, direct, known.Keys);
  }

  /** Knowing the names of all direct dependents in the list is knowing all direct dependents among the names. */
  lemma DirectAreKnown(parent: string, names: set<string>, list: seq<BackupMetadata>,
                       direct: seq<BackupMetadata>, known: set<string>)
    requires AreNamesOf(names, list)
    requires direct == DirectDependents(parent, list)
    requires forall b | b in direct :: b.backupName in known
    ensures forall d | d in names && IsDirectDependent(d, parent) :: d in known
  {
    hide IsDirectDependent, DependsOn;
    forall d | d in names && IsDirectDependent(d, parent)
      ensures d in known
    {
      assert Named(list, d);
      var b :| b in list && b.backupName == d;
      assert b in direct;
    }
  }

  lemma SearchEnds(m: string, names: set<string>, open: set<string>, known: set<string>)
    requires Expanded(m, names, open, known) && AllQueued([], open, known)
    requires forall k | k in known :: DependsOn(names, m, k)
    ensures forall name :: name in known <==> DependsOn(names, m, name)
  {
    hide IsDirectDependent, DependsOn;
    assert forall k | k in open :: Named([], k);
    assert open == {};
    forall name | DependsOn(names, m, name)
      ensures name in known
    {
      ClosureCovers(names, known, m, name);
    }
  }

  /**
   One pass of the outer loop: take the first queued backup and enqueue its unknown direct dependents. The unknown
   names and the queue together lose exactly one element.
   */
  method Expand(ghost m: string, ghost names: set<string>, list: seq<BackupMetadata>,
                queue0: seq<BackupMetadata>, known0: map<string, BackupMetadata>,
                ghost open0: set<string>, ghost unknown0: set<string>)
    returns (queue: seq<BackupMetadata>, known: map<string, BackupMetadata>, ghost open: set<string>,
        ghost unknown: set<string>)
    requires |queue0| > 0 && AreNamesOf(names, list)
    requires KnownAreDependents(m, names, list, known0)
    requires Expanded(m, names, open0, known0.Keys) && AllQueued(queue0, open0, known0.Keys)
    requires unknown0 == names - known0.Keys
    ensures KnownAreDependents(m, names, list, known)
    ensures Expanded(m, names, open, known.Keys) && AllQueued(queue, open, known.Keys)
    ensures unknown == names - known.Keys
    ensures Left(unknown, queue) + 1 == Left(unknown0, queue0)
  {
    hide IsDirectDependent, DependsOn, AllQueued, Named, DirectDependents, Expanded, KnownAreDependents, Left;
    var head := queue0[0];
    queue, known := queue0[1..], known0;
    open, unknown := open0 - {head.backupName}, unknown0;
    QueueShrinks(m, names, list, queue0, open0, known0);
    OneLessLeft(unknown0, queue0);
    var found := FindDirectDependencies(head, list);
    for i := 0 to |found|
      invariant KnownAreDependents(m, names, list, known)
      invariant known0.Keys <= known.Keys
      invariant open == (open0 - {head.backupName}) + (known.Keys - known0.Keys)
      invariant AllQueued(queue, open, known.Keys)
      invariant forall j | 0 <= j < i :: found[j].backupName in known
      invariant unknown == names - known.Keys
      invariant Left(unknown, queue) + 1 == Left(unknown0, queue0)
    {
      queue, known, open, unknown := Learn(m, names, list, head, found[i], queue, known, open, unknown);
    }
    DirectAreKnown(head.backupName, names, list, found, known.Keys);
    ExpandedGrows(m, names, open0, known0.Keys, head.backupName, known.Keys);
  }

  lemma ExpandedGrows(m: string, names: set<string>, open: set<string>, known: set<string>, head: string,
      more: set<string>)
    requires Expanded(m, names, open, known) && known <= more
    requires forall d | d in names && IsDirectDependent(d, head) :: d in more
    ensures Expanded(m, names, (open - {head}) + (more - known), more)
  {
    hide IsDirectDependent;
  }

  lemma QueueShrinks(m: string, names: set<string>, list: seq<BackupMetadata>, queue: seq<BackupMetadata>,
                     open: set<string>, known: map<string, BackupMetadata>)
    requires |queue| > 0 && AllQueued(queue, open, known.Keys) && KnownAreDependents(m, names, list, known)
    ensures AllQueued(queue[1..], open - {queue[0].backupName}, known.Keys)
    ensures DependsOn(names, m, queue[0].backupName)
  {
    hide DependsOn;
    forall k | k in open - {queue[0].backupName}
      ensures Named(queue[1..], k)
    {
      assert Named(queue, k);
      var q :| q in queue && q.backupName == k;
      assert q in queue[1..];
    }
  }

  lemma QueueGrows(queue: seq<BackupMetadata>, b: BackupMetadata, open: set<string>, known: set<string>)
    requires AllQueued(queue, open, known)
    ensures AllQueued(queue + [b], open + {b.backupName}, known + {b.backupName})
  {
    assert b in queue + [b];
    forall k | k in open
      ensures Named(queue + [b], k)
    {
      assert Named(queue, k);
      var q :| q in queue && q.backupName == k;
      assert q in queue + [b];
    }
  }

  /** The body of the inner loop: an unknown dependent of `head` becomes known and is queued. */
  method Learn(ghost m: string, ghost names: set<string>, list: seq<BackupMetadata>, head: BackupMetadata,
                b: BackupMetadata,
               queue0: seq<BackupMetadata>, known0: map<string, BackupMetadata>,
               ghost open0: set<string>, ghost unknown0: set<string>)
    returns (queue: seq<BackupMetadata>, known: map<string, BackupMetadata>, ghost open: set<string>,
        ghost unknown: set<string>)
    requires KnownAreDependents(m, names, list, known0) && AllQueued(queue0, open0, known0.Keys)
    requires unknown0 == names - known0.Keys
    requires DependsOn(names, m, head.backupName) && IsDirectDependent(b.backupName, head.backupName)
    requires b in list && b.backupName in names
    ensures KnownAreDependents(m, names, list, known) && AllQueued(queue, open, known.Keys)
    ensures known.Keys == known0.Keys + {b.backupName}
    ensures open == open0 + (known.Keys - known0.Keys)
    ensures queue == if b.backupName in known0 then queue0 else queue0 + [b]
    ensures unknown == names - known.Keys
    ensures Left(unknown, queue) == Left(unknown0, queue0)
  {
    hide *;
    queue, known, open, unknown := queue0, known0, open0, unknown0;
    if b.backupName !in known {
      KnownGrows(m, names, list, head.backupName, b, known);
      QueueGrows(queue, b, open, known.Keys);
      assert known.Keys + {b.backupName} == known[b.backupName := b].Keys;
      known := known[b.backupName := b];
      queue := queue + [b];
      open := open + {b.backupName};
      assert b.backupName in unknown;
      LearnedStaysLeft(unknown, queue0, b);
      unknown := unknown - {b.backupName};
    }
  }

  lemma KnownGrows(m: string, names: set<string>, list: seq<BackupMetadata>, head: string,
                   b: BackupMetadata, known: map<string, BackupMetadata>)
    requires KnownAreDependents(m, names, list, known)
    requires DependsOn(names, m, head) && IsDirectDependent(b.backupName, head)
    requires b in list && b.backupName in names
    ensures KnownAreDependents(m, names, list, known[b.backupName := b])
  {
    hide IsDirectDependent, DependsOn;
    DependsDirectly(names, head, b.backupName);
    DependsTransitively(names, m, head, b.backupName);
  }

  method MapToSlice(known: map<string, BackupMetadata>) returns (result: seq<BackupMetadata>)
    requires forall k | k in known :: known[k].backupName == k
    ensures NoRepeatedNames(result)
    ensures Names(result) == known.Keys
    ensures forall b | b in result :: b in known.Values
  {
    result := [];
    var todo := known.Keys;
    while todo != {}
      invariant todo <= known.Keys
      invariant NoRepeatedNames(result)
      invariant Names(result) == known.Keys - todo
      invariant forall b | b in result :: b in known.Values
    {
      var k :| k in todo;
      assert forall b | b in result :: b.backupName in Names(result);
      assert Names(result + [known[k]]) == Names(result) + {k} by {
        assert forall b :: b in result + [known[k]] <==> b in result || b == known[k];
      }
      result, todo := result + [known[k]], todo - {k};
    }
  }

  /** With growing ids the search never returns the backup it started from. */
  lemma StartNotReturned(m: string, list: seq<BackupMetadata>)
    requires IdsGrow(Names(list), m)
    ensures !DependsOn(Names(list), m, m)
  {
    if DependsOn(Names(list), m, m) {
      DependentsAreLater(Names(list), m, m);
    }
  }

  /** lo.Find by name: the first entry with that name, None when there is none. */
  function GetBackupByName(list: seq<BackupMetadata>, name: string): (r: Option<BackupMetadata>)
    ensures r.Some? <==> name in Names(list)
    ensures r.Some? ==> exists i :: 0 <= i < |list| && list[i] == r.value && r.value.backupName == name
                                    && forall j | 0 <= j < i :: list[j].backupName != name
  {
    if |list| == 0 then None
    else if list[0].backupName == name then Some(list[0])
    else
      var r := GetBackupByName(list[1..], name);
      assert list == [list[0]] + list[1..];
      assert r.Some? ==> exists i :: 1 <= i < |list| && list[i] == r.value && r.value.backupName == name
                                     && forall j | 0 <= j < i :: list[j].backupName != name by {
        if r.Some? {
          var i :| 0 <= i < |list[1..]| && list[1..][i] == r.value
                   && forall j | 0 <= j < i :: list[1..][j].backupName != name;
          assert list[i + 1] == r.value;
        }
      }
      r
  }

  // ----- DeleteBackup

  /** How `wal-g delete target` ended. */
  datatype DeleteOutcome = Deleted | DoesNotExist | Failed

  datatype Command = Unmark(name: string) | DeleteTarget(name: string) | DeleteGarbage

  /**
   Unmark and garbage failures are only logged, and "does not exist" counts as success. What the caller gets is
   the result of deleting the target, whatever garbage collection did after it.
   */
  method DeleteBackup(backupName: string, unmarkFails: bool, target: DeleteOutcome, garbageFails: bool)
    returns (ok: bool, result: DeleteOutcome, commands: seq<Command>)
    ensures ok <==> target != Failed
    ensures result == target
    ensures commands == [Unmark(backupName), DeleteTarget(backupName), DeleteGarbage]
  {
    commands := [Unmark(backupName)];
    var err := unmarkFails;
    commands := commands + [DeleteTarget(backupName)];
    result, err := target, target != Deleted;
    if err && target == DoesNotExist {
      err := false;
    }
    commands := commands + [DeleteGarbage];
    ok := !err;
  }
}
