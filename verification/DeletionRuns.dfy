/** Runs of the deletion protocol that end with a broken chain, and what a processor may do that reads from a cache. */
module DeletionRuns {
  import opened Text
  import opened Dependency
  import opened DeletionProtocol

  /** `s` comes after `o` in some run in which every step keeps its promise. */
  ghost predicate Reaches(o: State, s: State) {
    exists tr: seq<State>, ev: seq<Event> ::
      && |tr| == |ev| + 1 && tr[0] == o && tr[|ev|] == s
      && forall j | 0 <= j < |ev| :: StepAt(tr, ev, j) && Admissible(tr[j], ev[j])
  }

  lemma ReachesItself(s: State)
    ensures Reaches(s, s)
  {
    var tr, ev: seq<Event> := [s], [];
    assert |tr| == |ev| + 1 && tr[0] == s && tr[|ev|] == s;
  }

  lemma ReachesStep(o: State, s: State, e: Event, s': State)
    requires Reaches(o, s) && Next(s, e, s') && Admissible(s, e)
    ensures Reaches(o, s')
  {
    hide Next, Admissible;
    var tr: seq<State>, ev: seq<Event> :|
      && |tr| == |ev| + 1 && tr[0] == o && tr[|ev|] == s
      && forall j | 0 <= j < |ev| :: StepAt(tr, ev, j) && Admissible(tr[j], ev[j]);
    var tr', ev' := tr + [s'], ev + [e];
    forall i | 0 <= i < |ev'|
      ensures StepAt(tr', ev', i) && Admissible(tr'[i], ev'[i])
    {
      assert i < |ev| ==> StepAt(tr, ev, i);
    }
    assert |tr'| == |ev'| + 1 && tr'[0] == o && tr'[|ev'|] == s';
  }

  const FULL := FullName("A")
  const INCREMENTAL := DeltaName("B", "A")

  lemma ExampleNames()
    ensures FULL != "" && INCREMENTAL != "" && FULL != INCREMENTAL
    ensures IsDirectDependent(INCREMENTAL, FULL) && forall p :: !IsDirectDependent(FULL, p)
  {
    hide IsDirectDependent;
    NamesRoundTrip("B", "A", FULL);
    forall p
      ensures !IsDirectDependent(FULL, p)
    {
      NamesRoundTrip("B", "A", p);
    }
  }

  /** One full Backup, complete, owned, annotated and finalized. */
  ghost predicate FullBackedUp(s: State) {
    s == State(map["f" := Backup(FULL, true, false, true, true, {})], {"f"}, {FULL}, {FULL}, None, [], Idle)
  }

  lemma NothingBuiltOnFull(api: map<Name, Backup>)
    requires "f" in api && api["f"].id == FULL && forall n | n in api :: n == "f"
    ensures AllDependents(api, "f") == {}
  {
    hide DependsOn;
    FullDependsOnNothing(OwnedIds(api), FULL);
  }

  lemma FullDependsOnNothing(names: set<string>, root: string)
    ensures !DependsOn(names, root, FULL)
  {
    hide IsDirectDependent;
    ExampleNames();
    forall p: seq<string> | |p| >= 2 && p[|p| - 1] == FULL
      ensures !IsChain(p, names)
    {
      assert !LinkAt(p, names, |p| - 1);
    }
  }

  lemma FullMayAppear(s: State)
    requires FULL in s.storage
    ensures AppearOk(s, FULL)
  {
    hide DependsOn;
    forall x
      ensures !DependsOn(s.pushed, x, FULL)
    {
      FullDependsOnNothing(s.pushed, x);
    }
  }

  lemma BackUpFull() returns (s: State)
    ensures Reaches(INIT, s) && FullBackedUp(s)
  {
    hide Reaches, AppearOk, DependsOn, IsDirectDependent, AllDependents, FullName, DeltaName;
    ExampleNames();
    var o := INIT;
    ReachesItself(o);
    var s1 := INIT.(api := INIT.api["f" := Backup("", false, false, false, false, {})], names := INIT.names + {"f"});
    ReachesStep(o, INIT, Create("f"), s1);
    var s2 := s1.(storage := s1.storage + {FULL}, pushed := s1.pushed + {FULL});
    ReachesStep(o, s1, Push(FULL), s2);
    var s3 := s2.(api := s2.api["f" := s2.api["f"].(id := FULL)]);
    ReachesStep(o, s2, Complete("f", FULL), s3);
    var s4 := s3.(task := Some(Task("f", false, false, None)));
    ReachesStep(o, s3, BeginReconcile("f"), s4);
    var s5 := s4.(api := s4.api["f" := s4.api["f"].(owned := true)]);
    FullMayAppear(s4);
    ReachesStep(o, s4, SetOwner, s5);
    NothingBuiltOnFull(s5.api);
    s := Reconciled(o, s5);
  }

  /** The rest of a first reconcile of the only Backup. */
  lemma Reconciled(o: State, s5: State) returns (s: State)
    requires s5 == State(map["f" := Backup(FULL, true, false, false, false, {})], {"f"}, {FULL}, {FULL},
                         Some(Task("f", false, false, None)), [], Idle)
    requires Reaches(o, s5) && AllDependents(s5.api, "f") == {}
    ensures Reaches(o, s) && FullBackedUp(s)
  {
    hide Reaches, AppearOk, DependsOn, IsDirectDependent, AllDependents, FullName;
    var s6 := s5.(task := Some(s5.task.value.(patch := Some(Patch("f", {})))));
    ReachesStep(o, s5, ListDependents("f"), s6);
    var s7 := s6.(api := s6.api["f" := s6.api["f"].(annotated := true, dependents := {})],
                  task := Some(s6.task.value.(patch := None, selfDone := true)));
    ReachesStep(o, s6, WritePatch, s7);
    var s8 := s7.(api := s7.api["f" := s7.api["f"].(finalizer := true)]);
    ReachesStep(o, s7, AddFinalizer, s8);
    s := s8.(task := None);
    ReachesStep(o, s8, EndReconcile, s);
  }

  /** The full Backup is marked, reconciled once more and queued. */
  lemma QueueFull(o: State, s: State) returns (t: State)
    requires Reaches(o, s) && FullBackedUp(s)
    ensures Reaches(o, t) && t == s.(api := s.api["f" := s.api["f"].(deleting := true)], queue := ["f"])
  {
    hide Reaches, AppearOk, DependsOn, IsDirectDependent, AllDependents, FullName;
    var s1 := s.(api := s.api["f" := s.api["f"].(deleting := true)]);
    ReachesStep(o, s, MarkDeleting("f"), s1);
    var s2 := s1.(task := Some(Task("f", true, false, None)));
    ReachesStep(o, s1, BeginReconcile("f"), s2);
    NothingBuiltOnFull(s2.api);
    var s3 := s2.(task := Some(s2.task.value.(patch := Some(Patch("f", {})))));
    ReachesStep(o, s2, ListDependents("f"), s3);
    var s4 := s3.(api := s3.api["f" := s3.api["f"].(annotated := true, dependents := {})],
                  task := Some(s3.task.value.(patch := None, selfDone := true)));
    ReachesStep(o, s3, WritePatch, s4);
    t := s4.(queue := s4.queue + ["f"], task := None);
    ReachesStep(o, s4, Enqueue, t);
  }

  /** An incremental on top is pushed; its Backup is owned but not complete when the full one passes the check. */
  lemma PushIncremental(o: State, s: State) returns (t: State)
    requires Reaches(o, s) && s.api.Keys == {"f"} && s.names == {"f"} && s.pushed == {FULL} && s.storage == {FULL}
    requires s.api["f"] == Backup(FULL, true, true, true, true, {}) && s.queue == ["f"]
    requires s.task.None? && s.worker.Idle?
    ensures Reaches(o, t) && t.worker == Cleared("f", FULL)
    ensures t.api == s.api["i" := Backup("", true, false, false, false, {})]
    ensures t.pushed == {FULL, INCREMENTAL} && t.storage == {FULL, INCREMENTAL}
  {
    hide Reaches, AppearOk, DependsOn, IsDirectDependent, AllDependents, FullName, DeltaName;
    ExampleNames();
    var s1 := s.(api := s.api["i" := Backup("", false, false, false, false, {})], names := s.names + {"i"});
    ReachesStep(o, s, Create("i"), s1);
    var s2 := s1.(task := Some(Task("i", false, false, None)));
    ReachesStep(o, s1, BeginReconcile("i"), s2);
    var s3 := s2.(api := s2.api["i" := s2.api["i"].(owned := true)]);
    ReachesStep(o, s2, SetOwner, s3);
    var s4 := s3.(task := None);
    ReachesStep(o, s3, EndReconcile, s4);
    var s5 := s4.(storage := s4.storage + {INCREMENTAL}, pushed := s4.pushed + {INCREMENTAL});
    ReachesStep(o, s4, Push(INCREMENTAL), s5);
    t := s5.(queue := s5.queue[1..], worker := Cleared("f", FULL));
    ReachesStep(o, s5, Dequeue, t);
  }

  /** A run to this end: the incremental completes after the check, and its chain is broken by the deletion. */
  lemma LateIncrementalRun() returns (s: State, s1: State, s2: State)
    ensures Reaches(INIT, s) && s.worker == Cleared("f", FULL)
    ensures Next(s, Complete("i", INCREMENTAL), s1) && Next(s1, Wipe, s2)
    ensures !Admissible(s, Complete("i", INCREMENTAL))
    ensures "i" in s2.api && Live(s2.api["i"]) && !Safe(s2.api, s2.storage, s2.pushed)
  {
    hide Reaches, DependsOn, IsDirectDependent, AllDependents, FullName, DeltaName, IsChain;
    var a := BackUpFull();
    var b := QueueFull(INIT, a);
    s := PushIncremental(INIT, b);
    ExampleNames();
    s1 := s.(api := s.api["i" := s.api["i"].(id := INCREMENTAL)]);
    s2 := s1.(storage := AfterDelete(s1.storage, FULL), worker := Wiped("f", FULL));
    DependsDirectly(s.pushed, FULL, INCREMENTAL);
    assert FULL in s2.pushed && FULL !in s2.storage;
    assert !ChainKept(s2.api, s2.storage, s2.pushed, INCREMENTAL);
    assert !HeldLive(s, FULL);
  }

  // ----- A processor that reads from a cache

  /** The processor takes its next request but sees an older version of the Backup. */
  ghost predicate StaleDequeue(s: State, seen: Backup, s': State) {
    && s.worker == Idle && |s.queue| > 0 && s.queue[0] in s.api
    && seen.annotated && seen.dependents == {} && seen.finalizer
    && s' == s.(queue := s.queue[1..], worker := Cleared(s.queue[0], seen.id))
  }

  /**
   A check that went by an older annotation does no harm if and only if that annotation still covers the live
   Backups built on this one.
   */
  lemma StaleReadExact(s: State, seen: Backup, s1: State, s2: State)
    requires Basic(s) && Safe(s.api, s.storage, s.pushed)
    requires StaleDequeue(s, seen, s1) && Next(s1, Wipe, s2)
    requires s.api[s.queue[0]].finalizer && s.api[s.queue[0]].id == seen.id
    ensures Safe(s2.api, s2.storage, s2.pushed) <==> Shielded(s.api, s.pushed, s.queue[0], seen.dependents)
  {
    hide DependsOn, IsDirectDependent, Safe, Shielded;
    assert s.queue[0] in s.queue;
    WipeExact(s1, s2);
  }

  lemma IncrementalMayAppear(s: State)
    requires s.pushed == {FULL, INCREMENTAL} && s.storage == {FULL, INCREMENTAL}
    requires HeldLive(s, FULL)
    ensures AppearOk(s, INCREMENTAL)
  {
    hide DependsOn, IsDirectDependent, HeldLive;
    forall x | x in s.pushed && DependsOn(s.pushed, x, INCREMENTAL)
      ensures HeldLive(s, x)
    {
      IncrementalIsLater(s.pushed);
      if x == INCREMENTAL {
        DependentsAreLater(s.pushed, x, INCREMENTAL);
      }
    }
  }

  lemma IncrementalIsLater(names: set<string>)
    requires names == {FULL, INCREMENTAL}
    ensures IdsGrow(names, INCREMENTAL)
  {
    hide IsDirectDependent, OwnWalId;
    ExampleNames();
    NamesRoundTrip("B", "A", FULL);
    NamesRoundTrip("B", "A", INCREMENTAL);
    assert Less("A", "B");
  }

  /** On a live full Backup an incremental completes, as it may. */
  lemma CompleteIncremental(o: State, s: State) returns (t: State)
    requires Reaches(o, s) && FullBackedUp(s)
    ensures Reaches(o, t) && t.api == s.api["i" := Backup(INCREMENTAL, true, false, false, false, {})]
    ensures t == s.(api := t.api, names := {"f", "i"}, storage := {FULL, INCREMENTAL}, pushed := {FULL, INCREMENTAL})
  {
    hide Reaches, AppearOk, HeldLive, DependsOn, IsDirectDependent, AllDependents, FullName, DeltaName;
    ExampleNames();
    var s1 := s.(api := s.api["i" := Backup("", false, false, false, false, {})], names := s.names + {"i"});
    ReachesStep(o, s, Create("i"), s1);
    var s2 := s1.(task := Some(Task("i", false, false, None)));
    ReachesStep(o, s1, BeginReconcile("i"), s2);
    var s3 := s2.(api := s2.api["i" := s2.api["i"].(owned := true)]);
    ReachesStep(o, s2, SetOwner, s3);
    var s4 := s3.(task := None);
    ReachesStep(o, s3, EndReconcile, s4);
    var s5 := s4.(storage := s4.storage + {INCREMENTAL}, pushed := s4.pushed + {INCREMENTAL});
    ReachesStep(o, s4, Push(INCREMENTAL), s5);
    t := s5.(api := s5.api["i" := s5.api["i"].(id := INCREMENTAL)]);
    FullIsHeld(s5);
    IncrementalMayAppear(s5);
    ReachesStep(o, s5, Complete("i", INCREMENTAL), t);
  }

  lemma FullIsHeld(s: State)
    requires FULL in s.storage && FULL != "" && "f" in s.api && s.api["f"] == Backup(FULL, true, false, true, true, {})
    ensures HeldLive(s, FULL)
  {
    assert Live(s.api["f"]);
  }

  lemma OnlyTheIncremental(api: map<Name, Backup>)
    requires api.Keys == {"f", "i"} && api["f"].id == FULL && api["f"].owned && api["f"].deleting
    requires api["i"].id == INCREMENTAL && api["i"].owned && !api["i"].deleting
    ensures AllDependents(api, "f") == {"i"} && DependsOn({FULL, INCREMENTAL}, FULL, INCREMENTAL)
  {
    hide DependsOn, IsDirectDependent;
    ExampleNames();
    assert OwnedIds(api) == {FULL, INCREMENTAL};
    DependsDirectly({FULL, INCREMENTAL}, FULL, INCREMENTAL);
  }

  /** The full Backup is marked and queued, with the incremental in its annotation. */
  lemma QueueWithDependent(o: State, s: State) returns (t: State)
    requires Reaches(o, s) && s.api.Keys == {"f", "i"} && s.task.None? && s.queue == [] && s.worker.Idle?
    requires s.api["f"] == Backup(FULL, true, false, true, true, {})
    requires s.api["i"] == Backup(INCREMENTAL, true, false, false, false, {})
    ensures Reaches(o, t) && t.queue == ["f"]
    ensures t.api == s.api["f" := Backup(FULL, true, true, true, true, {"i"})]
    ensures t == s.(api := t.api, queue := t.queue)
  {
    hide Reaches, AppearOk, DependsOn, IsDirectDependent, AllDependents, FullName, DeltaName;
    var s1 := s.(api := s.api["f" := s.api["f"].(deleting := true)]);
    ReachesStep(o, s, MarkDeleting("f"), s1);
    var s2 := s1.(task := Some(Task("f", true, false, None)));
    ReachesStep(o, s1, BeginReconcile("f"), s2);
    OnlyTheIncremental(s2.api);
    var s3 := s2.(task := Some(s2.task.value.(patch := Some(Patch("f", {"i"})))));
    ReachesStep(o, s2, ListDependents("f"), s3);
    var s4 := s3.(api := s3.api["f" := s3.api["f"].(annotated := true, dependents := {"i"})],
                  task := Some(s3.task.value.(patch := None, selfDone := true)));
    ReachesStep(o, s3, WritePatch, s4);
    t := s4.(queue := s4.queue + ["f"], task := None);
    ReachesStep(o, s4, Enqueue, t);
  }

  /**
   A run in which all promises are kept, and a processor that still sees the Backup as it was in `a`, before the
   incremental was taken: it passes the check, and the deletion breaks the incremental's chain.
   */
  lemma StaleReadRun() returns (a: State, s: State, s1: State, s2: State)
    ensures Reaches(INIT, a) && Reaches(a, s) && "f" in a.api && s.queue == ["f"]
    ensures StaleDequeue(s, a.api["f"], s1) && Next(s1, Wipe, s2)
    ensures s.api["f"].dependents == {"i"} && !Safe(s2.api, s2.storage, s2.pushed)
  {
    hide Reaches, AppearOk, DependsOn, IsDirectDependent, AllDependents, FullName, DeltaName;
    a := BackUpFull();
    ReachesItself(a);
    var b := CompleteIncremental(a, a);
    s := QueueWithDependent(a, b);
    ExampleNames();
    OnlyTheIncremental(s.api);
    s1 := s.(queue := s.queue[1..], worker := Cleared("f", FULL));
    s2 := s1.(storage := AfterDelete(s1.storage, FULL), worker := Wiped("f", FULL));
    assert FULL in s2.pushed && FULL !in s2.storage;
    assert !ChainKept(s2.api, s2.storage, s2.pushed, INCREMENTAL);
    assert s2.api["i"].id == INCREMENTAL && Live(s2.api["i"]);
  }
}
