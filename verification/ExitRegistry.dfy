/** Child processes: registering for an exit, reaping, and the commands that wait (internal/util/cmd). */
module ExitRegistry {
  import opened Text

  /** Names one process for ever, unlike its PID. A command, its process and its channel share the name. */
  type Id = nat
  type Pid = nat

  /** `subscribers` and the channels of capacity one that were put in it. */
  datatype Registry = Registry(subscribers: map<Pid, Id>, channels: map<Id, Option<int>>)

  function Subscribe(g: Registry, pid: Pid, id: Id): Registry {
    Registry(g.subscribers[pid := id], g.channels[id := None])
  }

  function Unsubscribed(g: Registry, pid: Pid, id: Id): Registry {
    if pid in g.subscribers && g.subscribers[pid] == id then g.(subscribers := g.subscribers - {pid}) else g
  }

  /** Sending to the channel registered for `pid`, if there is one, would not block. */
  predicate CanSend(g: Registry, pid: Pid) {
    pid in g.subscribers ==> g.subscribers[pid] in g.channels && g.channels[g.subscribers[pid]].None?
  }

  function Notify(g: Registry, pid: Pid, status: int): Registry
    requires CanSend(g, pid)
  {
    if pid in g.subscribers
    then Registry(g.subscribers - {pid}, g.channels[g.subscribers[pid] := Some(status)])
    else g
  }

  // ----- The machine

  datatype Life = Running | Zombie(status: int)
  datatype Proc = Proc(pid: Pid, life: Life)

  /** Where Run stands: `wait` took the status branch or the context branch, then cmd.Wait, then the deferred call. */
  datatype Stage =
    | Waiting
    | Chosen(result: Option<int>)
    | Waited(result: Option<int>)
    | Returned(result: Option<int>)
  datatype Run = Run(pid: Pid, stage: Stage)

  datatype Reaper = NotStarted | Reaping | Sleeping | Stopped

  datatype State = State(
    procs: map<Id, Proc>,   // children not yet reaped
    exits: map<Id, int>,    // every exit there ever was
    reg: Registry,
    runs: map<Id, Run>,
    pending: bool,          // SIGCHLD raised and not yet delivered; a second one coalesces
    slot: bool,             // the one-slot signal channel is full
    reaper: Reaper)

  datatype Event =
    | Start(id: Id, pid: Pid)
    | Adopt(id: Id, pid: Pid)
    | Exit(id: Id, status: int)
    | Deliver
    | ReaperStart
    | Wake
    | Reap(id: Id)
    | NoneLeft
    | Stop
    | Receive(id: Id)
    | Cancel(id: Id)
    | CmdWait(id: Id)
    | Unsubscribe(id: Id)

  const START := State(map[], map[], Registry(map[], map[]), map[], false, false, NotStarted)

  predicate Fresh(s: State, id: Id) {
    id !in s.procs && id !in s.exits && id !in s.reg.channels && id !in s.runs
  }

  /** The kernel hands out a PID only once its last owner has been reaped. */
  predicate PidFree(s: State, pid: Pid) {
    forall i | i in s.procs :: s.procs[i].pid != pid
  }

  predicate IsZombie(s: State, i: Id) {
    i in s.procs && s.procs[i].life.Zombie?
  }

  predicate Enabled(s: State, e: Event) {
    match e
    case Start(r, pid) => Fresh(s, r) && PidFree(s, pid)
    case Adopt(o, pid) => Fresh(s, o) && PidFree(s, pid)
    case Exit(i, _) => i in s.procs && s.procs[i].life.Running?
    case Deliver => s.pending
    case ReaperStart => s.reaper.NotStarted?
    case Wake => s.reaper.Sleeping? && s.slot
    case Reap(i) => s.reaper.Reaping? && IsZombie(s, i) && CanSend(s.reg, s.procs[i].pid)
    case NoneLeft => s.reaper.Reaping? && forall i | i in s.procs :: !IsZombie(s, i)
    case Stop => s.reaper.Sleeping?
    case Receive(r) => r in s.runs && s.runs[r].stage.Waiting? && r in s.reg.channels && s.reg.channels[r].Some?
    case Cancel(r) => r in s.runs && s.runs[r].stage.Waiting?
    case CmdWait(r) => r in s.runs && s.runs[r].stage.Chosen? && (r in s.procs ==> IsZombie(s, r))
    case Unsubscribe(r) => r in s.runs && s.runs[r].stage.Waited?
  }

  function Apply(s: State, e: Event): State
    requires Enabled(s, e)
  {
    match e
    case Start(r, pid) =>
      s.(procs := s.procs[r := Proc(pid, Running)], reg := Subscribe(s.reg, pid, r),
          runs := s.runs[r := Run(pid, Waiting)])
    case Adopt(o, pid) => s.(procs := s.procs[o := Proc(pid, Running)])
    case Exit(i, status) =>
      s.(procs := s.procs[i := s.procs[i].(life := Zombie(status))], exits := s.exits[i := status], pending := true)
    case Deliver => s.(pending := false, slot := s.slot || s.reaper.Reaping? || s.reaper.Sleeping?)
    case ReaperStart => s.(reaper := Reaping)
    case Wake => s.(slot := false, reaper := Reaping)
    case Reap(i) =>
      s.(procs := s.procs - {i}, reg := Notify(s.reg, s.procs[i].pid, s.procs[i].life.status))
    case NoneLeft => s.(reaper := Sleeping)
    case Stop => s.(reaper := Stopped)
    case Receive(r) =>
      s.(reg := s.reg.(channels := s.reg.channels[r := None]),
         runs := s.runs[r := s.runs[r].(stage := Chosen(s.reg.channels[r]))])
    case Cancel(r) => s.(runs := s.runs[r := s.runs[r].(stage := Chosen(None))])
    case CmdWait(r) => s.(procs := s.procs - {r},
        runs := s.runs[r := s.runs[r].(stage := Waited(s.runs[r].stage.result))])
    case Unsubscribe(r) =>
      s.(reg := Unsubscribed(s.reg, s.runs[r].pid, r),
         runs := s.runs[r := s.runs[r].(stage := Returned(s.runs[r].stage.result))])
  }

  ghost predicate StepAt(tr: seq<State>, es: seq<Event>, i: nat)
    requires i < |es| && |tr| == |es| + 1
  {
    Enabled(tr[i], es[i]) && tr[i + 1] == Apply(tr[i], es[i])
  }

  ghost predicate IsRun(tr: seq<State>, es: seq<Event>) {
    |tr| == |es| + 1 && tr[0] == START && forall i | 0 <= i < |es| :: StepAt(tr, es, i)
  }

  // ----- What every step keeps

  /** Unreaped processes have distinct PIDs, and the recorded exits are those of the zombies and the reaped. */
  ghost predicate Children(s: State) {
    && (forall i, j | i in s.procs && j in s.procs && i != j :: s.procs[i].pid != s.procs[j].pid)
    && (forall i | i in s.procs && s.procs[i].life.Zombie? :: i in s.exits && s.exits[i] == s.procs[i].life.status)
    && (forall i | i in s.procs && s.procs[i].life.Running? :: i !in s.exits)
  }

  /** A registered channel is empty and belongs to a command that started a process with that PID. */
  ghost predicate Registered(s: State) {
    forall p | p in s.reg.subscribers ::
      && s.reg.subscribers[p] in s.runs && s.runs[s.reg.subscribers[p]].pid == p
      && s.reg.subscribers[p] in s.reg.channels && s.reg.channels[s.reg.subscribers[p]].None?
  }

  /** Every unreaped child a command started is registered with that command's own channel. */
  ghost predicate Owned(s: State) {
    forall r | r in s.runs && r in s.procs ::
      && s.procs[r].pid == s.runs[r].pid
      && s.runs[r].pid in s.reg.subscribers && s.reg.subscribers[s.runs[r].pid] == r
      && (s.runs[r].stage.Waiting? || s.runs[r].stage.Chosen?)
  }

  /** A command that still waits for a reaped child finds that child's status in its channel. */
  ghost predicate Delivered(s: State) {
    forall r | r in s.runs && r !in s.procs && s.runs[r].stage.Waiting? ::
      r in s.exits && r in s.reg.channels && s.reg.channels[r] == Some(s.exits[r])
  }

  /** A status a command took is the exit status of its own process. */
  ghost predicate Truthful(s: State) {
    forall r | r in s.runs && !s.runs[r].stage.Waiting? && s.runs[r].stage.result.Some? ::
      r in s.exits && s.runs[r].stage.result.value == s.exits[r]
  }

  ghost predicate ChannelsPlaced(s: State) {
    forall r | r in s.runs :: r in s.reg.channels
  }

  ghost predicate Inv(s: State) {
    Children(s) && Registered(s) && Owned(s) && Delivered(s) && Truthful(s) && ChannelsPlaced(s)
  }

  /** No zombie is forgotten: a signal is on its way, the slot is full, or the reaper has yet to see "no more". */
  ghost predicate Awake(s: State) {
    (s.reaper.Reaping? || s.reaper.Sleeping?) && (exists i :: IsZombie(s, i)) ==>
      s.pending || s.slot || s.reaper.Reaping?
  }

  lemma ChildrenKept(s: State, e: Event)
    requires Inv(s) && Enabled(s, e)
    ensures Children(Apply(s, e)) && ChannelsPlaced(Apply(s, e))
  {
    hide Owned, Registered, Delivered, Truthful;
  }

  lemma RegisteredKept(s: State, e: Event)
    requires Inv(s) && Enabled(s, e)
    ensures Registered(Apply(s, e))
  {
    hide Owned, Delivered, Truthful, PidFree;
  }

  lemma OwnedKept(s: State, e: Event)
    requires Inv(s) && Enabled(s, e)
    ensures Owned(Apply(s, e))
  {
    hide Delivered, Truthful, ChannelsPlaced;
  }

  lemma DeliveredKept(s: State, e: Event)
    requires Inv(s) && Enabled(s, e)
    ensures Delivered(Apply(s, e))
  {
    hide Truthful, PidFree;
  }

  lemma TruthfulKept(s: State, e: Event)
    requires Inv(s) && Enabled(s, e)
    ensures Truthful(Apply(s, e))
  {
    hide PidFree;
  }

  lemma AwakeKept(s: State, e: Event)
    requires Awake(s) && Enabled(s, e)
    ensures Awake(Apply(s, e))
  {
    var t := Apply(s, e);
    if i :| IsZombie(t, i) {
      assert !e.Exit? ==> IsZombie(s, i);
    }
  }

  /** After any interleaving the invariant holds and no wakeup is lost. */
  lemma {:induction false} InvOverRuns(tr: seq<State>, es: seq<Event>, n: nat)
    requires IsRun(tr, es) && n <= |es|
    ensures Inv(tr[n]) && Awake(tr[n])
  {
    hide Children, Registered, Owned, Delivered, Truthful, ChannelsPlaced, Awake, Apply, Enabled;
    if n > 0 {
      InvOverRuns(tr, es, n - 1);
      assert StepAt(tr, es, n - 1);
      StepKeeps(tr[n - 1], es[n - 1]);
    } else {
      InvAtStart();
    }
  }

  lemma InvAtStart()
    ensures Inv(START) && Awake(START)
  {
  }

  lemma StepKeeps(s: State, e: Event)
    requires Inv(s) && Awake(s) && Enabled(s, e)
    ensures Inv(Apply(s, e)) && Awake(Apply(s, e))
  {
    hide Children, Registered, Owned, Delivered, Truthful, ChannelsPlaced, Awake, Apply, Enabled;
    ChildrenKept(s, e);
    RegisteredKept(s, e);
    OwnedKept(s, e);
    DeliveredKept(s, e);
    TruthfulKept(s, e);
    AwakeKept(s, e);
  }

  /**
   However PIDs are reused, signals coalesce and commands are cancelled, a command that took the status
   branch got the exit status of the process it started.
   */
  lemma OwnExitStatus(tr: seq<State>, es: seq<Event>, n: nat, r: Id)
    requires IsRun(tr, es) && n <= |es|
    requires r in tr[n].runs && !tr[n].runs[r].stage.Waiting? && tr[n].runs[r].stage.result.Some?
    ensures r in tr[n].exits && tr[n].runs[r].stage.result == Some(tr[n].exits[r])
  {
    InvOverRuns(tr, es, n);
  }

  /** A command that receives does take a status, that of its own process, and keeps it to the end. */
  lemma ReceivedIsOwn(tr: seq<State>, es: seq<Event>, n: nat, r: Id)
    requires IsRun(tr, es) && n < |es| && es[n] == Receive(r)
    ensures r in tr[n].exits && r in tr[n + 1].runs && tr[n + 1].runs[r].stage == Chosen(Some(tr[n].exits[r]))
  {
    InvOverRuns(tr, es, n);
    InvOverRuns(tr, es, n + 1);
    assert StepAt(tr, es, n);
  }

  lemma {:induction false} ResultIsFinal(tr: seq<State>, es: seq<Event>, n: nat, m: nat, r: Id)
    requires IsRun(tr, es) && n <= m <= |es| && r in tr[n].runs && !tr[n].runs[r].stage.Waiting?
    ensures r in tr[m].runs && !tr[m].runs[r].stage.Waiting?
    ensures tr[m].runs[r].stage.result == tr[n].runs[r].stage.result && tr[m].runs[r].pid == tr[n].runs[r].pid
    decreases m - n
  {
    if n < m {
      hide Apply, Enabled;
      ResultIsFinal(tr, es, n, m - 1, r);
      assert StepAt(tr, es, m - 1);
      StepKeepsResult(tr[m - 1], es[m - 1], r);
    }
  }

  lemma StepKeepsResult(s: State, e: Event, r: Id)
    requires Enabled(s, e) && r in s.runs && !s.runs[r].stage.Waiting?
    ensures var t := Apply(s, e);
            r in t.runs && !t.runs[r].stage.Waiting?
            && t.runs[r].stage.result == s.runs[r].stage.result && t.runs[r].pid == s.runs[r].pid
  {
  }

  /** The reaper never blocks on a send while it holds the mutex: it can reap any zombie there is. */
  lemma ReaperNeverBlocks(tr: seq<State>, es: seq<Event>, n: nat, i: Id)
    requires IsRun(tr, es) && n <= |es|
    requires tr[n].reaper.Reaping? && IsZombie(tr[n], i)
    ensures Enabled(tr[n], Reap(i))
  {
    InvOverRuns(tr, es, n);
  }

  /**
   Once nothing is left for the reaper to do, no zombie remains and every waiting command with a finished child
   has its status at hand.
   */
  lemma QuietMeansDelivered(tr: seq<State>, es: seq<Event>, n: nat)
    requires IsRun(tr, es) && n <= |es|
    requires tr[n].reaper.Sleeping? && !tr[n].pending && !tr[n].slot
    ensures forall i :: !IsZombie(tr[n], i)
    ensures forall r | r in tr[n].runs && tr[n].runs[r].stage.Waiting? && r in tr[n].exits ::
              Enabled(tr[n], Receive(r)) && tr[n].reg.channels[r] == Some(tr[n].exits[r])
  {
    InvOverRuns(tr, es, n);
    var s := tr[n];
    forall r | r in s.runs && s.runs[r].stage.Waiting? && r in s.exits
      ensures r in s.reg.channels && s.reg.channels[r] == Some(s.exits[r])
    {
      assert !IsZombie(s, r);
    }
  }

  /** A cancelled command has waited for its own child before it withdraws, so it leaves no child unregistered. */
  lemma WithdrawsAfterItsChild(tr: seq<State>, es: seq<Event>, n: nat, r: Id)
    requires IsRun(tr, es) && n <= |es|
    requires r in tr[n].runs && (tr[n].runs[r].stage.Waited? || tr[n].runs[r].stage.Returned?)
    ensures r !in tr[n].procs
  {
    InvOverRuns(tr, es, n);
  }

  /** Why unsubscribing compares channels: under a cancelled command's PID a newer command may be registered by then. */
  lemma NewerSubscriptionSurvives() returns (tr: seq<State>, es: seq<Event>)
    ensures IsRun(tr, es) && |es| == 6 && es[5] == Unsubscribe(1)
    ensures 1 in tr[5].runs && tr[5].runs[1].pid in tr[5].reg.subscribers
    ensures tr[5].reg.subscribers[tr[5].runs[1].pid] == 2 && 2 in tr[5].procs
    ensures tr[6].reg == tr[5].reg
  {
    es := [Start(1, 7), Cancel(1), Exit(1, 0), CmdWait(1), Start(2, 7), Unsubscribe(1)];
    var s4 := State(map[], map[1 := 0], Registry(map[7 := 1], map[1 := None]), map[1 := Run(7, Waited(None))], true,
        false, NotStarted);
    var before := FirstIsCancelled(s4);
    var s5 := Apply(s4, es[4]);
    var s6 := Apply(s5, es[5]);
    tr := before + [s5, s6];
    assert es[..4] == [Start(1, 7), Cancel(1), Exit(1, 0), CmdWait(1)];
    forall i | 0 <= i < |es|
      ensures StepAt(tr, es, i)
    {
      hide Apply, Enabled;
      assert i < 4 ==> StepAt(before, es[..4], i);
      assert i == 4 ==> Enabled(s4, es[4]);
      assert i == 5 ==> Enabled(s5, es[5]);
    }
  }

  lemma FirstIsCancelled(s4: State) returns (tr: seq<State>)
    requires s4 == State(map[], map[1 := 0], Registry(map[7 := 1], map[1 := None]), map[1 := Run(7, Waited(None))],
        true, false, NotStarted)
    ensures IsRun(tr, [Start(1, 7), Cancel(1), Exit(1, 0), CmdWait(1)]) && tr[4] == s4
  {
    var es := [Start(1, 7), Cancel(1), Exit(1, 0), CmdWait(1)];
    var s1 := Apply(START, es[0]);
    var s2 := Apply(s1, es[1]);
    var s3 := Apply(s2, es[2]);
    assert Apply(s3, es[3]) == s4;
    tr := [START, s1, s2, s3, s4];
    forall i | 0 <= i < |es|
      ensures StepAt(tr, es, i)
    {
      hide Apply, Enabled;
      assert i == 0 || i == 1 || i == 2 || i == 3;
    }
  }

  ghost predicate Reachable(s: State) {
    exists tr, es :: IsRun(tr, es) && tr[|es|] == s
  }

  lemma ReachableStep(s: State, e: Event, s': State)
    requires Reachable(s) && Enabled(s, e) && s' == Apply(s, e)
    ensures Reachable(s')
  {
    hide Enabled, Apply;
    var tr, es :| IsRun(tr, es) && tr[|es|] == s;
    var tr', es' := tr + [s'], es + [e];
    forall i | 0 <= i < |es'|
      ensures StepAt(tr', es', i)
    {
      assert i < |es| ==> StepAt(tr, es, i);
    }
    assert IsRun(tr', es') && tr'[|es'|] == s';
  }

  /** One child whose command waits for it, in the given condition. */
  function OneChild(life: Life, exits: map<Id, int>, pending: bool, slot: bool, reaper: Reaper): State {
    State(map[1 := Proc(7, life)], exits, Registry(map[7 := 1], map[1 := None]), map[1 := Run(7, Waiting)],
          pending, slot, reaper)
  }

  lemma ChildStarted() returns (s: State)
    ensures Reachable(s) && s == OneChild(Running, map[], false, false, Sleeping)
  {
    hide Reachable, IsRun;
    StartReachable();
    var s1 := OneChild(Running, map[], false, false, NotStarted);
    ReachableStep(START, Start(1, 7), s1);
    var s2 := s1.(reaper := Reaping);
    ReachableStep(s1, ReaperStart, s2);
    s := s2.(reaper := Sleeping);
    ReachableStep(s2, NoneLeft, s);
  }

  lemma ChildExits(s: State) returns (t: State)
    requires Reachable(s) && s == OneChild(Running, map[], false, false, Sleeping)
    ensures Reachable(t) && t == OneChild(Zombie(3), map[1 := 3], false, false, Reaping)
  {
    hide Reachable, IsRun;
    var s1 := OneChild(Zombie(3), map[1 := 3], true, false, Sleeping);
    ReachableStep(s, Exit(1, 3), s1);
    var s2 := s1.(pending := false, slot := true);
    ReachableStep(s1, Deliver, s2);
    t := s2.(slot := false, reaper := Reaping);
    ReachableStep(s2, Wake, t);
  }

  /** The reaper does get quiet: here its first signal led to the only exit, whose status now waits for the command. */
  lemma QuietRun() returns (s: State)
    ensures Reachable(s) && s.reaper.Sleeping? && !s.pending && !s.slot
    ensures 1 in s.runs && s.runs[1].stage.Waiting? && s.procs == map[] && Enabled(s, Receive(1))
    ensures s.reg.subscribers == map[] && s.reg.channels == map[1 := Some(3)] && s.exits == map[1 := 3]
  {
    hide Reachable, IsRun;
    var started := ChildStarted();
    var zombie := ChildExits(started);
    var reaped := zombie.(procs := map[], reg := Registry(map[], map[1 := Some(3)]));
    ReachableStep(zombie, Reap(1), reaped);
    s := reaped.(reaper := Sleeping);
    ReachableStep(reaped, NoneLeft, s);
  }

  lemma StartReachable()
    ensures Reachable(START)
  {
    var none: seq<Event> := [];
    assert IsRun([START], none) && [START][|none|] == START;
  }

  // ----- The code

  /** What wait4 with WNOHANG may answer. */
  datatype Answer = Exited(pid: Pid, status: int) | Interrupted | NoMore | OtherError

  /** An interrupted call is repeated; nothing left to reap, or any other error, ends the pass. */
  predicate Ends(a: Answer) {
    a.NoMore? || a.OtherError?
  }

  /** The registry after the answers have been handled one by one, while every send succeeds. */
  function Handled(g: Registry, answers: seq<Answer>): Registry {
    if |answers| == 0 then g
    else
      var h := Handled(g, answers[..|answers| - 1]);
      var a := answers[|answers| - 1];
      if a.Exited? && CanSend(h, a.pid) then Notify(h, a.pid, a.status) else h
  }

  /** Registered channels are distinct and empty, as `Registered` has it of the machine. */
  ghost predicate Sendable(g: Registry) {
    && (forall p | p in g.subscribers :: CanSend(g, p))
    && (forall p, q | p in g.subscribers && q in g.subscribers && p != q :: g.subscribers[p] != g.subscribers[q])
  }

  /** In every reachable state the registry is as DoReaping needs it. */
  lemma ReapingIsPossible(tr: seq<State>, es: seq<Event>, n: nat)
    requires IsRun(tr, es) && n <= |es|
    ensures Sendable(tr[n].reg)
  {
    InvOverRuns(tr, es, n);
  }

  ghost predicate Once(answers: seq<Answer>) {
    forall i, j | 0 <= i < j < |answers| && answers[i].Exited? && answers[j].Exited? :: answers[i].pid != answers[j].pid
  }

  ghost predicate HasExit(answers: seq<Answer>, p: Pid) {
    exists i :: 0 <= i < |answers| && answers[i].Exited? && answers[i].pid == p
  }

  lemma {:induction false} HandledSubscribers(g: Registry, answers: seq<Answer>)
    requires Sendable(g)
    ensures Sendable(Handled(g, answers))
    ensures forall p :: p in Handled(g, answers).subscribers <==> p in g.subscribers && !HasExit(answers, p)
    ensures forall p | p in Handled(g, answers).subscribers :: Handled(g, answers).subscribers[p] == g.subscribers[p]
  {
    if |answers| > 0 {
      var n := |answers| - 1;
      HandledSubscribers(g, answers[..n]);
      var h := Handled(g, answers[..n]);
      forall p
        ensures HasExit(answers, p) <==> HasExit(answers[..n], p) || (answers[n].Exited? && answers[n].pid == p)
      {
        if HasExit(answers[..n], p) {
          var i :| 0 <= i < n && answers[..n][i].Exited? && answers[..n][i].pid == p;
          assert answers[i].pid == p;
        }
      }
    }
  }

  lemma EarlierExits(answers: seq<Answer>, n: nat, p: Pid)
    requires n <= |answers| && HasExit(answers[..n], p)
    ensures HasExit(answers, p)
  {
    var i :| 0 <= i < n && answers[..n][i].Exited? && answers[..n][i].pid == p;
    assert answers[i].pid == p;
  }

  /** A channel none of whose PIDs is reaped stays as it is. */
  lemma {:induction false} HandledOther(g: Registry, answers: seq<Answer>, c: Id)
    requires Sendable(g)
    ensures c in Handled(g, answers).channels <==> c in g.channels
    ensures c in g.channels && (forall p | p in g.subscribers && g.subscribers[p] == c :: !HasExit(answers, p)) ==>
              Handled(g, answers).channels[c] == g.channels[c]
  {
    if |answers| > 0 {
      hide Sendable;
      var n := |answers| - 1;
      HandledOther(g, answers[..n], c);
      HandledSubscribers(g, answers[..n]);
      forall p | HasExit(answers[..n], p)
        ensures HasExit(answers, p)
      {
        EarlierExits(answers, n, p);
      }
      if answers[n].Exited? {
        assert HasExit(answers, answers[n].pid);
      }
    }
  }

  /** A reaped PID's subscriber has that PID's status. */
  lemma {:induction false} HandledAt(g: Registry, answers: seq<Answer>, i: nat)
    requires Sendable(g) && Once(answers) && i < |answers| && answers[i].Exited? && answers[i].pid in g.subscribers
    ensures g.subscribers[answers[i].pid] in Handled(g, answers).channels
    ensures Handled(g, answers).channels[g.subscribers[answers[i].pid]] == Some(answers[i].status)
  {
    var n := |answers| - 1;
    HandledSubscribers(g, answers[..n]);
    if i < n {
      HandledAt(g, answers[..n], i);
      assert answers[n].Exited? ==> answers[n].pid != answers[i].pid;
    } else {
      assert !HasExit(answers[..n], answers[i].pid);
    }
  }

  /** Each reaped PID's subscriber, and nobody else, has that PID's status, whatever the order of the answers. */
  lemma HandledExactly(g: Registry, answers: seq<Answer>, c: Id)
    requires Sendable(g) && Once(answers)
    ensures c in Handled(g, answers).channels <==> c in g.channels
    ensures forall i | 0 <= i < |answers| && answers[i].Exited? && answers[i].pid in g.subscribers
                       && g.subscribers[answers[i].pid] == c ::
              c in g.channels && Handled(g, answers).channels[c] == Some(answers[i].status)
    ensures c in g.channels && (forall p | p in g.subscribers && g.subscribers[p] == c :: !HasExit(answers, p)) ==>
              Handled(g, answers).channels[c] == g.channels[c]
  {
    hide Handled, Once, Sendable, HasExit;
    HandledOther(g, answers, c);
    forall i | 0 <= i < |answers| && answers[i].Exited? && answers[i].pid in g.subscribers
               && g.subscribers[answers[i].pid] == c
      ensures c in g.channels && Handled(g, answers).channels[c] == Some(answers[i].status)
    {
      HandledAt(g, answers, i);
    }
  }

  class SubscriberTable {
    var subscribers: map<Pid, Id>
    var channels: map<Id, Option<int>>

    function Reg(): Registry
      reads this
    {
      Registry(subscribers, channels)
    }

    constructor ()
      ensures Reg() == START.reg
    {
      subscribers, channels := map[], map[];
    }

    /** `started` is the PID of the new process, None if it could not be started; `id` names the new channel. */
    method StartAndSubscribe(started: Option<Pid>, id: Id) returns (ch: Option<Id>)
      requires id !in channels
      modifies this
      ensures started.None? ==> ch.None? && Reg() == old(Reg())
      ensures started.Some? ==> ch == Some(id) && Reg() == Subscribe(old(Reg()), started.value, id)
      ensures started.Some? ==>
                subscribers == old(subscribers)[started.value := id] && channels == old(channels)[id := None]
    {
      if started.None? {
        return None;
      }
      channels := channels[id := None];
      subscribers := subscribers[started.value := id];
      return Some(id);
    }

    method UnsubscribeFromProcessExits(pid: Pid, ch: Id)
      modifies this`subscribers
      ensures Reg() == Unsubscribed(old(Reg()), pid, ch)
      ensures subscribers ==
                if pid in old(subscribers) && old(subscribers)[pid] == ch then old(subscribers) - {pid}
                else old(subscribers)
    {
      if pid in subscribers && subscribers[pid] == ch {
        subscribers := subscribers - {pid};
      }
    }

    method NotifyProcessExitLocked(pid: Pid, status: int)
      requires CanSend(Reg(), pid)
      modifies this
      ensures Reg() == Notify(old(Reg()), pid, status)
      ensures pid !in old(subscribers) ==> subscribers == old(subscribers) && channels == old(channels)
      ensures pid in old(subscribers) ==>
                subscribers == old(subscribers) - {pid}
                && channels == old(channels)[old(subscribers)[pid] := Some(status)]
    {
      if pid in subscribers {
        var ch := subscribers[pid];
        subscribers := subscribers - {pid};
        channels := channels[ch := Some(status)];
      }
    }

    /** One wait4 and the delivery of what it returned; the answer itself goes back to the caller. */
    method ReapProcess(answer: Answer) returns (pid: Pid, err: Option<Answer>)
      requires answer.Exited? ==> CanSend(Reg(), answer.pid)
      modifies this
      ensures Reg() == if answer.Exited? then Notify(old(Reg()), answer.pid, answer.status) else old(Reg())
      ensures pid == if answer.Exited? then answer.pid else 0
      ensures err == if answer.Exited? then None else Some(answer)
    {
      if answer.Exited? {
        NotifyProcessExitLocked(answer.pid, answer.status);
        return answer.pid, None;
      }
      return 0, Some(answer);
    }

    /** Calls wait4, which answers as in `answers`, until it has no more or fails, whatever interrupts it. */
    method DoReaping(answers: seq<Answer>) returns (n: nat)
      requires (NoMore in answers || OtherError in answers) && Sendable(Reg())
      modifies this
      ensures n < |answers| && answers[n] in {NoMore, OtherError}
      ensures NoMore !in answers[..n] && OtherError !in answers[..n]
      ensures Reg() == Handled(old(Reg()), answers[..n]) && Sendable(Reg())
    {
      n := 0;
      while true
        invariant n < |answers| && NoMore !in answers[..n] && OtherError !in answers[..n]
        invariant Reg() == Handled(old(Reg()), answers[..n]) && Sendable(Reg())
        decreases |answers| - n
      {
        assert answers == answers[..n] + [answers[n]] + answers[n + 1..];
        assert answers[..n + 1][..n] == answers[..n];
        var pid, err := ReapProcess(answers[n]);
        if err.Some? && Ends(err.value) {
          return;
        }
        HandledSubscribers(old(Reg()), answers[..n + 1]);
        n := n + 1;
      }
    }
  }
}
