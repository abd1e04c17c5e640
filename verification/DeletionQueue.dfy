/**
 The per-BackupConfig deletion queues before shutdown: who creates a queue also starts its one
 processor, requests are taken in order, and a weighted semaphore bounds physical deletions.
 */
module DeletionQueue {
  import opened Text

  const QUEUE_SIZE := 128
  const MAX_DELETIONS := 10

  datatype Request = BackupRequest(name: string) | ConfigRequest(name: string)

  /** A running processDeletionQueue goroutine: its queue key, the request in hand, whether it holds the semaphore. */
  datatype Processor = Processor(key: string, current: Option<Request>, holds: bool)

  datatype Queues = Queues(
    queues: map<string, seq<Request>>,
    processors: seq<Processor>,
    inUse: nat,                             // semaphore weight in use
    accepted: map<string, seq<Request>>,    // every request a queue took, in order
    finished: map<string, seq<Request>>)    // every request a processor is done with, in order

  const START := Queues(map[], [], 0, map[], map[])

  datatype Op =
    | Enqueue(key: string, request: Request)
    | Receive(i: nat)  // processor i takes the next request of its queue
    | Acquire(i: nat)  // and the semaphore, for a physical Backup deletion
    | Finish(i: nat)   // done, with or without having got the semaphore

  function HistoryOf(h: map<string, seq<Request>>, key: string): seq<Request> {
    if key in h then h[key] else []
  }

  function Create(q: Queues, key: string): Queues {
    if key in q.queues then q
    else q.(queues := q.queues[key := []], processors := q.processors + [Processor(key, None, false)])
  }

  predicate Enabled(q: Queues, op: Op) {
    match op
    case Enqueue(_, _) => true
    case Receive(i) => i < |q.processors| && q.processors[i].current == None
                       && q.processors[i].key in q.queues && |q.queues[q.processors[i].key]| > 0
    case Acquire(i) => i < |q.processors| && q.processors[i].current.Some?
        && q.processors[i].current.value.BackupRequest?
                       && !q.processors[i].holds && q.inUse < MAX_DELETIONS
    case Finish(i) => i < |q.processors| && q.processors[i].current.Some? && (q.processors[i].holds ==> q.inUse > 0)
  }

  function Apply(q: Queues, op: Op): Queues
    requires Enabled(q, op)
  {
    match op
    case Enqueue(key, r) =>
      var c := Create(q, key);
      if |c.queues[key]| >= QUEUE_SIZE then c
      else c.(queues := c.queues[key := c.queues[key] + [r]],
              accepted := c.accepted[key := HistoryOf(c.accepted, key) + [r]])
    case Receive(i) =>
      var p := q.processors[i];
      q.(queues := q.queues[p.key := q.queues[p.key][1..]],
         processors := q.processors[i := p.(current := Some(q.queues[p.key][0]))])
    case Acquire(i) =>
      q.(processors := q.processors[i := q.processors[i].(holds := true)], inUse := q.inUse + 1)
    case Finish(i) =>
      var p := q.processors[i];
      q.(processors := q.processors[i := p.(current := None, holds := false)],
         inUse := if p.holds then q.inUse - 1 else q.inUse,
         finished := q.finished[p.key := HistoryOf(q.finished, p.key) + [p.current.value]])
  }

  // ----- Invariants

  function Holding(ps: seq<Processor>): nat {
    if |ps| == 0 then 0 else Holding(ps[..|ps| - 1]) + if ps[|ps| - 1].holds then 1 else 0
  }

  function InHand(p: Processor): seq<Request> {
    if p.current.Some? then [p.current.value] else []
  }

  ghost predicate Served(ps: seq<Processor>, key: string) {
    exists i :: 0 <= i < |ps| && ps[i].key == key
  }

  /** A key has a queue iff it has exactly one processor. */
  ghost predicate OneProcessorEach(keys: set<string>, ps: seq<Processor>) {
    && (forall i | 0 <= i < |ps| :: ps[i].key in keys)
    && (forall k | k in keys :: Served(ps, k))
    && (forall i, j | 0 <= i < j < |ps| :: ps[i].key != ps[j].key)
  }

  /** What a queue accepted is what is finished, then what is in hand, then what waits, in that order. */
  ghost predicate InOrder(q: Queues, p: Processor) {
    && p.key in q.queues
    && HistoryOf(q.accepted, p.key) == HistoryOf(q.finished, p.key) + InHand(p) + q.queues[p.key]
  }

  ghost predicate Bounded(q: Queues) {
    && (forall k | k in q.queues :: |q.queues[k]| <= QUEUE_SIZE)
    && q.accepted.Keys + q.finished.Keys <= q.queues.Keys
  }

  /** The semaphore counts its holders, who all work on a physical Backup deletion. */
  ghost predicate SemaphoreOk(ps: seq<Processor>, inUse: nat) {
    && (forall i | 0 <= i < |ps| && ps[i].holds :: ps[i].current.Some? && ps[i].current.value.BackupRequest?)
    && Holding(ps) == inUse <= MAX_DELETIONS
  }

  ghost predicate Ok(q: Queues) {
    && OneProcessorEach(q.queues.Keys, q.processors)
    && (forall i | 0 <= i < |q.processors| :: InOrder(q, q.processors[i]))
    && Bounded(q)
    && SemaphoreOk(q.processors, q.inUse)
  }

  lemma {:induction false} HoldingUpdate(ps: seq<Processor>, i: nat, p: Processor)
    requires i < |ps|
    ensures Holding(ps[i := p]) == Holding(ps) - (if ps[i].holds then 1 else 0) + (if p.holds then 1 else 0)
  {
    var n := |ps| - 1;
    if i < n {
      HoldingUpdate(ps[..n], i, p);
      assert ps[i := p][..n] == ps[..n][i := p];
    } else {
      assert ps[i := p][..n] == ps[..n];
    }
  }

  lemma SemaphoreUpdate(ps: seq<Processor>, inUse: nat, i: nat, p: Processor, inUse': nat)
    requires SemaphoreOk(ps, inUse) && i < |ps| && inUse' <= MAX_DELETIONS
    requires p.holds ==> p.current.Some? && p.current.value.BackupRequest?
    requires inUse' == inUse - (if ps[i].holds then 1 else 0) + (if p.holds then 1 else 0)
    ensures SemaphoreOk(ps[i := p], inUse')
  {
    HoldingUpdate(ps, i, p);
  }

  lemma KeysUpdate(keys: set<string>, ps: seq<Processor>, i: nat, p: Processor)
    requires OneProcessorEach(keys, ps) && i < |ps| && p.key == ps[i].key
    ensures OneProcessorEach(keys, ps[i := p])
  {
    forall k | k in keys
      ensures Served(ps[i := p], k)
    {
      assert Served(ps, k);
      var j :| 0 <= j < |ps| && ps[j].key == k;
      assert ps[i := p][j].key == k;
    }
  }

  lemma ProcessorStarted(keys: set<string>, ps: seq<Processor>, inUse: nat, key: string)
    requires OneProcessorEach(keys, ps) && SemaphoreOk(ps, inUse) && key !in keys
    ensures OneProcessorEach(keys + {key}, ps + [Processor(key, None, false)])
    ensures SemaphoreOk(ps + [Processor(key, None, false)], inUse)
  {
    var qs := ps + [Processor(key, None, false)];
    assert qs[..|ps|] == ps;
    forall k | k in keys + {key}
      ensures Served(qs, k)
    {
      if k == key {
        assert qs[|ps|].key == key;
      } else {
        assert Served(ps, k);
        var j :| 0 <= j < |ps| && ps[j].key == k;
        assert qs[j].key == k;
      }
    }
  }

  lemma CreateOk(q: Queues, key: string)
    requires Ok(q)
    ensures Ok(Create(q, key)) && key in Create(q, key).queues
  {
    hide SemaphoreOk, Served;
    if key !in q.queues {
      var c := Create(q, key);
      ProcessorStarted(q.queues.Keys, q.processors, q.inUse, key);
      assert c.queues.Keys == q.queues.Keys + {key};
      forall i | 0 <= i < |c.processors|
        ensures InOrder(c, c.processors[i])
      {
        assert i < |q.processors| ==> InOrder(q, q.processors[i]) && c.processors[i] == q.processors[i];
      }
    }
  }

  lemma EnqueueOk(q: Queues, key: string, r: Request)
    requires Ok(q)
    ensures Ok(Apply(q, Enqueue(key, r)))
  {
    hide SemaphoreOk, OneProcessorEach, Create;
    CreateOk(q, key);
    var c, s := Create(q, key), Apply(q, Enqueue(key, r));
    assert s.queues.Keys == c.queues.Keys;
    forall i | 0 <= i < |s.processors|
      ensures InOrder(s, s.processors[i])
    {
      assert InOrder(c, c.processors[i]);
    }
  }

  /** A step of processor i leaves every queue's order intact, its own and the others'. */
  lemma StepKeepsOrder(q: Queues, op: Op, j: nat)
    requires Ok(q) && !op.Enqueue? && Enabled(q, op) && j < |q.processors|
    ensures InOrder(Apply(q, op), Apply(q, op).processors[j])
  {
    hide SemaphoreOk, Served;
    assert InOrder(q, q.processors[j]) && InOrder(q, q.processors[op.i]);
    assert op.i != j ==> q.processors[op.i].key != q.processors[j].key;
  }

  lemma ProcessorStepOk(q: Queues, op: Op)
    requires Ok(q) && !op.Enqueue? && Enabled(q, op)
    ensures Ok(Apply(q, op))
  {
    hide Served, Holding;
    var s := Apply(q, op);
    SemaphoreUpdate(q.processors, q.inUse, op.i, s.processors[op.i], s.inUse);
    KeysUpdate(q.queues.Keys, q.processors, op.i, s.processors[op.i]);
    BoundedStep(q, op);
    forall j | 0 <= j < |s.processors|
      ensures InOrder(s, s.processors[j])
    {
      StepKeepsOrder(q, op, j);
    }
  }

  lemma BoundedStep(q: Queues, op: Op)
    requires Bounded(q) && !op.Enqueue? && Enabled(q, op) && q.processors[op.i].key in q.queues
    ensures Bounded(Apply(q, op)) && Apply(q, op).queues.Keys == q.queues.Keys
  {
  }

  // ----- Whole runs

  ghost predicate StepAt(tr: seq<Queues>, ops: seq<Op>, i: nat)
    requires i < |ops| && |tr| == |ops| + 1
  {
    Enabled(tr[i], ops[i]) && tr[i + 1] == Apply(tr[i], ops[i])
  }

  ghost predicate IsRun(tr: seq<Queues>, ops: seq<Op>) {
    |tr| == |ops| + 1 && tr[0] == START && forall i | 0 <= i < |ops| :: StepAt(tr, ops, i)
  }

  /**
   In every reachable state: one processor per queue and one queue per processor, requests handled
   in the order they were accepted, at most 128 waiting per config and at most 10 physical Backup
   deletions across all configs.
   */
  lemma {:induction false} Serialized(tr: seq<Queues>, ops: seq<Op>, n: nat)
    requires IsRun(tr, ops) && n <= |ops|
    ensures Ok(tr[n])
    ensures forall k :: HistoryOf(tr[n].finished, k) <= HistoryOf(tr[n].accepted, k)
  {
    hide Ok;
    if n > 0 {
      Serialized(tr, ops, n - 1);
      assert StepAt(tr, ops, n - 1);
      if ops[n - 1].Enqueue? {
        EnqueueOk(tr[n - 1], ops[n - 1].key, ops[n - 1].request);
      } else {
        ProcessorStepOk(tr[n - 1], ops[n - 1]);
      }
    } else {
      StartOk();
    }
    forall k
      ensures HistoryOf(tr[n].finished, k) <= HistoryOf(tr[n].accepted, k)
    {
      FinishedIsPrefix(tr[n], k);
    }
  }

  lemma StartOk()
    ensures Ok(START)
  {
  }

  lemma FinishedIsPrefix(q: Queues, k: string)
    requires Ok(q)
    ensures HistoryOf(q.finished, k) <= HistoryOf(q.accepted, k)
  {
    hide SemaphoreOk;
    if k in q.queues {
      assert Served(q.processors, k);
      var i :| 0 <= i < |q.processors| && q.processors[i].key == k;
      assert InOrder(q, q.processors[i]);
    }
  }

  // ----- The controller

  class BackupDeletionController {
    var deletionQueues: map<string, seq<Request>>
    var processors: seq<Processor>
    var semaphore: nat
    ghost var accepted: map<string, seq<Request>>
    ghost var finished: map<string, seq<Request>>

    ghost function Model(): Queues
      reads this
    {
      Queues(deletionQueues, processors, semaphore, accepted, finished)
    }

    ghost predicate Valid()
      reads this
    {
      Ok(Model())
    }

    constructor ()
      ensures Valid() && Model() == START
    {
      deletionQueues, processors, semaphore := map[], [], 0;
      accepted, finished := map[], map[];
    }

    /** Fails, and only then leaves the queue as it was, when 128 requests are already waiting. */
    method EnqueueDeletionRequest(queueKey: string, request: Request) returns (ok: bool)
      requires Valid()
      modifies this
      ensures Valid() && Model() == Apply(old(Model()), Enqueue(queueKey, request))
      ensures ok <==> queueKey in old(deletionQueues) ==> |old(deletionQueues)[queueKey]| < 128
      ensures deletionQueues == old(deletionQueues)[queueKey :=
                (if queueKey in old(deletionQueues) then old(deletionQueues)[queueKey] else [])
                + if ok then [request] else []]
      ensures processors == old(processors) +
                if queueKey in old(deletionQueues) then [] else [Processor(queueKey, None, false)]
      ensures HistoryOf(accepted, queueKey) == HistoryOf(old(accepted), queueKey) + if ok then [request] else []
    {
      hide Ok;
      EnqueueOk(Model(), queueKey, request);
      if queueKey !in deletionQueues {
        deletionQueues := deletionQueues[queueKey := []];
        processors := processors + [Processor(queueKey, None, false)];
      }
      assert deletionQueues[queueKey] + [] == deletionQueues[queueKey] && old(processors) + [] == old(processors);
      ok := |deletionQueues[queueKey]| < QUEUE_SIZE;
      if ok {
        deletionQueues := deletionQueues[queueKey := deletionQueues[queueKey] + [request]];
        accepted := accepted[queueKey := HistoryOf(accepted, queueKey) + [request]];
      }
    }

    /** One receive of processor i; it is handed the oldest accepted request that is not finished yet. */
    method ReceiveNext(i: nat) returns (request: Request)
      requires Valid() && Enabled(Model(), Receive(i))
      modifies this
      ensures Valid() && Model() == Apply(old(Model()), Receive(i))
      ensures var k := processors[i].key;
              && HistoryOf(finished, k) + [request] <= HistoryOf(accepted, k)
              && k in old(deletionQueues) && old(deletionQueues)[k] != []
              && deletionQueues == old(deletionQueues)[k := old(deletionQueues)[k][1..]]
              && request == old(deletionQueues)[k][0]
              && processors == old(processors)[i := Processor(k, Some(request), old(processors)[i].holds)]
    {
      hide SemaphoreOk, OneProcessorEach, Bounded;
      ProcessorStepOk(Model(), Receive(i));
      assert InOrder(Model(), processors[i]);
      var key := processors[i].key;
      request := deletionQueues[key][0];
      deletionQueues := deletionQueues[key := deletionQueues[key][1..]];
      processors := processors[i := processors[i].(current := Some(request))];
    }

    /** The wait for the semaphore, which at most ten hold at a time. */
    method AcquireSemaphore(i: nat) returns (ok: bool)
      requires Valid() && i < |processors| && processors[i].current.Some? && processors[i].current.value.BackupRequest?
      requires !processors[i].holds
      modifies this
      ensures Valid() && (ok <==> old(semaphore) < 10) && semaphore == old(semaphore) + if ok then 1 else 0
      ensures processors == old(processors)[i := old(processors)[i].(holds := ok)]
      ensures deletionQueues == old(deletionQueues) && accepted == old(accepted) && finished == old(finished)
    {
      hide SemaphoreOk, OneProcessorEach, Bounded, InOrder;
      ok := semaphore < MAX_DELETIONS;
      if ok {
        ProcessorStepOk(Model(), Acquire(i));
        processors := processors[i := processors[i].(holds := true)];
        semaphore := semaphore + 1;
      } else {
        assert processors[i].(holds := false) == processors[i];
      }
    }

    /** The request is done with, whether it could be processed or not. */
    method FinishRequest(i: nat)
      requires Valid() && i < |processors| && processors[i].current.Some?
      modifies this
      ensures Valid() && semaphore == old(semaphore) - if old(processors)[i].holds then 1 else 0
      ensures processors == old(processors)[i := Processor(old(processors)[i].key, None, false)]
      ensures deletionQueues == old(deletionQueues) && accepted == old(accepted)
      ensures var k := old(processors)[i].key;
              HistoryOf(finished, k) == HistoryOf(old(finished), k) + [old(processors)[i].current.value]
    {
      hide OneProcessorEach, Bounded, InOrder, SemaphoreOk;
      assert SemaphoreOk(processors, semaphore);
      HolderInUse(processors, semaphore, i);
      ProcessorStepOk(Model(), Finish(i));
      var p := processors[i];
      finished := finished[p.key := HistoryOf(finished, p.key) + [p.current.value]];
      processors := processors[i := Processor(p.key, None, false)];
      semaphore := semaphore - if p.holds then 1 else 0;
    }
  }

  lemma {:induction false} HolderCounted(ps: seq<Processor>, i: nat)
    requires i < |ps|
    ensures ps[i].holds ==> Holding(ps) > 0
  {
    if i < |ps| - 1 {
      HolderCounted(ps[..|ps| - 1], i);
    }
  }

  lemma HolderInUse(ps: seq<Processor>, inUse: nat, i: nat)
    requires i < |ps| && SemaphoreOk(ps, inUse)
    ensures ps[i].holds ==> inUse > 0
  {
    HolderCounted(ps, i);
  }
}
