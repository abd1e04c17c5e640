/** Status conditions of a BackupConfig, their history, and the phase computed from them. */
module Conditions {
  import opened Text

  datatype CondStatus = CondTrue | CondFalse | CondUnknown

  datatype Condition = Condition(kind: string, status: CondStatus, since: int, generation: int, reason: string)

  const CREDENTIALS_VALID := "CredentialsValid"
  const STORAGE_READABLE := "StorageReadable"
  const STORAGE_WRITABLE := "StorageWritable"
  const WAL_INTEGRITY := "WALIntegrityCheckPassed"

  /** The first condition of a kind. */
  function Lookup(conds: seq<Condition>, kind: string): Option<Condition> {
    if |conds| == 0 then None
    else if conds[0].kind == kind then Some(conds[0])
    else Lookup(conds[1..], kind)
  }

  lemma {:induction false} LookupFirst(conds: seq<Condition>, kind: string)
    ensures match Lookup(conds, kind)
            case Some(c) =>
              && c.kind == kind
              && exists i :: 0 <= i < |conds| && conds[i] == c && forall j | 0 <= j < i :: conds[j].kind != kind
            case None => forall c | c in conds :: c.kind != kind
  {
    if |conds| > 0 {
      if conds[0].kind != kind {
        LookupFirst(conds[1..], kind);
        if Lookup(conds, kind).Some? {
          var c := Lookup(conds, kind).value;
          var i :| 0 <= i < |conds[1..]| && conds[1..][i] == c && forall j | 0 <= j < i :: conds[1..][j].kind != kind;
          assert conds[i + 1] == c;
          forall j | 0 <= j < i + 1
            ensures conds[j].kind != kind
          {
            assert j > 0 ==> conds[j] == conds[1..][j - 1];
          }
        }
      } else {
        assert conds[0] == Lookup(conds, kind).value;
      }
    }
  }

  function StatusOf(conds: seq<Condition>, kind: string): Option<CondStatus> {
    match Lookup(conds, kind) case None => None case Some(c) => Some(c.status)
  }

  function Kinds(conds: seq<Condition>): seq<string> {
    seq(|conds|, i requires 0 <= i < |conds| => conds[i].kind)
  }

  ghost predicate UniqueKinds(conds: seq<Condition>) {
    forall i, j | 0 <= i < j < |conds| :: conds[i].kind != conds[j].kind
  }

  /** The first condition of `c`'s kind is replaced, or `c` is appended; an unchanged status keeps its start. */
  function Set(conds: seq<Condition>, c: Condition): (r: seq<Condition>)
    ensures Lookup(r, c.kind) == Some(c.(since := SinceAfter(Lookup(conds, c.kind), c)))
    ensures forall k | k != c.kind :: Lookup(r, k) == Lookup(conds, k)
    ensures Lookup(conds, c.kind).Some? ==> |r| == |conds|
  {
    if |conds| == 0 then [c]
    else if conds[0].kind == c.kind then
      var r := [c.(since := SinceAfter(Some(conds[0]), c))] + conds[1..];
      assert r[1..] == conds[1..];
      r
    else
      var rest := Set(conds[1..], c);
      var r := [conds[0]] + rest;
      assert r[1..] == rest;
      r
  }

  function SinceAfter(prev: Option<Condition>, c: Condition): int {
    if prev.Some? && prev.value.status == c.status then prev.value.since else c.since
  }

  lemma KindsCons(c: Condition, conds: seq<Condition>)
    ensures Kinds([c] + conds) == [c.kind] + Kinds(conds)
  {
  }

  /** Kinds keep their places; a new kind goes to the end. */
  lemma {:induction false} SetKinds(conds: seq<Condition>, c: Condition)
    ensures Kinds(Set(conds, c)) == if Lookup(conds, c.kind).Some? then Kinds(conds) else Kinds(conds) + [c.kind]
  {
    hide Kinds;
    if |conds| == 0 {
      KindsCons(c, []);
      assert [c] + [] == [c];
      NoKinds();
    } else {
      KindsCons(conds[0], conds[1..]);
      assert [conds[0]] + conds[1..] == conds;
      if conds[0].kind == c.kind {
        KindsCons(c.(since := SinceAfter(Some(conds[0]), c)), conds[1..]);
      } else {
        SetKinds(conds[1..], c);
        KindsCons(conds[0], Set(conds[1..], c));
      }
    }
  }

  lemma NoKinds()
    ensures Kinds([]) == []
  {
  }

  lemma {:induction false} LookupFinds(conds: seq<Condition>, kind: string)
    ensures Lookup(conds, kind).Some? <==> exists i :: 0 <= i < |conds| && conds[i].kind == kind
  {
    if |conds| > 0 && conds[0].kind != kind {
      LookupFinds(conds[1..], kind);
      if i :| 0 <= i < |conds| && conds[i].kind == kind {
        assert conds[1..][i - 1].kind == kind;
      }
    }
  }

  lemma {:induction false} LookupKind(conds: seq<Condition>, kind: string)
    requires Lookup(conds, kind).Some?
    ensures Lookup(conds, kind).value.kind == kind
  {
    if conds[0].kind != kind {
      LookupKind(conds[1..], kind);
    }
  }

  lemma SetKeepsUnique(conds: seq<Condition>, c: Condition)
    requires UniqueKinds(conds)
    ensures UniqueKinds(Set(conds, c))
  {
    SetKinds(conds, c);
    LookupFinds(conds, c.kind);
    var r := Set(conds, c);
    assert forall i | 0 <= i < |r| :: r[i].kind == Kinds(r)[i];
  }

  // ----- The controller's setCondition

  class BackupConfig {
    var generation: int
    var conditions: seq<Condition>

    constructor (generation: int)
      ensures this.generation == generation && conditions == []
    {
      this.generation, conditions := generation, [];
    }

    method SetCondition(kind: string, status: CondStatus, reason: string, now: int)
      modifies this`conditions
      ensures conditions == Set(old(conditions), Condition(kind, status, now, generation, reason))
    {
      var c := Condition(kind, status, now, generation, reason);
      for i := 0 to |conditions|
        invariant conditions == old(conditions)
        invariant forall j | 0 <= j < i :: conditions[j].kind != kind
      {
        var existing := conditions[i];
        if existing.kind == kind {
          SetAt(conditions, i, c);
          if existing.status == status {
            c := c.(since := existing.since);
          }
          conditions := conditions[i := c];
          return;
        }
      }
      SetAtEnd(conditions, c);
      conditions := conditions + [c];
    }
  }

  lemma {:induction false} SetAt(conds: seq<Condition>, i: nat, c: Condition)
    requires i < |conds| && conds[i].kind == c.kind
    requires forall j | 0 <= j < i :: conds[j].kind != c.kind
    ensures Set(conds, c) == conds[i := c.(since := SinceAfter(Some(conds[i]), c))]
  {
    if i > 0 {
      SetAt(conds[1..], i - 1, c);
    }
  }

  lemma {:induction false} SetAtEnd(conds: seq<Condition>, c: Condition)
    requires forall j | 0 <= j < |conds| :: conds[j].kind != c.kind
    ensures Set(conds, c) == conds + [c]
  {
    if |conds| > 0 {
      SetAtEnd(conds[1..], c);
    }
  }

  // ----- History

  /** What setCondition was called with for one kind: status and time. */
  datatype Mark = Mark(status: CondStatus, at: int)

  function SetAll(conds: seq<Condition>, calls: seq<Condition>): seq<Condition> {
    if |calls| == 0 then conds
    else Set(SetAll(conds, calls[..|calls| - 1]), calls[|calls| - 1])
  }

  function MarksOf(calls: seq<Condition>, kind: string): seq<Mark> {
    if |calls| == 0 then []
    else
      var last := calls[|calls| - 1];
      MarksOf(calls[..|calls| - 1], kind) + if last.kind == kind then [Mark(last.status, last.since)] else []
  }

  /** The last run of equal statuses in `marks` begins at k; at 0 it may continue the initial condition. */
  ghost predicate RunFrom(marks: seq<Mark>, k: nat, status: CondStatus) {
    && k < |marks|
    && (forall i | k <= i < |marks| :: marks[i].status == status)
    && (k > 0 ==> marks[k - 1].status != status)
  }

  /** `c` carries the last status that was set, and the time its last unbroken run began. */
  ghost predicate Reflects(init: Option<Condition>, marks: seq<Mark>, c: Option<Condition>) {
    if |marks| == 0 then c == init
    else
      && c.Some?
      && exists k: nat :: RunFrom(marks, k, c.value.status)
                     && c.value.since == if k == 0 && init.Some? && init.value.status == c.value.status
                                         then init.value.since else marks[k].at
  }

  lemma ReflectsNext(init: Option<Condition>, marks: seq<Mark>, prev: Option<Condition>, c: Condition)
    requires Reflects(init, marks, prev)
    ensures Reflects(init, marks + [Mark(c.status, c.since)], Some(c.(since := SinceAfter(prev, c))))
  {
    var more := marks + [Mark(c.status, c.since)];
    if |marks| > 0 && prev.value.status == c.status {
      var k: nat :| RunFrom(marks, k, prev.value.status)
               && prev.value.since == if k == 0 && init.Some? && init.value.status == prev.value.status
                                     then init.value.since else marks[k].at;
      assert RunFrom(more, k, c.status);
    } else {
      if |marks| > 0 {
        var k: nat :| RunFrom(marks, k, prev.value.status);
        assert marks[|marks| - 1].status == prev.value.status;
      }
      assert RunFrom(more, |marks|, c.status);
    }
  }

  /**
   After any sequence of setCondition calls each kind shows the last status set for it and the
   start of its last unbroken run of that status, and unique kinds stay unique.
   */
  lemma {:induction false} ConditionHistory(conds: seq<Condition>, calls: seq<Condition>, kind: string)
    requires UniqueKinds(conds)
    ensures UniqueKinds(SetAll(conds, calls))
    ensures Reflects(Lookup(conds, kind), MarksOf(calls, kind), Lookup(SetAll(conds, calls), kind))
  {
    hide UniqueKinds;
    if |calls| > 0 {
      hide Reflects;
      var before, c := calls[..|calls| - 1], calls[|calls| - 1];
      ConditionHistory(conds, before, kind);
      SetKeepsUnique(SetAll(conds, before), c);
      if c.kind == kind {
        ReflectsNext(Lookup(conds, kind), MarksOf(before, kind), Lookup(SetAll(conds, before), kind), c);
      } else {
        assert MarksOf(calls, kind) == MarksOf(before, kind);
      }
    }
  }

  // ----- Phase

  datatype Phase = Healthy | Degraded | Failed | Unknown

  /** Failed without credentials or any storage access, else Healthy iff all hold, Degraded iff some fail. */
  ghost function PhaseOf(conds: seq<Condition>): Phase {
    if conds == [] then Unknown
    else if StatusOf(conds, CREDENTIALS_VALID) == Some(CondFalse) then Failed
    else if StatusOf(conds, STORAGE_READABLE) == Some(CondFalse)
        && StatusOf(conds, STORAGE_WRITABLE) == Some(CondFalse) then Failed
    else if forall c | c in conds :: c.status == CondTrue then Healthy
    else if exists c :: c in conds && c.status == CondFalse then Degraded
    else Unknown
  }

  /** No credentials, or storage neither readable nor writable. */
  ghost predicate Broken(conds: seq<Condition>) {
    || StatusOf(conds, "CredentialsValid") == Some(CondFalse)
    || (StatusOf(conds, "StorageReadable") == Some(CondFalse) && StatusOf(conds, "StorageWritable") == Some(CondFalse))
  }

  method DeterminePhase(conds: seq<Condition>) returns (r: Phase)
    ensures r == PhaseOf(conds)
    ensures r == Failed <==> Broken(conds)
    ensures r == Healthy <==> conds != [] && forall c | c in conds :: c.status == CondTrue
    ensures r == Degraded <==> !Broken(conds) && exists c :: c in conds && c.status == CondFalse
  {
    if |conds| == 0 {
      return Unknown;
    }
    var hasFalse, allTrue := false, true;
    for i := 0 to |conds|
      invariant hasFalse <==> exists c :: c in conds[..i] && c.status == CondFalse
      invariant allTrue <==> forall c | c in conds[..i] :: c.status == CondTrue
    {
      assert conds[..i + 1] == conds[..i] + [conds[i]];
      if conds[i].status == CondFalse {
        hasFalse, allTrue := true, false;
      } else if conds[i].status != CondTrue {
        allTrue := false;
      }
    }
    assert conds[..|conds|] == conds;
    LookupFirst(conds, CREDENTIALS_VALID);
    LookupFirst(conds, STORAGE_READABLE);
    if StatusOf(conds, CREDENTIALS_VALID) == Some(CondFalse) {
      return Failed;
    }
    if StatusOf(conds, STORAGE_READABLE) == Some(CondFalse) && StatusOf(conds, STORAGE_WRITABLE) == Some(CondFalse) {
      return Failed;
    }
    if allTrue {
      return Healthy;
    }
    if hasFalse {
      return Degraded;
    }
    return Unknown;
  }

  /** The credential-failure path stores Failed without computing it; computing it would give the same. */
  lemma CredentialFailureIsFailed(conds: seq<Condition>, c: Condition)
    requires c.kind == CREDENTIALS_VALID && c.status == CondFalse
    ensures PhaseOf(Set(conds, c)) == Failed
  {
    assert Lookup(Set(conds, c), c.kind).Some?;
  }
}
