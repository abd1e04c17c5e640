/** The watch-fed object cache (pkg/resourcecachingclient). Objects are values; handlers are names. */
module ResourceCache {
  import opened Text

  type Object = int
  type Handler = nat
  type Id = nat

  datatype WatchedObject = WatchedObject(cached: Option<Object>, handlers: seq<Handler>)

  /** What becomes of the entry of one key; None is "no entry". */
  function SetTo(e: Option<WatchedObject>, obj: Object): WatchedObject {
    if e.Some? then e.value.(cached := Some(obj)) else WatchedObject(Some(obj), [])
  }

  function Removed(e: Option<WatchedObject>): Option<WatchedObject> {
    if e.Some? then Some(e.value.(cached := None)) else None
  }

  function WithHandler(e: Option<WatchedObject>, h: Handler): WatchedObject {
    if e.Some? then e.value.(handlers := e.value.handlers + [h]) else WatchedObject(None, [h])
  }

  /** What Get answers: from the cache, "not found" from the cache, or a live query. */
  datatype Answer = Hit(obj: Object) | NotFound | Miss

  function Lookup(e: Option<WatchedObject>): Answer {
    if e.None? then Miss else if e.value.cached.Some? then Hit(e.value.cached.value) else NotFound
  }

  // ----- The machine of one key

  /** A Get that missed, in the order of its steps; `next` is the first change its watch has yet to deliver. */
  datatype Watcher =
    | Missed
    | Fetched(obj: Object)
    | Opened(obj: Object, existed: bool, next: nat)
    | Running(existed: bool, next: nat)
    | Ended

  /**
   `history` is every state the object had, the last one being current. `fed` says a watcher wrote to the entry,
   `late` that the last to write it stored what it had fetched although its watch began on an absent object.
   */
  datatype State = State(
    history: seq<Option<Object>>,
    entry: Option<WatchedObject>,
    fed: bool,
    late: bool,
    watchers: map<Id, Watcher>)

  datatype Event =
    | Change(value: Option<Object>)
    | GetMisses(w: Id)
    | Fetch(w: Id)
    | FetchFails(w: Id)
    | OpenWatch(w: Id)
    | Store(w: Id)
    | Process(w: Id)
    | Terminate(w: Id)
    | Invalidate
    | AddHandler(h: Handler)

  function Last(s: State): Option<Object>
    requires |s.history| > 0
  {
    s.history[|s.history| - 1]
  }

  predicate Enabled(s: State, e: Event) {
    && |s.history| > 0
    && match e
       case Change(v) => v.Some? || Last(s).Some?
       case GetMisses(w) => w !in s.watchers && Lookup(s.entry).Miss?
       case Fetch(w) => w in s.watchers && s.watchers[w].Missed? && Last(s).Some?
       case FetchFails(w) => w in s.watchers && (s.watchers[w].Missed? || s.watchers[w].Fetched?)
       case OpenWatch(w) => w in s.watchers && s.watchers[w].Fetched?
       case Store(w) => w in s.watchers && s.watchers[w].Opened?
       case Process(w) => w in s.watchers && s.watchers[w].Running? && s.watchers[w].next < |s.history|
       case Terminate(w) => w in s.watchers && s.watchers[w].Running?
       case Invalidate => true
       case AddHandler(_) => true
  }

  /** A new watch first announces the object if it exists, and otherwise only what happens next. */
  function FirstNext(s: State): nat
    requires |s.history| > 0
  {
    if Last(s).Some? then |s.history| - 1 else |s.history|
  }

  function Apply(s: State, e: Event): State
    requires Enabled(s, e)
  {
    match e
    case Change(v) => s.(history := s.history + [v])
    case GetMisses(w) => s.(watchers := s.watchers[w := Missed])
    case Fetch(w) => s.(watchers := s.watchers[w := Fetched(Last(s).value)])
    case FetchFails(w) => s.(watchers := s.watchers[w := Ended])
    case OpenWatch(w) => s.(watchers := s.watchers[w := Opened(s.watchers[w].obj, Last(s).Some?, FirstNext(s))])
    case Store(w) =>
      var x := s.watchers[w];
      s.(entry := Some(SetTo(s.entry, x.obj)), fed := true, late := !x.existed,
         watchers := s.watchers[w := Running(x.existed, x.next)])
    case Process(w) =>
      var x := s.watchers[w];
      var t := s.(watchers := s.watchers[w := x.(next := x.next + 1)], late := false);
      if s.history[x.next].Some? then t.(entry := Some(SetTo(s.entry, s.history[x.next].value)), fed := true)
      else t.(entry := Removed(s.entry), fed := s.entry.Some?)
    case Terminate(w) => s.(entry := None, fed := false, late := false, watchers := s.watchers[w := Ended])
    case Invalidate => s.(entry := None, fed := false, late := false)
    case AddHandler(h) => s.(entry := Some(WithHandler(s.entry, h)))
  }

  ghost predicate StepAt(tr: seq<State>, es: seq<Event>, i: nat)
    requires i < |es| && |tr| == |es| + 1
  {
    Enabled(tr[i], es[i]) && tr[i + 1] == Apply(tr[i], es[i])
  }

  ghost predicate IsRun(tr: seq<State>, es: seq<Event>) {
    && |tr| == |es| + 1
    && |tr[0].history| > 0 && tr[0] == State(tr[0].history, None, false, false, map[])
    && forall i | 0 <= i < |es| :: StepAt(tr, es, i)
  }

  // ----- Invariants

  predicate IsRunning(s: State, w: Id) {
    w in s.watchers && s.watchers[w].Running?
  }

  predicate Drained(s: State, w: Id) {
    IsRunning(s, w) ==> s.watchers[w].next >= |s.history|
  }

  /** The watch began on an absent object and has delivered nothing yet. */
  predicate BeganAbsent(s: State, next: nat) {
    0 < next <= |s.history| && s.history[next - 1].None?
  }

  /**
   No watch is ahead of the object. One that began on an existing object still owes its announcement when the
   fetched object is stored; any other began on an absent one.
   */
  ghost predicate Placed(s: State) {
    && |s.history| > 0
    && (forall w | w in s.watchers && s.watchers[w].Opened? ::
          if s.watchers[w].existed then s.watchers[w].next < |s.history| else BeganAbsent(s, s.watchers[w].next))
    && (forall w | IsRunning(s, w) :: s.watchers[w].next <= |s.history|)
  }

  /** An entry a watcher wrote has a running watcher; any other entry holds no object. */
  ghost predicate Watched(s: State) {
    && (s.fed ==> s.entry.Some? && exists w :: IsRunning(s, w))
    && (s.entry.Some? && !s.fed ==> s.entry.value.cached.None?)
  }

  /** An entry a watcher wrote is current, or some running watch will overwrite it, or it was written late. */
  ghost predicate Fresh(s: State)
    requires |s.history| > 0
  {
    s.fed && s.entry.Some? && !s.late ==>
      s.entry.value.cached == Last(s) || exists w :: IsRunning(s, w) && !Drained(s, w)
  }

  /** A late entry holds an object, and the watch that wrote it has delivered nothing since it began without one. */
  ghost predicate LateOk(s: State) {
    s.late ==>
      && s.entry.Some? && s.entry.value.cached.Some?
      && exists w :: IsRunning(s, w) && !s.watchers[w].existed && BeganAbsent(s, s.watchers[w].next)
  }

  ghost predicate Inv(s: State) {
    Placed(s) && Watched(s) && Fresh(s) && LateOk(s)
  }

  lemma PlacedKept(s: State, e: Event)
    requires Placed(s) && Enabled(s, e)
    ensures Placed(Apply(s, e))
  {
  }

  lemma WatchedKept(s: State, e: Event)
    requires Inv(s) && Enabled(s, e)
    ensures Watched(Apply(s, e))
  {
    var t := Apply(s, e);
    assert forall w | IsRunning(s, w) && e != Terminate(w) :: IsRunning(t, w);
    if e.Store? || e.Process? {
      assert IsRunning(t, e.w);
    }
  }

  lemma FreshKept(s: State, e: Event)
    requires Inv(s) && Enabled(s, e)
    ensures Placed(Apply(s, e)) && Fresh(Apply(s, e))
  {
    hide LateOk;
    var t := Apply(s, e);
    PlacedKept(s, e);
    if t.fed && t.entry.Some? && !t.late && t.entry.value.cached != Last(t) {
      if e.Store? || e.Process? {
        assert IsRunning(t, e.w);
      } else if e.Change? {
        var w :| IsRunning(s, w);
        assert IsRunning(t, w) && !Drained(t, w);
      } else {
        var w :| IsRunning(s, w) && !Drained(s, w);
        assert IsRunning(t, w);
      }
    }
  }

  lemma LateKept(s: State, e: Event)
    requires Inv(s) && Enabled(s, e)
    ensures LateOk(Apply(s, e))
  {
    hide Fresh, Watched;
    var t := Apply(s, e);
    if t.late {
      if e.Store? {
        assert IsRunning(t, e.w) && !t.watchers[e.w].existed && BeganAbsent(t, t.watchers[e.w].next);
      } else {
        var w :| IsRunning(s, w) && !s.watchers[w].existed && BeganAbsent(s, s.watchers[w].next);
        assert IsRunning(t, w) && BeganAbsent(t, t.watchers[w].next);
      }
    }
  }

  lemma {:induction false} InvOverRuns(tr: seq<State>, es: seq<Event>, n: nat)
    requires IsRun(tr, es) && n <= |es|
    ensures Inv(tr[n])
  {
    if n > 0 {
      InvOverRuns(tr, es, n - 1);
      assert StepAt(tr, es, n - 1);
      PlacedKept(tr[n - 1], es[n - 1]);
      WatchedKept(tr[n - 1], es[n - 1]);
      FreshKept(tr[n - 1], es[n - 1]);
      LateKept(tr[n - 1], es[n - 1]);
    }
  }

  // ----- Main results

  /** What a live query would say now. */
  function Live(s: State): Answer
    requires |s.history| > 0
  {
    if Last(s).Some? then Hit(Last(s).value) else NotFound
  }

  /** Every watch still running has delivered all it has to deliver. */
  ghost predicate Settled(s: State) {
    forall w | IsRunning(s, w) :: Drained(s, w)
  }

  /**
   Once the running watches have settled, whatever was invalidated, ended or raced before, the cache answers a
   Get as a live query would, or sends it to one, in all but two cases: the last to write the entry stored an
   object that was gone when its watch began, or the entry is a handler's that no watch has written and the object
   exists. In exactly these two it is wrong.
   */
  lemma Convergence(tr: seq<State>, es: seq<Event>, n: nat)
    requires IsRun(tr, es) && n <= |es|
    requires Settled(tr[n])
    ensures |tr[n].history| > 0
    ensures Lookup(tr[n].entry) in {Miss, Live(tr[n])} <==>
              !tr[n].late && !(tr[n].entry.Some? && !tr[n].fed && Last(tr[n]).Some?)
  {
    InvOverRuns(tr, es, n);
  }

  /** So if every watch still running began while the object existed, only a handler's entry can be wrong. */
  lemma ConvergesIfExisted(tr: seq<State>, es: seq<Event>, n: nat)
    requires IsRun(tr, es) && n <= |es|
    requires forall w | IsRunning(tr[n], w) :: tr[n].watchers[w].existed
    ensures !tr[n].late
  {
    InvOverRuns(tr, es, n);
  }

  /** An object is never cached without a running watch to keep it current. */
  lemma NoOrphan(tr: seq<State>, es: seq<Event>, n: nat)
    requires IsRun(tr, es) && n <= |es|
    requires Lookup(tr[n].entry).Hit?
    ensures exists w :: IsRunning(tr[n], w)
  {
    InvOverRuns(tr, es, n);
  }

  /**
   A handler registered after the entry was cleared hides an existing object, and no Get misses any more to find
   it.
   */
  lemma HandlerHidesObject() returns (tr: seq<State>, es: seq<Event>)
    ensures IsRun(tr, es) && |es| == 6 && es[5].AddHandler?
    ensures |tr[6].history| > 0 && Settled(tr[6]) && Last(tr[6]).Some? && Lookup(tr[6].entry) == NotFound
    ensures forall w :: !Enabled(tr[6], GetMisses(w))
  {
    es := [GetMisses(0), Fetch(0), OpenWatch(0), Store(0), Terminate(0), AddHandler(5)];
    var s0 := State([Some(1)], None, false, false, map[]);
    var s1 := Apply(s0, es[0]);
    var s2 := Apply(s1, es[1]);
    var s3 := Apply(s2, es[2]);
    var s4 := Apply(s3, es[3]);
    var s5 := Apply(s4, es[4]);
    var s6 := Apply(s5, es[5]);
    tr := [s0, s1, s2, s3, s4, s5, s6];
    assert forall i | 0 <= i < |es| :: StepAt(tr, es, i);
  }

  /** A late entry: an object deleted between the fetch and the watch is cached for as long as that watch runs. */
  lemma DeletedBeforeWatch() returns (tr: seq<State>, es: seq<Event>)
    ensures IsRun(tr, es) && |es| == 5
    ensures |tr[5].history| > 0 && Settled(tr[5])
    ensures Last(tr[5]).None? && Lookup(tr[5].entry).Hit? && tr[5].late
  {
    es := [GetMisses(0), Fetch(0), Change(None), OpenWatch(0), Store(0)];
    var s0 := State([Some(1)], None, false, false, map[]);
    var s1 := Apply(s0, es[0]);
    var s2 := Apply(s1, es[1]);
    var s3 := Apply(s2, es[2]);
    var s4 := Apply(s3, es[3]);
    var s5 := Apply(s4, es[4]);
    tr := [s0, s1, s2, s3, s4, s5];
    assert forall i | 0 <= i < |es| :: StepAt(tr, es, i);
  }

  // ----- The code

  /** Added and Modified carry None when what they carry is no client object. */
  datatype WatchEvent = Added(obj: Option<Object>) | Modified(obj: Option<Object>) | Deleted | Other

  class Client {
    var watchedObjects: map<string, WatchedObject>

    function EntryOf(key: string): Option<WatchedObject>
      reads this
    {
      if key in watchedObjects then Some(watchedObjects[key]) else None
    }

    twostate predicate OthersKept(key: string)
      reads this
    {
      forall k | k != key :: EntryOf(k) == old(EntryOf(k))
    }

    constructor ()
      ensures watchedObjects == map[]
    {
      watchedObjects := map[];
    }

    method Get(key: string) returns (answer: Answer)
      ensures answer == Lookup(EntryOf(key))
      ensures answer == Miss <==> key !in watchedObjects
      ensures answer == NotFound <==> key in watchedObjects && watchedObjects[key].cached.None?
      ensures forall obj :: answer == Hit(obj) <==> key in watchedObjects && watchedObjects[key].cached == Some(obj)
    {
      if key in watchedObjects {
        if watchedObjects[key].cached.None? {
          return NotFound;
        }
        return Hit(watchedObjects[key].cached.value);
      }
      return Miss;
    }

    /** `converted` is None when the received object is no client object: an error, and nothing is stored. */
    method SetToCache(key: string, converted: Option<Object>) returns (ok: bool)
      modifies this
      ensures ok <==> converted.Some?
      ensures watchedObjects ==
                if ok then old(watchedObjects)[key := WatchedObject(
                  converted, if key in old(watchedObjects) then old(watchedObjects)[key].handlers else [])]
                else old(watchedObjects)
      ensures EntryOf(key) == if ok then Some(SetTo(old(EntryOf(key)), converted.value)) else old(EntryOf(key))
      ensures OthersKept(key)
    {
      if converted.None? {
        return false;
      }
      var obj := converted.value;
      ok := true;
      if key in watchedObjects {
        watchedObjects := watchedObjects[key := watchedObjects[key].(cached := Some(obj))];
      } else {
        watchedObjects := watchedObjects[key := WatchedObject(Some(obj), [])];
      }
    }

    method RemoveFromCache(key: string)
      modifies this
      ensures EntryOf(key) == Removed(old(EntryOf(key))) && OthersKept(key)
      ensures watchedObjects ==
                if key in old(watchedObjects)
                then old(watchedObjects)[key := WatchedObject(None, old(watchedObjects)[key].handlers)]
                else old(watchedObjects)
    {
      if key in watchedObjects {
        watchedObjects := watchedObjects[key := watchedObjects[key].(cached := None)];
      }
    }

    method AddHandler(key: string, h: Handler)
      modifies this
      ensures EntryOf(key) == Some(WithHandler(old(EntryOf(key)), h)) && OthersKept(key)
      ensures watchedObjects ==
                if key in old(watchedObjects)
                then old(watchedObjects)[key := WatchedObject(old(watchedObjects)[key].cached,
                                                              old(watchedObjects)[key].handlers + [h])]
                else old(watchedObjects)[key := WatchedObject(None, [h])]
    {
      if key !in watchedObjects {
        watchedObjects := watchedObjects[key := WatchedObject(None, [h])];
        return;
      }
      watchedObjects := watchedObjects[key := watchedObjects[key].(handlers := watchedObjects[key].handlers + [h])];
    }

    method ClearEntryByKey(key: string)
      modifies this
      ensures EntryOf(key) == None && OthersKept(key)
      ensures watchedObjects == old(watchedObjects) - {key}
    {
      watchedObjects := watchedObjects - {key};
    }

    /**
     The loop over one watch: it applies every event of the stream, then, the watch having ended, clears the
     entry.
     */
    method UpdateCache(key: string, stream: seq<WatchEvent>) returns (ghost last: Option<WatchedObject>)
      modifies this
      ensures last == Fed(old(EntryOf(key)), stream)
      ensures EntryOf(key) == None && OthersKept(key)
    {
      for i := 0 to |stream|
        invariant EntryOf(key) == Fed(old(EntryOf(key)), stream[..i]) && OthersKept(key)
      {
        assert stream[..i + 1][..i] == stream[..i];
        match stream[i]
        case Added(obj) =>
          var _ := SetToCache(key, obj);
        case Modified(obj) =>
          var _ := SetToCache(key, obj);
        case Deleted => RemoveFromCache(key);
        case Other =>
      }
      assert stream[..|stream|] == stream;
      last := EntryOf(key);
      ClearEntryByKey(key);
    }
  }

  /** The entry after the events of one watch, if nobody else writes it meanwhile. */
  function Fed(e: Option<WatchedObject>, stream: seq<WatchEvent>): Option<WatchedObject> {
    if |stream| == 0 then e
    else
      var before := Fed(e, stream[..|stream| - 1]);
      match stream[|stream| - 1]
      case Added(obj) => if obj.Some? then Some(SetTo(before, obj.value)) else before
      case Modified(obj) => if obj.Some? then Some(SetTo(before, obj.value)) else before
      case Deleted => Removed(before)
      case Other => before
  }

  /** A stream leaves the handlers alone; its last change is what is cached, and other events change nothing. */
  lemma {:induction false} FedKeepsHandlers(e: Option<WatchedObject>, stream: seq<WatchEvent>)
    ensures e.Some? ==> Fed(e, stream).Some? && Fed(e, stream).value.handlers == e.value.handlers
    ensures stream == [] ==> Fed(e, stream) == e
    ensures stream != [] ==>
              var before, after := Fed(e, stream[..|stream| - 1]), Fed(e, stream);
              match stream[|stream| - 1]
              case Added(Some(obj)) => after.Some? && after.value.cached == Some(obj)
              case Modified(Some(obj)) => after.Some? && after.value.cached == Some(obj)
              case Deleted => (after.Some? <==> before.Some?) && (after.Some? ==> after.value.cached.None?)
              case _ => after == before
  {
    if |stream| > 0 {
      FedKeepsHandlers(e, stream[..|stream| - 1]);
    }
  }
}
