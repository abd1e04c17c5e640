/**
 How wal-g backup names encode incremental chains, and which backups are built on which.

 A full backup is called base_X, a delta with own WAL id Y taken on top of X is called base_Y_D_X.
 */
module Dependency {
  import opened Text

  const BASE := "base_"
  const DELTA := "_D_"

  /** The WAL id a later delta would name as its parent. */
  function OwnWalId(name: string): string {
    var id := TrimPrefix(name, BASE);
    if Contains(id, DELTA) then Split(id, DELTA)[0] else id
  }

  /** What comes before the first "_D_" of a name, without the leading "base_". */
  lemma OwnWalIdExactly(name: string)
    ensures !Contains(OwnWalId(name), "_D_")
    ensures TrimPrefix(name, "base_") == OwnWalId(name) || OwnWalId(name) + "_D_" <= TrimPrefix(name, "base_")
  {
    var id := TrimPrefix(name, BASE);
    if Contains(id, DELTA) {
      var parts := Split(id, DELTA);
      assert parts[0] in parts;
      assert |parts| > 1;
      assert Join(parts, DELTA) == parts[0] + DELTA + Join(parts[1..], DELTA);
    }
  }

  /** Only names of exactly two pieces depend on another, on the backup the second piece is the id of. */
  lemma DirectlyDependsExactly(name: string, parent: string, head: string, tail: string)
    requires Split(name, "_D_") == [head, tail]
    ensures IsDirectDependent(name, parent) <==> name != parent && OwnWalId(parent) == tail
  {
  }

  lemma OddNamesDependOnNothing(name: string, parent: string)
    requires |Split(name, "_D_")| != 2
    ensures !IsDirectDependent(name, parent)
  {
  }

  /** The test findDirectDependencies makes for one list entry. */
  predicate IsDirectDependent(name: string, parent: string) {
    && name != parent
    && Contains(name, DELTA)
    && var parts := Split(name, DELTA);
       |parts| == 2 && parts[1] == OwnWalId(parent)
  }

  // ----- The naming scheme itself

  function FullName(x: string): string {
    BASE + x
  }

  function DeltaName(y: string, x: string): string {
    BASE + y + DELTA + x
  }

  /** WAL ids are 24 hex digits; all that matters is that they have no underscore and are not "D". */
  predicate IsWalId(id: string) {
    id != "" && id != "D" && '_' !in id
  }

  lemma DeltaAt(s: string)
    ensures forall j: nat {:trigger OccursAt(s, DELTA, j)} | OccursAt(s, DELTA, j) ::
              s[j] == '_' && s[j + 1] == 'D' && s[j + 2] == '_'
  {
    forall j: nat | OccursAt(s, DELTA, j)
      ensures s[j] == '_' && s[j + 1] == 'D' && s[j + 2] == '_'
    {
      assert s[j..j + 3] == [s[j], s[j + 1], s[j + 2]];
    }
  }

  lemma NoDelta(s: string)
    requires '_' !in s
    ensures !Contains(s, DELTA)
  {
    DeltaAt(s);
  }

  lemma SplitAt(head: string, tail: string)
    requires forall j: nat | j < |head| :: !OccursAt(head + DELTA + tail, DELTA, j)
    requires '_' !in tail
    ensures Split(head + DELTA + tail, DELTA) == [head, tail]
  {
    var s := head + DELTA + tail;
    assert OccursAt(s, DELTA, |head|);
    assert Index(s, DELTA) == Some(|head|);
    assert s[..|head|] == head && s[|head| + |DELTA|..] == tail;
    NoDelta(tail);
  }

  lemma SplitDelta(y: string, x: string)
    requires IsWalId(y) && IsWalId(x)
    ensures Split(y + DELTA + x, DELTA) == [y, x]
    ensures Split(DeltaName(y, x), DELTA) == [BASE + y, x]
  {
    var s := y + DELTA + x;
    DeltaAt(s);
    assert forall j: nat | j < |y| :: s[j] == y[j];
    SplitAt(y, x);

    var name := BASE + y + DELTA + x;
    DeltaAt(name);
    assert forall j: nat | 5 <= j < |y| + 5 :: name[j] == y[j - 5];
    assert name[|y| + 5] == '_' && name[|y| + 6] == 'D';
    assert |y| == 1 ==> y == [y[0]];
    SplitAt(BASE + y, x);
  }

  lemma OwnIdOfDelta(y: string, x: string)
    requires IsWalId(y) && IsWalId(x)
    ensures OwnWalId(DeltaName(y, x)) == y
    ensures Contains(y + DELTA + x, DELTA)
  {
    assert DeltaName(y, x) == BASE + (y + DELTA + x);
    assert DeltaName(y, x)[|BASE|..] == y + DELTA + x;
    SplitDelta(y, x);
    assert |Split(y + DELTA + x, DELTA)| == 2;
  }

  lemma OwnIdOfFull(x: string)
    requires IsWalId(x)
    ensures OwnWalId(FullName(x)) == x
  {
    NoDelta(x);
    assert FullName(x)[|BASE|..] == x;
  }

  /**
   Names are read back as they were built: a delta depends on exactly the backups whose own id it
   was taken on, a full backup on none.
   */
  lemma NamesRoundTrip(y: string, x: string, parent: string)
    requires IsWalId(y) && IsWalId(x)
    ensures OwnWalId(FullName(x)) == x && OwnWalId(DeltaName(y, x)) == y
    ensures IsDirectDependent(DeltaName(y, x), parent) <==> parent != DeltaName(y, x) && OwnWalId(parent) == x
    ensures !IsDirectDependent(FullName(x), parent)
  {
    OwnIdOfDelta(y, x);
    OwnIdOfFull(x);
    FullHasNoDelta(x);
    DeltaParts(y, x);
  }

  lemma DeltaParts(y: string, x: string)
    requires IsWalId(y) && IsWalId(x)
    ensures Contains(DeltaName(y, x), DELTA)
    ensures |Split(DeltaName(y, x), DELTA)| == 2 && Split(DeltaName(y, x), DELTA)[1] == x
  {
    SplitDelta(y, x);
  }

  lemma FullHasNoDelta(x: string)
    requires '_' !in x
    ensures !Contains(FullName(x), DELTA)
  {
    var s := FullName(x);
    DeltaAt(s);
    assert forall j: nat | 5 <= j < |s| :: s[j] == x[j - 5];
  }

  // ----- Transitive dependency

  ghost predicate LinkAt(path: seq<string>, names: set<string>, i: nat)
    requires 1 <= i < |path|
  {
    path[i] in names && IsDirectDependent(path[i], path[i - 1])
  }

  /** Each element after the first is a known name and a direct dependent of its predecessor. */
  ghost predicate IsChain(path: seq<string>, names: set<string>) {
    |path| >= 2 && forall i | 1 <= i < |path| :: LinkAt(path, names, i)
  }

  /** `name` is built on `root`, through one or more links that are all in `names`. */
  ghost predicate DependsOn(names: set<string>, root: string, name: string) {
    exists path: seq<string> :: IsChain(path, names) && path[0] == root && path[|path| - 1] == name
  }

  lemma DependsDirectly(names: set<string>, root: string, name: string)
    requires name in names && IsDirectDependent(name, root)
    ensures DependsOn(names, root, name)
  {
    hide IsDirectDependent;
    assert LinkAt([root, name], names, 1);
    assert IsChain([root, name], names);
  }

  lemma DependsTransitively(names: set<string>, a: string, b: string, c: string)
    requires DependsOn(names, a, b) && DependsOn(names, b, c)
    ensures DependsOn(names, a, c)
  {
    hide IsDirectDependent;
    var p: seq<string> :| IsChain(p, names) && p[0] == a && p[|p| - 1] == b;
    var q: seq<string> :| IsChain(q, names) && q[0] == b && q[|q| - 1] == c;
    var r := p + q[1..];
    forall i | 1 <= i < |r|
      ensures LinkAt(r, names, i)
    {
      if i < |p| {
        assert LinkAt(p, names, i);
      } else {
        assert LinkAt(q, names, i - |p| + 1);
        assert r[i - 1] == q[i - |p|];
      }
    }
    assert IsChain(r, names);
  }

  lemma DependsMonotone(names: set<string>, more: set<string>, root: string, name: string)
    requires DependsOn(names, root, name) && names <= more
    ensures DependsOn(more, root, name)
  {
    hide IsDirectDependent;
    var p: seq<string> :| IsChain(p, names) && p[0] == root && p[|p| - 1] == name;
    forall i | 1 <= i < |p|
      ensures LinkAt(p, more, i)
    {
      assert LinkAt(p, names, i);
    }
    assert IsChain(p, more);
  }

  /** Anything closed under direct dependents contains every transitive one. */
  lemma ClosureCovers(names: set<string>, closed: set<string>, root: string, name: string)
    requires forall d | d in names && IsDirectDependent(d, root) :: d in closed
    requires forall k, d | k in closed && d in names && IsDirectDependent(d, k) :: d in closed
    requires DependsOn(names, root, name)
    ensures name in closed
  {
    hide IsDirectDependent;
    var p: seq<string> :| IsChain(p, names) && p[0] == root && p[|p| - 1] == name;
    var i := 1;
    assert LinkAt(p, names, 1);
    while i < |p| - 1
      invariant 1 <= i < |p|
      invariant p[i] in closed
    {
      i := i + 1;
      assert LinkAt(p, names, i);
    }
  }

  /** When every delta's own id is greater than its parent's, dependents come strictly later. */
  ghost predicate IdsGrow(names: set<string>, root: string) {
    forall c, p | c in names && p in names + {root} && IsDirectDependent(c, p) :: Less(OwnWalId(p), OwnWalId(c))
  }

  lemma DependentsAreLater(names: set<string>, root: string, name: string)
    requires IdsGrow(names, root) && DependsOn(names, root, name)
    ensures Less(OwnWalId(root), OwnWalId(name)) && name != root
  {
    hide IsDirectDependent;
    var p: seq<string> :| IsChain(p, names) && p[0] == root && p[|p| - 1] == name;
    var i := 1;
    assert LinkAt(p, names, 1);
    while i < |p| - 1
      invariant 1 <= i < |p|
      invariant p[i] in names
      invariant Less(OwnWalId(root), OwnWalId(p[i]))
    {
      assert LinkAt(p, names, i + 1);
      LessTransitive(OwnWalId(root), OwnWalId(p[i]), OwnWalId(p[i + 1]));
      i := i + 1;
    }
    LessTotal(OwnWalId(root), OwnWalId(name));
  }

  /** Dropping names that are no ancestors of `name` does not break a chain leading to it. */
  lemma AncestorsSuffice(names: set<string>, kept: set<string>, root: string, name: string)
    requires DependsOn(names, root, name) && name in kept
    requires forall x | x in names && DependsOn(names, x, name) :: x in kept
    ensures DependsOn(kept, root, name)
  {
    hide IsDirectDependent;
    var p: seq<string> :| IsChain(p, names) && p[0] == root && p[|p| - 1] == name;
    forall i | 1 <= i < |p|
      ensures LinkAt(p, kept, i)
    {
      assert LinkAt(p, names, i);
      if i < |p| - 1 {
        var q := p[i..];
        forall j | 1 <= j < |q|
          ensures LinkAt(q, names, j)
        {
          assert LinkAt(p, names, i + j);
        }
        assert IsChain(q, names);
        assert DependsOn(names, p[i], name);
      }
    }
    assert IsChain(p, kept);
  }

  /** A name nothing is built on yet does not add dependencies between the old ones. */
  lemma NewLeaf(names: set<string>, leaf: string, root: string, name: string)
    requires forall y | y in names :: !IsDirectDependent(y, leaf)
    requires name in names && DependsOn(names + {leaf}, root, name)
    ensures DependsOn(names, root, name) && root != leaf
  {
    hide IsDirectDependent;
    var p: seq<string> :| IsChain(p, names + {leaf}) && p[0] == root && p[|p| - 1] == name;
    var i := |p| - 1;
    while i > 0
      invariant 0 <= i < |p|
      invariant forall j | i <= j < |p| && 1 <= j :: p[j] in names
      invariant i < |p| - 1 ==> p[i] != leaf
    {
      assert LinkAt(p, names + {leaf}, i);
      if i > 1 {
        assert LinkAt(p, names + {leaf}, i - 1);
      }
      i := i - 1;
    }
    forall j | 1 <= j < |p|
      ensures LinkAt(p, names, j)
    {
      assert LinkAt(p, names + {leaf}, j);
    }
    assert IsChain(p, names);
  }
}
