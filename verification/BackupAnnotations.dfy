/** The labels and the dependents annotations of a Backup resource. */
module BackupAnnotations {
  import opened Text
  import opened Dependency
  import W = WalgBackups
  import P = DeletionProtocol

  const TYPE_LABEL := "cnpg-plugin-wal-g.yandex.cloud/backup-type"
  const PG_LABEL := "cnpg-plugin-wal-g.yandex.cloud/pg-major"
  const DIRECT_ANNOTATION := "cnpg-plugin-wal-g.yandex.cloud/dependent-backups-direct"
  const ALL_ANNOTATION := "cnpg-plugin-wal-g.yandex.cloud/dependent-backups-all"

  /** One entry of the list of Backups owned by the BackupConfig. */
  datatype Listed = Listed(name: string, backupId: string, deleting: bool)

  function Ids(backups: seq<Listed>): set<string> {
    set b | b in backups :: b.backupId
  }

  /** Names are unique in a namespace, never empty, and have no space. */
  ghost predicate IsListing(backups: seq<Listed>) {
    && (forall b | b in backups :: b.name != "" && ' ' !in b.name)
    && DistinctNames(backups)
  }

  ghost predicate DistinctNames(list: seq<Listed>) {
    forall i, j | 0 <= i < j < |list| :: list[i].name != list[j].name
  }

  /** A Backup that is not being deleted and is built on the one with id `id`, directly or over any intermediates. */
  ghost predicate IsLiveDependent(c: Listed, id: string, backups: seq<Listed>, includeIndirect: bool) {
    && id != "" && c in backups && !c.deleting
    && if includeIndirect then DependsOn(Ids(backups), id, c.backupId) else IsDirectDependent(c.backupId, id)
  }

  ghost predicate Sorted(list: seq<Listed>) {
    forall i, j | 0 <= i < j < |list| :: Less(list[i].name, list[j].name)
  }

  ghost predicate IsDependentsList(r: seq<Listed>, id: string, backups: seq<Listed>, includeIndirect: bool) {
    && Sorted(r)
    && forall c :: c in r <==> IsLiveDependent(c, id, backups, includeIndirect)
  }

  method BuildDependentBackups(id: string, backups: seq<Listed>, includeIndirect: bool) returns (result: seq<Listed>)
    requires IsListing(backups)
    ensures IsDependentsList(result, id, backups, includeIndirect)
  {
    hide DependsOn, IsDirectDependent, Less;
    if id == "" {
      return [];
    }
    var walgBackups := ToWalg(backups);
    var current := W.BackupMetadata(id, None, 0, 0);
    WalgNamesAreIds(backups);
    var dependents := W.GetDependentBackups(current, walgBackups, includeIndirect);
    SearchFindsDependents(id, backups, includeIndirect, dependents);
    var filtered := KeepLive(backups, dependents);
    result := SortByName(filtered);
  }

  /** The listed Backups that are among the ids and not being deleted, in listing order. */
  function LiveAmong(backups: seq<Listed>, ids: set<string>): seq<Listed> {
    if |backups| == 0 then []
    else
      var last := backups[|backups| - 1];
      LiveAmong(backups[..|backups| - 1], ids) + if last.backupId in ids && !last.deleting then [last] else []
  }

  lemma {:induction false} LiveAmongExactly(backups: seq<Listed>, ids: set<string>)
    ensures forall c :: c in LiveAmong(backups, ids) <==> c in backups && c.backupId in ids && !c.deleting
    ensures DistinctNames(backups) ==> DistinctNames(LiveAmong(backups, ids))
  {
    if |backups| > 0 {
      var n := |backups| - 1;
      LiveAmongExactly(backups[..n], ids);
      assert backups == backups[..n] + [backups[n]];
      var before := LiveAmong(backups[..n], ids);
      assert forall k | 0 <= k < |before| :: before[k] in before;
    }
  }

  lemma {:induction false} LiveAmongInOrder(a: seq<Listed>, b: seq<Listed>, ids: set<string>)
    ensures LiveAmong(a + b, ids) == LiveAmong(a, ids) + LiveAmong(b, ids)
  {
    if |b| == 0 {
      assert a + b == a;
    } else {
      LiveAmongInOrder(a, b[..|b| - 1], ids);
      assert (a + b)[..|a + b| - 1] == a + b[..|b| - 1];
    }
  }

  method KeepLive(backups: seq<Listed>, dependents: seq<W.BackupMetadata>) returns (filtered: seq<Listed>)
    requires IsListing(backups)
    ensures filtered == LiveAmong(backups, W.Names(dependents))
    ensures forall c :: c in filtered <==> c in backups && c.backupId in W.Names(dependents) && !c.deleting
    ensures DistinctNames(filtered)
  {
    filtered := [];
    for i := 0 to |backups|
      invariant filtered == LiveAmong(backups[..i], W.Names(dependents))
    {
      assert backups[..i + 1][..i] == backups[..i];
      if !backups[i].deleting && W.GetBackupByName(dependents, backups[i].backupId).Some? {
        filtered := filtered + [backups[i]];
      }
    }
    assert backups[..|backups|] == backups;
    LiveAmongExactly(backups, W.Names(dependents));
  }

  function ToWalg(backups: seq<Listed>): (r: seq<W.BackupMetadata>)
    ensures |r| == |backups| && forall i | 0 <= i < |r| :: r[i].backupName == backups[i].backupId
  {
    seq(|backups|, i requires 0 <= i < |backups| => W.BackupMetadata(backups[i].backupId, None, 0, 0))
  }

  lemma WalgNamesAreIds(backups: seq<Listed>)
    ensures W.Names(ToWalg(backups)) == Ids(backups)
  {
    var r := ToWalg(backups);
    forall n | n in Ids(backups)
      ensures n in W.Names(r)
    {
      var i :| 0 <= i < |backups| && backups[i].backupId == n;
      assert r[i] in r;
    }
  }

  lemma SearchFindsDependents(id: string, backups: seq<Listed>, includeIndirect: bool, found: seq<W.BackupMetadata>)
    requires id != ""
    requires if includeIndirect then forall n :: n in W.Names(found) <==> DependsOn(Ids(backups), id, n)
             else found == W.DirectDependents(id, ToWalg(backups))
    ensures forall c | c in backups ::
              c.backupId in W.Names(found) && !c.deleting <==> IsLiveDependent(c, id, backups, includeIndirect)
  {
    hide DependsOn, IsDirectDependent;
    if !includeIndirect {
      forall c | c in backups
        ensures c.backupId in W.Names(found) <==> IsDirectDependent(c.backupId, id)
      {
        var i :| 0 <= i < |backups| && backups[i] == c;
        assert ToWalg(backups)[i] in ToWalg(backups);
      }
    }
  }

  /** Stands for slices.SortFunc with the comparison by name. */
  method SortByName(list: seq<Listed>) returns (r: seq<Listed>)
    requires DistinctNames(list)
    ensures Sorted(r)
    ensures forall c :: c in r <==> c in list
  {
    hide Less;
    r := [];
    for i := 0 to |list|
      invariant Sorted(r)
      invariant forall c :: c in r <==> c in list[..i]
    {
      assert list[..i + 1] == list[..i] + [list[i]];
      var k := |r|;
      while k > 0 && Less(list[i].name, r[k - 1].name)
        invariant 0 <= k <= |r|
        invariant forall j | k <= j < |r| :: Less(list[i].name, r[j].name)
      {
        k := k - 1;
      }
      InsertSorted(r, k, list[i]);
      assert r == r[..k] + r[k..];
      r := r[..k] + [list[i]] + r[k..];
    }
    assert list[..|list|] == list;
  }

  lemma InsertSorted(r: seq<Listed>, k: nat, x: Listed)
    requires Sorted(r) && k <= |r|
    requires forall c | c in r :: c.name != x.name
    requires k > 0 ==> !Less(x.name, r[k - 1].name)
    requires forall j | k <= j < |r| :: Less(x.name, r[j].name)
    ensures Sorted(r[..k] + [x] + r[k..])
  {
    hide Less;
    forall i | 0 <= i < k
      ensures Less(r[i].name, x.name)
    {
      LessTotal(r[k - 1].name, x.name);
      assert r[k - 1] in r;
      if i < k - 1 {
        LessTransitive(r[i].name, r[k - 1].name, x.name);
      }
    }
  }

  // ----- The annotation value

  function NamesOf(list: seq<Listed>): seq<string> {
    seq(|list|, i requires 0 <= i < |list| => list[i].name)
  }

  function Annotation(list: seq<Listed>): string {
    Join(NamesOf(list), " ")
  }

  /** The names a reader finds in an annotation. */
  function ReadBack(value: string): seq<string> {
    if value == "" then [] else Split(value, " ")
  }

  /** The value holds the names of the live dependents, each once and in order, and nothing else. */
  ghost predicate NamesDependents(value: string, id: string, backups: seq<Listed>, includeIndirect: bool) {
    && SortedNames(ReadBack(value))
    && forall n :: n in ReadBack(value) <==> IsDependentName(n, id, backups, includeIndirect)
  }

  ghost predicate IsDependentName(n: string, id: string, backups: seq<Listed>, includeIndirect: bool) {
    exists c: Listed :: c.name == n && IsLiveDependent(c, id, backups, includeIndirect)
  }

  ghost predicate SortedNames(names: seq<string>) {
    forall i, j | 0 <= i < j < |names| :: Less(names[i], names[j])
  }

  /** What is stored reads back as the names of the list. */
  lemma AnnotationReadsBack(list: seq<Listed>)
    requires forall c | c in list :: c.name != "" && ' ' !in c.name
    ensures ReadBack(Annotation(list)) == NamesOf(list)
  {
    hide Split, Contains;
    var names := NamesOf(list);
    if |names| > 0 {
      assert names[0] == list[0].name;
      assert forall p | p in names :: ' ' !in p;
      SplitJoin(names, ' ');
      assert |names| > 1 ==> Join(names, " ") == names[0] + " " + Join(names[1..], " ");
    }
  }

  lemma AnnotationIsRight(list: seq<Listed>, id: string, backups: seq<Listed>, includeIndirect: bool)
    requires IsListing(backups) && IsDependentsList(list, id, backups, includeIndirect)
    ensures NamesDependents(Annotation(list), id, backups, includeIndirect)
  {
    hide DependsOn, IsDirectDependent, Less, ReadBack;
    assert forall c | c in list :: c in backups;
    AnnotationReadsBack(list);
    var names := NamesOf(list);
    forall n
      ensures n in names <==> IsDependentName(n, id, backups, includeIndirect)
    {
      if n in names {
        var i :| 0 <= i < |names| && names[i] == n;
        assert list[i] in list;
      }
      if c: Listed :| c.name == n && IsLiveDependent(c, id, backups, includeIndirect) {
        assert c in list;
        var i :| 0 <= i < |list| && list[i] == c;
        assert names[i] == n;
      }
    }
  }

  /** Two sorted lists with the same elements are the same list. */
  lemma {:induction false} SortedUnique(a: seq<string>, b: seq<string>)
    requires SortedNames(a) && SortedNames(b) && forall c :: c in a <==> c in b
    ensures a == b
  {
    hide Less;
    assert |a| > 0 ==> a[0] in b;
    assert |b| > 0 ==> b[0] in a;
    if |a| > 0 {
      HeadIsLeast(a, b[0]);
      HeadIsLeast(b, a[0]);
      LessTotal(a[0], b[0]);
      assert a[0] == b[0];
      forall c
        ensures c in a[1..] <==> c in b[1..]
      {
        TailDropsHead(a, c);
        TailDropsHead(b, c);
      }
      SortedUnique(a[1..], b[1..]);
      assert a == [a[0]] + a[1..] && b == [b[0]] + b[1..];
    }
  }

  lemma HeadIsLeast(a: seq<string>, c: string)
    requires SortedNames(a) && c in a
    ensures c == a[0] || Less(a[0], c)
  {
  }

  lemma TailDropsHead(a: seq<string>, c: string)
    requires SortedNames(a) && |a| > 0
    ensures c in a[1..] <==> c in a && c != a[0]
  {
    LessTotal(a[0], a[0]);
    if c in a && c != a[0] {
      var i :| 0 <= i < |a| && a[i] == c;
      assert a[1..][i - 1] == c;
    }
  }

  /**
   The all-dependents annotation is empty exactly when no Backup that is not being deleted depends
   on this one, even through intermediates that are being deleted.
   */
  lemma AnnotationEmptyExact(value: string, id: string, backups: seq<Listed>)
    requires id != "" && NamesDependents(value, id, backups, true)
    ensures value == "" <==>
            !exists c :: c in backups && !c.deleting && DependsOn(Ids(backups), id, c.backupId)
  {
    hide DependsOn, Split;
    if c :| c in backups && !c.deleting && DependsOn(Ids(backups), id, c.backupId) {
      assert IsLiveDependent(c, id, backups, true) && IsDependentName(c.name, id, backups, true);
    } else if value != "" {
      assert ReadBack(value)[0] in ReadBack(value);
    }
  }

  /** List order and map iteration order do not show in the annotation: there is one right value. */
  lemma AnnotationOrderFree(v1: string, v2: string, id: string, b1: seq<Listed>, b2: seq<Listed>, indirect: bool)
    requires forall c :: c in b1 <==> c in b2
    requires NamesDependents(v1, id, b1, indirect) && NamesDependents(v2, id, b2, indirect)
    ensures v1 == v2
  {
    hide DependsOn, IsDirectDependent, Less;
    assert Ids(b1) == Ids(b2);
    assert forall n :: IsDependentName(n, id, b1, indirect) <==> IsDependentName(n, id, b2, indirect);
    SortedUnique(ReadBack(v1), ReadBack(v2));
    assert v1 != "" ==> Join(ReadBack(v1), " ") == v1;
    assert v2 != "" ==> Join(ReadBack(v2), " ") == v2;
  }

  /** The names in the stored annotation are the ones the deletion protocol works with. */
  lemma MatchesProtocol(api: map<string, P.Backup>, n: string, backups: seq<Listed>, value: string)
    requires n in api && NamesDependents(value, api[n].id, backups, true)
    requires forall b ::
               b in backups <==> (b.name in api && api[b.name].owned
                                  && b == Listed(b.name, api[b.name].id, api[b.name].deleting))
    ensures (set m | m in ReadBack(value)) == P.AllDependents(api, n)
  {
    hide DependsOn, IsDirectDependent, ReadBack, SortedNames;
    assert Ids(backups) == P.OwnedIds(api) by {
      forall m | m in api && api[m].owned
        ensures api[m].id in Ids(backups)
      {
        assert Listed(m, api[m].id, api[m].deleting) in backups;
      }
    }
    forall m
      ensures m in P.AllDependents(api, n) <==> IsDependentName(m, api[n].id, backups, true)
    {
      if m in P.AllDependents(api, n) {
        assert IsLiveDependent(Listed(m, api[m].id, api[m].deleting), api[n].id, backups, true);
      }
    }
  }

  // ----- reconcileBackupMetadata

  /** A Go map gives the empty string for a key it does not have. */
  function GetOr(m: map<string, string>, key: string): (r: string)
    ensures r == if key in m then m[key] else ""
  {
    if key in m then m[key] else ""
  }

  /** Type and version labels are set and both annotations show the current dependents. */
  ghost predicate UpToDate(labels: map<string, string>, annotations: map<string, string>, id: string,
                           backups: seq<Listed>, pgMajor: Option<string>) {
    && LabelsOk(labels, id, pgMajor)
    && Shows(annotations, DIRECT_ANNOTATION, id, backups, false)
    && Shows(annotations, ALL_ANNOTATION, id, backups, true)
  }

  ghost predicate LabelsOk(labels: map<string, string>, id: string, pgMajor: Option<string>) {
    && (id != "" ==>
          TYPE_LABEL in labels && labels[TYPE_LABEL] == if Contains(id, DELTA) then "incremental" else "full")
    && (pgMajor.Some? ==> GetOr(labels, PG_LABEL) != "")
  }

  ghost predicate Shows(annotations: map<string, string>, key: string, id: string, backups: seq<Listed>,
      indirect: bool) {
    key in annotations && NamesDependents(annotations[key], id, backups, indirect)
  }

  ghost predicate SameExcept(m: map<string, string>, m': map<string, string>, keys: set<string>) {
    forall k | k !in keys :: (k in m <==> k in m') && (k in m ==> m[k] == m'[k])
  }

  class BackupObject {
    const backupId: string
    var labels: map<string, string>
    var annotations: map<string, string>

    constructor (backupId: string)
      ensures this.backupId == backupId && labels == map[] && annotations == map[]
    {
      this.backupId := backupId;
      labels, annotations := map[], map[];
    }

    /**
     Brings the metadata up to date. Nothing is stored when the Backups cannot be listed or the patch is refused; a
     patch is sent exactly when the metadata is not up to date yet. `pgMajor` is None without a cluster.
     */
    method ReconcileMetadata(listing: Option<seq<Listed>>, pgMajor: Option<string>, patchAccepted: bool)
      returns (patched: bool, ok: bool)
      requires (listing.Some? ==> IsListing(listing.value)) && pgMajor != Some("")
      modifies this
      ensures ok <==> listing.Some? && (patched ==> patchAccepted)
      ensures ok ==> UpToDate(labels, annotations, backupId, listing.value, pgMajor)
      ensures listing.Some? ==> (patched <==> !old(UpToDate(labels, annotations, backupId, listing.value, pgMajor)))
      ensures !ok || !patched ==> labels == old(labels) && annotations == old(annotations)
      ensures SameExcept(old(labels), labels, {TYPE_LABEL, PG_LABEL})
      ensures SameExcept(old(annotations), annotations, {DIRECT_ANNOTATION, ALL_ANNOTATION})
      ensures GetOr(old(labels), PG_LABEL) != "" ==> GetOr(labels, PG_LABEL) == GetOr(old(labels), PG_LABEL)
      ensures ok && GetOr(old(labels), PG_LABEL) == "" ==> GetOr(labels, PG_LABEL) == VersionOr(pgMajor)
      ensures ok && backupId != "" ==>
                && TYPE_LABEL in labels
                && labels[TYPE_LABEL] == if Contains(backupId, "_D_") then "incremental" else "full"
      ensures ok ==> DIRECT_ANNOTATION in annotations && ALL_ANNOTATION in annotations
      ensures ok ==> NamesDependents(annotations[DIRECT_ANNOTATION], backupId, listing.value, false)
      ensures ok ==> NamesDependents(annotations[ALL_ANNOTATION], backupId, listing.value, true)
    {
      hide DependsOn, IsDirectDependent, IsDependentsList, LabelsFor, NamesDependents, Annotation;
      if listing.None? {
        return false, false;
      }
      var backups := listing.value;
      var newLabels := LabelsFor(labels, backupId, pgMajor);
      var direct := BuildDependentBackups(backupId, backups, false);
      var all := BuildDependentBackups(backupId, backups, true);
      var newAnnotations := annotations[DIRECT_ANNOTATION := Annotation(direct)][ALL_ANNOTATION := Annotation(all)];
      LabelsAreRight(labels, backupId, pgMajor);
      ShowsExactly(newAnnotations, DIRECT_ANNOTATION, direct, backupId, backups, false);
      ShowsExactly(newAnnotations, ALL_ANNOTATION, all, backupId, backups, true);
      ShowsExactly(annotations, DIRECT_ANNOTATION, direct, backupId, backups, false);
      ShowsExactly(annotations, ALL_ANNOTATION, all, backupId, backups, true);
      if newLabels == labels && newAnnotations == annotations {
        return false, true;
      }
      patched, ok := true, patchAccepted;
      if patchAccepted {
        labels, annotations := newLabels, newAnnotations;
      }
    }
  }

  function VersionOr(pgMajor: Option<string>): string {
    if pgMajor.Some? then pgMajor.value else ""
  }

  function LabelsFor(labels: map<string, string>, id: string, pgMajor: Option<string>): map<string, string> {
    var kind := if Contains(id, DELTA) then "incremental" else "full";
    var l := if id != "" then labels[TYPE_LABEL := kind] else labels;
    if GetOr(l, PG_LABEL) == "" && pgMajor.Some? then l[PG_LABEL := pgMajor.value] else l
  }

  lemma LabelsAreRight(labels: map<string, string>, id: string, pgMajor: Option<string>)
    requires pgMajor != Some("")
    ensures var l := LabelsFor(labels, id, pgMajor);
            && LabelsOk(l, id, pgMajor) && SameExcept(labels, l, {TYPE_LABEL, PG_LABEL})
            && GetOr(l, PG_LABEL) ==
               (if GetOr(labels, PG_LABEL) == "" then VersionOr(pgMajor) else GetOr(labels, PG_LABEL))
            && (LabelsOk(labels, id, pgMajor) ==> l == labels)
  {
    hide Contains;
    assert TYPE_LABEL != PG_LABEL;
  }

  lemma ShowsExactly(annotations: map<string, string>, key: string, r: seq<Listed>, id: string, backups: seq<Listed>,
      indirect: bool)
    requires IsListing(backups) && IsDependentsList(r, id, backups, indirect)
    ensures Shows(annotations, key, id, backups, indirect) <==> key in annotations && annotations[key] == Annotation(r)
  {
    hide NamesDependents, IsDependentsList;
    AnnotationIsRight(r, id, backups, indirect);
    if Shows(annotations, key, id, backups, indirect) {
      AnnotationOrderFree(annotations[key], Annotation(r), id, backups, backups, indirect);
    }
  }

  /** Being up to date does not depend on the order in which the API server lists the Backups. */
  lemma UpToDateOrderFree(labels: map<string, string>, annotations: map<string, string>, id: string,
                          b1: seq<Listed>, b2: seq<Listed>, pgMajor: Option<string>)
    requires (forall c :: c in b1 <==> c in b2) && UpToDate(labels, annotations, id, b1, pgMajor)
    ensures UpToDate(labels, annotations, id, b2, pgMajor)
  {
    hide DependsOn, IsDirectDependent, ReadBack, SortedNames;
    assert Ids(b1) == Ids(b2);
    assert forall n, i: bool :: IsDependentName(n, id, b1, i) <==> IsDependentName(n, id, b2, i);
  }
}
