/** Go string operations the controllers rely on, and the byte-wise string order. */
module Text {
  datatype Option<+T> = None | Some(value: T)

  predicate OccursAt(s: string, sep: string, i: nat) {
    i + |sep| <= |s| && s[i..i + |sep|] == sep
  }

  lemma OccursInTail(s: string, sep: string)
    requires |s| > 0
    ensures forall j: nat | j > 0 && OccursAt(s, sep, j) :: OccursAt(s[1..], sep, j - 1)
  {
    forall j: nat | j > 0 && OccursAt(s, sep, j)
      ensures OccursAt(s[1..], sep, j - 1)
    {
      assert s[1..][j - 1..j - 1 + |sep|] == s[j..j + |sep|];
    }
  }

  lemma OccursInPrefix(s: string, sep: string, n: nat)
    requires n <= |s|
    ensures forall j: nat :: OccursAt(s[..n], sep, j) ==> OccursAt(s, sep, j)
  {
    forall j: nat | OccursAt(s[..n], sep, j)
      ensures OccursAt(s, sep, j)
    {
      assert s[..n][j..j + |sep|] == s[j..j + |sep|];
    }
  }

  /** strings.Index: the first place where a non-empty separator occurs. */
  function Index(s: string, sep: string): (r: Option<nat>)
    requires |sep| > 0
    ensures r.Some? ==> OccursAt(s, sep, r.value) && forall j: nat | j < r.value :: !OccursAt(s, sep, j)
    ensures r.None? ==> forall j: nat :: !OccursAt(s, sep, j)
  {
    if |s| < |sep| then None
    else if s[..|sep|] == sep then
      assert OccursAt(s, sep, 0);
      Some(0)
    else
      OccursInTail(s, sep);
      match Index(s[1..], sep)
      case None => None
      case Some(i) => Some(i + 1)
  }

  predicate Contains(s: string, sep: string)
    requires |sep| > 0
  {
    Index(s, sep).Some?
  }

  function Join(parts: seq<string>, sep: string): string {
    if |parts| == 0 then ""
    else if |parts| == 1 then parts[0]
    else parts[0] + sep + Join(parts[1..], sep)
  }

  /** strings.Split: cutting and joining are inverse, and no piece still holds the separator. */
  function Split(s: string, sep: string): (parts: seq<string>)
    requires |sep| > 0
    ensures |parts| >= 1
    ensures Join(parts, sep) == s
    ensures forall p | p in parts :: !Contains(p, sep)
  {
    match Index(s, sep)
    case None => [s]
    case Some(i) =>
      var head, tail := s[..i], s[i + |sep|..];
      OccursInPrefix(s, sep, i);
      assert s == head + sep + tail;
      [head] + Split(tail, sep)
  }

  lemma OccursAsChar(s: string, c: char, j: nat)
    ensures OccursAt(s, [c], j) <==> j < |s| && s[j] == c
  {
    assert j < |s| ==> s[j..j + 1] == [s[j]];
  }

  lemma FirstOccurrence(head: string, c: char, rest: string)
    requires c !in head
    ensures Index(head, [c]).None?
    ensures Index(head + [c] + rest, [c]) == Some(|head|)
  {
    var s := head + [c] + rest;
    forall j: nat
      ensures !OccursAt(head, [c], j) && (j < |head| ==> !OccursAt(s, [c], j))
    {
      OccursAsChar(head, c, j);
      OccursAsChar(s, c, j);
      assert j < |head| ==> s[j] == head[j];
    }
    OccursAsChar(s, c, |head|);
  }

  /** Pieces without the separating character are got back from what they were joined to. */
  lemma {:induction false} SplitJoin(parts: seq<string>, c: char)
    requires |parts| > 0 && forall p | p in parts :: c !in p
    ensures Split(Join(parts, [c]), [c]) == parts
  {
    hide Index, OccursAt;
    if |parts| == 1 {
      FirstOccurrence(parts[0], c, "");
    } else {
      var head, rest := parts[0], Join(parts[1..], [c]);
      var s := head + [c] + rest;
      FirstOccurrence(head, c, rest);
      assert s[..|head|] == head && s[|head| + 1..] == rest;
      SplitJoin(parts[1..], c);
    }
  }

  function TrimPrefix(s: string, prefix: string): (r: string)
    ensures prefix <= s ==> prefix + r == s
    ensures !(prefix <= s) ==> r == s
  {
    if prefix <= s then s[|prefix|..] else s
  }

  /** Go's `<` on strings: byte-wise lexicographic. */
  predicate Less(a: string, b: string) {
    if |b| == 0 then false
    else if |a| == 0 then true
    else a[0] < b[0] || (a[0] == b[0] && Less(a[1..], b[1..]))
  }

  /** The first difference decides, and a proper prefix comes first. */
  lemma {:induction false} LessExactly(a: string, b: string)
    ensures Less(a, b) <==>
              exists n :: 0 <= n <= |a| && n < |b| && a[..n] == b[..n] && (n == |a| || a[n] < b[n])
  {
    if |a| > 0 && |b| > 0 {
      LessExactly(a[1..], b[1..]);
      if Less(a, b) && a[0] == b[0] {
        var n :| 0 <= n <= |a[1..]| && n < |b[1..]| && a[1..][..n] == b[1..][..n]
                 && (n == |a[1..]| || a[1..][n] < b[1..][n]);
        assert a[..n + 1] == [a[0]] + a[1..][..n] && b[..n + 1] == [b[0]] + b[1..][..n];
      } else if Less(a, b) {
        assert a[..0] == b[..0];
      }
      if n :| 0 <= n <= |a| && n < |b| && a[..n] == b[..n] && (n == |a| || a[n] < b[n]) {
        if n > 0 {
          assert a[..n][0] == b[..n][0];
          assert a[1..][..n - 1] == a[..n][1..] && b[1..][..n - 1] == b[..n][1..];
        }
      }
    } else if |b| > 0 {
      assert a[..0] == b[..0];
    }
  }

  lemma {:induction false} LessTransitive(a: string, b: string, c: string)
    requires Less(a, b) && Less(b, c)
    ensures Less(a, c)
  {
    if |a| > 0 && a[0] == b[0] == c[0] {
      LessTransitive(a[1..], b[1..], c[1..]);
    }
  }

  lemma {:induction false} LessTotal(a: string, b: string)
    ensures Less(a, b) || a == b || Less(b, a)
    ensures !(Less(a, b) && Less(b, a)) && !Less(a, a)
  {
    if |a| > 0 && |b| > 0 && a[0] == b[0] {
      LessTotal(a[1..], b[1..]);
      assert a == [a[0]] + a[1..] && b == [b[0]] + b[1..];
    }
    if |a| > 0 {
      LessTotal(a[1..], a[1..]);
    }
  }
}
