/** Whole-namespace portability: the workspace must survive a file system that folds
    case and normal forms. */
module Portable {
  import opened Prelude

  /** NFC normalization of the lower-cased text. Nothing is known about it. */
  const Fold: Bytes -> Bytes

  // ------------------------------------------------------------ specification

  predicate EndsSegment(p: Path, k: int) {
    0 < k <= |p| && (k == |p| || p[k] == SLASH)
  }

  /** A path and its ancestors. */
  function Prefixes(p: Path): set<Bytes> {
    set k | 0 < k <= |p| && EndsSegment(p, k) :: p[..k]
  }

  /** The directories above a path. */
  function Ancestors(p: Path): set<Bytes> {
    set k | 0 < k < |p| && EndsSegment(p, k) :: p[..k]
  }

  ghost predicate DistinctFolds(names: set<Bytes>) {
    forall x, y | x in names && y in names && Fold(x) == Fold(y) :: x == y
  }

  function AllPrefixes(paths: set<Path>): set<Bytes> {
    set p, x | p in paths && x in Prefixes(p) :: x
  }

  /** Nothing in the tree folds together with a different spelling, and no file's
      fold is the fold of a directory above another file. */
  ghost predicate PortableSet(paths: set<Path>) {
    && DistinctFolds(AllPrefixes(paths))
    && forall p, q, x | p in paths && q in paths && x in Ancestors(p) :: Fold(x) != Fold(q)
  }

  lemma PathIsPrefix(p: Path)
    ensures p in Prefixes(p)
    ensures Ancestors(p) <= Prefixes(p)
  {
    assert p[..|p|] == p && EndsSegment(p, |p|);
  }

  /** Where a directory above a path ends. */
  predicate EndsDirectory(p: Path, k: int) {
    0 < k < |p| && p[k] == SLASH
  }

  /** A path up to where one of its segments ends. */
  predicate EndsPrefix(p: Path, k: int) {
    k == |p| || EndsDirectory(p, k)
  }

  ghost predicate OneSpelling(paths: set<Path>) {
    forall p, q, k, l | p in paths && q in paths && EndsPrefix(p, k) && EndsPrefix(q, l) ::
      Fold(p[..k]) == Fold(q[..l]) ==> p[..k] == q[..l]
  }

  ghost predicate NoFileAbove(paths: set<Path>) {
    forall p, q, k | p in paths && q in paths && EndsDirectory(p, k) :: Fold(p[..k]) != Fold(q)
  }

  /** A set of paths is portable exactly when no two prefixes of its paths are two spellings
      of one name, and no file has the name of a directory above a file. */
  lemma PortableIsSpelling(paths: set<Path>)
    ensures PortableSet(paths) <==> OneSpelling(paths) && NoFileAbove(paths)
  {
    if PortableSet(paths) {
      forall p, q, k, l | p in paths && q in paths && EndsPrefix(p, k) && EndsPrefix(q, l)
        ensures Fold(p[..k]) == Fold(q[..l]) ==> p[..k] == q[..l]
      {
        PrefixesAreSlices(p, p[..k]);
        PrefixesAreSlices(q, q[..l]);
        assert p[..k] in AllPrefixes(paths) && q[..l] in AllPrefixes(paths);
      }
      forall p, q, k | p in paths && q in paths && EndsDirectory(p, k)
        ensures Fold(p[..k]) != Fold(q)
      {
        PrefixesAreSlices(p, p[..k]);
      }
    }
    if OneSpelling(paths) && NoFileAbove(paths) {
      SpelledIsPortable(paths);
    }
  }

  lemma SpelledIsPortable(paths: set<Path>)
    requires OneSpelling(paths) && NoFileAbove(paths)
    ensures PortableSet(paths)
  {
    forall x, y | x in AllPrefixes(paths) && y in AllPrefixes(paths) && Fold(x) == Fold(y)
      ensures x == y
    {
      var p: Path :| p in paths && x in Prefixes(p);
      var q: Path :| q in paths && y in Prefixes(q);
      PrefixesAreSlices(p, x);
      PrefixesAreSlices(q, y);
      var k :| EndsPrefix(p, k) && p[..k] == x;
      var l :| EndsPrefix(q, l) && q[..l] == y;
    }
    forall p, q, x | p in paths && q in paths && x in Ancestors(p)
      ensures Fold(x) != Fold(q)
    {
      PrefixesAreSlices(p, x);
      var k :| EndsDirectory(p, k) && p[..k] == x;
    }
  }

  lemma PrefixesAreSlices(p: Path, x: Bytes)
    ensures x in Prefixes(p) <==> exists k :: EndsPrefix(p, k) && p[..k] == x
    ensures x in Ancestors(p) <==> exists k :: EndsDirectory(p, k) && p[..k] == x
  {
    forall k | EndsPrefix(p, k)
      ensures EndsSegment(p, k) && p[..k] in Prefixes(p)
    {
    }
    forall k | EndsDirectory(p, k)
      ensures EndsSegment(p, k) && p[..k] in Ancestors(p)
    {
    }
    if x in Prefixes(p) {
      var k :| 0 < k <= |p| && EndsSegment(p, k) && p[..k] == x;
      assert EndsPrefix(p, k);
    }
    if x in Ancestors(p) {
      var k :| 0 < k < |p| && EndsSegment(p, k) && p[..k] == x;
      assert EndsDirectory(p, k);
    }
  }

  /** Portable sets are downward closed: deleting files keeps them portable. */
  lemma {:induction false} PortableSubset(paths: set<Path>, fewer: set<Path>)
    requires PortableSet(paths) && fewer <= paths
    ensures PortableSet(fewer)
  {
    assert AllPrefixes(fewer) <= AllPrefixes(paths);
  }

  /** Portability is a matter of pairs of paths. */
  lemma {:induction false} PortableIsPairwise(paths: set<Path>)
    ensures PortableSet(paths) <==> forall p, q | p in paths && q in paths :: PortableSet({p, q})
  {
    if PortableSet(paths) {
      forall p, q | p in paths && q in paths
        ensures PortableSet({p, q})
      {
        PortableSubset(paths, {p, q});
      }
    }
    if forall p, q | p in paths && q in paths :: PortableSet({p, q}) {
      forall x, y | x in AllPrefixes(paths) && y in AllPrefixes(paths) && Fold(x) == Fold(y)
        ensures x == y
      {
        var p: Path :| p in paths && x in Prefixes(p);
        var q: Path :| q in paths && y in Prefixes(q);
        assert PortableSet({p, q});
        assert x in AllPrefixes({p, q}) && y in AllPrefixes({p, q});
      }
      forall p, q, x | p in paths && q in paths && x in Ancestors(p)
        ensures Fold(x) != Fold(q)
      {
        assert PortableSet({p, q});
        assert p in {p, q} && q in {p, q};
      }
    }
  }

  /** One more path keeps a portable set portable exactly when it is portable by itself
      and beside each path of the set. */
  lemma {:induction false} AddingKeepsPortable(paths: set<Path>, p: Path)
    requires PortableSet(paths)
    ensures PortableSet(paths + {p}) <==> PortableSet({p}) && forall q | q in paths :: PortableSet({p, q})
  {
    var more := paths + {p};
    if PortableSet(more) {
      PortableSubset(more, {p});
      forall q | q in paths
        ensures PortableSet({p, q})
      {
        PortableSubset(more, {p, q});
      }
    }
    if PortableSet({p}) && forall q | q in paths :: PortableSet({p, q}) {
      forall x, y | x in more && y in more
        ensures PortableSet({x, y})
      {
        PairIsPortable(paths, p, x, y);
      }
      PortableIsPairwise(more);
    }
  }

  lemma PairIsPortable(paths: set<Path>, p: Path, x: Path, y: Path)
    requires PortableSet(paths) && PortableSet({p}) && forall q | q in paths :: PortableSet({p, q})
    requires x in paths + {p} && y in paths + {p}
    ensures PortableSet({x, y})
  {
    if x in paths && y in paths {
      PortableSubset(paths, {x, y});
    } else if x in paths {
      assert y == p && PortableSet({p, x}) && {x, y} == {p, x};
    } else if y in paths {
      assert x == p && PortableSet({p, y});
    } else {
      assert {x, y} == {p};
    }
  }

  /** A workspace in which one file is a directory of another is not portable. */
  lemma FileBelowFileIsRefused(paths: set<Path>, p: Path, q: Path)
    requires p in paths && q in paths && Below(p, q)
    ensures !PortableSet(paths)
  {
    var x := p[..|q|];
    assert EndsSegment(p, |q|) && x == q;
    assert x in Ancestors(p) && Fold(x) == Fold(q);
  }

  // ---------------------------------------------------------------- the check

  ghost function Members(paths: seq<Path>): set<Path> {
    set p | p in paths
  }

  ghost predicate Distinct(paths: seq<Path>) {
    forall i, j | 0 <= i < j < |paths| :: paths[i] != paths[j]
  }

  /** The dictionary records one spelling for each fold of these names. */
  ghost predicate Records(spelling: map<Bytes, Bytes>, names: set<Bytes>) {
    && (forall x | x in names :: Fold(x) in spelling && spelling[Fold(x)] == x)
    && (forall f | f in spelling :: spelling[f] in names && Fold(spelling[f]) == f)
  }

  lemma RecordsMeansDistinct(spelling: map<Bytes, Bytes>, names: set<Bytes>)
    requires Records(spelling, names)
    ensures DistinctFolds(names)
  {
  }

  ghost function PrefixesUpTo(p: Path, k: int): set<Bytes> {
    set n | 0 < n < k && n <= |p| && EndsSegment(p, n) :: p[..n]
  }

  /** The inner loop: one path's prefixes, shortest first. */
  method RecordPrefixes(p: Path, before: map<Bytes, Bytes>, ghost names: set<Bytes>)
    returns (spelling: map<Bytes, Bytes>, ok: bool)
    requires Records(before, names)
    ensures ok ==> Records(spelling, names + Prefixes(p))
    ensures !ok ==> !DistinctFolds(names + Prefixes(p))
  {
    spelling := before;
    var k := 1;
    assert names + PrefixesUpTo(p, 1) == names;
    while k <= |p|
      invariant 1 <= k <= |p| + 1
      invariant Records(spelling, names + PrefixesUpTo(p, k))
    {
      ghost var done := names + PrefixesUpTo(p, k);
      if EndsSegment(p, k) {
        var prefix := p[..k];
        assert PrefixesUpTo(p, k + 1) == PrefixesUpTo(p, k) + {prefix};
        var fold := Fold(prefix);
        if fold in spelling && spelling[fold] != prefix {
          assert spelling[fold] in names + Prefixes(p) && prefix in names + Prefixes(p);
          return spelling, false;
        }
        spelling := spelling[fold := prefix];
        assert names + PrefixesUpTo(p, k + 1) == done + {prefix};
      } else {
        assert PrefixesUpTo(p, k + 1) == PrefixesUpTo(p, k);
      }
      k := k + 1;
    }
    assert PrefixesUpTo(p, |p| + 1) == Prefixes(p);
    return spelling, true;
  }

  ghost predicate ClearOf(p: Path, live: set<Bytes>, k: int) {
    forall n | 0 < n < k && n < |p| && EndsSegment(p, n) :: Fold(p[..n]) !in live
  }

  /** Whether no directory above a path folds to a live file. */
  method ClearAncestors(p: Path, live: set<Bytes>) returns (ok: bool)
    ensures ok <==> forall x | x in Ancestors(p) :: Fold(x) !in live
  {
    var k := 1;
    while k < |p|
      invariant 1 <= k <= |p| && ClearOf(p, live, k)
    {
      if EndsSegment(p, k) && Fold(p[..k]) in live {
        assert p[..k] in Ancestors(p);
        return false;
      }
      k := k + 1;
    }
    return true;
  }

  function Folds(paths: seq<Path>): set<Bytes> {
    set p | p in paths :: Fold(p)
  }

  lemma OneMoreFold(paths: seq<Path>, i: nat)
    requires i < |paths|
    ensures Folds(paths[..i + 1]) == Folds(paths[..i]) + {Fold(paths[i])}
  {
    assert paths[..i + 1] == paths[..i] + [paths[i]];
    forall f | f in Folds(paths[..i]) + {Fold(paths[i])}
      ensures f in Folds(paths[..i + 1])
    {
      if f in Folds(paths[..i]) {
        var p :| p in paths[..i] && Fold(p) == f;
        assert p in paths[..i + 1];
      } else {
        assert paths[i] in paths[..i + 1];
      }
    }
  }

  /** The first pass: one spelling for each fold, and no fold of a path twice. */
  method RecordAll(paths: seq<Path>) returns (ok: bool, live: set<Bytes>)
    ensures ok ==> live == Folds(paths) && Distinct(paths)
    ensures ok <==> Distinct(paths) && DistinctFolds(AllPrefixes(Members(paths)))
  {
    var spelling: map<Bytes, Bytes> := map[];
    live := {};
    for i := 0 to |paths|
      invariant Records(spelling, AllPrefixes(Members(paths[..i])))
      invariant live == Folds(paths[..i])
      invariant Distinct(paths[..i])
    {
      ghost var names := AllPrefixes(Members(paths[..i]));
      OneMore(paths, i);
      OneMoreFold(paths, i);
      var fine;
      spelling, fine := RecordPrefixes(paths[i], spelling, names);
      if !fine {
        assert !DistinctFolds(AllPrefixes(Members(paths)));
        return false, live;
      }
      if Fold(paths[i]) in live {
        FoldRepeats(paths, i);
        return false, live;
      }
      live := live + {Fold(paths[i])};
    }
    assert paths[..|paths|] == paths;
    RecordsMeansDistinct(spelling, AllPrefixes(Members(paths)));
    return true, live;
  }

  lemma OneMore(paths: seq<Path>, i: nat)
    requires i < |paths|
    ensures paths[..i + 1] == paths[..i] + [paths[i]]
    ensures AllPrefixes(Members(paths[..i + 1])) == AllPrefixes(Members(paths[..i])) + Prefixes(paths[i])
    ensures AllPrefixes(Members(paths[..i + 1])) <= AllPrefixes(Members(paths))
  {
    assert Members(paths[..i + 1]) == Members(paths[..i]) + {paths[i]};
    assert Members(paths[..i + 1]) <= Members(paths);
  }

  /** The two passes over the dictionaries. They accept exactly the lists, whatever
      their order, whose paths are distinct and form a portable set. */
  method AssertPortable(paths: seq<Path>) returns (ok: bool)
    ensures ok <==> Distinct(paths) && PortableSet(Members(paths))
  {
    var live;
    ok, live := RecordAll(paths);
    if !ok {
      return;
    }
    for i := 0 to |paths|
      invariant forall j, x | 0 <= j < i && x in Ancestors(paths[j]) :: Fold(x) !in live
    {
      var fine := ClearAncestors(paths[i], live);
      if !fine {
        var x :| x in Ancestors(paths[i]) && Fold(x) in live;
        var q :| q in paths && Fold(q) == Fold(x);
        assert paths[i] in Members(paths) && q in Members(paths);
        return false;
      }
    }
    return true;
  }

  lemma FoldRepeats(paths: seq<Path>, i: nat)
    requires i < |paths| && Fold(paths[i]) in Folds(paths[..i])
    ensures !Distinct(paths) || !DistinctFolds(AllPrefixes(Members(paths)))
  {
    var p: Path :| p in paths[..i] && Fold(p) == Fold(paths[i]);
    var j :| 0 <= j < i && paths[j] == p;
    PathIsPrefix(p);
    PathIsPrefix(paths[i]);
    assert p in AllPrefixes(Members(paths)) && paths[i] in AllPrefixes(Members(paths));
  }
}
