/** How a client mirrors the Fabric v2 namespace: snapshot pages taken while commits
    go on, then the journal from where the first page stood. */
module V2Sync {
  import opened Prelude
  import opened Order
  import opened V2Namespace
  import opened V2Batch

  // --------------------------------------------------------------- snapshots

  datatype Listed = Listed(path: Path, entry: Entry)

  datatype SnapshotPage = SnapshotPage(lastSeq: nat, listed: seq<Listed>, next: Option<Path>)

  predicate Past(after: Option<Path>, p: Path) {
    after.None? || Less(after.value, p)
  }

  function PathsPast(entries: map<Path, Entry>, after: Option<Path>): set<Path> {
    set p | p in entries && Past(after, p)
  }

  function List(entries: map<Path, Entry>, paths: seq<Path>): (listed: seq<Listed>)
    requires forall i | 0 <= i < |paths| :: paths[i] in entries
    ensures |listed| == |paths|
    ensures forall i | 0 <= i < |paths| :: listed[i].path == paths[i]
  {
    if paths == [] then [] else [Listed(paths[0], entries[paths[0]])] + List(entries, paths[1..])
  }

  /** The paths on a page: the first `limit` past the cursor. */
  function PagePaths(entries: map<Path, Entry>, after: Option<Path>, limit: nat): (paths: seq<Path>)
    ensures forall i | 0 <= i < |paths| :: paths[i] in entries
  {
    var paths := Sorted(PathsPast(entries, after));
    SortedIsAscending(PathsPast(entries, after));
    assert forall i | 0 <= i < |paths| :: paths[i] in paths;
    FirstOf(paths, limit)
  }

  function Snapshot(ns: Namespace, after: Option<Path>, limit: nat): SnapshotPage
    requires 1 <= limit
  {
    var paths := PagePaths(ns.entries, after, limit);
    SnapshotPage(|ns.journal|, List(ns.entries, paths), if |paths| == limit then Some(paths[limit - 1]) else None)
  }

  /** The stretch of the path order that a page answers for. */
  ghost predicate Answers(page: SnapshotPage, after: Option<Path>, p: Path) {
    Past(after, p) && (page.next.None? || !Less(page.next.value, p))
  }

  function Lookup(listed: seq<Listed>, p: Path): Option<Content> {
    if listed == [] then None
    else
      var later := Lookup(listed[1..], p);
      if later.Some? then later
      else if listed[0].path == p then Some(listed[0].entry.content) else None
  }

  lemma {:induction false} LookupOfList(entries: map<Path, Entry>, paths: seq<Path>, p: Path)
    requires forall i | 0 <= i < |paths| :: paths[i] in entries
    ensures Lookup(List(entries, paths), p) == if p in paths then Some(entries[p].content) else None
  {
    if paths != [] {
      LookupOfList(entries, paths[1..], p);
    }
  }

  function FirstOf(all: seq<Path>, limit: nat): seq<Path> {
    if |all| <= limit then all else all[..limit]
  }

  lemma FirstOfAscending(all: seq<Path>, limit: nat, p: Path)
    requires Ascends(all) && 1 <= limit
    ensures var page := FirstOf(all, limit);
            && (p in page <==> p in all && (|page| == limit ==> !Less(page[limit - 1], p)))
            && (|page| == limit ==> page[limit - 1] in all)
  {
    var page := FirstOf(all, limit);
    if p in all {
      var i :| 0 <= i < |all| && all[i] == p;
      if |page| == limit {
        LessIsTotal(p, page[limit - 1]);
      }
      if i < |page| {
        assert page[i] == p;
        assert i < limit - 1 && |page| == limit ==> Less(all[i], all[limit - 1]);
      } else {
        assert Less(all[limit - 1], all[i]);
      }
    }
  }

  lemma PagePathsAreAnswered(ns: Namespace, after: Option<Path>, limit: nat, p: Path)
    requires 1 <= limit
    ensures p in PagePaths(ns.entries, after, limit)
            <==> p in ns.entries && Answers(Snapshot(ns, after, limit), after, p)
    ensures Snapshot(ns, after, limit).next.Some? ==> Past(after, Snapshot(ns, after, limit).next.value)
  {
    SortedIsAscending(PathsPast(ns.entries, after));
    FirstOfAscending(Sorted(PathsPast(ns.entries, after)), limit, p);
  }

  /** Within its stretch a page is exactly the namespace; it lists nothing else, and
      the next cursor lies past the last one. */
  lemma PageIsExact(ns: Namespace, after: Option<Path>, limit: nat, p: Path)
    requires 1 <= limit
    ensures var page := Snapshot(ns, after, limit);
            && (Answers(page, after, p) ==> Lookup(page.listed, p) == Present(ns, p))
            && (!Answers(page, after, p) ==> Lookup(page.listed, p).None?)
            && (page.next.Some? ==> Past(after, page.next.value))
  {
    PagePathsAreAnswered(ns, after, limit, p);
    LookupOfList(ns.entries, PagePaths(ns.entries, after, limit), p);
  }

  lemma {:induction false} ListedEntries(entries: map<Path, Entry>, paths: seq<Path>)
    requires forall i | 0 <= i < |paths| :: paths[i] in entries
    ensures forall l | l in List(entries, paths) :: l.path in entries && l.entry == entries[l.path]
  {
    if paths != [] {
      ListedEntries(entries, paths[1..]);
    }
  }

  /** A page is full unless it is the last: it has as many entries as asked for, or says
      that no more follow; they are the live entries in ascending order, and the page names
      the journal's length. */
  lemma PageIsFull(ns: Namespace, after: Option<Path>, limit: nat)
    requires 1 <= limit
    ensures var page := Snapshot(ns, after, limit);
            && |page.listed| <= limit && page.lastSeq == |ns.journal|
            && (page.next.Some? <==> |page.listed| == limit)
            && (page.next.Some? ==> page.next.value == page.listed[limit - 1].path)
            && (forall l | l in page.listed :: l.path in ns.entries && l.entry == ns.entries[l.path])
            && forall i, j | 0 <= i < j < |page.listed| :: Less(page.listed[i].path, page.listed[j].path)
  {
    SortedIsAscending(PathsPast(ns.entries, after));
    ListedEntries(ns.entries, PagePaths(ns.entries, after, limit));
  }

  function Merge(m: Contents, listed: seq<Listed>): Contents
    decreases |listed|
  {
    if listed == [] then m else Merge(m[listed[0].path := listed[0].entry.content], listed[1..])
  }

  lemma {:induction false} MergeIsLookup(m: Contents, listed: seq<Listed>, p: Path)
    ensures At(Merge(m, listed), p) == (if Lookup(listed, p).Some? then Lookup(listed, p) else At(m, p))
    decreases |listed|
  {
    if listed != [] {
      MergeIsLookup(m[listed[0].path := listed[0].entry.content], listed[1..], p);
    }
  }

  /** A client's scan: one page from each of these states, following the cursor. It
      finishes at the page that has no next cursor. */
  function Scan(m: Contents, states: seq<Namespace>, limits: seq<nat>, after: Option<Path>): Option<Contents>
    decreases |states|
  {
    if states == [] || limits == [] || limits[0] == 0 then None
    else
      var page := Snapshot(states[0], after, limits[0]);
      var m' := Merge(m, page.listed);
      if page.next.None? then Some(m') else Scan(m', states[1..], limits[1..], page.next)
  }

  /** Path by path, a finished scan shows one of the scanned states. */
  ghost predicate SeenIn(states: seq<Namespace>, m: Contents, p: Path) {
    exists k :: 0 <= k < |states| && At(m, p) == Present(states[k], p)
  }

  lemma {:induction false} ScanIsFuzzy(
      m: Contents, states: seq<Namespace>, limits: seq<nat>, after: Option<Path>, p: Path)
    requires Scan(m, states, limits, after).Some?
    requires Past(after, p) ==> p !in m
    ensures var out := Scan(m, states, limits, after).value;
            if Past(after, p) then SeenIn(states, out, p) else At(out, p) == At(m, p)
    decreases |states|
  {
    var page := Snapshot(states[0], after, limits[0]);
    var m' := Merge(m, page.listed);
    PageIsExact(states[0], after, limits[0], p);
    MergeIsLookup(m, page.listed, p);
    if page.next.None? {
      assert Past(after, p) ==> At(m', p) == Present(states[0], p);
    } else {
      CursorMoves(after, page.next.value, p);
      ScanIsFuzzy(m', states[1..], limits[1..], page.next, p);
      var out := Scan(m, states, limits, after).value;
      if Past(page.next, p) {
        var k :| 0 <= k < |states[1..]| && At(out, p) == Present(states[1..][k], p);
        assert At(out, p) == Present(states[k + 1], p);
      } else if Past(after, p) {
        assert At(out, p) == Present(states[0], p);
      }
    }
  }

  lemma CursorMoves(after: Option<Path>, next: Path, p: Path)
    requires Past(after, next)
    ensures Less(next, p) ==> Past(after, p)
  {
    if after.Some? && Less(next, p) {
      LessIsTransitive(after.value, next, p);
    }
  }

  // ------------------------------------------------------------------ changes

  datatype ChangesPage = ChangesPage(changes: Journal, next: nat, hasMore: bool)

  function Changes(ns: Namespace, since: nat, limit: nat): ChangesPage {
    var n := |ns.journal|;
    var changes :=
      if since >= n then [] else ns.journal[since..if since + limit <= n then since + limit else n];
    ChangesPage(changes, if changes == [] then since else changes[|changes| - 1].number, since + |changes| < n)
  }

  /** A page of changes is the stretch of the journal after the cursor, as long as asked
      for or to its end, and says whether that is the end. */
  lemma ChangesAreExact(ns: Namespace, since: nat, limit: nat)
    requires since <= |ns.journal| && 1 <= limit
    requires forall k | 0 <= k < |ns.journal| :: ns.journal[k].number == k + 1
    ensures var page := Changes(ns, since, limit);
            && page.next <= |ns.journal| && page.changes == ns.journal[since..page.next]
            && (page.next == since + limit || page.next == |ns.journal|) && page.next <= since + limit
            && (page.hasMore <==> page.next < |ns.journal|)
  {
  }

  /** Following the change cursor through these states, to the first page that says
      there is no more. */
  function Follow(states: seq<Namespace>, limits: seq<nat>, since: nat): Option<Journal>
    decreases |states|
  {
    if states == [] || limits == [] || limits[0] == 0 then None
    else
      var page := Changes(states[0], since, limits[0]);
      if !page.hasMore then (if |states| == 1 then Some(page.changes) else None)
      else
        var rest := Follow(states[1..], limits[1..], page.next);
        if rest.None? then None else Some(page.changes + rest.value)
  }

  /** Journals of one run: each extends the one before. */
  ghost predicate Growing(states: seq<Namespace>) {
    forall i, j | 0 <= i <= j < |states| :: states[i].journal <= states[j].journal
  }

  ghost predicate Numbered(states: seq<Namespace>) {
    forall i, k | 0 <= i < |states| && 0 <= k < |states[i].journal| :: states[i].journal[k].number == k + 1
  }

  ghost predicate AllRefine(states: seq<Namespace>) {
    forall i | 0 <= i < |states| :: Refines(states[i])
  }

  lemma JoinPages(first: Journal, last: Journal, page: Journal, since: nat)
    requires first <= last && since + |page| <= |first| && page == first[since..since + |page|]
    ensures page + last[since + |page|..] == last[since..]
  {
    assert last[since..since + |page|] == page;
  }

  /** The states of a followed cursor as they lie before the last one. */
  ghost predicate Leads(states: seq<Namespace>, last: Journal) {
    && (forall i | 0 <= i < |states| :: states[i].journal <= last)
    && (forall i, j | 0 <= i <= j < |states| :: |states[i].journal| <= |states[j].journal|)
    && (states != [] ==> states[|states| - 1].journal == last)
  }

  ghost predicate Counted(j: Journal) {
    forall k | 0 <= k < |j| :: j[k].number == k + 1
  }

  lemma CountedPrefix(first: Journal, last: Journal)
    requires Counted(last) && first <= last
    ensures Counted(first)
  {
  }

  lemma LeadsOn(states: seq<Namespace>, last: Journal)
    requires |states| > 1 && Leads(states, last)
    ensures Leads(states[1..], last) && states[0].journal <= last
    ensures |states[0].journal| <= |states[1..][0].journal|
  {
    assert forall i | 1 <= i < |states| :: states[i] == states[1..][i - 1];
  }

  lemma FollowStep(states: seq<Namespace>, limits: seq<nat>, since: nat)
    requires Follow(states, limits, since).Some?
    ensures states != [] && limits != [] && limits[0] > 0
    ensures var page := Changes(states[0], since, limits[0]);
            if page.hasMore then
              && |states| > 1 && Follow(states[1..], limits[1..], page.next).Some?
              && Follow(states, limits, since).value == page.changes + Follow(states[1..], limits[1..], page.next).value
            else |states| == 1 && Follow(states, limits, since).value == page.changes
  {
  }

  lemma LastPage(ns: Namespace, since: nat, limit: nat)
    requires since <= |ns.journal| && !Changes(ns, since, limit).hasMore && limit > 0
    ensures Changes(ns, since, limit).changes == ns.journal[since..]
  {
  }

  lemma PageMovesBy(ns: Namespace, since: nat, limit: nat)
    requires since <= |ns.journal| && Changes(ns, since, limit).hasMore && limit > 0
    requires Counted(ns.journal)
    ensures var page := Changes(ns, since, limit);
            var k := |page.changes|;
            since + k <= |ns.journal| && page.changes == ns.journal[since..since + k] && page.next == since + k
  {
  }

  /** One page, and what is left to follow after it. */
  lemma OnePage(states: seq<Namespace>, limit: nat, since: nat, last: Journal)
    requires Leads(states, last) && Counted(last) && limit > 0
    requires states != [] && since <= |states[0].journal|
    ensures var page := Changes(states[0], since, limit);
            if page.hasMore then
              |states| > 1 ==>
                && Leads(states[1..], last) && page.next <= |states[1..][0].journal| <= |last|
                && page.changes + last[page.next..] == last[since..]
            else |states| == 1 ==> page.changes == last[since..]
  {
    var page := Changes(states[0], since, limit);
    if page.hasMore {
      CountedPrefix(states[0].journal, last);
      PageMovesBy(states[0], since, limit);
      JoinPages(states[0].journal, last, page.changes, since);
      if |states| > 1 {
        LeadsOn(states, last);
      }
    } else {
      LastPage(states[0], since, limit);
    }
  }

  lemma {:induction false} FollowReaches(states: seq<Namespace>, limits: seq<nat>, since: nat, last: Journal)
    requires Leads(states, last) && Counted(last) && Follow(states, limits, since).Some?
    requires since <= |states[0].journal|
    ensures Follow(states, limits, since).value == last[since..]
    decreases |states|
  {
    FollowStep(states, limits, since);
    OnePage(states, limits[0], since, last);
    var page := Changes(states[0], since, limits[0]);
    if page.hasMore {
      FollowReaches(states[1..], limits[1..], page.next, last);
    }
  }

  /** The pages of a followed cursor add up to the journal of the last state, from
      the cursor on: nothing missed, nothing twice. */
  lemma {:induction false} FollowIsTail(states: seq<Namespace>, limits: seq<nat>, since: nat)
    requires Growing(states) && Numbered(states) && Follow(states, limits, since).Some?
    requires since <= |states[0].journal|
    ensures Follow(states, limits, since).value == states[|states| - 1].journal[since..]
  {
    var last := states[|states| - 1].journal;
    assert Counted(last);
    FollowReaches(states, limits, since, last);
  }

  /** A page that announces more moves the cursor. */
  lemma CursorAdvances(ns: Namespace, since: nat, limit: nat)
    requires Refines(ns) && 1 <= limit && Changes(ns, since, limit).hasMore
    ensures since < Changes(ns, since, limit).next <= |ns.journal|
  {
    var page := Changes(ns, since, limit);
    assert Chained(ns.journal, since + |page.changes| - 1);
  }

  // -------------------------------------------------------------- convergence

  /** The value at one path after some records, from the value before them. */
  function Latest(before: Option<Content>, j: Journal, p: Path): Option<Content> {
    if j == [] then before else Effect(j[|j| - 1], p).GetOr(Latest(before, j[..|j| - 1], p))
  }

  lemma {:induction false} ReplayIsLatest(m: Contents, j: Journal, p: Path)
    ensures At(ReplayOn(m, j), p) == Latest(At(m, p), j, p)
  {
    if j != [] {
      ReplayIsLatest(m, j[..|j| - 1], p);
      Replay1IsEffect(ReplayOn(m, j[..|j| - 1]), j[|j| - 1], p);
    }
  }

  lemma {:induction false} LatestSplits(before: Option<Content>, j: Journal, k: nat, p: Path)
    requires k <= |j|
    ensures Latest(before, j, p) == Latest(Latest(before, j[..k], p), j[k..], p)
    decreases |j|
  {
    if k == |j| {
      assert j[..k] == j;
    } else {
      var front := j[..|j| - 1];
      LatestSplits(before, front, k, p);
      assert front[..k] == j[..k] && front[k..] == j[k..][..|j[k..]| - 1];
    }
  }

  /** Records that touch a path forget what was there; records that do not, keep it. */
  lemma {:induction false} LatestForgets(a: Option<Content>, b: Option<Content>, j: Journal, p: Path)
    ensures Latest(a, j, p) == Latest(b, j, p) || (Latest(a, j, p) == a && Latest(b, j, p) == b)
  {
    if j != [] {
      LatestForgets(a, b, j[..|j| - 1], p);
    }
  }

  /** Replaying a journal's tail over a value seen at any moment after the tail's
      start gives the value at the end. */
  lemma LatestConverges(j: Journal, first: nat, seen: nat, p: Path)
    requires first <= seen <= |j|
    ensures Latest(Latest(None, j[..seen], p), j[first..], p) == Latest(None, j, p)
  {
    var start, middle := Latest(None, j[..first], p), Latest(None, j[..seen], p);
    LatestSplits(None, j, first, p);
    LatestSplits(None, j, seen, p);
    LatestSplits(None, j[..seen], first, p);
    assert j[..seen][..first] == j[..first];
    var part := j[..seen][first..];
    assert j[first..] == part + j[seen..];
    assert j[first..][..|part|] == part && j[first..][|part|..] == j[seen..];
    LatestSplits(middle, j[first..], |part|, p);
    LatestForgets(start, middle, part, p);
  }

  /** The states scanned all lie before the last state followed. */
  lemma ScannedLead(scanned: seq<Namespace>, followed: seq<Namespace>)
    requires Growing(scanned + followed) && scanned != [] && followed != []
    ensures Growing(followed) && |scanned[0].journal| <= |followed[0].journal|
    ensures forall i | 0 <= i < |scanned| ::
              && |scanned[0].journal| <= |scanned[i].journal|
              && scanned[i].journal <= followed[|followed| - 1].journal
  {
    var all := scanned + followed;
    assert forall i | 0 <= i < |followed| :: all[|scanned| + i] == followed[i];
    assert all[0].journal <= all[|scanned|].journal;
    forall i | 0 <= i < |scanned|
      ensures |scanned[0].journal| <= |scanned[i].journal| && scanned[i].journal <= followed[|followed| - 1].journal
    {
      assert all[0].journal <= all[i].journal <= all[|all| - 1].journal;
    }
  }

  lemma AllRefineParts(scanned: seq<Namespace>, followed: seq<Namespace>)
    requires AllRefine(scanned + followed)
    ensures AllRefine(scanned) && AllRefine(followed)
  {
    var all := scanned + followed;
    assert forall i | 0 <= i < |scanned| :: all[i] == scanned[i];
    assert forall i | 0 <= i < |followed| :: all[|scanned| + i] == followed[i];
  }

  /** Snapshot pages taken while commits interleave, followed by the changes since
      the first page as the cursor returns them, rebuild exactly the namespace of the
      state that answered the last request. */
  lemma SnapshotAndChangesConverge(
      scanned: seq<Namespace>, limits: seq<nat>, followed: seq<Namespace>, limits': seq<nat>)
    requires Growing(scanned + followed) && AllRefine(scanned + followed)
    requires scanned != [] && Scan(map[], scanned, limits, None).Some?
    requires Follow(followed, limits', |scanned[0].journal|).Some?
    ensures var m := Scan(map[], scanned, limits, None).value;
            var tail := Follow(followed, limits', Snapshot(scanned[0], None, limits[0]).lastSeq).value;
            ReplayOn(m, tail) == ContentsOf(followed[|followed| - 1].entries)
  {
    var m := Scan(map[], scanned, limits, None).value;
    var first := |scanned[0].journal|;
    ScannedLead(scanned, followed);
    AllRefineParts(scanned, followed);
    RefiningIsNumbered(followed);
    FollowIsTail(followed, limits', first);
    var last := followed[|followed| - 1];
    forall p
      ensures At(ReplayOn(m, last.journal[first..]), p) == At(Replay(last.journal), p)
    {
      ConvergesAt(scanned, limits, last, p);
    }
    SameMaps(ReplayOn(m, last.journal[first..]), Replay(last.journal));
  }

  lemma RefiningIsNumbered(states: seq<Namespace>)
    requires AllRefine(states)
    ensures Numbered(states)
  {
    forall i, k | 0 <= i < |states| && 0 <= k < |states[i].journal|
      ensures states[i].journal[k].number == k + 1
    {
      assert Chained(states[i].journal, k);
    }
  }

  lemma ConvergesAt(scanned: seq<Namespace>, limits: seq<nat>, last: Namespace, p: Path)
    requires scanned != [] && AllRefine(scanned) && Scan(map[], scanned, limits, None).Some?
    requires forall i | 0 <= i < |scanned| ::
               |scanned[0].journal| <= |scanned[i].journal| && scanned[i].journal <= last.journal
    ensures var m := Scan(map[], scanned, limits, None).value;
            At(ReplayOn(m, last.journal[|scanned[0].journal|..]), p) == At(Replay(last.journal), p)
  {
    var m := Scan(map[], scanned, limits, None).value;
    var j, first := last.journal, |scanned[0].journal|;
    ScanIsFuzzy(map[], scanned, limits, None, p);
    var k :| 0 <= k < |scanned| && At(m, p) == Present(scanned[k], p);
    var seen := |scanned[k].journal|;
    assert scanned[k].journal == j[..seen];
    ReplayIsLatest(map[], j[..seen], p);
    ReplayIsLatest(map[], j, p);
    ReplayIsLatest(m, j[first..], p);
    LatestConverges(j, first, seen, p);
  }

  lemma SameMaps(a: Contents, b: Contents)
    requires forall p :: At(a, p) == At(b, p)
    ensures a == b
  {
    forall p
      ensures p in a <==> p in b
      ensures p in a ==> a[p] == b[p]
    {
      assert At(a, p) == At(b, p);
    }
  }
}
