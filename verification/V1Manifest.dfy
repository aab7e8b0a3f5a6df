/** The Fabric v1 manifest: what a generation's digest commits to, and the linked
    records by which a client follows it. */
module V1Manifest {
  import opened Prelude
  import opened Order
  import opened Layouts

  datatype FileInfo = FileInfo(size: nat, digest: Digest, layout: Layout)

  /** Live files and tombstones. */
  datatype Manifest = Manifest(live: map<Path, FileInfo>, tombs: map<Path, Digest>)

  const EMPTY_MANIFEST := Manifest(map[], map[])

  // ------------------------------------------------------------------- digest

  datatype Mark = FileMark(digest: Digest) | TombMark(digest: Digest)

  datatype Line = Line(path: Path, mark: Mark)

  function Paths(m: Manifest): set<Path> {
    m.live.Keys + m.tombs.Keys
  }

  function MarkOf(m: Manifest, p: Path): Mark
    requires p in Paths(m)
  {
    if p in m.live then FileMark(m.live[p].digest) else TombMark(m.tombs[p])
  }

  function Lines(m: Manifest, paths: seq<Path>): (lines: seq<Line>)
    requires forall i | 0 <= i < |paths| :: paths[i] in Paths(m)
    ensures |lines| == |paths|
    ensures forall i | 0 <= i < |paths| :: lines[i] == Line(paths[i], MarkOf(m, paths[i]))
  {
    if paths == [] then [] else [Line(paths[0], MarkOf(m, paths[0]))] + Lines(m, paths[1..])
  }

  function Listing(m: Manifest): seq<Line> {
    SortedIsAscending(Paths(m));
    assert forall i | 0 <= i < |Sorted(Paths(m))| :: Sorted(Paths(m))[i] in Sorted(Paths(m));
    Lines(m, Sorted(Paths(m)))
  }

  /** One line for each path, in order. */
  lemma ListingInOrder(m: Manifest)
    ensures var paths := Sorted(Paths(m));
            && |Listing(m)| == |paths|
            && forall i | 0 <= i < |paths| ::
                 paths[i] in Paths(m) && Listing(m)[i] == Line(paths[i], MarkOf(m, paths[i]))
  {
    SortedIsAscending(Paths(m));
    assert forall i | 0 <= i < |Sorted(Paths(m))| :: Sorted(Paths(m))[i] in Sorted(Paths(m));
  }

  /** `file` and `tombstone`. */
  function Tag(mark: Mark): Bytes {
    if mark.FileMark? then [102, 105, 108, 101] else [116, 111, 109, 98, 115, 116, 111, 110, 101]
  }

  function EncodeLine(l: Line): Bytes {
    l.path + ([0] + (Tag(l.mark) + ([0] + l.mark.digest)))
  }

  /** What a manifest digest hashes. */
  function Encode(lines: seq<Line>): Bytes {
    if lines == [] then [] else EncodeLine(lines[0]) + Encode(lines[1..])
  }

  function ManifestDigest(m: Manifest): Digest {
    Sha256(Encode(Listing(m)))
  }

  /** A text free of NUL is found again in front of a NUL. */
  lemma {:induction false} NulEndsText(a: Bytes, x: Bytes, b: Bytes, y: Bytes)
    requires 0 !in a && 0 !in b && a + ([0] + x) == b + ([0] + y)
    ensures a == b && x == y
    decreases |a|
  {
    var u, v := a + ([0] + x), b + ([0] + y);
    assert a != [] ==> u[0] == a[0] && a[0] in a;
    assert b != [] ==> v[0] == b[0] && b[0] in b;
    if a == [] || b == [] {
      assert u[0] == v[0];
      assert a == [] ==> u[1..] == x;
      assert b == [] ==> v[1..] == y;
    } else {
      assert u[0] == a[0] && v[0] == b[0];
      assert u[1..] == a[1..] + ([0] + x) && v[1..] == b[1..] + ([0] + y);
      NulEndsText(a[1..], x, b[1..], y);
      assert a == [a[0]] + a[1..] && b == [b[0]] + b[1..];
    }
  }

  lemma LineIsDecodable(l: Line, x: Bytes, m: Line, y: Bytes)
    requires EncodeLine(l) + x == EncodeLine(m) + y
    ensures l == m && x == y
  {
    var tailL, tailM := Tag(l.mark) + ([0] + l.mark.digest), Tag(m.mark) + ([0] + m.mark.digest);
    assert EncodeLine(l) + x == l.path + ([0] + (tailL + x));
    assert EncodeLine(m) + y == m.path + ([0] + (tailM + y));
    NulEndsText(l.path, tailL + x, m.path, tailM + y);
    assert tailL + x == Tag(l.mark) + ([0] + (l.mark.digest + x));
    assert tailM + y == Tag(m.mark) + ([0] + (m.mark.digest + y));
    NulEndsText(Tag(l.mark), l.mark.digest + x, Tag(m.mark), m.mark.digest + y);
    var u, v := l.mark.digest + x, m.mark.digest + y;
    assert u[..32] == l.mark.digest && v[..32] == m.mark.digest && u[32..] == x && v[32..] == y;
  }

  /** The hashed bytes are uniquely decodable. */
  lemma {:induction false} EncodeIsInjective(a: seq<Line>, b: seq<Line>)
    requires Encode(a) == Encode(b)
    ensures a == b
    decreases |a|
  {
    assert a != [] ==> |EncodeLine(a[0])| > 0;
    assert b != [] ==> |EncodeLine(b[0])| > 0;
    if a != [] && b != [] {
      LineIsDecodable(a[0], Encode(a[1..]), b[0], Encode(b[1..]));
      EncodeIsInjective(a[1..], b[1..]);
      assert a == [a[0]] + a[1..] && b == [b[0]] + b[1..];
    }
  }

  /** Same paths, same live digests, same tombstones. */
  ghost predicate SameMarks(m: Manifest, n: Manifest) {
    Paths(m) == Paths(n) && forall p | p in Paths(m) :: MarkOf(m, p) == MarkOf(n, p)
  }

  /** Equal digests mean equal namespaces, and the other way round. */
  lemma DigestDeterminesMarks(m: Manifest, n: Manifest)
    requires NoCollision(Encode(Listing(m)), Encode(Listing(n)))
    ensures ManifestDigest(m) == ManifestDigest(n) <==> SameMarks(m, n)
  {
    if ManifestDigest(m) == ManifestDigest(n) {
      EncodeIsInjective(Listing(m), Listing(n));
      ListingShowsMarks(m, n);
      ListingShowsMarks(n, m);
    }
    if SameMarks(m, n) {
      SameMarksSameListing(m, n);
    }
  }

  lemma SameMarksSameListing(m: Manifest, n: Manifest)
    requires SameMarks(m, n)
    ensures Listing(m) == Listing(n)
  {
    SortedIsAscending(Paths(m));
    var paths := Sorted(Paths(m));
    assert forall i | 0 <= i < |paths| :: paths[i] in paths;
    assert |Listing(m)| == |Listing(n)| == |paths|;
    assert forall i | 0 <= i < |paths| :: Listing(m)[i] == Listing(n)[i];
  }

  lemma ListingShowsMarks(m: Manifest, n: Manifest)
    requires Listing(m) == Listing(n)
    ensures forall p | p in Paths(m) :: p in Paths(n) && MarkOf(m, p) == MarkOf(n, p)
  {
    SortedIsAscending(Paths(m));
    SortedIsAscending(Paths(n));
    forall p | p in Paths(m)
      ensures p in Paths(n) && MarkOf(m, p) == MarkOf(n, p)
    {
      var i :| 0 <= i < |Sorted(Paths(m))| && Sorted(Paths(m))[i] == p;
      assert Listing(m)[i] == Line(p, MarkOf(m, p)) && Listing(n)[i] == Line(p, MarkOf(m, p));
      assert Sorted(Paths(n))[i] == p && Sorted(Paths(n))[i] in Sorted(Paths(n));
    }
  }

  // ------------------------------------------------------------------ history

  datatype ChangeEntry =
    | FileEntry(path: Path, info: FileInfo, previous: Option<Digest>)
    | TombEntry(path: Path, digest: Digest)

  datatype Change = Change(generation: nat, digest: Digest, previous: Digest, entries: seq<ChangeEntry>)

  type History = map<nat, Change>

  function ApplyEntry(m: Manifest, e: ChangeEntry): Manifest {
    match e
    case FileEntry(p, info, _) => Manifest(m.live[p := info], m.tombs - {p})
    case TombEntry(p, digest) => Manifest(m.live - {p}, m.tombs[p := digest])
  }

  function ApplyEntries(m: Manifest, es: seq<ChangeEntry>): Manifest
    decreases |es|
  {
    if es == [] then m else ApplyEntries(ApplyEntry(m, es[0]), es[1..])
  }

  /** The manifest of a generation, rebuilt from the records up to it. */
  function ReplayTo(h: History, g: nat): Manifest {
    if g == 0 then EMPTY_MANIFEST
    else if g in h then ApplyEntries(ReplayTo(h, g - 1), h[g].entries)
    else ReplayTo(h, g - 1)
  }

  /** Record g links to the digest of generation g-1, and its own digest is that of
      the namespace that the records up to it rebuild. */
  ghost predicate LinkedAt(h: History, digests: map<nat, Digest>, g: nat)
    requires g > 0
  {
    && g in h && g in digests
    && h[g].generation == g
    && h[g].digest == digests[g] == ManifestDigest(ReplayTo(h, g))
    && h[g].previous == ManifestDigest(ReplayTo(h, g - 1))
  }

  ghost predicate Linked(h: History, digests: map<nat, Digest>, n: nat) {
    forall g | 1 <= g <= n :: LinkedAt(h, digests, g)
  }

  /** Generations after g do not matter to the manifest of g. */
  lemma {:induction false} ReplayIsStable(h: History, h': History, g: nat)
    requires forall k | 1 <= k <= g :: k in h && k in h' && h[k] == h'[k]
    ensures ReplayTo(h, g) == ReplayTo(h', g)
  {
    if g > 0 {
      ReplayIsStable(h, h', g - 1);
    }
  }

  // ------------------------------------------------------------------ changes

  /** The serialized size of a record. Nothing is known about it. */
  const RecordBytes: Change -> nat

  const MAX_RESPONSE := 1250000
  const RESPONSE_HEADER := 512

  function Cost(c: Change): nat {
    RecordBytes(c) + 1
  }

  function TotalCost(cs: seq<Change>): nat {
    if cs == [] then 0 else Cost(cs[0]) + TotalCost(cs[1..])
  }

  datatype Answer =
    | FullRefresh
    | Unchanged
    | Page(changes: seq<Change>, next: nat, nextDigest: Digest, truncated: bool)

  /** What a cursor is answered low. */
  datatype Head = Head(generation: nat, digest: Digest, digests: map<nat, Digest>, history: History, forced: bool)

  function Last(head: Head, after: nat, limit: nat): nat {
    if head.generation < after + limit then head.generation else after + limit
  }

  /** The page loop with its defences: a missing or unlinked record throws away what
      was gathered, a full page stops. Returns the records and whether the budget
      cut them off. */
  function Gather(head: Head, g: nat, last: nat, expected: Digest, used: nat, changes: seq<Change>): (seq<Change>, bool)
    decreases if g <= last then last - g + 1 else 0
  {
    if g > last then (changes, false)
    else if g !in head.history || head.history[g].generation != g || head.history[g].previous != expected
    then ([], false)
    else
      var change := head.history[g];
      if used + Cost(change) > MAX_RESPONSE then (changes, changes != [])
      else Gather(head, g + 1, last, change.digest, used + Cost(change), changes + [change])
  }

  function AnswerChanges(head: Head, after: nat, afterDigest: Digest, limit: nat): Answer {
    if head.forced || after > head.generation then FullRefresh
    else if after == head.generation then
      if afterDigest != head.digest then FullRefresh else Unchanged
    else if after !in head.digests || head.digests[after] != afterDigest then FullRefresh
    else
      var (changes, limited) := Gather(head, after + 1, Last(head, after, limit), afterDigest, RESPONSE_HEADER, []);
      if changes == [] then FullRefresh
      else
        var end := changes[|changes| - 1];
        Page(changes, end.generation, end.digest, limited || end.generation < head.generation)
  }

  ghost predicate GoodHead(head: Head) {
    && Linked(head.history, head.digests, head.generation)
    && head.digest == ManifestDigest(ReplayTo(head.history, head.generation))
  }

  /** The part of it that the page loop relies on. */
  ghost predicate Sound(head: Head, g: nat) {
    && g in head.history && head.history[g].generation == g
    && g in head.digests && head.digests[g] == head.history[g].digest
    && (g > 1 ==> g - 1 in head.digests && head.history[g].previous == head.digests[g - 1])
  }

  ghost predicate Chain(head: Head) {
    forall g | 1 <= g <= head.generation :: Sound(head, g)
  }

  lemma GoodHeadIsChain(head: Head)
    requires GoodHead(head)
    ensures Chain(head)
  {
    forall g | 1 <= g <= head.generation
      ensures Sound(head, g)
    {
      assert LinkedAt(head.history, head.digests, g);
      if g > 1 {
        assert LinkedAt(head.history, head.digests, g - 1);
      }
    }
  }

  ghost predicate Dense(h: History, low: nat, high: nat) {
    forall k | low < k <= high :: k in h
  }

  lemma ChainIsDense(head: Head, low: nat, high: nat)
    requires Chain(head) && high <= head.generation
    ensures Dense(head.history, low, high)
  {
    forall k | low < k <= high
      ensures k in head.history
    {
      assert Sound(head, k);
    }
  }

  /** The records after `low`, up to `high`. */
  function Records(h: History, low: nat, high: nat): seq<Change>
    decreases high - low
  {
    if high <= low || low + 1 !in h then [] else [h[low + 1]] + Records(h, low + 1, high)
  }

  /** The last generation that still fits the budget. */
  function PageEnd(h: History, low: nat, last: nat, used: nat): nat
    decreases last - low
  {
    if last <= low || low + 1 !in h || used + Cost(h[low + 1]) > MAX_RESPONSE then low
    else PageEnd(h, low + 1, last, used + Cost(h[low + 1]))
  }

  lemma {:induction false} PageEndFits(h: History, low: nat, last: nat, used: nat)
    requires low <= last && Dense(h, low, last)
    ensures var end := PageEnd(h, low, last, used);
            && low <= end <= last
            && (end == low || used + TotalCost(Records(h, low, end)) <= MAX_RESPONSE)
            && (end < last ==> used + TotalCost(Records(h, low, end)) + Cost(h[end + 1]) > MAX_RESPONSE)
            && |Records(h, low, end)| == end - low
    decreases last - low
  {
    if low < last && used + Cost(h[low + 1]) <= MAX_RESPONSE {
      PageEndFits(h, low + 1, last, used + Cost(h[low + 1]));
    }
  }

  /** On a chain the loop returns consecutive records up to the end of the budget; the
      branches for a missing or unlinked record are never taken. */
  lemma {:induction false} GatherIsConsecutive(
      head: Head, low: nat, last: nat, expected: Digest, used: nat, changes: seq<Change>)
    requires Chain(head) && low <= last <= head.generation
    requires low < last ==> low + 1 in head.history && expected == head.history[low + 1].previous
    ensures var end := PageEnd(head.history, low, last, used);
            var out := changes + Records(head.history, low, end);
            Gather(head, low + 1, last, expected, used, changes) == (out, end < last && out != [])
    decreases last - low
  {
    if low < last {
      assert Sound(head, low + 1);
      var change := head.history[low + 1];
      if used + Cost(change) <= MAX_RESPONSE {
        if low + 1 < last {
          assert Sound(head, low + 2);
        }
        GatherIsConsecutive(head, low + 1, last, change.digest, used + Cost(change), changes + [change]);
        var end := PageEnd(head.history, low, last, used);
        ChainIsDense(head, low + 1, last);
        PageEndFits(head.history, low + 1, last, used + Cost(change));
        assert changes + [change] + Records(head.history, low + 1, end) == changes + Records(head.history, low, end);
      } else {
        assert changes + [] == changes;
      }
    } else {
      assert changes + [] == changes;
    }
  }

  function ApplyChanges(m: Manifest, cs: seq<Change>): Manifest
    decreases |cs|
  {
    if cs == [] then m else ApplyChanges(ApplyEntries(m, cs[0].entries), cs[1..])
  }

  lemma {:induction false} RecordsReplay(h: History, low: nat, high: nat)
    requires low <= high && Dense(h, low, high)
    ensures |Records(h, low, high)| == high - low
    ensures low < high ==> Records(h, low, high)[high - low - 1] == h[high]
    ensures ApplyChanges(ReplayTo(h, low), Records(h, low, high)) == ReplayTo(h, high)
    decreases high - low
  {
    if low < high {
      RecordsReplay(h, low + 1, high);
    }
  }

  /** A cursor that the server would recognise. */
  ghost predicate Valid(head: Head, after: nat, afterDigest: Digest) {
    1 <= after <= head.generation && after in head.digests && head.digests[after] == afterDigest
  }

  /** What an answer gives a mirror of generation `after`. A page moves it to a later
      generation, ends at a cursor that is valid again, fits the byte budget and ends
      early only where the next record would not fit, and says truthfully whether more is
      to come. */
  ghost predicate Advances(head: Head, after: nat, limit: nat, answer: Answer) {
    if answer.Page? then
      && after < answer.next <= after + limit && Valid(head, answer.next, answer.nextDigest)
      && answer.changes == Records(head.history, after, answer.next)
      && ApplyChanges(ReplayTo(head.history, after), answer.changes) == ReplayTo(head.history, answer.next)
      && RESPONSE_HEADER + TotalCost(answer.changes) <= MAX_RESPONSE
      && (answer.truncated <==> answer.next < head.generation)
      && (answer.next < head.generation && answer.next < after + limit ==>
            answer.next + 1 in head.history
            && RESPONSE_HEADER + TotalCost(answer.changes) + Cost(head.history[answer.next + 1]) > MAX_RESPONSE)
    else if answer.Unchanged? then after == head.generation
    else
      head.forced
      || (after < head.generation && after + 1 in head.history
          && RESPONSE_HEADER + Cost(head.history[after + 1]) > MAX_RESPONSE)
  }

  /** What the page loop gathers for a valid cursor. */
  lemma PageIsRecords(head: Head, after: nat, afterDigest: Digest, limit: nat)
    requires Chain(head) && Valid(head, after, afterDigest) && 1 <= limit && after < head.generation
    ensures var last := Last(head, after, limit);
            var end := PageEnd(head.history, after, last, RESPONSE_HEADER);
            var records := Records(head.history, after, end);
            && after <= end <= last && |records| == end - after
            && Gather(head, after + 1, last, afterDigest, RESPONSE_HEADER, []) == (records, end < last && records != [])
  {
    assert Sound(head, after + 1);
    var last := Last(head, after, limit);
    ChainIsDense(head, after, last);
    GatherIsConsecutive(head, after, last, afterDigest, RESPONSE_HEADER, []);
    PageEndFits(head.history, after, last, RESPONSE_HEADER);
    var end := PageEnd(head.history, after, last, RESPONSE_HEADER);
    assert [] + Records(head.history, after, end) == Records(head.history, after, end);
  }

  /** A stretch of records moves a mirror and ends at a valid cursor. */
  lemma RecordsMove(head: Head, after: nat, end: nat)
    requires Chain(head) && after < end <= head.generation
    ensures var records := Records(head.history, after, end);
            && |records| == end - after
            && records[|records| - 1].generation == end && Valid(head, end, records[|records| - 1].digest)
            && ApplyChanges(ReplayTo(head.history, after), records) == ReplayTo(head.history, end)
  {
    ChainIsDense(head, after, end);
    RecordsReplay(head.history, after, end);
    assert Sound(head, end);
  }

  /** How far a page for this cursor reaches. */
  function Reach(head: Head, after: nat, limit: nat): nat {
    PageEnd(head.history, after, Last(head, after, limit), RESPONSE_HEADER)
  }

  lemma AnswerOfGathered(
      head: Head, after: nat, afterDigest: Digest, limit: nat, records: seq<Change>, limited: bool)
    requires Valid(head, after, afterDigest) && after < head.generation && !head.forced
    requires (records, limited) == Gather(head, after + 1, Last(head, after, limit), afterDigest, RESPONSE_HEADER, [])
    ensures AnswerChanges(head, after, afterDigest, limit)
            == if records == [] then FullRefresh
               else
                 var end := records[|records| - 1];
                 Page(records, end.generation, end.digest, limited || end.generation < head.generation)
  {
  }

  /** A page is the records it reaches over; without any there is a full refresh. */
  lemma AnswerIsPage(head: Head, after: nat, afterDigest: Digest, limit: nat)
    requires Chain(head) && Valid(head, after, afterDigest) && 1 <= limit && after < head.generation && !head.forced
    ensures var end := Reach(head, after, limit);
            var records := Records(head.history, after, end);
            && after <= end <= Last(head, after, limit) && |records| == end - after
            && AnswerChanges(head, after, afterDigest, limit)
               == if end == after then FullRefresh
                  else Page(records, end, records[|records| - 1].digest, end < head.generation)
  {
    PageIsRecords(head, after, afterDigest, limit);
    var last, end := Last(head, after, limit), Reach(head, after, limit);
    var records := Records(head.history, after, end);
    AnswerOfGathered(head, after, afterDigest, limit, records, end < last && records != []);
    if after < end {
      RecordsMove(head, after, end);
    }
  }

  lemma AnswerAdvances(head: Head, after: nat, afterDigest: Digest, limit: nat)
    requires GoodHead(head) && Valid(head, after, afterDigest) && 1 <= limit
    ensures Advances(head, after, limit, AnswerChanges(head, after, afterDigest, limit))
  {
    if head.forced {
    } else if after == head.generation {
      assert LinkedAt(head.history, head.digests, after);
    } else {
      GoodHeadIsChain(head);
      AnswerIsPage(head, after, afterDigest, limit);
      PageAdvances(head, after, limit, AnswerChanges(head, after, afterDigest, limit));
    }
  }

  /** A cursor that the server does not recognise is answered by a full refresh. */
  lemma StrangeCursorIsRefreshed(head: Head, after: nat, afterDigest: Digest, limit: nat)
    requires GoodHead(head) && 1 <= after && !Valid(head, after, afterDigest)
    ensures AnswerChanges(head, after, afterDigest, limit).FullRefresh?
  {
    if after == head.generation {
      assert LinkedAt(head.history, head.digests, after);
    }
  }

  lemma PageAdvances(head: Head, after: nat, limit: nat, answer: Answer)
    requires Chain(head) && 1 <= limit && after < head.generation
    requires var end := Reach(head, after, limit);
             var records := Records(head.history, after, end);
             && after <= end <= Last(head, after, limit) && |records| == end - after
             && answer == if end == after then FullRefresh
                          else Page(records, end, records[|records| - 1].digest, end < head.generation)
    ensures Advances(head, after, limit, answer)
  {
    var last, end := Last(head, after, limit), Reach(head, after, limit);
    ChainIsDense(head, after, last);
    PageEndFits(head.history, after, last, RESPONSE_HEADER);
    if after < end {
      RecordsMove(head, after, end);
    } else {
      assert after + 1 in head.history;
    }
  }

  /** Following the cursor against one head: the generation reached, or None for a
      full refresh. */
  function Chase(head: Head, after: nat, afterDigest: Digest, limit: nat): Option<nat>
    decreases if after < head.generation then head.generation - after else 0
  {
    match AnswerChanges(head, after, afterDigest, limit)
    case FullRefresh => None
    case Unchanged => Some(after)
    case Page(_, next, nextDigest, _) =>
      if after < next <= head.generation then Chase(head, next, nextDigest, limit) else None
  }

  /** A record too large for any page. */
  ghost predicate Oversized(head: Head, g: nat) {
    g in head.history && RESPONSE_HEADER + Cost(head.history[g]) > MAX_RESPONSE
  }

  /** It ends at the head, or at a full refresh that an oversized record made
      necessary. */
  lemma {:induction false} ChaseReachesHead(head: Head, after: nat, afterDigest: Digest, limit: nat)
    requires GoodHead(head) && Valid(head, after, afterDigest) && 1 <= limit && !head.forced
    ensures Chase(head, after, afterDigest, limit)
            == if exists g :: after < g <= head.generation && Oversized(head, g) then None else Some(head.generation)
    decreases head.generation - after
  {
    AnswerAdvances(head, after, afterDigest, limit);
    var answer := AnswerChanges(head, after, afterDigest, limit);
    if answer.FullRefresh? {
      assert Oversized(head, after + 1);
    } else if answer.Page? {
      ChaseReachesHead(head, answer.next, answer.nextDigest, limit);
      GoodHeadIsChain(head);
      ChainIsDense(head, after, answer.next);
      RecordsFit(head.history, after, answer.next);
    }
  }

  lemma {:induction false} RecordsFit(h: History, low: nat, high: nat)
    requires low <= high && Dense(h, low, high)
    ensures forall g | low < g <= high :: Cost(h[g]) <= TotalCost(Records(h, low, high))
    decreases high - low
  {
    if low < high {
      RecordsFit(h, low + 1, high);
    }
  }
}
