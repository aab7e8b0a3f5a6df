/** The Fabric v1 plane: one mutation or publish at a time, each a new generation. */
module V1State {
  import opened Prelude
  import opened TreeStore
  import opened Admission
  import opened Layouts
  import opened Portable
  import opened V1Manifest
  import opened V1Blocks

  datatype Expectation = ExpectAbsent | ExpectFile(digest: Digest) | ExpectTombstone(digest: Digest)

  datatype Mutation =
    | PutFile(path: Path, expected: Expectation, size: int, digest: Digest, layout: Layout)
    | DeleteFile(path: Path, expected: Expectation)
    | RenameFile(source: Path, destination: Path, expected: Expectation, expectedDestination: Expectation)

  /** A request as the host signed it, with its own digest. */
  datatype Request = Request(id: Id, base: nat, baseDigest: Option<Digest>, mutation: Mutation, digest: Digest)

  /** The canonical digest of a request. Nothing is known about it. */
  const RequestDigest: (Id, Id, nat, Option<Digest>, Mutation) -> Digest

  datatype Receipt = Receipt(
    id: Id, request: Digest, touched: seq<Path>, entry: Digest,
    manifest: Digest, generation: nat, replayed: bool, deferred: bool)

  datatype Kept = Kept(request: Digest, host: Id, hostGeneration: nat, receipt: Receipt)

  datatype Plane = Plane(
    cas: Cas, files: map<Path, Bytes>, layouts: map<Path, Layout>, tombs: map<Path, Digest>,
    generation: nat, digests: map<nat, Digest>, snapshots: map<nat, map<Path, Layout>>, history: History,
    receipts: map<Scope, Kept>, operations: Operations, available: bool, forced: bool)

  const NEW_PLANE := Plane(map[], map[], map[], map[], 0, map[], map[], map[], map[], map[], false, false)

  // -------------------------------------------------------------- generations

  const NO_LAYOUT := Blocks(1, 0, 0, ObjectCas, [])

  function InfoOf(data: Bytes, l: Layout): FileInfo {
    FileInfo(|data|, Sha256(data), l)
  }

  function LiveFiles(files: map<Path, Bytes>, layouts: map<Path, Layout>): map<Path, FileInfo> {
    map p | p in files :: InfoOf(files[p], if p in layouts then layouts[p] else NO_LAYOUT)
  }

  /** What the plane serves now. */
  function Current(s: Plane): Manifest {
    Manifest(LiveFiles(s.files, s.layouts), s.tombs)
  }

  function Advance(s: Plane, previous: Digest, entries: seq<ChangeEntry>): Plane {
    var g, digest := s.generation + 1, ManifestDigest(Current(s));
    s.(generation := g, digests := s.digests[g := digest], snapshots := s.snapshots[g := s.layouts],
       history := s.history[g := Change(g, digest, previous, entries)], available := true)
  }

  function HeadOf(s: Plane): Head {
    Head(s.generation, ManifestDigest(Current(s)), s.digests, s.history, s.forced)
  }

  function DigestAt(files: map<Path, Bytes>, p: Path): Option<Digest> {
    if p in files then Some(Sha256(files[p])) else None
  }

  /** A file with its layout at a path. */
  function Place(s: Plane, p: Path, data: Bytes, l: Layout): Plane {
    s.(files := s.files[p := data], layouts := s.layouts[p := l], tombs := s.tombs - {p})
  }

  /** A tombstone in place of a file. */
  function Bury(s: Plane, p: Path, digest: Digest): Plane {
    s.(files := s.files - {p}, layouts := s.layouts - {p}, tombs := s.tombs[p := digest])
  }

  // ---------------------------------------------------------------- mutations

  predicate Matches(s: Plane, p: Path, e: Expectation) {
    match e
    case ExpectAbsent => p !in s.files
    case ExpectFile(d) => DigestAt(s.files, p) == Some(d)
    case ExpectTombstone(d) => p !in s.files && p in s.tombs && s.tombs[p] == d
  }

  /** Normalization: base, descriptor and digest of the request. */
  function CheckRequest(p: Peer, q: Request): Option<Fault> {
    if (q.base == 0 && q.baseDigest.Some?) || (q.base > 0 && q.baseDigest.None?) then Some(MutationBaseInvalid)
    else if q.mutation.PutFile?
            && !(Geometry(q.mutation.size, q.mutation.layout) && q.mutation.layout.storage == ConnectedHostCas)
    then Some(DescriptorInvalid)
    else if q.digest != RequestDigest(p.session, q.id, q.base, q.baseDigest, q.mutation) then Some(RequestDigestInvalid)
    else None
  }

  /** The layout that a path had in the request's base generation. */
  function BaseLayout(s: Plane, base: nat, p: Path): Option<Layout> {
    if base > 0 && base in s.snapshots && p in s.snapshots[base] then Some(s.snapshots[base][p]) else None
  }

  function ReusableFor(s: Plane, base: nat, m: Mutation): Sizes
    requires m.PutFile?
  {
    if m.expected.ExpectFile? && DigestAt(s.files, m.path) == Some(m.expected.digest)
    then Reusable(BaseLayout(s, base, m.path), if m.path in s.layouts then Some(s.layouts[m.path]) else None)
    else map[]
  }

  datatype Performed =
    | NotDone(operations: Operations, fault: Fault)
    | Done(plane: Plane, entries: seq<ChangeEntry>, touched: seq<Path>, entry: Digest)

  /** The bytes of an authorised put. */
  function PutBytes(cas: Cas, m: Mutation): Result<Bytes>
    requires m.PutFile? && m.layout.Blocks?
  {
    var data := Join(cas, m.layout.blocks);
    if data.Rejected? then data
    else if |data.value| != m.size || Sha256(data.value) != m.digest then Rejected(DescriptorInvalid)
    else data
  }

  /** Its proofs come before its bytes; a refusal may drop an expired operation. */
  function AuthorisedPut(s: Plane, p: Peer, now: real, q: Request): (Operations, Result<Bytes>)
    requires q.mutation.PutFile? && q.mutation.layout.Blocks?
  {
    var m := q.mutation;
    var (ops, ok) := CheckAuthority(s.operations, p, q.id, now, ReusableFor(s, q.base, m), m.layout.blocks);
    (ops, if ok then PutBytes(s.cas, m) else Rejected(BlocksNotVerified))
  }

  /** A put whose authority check came out one way or the other. */
  function PutWith(s: Plane, m: Mutation, ops: Operations, data: Result<Bytes>): Performed
    requires m.PutFile?
  {
    if data.Rejected? then NotDone(ops, data.fault)
    else
      Done(Place(s, m.path, data.value, m.layout),
           [FileEntry(m.path, InfoOf(data.value, m.layout), DigestAt(s.files, m.path))], [m.path], m.digest)
  }

  ghost predicate MayPut(s: Plane, m: Mutation)
    requires m.PutFile?
  {
    Matches(s, m.path, m.expected) && PortableSet(s.files.Keys + {m.path})
  }

  ghost function PerformPut(s: Plane, p: Peer, now: real, q: Request): Performed
    requires q.mutation.PutFile? && q.mutation.layout.Blocks?
  {
    if !MayPut(s, q.mutation) then NotDone(s.operations, PathConflict)
    else
      var (ops, data) := AuthorisedPut(s, p, now, q);
      PutWith(s, q.mutation, ops, data)
  }

  function PerformDelete(s: Plane, m: Mutation): Performed
    requires m.DeleteFile?
  {
    if !Matches(s, m.path, m.expected) || m.path !in s.files then NotDone(s.operations, PathConflict)
    else
      var digest := Sha256(s.files[m.path]);
      Done(Bury(s, m.path, digest), [TombEntry(m.path, digest)], [m.path], digest)
  }

  ghost function PerformRename(s: Plane, m: Mutation): Performed
    requires m.RenameFile?
  {
    var a, b := m.source, m.destination;
    if a == b then NotDone(s.operations, RenameSamePath)
    else if !Matches(s, a, m.expected) || !Matches(s, b, m.expectedDestination) then NotDone(s.operations, PathConflict)
    else if a !in s.files || a !in s.layouts then NotDone(s.operations, LegacyRename)
    else if !PortableSet(s.files.Keys - {a, b} + {b}) then NotDone(s.operations, PathConflict)
    else
      var data, layout, digest := s.files[a], s.layouts[a], Sha256(s.files[a]);
      Done(Place(Bury(s, a, digest), b, data, layout),
           [TombEntry(a, digest), FileEntry(b, InfoOf(data, layout), DigestAt(s.files, b))], [a, b], digest)
  }

  ghost function Perform(s: Plane, p: Peer, now: real, q: Request): Performed
    requires q.mutation.PutFile? ==> q.mutation.layout.Blocks?
  {
    match q.mutation
    case PutFile(_, _, _, _, _) => PerformPut(s, p, now, q)
    case DeleteFile(_, _) => PerformDelete(s, q.mutation)
    case RenameFile(_, _, _, _) => PerformRename(s, q.mutation)
  }

  predicate BaseDiverged(s: Plane, q: Request) {
    q.base > s.generation || (q.base > 0 && (q.base !in s.digests || Some(s.digests[q.base]) != q.baseDigest))
  }

  function Replayed(r: Receipt): Receipt {
    r.(replayed := true, deferred := true)
  }

  /** A performed mutation becomes a generation and a receipt. */
  function Record(s: Plane, done: Performed, p: Peer, q: Request): (Plane, Receipt)
    requires done.Done?
  {
    var key := Scope(p.session, q.id);
    var s' := Advance(done.plane, ManifestDigest(Current(s)), done.entries);
    var g := s'.generation;
    var receipt := Receipt(q.id, q.digest, done.touched, done.entry, s'.digests[g], g, false, false);
    (s'.(receipts := s'.receipts[key := Kept(q.digest, p.host, p.generation, receipt)],
         operations := s'.operations - {key}), receipt)
  }

  /** What becomes of a mutation request. */
  datatype Fate = Refused(fault: Fault) | Repeated(receipt: Receipt) | Tried(done: Performed)

  ghost function FateOf(s: Plane, p: Peer, now: real, q: Request): Fate {
    var key := Scope(p.session, q.id);
    var fault := CheckRequest(p, q);
    if fault.Some? then Refused(fault.value)
    else if key in s.receipts then
      var kept := s.receipts[key];
      if kept.request != q.digest || kept.host != p.host || kept.hostGeneration != p.generation
      then Refused(IdempotencyConflict)
      else Repeated(Replayed(kept.receipt))
    else if BaseDiverged(s, q) then Refused(MutationBaseDiverged)
    else Tried(Perform(s, p, now, q))
  }

  ghost function Settle(s: Plane, p: Peer, q: Request, fate: Fate): (Plane, Result<Receipt>) {
    match fate
    case Refused(fault) => (s, Rejected(fault))
    case Repeated(receipt) => (s, Ok(receipt))
    case Tried(NotDone(ops, fault)) => (s.(operations := ops), Rejected(fault))
    case Tried(Done(_, _, _, _)) => var (s', receipt) := Record(s, fate.done, p, q); (s', Ok(receipt))
  }

  ghost function Mutate(s: Plane, p: Peer, now: real, q: Request): (Plane, Result<Receipt>) {
    Settle(s, p, q, FateOf(s, p, now, q))
  }

  /** What a status query answers, by session and mutation alone. */
  function MutationStatus(s: Plane, session: Id, id: Id, digest: Digest): Result<Option<Receipt>> {
    var key := Scope(session, id);
    if key !in s.receipts then Ok(None)
    else if s.receipts[key].request != digest then Rejected(IdempotencyConflict)
    else Ok(Some(s.receipts[key].receipt))
  }

  // ------------------------------------------------------------------ publish

  const CHUNK := 4 * 1024 * 1024

  function SeedBlocks(data: Bytes, index: nat, offset: nat): seq<Block>
    decreases |data|
  {
    if |data| <= CHUNK then [Block(index, offset, |data|, Sha256(data))]
    else [Block(index, offset, CHUNK, Sha256(data[..CHUNK]))] + SeedBlocks(data[CHUNK..], index + 1, offset + CHUNK)
  }

  function SeedCas(cas: Cas, data: Bytes): Cas
    decreases |data|
  {
    if |data| <= CHUNK then PutObject(cas, Sha256(data), data)
    else SeedCas(PutObject(cas, Sha256(data[..CHUNK]), data[..CHUNK]), data[CHUNK..])
  }

  function SeedLayout(data: Bytes): Layout {
    var blocks := SeedBlocks(data, 0, 0);
    Blocks(if data != [] then CHUNK else 1, |blocks|, |data|, ObjectCas, blocks)
  }

  function Publish(s: Plane, path: Path, data: Bytes): Plane {
    Advance(Place(s.(cas := SeedCas(s.cas, data)), path, data, SeedLayout(data)), ManifestDigest(Current(s)),
            [FileEntry(path, InfoOf(data, SeedLayout(data)), DigestAt(s.files, path))])
  }

  /** No chunk collides with what is stored when its turn comes. */
  ghost predicate CleanChunks(cas: Cas, data: Bytes)
    decreases |data|
  {
    if |data| <= CHUNK then Collisionless(cas, data)
    else
      && Collisionless(cas, data[..CHUNK])
      && CleanChunks(PutObject(cas, Sha256(data[..CHUNK]), data[..CHUNK]), data[CHUNK..])
  }

  function Bare(cas: Cas): Store {
    Store(cas, {}, {})
  }

  lemma {:induction false} SeedIsImmutable(cas: Cas, data: Bytes)
    requires WellHashed(cas) && CleanChunks(cas, data)
    ensures WellHashed(SeedCas(cas, data)) && Extends(Bare(cas), Bare(SeedCas(cas, data)))
    decreases |data|
  {
    if |data| <= CHUNK {
      PutObjectIsImmutable(Bare(cas), data);
    } else {
      PutObjectIsImmutable(Bare(cas), data[..CHUNK]);
      SeedIsImmutable(PutObject(cas, Sha256(data[..CHUNK]), data[..CHUNK]), data[CHUNK..]);
    }
  }

  /** A seeded file is the concatenation of the blocks its layout lists. */
  lemma {:induction false} SeedIsLayout(cas: Cas, data: Bytes, index: nat, offset: nat)
    requires WellHashed(cas) && CleanChunks(cas, data)
    ensures var blocks := SeedBlocks(data, index, offset);
            Running(blocks, index, offset) && Join(SeedCas(cas, data), blocks) == Ok(data)
    decreases |data|
  {
    var blocks := SeedBlocks(data, index, offset);
    if |data| <= CHUNK {
      assert blocks[1..] == [];
      assert data + [] == data;
    } else {
      var next := PutObject(cas, Sha256(data[..CHUNK]), data[..CHUNK]);
      PutObjectIsImmutable(Bare(cas), data[..CHUNK]);
      SeedIsImmutable(next, data[CHUNK..]);
      SeedIsLayout(next, data[CHUNK..], index + 1, offset + CHUNK);
      assert blocks[1..] == SeedBlocks(data[CHUNK..], index + 1, offset + CHUNK);
      assert data == data[..CHUNK] + data[CHUNK..];
    }
  }

  // ---------------------------------------------------------------- invariant

  /** A file is the concatenation of its layout's stored blocks. */
  ghost predicate Backed(cas: Cas, l: Layout, data: Bytes) {
    l.Blocks? && Running(l.blocks, 0, 0) && Join(cas, l.blocks) == Ok(data)
  }

  ghost predicate FilesBacked(s: Plane) {
    && s.files.Keys == s.layouts.Keys
    && s.files.Keys !! s.tombs.Keys
    && forall p | p in s.files :: Backed(s.cas, s.layouts[p], s.files[p])
  }

  /** The layouts of a rebuilt manifest. */
  function LayoutsOf(m: Manifest): map<Path, Layout> {
    map p | p in m.live :: m.live[p].layout
  }

  ghost predicate SnapshotAt(s: Plane, g: nat) {
    g in s.snapshots && s.snapshots[g] == LayoutsOf(ReplayTo(s.history, g))
  }

  /** Records link up to now, and the layouts kept for a generation are its own. */
  ghost predicate HistorySound(s: Plane) {
    && Linked(s.history, s.digests, s.generation)
    && ReplayTo(s.history, s.generation) == Current(s)
    && (forall g | 1 <= g <= s.generation :: SnapshotAt(s, g))
    && (s.available <==> s.generation > 0)
  }

  /** A sound history of a plane that has a layout for every file. */
  ghost predicate Recorded(s: Plane) {
    HistorySound(s) && s.files.Keys == s.layouts.Keys
  }

  /** Content addressing, files that are the join of their blocks, bounded operations. */
  ghost predicate ContentsSound(s: Plane) {
    WellHashed(s.cas) && FilesBacked(s) && OperationsSound(s.cas, s.operations)
  }

  ghost predicate Invariant(s: Plane) {
    Recorded(s) && ContentsSound(s)
  }

  /** A new record leaves the earlier manifests as they were. */
  lemma EarlierManifests(s: Plane, s': Plane, c: Change)
    requires HistorySound(s) && s'.history == s.history[s.generation + 1 := c]
    ensures forall k | 0 <= k <= s.generation :: ReplayTo(s'.history, k) == ReplayTo(s.history, k)
  {
    forall k | 0 <= k <= s.generation
      ensures ReplayTo(s'.history, k) == ReplayTo(s.history, k)
    {
      forall j | 1 <= j <= k
        ensures j in s.history && j in s'.history && s.history[j] == s'.history[j]
      {
        assert LinkedAt(s.history, s.digests, j);
      }
      ReplayIsStable(s'.history, s.history, k);
    }
  }

  /** One more generation on a sound history. */
  lemma AdvanceKeepsHistory(s: Plane, s1: Plane, entries: seq<ChangeEntry>)
    requires HistorySound(s) && s1.files.Keys == s1.layouts.Keys
    requires s1 == s.(cas := s1.cas, files := s1.files, layouts := s1.layouts, tombs := s1.tombs)
    requires Current(s1) == ApplyEntries(Current(s), entries)
    ensures Recorded(Advance(s1, ManifestDigest(Current(s)), entries))
  {
    var s', g := Advance(s1, ManifestDigest(Current(s)), entries), s.generation + 1;
    EarlierManifests(s, s', s'.history[g]);
    assert Current(s') == Current(s1);
    AdvanceKeepsLinks(s, s', entries);
    LayoutsAreCurrent(s1);
    forall k | 1 <= k <= g
      ensures SnapshotAt(s', k)
    {
      if k < g {
        assert SnapshotAt(s, k);
      }
    }
  }

  lemma LayoutsAreCurrent(s: Plane)
    requires s.files.Keys == s.layouts.Keys
    ensures LayoutsOf(Current(s)) == s.layouts
  {
    assert Current(s).live.Keys == s.files.Keys;
  }

  lemma AdvanceKeepsLinks(s: Plane, s': Plane, entries: seq<ChangeEntry>)
    requires HistorySound(s) && Current(s') == ApplyEntries(Current(s), entries)
    requires var g, digest := s.generation + 1, ManifestDigest(Current(s'));
             && s'.generation == g && s'.digests == s.digests[g := digest]
             && s'.history == s.history[g := Change(g, digest, ManifestDigest(Current(s)), entries)]
    requires forall k | 0 <= k <= s.generation :: ReplayTo(s'.history, k) == ReplayTo(s.history, k)
    ensures Linked(s'.history, s'.digests, s'.generation) && ReplayTo(s'.history, s'.generation) == Current(s')
  {
    var g := s.generation + 1;
    assert ReplayTo(s'.history, g) == ApplyEntries(ReplayTo(s'.history, g - 1), s'.history[g].entries);
    forall k | 1 <= k <= g
      ensures LinkedAt(s'.history, s'.digests, k)
    {
      if k < g {
        assert LinkedAt(s.history, s.digests, k);
        LinkStays(s, s', k);
      }
    }
  }

  lemma LinkStays(s: Plane, s': Plane, k: nat)
    requires 1 <= k && LinkedAt(s.history, s.digests, k)
    requires k in s'.history && s'.history[k] == s.history[k] && k in s'.digests && s'.digests[k] == s.digests[k]
    requires forall j | k - 1 <= j <= k :: ReplayTo(s'.history, j) == ReplayTo(s.history, j)
    ensures LinkedAt(s'.history, s'.digests, k)
  {
  }

  /** Placing a file is what its entry says. */
  lemma PlaceIsEntry(s: Plane, p: Path, data: Bytes, l: Layout, previous: Option<Digest>)
    requires s.files.Keys == s.layouts.Keys
    ensures Current(Place(s, p, data, l)) == ApplyEntry(Current(s), FileEntry(p, InfoOf(data, l), previous))
  {
  }

  lemma BuryIsEntry(s: Plane, p: Path, digest: Digest)
    requires s.files.Keys == s.layouts.Keys
    ensures Current(Bury(s, p, digest)) == ApplyEntry(Current(s), TombEntry(p, digest))
  {
  }

  lemma ApplyFew(m: Manifest, e: ChangeEntry, f: ChangeEntry)
    ensures ApplyEntries(m, [e]) == ApplyEntry(m, e)
    ensures ApplyEntries(m, [e, f]) == ApplyEntry(ApplyEntry(m, e), f)
  {
    assert [e][1..] == [] && [e, f][1..] == [f] && [f][1..] == [];
    assert ApplyEntries(ApplyEntry(m, e), [f]) == ApplyEntry(ApplyEntry(m, e), f);
  }

  lemma PlaceKeepsBacked(s: Plane, p: Path, data: Bytes, l: Layout)
    requires FilesBacked(s) && Backed(s.cas, l, data)
    ensures FilesBacked(Place(s, p, data, l))
  {
  }

  lemma BuryKeepsBacked(s: Plane, p: Path, digest: Digest)
    requires FilesBacked(s)
    ensures FilesBacked(Bury(s, p, digest))
  {
  }

  /** The namespace after a performed mutation is what its entries say. */
  ghost predicate Matched(s: Plane, done: Performed)
    requires done.Done?
  {
    Current(done.plane) == ApplyEntries(Current(s), done.entries) && done.plane.files.Keys == done.plane.layouts.Keys
  }

  lemma PutMatches(s: Plane, p: Peer, now: real, q: Request)
    requires s.files.Keys == s.layouts.Keys && q.mutation.PutFile? && q.mutation.layout.Blocks?
    requires PerformPut(s, p, now, q).Done?
    ensures Matched(s, PerformPut(s, p, now, q))
  {
    var m := q.mutation;
    var data, previous := PutBytes(s.cas, m).value, DigestAt(s.files, m.path);
    var entry := FileEntry(m.path, InfoOf(data, m.layout), previous);
    PlaceIsEntry(s, m.path, data, m.layout, previous);
    ApplyFew(Current(s), entry, entry);
  }

  lemma DeleteMatches(s: Plane, m: Mutation)
    requires s.files.Keys == s.layouts.Keys && m.DeleteFile? && PerformDelete(s, m).Done?
    ensures Matched(s, PerformDelete(s, m))
  {
    var entry := TombEntry(m.path, Sha256(s.files[m.path]));
    BuryIsEntry(s, m.path, Sha256(s.files[m.path]));
    ApplyFew(Current(s), entry, entry);
  }

  lemma RenameMatches(s: Plane, m: Mutation)
    requires s.files.Keys == s.layouts.Keys && m.RenameFile? && PerformRename(s, m).Done?
    ensures Matched(s, PerformRename(s, m))
  {
    var a, b := m.source, m.destination;
    var data, layout, digest := s.files[a], s.layouts[a], Sha256(s.files[a]);
    BuryIsEntry(s, a, digest);
    PlaceIsEntry(Bury(s, a, digest), b, data, layout, DigestAt(s.files, b));
    ApplyFew(Current(s), TombEntry(a, digest), FileEntry(b, InfoOf(data, layout), DigestAt(s.files, b)));
  }

  /** What a performed mutation did to the namespace is what its entries say. */
  lemma PerformMatchesEntries(s: Plane, p: Peer, now: real, q: Request)
    requires s.files.Keys == s.layouts.Keys && (q.mutation.PutFile? ==> q.mutation.layout.Blocks?)
    requires Perform(s, p, now, q).Done?
    ensures Matched(s, Perform(s, p, now, q))
  {
    match q.mutation
    case PutFile(_, _, _, _, _) => PutMatches(s, p, now, q);
    case DeleteFile(_, _) => DeleteMatches(s, q.mutation);
    case RenameFile(_, _, _, _) => RenameMatches(s, q.mutation);
  }

  /** And its files are still the concatenations of their blocks. */
  lemma PerformKeepsBacked(s: Plane, p: Peer, now: real, q: Request)
    requires FilesBacked(s) && (q.mutation.PutFile? ==> Geometry(q.mutation.size, q.mutation.layout))
    requires Perform(s, p, now, q).Done?
    ensures FilesBacked(Perform(s, p, now, q).plane)
  {
    var m := q.mutation;
    match m
    case PutFile(path, _, _, _, layout) => PlaceKeepsBacked(s, path, PutBytes(s.cas, m).value, layout);
    case DeleteFile(path, _) => BuryKeepsBacked(s, path, Sha256(s.files[path]));
    case RenameFile(a, b, _, _) =>
      BuryKeepsBacked(s, a, Sha256(s.files[a]));
      PlaceKeepsBacked(Bury(s, a, Sha256(s.files[a])), b, s.files[a], s.layouts[a]);
  }

  /** A mutation that is done changes only the namespace, one that is not can only have
      dropped an operation. */
  ghost predicate Frames(s: Plane, done: Performed) {
    if done.Done?
    then done.plane == s.(files := done.plane.files, layouts := done.plane.layouts, tombs := done.plane.tombs)
    else forall k | k in done.operations :: k in s.operations && done.operations[k] == s.operations[k]
  }

  lemma PerformFrames(s: Plane, p: Peer, now: real, q: Request)
    requires q.mutation.PutFile? ==> q.mutation.layout.Blocks?
    ensures Frames(s, Perform(s, p, now, q))
  {
  }

  /** When a mutation is tried at all. */
  lemma TriedMeans(s: Plane, p: Peer, now: real, q: Request)
    ensures FateOf(s, p, now, q).Tried? ==>
              && CheckRequest(p, q).None? && Scope(p.session, q.id) !in s.receipts && !BaseDiverged(s, q)
              && FateOf(s, p, now, q).done == Perform(s, p, now, q)
              && (q.mutation.PutFile? ==> Geometry(q.mutation.size, q.mutation.layout))
    ensures FateOf(s, p, now, q).Repeated? ==>
              Scope(p.session, q.id) in s.receipts && FateOf(s, p, now, q).receipt.replayed
  {
  }
}
