/** What a Fabric v1 mutation promises its client: it is committed exactly when what the
    client expected is so and the request is in form, and it writes what it says. */
module V1Expectations {
  import opened Prelude
  import opened TreeStore
  import opened Admission
  import opened Layouts
  import opened Portable
  import opened V1Manifest
  import opened V1Blocks
  import opened V1State
  import opened V1Runs

  // ------------------------------------------------------------- expectations

  /** A path is in a manifest as a client expects it. */
  predicate Sees(m: Manifest, p: Path, e: Expectation) {
    match e
    case ExpectAbsent => p !in m.live
    case ExpectFile(d) => p in m.live && m.live[p].digest == d
    case ExpectTombstone(d) => p !in m.live && p in m.tombs && m.tombs[p] == d
  }

  /** The paths of a mutation are as expected, and there is a file to delete or move. */
  predicate Expected(m: Manifest, u: Mutation) {
    match u
    case PutFile(p, e, _, _, _) => Sees(m, p, e)
    case DeleteFile(p, e) => Sees(m, p, e) && p in m.live
    case RenameFile(a, b, e, e') => Sees(m, a, e) && Sees(m, b, e') && a in m.live
  }

  lemma MatchesIsSeen(s: Plane, p: Path, e: Expectation)
    ensures Matches(s, p, e) <==> Sees(Current(s), p, e)
  {
  }

  /** A new request in form: its base is nothing or an acknowledged generation with that
      generation's digest, its layout is legal, its digest is its own. */
  ghost predicate Admissible(s: Plane, p: Peer, q: Request) {
    && (q.base == 0 <==> q.baseDigest.None?)
    && (q.base > 0 ==> q.base <= s.generation && q.base in s.digests && q.baseDigest == Some(s.digests[q.base]))
    && (q.mutation.PutFile? ==>
          Geometry(q.mutation.size, q.mutation.layout) && q.mutation.layout.storage == ConnectedHostCas)
    && q.digest == RequestDigest(p.session, q.id, q.base, q.baseDigest, q.mutation)
    && Scope(p.session, q.id) !in s.receipts
  }

  /** Each block of a put is reusable or verified for it, and together they are the file. */
  ghost predicate Backs(s: Plane, p: Peer, now: real, q: Request)
    requires q.mutation.PutFile? && q.mutation.layout.Blocks?
  {
    var m := q.mutation;
    && (forall b | b in m.layout.blocks :: Authorised(s.operations, p, q.id, now, ReusableFor(s, q.base, m), b))
    && Join(s.cas, m.layout.blocks).Ok?
    && |Join(s.cas, m.layout.blocks).value| == m.size && Sha256(Join(s.cas, m.layout.blocks).value) == m.digest
  }

  /** What else a mutation needs. */
  ghost predicate Possible(s: Plane, p: Peer, now: real, q: Request)
    requires q.mutation.PutFile? ==> q.mutation.layout.Blocks?
  {
    match q.mutation
    case PutFile(path, _, _, _, _) => PortableSet(s.files.Keys + {path}) && Backs(s, p, now, q)
    case DeleteFile(_, _) => true
    case RenameFile(a, b, _, _) => a != b && a in s.layouts && PortableSet(s.files.Keys - {a, b} + {b})
  }

  /** Answered for the first time. */
  ghost predicate Commits(s: Plane, p: Peer, now: real, q: Request) {
    Mutate(s, p, now, q).1.Ok? && !Mutate(s, p, now, q).1.value.replayed
  }

  lemma TriedIsAdmissible(s: Plane, p: Peer, now: real, q: Request)
    ensures FateOf(s, p, now, q).Tried? <==> Admissible(s, p, q)
  {
  }

  lemma CommitsIsDone(s: Plane, p: Peer, now: real, q: Request)
    ensures Commits(s, p, now, q) <==> Admissible(s, p, q) && Perform(s, p, now, q).Done?
    ensures Commits(s, p, now, q) ==>
              var (s', receipt) := Record(s, Perform(s, p, now, q), p, q); Mutate(s, p, now, q) == (s', Ok(receipt))
    ensures Admissible(s, p, q) && Perform(s, p, now, q).NotDone? ==>
              Mutate(s, p, now, q) == (s.(operations := Perform(s, p, now, q).operations),
                                       Rejected(Perform(s, p, now, q).fault))
  {
    TriedIsAdmissible(s, p, now, q);
    TriedMeans(s, p, now, q);
    var fate := FateOf(s, p, now, q);
    if fate.Tried? {
      assert Settle(s, p, q, fate).1.Ok? <==> fate.done.Done?;
    }
  }

  lemma PutIsDone(s: Plane, p: Peer, now: real, q: Request)
    requires q.mutation.PutFile? && q.mutation.layout.Blocks?
    ensures PerformPut(s, p, now, q).Done? <==> Expected(Current(s), q.mutation) && Possible(s, p, now, q)
    ensures !Expected(Current(s), q.mutation) ==> PerformPut(s, p, now, q) == NotDone(s.operations, PathConflict)
  {
    var m := q.mutation;
    MatchesIsSeen(s, m.path, m.expected);
    AuthorityIsExact(s.operations, p, q.id, now, ReusableFor(s, q.base, m), m.layout.blocks);
  }

  lemma DeleteIsDone(s: Plane, m: Mutation)
    requires m.DeleteFile?
    ensures PerformDelete(s, m).Done? <==> Expected(Current(s), m)
    ensures !Expected(Current(s), m) ==> PerformDelete(s, m) == NotDone(s.operations, PathConflict)
  {
    MatchesIsSeen(s, m.path, m.expected);
  }

  lemma RenameIsDone(s: Plane, m: Mutation)
    requires m.RenameFile?
    ensures PerformRename(s, m).Done?
            <==> Expected(Current(s), m) && m.source != m.destination && m.source in s.layouts
                 && PortableSet(s.files.Keys - {m.source, m.destination} + {m.destination})
    ensures var seen := Sees(Current(s), m.source, m.expected)
                        && Sees(Current(s), m.destination, m.expectedDestination);
            !seen && m.source != m.destination ==> PerformRename(s, m) == NotDone(s.operations, PathConflict)
  {
    MatchesIsSeen(s, m.source, m.expected);
    MatchesIsSeen(s, m.destination, m.expectedDestination);
  }

  /** A mutation is committed exactly when it is a new request in form, its paths are as
      its client expected, and what else it needs is there. */
  lemma MutateIsExact(s: Plane, p: Peer, now: real, q: Request)
    ensures Commits(s, p, now, q)
            <==> Admissible(s, p, q) && Expected(Current(s), q.mutation) && Possible(s, p, now, q)
  {
    CommitsIsDone(s, p, now, q);
    if Admissible(s, p, q) {
      match q.mutation
      case PutFile(_, _, _, _, _) => PutIsDone(s, p, now, q);
      case DeleteFile(_, _) => DeleteIsDone(s, q.mutation);
      case RenameFile(_, _, _, _) => RenameIsDone(s, q.mutation);
    }
  }

  /** The paths that a mutation states an expectation of, as it states them. */
  predicate States(u: Mutation, p: Path, e: Expectation) {
    match u
    case PutFile(x, e', _, _, _) => p == x && e == e'
    case DeleteFile(x, e') => p == x && e == e'
    case RenameFile(a, b, e', e'') => (p == a && e == e') || (p == b && e == e'')
  }

  /** A new request in form with an expectation that is not so changes nothing and is
      refused as a path conflict. */
  lemma UnexpectedIsRefused(s: Plane, p: Peer, now: real, q: Request, path: Path, e: Expectation)
    requires Admissible(s, p, q) && States(q.mutation, path, e) && !Sees(Current(s), path, e)
    requires q.mutation.RenameFile? ==> q.mutation.source != q.mutation.destination
    ensures Mutate(s, p, now, q) == (s, Rejected(PathConflict))
  {
    CommitsIsDone(s, p, now, q);
    match q.mutation
    case PutFile(_, _, _, _, _) => PutIsDone(s, p, now, q);
    case DeleteFile(_, _) => DeleteIsDone(s, q.mutation);
    case RenameFile(_, _, _, _) => RenameIsDone(s, q.mutation);
  }

  // ------------------------------------------------------------------- effects

  /** The manifest that a mutation leads to. */
  function Written(m: Manifest, u: Mutation): Manifest
    requires Expected(m, u) && (u.PutFile? ==> u.size >= 0)
  {
    match u
    case PutFile(p, _, size, digest, layout) => Manifest(m.live[p := FileInfo(size, digest, layout)], m.tombs - {p})
    case DeleteFile(p, _) => Manifest(m.live - {p}, m.tombs[p := m.live[p].digest])
    case RenameFile(a, b, _, _) =>
      Manifest((m.live - {a})[b := m.live[a]], m.tombs[a := m.live[a].digest] - {b})
  }

  lemma PlaceWrites(s: Plane, p: Path, data: Bytes, l: Layout)
    requires s.files.Keys == s.layouts.Keys
    ensures Current(Place(s, p, data, l)) == Manifest(Current(s).live[p := InfoOf(data, l)], Current(s).tombs - {p})
  {
    assert Current(Place(s, p, data, l)).live == Current(s).live[p := InfoOf(data, l)];
  }

  lemma BuryWrites(s: Plane, p: Path, digest: Digest)
    requires s.files.Keys == s.layouts.Keys
    ensures Current(Bury(s, p, digest)) == Manifest(Current(s).live - {p}, Current(s).tombs[p := digest])
  {
    assert Current(Bury(s, p, digest)).live == Current(s).live - {p};
  }

  lemma PutWrites(s: Plane, p: Peer, now: real, q: Request)
    requires s.files.Keys == s.layouts.Keys && q.mutation.PutFile? && q.mutation.layout.Blocks? && q.mutation.size >= 0
    requires Expected(Current(s), q.mutation) && PerformPut(s, p, now, q).Done?
    ensures Current(PerformPut(s, p, now, q).plane) == Written(Current(s), q.mutation)
  {
    PlaceWrites(s, q.mutation.path, PutBytes(s.cas, q.mutation).value, q.mutation.layout);
  }

  lemma DeleteWrites(s: Plane, m: Mutation)
    requires s.files.Keys == s.layouts.Keys && m.DeleteFile?
    requires Expected(Current(s), m) && PerformDelete(s, m).Done?
    ensures Current(PerformDelete(s, m).plane) == Written(Current(s), m)
  {
    BuryWrites(s, m.path, Sha256(s.files[m.path]));
  }

  lemma RenameWrites(s: Plane, m: Mutation)
    requires s.files.Keys == s.layouts.Keys && m.RenameFile?
    requires Expected(Current(s), m) && PerformRename(s, m).Done?
    ensures Current(PerformRename(s, m).plane) == Written(Current(s), m)
  {
    var digest := Sha256(s.files[m.source]);
    BuryWrites(s, m.source, digest);
    PlaceWrites(Bury(s, m.source, digest), m.destination, s.files[m.source], s.layouts[m.source]);
  }

  lemma RecordKeepsCurrent(s: Plane, done: Performed, p: Peer, q: Request)
    requires done.Done?
    ensures Current(Record(s, done, p, q).0) == Current(done.plane)
  {
  }

  /** A committed mutation does to the namespace what it says: a put leaves its file at its
      path, a delete a tombstone of what was there, a rename both. */
  lemma CommitWrites(s: Plane, p: Peer, now: real, q: Request)
    requires Recorded(s) && Commits(s, p, now, q)
    ensures Expected(Current(s), q.mutation) && (q.mutation.PutFile? ==> q.mutation.size >= 0)
    ensures Current(Mutate(s, p, now, q).0) == Written(Current(s), q.mutation)
  {
    MutateIsExact(s, p, now, q);
    CommitsIsDone(s, p, now, q);
    RecordKeepsCurrent(s, Perform(s, p, now, q), p, q);
    match q.mutation
    case PutFile(_, _, _, _, _) => PutWrites(s, p, now, q);
    case DeleteFile(_, _) => DeleteWrites(s, q.mutation);
    case RenameFile(_, _, _, _) => RenameWrites(s, q.mutation);
  }

  function DigestOf(m: Manifest, p: Path): Option<Digest> {
    if p in m.live then Some(m.live[p].digest) else None
  }

  /** What the change record of a mutation lists: each path it touches, with what is there
      after and, for a file, the digest it replaced. */
  function Listed(m: Manifest, u: Mutation): seq<ChangeEntry>
    requires Expected(m, u) && (u.PutFile? ==> u.size >= 0)
  {
    match u
    case PutFile(p, _, size, digest, layout) => [FileEntry(p, FileInfo(size, digest, layout), DigestOf(m, p))]
    case DeleteFile(p, _) => [TombEntry(p, m.live[p].digest)]
    case RenameFile(a, b, _, _) => [TombEntry(a, m.live[a].digest), FileEntry(b, m.live[a], DigestOf(m, b))]
  }

  function Touched(u: Mutation): seq<Path> {
    match u
    case PutFile(p, _, _, _, _) => [p]
    case DeleteFile(p, _) => [p]
    case RenameFile(a, b, _, _) => [a, b]
  }

  lemma PerformLists(s: Plane, p: Peer, now: real, q: Request)
    requires s.files.Keys == s.layouts.Keys && Expected(Current(s), q.mutation)
    requires q.mutation.PutFile? ==> q.mutation.size >= 0 && q.mutation.layout.Blocks?
    requires Perform(s, p, now, q).Done?
    ensures Perform(s, p, now, q).entries == Listed(Current(s), q.mutation)
    ensures Perform(s, p, now, q).touched == Touched(q.mutation)
  {
    match q.mutation
    case PutFile(_, _, _, _, _) => PutLists(s, p, now, q);
    case DeleteFile(_, _) => DeleteLists(s, q.mutation);
    case RenameFile(_, _, _, _) => RenameLists(s, q.mutation);
  }

  lemma PutLists(s: Plane, p: Peer, now: real, q: Request)
    requires s.files.Keys == s.layouts.Keys && q.mutation.PutFile? && q.mutation.layout.Blocks? && q.mutation.size >= 0
    requires Expected(Current(s), q.mutation) && PerformPut(s, p, now, q).Done?
    ensures PerformPut(s, p, now, q).entries == Listed(Current(s), q.mutation)
    ensures PerformPut(s, p, now, q).touched == Touched(q.mutation)
  {
    assert DigestAt(s.files, q.mutation.path) == DigestOf(Current(s), q.mutation.path);
  }

  lemma DeleteLists(s: Plane, m: Mutation)
    requires s.files.Keys == s.layouts.Keys && m.DeleteFile? && Expected(Current(s), m) && PerformDelete(s, m).Done?
    ensures PerformDelete(s, m).entries == Listed(Current(s), m) && PerformDelete(s, m).touched == Touched(m)
  {
  }

  lemma RenameLists(s: Plane, m: Mutation)
    requires s.files.Keys == s.layouts.Keys && m.RenameFile? && Expected(Current(s), m) && PerformRename(s, m).Done?
    ensures PerformRename(s, m).entries == Listed(Current(s), m) && PerformRename(s, m).touched == Touched(m)
  {
    assert DigestAt(s.files, m.destination) == DigestOf(Current(s), m.destination);
  }

  /** One more generation, with a record of these entries and its digest, and a receipt that
      names both. */
  ghost predicate OneRecord(
      s: Plane, s': Plane, q: Request, r: Receipt, entries: seq<ChangeEntry>, touched: seq<Path>)
  {
    var g, digest := s.generation + 1, ManifestDigest(Current(s'));
    && s'.generation == g && g in s'.digests && s'.digests[g] == digest && g in s'.history
    && s'.history[g] == Change(g, digest, ManifestDigest(Current(s)), entries)
    && r.id == q.id && r.request == q.digest && r.touched == touched && r.manifest == digest && r.generation == g
  }

  lemma RecordIsOne(s: Plane, done: Performed, p: Peer, q: Request)
    requires done.Done? && Frames(s, done)
    ensures var (s', r) := Record(s, done, p, q); OneRecord(s, s', q, r, done.entries, done.touched)
  {
    assert Current(Record(s, done, p, q).0) == Current(done.plane);
  }

  /** A committed mutation adds one record, of the generation after, which lists what it
      did; its receipt names that generation, its digest and the paths. */
  lemma CommitIsRecorded(s: Plane, p: Peer, now: real, q: Request)
    requires Recorded(s) && Commits(s, p, now, q)
    ensures Expected(Current(s), q.mutation) && (q.mutation.PutFile? ==> q.mutation.size >= 0)
    ensures var (s', r) := Mutate(s, p, now, q);
            OneRecord(s, s', q, r.value, Listed(Current(s), q.mutation), Touched(q.mutation))
  {
    MutateIsExact(s, p, now, q);
    CommitsIsDone(s, p, now, q);
    PerformLists(s, p, now, q);
    PerformFrames(s, p, now, q);
    RecordIsOne(s, Perform(s, p, now, q), p, q);
  }

  /** The mutation takes the file with this digest away from the path, or replaces it by
      another. */
  predicate Changes(u: Mutation, p: Path, digest: Digest) {
    match u
    case PutFile(x, _, _, d, _) => p == x && d != digest
    case DeleteFile(x, _) => p == x
    case RenameFile(a, b, _, _) => p == a && a != b
  }

  /** No update is lost: of two requests that expect the same file at a path, of which the
      first changes it, the second is refused. */
  lemma SecondIsRefused(
      s: Plane, p: Peer, now: real, q: Request, p': Peer, later: real, q': Request, path: Path, digest: Digest)
    requires Recorded(s) && Commits(s, p, now, q) && Changes(q.mutation, path, digest)
    requires States(q'.mutation, path, ExpectFile(digest))
    requires Admissible(Mutate(s, p, now, q).0, p', q')
    requires q'.mutation.RenameFile? ==> q'.mutation.source != q'.mutation.destination
    ensures var s' := Mutate(s, p, now, q).0; Mutate(s', p', later, q') == (s', Rejected(PathConflict))
  {
    CommitWrites(s, p, now, q);
    UnexpectedIsRefused(Mutate(s, p, now, q).0, p', later, q', path, ExpectFile(digest));
  }

  /** A mutation id that has its receipt is answered with it only for the same request of
      the same host under the same generation, and changes nothing either way. */
  lemma RepeatIsExact(s: Plane, p: Peer, now: real, q: Request)
    requires CheckRequest(p, q).None? && Scope(p.session, q.id) in s.receipts
    ensures var kept := s.receipts[Scope(p.session, q.id)];
            Mutate(s, p, now, q)
            == (s, if kept.request == q.digest && kept.host == p.host && kept.hostGeneration == p.generation
                   then Ok(kept.receipt.(replayed := true, deferred := true)) else Rejected(IdempotencyConflict))
  {
  }

  /** A status query knows nothing before a mutation commits and its receipt after, and
      refuses another request's digest. */
  lemma StatusIsExact(s: Plane, p: Peer, now: real, q: Request, digest: Digest)
    requires Commits(s, p, now, q)
    ensures var (s', r) := Mutate(s, p, now, q);
            && MutationStatus(s, p.session, q.id, digest) == Ok(None)
            && MutationStatus(s', p.session, q.id, digest)
               == if digest == q.digest then Ok(Some(r.value)) else Rejected(IdempotencyConflict)
  {
    CommitsIsDone(s, p, now, q);
    ReceiptIsKept(s, p, now, q);
  }

  /** A publish puts its file at its path, in chunks, and changes nothing else that is
      served. */
  lemma PublishWrites(s: Plane, path: Path, data: Bytes)
    requires s.files.Keys == s.layouts.Keys
    ensures var s' := Publish(s, path, data);
            && path in s'.files && s'.files[path] == data && s'.generation == s.generation + 1
            && Current(s') == Manifest(Current(s).live[path := InfoOf(data, SeedLayout(data))],
                                       Current(s).tombs - {path})
  {
    var s0 := s.(cas := SeedCas(s.cas, data));
    assert Current(s0) == Current(s);
    PlaceWrites(s0, path, data, SeedLayout(data));
    PublishedIsPlaced(s, path, data);
  }

  lemma PublishedIsPlaced(s: Plane, path: Path, data: Bytes)
    ensures var s' := Publish(s, path, data);
            var placed := Place(s.(cas := SeedCas(s.cas, data)), path, data, SeedLayout(data));
            && s'.files == placed.files && s'.layouts == placed.layouts && s'.tombs == placed.tombs
            && s'.generation == s.generation + 1 && Current(s') == Current(placed)
  {
  }

  // ------------------------------------------------------------------- sharing

  /** A block of the path's layout in the base generation and now, each time under one size
      only, may be reused by a put that expects the file that is there. */
  lemma SharedIsAuthorised(s: Plane, p: Peer, now: real, q: Request, b: Block)
    requires Recorded(s) && q.mutation.PutFile? && 1 <= q.base <= s.generation && b.size >= 0
    requires var m, base := q.mutation, ReplayTo(s.history, q.base);
             && m.expected.ExpectFile? && Sees(Current(s), m.path, m.expected)
             && m.path in base.live && base.live[m.path].layout.Blocks? && s.layouts[m.path].Blocks?
             && ListsOnly(base.live[m.path].layout.blocks, b) && ListsOnly(s.layouts[m.path].blocks, b)
    ensures Authorised(s.operations, p, q.id, now, ReusableFor(s, q.base, q.mutation), b)
  {
    var m := q.mutation;
    assert SnapshotAt(s, q.base);
    SharedIsReused(ReplayTo(s.history, q.base).live[m.path].layout, s.layouts[m.path], b);
  }

  // ------------------------------------------------------------- verify and put

  /** Verifying some stored blocks is granted exactly while there is room for them. */
  lemma VerifyIsGranted(s: Plane, p: Peer, now: real, id: Id, blocks: seq<Obj>)
    ensures VerifyBlocks(s, p, now, id, blocks).1.None?
            <==> 1 <= |blocks| <= MAX_BATCH && Askable(blocks)
                 && Room(s.operations, p, id, now, blocks) && EachStored(s.cas, blocks)
    ensures VerifyBlocks(s, p, now, id, blocks).1.None? ==>
              forall b: Block | b.size >= 0 && Obj(b.digest, b.size) in blocks ::
                VerifiedFor(VerifyBlocks(s, p, now, id, blocks).0, p, now, id, b)
  {
    CheckBlocksIsExact(blocks, MAX_BATCH);
    if CheckBlocks(blocks, MAX_BATCH).None? {
      VerifyIsExact(s.cas, s.operations, p, id, now, blocks);
      if VerifyBlocks(s, p, now, id, blocks).1.None? {
        VerifiedVouch(s, p, now, id, blocks);
      }
    }
  }

  lemma VerifiedVouch(s: Plane, p: Peer, now: real, id: Id, blocks: seq<Obj>)
    requires Askable(blocks) && VerifyBlocks(s, p, now, id, blocks).1.None?
    ensures var s' := VerifyBlocks(s, p, now, id, blocks).0;
            forall b: Block | b.size >= 0 && Obj(b.digest, b.size) in blocks :: VerifiedFor(s', p, now, id, b)
  {
    VerifyIsExact(s.cas, s.operations, p, id, now, blocks);
    var s' := VerifyBlocks(s, p, now, id, blocks).0;
    assert s'.operations == Verify(s.cas, s.operations, p, id, now, blocks).0;
    var op := s'.operations[Scope(p.session, id)];
    assert Vouches(s'.operations, p, id, now);
    forall b: Block | b.size >= 0 && Obj(b.digest, b.size) in blocks
      ensures VerifiedFor(s', p, now, id, b)
    {
      var o := Obj(b.digest, b.size);
      assert o in blocks && Covered(op.verified, b) && Covered(op.targets, b);
    }
  }

  /** A put of a file that is cut into stored chunks, each verified for it, is committed
      while its path is as expected, and the file is then there, byte for byte. */
  lemma VerifiedPutIsCommitted(s: Plane, p: Peer, now: real, q: Request, chunks: seq<Bytes>)
    requires Cut(chunks) && ChunksStored(s.cas, chunks) && q.mutation.PutFile?
    requires var d := DescriptorOf(chunks, ConnectedHostCas);
             && Some(q.mutation.layout) == d.layout && Some(q.mutation.digest) == d.digest
             && q.mutation.size == |Concat(chunks)|
    requires Admissible(s, p, q)
    requires Sees(Current(s), q.mutation.path, q.mutation.expected) && PortableSet(s.files.Keys + {q.mutation.path})
    requires forall b | b in q.mutation.layout.blocks :: VerifiedFor(s, p, now, q.id, b)
    ensures Commits(s, p, now, q)
    ensures var s' := Mutate(s, p, now, q).0;
            q.mutation.path in s'.files && s'.files[q.mutation.path] == Concat(chunks)
  {
    ChunksJoin(s.cas, chunks, 0, 0);
    assert Backs(s, p, now, q);
    MutateIsExact(s, p, now, q);
    CommitsIsDone(s, p, now, q);
    PutIsWritten(s, p, now, q);
  }

  lemma PutIsWritten(s: Plane, p: Peer, now: real, q: Request)
    requires q.mutation.PutFile? && Commits(s, p, now, q) && q.mutation.layout.Blocks?
    requires Join(s.cas, q.mutation.layout.blocks).Ok?
    ensures var s' := Mutate(s, p, now, q).0;
            && q.mutation.path in s'.files
            && s'.files[q.mutation.path] == Join(s.cas, q.mutation.layout.blocks).value
  {
    CommitsIsDone(s, p, now, q);
  }
}
