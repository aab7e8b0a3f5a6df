/** The Fabric v1 service object: the dictionaries that the handlers update in place,
    each handler proved against its step. */
module FabricControlPlane {
  import opened Prelude
  import opened Order
  import opened TreeStore
  import opened Admission
  import opened Layouts
  import opened Portable
  import opened V1Manifest
  import opened V1Blocks
  import opened V1State
  import opened V1Runs

  /** What a branch of the mutation handler leaves for its receipt. */
  datatype Outcome = Outcome(entries: seq<ChangeEntry>, touched: seq<Path>, entry: Digest)

  /** A branch changed the plane as its step says, or not at all. */
  ghost predicate Agrees(s: Plane, r: Result<Outcome>, done: Performed, before: Plane) {
    match done
    case NotDone(ops, fault) => r == Rejected(fault) && s == before.(operations := ops)
    case Done(plane, entries, touched, entry) => r == Ok(Outcome(entries, touched, entry)) && s == plane
  }

  /** The keys of a dictionary in some order. */
  method Listed(paths: set<Path>) returns (q: seq<Path>)
    ensures Distinct(q) && Members(q) == paths
  {
    q := [];
    var rest := paths;
    while rest != {}
      invariant Distinct(q) && Members(q) + rest == paths && Members(q) !! rest
    {
      var p :| p in rest;
      ghost var before := q;
      q, rest := q + [p], rest - {p};
      assert Members(q) == Members(before) + {p};
    }
  }

  method AllPortable(paths: set<Path>) returns (ok: bool)
    ensures ok <==> PortableSet(paths)
  {
    var q := Listed(paths);
    ok := AssertPortable(q);
  }

  lemma EncodeStep(text: Bytes, lines: seq<Line>, i: nat)
    requires i < |lines|
    ensures text + Encode(lines[i..]) == text + EncodeLine(lines[i]) + Encode(lines[i + 1..])
  {
    assert lines[i..][1..] == lines[i + 1..];
    assert text + (EncodeLine(lines[i]) + Encode(lines[i + 1..]))
           == text + EncodeLine(lines[i]) + Encode(lines[i + 1..]);
  }

  /** The hash loop over the sorted paths. */
  method HashNamespace(files: map<Path, Bytes>, tombs: map<Path, Digest>, ghost m: Manifest) returns (digest: Digest)
    requires m.live.Keys == files.Keys && m.tombs == tombs
    requires forall p | p in files :: m.live[p].digest == Sha256(files[p])
    ensures digest == ManifestDigest(m)
  {
    ghost var lines := Listing(m);
    ListingInOrder(m);
    var paths := Sorted(files.Keys + tombs.Keys);
    var text: Bytes := [];
    for i := 0 to |paths|
      invariant text + Encode(lines[i..]) == Encode(lines)
    {
      var p := paths[i];
      assert lines[i] == Line(p, MarkOf(m, p));
      var mark := if p in files then FileMark(Sha256(files[p])) else TombMark(tombs[p]);
      EncodeStep(text, lines, i);
      text := text + EncodeLine(Line(p, mark));
    }
    assert text + [] == text;
    return Sha256(text);
  }

  method CountActive(ops: Operations, p: Peer) returns (active: nat)
    ensures active == |OwnedBy(ops, p)|
  {
    active := 0;
    var scopes := ops.Keys;
    ghost var counted: set<Scope> := {};
    while scopes != {}
      invariant scopes <= ops.Keys
      invariant counted == OwnedBy(ops, p) - scopes && active == |counted|
    {
      var k :| k in scopes;
      if k.session == p.session && ops[k].host == p.host && ops[k].generation == p.generation {
        active, counted := active + 1, counted + {k};
      }
      scopes := scopes - {k};
    }
    assert counted == OwnedBy(ops, p);
  }

  lemma SizesStep(b: Obj, rest: Sizes, novel: Sizes, targets: Sizes)
    ensures novel + (map[b.digest := b.size] + rest - targets.Keys)
            == (if b.digest in targets then novel else novel[b.digest := b.size]) + (rest - targets.Keys)
  {
  }

  /** The blocks that are not targets yet. */
  method NovelTargets(targets: Sizes, blocks: seq<Obj>) returns (novel: Sizes)
    ensures novel == SizesOf(blocks) - targets.Keys
  {
    novel := map[];
    for i := 0 to |blocks|
      invariant novel + (SizesOf(blocks[i..]) - targets.Keys) == SizesOf(blocks) - targets.Keys
    {
      assert blocks[i..][0] == blocks[i] && blocks[i..][1..] == blocks[i + 1..];
      SizesStep(blocks[i], SizesOf(blocks[i + 1..]), novel, targets);
      if blocks[i].digest !in targets {
        novel := novel[blocks[i].digest := blocks[i].size];
      }
    }
  }

  method AddTargets(op: Operation, blocks: seq<Obj>) returns (more: Option<Operation>)
    ensures more == MoreTargets(op, blocks)
  {
    var novel := NovelTargets(op.targets, blocks);
    if SizeConflict(op.targets, blocks) || |op.targets| + |novel| > MAX_BLOCKS {
      return None;
    }
    return Some(op.(targets := op.targets + novel));
  }

  lemma UpdateTwice<K, V>(m: map<K, V>, k: K, v: V, w: V)
    ensures m[k := v][k := w] == m[k := w]
  {
  }

  class ControlPlane {
    var cas: Cas
    var files: map<Path, Bytes>
    var fileBlocks: map<Path, Layout>
    var tombstones: map<Path, Digest>
    var generation: nat
    var digests: map<nat, Digest>
    var snapshots: map<nat, map<Path, Layout>>
    var history: History
    var receipts: map<Scope, Kept>
    var operations: Operations
    var available: bool
    var forced: bool

    function Now(): Plane
      reads this
    {
      Plane(cas, files, fileBlocks, tombstones, generation, digests, snapshots, history, receipts, operations,
            available, forced)
    }

    constructor ()
      ensures Now() == NEW_PLANE
    {
      cas, files, fileBlocks, tombstones := map[], map[], map[], map[];
      generation, digests, snapshots, history := 0, map[], map[], map[];
      receipts, operations, available, forced := map[], map[], false, false;
    }

    // ------------------------------------------------------------ generations

    method CurrentDigest() returns (digest: Digest)
      ensures digest == ManifestDigest(Manifest(LiveFiles(files, fileBlocks), tombstones))
    {
      digest := HashNamespace(files, tombstones, Manifest(LiveFiles(files, fileBlocks), tombstones));
    }

    method Advance(previous: Digest, entries: seq<ChangeEntry>)
      modifies this`generation, this`digests, this`snapshots, this`history, this`available
      ensures Now() == V1State.Advance(old(Now()), previous, entries)
    {
      ghost var s := Now();
      var digest := CurrentDigest();
      assert digest == ManifestDigest(Current(s));
      available := true;
      generation := generation + 1;
      digests := digests[generation := digest];
      snapshots := snapshots[generation := fileBlocks];
      history := history[generation := Change(generation, digest, previous, entries)];
    }

    method PlaceFile(path: Path, data: Bytes, layout: Layout)
      modifies this`files, this`fileBlocks, this`tombstones
      ensures Now() == Place(old(Now()), path, data, layout)
    {
      files := files[path := data];
      fileBlocks := fileBlocks[path := layout];
      tombstones := tombstones - {path};
    }

    method BuryFile(path: Path, digest: Digest)
      modifies this`files, this`fileBlocks, this`tombstones
      ensures Now() == Bury(old(Now()), path, digest)
    {
      files := files - {path};
      fileBlocks := fileBlocks - {path};
      tombstones := tombstones[path := digest];
    }

    // ---------------------------------------------------------------- putting

    /** The blocks that still need an upload proof, and whether each has one. */
    method CheckProofs(p: Peer, mutation: Id, now: real, reusable: Sizes, blocks: seq<Block>) returns (ok: bool)
      modifies this`operations
      ensures ok ==> operations == old(operations)
      ensures (operations, ok) == CheckAuthority(old(operations), p, mutation, now, reusable, blocks)
    {
      var key := Scope(p.session, mutation);
      var vouched := Vouches(operations, p, mutation, now);
      ok := true;
      for i := 0 to |blocks|
        invariant operations == old(operations)
        invariant ok <==> forall j | 0 <= j < i ::
                            Covered(reusable, blocks[j]) || (vouched && Covered(operations[key].verified, blocks[j]))
      {
        if !Covered(reusable, blocks[i]) && !(vouched && Covered(operations[key].verified, blocks[i])) {
          ok := false;
        }
      }
      AuthorityIsExact(operations, p, mutation, now, reusable, blocks);
      assert forall b :: b in blocks <==> exists j :: 0 <= j < |blocks| && blocks[j] == b;
      if !ok && key in operations && operations[key].expires <= now {
        operations := operations - {key};
      }
    }

    /** The verified blocks, joined. */
    method JoinBlocks(m: Mutation) returns (data: Result<Bytes>)
      requires m.PutFile? && m.layout.Blocks?
      ensures data == PutBytes(cas, m)
    {
      var content: Bytes := [];
      var blocks := m.layout.blocks;
      assert blocks[0..] == blocks
             && (Join(cas, blocks).Ok? ==> [] + Join(cas, blocks).value == Join(cas, blocks).value);
      for i := 0 to |blocks|
        invariant match Join(cas, blocks[i..])
                  case Rejected(fault) => Join(cas, blocks) == Rejected(fault)
                  case Ok(tail) => Join(cas, blocks) == Ok(content + tail)
      {
        assert blocks[i..][1..] == blocks[i + 1..];
        if blocks[i].size < 0 {
          return Rejected(BlockSizeMetadata);
        }
        var part := VerifyBlock(cas, blocks[i].digest, blocks[i].size);
        if part.Rejected? {
          return part;
        }
        if Join(cas, blocks[i + 1..]).Ok? {
          assert content + (part.value + Join(cas, blocks[i + 1..]).value)
                 == content + part.value + Join(cas, blocks[i + 1..]).value;
        }
        content := content + part.value;
      }
      assert content + [] == content;
      if |content| != m.size || Sha256(content) != m.digest {
        return Rejected(DescriptorInvalid);
      }
      return Ok(content);
    }

    method AuthoriseAndJoin(p: Peer, now: real, q: Request) returns (data: Result<Bytes>)
      requires q.mutation.PutFile? && q.mutation.layout.Blocks?
      modifies this`operations
      ensures (operations, data) == AuthorisedPut(old(Now()), p, now, q)
      ensures Now() == old(Now()).(operations := operations) && (data.Ok? ==> operations == old(operations))
    {
      var reusable, blocks := ReusableFor(Now(), q.base, q.mutation), q.mutation.layout.blocks;
      var ok := CheckProofs(p, q.id, now, reusable, blocks);
      if ok {
        data := JoinBlocks(q.mutation);
      } else {
        data := Rejected(BlocksNotVerified);
      }
    }

    method CheckPath(m: Mutation) returns (ok: bool)
      requires m.PutFile?
      ensures ok <==> MayPut(Now(), m)
    {
      if !Matches(Now(), m.path, m.expected) {
        return false;
      }
      ok := AllPortable(files.Keys + {m.path});
    }

    /** Writes what was authorised, or reports why not. */
    method FinishPut(m: Mutation, data: Result<Bytes>, ghost before: Plane) returns (r: Result<Outcome>)
      requires m.PutFile? && Now() == before.(operations := operations)
      requires data.Ok? ==> operations == before.operations
      modifies this`files, this`fileBlocks, this`tombstones
      ensures Agrees(Now(), r, PutWith(before, m, operations, data), before)
    {
      if data.Rejected? {
        return Rejected(data.fault);
      }
      var prior := DigestAt(files, m.path);
      PlaceFile(m.path, data.value, m.layout);
      return Ok(Outcome([FileEntry(m.path, InfoOf(data.value, m.layout), prior)], [m.path], m.digest));
    }

    method PutPath(p: Peer, now: real, q: Request) returns (r: Result<Outcome>)
      requires q.mutation.PutFile? && q.mutation.layout.Blocks?
      modifies this`files, this`fileBlocks, this`tombstones, this`operations
      ensures Agrees(Now(), r, PerformPut(old(Now()), p, now, q), old(Now()))
    {
      ghost var before := Now();
      var may := CheckPath(q.mutation);
      if !may {
        return Rejected(PathConflict);
      }
      var data := AuthoriseAndJoin(p, now, q);
      r := FinishPut(q.mutation, data, before);
    }

    method DeletePath(m: Mutation) returns (r: Result<Outcome>)
      requires m.DeleteFile?
      modifies this`files, this`fileBlocks, this`tombstones
      ensures Agrees(Now(), r, PerformDelete(old(Now()), m), old(Now()))
    {
      if !Matches(Now(), m.path, m.expected) || m.path !in files {
        return Rejected(PathConflict);
      }
      var digest := Sha256(files[m.path]);
      BuryFile(m.path, digest);
      return Ok(Outcome([TombEntry(m.path, digest)], [m.path], digest));
    }

    method RenamePath(m: Mutation) returns (r: Result<Outcome>)
      requires m.RenameFile?
      modifies this`files, this`fileBlocks, this`tombstones
      ensures Agrees(Now(), r, PerformRename(old(Now()), m), old(Now()))
    {
      var a, b := m.source, m.destination;
      if a == b {
        return Rejected(RenameSamePath);
      }
      if !Matches(Now(), a, m.expected) || !Matches(Now(), b, m.expectedDestination) {
        return Rejected(PathConflict);
      }
      if a !in files || a !in fileBlocks {
        return Rejected(LegacyRename);
      }
      var portable := AllPortable(files.Keys - {a, b} + {b});
      if !portable {
        return Rejected(PathConflict);
      }
      var data, layout, prior := files[a], fileBlocks[a], DigestAt(files, b);
      BuryFile(a, Sha256(data));
      PlaceFile(b, data, layout);
      return Ok(Outcome([TombEntry(a, Sha256(data)), FileEntry(b, InfoOf(data, layout), prior)], [a, b], Sha256(data)));
    }

    /** Everything that is decided before the namespace is looked at. */
    method Precheck(p: Peer, q: Request, ghost now: real) returns (early: Option<Result<Receipt>>)
      ensures early.None? && q.mutation.PutFile? ==> q.mutation.layout.Blocks?
      ensures early.None? ==> FateOf(Now(), p, now, q) == Tried(Perform(Now(), p, now, q))
      ensures early.Some? ==> Settle(Now(), p, q, FateOf(Now(), p, now, q)) == (Now(), early.value)
    {
      var key := Scope(p.session, q.id);
      if (q.base == 0 && q.baseDigest.Some?) || (q.base > 0 && q.baseDigest.None?) {
        return Some(Rejected(MutationBaseInvalid));
      }
      if q.mutation.PutFile? {
        var fine := NormalizePutDescriptor(q.mutation.size, q.mutation.layout);
        if !fine {
          return Some(Rejected(DescriptorInvalid));
        }
      }
      if q.digest != RequestDigest(p.session, q.id, q.base, q.baseDigest, q.mutation) {
        return Some(Rejected(RequestDigestInvalid));
      }
      if key in receipts {
        var kept := receipts[key];
        if kept.request != q.digest || kept.host != p.host || kept.hostGeneration != p.generation {
          return Some(Rejected(IdempotencyConflict));
        }
        return Some(Ok(Replayed(kept.receipt)));
      }
      if q.base > generation || (q.base > 0 && (q.base !in digests || Some(digests[q.base]) != q.baseDigest)) {
        return Some(Rejected(MutationBaseDiverged));
      }
      return None;
    }

    method PerformMutation(p: Peer, now: real, q: Request) returns (r: Result<Outcome>)
      requires q.mutation.PutFile? ==> q.mutation.layout.Blocks?
      modifies this`files, this`fileBlocks, this`tombstones, this`operations
      ensures Agrees(Now(), r, Perform(old(Now()), p, now, q), old(Now()))
    {
      match q.mutation {
        case PutFile(_, _, _, _, _) => r := PutPath(p, now, q);
        case DeleteFile(_, _) => r := DeletePath(q.mutation);
        case RenameFile(_, _, _, _) => r := RenamePath(q.mutation);
      }
    }

    method RecordOutcome(p: Peer, q: Request, previous: Digest, outcome: Outcome, ghost before: Plane)
      returns (receipt: Receipt)
      requires previous == ManifestDigest(Current(before))
      modifies this
      ensures (Now(), receipt)
              == Record(before, Done(old(Now()), outcome.entries, outcome.touched, outcome.entry), p, q)
    {
      var key := Scope(p.session, q.id);
      Advance(previous, outcome.entries);
      receipt := Receipt(q.id, q.digest, outcome.touched, outcome.entry, digests[generation], generation, false, false);
      receipts := receipts[key := Kept(q.digest, p.host, p.generation, receipt)];
      operations := operations - {key};
    }

    method Mutate(p: Peer, now: real, q: Request) returns (r: Result<Receipt>)
      modifies this
      ensures (Now(), r) == V1State.Mutate(old(Now()), p, now, q)
    {
      ghost var before := Now();
      var early := Precheck(p, q, now);
      if early.Some? {
        return early.value;
      }
      var previous := CurrentDigest();
      var done := PerformMutation(p, now, q);
      if done.Rejected? {
        return Rejected(done.fault);
      }
      var receipt := RecordOutcome(p, q, previous, done.value, before);
      return Ok(receipt);
    }

    // ------------------------------------------------------------- publishing

    /** Cuts bytes into chunks and stores each. */
    method SeedFileBlocks(data: Bytes) returns (layout: Layout)
      modifies this`cas
      ensures cas == SeedCas(old(cas), data) && layout == SeedLayout(data)
    {
      var rest: Bytes, offset: nat := data, 0;
      var blocks: seq<Block> := [];
      while |rest| > CHUNK
        invariant blocks + SeedBlocks(rest, |blocks|, offset) == SeedBlocks(data, 0, 0)
        invariant SeedCas(cas, rest) == SeedCas(old(cas), data)
        decreases |rest|
      {
        var chunk := rest[..CHUNK];
        cas := PutObject(cas, Sha256(chunk), chunk);
        var block := Block(|blocks|, offset, CHUNK, Sha256(chunk));
        assert blocks + SeedBlocks(rest, |blocks|, offset)
               == blocks + [block] + SeedBlocks(rest[CHUNK..], |blocks| + 1, offset + CHUNK);
        blocks, offset, rest := blocks + [block], offset + CHUNK, rest[CHUNK..];
      }
      cas := PutObject(cas, Sha256(rest), rest);
      blocks := blocks + [Block(|blocks|, offset, |rest|, Sha256(rest))];
      return Blocks(if data != [] then CHUNK else 1, |blocks|, |data|, ObjectCas, blocks);
    }

    method Publish(path: Path, data: Bytes)
      modifies this
      ensures Now() == V1State.Publish(old(Now()), path, data)
    {
      var prior := DigestAt(files, path);
      var previous := CurrentDigest();
      var layout := SeedFileBlocks(data);
      PlaceFile(path, data, layout);
      Advance(previous, [FileEntry(path, InfoOf(data, layout), prior)]);
    }

    // ---------------------------------------------------------------- changes

    /** The page loop. */
    method GatherPage(after: nat, afterDigest: Digest, last: nat) returns (changes: seq<Change>, limited: bool)
      ensures (changes, limited) == Gather(HeadOf(Now()), after + 1, last, afterDigest, RESPONSE_HEADER, [])
    {
      ghost var head := HeadOf(Now());
      var expected, used: nat, g := afterDigest, RESPONSE_HEADER, after + 1;
      changes := [];
      while g <= last
        invariant Gather(head, after + 1, last, afterDigest, RESPONSE_HEADER, [])
                  == Gather(head, g, last, expected, used, changes)
      {
        if g !in history || history[g].generation != g || history[g].previous != expected {
          return [], false;
        }
        var change := history[g];
        if used + Cost(change) > MAX_RESPONSE {
          return changes, changes != [];
        }
        changes, used, expected, g := changes + [change], used + Cost(change), change.digest, g + 1;
      }
      return changes, false;
    }

    method Changes(after: nat, afterDigest: Digest, limit: nat) returns (r: Result<Answer>)
      ensures r == if available then Ok(AnswerChanges(HeadOf(Now()), after, afterDigest, limit))
                   else Rejected(ManifestUnavailable)
    {
      if !available {
        return Rejected(ManifestUnavailable);
      }
      var current := CurrentDigest();
      if forced || after > generation {
        return Ok(FullRefresh);
      }
      if after == generation {
        return Ok(if afterDigest != current then FullRefresh else Unchanged);
      }
      if after !in digests || digests[after] != afterDigest {
        return Ok(FullRefresh);
      }
      var last := if generation < after + limit then generation else after + limit;
      var changes, limited := GatherPage(after, afterDigest, last);
      if changes == [] {
        return Ok(FullRefresh);
      }
      var end := changes[|changes| - 1];
      return Ok(Page(changes, end.generation, end.digest, limited || end.generation < generation));
    }

    // ----------------------------------------------------------------- blocks

    /** Drops the operations whose time is over. */
    method Sweep(now: real)
      modifies this`operations
      ensures operations == Fresh(old(operations), now)
    {
      var scopes := operations.Keys;
      ghost var all := operations;
      while scopes != {}
        invariant scopes <= operations.Keys
        invariant operations == map k | k in all && (k in scopes || now < all[k].expires) :: all[k]
      {
        var k :| k in scopes;
        if operations[k].expires <= now {
          operations := operations - {k};
        }
        scopes := scopes - {k};
      }
    }

    method TargetBlocks(p: Peer, mutation: Id, now: real, blocks: seq<Obj>) returns (fault: Option<Fault>)
      modifies this`operations
      ensures (operations, fault) == Target(old(operations), p, mutation, now, blocks)
    {
      Sweep(now);
      ghost var live := operations;
      var key := Scope(p.session, mutation);
      if key !in operations {
        var active := CountActive(operations, p);
        if active >= MAX_OPERATIONS {
          return Some(BlocksFailed);
        }
        operations := operations[key := Operation(p.host, p.generation, now + OPERATION_TTL, map[], map[])];
      } else if operations[key].host != p.host || operations[key].generation != p.generation {
        return Some(BlocksFailed);
      }
      var op := operations[key];
      assert operations == live[key := op];
      var more := AddTargets(op, blocks);
      if more.None? {
        return Some(BlocksFailed);
      }
      operations := operations[key := more.value];
      UpdateTwice(live, key, op, more.value);
      return None;
    }

    method WriteTickets(p: Peer, now: real, mutation: Id, blocks: seq<Obj>) returns (fault: Option<Fault>)
      modifies this`operations
      ensures (Now(), fault) == IssueTickets(old(Now()), p, now, mutation, blocks)
    {
      fault := CheckBlocks(blocks, MAX_BATCH);
      if fault.None? {
        fault := TargetBlocks(p, mutation, now, blocks);
      }
    }

    /** Targets, then proofs, and the record only when every block passed. */
    method Verify(p: Peer, now: real, mutation: Id, blocks: seq<Obj>) returns (fault: Option<Fault>)
      modifies this`operations
      ensures (Now(), fault) == V1Runs.VerifyBlocks(old(Now()), p, now, mutation, blocks)
    {
      fault := CheckBlocks(blocks, MAX_BATCH);
      if fault.Some? {
        return;
      }
      fault := TargetBlocks(p, mutation, now, blocks);
      if fault.Some? {
        return;
      }
      for i := 0 to |blocks|
        invariant VerifyEach(cas, blocks) == VerifyEach(cas, blocks[i..])
      {
        assert blocks[i..][1..] == blocks[i + 1..];
        var part := VerifyBlock(cas, blocks[i].digest, blocks[i].size);
        if part.Rejected? {
          return Some(part.fault);
        }
      }
      var key := Scope(p.session, mutation);
      assert key in operations;
      operations := operations[key := operations[key].(verified := operations[key].verified + SizesOf(blocks))];
      return None;
    }

    method DirectPut(data: Bytes)
      modifies this`cas
      ensures Now() == Upload(old(Now()), data)
    {
      if Sha256(data) !in cas {
        cas := PutObject(cas, Sha256(data), data);
      }
    }
  }
}
