/** Whole runs of the Fabric v1 plane. */
module V1Runs {
  import opened Prelude
  import opened TreeStore
  import opened Admission
  import opened Layouts
  import opened Portable
  import opened V1Manifest
  import opened V1Blocks
  import opened V1State

  datatype Event =
    | Mutating(peer: Peer, now: real, request: Request)
    | Publishing(path: Path, data: Bytes)
    | Ticketing(peer: Peer, now: real, mutation: Id, blocks: seq<Obj>)
    | Verifying(peer: Peer, now: real, mutation: Id, blocks: seq<Obj>)
    | Uploading(upload: Bytes)

  const MAX_BATCH := 4

  function WithOperations(s: Plane, r: (Operations, Option<Fault>)): (Plane, Option<Fault>) {
    (s.(operations := r.0), r.1)
  }

  /** Write tickets are given out only for blocks that became targets. */
  function IssueTickets(s: Plane, p: Peer, now: real, mutation: Id, blocks: seq<Obj>): (Plane, Option<Fault>) {
    var fault := CheckBlocks(blocks, MAX_BATCH);
    if fault.Some? then (s, fault)
    else
      WithOperations(s, Target(s.operations, p, mutation, now, blocks))
  }

  function VerifyBlocks(s: Plane, p: Peer, now: real, mutation: Id, blocks: seq<Obj>): (Plane, Option<Fault>) {
    var fault := CheckBlocks(blocks, MAX_BATCH);
    if fault.Some? then (s, fault)
    else
      WithOperations(s, Verify(s.cas, s.operations, p, mutation, now, blocks))
  }

  /** A direct upload; an object that is already there is left alone. */
  function Upload(s: Plane, data: Bytes): Plane {
    if Sha256(data) in s.cas then s else s.(cas := PutObject(s.cas, Sha256(data), data))
  }

  ghost function Step(s: Plane, e: Event): Plane {
    match e
    case Mutating(p, now, q) => Mutate(s, p, now, q).0
    case Publishing(path, data) => Publish(s, path, data)
    case Ticketing(p, now, id, blocks) => IssueTickets(s, p, now, id, blocks).0
    case Verifying(p, now, id, blocks) => VerifyBlocks(s, p, now, id, blocks).0
    case Uploading(data) => Upload(s, data)
  }

  ghost function Run(s: Plane, es: seq<Event>): Plane
    decreases |es|
  {
    if es == [] then s else Run(Step(s, es[0]), es[1..])
  }

  /** No hash collision between stored bytes and the bytes a step brings. */
  ghost predicate Orderly(s: Plane, e: Event) {
    match e
    case Publishing(_, data) => CleanChunks(s.cas, data)
    case Uploading(data) => Collisionless(s.cas, data)
    case _ => true
  }

  ghost predicate OrderlyRun(s: Plane, es: seq<Event>)
    decreases |es|
  {
    es == [] || (Orderly(s, es[0]) && OrderlyRun(Step(s, es[0]), es[1..]))
  }

  lemma InvariantInitially()
    ensures Invariant(NEW_PLANE)
  {
    assert Current(NEW_PLANE) == EMPTY_MANIFEST;
    forall p: Peer
      ensures WithinShare(NEW_PLANE.operations, p)
    {
      assert OwnedBy(NEW_PLANE.operations, p) == {};
    }
  }

  // ------------------------------------------------------------------ history

  /** What no later step takes back, whatever it is: generations and their records. */
  ghost predicate Onward(s: Plane, s': Plane) {
    && s.generation <= s'.generation
    && (forall g | 1 <= g <= s.generation ::
          && g in s.history && g in s'.history && s'.history[g] == s.history[g]
          && g in s.digests && g in s'.digests && s'.digests[g] == s.digests[g])
  }

  lemma HistoryIsPresent(s: Plane)
    requires HistorySound(s)
    ensures Onward(s, s)
  {
    forall g | 1 <= g <= s.generation
      ensures g in s.history && g in s.digests
    {
      assert LinkedAt(s.history, s.digests, g);
    }
  }

  /** A step that touches neither namespace nor generation. */
  ghost predicate Quiet(s: Plane, s': Plane) {
    s' == s.(cas := s'.cas, operations := s'.operations)
  }

  lemma SameHistory(a: Plane, b: Plane)
    requires Recorded(a) && b == a.(cas := b.cas, receipts := b.receipts, operations := b.operations)
    ensures Recorded(b)
  {
    assert Current(b) == Current(a);
    forall g | 1 <= g <= b.generation
      ensures SnapshotAt(b, g)
    {
      assert SnapshotAt(a, g);
    }
  }

  lemma QuietKeepsHistory(s: Plane, s': Plane)
    requires Recorded(s) && Quiet(s, s')
    ensures Recorded(s') && Onward(s, s')
  {
    HistoryIsPresent(s);
    SameHistory(s, s');
  }

  /** A step that adds one generation. */
  lemma GenerationStep(s: Plane, s1: Plane, entries: seq<ChangeEntry>, s': Plane)
    requires Recorded(s) && s1.files.Keys == s1.layouts.Keys
    requires s1 == s.(cas := s1.cas, files := s1.files, layouts := s1.layouts, tombs := s1.tombs)
    requires Current(s1) == ApplyEntries(Current(s), entries)
    requires var a := Advance(s1, ManifestDigest(Current(s)), entries);
             s' == a.(receipts := s'.receipts, operations := s'.operations)
    ensures Recorded(s') && Onward(s, s')
  {
    AdvanceKeepsHistory(s, s1, entries);
    HistoryIsPresent(s);
    SameHistory(Advance(s1, ManifestDigest(Current(s)), entries), s');
  }

  lemma RecordKeepsHistory(s: Plane, done: Performed, p: Peer, q: Request)
    requires Recorded(s) && done.Done? && Frames(s, done) && done.plane.files.Keys == done.plane.layouts.Keys
    requires Current(done.plane) == ApplyEntries(Current(s), done.entries)
    ensures Recorded(Record(s, done, p, q).0) && Onward(s, Record(s, done, p, q).0)
  {
    GenerationStep(s, done.plane, done.entries, Record(s, done, p, q).0);
  }

  lemma RefusedIsQuiet(s: Plane, p: Peer, q: Request, fate: Fate)
    requires fate.Tried? ==> fate.done.NotDone?
    ensures Quiet(s, Settle(s, p, q, fate).0)
  {
  }

  lemma MutateKeepsHistory(s: Plane, p: Peer, now: real, q: Request)
    requires Recorded(s)
    ensures Recorded(Mutate(s, p, now, q).0) && Onward(s, Mutate(s, p, now, q).0)
  {
    TriedMeans(s, p, now, q);
    var fate := FateOf(s, p, now, q);
    if fate.Tried? && fate.done.Done? {
      PerformFrames(s, p, now, q);
      PerformMatchesEntries(s, p, now, q);
      RecordKeepsHistory(s, fate.done, p, q);
    } else {
      RefusedIsQuiet(s, p, q, fate);
      QuietKeepsHistory(s, Settle(s, p, q, fate).0);
    }
  }

  lemma PublishKeepsHistory(s: Plane, path: Path, data: Bytes)
    requires Recorded(s)
    ensures Recorded(Publish(s, path, data)) && Onward(s, Publish(s, path, data))
  {
    var s0 := s.(cas := SeedCas(s.cas, data));
    var layout := SeedLayout(data);
    var entry := FileEntry(path, InfoOf(data, layout), DigestAt(s.files, path));
    PlaceIsEntry(s0, path, data, layout, DigestAt(s.files, path));
    assert Current(s0) == Current(s);
    ApplyFew(Current(s), entry, entry);
    GenerationStep(s, Place(s0, path, data, layout), [entry], Publish(s, path, data));
  }

  lemma OperationsAreQuiet(s: Plane, r: (Operations, Option<Fault>))
    ensures Quiet(s, WithOperations(s, r).0)
  {
  }

  lemma TicketsAreQuiet(s: Plane, p: Peer, now: real, id: Id, blocks: seq<Obj>)
    ensures Quiet(s, IssueTickets(s, p, now, id, blocks).0)
  {
    if CheckBlocks(blocks, MAX_BATCH).None? {
      OperationsAreQuiet(s, Target(s.operations, p, id, now, blocks));
    }
  }

  lemma VerifyIsQuiet(s: Plane, p: Peer, now: real, id: Id, blocks: seq<Obj>)
    ensures Quiet(s, VerifyBlocks(s, p, now, id, blocks).0)
  {
    if CheckBlocks(blocks, MAX_BATCH).None? {
      OperationsAreQuiet(s, Verify(s.cas, s.operations, p, id, now, blocks));
    }
  }

  lemma OthersAreQuiet(s: Plane, e: Event)
    requires !e.Mutating? && !e.Publishing?
    ensures Quiet(s, Step(s, e))
  {
    match e
    case Ticketing(p, now, id, blocks) => TicketsAreQuiet(s, p, now, id, blocks);
    case Verifying(p, now, id, blocks) => VerifyIsQuiet(s, p, now, id, blocks);
    case Uploading(data) => assert Quiet(s, Upload(s, data));
  }

  lemma StepKeepsHistory(s: Plane, e: Event)
    requires Recorded(s)
    ensures Recorded(Step(s, e)) && Onward(s, Step(s, e))
  {
    match e
    case Mutating(p, now, q) => MutateKeepsHistory(s, p, now, q);
    case Publishing(path, data) => PublishKeepsHistory(s, path, data);
    case _ =>
      OthersAreQuiet(s, e);
      QuietKeepsHistory(s, Step(s, e));
  }

  /** In every run, whatever collides in the store: the records link, the manifest is
      their replay, and no generation is taken back. */
  lemma {:induction false} RunKeepsHistory(s: Plane, es: seq<Event>)
    requires Recorded(s)
    ensures Recorded(Run(s, es)) && Onward(s, Run(s, es))
    decreases |es|
  {
    if es == [] {
      HistoryIsPresent(s);
    } else {
      StepKeepsHistory(s, es[0]);
      RunKeepsHistory(Step(s, es[0]), es[1..]);
    }
  }

  // ----------------------------------------------------------------- contents

  /** Sound contents that hold on to every stored object. */
  ghost predicate Keeps(s: Plane, s': Plane) {
    ContentsSound(s') && Extends(Bare(s.cas), Bare(s'.cas))
  }

  lemma {:induction false} JoinGrows(cas: Cas, cas': Cas, blocks: seq<Block>)
    requires Extends(Bare(cas), Bare(cas')) && Join(cas, blocks).Ok?
    ensures Join(cas', blocks) == Join(cas, blocks)
  {
    JoinSurvives(Bare(cas), Bare(cas'), blocks);
  }

  lemma BackedSurvives(s: Plane, cas: Cas)
    requires FilesBacked(s) && Extends(Bare(s.cas), Bare(cas))
    ensures FilesBacked(s.(cas := cas))
  {
    forall p | p in s.files
      ensures Backed(cas, s.layouts[p], s.files[p])
    {
      assert Backed(s.cas, s.layouts[p], s.files[p]);
      JoinGrows(s.cas, cas, s.layouts[p].blocks);
    }
  }

  lemma QuietKeepsContents(s: Plane, s': Plane)
    requires ContentsSound(s) && Quiet(s, s')
    requires WellHashed(s'.cas) && Extends(Bare(s.cas), Bare(s'.cas)) && OperationsSound(s'.cas, s'.operations)
    ensures Keeps(s, s')
  {
    BackedSurvives(s, s'.cas);
  }

  /** A step that writes the namespace drops operations at most. */
  lemma WriteKeepsContents(s: Plane, s': Plane)
    requires ContentsSound(s) && FilesBacked(s') && WellHashed(s'.cas) && Extends(Bare(s.cas), Bare(s'.cas))
    requires forall k | k in s'.operations :: k in s.operations && s'.operations[k] == s.operations[k]
    ensures Keeps(s, s')
  {
    OperationsSurvive(Bare(s.cas), Bare(s'.cas), s.operations);
    FewerOperations(s'.cas, s.operations, s'.operations);
  }

  lemma RecordKeepsContents(s: Plane, done: Performed, p: Peer, q: Request)
    requires ContentsSound(s) && done.Done? && Frames(s, done) && FilesBacked(done.plane)
    ensures Keeps(s, Record(s, done, p, q).0)
  {
    var s' := Record(s, done, p, q).0;
    assert s'.files == done.plane.files && s'.layouts == done.plane.layouts && s'.tombs == done.plane.tombs;
    WriteKeepsContents(s, s');
  }

  lemma MutateKeepsContents(s: Plane, p: Peer, now: real, q: Request)
    requires ContentsSound(s)
    ensures Keeps(s, Mutate(s, p, now, q).0)
  {
    TriedMeans(s, p, now, q);
    var fate := FateOf(s, p, now, q);
    if fate.Tried? {
      PerformFrames(s, p, now, q);
      if fate.done.Done? {
        PerformKeepsBacked(s, p, now, q);
        RecordKeepsContents(s, fate.done, p, q);
      } else {
        FewerOperations(s.cas, s.operations, fate.done.operations);
        QuietKeepsContents(s, s.(operations := fate.done.operations));
      }
    }
  }

  lemma PublishKeepsContents(s: Plane, path: Path, data: Bytes)
    requires ContentsSound(s) && CleanChunks(s.cas, data)
    ensures Keeps(s, Publish(s, path, data))
  {
    SeedIsImmutable(s.cas, data);
    SeedIsLayout(s.cas, data, 0, 0);
    var s0 := s.(cas := SeedCas(s.cas, data));
    BackedSurvives(s, s0.cas);
    PlaceKeepsBacked(s0, path, data, SeedLayout(data));
    WriteKeepsContents(s, Publish(s, path, data));
  }

  /** A change of operations alone. */
  lemma OperationsStep(s: Plane, ops: Operations)
    requires ContentsSound(s) && OperationsSound(s.cas, ops)
    ensures Keeps(s, s.(operations := ops))
  {
    QuietKeepsContents(s, s.(operations := ops));
  }

  lemma TicketsKeepContents(s: Plane, p: Peer, now: real, id: Id, blocks: seq<Obj>)
    requires ContentsSound(s)
    ensures Keeps(s, IssueTickets(s, p, now, id, blocks).0)
  {
    if CheckBlocks(blocks, MAX_BATCH).None? {
      TargetIsSound(s.cas, s.operations, p, id, now, blocks);
      OperationsStep(s, Target(s.operations, p, id, now, blocks).0);
    }
  }

  lemma VerifyKeepsContents(s: Plane, p: Peer, now: real, id: Id, blocks: seq<Obj>)
    requires ContentsSound(s)
    ensures Keeps(s, VerifyBlocks(s, p, now, id, blocks).0)
  {
    if CheckBlocks(blocks, MAX_BATCH).None? {
      VerifyIsSound(s.cas, s.operations, p, id, now, blocks);
      OperationsStep(s, Verify(s.cas, s.operations, p, id, now, blocks).0);
    }
  }

  lemma UploadKeepsContents(s: Plane, data: Bytes)
    requires ContentsSound(s) && Collisionless(s.cas, data)
    ensures Keeps(s, Upload(s, data))
  {
    PutObjectIsImmutable(Bare(s.cas), data);
    OperationsSurvive(Bare(s.cas), Bare(Upload(s, data).cas), s.operations);
    QuietKeepsContents(s, Upload(s, data));
  }

  lemma StepKeepsContents(s: Plane, e: Event)
    requires ContentsSound(s) && Orderly(s, e)
    ensures Keeps(s, Step(s, e))
  {
    match e
    case Mutating(p, now, q) => MutateKeepsContents(s, p, now, q);
    case Publishing(path, data) => PublishKeepsContents(s, path, data);
    case Ticketing(p, now, id, blocks) => TicketsKeepContents(s, p, now, id, blocks);
    case Verifying(p, now, id, blocks) => VerifyKeepsContents(s, p, now, id, blocks);
    case Uploading(data) => UploadKeepsContents(s, data);
  }

  /** In every run without collisions each file stays the join of its stored blocks, the
      operations within their bounds, and no object is lost. */
  lemma {:induction false} RunKeepsContents(s: Plane, es: seq<Event>)
    requires ContentsSound(s) && OrderlyRun(s, es)
    ensures Keeps(s, Run(s, es))
    decreases |es|
  {
    if es != [] {
      StepKeepsContents(s, es[0]);
      RunKeepsContents(Step(s, es[0]), es[1..]);
    }
  }

  /** The two together, for a run without collisions from a sound plane. */
  lemma RunKeepsInvariant(s: Plane, es: seq<Event>)
    requires Invariant(s) && OrderlyRun(s, es)
    ensures Invariant(Run(s, es)) && Onward(s, Run(s, es)) && Keeps(s, Run(s, es))
  {
    RunKeepsHistory(s, es);
    RunKeepsContents(s, es);
  }

  // ------------------------------------------------------------ exactly once

  /** A mutation either leaves namespace, history and receipts as they are, or adds
      exactly one generation and one receipt, under a key that had none. */
  ghost predicate NothingHappened(s: Plane, s': Plane) {
    s' == s.(operations := s'.operations)
  }

  ghost predicate OneHappened(s: Plane, s': Plane, p: Peer, q: Request) {
    && s'.generation == s.generation + 1
    && Scope(p.session, q.id) !in s.receipts
    && s'.receipts.Keys == s.receipts.Keys + {Scope(p.session, q.id)}
    && |s'.receipts| == |s.receipts| + 1
  }

  lemma AddKey<K, V>(m: map<K, V>, k: K, v: V)
    requires k !in m
    ensures m[k := v].Keys == m.Keys + {k} && |m[k := v]| == |m| + 1
    ensures forall x | x in m :: x in m[k := v] && m[k := v][x] == m[x]
  {
    assert m[k := v].Keys == m.Keys + {k};
  }

  lemma RecordWritesOne(s: Plane, done: Performed, p: Peer, q: Request)
    requires done.Done? && Frames(s, done)
    ensures var (s', receipt) := Record(s, done, p, q);
            && s'.receipts == s.receipts[Scope(p.session, q.id) := Kept(q.digest, p.host, p.generation, receipt)]
            && s'.generation == s.generation + 1
  {
  }

  lemma OneReceipt(s: Plane, done: Performed, p: Peer, q: Request)
    requires done.Done? && Frames(s, done) && Scope(p.session, q.id) !in s.receipts
    ensures OneHappened(s, Record(s, done, p, q).0, p, q)
  {
    var (s', receipt) := Record(s, done, p, q);
    RecordWritesOne(s, done, p, q);
    AddKey(s.receipts, Scope(p.session, q.id), Kept(q.digest, p.host, p.generation, receipt));
  }

  lemma MutateIsAllOrNothing(s: Plane, p: Peer, now: real, q: Request)
    ensures var (s', r) := Mutate(s, p, now, q);
            if r.Ok? && !r.value.replayed then OneHappened(s, s', p, q) else NothingHappened(s, s')
  {
    TriedMeans(s, p, now, q);
    var fate := FateOf(s, p, now, q);
    if fate.Tried? {
      PerformFrames(s, p, now, q);
      if fate.done.Done? {
        OneReceipt(s, fate.done, p, q);
      }
    }
  }

  ghost predicate ReceiptsStay(s: Plane, s': Plane) {
    forall k | k in s.receipts :: k in s'.receipts && s'.receipts[k] == s.receipts[k]
  }

  lemma RecordKeepsReceipts(s: Plane, done: Performed, p: Peer, q: Request)
    requires done.Done? && Frames(s, done) && Scope(p.session, q.id) !in s.receipts
    ensures ReceiptsStay(s, Record(s, done, p, q).0)
  {
    var (s', receipt) := Record(s, done, p, q);
    RecordWritesOne(s, done, p, q);
    AddKey(s.receipts, Scope(p.session, q.id), Kept(q.digest, p.host, p.generation, receipt));
  }

  lemma MutateKeepsReceipts(s: Plane, p: Peer, now: real, q: Request)
    ensures ReceiptsStay(s, Mutate(s, p, now, q).0)
  {
    TriedMeans(s, p, now, q);
    var fate := FateOf(s, p, now, q);
    if fate.Tried? && fate.done.Done? {
      PerformFrames(s, p, now, q);
      RecordKeepsReceipts(s, fate.done, p, q);
    } else {
      RefusedIsQuiet(s, p, q, fate);
    }
  }

  lemma PublishCounts(s: Plane, path: Path, data: Bytes)
    ensures Publish(s, path, data).receipts == s.receipts && Publish(s, path, data).generation == s.generation + 1
  {
  }

  lemma OthersKeepReceipts(s: Plane, e: Event)
    requires !e.Mutating?
    ensures Step(s, e).receipts == s.receipts && Step(s, e).generation == s.generation + CountOf(e)
  {
    if e.Publishing? {
      PublishCounts(s, e.path, e.data);
    } else {
      OthersAreQuiet(s, e);
    }
  }

  lemma StepKeepsReceipts(s: Plane, e: Event)
    ensures ReceiptsStay(s, Step(s, e))
  {
    if e.Mutating? {
      MutateKeepsReceipts(s, e.peer, e.now, e.request);
    } else {
      OthersKeepReceipts(s, e);
    }
  }

  lemma {:induction false} RunKeepsReceipts(s: Plane, es: seq<Event>)
    ensures ReceiptsStay(s, Run(s, es))
    decreases |es|
  {
    if es != [] {
      StepKeepsReceipts(s, es[0]);
      RunKeepsReceipts(Step(s, es[0]), es[1..]);
    }
  }

  /** After a mutation committed, repeating it at any later point of any run returns its
      receipt, marked as replayed, and changes nothing; a status query of the session
      finds it, whichever host asks. */
  lemma MutateOnce(s: Plane, p: Peer, now: real, q: Request, es: seq<Event>, later: real)
    ensures var (s1, r) := Mutate(s, p, now, q);
            var s' := Run(s1, es);
            r.Ok? && !r.value.replayed ==>
              && Mutate(s', p, later, q) == (s', Ok(Replayed(r.value)))
              && MutationStatus(s', p.session, q.id, q.digest) == Ok(Some(r.value))
  {
    var (s1, r) := Mutate(s, p, now, q);
    RunKeepsReceipts(s1, es);
    if r.Ok? && !r.value.replayed {
      ReceiptIsKept(s, p, now, q);
      RepeatIsReceipt(Run(s1, es), p, later, q, r.value);
    }
  }

  lemma ReceiptIsKept(s: Plane, p: Peer, now: real, q: Request)
    ensures var (s1, r) := Mutate(s, p, now, q);
            r.Ok? && !r.value.replayed ==>
              && CheckRequest(p, q).None?
              && Scope(p.session, q.id) in s1.receipts
              && s1.receipts[Scope(p.session, q.id)] == Kept(q.digest, p.host, p.generation, r.value)
  {
    TriedMeans(s, p, now, q);
  }

  lemma RepeatIsReceipt(s: Plane, p: Peer, now: real, q: Request, receipt: Receipt)
    requires CheckRequest(p, q).None? && Scope(p.session, q.id) in s.receipts
    requires s.receipts[Scope(p.session, q.id)] == Kept(q.digest, p.host, p.generation, receipt)
    ensures Mutate(s, p, now, q) == (s, Ok(Replayed(receipt)))
    ensures MutationStatus(s, p.session, q.id, q.digest) == Ok(Some(receipt))
  {
  }

  function Publishes(es: seq<Event>): nat {
    if es == [] then 0 else CountOf(es[0]) + Publishes(es[1..])
  }

  function CountOf(e: Event): nat {
    if e.Publishing? then 1 else 0
  }

  ghost predicate Counts(s: Plane, s': Plane, published: nat) {
    s'.generation - |s'.receipts| == s.generation - |s.receipts| + published
  }

  lemma MutateCounts(s: Plane, p: Peer, now: real, q: Request)
    ensures Counts(s, Mutate(s, p, now, q).0, 0)
  {
    MutateIsAllOrNothing(s, p, now, q);
  }

  lemma StepCounts(s: Plane, e: Event)
    ensures Counts(s, Step(s, e), CountOf(e))
  {
    if e.Mutating? {
      MutateCounts(s, e.peer, e.now, e.request);
    } else {
      OthersKeepReceipts(s, e);
    }
  }

  /** In every run the generation counts the receipts and the publishes. */
  lemma {:induction false} GenerationCounts(s: Plane, es: seq<Event>)
    ensures Run(s, es).generation - |Run(s, es).receipts| == s.generation - |s.receipts| + Publishes(es)
    decreases |es|
  {
    if es != [] {
      StepCounts(s, es[0]);
      GenerationCounts(Step(s, es[0]), es[1..]);
    }
  }

  // ---------------------------------------------------------------- authority

  /** A block named by a layout of the path, with the size it has there. */
  ghost predicate InLayout(l: Layout, b: Block) {
    l.Blocks? && exists x :: x in l.blocks && x.digest == b.digest && x.size == b.size
  }

  /** Verified for exactly this session, mutation, host and generation, and not
      expired. */
  ghost predicate VerifiedFor(s: Plane, p: Peer, now: real, id: Id, b: Block) {
    && Scope(p.session, id) in s.operations
    && var op := s.operations[Scope(p.session, id)];
       && op.host == p.host && op.generation == p.generation && now < op.expires
       && b.digest in op.verified && op.verified[b.digest] == b.size
       && b.digest in op.targets && op.targets[b.digest] == b.size
  }

  /** In the path's layout in the request's base generation and in its layout now. */
  ghost predicate SharedBlock(s: Plane, q: Request, b: Block)
    requires q.mutation.PutFile?
  {
    var p := q.mutation.path;
    && 1 <= q.base <= s.generation
    && p in ReplayTo(s.history, q.base).live && InLayout(ReplayTo(s.history, q.base).live[p].layout, b)
    && p in s.layouts && InLayout(s.layouts[p], b)
  }

  /** Each block of a put is verified for it or shared by the base and current layouts
      of its path, and the file is the concatenation of those blocks. */
  ghost predicate RestsOn(s: Plane, files: map<Path, Bytes>, p: Peer, now: real, q: Request)
    requires q.mutation.PutFile?
  {
    var m := q.mutation;
    && m.layout.Blocks?
    && (forall b | b in m.layout.blocks :: VerifiedFor(s, p, now, q.id, b) || SharedBlock(s, q, b))
    && m.path in files && |files[m.path]| == m.size && Sha256(files[m.path]) == m.digest
    && Join(s.cas, m.layout.blocks) == Ok(files[m.path])
  }

  lemma PerformedPutRests(s: Plane, p: Peer, now: real, q: Request)
    requires Invariant(s) && q.mutation.PutFile? && q.mutation.layout.Blocks? && !BaseDiverged(s, q)
    requires PerformPut(s, p, now, q).Done?
    ensures RestsOn(s, PerformPut(s, p, now, q).plane.files, p, now, q)
  {
    var m := q.mutation;
    var reusable := ReusableFor(s, q.base, m);
    AuthorityIsExact(s.operations, p, q.id, now, reusable, m.layout.blocks);
    forall b | b in m.layout.blocks
      ensures VerifiedFor(s, p, now, q.id, b) || SharedBlock(s, q, b)
    {
      assert Authorised(s.operations, p, q.id, now, reusable, b);
      BlockIsCovered(s, p, now, q, b);
    }
  }

  /** A put commits only if each of its blocks is verified for it or shared by the
      base and current layouts of its path; and its file is then the concatenation of
      those blocks. */
  lemma PutRestsOnAuthority(s: Plane, p: Peer, now: real, q: Request)
    requires Invariant(s) && q.mutation.PutFile?
    ensures var (s', r) := Mutate(s, p, now, q);
            r.Ok? && !r.value.replayed ==> RestsOn(s, s'.files, p, now, q)
  {
    TriedMeans(s, p, now, q);
    var fate := FateOf(s, p, now, q);
    if fate.Tried? && fate.done.Done? {
      PerformedPutRests(s, p, now, q);
    }
  }

  lemma BlockIsCovered(s: Plane, p: Peer, now: real, q: Request, b: Block)
    requires Invariant(s) && q.mutation.PutFile? && !BaseDiverged(s, q)
    requires Authorised(s.operations, p, q.id, now, ReusableFor(s, q.base, q.mutation), b)
    ensures VerifiedFor(s, p, now, q.id, b) || SharedBlock(s, q, b)
  {
    var m := q.mutation;
    if Covered(ReusableFor(s, q.base, m), b) {
      var base := BaseLayout(s, q.base, m.path);
      ReusedIsShared(base, if m.path in s.layouts then Some(s.layouts[m.path]) else None, b);
      assert SnapshotAt(s, q.base);
    } else {
      assert OperationSound(s.cas, s.operations[Scope(p.session, q.id)]);
    }
  }

  // -------------------------------------------------------------- portability

  /** The paths that a performed mutation leaves live. */
  lemma PutPaths(s: Plane, p: Peer, now: real, q: Request)
    requires q.mutation.PutFile? && q.mutation.layout.Blocks? && PerformPut(s, p, now, q).Done?
    ensures var live := PerformPut(s, p, now, q).plane.files.Keys;
            live == s.files.Keys + {q.mutation.path} && PortableSet(live)
  {
  }

  lemma DeletePaths(s: Plane, m: Mutation)
    requires m.DeleteFile? && PerformDelete(s, m).Done?
    ensures PerformDelete(s, m).plane.files.Keys == s.files.Keys - {m.path}
  {
  }

  lemma RenamePaths(s: Plane, m: Mutation)
    requires m.RenameFile? && PerformRename(s, m).Done?
    ensures var live := PerformRename(s, m).plane.files.Keys;
            live == s.files.Keys - {m.source, m.destination} + {m.destination} && PortableSet(live)
  {
    var live := PerformRename(s, m).plane.files.Keys;
    assert live == s.files.Keys - {m.source, m.destination} + {m.destination};
  }

  /** A put or rename that commits leaves a portable namespace, whatever was there, and
      a delete keeps one portable. */
  lemma MutationsKeepPortability(s: Plane, p: Peer, now: real, q: Request)
    ensures var (s', r) := Mutate(s, p, now, q);
            r.Ok? && !r.value.replayed && (!q.mutation.DeleteFile? || PortableSet(s.files.Keys))
            ==> PortableSet(s'.files.Keys)
  {
    TriedMeans(s, p, now, q);
    var fate := FateOf(s, p, now, q);
    if fate.Tried? && fate.done.Done? {
      match q.mutation
      case PutFile(_, _, _, _, _) => PutPaths(s, p, now, q);
      case DeleteFile(_, _) =>
        DeletePaths(s, q.mutation);
        if PortableSet(s.files.Keys) {
          PortableSubset(s.files.Keys, PerformDelete(s, q.mutation).plane.files.Keys);
        }
      case RenameFile(_, _, _, _) => RenamePaths(s, q.mutation);
    }
  }

  /** A publish does not look: below a file it leaves a namespace that is not portable. */
  lemma PublishIsUnchecked(s: Plane, path: Path, data: Bytes, file: Path)
    requires file in s.files && Below(path, file)
    ensures !PortableSet(Publish(s, path, data).files.Keys)
  {
    FileBelowFileIsRefused(Publish(s, path, data).files.Keys, path, file);
  }

  const D: Path := [100]
  const DX: Path := [100, 47, 120]

  /** Publishing `d` and then `d/x` into a new plane. */
  lemma PublishExample(data: Bytes, more: Bytes)
    ensures var s := Publish(NEW_PLANE, D, data);
            PortableSet(s.files.Keys) && !PortableSet(Publish(s, DX, more).files.Keys)
  {
    var s := Publish(NEW_PLANE, D, data);
    assert s.files.Keys == {D};
    SegmentIsPortable(D);
    PublishIsUnchecked(s, DX, more, D);
  }

  lemma SegmentIsPortable(p: Path)
    requires SLASH !in p
    ensures PortableSet({p})
  {
    assert p[..|p|] == p;
    assert forall k | EndsSegment(p, k) :: k == |p|;
    assert forall x | x in AllPrefixes({p}) :: x == p;
  }

  /** A publish keeps a portable namespace portable exactly when its path is portable by
      itself and beside every file. */
  lemma PublishKeepsPortability(s: Plane, path: Path, data: Bytes)
    requires PortableSet(s.files.Keys)
    ensures PortableSet(Publish(s, path, data).files.Keys)
            <==> PortableSet({path}) && forall q | q in s.files :: PortableSet({path, q})
  {
    assert Publish(s, path, data).files.Keys == s.files.Keys + {path};
    AddingKeepsPortable(s.files.Keys, path);
  }

  // ------------------------------------------------------------------ mirrors

  /** A client's copy: a manifest and the cursor it stands at. */
  datatype Mirror = Mirror(manifest: Manifest, generation: nat, digest: Digest)

  ghost predicate InStep(s: Plane, m: Mirror) {
    && 1 <= m.generation <= s.generation
    && m.generation in s.digests && s.digests[m.generation] == m.digest
    && m.manifest == ReplayTo(s.history, m.generation)
  }

  function Follow(m: Mirror, answer: Answer): Mirror
    requires answer.Page?
  {
    Mirror(ApplyChanges(m.manifest, answer.changes), answer.next, answer.nextDigest)
  }

  /** A mirror in step with an earlier plane is in step with every later one. */
  lemma MirrorStays(s: Plane, s': Plane, m: Mirror)
    requires Onward(s, s') && InStep(s, m)
    ensures InStep(s', m)
  {
    ReplayIsStable(s.history, s'.history, m.generation);
  }

  /** One answered request moves a mirror that is in step. */
  ghost predicate Moves(s: Plane, m: Mirror, answer: Answer) {
    && (answer.Page? ==>
          InStep(s, Follow(m, answer)) && m.generation < answer.next
          && (!answer.truncated ==> Follow(m, answer).manifest == Current(s)))
    && (answer.Unchanged? ==> m.manifest == Current(s))
    && (answer.FullRefresh? ==> s.forced || Oversized(HeadOf(s), m.generation + 1))
  }

  lemma AnswerMoves(s: Plane, m: Mirror, limit: nat)
    requires HistorySound(s) && InStep(s, m) && 1 <= limit
    ensures Moves(s, m, AnswerChanges(HeadOf(s), m.generation, m.digest, limit))
  {
    AnswerAdvances(HeadOf(s), m.generation, m.digest, limit);
  }

  /** However many mutations came between, one answered request moves a mirror to a
      later generation of the plane that answered, or shows that it is the plane's
      present namespace; a full refresh has a reason. */
  lemma MirrorFollows(s: Plane, es: seq<Event>, m: Mirror, limit: nat)
    requires Recorded(s) && InStep(s, m) && 1 <= limit
    ensures var s' := Run(s, es);
            Moves(s', m, AnswerChanges(HeadOf(s'), m.generation, m.digest, limit))
  {
    RunKeepsHistory(s, es);
    MirrorStays(s, Run(s, es), m);
    AnswerMoves(Run(s, es), m, limit);
  }

  /** A client need not trust the server's cursor: if the hash of its own copy is a
      digest the server acknowledges, its copy has that generation's marks. */
  lemma DigestIsProof(s: Plane, g: nat, copy: Manifest)
    requires HistorySound(s) && 1 <= g <= s.generation && g in s.digests && s.digests[g] == ManifestDigest(copy)
    requires NoCollision(Encode(Listing(copy)), Encode(Listing(ReplayTo(s.history, g))))
    ensures SameMarks(copy, ReplayTo(s.history, g))
  {
    assert LinkedAt(s.history, s.digests, g);
    DigestDeterminesMarks(copy, ReplayTo(s.history, g));
  }
}
