/** Whole runs of the Fabric v2 service. */
module V2Runs {
  import opened Prelude
  import opened TreeCodec
  import opened TreeStore
  import opened Admission
  import opened Layouts
  import opened V2Namespace
  import opened V2Batch
  import opened V2Outcome
  import opened V2State
  import opened V2Steps
  import opened V2Sync

  datatype Event =
    | Committing(caller: Caller, commit: CommitRequest)
    | Holding(holder: Caller, request: HoldRequest)
    | Verifying(blocks: seq<Obj>, nodes: seq<Submitted>, targets: Option<Fault>)
    | Uploading(upload: Bytes)
    | Seeding(path: Path, data: Bytes, size: nat)

  datatype Timed = Timed(at: real, event: Event)

  function Step(s: State, e: Timed): State {
    match e.event
    case Committing(c, q) => Commit(s, c, q).0
    case Holding(c, q) => FileHold(s, c, e.at, q).0
    case Verifying(blocks, nodes, targets) => TreeVerify(s, blocks, nodes, targets).0
    case Uploading(data) => Upload(s, data)
    case Seeding(path, data, size) => SeedColdFile(s, path, data, size).0
  }

  function Run(s: State, es: seq<Timed>): State
    decreases |es|
  {
    if es == [] then s else Run(Step(s, es[0]), es[1..])
  }

  lemma {:induction false} RunSplits(s: State, es: seq<Timed>, k: nat)
    requires k <= |es|
    ensures Run(s, es) == Run(Run(s, es[..k]), es[k..])
    decreases |es|
  {
    if k == 0 {
      assert es[..0] == [] && es[0..] == es;
    } else {
      RunSplits(Step(s, es[0]), es[1..], k - 1);
      assert es[..k][1..] == es[1..][..k - 1] && es[k..] == es[1..][k - 1..];
    }
  }

  // --------------------------------------------------------------- hypotheses

  /** No hash collision with stored bytes, and for a commit the digest of nothing on the
      zero-length blocks of the puts it enters. */
  ghost predicate Clean(s: State, e: Event) {
    match e
    case Committing(c, q) => CleanBytes(s, c, q)
    case Holding(_, _) => true
    case Verifying(_, nodes, _) => forall n | n in nodes :: Collisionless(s.store.cas, n.raw)
    case Uploading(data) => Collisionless(s.store.cas, data)
    case Seeding(_, data, _) => Collisionless(s.store.cas, data)
  }

  ghost predicate CleanRun(s: State, es: seq<Timed>)
    decreases |es|
  {
    es == [] || (Clean(s, es[0].event) && CleanRun(Step(s, es[0]), es[1..]))
  }

  /** A commit whose batch, if it comes to one, is harmless. */
  ghost predicate HarmlessCommit(s: State, c: Caller, q: CommitRequest) {
    var p := Prepare(s, c, q);
    p.Ready? ==> Harmless(s.ns, p.items)
  }

  ghost predicate HarmlessStep(s: State, e: Event) {
    e.Committing? ==> HarmlessCommit(s, e.caller, e.commit)
  }

  ghost predicate HarmlessRun(s: State, es: seq<Timed>)
    decreases |es|
  {
    es == [] || (HarmlessStep(s, es[0].event) && HarmlessRun(Step(s, es[0]), es[1..]))
  }

  /** A clock that does not go back. */
  ghost predicate Forward(es: seq<Timed>, from: real)
    decreases |es|
  {
    es == [] || (from <= es[0].at && Forward(es[1..], es[0].at))
  }

  // ---------------------------------------------------------------- invariant

  /** Content addressing, the closure of admitted nodes, and the hold table. */
  ghost predicate StoreSound(s: State) {
    Intact(s.store) && HoldsSound(s)
  }

  /** Every file with bytes in the legacy table assembles from the store to them. */
  ghost predicate BytesMatch(store: Store, ns: Namespace) {
    forall p | p in ns.files && IsFile(ns.entries, p) ::
      FileBytes(store, ContentDescriptor(ns.entries[p].content)) == Ok(ns.files[p])
  }

  ghost predicate Invariant(s: State) {
    StoreSound(s) && Wellformed(s.ns) && BytesMatch(s.store, s.ns)
  }

  ghost predicate ReceiptsStay(s: State, s': State) {
    forall k | k in s.receipts :: k in s'.receipts && s'.receipts[k] == s.receipts[k]
  }

  /** What no later step takes back, whatever it is. */
  ghost predicate Grows(s: State, s': State) {
    s.ns.journal <= s'.ns.journal && ReceiptsStay(s, s') && HoldsEvolve(s.holds, s'.holds)
  }

  ghost predicate SameHolds(s: State, s': State) {
    s'.holds == s.holds && s'.acquired == s.acquired && s'.released == s.released
  }

  lemma InvariantInitially()
    ensures Invariant(INITIAL) && Refines(INITIAL.ns)
  {
  }

  // ------------------------------------------------------------ how steps move

  /** The namespace that a plan leads to. */
  function PlannedNamespace(ns: Namespace, p: Plan): Namespace
    requires p.Ready? ==> AllShaped(p.items)
  {
    if p.Ready? then RunBatch(ns, p.items).ns else ns
  }

  function PlannedStore(store: Store, p: Plan): Store {
    match p
    case Failed(next, _) => next
    case Ready(next, _) => next
    case _ => store
  }

  lemma CommitFollowsPlan(s: State, c: Caller, q: CommitRequest)
    ensures var s', p := Commit(s, c, q).0, Prepare(s, c, q);
            s'.store == PlannedStore(s.store, p) && s'.ns == PlannedNamespace(s.ns, p)
  {
  }

  /** The items of a commit that reached its verdict loop. */
  lemma ReadyIsDisjoint(s: State, c: Caller, q: CommitRequest)
    requires Prepare(s, c, q).Ready?
    ensures Disjoint(Prepare(s, c, q).items) && |Prepare(s, c, q).items| == |q.ops|
    ensures forall i | 0 <= i < |q.ops| :: Prepare(s, c, q).items[i].op == q.ops[i]
  {
    var start := Assembling(s, c, q).value;
    NormalizedIsDisjoint(q.ops, {});
    MaterialisedItems(start, q.ops);
  }

  /** A receipt is written only under a key that had none. */
  lemma FreshReceipt(s: State, c: Caller, q: CommitRequest)
    ensures Prepare(s, c, q).Ready? ==> KeyOf(c, q.mutation) !in s.receipts
  {
  }

  lemma CommitReceipts(s: State, c: Caller, q: CommitRequest)
    ensures var s' := Commit(s, c, q).0; ReceiptsStay(s, s') && SameHolds(s, s')
  {
    FreshReceipt(s, c, q);
  }

  /** What a commit does outside the namespace, whatever its batch comes to. */
  lemma CommitFrame(s: State, c: Caller, q: CommitRequest)
    ensures var s' := Commit(s, c, q).0; Grows(s, s') && SameHolds(s, s')
  {
    CommitFollowsPlan(s, c, q);
    CommitReceipts(s, c, q);
    if Prepare(s, c, q).Ready? {
      BatchJournalGrows(s.ns, Prepare(s, c, q).items);
    }
  }

  lemma VerifyFrame(s: State, blocks: seq<Obj>, nodes: seq<Submitted>, targets: Option<Fault>)
    ensures var s' := TreeVerify(s, blocks, nodes, targets).0; s' == s.(store := s'.store)
  {
  }

  lemma UploadFrame(s: State, data: Bytes)
    ensures Upload(s, data) == s.(store := Upload(s, data).store)
  {
  }

  /** Only commits and seeding write the namespace. */
  lemma OthersKeepNamespace(s: State, e: Timed)
    requires !e.event.Committing? && !e.event.Seeding?
    ensures Step(s, e).ns == s.ns
  {
    match e.event
    case Holding(c, q) => FileHoldIsSound(s, c, e.at, q);
    case Verifying(blocks, nodes, targets) => VerifyFrame(s, blocks, nodes, targets);
    case Uploading(data) => UploadFrame(s, data);
  }

  lemma StepGrows(s: State, e: Timed)
    ensures Grows(s, Step(s, e))
  {
    match e.event
    case Committing(c, q) => CommitFrame(s, c, q);
    case Holding(c, q) => FileHoldIsSound(s, c, e.at, q);
    case Verifying(blocks, nodes, targets) => VerifyFrame(s, blocks, nodes, targets);
    case Uploading(data) => UploadFrame(s, data);
    case Seeding(path, data, size) => SeedIsExact(s, path, data, size);
  }

  lemma GrowsCompose(a: State, b: State, c: State)
    requires Grows(a, b) && Grows(b, c)
    ensures Grows(a, c)
  {
    forall k | k in a.holds
      ensures k in c.holds && Evolves(a.holds[k], c.holds[k])
    {
      assert Evolves(a.holds[k], b.holds[k]) && Evolves(b.holds[k], c.holds[k]);
    }
  }

  /** In every run, whatever is sent: records and receipts stay, and holds only evolve. */
  lemma {:induction false} RunGrows(s: State, es: seq<Timed>)
    ensures Grows(s, Run(s, es))
    decreases |es|
  {
    if es != [] {
      StepGrows(s, es[0]);
      RunGrows(Step(s, es[0]), es[1..]);
      GrowsCompose(s, Step(s, es[0]), Run(s, es));
    }
  }

  lemma StepKeepsExpired(s: State, e: Timed)
    ensures ExpiredStay(s.holds, Step(s, e).holds, e.at)
  {
    match e.event
    case Committing(c, q) => CommitFrame(s, c, q);
    case Holding(c, q) => FileHoldIsSound(s, c, e.at, q);
    case Verifying(blocks, nodes, targets) => VerifyFrame(s, blocks, nodes, targets);
    case Uploading(data) => UploadFrame(s, data);
    case Seeding(path, data, size) => SeedIsExact(s, path, data, size);
  }

  /** Under a clock that does not go back an expiry is final. */
  lemma {:induction false} ExpiryIsFinal(s: State, es: seq<Timed>, from: real)
    requires Forward(es, from)
    ensures ExpiredStay(s.holds, Run(s, es).holds, from)
    decreases |es|
  {
    if es != [] {
      StepKeepsExpired(s, es[0]);
      ExpiryIsFinal(Step(s, es[0]), es[1..], es[0].at);
    }
  }

  // ------------------------------------------------------------- legacy tables

  lemma SeededWellformed(ns: Namespace, path: Path, data: Bytes, size: nat)
    requires Wellformed(ns) && size <= MAX_TREE_SOURCE && |data| <= size && path !in ns.entries
    ensures Wellformed(SeedNamespace(ns, path, data, size))
  {
    var ns' := SeedNamespace(ns, path, data, size);
    forall p | p in ns'.files && IsFile(ns'.entries, p)
      ensures Some(ns'.layouts[p]) == ns'.entries[p].content.layout && |ns'.files[p]| == ns'.entries[p].content.size
    {
      if p != path {
        assert p in ns.files && IsFile(ns.entries, p);
      }
    }
  }

  lemma SeedKeepsWellformed(s: State, path: Path, data: Bytes, size: nat)
    requires Wellformed(s.ns)
    ensures Wellformed(SeedColdFile(s, path, data, size).0.ns)
  {
    SeedIsExact(s, path, data, size);
    if SeedColdFile(s, path, data, size).1.None? {
      SeededWellformed(s.ns, path, data, size);
    }
  }

  lemma CommitKeepsWellformed(s: State, c: Caller, q: CommitRequest)
    requires Wellformed(s.ns)
    ensures Wellformed(Commit(s, c, q).0.ns)
  {
    CommitFollowsPlan(s, c, q);
    if Prepare(s, c, q).Ready? {
      BatchWellformed(s.ns, Prepare(s, c, q).items);
    }
  }

  lemma StepKeepsWellformed(s: State, e: Timed)
    requires Wellformed(s.ns)
    ensures Wellformed(Step(s, e).ns)
  {
    match e.event
    case Committing(c, q) => CommitKeepsWellformed(s, c, q);
    case Seeding(path, data, size) => SeedKeepsWellformed(s, path, data, size);
    case _ => OthersKeepNamespace(s, e);
  }

  /** In every run, whatever is sent, the legacy tables keep to the entries. */
  lemma {:induction false} RunKeepsWellformed(s: State, es: seq<Timed>)
    requires Wellformed(s.ns)
    ensures Wellformed(Run(s, es).ns)
    decreases |es|
  {
    if es != [] {
      StepKeepsWellformed(s, es[0]);
      RunKeepsWellformed(Step(s, es[0]), es[1..]);
    }
  }

  // -------------------------------------------------------------------- store

  lemma HoldsSurvive(s: State, store: Store)
    requires HoldsSound(s) && Extends(s.store, store)
    ensures AllHeld(store, s.holds)
  {
    forall k | k in s.holds
      ensures Held(store, s.holds[k])
    {
      assert Held(s.store, s.holds[k]);
      ValidationSurvives(s.store, store, ContentDescriptor(s.holds[k].content));
    }
  }

  /** A step that leaves the hold table alone. */
  lemma HoldsStay(s: State, s': State)
    requires StoreSound(s) && Intact(s'.store) && Extends(s.store, s'.store) && SameHolds(s, s')
    ensures StoreSound(s')
  {
    HoldsSurvive(s, s'.store);
  }

  lemma CommitKeepsStore(s: State, c: Caller, q: CommitRequest)
    requires StoreSound(s) && CleanBytes(s, c, q)
    ensures var s' := Commit(s, c, q).0; StoreSound(s') && Extends(s.store, s'.store)
  {
    PlanIsSound(s, c, q);
    CommitFollowsPlan(s, c, q);
    CommitFrame(s, c, q);
    HoldsStay(s, Commit(s, c, q).0);
  }

  lemma SeedKeepsStore(s: State, path: Path, data: Bytes, size: nat)
    requires StoreSound(s) && Collisionless(s.store.cas, data)
    ensures var s' := SeedColdFile(s, path, data, size).0; StoreSound(s') && Extends(s.store, s'.store)
  {
    var (s', fault) := SeedColdFile(s, path, data, size);
    if fault.None? {
      PutObjectIsImmutable(s.store, data);
      ClosedSurvivesObjects(s.store.(cas := s'.store.cas), s'.store);
      HoldsStay(s, s');
    }
  }

  lemma VerifyKeepsStore(s: State, blocks: seq<Obj>, nodes: seq<Submitted>, targets: Option<Fault>)
    requires StoreSound(s) && forall n | n in nodes :: Collisionless(s.store.cas, n.raw)
    ensures var s' := TreeVerify(s, blocks, nodes, targets).0; StoreSound(s') && Extends(s.store, s'.store)
  {
    TreeVerifyIsImmutable(s, blocks, nodes, targets);
    HoldsStay(s, TreeVerify(s, blocks, nodes, targets).0);
  }

  lemma UploadKeepsStore(s: State, data: Bytes)
    requires StoreSound(s) && Collisionless(s.store.cas, data)
    ensures StoreSound(Upload(s, data)) && Extends(s.store, Upload(s, data).store)
  {
    PutObjectIsImmutable(s.store, data);
    HoldsStay(s, Upload(s, data));
  }

  lemma StepKeepsStore(s: State, e: Timed)
    requires StoreSound(s) && Clean(s, e.event)
    ensures StoreSound(Step(s, e)) && Extends(s.store, Step(s, e).store)
  {
    match e.event
    case Committing(c, q) => CommitKeepsStore(s, c, q);
    case Holding(c, q) => FileHoldIsSound(s, c, e.at, q);
    case Verifying(blocks, nodes, targets) => VerifyKeepsStore(s, blocks, nodes, targets);
    case Uploading(data) => UploadKeepsStore(s, data);
    case Seeding(path, data, size) => SeedKeepsStore(s, path, data, size);
  }

  /** In every clean run, whatever it does to the namespace, the store stays addressed by
      hash, the admitted nodes closed and the holds sound, and no object is lost. */
  lemma {:induction false} RunKeepsStore(s: State, es: seq<Timed>)
    requires StoreSound(s) && CleanRun(s, es)
    ensures StoreSound(Run(s, es)) && Extends(s.store, Run(s, es).store)
    decreases |es|
  {
    if es != [] {
      StepKeepsStore(s, es[0]);
      RunKeepsStore(Step(s, es[0]), es[1..]);
    }
  }

  // ------------------------------------------------------------- legacy bytes

  lemma BytesSurvive(s: Store, s': Store, ns: Namespace)
    requires BytesMatch(s, ns) && Extends(s, s')
    ensures BytesMatch(s', ns)
  {
    forall p | p in ns.files && IsFile(ns.entries, p)
      ensures FileBytes(s', ContentDescriptor(ns.entries[p].content)) == Ok(ns.files[p])
    {
      FileBytesSurvive(s, s', ContentDescriptor(ns.entries[p].content));
    }
  }

  /** An operation that changed the namespace, be it half-way. */
  ghost predicate Touches(ns: Namespace, item: Item)
    requires Shaped(item.op, item.data)
  {
    var o := ApplyOp(ns, item.op, item.data);
    o.Applied? || o.Crashed?
  }

  lemma ApplyKeepsBytes(store: Store, ns: Namespace, item: Item)
    requires Shaped(item.op, item.data) && Assembled(store, item) && BytesMatch(store, ns) && Wellformed(ns)
    requires Touches(ns, item)
    ensures BytesMatch(store, ApplyOp(ns, item.op, item.data).ns)
  {
    var ns' := ApplyOp(ns, item.op, item.data).ns;
    forall p | p in ns'.files && IsFile(ns'.entries, p)
      ensures FileBytes(store, ContentDescriptor(ns'.entries[p].content)) == Ok(ns'.files[p])
    {
      FileFrom(store, ns, item, p);
    }
  }

  /** Where a file of the new namespace got its bytes. */
  lemma FileFrom(store: Store, ns: Namespace, item: Item, p: Path)
    requires Shaped(item.op, item.data) && Assembled(store, item) && Wellformed(ns) && Touches(ns, item)
    requires var ns' := ApplyOp(ns, item.op, item.data).ns; p in ns'.files && IsFile(ns'.entries, p)
    ensures var ns' := ApplyOp(ns, item.op, item.data).ns;
            || FileBytes(store, ContentDescriptor(ns'.entries[p].content)) == Ok(ns'.files[p])
            || exists q :: q in ns.files && IsFile(ns.entries, q)
                           && ns'.entries[p].content == ns.entries[q].content && ns'.files[p] == ns.files[q]
  {
    var ns' := ApplyOp(ns, item.op, item.data).ns;
    if item.op.verb.Rename? && Some(p) == item.op.destination {
      assert ns'.entries[p].content == ns.entries[item.op.path].content;
    } else if item.op.verb.Put? && p == item.op.path {
      assert ContentDescriptor(PutContent(item.op, item.data)) == Descriptor(item.op);
    } else {
      assert ns'.entries[p].content == ns.entries[p].content && ns'.files[p] == ns.files[p];
    }
  }

  lemma {:induction false} BatchKeepsBytes(store: Store, ns: Namespace, items: seq<Item>)
    requires AllShaped(items) && BytesMatch(store, ns) && Wellformed(ns)
    requires forall i | 0 <= i < |items| :: Assembled(store, items[i])
    ensures BytesMatch(store, RunBatch(ns, items).ns)
    decreases |items|
  {
    if items != [] {
      assert forall i | 0 <= i < |items[1..]| :: items[1..][i] == items[i + 1];
      var o := ApplyOp(ns, items[0].op, items[0].data);
      ApplyKeepsWellformed(ns, items[0].op, items[0].data);
      if Touches(ns, items[0]) {
        ApplyKeepsBytes(store, ns, items[0]);
      }
      if o.Applied? {
        BatchKeepsBytes(store, o.ns, items[1..]);
      } else if o.Skipped? {
        BatchKeepsBytes(store, ns, items[1..]);
      }
    }
  }

  lemma CommitKeepsBytes(s: State, c: Caller, q: CommitRequest)
    requires Invariant(s) && CleanBytes(s, c, q)
    ensures var s' := Commit(s, c, q).0; BytesMatch(s'.store, s'.ns)
  {
    PlanIsSound(s, c, q);
    CommitFollowsPlan(s, c, q);
    var p := Prepare(s, c, q);
    BytesSurvive(s.store, PlannedStore(s.store, p), s.ns);
    if p.Ready? {
      BatchKeepsBytes(p.store, s.ns, p.items);
    }
  }

  lemma SeedKeepsBytes(s: State, path: Path, data: Bytes, size: nat)
    requires Invariant(s) && Collisionless(s.store.cas, data)
    ensures var s' := SeedColdFile(s, path, data, size).0; BytesMatch(s'.store, s'.ns)
  {
    var (s', fault) := SeedColdFile(s, path, data, size);
    SeedKeepsStore(s, path, data, size);
    BytesSurvive(s.store, s'.store, s.ns);
    SeedIsExact(s, path, data, size);
    if fault.None? {
      SeededFileReads(s, path, data, size);
      assert data + Zeros(0) == data;
      SeededBytes(s'.store, s.ns, path, data, size);
    }
  }

  lemma SeededBytes(store: Store, ns: Namespace, path: Path, data: Bytes, size: nat)
    requires path !in ns.entries && size <= MAX_TREE_SOURCE && |data| <= size
    requires BytesMatch(store, ns) && Wellformed(ns)
    requires size == |data| ==> FileBytes(store, ContentDescriptor(SeedContent(data, size))) == Ok(data)
    ensures BytesMatch(store, SeedNamespace(ns, path, data, size))
  {
    var ns' := SeedNamespace(ns, path, data, size);
    forall p | p in ns'.files && IsFile(ns'.entries, p)
      ensures FileBytes(store, ContentDescriptor(ns'.entries[p].content)) == Ok(ns'.files[p])
    {
      if p != path {
        assert ns'.entries[p] == ns.entries[p] && ns'.files[p] == ns.files[p];
      }
    }
  }

  lemma StepKeepsBytes(s: State, e: Timed)
    requires Invariant(s) && Clean(s, e.event) && Extends(s.store, Step(s, e).store)
    ensures BytesMatch(Step(s, e).store, Step(s, e).ns)
  {
    match e.event
    case Committing(c, q) => CommitKeepsBytes(s, c, q);
    case Seeding(path, data, size) => SeedKeepsBytes(s, path, data, size);
    case _ =>
      OthersKeepNamespace(s, e);
      BytesSurvive(s.store, Step(s, e).store, s.ns);
  }

  lemma StepKeepsInvariant(s: State, e: Timed)
    requires Invariant(s) && Clean(s, e.event)
    ensures Invariant(Step(s, e))
  {
    StepKeepsStore(s, e);
    StepKeepsWellformed(s, e);
    StepKeepsBytes(s, e);
  }

  /** In every clean run, whatever it does to the namespace, also the legacy bytes stay
      what the descriptors beside them assemble to. */
  lemma {:induction false} RunKeepsInvariant(s: State, es: seq<Timed>)
    requires Invariant(s) && CleanRun(s, es)
    ensures Invariant(Run(s, es)) && Extends(s.store, Run(s, es).store)
    decreases |es|
  {
    RunKeepsStore(s, es);
    if es != [] {
      StepKeepsInvariant(s, es[0]);
      RunKeepsInvariant(Step(s, es[0]), es[1..]);
    }
  }

  // ------------------------------------------------------------------ journal

  /** After a commit the journal describes the namespace exactly when its batch was
      harmless. */
  lemma CommitKeepsJournal(s: State, c: Caller, q: CommitRequest)
    requires Refines(s.ns) && Wellformed(s.ns)
    ensures Refines(Commit(s, c, q).0.ns) <==> HarmlessCommit(s, c, q)
  {
    CommitFollowsPlan(s, c, q);
    if Prepare(s, c, q).Ready? {
      ReadyIsDisjoint(s, c, q);
      BatchRefinement(s.ns, Prepare(s, c, q).items);
    }
  }

  lemma SeedIsExtended(ns: Namespace, path: Path, data: Bytes, size: nat)
    requires path !in ns.entries && size <= MAX_TREE_SOURCE && |data| <= size
    ensures var ns' := SeedNamespace(ns, path, data, size);
            var r := ns'.journal[|ns.journal|];
            Extended(ns, ns', r) && ContentsOf(ns'.entries) == Replay1(ContentsOf(ns.entries), r)
  {
    var ns' := SeedNamespace(ns, path, data, size);
    assert ContentsOf(ns'.entries) == ContentsOf(ns.entries)[path := SeedContent(data, size)];
  }

  lemma SeededRefines(ns: Namespace, path: Path, data: Bytes, size: nat)
    requires Refines(ns) && path !in ns.entries && size <= MAX_TREE_SOURCE && |data| <= size
    ensures Refines(SeedNamespace(ns, path, data, size))
  {
    var ns' := SeedNamespace(ns, path, data, size);
    SeedIsExtended(ns, path, data, size);
    ExtendedRefines(ns, ns', ns'.journal[|ns.journal|]);
  }

  lemma SeedKeepsJournal(s: State, path: Path, data: Bytes, size: nat)
    requires Refines(s.ns)
    ensures Refines(SeedColdFile(s, path, data, size).0.ns)
  {
    SeedIsExact(s, path, data, size);
    if SeedColdFile(s, path, data, size).1.None? {
      SeededRefines(s.ns, path, data, size);
    }
  }

  lemma StepKeepsJournal(s: State, e: Timed)
    requires Refines(s.ns) && Wellformed(s.ns)
    ensures Refines(Step(s, e).ns) <==> HarmlessStep(s, e.event)
  {
    match e.event
    case Committing(c, q) => CommitKeepsJournal(s, c, q);
    case Seeding(path, data, size) => SeedKeepsJournal(s, path, data, size);
    case _ => OthersKeepNamespace(s, e);
  }

  /** After each step of a run the journal describes the namespace. */
  ghost predicate AlwaysRefines(s: State, es: seq<Timed>) {
    forall k | 0 <= k <= |es| :: Refines(Run(s, es[..k]).ns)
  }

  lemma AlwaysRefinesStep(s: State, es: seq<Timed>)
    requires es != [] && Refines(s.ns)
    ensures AlwaysRefines(s, es) <==> AlwaysRefines(Step(s, es[0]), es[1..])
  {
    forall k | 1 <= k <= |es|
      ensures Run(s, es[..k]) == Run(Step(s, es[0]), es[1..][..k - 1])
    {
      assert es[..k][1..] == es[1..][..k - 1];
    }
    forall k | 0 <= k <= |es[1..]|
      ensures Run(Step(s, es[0]), es[1..][..k]) == Run(s, es[..k + 1])
    {
      assert es[..k + 1][1..] == es[1..][..k];
    }
  }

  /** The journal describes the namespace all along a run exactly when every commit of
      the run is harmless, whatever happens to the store. */
  lemma {:induction false} JournalIsExact(s: State, es: seq<Timed>)
    requires Refines(s.ns) && Wellformed(s.ns)
    ensures AlwaysRefines(s, es) <==> HarmlessRun(s, es)
    decreases |es|
  {
    if es != [] {
      StepKeepsJournal(s, es[0]);
      StepKeepsWellformed(s, es[0]);
      AlwaysRefinesStep(s, es);
      if HarmlessStep(s, es[0].event) {
        JournalIsExact(Step(s, es[0]), es[1..]);
      } else {
        assert Run(Step(s, es[0]), es[1..][..0]) == Step(s, es[0]);
      }
    }
  }

  // --------------------------------------------------------------------- holds

  /** The file of a hold: its descriptor still validates, and assembles to the same bytes
      over the same objects. */
  ghost predicate SameFile(s: State, s': State, d: PutDescriptor) {
    && Validates(s'.store, d).None? && SameBytes(s.store, s'.store, d)
    && FileObjects(s'.store.cas, d) == FileObjects(s.store.cas, d)
  }

  /** Hold isolation. In every run a hold keeps its path, file, mode and binding, and a
      release is final. Under a clock that does not go back so is an expiry. And in every
      clean run, whatever is committed to its path, the file keeps its bytes. */
  lemma HoldIsolation(s: State, es: seq<Timed>, key: HoldKey, from: real)
    requires key in s.holds
    ensures var s', h := Run(s, es), s.holds[key];
            && key in s'.holds && Evolves(h, s'.holds[key])
            && (Forward(es, from) && ExpiredAt(h, from) ==> s'.holds[key].deadline == h.deadline)
            && (StoreSound(s) && CleanRun(s, es) ==> SameFile(s, s', ContentDescriptor(h.content)))
  {
    RunGrows(s, es);
    if Forward(es, from) {
      ExpiryIsFinal(s, es, from);
    }
    if StoreSound(s) && CleanRun(s, es) {
      RunKeepsStore(s, es);
      assert Held(s.store, s.holds[key]);
      ValidationSurvives(s.store, Run(s, es).store, ContentDescriptor(s.holds[key].content));
      BytesOutlive(s.store, Run(s, es).store, ContentDescriptor(s.holds[key].content));
    }
  }

  // ------------------------------------------------------------- exactly once

  /** A committed batch is committed once: repeating the request at any later point of
      any run returns the first receipt and changes nothing. */
  lemma CommitOnce(s: State, c: Caller, q: CommitRequest, es: seq<Timed>)
    ensures var (s1, r) := Commit(s, c, q);
            var s' := Run(s1, es);
            r.Ok? ==> Commit(s', c, q) == (s', r)
  {
    var (s1, r) := Commit(s, c, q);
    RunGrows(s1, es);
    if r.Ok? {
      ReceiptIsKept(s, c, q);
      RepeatIsReceipt(Run(s1, es), c, q, r.value);
    }
  }

  lemma ReceiptIsKept(s: State, c: Caller, q: CommitRequest)
    requires Commit(s, c, q).1.Ok?
    ensures var key := KeyOf(c, q.mutation);
            var s1 := Commit(s, c, q).0;
            && c.readWrite && 1 <= |q.ops| <= MAX_OPS
            && key in s1.receipts && s1.receipts[key] == Stamped(c.attachment, q, Commit(s, c, q).1.value)
  {
  }

  lemma RepeatIsReceipt(s: State, c: Caller, q: CommitRequest, receipt: Receipt)
    requires c.readWrite && 1 <= |q.ops| <= MAX_OPS
    requires KeyOf(c, q.mutation) in s.receipts
    requires s.receipts[KeyOf(c, q.mutation)] == Stamped(c.attachment, q, receipt)
    ensures Commit(s, c, q) == (s, Ok(receipt))
  {
  }

  // ------------------------------------------------------- mirrors in a run

  /** The namespace after the first k steps of a run from the initial state. */
  function NamespaceAt(es: seq<Timed>, k: nat): Namespace
    requires k <= |es|
  {
    Run(INITIAL, es[..k]).ns
  }

  ghost predicate Moments(ks: seq<nat>, n: nat) {
    && (forall i | 0 <= i < |ks| :: ks[i] <= n)
    && (forall i, j | 0 <= i <= j < |ks| :: ks[i] <= ks[j])
  }

  function Views(es: seq<Timed>, ks: seq<nat>): seq<Namespace>
    requires forall i | 0 <= i < |ks| :: ks[i] <= |es|
  {
    seq(|ks|, i requires 0 <= i < |ks| => NamespaceAt(es, ks[i]))
  }

  /** The journal of a run only grows, whatever is sent. */
  lemma JournalGrowsBetween(es: seq<Timed>, a: nat, b: nat)
    requires a <= b <= |es|
    ensures NamespaceAt(es, a).journal <= NamespaceAt(es, b).journal
  {
    RunSplits(INITIAL, es[..b], a);
    assert es[..b][..a] == es[..a];
    RunGrows(Run(INITIAL, es[..a]), es[..b][a..]);
  }

  lemma ViewsGrow(es: seq<Timed>, ks: seq<nat>)
    requires HarmlessRun(INITIAL, es) && Moments(ks, |es|)
    ensures Growing(Views(es, ks)) && AllRefine(Views(es, ks))
  {
    InvariantInitially();
    JournalIsExact(INITIAL, es);
    forall i, j | 0 <= i <= j < |ks|
      ensures NamespaceAt(es, ks[i]).journal <= NamespaceAt(es, ks[j]).journal
    {
      JournalGrowsBetween(es, ks[i], ks[j]);
    }
  }

  /** In any run of harmless commits: pages scanned at some moments and changes followed
      at later ones rebuild the namespace of the last moment. */
  lemma MirrorConverges(es: seq<Timed>, ks: seq<nat>, limits: seq<nat>, ks': seq<nat>, limits': seq<nat>)
    requires HarmlessRun(INITIAL, es) && ks != [] && Moments(ks + ks', |es|)
    requires Moments(ks, |es|) && Moments(ks', |es|)
    requires Scan(map[], Views(es, ks), limits, None).Some?
    requires Follow(Views(es, ks'), limits', |NamespaceAt(es, ks[0]).journal|).Some?
    ensures var m := Scan(map[], Views(es, ks), limits, None).value;
            var tail := Follow(Views(es, ks'), limits', |NamespaceAt(es, ks[0]).journal|).value;
            ks' != [] && ReplayOn(m, tail) == ContentsOf(NamespaceAt(es, ks'[|ks'| - 1]).entries)
  {
    ViewsGrow(es, ks + ks');
    ViewsJoin(es, ks, ks');
    ViewAt(es, ks, 0);
    if ks' != [] {
      ViewAt(es, ks', |ks'| - 1);
    }
    SnapshotAndChangesConverge(Views(es, ks), limits, Views(es, ks'), limits');
  }

  lemma ViewAt(es: seq<Timed>, ks: seq<nat>, i: nat)
    requires i < |ks| && forall j | 0 <= j < |ks| :: ks[j] <= |es|
    ensures |Views(es, ks)| == |ks| && Views(es, ks)[i] == NamespaceAt(es, ks[i])
  {
  }

  lemma ViewsJoin(es: seq<Timed>, ks: seq<nat>, ks': seq<nat>)
    requires (forall i | 0 <= i < |ks| :: ks[i] <= |es|) && (forall i | 0 <= i < |ks'| :: ks'[i] <= |es|)
    ensures forall i | 0 <= i < |ks + ks'| :: (ks + ks')[i] <= |es|
    ensures Views(es, ks) + Views(es, ks') == Views(es, ks + ks')
  {
  }
}
