/** What a commit promises its client: which operations it applies, told from what the
    client expected and what was there, and what is at each path afterwards. */
module V2Verdicts {
  import opened Prelude
  import opened TreeCodec
  import opened TreeStore
  import opened Admission
  import opened Layouts
  import opened V2Namespace
  import opened V2Batch
  import opened V2Outcome
  import opened V2State
  import opened V2Steps
  import opened V2Runs

  // ------------------------------------------------------------- expectations

  /** The digest that a path shows: a file's own, none for a directory or nothing. */
  function Shown(entries: map<Path, Entry>, p: Path): Option<Digest> {
    if p in entries then entries[p].content.digest else None
  }

  /** The file to move away is there with the digest expected of it. */
  predicate SourceIsThere(entries: map<Path, Entry>, op: Op) {
    op.source.Some? ==>
      && op.source.value in entries && entries[op.source.value].content.kind == File
      && entries[op.source.value].content.digest == op.sourcePrev
  }

  /** The client's expectations hold: a put replaces the digest it names or creates where
      nothing is, a delete names the digest shown, a rename moves a file with the digest
      it names to a free path. */
  predicate UpToDate(entries: map<Path, Entry>, op: Op) {
    match op.verb
    case Put =>
      && (if op.prev.None? then op.path !in entries
          else op.path in entries && entries[op.path].content.digest == op.prev)
      && SourceIsThere(entries, op)
    case Delete => Shown(entries, op.path) == op.prev
    case Rename =>
      && op.path in entries && entries[op.path].content.kind == File && entries[op.path].content.digest == op.prev
      && op.destination.Some? && op.destination.value !in entries
  }

  lemma VerdictIsExact(entries: map<Path, Entry>, op: Op)
    requires Consistent(op)
    ensures Judge(entries, op) == if UpToDate(entries, op) then Pass else Diverged(Shown(entries, op.path))
  {
  }

  /** What an applied operation leaves at its paths. */
  function Leaves(entries: map<Path, Entry>, op: Op, p: Path): Option<Content> {
    if op.verb.Put? && p == op.path then
      Some(if IsFilePut(op) then Content(File, op.size.GetOr(0), op.digest, op.layout)
           else Content(Directory, 0, None, None))
    else if op.verb.Rename? && op.destination == Some(p) && op.path in entries then Some(entries[op.path].content)
    else None
  }

  lemma LeavesIsWritten(entries: map<Path, Entry>, item: Item, p: Path)
    requires Shaped(item.op, item.data)
    ensures Written(entries, item, p) == Leaves(entries, item.op, p)
  {
  }

  // ------------------------------------------------------------------ verdicts

  /** Each operation is applied exactly when its expectations held before the commit;
      a rejected one is answered with the digest its path showed. */
  ghost predicate Answered(before: Namespace, ops: seq<Op>, verdicts: seq<OpVerdict>) {
    && |verdicts| == |ops|
    && forall i | 0 <= i < |ops| ::
         if UpToDate(before.entries, ops[i]) then verdicts[i].AppliedAt?
         else verdicts[i] == RejectedWith(Shown(before.entries, ops[i].path))
  }

  function ContentAt(ns: Namespace, p: Path): Option<Content> {
    if p in ns.entries then Some(ns.entries[p].content) else None
  }

  /** At a path of an applied operation is what it leaves; other paths are as before. */
  ghost predicate Rewritten(before: Namespace, ops: seq<Op>, after: Namespace, p: Path) {
    && (forall i | 0 <= i < |ops| && UpToDate(before.entries, ops[i]) && p in Footprint(ops[i]) ::
          ContentAt(after, p) == Leaves(before.entries, ops[i], p))
    && ((forall i | 0 <= i < |ops| && UpToDate(before.entries, ops[i]) :: p !in Footprint(ops[i])) ==>
          ContentAt(after, p) == ContentAt(before, p))
  }

  ghost predicate SameOps(items: seq<Item>, ops: seq<Op>) {
    |items| == |ops| && forall i | 0 <= i < |ops| :: items[i].op == ops[i]
  }

  lemma BatchVerdicts(ns: Namespace, ops: seq<Op>, items: seq<Item>)
    requires AllShaped(items) && Disjoint(items) && SameOps(items, ops)
    requires forall i | 0 <= i < |ops| :: Consistent(ops[i])
    requires RunBatch(ns, items).end.Completed?
    ensures Answered(ns, ops, RunBatch(ns, items).verdicts)
    ensures forall p :: Rewritten(ns, ops, RunBatch(ns, items).ns, p)
  {
    BatchIsSimultaneous(ns, items);
    var r := RunBatch(ns, items);
    forall i | 0 <= i < |ops|
      ensures Passes(ns, items[i]) <==> UpToDate(ns.entries, ops[i])
      ensures if UpToDate(ns.entries, ops[i]) then r.verdicts[i].AppliedAt?
              else r.verdicts[i] == RejectedWith(Shown(ns.entries, ops[i].path))
    {
      VerdictIsExact(ns.entries, ops[i]);
    }
    forall p
      ensures Rewritten(ns, ops, r.ns, p)
    {
      SettledIsRewritten(ns, ops, items, r.ns, p);
    }
  }

  lemma SettledIsRewritten(ns: Namespace, ops: seq<Op>, items: seq<Item>, after: Namespace, p: Path)
    requires AllShaped(items) && SameOps(items, ops) && Settled(ns, items, after, p)
    requires forall i | 0 <= i < |ops| :: Passes(ns, items[i]) <==> UpToDate(ns.entries, ops[i])
    ensures Rewritten(ns, ops, after, p)
  {
    assert V2Batch.Present(ns, p) == ContentAt(ns, p) && V2Batch.Present(after, p) == ContentAt(after, p);
    forall i | 0 <= i < |ops| && UpToDate(ns.entries, ops[i]) && p in Footprint(ops[i])
      ensures ContentAt(after, p) == Leaves(ns.entries, ops[i], p)
    {
      LeavesIsWritten(ns.entries, items[i], p);
    }
  }

  lemma ReadyOps(s: State, c: Caller, q: CommitRequest)
    requires Prepare(s, c, q).Ready?
    ensures SameOps(Prepare(s, c, q).items, q.ops) && Disjoint(Prepare(s, c, q).items)
    ensures forall i | 0 <= i < |q.ops| :: Consistent(q.ops[i])
  {
    ReadyIsDisjoint(s, c, q);
    ReadyIsInForm(s, c, q);
    assert forall i | 0 <= i < |q.ops| :: WellMade(q.ops[i]);
  }

  /** A commit that is answered for the first time. */
  ghost predicate Committed(s: State, c: Caller, q: CommitRequest) {
    KeyOf(c, q.mutation) !in s.receipts && Commit(s, c, q).1.Ok?
  }

  lemma CommittedIsCompleted(s: State, c: Caller, q: CommitRequest)
    ensures Committed(s, c, q) <==> Prepare(s, c, q).Ready? && RunBatch(s.ns, Prepare(s, c, q).items).end.Completed?
    ensures Committed(s, c, q) ==>
              var b := RunBatch(s.ns, Prepare(s, c, q).items);
              Commit(s, c, q).0.ns == b.ns && Commit(s, c, q).1.value.verdicts == b.verdicts
  {
    FreshReceipt(s, c, q);
  }

  /** A commit applies exactly the operations whose expectations held in the namespace
      before it, answers the others with the digest their path showed, and leaves at
      every path what the applied operations say. */
  lemma VerdictsAreExact(s: State, c: Caller, q: CommitRequest)
    requires Committed(s, c, q)
    ensures var (s', r) := Commit(s, c, q);
            Answered(s.ns, q.ops, r.value.verdicts) && forall p :: Rewritten(s.ns, q.ops, s'.ns, p)
  {
    CommittedIsCompleted(s, c, q);
    ReadyOps(s, c, q);
    BatchVerdicts(s.ns, q.ops, Prepare(s, c, q).items);
  }

  /** A put that names the digest now at its path is applied, and is then there. */
  lemma PutReplaces(s: State, c: Caller, q: CommitRequest, i: nat)
    requires Committed(s, c, q) && i < |q.ops| && IsFilePut(q.ops[i]) && q.ops[i].source.None?
    requires q.ops[i].prev.Some? && Shown(s.ns.entries, q.ops[i].path) == q.ops[i].prev
    ensures var (s', r) := Commit(s, c, q);
            var op := q.ops[i];
            && |r.value.verdicts| == |q.ops| && r.value.verdicts[i].AppliedAt?
            && op.path in s'.ns.entries
            && s'.ns.entries[op.path].content == Content(File, op.size.GetOr(0), op.digest, op.layout)
  {
    VerdictsAreExact(s, c, q);
    var op := q.ops[i];
    assert UpToDate(s.ns.entries, op) && op.path in Footprint(op);
    assert Rewritten(s.ns, q.ops, Commit(s, c, q).0.ns, op.path);
  }

  /** Of two operations with the same expected digest at a path to which the first brings
      a new file, the second is rejected with the first one's digest. */
  lemma SecondIsRejected(s: State, c: Caller, q: CommitRequest, i: nat, c': Caller, q': CommitRequest, j: nat)
    requires Committed(s, c, q) && Committed(Commit(s, c, q).0, c', q')
    requires i < |q.ops| && IsFilePut(q.ops[i]) && UpToDate(s.ns.entries, q.ops[i])
    requires j < |q'.ops| && q'.ops[j].path == q.ops[i].path && q'.ops[j].prev == q.ops[i].prev != q.ops[i].digest
    ensures var r' := Commit(Commit(s, c, q).0, c', q').1;
            |r'.value.verdicts| == |q'.ops| && r'.value.verdicts[j] == RejectedWith(q.ops[i].digest)
  {
    var s' := Commit(s, c, q).0;
    VerdictsAreExact(s, c, q);
    VerdictsAreExact(s', c', q');
    assert q.ops[i].path in Footprint(q.ops[i]);
    assert Rewritten(s.ns, q.ops, s'.ns, q.ops[i].path);
    assert Shown(s'.ns.entries, q.ops[i].path) == q.ops[i].digest;
  }

  /** Creating where something is, renaming onto something, and a source that changed are
      each rejected, and what was at their paths stays. */
  lemma OccupiedIsRejected(s: State, c: Caller, q: CommitRequest, i: nat)
    requires Committed(s, c, q) && i < |q.ops|
    requires var op := q.ops[i];
             || (op.verb.Put? && op.prev.None? && op.path in s.ns.entries)
             || (op.verb.Rename? && op.destination.Some? && op.destination.value in s.ns.entries)
             || (op.source.Some? && Shown(s.ns.entries, op.source.value) != op.sourcePrev)
    ensures var (s', r) := Commit(s, c, q);
            && |r.value.verdicts| == |q.ops|
            && r.value.verdicts[i] == RejectedWith(Shown(s.ns.entries, q.ops[i].path))
            && forall p | p in Footprint(q.ops[i]) :: ContentAt(s'.ns, p) == ContentAt(s.ns, p)
  {
    VerdictsAreExact(s, c, q);
    CommittedIsCompleted(s, c, q);
    ReadyOps(s, c, q);
    var op := q.ops[i];
    assert Consistent(op) && !UpToDate(s.ns.entries, op);
    forall p | p in Footprint(op)
      ensures ContentAt(Commit(s, c, q).0.ns, p) == ContentAt(s.ns, p)
    {
      assert Rewritten(s.ns, q.ops, Commit(s, c, q).0.ns, p);
      OthersElsewhere(s, c, q, i, p);
    }
  }

  lemma OthersElsewhere(s: State, c: Caller, q: CommitRequest, i: nat, p: Path)
    requires Prepare(s, c, q).Ready? && i < |q.ops| && p in Footprint(q.ops[i])
    ensures forall k | 0 <= k < |q.ops| && k != i :: p !in Footprint(q.ops[k])
  {
    ReadyIsInForm(s, c, q);
    forall k | 0 <= k < |q.ops| && k != i
      ensures p !in Footprint(q.ops[k])
    {
      if k < i {
        assert Footprint(q.ops[k]) !! Footprint(q.ops[i]);
      } else {
        assert Footprint(q.ops[i]) !! Footprint(q.ops[k]);
      }
    }
  }

  /** How many verdicts say so. */
  function Passing(verdicts: seq<OpVerdict>): nat {
    if verdicts == [] then 0 else (if verdicts[0].AppliedAt? then 1 else 0) + Passing(verdicts[1..])
  }

  lemma {:induction false} VerdictsAreNumbered(ns: Namespace, items: seq<Item>)
    requires AllShaped(items) && RunBatch(ns, items).end.Completed?
    ensures var r := RunBatch(ns, items);
            && |r.ns.journal| == |ns.journal| + Passing(r.verdicts)
            && forall i | 0 <= i < |items| && r.verdicts[i].AppliedAt? ::
                 r.verdicts[i].number == |ns.journal| + Passing(r.verdicts[..i]) + 1
    decreases |items|
  {
    if items != [] {
      var o := ApplyOp(ns, items[0].op, items[0].data);
      var next := if o.Applied? then o.ns else ns;
      if o.Applied? {
        JournalLengthens(ns, items[0]);
      }
      VerdictsAreNumbered(next, items[1..]);
      var r, rest := RunBatch(ns, items), RunBatch(next, items[1..]);
      assert r.verdicts[1..] == rest.verdicts;
      forall i | 0 <= i < |items| && r.verdicts[i].AppliedAt?
        ensures r.verdicts[i].number == |ns.journal| + Passing(r.verdicts[..i]) + 1
      {
        if i > 0 {
          assert r.verdicts[i] == rest.verdicts[i - 1];
          assert r.verdicts[..i][1..] == rest.verdicts[..i - 1];
        }
      }
    }
  }

  /** Applied operations get consecutive numbers from the end of the journal on, in the
      order of the request, and the receipt names the journal's length after them. */
  lemma ReceiptIsExact(s: State, c: Caller, q: CommitRequest)
    requires Committed(s, c, q)
    ensures var (s', r) := Commit(s, c, q);
            && r.value.mutation == q.mutation && r.value.number == |s'.ns.journal|
            && |s'.ns.journal| == |s.ns.journal| + Passing(r.value.verdicts)
            && forall i | 0 <= i < |r.value.verdicts| && r.value.verdicts[i].AppliedAt? ::
                 r.value.verdicts[i].number == |s.ns.journal| + Passing(r.value.verdicts[..i]) + 1
  {
    CommittedIsCompleted(s, c, q);
    VerdictsAreNumbered(s.ns, Prepare(s, c, q).items);
    assert Commit(s, c, q)
           == Finish(s.(store := Prepare(s, c, q).store), c, q, RunBatch(s.ns, Prepare(s, c, q).items));
  }

  /** A mutation id that has its receipt is answered with it only for the same request
      under the same attachment, and changes nothing either way. */
  lemma RepeatIsExact(s: State, c: Caller, q: CommitRequest)
    requires c.readWrite && 1 <= |q.ops| <= 128 && KeyOf(c, q.mutation) in s.receipts
    ensures var kept := s.receipts[KeyOf(c, q.mutation)];
            Commit(s, c, q) == (s, if kept.attachment == c.attachment && kept.request == q
                                   then Ok(kept.receipt) else Rejected(IdempotencyConflict))
  {
  }

  // --------------------------------------------------------------- being heard

  /** A path that something stands at by the turn of operation i. */
  ghost predicate StandsBy(ns: Namespace, ops: seq<Op>, i: nat, p: Path)
    requires i <= |ops|
  {
    || (exists j :: 0 <= j < i && UpToDate(ns.entries, ops[j]) && Leaves(ns.entries, ops[j], p).Some?)
    || (p in ns.entries && forall j | 0 <= j < i && UpToDate(ns.entries, ops[j]) :: p !in Footprint(ops[j]))
  }

  /** A delete with something below its path by its turn, or a rename of a file without
      legacy bytes, whose expectations hold. */
  ghost predicate Blocked(ns: Namespace, ops: seq<Op>, i: nat)
    requires i < |ops|
  {
    && UpToDate(ns.entries, ops[i])
    && ((ops[i].verb.Delete? && exists p :: Below(p, ops[i].path) && StandsBy(ns, ops, i, p))
        || (ops[i].verb.Rename? && !HasBytes(ns, ops[i].path)))
  }

  lemma StandsIsOccupied(ns: Namespace, ops: seq<Op>, items: seq<Item>, i: nat, p: Path)
    requires AllShaped(items) && SameOps(items, ops) && i <= |ops|
    requires forall j | 0 <= j < |ops| :: Consistent(ops[j])
    ensures StandsBy(ns, ops, i, p) <==> Occupied(ns, items, i, p)
  {
    forall j | 0 <= j < |ops|
      ensures Passes(ns, items[j]) <==> UpToDate(ns.entries, ops[j])
      ensures Written(ns.entries, items[j], p) == Leaves(ns.entries, ops[j], p)
    {
      VerdictIsExact(ns.entries, ops[j]);
      LeavesIsWritten(ns.entries, items[j], p);
    }
  }

  lemma BlockedStops(ns: Namespace, ops: seq<Op>, items: seq<Item>, i: nat)
    requires AllShaped(items) && SameOps(items, ops) && i < |ops|
    requires forall j | 0 <= j < |ops| :: Consistent(ops[j])
    ensures Blocked(ns, ops, i) <==> Stops(ns, items, i)
  {
    VerdictIsExact(ns.entries, ops[i]);
    forall p
      ensures StandsBy(ns, ops, i, p) <==> Occupied(ns, items, i, p)
    {
      StandsIsOccupied(ns, ops, items, i, p);
    }
  }

  /** A new request in form whose files are there or come with it is committed exactly when
      none of its operations is blocked, whatever the verdicts are. */
  lemma CommitIsForeseen(s: State, c: Caller, q: CommitRequest)
    requires Intact(s.store) && CleanBytes(s, c, q)
    requires InForm(s, c, q) && Assembles(WithInline(s.store, q), q.ops)
    ensures Committed(s, c, q) <==> forall i | 0 <= i < |q.ops| :: !Blocked(s.ns, q.ops, i)
  {
    CommitGetsReady(s, c, q);
    ReadyOps(s, c, q);
    CommittedIsCompleted(s, c, q);
    EndIsForeseen(s.ns, q.ops, Prepare(s, c, q).items);
  }

  /** The bytes of its files are those sent or stored, and stay. */
  lemma CommitKeepsBytesSent(s: State, c: Caller, q: CommitRequest, i: nat)
    requires Intact(s.store) && CleanBytes(s, c, q)
    requires InForm(s, c, q) && Assembles(WithInline(s.store, q), q.ops) && i < |q.ops| && IsFilePut(q.ops[i])
    ensures FileBytes(Commit(s, c, q).0.store, Descriptor(q.ops[i])) == OwnBytes(WithInline(s.store, q), q.ops[i])
  {
    CommitGetsReady(s, c, q);
    PlanIsSound(s, c, q);
    CommitFollowsPlan(s, c, q);
    assert Assembled(Prepare(s, c, q).store, Prepare(s, c, q).items[i]);
  }

  lemma EndIsForeseen(ns: Namespace, ops: seq<Op>, items: seq<Item>)
    requires AllShaped(items) && SameOps(items, ops) && Disjoint(items)
    requires forall j | 0 <= j < |ops| :: Consistent(ops[j])
    ensures RunBatch(ns, items).end.Completed? <==> forall i | 0 <= i < |ops| :: !Blocked(ns, ops, i)
  {
    BatchIsForeseen(ns, items);
    forall i | 0 <= i < |ops|
      ensures Blocked(ns, ops, i) <==> Stops(ns, items, i)
    {
      BlockedStops(ns, ops, items, i);
    }
    var r := RunBatch(ns, items);
    if !r.end.Completed? {
      assert Blocked(ns, ops, |r.verdicts|);
    } else {
      forall i | 0 <= i < |ops|
        ensures !Blocked(ns, ops, i)
      {
        assert Passed(ns, items, i, r.verdicts[i]);
      }
    }
  }

  /** A put of a small file, whose bytes come inline. */
  function SmallPut(path: Path, data: Bytes, prev: Option<Digest>): Op {
    var d := DescriptorOf([data], ConnectedHostCas);
    Op(Put, path, Some(File), d.digest, d.size, d.layout, prev, None, None, None)
  }

  function SmallRequest(mutation: Id, path: Path, data: Bytes, prev: Option<Digest>): CommitRequest {
    CommitRequest(mutation, [SmallPut(path, data, prev)], [Inline(Sha256(data), |data|, data)])
  }

  lemma OneChunk(data: Bytes)
    requires data != []
    ensures Concat([data]) == data && BlocksOf([data], 0, 0) == [Block(0, 0, |data|, Sha256(data))]
    ensures |data| <= MAX_BLOCK ==> Cut([data])
  {
    assert [data][1..] == [];
    assert data + [] == data;
    assert BlocksOf([], 1, |data|) == [];
  }

  lemma SmallIsInForm(s: State, c: Caller, mutation: Id, path: Path, data: Bytes, prev: Option<Digest>)
    requires c.readWrite && KeyOf(c, mutation) !in s.receipts && 1 <= |data| <= MAX_INLINE
    ensures InForm(s, c, SmallRequest(mutation, path, data, prev))
  {
    var q := SmallRequest(mutation, path, data, prev);
    OneChunk(data);
    CutIsAccepted([data], ConnectedHostCas);
    assert Descriptor(q.ops[0]) == DescriptorOf([data], ConnectedHostCas);
    assert WellMade(q.ops[0]);
    var b := Block(0, 0, |data|, Sha256(data));
    assert FileLayoutBlocks(q.ops[0]) == [b] && [b][1..] == [] && q.ops[1..] == [];
    assert RequiredBlocks([b]) == map[b.digest := b.size];
    assert Required(q.ops) == map[b.digest := b.size];
    assert Wanted(Required(q.ops), q.inline[0]);
  }

  lemma InlineIsStored(s: Store, mutation: Id, path: Path, data: Bytes, prev: Option<Digest>)
    ensures ChunksStored(WithInline(s, SmallRequest(mutation, path, data, prev)).cas, [data])
  {
    var inline := SmallRequest(mutation, path, data, prev).inline;
    assert inline[1..] == [];
    assert InlineBytes(inline) == map[Sha256(data) := data];
  }

  lemma SmallBlocks(path: Path, data: Bytes, prev: Option<Digest>)
    requires data != []
    ensures FileLayoutBlocks(SmallPut(path, data, prev)) == [Block(0, 0, |data|, Sha256(data))]
    ensures forall cas :: StageEmpty(cas, FileLayoutBlocks(SmallPut(path, data, prev))) == cas
    ensures HonestZeros(FileLayoutBlocks(SmallPut(path, data, prev)))
  {
    OneChunk(data);
    assert [Block(0, 0, |data|, Sha256(data))][1..] == [];
  }

  lemma SmallAssembles(s: Store, mutation: Id, path: Path, data: Bytes, prev: Option<Digest>)
    requires 1 <= |data| <= MAX_INLINE
    ensures var q := SmallRequest(mutation, path, data, prev);
            Assembles(WithInline(s, q), q.ops) && OwnBytes(WithInline(s, q), q.ops[0]) == Ok(data)
  {
    var q := SmallRequest(mutation, path, data, prev);
    OneChunk(data);
    SmallBlocks(path, data, prev);
    InlineIsStored(s, mutation, path, data, prev);
    CutIsAssembled(WithInline(s, q), [data], ConnectedHostCas);
    assert Descriptor(q.ops[0]) == DescriptorOf([data], ConnectedHostCas);
  }

  lemma SmallIsCommitted(s: State, c: Caller, mutation: Id, path: Path, data: Bytes, prev: Option<Digest>)
    requires Intact(s.store) && CleanInline(s.store.cas, [Inline(Sha256(data), |data|, data)])
    requires c.readWrite && KeyOf(c, mutation) !in s.receipts && 1 <= |data| <= MAX_INLINE
    ensures var q := SmallRequest(mutation, path, data, prev);
            && Committed(s, c, q)
            && FileBytes(Commit(s, c, q).0.store, DescriptorOf([data], ConnectedHostCas)) == Ok(data)
  {
    var q := SmallRequest(mutation, path, data, prev);
    SmallIsInForm(s, c, mutation, path, data, prev);
    SmallBlocks(path, data, prev);
    assert CleanBytes(s, c, q);
    SmallAssembles(s.store, mutation, path, data, prev);
    CommitIsForeseen(s, c, q);
    CommitKeepsBytesSent(s, c, q, 0);
  }

  /** A small file put inline is committed: applied exactly when its expectation holds,
      and then it is there and reads as the bytes sent. */
  lemma SmallPutIsCommitted(s: State, c: Caller, mutation: Id, path: Path, data: Bytes, prev: Option<Digest>)
    requires Intact(s.store) && CleanInline(s.store.cas, [Inline(Sha256(data), |data|, data)])
    requires c.readWrite && KeyOf(c, mutation) !in s.receipts && 1 <= |data| <= MAX_INLINE
    ensures var (s', r) := Commit(s, c, SmallRequest(mutation, path, data, prev));
            && r.Ok? && |r.value.verdicts| == 1
            && (if (if prev.None? then path !in s.ns.entries else Shown(s.ns.entries, path) == prev)
                then
                  && r.value.verdicts[0].AppliedAt? && IsFile(s'.ns.entries, path)
                  && s'.ns.entries[path].content.digest == Some(Sha256(data))
                  && FileBytes(s'.store, ContentDescriptor(s'.ns.entries[path].content)) == Ok(data)
                else r.value.verdicts[0] == RejectedWith(Shown(s.ns.entries, path)))
  {
    var q := SmallRequest(mutation, path, data, prev);
    OneChunk(data);
    SmallIsCommitted(s, c, mutation, path, data, prev);
    VerdictsAreExact(s, c, q);
    assert path in Footprint(q.ops[0]);
    assert Rewritten(s.ns, q.ops, Commit(s, c, q).0.ns, path);
  }
}
