/** Where a commit falls short of its promise: a reachable state and a request for each
    case, and when exactly a refused commit is atomic. */
module V2Shortfalls {
  import opened Prelude
  import opened TreeCodec
  import opened TreeStore
  import opened Admission
  import opened Layouts
  import opened V2Namespace
  import opened V2Batch
  import opened V2Outcome
  import opened V2State
  import opened V2Steps
  import opened V2Runs

  // ------------------------------------------------------------- refused commits

  /** A commit that a delete stops is refused and leaves no receipt; it leaves the
      namespace as it was exactly when nothing before that delete passes. */
  lemma RefusedCommitIsAtomic(s: State, c: Caller, q: CommitRequest, k: nat)
    requires Prepare(s, c, q).Ready? && k < |Prepare(s, c, q).items|
    requires StopsFirst(s.ns, Prepare(s, c, q).items, k) && Obstructed(s.ns, Prepare(s, c, q).items, k)
    ensures var (s', r) := Commit(s, c, q);
            && r == Rejected(DirectoryDeleteUnsupported) && s'.receipts == s.receipts
            && (s'.ns == s.ns <==> forall i | 0 <= i < k :: !Passes(s.ns, Prepare(s, c, q).items[i]))
  {
    ReadyIsDisjoint(s, c, q);
    RefusedBatchIsAtomic(s.ns, Prepare(s, c, q).items, k);
  }

  // ------------------------------------------------------------------- requests

  /** Operations that bring no file. */
  function Plain(ops: seq<Op>): seq<Item> {
    if ops == [] then [] else [Item(ops[0], None)] + Plain(ops[1..])
  }

  lemma {:induction false} PlainMaterialises(s: Store, ops: seq<Op>)
    requires forall i | 0 <= i < |ops| :: !IsFilePut(ops[i])
    ensures Materialise(s, ops) == Materialised(s, Ok(Plain(ops)))
    decreases |ops|
  {
    if ops != [] {
      PlainMaterialises(s, ops[1..]);
    }
  }

  /** A request of such operations comes to its verdict loop with an unchanged store. */
  lemma PlainIsReady(s: State, c: Caller, q: CommitRequest)
    requires c.readWrite && 1 <= |q.ops| <= MAX_OPS && q.inline == [] && KeyOf(c, q.mutation) !in s.receipts
    requires Normalize(q.ops, {}).None? && forall i | 0 <= i < |q.ops| :: !IsFilePut(q.ops[i])
    ensures Prepare(s, c, q) == Ready(s.store, Plain(q.ops))
  {
    assert StoreAll(s.store.cas, map[]) == s.store.cas;
    PlainMaterialises(s.store, q.ops);
  }

  // --------------------------------------------------------------------- states

  /** One file seeded into a new service. */
  function Seeded(path: Path, data: Bytes, size: nat): State {
    SeedColdFile(INITIAL, path, data, size).0
  }

  lemma SeededIsSound(path: Path, data: Bytes, size: nat)
    requires 0 < |data| <= MAX_FILE && |data| <= size <= MAX_TREE_SOURCE
    ensures var s := Seeded(path, data, size);
            && Invariant(s) && Refines(s.ns) && s.receipts == map[]
            && s.ns.entries == map[path := Entry(SeedContent(data, size), 1)]
            && (path in s.ns.files <==> size == |data|)
  {
    InvariantInitially();
    var e := Timed(0.0, Seeding(path, data, size));
    StepKeepsInvariant(INITIAL, e);
    StepKeepsJournal(INITIAL, e);
  }

  const A: Path := [97]
  const B: Path := [98]
  const D: Path := [100]
  const DX: Path := [100, 47, 120]

  // ------------------------------------------------------------------- examples

  /** A commit of plain operations is its batch. */
  lemma PlainCommit(s: State, c: Caller, q: CommitRequest)
    requires Prepare(s, c, q) == Ready(s.store, Plain(q.ops))
    ensures AllShaped(Plain(q.ops)) && Commit(s, c, q) == Finish(s, c, q, RunBatch(s.ns, Plain(q.ops)))
  {
    assert s.(store := s.store) == s;
  }

  /** Renames `a` to `b`. */
  function Renaming(kind: Option<Kind>, digest: Option<Digest>): Op {
    Op(Rename, A, kind, None, None, None, digest, Some(B), None, None)
  }

  lemma RenamingIsReady(s: State, c: Caller, q: CommitRequest, kind: Option<Kind>, digest: Option<Digest>)
    requires c.readWrite && q == CommitRequest(q.mutation, [Renaming(kind, digest)], [])
    requires KeyOf(c, q.mutation) !in s.receipts
    ensures var items := [Item(Renaming(kind, digest), None)];
            AllShaped(items) && Commit(s, c, q) == Finish(s, c, q, RunBatch(s.ns, items))
  {
    assert Normalize(q.ops, {}).None?;
    assert Plain(q.ops) == [Item(Renaming(kind, digest), None)];
    PlainIsReady(s, c, q);
    PlainCommit(s, c, q);
  }

  /** What the batch does to a namespace that holds only `a`. */
  lemma RenamingBatch(ns: Namespace, kind: Option<Kind>, content: Content)
    requires Refines(ns) && Wellformed(ns) && ns.entries == map[A := Entry(content, 1)] && content.kind == File
    requires (kind.Some? && kind.value != File) || A !in ns.files
    ensures var item := Item(Renaming(kind, content.digest), None);
            var b := RunBatch(ns, [item]);
            && !Refines(b.ns) && B in b.ns.entries
            && (if A in ns.files then b.end.Completed? && b.verdicts == [AppliedAt(|ns.journal| + 1)]
                else b.end.CrashedMidway?)
  {
    var op := Renaming(kind, content.digest);
    var items := [Item(op, None)];
    assert items[1..] == [] && Shaped(op, None);
    assert Judge(ns.entries, op).Pass?;
    CrashBreaksRefinement(ns, op, None);
    if A in ns.files {
      ApplyKeepsRefinement(ns, op, None);
    }
  }

  /** Renaming a seeded file `a` to `b` as a directory is applied, and the journal no
      longer describes the namespace. */
  lemma ForeignRenameExample(c: Caller, mutation: Id, data: Bytes)
    requires c.readWrite && 0 < |data| <= MAX_FILE
    ensures var s, content := Seeded(A, data, |data|), SeedContent(data, |data|);
            var (s', r) := Commit(s, c, CommitRequest(mutation, [Renaming(Some(Directory), content.digest)], []));
            && Refines(s.ns) && r.Ok? && r.value.verdicts == [AppliedAt(|s.ns.journal| + 1)]
            && B in s'.ns.entries && !Refines(s'.ns)
  {
    var s, content := Seeded(A, data, |data|), SeedContent(data, |data|);
    SeededIsSound(A, data, |data|);
    RenamingExample(s, c, mutation, Some(Directory), content);
  }

  /** How a commit answers for its batch. */
  lemma FinishAnswers(s: State, c: Caller, q: CommitRequest, b: BatchResult)
    ensures var (s', r) := Finish(s, c, q, b);
            && s'.ns == b.ns
            && (b.end.Completed? ==> r.Ok? && r.value.verdicts == b.verdicts)
            && (b.end.CrashedMidway? ==> r == Rejected(Crash))
  {
  }

  lemma RenamingExample(s: State, c: Caller, mutation: Id, kind: Option<Kind>, content: Content)
    requires c.readWrite && s.receipts == map[]
    requires Refines(s.ns) && Wellformed(s.ns)
    requires s.ns.entries == map[A := Entry(content, 1)] && content.kind == File
    requires (kind.Some? && kind.value != File) || A !in s.ns.files
    ensures var (s', r) := Commit(s, c, CommitRequest(mutation, [Renaming(kind, content.digest)], []));
            && B in s'.ns.entries && !Refines(s'.ns)
            && (if A in s.ns.files then r.Ok? && r.value.verdicts == [AppliedAt(|s.ns.journal| + 1)]
                else r == Rejected(Crash))
  {
    var q := CommitRequest(mutation, [Renaming(kind, content.digest)], []);
    RenamingIsReady(s, c, q, kind, content.digest);
    RenamingBatch(s.ns, kind, content);
    FinishAnswers(s, c, q, RunBatch(s.ns, [Item(Renaming(kind, content.digest), None)]));
  }

  /** Renaming a sparse seeded file dies half-way, and the journal no longer describes
      the namespace. */
  lemma SparseRenameExample(c: Caller, mutation: Id, data: Bytes, size: nat)
    requires c.readWrite && 0 < |data| <= MAX_FILE && |data| < size <= MAX_TREE_SOURCE
    ensures var s, content := Seeded(A, data, size), SeedContent(data, size);
            var (s', r) := Commit(s, c, CommitRequest(mutation, [Renaming(None, content.digest)], []));
            Refines(s.ns) && r == Rejected(Crash) && B in s'.ns.entries && !Refines(s'.ns)
  {
    var s, content := Seeded(A, data, size), SeedContent(data, size);
    SeededIsSound(A, data, size);
    RenamingExample(s, c, mutation, None, content);
  }

  /** Makes a directory `a`; deletes `d`. */
  const MAKE := Op(Put, A, Some(Directory), None, None, None, None, None, None, None)
  const REMOVE := Op(Delete, D, None, None, None, None, None, None, None, None)

  /** An operation on one path that brings no bytes. */
  predicate Lone(op: Op) {
    && !op.verb.Rename? && op.destination.None? && op.source.None? && op.sourcePrev.None?
    && (op.verb.Put? ==> op.kind == Some(Directory) && op.digest.None? && op.size.None? && op.layout.None?)
  }

  lemma PairIsNormal(a: Op, b: Op)
    requires Lone(a) && Lone(b) && a.path != b.path
    ensures Normalize([a, b], {}).None? && Plain([a, b]) == [Item(a, None), Item(b, None)]
  {
    assert [a, b][1..] == [b] && [b][1..] == [];
    assert Plain([b]) == [Item(b, None)];
    var seen: set<Path> := {};
    assert seen + Footprint(a) == {a.path};
    assert CheckOp(a, seen) == Ok({a.path}) && CheckOp(b, {a.path}).Ok?;
    assert Normalize([b], {a.path}).None?;
  }

  /** A request of two such operations is its batch. */
  lemma PairIsReady(s: State, c: Caller, q: CommitRequest, a: Op, b: Op)
    requires c.readWrite && q == CommitRequest(q.mutation, [a, b], []) && KeyOf(c, q.mutation) !in s.receipts
    requires Lone(a) && Lone(b) && a.path != b.path
    ensures AllShaped([Item(a, None), Item(b, None)])
    ensures Commit(s, c, q) == Finish(s, c, q, RunBatch(s.ns, [Item(a, None), Item(b, None)]))
  {
    PairIsNormal(a, b);
    PlainIsReady(s, c, q);
    PlainCommit(s, c, q);
  }

  lemma RefusedBatch(ns: Namespace)
    requires ns.entries.Keys == {DX}
    ensures var b := RunBatch(ns, [Item(MAKE, None), Item(REMOVE, None)]);
            b.end.RefusedMidway? && A in b.ns.entries
  {
    var items := [Item(MAKE, None), Item(REMOVE, None)];
    var tail := items[1..];
    assert tail == [Item(REMOVE, None)];
    var next := PutEntry(ns, MAKE, None);
    assert ApplyOp(ns, MAKE, None) == Applied(next);
    assert DX in next.entries && Below(DX, D);
    assert ApplyOp(next, REMOVE, None).RefusedDelete?;
    assert RunBatch(next, tail) == BatchResult(next, [], RefusedMidway);
  }

  lemma SeededAlone(path: Path, data: Bytes)
    requires 0 < |data| <= MAX_FILE
    ensures var s := Seeded(path, data, |data|); s.receipts == map[] && s.ns.entries.Keys == {path}
    ensures Observed(Seeded(path, data, |data|).ns.entries, path) == SeedContent(data, |data|).digest
  {
    SeededIsSound(path, data, |data|);
    OneEntry(Seeded(path, data, |data|).ns.entries, path, Entry(SeedContent(data, |data|), 1));
  }

  lemma OneEntry(entries: map<Path, Entry>, path: Path, e: Entry)
    requires entries == map[path := e]
    ensures entries.Keys == {path} && Observed(entries, path) == e.content.digest
  {
  }

  /** Making a directory `a` and deleting the non-empty `d` is refused; `a` is there and
      no receipt says so. */
  lemma RefusedCommitExample(c: Caller, mutation: Id, data: Bytes)
    requires c.readWrite && 0 < |data| <= MAX_FILE
    ensures var s := Seeded(DX, data, |data|);
            var (s', r) := Commit(s, c, CommitRequest(mutation, [MAKE, REMOVE], []));
            && r == Rejected(DirectoryDeleteUnsupported) && s'.receipts == map[]
            && A !in s.ns.entries && A in s'.ns.entries
  {
    SeededAlone(DX, data);
    RefusedOn(Seeded(DX, data, |data|), c, mutation);
  }

  lemma RefusedOn(s: State, c: Caller, mutation: Id)
    requires c.readWrite && s.receipts == map[] && s.ns.entries.Keys == {DX}
    ensures var (s', r) := Commit(s, c, CommitRequest(mutation, [MAKE, REMOVE], []));
            && r == Rejected(DirectoryDeleteUnsupported) && s'.receipts == map[]
            && A !in s.ns.entries && A in s'.ns.entries
  {
    PairIsReady(s, c, CommitRequest(mutation, [MAKE, REMOVE], []), MAKE, REMOVE);
    RefusedBatch(s.ns);
  }

  /** Deletes `d/x` at the digest it has. */
  function Drop(digest: Option<Digest>): Op {
    Op(Delete, DX, None, None, None, None, digest, None, None, None)
  }

  lemma DropsInOrder(ns: Namespace, digest: Option<Digest>)
    requires ns.entries.Keys == {DX} && Observed(ns.entries, DX) == digest
    ensures var file, directory := Item(Drop(digest), None), Item(REMOVE, None);
            && AllShaped([file, directory]) && AllShaped([directory, file])
            && RunBatch(ns, [file, directory]).end.Completed?
            && RunBatch(ns, [directory, file]).end.RefusedMidway?
  {
    DirectoryFirstIsRefused(ns, Item(Drop(digest), None), Item(REMOVE, None));
  }

  /** The order of a request decides: deleting `d/x` and then `d` is committed, deleting
      `d` and then `d/x` is refused. */
  lemma OrderExample(c: Caller, mutation: Id, data: Bytes)
    requires c.readWrite && 0 < |data| <= MAX_FILE
    ensures var s, drop := Seeded(DX, data, |data|), Drop(SeedContent(data, |data|).digest);
            && Commit(s, c, CommitRequest(mutation, [drop, REMOVE], [])).1.Ok?
            && Commit(s, c, CommitRequest(mutation, [REMOVE, drop], [])).1 == Rejected(DirectoryDeleteUnsupported)
  {
    SeededAlone(DX, data);
    OrderOn(Seeded(DX, data, |data|), c, mutation, SeedContent(data, |data|).digest);
  }

  lemma OrderOn(s: State, c: Caller, mutation: Id, digest: Option<Digest>)
    requires c.readWrite && s.receipts == map[] && s.ns.entries.Keys == {DX} && Observed(s.ns.entries, DX) == digest
    ensures Commit(s, c, CommitRequest(mutation, [Drop(digest), REMOVE], [])).1.Ok?
    ensures Commit(s, c, CommitRequest(mutation, [REMOVE, Drop(digest)], [])).1 == Rejected(DirectoryDeleteUnsupported)
  {
    PairIsReady(s, c, CommitRequest(mutation, [Drop(digest), REMOVE], []), Drop(digest), REMOVE);
    PairIsReady(s, c, CommitRequest(mutation, [REMOVE, Drop(digest)], []), REMOVE, Drop(digest));
    DropsInOrder(s.ns, digest);
  }

  lemma OneBlockRuns(b: Block)
    requires 0 <= b.size <= MAX_BLOCK
    ensures Running([b], b.index, b.offset) && Total([b]) == b.size
  {
    assert [b][1..] == [];
  }

  /** One put whose zero-length block carries another digest breaks the content
      addressing of a new service. */
  lemma DishonestZeroExample(c: Caller, mutation: Id, wrong: Digest, file: Digest, block: Digest)
    requires c.readWrite && wrong != EmptySha256()
    ensures var blocks := [Block(0, 0, 0, wrong), Block(1, 0, 1, block)];
            var layout := Blocks(1, 2, 1, ConnectedHostCas, blocks);
            var op := Op(Put, A, Some(File), Some(file), Some(1), Some(layout), None, None, None, None);
            !WellHashed(Commit(INITIAL, c, CommitRequest(mutation, [op], [])).0.store.cas)
  {
    var blocks := [Block(0, 0, 0, wrong), Block(1, 0, 1, block)];
    var layout := Blocks(1, 2, 1, ConnectedHostCas, blocks);
    var op := Op(Put, A, Some(File), Some(file), Some(1), Some(layout), None, None, None, None);
    var q := CommitRequest(mutation, [op], []);
    OneBlockRuns(blocks[1]);
    assert blocks[1..] == [blocks[1]];
    assert Geometry(1, layout);
    assert Normalize([op], {}).None?;
    var start := Assembling(INITIAL, c, q).value;
    assert Entered(start, q.ops) >= 1 && q.ops[0] == op;
    assert !HonestZeros(FileLayoutBlocks(op)) by {
      assert blocks[0].size == 0;
    }
    CommitIsHonest(INITIAL, c, q);
  }
}
