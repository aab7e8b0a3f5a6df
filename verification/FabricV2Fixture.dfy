/** The service object: the dictionaries that the handlers update in place, each
    handler proved against its step. */
module FabricV2Fixture {
  import opened Prelude
  import opened TreeCodec
  import opened TreeStore
  import opened Admission
  import opened Layouts
  import opened V2Namespace
  import opened V2Batch
  import opened V2State
  import opened V2Steps

  /** How one turn of the verdict loop ends. */
  datatype Turn = TurnApplied | TurnSkipped(observed: Option<Digest>) | TurnRefused | TurnCrashed

  class Fixture {
    var cas: Cas
    var treeNodes: set<NodeKey>
    var dataProofs: set<Obj>
    var entries: map<Path, Entry>
    var files: map<Path, Bytes>
    var fileBlocks: map<Path, Layout>
    var journal: Journal
    var receipts: map<ReceiptKey, Stamped>
    var holds: map<HoldKey, Hold>
    var holdsAcquired: nat
    var holdsReleased: nat

    ghost function StoreNow(): Store
      reads this
    {
      Store(cas, treeNodes, dataProofs)
    }

    ghost function NamespaceNow(): Namespace
      reads this
    {
      Namespace(entries, files, fileBlocks, journal)
    }

    ghost function Now(): State
      reads this
    {
      State(StoreNow(), NamespaceNow(), receipts, holds, holdsAcquired, holdsReleased)
    }

    constructor ()
      ensures Now() == INITIAL
    {
      cas, treeNodes, dataProofs := map[], {}, {};
      entries, files, fileBlocks, journal := map[], map[], map[], [];
      receipts, holds, holdsAcquired, holdsReleased := map[], map[], 0, 0;
    }

    // ----------------------------------------------------------------- commit

    /** Normalization, with its set of paths seen so far. */
    method NormalizeOps(ops: seq<Op>) returns (fault: Option<Fault>)
      ensures fault == Normalize(ops, {})
    {
      var seen: set<Path> := {};
      for i := 0 to |ops|
        invariant Normalize(ops, {}) == Normalize(ops[i..], seen)
      {
        assert ops[i..][1..] == ops[i + 1..];
        var next := CheckOp(ops[i], seen);
        if next.Rejected? {
          return Some(next.fault);
        }
        seen := next.value;
      }
      return None;
    }

    method StageBlocks(required: map<Digest, int>, inline: seq<Inline>) returns (r: Result<map<Digest, Bytes>>)
      ensures r == StageInline(required, inline, map[])
    {
      var staged: map<Digest, Bytes> := map[];
      for i := 0 to |inline|
        invariant StageInline(required, inline, map[]) == StageInline(required, inline[i..], staged)
      {
        assert inline[i..][1..] == inline[i + 1..];
        var b := inline[i];
        if !(1 <= b.size <= MAX_INLINE) {
          return Rejected(InlineInvalid);
        }
        if b.digest !in required || required[b.digest] != b.size || b.digest in staged
           || |b.data| != b.size || Sha256(b.data) != b.digest {
          return Rejected(InlineMismatch);
        }
        staged := staged[b.digest := b.data];
      }
      return Ok(staged);
    }

    /** Zero-length blocks enter the store before their file is assembled. */
    method StageEmptyBlocks(blocks: seq<Block>)
      modifies this`cas
      ensures cas == StageEmpty(old(cas), blocks)
    {
      for i := 0 to |blocks|
        invariant StageEmpty(old(cas), blocks) == StageEmpty(cas, blocks[i..])
      {
        assert blocks[i..][1..] == blocks[i + 1..];
        if blocks[i].size == 0 {
          cas := PutObject(cas, blocks[i].digest, []);
        }
      }
    }

    ghost function Glue(front: seq<Item>, m: Materialised): Materialised {
      if m.items.Rejected? then m else m.(items := Ok(front + m.items.value))
    }

    /** One turn of the materialisation loop. */
    lemma GlueStep(front: seq<Item>, s: Store, ops: seq<Op>)
      requires ops != []
      ensures var s1 := s.(cas := StageEmpty(s.cas, FileLayoutBlocks(ops[0])));
              var data := if IsFilePut(ops[0]) then FileBytes(s1, Descriptor(ops[0])) else Ok([]);
              var item := Item(ops[0], if data.Ok? && IsFilePut(ops[0]) then Some(data.value) else None);
              Glue(front, Materialise(s, ops))
              == if data.Rejected? then Materialised(s1, Rejected(data.fault))
                 else Glue(front + [item], Materialise(s1, ops[1..]))
    {
      var s1 := s.(cas := StageEmpty(s.cas, FileLayoutBlocks(ops[0])));
      var rest := Materialise(s1, ops[1..]);
      var all := Materialise(s, ops);
      if all.items.Ok? {
        assert front + all.items.value == front + [all.items.value[0]] + rest.items.value;
      }
    }

    /** Assembles the bytes of every put. */
    method MaterialiseOps(ops: seq<Op>) returns (r: Result<seq<Item>>)
      modifies this`cas
      ensures Materialised(StoreNow(), r) == Materialise(old(StoreNow()), ops)
    {
      var items: seq<Item> := [];
      ghost var whole := Materialise(StoreNow(), ops);
      assert Glue([], whole) == whole by {
        assert whole.items.Ok? ==> [] + whole.items.value == whole.items.value;
      }
      for i := 0 to |ops|
        invariant treeNodes == old(treeNodes) && dataProofs == old(dataProofs)
        invariant whole == Glue(items, Materialise(StoreNow(), ops[i..]))
      {
        assert ops[i..][0] == ops[i] && ops[i..][1..] == ops[i + 1..];
        GlueStep(items, StoreNow(), ops[i..]);
        StageEmptyBlocks(FileLayoutBlocks(ops[i]));
        var item := Item(ops[i], None);
        if IsFilePut(ops[i]) {
          var data := FileBytes(Store(cas, treeNodes, dataProofs), Descriptor(ops[i]));
          if data.Rejected? {
            return Rejected(data.fault);
          }
          item := Item(ops[i], Some(data.value));
        }
        items := items + [item];
      }
      assert items + [] == items;
      return Ok(items);
    }

    /** One operation, dictionary by dictionary. */
    method ApplyOne(op: Op, data: Option<Bytes>) returns (turn: Turn)
      requires Shaped(op, data)
      modifies this`entries, this`files, this`fileBlocks, this`journal
      ensures match ApplyOp(old(NamespaceNow()), op, data)
              case Applied(ns) => turn == TurnApplied && NamespaceNow() == ns
              case Skipped(observed) => turn == TurnSkipped(observed) && NamespaceNow() == old(NamespaceNow())
              case RefusedDelete => turn == TurnRefused && NamespaceNow() == old(NamespaceNow())
              case Crashed(ns) => turn == TurnCrashed && NamespaceNow() == ns
    {
      var verdict := Judge(entries, op);
      if verdict.Diverged? {
        return TurnSkipped(verdict.observed);
      }
      if op.verb.Delete? && HasDescendant(entries, op.path) {
        return TurnRefused;
      }
      var number := |journal| + 1;
      var kind := op.kind.GetOr(if op.path in entries then entries[op.path].content.kind else File);
      match op.verb {
        case Rename =>
          var to, content := op.destination.value, entries[op.path].content;
          entries := entries - {op.path};
          entries := entries[to := Entry(content, number)];
          if op.path !in files {
            return TurnCrashed;
          }
          var bytes := files[op.path];
          files := files - {op.path};
          files := files[to := bytes];
          if op.path !in fileBlocks {
            return TurnCrashed;
          }
          var layout := fileBlocks[op.path];
          fileBlocks := fileBlocks - {op.path};
          fileBlocks := fileBlocks[to := layout];
          var written := Content(kind, content.size, content.digest, Some(layout));
          journal := journal + [Record(number, op.path, Rename, written, op.prev, op.destination, None, None)];
        case Put =>
          var size := if data.Some? then |data.value| else 0;
          var layout := if data.Some? then op.layout else None;
          entries := entries[op.path := Entry(Content(kind, size, op.digest, layout), number)];
          if data.Some? {
            files := files[op.path := data.value];
            fileBlocks := fileBlocks[op.path := op.layout.value];
          }
          if op.source.Some? {
            entries := entries - {op.source.value};
            files := files - {op.source.value};
            fileBlocks := fileBlocks - {op.source.value};
          }
          var written := Content(kind, op.size.GetOr(0), op.digest, layout);
          journal := journal + [Record(number, op.path, Put, written, op.prev, None, op.source, op.sourcePrev)];
        case Delete =>
          entries := entries - {op.path};
          files := files - {op.path};
          fileBlocks := fileBlocks - {op.path};
          var written := Content(kind, op.size.GetOr(0), op.digest, None);
          journal := journal + [Record(number, op.path, Delete, written, op.prev, None, None, None)];
      }
      return TurnApplied;
    }

    ghost function Front(front: seq<OpVerdict>, b: BatchResult): BatchResult {
      b.(verdicts := front + b.verdicts)
    }

    /** The verdict loop. */
    method ApplyBatch(items: seq<Item>) returns (verdicts: seq<OpVerdict>, end: End)
      requires AllShaped(items)
      modifies this`entries, this`files, this`fileBlocks, this`journal
      ensures BatchResult(NamespaceNow(), verdicts, end) == RunBatch(old(NamespaceNow()), items)
    {
      verdicts := [];
      ghost var whole := RunBatch(NamespaceNow(), items);
      assert [] + whole.verdicts == whole.verdicts;
      for i := 0 to |items|
        invariant whole == Front(verdicts, RunBatch(NamespaceNow(), items[i..]))
      {
        ghost var before, rest := NamespaceNow(), items[i..];
        assert rest[0] == items[i] && rest[1..] == items[i + 1..];
        var number := |journal| + 1;
        var turn := ApplyOne(items[i].op, items[i].data);
        match turn {
          case TurnApplied =>
            Regroup(verdicts, AppliedAt(number), RunBatch(NamespaceNow(), items[i + 1..]));
            verdicts := verdicts + [AppliedAt(number)];
          case TurnSkipped(observed) =>
            Regroup(verdicts, RejectedWith(observed), RunBatch(NamespaceNow(), items[i + 1..]));
            verdicts := verdicts + [RejectedWith(observed)];
          case TurnRefused =>
            assert verdicts + [] == verdicts;
            return verdicts, RefusedMidway;
          case TurnCrashed =>
            assert verdicts + [] == verdicts;
            return verdicts, CrashedMidway;
        }
      }
      assert verdicts + [] == verdicts;
      return verdicts, Completed;
    }

    lemma Regroup(front: seq<OpVerdict>, v: OpVerdict, b: BatchResult)
      ensures Front(front, After(v, b)) == Front(front + [v], b)
    {
      assert front + ([v] + b.verdicts) == front + [v] + b.verdicts;
    }

    /** Everything before the verdict loop; only the store may have changed. */
    method PrepareBatch(c: Caller, q: CommitRequest) returns (p: Plan)
      modifies this`cas
      ensures p == Prepare(old(Now()), c, q)
      ensures StoreNow() == if p.Failed? || p.Ready? then p.store else old(StoreNow())
    {
      if !c.readWrite {
        return Refused(WriteForbidden);
      }
      if !(1 <= |q.ops| <= MAX_OPS) {
        return Refused(OpsInvalid);
      }
      var key := KeyOf(c, q.mutation);
      if key in receipts {
        var prior := receipts[key];
        if prior.attachment != c.attachment || prior.request != q {
          return Refused(IdempotencyConflict);
        }
        return Repeated(prior.receipt);
      }
      var fault := NormalizeOps(q.ops);
      if fault.Some? {
        return Refused(fault.value);
      }
      if |q.inline| > MAX_INLINE_BLOCKS {
        return Refused(InlineInvalid);
      }
      var staged := StageBlocks(Required(q.ops), q.inline);
      if staged.Rejected? {
        return Refused(staged.fault);
      }
      cas := StoreAll(cas, staged.value);
      var items := MaterialiseOps(q.ops);
      if items.Rejected? {
        return Failed(Store(cas, treeNodes, dataProofs), items.fault);
      }
      return Ready(Store(cas, treeNodes, dataProofs), items.value);
    }

    method CommitBatch(c: Caller, q: CommitRequest) returns (r: Result<Receipt>)
      modifies this
      ensures (Now(), r) == Commit(old(Now()), c, q)
    {
      var plan := PrepareBatch(c, q);
      match plan {
        case Refused(fault) => return Rejected(fault);
        case Repeated(receipt) => return Ok(receipt);
        case Failed(_, fault) => return Rejected(fault);
        case Ready(_, items) =>
          var verdicts, end := ApplyBatch(items);
          match end {
            case RefusedMidway => return Rejected(DirectoryDeleteUnsupported);
            case CrashedMidway => return Rejected(Crash);
            case Completed =>
              var receipt := Receipt(q.mutation, |journal|, verdicts);
              receipts := receipts[KeyOf(c, q.mutation) := Stamped(c.attachment, q, receipt)];
              return Ok(receipt);
          }
      }
    }

    // ------------------------------------------------------------------ holds

    /** What a new hold is checked for. */
    method CheckAcquire(c: Caller, q: HoldRequest) returns (fault: Option<Fault>)
      ensures fault == RefuseAcquire(Now(), c, q)
    {
      if q.size > MAX_TREE_SOURCE {
        return Some(HoldInvalid);
      }
      if q.write && !c.readWrite {
        return Some(WriteForbidden);
      }
      if q.path !in entries || entries[q.path].content.kind != File {
        return Some(HoldVersionStale);
      }
      var content := entries[q.path].content;
      if content.digest != Some(q.digest) || content.size != q.size {
        return Some(HoldVersionStale);
      }
      fault := Validates(Store(cas, treeNodes, dataProofs), ContentDescriptor(content));
      if fault.None? && |holds| >= MAX_HOLDS {
        fault := Some(HoldLimit);
      }
    }

    method HoldFile(c: Caller, now: real, q: HoldRequest) returns (r: Result<HoldReply>)
      modifies this`holds, this`holdsAcquired, this`holdsReleased
      ensures (Now(), r) == FileHold(old(Now()), c, now, q)
    {
      var key := HoldKey(c.session, c.host, q.hold);
      if !(MIN_HOLD_TTL <= q.ttl <= MAX_HOLD_TTL) {
        return Rejected(HoldInvalid);
      }
      if key in holds && (holds[key].attachment != c.attachment || holds[key].generation != c.generation) {
        return Rejected(HoldBindingStale);
      }
      if q.action.Release? {
        if key in holds && !holds[key].released {
          holds := holds[key := holds[key].(released := true)];
          holdsReleased := holdsReleased + 1;
        }
        return Ok(Released);
      }
      var held;
      if key in holds {
        held := holds[key];
        if q.action.Acquire?
           && (q.path != held.path || Some(q.digest) != held.content.digest
               || q.size != held.content.size || q.write != held.write) {
          return Rejected(HoldIdentityConflict);
        }
        if held.released || ExpiredAt(held, now) {
          return Rejected(HoldExpired);
        }
      } else if !q.action.Acquire? {
        return Rejected(HoldExpired);
      } else {
        var fault := CheckAcquire(c, q);
        if fault.Some? {
          return Rejected(fault.value);
        }
        held := Hold(q.path, entries[q.path].content, q.write, false, c.attachment, c.generation,
                     if q.write then None else Some(now + q.ttl as real));
        holdsAcquired := holdsAcquired + 1;
      }
      held := Prolong(held, q, now);
      holds := holds[key := held];
      return Ok(Live(held));
    }

    // ----------------------------------------------------------- verification

    method VerifyBlocks(blocks: seq<Obj>) returns (fault: Option<Fault>)
      ensures fault == VerifyEach(cas, blocks)
    {
      for i := 0 to |blocks|
        invariant VerifyEach(cas, blocks) == VerifyEach(cas, blocks[i..])
      {
        assert blocks[i..][1..] == blocks[i + 1..];
        var r := VerifyBlock(cas, blocks[i].digest, blocks[i].size);
        if r.Rejected? {
          return Some(r.fault);
        }
      }
      return None;
    }

    method CollectCandidates(sizes: map<Digest, nat>, nodes: seq<Submitted>) returns (r: Result<seq<Candidate>>)
      ensures r == Candidates(sizes, nodes, [])
    {
      var found: seq<Candidate> := [];
      for i := 0 to |nodes|
        invariant AllParse(found)
        invariant Candidates(sizes, nodes, []) == Candidates(sizes, nodes[i..], found)
      {
        assert nodes[i..][1..] == nodes[i + 1..];
        var n := nodes[i];
        if n.digest !in sizes || sizes[n.digest] != |n.raw| || Sha256(n.raw) != n.digest
           || exists c | c in found :: c.digest == n.digest {
          return Rejected(TreeInvalid);
        }
        var height := HeightByte(n.raw);
        var children := TreeNode(n.raw, height);
        if children.None? {
          return Rejected(TreeInvalid);
        }
        MaxHeightIsFour();
        found := found + [Candidate(n.digest, n.raw, height)];
      }
      return Ok(found);
    }

    /** Admission in ascending height, into a copy of the node set. */
    method AdmitSorted(s: Store, candidates: seq<Candidate>) returns (r: Result<Store>)
      requires AllParse(candidates)
      ensures r == Admit(s, candidates)
    {
      var nodes := s.nodes;
      for i := 0 to |candidates|
        invariant Admit(s, candidates) == Admit(s.(nodes := nodes), candidates[i..])
      {
        assert candidates[i..][1..] == candidates[i + 1..];
        var c := candidates[i];
        assert Parses(c);
        var fault := CheckChildren(s.(nodes := nodes), ParseNode(c.raw, c.height).value, c.height - 1);
        if fault.Some? {
          return Rejected(fault.value);
        }
        nodes := nodes + {Key(c)};
      }
      return Ok(s.(nodes := nodes));
    }

    method VerifyTree(
        blocks: seq<Obj>, submitted: seq<Submitted>, targets: Option<Fault>) returns (fault: Option<Fault>)
      modifies this`treeNodes, this`dataProofs
      ensures (Now(), fault) == TreeVerify(old(Now()), blocks, submitted, targets)
    {
      fault := CheckBlocks(blocks, MAX_VERIFICATIONS);
      if fault.Some? {
        return;
      }
      fault := VerifyBlocks(blocks);
      if fault.Some? {
        return;
      }
      var sizes := SizesOf(blocks);
      if |submitted| > |sizes| {
        return Some(TreeInvalid);
      }
      var candidates := CollectCandidates(sizes, submitted);
      if candidates.Rejected? {
        return Some(candidates.fault);
      }
      SortByHeightSorts(candidates.value);
      var proofs := dataProofs + set d | d in sizes :: Obj(d, sizes[d]);
      var next := AdmitSorted(Store(cas, treeNodes, proofs), SortByHeight(candidates.value));
      if next.Rejected? {
        return Some(next.fault);
      }
      if targets.Some? {
        return targets;
      }
      treeNodes, dataProofs := next.value.nodes, proofs;
    }

    // ---------------------------------------------------- uploads and seeding

    method DirectPut(data: Bytes)
      modifies this`cas
      ensures Now() == Upload(old(Now()), data)
    {
      if Sha256(data) !in cas {
        cas := PutObject(cas, Sha256(data), data);
      }
    }

    /** A tree of one data reference over the given bytes. */
    method SeedTree(data: Bytes, size: nat) returns (content: Content)
      requires size <= MAX_TREE_SOURCE && |data| <= size
      ensures content == SeedContent(data, size)
    {
      var height := TreeHeight(size);
      HeightIsAtMostFour(size);
      var root := PrintRef(SeedRoot(data));
      var digest := Sha256(IdentityPreimage(size, height, root));
      return Content(File, size, Some(digest), Some(Tree(TreeDescriptor(size, height, root), ConnectedHostCas)));
    }

    method EnterSeed(path: Path, data: Bytes, size: nat)
      requires size <= MAX_TREE_SOURCE && |data| <= size
      modifies this`entries, this`files, this`fileBlocks, this`journal
      ensures NamespaceNow() == SeedNamespace(old(NamespaceNow()), path, data, size)
    {
      var content := SeedTree(data, size);
      var number := |journal| + 1;
      entries := entries[path := Entry(content, number)];
      if size == |data| {
        files := files[path := data];
        fileBlocks := fileBlocks[path := content.layout.value];
      }
      journal := journal + [Record(number, path, Put, content, None, None, None, None)];
    }

    method SeedCold(path: Path, data: Bytes, size: nat) returns (fault: Option<Fault>)
      modifies this
      ensures (Now(), fault) == SeedColdFile(old(Now()), path, data, size)
    {
      if path in entries || !(0 < |data| <= MAX_FILE) || !(|data| <= size <= MAX_TREE_SOURCE) {
        return Some(SeedInvalid);
      }
      cas := PutObject(cas, Sha256(data), data);
      dataProofs := dataProofs + {Obj(Sha256(data), |data|)};
      EnterSeed(path, data, size);
      return None;
    }
  }
}
