/** The Fabric v2 service: one state, and every signed request as one step. */
module V2State {
  import opened Prelude
  import opened TreeCodec
  import opened TreeStore
  import opened Admission
  import opened Layouts
  import opened V2Namespace
  import opened V2Batch

  /** What authentication and the attachment lookup have established. */
  datatype Caller = Caller(
    session: Id, host: Id, generation: nat, attachment: Id, readWrite: bool, lease: real)

  datatype Inline = Inline(digest: Digest, size: nat, data: Bytes)

  datatype CommitRequest = CommitRequest(mutation: Id, ops: seq<Op>, inline: seq<Inline>)

  datatype ReceiptKey = ReceiptKey(host: Id, generation: nat, session: Id, mutation: Id)

  datatype Receipt = Receipt(mutation: Id, number: nat, verdicts: seq<OpVerdict>)

  /** A receipt is bound to the exact request, attachment included. */
  datatype Stamped = Stamped(attachment: Id, request: CommitRequest, receipt: Receipt)

  datatype HoldKey = HoldKey(session: Id, host: Id, hold: Id)

  datatype Hold = Hold(
    path: Path, content: Content, write: bool, released: bool,
    attachment: Id, generation: nat, deadline: Option<real>)

  datatype State = State(
    store: Store, ns: Namespace, receipts: map<ReceiptKey, Stamped>,
    holds: map<HoldKey, Hold>, acquired: nat, released: nat)

  const INITIAL := State(Store(map[], {}, {}), EMPTY_NAMESPACE, map[], map[], 0, 0)

  // ------------------------------------------------------------ inline blocks

  const MAX_INLINE := 262144

  function FileLayoutBlocks(op: Op): seq<Block> {
    if IsFilePut(op) && op.layout.Some? && op.layout.value.Blocks? then op.layout.value.blocks else []
  }

  /** The block sizes that a batch's descriptors ask for, the last one winning. */
  function Required(ops: seq<Op>): map<Digest, int> {
    if ops == [] then map[]
    else RequiredBlocks(FileLayoutBlocks(ops[0])) + Required(ops[1..])
  }

  function RequiredBlocks(blocks: seq<Block>): map<Digest, int> {
    if blocks == [] then map[]
    else map[blocks[0].digest := blocks[0].size] + RequiredBlocks(blocks[1..])
  }

  /** All inline blocks of a request, or why they are refused. */
  function StageInline(
      required: map<Digest, int>, inline: seq<Inline>, staged: map<Digest, Bytes>): Result<map<Digest, Bytes>>
    decreases |inline|
  {
    if inline == [] then Ok(staged)
    else
      var b := inline[0];
      if !(1 <= b.size <= MAX_INLINE) then Rejected(InlineInvalid)
      else if b.digest !in required || required[b.digest] != b.size || b.digest in staged
              || |b.data| != b.size || Sha256(b.data) != b.digest
      then Rejected(InlineMismatch)
      else StageInline(required, inline[1..], staged[b.digest := b.data])
  }

  /** An inline block that the batch asked for, honest about its bytes. */
  predicate Wanted(required: map<Digest, int>, b: Inline) {
    && 1 <= b.size <= MAX_INLINE && b.digest in required && required[b.digest] == b.size
    && |b.data| == b.size && Sha256(b.data) == b.digest
  }

  ghost predicate DistinctInline(inline: seq<Inline>) {
    forall i, j | 0 <= i < j < |inline| :: inline[i].digest != inline[j].digest
  }

  /** The bytes of inline blocks by their digests. */
  function InlineBytes(inline: seq<Inline>): map<Digest, Bytes> {
    if inline == [] then map[] else map[inline[0].digest := inline[0].data] + InlineBytes(inline[1..])
  }

  ghost predicate Stageable(required: map<Digest, int>, inline: seq<Inline>, staged: map<Digest, Bytes>) {
    && DistinctInline(inline)
    && forall i | 0 <= i < |inline| :: Wanted(required, inline[i]) && inline[i].digest !in staged
  }

  lemma StageableStep(required: map<Digest, int>, inline: seq<Inline>, staged: map<Digest, Bytes>)
    requires inline != []
    ensures Stageable(required, inline, staged)
            <==> Wanted(required, inline[0]) && inline[0].digest !in staged
                 && Stageable(required, inline[1..], staged[inline[0].digest := inline[0].data])
  {
    assert forall i | 1 <= i < |inline| :: inline[i] == inline[1..][i - 1];
    assert forall i | 0 <= i < |inline[1..]| :: inline[1..][i] == inline[i + 1];
  }

  lemma InlineBytesStep(inline: seq<Inline>, staged: map<Digest, Bytes>)
    requires inline != []
    ensures staged[inline[0].digest := inline[0].data] + InlineBytes(inline[1..]) == staged + InlineBytes(inline)
  {
  }

  /** Inline blocks are staged exactly when each is wanted and none comes twice; then all
      of them are. */
  lemma {:induction false} StageIsExact(required: map<Digest, int>, inline: seq<Inline>, staged: map<Digest, Bytes>)
    ensures StageInline(required, inline, staged).Ok? <==> Stageable(required, inline, staged)
    ensures Stageable(required, inline, staged) ==>
              StageInline(required, inline, staged) == Ok(staged + InlineBytes(inline))
    decreases |inline|
  {
    if inline == [] {
      assert staged + InlineBytes(inline) == staged;
    } else {
      var b := inline[0];
      StageableStep(required, inline, staged);
      StageIsExact(required, inline[1..], staged[b.digest := b.data]);
      InlineBytesStep(inline, staged);
    }
  }

  function StoreAll(cas: Cas, staged: map<Digest, Bytes>): Cas {
    cas + map d | d in staged :: Stored(staged[d], |staged[d]|)
  }

  lemma {:induction false} StagedHashes(required: map<Digest, int>, inline: seq<Inline>, staged: map<Digest, Bytes>)
    requires StageInline(required, inline, staged).Ok?
    requires forall d | d in staged :: Sha256(staged[d]) == d
    ensures var out := StageInline(required, inline, staged).value;
            forall d | d in out ::
              Sha256(out[d]) == d && (d in staged || exists i :: 0 <= i < |inline| && out[d] == inline[i].data)
    decreases |inline|
  {
    if inline != [] {
      var b := inline[0];
      StagedHashes(required, inline[1..], staged[b.digest := b.data]);
      var out := StageInline(required, inline, staged).value;
      forall d | d in out
        ensures d in staged || exists i :: 0 <= i < |inline| && out[d] == inline[i].data
      {
        if d !in staged && exists i :: 0 <= i < |inline[1..]| && out[d] == inline[1..][i].data {
          var i :| 0 <= i < |inline[1..]| && out[d] == inline[1..][i].data;
          assert out[d] == inline[i + 1].data;
        } else if d !in staged {
          StagedStays(required, inline[1..], staged[b.digest := b.data], b.digest);
          assert out[d] == inline[0].data;
        }
      }
    }
  }

  lemma {:induction false} StagedStays(
      required: map<Digest, int>, inline: seq<Inline>, staged: map<Digest, Bytes>, d: Digest)
    requires StageInline(required, inline, staged).Ok? && d in staged
    ensures var out := StageInline(required, inline, staged).value; d in out && out[d] == staged[d]
    decreases |inline|
  {
    if inline != [] {
      StagedStays(required, inline[1..], staged[inline[0].digest := inline[0].data], d);
    }
  }

  lemma StoreAllIsImmutable(s: Store, staged: map<Digest, Bytes>)
    requires Intact(s)
    requires forall d | d in staged :: Sha256(staged[d]) == d && Collisionless(s.cas, staged[d])
    ensures var s' := s.(cas := StoreAll(s.cas, staged)); Intact(s') && Extends(s, s')
  {
    ClosedSurvivesObjects(s, s.(cas := StoreAll(s.cas, staged)));
  }

  // -------------------------------------------------------- zero-length blocks

  /** The empty object is stored under whatever digest a zero-length block carries. */
  function StageEmpty(cas: Cas, blocks: seq<Block>): Cas
    decreases |blocks|
  {
    if blocks == [] then cas
    else StageEmpty(if blocks[0].size == 0 then PutObject(cas, blocks[0].digest, []) else cas, blocks[1..])
  }

  /** Zero-length blocks carry the digest of nothing. */
  predicate HonestZeros(blocks: seq<Block>) {
    forall i | 0 <= i < |blocks| && blocks[i].size == 0 :: blocks[i].digest == EmptySha256()
  }

  /** The store stays well hashed exactly when they do. */
  lemma {:induction false} StageEmptyIsHonest(cas: Cas, blocks: seq<Block>)
    requires forall d | d in cas && Sha256(cas[d].data) != d :: cas[d].data == []
    requires forall d | d in cas :: cas[d].size == |cas[d].data|
    ensures WellHashed(StageEmpty(cas, blocks)) <==> WellHashed(cas) && HonestZeros(blocks)
    decreases |blocks|
  {
    if blocks != [] {
      var next := if blocks[0].size == 0 then PutObject(cas, blocks[0].digest, []) else cas;
      StageEmptyIsHonest(next, blocks[1..]);
      assert HonestZeros(blocks) <==>
        (blocks[0].size == 0 ==> blocks[0].digest == EmptySha256()) && HonestZeros(blocks[1..]);
      if blocks[0].size == 0 && blocks[0].digest != EmptySha256() {
        assert next[blocks[0].digest].data == [];
      }
      if !WellHashed(cas) {
        var d :| d in cas && Sha256(cas[d].data) != d;
        assert cas[d].data == [];
        assert d in next && next[d].data == [];
      }
    }
  }

  lemma {:induction false} StageEmptyIsImmutable(s: Store, blocks: seq<Block>)
    requires Intact(s) && Collisionless(s.cas, []) && HonestZeros(blocks)
    ensures var s' := s.(cas := StageEmpty(s.cas, blocks));
            Intact(s') && Extends(s, s') && Collisionless(s'.cas, [])
    decreases |blocks|
  {
    if blocks != [] {
      assert HonestZeros(blocks[1..]);
      if blocks[0].size == 0 {
        PutObjectIsImmutable(s, []);
        StageEmptyIsImmutable(s.(cas := PutObject(s.cas, EmptySha256(), [])), blocks[1..]);
      } else {
        StageEmptyIsImmutable(s, blocks[1..]);
      }
    }
  }

  // ---------------------------------------------------------- materialisation

  datatype Materialised = Materialised(store: Store, items: Result<seq<Item>>)

  /** Each put's bytes are assembled from the store before anything is applied. */
  function Materialise(s: Store, ops: seq<Op>): (m: Materialised)
    ensures m.items.Ok? ==> |m.items.value| == |ops|
    decreases |ops|
  {
    if ops == [] then Materialised(s, Ok([]))
    else
      var s1 := s.(cas := StageEmpty(s.cas, FileLayoutBlocks(ops[0])));
      var data := if IsFilePut(ops[0]) then FileBytes(s1, Descriptor(ops[0])) else Ok([]);
      if data.Rejected? then Materialised(s1, Rejected(data.fault))
      else
        var rest := Materialise(s1, ops[1..]);
        var item := Item(ops[0], if IsFilePut(ops[0]) then Some(data.value) else None);
        Materialised(rest.store, if rest.items.Ok? then Ok([item] + rest.items.value) else rest.items)
  }

  /** How many operations the materialisation loop enters. */
  function Entered(s: Store, ops: seq<Op>): (n: nat)
    ensures n <= |ops|
    decreases |ops|
  {
    if ops == [] then 0
    else
      var s1 := s.(cas := StageEmpty(s.cas, FileLayoutBlocks(ops[0])));
      if IsFilePut(ops[0]) && FileBytes(s1, Descriptor(ops[0])).Rejected? then 1
      else 1 + Entered(s1, ops[1..])
  }

  /** Only objects with the empty bytes can be wrong. */
  ghost predicate OnlyEmptiesWrong(cas: Cas) {
    && (forall d | d in cas && Sha256(cas[d].data) != d :: cas[d].data == [])
    && (forall d | d in cas :: cas[d].size == |cas[d].data|)
  }

  lemma {:induction false} StageEmptyKeepsShape(cas: Cas, blocks: seq<Block>)
    requires OnlyEmptiesWrong(cas)
    ensures OnlyEmptiesWrong(StageEmpty(cas, blocks))
    decreases |blocks|
  {
    if blocks != [] {
      StageEmptyKeepsShape(if blocks[0].size == 0 then PutObject(cas, blocks[0].digest, []) else cas, blocks[1..]);
    }
  }

  /** A commit keeps the content store addressed by hash exactly when every entered
      put carries the empty digest on its zero-length blocks. */
  lemma {:induction false} MaterialiseIsHonest(s: Store, ops: seq<Op>)
    requires OnlyEmptiesWrong(s.cas)
    ensures WellHashed(Materialise(s, ops).store.cas)
            <==> WellHashed(s.cas) && forall i | 0 <= i < Entered(s, ops) :: HonestZeros(FileLayoutBlocks(ops[i]))
    decreases |ops|
  {
    if ops != [] {
      var blocks := FileLayoutBlocks(ops[0]);
      var s1 := s.(cas := StageEmpty(s.cas, blocks));
      StageEmptyIsHonest(s.cas, blocks);
      StageEmptyKeepsShape(s.cas, blocks);
      if !(IsFilePut(ops[0]) && FileBytes(s1, Descriptor(ops[0])).Rejected?) {
        MaterialiseIsHonest(s1, ops[1..]);
        assert forall i | 1 <= i < |ops| :: ops[i] == ops[1..][i - 1];
      }
    }
  }

  /** Every put that the assembly loop enters carries the digest of nothing on its
      zero-length blocks. */
  ghost predicate EnteredHonest(s: Store, ops: seq<Op>) {
    forall i | 0 <= i < Entered(s, ops) :: HonestZeros(FileLayoutBlocks(ops[i]))
  }

  /** The bytes of an item are what its descriptor assembles to. */
  ghost predicate Assembled(s: Store, item: Item) {
    item.data.Some? ==> FileBytes(s, Descriptor(item.op)) == Ok(item.data.value)
  }

  /** The loop goes on after its first operation. */
  ghost predicate GoesOn(s: Store, ops: seq<Op>)
    requires ops != []
  {
    !(IsFilePut(ops[0]) && FileBytes(s, Descriptor(ops[0])).Rejected?)
  }

  lemma HonestStep(s: Store, ops: seq<Op>)
    requires ops != [] && EnteredHonest(s, ops)
    ensures var s1 := s.(cas := StageEmpty(s.cas, FileLayoutBlocks(ops[0])));
            HonestZeros(FileLayoutBlocks(ops[0])) && (GoesOn(s1, ops) ==> EnteredHonest(s1, ops[1..]))
  {
    assert forall i | 0 <= i < |ops[1..]| :: ops[1..][i] == ops[i + 1];
  }

  lemma {:induction false} MaterialiseIsImmutable(s: Store, ops: seq<Op>)
    requires Intact(s) && Collisionless(s.cas, []) && EnteredHonest(s, ops)
    ensures var m := Materialise(s, ops); Intact(m.store) && Extends(s, m.store)
    decreases |ops|
  {
    if ops != [] {
      var s1 := s.(cas := StageEmpty(s.cas, FileLayoutBlocks(ops[0])));
      HonestStep(s, ops);
      StageEmptyIsImmutable(s, FileLayoutBlocks(ops[0]));
      if GoesOn(s1, ops) {
        MaterialiseIsImmutable(s1, ops[1..]);
      }
    }
  }

  lemma {:induction false} MaterialisedItems(s: Store, ops: seq<Op>)
    requires forall i | 0 <= i < |ops| :: Consistent(ops[i])
    requires Materialise(s, ops).items.Ok?
    ensures var items := Materialise(s, ops).items.value;
            && AllShaped(items)
            && forall i | 0 <= i < |ops| :: items[i].op == ops[i]
    decreases |ops|
  {
    if ops != [] {
      var s1 := s.(cas := StageEmpty(s.cas, FileLayoutBlocks(ops[0])));
      assert forall i | 0 <= i < |ops[1..]| :: ops[1..][i] == ops[i + 1];
      MaterialisedItems(s1, ops[1..]);
      if IsFilePut(ops[0]) {
        FileBytesHaveDeclaredSize(s1, Descriptor(ops[0]));
      }
      var items, rest := Materialise(s, ops).items.value, Materialise(s1, ops[1..]).items.value;
      assert Shaped(items[0].op, items[0].data);
      forall i | 0 <= i < |items|
        ensures Shaped(items[i].op, items[i].data) && items[i].op == ops[i]
      {
        if i > 0 {
          assert items[i] == rest[i - 1];
        }
      }
    }
  }

  /** One turn of the assembly. */
  lemma MaterialisedStep(s: Store, ops: seq<Op>)
    requires ops != [] && Materialise(s, ops).items.Ok?
    ensures var s1 := s.(cas := StageEmpty(s.cas, FileLayoutBlocks(ops[0])));
            var m, rest := Materialise(s, ops), Materialise(s1, ops[1..]);
            && GoesOn(s1, ops) && rest.items.Ok? && m.store == rest.store
            && m.items.value[0].op == ops[0] && m.items.value[1..] == rest.items.value
            && (m.items.value[0].data.Some? ==>
                  FileBytes(s1, Descriptor(ops[0])) == Ok(m.items.value[0].data.value))
  {
  }

  ghost predicate AllAssembled(s: Store, items: seq<Item>) {
    forall i | 0 <= i < |items| :: Assembled(s, items[i])
  }

  lemma AssembledCons(s: Store, items: seq<Item>)
    requires items != [] && Assembled(s, items[0]) && AllAssembled(s, items[1..])
    ensures AllAssembled(s, items)
  {
    assert forall i | 1 <= i < |items| :: items[i] == items[1..][i - 1];
  }

  lemma {:induction false} MaterialisedBytes(s: Store, ops: seq<Op>)
    requires Intact(s) && Collisionless(s.cas, []) && EnteredHonest(s, ops)
    requires Materialise(s, ops).items.Ok?
    ensures AllAssembled(Materialise(s, ops).store, Materialise(s, ops).items.value)
    decreases |ops|
  {
    if ops != [] {
      var s1 := s.(cas := StageEmpty(s.cas, FileLayoutBlocks(ops[0])));
      MaterialisedStep(s, ops);
      HonestStep(s, ops);
      StageEmptyIsImmutable(s, FileLayoutBlocks(ops[0]));
      MaterialiseIsImmutable(s1, ops[1..]);
      MaterialisedBytes(s1, ops[1..]);
      var m := Materialise(s, ops);
      if m.items.value[0].data.Some? {
        FileBytesSurvive(s1, m.store, Descriptor(ops[0]));
      }
      AssembledCons(m.store, m.items.value);
    }
  }

  // ------------------------------------------------- when assembly goes through

  /** More stored objects mean more after the empty ones are staged. */
  lemma {:induction false} StageEmptyIsMonotone(s: Store, s': Store, blocks: seq<Block>)
    requires Extends(s, s')
    ensures Extends(s.(cas := StageEmpty(s.cas, blocks)), s'.(cas := StageEmpty(s'.cas, blocks)))
    decreases |blocks|
  {
    if blocks != [] {
      var d := blocks[0].digest;
      if blocks[0].size == 0 {
        StageEmptyIsMonotone(s.(cas := PutObject(s.cas, d, [])), s'.(cas := PutObject(s'.cas, d, [])), blocks[1..]);
      } else {
        StageEmptyIsMonotone(s, s', blocks[1..]);
      }
    }
  }

  /** The bytes that a put's descriptor comes to when its own empty blocks are staged. */
  function OwnBytes(s: Store, op: Op): Result<Bytes> {
    FileBytes(s.(cas := StageEmpty(s.cas, FileLayoutBlocks(op))), Descriptor(op))
  }

  lemma OwnBytesSurvive(s: Store, s': Store, op: Op)
    requires Extends(s, s') && OwnBytes(s, op).Ok?
    ensures OwnBytes(s', op) == OwnBytes(s, op)
  {
    StageEmptyIsMonotone(s, s', FileLayoutBlocks(op));
    FileBytesSurvive(s.(cas := StageEmpty(s.cas, FileLayoutBlocks(op))),
                     s'.(cas := StageEmpty(s'.cas, FileLayoutBlocks(op))), Descriptor(op));
  }

  ghost predicate Assembles(s: Store, ops: seq<Op>) {
    forall i | 0 <= i < |ops| && IsFilePut(ops[i]) :: OwnBytes(s, ops[i]).Ok?
  }

  /** An operation with those bytes. */
  function OwnItem(s: Store, op: Op): Item {
    Item(op, if IsFilePut(op) && OwnBytes(s, op).Ok? then Some(OwnBytes(s, op).value) else None)
  }

  ghost predicate OwnItems(s: Store, ops: seq<Op>, items: seq<Item>) {
    |items| == |ops| && forall i | 0 <= i < |ops| :: items[i] == OwnItem(s, ops[i])
  }

  lemma AssemblesLater(s: Store, s1: Store, ops: seq<Op>)
    requires ops != [] && Extends(s, s1) && Assembles(s, ops)
    ensures Assembles(s1, ops[1..])
    ensures forall i | 0 < i < |ops| :: OwnItem(s1, ops[i]) == OwnItem(s, ops[i])
  {
    assert forall i | 0 <= i < |ops[1..]| :: ops[1..][i] == ops[i + 1];
    forall i | 0 < i < |ops| && IsFilePut(ops[i])
      ensures OwnBytes(s1, ops[i]) == OwnBytes(s, ops[i])
    {
      OwnBytesSurvive(s, s1, ops[i]);
    }
  }

  lemma OwnItemsCons(s: Store, s1: Store, ops: seq<Op>, items: seq<Item>)
    requires ops != [] && items != [] && items[0] == OwnItem(s, ops[0]) && OwnItems(s1, ops[1..], items[1..])
    requires forall i | 0 < i < |ops| :: OwnItem(s1, ops[i]) == OwnItem(s, ops[i])
    ensures OwnItems(s, ops, items)
  {
    assert forall i | 1 <= i < |ops| :: items[i] == items[1..][i - 1] && ops[i] == ops[1..][i - 1];
  }

  lemma MaterialiseTurn(s: Store, ops: seq<Op>)
    requires ops != [] && Assembles(s, ops)
    ensures var s1 := s.(cas := StageEmpty(s.cas, FileLayoutBlocks(ops[0])));
            var m, rest := Materialise(s, ops), Materialise(s1, ops[1..]);
            && GoesOn(s1, ops)
            && (rest.items.Ok? ==> m.items == Ok([OwnItem(s, ops[0])] + rest.items.value))
  {
  }

  /** When the files of all puts are there, assembly goes through with their bytes. */
  lemma {:induction false} MaterialiseSucceeds(s: Store, ops: seq<Op>)
    requires Intact(s) && Collisionless(s.cas, []) && EnteredHonest(s, ops) && Assembles(s, ops)
    ensures Materialise(s, ops).items.Ok? && OwnItems(s, ops, Materialise(s, ops).items.value)
    decreases |ops|
  {
    if ops != [] {
      var s1 := s.(cas := StageEmpty(s.cas, FileLayoutBlocks(ops[0])));
      HonestStep(s, ops);
      StageEmptyIsImmutable(s, FileLayoutBlocks(ops[0]));
      AssemblesLater(s, s1, ops);
      MaterialiseTurn(s, ops);
      MaterialiseSucceeds(s1, ops[1..]);
      var items := Materialise(s, ops).items.value;
      assert items[1..] == Materialise(s1, ops[1..]).items.value;
      OwnItemsCons(s, s1, ops, items);
    }
  }

  // ------------------------------------------------------------------- commit

  const MAX_OPS := 128
  const MAX_INLINE_BLOCKS := 256

  function KeyOf(c: Caller, mutation: Id): ReceiptKey {
    ReceiptKey(c.host, c.generation, c.session, mutation)
  }

  /** What a commit request amounts to before its verdict loop. */
  datatype Plan =
    | Refused(fault: Fault)
    | Repeated(receipt: Receipt)
    | Failed(store: Store, fault: Fault)
    | Ready(store: Store, items: seq<Item>)

  function Prepare(s: State, c: Caller, q: CommitRequest): (p: Plan)
    ensures p.Ready? ==> AllShaped(p.items)
  {
    var key := KeyOf(c, q.mutation);
    if !c.readWrite then Refused(WriteForbidden)
    else if !(1 <= |q.ops| <= MAX_OPS) then Refused(OpsInvalid)
    else if key in s.receipts then
      var prior := s.receipts[key];
      if prior.attachment != c.attachment || prior.request != q then Refused(IdempotencyConflict)
      else Repeated(prior.receipt)
    else if Normalize(q.ops, {}).Some? then Refused(Normalize(q.ops, {}).value)
    else if |q.inline| > MAX_INLINE_BLOCKS then Refused(InlineInvalid)
    else
      var staged := StageInline(Required(q.ops), q.inline, map[]);
      if staged.Rejected? then Refused(staged.fault)
      else
        var s1 := s.store.(cas := StoreAll(s.store.cas, staged.value));
        var m := Materialise(s1, q.ops);
        if m.items.Rejected? then Failed(m.store, m.items.fault)
        else
          NormalizedIsDisjoint(q.ops, {});
          MaterialisedItems(s1, q.ops);
          Ready(m.store, m.items.value)
  }

  function Commit(s: State, c: Caller, q: CommitRequest): (State, Result<Receipt>) {
    match Prepare(s, c, q)
    case Refused(fault) => (s, Rejected(fault))
    case Repeated(receipt) => (s, Ok(receipt))
    case Failed(store, fault) => (s.(store := store), Rejected(fault))
    case Ready(store, items) => Finish(s.(store := store), c, q, RunBatch(s.ns, items))
  }

  /** The receipt of a batch that ran to its end; a batch refused or dead half-way
      keeps what it did and leaves no receipt. */
  function Finish(s: State, c: Caller, q: CommitRequest, b: BatchResult): (State, Result<Receipt>) {
    match b.end
    case RefusedMidway => (s.(ns := b.ns), Rejected(DirectoryDeleteUnsupported))
    case CrashedMidway => (s.(ns := b.ns), Rejected(Crash))
    case Completed =>
      var receipt := Receipt(q.mutation, |b.ns.journal|, b.verdicts);
      (s.(ns := b.ns, receipts := s.receipts[KeyOf(c, q.mutation) := Stamped(c.attachment, q, receipt)]), Ok(receipt))
  }

  // ------------------------------------------------------- what a plan promises

  /** A new request that is in form: well-made operations on disjoint paths, and inline
      blocks that they ask for, each once. */
  ghost predicate InForm(s: State, c: Caller, q: CommitRequest) {
    && c.readWrite && 1 <= |q.ops| <= MAX_OPS && KeyOf(c, q.mutation) !in s.receipts
    && (forall i | 0 <= i < |q.ops| :: WellMade(q.ops[i])) && DisjointOps(q.ops)
    && |q.inline| <= MAX_INLINE_BLOCKS && Stageable(Required(q.ops), q.inline, map[])
  }

  /** The store with a request's inline blocks in it. */
  function WithInline(s: Store, q: CommitRequest): Store {
    s.(cas := StoreAll(s.cas, InlineBytes(q.inline)))
  }

  /** Exactly a new request in form gets to assembling its puts. */
  lemma AssemblingIsExact(s: State, c: Caller, q: CommitRequest)
    ensures Assembling(s, c, q).Some? <==> InForm(s, c, q)
    ensures InForm(s, c, q) ==> Assembling(s, c, q) == Some(WithInline(s.store, q))
  {
    NormalizeIsExact(q.ops, {});
    StageIsExact(Required(q.ops), q.inline, map[]);
    assert map[] + InlineBytes(q.inline) == InlineBytes(q.inline);
  }

  /** What becomes of it then. */
  lemma PlanOfForm(s: State, c: Caller, q: CommitRequest)
    requires InForm(s, c, q)
    ensures var m := Materialise(WithInline(s.store, q), q.ops);
            m.items.Ok? ==> Prepare(s, c, q).Ready? && Prepare(s, c, q).items == m.items.value
  {
    NormalizeIsExact(q.ops, {});
    StageIsExact(Required(q.ops), q.inline, map[]);
    assert map[] + InlineBytes(q.inline) == InlineBytes(q.inline);
  }

  /** And if its files are there, to its verdicts, with their bytes. */
  lemma CommitGetsReady(s: State, c: Caller, q: CommitRequest)
    requires Intact(s.store) && CleanBytes(s, c, q)
    requires InForm(s, c, q) && Assembles(WithInline(s.store, q), q.ops)
    ensures var p := Prepare(s, c, q);
            p.Ready? && OwnItems(WithInline(s.store, q), q.ops, p.items)
  {
    AssemblingIsExact(s, c, q);
    StageIsExact(Required(q.ops), q.inline, map[]);
    assert map[] + InlineBytes(q.inline) == InlineBytes(q.inline);
    StagingIsImmutable(s.store, q);
    MaterialiseSucceeds(WithInline(s.store, q), q.ops);
    PlanOfForm(s, c, q);
  }

  /** A request that gets to its verdicts was new and in form. */
  lemma ReadyIsInForm(s: State, c: Caller, q: CommitRequest)
    requires Prepare(s, c, q).Ready?
    ensures InForm(s, c, q)
  {
    AssemblingIsExact(s, c, q);
  }

  /** The store when a commit starts to assemble its puts, if it comes to that. */
  function Assembling(s: State, c: Caller, q: CommitRequest): Option<Store> {
    if !c.readWrite || !(1 <= |q.ops| <= MAX_OPS) || KeyOf(c, q.mutation) in s.receipts
       || Normalize(q.ops, {}).Some? || |q.inline| > MAX_INLINE_BLOCKS
    then None
    else
      var staged := StageInline(Required(q.ops), q.inline, map[]);
      if staged.Rejected? then None else Some(s.store.(cas := StoreAll(s.store.cas, staged.value)))
  }

  /** If a commit comes to assembling its puts: no hash collision between the bytes it
      brings and the bytes stored, and the digest of nothing on the zero-length blocks
      of the puts it enters. */
  ghost predicate CleanBytes(s: State, c: Caller, q: CommitRequest) {
    var start := Assembling(s, c, q);
    start.Some? ==> CleanInline(s.store.cas, q.inline) && EnteredHonest(start.value, q.ops)
  }

  ghost predicate CleanInline(cas: Cas, inline: seq<Inline>) {
    && Collisionless(cas, [])
    && (forall i | 0 <= i < |inline| :: Collisionless(cas, inline[i].data) && NoCollision([], inline[i].data))
  }

  /** A commit keeps a content store addressed by hash exactly when every put that its
      assembly loop enters carries the digest of nothing on its zero-length blocks. */
  lemma CommitIsHonest(s: State, c: Caller, q: CommitRequest)
    requires WellHashed(s.store.cas)
    ensures var start := Assembling(s, c, q);
            WellHashed(Commit(s, c, q).0.store.cas)
            <==> (start.Some? ==> EnteredHonest(start.value, q.ops))
  {
    var start := Assembling(s, c, q);
    if start.Some? {
      StagedHashes(Required(q.ops), q.inline, map[]);
      assert WellHashed(start.value.cas);
      MaterialiseIsHonest(start.value, q.ops);
      AssembledStore(s, c, q);
    }
  }

  lemma PlannedAssembly(s: State, c: Caller, q: CommitRequest)
    ensures var p, start := Prepare(s, c, q), Assembling(s, c, q);
            && (start.Some? <==> p.Failed? || p.Ready?)
            && (p.Failed? || p.Ready? ==> p.store == Materialise(start.value, q.ops).store)
  {
  }

  lemma AssembledStore(s: State, c: Caller, q: CommitRequest)
    ensures var start := Assembling(s, c, q);
            Commit(s, c, q).0.store == if start.Some? then Materialise(start.value, q.ops).store else s.store
  {
    PlannedAssembly(s, c, q);
  }

  lemma StagingIsImmutable(s: Store, q: CommitRequest)
    requires Intact(s) && CleanInline(s.cas, q.inline) && StageInline(Required(q.ops), q.inline, map[]).Ok?
    ensures var s1 := s.(cas := StoreAll(s.cas, StageInline(Required(q.ops), q.inline, map[]).value));
            Intact(s1) && Extends(s, s1) && Collisionless(s1.cas, [])
  {
    StagedHashes(Required(q.ops), q.inline, map[]);
    StoreAllIsImmutable(s, StageInline(Required(q.ops), q.inline, map[]).value);
  }

  /** The items of a ready batch: the request's own operations, on disjoint paths,
      with the bytes their descriptors assemble to. */
  ghost predicate Faithfully(store: Store, q: CommitRequest, items: seq<Item>) {
    && |items| == |q.ops| && DisjointOps(q.ops)
    && (forall i | 0 <= i < |items| :: items[i].op == q.ops[i])
    && (forall i | 0 <= i < |items| :: Assembled(store, items[i]))
  }

  lemma PlanIsSound(s: State, c: Caller, q: CommitRequest)
    requires Intact(s.store) && CleanBytes(s, c, q)
    ensures var p := Prepare(s, c, q);
            && (p.Failed? || p.Ready? ==> Intact(p.store) && Extends(s.store, p.store))
            && (p.Ready? ==> Faithfully(p.store, q, p.items))
  {
    var p := Prepare(s, c, q);
    if p.Failed? || p.Ready? {
      StagingIsImmutable(s.store, q);
      var s1 := s.store.(cas := StoreAll(s.store.cas, StageInline(Required(q.ops), q.inline, map[]).value));
      MaterialiseIsImmutable(s1, q.ops);
      if p.Ready? {
        NormalizedIsDisjoint(q.ops, {});
        MaterialisedItems(s1, q.ops);
        MaterialisedBytes(s1, q.ops);
      }
    }
  }
}
