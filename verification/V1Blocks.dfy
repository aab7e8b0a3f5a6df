/** Block authority of the Fabric v1 protocol: which host may have which blocks
    verified for which mutation, and which blocks a put may rest on. */
module V1Blocks {
  import opened Prelude
  import opened TreeStore
  import opened Admission
  import opened Layouts

  /** The host behind a request. */
  datatype Peer = Peer(session: Id, host: Id, generation: nat)

  datatype Scope = Scope(session: Id, mutation: Id)

  /** A mutation's durable fence: whose it is, until when, and which blocks. */
  datatype Operation = Operation(
    host: Id, generation: nat, expires: real, targets: Sizes, verified: Sizes)

  type Operations = map<Scope, Operation>

  const MAX_OPERATIONS := 64
  const OPERATION_TTL := 7200.0

  function Fresh(ops: Operations, now: real): Operations {
    map k | k in ops && now < ops[k].expires :: ops[k]
  }

  function OwnedBy(ops: Operations, p: Peer): set<Scope> {
    set k | k in ops && k.session == p.session && ops[k].host == p.host && ops[k].generation == p.generation
  }

  predicate SizeConflict(targets: Sizes, blocks: seq<Obj>) {
    exists b | b in blocks :: b.digest in targets && targets[b.digest] != b.size
  }

  /** Establishes the fence: sweeps what has expired, opens the mutation's operation
      if its host may have one more, and adds the blocks to its targets. */
  function Target(ops: Operations, p: Peer, mutation: Id, now: real, blocks: seq<Obj>): (Operations, Option<Fault>) {
    var live := Fresh(ops, now);
    var key := Scope(p.session, mutation);
    if key in live && (live[key].host != p.host || live[key].generation != p.generation)
    then (live, Some(BlocksFailed))
    else if key !in live && |OwnedBy(live, p)| >= MAX_OPERATIONS then (live, Some(BlocksFailed))
    else
      var op := OpenOperation(live, p, key, now);
      var more := MoreTargets(op, blocks);
      if more.None? then (live[key := op], Some(BlocksFailed)) else (live[key := more.value], None)
  }

  /** The operation with these blocks among its targets, if they fit. */
  function MoreTargets(op: Operation, blocks: seq<Obj>): Option<Operation> {
    var novel := SizesOf(blocks) - op.targets.Keys;
    if SizeConflict(op.targets, blocks) || |op.targets| + |novel| > MAX_BLOCKS then None
    else Some(op.(targets := op.targets + novel))
  }

  /** Verification: targets first, then every stored object, then the record. */
  function Verify(
      cas: Cas, ops: Operations, p: Peer, mutation: Id, now: real, blocks: seq<Obj>): (Operations, Option<Fault>) {
    var (next, fault) := Target(ops, p, mutation, now, blocks);
    var key := Scope(p.session, mutation);
    if fault.Some? then (next, fault)
    else if VerifyEach(cas, blocks).Some? then (next, VerifyEach(cas, blocks))
    else if key !in next then (next, Some(BlocksFailed))
    else (next[key := next[key].(verified := next[key].verified + SizesOf(blocks))], None)
  }

  // ---------------------------------------------------------------- invariant

  ghost predicate OperationSound(cas: Cas, op: Operation) {
    && |op.targets| <= MAX_BLOCKS
    && (forall d | d in op.verified ::
          && d in op.targets && op.targets[d] == op.verified[d]
          && VerifyBlock(cas, d, op.verified[d]).Ok?)
  }

  /** Verified blocks are targeted and stored, targets are bounded, and no host has
      more than its share of operations. */
  ghost predicate OperationsSound(cas: Cas, ops: Operations) {
    && (forall k | k in ops :: OperationSound(cas, ops[k]))
    && (forall p :: WithinShare(ops, p))
  }

  /** A host has at most its share of a session's operations. */
  ghost predicate WithinShare(ops: Operations, p: Peer) {
    |OwnedBy(ops, p)| <= MAX_OPERATIONS
  }

  lemma FewerOperations(cas: Cas, ops: Operations, fewer: Operations)
    requires OperationsSound(cas, ops)
    requires forall k | k in fewer :: k in ops && fewer[k] == ops[k]
    ensures OperationsSound(cas, fewer)
  {
    forall p: Peer
      ensures WithinShare(fewer, p)
    {
      assert WithinShare(ops, p);
      SubsetSize(OwnedBy(fewer, p), OwnedBy(ops, p));
    }
  }

  lemma {:induction false} SubsetSize<T>(a: set<T>, b: set<T>)
    requires a <= b
    ensures |a| <= |b|
    decreases |a|
  {
    if a != {} {
      var x :| x in a;
      SubsetSize(a - {x}, b - {x});
    }
  }

  /** A host may write its own operation, and a new one while it has few enough. */
  ghost predicate MayWrite(ops: Operations, p: Peer, key: Scope) {
    && key.session == p.session
    && (key in ops ==> ops[key].host == p.host && ops[key].generation == p.generation)
    && (key !in ops ==> |OwnedBy(ops, p)| < MAX_OPERATIONS)
  }

  lemma WriteStaysWithin(ops: Operations, p: Peer, key: Scope, op: Operation, r: Peer)
    requires MayWrite(ops, p, key) && op.host == p.host && op.generation == p.generation && WithinShare(ops, r)
    ensures WithinShare(ops[key := op], r)
  {
    if r == p {
      assert OwnedBy(ops[key := op], r) == OwnedBy(ops, r) + {key};
      if key in ops {
        assert OwnedBy(ops, r) + {key} == OwnedBy(ops, r);
      }
    } else {
      assert OwnedBy(ops[key := op], r) == OwnedBy(ops, r);
    }
  }

  lemma WriteOperation(cas: Cas, ops: Operations, p: Peer, key: Scope, op: Operation)
    requires OperationsSound(cas, ops) && OperationSound(cas, op)
    requires MayWrite(ops, p, key) && op.host == p.host && op.generation == p.generation
    ensures OperationsSound(cas, ops[key := op]) && MayWrite(ops[key := op], p, key)
  {
    var written := ops[key := op];
    forall r: Peer
      ensures WithinShare(written, r)
    {
      assert WithinShare(ops, r);
      WriteStaysWithin(ops, p, key, op, r);
    }
  }

  lemma {:induction false} SizesOfMembers(blocks: seq<Obj>, seen: Sizes)
    requires CheckEach(blocks, seen).None?
    ensures forall b | b in blocks ::
              b.digest in SizesOf(blocks) && SizesOf(blocks)[b.digest] == b.size && b.digest !in seen
    ensures forall d | d in SizesOf(blocks) :: Obj(d, SizesOf(blocks)[d]) in blocks
    decreases |blocks|
  {
    if blocks != [] {
      SizesOfMembers(blocks[1..], seen[blocks[0].digest := blocks[0].size]);
    }
  }

  lemma DisjointUnionSize(a: Sizes, b: Sizes)
    requires a.Keys !! b.Keys
    ensures |a + b| == |a| + |b|
  {
    assert (a + b).Keys == a.Keys + b.Keys;
  }

  ghost predicate Targets(op: Operation, blocks: seq<Obj>) {
    forall b | b in blocks :: b.digest in op.targets && op.targets[b.digest] == b.size
  }

  lemma MoreTargetsAreSound(cas: Cas, op: Operation, blocks: seq<Obj>)
    requires OperationSound(cas, op) && CheckEach(blocks, map[]).None?
    ensures var more := MoreTargets(op, blocks);
            more.Some? ==>
              && OperationSound(cas, more.value) && Targets(more.value, blocks)
              && more.value == op.(targets := more.value.targets)
  {
    var more := MoreTargets(op, blocks);
    if more.Some? {
      SizesOfMembers(blocks, map[]);
      var novel := SizesOf(blocks) - op.targets.Keys;
      DisjointUnionSize(op.targets, novel);
      forall b | b in blocks
        ensures b.digest in more.value.targets && more.value.targets[b.digest] == b.size
      {
        assert b.digest in SizesOf(blocks);
      }
    }
  }

  /** The operation that a targeting call works on. */
  function OpenOperation(live: Operations, p: Peer, key: Scope, now: real): Operation {
    if key in live then live[key] else Operation(p.host, p.generation, now + OPERATION_TTL, map[], map[])
  }

  lemma OpenIsSound(cas: Cas, live: Operations, p: Peer, key: Scope, now: real)
    requires OperationsSound(cas, live) && MayWrite(live, p, key)
    ensures var op := OpenOperation(live, p, key, now);
            OperationSound(cas, op) && op.host == p.host && op.generation == p.generation
  {
  }

  /** Targeting keeps the table sound, and afterwards the caller's operation is live
      and targets every block asked for. */
  lemma TargetIsSound(cas: Cas, ops: Operations, p: Peer, mutation: Id, now: real, blocks: seq<Obj>)
    requires OperationsSound(cas, ops) && CheckEach(blocks, map[]).None?
    ensures var (next, fault) := Target(ops, p, mutation, now, blocks);
            && OperationsSound(cas, next)
            && (fault.None? ==>
                  && Vouches(next, p, mutation, now) && MayWrite(next, p, Scope(p.session, mutation))
                  && Targets(next[Scope(p.session, mutation)], blocks))
  {
    var live := Fresh(ops, now);
    FewerOperations(cas, ops, live);
    var key := Scope(p.session, mutation);
    if MayWrite(live, p, key) {
      var op := OpenOperation(live, p, key, now);
      OpenIsSound(cas, live, p, key, now);
      MoreTargetsAreSound(cas, op, blocks);
      var more := MoreTargets(op, blocks);
      WriteOperation(cas, live, p, key, if more.Some? then more.value else op);
    }
  }

  lemma {:induction false} VerifiedSizes(cas: Cas, blocks: seq<Obj>)
    requires VerifyEach(cas, blocks).None?
    ensures forall b | b in blocks :: VerifyBlock(cas, b.digest, b.size).Ok?
  {
    if blocks != [] {
      VerifiedSizes(cas, blocks[1..]);
    }
  }

  lemma VerifyIsSound(cas: Cas, ops: Operations, p: Peer, mutation: Id, now: real, blocks: seq<Obj>)
    requires OperationsSound(cas, ops) && CheckEach(blocks, map[]).None?
    ensures OperationsSound(cas, Verify(cas, ops, p, mutation, now, blocks).0)
  {
    TargetIsSound(cas, ops, p, mutation, now, blocks);
    var (next, fault) := Target(ops, p, mutation, now, blocks);
    var key := Scope(p.session, mutation);
    if fault.None? && VerifyEach(cas, blocks).None? {
      VerifiedAreSound(cas, next[key], blocks);
      WriteOperation(cas, next, p, key, next[key].(verified := next[key].verified + SizesOf(blocks)));
    }
  }

  lemma VerifiedAreSound(cas: Cas, op: Operation, blocks: seq<Obj>)
    requires OperationSound(cas, op) && Targets(op, blocks)
    requires CheckEach(blocks, map[]).None? && VerifyEach(cas, blocks).None?
    ensures OperationSound(cas, op.(verified := op.verified + SizesOf(blocks)))
  {
    VerifiedSizes(cas, blocks);
    SizesOfMembers(blocks, map[]);
  }

  /** Operations stay sound while the store only grows. */
  lemma OperationsSurvive(s: Store, s': Store, ops: Operations)
    requires OperationsSound(s.cas, ops) && Extends(s, s')
    ensures OperationsSound(s'.cas, ops)
  {
    forall k | k in ops
      ensures OperationSound(s'.cas, ops[k])
    {
      assert OperationSound(s.cas, ops[k]);
    }
  }

  // ------------------------------------------------------------ what is recorded

  function Digests(blocks: seq<Obj>): set<Digest> {
    if blocks == [] then {} else {blocks[0].digest} + Digests(blocks[1..])
  }

  /** No block is asked for under another size, and all fit beside those asked before. */
  ghost predicate Fits(targets: Sizes, blocks: seq<Obj>) {
    && (forall b | b in blocks && b.digest in targets :: targets[b.digest] == b.size)
    && |targets.Keys + Digests(blocks)| <= MAX_BLOCKS
  }

  /** The unexpired operations of a host's generation in a session. */
  function Share(ops: Operations, p: Peer, now: real): set<Scope> {
    set k | k in ops && now < ops[k].expires
            && k.session == p.session && ops[k].host == p.host && ops[k].generation == p.generation
  }

  /** The mutation has its operation or may open one. */
  ghost predicate MayOpen(live: Operations, p: Peer, key: Scope) {
    if key in live then live[key].host == p.host && live[key].generation == p.generation
    else |OwnedBy(live, p)| < MAX_OPERATIONS
  }

  /** The mutation's operation is the caller's, or fewer than sixty-four are, and the blocks
      fit. */
  ghost predicate Room(ops: Operations, p: Peer, mutation: Id, now: real, blocks: seq<Obj>) {
    var key := Scope(p.session, mutation);
    if Unexpired(ops, key, now) then
      ops[key].host == p.host && ops[key].generation == p.generation && Fits(ops[key].targets, blocks)
    else |Share(ops, p, now)| < 64 && Fits(map[], blocks)
  }

  lemma RoomIsOpen(ops: Operations, p: Peer, mutation: Id, now: real, blocks: seq<Obj>)
    ensures var live, key := Fresh(ops, now), Scope(p.session, mutation);
            Room(ops, p, mutation, now, blocks)
            <==> MayOpen(live, p, key) && Fits(OpenOperation(live, p, key, now).targets, blocks)
  {
    assert OwnedBy(Fresh(ops, now), p) == Share(ops, p, now);
  }

  predicate Unexpired(ops: Operations, key: Scope, now: real) {
    key in ops && now < ops[key].expires
  }

  /** The caller's operation is there, with the deadline it had or two hours; of the others
      exactly the unexpired ones are left, as they were. */
  ghost predicate Touched(ops: Operations, p: Peer, mutation: Id, now: real, next: Operations) {
    var key := Scope(p.session, mutation);
    && key in next && next[key].host == p.host && next[key].generation == p.generation
    && next[key].expires == (if Unexpired(ops, key, now) then ops[key].expires else now + 7200.0)
    && (forall k | k != key :: k in next <==> Unexpired(ops, k, now))
    && (forall k | k != key && k in next :: next[k] == ops[k])
  }

  ghost predicate AllVerified(op: Operation, blocks: seq<Obj>) {
    forall b | b in blocks :: b.digest in op.verified && op.verified[b.digest] == b.size
  }

  lemma {:induction false} SizesKeys(blocks: seq<Obj>)
    ensures SizesOf(blocks).Keys == Digests(blocks)
  {
    if blocks != [] {
      SizesKeys(blocks[1..]);
    }
  }

  lemma NovelFits(targets: Sizes, sizes: Sizes)
    ensures |targets| + |sizes - targets.Keys| == |targets.Keys + sizes.Keys|
  {
    assert (sizes - targets.Keys).Keys == sizes.Keys - targets.Keys;
    assert targets.Keys + sizes.Keys == targets.Keys + (sizes.Keys - targets.Keys);
    assert |targets.Keys| == |targets| && |(sizes - targets.Keys).Keys| == |sizes - targets.Keys|;
  }

  lemma NovelCount(targets: Sizes, blocks: seq<Obj>)
    ensures |targets| + |SizesOf(blocks) - targets.Keys| == |targets.Keys + Digests(blocks)|
  {
    SizesKeys(blocks);
    NovelFits(targets, SizesOf(blocks));
  }

  lemma FitsIsExact(op: Operation, blocks: seq<Obj>)
    ensures MoreTargets(op, blocks).Some? <==> Fits(op.targets, blocks)
  {
    NovelCount(op.targets, blocks);
    assert SizeConflict(op.targets, blocks)
           <==> !forall b | b in blocks && b.digest in op.targets :: op.targets[b.digest] == b.size;
  }

  lemma AllTargeted(op: Operation, blocks: seq<Obj>)
    requires Askable(blocks) && MoreTargets(op, blocks).Some?
    ensures Targets(MoreTargets(op, blocks).value, blocks)
  {
    CheckEachIsExact(blocks, map[]);
    SizesOfMembers(blocks, map[]);
    var more := MoreTargets(op, blocks).value;
    forall b | b in blocks
      ensures b.digest in more.targets && more.targets[b.digest] == b.size
    {
      assert b.digest in SizesOf(blocks) && SizesOf(blocks)[b.digest] == b.size;
    }
  }

  lemma TargetOutcome(ops: Operations, p: Peer, mutation: Id, now: real, blocks: seq<Obj>)
    ensures var live, key := Fresh(ops, now), Scope(p.session, mutation);
            var op := OpenOperation(live, p, key, now);
            var (next, fault) := Target(ops, p, mutation, now, blocks);
            && (fault.None? <==> MayOpen(live, p, key) && MoreTargets(op, blocks).Some?)
            && (fault.None? ==> next == live[key := MoreTargets(op, blocks).value])
  {
  }

  lemma WriteTouches(ops: Operations, p: Peer, mutation: Id, now: real, op: Operation, next: Operations)
    requires var live, key := Fresh(ops, now), Scope(p.session, mutation);
             && MayOpen(live, p, key) && next == live[key := op]
             && op == OpenOperation(live, p, key, now).(targets := op.targets, verified := op.verified)
    ensures Touched(ops, p, mutation, now, next)
  {
  }

  /** Blocks become targets exactly when there is room; then all of them are, and what was
      verified stays so. */
  lemma TargetIsExact(ops: Operations, p: Peer, mutation: Id, now: real, blocks: seq<Obj>)
    requires Askable(blocks)
    ensures var (next, fault) := Target(ops, p, mutation, now, blocks);
            var key := Scope(p.session, mutation);
            && (fault.None? <==> Room(ops, p, mutation, now, blocks))
            && (fault.None? ==>
                  && Touched(ops, p, mutation, now, next) && Targets(next[key], blocks)
                  && next[key].verified == if Unexpired(ops, key, now) then ops[key].verified else map[])
  {
    var op := OpenOperation(Fresh(ops, now), p, Scope(p.session, mutation), now);
    TargetOutcome(ops, p, mutation, now, blocks);
    RoomIsOpen(ops, p, mutation, now, blocks);
    FitsIsExact(op, blocks);
    if Target(ops, p, mutation, now, blocks).1.None? {
      AllTargeted(op, blocks);
      var more := MoreTargets(op, blocks).value;
      WriteTouches(ops, p, mutation, now, more, Target(ops, p, mutation, now, blocks).0);
    }
  }

  lemma RecordVerified(op: Operation, blocks: seq<Obj>)
    requires Askable(blocks)
    ensures AllVerified(op.(verified := op.verified + SizesOf(blocks)), blocks)
  {
    CheckEachIsExact(blocks, map[]);
    SizesOfMembers(blocks, map[]);
  }

  /** What verification writes when targeting went through. */
  lemma VerifyOutcome(cas: Cas, ops: Operations, p: Peer, mutation: Id, now: real, blocks: seq<Obj>)
    ensures var (mid, refused) := Target(ops, p, mutation, now, blocks);
            var (next, fault) := Verify(cas, ops, p, mutation, now, blocks);
            var key := Scope(p.session, mutation);
            && (fault.None? <==> refused.None? && VerifyEach(cas, blocks).None? && key in mid)
            && (fault.None? ==> next == mid[key := mid[key].(verified := mid[key].verified + SizesOf(blocks))])
  {
  }

  lemma TouchedAgain(ops: Operations, p: Peer, mutation: Id, now: real, mid: Operations, verified: Sizes)
    requires Touched(ops, p, mutation, now, mid)
    ensures var key := Scope(p.session, mutation);
            Touched(ops, p, mutation, now, mid[key := mid[key].(verified := verified)])
  {
  }

  /** Blocks are verified exactly when there is room and each is stored; then all of them
      are recorded for this mutation of this host. */
  lemma VerifyIsExact(cas: Cas, ops: Operations, p: Peer, mutation: Id, now: real, blocks: seq<Obj>)
    requires Askable(blocks)
    ensures var (next, fault) := Verify(cas, ops, p, mutation, now, blocks);
            var key := Scope(p.session, mutation);
            && (fault.None? <==> Room(ops, p, mutation, now, blocks) && EachStored(cas, blocks))
            && (fault.None? ==>
                  && Touched(ops, p, mutation, now, next)
                  && Targets(next[key], blocks) && AllVerified(next[key], blocks))
  {
    TargetIsExact(ops, p, mutation, now, blocks);
    VerifyEachIsExact(cas, blocks);
    VerifyOutcome(cas, ops, p, mutation, now, blocks);
    var (mid, refused) := Target(ops, p, mutation, now, blocks);
    if refused.None? {
      var key := Scope(p.session, mutation);
      RecordVerified(mid[key], blocks);
      TouchedAgain(ops, p, mutation, now, mid, mid[key].verified + SizesOf(blocks));
    }
  }

  // ---------------------------------------------------------------- authority

  /** Blocks that the base and the current layout of a path share, size included. */
  function Reusable(base: Option<Layout>, current: Option<Layout>): Sizes {
    if base.None? || current.None? || !base.value.Blocks? || !current.value.Blocks? then map[]
    else
      var b, c := BlockSizes(base.value.blocks), BlockSizes(current.value.blocks);
      map d | d in b && d in c && b[d] == c[d] :: b[d]
  }

  predicate Covered(sizes: Sizes, b: Block) {
    b.digest in sizes && sizes[b.digest] == b.size
  }

  /** The operation that vouches for a mutation's uploads right now. */
  predicate Vouches(ops: Operations, p: Peer, mutation: Id, now: real) {
    var key := Scope(p.session, mutation);
    key in ops && ops[key].host == p.host && ops[key].generation == p.generation && now < ops[key].expires
  }

  /** A block that a put may rest on. */
  predicate Authorised(ops: Operations, p: Peer, mutation: Id, now: real, reusable: Sizes, b: Block) {
    Covered(reusable, b)
    || (Vouches(ops, p, mutation, now) && Covered(ops[Scope(p.session, mutation)].verified, b))
  }

  /** The authority check of a put: an expired operation is dropped on refusal. */
  function CheckAuthority(
      ops: Operations, p: Peer, mutation: Id, now: real, reusable: Sizes, blocks: seq<Block>): (Operations, bool) {
    var key := Scope(p.session, mutation);
    var needed := exists b | b in blocks :: !Covered(reusable, b);
    if needed
       && (!Vouches(ops, p, mutation, now)
           || exists b | b in blocks && !Covered(reusable, b) :: !Covered(ops[key].verified, b))
    then (if key in ops && ops[key].expires <= now then ops - {key} else ops, false)
    else (ops, true)
  }

  /** It passes exactly when every block is authorised. */
  lemma {:induction false} AuthorityIsExact(
      ops: Operations, p: Peer, mutation: Id, now: real, reusable: Sizes, blocks: seq<Block>)
    ensures CheckAuthority(ops, p, mutation, now, reusable, blocks).1
            <==> forall b | b in blocks :: Authorised(ops, p, mutation, now, reusable, b)
  {
  }

  lemma {:induction false} BlockSizesAreBlocks(blocks: seq<Block>)
    ensures forall d | d in BlockSizes(blocks) ::
              exists b :: b in blocks && b.digest == d && b.size == BlockSizes(blocks)[d]
  {
    if blocks != [] {
      BlockSizesAreBlocks(blocks[1..]);
      var rest := BlockSizes(blocks[1..]);
      forall d | d in BlockSizes(blocks)
        ensures exists b :: b in blocks && b.digest == d && b.size == BlockSizes(blocks)[d]
      {
        if d in rest {
          var b :| b in blocks[1..] && b.digest == d && b.size == rest[d];
          assert b in blocks;
        } else {
          assert blocks[0] in blocks;
        }
      }
    }
  }

  ghost predicate Lists(blocks: seq<Block>, b: Block) {
    exists x :: x in blocks && x.digest == b.digest && x.size == b.size
  }

  /** Under one size only. */
  ghost predicate ListsOnly(blocks: seq<Block>, b: Block) {
    Lists(blocks, b) && forall x | x in blocks && x.digest == b.digest :: x.size == b.size
  }

  lemma {:induction false} ListedSize(blocks: seq<Block>, b: Block)
    requires ListsOnly(blocks, b) && b.size >= 0
    ensures Covered(BlockSizes(blocks), b)
  {
    if ListsOnly(blocks[1..], b) {
      ListedSize(blocks[1..], b);
    } else {
      assert blocks[0].digest == b.digest && blocks[0].size == b.size;
      BlockSizesAreBlocks(blocks[1..]);
      assert b.digest !in BlockSizes(blocks[1..]);
    }
  }

  /** A block that both layouts list, under one size, may be reused. */
  lemma SharedIsReused(base: Layout, current: Layout, b: Block)
    requires base.Blocks? && current.Blocks? && b.size >= 0
    requires ListsOnly(base.blocks, b) && ListsOnly(current.blocks, b)
    ensures Covered(Reusable(Some(base), Some(current)), b)
  {
    ListedSize(base.blocks, b);
    ListedSize(current.blocks, b);
  }

  /** A reused block is a block of both layouts. */
  lemma ReusedIsShared(base: Option<Layout>, current: Option<Layout>, b: Block)
    requires Covered(Reusable(base, current), b)
    ensures base.Some? && current.Some? && base.value.Blocks? && current.value.Blocks?
    ensures exists x :: x in base.value.blocks && x.digest == b.digest && x.size == b.size
    ensures exists y :: y in current.value.blocks && y.digest == b.digest && y.size == b.size
  {
    BlockSizesAreBlocks(base.value.blocks);
    BlockSizesAreBlocks(current.value.blocks);
  }
}
