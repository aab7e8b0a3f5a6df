/** How a file's bytes are laid out over stored objects: a list of blocks, or a
    tree. The put descriptors of both Fabric versions share this vocabulary. */
module Layouts {
  import opened Prelude
  import opened TreeCodec
  import opened TreeStore
  import opened Admission

  const MAX_BLOCK := 64 * 1024 * 1024
  const MAX_BLOCKS := 8192
  const MAX_SIZE := 0x100_0000_0000
  const MAX_SOURCE := 9 * 1024 * 1024

  datatype Storage = ConnectedHostCas | ObjectCas

  datatype Block = Block(index: int, offset: int, size: int, digest: Digest)

  datatype Layout =
    | Blocks(blockSize: int, count: int, total: int, storage: Storage, blocks: seq<Block>)
    | Tree(tree: TreeDescriptor, treeStorage: Storage)

  // ---------------------------------------------------------------- geometry

  /** Consecutive indices, running offsets, sizes in range. */
  predicate Running(blocks: seq<Block>, index: int, offset: int) {
    blocks == [] ||
    (blocks[0].index == index && blocks[0].offset == offset && 0 <= blocks[0].size <= MAX_BLOCK
     && Running(blocks[1..], index + 1, offset + blocks[0].size))
  }

  function Total(blocks: seq<Block>): int {
    if blocks == [] then 0 else blocks[0].size + Total(blocks[1..])
  }

  predicate Geometry(size: int, l: Layout) {
    && l.Blocks?
    && 0 <= size <= MAX_SIZE
    && 1 <= |l.blocks| <= MAX_BLOCKS
    && l.count == |l.blocks| && l.total == size
    && 1 <= l.blockSize <= MAX_BLOCK
    && Running(l.blocks, 0, 0) && Total(l.blocks) == size
    && (size == 0 ==> l.blockSize == 1 && l.blocks == [Block(0, 0, 0, EmptySha256())])
  }

  /** The descriptor check's loop over a running offset. */
  method NormalizePutDescriptor(size: int, l: Layout) returns (ok: bool)
    ensures ok <==> Geometry(size, l) && l.storage == ConnectedHostCas
  {
    if !l.Blocks? || !(0 <= size <= MAX_SIZE) || l.storage != ConnectedHostCas
       || !(1 <= |l.blocks| <= MAX_BLOCKS) || l.count != |l.blocks| || l.total != size
       || !(1 <= l.blockSize <= MAX_BLOCK) {
      return false;
    }
    var expected := 0;
    for index := 0 to |l.blocks|
      invariant Running(l.blocks, 0, 0) <==> Running(l.blocks[index..], index, expected)
      invariant Total(l.blocks) == expected + Total(l.blocks[index..])
    {
      var b := l.blocks[index];
      assert l.blocks[index..][1..] == l.blocks[index + 1..];
      if b.index != index || b.offset != expected || !(0 <= b.size <= MAX_BLOCK) {
        return false;
      }
      expected := expected + b.size;
    }
    return expected == size && (size == 0 ==> l.blockSize == 1 && l.blocks == [Block(0, 0, 0, EmptySha256())]);
  }

  // ------------------------------------------------------------------- bytes

  /** The stored blocks in order, each verified. */
  function Join(cas: Cas, blocks: seq<Block>): Result<Bytes> {
    if blocks == [] then Ok([])
    else if blocks[0].size < 0 then Rejected(BlockSizeMetadata)
    else
      var head := VerifyBlock(cas, blocks[0].digest, blocks[0].size);
      if head.Rejected? then head
      else
        var tail := Join(cas, blocks[1..]);
        if tail.Rejected? then tail else Ok(head.value + tail.value)
  }

  /** A block is the stretch of the bytes that its offset and size announce. */
  ghost predicate Stretch(cas: Cas, b: Block, bytes: Bytes, offset: nat) {
    && 0 <= b.offset - offset <= b.offset - offset + b.size <= |bytes|
    && VerifyBlock(cas, b.digest, b.size) == Ok(bytes[b.offset - offset..b.offset - offset + b.size])
  }

  lemma StretchMoves(cas: Cas, b: Block, head: Bytes, tail: Bytes, offset: nat)
    requires Stretch(cas, b, tail, offset + |head|)
    ensures Stretch(cas, b, head + tail, offset)
  {
    var k := b.offset - offset;
    assert (head + tail)[k..k + b.size] == tail[k - |head|..k - |head| + b.size];
  }

  /** Each block of a running layout is the stretch of the file that its offset
      and size announce, and together they are the whole file. */
  lemma {:induction false} JoinFollowsLayout(cas: Cas, blocks: seq<Block>, index: nat, offset: nat)
    requires Running(blocks, index, offset) && Join(cas, blocks).Ok?
    ensures |Join(cas, blocks).value| == Total(blocks)
    ensures forall i | 0 <= i < |blocks| ::
              blocks[i].index == index + i && Stretch(cas, blocks[i], Join(cas, blocks).value, offset)
    decreases |blocks|
  {
    if blocks != [] {
      var b := blocks[0];
      var head, tail := VerifyBlock(cas, b.digest, b.size).value, Join(cas, blocks[1..]).value;
      JoinFollowsLayout(cas, blocks[1..], index + 1, offset + b.size);
      assert (head + tail)[0..b.size] == head;
      forall i | 1 <= i < |blocks|
        ensures blocks[i].index == index + i && Stretch(cas, blocks[i], head + tail, offset)
      {
        assert blocks[i] == blocks[1..][i - 1];
        StretchMoves(cas, blocks[i], head, tail, offset);
      }
    }
  }

  lemma {:induction false} JoinSurvives(s: Store, s': Store, blocks: seq<Block>)
    requires Extends(s, s') && Join(s.cas, blocks).Ok?
    ensures Join(s'.cas, blocks) == Join(s.cas, blocks)
  {
    if blocks != [] {
      JoinSurvives(s, s', blocks[1..]);
    }
  }

  // ------------------------------------------------------------- descriptors

  /** A put descriptor as it arrives: any part may be missing. */
  datatype PutDescriptor = PutDescriptor(size: Option<nat>, digest: Option<Digest>, layout: Option<Layout>)

  /** The three descriptor families of `_v2_put_descriptor`; None means accepted. */
  function CheckPut(d: PutDescriptor): Option<Fault> {
    if d.layout.None? then Some(DescriptorInvalid)
    else if d.layout.value.Tree? then
      if d.digest.None? then Some(DigestInvalid)
      else if d.size.None? || CheckTree(d.layout.value.tree, d.size.value, d.digest.value).None? then Some(TreeInvalid)
      else None
    else if d.size.None? || d.digest.None? || !Geometry(d.size.value, d.layout.value) then Some(DescriptorInvalid)
    else if d.layout.value.storage == ObjectCas && !(0 < d.size.value <= MAX_SOURCE) then Some(FileTooLarge)
    else None
  }

  /** The bytes of a file, materialised from the store. */
  function FileBytes(s: Store, d: PutDescriptor): (r: Result<Bytes>)
    ensures r.Ok? ==> d.size.Some? && d.digest.Some? && d.layout.Some?
  {
    var fault := CheckPut(d);
    if fault.Some? then Rejected(fault.value)
    else if d.layout.value.Tree? then
      var part := TreeBytes(s, d.layout.value.tree, d.size.value, d.digest.value, false);
      if part.Rejected? then Rejected(part.fault) else Ok(part.value.bytes)
    else
      var data := Join(s.cas, d.layout.value.blocks);
      if data.Rejected? then data
      else if |data.value| != d.size.value || Sha256(data.value) != d.digest.value then Rejected(DescriptorInvalid)
      else data
  }

  lemma FileBytesHaveDeclaredSize(s: Store, d: PutDescriptor)
    requires FileBytes(s, d).Ok?
    ensures |FileBytes(s, d).value| == d.size.value
  {
    if d.layout.value.Tree? {
      TreeBytesIsLookup(s, d.layout.value.tree, d.size.value, d.digest.value);
    }
  }

  lemma FileBytesSurvive(s: Store, s': Store, d: PutDescriptor)
    requires Extends(s, s') && FileBytes(s, d).Ok?
    ensures FileBytes(s', d) == FileBytes(s, d)
  {
    if d.layout.value.Tree? {
      var size, digest := d.size.value, d.digest.value;
      ReadSurvives(s, s', CheckTree(d.layout.value.tree, size, digest).value, Height(size), size, 0, false);
    } else {
      JoinSurvives(s, s', d.layout.value.blocks);
    }
  }

  /** A block file's digest is the hash of its bytes, which are its blocks in order. */
  lemma BlockFileIsHashed(s: Store, d: PutDescriptor)
    requires FileBytes(s, d).Ok? && d.layout.value.Blocks?
    ensures d.digest == Some(Sha256(FileBytes(s, d).value))
    ensures Running(d.layout.value.blocks, 0, 0) && Join(s.cas, d.layout.value.blocks) == FileBytes(s, d)
  {
  }

  // ---------------------------------------------------------- cutting a file

  function Concat(chunks: seq<Bytes>): Bytes {
    if chunks == [] then [] else chunks[0] + Concat(chunks[1..])
  }

  /** The block list of a file that is cut into chunks. */
  function BlocksOf(chunks: seq<Bytes>, index: nat, offset: nat): (blocks: seq<Block>)
    ensures |blocks| == |chunks|
    decreases |chunks|
  {
    if chunks == [] then []
    else
      [Block(index, offset, |chunks[0]|, Sha256(chunks[0]))]
      + BlocksOf(chunks[1..], index + 1, offset + |chunks[0]|)
  }

  /** Chunks of at most the size of a block. */
  predicate Small(chunks: seq<Bytes>) {
    chunks == [] || (|chunks[0]| <= MAX_BLOCK && Small(chunks[1..]))
  }

  /** Chunks that a block list can name; an empty file is one empty chunk. */
  predicate Cut(chunks: seq<Bytes>) {
    1 <= |chunks| <= MAX_BLOCKS && Small(chunks) && (Concat(chunks) == [] ==> chunks == [[]])
  }

  function DescriptorOf(chunks: seq<Bytes>, storage: Storage): PutDescriptor {
    var data := Concat(chunks);
    PutDescriptor(
      Some(|data|), Some(Sha256(data)),
      Some(Blocks(if data == [] then 1 else MAX_BLOCK, |chunks|, |data|, storage, BlocksOf(chunks, 0, 0))))
  }

  ghost predicate ChunksStored(cas: Cas, chunks: seq<Bytes>) {
    chunks == []
    || (VerifyBlock(cas, Sha256(chunks[0]), |chunks[0]|) == Ok(chunks[0]) && ChunksStored(cas, chunks[1..]))
  }

  lemma RunningCons(b: Block, rest: seq<Block>, index: int, offset: int)
    requires b.index == index && b.offset == offset && 0 <= b.size <= MAX_BLOCK
    requires Running(rest, index + 1, offset + b.size)
    ensures Running([b] + rest, index, offset) && Total([b] + rest) == b.size + Total(rest)
  {
    assert ([b] + rest)[1..] == rest;
  }

  lemma {:induction false} ChunksRun(chunks: seq<Bytes>, index: nat, offset: nat)
    requires Small(chunks)
    ensures Running(BlocksOf(chunks, index, offset), index, offset)
    ensures Total(BlocksOf(chunks, index, offset)) == |Concat(chunks)|
    decreases |chunks|
  {
    if chunks != [] {
      var c, rest := chunks[0], chunks[1..];
      ChunksRun(rest, index + 1, offset + |c|);
      RunningCons(Block(index, offset, |c|, Sha256(c)), BlocksOf(rest, index + 1, offset + |c|), index, offset);
    }
  }

  lemma {:induction false} ChunksFit(chunks: seq<Bytes>)
    requires Small(chunks)
    ensures |Concat(chunks)| <= MAX_BLOCK * |chunks|
  {
    if chunks != [] {
      ChunksFit(chunks[1..]);
    }
  }

  lemma JoinCons(cas: Cas, b: Block, rest: seq<Block>, head: Bytes, tail: Bytes)
    requires b.size >= 0 && VerifyBlock(cas, b.digest, b.size) == Ok(head) && Join(cas, rest) == Ok(tail)
    ensures Join(cas, [b] + rest) == Ok(head + tail)
  {
    assert ([b] + rest)[1..] == rest;
  }

  lemma {:induction false} ChunksJoin(cas: Cas, chunks: seq<Bytes>, index: nat, offset: nat)
    requires ChunksStored(cas, chunks)
    ensures Join(cas, BlocksOf(chunks, index, offset)) == Ok(Concat(chunks))
    decreases |chunks|
  {
    if chunks != [] {
      var c, rest := chunks[0], chunks[1..];
      ChunksJoin(cas, rest, index + 1, offset + |c|);
      JoinCons(cas, Block(index, offset, |c|, Sha256(c)), BlocksOf(rest, index + 1, offset + |c|), c, Concat(rest));
    }
  }

  /** However a file is cut, its block list is a legal descriptor. */
  lemma CutIsAccepted(chunks: seq<Bytes>, storage: Storage)
    requires Cut(chunks) && (storage == ObjectCas ==> 0 < |Concat(chunks)| <= MAX_SOURCE)
    ensures CheckPut(DescriptorOf(chunks, storage)).None?
    ensures Geometry(|Concat(chunks)|, DescriptorOf(chunks, storage).layout.value)
  {
    ChunksRun(chunks, 0, 0);
    ChunksFit(chunks);
    if Concat(chunks) == [] {
      assert BlocksOf(chunks, 0, 0) == [Block(0, 0, 0, EmptySha256())];
    }
  }

  /** And once its chunks are stored it assembles to the file. */
  lemma CutIsAssembled(s: Store, chunks: seq<Bytes>, storage: Storage)
    requires Cut(chunks) && (storage == ObjectCas ==> 0 < |Concat(chunks)| <= MAX_SOURCE)
    requires ChunksStored(s.cas, chunks)
    ensures FileBytes(s, DescriptorOf(chunks, storage)) == Ok(Concat(chunks))
  {
    CutIsAccepted(chunks, storage);
    ChunksJoin(s.cas, chunks, 0, 0);
  }

  /** What a hold validates: a tree without materialising it, or the bytes. */
  function Validates(s: Store, d: PutDescriptor): Option<Fault> {
    if d.size.Some? && d.digest.Some? && d.layout.Some? && d.layout.value.Tree? then
      var r := TreeBytes(s, d.layout.value.tree, d.size.value, d.digest.value, true);
      if r.Ok? then None else Some(r.fault)
    else
      var r := FileBytes(s, d);
      if r.Ok? then None else Some(r.fault)
  }

  function BlockObjects(blocks: seq<Block>): set<Obj> {
    if blocks == [] then {}
    else (if blocks[0].size >= 0 then {Obj(blocks[0].digest, blocks[0].size)} else {}) + BlockObjects(blocks[1..])
  }

  /** The objects a file is made of. */
  function FileObjects(cas: Cas, d: PutDescriptor): set<Obj> {
    if d.layout.None? || d.size.None? || d.digest.None? then {}
    else if d.layout.value.Tree? then
      var root := CheckTree(d.layout.value.tree, d.size.value, d.digest.value);
      if root.None? then {} else Objects(cas, root.value, Height(d.size.value))
    else BlockObjects(d.layout.value.blocks)
  }

  /** Validation and the set of reachable objects outlive every extension. */
  lemma ValidationSurvives(s: Store, s': Store, d: PutDescriptor)
    requires Extends(s, s') && Validates(s, d).None?
    ensures Validates(s', d).None? && FileObjects(s'.cas, d) == FileObjects(s.cas, d)
  {
    if d.size.Some? && d.digest.Some? && d.layout.Some? && d.layout.value.Tree? {
      var size, digest := d.size.value, d.digest.value;
      ReadSurvives(s, s', CheckTree(d.layout.value.tree, size, digest).value, Height(size), size, 0, true);
    } else {
      FileBytesSurvive(s, s', d);
    }
  }

  /** A file assembles to the same bytes, and a tree too large for that has the same byte
      at every position. */
  ghost predicate SameBytes(s: Store, s': Store, d: PutDescriptor) {
    && (FileBytes(s, d).Ok? ==> FileBytes(s', d) == FileBytes(s, d))
    && (d.size.Some? && d.digest.Some? && d.layout.Some? && d.layout.value.Tree? ==>
          var root := CheckTree(d.layout.value.tree, d.size.value, d.digest.value);
          && root.Some?
          && forall i: nat :: ByteAt(s'.cas, root.value, Height(d.size.value), i)
                              == ByteAt(s.cas, root.value, Height(d.size.value), i))
  }

  /** The bytes of a file that validates outlive every extension. */
  lemma BytesOutlive(s: Store, s': Store, d: PutDescriptor)
    requires Extends(s, s') && Validates(s, d).None?
    ensures SameBytes(s, s', d)
  {
    if FileBytes(s, d).Ok? {
      FileBytesSurvive(s, s', d);
    }
    if d.size.Some? && d.digest.Some? && d.layout.Some? && d.layout.value.Tree? {
      var size := d.size.value;
      var root := CheckTree(d.layout.value.tree, size, d.digest.value).value;
      forall i: nat
        ensures ByteAt(s'.cas, root, Height(size), i) == ByteAt(s.cas, root, Height(size), i)
      {
        ByteAtSurvives(s, s', root, Height(size), size, 0, i);
      }
    }
  }

  // -------------------------------------------------------------- block lists

  /** `_block_descriptors`: in bounds, without repetition, honest about emptiness. */
  function CheckBlocks(blocks: seq<Obj>, maximum: nat): Option<Fault> {
    if blocks == [] || |blocks| > maximum then Some(BlocksInvalid) else CheckEach(blocks, map[])
  }

  function CheckEach(blocks: seq<Obj>, seen: map<Digest, nat>): Option<Fault>
    decreases |blocks|
  {
    if blocks == [] then None
    else
      var b := blocks[0];
      if b.size > MAX_BLOCK || (b.size == 0 && b.digest != EmptySha256()) then Some(BlocksInvalid)
      else if b.digest in seen then Some(if seen[b.digest] == b.size then BlockDuplicate else BlockConflict)
      else CheckEach(blocks[1..], seen[b.digest := b.size])
  }

  ghost predicate DistinctDigests(blocks: seq<Obj>) {
    forall i, j | 0 <= i < j < |blocks| :: blocks[i].digest != blocks[j].digest
  }

  /** A block list that may be asked about: each digest once, no block too large, and the
      digest of nothing on an empty one. */
  ghost predicate Askable(blocks: seq<Obj>) {
    && DistinctDigests(blocks)
    && (forall b | b in blocks :: b.size <= MAX_BLOCK && (b.size == 0 ==> b.digest == EmptySha256()))
  }

  lemma FirstApart(b: Obj, rest: seq<Obj>)
    requires DistinctDigests([b] + rest)
    ensures DistinctDigests(rest) && forall x | x in rest :: x.digest != b.digest
  {
    var blocks := [b] + rest;
    assert forall i | 0 <= i < |rest| :: rest[i] == blocks[i + 1];
    forall x | x in rest
      ensures x.digest != b.digest
    {
      var i :| 0 <= i < |rest| && rest[i] == x;
      assert blocks[i + 1] == x && blocks[0] == b;
    }
  }

  lemma {:induction false} DigestsApart(b: Obj, rest: seq<Obj>)
    ensures DistinctDigests([b] + rest) <==> DistinctDigests(rest) && forall x | x in rest :: x.digest != b.digest
  {
    var blocks := [b] + rest;
    if DistinctDigests(blocks) {
      FirstApart(b, rest);
    }
    if DistinctDigests(rest) && forall x | x in rest :: x.digest != b.digest {
      forall i, j | 0 <= i < j < |blocks|
        ensures blocks[i].digest != blocks[j].digest
      {
        assert blocks[j] == rest[j - 1] && rest[j - 1] in rest;
        assert i > 0 ==> blocks[i] == rest[i - 1];
      }
    }
  }

  lemma AskableStep(b: Obj, rest: seq<Obj>)
    ensures Askable([b] + rest)
            <==> Askable(rest) && (forall x | x in rest :: x.digest != b.digest)
                 && b.size <= MAX_BLOCK && (b.size == 0 ==> b.digest == EmptySha256())
  {
    assert forall x :: x in [b] + rest <==> x == b || x in rest;
    DigestsApart(b, rest);
  }

  lemma {:induction false} CheckEachIsExact(blocks: seq<Obj>, seen: map<Digest, nat>)
    ensures CheckEach(blocks, seen).None? <==> Askable(blocks) && forall b | b in blocks :: b.digest !in seen
    decreases |blocks|
  {
    if blocks != [] {
      var b, rest := blocks[0], blocks[1..];
      assert blocks == [b] + rest && forall x :: x in blocks <==> x == b || x in rest;
      AskableStep(b, rest);
      CheckEachIsExact(rest, seen[b.digest := b.size]);
    }
  }

  /** A list is accepted exactly when it is askable and neither empty nor too long. */
  lemma CheckBlocksIsExact(blocks: seq<Obj>, maximum: nat)
    ensures CheckBlocks(blocks, maximum).None? <==> 1 <= |blocks| <= maximum && Askable(blocks)
  {
    CheckEachIsExact(blocks, map[]);
  }

  function VerifyEach(cas: Cas, blocks: seq<Obj>): Option<Fault> {
    if blocks == [] then None
    else
      var r := VerifyBlock(cas, blocks[0].digest, blocks[0].size);
      if r.Rejected? then Some(r.fault) else VerifyEach(cas, blocks[1..])
  }

  ghost predicate EachStored(cas: Cas, blocks: seq<Obj>) {
    forall b | b in blocks :: VerifyBlock(cas, b.digest, b.size).Ok?
  }

  lemma {:induction false} VerifyEachIsExact(cas: Cas, blocks: seq<Obj>)
    ensures VerifyEach(cas, blocks).None? <==> EachStored(cas, blocks)
  {
    if blocks != [] {
      VerifyEachIsExact(cas, blocks[1..]);
      assert forall b :: b in blocks <==> b == blocks[0] || b in blocks[1..];
    }
  }

  function SizesOf(blocks: seq<Obj>): map<Digest, nat> {
    if blocks == [] then map[] else map[blocks[0].digest := blocks[0].size] + SizesOf(blocks[1..])
  }

  lemma {:induction false} VerifiedAreStored(cas: Cas, blocks: seq<Obj>)
    requires VerifyEach(cas, blocks).None?
    ensures BlocksStored(cas, SizesOf(blocks))
  {
    if blocks != [] {
      VerifiedAreStored(cas, blocks[1..]);
    }
  }

  function BlockSizes(blocks: seq<Block>): Sizes {
    if blocks == [] then map[]
    else (if blocks[0].size >= 0 then map[blocks[0].digest := blocks[0].size] else map[]) + BlockSizes(blocks[1..])
  }

  /** Where every block is stored intact, each is recorded with its own size. */
  lemma {:induction false} JoinedSizesAreObjects(cas: Cas, blocks: seq<Block>)
    requires Join(cas, blocks).Ok?
    ensures forall o | o in BlockObjects(blocks) ::
              && o.digest in BlockSizes(blocks) && BlockSizes(blocks)[o.digest] == o.size
              && VerifyBlock(cas, o.digest, o.size).Ok?
  {
    if blocks != [] {
      JoinedSizesAreObjects(cas, blocks[1..]);
      var b, rest := blocks[0], BlockSizes(blocks[1..]);
      if b.digest in rest {
        BlockSizesAreObjects(blocks[1..]);
        assert Obj(b.digest, rest[b.digest]) in BlockObjects(blocks[1..]);
      }
    }
  }

  lemma {:induction false} BlockSizesAreObjects(blocks: seq<Block>)
    ensures forall d | d in BlockSizes(blocks) :: Obj(d, BlockSizes(blocks)[d]) in BlockObjects(blocks)
  {
    if blocks != [] {
      BlockSizesAreObjects(blocks[1..]);
    }
  }
}
