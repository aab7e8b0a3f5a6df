/** The content store, the tree reader over it, and the sets of proven objects
    that bound what the reader may follow. */
module TreeStore {
  import opened Prelude
  import opened TreeCodec

  /** An object's bytes and the size its metadata records. */
  datatype Stored = Stored(data: Bytes, size: nat)

  type Cas = map<Digest, Stored>

  datatype Obj = Obj(digest: Digest, size: nat)

  datatype NodeKey = NodeKey(digest: Digest, size: nat, height: nat)

  datatype Store = Store(cas: Cas, nodes: set<NodeKey>, proofs: set<Obj>)

  const MAX_VISITS := 2048

  /** The bytes of an object whose stored size, length and hash all agree with
      the reference. */
  function VerifyBlock(cas: Cas, digest: Digest, size: nat): (r: Result<Bytes>)
    ensures r.Ok? <==> digest in cas && cas[digest].size == size && |cas[digest].data| == size
                       && Sha256(cas[digest].data) == digest
    ensures r.Ok? ==> r.value == cas[digest].data
  {
    if digest !in cas then Rejected(BlockMissing)
    else if cas[digest].size != size then Rejected(BlockSizeMetadata)
    else if |cas[digest].data| != size then Rejected(BlockSizeMismatch)
    else if Sha256(cas[digest].data) != digest then Rejected(BlockShaMismatch)
    else Ok(cas[digest].data)
  }

  // ------------------------------------------------------------------ reader

  /** What one call of the reader yields: bytes, and the visit counter after it. */
  datatype Part = Part(bytes: Bytes, visits: nat)

  function Zeros(n: nat): (z: Bytes)
    ensures |z| == n
  {
    seq(n, _ => 0)
  }

  function Min(a: nat, b: nat): nat {
    if a < b then a else b
  }

  function Window(raw: Bytes, offset: nat, length: nat, count: nat): (w: Bytes)
    requires offset + length <= |raw|
    ensures |w| == count
    ensures forall i | 0 <= i < count :: w[i] == if i < length then raw[offset + i] else 0
  {
    raw[offset..offset + Min(count, length)] + Zeros(count - Min(count, length))
  }

  /** The first `count` bytes below a reference, or nothing when only validating. */
  function Read(s: Store, ref: Ref, level: nat, count: nat, visits: nat, validate: bool): (r: Result<Part>)
    requires Legal(ref, level)
    decreases level, 0
  {
    if visits >= MAX_VISITS then Rejected(TreeInvalid)
    else
      match ref
      case Hole => Ok(Part(if validate then [] else Zeros(count), visits + 1))
      case Data(digest, size, offset, length) =>
        var raw := VerifyBlock(s.cas, digest, size);
        if raw.Rejected? then Rejected(raw.fault)
        else if Obj(digest, size) !in s.proofs then Rejected(TreeClosureUnavailable)
        else Ok(Part(if validate then [] else Window(raw.value, offset, length, count), visits + 1))
      case Node(digest, size) =>
        var raw := VerifyBlock(s.cas, digest, size);
        if raw.Rejected? then Rejected(raw.fault)
        else if NodeKey(digest, size, level) !in s.nodes then Rejected(TreeClosureUnavailable)
        else
          var children := ParseNode(raw.value, level);
          if children.None? then Rejected(TreeInvalid)
          else ReadAll(s, children.value, level - 1, count, visits + 1, validate)
  }

  /** The children in turn, each given its share of the remaining count. */
  function ReadAll(s: Store, refs: seq<Ref>, level: nat, count: nat, visits: nat, validate: bool): (r: Result<Part>)
    requires AllLegal(refs, level)
    decreases level, |refs| + 1
  {
    if refs == [] then Ok(Part([], visits))
    else
      var take := Min(count, Span(level));
      var head := Read(s, refs[0], level, take, visits, validate);
      if head.Rejected? then head
      else
        var tail := ReadAll(s, refs[1..], level, count - take, head.value.visits, validate);
        if tail.Rejected? then tail
        else Ok(Part(head.value.bytes + tail.value.bytes, tail.value.visits))
  }

  /** The whole of `_tree_bytes`. */
  function TreeBytes(s: Store, d: TreeDescriptor, size: nat, digest: Digest, validate: bool): Result<Part> {
    var root := CheckTree(d, size, digest);
    if root.None? then Rejected(TreeInvalid)
    else if !validate && size > MAX_FILE then Rejected(MaterializationTooLarge)
    else Read(s, root.value, Height(size), size, 0, validate)
  }

  // ------------------------------------------------- reading is point lookup

  /** Which child holds a position, and where in that child it lies. */
  function Child(i: nat, span: nat): nat
    requires span > 0
  {
    if i < span then 0 else 1 + Child(i - span, span)
  }

  function Within(i: nat, span: nat): nat
    requires span > 0
  {
    if i < span then i else Within(i - span, span)
  }

  lemma {:induction false} ChildAndWithin(i: nat, span: nat)
    requires span > 0
    ensures i == Child(i, span) * span + Within(i, span) && Within(i, span) < span
    decreases i
  {
    if i >= span {
      ChildAndWithin(i - span, span);
      Multiply(1, Child(i - span, span), span);
    }
  }

  /** They are quotient and remainder. */
  lemma ChildIsQuotient(i: nat, span: nat)
    requires span > 0
    ensures Child(i, span) == i / span && Within(i, span) == i % span
  {
    ChildAndWithin(i, span);
    QuotientIsUnique(i, span, Child(i, span), Within(i, span), i / span, i % span);
  }

  lemma QuotientIsUnique(i: nat, span: nat, q: nat, m: nat, p: nat, n: nat)
    requires m < span && n < span
    requires i == q * span + m == p * span + n
    ensures q == p && m == n
  {
    if p < q {
      Multiply(q, p + 1, span);
      Multiply(p, 1, span);
    } else if q < p {
      Multiply(p, q + 1, span);
      Multiply(q, 1, span);
    }
  }

  lemma Multiply(a: int, b: int, span: nat)
    ensures (a + b) * span == a * span + b * span
    ensures a >= b ==> a * span >= b * span
  {
  }

  /** The byte at a position, found by descending one child per level. */
  function ByteAt(cas: Cas, ref: Ref, level: nat, i: nat): byte
    decreases level
  {
    match ref
    case Hole => 0
    case Data(digest, _, offset, length) =>
      if i < length && digest in cas && offset + i < |cas[digest].data| then cas[digest].data[offset + i] else 0
    case Node(digest, _) =>
      if digest !in cas then 0
      else
        var children := ParseNode(cas[digest].data, level);
        if children.None? || Child(i, Span(level - 1)) >= FANOUT then 0
        else ByteAt(cas, children.value[Child(i, Span(level - 1))], level - 1, Within(i, Span(level - 1)))
  }

  /** A materialising read returns exactly `count` bytes, each the one that point
      lookup finds. */
  lemma {:induction false} ReadIsLookup(s: Store, ref: Ref, level: nat, count: nat, visits: nat)
    requires Legal(ref, level) && count <= Span(level)
    requires Read(s, ref, level, count, visits, false).Ok?
    ensures var bytes := Read(s, ref, level, count, visits, false).value.bytes;
            |bytes| == count && forall i | 0 <= i < count :: bytes[i] == ByteAt(s.cas, ref, level, i)
    decreases level, 0
  {
    if ref.Node? {
      var raw := VerifyBlock(s.cas, ref.digest, ref.size).value;
      var children := ParseNode(raw, level).value;
      CoverIsProduct(|children|, level - 1);
      ReadAllIsLookup(s, children, level - 1, count, visits + 1);
      var bytes := ReadAll(s, children, level - 1, count, visits + 1, false).value.bytes;
      forall i | 0 <= i < count
        ensures bytes[i] == ByteAt(s.cas, ref, level, i)
      {
        assert Looks(s.cas, children, level - 1, bytes, i);
        LooksThrough(s.cas, ref, level, children, bytes, i);
      }
    }
  }

  /** The bytes covered by n neighbours at a level. */
  function Cover(n: nat, level: nat): nat {
    if n == 0 then 0 else Span(level) + Cover(n - 1, level)
  }

  lemma {:induction false} CoverIsProduct(n: nat, level: nat)
    ensures Cover(n, level) == n * Span(level)
  {
    if n > 0 {
      CoverIsProduct(n - 1, level);
      Multiply(n - 1, 1, Span(level));
    }
  }

  /** A position of the bytes under some neighbours holds what point lookup finds. */
  ghost predicate Looks(cas: Cas, refs: seq<Ref>, level: nat, bytes: Bytes, i: nat)
    requires i < |bytes|
  {
    && Child(i, Span(level)) < |refs|
    && bytes[i] == ByteAt(cas, refs[Child(i, Span(level))], level, Within(i, Span(level)))
  }

  /** Point lookup at a node goes on in the child. */
  lemma LooksThrough(cas: Cas, ref: Ref, level: nat, children: seq<Ref>, bytes: Bytes, i: nat)
    requires ref.Node? && level > 0 && ref.digest in cas && ParseNode(cas[ref.digest].data, level) == Some(children)
    requires |children| <= FANOUT && i < |bytes| && Looks(cas, children, level - 1, bytes, i)
    ensures bytes[i] == ByteAt(cas, ref, level, i)
  {
  }

  lemma LooksFirst(cas: Cas, refs: seq<Ref>, level: nat, head: Bytes, tail: Bytes, i: nat)
    requires refs != [] && i < |head| <= Span(level)
    requires head[i] == ByteAt(cas, refs[0], level, i)
    ensures Looks(cas, refs, level, head + tail, i)
  {
  }

  lemma LooksFurther(cas: Cas, refs: seq<Ref>, level: nat, head: Bytes, tail: Bytes, i: nat)
    requires refs != [] && |head| == Span(level) <= i < |head| + |tail|
    requires Looks(cas, refs[1..], level, tail, i - Span(level))
    ensures Looks(cas, refs, level, head + tail, i)
  {
    var span := Span(level);
    assert refs[1..][Child(i - span, span)] == refs[Child(i, span)];
  }

  lemma {:induction false} ReadAllIsLookup(s: Store, refs: seq<Ref>, level: nat, count: nat, visits: nat)
    requires AllLegal(refs, level) && count <= Cover(|refs|, level)
    requires ReadAll(s, refs, level, count, visits, false).Ok?
    ensures var bytes := ReadAll(s, refs, level, count, visits, false).value.bytes;
            |bytes| == count && forall i | 0 <= i < count :: Looks(s.cas, refs, level, bytes, i)
    decreases level, |refs| + 1
  {
    if refs != [] {
      var take := Min(count, Span(level));
      ReadIsLookup(s, refs[0], level, take, visits);
      var head := Read(s, refs[0], level, take, visits, false).value;
      ReadAllIsLookup(s, refs[1..], level, count - take, head.visits);
      var tail := ReadAll(s, refs[1..], level, count - take, head.visits, false).value;
      forall i | 0 <= i < count
        ensures Looks(s.cas, refs, level, head.bytes + tail.bytes, i)
      {
        if i < take {
          LooksFirst(s.cas, refs, level, head.bytes, tail.bytes, i);
        } else {
          LooksFurther(s.cas, refs, level, head.bytes, tail.bytes, i);
        }
      }
    }
  }

  /** Materialising an accepted descriptor yields the file: its declared size, and
      at each position the byte that descending the tree finds. */
  lemma TreeBytesIsLookup(s: Store, d: TreeDescriptor, size: nat, digest: Digest)
    requires TreeBytes(s, d, size, digest, false).Ok?
    ensures var bytes := TreeBytes(s, d, size, digest, false).value.bytes;
            |bytes| == size
            && forall i | 0 <= i < size ::
                 bytes[i] == ByteAt(s.cas, CheckTree(d, size, digest).value, Height(size), i)
  {
    HeightFromIsLeast(size, 0);
    ReadIsLookup(s, CheckTree(d, size, digest).value, Height(size), size, 0);
  }

  // ------------------------------------------------ validating is reading

  ghost predicate SameOutcome(a: Result<Part>, b: Result<Part>) {
    if a.Ok? then b.Ok? && a.value.visits == b.value.visits else a == b
  }

  lemma {:induction false} ValidateIsRead(s: Store, ref: Ref, level: nat, count: nat, count': nat, visits: nat)
    requires Legal(ref, level)
    ensures SameOutcome(Read(s, ref, level, count, visits, true), Read(s, ref, level, count', visits, false))
    decreases level, 0
  {
    if ref.Node? && visits < MAX_VISITS && VerifyBlock(s.cas, ref.digest, ref.size).Ok? {
      var children := ParseNode(s.cas[ref.digest].data, level);
      if children.Some? {
        ValidateAllIsReadAll(s, children.value, level - 1, count, count', visits + 1);
      }
    }
  }

  lemma {:induction false} ValidateAllIsReadAll(
      s: Store, refs: seq<Ref>, level: nat, count: nat, count': nat, visits: nat)
    requires AllLegal(refs, level)
    ensures SameOutcome(ReadAll(s, refs, level, count, visits, true), ReadAll(s, refs, level, count', visits, false))
    decreases level, |refs| + 1
  {
    if refs != [] {
      var take, take' := Min(count, Span(level)), Min(count', Span(level));
      ValidateIsRead(s, refs[0], level, take, take', visits);
      var head := Read(s, refs[0], level, take, visits, true);
      if head.Ok? {
        ValidateAllIsReadAll(s, refs[1..], level, count - take, count' - take', head.value.visits);
      }
    }
  }

  /** Up to the materialisation limit the two modes accept the same descriptors
      and refuse the others for the same reason. */
  lemma ValidateOnlyIsFaithful(s: Store, d: TreeDescriptor, size: nat, digest: Digest)
    requires size <= MAX_FILE
    ensures SameOutcome(TreeBytes(s, d, size, digest, true), TreeBytes(s, d, size, digest, false))
  {
    var root := CheckTree(d, size, digest);
    if root.Some? {
      ValidateIsRead(s, root.value, Height(size), size, size, 0);
    }
  }

  // --------------------------------------------------------------- the walk

  /** The objects that a reference reaches. */
  function Objects(cas: Cas, ref: Ref, level: nat): set<Obj>
    decreases level, 0
  {
    match ref
    case Hole => {}
    case Data(digest, size, _, _) => {Obj(digest, size)}
    case Node(digest, size) =>
      {Obj(digest, size)} +
      if digest !in cas || ParseNode(cas[digest].data, level).None? then {}
      else AllObjects(cas, ParseNode(cas[digest].data, level).value, level - 1)
  }

  function AllObjects(cas: Cas, refs: seq<Ref>, level: nat): set<Obj>
    decreases level, |refs| + 1
  {
    if refs == [] then {} else Objects(cas, refs[0], level) + AllObjects(cas, refs[1..], level)
  }

  /** How many calls of the reader a reference costs. */
  function Visits(cas: Cas, ref: Ref, level: nat): nat
    decreases level, 0
  {
    if ref.Node? && ref.digest in cas && ParseNode(cas[ref.digest].data, level).Some?
    then 1 + AllVisits(cas, ParseNode(cas[ref.digest].data, level).value, level - 1)
    else 1
  }

  function AllVisits(cas: Cas, refs: seq<Ref>, level: nat): nat
    decreases level, |refs| + 1
  {
    if refs == [] then 0 else Visits(cas, refs[0], level) + AllVisits(cas, refs[1..], level)
  }

  type Sizes = map<Digest, nat>

  datatype Walk = Walk(sizes: Sizes, calls: nat)

  /** The walk of a block read: it looks up raw bytes without verifying them and
      fails where Python would. */
  function Visit(cas: Cas, ref: Ref, level: nat, w: Walk): Option<Walk>
    decreases level, 0
  {
    var calls := w.calls + 1;
    match ref
    case Hole => Some(w.(calls := calls))
    case Data(digest, size, _, _) => Some(Walk(w.sizes[digest := size], calls))
    case Node(digest, size) =>
      if digest !in cas then None
      else
        var children := ParseNode(cas[digest].data, level);
        if children.None? then None
        else VisitAll(cas, children.value, level - 1, Walk(w.sizes[digest := size], calls))
  }

  function VisitAll(cas: Cas, refs: seq<Ref>, level: nat, w: Walk): Option<Walk>
    decreases level, |refs| + 1
  {
    if refs == [] then Some(w)
    else
      var next := Visit(cas, refs[0], level, w);
      if next.None? then None else VisitAll(cas, refs[1..], level, next.value)
  }

  /** `after` is `before` with exactly these objects recorded, one size each. */
  ghost predicate Records(before: Sizes, after: Sizes, objects: set<Obj>) {
    && (forall o | o in objects :: o.digest in after && after[o.digest] == o.size)
    && (forall d | d in before :: d in after)
    && (forall d | d in after :: Obj(d, after[d]) in objects || (d in before && before[d] == after[d]))
  }

  /** Every recorded size is the length of the stored object. */
  ghost predicate Faithful(cas: Cas, sizes: Sizes) {
    forall d | d in sizes :: d in cas && sizes[d] == |cas[d].data|
  }

  lemma {:induction false} WalkAfterRead(s: Store, ref: Ref, level: nat, count: nat, visits: nat, w: Walk)
    requires Legal(ref, level) && Faithful(s.cas, w.sizes)
    requires Read(s, ref, level, count, visits, true).Ok?
    ensures var out := Visit(s.cas, ref, level, w);
            && out.Some? && Faithful(s.cas, out.value.sizes)
            && Records(w.sizes, out.value.sizes, Objects(s.cas, ref, level))
            && out.value.calls == w.calls + Visits(s.cas, ref, level)
    ensures Read(s, ref, level, count, visits, true).value.visits == visits + Visits(s.cas, ref, level) <= MAX_VISITS
    decreases level, 0
  {
    if ref.Node? {
      var children := ParseNode(s.cas[ref.digest].data, level).value;
      var w' := Walk(w.sizes[ref.digest := ref.size], w.calls + 1);
      WalkAfterReadAll(s, children, level - 1, count, visits + 1, w');
    }
  }

  lemma {:induction false} WalkAfterReadAll(s: Store, refs: seq<Ref>, level: nat, count: nat, visits: nat, w: Walk)
    requires AllLegal(refs, level) && Faithful(s.cas, w.sizes) && visits <= MAX_VISITS
    requires ReadAll(s, refs, level, count, visits, true).Ok?
    ensures var out := VisitAll(s.cas, refs, level, w);
            && out.Some? && Faithful(s.cas, out.value.sizes)
            && Records(w.sizes, out.value.sizes, AllObjects(s.cas, refs, level))
            && out.value.calls == w.calls + AllVisits(s.cas, refs, level)
    ensures ReadAll(s, refs, level, count, visits, true).value.visits
              == visits + AllVisits(s.cas, refs, level) <= MAX_VISITS
    decreases level, |refs| + 1
  {
    if refs != [] {
      var take := Min(count, Span(level));
      WalkAfterRead(s, refs[0], level, take, visits, w);
      var head := Read(s, refs[0], level, take, visits, true).value;
      var mid := Visit(s.cas, refs[0], level, w).value;
      WalkAfterReadAll(s, refs[1..], level, count - take, head.visits, mid);
    }
  }

  /** After a successful validation the walk cannot fail, costs what the reader
      counted, and collects exactly the reachable objects, one size per digest. */
  lemma WalkIsExact(s: Store, d: TreeDescriptor, size: nat, digest: Digest)
    requires TreeBytes(s, d, size, digest, true).Ok?
    ensures var root := CheckTree(d, size, digest).value;
            var out := Visit(s.cas, root, Height(size), Walk(map[], 0));
            && out.Some? && out.value.calls <= MAX_VISITS
            && (forall x: Digest, n: nat ::
                  (x in out.value.sizes && out.value.sizes[x] == n)
                  <==> Obj(x, n) in Objects(s.cas, root, Height(size)))
  {
    WalkAfterRead(s, CheckTree(d, size, digest).value, Height(size), size, 0, Walk(map[], 0));
  }
}
