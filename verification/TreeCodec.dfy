/** The wire form of the sparse file tree: heights, references, nodes and root
    descriptors. A tree of height h covers 4096 * 64^h bytes. */
module TreeCodec {
  import opened Prelude

  const PAGE := 4096
  const MAX_FILE := 4 * 1024 * 1024
  const MAX_TREE_SOURCE := 2 * 1024 * 1024 * 1024 + 4096
  const FANOUT := 64

  // ---------------------------------------------------------------- heights

  /** The bytes covered by one reference at a level. */
  function Span(level: nat): (s: nat)
    ensures s >= PAGE
  {
    if level == 0 then PAGE else FANOUT * Span(level - 1)
  }

  /** The height of the smallest tree that covers a file of this size. */
  function HeightFrom(size: nat, height: nat): nat
    decreases size - Span(height)
  {
    if Span(height) < size then HeightFrom(size, height + 1) else height
  }

  function Height(size: nat): nat {
    HeightFrom(size, 0)
  }

  lemma {:induction false} HeightFromIsLeast(size: nat, height: nat)
    requires height > 0 ==> Span(height - 1) < size
    ensures var h := HeightFrom(size, height);
            h >= height && size <= Span(h) && (h > 0 ==> Span(h - 1) < size)
    decreases size - Span(height)
  {
    if Span(height) < size {
      HeightFromIsLeast(size, height + 1);
    }
  }

  method TreeHeight(size: nat) returns (height: nat)
    ensures size <= Span(height)
    ensures height > 0 ==> Span(height - 1) < size
    ensures height == Height(size)
  {
    height := 0;
    var span := PAGE;
    while span < size
      invariant span == Span(height)
      invariant height > 0 ==> Span(height - 1) < size
      invariant HeightFrom(size, height) == Height(size)
      decreases size - span
    {
      height, span := height + 1, FANOUT * span;
    }
  }

  const MAX_HEIGHT := Height(MAX_TREE_SOURCE)

  lemma MaxHeightIsFour()
    ensures MAX_HEIGHT == 4
  {
    assert Span(1) == 262144;
    assert Span(2) == 16777216;
    assert Span(3) == 1073741824;
    assert Span(4) == 68719476736;
    assert HeightFrom(MAX_TREE_SOURCE, 4) == 4;
    assert HeightFrom(MAX_TREE_SOURCE, 3) == 4;
    assert HeightFrom(MAX_TREE_SOURCE, 2) == 4;
    assert HeightFrom(MAX_TREE_SOURCE, 1) == 4;
  }

  lemma {:induction false} SpanGrows(low: nat, high: nat)
    requires low <= high
    ensures Span(low) <= Span(high)
    decreases high
  {
    if low < high {
      SpanGrows(low, high - 1);
    }
  }

  lemma HeightIsAtMostFour(size: nat)
    requires size <= MAX_TREE_SOURCE
    ensures Height(size) <= 4
  {
    HeightFromIsLeast(size, 0);
    HeightFromIsLeast(MAX_TREE_SOURCE, 0);
    MaxHeightIsFour();
    if Height(size) > 4 {
      SpanGrows(4, Height(size) - 1);
    }
  }

  // ---------------------------------------------------------------- integers

  const WORD := 0x1_0000_0000

  /** `struct.pack('!I', n)`. */
  function Pack4(n: nat): (b: Bytes)
    requires n < WORD
    ensures |b| == 4
  {
    [n / 0x100_0000, n / 0x1_0000 % 256, n / 256 % 256, n % 256]
  }

  /** `struct.unpack('!I', b)`. */
  function Unpack4(b: Bytes): (n: nat)
    requires |b| == 4
    ensures n < WORD
  {
    b[0] as int * 0x100_0000 + b[1] as int * 0x1_0000 + b[2] as int * 256 + b[3]
  }

  lemma PackUnpack4(n: nat, b: Bytes)
    requires |b| == 4
    ensures n < WORD ==> Unpack4(Pack4(n)) == n
    ensures Pack4(Unpack4(b)) == b
  {
    FromDigits(n);
    Digits(b[0], b[1], b[2], b[3]);
    assert b == [b[0], b[1], b[2], b[3]];
  }

  lemma FromDigits(n: nat)
    ensures n / 0x100_0000 * 0x100_0000 + n / 0x1_0000 % 256 * 0x1_0000 + n / 256 % 256 * 256 + n % 256 == n
  {
    assert n / 0x1_0000 == n / 0x100_0000 * 256 + n / 0x1_0000 % 256;
    assert n / 256 == n / 0x1_0000 * 256 + n / 256 % 256;
  }

  lemma Digits(w: byte, x: byte, y: byte, z: byte)
    ensures var m := w as int * 0x100_0000 + x as int * 0x1_0000 + y as int * 256 + z;
            m / 0x100_0000 == w && m / 0x1_0000 % 256 == x && m / 256 % 256 == y && m % 256 == z
  {
    var m := w as int * 0x100_0000 + x as int * 0x1_0000 + y as int * 256 + z;
    assert m / 0x100_0000 == w;
    assert m / 0x1_0000 == w as int * 256 + x;
    assert m / 256 == w as int * 0x1_0000 + x as int * 256 + y;
  }

  // -------------------------------------------------------------- references

  datatype Ref =
    | Hole
    | Data(digest: Digest, size: nat, offset: nat, length: nat)
    | Node(digest: Digest, size: nat)

  /** The references that may stand at a level. */
  predicate Legal(r: Ref, level: nat) {
    match r
    case Hole => true
    case Data(_, size, offset, length) =>
      0 < size <= MAX_FILE && 0 < length <= Span(level) && offset + length <= size
    case Node(_, size) => level > 0 && 69 <= size <= PAGE
  }

  function PrintRef(r: Ref): (raw: Bytes)
    requires r.Data? ==> r.size < WORD && r.offset < WORD && r.length < WORD
    requires r.Node? ==> r.size < WORD
    ensures |raw| == (match r case Hole => 1 case Data(_, _, _, _) => 45 case Node(_, _) => 37)
    ensures raw[0] == (match r case Hole => 0 case Data(_, _, _, _) => 1 case Node(_, _) => 2)
  {
    match r
    case Hole => [0]
    case Data(d, size, offset, length) => [1] + d + Pack4(size) + Pack4(offset) + Pack4(length)
    case Node(d, size) => [2] + d + Pack4(size)
  }

  function ParseRef(raw: Bytes, level: nat): (r: Option<Ref>)
    ensures r.Some? ==> Legal(r.value, level)
  {
    if raw == [0] then Some(Hole)
    else if |raw| == 45 && raw[0] == 1 then
      var size, offset, length := Unpack4(raw[33..37]), Unpack4(raw[37..41]), Unpack4(raw[41..45]);
      if 0 < size <= MAX_FILE && 0 < length <= Span(level) && offset + length <= size
      then Some(Data(raw[1..33], size, offset, length)) else None
    else if |raw| == 37 && raw[0] == 2 && level > 0 then
      var size := Unpack4(raw[33..37]);
      if 69 <= size <= PAGE then Some(Node(raw[1..33], size)) else None
    else None
  }

  lemma Appended(a: Bytes, b: Bytes, i: nat, j: nat)
    requires i <= j <= |a|
    ensures (a + b)[i..j] == a[i..j] && (a + b)[|a|..] == b && (a + b)[|a|..|a| + |b|] == b
  {
  }

  /** Where the parts of a concatenation lie. */
  lemma Parts(a: Bytes, b: Bytes, c: Bytes, d: Bytes, e: Bytes)
    ensures var w := a + b + c + d + e;
            var i, j, k, l := |a|, |a| + |b|, |a| + |b| + |c|, |a| + |b| + |c| + |d|;
            w[i..j] == b && w[j..k] == c && w[k..l] == d && w[l..] == e && w[l..|w|] == e
  {
    var i, j, k, l := |a|, |a| + |b|, |a| + |b| + |c|, |a| + |b| + |c| + |d|;
    Appended(a, b, 0, 0);
    Appended(a + b, c, i, j);
    Appended(a + b + c, d, i, j);
    Appended(a + b + c, d, j, k);
    Appended(a + b + c + d, e, i, j);
    Appended(a + b + c + d, e, j, k);
    Appended(a + b + c + d, e, k, l);
  }

  lemma ParsePrintRef(r: Ref, level: nat)
    requires Legal(r, level)
    ensures ParseRef(PrintRef(r), level) == Some(r)
  {
    match r
    case Hole =>
    case Data(d, size, offset, length) =>
      Parts([1], d, Pack4(size), Pack4(offset), Pack4(length));
      PackUnpack4(size, Pack4(size));
      PackUnpack4(offset, Pack4(offset));
      PackUnpack4(length, Pack4(length));
    case Node(d, size) =>
      Parts([2], d, Pack4(size), [], []);
      assert PrintRef(r) == [2] + d + Pack4(size) + [] + [];
      PackUnpack4(size, Pack4(size));
  }

  lemma PrintParseRef(raw: Bytes, level: nat)
    requires ParseRef(raw, level).Some?
    ensures PrintRef(ParseRef(raw, level).value) == raw
  {
    if |raw| == 45 {
      PackUnpack4(0, raw[33..37]);
      PackUnpack4(0, raw[37..41]);
      PackUnpack4(0, raw[41..45]);
      Cuts(raw);
    } else if |raw| == 37 {
      PackUnpack4(0, raw[33..37]);
      Cuts(raw);
    }
  }

  lemma Cuts(raw: Bytes)
    requires |raw| >= 37
    ensures |raw| == 37 ==> raw == [raw[0]] + raw[1..33] + raw[33..37]
    ensures |raw| == 45 ==> raw == [raw[0]] + raw[1..33] + raw[33..37] + raw[37..41] + raw[41..45]
  {
    assert raw[..33] == [raw[0]] + raw[1..33];
    assert raw[..37] == raw[..33] + raw[33..37];
    if |raw| == 37 {
      assert raw == raw[..37];
    }
    if |raw| == 45 {
      assert raw[..41] == raw[..37] + raw[37..41];
      assert raw == raw[..41] + raw[41..45];
    }
  }

  // ------------------------------------------------------------------- nodes

  predicate AllLegal(cs: seq<Ref>, level: nat) {
    forall i | 0 <= i < |cs| :: Legal(cs[i], level)
  }

  function PrintRefs(cs: seq<Ref>, level: nat): (raw: Bytes)
    requires AllLegal(cs, level)
    ensures |cs| <= |raw| <= 45 * |cs|
  {
    if cs == [] then [] else PrintRef(cs[0]) + PrintRefs(cs[1..], level)
  }

  /** The length a tag announces, if it is a tag. */
  function TagLength(raw: Bytes): Option<nat> {
    if raw == [] then None
    else if raw[0] == 0 then Some(1)
    else if raw[0] == 1 then Some(45)
    else if raw[0] == 2 then Some(37)
    else None
  }

  /** Exactly `count` references, filling `raw`. */
  function ParseRefs(raw: Bytes, count: nat, level: nat): (r: Option<seq<Ref>>)
    ensures r.Some? ==> |r.value| == count && AllLegal(r.value, level)
    decreases |raw|
  {
    if count == 0 then (if raw == [] then Some([]) else None)
    else
      var tag := TagLength(raw);
      if tag.None? || tag.value > |raw| then None
      else
        var head := ParseRef(raw[..tag.value], level);
        if head.None? then None
        else
          var tail := ParseRefs(raw[tag.value..], count - 1, level);
          if tail.None? then None else Some([head.value] + tail.value)
  }

  lemma ParseCons(head: Ref, rest: Bytes, count: nat, level: nat)
    requires Legal(head, level) && count > 0
    ensures var tail := ParseRefs(rest, count - 1, level);
            ParseRefs(PrintRef(head) + rest, count, level)
            == if tail.None? then None else Some([head] + tail.value)
  {
    var raw := PrintRef(head) + rest;
    var n := |PrintRef(head)|;
    assert raw[..n] == PrintRef(head) && raw[n..] == rest && raw[0] == PrintRef(head)[0];
    ParsePrintRef(head, level);
  }

  lemma {:induction false} ParsePrintRefs(cs: seq<Ref>, level: nat)
    requires AllLegal(cs, level)
    ensures ParseRefs(PrintRefs(cs, level), |cs|, level) == Some(cs)
  {
    if cs != [] {
      ParsePrintRefs(cs[1..], level);
      ParseCons(cs[0], PrintRefs(cs[1..], level), |cs|, level);
      assert cs == [cs[0]] + cs[1..];
    }
  }

  lemma PrintCons(head: Ref, tail: seq<Ref>, level: nat)
    requires Legal(head, level) && AllLegal(tail, level)
    ensures AllLegal([head] + tail, level)
    ensures PrintRefs([head] + tail, level) == PrintRef(head) + PrintRefs(tail, level)
  {
    assert ([head] + tail)[1..] == tail;
  }

  lemma {:induction false} PrintParseRefs(raw: Bytes, count: nat, level: nat)
    requires ParseRefs(raw, count, level).Some?
    ensures PrintRefs(ParseRefs(raw, count, level).value, level) == raw
    decreases count
  {
    if count > 0 {
      var n := TagLength(raw).value;
      var head := ParseRef(raw[..n], level).value;
      var tail := ParseRefs(raw[n..], count - 1, level).value;
      PrintParseRef(raw[..n], level);
      PrintParseRefs(raw[n..], count - 1, level);
      PrintCons(head, tail, level);
      assert raw == raw[..n] + raw[n..];
    }
  }

  function Magic(height: nat): Bytes
    requires height < 256
  {
    [77, 70, 84, 1, height]
  }

  function ParseNode(raw: Bytes, height: nat): (r: Option<seq<Ref>>)
    ensures r.Some? ==> height > 0 && |r.value| == FANOUT && AllLegal(r.value, height - 1)
  {
    MaxHeightIsFour();
    if !(1 <= height <= MAX_HEIGHT && 69 <= |raw| <= PAGE && raw[..5] == Magic(height)) then None
    else ParseRefs(raw[5..], FANOUT, height - 1)
  }

  function PrintNode(cs: seq<Ref>, height: nat): (raw: Bytes)
    requires 1 <= height < 256 && AllLegal(cs, height - 1)
  {
    Magic(height) + PrintRefs(cs, height - 1)
  }

  /** The children that a node of this height may have. */
  ghost predicate NodeOf(cs: seq<Ref>, height: nat) {
    1 <= height <= 4 && |cs| == FANOUT && AllLegal(cs, height - 1)
  }

  lemma ParsedIsPrinted(raw: Bytes, height: nat)
    requires ParseNode(raw, height).Some?
    ensures NodeOf(ParseNode(raw, height).value, height) && raw == PrintNode(ParseNode(raw, height).value, height)
  {
    MaxHeightIsFour();
    PrintParseRefs(raw[5..], FANOUT, height - 1);
    assert raw == raw[..5] + raw[5..];
  }

  lemma PrintedParses(cs: seq<Ref>, height: nat)
    requires NodeOf(cs, height)
    ensures ParseNode(PrintNode(cs, height), height) == Some(cs)
  {
    MaxHeightIsFour();
    var raw := PrintNode(cs, height);
    ParsePrintRefs(cs, height - 1);
    assert raw[..5] == Magic(height) && raw[5..] == PrintRefs(cs, height - 1);
  }

  /** A byte string is accepted exactly when it is the printing of 64 references
      legal one level below, and then those references are what is returned. */
  lemma NodeCodec(raw: Bytes, height: nat, cs: seq<Ref>)
    ensures ParseNode(raw, height) == Some(cs) <==> NodeOf(cs, height) && raw == PrintNode(cs, height)
    ensures ParseNode(raw, height).Some? ==> 69 <= |raw| <= 2885
  {
    if ParseNode(raw, height).Some? {
      ParsedIsPrinted(raw, height);
    }
    if NodeOf(cs, height) {
      PrintedParses(cs, height);
    }
  }

  ghost function Prepend(front: seq<Ref>, rest: Option<seq<Ref>>): Option<seq<Ref>> {
    if rest.None? then None else Some(front + rest.value)
  }

  lemma PrependNothing(rest: Option<seq<Ref>>)
    ensures Prepend([], rest) == rest
  {
    if rest.Some? {
      assert [] + rest.value == rest.value;
    }
  }

  /** What is still to be read at a cursor, behind the references read so far. */
  ghost function Remaining(raw: Bytes, cursor: nat, front: seq<Ref>, count: nat, level: nat): Option<seq<Ref>>
    requires cursor <= |raw|
  {
    Prepend(front, ParseRefs(raw[cursor..], count, level))
  }

  lemma NothingRead(raw: Bytes, cursor: nat, count: nat, level: nat)
    requires cursor <= |raw|
    ensures Remaining(raw, cursor, [], count, level) == ParseRefs(raw[cursor..], count, level)
  {
    PrependNothing(ParseRefs(raw[cursor..], count, level));
  }

  /** One turn of the loop. */
  lemma OneReference(raw: Bytes, cursor: nat, front: seq<Ref>, count: nat, level: nat)
    requires cursor <= |raw| && count > 0
    ensures var tag := TagLength(raw[cursor..]);
            Prepend(front, ParseRefs(raw[cursor..], count, level))
            == if tag.None? || cursor + tag.value > |raw| then None
               else
                 var next := cursor + tag.value;
                 var head := ParseRef(raw[cursor..next], level);
                 if head.None? then None
                 else Prepend(front + [head.value], ParseRefs(raw[next..], count - 1, level))
  {
    var tag := TagLength(raw[cursor..]);
    if tag.Some? && cursor + tag.value <= |raw| {
      var n := tag.value;
      assert raw[cursor..][..n] == raw[cursor..cursor + n];
      assert raw[cursor..][n..] == raw[cursor + n..];
      var head := ParseRef(raw[cursor..cursor + n], level);
      var tail := ParseRefs(raw[cursor + n..], count - 1, level);
      if head.Some? && tail.Some? {
        assert front + ([head.value] + tail.value) == front + [head.value] + tail.value;
      }
    }
  }

  /** After the last turn. */
  lemma NoReferenceLeft(raw: Bytes, cursor: nat, front: seq<Ref>, level: nat)
    requires cursor <= |raw|
    ensures Remaining(raw, cursor, front, 0, level) == if cursor != |raw| then None else Some(front)
  {
    assert front + [] == front;
  }

  /** The reference at a cursor, and the cursor after it. */
  method ReadReference(raw: Bytes, cursor: nat, ghost front: seq<Ref>, ghost count: nat, level: nat)
    returns (ref: Option<Ref>, next: nat)
    requires cursor <= |raw| && count > 0
    ensures cursor <= next <= |raw|
    ensures Remaining(raw, cursor, front, count, level)
            == if ref.None? then None else Remaining(raw, next, front + [ref.value], count - 1, level)
  {
    OneReference(raw, cursor, front, count, level);
    var tag := TagLength(raw[cursor..]);
    if tag.None? || cursor + tag.value > |raw| {
      return None, cursor;
    }
    next := cursor + tag.value;
    ref := ParseRef(raw[cursor..next], level);
  }

  /** The reader's loop; `whole` is what it comes to. */
  method ReferencesFrom(raw: Bytes, count: nat, level: nat, ghost whole: Option<seq<Ref>>) returns (r: Option<seq<Ref>>)
    requires |raw| >= 5 && whole == Remaining(raw, 5, [], count, level)
    ensures r == whole
  {
    var cursor, children, k := 5, [], 0;
    while k < count
      invariant 0 <= k <= count && 5 <= cursor <= |raw|
      invariant whole == Remaining(raw, cursor, children, count - k, level)
    {
      var ref, next := ReadReference(raw, cursor, children, count - k, level);
      if ref.None? {
        return None;
      }
      children, cursor, k := children + [ref.value], next, k + 1;
    }
    NoReferenceLeft(raw, cursor, children, level);
    r := if cursor != |raw| then None else Some(children);
  }

  /** The references of a node that starts with five header bytes. */
  method References(raw: Bytes, count: nat, level: nat) returns (r: Option<seq<Ref>>)
    requires |raw| >= 5
    ensures r == ParseRefs(raw[5..], count, level)
  {
    NothingRead(raw, 5, count, level);
    ghost var whole := Remaining(raw, 5, [], count, level);
    r := ReferencesFrom(raw, count, level, whole);
  }

  /** The reader's loop over a cursor. It accepts what `ParseNode` accepts. */
  method TreeNode(raw: Bytes, height: nat) returns (r: Option<seq<Ref>>)
    ensures r == ParseNode(raw, height)
  {
    var largest := TreeHeight(MAX_TREE_SOURCE);
    MaxHeightIsFour();
    if !(1 <= height <= largest && 69 <= |raw| <= PAGE && raw[..5] == Magic(height)) {
      return None;
    }
    r := References(raw, FANOUT, height - 1);
  }

  // ------------------------------------------------------------- descriptors

  /** The part of a tree layout that its digest commits to. */
  datatype TreeDescriptor = TreeDescriptor(total: int, height: int, root: Bytes)

  /** `meshia.fabric.file-tree.v1` and a NUL. */
  const TREE_DOMAIN: Bytes := [
    109, 101, 115, 104, 105, 97, 46, 102, 97, 98, 114, 105, 99, 46, 102, 105, 108, 101, 45,
    116, 114, 101, 101, 46, 118, 49, 0]

  function IdentityPreimage(size: nat, height: nat, root: Bytes): Bytes
    requires size < WORD && height < 256
  {
    TREE_DOMAIN + ([0, 0, 0, 0] + Pack4(size) + [height] + root)
  }

  lemma IdentityPreimageIsInjective(size: nat, height: nat, root: Bytes, size': nat, height': nat, root': Bytes)
    requires size < WORD && height < 256 && size' < WORD && height' < 256
    requires IdentityPreimage(size, height, root) == IdentityPreimage(size', height', root')
    ensures size == size' && height == height' && root == root'
  {
    var a := [0, 0, 0, 0] + Pack4(size) + [height] + root;
    var b := [0, 0, 0, 0] + Pack4(size') + [height'] + root';
    Appended(TREE_DOMAIN, a, 0, 0);
    Appended(TREE_DOMAIN, b, 0, 0);
    assert a == [0, 0, 0, 0] + Pack4(size) + [height] + root + []
           && b == [0, 0, 0, 0] + Pack4(size') + [height'] + root' + [];
    Parts([0, 0, 0, 0], Pack4(size), [height], root, []);
    Parts([0, 0, 0, 0], Pack4(size'), [height'], root', []);
    assert |a| == 9 + |root| && |b| == 9 + |root'|;
    assert [height] == a[8..9] == [height'];
    PackUnpack4(size, Pack4(size));
    PackUnpack4(size', Pack4(size'));
  }

  /** The root reference of a descriptor that is valid for a file. */
  function CheckTree(d: TreeDescriptor, size: nat, digest: Digest): (r: Option<Ref>)
    ensures r.Some? ==> size <= MAX_TREE_SOURCE && d.total == size && d.height == Height(size) <= 4
    ensures r.Some? ==> Legal(r.value, Height(size))
  {
    if size > MAX_TREE_SOURCE then None
    else
      HeightIsAtMostFour(size);
      if d.total != size || d.height != Height(size) then None
      else if !(1 <= |d.root| <= 45) then None
      else
        var root := ParseRef(d.root, d.height);
        if root.None? then None
        else if size == 0 && root != Some(Hole) then None
        else if root.value.Data? && root.value.length > size then None
        else if digest != Sha256(IdentityPreimage(size, d.height, d.root)) then None
        else root
  }

  /** The height of the least tree that covers a size. */
  predicate LeastCover(height: nat, size: nat) {
    size <= Span(height) && (height > 0 ==> Span(height - 1) < size)
  }

  /** A descriptor that announces a tree with this root for a file: the least height that
      covers the file, a root that may stand there and does not reach past the file, in
      its wire form, and the digest of all three. */
  ghost predicate Announces(d: TreeDescriptor, root: Ref, size: nat, digest: Digest) {
    && size <= MAX_TREE_SOURCE && d.total == size && 0 <= d.height < 256 && LeastCover(d.height, size)
    && Legal(root, d.height) && (size == 0 ==> root.Hole?) && (root.Data? ==> root.length <= size)
    && d.root == PrintRef(root) && digest == Sha256(IdentityPreimage(size, d.height, PrintRef(root)))
  }

  lemma LeastCoverIsUnique(a: nat, b: nat, size: nat)
    requires LeastCover(a, size) && LeastCover(b, size)
    ensures a == b
  {
    if a < b {
      SpanGrows(a, b - 1);
    } else if b < a {
      SpanGrows(b, a - 1);
    }
  }

  /** A descriptor is accepted with a root exactly when it announces it. */
  lemma DescriptorIsExact(d: TreeDescriptor, root: Ref, size: nat, digest: Digest)
    ensures CheckTree(d, size, digest) == Some(root) <==> Announces(d, root, size, digest)
  {
    HeightFromIsLeast(size, 0);
    if CheckTree(d, size, digest) == Some(root) {
      PrintParseRef(d.root, d.height);
    }
    if Announces(d, root, size, digest) {
      HeightIsAtMostFour(size);
      LeastCoverIsUnique(d.height, Height(size), size);
      ParsePrintRef(root, d.height);
    }
  }

  /** A digest names one descriptor, hence one file size and one root. */
  lemma DigestNamesOneTree(d: TreeDescriptor, size: nat, d': TreeDescriptor, size': nat, digest: Digest)
    requires CheckTree(d, size, digest).Some? && CheckTree(d', size', digest).Some?
    requires NoCollision(IdentityPreimage(size, d.height, d.root), IdentityPreimage(size', d'.height, d'.root))
    ensures d == d' && size == size' && CheckTree(d, size, digest) == CheckTree(d', size', digest)
  {
    IdentityPreimageIsInjective(size, d.height, d.root, size', d'.height, d'.root);
  }
}
