/** The closed set of proven tree nodes: what it means, how a verification request
    grows it, and what reading from it can still refuse. */
module Admission {
  import opened Prelude
  import opened TreeCodec
  import opened TreeStore

  /** A reference whose object has been proven, so that the reader may follow it. */
  ghost predicate Proven(s: Store, ref: Ref, level: nat) {
    match ref
    case Hole => true
    case Data(digest, size, _, _) => Obj(digest, size) in s.proofs
    case Node(digest, size) => NodeKey(digest, size, level) in s.nodes
  }

  ghost predicate NodeClosed(s: Store, k: NodeKey) {
    && VerifyBlock(s.cas, k.digest, k.size).Ok?
    && ParseNode(s.cas[k.digest].data, k.height).Some?
    && var children := ParseNode(s.cas[k.digest].data, k.height).value;
       forall i | 0 <= i < |children| :: Proven(s, children[i], k.height - 1)
  }

  /** Every proven data object is stored intact, and every admitted node parses
      from stored bytes into children that are proven one level below. */
  ghost predicate Closed(s: Store) {
    && (forall o | o in s.proofs :: VerifyBlock(s.cas, o.digest, o.size).Ok?)
    && (forall k | k in s.nodes :: NodeClosed(s, k))
  }

  // ------------------------------------------- reading from a proven reference

  /** What remains of the visit bound decides a read from a proven reference. */
  ghost predicate DecidedByVisits(r: Result<Part>, visits: nat, cost: nat) {
    if visits + cost <= MAX_VISITS then r.Ok? && r.value.visits == visits + cost else r == Rejected(TreeInvalid)
  }

  lemma {:induction false} ReadProven(s: Store, ref: Ref, level: nat, count: nat, visits: nat, validate: bool)
    requires Closed(s) && Legal(ref, level) && Proven(s, ref, level) && visits <= MAX_VISITS
    ensures DecidedByVisits(Read(s, ref, level, count, visits, validate), visits, Visits(s.cas, ref, level))
    decreases level, 0
  {
    if ref.Node? && visits < MAX_VISITS {
      assert NodeClosed(s, NodeKey(ref.digest, ref.size, level));
      var children := ParseNode(s.cas[ref.digest].data, level).value;
      ReadAllProven(s, children, level - 1, count, visits + 1, validate);
    } else if ref.Node? {
      assert Visits(s.cas, ref, level) >= 1;
    }
  }

  lemma {:induction false} ReadAllProven(s: Store, refs: seq<Ref>, level: nat, count: nat, visits: nat, validate: bool)
    requires Closed(s) && AllLegal(refs, level) && visits <= MAX_VISITS
    requires forall i | 0 <= i < |refs| :: Proven(s, refs[i], level)
    ensures DecidedByVisits(ReadAll(s, refs, level, count, visits, validate), visits, AllVisits(s.cas, refs, level))
    decreases level, |refs| + 1
  {
    if refs != [] {
      var take := Min(count, Span(level));
      ReadProven(s, refs[0], level, take, visits, validate);
      var head := Read(s, refs[0], level, take, visits, validate);
      if head.Ok? {
        ReadAllProven(s, refs[1..], level, count - take, head.value.visits, validate);
      }
    }
  }

  /** A descriptor that announces a proven root is refused by nothing but the size limit
      and the visit bound. */
  lemma OnlyBoundsRefuse(s: Store, d: TreeDescriptor, root: Ref, size: nat, digest: Digest, validate: bool)
    requires Closed(s) && Announces(d, root, size, digest) && Proven(s, root, d.height)
    ensures var r := TreeBytes(s, d, size, digest, validate);
            var cost := Visits(s.cas, root, d.height);
            && (r.Ok? <==> (validate || size <= MAX_FILE) && cost <= MAX_VISITS)
            && (r.Rejected? ==>
                  r.fault == if !validate && size > MAX_FILE then MaterializationTooLarge else TreeInvalid)
  {
    DescriptorIsExact(d, root, size, digest);
    if validate || size <= MAX_FILE {
      ReadProven(s, root, d.height, size, 0, validate);
    }
  }

  /** And one that announces no root is refused. */
  lemma UnannouncedIsRefused(s: Store, d: TreeDescriptor, size: nat, digest: Digest, validate: bool)
    requires forall root :: !Announces(d, root, size, digest)
    ensures TreeBytes(s, d, size, digest, validate) == Rejected(TreeInvalid)
  {
    if CheckTree(d, size, digest).Some? {
      DescriptorIsExact(d, CheckTree(d, size, digest).value, size, digest);
    }
  }

  /** A proven reference reaches only proven objects. */
  lemma {:induction false} ProvenReachesProven(s: Store, ref: Ref, level: nat)
    requires Closed(s) && Proven(s, ref, level)
    ensures forall o | o in Objects(s.cas, ref, level) ::
              && VerifyBlock(s.cas, o.digest, o.size).Ok?
              && (o in s.proofs || exists h :: NodeKey(o.digest, o.size, h) in s.nodes)
    decreases level, 0
  {
    if ref.Node? {
      assert NodeClosed(s, NodeKey(ref.digest, ref.size, level));
      var children := ParseNode(s.cas[ref.digest].data, level).value;
      AllProvenReachProven(s, children, level - 1);
    }
  }

  lemma {:induction false} AllProvenReachProven(s: Store, refs: seq<Ref>, level: nat)
    requires Closed(s) && forall i | 0 <= i < |refs| :: Proven(s, refs[i], level)
    ensures forall o | o in AllObjects(s.cas, refs, level) ::
              && VerifyBlock(s.cas, o.digest, o.size).Ok?
              && (o in s.proofs || exists h :: NodeKey(o.digest, o.size, h) in s.nodes)
    decreases level, |refs| + 1
  {
    if refs != [] {
      ProvenReachesProven(s, refs[0], level);
      AllProvenReachProven(s, refs[1..], level);
    }
  }

  // ---------------------------------------------------------------- extension

  /** Nothing stored or proven before is lost or altered. */
  ghost predicate Extends(s: Store, s': Store) {
    && (forall d | d in s.cas :: d in s'.cas && s'.cas[d] == s.cas[d])
    && s.nodes <= s'.nodes
    && s.proofs <= s'.proofs
  }

  /** A read that succeeded keeps succeeding with the same bytes, over the same
      objects, in every extension of the store. */
  lemma {:induction false} ReadSurvives(
      s: Store, s': Store, ref: Ref, level: nat, count: nat, visits: nat, validate: bool)
    requires Extends(s, s') && Legal(ref, level)
    requires Read(s, ref, level, count, visits, validate).Ok?
    ensures Read(s', ref, level, count, visits, validate) == Read(s, ref, level, count, visits, validate)
    ensures Objects(s'.cas, ref, level) == Objects(s.cas, ref, level)
    decreases level, 0
  {
    if ref.Node? {
      var children := ParseNode(s.cas[ref.digest].data, level).value;
      ReadAllSurvives(s, s', children, level - 1, count, visits + 1, validate);
    }
  }

  lemma {:induction false} ReadAllSurvives(
      s: Store, s': Store, refs: seq<Ref>, level: nat, count: nat, visits: nat, validate: bool)
    requires Extends(s, s') && AllLegal(refs, level)
    requires ReadAll(s, refs, level, count, visits, validate).Ok?
    ensures ReadAll(s', refs, level, count, visits, validate) == ReadAll(s, refs, level, count, visits, validate)
    ensures AllObjects(s'.cas, refs, level) == AllObjects(s.cas, refs, level)
    decreases level, |refs| + 1
  {
    if refs != [] {
      var take := Min(count, Span(level));
      ReadSurvives(s, s', refs[0], level, take, visits, validate);
      var head := Read(s, refs[0], level, take, visits, validate).value;
      ReadAllSurvives(s, s', refs[1..], level, count - take, head.visits, validate);
    }
  }

  /** Below a reference that reads, point lookup finds the same byte at every position in
      every extension of the store. */
  lemma {:induction false} ByteAtSurvives(s: Store, s': Store, ref: Ref, level: nat, count: nat, visits: nat, i: nat)
    requires Extends(s, s') && Legal(ref, level)
    requires Read(s, ref, level, count, visits, true).Ok?
    ensures ByteAt(s'.cas, ref, level, i) == ByteAt(s.cas, ref, level, i)
    decreases level, 0
  {
    if ref.Node? {
      var children := ParseNode(s.cas[ref.digest].data, level).value;
      var k := Child(i, Span(level - 1));
      if k < FANOUT {
        ChildByteSurvives(s, s', children, level - 1, count, visits + 1, k, Within(i, Span(level - 1)));
      }
    }
  }

  lemma {:induction false} ChildByteSurvives(
      s: Store, s': Store, refs: seq<Ref>, level: nat, count: nat, visits: nat, k: nat, i: nat)
    requires Extends(s, s') && AllLegal(refs, level) && k < |refs|
    requires ReadAll(s, refs, level, count, visits, true).Ok?
    ensures ByteAt(s'.cas, refs[k], level, i) == ByteAt(s.cas, refs[k], level, i)
    decreases level, |refs| + 1
  {
    var take := Min(count, Span(level));
    if k == 0 {
      ByteAtSurvives(s, s', refs[0], level, take, visits, i);
    } else {
      var head := Read(s, refs[0], level, take, visits, true).value;
      ChildByteSurvives(s, s', refs[1..], level, count - take, head.visits, k - 1, i);
      assert refs[1..][k - 1] == refs[k];
    }
  }

  /** New objects alone do not disturb the closure. */
  lemma ClosedSurvivesObjects(s: Store, s': Store)
    requires Closed(s) && Extends(s, s') && s'.nodes == s.nodes
    requires forall o | o in s'.proofs - s.proofs :: VerifyBlock(s'.cas, o.digest, o.size).Ok?
    ensures Closed(s')
  {
    forall k | k in s'.nodes
      ensures NodeClosed(s', k)
    {
      assert NodeClosed(s, k);
    }
  }

  // ---------------------------------------------------------------- admission

  /** A submitted node that hashes to a verified block and parses. */
  datatype Candidate = Candidate(digest: Digest, raw: Bytes, height: nat)

  function Key(c: Candidate): NodeKey {
    NodeKey(c.digest, |c.raw|, c.height)
  }

  ghost function Keys(cs: seq<Candidate>): set<NodeKey> {
    set c | c in cs :: Key(c)
  }

  ghost predicate Parses(c: Candidate) {
    1 <= c.height <= 4 && ParseNode(c.raw, c.height).Some?
  }

  ghost predicate AllParse(cs: seq<Candidate>) {
    forall c | c in cs :: Parses(c)
  }

  /** The candidates of one height, in the order submitted. */
  function OfHeight(cs: seq<Candidate>, height: nat): seq<Candidate> {
    if cs == [] then []
    else (if cs[0].height == height then [cs[0]] else []) + OfHeight(cs[1..], height)
  }

  /** A stable sort by height. */
  function SortByHeight(cs: seq<Candidate>): seq<Candidate> {
    OfHeight(cs, 1) + OfHeight(cs, 2) + OfHeight(cs, 3) + OfHeight(cs, 4)
  }

  lemma {:induction false} OfHeightMembers(cs: seq<Candidate>, height: nat)
    ensures forall c :: c in OfHeight(cs, height) <==> c in cs && c.height == height
  {
    if cs != [] {
      OfHeightMembers(cs[1..], height);
    }
  }

  ghost predicate Ascending(cs: seq<Candidate>) {
    forall i, j | 0 <= i < j < |cs| :: cs[i].height <= cs[j].height
  }

  lemma SortByHeightSorts(cs: seq<Candidate>)
    requires AllParse(cs)
    ensures Ascending(SortByHeight(cs))
    ensures forall c :: c in SortByHeight(cs) <==> c in cs
  {
    OfHeightMembers(cs, 1);
    OfHeightMembers(cs, 2);
    OfHeightMembers(cs, 3);
    OfHeightMembers(cs, 4);
    assert forall c | c in cs :: Parses(c);
    forall h | 1 <= h <= 4
      ensures forall i | 0 <= i < |OfHeight(cs, h)| :: OfHeight(cs, h)[i].height == h
    {
      OfHeightMembers(cs, h);
      assert forall i | 0 <= i < |OfHeight(cs, h)| :: OfHeight(cs, h)[i] in OfHeight(cs, h);
    }
  }

  /** Why the children of a node cannot be followed, if they cannot. */
  function CheckChildren(s: Store, refs: seq<Ref>, level: nat): Option<Fault> {
    if refs == [] then None
    else
      match refs[0]
      case Hole => CheckChildren(s, refs[1..], level)
      case Data(digest, size, _, _) =>
        if Obj(digest, size) !in s.proofs then Some(TreeClosureUnavailable)
        else if VerifyBlock(s.cas, digest, size).Rejected? then Some(VerifyBlock(s.cas, digest, size).fault)
        else CheckChildren(s, refs[1..], level)
      case Node(digest, size) =>
        if NodeKey(digest, size, level) !in s.nodes then Some(TreeClosureUnavailable)
        else if VerifyBlock(s.cas, digest, size).Rejected? then Some(VerifyBlock(s.cas, digest, size).fault)
        else CheckChildren(s, refs[1..], level)
  }

  /** Admit candidates one by one; a later one may rest on an earlier one. */
  function Admit(s: Store, cs: seq<Candidate>): (r: Result<Store>)
    requires AllParse(cs)
    ensures r.Ok? ==> r.value.cas == s.cas && r.value.proofs == s.proofs
    decreases |cs|
  {
    if cs == [] then Ok(s)
    else
      assert Parses(cs[0]);
      var fault := CheckChildren(s, ParseNode(cs[0].raw, cs[0].height).value, cs[0].height - 1);
      if fault.Some? then Rejected(fault.value)
      else Admit(s.(nodes := s.nodes + {Key(cs[0])}), cs[1..])
  }

  /** The stored object under a candidate's digest is the candidate's bytes. */
  ghost predicate Present(s: Store, c: Candidate) {
    VerifyBlock(s.cas, c.digest, |c.raw|) == Ok(c.raw)
  }

  ghost predicate ChildrenProven(s: Store, c: Candidate)
    requires Parses(c)
  {
    var children := ParseNode(c.raw, c.height).value;
    forall i | 0 <= i < |children| :: Proven(s, children[i], c.height - 1)
  }

  lemma {:induction false} CheckChildrenIsProven(s: Store, refs: seq<Ref>, level: nat)
    requires Closed(s)
    ensures CheckChildren(s, refs, level).None? <==> forall i | 0 <= i < |refs| :: Proven(s, refs[i], level)
    ensures CheckChildren(s, refs, level).Some? ==> CheckChildren(s, refs, level).value == TreeClosureUnavailable
  {
    if refs != [] {
      CheckChildrenIsProven(s, refs[1..], level);
      if Proven(s, refs[0], level) {
        if refs[0].Node? {
          assert NodeClosed(s, NodeKey(refs[0].digest, refs[0].size, level));
        }
        assert forall i | 1 <= i < |refs| :: refs[i] == refs[1..][i - 1];
        assert CheckChildren(s, refs, level) == CheckChildren(s, refs[1..], level);
      }
    }
  }

  lemma AddingKeepsClosed(s: Store, c: Candidate)
    requires Closed(s) && Present(s, c) && Parses(c) && ChildrenProven(s, c)
    ensures Closed(s.(nodes := s.nodes + {Key(c)}))
  {
    var s' := s.(nodes := s.nodes + {Key(c)});
    forall k | k in s'.nodes
      ensures NodeClosed(s', k)
    {
      if k in s.nodes {
        assert NodeClosed(s, k);
      }
    }
  }

  /** With everything in cs admitted. */
  ghost function With(s: Store, cs: seq<Candidate>): Store {
    s.(nodes := s.nodes + Keys(cs))
  }

  ghost predicate AllChildrenProven(s: Store, cs: seq<Candidate>) {
    forall c | c in cs :: Parses(c) && ChildrenProven(s, c)
  }

  /** In ascending order of height, admission succeeds exactly when the candidates
      together with what was proven before are closed; the closure grows by
      exactly them. */
  lemma {:induction false} AdmitIsClosure(s: Store, cs: seq<Candidate>)
    requires Closed(s) && AllParse(cs) && Ascending(cs)
    requires forall c | c in cs :: Present(s, c)
    ensures Admit(s, cs).Ok? <==> AllChildrenProven(With(s, cs), cs)
    ensures Admit(s, cs).Ok? ==> Admit(s, cs).value == With(s, cs) && Closed(With(s, cs))
    ensures Admit(s, cs).Rejected? ==> Admit(s, cs).fault == TreeClosureUnavailable
    decreases |cs|
  {
    if cs == [] {
      assert With(s, cs) == s;
    } else {
      var c := cs[0];
      assert c in cs && Parses(c);
      CheckChildrenIsProven(s, ParseNode(c.raw, c.height).value, c.height - 1);
      LowerFirst(s, cs);
      if ChildrenProven(s, c) {
        AddingKeepsClosed(s, c);
        WithStep(s, cs);
        AdmitIsClosure(s.(nodes := s.nodes + {Key(c)}), cs[1..]);
      }
    }
  }

  lemma WithStep(s: Store, cs: seq<Candidate>)
    requires cs != [] && AllParse(cs) && Ascending(cs)
    requires forall c | c in cs :: Present(s, c)
    ensures var s' := s.(nodes := s.nodes + {Key(cs[0])});
            && With(s', cs[1..]) == With(s, cs)
            && AllParse(cs[1..]) && Ascending(cs[1..])
            && (forall c | c in cs[1..] :: Present(s', c))
            && (forall s2 :: AllChildrenProven(s2, cs)
                  <==> Parses(cs[0]) && ChildrenProven(s2, cs[0]) && AllChildrenProven(s2, cs[1..]))
  {
    assert cs == [cs[0]] + cs[1..];
    assert forall x :: x in cs <==> x == cs[0] || x in cs[1..];
    assert Keys(cs) == {Key(cs[0])} + Keys(cs[1..]);
  }

  /** The lowest candidate can rest only on what was proven before. */
  lemma LowerFirst(s: Store, cs: seq<Candidate>)
    requires cs != [] && AllParse(cs) && Ascending(cs) && Parses(cs[0])
    ensures ChildrenProven(With(s, cs), cs[0]) <==> ChildrenProven(s, cs[0])
  {
    var c := cs[0];
    var children := ParseNode(c.raw, c.height).value;
    forall i | 0 <= i < |children|
      ensures Proven(With(s, cs), children[i], c.height - 1) <==> Proven(s, children[i], c.height - 1)
    {
      if children[i].Node? {
        var k := NodeKey(children[i].digest, children[i].size, c.height - 1);
        forall x | x in cs
          ensures Key(x) != k
        {
          var j :| 0 <= j < |cs| && cs[j] == x;
          assert cs[0].height <= cs[j].height;
        }
      }
    }
  }

  /** A submitted node: the digest claimed for it, and its bytes. */
  datatype Submitted = Submitted(digest: Digest, raw: Bytes)

  function HeightByte(raw: Bytes): nat {
    if |raw| > 4 then raw[4] else 0
  }

  /** The candidates that a request's nodes make, given its verified blocks. */
  function Candidates(
      sizes: map<Digest, nat>, nodes: seq<Submitted>, before: seq<Candidate>): (r: Result<seq<Candidate>>)
    requires AllParse(before)
    ensures r.Ok? ==> AllParse(r.value)
    decreases |nodes|
  {
    if nodes == [] then Ok(before)
    else
      var n := nodes[0];
      var height := HeightByte(n.raw);
      if n.digest !in sizes || sizes[n.digest] != |n.raw| || Sha256(n.raw) != n.digest then Rejected(TreeInvalid)
      else if exists c | c in before :: c.digest == n.digest then Rejected(TreeInvalid)
      else if ParseNode(n.raw, height).None? then Rejected(TreeInvalid)
      else
        MaxHeightIsFour();
        Candidates(sizes, nodes[1..], before + [Candidate(n.digest, n.raw, height)])
  }

  /** Which candidates come out: one per submitted node, with matching digests. */
  lemma {:induction false} CandidatesAreSubmitted(
      sizes: map<Digest, nat>, nodes: seq<Submitted>, before: seq<Candidate>)
    requires AllParse(before) && Candidates(sizes, nodes, before).Ok?
    ensures forall c | c in Candidates(sizes, nodes, before).value ::
              c in before || (c.digest in sizes && sizes[c.digest] == |c.raw| && Sha256(c.raw) == c.digest
                              && Submitted(c.digest, c.raw) in nodes)
    decreases |nodes|
  {
    if nodes != [] {
      var n := nodes[0];
      var height := HeightByte(n.raw);
      MaxHeightIsFour();
      CandidatesAreSubmitted(sizes, nodes[1..], before + [Candidate(n.digest, n.raw, height)]);
    }
  }

  /** The admission step, once the request's blocks are known to be stored. */
  function AdmitRequest(s: Store, sizes: map<Digest, nat>, nodes: seq<Submitted>): Result<Store> {
    if |nodes| > |sizes| then Rejected(TreeInvalid)
    else
      var cs := Candidates(sizes, nodes, []);
      if cs.Rejected? then Rejected(cs.fault)
      else
        SortByHeightSorts(cs.value);
        var proofs := set d | d in sizes :: Obj(d, sizes[d]);
        Admit(s.(proofs := s.proofs + proofs), SortByHeight(cs.value))
  }

  ghost predicate BlocksStored(cas: Cas, sizes: map<Digest, nat>) {
    forall d | d in sizes :: VerifyBlock(cas, d, sizes[d]).Ok?
  }

  /** A node that a request may bring: one of its blocks, honest about its bytes, and a
      node of the height it says. */
  ghost predicate Named(sizes: map<Digest, nat>, n: Submitted) {
    && n.digest in sizes && sizes[n.digest] == |n.raw| && Sha256(n.raw) == n.digest
    && ParseNode(n.raw, HeightByte(n.raw)).Some?
  }

  ghost predicate DistinctNodes(nodes: seq<Submitted>) {
    forall i, j | 0 <= i < j < |nodes| :: nodes[i].digest != nodes[j].digest
  }

  ghost predicate Unlisted(before: seq<Candidate>, nodes: seq<Submitted>) {
    forall c, n | c in before && n in nodes :: c.digest != n.digest
  }

  function CandidateOf(n: Submitted): Candidate {
    Candidate(n.digest, n.raw, HeightByte(n.raw))
  }

  function AsCandidates(nodes: seq<Submitted>): (cs: seq<Candidate>)
    ensures |cs| == |nodes| && forall i | 0 <= i < |nodes| :: cs[i] == CandidateOf(nodes[i])
  {
    if nodes == [] then [] else [CandidateOf(nodes[0])] + AsCandidates(nodes[1..])
  }

  ghost predicate Acceptable(sizes: map<Digest, nat>, nodes: seq<Submitted>, before: seq<Candidate>) {
    (forall n | n in nodes :: Named(sizes, n)) && DistinctNodes(nodes) && Unlisted(before, nodes)
  }

  lemma {:induction false} NodesApart(n: Submitted, rest: seq<Submitted>)
    ensures DistinctNodes([n] + rest) <==> DistinctNodes(rest) && forall x | x in rest :: x.digest != n.digest
  {
    var nodes := [n] + rest;
    assert forall i | 0 <= i < |rest| :: rest[i] == nodes[i + 1];
    if DistinctNodes(nodes) {
      forall x | x in rest
        ensures x.digest != n.digest
      {
        var i :| 0 <= i < |rest| && rest[i] == x;
        assert nodes[i + 1] == x && nodes[0] == n;
      }
    }
    if DistinctNodes(rest) && forall x | x in rest :: x.digest != n.digest {
      forall i, j | 0 <= i < j < |nodes|
        ensures nodes[i].digest != nodes[j].digest
      {
        assert nodes[j] == rest[j - 1];
      }
    }
  }

  lemma UnlistedStep(before: seq<Candidate>, n: Submitted, rest: seq<Submitted>)
    ensures Unlisted(before + [CandidateOf(n)], rest)
            <==> Unlisted(before, rest) && forall x | x in rest :: x.digest != n.digest
    ensures Unlisted(before, [n] + rest) <==> Unlisted(before, rest) && forall c | c in before :: c.digest != n.digest
  {
    assert forall c :: c in before + [CandidateOf(n)] <==> c in before || c == CandidateOf(n);
    assert forall x :: x in [n] + rest <==> x == n || x in rest;
  }

  lemma AcceptableStep(sizes: map<Digest, nat>, n: Submitted, rest: seq<Submitted>, before: seq<Candidate>)
    ensures Acceptable(sizes, [n] + rest, before)
            <==> Named(sizes, n) && (forall c | c in before :: c.digest != n.digest)
                 && Acceptable(sizes, rest, before + [CandidateOf(n)])
  {
    assert forall x :: x in [n] + rest <==> x == n || x in rest;
    NodesApart(n, rest);
    UnlistedStep(before, n, rest);
  }

  ghost predicate Joins(sizes: map<Digest, nat>, n: Submitted, before: seq<Candidate>) {
    Named(sizes, n) && forall c | c in before :: c.digest != n.digest
  }

  lemma CandidatesStep(sizes: map<Digest, nat>, nodes: seq<Submitted>, before: seq<Candidate>)
    requires nodes != [] && AllParse(before)
    ensures Joins(sizes, nodes[0], before) ==> AllParse(before + [CandidateOf(nodes[0])])
    ensures Candidates(sizes, nodes, before)
            == if Joins(sizes, nodes[0], before)
               then Candidates(sizes, nodes[1..], before + [CandidateOf(nodes[0])]) else Rejected(TreeInvalid)
  {
    MaxHeightIsFour();
  }

  lemma AsCandidatesStep(nodes: seq<Submitted>, before: seq<Candidate>)
    requires nodes != []
    ensures before + [CandidateOf(nodes[0])] + AsCandidates(nodes[1..]) == before + AsCandidates(nodes)
  {
  }

  lemma NothingToList(sizes: map<Digest, nat>, before: seq<Candidate>)
    ensures Acceptable(sizes, [], before) && before + AsCandidates([]) == before
  {
  }

  /** The nodes of a request all become candidates, or it is refused. */
  lemma {:induction false} CandidatesAreExact(
      sizes: map<Digest, nat>, nodes: seq<Submitted>, before: seq<Candidate>)
    requires AllParse(before)
    ensures Candidates(sizes, nodes, before)
            == if Acceptable(sizes, nodes, before) then Ok(before + AsCandidates(nodes)) else Rejected(TreeInvalid)
    decreases |nodes|
  {
    if nodes == [] {
      NothingToList(sizes, before);
    } else {
      var n, rest := nodes[0], nodes[1..];
      assert nodes == [n] + rest;
      AcceptableStep(sizes, n, rest, before);
      CandidatesStep(sizes, nodes, before);
      if Joins(sizes, n, before) {
        CandidatesAreExact(sizes, rest, before + [CandidateOf(n)]);
        AsCandidatesStep(nodes, before);
      }
    }
  }

  function KeyOfNode(n: Submitted): NodeKey {
    NodeKey(n.digest, |n.raw|, HeightByte(n.raw))
  }

  /** The store once a request's blocks are proven and its nodes admitted. */
  ghost function Admitted(s: Store, sizes: map<Digest, nat>, nodes: seq<Submitted>): Store {
    s.(proofs := s.proofs + (set d | d in sizes :: Obj(d, sizes[d])),
       nodes := s.nodes + (set n | n in nodes :: KeyOfNode(n)))
  }

  /** Every child of every node is proven, counting the request's own blocks and nodes. */
  ghost predicate Grounded(s: Store, n: Submitted) {
    var children := ParseNode(n.raw, HeightByte(n.raw));
    children.Some? && forall i | 0 <= i < |children.value| :: Proven(s, children.value[i], HeightByte(n.raw) - 1)
  }

  lemma CandidatesArePresent(s: Store, sizes: map<Digest, nat>, nodes: seq<Submitted>)
    requires BlocksStored(s.cas, sizes) && forall n | n in nodes :: Named(sizes, n)
    requires forall n | n in nodes && n.digest in s.cas :: NoCollision(n.raw, s.cas[n.digest].data)
    ensures forall c | c in AsCandidates(nodes) :: Present(s, c)
  {
    var cs := AsCandidates(nodes);
    forall c | c in cs
      ensures Present(s, c)
    {
      var i :| 0 <= i < |cs| && cs[i] == c;
      assert nodes[i] in nodes && Named(sizes, nodes[i]);
      assert VerifyBlock(s.cas, c.digest, sizes[c.digest]).Ok?;
    }
  }

  lemma ProofsKeepClosed(s: Store, sizes: map<Digest, nat>)
    requires Closed(s) && BlocksStored(s.cas, sizes)
    ensures Closed(s.(proofs := s.proofs + (set d | d in sizes :: Obj(d, sizes[d]))))
  {
    ClosedSurvivesObjects(s, s.(proofs := s.proofs + (set d | d in sizes :: Obj(d, sizes[d]))));
  }

  /** A request over stored blocks is admitted exactly when its nodes are distinct, are
      what they say, and rest on what is proven with them; then exactly its blocks and
      nodes become proven. */
  lemma AdmitRequestIsExact(s: Store, sizes: map<Digest, nat>, nodes: seq<Submitted>)
    requires Closed(s) && BlocksStored(s.cas, sizes)
    requires forall n | n in nodes && n.digest in s.cas :: NoCollision(n.raw, s.cas[n.digest].data)
    ensures AdmitRequest(s, sizes, nodes).Ok?
            <==> |nodes| <= |sizes| && DistinctNodes(nodes) && (forall n | n in nodes :: Named(sizes, n))
                 && forall n | n in nodes :: Grounded(Admitted(s, sizes, nodes), n)
    ensures AdmitRequest(s, sizes, nodes).Ok? ==> AdmitRequest(s, sizes, nodes).value == Admitted(s, sizes, nodes)
  {
    CandidatesAreExact(sizes, nodes, []);
    assert [] + AsCandidates(nodes) == AsCandidates(nodes);
    if |nodes| <= |sizes| && Candidates(sizes, nodes, []).Ok? {
      var cs := AsCandidates(nodes);
      CandidatesArePresent(s, sizes, nodes);
      ProofsKeepClosed(s, sizes);
      AdmittedNodes(s, sizes, nodes, s.(proofs := s.proofs + (set d | d in sizes :: Obj(d, sizes[d]))));
    }
  }

  lemma AdmittedNodes(s: Store, sizes: map<Digest, nat>, nodes: seq<Submitted>, s1: Store)
    requires s1 == s.(proofs := s.proofs + (set d | d in sizes :: Obj(d, sizes[d]))) && Closed(s1)
    requires AllParse(AsCandidates(nodes)) && forall c | c in AsCandidates(nodes) :: Present(s, c)
    ensures AllParse(SortByHeight(AsCandidates(nodes)))
    ensures var r := Admit(s1, SortByHeight(AsCandidates(nodes)));
            && (r.Ok? <==> forall n | n in nodes :: Grounded(Admitted(s, sizes, nodes), n))
            && (r.Ok? ==> r.value == Admitted(s, sizes, nodes))
  {
    var cs := AsCandidates(nodes);
    SortByHeightSorts(cs);
    AdmitIsClosure(s1, SortByHeight(cs));
    ClosureOfNodes(s, sizes, nodes, s1, SortByHeight(cs));
  }

  /** Candidates are one for each node. */
  ghost predicate Mirrors(nodes: seq<Submitted>, cs: seq<Candidate>) {
    && (forall n | n in nodes :: CandidateOf(n) in cs)
    && (forall c | c in cs :: Submitted(c.digest, c.raw) in nodes && c == CandidateOf(Submitted(c.digest, c.raw)))
  }

  lemma AsCandidatesMirrors(nodes: seq<Submitted>)
    ensures Mirrors(nodes, AsCandidates(nodes))
  {
    var all := AsCandidates(nodes);
    forall n | n in nodes
      ensures CandidateOf(n) in all
    {
      var i :| 0 <= i < |nodes| && nodes[i] == n;
      assert all[i] == CandidateOf(n);
    }
    forall c | c in all
      ensures Submitted(c.digest, c.raw) in nodes && c == CandidateOf(Submitted(c.digest, c.raw))
    {
      var i :| 0 <= i < |all| && all[i] == c;
      assert nodes[i] == Submitted(c.digest, c.raw);
    }
  }

  lemma MirroredKeys(nodes: seq<Submitted>, cs: seq<Candidate>)
    requires Mirrors(nodes, cs)
    ensures Keys(cs) == set n | n in nodes :: KeyOfNode(n)
  {
    forall k | k in Keys(cs)
      ensures k in (set n | n in nodes :: KeyOfNode(n))
    {
      var c :| c in cs && Key(c) == k;
      assert KeyOfNode(Submitted(c.digest, c.raw)) == k;
    }
    forall n | n in nodes
      ensures KeyOfNode(n) in Keys(cs)
    {
      assert Key(CandidateOf(n)) == KeyOfNode(n);
    }
  }

  lemma MirroredClosure(s: Store, nodes: seq<Submitted>, cs: seq<Candidate>)
    requires Mirrors(nodes, cs) && AllParse(cs)
    ensures AllChildrenProven(s, cs) <==> forall n | n in nodes :: Grounded(s, n)
  {
    forall c | c in cs
      ensures Parses(c) && (ChildrenProven(s, c) <==> Grounded(s, Submitted(c.digest, c.raw)))
    {
    }
    if AllChildrenProven(s, cs) {
      forall n | n in nodes
        ensures Grounded(s, n)
      {
        assert ChildrenProven(s, CandidateOf(n));
      }
    }
  }

  lemma ClosureOfNodes(s: Store, sizes: map<Digest, nat>, nodes: seq<Submitted>, s1: Store, cs: seq<Candidate>)
    requires s1 == s.(proofs := s.proofs + (set d | d in sizes :: Obj(d, sizes[d])))
    requires AllParse(AsCandidates(nodes)) && forall c :: c in cs <==> c in AsCandidates(nodes)
    ensures With(s1, cs) == Admitted(s, sizes, nodes)
    ensures AllChildrenProven(With(s1, cs), cs) <==> forall n | n in nodes :: Grounded(Admitted(s, sizes, nodes), n)
  {
    AsCandidatesMirrors(nodes);
    MirroredKeys(nodes, cs);
    MirroredClosure(With(s1, cs), nodes, cs);
  }

  /** Admission keeps the closure and loses nothing. */
  lemma AdmitRequestKeepsClosed(s: Store, sizes: map<Digest, nat>, nodes: seq<Submitted>)
    requires Closed(s) && BlocksStored(s.cas, sizes)
    requires forall n | n in nodes && n.digest in s.cas :: NoCollision(n.raw, s.cas[n.digest].data)
    ensures var r := AdmitRequest(s, sizes, nodes);
            r.Ok? ==> Closed(r.value) && Extends(s, r.value) && r.value.cas == s.cas
  {
    if |nodes| <= |sizes| && Candidates(sizes, nodes, []).Ok? {
      var cs := Candidates(sizes, nodes, []).value;
      CandidatesAreSubmitted(sizes, nodes, []);
      SortByHeightSorts(cs);
      var proofs := set d | d in sizes :: Obj(d, sizes[d]);
      var s1 := s.(proofs := s.proofs + proofs);
      ClosedSurvivesObjects(s, s1);
      forall c | c in SortByHeight(cs)
        ensures Present(s1, c)
      {
        assert c in cs;
        assert Submitted(c.digest, c.raw) in nodes;
        assert VerifyBlock(s.cas, c.digest, sizes[c.digest]).Ok?;
      }
      AdmitIsClosure(s1, SortByHeight(cs));
    }
  }

  /** Acceptance does not depend on the order in which nodes are submitted. */
  lemma AdmissionIgnoresOrder(s: Store, cs: seq<Candidate>, cs': seq<Candidate>)
    requires Closed(s) && AllParse(cs) && AllParse(cs')
    requires forall c :: c in cs <==> c in cs'
    requires forall c | c in cs :: Present(s, c)
    ensures AllParse(SortByHeight(cs)) && AllParse(SortByHeight(cs'))
    ensures Admit(s, SortByHeight(cs)) == Admit(s, SortByHeight(cs'))
  {
    SortByHeightSorts(cs);
    SortByHeightSorts(cs');
    AdmitSameSet(s, SortByHeight(cs), SortByHeight(cs'));
  }

  lemma AdmitSameSet(s: Store, a: seq<Candidate>, b: seq<Candidate>)
    requires Closed(s) && AllParse(a) && AllParse(b) && Ascending(a) && Ascending(b)
    requires forall c :: c in a <==> c in b
    requires forall c | c in a :: Present(s, c)
    ensures Admit(s, a) == Admit(s, b)
  {
    AdmitIsClosure(s, a);
    AdmitIsClosure(s, b);
    SameSetSameClosure(s, a, b);
  }

  lemma SameSetSameClosure(s: Store, a: seq<Candidate>, b: seq<Candidate>)
    requires forall c :: c in a <==> c in b
    ensures With(s, a) == With(s, b) && (AllChildrenProven(With(s, a), a) <==> AllChildrenProven(With(s, b), b))
  {
    assert Keys(a) == Keys(b);
  }

  // ---------------------------------------------------------------- immutability

  /** Every object's bytes hash to its key and have the recorded size. */
  ghost predicate WellHashed(cas: Cas) {
    forall d | d in cas :: Sha256(cas[d].data) == d && cas[d].size == |cas[d].data|
  }

  /** SHA-256 does not collide on these bytes and any stored object. */
  ghost predicate Collisionless(cas: Cas, data: Bytes) {
    forall d | d in cas :: NoCollision(data, cas[d].data)
  }

  ghost predicate Intact(s: Store) {
    WellHashed(s.cas) && Closed(s)
  }

  /** An immutable write: storing bytes under their own hash. */
  function PutObject(cas: Cas, digest: Digest, data: Bytes): Cas {
    cas[digest := Stored(data, |data|)]
  }

  lemma {:induction false} PutObjectIsImmutable(s: Store, data: Bytes)
    requires Intact(s) && Collisionless(s.cas, data)
    ensures var s' := s.(cas := PutObject(s.cas, Sha256(data), data));
            Intact(s') && Extends(s, s')
  {
    ClosedSurvivesObjects(s, s.(cas := PutObject(s.cas, Sha256(data), data)));
  }
}
