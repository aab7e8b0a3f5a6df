/** The Fabric v2 namespace: a map of entries, the bytes kept beside it, and the
    append-only journal that a commit writes. One operation at a time. */
module V2Namespace {
  import opened Prelude
  import opened Layouts

  /** The kind field of an operation is free text where the code does not check it. */
  datatype Kind = File | Directory | Other(text: Bytes)

  datatype Verb = Put | Delete | Rename

  datatype Op = Op(
    verb: Verb, path: Path, kind: Option<Kind>, digest: Option<Digest>, size: Option<nat>,
    layout: Option<Layout>, prev: Option<Digest>, destination: Option<Path>,
    source: Option<Path>, sourcePrev: Option<Digest>)

  datatype Content = Content(kind: Kind, size: nat, digest: Option<Digest>, layout: Option<Layout>)

  datatype Entry = Entry(content: Content, number: nat)

  datatype Record = Record(
    number: nat, path: Path, verb: Verb, content: Content, prev: Option<Digest>,
    destination: Option<Path>, source: Option<Path>, sourcePrev: Option<Digest>)

  type Journal = seq<Record>

  type Contents = map<Path, Content>

  datatype Namespace = Namespace(
    entries: map<Path, Entry>, files: map<Path, Bytes>, layouts: map<Path, Layout>, journal: Journal)

  const EMPTY_NAMESPACE := Namespace(map[], map[], map[], [])

  // ------------------------------------------------------------ one operation

  /** What a normalized operation looks like, with the bytes it was validated to. */
  predicate Shaped(op: Op, data: Option<Bytes>) {
    && (op.destination.Some? <==> op.verb.Rename?)
    && (op.source.Some? <==> op.sourcePrev.Some?)
    && (op.source.Some? ==> op.verb.Put? && op.kind == Some(File))
    && (op.verb.Put? ==> op.kind == Some(File) || op.kind == Some(Directory))
    && (data.Some? <==> op.verb.Put? && op.kind == Some(File))
    && (data.Some? ==> op.size == Some(|data.value|) && op.digest.Some? && op.layout.Some?)
    && (op.verb.Put? && data.None? ==> op.digest.None? && op.size.None? && op.layout.None?)
    && (op.destination.Some? ==> op.destination.value != op.path)
    && (op.source.Some? ==> op.source.value != op.path)
  }

  datatype Verdict = Pass | Diverged(observed: Option<Digest>)

  function Observed(entries: map<Path, Entry>, p: Path): Option<Digest> {
    if p in entries then entries[p].content.digest else None
  }

  predicate IsFile(entries: map<Path, Entry>, p: Path) {
    p in entries && entries[p].content.kind == File
  }

  /** The compare-and-swap verdict. */
  function Judge(entries: map<Path, Entry>, op: Op): Verdict {
    var actual := Observed(entries, op.path);
    if actual != op.prev || (op.verb.Put? && op.prev.None? && op.path in entries) then Diverged(actual)
    else if op.verb.Rename? && (!IsFile(entries, op.path) || op.destination.None? || op.destination.value in entries)
    then Diverged(actual)
    else if op.source.Some?
            && (!IsFile(entries, op.source.value) || entries[op.source.value].content.digest != op.sourcePrev)
    then Diverged(actual)
    else Pass
  }

  predicate HasDescendant(entries: map<Path, Entry>, p: Path) {
    exists q | q in entries :: Below(q, p)
  }

  datatype Outcome =
    | Applied(ns: Namespace)
    | Skipped(observed: Option<Digest>)
    | RefusedDelete
    | Crashed(ns: Namespace)

  function RemoveOptional<T>(m: map<Path, T>, p: Option<Path>): map<Path, T> {
    if p.None? then m else m - {p.value}
  }

  function PutContent(op: Op, data: Option<Bytes>): Content
    requires Shaped(op, data) && op.verb.Put?
  {
    Content(op.kind.value, if data.Some? then |data.value| else 0, op.digest,
            if data.Some? then op.layout else None)
  }

  /** Moves an entry with its bytes. A file whose bytes are not in the legacy table
      dies on the missing key after its entry has already moved. */
  function RenameEntry(ns: Namespace, op: Op): Outcome
    requires op.destination.Some? && op.path in ns.entries
  {
    var number := |ns.journal| + 1;
    var content, to := ns.entries[op.path].content, op.destination.value;
    var entries := (ns.entries - {op.path})[to := Entry(content, number)];
    if op.path !in ns.files then Crashed(ns.(entries := entries))
    else
      var files := (ns.files - {op.path})[to := ns.files[op.path]];
      if op.path !in ns.layouts then Crashed(ns.(entries := entries, files := files))
      else
        var layout := ns.layouts[op.path];
        var written := Content(op.kind.GetOr(content.kind), content.size, content.digest, Some(layout));
        var record := Record(number, op.path, Rename, written, op.prev, op.destination, None, None);
        Applied(Namespace(entries, files, (ns.layouts - {op.path})[to := layout], ns.journal + [record]))
  }

  function PutEntry(ns: Namespace, op: Op, data: Option<Bytes>): Namespace
    requires Shaped(op, data) && op.verb.Put?
  {
    var number := |ns.journal| + 1;
    var content := PutContent(op, data);
    var written := content.(size := op.size.GetOr(0));
    var record := Record(number, op.path, Put, written, op.prev, None, op.source, op.sourcePrev);
    var files := if data.Some? then ns.files[op.path := data.value] else ns.files;
    var layouts := if data.Some? then ns.layouts[op.path := op.layout.value] else ns.layouts;
    Namespace(RemoveOptional(ns.entries[op.path := Entry(content, number)], op.source),
              RemoveOptional(files, op.source), RemoveOptional(layouts, op.source), ns.journal + [record])
  }

  function DeleteEntry(ns: Namespace, op: Op): Namespace {
    var number := |ns.journal| + 1;
    var kind := if op.path in ns.entries then ns.entries[op.path].content.kind else File;
    var written := Content(op.kind.GetOr(kind), op.size.GetOr(0), op.digest, None);
    var record := Record(number, op.path, Delete, written, op.prev, None, None, None);
    Namespace(ns.entries - {op.path}, ns.files - {op.path}, ns.layouts - {op.path}, ns.journal + [record])
  }

  /** One turn of the commit loop. */
  function ApplyOp(ns: Namespace, op: Op, data: Option<Bytes>): Outcome
    requires Shaped(op, data)
  {
    var verdict := Judge(ns.entries, op);
    if verdict.Diverged? then Skipped(verdict.observed)
    else if op.verb.Delete? && HasDescendant(ns.entries, op.path) then RefusedDelete
    else
      match op.verb
      case Rename => RenameEntry(ns, op)
      case Put => Applied(PutEntry(ns, op, data))
      case Delete => Applied(DeleteEntry(ns, op))
  }

  // ------------------------------------------------------------------- replay

  /** The path whose entry a record writes. */
  function Target(r: Record): Path {
    if r.verb.Rename? && r.destination.Some? then r.destination.value else r.path
  }

  /** What a record says about a path: nothing, gone, or this content. */
  function Effect(r: Record, p: Path): Option<Option<Content>> {
    if r.verb.Put? then
      if r.source == Some(p) then Some(None) else if p == r.path then Some(Some(r.content)) else None
    else if r.verb.Rename? && r.destination == Some(p) then Some(Some(r.content))
    else if p == r.path then Some(None)
    else None
  }

  /** A replica's application of one record, from the record alone. */
  function Replay1(m: Contents, r: Record): Contents {
    if r.verb.Put? then RemoveOptional(m[r.path := r.content], r.source)
    else if r.verb.Rename? && r.destination.Some? then (m - {r.path})[r.destination.value := r.content]
    else m - {r.path}
  }

  function At(m: Contents, p: Path): Option<Content> {
    if p in m then Some(m[p]) else None
  }

  lemma Replay1IsEffect(m: Contents, r: Record, p: Path)
    ensures At(Replay1(m, r), p) == Effect(r, p).GetOr(At(m, p))
  {
  }

  function ReplayOn(m: Contents, j: Journal): Contents {
    if j == [] then m else Replay1(ReplayOn(m, j[..|j| - 1]), j[|j| - 1])
  }

  function Replay(j: Journal): Contents {
    ReplayOn(map[], j)
  }

  function ContentsOf(entries: map<Path, Entry>): Contents {
    map p | p in entries :: entries[p].content
  }

  // ---------------------------------------------------------------- invariant

  ghost predicate Chained(j: Journal, i: nat)
    requires i < |j|
  {
    var before := Replay(j[..i]);
    && j[i].number == i + 1
    && j[i].prev == (if j[i].path in before then before[j[i].path].digest else None)
    && (j[i].source.Some? ==>
          j[i].source.value in before && before[j[i].source.value].digest == j[i].sourcePrev)
  }

  /** Sequence numbers are 1..n, every record names the digests it replaced, replay
      from nothing gives the entries, and each entry's own sequence number is that
      of the record that wrote it. */
  ghost predicate Refines(ns: Namespace) {
    && (forall i | 0 <= i < |ns.journal| :: Chained(ns.journal, i))
    && ContentsOf(ns.entries) == Replay(ns.journal)
    && (forall p | p in ns.entries ::
          1 <= ns.entries[p].number <= |ns.journal| && Target(ns.journal[ns.entries[p].number - 1]) == p)
  }

  ghost predicate EntryShape(c: Content) {
    && (c.kind == File || c.kind == Directory)
    && (c.kind == File ==> c.digest.Some? && c.layout.Some?)
    && (c.kind == Directory ==> c.digest.None? && c.layout.None? && c.size == 0)
  }

  /** The legacy tables beside the entries: equal keys, and for a file that has
      bytes there, its own layout and size. */
  ghost predicate Wellformed(ns: Namespace) {
    && ns.files.Keys == ns.layouts.Keys <= ns.entries.Keys
    && (forall p | p in ns.entries :: EntryShape(ns.entries[p].content))
    && (forall p | p in ns.files && IsFile(ns.entries, p) ::
          Some(ns.layouts[p]) == ns.entries[p].content.layout && |ns.files[p]| == ns.entries[p].content.size)
  }

  /** Distinct entries carry distinct sequence numbers. */
  lemma {:induction false} EntrySeqsAreDistinct(ns: Namespace, p: Path, q: Path)
    requires Refines(ns) && p in ns.entries && q in ns.entries && p != q
    ensures ns.entries[p].number != ns.entries[q].number
  {
    assert Target(ns.journal[ns.entries[p].number - 1]) == p;
  }

  /** The one operation whose record does not describe what it did. */
  predicate ForeignRename(op: Op) {
    op.verb.Rename? && op.kind.Some? && op.kind.value != File
  }

  lemma ChainedIsStable(j: Journal, r: Record, i: nat)
    requires i < |j|
    ensures Chained(j + [r], i) <==> Chained(j, i)
  {
    assert (j + [r])[..i] == j[..i];
  }

  lemma AppendRecord(j: Journal, r: Record)
    ensures Replay(j + [r]) == Replay1(Replay(j), r)
  {
    assert (j + [r])[..|j|] == j;
  }

  /** The namespace grew by a record that names what it replaced, and every entry is
      either untouched or was written by that record. */
  ghost predicate Extended(ns: Namespace, ns': Namespace, r: Record) {
    && ns'.journal == ns.journal + [r]
    && r.number == |ns'.journal|
    && r.prev == Observed(ns.entries, r.path)
    && (r.source.Some? ==>
          r.source.value in ns.entries && ns.entries[r.source.value].content.digest == r.sourcePrev)
    && (forall p | p in ns'.entries ::
          (p in ns.entries && ns'.entries[p] == ns.entries[p]) || (p == Target(r) && ns'.entries[p].number == r.number))
  }

  lemma ExtendedIsChained(ns: Namespace, ns': Namespace, r: Record)
    requires Refines(ns) && Extended(ns, ns', r)
    ensures forall i | 0 <= i < |ns'.journal| :: Chained(ns'.journal, i)
  {
    var n := |ns.journal|;
    forall i | 0 <= i < |ns'.journal|
      ensures Chained(ns'.journal, i)
    {
      if i < n {
        ChainedIsStable(ns.journal, r, i);
      } else {
        assert ns'.journal[..n] == ns.journal;
      }
    }
  }

  /** Then refinement comes down to the record describing the change. */
  lemma ExtendedRefines(ns: Namespace, ns': Namespace, r: Record)
    requires Refines(ns) && Extended(ns, ns', r)
    ensures Refines(ns') <==> ContentsOf(ns'.entries) == Replay1(ContentsOf(ns.entries), r)
  {
    AppendRecord(ns.journal, r);
    ExtendedIsChained(ns, ns', r);
    forall p | p in ns'.entries
      ensures 1 <= ns'.entries[p].number <= |ns.journal| + 1 && Target(ns'.journal[ns'.entries[p].number - 1]) == p
    {
    }
  }

  /** Also where it dies half-way. */
  lemma RenameKeepsWellformed(ns: Namespace, op: Op)
    requires Shaped(op, None) && op.verb.Rename? && Judge(ns.entries, op).Pass? && Wellformed(ns)
    ensures var o := RenameEntry(ns, op); (o.Applied? || o.Crashed?) && Wellformed(o.ns)
  {
  }

  lemma RenameStep(ns: Namespace, op: Op)
    requires Shaped(op, None) && op.verb.Rename? && Judge(ns.entries, op).Pass?
    requires Wellformed(ns) && RenameEntry(ns, op).Applied?
    ensures var ns' := RenameEntry(ns, op).ns;
            var r := ns'.journal[|ns.journal|];
            && Extended(ns, ns', r)
            && (ContentsOf(ns'.entries) == Replay1(ContentsOf(ns.entries), r) <==> !ForeignRename(op))
  {
    var ns' := RenameEntry(ns, op).ns;
    var r := ns'.journal[|ns.journal|];
    var now, told := ContentsOf(ns'.entries), Replay1(ContentsOf(ns.entries), r);
    var to := op.destination.value;
    assert now.Keys == told.Keys;
    assert forall p | p in now && p != to :: now[p] == told[p];
    assert told[to] == now[to].(kind := op.kind.GetOr(File));
  }

  lemma PutKeepsWellformed(ns: Namespace, op: Op, data: Option<Bytes>)
    requires Shaped(op, data) && op.verb.Put? && Judge(ns.entries, op).Pass? && Wellformed(ns)
    ensures Wellformed(PutEntry(ns, op, data))
  {
    var ns' := PutEntry(ns, op, data);
    assert EntryShape(PutContent(op, data));
    forall p | p in ns'.files && IsFile(ns'.entries, p)
      ensures Some(ns'.layouts[p]) == ns'.entries[p].content.layout && |ns'.files[p]| == ns'.entries[p].content.size
    {
      if p != op.path {
        assert p in ns.files && IsFile(ns.entries, p);
      }
    }
  }

  lemma PutStep(ns: Namespace, op: Op, data: Option<Bytes>)
    requires Shaped(op, data) && op.verb.Put? && Judge(ns.entries, op).Pass?
    ensures var ns' := PutEntry(ns, op, data);
            var r := ns'.journal[|ns.journal|];
            && Extended(ns, ns', r)
            && ContentsOf(ns'.entries) == Replay1(ContentsOf(ns.entries), r)
  {
    var ns' := PutEntry(ns, op, data);
    var r := ns'.journal[|ns.journal|];
    assert r.content == PutContent(op, data);
  }

  lemma DeleteStep(ns: Namespace, op: Op)
    requires Shaped(op, None) && op.verb.Delete? && Judge(ns.entries, op).Pass?
    ensures var ns' := DeleteEntry(ns, op);
            var r := ns'.journal[|ns.journal|];
            && Extended(ns, ns', r)
            && ContentsOf(ns'.entries) == Replay1(ContentsOf(ns.entries), r)
  {
  }

  lemma ApplyKeepsWellformed(ns: Namespace, op: Op, data: Option<Bytes>)
    requires Shaped(op, data) && Wellformed(ns)
    ensures var o := ApplyOp(ns, op, data); o.Applied? || o.Crashed? ==> Wellformed(o.ns)
  {
    var o := ApplyOp(ns, op, data);
    if !o.Applied? && !o.Crashed? {
      return;
    }
    match op.verb
    case Rename => RenameKeepsWellformed(ns, op);
    case Put => PutKeepsWellformed(ns, op, data);
    case Delete =>
  }

  /** An applied operation keeps the namespace refined by its journal, unless it is
      a rename that carries a foreign kind. */
  lemma ApplyKeepsRefinement(ns: Namespace, op: Op, data: Option<Bytes>)
    requires Shaped(op, data) && Refines(ns) && Wellformed(ns) && ApplyOp(ns, op, data).Applied?
    ensures var ns' := ApplyOp(ns, op, data).ns;
            && Wellformed(ns')
            && |ns'.journal| == |ns.journal| + 1 && ns'.journal[..|ns.journal|] == ns.journal
            && (Refines(ns') <==> !ForeignRename(op))
  {
    var ns' := ApplyOp(ns, op, data).ns;
    ApplyKeepsWellformed(ns, op, data);
    match op.verb
    case Rename =>
      RenameStep(ns, op);
      ExtendedRefines(ns, ns', ns'.journal[|ns.journal|]);
    case Put =>
      PutStep(ns, op, data);
      ExtendedRefines(ns, ns', ns'.journal[|ns.journal|]);
    case Delete =>
      DeleteStep(ns, op);
      ExtendedRefines(ns, ns', ns'.journal[|ns.journal|]);
  }

  /** A rename dies half-way exactly when its file has no bytes in the legacy table,
      and then it leaves entries that no journal record explains. */
  lemma CrashBreaksRefinement(ns: Namespace, op: Op, data: Option<Bytes>)
    requires Shaped(op, data) && Wellformed(ns)
    ensures ApplyOp(ns, op, data).Crashed? <==>
              op.verb.Rename? && Judge(ns.entries, op).Pass? && op.path !in ns.files
    ensures Refines(ns) && ApplyOp(ns, op, data).Crashed? ==> !Refines(ApplyOp(ns, op, data).ns)
  {
    if Refines(ns) && ApplyOp(ns, op, data).Crashed? {
      assert op.path in ContentsOf(ns.entries);
      assert op.path !in ContentsOf(ApplyOp(ns, op, data).ns.entries);
    }
  }
}
