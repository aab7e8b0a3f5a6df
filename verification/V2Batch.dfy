/** A whole commit batch: normalization, the loop of verdicts, and why the order of
    operations in a batch does not matter. */
module V2Batch {
  import opened Prelude
  import opened TreeCodec
  import opened Layouts
  import opened V2Namespace

  // ------------------------------------------------------------ normalization

  /** The paths an operation names. */
  function Footprint(op: Op): set<Path> {
    {op.path} + (if op.destination.Some? then {op.destination.value} else {})
    + (if op.source.Some? then {op.source.value} else {})
  }

  function Descriptor(op: Op): PutDescriptor {
    PutDescriptor(op.size, op.digest, op.layout)
  }

  predicate IsFilePut(op: Op) {
    op.verb.Put? && op.kind == Some(File)
  }

  /** The second path of an operation, if its fields are consistent. */
  function Related(op: Op): Result<Option<Path>> {
    if op.verb.Rename? && op.destination.None? then Rejected(UnsafePath)
    else if !op.verb.Rename? && op.destination.Some? then Rejected(OpsInvalid)
    else if op.source.Some? || op.sourcePrev.Some? then
      if !op.verb.Put? || op.kind.GetOr(File) != File then Rejected(OpsInvalid)
      else if op.source.None? then Rejected(UnsafePath)
      else if op.sourcePrev.None? then Rejected(DigestInvalid)
      else Ok(op.source)
    else Ok(op.destination)
  }

  /** One turn of the normalization loop: the paths seen after it. */
  function CheckOp(op: Op, seen: set<Path>): Result<set<Path>> {
    if op.path in seen then Rejected(OperationUnsupported)
    else
      var related := Related(op);
      if related.Rejected? then Rejected(related.fault)
      else if related.value.Some?
              && (related.value.value in seen + {op.path}
                  || Below(related.value.value, op.path) || Below(op.path, related.value.value))
      then Rejected(OpsInvalid)
      else if IsFilePut(op) then
        var fault := CheckPut(Descriptor(op));
        if fault.Some? then Rejected(fault.value)
        else if op.size.value > MAX_FILE then Rejected(FileTooLarge)
        else Ok(seen + Footprint(op))
      else if op.verb.Put? && (op.kind != Some(Directory) || op.digest.Some? || op.size.Some? || op.layout.Some?)
      then Rejected(OpsInvalid)
      else Ok(seen + Footprint(op))
  }

  function Normalize(ops: seq<Op>, seen: set<Path>): Option<Fault> {
    if ops == [] then None
    else
      var next := CheckOp(ops[0], seen);
      if next.Rejected? then Some(next.fault) else Normalize(ops[1..], next.value)
  }

  ghost predicate DisjointOps(ops: seq<Op>) {
    forall i, j | 0 <= i < j < |ops| :: Footprint(ops[i]) !! Footprint(ops[j])
  }

  /** What one accepted operation guarantees by itself. */
  predicate Consistent(op: Op) {
    && (op.destination.Some? <==> op.verb.Rename?)
    && (op.source.Some? <==> op.sourcePrev.Some?)
    && (op.source.Some? ==> IsFilePut(op))
    && (op.verb.Put? ==> op.kind == Some(File) || op.kind == Some(Directory))
    && (IsFilePut(op) ==> CheckPut(Descriptor(op)).None? && op.size.value <= MAX_FILE)
    && (op.verb.Put? && !IsFilePut(op) ==> op.digest.None? && op.size.None? && op.layout.None?)
    && (op.destination.Some? ==> op.destination.value != op.path)
    && (op.source.Some? ==> op.source.value != op.path)
  }

  lemma CheckedOp(op: Op, seen: set<Path>)
    requires CheckOp(op, seen).Ok?
    ensures CheckOp(op, seen).value == seen + Footprint(op) && Consistent(op) && Footprint(op) !! seen
  {
  }

  /** A normalized batch touches pairwise disjoint paths. */
  lemma {:induction false} NormalizedIsDisjoint(ops: seq<Op>, seen: set<Path>)
    requires Normalize(ops, seen).None?
    ensures DisjointOps(ops)
    ensures forall i | 0 <= i < |ops| :: Consistent(ops[i]) && Footprint(ops[i]) !! seen
  {
    if ops != [] {
      CheckedOp(ops[0], seen);
      NormalizedIsDisjoint(ops[1..], seen + Footprint(ops[0]));
      assert forall i | 1 <= i < |ops| :: ops[i] == ops[1..][i - 1];
    }
  }

  predicate Nested(a: Path, b: Path) {
    Below(a, b) || Below(b, a)
  }

  /** A consistent operation whose two paths do not lie in one another. */
  predicate WellMade(op: Op) {
    && Consistent(op)
    && (op.destination.Some? ==> !Nested(op.destination.value, op.path))
    && (op.source.Some? ==> !Nested(op.source.value, op.path))
  }

  lemma CheckOpIsExact(op: Op, seen: set<Path>)
    ensures CheckOp(op, seen).Ok? <==> WellMade(op) && Footprint(op) !! seen
    ensures CheckOp(op, seen).Ok? ==> CheckOp(op, seen).value == seen + Footprint(op)
  {
    if WellMade(op) && Footprint(op) !! seen {
      assert op.path in Footprint(op);
      assert op.destination.Some? ==> op.destination.value in Footprint(op);
      assert op.source.Some? ==> op.source.value in Footprint(op);
    }
  }

  lemma DisjointOpsStep(ops: seq<Op>, seen: set<Path>)
    requires ops != []
    ensures DisjointOps(ops) && (forall i | 0 <= i < |ops| :: Footprint(ops[i]) !! seen)
            <==> Footprint(ops[0]) !! seen && DisjointOps(ops[1..])
                 && forall i | 0 <= i < |ops[1..]| :: Footprint(ops[1..][i]) !! seen + Footprint(ops[0])
  {
    assert forall i | 0 <= i < |ops[1..]| :: ops[1..][i] == ops[i + 1];
    assert forall i | 1 <= i < |ops| :: ops[i] == ops[1..][i - 1];
  }

  /** A batch is accepted exactly when its operations are well made and touch pairwise
      disjoint paths. */
  lemma {:induction false} NormalizeIsExact(ops: seq<Op>, seen: set<Path>)
    ensures Normalize(ops, seen).None?
            <==> (forall i | 0 <= i < |ops| :: WellMade(ops[i]))
                 && DisjointOps(ops) && forall i | 0 <= i < |ops| :: Footprint(ops[i]) !! seen
    decreases |ops|
  {
    if ops != [] {
      CheckOpIsExact(ops[0], seen);
      DisjointOpsStep(ops, seen);
      NormalizeIsExact(ops[1..], seen + Footprint(ops[0]));
      assert forall i | 1 <= i < |ops| :: ops[i] == ops[1..][i - 1];
      assert forall i | 0 <= i < |ops[1..]| :: ops[1..][i] == ops[i + 1];
    }
  }

  // ----------------------------------------------------------------- the loop

  datatype Item = Item(op: Op, data: Option<Bytes>)

  datatype OpVerdict = AppliedAt(number: nat) | RejectedWith(observed: Option<Digest>)

  datatype End = Completed | RefusedMidway | CrashedMidway

  datatype BatchResult = BatchResult(ns: Namespace, verdicts: seq<OpVerdict>, end: End)

  predicate AllShaped(items: seq<Item>) {
    forall i | 0 <= i < |items| :: Shaped(items[i].op, items[i].data)
  }

  function RunBatch(ns: Namespace, items: seq<Item>): (r: BatchResult)
    requires AllShaped(items)
    ensures |r.verdicts| <= |items| && (r.end.Completed? ==> |r.verdicts| == |items|)
    decreases |items|
  {
    if items == [] then BatchResult(ns, [], Completed)
    else
      match ApplyOp(ns, items[0].op, items[0].data)
      case Applied(next) => After(AppliedAt(|ns.journal| + 1), RunBatch(next, items[1..]))
      case Skipped(observed) => After(RejectedWith(observed), RunBatch(ns, items[1..]))
      case RefusedDelete => BatchResult(ns, [], RefusedMidway)
      case Crashed(next) => BatchResult(next, [], CrashedMidway)
  }

  function After(v: OpVerdict, r: BatchResult): BatchResult {
    r.(verdicts := [v] + r.verdicts)
  }

  // ------------------------------------------------------- journal and entries

  ghost predicate Disjoint(items: seq<Item>) {
    forall i, j | 0 <= i < j < |items| :: Footprint(items[i].op) !! Footprint(items[j].op)
  }

  function Present(ns: Namespace, p: Path): Option<Content> {
    At(ContentsOf(ns.entries), p)
  }

  /** Outside its footprint an operation changes nothing. */
  lemma OutsideFootprint(ns: Namespace, item: Item, p: Path)
    requires Shaped(item.op, item.data) && p !in Footprint(item.op)
    ensures var o := ApplyOp(ns, item.op, item.data);
            && (o.Applied? || o.Crashed? ==>
                  && (p in o.ns.entries <==> p in ns.entries)
                  && (p in ns.entries ==> o.ns.entries[p] == ns.entries[p])
                  && (p in o.ns.files <==> p in ns.files) && (p in o.ns.layouts <==> p in ns.layouts)
                  && ns.journal <= o.ns.journal)
            && (o.Applied? ==> |o.ns.journal| == |ns.journal| + 1 && Effect(o.ns.journal[|ns.journal|], p).None?)
            && (o.Crashed? ==> o.ns.journal == ns.journal)
  {
  }

  /** What the journal says about a path and what the entries say differ. */
  ghost predicate Mismatch(ns: Namespace, p: Path) {
    Present(ns, p) != At(Replay(ns.journal), p)
  }

  lemma {:induction false} MismatchPersists(ns: Namespace, items: seq<Item>, p: Path)
    requires AllShaped(items) && Mismatch(ns, p)
    requires forall i | 0 <= i < |items| :: p !in Footprint(items[i].op)
    ensures Mismatch(RunBatch(ns, items).ns, p)
    decreases |items|
  {
    if items != [] {
      OutsideFootprint(ns, items[0], p);
      var o := ApplyOp(ns, items[0].op, items[0].data);
      if o.Applied? {
        var r := o.ns.journal[|ns.journal|];
        assert o.ns.journal == ns.journal + [r];
        AppendRecord(ns.journal, r);
        Replay1IsEffect(Replay(ns.journal), r, p);
        MismatchPersists(o.ns, items[1..], p);
      } else if o.Skipped? {
        MismatchPersists(ns, items[1..], p);
      }
    }
  }

  /** The batch applied a rename that carries a foreign kind. */
  ghost predicate AppliedForeign(items: seq<Item>, r: BatchResult)
    requires |r.verdicts| <= |items|
  {
    exists i | 0 <= i < |r.verdicts| :: r.verdicts[i].AppliedAt? && ForeignRename(items[i].op)
  }

  /** A batch, refused half-way or not, leaves the journal refining the namespace
      exactly when it did not crash and applied no rename with a foreign kind. */
  lemma {:induction false} RefinementByVerdicts(ns: Namespace, items: seq<Item>)
    requires AllShaped(items) && Disjoint(items) && Refines(ns) && Wellformed(ns)
    ensures var r := RunBatch(ns, items);
            Refines(r.ns) <==> !r.end.CrashedMidway? && !AppliedForeign(items, r)
    decreases |items|
  {
    if items != [] {
      var op, data := items[0].op, items[0].data;
      match ApplyOp(ns, op, data)
      case Applied(next) =>
        AppliedForeignStep(items, AppliedAt(|ns.journal| + 1), RunBatch(next, items[1..]));
        AppliedStep(ns, items);
        if !ForeignRename(op) {
          RefinementByVerdicts(next, items[1..]);
        }
      case Skipped(observed) =>
        AppliedForeignStep(items, RejectedWith(observed), RunBatch(ns, items[1..]));
        RefinementByVerdicts(ns, items[1..]);
      case RefusedDelete =>
      case Crashed(next) =>
        CrashBreaksRefinement(ns, op, data);
    }
  }

  lemma DisjointTail(items: seq<Item>)
    requires items != [] && Disjoint(items)
    ensures Disjoint(items[1..])
  {
    assert forall i | 1 <= i < |items| :: items[i] == items[1..][i - 1];
  }

  lemma ForeignPersists(ns: Namespace, next: Namespace, items: seq<Item>)
    requires items != [] && AllShaped(items) && Disjoint(items) && Refines(ns) && Wellformed(ns)
    requires ForeignRename(items[0].op) && ApplyOp(ns, items[0].op, None) == Applied(next)
    ensures !Refines(RunBatch(next, items[1..]).ns)
  {
    var tail, p := items[1..], items[0].op.destination.value;
    ForeignMismatch(ns, items[0].op);
    forall i | 0 <= i < |tail|
      ensures p !in Footprint(tail[i].op)
    {
      assert tail[i] == items[i + 1] && p in Footprint(items[0].op);
    }
    MismatchPersists(next, tail, p);
  }

  lemma AppliedStep(ns: Namespace, items: seq<Item>)
    requires items != [] && AllShaped(items) && Disjoint(items) && Refines(ns) && Wellformed(ns)
    requires ApplyOp(ns, items[0].op, items[0].data).Applied?
    ensures var next := ApplyOp(ns, items[0].op, items[0].data).ns;
            && Disjoint(items[1..])
            && (!ForeignRename(items[0].op) ==> Refines(next) && Wellformed(next))
            && (ForeignRename(items[0].op) ==> !Refines(RunBatch(next, items[1..]).ns))
  {
    DisjointTail(items);
    ApplyKeepsRefinement(ns, items[0].op, items[0].data);
    if ForeignRename(items[0].op) {
      ForeignPersists(ns, ApplyOp(ns, items[0].op, items[0].data).ns, items);
    }
  }

  lemma AppliedForeignStep(items: seq<Item>, v: OpVerdict, rest: BatchResult)
    requires items != [] && |rest.verdicts| < |items|
    ensures AppliedForeign(items, After(v, rest))
            <==> (v.AppliedAt? && ForeignRename(items[0].op)) || AppliedForeign(items[1..], rest)
  {
    var all := After(v, rest).verdicts;
    assert all[0] == v && all[1..] == rest.verdicts;
    assert forall i | 1 <= i < |all| :: all[i] == rest.verdicts[i - 1] && items[i] == items[1..][i - 1];
    if AppliedForeign(items[1..], rest) {
      var i :| 0 <= i < |rest.verdicts| && rest.verdicts[i].AppliedAt? && ForeignRename(items[1..][i].op);
      assert all[i + 1].AppliedAt? && ForeignRename(items[i + 1].op);
    }
  }

  lemma ForeignMismatch(ns: Namespace, op: Op)
    requires Shaped(op, None) && Refines(ns) && Wellformed(ns) && ForeignRename(op)
    requires ApplyOp(ns, op, None).Applied?
    ensures Mismatch(ApplyOp(ns, op, None).ns, op.destination.value)
  {
    var ns' := ApplyOp(ns, op, None).ns;
    AppendRecord(ns.journal, ns'.journal[|ns.journal|]);
  }

  lemma {:induction false} BatchJournalGrows(ns: Namespace, items: seq<Item>)
    requires AllShaped(items)
    ensures ns.journal <= RunBatch(ns, items).ns.journal
    decreases |items|
  {
    if items != [] {
      var o := ApplyOp(ns, items[0].op, items[0].data);
      if o.Applied? {
        BatchJournalGrows(o.ns, items[1..]);
      } else if o.Skipped? {
        BatchJournalGrows(ns, items[1..]);
      }
    }
  }

  lemma {:induction false} BatchWellformed(ns: Namespace, items: seq<Item>)
    requires AllShaped(items) && Wellformed(ns)
    ensures Wellformed(RunBatch(ns, items).ns)
    decreases |items|
  {
    if items != [] {
      var op, data := items[0].op, items[0].data;
      var o := ApplyOp(ns, op, data);
      ApplyKeepsWellformed(ns, op, data);
      if o.Applied? {
        BatchWellformed(o.ns, items[1..]);
      } else if o.Skipped? {
        BatchWellformed(ns, items[1..]);
      }
    }
  }

  // ------------------------------------------------------- order independence

  /** What a passing operation leaves at a path of its footprint. */
  function Written(entries: map<Path, Entry>, item: Item, p: Path): Option<Content>
    requires Shaped(item.op, item.data)
  {
    if item.op.verb.Put? && p == item.op.path then Some(PutContent(item.op, item.data))
    else if item.op.verb.Rename? && item.op.destination == Some(p) && item.op.path in entries
    then Some(entries[item.op.path].content)
    else None
  }

  ghost predicate Agree(a: map<Path, Entry>, b: map<Path, Entry>, paths: set<Path>) {
    forall p | p in paths :: (p in a <==> p in b) && (p in a ==> a[p] == b[p])
  }

  /** Verdicts and writes look only at the footprint. */
  lemma JudgeIsLocal(a: map<Path, Entry>, b: map<Path, Entry>, item: Item)
    requires Shaped(item.op, item.data) && Agree(a, b, Footprint(item.op))
    ensures Judge(a, item.op) == Judge(b, item.op)
    ensures forall p :: Written(a, item, p) == Written(b, item, p)
  {
    assert item.op.path in Footprint(item.op);
  }

  lemma ApplyWrites(ns: Namespace, item: Item, p: Path)
    requires Shaped(item.op, item.data) && p in Footprint(item.op)
    requires ApplyOp(ns, item.op, item.data).Applied?
    ensures Present(ApplyOp(ns, item.op, item.data).ns, p) == Written(ns.entries, item, p)
  {
  }

  ghost predicate Passes(ns: Namespace, item: Item) {
    Judge(ns.entries, item.op).Pass?
  }

  /** The value a batch leaves at a path, told from the namespace before it. */
  ghost predicate Settled(ns: Namespace, items: seq<Item>, after: Namespace, p: Path)
    requires AllShaped(items)
  {
    && (forall i | 0 <= i < |items| && Passes(ns, items[i]) && p in Footprint(items[i].op) ::
          Present(after, p) == Written(ns.entries, items[i], p))
    && ((forall i | 0 <= i < |items| && Passes(ns, items[i]) :: p !in Footprint(items[i].op)) ==>
          Present(after, p) == Present(ns, p))
  }

  /** In a completed batch every verdict is the verdict against the namespace before
      the batch, and so is every value written. */
  lemma {:induction false} BatchIsSimultaneous(ns: Namespace, items: seq<Item>)
    requires AllShaped(items) && Disjoint(items) && RunBatch(ns, items).end.Completed?
    ensures var r := RunBatch(ns, items);
            && (forall i | 0 <= i < |items| ::
                  match r.verdicts[i]
                  case AppliedAt(_) => Judge(ns.entries, items[i].op).Pass?
                  case RejectedWith(observed) => Judge(ns.entries, items[i].op) == Diverged(observed))
            && (forall p :: Settled(ns, items, r.ns, p))
    decreases |items|
  {
    if items != [] {
      var o := ApplyOp(ns, items[0].op, items[0].data);
      var next := if o.Applied? then o.ns else ns;
      var r, rest := RunBatch(ns, items), RunBatch(next, items[1..]);
      assert r.ns == rest.ns && r.verdicts[1..] == rest.verdicts;
      assert forall i | 1 <= i < |items| :: items[i] == items[1..][i - 1] && r.verdicts[i] == rest.verdicts[i - 1];
      DisjointTail(items);
      BatchIsSimultaneous(next, items[1..]);
      forall i | 1 <= i < |items|
        ensures Judge(next.entries, items[i].op) == Judge(ns.entries, items[i].op)
        ensures forall p :: Written(next.entries, items[i], p) == Written(ns.entries, items[i], p)
      {
        UndisturbedByFirst(ns, next, items, i);
      }
      forall p
        ensures Settled(ns, items, r.ns, p)
      {
        SettledStep(ns, items, next, r.ns, p);
      }
    }
  }

  /** A later operation sees what it saw before the first one. */
  lemma UndisturbedByFirst(ns: Namespace, next: Namespace, items: seq<Item>, i: nat)
    requires AllShaped(items) && Disjoint(items) && 1 <= i < |items|
    requires var o := ApplyOp(ns, items[0].op, items[0].data); next == if o.Applied? then o.ns else ns
    ensures Judge(next.entries, items[i].op) == Judge(ns.entries, items[i].op)
    ensures forall p :: Written(next.entries, items[i], p) == Written(ns.entries, items[i], p)
  {
    forall p | p in Footprint(items[i].op)
      ensures p !in Footprint(items[0].op)
    {
    }
    StepAgrees(ns, items[0], Footprint(items[i].op));
    JudgeIsLocal(next.entries, ns.entries, items[i]);
  }

  lemma StepAgrees(ns: Namespace, item: Item, paths: set<Path>)
    requires Shaped(item.op, item.data) && paths !! Footprint(item.op)
    ensures var o := ApplyOp(ns, item.op, item.data);
            o.Applied? ==> Agree(o.ns.entries, ns.entries, paths)
  {
    forall p | p in paths && ApplyOp(ns, item.op, item.data).Applied?
      ensures Agree(ApplyOp(ns, item.op, item.data).ns.entries, ns.entries, {p})
    {
      OutsideFootprint(ns, item, p);
    }
  }

  lemma SettledStep(ns: Namespace, items: seq<Item>, next: Namespace, after: Namespace, p: Path)
    requires items != [] && AllShaped(items) && Disjoint(items)
    requires var o := ApplyOp(ns, items[0].op, items[0].data);
             (o.Applied? && next == o.ns) || (o.Skipped? && next == ns)
    requires forall i | 1 <= i < |items| ::
               && Judge(next.entries, items[i].op) == Judge(ns.entries, items[i].op)
               && Written(next.entries, items[i], p) == Written(ns.entries, items[i], p)
    requires Settled(next, items[1..], after, p)
    ensures Settled(ns, items, after, p)
  {
    assert forall i | 1 <= i < |items| :: items[i] == items[1..][i - 1];
    var o := ApplyOp(ns, items[0].op, items[0].data);
    if p in Footprint(items[0].op) {
      forall i | 1 <= i < |items|
        ensures p !in Footprint(items[i].op)
      {
        assert Footprint(items[0].op) !! Footprint(items[i].op);
      }
      if o.Applied? {
        ApplyWrites(ns, items[0], p);
      }
    } else {
      OutsideFootprint(ns, items[0], p);
    }
  }

  /** Any two orders of a batch that both complete give every operation the same
      verdict and leave the same namespace, up to sequence numbers. */
  lemma {:induction false} OrderDoesNotMatter(ns: Namespace, items: seq<Item>, items': seq<Item>)
    requires AllShaped(items) && Disjoint(items) && AllShaped(items') && Disjoint(items')
    requires multiset(items) == multiset(items')
    requires RunBatch(ns, items).end.Completed? && RunBatch(ns, items').end.Completed?
    ensures ContentsOf(RunBatch(ns, items).ns.entries) == ContentsOf(RunBatch(ns, items').ns.entries)
    ensures forall i, j | 0 <= i < |items| && 0 <= j < |items'| && items[i] == items'[j] ::
              var v, v' := RunBatch(ns, items).verdicts[i], RunBatch(ns, items').verdicts[j];
              (v.AppliedAt? <==> v'.AppliedAt?) && (v.RejectedWith? ==> v == v')
  {
    BatchIsSimultaneous(ns, items);
    BatchIsSimultaneous(ns, items');
    var a, b := RunBatch(ns, items).ns, RunBatch(ns, items').ns;
    assert forall x :: x in items <==> x in items' by {
      assert forall x :: x in items <==> x in multiset(items);
      assert forall x :: x in items' <==> x in multiset(items');
    }
    forall p
      ensures Present(a, p) == Present(b, p)
    {
      SameAtPath(ns, items, items', a, b, p);
    }
    SameContents(a, b);
  }

  lemma SameAtPath(ns: Namespace, items: seq<Item>, items': seq<Item>, a: Namespace, b: Namespace, p: Path)
    requires AllShaped(items) && AllShaped(items') && forall x :: x in items <==> x in items'
    requires Settled(ns, items, a, p) && Settled(ns, items', b, p)
    ensures Present(a, p) == Present(b, p)
  {
    if exists x :: x in items && Passes(ns, x) && p in Footprint(x.op) {
      var x :| x in items && Passes(ns, x) && p in Footprint(x.op);
      var i :| 0 <= i < |items| && items[i] == x;
      assert x in items';
      var j :| 0 <= j < |items'| && items'[j] == x;
      assert Present(a, p) == Written(ns.entries, items[i], p);
      assert Present(b, p) == Written(ns.entries, items'[j], p);
    } else {
      assert forall i | 0 <= i < |items| :: items[i] in items;
      assert forall j | 0 <= j < |items'| :: items'[j] in items';
    }
  }

  lemma SameContents(a: Namespace, b: Namespace)
    requires forall p :: Present(a, p) == Present(b, p)
    ensures ContentsOf(a.entries) == ContentsOf(b.entries)
  {
    var x, y := ContentsOf(a.entries), ContentsOf(b.entries);
    forall p
      ensures p in x <==> p in y
      ensures p in x ==> x[p] == y[p]
    {
      assert Present(a, p) == Present(b, p);
    }
  }

  // ----------------------------------------------------- two deletes, two orders

  /** Order can matter: deleting the last file of a directory and then
      the directory works, deleting the directory first refuses the batch. */
  lemma DirectoryFirstIsRefused(ns: Namespace, file: Item, directory: Item)
    requires AllShaped([file, directory]) && file.op.verb.Delete? && directory.op.verb.Delete?
    requires Passes(ns, file) && Passes(ns, directory)
    requires file.op.path in ns.entries && Below(file.op.path, directory.op.path)
    requires forall q | q in ns.entries && q != file.op.path :: !Below(q, directory.op.path)
    requires !HasDescendant(ns.entries, file.op.path)
    ensures AllShaped([directory, file])
    ensures RunBatch(ns, [file, directory]).end.Completed?
    ensures RunBatch(ns, [directory, file]).end.RefusedMidway?
  {
    assert Shaped([file, directory][0].op, [file, directory][0].data);
    assert Shaped([file, directory][1].op, [file, directory][1].data);
    assert [file, directory][1..] == [directory] && [directory][1..] == [];
    var next := DeleteEntry(ns, file.op);
    assert ApplyOp(ns, file.op, file.data) == Applied(next);
    assert !HasDescendant(next.entries, directory.op.path);
    assert Judge(next.entries, directory.op).Pass?;
    assert ApplyOp(next, directory.op, directory.data).Applied?;
    assert RunBatch(next, [directory]).end.Completed?;
    assert HasDescendant(ns.entries, directory.op.path);
    assert ApplyOp(ns, directory.op, directory.data).RefusedDelete?;
  }
}
