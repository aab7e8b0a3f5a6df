/** How a batch ends, told from the namespace before it: whether it completes, where it
    stops, what it has done by then, and whether it would complete in every order. */
module V2Outcome {
  import opened Prelude
  import opened Layouts
  import opened V2Namespace
  import opened V2Batch

  // ------------------------------------------------------------ where it stops

  /** The passing operations among the first i leave something at a path. */
  ghost predicate Occupied(ns: Namespace, items: seq<Item>, i: nat, q: Path)
    requires AllShaped(items) && i <= |items|
  {
    || (exists j :: 0 <= j < i && Passes(ns, items[j]) && Written(ns.entries, items[j], q).Some?)
    || (q in ns.entries && forall j | 0 <= j < i && Passes(ns, items[j]) :: q !in Footprint(items[j].op))
  }

  /** A passing delete with something below its path by its turn. */
  ghost predicate Obstructed(ns: Namespace, items: seq<Item>, i: nat)
    requires AllShaped(items) && i < |items|
  {
    && Passes(ns, items[i]) && items[i].op.verb.Delete?
    && exists q :: Below(q, items[i].op.path) && Occupied(ns, items, i, q)
  }

  predicate HasBytes(ns: Namespace, p: Path) {
    p in ns.files && p in ns.layouts
  }

  /** A passing rename of a file without bytes in the legacy tables. */
  ghost predicate Baseless(ns: Namespace, item: Item) {
    Passes(ns, item) && item.op.verb.Rename? && !HasBytes(ns, item.op.path)
  }

  ghost predicate Stops(ns: Namespace, items: seq<Item>, i: nat)
    requires AllShaped(items) && i < |items|
  {
    Obstructed(ns, items, i) || Baseless(ns, items[i])
  }

  lemma WrittenIsInFootprint(entries: map<Path, Entry>, item: Item, q: Path)
    requires Shaped(item.op, item.data) && Written(entries, item, q).Some?
    ensures q in Footprint(item.op)
  {
  }

  /** How the first operation ends. */
  lemma FirstOutcome(ns: Namespace, items: seq<Item>)
    requires AllShaped(items) && items != []
    ensures var o := ApplyOp(ns, items[0].op, items[0].data);
            && (o.Skipped? <==> !Passes(ns, items[0]))
            && (o.RefusedDelete? <==> Obstructed(ns, items, 0))
            && (o.Crashed? <==> Baseless(ns, items[0]))
  {
    var p := items[0].op.path;
    assert forall q :: Occupied(ns, items, 0, q) <==> q in ns.entries;
    if HasDescendant(ns.entries, p) {
      var q :| q in ns.entries && Below(q, p);
      assert Occupied(ns, items, 0, q);
    }
  }

  /** The namespace after the first operation, if it does not stop the batch. */
  ghost predicate Moves(ns: Namespace, next: Namespace, items: seq<Item>)
    requires AllShaped(items) && items != []
  {
    var o := ApplyOp(ns, items[0].op, items[0].data);
    (o.Applied? && next == o.ns) || (o.Skipped? && next == ns)
  }

  lemma LaterIsUndisturbed(ns: Namespace, next: Namespace, items: seq<Item>, j: nat)
    requires AllShaped(items) && Disjoint(items) && 1 <= j < |items| && Moves(ns, next, items)
    ensures Passes(next, items[j]) <==> Passes(ns, items[j])
    ensures forall q :: Written(next.entries, items[j], q) == Written(ns.entries, items[j], q)
    ensures HasBytes(next, items[j].op.path) <==> HasBytes(ns, items[j].op.path)
  {
    UndisturbedByFirst(ns, next, items, j);
    assert Footprint(items[0].op) !! Footprint(items[j].op);
    assert items[j].op.path in Footprint(items[j].op);
    OutsideFootprint(ns, items[0], items[j].op.path);
  }

  /** What the operations after the first see occupied does not depend on whether the
      first is done already. */
  lemma OccupiedStep(ns: Namespace, next: Namespace, items: seq<Item>, i: nat, q: Path)
    requires AllShaped(items) && Disjoint(items) && 1 <= i <= |items| && Moves(ns, next, items)
    ensures AllShaped(items[1..]) && (Occupied(next, items[1..], i - 1, q) <==> Occupied(ns, items, i, q))
  {
    var tail := items[1..];
    assert forall j | 0 <= j < |tail| :: tail[j] == items[j + 1];
    assert forall j | 1 <= j < |items| :: items[j] == tail[j - 1];
    forall j | 1 <= j < |items|
      ensures Passes(next, items[j]) <==> Passes(ns, items[j])
      ensures Written(next.entries, items[j], q) == Written(ns.entries, items[j], q)
      ensures q in Footprint(items[0].op) ==> q !in Footprint(items[j].op) && Written(ns.entries, items[j], q).None?
    {
      LaterIsUndisturbed(ns, next, items, j);
      assert Footprint(items[0].op) !! Footprint(items[j].op);
      if Written(ns.entries, items[j], q).Some? {
        WrittenIsInFootprint(ns.entries, items[j], q);
      }
    }
    FirstOutcome(ns, items);
    FirstAtPath(ns, next, items, q);
  }

  /** The first operation at one path. */
  lemma FirstAtPath(ns: Namespace, next: Namespace, items: seq<Item>, q: Path)
    requires AllShaped(items) && items != [] && Moves(ns, next, items)
    ensures if Passes(ns, items[0]) && q in Footprint(items[0].op)
            then q in next.entries <==> Written(ns.entries, items[0], q).Some?
            else (q in next.entries <==> q in ns.entries)
                 && (Passes(ns, items[0]) ==> Written(ns.entries, items[0], q).None?)
  {
    FirstOutcome(ns, items);
    if Passes(ns, items[0]) {
      if q in Footprint(items[0].op) {
        ApplyWrites(ns, items[0], q);
      } else {
        OutsideFootprint(ns, items[0], q);
        if Written(ns.entries, items[0], q).Some? {
          WrittenIsInFootprint(ns.entries, items[0], q);
        }
      }
    }
  }

  lemma StopsStep(ns: Namespace, next: Namespace, items: seq<Item>, i: nat)
    requires AllShaped(items) && Disjoint(items) && 1 <= i < |items| && Moves(ns, next, items)
    ensures AllShaped(items[1..]) && items[1..][i - 1] == items[i]
    ensures Passes(next, items[i]) <==> Passes(ns, items[i])
    ensures Obstructed(next, items[1..], i - 1) <==> Obstructed(ns, items, i)
    ensures Baseless(next, items[i]) <==> Baseless(ns, items[i])
  {
    assert forall j | 1 <= j < |items| :: items[j] == items[1..][j - 1];
    LaterIsUndisturbed(ns, next, items, i);
    forall q
      ensures Occupied(next, items[1..], i - 1, q) <==> Occupied(ns, items, i, q)
    {
      OccupiedStep(ns, next, items, i, q);
    }
  }

  /** An operation that the batch got past, with its verdict. */
  ghost predicate Passed(ns: Namespace, items: seq<Item>, i: nat, v: OpVerdict)
    requires AllShaped(items) && i < |items|
  {
    !Stops(ns, items, i) && (v.AppliedAt? <==> Passes(ns, items[i]))
  }

  /** How a batch that did not get past operation k ended. */
  ghost predicate Stopped(ns: Namespace, items: seq<Item>, k: nat, end: End)
    requires AllShaped(items) && k < |items|
  {
    && !end.Completed?
    && (end.RefusedMidway? <==> Obstructed(ns, items, k))
    && (end.CrashedMidway? <==> Baseless(ns, items[k]))
  }

  /** What a batch's end and verdicts say of the namespace before it. */
  ghost predicate Foreseen(ns: Namespace, items: seq<Item>, r: BatchResult)
    requires AllShaped(items)
  {
    var k := |r.verdicts|;
    && k <= |items|
    && (forall i | 0 <= i < k :: Passed(ns, items, i, r.verdicts[i]))
    && if k < |items| then Stopped(ns, items, k, r.end) else r.end.Completed?
  }

  /** A batch runs up to the first operation that stops it, told from the namespace
      before the batch, and applies what passes there. */
  lemma {:induction false} BatchIsForeseen(ns: Namespace, items: seq<Item>)
    requires AllShaped(items) && Disjoint(items)
    ensures Foreseen(ns, items, RunBatch(ns, items))
    decreases |items|
  {
    if items != [] {
      FirstOutcome(ns, items);
      var o := ApplyOp(ns, items[0].op, items[0].data);
      if o.Applied? || o.Skipped? {
        var next := if o.Applied? then o.ns else ns;
        DisjointTail(items);
        BatchIsForeseen(next, items[1..]);
        ForeseenStep(ns, next, items);
      }
    }
  }

  lemma ForeseenStep(ns: Namespace, next: Namespace, items: seq<Item>)
    requires AllShaped(items) && Disjoint(items) && items != [] && Moves(ns, next, items)
    requires Foreseen(next, items[1..], RunBatch(next, items[1..]))
    ensures Foreseen(ns, items, RunBatch(ns, items))
  {
    var r, rest := RunBatch(ns, items), RunBatch(next, items[1..]);
    assert r.verdicts[1..] == rest.verdicts && r.end == rest.end;
    FirstPassed(ns, items);
    forall i | 1 <= i < |r.verdicts|
      ensures Passed(ns, items, i, r.verdicts[i])
    {
      assert r.verdicts[i] == rest.verdicts[i - 1] && Passed(next, items[1..], i - 1, rest.verdicts[i - 1]);
      StopsStep(ns, next, items, i);
    }
    if |r.verdicts| < |items| {
      StopsStep(ns, next, items, |r.verdicts|);
    }
  }

  lemma FirstPassed(ns: Namespace, items: seq<Item>)
    requires AllShaped(items) && items != []
    requires var o := ApplyOp(ns, items[0].op, items[0].data); o.Applied? || o.Skipped?
    ensures RunBatch(ns, items).verdicts != [] && Passed(ns, items, 0, RunBatch(ns, items).verdicts[0])
  {
    FirstOutcome(ns, items);
  }

  /** The same, one operation at a time. */
  lemma PassedOne(ns: Namespace, items: seq<Item>, i: nat)
    requires AllShaped(items) && Disjoint(items) && i < |RunBatch(ns, items).verdicts|
    ensures !Stops(ns, items, i) && (RunBatch(ns, items).verdicts[i].AppliedAt? <==> Passes(ns, items[i]))
  {
    BatchIsForeseen(ns, items);
    assert Passed(ns, items, i, RunBatch(ns, items).verdicts[i]);
  }

  // --------------------------------------------------------------- refinement

  /** Up to the first obstructed delete, every passing rename names no other kind and
      moves a file with bytes. */
  ghost predicate Harmless(ns: Namespace, items: seq<Item>)
    requires AllShaped(items)
  {
    forall i | 0 <= i < |items| && Passes(ns, items[i]) && items[i].op.verb.Rename? && Unobstructed(ns, items, i) ::
      !ForeignRename(items[i].op) && HasBytes(ns, items[i].op.path)
  }

  ghost predicate Unobstructed(ns: Namespace, items: seq<Item>, i: nat)
    requires AllShaped(items) && i < |items|
  {
    forall k | 0 <= k <= i :: !Obstructed(ns, items, k)
  }

  /** What the batch got past was not obstructed. */
  lemma PassedIsUnobstructed(ns: Namespace, items: seq<Item>, i: nat)
    requires AllShaped(items) && Disjoint(items) && i < |items|
    requires i < |RunBatch(ns, items).verdicts|
             || (i == |RunBatch(ns, items).verdicts| && RunBatch(ns, items).end.CrashedMidway?)
    ensures Unobstructed(ns, items, i)
  {
    BatchIsForeseen(ns, items);
    forall k | 0 <= k <= i
      ensures !Obstructed(ns, items, k)
    {
      if k < |RunBatch(ns, items).verdicts| {
        PassedOne(ns, items, k);
      }
    }
  }

  lemma HarmlessEndsWell(ns: Namespace, items: seq<Item>)
    requires AllShaped(items) && Disjoint(items) && Harmless(ns, items)
    ensures !RunBatch(ns, items).end.CrashedMidway? && !AppliedForeign(items, RunBatch(ns, items))
  {
    BatchIsForeseen(ns, items);
    var r := RunBatch(ns, items);
    if r.end.CrashedMidway? {
      PassedIsUnobstructed(ns, items, |r.verdicts|);
    } else if AppliedForeign(items, r) {
      var i :| 0 <= i < |r.verdicts| && r.verdicts[i].AppliedAt? && ForeignRename(items[i].op);
      PassedOne(ns, items, i);
      PassedIsUnobstructed(ns, items, i);
    }
  }

  lemma HarmfulEndsBadly(ns: Namespace, items: seq<Item>, i: nat)
    requires AllShaped(items) && Disjoint(items) && i < |items|
    requires Passes(ns, items[i]) && items[i].op.verb.Rename? && Unobstructed(ns, items, i)
    requires ForeignRename(items[i].op) || !HasBytes(ns, items[i].op.path)
    ensures RunBatch(ns, items).end.CrashedMidway? || AppliedForeign(items, RunBatch(ns, items))
  {
    BatchIsForeseen(ns, items);
    var r := RunBatch(ns, items);
    if i < |r.verdicts| {
      PassedOne(ns, items, i);
    } else {
      assert !Obstructed(ns, items, |r.verdicts|);
    }
  }

  /** Harmless batches are those that neither die nor apply a foreign rename. */
  lemma HarmlessByVerdicts(ns: Namespace, items: seq<Item>)
    requires AllShaped(items) && Disjoint(items)
    ensures var r := RunBatch(ns, items);
            Harmless(ns, items) <==> !r.end.CrashedMidway? && !AppliedForeign(items, r)
  {
    if Harmless(ns, items) {
      HarmlessEndsWell(ns, items);
    } else {
      var i :| 0 <= i < |items| && Passes(ns, items[i]) && items[i].op.verb.Rename? && Unobstructed(ns, items, i)
               && !(!ForeignRename(items[i].op) && HasBytes(ns, items[i].op.path));
      HarmfulEndsBadly(ns, items, i);
    }
  }

  /** A batch, refused half-way or not, leaves the journal refining the namespace
      exactly when it was harmless against the namespace before it. */
  lemma BatchRefinement(ns: Namespace, items: seq<Item>)
    requires AllShaped(items) && Disjoint(items) && Refines(ns) && Wellformed(ns)
    ensures Refines(RunBatch(ns, items).ns) <==> Harmless(ns, items)
  {
    RefinementByVerdicts(ns, items);
    HarmlessByVerdicts(ns, items);
  }

  // ---------------------------------------------------------------- atomicity

  lemma {:induction false} UnchangedByVerdicts(ns: Namespace, items: seq<Item>)
    requires AllShaped(items) && !RunBatch(ns, items).end.CrashedMidway?
    ensures var r := RunBatch(ns, items);
            r.ns == ns <==> forall i | 0 <= i < |r.verdicts| :: r.verdicts[i].RejectedWith?
    decreases |items|
  {
    if items != [] {
      var o := ApplyOp(ns, items[0].op, items[0].data);
      var r := RunBatch(ns, items);
      if o.Applied? {
        BatchJournalGrows(o.ns, items[1..]);
        JournalLengthens(ns, items[0]);
        assert r.verdicts[0].AppliedAt?;
      } else if o.Skipped? {
        var rest := RunBatch(ns, items[1..]);
        UnchangedByVerdicts(ns, items[1..]);
        assert r.verdicts[0].RejectedWith? && r.verdicts[1..] == rest.verdicts;
        assert forall i | 1 <= i < |r.verdicts| :: r.verdicts[i] == rest.verdicts[i - 1];
        assert forall i | 0 <= i < |rest.verdicts| :: rest.verdicts[i] == r.verdicts[i + 1];
      }
    }
  }

  lemma JournalLengthens(ns: Namespace, item: Item)
    requires Shaped(item.op, item.data) && ApplyOp(ns, item.op, item.data).Applied?
    ensures |ApplyOp(ns, item.op, item.data).ns.journal| == |ns.journal| + 1
  {
  }

  /** The operation that stops a batch. */
  ghost predicate StopsFirst(ns: Namespace, items: seq<Item>, k: nat)
    requires AllShaped(items) && k < |items|
  {
    Stops(ns, items, k) && forall i | 0 <= i < k :: !Stops(ns, items, i)
  }

  /** Where a batch stops, it has that many verdicts. */
  lemma StopsThere(ns: Namespace, items: seq<Item>, k: nat)
    requires AllShaped(items) && Disjoint(items) && k < |items| && StopsFirst(ns, items, k)
    ensures |RunBatch(ns, items).verdicts| == k
    ensures RunBatch(ns, items).end == if Obstructed(ns, items, k) then RefusedMidway else CrashedMidway
  {
    BatchIsForeseen(ns, items);
    var r := RunBatch(ns, items);
    assert k < |r.verdicts| ==> Passed(ns, items, k, r.verdicts[k]);
    assert |r.verdicts| < |items| ==> Stops(ns, items, |r.verdicts|);
  }

  /** A batch that a delete stops leaves the namespace as it was exactly when nothing
      before that delete passes. */
  lemma RefusedBatchIsAtomic(ns: Namespace, items: seq<Item>, k: nat)
    requires AllShaped(items) && Disjoint(items) && k < |items|
    requires StopsFirst(ns, items, k) && Obstructed(ns, items, k)
    ensures RunBatch(ns, items).end.RefusedMidway?
    ensures RunBatch(ns, items).ns == ns <==> forall i | 0 <= i < k :: !Passes(ns, items[i])
  {
    StopsThere(ns, items, k);
    BatchIsForeseen(ns, items);
    UnchangedByVerdicts(ns, items);
    var r := RunBatch(ns, items);
    assert forall i | 0 <= i < k :: r.verdicts[i].RejectedWith? <==> !Passes(ns, items[i]);
  }

  // -------------------------------------------------------------- every order

  ghost predicate Reorders(order: seq<Item>, items: seq<Item>) {
    multiset(order) == multiset(items)
  }

  ghost predicate CompletesInEveryOrder(ns: Namespace, items: seq<Item>) {
    forall order: seq<Item> | Reorders(order, items) :: AllShaped(order) && RunBatch(ns, order).end.Completed?
  }

  /** No passing operation writes below a path. */
  ghost predicate NothingArrivesBelow(ns: Namespace, items: seq<Item>, p: Path)
    requires AllShaped(items)
  {
    forall j, q | 0 <= j < |items| && Passes(ns, items[j]) && Written(ns.entries, items[j], q).Some? :: !Below(q, p)
  }

  /** Every passing rename has its legacy bytes, and below every passing delete nothing
      stands and nothing arrives. */
  ghost predicate Clear(ns: Namespace, items: seq<Item>)
    requires AllShaped(items)
  {
    forall i | 0 <= i < |items| && Passes(ns, items[i]) ::
      && (items[i].op.verb.Rename? ==> HasBytes(ns, items[i].op.path))
      && (items[i].op.verb.Delete? ==>
            !HasDescendant(ns.entries, items[i].op.path) && NothingArrivesBelow(ns, items, items[i].op.path))
  }

  lemma SameMembers(order: seq<Item>, items: seq<Item>)
    requires Reorders(order, items)
    ensures |order| == |items|
    ensures forall i | 0 <= i < |order| :: order[i] in items
    ensures forall i | 0 <= i < |items| :: items[i] in order
    ensures AllShaped(items) ==> AllShaped(order)
  {
    assert |multiset(order)| == |order| && |multiset(items)| == |items|;
    forall i | 0 <= i < |order|
      ensures order[i] in items
    {
      assert order[i] in multiset(items);
    }
    forall i | 0 <= i < |items|
      ensures items[i] in order
    {
      assert items[i] in multiset(order);
    }
  }

  lemma {:induction false} TwoPlaces<T>(s: seq<T>, i: nat, j: nat)
    requires i < j < |s| && s[i] == s[j]
    ensures multiset(s)[s[i]] >= 2
    decreases |s|
  {
    var n := |s| - 1;
    assert s == s[..n] + [s[n]];
    if j == n {
      assert s[i] in s[..n];
      assert multiset(s[..n])[s[i]] >= 1;
    } else {
      TwoPlaces(s[..n], i, j);
    }
  }

  lemma {:induction false} OnePlace<T>(s: seq<T>, x: T)
    requires forall i, j | 0 <= i < j < |s| :: s[i] != s[j]
    ensures multiset(s)[x] <= 1
    decreases |s|
  {
    if s != [] {
      var n := |s| - 1;
      assert s == s[..n] + [s[n]];
      OnePlace(s[..n], x);
      if x == s[n] {
        assert x !in s[..n];
      }
    }
  }

  /** Disjointness does not depend on the order. */
  lemma ReorderedIsDisjoint(order: seq<Item>, items: seq<Item>)
    requires Reorders(order, items) && Disjoint(items)
    ensures Disjoint(order)
  {
    SameMembers(order, items);
    forall i, j | 0 <= i < j < |items|
      ensures items[i] != items[j]
    {
      assert items[i].op.path in Footprint(items[i].op) && Footprint(items[i].op) !! Footprint(items[j].op);
    }
    forall i, j | 0 <= i < j < |order|
      ensures Footprint(order[i].op) !! Footprint(order[j].op)
    {
      if order[i] == order[j] {
        TwoPlaces(order, i, j);
        OnePlace(items, order[i]);
      }
      var a :| 0 <= a < |items| && items[a] == order[i];
      var b :| 0 <= b < |items| && items[b] == order[j];
      assert a < b || b < a;
    }
  }

  lemma ClearHasNoStop(ns: Namespace, items: seq<Item>, k: nat)
    requires AllShaped(items) && k < |items| && Clear(ns, items)
    ensures !Stops(ns, items, k)
  {
  }

  lemma ClearNeverStops(ns: Namespace, items: seq<Item>)
    requires AllShaped(items) && Disjoint(items) && Clear(ns, items)
    ensures RunBatch(ns, items).end.Completed?
  {
    BatchIsForeseen(ns, items);
    forall k | 0 <= k < |items|
      ensures !Stops(ns, items, k)
    {
      ClearHasNoStop(ns, items, k);
    }
  }

  lemma ReorderedIsClear(ns: Namespace, order: seq<Item>, items: seq<Item>)
    requires AllShaped(items) && AllShaped(order) && Reorders(order, items) && Clear(ns, items)
    ensures Clear(ns, order)
  {
    SameMembers(order, items);
    forall i | 0 <= i < |order| && Passes(ns, order[i]) && order[i].op.verb.Delete?
      ensures !HasDescendant(ns.entries, order[i].op.path) && NothingArrivesBelow(ns, order, order[i].op.path)
    {
      var a :| 0 <= a < |items| && items[a] == order[i];
      assert NothingArrivesBelow(ns, items, items[a].op.path);
      forall j, q | 0 <= j < |order| && Passes(ns, order[j]) && Written(ns.entries, order[j], q).Some?
        ensures !Below(q, order[i].op.path)
      {
        var b :| 0 <= b < |items| && items[b] == order[j];
      }
    }
  }

  /** The batch with one operation brought to the front. */
  function Bring(items: seq<Item>, i: nat): (order: seq<Item>)
    requires i < |items|
    ensures |order| == |items| && order[0] == items[i]
    ensures forall j | 0 <= j < |items| && j != i :: order[if j < i then j + 1 else j] == items[j]
  {
    [items[i]] + (items[..i] + items[i + 1..])
  }

  lemma BringReorders(items: seq<Item>, i: nat)
    requires i < |items|
    ensures Reorders(Bring(items, i), items)
  {
    assert items == items[..i] + ([items[i]] + items[i + 1..]);
  }

  /** An operation that is bound to stop a batch early. */
  lemma StopsEarly(ns: Namespace, order: seq<Item>, i: nat)
    requires AllShaped(order) && Disjoint(order) && i < |order| && Stops(ns, order, i)
    ensures !RunBatch(ns, order).end.Completed?
  {
    BatchIsForeseen(ns, order);
    if i < |RunBatch(ns, order).verdicts| {
      PassedOne(ns, order, i);
    }
  }

  /** If one operation stands in the way, bringing it to the front stops the batch. */
  lemma FrontStops(ns: Namespace, items: seq<Item>, i: nat)
    requires AllShaped(items) && Disjoint(items) && i < |items| && Passes(ns, items[i])
    requires || Baseless(ns, items[i])
             || (items[i].op.verb.Delete? && HasDescendant(ns.entries, items[i].op.path))
    ensures !CompletesInEveryOrder(ns, items)
  {
    var order := Bring(items, i);
    BringReorders(items, i);
    SameMembers(order, items);
    ReorderedIsDisjoint(order, items);
    FirstOutcome(ns, order);
    if !Baseless(ns, items[i]) {
      var q :| q in ns.entries && Below(q, items[i].op.path);
      assert Occupied(ns, order, 0, q);
    }
    StopsEarly(ns, order, 0);
  }

  /** If one operation writes below a path that another deletes, that order stops. */
  lemma PairStops(ns: Namespace, items: seq<Item>, i: nat, j: nat, q: Path)
    requires AllShaped(items) && Disjoint(items) && i < |items| && j < |items|
    requires Passes(ns, items[i]) && items[i].op.verb.Delete? && Below(q, items[i].op.path)
    requires Passes(ns, items[j]) && Written(ns.entries, items[j], q).Some?
    ensures !CompletesInEveryOrder(ns, items)
  {
    var first := Bring(items, i);
    var k := if j < i then j + 1 else j;
    var order := Bring(first, k);
    BringReorders(items, i);
    BringReorders(first, k);
    assert Reorders(order, items);
    SameMembers(order, items);
    ReorderedIsDisjoint(order, items);
    assert order[0] == items[j] && order[1] == items[i];
    assert Occupied(ns, order, 1, q);
    StopsEarly(ns, order, 1);
  }

  /** A batch completes in every order exactly when it is clear. */
  lemma CompletesInEveryOrderExactly(ns: Namespace, items: seq<Item>)
    requires AllShaped(items) && Disjoint(items)
    ensures CompletesInEveryOrder(ns, items) <==> Clear(ns, items)
  {
    if Clear(ns, items) {
      forall order: seq<Item> | Reorders(order, items)
        ensures AllShaped(order) && RunBatch(ns, order).end.Completed?
      {
        SameMembers(order, items);
        ReorderedIsDisjoint(order, items);
        ReorderedIsClear(ns, order, items);
        ClearNeverStops(ns, order);
      }
    } else {
      var i :| 0 <= i < |items| && Passes(ns, items[i])
               && !(&& (items[i].op.verb.Rename? ==> HasBytes(ns, items[i].op.path))
                    && (items[i].op.verb.Delete? ==>
                          && !HasDescendant(ns.entries, items[i].op.path)
                          && NothingArrivesBelow(ns, items, items[i].op.path)));
      if items[i].op.verb.Rename? || HasDescendant(ns.entries, items[i].op.path) {
        FrontStops(ns, items, i);
      } else {
        var j, q :| 0 <= j < |items| && Passes(ns, items[j]) && Written(ns.entries, items[j], q).Some?
                    && Below(q, items[i].op.path);
        PairStops(ns, items, i, j, q);
      }
    }
  }
}
