/** The other steps of the Fabric v2 service: immutable file holds, block tickets,
    node verification, object uploads and seeded files. */
module V2Steps {
  import opened Prelude
  import opened TreeCodec
  import opened TreeStore
  import opened Admission
  import opened Layouts
  import opened V2Namespace
  import opened V2Batch
  import opened V2State

  // -------------------------------------------------------------------- holds

  datatype HoldAction = Acquire | Renew | Release | Status

  /** A hold request; the last four fields matter to an acquire only. */
  datatype HoldRequest = HoldRequest(
    action: HoldAction, hold: Id, ttl: int,
    path: Path, digest: Digest, size: nat, write: bool)

  datatype HoldReply = Released | Live(hold: Hold)

  const MIN_HOLD_TTL := 30
  const MAX_HOLD_TTL := 900
  const MAX_HOLDS := 128

  predicate ExpiredAt(h: Hold, now: real) {
    h.deadline.Some? && h.deadline.value <= now
  }

  /** The descriptor a content's bytes are assembled from. */
  function ContentDescriptor(c: Content): PutDescriptor {
    PutDescriptor(Some(c.size), c.digest, c.layout)
  }

  function Later(a: real, b: real): real {
    if a < b then b else a
  }

  /** A read hold's deadline after an acquire or a renewal. */
  function Prolong(h: Hold, q: HoldRequest, now: real): Hold {
    if (q.action.Acquire? || q.action.Renew?) && h.deadline.Some?
    then h.(deadline := Some(Later(h.deadline.value, now + q.ttl as real)))
    else h
  }

  /** Why a new hold is refused. */
  function RefuseAcquire(s: State, c: Caller, q: HoldRequest): Option<Fault> {
    if q.size > MAX_TREE_SOURCE then Some(HoldInvalid)
    else if q.write && !c.readWrite then Some(WriteForbidden)
    else if !IsFile(s.ns.entries, q.path) then Some(HoldVersionStale)
    else
      var content := s.ns.entries[q.path].content;
      if content.digest != Some(q.digest) || content.size != q.size then Some(HoldVersionStale)
      else
        var fault := Validates(s.store, ContentDescriptor(content));
        if fault.Some? then fault
        else if |s.holds| >= MAX_HOLDS then Some(HoldLimit) else None
  }

  /** What a request does to the hold it names. */
  datatype HoldChange =
    | Refuse(fault: Fault)
    | AlreadyReleased
    | MarkReleased
    | Rewrite(hold: Hold)
    | Create(hold: Hold)

  function DecideHold(s: State, c: Caller, now: real, q: HoldRequest): HoldChange {
    var key := HoldKey(c.session, c.host, q.hold);
    if !(MIN_HOLD_TTL <= q.ttl <= MAX_HOLD_TTL) then Refuse(HoldInvalid)
    else if key in s.holds
            && (s.holds[key].attachment != c.attachment || s.holds[key].generation != c.generation)
    then Refuse(HoldBindingStale)
    else if q.action.Release? then
      if key in s.holds && !s.holds[key].released then MarkReleased else AlreadyReleased
    else if key in s.holds then
      var held := s.holds[key];
      if q.action.Acquire?
         && (q.path != held.path || Some(q.digest) != held.content.digest
             || q.size != held.content.size || q.write != held.write)
      then Refuse(HoldIdentityConflict)
      else if held.released || ExpiredAt(held, now) then Refuse(HoldExpired)
      else Rewrite(Prolong(held, q, now))
    else if !q.action.Acquire? then Refuse(HoldExpired)
    else
      var fault := RefuseAcquire(s, c, q);
      if fault.Some? then Refuse(fault.value)
      else
        var held := Hold(q.path, s.ns.entries[q.path].content, q.write, false, c.attachment, c.generation,
                         if q.write then None else Some(now + q.ttl as real));
        Create(Prolong(held, q, now))
  }

  function ApplyChange(s: State, key: HoldKey, change: HoldChange): State {
    match change
    case Refuse(_) => s
    case AlreadyReleased => s
    case MarkReleased => s.(holds := MarkAt(s.holds, key), released := s.released + 1)
    case Rewrite(h) => s.(holds := s.holds[key := h])
    case Create(h) => s.(holds := s.holds[key := h], acquired := s.acquired + 1)
  }

  function HoldAnswer(change: HoldChange): Result<HoldReply> {
    match change
    case Refuse(fault) => Rejected(fault)
    case AlreadyReleased => Ok(Released)
    case MarkReleased => Ok(Released)
    case Rewrite(h) => Ok(Live(h))
    case Create(h) => Ok(Live(h))
  }

  function FileHold(s: State, c: Caller, now: real, q: HoldRequest): (State, Result<HoldReply>) {
    var change := DecideHold(s, c, now, q);
    (ApplyChange(s, HoldKey(c.session, c.host, q.hold), change), HoldAnswer(change))
  }

  function MarkAt(holds: map<HoldKey, Hold>, key: HoldKey): map<HoldKey, Hold> {
    if key in holds then holds[key := holds[key].(released := true)] else holds
  }

  /** One hold may become another: same file, mode and binding, a release is final, and
      a deadline never moves back. */
  ghost predicate Evolves(h: Hold, h': Hold) {
    && h' == h.(released := h'.released, deadline := h'.deadline)
    && (h.released ==> h'.released && h'.deadline == h.deadline)
    && (h.deadline.None? <==> h'.deadline.None?)
    && (h.deadline.Some? ==> h.deadline.value <= h'.deadline.value)
  }

  ghost predicate HoldsEvolve(a: map<HoldKey, Hold>, b: map<HoldKey, Hold>) {
    forall k | k in a :: k in b && Evolves(a[k], b[k])
  }

  /** What has expired keeps its deadline. */
  ghost predicate ExpiredStay(a: map<HoldKey, Hold>, b: map<HoldKey, Hold>, now: real) {
    forall k | k in a && ExpiredAt(a[k], now) :: k in b && b[k].deadline == a[k].deadline
  }

  function ReleasedKeys(holds: map<HoldKey, Hold>): set<HoldKey> {
    set k | k in holds && holds[k].released
  }

  /** The two counters count the hold table. */
  ghost predicate Counted(s: State) {
    s.acquired == |s.holds| <= MAX_HOLDS && s.released == |ReleasedKeys(s.holds)|
  }

  /** A hold of a file that validates; only a read hold has a deadline. */
  ghost predicate Held(store: Store, h: Hold) {
    && h.content.kind == File
    && (h.write <==> h.deadline.None?)
    && Validates(store, ContentDescriptor(h.content)).None?
  }

  ghost predicate AllHeld(store: Store, holds: map<HoldKey, Hold>) {
    forall k | k in holds :: Held(store, holds[k])
  }

  ghost predicate HoldsSound(s: State) {
    Counted(s) && AllHeld(s.store, s.holds)
  }

  /** The changes that let the holds there are only evolve. */
  ghost predicate Onward(s: State, key: HoldKey, change: HoldChange, now: real) {
    match change
    case Refuse(_) => true
    case AlreadyReleased => true
    case MarkReleased => key in s.holds && !s.holds[key].released
    case Rewrite(h) =>
      && key in s.holds && !ExpiredAt(s.holds[key], now)
      && !s.holds[key].released && !h.released && Evolves(s.holds[key], h)
    case Create(h) => key !in s.holds && |s.holds| < MAX_HOLDS && !h.released
  }

  lemma ProlongEvolves(h: Hold, q: HoldRequest, now: real)
    ensures var h' := Prolong(h, q, now);
            Evolves(h.(released := false), h'.(released := false)) && h' == h.(deadline := h'.deadline)
  {
  }

  lemma DecisionIsOnward(s: State, c: Caller, now: real, q: HoldRequest)
    ensures Onward(s, HoldKey(c.session, c.host, q.hold), DecideHold(s, c, now, q), now)
  {
    var key := HoldKey(c.session, c.host, q.hold);
    match DecideHold(s, c, now, q)
    case Rewrite(_) => ProlongEvolves(s.holds[key], q, now);
    case Create(_) =>
      var h := Hold(q.path, s.ns.entries[q.path].content, q.write, false, c.attachment, c.generation,
                    if q.write then None else Some(now + q.ttl as real));
      ProlongEvolves(h, q, now);
    case _ =>
  }

  lemma ChangeEvolves(s: State, key: HoldKey, change: HoldChange, now: real)
    requires Onward(s, key, change, now)
    ensures var s' := ApplyChange(s, key, change);
            HoldsEvolve(s.holds, s'.holds) && ExpiredStay(s.holds, s'.holds, now)
  {
  }

  /** An acquired hold is of a file that validates. */
  lemma AcquireHolds(s: State, c: Caller, now: real, q: HoldRequest)
    requires RefuseAcquire(s, c, q).None?
    ensures IsFile(s.ns.entries, q.path) && |s.holds| < MAX_HOLDS
    ensures var h := Hold(q.path, s.ns.entries[q.path].content, q.write, false, c.attachment, c.generation,
                          if q.write then None else Some(now + q.ttl as real));
            Held(s.store, h)
  {
  }

  lemma ProlongedIsHeld(store: Store, h: Hold, q: HoldRequest, now: real)
    requires Held(store, h)
    ensures Held(store, Prolong(h, q, now))
  {
    assert Prolong(h, q, now).content == h.content;
  }

  /** The hold that a change writes is of a file that validates. */
  ghost predicate WritesHeld(store: Store, change: HoldChange) {
    change.Rewrite? || change.Create? ==> Held(store, change.hold)
  }

  lemma RewriteIsHeld(s: State, c: Caller, now: real, q: HoldRequest)
    requires AllHeld(s.store, s.holds) && DecideHold(s, c, now, q).Rewrite?
    ensures Held(s.store, DecideHold(s, c, now, q).hold)
  {
    var key := HoldKey(c.session, c.host, q.hold);
    assert Held(s.store, s.holds[key]);
    ProlongedIsHeld(s.store, s.holds[key], q, now);
  }

  lemma CreateIsHeld(s: State, c: Caller, now: real, q: HoldRequest)
    requires DecideHold(s, c, now, q).Create?
    ensures Held(s.store, DecideHold(s, c, now, q).hold)
  {
    AcquireHolds(s, c, now, q);
    var h := Hold(q.path, s.ns.entries[q.path].content, q.write, false, c.attachment, c.generation,
                  if q.write then None else Some(now + q.ttl as real));
    ProlongedIsHeld(s.store, h, q, now);
  }

  lemma DecisionIsHeld(s: State, c: Caller, now: real, q: HoldRequest)
    requires AllHeld(s.store, s.holds)
    ensures WritesHeld(s.store, DecideHold(s, c, now, q))
  {
    match DecideHold(s, c, now, q)
    case Rewrite(_) => RewriteIsHeld(s, c, now, q);
    case Create(_) => CreateIsHeld(s, c, now, q);
    case _ =>
  }

  lemma WriteCounts(holds: map<HoldKey, Hold>, key: HoldKey, h: Hold)
    ensures |holds[key := h]| == if key in holds then |holds| else |holds| + 1
  {
    assert holds[key := h].Keys == holds.Keys + {key};
    assert |holds[key := h].Keys| == |holds[key := h]| && |holds.Keys| == |holds|;
  }

  lemma WriteReleases(holds: map<HoldKey, Hold>, key: HoldKey, h: Hold)
    requires key in holds && holds[key].released ==> h.released
    ensures ReleasedKeys(holds[key := h]) == ReleasedKeys(holds) + if h.released then {key} else {}
    ensures key in ReleasedKeys(holds) <==> key in holds && holds[key].released
  {
  }

  lemma CountedStep(holds: map<HoldKey, Hold>, key: HoldKey, h: Hold)
    requires key in holds && holds[key].released ==> h.released
    ensures |holds[key := h]| == if key in holds then |holds| else |holds| + 1
    ensures key !in holds && !h.released ==> ReleasedKeys(holds[key := h]) == ReleasedKeys(holds)
    ensures key in holds && h.released == holds[key].released ==> ReleasedKeys(holds[key := h]) == ReleasedKeys(holds)
    ensures key in holds && h.released && !holds[key].released ==>
              |ReleasedKeys(holds[key := h])| == |ReleasedKeys(holds)| + 1
  {
    WriteCounts(holds, key, h);
    WriteReleases(holds, key, h);
  }

  lemma WriteIsHeld(store: Store, holds: map<HoldKey, Hold>, key: HoldKey, h: Hold)
    requires AllHeld(store, holds) && Held(store, h)
    ensures AllHeld(store, holds[key := h])
  {
    var written := holds[key := h];
    forall k | k in written
      ensures Held(store, written[k])
    {
      if k != key {
        assert Held(store, holds[k]);
      }
    }
  }

  lemma ReleaseIsHeld(store: Store, h: Hold)
    requires Held(store, h)
    ensures Held(store, h.(released := true))
  {
    assert h.(released := true).content == h.content;
  }

  lemma ChangeIsSound(s: State, key: HoldKey, change: HoldChange, now: real)
    requires HoldsSound(s) && Onward(s, key, change, now) && WritesHeld(s.store, change)
    ensures HoldsSound(ApplyChange(s, key, change))
  {
    if change.MarkReleased? {
      var h := s.holds[key].(released := true);
      assert Held(s.store, s.holds[key]);
      ReleaseIsHeld(s.store, s.holds[key]);
      CountedStep(s.holds, key, h);
      WriteIsHeld(s.store, s.holds, key, h);
    } else if change.Rewrite? || change.Create? {
      CountedStep(s.holds, key, change.hold);
      WriteIsHeld(s.store, s.holds, key, change.hold);
    }
  }

  /** A hold request lets every hold only evolve, leaves an expired one its deadline, and
      keeps a sound table sound. */
  lemma FileHoldIsSound(s: State, c: Caller, now: real, q: HoldRequest)
    ensures var s' := FileHold(s, c, now, q).0;
            && HoldsEvolve(s.holds, s'.holds) && ExpiredStay(s.holds, s'.holds, now)
            && s' == s.(holds := s'.holds, acquired := s'.acquired, released := s'.released)
            && (HoldsSound(s) ==> HoldsSound(s'))
  {
    var key, change := HoldKey(c.session, c.host, q.hold), DecideHold(s, c, now, q);
    DecisionIsOnward(s, c, now, q);
    ChangeEvolves(s, key, change, now);
    if HoldsSound(s) {
      DecisionIsHeld(s, c, now, q);
      ChangeIsSound(s, key, change, now);
    }
  }

  // ---------------------------------------------------- what a hold request gets

  predicate TtlInRange(q: HoldRequest) {
    MIN_HOLD_TTL <= q.ttl <= MAX_HOLD_TTL
  }

  /** The live file at the path, with the digest and size named, still assembles. */
  ghost predicate Holdable(s: State, q: HoldRequest) {
    && q.path in s.ns.entries
    && var file := s.ns.entries[q.path].content;
       && file.kind == File && file.digest == Some(q.digest) && file.size == q.size <= MAX_TREE_SOURCE
       && Validates(s.store, ContentDescriptor(file)).None?
  }

  /** A first acquire is granted exactly while the file named is live and assembles, the
      caller may have the mode, and there is room; the hold is then of that very file, for
      as long as asked, or for good when it is for writing. */
  lemma AcquireIsExact(s: State, c: Caller, now: real, q: HoldRequest)
    requires q.action.Acquire? && HoldKey(c.session, c.host, q.hold) !in s.holds
    ensures var (s', r) := FileHold(s, c, now, q);
            && (r.Ok? <==> TtlInRange(q) && Holdable(s, q) && (q.write ==> c.readWrite) && |s.holds| < MAX_HOLDS)
            && (r.Ok? ==>
                  var deadline := if q.write then None else Some(now + q.ttl as real);
                  var h := Hold(q.path, s.ns.entries[q.path].content, q.write, false,
                                c.attachment, c.generation, deadline);
                  r.value == Live(h) && s'.holds == s.holds[HoldKey(c.session, c.host, q.hold) := h])
            && (r.Rejected? ==> s' == s)
  {
  }

  /** A repeated acquire names the file, size and mode that are held. */
  predicate SameIdentity(h: Hold, q: HoldRequest) {
    && q.path == h.path && Some(q.digest) == h.content.digest && q.size == h.content.size && q.write == h.write
  }

  /** A hold that its owner renews, asks about or acquires again is answered while it
      lives; its deadline becomes the later of the one it has and the one asked for. */
  lemma HeldIsExact(s: State, c: Caller, now: real, q: HoldRequest)
    requires !q.action.Release? && HoldKey(c.session, c.host, q.hold) in s.holds
    ensures var h := s.holds[HoldKey(c.session, c.host, q.hold)];
            var (s', r) := FileHold(s, c, now, q);
            && (r.Ok? <==>
                  && TtlInRange(q) && h.attachment == c.attachment && h.generation == c.generation
                  && (q.action.Acquire? ==> SameIdentity(h, q))
                  && !h.released && (h.deadline.Some? ==> now < h.deadline.value))
            && (r.Ok? ==>
                  var asked := now + q.ttl as real;
                  var deadline := if h.deadline.None? || q.action.Status? || asked <= h.deadline.value
                                  then h.deadline else Some(asked);
                  && r.value == Live(h.(deadline := deadline))
                  && s'.holds == s.holds[HoldKey(c.session, c.host, q.hold) := h.(deadline := deadline)])
            && (r.Rejected? ==> s' == s)
  {
  }

  /** A release by the owner is always answered, and marks the hold if there is one. */
  lemma ReleaseIsExact(s: State, c: Caller, now: real, q: HoldRequest)
    requires q.action.Release?
    ensures var key := HoldKey(c.session, c.host, q.hold);
            var (s', r) := FileHold(s, c, now, q);
            && (r == Ok(Released) || r.Rejected?)
            && (r.Ok? <==>
                  && TtlInRange(q)
                  && (key in s.holds ==>
                        s.holds[key].attachment == c.attachment && s.holds[key].generation == c.generation))
            && s'.holds == if r.Ok? && key in s.holds then s.holds[key := s.holds[key].(released := true)] else s.holds
  {
    var key := HoldKey(c.session, c.host, q.hold);
    if key in s.holds && s.holds[key].released {
      assert s.holds[key := s.holds[key].(released := true)] == s.holds;
    }
  }

  // ------------------------------------------------------------- block reads

  datatype ReadRequest = ReadRequest(
    path: Path, blocks: seq<Obj>, ttl: Option<int>, hold: Option<Id>, digest: Option<Digest>)

  datatype Ticket = Ticket(digest: Digest, size: nat, expires: real)

  const MAX_READ_BLOCKS := 128
  const MAX_READ_TTL := 300

  /** `int(x)`, which truncates toward zero. */
  function Truncate(x: real): int {
    if x >= 0.0 then x.Floor else -(-x).Floor
  }

  /** The entry a read is about: the held one, or the live one. */
  function ReadEntry(s: State, c: Caller, now: real, q: ReadRequest): Result<Content> {
    if q.hold.Some? then
      var key := HoldKey(c.session, c.host, q.hold.value);
      if key !in s.holds || s.holds[key].released || s.holds[key].attachment != c.attachment
         || s.holds[key].generation != c.generation || ExpiredAt(s.holds[key], now)
      then Rejected(HoldExpired)
      else if s.holds[key].path != q.path || q.digest.None? || s.holds[key].content.digest != q.digest
      then Rejected(HoldIdentityConflict)
      else Ok(s.holds[key].content)
    else if !IsFile(s.ns.entries, q.path) then Rejected(FileNotFound)
    else if q.digest.Some? && s.ns.entries[q.path].content.digest != q.digest then Rejected(HoldIdentityConflict)
    else Ok(s.ns.entries[q.path].content)
  }

  /** The sizes that a file's objects may be asked for under. */
  function Referenced(s: State, c: Content): Result<Sizes> {
    var d := ContentDescriptor(c);
    if d.digest.None? || d.layout.None? then Rejected(TreeInvalid)
    else if d.layout.value.Blocks? then Ok(BlockSizes(d.layout.value.blocks))
    else
      var r := TreeBytes(s.store, d.layout.value.tree, c.size, d.digest.value, true);
      if r.Rejected? then Rejected(r.fault)
      else
        var root := CheckTree(d.layout.value.tree, c.size, d.digest.value).value;
        var walk := Visit(s.store.cas, root, Height(c.size), Walk(map[], 0));
        if walk.None? then Rejected(Crash) else Ok(walk.value.sizes)
  }

  /** The lifetime of tickets: bounded by the request, the lease and the hold, each
      less five seconds, and refused when less than thirty remain. */
  function TicketTtl(s: State, c: Caller, now: real, q: ReadRequest): Result<int> {
    var remaining := Truncate(c.lease - now) - 5;
    if remaining < 30 then Rejected(LeaseTooShort)
    else if q.ttl.Some? && !(30 <= q.ttl.value <= MAX_READ_TTL) then Rejected(TtlInvalid)
    else
      var asked := q.ttl.GetOr(MAX_READ_TTL);
      var ttl := if asked < remaining then asked else remaining;
      var key := HoldKey(c.session, c.host, q.hold.GetOr([]));
      if q.hold.Some? && key in s.holds && s.holds[key].deadline.Some? then
        var held := Truncate(s.holds[key].deadline.value - now) - 5;
        if held < 30 then Rejected(HoldExpired) else Ok(if ttl < held then ttl else held)
      else Ok(ttl)
  }

  function ReadBatch(s: State, c: Caller, now: real, q: ReadRequest): Result<seq<Ticket>> {
    var content := ReadEntry(s, c, now, q);
    if content.Rejected? then Rejected(content.fault)
    else if CheckBlocks(q.blocks, MAX_READ_BLOCKS).Some? then Rejected(CheckBlocks(q.blocks, MAX_READ_BLOCKS).value)
    else
      var sizes := Referenced(s, content.value);
      if sizes.Rejected? then Rejected(sizes.fault)
      else if exists b | b in q.blocks :: b.digest !in sizes.value || sizes.value[b.digest] != b.size
      then Rejected(BlockNotReferenced)
      else
        var ttl := TicketTtl(s, c, now, q);
        if ttl.Rejected? then Rejected(ttl.fault)
        else Ok(seq(|q.blocks|, i requires 0 <= i < |q.blocks| =>
          Ticket(q.blocks[i].digest, q.blocks[i].size, now + ttl.value as real)))
  }

  /** The sizes that a read is checked against are those of the file's objects. */
  lemma ReferencedAreObjects(s: State, c: Content)
    requires Referenced(s, c).Ok?
    ensures forall d | d in Referenced(s, c).value ::
              Obj(d, Referenced(s, c).value[d]) in FileObjects(s.store.cas, ContentDescriptor(c))
  {
    var d := ContentDescriptor(c);
    if d.layout.value.Blocks? {
      BlockSizesAreObjects(d.layout.value.blocks);
    } else {
      WalkIsExact(s.store, d.layout.value.tree, c.size, d.digest.value);
    }
  }

  /** And all of them, where the file validates. */
  lemma ReferencedAreAllObjects(s: State, c: Content)
    requires c.kind == File && Validates(s.store, ContentDescriptor(c)).None?
    ensures Referenced(s, c).Ok?
    ensures forall o | o in FileObjects(s.store.cas, ContentDescriptor(c)) ::
              o.digest in Referenced(s, c).value && Referenced(s, c).value[o.digest] == o.size
  {
    var d := ContentDescriptor(c);
    if d.layout.value.Blocks? {
      JoinedSizesAreObjects(s.store.cas, d.layout.value.blocks);
    } else {
      WalkIsExact(s.store, d.layout.value.tree, c.size, d.digest.value);
    }
  }

  /** Seconds of a lifetime that are left for tickets. */
  function TimeLeft(until: real, now: real): real {
    until - now - 5.0
  }

  /** The lifetimes that bound a read's tickets: the lease, and the deadline of the hold
      that it names. */
  ghost predicate Bounds(s: State, c: Caller, q: ReadRequest, until: real) {
    || until == c.lease
    || (q.hold.Some? && HoldKey(c.session, c.host, q.hold.value) in s.holds
        && s.holds[HoldKey(c.session, c.host, q.hold.value)].deadline == Some(until))
  }

  ghost predicate AskedTtl(q: ReadRequest) {
    q.ttl.Some? ==> 30 <= q.ttl.value <= MAX_READ_TTL
  }

  lemma TruncateIsFloor(x: real)
    ensures x >= 0.0 ==> Truncate(x) as real <= x < Truncate(x) as real + 1.0
    ensures x < 0.0 ==> Truncate(x) <= 0
  {
    if x < 0.0 {
      assert (-x).Floor >= 0;
    }
  }

  /** Tickets last as long as asked, or five minutes, unless a lifetime ends before; then to
      within a second of five seconds before its end. A lifetime shorter than thirty-five
      seconds refuses them. */
  lemma TtlIsExact(s: State, c: Caller, now: real, q: ReadRequest)
    ensures TicketTtl(s, c, now, q).Ok?
            <==> AskedTtl(q) && forall until | Bounds(s, c, q, until) :: TimeLeft(until, now) >= 30.0
    ensures TicketTtl(s, c, now, q).Ok? ==>
              var ttl := TicketTtl(s, c, now, q).value;
              && 30 <= ttl <= q.ttl.GetOr(MAX_READ_TTL)
              && (forall until | Bounds(s, c, q, until) :: ttl as real <= TimeLeft(until, now))
              && (ttl < q.ttl.GetOr(MAX_READ_TTL) ==>
                    exists until :: Bounds(s, c, q, until) && TimeLeft(until, now) < ttl as real + 1.0)
  {
    var key := HoldKey(c.session, c.host, q.hold.GetOr([]));
    TruncateIsFloor(c.lease - now);
    assert Bounds(s, c, q, c.lease);
    if q.hold.Some? && key in s.holds && s.holds[key].deadline.Some? {
      var deadline := s.holds[key].deadline.value;
      TruncateIsFloor(deadline - now);
      assert Bounds(s, c, q, deadline);
      assert forall until | Bounds(s, c, q, until) :: until == c.lease || until == deadline;
    } else {
      assert forall until | Bounds(s, c, q, until) :: until == c.lease;
    }
  }

  /** The caller's own hold, alive, of this path and digest. */
  ghost predicate HoldsFor(s: State, c: Caller, now: real, q: ReadRequest)
    requires q.hold.Some?
  {
    var key := HoldKey(c.session, c.host, q.hold.value);
    && key in s.holds && !s.holds[key].released
    && (s.holds[key].deadline.Some? ==> now < s.holds[key].deadline.value)
    && s.holds[key].attachment == c.attachment && s.holds[key].generation == c.generation
    && s.holds[key].path == q.path && q.digest.Some? && s.holds[key].content.digest == q.digest
  }

  /** The file that a read is about: with a hold the held one, whatever is at the path by
      now; without one the live file, with the digest named if one is. */
  ghost predicate IsAbout(s: State, c: Caller, now: real, q: ReadRequest, file: Content) {
    if q.hold.Some? then HoldsFor(s, c, now, q) && file == s.holds[HoldKey(c.session, c.host, q.hold.value)].content
    else
      && IsFile(s.ns.entries, q.path) && file == s.ns.entries[q.path].content
      && (q.digest.Some? ==> file.digest == q.digest)
  }

  lemma ReadEntryIsAbout(s: State, c: Caller, now: real, q: ReadRequest, file: Content)
    ensures ReadEntry(s, c, now, q) == Ok(file) <==> IsAbout(s, c, now, q, file)
  {
  }

  /** One ticket for each block asked for, in order, with one end for all. */
  ghost predicate TicketsFor(blocks: seq<Obj>, tickets: seq<Ticket>, expires: real) {
    && |tickets| == |blocks|
    && forall i | 0 <= i < |blocks| :: tickets[i] == Ticket(blocks[i].digest, blocks[i].size, expires)
  }

  /** A granted read is about a file, covers only objects of it, one ticket for each block
      asked for, and ends before the lease and the hold. */
  lemma TicketsAreConfined(s: State, c: Caller, now: real, q: ReadRequest)
    requires ReadBatch(s, c, now, q).Ok?
    ensures exists file, expires ::
              && IsAbout(s, c, now, q, file) && TicketsFor(q.blocks, ReadBatch(s, c, now, q).value, expires)
              && (forall b | b in q.blocks :: b in FileObjects(s.store.cas, ContentDescriptor(file)))
              && now + 30.0 <= expires && forall until | Bounds(s, c, q, until) :: expires <= until - 5.0
  {
    var file := ReadEntry(s, c, now, q).value;
    var expires := now + TicketTtl(s, c, now, q).value as real;
    ReadEntryIsAbout(s, c, now, q, file);
    TtlIsExact(s, c, now, q);
    ReferencedAreObjects(s, file);
    forall b | b in q.blocks
      ensures b in FileObjects(s.store.cas, ContentDescriptor(file))
    {
      assert Referenced(s, file).value[b.digest] == b.size;
    }
    assert TicketsFor(q.blocks, ReadBatch(s, c, now, q).value, expires);
  }

  /** A read in form of objects of a file that validates is granted while lease and hold
      last: each block gets its ticket, for as long as asked or the lifetimes allow. */
  lemma ReadIsGranted(s: State, c: Caller, now: real, q: ReadRequest, file: Content)
    requires IsAbout(s, c, now, q, file) && file.kind == File && Validates(s.store, ContentDescriptor(file)).None?
    requires 1 <= |q.blocks| <= MAX_READ_BLOCKS && Askable(q.blocks)
    requires forall b | b in q.blocks :: b in FileObjects(s.store.cas, ContentDescriptor(file))
    requires AskedTtl(q) && forall until | Bounds(s, c, q, until) :: TimeLeft(until, now) >= 30.0
    ensures ReadBatch(s, c, now, q).Ok?
    ensures exists expires ::
              && TicketsFor(q.blocks, ReadBatch(s, c, now, q).value, expires)
              && now + 30.0 <= expires <= now + q.ttl.GetOr(MAX_READ_TTL) as real
              && (expires < now + q.ttl.GetOr(MAX_READ_TTL) as real ==>
                    exists until :: Bounds(s, c, q, until) && until - 6.0 < expires)
  {
    ReadEntryIsAbout(s, c, now, q, file);
    CheckBlocksIsExact(q.blocks, MAX_READ_BLOCKS);
    ReferencedAreAllObjects(s, file);
    TtlIsExact(s, c, now, q);
    var expires := now + TicketTtl(s, c, now, q).value as real;
    assert TicketsFor(q.blocks, ReadBatch(s, c, now, q).value, expires);
  }

  /** What a held read is answered does not depend on the namespace. */
  lemma HeldReadIgnoresNamespace(s: State, ns: Namespace, c: Caller, now: real, q: ReadRequest)
    requires q.hold.Some?
    ensures ReadBatch(s.(ns := ns), c, now, q) == ReadBatch(s, c, now, q)
  {
    assert ReadEntry(s.(ns := ns), c, now, q) == ReadEntry(s, c, now, q);
    assert TicketTtl(s.(ns := ns), c, now, q) == TicketTtl(s, c, now, q);
  }

  // ------------------------------------------------------------- verification

  const MAX_VERIFICATIONS := 4

  /** Verification of tree nodes. The targets of the mutation are checked last, by
      the base protocol, and nothing is admitted when they refuse. */
  function TreeVerify(
      s: State, blocks: seq<Obj>, nodes: seq<Submitted>, targets: Option<Fault>): (State, Option<Fault>) {
    var fault := CheckBlocks(blocks, MAX_VERIFICATIONS);
    if fault.Some? then (s, fault)
    else if VerifyEach(s.store.cas, blocks).Some? then (s, VerifyEach(s.store.cas, blocks))
    else
      var next := AdmitRequest(s.store, SizesOf(blocks), nodes);
      if next.Rejected? then (s, Some(next.fault))
      else if targets.Some? then (s, targets)
      else (s.(store := next.value), None)
  }

  lemma TreeVerifyIsImmutable(s: State, blocks: seq<Obj>, nodes: seq<Submitted>, targets: Option<Fault>)
    requires Intact(s.store) && forall n | n in nodes :: Collisionless(s.store.cas, n.raw)
    ensures var s' := TreeVerify(s, blocks, nodes, targets).0;
            && s' == s.(store := s'.store)
            && Intact(s'.store) && Extends(s.store, s'.store)
  {
    if CheckBlocks(blocks, MAX_VERIFICATIONS).None? && VerifyEach(s.store.cas, blocks).None? {
      VerifiedAreStored(s.store.cas, blocks);
      AdmitRequestKeepsClosed(s.store, SizesOf(blocks), nodes);
    }
  }

  /** Nodes are admitted exactly when the blocks named are askable and stored, the targets
      agree, and the nodes are blocks of the request that are what they say and rest on
      what is proven with them; then exactly they become proven, and nothing else changes. */
  lemma TreeVerifyIsExact(s: State, blocks: seq<Obj>, nodes: seq<Submitted>, targets: Option<Fault>)
    requires Intact(s.store) && forall n | n in nodes :: Collisionless(s.store.cas, n.raw)
    ensures var (s', fault) := TreeVerify(s, blocks, nodes, targets);
            var sizes := SizesOf(blocks);
            && (fault.None? <==>
                  && 1 <= |blocks| <= MAX_VERIFICATIONS && Askable(blocks) && EachStored(s.store.cas, blocks)
                  && targets.None? && |nodes| <= |sizes| && DistinctNodes(nodes)
                  && (forall n | n in nodes :: Named(sizes, n) && Grounded(Admitted(s.store, sizes, nodes), n)))
            && s' == if fault.None? then s.(store := Admitted(s.store, sizes, nodes)) else s
  {
    CheckBlocksIsExact(blocks, MAX_VERIFICATIONS);
    VerifyEachIsExact(s.store.cas, blocks);
    if VerifyEach(s.store.cas, blocks).None? {
      VerifiedAreStored(s.store.cas, blocks);
      AdmitRequestIsExact(s.store, SizesOf(blocks), nodes);
    }
  }

  // ------------------------------------------------------ uploads and seeding

  /** A direct upload; an object that is already there is left alone. */
  function Upload(s: State, data: Bytes): State {
    if Sha256(data) in s.store.cas then s
    else s.(store := s.store.(cas := PutObject(s.store.cas, Sha256(data), data)))
  }

  /** What was uploaded is there. */
  lemma UploadIsStored(s: State, data: Bytes)
    requires WellHashed(s.store.cas) && Collisionless(s.store.cas, data)
    ensures VerifyBlock(Upload(s, data).store.cas, Sha256(data), |data|) == Ok(data)
  {
  }

  function SeedRoot(data: Bytes): Ref {
    Data(Sha256(data), |data|, 0, |data|)
  }

  function SeedLayout(data: Bytes, size: nat): Layout
    requires size <= MAX_TREE_SOURCE && |data| <= size
  {
    Tree(TreeDescriptor(size, Height(size), PrintRef(SeedRoot(data))), ConnectedHostCas)
  }

  /** What a seeded file's entry holds. */
  function SeedContent(data: Bytes, size: nat): Content
    requires size <= MAX_TREE_SOURCE && |data| <= size
  {
    HeightIsAtMostFour(size);
    var digest := Sha256(IdentityPreimage(size, Height(size), PrintRef(SeedRoot(data))));
    Content(File, size, Some(digest), Some(SeedLayout(data, size)))
  }

  /** Only a file whose prefix is everything enters the legacy tables. */
  function SeedNamespace(ns: Namespace, path: Path, data: Bytes, size: nat): Namespace
    requires size <= MAX_TREE_SOURCE && |data| <= size
  {
    var content, number := SeedContent(data, size), |ns.journal| + 1;
    Namespace(
      ns.entries[path := Entry(content, number)],
      if size == |data| then ns.files[path := data] else ns.files,
      if size == |data| then ns.layouts[path := SeedLayout(data, size)] else ns.layouts,
      ns.journal + [Record(number, path, Put, content, None, None, None, None)])
  }

  /** A file seeded with a prefix of real bytes and a logical size. */
  function SeedColdFile(s: State, path: Path, data: Bytes, size: nat): (State, Option<Fault>) {
    if path in s.ns.entries || !(0 < |data| <= MAX_FILE) || !(|data| <= size <= MAX_TREE_SOURCE)
    then (s, Some(SeedInvalid))
    else
      var store := s.store.(cas := PutObject(s.store.cas, Sha256(data), data),
                            proofs := s.store.proofs + {Obj(Sha256(data), |data|)});
      (s.(store := store, ns := SeedNamespace(s.ns, path, data, size)), None)
  }

  /** A file is seeded exactly where nothing is, from one byte to four mebibytes of it and
      any size from that to the largest tree; it becomes the entry of its path, with one
      record, and nothing else changes. */
  lemma SeedIsExact(s: State, path: Path, data: Bytes, size: nat)
    ensures var (s', fault) := SeedColdFile(s, path, data, size);
            && (fault.None? <==> path !in s.ns.entries && 1 <= |data| <= MAX_FILE && |data| <= size <= MAX_TREE_SOURCE)
            && s' == s.(store := s'.store, ns := s'.ns) && s.ns.journal <= s'.ns.journal
            && (fault.Some? ==> s' == s)
            && (fault.None? ==>
                  && s'.ns == SeedNamespace(s.ns, path, data, size) && |s'.ns.journal| == |s.ns.journal| + 1
                  && s'.ns.entries == s.ns.entries[path := Entry(SeedContent(data, size), |s.ns.journal| + 1)])
  {
  }

  /** A seeded file is readable at once, and its bytes are the ones given. */
  lemma SeededFileReads(s: State, path: Path, data: Bytes, size: nat)
    requires SeedColdFile(s, path, data, size).1.None?
    ensures var s' := SeedColdFile(s, path, data, size).0;
            var d := ContentDescriptor(s'.ns.entries[path].content);
            && Validates(s'.store, d).None?
            && (size <= MAX_FILE ==> FileBytes(s'.store, d) == Ok(data + Zeros(size - |data|)))
  {
    HeightIsAtMostFour(size);
    HeightFromIsLeast(size, 0);
    HeightFromIsLeast(|data|, 0);
    var root := SeedRoot(data);
    SpanGrows(0, Height(size));
    assert |data| <= Span(Height(size));
    ParsePrintRef(root, Height(size));
    var s' := SeedColdFile(s, path, data, size).0;
    var d := ContentDescriptor(s'.ns.entries[path].content);
    assert CheckTree(d.layout.value.tree, size, d.digest.value) == Some(root);
    assert VerifyBlock(s'.store.cas, Sha256(data), |data|) == Ok(data);
    assert data[0..0 + |data|] == data;
  }
}
