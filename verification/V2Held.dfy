/** What a hold is for: the file that was acquired can be read, whatever becomes of its
    path, as long as the hold lives. */
module V2Held {
  import opened Prelude
  import opened TreeCodec
  import opened TreeStore
  import opened Admission
  import opened Layouts
  import opened V2Namespace
  import opened V2State
  import opened V2Steps
  import opened V2Runs

  /** A read in form of some objects of a held file, in time for lease and deadline. */
  ghost predicate AsksFor(s: State, file: Content, deadline: Option<real>, c: Caller, later: real, q: ReadRequest) {
    && q.hold.Some? && q.digest == file.digest && AskedTtl(q)
    && 1 <= |q.blocks| <= MAX_READ_BLOCKS && Askable(q.blocks)
    && (forall b | b in q.blocks :: b in FileObjects(s.store.cas, ContentDescriptor(file)))
    && TimeLeft(c.lease, later) >= 30.0
    && (deadline.Some? ==> TimeLeft(deadline.value, later) >= 30.0)
  }

  /** One ticket for each block, good for at least half a minute. */
  ghost predicate Served(s: State, c: Caller, later: real, q: ReadRequest) {
    && ReadBatch(s, c, later, q).Ok?
    && exists expires ::
         TicketsFor(q.blocks, ReadBatch(s, c, later, q).value, expires) && later + 30.0 <= expires
  }

  /** At any later point of any clean run, whatever was committed to the path, a read under
      a hold that is not released gets its tickets for the objects of the held file. */
  lemma HeldFileIsReadable(s: State, es: seq<Timed>, c: Caller, later: real, q: ReadRequest)
    requires StoreSound(s) && CleanRun(s, es) && q.hold.Some?
    requires HoldKey(c.session, c.host, q.hold.value) in s.holds
    requires var h := s.holds[HoldKey(c.session, c.host, q.hold.value)];
             && h.attachment == c.attachment && h.generation == c.generation && h.path == q.path
             && AsksFor(s, h.content, h.deadline, c, later, q)
    requires var key := HoldKey(c.session, c.host, q.hold.value);
             key in Run(s, es).holds ==> !Run(s, es).holds[key].released
    ensures Served(Run(s, es), c, later, q)
  {
    var key, s' := HoldKey(c.session, c.host, q.hold.value), Run(s, es);
    var h := s.holds[key];
    HoldIsolation(s, es, key, later);
    assert Held(s.store, h);
    assert IsAbout(s', c, later, q, h.content);
    forall until | Bounds(s', c, q, until)
      ensures TimeLeft(until, later) >= 30.0
    {
      if until != c.lease {
        assert s'.holds[key].deadline == Some(until);
      }
    }
    ReadIsGranted(s', c, later, q, h.content);
  }

  /** From the acquire on: the file that was live when the hold was granted stays readable
      by its holder for the time granted, in every clean run that does not release it. */
  lemma AcquiredFileIsReadable(
      s: State, c: Caller, now: real, a: HoldRequest, es: seq<Timed>, later: real, q: ReadRequest)
    requires StoreSound(s) && a.action.Acquire? && HoldKey(c.session, c.host, a.hold) !in s.holds
    requires FileHold(s, c, now, a).1.Ok? && CleanRun(FileHold(s, c, now, a).0, es)
    requires q.hold == Some(a.hold) && q.path == a.path && a.path in s.ns.entries
    requires AsksFor(s, s.ns.entries[a.path].content, if a.write then None else Some(now + a.ttl as real), c, later, q)
    requires var key, s' := HoldKey(c.session, c.host, a.hold), Run(FileHold(s, c, now, a).0, es);
             key in s'.holds ==> !s'.holds[key].released
    ensures Served(Run(FileHold(s, c, now, a).0, es), c, later, q)
  {
    AcquireIsExact(s, c, now, a);
    FileHoldIsSound(s, c, now, a);
    HeldFileIsReadable(FileHold(s, c, now, a).0, es, c, later, q);
  }
}
