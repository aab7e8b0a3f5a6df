/** When a host gets an attachment, with which rights, and when its generation is fenced. */
module OwnerGrants {
  import opened Prelude
  import Gate = RequestGate
  import opened OwnerAuthority

  /** The rights that the owner's mode stands for. */
  predicate Rights(mode: Mode, p: Profile) {
    match mode
    case Files => p.Personal?
    case Limited => p.NativeWorkspace?
    case Full => p.NativeFull?
  }

  lemma ProfileIsRights(mode: Mode, p: Profile)
    ensures p == ProfileOf(mode) <==> Rights(mode, p)
  {
  }

  /** In every run the attachments to a host's own session have the rights of the mode. */
  lemma RunGrantsRights(mode: Mode, es: seq<Event>)
    requires OrderlyRun(NewPlane(mode), es)
    ensures var s := Run(NewPlane(mode), es);
            forall a | a in s.attachments ::
              a.host in s.hosts && (a.session == s.hosts[a.host].session ==> Rights(s.mode, a.permissions))
  {
    SoundInitially(mode);
    RunIsSound(NewPlane(mode), es);
    var s := Run(NewPlane(mode), es);
    forall a | a in s.attachments
      ensures a.host in s.hosts && (a.session == s.hosts[a.host].session ==> Rights(s.mode, a.permissions))
    {
      var i :| 0 <= i < |s.attachments| && s.attachments[i] == a;
      assert AttachmentSound(s.hosts, s.mode, s.attachments[i]);
      ProfileIsRights(s.mode, a.permissions);
    }
  }

  /** A host that proved itself and was not revoked; a disconnected one may come back. */
  ghost predicate MayCome(s: Plane, host: Id) {
    && host in s.hosts && s.hosts[host].generation >= 1
    && (s.hosts[host].status.Connected? || s.hosts[host].status.Disconnected?)
  }

  /** A live attachment of the host's generation to a session. */
  ghost predicate LiveAt(s: Plane, host: Id, session: Id, k: nat) {
    && host in s.hosts && k < |s.attachments|
    && var a := s.attachments[k];
       a.life.Active? && a.host == host && a.generation == s.hosts[host].generation && a.session == session
  }

  lemma FindIsLive(s: Plane, host: Id, session: Id)
    requires host in s.hosts
    ensures var found := Find(s.attachments, host, s.hosts[host].generation, session);
            && (found.Some? ==> LiveAt(s, host, session, found.value))
            && (found.None? ==> forall k: nat :: !LiveAt(s, host, session, k))
  {
  }

  lemma OneIsLive(s: Plane, host: Id, session: Id, a: nat, b: nat)
    requires Sound(s) && LiveAt(s, host, session, a) && LiveAt(s, host, session, b)
    ensures a == b
  {
    assert a < b ==> !Rivals(s.attachments[a], s.attachments[b]);
    assert b < a ==> !Rivals(s.attachments[b], s.attachments[a]);
  }

  /** The mount asked for is that of the live attachment, or a legal one for a new. */
  ghost predicate MountFits(s: Plane, host: Id, session: Id, mount: Bytes) {
    && (forall k: nat | LiveAt(s, host, session, k) :: s.attachments[k].mount == mount)
    && ((forall k: nat :: !LiveAt(s, host, session, k)) ==> MountName(mount))
  }

  lemma MountFitsFound(s: Plane, host: Id, session: Id, mount: Bytes)
    requires Sound(s) && host in s.hosts
    ensures var found := Find(s.attachments, host, s.hosts[host].generation, session);
            MountFits(s, host, session, mount)
            <==> if found.Some? then s.attachments[found.value].mount == mount else MountName(mount)
  {
    FindIsLive(s, host, session);
    var found := Find(s.attachments, host, s.hosts[host].generation, session);
    if found.Some? {
      assert LiveAt(s, host, session, found.value);
      forall k: nat | LiveAt(s, host, session, k)
        ensures k == found.value
      {
        OneIsLive(s, host, session, k, found.value);
      }
    }
  }

  /** The attachment that an attach answers with: live, to the session and mount asked for,
      with the rights of the mode and a lease of ninety seconds. */
  ghost predicate Attaches(s: Plane, s': Plane, host: Id, session: Id, mount: Bytes, now: real, i: nat) {
    && host in s.hosts && LiveAt(s', host, session, i) && s'.attachments[i].mount == mount
    && s'.attachments[i].lease == Some(now + 90.0) && Rights(s.mode, s'.attachments[i].permissions)
    && s'.mode == s.mode && s'.hosts == s.hosts[host := s.hosts[host].(status := Gate.Connected)]
    && (i < |s.attachments| ==> LiveAt(s, host, session, i) && |s'.attachments| == |s.attachments|)
    && (forall k | 0 <= k < |s.attachments| && k != i :: k < |s'.attachments| && s'.attachments[k] == s.attachments[k])
  }

  /** A host is attached exactly when it may come, sends a profile of some form, asks for
      its own session, and the mount fits. */
  lemma AttachIsExact(s: Plane, host: Id, hint: Option<Profile>, session: Id, mount: Bytes, now: real)
    requires Sound(s)
    ensures var (s', r) := Attach(s, host, hint, session, mount, now);
            && (r.Ok? <==>
                  && MayCome(s, host) && hint.Some?
                  && session == s.hosts[host].session && MountFits(s, host, session, mount))
            && (r.Ok? ==> Attaches(s, s', host, session, mount, now, r.value))
            && (r.Rejected? ==> s' == s)
  {
    if MayCome(s, host) && hint.Some? {
      FindIsLive(s, host, s.hosts[host].session);
      MountFitsFound(s, host, s.hosts[host].session, mount);
      var found := Find(s.attachments, host, s.hosts[host].generation, s.hosts[host].session);
      if found.Some? {
        assert AttachmentSound(s.hosts, s.mode, s.attachments[found.value]);
        ProfileIsRights(s.mode, s.attachments[found.value].permissions);
      } else {
        ProfileIsRights(s.mode, ProfileOf(s.mode));
      }
    }
  }

  /** An enrolled host waits for its proof; proving it once connects it under its first
      generation, and proving it again changes nothing. */
  lemma ProofConnects(s: Plane, host: Id, session: Id)
    ensures var s' := Prove(Enrol(s, host, session), host);
            && !MayCome(Enrol(s, host, session), host)
            && MayCome(s', host) && s'.hosts == s.hosts[host := Host(session, Gate.Connected, 1)]
            && Prove(s', host) == s' && s'.attachments == s.attachments && s'.mode == s.mode
  {
  }

  // ------------------------------------------------------------------ workspaces

  /** A live attachment of a host's generation to a session, by the list alone. */
  ghost predicate ServedAt(q: seq<Attachment>, id: Id, generation: nat, session: Id, k: nat) {
    k < |q| && Serves(q[k], id, generation, session)
  }

  /** With the lease just given, and, if it is new, the rights of a primary or of any other
      workspace. */
  ghost predicate Renewed(q: seq<Attachment>, before: nat, id: Id, h: Host, mode: Mode, session: Id, now: real) {
    exists k: nat ::
      && ServedAt(q, id, h.generation, session, k) && q[k].lease == Some(now + 90.0)
      && (k >= before ==>
            if session == h.session then Rights(mode, q[k].permissions) else q[k].permissions.Personal?)
  }

  lemma AttachOneRenews(q: seq<Attachment>, before: nat, id: Id, h: Host, mode: Mode, session: Id, now: real)
    requires before <= |q|
    requires forall k | before <= k < |q| && Serves(q[k], id, h.generation, session) ::
               if session == h.session then Rights(mode, q[k].permissions) else q[k].permissions.Personal?
    ensures Renewed(AttachOne(q, id, h, mode, session, now), before, id, h, mode, session, now)
  {
    var found := Find(q, id, h.generation, session);
    var q' := AttachOne(q, id, h, mode, session, now);
    var k := if found.Some? then found.value else |q|;
    ProfileIsRights(mode, ProfileOf(mode));
    assert ServedAt(q', id, h.generation, session, k);
  }

  /** Places from `before` on are for sessions as they should be. */
  ghost predicate NewOnesFit(q: seq<Attachment>, before: nat, id: Id, h: Host, mode: Mode) {
    forall k | before <= k < |q| && q[k].host == id && q[k].generation == h.generation ::
      if q[k].session == h.session then Rights(mode, q[k].permissions) else q[k].permissions.Personal?
  }

  lemma AttachOneFits(q: seq<Attachment>, before: nat, id: Id, h: Host, mode: Mode, session: Id, now: real)
    requires before <= |q| && NewOnesFit(q, before, id, h, mode)
    ensures before <= |q| <= |AttachOne(q, id, h, mode, session, now)|
    ensures NewOnesFit(AttachOne(q, id, h, mode, session, now), before, id, h, mode)
  {
    ProfileIsRights(mode, ProfileOf(mode));
  }

  lemma AttachOneKeepsRenewed(
      q: seq<Attachment>, before: nat, id: Id, h: Host, mode: Mode, session: Id, other: Id, now: real)
    requires Renewed(q, before, id, h, mode, other, now)
    ensures Renewed(AttachOne(q, id, h, mode, session, now), before, id, h, mode, other, now)
  {
    var q' := AttachOne(q, id, h, mode, session, now);
    var k: nat :|
             && ServedAt(q, id, h.generation, other, k) && q[k].lease == Some(now + 90.0)
             && (k >= before ==>
                   if other == h.session then Rights(mode, q[k].permissions) else q[k].permissions.Personal?);
    assert ServedAt(q', id, h.generation, other, k);
  }

  lemma {:induction false} AttachEachKeepsRenewed(
      q: seq<Attachment>, before: nat, id: Id, h: Host, mode: Mode, sessions: seq<Id>, other: Id, now: real)
    requires Renewed(q, before, id, h, mode, other, now)
    ensures Renewed(AttachEach(q, id, h, mode, sessions, now), before, id, h, mode, other, now)
    decreases |sessions|
  {
    if sessions != [] {
      AttachOneKeepsRenewed(q, before, id, h, mode, sessions[0], other, now);
      var q1 := AttachOne(q, id, h, mode, sessions[0], now);
      AttachEachKeepsRenewed(q1, before, id, h, mode, sessions[1..], other, now);
    }
  }

  lemma {:induction false} AttachEachRenews(
      q: seq<Attachment>, before: nat, id: Id, h: Host, mode: Mode, sessions: seq<Id>, now: real)
    requires before <= |q| && NewOnesFit(q, before, id, h, mode)
    ensures forall w | w in sessions :: Renewed(AttachEach(q, id, h, mode, sessions, now), before, id, h, mode, w, now)
    decreases |sessions|
  {
    if sessions != [] {
      var q1 := AttachOne(q, id, h, mode, sessions[0], now);
      AttachOneRenews(q, before, id, h, mode, sessions[0], now);
      AttachOneFits(q, before, id, h, mode, sessions[0], now);
      AttachEachKeepsRenewed(q1, before, id, h, mode, sessions[1..], sessions[0], now);
      AttachEachRenews(q1, before, id, h, mode, sessions[1..], now);
    }
  }

  /** Workspaces are attached exactly when the host may come and names one to thirty-two
      different ones of its owner; then each has a live attachment with a new lease, and a
      new one has the rights of the mode if it is the host's own, personal ones if not. */
  lemma WorkspacesAreExact(s: Plane, host: Id, sessions: seq<Id>, catalog: set<Id>, now: real)
    ensures var (s', fault) := AttachWorkspaces(s, host, sessions, catalog, now);
            && (fault.None? <==>
                  && MayCome(s, host) && 1 <= |sessions| <= 32
                  && (forall i, j | 0 <= i < j < |sessions| :: sessions[i] != sessions[j])
                  && (forall w | w in sessions :: w in catalog))
            && (fault.None? ==>
                  && s'.mode == s.mode && s'.hosts == s.hosts[host := s.hosts[host].(status := Gate.Connected)]
                  && forall w | w in sessions ::
                       Renewed(s'.attachments, |s.attachments|, host, s.hosts[host], s.mode, w, now))
            && (fault.Some? ==> s' == s)
  {
    if MayCome(s, host) {
      AttachEachRenews(s.attachments, |s.attachments|, host, s.hosts[host], s.mode, sessions, now);
    }
  }

  // ----------------------------------------------------------------- transitions

  /** A known host that is not revoked can be revoked, a connected one disconnected; its
      generation rises by one, its live attachments of the old one end without a lease, and
      nothing else changes. */
  lemma TransitionIsExact(s: Plane, host: Id, status: Gate.Status)
    requires status.Disconnected? || status.Revoked?
    ensures var (s', fault) := Transition(s, host, status);
            && (fault.None? <==>
                  && host in s.hosts && !s.hosts[host].status.Revoked?
                  && (status.Disconnected? ==> s.hosts[host].status.Connected?))
            && (fault.Some? ==> s' == s)
            && (fault.None? ==>
                  && s'.mode == s.mode && |s'.attachments| == |s.attachments|
                  && s'.hosts == s.hosts[host := s.hosts[host].(
                       status := status, generation := s.hosts[host].generation + 1)]
                  && forall k | 0 <= k < |s.attachments| ::
                       var a, a' := s.attachments[k], s'.attachments[k];
                       if a.host == host && a.generation == s.hosts[host].generation && a.life.Active?
                       then a' == a.(life := Ended(status), lease := None) else a' == a)
  {
  }
}
