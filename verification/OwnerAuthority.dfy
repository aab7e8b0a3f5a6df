/** What only the owner decides: the access mode, and which attachments of a host's
    generation are live. */
module OwnerAuthority {
  import opened Prelude
  import Gate = RequestGate

  datatype Mode = Files | Limited | Full

  datatype Profile = Personal | Compute | NativeWorkspace | NativeFull

  /** The profile that the owner's mode grants. */
  function ProfileOf(mode: Mode): Profile {
    match mode
    case Files => Personal
    case Limited => NativeWorkspace
    case Full => NativeFull
  }

  /** The mode that the inherited attach handler reads off a profile. */
  function ModeOf(profile: Profile): Mode {
    if profile.NativeFull? then Full else if profile.NativeWorkspace? then Limited else Files
  }

  datatype Host = Host(session: Id, status: Gate.Status, generation: nat)

  datatype Life = Active | Ended(how: Gate.Status)

  datatype Attachment = Attachment(
    host: Id, generation: nat, session: Id, mount: Bytes, life: Life, permissions: Profile, lease: Option<real>)

  /** Attachments are in order of creation; one is named by its place. */
  datatype Plane = Plane(mode: Mode, hosts: map<Id, Host>, attachments: seq<Attachment>)

  const LEASE := 90.0
  const MAX_WORKSPACES := 32

  /** The form of a mount name. Nothing is known about it. */
  const MountName: Bytes -> bool

  // -------------------------------------------------------------------- steps

  predicate Serves(a: Attachment, host: Id, generation: nat, session: Id) {
    a.life.Active? && a.host == host && a.generation == generation && a.session == session
  }

  /** The first live attachment of a host's generation to a session. */
  function Find(q: seq<Attachment>, host: Id, generation: nat, session: Id): (r: Option<nat>)
    ensures r.Some? ==>
              && r.value < |q| && Serves(q[r.value], host, generation, session)
              && forall i | 0 <= i < r.value :: !Serves(q[i], host, generation, session)
    ensures r.None? ==> forall i | 0 <= i < |q| :: !Serves(q[i], host, generation, session)
  {
    if q == [] then None
    else if Serves(q[0], host, generation, session) then Some(0)
    else
      var rest := Find(q[1..], host, generation, session);
      if rest.None? then None else Some(rest.value + 1)
  }

  /** An attachment to its host's own session follows the owner's choice. */
  function Granted(hosts: map<Id, Host>, mode: Mode, a: Attachment): Attachment {
    if a.host in hosts && a.session == hosts[a.host].session then a.(permissions := ProfileOf(mode)) else a
  }

  function GrantAll(hosts: map<Id, Host>, mode: Mode, q: seq<Attachment>): (r: seq<Attachment>)
    ensures |r| == |q| && forall i | 0 <= i < |q| :: r[i] == Granted(hosts, mode, q[i])
  {
    if q == [] then [] else [Granted(hosts, mode, q[0])] + GrantAll(hosts, mode, q[1..])
  }

  function Select(s: Plane, mode: Mode): Plane {
    s.(mode := mode, attachments := GrantAll(s.hosts, mode, s.attachments))
  }

  /** What authentication of the two attach routes has checked. */
  predicate MayAttach(s: Plane, host: Id) {
    host in s.hosts && Gate.Admits(s.hosts[host].status, true) && s.hosts[host].generation >= 1
  }

  function Reconnect(s: Plane, host: Id): Plane
    requires host in s.hosts
  {
    s.(hosts := s.hosts[host := s.hosts[host].(status := Gate.Connected)])
  }

  function Attach(
      s: Plane, host: Id, hint: Option<Profile>, session: Id, mount: Bytes, now: real): (Plane, Result<nat>) {
    if !MayAttach(s, host) then (s, Rejected(HostRevoked))
    else if hint.None? then (s, Rejected(PermissionInvalid))
    else
      var h := s.hosts[host];
      var existing := Find(s.attachments, host, h.generation, h.session);
      if existing.None? then
        if session != h.session then (s, Rejected(SessionNotFound))
        else if !MountName(mount) then (s, Rejected(BadRequest))
        else
          var profile := ProfileOf(s.mode);
          var added := Attachment(host, h.generation, session, mount, Active, profile, Some(now + LEASE));
          (Reconnect(s, host).(mode := ModeOf(profile), attachments := s.attachments + [added]), Ok(|s.attachments|))
      else
        var i := existing.value;
        if session != h.session || mount != s.attachments[i].mount then (s, Rejected(AttachmentConflict))
        else
          (Reconnect(s, host).(attachments := s.attachments[i := s.attachments[i].(lease := Some(now + LEASE))]), Ok(i))
  }

  predicate DistinctIds(q: seq<Id>) {
    forall i, j | 0 <= i < j < |q| :: q[i] != q[j]
  }

  /** `workspace`, the mount name of every workspace attachment. */
  const WORKSPACE: Bytes := [119, 111, 114, 107, 115, 112, 97, 99, 101]

  /** A workspace keeps its attachment, with a longer lease, or gets a new one with
      the profile that the owner's choice gives it. */
  function AttachOne(q: seq<Attachment>, id: Id, h: Host, mode: Mode, session: Id, now: real): seq<Attachment> {
    var existing := Find(q, id, h.generation, session);
    if existing.Some? then q[existing.value := q[existing.value].(lease := Some(now + LEASE))]
    else
      q + [Attachment(id, h.generation, session, WORKSPACE, Active,
                      if session == h.session then ProfileOf(mode) else Personal, Some(now + LEASE))]
  }

  function AttachEach(q: seq<Attachment>, id: Id, h: Host, mode: Mode, sessions: seq<Id>, now: real): seq<Attachment>
    decreases |sessions|
  {
    if sessions == [] then q
    else AttachEach(AttachOne(q, id, h, mode, sessions[0], now), id, h, mode, sessions[1..], now)
  }

  /** `catalog` holds the workspaces of the host's owner. */
  function AttachWorkspaces(
      s: Plane, host: Id, sessions: seq<Id>, catalog: set<Id>, now: real): (Plane, Option<Fault>) {
    if !MayAttach(s, host) then (s, Some(HostRevoked))
    else if !(1 <= |sessions| <= MAX_WORKSPACES) || !DistinctIds(sessions) then (s, Some(BadRequest))
    else if exists w | w in sessions :: w !in catalog then (s, Some(WorkspaceNotFound))
    else
      (Reconnect(s, host).(attachments := AttachEach(s.attachments, host, s.hosts[host], s.mode, sessions, now)), None)
  }

  /** The fence of a transition: the old generation's attachments end. */
  function Fenced(host: Id, generation: nat, status: Gate.Status, a: Attachment): Attachment {
    if a.host == host && a.generation == generation && a.life.Active?
    then a.(life := Ended(status), lease := None)
    else a
  }

  function FenceAll(host: Id, generation: nat, status: Gate.Status, q: seq<Attachment>): (r: seq<Attachment>)
    ensures |r| == |q| && forall i | 0 <= i < |q| :: r[i] == Fenced(host, generation, status, q[i])
  {
    if q == [] then [] else [Fenced(host, generation, status, q[0])] + FenceAll(host, generation, status, q[1..])
  }

  function Transition(s: Plane, host: Id, status: Gate.Status): (Plane, Option<Fault>) {
    if host !in s.hosts then (s, Some(HostRevoked))
    else
      var h := s.hosts[host];
      if h.status.Revoked? || (status.Disconnected? && !h.status.Connected?) then (s, Some(HostTransitionConflict))
      else
        (s.(hosts := s.hosts[host := h.(status := status, generation := h.generation + 1)],
            attachments := FenceAll(host, h.generation, status, s.attachments)), None)
  }

  function Enrol(s: Plane, host: Id, session: Id): Plane {
    s.(hosts := s.hosts[host := Host(session, Gate.PendingProof, 0)])
  }

  /** A completed proof; repeating it changes nothing. */
  function Prove(s: Plane, host: Id): Plane {
    if host in s.hosts && s.hosts[host].status.PendingProof?
    then
      var h := s.hosts[host];
      s.(hosts := s.hosts[host := h.(status := Gate.Connected, generation := h.generation + 1)])
    else s
  }

  datatype Event =
    | Selected(mode: Mode)
    | Attached(id: Id, hint: Option<Profile>, session: Id, mount: Bytes, now: real)
    | AttachedWorkspaces(id: Id, sessions: seq<Id>, catalog: set<Id>, now: real)
    | Disconnected(id: Id)
    | Revoked(id: Id)
    | Enrolled(id: Id, session: Id)
    | Proved(id: Id)

  function Step(s: Plane, e: Event): Plane {
    match e
    case Selected(mode) => Select(s, mode)
    case Attached(id, hint, session, mount, now) => Attach(s, id, hint, session, mount, now).0
    case AttachedWorkspaces(id, sessions, catalog, now) => AttachWorkspaces(s, id, sessions, catalog, now).0
    case Disconnected(id) => Transition(s, id, Gate.Disconnected).0
    case Revoked(id) => Transition(s, id, Gate.Revoked).0
    case Enrolled(id, session) => Enrol(s, id, session)
    case Proved(id) => Prove(s, id)
  }

  /** Host ids are drawn fresh. */
  predicate Orderly(s: Plane, e: Event) {
    e.Enrolled? ==> e.id !in s.hosts
  }

  function Run(s: Plane, es: seq<Event>): Plane
    decreases |es|
  {
    if es == [] then s else Run(Step(s, es[0]), es[1..])
  }

  predicate OrderlyRun(s: Plane, es: seq<Event>)
    decreases |es|
  {
    es == [] || (Orderly(s, es[0]) && OrderlyRun(Step(s, es[0]), es[1..]))
  }

  // ---------------------------------------------------------------- invariant

  ghost predicate AttachmentSound(hosts: map<Id, Host>, mode: Mode, a: Attachment) {
    && a.host in hosts
    && (a.life.Active? ==> a.generation == hosts[a.host].generation && hosts[a.host].status.Connected?)
    && (a.session == hosts[a.host].session ==> a.permissions == ProfileOf(mode))
  }

  ghost predicate Rivals(a: Attachment, b: Attachment) {
    a.life.Active? && b.life.Active? && a.host == b.host && a.generation == b.generation && a.session == b.session
  }

  ghost predicate Unrivalled(q: seq<Attachment>) {
    forall i, j | 0 <= i < j < |q| :: !Rivals(q[i], q[j])
  }

  ghost predicate AllSound(hosts: map<Id, Host>, mode: Mode, q: seq<Attachment>) {
    forall i | 0 <= i < |q| :: AttachmentSound(hosts, mode, q[i])
  }

  /** One live attachment for each host, generation and session; live ones carry their
      host's current generation; those of a host's own session carry the profile of
      the owner's mode. */
  ghost predicate Sound(s: Plane) {
    AllSound(s.hosts, s.mode, s.attachments) && Unrivalled(s.attachments)
  }

  /** A new plane. */
  function NewPlane(mode: Mode): Plane {
    Plane(mode, map[], [])
  }

  lemma SoundInitially(mode: Mode)
    ensures Sound(NewPlane(mode))
  {
  }

  lemma SelectIsSound(s: Plane, mode: Mode)
    requires Sound(s)
    ensures Sound(Select(s, mode))
  {
    var s' := Select(s, mode);
    forall i | 0 <= i < |s'.attachments|
      ensures AttachmentSound(s'.hosts, mode, s'.attachments[i])
    {
      assert AttachmentSound(s.hosts, s.mode, s.attachments[i]);
    }
    forall i, j | 0 <= i < j < |s'.attachments|
      ensures !Rivals(s'.attachments[i], s'.attachments[j])
    {
      assert !Rivals(s.attachments[i], s.attachments[j]);
    }
  }

  lemma ReconnectIsSound(s: Plane, host: Id)
    requires Sound(s) && host in s.hosts
    ensures Sound(Reconnect(s, host))
  {
    forall i | 0 <= i < |s.attachments|
      ensures AttachmentSound(Reconnect(s, host).hosts, s.mode, s.attachments[i])
    {
      assert AttachmentSound(s.hosts, s.mode, s.attachments[i]);
    }
  }

  lemma RenewIsSound(hosts: map<Id, Host>, mode: Mode, q: seq<Attachment>, k: nat, lease: Option<real>)
    requires AllSound(hosts, mode, q) && Unrivalled(q) && k < |q|
    ensures AllSound(hosts, mode, q[k := q[k].(lease := lease)]) && Unrivalled(q[k := q[k].(lease := lease)])
  {
    var q' := q[k := q[k].(lease := lease)];
    forall i | 0 <= i < |q'|
      ensures AttachmentSound(hosts, mode, q'[i])
    {
      assert AttachmentSound(hosts, mode, q[i]);
    }
    forall i, j | 0 <= i < j < |q'|
      ensures !Rivals(q'[i], q'[j])
    {
      assert !Rivals(q[i], q[j]);
    }
  }

  lemma AppendIsSound(hosts: map<Id, Host>, mode: Mode, q: seq<Attachment>, a: Attachment)
    requires AllSound(hosts, mode, q) && Unrivalled(q) && AttachmentSound(hosts, mode, a)
    requires Find(q, a.host, a.generation, a.session).None?
    ensures AllSound(hosts, mode, q + [a]) && Unrivalled(q + [a])
  {
    forall i | 0 <= i < |q|
      ensures !Rivals(q[i], a)
    {
      assert !Serves(q[i], a.host, a.generation, a.session);
    }
  }

  lemma AttachIsSound(s: Plane, host: Id, hint: Option<Profile>, session: Id, mount: Bytes, now: real)
    requires Sound(s)
    ensures Sound(Attach(s, host, hint, session, mount, now).0)
  {
    if MayAttach(s, host) {
      ReconnectIsSound(s, host);
      var h, hosts := s.hosts[host], Reconnect(s, host).hosts;
      var existing := Find(s.attachments, host, h.generation, h.session);
      if existing.Some? {
        RenewIsSound(hosts, s.mode, s.attachments, existing.value, Some(now + LEASE));
      } else {
        var a := Attachment(host, h.generation, h.session, mount, Active, ProfileOf(s.mode), Some(now + LEASE));
        AppendIsSound(hosts, s.mode, s.attachments, a);
      }
    }
  }

  lemma {:induction false} AttachEachIsSound(
      hosts: map<Id, Host>, q: seq<Attachment>, id: Id, h: Host, mode: Mode, sessions: seq<Id>, now: real)
    requires AllSound(hosts, mode, q) && Unrivalled(q)
    requires id in hosts && hosts[id] == h.(status := Gate.Connected)
    ensures var q' := AttachEach(q, id, h, mode, sessions, now); AllSound(hosts, mode, q') && Unrivalled(q')
    decreases |sessions|
  {
    if sessions != [] {
      var session := sessions[0];
      var existing := Find(q, id, h.generation, session);
      if existing.Some? {
        RenewIsSound(hosts, mode, q, existing.value, Some(now + LEASE));
      } else {
        var profile := if session == h.session then ProfileOf(mode) else Personal;
        var lease := Some(now + LEASE);
        AppendIsSound(hosts, mode, q, Attachment(id, h.generation, session, WORKSPACE, Active, profile, lease));
      }
      AttachEachIsSound(hosts, AttachOne(q, id, h, mode, session, now), id, h, mode, sessions[1..], now);
    }
  }

  lemma TransitionIsSound(s: Plane, host: Id, status: Gate.Status)
    requires Sound(s)
    ensures Sound(Transition(s, host, status).0)
  {
    var s' := Transition(s, host, status).0;
    if s' != s {
      forall i | 0 <= i < |s'.attachments|
        ensures AttachmentSound(s'.hosts, s'.mode, s'.attachments[i])
      {
        assert AttachmentSound(s.hosts, s.mode, s.attachments[i]);
      }
      forall i, j | 0 <= i < j < |s'.attachments|
        ensures !Rivals(s'.attachments[i], s'.attachments[j])
      {
        assert !Rivals(s.attachments[i], s.attachments[j]);
      }
    }
  }

  lemma HostsStepIsSound(s: Plane, s': Plane)
    requires Sound(s) && s' == s.(hosts := s'.hosts)
    requires forall h | h in s.hosts ::
               h in s'.hosts && (s'.hosts[h] == s.hosts[h]
                                 || (s.hosts[h].status.PendingProof? && s'.hosts[h].session == s.hosts[h].session))
    ensures Sound(s')
  {
    forall i | 0 <= i < |s'.attachments|
      ensures AttachmentSound(s'.hosts, s'.mode, s'.attachments[i])
    {
      assert AttachmentSound(s.hosts, s.mode, s.attachments[i]);
    }
  }

  lemma StepIsSound(s: Plane, e: Event)
    requires Sound(s) && Orderly(s, e)
    ensures Sound(Step(s, e))
  {
    match e
    case Selected(mode) => SelectIsSound(s, mode);
    case Attached(id, hint, session, mount, now) => AttachIsSound(s, id, hint, session, mount, now);
    case AttachedWorkspaces(id, sessions, _, now) =>
      if MayAttach(s, id) {
        ReconnectIsSound(s, id);
        AttachEachIsSound(Reconnect(s, id).hosts, s.attachments, id, s.hosts[id], s.mode, sessions, now);
      }
    case Disconnected(id) => TransitionIsSound(s, id, Gate.Disconnected);
    case Revoked(id) => TransitionIsSound(s, id, Gate.Revoked);
    case Enrolled(_, _) => HostsStepIsSound(s, Step(s, e));
    case Proved(_) => HostsStepIsSound(s, Step(s, e));
  }

  lemma {:induction false} RunIsSound(s: Plane, es: seq<Event>)
    requires Sound(s) && OrderlyRun(s, es)
    ensures Sound(Run(s, es))
    decreases |es|
  {
    if es != [] {
      StepIsSound(s, es[0]);
      RunIsSound(Step(s, es[0]), es[1..]);
    }
  }

  // ------------------------------------------------------------- whole runs

  /** The last mode that the owner selected. */
  function LastChoice(mode: Mode, es: seq<Event>): Mode
    decreases |es|
  {
    if es == [] then mode else LastChoice(if es[0].Selected? then es[0].mode else mode, es[1..])
  }

  /** Only the owner changes the mode, although attaching writes it. */
  lemma {:induction false} OnlyOwnerChangesMode(s: Plane, es: seq<Event>)
    ensures Run(s, es).mode == LastChoice(s.mode, es)
    decreases |es|
  {
    if es != [] {
      OnlyOwnerChangesMode(Step(s, es[0]), es[1..]);
    }
  }

  /** An attachment keeps its identity, and once ended stays as it ended. */
  ghost predicate Continues(a: Attachment, b: Attachment) {
    && b.host == a.host && b.generation == a.generation && b.session == a.session && b.mount == a.mount
    && (a.life.Ended? ==> b.life == a.life)
  }

  /** Generations only rise, a revoked host stays as it is, attachments continue. */
  ghost predicate Onward(s: Plane, s': Plane) {
    && (forall h | h in s.hosts ::
          && h in s'.hosts && s.hosts[h].generation <= s'.hosts[h].generation
          && s'.hosts[h].session == s.hosts[h].session
          && (s.hosts[h].status.Revoked? ==> s'.hosts[h] == s.hosts[h]))
    && |s.attachments| <= |s'.attachments|
    && forall i | 0 <= i < |s.attachments| :: Continues(s.attachments[i], s'.attachments[i])
  }

  lemma {:induction false} AttachEachContinues(
      q: seq<Attachment>, id: Id, h: Host, mode: Mode, sessions: seq<Id>, now: real)
    ensures var q' := AttachEach(q, id, h, mode, sessions, now);
            |q| <= |q'| && forall i | 0 <= i < |q| :: Continues(q[i], q'[i])
    decreases |sessions|
  {
    if sessions != [] {
      AttachEachContinues(AttachOne(q, id, h, mode, sessions[0], now), id, h, mode, sessions[1..], now);
    }
  }

  lemma AttachIsOnward(s: Plane, host: Id, hint: Option<Profile>, session: Id, mount: Bytes, now: real)
    ensures Onward(s, Attach(s, host, hint, session, mount, now).0)
  {
  }

  lemma TransitionIsOnward(s: Plane, host: Id, status: Gate.Status)
    ensures Onward(s, Transition(s, host, status).0)
  {
  }

  lemma StepIsOnward(s: Plane, e: Event)
    requires Orderly(s, e)
    ensures Onward(s, Step(s, e))
  {
    match e
    case Attached(id, hint, session, mount, now) => AttachIsOnward(s, id, hint, session, mount, now);
    case AttachedWorkspaces(id, sessions, _, now) =>
      if MayAttach(s, id) {
        AttachEachContinues(s.attachments, id, s.hosts[id], s.mode, sessions, now);
      }
    case Disconnected(id) => TransitionIsOnward(s, id, Gate.Disconnected);
    case Revoked(id) => TransitionIsOnward(s, id, Gate.Revoked);
    case _ =>
  }

  lemma {:induction false} RunIsOnward(s: Plane, es: seq<Event>)
    requires OrderlyRun(s, es)
    ensures Onward(s, Run(s, es))
    decreases |es|
  {
    if es != [] {
      StepIsOnward(s, es[0]);
      RunIsOnward(Step(s, es[0]), es[1..]);
    }
  }

  /** After a disconnect or a revocation nothing that was attached before ever serves
      again, and a revoked host never has a live attachment again. */
  lemma FenceHolds(s: Plane, host: Id, status: Gate.Status, es: seq<Event>)
    requires Sound(s) && Transition(s, host, status).1.None?
    requires OrderlyRun(Transition(s, host, status).0, es)
    requires status.Disconnected? || status.Revoked?
    ensures var s' := Run(Transition(s, host, status).0, es);
            && |s.attachments| <= |s'.attachments|
            && (forall i | 0 <= i < |s.attachments| && s.attachments[i].host == host :: s'.attachments[i].life.Ended?)
            && (status.Revoked? ==> forall a | a in s'.attachments && a.host == host :: a.life.Ended?)
  {
    var s1 := Transition(s, host, status).0;
    TransitionIsSound(s, host, status);
    RunIsSound(s1, es);
    RunIsOnward(s1, es);
    var s' := Run(s1, es);
    forall i | 0 <= i < |s.attachments| && s.attachments[i].host == host
      ensures s'.attachments[i].life.Ended?
    {
      assert AttachmentSound(s.hosts, s.mode, s.attachments[i]);
      assert Continues(s1.attachments[i], s'.attachments[i]);
    }
    if status.Revoked? {
      forall a | a in s'.attachments && a.host == host
        ensures a.life.Ended?
      {
        assert AttachmentSound(s'.hosts, s'.mode, a);
      }
    }
  }

  // ---------------------------------------------------------------- the service

  /** `held` is what an attachment list becomes when its permissions, at the places
      that have a receipt, have not been set right yet. */
  ghost predicate Unfinished(held: seq<Attachment>, right: seq<Attachment>, receipts: seq<nat>) {
    && |held| == |right|
    && forall i | 0 <= i < |held| ::
         && held[i].(permissions := right[i].permissions) == right[i]
         && (i !in receipts ==> held[i] == right[i])
  }

  lemma {:induction false} FindSame(q: seq<Attachment>, r: seq<Attachment>, id: Id, generation: nat, session: Id)
    requires |q| == |r|
    requires forall i | 0 <= i < |q| :: q[i].(permissions := r[i].permissions) == r[i]
    ensures Find(q, id, generation, session) == Find(r, id, generation, session)
  {
  }

  /** The permissions that the owner's choice gives an attachment in the end. */
  function Final(profiles: seq<Profile>, h: Host, mode: Mode, i: nat, session: Id): Profile {
    if i < |profiles| then profiles[i] else if session == h.session then ProfileOf(mode) else Personal
  }

  ghost predicate Places(receipts: seq<nat>, n: nat) {
    forall r | r in receipts :: r < n
  }

  /** Old attachments keep their permissions, new ones follow the mode. */
  ghost predicate OwnersChoice(right: seq<Attachment>, before: seq<Attachment>, h: Host, mode: Mode) {
    && |before| <= |right|
    && (forall i | 0 <= i < |before| :: right[i].permissions == before[i].permissions)
    && (forall i | |before| <= i < |right| ::
          right[i].permissions == if right[i].session == h.session then ProfileOf(mode) else Personal)
  }

  lemma AttachOneIsOwnersChoice(
      right: seq<Attachment>, before: seq<Attachment>, id: Id, h: Host, mode: Mode, session: Id, now: real)
    requires OwnersChoice(right, before, h, mode)
    ensures OwnersChoice(AttachOne(right, id, h, mode, session, now), before, h, mode)
  {
  }

  lemma AddUnfinished(
      held: seq<Attachment>, right: seq<Attachment>, receipts: seq<nat>, a: Attachment, profile: Profile)
    requires Unfinished(held, right, receipts)
    ensures Unfinished(held + [a], right + [a.(permissions := profile)], receipts + [|held|])
  {
    forall i | 0 <= i < |held|
      ensures i in receipts + [|held|] <==> i in receipts
    {
    }
  }

  lemma RenewUnfinished(
      held: seq<Attachment>, right: seq<Attachment>, receipts: seq<nat>, k: nat, profile: Profile, lease: Option<real>)
    requires Unfinished(held, right, receipts) && k < |held|
    ensures Unfinished(held[k := held[k].(permissions := profile, lease := lease)],
              right[k := right[k].(lease := lease)],
                       receipts + [k])
  {
    forall i | 0 <= i < |held|
      ensures i in receipts + [k] <==> i in receipts || i == k
    {
    }
  }

  class NativeAcceptancePlane {
    var accessMode: Mode
    var hosts: map<Id, Host>
    var attachments: seq<Attachment>

    function Now(): Plane
      reads this
    {
      Plane(accessMode, hosts, attachments)
    }

    constructor ()
      ensures Now() == NewPlane(Limited)
    {
      accessMode, hosts, attachments := Limited, map[], [];
    }

    method SelectAccessMode(mode: Mode)
      modifies this`accessMode, this`attachments
      ensures Now() == Select(old(Now()), mode)
    {
      accessMode := mode;
      var profile := ProfileOf(mode);
      for i := 0 to |attachments|
        invariant accessMode == mode && |attachments| == old(|attachments|)
        invariant forall k | 0 <= k < i :: attachments[k] == Granted(hosts, mode, old(attachments[k]))
        invariant forall k | i <= k < |attachments| :: attachments[k] == old(attachments[k])
      {
        var a := attachments[i];
        if a.host in hosts && a.session == hosts[a.host].session {
          attachments := attachments[i := a.(permissions := profile)];
        }
      }
      assert attachments == GrantAll(hosts, mode, old(attachments));
    }

    method FindActive(host: Id, generation: nat, session: Id) returns (r: Option<nat>)
      ensures r == Find(attachments, host, generation, session)
    {
      for i := 0 to |attachments|
        invariant forall k | 0 <= k < i :: !Serves(attachments[k], host, generation, session)
      {
        if Serves(attachments[i], host, generation, session) {
          return Some(i);
        }
      }
      return None;
    }

    /** The inherited handler takes the profile it is given for the mode. */
    method InheritedAttach(host: Id, profile: Profile, session: Id, mount: Bytes, now: real) returns (r: Result<nat>)
      requires host in hosts
      modifies this
      ensures var s, h := old(Now()), old(hosts)[host];
              (Now(), r) ==
              if session != h.session then (s, Rejected(SessionNotFound))
              else if !MountName(mount) then (s, Rejected(BadRequest))
              else
                (Reconnect(s, host).(
                   mode := ModeOf(profile),
                   attachments := s.attachments
                                  + [Attachment(host, h.generation, session, mount, Active, profile,
                                                Some(now + LEASE))]),
                 Ok(|s.attachments|))
    {
      var h := hosts[host];
      if session != h.session {
        return Rejected(SessionNotFound);
      }
      if !MountName(mount) {
        return Rejected(BadRequest);
      }
      r := Ok(|attachments|);
      attachments := attachments + [Attachment(host, h.generation, session, mount, Active, profile, Some(now + LEASE))];
      accessMode := ModeOf(profile);
      hosts := hosts[host := h.(status := Gate.Connected)];
    }

    method AttachHost(host: Id, hint: Option<Profile>, session: Id, mount: Bytes, now: real) returns (r: Result<nat>)
      modifies this
      ensures (Now(), r) == Attach(old(Now()), host, hint, session, mount, now)
    {
      if !MayAttach(Now(), host) {
        return Rejected(HostRevoked);
      }
      if hint.None? {
        return Rejected(PermissionInvalid);
      }
      var h := hosts[host];
      var existing := FindActive(host, h.generation, h.session);
      if existing.None? {
        r := InheritedAttach(host, ProfileOf(accessMode), session, mount, now);
        return;
      }
      var i := existing.value;
      if session != h.session || mount != attachments[i].mount {
        return Rejected(AttachmentConflict);
      }
      attachments := attachments[i := attachments[i].(lease := Some(now + LEASE))];
      hosts := hosts[host := h.(status := Gate.Connected)];
      return Ok(i);
    }

    /** One session of the inherited loop. */
    method InheritedAttachOne(
        id: Id, h: Host, hint: Mode, session: Id, now: real, receipts: seq<nat>, ghost right: seq<Attachment>)
      returns (i: nat)
      requires Unfinished(attachments, right, receipts) && Places(receipts, |attachments|)
      modifies this`attachments
      ensures Unfinished(attachments, AttachOne(right, id, h, accessMode, session, now), receipts + [i])
      ensures Places(receipts + [i], |attachments|)
    {
      var profile := if hint.Full? && session == h.session then Compute else Personal;
      FindSame(attachments, right, id, h.generation, session);
      var existing := FindActive(id, h.generation, session);
      if existing.None? {
        var a := Attachment(id, h.generation, session, WORKSPACE, Active, profile, Some(now + LEASE));
        ghost var chosen := if session == h.session then ProfileOf(accessMode) else Personal;
        AddUnfinished(attachments, right, receipts, a, chosen);
        i := |attachments|;
        attachments := attachments + [a];
      } else {
        i := existing.value;
        RenewUnfinished(attachments, right, receipts, i, profile, Some(now + LEASE));
        attachments := attachments[i := attachments[i].(permissions := profile, lease := Some(now + LEASE))];
      }
    }

    /** The inherited loop writes the node's hint into every attachment. */
    method InheritedAttachEach(id: Id, h: Host, hint: Mode, sessions: seq<Id>, now: real) returns (receipts: seq<nat>)
      modifies this`attachments
      ensures var right := AttachEach(old(attachments), id, h, accessMode, sessions, now);
              && Unfinished(attachments, right, receipts) && Places(receipts, |attachments|)
              && OwnersChoice(right, old(attachments), h, accessMode)
    {
      receipts := [];
      ghost var right := attachments;
      for k := 0 to |sessions|
        invariant AttachEach(right, id, h, accessMode, sessions[k..], now)
                  == AttachEach(old(attachments), id, h, accessMode, sessions, now)
        invariant Unfinished(attachments, right, receipts) && Places(receipts, |attachments|)
        invariant OwnersChoice(right, old(attachments), h, accessMode)
      {
        assert sessions[k..][0] == sessions[k] && sessions[k..][1..] == sessions[k + 1..];
        AttachOneIsOwnersChoice(right, old(attachments), id, h, accessMode, sessions[k], now);
        var i := InheritedAttachOne(id, h, hint, sessions[k], now, receipts, right);
        receipts := receipts + [i];
        right := AttachOne(right, id, h, accessMode, sessions[k], now);
      }
    }

    /** The override puts the owner's choice back. */
    method AttachToWorkspaces(host: Id, hint: Mode, sessions: seq<Id>, catalog: set<Id>, now: real)
      returns (fault: Option<Fault>)
      modifies this
      ensures (Now(), fault) == AttachWorkspaces(old(Now()), host, sessions, catalog, now)
    {
      if !MayAttach(Now(), host) {
        return Some(HostRevoked);
      }
      if !(1 <= |sessions| <= MAX_WORKSPACES) || !DistinctIds(sessions) {
        return Some(BadRequest);
      }
      if exists w | w in sessions :: w !in catalog {
        return Some(WorkspaceNotFound);
      }
      var h := hosts[host];
      var profiles := seq(|attachments|, i requires 0 <= i < |attachments| reads this => attachments[i].permissions);
      var receipts := InheritedAttachEach(host, h, hint, sessions, now);
      hosts := hosts[host := h.(status := Gate.Connected)];
      assert |profiles| == old(|attachments|);
      RestoreProfiles(h, profiles, receipts, AttachEach(old(attachments), host, h, accessMode, sessions, now));
      return None;
    }

    method RestoreProfiles(h: Host, profiles: seq<Profile>, receipts: seq<nat>, ghost right: seq<Attachment>)
      requires Unfinished(attachments, right, receipts) && Places(receipts, |attachments|)
      requires forall i | 0 <= i < |right| ::
                 right[i].permissions == Final(profiles, h, accessMode, i, right[i].session)
      modifies this`attachments
      ensures attachments == right
    {
      for k := 0 to |receipts|
        invariant Unfinished(attachments, right, receipts[k..])
      {
        var i := receipts[k];
        assert receipts[k..] == [i] + receipts[k + 1..] && i in receipts;
        var profile := if i < |profiles| then profiles[i]
                       else if attachments[i].session == h.session then ProfileOf(accessMode) else Personal;
        attachments := attachments[i := attachments[i].(permissions := profile)];
      }
    }

    method TransitionTo(host: Id, status: Gate.Status) returns (fault: Option<Fault>)
      modifies this`hosts, this`attachments
      ensures (Now(), fault) == Transition(old(Now()), host, status)
    {
      if host !in hosts {
        return Some(HostRevoked);
      }
      var h := hosts[host];
      if h.status.Revoked? || (status.Disconnected? && !h.status.Connected?) {
        return Some(HostTransitionConflict);
      }
      for i := 0 to |attachments|
        invariant hosts == old(hosts) && |attachments| == old(|attachments|)
        invariant forall k | 0 <= k < i :: attachments[k] == Fenced(host, h.generation, status, old(attachments[k]))
        invariant forall k | i <= k < |attachments| :: attachments[k] == old(attachments[k])
      {
        var a := attachments[i];
        if a.host == host && a.generation == h.generation && a.life.Active? {
          attachments := attachments[i := a.(life := Ended(status), lease := None)];
        }
      }
      assert attachments == FenceAll(host, h.generation, status, old(attachments));
      hosts := hosts[host := h.(status := status, generation := h.generation + 1)];
      return None;
    }
  }
}
