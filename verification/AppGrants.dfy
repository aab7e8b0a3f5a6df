/** Applications that run under an owner's grant: registration by a claimed command,
    supervision by the heartbeat of the node, and the revision that a change of the
    access mode moves. */
module AppGrants {
  import opened Prelude
  import Gate = RequestGate
  import Owner = OwnerAuthority

  /** What a claim and every later supervision must agree on. */
  datatype Common = Common(generation: nat, attachment: Option<nat>, revision: nat)

  /** `serial` is the place of the registration that made the grant. */
  datatype Grant = Grant(host: Id, common: Common, mode: Owner.Mode, deadline: real, instance: Option<Id>, serial: nat)

  datatype Kind = Register(name: Id) | Unregister(name: Id) | OtherControl | Http | Plain

  datatype Progress = Queued | Claimed | Completed | Canceled

  datatype Command = Command(kind: Kind, progress: Progress, token: Option<Bytes>)

  datatype Outcome = Succeeded | Failed | Withdrawn

  /** A running application as the node reports it. */
  datatype Report =
    | Malformed
    | Report(session: Id, attachment: Option<nat>, connection: int, revision: int, app: Id, instance: Bytes)

  /** The canonical spelling of a UUID. Nothing is known about it. */
  const IsUuid: Bytes -> bool

  datatype Registration = Registration(name: Id, host: Id, common: Common, mode: Owner.Mode, at: real)

  /** A report that was told to continue, and the registration it rested on. */
  datatype Verdict = Verdict(
    serial: nat, host: Id, session: Id, common: Common, mode: Owner.Mode, report: Report, at: real)

  /** `registrations` and `verdicts` record what happened; no handler reads them. */
  datatype Apps = Apps(
    plane: Owner.Plane, revision: nat, grants: map<Id, Grant>, commands: seq<Command>,
    registrations: seq<Registration>, verdicts: seq<Verdict>)

  const GRANT := 90.0

  // -------------------------------------------------------------- supervision

  /** Whom a request to the application lane acts for, and when. */
  datatype Caller = Caller(host: Id, session: Id, common: Common, allowed: bool, now: real)

  function CallerOf(s: Apps, host: Id, now: real): Caller
    requires host in s.plane.hosts
  {
    var h := s.plane.hosts[host];
    var attachment := Owner.Find(s.plane.attachments, host, h.generation, h.session);
    Caller(host, h.session, Common(h.generation, attachment, s.revision),
           h.status.Connected? && attachment.Some? && !s.plane.mode.Files?, now)
  }

  /** A report that matches the grant of its application in everything but perhaps the
      instance. */
  predicate Exact(s: Apps, c: Caller, r: Report) {
    && c.allowed && r.Report? && r.app in s.grants
    && var g := s.grants[r.app];
       && g.host == c.host && g.deadline > c.now && g.mode == s.plane.mode && g.common == c.common
       && r.session == c.session && r.attachment == c.common.attachment && r.connection == 1
       && r.revision == c.common.revision && IsUuid(r.instance)
  }

  /** The first exact report binds its instance to the grant. */
  function SuperviseOne(s: Apps, c: Caller, r: Report): (Apps, bool) {
    if !Exact(s, c, r) then (s, false)
    else
      var g := s.grants[r.app];
      var instance := g.instance.GetOr(r.instance);
      var yes := r.instance == instance;
      (s.(grants := s.grants[r.app := g.(instance := Some(instance))],
          verdicts := s.verdicts + if !yes then []
                                   else [Verdict(g.serial, c.host, c.session, c.common, s.plane.mode, r, c.now)]),
       yes)
  }

  /** A malformed report ends the request; what was bound before it stays bound. */
  function SuperviseAll(s: Apps, c: Caller, rs: seq<Report>): (Apps, Result<seq<bool>>)
    decreases |rs|
  {
    if rs == [] then (s, Ok([]))
    else if rs[0].Malformed? then (s, Rejected(AppSupervisionInvalid))
    else
      var (s1, yes) := SuperviseOne(s, c, rs[0]);
      var (s2, rest) := SuperviseAll(s1, c, rs[1..]);
      (s2, if rest.Ok? then Ok([yes] + rest.value) else rest)
  }

  // ------------------------------------------------------------------- claims

  predicate Waits(c: Command, appLane: bool) {
    c.progress.Queued? && !c.kind.Plain? == appLane
  }

  function FindQueued(commands: seq<Command>, appLane: bool): (r: Option<nat>)
    ensures r.Some? ==> r.value < |commands| && Waits(commands[r.value], appLane)
  {
    if commands == [] then None
    else if Waits(commands[0], appLane) then Some(0)
    else
      var rest := FindQueued(commands[1..], appLane);
      if rest.None? then None else Some(rest.value + 1)
  }

  function ClaimAt(s: Apps, i: nat, token: Bytes): Apps
    requires i < |s.commands|
  {
    s.(commands := s.commands[i := s.commands[i].(progress := Claimed, token := Some(token))])
  }

  /** A claimed registration makes a grant for ninety seconds. */
  function Granted(s: Apps, c: Caller, kind: Kind): Apps {
    if kind.Register? then
      s.(grants := s.grants[kind.name := Grant(c.host, c.common, s.plane.mode, c.now + GRANT, None, |s.registrations|)],
         registrations := s.registrations + [Registration(kind.name, c.host, c.common, s.plane.mode, c.now)])
    else s
  }

  function ClaimNext(s: Apps, c: Caller, token: Bytes): (Apps, Option<nat>) {
    var next := FindQueued(s.commands, true);
    if !c.allowed || next.None? then (s, None)
    else (Granted(ClaimAt(s, next.value, token), c, s.commands[next.value].kind), next)
  }

  datatype Reply = Reply(continues: seq<bool>, command: Option<nat>)

  function ClaimApps(s: Apps, host: Id, reports: seq<Report>, token: Bytes, now: real): (Apps, Result<Reply>) {
    if host !in s.plane.hosts then (s, Rejected(HostRevoked))
    else
      var c := CallerOf(s, host, now);
      var (s1, continues) := SuperviseAll(s, c, reports);
      if continues.Rejected? then (s1, Rejected(continues.fault))
      else
        var (s2, command) := ClaimNext(s1, c, token);
        (s2, Ok(Reply(continues.value, command)))
  }

  /** The lane for everything that is not an application. */
  function ClaimPlain(s: Apps, token: Bytes): (Apps, Option<nat>) {
    var next := FindQueued(s.commands, false);
    if next.None? then (s, None) else (ClaimAt(s, next.value, token), next)
  }

  /** A registration that did not succeed, or a deregistration that did, ends the
      grant of its name. */
  function EndsGrant(kind: Kind, outcome: Outcome): Option<Id> {
    if kind.Unregister? && outcome.Succeeded? then Some(kind.name)
    else if kind.Register? && !outcome.Succeeded? then Some(kind.name)
    else None
  }

  function Complete(s: Apps, command: nat, token: Option<Bytes>, outcome: Option<Outcome>): (Apps, Option<Fault>) {
    if command >= |s.commands| then (s, Some(CommandNotFound))
    else
      var c := s.commands[command];
      if c.progress.Completed? || token != c.token then (s, Some(CommandLeaseLost))
      else if outcome.None? then (s, Some(CompletionInvalid))
      else
        var ended := EndsGrant(c.kind, outcome.value);
        (s.(commands := s.commands[command := c.(progress := Completed)],
            grants := if ended.Some? then s.grants - {ended.value} else s.grants), None)
  }

  // --------------------------------------------------------------------- runs

  datatype Event =
    | OwnerEvent(event: Owner.Event)
    | Enqueued(kind: Kind)
    | AppsClaimed(host: Id, reports: seq<Report>, token: Bytes, now: real)
    | PlainClaimed(plainToken: Bytes)
    | CommandCompleted(command: nat, given: Option<Bytes>, outcome: Option<Outcome>)

  function Cancel(c: Command): Command {
    if c.progress.Queued? || c.progress.Claimed? then c.(progress := Canceled, token := None) else c
  }

  function CancelAll(commands: seq<Command>): (r: seq<Command>)
    ensures |r| == |commands| && forall i | 0 <= i < |commands| :: r[i] == Cancel(commands[i])
  {
    if commands == [] then [] else [Cancel(commands[0])] + CancelAll(commands[1..])
  }

  /** A transition that happens also empties the queue. */
  predicate Fences(s: Owner.Plane, e: Owner.Event) {
    || (e.Disconnected? && Owner.Transition(s, e.id, Gate.Disconnected).1.None?)
    || (e.Revoked? && Owner.Transition(s, e.id, Gate.Revoked).1.None?)
  }

  /** A real change of the mode moves the revision. */
  function OwnerStep(s: Apps, e: Owner.Event): Apps {
    s.(plane := Owner.Step(s.plane, e),
       revision := if e.Selected? && e.mode != s.plane.mode then s.revision + 1 else s.revision,
       commands := if Fences(s.plane, e) then CancelAll(s.commands) else s.commands)
  }

  function Step(s: Apps, e: Event): Apps {
    match e
    case OwnerEvent(event) => OwnerStep(s, event)
    case Enqueued(kind) => s.(commands := s.commands + [Command(kind, Queued, Some([]))])
    case AppsClaimed(host, reports, token, now) => ClaimApps(s, host, reports, token, now).0
    case PlainClaimed(token) => ClaimPlain(s, token).0
    case CommandCompleted(command, token, outcome) => Complete(s, command, token, outcome).0
  }

  predicate Orderly(s: Apps, e: Event) {
    e.OwnerEvent? ==> Owner.Orderly(s.plane, e.event)
  }

  function Run(s: Apps, es: seq<Event>): Apps
    decreases |es|
  {
    if es == [] then s else Run(Step(s, es[0]), es[1..])
  }

  predicate OrderlyRun(s: Apps, es: seq<Event>)
    decreases |es|
  {
    es == [] || (Orderly(s, es[0]) && OrderlyRun(Step(s, es[0]), es[1..]))
  }

  // ---------------------------------------------------------------- invariant

  /** A grant is what its registration made. */
  ghost predicate GrantSound(rs: seq<Registration>, name: Id, g: Grant) {
    && g.serial < |rs|
    && rs[g.serial] == Registration(name, g.host, g.common, g.mode, g.deadline - GRANT)
  }

  /** A yes rests on a registration of the same host under the same generation,
      attachment, mode and revision, less than ninety seconds old, and the report said
      so itself; the grants of the files mode are none. */
  ghost predicate VerdictSound(rs: seq<Registration>, v: Verdict) {
    && v.serial < |rs| && v.report.Report?
    && var r := rs[v.serial];
       && r.host == v.host && r.common == v.common && r.mode == v.mode && v.at < r.at + GRANT
       && !v.mode.Files? && v.common.attachment.Some?
       && v.report.app == r.name && v.report.session == v.session && v.report.connection == 1
       && v.report.attachment == r.common.attachment && v.report.revision == r.common.revision
       && IsUuid(v.report.instance)
  }

  /** A yes names the instance that its grant, while it lasts, is bound to. */
  ghost predicate Bound(grants: map<Id, Grant>, v: Verdict) {
    forall name | name in grants && grants[name].serial == v.serial ::
      v.report.Report? && grants[name].instance == Some(v.report.instance)
  }

  ghost predicate AllBound(grants: map<Id, Grant>, vs: seq<Verdict>) {
    forall v | v in vs :: Bound(grants, v)
  }

  /** All yes answers for one registration name the same instance. */
  ghost predicate OneInstance(vs: seq<Verdict>) {
    forall v, w | v in vs && w in vs && v.serial == w.serial ::
      v.report.Report? && w.report.Report? && v.report.instance == w.report.instance
  }

  /** A registration belongs to a host and a revision that were current when made. */
  ghost predicate Dated(s: Apps, r: Registration) {
    && r.common.revision <= s.revision
    && r.host in s.plane.hosts && r.common.generation <= s.plane.hosts[r.host].generation
  }

  ghost predicate Sound(s: Apps) {
    && (forall name | name in s.grants :: GrantSound(s.registrations, name, s.grants[name]))
    && (forall v | v in s.verdicts :: VerdictSound(s.registrations, v))
    && AllBound(s.grants, s.verdicts) && OneInstance(s.verdicts)
    && (forall r | r in s.registrations :: Dated(s, r))
  }

  ghost predicate Gone(grants: map<Id, Grant>, i: nat) {
    forall name | name in grants :: grants[name].serial != i
  }

  /** A registration that no yes can rest on any more: replaced, ended, or overtaken by
      the revision or by its host's generation. */
  ghost predicate Dead(s: Apps, i: nat)
    requires i < |s.registrations|
  {
    var r := s.registrations[i];
    || Gone(s.grants, i)
    || r.common.revision < s.revision
    || (r.host in s.plane.hosts && r.common.generation < s.plane.hosts[r.host].generation)
  }

  /** What every step keeps: soundness, the records, the deaths; and no new yes rests
      on a registration that was dead. */
  ghost predicate Follows(s: Apps, s': Apps) {
    && Sound(s') && s.registrations <= s'.registrations && s.verdicts <= s'.verdicts
    && (forall i | 0 <= i < |s.registrations| && Dead(s, i) :: Dead(s', i))
    && (forall k | |s.verdicts| <= k < |s'.verdicts| && s'.verdicts[k].serial < |s.registrations| ::
          !Dead(s, s'.verdicts[k].serial))
  }

  function NewApps(): Apps {
    Apps(Owner.NewPlane(Owner.Full), 1, map[], [], [], [])
  }

  lemma SoundInitially()
    ensures Sound(NewApps())
  {
  }

  lemma NewVerdictIsSound(s: Apps, c: Caller, r: Report)
    requires Sound(s) && SuperviseOne(s, c, r).1 && c.host in s.plane.hosts && c == CallerOf(s, c.host, c.now)
    ensures var v := Verdict(s.grants[r.app].serial, c.host, c.session, c.common, s.plane.mode, r, c.now);
            var s' := SuperviseOne(s, c, r).0;
            && s'.verdicts == s.verdicts + [v] && VerdictSound(s.registrations, v) && Bound(s'.grants, v)
            && forall w | w in s.verdicts && w.serial == v.serial :: w.report.Report? && w.report.instance == r.instance
  {
    var g := s.grants[r.app];
    assert GrantSound(s.registrations, r.app, g);
    forall w | w in s.verdicts && w.serial == g.serial
      ensures w.report.Report? && w.report.instance == r.instance
    {
      assert Bound(s.grants, w);
    }
    var s' := SuperviseOne(s, c, r).0;
    forall name | name in s'.grants && s'.grants[name].serial == g.serial
      ensures s'.grants[name].instance == Some(r.instance)
    {
      assert GrantSound(s.registrations, name, s.grants[name]);
    }
  }

  lemma BindingKeepsBound(s: Apps, c: Caller, r: Report)
    requires Sound(s)
    ensures var s' := SuperviseOne(s, c, r).0;
            && AllBound(s'.grants, s.verdicts)
            && forall name | name in s'.grants :: GrantSound(s'.registrations, name, s'.grants[name])
  {
    var s' := SuperviseOne(s, c, r).0;
    forall v | v in s.verdicts
      ensures Bound(s'.grants, v)
    {
      assert Bound(s.grants, v);
    }
    forall name | name in s'.grants
      ensures GrantSound(s'.registrations, name, s'.grants[name])
    {
      assert GrantSound(s.registrations, name, s.grants[name]);
    }
  }

  lemma SuperviseOneFollows(s: Apps, c: Caller, r: Report)
    requires Sound(s) && c.host in s.plane.hosts && c == CallerOf(s, c.host, c.now)
    ensures Follows(s, SuperviseOne(s, c, r).0)
  {
    var (s', yes) := SuperviseOne(s, c, r);
    BindingKeepsBound(s, c, r);
    assert forall q | q in s'.registrations :: Dated(s, q) ==> Dated(s', q);
    if yes {
      NewVerdictIsSound(s, c, r);
      assert GrantSound(s.registrations, r.app, s.grants[r.app]);
    } else {
      assert s'.verdicts == s.verdicts;
    }
  }

  lemma FollowsChains(a: Apps, b: Apps, c: Apps)
    requires Follows(a, b) && Follows(b, c)
    ensures Follows(a, c)
  {
    forall k | |a.verdicts| <= k < |c.verdicts| && c.verdicts[k].serial < |a.registrations|
      ensures !Dead(a, c.verdicts[k].serial)
    {
      if k < |b.verdicts| {
        assert c.verdicts[k] == b.verdicts[k];
      }
    }
  }

  lemma {:induction false} SuperviseAllFollows(s: Apps, c: Caller, rs: seq<Report>)
    requires Sound(s) && c.host in s.plane.hosts && c == CallerOf(s, c.host, c.now)
    ensures var s' := SuperviseAll(s, c, rs).0;
            Follows(s, s') && s'.plane == s.plane && s'.revision == s.revision && s'.commands == s.commands
    decreases |rs|
  {
    if rs != [] && !rs[0].Malformed? {
      var s1 := SuperviseOne(s, c, rs[0]).0;
      SuperviseOneFollows(s, c, rs[0]);
      SuperviseAllFollows(s1, c, rs[1..]);
      FollowsChains(s, s1, SuperviseAll(s1, c, rs[1..]).0);
    }
  }

  /** A step that leaves the records alone, and no grant but perhaps fewer. */
  lemma QuietFollows(s: Apps, s': Apps)
    requires Sound(s) && s'.registrations == s.registrations && s'.verdicts == s.verdicts
    requires s.revision <= s'.revision
    requires forall name | name in s'.grants :: name in s.grants && s'.grants[name] == s.grants[name]
    requires forall h | h in s.plane.hosts ::
               h in s'.plane.hosts && s.plane.hosts[h].generation <= s'.plane.hosts[h].generation
    ensures Follows(s, s')
  {
    forall r | r in s'.registrations
      ensures Dated(s', r)
    {
      assert Dated(s, r);
    }
    forall v | v in s'.verdicts
      ensures Bound(s'.grants, v)
    {
      assert Bound(s.grants, v);
    }
    forall i | 0 <= i < |s.registrations| && Dead(s, i)
      ensures Dead(s', i)
    {
      assert Dated(s, s.registrations[i]);
    }
  }

  lemma GrantedFollows(s: Apps, c: Caller, kind: Kind)
    requires Sound(s) && c.host in s.plane.hosts && c == CallerOf(s, c.host, c.now)
    ensures Follows(s, Granted(s, c, kind))
  {
    var s' := Granted(s, c, kind);
    if kind.Register? {
      forall v | v in s.verdicts
        ensures VerdictSound(s'.registrations, v) && Bound(s'.grants, v)
      {
        assert VerdictSound(s.registrations, v) && Bound(s.grants, v);
      }
      forall name | name in s'.grants
        ensures GrantSound(s'.registrations, name, s'.grants[name])
      {
        if name != kind.name {
          assert GrantSound(s.registrations, name, s.grants[name]);
        }
      }
      forall r | r in s'.registrations
        ensures Dated(s', r)
      {
        if r in s.registrations {
          assert Dated(s, r);
        }
      }
    }
  }

  lemma ClaimFollows(s: Apps, host: Id, reports: seq<Report>, token: Bytes, now: real)
    requires Sound(s)
    ensures Follows(s, ClaimApps(s, host, reports, token, now).0)
  {
    QuietFollows(s, s);
    if host in s.plane.hosts {
      var c := CallerOf(s, host, now);
      var (s1, continues) := SuperviseAll(s, c, reports);
      SuperviseAllFollows(s, c, reports);
      var next := FindQueued(s1.commands, true);
      if continues.Ok? && c.allowed && next.Some? {
        var s2 := ClaimAt(s1, next.value, token);
        QuietFollows(s1, s2);
        FollowsChains(s, s1, s2);
        GrantedFollows(s2, c, s1.commands[next.value].kind);
        FollowsChains(s, s2, Granted(s2, c, s1.commands[next.value].kind));
      }
    }
  }

  lemma StepFollows(s: Apps, e: Event)
    requires Sound(s) && Orderly(s, e)
    ensures Follows(s, Step(s, e))
  {
    match e
    case OwnerEvent(event) =>
      Owner.StepIsOnward(s.plane, event);
      QuietFollows(s, Step(s, e));
    case AppsClaimed(host, reports, token, now) => ClaimFollows(s, host, reports, token, now);
    case _ => QuietFollows(s, Step(s, e));
  }

  /** In every run, each yes rests on a live, matching, recent registration, all yes
      answers for a registration name one instance, and what is dead stays dead. */
  lemma {:induction false} RunFollows(s: Apps, es: seq<Event>)
    requires Sound(s) && OrderlyRun(s, es)
    ensures Follows(s, Run(s, es))
    decreases |es|
  {
    if es == [] {
      QuietFollows(s, s);
    } else {
      StepFollows(s, es[0]);
      RunFollows(Step(s, es[0]), es[1..]);
      FollowsChains(s, Step(s, es[0]), Run(s, es));
    }
  }

  // ------------------------------------------------------------------ no revival

  /** After a real change of the mode no earlier registration is ever honoured again,
      even when the mode comes back. */
  lemma ModeChangeIsFinal(s: Apps, mode: Owner.Mode, es: seq<Event>)
    requires Sound(s) && mode != s.plane.mode
    requires OrderlyRun(Step(s, OwnerEvent(Owner.Selected(mode))), es)
    ensures var s' := Run(Step(s, OwnerEvent(Owner.Selected(mode))), es);
            |s.verdicts| <= |s'.verdicts|
            && forall k | |s.verdicts| <= k < |s'.verdicts| :: s'.verdicts[k].serial >= |s.registrations|
  {
    var s1 := Step(s, OwnerEvent(Owner.Selected(mode)));
    StepFollows(s, OwnerEvent(Owner.Selected(mode)));
    RunFollows(s1, es);
    forall i | 0 <= i < |s.registrations|
      ensures Dead(s1, i)
    {
      assert Dated(s, s.registrations[i]);
    }
  }

  /** After a disconnect or a revocation none of the host's earlier registrations is
      ever honoured again. */
  lemma TransitionIsFinal(s: Apps, e: Owner.Event, es: seq<Event>)
    requires Sound(s) && Fences(s.plane, e) && OrderlyRun(Step(s, OwnerEvent(e)), es)
    ensures var s' := Run(Step(s, OwnerEvent(e)), es);
            |s.verdicts| <= |s'.verdicts|
            && forall k | |s.verdicts| <= k < |s'.verdicts| ::
                 s'.verdicts[k].host == e.id ==> s'.verdicts[k].serial >= |s.registrations|
  {
    var s1 := Step(s, OwnerEvent(e));
    StepFollows(s, OwnerEvent(e));
    RunFollows(s1, es);
    var s' := Run(s1, es);
    forall k | |s.verdicts| <= k < |s'.verdicts| && s'.verdicts[k].host == e.id
      ensures s'.verdicts[k].serial >= |s.registrations|
    {
      var v := s'.verdicts[k];
      assert VerdictSound(s'.registrations, v);
      if v.serial < |s.registrations| {
        assert s'.registrations[v.serial] == s.registrations[v.serial] && Dated(s, s.registrations[v.serial]);
        assert Dead(s1, v.serial);
      }
    }
  }

  /** After a deregistration succeeded, or a registration did not, no earlier
      registration of the name is ever honoured again. */
  lemma EndIsFinal(s: Apps, command: nat, given: Option<Bytes>, outcome: Outcome, es: seq<Event>)
    requires Sound(s) && Complete(s, command, given, Some(outcome)).1.None?
    requires EndsGrant(s.commands[command].kind, outcome).Some?
    requires OrderlyRun(Step(s, CommandCompleted(command, given, Some(outcome))), es)
    ensures var s' := Run(Step(s, CommandCompleted(command, given, Some(outcome))), es);
            && |s.verdicts| <= |s'.verdicts| && s.registrations <= s'.registrations
            && forall k | |s.verdicts| <= k < |s'.verdicts| && s'.verdicts[k].serial < |s.registrations| ::
                 s.registrations[s'.verdicts[k].serial].name != EndsGrant(s.commands[command].kind, outcome).value
  {
    var e := CommandCompleted(command, given, Some(outcome));
    var s1 := Step(s, e);
    StepFollows(s, e);
    RunFollows(s1, es);
    var s' := Run(s1, es);
    var name := EndsGrant(s.commands[command].kind, outcome).value;
    forall i | 0 <= i < |s.registrations| && s.registrations[i].name == name
      ensures Dead(s1, i)
    {
      assert forall n | n in s1.grants :: GrantSound(s.registrations, n, s1.grants[n]);
      assert Gone(s1.grants, i);
    }
  }

  // ---------------------------------------------------------------- the service

  class AcceptancePlane {
    const native: Owner.NativeAcceptancePlane
    var accessRevision: nat
    var grants: map<Id, Grant>
    var commands: seq<Command>
    var registrations: seq<Registration>
    var verdicts: seq<Verdict>

    ghost function Now(): Apps
      reads this, native
    {
      Apps(native.Now(), accessRevision, grants, commands, registrations, verdicts)
    }

    constructor ()
      ensures Now() == NewApps()
      ensures fresh(native)
    {
      native := new Owner.NativeAcceptancePlane();
      accessRevision, grants, commands, registrations, verdicts := 1, map[], [], [], [];
      new;
      native.SelectAccessMode(Owner.Full);
    }

    method SelectAccessMode(mode: Owner.Mode)
      modifies this`accessRevision, native
      ensures Now() == OwnerStep(old(Now()), Owner.Selected(mode))
    {
      var previous := native.accessMode;
      native.SelectAccessMode(mode);
      if mode != previous {
        accessRevision := accessRevision + 1;
      }
    }

    /** Disconnecting and revoking; `status` says which. */
    method TransitionTo(host: Id, status: Gate.Status) returns (fault: Option<Fault>)
      requires status.Disconnected? || status.Revoked?
      modifies this`commands, native
      ensures Now() == OwnerStep(old(Now()), if status.Revoked? then Owner.Revoked(host) else Owner.Disconnected(host))
      ensures fault == Owner.Transition(old(native.Now()), host, status).1
    {
      fault := native.TransitionTo(host, status);
      if fault.Some? {
        return;
      }
      for i := 0 to |commands|
        invariant |commands| == old(|commands|) && native.Now() == Owner.Transition(old(native.Now()), host, status).0
        invariant accessRevision == old(accessRevision)
        invariant forall k | 0 <= k < i :: commands[k] == Cancel(old(commands[k]))
        invariant forall k | i <= k < |commands| :: commands[k] == old(commands[k])
      {
        if commands[i].progress.Queued? || commands[i].progress.Claimed? {
          commands := commands[i := commands[i].(progress := Canceled, token := None)];
        }
      }
      assert commands == CancelAll(old(commands));
    }

    /** One turn of the supervision loop. */
    method Supervise(c: Caller, r: Report) returns (yes: bool)
      requires c.host in native.hosts && c == CallerOf(Now(), c.host, c.now)
      modifies this`grants, this`verdicts
      ensures (Now(), yes) == SuperviseOne(old(Now()), c, r)
    {
      if !r.Report? || !c.allowed || r.app !in grants {
        return false;
      }
      var g := grants[r.app];
      var exact := g.host == c.host && g.deadline > c.now && g.mode == native.accessMode && g.common == c.common
                   && r.session == c.session && r.attachment == c.common.attachment && r.connection == 1
                   && r.revision == c.common.revision && IsUuid(r.instance);
      if !exact {
        return false;
      }
      if g.instance.None? {
        g := g.(instance := Some(r.instance));
      }
      grants := grants[r.app := g];
      yes := Some(r.instance) == g.instance;
      if yes {
        verdicts := verdicts + [Verdict(g.serial, c.host, c.session, c.common, native.accessMode, r, c.now)];
      } else {
        assert verdicts + [] == verdicts;
      }
    }

    ghost function After(front: seq<bool>, rest: (Apps, Result<seq<bool>>)): (Apps, Result<seq<bool>>) {
      (rest.0, if rest.1.Ok? then Ok(front + rest.1.value) else rest.1)
    }

    lemma AfterStep(front: seq<bool>, s: Apps, c: Caller, rs: seq<Report>)
      requires rs != [] && !rs[0].Malformed?
      ensures var (s1, yes) := SuperviseOne(s, c, rs[0]);
              After(front, SuperviseAll(s, c, rs)) == After(front + [yes], SuperviseAll(s1, c, rs[1..]))
    {
      var (s1, yes) := SuperviseOne(s, c, rs[0]);
      var rest := SuperviseAll(s1, c, rs[1..]).1;
      if rest.Ok? {
        assert front + ([yes] + rest.value) == front + [yes] + rest.value;
      }
    }

    method SuperviseReports(c: Caller, rs: seq<Report>) returns (r: Result<seq<bool>>)
      requires c.host in native.hosts && c == CallerOf(Now(), c.host, c.now)
      modifies this`grants, this`verdicts
      ensures (Now(), r) == SuperviseAll(old(Now()), c, rs)
    {
      var continues: seq<bool> := [];
      ghost var whole := SuperviseAll(Now(), c, rs);
      assert After([], whole) == whole by {
        assert whole.1.Ok? ==> [] + whole.1.value == whole.1.value;
      }
      for i := 0 to |rs|
        invariant c == CallerOf(Now(), c.host, c.now)
        invariant whole == After(continues, SuperviseAll(Now(), c, rs[i..]))
      {
        assert rs[i..][0] == rs[i] && rs[i..][1..] == rs[i + 1..];
        if rs[i].Malformed? {
          return Rejected(AppSupervisionInvalid);
        }
        AfterStep(continues, Now(), c, rs[i..]);
        var yes := Supervise(c, rs[i]);
        continues := continues + [yes];
      }
      assert continues + [] == continues;
      return Ok(continues);
    }

    method FindNext(appLane: bool) returns (r: Option<nat>)
      ensures r == FindQueued(commands, appLane)
    {
      for i := 0 to |commands|
        invariant FindQueued(commands, appLane)
                  == var rest := FindQueued(commands[i..], appLane); if rest.None? then None else Some(rest.value + i)
      {
        assert commands[i..][0] == commands[i] && commands[i..][1..] == commands[i + 1..];
        if Waits(commands[i], appLane) {
          return Some(i);
        }
      }
      return None;
    }

    method ClaimAppCommand(c: Caller, token: Bytes) returns (r: Option<nat>)
      modifies this`commands, this`grants, this`registrations
      ensures (Now(), r) == ClaimNext(old(Now()), c, token)
    {
      if !c.allowed {
        return None;
      }
      r := FindNext(true);
      if r.None? {
        return;
      }
      var command := commands[r.value];
      commands := commands[r.value := command.(progress := Claimed, token := Some(token))];
      if command.kind.Register? {
        var serial := |registrations|;
        var g := Grant(c.host, c.common, native.accessMode, c.now + GRANT, None, serial);
        grants := grants[command.kind.name := g];
        registrations := registrations + [Registration(command.kind.name, c.host, c.common, native.accessMode, c.now)];
      }
    }

    method ClaimAppWork(host: Id, reports: seq<Report>, token: Bytes, now: real) returns (r: Result<Reply>)
      modifies this`commands, this`grants, this`registrations, this`verdicts
      ensures (Now(), r) == ClaimApps(old(Now()), host, reports, token, now)
    {
      if host !in native.hosts {
        return Rejected(HostRevoked);
      }
      var h := native.hosts[host];
      var attachment := native.FindActive(host, h.generation, h.session);
      var c := Caller(host, h.session, Common(h.generation, attachment, accessRevision),
                      h.status.Connected? && attachment.Some? && !native.accessMode.Files?, now);
      var continues := SuperviseReports(c, reports);
      if continues.Rejected? {
        return Rejected(continues.fault);
      }
      var command := ClaimAppCommand(c, token);
      return Ok(Reply(continues.value, command));
    }

    method CompleteCommand(command: nat, given: Option<Bytes>, outcome: Option<Outcome>) returns (fault: Option<Fault>)
      modifies this`commands, this`grants
      ensures (Now(), fault) == Complete(old(Now()), command, given, outcome)
    {
      if command >= |commands| {
        return Some(CommandNotFound);
      }
      var c := commands[command];
      if c.progress.Completed? || given != c.token {
        return Some(CommandLeaseLost);
      }
      if outcome.None? {
        return Some(CompletionInvalid);
      }
      commands := commands[command := c.(progress := Completed)];
      match c.kind {
        case Unregister(name) =>
          if outcome.value.Succeeded? {
            grants := grants - {name};
          }
        case Register(name) =>
          if !outcome.value.Succeeded? {
            grants := grants - {name};
          }
        case _ =>
      }
      return None;
    }
  }
}
