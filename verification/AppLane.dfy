/** When the application lane says yes: which command it hands out, whom it tells to
    continue, and how long a grant lasts. */
module AppLane {
  import opened Prelude
  import Gate = RequestGate
  import Owner = OwnerAuthority
  import opened AppGrants
  import opened AppCompletion

  // ----------------------------------------------------------------- the caller

  /** The place of a host's live attachment to its own session. */
  ghost predicate AttachedAt(s: Apps, host: Id, k: nat) {
    && host in s.plane.hosts && k < |s.plane.attachments|
    && var h, a := s.plane.hosts[host], s.plane.attachments[k];
       a.life.Active? && a.host == host && a.generation == h.generation && a.session == h.session
  }

  /** A connected host with a live attachment to its own session, while the owner's mode is
      limited or full. */
  ghost predicate Entitled(s: Apps, host: Id) {
    && host in s.plane.hosts && s.plane.hosts[host].status.Connected?
    && (exists k :: AttachedAt(s, host, k)) && s.plane.mode in {Owner.Limited, Owner.Full}
  }

  /** What a registration is made under at present: the host's generation, the place of its
      attachment and the revision. */
  ghost predicate Present(s: Apps, host: Id, common: Common) {
    && host in s.plane.hosts && common.generation == s.plane.hosts[host].generation
    && common.revision == s.revision
    && match common.attachment
       case Some(k) => AttachedAt(s, host, k) && forall j | 0 <= j < k :: !AttachedAt(s, host, j)
       case None => forall k :: !AttachedAt(s, host, k)
  }

  lemma CallerIsExact(s: Apps, host: Id, now: real)
    requires host in s.plane.hosts
    ensures var c := CallerOf(s, host, now);
            && (c.allowed <==> Entitled(s, host))
            && c.host == host && c.session == s.plane.hosts[host].session && c.now == now
            && forall common :: Present(s, host, common) <==> c.common == common
  {
    var h := s.plane.hosts[host];
    var found := Owner.Find(s.plane.attachments, host, h.generation, h.session);
    forall k | 0 <= k < |s.plane.attachments|
      ensures AttachedAt(s, host, k) <==> Owner.Serves(s.plane.attachments[k], host, h.generation, h.session)
    {
    }
    if found.Some? {
      assert AttachedAt(s, host, found.value);
    }
  }

  // ------------------------------------------------------------------- commands

  /** The first queued command for the application lane. */
  ghost predicate NextUp(commands: seq<Command>, k: nat) {
    && k < |commands| && commands[k].progress.Queued? && !commands[k].kind.Plain?
    && forall j | 0 <= j < k :: !(commands[j].progress.Queued? && !commands[j].kind.Plain?)
  }

  lemma {:induction false} QueueIsExact(commands: seq<Command>)
    ensures match FindQueued(commands, true)
            case Some(k) => NextUp(commands, k)
            case None => forall j | 0 <= j < |commands| :: !(commands[j].progress.Queued? && !commands[j].kind.Plain?)
    decreases |commands|
  {
    if commands != [] && !Waits(commands[0], true) {
      QueueIsExact(commands[1..]);
      assert forall j | 1 <= j < |commands| :: commands[j] == commands[1..][j - 1];
    }
  }

  lemma OneIsNext(commands: seq<Command>, a: nat, b: nat)
    requires NextUp(commands, a) && NextUp(commands, b)
    ensures a == b
  {
  }

  /** No report is malformed. */
  predicate WellFormed(reports: seq<Report>) {
    forall r | r in reports :: r.Report?
  }

  lemma {:induction false} SupervisionAnswers(s: Apps, c: Caller, rs: seq<Report>)
    ensures SuperviseAll(s, c, rs).1.Ok? <==> WellFormed(rs)
    ensures SuperviseAll(s, c, rs).1.Ok? ==> |SuperviseAll(s, c, rs).1.value| == |rs|
    ensures var s' := SuperviseAll(s, c, rs).0;
            && s'.commands == s.commands && s'.plane == s.plane && s'.revision == s.revision
            && s'.registrations == s.registrations && s'.grants.Keys == s.grants.Keys
    decreases |rs|
  {
    if rs != [] {
      assert rs[0] in rs && forall r :: r in rs <==> r == rs[0] || r in rs[1..];
      if !rs[0].Malformed? {
        SupervisionAnswers(SuperviseOne(s, c, rs[0]).0, c, rs[1..]);
      }
    }
  }

  /** A request of a known host hands out the first queued application command exactly
      while the host is entitled and its reports are well formed; that command is then
      claimed by the token, and a registration has its grant for ninety seconds. */
  lemma ClaimIsExact(s: Apps, host: Id, reports: seq<Report>, token: Bytes, now: real, k: nat, common: Common)
    requires host in s.plane.hosts && NextUp(s.commands, k) && Present(s, host, common)
    ensures var (s', r) := ClaimApps(s, host, reports, token, now);
            && (r.Ok? <==> WellFormed(reports))
            && (r.Ok? ==> |r.value.continues| == |reports|)
            && (r.Ok? && Entitled(s, host) ==>
                  && r.value.command == Some(k)
                  && s'.commands == s.commands[k := s.commands[k].(progress := Claimed, token := Some(token))]
                  && (s.commands[k].kind.Register? ==>
                        var name, serial := s.commands[k].kind.name, |s.registrations|;
                        && name in s'.grants
                        && s'.grants[name] == Grant(host, common, s.plane.mode, now + 90.0, None, serial)
                        && s'.registrations
                           == s.registrations + [Registration(name, host, common, s.plane.mode, now)]))
            && (r.Ok? && !Entitled(s, host) ==> r.value.command.None? && s'.commands == s.commands)
  {
    var c := CallerOf(s, host, now);
    CallerIsExact(s, host, now);
    SupervisionAnswers(s, c, reports);
    var s1 := SuperviseAll(s, c, reports).0;
    QueueIsExact(s1.commands);
    assert FindQueued(s1.commands, true) == Some(k) by {
      if FindQueued(s1.commands, true).Some? {
        OneIsNext(s1.commands, FindQueued(s1.commands, true).value, k);
      }
    }
  }

  /** The other lane hands out the first queued plain command, to whoever asks. */
  lemma PlainClaimIsExact(s: Apps, token: Bytes)
    ensures var (s', r) := ClaimPlain(s, token);
            match r
            case Some(k) =>
              && k < |s.commands| && s.commands[k].progress.Queued? && s.commands[k].kind.Plain?
              && (forall j | 0 <= j < k :: !(s.commands[j].progress.Queued? && s.commands[j].kind.Plain?))
              && s' == s.(commands := s.commands[k := s.commands[k].(progress := Claimed, token := Some(token))])
            case None =>
              s' == s && forall j | 0 <= j < |s.commands| ::
                           !(s.commands[j].progress.Queued? && s.commands[j].kind.Plain?)
  {
    PlainQueueIsExact(s.commands);
  }

  lemma {:induction false} PlainQueueIsExact(commands: seq<Command>)
    ensures match FindQueued(commands, false)
            case Some(k) => forall j | 0 <= j < k :: !(commands[j].progress.Queued? && commands[j].kind.Plain?)
            case None => forall j | 0 <= j < |commands| :: !(commands[j].progress.Queued? && commands[j].kind.Plain?)
    decreases |commands|
  {
    if commands != [] && !Waits(commands[0], false) {
      PlainQueueIsExact(commands[1..]);
      assert forall j | 1 <= j < |commands| :: commands[j] == commands[1..][j - 1];
    }
  }

  /** Without a queued application command none is handed out. */
  lemma NothingToClaim(s: Apps, host: Id, reports: seq<Report>, token: Bytes, now: real)
    requires host in s.plane.hosts && forall k :: !NextUp(s.commands, k)
    ensures var (s', r) := ClaimApps(s, host, reports, token, now);
            s'.commands == s.commands && s'.registrations == s.registrations && (r.Ok? ==> r.value.command.None?)
  {
    SupervisionAnswers(s, CallerOf(s, host, now), reports);
    QueueIsExact(s.commands);
  }

  // ------------------------------------------------------------------- witnesses

  /** A bound grant was bound by a report that was told to continue. */
  ghost predicate Witnessed(s: Apps) {
    forall name | name in s.grants && s.grants[name].instance.Some? ::
      exists v :: v in s.verdicts && v.serial == s.grants[name].serial && v.report.Report?
                  && v.report.instance == s.grants[name].instance.value
  }

  lemma WitnessedInitially()
    ensures Witnessed(NewApps())
  {
  }

  lemma SuperviseOneKeepsWitnessed(s: Apps, c: Caller, r: Report)
    requires Witnessed(s)
    ensures Witnessed(SuperviseOne(s, c, r).0)
  {
    var s' := SuperviseOne(s, c, r).0;
    forall name | name in s'.grants && s'.grants[name].instance.Some?
      ensures exists v :: v in s'.verdicts && v.serial == s'.grants[name].serial && v.report.Report?
                          && v.report.instance == s'.grants[name].instance.value
    {
      if name in s.grants && s.grants[name].instance.Some? {
        var v :| v in s.verdicts && v.serial == s.grants[name].serial && v.report.Report?
                 && v.report.instance == s.grants[name].instance.value;
        assert v in s'.verdicts;
      } else {
        assert s'.verdicts[|s.verdicts|] in s'.verdicts;
      }
    }
  }

  lemma {:induction false} SuperviseAllKeepsWitnessed(s: Apps, c: Caller, rs: seq<Report>)
    requires Witnessed(s)
    ensures Witnessed(SuperviseAll(s, c, rs).0)
    decreases |rs|
  {
    if rs != [] && !rs[0].Malformed? {
      SuperviseOneKeepsWitnessed(s, c, rs[0]);
      SuperviseAllKeepsWitnessed(SuperviseOne(s, c, rs[0]).0, c, rs[1..]);
    }
  }

  /** Fewer grants, or new ones without an instance, need no witness. */
  lemma FewerNeedNone(s: Apps, s': Apps)
    requires Witnessed(s) && s'.verdicts == s.verdicts
    requires forall name | name in s'.grants && s'.grants[name].instance.Some? ::
               name in s.grants && s'.grants[name] == s.grants[name]
    ensures Witnessed(s')
  {
  }

  lemma StepKeepsWitnessed(s: Apps, e: Event)
    requires Witnessed(s)
    ensures Witnessed(Step(s, e))
  {
    if e.AppsClaimed? && e.host in s.plane.hosts {
      var c := CallerOf(s, e.host, e.now);
      SuperviseAllKeepsWitnessed(s, c, e.reports);
      var s1 := SuperviseAll(s, c, e.reports).0;
      FewerNeedNone(s1, ClaimNext(s1, c, e.token).0);
    } else {
      FewerNeedNone(s, Step(s, e));
    }
  }

  lemma {:induction false} RunKeepsWitnessed(s: Apps, es: seq<Event>)
    requires Witnessed(s)
    ensures Witnessed(Run(s, es))
    decreases |es|
  {
    if es != [] {
      StepKeepsWitnessed(s, es[0]);
      RunKeepsWitnessed(Step(s, es[0]), es[1..]);
    }
  }

  // ------------------------------------------------------------------ continuing

  /** A registration that was neither replaced nor ended. */
  ghost predicate Stands(s: Apps, i: nat)
    requires i < |s.registrations|
  {
    s.registrations[i].name in s.grants && s.grants[s.registrations[i].name].serial == i
  }

  /** A report by the host of a registration, naming what holds for both at present. */
  ghost predicate Names(s: Apps, i: nat, host: Id, r: Report)
    requires i < |s.registrations|
  {
    var reg := s.registrations[i];
    && r.Report? && IsUuid(r.instance) && host in s.plane.hosts
    && r.app == reg.name && r.session == s.plane.hosts[host].session && r.connection == 1
    && r.attachment == reg.common.attachment && r.revision == reg.common.revision
  }

  /** Made less than ninety seconds ago by this host under the generation, attachment,
      revision and mode of now. */
  ghost predicate Current(s: Apps, i: nat, host: Id, now: real)
    requires i < |s.registrations|
  {
    var reg := s.registrations[i];
    reg.host == host && Present(s, host, reg.common) && reg.mode == s.plane.mode && now < reg.at + 90.0
  }

  /** The first yes for a registration, or one more for the same instance. */
  ghost predicate SameOrFirst(s: Apps, i: nat, instance: Bytes) {
    forall v | v in s.verdicts && v.serial == i :: v.report.Report? && v.report.instance == instance
  }

  /** In every run: a report on a standing registration of an entitled host is told to
      continue exactly when the registration is current, the report names it, and no other
      instance was told so before. */
  lemma ReportIsExact(es: seq<Event>, host: Id, token: Bytes, now: real, i: nat, r: Report)
    requires OrderlyRun(NewApps(), es)
    requires var s := Run(NewApps(), es);
             && host in s.plane.hosts && i < |s.registrations| && Stands(s, i)
             && r.Report? && r.app == s.registrations[i].name
    ensures var s := Run(NewApps(), es);
            var reply := ClaimApps(s, host, [r], token, now).1;
            && reply.Ok? && |reply.value.continues| == 1
            && (reply.value.continues[0]
                <==> Entitled(s, host) && Current(s, i, host, now) && Names(s, i, host, r)
                     && SameOrFirst(s, i, r.instance))
  {
    OneReport(Run(NewApps(), es), host, token, now, r);
    SoundInitially();
    RunFollows(NewApps(), es);
    WitnessedInitially();
    RunKeepsWitnessed(NewApps(), es);
    ReportOnSound(Run(NewApps(), es), host, now, i, r);
  }

  lemma OneReport(s: Apps, host: Id, token: Bytes, now: real, r: Report)
    requires host in s.plane.hosts && r.Report?
    ensures var reply := ClaimApps(s, host, [r], token, now).1;
            reply.Ok? && reply.value.continues == [SuperviseOne(s, CallerOf(s, host, now), r).1]
  {
    var c := CallerOf(s, host, now);
    assert [r][1..] == [];
    assert SuperviseAll(SuperviseOne(s, c, r).0, c, []) == (SuperviseOne(s, c, r).0, Ok([]));
  }

  lemma ReportOnSound(s: Apps, host: Id, now: real, i: nat, r: Report)
    requires Sound(s) && Witnessed(s) && host in s.plane.hosts && i < |s.registrations| && Stands(s, i)
    requires r.Report? && r.app == s.registrations[i].name
    ensures SuperviseOne(s, CallerOf(s, host, now), r).1
            <==> Entitled(s, host) && Current(s, i, host, now) && Names(s, i, host, r) && SameOrFirst(s, i, r.instance)
  {
    var c := CallerOf(s, host, now);
    CallerIsExact(s, host, now);
    ExactIsNamed(s, host, now, i, r);
    if Exact(s, c, r) {
      InstanceIsFirst(s, i, r.instance);
    }
  }

  lemma ExactIsNamed(s: Apps, host: Id, now: real, i: nat, r: Report)
    requires Sound(s) && host in s.plane.hosts && i < |s.registrations| && Stands(s, i)
    requires r.Report? && r.app == s.registrations[i].name
    ensures Exact(s, CallerOf(s, host, now), r)
            <==> Entitled(s, host) && Current(s, i, host, now) && Names(s, i, host, r)
  {
    CallerIsExact(s, host, now);
    assert GrantSound(s.registrations, r.app, s.grants[r.app]);
  }

  lemma InstanceIsFirst(s: Apps, i: nat, instance: Bytes)
    requires Sound(s) && Witnessed(s) && i < |s.registrations| && Stands(s, i)
    ensures s.grants[s.registrations[i].name].instance.GetOr(instance) == instance <==> SameOrFirst(s, i, instance)
  {
    var g := s.grants[s.registrations[i].name];
    forall v | v in s.verdicts && v.serial == i
      ensures v.report.Report? && g.instance == Some(v.report.instance)
    {
      assert Bound(s.grants, v);
    }
    if g.instance.Some? {
      var v :| v in s.verdicts && v.serial == g.serial && v.report.Report? && v.report.instance == g.instance.value;
    }
  }

  // -------------------------------------------------------- the owner's decisions

  /** Choosing the mode that is already chosen moves nothing; another one moves the revision
      by one, so that no registration made before is current. */
  lemma SelectionIsExact(s: Apps, mode: Owner.Mode)
    ensures var s' := Step(s, OwnerEvent(Owner.Selected(mode)));
            && s'.plane.mode == mode && s'.plane.hosts == s.plane.hosts
            && s'.revision == (if mode == s.plane.mode then s.revision else s.revision + 1)
            && s'.grants == s.grants && s'.commands == s.commands && s'.registrations == s.registrations
  {
  }

  /** A disconnect or revocation that happens cancels exactly the commands that are queued or
      claimed; one that is refused cancels none. */
  lemma TransitionCancels(s: Apps, host: Id, status: Gate.Status)
    requires status.Disconnected? || status.Revoked?
    ensures var e := if status.Revoked? then Owner.Revoked(host) else Owner.Disconnected(host);
            var s' := Step(s, OwnerEvent(e));
            && |s'.commands| == |s.commands| && s'.revision == s.revision && s'.grants == s.grants
            && forall k | 0 <= k < |s.commands| ::
                 s'.commands[k] == if Owner.Transition(s.plane, host, status).1.None?
                                      && (s.commands[k].progress.Queued? || s.commands[k].progress.Claimed?)
                                   then Command(s.commands[k].kind, Canceled, None) else s.commands[k]
  {
  }

  // ------------------------------------------------------------ how long it lasts

  /** The step claims a registration of the name. */
  ghost predicate Replaces(s: Apps, e: Event, name: Id) {
    && |Step(s, e).registrations| > |s.registrations|
    && Step(s, e).registrations[|s.registrations|].name == name
  }

  /** The step completes a deregistration of the name with success, or a registration of it
      without. */
  ghost predicate Ends(s: Apps, e: Event, name: Id) {
    && e.CommandCompleted? && Complete(s, e.command, e.given, e.outcome).1.None? && e.outcome.Some?
    && var kind, won := s.commands[e.command].kind, e.outcome.value.Succeeded?;
       (kind == Unregister(name) && won) || (kind == Register(name) && !won)
  }

  lemma {:induction false} SupervisionKeepsSerials(s: Apps, c: Caller, rs: seq<Report>)
    ensures var s' := SuperviseAll(s, c, rs).0;
            && s'.grants.Keys == s.grants.Keys && s'.registrations == s.registrations
            && forall name | name in s.grants :: s'.grants[name].serial == s.grants[name].serial
    decreases |rs|
  {
    if rs != [] && !rs[0].Malformed? {
      SupervisionKeepsSerials(SuperviseOne(s, c, rs[0]).0, c, rs[1..]);
    }
  }

  /** A registration stands until another of its name is claimed or it is ended. */
  lemma StandsUntil(s: Apps, e: Event, i: nat)
    requires i < |s.registrations| && Stands(s, i)
    ensures i < |Step(s, e).registrations| && Step(s, e).registrations[i] == s.registrations[i]
    ensures Stands(Step(s, e), i) <==> !Replaces(s, e, s.registrations[i].name) && !Ends(s, e, s.registrations[i].name)
  {
    if e.AppsClaimed? && e.host in s.plane.hosts {
      SupervisionKeepsSerials(s, CallerOf(s, e.host, e.now), e.reports);
    }
  }
}
