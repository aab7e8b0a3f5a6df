/** Which completions of a command are accepted, and from whom. */
module AppCompletion {
  import opened Prelude
  import Gate = RequestGate
  import Owner = OwnerAuthority
  import opened AppGrants

  /** A command that nobody claimed has the empty token, a claimed one has a token, a
      canceled one has none. */
  ghost predicate TokensPlain(s: Apps) {
    forall i | 0 <= i < |s.commands| ::
      && (s.commands[i].progress.Queued? ==> s.commands[i].token == Some([]))
      && (s.commands[i].progress.Claimed? ==> s.commands[i].token.Some?)
      && (s.commands[i].progress.Canceled? ==> s.commands[i].token.None?)
  }

  lemma TokensPlainInitially()
    ensures TokensPlain(NewApps())
  {
  }

  lemma {:induction false} SupervisionKeepsCommands(s: Apps, c: Caller, rs: seq<Report>)
    ensures SuperviseAll(s, c, rs).0.commands == s.commands
    decreases |rs|
  {
    if rs != [] && !rs[0].Malformed? {
      SupervisionKeepsCommands(SuperviseOne(s, c, rs[0]).0, c, rs[1..]);
    }
  }

  lemma StepKeepsTokensPlain(s: Apps, e: Event)
    requires TokensPlain(s)
    ensures TokensPlain(Step(s, e))
  {
    if e.AppsClaimed? && e.host in s.plane.hosts {
      SupervisionKeepsCommands(s, CallerOf(s, e.host, e.now), e.reports);
    }
  }

  lemma {:induction false} RunKeepsTokensPlain(s: Apps, es: seq<Event>)
    requires TokensPlain(s)
    ensures TokensPlain(Run(s, es))
    decreases |es|
  {
    if es != [] {
      StepKeepsTokensPlain(s, es[0]);
      RunKeepsTokensPlain(Step(s, es[0]), es[1..]);
    }
  }

  /** What a completion must send for a command. */
  predicate Opens(c: Command, given: Option<Bytes>) {
    match c.progress
    case Queued => given == Some([])
    case Canceled => given.None?
    case Claimed => given.Some? && given == c.token
    case Completed => false
  }

  /** Which completions are accepted, told from a command's progress and what was sent:
      a queued command by the empty token, a canceled one by no token at all, a claimed
      one by the token of its claim, a completed one never. */
  lemma CompletionIsAccepted(es: seq<Event>, command: nat, given: Option<Bytes>, outcome: Outcome)
    ensures var s := Run(NewApps(), es);
            Complete(s, command, given, Some(outcome)).1.None?
            <==> command < |s.commands| && Opens(s.commands[command], given)
  {
    TokensPlainInitially();
    RunKeepsTokensPlain(NewApps(), es);
  }

  /** A deregistration that was only queued is completed with the empty token, and ends
      a live grant. */
  lemma QueuedCommandExample(s: Apps, name: Id)
    ensures var s1 := Step(s, Enqueued(Unregister(name)));
            var (s2, fault) := Complete(s1, |s.commands|, Some([]), Some(Succeeded));
            && fault.None? && s2.commands[|s.commands|].progress.Completed? && name !in s2.grants
            && (forall n | n in s.grants && n != name :: n in s2.grants)
  {
  }

  /** A command canceled by a disconnect is completed by sending no token. */
  lemma CanceledCommandExample(s: Apps, kind: Kind, host: Id)
    requires host in s.plane.hosts && s.plane.hosts[host].status.Connected?
    ensures var s1 := Step(Step(s, Enqueued(kind)), OwnerEvent(Owner.Disconnected(host)));
            var (s2, fault) := Complete(s1, |s.commands|, None, Some(Succeeded));
            && s1.commands[|s.commands|].progress.Canceled?
            && fault.None? && s2.commands[|s.commands|].progress.Completed?
  {
    var s0 := Step(s, Enqueued(kind));
    assert Fences(s0.plane, Owner.Disconnected(host));
    assert CancelAll(s0.commands)[|s.commands|] == Cancel(s0.commands[|s.commands|]);
  }
}
