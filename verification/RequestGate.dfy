/** The gate that every signed request passes: syntax, rate, freshness, generation,
    signature, and the one use of its sequence number. */
module RequestGate {
  import opened Prelude
  import opened Der

  const RATE_LIMIT := 180
  const RATE_WINDOW := 60.0
  const MAX_SKEW := 60.0

  datatype Status = PendingProof | Connected | Disconnected | Revoked

  /** `bound` says whether the host enrolled with this deployment. */
  datatype Host = Host(key: Bytes, status: Status, generation: nat, bound: bool, consumed: set<(nat, nat)>)

  datatype Window = Window(count: nat, resetAt: real)

  /** A request with its headers; None stands for one that does not have the form its
      check asks for. */
  datatype Signed = Signed(
    host: Option<Id>, p256: bool, signature: Option<Bytes>,
    timestamp: Option<nat>, generation: Option<nat>, sequence: Option<nat>, content: Bytes)

  /** The text under a signature, and signature verification. Nothing is known about
      either. */
  const Canonical: (Bytes, nat, nat) -> Bytes
  const Verifies: (Bytes, Bytes, Bytes) -> bool

  /** A request that was let through, with the host's status and the time. */
  datatype Accepted = Accepted(
    host: Id, key: Bytes, generation: nat, sequence: nat, request: Signed, status: Status, at: real)

  /** `issued` holds every host id that was ever drawn, `log` is `signed_requests`. */
  datatype Gate = Gate(windows: map<Id, Window>, hosts: map<Id, Host>, issued: set<Id>, log: seq<Accepted>)

  const NEW_GATE := Gate(map[], map[], {}, [])

  // --------------------------------------------------------------- the checks

  ghost function Syntax(q: Signed): Option<Fault> {
    if q.host.None? then Some(HostIdInvalid)
    else if !q.p256 then Some(AlgorithmUnsupported)
    else if q.signature.None? || !Strict(q.signature.value) then Some(SignatureInvalid)
    else None
  }

  function Abs(x: real): real {
    if x < 0.0 then -x else x
  }

  /** One more request in a host's window, or in a new one. */
  function Tick(w: Option<Window>, now: real): Window {
    if w.None? || now >= w.value.resetAt then Window(1, now + RATE_WINDOW)
    else Window(w.value.count + 1, w.value.resetAt)
  }

  function WindowOf(g: Gate, host: Id): Option<Window> {
    if host in g.windows then Some(g.windows[host]) else None
  }

  predicate Admits(status: Status, allowDisconnected: bool) {
    status.Connected? || (allowDisconnected && status.Disconnected?)
  }

  function Vet(hosts: map<Id, Host>, later: real, q: Signed, allowDisconnected: bool): Option<Fault>
    requires q.host.Some? && q.signature.Some?
  {
    if q.timestamp.None? || q.generation.None? || q.sequence.None? then Some(HeaderInvalid)
    else if Abs(later - q.timestamp.value as real) > MAX_SKEW then Some(TimestampOutOfRange)
    else if q.host.value !in hosts then Some(HostRevoked)
    else
      var h := hosts[q.host.value];
      if !Admits(h.status, allowDisconnected) || h.generation < 1 then Some(HostRevoked)
      else if q.generation.value != h.generation then Some(HostGenerationStale)
      else if !h.bound then Some(DeploymentMismatch)
      else if !Verifies(h.key, Canonical(q.content, q.timestamp.value, q.sequence.value), q.signature.value)
      then Some(SignatureInvalid)
      else if (h.generation, q.sequence.value) in h.consumed then Some(SequenceReplayed)
      else None
  }

  function Consume(g: Gate, later: real, q: Signed): Gate
    requires q.host.Some? && q.host.value in g.hosts && q.sequence.Some?
  {
    var h := g.hosts[q.host.value];
    g.(hosts := g.hosts[q.host.value := h.(consumed := h.consumed + {(h.generation, q.sequence.value)})],
       log := g.log + [Accepted(q.host.value, h.key, h.generation, q.sequence.value, q, h.status, later)])
  }

  /** `now` and `later` are the two readings of the clock. */
  ghost function Attempt(g: Gate, now: real, later: real, q: Signed, allowDisconnected: bool): (Gate, Option<Fault>) {
    if Syntax(q).Some? then (g, Syntax(q))
    else
      var w := Tick(WindowOf(g, q.host.value), now);
      var g1 := g.(windows := g.windows[q.host.value := w]);
      if w.count > RATE_LIMIT then (g1, Some(RateLimited))
      else
        var fault := Vet(g.hosts, later, q, allowDisconnected);
        if fault.Some? then (g1, fault) else (Consume(g1, later, q), None)
  }

  // --------------------------------------------------------------------- runs

  /** Besides requests: enrolments, whatever moves a host's status and generation, and
      forgetting a host. */
  datatype Event =
    | Requested(now: real, later: real, request: Signed, allowDisconnected: bool)
    | Enrolled(id: Id, key: Bytes)
    | Moved(id: Id, status: Status, generation: nat)
    | Forgotten(id: Id)

  ghost function Step(g: Gate, e: Event): Gate {
    match e
    case Requested(now, later, q, allow) => Attempt(g, now, later, q, allow).0
    case Enrolled(id, key) =>
      g.(hosts := g.hosts[id := Host(key, PendingProof, 0, true, {})], issued := g.issued + {id})
    case Moved(id, status, generation) =>
      if id in g.hosts then g.(hosts := g.hosts[id := g.hosts[id].(status := status, generation := generation)]) else g
    case Forgotten(id) => g.(hosts := g.hosts - {id})
  }

  /** Host ids are drawn fresh. */
  ghost predicate Orderly(g: Gate, e: Event) {
    e.Enrolled? ==> e.id !in g.issued
  }

  ghost function Run(g: Gate, es: seq<Event>): Gate
    decreases |es|
  {
    if es == [] then g else Run(Step(g, es[0]), es[1..])
  }

  ghost predicate OrderlyRun(g: Gate, es: seq<Event>)
    decreases |es|
  {
    es == [] || (Orderly(g, es[0]) && OrderlyRun(Step(g, es[0]), es[1..]))
  }

  // -------------------------------------------------------- one use of a number

  ghost predicate SameNumber(a: Accepted, b: Accepted) {
    a.host == b.host && a.generation == b.generation && a.sequence == b.sequence
  }

  /** Signed, low-S, for this generation and number, by the host's key, not more than a
      minute off, and by a host that was neither pending nor revoked. */
  ghost predicate Authentic(a: Accepted) {
    var q := a.request;
    && q.host == Some(a.host) && q.generation == Some(a.generation) && q.sequence == Some(a.sequence)
    && q.signature.Some? && q.timestamp.Some? && Strict(q.signature.value)
    && Verifies(a.key, Canonical(q.content, q.timestamp.value, a.sequence), q.signature.value)
    && a.generation >= 1 && (a.status.Connected? || a.status.Disconnected?)
    && -MAX_SKEW <= a.at - q.timestamp.value as real <= MAX_SKEW
  }

  /** What an accepted request leaves behind while its host exists. */
  ghost predicate Remembered(g: Gate, a: Accepted) {
    && a.host in g.issued
    && (a.host in g.hosts ==>
          g.hosts[a.host].key == a.key && (a.generation, a.sequence) in g.hosts[a.host].consumed)
  }

  ghost predicate Sound(g: Gate) {
    && g.hosts.Keys <= g.issued
    && (forall a | a in g.log :: Remembered(g, a) && Authentic(a))
    && (forall i, j | 0 <= i < j < |g.log| :: !SameNumber(g.log[i], g.log[j]))
  }

  lemma SoundInitially()
    ensures Sound(NEW_GATE)
  {
  }

  lemma ConsumeIsSound(g: Gate, later: real, q: Signed, allowDisconnected: bool)
    requires Sound(g) && Syntax(q).None? && Vet(g.hosts, later, q, allowDisconnected).None?
    ensures Sound(Consume(g, later, q))
  {
    var g' := Consume(g, later, q);
    var last := g'.log[|g.log|];
    assert Authentic(last);
    forall a | a in g'.log
      ensures Remembered(g', a) && Authentic(a)
    {
      if a in g.log {
        assert Remembered(g, a);
      }
    }
    forall i | 0 <= i < |g.log|
      ensures !SameNumber(g'.log[i], last)
    {
      assert g.log[i] in g.log && Remembered(g, g.log[i]);
    }
  }

  lemma StepIsSound(g: Gate, e: Event)
    requires Sound(g) && Orderly(g, e)
    ensures Sound(Step(g, e))
  {
    if e.Requested? {
      var q := e.request;
      if Syntax(q).None? {
        var g1 := g.(windows := g.windows[q.host.value := Tick(WindowOf(g, q.host.value), e.now)]);
        forall a | a in g1.log
          ensures Remembered(g1, a)
        {
          assert Remembered(g, a);
        }
        if Vet(g1.hosts, e.later, q, e.allowDisconnected).None? {
          ConsumeIsSound(g1, e.later, q, e.allowDisconnected);
        }
      }
    } else {
      forall a | a in g.log
        ensures Remembered(Step(g, e), a)
      {
        assert Remembered(g, a);
      }
    }
  }

  /** Whatever happens to hosts in between, no number of a host's generation is
      accepted twice, and every accepted request was signed by its host. */
  lemma {:induction false} NoNumberTwice(g: Gate, es: seq<Event>)
    requires Sound(g) && OrderlyRun(g, es)
    ensures Sound(Run(g, es)) && g.log <= Run(g, es).log
    decreases |es|
  {
    if es != [] {
      StepIsSound(g, es[0]);
      NoNumberTwice(Step(g, es[0]), es[1..]);
    }
  }

  // --------------------------------------------------------------- being let in

  /** A request whose headers have their form and whose signature is a strict one. */
  ghost predicate Presentable(q: Signed) {
    && q.host.Some? && q.p256 && q.signature.Some? && Strict(q.signature.value)
    && q.timestamp.Some? && q.generation.Some? && q.sequence.Some?
  }

  /** The host's window has room for one more, or is over. */
  ghost predicate HasRoom(g: Gate, host: Id, now: real) {
    host in g.windows && now < g.windows[host].resetAt ==> g.windows[host].count < 180
  }

  /** Signed by a known host of this deployment under its present generation, at most a
      minute off, with a number not used before. */
  ghost predicate Welcome(g: Gate, later: real, q: Signed, allowDisconnected: bool)
    requires Presentable(q)
  {
    && q.host.value in g.hosts
    && var h, n := g.hosts[q.host.value], q.sequence.value;
       && (h.status.Connected? || (allowDisconnected && h.status.Disconnected?))
       && h.generation == q.generation.value >= 1 && h.bound && (h.generation, n) !in h.consumed
       && later - 60.0 <= q.timestamp.value as real <= later + 60.0
       && Verifies(h.key, Canonical(q.content, q.timestamp.value, n), q.signature.value)
  }

  /** A request is let through exactly when it is presentable, its window has room and its
      host is welcome; then its number is used up and it is logged. */
  lemma AttemptIsExact(g: Gate, now: real, later: real, q: Signed, allowDisconnected: bool)
    ensures var (g', fault) := Attempt(g, now, later, q, allowDisconnected);
            && (fault.None? <==>
                  Presentable(q) && HasRoom(g, q.host.value, now) && Welcome(g, later, q, allowDisconnected))
            && (fault.None? ==>
                  var h, h' := g.hosts[q.host.value], g'.hosts[q.host.value];
                  && h' == h.(consumed := h.consumed + {(h.generation, q.sequence.value)})
                  && g'.hosts == g.hosts[q.host.value := h'] && |g'.log| == |g.log| + 1)
            && (fault.Some? ==> g'.hosts == g.hosts && g'.log == g.log)
  {
  }

  // ------------------------------------------------------------------ the rate

  /** A request of this host that the limiter lets past. */
  ghost predicate Passes(g: Gate, e: Event, host: Id) {
    && e.Requested? && Syntax(e.request).None? && e.request.host.value == host
    && Tick(WindowOf(g, host), e.now).count <= RATE_LIMIT
  }

  /** How many pass in a closed interval of time. */
  ghost function Passed(g: Gate, es: seq<Event>, host: Id, low: real, high: real): nat
    decreases |es|
  {
    if es == [] then 0
    else
      (if Passes(g, es[0], host) && low <= es[0].now <= high then 1 else 0)
      + Passed(Step(g, es[0]), es[1..], host, low, high)
  }

  /** The clock does not run backwards. */
  ghost predicate Ordered(es: seq<Event>, since: real)
    decreases |es|
  {
    es == [] ||
    (if es[0].Requested? then since <= es[0].now && Ordered(es[1..], es[0].now) else Ordered(es[1..], since))
  }

  /** What is left of a window's allowance. */
  function Left(w: Window): nat {
    if w.count >= RATE_LIMIT then 0 else RATE_LIMIT - w.count
  }

  /** A step touches a host's window only by counting a request against it. */
  lemma StepTicks(g: Gate, e: Event, host: Id)
    ensures WindowOf(Step(g, e), host)
            == if e.Requested? && Syntax(e.request).None? && e.request.host.value == host
               then Some(Tick(WindowOf(g, host), e.now)) else WindowOf(g, host)
  {
  }

  function Later(e: Event, since: real): real {
    if e.Requested? then e.now else since
  }

  lemma {:induction false} NonePassLate(g: Gate, es: seq<Event>, host: Id, since: real, low: real, high: real)
    requires Ordered(es, since) && high < since
    ensures Passed(g, es, host, low, high) == 0
    decreases |es|
  {
    if es != [] {
      NonePassLate(Step(g, es[0]), es[1..], host, Later(es[0], since), low, high);
    }
  }

  /** Until a window resets, no more pass than it has left. */
  lemma {:induction false} WithinWindow(g: Gate, es: seq<Event>, host: Id, since: real, low: real, high: real)
    requires Ordered(es, since) && host in g.windows && high < g.windows[host].resetAt
    ensures Passed(g, es, host, low, high) <= Left(g.windows[host])
    decreases |es|
  {
    if es != [] {
      StepTicks(g, es[0], host);
      var g' := Step(g, es[0]);
      if es[0].Requested? && high < es[0].now {
        NonePassLate(g', es[1..], host, es[0].now, low, high);
      } else {
        WithinWindow(g', es[1..], host, Later(es[0], since), low, high);
      }
    }
  }

  /** A request that opens a window and those after it, up to the reset: at most 180. */
  lemma OneWindow(g: Gate, es: seq<Event>, host: Id, since: real, low: real, high: real)
    requires es != [] && Ordered(es, since)
    requires es[0].Requested? && Syntax(es[0].request).None? && es[0].request.host.value == host
    requires WindowOf(g, host).None? || es[0].now >= g.windows[host].resetAt
    requires high < es[0].now + RATE_WINDOW
    ensures Passed(g, es, host, low, high) <= RATE_LIMIT
  {
    StepTicks(g, es[0], host);
    WithinWindow(Step(g, es[0]), es[1..], host, es[0].now, low, high);
  }

  /** Within a window's length after its reset, one more window's worth can pass. */
  lemma {:induction false} WithinTwoWindows(g: Gate, es: seq<Event>, host: Id, since: real, low: real, high: real)
    requires Ordered(es, since) && host in g.windows && high < g.windows[host].resetAt + RATE_WINDOW
    ensures Passed(g, es, host, low, high) <= Left(g.windows[host]) + RATE_LIMIT
    decreases |es|
  {
    if es != [] {
      StepTicks(g, es[0], host);
      var g' := Step(g, es[0]);
      if g'.windows[host] != g.windows[host] && es[0].now >= g.windows[host].resetAt {
        WithinWindow(g', es[1..], host, es[0].now, low, high);
      } else {
        WithinTwoWindows(g', es[1..], host, Later(es[0], since), low, high);
      }
    }
  }

  /** With a clock that does not run backwards, at most two windows' worth of a host's
      requests pass in any interval of a window's length, whoever sent them. */
  lemma {:induction false} RateIsBounded(g: Gate, es: seq<Event>, host: Id, since: real, low: real, high: real)
    requires Ordered(es, since) && high <= low + RATE_WINDOW
    ensures Passed(g, es, host, low, high) <= 2 * RATE_LIMIT
    decreases |es|
  {
    if es != [] {
      StepTicks(g, es[0], host);
      var g' := Step(g, es[0]);
      var counted := es[0].Requested? && Syntax(es[0].request).None? && es[0].request.host.value == host;
      if counted && low <= es[0].now {
        WithinTwoWindows(g', es[1..], host, es[0].now, low, high);
        if WindowOf(g, host).None? || es[0].now >= g.windows[host].resetAt {
          assert g'.windows[host] == Window(1, es[0].now + RATE_WINDOW);
        }
      } else {
        RateIsBounded(g', es[1..], host, Later(es[0], since), low, high);
      }
    }
  }

  // ---------------------------------------------------------------- the service

  class Service {
    var windows: map<Id, Window>
    var hosts: map<Id, Host>
    ghost var issued: set<Id>
    var log: seq<Accepted>

    ghost function Now(): Gate
      reads this
    {
      Gate(windows, hosts, issued, log)
    }

    constructor ()
      ensures Now() == NEW_GATE
    {
      windows, hosts, issued, log := map[], map[], {}, [];
    }

    /** A host's place in its window after one more request. */
    method CountRequest(host: Id, now: real) returns (fine: bool)
      modifies this`windows
      ensures var w := Tick(WindowOf(old(Now()), host), now);
              windows == old(windows)[host := w] && (fine <==> w.count <= RATE_LIMIT)
    {
      var count, resetAt := 0, now + RATE_WINDOW;
      if host in windows {
        count, resetAt := windows[host].count, windows[host].resetAt;
      }
      if now >= resetAt {
        count, resetAt := 0, now + RATE_WINDOW;
      }
      count := count + 1;
      windows := windows[host := Window(count, resetAt)];
      fine := count <= RATE_LIMIT;
    }

    method Authenticate(now: real, later: real, q: Signed, allowDisconnected: bool) returns (fault: Option<Fault>)
      modifies this`windows, this`hosts, this`log
      ensures (Now(), fault) == Attempt(old(Now()), now, later, q, allowDisconnected)
    {
      if q.host.None? {
        return Some(HostIdInvalid);
      }
      if !q.p256 {
        return Some(AlgorithmUnsupported);
      }
      if q.signature.None? {
        return Some(SignatureInvalid);
      }
      var strict := IsStrictLowS(q.signature.value);
      if !strict {
        return Some(SignatureInvalid);
      }
      var id := q.host.value;
      var fine := CountRequest(id, now);
      if !fine {
        return Some(RateLimited);
      }
      if q.timestamp.None? || q.generation.None? || q.sequence.None? {
        return Some(HeaderInvalid);
      }
      if Abs(later - q.timestamp.value as real) > MAX_SKEW {
        return Some(TimestampOutOfRange);
      }
      if id !in hosts || !Admits(hosts[id].status, allowDisconnected) || hosts[id].generation < 1 {
        return Some(HostRevoked);
      }
      var h := hosts[id];
      if q.generation.value != h.generation {
        return Some(HostGenerationStale);
      }
      if !h.bound {
        return Some(DeploymentMismatch);
      }
      if !Verifies(h.key, Canonical(q.content, q.timestamp.value, q.sequence.value), q.signature.value) {
        return Some(SignatureInvalid);
      }
      if (h.generation, q.sequence.value) in h.consumed {
        return Some(SequenceReplayed);
      }
      hosts := hosts[id := h.(consumed := h.consumed + {(h.generation, q.sequence.value)})];
      log := log + [Accepted(id, h.key, h.generation, q.sequence.value, q, h.status, later)];
      return None;
    }
  }
}
