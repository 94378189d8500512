/** The decisions of AuthServiceResolver (src/falcon_auth/entitlement/resolver.py), and the resolver
    as a step machine: any number of workers share one cache, auth answers what it likes, the
    clock moves, and every await -- cache get, fetch, cache set -- is a step of its own. */
module Resolvers {
  import opened Wrappers
  import opened TrustContexts
  import opened TrustCaches

  datatype Principal = Principal(
    userRef: string, entitlements: seq<string>, sessionRef: string,
    sessionTrustLevel: int, deviceTrustLevel: int, elevatedUntil: Window,
    actorType: ActorType, actorKind: Option<string>, sessionKind: SessionKind,
    delegations: seq<Delegation>)

  datatype Outcome =
    | Accepted(principal: Principal)
    | SessionMiss
    | Unauthenticated
    | TokenSuperseded
    | AuthzUnavailable
    | AuthzMisconfigured
    | CacheFailure

  /** What auth gives one fetch. A context is one that passed the feed's validation. */
  datatype AuthAnswer = Context(c: TrustContext) | Denied | Unavailable | Misconfigured {
    predicate Live() {
      Context? && c.Enabled()
    }
  }

  /** `sid` and `jti` as the verified token carries them; None for an absent or empty claim. */
  datatype Request = Request(sid: Option<string>, jti: Option<string>, consequential: bool, forceFresh: bool)

  datatype Config = Config(
    routineTtl: real, storageTtl: int, staleness: Secs, strict: bool,
    veto: (string, seq<string>) -> seq<string>,
    offset: int -> real)   // worker -> how far its wall clock is ahead of true time
  {
    predicate Valid() {
      routineTtl >= 0.0 && (staleness.Fin? ==> staleness.s >= 0.0) && storageTtl as real >= routineTtl
    }

    /** The age below which a routine copy is served: min(routine_ttl, max_age). */
    function RoutineBound(forceFresh: bool): real {
      var maxAge := if forceFresh then Fin(0.0) else staleness;
      if maxAge.Fin? && maxAge.s < routineTtl then maxAge.s else routineTtl
    }

    function PrincipalOf(c: TrustContext): Principal {
      Principal(c.userRef, veto(c.userRef, c.grants), c.sessionRef, c.sessionTrustLevel,
                c.deviceTrustLevel, c.elevatedUntil, c.actorType, c.Text(ACTOR_KIND), c.sessionKind,
                c.delegations)
    }
  }

  /** The current-token check; None is a pass. */
  function CheckCurrentJti(cfg: Config, jti: Option<string>, c: TrustContext, age: Secs): Option<Outcome> {
    if cfg.strict && jti.None? then Some(Unauthenticated)
    else if cfg.staleness.Below(age) then (if cfg.strict then Some(AuthzUnavailable) else None)
    else if c.Text(CURRENT_JTI).None? then
      if !cfg.strict then None
      else if CURRENT_JTI !in c.optional then Some(AuthzUnavailable)
      else Some(TokenSuperseded)
    else if jti.None? then Some(Unauthenticated)
    else if jti != c.Text(CURRENT_JTI) then Some(TokenSuperseded)
    else None
  }

  /** Liveness, then the current-token check, then the principal. */
  function Judge(cfg: Config, jti: Option<string>, c: TrustContext, age: Secs): Outcome {
    if !c.Enabled() then SessionMiss
    else match CheckCurrentJti(cfg, jti, c, age)
      case Some(refusal) => refusal
      case None => Accepted(cfg.PrincipalOf(c))
  }

  /** The resolver with no cache at all: one fetch, judged at age zero. */
  function CacheFree(cfg: Config, jti: Option<string>, answer: AuthAnswer): Outcome {
    match answer
    case Context(c) => Judge(cfg, jti, c, Fin(0.0))
    case Denied => SessionMiss
    case Unavailable => AuthzUnavailable
    case Misconfigured => AuthzMisconfigured
  }

  // ---- the step machine ----------------------------------------------------------------------

  /** Where a context in hand came from: auth's answer of that instant, or a stored copy read then. */
  datatype Basis = FromAuth(at: real) | FromRoutineCopy(at: real, reader: int) | FromLastGood(at: real, reader: int)

  /** One resolve's history: when it began, how many fetches it made, whether one found auth
      unavailable, and whether it is past the re-fetch that follows a mismatch against a copy. */
  datatype Trace = Trace(began: real, fetches: nat, sawOutage: bool, retried: bool)

  /** `src` fields index the log of answers: they record provenance and decide nothing. */
  datatype Phase =
    | Reading(req: Request, t: Trace)
    | Fetching(req: Request, t: Trace)
    | Answered(req: Request, t: Trace, answer: AuthAnswer, at: real, src: nat)
    | ReadingLastGood(req: Request, t: Trace)
    | Deciding(req: Request, t: Trace, c: TrustContext, age: Secs, basis: Basis, src: nat)

  datatype AnswerRecord = AnswerRecord(at: real, sid: string, answer: AuthAnswer)

  datatype Finish = Finish(at: real, req: Request, outcome: Outcome, t: Trace,
                           judged: Option<(Basis, Secs)>, src: Option<nat>)

  /** Which answer a stored copy came from, who wrote it, when that call was made and when it took effect. */
  datatype Origin = Origin(src: nat, writer: int, stamped: real, landed: real)

  datatype State = State(
    now: real, entries: Entries, workers: map<int, Phase>,
    answers: seq<AnswerRecord>, finished: seq<Finish>, origins: map<string, Origin>,
    pending: Pending, lateOrigins: map<int, Origin>)   // lateOrigins, like origins, is history only

  datatype Action =
    | Tick(dt: real)
    | Evict(sid: string)
    | Land(id: int)                        // a set that failed for its caller takes effect
    | Start(w: int, req: Request)
    | ReadRoutine(w: int, fault: Fault)
    | Answer(w: int, answer: AuthAnswer)
    | Store(w: int, reply: SetReply, stamped: bool)
    | ReadLastGood(w: int, fault: Fault)
    | Decide(w: int)

  function Goto(s: State, w: int, p: Phase): State {
    s.(workers := s.workers[w := p])
  }

  function End(s: State, w: int, req: Request, outcome: Outcome, t: Trace,
               judged: Option<(Basis, Secs)>, src: Option<nat>): State {
    s.(workers := s.workers - {w},
       finished := s.finished + [Finish(s.now, req, outcome, t, judged, src)])
  }

  predicate Consequential(p: Phase) {
    p.req.consequential || p.t.retried
  }

  /** A worker may take a step when it is at that point of the code. Auth echoes the session it was
      asked for, and a context is one the feed's validation let through, without the stamp's key. */
  predicate Enabled(s: State, a: Action) {
    match a
    case Tick(dt) => dt >= 0.0
    case Evict(_) => true
    case Land(id) => id in s.pending
    case Start(w, req) => w !in s.workers
    case ReadRoutine(w, _) => w in s.workers && s.workers[w].Reading?
    case Answer(w, answer) =>
      && w in s.workers && s.workers[w].Fetching? && s.workers[w].req.sid.Some?
      && (answer.Context? ==>
            && answer.c.Valid() && answer.c.sessionRef == s.workers[w].req.sid.value
            && FETCHED_AT !in answer.c.optional)
    case Store(w, _, _) =>
      && w in s.workers && s.workers[w].Answered? && s.workers[w].req.sid.Some?
      && (s.workers[w].answer.Context? || s.workers[w].answer.Denied?)
    case ReadLastGood(w, _) => w in s.workers && s.workers[w].ReadingLastGood? && s.workers[w].req.sid.Some?
    case Decide(w) => w in s.workers && s.workers[w].Deciding?
  }

  function Step(cfg: Config, s: State, a: Action): State
    requires Enabled(s, a)
  {
    match a
    case Tick(dt) => s.(now := s.now + dt)
    case Evict(sid) => s.(entries := s.entries - {sid})
    case Land(id) => StepLand(cfg, s, id)
    case Start(w, req) => StepStart(cfg, s, w, req)
    case ReadRoutine(w, fault) => StepReadRoutine(cfg, s, w, fault)
    case Answer(w, answer) => StepAnswer(s, w, answer)
    case Store(w, reply, stamped) => StepStore(cfg, s, w, reply, stamped)
    case ReadLastGood(w, fault) => StepReadLastGood(cfg, s, w, fault)
    case Decide(w) => StepDecide(cfg, s, w)
  }

  function StepStart(cfg: Config, s: State, w: int, req: Request): State {
    var t := Trace(s.now, 0, false, false);
    if req.sid.None? then End(s, w, req, Unauthenticated, t, None, None)
    else if !req.consequential && cfg.RoutineBound(req.forceFresh) > 0.0 then Goto(s, w, Reading(req, t))
    else Goto(s, w, Fetching(req, t))
  }

  /** A cache that fails is a miss: the read goes to auth. */
  function StepReadRoutine(cfg: Config, s: State, w: int, fault: Fault): State
    requires w in s.workers && s.workers[w].Reading?
  {
    var p := s.workers[w];
    var clock := s.now + cfg.offset(w);
    var found := if fault.Works? && p.req.sid.Some? then Look(s.entries, p.req.sid.value, clock, s.now) else None;
    if found.Some? && found.value.1.Below(Fin(cfg.RoutineBound(p.req.forceFresh))) then
      Goto(s, w, Deciding(p.req, p.t, found.value.0.Project(clock), found.value.1,
                          FromRoutineCopy(s.now, w), SourceOf(s, p.req.sid.value)))
    else Goto(s, w, Fetching(p.req, p.t))
  }

  function SourceOf(s: State, sid: string): nat {
    if sid in s.origins then s.origins[sid].src else 0
  }

  /** Auth answers. A denial or a context travels back to the worker; an outage sends a routine read
      to the last-good copy and ends a consequential one. */
  function StepAnswer(s: State, w: int, answer: AuthAnswer): State
    requires w in s.workers && s.workers[w].Fetching? && s.workers[w].req.sid.Some?
  {
    var p := s.workers[w];
    var src := |s.answers|;
    var t := p.t.(fetches := p.t.fetches + 1, sawOutage := p.t.sawOutage || answer.Unavailable?);
    var s' := s.(answers := s.answers + [AnswerRecord(s.now, p.req.sid.value, answer)]);
    match answer
    case Misconfigured => End(s', w, p.req, AuthzMisconfigured, t, None, Some(src))
    case Unavailable =>
      if Consequential(p) then End(s', w, p.req, AuthzUnavailable, t, None, Some(src))
      else Goto(s', w, ReadingLastGood(p.req, t))
    case _ => Goto(s', w, Answered(p.req, t, answer, s.now, src))
  }

  /** A set the cache is told of: it takes effect now, later, or never. */
  function SetIn(cfg: Config, s: State, ref: string, value: Stored, o: Origin, reply: SetReply): State {
    s.(entries := AfterSet(s.entries, ref, value, s.now + cfg.storageTtl as real, reply),
       origins := if reply.Lands() && value.Payload? then s.origins[ref := o] else s.origins,
       pending := AfterSetPending(s.pending, ref, value, reply),
       lateOrigins := if reply.Pends() then s.lateOrigins[reply.landing.id := o] else s.lateOrigins)
  }

  function StepLand(cfg: Config, s: State, id: int): State
    requires id in s.pending
  {
    var late := s.pending[id];
    s.(entries := Put(s.entries, late.ref, late.value, s.now + cfg.storageTtl as real),
       origins := if late.value.Payload? && id in s.lateOrigins
                  then s.origins[late.ref := s.lateOrigins[id].(landed := s.now)] else s.origins,
       pending := s.pending - {id})
  }

  /** What the arrival of an answer has the cache do. */
  function Settled(cfg: Config, s: State, w: int, reply: SetReply, stamped: bool): State
    requires w in s.workers && s.workers[w].Answered? && s.workers[w].req.sid.Some?
  {
    var p := s.workers[w];
    var o := Origin(p.src, w, s.now, s.now);
    if p.answer.Live() then
      var doc := if stamped then Stamp(p.answer.c, s.now + cfg.offset(w)) else p.answer.c;
      SetIn(cfg, s, p.answer.c.sessionRef, Payload(doc), o, reply)
    else SetIn(cfg, s, p.req.sid.value, Tombstone, o, reply)
  }

  /** The answer arrives: an ENABLED context is written, anything else forgotten. A failed forget is
      swallowed; a failed write is not. `stamped` is false for the stamp-less copy of an old worker. */
  function StepStore(cfg: Config, s: State, w: int, reply: SetReply, stamped: bool): State
    requires w in s.workers && s.workers[w].Answered? && s.workers[w].req.sid.Some?
    requires s.workers[w].answer.Context? || s.workers[w].answer.Denied?
  {
    var p := s.workers[w];
    var s' := Settled(cfg, s, w, reply, stamped);
    if p.answer.Denied? then End(s', w, p.req, SessionMiss, p.t, None, Some(p.src))
    else if p.answer.Live() && reply.Thrown? then End(s', w, p.req, CacheFailure, p.t, None, Some(p.src))
    else Goto(s', w, Deciding(p.req, p.t, p.answer.c, Fin(0.0), FromAuth(p.at), p.src))
  }

  function StepReadLastGood(cfg: Config, s: State, w: int, fault: Fault): State
    requires w in s.workers && s.workers[w].ReadingLastGood? && s.workers[w].req.sid.Some?
  {
    var p := s.workers[w];
    var clock := s.now + cfg.offset(w);
    var found := if fault.Works? then Look(s.entries, p.req.sid.value, clock, s.now) else None;
    if fault.Raises? then End(s, w, p.req, CacheFailure, p.t, None, None)
    else if found.None? then End(s, w, p.req, AuthzUnavailable, p.t, None, None)
    else Goto(s, w, Deciding(p.req, p.t, found.value.0.Project(clock), found.value.1,
                             FromLastGood(s.now, w), SourceOf(s, p.req.sid.value)))
  }

  /** Judge the context in hand. A mismatch against a copy older than this instant is not final: the
      resolve asks auth once more, as a consequential read. */
  function StepDecide(cfg: Config, s: State, w: int): State
    requires w in s.workers && s.workers[w].Deciding?
  {
    var p := s.workers[w];
    var outcome := Judge(cfg, p.req.jti, p.c, p.age);
    if outcome.TokenSuperseded? && Fin(0.0).Below(p.age) && !p.t.retried then
      Goto(s, w, Fetching(p.req, p.t.(retried := true)))
    else End(s, w, p.req, outcome, p.t, Some((p.basis, p.age)), Some(p.src))
  }

  // ---- runs ----------------------------------------------------------------------------------

  predicate Possible(cfg: Config, s: State, run: seq<Action>)
    decreases |run|
  {
    run == [] || (Enabled(s, run[0]) && Possible(cfg, Step(cfg, s, run[0]), run[1..]))
  }

  function Run(cfg: Config, s: State, run: seq<Action>): State
    requires Possible(cfg, s, run)
    decreases |run|
  {
    if run == [] then s else Run(cfg, Step(cfg, s, run[0]), run[1..])
  }

  lemma RunCons(cfg: Config, s: State, a: Action, rest: seq<Action>)
    requires Enabled(s, a) && Possible(cfg, Step(cfg, s, a), rest)
    ensures Possible(cfg, s, [a] + rest) && Run(cfg, s, [a] + rest) == Run(cfg, Step(cfg, s, a), rest)
  {
  }

  lemma {:induction false} RunAppend(cfg: Config, s: State, a: seq<Action>, b: seq<Action>)
    requires Possible(cfg, s, a) && Possible(cfg, Run(cfg, s, a), b)
    ensures Possible(cfg, s, a + b) && Run(cfg, s, a + b) == Run(cfg, Run(cfg, s, a), b)
    decreases |a|
  {
    if a == [] {
      assert a + b == b;
    } else {
      RunAppend(cfg, Step(cfg, s, a[0]), a[1..], b);
      assert (a + b)[1..] == a[1..] + b;
    }
  }

  predicate OfWorker(a: Action) {
    !a.Tick? && !a.Evict? && !a.Land?
  }

  lemma AnswerTouchesOne(s: State, w: int, answer: AuthAnswer)
    requires w in s.workers && s.workers[w].Fetching? && s.workers[w].req.sid.Some?
    ensures StepAnswer(s, w, answer).workers - {w} == s.workers - {w}
  {
  }

  lemma StoreTouchesOne(cfg: Config, s: State, w: int, reply: SetReply, stamped: bool)
    requires w in s.workers && s.workers[w].Answered? && s.workers[w].req.sid.Some?
    requires s.workers[w].answer.Context? || s.workers[w].answer.Denied?
    ensures StepStore(cfg, s, w, reply, stamped).workers - {w} == s.workers - {w}
  {
  }

  lemma ReadTouchesOne(cfg: Config, s: State, w: int, fault: Fault)
    requires w in s.workers
    ensures s.workers[w].Reading? ==> StepReadRoutine(cfg, s, w, fault).workers - {w} == s.workers - {w}
    ensures s.workers[w].ReadingLastGood? && s.workers[w].req.sid.Some? ==>
              StepReadLastGood(cfg, s, w, fault).workers - {w} == s.workers - {w}
  {
  }

  /** A worker's step touches no other worker. */
  lemma OneWorker(cfg: Config, s: State, a: Action)
    requires OfWorker(a) && Enabled(s, a)
    ensures Step(cfg, s, a).workers - {a.w} == s.workers - {a.w}
  {
    match a
    case Start(w, req) => assert StepStart(cfg, s, w, req).workers - {w} == s.workers - {w};
    case ReadRoutine(w, fault) => ReadTouchesOne(cfg, s, w, fault);
    case Answer(w, answer) => AnswerTouchesOne(s, w, answer);
    case Store(w, reply, stamped) => StoreTouchesOne(cfg, s, w, reply, stamped);
    case ReadLastGood(w, fault) => ReadTouchesOne(cfg, s, w, fault);
    case Decide(w) => assert StepDecide(cfg, s, w).workers - {w} == s.workers - {w};
  }

  // ---- what the others do while a worker awaits ------------------------------------------------

  /** The steps of the others, taken in order; one that cannot be taken, or is this worker's, is passed over. */
  function Interfere(cfg: Config, s: State, w: int, others: seq<Action>): (r: State)
    ensures w in r.workers <==> w in s.workers
    ensures w in s.workers ==> r.workers[w] == s.workers[w]
    decreases |others|
  {
    if others == [] then s
    else if !Enabled(s, others[0]) || (OfWorker(others[0]) && others[0].w == w) then Interfere(cfg, s, w, others[1..])
    else
      TouchesNot(cfg, s, others[0], w);
      Interfere(cfg, Step(cfg, s, others[0]), w, others[1..])
  }

  lemma TouchesNot(cfg: Config, s: State, a: Action, w: int)
    requires Enabled(s, a) && (OfWorker(a) ==> a.w != w)
    ensures w in Step(cfg, s, a).workers <==> w in s.workers
    ensures w in s.workers ==> Step(cfg, s, a).workers[w] == s.workers[w]
  {
    if OfWorker(a) {
      OneWorker(cfg, s, a);
      var s' := Step(cfg, s, a);
      assert w in s'.workers - {a.w} <==> w in s.workers - {a.w};
      assert w in s.workers ==> (s'.workers - {a.w})[w] == (s.workers - {a.w})[w];
    }
  }

  lemma {:induction false} InterfereIsARun(cfg: Config, s: State, w: int, others: seq<Action>)
    returns (run: seq<Action>)
    ensures Possible(cfg, s, run) && Run(cfg, s, run) == Interfere(cfg, s, w, others)
    decreases |others|
  {
    if others == [] {
      run := [];
    } else if !Enabled(s, others[0]) || (OfWorker(others[0]) && others[0].w == w) {
      run := InterfereIsARun(cfg, s, w, others[1..]);
    } else {
      run := InterfereIsARun(cfg, Step(cfg, s, others[0]), w, others[1..]);
      RunCons(cfg, s, others[0], run);
      run := [others[0]] + run;
    }
  }

  /** Nothing the others may do is left out: every run of theirs is an interference. */
  lemma {:induction false} EveryRunInterferes(cfg: Config, s: State, w: int, run: seq<Action>)
    requires Possible(cfg, s, run) && forall a <- run :: OfWorker(a) ==> a.w != w
    ensures Interfere(cfg, s, w, run) == Run(cfg, s, run)
    decreases |run|
  {
    if run != [] {
      assert run[0] in run;
      EveryRunInterferes(cfg, Step(cfg, s, run[0]), w, run[1..]);
    }
  }

  predicate Initial(s: State) {
    s.entries == map[] && s.workers == map[] && s.answers == [] && s.finished == [] && s.origins == map[]
    && s.pending == map[] && s.lateOrigins == map[]
  }
}
