/** The resolver's guarantees over whole runs, for any number of workers in any interleaving. */
module ResolverTheorems {
  import opened Wrappers
  import opened TrustContexts
  import opened TrustCaches
  import opened Resolvers
  import opened ResolverRuns

  // ---- an ended session stays ended ----------------------------------------------------------

  /** The worker holds an ENABLED answer for the session that it has not finished with. */
  predicate HoldsLive(p: Phase, sid: string) {
    || (p.Answered? && p.answer.Live() && (p.answer.c.sessionRef == sid || p.req.sid == Some(sid)))
    || (p.Deciding? && p.c.Enabled() && p.req.sid == Some(sid))
  }

  predicate NoCopy(s: State, sid: string) {
    sid in s.entries ==> !s.entries[sid].value.Payload?
  }

  /** No copy of the session is still to take effect. */
  predicate NoLateCopy(s: State, sid: string) {
    forall id <- s.pending :: s.pending[id].ref == sid ==> !s.pending[id].value.Payload?
  }

  predicate Ended(s: State, sid: string) {
    NoCopy(s, sid) && NoLateCopy(s, sid) && forall w <- s.workers :: !HoldsLive(s.workers[w], sid)
  }

  /** Auth gives the session no new ENABLED answer during the run. */
  predicate NoNewAnswer(cfg: Config, s: State, run: seq<Action>, sid: string)
    requires Possible(cfg, s, run)
    decreases |run|
  {
    run == [] ||
    (&& !(run[0].Answer? && run[0].answer.Live() && s.workers[run[0].w].req.sid == Some(sid))
     && NoNewAnswer(cfg, Step(cfg, s, run[0]), run[1..], sid))
  }

  /** A step adds nothing to what is finished, or the one resolve of its worker. */
  ghost predicate Finishes(s: State, s': State, sid: string) {
    || s'.finished == s.finished
    || exists f :: s'.finished == s.finished + [f] && (f.req.sid == Some(sid) ==> !f.outcome.Accepted?)
  }

  /** What a worker's own step does when there is no copy of the session, none on its way, and the worker
      holds none. */
  ghost predicate StillEnded(s: State, s': State, w: int, sid: string) {
    && NoCopy(s', sid) && NoLateCopy(s', sid)
    && (w in s'.workers ==> !HoldsLive(s'.workers[w], sid))
    && Finishes(s, s', sid)
  }

  /** The step ends the worker's resolve with no acceptance, or takes it to a phase holding no live answer,
      over a cache without the session's copy. */
  lemma EndedByGoto(s: State, s': State, w: int, p: Phase, sid: string)
    requires NoCopy(s', sid) && NoLateCopy(s', sid) && s'.finished == s.finished && !HoldsLive(p, sid)
    ensures StillEnded(s, Goto(s', w, p), w, sid)
  {
  }

  lemma EndedByEnd(s: State, s': State, w: int, req: Request, outcome: Outcome, t: Trace,
                   judged: Option<(Basis, Secs)>, src: Option<nat>, sid: string)
    requires NoCopy(s', sid) && NoLateCopy(s', sid) && s'.finished == s.finished
    requires req.sid == Some(sid) ==> !outcome.Accepted?
    ensures StillEnded(s, End(s', w, req, outcome, t, judged, src), w, sid)
  {
  }

  lemma EndedStart(cfg: Config, s: State, w: int, req: Request, sid: string)
    requires NoCopy(s, sid) && NoLateCopy(s, sid)
    ensures StillEnded(s, StepStart(cfg, s, w, req), w, sid)
  {
    var t := Trace(s.now, 0, false, false);
    EndedByEnd(s, s, w, req, Unauthenticated, t, None, None, sid);
    EndedByGoto(s, s, w, Reading(req, t), sid);
    EndedByGoto(s, s, w, Fetching(req, t), sid);
  }

  lemma EndedRead(cfg: Config, s: State, w: int, fault: Fault, sid: string)
    requires Enabled(s, ReadRoutine(w, fault)) && NoCopy(s, sid) && NoLateCopy(s, sid)
    ensures StillEnded(s, StepReadRoutine(cfg, s, w, fault), w, sid)
  {
    EndedByGoto(s, s, w, StepReadRoutine(cfg, s, w, fault).workers[w], sid);
  }

  lemma EndedReadLastGood(cfg: Config, s: State, w: int, fault: Fault, sid: string)
    requires Enabled(s, ReadLastGood(w, fault)) && NoCopy(s, sid) && NoLateCopy(s, sid)
    ensures StillEnded(s, StepReadLastGood(cfg, s, w, fault), w, sid)
  {
    var p, r := s.workers[w], StepReadLastGood(cfg, s, w, fault);
    if w in r.workers {
      EndedByGoto(s, s, w, r.workers[w], sid);
    } else {
      EndedByEnd(s, s, w, p.req, CacheFailure, p.t, None, None, sid);
      EndedByEnd(s, s, w, p.req, AuthzUnavailable, p.t, None, None, sid);
    }
  }

  lemma EndedDecide(cfg: Config, s: State, w: int, sid: string)
    requires Enabled(s, Decide(w)) && NoCopy(s, sid) && NoLateCopy(s, sid) && !HoldsLive(s.workers[w], sid)
    ensures StillEnded(s, StepDecide(cfg, s, w), w, sid)
  {
    var p := s.workers[w];
    var outcome := Judge(cfg, p.req.jti, p.c, p.age);
    if outcome.TokenSuperseded? && Fin(0.0).Below(p.age) && !p.t.retried {
      EndedByGoto(s, s, w, Fetching(p.req, p.t.(retried := true)), sid);
    } else {
      EndedByEnd(s, s, w, p.req, outcome, p.t, Some((p.basis, p.age)), Some(p.src), sid);
    }
  }

  lemma EndedAnswer(s: State, w: int, answer: AuthAnswer, sid: string)
    requires Enabled(s, Action.Answer(w, answer)) && NoCopy(s, sid) && NoLateCopy(s, sid)
    requires !(answer.Live() && s.workers[w].req.sid == Some(sid))
    ensures StillEnded(s, StepAnswer(s, w, answer), w, sid)
  {
    var p, r := s.workers[w], StepAnswer(s, w, answer);
    var s' := s.(answers := s.answers + [AnswerRecord(s.now, p.req.sid.value, answer)]);
    if w in r.workers {
      EndedByGoto(s, s', w, r.workers[w], sid);
    } else {
      var f := r.finished[|s.finished|];
      EndedByEnd(s, s', w, f.req, f.outcome, f.t, f.judged, f.src, sid);
    }
  }

  lemma EndedStore(cfg: Config, s: State, w: int, reply: SetReply, stamped: bool, sid: string)
    requires Enabled(s, Store(w, reply, stamped)) && NoCopy(s, sid) && NoLateCopy(s, sid)
    requires !HoldsLive(s.workers[w], sid)
    ensures StillEnded(s, StepStore(cfg, s, w, reply, stamped), w, sid)
  {
    var p, s' := s.workers[w], Settled(cfg, s, w, reply, stamped);
    assert NoCopy(s', sid) && NoLateCopy(s', sid);
    if p.answer.Denied? || (p.answer.Live() && reply.Thrown?) {
      var outcome := if p.answer.Denied? then SessionMiss else CacheFailure;
      EndedByEnd(s, s', w, p.req, outcome, p.t, None, Some(p.src), sid);
    } else {
      EndedByGoto(s, s', w, Deciding(p.req, p.t, p.answer.c, Fin(0.0), FromAuth(p.at), p.src), sid);
    }
  }

  lemma EndedOwnStep(cfg: Config, s: State, a: Action, sid: string)
    requires Ended(s, sid) && Enabled(s, a) && OfWorker(a)
    requires !(a.Answer? && a.answer.Live() && s.workers[a.w].req.sid == Some(sid))
    ensures StillEnded(s, Step(cfg, s, a), a.w, sid)
  {
    match a
    case Start(w, req) => EndedStart(cfg, s, w, req, sid);
    case ReadRoutine(w, fault) => EndedRead(cfg, s, w, fault, sid);
    case Answer(w, answer) => EndedAnswer(s, w, answer, sid);
    case Store(w, reply, stamped) => EndedStore(cfg, s, w, reply, stamped, sid);
    case ReadLastGood(w, fault) => EndedReadLastGood(cfg, s, w, fault, sid);
    case Decide(w) => EndedDecide(cfg, s, w, sid);
  }

  lemma EndedStep(cfg: Config, s: State, a: Action, sid: string)
    requires Ended(s, sid) && Enabled(s, a)
    requires !(a.Answer? && a.answer.Live() && s.workers[a.w].req.sid == Some(sid))
    ensures var s' := Step(cfg, s, a);
            && Ended(s', sid) && s.finished <= s'.finished
            && forall f <- s'.finished[|s.finished|..] :: f.req.sid == Some(sid) ==> !f.outcome.Accepted?
  {
    if OfWorker(a) {
      OthersHoldNothing(cfg, s, a, sid);
      EndedOwnStep(cfg, s, a, sid);
    }
  }

  lemma OthersHoldNothing(cfg: Config, s: State, a: Action, sid: string)
    requires Ended(s, sid) && Enabled(s, a) && OfWorker(a)
    ensures forall v <- Step(cfg, s, a).workers | v != a.w :: !HoldsLive(Step(cfg, s, a).workers[v], sid)
  {
    forall v <- Step(cfg, s, a).workers | v != a.w ensures !HoldsLive(Step(cfg, s, a).workers[v], sid) {
      TouchesNot(cfg, s, a, v);
    }
  }

  /** Once auth has denied a session, its tombstone is stored and no earlier ENABLED answer is still
      in flight, no resolve by any worker -- routine, consequential, fresh or in an outage -- is
      accepted until auth gives a new ENABLED answer. */
  lemma {:induction false} EndedSessionStaysEnded(cfg: Config, s: State, run: seq<Action>, sid: string)
    requires Ended(s, sid) && Possible(cfg, s, run) && NoNewAnswer(cfg, s, run, sid)
    ensures var s' := Run(cfg, s, run);
            && Ended(s', sid) && s.finished <= s'.finished
            && forall f <- s'.finished[|s.finished|..] :: f.req.sid == Some(sid) ==> !f.outcome.Accepted?
    decreases |run|
  {
    if run != [] {
      EndedStep(cfg, s, run[0], sid);
      var m := Step(cfg, s, run[0]);
      EndedSessionStaysEnded(cfg, m, run[1..], sid);
      var s' := Run(cfg, s, run);
      assert s'.finished[|s.finished|..] == m.finished[|s.finished|..] + s'.finished[|m.finished|..];
    }
  }

  /** Exactly when the arrival of a denial ends the session: the tombstone took effect, or there was no
      copy; no other worker holds an ENABLED answer for it; and no earlier write of one is still to take
      effect. (A set on its way is named by an id no other has.) */
  lemma DenialEndsSession(cfg: Config, s: State, w: int, reply: SetReply, sid: string)
    requires Enabled(s, Store(w, reply, true)) && s.workers[w].req.sid == Some(sid)
    requires !s.workers[w].answer.Live() && (reply.Pends() ==> reply.landing.id !in s.pending)
    ensures Ended(Step(cfg, s, Store(w, reply, true)), sid) <==>
              && (reply.Lands() || NoCopy(s, sid)) && NoLateCopy(s, sid)
              && forall v <- s.workers | v != w :: !HoldsLive(s.workers[v], sid)
  {
    var s' := Step(cfg, s, Store(w, reply, true));
    forall v <- s.workers | v != w ensures v in s'.workers && s'.workers[v] == s.workers[v] {}
    assert w in s'.workers ==> !HoldsLive(s'.workers[w], sid);
    forall id <- s.pending ensures id in s'.pending && s'.pending[id] == s.pending[id] {}
  }

  /** A worker whose fetch found auth down and who meets a live copy of its own token is served. */
  lemma OutageServes(cfg: Config, s: State, w: int, sid: string, jti: string, t: Trace)
    returns (run: seq<Action>)
    requires cfg.Valid() && !cfg.strict && t.sawOutage
    requires w in s.workers && s.workers[w] == ReadingLastGood(Request(Some(sid), Some(jti), false, true), t)
    requires var found := Look(s.entries, sid, s.now + cfg.offset(w), s.now);
             found.Some? && found.value.0.Enabled() && found.value.0.Text(CURRENT_JTI) in {None, Some(jti)}
    ensures Possible(cfg, s, run) && forall a <- run :: !a.Answer?
    ensures exists f :: Run(cfg, s, run).finished == s.finished + [f] && f.outcome.Accepted? && f.req.sid == Some(sid)
  {
    var req := Request(Some(sid), Some(jti), false, true);
    var s1 := Step(cfg, s, ReadLastGood(w, Works));
    var p := s1.workers[w];
    assert Judge(cfg, req.jti, p.c, p.age).Accepted?;
    RunCons(cfg, s1, Decide(w), []);
    RunCons(cfg, s, ReadLastGood(w, Works), [Decide(w)] + []);
    run := [ReadLastGood(w, Works)] + ([Decide(w)] + []);
    assert Run(cfg, s, run).finished
        == s.finished + [Finish(s.now, req, Judge(cfg, req.jti, p.c, p.age), p.t, Some((p.basis, p.age)), Some(p.src))];
  }

  /** Why the tombstone is needed: while a live copy is stored, an outage alone serves it again. */
  lemma StoredCopyIsServed(cfg: Config, s: State, w: int, sid: string, jti: string)
    returns (run: seq<Action>)
    requires cfg.Valid() && !cfg.strict && w !in s.workers
    requires var found := Look(s.entries, sid, s.now + cfg.offset(w), s.now);
             found.Some? && found.value.0.Enabled() && found.value.0.Text(CURRENT_JTI) in {None, Some(jti)}
    ensures Possible(cfg, s, run) && forall a <- run :: a.Answer? ==> a.answer.Unavailable?
    ensures exists f :: Run(cfg, s, run).finished == s.finished + [f] && f.outcome.Accepted?
                        && f.req.sid == Some(sid)
  {
    var req := Request(Some(sid), Some(jti), false, true);
    var s1 := Goto(s, w, Fetching(req, Trace(s.now, 0, false, false)));
    assert Step(cfg, s, Start(w, req)) == s1;
    var s2 := Step(cfg, s1, Answer(w, Unavailable));
    assert s2.workers[w] == ReadingLastGood(req, Trace(s.now, 1, true, false));
    var rest := OutageServes(cfg, s2, w, sid, jti, Trace(s.now, 1, true, false));
    RunCons(cfg, s1, Answer(w, Unavailable), rest);
    RunCons(cfg, s, Start(w, req), [Answer(w, Unavailable)] + rest);
    run := [Start(w, req)] + ([Answer(w, Unavailable)] + rest);
  }

  /** Why a write still on its way must be waited for: when it takes effect, an outage serves it. */
  lemma LateCopyIsServed(cfg: Config, s: State, id: int, w: int, jti: string, doc: TrustContext)
    returns (run: seq<Action>)
    requires cfg.Valid() && !cfg.strict && cfg.storageTtl > 0 && w !in s.workers
    requires id in s.pending && s.pending[id].value == Payload(doc) && Unstamp(doc).Valid()
    requires Unstamp(doc).Enabled() && Unstamp(doc).Text(CURRENT_JTI) in {None, Some(jti)}
    ensures Possible(cfg, s, run) && forall a <- run :: a.Answer? ==> a.answer.Unavailable?
    ensures exists f :: Run(cfg, s, run).finished == s.finished + [f] && f.outcome.Accepted?
                        && f.req.sid == Some(s.pending[id].ref)
  {
    var s1 := Step(cfg, s, Land(id));
    var rest := StoredCopyIsServed(cfg, s1, w, s.pending[id].ref, jti);
    RunCons(cfg, s, Land(id), rest);
    run := [Land(id)] + rest;
  }

  /** The stamp is the clock at the write, not at auth's answer: a copy's age is what has truly passed since
      auth spoke exactly when the write was made at the instant of the answer -- or two clocks' difference
      happens to make up for it. */
  lemma StampHidesTheDelay(cfg: Config, s: State, w: int, v: int, later: real)
    requires cfg.Valid() && Enabled(s, Store(w, Done, true)) && s.workers[w].answer.Live()
    requires s.workers[w].answer.c.Valid() && s.workers[w].req.sid == Some(s.workers[w].answer.c.sessionRef)
    requires s.now <= later < s.now + cfg.storageTtl as real
    ensures var p := s.workers[w];
            var clock := later + cfg.offset(v);
            var found := Look(Step(cfg, s, Store(w, Done, true)).entries, p.req.sid.value, clock, later);
            && found.Some?
            && (found.value.1 == Fin(later - p.at) <==>
                  s.now - p.at == cfg.offset(v) - cfg.offset(w) && later + cfg.offset(v) >= s.now + cfg.offset(w))
  {
    RoundTrip(s.entries, s.workers[w].answer.c, s.now + cfg.offset(w), s.now + cfg.storageTtl as real,
              later + cfg.offset(v), later);
  }

  // ---- the cache refines the cache-free resolver ---------------------------------------------

  predicate PrincipalLowered(low: Principal, high: Principal) {
    || low == high
    || (&& high.sessionTrustLevel == SESSION_TRUST_ELEVATED
        && low == high.(sessionTrustLevel := SESSION_TRUST_AUTHENTICATED, elevatedUntil := NoWindow))
  }

  /** The same outcome, except that an accepted principal's elevation may have been taken away. */
  predicate Agrees(cached: Outcome, free: Outcome) {
    || cached == free
    || (cached.Accepted? && free.Accepted? && PrincipalLowered(cached.principal, free.principal))
  }

  lemma JudgeLowered(cfg: Config, jti: Option<string>, low: TrustContext, high: TrustContext, age: Secs)
    requires cfg.Valid() && OnlyLowered(low, high) && !cfg.staleness.Below(age)
    ensures Agrees(Judge(cfg, jti, low, age), Judge(cfg, jti, high, Fin(0.0)))
  {
  }

  /** Everything a run from the start can finish with is accounted for. */
  lemma Accounted(cfg: Config, lim: Limits, timed: bool, s: State, run: seq<Action>, f: Finish)
    requires cfg.Valid() && Initial(s) && Possible(cfg, s, run) && f in Run(cfg, s, run).finished
    requires timed ==> Bounded(cfg, lim) && Timely(cfg, lim, s, run)
    ensures FinishOk(cfg, lim, timed, Run(cfg, s, run).answers, f)
  {
    InvRun(cfg, lim, timed, s, run);
  }

  /** The freshest an answer behind this request must be: a consequential or forced-fresh read uses
      auth's own answer, a routine one a copy of at most min(routine_ttl, jti_staleness). */
  function Window(cfg: Config, lim: Limits, req: Request): real {
    if req.consequential || req.forceFresh then lim.d
    else lim.d + lim.e + lim.skew + cfg.RoutineBound(false)
  }

  /** Answer i was given for this request's session, no longer than `window` before the finish. */
  predicate Recent(answers: seq<AnswerRecord>, i: nat, f: Finish, window: real) {
    i < |answers| && f.req.sid == Some(answers[i].sid) && answers[i].at <= f.at <= answers[i].at + window
  }

  /** With auth reachable, every resolve -- accepted or refused -- ends as the cache-free resolver
      would on an answer auth gave within the window, with trust only ever lowered; or the cache
      itself refused a write. */
  lemma CacheRefinesCacheFree(cfg: Config, lim: Limits, s: State, run: seq<Action>, f: Finish)
    returns (i: nat)
    requires cfg.Valid() && Bounded(cfg, lim) && Initial(s)
    requires Possible(cfg, s, run) && Timely(cfg, lim, s, run) && f in Run(cfg, s, run).finished
    requires f.req.sid.Some? && !f.t.sawOutage
    ensures var answers := Run(cfg, s, run).answers;
            && Recent(answers, i, f, Window(cfg, lim, f.req))
            && (Agrees(f.outcome, CacheFree(cfg, f.req.jti, answers[i].answer)) || f.outcome == CacheFailure)
  {
    Accounted(cfg, lim, true, s, run, f);
    var answers := Run(cfg, s, run).answers;
    i := f.src.value;
    if f.judged.Some? && !f.judged.value.0.FromAuth? {
      var (basis, age) := f.judged.value;
      var c :| ReadOk(cfg, lim, true, answers, f.req.sid.value, i, c, age, basis.at, basis.reader)
               && f.outcome == Judge(cfg, f.req.jti, c, age);
      JudgeLowered(cfg, f.req.jti, c, answers[i].answer.c, age);
    }
  }

  // ---- staleness -----------------------------------------------------------------------------

  /** Behind every acceptance stands an ENABLED answer for that very session, no older than the cache's
      storage life allows; in strict mode it also names the token's own jti as current, and is no older
      than jti_staleness allows, outage or not. */
  lemma AcceptanceIsBacked(cfg: Config, lim: Limits, s: State, run: seq<Action>, f: Finish)
    returns (i: nat)
    requires cfg.Valid() && Bounded(cfg, lim) && Initial(s)
    requires Possible(cfg, s, run) && Timely(cfg, lim, s, run) && f in Run(cfg, s, run).finished
    requires f.outcome.Accepted?
    ensures var answers := Run(cfg, s, run).answers;
            && f.req.sid.Some? && LiveAnswer(answers, i, f.req.sid.value)
            && Recent(answers, i, f, lim.d + lim.e + cfg.storageTtl as real)
            && PrincipalLowered(f.outcome.principal, cfg.PrincipalOf(answers[i].answer.c))
            && (cfg.strict && cfg.staleness.Fin? ==>
                  && Recent(answers, i, f, lim.d + lim.e + lim.skew + cfg.staleness.s)
                  && f.req.jti.Some? && answers[i].answer.c.Text(CURRENT_JTI) == f.req.jti)
  {
    Accounted(cfg, lim, true, s, run, f);
    i := f.src.value;
    if !f.judged.value.0.FromAuth? {
      CopyIsBacked(cfg, lim, Run(cfg, s, run).answers, f);
    }
  }

  lemma CopyIsBacked(cfg: Config, lim: Limits, answers: seq<AnswerRecord>, f: Finish)
    requires cfg.Valid() && FinishOk(cfg, lim, true, answers, f)
    requires f.outcome.Accepted? && f.src.Some? && f.judged.Some? && !f.judged.value.0.FromAuth?
    ensures var i := f.src.value;
            && LiveAnswer(answers, i, f.req.sid.value)
            && Recent(answers, i, f, lim.d + lim.e + cfg.storageTtl as real)
            && PrincipalLowered(f.outcome.principal, cfg.PrincipalOf(answers[i].answer.c))
            && (cfg.strict && cfg.staleness.Fin? ==>
                  && Recent(answers, i, f, lim.d + lim.e + lim.skew + cfg.staleness.s)
                  && f.req.jti.Some? && answers[i].answer.c.Text(CURRENT_JTI) == f.req.jti)
  {
    var i := f.src.value;
    var (basis, age) := f.judged.value;
    var c :| ReadOk(cfg, lim, true, answers, f.req.sid.value, i, c, age, basis.at, basis.reader)
             && f.outcome == Judge(cfg, f.req.jti, c, age);
    assert c.Text(CURRENT_JTI) == answers[i].answer.c.Text(CURRENT_JTI)
        && c.Text(ACTOR_KIND) == answers[i].answer.c.Text(ACTOR_KIND);
  }

  /** Auth ended the session at T: it gave no ENABLED answer for it afterwards. */
  predicate EndedAt(answers: seq<AnswerRecord>, sid: string, T: real) {
    forall i | 0 <= i < |answers| :: answers[i].sid == sid && answers[i].answer.Live() ==> answers[i].at <= T
  }

  /** Auth stopped naming this token as the session's current one at T. */
  predicate SupersededAt(answers: seq<AnswerRecord>, sid: string, jti: string, T: real) {
    forall i | 0 <= i < |answers| ::
      answers[i].sid == sid && answers[i].answer.Live() && answers[i].answer.c.Text(CURRENT_JTI) == Some(jti)
      ==> answers[i].at <= T
  }

  /** The staleness bounds. An ended session is never accepted after T plus the storage life; nor, while
      auth is reachable, after T plus the routine window; nor, in strict mode, after T plus jti_staleness --
      and in strict mode neither is a superseded token. */
  lemma StalenessBounds(cfg: Config, lim: Limits, s: State, run: seq<Action>, f: Finish, T: real)
    requires cfg.Valid() && Bounded(cfg, lim) && Initial(s)
    requires Possible(cfg, s, run) && Timely(cfg, lim, s, run) && f in Run(cfg, s, run).finished
    requires f.outcome.Accepted?
    ensures f.req.sid.Some?
    ensures var answers := Run(cfg, s, run).answers;
            EndedAt(answers, f.req.sid.value, T) ==>
              && f.at <= T + lim.d + lim.e + cfg.storageTtl as real
              && (!f.t.sawOutage ==> f.at <= T + Window(cfg, lim, f.req))
              && (cfg.strict && cfg.staleness.Fin? ==> f.at <= T + lim.d + lim.e + lim.skew + cfg.staleness.s)
    ensures var answers := Run(cfg, s, run).answers;
            cfg.strict && cfg.staleness.Fin? ==>
              f.req.jti.Some?
              && (SupersededAt(answers, f.req.sid.value, f.req.jti.value, T) ==>
                    f.at <= T + lim.d + lim.e + lim.skew + cfg.staleness.s)
  {
    var i := AcceptanceIsBacked(cfg, lim, s, run, f);
    if !f.t.sawOutage {
      var j := CacheRefinesCacheFree(cfg, lim, s, run, f);
      assert Run(cfg, s, run).answers[j].answer.Live();
    }
  }

  // ---- superseded only on auth's word --------------------------------------------------------

  /** Every resolve makes at most two fetches. TokenSuperseded is raised only against an answer fetched
      inside that same resolve, or a copy stamped at that very clock instant. A resolve that re-fetched
      after a mismatch ends as the cache-free resolver does on an answer given inside it -- so with auth
      down it ends AuthzUnavailable, never as a refusal of the token. No timing is assumed. */
  lemma SupersededOnAuthsWord(cfg: Config, s: State, run: seq<Action>, f: Finish)
    requires cfg.Valid() && Initial(s) && Possible(cfg, s, run) && f in Run(cfg, s, run).finished
    ensures f.t.fetches <= 2
    ensures var answers := Run(cfg, s, run).answers;
            f.outcome.TokenSuperseded? ==>
              && f.src.Some? && f.src.value < |answers| && f.judged.Some?
              && (if f.judged.value.0.FromAuth?
                  then f.t.began <= answers[f.src.value].at && f.req.sid == Some(answers[f.src.value].sid)
                       && CacheFree(cfg, f.req.jti, answers[f.src.value].answer) == TokenSuperseded
                  else f.judged.value.1 == Fin(0.0))
    ensures var answers := Run(cfg, s, run).answers;
            f.t.retried ==>
              && f.src.Some? && f.src.value < |answers| && f.t.began <= answers[f.src.value].at
              && (f.outcome == CacheFailure || f.outcome == CacheFree(cfg, f.req.jti, answers[f.src.value].answer))
  {
    Accounted(cfg, Limits(0.0, 0.0, 0.0), false, s, run, f);
  }

  /** Exactly when a copy's own word is final: a routine resolve that meets a served copy naming another token
      is refused as superseded, with no fetch, if and only if the copy's stamp is the reader's very clock
      reading; otherwise it goes on to ask auth. */
  lemma CopyRefusesAlone(cfg: Config, s: State, w: int, req: Request)
    returns (run: seq<Action>)
    requires cfg.Valid() && w !in s.workers && req.sid.Some? && req.jti.Some? && !req.consequential
    requires var found := Look(s.entries, req.sid.value, s.now + cfg.offset(w), s.now);
             && found.Some? && found.value.1.Below(Fin(cfg.RoutineBound(req.forceFresh)))
             && found.value.0.Enabled() && found.value.0.Text(CURRENT_JTI).Some?
             && found.value.0.Text(CURRENT_JTI) != req.jti
    ensures run == [Start(w, req), ReadRoutine(w, Works), Decide(w)] && Possible(cfg, s, run)
    ensures var doc := s.entries[req.sid.value].value.doc;
            var after := Run(cfg, s, run);
            if FETCHED_AT in doc.optional && doc.optional[FETCHED_AT] == Num(s.now + cfg.offset(w)) then
              exists f :: after.finished == s.finished + [f] && f.outcome == TokenSuperseded && f.t.fetches == 0
            else
              after.finished == s.finished && w in after.workers && after.workers[w].Fetching?
  {
    var t := Trace(s.now, 0, false, false);
    AgeZeroExactly(s.entries[req.sid.value].value.doc, s.now + cfg.offset(w));
    var s1 := Goto(s, w, Reading(req, t));
    var s2 := CopyInHand(cfg, s1, w);
    MismatchDecides(cfg, s2, w);
    RunCons(cfg, s1, ReadRoutine(w, Works), [Decide(w)]);
    RunCons(cfg, s, Start(w, req), [ReadRoutine(w, Works)] + [Decide(w)]);
    run := [Start(w, req)] + ([ReadRoutine(w, Works)] + [Decide(w)]);
  }

  lemma CopyInHand(cfg: Config, s: State, w: int) returns (s': State)
    requires Enabled(s, ReadRoutine(w, Works)) && s.workers[w].req.sid.Some?
    requires var p := s.workers[w];
             var found := Look(s.entries, p.req.sid.value, s.now + cfg.offset(w), s.now);
             found.Some? && found.value.1.Below(Fin(cfg.RoutineBound(p.req.forceFresh)))
    ensures s' == Step(cfg, s, ReadRoutine(w, Works)) && s'.finished == s.finished && s'.now == s.now
    ensures var p := s.workers[w];
            var (c, age) := Look(s.entries, p.req.sid.value, s.now + cfg.offset(w), s.now).value;
            && Enabled(s', Decide(w)) && s'.workers[w].req == p.req && s'.workers[w].t == p.t
            && s'.workers[w].age == age && s'.workers[w].c.sessionState == c.sessionState
            && s'.workers[w].c.Text(CURRENT_JTI) == c.Text(CURRENT_JTI)
  {
    s' := Step(cfg, s, ReadRoutine(w, Works));
  }

  lemma MismatchDecides(cfg: Config, s: State, w: int)
    requires cfg.Valid() && Enabled(s, Decide(w)) && !s.workers[w].t.retried
    requires var p := s.workers[w];
             && p.c.Enabled() && p.age.Below(Fin(cfg.RoutineBound(p.req.forceFresh)))
             && p.req.jti.Some? && p.c.Text(CURRENT_JTI).Some? && p.c.Text(CURRENT_JTI) != p.req.jti
    ensures Possible(cfg, s, [Decide(w)])
    ensures var p, after := s.workers[w], Run(cfg, s, [Decide(w)]);
            if Fin(0.0).Below(p.age) then
              after.finished == s.finished && w in after.workers && after.workers[w].Fetching?
            else
              after.finished
              == s.finished + [Finish(s.now, p.req, TokenSuperseded, p.t, Some((p.basis, p.age)), Some(p.src))]
  {
    RunCons(cfg, s, Decide(w), []);
    assert [Decide(w)] + [] == [Decide(w)];
  }
}
