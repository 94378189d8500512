/** AuthServiceResolver.resolve and ._context as they are written, over the mutable cache they share with every
    other worker, and their agreement with the step machine: whatever the others do at each await, one call is
    exactly its own worker's steps of the machine. */
module ResolverCode {
  import opened Wrappers
  import opened TrustContexts
  import opened TrustCaches
  import opened Resolvers

  /** What one await brings: the others take some steps, then the environment answers. */
  datatype Await<T> = Await(others: seq<Action>, value: T)

  /** What the awaits of one pass through `_context` bring. */
  datatype Env = Env(read: Await<Fault>, answer: Await<AuthAnswer>, store: Await<SetReply>, lastGood: Await<Fault>) {
    predicate Valid(sid: string) {
      answer.value.Context? ==>
        answer.value.c.Valid() && answer.value.c.sessionRef == sid && FETCHED_AT !in answer.value.c.optional
    }
  }

  datatype ContextResult = Got(c: TrustContext, age: Secs) | Raised(error: Outcome)

  /** The others take their steps, then the worker takes one. */
  function Then(cfg: Config, m: State, w: int, others: seq<Action>, a: Action): State
    requires Enabled(Interfere(cfg, m, w, others), a)
  {
    Step(cfg, Interfere(cfg, m, w, others), a)
  }

  predicate AtFetch(m: State, w: int) {
    w in m.workers && m.workers[w].Fetching? && m.workers[w].req.sid.Some?
  }

  /** The worker now decides on a context, for the same request in the same pass, or is done. */
  predicate InHand(m: State, m': State, w: int) {
    w in m.workers && w in m'.workers ==>
      && m'.workers[w].Deciding? && m'.workers[w].req == m.workers[w].req
      && m'.workers[w].t.retried == m.workers[w].t.retried
  }

  /** The worker is where auth's answer leaves it, with the same request in the same pass. */
  predicate Told(p: Phase, p': Phase) {
    && p'.req == p.req && p'.t.retried == p.t.retried && p.req.sid.Some?
    && (p'.ReadingLastGood? || (p'.Answered? && (p'.answer.Context? || p'.answer.Denied?)))
  }

  /** Auth answers the pending fetch. */
  function AnswerRun(cfg: Config, m: State, w: int, answer: Await<AuthAnswer>): (r: State)
    requires AtFetch(m, w) && Enabled(Interfere(cfg, m, w, answer.others), Action.Answer(w, answer.value))
    ensures w in r.workers ==> Told(m.workers[w], r.workers[w])
  {
    Then(cfg, m, w, answer.others, Action.Answer(w, answer.value))
  }

  /** What follows the answer: the last-good read, or the write or tombstone. */
  function AftermathRun(cfg: Config, m: State, w: int, env: Env): (r: State)
    requires w in m.workers && Told(m.workers[w], m.workers[w])
    ensures InHand(m, r, w)
  {
    if m.workers[w].ReadingLastGood? then Then(cfg, m, w, env.lastGood.others, ReadLastGood(w, env.lastGood.value))
    else Then(cfg, m, w, env.store.others, Store(w, env.store.value, true))
  }

  /** The machine's own passage from a pending fetch to the context in hand, or the resolve's end. */
  function FetchRun(cfg: Config, m: State, w: int, env: Env): (r: State)
    requires AtFetch(m, w) && env.Valid(m.workers[w].req.sid.value)
    ensures InHand(m, r, w)
  {
    var m1 := AnswerRun(cfg, m, w, env.answer);
    if w !in m1.workers then m1 else AftermathRun(cfg, m1, w, env)
  }

  /** The routine read: a copy in hand, or on to the fetch. */
  function ReadRun(cfg: Config, m: State, w: int, read: Await<Fault>): (r: State)
    requires w in m.workers && m.workers[w].Reading?
    ensures w in r.workers && r.workers[w].req == m.workers[w].req && r.workers[w].t == m.workers[w].t
    ensures r.workers[w].Deciding? || r.workers[w].Fetching?
  {
    Then(cfg, m, w, read.others, ReadRoutine(w, read.value))
  }

  /** The machine's own passage through one `_context`, from the routine read if there is one. */
  function ContextRun(cfg: Config, m: State, w: int, env: Env): (r: State)
    requires w in m.workers && m.workers[w].req.sid.Some? && env.Valid(m.workers[w].req.sid.value)
    requires m.workers[w].Reading? || m.workers[w].Fetching?
    ensures InHand(m, r, w)
  {
    if m.workers[w].Fetching? then FetchRun(cfg, m, w, env)
    else
      var m1 := ReadRun(cfg, m, w, env.read);
      if m1.workers[w].Deciding? then m1 else FetchRun(cfg, m1, w, env)
  }

  /** One `_context` and the judgement of what it brings. */
  function PassRun(cfg: Config, m: State, w: int, env: Env): (r: State)
    requires w in m.workers && m.workers[w].req.sid.Some? && env.Valid(m.workers[w].req.sid.value)
    requires m.workers[w].Reading? || m.workers[w].Fetching?
    ensures w in r.workers ==>
              && !m.workers[w].t.retried && r.workers[w].t.retried
              && r.workers[w].Fetching? && r.workers[w].req == m.workers[w].req
  {
    var m2 := ContextRun(cfg, m, w, env);
    if w !in m2.workers then m2 else Step(cfg, m2, Decide(w))
  }

  /** The machine's own passage through one whole resolve. */
  function ResolveRun(cfg: Config, m: State, w: int, req: Request, env: Env, again: Env): (r: State)
    requires w !in m.workers
    requires req.sid.Some? ==> env.Valid(req.sid.value) && again.Valid(req.sid.value)
    ensures w !in r.workers
  {
    var m1 := Step(cfg, m, Start(w, req));
    if w !in m1.workers then m1
    else
      var m2 := PassRun(cfg, m1, w, env);
      if w !in m2.workers then m2 else PassRun(cfg, m2, w, again)
  }

  lemma OneStep(cfg: Config, m: State, a: Action)
    requires Enabled(m, a)
    ensures Possible(cfg, m, [a]) && Run(cfg, m, [a]) == Step(cfg, m, a)
  {
  }

  /** Extend a run by what the others do and one step. */
  lemma Extend(cfg: Config, m0: State, run: seq<Action>, m: State, w: int, others: seq<Action>, a: Action)
    returns (run': seq<Action>)
    requires Possible(cfg, m0, run) && Run(cfg, m0, run) == m
    requires Enabled(Interfere(cfg, m, w, others), a)
    ensures Possible(cfg, m0, run') && Run(cfg, m0, run') == Then(cfg, m, w, others, a)
  {
    var between := InterfereIsARun(cfg, m, w, others);
    RunAppend(cfg, m0, run, between);
    OneStep(cfg, Interfere(cfg, m, w, others), a);
    RunAppend(cfg, m0, run + between, [a]);
    run' := run + between + [a];
  }

  lemma AftermathIsARun(cfg: Config, m0: State, run: seq<Action>, m: State, w: int, env: Env)
    returns (run': seq<Action>)
    requires Possible(cfg, m0, run) && Run(cfg, m0, run) == m
    requires w in m.workers && Told(m.workers[w], m.workers[w])
    ensures Possible(cfg, m0, run') && Run(cfg, m0, run') == AftermathRun(cfg, m, w, env)
  {
    if m.workers[w].ReadingLastGood? {
      run' := Extend(cfg, m0, run, m, w, env.lastGood.others, ReadLastGood(w, env.lastGood.value));
    } else {
      run' := Extend(cfg, m0, run, m, w, env.store.others, Store(w, env.store.value, true));
    }
  }

  lemma FetchIsARun(cfg: Config, m0: State, run: seq<Action>, m: State, w: int, env: Env) returns (run': seq<Action>)
    requires Possible(cfg, m0, run) && Run(cfg, m0, run) == m
    requires AtFetch(m, w) && env.Valid(m.workers[w].req.sid.value)
    ensures Possible(cfg, m0, run') && Run(cfg, m0, run') == FetchRun(cfg, m, w, env)
  {
    run' := Extend(cfg, m0, run, m, w, env.answer.others, Action.Answer(w, env.answer.value));
    var m1 := AnswerRun(cfg, m, w, env.answer);
    if w in m1.workers {
      run' := AftermathIsARun(cfg, m0, run', m1, w, env);
    }
  }

  lemma ContextIsARun(cfg: Config, m0: State, run: seq<Action>, m: State, w: int, env: Env) returns (run': seq<Action>)
    requires Possible(cfg, m0, run) && Run(cfg, m0, run) == m
    requires w in m.workers && m.workers[w].req.sid.Some? && env.Valid(m.workers[w].req.sid.value)
    requires m.workers[w].Reading? || m.workers[w].Fetching?
    ensures Possible(cfg, m0, run') && Run(cfg, m0, run') == ContextRun(cfg, m, w, env)
  {
    if m.workers[w].Fetching? {
      run' := FetchIsARun(cfg, m0, run, m, w, env);
    } else {
      run' := Extend(cfg, m0, run, m, w, env.read.others, ReadRoutine(w, env.read.value));
      var m1 := ReadRun(cfg, m, w, env.read);
      if m1.workers[w].Fetching? {
        run' := FetchIsARun(cfg, m0, run', m1, w, env);
      }
    }
  }

  lemma PassIsARun(cfg: Config, m0: State, run: seq<Action>, m: State, w: int, env: Env) returns (run': seq<Action>)
    requires Possible(cfg, m0, run) && Run(cfg, m0, run) == m
    requires w in m.workers && m.workers[w].req.sid.Some? && env.Valid(m.workers[w].req.sid.value)
    requires m.workers[w].Reading? || m.workers[w].Fetching?
    ensures Possible(cfg, m0, run') && Run(cfg, m0, run') == PassRun(cfg, m, w, env)
  {
    run' := ContextIsARun(cfg, m0, run, m, w, env);
    var m2 := ContextRun(cfg, m, w, env);
    if w in m2.workers {
      OneStep(cfg, m2, Decide(w));
      RunAppend(cfg, m0, run', [Decide(w)]);
      run' := run' + [Decide(w)];
    }
  }

  /** One resolve, whatever its awaits bring and whatever the others do meanwhile, is a run of the machine:
      every guarantee about runs covers it. */
  lemma ResolveIsARun(cfg: Config, m: State, w: int, req: Request, env: Env, again: Env) returns (run: seq<Action>)
    requires w !in m.workers
    requires req.sid.Some? ==> env.Valid(req.sid.value) && again.Valid(req.sid.value)
    ensures Possible(cfg, m, run) && Run(cfg, m, run) == ResolveRun(cfg, m, w, req, env, again)
  {
    var m1 := Step(cfg, m, Start(w, req));
    OneStep(cfg, m, Start(w, req));
    run := [Start(w, req)];
    if w in m1.workers {
      run := PassIsARun(cfg, m, run, m1, w, env);
      var m2 := PassRun(cfg, m1, w, env);
      if w in m2.workers {
        run := PassIsARun(cfg, m, run, m2, w, again);
      }
    }
  }

  /** What `_context` hands back is what the machine has reached: a context in hand, or the end. */
  ghost predicate Handed(r: ContextResult, m: State, w: int) {
    if r.Got? then w in m.workers && m.workers[w].Deciding? && m.workers[w].c == r.c && m.workers[w].age == r.age
    else w !in m.workers && m.finished != [] && m.finished[|m.finished| - 1].outcome == r.error
  }

  ghost predicate EndsWith(m: State, outcome: Outcome) {
    m.finished != [] && m.finished[|m.finished| - 1].outcome == outcome
  }

  /** `m` is the deployment a call runs in: the shared cache and clock are part of it, and while the call
      awaits, the others take their steps in it. */
  class AuthServiceResolver {
    const cfg: Config
    const cache: TrustContextCache
    const worker: int
    var now: real

    predicate Wired() {
      cfg.Valid() && cfg.routineTtl == cache.routineTtl && cfg.storageTtl == cache.storageTtl
    }

    constructor (cfg: Config, cache: TrustContextCache, worker: int, now: real)
      requires cfg.Valid() && cfg.routineTtl == cache.routineTtl && cfg.storageTtl == cache.storageTtl
      ensures this.cfg == cfg && this.cache == cache && this.worker == worker && this.now == now && Wired()
    {
      this.cfg, this.cache, this.worker, this.now := cfg, cache, worker, now;
    }

    /** The machine state that this resolver's own variables are part of. */
    ghost predicate Mirrors(m: State)
      reads this`now, cache, cache`entries, cache`pending
    {
      m.now == now && m.entries == cache.entries && m.pending == cache.pending
    }

    /** An await: the others run. */
    method Pause(others: seq<Action>, m: State) returns (m': State)
      requires Mirrors(m)
      modifies this`now, cache`entries, cache`pending
      ensures m' == Interfere(cfg, m, worker, others) && Mirrors(m')
    {
      m' := Interfere(cfg, m, worker, others);
      now, cache.entries, cache.pending := m'.now, m'.entries, m'.pending;
    }

    /** Auth is unreachable: a consequential read fails closed, a routine one takes the last-good copy. */
    method ServeLastGood(req: Request, fault: Fault, ghost m: State) returns (r: ContextResult)
      requires Wired() && Mirrors(m) && worker in m.workers && m.workers[worker].ReadingLastGood?
      requires req.sid.Some? && m.workers[worker].req == req
      ensures Mirrors(Step(cfg, m, ReadLastGood(worker, fault)))
      ensures Handed(r, Step(cfg, m, ReadLastGood(worker, fault)), worker)
    {
      var raised, lastGood := cache.Read(req.sid.value, now + cfg.offset(worker), now, fault);
      if raised {
        r := Raised(CacheFailure);
      } else if lastGood.None? {
        r := Raised(AuthzUnavailable);
      } else {
        r := Got(lastGood.value.0.Project(now + cfg.offset(worker)), lastGood.value.1);
      }
    }

    /** Auth answered: an ENABLED context is written, anything else has its copy destroyed. */
    method Settle(req: Request, answer: AuthAnswer, reply: SetReply, ghost m: State) returns (r: ContextResult)
      requires Wired() && Mirrors(m) && Enabled(m, Store(worker, reply, true))
      requires m.workers[worker].req == req && m.workers[worker].answer == answer
      requires answer.Context? ==> answer.c.sessionRef == req.sid.value
      modifies cache`entries, cache`pending
      ensures Mirrors(Step(cfg, m, Store(worker, reply, true)))
      ensures Handed(r, Step(cfg, m, Store(worker, reply, true)), worker)
    {
      if answer.Denied? {
        var _ := cache.Forget(req.sid.value, now, reply);
        return Raised(SessionMiss);
      }
      var raised := false;
      if answer.c.sessionState == SESSION_STATE_ENABLED {
        raised := cache.Write(answer.c, now + cfg.offset(worker), now, reply);
      } else {
        var _ := cache.Forget(req.sid.value, now, reply);
      }
      r := if raised then Raised(CacheFailure) else Got(answer.c, Fin(0.0));
    }

    /** The part of `_context` from the fetch on. */
    method Fetch(req: Request, consequential: bool, env: Env, m: State) returns (r: ContextResult)
      requires Wired() && req.sid.Some? && env.Valid(req.sid.value) && Mirrors(m) && AtFetch(m, worker)
      requires m.workers[worker].req == req && consequential == Consequential(m.workers[worker])
      modifies this`now, cache`entries, cache`pending
      ensures Mirrors(FetchRun(cfg, m, worker, env))
      ensures Handed(r, FetchRun(cfg, m, worker, env), worker)
    {
      var before := Pause(env.answer.others, m);
      var m1 := Step(cfg, before, Action.Answer(worker, env.answer.value));
      match env.answer.value
      case Misconfigured =>
        r := Raised(AuthzMisconfigured);
      case Unavailable =>
        if consequential {
          return Raised(AuthzUnavailable);
        }
        var m2 := Pause(env.lastGood.others, m1);
        r := ServeLastGood(req, env.lastGood.value, m2);
      case _ =>
        var m2 := Pause(env.store.others, m1);
        r := Settle(req, env.answer.value, env.store.value, m2);
    }

    /** The routine read of the shared copy; None means it is not to be served. */
    method RoutineRead(req: Request, bound: real, read: Await<Fault>, m: State)
      returns (r: Option<ContextResult>, m': State)
      requires Wired() && req.sid.Some? && bound == cfg.RoutineBound(req.forceFresh) && Mirrors(m)
      requires worker in m.workers && m.workers[worker].Reading? && m.workers[worker].req == req
      modifies this`now, cache`entries, cache`pending
      ensures m' == ReadRun(cfg, m, worker, read) && Mirrors(m')
      ensures if r.Some? then r.value.Got? && Handed(r.value, m', worker) else m'.workers[worker].Fetching?
    {
      var before := Pause(read.others, m);
      var _, cached := cache.Read(req.sid.value, now + cfg.offset(worker), now, read.value);
      if cached.Some? && cached.value.1.Below(Fin(bound)) {
        r := Some(Got(cached.value.0.Project(now + cfg.offset(worker)), cached.value.1));
      } else {
        r := None;
      }
      m' := Step(cfg, before, ReadRoutine(worker, read.value));
    }

    method Context(req: Request, consequential: bool, maxAge: Secs, env: Env, m: State)
      returns (r: ContextResult)
      requires Wired() && req.sid.Some? && env.Valid(req.sid.value) && Mirrors(m)
      requires worker in m.workers && m.workers[worker].req == req
      requires consequential == Consequential(m.workers[worker])
      requires maxAge == if consequential || req.forceFresh then Fin(0.0) else cfg.staleness
      requires if !consequential && cfg.RoutineBound(req.forceFresh) > 0.0
               then m.workers[worker].Reading? else m.workers[worker].Fetching?
      modifies this`now, cache`entries, cache`pending
      ensures Mirrors(ContextRun(cfg, m, worker, env))
      ensures Handed(r, ContextRun(cfg, m, worker, env), worker)
    {
      var m' := m;
      if !consequential {
        var bound := if maxAge.Fin? && maxAge.s < cache.routineTtl then maxAge.s else cache.routineTtl;
        if bound > 0.0 {
          var cached;
          cached, m' := RoutineRead(req, bound, env.read, m);
          if cached.Some? {
            return cached.value;
          }
        }
      }
      r := Fetch(req, consequential, env, m');
    }

    /** Liveness and the current-token check on the context in hand; None means: ask auth again. */
    method Conclude(req: Request, c: TrustContext, age: Secs, retried: bool, ghost m: State)
      returns (r: Option<Outcome>)
      requires Wired() && Mirrors(m) && Handed(Got(c, age), m, worker)
      requires m.workers[worker].req == req && m.workers[worker].t.retried == retried
      ensures Mirrors(Step(cfg, m, Decide(worker)))
      ensures r.None? <==> worker in Step(cfg, m, Decide(worker)).workers
      ensures r.Some? ==> EndsWith(Step(cfg, m, Decide(worker)), r.value)
    {
      var outcome := Judge(cfg, req.jti, c, age);
      var final := !outcome.TokenSuperseded? || !Fin(0.0).Below(age) || retried;
      r := if final then Some(outcome) else None;
    }

    /** One `_context` and the judgement of what it brings; None means: ask auth again. */
    method Pass(req: Request, consequential: bool, retried: bool, maxAge: Secs, env: Env, m: State)
      returns (r: Option<Outcome>)
      requires Wired() && req.sid.Some? && env.Valid(req.sid.value) && Mirrors(m)
      requires worker in m.workers && m.workers[worker].req == req && m.workers[worker].t.retried == retried
      requires consequential == Consequential(m.workers[worker])
      requires maxAge == if consequential || req.forceFresh then Fin(0.0) else cfg.staleness
      requires if !consequential && cfg.RoutineBound(req.forceFresh) > 0.0
               then m.workers[worker].Reading? else m.workers[worker].Fetching?
      modifies this`now, cache`entries, cache`pending
      ensures Mirrors(PassRun(cfg, m, worker, env))
      ensures r.None? <==> worker in PassRun(cfg, m, worker, env).workers
      ensures r.Some? ==> EndsWith(PassRun(cfg, m, worker, env), r.value)
    {
      var got := Context(req, consequential, maxAge, env, m);
      if got.Raised? {
        return Some(got.error);
      }
      r := Conclude(req, got.c, got.age, retried, ContextRun(cfg, m, worker, env));
    }

    /** resolve(): one context, judged; on a mismatch against an older copy, one more, fetched fresh. */
    method Resolve(req: Request, env: Env, again: Env, m: State) returns (outcome: Outcome)
      requires Wired() && Mirrors(m) && worker !in m.workers
      requires req.sid.Some? ==> env.Valid(req.sid.value) && again.Valid(req.sid.value)
      modifies this`now, cache`entries, cache`pending
      ensures Mirrors(ResolveRun(cfg, m, worker, req, env, again))
      ensures EndsWith(ResolveRun(cfg, m, worker, req, env, again), outcome)
    {
      if req.sid.None? {
        return Unauthenticated;
      }
      var m1 := Step(cfg, m, Start(worker, req));
      var maxAge := if req.consequential || req.forceFresh then Fin(0.0) else cfg.staleness;
      var r := Pass(req, req.consequential, false, maxAge, env, m1);
      if r.None? {
        r := Pass(req, true, true, Fin(0.0), again, PassRun(cfg, m1, worker, env));
      }
      outcome := r.value;
    }
  }
}
