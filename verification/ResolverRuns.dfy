/** What every run of the resolver machine keeps, and the guarantees that follow: an ended session
    stays ended, staleness is bounded, and the cache refines the cache-free resolver. */
module ResolverRuns {
  import opened Wrappers
  import opened TrustContexts
  import opened TrustCaches
  import opened Resolvers

  /** d: from auth's answer to the write taking effect and to the use of it. e: from reading a copy to its use.
      skew: how far two workers' wall clocks differ. */
  datatype Limits = Limits(d: real, e: real, skew: real)

  ghost predicate Bounded(cfg: Config, lim: Limits) {
    && lim.d >= 0.0 && lim.e >= 0.0 && lim.skew >= 0.0
    && forall v, w :: cfg.offset(v) - cfg.offset(w) <= lim.skew
  }

  predicate OnTime(lim: Limits, s: State, a: Action)
    requires Enabled(s, a)
  {
    match a
    case Store(w, _, _) => s.now <= s.workers[w].at + lim.d
    case Land(id) =>
      id in s.lateOrigins && s.lateOrigins[id].src < |s.answers| ==>
        s.now <= s.answers[s.lateOrigins[id].src].at + lim.d
    case Decide(w) =>
      var basis := s.workers[w].basis;
      s.now <= basis.at + (if basis.FromAuth? then lim.d else lim.e)
    case _ => true
  }

  predicate Timely(cfg: Config, lim: Limits, s: State, run: seq<Action>)
    requires Possible(cfg, s, run)
    decreases |run|
  {
    run == [] || (OnTime(lim, s, run[0]) && Timely(cfg, lim, Step(cfg, s, run[0]), run[1..]))
  }

  // ---- the invariant -------------------------------------------------------------------------

  /** Answer i is a live context for this session. */
  predicate LiveAnswer(answers: seq<AnswerRecord>, i: nat, sid: string) {
    && i < |answers| && answers[i].sid == sid && answers[i].answer.Live()
    && answers[i].answer.c.sessionRef == sid && answers[i].answer.c.Valid()
    && FETCHED_AT !in answers[i].answer.c.optional
  }

  /** The document is some live answer, whole, stamped by its writer's clock or not at all. */
  predicate DocOk(cfg: Config, lim: Limits, timed: bool, s: State, sid: string, doc: TrustContext, o: Origin) {
    && LiveAnswer(s.answers, o.src, sid)
    && var answer := s.answers[o.src];
    && doc in {answer.answer.c, Stamp(answer.answer.c, o.stamped + cfg.offset(o.writer))}
    && answer.at <= o.stamped <= o.landed <= s.now
    && (timed ==> o.landed <= answer.at + lim.d)
  }

  predicate CopyOk(cfg: Config, lim: Limits, timed: bool, s: State, sid: string)
    requires sid in s.entries
  {
    s.entries[sid].value.Payload? ==>
      && sid in s.origins
      && DocOk(cfg, lim, timed, s, sid, s.entries[sid].value.doc, s.origins[sid])
      && s.entries[sid].expires == s.origins[sid].landed + cfg.storageTtl as real
  }

  /** And so is every set still to take effect. */
  predicate LateOk(cfg: Config, lim: Limits, timed: bool, s: State, id: int)
    requires id in s.pending
  {
    s.pending[id].value.Payload? ==>
      && id in s.lateOrigins
      && DocOk(cfg, lim, timed, s, s.pending[id].ref, s.pending[id].value.doc, s.lateOrigins[id])
  }

  predicate CacheOk(cfg: Config, lim: Limits, timed: bool, s: State) {
    && (forall sid <- s.entries :: CopyOk(cfg, lim, timed, s, sid))
    && (forall id <- s.pending :: LateOk(cfg, lim, timed, s, id))
  }

  /** A copy read at `at`, with the age its reader saw, came from live answer `src` this long ago, and claims
      no elevation whose window has passed on the reader's clock. */
  predicate ReadOk(cfg: Config, lim: Limits, timed: bool, answers: seq<AnswerRecord>, sid: string,
                   src: nat, c: TrustContext, age: Secs, at: real, reader: int) {
    && LiveAnswer(answers, src, sid)
    && OnlyLowered(c, answers[src].answer.c)
    && WindowAhead(c.sessionTrustLevel, c.elevatedUntil, at + cfg.offset(reader))
    && answers[src].at <= at
    && (age.Fin? ==> age.s >= 0.0)
    && (timed && age.Fin? ==> at <= answers[src].at + lim.d + age.s + lim.skew)
    && (timed ==> at <= answers[src].at + lim.d + cfg.storageTtl as real)
  }

  /** How many fetches a resolve has made by the time an answer is in hand. */
  predicate Counted(t: Trace) {
    if t.retried then 1 <= t.fetches <= 2 else t.fetches == 1 && !t.sawOutage
  }

  predicate PhaseOk(cfg: Config, lim: Limits, timed: bool, s: State, p: Phase) {
    && p.req.sid.Some? && p.t.began <= s.now && (p.t.retried ==> !p.req.consequential)
    && match p
       case Reading(req, t) => !req.consequential && !t.retried && t.fetches == 0 && !t.sawOutage
       case Fetching(req, t) => if t.retried then t.fetches <= 1 else t.fetches == 0 && !t.sawOutage
       case Answered(req, t, answer, at, src) =>
         && Counted(t) && src < |s.answers| && t.began <= at <= s.now
         && s.answers[src] == AnswerRecord(at, req.sid.value, answer)
         && (answer.Denied? || answer.Context?)
         && (answer.Live() ==> LiveAnswer(s.answers, src, req.sid.value))
       case ReadingLastGood(req, t) => !req.consequential && !t.retried && t.fetches == 1 && t.sawOutage
       case Deciding(req, t, c, age, basis, src) =>
         && basis.at <= s.now && t.began <= basis.at
         && match basis
            case FromAuth(at) =>
              && Counted(t) && age == Fin(0.0) && src < |s.answers|
              && s.answers[src] == AnswerRecord(at, req.sid.value, Context(c))
              && (c.Enabled() ==> LiveAnswer(s.answers, src, req.sid.value))
            case FromRoutineCopy(at, reader) =>
              && !req.consequential && !t.retried && t.fetches == 0 && !t.sawOutage
              && age.Below(Fin(cfg.RoutineBound(req.forceFresh)))
              && ReadOk(cfg, lim, timed, s.answers, req.sid.value, src, c, age, at, reader)
            case FromLastGood(at, reader) =>
              && !req.consequential && !t.retried && t.fetches == 1 && t.sawOutage
              && ReadOk(cfg, lim, timed, s.answers, req.sid.value, src, c, age, at, reader)
  }

  /** What a finished resolve can point to. */
  ghost predicate FinishOk(cfg: Config, lim: Limits, timed: bool, answers: seq<AnswerRecord>, f: Finish) {
    && f.t.fetches <= 2 && (f.req.consequential && f.t.sawOutage ==> f.outcome == AuthzUnavailable)
    && match f.src
       case None =>
         && !f.t.retried && f.judged.None?
         && (f.req.sid.None? ==> f.outcome == Unauthenticated && f.t.fetches == 0)
         && (f.req.sid.Some? ==>
               && f.t.sawOutage && f.t.fetches == 1 && !f.req.consequential
               && (f.outcome == AuthzUnavailable || f.outcome == CacheFailure))
       case Some(i) =>
         && f.req.sid.Some? && i < |answers| && answers[i].sid == f.req.sid.value && answers[i].at <= f.at
         && match f.judged
            case None =>
              && f.t.began <= answers[i].at && f.t.fetches >= 1
              && (|| f.outcome == CacheFree(cfg, f.req.jti, answers[i].answer)
                  || (f.outcome == CacheFailure && answers[i].answer.Live()))
              && (timed ==> f.at <= answers[i].at + lim.d)
              && !f.outcome.Accepted? && !f.outcome.TokenSuperseded?
            case Some((basis, age)) =>
              if basis.FromAuth? then
                && f.t.began <= answers[i].at == basis.at && f.t.fetches >= 1 && age == Fin(0.0)
                && answers[i].answer.Context?
                && (answers[i].answer.Live() ==> LiveAnswer(answers, i, f.req.sid.value))
                && f.outcome == CacheFree(cfg, f.req.jti, answers[i].answer)
                && (timed ==> f.at <= answers[i].at + lim.d)
              else
                && !f.t.retried && !f.req.consequential
                && (basis.FromRoutineCopy? ==>
                      !f.t.sawOutage && f.t.fetches == 0 && age.Below(Fin(cfg.RoutineBound(f.req.forceFresh))))
                && (basis.FromLastGood? ==> f.t.sawOutage)
                && basis.at <= f.at && (timed ==> f.at <= basis.at + lim.e)
                && (f.outcome.TokenSuperseded? ==> age == Fin(0.0))
                && exists c ::
                     && ReadOk(cfg, lim, timed, answers, f.req.sid.value, i, c, age, basis.at, basis.reader)
                     && f.outcome == Judge(cfg, f.req.jti, c, age)
  }

  ghost predicate Inv(cfg: Config, lim: Limits, timed: bool, s: State) {
    && CacheOk(cfg, lim, timed, s)
    && (forall w <- s.workers :: PhaseOk(cfg, lim, timed, s, s.workers[w]))
    && (forall f <- s.finished :: FinishOk(cfg, lim, timed, s.answers, f))
  }

  /** Time passes and the log of answers grows: what was established stays established. */
  predicate Grown(s: State, s': State) {
    && s.now <= s'.now && s.answers <= s'.answers
    && s.workers == s'.workers && s.finished == s'.finished
  }

  lemma GrownKeeps(cfg: Config, lim: Limits, timed: bool, s: State, s': State)
    requires Inv(cfg, lim, timed, s) && Grown(s, s')
    ensures forall w <- s'.workers :: PhaseOk(cfg, lim, timed, s', s'.workers[w])
    ensures forall f <- s'.finished :: FinishOk(cfg, lim, timed, s'.answers, f)
  {
  }

  /** Everything about the cache in s' was there in s. */
  predicate CacheWithin(s: State, s': State) {
    && (forall sid <- s'.entries :: sid in s.entries && s'.entries[sid] == s.entries[sid])
    && s'.pending == s.pending && s'.origins == s.origins && s'.lateOrigins == s.lateOrigins
  }

  lemma CopiesKept(cfg: Config, lim: Limits, timed: bool, s: State, s': State)
    requires Inv(cfg, lim, timed, s) && Grown(s, s') && CacheWithin(s, s')
    ensures CacheOk(cfg, lim, timed, s')
  {
  }

  /** The cache's state does not depend on the workers or on what is finished. */
  lemma CacheOnly(cfg: Config, lim: Limits, timed: bool, s: State, r: State)
    requires CacheOk(cfg, lim, timed, s) && r.now == s.now && r.answers == s.answers
    requires r.entries == s.entries && r.pending == s.pending
    requires r.origins == s.origins && r.lateOrigins == s.lateOrigins
    ensures CacheOk(cfg, lim, timed, r)
  {
    forall sid <- r.entries ensures CopyOk(cfg, lim, timed, r, sid) {
      assert CopyOk(cfg, lim, timed, s, sid);
    }
    forall id <- r.pending ensures LateOk(cfg, lim, timed, r, id) {
      assert LateOk(cfg, lim, timed, s, id);
    }
  }

  lemma AfterGoto(cfg: Config, lim: Limits, timed: bool, s: State, s': State, w: int, p: Phase)
    requires Inv(cfg, lim, timed, s) && Grown(s, s') && CacheOk(cfg, lim, timed, s')
    requires PhaseOk(cfg, lim, timed, s', p)
    ensures Inv(cfg, lim, timed, Goto(s', w, p))
  {
    GrownKeeps(cfg, lim, timed, s, s');
    var r := Goto(s', w, p);
    CacheOnly(cfg, lim, timed, s', r);
    forall v <- r.workers ensures PhaseOk(cfg, lim, timed, r, r.workers[v]) {
      assert v != w ==> PhaseOk(cfg, lim, timed, s', s'.workers[v]);
    }
  }

  lemma AfterEnd(cfg: Config, lim: Limits, timed: bool, s: State, s': State, w: int, req: Request,
                 outcome: Outcome, t: Trace, judged: Option<(Basis, Secs)>, src: Option<nat>)
    requires Inv(cfg, lim, timed, s) && Grown(s, s') && CacheOk(cfg, lim, timed, s')
    requires FinishOk(cfg, lim, timed, s'.answers, Finish(s'.now, req, outcome, t, judged, src))
    ensures Inv(cfg, lim, timed, End(s', w, req, outcome, t, judged, src))
  {
    GrownKeeps(cfg, lim, timed, s, s');
    var r := End(s', w, req, outcome, t, judged, src);
    CacheOnly(cfg, lim, timed, s', r);
    forall v <- r.workers ensures PhaseOk(cfg, lim, timed, r, r.workers[v]) {
      assert PhaseOk(cfg, lim, timed, s', s'.workers[v]);
    }
  }

  predicate EntryOk(cfg: Config, lim: Limits, timed: bool, s: State, sid: string) {
    sid in s.entries ==> CopyOk(cfg, lim, timed, s, sid)
  }

  /** A routine read leaves the worker fetching, or deciding on a copy that is what it seems. */
  lemma ReadRoutineNext(cfg: Config, lim: Limits, timed: bool, s: State, w: int, fault: Fault)
    requires cfg.Valid() && Enabled(s, ReadRoutine(w, fault)) && (timed ==> Bounded(cfg, lim))
    requires PhaseOk(cfg, lim, timed, s, s.workers[w])
    requires EntryOk(cfg, lim, timed, s, s.workers[w].req.sid.value)
    ensures var r := StepReadRoutine(cfg, s, w, fault);
            w in r.workers && r == Goto(s, w, r.workers[w]) && PhaseOk(cfg, lim, timed, s, r.workers[w])
  {
  }

  lemma InvReadRoutine(cfg: Config, lim: Limits, timed: bool, s: State, w: int, fault: Fault)
    requires cfg.Valid() && Inv(cfg, lim, timed, s) && Enabled(s, ReadRoutine(w, fault))
    requires timed ==> Bounded(cfg, lim)
    ensures Inv(cfg, lim, timed, StepReadRoutine(cfg, s, w, fault))
  {
    ReadRoutineNext(cfg, lim, timed, s, w, fault);
    AfterGoto(cfg, lim, timed, s, s, w, StepReadRoutine(cfg, s, w, fault).workers[w]);
  }

  /** An outage read ends the resolve without an answer, or decides on a copy that is what it seems. */
  lemma ReadLastGoodNext(cfg: Config, lim: Limits, timed: bool, s: State, w: int, fault: Fault)
    requires cfg.Valid() && Enabled(s, ReadLastGood(w, fault)) && (timed ==> Bounded(cfg, lim))
    requires PhaseOk(cfg, lim, timed, s, s.workers[w])
    requires EntryOk(cfg, lim, timed, s, s.workers[w].req.sid.value)
    ensures var r := StepReadLastGood(cfg, s, w, fault);
            if w in r.workers
            then r == Goto(s, w, r.workers[w]) && PhaseOk(cfg, lim, timed, s, r.workers[w])
            else
              var p := s.workers[w];
              var outcome := if fault.Raises? then CacheFailure else AuthzUnavailable;
              && r == End(s, w, p.req, outcome, p.t, None, None)
              && FinishOk(cfg, lim, timed, s.answers, Finish(s.now, p.req, outcome, p.t, None, None))
  {
  }

  lemma InvReadLastGood(cfg: Config, lim: Limits, timed: bool, s: State, w: int, fault: Fault)
    requires cfg.Valid() && Inv(cfg, lim, timed, s) && Enabled(s, ReadLastGood(w, fault))
    requires timed ==> Bounded(cfg, lim)
    ensures Inv(cfg, lim, timed, StepReadLastGood(cfg, s, w, fault))
  {
    ReadLastGoodNext(cfg, lim, timed, s, w, fault);
    var r := StepReadLastGood(cfg, s, w, fault);
    if w in r.workers {
      AfterGoto(cfg, lim, timed, s, s, w, r.workers[w]);
    } else {
      var p := s.workers[w];
      var outcome := if fault.Raises? then CacheFailure else AuthzUnavailable;
      AfterEnd(cfg, lim, timed, s, s, w, p.req, outcome, p.t, None, None);
    }
  }

  lemma InvAnswer(cfg: Config, lim: Limits, timed: bool, s: State, w: int, answer: AuthAnswer)
    requires cfg.Valid() && Inv(cfg, lim, timed, s) && Enabled(s, Action.Answer(w, answer))
    requires timed ==> Bounded(cfg, lim)
    ensures Inv(cfg, lim, timed, StepAnswer(s, w, answer))
  {
    var p := s.workers[w];
    assert PhaseOk(cfg, lim, timed, s, p);
    var src := |s.answers|;
    var t := p.t.(fetches := p.t.fetches + 1, sawOutage := p.t.sawOutage || answer.Unavailable?);
    var s' := s.(answers := s.answers + [AnswerRecord(s.now, p.req.sid.value, answer)]);
    CopiesKept(cfg, lim, timed, s, s');
    assert s'.answers[src] == AnswerRecord(s.now, p.req.sid.value, answer);
    if answer.Misconfigured? || (answer.Unavailable? && Consequential(p)) {
      var outcome := CacheFree(cfg, p.req.jti, answer);
      AfterEnd(cfg, lim, timed, s, s', w, p.req, outcome, t, None, Some(src));
      assert StepAnswer(s, w, answer) == End(s', w, p.req, outcome, t, None, Some(src));
    } else {
      var next := if answer.Unavailable? then ReadingLastGood(p.req, t) else Answered(p.req, t, answer, s.now, src);
      AfterGoto(cfg, lim, timed, s, s', w, next);
      assert StepAnswer(s, w, answer) == Goto(s', w, next);
    }
  }

  /** A set of a good document, or of a tombstone, leaves the cache good, whenever it takes effect. */
  lemma CacheAfterSet(cfg: Config, lim: Limits, timed: bool, s: State, ref: string, value: Stored, o: Origin,
                      reply: SetReply)
    requires CacheOk(cfg, lim, timed, s)
    requires value.Payload? ==> o.landed == s.now && DocOk(cfg, lim, timed, s, ref, value.doc, o)
    ensures CacheOk(cfg, lim, timed, SetIn(cfg, s, ref, value, o, reply))
  {
    var s' := SetIn(cfg, s, ref, value, o, reply);
    forall sid <- s'.entries ensures CopyOk(cfg, lim, timed, s', sid) {
      assert sid in s.entries ==> CopyOk(cfg, lim, timed, s, sid);
    }
    forall id <- s'.pending ensures LateOk(cfg, lim, timed, s', id) {
      assert id in s.pending ==> LateOk(cfg, lim, timed, s, id);
    }
  }

  lemma CacheAfterSettled(cfg: Config, lim: Limits, timed: bool, s: State, w: int, reply: SetReply, stamped: bool)
    requires CacheOk(cfg, lim, timed, s) && Enabled(s, Store(w, reply, stamped))
    requires PhaseOk(cfg, lim, timed, s, s.workers[w])
    requires timed ==> s.now <= s.workers[w].at + lim.d
    ensures CacheOk(cfg, lim, timed, Settled(cfg, s, w, reply, stamped))
  {
    var p := s.workers[w];
    var o := Origin(p.src, w, s.now, s.now);
    if p.answer.Live() {
      var doc := if stamped then Stamp(p.answer.c, s.now + cfg.offset(w)) else p.answer.c;
      CacheAfterSet(cfg, lim, timed, s, p.answer.c.sessionRef, Payload(doc), o, reply);
    } else {
      CacheAfterSet(cfg, lim, timed, s, p.req.sid.value, Tombstone, o, reply);
    }
  }

  lemma StoreNext(cfg: Config, lim: Limits, timed: bool, s: State, w: int, reply: SetReply, stamped: bool)
    requires Enabled(s, Store(w, reply, stamped)) && PhaseOk(cfg, lim, timed, s, s.workers[w])
    requires timed ==> s.now <= s.workers[w].at + lim.d
    ensures var p := s.workers[w];
            var s' := Settled(cfg, s, w, reply, stamped);
            if p.answer.Denied? || (p.answer.Live() && reply.Thrown?) then
              var outcome := if p.answer.Denied? then SessionMiss else CacheFailure;
              FinishOk(cfg, lim, timed, s'.answers, Finish(s'.now, p.req, outcome, p.t, None, Some(p.src)))
            else
              PhaseOk(cfg, lim, timed, s', Deciding(p.req, p.t, p.answer.c, Fin(0.0), FromAuth(p.at), p.src))
  {
  }

  lemma InvStore(cfg: Config, lim: Limits, timed: bool, s: State, w: int, reply: SetReply, stamped: bool)
    requires cfg.Valid() && Inv(cfg, lim, timed, s) && Enabled(s, Store(w, reply, stamped))
    requires timed ==> Bounded(cfg, lim) && OnTime(lim, s, Store(w, reply, stamped))
    ensures Inv(cfg, lim, timed, StepStore(cfg, s, w, reply, stamped))
  {
    var p := s.workers[w];
    CacheAfterSettled(cfg, lim, timed, s, w, reply, stamped);
    StoreNext(cfg, lim, timed, s, w, reply, stamped);
    var s' := Settled(cfg, s, w, reply, stamped);
    assert Grown(s, s');
    if p.answer.Denied? || (p.answer.Live() && reply.Thrown?) {
      var outcome := if p.answer.Denied? then SessionMiss else CacheFailure;
      AfterEnd(cfg, lim, timed, s, s', w, p.req, outcome, p.t, None, Some(p.src));
    } else {
      AfterGoto(cfg, lim, timed, s, s', w, Deciding(p.req, p.t, p.answer.c, Fin(0.0), FromAuth(p.at), p.src));
    }
  }

  lemma InvLand(cfg: Config, lim: Limits, timed: bool, s: State, id: int)
    requires cfg.Valid() && Inv(cfg, lim, timed, s) && Enabled(s, Land(id))
    requires timed ==> Bounded(cfg, lim) && OnTime(lim, s, Land(id))
    ensures Inv(cfg, lim, timed, StepLand(cfg, s, id))
  {
    var s', late := StepLand(cfg, s, id), s.pending[id];
    assert LateOk(cfg, lim, timed, s, id);
    GrownKeeps(cfg, lim, timed, s, s');
    forall sid <- s'.entries ensures CopyOk(cfg, lim, timed, s', sid) {
      assert sid in s.entries ==> CopyOk(cfg, lim, timed, s, sid);
    }
    forall i <- s'.pending ensures LateOk(cfg, lim, timed, s', i) {
      assert LateOk(cfg, lim, timed, s, i);
    }
  }

  lemma InvDecide(cfg: Config, lim: Limits, timed: bool, s: State, w: int)
    requires cfg.Valid() && Inv(cfg, lim, timed, s) && Enabled(s, Decide(w))
    requires timed ==> Bounded(cfg, lim) && OnTime(lim, s, Decide(w))
    ensures Inv(cfg, lim, timed, StepDecide(cfg, s, w))
  {
    var p := s.workers[w];
    var outcome := Judge(cfg, p.req.jti, p.c, p.age);
    if outcome.TokenSuperseded? && Fin(0.0).Below(p.age) && !p.t.retried {
      AfterGoto(cfg, lim, timed, s, s, w, Fetching(p.req, p.t.(retried := true)));
    } else {
      AfterEnd(cfg, lim, timed, s, s, w, p.req, outcome, p.t, Some((p.basis, p.age)), Some(p.src));
    }
  }

  lemma InvStart(cfg: Config, lim: Limits, timed: bool, s: State, w: int, req: Request)
    requires cfg.Valid() && Inv(cfg, lim, timed, s) && Enabled(s, Start(w, req))
    ensures Inv(cfg, lim, timed, StepStart(cfg, s, w, req))
  {
    var t := Trace(s.now, 0, false, false);
    if req.sid.None? {
      AfterEnd(cfg, lim, timed, s, s, w, req, Unauthenticated, t, None, None);
    } else if !req.consequential && cfg.RoutineBound(req.forceFresh) > 0.0 {
      AfterGoto(cfg, lim, timed, s, s, w, Reading(req, t));
    } else {
      AfterGoto(cfg, lim, timed, s, s, w, Fetching(req, t));
    }
  }

  lemma InvStep(cfg: Config, lim: Limits, timed: bool, s: State, a: Action)
    requires cfg.Valid() && Inv(cfg, lim, timed, s) && Enabled(s, a)
    requires timed ==> Bounded(cfg, lim) && OnTime(lim, s, a)
    ensures Inv(cfg, lim, timed, Step(cfg, s, a))
  {
    match a
    case Tick(_) =>
      var s' := Step(cfg, s, a);
      GrownKeeps(cfg, lim, timed, s, s');
      CopiesKept(cfg, lim, timed, s, s');
    case Evict(_) =>
      var s' := Step(cfg, s, a);
      GrownKeeps(cfg, lim, timed, s, s');
      CopiesKept(cfg, lim, timed, s, s');
    case Start(w, req) => InvStart(cfg, lim, timed, s, w, req);
    case ReadRoutine(w, fault) => InvReadRoutine(cfg, lim, timed, s, w, fault);
    case Answer(w, answer) => InvAnswer(cfg, lim, timed, s, w, answer);
    case Land(id) => InvLand(cfg, lim, timed, s, id);
    case Store(w, reply, stamped) => InvStore(cfg, lim, timed, s, w, reply, stamped);
    case ReadLastGood(w, fault) => InvReadLastGood(cfg, lim, timed, s, w, fault);
    case Decide(w) => InvDecide(cfg, lim, timed, s, w);
  }

  lemma {:induction false} InvRun(cfg: Config, lim: Limits, timed: bool, s: State, run: seq<Action>)
    requires cfg.Valid() && Inv(cfg, lim, timed, s) && Possible(cfg, s, run)
    requires timed ==> Bounded(cfg, lim) && Timely(cfg, lim, s, run)
    ensures Inv(cfg, lim, timed, Run(cfg, s, run))
    decreases |run|
  {
    if run != [] {
      InvStep(cfg, lim, timed, s, run[0]);
      InvRun(cfg, lim, timed, Step(cfg, s, run[0]), run[1..]);
    }
  }
}
