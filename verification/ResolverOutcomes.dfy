/** What a resolve's outcome means, in the terms of auth's documents and the clock: the current-token table, the
    principal, elevation, outages. */
module ResolverOutcomes {
  import opened Wrappers
  import opened TrustContexts
  import opened TrustCaches
  import opened Resolvers
  import opened ResolverRuns
  import opened ResolverTheorems

  // ---- one context, judged -------------------------------------------------------------------

  /** The context is older than the current-token check allows. */
  predicate TooOld(cfg: Config, age: Secs) {
    cfg.staleness.Fin? && (age.Infinite? || age.s > cfg.staleness.s)
  }

  /** The check's table, row by row, lenient and strict: what each refusal says of the token, and when the
      context is accepted. Too old, or from a feed without the field, is never the token's fault. */
  lemma JudgedExactly(cfg: Config, jti: Option<string>, c: TrustContext, age: Secs)
    ensures var r := Judge(cfg, jti, c, age);
            var live := c.sessionState == 1;
            var current := c.Text("current_jti");
            var stale := TooOld(cfg, age);
            && (r == SessionMiss <==> !live)
            && (r == Unauthenticated <==> live && jti.None? && (cfg.strict || (!stale && current.Some?)))
            && (r == AuthzUnavailable <==>
                  live && cfg.strict && jti.Some? && (stale || "current_jti" !in c.optional))
            && (r == TokenSuperseded <==>
                  && live && jti.Some? && !stale
                  && (if current.Some? then current != jti else cfg.strict && "current_jti" in c.optional))
            && (r.Accepted? <==>
                  && live
                  && (if cfg.strict then jti.Some? && !stale && current == jti
                      else stale || current.None? || (jti.Some? && current == jti)))
  {
  }

  /** With no cache, a denial is a missing session, an outage is unavailability, and neither is ever anything
      else. */
  lemma CacheFreeExactly(cfg: Config, jti: Option<string>, answer: AuthAnswer)
    requires cfg.Valid()
    ensures CacheFree(cfg, jti, answer).Accepted? ==> answer.Context? && answer.c.sessionState == 1
    ensures answer.Denied? ==> CacheFree(cfg, jti, answer) == SessionMiss
    ensures answer.Unavailable? ==> CacheFree(cfg, jti, answer) == AuthzUnavailable
    ensures answer.Misconfigured? ==> CacheFree(cfg, jti, answer) == AuthzMisconfigured
    ensures answer.Context? && answer.c.sessionState == 1 && jti.Some? && answer.c.Text("current_jti") == jti ==>
              CacheFree(cfg, jti, answer).Accepted?
  {
  }

  // ---- the principal -------------------------------------------------------------------------

  /** The principal says what this document says of the user, the session, the actor and the delegations, and
      its entitlements are the document's grants with the host's veto applied. */
  predicate Speaks(cfg: Config, p: Principal, c: TrustContext) {
    && p.userRef == c.userRef && p.sessionRef == c.sessionRef
    && p.entitlements == cfg.veto(c.userRef, c.grants)
    && p.actorType == c.actorType && p.actorKind == c.Text("actor_kind") && p.sessionKind == c.sessionKind
    && p.delegations == c.delegations && p.deviceTrustLevel == c.deviceTrustLevel
    && (|| (p.sessionTrustLevel == c.sessionTrustLevel && p.elevatedUntil == c.elevatedUntil)
        || (c.sessionTrustLevel == 2 && p.sessionTrustLevel == 1 && p.elevatedUntil.NoWindow?))
  }

  /** What every principal a resolve hands out promises of its actor and session. */
  predicate WellFormed(cfg: Config, p: Principal) {
    && (p.actorType == OPERATOR <==> p.actorKind.Some?)
    && (p.sessionKind == SHADOW ==>
          p.actorType == OPERATOR && |p.delegations| == 1 && p.entitlements == cfg.veto(p.userRef, []))
  }

  lemma PrincipalSpeaks(cfg: Config, p: Principal, c: TrustContext)
    requires c.Valid() && PrincipalLowered(p, cfg.PrincipalOf(c))
    ensures Speaks(cfg, p, c) && WellFormed(cfg, p)
  {
    ValidMeans(c);
  }

  /** Every accepted principal is, field by field, one ENABLED answer that auth gave for the very session the
      token names; only its elevation may have been taken away. */
  lemma AcceptedSpeaksForAuth(cfg: Config, s: State, run: seq<Action>, f: Finish) returns (i: nat)
    requires cfg.Valid() && Initial(s) && Possible(cfg, s, run) && f in Run(cfg, s, run).finished
    requires f.outcome.Accepted?
    ensures var answers := Run(cfg, s, run).answers;
            && i < |answers| && answers[i].answer.Context? && answers[i].answer.c.sessionState == 1
            && answers[i].at <= f.at
            && f.req.sid == Some(answers[i].sid) && f.req.sid == Some(f.outcome.principal.sessionRef)
            && Speaks(cfg, f.outcome.principal, answers[i].answer.c)
            && WellFormed(cfg, f.outcome.principal)
  {
    Accounted(cfg, Limits(0.0, 0.0, 0.0), false, s, run, f);
    var answers := Run(cfg, s, run).answers;
    i := f.src.value;
    var answered := answers[i].answer.c;
    if f.judged.value.0.FromAuth? {
      PrincipalSpeaks(cfg, f.outcome.principal, answered);
    } else {
      var c := JudgedCopy(cfg, s, run, f);
      CopySpeaks(cfg, c, answered);
      PrincipalSpeaks(cfg, f.outcome.principal, answered);
    }
  }

  lemma CopySpeaks(cfg: Config, low: TrustContext, high: TrustContext)
    requires OnlyLowered(low, high)
    ensures PrincipalLowered(cfg.PrincipalOf(low), cfg.PrincipalOf(high))
  {
    assert low.Text(ACTOR_KIND) == high.Text(ACTOR_KIND);
  }

  /** The copy a resolve was judged on. */
  lemma JudgedCopy(cfg: Config, s: State, run: seq<Action>, f: Finish) returns (c: TrustContext)
    requires cfg.Valid() && Initial(s) && Possible(cfg, s, run) && f in Run(cfg, s, run).finished
    requires f.outcome.Accepted? && f.judged.Some? && !f.judged.value.0.FromAuth?
    ensures f.src.Some? && f.req.sid.Some?
    ensures var (basis, age) := f.judged.value;
            && ReadOk(cfg, Limits(0.0, 0.0, 0.0), false, Run(cfg, s, run).answers, f.req.sid.value, f.src.value, c, age,
                      basis.at, basis.reader)
            && f.outcome == Judge(cfg, f.req.jti, c, age)
  {
    Accounted(cfg, Limits(0.0, 0.0, 0.0), false, s, run, f);
    var (basis, age) := f.judged.value;
    c :| ReadOk(cfg, Limits(0.0, 0.0, 0.0), false, Run(cfg, s, run).answers, f.req.sid.value, f.src.value, c, age,
                basis.at, basis.reader)
         && f.outcome == Judge(cfg, f.req.jti, c, age);
  }

  /** No copy, routine or last-good, ever carries an elevation past its window: a principal accepted on one is
      elevated with a window only if the window's end is known and the reader's clock, when it read the copy,
      was before it. */
  lemma CopyElevationIsLive(cfg: Config, s: State, run: seq<Action>, f: Finish)
    requires cfg.Valid() && Initial(s) && Possible(cfg, s, run) && f in Run(cfg, s, run).finished
    requires f.outcome.Accepted? && f.judged.Some? && !f.judged.value.0.FromAuth?
    ensures var p, basis := f.outcome.principal, f.judged.value.0;
            p.sessionTrustLevel == 2 && !p.elevatedUntil.NoWindow? ==>
              p.elevatedUntil.Until? && basis.at + cfg.offset(basis.reader) < p.elevatedUntil.instant
  {
    var c := JudgedCopy(cfg, s, run, f);
  }

  // ---- outages, and operations where the entitlement is the control ---------------------------

  /** A consequential operation is only ever accepted on an answer fetched inside that very resolve, and when
      auth is down it is unavailable, never anything else. A request that names no session is refused with no
      fetch at all. */
  lemma ConsequentialFailsClosed(cfg: Config, s: State, run: seq<Action>, f: Finish)
    requires cfg.Valid() && Initial(s) && Possible(cfg, s, run) && f in Run(cfg, s, run).finished
    ensures f.req.consequential && f.outcome.Accepted? ==>
              && f.src.Some? && f.src.value < |Run(cfg, s, run).answers|
              && f.t.began <= Run(cfg, s, run).answers[f.src.value].at && f.t.fetches >= 1
    ensures f.req.consequential && f.t.sawOutage ==> f.outcome == AuthzUnavailable
    ensures f.req.sid.None? ==> f.outcome == Unauthenticated && f.t.fetches == 0
  {
    Accounted(cfg, Limits(0.0, 0.0, 0.0), false, s, run, f);
  }

  /** What a failing cache costs. A failed routine read is a miss, and auth is asked; a failed last-good read is
      the end, unavailable if it was swallowed. A failed write of an ENABLED answer that raises is the resolve's
      own failure; a failed tombstone never is: a denial is a missing session, and any other context is judged. */
  lemma CacheFaultsExactly(cfg: Config, s: State, w: int, fault: Fault, reply: SetReply)
    requires !fault.Works?
    ensures Enabled(s, ReadRoutine(w, fault)) ==>
              var after := Step(cfg, s, ReadRoutine(w, fault));
              w in after.workers && after.workers[w] == Fetching(s.workers[w].req, s.workers[w].t)
    ensures Enabled(s, ReadLastGood(w, fault)) ==>
              var after := Step(cfg, s, ReadLastGood(w, fault));
              && w !in after.workers && |after.finished| == |s.finished| + 1
              && after.finished[|s.finished|].outcome == (if fault.Raises? then CacheFailure else AuthzUnavailable)
    ensures Enabled(s, Store(w, reply, true)) ==>
              var answer, after := s.workers[w].answer, Step(cfg, s, Store(w, reply, true));
              if answer.Context? && !(answer.c.sessionState == 1 && reply.Thrown?) then
                w in after.workers && after.workers[w].Deciding?
                && after.workers[w].c == answer.c && after.workers[w].age == Fin(0.0)
              else
                && w !in after.workers && |after.finished| == |s.finished| + 1
                && after.finished[|s.finished|].outcome == (if answer.Context? then CacheFailure else SessionMiss)
  {
  }

  /** A routine read is served from a copy, with no fetch, while the copy is younger than both the routine window
      and jti_staleness and names the token's own jti. */
  lemma FreshCopyIsServed(cfg: Config, s: State, w: int, sid: string, jti: string, doc: TrustContext, stamp: real)
    returns (run: seq<Action>)
    requires cfg.Valid() && w !in s.workers && Unstamp(doc).Valid() && doc.sessionState == 1
    requires sid in s.entries && s.now < s.entries[sid].expires && s.entries[sid].value == Payload(doc)
    requires FETCHED_AT in doc.optional && doc.optional[FETCHED_AT] == Num(stamp)
    requires var age := s.now + cfg.offset(w) - stamp;
             0.0 <= age < cfg.routineTtl && (cfg.staleness.Fin? ==> age < cfg.staleness.s)
    requires Unstamp(doc).Text("current_jti") == Some(jti)
    ensures Possible(cfg, s, run) && forall a <- run :: !a.Answer?
    ensures exists f :: Run(cfg, s, run).finished == s.finished + [f] && f.outcome.Accepted?
                        && f.req == Request(Some(sid), Some(jti), false, false) && f.t.fetches == 0
  {
    var req := Request(Some(sid), Some(jti), false, false);
    var t := Trace(s.now, 0, false, false);
    var s1 := Goto(s, w, Reading(req, t));
    assert Step(cfg, s, Start(w, req)) == s1;
    var s2 := CopyInHand(cfg, s1, w);
    var p := s2.workers[w];
    JudgedExactly(cfg, req.jti, p.c, p.age);
    var f := Finish(s2.now, req, Judge(cfg, req.jti, p.c, p.age), t, Some((p.basis, p.age)), Some(p.src));
    assert Step(cfg, s2, Decide(w)).finished == s.finished + [f];
    RunCons(cfg, s2, Decide(w), []);
    RunCons(cfg, s1, ReadRoutine(w, Works), [Decide(w)] + []);
    RunCons(cfg, s, Start(w, req), [ReadRoutine(w, Works)] + ([Decide(w)] + []));
    run := [Start(w, req)] + ([ReadRoutine(w, Works)] + ([Decide(w)] + []));
  }
}
