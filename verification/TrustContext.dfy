/** The trust context of one session, as auth's feed carries it (src/falcon_auth/trustcontext.py).
    A JSON document is kept as its required fields plus the map of the optional and extra fields
    that were actually present, so that a field auth did not send stays distinct from a null one. */
module TrustContexts {
  import opened Wrappers

  /** A number of seconds, or Python's `math.inf`. */
  datatype Secs = Fin(s: real) | Infinite {
    predicate Below(that: Secs) {
      Fin? && (that.Infinite? || s < that.s)
    }
  }

  datatype Json = Null | Str(s: string) | Num(n: real) | NonFinite | Boolean(b: bool) | Compound

  datatype ActorType = CUSTOMER | OPERATOR | SERVICE | SYSTEM

  datatype SessionKind = NORMAL | SHADOW

  /** The elevation window: absent, an instant, or text that does not parse as one. */
  datatype Window = NoWindow | Until(instant: real) | Unreadable(text: string)

  datatype Delegation = Delegation(ref: string, grant: string, subjectRef: string,
                                   validUntil: Option<real>, caseRef: Option<string>)
  {
    /** No bound is live; otherwise the bound must lie strictly ahead. */
    predicate Live(now: real) {
      validUntil.None? || now < validUntil.value
    }
  }

  const SESSION_STATE_ENABLED := 1
  const SESSION_TRUST_AUTHENTICATED := 1
  const SESSION_TRUST_ELEVATED := 2

  const ACTOR_KIND := "actor_kind"
  const CURRENT_JTI := "current_jti"

  datatype TrustContext = TrustContext(
    sessionRef: string, userRef: string, clientRef: string, deviceRef: Option<string>,
    grants: seq<string>, sessionState: int, deviceTrustLevel: int, sessionTrustLevel: int,
    elevatedUntil: Window, actorType: ActorType, sessionKind: SessionKind,
    delegations: seq<Delegation>, optional: map<string, Json>)
  {
    predicate Enabled() {
      sessionState == SESSION_STATE_ENABLED
    }

    /** An optional string field as the model exposes it: absent and null both read as None. */
    function Text(key: string): Option<string> {
      if key in optional && optional[key].Str? then Some(optional[key].s) else None
    }

    predicate WellTyped() {
      && (ACTOR_KIND in optional ==>
            optional[ACTOR_KIND] in {Null, Str("AGENT"), Str("ADMIN"), Str("EXTERNAL")})
      && (CURRENT_JTI in optional ==> optional[CURRENT_JTI].Null? || optional[CURRENT_JTI].Str?)
    }

    /** The model validator: actor_kind iff OPERATOR, and the shape of a SHADOW session. */
    predicate SchemaRules() {
      && (actorType == OPERATOR <==> Text(ACTOR_KIND).Some?)
      && (if sessionKind == SHADOW then
            && actorType == OPERATOR && grants == [] && |delegations| == 1
            && delegations[0].caseRef.Some?
          else
            forall d <- delegations :: d.caseRef.None?)
    }

    predicate Valid() {
      WellTyped() && SchemaRules()
    }

    /** Collapse an elevation window that has passed or cannot be read. */
    function Project(now: real): TrustContext {
      if sessionTrustLevel != SESSION_TRUST_ELEVATED || elevatedUntil.NoWindow? then this
      else if elevatedUntil.Until? && now < elevatedUntil.instant then this
      else this.(sessionTrustLevel := SESSION_TRUST_AUTHENTICATED, elevatedUntil := NoWindow)
    }
  }

  /** What every context the feed's validation lets through promises of its actor and its session. */
  lemma ValidMeans(c: TrustContext)
    requires c.Valid()
    ensures c.actorType == OPERATOR <==> c.Text(ACTOR_KIND).Some?
    ensures c.Text(ACTOR_KIND).Some? ==> c.Text(ACTOR_KIND).value in {"AGENT", "ADMIN", "EXTERNAL"}
    ensures c.sessionKind == SHADOW ==>
              c.actorType == OPERATOR && c.grants == [] && |c.delegations| == 1 && c.delegations[0].caseRef.Some?
    ensures c.sessionKind != SHADOW ==> forall d <- c.delegations :: d.caseRef.None?
  {
  }

  /** An elevation bounded by a window is inside it: its end is known, and strictly ahead of the clock. */
  predicate WindowAhead(level: int, window: Window, clock: real) {
    level == SESSION_TRUST_ELEVATED && !window.NoWindow? ==> window.Until? && clock < window.instant
  }

  /** `low` is `high`, or `high` with its elevation taken away: nothing else may differ. */
  predicate OnlyLowered(low: TrustContext, high: TrustContext) {
    || low == high
    || (&& high.sessionTrustLevel == SESSION_TRUST_ELEVATED
        && low == high.(sessionTrustLevel := SESSION_TRUST_AUTHENTICATED, elevatedUntil := NoWindow))
  }

  /** Projection only ever lowers trust, is exact about when, never undoes a schema rule, and once
      it has lowered a context no later reading raises it again. */
  lemma ProjectLowersOnly(c: TrustContext, now: real, later: real)
    requires now <= later
    ensures OnlyLowered(c.Project(now), c)
    ensures c.Valid() ==> c.Project(now).Valid()
    ensures c.Project(now).Project(later) == c.Project(later)
    ensures c.Project(now) == c <==>
              (c.sessionTrustLevel == SESSION_TRUST_ELEVATED && !c.elevatedUntil.NoWindow? ==>
                 c.elevatedUntil.Until? && now < c.elevatedUntil.instant)
  {
  }
}
