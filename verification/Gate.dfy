/** The user-plane gate (the hook inside require(), src/falcon_auth/adapters/hooks.py): resolve, select,
    first match, and the one decision they make together under a linted policy. */
module Gate {
  import opened Wrappers
  import opened TrustContexts
  import R = Resolvers
  import RO = ResolverOutcomes
  import opened Policies
  import opened Enforcers
  import opened Grants

  datatype Verdict =
    | Opened
    | Unauthenticated
    | UnregisteredRoute
    | ResolveFailed(error: R.Outcome)
    | RouteNotFound
    | SubjectNotReachable
    | AuthzUnavailable
    | IndexFault
    | OnboardingIncomplete
    | CapabilityDenied

  /** The principal left on the request, with the subject, the grant that opened it and its delegation. */
  datatype Stamped = Stamped(principal: R.Principal, subjectRef: Option<string>, openedBy: Option<string>,
                             openedByDelegation: Option<string>)

  function Refusal(s: Selection): Verdict
    requires !s.Selected?
  {
    match s
    case ActorTypeNotAdmitted => RouteNotFound
    case SubjectNotReachable => Verdict.SubjectNotReachable
    case FeedMismatch => AuthzUnavailable
    case NoDelegation => IndexFault
  }

  function Stamp(principal: R.Principal, s: Selection, opener: Option<string>): Stamped
    requires s.Selected?
  {
    Stamped(principal, s.subjectRef, opener,
            if opener.Some? && opener.value in s.delegationFor then Some(s.delegationFor[opener.value]) else None)
  }

  /** The gate's verdict on a resolved principal. */
  function Decide(policy: Policy, register: GrantRegister, cap: string, principal: R.Principal,
                  admitted: set<ActorType>, header: Option<string>, now: real): Verdict
  {
    var s := Select(principal, admitted, header, register, now);
    if !s.Selected? then Refusal(s)
    else if policy.OpenedBy(s.grants, cap).Some? then Opened
    else if && s.subjectRef.None?
            && (set g | g in principal.entitlements) == {ONBOARDING_GRANT}
            && policy.OpenedBy([CUSTOMER_GRANT], cap).Some?
      then OnboardingIncomplete
    else CapabilityDenied
  }

  /** The request's own objects that the hook writes to. */
  class Exchange {
    var principal: Option<Stamped>
    var vary: seq<string>

    constructor ()
      ensures principal == None && vary == []
    {
      principal, vary := None, [];
    }
  }

  const SUBJECT_REF_HEADER := "Subject-Ref"

  /** The hook: a missing user, or a route with no declared actor types, is refused before anything is
      resolved; a Subject-Ref is answered with Vary whatever follows; the principal is stamped whether or
      not the route opens. */
  method Require(enforcer: CapabilityEnforcer, register: GrantRegister, cap: string, hasUser: bool,
                 admitted: set<ActorType>, resolved: R.Outcome, header: Option<string>, now: real, x: Exchange)
    returns (verdict: Verdict)
    modifies x
    ensures !hasUser ==> verdict == Unauthenticated
    ensures hasUser && admitted == {} ==> verdict == UnregisteredRoute
    ensures hasUser && admitted != {} && !resolved.Accepted? ==> verdict == ResolveFailed(resolved)
    ensures var reached := hasUser && admitted != {} && resolved.Accepted?;
            && (reached ==>
                  verdict == Decide(enforcer.Value(), register, cap, resolved.principal, admitted, header, now))
            && x.vary == old(x.vary) + (if reached && header.Some? then [SUBJECT_REF_HEADER] else [])
            && (if reached && Select(resolved.principal, admitted, header, register, now).Selected? then
                  var s := Select(resolved.principal, admitted, header, register, now);
                  x.principal == Some(Stamp(resolved.principal, s, enforcer.Value().OpenedBy(s.grants, cap)))
                else x.principal == old(x.principal))
  {
    if !hasUser {
      return Unauthenticated;
    }
    if admitted == {} {
      return UnregisteredRoute;
    }
    if !resolved.Accepted? {
      return ResolveFailed(resolved);
    }
    if header.Some? {
      x.vary := x.vary + [SUBJECT_REF_HEADER];
    }
    var selection := SelectGrants(resolved.principal, admitted, header, register, now);
    if !selection.Selected? {
      return Refusal(selection);
    }
    var opener := enforcer.OpenedBy(selection.grants, cap);
    x.principal := Some(Stamp(resolved.principal, selection, opener));
    if opener.Some? {
      return Opened;
    }
    if selection.subjectRef.None? && (set g | g in resolved.principal.entitlements) == {ONBOARDING_GRANT} {
      var other := enforcer.OpenedBy([CUSTOMER_GRANT], cap);
      if other.Some? {
        return OnboardingIncomplete;
      }
    }
    verdict := CapabilityDenied;
  }

  // ---- the decision, end to end --------------------------------------------------------------

  /** The deployment: one linted policy built over the register the gate reads. */
  datatype Deployment = Deployment(registry: Registry, expansion: Rows, peers: Rows, register: GrantRegister,
                                   depth: nat)
  {
    predicate Linted() {
      depth >= 1 && VerifyPolicy(registry, expansion, Some(register.Keys), peers).Passed?
    }

    function RegistryRows(): Rows
      requires Normalise(registry).Some?
    {
      Normalise(registry).value
    }

    function Policy(): Policy
      requires Normalise(registry).Some?
    {
      Build(RegistryRows(), expansion, peers, depth)
    }

    /** The grant's own row lists an entitlement that the capability's row lists. */
    predicate Reaches(grant: string, cap: string)
      requires Normalise(registry).Some?
    {
      cap in RegistryRows() && Meets(OwnRow(expansion, peers, grant), RegistryRows()[cap])
    }
  }

  lemma LintedNormalises(d: Deployment)
    requires d.Linted()
    ensures Normalise(d.registry).Some?
  {
  }

  /** A list of registered grants opens a capability exactly when one of them reaches it in two hops. */
  lemma RegisteredOpen(d: Deployment, grants: seq<string>, cap: string)
    requires d.Linted() && Normalise(d.registry).Some? && cap in d.registry
    requires forall g <- grants :: g in d.register
    ensures d.Policy().OpenedBy(grants, cap).Some? <==> exists g <- grants :: d.Reaches(g, cap)
    ensures var opener := d.Policy().OpenedBy(grants, cap);
            opener.Some? ==> opener.value in grants && d.Reaches(opener.value, cap)
  {
    OpenedByExact(d.Policy(), grants, cap);
    forall g <- grants ensures d.Policy().Enforce(g, cap) <==> d.Reaches(g, cap) {
      TwoHops(d.registry, d.expansion, d.register.Keys, d.peers, d.depth, g, cap);
    }
  }

  /** A request naming a subject is opened exactly when the route admits the session and the session may name
      that subject, the feed and the register agree about what it holds, and some delegation to the subject is
      live, permitted by the register, and carries a grant that reaches the capability in two hops. */
  lemma SubjectRequestExact(d: Deployment, cap: string, principal: R.Principal, admitted: set<ActorType>,
                            subject: string, now: real)
    requires d.Linted() && cap in d.registry
    ensures Normalise(d.registry).Some?
    ensures Decide(d.Policy(), d.register, cap, principal, admitted, Some(subject), now).Opened? <==>
              && principal.actorType in admitted && admitted != {OPERATOR} && Serves(principal, Some(subject))
              && !Misfit(principal, d.register) && !MisfitFor(principal, subject, d.register)
              && exists x <- principal.delegations ::
                   LiveFor(x, subject, principal.actorType, d.register, now) && d.Reaches(x.grant, cap)
  {
    LintedNormalises(d);
    var actor := principal.actorType;
    var ds := principal.delegations;
    SelectedExactly(principal, admitted, Some(subject), d.register, now);
    WalkGathers(ds, subject, actor, d.register, now);
    var s := Select(principal, admitted, Some(subject), d.register, now);
    forall x: Delegation
      ensures LiveFor(x, subject, actor, d.register, now) <==> Counts(x, subject, actor, d.register, now)
    {}
    if s.Selected? {
      forall g <- s.grants ensures g in d.register {
        KindsNeverMix(principal, admitted, Some(subject), d.register, now, g);
      }
      RegisteredOpen(d, s.grants, cap);
      forall x <- ds | LiveFor(x, subject, actor, d.register, now) ensures x.grant in s.grants {}
    }
  }

  /** A request naming no subject is opened exactly when the route admits the session and serves it without a
      subject, what it holds fits the register, and some grant it holds of the route's one kind reaches the
      capability in two hops. */
  lemma OwnRequestExact(d: Deployment, cap: string, principal: R.Principal, admitted: set<ActorType>, now: real)
    requires d.Linted() && cap in d.registry
    ensures Normalise(d.registry).Some?
    ensures var kind := if admitted == {OPERATOR} then UNBOUND else SELF;
            Decide(d.Policy(), d.register, cap, principal, admitted, None, now).Opened? <==>
              && principal.actorType in admitted && !Misfit(principal, d.register)
              && (admitted != {OPERATOR} ==> principal.actorType != OPERATOR && principal.sessionKind != SHADOW)
              && exists g <- principal.entitlements ::
                   g in d.register && d.register[g].kind == kind && d.Reaches(g, cap)
  {
    LintedNormalises(d);
    SelectedExactly(principal, admitted, None, d.register, now);
    var s := Select(principal, admitted, None, d.register, now);
    if s.Selected? {
      OwnSelection(principal, admitted, d.register, now);
      RegisteredOpen(d, s.grants, cap);
    }
  }

  /** Which answer each failure is given: a session the route does not admit is told the route is not there, a
      feed and a register that disagree are our fault, a subject out of reach is a subject out of reach; a 423
      is said of exactly the sessions holding nothing but ONBOARDING_GRANT that name no subject, when their own
      grants do not open the route and CUSTOMER_GRANT would; and everything else is denied. */
  lemma AnsweredExactly(policy: Policy, register: GrantRegister, cap: string, principal: R.Principal,
                        admitted: set<ActorType>, header: Option<string>, now: real)
    ensures var r := Decide(policy, register, cap, principal, admitted, header, now);
            var s := Select(principal, admitted, header, register, now);
            var opens := s.Selected? && exists g <- s.grants :: policy.Enforce(g, cap);
            var onboarding := && s.Selected? && header.None?
                              && ONBOARDING_GRANT in principal.entitlements
                              && (forall g <- principal.entitlements :: g == ONBOARDING_GRANT)
                              && policy.Enforce(CUSTOMER_GRANT, cap);
            && (r == RouteNotFound <==> s == ActorTypeNotAdmitted)
            && (r == AuthzUnavailable <==> s == FeedMismatch)
            && (r == Verdict.SubjectNotReachable <==> s == Selection.SubjectNotReachable)
            && (r == IndexFault <==> s == NoDelegation)
            && (r == Opened <==> opens)
            && (r == OnboardingIncomplete <==> !opens && onboarding)
            && (r == CapabilityDenied <==> s.Selected? && !opens && !onboarding)
  {
    var s := Select(principal, admitted, header, register, now);
    if s.Selected? {
      OpenedByExact(policy, s.grants, cap);
      SubjectOnlyNamed(principal, admitted, header, register, now);
    }
    OpenedByExact(policy, [CUSTOMER_GRANT], cap);
    var held := set g | g in principal.entitlements;
    assert held == {ONBOARDING_GRANT}
           <==> && ONBOARDING_GRANT in principal.entitlements
                && forall g <- principal.entitlements :: g == ONBOARDING_GRANT by
    {
      assert forall g :: g in held <==> g in principal.entitlements;
    }
  }

  lemma SubjectOnlyNamed(principal: R.Principal, admitted: set<ActorType>, header: Option<string>,
                         register: GrantRegister, now: real)
    requires Select(principal, admitted, header, register, now).Selected?
    ensures Select(principal, admitted, header, register, now).subjectRef == header
  {
  }

  /** A principal a resolve hands out never meets the shadow check's index error. */
  lemma ResolvedNeverFaults(cfg: R.Config, policy: Policy, register: GrantRegister, cap: string, principal: R.Principal,
                            admitted: set<ActorType>, header: Option<string>, now: real)
    requires RO.WellFormed(cfg, principal)
    ensures Decide(policy, register, cap, principal, admitted, header, now) != IndexFault
  {
    SelectedExactly(principal, admitted, header, register, now);
  }

  /** The grant recorded as having opened the route reaches it, and its recorded delegation is the first
      live permitted one to the subject that carries it. */
  lemma AuditLineIsTrue(d: Deployment, cap: string, principal: R.Principal, admitted: set<ActorType>,
                        subject: string, now: real)
    returns (i: int)
    requires d.Linted() && cap in d.registry && Normalise(d.registry).Some?
    requires Decide(d.Policy(), d.register, cap, principal, admitted, Some(subject), now).Opened?
    ensures var s := Select(principal, admitted, Some(subject), d.register, now);
            var stamped := Stamp(principal, s, d.Policy().OpenedBy(s.grants, cap));
            && stamped.subjectRef == Some(subject) && stamped.openedBy.Some?
            && d.Reaches(stamped.openedBy.value, cap)
            && First(principal.delegations, i, stamped.openedBy.value, subject, principal.actorType, d.register, now)
            && stamped.openedByDelegation == Some(principal.delegations[i].ref)
  {
    var s := Select(principal, admitted, Some(subject), d.register, now);
    forall g <- s.grants ensures g in d.register {
      KindsNeverMix(principal, admitted, Some(subject), d.register, now, g);
    }
    RegisteredOpen(d, s.grants, cap);
    SubjectSelection(principal, admitted, subject, d.register, now);
    var g := d.Policy().OpenedBy(s.grants, cap).value;
    i :| First(principal.delegations, i, g, subject, principal.actorType, d.register, now)
         && s.delegationFor[g] == principal.delegations[i].ref;
  }

  /** The caller's own well-formed grants cannot change the verdict on a request naming a subject. */
  lemma OwnGrantsDoNotOpenSubjects(policy: Policy, register: GrantRegister, cap: string, principal: R.Principal,
                                   others: seq<string>, admitted: set<ActorType>, subject: string, now: real)
    requires !Misfit(principal, register) && !Misfit(principal.(entitlements := others), register)
    ensures Decide(policy, register, cap, principal, admitted, Some(subject), now)
         == Decide(policy, register, cap, principal.(entitlements := others), admitted, Some(subject), now)
  {
  }

  /** Exactly when a 423 tells the truth: the same request holding CUSTOMER_GRANT instead would pass if and
      only if the register gives CUSTOMER_GRANT the session's actor type and the kind the route counts. */
  lemma OnboardingIsTheOnlyObstacle(policy: Policy, register: GrantRegister, cap: string, principal: R.Principal,
                                    admitted: set<ActorType>, header: Option<string>, now: real)
    requires Decide(policy, register, cap, principal, admitted, header, now).OnboardingIncomplete?
    ensures header.None? && principal.actorType in admitted
    ensures Decide(policy, register, cap, principal.(entitlements := [CUSTOMER_GRANT]), admitted, header, now).Opened?
            <==>
              && RowFits(CUSTOMER_GRANT, principal.actorType, register)
              && register[CUSTOMER_GRANT].kind == KindFor(admitted, None)
    ensures CUSTOMER_GRANT in register && register[CUSTOMER_GRANT].actorType == CUSTOMER
            && register[CUSTOMER_GRANT].kind == SELF
            && ONBOARDING_GRANT in register && register[ONBOARDING_GRANT].actorType == CUSTOMER ==>
              Decide(policy, register, cap, principal.(entitlements := [CUSTOMER_GRANT]), admitted, header, now).Opened?
  {
    var swapped := principal.(entitlements := [CUSTOMER_GRANT]);
    var kind := KindFor(admitted, None);
    assert OfKind([CUSTOMER_GRANT][1..], kind, register) == [];
    assert OfKind([CUSTOMER_GRANT], kind, register) ==
           if CUSTOMER_GRANT in register && register[CUSTOMER_GRANT].kind == kind then [CUSTOMER_GRANT] else [];
    assert ONBOARDING_GRANT in principal.entitlements by {
      assert ONBOARDING_GRANT in (set g | g in principal.entitlements);
    }
    var s := Select(principal, admitted, header, register, now);
    assert s.subjectRef == if admitted == {OPERATOR} then None else header;
  }
}
