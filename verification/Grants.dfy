/** Which grants count for a request (src/falcon_auth/entitlement/grants.py). */
module Grants {
  import opened Wrappers
  import opened TrustContexts
  import R = Resolvers

  type Principal = R.Principal

  datatype GrantKind = SELF | SUBJECT | UNBOUND

  datatype TimeBound = OPTIONAL | REQUIRED

  /** One row of the platform's grant register. */
  datatype GrantRow = GrantRow(actorType: ActorType, kind: GrantKind, timeBound: Option<TimeBound>) {
    predicate UnboundedAllowed() {
      timeBound == Some(OPTIONAL)
    }
  }

  type GrantRegister = map<string, GrantRow>

  datatype Selection =
    | Selected(grants: seq<string>, subjectRef: Option<string>, delegationFor: map<string, string>)
    | ActorTypeNotAdmitted
    | SubjectNotReachable
    | FeedMismatch      // AuthzUnavailable: the feed and the register disagree
    | NoDelegation      // a SHADOW principal without one: the code's index error

  /** The feed's grant is registered, and belongs to the session's actor type. */
  predicate RowFits(name: string, actor: ActorType, register: GrantRegister) {
    name in register && register[name].actorType == actor
  }

  function IfKind(g: string, kind: GrantKind, register: GrantRegister): seq<string> {
    if g in register && register[g].kind == kind then [g] else []
  }

  function OfKind(held: seq<string>, kind: GrantKind, register: GrantRegister): seq<string> {
    if held == [] then [] else IfKind(held[0], kind, register) + OfKind(held[1..], kind, register)
  }

  /** What the delegation loop has gathered; Faulted is its 503. */
  datatype Walked = Walked(usable: seq<string>, refs: map<string, string>) | Faulted

  /** The delegation names the subject and its grant is one that may be delegated. */
  predicate Sound(d: Delegation, actor: ActorType, register: GrantRegister) {
    RowFits(d.grant, actor, register) && register[d.grant].kind == SUBJECT
  }

  /** A live delegation to the subject, unbounded only where the register allows it. */
  predicate Counts(d: Delegation, subject: string, actor: ActorType, register: GrantRegister, now: real) {
    && d.subjectRef == subject && Sound(d, actor, register)
    && (d.validUntil.None? ==> register[d.grant].UnboundedAllowed())
    && d.Live(now)
  }

  function Visit(w: Walked, d: Delegation, subject: string, actor: ActorType, register: GrantRegister,
                 now: real): Walked
  {
    if w.Faulted? || d.subjectRef != subject then w
    else if !Sound(d, actor, register) then Faulted
    else if !Counts(d, subject, actor, register, now) || d.grant in w.refs then w
    else Walked(w.usable + [d.grant], w.refs[d.grant := d.ref])
  }

  function Walk(ds: seq<Delegation>, subject: string, actor: ActorType, register: GrantRegister, now: real): Walked {
    if ds == [] then Walked([], map[])
    else Visit(Walk(ds[..|ds| - 1], subject, actor, register, now), ds[|ds| - 1], subject, actor, register, now)
  }

  function Select(principal: Principal, admitted: set<ActorType>, header: Option<string>,
                  register: GrantRegister, now: real): Selection
  {
    var actor := principal.actorType;
    var held := principal.entitlements;
    var shadow := principal.sessionKind == SHADOW;
    if actor !in admitted then ActorTypeNotAdmitted
    else if exists name <- held :: !RowFits(name, actor, register) then FeedMismatch
    else if admitted == {OPERATOR} then
      if header.Some? then SubjectNotReachable
      else Selected(OfKind(held, UNBOUND, register), None, map[])
    else if actor == OPERATOR && !shadow then ActorTypeNotAdmitted
    else if shadow && principal.delegations == [] then NoDelegation
    else if shadow && header != Some(principal.delegations[0].subjectRef) then SubjectNotReachable
    else match header
      case None => Selected(OfKind(held, SELF, register), None, map[])
      case Some(subject) =>
        match Walk(principal.delegations, subject, actor, register, now)
        case Faulted => FeedMismatch
        case Walked(usable, refs) =>
          if usable == [] then SubjectNotReachable else Selected(usable, header, refs)
  }

  /** select() as written: filters, then a loop over the delegations. */
  method SelectGrants(principal: Principal, admitted: set<ActorType>, header: Option<string>,
                      register: GrantRegister, now: real) returns (selection: Selection)
    ensures selection == Select(principal, admitted, header, register, now)
  {
    var actor := principal.actorType;
    if actor !in admitted {
      return ActorTypeNotAdmitted;
    }
    var held := principal.entitlements;
    for i := 0 to |held|
      invariant forall j :: 0 <= j < i ==> RowFits(held[j], actor, register)
    {
      if !RowFits(held[i], actor, register) {
        return FeedMismatch;
      }
    }
    if admitted == {OPERATOR} {
      if header.Some? {
        return SubjectNotReachable;
      }
      return Selected(OfKind(held, UNBOUND, register), None, map[]);
    }
    var shadow := principal.sessionKind == SHADOW;
    if actor == OPERATOR && !shadow {
      return ActorTypeNotAdmitted;
    }
    if shadow {
      if principal.delegations == [] {
        return NoDelegation;
      }
      if header != Some(principal.delegations[0].subjectRef) {
        return SubjectNotReachable;
      }
    }
    if header.None? {
      return Selected(OfKind(held, SELF, register), None, map[]);
    }
    var usable: seq<string> := [];
    var delegationFor: map<string, string> := map[];
    var ds := principal.delegations;
    for i := 0 to |ds|
      invariant Walk(ds[..i], header.value, actor, register, now) == Walked(usable, delegationFor)
    {
      var d := ds[i];
      assert ds[..i + 1][..i] == ds[..i];
      if d.subjectRef == header.value {
        if !RowFits(d.grant, actor, register) || register[d.grant].kind != SUBJECT {
          FaultPersists(ds, i + 1, header.value, actor, register, now);
          return FeedMismatch;
        }
        var row := register[d.grant];
        if !(d.validUntil.None? && !row.UnboundedAllowed()) && d.Live(now) {
          if d.grant !in delegationFor {
            usable := usable + [d.grant];
            delegationFor := delegationFor[d.grant := d.ref];
          }
        }
      }
    }
    assert ds[..|ds|] == ds;
    if usable == [] {
      return SubjectNotReachable;
    }
    selection := Selected(usable, header, delegationFor);
  }

  lemma {:induction false} FaultPersists(ds: seq<Delegation>, i: nat, subject: string, actor: ActorType,
                                         register: GrantRegister, now: real)
    requires i <= |ds| && Walk(ds[..i], subject, actor, register, now).Faulted?
    ensures Walk(ds, subject, actor, register, now).Faulted?
    decreases |ds|
  {
    if i < |ds| {
      assert ds[..|ds| - 1][..i] == ds[..i];
      FaultPersists(ds[..|ds| - 1], i, subject, actor, register, now);
    } else {
      assert ds[..i] == ds;
    }
  }

  // ---- what the selection means --------------------------------------------------------------

  predicate NoDuplicates(s: seq<string>) {
    forall i, j :: 0 <= i < j < |s| ==> s[i] != s[j]
  }

  /** The i-th delegation is the first that counts and carries this grant. */
  predicate First(ds: seq<Delegation>, i: int, grant: string, subject: string, actor: ActorType,
                  register: GrantRegister, now: real)
  {
    && 0 <= i < |ds| && ds[i].grant == grant && Counts(ds[i], subject, actor, register, now)
    && forall j :: 0 <= j < i ==> !(ds[j].grant == grant && Counts(ds[j], subject, actor, register, now))
  }

  /** The loop faults exactly on an unsound delegation to the subject. */
  lemma {:induction false} WalkFaults(ds: seq<Delegation>, subject: string, actor: ActorType,
                                      register: GrantRegister, now: real)
    ensures Walk(ds, subject, actor, register, now).Faulted? <==>
              exists d <- ds :: d.subjectRef == subject && !Sound(d, actor, register)
  {
    if ds != [] {
      var n := |ds| - 1;
      WalkFaults(ds[..n], subject, actor, register, now);
      assert ds == ds[..n] + [ds[n]];
    }
  }

  /** It gathers, once each, exactly the grants of the delegations that count. */
  lemma {:induction false} WalkGathers(ds: seq<Delegation>, subject: string, actor: ActorType,
                                       register: GrantRegister, now: real)
    ensures var w := Walk(ds, subject, actor, register, now);
            w.Walked? ==>
              && NoDuplicates(w.usable) && (forall g :: g in w.usable <==> g in w.refs)
              && forall g :: g in w.refs <==> exists d <- ds :: d.grant == g && Counts(d, subject, actor, register, now)
  {
    if ds != [] {
      var n := |ds| - 1;
      WalkGathers(ds[..n], subject, actor, register, now);
      assert ds == ds[..n] + [ds[n]];
    }
  }

  /** Each gathered grant is mapped to the first delegation that counts and carries it. */
  lemma {:induction false} WalkFirst(ds: seq<Delegation>, subject: string, actor: ActorType,
                                     register: GrantRegister, now: real, g: string) returns (i: int)
    requires var w := Walk(ds, subject, actor, register, now); w.Walked? && g in w.refs
    ensures First(ds, i, g, subject, actor, register, now)
            && Walk(ds, subject, actor, register, now).refs[g] == ds[i].ref
  {
    var n := |ds| - 1;
    var u := Walk(ds[..n], subject, actor, register, now);
    if g in u.refs {
      i := WalkFirst(ds[..n], subject, actor, register, now, g);
    } else {
      WalkGathers(ds[..n], subject, actor, register, now);
      i := n;
      forall j | 0 <= j < n ensures !(ds[j].grant == g && Counts(ds[j], subject, actor, register, now)) {
        assert ds[j] == ds[..n][j] && ds[j] in ds[..n];
      }
    }
  }

  lemma {:induction false} OfKindExact(held: seq<string>, kind: GrantKind, register: GrantRegister, g: string)
    ensures g in OfKind(held, kind, register) <==> g in held && g in register && register[g].kind == kind
  {
    if held != [] {
      OfKindExact(held[1..], kind, register, g);
      assert g in held <==> g == held[0] || g in held[1..];
    }
  }

  /** The one kind a selection may hold, fixed by the route and the header alone. */
  function KindFor(admitted: set<ActorType>, header: Option<string>): GrantKind {
    if admitted == {OPERATOR} then UNBOUND else if header.Some? then SUBJECT else SELF
  }

  /** Kinds never mix: every selected grant is registered, of the session's actor type, and of the single
      kind the route and the header fix; it is the caller's own, or a counted delegation's. */
  lemma KindsNeverMix(principal: Principal, admitted: set<ActorType>, header: Option<string>,
                      register: GrantRegister, now: real, g: string)
    requires var s := Select(principal, admitted, header, register, now); s.Selected? && g in s.grants
    ensures RowFits(g, principal.actorType, register) && register[g].kind == KindFor(admitted, header)
    ensures KindFor(admitted, header) != SUBJECT ==> g in principal.entitlements
    ensures KindFor(admitted, header) == SUBJECT ==>
              exists d <- principal.delegations ::
                d.grant == g && Counts(d, header.value, principal.actorType, register, now)
  {
    OfKindExact(principal.entitlements, KindFor(admitted, header), register, g);
    if header.Some? {
      WalkGathers(principal.delegations, header.value, principal.actorType, register, now);
    }
  }

  /** With a subject named: the grants are duplicate-free, are exactly the keys of delegation_for, and
      each names the first live permitted delegation to that subject. */
  lemma SubjectSelection(principal: Principal, admitted: set<ActorType>, subject: string,
                         register: GrantRegister, now: real)
    requires Select(principal, admitted, Some(subject), register, now).Selected?
    ensures var s := Select(principal, admitted, Some(subject), register, now);
            && s.subjectRef == Some(subject) && s.grants != [] && NoDuplicates(s.grants)
            && (forall g :: g in s.grants <==> g in s.delegationFor)
            && forall g <- s.delegationFor :: exists i ::
                 First(principal.delegations, i, g, subject, principal.actorType, register, now)
                 && s.delegationFor[g] == principal.delegations[i].ref
  {
    var s := Select(principal, admitted, Some(subject), register, now);
    WalkGathers(principal.delegations, subject, principal.actorType, register, now);
    forall g <- s.delegationFor
      ensures exists i :: First(principal.delegations, i, g, subject, principal.actorType, register, now)
                          && s.delegationFor[g] == principal.delegations[i].ref
    {
      var i := WalkFirst(principal.delegations, subject, principal.actorType, register, now, g);
    }
  }

  /** The grants come in the order of the delegations that first carry them. */
  lemma {:induction false} WalkOrdered(ds: seq<Delegation>, subject: string, actor: ActorType,
                                       register: GrantRegister, now: real, a: nat, b: nat) returns (i: int, j: int)
    requires var w := Walk(ds, subject, actor, register, now); w.Walked? && a < b < |w.usable|
    ensures var w := Walk(ds, subject, actor, register, now);
            && i < j && First(ds, i, w.usable[a], subject, actor, register, now)
            && First(ds, j, w.usable[b], subject, actor, register, now)
  {
    var n := |ds| - 1;
    var w, before := Walk(ds, subject, actor, register, now), Walk(ds[..n], subject, actor, register, now);
    if b < |before.usable| {
      i, j := WalkOrdered(ds[..n], subject, actor, register, now, a, b);
      FirstLifts(ds, i, w.usable[a], subject, actor, register, now);
      FirstLifts(ds, j, w.usable[b], subject, actor, register, now);
    } else {
      GatheredIsKnown(ds[..n], subject, actor, register, now, a);
      i := WalkFirst(ds[..n], subject, actor, register, now, before.usable[a]);
      FirstLifts(ds, i, w.usable[a], subject, actor, register, now);
      j := n;
      NewAtEnd(ds, subject, actor, register, now);
    }
  }

  lemma GatheredIsKnown(ds: seq<Delegation>, subject: string, actor: ActorType, register: GrantRegister, now: real,
                        a: nat)
    requires var w := Walk(ds, subject, actor, register, now); w.Walked? && a < |w.usable|
    ensures var w := Walk(ds, subject, actor, register, now); w.usable[a] in w.refs
  {
    WalkGathers(ds, subject, actor, register, now);
  }

  lemma FirstLifts(ds: seq<Delegation>, i: int, grant: string, subject: string, actor: ActorType,
                   register: GrantRegister, now: real)
    requires ds != [] && First(ds[..|ds| - 1], i, grant, subject, actor, register, now)
    ensures First(ds, i, grant, subject, actor, register, now)
  {
    forall j | 0 <= j < i ensures !(ds[j].grant == grant && Counts(ds[j], subject, actor, register, now)) {
      assert ds[..|ds| - 1][j] == ds[j];
    }
  }

  /** A grant the last delegation adds is first carried there. */
  lemma NewAtEnd(ds: seq<Delegation>, subject: string, actor: ActorType, register: GrantRegister, now: real)
    requires ds != [] && Walk(ds, subject, actor, register, now).Walked?
    requires Walk(ds, subject, actor, register, now).usable
             != Walk(ds[..|ds| - 1], subject, actor, register, now).usable
    ensures First(ds, |ds| - 1, ds[|ds| - 1].grant, subject, actor, register, now)
  {
    var n := |ds| - 1;
    WalkGathers(ds[..n], subject, actor, register, now);
    forall j | 0 <= j < n ensures !(ds[j].grant == ds[n].grant && Counts(ds[j], subject, actor, register, now)) {
      assert ds[..n][j] == ds[j] && ds[j] in ds[..n];
    }
  }

  // ---- the selection, in the register's own terms --------------------------------------------

  /** A delegation that counts: to this subject, of a subject grant of the session's actor type, and either ahead
      of its end or unbounded where the register says a bound is optional. */
  predicate LiveFor(d: Delegation, subject: string, actor: ActorType, register: GrantRegister, now: real) {
    && d.subjectRef == subject
    && d.grant in register && register[d.grant].actorType == actor && register[d.grant].kind == SUBJECT
    && (match d.validUntil
        case None => register[d.grant].timeBound == Some(OPTIONAL)
        case Some(end) => now < end)
  }

  /** The feed and the register disagree about something the caller holds. */
  predicate Misfit(principal: Principal, register: GrantRegister) {
    exists g <- principal.entitlements :: !(g in register && register[g].actorType == principal.actorType)
  }

  /** Or about a delegation to this subject. */
  predicate MisfitFor(principal: Principal, subject: string, register: GrantRegister) {
    exists d <- principal.delegations ::
      && d.subjectRef == subject
      && !(d.grant in register && register[d.grant].actorType == principal.actorType
           && register[d.grant].kind == SUBJECT)
  }

  /** A customer's route: what a session must be, by itself, to be served there. */
  predicate Serves(principal: Principal, header: Option<string>) {
    && (principal.actorType == OPERATOR ==> principal.sessionKind == SHADOW)
    && (principal.sessionKind == SHADOW ==>
          principal.delegations != [] && header == Some(principal.delegations[0].subjectRef))
  }

  predicate SomeLive(principal: Principal, subject: string, register: GrantRegister, now: real) {
    exists d <- principal.delegations :: LiveFor(d, subject, principal.actorType, register, now)
  }

  /** Every answer of select, by session, feed and subject: when it selects, and when it gives each refusal. */
  lemma SelectedExactly(principal: Principal, admitted: set<ActorType>, header: Option<string>,
                        register: GrantRegister, now: real)
    ensures var r := Select(principal, admitted, header, register, now);
            var known := principal.actorType in admitted && !Misfit(principal, register);
            && (r.Selected? <==>
                  && known
                  && (if admitted == {OPERATOR} then header.None?
                      else && Serves(principal, header)
                           && (header.Some? ==>
                                 && !MisfitFor(principal, header.value, register)
                                 && SomeLive(principal, header.value, register, now))))
            && (r == FeedMismatch <==>
                  && principal.actorType in admitted
                  && (|| Misfit(principal, register)
                      || (&& admitted != {OPERATOR} && Serves(principal, header) && header.Some?
                          && MisfitFor(principal, header.value, register))))
            && (r == ActorTypeNotAdmitted <==>
                  || principal.actorType !in admitted
                  || (&& known && admitted != {OPERATOR}
                      && principal.actorType == OPERATOR && principal.sessionKind != SHADOW))
            && (r == NoDelegation <==>
                  known && admitted != {OPERATOR} && principal.sessionKind == SHADOW && principal.delegations == [])
  {
    if header.Some? {
      WalkFaults(principal.delegations, header.value, principal.actorType, register, now);
      WalkLive(principal.delegations, header.value, principal.actorType, register, now);
    }
  }

  lemma WalkLive(ds: seq<Delegation>, subject: string, actor: ActorType, register: GrantRegister, now: real)
    ensures Walk(ds, subject, actor, register, now).Walked? ==>
              (Walk(ds, subject, actor, register, now).usable != []
               <==> exists d <- ds :: LiveFor(d, subject, actor, register, now))
  {
    var w := Walk(ds, subject, actor, register, now);
    WalkGathers(ds, subject, actor, register, now);
    forall d: Delegation
      ensures LiveFor(d, subject, actor, register, now) <==> Counts(d, subject, actor, register, now)
    {}
    if w.Walked? && w.usable != [] {
      assert w.usable[0] in w.refs;
    }
    if d :| w.Walked? && d in ds && LiveFor(d, subject, actor, register, now) {
      assert d.grant in w.usable;
    }
  }

  /** A request naming no subject counts every grant the caller holds of the route's one kind, and no other, in
      the order held; it names no delegation. */
  lemma OwnSelection(principal: Principal, admitted: set<ActorType>, register: GrantRegister, now: real)
    requires Select(principal, admitted, None, register, now).Selected?
    ensures var s := Select(principal, admitted, None, register, now);
            var kind := if admitted == {OPERATOR} then UNBOUND else SELF;
            && s.subjectRef == None && s.delegationFor == map[]
            && (forall g :: g in s.grants <==> g in principal.entitlements && g in register && register[g].kind == kind)
            && multiset(s.grants) <= multiset(principal.entitlements)
            && (forall g | g in register && register[g].kind == kind ::
                  multiset(s.grants)[g] == multiset(principal.entitlements)[g])
  {
    var kind := if admitted == {OPERATOR} then UNBOUND else SELF;
    forall g ensures g in OfKind(principal.entitlements, kind, register)
                     <==> g in principal.entitlements && g in register && register[g].kind == kind {
      OfKindExact(principal.entitlements, kind, register, g);
    }
    forall g ensures multiset(OfKind(principal.entitlements, kind, register))[g]
                     == if g in register && register[g].kind == kind then multiset(principal.entitlements)[g] else 0 {
      OfKindCounts(principal.entitlements, kind, register, g);
    }
  }

  lemma {:induction false} OfKindCounts(held: seq<string>, kind: GrantKind, register: GrantRegister, g: string)
    ensures multiset(OfKind(held, kind, register))[g]
            == if g in register && register[g].kind == kind then multiset(held)[g] else 0
  {
    if held != [] {
      OfKindCounts(held[1..], kind, register, g);
      assert held == [held[0]] + held[1..];
    }
  }

  /** Order: a grant held after the others is counted after them. */
  lemma {:induction false} OfKindInOrder(held: seq<string>, last: string, kind: GrantKind, register: GrantRegister)
    ensures OfKind(held + [last], kind, register)
            == OfKind(held, kind, register) + if last in register && register[last].kind == kind then [last] else []
  {
    if held == [] {
      assert held + [last] == [last] && [last][1..] == [];
      assert OfKind([], kind, register) == [];
    } else {
      OfKindInOrder(held[1..], last, kind, register);
      assert (held + [last])[1..] == held[1..] + [last];
      Regroup(IfKind(held[0], kind, register), OfKind(held[1..], kind, register), IfKind(last, kind, register));
    }
  }

  lemma Regroup(a: seq<string>, b: seq<string>, c: seq<string>)
    ensures a + (b + c) == (a + b) + c
  {
  }

  function To(ds: seq<Delegation>, subject: string): seq<Delegation> {
    if ds == [] then []
    else To(ds[..|ds| - 1], subject) + (if ds[|ds| - 1].subjectRef == subject then [ds[|ds| - 1]] else [])
  }

  lemma {:induction false} WalkReadsOnlyTo(ds: seq<Delegation>, subject: string, actor: ActorType,
                                           register: GrantRegister, now: real)
    ensures Walk(To(ds, subject), subject, actor, register, now) == Walk(ds, subject, actor, register, now)
  {
    if ds != [] {
      var before := ds[..|ds| - 1];
      WalkReadsOnlyTo(before, subject, actor, register, now);
      if ds[|ds| - 1].subjectRef == subject {
        assert To(ds, subject)[..|To(ds, subject)| - 1] == To(before, subject);
      } else {
        assert To(ds, subject) == To(before, subject);
      }
    }
  }

  /** Adding, removing or breaking delegations to other subjects -- and swapping the caller's own
      well-formed grants -- leaves a non-shadow selection for this subject unchanged. */
  lemma OthersDoNotMatter(a: Principal, b: Principal, admitted: set<ActorType>, subject: string,
                          register: GrantRegister, now: real)
    requires a.actorType == b.actorType && a.sessionKind == b.sessionKind && a.sessionKind != SHADOW
    requires To(a.delegations, subject) == To(b.delegations, subject)
    requires !Misfit(a, register) && !Misfit(b, register)
    ensures Select(a, admitted, Some(subject), register, now) == Select(b, admitted, Some(subject), register, now)
  {
    WalkReadsOnlyTo(a.delegations, subject, a.actorType, register, now);
    WalkReadsOnlyTo(b.delegations, subject, b.actorType, register, now);
  }
}
