/** Which credential may open each endpoint (src/falcon_auth/adapters/middleware.py): the five-step resolution
    with its bounded search for a credential of another plane, and the boot sweep. */
module Middleware {
  import opened Wrappers
  import opened Strings
  import opened TrustContexts
  import opened Routing
  import opened Mounting
  import opened Selectors

  datatype Method = JWT | MTLS | HMAC | ONE_SHOT_TOKEN | REFERENCE_TOKEN | DPOP_PROOF

  datatype Entry = Entry(name: string, kind: Option<Method>, plane: Plane, selector: Option<Selector>,
                         absentError: string)

  /** What an authenticator says of a request: nothing of its kind, valid (perhaps only a forwarding hop's
      certificate), or present and not valid. */
  datatype Reply = Absent | Valid(principal: string, transport: bool) | Invalid(error: string)

  type Replies = string -> Reply   // by authenticator name

  // ---- wiring --------------------------------------------------------------------------------

  predicate MethodOn(m: Method, plane: Plane) {
    match plane
    case USER => m == JWT
    case CLIENT => m in {DPOP_PROOF, REFERENCE_TOKEN, ONE_SHOT_TOKEN}
    case SERVICE_PLANE => m == MTLS
    case CALLBACK => m in {HMAC, ONE_SHOT_TOKEN}
    case PUBLIC => false
  }

  predicate Conventional(e: Entry) {
    e.plane != CLIENT && (e.kind.Some? ==> MethodOn(e.kind.value, e.plane))
  }

  /** The conventions, method by method: each method a resource service may use authenticates on one plane, the
      identity provider's two on none; and an authenticator of no stated method may sit anywhere but CLIENT. */
  lemma ConventionExactly(e: Entry)
    ensures Conventional(e) <==>
              && e.plane != CLIENT
              && (e.kind == Some(JWT) ==> e.plane == USER)
              && (e.kind == Some(MTLS) ==> e.plane == SERVICE_PLANE)
              && (e.kind == Some(HMAC) || e.kind == Some(ONE_SHOT_TOKEN) ==> e.plane == CALLBACK)
              && e.kind != Some(REFERENCE_TOKEN) && e.kind != Some(DPOP_PROOF)
  {
    if e.kind.Some? {
      match e.kind.value
      case JWT =>
      case MTLS =>
      case HMAC =>
      case ONE_SHOT_TOKEN =>
      case REFERENCE_TOKEN =>
      case DPOP_PROOF =>
    }
  }

  predicate Clash(a: Entry, b: Entry) {
    a.plane != b.plane && a.selector.Some? && b.selector.Some? && a.selector.value.Overlaps(b.selector.value)
  }

  predicate CarriersApart(entries: seq<Entry>) {
    forall i, j | 0 <= i < j < |entries| :: !Clash(entries[i], entries[j])
  }

  predicate Wired(entries: seq<Entry>) {
    (forall e <- entries :: Conventional(e)) && CarriersApart(entries)
  }

  datatype Wiring = Sound | OffConvention(names: seq<string>) | SharedCarrier(pairs: seq<(string, string)>)

  /** The two construction checks: conventions first, then every pair of carriers. */
  method CheckWiring(entries: seq<Entry>) returns (w: Wiring)
    ensures w == Sound <==> Wired(entries)
    ensures w.OffConvention? <==> exists e <- entries :: !Conventional(e)
    ensures w.SharedCarrier? <==> (forall e <- entries :: Conventional(e)) && !CarriersApart(entries)
  {
    var stray: seq<string> := [];
    for i := 0 to |entries|
      invariant stray == [] <==> forall k | 0 <= k < i :: Conventional(entries[k])
    {
      if !Conventional(entries[i]) {
        stray := stray + [entries[i].name];
      }
    }
    if stray != [] {
      return OffConvention(stray);
    }
    var pairs: seq<(string, string)> := [];
    for i := 0 to |entries|
      invariant pairs == [] <==> forall a, b | 0 <= a < i && a < b < |entries| :: !Clash(entries[a], entries[b])
    {
      for j := i + 1 to |entries|
        invariant pairs == [] <==> (forall a, b | 0 <= a < i && a < b < |entries| :: !Clash(entries[a], entries[b]))
                                   && forall b | i < b < j :: !Clash(entries[i], entries[b])
      {
        if Clash(entries[i], entries[j]) {
          pairs := pairs + [(entries[i].name, entries[j].name)];
        }
      }
    }
    w := if pairs == [] then Sound else SharedCarrier(pairs);
  }

  /** Some header value of this request is a credential on two planes. */
  predicate Confused(entries: seq<Entry>, headers: Headers) {
    exists a <- entries, b <- entries ::
      && a.plane != b.plane && a.selector.Some? && b.selector.Some?
      && BothRead(headers, a.selector.value, b.selector.value)
  }

  lemma ApartEitherWay(entries: seq<Entry>, a: Entry, b: Entry)
    requires CarriersApart(entries) && a in entries && b in entries && a.plane != b.plane
    ensures !Clash(a, b)
  {
    var i :| 0 <= i < |entries| && entries[i] == a;
    var j :| 0 <= j < |entries| && entries[j] == b;
    assert i < j || j < i;
    assert Clash(a, b) <==> Clash(b, a);
  }

  predicate ReadableClash(entries: seq<Entry>) {
    exists a <- entries, b <- entries ::
      Clash(a, b) && a.selector.value.Readable() && b.selector.value.Readable()
  }

  /** Some request can carry a value that is a credential on two planes exactly when two authenticators clash
      on schemes a header value can open with; so construction passing rules it out. */
  lemma CarrierCheckExact(entries: seq<Entry>)
    ensures (exists headers :: Confused(entries, headers)) <==> ReadableClash(entries)
    ensures CarriersApart(entries) ==> forall headers :: !Confused(entries, headers)
  {
    if headers :| Confused(entries, headers) {
      var a, b :| a in entries && b in entries && a.plane != b.plane && a.selector.Some? && b.selector.Some?
                  && BothRead(headers, a.selector.value, b.selector.value);
      OverlapsExact(a.selector.value, b.selector.value);
      assert Clash(a, b);
    }
    if ReadableClash(entries) {
      var a, b :| a in entries && b in entries && Clash(a, b)
                  && a.selector.value.Readable() && b.selector.value.Readable();
      OverlapsExact(a.selector.value, b.selector.value);
      var headers :| BothRead(headers, a.selector.value, b.selector.value);
      assert Confused(entries, headers);
      assert !CarriersApart(entries) by {
        if CarriersApart(entries) { ApartEitherWay(entries, a, b); }
      }
    }
  }

  /** Any selector overlaps itself, the peer certificate's among them. So two authenticators on one carrier but
      two planes are never wired: the refusal is the shared carrier's exactly when every authenticator is
      conventional, and two of the peer certificate method never are, so those are refused off convention,
      before any carrier is compared. */
  lemma SameCarrierPair(entries: seq<Entry>, a: Entry, b: Entry)
    requires a in entries && b in entries && a.plane != b.plane && a.selector.Some? && a.selector == b.selector
    ensures a.selector.value.Overlaps(b.selector.value) && !CarriersApart(entries) && !Wired(entries)
    ensures a.kind == Some(MTLS) && b.kind == Some(MTLS) ==> exists e <- entries :: !Conventional(e)
  {
    assert Clash(a, b);
    if CarriersApart(entries) {
      ApartEitherWay(entries, a, b);
    }
    assert a.kind == Some(MTLS) && b.kind == Some(MTLS) ==> !Conventional(a) || !Conventional(b);
  }

  // ---- the one credential an endpoint accepts ------------------------------------------------

  datatype Resolved = One(entry: Entry) | BadPin | Missing | Ambiguous

  function OnPlane(entries: seq<Entry>, plane: Plane): seq<Entry> {
    if entries == [] then []
    else (if entries[0].plane == plane then [entries[0]] else []) + OnPlane(entries[1..], plane)
  }

  function Named(entries: seq<Entry>, name: string): Option<Entry> {
    if entries == [] then None
    else if entries[0].name == name then Some(entries[0]) else Named(entries[1..], name)
  }

  function AcceptedBy(entries: seq<Entry>, r: Registration): Resolved {
    if r.credential.Some? then
      var pinned := Named(entries, r.credential.value);
      if pinned.None? || pinned.value.plane != r.plane then BadPin else One(pinned.value)
    else
      var on := OnPlane(entries, r.plane);
      if on == [] then Missing else if |on| > 1 then Ambiguous else One(on[0])
  }

  lemma {:induction false} OnPlaneExact(entries: seq<Entry>, plane: Plane, e: Entry)
    ensures e in OnPlane(entries, plane) <==> e in entries && e.plane == plane
  {
    if entries != [] {
      OnPlaneExact(entries[1..], plane, e);
      assert e in entries <==> e == entries[0] || e in entries[1..];
    }
  }

  lemma {:induction false} NamedExact(entries: seq<Entry>, name: string)
    ensures var found := Named(entries, name);
            if found.Some? then found.value in entries && found.value.name == name
            else forall e <- entries :: e.name != name
  {
    if entries != [] && entries[0].name != name {
      NamedExact(entries[1..], name);
      assert forall e <- entries :: e == entries[0] || e in entries[1..];
    }
  }

  /** The supplied authenticators are kept under distinct names. */
  predicate OwnNames(entries: seq<Entry>) {
    forall i, j | 0 <= i < j < |entries| :: entries[i].name != entries[j].name
  }

  lemma {:induction false} OnPlaneOnce(entries: seq<Entry>, plane: Plane)
    requires OwnNames(entries)
    ensures var on := OnPlane(entries, plane); forall i, j | 0 <= i < j < |on| :: on[i] != on[j]
  {
    if entries != [] {
      var rest := OnPlane(entries[1..], plane);
      OnPlaneOnce(entries[1..], plane);
      forall k | 0 <= k < |rest| ensures rest[k] != entries[0] {
        OnPlaneExact(entries[1..], plane, rest[k]);
        var i :| 0 <= i < |entries| - 1 && entries[1..][i] == rest[k];
        assert entries[i + 1].name != entries[0].name;
      }
    }
  }

  /** Which credential may open an endpoint: pinned, the supplied one of that name, if it is on the endpoint's
      plane; unpinned, the one on its plane, if there is exactly one. Nothing else ever. */
  lemma OpensExactly(entries: seq<Entry>, r: Registration, e: Entry)
    requires OwnNames(entries)
    ensures AcceptedBy(entries, r) == One(e) <==>
              && e in entries && e.plane == r.plane
              && (if r.credential.Some? then e.name == r.credential.value
                  else forall other <- entries :: other.plane == r.plane ==> other == e)
  {
    if r.credential.Some? {
      NamedExact(entries, r.credential.value);
    } else {
      var on := OnPlane(entries, r.plane);
      OnPlaneOnce(entries, r.plane);
      OnPlaneExact(entries, r.plane, e);
      forall other <- entries ensures other in on <==> other.plane == r.plane {
        OnPlaneExact(entries, r.plane, other);
      }
      if on != [] {
        OnPlaneExact(entries, r.plane, on[0]);
        OnPlaneExact(entries, r.plane, on[|on| - 1]);
        assert on[0] in on && on[|on| - 1] in on;
      }
    }
  }

  function NameOf(e: Entry): string {
    e.name
  }

  /** The order in which the supplied authenticators are tried: by name. */
  function ByName(entries: seq<Entry>): seq<Entry> {
    SortBy(entries, NameOf)
  }

  predicate InNameOrder(entries: seq<Entry>) {
    forall i, j | 0 <= i < j < |entries| :: Before(entries[i].name, entries[j].name)
  }

  /** The same authenticators, each later one's name strictly after the earlier ones'. */
  lemma ByNameExact(entries: seq<Entry>)
    requires OwnNames(entries)
    ensures InNameOrder(ByName(entries))
    ensures forall e :: e in ByName(entries) <==> e in entries
  {
    var sorted := ByName(entries);
    SortByExact(entries, NameOf);
    forall e ensures e in sorted <==> e in entries {
      assert e in multiset(sorted) <==> e in multiset(entries);
    }
    forall i, j | 0 <= i < j < |sorted| ensures sorted[i].name != sorted[j].name {
      DistinctKept(entries, sorted, i, j);
    }
  }

  lemma DistinctKept(entries: seq<Entry>, sorted: seq<Entry>, i: nat, j: nat)
    requires OwnNames(entries) && multiset(sorted) == multiset(entries) && i < j < |sorted|
    ensures sorted[i].name != sorted[j].name
  {
    var a, b := sorted[i], sorted[j];
    Twice(sorted, i, j);
    Once(entries, a);
    assert a != b;
    assert a in multiset(sorted) && b in multiset(sorted);
    var p :| 0 <= p < |entries| && entries[p] == a;
    var q :| 0 <= q < |entries| && entries[q] == b;
    assert p < q || q < p;
  }

  lemma Twice(entries: seq<Entry>, i: nat, j: nat)
    requires i < j < |entries|
    ensures entries[i] == entries[j] ==> multiset(entries)[entries[i]] >= 2
  {
    assert entries == entries[..j] + entries[j..] && entries[i] in entries[..j] && entries[j] in entries[j..];
    assert multiset(entries) == multiset(entries[..j]) + multiset(entries[j..]);
  }

  lemma {:induction false} Once(entries: seq<Entry>, e: Entry)
    requires OwnNames(entries)
    ensures multiset(entries)[e] <= 1
  {
    if entries != [] {
      var rest := entries[1..];
      assert entries == [entries[0]] + rest;
      Once(rest, e);
      forall i | 0 <= i < |rest| ensures rest[i] != entries[0] {
        assert entries[i + 1].name != entries[0].name;
      }
    }
  }

  // ---- the search for a credential of another plane ------------------------------------------

  predicate Searched(e: Entry, plane: Plane) {
    e.plane != plane && e.kind in {Some(JWT), Some(MTLS)}
  }

  /** The search looks past this entry. */
  predicate PassedOver(e: Entry, plane: Plane, replies: Replies) {
    Searched(e, plane) ==> replies(e.name).Absent? || (replies(e.name).Valid? && replies(e.name).transport)
  }

  function SearchedNames(entries: seq<Entry>, plane: Plane): seq<string> {
    if entries == [] then []
    else (if Searched(entries[0], plane) then [entries[0].name] else []) + SearchedNames(entries[1..], plane)
  }

  /** k is where the search ends. */
  predicate Settles(entries: seq<Entry>, plane: Plane, replies: Replies, k: int) {
    && 0 <= k < |entries| && !PassedOver(entries[k], plane, replies)
    && forall i | 0 <= i < k :: PassedOver(entries[i], plane, replies)
  }

  /** What the loop has left to find, and whom it will ask. */
  function Search(entries: seq<Entry>, plane: Plane, replies: Replies): (Option<Entry>, seq<string>) {
    if entries == [] then (None, [])
    else
      var e := entries[0];
      if !Searched(e, plane) then Search(entries[1..], plane, replies)
      else if PassedOver(e, plane, replies) then
        var rest := Search(entries[1..], plane, replies);
        (rest.0, [e.name] + rest.1)
      else (if replies(e.name).Valid? then Some(e) else None, [e.name])
  }

  /** The search finds the first searchable entry of another plane that is neither absent nor transport, and
      only if that one is valid; it asks the searchable entries up to and including that one, in order. */
  lemma {:induction false} SearchExact(entries: seq<Entry>, plane: Plane, replies: Replies, k: nat)
    ensures Settles(entries, plane, replies, k) ==>
              && Search(entries, plane, replies).0
                 == (if replies(entries[k].name).Valid? then Some(entries[k]) else None)
              && Search(entries, plane, replies).1 == SearchedNames(entries[..k + 1], plane)
    ensures k == |entries| && (forall e <- entries :: PassedOver(e, plane, replies)) ==>
              && Search(entries, plane, replies).0 == None
              && Search(entries, plane, replies).1 == SearchedNames(entries, plane)
  {
    if entries != [] && PassedOver(entries[0], plane, replies) && k > 0 {
      var rest := entries[1..];
      SearchExact(rest, plane, replies, k - 1);
      assert forall e <- rest :: e in entries;
      if Settles(entries, plane, replies, k) {
        assert Settles(rest, plane, replies, k - 1) by {
          assert forall i | 0 <= i < k - 1 :: rest[i] == entries[i + 1];
        }
        assert entries[..k + 1][1..] == rest[..k];
      }
    } else if Settles(entries, plane, replies, k) {
      assert k == 0 && entries[..1][1..] == [];
      assert SearchedNames(entries[..1][1..], plane) == [];
    }
  }

  lemma {:induction false} SomeSettles(entries: seq<Entry>, plane: Plane, replies: Replies)
    ensures (exists k :: Settles(entries, plane, replies, k)) || forall e <- entries :: PassedOver(e, plane, replies)
  {
    if entries != [] && PassedOver(entries[0], plane, replies) {
      SomeSettles(entries[1..], plane, replies);
      if k :| Settles(entries[1..], plane, replies, k) {
        forall i | 0 < i <= k ensures entries[i] == entries[1..][i - 1] {}
        assert Settles(entries, plane, replies, k + 1);
      } else {
        assert forall e <- entries :: e == entries[0] || e in entries[1..];
      }
    } else if entries != [] {
      assert Settles(entries, plane, replies, 0);
    }
  }

  /** This authenticator's reply settles the search: it checks a JWT or a peer certificate for another plane, and
      the request carries one that is invalid, or valid and not a forwarding hop's. */
  predicate Telling(e: Entry, plane: Plane, replies: Replies) {
    && e.plane != plane && (e.kind == Some(JWT) || e.kind == Some(MTLS))
    && (replies(e.name).Invalid? || (replies(e.name).Valid? && !replies(e.name).transport))
  }

  /** Whom the search finds, however the authenticators were supplied: the valid credential of another plane,
      not a forwarding hop's, before whose name every searchable one is absent or transport. */
  lemma FoundByName(entries: seq<Entry>, plane: Plane, replies: Replies, e: Entry)
    requires OwnNames(entries)
    ensures Search(ByName(entries), plane, replies).0 == Some(e) <==>
              && e in entries && Telling(e, plane, replies) && replies(e.name).Valid?
              && forall other <- entries :: Before(other.name, e.name) ==> !Telling(other, plane, replies)
  {
    forall x: Entry ensures Telling(x, plane, replies) <==> !PassedOver(x, plane, replies) {}
    var sorted := ByName(entries);
    ByNameExact(entries);
    SomeSettles(sorted, plane, replies);
    if k :| Settles(sorted, plane, replies, k) {
      SearchExact(sorted, plane, replies, k);
      forall i | 0 <= i < |sorted| ensures Before(sorted[i].name, sorted[k].name) <==> i < k {
        if i < k {
          assert Before(sorted[i].name, sorted[k].name);
        } else if Before(sorted[i].name, sorted[k].name) {
          BeforeIsStrict(sorted[i].name, sorted[k].name);
        }
      }
      assert sorted[k] in sorted;
      if e in entries && e != sorted[k] && !PassedOver(e, plane, replies) {
        var i :| 0 <= i < |sorted| && sorted[i] == e;
        assert k < i && Before(sorted[k].name, e.name);
      }
    } else {
      SearchExact(sorted, plane, replies, |sorted|);
    }
  }

  /** Everyone asked is a JWT or a peer certificate of another plane, and everyone asked before the last
      was absent or transport: at most one secondary credential is ever judged. */
  lemma {:induction false} SearchIsBounded(entries: seq<Entry>, plane: Plane, replies: Replies, i: nat)
    requires i < |Search(entries, plane, replies).1|
    ensures var asked := Search(entries, plane, replies).1;
            exists e <- entries :: e.name == asked[i] && Searched(e, plane)
                                   && (i < |asked| - 1 ==> PassedOver(e, plane, replies))
  {
    var e := entries[0];
    if !Searched(e, plane) {
      SearchIsBounded(entries[1..], plane, replies, i);
    } else if i > 0 {
      SearchIsBounded(entries[1..], plane, replies, i - 1);
    }
  }

  // ---- one request ---------------------------------------------------------------------------

  datatype Stamps = Stamps(plane: Option<Plane>, kind: Option<Method>, principal: Option<string>,
                           credential: Option<string>, actorTypes: Option<set<ActorType>>,
                           asked: seq<string>, flagged: bool)

  datatype Failure =
    | UnregisteredRoute
    | Refused401(error: string)      // the endpoint's own credential, present and not valid
    | WrongPlane404
    | Absent401(error: string)

  datatype Exit = Passes | Raises(failure: Failure)

  datatype Target =
    | NotServed | Exempt | Unknown | NoActors | Open(row: Registration) | Unresolved(row: Registration)
    | Needs(row: Registration, entry: Entry)

  predicate HasRow(s: State, template: string) {
    exists key <- s.byEndpoint :: key.1 == template
  }

  /** What the route itself asks of any caller. */
  function TargetOf(s: State, entries: seq<Entry>, exempt: set<string>, key: Key): Target {
    if key !in s.byEndpoint then
      if HasRow(s, key.1) then NotServed else if key.1 in exempt then Exempt else Unknown
    else
      var row := s.byEndpoint[key];
      if row.plane == USER && (row.actorTypes.None? || row.actorTypes.value == {}) then NoActors
      else if row.plane == PUBLIC then Open(row)
      else
        var resolved := AcceptedBy(entries, row);
        if resolved.One? then Needs(row, resolved.entry) else Unresolved(row)
  }

  function Enter(c: Stamps, row: Registration): Stamps {
    c.(actorTypes := row.actorTypes)
  }

  function Process(t: Target, entries: seq<Entry>, replies: Replies, c: Stamps): (Exit, Stamps) {
    match t
    case NotServed => (Passes, c)
    case Exempt => (Passes, c)
    case Unknown => (Raises(UnregisteredRoute), c)
    case NoActors => (Raises(UnregisteredRoute), c)
    case Open(row) =>
      (Passes, Enter(c, row).(plane := Some(PUBLIC), kind := None, principal := None, credential := None))
    case Unresolved(row) => (Raises(UnregisteredRoute), Enter(c, row))
    case Needs(row, e) =>
      var c1 := Enter(c, row).(asked := c.asked + [e.name]);
      match replies(e.name)
      case Invalid(error) => (Raises(Refused401(error)), c1)
      case Valid(principal, _) =>
        (Passes, c1.(plane := Some(row.plane), kind := e.kind, principal := Some(principal),
                     credential := Some(e.name)))
      case Absent =>
        var found := Search(ByName(entries), row.plane, replies);
        var c2 := c1.(asked := c1.asked + found.1);
        if found.0.Some? then (Raises(WrongPlane404), c2.(flagged := c2.flagged || found.0.value.kind.Some?))
        else (Raises(Absent401(e.absentError)), c2)
  }

  /** The hook's answer to one request, and what it leaves on it. */
  function Handle(s: State, entries: seq<Entry>, exempt: set<string>, key: Key, replies: Replies, c: Stamps)
    : (Exit, Stamps)
  {
    Process(TargetOf(s, entries, exempt, key), entries, replies, c)
  }

  /** Fail closed: a request for an endpoint that was never registered passes exactly when its template has some
      registered method, which leaves it to Falcon's 405, or was named exempt; any other is refused as an
      unregistered route; and nothing is stamped on it, nor anyone asked. */
  lemma UnregisteredExactly(s: State, entries: seq<Entry>, exempt: set<string>, key: Key, replies: Replies, c: Stamps)
    requires key !in s.byEndpoint
    ensures var (exit, after) := Handle(s, entries, exempt, key, replies, c);
            && (exit == Passes <==> (exists row <- s.byEndpoint :: row.1 == key.1) || key.1 in exempt)
            && (exit != Passes ==> exit == Raises(UnregisteredRoute))
            && after == c
  {
  }

  /** This authenticator, and only this one, may open the endpoint. */
  predicate Opener(entries: seq<Entry>, row: Registration, e: Entry) {
    && e in entries && e.plane == row.plane
    && (if row.credential.Some? then e.name == row.credential.value
        else forall other <- entries :: other.plane == row.plane ==> other == e)
  }

  /** A registered endpoint: a PUBLIC one passes with no caller stamped and no one asked; a USER one that declares
      no actor types, or one that no single authenticator may open, is refused as unregistered; any other is
      judged by its opener, whose valid credential alone passes. The row's actor types are stamped whenever the
      request goes past the first two checks, and the plane, method and principal exactly when it passes. */
  lemma RegisteredExactly(s: State, entries: seq<Entry>, exempt: set<string>, key: Key, replies: Replies, c: Stamps)
    requires OwnNames(entries) && key in s.byEndpoint
    ensures var (exit, after) := Handle(s, entries, exempt, key, replies, c);
            var row := s.byEndpoint[key];
            if row.plane == PUBLIC then
              exit == Passes && after == Stamps(Some(PUBLIC), None, None, None, row.actorTypes, c.asked, c.flagged)
            else if row.plane == USER && (row.actorTypes.None? || row.actorTypes == Some({})) then
              exit == Raises(UnregisteredRoute) && after == c
            else
              && after.actorTypes == row.actorTypes
              && (exit == Raises(UnregisteredRoute) <==> forall e <- entries :: !Opener(entries, row, e))
              && (exit == Raises(UnregisteredRoute) ==> after == c.(actorTypes := row.actorTypes))
              && forall e <- entries | Opener(entries, row, e) ::
                   && (exit == Passes <==> replies(e.name).Valid?)
                   && (exit == Passes ==>
                         after == Stamps(Some(row.plane), e.kind, Some(replies(e.name).principal), Some(e.name),
                                         row.actorTypes, c.asked + [e.name], c.flagged))
                   && (exit != Passes ==>
                         && after.plane == c.plane && after.kind == c.kind && after.principal == c.principal
                         && after.credential == c.credential && c.asked + [e.name] <= after.asked)
  {
    var row := s.byEndpoint[key];
    forall e: Entry ensures AcceptedBy(entries, row) == One(e) <==> Opener(entries, row, e) {
      OpensExactly(entries, row, e);
    }
  }

  /** Every wrong-plane answer is flagged to the operator, and nothing else is. */
  lemma FlaggedExactly(s: State, entries: seq<Entry>, exempt: set<string>, key: Key, replies: Replies, c: Stamps)
    ensures var (exit, after) := Handle(s, entries, exempt, key, replies, c);
            after.flagged <==> c.flagged || exit == Raises(WrongPlane404)
  {
    var t := TargetOf(s, entries, exempt, key);
    if t.Needs? {
      FoundHasMethod(ByName(entries), t.row.plane, replies);
    }
  }

  lemma {:induction false} FoundHasMethod(entries: seq<Entry>, plane: Plane, replies: Replies)
    ensures var found := Search(entries, plane, replies).0; found.Some? ==> Searched(found.value, plane)
  {
    if entries != [] && PassedOver(entries[0], plane, replies) {
      FoundHasMethod(entries[1..], plane, replies);
    }
  }

  /** Where the search over the supplied authenticators ends. */
  predicate EndsAt(entries: seq<Entry>, plane: Plane, replies: Replies, e: Entry) {
    && e in entries && Telling(e, plane, replies)
    && forall other <- entries :: Before(other.name, e.name) ==> !Telling(other, plane, replies)
  }

  /** The five-step table for an endpoint with a credential, by what the authenticators would say. */
  lemma TableExact(entries: seq<Entry>, row: Registration, e: Entry, replies: Replies, c: Stamps)
    requires OwnNames(entries)
    ensures var exit := Process(Needs(row, e), entries, replies, c).0;
            && (exit == Passes <==> replies(e.name).Valid?)
            && (forall error :: exit == Raises(Refused401(error)) <==> replies(e.name) == Invalid(error))
            && (exit == Raises(WrongPlane404) <==>
                  replies(e.name).Absent?
                  && exists f <- entries :: EndsAt(entries, row.plane, replies, f) && replies(f.name).Valid?)
            && (exit == Raises(Absent401(e.absentError)) <==>
                  replies(e.name).Absent?
                  && forall f <- entries :: EndsAt(entries, row.plane, replies, f) ==> replies(f.name).Invalid?)
  {
    var found := Search(ByName(entries), row.plane, replies).0;
    if found.Some? {
      FoundByName(entries, row.plane, replies, found.value);
      assert EndsAt(entries, row.plane, replies, found.value);
    }
    forall f <- entries | EndsAt(entries, row.plane, replies, f)
      ensures !replies(f.name).Absent? && (replies(f.name).Valid? <==> found == Some(f))
    {
      FoundByName(entries, row.plane, replies, f);
    }
  }

  /** A principal is only ever stamped from the endpoint's own credential, found valid; and a caller of a
      PUBLIC route is stamped with none and asked for none. */
  lemma StampedIsProven(t: Target, entries: seq<Entry>, replies: Replies, c: Stamps)
    requires c.plane.None? && c.principal.None?
    ensures var (exit, after) := Process(t, entries, replies, c);
            && (after.principal.Some? ==>
                  && exit == Passes && t.Needs? && after.credential == Some(t.entry.name)
                  && replies(t.entry.name).Valid? && replies(t.entry.name).principal == after.principal.value)
            && (after.plane.Some? <==> t.Open? || (t.Needs? && replies(t.entry.name).Valid?))
            && (t.Open? ==> after.principal.None? && after.asked == c.asked)
  {
  }

  /** Whoever is asked beside the endpoint's own authenticator is a JWT or a peer certificate of another
      plane; so with conventional wiring a USER endpoint only ever asks a peer certificate of the SERVICE
      plane, a SERVICE endpoint only a user's JWT, and nothing that needs a lookup is asked at all. */
  lemma OnlySearchableAsked(entries: seq<Entry>, row: Registration, e: Entry, replies: Replies, c: Stamps, i: nat)
    requires Wired(entries) && OwnNames(entries) && c.asked == []
    requires 0 < i < |Process(Needs(row, e), entries, replies, c).1.asked|
    ensures var asked := Process(Needs(row, e), entries, replies, c).1.asked;
            && asked[0] == e.name
            && exists other <- entries ::
                 && other.name == asked[i] && other.plane != row.plane
                 && (|| (other.plane == USER && other.kind == Some(JWT))
                     || (other.plane == SERVICE_PLANE && other.kind == Some(MTLS)))
  {
    var asked := Process(Needs(row, e), entries, replies, c).1.asked;
    assert replies(e.name).Absent? && asked == [e.name] + Search(ByName(entries), row.plane, replies).1;
    ByNameExact(entries);
    SearchIsBounded(ByName(entries), row.plane, replies, i - 1);
    var other :| other in entries && other.name == asked[i] && Searched(other, row.plane);
    assert Conventional(other);
  }

  /** Naming a template exempt changes nothing once any of its methods is registered. */
  lemma ExemptCannotOpen(s: State, entries: seq<Entry>, exempt: set<string>, key: Key)
    ensures HasRow(s, key.1) ==> TargetOf(s, entries, exempt, key) == TargetOf(s, entries, {}, key)
    ensures TargetOf(s, entries, exempt, key).Exempt?
            <==> key.1 in exempt && forall row <- s.byEndpoint :: row.1 != key.1
  {
  }

  /** What the authenticator asked last says is final: an invalid other-plane credential hides every valid
      one whose name comes after it, and whoever is asked is a searchable one up to it, in name order. */
  lemma FirstInvalidHidesTheRest(entries: seq<Entry>, row: Registration, e: Entry, replies: Replies, c: Stamps, k: nat)
    requires replies(e.name).Absent? && Settles(ByName(entries), row.plane, replies, k)
    requires replies(ByName(entries)[k].name).Invalid?
    ensures Process(Needs(row, e), entries, replies, c).0 == Raises(Absent401(e.absentError))
    ensures Process(Needs(row, e), entries, replies, c).1.asked
            == c.asked + [e.name] + SearchedNames(ByName(entries)[..k + 1], row.plane)
  {
    SearchExact(ByName(entries), row.plane, replies, k);
  }

  class Context {
    var plane: Option<Plane>
    var authMethod: Option<Method>
    var principal: Option<string>
    var credential: Option<string>
    var actorTypes: Option<set<ActorType>>
    var asked: seq<string>
    var flagged: bool

    constructor ()
      ensures Value() == Stamps(None, None, None, None, None, [], false)
    {
      plane, authMethod, principal, credential, actorTypes := None, None, None, None, None;
      asked, flagged := [], false;
    }

    function Value(): Stamps
      reads this
    {
      Stamps(plane, authMethod, principal, credential, actorTypes, asked, flagged)
    }

    method Stamp(p: Plane, e: Option<Entry>, who: Option<string>)
      modifies this
      ensures Value() == old(Value()).(plane := Some(p), kind := if e.Some? then e.value.kind else None,
                                       principal := who, credential := if e.Some? then Some(e.value.name) else None)
    {
      plane := Some(p);
      authMethod := if e.Some? then e.value.kind else None;
      principal := who;
      credential := if e.Some? then Some(e.value.name) else None;
    }
  }

  datatype BootFault =
    | NoAuthenticator(planes: set<Plane>)
    | NotOneCredential(endpoints: set<Key>)
    | NoActorTypesDeclared(endpoints: set<Key>)

  /** The endpoints whose resolution fails in one of these ways. */
  predicate Fails(s: State, entries: seq<Entry>, key: Key, how: set<Resolved>)
    requires key in s.byEndpoint
  {
    s.byEndpoint[key].plane != PUBLIC && AcceptedBy(entries, s.byEndpoint[key]) in how
  }

  predicate Undeclared(s: State, key: Key)
    requires key in s.byEndpoint
  {
    s.byEndpoint[key].plane == USER && (s.byEndpoint[key].actorTypes.None? || s.byEndpoint[key].actorTypes.value == {})
  }

  /** Nothing the sweep looks for is wrong with this endpoint. */
  predicate Faultless(s: State, entries: seq<Entry>, key: Key)
    requires key in s.byEndpoint
  {
    && !Fails(s, entries, key, {Missing}) && !Fails(s, entries, key, {BadPin, Ambiguous})
    && !Undeclared(s, key)
  }

  function Planes(s: State, entries: seq<Entry>, keys: set<Key>): set<Plane>
    requires keys <= s.byEndpoint.Keys
  {
    set k <- keys | Fails(s, entries, k, {Missing}) :: s.byEndpoint[k].plane
  }

  function Wrong(s: State, entries: seq<Entry>, keys: set<Key>): set<Key>
    requires keys <= s.byEndpoint.Keys
  {
    set k <- keys | Fails(s, entries, k, {BadPin, Ambiguous})
  }

  function Silent(s: State, keys: set<Key>): set<Key>
    requires keys <= s.byEndpoint.Keys
  {
    set k <- keys | Undeclared(s, k)
  }

  /** The sweep's three lists, over the rows it has seen. */
  predicate Noted(s: State, entries: seq<Entry>, keys: set<Key>, gaps: set<Plane>, wrong: set<Key>, silent: set<Key>) {
    && keys <= s.byEndpoint.Keys
    && gaps == Planes(s, entries, keys) && wrong == Wrong(s, entries, keys) && silent == Silent(s, keys)
  }

  lemma OneMore(s: State, entries: seq<Entry>, keys: set<Key>, key: Key, gaps: set<Plane>, wrong: set<Key>,
                silent: set<Key>)
    requires Noted(s, entries, keys, gaps, wrong, silent) && key in s.byEndpoint
    ensures Noted(s, entries, keys + {key},
                  if Fails(s, entries, key, {Missing}) then gaps + {s.byEndpoint[key].plane} else gaps,
                  if Fails(s, entries, key, {BadPin, Ambiguous}) then wrong + {key} else wrong,
                  if Undeclared(s, key) then silent + {key} else silent)
  {
  }

  /** verify(): a plane nobody can open outranks a bad pin, and that outranks a missing declaration. */
  function Boot(s: State, entries: seq<Entry>): Option<BootFault> {
    var rows := s.byEndpoint.Keys;
    if Planes(s, entries, rows) != {} then Some(NoAuthenticator(Planes(s, entries, rows)))
    else if Wrong(s, entries, rows) != {} then Some(NotOneCredential(Wrong(s, entries, rows)))
    else if Silent(s, rows) != {} then Some(NoActorTypesDeclared(Silent(s, rows)))
    else None
  }

  /** One row of the sweep. */
  method Note(s: State, entries: seq<Entry>, key: Key, gaps: set<Plane>, wrong: set<Key>, silent: set<Key>)
    returns (gaps': set<Plane>, wrong': set<Key>, silent': set<Key>)
    requires key in s.byEndpoint
    ensures gaps' == if Fails(s, entries, key, {Missing}) then gaps + {s.byEndpoint[key].plane} else gaps
    ensures wrong' == if Fails(s, entries, key, {BadPin, Ambiguous}) then wrong + {key} else wrong
    ensures silent' == if Undeclared(s, key) then silent + {key} else silent
  {
    gaps', wrong', silent' := gaps, wrong, silent;
    var row := s.byEndpoint[key];
    if row.plane == PUBLIC {
      return;
    }
    if row.plane == USER && (row.actorTypes.None? || row.actorTypes.value == {}) {
      silent' := silent + {key};
    }
    var resolved := AcceptedBy(entries, row);
    if resolved == Missing {
      gaps' := gaps + {row.plane};
    } else if !resolved.One? {
      wrong' := wrong + {key};
    }
  }

  method Sweep(s: State, entries: seq<Entry>) returns (fault: Option<BootFault>)
    ensures fault == Boot(s, entries)
  {
    var todo := s.byEndpoint.Keys;
    var gaps: set<Plane>, wrong: set<Key>, undeclared: set<Key> := {}, {}, {};
    while todo != {}
      invariant todo <= s.byEndpoint.Keys
      invariant Noted(s, entries, s.byEndpoint.Keys - todo, gaps, wrong, undeclared)
      decreases |todo|
    {
      var key :| key in todo;
      OneMore(s, entries, s.byEndpoint.Keys - todo, key, gaps, wrong, undeclared);
      assert s.byEndpoint.Keys - (todo - {key}) == s.byEndpoint.Keys - todo + {key};
      gaps, wrong, undeclared := Note(s, entries, key, gaps, wrong, undeclared);
      todo := todo - {key};
    }
    assert s.byEndpoint.Keys - todo == s.byEndpoint.Keys;
    fault := if gaps != {} then Some(NoAuthenticator(gaps))
             else if wrong != {} then Some(NotOneCredential(wrong))
             else if undeclared != {} then Some(NoActorTypesDeclared(undeclared))
             else None;
  }

  class PlaneMiddleware {
    const registry: PlaneRegistry
    const entries: seq<Entry>
    const exempt: set<string>

    /** What construction has checked, of authenticators kept under their own names. */
    ghost predicate Valid() {
      OwnNames(entries) && Wired(entries)
    }

    constructor (registry: PlaneRegistry, entries: seq<Entry>, exempt: set<string>)
      requires OwnNames(entries) && Wired(entries)
      ensures this.registry == registry && this.entries == entries && this.exempt == exempt && Valid()
    {
      this.registry, this.entries, this.exempt := registry, entries, exempt;
    }

    method FindForeignCredential(plane: Plane, replies: Replies, ctx: Context) returns (found: Option<Entry>)
      modifies ctx
      ensures found == Search(ByName(entries), plane, replies).0
      ensures ctx.Value() == old(ctx.Value()).(asked := old(ctx.asked) + Search(ByName(entries), plane, replies).1)
    {
      var sorted := ByName(entries);
      for i := 0 to |sorted|
        invariant ctx.Value() == old(ctx.Value()).(asked := ctx.asked)
        invariant Search(sorted, plane, replies).0 == Search(sorted[i..], plane, replies).0
        invariant old(ctx.asked) + Search(sorted, plane, replies).1
                  == ctx.asked + Search(sorted[i..], plane, replies).1
      {
        var e := sorted[i];
        assert sorted[i..][0] == e && sorted[i..][1..] == sorted[i + 1..];
        if e.plane == plane || e.kind !in {Some(JWT), Some(MTLS)} {
          continue;
        }
        ctx.asked := ctx.asked + [e.name];
        var reply := replies(e.name);
        if reply.Invalid? {
          return None;
        }
        if reply.Absent? {
          continue;
        }
        if reply.transport {
          continue;
        }
        return Some(e);
      }
      found := None;
    }

    method ProcessResource(verb: string, template: string, replies: Replies, ctx: Context) returns (exit: Exit)
      modifies ctx
      ensures (exit, ctx.Value())
              == Process(TargetOf(registry.Value(), entries, exempt, (Upper(verb), template)), entries, replies,
                         old(ctx.Value()))
    {
      var s := registry.Value();
      var key := (Upper(verb), template);
      if key !in s.byEndpoint {
        if HasRow(s, template) {
          return Passes;
        }
        if template in exempt {
          return Passes;
        }
        return Raises(UnregisteredRoute);
      }
      var row := s.byEndpoint[key];
      if row.plane == USER && (row.actorTypes.None? || row.actorTypes.value == {}) {
        return Raises(UnregisteredRoute);
      }
      exit := AfterRoute(row, replies, ctx);
    }

    /** From the row on. A wiring gap is raised after the actor types are stamped. */
    method AfterRoute(row: Registration, replies: Replies, ctx: Context) returns (exit: Exit)
      modifies ctx
      ensures (exit, ctx.Value())
              == Process(if row.plane == PUBLIC then Open(row)
                         else if AcceptedBy(entries, row).One? then Needs(row, AcceptedBy(entries, row).entry)
                         else Unresolved(row), entries, replies, old(ctx.Value()))
    {
      ctx.actorTypes := row.actorTypes;
      if row.plane == PUBLIC {
        ctx.Stamp(row.plane, None, None);
        return Passes;
      }
      var resolved := AcceptedBy(entries, row);
      if !resolved.One? {
        return Raises(UnregisteredRoute);
      }
      var e := resolved.entry;
      ctx.asked := ctx.asked + [e.name];
      var reply := replies(e.name);
      if reply.Invalid? {
        return Raises(Refused401(reply.error));
      }
      if reply.Valid? {
        ctx.Stamp(row.plane, Some(e), Some(reply.principal));
        return Passes;
      }
      var foreign := FindForeignCredential(row.plane, replies, ctx);
      if foreign.Some? {
        if foreign.value.kind.Some? {
          ctx.flagged := true;
        }
        return Raises(WrongPlane404);
      }
      exit := Raises(Absent401(e.absentError));
    }

    method Verify() returns (fault: Option<BootFault>)
      ensures fault == Boot(registry.Value(), entries)
    {
      fault := Sweep(registry.Value(), entries);
    }
  }

  /** Routes are mounted on the plane with no pin, and no authenticator is on it. */
  predicate Unserved(s: State, entries: seq<Entry>, p: Plane) {
    && p != PUBLIC && (forall e <- entries :: e.plane != p)
    && exists key <- s.byEndpoint :: s.byEndpoint[key].plane == p && s.byEndpoint[key].credential.None?
  }

  /** No single authenticator may open the endpoint. */
  predicate Unopenable(s: State, entries: seq<Entry>, key: Key) {
    && key in s.byEndpoint && s.byEndpoint[key].plane != PUBLIC
    && forall e <- entries :: !Opener(entries, s.byEndpoint[key], e)
  }

  predicate Unadmitting(s: State, key: Key) {
    && key in s.byEndpoint && s.byEndpoint[key].plane == USER
    && (s.byEndpoint[key].actorTypes.None? || s.byEndpoint[key].actorTypes == Some({}))
  }

  lemma GapsExactly(s: State, entries: seq<Entry>, p: Plane)
    requires OwnNames(entries)
    ensures p in Planes(s, entries, s.byEndpoint.Keys) <==> Unserved(s, entries, p)
  {
    forall key <- s.byEndpoint
      ensures AcceptedBy(entries, s.byEndpoint[key]) == Missing
              <==> s.byEndpoint[key].credential.None? && forall e <- entries :: e.plane != s.byEndpoint[key].plane
    {
      ResolvedExactly(entries, s.byEndpoint[key]);
    }
  }

  lemma WrongExactly(s: State, entries: seq<Entry>, key: Key)
    requires OwnNames(entries) && Planes(s, entries, s.byEndpoint.Keys) == {}
    ensures key in Wrong(s, entries, s.byEndpoint.Keys) <==> Unopenable(s, entries, key)
  {
    if key in s.byEndpoint {
      ResolvedExactly(entries, s.byEndpoint[key]);
      FaultShows(s, entries, key);
    }
  }

  /** What the sweep's refusal names: planes no authenticator serves, before anything else; then every endpoint
      that no single authenticator may open; then every USER endpoint that declares no actor types. It passes
      exactly when there are none of these. */
  lemma BootReportsExactly(s: State, entries: seq<Entry>)
    requires OwnNames(entries)
    ensures match Boot(s, entries)
            case Some(NoAuthenticator(planes)) =>
              planes != {} && forall p: Plane :: p in planes <==> Unserved(s, entries, p)
            case Some(NotOneCredential(endpoints)) =>
              && (forall p: Plane :: !Unserved(s, entries, p))
              && endpoints != {} && forall key: Key :: key in endpoints <==> Unopenable(s, entries, key)
            case Some(NoActorTypesDeclared(endpoints)) =>
              && (forall key: Key :: !Unopenable(s, entries, key))
              && endpoints != {} && forall key: Key :: key in endpoints <==> Unadmitting(s, key)
            case None => forall key: Key :: !Unopenable(s, entries, key) && !Unadmitting(s, key)
  {
    var rows := s.byEndpoint.Keys;
    forall p: Plane ensures p in Planes(s, entries, rows) <==> Unserved(s, entries, p) {
      GapsExactly(s, entries, p);
    }
    if Planes(s, entries, rows) == {} {
      forall key: Key ensures key in Wrong(s, entries, rows) <==> Unopenable(s, entries, key) {
        WrongExactly(s, entries, key);
      }
    }
    forall key: Key ensures key in Silent(s, rows) <==> Unadmitting(s, key) {}
  }

  lemma ResolvedExactly(entries: seq<Entry>, row: Registration)
    requires OwnNames(entries)
    ensures AcceptedBy(entries, row) == Missing
            <==> row.credential.None? && forall e <- entries :: e.plane != row.plane
    ensures AcceptedBy(entries, row).One? <==> exists e <- entries :: Opener(entries, row, e)
  {
    forall e: Entry ensures AcceptedBy(entries, row) == One(e) <==> Opener(entries, row, e) {
      OpensExactly(entries, row, e);
    }
    var on := OnPlane(entries, row.plane);
    forall e: Entry ensures e in on <==> e in entries && e.plane == row.plane {
      OnPlaneExact(entries, row.plane, e);
    }
    if on != [] {
      assert on[0] in on;
    }
  }

  // ---- boot implies request safety -----------------------------------------------------------

  lemma FaultShows(s: State, entries: seq<Entry>, key: Key)
    requires key in s.byEndpoint
    ensures Fails(s, entries, key, {Missing}) ==> s.byEndpoint[key].plane in Planes(s, entries, s.byEndpoint.Keys)
    ensures Fails(s, entries, key, {BadPin, Ambiguous}) ==> key in Wrong(s, entries, s.byEndpoint.Keys)
    ensures Undeclared(s, key) ==> key in Silent(s, s.byEndpoint.Keys)
  {
  }

  lemma PassesFor(s: State, entries: seq<Entry>, key: Key)
    requires Boot(s, entries).None? && key in s.byEndpoint
    ensures Faultless(s, entries, key)
  {
    FaultShows(s, entries, key);
  }

  lemma EndpointExact(s: State, entries: seq<Entry>, exempt: set<string>, replies: Replies, c: Stamps, key: Key)
    requires key in s.byEndpoint
    ensures Process(TargetOf(s, entries, exempt, key), entries, replies, c).0 != Raises(UnregisteredRoute)
            <==> Faultless(s, entries, key)
  {
  }

  /** verify() passes exactly when no request to a registered endpoint can end in UnregisteredRoute, whatever
      the authenticators say. */
  lemma BootExact(s: State, entries: seq<Entry>, exempt: set<string>, replies: Replies, c: Stamps)
    ensures Boot(s, entries).None?
            <==> forall key <- s.byEndpoint ::
                   Process(TargetOf(s, entries, exempt, key), entries, replies, c).0 != Raises(UnregisteredRoute)
  {
    forall key <- s.byEndpoint
      ensures Process(TargetOf(s, entries, exempt, key), entries, replies, c).0 != Raises(UnregisteredRoute)
              <==> Faultless(s, entries, key)
    {
      EndpointExact(s, entries, exempt, replies, c, key);
    }
    if Boot(s, entries).None? {
      forall key <- s.byEndpoint
        ensures Faultless(s, entries, key)
      {
        PassesFor(s, entries, key);
      }
    }
  }

  /** After any run of mounts, refused ones included, and a passing verify(), every request on a served
      template, with any verb and any credentials, ends in the table or in Falcon's own 405. */
  lemma BootImpliesSafety(allowDev: bool, mounts: seq<Mount>, entries: seq<Entry>, exempt: set<string>,
                          verb: string, template: string, replies: Replies, c: Stamps)
    requires var site := MountAll(Site(EMPTY, map[]), allowDev, mounts);
             template in site.routes && Boot(site.registry, entries).None?
    ensures var site := MountAll(Site(EMPTY, map[]), allowDev, mounts);
            var t := TargetOf(site.registry, entries, exempt, (Upper(verb), template));
            && Process(t, entries, replies, c).0 != Raises(UnregisteredRoute)
            && (t.Open? || t.Needs? || (t.NotServed? && Upper(verb) !in site.routes[template]))
  {
    var site := MountAll(Site(EMPTY, map[]), allowDev, mounts);
    MountsStayBacked(Site(EMPTY, map[]), allowDev, mounts);
    var served :| served in site.routes[template];
    RequestSafe(site.registry, entries, exempt, served, (Upper(verb), template), replies, c);
  }

  lemma RequestSafe(s: State, entries: seq<Entry>, exempt: set<string>, served: string, key: Key, replies: Replies,
                    c: Stamps)
    requires (served, key.1) in s.byEndpoint && Boot(s, entries).None?
    ensures var t := TargetOf(s, entries, exempt, key);
            && Process(t, entries, replies, c).0 != Raises(UnregisteredRoute)
            && (if key in s.byEndpoint then t.Open? || t.Needs? else t.NotServed?)
  {
    assert HasRow(s, key.1) by { assert (served, key.1).1 == key.1; }
    if key in s.byEndpoint {
      PassesFor(s, entries, key);
    }
  }
}
