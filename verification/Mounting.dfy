/** mount() (src/falcon_auth/adapters/routing.py): one registry row per method the resource answers, then the
    route. */
module Mounting {
  import opened Wrappers
  import opened Strings
  import opened TrustContexts
  import opened Routing

  /** What add_route has served so far: per template, the methods its resource answers. */
  class App {
    var routes: map<string, set<string>>

    constructor ()
      ensures routes == map[]
    {
      routes := map[];
    }
  }

  datatype Site = Site(registry: State, routes: map<string, set<string>>)

  /** `members` are the resource's on_<method> names for the suffix, as found. */
  datatype Mount = Mount(
    plane: Plane, path: string, members: seq<string>, resourceType: string, reason: Option<string>,
    credential: Option<string>, actorTypes: Option<set<ActorType>>, aliasOf: Option<string>, devOnly: bool)
  {
    /** responder_methods(): upper case, sorted. */
    function Responders(): seq<string> {
      SortBy(UpperAll(members), Itself)
    }

    function CallFor(httpMethod: string): Call {
      Call(plane, httpMethod, path, resourceType, reason, credential, actorTypes, aliasOf, devOnly)
    }

    function Calls(): seq<Call> {
      seq(|Responders()|, i requires 0 <= i < |Responders()| => CallFor(Responders()[i]))
    }

    function Served(): set<string> {
      set r <- Responders() :: Upper(r)
    }
  }

  datatype Answer = Mounted | Skipped | NoResponder | Refused(conflict: Conflict)

  /** The first call the registry refuses, or the number of calls. */
  function Accepted(s: State, calls: seq<Call>): (n: nat)
    ensures n <= |calls|
    ensures n < |calls| ==> Check(RegisterAll(s, calls[..n]), calls[n]).Some?
    decreases |calls|
  {
    if calls == [] || Check(s, calls[0]).Some? then 0
    else
      var n := 1 + Accepted(Register(s, calls[0]), calls[1..]);
      assert calls[..n][1..] == calls[1..][..n - 1];
      n
  }

  predicate AllPass(s: State, calls: seq<Call>, n: nat)
    requires n <= |calls|
  {
    forall k | 0 <= k < n :: Check(RegisterAll(s, calls[..k]), calls[k]).None?
  }

  function MountOn(site: Site, allowDev: bool, m: Mount): (Site, Answer) {
    if m.devOnly && !allowDev then (site, Skipped)
    else if m.Responders() == [] then (site, NoResponder)
    else
      var calls := m.Calls();
      var n := Accepted(site.registry, calls);
      var s := RegisterAll(site.registry, calls[..n]);
      if n < |calls| then
        (Site(s, site.routes), Refused(Check(s, calls[n]).value))
      else (Site(s, site.routes[m.path := m.Served()]), Mounted)
  }

  lemma {:induction false} PassAt(s: State, calls: seq<Call>, k: nat)
    requires k < Accepted(s, calls)
    ensures Check(RegisterAll(s, calls[..k]), calls[k]).None?
    decreases |calls|
  {
    if k > 0 {
      PassAt(Register(s, calls[0]), calls[1..], k - 1);
      assert calls[..k][1..] == calls[1..][..k - 1];
    } else {
      assert calls[..0] == [];
    }
  }

  /** The calls before the first refused one are each accepted, and that one is refused. */
  lemma AcceptedExact(s: State, calls: seq<Call>, n: nat)
    requires n <= |calls|
    ensures n == Accepted(s, calls)
            <==> && AllPass(s, calls, n)
                 && (n < |calls| ==> Check(RegisterAll(s, calls[..n]), calls[n]).Some?)
  {
    forall k | 0 <= k < Accepted(s, calls) ensures Check(RegisterAll(s, calls[..k]), calls[k]).None? {
      PassAt(s, calls, k);
    }
  }

  lemma {:induction false} RegisterAppend(s: State, calls: seq<Call>, c: Call)
    ensures RegisterAll(s, calls + [c]) == Register(RegisterAll(s, calls), c)
    decreases |calls|
  {
    if calls == [] {
      assert calls + [c] == [c] && [c][1..] == [];
    } else {
      assert (calls + [c])[1..] == calls[1..] + [c];
      RegisterAppend(Register(s, calls[0]), calls[1..], c);
    }
  }

  /** The loop over the resource's methods, one call each. */
  method RegisterEach(registry: PlaneRegistry, calls: seq<Call>) returns (refused: Option<Conflict>)
    modifies registry
    ensures var s := old(registry.Value());
            var n := Accepted(s, calls);
            registry.Value() == RegisterAll(s, calls[..n])
            && refused == if n < |calls| then Check(registry.Value(), calls[n]) else None
  {
    ghost var s := registry.Value();
    assert calls[..0] == [];
    var i := 0;
    while i < |calls|
      invariant 0 <= i <= |calls|
      invariant registry.Value() == RegisterAll(s, calls[..i]) && AllPass(s, calls, i)
    {
      refused := registry.RegisterCall(calls[i]);
      if refused.Some? {
        AcceptedExact(s, calls, i);
        return;
      }
      RegisterAppend(s, calls[..i], calls[i]);
      assert calls[..i + 1] == calls[..i] + [calls[i]];
      i := i + 1;
    }
    AcceptedExact(s, calls, i);
    refused := None;
  }

  method MountRoute(registry: PlaneRegistry, app: App, allowDev: bool, m: Mount) returns (answer: Answer)
    modifies registry, app
    ensures var (site, a) := MountOn(Site(old(registry.Value()), old(app.routes)), allowDev, m);
            registry.Value() == site.registry && app.routes == site.routes && answer == a
  {
    if m.devOnly && !allowDev {
      return Skipped;
    }
    if m.Responders() == [] {
      return NoResponder;
    }
    var refused := RegisterEach(registry, m.Calls());
    if refused.Some? {
      return Refused(refused.value);
    }
    app.routes := app.routes[m.path := m.Served()];
    answer := Mounted;
  }

  // ---- every run of mounts -------------------------------------------------------------------

  function MountAll(site: Site, allowDev: bool, mounts: seq<Mount>): Site
    decreases |mounts|
  {
    if mounts == [] then site else MountAll(MountOn(site, allowDev, mounts[0]).0, allowDev, mounts[1..])
  }

  /** The registry is consistent, and everything the app serves has a row. */
  predicate Backed(site: Site) {
    && Consistent(site.registry)
    && forall t <- site.routes ::
         site.routes[t] != {} && forall m <- site.routes[t] :: (m, t) in site.registry.byEndpoint
  }

  lemma {:induction false} CallsRecorded(s: State, calls: seq<Call>, k: nat)
    requires k < Accepted(s, calls)
    requires Consistent(s)
    ensures calls[k].Endpoint() in RegisterAll(s, calls[..Accepted(s, calls)]).byEndpoint
    decreases |calls|
  {
    var n, s' := Accepted(s, calls), Register(s, calls[0]);
    assert calls[..n][1..] == calls[1..][..n - 1];
    RegisterKeeps(s, calls[0]);
    if k == 0 {
      RegistryStaysConsistent(s', calls[1..][..n - 1]);
    } else {
      CallsRecorded(s', calls[1..], k - 1);
    }
  }

  lemma MountKeeps(site: Site, allowDev: bool, m: Mount)
    requires Backed(site)
    ensures Backed(MountOn(site, allowDev, m).0)
  {
    var (after, answer) := MountOn(site, allowDev, m);
    var calls := m.Calls();
    RegistryStaysConsistent(site.registry, calls[..Accepted(site.registry, calls)]);
    if answer == Mounted {
      forall k | 0 <= k < |calls| ensures (Upper(m.Responders()[k]), m.path) in after.registry.byEndpoint {
        CallsRecorded(site.registry, calls, k);
      }
      assert Upper(m.Responders()[0]) in m.Served();
    }
  }

  /** After any run of mounts, accepted, skipped and refused, everything served has a consistent row. */
  lemma {:induction false} MountsStayBacked(site: Site, allowDev: bool, mounts: seq<Mount>)
    requires Backed(site)
    ensures Backed(MountAll(site, allowDev, mounts))
    decreases |mounts|
  {
    if mounts != [] {
      MountKeeps(site, allowDev, mounts[0]);
      MountsStayBacked(MountOn(site, allowDev, mounts[0]).0, allowDev, mounts[1..]);
    }
  }

  /** A mount is skipped exactly when it is dev-only and dev routes are not allowed, and then nothing changes. */
  lemma SkippedExactly(site: Site, allowDev: bool, m: Mount)
    ensures MountOn(site, allowDev, m).1 == Skipped <==> m.devOnly && !allowDev
    ensures m.devOnly && !allowDev ==> MountOn(site, allowDev, m).0 == site
  {
  }

  predicate RowOf(s: State, m: Mount, key: Key) {
    && key in s.byEndpoint
    && s.byEndpoint[key] == Registration(key, m.plane, m.resourceType, VersionOf(m.path), m.reason, m.credential,
                                         m.actorTypes, m.aliasOf, m.devOnly)
  }

  /** A mount that succeeds serves its template with exactly the resource's methods, leaves every other template
      as it was, and has given each of those methods a row that says what this mount said. */
  lemma MountedExactly(site: Site, allowDev: bool, m: Mount)
    ensures var (after, answer) := MountOn(site, allowDev, m);
            && (answer == Mounted <==>
                  && (m.devOnly ==> allowDev) && m.members != []
                  && AllPass(site.registry, m.Calls(), |m.Calls()|))
            && (answer == Mounted ==>
                  && m.path in after.routes
                  && (forall name :: name in after.routes[m.path] <==> exists r <- m.Responders() :: name == Upper(r))
                  && after.routes - {m.path} == site.routes - {m.path}
                  && forall r <- m.Responders() :: RowOf(after.registry, m, (Upper(r), m.path)))
            && (answer != Mounted ==> after.routes == site.routes)
  {
    var calls := m.Calls();
    SortByExact(UpperAll(m.members), Itself);
    assert |multiset(m.Responders())| == |multiset(UpperAll(m.members))|;
    AcceptedExact(site.registry, calls, |calls|);
    AcceptedExact(site.registry, calls, Accepted(site.registry, calls));
    OneRowPerEndpoint(m);
    if Accepted(site.registry, calls) == |calls| {
      assert calls[..|calls|] == calls;
      forall r <- m.Responders() ensures RowOf(RegisterAll(site.registry, calls), m, (Upper(r), m.path)) {
        var k :| 0 <= k < |m.Responders()| && m.Responders()[k] == r;
        AcceptedAreHeld(site.registry, calls, |calls|, k);
        HeldMeans(RegisterAll(site.registry, calls), m, r);
      }
    }
  }

  lemma HeldMeans(s: State, m: Mount, r: string)
    requires Held(s, m.CallFor(r))
    ensures RowOf(s, m, (Upper(r), m.path))
  {
  }

  // ---- dev-only routes -----------------------------------------------------------------------

  /** No row is of a dev-only route. */
  predicate NoDevRow(s: State) {
    forall key <- s.byEndpoint :: !s.byEndpoint[key].devOnly
  }

  lemma {:induction false} DevRowsKeptOut(s: State, calls: seq<Call>)
    requires NoDevRow(s) && forall c <- calls :: !c.devOnly
    ensures NoDevRow(RegisterAll(s, calls))
    decreases |calls|
  {
    if calls != [] {
      assert calls[0] in calls && forall c <- calls[1..] :: c in calls;
      DevRowsKeptOut(Register(s, calls[0]), calls[1..]);
    }
  }

  /** Where dev routes are not allowed, no run of mounts leaves a dev-only row, and every template served is named
      by a mount that is not dev-only. */
  lemma {:induction false} DevRoutesStayOut(site: Site, mounts: seq<Mount>)
    requires NoDevRow(site.registry)
    ensures var after := MountAll(site, false, mounts);
            && NoDevRow(after.registry)
            && forall t <- after.routes :: t in site.routes || exists m <- mounts :: m.path == t && !m.devOnly
    decreases |mounts|
  {
    if mounts != [] {
      var m := mounts[0];
      var next := MountOn(site, false, m).0;
      var calls := m.Calls();
      if !m.devOnly {
        DevRowsKeptOut(site.registry, calls[..Accepted(site.registry, calls)]);
      }
      DevRoutesStayOut(next, mounts[1..]);
      assert m in mounts && forall x <- mounts[1..] :: x in mounts;
      assert forall t <- next.routes :: t in site.routes || (t == m.path && !m.devOnly);
    }
  }

  /** A refused mount serves nothing new, but keeps the rows of every method before the refused one. */
  lemma RefusedMount(site: Site, allowDev: bool, m: Mount)
    requires MountOn(site, allowDev, m).1.Refused?
    ensures var (after, answer) := MountOn(site, allowDev, m);
            && after.routes == site.routes
            && exists n :: 0 <= n < |m.Calls()| && after.registry == RegisterAll(site.registry, m.Calls()[..n])
                           && Check(after.registry, m.Calls()[n]) == Some(answer.conflict)
                           && AllPass(site.registry, m.Calls(), n)
  {
    AcceptedExact(site.registry, m.Calls(), Accepted(site.registry, m.Calls()));
  }

  /** The registry already holds this call's very row. */
  predicate Held(s: State, c: Call) {
    c.Endpoint() in s.byEndpoint && s.byEndpoint[c.Endpoint()] == c.Row()
  }

  lemma HeldChangesNothing(s: State, c: Call)
    requires Consistent(s) && Held(s, c)
    ensures Register(s, c) == s
  {
    assert RowOk(s, c.Endpoint());
    assert s.byEndpoint[c.Endpoint() := c.Row()] == s.byEndpoint;
  }

  lemma {:induction false} AllHeldChangesNothing(s: State, calls: seq<Call>)
    requires Consistent(s) && forall c <- calls :: Held(s, c)
    ensures RegisterAll(s, calls) == s
    decreases |calls|
  {
    if calls != [] {
      HeldChangesNothing(s, calls[0]);
      assert forall c <- calls[1..] :: c in calls;
      AllHeldChangesNothing(s, calls[1..]);
    }
  }

  /** The calls of one mount: one row per endpoint. */
  predicate OfOneMount(calls: seq<Call>) {
    forall a <- calls, b <- calls :: a.Endpoint() == b.Endpoint() ==> a.Row() == b.Row()
  }

  lemma HeldOnceRegistered(s: State, c: Call)
    requires Check(s, c).None?
    ensures Held(Register(s, c), c)
  {
  }

  lemma StaysHeld(s: State, c: Call, next: Call)
    requires Held(s, c) && (c.Endpoint() == next.Endpoint() ==> c.Row() == next.Row())
    ensures Held(Register(s, next), c)
  {
  }

  lemma {:induction false} AcceptedAreHeld(s: State, calls: seq<Call>, n: nat, k: nat)
    requires k < n <= |calls| && AllPass(s, calls, n) && OfOneMount(calls)
    ensures Held(RegisterAll(s, calls[..n]), calls[k])
    decreases n
  {
    var before, last := calls[..n - 1], calls[n - 1];
    assert calls[..n] == before + [last];
    RegisterAppend(s, before, last);
    if k == n - 1 {
      HeldOnceRegistered(RegisterAll(s, before), last);
    } else {
      AcceptedAreHeld(s, calls, n - 1, k);
      assert calls[k] in calls && last in calls;
      StaysHeld(RegisterAll(s, before), calls[k], last);
    }
  }

  lemma OneRowPerEndpoint(m: Mount)
    ensures OfOneMount(m.Calls())
  {
  }

  /** Exactly when a refused mount leaves no trace: every method before the refused one was already registered,
      with the very row this mount would give it. */
  lemma RefusedLeavesNothing(site: Site, allowDev: bool, m: Mount)
    requires Consistent(site.registry) && MountOn(site, allowDev, m).1.Refused?
    ensures MountOn(site, allowDev, m).0 == site
            <==> forall k | 0 <= k < Accepted(site.registry, m.Calls()) :: Held(site.registry, m.Calls()[k])
  {
    var s, calls := site.registry, m.Calls();
    var n := Accepted(s, calls);
    OneRowPerEndpoint(m);
    AcceptedExact(s, calls, n);
    if forall k | 0 <= k < n :: Held(s, calls[k]) {
      AllHeldChangesNothing(s, calls[..n]);
    }
    forall k | 0 <= k < n ensures Held(RegisterAll(s, calls[..n]), calls[k]) {
      AcceptedAreHeld(s, calls, n, k);
    }
  }

  const ALIAS_TWO_METHODS := Mount(CALLBACK, "/cb", ["put", "post"], "Hook", None, None, None, Some("/v1/cb"), false)

  lemma AliasMethods()
    ensures ALIAS_TWO_METHODS.Responders() == ["POST", "PUT"]
  {
    UpperPost();
    assert Upper("post") == "POST" by {
      assert "post"[1..] == "ost" && "ost"[1..] == "st" && "st"[1..] == "t" && "t"[1..] == "";
      assert Upper("t") == "T" && Upper("st") == "ST" && Upper("ost") == "OST";
    }
    UpperPut();
    assert ["put", "post"][1..] == ["post"] && ["post"][1..] == [];
    assert UpperAll(["post"]) == ["POST"] && UpperAll(["put", "post"]) == ["PUT", "POST"];
    assert Before("POST", "PUT") by { assert "POST"[1..] == "OST" && "PUT"[1..] == "UT"; }
    assert ["PUT", "POST"][1..] == ["POST"] && ["POST"][1..] == [];
    assert SortBy(["POST"], Itself) == Insert("POST", [], Itself) == ["POST"];
    assert SortBy(["PUT", "POST"], Itself) == Insert("PUT", ["POST"], Itself) == ["POST"] + Insert("PUT", [], Itself);
  }

  lemma UpperPut()
    ensures Upper("put") == "PUT" && Upper("PUT") == "PUT"
  {
    assert "put"[1..] == "ut" && "ut"[1..] == "t" && "t"[1..] == "";
    assert Upper("t") == "T" && Upper("ut") == "UT";
    assert "PUT"[1..] == "UT" && "UT"[1..] == "T" && "T"[1..] == "";
    assert Upper("T") == "T" && Upper("UT") == "UT";
  }

  lemma SecondMethodRefused()
    ensures Check(TwinAndAlias(), ALIAS_TWO_METHODS.CallFor("PUT")) == Some(TwinMissing)
  {
    TwinPaths();
    UpperPut();
    assert "PUT" != "POST" by { assert |"PUT"| == 3 && |"POST"| == 4; }
  }

  lemma FirstMethodTaken()
    ensures Accepted(TwinOnly(), [ALIAS, ALIAS_TWO_METHODS.CallFor("PUT")]) == 1
    ensures RegisterAll(TwinOnly(), [ALIAS]) == TwinAndAlias()
  {
    var calls := [ALIAS, ALIAS_TWO_METHODS.CallFor("PUT")];
    AliasMounted();
    SecondMethodRefused();
    assert calls[1..] == [calls[1]];
    assert Accepted(TwinAndAlias(), [calls[1]]) == 0;
    RegisterAppend(TwinOnly(), [], ALIAS);
    assert [] + [ALIAS] == [ALIAS];
  }

  /** So a refused mount can leave a row for a route the app never serves: an alias whose twin answers only
      the first of its methods. */
  lemma PartialMount()
    ensures var (after, answer) := MountOn(Site(TwinOnly(), map[]), false, ALIAS_TWO_METHODS);
            && answer == Refused(TwinMissing) && after.routes == map[]
            && ("POST", "/cb") in after.registry.byEndpoint && ("POST", "/cb") !in TwinOnly().byEndpoint
  {
    var calls := [ALIAS, ALIAS_TWO_METHODS.CallFor("PUT")];
    AliasMethods();
    FirstMethodTaken();
    SecondMethodRefused();
    assert ALIAS_TWO_METHODS.Calls() == calls && calls[..1] == [ALIAS];
    TwinPaths();
  }
}
