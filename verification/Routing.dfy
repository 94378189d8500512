/** The plane registry (src/falcon_auth/adapters/routing.py): a mutable record of every endpoint's plane,
    refusing at mount what could not be enforced per request. */
module Routing {
  import opened Wrappers
  import opened Strings
  import opened TrustContexts

  datatype Plane = USER | CLIENT | SERVICE_PLANE | CALLBACK | PUBLIC

  // ---- path shapes ---------------------------------------------------------------------------

  /** Python's `\d`, and its str.isdigit, which also takes superscripts. */
  predicate IsDecimal(c: char) {
    '0' <= c <= '9' || '\U{0660}' <= c <= '\U{0669}'
  }

  predicate IsDigit(c: char) {
    IsDecimal(c) || c in {'\U{00B2}', '\U{00B3}', '\U{00B9}'}
  }

  /** The path opens with "/v", n decimals and "/". */
  predicate VersionAt(path: string, n: nat) {
    && n >= 1 && |path| > n + 2 && path[0] == '/' && path[1] == 'v' && path[n + 2] == '/'
    && forall i :: 2 <= i < n + 2 ==> IsDecimal(path[i])
  }

  predicate Versioned(path: string) {
    exists n: nat | n < |path| :: VersionAt(path, n)
  }

  predicate OpsPath(path: string) {
    exists n: nat | n < |path| :: VersionAt(path, n) && "/ops/" <= path[n + 2..]
  }

  predicate WellKnown(path: string) {
    "/.well-known/" <= path
  }

  function DropSlashes(s: string): string {
    if s != [] && s[0] == '/' then DropSlashes(s[1..]) else s
  }

  function Segment(s: string): string {
    if s == [] || s[0] == '/' then [] else [s[0]] + Segment(s[1..])
  }

  /** version_of: the first segment, when it is "v" and digits. */
  function VersionOf(path: string): Option<string> {
    var head := Segment(DropSlashes(path));
    if |head| >= 2 && head[0] == 'v' && forall i :: 1 <= i < |head| ==> IsDigit(head[i]) then Some(head) else None
  }

  lemma {:induction false} SegmentSplit(s: string)
    ensures Segment(s) <= s && '/' !in Segment(s)
    ensures |Segment(s)| < |s| ==> s[|Segment(s)|] == '/'
  {
    if s != [] && s[0] != '/' {
      SegmentSplit(s[1..]);
    }
  }

  lemma {:induction false} SegmentIs(head: string, rest: string)
    requires '/' !in head && (rest == [] || rest[0] == '/')
    ensures Segment(head + rest) == head
  {
    if head == [] {
      assert head + rest == rest;
    } else {
      assert head[0] in head && forall c <- head[1..] :: c in head;
      assert (head + rest)[1..] == head[1..] + rest;
      SegmentIs(head[1..], rest);
    }
  }

  predicate Slashes(s: string) {
    forall c <- s :: c == '/'
  }

  lemma {:induction false} SlashesSplit(s: string)
    ensures |DropSlashes(s)| <= |s|
    ensures var k := |s| - |DropSlashes(s)|;
            Slashes(s[..k]) && s == s[..k] + DropSlashes(s) && (DropSlashes(s) != [] ==> DropSlashes(s)[0] != '/')
  {
    if s != [] && s[0] == '/' {
      SlashesSplit(s[1..]);
      var k := |s| - |DropSlashes(s)|;
      assert s[..k] == [s[0]] + s[1..][..k - 1];
    }
  }

  lemma {:induction false} SlashesDrop(lead: string, rest: string)
    requires Slashes(lead) && (rest == [] || rest[0] != '/')
    ensures DropSlashes(lead + rest) == rest
  {
    if lead == [] {
      assert lead + rest == rest;
    } else {
      assert lead[0] in lead && forall c <- lead[1..] :: c in lead;
      assert (lead + rest)[1..] == lead[1..] + rest;
      SlashesDrop(lead[1..], rest);
    }
  }

  /** The path is slashes, this version, and then nothing or a slash. */
  predicate Opens(path: string, lead: string, version: string, rest: string) {
    && path == lead + (version + rest) && Slashes(lead) && (rest == [] || rest[0] == '/')
    && |version| >= 2 && version[0] == 'v' && forall i | 1 <= i < |version| :: IsDigit(version[i])
  }

  /** version_of reports exactly the first segment, and only when it is "v" and digits. */
  lemma VersionOfExactly(path: string, version: string)
    ensures VersionOf(path) == Some(version) <==> exists lead, rest :: Opens(path, lead, version, rest)
  {
    if VersionOf(path) == Some(version) {
      VersionOpens(path, version);
    }
    if lead, rest :| Opens(path, lead, version, rest) {
      OpensVersion(path, lead, version, rest);
    }
  }

  lemma VersionOpens(path: string, version: string)
    requires VersionOf(path) == Some(version)
    ensures exists lead, rest :: Opens(path, lead, version, rest)
  {
    var body := DropSlashes(path);
    SlashesSplit(path);
    var rest := AfterSegment(body);
    OpensWhen(path, path[..|path| - |body|], body, version, rest);
  }

  lemma AfterSegment(s: string) returns (rest: string)
    ensures s == Segment(s) + rest && (rest == [] || rest[0] == '/')
  {
    SegmentSplit(s);
    rest := s[|Segment(s)|..];
  }

  lemma OpensWhen(path: string, lead: string, body: string, version: string, rest: string)
    requires path == lead + body && body == version + rest && Slashes(lead) && (rest == [] || rest[0] == '/')
    requires |version| >= 2 && version[0] == 'v' && forall i | 1 <= i < |version| :: IsDigit(version[i])
    ensures Opens(path, lead, version, rest)
  {
  }

  lemma OpensVersion(path: string, lead: string, version: string, rest: string)
    requires Opens(path, lead, version, rest)
    ensures VersionOf(path) == Some(version)
  {
    SlashesDrop(lead, version + rest);
    forall i | 0 <= i < |version| ensures version[i] != '/' {}
    SegmentIs(version, rest);
  }

  /** A path the version pattern accepts always yields its first segment from version_of. */
  lemma VersionedYields(path: string, n: nat)
    requires VersionAt(path, n)
    ensures VersionOf(path) == Some(path[1..n + 2])
  {
    var version := path[1..n + 2];
    assert path == "/" + (version + path[n + 2..]) && Slashes("/");
    forall i | 1 <= i < |version| ensures IsDigit(version[i]) {
      assert version[i] == path[i + 1];
    }
    assert Opens(path, "/", version, path[n + 2..]);
    VersionOfExactly(path, version);
  }

  /** The segments a path is read by: "/v", digits, and what follows them. */
  predicate Spelled(path: string, digits: string, rest: string) {
    path == "/v" + (digits + rest) && digits != [] && forall c <- digits :: IsDecimal(c)
  }

  lemma SpelledAt(path: string, digits: string, rest: string)
    requires Spelled(path, digits, rest) && rest != [] && rest[0] == '/'
    ensures VersionAt(path, |digits|) && path[|digits| + 2..] == rest
  {
    forall i | 2 <= i < |digits| + 2 ensures IsDecimal(path[i]) {
      assert path[i] == digits[i - 2] && digits[i - 2] in digits;
    }
  }

  lemma AtSpelled(path: string, n: nat)
    requires VersionAt(path, n)
    ensures Spelled(path, path[2..n + 2], path[n + 2..]) && path[n + 2] == '/'
  {
    forall c <- path[2..n + 2] ensures IsDecimal(c) {
      var i :| 0 <= i < n && path[2..n + 2][i] == c;
      assert path[i + 2] == c;
    }
  }

  predicate SlashNext(path: string, digits: string, rest: string) {
    Spelled(path, digits, rest) && rest != [] && rest[0] == '/'
  }

  predicate OpsNext(path: string, digits: string, rest: string) {
    Spelled(path, digits, rest) && "/ops/" <= rest
  }

  /** A versioned path is "/v", one digit or more, "/" and anything. */
  lemma VersionedExactly(path: string)
    ensures Versioned(path) <==> exists digits, rest :: SlashNext(path, digits, rest)
  {
    if n: nat :| n < |path| && VersionAt(path, n) {
      AtSpelled(path, n);
      assert SlashNext(path, path[2..n + 2], path[n + 2..]);
    }
    if digits, rest :| SlashNext(path, digits, rest) {
      SpelledAt(path, digits, rest);
    }
  }

  /** A path under ops is "/v", one digit or more, "/ops/" and anything. */
  lemma OpsExactly(path: string)
    ensures OpsPath(path) <==> exists digits, rest :: OpsNext(path, digits, rest)
  {
    if n: nat :| n < |path| && VersionAt(path, n) && "/ops/" <= path[n + 2..] {
      AtSpelled(path, n);
      assert OpsNext(path, path[2..n + 2], path[n + 2..]);
    }
    if digits, rest :| OpsNext(path, digits, rest) {
      assert "/ops/"[0] == rest[0] == '/';
      SpelledAt(path, digits, rest);
    }
  }

  // ---- registrations -------------------------------------------------------------------------

  type Key = (string, string)   // method, path

  datatype Registration = Registration(
    endpoint: Key, plane: Plane, resourceType: string, version: Option<string>, reason: Option<string>,
    credential: Option<string>, actorTypes: Option<set<ActorType>>, aliasOf: Option<string>, devOnly: bool)

  datatype Call = Call(
    plane: Plane, httpMethod: string, path: string, resourceType: string, reason: Option<string>,
    credential: Option<string>, actorTypes: Option<set<ActorType>>, aliasOf: Option<string>, devOnly: bool)
  {
    function Endpoint(): Key {
      (Upper(httpMethod), path)
    }

    function Row(): Registration {
      Registration(Endpoint(), plane, resourceType, VersionOf(path), reason, credential, actorTypes,
                                aliasOf, devOnly)
    }
  }

  datatype Conflict =
    | IdentityProviderOnly
    | NoActorTypes | StrayActorType | OperatorOutsideOps
    | PublicWithCredential | PublicWithoutReason
    | Unversioned
    | AliasOffCallback | AliasVersioned | TwinMissing | TwinUnfit | TwinDiffers
    | EndpointOnTwoPlanes | ClassOnTwoPlanes | ClassOnTwoVersions

  datatype State = State(byEndpoint: map<Key, Registration>, byClass: map<string, Registration>,
                         versionByClass: map<string, string>)

  const EMPTY := State(map[], map[], map[])

  function Admissible(plane: Plane): set<ActorType> {
    if plane == USER then {CUSTOMER, OPERATOR} else if plane == SERVICE_PLANE then {SERVICE} else {}
  }

  function CheckActorTypes(c: Call): Option<Conflict> {
    if c.actorTypes.None? then None
    else if c.actorTypes.value == {} then Some(NoActorTypes)
    else if !(c.actorTypes.value <= Admissible(c.plane)) then Some(StrayActorType)
    else if c.actorTypes.value == {OPERATOR} && !OpsPath(c.path) then Some(OperatorOutsideOps)
    else None
  }

  function CheckAlias(s: State, c: Call, aliasOf: string): Option<Conflict> {
    var key := (c.Endpoint().0, aliasOf);
    if c.plane != CALLBACK then Some(AliasOffCallback)
    else if Versioned(c.path) then Some(AliasVersioned)
    else if key !in s.byEndpoint then Some(TwinMissing)
    else
      var twin := s.byEndpoint[key];
      if twin.plane != CALLBACK || twin.aliasOf.Some? then Some(TwinUnfit)
      else if twin.resourceType != c.resourceType || twin.credential != c.credential then Some(TwinDiffers)
      else None
  }

  function CheckPurity(s: State, c: Call): Option<Conflict> {
    var key := c.Endpoint();
    var version := VersionOf(c.path);
    if key in s.byEndpoint && s.byEndpoint[key].plane != c.plane then Some(EndpointOnTwoPlanes)
    else if c.resourceType in s.byClass && s.byClass[c.resourceType].plane != c.plane then Some(ClassOnTwoPlanes)
    else if version.Some? && c.resourceType in s.versionByClass
            && s.versionByClass[c.resourceType] != version.value then Some(ClassOnTwoVersions)
    else None
  }

  function Check(s: State, c: Call): Option<Conflict> {
    if c.plane == CLIENT then Some(IdentityProviderOnly)
    else if CheckActorTypes(c).Some? then CheckActorTypes(c)
    else if c.plane == PUBLIC && c.credential.Some? then Some(PublicWithCredential)
    else if c.plane == PUBLIC && (c.reason.None? || Strip(c.reason.value) == []) then Some(PublicWithoutReason)
    else
      var shape := match c.aliasOf
                   case None => if Versioned(c.path) || WellKnown(c.path) then None else Some(Unversioned)
                   case Some(aliasOf) => CheckAlias(s, c, aliasOf);
      if shape.Some? then shape else CheckPurity(s, c)
  }

  /** The endpoint is recorded, and the class's first registration and first version if not yet held. */
  function Record(s: State, c: Call): State {
    var r := c.Row();
    State(s.byEndpoint[r.endpoint := r],
          if c.resourceType in s.byClass then s.byClass else s.byClass[c.resourceType := r],
          if r.version.None? || c.resourceType in s.versionByClass then s.versionByClass
          else s.versionByClass[c.resourceType := r.version.value])
  }

  /** A refused call changes nothing. */
  function Register(s: State, c: Call): State {
    if Check(s, c).Some? then s else Record(s, c)
  }

  class PlaneRegistry {
    var byEndpoint: map<Key, Registration>
    var byClass: map<string, Registration>
    var versionByClass: map<string, string>

    constructor ()
      ensures Value() == EMPTY
    {
      byEndpoint, byClass, versionByClass := map[], map[], map[];
    }

    function Value(): State
      reads this
    {
      State(byEndpoint, byClass, versionByClass)
    }

    method RegisterCall(c: Call) returns (conflict: Option<Conflict>)
      modifies this
      ensures conflict == Check(old(Value()), c)
      ensures Value() == Register(old(Value()), c)
    {
      if c.plane == CLIENT {
        return Some(IdentityProviderOnly);
      }
      conflict := CheckActorTypes(c);
      if conflict.Some? {
        return;
      }
      if c.plane == PUBLIC && c.credential.Some? {
        return Some(PublicWithCredential);
      }
      if c.plane == PUBLIC && (c.reason.None? || Strip(c.reason.value) == []) {
        return Some(PublicWithoutReason);
      }
      var key := c.Endpoint();
      var version := VersionOf(c.path);
      if c.aliasOf.None? {
        if !(Versioned(c.path) || WellKnown(c.path)) {
          return Some(Unversioned);
        }
      } else {
        conflict := CheckAlias(Value(), c, c.aliasOf.value);
        if conflict.Some? {
          return;
        }
      }
      if key in byEndpoint && byEndpoint[key].plane != c.plane {
        return Some(EndpointOnTwoPlanes);
      }
      if c.resourceType in byClass && byClass[c.resourceType].plane != c.plane {
        return Some(ClassOnTwoPlanes);
      }
      if version.Some? && c.resourceType in versionByClass && versionByClass[c.resourceType] != version.value {
        return Some(ClassOnTwoVersions);
      }
      var registration := c.Row();
      byEndpoint := byEndpoint[key := registration];
      if c.resourceType !in byClass {
        byClass := byClass[c.resourceType := registration];
      }
      if version.Some? && c.resourceType !in versionByClass {
        versionByClass := versionByClass[c.resourceType := version.value];
      }
      conflict := None;
    }
  }

  // ---- what every sequence of calls keeps ----------------------------------------------------

  predicate RowOk(s: State, key: Key)
    requires key in s.byEndpoint
  {
    var r := s.byEndpoint[key];
    && r.endpoint == key && r.plane != CLIENT && r.version == VersionOf(key.1)
    && r.resourceType in s.byClass && s.byClass[r.resourceType].plane == r.plane
    && (r.version.Some? ==> r.resourceType in s.versionByClass && s.versionByClass[r.resourceType] == r.version.value)
    && (r.aliasOf.None? ==> Versioned(key.1) || WellKnown(key.1))
    && (r.plane == PUBLIC ==> r.credential.None? && r.reason.Some? && Strip(r.reason.value) != [])
    && (r.actorTypes.Some? ==>
          && r.actorTypes.value != {}
          && (|| (r.plane == USER && r.actorTypes.value <= {CUSTOMER, OPERATOR})
              || (r.plane == SERVICE_PLANE && r.actorTypes.value == {SERVICE})))
    && (r.plane == USER && r.actorTypes == Some({OPERATOR}) ==> OpsPath(key.1))
    && (r.aliasOf.Some? ==>
          && r.plane == CALLBACK && !Versioned(key.1)
          && (key.0, r.aliasOf.value) in s.byEndpoint
          && s.byEndpoint[(key.0, r.aliasOf.value)].plane == CALLBACK)
  }

  predicate Consistent(s: State) {
    forall key <- s.byEndpoint :: RowOk(s, key)
  }

  function RegisterAll(s: State, calls: seq<Call>): State
    decreases |calls|
  {
    if calls == [] then s else RegisterAll(Register(s, calls[0]), calls[1..])
  }

  /** The row a call is recorded under says exactly what the call said, and no other row is touched. */
  lemma RecordedExactly(s: State, c: Call)
    requires Check(s, c).None?
    ensures var rows, key := Register(s, c).byEndpoint, (Upper(c.httpMethod), c.path);
            && key in rows
            && rows[key] == Registration(key, c.plane, c.resourceType, VersionOf(c.path), c.reason, c.credential,
                                         c.actorTypes, c.aliasOf, c.devOnly)
            && rows - {key} == s.byEndpoint - {key}
  {
  }

  lemma RowKept(s: State, c: Call, key: Key)
    requires Check(s, c).None? && key in s.byEndpoint && key != c.Endpoint() && RowOk(s, key)
    ensures RowOk(Register(s, c), key)
  {
  }

  lemma NewRowOk(s: State, c: Call)
    requires Check(s, c).None?
    ensures RowOk(Register(s, c), c.Endpoint())
  {
  }

  lemma RegisterKeeps(s: State, c: Call)
    requires Consistent(s)
    ensures Consistent(Register(s, c))
    ensures forall key <- s.byEndpoint :: key in Register(s, c).byEndpoint
                                          && Register(s, c).byEndpoint[key].plane == s.byEndpoint[key].plane
  {
    var s' := Register(s, c);
    if Check(s, c).None? {
      assert CheckPurity(s, c).None?;
      NewRowOk(s, c);
      forall key <- s'.byEndpoint ensures RowOk(s', key) {
        if key != c.Endpoint() { RowKept(s, c, key); }
      }
    }
  }

  /** Any sequence of calls, accepted and refused, keeps the registry consistent, and no endpoint ever
      leaves the registry or changes plane. */
  lemma {:induction false} RegistryStaysConsistent(s: State, calls: seq<Call>)
    requires Consistent(s)
    ensures var s' := RegisterAll(s, calls);
            && Consistent(s')
            && forall key <- s.byEndpoint :: key in s'.byEndpoint && s'.byEndpoint[key].plane == s.byEndpoint[key].plane
    decreases |calls|
  {
    if calls != [] {
      RegisterKeeps(s, calls[0]);
      RegistryStaysConsistent(Register(s, calls[0]), calls[1..]);
    }
  }

  /** What consistency is for: two endpoints of one class share a plane, and at most one API version is
      among them. */
  lemma ClassPurity(calls: seq<Call>, a: Key, b: Key)
    requires var rows := RegisterAll(EMPTY, calls).byEndpoint;
             a in rows && b in rows && rows[a].resourceType == rows[b].resourceType
    ensures var rows := RegisterAll(EMPTY, calls).byEndpoint;
            && rows[a].plane == rows[b].plane
            && (VersionOf(a.1).Some? && VersionOf(b.1).Some? ==> VersionOf(a.1) == VersionOf(b.1))
  {
    RegistryStaysConsistent(EMPTY, calls);
    var s := RegisterAll(EMPTY, calls);
    assert RowOk(s, a) && RowOk(s, b);
  }

  /** A call is refused exactly when recording it would break the registry, move an endpoint to another plane,
      or add an alias that is not the twin of a proper callback serving the same class and credential. */
  lemma RefusesExactly(s: State, c: Call)
    ensures Check(s, c).None? <==>
              && RowOk(Record(s, c), c.Endpoint())
              && (c.Endpoint() in s.byEndpoint ==> s.byEndpoint[c.Endpoint()].plane == c.plane)
              && (c.aliasOf.Some? ==>
                    var twin := (c.Endpoint().0, c.aliasOf.value);
                    && twin in s.byEndpoint && s.byEndpoint[twin].plane == CALLBACK
                    && s.byEndpoint[twin].aliasOf.None? && SameService(s.byEndpoint[twin], c.Row()))
  {
  }

  // ---- an alias and its twin -----------------------------------------------------------------

  /** Every alias serves exactly what its twin serves: the same class and the same credential. */
  predicate AliasesAgree(s: State) {
    forall key <- s.byEndpoint | s.byEndpoint[key].aliasOf.Some? :: Agrees(s, key)
  }

  predicate Agrees(s: State, key: Key)
    requires key in s.byEndpoint && s.byEndpoint[key].aliasOf.Some?
  {
    var twin := (key.0, s.byEndpoint[key].aliasOf.value);
    && twin in s.byEndpoint
    && s.byEndpoint[twin].resourceType == s.byEndpoint[key].resourceType
    && s.byEndpoint[twin].credential == s.byEndpoint[key].credential
  }

  /** Another alias points at this endpoint. */
  predicate HasAlias(s: State, twin: Key) {
    exists key <- s.byEndpoint :: IsAliasOf(s, key, twin)
  }

  predicate IsAliasOf(s: State, key: Key, twin: Key)
    requires key in s.byEndpoint
  {
    key != twin && key.0 == twin.0 && s.byEndpoint[key].aliasOf == Some(twin.1)
  }

  predicate SameService(a: Registration, b: Registration) {
    a.resourceType == b.resourceType && a.credential == b.credential
  }

  /** Registering an alias checks its twin, but registering over the twin does not check its aliases: the
      agreement survives an accepted call exactly when no other alias points at the endpoint registered, or
      the new row has the old row's class and credential. */
  lemma AliasesAgreeExactly(s: State, c: Call)
    requires Consistent(s) && AliasesAgree(s) && Check(s, c).None?
    ensures var k := c.Endpoint();
            AliasesAgree(Register(s, c))
            <==> (k in s.byEndpoint && HasAlias(s, k) ==> SameService(s.byEndpoint[k], c.Row()))
  {
    var k, s' := c.Endpoint(), Register(s, c);
    if k in s.byEndpoint && HasAlias(s, k) {
      var key :| key in s.byEndpoint && IsAliasOf(s, key, k);
      assert s'.byEndpoint[key] == s.byEndpoint[key] && (key.0, s.byEndpoint[key].aliasOf.value) == k;
      assert Agrees(s', key) <==> SameService(s.byEndpoint[k], c.Row());
    }
    if k in s.byEndpoint && HasAlias(s, k) ==> SameService(s.byEndpoint[k], c.Row()) {
      forall key <- s'.byEndpoint | s'.byEndpoint[key].aliasOf.Some? ensures Agrees(s', key) {
        AgreementKept(s, c, key);
      }
    }
  }

  lemma AgreementKept(s: State, c: Call, key: Key)
    requires Consistent(s) && AliasesAgree(s) && Check(s, c).None?
    requires key in Register(s, c).byEndpoint && Register(s, c).byEndpoint[key].aliasOf.Some?
    requires var k := c.Endpoint();
             k in s.byEndpoint && HasAlias(s, k) ==> SameService(s.byEndpoint[k], c.Row())
    ensures Agrees(Register(s, c), key)
  {
    var k := c.Endpoint();
    if key == k {
      assert CheckAlias(s, c, c.aliasOf.value).None?;
    } else {
      assert Agrees(s, key);
      if (key.0, s.byEndpoint[key].aliasOf.value) == k {
        assert IsAliasOf(s, key, k);
      }
    }
  }

  /** The twin an accepted alias names is a versioned route, as its refusal's wording has it, exactly when it is
      not a /.well-known/ one. */
  lemma TwinVersionedExactly(s: State, c: Call)
    requires Consistent(s) && Check(s, c).None? && c.aliasOf.Some?
    ensures Versioned(c.aliasOf.value) <==> !WellKnown(c.aliasOf.value)
  {
    var twin := c.aliasOf.value;
    assert RowOk(s, (c.Endpoint().0, twin)) && s.byEndpoint[(c.Endpoint().0, twin)].aliasOf.None?;
    assert WellKnown(twin) ==> "/.well-known/"[1] == twin[1] == '.';
  }

  const TWIN := Call(CALLBACK, "POST", "/v1/cb", "Hook", None, None, None, None, false)
  const ALIAS := Call(CALLBACK, "POST", "/cb", "Hook", None, None, None, Some("/v1/cb"), false)

  lemma UpperPost()
    ensures Upper("POST") == "POST"
  {
  }

  lemma TwinPaths()
    ensures "/cb" != "/v1/cb"
    ensures Versioned("/v1/cb") && VersionOf("/v1/cb") == Some("v1")
    ensures !Versioned("/cb") && VersionOf("/cb").None?
  {
    assert |"/cb"| == 3 && |"/v1/cb"| == 6;
    assert VersionAt("/v1/cb", 1);
    VersionedYields("/v1/cb", 1);
    assert "/v1/cb"[1..3] == "v1";
    assert "/cb"[1] == 'c';
    assert DropSlashes("/cb") == "cb" by { assert "/cb"[1..] == "cb"; }
    assert Segment("cb") == "cb" by { assert "cb"[1..] == "b" && "b"[1..] == ""; assert Segment("b") == "b"; }
  }

  function TwinOnly(): State {
    State(map[("POST", "/v1/cb") := TWIN.Row()], map["Hook" := TWIN.Row()], map["Hook" := "v1"])
  }

  function TwinAndAlias(): State {
    TwinOnly().(byEndpoint := map[("POST", "/v1/cb") := TWIN.Row(), ("POST", "/cb") := ALIAS.Row()])
  }

  lemma TwinMounted()
    ensures Register(EMPTY, TWIN) == TwinOnly() && TWIN.Endpoint() == ("POST", "/v1/cb")
  {
    TwinPaths();
    UpperPost();
    assert Check(EMPTY, TWIN).None?;
  }

  lemma AliasMounted()
    ensures Register(TwinOnly(), ALIAS) == TwinAndAlias() && ALIAS.Endpoint() == ("POST", "/cb")
    ensures Check(TwinOnly(), ALIAS).None?
  {
    TwinPaths();
    UpperPost();
    assert CheckAlias(TwinOnly(), ALIAS, "/v1/cb").None?;
    assert Check(TwinOnly(), ALIAS).None?;
  }

  lemma TwinAndAliasReached()
    ensures RegisterAll(EMPTY, [TWIN, ALIAS]) == TwinAndAlias() && Consistent(TwinAndAlias())
  {
    TwinMounted();
    AliasMounted();
    RegisterTwo(EMPTY, TWIN, ALIAS);
    RegistryStaysConsistent(EMPTY, [TWIN, ALIAS]);
  }

  const OPEN_TWIN := TWIN.(path := "/.well-known/cb")

  lemma OpenTwinMounted()
    ensures RegisterAll(EMPTY, [OPEN_TWIN]) == Record(EMPTY, OPEN_TWIN)
    ensures OPEN_TWIN.Endpoint() == ("POST", "/.well-known/cb") && Consistent(Record(EMPTY, OPEN_TWIN))
  {
    UpperPost();
    assert "/.well-known/cb" == "/.well-known/" + "cb";
    assert Check(EMPTY, OPEN_TWIN).None?;
    assert [OPEN_TWIN][1..] == [];
    assert RegisterAll(EMPTY, [OPEN_TWIN]) == RegisterAll(Register(EMPTY, OPEN_TWIN), []);
    RegistryStaysConsistent(EMPTY, [OPEN_TWIN]);
  }

  /** Such a twin is accepted: an unversioned route passes for the versioned one an alias retires into. */
  lemma WellKnownTwinPasses()
    ensures var s := RegisterAll(EMPTY, [OPEN_TWIN]);
            && Consistent(s) && Check(s, ALIAS.(aliasOf := Some("/.well-known/cb"))).None?
            && !Versioned("/.well-known/cb")
  {
    var alias := ALIAS.(aliasOf := Some("/.well-known/cb"));
    var s := Record(EMPTY, OPEN_TWIN);
    OpenTwinMounted();
    UpperPost();
    TwinPaths();
    OpenPath();
    assert CheckAlias(s, alias, "/.well-known/cb").None?;
    assert "/.well-known/cb"[1] == '.';
  }

  lemma OpenPath()
    ensures VersionOf("/.well-known/cb").None? && "/.well-known/cb" != "/cb"
  {
    var path := "/.well-known/cb";
    assert |path| == 15 && |"/cb"| == 3;
    assert DropSlashes(path) == path[1..] && path[1..][0] == '.';
    assert Segment(path[1..])[0] == '.';
  }

  const DRIFTED := TWIN.(resourceType := "Other")

  lemma DriftAccepted()
    ensures Check(TwinAndAlias(), DRIFTED).None? && DRIFTED.Endpoint() == ("POST", "/v1/cb")
    ensures !SameService(TWIN.Row(), DRIFTED.Row()) && HasAlias(TwinAndAlias(), ("POST", "/v1/cb"))
  {
    TwinPaths();
    UpperPost();
    assert "Other" != "Hook" by { assert |"Other"| == 5 && |"Hook"| == 4; }
    assert IsAliasOf(TwinAndAlias(), ("POST", "/cb"), ("POST", "/v1/cb"));
  }

  lemma AgreeBefore()
    ensures AliasesAgree(TwinAndAlias())
  {
  }

  /** Such a call exists: a twin re-registered with another class leaves its alias serving the old one. */
  lemma TwinMayDrift()
    ensures var s := RegisterAll(EMPTY, [TWIN, ALIAS]);
            && Consistent(s) && AliasesAgree(s) && Check(s, DRIFTED).None? && !AliasesAgree(Register(s, DRIFTED))
  {
    TwinAndAliasReached();
    AgreeBefore();
    DriftAccepted();
    AliasesAgreeExactly(TwinAndAlias(), DRIFTED);
  }

  lemma RegisterTwo(s: State, a: Call, b: Call)
    ensures RegisterAll(s, [a, b]) == Register(Register(s, a), b)
  {
    assert [a, b][1..] == [b] && [b][1..] == [];
    assert RegisterAll(Register(s, a), [b]) == RegisterAll(Register(Register(s, a), b), []);
  }
}
