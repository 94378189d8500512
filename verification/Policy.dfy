/** The capability policy (src/falcon_auth/entitlement/enforcer.py) and its build-time lint
    (src/falcon_auth/entitlement/flatness.py). Casbin is its matcher over a reachability relation:
    `g` links a name to itself and is transitive up to a depth limit. */
module Policies {
  import opened Wrappers
  import opened Strings

  /** A registry value as an author writes it: one entitlement, or an any-of list. */
  datatype RowValue = One(entitlement: string) | AnyOf(entitlements: seq<string>)

  type Registry = map<string, RowValue>

  /** name -> the entitlements listed for it: the normalised registry, the expansion, the peer rows. */
  type Rows = map<string, seq<string>>

  type Links = set<(string, string)>

  // ---- the registry, normalised --------------------------------------------------------------

  function Listed(v: RowValue): seq<string> {
    match v
    case One(e) => [e]
    case AnyOf(es) => es
  }

  function Kept(es: seq<string>): seq<string> {
    if es == [] then []
    else (if Strip(es[0]) != [] then [Strip(es[0])] else []) + Kept(es[1..])
  }

  lemma {:induction false} KeptAppend(es: seq<string>, e: string)
    ensures Kept(es + [e]) == Kept(es) + (if Strip(e) != [] then [Strip(e)] else [])
  {
    if es == [] {
      assert [e][1..] == [];
      assert Kept([e]) == (if Strip(e) != [] then [Strip(e)] else []) + Kept([]);
    } else {
      KeptAppend(es[1..], e);
      assert (es + [e])[1..] == es[1..] + [e];
    }
  }

  /** A kept entitlement is exactly the stripped form of some listed one, and never blank. */
  lemma {:induction false} KeptExact(es: seq<string>, e: string)
    ensures e in Kept(es) <==> e != [] && exists raw <- es :: Strip(raw) == e
  {
    if es != [] {
      KeptExact(es[1..], e);
      assert es == [es[0]] + es[1..];
    }
  }

  /** None when a capability is mapped to nothing: it would deny every caller while looking configured. */
  function Normalise(registry: Registry): Option<Rows> {
    if forall cap <- registry :: Kept(Listed(registry[cap])) != []
    then Some(map cap | cap in registry :: Kept(Listed(registry[cap])))
    else None
  }

  method NormaliseRegistry(registry: Registry) returns (rows: Option<Rows>)
    ensures rows == Normalise(registry)
  {
    var out: Rows := map[];
    var blank: set<string> := {};
    var todo := registry.Keys;
    while todo != {}
      invariant todo <= registry.Keys
      invariant blank == set cap | cap in registry.Keys - todo && Kept(Listed(registry[cap])) == []
      invariant out == map cap | cap in registry.Keys - todo && Kept(Listed(registry[cap])) != [] ::
                         Kept(Listed(registry[cap]))
      decreases todo
    {
      var cap :| cap in todo;
      var entitlements := Listed(registry[cap]);
      var kept: seq<string> := [];
      for i := 0 to |entitlements|
        invariant kept == Kept(entitlements[..i])
      {
        KeptAppend(entitlements[..i], entitlements[i]);
        assert entitlements[..i + 1] == entitlements[..i] + [entitlements[i]];
        var e := Strip(entitlements[i]);
        if e != [] { kept := kept + [e]; }
      }
      assert entitlements[..|entitlements|] == entitlements;
      if kept == [] { blank := blank + {cap}; } else { out := out[cap := kept]; }
      todo := todo - {cap};
    }
    if blank != {} {
      ghost var cap :| cap in blank;
      assert Kept(Listed(registry[cap])) == [];
      return None;
    }
    forall cap <- registry ensures Kept(Listed(registry[cap])) != [] {
      assert cap !in blank;
    }
    assert out == map cap | cap in registry :: Kept(Listed(registry[cap]));
    rows := Some(out);
  }

  /** A registry is refused exactly when some capability lists nothing but white space; otherwise each
      capability keeps its entries, stripped, in order, without the blank ones. */
  lemma NormalisedExactly(registry: Registry)
    ensures Normalise(registry).None? <==> exists cap <- registry :: forall e <- Listed(registry[cap]) :: Blank(e)
    ensures Normalise(registry).Some? ==>
              && Normalise(registry).value.Keys == registry.Keys
              && forall cap <- registry, e: string ::
                   e in Normalise(registry).value[cap]
                   <==> e != [] && exists raw <- Listed(registry[cap]) :: Strip(raw) == e
  {
    forall cap <- registry, e: string
      ensures e in Kept(Listed(registry[cap])) <==> e != [] && exists raw <- Listed(registry[cap]) :: Strip(raw) == e
    {
      KeptExact(Listed(registry[cap]), e);
    }
    forall cap <- registry
      ensures Kept(Listed(registry[cap])) == [] <==> forall e <- Listed(registry[cap]) :: Blank(e)
    {
      KeptNothing(Listed(registry[cap]));
    }
  }

  lemma {:induction false} KeptNothing(es: seq<string>)
    ensures Kept(es) == [] <==> forall e <- es :: Blank(e)
  {
    if es != [] {
      var n := |es| - 1;
      assert es == es[..n] + [es[n]];
      KeptNothing(es[..n]);
      KeptAppend(es[..n], es[n]);
      StripBlank(es[n]);
    }
  }

  // ---- casbin's matcher ----------------------------------------------------------------------

  /** casbin's role manager: a name reaches itself, and through at most `depth` links any other. */
  predicate Reach(depth: nat, g: Links, a: string, b: string) {
    a == b || (depth > 0 && exists link <- g :: link.0 == a && Reach(depth - 1, g, link.1, b))
  }

  /** p: (entitlement, capability) rows; g: (grant or peer, entitlement) rows. */
  datatype Policy = Policy(p: Links, g: Links, registry: Rows, peers: set<string>, depth: nat) {
    predicate Enforce(sub: string, cap: string) {
      exists row <- p :: row.1 == cap && Reach(depth, g, sub, row.0)
    }

    /** The first subject that opens the capability. */
    function OpenedBy(subjects: seq<string>, cap: string): Option<string> {
      if subjects == [] then None
      else if Enforce(subjects[0], cap) then Some(subjects[0])
      else OpenedBy(subjects[1..], cap)
    }

    predicate AllowsPeer(peer: string, cap: string) {
      peer in peers && Enforce(peer, cap)
    }
  }

  function PRows(registry: Rows): Links {
    set cap, e | cap in registry && e in registry[cap] :: (e, cap)
  }

  function GRows(rows: Rows): Links {
    set name, e | name in rows && e in rows[name] :: (name, e)
  }

  function Build(registry: Rows, expansion: Rows, peers: Rows, depth: nat): Policy {
    Policy(PRows(registry), GRows(expansion) + GRows(peers), registry, peers.Keys, depth)
  }

  /** Which subjects are held, not their order, settles the verdict; the answer is the first that opens. */
  lemma {:induction false} OpenedByExact(policy: Policy, subjects: seq<string>, cap: string)
    ensures policy.OpenedBy(subjects, cap).None? <==> forall s <- subjects :: !policy.Enforce(s, cap)
    ensures policy.OpenedBy(subjects, cap).Some? ==>
              exists i :: 0 <= i < |subjects| && policy.OpenedBy(subjects, cap) == Some(subjects[i])
                          && policy.Enforce(subjects[i], cap)
                          && forall j :: 0 <= j < i ==> !policy.Enforce(subjects[j], cap)
  {
    if subjects != [] && !policy.Enforce(subjects[0], cap) {
      OpenedByExact(policy, subjects[1..], cap);
      assert forall s <- subjects :: s == subjects[0] || s in subjects[1..];
      if policy.OpenedBy(subjects, cap).Some? {
        var i :| 0 <= i < |subjects[1..]| && policy.OpenedBy(subjects, cap) == Some(subjects[1..][i])
                 && policy.Enforce(subjects[1..][i], cap)
                 && forall j :: 0 <= j < i ==> !policy.Enforce(subjects[1..][j], cap);
        assert forall j :: 0 <= j < i + 1 ==> !policy.Enforce(subjects[j], cap) by {
          assert forall j :: 1 <= j < i + 1 ==> subjects[j] == subjects[1..][j - 1];
        }
        assert subjects[i + 1] == subjects[1..][i];
      }
    }
  }

  // ---- the lint ------------------------------------------------------------------------------

  datatype Verdict =
    | Passed
    | SelfLink | BothSides | BlankRow | GrantIsEntitlement      // check_flatness
    | UnregisteredGrant                                        // check_grants_registered
    | RegisterCollision                                        // check_register_disjoint
    | PeerIsGrant | PeerIsEntitlement | PeerThirdHop | DeadPeerRow   // check_peers

  function Targets(rows: Rows): set<string> {
    set name, e | name in rows && e in rows[name] :: e
  }

  function CheckFlatness(expansion: Rows, registry: Registry): Verdict {
    if exists g <- expansion :: g in expansion[g] then SelfLink
    else if expansion.Keys * Targets(expansion) != {} then BothSides
    else match Normalise(registry)
      case None => BlankRow
      case Some(rows) => if expansion.Keys * Targets(rows) != {} then GrantIsEntitlement else Passed
  }

  function CheckGrantsRegistered(expansion: Rows, register: set<string>): Verdict {
    if expansion.Keys - register != {} then UnregisteredGrant else Passed
  }

  function CheckRegisterDisjoint(rows: Rows, register: set<string>): Verdict {
    if register * Targets(rows) != {} then RegisterCollision else Passed
  }

  function CheckPeers(peers: Rows, rows: Rows, expansion: Rows, register: set<string>): Verdict {
    var grants := expansion.Keys + register;
    if peers.Keys * grants != {} then PeerIsGrant
    else if peers.Keys * (Targets(rows) + Targets(expansion)) != {} then PeerIsEntitlement
    else if Targets(peers) * (peers.Keys + grants) != {} then PeerThirdHop
    else if !(Targets(peers) <= Targets(rows)) then DeadPeerRow
    else Passed
  }

  function VerifyPolicy(registry: Registry, expansion: Rows, register: Option<set<string>>, peers: Rows): Verdict {
    var flat := CheckFlatness(expansion, registry);
    if !flat.Passed? then flat
    else
      var rows := Normalise(registry).value;
      var known := if register.Some? then CheckGrantsRegistered(expansion, register.value) else Passed;
      if !known.Passed? then known
      else
        var apart := if register.Some? then CheckRegisterDisjoint(rows, register.value) else Passed;
        if !apart.Passed? then apart
        else if peers == map[] then Passed
        else CheckPeers(peers, rows, expansion, if register.Some? then register.value else {})
  }

  /** The row a subject was given in the source, wherever it was declared. */
  function OwnRow(expansion: Rows, peers: Rows, name: string): seq<string> {
    if name in peers then peers[name] else if name in expansion then expansion[name] else []
  }

  predicate Meets(row: seq<string>, any: seq<string>) {
    exists e <- row :: e in any
  }

  /** A name that links to nothing reaches only itself. */
  lemma SinkReach(depth: nat, g: Links, a: string, b: string)
    requires forall link <- g :: link.0 != a
    ensures Reach(depth, g, a, b) <==> a == b
  {
  }

  lemma LinksOf(expansion: Rows, peers: Rows, name: string, e: string)
    requires expansion.Keys * peers.Keys == {}
    ensures (name, e) in GRows(expansion) + GRows(peers) <==> e in OwnRow(expansion, peers, name)
  {
    assert name !in expansion.Keys * peers.Keys;
    assert (name, e) in GRows(expansion) <==> name in expansion && e in expansion[name];
    assert (name, e) in GRows(peers) <==> name in peers && e in peers[name];
  }

  predicate Apart(a: set<string>, b: set<string>) {
    forall x <- a :: x !in b
  }

  lemma Disjoint(a: set<string>, b: set<string>)
    requires a * b == {}
    ensures Apart(a, b) && Apart(b, a)
  {
    forall x <- a ensures x !in b { assert x !in a * b; }
  }

  /** What any passing lint gives: the three vocabularies do not meet, so no entitlement a row points
      to has links of its own. */
  lemma LintSeparates(registry: Registry, expansion: Rows, register: Option<set<string>>, peers: Rows)
    requires VerifyPolicy(registry, expansion, register, peers).Passed?
    ensures Normalise(registry).Some?
    ensures var rows := Normalise(registry).value;
            && expansion.Keys * peers.Keys == {}
            && Apart(expansion.Keys, Targets(rows)) && Apart(peers.Keys, Targets(rows))
            && (register.Some? ==> Apart(register.value, Targets(rows)))
    ensures forall e | e in Targets(expansion) || e in Targets(peers) :: e !in expansion && e !in peers
  {
    var rows := Normalise(registry).value;
    Disjoint(expansion.Keys, Targets(expansion));
    Disjoint(expansion.Keys, Targets(rows));
    if register.Some? { Disjoint(register.value, Targets(rows)); }
    if peers != map[] {
      var grants := expansion.Keys + (if register.Some? then register.value else {});
      Disjoint(peers.Keys, grants);
      Disjoint(peers.Keys, Targets(rows) + Targets(expansion));
      Disjoint(Targets(peers), peers.Keys + grants);
    }
  }

  lemma DisjointExactly(a: set<string>, rows: Rows)
    ensures a * Targets(rows) == {} <==> forall name <- rows, e <- rows[name] :: e !in a
  {
    if a * Targets(rows) == {} {
      forall name <- rows, e <- rows[name] ensures e !in a {
        assert e in Targets(rows);
        assert e in a ==> e in a * Targets(rows);
      }
    }
  }

  lemma ApartExactly(a: set<string>, b: set<string>)
    ensures a * b == {} <==> forall x <- a :: x !in b
  {
    if a * b == {} {
      forall x <- a ensures x !in b {
        assert x in b ==> x in a * b;
      }
    }
  }

  /** Flat: no grant expands to a grant, itself included; no row is blank; no grant is an entitlement. */
  lemma FlatExactly(expansion: Rows, registry: Registry)
    ensures CheckFlatness(expansion, registry).Passed? <==>
              && (forall g <- expansion, e <- expansion[g] :: e !in expansion)
              && Normalise(registry).Some?
              && forall cap <- Normalise(registry).value, e <- Normalise(registry).value[cap] :: e !in expansion
  {
    DisjointExactly(expansion.Keys, expansion);
    if Normalise(registry).Some? {
      DisjointExactly(expansion.Keys, Normalise(registry).value);
    }
  }

  /** The register: every expanded grant is in it, and nothing in it is an entitlement. */
  lemma RegisterExactly(expansion: Rows, rows: Rows, register: set<string>)
    ensures CheckGrantsRegistered(expansion, register).Passed? <==> forall g <- expansion :: g in register
    ensures CheckRegisterDisjoint(rows, register).Passed? <==> forall cap <- rows, e <- rows[cap] :: e !in register
  {
    DisjointExactly(register, rows);
    assert forall g <- expansion :: g !in register ==> g in expansion.Keys - register;
  }

  /** Peers: neither grants nor entitlements; expanding to neither peers nor grants, and only to entitlements that
      some capability lists. */
  lemma PeersExactly(peers: Rows, rows: Rows, expansion: Rows, register: set<string>)
    ensures CheckPeers(peers, rows, expansion, register).Passed? <==>
              && (forall p <- peers :: p !in expansion && p !in register)
              && (forall cap <- rows, e <- rows[cap] :: e !in peers)
              && (forall g <- expansion, e <- expansion[g] :: e !in peers)
              && (forall p <- peers, e <- peers[p] :: e !in peers && e !in expansion && e !in register)
              && (forall p <- peers, e <- peers[p] :: exists cap <- rows :: e in rows[cap])
  {
    var grants := expansion.Keys + register;
    ApartExactly(peers.Keys, grants);
    DisjointExactly(peers.Keys, rows);
    DisjointExactly(peers.Keys, expansion);
    assert peers.Keys * (Targets(rows) + Targets(expansion))
        == peers.Keys * Targets(rows) + peers.Keys * Targets(expansion);
    DisjointExactly(peers.Keys + grants, peers);
    assert Targets(peers) * (peers.Keys + grants) == (peers.Keys + grants) * Targets(peers);
    LiveRowsExactly(peers, rows);
  }

  lemma LiveRowsExactly(peers: Rows, rows: Rows)
    ensures Targets(peers) <= Targets(rows)
            <==> forall p <- peers, e <- peers[p] :: exists cap <- rows :: e in rows[cap]
  {
    if Targets(peers) <= Targets(rows) {
      forall p <- peers, e <- peers[p] ensures exists cap <- rows :: e in rows[cap] {
        assert e in Targets(peers);
      }
    }
  }

  /** What the whole lint passes: the three checks above, the register's only when one is given, the peers' only
      when there are peers. */
  lemma PassedExactly(registry: Registry, expansion: Rows, register: Option<set<string>>, peers: Rows)
    ensures var rows := Normalise(registry);
            var known := if register.Some? then register.value else {};
            VerifyPolicy(registry, expansion, register, peers).Passed? <==>
              && CheckFlatness(expansion, registry).Passed? && rows.Some?
              && (register.Some? ==>
                    && (forall g <- expansion :: g in known)
                    && (forall cap <- rows.value, e <- rows.value[cap] :: e !in known))
              && (peers != map[] ==> CheckPeers(peers, rows.value, expansion, known).Passed?)
  {
    if CheckFlatness(expansion, registry).Passed? && register.Some? {
      RegisterExactly(expansion, Normalise(registry).value, register.value);
    }
  }

  /** Exactly what a linted policy enforces, for every name whatever and even with the register checks
      skipped: the name's own row, in two hops -- or the name is itself spelled like an entitlement. */
  lemma EnforceExact(registry: Registry, expansion: Rows, register: Option<set<string>>, peers: Rows,
                     depth: nat, name: string, cap: string)
    requires VerifyPolicy(registry, expansion, register, peers).Passed? && depth >= 1 && cap in registry
    ensures Normalise(registry).Some?
    ensures var rows := Normalise(registry).value;
            Build(rows, expansion, peers, depth).Enforce(name, cap) <==>
              name in rows[cap] || Meets(OwnRow(expansion, peers, name), rows[cap])
  {
    var rows := Normalise(registry).value;
    var policy := Build(rows, expansion, peers, depth);
    var own := OwnRow(expansion, peers, name);
    LintSeparates(registry, expansion, register, peers);
    if policy.Enforce(name, cap) {
      var row :| row in policy.p && row.1 == cap && Reach(depth, policy.g, name, row.0);
      if name != row.0 {
        var link :| link in policy.g && link.0 == name && Reach(depth - 1, policy.g, link.1, row.0);
        assert link.1 in Targets(expansion) || link.1 in Targets(peers);
        SinkReach(depth - 1, policy.g, link.1, row.0);
        LinksOf(expansion, peers, name, link.1);
        assert link.1 in own && link.1 in rows[cap];
      }
    }
    if name in rows[cap] {
      assert (name, cap) in policy.p && Reach(depth, policy.g, name, name);
    }
    if Meets(own, rows[cap]) {
      var e :| e in own && e in rows[cap];
      assert (e, cap) in policy.p;
      LinksOf(expansion, peers, name, e);
      assert (name, e) in policy.g;
      assert Reach(depth - 1, policy.g, e, e);
      assert Reach(depth, policy.g, name, e);
    }
  }

  /** The lint is sufficient: for a registered grant or a declared peer, enforcement over the transitive,
      self-linking relation is the flat lookup of its own row. */
  lemma TwoHops(registry: Registry, expansion: Rows, register: set<string>, peers: Rows,
                depth: nat, name: string, cap: string)
    requires VerifyPolicy(registry, expansion, Some(register), peers).Passed? && depth >= 1 && cap in registry
    requires name in register || name in peers
    ensures Normalise(registry).Some?
    ensures var rows := Normalise(registry).value;
            Build(rows, expansion, peers, depth).Enforce(name, cap) <==>
              Meets(OwnRow(expansion, peers, name), rows[cap])
  {
    EnforceExact(registry, expansion, Some(register), peers, depth, name, cap);
    LintSeparates(registry, expansion, Some(register), peers);
    var rows := Normalise(registry).value;
    assert name !in Targets(rows);
  }

  /** Why flatness is linted: an engine allowed two links opens a third layer without objecting. */
  lemma ThirdHopOpens(registry: Rows, expansion: Rows, depth: nat, a: string, b: string, c: string, cap: string)
    requires depth >= 2 && cap in registry && c in registry[cap]
    requires a in expansion && b in expansion[a] && b in expansion && c in expansion[b]
    ensures Build(registry, expansion, map[], depth).Enforce(a, cap)
    ensures forall source: Registry, register, peers ::
              !VerifyPolicy(source, expansion, register, peers).Passed?
  {
    var g := Build(registry, expansion, map[], depth).g;
    assert (a, b) in g && (b, c) in g && (c, cap) in PRows(registry);
    assert Reach(depth - 2, g, c, c);
    assert Reach(depth - 1, g, b, c);
    assert Reach(depth, g, a, c);
    assert b in expansion.Keys * Targets(expansion);
  }

  /** Why the register is checked even with an empty expansion: with the check skipped, a grant spelled
      like an entitlement opens its routes with no row at all; with it, the policy is refused. */
  lemma RegisterCheckNeeded(registry: Registry, grant: string, cap: string, depth: nat)
    requires Normalise(registry).Some? && cap in registry && grant in Normalise(registry).value[cap]
    ensures VerifyPolicy(registry, map[], None, map[]).Passed?
    ensures Build(Normalise(registry).value, map[], map[], depth).Enforce(grant, cap)
    ensures OwnRow(map[], map[], grant) == []
    ensures VerifyPolicy(registry, map[], Some({grant}), map[]) == RegisterCollision
  {
    var rows := Normalise(registry).value;
    assert (grant, cap) in PRows(rows) && Reach(depth, {}, grant, grant);
    assert grant in {grant} * Targets(rows);
  }

  /** An undeclared peer opens nothing, whatever its name is spelled like. */
  lemma PeerVerdict(registry: Registry, expansion: Rows, register: Option<set<string>>, peers: Rows,
                    depth: nat, peer: string, cap: string)
    requires VerifyPolicy(registry, expansion, register, peers).Passed? && depth >= 1 && cap in registry
    ensures Normalise(registry).Some?
    ensures var rows := Normalise(registry).value;
            Build(rows, expansion, peers, depth).AllowsPeer(peer, cap) <==>
              peer in peers && Meets(peers[peer], rows[cap])
  {
    EnforceExact(registry, expansion, register, peers, depth, peer, cap);
    LintSeparates(registry, expansion, register, peers);
    var rows := Normalise(registry).value;
    assert peer in peers ==> peer !in Targets(rows);
  }
}
