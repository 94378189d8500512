/** The enforcer object (src/falcon_auth/entitlement/enforcer.py): policy rows added in place, then only
    queried. Its rows, once built, are exactly the policy value the lint is about. */
module Enforcers {
  import opened Wrappers
  import opened Policies

  class CapabilityEnforcer {
    const registry: Rows
    const peers: set<string>
    const depth: nat
    var p: Links
    var g: Links

    constructor (registry: Rows, peers: set<string>, depth: nat)
      ensures this.registry == registry && this.peers == peers && this.depth == depth
      ensures p == {} && g == {}
    {
      this.registry, this.peers, this.depth := registry, peers, depth;
      p, g := {}, {};
    }

    /** The policy value this object stands for. */
    function Value(): Policy
      reads this
    {
      Policy(p, g, registry, peers, depth)
    }

    /** casbin's add_policy for every capability's every entitlement. */
    method AddPolicies()
      requires p == {}
      modifies this`p
      ensures p == PRows(registry)
    {
      var todo := registry.Keys;
      while todo != {}
        invariant todo <= registry.Keys
        invariant p == set cap, e | cap in registry && cap !in todo && e in registry[cap] :: (e, cap)
        decreases todo
      {
        var cap :| cap in todo;
        ghost var before := p;
        for i := 0 to |registry[cap]|
          invariant p == before + set j | 0 <= j < i :: (registry[cap][j], cap)
        {
          p := p + {(registry[cap][i], cap)};
        }
        todo := todo - {cap};
      }
    }

    /** casbin's add_grouping_policy for every grant's, or peer's, every entitlement. */
    method AddGroupings(rows: Rows)
      modifies this`g
      ensures g == old(g) + GRows(rows)
    {
      var todo := rows.Keys;
      while todo != {}
        invariant todo <= rows.Keys
        invariant g == old(g) + set name, e | name in rows && name !in todo && e in rows[name] :: (name, e)
        decreases todo
      {
        var name :| name in todo;
        ghost var before := g;
        for i := 0 to |rows[name]|
          invariant g == before + set j | 0 <= j < i :: (name, rows[name][j])
        {
          g := g + {(name, rows[name][i])};
        }
        todo := todo - {name};
      }
    }

    /** First match wins. */
    method OpenedBy(subjects: seq<string>, cap: string) returns (subject: Option<string>)
      ensures subject == Value().OpenedBy(subjects, cap)
    {
      var policy := Value();
      for i := 0 to |subjects|
        invariant policy.OpenedBy(subjects, cap) == policy.OpenedBy(subjects[i..], cap)
      {
        assert subjects[i..][0] == subjects[i] && subjects[i..][1..] == subjects[i + 1..];
        if policy.Enforce(subjects[i], cap) {
          return Some(subjects[i]);
        }
      }
      subject := None;
    }
  }

  datatype BuildError = BlankCapability | NoOnboardingRow

  datatype Built = Ready(enforcer: CapabilityEnforcer) | Refused(error: BuildError)

  const ONBOARDING_GRANT := "ONBOARDING_GRANT"
  const CUSTOMER_GRANT := "CUSTOMER_GRANT"

  /** build_enforcer: refuse a blank registry row, or a grant register without the onboarding grant. */
  method BuildEnforcer(registry: Registry, expansion: Rows, peers: Rows, grants: Option<set<string>>, depth: nat)
    returns (built: Built)
    ensures built == Refused(BlankCapability) <==> Normalise(registry).None?
    ensures built == Refused(NoOnboardingRow) <==>
              Normalise(registry).Some? && grants.Some? && ONBOARDING_GRANT !in grants.value
    ensures built.Ready? ==>
              && fresh(built.enforcer) && Normalise(registry).Some?
              && built.enforcer.Value() == Build(Normalise(registry).value, expansion, peers, depth)
  {
    var rows := NormaliseRegistry(registry);
    if rows.None? {
      return Refused(BlankCapability);
    }
    if grants.Some? && ONBOARDING_GRANT !in grants.value {
      return Refused(NoOnboardingRow);
    }
    var enforcer := new CapabilityEnforcer(rows.value, peers.Keys, depth);
    enforcer.AddPolicies();
    enforcer.AddGroupings(expansion);
    enforcer.AddGroupings(peers);
    built := Ready(enforcer);
  }
}
