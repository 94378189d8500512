# falcon-auth: a verified model

falcon-auth decides, per request, whether a caller may do something. This project models the parts of it
that carry state or combine many decisions, and proves what they promise. Nothing here is executed; every
contract and lemma named below is checked by `dafny verify dfyconfig.toml`.

| file | models |
|---|---|
| `TrustContext.dfy`, `TrustCache.dfy` | the trust context as auth's feed carries it; the shared copy of it, with its stamp and tombstone |
| `Resolver.dfy`, `ResolverRuns.dfy`, `ResolverTheorems.dfy`, `ResolverOutcomes.dfy` | the resolver as a step machine: any number of workers, one cache, an auth that answers, denies or is down, a moving clock; its invariant; its guarantees over whole runs; what each outcome means in auth's own terms |
| `ResolverCode.dfy` | `resolve` and `_context` as written, over the mutable cache shared with every other worker: whatever the others do at each await, a call is exactly its own worker's steps of the machine |
| `Wrappers.dfy`, `Strings.dfy` | a value that may be missing; strip, case and Python's order on strings, with `sorted` |
| `Policy.dfy`, `Enforcer.dfy` | casbin's matcher over a transitive, self-linking relation; the build-time lint that makes it flat; the enforcer object |
| `Grants.dfy`, `Gate.dfy` | which grants count for a request; the `require` hook as one decision |
| `Operation.dfy` | per-operation step-up: a fresh key per call, consume before write, against auth's challenge store and an idempotency replay that may forget |
| `Routing.dfy`, `Mounting.dfy`, `Middleware.dfy` | the plane registry, `mount`, and the plane middleware with its bounded search and boot sweep |
| `Selectors.dfy` | where a credential is read, and when two selectors can read the same value |
| `Jwks.dfy`, `JwtVerify.dfy` | the key store under interleaving; decode options, "expired alone", the lifetime ceiling |
| `RawBody.dfy` | the exact bytes of a request body, drained once and replayed |

Objects the source updates in place are classes with the same fields; each method is proved against a value
of those fields, and the guarantees are lemmas about runs of those values. Calls into the network, the clock
and other services are the environment's choice at each step. A function whose behaviour is not modelled (the
host's `veto`, the body hash, an authenticator) is an arbitrary function parameter.

## What the proofs found

Places where the code is narrower than its own prose. The code is modelled as it is; the lemma named gives
the exact condition, and a run or an input where there is something to exhibit.

- The stamp on a cached context is taken when it is written, not when auth answered
  (`src/falcon_auth/trustcontext.py:579`), so a copy's age leaves out that delay
  (`ResolverTheorems.StampHidesTheDelay`). Every staleness bound therefore carries `d`, the delay from auth's
  answer to its use or to its write taking effect; `e`, from reading a copy to using it; and `skew`, how far
  two workers' clocks differ (`ResolverTheorems.StalenessBounds`).
- A denial ends a session for every worker exactly when the tombstone takes effect, or there was no copy, no
  other worker still holds an ENABLED answer, and no earlier write of one is still on its way
  (`ResolverTheorems.DenialEndsSession`). A failed `forget` is swallowed
  (`src/falcon_auth/entitlement/resolver.py:308-315`), and a set whose reply was lost may take effect late
  (`src/falcon_auth/trustcontext.py:519-529`); either way an outage then serves the session again
  (`ResolverTheorems.StoredCopyIsServed`, `ResolverTheorems.LateCopyIsServed`).
- A copy whose age is exactly zero is refused on its own word, with no fetch
  (`src/falcon_auth/entitlement/resolver.py:204`): exactly when its stamp is the reader's very clock reading
  (`ResolverTheorems.CopyRefusesAlone`).
- The write keys on the context's own `session_ref`, the read and the tombstone on the requested one: the copy
  is found exactly when auth echoes the reference it was asked for (`TrustCaches.EchoNeeded`), which the machine
  assumes. The round trip through the cache is exact only for a context that does not itself use the stamp's
  key (`TrustCaches.RoundTrip`).
- A 423 is truthful only if the register gives CUSTOMER_GRANT the session's actor type and the kind the route
  counts (`Gate.OnboardingIsTheOnlyObstacle`).
- Re-registering a callback twin with another class or credential is accepted after its alias is mounted, and
  then the two disagree (`Routing.AliasesAgreeExactly`, `Routing.TwinMayDrift`).
- A twin is said to be a versioned route (`src/falcon_auth/adapters/routing.py:308-311`); an accepted alias's twin
  is one exactly when it is not a `/.well-known/` path, and such a path is accepted
  (`Routing.TwinVersionedExactly`, `Routing.WellKnownTwinPasses`).
- A `mount` refused on a later method keeps the rows of the earlier ones, though no route is served, exactly
  when one of those rows was not there before (`Mounting.RefusedLeavesNothing`, `Mounting.PartialMount`);
  `verify()` judges those rows too.
- `pin_keys` takes no lock: what it pins stays exactly when no fetch was in flight
  (`Jwks.PinHoldsExactly`, `Jwks.PinOverwritten`).
- `verify` promises InvalidToken on any failure (`src/falcon_auth/identity/jwks.py:392-397`). A token whose `iat`
  is a string of digits passes the decoder, and `math.floor` then raises TypeError
  (`src/falcon_auth/identity/jwks.py:462`), which the JWT authenticator reports as unavailable: exactly when
  nothing else is wrong with the token but, perhaps, that it has expired (`JwtVerify.TextIatEscapes`).
- `sub` is documented as never forwarded (`src/falcon_auth/identity/jwks.py:333-335`); the code forwards it
  exactly when the consumer lists it (`JwtVerify.ForwardedExact`).
- `Selector.TLS` is documented as overlapping nothing (`src/falcon_auth/adapters/authenticators.py:224`); like any
  selector it overlaps itself, so authenticators on it on two planes are never wired -- by the carrier check
  exactly when all are conventional, which two of the MTLS method never are (`Middleware.SameCarrierPair`,
  `Middleware.CheckWiring`).
- The lifetime window needs no condition on the sign of `iat` (`JwtVerify.AcceptanceWindow`).

## Model

| member | source | states |
|---|---|---|
| `TrustContexts.ProjectLowersOnly` | src/falcon_auth/trustcontext.py:271-294 | projection only ever takes elevation away, exactly when the window is past or unreadable, keeps the schema rules, and never gives back later what it took |
| `TrustContexts.ValidMeans` | src/falcon_auth/trustcontext.py:245-260 | a context that passes validation names an actor kind exactly for an operator, and a shadow session is an operator's, with no grants and one delegation with its case |
| `TrustCaches.RoundTrip` | src/falcon_auth/trustcontext.py:573-624 | write then read gives back the very same context, absent fields absent and null ones null, with its real age, while the entry lives; a stamp from the future reads as no age at all |
| `TrustCaches.EchoNeeded` | src/falcon_auth/trustcontext.py:581-606 | if and only if: a written copy is found under the requested reference exactly when auth echoed it |
| `TrustCaches.AgeZeroExactly` | src/falcon_auth/trustcontext.py:617-624 | if and only if: when a copy reads as of this very instant |
| `TrustCaches.FreshExactly` | src/falcon_auth/trustcontext.py:617-624 | if and only if: when a copy is younger than a bound; an unstamped, mangled or future stamp never is |
| `TrustCaches.LookExact` | src/falcon_auth/trustcontext.py:601-615 | if and only if: what is a hit, and that anything expired, tombstoned, corrupt or breaking the schema is a miss |
| `TrustCaches.StorageOutlivesBoth` | src/falcon_auth/trustcontext.py:546-571 | the storage life covers the routine window and the whole seconds of the last-good one, and no more than the larger needs |
| `TrustCaches.UnstampStamp` | src/falcon_auth/trustcontext.py:573-582 | stamping loses nothing exactly when auth's document does not use the stamp's key, and never changes validity |
| `TrustCaches.TrustContextCache.constructor` | src/falcon_auth/trustcontext.py:546-571 | the storage life outlasts both the routine and the last-good windows, with the source's rounding |
| `TrustCaches.TrustContextCache.Write` | src/falcon_auth/trustcontext.py:573-582 | overwrites this session's entry alone, stamped at the write; a call that fails may take effect at once, later or never |
| `TrustCaches.TrustContextCache.Forget` | src/falcon_auth/trustcontext.py:584-599 | replaces this session's entry alone by a tombstone, with the same three fates for a call that fails |
| `TrustCaches.TrustContextCache.CacheSet` | src/falcon_auth/trustcontext.py:502-529 | what a set leaves stored and what it leaves on its way, for every reply the caller may get |
| `TrustCaches.TrustContextCache.Land` | src/falcon_auth/trustcontext.py:519-529 | a set on its way takes effect over whatever is stored by then, and its life starts there |
| `TrustCaches.TrustContextCache.Read` | src/falcon_auth/trustcontext.py:601-624 | tombstones, corrupt and expired entries are misses; a mangled or future stamp is an unknown age |
| `ResolverCode.AuthServiceResolver.Resolve` | src/falcon_auth/entitlement/resolver.py:167-220 | the written code leaves the shared cache and ends as its own worker's steps of the machine do, whatever its awaits bring and whatever the other workers do at each of them |
| `ResolverCode.AuthServiceResolver.Context` | src/falcon_auth/entitlement/resolver.py:249-295 | routine read, fetch, write or tombstone, and last-good fallback match the machine step for step, with the others' steps between any two |
| `ResolverCode.AuthServiceResolver.Pause` | src/falcon_auth/entitlement/resolver.py:249-295 | at an await the others take any steps of theirs, over the same cache and clock |
| `ResolverCode.AuthServiceResolver.RoutineRead` | src/falcon_auth/entitlement/resolver.py:262-268 | from any state of the deployment, the routine read is the machine's step |
| `ResolverCode.AuthServiceResolver.Fetch` | src/falcon_auth/entitlement/resolver.py:268-295 | from the fetch on, likewise |
| `ResolverCode.AuthServiceResolver.Conclude` | src/falcon_auth/entitlement/resolver.py:197-213 | from any state of the deployment, the judgement, or the decision to ask again, is the machine's step |
| `ResolverCode.AuthServiceResolver.Settle` | src/falcon_auth/entitlement/resolver.py:270-295 | an ENABLED answer is written, any other has its copy destroyed; a failed tombstone is swallowed and a failed write is not |
| `ResolverCode.AuthServiceResolver.ServeLastGood` | src/falcon_auth/entitlement/resolver.py:275-288 | in an outage a routine read gets the projected last-good copy or is unavailable |
| `ResolverCode.ResolveIsARun` | src/falcon_auth/entitlement/resolver.py:167-220 | every call, with any steps of the others at its awaits, is a run of the machine, so every guarantee over runs covers interleaved calls |
| `Resolvers.EveryRunInterferes` | src/falcon_auth/entitlement/resolver.py:249-315 | no run the others can make at an await is left out of that |
| `ResolverRuns.InvRun` | src/falcon_auth/entitlement/resolver.py:249-315 | in every interleaving each copy, stored or on its way, is one whole ENABLED answer for its own session, with a bounded stamp, and each worker's context has a known origin and age |
| `ResolverTheorems.EndedSessionStaysEnded` | src/falcon_auth/entitlement/resolver.py:262-315 | once a session has no copy, stored or on its way, and no ENABLED answer in flight, no worker accepts it, routine, consequential, fresh or in an outage, until auth gives a new ENABLED answer |
| `ResolverTheorems.DenialEndsSession` | src/falcon_auth/entitlement/resolver.py:308-315 | if and only if: when the arrival of a denial brings that state about |
| `ResolverTheorems.StoredCopyIsServed` | src/falcon_auth/entitlement/resolver.py:275-288 | why the tombstone is needed: with a live copy stored, an outage alone gets the session accepted |
| `ResolverTheorems.LateCopyIsServed` | src/falcon_auth/trustcontext.py:519-529 | why a write on its way must be waited for: when it lands, an outage gets the session accepted |
| `ResolverTheorems.StampHidesTheDelay` | src/falcon_auth/trustcontext.py:573-582 | if and only if: when a copy's age is what has truly passed since auth answered |
| `ResolverTheorems.CacheRefinesCacheFree` | src/falcon_auth/entitlement/resolver.py:193-295 | with auth reachable, every resolve ends as the cache-free resolver would on an answer auth gave within the window, with trust only ever lowered |
| `ResolverTheorems.AcceptanceIsBacked` | src/falcon_auth/entitlement/resolver.py:341-406 | behind every acceptance is an ENABLED answer for that session within the storage life; in strict mode also within jti_staleness and naming the token's own jti |
| `ResolverTheorems.StalenessBounds` | src/falcon_auth/entitlement/resolver.py:193-220 | the three bounds on how long an ended session, or a superseded token, can still be accepted |
| `ResolverTheorems.SupersededOnAuthsWord` | src/falcon_auth/entitlement/resolver.py:193-220 | at most two fetches; superseded only on an answer fetched inside the resolve or a copy of that very instant; a re-fetch against a down auth is unavailability, not a refusal |
| `ResolverTheorems.CopyRefusesAlone` | src/falcon_auth/entitlement/resolver.py:197-213 | if and only if: a mismatch against a served copy ends the resolve with no fetch exactly when the stamp is the reader's clock reading; else it goes on to ask auth |
| `ResolverOutcomes.JudgedExactly` | src/falcon_auth/entitlement/resolver.py:341-406 | the current-token table, lenient and strict, as equivalences over auth's document, the token and the age: every refusal and every acceptance |
| `ResolverOutcomes.CacheFreeExactly` | src/falcon_auth/entitlement/resolver.py:193-220 | with no cache, what each answer of auth ends as |
| `ResolverOutcomes.AcceptedSpeaksForAuth` | src/falcon_auth/entitlement/resolver.py:222-247 | over runs: an accepted principal is, field by field, one ENABLED answer for the token's session, with the host's veto applied to its grants and only its elevation possibly taken away |
| `ResolverOutcomes.CopyElevationIsLive` | src/falcon_auth/entitlement/resolver.py:262-288 | over runs: a principal accepted on a copy, routine or last-good, is elevated with a window only while the reader's clock is before its end |
| `ResolverOutcomes.ConsequentialFailsClosed` | src/falcon_auth/entitlement/resolver.py:275-288 | over runs: a consequential operation is accepted only on an answer fetched in that resolve, and an outage makes it unavailable; no session named is refused with no fetch |
| `ResolverOutcomes.FreshCopyIsServed` | src/falcon_auth/entitlement/resolver.py:262-268 | a copy younger than both windows that names the token's jti is accepted with no fetch |
| `ResolverOutcomes.CacheFaultsExactly` | src/falcon_auth/entitlement/resolver.py:289-315 | what each failing read, write and tombstone costs the resolve |
| `Policies.NormaliseRegistry` | src/falcon_auth/entitlement/enforcer.py:178-198 | the loop equals the row-by-row specification, refusing exactly when some row is blank |
| `Policies.KeptExact` | src/falcon_auth/entitlement/enforcer.py:178-198 | a row keeps exactly the stripped, non-blank entries |
| `Policies.NormalisedExactly` | src/falcon_auth/entitlement/enforcer.py:178-198 | if and only if: a registry is refused exactly when some capability lists only white space; otherwise which entitlements each keeps |
| `Strings.StripExact` | src/falcon_auth/entitlement/enforcer.py:178-198 | if and only if: stripping takes exactly the white space at both ends |
| `Policies.OpenedByExact` | src/falcon_auth/entitlement/enforcer.py:127-153 | order never changes the verdict, only which of several sufficient subjects is named: the first |
| `Policies.LintSeparates` | src/falcon_auth/entitlement/flatness.py:58-218 | a passing lint keeps grants, peers and entitlements apart, so nothing a row points to has links of its own |
| `Policies.PassedExactly` | src/falcon_auth/entitlement/flatness.py:221-246 | if and only if: which checks the whole lint passes, with and without a register and peers |
| `Policies.FlatExactly` | src/falcon_auth/entitlement/flatness.py:75-104 | if and only if: no grant expands to a grant, no row is blank, no grant is an entitlement |
| `Policies.RegisterExactly` | src/falcon_auth/entitlement/flatness.py:107-155 | if and only if: every expanded grant is registered, and nothing registered is an entitlement |
| `Policies.PeersExactly` | src/falcon_auth/entitlement/flatness.py:158-218 | if and only if: peers are neither grants nor entitlements, expand to neither peers nor grants, and only to entitlements some capability lists |
| `Policies.EnforceExact` | src/falcon_auth/entitlement/flatness.py:221-246 | what any linted policy enforces for any name at any depth: its own row in two hops, or being itself spelled like an entitlement |
| `Policies.TwoHops` | src/falcon_auth/entitlement/flatness.py:147-218 | for a registered grant or declared peer, transitive enforcement is exactly the flat lookup |
| `Policies.ThirdHopOpens` | src/falcon_auth/entitlement/flatness.py:75-104 | an unlinted third layer does open the capability, and no register or peers make it pass the lint |
| `Policies.RegisterCheckNeeded` | src/falcon_auth/entitlement/flatness.py:128-155 | without the register check a grant spelled like an entitlement opens its routes with no row; with it the policy is refused |
| `Policies.PeerVerdict` | src/falcon_auth/entitlement/enforcer.py:162-175 | a peer opens exactly what its own declared row reaches; an undeclared one nothing |
| `Enforcers.BuildEnforcer` | src/falcon_auth/entitlement/enforcer.py:201-263 | refuses exactly a blank row or a register with no onboarding grant, and else builds exactly the linted policy value |
| `Enforcers.CapabilityEnforcer.AddPolicies` | src/falcon_auth/entitlement/enforcer.py:254-256 | the rows added in place are exactly the registry's |
| `Enforcers.CapabilityEnforcer.AddGroupings` | src/falcon_auth/entitlement/enforcer.py:257-262 | the links added in place are exactly the rows', on top of those already there |
| `Enforcers.CapabilityEnforcer.OpenedBy` | src/falcon_auth/entitlement/enforcer.py:127-143 | the loop finds the policy value's first opening subject |
| `Grants.SelectGrants` | src/falcon_auth/entitlement/grants.py:136-195 | the loop over delegations equals the specification the lemmas below are about, every refusal included |
| `Grants.WalkFaults` | src/falcon_auth/entitlement/grants.py:174-195 | the request is unavailable exactly when some delegation to that subject carries a grant that may not be delegated |
| `Grants.SelectedExactly` | src/falcon_auth/entitlement/grants.py:153-195 | if and only if: when select selects, and when it gives each refusal, by session, feed, register and subject |
| `Grants.OwnSelection` | src/falcon_auth/entitlement/grants.py:162-173 | if and only if: a request naming no subject counts every held grant of the route's kind, as often as held, and no other |
| `Grants.OfKindInOrder` | src/falcon_auth/entitlement/grants.py:162-173 | they are counted in the order held |
| `Grants.WalkOrdered` | src/falcon_auth/entitlement/grants.py:174-195 | a subject's grants come in the order of the delegations that first carry them |
| `Grants.KindsNeverMix` | src/falcon_auth/entitlement/grants.py:153-195 | every selected grant is registered, of the session's actor type, and of the one kind the route and header fix |
| `Grants.SubjectSelection` | src/falcon_auth/entitlement/grants.py:174-195 | with a subject named the grants are duplicate-free, are exactly the keys of delegation_for, and each maps to the first live permitted delegation to it |
| `Grants.OthersDoNotMatter` | src/falcon_auth/entitlement/grants.py:174-195 | delegations to other subjects, added, removed or broken, never change a non-shadow selection |
| `Gate.Require` | src/falcon_auth/adapters/hooks.py:439-498 | the hook's verdict, the Vary header and the stamped principal on every path |
| `Gate.RegisteredOpen` | src/falcon_auth/entitlement/enforcer.py:127-143 | under a linted policy a list of registered grants opens a capability exactly when one of them reaches it in two hops |
| `Gate.SubjectRequestExact` | src/falcon_auth/adapters/hooks.py:462-498 | if and only if: when a request naming a subject is opened, as one statement over session, feed, delegations and policy |
| `Gate.OwnRequestExact` | src/falcon_auth/adapters/hooks.py:462-498 | if and only if: when a request naming no subject is opened, as one statement over session, feed, register and policy |
| `Gate.AnsweredExactly` | src/falcon_auth/adapters/hooks.py:465-498 | if and only if, answer by answer: the hidden route, the disagreeing feed, the unreachable subject, the 423, the denial, the pass |
| `Gate.ResolvedNeverFaults` | src/falcon_auth/entitlement/grants.py:168-169 | a principal a resolve hands out never meets the index error of the shadow check |
| `Gate.AuditLineIsTrue` | src/falcon_auth/adapters/hooks.py:478-485 | the recorded grant does reach the capability and the recorded delegation is the first live permitted one that carries it |
| `Gate.OwnGrantsDoNotOpenSubjects` | src/falcon_auth/adapters/hooks.py:462-498 | the caller's own well-formed grants cannot change the verdict on a request naming a subject |
| `Gate.OnboardingIsTheOnlyObstacle` | src/falcon_auth/adapters/hooks.py:485-498 | if and only if: when a 423 is truthful, that the same request holding CUSTOMER_GRANT would pass |
| `Operations.InvRun` | src/falcon_auth/assurance/operation.py:159-246 | with fresh keys, retries, crashes, lost and repeated replies and forgotten answers keep every write tied to a challenge its own call consumed |
| `Operations.AtMostOneWrite` | src/falcon_auth/assurance/operation.py:320-328 | in every run each challenge authorises at most one write |
| `Operations.VerifiedExactly` | src/falcon_auth/assurance/operation.py:199-246 | if and only if, answer by answer: what each reply of auth becomes for this purpose and this hash |
| `Operations.PreparedExactly` | src/falcon_auth/adapters/hooks.py:318-352 | if and only if: when a handler gets to ask auth, and with exactly which hash |
| `Operations.WriteIsTheAuthorisedAct` | src/falcon_auth/assurance/operation.py:199-246 | that write has the challenge's purpose and, if it was bound, its exact body hash; a bound challenge with no computed hash authorises none |
| `Operations.AnsweredHandlerWrites` | src/falcon_auth/adapters/hooks.py:287-358 | a handler that auth answers for its purpose, unbound or bound to its own hash, does reach its write |
| `Operations.SharedKeyWritesTwice` | src/falcon_auth/assurance/operation.py:396-399 | the freshness of the key is exactly what this needs: two calls sharing one can spend one challenge twice |
| `Routing.VersionedYields` | src/falcon_auth/adapters/routing.py:527-536 | a path the version pattern accepts always yields its first segment |
| `Routing.VersionOfExactly` | src/falcon_auth/adapters/routing.py:527-536 | if and only if: which segment version_of reports |
| `Routing.VersionedExactly` | src/falcon_auth/adapters/routing.py:79-79 | if and only if: what a versioned path is spelled like |
| `Routing.OpsExactly` | src/falcon_auth/adapters/routing.py:389-389 | if and only if: what an ops path is spelled like |
| `Routing.PlaneRegistry.RegisterCall` | src/falcon_auth/adapters/routing.py:176-267 | the written checks, in order, over the three dictionaries, refuse and record as the specification does |
| `Routing.RefusesExactly` | src/falcon_auth/adapters/routing.py:190-316 | if and only if: a call is refused exactly when recording it would break the registry's invariants, move an endpoint, or add an alias to an unfit twin |
| `Routing.RecordedExactly` | src/falcon_auth/adapters/routing.py:247-267 | the row recorded says exactly what the call said, under its upper-case method, and no other row changes |
| `Routing.RegistryStaysConsistent` | src/falcon_auth/adapters/routing.py:190-316 | every sequence of accepted and refused calls keeps every row sound, and no endpoint ever leaves or changes plane |
| `Routing.ClassPurity` | src/falcon_auth/adapters/routing.py:232-267 | endpoints of one class share a plane and at most one API version, whatever the order of calls |
| `Routing.AliasesAgreeExactly` | src/falcon_auth/adapters/routing.py:269-316 | if and only if: when an accepted call leaves every alias serving what its twin serves |
| `Routing.TwinMayDrift` | src/falcon_auth/adapters/routing.py:269-316 | a concrete run whose next accepted call breaks that agreement |
| `Routing.TwinVersionedExactly` | src/falcon_auth/adapters/routing.py:301-311 | if and only if: when the twin of an accepted alias is the versioned route it is said to be |
| `Routing.WellKnownTwinPasses` | src/falcon_auth/adapters/routing.py:301-311 | a concrete registry that accepts an alias of an unversioned twin |
| `Mounting.MountRoute` | src/falcon_auth/adapters/routing.py:480-504 | registers every method before serving the route; refused, skipped and mounted as specified |
| `Mounting.RegisterEach` | src/falcon_auth/adapters/routing.py:489-495 | the loop stops at the first refusal, leaving exactly the earlier methods' rows |
| `Mounting.AcceptedExact` | src/falcon_auth/adapters/routing.py:489-495 | which calls of a mount are accepted: all before the first refused one, and no other |
| `Mounting.SkippedExactly` | src/falcon_auth/adapters/routing.py:477-478 | if and only if: when a mount is skipped, and that nothing changes then |
| `Mounting.DevRoutesStayOut` | src/falcon_auth/adapters/routing.py:477-478 | over runs: where dev routes are not allowed, no row is dev-only and every served template is named by a mount that is not |
| `Mounting.MountedExactly` | src/falcon_auth/adapters/routing.py:480-504 | if and only if: when a mount succeeds, and then exactly which methods its template serves and what their rows say |
| `Mounting.MountsStayBacked` | src/falcon_auth/adapters/routing.py:480-504 | after any run of mounts, refused ones included, everything served has a row in a consistent registry |
| `Mounting.RefusedMount` | src/falcon_auth/adapters/routing.py:489-495 | a refused mount serves nothing new and keeps exactly the rows before the refused method |
| `Mounting.RefusedLeavesNothing` | src/falcon_auth/adapters/routing.py:489-495 | if and only if: a refused mount leaves no trace exactly when every method before the refused one already had the very row this mount gives it |
| `Mounting.PartialMount` | src/falcon_auth/adapters/routing.py:480-495 | a concrete refused mount, with its methods in the derived order, that leaves a row for a route never served |
| `Strings.SortByExact` | src/falcon_auth/adapters/routing.py:507-524 | the derived methods, and the authenticators tried, come in name order, with nothing lost or added |
| `Middleware.CheckWiring` | src/falcon_auth/adapters/middleware.py:515-541 | construction passes exactly when every authenticator is conventional and no two planes' carriers clash; which of the two refusals is given, and when |
| `Middleware.ConventionExactly` | src/falcon_auth/adapters/middleware.py:515-527 | if and only if, method by method: the one plane each may authenticate on |
| `Middleware.SameCarrierPair` | src/falcon_auth/adapters/middleware.py:515-541 | two authenticators on one carrier and two planes are never wired, and two peer certificates are refused off convention |
| `Middleware.ByNameExact` | src/falcon_auth/adapters/middleware.py:404-432 | the order the search goes in: the supplied authenticators, all of them, by strictly ascending name |
| `Middleware.CarrierCheckExact` | src/falcon_auth/adapters/middleware.py:529-541 | if and only if: when some request can carry a header value that is a credential on two planes; never once the carrier check passes |
| `Middleware.OpensExactly` | src/falcon_auth/adapters/middleware.py:368-402 | if and only if: which one credential may open an endpoint |
| `Middleware.SearchExact` | src/falcon_auth/adapters/middleware.py:404-432 | the search ends at the first searchable entry that is neither absent nor transport, finds it only if valid, and asks exactly the searchable entries up to it |
| `Middleware.FoundByName` | src/falcon_auth/adapters/middleware.py:404-432 | if and only if, by names alone and however they were supplied: which foreign credential is found |
| `Middleware.SearchIsBounded` | src/falcon_auth/adapters/middleware.py:404-432 | only other-plane JWT and peer-certificate entries are asked, and at most one of them is judged |
| `Middleware.OnlySearchableAsked` | src/falcon_auth/adapters/middleware.py:343-364 | with conventional wiring nothing that needs a lookup and nothing of the same plane is ever invoked beside the endpoint's own |
| `Middleware.FirstInvalidHidesTheRest` | src/falcon_auth/adapters/middleware.py:404-432 | an invalid other-plane credential ends the search as a 401, whatever follows it |
| `Middleware.TableExact` | src/falcon_auth/adapters/middleware.py:343-364 | the five-step table as equivalences, the wrong-plane 404 by name order among them, for all replies |
| `Middleware.UnregisteredExactly` | src/falcon_auth/adapters/middleware.py:306-325 | if and only if: an endpoint never registered passes exactly when its template has another method's row or is exempt, and is otherwise refused; nothing is stamped |
| `Middleware.RegisteredExactly` | src/falcon_auth/adapters/middleware.py:326-364 | a registered endpoint's exit and every stamp, over its row, its one opener and the replies |
| `Middleware.FlaggedExactly` | src/falcon_auth/adapters/middleware.py:434-447 | if and only if: every wrong-plane answer is flagged, and nothing else |
| `Middleware.StampedIsProven` | src/falcon_auth/adapters/middleware.py:326-364 | a principal is only ever stamped from the endpoint's own credential, found valid; a PUBLIC caller is stamped with none and asked for none |
| `Middleware.ExemptCannotOpen` | src/falcon_auth/adapters/middleware.py:303-324 | naming a registered template exempt changes nothing |
| `Middleware.PlaneMiddleware.FindForeignCredential` | src/falcon_auth/adapters/middleware.py:404-432 | sorts by name, and the loop with its early exits finds and asks as the specification does |
| `Middleware.PlaneMiddleware.constructor` | src/falcon_auth/adapters/middleware.py:177-224 | a constructed middleware has passed the wiring checks, over authenticators under distinct names |
| `Middleware.PlaneMiddleware.ProcessResource` | src/falcon_auth/adapters/middleware.py:294-364 | the hook's outcome and every attribute stamped on the request |
| `Middleware.PlaneMiddleware.AfterRoute` | src/falcon_auth/adapters/middleware.py:326-364 | from the row on: the actor types are stamped before any gap is raised |
| `Middleware.PlaneMiddleware.Verify` | src/falcon_auth/adapters/middleware.py:228-290 | the boot sweep reports exactly the planes, routes or declarations at fault, in that precedence |
| `Middleware.Sweep` | src/falcon_auth/adapters/middleware.py:254-290 | the sweep's loop collects exactly those sets, in whatever order the rows come |
| `Middleware.BootExact` | src/falcon_auth/adapters/middleware.py:254-290 | if and only if: verify() passes exactly when no request to a registered endpoint can end in UnregisteredRoute |
| `Middleware.BootReportsExactly` | src/falcon_auth/adapters/middleware.py:254-290 | if and only if: which planes, endpoints or declarations each refusal of the sweep names, and in what precedence |
| `Middleware.BootImpliesSafety` | src/falcon_auth/adapters/middleware.py:303-346 | after any run of mounts and a passing verify(), every request on a served template ends in the table or in Falcon's 405 |
| `Selectors.TokenFromExact` | src/falcon_auth/adapters/authenticators.py:773-779 | if and only if: which header values a scheme reads, in any case and spacing, and exactly which token it gives back |
| `Selectors.ExtractExactly` | src/falcon_auth/adapters/authenticators.py:227-232 | a credential is never empty, with no scheme it is the whole value, and the case of header and scheme never matters |
| `Selectors.OverlapsExact` | src/falcon_auth/adapters/authenticators.py:227-240 | overlaps() holds of readable selectors exactly when some request has one header value both would take |
| `Jwks.IndexExact` | src/falcon_auth/identity/jwks.py:186-194 | the key under an id is that of the last entry carrying the id, and nameless entries give none |
| `Jwks.IndexFails` | src/falcon_auth/identity/jwks.py:186-194 | if and only if: when a document is refused whole |
| `Jwks.IndexKeys` | src/falcon_auth/identity/jwks.py:186-194 | the loop over a document equals that index, or fails on an entry that does not parse |
| `Jwks.JWKSStore.PinKeys` | src/falcon_auth/identity/jwks.py:157-173 | replaces the whole key map and pins it, or changes nothing |
| `Jwks.JWKSStore.Refresh` | src/falcon_auth/identity/jwks.py:181-195 | replaces the whole map by the fetched one, and on any failure, or when pinned, nothing |
| `Jwks.JWKSStore.GetKey` | src/falcon_auth/identity/jwks.py:239-262 | an uncontended lookup fetches only on a miss or a stale set and serves what is then cached |
| `Jwks.GetKeyIsARun` | src/falcon_auth/identity/jwks.py:239-262 | that call is a run of the store's machine |
| `Jwks.InvRun` | src/falcon_auth/identity/jwks.py:181-262 | in every interleaving of lookups, warm-ups, polls, pins and cancellations the lock has one holder and the map one source |
| `Jwks.OneFetchInFlight` | src/falcon_auth/identity/jwks.py:197-203 | at most one fetch is in flight, made by the lock's holder |
| `Jwks.WholeLatestFetch` | src/falcon_auth/identity/jwks.py:181-195 | the map is always the whole of the latest successful fetch or pin, and survives every failure |
| `Jwks.EachCallFetchesAtMostOnce` | src/falcon_auth/identity/jwks.py:239-262 | over runs: each call fetches at most once, and one that did not fetch answered a key from a pinned set or one no older than the TTL |
| `Jwks.ReturnedIsTrue` | src/falcon_auth/identity/jwks.py:262-262 | a call answers what the map holds under its id as it returns |
| `Jwks.LookedUpExactly` | src/falcon_auth/identity/jwks.py:247-262 | if and only if: an uncontended call asks the endpoint exactly when the store is not pinned and lacks the key or is past its TTL, and what it then holds and answers |
| `Jwks.WaitersDoNotFetch` | src/falcon_auth/identity/jwks.py:251-256 | a waiter behind a refresh that installed its key returns it without fetching, in every run within the TTL |
| `Jwks.PinHoldsExactly` | src/falcon_auth/identity/jwks.py:157-195 | if and only if: when pinned keys stay pinned in every run |
| `Jwks.PinnedForGood` | src/falcon_auth/identity/jwks.py:157-185 | pinned with no fetch in flight, the store holds exactly the pinned keys in every run from there |
| `Jwks.PinOverwritten` | src/falcon_auth/identity/jwks.py:181-195 | a run in which a refresh already awaiting its fetch overwrites them |
| `JwtVerify.MergeExact` | src/falcon_auth/identity/jwks.py:112-125 | no options shrink the floor: required claims first, no duplicates, nothing lost, mandatory checks on; only switching one off is refused |
| `JwtVerify.ExpiredAlone` | src/falcon_auth/identity/jwks.py:419-449 | for every order of the decoder's checks, EXPIRED exactly when expiry alone fails, accepted exactly when nothing does |
| `JwtVerify.FloorExactly` | src/falcon_auth/identity/jwks.py:451-463 | if and only if, answer by answer: what the floor asks of sid, jti and the lifetime |
| `JwtVerify.IntOfExactly` | src/falcon_auth/identity/jwks.py:462-462 | int() drops the fraction toward zero |
| `JwtVerify.TextIatEscapes` | src/falcon_auth/identity/jwks.py:451-463 | if and only if: when verify raises something other than InvalidToken |
| `JwtVerify.AcceptanceWindow` | src/falcon_auth/identity/jwks.py:411-463 | the clock readings at which a token is accepted lie in one interval no longer than the ceiling and twice the leeway, fractions included |
| `JwtVerify.UsesAreClose` | src/falcon_auth/identity/jwks.py:411-463 | so no two accepted uses are further apart than that |
| `JwtVerify.WindowExact` | src/falcon_auth/identity/jwks.py:411-463 | with all else passing, the interval is exact: accepted inside, EXPIRED past it, refused before it |
| `JwtVerify.ForwardedExact` | src/falcon_auth/identity/jwks.py:465-477 | only listed claims and jti reach the principal; sub does exactly when listed |
| `RawBody.Call` | src/falcon_auth/adapters/rawbody.py:53-77 | what is kept, what is left on the channel, and everything the app will receive, on each path |
| `RawBody.DrainChannel` | src/falcon_auth/adapters/rawbody.py:58-75 | the loop drains as specified and never holds more than the limit |
| `RawBody.Replay.Receive` | src/falcon_auth/adapters/rawbody.py:87-101 | the replayed message once, then the channel, in order |
| `RawBody.DrainExact` | src/falcon_auth/adapters/rawbody.py:58-77 | if and only if: 413, a delivered body, a disconnect, each by the messages received |
| `RawBody.KeptWithinLimit` | src/falcon_auth/adapters/rawbody.py:67-72 | what is delivered or still held never exceeds the limit |
| `RawBody.ChunkingInvariant` | src/falcon_auth/adapters/rawbody.py:53-101 | however a body is split, the app first receives all of its exact bytes, or it is refused; what follows is passed through |

## Left out

- HTTP transport, redirects, status-to-error tables, wire envelopes and codes, logging: auth is an environment that answers ENABLED, answers otherwise, denies, is unavailable or is misconfigured.
- X.509, TLS, the east-west allow-list, reference, HMAC and one-shot authenticators: an authenticator is any function from its name to absent, valid or invalid.
- Cryptography: signatures and the body hash are abstract; injectivity of the hash is a hypothesis of the one clause that uses it, and idempotency keys that never repeat are a hypothesis of the lemmas that need them.
- PyJWT and casbin internals: the decoder is a set of checks in any order, casbin its matcher over a bounded reachability relation.
- Decoding reads one clock: the second decode of an expired token sees the same reading. A time claim is a number or a string of digits; one that int() does not read, infinities included, is not modelled past the decoder's own checks failing on it.
- JSON and pydantic syntax: a context is a record with the map of optional fields present; a corrupt entry is one value.
- The constant "lastgood:" key prefix is dropped; a cache slot is keyed by the session reference.
- `veto`, principal loaders and `Binding`: arbitrary functions, with no claim that `veto` returns a subset.
- Auth's own guard that a session belongs to the user named is not modelled: auth answers for the session it was asked about.
- `select` reads the clock once per request, where the source reads it once per delegation.
- Registry values are strings and lists of strings; the TypeError for other list elements is not modelled, and white space, digits and case are those of ASCII and the nearest Latin and Arabic-Indic characters rather than all of Unicode.
- Reading authenticators in either of two shapes (`_normalise`): the middleware starts from the entries it produces, each under its own name. The wiring refusals list names in the order supplied.
- Falcon's router: a template maps to the methods of the resource last added there; its 405 is the hook standing aside.
- asyncio: a task runs alone between two awaits, and any waiter may get a free lock, which covers the first-come order asyncio uses; the poll's sleep is the environment's choice of when to start a refresh.
- `verify_app`, `lint_routes`, `RemoteJWKSAuthenticator`, `GrantAllResolver`, `check_session_elevated`, deprecation shims: advisory, legacy, or few branches, and would only add easy members.
- `GrantRow` construction checks and `normalise_grants`: easy members; the register is taken as already normalised.
