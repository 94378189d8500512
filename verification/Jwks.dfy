/** The store of signing keys (src/falcon_auth/identity/jwks.py), under any interleaving of lookups, warm-ups,
    poll ticks, pins, cancellations and clock moves. Between two awaits a task runs alone. */
module Jwks {
  import opened Wrappers

  type Key = string

  /** One entry of a key document: its id, and the key it parses to. */
  datatype Jwk = Jwk(kid: Option<string>, key: Option<Key>)

  type Doc = seq<Jwk>
  type Keys = map<string, Key>

  datatype Store = Store(keys: Keys, fetchedAt: int, pinned: bool) {
    predicate Stale(now: int, ttl: nat) {
      !pinned && now - fetchedAt > ttl
    }

    /** A lookup this store answers without asking the endpoint. */
    predicate Answers(kid: string, now: int, ttl: nat) {
      kid in keys && !Stale(now, ttl)
    }

    function Get(kid: string): Option<Key> {
      if kid in keys then Some(keys[kid]) else None
    }
  }

  predicate Nameless(j: Jwk) {
    j.kid.None? || j.kid.value == ""
  }

  /** The keys of a document by id; nothing if an entry does not parse. */
  function Index(doc: Doc): Option<Keys> {
    if doc == [] then Some(map[])
    else
      var before, j := Index(doc[..|doc| - 1]), doc[|doc| - 1];
      if before.None? || Nameless(j) then before
      else if j.key.None? then None
      else Some(before.value[j.kid.value := j.key.value])
  }

  /** The last entry that carries an id gives its key, no other entry gives any, and an empty id is no id. */
  lemma {:induction false} IndexExact(doc: Doc, kid: string, key: Key)
    requires Index(doc).Some?
    ensures kid in Index(doc).value && Index(doc).value[kid] == key
            <==> && kid != ""
                 && exists i :: 0 <= i < |doc| && doc[i].kid == Some(kid) && doc[i].key == Some(key)
                                && forall k :: i < k < |doc| ==> doc[k].kid != Some(kid)
  {
    if doc != [] {
      var n := |doc| - 1;
      var init, j := doc[..n], doc[n];
      IndexExact(init, kid, key);
      if kid != "" && j.kid == Some(kid) {
        assert doc[n].key == Some(key) ==> Index(doc).value[kid] == key;
      } else {
        if i :| 0 <= i < n && init[i].kid == Some(kid) && init[i].key == Some(key)
                && forall k :: i < k < n ==> init[k].kid != Some(kid) {
          assert doc[i] == init[i];
          assert forall k :: i < k < n ==> doc[k] == init[k];
        }
        if i :| 0 <= i < |doc| && doc[i].kid == Some(kid) && doc[i].key == Some(key)
                && forall k :: i < k < |doc| ==> doc[k].kid != Some(kid) {
          assert kid != "" ==> i < n && init[i] == doc[i];
          assert forall k :: i < k < n ==> doc[k] == init[k];
        }
      }
    }
  }

  /** A document is refused whole exactly when some entry that carries an id does not parse. */
  lemma {:induction false} IndexFails(doc: Doc)
    ensures Index(doc).None?
            <==> exists i :: 0 <= i < |doc| && doc[i].kid.Some? && doc[i].kid.value != "" && doc[i].key.None?
  {
    if doc != [] {
      var n := |doc| - 1;
      IndexFails(doc[..n]);
      assert forall i | 0 <= i < n :: doc[..n][i] == doc[i];
    }
  }

  function Installed(s: Store, keys: Keys, now: int): Store {
    s.(keys := keys, fetchedAt := now)
  }

  /** One uncontended get_key: the store after, the key, and whether the endpoint was asked. */
  function LookUp(s: Store, ttl: nat, kid: string, now: int, reply: Option<Doc>, later: int)
    : (Store, Option<Key>, bool)
  {
    if s.Answers(kid, now, ttl) || s.pinned then (s, s.Get(kid), false)
    else
      var after := if reply.Some? && Index(reply.value).Some? then Installed(s, Index(reply.value).value, later) else s;
      (after, after.Get(kid), true)
  }

  // ---- the store as the source keeps it ------------------------------------------------------

  method IndexKeys(doc: Doc) returns (keys: Option<Keys>)
    ensures keys == Index(doc)
  {
    var found: Keys := map[];
    for i := 0 to |doc|
      invariant Index(doc[..i]) == Some(found)
    {
      assert doc[..i + 1][..i] == doc[..i];
      if Nameless(doc[i]) {
        continue;
      }
      if doc[i].key.None? {
        Unparsed(doc, i + 1);
        return None;
      }
      found := found[doc[i].kid.value := doc[i].key.value];
    }
    assert doc[..|doc|] == doc;
    keys := Some(found);
  }

  lemma {:induction false} Unparsed(doc: Doc, n: nat)
    requires n <= |doc| && Index(doc[..n]).None?
    ensures Index(doc).None?
    decreases |doc| - n
  {
    if n < |doc| {
      assert doc[..n + 1][..n] == doc[..n];
      Unparsed(doc, n + 1);
    } else {
      assert doc[..n] == doc;
    }
  }

  class JWKSStore {
    var keys: Keys
    var fetchedAt: int
    var pinned: bool
    const ttl: nat

    constructor (ttl: nat)
      ensures Value() == Store(map[], 0, false) && this.ttl == ttl
    {
      keys, fetchedAt, pinned, this.ttl := map[], 0, false, ttl;
    }

    function Value(): Store
      reads this
    {
      Store(keys, fetchedAt, pinned)
    }

    method PinKeys(jwks: Doc, now: int) returns (ok: bool)
      modifies this
      ensures ok == Index(jwks).Some?
      ensures Value() == if ok then Installed(old(Value()), Index(jwks).value, now).(pinned := true) else old(Value())
    {
      var index := IndexKeys(jwks);
      ok := index.Some?;
      if ok {
        keys, pinned, fetchedAt := index.value, true, now;
      }
    }

    /** _refresh, with what the endpoint answered, if anything, and the clock when it did. */
    method Refresh(reply: Option<Doc>, now: int) returns (fetched: bool)
      modifies this
      ensures fetched == !old(pinned)
      ensures Value() == if fetched && reply.Some? && Index(reply.value).Some?
                         then Installed(old(Value()), Index(reply.value).value, now) else old(Value())
    {
      if pinned {
        return false;
      }
      fetched := true;
      if reply.Some? {
        var index := IndexKeys(reply.value);
        if index.Some? {
          keys, fetchedAt := index.value, now;
        }
      }
    }

    /** get_key when nothing runs beside it: one refresh, only on a miss or a stale set, and a failed refresh
        still serves what is cached. */
    method GetKey(kid: string, now: int, reply: Option<Doc>, later: int) returns (key: Option<Key>, fetched: bool)
      modifies this
      ensures (Value(), key, fetched) == LookUp(old(Value()), ttl, kid, now, reply, later)
    {
      if Value().Answers(kid, now, ttl) {
        return Value().Get(kid), false;
      }
      fetched := Refresh(reply, later);
      key := Value().Get(kid);
    }
  }

  // ---- the tasks -----------------------------------------------------------------------------

  datatype Job = GetKey(kid: string) | RefreshLocked   // the second is a warm-up or a poll tick

  datatype Stage =
    | Waiting                        // for the lock
    | Fetching                       // holding it, awaiting the endpoint
    | Settling                       // holding it, awaiting the log line
    | Returned(key: Option<Key>, age: int, frozen: bool)   // the age of the set answered from, and whether pinned
    | Cancelled
  {
    predicate Holds() {
      Fetching? || Settling?
    }
  }

  datatype Task = Task(job: Job, stage: Stage, fetches: nat)

  datatype Source = Fetch(doc: Doc) | Pin(doc: Doc)

  datatype State = State(now: nat, store: Store, lock: Option<int>, tasks: map<int, Task>, log: seq<Source>)

  datatype Action =
    | Tick(ticks: nat)
    | Start(t: int, job: Job)
    | Acquire(t: int)
    | Arrive(t: int, doc: Doc)
    | Fail(t: int)
    | Release(t: int)
    | Cancel(t: int)
    | PinKeys(doc: Doc)

  predicate InStage(s: State, t: int, stage: Stage) {
    t in s.tasks && s.tasks[t].stage == stage
  }

  predicate Enabled(s: State, a: Action) {
    match a
    case Tick(_) => true
    case Start(t, _) => t !in s.tasks
    case Acquire(t) => InStage(s, t, Waiting) && s.lock.None?
    case Arrive(t, _) => InStage(s, t, Fetching)
    case Fail(t) => InStage(s, t, Fetching)
    case Release(t) => InStage(s, t, Settling)
    case Cancel(t) => t in s.tasks && !s.tasks[t].stage.Returned?
    case PinKeys(_) => true
  }

  function SetTask(s: State, t: int, task: Task): State {
    s.(tasks := s.tasks[t := task])
  }

  /** What the call returns now. */
  function Return(s: State, job: Job): Stage {
    match job
    case GetKey(kid) => Returned(s.store.Get(kid), s.now - s.store.fetchedAt, s.store.pinned)
    case RefreshLocked => Returned(None, s.now - s.store.fetchedAt, s.store.pinned)
  }

  predicate NoNeed(s: State, ttl: nat, job: Job) {
    job.GetKey? && s.store.Answers(job.kid, s.now, ttl)
  }

  function Step(ttl: nat, s: State, a: Action): State
    requires Enabled(s, a)
  {
    match a
    case Tick(n) => s.(now := s.now + n)
    case Start(t, job) =>
      SetTask(s, t, Task(job, if NoNeed(s, ttl, job) then Return(s, job) else Waiting, 0))
    case Acquire(t) =>
      var task := s.tasks[t];
      if NoNeed(s, ttl, task.job) || s.store.pinned then SetTask(s, t, task.(stage := Return(s, task.job)))
      else SetTask(s, t, task.(stage := Fetching, fetches := task.fetches + 1)).(lock := Some(t))
    case Arrive(t, doc) =>
      var s1 := SetTask(s, t, s.tasks[t].(stage := Settling));
      if Index(doc).None? then s1
      else s1.(store := Installed(s.store, Index(doc).value, s.now), log := s.log + [Fetch(doc)])
    case Fail(t) => SetTask(s, t, s.tasks[t].(stage := Settling))
    case Release(t) => SetTask(s, t, s.tasks[t].(stage := Return(s, s.tasks[t].job))).(lock := None)
    case Cancel(t) =>
      SetTask(s, t, s.tasks[t].(stage := Cancelled)).(lock := if s.tasks[t].stage.Holds() then None else s.lock)
    case PinKeys(doc) =>
      if Index(doc).None? then s
      else s.(store := Installed(s.store, Index(doc).value, s.now).(pinned := true), log := s.log + [Pin(doc)])
  }

  predicate Possible(ttl: nat, s: State, run: seq<Action>)
    decreases |run|
  {
    run == [] || (Enabled(s, run[0]) && Possible(ttl, Step(ttl, s, run[0]), run[1..]))
  }

  function Run(ttl: nat, s: State, run: seq<Action>): State
    requires Possible(ttl, s, run)
    decreases |run|
  {
    if run == [] then s else Run(ttl, Step(ttl, s, run[0]), run[1..])
  }

  const START := State(0, Store(map[], 0, false), None, map[], [])

  lemma RunCons(ttl: nat, s: State, a: Action, rest: seq<Action>)
    requires Enabled(s, a) && Possible(ttl, Step(ttl, s, a), rest)
    ensures Possible(ttl, s, [a] + rest) && Run(ttl, s, [a] + rest) == Run(ttl, Step(ttl, s, a), rest)
  {
  }

  /** The uncontended call is a run of the machine: same store, same key, and one fetch or none. */
  lemma GetKeyIsARun(ttl: nat, s: State, t: int, kid: string, reply: Option<Doc>, wait: nat) returns (run: seq<Action>)
    requires t !in s.tasks && s.lock.None?
    ensures Possible(ttl, s, run)
    ensures var (store, key, fetched) := LookUp(s.store, ttl, kid, s.now, reply, s.now + wait);
            var after := Run(ttl, s, run);
            && after.store == store && after.lock.None? && t in after.tasks
            && after.tasks[t].stage.Returned? && after.tasks[t].stage.key == key
            && after.tasks[t].fetches == if fetched then 1 else 0
  {
    var s1 := Step(ttl, s, Start(t, GetKey(kid)));
    if s.store.Answers(kid, s.now, ttl) {
      RunCons(ttl, s, Start(t, GetKey(kid)), []);
      return [Start(t, GetKey(kid))] + [];
    }
    var s2 := Step(ttl, s1, Acquire(t));
    if s.store.pinned {
      RunCons(ttl, s1, Acquire(t), []);
      RunCons(ttl, s, Start(t, GetKey(kid)), [Acquire(t)] + []);
      return [Start(t, GetKey(kid))] + ([Acquire(t)] + []);
    }
    var s3 := Step(ttl, s2, Tick(wait));
    var outcome := if reply.Some? then Arrive(t, reply.value) else Fail(t);
    var s4 := Step(ttl, s3, outcome);
    RunCons(ttl, s4, Release(t), []);
    RunCons(ttl, s3, outcome, [Release(t)] + []);
    RunCons(ttl, s2, Tick(wait), [outcome] + ([Release(t)] + []));
    RunCons(ttl, s1, Acquire(t), [Tick(wait)] + ([outcome] + ([Release(t)] + [])));
    RunCons(ttl, s, Start(t, GetKey(kid)), [Acquire(t)] + ([Tick(wait)] + ([outcome] + ([Release(t)] + []))));
    run := [Start(t, GetKey(kid))] + ([Acquire(t)] + ([Tick(wait)] + ([outcome] + ([Release(t)] + []))));
  }

  // ---- what every run keeps ------------------------------------------------------------------

  /** The call answered nothing, or from an unpinned set that is past its time. */
  predicate Wanting(ttl: nat, stage: Stage)
    requires stage.Returned?
  {
    !stage.frozen && (stage.key.None? || stage.age > ttl)
  }

  predicate TaskOk(ttl: nat, s: State, t: int)
    requires t in s.tasks
  {
    var task := s.tasks[t];
    && (task.stage.Holds() <==> s.lock == Some(t))
    && (task.stage.Waiting? ==> task.fetches == 0)
    && (task.stage.Holds() ==> task.fetches == 1)
    && task.fetches <= 1
    && (task.stage.Returned? && task.job.GetKey? && Wanting(ttl, task.stage) ==> task.fetches == 1)
  }

  /** The map is the whole of the last document installed, and of nothing else. */
  predicate KeysOk(s: State) {
    if s.log == [] then s.store.keys == map[] else Index(s.log[|s.log| - 1].doc) == Some(s.store.keys)
  }

  predicate Inv(ttl: nat, s: State) {
    && (forall t <- s.tasks :: TaskOk(ttl, s, t))
    && (s.lock.Some? ==> s.lock.value in s.tasks)
    && KeysOk(s) && s.store.fetchedAt <= s.now
  }

  lemma InvStep(ttl: nat, s: State, a: Action)
    requires Inv(ttl, s) && Enabled(s, a)
    ensures Inv(ttl, Step(ttl, s, a))
  {
    var s' := Step(ttl, s, a);
    forall t <- s'.tasks ensures TaskOk(ttl, s', t) {
      if t in s.tasks {
        assert TaskOk(ttl, s, t);
      }
      if !a.Tick? && !a.PinKeys? && a.t in s.tasks {
        assert TaskOk(ttl, s, a.t);
      }
    }
  }

  lemma {:induction false} InvRun(ttl: nat, s: State, run: seq<Action>)
    requires Inv(ttl, s) && Possible(ttl, s, run)
    ensures Inv(ttl, Run(ttl, s, run)) && Run(ttl, s, run).now >= s.now
    decreases |run|
  {
    if run != [] {
      InvStep(ttl, s, run[0]);
      InvRun(ttl, Step(ttl, s, run[0]), run[1..]);
    }
  }

  /** In every run at most one fetch is in flight, and whoever makes it holds the lock. */
  lemma OneFetchInFlight(ttl: nat, run: seq<Action>, t: int, u: int)
    requires Possible(ttl, START, run)
    requires InStage(Run(ttl, START, run), t, Fetching) && InStage(Run(ttl, START, run), u, Fetching)
    ensures t == u && Run(ttl, START, run).lock == Some(t)
  {
    InvRun(ttl, START, run);
    assert TaskOk(ttl, Run(ttl, START, run), t) && TaskOk(ttl, Run(ttl, START, run), u);
  }

  /** In every run the key map is the whole of the latest successful fetch (or pin), never a mix of two; and
      no failed fetch, unparsable document or cancellation changes it. */
  lemma WholeLatestFetch(ttl: nat, run: seq<Action>, a: Action)
    requires Possible(ttl, START, run) && Enabled(Run(ttl, START, run), a)
    ensures var s := Run(ttl, START, run);
            && KeysOk(s)
            && (Step(ttl, s, a).store == s.store || ((a.Arrive? || a.PinKeys?) && Index(a.doc).Some?))
  {
    InvRun(ttl, START, run);
  }

  /** Each call fetches at most once; and one that made no fetch of its own answered a key, from a pinned set or
      from one no older than the TTL at that moment. */
  lemma EachCallFetchesAtMostOnce(ttl: nat, run: seq<Action>, t: int)
    requires Possible(ttl, START, run) && t in Run(ttl, START, run).tasks
    ensures var task := Run(ttl, START, run).tasks[t];
            && task.fetches <= 1
            && (task.stage.Returned? && task.job.GetKey? && task.fetches == 0 && !task.stage.frozen ==>
                  task.stage.key.Some? && task.stage.age <= ttl)
  {
    InvRun(ttl, START, run);
    assert TaskOk(ttl, Run(ttl, START, run), t);
  }

  /** What a call's record says: it answered what the map held under its id when it returned, and how long before
      that the map had been fetched. */
  lemma ReturnedIsTrue(ttl: nat, s: State, a: Action, t: int)
    requires Enabled(s, a) && t in Step(ttl, s, a).tasks
    requires t !in s.tasks || s.tasks[t] != Step(ttl, s, a).tasks[t]
    ensures var s', task := Step(ttl, s, a), Step(ttl, s, a).tasks[t];
            task.stage.Returned? && task.job.GetKey? ==>
              && task.stage.key == (if task.job.kid in s'.store.keys then Some(s'.store.keys[task.job.kid]) else None)
              && task.stage.age == s'.now - s'.store.fetchedAt && task.stage.frozen == s'.store.pinned
  {
  }

  /** An uncontended call asks the endpoint exactly when the store is not pinned and either does not hold the key
      or fetched its set more than the TTL ago; it then holds the endpoint's whole set, if one came and parsed,
      and what it held before if not; and it answers from what it then holds. */
  lemma LookedUpExactly(s: Store, ttl: nat, kid: string, now: int, reply: Option<Doc>, later: int)
    ensures var (after, key, fetched) := LookUp(s, ttl, kid, now, reply, later);
            && (!fetched <==> s.pinned || (kid in s.keys && now - s.fetchedAt <= ttl))
            && (if fetched && reply.Some? && Index(reply.value).Some?
                then after == Store(Index(reply.value).value, later, false) else after == s)
            && (key.Some? <==> kid in after.keys) && (key.Some? ==> key.value == after.keys[kid])
  {
  }

  // ---- waiting behind a refresh --------------------------------------------------------------

  /** Nothing installed by this run lacks the key. */
  predicate Carried(run: seq<Action>, kid: string) {
    forall a <- run :: (a.Arrive? || a.PinKeys?) && Index(a.doc).Some? ==> kid in Index(a.doc).value
  }

  predicate Served(ttl: nat, s: State, w: int, kid: string, fetches: nat) {
    && w in s.tasks && s.tasks[w].job == GetKey(kid) && s.tasks[w].fetches == fetches
    && (s.tasks[w].stage == Waiting || s.tasks[w].stage == Cancelled
        || (s.tasks[w].stage.Returned? && s.tasks[w].stage.key.Some?
            && (s.tasks[w].stage.frozen || s.tasks[w].stage.age <= ttl)))
  }

  lemma ServedStep(ttl: nat, s: State, a: Action, w: int, kid: string, fetches: nat)
    requires Inv(ttl, s) && Enabled(s, a) && Carried([a], kid)
    requires Served(ttl, s, w, kid, fetches) && s.store.Answers(kid, s.now, ttl)
    ensures Served(ttl, Step(ttl, s, a), w, kid, fetches)
    ensures kid in Step(ttl, s, a).store.keys
    ensures s.store.fetchedAt <= Step(ttl, s, a).store.fetchedAt
    ensures s.store.pinned ==> Step(ttl, s, a).store.pinned
  {
  }

  /** A caller waiting for a key that a refresh has installed returns it without a fetch of its own: in every
      run that ends within the TTL of that refresh, whatever the other tasks do, and as long as no later
      document lacks the key. */
  lemma {:induction false} WaitersDoNotFetch(ttl: nat, s: State, run: seq<Action>, w: int, kid: string)
    requires Inv(ttl, s) && Possible(ttl, s, run) && Carried(run, kid)
    requires w in s.tasks && Served(ttl, s, w, kid, s.tasks[w].fetches) && kid in s.store.keys
    requires s.store.pinned || Run(ttl, s, run).now <= s.store.fetchedAt + ttl
    ensures var after := Run(ttl, s, run);
            w in after.tasks && Served(ttl, after, w, kid, s.tasks[w].fetches)
    decreases |run|
  {
    if run != [] {
      var a, s' := run[0], Step(ttl, s, run[0]);
      InvRun(ttl, s, run);
      InvStep(ttl, s, a);
      assert a in run;
      ServedStep(ttl, s, a, w, kid, s.tasks[w].fetches);
      assert Carried(run[1..], kid) by { assert forall b <- run[1..] :: b in run; }
      WaitersDoNotFetch(ttl, s', run[1..], w, kid);
    }
  }

  // ---- pinning -------------------------------------------------------------------------------

  predicate NoPin(run: seq<Action>) {
    forall a <- run :: !a.PinKeys?
  }

  predicate Idle(s: State) {
    forall t <- s.tasks :: !s.tasks[t].stage.Fetching?
  }

  /** Pinned while no fetch is in flight: the keys stay, and nobody ever fetches again. */
  lemma {:induction false} PinHolds(ttl: nat, s: State, run: seq<Action>)
    requires s.store.pinned && Idle(s) && Possible(ttl, s, run) && NoPin(run)
    ensures Run(ttl, s, run).store == s.store && Idle(Run(ttl, s, run))
    decreases |run|
  {
    if run != [] {
      var s' := Step(ttl, s, run[0]);
      assert run[0] in run;
      assert Idle(s');
      assert NoPin(run[1..]) by { assert forall b <- run[1..] :: b in run; }
      PinHolds(ttl, s', run[1..]);
    }
  }

  /** A store pinned while no fetch is in flight serves, in every run from there, exactly the keys pinned: it never
      fetches again, whatever the clock says. Keys that do not parse pin nothing. */
  lemma PinnedForGood(ttl: nat, s: State, doc: Doc, run: seq<Action>)
    requires Idle(s)
    requires Possible(ttl, Step(ttl, s, Action.PinKeys(doc)), run) && NoPin(run)
    ensures Index(doc).Some? ==>
              Run(ttl, Step(ttl, s, Action.PinKeys(doc)), run).store == Store(Index(doc).value, s.now, true)
    ensures Index(doc).None? ==> Step(ttl, s, Action.PinKeys(doc)) == s
  {
    if Index(doc).Some? {
      PinHolds(ttl, Step(ttl, s, Action.PinKeys(doc)), run);
    }
  }

  /** pin_keys takes no lock: the keys it pins stay, in every run, exactly when no fetch was in flight. */
  lemma PinHoldsExactly(ttl: nat, s: State)
    requires s.store.pinned
    ensures (forall run :: Possible(ttl, s, run) && NoPin(run) ==> Run(ttl, s, run).store.keys == s.store.keys)
            <==> Idle(s)
  {
    if Idle(s) {
      forall run | Possible(ttl, s, run) && NoPin(run) ensures Run(ttl, s, run).store.keys == s.store.keys {
        PinHolds(ttl, s, run);
      }
    } else {
      var t :| t in s.tasks && s.tasks[t].stage.Fetching?;
      var run := PinOverwritten(ttl, s, t);
    }
  }

  /** A refresh already awaiting its fetch overwrites what was pinned. */
  lemma PinOverwritten(ttl: nat, s: State, t: int) returns (run: seq<Action>)
    requires s.store.pinned && InStage(s, t, Fetching)
    ensures Possible(ttl, s, run) && NoPin(run) && Run(ttl, s, run).store.pinned
    ensures Run(ttl, s, run).store.keys != s.store.keys
  {
    var doc: Doc := if s.store.keys == map[] then [Jwk(Some("k"), Some("K"))] else [];
    assert s.store.keys == map[] ==> Index(doc) == Some(map["k" := "K"]) && "k" in map["k" := "K"] by {
      assert Index([]) == Some(map[]);
      assert [Jwk(Some("k"), Some("K"))][..0] == [];
    }
    run := [Arrive(t, doc)];
    assert run[1..] == [];
    assert Run(ttl, s, run) == Run(ttl, Step(ttl, s, run[0]), []);
  }
}
