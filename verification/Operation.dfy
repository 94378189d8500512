/** Per-operation step-up (src/falcon_auth/assurance/operation.py and verify_operation_for in
    src/falcon_auth/adapters/hooks.py): the checks, and the consume-before-execute protocol run by any
    number of handlers against auth's challenge store and its idempotency replay, over a network that
    loses, delays and repeats messages. */
module Operations {
  import opened Wrappers
  import RawBody

  type Bytes = RawBody.Bytes

  /** A challenge is named by its session and operation id: ids are unique only within a session. */
  datatype ChallengeId = ChallengeId(sessionRef: string, operationId: string)

  /** What auth answers a verify call. Verified is its 200; Miss its one code for "not spendable". */
  datatype Reply = Verified(purpose: string, bodyHash: Option<string>) | Miss | Fault

  datatype Verification =
    | Authorised
    | ChallengeMiss
    | PurposeMismatch
    | BodyMismatch
    | Unavailable

  /** A bound hash must be matched by a computed one; having computed none is a refusal, not a pass. */
  function CheckBody(bound: Option<string>, computed: Option<string>): bool {
    bound.None? || computed == bound
  }

  function VerifyOperation(reply: Reply, expectedPurpose: string, computed: Option<string>): Verification {
    match reply
    case Miss => ChallengeMiss
    case Fault => Unavailable
    case Verified(purpose, bodyHash) =>
      if purpose != expectedPurpose then PurposeMismatch
      else if !CheckBody(bodyHash, computed) then BodyMismatch
      else Authorised
  }

  /** One request at a handler. `raw` is what the raw-body wrapper kept of the body, if it ran. */
  datatype Attempt = Attempt(sessionRef: string, header: Option<string>, expectedPurpose: string,
                             bindBody: bool, mediaHash: Option<string>, raw: Option<Bytes>, body: Bytes)
  {
    /** The wrapper keeps the exact bytes or nothing. */
    predicate Faithful() {
      raw.Some? ==> raw.value == body
    }

    function Id(): ChallengeId
      requires header.Some?
    {
      ChallengeId(sessionRef, header.value)
    }
  }

  datatype Prepared = Ready(computed: Option<string>) | NoOperationId | BothHashes | NoRawBody

  /** verify_operation_for, up to the verify call. */
  function Prepare(hash: Bytes -> string, a: Attempt): Prepared {
    if a.header.None? || a.header.value == "" then NoOperationId
    else if a.bindBody && a.mediaHash.Some? then BothHashes
    else if a.bindBody then
      if a.raw.None? then NoRawBody else Ready(Some(hash(a.raw.value)))
    else Ready(a.mediaHash)
  }

  /** What each answer of auth becomes: authorised only on a 200 for the route's own purpose that is unbound or
      bound to the very hash computed; a bound challenge with no hash computed is a body mismatch, not a pass;
      a lookup that failed is never a denial. */
  lemma VerifiedExactly(reply: Reply, expectedPurpose: string, computed: Option<string>)
    ensures var r := VerifyOperation(reply, expectedPurpose, computed);
            var ours := reply.Verified? && reply.purpose == expectedPurpose;
            && (r == Authorised <==>
                  ours && (reply.bodyHash.None? || (computed.Some? && computed.value == reply.bodyHash.value)))
            && (r == BodyMismatch <==>
                  ours && reply.bodyHash.Some? && (computed.None? || computed.value != reply.bodyHash.value))
            && (r == PurposeMismatch <==> reply.Verified? && reply.purpose != expectedPurpose)
            && (r == ChallengeMiss <==> reply == Miss)
            && (r == Unavailable <==> reply == Fault)
  {
  }

  /** When a handler gets as far as asking auth, and with which hash: an operation id was sent, the route does not
      bind the body in two ways, and a route that binds the raw body has the raw bytes. */
  lemma PreparedExactly(hash: Bytes -> string, a: Attempt)
    ensures var r := Prepare(hash, a);
            var named := exists id :: a.header == Some(id) && id != "";
            && (r.Ready? <==> named && (a.bindBody ==> a.mediaHash.None? && a.raw.Some?))
            && (r.Ready? ==> r.computed == if a.bindBody then Some(hash(a.raw.value)) else a.mediaHash)
            && (r == NoOperationId <==> !named)
            && (r == NoRawBody <==> named && a.bindBody && a.mediaHash.None? && a.raw.None?)
  {
    assert a.header.Some? ==> a.header == Some(a.header.value);
  }

  // ---- the protocol --------------------------------------------------------------------------

  datatype Status = Raised | Passed | Lapsed | Consumed

  datatype Challenge = Challenge(purpose: string, bodyHash: Option<string>, status: Status)

  datatype Stage =
    | Waiting                 // the verify call is out
    | Cleared(reply: Reply)   // verify_operation returned on this answer: the one point the write is reached from
    | Over                    // written, refused, timed out or crashed

  datatype Handler = Handler(attempt: Attempt, computed: Option<string>, stage: Stage)

  datatype Write = Write(handler: int, id: ChallengeId, purpose: string, computed: Option<string>, body: Bytes)

  /** hash: the body hash; keyOf: the Idempotency-Key of the call a handler makes. */
  datatype Setup = Setup(hash: Bytes -> string, keyOf: int -> string)

  /** The package's keys come from the CSPRNG, one per call: no two handlers share one. */
  ghost predicate FreshKeys(keyOf: int -> string) {
    forall i, j | i != j :: keyOf(i) != keyOf(j)
  }

  datatype State = State(
    challenges: map<ChallengeId, Challenge>,
    replays: map<string, Reply>,          // auth's stored answers, by Idempotency-Key
    handlers: map<int, Handler>,
    replies: map<int, Reply>,             // answers auth has sent a handler
    writes: seq<Write>,
    spentUnder: map<ChallengeId, string>) // which key consumed a challenge: history only

  datatype Action =
    | Raise(id: ChallengeId, purpose: string, bodyHash: Option<string>)
    | Pass(id: ChallengeId)
    | Lapse(id: ChallengeId)
    | Expire(key: string)                 // auth forgets a stored answer
    | Begin(h: int, attempt: Attempt)
    | Deliver(h: int)                     // the call reaches auth: once, again, or after a timeout
    | Receive(h: int)
    | Abandon(h: int)                     // timeout, crash, or a lost reply
    | Execute(h: int)

  predicate Enabled(cfg: Setup, s: State, a: Action) {
    match a
    case Raise(id, _, _) => id !in s.challenges
    case Pass(id) => id in s.challenges && s.challenges[id].status == Raised
    case Lapse(id) => id in s.challenges && s.challenges[id].status in {Raised, Passed}
    case Expire(_) => true
    case Begin(h, attempt) => h !in s.handlers && attempt.Faithful()
    case Deliver(h) => h in s.handlers && Prepare(cfg.hash, s.handlers[h].attempt).Ready?
    case Receive(h) => h in s.handlers && s.handlers[h].stage == Waiting && h in s.replies
    case Abandon(h) => h in s.handlers
    case Execute(h) => h in s.handlers && s.handlers[h].stage.Cleared?
  }

  function Spend(s: State, id: ChallengeId, key: string): (State, Reply) {
    if id in s.challenges && s.challenges[id].status == Passed then
      var c := s.challenges[id];
      (s.(challenges := s.challenges[id := c.(status := Consumed)], spentUnder := s.spentUnder[id := key]),
       Verified(c.purpose, c.bodyHash))
    else (s, Miss)
  }

  function Step(cfg: Setup, s: State, a: Action): State
    requires Enabled(cfg, s, a)
  {
    match a
    case Raise(id, purpose, bodyHash) => s.(challenges := s.challenges[id := Challenge(purpose, bodyHash, Raised)])
    case Pass(id) => s.(challenges := s.challenges[id := s.challenges[id].(status := Passed)])
    case Lapse(id) => s.(challenges := s.challenges[id := s.challenges[id].(status := Lapsed)])
    case Expire(key) => s.(replays := s.replays - {key})
    case Begin(h, attempt) =>
      var prepared := Prepare(cfg.hash, attempt);
      s.(handlers := s.handlers[h := if prepared.Ready? then Handler(attempt, prepared.computed, Waiting)
                                     else Handler(attempt, None, Over)])
    case Deliver(h) =>
      var key := cfg.keyOf(h);
      if key in s.replays then s.(replies := s.replies[h := s.replays[key]])
      else
        var (s', reply) := Spend(s, s.handlers[h].attempt.Id(), key);
        s'.(replays := s'.replays[key := reply], replies := s'.replies[h := reply])
    case Receive(h) =>
      var hd := s.handlers[h];
      var verdict := VerifyOperation(s.replies[h], hd.attempt.expectedPurpose, hd.computed);
      s.(handlers := s.handlers[h := hd.(stage := if verdict.Authorised? then Cleared(s.replies[h]) else Over)])
    case Abandon(h) => s.(handlers := s.handlers[h := s.handlers[h].(stage := Over)])
    case Execute(h) =>
      var hd := s.handlers[h];
      s.(handlers := s.handlers[h := hd.(stage := Over)],
         writes := if hd.attempt.header.Some?
                   then s.writes + [Write(h, hd.attempt.Id(), hd.attempt.expectedPurpose, hd.computed, hd.attempt.body)]
                   else s.writes)
  }

  predicate Possible(cfg: Setup, s: State, run: seq<Action>)
    decreases |run|
  {
    run == [] || (Enabled(cfg, s, run[0]) && Possible(cfg, Step(cfg, s, run[0]), run[1..]))
  }

  function Run(cfg: Setup, s: State, run: seq<Action>): State
    requires Possible(cfg, s, run)
    decreases |run|
  {
    if run == [] then s else Run(cfg, Step(cfg, s, run[0]), run[1..])
  }

  const START := State(map[], map[], map[], map[], [], map[])

  // ---- what every run keeps ------------------------------------------------------------------

  /** This key consumed this challenge, and this is what auth said of it. */
  predicate Spent(s: State, id: ChallengeId, key: string, reply: Reply) {
    && id in s.challenges && s.challenges[id].status == Consumed
    && id in s.spentUnder && s.spentUnder[id] == key
    && reply == Verified(s.challenges[id].purpose, s.challenges[id].bodyHash)
  }

  /** A 200 to a handler is about the handler's own challenge, consumed under the handler's own key. */
  predicate ReplyOk(cfg: Setup, s: State, h: int, reply: Reply) {
    && h in s.handlers && Prepare(cfg.hash, s.handlers[h].attempt).Ready?
    && (reply.Verified? ==> Spent(s, s.handlers[h].attempt.Id(), cfg.keyOf(h), reply))
  }

  predicate HandlerOk(cfg: Setup, s: State, h: int)
    requires h in s.handlers
  {
    var hd := s.handlers[h];
    && hd.attempt.Faithful()
    && (hd.stage != Over ==> Prepare(cfg.hash, hd.attempt) == Ready(hd.computed))
    && (h in s.replies ==> ReplyOk(cfg, s, h, s.replies[h]))
    && (Prepare(cfg.hash, hd.attempt).Ready? && cfg.keyOf(h) in s.replays ==>
          ReplyOk(cfg, s, h, s.replays[cfg.keyOf(h)]))
    && (hd.stage.Cleared? ==>
          && ReplyOk(cfg, s, h, hd.stage.reply)
          && VerifyOperation(hd.stage.reply, hd.attempt.expectedPurpose, hd.computed).Authorised?)
  }

  /** A write is one handler's last act, on a challenge that handler's key consumed, for that challenge's
      purpose and -- if the challenge was bound -- with that challenge's body hash. */
  predicate WriteOk(cfg: Setup, s: State, w: Write) {
    && w.handler in s.handlers && s.handlers[w.handler].stage == Over
    && w.id in s.challenges && w.id in s.spentUnder && s.spentUnder[w.id] == cfg.keyOf(w.handler)
    && s.challenges[w.id].status == Consumed && w.purpose == s.challenges[w.id].purpose
    && (s.challenges[w.id].bodyHash.Some? ==> w.computed == s.challenges[w.id].bodyHash)
    && s.handlers[w.handler].attempt.body == w.body
    && (s.handlers[w.handler].attempt.bindBody ==> w.computed == Some(cfg.hash(w.body)))
  }

  /** A stored answer came to be at the call of some handler. */
  ghost predicate ReplayOk(cfg: Setup, s: State, key: string) {
    exists h :: h in s.handlers && cfg.keyOf(h) == key
  }

  ghost predicate Inv(cfg: Setup, s: State) {
    && (forall h <- s.handlers :: HandlerOk(cfg, s, h))
    && s.replies.Keys <= s.handlers.Keys
    && (forall key <- s.replays :: ReplayOk(cfg, s, key))
    && (forall w <- s.writes :: WriteOk(cfg, s, w))
    && (forall i, j :: 0 <= i < j < |s.writes| ==> s.writes[i].handler != s.writes[j].handler)
  }

  /** Handlers only move on, and a consumed challenge never changes again. */
  predicate Advances(s: State, s': State) {
    && (forall h <- s.handlers ::
          && h in s'.handlers && s'.handlers[h].attempt == s.handlers[h].attempt
          && (s.handlers[h].stage == Over ==> s'.handlers[h].stage == Over))
    && (forall id <- s.challenges | s.challenges[id].status == Consumed ::
          && id in s'.challenges && s'.challenges[id] == s.challenges[id]
          && (id in s.spentUnder ==> id in s'.spentUnder && s'.spentUnder[id] == s.spentUnder[id]))
  }

  lemma StepAdvances(cfg: Setup, s: State, a: Action)
    requires Enabled(cfg, s, a)
    ensures Advances(s, Step(cfg, s, a))
  {
  }

  /** What a step does not touch is kept: the handlers left alone, the stored answers, the writes. */
  lemma Kept(cfg: Setup, s: State, s': State, h: int)
    requires Inv(cfg, s) && Advances(s, s')
    requires s'.handlers - {h} == s.handlers - {h} && s'.replies - {h} == s.replies - {h}
    requires s'.replays - {cfg.keyOf(h)} == s.replays - {cfg.keyOf(h)}
    requires FreshKeys(cfg.keyOf) || s'.replays == s.replays
    ensures forall g <- s'.handlers | g != h :: HandlerOk(cfg, s', g)
    ensures forall key <- s'.replays | key != cfg.keyOf(h) :: ReplayOk(cfg, s', key)
    ensures forall w <- s.writes :: WriteOk(cfg, s', w)
  {
    forall g <- s'.handlers | g != h ensures HandlerOk(cfg, s', g) {
      assert g in s'.handlers - {h} && s'.handlers[g] == (s.handlers - {h})[g];
      assert HandlerOk(cfg, s, g);
      assert g in s'.replies - {h} <==> g in s.replies - {h};
      assert cfg.keyOf(g) in s'.replays - {cfg.keyOf(h)} <==> cfg.keyOf(g) in s.replays - {cfg.keyOf(h)};
      assert g in s'.replies ==> s'.replies[g] == (s.replies - {h})[g];
      assert cfg.keyOf(g) != cfg.keyOf(h) && cfg.keyOf(g) in s'.replays ==>
        s'.replays[cfg.keyOf(g)] == (s.replays - {cfg.keyOf(h)})[cfg.keyOf(g)];
    }
    forall key <- s'.replays | key != cfg.keyOf(h) ensures ReplayOk(cfg, s', key) {
      assert key in s'.replays - {cfg.keyOf(h)};
      assert ReplayOk(cfg, s, key);
      var g :| g in s.handlers && cfg.keyOf(g) == key;
      assert g in s'.handlers;
    }
    forall w <- s.writes ensures WriteOk(cfg, s', w) {
      assert WriteOk(cfg, s, w);
    }
  }

  lemma InvDeliver(cfg: Setup, s: State, h: int)
    requires Inv(cfg, s) && FreshKeys(cfg.keyOf) && Enabled(cfg, s, Deliver(h))
    ensures Inv(cfg, Step(cfg, s, Deliver(h)))
  {
    var s' := Step(cfg, s, Deliver(h));
    StepAdvances(cfg, s, Deliver(h));
    assert s'.replies - {h} == s.replies - {h};
    assert s'.replays - {cfg.keyOf(h)} == s.replays - {cfg.keyOf(h)};
    Kept(cfg, s, s', h);
    assert HandlerOk(cfg, s, h);
    assert HandlerOk(cfg, s', h);
    assert ReplayOk(cfg, s', cfg.keyOf(h)) by { assert h in s'.handlers; }
  }

  /** The challenges move outside the package's control; a consumed one is not touched. */
  lemma InvChallenges(cfg: Setup, s: State, a: Action)
    requires Inv(cfg, s) && FreshKeys(cfg.keyOf) && Enabled(cfg, s, a) && (a.Raise? || a.Pass? || a.Lapse?)
    ensures Inv(cfg, Step(cfg, s, a))
  {
  }

  /** Auth may forget an answer at any time: a later repeat of that call meets the consumed challenge. */
  lemma InvExpire(cfg: Setup, s: State, key: string)
    requires Inv(cfg, s)
    ensures Inv(cfg, Step(cfg, s, Expire(key)))
  {
    var s' := Step(cfg, s, Expire(key));
    forall h <- s'.handlers ensures HandlerOk(cfg, s', h) {
      assert HandlerOk(cfg, s, h);
    }
    forall k <- s'.replays ensures ReplayOk(cfg, s', k) {
      assert ReplayOk(cfg, s, k);
    }
    forall w <- s'.writes ensures WriteOk(cfg, s', w) {
      assert WriteOk(cfg, s, w);
    }
  }

  lemma InvHandler(cfg: Setup, s: State, a: Action)
    requires Inv(cfg, s) && FreshKeys(cfg.keyOf) && Enabled(cfg, s, a) && (a.Begin? || a.Receive? || a.Abandon?)
    ensures Inv(cfg, Step(cfg, s, a))
  {
    var s' := Step(cfg, s, a);
    StepAdvances(cfg, s, a);
    assert s'.handlers - {a.h} == s.handlers - {a.h};
    Kept(cfg, s, s', a.h);
    ReplaysKept(cfg, s, s');
    if a.Begin? {
      BeginIsFirst(cfg, s, a.h);
    } else {
      assert HandlerOk(cfg, s, a.h);
    }
    assert HandlerOk(cfg, s', a.h);
  }

  lemma ReplaysKept(cfg: Setup, s: State, s': State)
    requires Inv(cfg, s) && Advances(s, s') && s'.replays == s.replays
    ensures forall key <- s'.replays :: ReplayOk(cfg, s', key)
  {
  }

  lemma InvExecute(cfg: Setup, s: State, h: int)
    requires Inv(cfg, s) && FreshKeys(cfg.keyOf) && Enabled(cfg, s, Execute(h))
    ensures Inv(cfg, Step(cfg, s, Execute(h)))
  {
    var s' := Step(cfg, s, Execute(h));
    StepAdvances(cfg, s, Execute(h));
    assert s'.handlers - {h} == s.handlers - {h};
    Kept(cfg, s, s', h);
    ReplaysKept(cfg, s, s');
    assert HandlerOk(cfg, s, h);
    assert forall w <- s.writes :: WriteOk(cfg, s, w) && w.handler != h;
    assert WriteOk(cfg, s', s'.writes[|s.writes|]);
  }

  /** Auth has stored nothing yet under the key of a handler that has not begun. */
  lemma BeginIsFirst(cfg: Setup, s: State, h: int)
    requires Inv(cfg, s) && FreshKeys(cfg.keyOf) && h !in s.handlers
    ensures cfg.keyOf(h) !in s.replays && h !in s.replies
  {
  }

  lemma {:induction false} InvRun(cfg: Setup, s: State, run: seq<Action>)
    requires FreshKeys(cfg.keyOf) && Inv(cfg, s) && Possible(cfg, s, run)
    ensures Inv(cfg, Run(cfg, s, run))
    decreases |run|
  {
    if run != [] {
      if run[0].Deliver? {
        InvDeliver(cfg, s, run[0].h);
      } else if run[0].Raise? || run[0].Pass? || run[0].Lapse? {
        InvChallenges(cfg, s, run[0]);
      } else if run[0].Expire? {
        InvExpire(cfg, s, run[0].key);
      } else if run[0].Execute? {
        InvExecute(cfg, s, run[0].h);
      } else {
        InvHandler(cfg, s, run[0]);
      }
      InvRun(cfg, Step(cfg, s, run[0]), run[1..]);
    }
  }

  /** With a fresh key per call, each challenge authorises at most one write, in every run. */
  lemma AtMostOneWrite(cfg: Setup, run: seq<Action>, i: nat, j: nat)
    requires FreshKeys(cfg.keyOf) && Possible(cfg, START, run)
    requires i < |Run(cfg, START, run).writes| && j < |Run(cfg, START, run).writes|
    requires Run(cfg, START, run).writes[i].id == Run(cfg, START, run).writes[j].id
    ensures i == j
  {
    InvRun(cfg, START, run);
    var s := Run(cfg, START, run);
    assert WriteOk(cfg, s, s.writes[i]) && WriteOk(cfg, s, s.writes[j]);
    assert s.writes[i].handler == s.writes[j].handler;
  }

  /** Every write is backed by a consumed challenge of its own purpose; if the challenge was bound to a
      body, a hash was computed and is the bound one -- and, with the package's own hashing, it is the hash of
      the very bytes written, so with an injective hash the bytes are the ones the challenge was raised for. */
  lemma WriteIsTheAuthorisedAct(cfg: Setup, run: seq<Action>, w: Write)
    requires FreshKeys(cfg.keyOf) && Possible(cfg, START, run) && w in Run(cfg, START, run).writes
    ensures var s := Run(cfg, START, run);
            && w.id in s.challenges && s.challenges[w.id].status == Consumed
            && w.purpose == s.challenges[w.id].purpose
            && (s.challenges[w.id].bodyHash.Some? ==> w.computed == s.challenges[w.id].bodyHash)
            && w.handler in s.handlers
            && (s.challenges[w.id].bodyHash.Some? && s.handlers[w.handler].attempt.bindBody ==>
                  && cfg.hash(w.body) == s.challenges[w.id].bodyHash.value
                  && forall raised: Bytes | (forall a, b :: cfg.hash(a) == cfg.hash(b) ==> a == b)
                                            && s.challenges[w.id].bodyHash == Some(cfg.hash(raised)) ::
                       w.body == raised)
  {
    InvRun(cfg, START, run);
  }

  lemma RunCons(cfg: Setup, s: State, a: Action, rest: seq<Action>)
    requires Enabled(cfg, s, a) && Possible(cfg, Step(cfg, s, a), rest)
    ensures Possible(cfg, s, [a] + rest) && Run(cfg, s, [a] + rest) == Run(cfg, Step(cfg, s, a), rest)
  {
  }

  /** A handler whose call auth answers with a 200 for its purpose, unbound or bound to the very hash the
      handler computed, goes on to write. */
  lemma AnsweredHandlerWrites(cfg: Setup, s: State, h: int, attempt: Attempt, computed: Option<string>,
                              bound: Option<string>)
    returns (run: seq<Action>)
    requires h !in s.handlers && attempt.Faithful() && Prepare(cfg.hash, attempt) == Ready(computed)
    requires bound.None? || bound == computed
    requires var key := cfg.keyOf(h);
             if key in s.replays then s.replays[key] == Verified(attempt.expectedPurpose, bound)
             else attempt.Id() in s.challenges
                  && s.challenges[attempt.Id()] == Challenge(attempt.expectedPurpose, bound, Passed)
    ensures Possible(cfg, s, run)
    ensures var s' := Run(cfg, s, run);
            && s'.writes == s.writes + [Write(h, attempt.Id(), attempt.expectedPurpose, computed, attempt.body)]
            && cfg.keyOf(h) in s'.replays && s'.replays[cfg.keyOf(h)] == Verified(attempt.expectedPurpose, bound)
            && s'.handlers.Keys == s.handlers.Keys + {h}
  {
    var s1 := Step(cfg, s, Begin(h, attempt));
    var s2 := Step(cfg, s1, Deliver(h));
    assert s2.replies[h] == Verified(attempt.expectedPurpose, bound);
    var s3 := Step(cfg, s2, Receive(h));
    RunCons(cfg, s3, Execute(h), []);
    RunCons(cfg, s2, Receive(h), [Execute(h)] + []);
    RunCons(cfg, s1, Deliver(h), [Receive(h)] + ([Execute(h)] + []));
    RunCons(cfg, s, Begin(h, attempt), [Deliver(h)] + ([Receive(h)] + ([Execute(h)] + [])));
    run := [Begin(h, attempt)] + ([Deliver(h)] + ([Receive(h)] + ([Execute(h)] + [])));
  }

  /** Why the key must be fresh: if two handlers ever share one, auth replays its stored 200 to the second
      and one challenge authorises two writes. With AtMostOneWrite: single use holds exactly for fresh keys. */
  lemma SharedKeyWritesTwice(cfg: Setup, i: int, j: int) returns (run: seq<Action>)
    requires i != j && cfg.keyOf(i) == cfg.keyOf(j)
    ensures Possible(cfg, START, run)
    ensures var writes := Run(cfg, START, run).writes; |writes| == 2 && writes[0].id == writes[1].id
  {
    var attempt := Attempt("session", Some("op"), "transfer", false, None, None, []);
    assert attempt.header.value != "";
    var s0 := START;
    var s1 := Step(cfg, s0, Raise(attempt.Id(), "transfer", None));
    var s2 := Step(cfg, s1, Pass(attempt.Id()));
    var first := AnsweredHandlerWrites(cfg, s2, i, attempt, None, None);
    var s3 := Run(cfg, s2, first);
    var second := AnsweredHandlerWrites(cfg, s3, j, attempt, None, None);
    RunAppend(cfg, s2, first, second);
    RunCons(cfg, s1, Pass(attempt.Id()), first + second);
    RunCons(cfg, s0, Raise(attempt.Id(), "transfer", None), [Pass(attempt.Id())] + (first + second));
    run := [Raise(attempt.Id(), "transfer", None)] + ([Pass(attempt.Id())] + (first + second));
  }

  lemma {:induction false} RunAppend(cfg: Setup, s: State, a: seq<Action>, b: seq<Action>)
    requires Possible(cfg, s, a) && Possible(cfg, Run(cfg, s, a), b)
    ensures Possible(cfg, s, a + b) && Run(cfg, s, a + b) == Run(cfg, Run(cfg, s, a), b)
    decreases |a|
  {
    if a == [] {
      assert a + b == b;
    } else {
      RunAppend(cfg, Step(cfg, s, a[0]), a[1..], b);
      assert (a + b)[1..] == a[1..] + b;
    }
  }
}
