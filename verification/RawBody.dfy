/** The exact bytes of a request body (src/falcon_auth/adapters/rawbody.py): drained once at the edge, kept,
    and replayed to the app unchanged. */
module RawBody {
  import opened Wrappers

  type Bytes = seq<bv8>

  datatype Message = Request(body: Bytes, more: bool) | Disconnect

  datatype Outcome =
    | PassedOn                    // not http: the app runs on the channel itself
    | TooLarge                    // 413, and the app does not run
    | Dropped                     // the client went away: the app sees that
    | Delivered(body: Bytes)
    | StillWaiting(kept: Bytes)   // the client has not sent the rest

  predicate Fits(size: nat, maxBytes: Option<nat>) {
    maxBytes.Some? ==> size <= maxBytes.value
  }

  /** The drain, from what is kept so far: its outcome and how many messages it takes. */
  function Drain(kept: Bytes, msgs: seq<Message>, maxBytes: Option<nat>): (Outcome, nat)
    decreases |msgs|
  {
    if msgs == [] then (StillWaiting(kept), 0)
    else if msgs[0].Disconnect? then (Dropped, 1)
    else if !Fits(|kept| + |msgs[0].body|, maxBytes) then (TooLarge, 1)
    else if !msgs[0].more then (Delivered(kept + msgs[0].body), 1)
    else
      var rest := Drain(kept + msgs[0].body, msgs[1..], maxBytes);
      (rest.0, 1 + rest.1)
  }

  // ---- the wrapper ---------------------------------------------------------------------------

  class Channel {
    var pending: seq<Message>

    constructor (pending: seq<Message>)
      ensures this.pending == pending
    {
      this.pending := pending;
    }

    method Receive() returns (m: Option<Message>)
      modifies this
      ensures old(pending) == [] ==> m == None && pending == []
      ensures old(pending) != [] ==> m == Some(old(pending)[0]) && pending == old(pending)[1..]
    {
      if pending == [] {
        return None;
      }
      m := Some(pending[0]);
      pending := pending[1..];
    }
  }

  /** What the app calls to receive: the replayed message once, then the channel. */
  class Replay {
    const first: Message
    const upstream: Channel
    var sent: bool

    constructor (first: Message, upstream: Channel)
      ensures this.first == first && this.upstream == upstream && !sent
    {
      this.first, this.upstream, sent := first, upstream, false;
    }

    /** Everything the app has yet to receive. */
    function Ahead(): seq<Message>
      reads this, upstream
    {
      (if sent then [] else [first]) + upstream.pending
    }

    method Receive() returns (m: Option<Message>)
      modifies this, upstream
      ensures old(Ahead()) == [] ==> m == None && Ahead() == []
      ensures old(Ahead()) != [] ==> m == Some(old(Ahead())[0]) && Ahead() == old(Ahead())[1..]
    {
      if !sent {
        sent := true;
        return Some(first);
      }
      m := upstream.Receive();
    }
  }

  class Scope {
    const http: bool
    var raw: Option<Bytes>

    constructor (http: bool)
      ensures this.http == http && raw == None
    {
      this.http, raw := http, None;
    }

    /** raw_body(): what the wrapper kept, if it ran. */
    function RawBody(): Option<Bytes>
      reads this
    {
      raw
    }
  }

  /** The wrapper's call, up to where it hands over to the app: what the app will receive, if it runs. */
  method Call(scope: Scope, channel: Channel, maxBytes: Option<nat>) returns (outcome: Outcome, app: Option<Replay>)
    modifies scope, channel
    ensures !scope.http ==>
              outcome == PassedOn && channel.pending == old(channel.pending) && scope.raw == old(scope.raw)
    ensures scope.http ==>
              && (outcome, |old(channel.pending)| - |channel.pending|) == Drain([], old(channel.pending), maxBytes)
              && channel.pending == old(channel.pending)[|old(channel.pending)| - |channel.pending|..]
              && scope.raw == (if outcome.Delivered? then Some(outcome.body) else old(scope.raw))
    ensures app.Some? <==> outcome.Delivered? || outcome.Dropped?
    ensures app.Some? ==> fresh(app.value)
    ensures outcome.Delivered? ==> app.value.Ahead() == [Request(outcome.body, false)] + channel.pending
    ensures outcome.Dropped? ==> app.value.Ahead() == [Disconnect] + channel.pending
  {
    app := None;
    if !scope.http {
      return PassedOn, None;
    }
    outcome := DrainChannel(channel, maxBytes);
    if outcome.Dropped? {
      var replay := new Replay(Disconnect, channel);
      return outcome, Some(replay);
    }
    if outcome.Delivered? {
      scope.raw := Some(outcome.body);
      var replay := new Replay(Request(outcome.body, false), channel);
      return outcome, Some(replay);
    }
  }

  function Join(chunks: seq<Bytes>): Bytes {
    if chunks == [] then [] else Join(chunks[..|chunks| - 1]) + chunks[|chunks| - 1]
  }

  /** The loop. What it holds never exceeds the limit. */
  method DrainChannel(channel: Channel, maxBytes: Option<nat>) returns (outcome: Outcome)
    modifies channel
    ensures (outcome, |old(channel.pending)| - |channel.pending|) == Drain([], old(channel.pending), maxBytes)
    ensures channel.pending == old(channel.pending)[|old(channel.pending)| - |channel.pending|..]
  {
    var chunks: seq<Bytes> := [];
    var size := 0;
    ghost var msgs := channel.pending;
    ghost var taken := 0;
    while true
      invariant 0 <= taken <= |msgs| && channel.pending == msgs[taken..]
      invariant size == |Join(chunks)| && Fits(size, maxBytes)
      invariant Drain([], msgs, maxBytes).0 == Drain(Join(chunks), msgs[taken..], maxBytes).0
      invariant Drain([], msgs, maxBytes).1 == taken + Drain(Join(chunks), msgs[taken..], maxBytes).1
      decreases |channel.pending|
    {
      var message := channel.Receive();
      if message.None? {
        return StillWaiting(Join(chunks));
      }
      taken := taken + 1;
      if message.value.Disconnect? {
        return Dropped;
      }
      var chunk := message.value.body;
      size := size + |chunk|;
      if maxBytes.Some? && size > maxBytes.value {
        return TooLarge;
      }
      assert (chunks + [chunk])[..|chunks|] == chunks;
      chunks := chunks + [chunk];
      if !message.value.more {
        return Delivered(Join(chunks));
      }
    }
  }

  // ---- what the drain means ------------------------------------------------------------------

  /** The bytes of the first n messages. */
  function Received(msgs: seq<Message>, n: nat): Bytes
    requires n <= |msgs| && forall i | 0 <= i < n :: msgs[i].Request?
  {
    if n == 0 then [] else Received(msgs, n - 1) + msgs[n - 1].body
  }

  /** The first n messages all promise more. */
  predicate Continues(msgs: seq<Message>, n: int) {
    0 <= n <= |msgs| && forall i | 0 <= i < n :: msgs[i].Request? && msgs[i].more
  }

  predicate Overflows(msgs: seq<Message>, maxBytes: Option<nat>, n: int) {
    && n < |msgs| && Continues(msgs, n) && msgs[n].Request?
    && maxBytes.Some? && |Received(msgs, n + 1)| > maxBytes.value
  }

  predicate Completes(msgs: seq<Message>, maxBytes: Option<nat>, n: int, body: Bytes) {
    && n < |msgs| && Continues(msgs, n) && msgs[n].Request? && !msgs[n].more
    && body == Received(msgs, n + 1) && (maxBytes.Some? ==> |body| <= maxBytes.value)
  }

  predicate Leaves(msgs: seq<Message>, maxBytes: Option<nat>, n: int) {
    && n < |msgs| && Continues(msgs, n) && msgs[n].Disconnect?
    && (maxBytes.Some? ==> |Received(msgs, n)| <= maxBytes.value)
  }

  /** The drain having read n messages that promised more, all within the limit. */
  predicate Reached(msgs: seq<Message>, maxBytes: Option<nat>, n: nat) {
    && Continues(msgs, n)
    && Fits(|Received(msgs, n)|, maxBytes)
    && Drain([], msgs, maxBytes).0 == Drain(Received(msgs, n), msgs[n..], maxBytes).0
    && Drain([], msgs, maxBytes).1 == n + Drain(Received(msgs, n), msgs[n..], maxBytes).1
  }

  lemma {:induction false} ReceivedGrows(msgs: seq<Message>, i: nat, n: nat)
    requires i <= n <= |msgs| && forall k | 0 <= k < n :: msgs[k].Request?
    ensures |Received(msgs, i)| <= |Received(msgs, n)|
    decreases n - i
  {
    if i < n {
      ReceivedGrows(msgs, i, n - 1);
    }
  }

  lemma {:induction false} Reaches(msgs: seq<Message>, maxBytes: Option<nat>, n: nat)
    requires Continues(msgs, n) && Fits(|Received(msgs, n)|, maxBytes)
    ensures Reached(msgs, maxBytes, n)
  {
    if n > 0 {
      ReceivedGrows(msgs, n - 1, n);
      Reaches(msgs, maxBytes, n - 1);
      assert msgs[n - 1..][1..] == msgs[n..];
    } else {
      assert msgs[0..] == msgs;
    }
  }

  /** Where the drain stops: after n messages that promised more and one that ends it, or at their end. */
  lemma {:induction false} Stops(msgs: seq<Message>, maxBytes: Option<nat>, from: nat) returns (n: nat)
    requires Reached(msgs, maxBytes, from)
    ensures Reached(msgs, maxBytes, n)
    ensures n == |msgs| || msgs[n].Disconnect? || !msgs[n].more || !Fits(|Received(msgs, n) + msgs[n].body|, maxBytes)
    decreases |msgs| - from
  {
    if from == |msgs| || msgs[from].Disconnect? || !msgs[from].more
       || !Fits(|Received(msgs, from) + msgs[from].body|, maxBytes)
    {
      n := from;
    } else {
      Reaches(msgs, maxBytes, from + 1);
      n := Stops(msgs, maxBytes, from + 1);
    }
  }

  /** 413 exactly when some received prefix exceeds the limit; the app is given a body exactly when the last
      chunk arrived with the whole within the limit, and it is all of the bytes in order; it is told of a
      disconnect exactly when one arrives before either. */
  lemma DrainExact(msgs: seq<Message>, maxBytes: Option<nat>, body: Bytes)
    ensures var r := Drain([], msgs, maxBytes).0;
            && (r == TooLarge <==> exists n :: Overflows(msgs, maxBytes, n))
            && (r == Delivered(body) <==> exists n :: Completes(msgs, maxBytes, n, body))
            && (r == Dropped <==> exists n :: Leaves(msgs, maxBytes, n))
  {
    Reaches(msgs, maxBytes, 0);
    var n := Stops(msgs, maxBytes, 0);
    StopDecides(msgs, maxBytes, n);
    if k :| Overflows(msgs, maxBytes, k) {
      OverflowRefused(msgs, maxBytes, k);
    }
    if k :| Completes(msgs, maxBytes, k, body) {
      CompleteDelivered(msgs, maxBytes, k, body);
    }
    if k :| Leaves(msgs, maxBytes, k) {
      LeaverDropped(msgs, maxBytes, k);
    }
  }

  lemma CompleteDelivered(msgs: seq<Message>, maxBytes: Option<nat>, n: int, body: Bytes)
    requires Completes(msgs, maxBytes, n, body)
    ensures Drain([], msgs, maxBytes).0 == Delivered(body)
  {
    ReceivedGrows(msgs, n, n + 1);
    Reaches(msgs, maxBytes, n);
  }

  lemma LeaverDropped(msgs: seq<Message>, maxBytes: Option<nat>, n: int)
    requires Leaves(msgs, maxBytes, n)
    ensures Drain([], msgs, maxBytes).0 == Dropped
  {
    Reaches(msgs, maxBytes, n);
  }

  lemma StopDecides(msgs: seq<Message>, maxBytes: Option<nat>, n: nat)
    requires Reached(msgs, maxBytes, n)
    requires n == |msgs| || msgs[n].Disconnect? || !msgs[n].more || !Fits(|Received(msgs, n) + msgs[n].body|, maxBytes)
    ensures var r := Drain([], msgs, maxBytes).0;
            && (r == TooLarge ==> Overflows(msgs, maxBytes, n))
            && (r.Delivered? ==> Completes(msgs, maxBytes, n, r.body))
            && (r == Dropped ==> Leaves(msgs, maxBytes, n))
            && (r.StillWaiting? ==> Fits(|r.kept|, maxBytes))
            && r != PassedOn
  {
  }

  lemma {:induction false} OverflowRefused(msgs: seq<Message>, maxBytes: Option<nat>, n: nat)
    requires Overflows(msgs, maxBytes, n)
    ensures Drain([], msgs, maxBytes).0 == TooLarge
  {
    if Fits(|Received(msgs, n)|, maxBytes) {
      Reaches(msgs, maxBytes, n);
    } else {
      assert n > 0;
      OverflowRefused(msgs, maxBytes, n - 1);
    }
  }

  /** What is delivered, or still held, never exceeds the limit. */
  lemma KeptWithinLimit(msgs: seq<Message>, maxBytes: Option<nat>)
    ensures var r := Drain([], msgs, maxBytes).0;
            maxBytes.Some? ==>
              (r.Delivered? ==> |r.body| <= maxBytes.value) && (r.StillWaiting? ==> |r.kept| <= maxBytes.value)
  {
    Reaches(msgs, maxBytes, 0);
    var n := Stops(msgs, maxBytes, 0);
    StopDecides(msgs, maxBytes, n);
  }

  // ---- chunking ------------------------------------------------------------------------------

  /** A body sent in these chunks. */
  function Sent(chunks: seq<Bytes>): seq<Message> {
    seq(|chunks|, i requires 0 <= i < |chunks| => Request(chunks[i], i < |chunks| - 1))
  }

  lemma {:induction false} ReceivedJoin(chunks: seq<Bytes>, rest: seq<Message>, n: nat)
    requires n <= |chunks|
    ensures Received(Sent(chunks) + rest, n) == Join(chunks[..n])
  {
    if n > 0 {
      ReceivedJoin(chunks, rest, n - 1);
      assert chunks[..n][..n - 1] == chunks[..n - 1];
    }
  }

  /** However a body is split into chunks, the outcome depends on the body alone: within the limit the app's
      first receive is the whole body, raw_body gives the same bytes, and everything after it is passed
      through; above the limit it is refused. */
  lemma ChunkingInvariant(chunks: seq<Bytes>, rest: seq<Message>, maxBytes: Option<nat>)
    requires chunks != []
    ensures var (r, taken) := Drain([], Sent(chunks) + rest, maxBytes);
            if maxBytes.Some? ==> |Join(chunks)| <= maxBytes.value then
              r == Delivered(Join(chunks)) && taken == |chunks| && (Sent(chunks) + rest)[taken..] == rest
            else r == TooLarge
  {
    var msgs, n := Sent(chunks) + rest, |chunks| - 1;
    ReceivedJoin(chunks, rest, n + 1);
    assert chunks[..n + 1] == chunks;
    assert Continues(msgs, n) && msgs[n] == Request(chunks[n], false);
    if Fits(|Join(chunks)|, maxBytes) {
      ReceivedGrows(msgs, n, n + 1);
      Reaches(msgs, maxBytes, n);
    } else {
      assert Overflows(msgs, maxBytes, n);
      OverflowRefused(msgs, maxBytes, n);
    }
  }
}
