/** The shared copy of each session's trust context (src/falcon_auth/trustcontext.py, TrustContextCache).
    The injected cache is a table of slots with an expiry. The constant "lastgood:" key prefix is
    dropped, so a slot is keyed by the session reference itself. */
module TrustCaches {
  import opened Wrappers
  import opened TrustContexts

  const FETCHED_AT := "falcon_auth_fetched_at"

  datatype Stored = Tombstone | Corrupt | Payload(doc: TrustContext)

  datatype Slot = Slot(value: Stored, expires: real)

  type Entries = map<string, Slot>

  /** How the injected cache answers a get: it works, it swallows a transport failure, or it raises. */
  datatype Fault = Works | Swallows | Raises

  /** What becomes of a set whose reply is lost: it never takes effect, it has, or it will. */
  datatype Landing = Never | AtOnce | Later(id: int)

  /** How the injected cache answers a set. A failed call says nothing of whether it takes effect. */
  datatype SetReply = Done | Swallowed(landing: Landing) | Thrown(landing: Landing) {
    predicate Lands() {
      Done? || landing.AtOnce?
    }

    predicate Pends() {
      !Done? && landing.Later?
    }
  }

  /** A set that has failed for its caller and is still to take effect. */
  datatype LateSet = LateSet(ref: string, value: Stored)

  type Pending = map<int, LateSet>

  function Ceil(x: real): int {
    -((-x).Floor)
  }

  /** Python's int(): truncation toward zero. */
  function Truncate(x: real): int {
    if x >= 0.0 then x.Floor else Ceil(x)
  }

  function StorageTtl(lastGoodTtl: real, routineTtl: real): int {
    if Truncate(lastGoodTtl) >= Ceil(routineTtl) then Truncate(lastGoodTtl) else Ceil(routineTtl)
  }

  function Stamp(c: TrustContext, clock: real): TrustContext {
    c.(optional := c.optional[FETCHED_AT := Num(clock)])
  }

  function Unstamp(doc: TrustContext): TrustContext {
    doc.(optional := doc.optional - {FETCHED_AT})
  }

  /** The age of a copy: unknown for a missing, mangled or future stamp. */
  function Age(doc: TrustContext, clock: real): Secs {
    if FETCHED_AT in doc.optional && doc.optional[FETCHED_AT].Num?
       && clock - doc.optional[FETCHED_AT].n >= 0.0
    then Fin(clock - doc.optional[FETCHED_AT].n)
    else Infinite
  }

  function Put(entries: Entries, ref: string, value: Stored, expires: real): Entries {
    entries[ref := Slot(value, expires)]
  }

  function AfterSet(entries: Entries, ref: string, value: Stored, expires: real, reply: SetReply): Entries {
    if reply.Lands() then Put(entries, ref, value, expires) else entries
  }

  function AfterSetPending(pending: Pending, ref: string, value: Stored, reply: SetReply): Pending {
    if reply.Pends() then pending[reply.landing.id := LateSet(ref, value)] else pending
  }

  /** The session's copy and its age, or None: no entry, an expired one, a tombstone, or a corrupt one. */
  function Look(entries: Entries, ref: string, clock: real, now: real): Option<(TrustContext, Secs)> {
    if ref !in entries || now >= entries[ref].expires || !entries[ref].value.Payload? then None
    else
      var doc := entries[ref].value.doc;
      if Unstamp(doc).Valid() then Some((Unstamp(doc), Age(doc, clock))) else None
  }

  lemma UnstampStamp(c: TrustContext, clock: real)
    ensures Unstamp(Stamp(c, clock)) == c <==> FETCHED_AT !in c.optional
    ensures Unstamp(Stamp(c, clock)).Valid() <==> c.Valid()
  {
  }

  /** Write then read gives back the very same context -- an absent optional field absent, a null one
      null -- with its real age, for as long as the entry lives; exactly when auth's own document does
      not use the stamp's key. A reader whose clock is behind the writer's reads an unknown age. */
  lemma RoundTrip(entries: Entries, c: TrustContext, writerClock: real, expires: real,
                  readerClock: real, now: real)
    requires c.Valid()
    ensures var back := Look(Put(entries, c.sessionRef, Payload(Stamp(c, writerClock)), expires),
                             c.sessionRef, readerClock, now);
            && (back.Some? <==> now < expires)
            && (back.Some? ==>
                  && (back.value.0 == c <==> FETCHED_AT !in c.optional)
                  && back.value.1 == (if readerClock >= writerClock then Fin(readerClock - writerClock)
                                      else Infinite))
  {
  }

  /** The write keys on the context's own session reference, the read on the requested one: the copy is found
      exactly when auth echoed the reference it was asked for. */
  lemma EchoNeeded(entries: Entries, sid: string, c: TrustContext, clock: real, expires: real, now: real)
    requires c.Valid() && now < expires && sid !in entries
    ensures Look(Put(entries, c.sessionRef, Payload(Stamp(c, clock)), expires), sid, clock, now).Some?
            <==> c.sessionRef == sid
  {
    UnstampStamp(c, clock);
  }

  /** A copy's age is zero exactly when its stamp is the reader's own clock reading. */
  lemma AgeZeroExactly(doc: TrustContext, clock: real)
    ensures !Fin(0.0).Below(Age(doc, clock)) <==> FETCHED_AT in doc.optional && doc.optional[FETCHED_AT] == Num(clock)
  {
  }

  /** A copy is younger than a bound exactly when it carries a numeric stamp, not in the future, that recent: an
      unstamped, mangled or future stamp is never fresh, for any bound. */
  lemma FreshExactly(doc: TrustContext, clock: real, bound: real)
    ensures Age(doc, clock).Below(Fin(bound)) <==>
              FETCHED_AT in doc.optional
              && exists n: real :: doc.optional[FETCHED_AT] == Num(n) && 0.0 <= clock - n < bound
  {
    if FETCHED_AT in doc.optional && doc.optional[FETCHED_AT].Num? {
      assert doc.optional[FETCHED_AT] == Num(doc.optional[FETCHED_AT].n);
    }
  }

  /** What is a miss: no entry, an expired one, a tombstone, a corrupt one, or a document that breaks the
      schema; anything else is a hit on that document. */
  lemma LookExact(entries: Entries, ref: string, clock: real, now: real)
    ensures Look(entries, ref, clock, now).Some? <==>
              && ref in entries && now < entries[ref].expires
              && exists doc :: entries[ref].value == Payload(doc) && Unstamp(doc).Valid()
    ensures Look(entries, ref, clock, now).Some? ==>
              entries[ref].value.Payload? && Look(entries, ref, clock, now).value.0 == Unstamp(entries[ref].value.doc)
  {
    if ref in entries && entries[ref].value.Payload? {
      assert entries[ref].value == Payload(entries[ref].value.doc);
    }
  }

  /** The storage life covers a routine read's window and the whole seconds of the last-good one, and is no
      longer than the larger asks for. */
  lemma StorageOutlivesBoth(lastGoodTtl: real, routineTtl: real)
    requires routineTtl >= 0.0
    ensures var ttl := StorageTtl(lastGoodTtl, routineTtl) as real;
            && routineTtl <= ttl && lastGoodTtl - 1.0 < ttl
            && (ttl <= lastGoodTtl || ttl < routineTtl + 1.0)
  {
  }

  class TrustContextCache {
    const routineTtl: real
    const storageTtl: int
    var entries: Entries
    var pending: Pending

    constructor (lastGoodTtl: real, routineTtl: real)
      requires routineTtl >= 0.0
      ensures entries == map[] && pending == map[] && this.routineTtl == routineTtl
      ensures storageTtl == StorageTtl(lastGoodTtl, routineTtl)
    {
      this.routineTtl := routineTtl;
      storageTtl := StorageTtl(lastGoodTtl, routineTtl);
      entries, pending := map[], map[];
    }

    /** The injected cache's own set. */
    method CacheSet(ref: string, value: Stored, now: real, reply: SetReply) returns (raised: bool)
      modifies this`entries, this`pending
      ensures raised <==> reply.Thrown?
      ensures entries == AfterSet(old(entries), ref, value, now + storageTtl as real, reply)
      ensures pending == AfterSetPending(old(pending), ref, value, reply)
    {
      if reply.Lands() {
        entries := entries[ref := Slot(value, now + storageTtl as real)];
      } else if reply.Pends() {
        pending := pending[reply.landing.id := LateSet(ref, value)];
      }
      raised := reply.Thrown?;
    }

    /** A set that had failed for its caller takes effect; its storage life starts now. */
    method Land(id: int, now: real)
      requires id in pending
      modifies this`entries, this`pending
      ensures entries == Put(old(entries), old(pending)[id].ref, old(pending)[id].value, now + storageTtl as real)
      ensures pending == old(pending) - {id}
    {
      var late := pending[id];
      entries := entries[late.ref := Slot(late.value, now + storageTtl as real)];
      pending := pending - {id};
    }

    /** Overwrite the session's copy, stamped with this worker's clock at the moment of writing. */
    method Write(c: TrustContext, clock: real, now: real, reply: SetReply) returns (raised: bool)
      modifies this`entries, this`pending
      ensures raised <==> reply.Thrown?
      ensures entries
              == AfterSet(old(entries), c.sessionRef, Payload(Stamp(c, clock)), now + storageTtl as real, reply)
      ensures pending == AfterSetPending(old(pending), c.sessionRef, Payload(Stamp(c, clock)), reply)
    {
      var payload := c.optional;
      payload := payload[FETCHED_AT := Num(clock)];
      raised := CacheSet(c.sessionRef, Payload(c.(optional := payload)), now, reply);
    }

    /** Overwrite the session's copy with a tombstone; the cache protocol has no delete. */
    method Forget(ref: string, now: real, reply: SetReply) returns (raised: bool)
      modifies this`entries, this`pending
      ensures raised <==> reply.Thrown?
      ensures entries == AfterSet(old(entries), ref, Tombstone, now + storageTtl as real, reply)
      ensures pending == AfterSetPending(old(pending), ref, Tombstone, reply)
    {
      raised := CacheSet(ref, Tombstone, now, reply);
    }

    method Read(ref: string, clock: real, now: real, fault: Fault)
      returns (raised: bool, found: Option<(TrustContext, Secs)>)
      ensures raised <==> fault.Raises?
      ensures found == if fault.Works? then Look(entries, ref, clock, now) else None
    {
      raised, found := fault.Raises?, None;
      if !fault.Works? || ref !in entries || now >= entries[ref].expires {
        return;
      }
      match entries[ref].value
      case Tombstone =>
      case Corrupt =>
      case Payload(doc) =>
        var stamp := if FETCHED_AT in doc.optional then doc.optional[FETCHED_AT] else Null;
        var context := doc.(optional := doc.optional - {FETCHED_AT});
        if context.Valid() {
          var age := Infinite;
          if stamp.Num? && clock - stamp.n >= 0.0 {
            age := Fin(clock - stamp.n);
          }
          found := Some((context, age));
        }
    }
  }
}
