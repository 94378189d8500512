/** Token verification (src/falcon_auth/identity/jwks.py): the options floor, "expired alone", and the
    lifetime ceiling. The decoder is a set of checks it may run in any order. */
module JwtVerify {
  import opened Wrappers

  // ---- decode options ------------------------------------------------------------------------

  const REQUIRED_CLAIMS := ["iat", "exp", "sub", "sid", "jti"]
  const MANDATORY_CHECKS := {"verify_signature", "verify_exp", "verify_iat", "verify_iss", "verify_aud"}
  const DEFAULT_FLAGS := map["verify_signature" := true, "verify_aud" := true, "verify_iss" := true,
                             "verify_exp" := true, "verify_iat" := true, "verify_nbf" := true, "strict_aud" := false]

  datatype Given = Given(require: seq<string>, flags: map<string, bool>)

  datatype Options = Options(require: seq<string>, flags: map<string, bool>)

  /** dict.fromkeys: first occurrences, in order. */
  function FromKeys(names: seq<string>): seq<string> {
    if names == [] then []
    else
      var before, last := FromKeys(names[..|names| - 1]), names[|names| - 1];
      if last in before then before else before + [last]
  }

  /** merged_decode_options; nothing when a mandatory check is switched off. */
  function Merge(given: Given): Option<Options> {
    if exists f <- MANDATORY_CHECKS :: f in given.flags && !given.flags[f] then None
    else Some(Options(FromKeys(REQUIRED_CLAIMS + given.require), DEFAULT_FLAGS + given.flags))
  }

  predicate Distinct(names: seq<string>) {
    forall i, j | 0 <= i < j < |names| :: names[i] != names[j]
  }

  lemma {:induction false} FromKeysExact(names: seq<string>)
    ensures Distinct(FromKeys(names))
    ensures forall n :: n in FromKeys(names) <==> n in names
  {
    if names != [] {
      var init := names[..|names| - 1];
      FromKeysExact(init);
      assert names == init + [names[|names| - 1]];
    }
  }

  lemma {:induction false} FromKeysGrows(floor: seq<string>, added: seq<string>)
    requires Distinct(floor)
    ensures floor <= FromKeys(floor + added)
    decreases |floor| + |added|
  {
    var names := floor + added;
    if added != [] {
      assert names[..|names| - 1] == floor + added[..|added| - 1];
      FromKeysGrows(floor, added[..|added| - 1]);
    } else if floor != [] {
      var init := floor[..|floor| - 1];
      assert names == floor && init + [] == init && floor == init + [floor[|floor| - 1]];
      FromKeysGrows(init, []);
      FromKeysExact(init);
      FromKeysSame(init);
    } else {
      assert names == [];
    }
  }

  lemma {:induction false} FromKeysSame(names: seq<string>)
    requires Distinct(names)
    ensures FromKeys(names) == names
  {
    if names != [] {
      FromKeysSame(names[..|names| - 1]);
    }
  }

  lemma RequiredDistinct()
    ensures Distinct(REQUIRED_CLAIMS)
  {
  }

  /** No options value shrinks the floor: the merged list opens with the floor, has no duplicates, and is the
      floor and what the consumer added, no more; every mandatory check stays on, and so does verify_nbf unless
      the consumer says otherwise. Only switching a mandatory one off is refused. */
  lemma MergeExact(given: Given)
    ensures Merge(given).None? <==> exists f <- MANDATORY_CHECKS :: f in given.flags && !given.flags[f]
    ensures Merge(given).Some? ==>
              var o := Merge(given).value;
              && REQUIRED_CLAIMS <= o.require && Distinct(o.require)
              && (forall n :: n in o.require <==> n in REQUIRED_CLAIMS || n in given.require)
              && (forall f <- MANDATORY_CHECKS :: f in o.flags && o.flags[f])
              && (forall f <- given.flags :: f in o.flags && o.flags[f] == given.flags[f])
              && (forall f | f !in given.flags ::
                    (f in o.flags && o.flags[f]) <==> f in MANDATORY_CHECKS || f == "verify_nbf")
  {
    RequiredDistinct();
    FromKeysGrows(REQUIRED_CLAIMS, given.require);
    FromKeysExact(REQUIRED_CLAIMS + given.require);
  }

  // ---- decoding ------------------------------------------------------------------------------

  datatype Check = Expiry | Named(name: string)

  /** Fails is the InvalidToken a PyJWT error becomes; Crashes is any other exception, which escapes verify. */
  datatype Verdict = Passes | Fails(reason: string) | Crashes

  const EXPIRED := "ExpiredSignatureError"

  /** The checks a decoder with these options runs. */
  function Enabled(o: Options): set<Check> {
    (set f <- o.flags | o.flags[f] && f != "verify_exp" :: Named(f))
    + (if "verify_exp" in o.flags && o.flags["verify_exp"] then {Expiry} else {})
    + {Named("require")}
  }

  predicate OrderOf(order: seq<Check>, checks: set<Check>) {
    (forall c <- order :: c in checks) && (forall c <- checks :: c in order)
  }

  /** Decoding stops at the first check that fails. */
  function Decode(order: seq<Check>, verdict: Check -> Verdict): Verdict {
    if order == [] then Passes
    else if !verdict(order[0]).Passes? then verdict(order[0]) else Decode(order[1..], verdict)
  }

  lemma {:induction false} DecodeExact(order: seq<Check>, verdict: Check -> Verdict)
    ensures Decode(order, verdict).Passes? <==> forall c <- order :: verdict(c).Passes?
    ensures !Decode(order, verdict).Passes? ==> exists c <- order :: verdict(c) == Decode(order, verdict)
  {
    if order != [] {
      DecodeExact(order[1..], verdict);
      assert forall c <- order :: c == order[0] || c in order[1..];
      assert order[0] in order;
    }
  }

  // ---- claims --------------------------------------------------------------------------------

  datatype Claim = Text(text: string) | NotText

  /** A time claim: a JSON number, or a string of digits, which int() reads as well. */
  datatype Time = Number(n: real) | Digits(digits: int)

  /** A decoded token: its times, and the claims the floor reads. */
  datatype Claims = Claims(exp: Time, iat: Time, sid: Option<Claim>, jti: Option<Claim>)

  /** int() of a float: toward zero. */
  function Trunc(x: real): int {
    if x >= 0.0 then x.Floor else -((-x).Floor)
  }

  function IntOf(t: Time): int {
    match t
    case Number(n) => Trunc(n)
    case Digits(n) => n
  }

  predicate Names(c: Option<Claim>) {
    c.Some? && c.value.Text? && c.value.text != ""
  }

  /** _check_floor. math.floor reads a number only: of a string it raises TypeError. */
  function CheckFloor(c: Claims, maxLifetime: real): Verdict {
    if !Names(c.sid) then Fails("malformed_sid")
    else if !Names(c.jti) then Fails("malformed_jti")
    else if c.iat.Digits? then Crashes
    else if (IntOf(c.exp) - c.iat.n.Floor) as real > maxLifetime then Fails("lifetime_exceeds_ceiling")
    else Passes
  }

  /** What the floor asks beyond the decoder: sid and jti are strings that are not empty, and the whole seconds
      from iat's to exp's are within the ceiling; and what it says of each failure. */
  lemma FloorExactly(c: Claims, maxLifetime: real)
    ensures var r := CheckFloor(c, maxLifetime);
            var sid := exists t :: c.sid == Some(Text(t)) && t != "";
            var jti := exists t :: c.jti == Some(Text(t)) && t != "";
            && (r == Fails("malformed_sid") <==> !sid)
            && (r == Fails("malformed_jti") <==> sid && !jti)
            && (r == Crashes <==> sid && jti && c.iat.Digits?)
            && (r == Passes <==> sid && jti && c.iat.Number? && (IntOf(c.exp) - c.iat.n.Floor) as real <= maxLifetime)
  {
    assert c.sid.Some? && c.sid.value.Text? ==> c.sid == Some(Text(c.sid.value.text));
    assert c.jti.Some? && c.jti.value.Text? ==> c.jti == Some(Text(c.jti.value.text));
    assert "malformed_sid"[10] != "malformed_jti"[10];
    assert |"lifetime_exceeds_ceiling"| == 24 && |"malformed_sid"| == 13 && |"malformed_jti"| == 13;
  }

  /** int() drops the fraction, toward zero, and reads digits as they are. */
  lemma IntOfExactly(t: Time)
    ensures t.Number? && t.n >= 0.0 ==> IntOf(t) as real <= t.n < IntOf(t) as real + 1.0
    ensures t.Number? && t.n <= 0.0 ==> IntOf(t) as real - 1.0 < t.n <= IntOf(t) as real
    ensures t.Digits? ==> IntOf(t) == t.digits
  {
  }

  // ---- verify --------------------------------------------------------------------------------

  datatype Header = Malformed | NoKid | UnknownKid | Keyed

  /** verify(): a first decode in one order; if it says expired, a second with expiry off, in another. */
  function Verify(header: Header, order: seq<Check>, again: seq<Check>, verdict: Check -> Verdict, floor: Verdict)
    : Verdict
  {
    match header
    case Malformed => Fails("malformed_header")
    case NoKid => Fails("missing_kid")
    case UnknownKid => Fails("unknown_kid")
    case Keyed =>
      var first := Decode(order, verdict);
      if first == Fails(EXPIRED) then
        var second := Decode(again, verdict);
        if !second.Passes? then second else if !floor.Passes? then floor else Fails(EXPIRED)
      else if !first.Passes? then first
      else floor
  }

  /** The two orders in which the decoder happens to run the checks these options enable. */
  predicate Orders(given: Given, order: seq<Check>, again: seq<Check>) {
    && Merge(given).Some?
    && OrderOf(order, Enabled(Merge(given).value)) && OrderOf(again, Enabled(Merge(given).value) - {Expiry})
  }

  /** EXPIRED is said only by the expiry check. */
  ghost predicate OnlyExpirySaysExpired(verdict: Check -> Verdict, floor: Verdict) {
    floor != Fails(EXPIRED) && forall c :: verdict(c) == Fails(EXPIRED) ==> c == Expiry
  }

  lemma MandatoryEnabled(given: Given)
    requires Merge(given).Some?
    ensures Expiry in Enabled(Merge(given).value) && Named("verify_iat") in Enabled(Merge(given).value)
  {
    MergeExact(given);
    assert "verify_exp" in MANDATORY_CHECKS && "verify_iat" in MANDATORY_CHECKS;
    assert "verify_iat"[7] == 'i' && "verify_exp"[7] == 'e';
  }

  /** Every enabled check but expiry passes. */
  predicate OthersPass(given: Given, verdict: Check -> Verdict)
    requires Merge(given).Some?
  {
    forall c <- Enabled(Merge(given).value) :: c != Expiry ==> verdict(c) == Passes
  }

  lemma DecodesExact(given: Given, order: seq<Check>, again: seq<Check>, verdict: Check -> Verdict)
    requires Orders(given, order, again)
    ensures Decode(order, verdict).Passes? <==> verdict(Expiry).Passes? && OthersPass(given, verdict)
    ensures Decode(again, verdict).Passes? <==> OthersPass(given, verdict)
    ensures OthersPass(given, verdict) ==> Decode(order, verdict) == verdict(Expiry)
  {
    MandatoryEnabled(given);
    DecodeExact(order, verdict);
    DecodeExact(again, verdict);
    var checks := Enabled(Merge(given).value);
    assert forall c <- order :: c in checks;
    assert forall c <- checks :: c in order;
    assert forall c <- checks :: c != Expiry ==> c in again;
    assert forall c <- again :: c in checks && c != Expiry;
  }

  /** Whatever order the decoder runs its checks in, a token is reported EXPIRED exactly when expiry fails
      and every other enabled check and the floor pass, and accepted exactly when all of them pass. */
  lemma ExpiredAlone(given: Given, header: Header, order: seq<Check>, again: seq<Check>,
                     verdict: Check -> Verdict, floor: Verdict)
    requires Orders(given, order, again) && OnlyExpirySaysExpired(verdict, floor)
    ensures var r := Verify(header, order, again, verdict, floor);
            && (r == Fails(EXPIRED) <==>
                  && header == Keyed && verdict(Expiry) == Fails(EXPIRED) && floor == Passes
                  && OthersPass(given, verdict))
            && (r == Passes <==>
                  header == Keyed && verdict(Expiry) == Passes && floor == Passes && OthersPass(given, verdict))
            && (header == Malformed ==> r == Fails("malformed_header"))
            && (header == NoKid ==> r == Fails("missing_kid"))
            && (header == UnknownKid ==> r == Fails("unknown_kid"))
  {
    DecodesExact(given, order, again, verdict);
    DecodeExact(order, verdict);
    DecodeExact(again, verdict);
  }

  /** A token no check of the decoder crashes on makes verify raise something other than InvalidToken exactly
      when its sid and jti are sound, its iat is a string of digits, and nothing but expiry fails. */
  lemma TextIatEscapes(given: Given, order: seq<Check>, again: seq<Check>, verdict: Check -> Verdict, c: Claims,
                       maxLifetime: real)
    requires Orders(given, order, again) && OnlyExpirySaysExpired(verdict, CheckFloor(c, maxLifetime))
    requires forall k :: verdict(k) != Crashes
    ensures Verify(Keyed, order, again, verdict, CheckFloor(c, maxLifetime)) == Crashes <==>
              && Names(c.sid) && Names(c.jti) && c.iat.Digits?
              && OthersPass(given, verdict) && verdict(Expiry) in {Passes, Fails(EXPIRED)}
  {
    DecodesExact(given, order, again, verdict);
    DecodeExact(order, verdict);
    DecodeExact(again, verdict);
  }

  // ---- the clock -----------------------------------------------------------------------------

  /** The two checks that read the clock, as the decoder makes them; the others are as given. */
  function AtClock(c: Claims, now: real, leeway: real, others: Check -> Verdict): Check -> Verdict {
    (k: Check) =>
      if k == Expiry then (if IntOf(c.exp) as real <= now - leeway then Fails(EXPIRED) else Passes)
      else if k == Named("verify_iat") then
        (if IntOf(c.iat) as real > now + leeway then Fails("ImmatureSignatureError") else others(k))
      else others(k)
  }

  lemma TruncNear(x: real)
    ensures x.Floor <= Trunc(x) <= x.Floor + 1
    ensures x >= 0.0 ==> Trunc(x) == x.Floor
  {
  }

  /** The clock readings at which one token is accepted all lie in one interval, from int(iat) - leeway up to
      but not including int(exp) + leeway, and that interval is no longer than the ceiling and twice the
      leeway; whatever the decoder's order and whatever fractions exp and iat carry. */
  lemma AcceptanceWindow(given: Given, order: seq<Check>, again: seq<Check>, c: Claims, now: real, leeway: real,
                         maxLifetime: real, others: Check -> Verdict)
    requires Orders(given, order, again) && leeway >= 0.0 && maxLifetime > 0.0
    requires Verify(Keyed, order, again, AtClock(c, now, leeway, others), CheckFloor(c, maxLifetime)) == Passes
    ensures IntOf(c.iat) as real - leeway <= now < IntOf(c.exp) as real + leeway
    ensures (IntOf(c.exp) as real + leeway) - (IntOf(c.iat) as real - leeway) <= maxLifetime + 2.0 * leeway
    ensures c.exp.Number? && c.exp.n >= 0.0 ==> c.iat.Number? && c.exp.n - c.iat.n < maxLifetime + 1.0
  {
    var verdict := AtClock(c, now, leeway, others);
    MandatoryEnabled(given);
    DecodesExact(given, order, again, verdict);
    assert verdict(Named("verify_iat")) == Passes;
    TruncNear(c.iat.n);
    if c.exp.Number? {
      TruncNear(c.exp.n);
    }
  }

  /** So no two accepted uses of a token are further apart than the ceiling and twice the leeway. */
  lemma UsesAreClose(given: Given, order: seq<Check>, again: seq<Check>, c: Claims, early: real, late: real,
                     leeway: real, maxLifetime: real, others: Check -> Verdict, othersLater: Check -> Verdict)
    requires Orders(given, order, again) && leeway >= 0.0 && maxLifetime > 0.0
    requires Verify(Keyed, order, again, AtClock(c, early, leeway, others), CheckFloor(c, maxLifetime)) == Passes
    requires Verify(Keyed, order, again, AtClock(c, late, leeway, othersLater), CheckFloor(c, maxLifetime)) == Passes
    ensures late - early < maxLifetime + 2.0 * leeway
  {
    AcceptanceWindow(given, order, again, c, early, leeway, maxLifetime, others);
    AcceptanceWindow(given, order, again, c, late, leeway, maxLifetime, othersLater);
  }

  /** The interval is exact when everything else passes: each reading in it is accepted, each one past it is
      reported EXPIRED, and each one before it is refused as immature. */
  lemma WindowExact(given: Given, order: seq<Check>, again: seq<Check>, c: Claims, now: real, leeway: real,
                    maxLifetime: real)
    requires Orders(given, order, again) && leeway >= 0.0 && CheckFloor(c, maxLifetime) == Passes
    ensures var r := Verify(Keyed, order, again, AtClock(c, now, leeway, k => Passes), CheckFloor(c, maxLifetime));
            var open := IntOf(c.iat) as real <= now + leeway;
            && (r == Passes <==> open && now < IntOf(c.exp) as real + leeway)
            && (r == Fails(EXPIRED) <==> open && now >= IntOf(c.exp) as real + leeway)
            && (!open ==> r == Fails("ImmatureSignatureError"))
  {
    var verdict := AtClock(c, now, leeway, k => Passes);
    assert OnlyExpirySaysExpired(verdict, CheckFloor(c, maxLifetime)) by {
      assert |"ImmatureSignatureError"| == 22 && |EXPIRED| == 21;
    }
    ExpiredAlone(given, Keyed, order, again, verdict, CheckFloor(c, maxLifetime));
    MandatoryEnabled(given);
    DecodeExact(order, verdict);
    DecodeExact(again, verdict);
  }

  // ---- the principal's claims ----------------------------------------------------------------

  /** principal_claims. */
  function PrincipalClaims<V>(forwarded: set<string>, claims: map<string, V>): map<string, V> {
    map name | name in forwarded + {"jti"} && name in claims :: claims[name]
  }

  /** Nothing outside the allowlist reaches the user object but jti, which always does; sub is forwarded
      exactly when it is listed. */
  lemma ForwardedExact<V>(forwarded: set<string>, claims: map<string, V>, name: string)
    ensures name in PrincipalClaims(forwarded, claims) <==> name in claims && (name in forwarded || name == "jti")
    ensures name in PrincipalClaims(forwarded, claims) ==> PrincipalClaims(forwarded, claims)[name] == claims[name]
    ensures "sub" in PrincipalClaims(forwarded, claims) <==> "sub" in forwarded && "sub" in claims
  {
  }
}
