/** Where a credential is read (src/falcon_auth/adapters/authenticators.py): a header, and the scheme that
    must open its value. Header names and schemes are compared without regard to case. */
module Selectors {
  import opened Wrappers
  import opened Strings

  // ---- splitting a header value ----------------------------------------------------------------

  predicate Solid(s: string) {
    s != [] && forall c <- s :: !IsSpace(c)
  }

  function Word(s: string): string {
    if s == [] || IsSpace(s[0]) then [] else [s[0]] + Word(s[1..])
  }

  lemma {:induction false} WordPrefix(s: string)
    ensures Word(s) <= s && (Word(s) != [] ==> Solid(Word(s)))
    ensures |Word(s)| < |s| ==> IsSpace(s[|Word(s)|])
  {
    if s != [] && !IsSpace(s[0]) {
      WordPrefix(s[1..]);
    }
  }

  /** _token_from: split(None, 1), a case-blind scheme, and the rest stripped. */
  function TokenFrom(value: string, scheme: Option<string>): Option<string> {
    match scheme
    case None => Some(value)
    case Some(name) =>
      var rest := StripLeft(value);
      var word := Word(rest);
      WordPrefix(rest);
      var tail := StripLeft(rest[|word|..]);
      if word == [] || tail == [] || Lower(word) != Lower(name) then None else Some(Strip(tail))
  }

  lemma {:induction false} WordOf(word: string, rest: string)
    requires (forall c <- word :: !IsSpace(c)) && (rest == [] || IsSpace(rest[0]))
    ensures Word(word + rest) == word
  {
    if word == [] {
      assert word + rest == rest;
    } else {
      assert (word + rest)[1..] == word[1..] + rest;
      WordOf(word[1..], rest);
    }
  }

  /** The value is white space, a word, more white space, the token, and white space. */
  predicate Carries(value: string, lead: string, word: string, gap: string, token: string, trail: string) {
    && value == lead + (word + (gap + (token + trail)))
    && Blank(lead) && Solid(word) && gap != [] && Blank(gap) && Trimmed(token) && Blank(trail)
  }

  lemma Peel(value: string) returns (lead: string, word: string, after: string)
    ensures word == Word(StripLeft(value)) && word <= StripLeft(value) && after == StripLeft(value)[|word|..]
    ensures Blank(lead) && value == lead + (word + after)
    ensures word != [] ==> Solid(word)
    ensures after != [] ==> IsSpace(after[0])
  {
    LeftSplit(value);
    var rest := StripLeft(value);
    WordPrefix(rest);
    lead, word, after := value[..|value| - |rest|], Word(rest), rest[|Word(rest)|..];
    assert rest == word + after;
  }

  lemma PeelToken(after: string) returns (gap: string, token: string, trail: string)
    requires StripLeft(after) != [] && IsSpace(after[0])
    ensures token == Strip(StripLeft(after)) && after == gap + (token + trail)
    ensures gap != [] && Blank(gap) && Trimmed(token) && Blank(trail)
  {
    LeftSplit(after);
    var tail := StripLeft(after);
    assert StripLeft(tail) == tail;
    RightSplit(tail);
    gap, token := after[..|after| - |tail|], StripRight(tail);
    trail := tail[|token|..];
  }

  lemma Extracted(value: string, name: string)
    requires TokenFrom(value, Some(name)).Some?
    ensures exists lead, word, gap, trail ::
              Carries(value, lead, word, gap, TokenFrom(value, Some(name)).value, trail) && Lower(word) == Lower(name)
  {
    var lead, word, after := Peel(value);
    var gap, token, trail := PeelToken(after);
    assert Carries(value, lead, word, gap, token, trail);
  }

  lemma Reads(value: string, name: string, lead: string, word: string, gap: string, token: string, trail: string)
    requires Carries(value, lead, word, gap, token, trail) && Lower(word) == Lower(name)
    ensures TokenFrom(value, Some(name)) == Some(token)
  {
    var tail := token + trail;
    LeftDrop(lead, word + (gap + tail));
    WordOf(word, gap + tail);
    assert (word + (gap + tail))[|word|..] == gap + tail;
    LeftDrop(gap, tail);
    LeftDrop([], tail);
    assert [] + tail == tail;
    RightDrop(token, trail);
  }

  /** A selector with a scheme reads exactly the values "<scheme> <token>", in any case and with any
      surrounding white space, and gives back exactly the token. */
  lemma TokenFromExact(value: string, name: string, token: string)
    ensures TokenFrom(value, Some(name)) == Some(token)
            <==> exists lead, word, gap, trail ::
                   Carries(value, lead, word, gap, token, trail) && Lower(word) == Lower(name)
  {
    if TokenFrom(value, Some(name)) == Some(token) {
      Extracted(value, name);
    }
    if lead, word, gap, trail :| Carries(value, lead, word, gap, token, trail) && Lower(word) == Lower(name) {
      Reads(value, name, lead, word, gap, token, trail);
    }
  }

  // ---- selectors -------------------------------------------------------------------------------

  type Headers = map<string, string>   // by lower-case name

  datatype Selector = Selector(header: string, scheme: Option<string>) {
    function Extract(headers: Headers): Option<string> {
      var name := Lower(header);
      if name !in headers || headers[name] == [] then None else TokenFrom(headers[name], scheme)
    }

    predicate Overlaps(other: Selector) {
      && Lower(header) == Lower(other.header)
      && (scheme.None? || other.scheme.None? || Lower(scheme.value) == Lower(other.scheme.value))
    }

    /** A scheme some header value can open with: no empty word, no white space inside. */
    predicate Readable() {
      scheme.Some? ==> Solid(scheme.value)
    }
  }

  /** What a selector takes for its credential: never the empty string; with no scheme the whole value, with one
      its token; and the case of the header's name and of the scheme never matters. */
  lemma ExtractExactly(headers: Headers, a: Selector, token: string)
    ensures a.Extract(headers) == Some(token) ==> token != ""
    ensures a.scheme.None? ==>
              (a.Extract(headers) == Some(token)
               <==> token != "" && Lower(a.header) in headers && headers[Lower(a.header)] == token)
    ensures a.Extract(headers)
            == Selector(Upper(a.header), if a.scheme.Some? then Some(Upper(a.scheme.value)) else None).Extract(headers)
  {
    LowerIsCaseBlind(a.header);
    if a.scheme.Some? {
      LowerIsCaseBlind(a.scheme.value);
      if a.Extract(headers) == Some(token) {
        TokenFromExact(headers[Lower(a.header)], a.scheme.value, token);
      }
    }
  }

  /** One header value is a credential for both. */
  predicate BothRead(headers: Headers, a: Selector, b: Selector) {
    Lower(a.header) == Lower(b.header) && a.Extract(headers).Some? && b.Extract(headers).Some?
  }

  lemma ReadableWhenRead(headers: Headers, a: Selector)
    requires a.Extract(headers).Some?
    ensures a.Readable()
  {
    if a.scheme.Some? {
      var value := headers[Lower(a.header)];
      Extracted(value, a.scheme.value);
      var lead, word, gap, trail :| Carries(value, lead, word, gap, TokenFrom(value, a.scheme).value, trail)
                                    && Lower(word) == Lower(a.scheme.value);
      SameSpace(word, a.scheme.value);
    }
  }

  lemma SameSpace(a: string, b: string)
    requires Lower(a) == Lower(b) && Solid(a)
    ensures Solid(b)
  {
  }

  function Sample(a: Selector): string {
    if a.scheme.None? then "x" else a.scheme.value + (" " + ("x" + ""))
  }

  lemma SampleRead(a: Selector, value: string)
    requires a.Readable()
    requires value == Sample(a) || a.scheme.None?
    requires value != []
    ensures TokenFrom(value, a.scheme).Some?
  {
    if a.scheme.Some? {
      assert value == [] + (a.scheme.value + (" " + ("x" + "")));
      Reads(value, a.scheme.value, "", a.scheme.value, " ", "x", "");
    }
  }

  lemma Witness(a: Selector, b: Selector)
    requires a.Overlaps(b) && a.Readable() && b.Readable()
    ensures exists headers :: BothRead(headers, a, b)
  {
    var value := if a.scheme.Some? then Sample(a) else Sample(b);
    var headers := map[Lower(a.header) := value];
    SampleRead(a, value);
    if a.scheme.Some? && b.scheme.Some? {
      assert value == [] + (a.scheme.value + (" " + ("x" + "")));
      Reads(value, b.scheme.value, "", a.scheme.value, " ", "x", "");
    } else {
      SampleRead(b, value);
    }
    assert BothRead(headers, a, b);
  }

  /** overlaps() is exact: it holds of two selectors with readable schemes when, and only when, some request
      carries one header value that both take for their credential. */
  lemma OverlapsExact(a: Selector, b: Selector)
    ensures (exists headers :: BothRead(headers, a, b)) <==> a.Overlaps(b) && a.Readable() && b.Readable()
  {
    if headers :| BothRead(headers, a, b) {
      ReadableWhenRead(headers, a);
      ReadableWhenRead(headers, b);
    }
    if a.Overlaps(b) && a.Readable() && b.Readable() {
      Witness(a, b);
    }
  }
}
