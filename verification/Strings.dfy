/** The string operations the source leans on: strip, upper and lower. */
module Strings {
  predicate IsSpace(c: char) {
    c in {' ', '\t', '\n', '\r'} || c as int in {0x0B, 0x0C, 0x1C, 0x1D, 0x1E, 0x1F, 0x85, 0xA0}
  }

  function StripLeft(s: string): string {
    if s != [] && IsSpace(s[0]) then StripLeft(s[1..]) else s
  }

  function StripRight(s: string): string {
    if s != [] && IsSpace(s[|s| - 1]) then StripRight(s[..|s| - 1]) else s
  }

  function Strip(s: string): string {
    StripRight(StripLeft(s))
  }

  predicate Blank(s: string) {
    forall c <- s :: IsSpace(c)
  }

  /** Neither end is white space: what strip() leaves. */
  predicate Trimmed(s: string) {
    s != [] && !IsSpace(s[0]) && !IsSpace(s[|s| - 1])
  }

  lemma {:induction false} LeftSplit(s: string)
    ensures |StripLeft(s)| <= |s|
    ensures Blank(s[..|s| - |StripLeft(s)|]) && s == s[..|s| - |StripLeft(s)|] + StripLeft(s)
    ensures StripLeft(s) != [] ==> !IsSpace(StripLeft(s)[0])
  {
    if s != [] && IsSpace(s[0]) {
      LeftSplit(s[1..]);
      var k := |s| - |StripLeft(s)|;
      assert s[..k] == [s[0]] + s[1..][..k - 1];
    }
  }

  lemma {:induction false} RightSplit(s: string)
    requires s != [] && !IsSpace(s[0])
    ensures |StripRight(s)| <= |s|
    ensures Blank(s[|StripRight(s)|..]) && s == StripRight(s) + s[|StripRight(s)|..]
    ensures Trimmed(StripRight(s))
  {
    if IsSpace(s[|s| - 1]) {
      RightSplit(s[..|s| - 1]);
      var k := |StripRight(s)|;
      assert s[k..] == s[..|s| - 1][k..] + [s[|s| - 1]];
    }
  }

  lemma {:induction false} LeftDrop(blank: string, rest: string)
    requires Blank(blank) && (rest == [] || !IsSpace(rest[0]))
    ensures StripLeft(blank + rest) == rest
  {
    if blank == [] {
      assert blank + rest == rest;
    } else {
      assert (blank + rest)[1..] == blank[1..] + rest;
      LeftDrop(blank[1..], rest);
    }
  }

  lemma {:induction false} RightDrop(rest: string, blank: string)
    requires Blank(blank) && Trimmed(rest)
    ensures StripRight(rest + blank) == rest
    decreases |blank|
  {
    if blank == [] {
      assert rest + blank == rest;
    } else {
      var n := |blank| - 1;
      assert (rest + blank)[..|rest + blank| - 1] == rest + blank[..n];
      RightDrop(rest, blank[..n]);
    }
  }

  predicate Pads(s: string, lead: string, inside: string, trail: string) {
    s == lead + (inside + trail) && Blank(lead) && Blank(trail) && Trimmed(inside)
  }

  /** strip() takes away exactly the white space at both ends: all of it, and nothing else. */
  lemma StripExact(s: string, inside: string)
    requires inside != []
    ensures Strip(s) == inside <==> exists lead, trail :: Pads(s, lead, inside, trail)
  {
    LeftSplit(s);
    var rest := StripLeft(s);
    if rest != [] {
      RightSplit(rest);
      assert Pads(s, s[..|s| - |rest|], Strip(s), rest[|Strip(s)|..]);
    }
    if lead, trail :| Pads(s, lead, inside, trail) {
      LeftDrop(lead, inside + trail);
      RightDrop(inside, trail);
    }
  }

  lemma StripBlank(s: string)
    ensures Strip(s) == [] <==> Blank(s)
  {
    LeftSplit(s);
    var rest := StripLeft(s);
    if rest != [] {
      RightSplit(rest);
      assert rest[0] in s;
    } else {
      assert s[..|s|] == s;
    }
  }

  function UpperChar(c: char): char {
    if 'a' <= c <= 'z' then ((c as int) - 32) as char else c
  }

  function Upper(s: string): string {
    if s == [] then [] else [UpperChar(s[0])] + Upper(s[1..])
  }

  function LowerChar(c: char): char {
    if 'A' <= c <= 'Z' then ((c as int) + 32) as char else c
  }

  function Lower(s: string): (r: string)
    ensures |r| == |s| && forall i :: 0 <= i < |s| ==> r[i] == LowerChar(s[i])
  {
    if s == [] then [] else [LowerChar(s[0])] + Lower(s[1..])
  }

  /** Case is lost by lower(), whatever the case was. */
  lemma {:induction false} LowerIsCaseBlind(s: string)
    ensures Lower(Upper(s)) == Lower(s)
    ensures forall i | 0 <= i < |s| :: 'A' <= s[i] <= 'Z' ==> Lower(s)[i] as int == s[i] as int + 32
  {
    if s != [] {
      LowerIsCaseBlind(s[1..]);
      assert Upper(s)[1..] == Upper(s[1..]);
      assert Lower(s)[1..] == Lower(s[1..]);
    }
  }

  /** Python's order on strings. */
  predicate Before(a: string, b: string) {
    b != [] && (a == [] || a[0] < b[0] || (a[0] == b[0] && Before(a[1..], b[1..])))
  }

  lemma {:induction false} BeforeIsStrict(a: string, b: string)
    requires Before(a, b)
    ensures !Before(b, a) && a != b
  {
    if a != [] && a[0] == b[0] {
      BeforeIsStrict(a[1..], b[1..]);
    }
  }

  lemma {:induction false} BeforeIsTotal(a: string, b: string)
    requires a != b
    ensures Before(a, b) || Before(b, a)
  {
    if a != [] && b != [] && a[0] == b[0] {
      assert a == [a[0]] + a[1..] && b == [b[0]] + b[1..];
      BeforeIsTotal(a[1..], b[1..]);
    }
  }

  lemma {:induction false} BeforeChains(a: string, b: string, c: string)
    requires Before(a, b) && Before(b, c)
    ensures Before(a, c)
  {
    if a != [] && a[0] == b[0] && b[0] == c[0] {
      BeforeChains(a[1..], b[1..], c[1..]);
    }
  }

  function UpperAll(names: seq<string>): (r: seq<string>)
    ensures |r| == |names|
  {
    if names == [] then [] else [Upper(names[0])] + UpperAll(names[1..])
  }

  // ---- sorted() -------------------------------------------------------------------------------

  function Insert<T>(x: T, xs: seq<T>, key: T -> string): seq<T> {
    if xs != [] && Before(key(xs[0]), key(x)) then [xs[0]] + Insert(x, xs[1..], key) else [x] + xs
  }

  /** Python's sorted(): stable, by the key's order. */
  function SortBy<T>(xs: seq<T>, key: T -> string): seq<T> {
    if xs == [] then [] else Insert(xs[0], SortBy(xs[1..], key), key)
  }

  /** The key when strings are sorted by themselves. */
  function Itself(s: string): string {
    s
  }

  predicate Ascending<T>(xs: seq<T>, key: T -> string) {
    forall i, j | 0 <= i < j < |xs| :: key(xs[i]) == key(xs[j]) || Before(key(xs[i]), key(xs[j]))
  }

  lemma {:induction false} InsertSame<T>(x: T, xs: seq<T>, key: T -> string)
    ensures multiset(Insert(x, xs, key)) == multiset([x] + xs)
  {
    if xs != [] && Before(key(xs[0]), key(x)) {
      InsertSame(x, xs[1..], key);
      assert xs == [xs[0]] + xs[1..];
    }
  }

  lemma {:induction false} InsertKeeps<T>(x: T, xs: seq<T>, key: T -> string)
    requires Ascending(xs, key)
    ensures Ascending(Insert(x, xs, key), key)
  {
    if xs != [] && Before(key(xs[0]), key(x)) {
      var rest := Insert(x, xs[1..], key);
      InsertKeeps(x, xs[1..], key);
      InsertSame(x, xs[1..], key);
      forall j | 0 <= j < |rest| ensures key(xs[0]) == key(rest[j]) || Before(key(xs[0]), key(rest[j])) {
        FromEither(x, xs[1..], rest, j);
      }
    } else {
      forall j | 0 <= j < |xs| ensures key(x) == key(xs[j]) || Before(key(x), key(xs[j])) {
        InsertBelow(x, xs, key, j);
      }
    }
  }

  lemma FromEither<T>(x: T, xs: seq<T>, merged: seq<T>, j: nat)
    requires multiset(merged) == multiset([x] + xs) && j < |merged|
    ensures merged[j] == x || merged[j] in xs
  {
    assert merged[j] in multiset([x] + xs);
  }

  lemma InsertBelow<T>(x: T, xs: seq<T>, key: T -> string, j: nat)
    requires Ascending(xs, key) && j < |xs| && !Before(key(xs[0]), key(x))
    ensures key(x) == key(xs[j]) || Before(key(x), key(xs[j]))
  {
    if key(x) != key(xs[0]) {
      BeforeIsTotal(key(x), key(xs[0]));
      if j > 0 && key(xs[0]) != key(xs[j]) {
        BeforeChains(key(x), key(xs[0]), key(xs[j]));
      }
    }
  }

  /** The result is in order and has exactly the given elements. */
  lemma {:induction false} SortByExact<T>(xs: seq<T>, key: T -> string)
    ensures Ascending(SortBy(xs, key), key) && multiset(SortBy(xs, key)) == multiset(xs)
  {
    if xs != [] {
      SortByExact(xs[1..], key);
      InsertKeeps(xs[0], SortBy(xs[1..], key), key);
      InsertSame(xs[0], SortBy(xs[1..], key), key);
      assert xs == [xs[0]] + xs[1..];
    }
  }
}
