/** The string operations the identity code applies to user input: `trim`, `toLowerCase`,
    `startsWith` and the `\s` character class. All of them are modelled over ASCII. */
module Text {

  /** The ASCII members of JavaScript's white-space set: the characters `String.prototype.trim`
      strips and the regular-expression class `\s` matches. */
  predicate IsSpace(c: char) {
    c == ' ' || c == '\t' || c == '\n' || c == '\U{0B}' || c == '\U{0C}' || c == '\r'
  }

  predicate AllSpace(s: string) {
    forall i :: 0 <= i < |s| ==> IsSpace(s[i])
  }

  /** Neither begins nor ends with white space: what `trim` leaves. */
  predicate Trimmed(s: string) {
    s == [] || (!IsSpace(s[0]) && !IsSpace(s[|s| - 1]))
  }

  predicate IsUpper(c: char) {
    'A' <= c <= 'Z'
  }

  /** `toLowerCase` on one ASCII character. */
  function LowerChar(c: char): (r: char)
    ensures !IsUpper(r)
    ensures IsSpace(r) <==> IsSpace(c)
    ensures !IsUpper(c) ==> r == c
    ensures IsUpper(c) ==> r as int == c as int - 'A' as int + 'a' as int
  {
    if IsUpper(c) then (c as int - 'A' as int + 'a' as int) as char else c
  }

  /** `s.toLowerCase()`. */
  function Lower(s: string): (r: string)
    ensures |r| == |s|
    ensures forall i :: 0 <= i < |s| ==> r[i] == LowerChar(s[i])
  {
    seq(|s|, i requires 0 <= i < |s| => LowerChar(s[i]))
  }

  /** Drops the leading white space. */
  function TrimStart(s: string): (r: string)
    ensures |r| <= |s| && r == s[|s| - |r|..]
    ensures r == [] || !IsSpace(r[0])
    ensures AllSpace(s[..|s| - |r|])
  {
    if s != [] && IsSpace(s[0]) then TrimStart(s[1..]) else s
  }

  /** Drops the trailing white space. */
  function TrimEnd(s: string): (r: string)
    ensures |r| <= |s| && r == s[..|r|]
    ensures r == [] || !IsSpace(r[|r| - 1])
    ensures AllSpace(s[|r|..])
  {
    if s != [] && IsSpace(s[|s| - 1]) then TrimEnd(s[..|s| - 1]) else s
  }

  /** `s.trim()`: a middle slice of `s` that neither starts nor ends with white space,
      everything cut away being white space. */
  function Trim(s: string): (r: string)
    ensures Trimmed(r) && |r| <= |s|
  {
    TrimEnd(TrimStart(s))
  }

  /** `s.trim().toLowerCase()`, the normal form of e-mail addresses, usernames and login
      identifiers. */
  function Normalize(s: string): (r: string)
    ensures forall i :: 0 <= i < |r| ==> !IsUpper(r[i])
    ensures Trimmed(r)
    ensures |r| <= |s|
  {
    Lower(Trim(s))
  }

  /** `s.startsWith(prefix)`. */
  predicate StartsWith(s: string, prefix: string) {
    prefix <= s
  }

  lemma {:induction false} TrimStartSkips(a: string, t: string)
    requires AllSpace(a)
    requires t == [] || !IsSpace(t[0])
    ensures TrimStart(a + t) == t
  {
    if a == [] {
      assert a + t == t;
    } else {
      assert (a + t)[1..] == a[1..] + t;
      TrimStartSkips(a[1..], t);
    }
  }

  lemma {:induction false} TrimEndSkips(t: string, b: string)
    requires AllSpace(b)
    requires t == [] || !IsSpace(t[|t| - 1])
    ensures TrimEnd(t + b) == t
  {
    if b == [] {
      assert t + b == t;
    } else {
      assert (t + b)[..|t + b| - 1] == t + b[..|b| - 1];
      TrimEndSkips(t, b[..|b| - 1]);
    }
  }

  /** A suffix `t` of `s` and a prefix `r` of `t` cut `s` into three pieces. */
  lemma Glue(s: string, t: string, r: string)
    requires |t| <= |s| && t == s[|s| - |t|..]
    requires |r| <= |t| && r == t[..|r|]
    ensures s == s[..|s| - |t|] + r + t[|r|..]
  {
    assert t == r + t[|r|..];
    assert s == s[..|s| - |t|] + t;
  }

  /** What `trim` cuts away on either side is white space. */
  lemma TrimSplit(s: string) returns (a: string, b: string)
    ensures AllSpace(a) && AllSpace(b) && s == a + Trim(s) + b
  {
    var t := TrimStart(s);
    var r := TrimEnd(t);
    a := s[..|s| - |t|];
    b := t[|r|..];
    Glue(s, t, r);
  }

  /** `trim` is determined by the split of its input into white space, a trimmed middle and
      white space. */
  lemma TrimUnique(a: string, m: string, b: string)
    requires AllSpace(a) && AllSpace(b) && Trimmed(m)
    ensures Trim(a + m + b) == m
  {
    if m == [] {
      assert a + m + b == (a + b) + [];
      TrimStartSkips(a + b, []);
    } else {
      assert a + m + b == a + (m + b);
      TrimStartSkips(a, m + b);
      TrimEndSkips(m, b);
    }
  }

  lemma {:induction false} TrimStartLower(s: string)
    ensures TrimStart(Lower(s)) == Lower(TrimStart(s))
  {
    if s != [] && IsSpace(s[0]) {
      assert Lower(s)[1..] == Lower(s[1..]);
      TrimStartLower(s[1..]);
    }
  }

  lemma {:induction false} TrimEndLower(s: string)
    ensures TrimEnd(Lower(s)) == Lower(TrimEnd(s))
  {
    if s != [] && IsSpace(s[|s| - 1]) {
      assert Lower(s)[..|s| - 1] == Lower(s[..|s| - 1]);
      TrimEndLower(s[..|s| - 1]);
    }
  }

  /** Normalizing twice gives the same string as normalizing once. */
  lemma NormalizeIdempotent(s: string)
    ensures Normalize(Normalize(s)) == Normalize(s)
  {
    var n := Normalize(s);
    TrimUnique([], n, []);
    assert [] + n + [] == n;
    assert Lower(n) == n;
  }

  /** Inputs that differ only in letter case normalize alike. */
  lemma NormalizeIgnoresCase(s: string)
    ensures Normalize(Lower(s)) == Normalize(s)
  {
    TrimStartLower(s);
    TrimEndLower(TrimStart(s));
    assert Lower(Lower(Trim(s))) == Lower(Trim(s));
  }

  lemma AllSpaceConcat(x: string, y: string)
    requires AllSpace(x) && AllSpace(y)
    ensures AllSpace(x + y)
  {
  }

  lemma Regroup(p: string, a: string, m: string, b: string, q: string)
    ensures p + (a + m + b) + q == (p + a) + m + (b + q)
  {
  }

  /** Inputs that differ only in surrounding white space normalize alike. */
  lemma NormalizeIgnoresSurroundingSpace(s: string, pre: string, post: string)
    requires AllSpace(pre) && AllSpace(post)
    ensures Normalize(pre + s + post) == Normalize(s)
  {
    var m := Trim(s);
    var a0, b0 := TrimSplit(s);
    AllSpaceConcat(pre, a0);
    AllSpaceConcat(b0, post);
    Regroup(pre, a0, m, b0, post);
    TrimUnique(pre + a0, m, b0 + post);
  }

  lemma LowerConcat(a: string, b: string)
    ensures Lower(a + b) == Lower(a) + Lower(b)
  {
  }

  lemma LowerKeepsSpace(a: string)
    requires AllSpace(a)
    ensures Lower(a) == a
  {
  }

  /** A string already in normal form is what every input normalizes to that lower-cases to it
      (the same letters in any case) and is surrounded by white space. */
  lemma NormalizedVariant(e: string, x: string, pre: string, post: string)
    requires e == Normalize(e) && Lower(x) == e && AllSpace(pre) && AllSpace(post)
    ensures Normalize(pre + x + post) == e
  {
    NormalizeIgnoresCase(pre + x + post);
    LowerConcat(pre + x, post);
    LowerConcat(pre, x);
    LowerKeepsSpace(pre);
    LowerKeepsSpace(post);
    assert Lower(pre + x + post) == pre + e + post;
    NormalizeIgnoresSurroundingSpace(e, pre, post);
  }

  /** The example the model's design rests on: the capitals of an e-mail become the
      corresponding small letters, and `@` and `.` stay. */
  lemma ExampleLowered()
    ensures Lower("ANA@EXAMPLE.COM") == "ana@example.com"
  {
  }
}
