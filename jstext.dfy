/** The JavaScript string built-ins the side panel relies on: `trim`,
    `startsWith`, `endsWith`, `split('\n')` and the line terminators that a
    regular expression's `.` refuses to match. Strings are sequences of UTF-16
    code units in JavaScript; here they are `seq<char>` and only the
    characters named below are treated specially. */
module JsText {

  datatype Option<T> = None | Some(value: T)

  /** ECMAScript LineTerminator: the characters `.` in a regular expression
      without the `s` flag does not match. */
  predicate IsLineTerminator(c: char) {
    c == '\n' || c == '\r' || c == '\U{2028}' || c == '\U{2029}'
  }

  /** ECMAScript WhiteSpace (tab, vertical tab, form feed, the byte-order
      mark and the space separators of Unicode category Zs) together with the
      line terminators: exactly what `String.prototype.trim` strips. */
  predicate IsWhite(c: char) {
    IsLineTerminator(c)
    || c == '\t' || c == '\U{B}' || c == '\U{C}' || c == '\U{FEFF}'
    || c == ' ' || c == '\U{A0}' || c == '\U{1680}'
    || ('\U{2000}' <= c <= '\U{200A}')
    || c == '\U{202F}' || c == '\U{205F}' || c == '\U{3000}'
  }

  ghost predicate AllWhite(s: string) {
    forall i :: 0 <= i < |s| ==> IsWhite(s[i])
  }

  predicate StartsWith(s: string, prefix: string) {
    |prefix| <= |s| && s[..|prefix|] == prefix
  }

  predicate EndsWith(s: string, suffix: string) {
    |suffix| <= |s| && s[|s| - |suffix|..] == suffix
  }

  /** Number of white characters at the front of `s`. */
  function LeadingWhite(s: string): (n: nat)
    ensures n <= |s|
    ensures forall i :: 0 <= i < n ==> IsWhite(s[i])
    ensures n < |s| ==> !IsWhite(s[n])
    decreases |s|
  {
    if s != [] && IsWhite(s[0]) then 1 + LeadingWhite(s[1..]) else 0
  }

  /** Index where the run of white characters at the end of `s` begins. */
  function TrailingWhiteStart(s: string): (n: nat)
    ensures n <= |s|
    ensures forall i :: n <= i < |s| ==> IsWhite(s[i])
    ensures 0 < n ==> !IsWhite(s[n - 1])
    decreases |s|
  {
    if s != [] && IsWhite(s[|s| - 1]) then TrailingWhiteStart(s[..|s| - 1]) else |s|
  }

  /** The slice `s[lo..hi]` that `trim` keeps: everything outside it is
      white, and it is empty or begins and ends with a non-white character. */
  function TrimBounds(s: string): (b: (nat, nat))
    ensures b.0 <= b.1 <= |s|
    ensures forall i :: 0 <= i < b.0 ==> IsWhite(s[i])
    ensures forall i :: b.1 <= i < |s| ==> IsWhite(s[i])
    ensures b.0 < b.1 ==> !IsWhite(s[b.0]) && !IsWhite(s[b.1 - 1])
    ensures b.0 == b.1 ==> b.0 == |s|
  {
    var lo := LeadingWhite(s);
    if lo == |s| then (lo, lo) else (lo, TrailingWhiteStart(s))
  }

  /** `s.trim()` */
  function Trim(s: string): (r: string)
    ensures r == [] <==> AllWhite(s)
    ensures r != [] ==> !IsWhite(r[0]) && !IsWhite(r[|r| - 1])
  {
    var b := TrimBounds(s);
    assert b.0 < b.1 ==> !IsWhite(s[b.0]);
    s[b.0..b.1]
  }

  /** `trim` only removes white characters: the input is the trimmed text
      with its white margins put back. */
  lemma TrimDecomposes(s: string)
    ensures s == s[..TrimBounds(s).0] + Trim(s) + s[TrimBounds(s).1..]
    ensures AllWhite(s[..TrimBounds(s).0]) && AllWhite(s[TrimBounds(s).1..])
  {
  }

  /** `trim` finds its margins uniquely: white text wrapped around a string
      that begins and ends non-white trims back to that string. */
  lemma {:induction false} TrimOfPadded(w1: string, t: string, w2: string)
    requires AllWhite(w1) && AllWhite(w2)
    requires t != [] && !IsWhite(t[0]) && !IsWhite(t[|t| - 1])
    ensures Trim(w1 + t + w2) == t
  {
    var s := w1 + t + w2;
    LeadingWhiteOfPadded(w1, t + w2);
    assert (w1 + t) + w2 == s;
    TrailingWhiteStartOfPadded(w1 + t, w2);
    assert s[|w1|..|w1| + |t|] == t;
  }

  lemma {:induction false} LeadingWhiteOfPadded(w: string, u: string)
    requires AllWhite(w)
    requires u != [] && !IsWhite(u[0])
    ensures LeadingWhite(w + u) == |w|
    decreases |w|
  {
    if w != [] {
      assert (w + u)[1..] == w[1..] + u;
      LeadingWhiteOfPadded(w[1..], u);
    } else {
      assert w + u == u;
    }
  }

  lemma {:induction false} TrailingWhiteStartOfPadded(u: string, w: string)
    requires AllWhite(w)
    requires u != [] && !IsWhite(u[|u| - 1])
    ensures TrailingWhiteStart(u + w) == |u|
    decreases |w|
  {
    if w != [] {
      assert (u + w)[..|u + w| - 1] == u + w[..|w| - 1];
      TrailingWhiteStartOfPadded(u, w[..|w| - 1]);
    } else {
      assert u + w == u;
    }
  }

  /** Trimming twice is trimming once. */
  lemma TrimIdempotent(s: string)
    ensures Trim(Trim(s)) == Trim(s)
  {
    var t := Trim(s);
    if t != [] {
      assert [] + t + [] == t;
      TrimOfPadded([], t, []);
    }
  }

  lemma Concat3(a: string, b: string, c: string)
    ensures a + b + c == a + (b + c)
  {
  }

  lemma Concat4(a: string, b: string, c: string, d: string)
    ensures a + b + c + d == a + (b + (c + d))
  {
  }

  /** `s.split('\n')`: the pieces between newline characters, always at
      least one (the empty string splits into one empty piece). */
  function Split(s: string): (lines: seq<string>)
    ensures |lines| >= 1
    ensures forall i :: 0 <= i < |lines| ==> '\n' !in lines[i]
    decreases |s|
  {
    if s == [] then [[]]
    else
      var rest := Split(s[1..]);
      if s[0] == '\n' then [[]] + rest
      else [[s[0]] + rest[0]] + rest[1..]
  }

  /** `lines.join(sep)` */
  function Join(lines: seq<string>, sep: string): string
    requires |lines| >= 1
    decreases |lines|
  {
    if |lines| == 1 then lines[0] else lines[0] + sep + Join(lines[1..], sep)
  }

  lemma JoinConsFirst(c: char, first: string, rest: seq<string>, sep: string)
    ensures Join([[c] + first] + rest, sep) == [c] + Join([first] + rest, sep)
  {
    var a := [[c] + first] + rest;
    var b := [first] + rest;
    if rest != [] {
      assert a[1..] == rest && b[1..] == rest;
    }
  }

  /** Splitting on newlines loses nothing: joining the pieces with newlines
      gives back the text. */
  lemma {:induction false} JoinSplit(s: string)
    ensures Join(Split(s), "\n") == s
    decreases |s|
  {
    if s != [] {
      var rest := Split(s[1..]);
      JoinSplit(s[1..]);
      if s[0] == '\n' {
        assert ([[]] + rest)[1..] == rest;
      } else {
        assert rest == [rest[0]] + rest[1..];
        JoinConsFirst(s[0], rest[0], rest[1..], "\n");
        assert [s[0]] + s[1..] == s;
      }
    }
  }

  /** A text without newlines is one line. */
  lemma {:induction false} SplitSingleLine(a: string)
    requires '\n' !in a
    ensures Split(a) == [a]
    decreases |a|
  {
    if a != [] {
      assert '\n' !in a[1..];
      SplitSingleLine(a[1..]);
      assert [a[0]] + a[1..] == a;
    }
  }

  /** A newline ends the first line; the rest is split on its own. */
  lemma {:induction false} SplitFirstLine(a: string, b: string)
    requires '\n' !in a
    ensures Split(a + "\n" + b) == [a] + Split(b)
    decreases |a|
  {
    var s := a + "\n" + b;
    if a == [] {
      assert s[1..] == b;
    } else {
      assert s[1..] == a[1..] + "\n" + b;
      assert '\n' !in a[1..];
      SplitFirstLine(a[1..], b);
      assert [a[0]] + a[1..] == a;
    }
  }
}
