// The two regular expressions of the suggestion formatter, written out as
// scans over the string:
// - `/\*\*(.*?)\*\*/g` with replacement `<span class="sub-header">$1</span>`
//   (leftmost, shortest, global, non-overlapping), used on bullet text;
// - `/\*\*(.*)\*\*/` with replacement `<h4>$1</h4>` (leftmost, longest,
//   first occurrence only), used on whole-line-bold lines.
// In both, `.` matches any character except a line terminator.
module RegexScan {
  import opened JsText

  const SpanOpen: string := "<span class=\"sub-header\">"
  const SpanClose: string := "</span>"
  const HeadOpen: string := "<h4>"
  const HeadClose: string := "</h4>"

  /** `**` starts at position `m` of `s`. */
  predicate StarsAt(s: string, m: int) {
    0 <= m && m + 2 <= |s| && s[m] == '*' && s[m + 1] == '*'
  }

  /** `.*` can cover `s[lo..hi]`: no line terminator in it. */
  ghost predicate DotCovers(s: string, lo: int, hi: int)
    requires 0 <= lo <= hi <= |s|
  {
    forall j :: lo <= j < hi ==> !IsLineTerminator(s[j])
  }

  /** Where the lazy `(.*?)\*\*` that begins at `k` ends: the first `**` at or
      after `k` that `.` can reach, or nothing if a line terminator or the end
      of the string comes first. */
  function LazyClose(s: string, k: nat): (r: Option<nat>)
    requires k <= |s|
    ensures r.Some? ==> k <= r.value && StarsAt(s, r.value) && DotCovers(s, k, r.value)
    ensures r.Some? ==> forall m :: k <= m < r.value ==> !StarsAt(s, m)
    ensures r.None? ==> forall m :: k <= m && StarsAt(s, m) ==> !DotCovers(s, k, m)
    decreases |s| - k
  {
    if k + 2 > |s| then None
    else if s[k] == '*' && s[k + 1] == '*' then Some(k)
    else if IsLineTerminator(s[k]) then None
    else LazyClose(s, k + 1)
  }

  // `s.replace(/\*\*(.*?)\*\*/g, '<span class="sub-header">$1</span>')`:
  // the match is tried at each position from the left; after a match the
  // scan resumes behind its closing `**`.
  function SubHeaders(s: string): string
    decreases |s|
  {
    if |s| < 2 then s
    else if StarsAt(s, 0) && LazyClose(s, 2).Some? then
      var k := LazyClose(s, 2).value;
      SpanOpen + s[2..k] + SpanClose + SubHeaders(s[k + 2..])
    else [s[0]] + SubHeaders(s[1..])
  }

  /** Reads sub-header markup back into `**` markers; the reference used to
      state that the replacement only turns markers into tags. */
  function Unspan(s: string): string
    decreases |s|
  {
    if StartsWith(s, SpanOpen) then "**" + Unspan(s[|SpanOpen|..])
    else if StartsWith(s, SpanClose) then "**" + Unspan(s[|SpanClose|..])
    else if s == [] then []
    else [s[0]] + Unspan(s[1..])
  }

  /** A character other than `<` is read back as itself. */
  lemma UnspanChar(s: string)
    requires s != [] && s[0] != '<'
    ensures Unspan(s) == [s[0]] + Unspan(s[1..])
  {
    assert SpanOpen[0] == '<' && SpanClose[0] == '<';
    assert !StartsWith(s, SpanOpen) by {
      if |SpanOpen| <= |s| { assert s[..|SpanOpen|][0] == s[0]; }
    }
    assert !StartsWith(s, SpanClose) by {
      if |SpanClose| <= |s| { assert s[..|SpanClose|][0] == s[0]; }
    }
  }

  /** A tag at the front is read back as `**`. */
  lemma UnspanTag(tag: string, rest: string)
    requires tag == SpanOpen || tag == SpanClose
    ensures Unspan(tag + rest) == "**" + Unspan(rest)
  {
    var s := tag + rest;
    assert s[..|tag|] == tag;
    assert s[|tag|..] == rest;
    if tag == SpanClose {
      assert !StartsWith(s, SpanOpen) by {
        assert s[1] == '/';
        assert SpanOpen[1] == 's';
      }
    }
  }

  lemma {:induction false} UnspanPlain(a: string, rest: string)
    requires '<' !in a
    ensures Unspan(a + rest) == a + Unspan(rest)
    decreases |a|
  {
    if a != [] {
      var s := a + rest;
      UnspanChar(s);
      assert s[1..] == a[1..] + rest;
      UnspanPlain(a[1..], rest);
      Concat3([a[0]], a[1..], Unspan(rest));
      assert [a[0]] + a[1..] == a;
    } else {
      assert a + rest == rest;
    }
  }

  lemma UnspanSpan(g: string, rest: string)
    requires '<' !in g
    ensures Unspan(SpanOpen + g + SpanClose + rest) == "**" + g + "**" + Unspan(rest)
  {
    var tail := SpanClose + rest;
    Concat4(SpanOpen, g, SpanClose, rest);
    UnspanTag(SpanOpen, g + tail);
    UnspanPlain(g, tail);
    UnspanTag(SpanClose, rest);
    Concat4("**", g, "**", Unspan(rest));
  }

  /** The sub-header replacement is reversible: on text without `<`,
      reading the tags back as `**` restores the bullet text exactly, so
      nothing but matched marker pairs is changed. */
  lemma {:induction false} UnspanSubHeaders(s: string)
    requires '<' !in s
    ensures Unspan(SubHeaders(s)) == s
    decreases |s|
  {
    if |s| < 2 {
      UnspanPlain(s, []);
      assert s + [] == s;
    } else if StarsAt(s, 0) && LazyClose(s, 2).Some? {
      var k := LazyClose(s, 2).value;
      UnspanSubHeaders(s[k + 2..]);
      UnspanPairStep(s, k);
    } else {
      UnspanSubHeaders(s[1..]);
      UnspanPlainStep(s);
    }
  }

  /** A matched pair at the front is read back as itself. */
  lemma UnspanPairStep(s: string, k: nat)
    requires '<' !in s
    requires StarsAt(s, 0) && LazyClose(s, 2) == Some(k)
    requires Unspan(SubHeaders(s[k + 2..])) == s[k + 2..]
    ensures Unspan(SubHeaders(s)) == s
  {
    SubHeadersAtPair(s);
    NoLtInSlice(s, 2, k);
    UnspanSpan(s[2..k], SubHeaders(s[k + 2..]));
    PairParts(s, k);
  }

  lemma SubHeadersAtPair(s: string)
    requires StarsAt(s, 0) && LazyClose(s, 2).Some?
    ensures var k := LazyClose(s, 2).value;
            SubHeaders(s) == SpanOpen + s[2..k] + SpanClose + SubHeaders(s[k + 2..])
  {
  }

  lemma SubHeadersCopies(s: string)
    requires |s| >= 2 && !(StarsAt(s, 0) && LazyClose(s, 2).Some?)
    ensures SubHeaders(s) == [s[0]] + SubHeaders(s[1..])
  {
  }

  lemma NoLtInSlice(s: string, lo: nat, hi: nat)
    requires '<' !in s
    requires lo <= hi <= |s|
    ensures '<' !in s[lo..hi]
  {
    forall j | 0 <= j < hi - lo ensures s[lo..hi][j] != '<' {
      assert s[lo..hi][j] == s[lo + j];
    }
  }

  lemma PairParts(s: string, k: nat)
    requires StarsAt(s, 0) && 2 <= k && StarsAt(s, k)
    ensures s == "**" + s[2..k] + "**" + s[k + 2..]
  {
    assert s[..2] == "**";
    assert s[k..k + 2] == "**";
    assert s[..k] == s[..2] + s[2..k];
    assert s[..k + 2] == s[..k] + s[k..k + 2];
    assert s == s[..k + 2] + s[k + 2..];
  }

  /** A character copied unchanged is read back as itself. */
  lemma UnspanPlainStep(s: string)
    requires '<' !in s
    requires |s| >= 2 && !(StarsAt(s, 0) && LazyClose(s, 2).Some?)
    requires Unspan(SubHeaders(s[1..])) == s[1..]
    ensures Unspan(SubHeaders(s)) == s
  {
    SubHeadersCopies(s);
    assert '<' !in [s[0]];
    UnspanPlain([s[0]], SubHeaders(s[1..]));
    assert [s[0]] + s[1..] == s;
  }

  /** Bullet text with no `**` pair that `.` can join is emitted as it is;
      in particular a lone or trailing `**` stays literal. */
  lemma {:induction false} SubHeadersWithoutPair(s: string)
    requires forall i, m :: 0 <= i && i + 2 <= m && StarsAt(s, i) && StarsAt(s, m) ==> !DotCovers(s, i + 2, m)
    ensures SubHeaders(s) == s
    decreases |s|
  {
    if |s| >= 2 {
      assert LazyClose(s, 2).Some? ==> !StarsAt(s, 0);
      var t := s[1..];
      forall i, m | 0 <= i && i + 2 <= m && StarsAt(t, i) && StarsAt(t, m)
        ensures !DotCovers(t, i + 2, m)
      {
        assert StarsAt(s, i + 1) && StarsAt(s, m + 1);
        assert !DotCovers(s, i + 3, m + 1);
      }
      SubHeadersWithoutPair(t);
    }
  }

  /** Text free of `*` passes through the replacement unchanged and does
      not affect how the rest is matched. */
  lemma {:induction false} SubHeadersStarFreePrefix(a: string, rest: string)
    requires '*' !in a
    ensures SubHeaders(a + rest) == a + SubHeaders(rest)
    decreases |a|
  {
    if a != [] {
      var s := a + rest;
      assert s[0] == a[0] && !StarsAt(s, 0);
      if |s| < 2 {
        assert rest == [] && s == a;
        assert SubHeaders(rest) == [];
      } else {
        assert s[1..] == a[1..] + rest;
      }
      SubHeadersStarFreePrefix(a[1..], rest);
      assert [a[0]] + a[1..] == a;
    } else {
      assert a + rest == rest;
    }
  }

  /** A `**X**` pair at the front, with no `*` and no line terminator in X,
      becomes one sub-header span around X. */
  lemma SubHeadersLeadingPair(x: string, rest: string)
    requires '*' !in x
    requires forall j :: 0 <= j < |x| ==> !IsLineTerminator(x[j])
    ensures SubHeaders("**" + x + "**" + rest) == SpanOpen + x + SpanClose + SubHeaders(rest)
  {
    var s := "**" + x + "**" + rest;
    var k := 2 + |x|;
    assert StarsAt(s, k) && DotCovers(s, 2, k);
    assert forall m :: 2 <= m < k ==> !StarsAt(s, m) by {
      forall m | 2 <= m < k ensures !StarsAt(s, m) {
        assert s[m] == x[m - 2];
      }
    }
    assert LazyClose(s, 2) == Some(k);
    assert s[2..k] == x && s[k + 2..] == rest;
  }

  /** Index of the first line terminator at or after `k`, or `|s|`. */
  function LineEnd(s: string, k: nat): (e: nat)
    requires k <= |s|
    ensures k <= e <= |s|
    ensures DotCovers(s, k, e)
    ensures e < |s| ==> IsLineTerminator(s[e])
    decreases |s| - k
  {
    if k == |s| || IsLineTerminator(s[k]) then k else LineEnd(s, k + 1)
  }

  /** The last `**` that starts at or after `lo` and ends by `hi`. */
  function LastStars(s: string, lo: nat, hi: nat): (r: Option<nat>)
    requires lo <= hi <= |s|
    ensures r.Some? ==> lo <= r.value && r.value + 2 <= hi && StarsAt(s, r.value)
    ensures r.Some? ==> forall m :: r.value < m && m + 2 <= hi ==> !StarsAt(s, m)
    ensures r.None? ==> forall m :: lo <= m && m + 2 <= hi ==> !StarsAt(s, m)
    decreases hi
  {
    if hi < lo + 2 then None
    else if StarsAt(s, hi - 2) then Some(hi - 2)
    else LastStars(s, lo, hi - 1)
  }

  /** Where the greedy `(.*)\*\*` that begins at `k` ends: `.*` first runs to
      the line's end, then backs off to the last `**` it can reach. */
  function GreedyClose(s: string, k: nat): (r: Option<nat>)
    requires k <= |s|
    ensures r.Some? ==> k <= r.value && StarsAt(s, r.value) && DotCovers(s, k, r.value)
    ensures r.Some? ==> forall m :: r.value < m && StarsAt(s, m) ==> !DotCovers(s, k, m)
    ensures r.None? ==> forall m :: k <= m && StarsAt(s, m) ==> !DotCovers(s, k, m)
  {
    var e := LineEnd(s, k);
    var r := LastStars(s, k, e);
    forall m | k <= m && StarsAt(s, m) && DotCovers(s, k, m)
      ensures m + 2 <= e
    {
      if e < |s| {
        assert e != m && e != m + 1;
      }
    }
    r
  }

  // `s.replace(/\*\*(.*)\*\*/, '<h4>$1</h4>')`: only the leftmost match is
  // replaced; with no match the text is returned unchanged.
  function ReplaceHeader(s: string): string
    decreases |s|
  {
    if |s| < 2 then s
    else if StarsAt(s, 0) && GreedyClose(s, 2).Some? then
      var m := GreedyClose(s, 2).value;
      HeadOpen + s[2..m] + HeadClose + s[m + 2..]
    else [s[0]] + ReplaceHeader(s[1..])
  }

  lemma ReplaceHeaderCopies(s: string)
    requires |s| >= 2 && !(StarsAt(s, 0) && GreedyClose(s, 2).Some?)
    ensures ReplaceHeader(s) == [s[0]] + ReplaceHeader(s[1..])
  {
  }

  lemma {:induction false} ReplaceHeaderStarFreePrefix(a: string, rest: string)
    requires '*' !in a
    ensures ReplaceHeader(a + rest) == a + ReplaceHeader(rest)
    decreases |a|
  {
    if a != [] {
      var s := a + rest;
      assert s[0] == a[0] && !StarsAt(s, 0);
      if |s| < 2 {
        assert rest == [] && s == a;
        assert ReplaceHeader(rest) == [];
      } else {
        ReplaceHeaderCopies(s);
        assert s[1..] == a[1..] + rest;
        ReplaceHeaderStarFreePrefix(a[1..], rest);
        Concat3([a[0]], a[1..], ReplaceHeader(rest));
        assert [a[0]] + a[1..] == a;
      }
    } else {
      assert a + rest == rest;
    }
  }

  // `^\*\*.*\*\*$` on the trimmed line: at least four characters, `**` at
  // both ends and no line terminator in between.
  predicate IsWholeLineBold(t: string) {
    |t| >= 4 && StarsAt(t, 0) && StarsAt(t, |t| - 2)
    && forall j :: 2 <= j < |t| - 2 ==> !IsLineTerminator(t[j])
  }
}
