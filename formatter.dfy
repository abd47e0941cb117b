/** `formatSuggestions` of sidepanel.js: turns the text of a "suggest"
    response into HTML, one line at a time, remembering only whether a
    `<ul>` is open.

    The specification is stated on pieces rather than on the HTML string:
    `ScanLines` folds `Step` over the lines and yields the pieces emitted so
    far and the list flag; `Tokens` closes a list left open; `Render` turns
    pieces into markup. The method `FormatSuggestions` builds the string in a
    loop the way the source does and is proved to produce `Render(Tokens(..))`.
    Properties of the output structure (balanced lists, order of the items,
    how many lists) are lemmas about `Tokens`. */
module SuggestionFormatter {
  import opened JsText
  import opened RegexScan

  /** One fragment the formatter appends to its output. */
  datatype Piece =
    | ListOpen
    | ListClose
      /** a bullet: the trimmed line without its leading "* " */
    | Item(text: string)
      /** a whole-line-bold line: its white margins and the text between the
          outer `**` markers */
    | Heading(lead: string, inner: string, trail: string)
      /** any other non-blank line, untrimmed */
    | Paragraph(line: string)

  function RenderPiece(p: Piece): string {
    match p
    case ListOpen => "<ul>"
    case ListClose => "</ul>"
    case Item(text) => "<li>" + SubHeaders(text) + "</li>"
    case Heading(lead, inner, trail) => lead + HeadOpen + inner + HeadClose + trail
    case Paragraph(line) => "<p>" + line + "</p>"
  }

  /** The markup of a sequence of pieces, in order. */
  function Render(ps: seq<Piece>): string
    decreases |ps|
  {
    if ps == [] then "" else Render(ps[..|ps| - 1]) + RenderPiece(ps[|ps| - 1])
  }

  /** Line 123: the trimmed line begins with "* ". */
  predicate IsBullet(line: string) {
    StartsWith(Trim(line), "* ")
  }

  /** What a non-bullet line contributes after any open list is closed
      (lines 141-146): a heading, a paragraph, or nothing when blank. */
  function Block(line: string): (r: seq<Piece>)
    ensures |r| <= 1
    ensures r == [] <==> AllWhite(line)
    ensures forall p | p in r :: p.Heading? || p.Paragraph?
  {
    var t := Trim(line);
    if IsWholeLineBold(t) then
      var b := TrimBounds(line);
      [Heading(line[..b.0], t[2..|t| - 2], line[b.1..])]
    else if t != [] then [Paragraph(line)]
    else []
  }

  /** The formatter's state between two lines: what it has emitted, and
      whether a list is open. */
  datatype Scanned = Scanned(pieces: seq<Piece>, inList: bool)

  /** One pass of the `forEach` body (lines 122-147). */
  function Step(st: Scanned, line: string): Scanned {
    if IsBullet(line) then
      Scanned(st.pieces + (if st.inList then [] else [ListOpen]) + [Item(Trim(line)[2..])], true)
    else
      Scanned(st.pieces + (if st.inList then [ListClose] else []) + Block(line), false)
  }

  /** The state after the given lines, starting from nothing emitted and no
      list open (lines 118-119). */
  function ScanLines(lines: seq<string>): Scanned
    decreases |lines|
  {
    if lines == [] then Scanned([], false)
    else Step(ScanLines(lines[..|lines| - 1]), lines[|lines| - 1])
  }

  /** All pieces, with a list still open at the end closed (lines 151-153). */
  function Tokens(lines: seq<string>): seq<Piece> {
    var st := ScanLines(lines);
    st.pieces + (if st.inList then [ListClose] else [])
  }

  /** The markup `formatSuggestions(text)` returns. */
  function Format(text: string): string {
    Render(Tokens(Split(text)))
  }

  /** `formatSuggestions`, as the source writes it: split into lines, then
      one loop that appends to `formatted` and toggles `inList`. */
  method FormatSuggestions(text: string) returns (formatted: string)
    ensures formatted == Format(text)
  {
    var lines := Split(text);
    formatted := "";
    var inList := false;
    ghost var st := Scanned([], false);
    var i := 0;
    while i < |lines|
      invariant 0 <= i <= |lines|
      invariant st == ScanLines(lines[..i])
      invariant formatted == Render(st.pieces) && inList == st.inList
    {
      var line := lines[i];
      ScanLinesNext(lines, i);
      var t := Trim(line);
      if StartsWith(t, "* ") {
        StepRenderBullet(st, line);
        if !inList {
          formatted := formatted + "<ul>";
          inList := true;
        }
        var listContent := t[2..];
        listContent := SubHeaders(listContent);
        formatted := formatted + "<li>" + listContent + "</li>";
      } else {
        StepRenderOther(st, line);
        if inList {
          formatted := formatted + "</ul>";
          inList := false;
        }
        if IsWholeLineBold(t) {
          formatted := formatted + ReplaceHeader(line);
        } else if t != [] {
          formatted := formatted + "<p>" + line + "</p>";
        }
      }
      st := Step(st, line);
      i := i + 1;
    }
    assert lines[..i] == lines;
    if inList {
      formatted := formatted + "</ul>";
    }
    TokensRender(lines);
  }

  lemma ScanLinesNext(lines: seq<string>, i: nat)
    requires i < |lines|
    ensures ScanLines(lines[..i + 1]) == Step(ScanLines(lines[..i]), lines[i])
  {
    assert lines[..i + 1][..i] == lines[..i];
  }

  lemma RenderSnoc(ps: seq<Piece>, p: Piece)
    ensures Render(ps + [p]) == Render(ps) + RenderPiece(p)
  {
    assert (ps + [p])[..|ps|] == ps;
  }

  /** What a bullet line appends to the markup: `<ul>` unless a list is
      open, then the item (lines 123-132). */
  lemma StepRenderBullet(st: Scanned, line: string)
    requires IsBullet(line)
    ensures st.inList ==> Render(Step(st, line).pieces)
                          == Render(st.pieces) + "<li>" + SubHeaders(Trim(line)[2..]) + "</li>"
    ensures !st.inList ==> Render(Step(st, line).pieces)
                           == Render(st.pieces) + "<ul>" + "<li>" + SubHeaders(Trim(line)[2..]) + "</li>"
    ensures Step(st, line).inList
  {
    var item := Item(Trim(line)[2..]);
    var before := Render(st.pieces);
    if st.inList {
      assert Step(st, line).pieces == st.pieces + [item];
      RenderSnoc(st.pieces, item);
      ConcatTail3(before, "<li>", SubHeaders(Trim(line)[2..]), "</li>");
    } else {
      assert Step(st, line).pieces == (st.pieces + [ListOpen]) + [item];
      RenderSnoc(st.pieces, ListOpen);
      RenderSnoc(st.pieces + [ListOpen], item);
      ConcatTail3(before + "<ul>", "<li>", SubHeaders(Trim(line)[2..]), "</li>");
    }
  }

  /** What any other line appends to the markup: `</ul>` first when a
      list is open, blank lines included, then its heading, its paragraph
      or nothing (lines 133-146). */
  lemma StepRenderOther(st: Scanned, line: string)
    requires !IsBullet(line)
    ensures !Step(st, line).inList
    ensures var closed := if st.inList then Render(st.pieces) + "</ul>" else Render(st.pieces);
            var t := Trim(line);
            && (IsWholeLineBold(t) ==> Render(Step(st, line).pieces) == closed + ReplaceHeader(line))
            && (!IsWholeLineBold(t) && t != [] ==>
                  Render(Step(st, line).pieces) == closed + "<p>" + line + "</p>")
            && (t == [] ==> Render(Step(st, line).pieces) == closed)
  {
    var closing: seq<Piece> := if st.inList then [ListClose] else [];
    assert Step(st, line).pieces == (st.pieces + closing) + Block(line);
    if st.inList {
      RenderSnoc(st.pieces, ListClose);
    } else {
      assert st.pieces + closing == st.pieces;
    }
    RenderBlock(st.pieces + closing, line);
  }


  /** What a non-bullet line appends once any list is closed: the heading
      from the line-142 replacement, a paragraph, or nothing (lines 141-146). */
  lemma RenderBlock(ps: seq<Piece>, line: string)
    ensures IsWholeLineBold(Trim(line)) ==> Render(ps + Block(line)) == Render(ps) + ReplaceHeader(line)
    ensures !IsWholeLineBold(Trim(line)) && Trim(line) != [] ==>
              Render(ps + Block(line)) == Render(ps) + "<p>" + line + "</p>"
    ensures Trim(line) == [] ==> Render(ps + Block(line)) == Render(ps)
  {
    var t := Trim(line);
    if IsWholeLineBold(t) {
      BoldLineBlock(line);
      WholeLineBoldHeading(line);
      RenderSnoc(ps, Block(line)[0]);
    } else if t != [] {
      RenderSnoc(ps, Paragraph(line));
      ConcatTail3(Render(ps), "<p>", line, "</p>");
    } else {
      assert ps + [] == ps;
    }
  }

  lemma TokensRender(lines: seq<string>)
    ensures Render(Tokens(lines))
         == Render(ScanLines(lines).pieces) + (if ScanLines(lines).inList then "</ul>" else "")
  {
    var st := ScanLines(lines);
    if st.inList {
      RenderSnoc(st.pieces, ListClose);
    } else {
      assert st.pieces + [] == st.pieces;
    }
  }

  /** On a bold line followed only by white characters, the greedy `.*`
      backs off to the line's last `**`. */
  lemma GreedyCloseAtEnd(t: string, w: string)
    requires IsWholeLineBold(t)
    requires AllWhite(w)
    ensures GreedyClose(t + w, 2) == Some(|t| - 2)
  {
    var u := t + w;
    var m0 := |t| - 2;
    assert StarsAt(u, m0);
    assert DotCovers(u, 2, m0) by {
      forall j | 2 <= j < m0 ensures !IsLineTerminator(u[j]) {
        assert u[j] == t[j];
      }
    }
    var m := GreedyClose(u, 2).value;
    assert m >= m0;
  }

  /** A whole-line-bold line yields one heading and no paragraph. */
  lemma BoldLineBlock(line: string)
    requires IsWholeLineBold(Trim(line))
    ensures Block(line) == [Heading(line[..TrimBounds(line).0], Trim(line)[2..|Trim(line)| - 2], line[TrimBounds(line).1..])]
  {
  }

  /** Line 142 on a bold line with only white characters after it. */
  lemma ReplaceHeaderAtBold(t: string, trail: string)
    requires IsWholeLineBold(t)
    requires AllWhite(trail)
    ensures ReplaceHeader(t + trail) == HeadOpen + t[2..|t| - 2] + HeadClose + trail
  {
    var u := t + trail;
    var n := |t|;
    GreedyCloseAtEnd(t, trail);
    assert StarsAt(u, 0);
    assert u[2..n - 2] == t[2..n - 2];
    assert u[n..] == trail;
  }

  lemma LeadHasNoStar(line: string)
    ensures '*' !in line[..TrimBounds(line).0]
  {
    var lead := line[..TrimBounds(line).0];
    forall j | 0 <= j < |lead| ensures lead[j] != '*' {
      assert IsWhite(line[j]);
    }
  }

  /** Line 142 on a whole-line-bold line: the greedy replacement spans from
      the first `**` to the last, the text between them becomes the heading,
      and the line's white margins are kept. */
  lemma WholeLineBoldHeading(line: string)
    requires IsWholeLineBold(Trim(line))
    ensures ReplaceHeader(line)
         == line[..TrimBounds(line).0] + HeadOpen + Trim(line)[2..|Trim(line)| - 2] + HeadClose
            + line[TrimBounds(line).1..]
  {
    TrimDecomposes(line);
    LeadHasNoStar(line);
    ReplaceHeaderPadded(line[..TrimBounds(line).0], Trim(line), line[TrimBounds(line).1..]);
  }

  /** The same, for a bold text between a star-free lead and a white trail. */
  lemma ReplaceHeaderPadded(lead: string, t: string, trail: string)
    requires '*' !in lead
    requires IsWholeLineBold(t)
    requires AllWhite(trail)
    ensures ReplaceHeader(lead + t + trail) == lead + HeadOpen + t[2..|t| - 2] + HeadClose + trail
  {
    Concat3(lead, t, trail);
    ReplaceHeaderStarFreePrefix(lead, t + trail);
    ReplaceHeaderAtBold(t, trail);
    Concat5(lead, HeadOpen, t[2..|t| - 2], HeadClose, trail);
  }

  lemma ConcatTail3(a: string, b: string, c: string, d: string)
    ensures a + (b + c + d) == a + b + c + d
  {
  }

  lemma Concat5(a: string, b: string, c: string, d: string, e: string)
    ensures a + (b + c + d + e) == a + b + c + d + e
  {
  }

  // ---------------------------------------------------------------------
  // Lists are balanced and never nest (lines 119-127, 133-138, 151-153).

  /** Where a reader of the pieces stands: outside any list, just after a
      `<ul>`, or inside a list that has at least one item. */
  datatype Mode = Outside | JustOpened | InsideList

  function Next(m: Mode, p: Piece): Option<Mode> {
    match (m, p)
    case (Outside, ListOpen) => Some(JustOpened)
    case (Outside, Heading(_, _, _)) => Some(Outside)
    case (Outside, Paragraph(_)) => Some(Outside)
    case (JustOpened, Item(_)) => Some(InsideList)
    case (InsideList, Item(_)) => Some(InsideList)
    case (InsideList, ListClose) => Some(Outside)
    case _ => None
  }

  /** Reads the pieces left to right; `None` when a piece appears where the
      list grammar does not allow it. */
  function Walk(ps: seq<Piece>): Option<Mode>
    decreases |ps|
  {
    if ps == [] then Some(Outside)
    else match Walk(ps[..|ps| - 1])
      case None => None
      case Some(m) => Next(m, ps[|ps| - 1])
  }

  /** Every `<ul>` is followed by one or more items and exactly one `</ul>`
      before anything else; items occur only inside lists; headings and
      paragraphs only outside; nothing is left open at the end. */
  predicate Balanced(ps: seq<Piece>) {
    Walk(ps) == Some(Outside)
  }

  lemma WalkSnoc(ps: seq<Piece>, p: Piece)
    ensures Walk(ps + [p]) == (match Walk(ps) case None => None case Some(m) => Next(m, p))
  {
    assert (ps + [p])[..|ps|] == ps;
  }

  lemma {:induction false} WalkBlock(ps: seq<Piece>, line: string)
    requires Walk(ps) == Some(Outside)
    ensures Walk(ps + Block(line)) == Some(Outside)
  {
    var blk := Block(line);
    if blk == [] {
      assert ps + blk == ps;
    } else {
      WalkSnoc(ps, blk[0]);
      assert ps + blk == ps + [blk[0]];
    }
  }

  /** While scanning, the pieces so far are well formed and the reader is
      inside a list exactly when the formatter's flag says so. */
  lemma {:induction false} ScanLinesWalk(lines: seq<string>)
    ensures Walk(ScanLines(lines).pieces) == Some(if ScanLines(lines).inList then InsideList else Outside)
    decreases |lines|
  {
    if lines != [] {
      var init := lines[..|lines| - 1];
      var line := lines[|lines| - 1];
      var st := ScanLines(init);
      ScanLinesWalk(init);
      if IsBullet(line) {
        var item := Item(Trim(line)[2..]);
        if st.inList {
          WalkSnoc(st.pieces, item);
          assert st.pieces + [] + [item] == st.pieces + [item];
        } else {
          WalkSnoc(st.pieces, ListOpen);
          WalkSnoc(st.pieces + [ListOpen], item);
        }
      } else {
        if st.inList {
          WalkSnoc(st.pieces, ListClose);
          WalkBlock(st.pieces + [ListClose], line);
        } else {
          assert st.pieces + [] == st.pieces;
          WalkBlock(st.pieces, line);
        }
      }
    }
  }

  /** The formatter's output is balanced for every input. */
  lemma TokensBalanced(lines: seq<string>)
    ensures Balanced(Tokens(lines))
  {
    var st := ScanLines(lines);
    ScanLinesWalk(lines);
    if st.inList {
      WalkSnoc(st.pieces, ListClose);
    } else {
      assert st.pieces + [] == st.pieces;
    }
  }

  // ---------------------------------------------------------------------
  // Items keep the bullet lines' text and order (lines 123, 129-132).

  /** The texts of the items, in order. */
  function ItemTexts(ps: seq<Piece>): seq<string>
    decreases |ps|
  {
    if ps == [] then []
    else ItemTexts(ps[..|ps| - 1]) + (if ps[|ps| - 1].Item? then [ps[|ps| - 1].text] else [])
  }

  /** Each bullet line's trimmed text without its "* ", in order. */
  function BulletTexts(lines: seq<string>): seq<string>
    decreases |lines|
  {
    if lines == [] then []
    else
      var line := lines[|lines| - 1];
      BulletTexts(lines[..|lines| - 1]) + (if IsBullet(line) then [Trim(line)[2..]] else [])
  }

  lemma {:induction false} ItemTextsAppend(a: seq<Piece>, b: seq<Piece>)
    ensures ItemTexts(a + b) == ItemTexts(a) + ItemTexts(b)
    decreases |b|
  {
    if b == [] {
      assert a + b == a;
    } else {
      var c := a + b;
      assert c[..|c| - 1] == a + b[..|b| - 1];
      ItemTextsAppend(a, b[..|b| - 1]);
    }
  }

  lemma ItemTextsBlock(line: string)
    ensures ItemTexts(Block(line)) == []
  {
    var blk := Block(line);
    if blk != [] {
      assert blk[..0] == [];
    }
  }

  /** One line adds its text to the items exactly when it is a bullet. */
  lemma StepItems(st: Scanned, line: string)
    ensures ItemTexts(Step(st, line).pieces)
         == ItemTexts(st.pieces) + (if IsBullet(line) then [Trim(line)[2..]] else [])
  {
    if IsBullet(line) {
      StepItemsBullet(st, line);
    } else {
      StepItemsOther(st, line);
    }
  }

  lemma ItemTextsSnoc(ps: seq<Piece>, p: Piece)
    ensures ItemTexts(ps + [p]) == ItemTexts(ps) + (if p.Item? then [p.text] else [])
  {
    assert (ps + [p])[..|ps|] == ps;
  }

  lemma StepItemsBullet(st: Scanned, line: string)
    requires IsBullet(line)
    ensures ItemTexts(Step(st, line).pieces) == ItemTexts(st.pieces) + [Trim(line)[2..]]
  {
    var item := Item(Trim(line)[2..]);
    if st.inList {
      assert Step(st, line).pieces == st.pieces + [item];
      ItemTextsSnoc(st.pieces, item);
    } else {
      assert Step(st, line).pieces == (st.pieces + [ListOpen]) + [item];
      ItemTextsSnoc(st.pieces, ListOpen);
      assert ItemTexts(st.pieces + [ListOpen]) == ItemTexts(st.pieces);
      ItemTextsSnoc(st.pieces + [ListOpen], item);
    }
  }

  lemma StepItemsOther(st: Scanned, line: string)
    requires !IsBullet(line)
    ensures ItemTexts(Step(st, line).pieces) == ItemTexts(st.pieces)
  {
    var closing: seq<Piece> := if st.inList then [ListClose] else [];
    assert Step(st, line).pieces == (st.pieces + closing) + Block(line);
    ItemTextsAppend(st.pieces + closing, Block(line));
    ItemTextsBlock(line);
    if st.inList {
      assert (st.pieces + [ListClose])[..|st.pieces|] == st.pieces;
      assert ItemTexts(st.pieces + [ListClose]) == ItemTexts(st.pieces) + [];
    } else {
      assert st.pieces + [] == st.pieces;
    }
    assert ItemTexts(st.pieces + closing) + [] == ItemTexts(st.pieces + closing);
  }

  lemma {:induction false} ScanLinesItems(lines: seq<string>)
    ensures ItemTexts(ScanLines(lines).pieces) == BulletTexts(lines)
    decreases |lines|
  {
    if lines != [] {
      var init := lines[..|lines| - 1];
      ScanLinesItems(init);
      StepItems(ScanLines(init), lines[|lines| - 1]);
    }
  }

  /** One `<li>` per bullet line, carrying that line's text, in input
      order; no other line yields an item. */
  lemma TokensItems(lines: seq<string>)
    ensures ItemTexts(Tokens(lines)) == BulletTexts(lines)
    ensures |ItemTexts(Tokens(lines))| == |BulletTexts(lines)|
  {
    var st := ScanLines(lines);
    ScanLinesItems(lines);
    var closing: seq<Piece> := if st.inList then [ListClose] else [];
    ItemTextsAppend(st.pieces, closing);
    if st.inList {
      assert [ListClose][..0] == [];
    }
  }

  // ---------------------------------------------------------------------
  // Any non-bullet line closes the list, blank lines included
  // (lines 133-138): there is one list per maximal run of bullet lines.

  function CountOpens(ps: seq<Piece>): nat
    decreases |ps|
  {
    if ps == [] then 0
    else CountOpens(ps[..|ps| - 1]) + (if ps[|ps| - 1] == ListOpen then 1 else 0)
  }

  /** Number of bullet lines whose previous line is absent or not a bullet. */
  function BulletRuns(lines: seq<string>): nat
    decreases |lines|
  {
    if lines == [] then 0
    else
      var init := lines[..|lines| - 1];
      var starts := IsBullet(lines[|lines| - 1]) && (init == [] || !IsBullet(init[|init| - 1]));
      BulletRuns(init) + (if starts then 1 else 0)
  }

  lemma {:induction false} CountOpensAppend(a: seq<Piece>, b: seq<Piece>)
    ensures CountOpens(a + b) == CountOpens(a) + CountOpens(b)
    decreases |b|
  {
    if b == [] {
      assert a + b == a;
    } else {
      var c := a + b;
      assert c[..|c| - 1] == a + b[..|b| - 1];
      CountOpensAppend(a, b[..|b| - 1]);
    }
  }

  lemma CountOpensBlock(line: string)
    ensures CountOpens(Block(line)) == 0
  {
    var blk := Block(line);
    if blk != [] {
      assert blk[..0] == [];
    }
  }

  /** One line opens a list exactly when it is a bullet and no list is
      open; afterwards a list is open exactly when the line was a bullet. */
  lemma StepOpens(st: Scanned, line: string)
    ensures Step(st, line).inList == IsBullet(line)
    ensures CountOpens(Step(st, line).pieces)
         == CountOpens(st.pieces) + (if IsBullet(line) && !st.inList then 1 else 0)
  {
    if IsBullet(line) {
      StepOpensBullet(st, line);
    } else {
      StepOpensOther(st, line);
    }
  }

  lemma CountOpensSnoc(ps: seq<Piece>, p: Piece)
    ensures CountOpens(ps + [p]) == CountOpens(ps) + (if p == ListOpen then 1 else 0)
  {
    assert (ps + [p])[..|ps|] == ps;
  }

  lemma StepOpensBullet(st: Scanned, line: string)
    requires IsBullet(line)
    ensures CountOpens(Step(st, line).pieces) == CountOpens(st.pieces) + (if st.inList then 0 else 1)
  {
    var item := Item(Trim(line)[2..]);
    if st.inList {
      assert Step(st, line).pieces == st.pieces + [item];
      CountOpensSnoc(st.pieces, item);
    } else {
      assert Step(st, line).pieces == (st.pieces + [ListOpen]) + [item];
      CountOpensSnoc(st.pieces, ListOpen);
      CountOpensSnoc(st.pieces + [ListOpen], item);
    }
  }

  lemma StepOpensOther(st: Scanned, line: string)
    requires !IsBullet(line)
    ensures CountOpens(Step(st, line).pieces) == CountOpens(st.pieces)
  {
    var closing: seq<Piece> := if st.inList then [ListClose] else [];
    assert Step(st, line).pieces == (st.pieces + closing) + Block(line);
    CountOpensAppend(st.pieces + closing, Block(line));
    CountOpensBlock(line);
    if st.inList {
      assert (st.pieces + [ListClose])[..|st.pieces|] == st.pieces;
    } else {
      assert st.pieces + [] == st.pieces;
    }
  }

  lemma {:induction false} ScanLinesOpens(lines: seq<string>)
    ensures ScanLines(lines).inList <==> lines != [] && IsBullet(lines[|lines| - 1])
    ensures CountOpens(ScanLines(lines).pieces) == BulletRuns(lines)
    decreases |lines|
  {
    if lines != [] {
      var init := lines[..|lines| - 1];
      ScanLinesOpens(init);
      StepOpens(ScanLines(init), lines[|lines| - 1]);
    }
  }

  /** The output opens one list per run of consecutive bullet lines, so a
      blank line between two bullets starts a second list. */
  lemma TokensLists(lines: seq<string>)
    ensures CountOpens(Tokens(lines)) == BulletRuns(lines)
  {
    var st := ScanLines(lines);
    ScanLinesOpens(lines);
    var closing: seq<Piece> := if st.inList then [ListClose] else [];
    CountOpensAppend(st.pieces, closing);
    if st.inList {
      assert [ListClose][..0] == [];
    }
  }
}
