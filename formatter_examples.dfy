/** Worked inputs for `formatSuggestions`, each stated on the model's
    specification: the lines `Split` yields, then the pieces `Tokens` emits
    for them. */
module FormatterExamples {
  import opened JsText
  import opened RegexScan
  import opened SuggestionFormatter

  lemma TrimPlain(s: string)
    requires s != [] && !IsWhite(s[0]) && !IsWhite(s[|s| - 1])
    ensures Trim(s) == s
  {
    assert [] + s + [] == s;
    TrimOfPadded([], s, []);
  }

  /** A line without white margins that starts with "* " is a bullet whose
      item text is the rest of the line. */
  lemma BulletLine(line: string)
    requires |line| >= 3 && line[0] == '*' && line[1] == ' ' && !IsWhite(line[|line| - 1])
    ensures IsBullet(line) && Trim(line)[2..] == line[2..]
  {
    TrimPlain(line);
  }

  /** A line without white margins that does not start with `*` is a
      paragraph. */
  lemma ProseLine(line: string)
    requires line != [] && line[0] != '*' && !IsWhite(line[0]) && !IsWhite(line[|line| - 1])
    ensures !IsBullet(line) && Block(line) == [Paragraph(line)]
  {
    TrimPlain(line);
  }

  lemma BlankLine()
    ensures !IsBullet("") && Block("") == []
  {
  }

  lemma OneLine(a: string)
    ensures ScanLines([a]) == Step(Scanned([], false), a)
  {
    assert [a][..0] == [];
  }

  lemma TwoLines(a: string, b: string)
    ensures ScanLines([a, b]) == Step(Step(Scanned([], false), a), b)
  {
    assert [a, b][..1] == [a];
    OneLine(a);
  }

  lemma ThreeLines(a: string, b: string, c: string)
    ensures ScanLines([a, b, c]) == Step(Step(Step(Scanned([], false), a), b), c)
  {
    assert [a, b, c][..2] == [a, b];
    TwoLines(a, b);
  }

  /** The empty response formats to nothing (lines 117-121, 155). */
  lemma FormatEmpty()
    ensures Format("") == ""
  {
    assert Split("") == [""];
    assert ScanLines([""]) == Step(Scanned([], false), "");
  }

  lemma SplitThreeLines()
    ensures Split("* a\n\n* b") == ["* a", "", "* b"]
  {
    SplitSingleLine("* b");
    SplitFirstLine("", "* b");
    assert "" + "\n" + "* b" == "\n* b";
    SplitFirstLine("* a", "\n* b");
    assert "* a" + "\n" + "\n* b" == "* a\n\n* b";
  }

  /** A blank line between two bullets closes the first list. */
  lemma BlankLineSplitsList()
    ensures Tokens(["* a", "", "* b"]) == [ListOpen, Item("a"), ListClose, ListOpen, Item("b"), ListClose]
  {
    BulletLine("* a");
    BulletLine("* b");
    BlankLine();
    ThreeLines("* a", "", "* b");
    var s1 := Step(Scanned([], false), "* a");
    assert s1 == Scanned([ListOpen, Item("a")], true);
    var s2 := Step(s1, "");
    assert s2 == Scanned([ListOpen, Item("a"), ListClose], false);
    var s3 := Step(s2, "* b");
    assert s3 == Scanned([ListOpen, Item("a"), ListClose, ListOpen, Item("b")], true);
  }

  /** `formatSuggestions("* a\n\n* b")` emits two lists. */
  lemma FormatBlankLineBetweenBullets()
    ensures Tokens(Split("* a\n\n* b")) == [ListOpen, Item("a"), ListClose, ListOpen, Item("b"), ListClose]
  {
    SplitThreeLines();
    BlankLineSplitsList();
  }

  lemma SplitTwoBullets()
    ensures Split("* a\n* b") == ["* a", "* b"]
  {
    SplitSingleLine("* b");
    SplitFirstLine("* a", "* b");
    assert "* a" + "\n" + "* b" == "* a\n* b";
  }

  lemma TwoBulletsOneList()
    ensures Tokens(["* a", "* b"]) == [ListOpen, Item("a"), Item("b"), ListClose]
  {
    BulletLine("* a");
    BulletLine("* b");
    TwoLines("* a", "* b");
    var s1 := Step(Scanned([], false), "* a");
    assert s1 == Scanned([ListOpen, Item("a")], true);
    var s2 := Step(s1, "* b");
    assert s2 == Scanned([ListOpen, Item("a"), Item("b")], true);
  }

  /** Consecutive bullets share one list. */
  lemma FormatConsecutiveBullets()
    ensures Tokens(Split("* a\n* b")) == [ListOpen, Item("a"), Item("b"), ListClose]
  {
    SplitTwoBullets();
    TwoBulletsOneList();
  }

  lemma SplitTwoParagraphs()
    ensures Split("one\n\ntwo") == ["one", "", "two"]
  {
    SplitSingleLine("two");
    SplitFirstLine("", "two");
    assert "" + "\n" + "two" == "\ntwo";
    SplitFirstLine("one", "\ntwo");
    assert "one" + "\n" + "\ntwo" == "one\n\ntwo";
  }

  lemma TwoParagraphs()
    ensures Tokens(["one", "", "two"]) == [Paragraph("one"), Paragraph("two")]
  {
    ProseLine("one");
    ProseLine("two");
    BlankLine();
    ThreeLines("one", "", "two");
    var s1 := Step(Scanned([], false), "one");
    assert s1 == Scanned([Paragraph("one")], false);
    var s2 := Step(s1, "");
    assert s2 == s1;
    var s3 := Step(s2, "two");
    assert s3 == Scanned([Paragraph("one"), Paragraph("two")], false);
  }

  /** Two prose lines around a blank one give two paragraphs and no list. */
  lemma FormatParagraphs()
    ensures Tokens(Split("one\n\ntwo")) == [Paragraph("one"), Paragraph("two")]
  {
    SplitTwoParagraphs();
    TwoParagraphs();
  }

  /** A whole-line-bold line without white margins is one heading. */
  lemma BoldLine(line: string)
    requires IsWholeLineBold(line)
    ensures !IsBullet(line)
    ensures Block(line) == [Heading("", line[2..|line| - 2], "")]
  {
    TrimPlain(line);
    assert Trim(line)[1] == '*';
    BoldLineBlock(line);
    var b := TrimBounds(line);
    assert line[b.0..b.1] == line;
    assert b == (0, |line|);
    assert line[..0] == "" && line[|line|..] == "";
  }

  lemma LooseHeadingBlock()
    ensures !IsBullet("**a** **b**")
    ensures Block("**a** **b**") == [Heading("", "a** **b", "")]
  {
    var line := "**a** **b**";
    assert IsWholeLineBold(line);
    BoldLine(line);
    assert line[2..|line| - 2] == "a** **b";
  }

  lemma LooseHeadingLine()
    ensures Tokens(["**a** **b**"]) == [Heading("", "a** **b", "")]
  {
    LooseHeadingBlock();
    OneLine("**a** **b**");
    assert [] + Block("**a** **b**") == Block("**a** **b**");
  }

  /** A bold line is one heading whose text is what lies between the outer
      markers, even when inner markers would pair up differently. */
  lemma FormatLooseHeading()
    ensures Tokens(Split("**a** **b**")) == [Heading("", "a** **b", "")]
  {
    SplitSingleLine("**a** **b**");
    LooseHeadingLine();
  }

  lemma KeyBulletLine()
    ensures Tokens(["* **K:** v"]) == [ListOpen, Item("**K:** v"), ListClose]
  {
    var line := "* **K:** v";
    BulletLine(line);
    assert line[2..] == "**K:** v";
    OneLine(line);
  }

  /** A bullet whose text begins with `**K:**` is one item in one list. */
  lemma BulletWithSubHeader()
    ensures Tokens(Split("* **K:** v")) == [ListOpen, Item("**K:** v"), ListClose]
  {
    SplitSingleLine("* **K:** v");
    KeyBulletLine();
  }

  /** That item's leading `**K:**` becomes a sub-header span and the rest
      stays as it is. */
  lemma SubHeaderOfKey()
    ensures SubHeaders("**K:** v") == SpanOpen + "K:" + SpanClose + " v"
  {
    assert "**K:** v" == "**" + "K:" + "**" + " v";
    SubHeadersLeadingPair("K:", " v");
    SubHeadersStarFreePrefix(" v", []);
    assert " v" + [] == " v";
  }
}
