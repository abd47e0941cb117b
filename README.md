# Research assistant side panel: suggestion formatter and panel rules

This project models the logic of `sidepanel.js`, the side panel of a browser extension. The user selects text on a page. The panel sends it to a local service for "summarize" or "suggest", shows the reply, and can append suggestions to a notes buffer.

The core is `formatSuggestions`. It turns a "suggest" reply into HTML in a single pass over its `\n`-separated lines. It keeps one flag: whether a `<ul>` is open. Each line is classified in this order:

- A **bullet** line's trimmed form starts with `* `. If no list is open, a `<ul>` is opened. The line becomes `<li>…</li>`, and inside it each `**X**` becomes `<span class="sub-header">X</span>`.
- Any **other** line first closes an open list. Blank lines do this too.
- A **whole-line-bold** line's trimmed form starts and ends with `**`. Its outer markers become `<h4>…</h4>`.
- A **paragraph** is any other non-blank line. It becomes `<p>line</p>`.
- A **blank** line emits nothing.

A list still open at the end is closed.

Files:

- `jstext.dfy` (module `JsText`): the JavaScript string built-ins the panel relies on. These are `trim` (with ECMAScript's white-space and line-terminator set), `startsWith`, `endsWith` and `split('\n')`. `Join` is not called by the panel. It is a reference definition: `JoinSplit` uses it to show that `split` loses nothing, and `BreakLinesJoinsLines` uses it to pin down the newline-to-`<br>` replacement.
- `regex_scan.dfy` (module `RegexScan`): the two regular expressions of the formatter, written out as scans. `/\*\*(.*?)\*\*/g` is leftmost, shortest, global and non-overlapping. `/\*\*(.*)\*\*/` is leftmost, longest and replaces only the first match. In both, `.` does not match a line terminator, so a `\r`, U+2028 or U+2029 inside a line stops a match.
- `formatter.dfy` (module `SuggestionFormatter`): the formatter.
  - It is specified on a sequence of `Piece`s (list open, list close, item, heading, paragraph).
  - `ScanLines` folds one `Step` per line, `Tokens` closes a list left open, and `Render` produces the markup.
  - The method `FormatSuggestions` builds the string in a loop, as the source does. Its loop invariant ties `formatted` and `inList` to `ScanLines` of the lines processed so far.
- `formatter_examples.dfy` (module `FormatterExamples`): worked inputs.
- `side_panel.dfy` (module `SidePanel`): the pure rules around the formatter.
  - The restricted-URL guard.
  - The empty-selection test.
  - The newline-to-`<br>` display of a "summarize" reply.
  - The notes-append rule.
  - The order of decisions in `processContent`, with the browser's and the service's results passed in.

Behaviour the model follows because the code does it, although a Markdown reader might expect otherwise:

- A blank line between two bullets closes the list, so `* a`, blank, `* b` gives two `<ul>` blocks (`TokensLists`, `FormatBlankLineBetweenBullets`).
- Whole-line bold is detected loosely. `**a** **b**` is one heading whose text is `a** **b` (`FormatLooseHeading`).
- Paragraph text gets no `**` conversion. Heading and paragraph lines are emitted untrimmed, so their white margins stay.

## Model

| member | source | states |
|---|---|---|
| `SuggestionFormatter.Format` | sidepanel.js:115-156 | the markup `formatSuggestions(text)` returns: the pieces of `Tokens(Split(text))` rendered in order; `FormatSuggestions` is proved to compute it |
| `SuggestionFormatter.Tokens` | sidepanel.js:150-153 | the pieces the loop emitted, followed by one list close exactly when a list is still open |
| `SuggestionFormatter.ScanLines` | sidepanel.js:118-148 | the pieces emitted and the list flag after a prefix of the lines, starting from nothing emitted and no list open |
| `SuggestionFormatter.Step` | sidepanel.js:122-147 | one pass of the loop body: a bullet adds a list open unless one is open, then its item, and sets the flag; any other line adds a list close if one is open, then its block, and clears the flag |
| `SuggestionFormatter.IsBullet` | sidepanel.js:123 | a line is a bullet when its trimmed form starts with `* ` |
| `SuggestionFormatter.Block` | sidepanel.js:140-146 | a non-bullet line yields at most one piece, a heading or a paragraph and never a list piece, and yields nothing exactly when the line is all white |
| `SuggestionFormatter.FormatSuggestions` | sidepanel.js:115-156 | the loop's result is `Render(Tokens(Split(text)))`, the in-order concatenation of the per-line fragments plus a final `</ul>` if a list is open |
| `SuggestionFormatter.StepRenderBullet` | sidepanel.js:123-132 | a bullet line appends `<ul>` only when no list is open, then `<li>` + sub-header-converted text after `* ` + `</li>` |
| `SuggestionFormatter.StepRenderOther` | sidepanel.js:133-146 | any non-bullet line, blank ones included, first appends `</ul>` when a list is open; then the heading, the paragraph or nothing |
| `SuggestionFormatter.RenderBlock` | sidepanel.js:140-146 | a non-bullet line appends the line-142 replacement if whole-line bold, else `<p>line</p>` with the untrimmed line if non-blank, else nothing |
| `SuggestionFormatter.WholeLineBoldHeading` | sidepanel.js:141-142 | on a whole-line-bold line the greedy replacement yields leading white + `<h4>` + text between the first and last `**` + `</h4>` + trailing white |
| `SuggestionFormatter.ReplaceHeaderAtBold` | sidepanel.js:142 | on a bold line followed only by white characters, the first-match greedy replacement spans from the first `**` to the last |
| `SuggestionFormatter.GreedyCloseAtEnd` | sidepanel.js:142 | the greedy `(.*)\*\*` backs off to the last `**` of the bold text and not into the trailing white characters |
| `SuggestionFormatter.TokensRender` | sidepanel.js:150-155 | the result is what the loop emitted plus `</ul>` exactly when a list is still open |
| `SuggestionFormatter.ScanLinesWalk` | sidepanel.js:119-138 | after any prefix of lines the pieces follow the list grammar, and a reader is inside a list exactly when `inList` is set |
| `SuggestionFormatter.TokensBalanced` | sidepanel.js:119-153 | for every input, each `<ul>` is followed by one or more items and exactly one `</ul>` before anything else; lists never nest; items occur only inside lists; nothing is left open |
| `SuggestionFormatter.ScanLinesItems` | sidepanel.js:121-132 | after any prefix of lines, the item texts are the bullet lines' trimmed text without `* `, in order |
| `SuggestionFormatter.StepItems` | sidepanel.js:123-146 | one line adds its text without `* ` to the items exactly when it is a bullet, and adds nothing otherwise |
| `SuggestionFormatter.TokensItems` | sidepanel.js:121-132 | the output has one `<li>` per bullet line with that line's text, in input order, and no other line yields an item |
| `SuggestionFormatter.StepOpens` | sidepanel.js:123-138 | a line opens a list exactly when it is a bullet and no list is open; afterwards a list is open exactly when the line was a bullet |
| `SuggestionFormatter.ScanLinesOpens` | sidepanel.js:119-138 | after any prefix, `inList` holds exactly when its last line is a bullet, and the lists opened equal the runs of consecutive bullet lines |
| `SuggestionFormatter.TokensLists` | sidepanel.js:119-153 | the number of `<ul>` emitted is the number of maximal runs of consecutive bullet lines, so any non-bullet line, blank or not, splits a list |
| `FormatterExamples.FormatEmpty` | sidepanel.js:117-121 | `formatSuggestions("")` returns the empty string |
| `FormatterExamples.FormatBlankLineBetweenBullets` | sidepanel.js:133-138 | `"* a\n\n* b"` gives two separate lists, each with one item |
| `FormatterExamples.BlankLineSplitsList` | sidepanel.js:133-138 | the lines `* a`, blank, `* b` give open, item a, close, open, item b, close |
| `FormatterExamples.FormatConsecutiveBullets` | sidepanel.js:123-127 | `"* a\n* b"` gives one list with items `a` and `b` in order |
| `FormatterExamples.TwoBulletsOneList` | sidepanel.js:123-127 | the lines `* a`, `* b` give one list holding both items |
| `FormatterExamples.FormatParagraphs` | sidepanel.js:143-145 | `"one\n\ntwo"` gives two paragraphs in order and no list |
| `FormatterExamples.TwoParagraphs` | sidepanel.js:143-145 | the lines `one`, blank, `two` give two paragraphs and nothing for the blank line |
| `FormatterExamples.ProseLine` | sidepanel.js:143-145 | a line that trims to itself and does not start with `*` is neither a bullet nor bold and becomes one paragraph |
| `FormatterExamples.BulletLine` | sidepanel.js:123-129 | a line without white margins that starts with `* ` is a bullet whose item text is the rest of the line |
| `FormatterExamples.BoldLine` | sidepanel.js:141-142 | a whole-line-bold line without white margins is not a bullet and yields one heading with empty margins around the text between the outer markers |
| `FormatterExamples.LooseHeadingBlock` | sidepanel.js:141-142 | the line `**a** **b**` is not a bullet and yields one heading around `a** **b` |
| `FormatterExamples.FormatLooseHeading` | sidepanel.js:141-142 | `"**a** **b**"` is one heading whose text is `a** **b` |
| `FormatterExamples.LooseHeadingLine` | sidepanel.js:141-142 | the single line `**a** **b**` yields one heading piece with empty margins |
| `FormatterExamples.BulletWithSubHeader` | sidepanel.js:123-132 | `"* **K:** v"` is one list with one item whose text is `**K:** v` |
| `FormatterExamples.KeyBulletLine` | sidepanel.js:123-132 | the single line `* **K:** v` yields open, one item, close |
| `FormatterExamples.SubHeaderOfKey` | sidepanel.js:131 | that item renders as a sub-header span around `K:` followed by the literal ` v` |
| `FormatterExamples.SplitThreeLines` | sidepanel.js:117 | `"* a\n\n* b"` splits into three lines, the middle one empty |
| `FormatterExamples.SplitTwoBullets` | sidepanel.js:117 | `"* a\n* b"` splits into two lines |
| `FormatterExamples.SplitTwoParagraphs` | sidepanel.js:117 | `"one\n\ntwo"` splits into three lines, the middle one empty |
| `RegexScan.SubHeaders` | sidepanel.js:131 | the global lazy replacement: at each position a `**` whose lazy group can close becomes a span around the group, and scanning resumes after the closing `**`; otherwise one character is copied |
| `RegexScan.ReplaceHeader` | sidepanel.js:142 | the first-match greedy replacement: the leftmost `**` whose greedy group can close becomes `<h4>` around the group, and the rest is copied; with no match the text is unchanged |
| `RegexScan.IsWholeLineBold` | sidepanel.js:141 | `^\*\*.*\*\*$` on the trimmed line: at least four characters, `**` at both ends and no line terminator between them |
| `RegexScan.LazyClose` | sidepanel.js:131 | the lazy group ends at the first `**` that `.` can reach, with no earlier `**` in between; if none is found, no later `**` is reachable without crossing a line terminator |
| `RegexScan.UnspanSubHeaders` | sidepanel.js:131 | on text without `<`, reading the sub-header tags back as `**` restores the bullet text exactly: the replacement changes only matched marker pairs |
| `RegexScan.UnspanSpan` | sidepanel.js:131 | reading back one span gives `**`, its text, `**` |
| `RegexScan.SubHeadersWithoutPair` | sidepanel.js:131 | bullet text with no `**` pair joinable by `.` is emitted unchanged, so an unmatched or trailing `**` stays literal |
| `RegexScan.SubHeadersStarFreePrefix` | sidepanel.js:131 | text without `*` passes through unchanged and does not affect how the rest is matched |
| `RegexScan.SubHeadersLeadingPair` | sidepanel.js:131 | a leading `**X**` with no `*` or line terminator in X becomes one span around X, and matching resumes after it |
| `RegexScan.LineEnd` | sidepanel.js:142 | the first line terminator at or after a position, or the end: the farthest point `.*` can reach |
| `RegexScan.LastStars` | sidepanel.js:142 | the last `**` inside a range, with none after it |
| `RegexScan.GreedyClose` | sidepanel.js:142 | the greedy group ends at the last `**` that `.` can reach; no later `**` is reachable; if none is found, no `**` is reachable |
| `RegexScan.ReplaceHeaderStarFreePrefix` | sidepanel.js:142 | leading text without `*` is copied through, and the first match is looked for after it |
| `JsText.LeadingWhite` | sidepanel.js:123 | the length of the run of white characters at the front |
| `JsText.TrailingWhiteStart` | sidepanel.js:123 | where the run of white characters at the end begins |
| `JsText.TrimBounds` | sidepanel.js:123 | the kept slice: everything outside it is white, and it is empty or begins and ends non-white |
| `JsText.Trim` | sidepanel.js:123 | `trim()` is empty exactly when the line is all white; otherwise it begins and ends with a non-white character |
| `JsText.TrimDecomposes` | sidepanel.js:123 | a line is its white leading margin, its trimmed form and its white trailing margin |
| `JsText.TrimOfPadded` | sidepanel.js:123 | white margins around a string that begins and ends non-white trim back to that string |
| `JsText.TrimIdempotent` | sidepanel.js:123 | trimming twice equals trimming once |
| `JsText.Split` | sidepanel.js:117 | `split('\n')` gives at least one line, and no line contains a newline |
| `JsText.JoinSplit` | sidepanel.js:117 | joining the lines with `\n` gives back the text |
| `JsText.SplitSingleLine` | sidepanel.js:117 | a text without newlines is one line |
| `JsText.SplitFirstLine` | sidepanel.js:117 | a newline ends the first line, and the rest is split on its own |
| `SidePanel.CannotAnalyze` | sidepanel.js:20-22 | the page is refused when it has no URL, an empty one, a browser-internal scheme, or is a `file://` page not ending in `.html` |
| `SidePanel.WebPagesAllowed` | sidepanel.js:20-22 | `http://` and `https://` pages pass the guard |
| `SidePanel.FilePagesNeedHtml` | sidepanel.js:20-22 | a `file://` page is refused exactly when it does not end in `.html` (`&&` binds tighter than `\|\|`) |
| `SidePanel.BrowserPagesRefused` | sidepanel.js:20-22 | `chrome://`, `edge://` and `about:` pages are refused whatever their ending |
| `SidePanel.NothingSelected` | sidepanel.js:40 | no selection was reported, or it trims to the empty string |
| `SidePanel.NothingSelectedMeansWhite` | sidepanel.js:40 | a reported selection counts as empty exactly when all its characters are white |
| `SidePanel.BreakLines` | sidepanel.js:62 | the displayed summary contains no newline and is at least as long as the reply |
| `SidePanel.BreakLinesJoinsLines` | sidepanel.js:62 | replacing each `\n` by `<br>` equals splitting on `\n` and joining with `<br>` |
| `SidePanel.AppendSuggestions` | sidepanel.js:161-166 | the old notes are a prefix of the new ones; the separator follows them exactly when they were non-empty; the new notes end with `[Suggestions - ts]\n` + the suggestions |
| `SidePanel.AppendedSuggestionsReadBack` | sidepanel.js:161-166 | the suggestions are exactly what follows the old notes, the separator and the heading |
| `SidePanel.AppendTwice` | sidepanel.js:161-166 | a second append keeps the first result intact and always puts the separator before the new block |
| `SidePanel.Decimal` | sidepanel.js:53 | the status code is written as its decimal numeral: non-empty digits whose value (`DigitsValue`) is the status, with no leading zero unless the status is 0 |
| `SidePanel.ProcessContent` | sidepanel.js:12-68 | a request is sent exactly when the page passes the guard, the selection could be read and it is not blank, and it carries the selection and the operation; a refused page, a failed injection and a blank selection each show their own notice, in that order of precedence; a failed request shows `Error: ` and its message; a non-ok status shows `Error: API Error: ` and the status; an ok reply shows `formatSuggestions` of the body for "suggest" and the body with `<br>` for each newline otherwise; suggestions markup appears only in that case |
| `SidePanel.SuggestionsFormatted` | sidepanel.js:96 | the suggestions markup is `formatSuggestions` of the reply body |
| `SidePanel.NoRequestIgnoresReply` | sidepanel.js:20-43 | when no request is sent, the service's reply has no effect on the outcome |

## Left out

- The browser APIs are not modelled. These are `chrome.storage.local`, `chrome.tabs.query`, `chrome.scripting.executeScript`, the `DOMContentLoaded` and click-handler wiring, and the "Saved!" button timer (lines 1-10, 70-85). They are foreign calls and UI. `ProcessContent` takes their results as parameters.
- A missing active tab is not modelled. When `chrome.tabs.query` yields no tab, `tab.url` throws at line 20 and the panel shows `Error: ` with the engine's message. `ProcessContent` takes only the tab's URL, and `None` there stands for a tab without a URL, which gets the refusal notice (line 20).
- The `fetch` to the local service is not modelled. Its status and body, or its failure message, are the `Reply` parameter.
- Exceptions thrown by `chrome.tabs.query` or `response.text()` are not modelled. Neither are the "Processing…" notice and the `console.log` call.
- `showResult`, `showSuggestions` and `animateContent` (lines 87-113, 174-208) are not modelled. They parse HTML, clone nodes and reveal them with `setTimeout`, which is DOM and timer behaviour.
- `innerText` extraction and `new Date().toLocaleString()` (lines 159, 162) are not modelled. They depend on layout and locale. `AppendSuggestions` takes the suggestions text and the timestamp as opaque strings. The source calls `addSuggestionsToNotes(text)` but the function ignores that argument and reads the rendered text instead.
- Loading the notes with a default of `''` (line 4) is not modelled. It belongs to the storage read.
- TokensBalanced: list balance is stated on the sequence of pieces, not on the markup string. The formatter does not escape `<`, so a line whose text contains `<ul>` or `</ul>` puts such tags into the string beyond those the pieces account for.
- UnspanSubHeaders: the property that stripping the tags gives back the input is proved for bullet text only, and only for text without `<`. Heading and paragraph pieces keep their text verbatim by construction. Across the whole output the property fails when the input contains markup of its own.
- Strings are sequences of `char`, not UTF-16 code units. Surrogate pairs are not modelled. The white-space set is fixed to ECMAScript's list (tab, vertical tab, form feed, space, U+00A0, U+1680, U+2000-U+200A, U+202F, U+205F, U+3000, U+FEFF and the four line terminators).
