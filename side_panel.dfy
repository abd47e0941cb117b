/** The pure rules of the side panel around the formatter: which pages may
    be analysed, when a selection counts as empty, how a "summarize" reply is
    displayed, how suggestions are appended to the notes, and the order in
    which `processContent` applies them. The browser, the page and the
    local service are not modelled; what they return is passed in. */
module SidePanel {
  import opened JsText
  import SuggestionFormatter

  // ---------------------------------------------------------------------
  // Pages the panel refuses (lines 20-22).

  /** The condition of line 20-22. `tab.url` may be missing; `&&` binds
      tighter than `||`, so only `file://` pages are let through by a
      `.html` ending. */
  predicate CannotAnalyze(url: Option<string>) {
    url.None? || url.value == []
    || StartsWith(url.value, "chrome://")
    || StartsWith(url.value, "chrome-extension://")
    || StartsWith(url.value, "edge://")
    || StartsWith(url.value, "about:")
    || (StartsWith(url.value, "file://") && !EndsWith(url.value, ".html"))
  }

  /** Ordinary web pages are analysed. */
  lemma WebPagesAllowed(u: string)
    requires StartsWith(u, "http://") || StartsWith(u, "https://")
    ensures !CannotAnalyze(Some(u))
  {
    assert u[0] == 'h';
  }

  /** A local file is analysed exactly when its name ends in `.html`. */
  lemma FilePagesNeedHtml(u: string)
    requires StartsWith(u, "file://")
    ensures CannotAnalyze(Some(u)) <==> !EndsWith(u, ".html")
  {
    assert u[0] == 'f';
  }

  /** The `.html` exception applies to `file://` pages only: a browser page
      is refused whatever its ending. */
  lemma BrowserPagesRefused(u: string)
    requires StartsWith(u, "chrome://") || StartsWith(u, "edge://") || StartsWith(u, "about:")
    ensures CannotAnalyze(Some(u))
  {
  }

  // ---------------------------------------------------------------------
  // An empty selection (line 40).

  /** `!result || result.trim() === ''`: no selection reported, or one that
      is empty or white. */
  predicate NothingSelected(result: Option<string>) {
    result.None? || Trim(result.value) == []
  }

  /** A selection counts as empty exactly when every character of it is
      white. */
  lemma NothingSelectedMeansWhite(s: string)
    ensures NothingSelected(Some(s)) <==> AllWhite(s)
  {
  }

  // ---------------------------------------------------------------------
  // A "summarize" reply is displayed with `<br>` for each newline (line 62).

  /** `text.replace(/\n/g, '<br>')` */
  function BreakLines(s: string): (r: string)
    ensures '\n' !in r
    ensures |r| >= |s|
    decreases |s|
  {
    if s == [] then []
    else if s[0] == '\n' then "<br>" + BreakLines(s[1..])
    else [s[0]] + BreakLines(s[1..])
  }

  /** Replacing every newline by `<br>` is splitting into lines and joining
      them with `<br>`: nothing but the newlines changes. */
  lemma {:induction false} BreakLinesJoinsLines(s: string)
    ensures BreakLines(s) == Join(Split(s), "<br>")
    decreases |s|
  {
    if s != [] {
      var rest := Split(s[1..]);
      BreakLinesJoinsLines(s[1..]);
      if s[0] == '\n' {
        assert ([[]] + rest)[1..] == rest;
      } else {
        assert rest == [rest[0]] + rest[1..];
        JoinConsFirst(s[0], rest[0], rest[1..], "<br>");
      }
    }
  }

  // ---------------------------------------------------------------------
  // Appending suggestions to the notes (lines 161-166).

  const NotesSeparator: string := "\n\n---\n\n"

  /** The heading written above each block of suggestions. */
  function SuggestionsHeading(timestamp: string): string {
    "[Suggestions - " + timestamp + "]\n"
  }

  /** The notes after "Add to Notes": the old notes, a separator unless they
      were empty, the heading with the timestamp, then the suggestions'
      visible text. */
  function AppendSuggestions(notes: string, timestamp: string, suggestions: string): (r: string)
    ensures StartsWith(r, notes)
    ensures notes == [] ==> StartsWith(r, SuggestionsHeading(timestamp))
    ensures notes != [] ==> StartsWith(r[|notes|..], NotesSeparator + SuggestionsHeading(timestamp))
    ensures EndsWith(r, SuggestionsHeading(timestamp) + suggestions)
    ensures r != []
  {
    var separator := if notes != [] then NotesSeparator else "";
    notes + separator + SuggestionsHeading(timestamp) + suggestions
  }

  /** What the appended block holds can be read back from the new notes:
      the suggestions are everything after the old notes, the separator
      and the heading. */
  lemma AppendedSuggestionsReadBack(notes: string, timestamp: string, suggestions: string)
    ensures var r := AppendSuggestions(notes, timestamp, suggestions);
            var start := |notes| + (if notes == [] then 0 else |NotesSeparator|) + |SuggestionsHeading(timestamp)|;
            start <= |r| && r[start..] == suggestions
  {
  }

  /** A second append keeps the first block intact and, the notes being no
      longer empty, always puts the separator before the new block. */
  lemma AppendTwice(notes: string, t1: string, s1: string, t2: string, s2: string)
    ensures var once := AppendSuggestions(notes, t1, s1);
            var twice := AppendSuggestions(once, t2, s2);
            twice[..|once|] == once
            && twice[|once|..] == NotesSeparator + SuggestionsHeading(t2) + s2
  {
  }

  // ---------------------------------------------------------------------
  // The decisions of `processContent` (lines 12-68).

  datatype Operation = Summarize | Suggest

  /** What script injection into the page produced (lines 28-38). */
  datatype Injection = Injected(selection: Option<string>) | InjectionFailed

  /** What the local service answered (lines 45-56): a status and a body,
      or a failure of the request itself with its message. */
  datatype Reply = Answered(ok: bool, status: nat, body: string) | RequestFailed(message: string)

  /** The request sent to the local service (line 48). */
  datatype Request = Request(content: string, operation: Operation)

  /** What ends up in the results area. */
  datatype Display =
    | Notice(text: string)
    | ResultHtml(html: string)
    | SuggestionsHtml(markup: string)

  datatype Outcome = Outcome(request: Option<Request>, shown: Display)

  /** The number a string of decimal digits denotes. */
  function DigitsValue(s: string): nat
    requires forall i :: 0 <= i < |s| ==> '0' <= s[i] <= '9'
    decreases |s|
  {
    if s == [] then 0 else DigitsValue(s[..|s| - 1]) * 10 + (s[|s| - 1] as nat - '0' as nat)
  }

  /** `${response.status}`: the decimal numeral of `n`, without leading
      zeros. */
  function Decimal(n: nat): (r: string)
    ensures r != []
    ensures forall i :: 0 <= i < |r| ==> '0' <= r[i] <= '9'
    ensures DigitsValue(r) == n
    ensures r[0] == '0' <==> n == 0
    ensures |r| > 1 ==> r[0] != '0'
    decreases n
  {
    if n < 10 then [(48 + n) as char]
    else
      var front := Decimal(n / 10);
      var r := front + [(48 + n % 10) as char];
      assert r[..|r| - 1] == front;
      r
  }

  const RestrictedPageMessage: string := "Cannot analyze content on this type of page. Please navigate to a regular webpage."
  const InjectionFailedMessage: string := "Unable to access content on this page. Please try on a different webpage."
  const NoSelectionMessage: string := "Please select some text on the page first, then click the button."

  /** One click on "Summarize" or "Suggest", given the active tab's URL,
      the result of reading the selection and the reply the service would
      give. The reply is only consulted when a request is made. */
  function ProcessContent(op: Operation, url: Option<string>, injection: Injection, reply: Reply): (r: Outcome)
    ensures r.request.Some? <==>
              !CannotAnalyze(url) && injection.Injected? && !NothingSelected(injection.selection)
    ensures r.request.Some? ==> r.request.value == Request(injection.selection.value, op)
    ensures CannotAnalyze(url) ==> r.shown == Notice(RestrictedPageMessage)
    ensures !CannotAnalyze(url) && injection.InjectionFailed? ==> r.shown == Notice(InjectionFailedMessage)
    ensures !CannotAnalyze(url) && injection.Injected? && NothingSelected(injection.selection) ==>
              r.shown == Notice(NoSelectionMessage)
    ensures r.request.Some? && reply.RequestFailed? ==> r.shown == Notice("Error: " + reply.message)
    ensures r.request.Some? && reply.Answered? && !reply.ok ==>
              r.shown == Notice("Error: API Error: " + Decimal(reply.status))
    ensures r.request.Some? && reply.Answered? && reply.ok ==>
              r.shown == (if op == Suggest then SuggestionsHtml(SuggestionFormatter.Format(reply.body))
                          else ResultHtml(BreakLines(reply.body)))
    ensures r.shown.SuggestionsHtml? ==> op == Suggest && reply.Answered? && reply.ok
  {
    if CannotAnalyze(url) then Outcome(None, Notice(RestrictedPageMessage))
    else if injection.InjectionFailed? then Outcome(None, Notice(InjectionFailedMessage))
    else if NothingSelected(injection.selection) then Outcome(None, Notice(NoSelectionMessage))
    else
      var request := Some(Request(injection.selection.value, op));
      match reply
      case RequestFailed(message) => Outcome(request, Notice("Error: " + message))
      case Answered(ok, status, body) =>
        if !ok then Outcome(request, Notice("Error: API Error: " + Decimal(status)))
        else if op == Suggest then Outcome(request, SuggestionsHtml(SuggestionsFormatted(body)))
        else Outcome(request, ResultHtml(BreakLines(body)))
  }

  /** When the page is refused, injection fails or nothing is selected, the
      service is never asked, so what it would have answered changes
      nothing. */
  lemma NoRequestIgnoresReply(op: Operation, url: Option<string>, injection: Injection, r1: Reply, r2: Reply)
    requires ProcessContent(op, url, injection, r1).request.None?
    ensures ProcessContent(op, url, injection, r1) == ProcessContent(op, url, injection, r2)
  {
  }

  /** The markup `showSuggestions` renders (line 96). */
  function SuggestionsFormatted(body: string): string {
    SuggestionFormatter.Format(body)
  }
}
