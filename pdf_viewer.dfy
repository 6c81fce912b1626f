/** Page navigation of the PDF viewer component.

    The viewer keeps three pieces of state: the page count once the document has
    loaded, the current page, and the last load error. Five events change them: a
    navigation request from the parent (`goToPage`), load success, load error, and
    the previous and next buttons. The value-level functions below specify each
    event; the class `PdfViewer` performs them in place and is proved against them.

    JavaScript truthiness is kept: `!numPages` holds for an unknown count and for 0,
    `numPages ?? p` falls back only when the count is unknown, and an empty error
    message is falsy, so it does not hide the document. */
module Viewer {
  import opened Wrappers

  datatype ViewerState = ViewerState(numPages: Option<nat>, pageNumber: nat, error: Option<string>)

  /** The state right after mounting: page 1, count unknown, no error. */
  const Initial: ViewerState := ViewerState(None, 1, None)

  /** The fixed text shown instead of the raw message when the failure was a 404. */
  const NotAvailableText: string :=
    "PDF file not available." +
    " The document may still be processing, or the backend may not expose file download yet."

  const FailurePrefix: string := "Failed to load PDF: "

  /** The invariant: the current page is at least 1, and within the count once a positive count is known. */
  predicate ValidState(s: ViewerState) {
    s.pageNumber >= 1 && (s.numPages.Some? && s.numPages.value >= 1 ==> s.pageNumber <= s.numPages.value)
  }

  /** JavaScript `!numPages`: no count yet, or a count of 0. */
  predicate PageCountUnknown(numPages: Option<nat>) {
    numPages.None? || numPages.value == 0
  }

  /** JavaScript truthiness of `error`: present and not the empty string. */
  predicate ErrorShown(s: ViewerState) {
    s.error.Some? && s.error.value != ""
  }

  /** The previous button's `disabled` attribute: in a valid state, exactly on the first page. */
  function PrevDisabled(s: ViewerState): (r: bool)
    ensures ValidState(s) ==> (r <==> s.pageNumber == 1)
  {
    s.pageNumber <= 1
  }

  /** The next button's `disabled` attribute: always while the count is unknown or 0, and in a
      valid state with a positive count, exactly on the last page. */
  function NextDisabled(s: ViewerState): (r: bool)
    ensures PageCountUnknown(s.numPages) ==> r
    ensures ValidState(s) && s.numPages.Some? && s.numPages.value >= 1 ==> (r <==> s.pageNumber == s.numPages.value)
  {
    PageCountUnknown(s.numPages) || s.pageNumber >= s.numPages.value
  }

  /** The effect's guard on a navigation request: a request of at least 1 that, once a positive
      count is known, does not exceed it; such a target is always a page the invariant allows. */
  function GoToPageAccepted(s: ViewerState, goToPage: Option<int>): (r: bool)
    ensures r <==> goToPage.Some? && goToPage.value >= 1 &&
                   (s.numPages.Some? && s.numPages.value >= 1 ==> goToPage.value <= s.numPages.value)
    ensures r ==> ValidState(s.(pageNumber := goToPage.value))
  {
    goToPage.Some? && goToPage.value >= 1 && (PageCountUnknown(s.numPages) || goToPage.value <= s.numPages.value)
  }

  function Max(a: int, b: int): int { if a >= b then a else b }
  function Min(a: int, b: int): int { if a <= b then a else b }

  // ---------------------------------------------------------------------------
  // Events, as functions of the state
  // ---------------------------------------------------------------------------

  /** The navigation effect. Returns the new state and whether `onGoToPageHandled` fires. */
  function ApplyGoToPage(s: ViewerState, goToPage: Option<int>): (r: (ViewerState, bool))
    ensures r.1 <==> GoToPageAccepted(s, goToPage)
    ensures r.1 ==> goToPage.Some? && goToPage.value >= 1 && r.0.pageNumber == goToPage.value
    ensures r.1 && s.numPages.Some? && s.numPages.value >= 1 ==> r.0.pageNumber <= s.numPages.value
    ensures !r.1 ==> r.0 == s
    ensures r.0.numPages == s.numPages && r.0.error == s.error
    ensures ValidState(s) ==> ValidState(r.0)
  {
    if GoToPageAccepted(s, goToPage) then (s.(pageNumber := goToPage.value), true) else (s, false)
  }

  /** A successful load: the count is recorded and the viewer restarts at page 1 without error. */
  function LoadSuccess(s: ViewerState, numPages: nat): (r: ViewerState)
    ensures ValidState(r) && !ErrorShown(r)
    ensures r.numPages == Some(numPages) && r.pageNumber == 1 && r.error == None
  {
    s.(numPages := Some(numPages), pageNumber := 1, error := None)
  }

  /** A failed load: only the error changes. */
  function LoadError(s: ViewerState, message: string): (r: ViewerState)
    ensures r.numPages == s.numPages && r.pageNumber == s.pageNumber && r.error == Some(message)
    ensures ValidState(s) ==> ValidState(r)
    ensures ErrorShown(r) <==> message != ""
  {
    s.(error := Some(message))
  }

  /** The previous button, clickable only when it is not disabled: one page back, never below 1. */
  function Previous(s: ViewerState): (r: ViewerState)
    requires !PrevDisabled(s)
    ensures r.pageNumber == s.pageNumber - 1 >= 1
    ensures r.numPages == s.numPages && r.error == s.error
    ensures ValidState(s) ==> ValidState(r)
  {
    s.(pageNumber := Max(1, s.pageNumber - 1))
  }

  /** The next button, clickable only when it is not disabled: one page on, never past the count. */
  function Next(s: ViewerState): (r: ViewerState)
    requires !NextDisabled(s)
    ensures s.numPages.Some? && r.pageNumber == s.pageNumber + 1 <= s.numPages.value
    ensures r.numPages == s.numPages && r.error == s.error
    ensures ValidState(s) ==> ValidState(r)
  {
    s.(pageNumber := Min(s.numPages.GetOr(s.pageNumber), s.pageNumber + 1))
  }

  // ---------------------------------------------------------------------------
  // Derived views
  // ---------------------------------------------------------------------------

  /** JavaScript `s.includes(sub)`: the empty string is found in every string, and nothing
      longer than `s` is found in it. */
  function Contains(s: string, sub: string): (r: bool)
    ensures sub == [] ==> r
    ensures r ==> |sub| <= |s|
  {
    sub <= s || (s != [] && Contains(s[1..], sub))
  }

  /** An occurrence at any position is found. */
  lemma {:induction false} ContainsAt(s: string, sub: string, i: nat)
    requires i <= |s| && sub <= s[i..]
    ensures Contains(s, sub)
  {
    if i > 0 {
      assert s[1..][i - 1..] == s[i..];
      ContainsAt(s[1..], sub, i - 1);
    } else {
      assert s[i..] == s;
    }
  }

  /** Whatever is found occurs at some position. */
  lemma {:induction false} ContainsWitness(s: string, sub: string) returns (i: nat)
    requires Contains(s, sub)
    ensures i <= |s| && sub <= s[i..]
  {
    if sub <= s {
      i := 0;
      assert s[0..] == s;
    } else {
      var j := ContainsWitness(s[1..], sub);
      assert s[1..][j..] == s[j + 1..];
      i := j + 1;
    }
  }

  /** `includes` holds exactly when the substring occurs at some position. */
  lemma ContainsIff(s: string, sub: string)
    ensures Contains(s, sub) <==> exists i :: 0 <= i <= |s| && sub <= s[i..]
  {
    if Contains(s, sub) {
      var i := ContainsWitness(s, sub);
    }
    if exists i :: 0 <= i <= |s| && sub <= s[i..] {
      var i :| 0 <= i <= |s| && sub <= s[i..];
      ContainsAt(s, sub, i);
    }
  }

  /** `error?.includes("404")`: an error is present and "404" occurs somewhere in its message. */
  function Is404(s: ViewerState): (r: bool)
    ensures r <==> s.error.Some? && exists i :: 0 <= i <= |s.error.value| && "404" <= s.error.value[i..]
  {
    if s.error.None? then false
    else
      ContainsIff(s.error.value, "404");
      Contains(s.error.value, "404")
  }

  /** The text of the error box, or None when the document is shown instead. A 404 shows the
      fixed text; any other failure shows the prefix followed by the raw message. */
  function ErrorDisplay(s: ViewerState): (r: Option<string>)
    ensures r.Some? <==> ErrorShown(s)
    ensures r.Some? ==> (r.value == NotAvailableText <==> Is404(s))
    ensures r.Some? && !Is404(s) ==> r.value == FailurePrefix + s.error.value
  {
    if ErrorShown(s) then
      if Is404(s) then Some(NotAvailableText)
      else
        var text := FailurePrefix + s.error.value;
        assert FailurePrefix[0] == 'F' && NotAvailableText[0] == 'P';
        assert text[0] == FailurePrefix[0];
        Some(text)
    else None
  }

  /** `highlightedPage === pageNumber`: only the shown page can be highlighted, nothing is
      highlighted without a referenced page, and in a valid state a highlighted page is a real page. */
  function IsHighlighted(s: ViewerState, highlightedPage: Option<int>): (r: bool)
    ensures highlightedPage.None? ==> !r
    ensures r ==> highlightedPage.value == s.pageNumber
    ensures highlightedPage.Some? && highlightedPage.value == s.pageNumber ==> r
    ensures r && ValidState(s) ==>
      highlightedPage.value >= 1 &&
      (s.numPages.Some? && s.numPages.value >= 1 ==> highlightedPage.value <= s.numPages.value)
  {
    highlightedPage == Some(s.pageNumber as int)
  }

  /** The parent passes the same referenced page as the request and as the highlight: once the
      request is accepted, the shown page is the highlighted one. */
  lemma AcceptedReferenceIsHighlighted(s: ViewerState, page: int)
    requires GoToPageAccepted(s, Some(page))
    ensures ApplyGoToPage(s, Some(page)).1
    ensures IsHighlighted(ApplyGoToPage(s, Some(page)).0, Some(page))
  {
  }

  /** A message holding "404" anywhere selects the fixed text. */
  lemma NotFoundSelectsFixedText(s: ViewerState, before: string, after: string)
    requires s.error == Some(before + "404" + after)
    ensures ErrorDisplay(s) == Some(NotAvailableText)
  {
    var msg := before + "404" + after;
    assert "404" <= msg[|before|..];
    ContainsAt(msg, "404", |before|);
  }

  /** A request accepted before the document has loaded is overridden by the load: the viewer
      shows page 1 after the load even though the parent was told the request was handled. */
  lemma EarlyRequestIsOverriddenByLoad(page: int, numPages: nat)
    requires page >= 1
    ensures ApplyGoToPage(Initial, Some(page)).1
    ensures LoadSuccess(ApplyGoToPage(Initial, Some(page)).0, numPages).pageNumber == 1
  {
  }

  // ---------------------------------------------------------------------------
  // Event sequences
  // ---------------------------------------------------------------------------

  datatype Event =
    | GoToPage(goToPage: Option<int>)
    | Loaded(numPages: nat)
    | LoadFailed(message: string)
    | PrevClicked
    | NextClicked

  /** Whether an event can happen in a state. The load callbacks and both buttons belong to the
      document element, which is rendered only while no error is shown; a button also needs to be
      enabled. The navigation effect runs whatever is rendered. */
  function CanHappen(s: ViewerState, e: Event): (r: bool)
    ensures ErrorShown(s) ==> (r <==> e.GoToPage?)
    ensures !ErrorShown(s) && (e.GoToPage? || e.Loaded? || e.LoadFailed?) ==> r
    ensures !ErrorShown(s) && e.PrevClicked? ==> (r <==> !PrevDisabled(s))
    ensures !ErrorShown(s) && e.NextClicked? ==> (r <==> !NextDisabled(s))
  {
    match e
    case GoToPage(_) => true
    case Loaded(_) => !ErrorShown(s)
    case LoadFailed(_) => !ErrorShown(s)
    case PrevClicked => !ErrorShown(s) && !PrevDisabled(s)
    case NextClicked => !ErrorShown(s) && !NextDisabled(s)
  }

  function Step(s: ViewerState, e: Event): ViewerState
    requires CanHappen(s, e)
  {
    match e
    case GoToPage(g) => ApplyGoToPage(s, g).0
    case Loaded(n) => LoadSuccess(s, n)
    case LoadFailed(msg) => LoadError(s, msg)
    case PrevClicked => Previous(s)
    case NextClicked => Next(s)
  }

  /** Runs the events from `s` while each can happen; stops at the first that cannot. */
  function Run(s: ViewerState, events: seq<Event>): ViewerState
    decreases |events|
  {
    if events == [] || !CanHappen(s, events[0]) then s else Run(Step(s, events[0]), events[1..])
  }

  /** Every state reachable from the initial one satisfies the invariant. */
  lemma {:induction false} RunKeepsValid(s: ViewerState, events: seq<Event>)
    requires ValidState(s)
    ensures ValidState(Run(s, events))
    decreases |events|
  {
    if events != [] && CanHappen(s, events[0]) {
      RunKeepsValid(Step(s, events[0]), events[1..]);
    }
  }

  lemma ReachableStatesAreValid(events: seq<Event>)
    ensures ValidState(Run(Initial, events))
  {
    RunKeepsValid(Initial, events);
  }

  // ---------------------------------------------------------------------------
  // The component, updating its state in place
  // ---------------------------------------------------------------------------

  class PdfViewer {
    var numPages: Option<nat>
    var pageNumber: nat
    var error: Option<string>

    function State(): ViewerState
      reads this
    {
      ViewerState(numPages, pageNumber, error)
    }

    predicate Valid()
      reads this
    {
      ValidState(State())
    }

    constructor ()
      ensures State() == Initial && Valid()
    {
      numPages := None;
      pageNumber := 1;
      error := None;
    }

    /** The navigation effect; `handled` is whether `onGoToPageHandled` is called. */
    method OnGoToPage(goToPage: Option<int>) returns (handled: bool)
      requires Valid()
      modifies this
      ensures Valid()
      ensures (State(), handled) == ApplyGoToPage(old(State()), goToPage)
    {
      if goToPage.Some? && goToPage.value >= 1 && (numPages.None? || numPages.value == 0 || goToPage.value <= numPages.value) {
        pageNumber := goToPage.value;
        handled := true;
      } else {
        handled := false;
      }
    }

    method OnDocumentLoadSuccess(n: nat)
      requires Valid() && !ErrorShown(State())
      modifies this
      ensures Valid()
      ensures State() == LoadSuccess(old(State()), n)
    {
      numPages := Some(n);
      pageNumber := 1;
      error := None;
    }

    method OnDocumentLoadError(message: string)
      requires Valid() && !ErrorShown(State())
      modifies this
      ensures Valid()
      ensures State() == LoadError(old(State()), message)
    {
      error := Some(message);
    }

    method OnPrevious()
      requires Valid() && !ErrorShown(State()) && !PrevDisabled(State())
      modifies this
      ensures Valid()
      ensures State() == Previous(old(State()))
    {
      pageNumber := Max(1, pageNumber - 1);
    }

    method OnNext()
      requires Valid() && !ErrorShown(State()) && !NextDisabled(State())
      modifies this
      ensures Valid()
      ensures State() == Next(old(State()))
    {
      var bound := match numPages case Some(n) => n case None => pageNumber;
      pageNumber := Min(bound, pageNumber + 1);
    }
  }
}
