# apex-frontend: portfolio metrics and PDF page navigation, in Dafny

This project models the two pieces of local logic in the apex-frontend web client. Everything else in that client is rendering or HTTP plumbing.

1. **Portfolio aggregation** (`computePortfolioMetrics` on the dashboard page), in module `Dashboard` (`dashboard.dfy`). It takes a list of document rows. Each row has four optional metrics: purchase price, NOI, cap rate and occupancy. It returns the number of deals and one average per metric, or `null` for a metric no row has. The page computes each average in a roundabout way. It keeps the rows that have *any* metric. It sums those rows with a missing value read as 0. It then divides by the number of kept rows that *have* the metric. The model keeps that construction as written (`WithMetrics`, `HavingMetric`, `SumOrZero`, `FieldAverage`). It proves that the result equals the plain arithmetic mean of the present values over the whole list (`Mean(PresentValues(docs, m))`). Consequences proved from this:
   - a missing value is never read as 0;
   - a row lacking one metric still counts for the others;
   - the pre-filter is redundant;
   - every average lies between the smallest and largest present value.

   Numbers are mathematical reals.
2. **PDF viewer page navigation** (`PdfViewer`), in module `Viewer` (`pdf_viewer.dfy`). The viewer holds three fields: the page count (unknown until the document loads), the current page, and the last load error. Five events change them:
   - the parent's `goToPage` request, which the component's effect applies and acknowledges through `onGoToPageHandled`;
   - load success;
   - load error;
   - the previous button;
   - the next button.

   Each event is specified as a function on a `ViewerState` value. The class `Viewer.PdfViewer` has one mutable field per piece of state and one method per event, and each method is proved to produce exactly that function's result. The invariant is that the page is at least 1, and at most the page count once a positive count is known. It is proved to hold in every state reachable by any sequence of events (`ReachableStatesAreValid`).

   JavaScript truthiness is modelled as the component relies on it:
   - `!numPages` is true for an unknown count and for a count of 0;
   - `numPages ?? p` falls back only when the count is unknown;
   - an empty error message is falsy, so it does not replace the document with the error box.

   The load callbacks and both buttons belong to the `<Document>` element, and that element is rendered only while no error is shown (`src/components/pdf-viewer.tsx:48`). The model therefore lets those four events happen only in that case. A button also has to be enabled: its `disabled` attribute is a `requires` on the matching method.

A consequence of the code, illustrated by `EarlyRequestIsOverriddenByLoad`: a `goToPage` request that arrives before the document has loaded is accepted and acknowledged. The load success that follows resets the viewer to page 1, as every load success does. Whether the viewer then stays on page 1 depends on the parent component, which is not modelled. The document page clears its request once it is acknowledged, so it does not send the request again.

Three facts about the code that the model keeps:
- The purchase-price average is the field `avgPurchase` (src/app/dashboard/page.tsx:68, :82).
- A 404 is recognised by the substring "404" anywhere in the error message (src/components/pdf-viewer.tsx:41). No status code is inspected.
- Each average is computed over the pre-filtered rows with `?? 0`, divided by the per-metric count (src/app/dashboard/page.tsx:58-77). The model proves this equals filtering per metric and taking the mean.

## Model

| member | source | states |
|---|---|---|
| `Dashboard.WithMetrics` | src/app/dashboard/page.tsx:50-56 | the pre-filter keeps each row that has at least one of the four metrics exactly as many times as it occurs, drops every other row, and never yields more rows than it was given |
| `Dashboard.HasAnyMetric` | src/app/dashboard/page.tsx:51-55 | the pre-filter test holds exactly when the row has some one of the four metrics (any of, not all of) |
| `Dashboard.HavingMetric` | src/app/dashboard/page.tsx:59 | the per-metric filter keeps each row whose metric is non-null exactly as many times as it occurs, and drops the others; its length, the denominator at :61, is the number of present values |
| `Dashboard.ComputePortfolioMetrics` | src/app/dashboard/page.tsx:49-85 | `totalDeals` is the length of the whole list, rows without metrics included; each of the four averages is the plain mean of that metric's present values over the whole list (`null` when there are none) |
| `Dashboard.SumOrZero` | src/app/dashboard/page.tsx:60 | the `reduce` with `?? 0` adds exactly the present values: a missing value adds nothing to the numerator |
| `Dashboard.FieldAverage` | src/app/dashboard/page.tsx:58-62 | the conditional average over a list of rows is `null` when no row has the metric and otherwise the mean of the present values |
| `Dashboard.PreFilterKeepsPresentValues` | src/app/dashboard/page.tsx:50-56 | dropping the rows with no metric at all leaves every metric's present values, and their order, unchanged |
| `Dashboard.FieldAverageIsMean` | src/app/dashboard/page.tsx:58-77 | the filter, then `?? 0` sum, then divide-by-present-count construction equals the mean of the present values |
| `Dashboard.PreFilterIsRedundant` | src/app/dashboard/page.tsx:50-56 | averaging over the whole list without the pre-filter gives the same result for every metric |
| `Dashboard.AverageIsMean` | src/app/dashboard/page.tsx:78-84 | whichever metric is selected from the result record, it is that metric's mean |
| `Dashboard.AverageAbsentIff` | src/app/dashboard/page.tsx:58-77 | an average is `null` if and only if no row of the list has that metric |
| `Dashboard.AveragePresentIsSumOverCount` | src/app/dashboard/page.tsx:59-61 | when some row has the metric, the average is the sum of the present values divided by their number, and that number is positive |
| `Dashboard.EmptyPortfolio` | src/app/dashboard/page.tsx:49-85 | an empty list gives zero deals and four `null` averages |
| `Dashboard.AppendRowWithMetric` | src/app/dashboard/page.tsx:58-77 | a row that has a metric contributes its value to that metric's average, whatever its other metrics |
| `Dashboard.AppendRowWithoutMetric` | src/app/dashboard/page.tsx:58-77 | a row lacking a metric leaves that metric's average unchanged, whatever its other metrics |
| `Dashboard.DisjointRowsAverageIndependently` | src/app/dashboard/page.tsx:50-67 | with one row having only NOI and one having only cap rate, each average is that row's value, not `null` |
| `Dashboard.ZeroIsCountedMissingIsNot` | src/app/dashboard/page.tsx:59-61 | a present 0 adds one to the denominator and nothing to the sum; a missing value adds to neither |
| `Dashboard.SingleValueIsItsAverage` | src/app/dashboard/page.tsx:59-61 | when exactly one value of a metric is present, the average is that value |
| `Dashboard.MeanWithinRange` | src/app/dashboard/page.tsx:60-61 | the mean of a non-empty list of values lies between its minimum and maximum |
| `Dashboard.AverageWithinRange` | src/app/dashboard/page.tsx:60-61 | a present average lies between the smallest and the largest present value of its metric |
| `Viewer.GoToPageAccepted` | src/components/pdf-viewer.tsx:25 | with the truthiness of `!numPages` resolved: a request is accepted exactly when it is at least 1 and, once a positive count is known, at most the count; an accepted target is always a page the invariant allows |
| `Viewer.PrevDisabled` | src/components/pdf-viewer.tsx:71 | in a valid state the previous button is disabled exactly on page 1 |
| `Viewer.NextDisabled` | src/components/pdf-viewer.tsx:82 | the next button is disabled whenever the count is unknown or 0, and in a valid state with a positive count exactly on the last page |
| `Viewer.ApplyGoToPage` | src/components/pdf-viewer.tsx:24-29 | a request is acknowledged if and only if it is at least 1 and, once a positive count is known, at most the count; then the page becomes the requested one; a rejected request changes nothing; the count and the error never change; the invariant is kept |
| `Viewer.LoadSuccess` | src/components/pdf-viewer.tsx:31-35 | the count is recorded, the page is back to 1 and the error is cleared to null, so no error is shown and the invariant holds afterwards from any state |
| `Viewer.LoadError` | src/components/pdf-viewer.tsx:37-39 | only the error changes; the count and page are kept, and so is the invariant; the error box appears exactly when the message is non-empty |
| `Viewer.Previous` | src/components/pdf-viewer.tsx:71-72 | when the button is enabled, the page goes back by exactly one and stays at least 1; nothing else changes; the invariant is kept |
| `Viewer.Next` | src/components/pdf-viewer.tsx:82-83 | when the button is enabled, the count is known and the page goes forward by exactly one without passing it; nothing else changes; the invariant is kept |
| `Viewer.Contains` | src/components/pdf-viewer.tsx:41 | `includes` finds the empty string in every string and never finds a string longer than the one searched |
| `Viewer.ContainsAt` | src/components/pdf-viewer.tsx:41 | `includes` finds a substring wherever it occurs |
| `Viewer.ContainsWitness` | src/components/pdf-viewer.tsx:41 | whatever `includes` finds occurs at some position |
| `Viewer.ContainsIff` | src/components/pdf-viewer.tsx:41 | `includes` holds exactly when the substring occurs at some position |
| `Viewer.Is404` | src/components/pdf-viewer.tsx:41 | `is404` holds exactly when an error is present and "404" occurs at some position of its message |
| `Viewer.ErrorDisplay` | src/components/pdf-viewer.tsx:41-54 | the error box is shown exactly when the error is truthy; it shows the fixed "not available" text exactly when the message contains "404", and otherwise the failure prefix followed by the raw message |
| `Viewer.NotFoundSelectsFixedText` | src/components/pdf-viewer.tsx:41-51 | a message with "404" anywhere in it shows the fixed text |
| `Viewer.IsHighlighted` | src/components/pdf-viewer.tsx:91 | a page is highlighted exactly when a referenced page is given and equals the shown page; in a valid state a highlighted page is at least 1 and within a known positive count |
| `Viewer.AcceptedReferenceIsHighlighted` | src/components/pdf-viewer.tsx:91 | illustration, in one step from the contract of `ApplyGoToPage`: when the referenced page is both the request and the highlight, acceptance makes the shown page the highlighted one |
| `Viewer.EarlyRequestIsOverriddenByLoad` | src/components/pdf-viewer.tsx:24-35 | illustration, in one step from the contracts of `ApplyGoToPage` and `LoadSuccess`: a request made before loading is acknowledged, and the load that follows sets page 1 |
| `Viewer.CanHappen` | src/components/pdf-viewer.tsx:48-82 | while the error box is shown, only navigation requests can happen; otherwise requests and both load callbacks always can, and the Previous and Next buttons can be clicked exactly when they are not disabled |
| `Viewer.RunKeepsValid` | src/components/pdf-viewer.tsx:24-83 | from a valid state, any sequence of events that can happen leads to a valid state |
| `Viewer.ReachableStatesAreValid` | src/components/pdf-viewer.tsx:20-83 | every state reachable from the initial one satisfies the invariant |
| `Viewer.PdfViewer.constructor` | src/components/pdf-viewer.tsx:20-22 | the viewer starts on page 1 with the count unknown and no error |
| `Viewer.PdfViewer.OnGoToPage` | src/components/pdf-viewer.tsx:24-29 | the effect updates the fields and reports the acknowledgement exactly as `ApplyGoToPage` does, and keeps the invariant |
| `Viewer.PdfViewer.OnDocumentLoadSuccess` | src/components/pdf-viewer.tsx:31-35 | the fields become those of `LoadSuccess` |
| `Viewer.PdfViewer.OnDocumentLoadError` | src/components/pdf-viewer.tsx:37-39 | the fields become those of `LoadError` |
| `Viewer.PdfViewer.OnPrevious` | src/components/pdf-viewer.tsx:68-73 | callable only while the button is rendered and enabled; the fields become those of `Previous` |
| `Viewer.PdfViewer.OnNext` | src/components/pdf-viewer.tsx:79-84 | callable only while the button is rendered and enabled; the fields become those of `Next` |

## Left out

- Dashboard.WithMetrics: the contract states which rows are kept and how many times, not that the kept rows stay in input order. Order cannot change a sum, a count or a mean, and `PreFilterKeepsPresentValues` does state that the present values keep their order.
- Dashboard.HavingMetric: the contract states which rows are kept and how many times, not that they stay in input order. Only the length of this filter is used (src/app/dashboard/page.tsx:59, :61).

- Floating point: the averages are exact real arithmetic, with no rounding, overflow or `NaN`.
- Number shapes of the viewer: page numbers and requests are whole numbers. A fractional or `NaN` `goToPage` is not modelled.
- Timing of React updates: each event is applied atomically, in the order given. React batches state updates and re-runs the navigation effect whenever `goToPage`, `numPages` or the callback changes. The model lets a `GoToPage` event occur at any point of a sequence, and this covers those re-runs.
- `onGoToPageHandled` is optional in the component. The model reports whether the effect would call it and leaves out whether a parent supplied it.
- Rendering: the react-pdf `Document`/`Page` components, the pdfjs worker set-up, the "Page N of —" label and all styling. The error box and the highlight are modelled as the values they depend on.
- The rest of the dashboard page: data fetching and caching, loading and error screens, and table and card markup.
- `units`, `yearBuilt`, `propertyType` and `location` are carried in the row but take no part in the aggregation, as in the code.
- The referenced-page extraction (`extractReferencedPage`) and the cited-source click handling on the document page are not part of this model. Only the viewer's side of that handshake is modelled: a request comes in and an acknowledgement goes out.
- The HTTP client, the file proxy route, the upload dialog, the landing page and the number and date formatting helpers are not part of this model. They consist of I/O or calls into foreign libraries.
- Idempotence of the aggregation is not stated as a lemma: it holds for any Dafny function, which has no hidden state.
