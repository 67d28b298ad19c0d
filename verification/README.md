# Phishing & deepfake detector: a Dafny model of the extension and the URL heuristic

This project models the decision logic of a browser extension and its analysis
service:

- **Content script.** `getImages` collects image records from a page: `<img>`
  elements that are large enough, have an `http` source and are not UI elements,
  ranked largest first; then elements whose CSS `background-image` holds an `http`
  URL, in document order. Records whose source already appeared are dropped.
  `highlightDeepfake` gives every `<img>` whose source is a given URL a red border
  and listeners, and appends a hidden overlay to that image's parent. Every element
  whose background URL is that URL gets a red border, a visible overlay of its own
  and a click listener.
- **Popup.** It probes the service, asks for a URL verdict, injects the content
  script and requests the image list. It then analyses at most the first five
  records, one at a time, keeps one list entry per analysed image and asks the
  page to highlight each positive.
- **Background worker.** When a tab finishes loading an `http` page, it asks for a
  URL verdict and sets that tab's icon (and raises a notification) from it.
- **Service.** `extract_url_features` and `analyze_url` compute URL features and an
  additive risk score, capped at 1.0, with phishing meaning a score above 0.5.

The browser, the network and the service are inputs of the model:

- A page is a sequence of elements in document order. Each element has what the
  script reads (`Dom.Node`) and what the highlight writes (`Dom.Decor`).
- Every request's outcome is a `Service.Response`: it threw, answered non-2xx, or
  answered with a body.
- `tldextract`'s split of the host is the `UrlRisk.Parts` input.

Every weight of the risk score is a whole number of tenths, so the score is an
integer from 0 to 10. The float sums that are exactly 0.5 on paper (0.3+0.2,
0.2+0.3 and 0.2+0.2+0.1, added in the code's order) are also exactly 0.5 in
IEEE doubles. So `risk_score > 0.5` and "more than 5 tenths" agree on every
combination of checks.

Modules, one per file: `Optional`, `Text` (prefix, substring, counting and
lower-casing), `Dom`, `CssUrl` (the regular expression `url\(['"]?(.*?)['"]?\)`),
`AreaSort` (the stable sort by area), `Dedup` (the `findIndex` filter),
`Extraction` (`getImages`), `Annotation` (`highlightDeepfake`), `ContentScript`
(the message listener), `Service` (responses and call traces), `Popup`, `Pipeline`
(the popup fed by `getImages`), `Watcher` (the background worker), `UrlRisk`.

Where the code does something a reader of its comments might not expect, the
model follows the code:

- Only the `<img>` records are sorted by area. Background records are appended
  after them in document order, unsorted, even when one of them is larger
  (`Extraction.BackgroundNotRanked`).
- When the service is unreachable, or the URL check fails, the background worker
  leaves the tab's icon as it was. A stale warning icon stays after an outage
  (`Watcher.OutageKeepsWarning`).
- The popup always attempts the script injection, ignores its outcome and then
  requests the image list once. There is no retry.
- An `<img>` overlay starts hidden and is toggled by hover listeners. A
  background element's overlay is appended visible and gets only a click
  listener.
- "Analyzed N of M" reports the length of the first-five slice. That includes
  records that were skipped for a non-`http` source and records whose analysis
  failed.
- A failure to fetch the image list also turns the URL status into "Error
  analyzing URL", even when the URL verdict had already been shown.

## Model

| member | source | states |
|---|---|---|
| Text.ContainsIff | extension/content.js:10 | the substring test used for `includes` and Python's `in` holds exactly when the word occurs at some position |
| Text.CountChar | api/main.py:53 | the count of a character is its multiplicity in the string, at most the length |
| CssUrl.CloseFrom | extension/content.js:51 | the lazy `(.*?)` stops at the first position where an optional quote and `)` close the match; it fails only at a line terminator or the end |
| CssUrl.CloseFromCaptures | extension/content.js:51 | the scan for the close finds exactly the lazy capture at that position: the shortest run of non-line-terminators followed by an optional quote and `)` |
| CssUrl.LazyCaptureUnique | extension/content.js:51 | at a given start there is at most one lazy capture |
| CssUrl.MatchAt | extension/content.js:51 | an attempt at `url(` succeeds iff a lazy capture exists after `url(` or after an opening quote; the alternative that consumes the quote is preferred, the other is taken only when it has no capture; the capture is part of a whole match and holds no `)` or line terminator |
| CssUrl.LeftmostMatch | extension/content.js:51 | the match starts at the first occurrence of `url(` whose attempt succeeds; no match iff every attempt fails |
| CssUrl.FindFrom | extension/content.js:51 | the result is the capture of the leftmost successful attempt, part of a whole `url(...)` match; none iff every attempt from that position fails |
| CssUrl.FirstUrlRoundTrip | extension/content.js:163 | wrapping a plain URL in `url(...)` with no quote, `'` or `"` and matching it gives the URL back |
| AreaSort.Insert | extension/content.js:39 | inserting into a list ranked largest first keeps it ranked and adds exactly the new record |
| AreaSort.SortByArea | extension/content.js:39 | the result is ranked largest first and is a permutation of the input |
| AreaSort.SortByAreaStable | extension/content.js:39 | records of equal area keep their original relative order, as `Array.prototype.sort` guarantees |
| Dedup.FindIndex | extension/content.js:71 | `findIndex` returns the first position with that source, or -1 when there is none |
| Dedup.Unique | extension/content.js:70-72 | each kept record is the first with its source, kept records stay in input order, sources are distinct, and every first occurrence is kept |
| Extraction.NativeCandidates | extension/content.js:5-36 | the `<img>` records are exactly the records of the images that pass the source, UI and size filters |
| Extraction.NativeCandidatesInOrder | extension/content.js:5-36 | the `<img>` pass over two consecutive parts of the page is the pass over the first followed by the pass over the second, so records keep document order |
| Extraction.NativeCandidatesOne | extension/content.js:5-36 | one element gives its own record when it passes the filters and nothing otherwise |
| Extraction.BackgroundCandidates | extension/content.js:42-64 | the background records are exactly those of elements whose background URL matched and is `http` and not a data URL |
| Extraction.BackgroundCandidatesInOrder | extension/content.js:42-64 | the background pass over two consecutive parts of the page is the pass over the first followed by the pass over the second |
| Extraction.BackgroundCandidatesOne | extension/content.js:42-64 | one element gives its background record when it has one and nothing otherwise |
| Extraction.BackgroundRecordIff | extension/content.js:45-64 | an element yields a background record iff its background value is not `none`, holds a URL token and that URL is a valid source; the record has the matched URL, the element's offset width and height, and is flagged as background |
| Extraction.GetImages | extension/content.js:5-72 | the reply never repeats a source; `Extraction.GetImagesSound`, `Extraction.GetImagesOrder` and `Extraction.GetImagesComplete` state the rest |
| Extraction.GetImagesSound | extension/content.js:5-72 | every reply record has a valid source; an `<img>` record comes from a kept image of at least 30x30; a background record comes from an element; no source occurs twice |
| Extraction.GetImagesOrder | extension/content.js:39-67 | all `<img>` records come before all background records, and an `<img>` record is never larger than any record before it; each background record is the first of its source in the background pass, and background records keep that pass's order |
| Extraction.GetImagesComplete | extension/content.js:5-72 | every kept `<img>` has its source in the reply as an `<img>` record, and every background record's source is in the reply |
| Extraction.NativeWins | extension/content.js:67-72 | when an `<img>` and a background share a source, the `<img>` record is the one kept; every source of either kind is represented |
| Extraction.BackgroundNotRanked | extension/content.js:39-67 | with one image and one larger background of another source, the reply lists the image first, so the reply is not ranked by area |
| Extraction.SameSourceNativeKept | extension/content.js:67-72 | an image and a background with the same source give only the image's record |
| Annotation.MarkImages | extension/content.js:79-155 | after the `<img>` loop, each element has the border and listeners of a matching image and one hidden overlay per matching child image |
| Annotation.MarkBackgrounds | extension/content.js:158-226 | after the background pass, each matching element has the border, one visible overlay on itself and a click listener |
| Annotation.Highlight | extension/content.js:79-226 | exactly the matching elements get the red border; overlays and listeners are appended as the two passes promise; the read-only part of the page is unchanged; other elements are untouched |
| Annotation.RepeatedHighlight | extension/content.js:79-226 | highlighting the same URL twice marks the same elements but appends every overlay and listener a second time |
| ContentScript.HandleMessage | extension/content.js:2-232 | `getImages` leaves the page alone and replies with records of valid, distinct sources that include every kept `<img>` source and every background source, `<img>` records first and largest first, background records after them in document order; `highlightDeepfake` always acknowledges success and changes borders only of matches; other actions get no reply |
| Popup.FirstFive | extension/popup.js:122 | the analysed slice is the prefix of length min(5, n) |
| Popup.Step | extension/popup.js:128-196 | one iteration keeps the earlier requests and entries, adds at most two requests, adds one entry exactly for an `http` source, and adds at most one to the count; `Popup.StepAppends` states what it adds |
| Popup.Analyse | extension/popup.js:127-197 | the loop keeps the earlier requests and entries and adds at most one entry per remaining record; `Popup.AnalyseAppends` and `Popup.AnalyseCalls` state what it adds |
| Popup.AnalyseCalls | extension/popup.js:127-180 | the loop's requests are, for each analysable record in order, its image request followed by a highlight request exactly when the verdict is positive |
| Popup.ExpectedCallsShaped | extension/popup.js:134-180 | every loop request is an image request or a highlight request, and each highlight request directly follows the image request for the same source |
| Popup.StepAppends | extension/popup.js:128-196 | one iteration adds nothing for a non-`http` source; otherwise one image request, one entry from its own answer, and one highlight request and one count for a positive |
| Popup.AnalyseAppends | extension/popup.js:127-197 | the loop appends exactly the reference requests, one image request per analysable record in order with each highlight request right after its image request, one entry each, and one highlight request and one count per positive |
| Popup.RunPopup | extension/popup.js:17-233 | a failed probe stops after it, with no list and no summary; a failed URL check stops before any image work, with no list and no summary; an empty list shows "No images found" after exactly the four opening requests, keeps the URL verdict shown and shows no list or summary; a rejected `getImages` message or a reply without a list shows "Error analyzing URL" and "Error analyzing images" after the same four requests, with no entries and no summary; image requests happen only after both gates and never more than five |
| Popup.BatchContract | extension/popup.js:93-217 | the calls are exactly the probe, URL check, injection and image-list request, then per analysable record of the slice its image request, directly followed by its highlight request when the verdict is positive; entries, deepfake status and summary match the reference views of the slice |
| Popup.BatchCalls | extension/popup.js:93-180 | the batch's requests are the four opening ones followed by the loop's, record by record, each highlight request right after its image request |
| Popup.BatchViews | extension/popup.js:122-217 | the batch's image requests, entries, highlight requests, deepfake status and summary agree with the reference views of the first five records |
| Popup.EntriesPerRecord | extension/popup.js:181-196 | with all sources `http`, entry k belongs to record k and is an error entry exactly when that record's request failed |
| Popup.SourcesPerRecord | extension/popup.js:129-139 | with all sources `http`, request k is for record k |
| Popup.FailureDoesNotStopBatch | extension/popup.js:127-197 | when one of five requests fails, all five records still get an entry and only the failed one is an error entry |
| Pipeline.DistinctBatch | extension/popup.js:104-139 | fed a list of `http` records with distinct sources, the popup skips none of the first five, requests the `k`-th record's source `k`-th, never the same source twice, and makes one entry per request |
| Pipeline.ExtractedBatch | extension/popup.js:104-139 | fed the content script's `getImages` reply, the popup skips none of the first five and requests each distinct source once, in order |
| Watcher.OnUpdated | extension/background.js:2-73 | nothing happens unless a loaded `http` page; URL check only after a good probe; only the updated tab's icon changes, and only on a verdict; one notification per phishing verdict |
| Watcher.Replay | extension/background.js:2-73 | over a run of updates, requests are only appended, notifications only added, and a tab's icon once set stays set; `Watcher.LastVerdictWins` and `Watcher.NotificationsCounted` state the rest |
| Watcher.IconKeptWithoutVerdict | extension/background.js:21-37 | updates of other tabs, and updates of a tab that reach no verdict, never change that tab's icon |
| Watcher.LastVerdictWins | extension/background.js:41-69 | a tab's icon is the verdict of its last update that reached one |
| Watcher.NotificationsCounted | extension/background.js:41-48 | the number of notifications is the number of phishing verdicts |
| Watcher.StaleWarningCleared | extension/background.js:59-68 | a flagged tab judged safe on its next load shows the normal icon again |
| Watcher.OutageKeepsWarning | extension/background.js:7-24 | a flagged tab keeps the warning icon when the service is down on its next load |
| UrlRisk.FullDomain | api/main.py:39 | the full domain starts with the subdomain and a dot (or, without one, the domain and a dot) and ends with the domain, a dot and the suffix, with the length of exactly those parts, so every character is fixed; it adds two dots with a subdomain and one without |
| UrlRisk.WordCountIsHits | api/main.py:42-44 | over a list without repeats, the word count is the number of distinct listed words that occur, so at most the list's length |
| UrlRisk.ExtractFeatures | api/main.py:34-58 | `has_https` iff the URL starts with `https://`; `num_dots` is the number of dots; the word count is the number of distinct listed words in the lower-cased URL, at most 11; `has_suspicious_words` iff one occurs; `has_ip_address` iff the domain holds a digit; `full_domain` is the joined host |
| UrlRisk.FirstWord | api/main.py:74-77 | the scan with `break` stops at the first listed word that occurs, or finds none when no listed word occurs |
| UrlRisk.FirstWordIff | api/main.py:86-89 | the scan finds a word exactly when the set of occurring listed words is non-empty |
| UrlRisk.WordTerm | api/main.py:72-77 | the scan over the URL adds 0.2 exactly when the word count is positive |
| UrlRisk.RawScore | api/main.py:64-102 | the uncapped sum is at most 1.7, and at least 0.3 when the URL lacks `https://`, has a digit in the domain or a listed suffix; `UrlRisk.ScoreFromFeatures` ties each term to the features |
| UrlRisk.AnalyzeUrl | api/main.py:60-109 | the score never exceeds 1.0 and the URL is phishing exactly when the score is above 0.5 |
| UrlRisk.ScoreFromFeatures | api/main.py:64-102 | the score is the capped sum of the feature weights: the word term counts once, exactly when the feature count is positive; a subdomain adds 0.1 plus 0.3 if it holds a listed word |
| UrlRisk.PhishingNeedsTwoSignals | api/main.py:67-107 | no single check makes a URL phishing |
| UrlRisk.TwoHeavySignalsSuffice | api/main.py:68-107 | any two of: no `https://`, a digit in the domain, a listed suffix, make a URL phishing |
| UrlRisk.HttpWithWordIsBoundary | api/main.py:68-107 | a plain-http URL with a listed word and nothing else scores exactly 0.5 and is not phishing |

## Left out

- `analyze_image`, the FastAPI app, CORS and routes: image download, DeepFace and pixel statistics are foreign code; the verdict is an input (`Service.ImageVerdict`).
- `path_length`: it reads an attribute of the foreign `tldextract` result; the host split itself is the input `UrlRisk.Parts`.
- The icon generator script: it only writes image files.
- Geometry is in whole pixels; the browser's fractional `getBoundingClientRect` values and layout are inputs.
- Lower-casing and digit tests cover ASCII only; Python's `str.lower` and `str.isdigit` also map and accept other Unicode characters.
- Displayed scores are carried as reals and only shown; the float risk score is replaced by integer tenths, which agree on every verdict.
- Markup, CSS, dialog contents, error texts and colours are not modelled: only which status, entry or overlay is shown.
- The hover and click handlers are recorded as attached listeners; what they do when fired (showing the overlay, opening the detail dialog) is not modelled.
- The `MutationObserver` and the injected stylesheet of the content script: they only log and add styles.
- The popup's guard for missing status elements and a missing active tab: the popup page always has both, and the tab is an input.
- The outcome of the script injection: the code ignores it, so it is not an input.
- The outcome of a highlight message sent by the popup: the code swallows its failure, so only the call is recorded.
- The border's effect on layout: sizes are read before the highlight.
- The overlay `div`s the highlight appends are recorded in their host element's decoration, not added to the page as elements. In the browser they are elements: the background pass (`extension/content.js:158`) reads the element list after the `<img>` loop has appended its overlays (`extension/content.js:115`), and a later `getImages` (`extension/content.js:42`) visits them too. They set only a background colour, so they yield no record unless a page stylesheet gives `div`s a `url(...)` background image. `Annotation.Highlight`'s promise that the read part of the page is unchanged holds under this abstraction.
- Icon resets the browser does on its own when a tab navigates: only the handler's own `setIcon` calls are modelled.
- Concurrency between overlapping handler runs: each run is modelled as completing before the next update.
