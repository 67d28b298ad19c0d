/** The popup's `DOMContentLoaded` handler: probe the service, check the tab's URL,
    fetch the page's image records from the content script, then analyse at most
    the first five, one after another, recording one entry per analysed image and
    asking the content script to highlight every positive. */
module Popup {
  import opened Optional
  import opened Text
  import opened Dom
  import opened Service

  const MaxAnalysed := 5

  /** The content script's answer to `getImages`: the message was rejected, or a reply
      came that may lack an `images` list. */
  datatype ImagesAnswer = Rejected | Answered(images: Option<seq<Candidate>>)

  /** What the handler learns from outside, in the order it asks. `imageCheck(i)` is
      the answer to the image request for the `i`-th record of the first five. */
  datatype Environment = Environment(
    probe: Response<()>,
    urlCheck: Response<UrlVerdict>,
    images: ImagesAnswer,
    imageCheck: nat -> Response<ImageVerdict>)

  datatype UrlStatus = UrlUnavailable | PhishingRisk | UrlSafe | UrlError

  datatype ImageStatus = ImagesUnavailable | NoImagesFound | DeepfakesFound(count: nat) | NoDeepfakes | ImagesError

  /** The error panel shown: the unified "not available" one, or the one of the outer handler. */
  datatype Failure = ServiceUnavailable | UrlCheckFailed | ImageListFailed

  /** One line of the image list. */
  datatype Entry = Verdict(image: Candidate, verdict: ImageVerdict) | AnalysisFailed(image: Candidate)

  /** "Analyzed `analysed` of `total` images", and the number of positives. */
  datatype Summary = Summary(analysed: nat, total: nat, deepfakes: nat)

  datatype Session = Session(
    calls: seq<Call>,
    urlStatus: UrlStatus,
    imageStatus: ImageStatus,
    entries: seq<Entry>,
    summary: Option<Summary>,
    failure: Option<Failure>)

  /** The state the image loop carries. */
  datatype LoopState = LoopState(calls: seq<Call>, entries: seq<Entry>, deepfakes: nat)

  /** Only sources starting with `http` are sent for analysis. */
  predicate Analysable(c: Candidate) {
    StartsWith(c.src, "http")
  }

  /** The list entry for an analysed image and the answer it got. */
  function EntryFor(c: Candidate, o: Response<ImageVerdict>): Entry {
    match o
    case Ok(v) => Verdict(c, v)
    case _ => AnalysisFailed(c)
  }

  predicate IsPositive(e: Entry) {
    e.Verdict? && e.verdict.isDeepfake
  }

  /** One iteration of the loop: skip a non-http source; otherwise request the
      analysis, record a verdict or an error entry, and on a positive verdict count
      it and send a highlight request (whose failure is swallowed). */
  function Step(st: LoopState, c: Candidate, o: Response<ImageVerdict>): (r: LoopState)
    // earlier requests and entries are kept; a record adds at most two requests and one entry
    ensures st.calls <= r.calls && |r.calls| <= |st.calls| + 2
    ensures st.entries <= r.entries && |r.entries| == |st.entries| + (if Analysable(c) then 1 else 0)
    ensures st.deepfakes <= r.deepfakes <= st.deepfakes + 1
  {
    if !Analysable(c) then st
    else
      var e := EntryFor(c, o);
      LoopState(st.calls + [PostAnalyzeImage(c.src)] + (if IsPositive(e) then [SendHighlight(c.src)] else []),
                st.entries + [e],
                st.deepfakes + (if IsPositive(e) then 1 else 0))
  }

  /** The `for ... of` loop over `slice`, from position `i`, one awaited request at a time. */
  function Analyse(slice: seq<Candidate>, i: nat, check: nat -> Response<ImageVerdict>, st: LoopState): (r: LoopState)
    requires i <= |slice|
    // earlier requests and entries are kept; at most one entry per remaining record
    ensures st.calls <= r.calls && st.entries <= r.entries
    ensures |r.entries| <= |st.entries| + (|slice| - i)
    decreases |slice| - i
  {
    if i == |slice| then st
    else Analyse(slice, i + 1, check, Step(st, slice[i], check(i)))
  }

  /** `images.slice(0, 5)`. */
  function FirstFive(images: seq<Candidate>): (r: seq<Candidate>)
    ensures |r| == if |images| < MaxAnalysed then |images| else MaxAnalysed
    ensures r == images[..|r|]
  {
    if |images| < MaxAnalysed then images else images[..MaxAnalysed]
  }

  // ---- Reference views of a run ----

  /** The URLs sent to `/analyze-image`, in call order. */
  function ImageCheckUrls(calls: seq<Call>): seq<string> {
    if calls == [] then []
    else (if calls[0].PostAnalyzeImage? then [calls[0].imageUrl] else []) + ImageCheckUrls(calls[1..])
  }

  /** The URLs of highlight requests, in call order. */
  function HighlightUrls(calls: seq<Call>): seq<string> {
    if calls == [] then []
    else (if calls[0].SendHighlight? then [calls[0].imageUrl] else []) + HighlightUrls(calls[1..])
  }

  /** The sources of the analysable records of `slice` from position `i`, in order. */
  function AnalysableSources(slice: seq<Candidate>, i: nat): seq<string>
    requires i <= |slice|
    decreases |slice| - i
  {
    if i == |slice| then []
    else (if Analysable(slice[i]) then [slice[i].src] else []) + AnalysableSources(slice, i + 1)
  }

  /** One entry per analysable record of `slice` from position `i`, built from that
      record's own answer. */
  function ExpectedEntries(slice: seq<Candidate>, check: nat -> Response<ImageVerdict>, i: nat): seq<Entry>
    requires i <= |slice|
    decreases |slice| - i
  {
    if i == |slice| then []
    else (if Analysable(slice[i]) then [EntryFor(slice[i], check(i))] else []) + ExpectedEntries(slice, check, i + 1)
  }

  /** The requests one analysable record gives rise to: its image request and,
      when the answer is a positive verdict, a highlight request right after it. */
  function RecordCalls(c: Candidate, o: Response<ImageVerdict>): seq<Call> {
    [PostAnalyzeImage(c.src)] + (if IsPositive(EntryFor(c, o)) then [SendHighlight(c.src)] else [])
  }

  /** The requests the loop sends for `slice` from position `i`, record by record. */
  function ExpectedCalls(slice: seq<Candidate>, check: nat -> Response<ImageVerdict>, i: nat): seq<Call>
    requires i <= |slice|
    decreases |slice| - i
  {
    if i == |slice| then []
    else (if Analysable(slice[i]) then RecordCalls(slice[i], check(i)) else []) + ExpectedCalls(slice, check, i + 1)
  }

  /** Every request of the loop is an image request or a highlight request, and a
      highlight request directly follows the image request for the same source. */
  predicate LoopShaped(calls: seq<Call>) {
    && (forall k :: 0 <= k < |calls| ==> calls[k].PostAnalyzeImage? || calls[k].SendHighlight?)
    && (forall k :: 0 <= k < |calls| && calls[k].SendHighlight? ==>
          0 < k && calls[k - 1] == PostAnalyzeImage(calls[k].imageUrl))
  }

  /** The number of positive verdicts among `entries`. */
  function Positives(entries: seq<Entry>): nat {
    if entries == [] then 0 else (if IsPositive(entries[0]) then 1 else 0) + Positives(entries[1..])
  }

  /** The sources of the positive verdicts among `entries`, in order. */
  function PositiveSources(entries: seq<Entry>): seq<string> {
    if entries == [] then []
    else (if IsPositive(entries[0]) then [entries[0].image.src] else []) + PositiveSources(entries[1..])
  }

  lemma ImageCheckUrlsConcat(a: seq<Call>, b: seq<Call>)
    ensures ImageCheckUrls(a + b) == ImageCheckUrls(a) + ImageCheckUrls(b)
  {
    if a != [] {
      assert (a + b)[0] == a[0] && (a + b)[1..] == a[1..] + b;
      ImageCheckUrlsConcat(a[1..], b);
    } else {
      assert a + b == b;
    }
  }

  lemma HighlightUrlsConcat(a: seq<Call>, b: seq<Call>)
    ensures HighlightUrls(a + b) == HighlightUrls(a) + HighlightUrls(b)
  {
    if a != [] {
      assert (a + b)[0] == a[0] && (a + b)[1..] == a[1..] + b;
      HighlightUrlsConcat(a[1..], b);
    } else {
      assert a + b == b;
    }
  }

  lemma PositivesConcat(a: seq<Entry>, b: seq<Entry>)
    ensures Positives(a + b) == Positives(a) + Positives(b)
    ensures PositiveSources(a + b) == PositiveSources(a) + PositiveSources(b)
  {
    if a != [] {
      assert (a + b)[0] == a[0] && (a + b)[1..] == a[1..] + b;
      PositivesConcat(a[1..], b);
    } else {
      assert a + b == b;
    }
  }

  /** Calls that are neither image requests nor highlight requests add nothing to
      either view. */
  lemma {:induction false} NoImageCalls(calls: seq<Call>)
    requires forall k :: 0 <= k < |calls| ==> !calls[k].PostAnalyzeImage? && !calls[k].SendHighlight?
    ensures ImageCheckUrls(calls) == [] && HighlightUrls(calls) == []
  {
    if calls != [] {
      NoImageCalls(calls[1..]);
    }
  }

  /** At most one request per record. */
  lemma {:induction false} AnalysableSourcesLength(slice: seq<Candidate>, i: nat)
    requires i <= |slice|
    ensures |AnalysableSources(slice, i)| <= |slice| - i
    decreases |slice| - i
  {
    if i < |slice| {
      AnalysableSourcesLength(slice, i + 1);
    }
  }

  /** The entries one iteration contributes: one for an analysable record, none otherwise. */
  function StepEntries(c: Candidate, o: Response<ImageVerdict>): seq<Entry> {
    if Analysable(c) then [EntryFor(c, o)] else []
  }

  lemma StepAppends(st: LoopState, c: Candidate, o: Response<ImageVerdict>)
    ensures ImageCheckUrls(Step(st, c, o).calls) == ImageCheckUrls(st.calls) + (if Analysable(c) then [c.src] else [])
    ensures Step(st, c, o).entries == st.entries + StepEntries(c, o)
    ensures Step(st, c, o).deepfakes == st.deepfakes + Positives(StepEntries(c, o))
    ensures HighlightUrls(Step(st, c, o).calls) == HighlightUrls(st.calls) + PositiveSources(StepEntries(c, o))
  {
    if Analysable(c) {
      var e := EntryFor(c, o);
      var tail := if IsPositive(e) then [SendHighlight(c.src)] else [];
      var extra := [PostAnalyzeImage(c.src)] + tail;
      assert Step(st, c, o).calls == st.calls + extra;
      ImageCheckUrlsConcat(st.calls, extra);
      HighlightUrlsConcat(st.calls, extra);
      assert extra[0] == PostAnalyzeImage(c.src) && extra[1..] == tail;
      if IsPositive(e) {
        assert tail[1..] == [];
      }
      assert ImageCheckUrls(tail) == [];
      assert HighlightUrls(tail) == if IsPositive(e) then [c.src] else [];
      assert [e][1..] == [];
    }
  }

  /** The loop sends exactly the requests of its records, in record order, each
      highlight request right after the image request it follows from. */
  lemma {:induction false} AnalyseCalls(slice: seq<Candidate>, i: nat, check: nat -> Response<ImageVerdict>, st: LoopState)
    requires i <= |slice|
    ensures Analyse(slice, i, check, st).calls == st.calls + ExpectedCalls(slice, check, i)
    decreases |slice| - i
  {
    if i < |slice| {
      var c := slice[i];
      var head := if Analysable(c) then RecordCalls(c, check(i)) else [];
      var next := Step(st, c, check(i));
      assert next.calls == st.calls + head;
      AnalyseCalls(slice, i + 1, check, next);
      var rest := ExpectedCalls(slice, check, i + 1);
      assert ExpectedCalls(slice, check, i) == head + rest;
      assert (st.calls + head) + rest == st.calls + (head + rest);
    }
  }

  /** The reference requests are loop-shaped. */
  lemma {:induction false} ExpectedCallsShaped(slice: seq<Candidate>, check: nat -> Response<ImageVerdict>, i: nat)
    requires i <= |slice|
    ensures LoopShaped(ExpectedCalls(slice, check, i))
    decreases |slice| - i
  {
    if i < |slice| {
      ExpectedCallsShaped(slice, check, i + 1);
      var head := if Analysable(slice[i]) then RecordCalls(slice[i], check(i)) else [];
      assert LoopShaped(head);
      LoopShapedConcat(head, ExpectedCalls(slice, check, i + 1));
    }
  }

  /** Loop-shaped request lists stay loop-shaped when joined. */
  lemma LoopShapedConcat(a: seq<Call>, b: seq<Call>)
    requires LoopShaped(a) && LoopShaped(b)
    ensures LoopShaped(a + b)
  {
    var ab := a + b;
    forall k | 0 <= k < |ab| && ab[k].SendHighlight?
      ensures 0 < k && ab[k - 1] == PostAnalyzeImage(ab[k].imageUrl)
    {
      if k < |a| {
        assert ab[k] == a[k];
      } else {
        assert ab[k] == b[k - |a|];
      }
    }
  }

  /** The loop sends one image request per analysable record, in order. */
  lemma {:induction false} AnalyseRequests(slice: seq<Candidate>, i: nat, check: nat -> Response<ImageVerdict>, st: LoopState)
    requires i <= |slice|
    ensures ImageCheckUrls(Analyse(slice, i, check, st).calls) == ImageCheckUrls(st.calls) + AnalysableSources(slice, i)
    decreases |slice| - i
  {
    if i < |slice| {
      var c := slice[i];
      var next := Step(st, c, check(i));
      StepAppends(st, c, check(i));
      AnalyseRequests(slice, i + 1, check, next);
      assert AnalysableSources(slice, i) == (if Analysable(c) then [c.src] else []) + AnalysableSources(slice, i + 1);
    }
  }

  /** The loop records one entry per analysable record, from its own answer, and
      counts the positive ones. */
  lemma {:induction false} AnalyseEntries(slice: seq<Candidate>, i: nat, check: nat -> Response<ImageVerdict>, st: LoopState)
    requires i <= |slice|
    ensures Analyse(slice, i, check, st).entries == st.entries + ExpectedEntries(slice, check, i)
    ensures Analyse(slice, i, check, st).deepfakes == st.deepfakes + Positives(ExpectedEntries(slice, check, i))
    decreases |slice| - i
  {
    if i < |slice| {
      var c := slice[i];
      var next := Step(st, c, check(i));
      StepAppends(st, c, check(i));
      AnalyseEntries(slice, i + 1, check, next);
      var es := StepEntries(c, check(i));
      var rest := ExpectedEntries(slice, check, i + 1);
      assert ExpectedEntries(slice, check, i) == es + rest;
      PositivesConcat(es, rest);
    }
  }

  /** The loop sends one highlight request per positive entry, in order. */
  lemma {:induction false} AnalyseHighlights(slice: seq<Candidate>, i: nat, check: nat -> Response<ImageVerdict>, st: LoopState)
    requires i <= |slice|
    ensures HighlightUrls(Analyse(slice, i, check, st).calls) ==
            HighlightUrls(st.calls) + PositiveSources(ExpectedEntries(slice, check, i))
    decreases |slice| - i
  {
    if i < |slice| {
      var c := slice[i];
      var next := Step(st, c, check(i));
      StepAppends(st, c, check(i));
      AnalyseHighlights(slice, i + 1, check, next);
      var es := StepEntries(c, check(i));
      var rest := ExpectedEntries(slice, check, i + 1);
      assert ExpectedEntries(slice, check, i) == es + rest;
      PositivesConcat(es, rest);
    }
  }

  /** The loop, started in any state, appends exactly the reference views: one image
      request per analysable record in order, one entry per analysable record built
      from its own answer, and one highlight request and one count per positive entry. */
  lemma AnalyseAppends(slice: seq<Candidate>, i: nat, check: nat -> Response<ImageVerdict>, st: LoopState)
    requires i <= |slice|
    ensures Analyse(slice, i, check, st).calls == st.calls + ExpectedCalls(slice, check, i)
    ensures LoopShaped(Analyse(slice, i, check, st).calls[|st.calls|..])
    ensures ImageCheckUrls(Analyse(slice, i, check, st).calls) == ImageCheckUrls(st.calls) + AnalysableSources(slice, i)
    ensures Analyse(slice, i, check, st).entries == st.entries + ExpectedEntries(slice, check, i)
    ensures Analyse(slice, i, check, st).deepfakes == st.deepfakes + Positives(ExpectedEntries(slice, check, i))
    ensures HighlightUrls(Analyse(slice, i, check, st).calls) ==
            HighlightUrls(st.calls) + PositiveSources(ExpectedEntries(slice, check, i))
  {
    AnalyseCalls(slice, i, check, st);
    ExpectedCallsShaped(slice, check, i);
    assert Analyse(slice, i, check, st).calls[|st.calls|..] == ExpectedCalls(slice, check, i);
    AnalyseRequests(slice, i, check, st);
    AnalyseEntries(slice, i, check, st);
    AnalyseHighlights(slice, i, check, st);
  }

  /** The handler for the tab whose URL is `tabUrl`. */
  function RunPopup(tabUrl: string, env: Environment): (s: Session)
    // a probe that throws or answers non-2xx: nothing else is requested
    ensures !env.probe.Ok? ==> s.calls == [GetRoot] && s.failure == Some(ServiceUnavailable)
                               && s.urlStatus == UrlUnavailable && s.imageStatus == ImagesUnavailable
                               && s.entries == [] && s.summary == None
    // a URL check that throws or answers non-2xx: no images are fetched or analysed
    ensures env.probe.Ok? && !env.urlCheck.Ok? ==>
              s.calls == [GetRoot, PostAnalyzeUrl(tabUrl)] && s.failure == Some(UrlCheckFailed)
              && s.urlStatus == UrlError && s.imageStatus == ImagesError && s.entries == [] && s.summary == None
    // an empty image list: "No images found" and no image request
    ensures env.probe.Ok? && env.urlCheck.Ok? && env.images == Answered(Some([])) ==>
              s.calls == [GetRoot, PostAnalyzeUrl(tabUrl), InjectContentScript, SendGetImages]
              && s.imageStatus == NoImagesFound && ImageCheckUrls(s.calls) == [] && s.failure == None
              && s.urlStatus == (if env.urlCheck.body.isPhishing then PhishingRisk else UrlSafe)
              && s.entries == [] && s.summary == None
    // a rejected `getImages` message or a reply without a list: the outer handler's
    // error statuses for both panels, and no image request
    ensures env.probe.Ok? && env.urlCheck.Ok? && !(env.images.Answered? && env.images.images.Some?) ==>
              s.calls == [GetRoot, PostAnalyzeUrl(tabUrl), InjectContentScript, SendGetImages]
              && s.urlStatus == UrlError && s.imageStatus == ImagesError && s.entries == []
              && s.failure == Some(ImageListFailed) && s.summary == None
    // image requests only after both gates passed, and never more than five
    ensures ImageCheckUrls(s.calls) != [] ==> env.probe.Ok? && env.urlCheck.Ok? && env.images.Answered?
    ensures |ImageCheckUrls(s.calls)| <= MaxAnalysed
  {
    var urlCalls := [GetRoot, PostAnalyzeUrl(tabUrl)];
    var listCalls := urlCalls + [InjectContentScript, SendGetImages];
    NoImageCalls(urlCalls);
    NoImageCalls(listCalls);
    if !env.probe.Ok? then
      Session([GetRoot], UrlUnavailable, ImagesUnavailable, [], None, Some(ServiceUnavailable))
    else
      match env.urlCheck
      case Ok(v) =>
        var urlStatus := if v.isPhishing then PhishingRisk else UrlSafe;
        (match env.images
         case Answered(Some(images)) =>
           if |images| == 0 then Session(listCalls, urlStatus, NoImagesFound, [], None, None)
           else
             var slice := FirstFive(images);
             var loop := Analyse(slice, 0, env.imageCheck, LoopState([], [], 0));
             AnalyseAppends(slice, 0, env.imageCheck, LoopState([], [], 0));
             AnalysableSourcesLength(slice, 0);
             ImageCheckUrlsConcat(listCalls, loop.calls);
             Session(listCalls + loop.calls, urlStatus,
                     if loop.deepfakes > 0 then DeepfakesFound(loop.deepfakes) else NoDeepfakes,
                     loop.entries, Some(Summary(|slice|, |images|, loop.deepfakes)), None)
         case _ => Session(listCalls, UrlError, ImagesError, [], None, Some(ImageListFailed)))
      case _ => Session(urlCalls, UrlError, ImagesError, [], None, Some(UrlCheckFailed))
  }

  /** A full batch: after the probe, the URL check, the injection and the image
      request, the image requests go to the analysable records among the first five,
      in order; the list holds one entry per analysable record, built from that
      record's own answer (skipped records leave no entry); highlight requests go
      exactly to the positive entries; the tally, the status and the summary agree. */
  lemma BatchContract(tabUrl: string, env: Environment, images: seq<Candidate>)
    requires env.probe.Ok? && env.urlCheck.Ok? && env.images == Answered(Some(images)) && |images| > 0
    ensures var s := RunPopup(tabUrl, env);
            && s.calls[..4] == [GetRoot, PostAnalyzeUrl(tabUrl), InjectContentScript, SendGetImages]
            && s.calls == [GetRoot, PostAnalyzeUrl(tabUrl), InjectContentScript, SendGetImages]
                          + ExpectedCalls(FirstFive(images), env.imageCheck, 0)
            && LoopShaped(s.calls[4..])
            && s.urlStatus == (if env.urlCheck.body.isPhishing then PhishingRisk else UrlSafe)
            && ImageCheckUrls(s.calls) == AnalysableSources(FirstFive(images), 0)
            && s.entries == ExpectedEntries(FirstFive(images), env.imageCheck, 0)
            && HighlightUrls(s.calls) == PositiveSources(s.entries)
            && s.imageStatus == (if Positives(s.entries) > 0 then DeepfakesFound(Positives(s.entries)) else NoDeepfakes)
            && s.summary == Some(Summary(|FirstFive(images)|, |images|, Positives(s.entries)))
            && s.failure == None
  {
    BatchCalls(tabUrl, env, images);
    BatchViews(tabUrl, env, images);
  }

  /** The batch's requests: the four opening ones, then the loop's, record by record. */
  lemma BatchCalls(tabUrl: string, env: Environment, images: seq<Candidate>)
    requires env.probe.Ok? && env.urlCheck.Ok? && env.images == Answered(Some(images)) && |images| > 0
    ensures var calls := RunPopup(tabUrl, env).calls;
            && calls[..4] == [GetRoot, PostAnalyzeUrl(tabUrl), InjectContentScript, SendGetImages]
            && calls == [GetRoot, PostAnalyzeUrl(tabUrl), InjectContentScript, SendGetImages]
                        + ExpectedCalls(FirstFive(images), env.imageCheck, 0)
            && LoopShaped(calls[4..])
  {
    var listCalls := [GetRoot, PostAnalyzeUrl(tabUrl), InjectContentScript, SendGetImages];
    var loop := Analyse(FirstFive(images), 0, env.imageCheck, LoopState([], [], 0));
    BatchSession(tabUrl, env, images);
    AnalyseCalls(FirstFive(images), 0, env.imageCheck, LoopState([], [], 0));
    ExpectedCallsShaped(FirstFive(images), env.imageCheck, 0);
    assert (listCalls + loop.calls)[..4] == listCalls;
    assert (listCalls + loop.calls)[4..] == loop.calls;
  }

  /** The batch's image requests, entries, highlight requests, status and summary
      agree with the reference views of the first five records. */
  lemma BatchViews(tabUrl: string, env: Environment, images: seq<Candidate>)
    requires env.probe.Ok? && env.urlCheck.Ok? && env.images == Answered(Some(images)) && |images| > 0
    ensures var s := RunPopup(tabUrl, env);
            && s.urlStatus == (if env.urlCheck.body.isPhishing then PhishingRisk else UrlSafe)
            && ImageCheckUrls(s.calls) == AnalysableSources(FirstFive(images), 0)
            && s.entries == ExpectedEntries(FirstFive(images), env.imageCheck, 0)
            && HighlightUrls(s.calls) == PositiveSources(s.entries)
            && s.imageStatus == (if Positives(s.entries) > 0 then DeepfakesFound(Positives(s.entries)) else NoDeepfakes)
            && s.summary == Some(Summary(|FirstFive(images)|, |images|, Positives(s.entries)))
            && s.failure == None
  {
    var listCalls := [GetRoot, PostAnalyzeUrl(tabUrl), InjectContentScript, SendGetImages];
    var slice := FirstFive(images);
    var loop := Analyse(slice, 0, env.imageCheck, LoopState([], [], 0));
    BatchSession(tabUrl, env, images);
    AnalyseRequests(slice, 0, env.imageCheck, LoopState([], [], 0));
    AnalyseEntries(slice, 0, env.imageCheck, LoopState([], [], 0));
    AnalyseHighlights(slice, 0, env.imageCheck, LoopState([], [], 0));
    ImageCheckUrlsConcat(listCalls, loop.calls);
    HighlightUrlsConcat(listCalls, loop.calls);
    NoImageCalls(listCalls);
  }

  /** With both gates passed and a non-empty list, the session is the loop's run over
      the first five records, after the four opening requests. */
  lemma BatchSession(tabUrl: string, env: Environment, images: seq<Candidate>)
    requires env.probe.Ok? && env.urlCheck.Ok? && env.images == Answered(Some(images)) && |images| > 0
    ensures var loop := Analyse(FirstFive(images), 0, env.imageCheck, LoopState([], [], 0));
            RunPopup(tabUrl, env) ==
            Session([GetRoot, PostAnalyzeUrl(tabUrl), InjectContentScript, SendGetImages] + loop.calls,
                    if env.urlCheck.body.isPhishing then PhishingRisk else UrlSafe,
                    if loop.deepfakes > 0 then DeepfakesFound(loop.deepfakes) else NoDeepfakes,
                    loop.entries, Some(Summary(|FirstFive(images)|, |images|, loop.deepfakes)), None)
  {
  }

  predicate AllAnalysable(slice: seq<Candidate>) {
    forall k :: 0 <= k < |slice| ==> Analysable(slice[k])
  }

  /** When every record is analysable, the `k`-th entry belongs to the `k`-th record
      and is built from that record's own answer alone: an error entry exactly when
      its request threw or answered non-2xx, whatever the other requests did. */
  lemma {:induction false} EntriesPerRecord(slice: seq<Candidate>, check: nat -> Response<ImageVerdict>, i: nat)
    requires i <= |slice| && AllAnalysable(slice)
    ensures |ExpectedEntries(slice, check, i)| == |slice| - i
    ensures forall k :: 0 <= k < |slice| - i ==> ExpectedEntries(slice, check, i)[k] == EntryFor(slice[i + k], check(i + k))
    decreases |slice| - i
  {
    if i < |slice| {
      EntriesPerRecord(slice, check, i + 1);
      assert Analysable(slice[i]);
      var rest := ExpectedEntries(slice, check, i + 1);
      assert ExpectedEntries(slice, check, i) == [EntryFor(slice[i], check(i))] + rest;
    }
  }

  /** When every record is analysable, every one of them is requested, in order. */
  lemma {:induction false} SourcesPerRecord(slice: seq<Candidate>, i: nat)
    requires i <= |slice| && AllAnalysable(slice)
    ensures |AnalysableSources(slice, i)| == |slice| - i
    ensures forall k :: 0 <= k < |slice| - i ==> AnalysableSources(slice, i)[k] == slice[i + k].src
    decreases |slice| - i
  {
    if i < |slice| {
      SourcesPerRecord(slice, i + 1);
      assert Analysable(slice[i]);
      var rest := AnalysableSources(slice, i + 1);
      assert AnalysableSources(slice, i) == [slice[i].src] + rest;
    }
  }

  /** The failing-item scenario: with five or more analysable records, a request
      that fails for one of the first five gives an error entry at its position, and
      all five records still get their entry. */
  lemma FailureDoesNotStopBatch(tabUrl: string, env: Environment, images: seq<Candidate>, bad: nat)
    requires env.probe.Ok? && env.urlCheck.Ok? && env.images == Answered(Some(images))
    requires |images| >= MaxAnalysed && AllAnalysable(images[..MaxAnalysed]) && bad < MaxAnalysed
    requires !env.imageCheck(bad).Ok?
    requires forall k :: 0 <= k < MaxAnalysed && k != bad ==> env.imageCheck(k).Ok?
    ensures |RunPopup(tabUrl, env).entries| == MaxAnalysed
    ensures RunPopup(tabUrl, env).entries[bad] == AnalysisFailed(images[bad])
    ensures forall k :: 0 <= k < MaxAnalysed && k != bad ==>
              RunPopup(tabUrl, env).entries[k] == Verdict(images[k], env.imageCheck(k).body)
    ensures |ImageCheckUrls(RunPopup(tabUrl, env).calls)| == MaxAnalysed
  {
    BatchViews(tabUrl, env, images);
    EntriesPerRecord(FirstFive(images), env.imageCheck, 0);
    SourcesPerRecord(FirstFive(images), 0);
  }
}
