/** The popup fed by the content script: the record list the popup analyses is the
    `getImages` reply for the tab's page. */
module Pipeline {
  import opened Optional
  import opened Dom
  import opened Service
  import opened Extraction
  import opened Popup
  import opened ContentScript

  /** Fed a list whose sources are all `http` and distinct, the popup skips none of
      the first five and never analyses one image twice: the `k`-th image request is
      for the `k`-th record, and there is one entry per request. */
  lemma DistinctBatch(images: seq<Candidate>, tabUrl: string, env: Environment)
    requires env.probe.Ok? && env.urlCheck.Ok?
    requires forall c :: c in images ==> Analysable(c)
    requires forall a, b :: 0 <= a < b < |images| ==> images[a].src != images[b].src
    ensures var s := RunPopup(tabUrl, env.(images := Answered(Some(images))));
            var n := |FirstFive(images)|;
            && |s.entries| == n
            && |ImageCheckUrls(s.calls)| == n
            && (forall k :: 0 <= k < n ==> ImageCheckUrls(s.calls)[k] == images[k].src)
            && (forall a, b :: 0 <= a < b < n ==> ImageCheckUrls(s.calls)[a] != ImageCheckUrls(s.calls)[b])
  {
    var fed := env.(images := Answered(Some(images)));
    if |images| > 0 {
      var slice := FirstFive(images);
      forall k | 0 <= k < |slice| ensures Analysable(slice[k]) {
        assert slice[k] == images[k] && images[k] in images;
      }
      BatchContract(tabUrl, fed, images);
      EntriesPerRecord(slice, fed.imageCheck, 0);
      SourcesPerRecord(slice, 0);
    } else {
      assert images == [];
    }
  }

  /** The content script's `getImages` reply is such a list: every record has an
      `http` source and the sources are distinct. */
  lemma ExtractedBatch(page: Page, tabUrl: string, env: Environment)
    requires WellFormed(page)
    requires env.probe.Ok? && env.urlCheck.Ok?
    ensures var images := HandleMessage(page, GetImagesRequest).1.images;
            var s := RunPopup(tabUrl, env.(images := Answered(Some(images))));
            var n := |FirstFive(images)|;
            && |s.entries| == n
            && |ImageCheckUrls(s.calls)| == n
            && (forall k :: 0 <= k < n ==> ImageCheckUrls(s.calls)[k] == images[k].src)
            && (forall a, b :: 0 <= a < b < n ==> ImageCheckUrls(s.calls)[a] != ImageCheckUrls(s.calls)[b])
  {
    var images := HandleMessage(page, GetImagesRequest).1.images;
    assert forall c :: c in images ==> Analysable(c);
    DistinctBatch(images, tabUrl, env);
  }
}
