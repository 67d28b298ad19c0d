/** The content script's message listener: `getImages` replies with the extracted
    image records, `highlightDeepfake` annotates the page and acknowledges, and any
    other action gets no reply. Every reply is sent synchronously. */
module ContentScript {
  import opened Optional
  import opened Dom
  import opened AreaSort
  import opened Dedup
  import opened Extraction
  import opened Annotation

  datatype Request = GetImagesRequest | HighlightRequest(imageUrl: string) | OtherRequest(action: string)

  datatype Reply = ImagesReply(images: seq<Candidate>) | Acknowledged(success: bool) | NoReply

  /** The listener: the page after handling `req`, and the reply sent. */
  function HandleMessage(page: Page, req: Request): (r: (Page, Reply))
    requires WellFormed(page)
    // reading images changes nothing on the page
    ensures req.GetImagesRequest? ==> r.0 == page && r.1.ImagesReply?
    ensures req.GetImagesRequest? ==> forall a, b :: 0 <= a < b < |r.1.images| ==> r.1.images[a].src != r.1.images[b].src
    // every reply record has a usable source
    ensures req.GetImagesRequest? ==> forall c :: c in r.1.images ==> HasValidSource(c.src)
    // and every qualifying source is in it
    ensures req.GetImagesRequest? ==> forall e :: e in page && KeepNative(e.node) ==>
              exists c :: c in r.1.images && c.src == e.node.src && !c.isBackground
    ensures req.GetImagesRequest? ==> forall e :: e in page && BackgroundRecord(e.node).Some? ==>
              exists c :: c in r.1.images && c.src == BackgroundRecord(e.node).value.src
    // `<img>` records first, largest first; background records after them in document order
    ensures req.GetImagesRequest? ==> forall a, b :: 0 <= a < b < |r.1.images| && r.1.images[a].isBackground ==>
              r.1.images[b].isBackground
    ensures req.GetImagesRequest? ==> forall a, b :: 0 <= a < b < |r.1.images| && !r.1.images[b].isBackground ==>
              Area(r.1.images[a]) >= Area(r.1.images[b])
    ensures req.GetImagesRequest? ==>
              forall a, b :: 0 <= a < b < |r.1.images| && r.1.images[a].isBackground && r.1.images[b].isBackground ==>
              FindIndex(BackgroundCandidates(page), r.1.images[a].src)
              < FindIndex(BackgroundCandidates(page), r.1.images[b].src)
    // a highlight request is acknowledged with success whether or not anything matched
    ensures req.HighlightRequest? ==> r.1 == Acknowledged(true) && SameNodes(r.0, page)
    ensures req.HighlightRequest? ==> forall k :: 0 <= k < |page| ==>
              (r.0[k].decor.border != page[k].decor.border ==>
                 ImgMatch(page[k].node, req.imageUrl) || BgMatch(page[k].node, req.imageUrl))
    ensures req.OtherRequest? ==> r == (page, NoReply)
  {
    match req
    case GetImagesRequest =>
      GetImagesSound(page);
      GetImagesComplete(page);
      GetImagesOrder(page);
      (page, ImagesReply(GetImages(page)))
    case HighlightRequest(url) => (Highlight(page, url), Acknowledged(true))
    case OtherRequest(_) => (page, NoReply)
  }
}
