/** The `highlightDeepfake` branch of the content script. A first pass over the
    `<img>` elements marks those whose `src` equals the requested URL; a second pass
    over all elements marks those whose background-image URL equals it. */
module Annotation {
  import opened Optional
  import opened Dom
  import opened Extraction

  const WarningBorder := "3px solid red"

  /** Listeners attached to a matching `<img>`, in order: show and hide the overlay
      on hover, open a detail dialog on click. */
  const ImageListeners: seq<Listener> := [MouseOver, MouseOut, Click]

  predicate ImgMatch(n: Node, url: string) {
    n.isImg && n.src == url
  }

  predicate BgMatch(n: Node, url: string) {
    BackgroundUrl(n) == Some(url)
  }

  /** `k` overlays appended with `display: none`. */
  function HiddenOverlays(k: nat): (r: seq<Overlay>)
    ensures |r| == k
  {
    if k == 0 then [] else HiddenOverlays(k - 1) + [Overlay(true)]
  }

  /** How many of the first `n` elements are matching `<img>`s whose parent is `k`:
      each of them appends one overlay to element `k`. */
  function ChildMatches(page: Page, url: string, k: int, n: nat): nat
    requires n <= |page|
  {
    if n == 0 then 0
    else ChildMatches(page, url, k, n - 1) + (if ImgMatch(page[n - 1].node, url) && page[n - 1].node.parent == k then 1 else 0)
  }

  /** Pages whose elements have the same nodes: only the decoration differs. */
  predicate SameNodes(p: Page, q: Page) {
    |p| == |q| && forall k :: 0 <= k < |p| ==> p[k].node == q[k].node
  }

  lemma {:induction false} ChildMatchesSameNodes(p: Page, q: Page, url: string, k: int, n: nat)
    requires SameNodes(p, q) && n <= |p|
    ensures ChildMatches(p, url, k, n) == ChildMatches(q, url, k, n)
  {
    if n > 0 {
      ChildMatchesSameNodes(p, q, url, k, n - 1);
    }
  }

  /** The native treatment of element `i`: red border, `position: relative`, hover
      and click listeners on the image; a hidden overlay appended to its parent,
      which also becomes `position: relative`. */
  function MarkImage(page: Page, i: nat): Page
    requires i < |page| && 0 <= page[i].node.parent < |page|
  {
    var d := page[i].decor;
    var p1 := page[i := Element(page[i].node, d.(border := WarningBorder, relative := true, listeners := d.listeners + ImageListeners))];
    var h := page[i].node.parent;
    var dh := p1[h].decor;
    p1[h := Element(p1[h].node, dh.(relative := true, overlays := dh.overlays + [Overlay(true)]))]
  }

  /** The decoration of element `k` once the `<img>` pass has handled the first `n` elements. */
  function AfterImages(page: Page, url: string, k: nat, n: nat): Decor
    requires k < |page| && n <= |page|
  {
    var d := page[k].decor;
    var own := k < n && ImgMatch(page[k].node, url);
    var children := ChildMatches(page, url, k, n);
    Decor(if own then WarningBorder else d.border,
          d.relative || own || children > 0,
          d.overlays + HiddenOverlays(children),
          d.listeners + (if own then ImageListeners else []))
  }

  /** Marking a matching `<img>` moves element `k` from its decoration after `n - 1`
      elements to its decoration after `n`. */
  lemma MarkImageAt(page: Page, prev: Page, url: string, n: nat, k: nat)
    requires WellFormed(page) && 0 < n <= |page| && k < |page|
    requires SameNodes(prev, page) && ImgMatch(prev[n - 1].node, url)
    requires prev[k].decor == AfterImages(page, url, k, n - 1)
    ensures 0 <= prev[n - 1].node.parent < |prev|
    ensures MarkImage(prev, n - 1)[k].decor == AfterImages(page, url, k, n)
  {
    var i := n - 1;
    assert prev[i].node == page[i].node;
    var h := page[i].node.parent;
    var c := ChildMatches(page, url, k, i);
    assert ChildMatches(page, url, k, n) == c + (if h == k then 1 else 0);
    if h == k {
      assert HiddenOverlays(c + 1) == HiddenOverlays(c) + [Overlay(true)];
    }
  }

  /** One more native step keeps every element at its `AfterImages` decoration. */
  lemma MarkImageStep(page: Page, prev: Page, url: string, n: nat)
    requires WellFormed(page) && 0 < n <= |page|
    requires SameNodes(prev, page)
    requires forall k :: 0 <= k < |page| ==> prev[k].decor == AfterImages(page, url, k, n - 1)
    ensures var r := if ImgMatch(prev[n - 1].node, url) then MarkImage(prev, n - 1) else prev;
            SameNodes(r, page) && forall k :: 0 <= k < |page| ==> r[k].decor == AfterImages(page, url, k, n)
  {
    var i := n - 1;
    if ImgMatch(prev[i].node, url) {
      assert prev[i].node == page[i].node;
      var r := MarkImage(prev, i);
      forall k | 0 <= k < |page| ensures r[k].decor == AfterImages(page, url, k, n) {
        MarkImageAt(page, prev, url, n, k);
      }
    } else {
      forall k | 0 <= k < |page| ensures prev[k].decor == AfterImages(page, url, k, n) {
        assert ChildMatches(page, url, k, n) == ChildMatches(page, url, k, i);
      }
    }
  }

  /** The `<img>` pass over the first `n` elements, in document order. */
  function MarkImages(page: Page, url: string, n: nat): (r: Page)
    requires WellFormed(page) && n <= |page|
    ensures SameNodes(r, page)
    ensures forall k :: 0 <= k < |page| ==> r[k].decor == AfterImages(page, url, k, n)
  {
    if n == 0 then page
    else
      var prev := MarkImages(page, url, n - 1);
      MarkImageStep(page, prev, url, n);
      if ImgMatch(prev[n - 1].node, url) then MarkImage(prev, n - 1) else prev
  }

  /** A decoration after the background treatment: red border, a visible overlay
      appended to the element itself, `position: relative`, a click listener. */
  function BgMarked(d: Decor): Decor {
    d.(border := WarningBorder, relative := true, overlays := d.overlays + [Overlay(false)],
       listeners := d.listeners + [Click])
  }

  /** The background treatment of element `i`. */
  function MarkBackground(page: Page, i: nat): Page
    requires i < |page|
  {
    page[i := Element(page[i].node, BgMarked(page[i].decor))]
  }

  /** One more background step marks element `n - 1` when it matches and leaves the
      others as they were. */
  lemma MarkBackgroundStep(page: Page, prev: Page, url: string, n: nat)
    requires 0 < n <= |page| && SameNodes(prev, page)
    requires forall k :: 0 <= k < |page| ==>
               prev[k].decor == if k < n - 1 && BgMatch(page[k].node, url) then BgMarked(page[k].decor) else page[k].decor
    ensures var r := if BgMatch(prev[n - 1].node, url) then MarkBackground(prev, n - 1) else prev;
            && SameNodes(r, page)
            && forall k :: 0 <= k < |page| ==>
                 r[k].decor == if k < n && BgMatch(page[k].node, url) then BgMarked(page[k].decor) else page[k].decor
  {
    var i := n - 1;
    assert prev[i].node == page[i].node;
    if BgMatch(page[i].node, url) {
      var r := MarkBackground(prev, i);
      forall k | 0 <= k < |page|
        ensures r[k].decor == if k < n && BgMatch(page[k].node, url) then BgMarked(page[k].decor) else page[k].decor
      {
        if k != i {
          assert r[k] == prev[k];
        }
      }
    }
  }

  /** The background pass over the first `n` elements, in document order. */
  function MarkBackgrounds(page: Page, url: string, n: nat): (r: Page)
    requires n <= |page|
    ensures SameNodes(r, page)
    ensures forall k :: 0 <= k < |page| ==>
              r[k].decor == if k < n && BgMatch(page[k].node, url) then BgMarked(page[k].decor) else page[k].decor
  {
    if n == 0 then page
    else
      var prev := MarkBackgrounds(page, url, n - 1);
      MarkBackgroundStep(page, prev, url, n);
      if BgMatch(prev[n - 1].node, url) then MarkBackground(prev, n - 1) else prev
  }

  /** The effect of `highlightDeepfake(url)` on the page. Exactly the `<img>`s whose
      `src` is `url` and the elements whose background URL is `url` get the red
      border and their listeners; each matching `<img>` adds one hidden overlay to
      its parent and each matching background element one visible overlay to
      itself; what the content script reads is unchanged, and an element that is
      neither a match nor the parent of a matching `<img>` is untouched. */
  function Highlight(page: Page, url: string): (r: Page)
    requires WellFormed(page)
    ensures SameNodes(r, page) && WellFormed(r)
    ensures forall k :: 0 <= k < |page| ==> (r[k].decor.border ==
              if ImgMatch(page[k].node, url) || BgMatch(page[k].node, url) then WarningBorder else page[k].decor.border)
    ensures forall k :: 0 <= k < |page| ==> (r[k].decor.listeners ==
              page[k].decor.listeners + (if ImgMatch(page[k].node, url) then ImageListeners else [])
                                      + (if BgMatch(page[k].node, url) then [Click] else []))
    ensures forall k :: 0 <= k < |page| ==> (r[k].decor.overlays ==
              page[k].decor.overlays + HiddenOverlays(ChildMatches(page, url, k, |page|))
                                     + (if BgMatch(page[k].node, url) then [Overlay(false)] else []))
    ensures forall k :: (0 <= k < |page| && !ImgMatch(page[k].node, url) && !BgMatch(page[k].node, url)
              && ChildMatches(page, url, k, |page|) == 0) ==> r[k] == page[k]
  {
    var p1 := MarkImages(page, url, |page|);
    var r := MarkBackgrounds(p1, url, |p1|);
    assert forall k :: (0 <= k < |page| && !ImgMatch(page[k].node, url) && !BgMatch(page[k].node, url)
              && ChildMatches(page, url, k, |page|) == 0) ==> r[k].decor == page[k].decor;
    r
  }

  /** Highlighting the same URL again marks the same elements (borders are as after
      one call) but appends a second copy of every overlay and listener: the
      annotation is idempotent in which elements it marks, not in what it adds. */
  lemma RepeatedHighlight(page: Page, url: string)
    requires WellFormed(page)
    ensures forall k :: 0 <= k < |page| ==>
              Highlight(Highlight(page, url), url)[k].decor.border == Highlight(page, url)[k].decor.border
    ensures forall k :: 0 <= k < |page| ==>
              |Highlight(Highlight(page, url), url)[k].decor.overlays| - |Highlight(page, url)[k].decor.overlays|
              == |Highlight(page, url)[k].decor.overlays| - |page[k].decor.overlays|
    ensures forall k :: 0 <= k < |page| ==>
              |Highlight(Highlight(page, url), url)[k].decor.listeners| - |Highlight(page, url)[k].decor.listeners|
              == |Highlight(page, url)[k].decor.listeners| - |page[k].decor.listeners|
  {
    var p1 := Highlight(page, url);
    forall k | 0 <= k < |page| ensures ChildMatches(p1, url, k, |page|) == ChildMatches(page, url, k, |page|) {
      ChildMatchesSameNodes(p1, page, url, k, |page|);
    }
  }
}
