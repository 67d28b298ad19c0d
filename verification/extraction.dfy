/** The `getImages` branch of the content script: native `<img>` records filtered
    and sorted by area, background-image records appended after them, then the
    first record of each source kept. */
module Extraction {
  import opened Optional
  import opened Text
  import opened Dom
  import opened CssUrl
  import opened AreaSort
  import opened Dedup

  /** Smallest kept width and height, in pixels. */
  const MinSide := 30

  /** A non-empty source starting with `http` and not containing `data:image`. */
  predicate HasValidSource(src: string) {
    |src| > 0 && StartsWith(src, "http") && !Contains(src, "data:image")
  }

  /** Images that are part of the page's UI: buttons, and role-`img` icons or logos. */
  predicate IsUiElement(n: Node) {
    n.role == "button" || (n.role == "img" && (Contains(n.className, "icon") || Contains(n.className, "logo")))
  }

  predicate IsVerySmall(n: Node) {
    n.rect.width < MinSide || n.rect.height < MinSide
  }

  /** An `<img>` that passes all three filters. */
  predicate KeepNative(n: Node) {
    n.isImg && HasValidSource(n.src) && !IsUiElement(n) && !IsVerySmall(n)
  }

  /** The record built for a kept `<img>`. */
  function NativeRecord(n: Node): Candidate {
    Candidate(n.src, n.rect.width, n.rect.height, n.rect.x, n.rect.y, n.alt, n.className, n.id, false)
  }

  /** What one element contributes to the `<img>` pass. */
  function NativeOf(e: Element): seq<Candidate> {
    if KeepNative(e.node) then [NativeRecord(e.node)] else []
  }

  /** The `<img>` elements that pass the filters, as records, in document order. */
  function NativeCandidates(page: Page): (r: seq<Candidate>)
    ensures forall c :: c in r ==> exists e :: e in page && KeepNative(e.node) && c == NativeRecord(e.node)
    ensures forall e :: e in page && KeepNative(e.node) ==> NativeRecord(e.node) in r
  {
    if page == [] then []
    else
      assert page == [page[0]] + page[1..];
      NativeOf(page[0]) + NativeCandidates(page[1..])
  }

  /** The URL of an element's computed background image: the first `url(...)`
      capture of a value other than `none`. The extraction pass also skips the empty
      value, which never matches anyway. */
  function BackgroundUrl(n: Node): Option<string> {
    if n.backgroundImage != "none" then FirstUrl(n.backgroundImage) else None
  }

  /** The background record of an element, when its background URL passes the source filters. */
  function BackgroundRecord(n: Node): Option<Candidate> {
    if n.backgroundImage != "" && n.backgroundImage != "none" then
      match FirstUrl(n.backgroundImage)
      case Some(u) =>
        if StartsWith(u, "http") && !Contains(u, "data:image") then
          Some(Candidate(u, n.offsetWidth, n.offsetHeight, n.rect.x, n.rect.y, "", n.className, n.id, true))
        else None
      case None => None
    else None
  }

  /** What one element contributes to the background pass. */
  function BackgroundOf(e: Element): seq<Candidate> {
    match BackgroundRecord(e.node)
    case Some(c) => [c]
    case None => []
  }

  /** Every element with a qualifying background image, as records, in document order. */
  function BackgroundCandidates(page: Page): (r: seq<Candidate>)
    ensures forall c :: c in r ==> exists e :: e in page && BackgroundRecord(e.node) == Some(c)
    ensures forall e :: e in page && BackgroundRecord(e.node).Some? ==> BackgroundRecord(e.node).value in r
  {
    if page == [] then []
    else
      assert page == [page[0]] + page[1..];
      BackgroundOf(page[0]) + BackgroundCandidates(page[1..])
  }

  /** The `<img>` pass handles the first element, then the rest. */
  lemma NativeCandidatesFirst(q: Page)
    requires q != []
    ensures NativeCandidates(q) == NativeOf(q[0]) + NativeCandidates(q[1..])
  {
  }

  /** Prepending a non-empty part: its first element is handled, then the rest
      followed by the remainder. */
  lemma NativeCandidatesCons(a: Page, b: Page)
    requires a != []
    ensures NativeCandidates(a + b) == NativeOf(a[0]) + NativeCandidates(a[1..] + b)
  {
    assert (a + b)[0] == a[0] && (a + b)[1..] == a[1..] + b;
  }

  /** The `<img>` pass keeps document order: each element contributes its own record,
      or nothing, in place. */
  lemma {:induction false} NativeCandidatesInOrder(a: Page, b: Page)
    ensures NativeCandidates(a + b) == NativeCandidates(a) + NativeCandidates(b)
  {
    if a != [] {
      NativeCandidatesInOrder(a[1..], b);
      NativeCandidatesFirst(a);
      NativeCandidatesCons(a, b);
    } else {
      assert a + b == b;
    }
  }

  /** One element contributes its own `<img>` record or nothing. */
  lemma NativeCandidatesOne(e: Element)
    ensures NativeCandidates([e]) == if KeepNative(e.node) then [NativeRecord(e.node)] else []
  {
    assert [e][1..] == [];
  }

  /** The background pass handles the first element, then the rest. */
  lemma BackgroundCandidatesFirst(q: Page)
    requires q != []
    ensures BackgroundCandidates(q) == BackgroundOf(q[0]) + BackgroundCandidates(q[1..])
  {
  }

  /** Prepending a non-empty part: its first element is handled, then the rest
      followed by the remainder. */
  lemma BackgroundCandidatesCons(a: Page, b: Page)
    requires a != []
    ensures BackgroundCandidates(a + b) == BackgroundOf(a[0]) + BackgroundCandidates(a[1..] + b)
  {
    assert (a + b)[0] == a[0] && (a + b)[1..] == a[1..] + b;
  }

  /** The background pass keeps document order likewise. */
  lemma {:induction false} BackgroundCandidatesInOrder(a: Page, b: Page)
    ensures BackgroundCandidates(a + b) == BackgroundCandidates(a) + BackgroundCandidates(b)
  {
    if a != [] {
      BackgroundCandidatesInOrder(a[1..], b);
      BackgroundCandidatesFirst(a);
      BackgroundCandidatesCons(a, b);
    } else {
      assert a + b == b;
    }
  }

  /** One element contributes its own background record or nothing. */
  lemma BackgroundCandidatesOne(e: Element)
    ensures BackgroundCandidates([e]) == if BackgroundRecord(e.node).Some? then [BackgroundRecord(e.node).value] else []
  {
    assert [e][1..] == [];
  }

  /** Background records are the background URLs that pass the source filters; the
      record carries the element's offset size. */
  lemma BackgroundRecordIff(n: Node)
    ensures BackgroundRecord(n).Some? <==> BackgroundUrl(n).Some? && HasValidSource(BackgroundUrl(n).value)
    ensures BackgroundRecord(n).Some? ==>
              BackgroundRecord(n).value.src == BackgroundUrl(n).value && BackgroundRecord(n).value.isBackground
    ensures BackgroundRecord(n).Some? ==>
              BackgroundRecord(n).value.width == n.offsetWidth && BackgroundRecord(n).value.height == n.offsetHeight
  {
    if n.backgroundImage == "" {
      assert FirstUrl(n.backgroundImage) == None;
    }
  }

  /** The reply to `getImages`. */
  function GetImages(page: Page): (r: seq<Candidate>)
    ensures forall a, b :: 0 <= a < b < |r| ==> r[a].src != r[b].src
  {
    Unique(SortByArea(NativeCandidates(page)) + BackgroundCandidates(page))
  }

  /** Native records are never flagged as background records. */
  lemma NativeKind(page: Page)
    ensures forall x :: x in multiset(SortByArea(NativeCandidates(page))) ==> !x.isBackground && x in NativeCandidates(page)
  {
  }

  lemma BackgroundKind(page: Page)
    ensures forall x :: x in BackgroundCandidates(page) ==> x.isBackground
  {
    forall x | x in BackgroundCandidates(page) ensures x.isBackground {
      var e :| e in page && BackgroundRecord(e.node) == Some(x);
      BackgroundRecordIff(e.node);
    }
  }

  /** Merging a non-increasing native list with a background list and keeping first
      occurrences: native records come first, still non-increasing in area. */
  lemma {:induction false} MergeOrder(sorted: seq<Candidate>, bg: seq<Candidate>)
    requires NonIncreasing(sorted)
    requires forall x :: x in multiset(sorted) ==> !x.isBackground
    requires forall x :: x in bg ==> x.isBackground
    ensures forall a, b :: 0 <= a < b < |Unique(sorted + bg)| && Unique(sorted + bg)[a].isBackground ==>
              Unique(sorted + bg)[b].isBackground
    ensures forall a, b :: 0 <= a < b < |Unique(sorted + bg)| && !Unique(sorted + bg)[b].isBackground ==>
              Area(Unique(sorted + bg)[a]) >= Area(Unique(sorted + bg)[b])
  {
    var s := sorted + bg;
    var r := Unique(s);
    forall i | 0 <= i < |sorted| ensures !sorted[i].isBackground {
      assert sorted[i] in multiset(sorted);
    }
    forall a, b | 0 <= a < b < |r|
      ensures r[a].isBackground ==> r[b].isBackground
      ensures !r[b].isBackground ==> Area(r[a]) >= Area(r[b])
    {
      assert r[a] in r && r[b] in r;
      var fa := FindIndex(s, r[a].src);
      var fb := FindIndex(s, r[b].src);
      KindAt(sorted, bg, fa);
      KindAt(sorted, bg, fb);
    }
  }

  /** Position `i` of the merge's input holds a background record exactly when it is
      past the ranked part; before that it holds the ranked record. */
  lemma KindAt(sorted: seq<Candidate>, bg: seq<Candidate>, i: int)
    requires forall i :: 0 <= i < |sorted| ==> !sorted[i].isBackground
    requires forall x :: x in bg ==> x.isBackground
    requires 0 <= i < |sorted + bg|
    ensures (sorted + bg)[i].isBackground <==> |sorted| <= i
    ensures i < |sorted| ==> (sorted + bg)[i] == sorted[i]
  {
    if |sorted| <= i {
      assert (sorted + bg)[i] == bg[i - |sorted|] && bg[i - |sorted|] in bg;
    }
  }


  /** A background record that is the first of its source in the merge's input sits
      in the background part, at its first occurrence in the background list. */
  lemma BackgroundPlace(sorted: seq<Candidate>, bg: seq<Candidate>, c: Candidate)
    requires forall i :: 0 <= i < |sorted| ==> !sorted[i].isBackground
    requires 0 <= FindIndex(sorted + bg, c.src) && (sorted + bg)[FindIndex(sorted + bg, c.src)] == c
    requires c.isBackground
    ensures 0 <= FindIndex(bg, c.src) && bg[FindIndex(bg, c.src)] == c
    ensures FindIndex(sorted + bg, c.src) == |sorted| + FindIndex(bg, c.src)
  {
    FindIndexConcat(sorted, bg, c.src);
    var f := FindIndex(sorted + bg, c.src);
    assert f >= |sorted|;
    assert (sorted + bg)[f] == bg[f - |sorted|];
  }

  /** In the same merge the surviving background records are first occurrences in
      the background list, in that list's order. */
  lemma MergeBackgroundOrder(sorted: seq<Candidate>, bg: seq<Candidate>)
    requires forall x :: x in multiset(sorted) ==> !x.isBackground
    ensures forall c :: c in Unique(sorted + bg) && c.isBackground ==>
              0 <= FindIndex(bg, c.src) && bg[FindIndex(bg, c.src)] == c
    ensures forall a, b :: 0 <= a < b < |Unique(sorted + bg)| && Unique(sorted + bg)[a].isBackground
                           && Unique(sorted + bg)[b].isBackground ==>
              FindIndex(bg, Unique(sorted + bg)[a].src) < FindIndex(bg, Unique(sorted + bg)[b].src)
  {
    var r := Unique(sorted + bg);
    forall i | 0 <= i < |sorted| ensures !sorted[i].isBackground {
      assert sorted[i] in multiset(sorted);
    }
    forall c | c in r && c.isBackground
      ensures 0 <= FindIndex(bg, c.src) && bg[FindIndex(bg, c.src)] == c
    {
      BackgroundPlace(sorted, bg, c);
    }
    forall a, b | 0 <= a < b < |r| && r[a].isBackground && r[b].isBackground
      ensures FindIndex(bg, r[a].src) < FindIndex(bg, r[b].src)
    {
      assert r[a] in r && r[b] in r;
      BackgroundPlace(sorted, bg, r[a]);
      BackgroundPlace(sorted, bg, r[b]);
    }
  }

  /** In the same merge a background record survives only when no native record has
      its source, and every source of either list is represented. */
  lemma MergeWins(sorted: seq<Candidate>, bg: seq<Candidate>)
    requires forall x :: x in bg ==> x.isBackground
    requires forall x :: x in multiset(sorted) ==> !x.isBackground
    ensures forall c, x :: c in Unique(sorted + bg) && c.isBackground && x in multiset(sorted) ==> x.src != c.src
    ensures forall x :: x in multiset(sorted) ==> exists c :: c in Unique(sorted + bg) && c.src == x.src && !c.isBackground
    ensures forall x :: x in bg ==> exists c :: c in Unique(sorted + bg) && c.src == x.src
  {
    forall c, x | c in Unique(sorted + bg) && c.isBackground && x in multiset(sorted) ensures x.src != c.src {
      BackgroundNotShadowed(sorted, bg, c, x);
    }
    forall x | x in multiset(sorted) ensures exists c :: c in Unique(sorted + bg) && c.src == x.src && !c.isBackground {
      NativeRepresented(sorted, bg, x);
    }
    forall x | x in bg ensures exists c :: c in Unique(sorted + bg) && c.src == x.src {
      BackgroundRepresented(sorted, bg, x);
    }
  }

  /** A kept background record shares its source with no ranked record. */
  lemma BackgroundNotShadowed(sorted: seq<Candidate>, bg: seq<Candidate>, c: Candidate, x: Candidate)
    requires forall x :: x in multiset(sorted) ==> !x.isBackground
    requires c in Unique(sorted + bg) && c.isBackground && x in multiset(sorted)
    ensures x.src != c.src
  {
    var s := sorted + bg;
    var k :| 0 <= k < |sorted| && sorted[k] == x;
    assert s[k] == x;
    var f := FindIndex(s, c.src);
    assert s[f] == c;
  }

  /** Each ranked record's source is kept by a ranked record. */
  lemma NativeRepresented(sorted: seq<Candidate>, bg: seq<Candidate>, x: Candidate)
    requires forall x :: x in multiset(sorted) ==> !x.isBackground
    requires x in multiset(sorted)
    ensures exists c :: c in Unique(sorted + bg) && c.src == x.src && !c.isBackground
  {
    var s := sorted + bg;
    var k :| 0 <= k < |sorted| && sorted[k] == x;
    assert s[k] == x;
    var f := FindIndex(s, x.src);
    assert s[f] in Unique(s) && s[f].src == x.src && f <= k;
    assert s[f] == sorted[f] && sorted[f] in multiset(sorted);
  }

  /** Each background record's source is kept by some record. */
  lemma BackgroundRepresented(sorted: seq<Candidate>, bg: seq<Candidate>, x: Candidate)
    requires x in bg
    ensures exists c :: c in Unique(sorted + bg) && c.src == x.src
  {
    var s := sorted + bg;
    var k :| 0 <= k < |bg| && bg[k] == x;
    assert s[|sorted| + k] == x;
    var f := FindIndex(s, x.src);
    assert s[f] in Unique(s) && s[f].src == x.src;
  }

  /** One record of the reply: where it came from and why it passes the filters. */
  lemma ReplyRecordSound(page: Page, c: Candidate)
    requires c in GetImages(page)
    ensures HasValidSource(c.src)
    ensures !c.isBackground ==> exists e :: e in page && KeepNative(e.node) && c == NativeRecord(e.node)
    ensures !c.isBackground ==> c.width >= MinSide && c.height >= MinSide
    ensures c.isBackground ==> exists e :: e in page && BackgroundRecord(e.node) == Some(c)
  {
    var sorted := SortByArea(NativeCandidates(page));
    var bg := BackgroundCandidates(page);
    var s := sorted + bg;
    NativeKind(page);
    var f := FindIndex(s, c.src);
    assert s[f] == c;
    if f < |sorted| {
      assert c == sorted[f] && c in multiset(sorted);
      var e :| e in page && KeepNative(e.node) && c == NativeRecord(e.node);
    } else {
      assert c == bg[f - |sorted|] && c in bg;
      var e :| e in page && BackgroundRecord(e.node) == Some(c);
      BackgroundRecordIff(e.node);
    }
  }

  /** Every record of the reply passes the filters of its kind and comes from an
      element of the page; no two records share a source. */
  lemma GetImagesSound(page: Page)
    ensures forall c :: c in GetImages(page) ==> HasValidSource(c.src)
    ensures forall c :: c in GetImages(page) && !c.isBackground ==>
              c.width >= MinSide && c.height >= MinSide &&
              exists e :: e in page && KeepNative(e.node) && c == NativeRecord(e.node)
    ensures forall c :: c in GetImages(page) && c.isBackground ==>
              exists e :: e in page && BackgroundRecord(e.node) == Some(c)
    ensures forall a, b :: 0 <= a < b < |GetImages(page)| ==> GetImages(page)[a].src != GetImages(page)[b].src
  {
    forall c | c in GetImages(page)
      ensures HasValidSource(c.src)
      ensures !c.isBackground ==> c.width >= MinSide && c.height >= MinSide
      ensures !c.isBackground ==> exists e :: e in page && KeepNative(e.node) && c == NativeRecord(e.node)
      ensures c.isBackground ==> exists e :: e in page && BackgroundRecord(e.node) == Some(c)
    {
      ReplyRecordSound(page, c);
    }
  }

  /** The reply is NOT sorted as a whole: native records come first, in
      non-increasing area, and background records follow in document order. */
  lemma GetImagesOrder(page: Page)
    ensures forall a, b :: 0 <= a < b < |GetImages(page)| && GetImages(page)[a].isBackground ==>
              GetImages(page)[b].isBackground
    ensures forall a, b :: 0 <= a < b < |GetImages(page)| && !GetImages(page)[b].isBackground ==>
              Area(GetImages(page)[a]) >= Area(GetImages(page)[b])
    // background records: first occurrences in the background pass, in its (document) order
    ensures forall c :: c in GetImages(page) && c.isBackground ==>
              0 <= FindIndex(BackgroundCandidates(page), c.src)
              && BackgroundCandidates(page)[FindIndex(BackgroundCandidates(page), c.src)] == c
    ensures forall a, b :: 0 <= a < b < |GetImages(page)| && GetImages(page)[a].isBackground
                           && GetImages(page)[b].isBackground ==>
              FindIndex(BackgroundCandidates(page), GetImages(page)[a].src)
              < FindIndex(BackgroundCandidates(page), GetImages(page)[b].src)
  {
    NativeKind(page);
    BackgroundKind(page);
    MergeOrder(SortByArea(NativeCandidates(page)), BackgroundCandidates(page));
    MergeBackgroundOrder(SortByArea(NativeCandidates(page)), BackgroundCandidates(page));
  }

  /** Native records beat background records: a background record survives only
      when no native record has its source, and every source found by either pass
      is represented in the reply. */
  lemma NativeWins(page: Page)
    ensures forall c, x :: c in GetImages(page) && c.isBackground && x in NativeCandidates(page) ==> x.src != c.src
    ensures forall x :: x in NativeCandidates(page) ==> exists c :: c in GetImages(page) && c.src == x.src && !c.isBackground
    ensures forall x :: x in BackgroundCandidates(page) ==> exists c :: c in GetImages(page) && c.src == x.src
  {
    var native := NativeCandidates(page);
    var sorted := SortByArea(native);
    NativeKind(page);
    BackgroundKind(page);
    MergeWins(sorted, BackgroundCandidates(page));
    assert forall x :: x in native <==> x in multiset(sorted);
  }
  /** Nothing qualifying is lost: every kept `<img>` has its source in the reply as
      an `<img>` record, and every background record's source is in the reply. */
  lemma GetImagesComplete(page: Page)
    ensures forall e :: e in page && KeepNative(e.node) ==>
              exists c :: c in GetImages(page) && c.src == e.node.src && !c.isBackground
    ensures forall e :: e in page && BackgroundRecord(e.node).Some? ==>
              exists c :: c in GetImages(page) && c.src == BackgroundRecord(e.node).value.src
  {
    NativeWins(page);
    forall e | e in page && KeepNative(e.node)
      ensures exists c :: c in GetImages(page) && c.src == e.node.src && !c.isBackground
    {
      assert NativeRecord(e.node) in NativeCandidates(page);
    }
    forall e | e in page && BackgroundRecord(e.node).Some?
      ensures exists c :: c in GetImages(page) && c.src == BackgroundRecord(e.node).value.src
    {
      assert BackgroundRecord(e.node).value in BackgroundCandidates(page);
    }
  }


  /** Two-element pages: an `<img>` that passes the filters, followed by a
      non-image element whose background image passes them. */
  predicate ImgThenBackground(page: Page)
  {
    && |page| == 2
    && KeepNative(page[0].node) && page[0].node.backgroundImage == "none"
    && !page[1].node.isImg && BackgroundRecord(page[1].node).Some?
  }

  lemma TwoElementLists(page: Page)
    requires ImgThenBackground(page)
    ensures NativeCandidates(page) == [NativeRecord(page[0].node)]
    ensures BackgroundCandidates(page) == [BackgroundRecord(page[1].node).value]
  {
    var tail := page[1..];
    assert tail == [page[1]] && tail[1..] == [];
    assert !KeepNative(tail[0].node);
    assert NativeCandidates(tail[1..]) == [];
    assert NativeCandidates(tail) == [];
    assert BackgroundRecord(page[0].node) == None;
    assert BackgroundCandidates(tail[1..]) == [];
    assert BackgroundCandidates(tail) == [BackgroundRecord(page[1].node).value];
  }

  /** With different sources both records are returned, native first, whatever
      their areas: a larger background image is not ranked above a smaller native
      one, so the reply is not sorted by area. */
  lemma BackgroundNotRanked(page: Page)
    requires ImgThenBackground(page)
    requires BackgroundRecord(page[1].node).value.src != page[0].node.src
    ensures GetImages(page) == [NativeRecord(page[0].node), BackgroundRecord(page[1].node).value]
    ensures Area(BackgroundRecord(page[1].node).value) > Area(NativeRecord(page[0].node)) ==>
              !NonIncreasing(GetImages(page))
  {
    TwoElementLists(page);
    var n := NativeRecord(page[0].node);
    var b := BackgroundRecord(page[1].node).value;
    assert SortByArea([n]) == [n];
    var s := [n] + [b];
    assert s == [n, b];
    assert FindIndex(s, n.src) == 0;
    assert FindIndex(s, b.src) == 1;
    assert KeepFirstFrom(s, 2) == [];
    assert KeepFirstFrom(s, 1) == [b];
  }

  /** A native image and a background image with the same source yield one record:
      the native one. */
  lemma SameSourceNativeKept(page: Page)
    requires ImgThenBackground(page)
    requires BackgroundRecord(page[1].node).value.src == page[0].node.src
    ensures GetImages(page) == [NativeRecord(page[0].node)]
  {
    TwoElementLists(page);
    var n := NativeRecord(page[0].node);
    var b := BackgroundRecord(page[1].node).value;
    assert SortByArea([n]) == [n];
    var s := [n] + [b];
    assert s == [n, b];
    assert FindIndex(s, n.src) == 0;
    assert FindIndex(s, b.src) == 0;
    assert KeepFirstFrom(s, 2) == [];
    assert KeepFirstFrom(s, 1) == [];
  }
}
