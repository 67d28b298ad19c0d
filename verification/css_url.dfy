/** The background-image URL extraction of the content script: the first capture
    of the JavaScript regular expression `url\(['"]?(.*?)['"]?\)` applied with
    `String.prototype.match` (no flags), so the leftmost match wins and `.` does
    not match line terminators. */
module CssUrl {
  import opened Optional

  predicate IsQuote(c: char) {
    c == '\'' || c == '"'
  }

  /** The characters `.` does not match without the `s` flag. */
  predicate IsLineTerminator(c: char) {
    c == '\n' || c == '\r' || c == '\U{2028}' || c == '\U{2029}'
  }

  /** `['"]?\)` matches at `j`. */
  predicate ClosesAt(s: string, j: int) {
    0 <= j < |s| && (s[j] == ')' || (IsQuote(s[j]) && j + 1 < |s| && s[j + 1] == ')'))
  }

  /** `url(` occurs at `p`. */
  predicate OpensAt(s: string, p: int) {
    0 <= p && p + 4 <= |s| && s[p..p + 4] == "url("
  }

  /** A whole match of the pattern: `url(` at `p`, the capture `u` starting at `a`
      (right after `url(`, or after an opening quote), then `['"]?\)`. */
  predicate Token(s: string, p: int, a: int, u: string) {
    && OpensAt(s, p)
    && (a == p + 4 || (a == p + 5 && p + 4 < |s| && IsQuote(s[p + 4])))
    && a + |u| <= |s|
    && s[a..a + |u|] == u
    && ClosesAt(s, a + |u|)
  }

  /** A capture never contains `)` nor a line terminator. */
  predicate Plainish(u: string) {
    forall k :: 0 <= k < |u| ==> u[k] != ')' && !IsLineTerminator(u[k])
  }

  /** The lazy `(.*?)` scan from `j`: the first position where `['"]?\)` matches,
      provided `.` matched every character before it. */
  function CloseFrom(s: string, j: nat): (r: Option<nat>)
    requires j <= |s|
    ensures r.Some? ==> j <= r.value < |s| && ClosesAt(s, r.value)
    ensures r.Some? ==> forall k :: j <= k < r.value ==> !ClosesAt(s, k) && !IsLineTerminator(s[k])
    ensures r.None? ==> forall k :: j <= k < |s| && ClosesAt(s, k) ==>
                          exists m :: j <= m < k && IsLineTerminator(s[m])
    decreases |s| - j
  {
    if j == |s| then None
    else if ClosesAt(s, j) then Some(j)
    else if IsLineTerminator(s[j]) then None
    else CloseFrom(s, j + 1)
  }

  /** `(.*?)['"]?\)` matches from `a` with capture `u`: `.` matches every character of
      `u`, the closing part matches right after it, and it matches at no earlier
      position (the lazy quantifier tries the shortest capture first). */
  predicate LazyCapture(s: string, a: int, u: string) {
    && 0 <= a && a + |u| <= |s|
    && s[a..a + |u|] == u
    && ClosesAt(s, a + |u|)
    && forall k :: 0 <= k < |u| ==> !ClosesAt(s, a + k) && !IsLineTerminator(u[k])
  }

  /** Some lazy capture starts at `a`. */
  ghost predicate HasCapture(s: string, a: int) {
    exists u :: LazyCapture(s, a, u)
  }

  /** An opening quote follows the `url(` at `p`. */
  predicate QuoteAfter(s: string, p: int) {
    0 <= p && p + 4 < |s| && IsQuote(s[p + 4])
  }

  /** The lazy capture from a position is unique, so `MatchAt`'s contract determines
      its result. */
  lemma LazyCaptureUnique(s: string, a: int, u: string, v: string)
    requires LazyCapture(s, a, u) && LazyCapture(s, a, v)
    ensures u == v
  {
    assert s[a..a + |u|] == u && s[a..a + |v|] == v;
  }

  /** The scan `CloseFrom` finds exactly the lazy capture. */
  lemma CloseFromCaptures(s: string, a: nat)
    ensures a <= |s| && CloseFrom(s, a).Some? ==> LazyCapture(s, a, s[a..CloseFrom(s, a).value])
    ensures HasCapture(s, a) ==> a <= |s| && CloseFrom(s, a).Some?
  {
    if a <= |s| && CloseFrom(s, a).Some? {
      var e := CloseFrom(s, a).value;
      var u := s[a..e];
      forall k | 0 <= k < |u| ensures !ClosesAt(s, a + k) && !IsLineTerminator(u[k]) {
        assert u[k] == s[a + k];
      }
    }
    if HasCapture(s, a) {
      var u :| LazyCapture(s, a, u);
      forall k | a <= k < a + |u| ensures !ClosesAt(s, k) && !IsLineTerminator(s[k]) {
        assert s[k] == u[k - a];
      }
      CloseFromFinds(s, a, a + |u|);
    }
  }

  /** The match attempt at an occurrence of `url(`: first with the opening quote
      consumed (when there is one), then, backtracking, without it. */
  function MatchAt(s: string, p: nat): (r: Option<string>)
    requires OpensAt(s, p)
    // an attempt succeeds iff a lazy capture exists after `url(` or after an opening quote
    ensures r.Some? <==> HasCapture(s, p + 4) || (QuoteAfter(s, p) && HasCapture(s, p + 5))
    // the alternative that consumes the opening quote is preferred
    ensures r.Some? && QuoteAfter(s, p) && HasCapture(s, p + 5) ==> LazyCapture(s, p + 5, r.value)
    ensures r.Some? && !(QuoteAfter(s, p) && HasCapture(s, p + 5)) ==> LazyCapture(s, p + 4, r.value)
    ensures r.Some? ==> Token(s, p, p + 4, r.value) || Token(s, p, p + 5, r.value)
    ensures r.Some? ==> Plainish(r.value)
  {
    var q := p + 4;
    CloseFromCaptures(s, q);
    CloseFromCaptures(s, q + 1);
    if q < |s| && IsQuote(s[q]) && CloseFrom(s, q + 1).Some? then
      var e := CloseFrom(s, q + 1).value;
      Some(s[q + 1..e])
    else
      match CloseFrom(s, q)
      case Some(e) =>
        Some(s[q..e])
      case None => None
  }

  /** Where the leftmost match starting at `p` or later begins: the first occurrence
      of `url(` whose attempt succeeds; none when no attempt does. */
  function LeftmostMatch(s: string, p: nat): (r: Option<nat>)
    requires p <= |s|
    ensures r.Some? ==> p <= r.value && OpensAt(s, r.value) && MatchAt(s, r.value).Some?
    ensures r.Some? ==> forall q :: p <= q < r.value && OpensAt(s, q) ==> MatchAt(s, q).None?
    ensures r.None? ==> forall q :: p <= q && OpensAt(s, q) ==> MatchAt(s, q).None?
    decreases |s| - p
  {
    if p + 4 > |s| then None
    else if OpensAt(s, p) && MatchAt(s, p).Some? then Some(p)
    else
      // an opening from `p` on is either at `p`, whose attempt failed, or one the
      // recursive call covers
      assert forall q :: p <= q && OpensAt(s, q) ==> q == p || p + 1 <= q;
      LeftmostMatch(s, p + 1)
  }

  /** The capture of the leftmost match starting at `p` or later; none when no
      attempt succeeds. */
  function FindFrom(s: string, p: nat): (r: Option<string>)
    requires p <= |s|
    ensures r.Some? ==> LeftmostMatch(s, p).Some? && var q := LeftmostMatch(s, p).value;
              && p <= q && OpensAt(s, q) && MatchAt(s, q) == r
              && (forall q' :: p <= q' < q && OpensAt(s, q') ==> MatchAt(s, q').None?)
              && (Token(s, q, q + 4, r.value) || Token(s, q, q + 5, r.value))
    ensures r.None? ==> forall q :: p <= q && OpensAt(s, q) ==> MatchAt(s, q).None?
    ensures r.Some? ==> Plainish(r.value)
  {
    match LeftmostMatch(s, p)
    case Some(q) => MatchAt(s, q)
    case None => None
  }

  /** `value.match(/url\(['"]?(.*?)['"]?\)/)[1]`, or None when there is no match. */
  function FirstUrl(s: string): Option<string> {
    FindFrom(s, 0)
  }

  /** A close position with nothing but matchable, non-closing characters before it
      is the one the lazy scan stops at. */
  lemma CloseFromFinds(s: string, j: nat, e: nat)
    requires j <= e < |s| && ClosesAt(s, e)
    requires forall k :: j <= k < e ==> !ClosesAt(s, k) && !IsLineTerminator(s[k])
    ensures CloseFrom(s, j) == Some(e)
  {
  }

  /** A URL without quotes, `)` or line terminators. */
  predicate Plain(u: string) {
    forall k :: 0 <= k < |u| ==> u[k] != ')' && !IsQuote(u[k]) && !IsLineTerminator(u[k])
  }

  /** The CSS value `url(` quote URL quote `)`, with no quote, a single or a double quote. */
  function UrlValue(quote: string, u: string): string {
    "url(" + quote + u + quote + ")"
  }

  /** Extraction inverts `UrlValue`: wrapping a plain URL in `url(...)`, with or
      without quotes, and matching yields the URL back. */
  lemma {:induction false} FirstUrlRoundTrip(quote: string, u: string)
    requires quote == "" || quote == "'" || quote == "\""
    requires Plain(u)
    ensures FirstUrl(UrlValue(quote, u)) == Some(u)
  {
    var s := UrlValue(quote, u);
    var a := 4 + |quote|;
    assert s[..4] == "url(";
    assert OpensAt(s, 0);
    assert forall k :: 0 <= k < |u| ==> s[a + k] == u[k];
    assert s[a..a + |u|] == u;
    var e := a + |u|;
    if quote == "" {
      assert s[e] == ')';
      forall k | a <= k < e
        ensures !ClosesAt(s, k) && !IsLineTerminator(s[k])
      {
        assert s[k] == u[k - a];
      }
      CloseFromFinds(s, a, e);
      if |u| > 0 {
        assert s[4] == u[0];
      }
      assert !(4 < |s| && IsQuote(s[4]));
      assert MatchAt(s, 0) == Some(u);
    } else {
      assert s[4] == quote[0] && IsQuote(s[4]);
      assert s[e] == quote[0] && s[e + 1] == ')';
      forall k | a <= k < e
        ensures !ClosesAt(s, k) && !IsLineTerminator(s[k])
      {
        assert s[k] == u[k - a];
        if k + 1 < e {
          assert s[k + 1] == u[k + 1 - a];
        }
      }
      CloseFromFinds(s, a, e);
      assert MatchAt(s, 0) == Some(u);
    }
  }
}
