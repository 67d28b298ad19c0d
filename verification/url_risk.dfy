/** The service's URL heuristic: features extracted from a URL and the split of its
    host into subdomain, registered domain and public suffix, then an additive risk
    score capped at 1.0, with "phishing" meaning a score above 0.5. Every weight is a
    whole number of tenths, so the score is kept in integer tenths (0..10). */
module UrlRisk {
  import opened Optional
  import opened Text

  const SuspiciousWords: seq<string> :=
    ["secure", "account", "login", "verify", "password", "bank", "paypal", "amazon", "apple", "microsoft", "google"]

  const SuspiciousTlds: seq<string> := ["xyz", "tk", "ml", "ga", "cf", "gq", "pw"]

  /** The public-suffix split of the URL's host, as `tldextract` returns it; it is an
      input of the model. */
  datatype Parts = Parts(subdomain: string, domain: string, suffix: string)

  datatype Features = Features(
    domain: string,
    subdomain: string,
    tld: string,
    fullDomain: string,
    urlLength: nat,
    hasHttps: bool,
    numDots: nat,
    hasSuspiciousWords: bool,
    suspiciousWordCount: nat,
    hasIpAddress: bool)

  /** The result of `analyze_url`; `riskTenths` is ten times `risk_score`. */
  datatype Analysis = Analysis(url: string, riskTenths: nat, isPhishing: bool, features: Features)

  /** `sub.domain.suffix` when there is a subdomain, else `domain.suffix`. */
  function FullDomain(p: Parts): (r: string)
    ensures p.subdomain != "" ==> StartsWith(r, p.subdomain + ".")
    ensures p.subdomain == "" ==> StartsWith(r, p.domain + ".")
    ensures |r| == |p.subdomain| + |p.domain| + |p.suffix| + (if p.subdomain != "" then 2 else 1)
    // it ends with the domain, a dot and the suffix, so with the prefix and the
    // length above every character is fixed
    ensures r[|r| - |p.suffix| - 1 - |p.domain|..] == p.domain + "." + p.suffix
    ensures CountChar(r, '.') ==
            CountChar(p.subdomain, '.') + CountChar(p.domain, '.') + CountChar(p.suffix, '.')
            + (if p.subdomain != "" then 2 else 1)
  {
    if p.subdomain != "" then
      DottedJoin(p.subdomain + ".", p.domain, p.suffix);
      CountCharConcat(p.subdomain, ".", '.');
      p.subdomain + "." + p.domain + "." + p.suffix
    else
      DottedJoin("", p.domain, p.suffix);
      assert "" + p.domain == p.domain;
      p.domain + "." + p.suffix
  }

  /** The parts of `head + d + "." + sfx` sit where they were put, and its dots are
      theirs plus one. */
  lemma DottedJoin(head: string, d: string, sfx: string)
    ensures var r := head + d + "." + sfx;
            && r[..|head|] == head && r[..|head| + |d| + 1] == head + d + "."
            && r[|r| - |sfx| - 1 - |d|..] == d + "." + sfx
    ensures CountChar(head + d + "." + sfx, '.') == CountChar(head, '.') + CountChar(d, '.') + CountChar(sfx, '.') + 1
  {
    var r := head + d + "." + sfx;
    var named := head + d + ".";
    assert r[..|named|] == named;
    assert r[..|head|] == named[..|head|] == head;
    assert r[|head|..] == d + "." + sfx;
    CountCharConcat(named, sfx, '.');
    CountCharConcat(head + d, ".", '.');
    CountCharConcat(head, d, '.');
  }

  /** The listed words that occur in `s`. */
  function Hits(words: seq<string>, s: string): set<string> {
    set w | w in words && Contains(s, w)
  }

  /** `sum(1 for word in words if word in s)`. */
  function WordCount(words: seq<string>, s: string): nat {
    if words == [] then 0 else (if Contains(s, words[0]) then 1 else 0) + WordCount(words[1..], s)
  }

  predicate Distinct(words: seq<string>) {
    forall a, b :: 0 <= a < b < |words| ==> words[a] != words[b]
  }

  /** Over a list without repeats, the count is the number of distinct listed words
      that occur, so it never exceeds the length of the list. */
  lemma {:induction false} WordCountIsHits(words: seq<string>, s: string)
    requires Distinct(words)
    ensures WordCount(words, s) == |Hits(words, s)|
    ensures WordCount(words, s) <= |words|
  {
    if words != [] {
      var rest := words[1..];
      assert Distinct(rest) by {
        forall a, b | 0 <= a < b < |rest| ensures rest[a] != rest[b] {
          assert rest[a] == words[a + 1] && rest[b] == words[b + 1];
        }
      }
      WordCountIsHits(rest, s);
      assert words[0] !in rest by {
        forall k | 0 <= k < |rest| ensures rest[k] != words[0] {
          assert rest[k] == words[k + 1];
        }
      }
      assert words == [words[0]] + rest;
      if Contains(s, words[0]) {
        assert Hits(words, s) == {words[0]} + Hits(rest, s);
      } else {
        assert Hits(words, s) == Hits(rest, s);
      }
    }
  }

  lemma SuspiciousWordsDistinct()
    ensures Distinct(SuspiciousWords) && |SuspiciousWords| == 11
  {
  }

  /** `extract_url_features`, given the host split `p` of `url`. */
  function ExtractFeatures(url: string, p: Parts): (f: Features)
    ensures f.hasHttps <==> StartsWith(url, "https://")
    ensures f.numDots == multiset(url)['.'] && f.numDots <= |url|
    ensures f.suspiciousWordCount == |Hits(SuspiciousWords, Lower(url))| <= 11
    ensures f.hasSuspiciousWords <==> exists w :: w in SuspiciousWords && Contains(Lower(url), w)
    ensures f.hasIpAddress <==> exists i :: 0 <= i < |p.domain| && IsDigit(p.domain[i])
    ensures f.domain == p.domain && f.subdomain == p.subdomain && f.tld == p.suffix
    ensures f.fullDomain == FullDomain(p)
    ensures f.urlLength == |url|
  {
    var lowered := Lower(url);
    SuspiciousWordsDistinct();
    WordCountIsHits(SuspiciousWords, lowered);
    var count := WordCount(SuspiciousWords, lowered);
    assert count > 0 <==> exists w :: w in SuspiciousWords && Contains(lowered, w) by {
      if count > 0 {
        var w :| w in Hits(SuspiciousWords, lowered);
      }
      if exists w :: w in SuspiciousWords && Contains(lowered, w) {
        var w :| w in SuspiciousWords && Contains(lowered, w);
        assert w in Hits(SuspiciousWords, lowered);
      }
    }
    Features(p.domain, p.subdomain, p.suffix, FullDomain(p), |url|, StartsWith(url, "https://"),
             CountChar(url, '.'), count > 0, count, HasDigit(p.domain))
  }

  /** The `for word in suspicious_words: if word in s: ...; break` scan from position
      `i`: the position of the first listed word that occurs in `s`. */
  function FirstWord(s: string, i: nat): (r: Option<nat>)
    requires i <= |SuspiciousWords|
    ensures r.Some? ==> i <= r.value < |SuspiciousWords| && Contains(s, SuspiciousWords[r.value])
                        && forall k :: i <= k < r.value ==> !Contains(s, SuspiciousWords[k])
    ensures r.None? ==> forall k :: i <= k < |SuspiciousWords| ==> !Contains(s, SuspiciousWords[k])
    decreases |SuspiciousWords| - i
  {
    if i == |SuspiciousWords| then None
    else if Contains(s, SuspiciousWords[i]) then Some(i)
    else FirstWord(s, i + 1)
  }

  /** The scan finds a word exactly when some listed word occurs. */
  lemma FirstWordIff(s: string)
    ensures FirstWord(s, 0).Some? <==> Hits(SuspiciousWords, s) != {}
  {
    if FirstWord(s, 0).Some? {
      assert SuspiciousWords[FirstWord(s, 0).value] in Hits(SuspiciousWords, s);
    }
  }

  /** The scan with `break` adds its weight once whatever the number of matches. */
  function WordWeight(s: string, weight: nat): nat {
    if FirstWord(s, 0).Some? then weight else 0
  }

  /** The uncapped sum of `analyze_url`'s terms, in tenths, in the order the code
      adds them. */
  function RawScore(url: string, f: Features): (r: nat)
    // at most 3 + 2 + 2 + 4 + 3 + 3 tenths; any one heavy check alone gives 3
    ensures r <= 17
    ensures !f.hasHttps || f.hasIpAddress || f.tld in SuspiciousTlds ==> r >= 3
  {
    var noHttps := if !f.hasHttps then 3 else 0;
    var word := WordWeight(Lower(url), 2);
    var dots := if f.numDots > 2 then 2 else 0;
    var sub := if |f.subdomain| > 0 then WordWeight(Lower(f.subdomain), 3) + 1 else 0;
    var ip := if f.hasIpAddress then 3 else 0;
    var tld := if f.tld in SuspiciousTlds then 3 else 0;
    noHttps + word + dots + sub + ip + tld
  }

  /** `analyze_url`: the sum of the terms, capped at ten tenths. */
  function AnalyzeUrl(url: string, p: Parts): (r: Analysis)
    ensures r.url == url && r.features == ExtractFeatures(url, p)
    ensures r.riskTenths <= 10
    ensures r.isPhishing <==> r.riskTenths > 5
  {
    var f := ExtractFeatures(url, p);
    var score := RawScore(url, f);
    var capped := if score < 10 then score else 10;
    Analysis(url, capped, capped > 5, f)
  }

  /** The score as a sum over the extracted features alone, each signal with its
      weight: a missing `https://` 3, any listed word 2, more than two dots 2, a
      subdomain 1 and 3 more if it holds a listed word, a digit in the domain 3, a
      listed suffix 3. */
  function FeatureScore(f: Features): nat {
    (if !f.hasHttps then 3 else 0)
    + (if f.hasSuspiciousWords then 2 else 0)
    + (if f.numDots > 2 then 2 else 0)
    + (if |f.subdomain| > 0 then 1 + (if Hits(SuspiciousWords, Lower(f.subdomain)) != {} then 3 else 0) else 0)
    + (if f.hasIpAddress then 3 else 0)
    + (if f.tld in SuspiciousTlds then 3 else 0)
  }

  /** The scoring loop agrees with the features: the word term is added at most once,
      exactly when the feature count is positive, and the result is the capped
      feature score. */
  lemma ScoreFromFeatures(url: string, p: Parts)
    ensures var f := ExtractFeatures(url, p);
            AnalyzeUrl(url, p).riskTenths == (if FeatureScore(f) < 10 then FeatureScore(f) else 10)
    ensures WordWeight(Lower(url), 2) == (if ExtractFeatures(url, p).suspiciousWordCount > 0 then 2 else 0)
  {
    WordTerm(url, p);
    FirstWordIff(Lower(p.subdomain));
    RawScoreIsFeatureScore(url, ExtractFeatures(url, p));
  }

  /** With the two word terms known, the code's sum is the feature score. */
  lemma RawScoreIsFeatureScore(url: string, f: Features)
    requires WordWeight(Lower(url), 2) == if f.hasSuspiciousWords then 2 else 0
    requires WordWeight(Lower(f.subdomain), 3) == if Hits(SuspiciousWords, Lower(f.subdomain)) != {} then 3 else 0
    ensures RawScore(url, f) == FeatureScore(f)
  {
  }

  /** The URL's word term is 0.2 exactly when the feature count is positive. */
  lemma WordTerm(url: string, p: Parts)
    ensures WordWeight(Lower(url), 2) == (if ExtractFeatures(url, p).suspiciousWordCount > 0 then 2 else 0)
    ensures WordWeight(Lower(url), 2) == (if ExtractFeatures(url, p).hasSuspiciousWords then 2 else 0)
  {
    var f := ExtractFeatures(url, p);
    FirstWordIff(Lower(url));
    assert f.suspiciousWordCount > 0 <==> Hits(SuspiciousWords, Lower(url)) != {};
  }

  /** The number of checks that fire (a subdomain counts once, with or without a word). */
  function Signals(f: Features): nat {
    (if !f.hasHttps then 1 else 0) + (if f.hasSuspiciousWords then 1 else 0) + (if f.numDots > 2 then 1 else 0)
    + (if |f.subdomain| > 0 then 1 else 0) + (if f.hasIpAddress then 1 else 0) + (if f.tld in SuspiciousTlds then 1 else 0)
  }

  /** No single check makes a URL phishing: the heaviest one, a subdomain holding a
      listed word, weighs 0.4. */
  lemma PhishingNeedsTwoSignals(url: string, p: Parts)
    ensures AnalyzeUrl(url, p).isPhishing ==> Signals(ExtractFeatures(url, p)) >= 2
  {
    ScoreFromFeatures(url, p);
  }

  /** Any two of the 0.3 checks (no `https://`, a digit in the domain, a listed
      suffix) make a URL phishing, whatever else holds. */
  lemma TwoHeavySignalsSuffice(url: string, p: Parts)
    requires var f := ExtractFeatures(url, p);
             (if !f.hasHttps then 1 else 0) + (if f.hasIpAddress then 1 else 0) + (if f.tld in SuspiciousTlds then 1 else 0) >= 2
    ensures AnalyzeUrl(url, p).isPhishing
  {
    ScoreFromFeatures(url, p);
  }

  /** The threshold is strict: a plain-http URL with a listed word and nothing else
      scores exactly 0.5 and is not phishing. */
  lemma HttpWithWordIsBoundary(url: string, p: Parts)
    requires !StartsWith(url, "https://") && Hits(SuspiciousWords, Lower(url)) != {}
    requires CountChar(url, '.') <= 2 && p.subdomain == "" && !HasDigit(p.domain) && p.suffix !in SuspiciousTlds
    ensures AnalyzeUrl(url, p).riskTenths == 5 && !AnalyzeUrl(url, p).isPhishing
  {
    ScoreFromFeatures(url, p);
  }
}
