/** String predicates shared by the extension scripts and the analysis service:
    prefix and substring tests (JavaScript `startsWith`/`includes`, Python
    `startswith`/`in`), character counting (Python `str.count` on one character),
    ASCII lower-casing and digit tests. */
module Text {

  /** True iff `s` begins with `p`. */
  predicate StartsWith(s: string, p: string) {
    |p| <= |s| && s[..|p|] == p
  }

  /** `w` occurs in `s` starting at index `i`. */
  predicate OccursAt(s: string, w: string, i: int) {
    0 <= i && i + |w| <= |s| && s[i..i + |w|] == w
  }

  /** True iff `w` is a substring of `s`, found by a left-to-right scan. */
  predicate Contains(s: string, w: string)
    decreases |s|
  {
    StartsWith(s, w) || (|s| > 0 && Contains(s[1..], w))
  }

  /** The scan agrees with the positional definition of a substring. */
  lemma {:induction false} ContainsIff(s: string, w: string)
    ensures Contains(s, w) <==> exists i :: OccursAt(s, w, i)
    decreases |s|
  {
    if StartsWith(s, w) {
      assert OccursAt(s, w, 0);
    }
    if |s| > 0 {
      ContainsIff(s[1..], w);
      forall i | OccursAt(s[1..], w, i)
        ensures OccursAt(s, w, i + 1)
      {
        assert s[1..][i..i + |w|] == s[i + 1..i + 1 + |w|];
      }
      forall i | OccursAt(s, w, i) && i > 0
        ensures OccursAt(s[1..], w, i - 1)
      {
        assert s[1..][i - 1..i - 1 + |w|] == s[i..i + |w|];
      }
    }
    if exists i :: OccursAt(s, w, i) {
      var i :| OccursAt(s, w, i);
      if i == 0 {
        assert StartsWith(s, w);
      } else {
        assert OccursAt(s[1..], w, i - 1);
      }
    }
  }

  /** Number of occurrences of the character `c` in `s`. */
  function CountChar(s: string, c: char): (n: nat)
    ensures n <= |s|
    ensures n == multiset(s)[c]
  {
    if s == [] then 0
    else
      assert s == [s[0]] + s[1..];
      (if s[0] == c then 1 else 0) + CountChar(s[1..], c)
  }

  /** Counting distributes over concatenation. */
  lemma CountCharConcat(a: string, b: string, c: char)
    ensures CountChar(a + b, c) == CountChar(a, c) + CountChar(b, c)
  {
    assert multiset(a + b) == multiset(a) + multiset(b);
  }

  /** ASCII lower-casing of one character; other characters are kept. */
  function LowerChar(c: char): char {
    if 'A' <= c <= 'Z' then (c as int - 'A' as int + 'a' as int) as char else c
  }

  /** ASCII lower-casing of a string, character by character. */
  function Lower(s: string): (r: string)
    ensures |r| == |s|
    ensures forall i :: 0 <= i < |s| ==> r[i] == LowerChar(s[i])
  {
    seq(|s|, i requires 0 <= i < |s| => LowerChar(s[i]))
  }

  predicate IsDigit(c: char) {
    '0' <= c <= '9'
  }

  /** Some character of `s` is a decimal digit. */
  predicate HasDigit(s: string) {
    exists i :: 0 <= i < |s| && IsDigit(s[i])
  }
}
