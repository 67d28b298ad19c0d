/** `allImages.filter((item, index, self) => index === self.findIndex((t) => t.src === item.src))`:
    keep a record exactly when it is the first one with its `src`. */
module Dedup {
  import opened Dom

  /** `self.findIndex((t) => t.src === src)`: the first index holding `src`, or -1. */
  function FindIndex(s: seq<Candidate>, src: string): (r: int)
    ensures -1 <= r < |s|
    ensures 0 <= r ==> s[r].src == src && forall j :: 0 <= j < r ==> s[j].src != src
    ensures r == -1 ==> forall j :: 0 <= j < |s| ==> s[j].src != src
  {
    if s == [] then -1
    else if s[0].src == src then 0
    else
      var k := FindIndex(s[1..], src);
      if k == -1 then -1 else k + 1
  }

  /** Searching a concatenation searches the first part, then the second. */
  lemma {:induction false} FindIndexConcat(a: seq<Candidate>, b: seq<Candidate>, src: string)
    ensures FindIndex(a + b, src) ==
            if 0 <= FindIndex(a, src) then FindIndex(a, src)
            else if 0 <= FindIndex(b, src) then |a| + FindIndex(b, src)
            else -1
  {
    if a == [] {
      assert a + b == b;
    } else {
      assert (a + b)[0] == a[0] && (a + b)[1..] == a[1..] + b;
      FindIndexConcat(a[1..], b, src);
    }
  }

  /** Index `i` holds the first record with its source. */
  predicate IsFirst(s: seq<Candidate>, i: int)
    requires 0 <= i < |s|
  {
    FindIndex(s, s[i].src) == i
  }

  /** The filter applied to the indices `i` and onward. */
  function KeepFirstFrom(s: seq<Candidate>, i: nat): seq<Candidate>
    requires i <= |s|
    decreases |s| - i
  {
    if i == |s| then []
    else (if IsFirst(s, i) then [s[i]] else []) + KeepFirstFrom(s, i + 1)
  }

  /** Each kept record is the first occurrence of its source, found at `i` or later. */
  lemma {:induction false} KeptAreFirst(s: seq<Candidate>, i: nat)
    requires i <= |s|
    ensures forall x :: x in KeepFirstFrom(s, i) ==>
              i <= FindIndex(s, x.src) && s[FindIndex(s, x.src)] == x
    decreases |s| - i
  {
    if i < |s| {
      KeptAreFirst(s, i + 1);
    }
  }

  /** A first occurrence put in front of kept records found after it keeps the
      first occurrences in increasing order. */
  lemma PrependFirst(s: seq<Candidate>, i: nat, rest: seq<Candidate>)
    requires i < |s| && IsFirst(s, i)
    requires forall x :: x in rest ==> i < FindIndex(s, x.src)
    requires forall a, b :: 0 <= a < b < |rest| ==> FindIndex(s, rest[a].src) < FindIndex(s, rest[b].src)
    ensures forall a, b :: 0 <= a < b < |[s[i]] + rest| ==>
              FindIndex(s, ([s[i]] + rest)[a].src) < FindIndex(s, ([s[i]] + rest)[b].src)
  {
    var r := [s[i]] + rest;
    forall a, b | 0 <= a < b < |r| ensures FindIndex(s, r[a].src) < FindIndex(s, r[b].src) {
      assert r[b] == rest[b - 1] && rest[b - 1] in rest;
      if a > 0 {
        assert r[a] == rest[a - 1];
      }
    }
  }

  /** Kept records stay in the order of their first occurrences, so no two share a source. */
  lemma {:induction false} KeptInOrder(s: seq<Candidate>, i: nat)
    requires i <= |s|
    ensures forall a, b :: 0 <= a < b < |KeepFirstFrom(s, i)| ==>
              FindIndex(s, KeepFirstFrom(s, i)[a].src) < FindIndex(s, KeepFirstFrom(s, i)[b].src)
    decreases |s| - i
  {
    if i < |s| {
      KeptInOrder(s, i + 1);
      KeptAreFirst(s, i + 1);
      var rest := KeepFirstFrom(s, i + 1);
      if IsFirst(s, i) {
        assert KeepFirstFrom(s, i) == [s[i]] + rest;
        PrependFirst(s, i, rest);
      } else {
        assert KeepFirstFrom(s, i) == rest;
      }
    }
  }

  /** Every source whose first occurrence is at `i` or later survives. */
  lemma {:induction false} FirstsAreKept(s: seq<Candidate>, i: nat)
    requires i <= |s|
    ensures forall k :: i <= k < |s| && i <= FindIndex(s, s[k].src) ==>
              s[FindIndex(s, s[k].src)] in KeepFirstFrom(s, i)
    decreases |s| - i
  {
    if i < |s| {
      FirstsAreKept(s, i + 1);
      forall k | i <= k < |s| && i <= FindIndex(s, s[k].src)
        ensures s[FindIndex(s, s[k].src)] in KeepFirstFrom(s, i)
      {
        var f := FindIndex(s, s[k].src);
        if f == i {
          assert IsFirst(s, i);
        } else {
          assert k != i;
        }
      }
    }
  }

  /** The deduplicated list: every record is the first occurrence of its source,
      records keep the order of their first occurrences (so sources are pairwise
      distinct), and every source of the input survives. */
  function Unique(s: seq<Candidate>): (r: seq<Candidate>)
    ensures forall x :: x in r ==> 0 <= FindIndex(s, x.src) && s[FindIndex(s, x.src)] == x
    ensures forall a, b :: 0 <= a < b < |r| ==> FindIndex(s, r[a].src) < FindIndex(s, r[b].src)
    ensures forall a, b :: 0 <= a < b < |r| ==> r[a].src != r[b].src
    ensures forall k :: 0 <= k < |s| ==> s[FindIndex(s, s[k].src)] in r
  {
    KeptAreFirst(s, 0);
    KeptInOrder(s, 0);
    FirstsAreKept(s, 0);
    KeepFirstFrom(s, 0)
  }
}
