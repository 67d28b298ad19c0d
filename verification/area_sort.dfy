/** `images.sort((a, b) => (b.width * b.height) - (a.width * a.height))`: the native
    image records ordered by area, largest first. JavaScript's `Array.prototype.sort`
    is stable, so records of equal area keep their document order; the model is a
    stable insertion sort. */
module AreaSort {
  import opened Dom

  /** Areas never increase along `s`. */
  predicate NonIncreasing(s: seq<Candidate>) {
    forall i, j :: 0 <= i < j < |s| ==> Area(s[i]) >= Area(s[j])
  }

  /** The records of `s` whose area is exactly `a`, in their order in `s`. */
  function WithArea(s: seq<Candidate>, a: int): seq<Candidate> {
    if s == [] then []
    else (if Area(s[0]) == a then [s[0]] else []) + WithArea(s[1..], a)
  }

  /** A record at least as large as every record of a non-increasing sequence can
      go in front of it. */
  lemma ConsNonIncreasing(h: Candidate, t: seq<Candidate>)
    requires NonIncreasing(t)
    requires forall x :: x in multiset(t) ==> Area(h) >= Area(x)
    ensures NonIncreasing([h] + t)
  {
    var r := [h] + t;
    forall i, j | 0 <= i < j < |r| ensures Area(r[i]) >= Area(r[j]) {
      assert r[j] == t[j - 1];
      assert t[j - 1] in multiset(t);
      if i > 0 {
        assert r[i] == t[i - 1];
      }
    }
  }

  /** The head of a non-increasing sequence is at least as large as the rest. */
  lemma HeadDominates(s: seq<Candidate>)
    requires s != [] && NonIncreasing(s)
    ensures NonIncreasing(s[1..])
    ensures forall x :: x in multiset(s[1..]) ==> Area(s[0]) >= Area(x)
  {
    forall x | x in multiset(s[1..]) ensures Area(s[0]) >= Area(x) {
      var k :| 0 <= k < |s[1..]| && s[1..][k] == x;
      assert s[k + 1] == x;
    }
  }

  /** Places `c` in front of the first record no larger than it. */
  function Insert(c: Candidate, s: seq<Candidate>): (r: seq<Candidate>)
    requires NonIncreasing(s)
    ensures NonIncreasing(r)
    ensures multiset(r) == multiset(s) + multiset{c}
  {
    if s == [] then [c]
    else if Area(s[0]) <= Area(c) then
      ConsNonIncreasing(c, s);
      [c] + s
    else
      HeadDominates(s);
      var rest := Insert(c, s[1..]);
      assert s == [s[0]] + s[1..];
      ConsNonIncreasing(s[0], rest);
      [s[0]] + rest
  }

  lemma WithAreaCons(h: Candidate, t: seq<Candidate>, a: int)
    ensures WithArea([h] + t, a) == (if Area(h) == a then [h] else []) + WithArea(t, a)
  {
    assert ([h] + t)[0] == h && ([h] + t)[1..] == t;
  }

  /** The step of `InsertWithArea` where `c` goes behind the head. */
  lemma InsertBehindWithArea(c: Candidate, s: seq<Candidate>, a: int)
    requires s != [] && NonIncreasing(s) && Area(s[0]) > Area(c)
    requires NonIncreasing(s[1..])
    requires WithArea(Insert(c, s[1..]), a) == if Area(c) == a then [c] + WithArea(s[1..], a) else WithArea(s[1..], a)
    ensures WithArea(Insert(c, s), a) == if Area(c) == a then [c] + WithArea(s, a) else WithArea(s, a)
  {
    assert Insert(c, s) == [s[0]] + Insert(c, s[1..]);
    assert [s[0]] + s[1..] == s;
    PrependKeeps(s[0], Insert(c, s[1..]), s[1..], c, a);
  }

  /** A head larger than `c` is in another area class than `c`, so putting it in front
      of both lists keeps their relation. */
  lemma PrependKeeps(h: Candidate, x: seq<Candidate>, y: seq<Candidate>, c: Candidate, a: int)
    requires Area(h) > Area(c)
    requires WithArea(x, a) == if Area(c) == a then [c] + WithArea(y, a) else WithArea(y, a)
    ensures WithArea([h] + x, a) == if Area(c) == a then [c] + WithArea([h] + y, a) else WithArea([h] + y, a)
  {
    WithAreaCons(h, x, a);
    WithAreaCons(h, y, a);
    if Area(h) == a {
      assert WithArea([h] + x, a) == [h] + WithArea(x, a);
    }
  }


  /** Insertion is stable: among records of the inserted one's area, it comes first;
      every other area class is untouched. */
  lemma {:induction false} InsertWithArea(c: Candidate, s: seq<Candidate>, a: int)
    requires NonIncreasing(s)
    ensures WithArea(Insert(c, s), a) == if Area(c) == a then [c] + WithArea(s, a) else WithArea(s, a)
  {
    if s == [] {
      WithAreaCons(c, [], a);
    } else if Area(s[0]) <= Area(c) {
      assert Insert(c, s) == [c] + s;
      WithAreaCons(c, s, a);
    } else {
      HeadDominates(s);
      InsertWithArea(c, s[1..], a);
      InsertBehindWithArea(c, s, a);
    }
  }

  /** The stable sort by area, largest first. */
  function SortByArea(s: seq<Candidate>): (r: seq<Candidate>)
    ensures NonIncreasing(r)
    ensures multiset(r) == multiset(s)
  {
    if s == [] then []
    else
      assert s == [s[0]] + s[1..];
      Insert(s[0], SortByArea(s[1..]))
  }

  /** The sort is stable: for every area, the records of that area appear in the
      output in the order they had in the input. Together with `NonIncreasing` and
      the multiset equality this pins the output down completely. */
  lemma {:induction false} SortByAreaStable(s: seq<Candidate>, a: int)
    ensures WithArea(SortByArea(s), a) == WithArea(s, a)
  {
    if s != [] {
      SortByAreaStable(s[1..], a);
      InsertWithArea(s[0], SortByArea(s[1..]), a);
    }
  }
}
