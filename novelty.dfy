/** The novelty filter of `NUBot.is_new_news`: keep, in order and with
    repetitions, the freshly extracted items that the previous run did not
    record. Headings and links are each filtered by this one rule,
    independently of each other. */
module Novelty {

  /** `[x for x in xs if x not in prev]`. */
  function Novel<T(==)>(xs: seq<T>, prev: seq<T>): (r: seq<T>)
    ensures |r| <= |xs|
    ensures forall k :: 0 <= k < |r| ==> r[k] in xs && r[k] !in prev
    ensures forall k :: 0 <= k < |xs| && xs[k] !in prev ==> xs[k] in r
  {
    if xs == [] then []
    else (if xs[0] in prev then [] else [xs[0]]) + Novel(xs[1..], prev)
  }

  /** `a` can be obtained from `b` by deleting elements, keeping order. */
  predicate IsSubsequence<T(==)>(a: seq<T>, b: seq<T>)
    decreases |b|
  {
    a == [] ||
    (b != [] &&
     ((a[0] == b[0] && IsSubsequence(a[1..], b[1..])) || IsSubsequence(a, b[1..])))
  }

  /** The filter keeps the extraction order: its result is a subsequence of
      its input. */
  lemma {:induction false} NovelIsSubsequence<T>(xs: seq<T>, prev: seq<T>)
    ensures IsSubsequence(Novel(xs, prev), xs)
  {
    if xs != [] {
      NovelIsSubsequence(xs[1..], prev);
      var rest := Novel(xs[1..], prev);
      if xs[0] !in prev {
        var r := Novel(xs, prev);
        assert r == [xs[0]] + rest;
        assert r[0] == xs[0] && r[1..] == rest;
      } else {
        assert Novel(xs, prev) == rest;
      }
    }
  }

  /** Duplicates are kept: every item not seen before occurs in the result
      exactly as often as in the extraction, and a seen item not at all. */
  lemma {:induction false} NovelCounts<T>(xs: seq<T>, prev: seq<T>)
    ensures forall x :: multiset(Novel(xs, prev))[x]
                        == if x in prev then 0 else multiset(xs)[x]
  {
    if xs != [] {
      NovelCounts(xs[1..], prev);
      assert xs == [xs[0]] + xs[1..];
      assert multiset(xs) == multiset([xs[0]]) + multiset(xs[1..]);
    }
  }

  /** Nothing is new exactly when every extracted item was seen before. */
  lemma NovelEmptyIff<T>(xs: seq<T>, prev: seq<T>)
    ensures Novel(xs, prev) == [] <==> forall k :: 0 <= k < |xs| ==> xs[k] in prev
  {
  }

  /** Filtering the result again against the same record changes nothing. */
  lemma {:induction false} NovelIdempotent<T>(xs: seq<T>, prev: seq<T>)
    ensures Novel(Novel(xs, prev), prev) == Novel(xs, prev)
  {
    if xs != [] {
      NovelIdempotent(xs[1..], prev);
      if xs[0] !in prev {
        NovelAppend([xs[0]], Novel(xs[1..], prev), prev);
        assert [xs[0]][1..] == [];
        assert Novel([xs[0]], prev) == [xs[0]] + Novel([], prev);
        assert Novel(xs, prev) == [xs[0]] + Novel(xs[1..], prev);
      } else {
        assert Novel(xs, prev) == Novel(xs[1..], prev);
      }
    }
  }

  /** The filter works item by item, so it distributes over concatenation. */
  lemma {:induction false} NovelAppend<T>(a: seq<T>, b: seq<T>, prev: seq<T>)
    ensures Novel(a + b, prev) == Novel(a, prev) + Novel(b, prev)
  {
    if a != [] {
      NovelAppend(a[1..], b, prev);
      ConsSplit(a, b);
    } else {
      assert a + b == b;
    }
  }

  /** The head and tail of a concatenation whose first part is non-empty. */
  lemma ConsSplit<T>(a: seq<T>, b: seq<T>)
    requires a != []
    ensures a + b != [] && (a + b)[0] == a[0] && (a + b)[1..] == a[1..] + b
  {
  }

  /** Against a record of the very same items, nothing is new. */
  lemma NovelAgainstItself<T>(xs: seq<T>)
    ensures Novel(xs, xs) == []
  {
    NovelEmptyIff(xs, xs);
  }
}
