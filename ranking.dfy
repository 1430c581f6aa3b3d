/** The result record of the search handler, its descending comparator, and
    `Collections.sort` over a list of such records. The Java library promises
    a stable sort; the model sorts in place by insertion and proves that the
    outcome is the one sequence that is ordered by the comparator and keeps
    equal-scored records in their original order, so any stable sort yields
    the same list. */
module Ranking {

  /** `SimilarityResult`: the stored text (`metadata`) and its score. */
  datatype SimilarityResult = SimilarityResult(metadata: string, similarity: real)

  /** `Double.compare(d1, d2)` on scores without NaN or signed zeros:
      the sign of d1 - d2. */
  function DoubleCompare(d1: real, d2: real): (c: int)
    ensures c == -1 || c == 0 || c == 1
    ensures c < 0 <==> d1 < d2
    ensures c > 0 <==> d2 < d1
  {
    if d1 < d2 then -1 else if d2 < d1 then 1 else 0
  }

  /** `r.compareTo(o)`: `Double.compare(o.similarity, r.similarity)`, which
      puts the higher score first. */
  function CompareTo(r: SimilarityResult, o: SimilarityResult): (c: int)
    ensures c < 0 <==> r.similarity > o.similarity
    ensures c > 0 <==> r.similarity < o.similarity
    ensures c == 0 <==> r.similarity == o.similarity
  {
    DoubleCompare(o.similarity, r.similarity)
  }

  /** The comparator is antisymmetric: swapping the arguments flips the sign. */
  lemma CompareToAntisymmetric(x: SimilarityResult, y: SimilarityResult)
    ensures CompareTo(x, y) == -CompareTo(y, x)
  {
  }

  /** The comparator is transitive, so it is a total preorder on results. */
  lemma CompareToTransitive(x: SimilarityResult, y: SimilarityResult, z: SimilarityResult)
    ensures CompareTo(x, y) <= 0 && CompareTo(y, z) <= 0 ==> CompareTo(x, z) <= 0
    ensures CompareTo(x, y) < 0 && CompareTo(y, z) < 0 ==> CompareTo(x, z) < 0
  {
  }

  /** Ordered by the comparator: no result is followed by one it compares
      below, that is, similarities never increase along the list. */
  predicate Sorted(s: seq<SimilarityResult>)
  {
    forall i, j | 0 <= i < j < |s| :: CompareTo(s[i], s[j]) <= 0
  }

  /** The results that carry score v, in the order the list has them. Two
      lists are stably ordered relative to each other exactly when this
      subsequence agrees for every score. */
  function WithScore(s: seq<SimilarityResult>, v: real): seq<SimilarityResult>
  {
    if s == [] then []
    else
      var last := s[|s| - 1];
      WithScore(s[..|s| - 1], v) + (if last.similarity == v then [last] else [])
  }

  /** WithScore keeps exactly the results that carry the score. */
  lemma {:induction false} WithScoreMembers(s: seq<SimilarityResult>, v: real, x: SimilarityResult)
    ensures x in WithScore(s, v) <==> x in s && x.similarity == v
  {
    if s != [] {
      var init := s[..|s| - 1];
      WithScoreMembers(init, v, x);
      assert s == init + [s[|s| - 1]];
    }
  }

  /** Stable insertion of x into a sorted list: x goes after every result
      that does not compare above it. */
  function Insert(t: seq<SimilarityResult>, x: SimilarityResult): (r: seq<SimilarityResult>)
    ensures |r| == |t| + 1
  {
    if t == [] || CompareTo(t[|t| - 1], x) <= 0 then t + [x]
    else Insert(t[..|t| - 1], x) + [t[|t| - 1]]
  }

  /** The list that `Collections.sort` leaves: results inserted one by one,
      in list order. */
  function StableSort(s: seq<SimilarityResult>): (r: seq<SimilarityResult>)
    ensures |r| == |s|
  {
    if s == [] then [] else Insert(StableSort(s[..|s| - 1]), s[|s| - 1])
  }

  /** What any stable sort by the comparator promises of its output t for
      input s: ordered, and each score's results in their input order. */
  ghost predicate IsStableSortOf(t: seq<SimilarityResult>, s: seq<SimilarityResult>)
  {
    Sorted(t) && forall v :: WithScore(t, v) == WithScore(s, v)
  }

  lemma {:induction false} InsertCount(t: seq<SimilarityResult>, x: SimilarityResult)
    ensures multiset(Insert(t, x)) == multiset(t) + multiset{x}
  {
    if t != [] && CompareTo(t[|t| - 1], x) > 0 {
      var init := t[..|t| - 1];
      InsertCount(init, x);
      assert t == init + [t[|t| - 1]];
    }
  }

  lemma {:induction false} InsertSorted(t: seq<SimilarityResult>, x: SimilarityResult)
    requires Sorted(t)
    ensures Sorted(Insert(t, x))
  {
    if t != [] && CompareTo(t[|t| - 1], x) > 0 {
      var init, last := t[..|t| - 1], t[|t| - 1];
      InsertSorted(init, x);
      InsertCount(init, x);
      var u := Insert(init, x);
      forall i | 0 <= i < |u|
        ensures u[i].similarity >= last.similarity
      {
        assert u[i] in multiset(u);
      }
    }
  }

  lemma {:induction false} InsertWithScore(t: seq<SimilarityResult>, x: SimilarityResult, v: real)
    ensures WithScore(Insert(t, x), v) ==
            WithScore(t, v) + (if x.similarity == v then [x] else [])
  {
    if t == [] || CompareTo(t[|t| - 1], x) <= 0 {
      assert (t + [x])[..|t|] == t;
    } else {
      var init, last := t[..|t| - 1], t[|t| - 1];
      InsertWithScore(init, x, v);
      var u := Insert(init, x);
      assert (u + [last])[..|u|] == u;
    }
  }

  /** The sorted list holds exactly the input's results. */
  lemma {:induction false} StableSortPermutation(s: seq<SimilarityResult>)
    ensures multiset(StableSort(s)) == multiset(s)
  {
    if s != [] {
      var init := s[..|s| - 1];
      StableSortPermutation(init);
      InsertCount(StableSort(init), s[|s| - 1]);
      assert s == init + [s[|s| - 1]];
    }
  }

  /** The sorted list is ordered by the comparator and keeps equal-scored
      results in their input order. */
  lemma {:induction false} StableSortIsStableSort(s: seq<SimilarityResult>)
    ensures IsStableSortOf(StableSort(s), s)
  {
    if s != [] {
      var init, last := s[..|s| - 1], s[|s| - 1];
      StableSortIsStableSort(init);
      InsertSorted(StableSort(init), last);
      forall v
        ensures WithScore(StableSort(s), v) == WithScore(s, v)
      {
        InsertWithScore(StableSort(init), last, v);
      }
    }
  }

  /** Every result of a sorted list scores at least as high as its last one. */
  lemma SortedLastIsLeast(t: seq<SimilarityResult>, x: SimilarityResult)
    requires Sorted(t) && t != [] && x in t
    ensures x.similarity >= t[|t| - 1].similarity
  {
    var i :| 0 <= i < |t| && t[i] == x;
    if i < |t| - 1 {
      assert CompareTo(t[i], t[|t| - 1]) <= 0;
    }
  }

  /** Appending a result extends its score's subsequence and no other. */
  lemma WithScoreSnoc(s: seq<SimilarityResult>, x: SimilarityResult, v: real)
    ensures WithScore(s + [x], v) == WithScore(s, v) + (if x.similarity == v then [x] else [])
  {
    assert (s + [x])[..|s|] == s;
  }

  /** In a sorted list, every result before position n scores at least as
      high as every result from position n on. */
  lemma SortedSplit(t: seq<SimilarityResult>, n: nat)
    requires Sorted(t) && n <= |t|
    ensures forall x, y | x in t[..n] && y in t[n..] :: x.similarity >= y.similarity
  {
    forall x, y | x in t[..n] && y in t[n..]
      ensures x.similarity >= y.similarity
    {
      var i :| 0 <= i < n && t[i] == x;
      var j :| n <= j < |t| && t[j] == y;
      assert CompareTo(t[i], t[j]) <= 0;
    }
  }

  /** Two lists with the same per-score subsequences whose last results
      share a score: the last results are equal, and so are the per-score
      subsequences of what precedes them. */
  lemma WithScoreDropLast(init1: seq<SimilarityResult>, x1: SimilarityResult,
                          init2: seq<SimilarityResult>, x2: SimilarityResult)
    requires x1.similarity == x2.similarity
    requires forall v :: WithScore(init1 + [x1], v) == WithScore(init2 + [x2], v)
    ensures x1 == x2
    ensures forall u :: WithScore(init1, u) == WithScore(init2, u)
  {
    var v := x1.similarity;
    var w1, w2 := WithScore(init1, v), WithScore(init2, v);
    WithScoreSnoc(init1, x1, v);
    WithScoreSnoc(init2, x2, v);
    assert (w1 + [x1])[|w1|] == x1 && (w2 + [x2])[|w2|] == x2;
    forall u
      ensures WithScore(init1, u) == WithScore(init2, u)
    {
      var u1, u2 := WithScore(init1, u), WithScore(init2, u);
      WithScoreSnoc(init1, x1, u);
      WithScoreSnoc(init2, x2, u);
      if u == v {
        assert u1 == (u1 + [x1])[..|u1|];
        assert u2 == (u2 + [x2])[..|u2|];
      } else {
        assert u1 + [] == u1 && u2 + [] == u2;
      }
    }
  }

  /** Two sorted lists with the same per-score subsequences end in results
      of the same (lowest) score. */
  lemma LastScoresAgree(t1: seq<SimilarityResult>, t2: seq<SimilarityResult>)
    requires Sorted(t1) && Sorted(t2) && t1 != [] && t2 != []
    requires forall v :: WithScore(t1, v) == WithScore(t2, v)
    ensures t1[|t1| - 1].similarity == t2[|t2| - 1].similarity
  {
    var x1, x2 := t1[|t1| - 1], t2[|t2| - 1];
    WithScoreMembers(t1, x1.similarity, x1);
    WithScoreMembers(t2, x1.similarity, x1);
    SortedLastIsLeast(t2, x1);
    WithScoreMembers(t2, x2.similarity, x2);
    WithScoreMembers(t1, x2.similarity, x2);
    SortedLastIsLeast(t1, x2);
  }

  /** Ordering and per-score order pin the list down: two lists that are
      both stable sorts of the same input are equal. */
  lemma {:induction false} StableSortOutputUnique(t1: seq<SimilarityResult>, t2: seq<SimilarityResult>)
    requires Sorted(t1) && Sorted(t2)
    requires forall v :: WithScore(t1, v) == WithScore(t2, v)
    ensures t1 == t2
    decreases |t1|
  {
    if t1 == [] {
      if t2 != [] {
        var y := t2[|t2| - 1];
        WithScoreMembers(t2, y.similarity, y);
        WithScoreMembers(t1, y.similarity, y);
      }
    } else if t2 == [] {
      var x := t1[|t1| - 1];
      WithScoreMembers(t1, x.similarity, x);
      WithScoreMembers(t2, x.similarity, x);
    } else {
      var init1, x1 := t1[..|t1| - 1], t1[|t1| - 1];
      var init2, x2 := t2[..|t2| - 1], t2[|t2| - 1];
      LastScoresAgree(t1, t2);
      assert t1 == init1 + [x1] && t2 == init2 + [x2];
      WithScoreDropLast(init1, x1, init2, x2);
      StableSortOutputUnique(init1, init2);
    }
  }

  /** StableSort is THE stable sort: a list is a stable sort of s exactly
      when it equals StableSort(s). So modelling the library's merge sort by
      insertion does not change the list the handler sees. */
  lemma StableSortCharacterized(t: seq<SimilarityResult>, s: seq<SimilarityResult>)
    ensures IsStableSortOf(t, s) <==> t == StableSort(s)
  {
    StableSortIsStableSort(s);
    if IsStableSortOf(t, s) {
      StableSortOutputUnique(t, StableSort(s));
    }
  }

  /** One step of StableSort: the first i + 1 results sorted is the first
      i sorted with result i inserted. */
  lemma StableSortStep(s: seq<SimilarityResult>, i: nat)
    requires i < |s|
    ensures StableSort(s[..i + 1]) == Insert(StableSort(s[..i]), s[i])
  {
    assert s[..i + 1][..i] == s[..i];
  }

  /** Where insertion puts x: after the first j results, when every later
      result compares above x and result j - 1 does not. */
  lemma {:induction false} InsertPosition(done: seq<SimilarityResult>, j: nat, x: SimilarityResult)
    requires j <= |done|
    requires j == 0 || CompareTo(done[j - 1], x) <= 0
    requires forall k | j <= k < |done| :: CompareTo(done[k], x) > 0
    ensures Insert(done, x) == done[..j] + [x] + done[j..]
  {
    if j < |done| {
      var init := done[..|done| - 1];
      assert init[..j] == done[..j];
      InsertPosition(init, j, x);
      assert done[j..] == init[j..] + [done[|done| - 1]];
    } else {
      assert done[..j] == done;
    }
  }

  /** One pass of the sort: result i moves left past the results of the
      sorted prefix a[..i] that compare above it; nothing past i moves. */
  method InsertInto(a: array<SimilarityResult>, i: nat)
    requires i < a.Length
    modifies a
    ensures a[..i + 1] == Insert(old(a[..i]), old(a[i]))
    ensures a[i + 1..] == old(a[i + 1..])
  {
    var key := a[i];
    ghost var done := a[..i];
    var j := i;
    while j > 0 && CompareTo(a[j - 1], key) > 0
      invariant 0 <= j <= i
      invariant forall k | 0 <= k < j :: a[k] == done[k]
      invariant forall k | j < k <= i :: a[k] == done[k - 1]
      invariant forall k | i < k < a.Length :: a[k] == old(a[k])
      invariant forall k | j <= k < i :: CompareTo(done[k], key) > 0
    {
      a[j] := a[j - 1];
      j := j - 1;
    }
    a[j] := key;
    InsertPosition(done, j, key);
    ghost var placed := done[..j] + [key] + done[j..];
    assert |placed| == i + 1;
    forall k | 0 <= k <= i
      ensures a[k] == placed[k]
    {
      if k > j {
        assert placed[k] == done[k - 1];
      }
    }
    assert a[..i + 1] == placed;
    assert a[i + 1..] == old(a[i + 1..]);
  }

  /** `Collections.sort(list)`: sorts the array in place, by insertion,
      moving a result left only past results the comparator puts after it. */
  method Sort(a: array<SimilarityResult>)
    modifies a
    ensures a[..] == StableSort(old(a[..]))
  {
    ghost var input := a[..];
    var i := 0;
    while i < a.Length
      invariant 0 <= i <= a.Length
      invariant a[..i] == StableSort(input[..i])
      invariant a[i..] == input[i..]
    {
      InsertInto(a, i);
      StableSortStep(input, i);
      assert input[i..][0] == input[i];
      assert a[i + 1..] == input[i..][1..];
      i := i + 1;
    }
    assert input[..a.Length] == input;
  }
}
