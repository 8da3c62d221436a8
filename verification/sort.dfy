/**
 * The stable sort the ranking relies on: Rust's `sort_by` with the
 * comparator `b.0.cmp(&a.0)`, i.e. descending by score, keeping elements of
 * equal score in their original order.
 */
module StableSort {

  /** A move's stored score paired with its cell index. */
  type Scored = (int, nat)

  /** `p` is ranked strictly ahead of `q`: a higher score, or the same score and a smaller index. */
  predicate Before(p: Scored, q: Scored) {
    p.0 > q.0 || (p.0 == q.0 && p.1 < q.1)
  }

  predicate Ordered(s: seq<Scored>) {
    forall i, j :: 0 <= i < j < |s| ==> Before(s[i], s[j])
  }

  predicate Increasing(s: seq<nat>) {
    forall i, j :: 0 <= i < j < |s| ==> s[i] < s[j]
  }

  /** The cell indices of a sequence of scored moves, in the same order. */
  function Seconds(s: seq<Scored>): (r: seq<nat>)
    ensures |r| == |s|
    ensures forall k :: 0 <= k < |s| ==> r[k] == s[k].1
  {
    seq(|s|, k requires 0 <= k < |s| => s[k].1)
  }

  /** Inserts `p` ahead of every element whose score is not above its own. */
  function Insert(p: Scored, s: seq<Scored>): seq<Scored> {
    if s == [] || p.0 >= s[0].0 then [p] + s else [s[0]] + Insert(p, s[1..])
  }

  /** Stable insertion sort, descending by score. */
  function SortDesc(s: seq<Scored>): seq<Scored> {
    if s == [] then [] else Insert(s[0], SortDesc(s[1..]))
  }

  lemma SecondsCons(p: Scored, s: seq<Scored>)
    ensures Seconds([p] + s) == [p.1] + Seconds(s)
  {
  }

  lemma {:induction false} InsertPermutes(p: Scored, s: seq<Scored>)
    ensures |Insert(p, s)| == |s| + 1
    ensures multiset(Insert(p, s)) == multiset(s) + multiset{p}
  {
    if !(s == [] || p.0 >= s[0].0) {
      InsertPermutes(p, s[1..]);
      assert s == [s[0]] + s[1..];
    }
  }

  lemma {:induction false} InsertKeepsIndices(p: Scored, s: seq<Scored>)
    ensures multiset(Seconds(Insert(p, s))) == multiset(Seconds(s)) + multiset{p.1}
  {
    if s == [] || p.0 >= s[0].0 {
      SecondsCons(p, s);
    } else {
      InsertKeepsIndices(p, s[1..]);
      assert s == [s[0]] + s[1..];
      SecondsCons(s[0], Insert(p, s[1..]));
      SecondsCons(s[0], s[1..]);
    }
  }

  /** Sorting only reorders: the scored moves are a permutation of the input. */
  lemma {:induction false} SortPermutes(s: seq<Scored>)
    ensures |SortDesc(s)| == |s|
    ensures multiset(SortDesc(s)) == multiset(s)
  {
    if s != [] {
      SortPermutes(s[1..]);
      InsertPermutes(s[0], SortDesc(s[1..]));
      assert s == [s[0]] + s[1..];
    }
  }

  /** And so their indices are a permutation of the input's indices. */
  lemma {:induction false} SortKeepsIndices(s: seq<Scored>)
    ensures multiset(Seconds(SortDesc(s))) == multiset(Seconds(s))
  {
    if s != [] {
      SortKeepsIndices(s[1..]);
      InsertKeepsIndices(s[0], SortDesc(s[1..]));
      assert s == [s[0]] + s[1..];
      SecondsCons(s[0], s[1..]);
    }
  }

  lemma {:induction false} InsertOrdered(p: Scored, s: seq<Scored>)
    requires Ordered(s)
    requires forall q :: q in s ==> p.1 < q.1
    ensures Ordered(Insert(p, s))
  {
    if s == [] || p.0 >= s[0].0 {
      var r := [p] + s;
      forall i, j | 0 <= i < j < |r| ensures Before(r[i], r[j]) {
        if i == 0 {
          assert r[j] == s[j - 1];
          assert j - 1 > 0 ==> Before(s[0], s[j - 1]);
        }
      }
    } else {
      InsertOrdered(p, s[1..]);
      InsertPermutes(p, s[1..]);
      var tail := Insert(p, s[1..]);
      var r := [s[0]] + tail;
      forall i, j | 0 <= i < j < |r| ensures Before(r[i], r[j]) {
        if i == 0 {
          assert r[j] in multiset(tail);
          if r[j] != p {
            assert r[j] in multiset(s[1..]);
            var m :| 0 <= m < |s[1..]| && s[1..][m] == r[j];
            assert Before(s[0], s[m + 1]);
          }
        }
      }
    }
  }

  /**
   * Stability: when the input indices ascend, the output is ordered by
   * descending score with ties in ascending index order.
   */
  lemma {:induction false} SortOrdered(s: seq<Scored>)
    requires Increasing(Seconds(s))
    ensures Ordered(SortDesc(s))
  {
    if s != [] {
      assert Seconds(s[1..]) == Seconds(s)[1..];
      SortOrdered(s[1..]);
      SortPermutes(s[1..]);
      forall q | q in SortDesc(s[1..]) ensures s[0].1 < q.1 {
        assert q in multiset(s[1..]);
        var m :| 0 <= m < |s[1..]| && s[1..][m] == q;
        assert Seconds(s)[0] < Seconds(s)[m + 1];
      }
      InsertOrdered(s[0], SortDesc(s[1..]));
    }
  }
}
