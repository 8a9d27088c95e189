/** The JavaScript array operation that simulation arithmetic is built from:
    `Array.prototype.filter` with a side-effect-free callback. */
module Arrays {

  /** The elements of `s` for which `keep` holds, in their original order. */
  function Filter<T(!new)>(s: seq<T>, keep: T -> bool): (r: seq<T>)
    ensures |r| <= |s|
    ensures forall x :: x in r <==> x in s && keep(x)
  {
    if s == [] then []
    else if keep(s[0]) then [s[0]] + Filter(s[1..], keep)
    else Filter(s[1..], keep)
  }

  /** `idx` lists positions of `s`, strictly increasing, and `r` is the sequence of the
      elements of `s` at those positions: `r` is a subsequence of `s`, in order, with no
      element invented or taken twice. */
  ghost predicate SelectsInOrder<T>(idx: seq<nat>, r: seq<T>, s: seq<T>)
  {
    && |idx| == |r|
    && (forall k :: 0 <= k < |idx| ==> idx[k] < |s| && r[k] == s[idx[k]])
    && (forall j, k :: 0 <= j < k < |idx| ==> idx[j] < idx[k])
  }

  /** Every position in `idx`, moved one place to the right. */
  function Shift(idx: seq<nat>): (r: seq<nat>)
    ensures |r| == |idx|
    ensures forall k :: 0 <= k < |idx| ==> r[k] == idx[k] + 1
  {
    seq(|idx|, k requires 0 <= k < |idx| => idx[k] + 1)
  }

  /** A selection from the tail of `s` is, shifted by one, a selection from `s` itself
      that does not use the first position. */
  lemma ShiftSelects<T>(idx: seq<nat>, r: seq<T>, s: seq<T>)
    requires s != [] && SelectsInOrder(idx, r, s[1..])
    ensures SelectsInOrder(Shift(idx), r, s)
    ensures 0 !in Shift(idx)
    ensures forall i :: 1 <= i <= |s| ==> (i in Shift(idx) <==> i - 1 in idx)
  {
  }

  /** Adding the first element of `s` in front of a selection from the tail of `s`. */
  lemma ConsSelects<T>(idx: seq<nat>, r: seq<T>, s: seq<T>)
    requires s != [] && SelectsInOrder(idx, r, s[1..])
    ensures SelectsInOrder([0] + Shift(idx), [s[0]] + r, s)
    ensures forall i :: 1 <= i <= |s| ==> (i in [0] + Shift(idx) <==> i - 1 in idx)
  {
  }

  /** Filter picks, in order, exactly the positions of `s` whose element satisfies `keep`. */
  lemma {:induction false} FilterSelects<T(!new)>(s: seq<T>, keep: T -> bool) returns (idx: seq<nat>)
    ensures SelectsInOrder(idx, Filter(s, keep), s)
    ensures forall i :: 0 <= i < |s| ==> (i in idx <==> keep(s[i]))
  {
    if s == [] {
      idx := [];
    } else {
      var rest := FilterSelects(s[1..], keep);
      var tail := Filter(s[1..], keep);
      if keep(s[0]) {
        ConsSelects(rest, tail, s);
        idx := [0] + Shift(rest);
      } else {
        ShiftSelects(rest, tail, s);
        idx := Shift(rest);
      }
      forall i | 1 <= i < |s|
        ensures i in idx <==> keep(s[i])
      {
        assert s[i] == s[1..][i - 1];
      }
    }
  }

  /** Filtering distributes over concatenation. */
  lemma {:induction false} FilterConcat<T(!new)>(a: seq<T>, b: seq<T>, keep: T -> bool)
    ensures Filter(a + b, keep) == Filter(a, keep) + Filter(b, keep)
  {
    if a == [] {
      assert a + b == b;
    } else {
      assert (a + b)[0] == a[0];
      assert (a + b)[1..] == a[1..] + b;
      FilterConcat(a[1..], b, keep);
    }
  }

  /** When every element is kept, filtering changes nothing. */
  lemma {:induction false} FilterKeepsAll<T(!new)>(s: seq<T>, keep: T -> bool)
    requires forall x :: x in s ==> keep(x)
    ensures Filter(s, keep) == s
  {
    if s != [] {
      assert s[0] in s;
      assert forall x :: x in s[1..] ==> x in s;
      FilterKeepsAll(s[1..], keep);
    }
  }

  /** When no element is kept, filtering leaves nothing. */
  lemma FilterDropsAll<T(!new)>(s: seq<T>, keep: T -> bool)
    requires forall x :: x in s ==> !keep(x)
    ensures Filter(s, keep) == []
  {
  }
}
