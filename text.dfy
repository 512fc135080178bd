/** Joining strings with a separator (Python's `sep.join(pieces)`) and where each piece lands. */
module Text {

  /** `sep.join(xs)`: the pieces in order with `sep` between neighbours. */
  function Join(sep: string, xs: seq<string>): string
  {
    if |xs| == 0 then ""
    else if |xs| == 1 then xs[0]
    else xs[0] + sep + Join(sep, xs[1..])
  }

  /** Where piece `k` starts in `Join(sep, xs)`: the pieces before it, each with its separator. */
  function Offset(sep: string, xs: seq<string>, k: nat): nat
    requires k <= |xs|
  {
    if k == 0 then 0 else |xs[0]| + |sep| + Offset(sep, xs[1..], k - 1)
  }

  /**
   * The layout of a join: piece `k` sits at `Offset(sep, xs, k)`, a separator follows it unless
   * it is the last piece, and the last piece ends the string. The first piece starts at 0, so
   * nothing else is in the result.
   */
  lemma JoinLayout(sep: string, xs: seq<string>, k: nat)
    requires k < |xs|
    ensures Offset(sep, xs, k) + |xs[k]| <= |Join(sep, xs)|
    ensures Join(sep, xs)[Offset(sep, xs, k) .. Offset(sep, xs, k) + |xs[k]|] == xs[k]
    ensures k + 1 < |xs| ==>
      Offset(sep, xs, k) + |xs[k]| + |sep| <= |Join(sep, xs)| &&
      Join(sep, xs)[Offset(sep, xs, k) + |xs[k]| .. Offset(sep, xs, k) + |xs[k]| + |sep|] == sep
    ensures k + 1 == |xs| ==> Offset(sep, xs, k) + |xs[k]| == |Join(sep, xs)|
  {
    var j := Join(sep, xs);
    assert j[0..|j|] == j;
    JoinAt(j, 0, sep, xs, k);
  }

  /** The first piece opens the join, followed by a separator unless it is the only piece. */
  lemma JoinLayoutFirst(sep: string, xs: seq<string>)
    requires 0 < |xs|
    ensures |xs[0]| <= |Join(sep, xs)| && Join(sep, xs)[..|xs[0]|] == xs[0]
    ensures 1 < |xs| ==>
      |xs[0]| + |sep| <= |Join(sep, xs)| && Join(sep, xs)[|xs[0]| .. |xs[0]| + |sep|] == sep
    ensures 1 == |xs| ==> |xs[0]| == |Join(sep, xs)|
  {
    if 1 < |xs| {
      var j := Join(sep, xs);
      var head := xs[0] + sep;
      assert j == head + Join(sep, xs[1..]);
      SliceOf(j, 0, head, 0, |xs[0]|);
      SliceOf(j, 0, head, |xs[0]|, |head|);
    }
  }

  /** A slice of a segment is the matching slice of the whole, shifted by the segment's start. */
  lemma SliceOf<T>(p: seq<T>, start: nat, c: seq<T>, i: nat, j: nat)
    requires start + |c| <= |p| && p[start .. start + |c|] == c && i <= j <= |c|
    ensures p[start + i .. start + j] == c[i..j]
  {
    assert forall t :: i <= t < j ==> c[t] == p[start + t];
  }

  /** Appending a piece appends a separator and the piece. */
  lemma {:induction false} JoinSnoc(sep: string, xs: seq<string>, x: string)
    requires |xs| >= 1
    ensures Join(sep, xs + [x]) == Join(sep, xs) + sep + x
  {
    if |xs| == 1 {
      assert (xs + [x])[1..] == [x];
    } else {
      assert (xs + [x])[1..] == xs[1..] + [x];
      JoinSnoc(sep, xs[1..], x);
    }
  }

  /**
   * The layout of a join found at position `start` of a longer string `p`: piece `k` sits at
   * `start + Offset(sep, xs, k)`, followed by a separator unless it is the last piece, which
   * ends the join.
   */
  lemma {:induction false} JoinAt(p: string, start: nat, sep: string, xs: seq<string>, k: nat)
    requires k < |xs|
    requires start + |Join(sep, xs)| <= |p| && p[start .. start + |Join(sep, xs)|] == Join(sep, xs)
    ensures var o, n := start + Offset(sep, xs, k), |xs[k]|;
      && o + n <= |p|
      && p[o .. o + n] == xs[k]
      && (k + 1 < |xs| ==> o + n + |sep| <= |p| && p[o + n .. o + n + |sep|] == sep)
      && (k + 1 == |xs| ==> o + n == start + |Join(sep, xs)|)
    decreases k
  {
    if k == 0 {
      JoinAtFirst(p, start, sep, xs);
    } else {
      var head := xs[0] + sep;
      var rest := Join(sep, xs[1..]);
      assert Join(sep, xs) == head + rest;
      SliceTail(p, start, head, rest);
      JoinAt(p, start + |head|, sep, xs[1..], k - 1);
      assert xs[1..][k - 1] == xs[k];
      assert start + Offset(sep, xs, k) == start + |head| + Offset(sep, xs[1..], k - 1);
      assert |Join(sep, xs)| == |head| + |rest|;
    }
  }

  /** The first piece of a join found at position `start` of `p`. */
  lemma JoinAtFirst(p: string, start: nat, sep: string, xs: seq<string>)
    requires 0 < |xs|
    requires start + |Join(sep, xs)| <= |p| && p[start .. start + |Join(sep, xs)|] == Join(sep, xs)
    ensures var n := |xs[0]|;
      && start + n <= |p|
      && p[start .. start + n] == xs[0]
      && (1 < |xs| ==> start + n + |sep| <= |p| && p[start + n .. start + n + |sep|] == sep)
      && (1 == |xs| ==> n == |Join(sep, xs)|)
  {
    var j, n := Join(sep, xs), |xs[0]|;
    JoinLayoutFirst(sep, xs);
    SliceOf(p, start, j, 0, n);
    if 1 < |xs| {
      SliceOf(p, start, j, n, n + |sep|);
    }
  }

  /** Where `head + rest` occurs, `rest` occurs right after `head`. */
  lemma SliceTail<T>(p: seq<T>, start: nat, head: seq<T>, rest: seq<T>)
    requires start + |head + rest| <= |p| && p[start .. start + |head + rest|] == head + rest
    ensures p[start + |head| .. start + |head| + |rest|] == rest
  {
    SliceOf(p, start, head + rest, |head|, |head + rest|);
    assert (head + rest)[|head|..] == rest;
  }
}
