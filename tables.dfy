/** Vectors and matrices of reals: sums, the first-maximum rule of argmax,
    and the row view of a two-dimensional array. */
module Tables {

  /** Sum of a vector, accumulated from the left. */
  function Sum(v: seq<real>): real
  {
    if v == [] then 0.0 else Sum(v[..|v| - 1]) + v[|v| - 1]
  }

  predicate NonNegative(v: seq<real>)
  {
    forall k :: 0 <= k < |v| ==> 0.0 <= v[k]
  }

  /** The vector of n zeros. */
  function Zeros(n: nat): (r: seq<real>)
    ensures |r| == n && forall k :: 0 <= k < n ==> r[k] == 0.0
  {
    seq(n, _ => 0.0)
  }

  lemma {:induction false} SumOfZeros(v: seq<real>)
    requires forall k :: 0 <= k < |v| ==> v[k] == 0.0
    ensures Sum(v) == 0.0
  {
    if v != [] {
      SumOfZeros(v[..|v| - 1]);
    }
  }

  /** Summing is linear: the sum of a pointwise sum is the sum of the sums. */
  lemma {:induction false} SumPointwise(u: seq<real>, v: seq<real>, w: seq<real>)
    requires |u| == |v| == |w|
    requires forall k :: 0 <= k < |w| ==> w[k] == u[k] + v[k]
    ensures Sum(w) == Sum(u) + Sum(v)
  {
    if w != [] {
      var n := |w| - 1;
      SumPointwise(u[..n], v[..n], w[..n]);
    }
  }

  /** A vector that is 1 at position c and 0 elsewhere sums to 1. */
  lemma {:induction false} SumOfIndicator(v: seq<real>, c: nat)
    requires c < |v|
    requires forall k :: 0 <= k < |v| ==> v[k] == if k == c then 1.0 else 0.0
    ensures Sum(v) == 1.0
  {
    var n := |v| - 1;
    if c == n {
      SumOfZeros(v[..n]);
    } else {
      SumOfIndicator(v[..n], c);
    }
  }

  /** Dividing every entry by d divides the sum by d. */
  lemma {:induction false} SumScaled(v: seq<real>, d: real, w: seq<real>)
    requires d != 0.0 && |w| == |v|
    requires forall k :: 0 <= k < |v| ==> w[k] == v[k] / d
    ensures Sum(w) == Sum(v) / d
  {
    if v != [] {
      var n := |v| - 1;
      SumScaled(v[..n], d, w[..n]);
      assert Sum(w) == Sum(v[..n]) / d + v[n] / d;
    }
  }

  /** In a non-negative vector the sum is non-negative and bounds every entry. */
  lemma {:induction false} SumBoundsEntries(v: seq<real>)
    requires NonNegative(v)
    ensures 0.0 <= Sum(v)
    ensures forall k :: 0 <= k < |v| ==> v[k] <= Sum(v)
  {
    if v != [] {
      var n := |v| - 1;
      assert NonNegative(v[..n]);
      SumBoundsEntries(v[..n]);
      forall k | 0 <= k < n
        ensures v[k] <= Sum(v)
      {
        assert v[..n][k] == v[k];
      }
    }
  }

  /** numpy's argmax: scans left to right and moves only on a strictly
      larger entry (ArgMaxIsFirstMax states what it finds). */
  function ArgMax(v: seq<real>): (i: nat)
    requires |v| > 0
    ensures i < |v|
  {
    if |v| == 1 then 0
    else
      var i := ArgMax(v[..|v| - 1]);
      if v[|v| - 1] > v[i] then |v| - 1 else i
  }

  /** argmax finds a maximum, and no earlier index holds one: it is the
      lowest index holding the maximum. */
  lemma {:induction false} ArgMaxIsFirstMax(v: seq<real>)
    requires |v| > 0
    ensures forall k :: 0 <= k < |v| ==> v[k] <= v[ArgMax(v)]
    ensures forall k :: 0 <= k < ArgMax(v) ==> v[k] < v[ArgMax(v)]
  {
    if |v| > 1 {
      var n := |v| - 1;
      var u := v[..n];
      ArgMaxIsFirstMax(u);
      assert forall k :: 0 <= k < n ==> v[k] == u[k];
    }
  }

  /** numpy's max of a non-empty vector. */
  function Max(v: seq<real>): (r: real)
    requires |v| > 0
    ensures r in v
    ensures forall k :: 0 <= k < |v| ==> v[k] <= r
  {
    ArgMaxIsFirstMax(v);
    v[ArgMax(v)]
  }

  /** A matrix as the sequence of its rows. */
  function Rows<T>(a: array2<T>): (t: seq<seq<T>>)
    reads a
    ensures |t| == a.Length0
    ensures forall i :: 0 <= i < |t| ==> |t[i]| == a.Length1
    ensures forall i, j :: 0 <= i < a.Length0 && 0 <= j < a.Length1 ==> t[i][j] == a[i, j]
  {
    seq(a.Length0, i requires 0 <= i < a.Length0 reads a =>
      seq(a.Length1, j requires 0 <= j < a.Length1 reads a => a[i, j]))
  }

  /** A matrix whose entries are those of t has t as its rows. */
  lemma RowsAre<T>(a: array2<T>, t: seq<seq<T>>)
    requires |t| == a.Length0 && forall i :: 0 <= i < |t| ==> |t[i]| == a.Length1
    requires forall i, j :: 0 <= i < a.Length0 && 0 <= j < a.Length1 ==> a[i, j] == t[i][j]
    ensures Rows(a) == t
  {
    assert forall i :: 0 <= i < |t| ==> Rows(a)[i] == t[i];
  }

  /** A fresh matrix holding the given rows, each of length cols. */
  method FromRows(t: seq<seq<real>>, cols: nat) returns (a: array2<real>)
    requires forall i :: 0 <= i < |t| ==> |t[i]| == cols
    ensures fresh(a) && a.Length0 == |t| && a.Length1 == cols
    ensures Rows(a) == t
  {
    a := new real[|t|, cols]((i, j) requires 0 <= i < |t| && 0 <= j < cols => t[i][j]);
    RowsAre(a, t);
  }
}
