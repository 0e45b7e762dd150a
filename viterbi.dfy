/** Viterbi decoding over log-space score tables: the dynamic program that
    fills T1 (best score of a path ending in a tag) and T2 (its backpointer),
    the first-index tie-break of argmax, and the backtrace. */
module Viterbi {
  import opened Tables

  /** The log-transformed tables of an HMM: trans[i][j] scores tag j following
      tag i, emit[j][w] scores tag j emitting word w, and start is the index of
      the start state. */
  datatype Scores = Scores(trans: seq<seq<real>>, emit: seq<seq<real>>, start: nat)
  {
    predicate Valid()
    {
      && |trans| > 0 && start < |trans|
      && (forall i :: 0 <= i < |trans| ==> |trans[i]| == |trans|)
      && |emit| == |trans|
      && (forall i :: 0 <= i < |emit| ==> |emit[i]| == |emit[0]|)
    }

    /** Number of tags. */
    function Tags(): nat
    {
      |trans|
    }

    /** Number of words. */
    function Words(): nat
      requires Valid()
    {
      |emit[0]|
    }
  }

  /** A non-empty sentence of word indices that the tables can score. */
  predicate Decodable(m: Scores, obs: seq<nat>)
  {
    m.Valid() && |obs| > 0 && forall t :: 0 <= t < |obs| ==> obs[t] < m.Words()
  }

  /** A sequence of tag indices. */
  predicate IsPath(m: Scores, z: seq<nat>)
  {
    forall i :: 0 <= i < |z| ==> z[i] < m.Tags()
  }

  // ---------------------------------------------------------------------
  // The dynamic program, as functions.

  /** Base case: leaving the start state for tag j and emitting the first word. */
  function Init(m: Scores, w: nat): (r: seq<real>)
    requires m.Valid() && w < m.Words()
  {
    seq(m.Tags(), j requires 0 <= j < m.Tags() => m.trans[m.start][j] + m.emit[j][w])
  }

  /** Candidates for tag j at the next position: each previous tag k's best
      score, plus the transition k -> j, plus j emitting word w. */
  function Cands(m: Scores, prev: seq<real>, j: nat, w: nat): (c: seq<real>)
    requires m.Valid() && |prev| == m.Tags() && j < m.Tags() && w < m.Words()
    ensures |c| == m.Tags()
  {
    seq(m.Tags(), k requires 0 <= k < m.Tags() => prev[k] + m.trans[k][j] + m.emit[j][w])
  }

  /** The next row of T1 from the previous one and the word w: each tag's
      best candidate. */
  function Best(m: Scores, prev: seq<real>, w: nat): (row: seq<real>)
    requires m.Valid() && |prev| == m.Tags() && w < m.Words()
    ensures |row| == m.Tags()
  {
    seq(m.Tags(), j requires 0 <= j < m.Tags() => Max(Cands(m, prev, j, w)))
  }

  /** The next row of T2: for each tag, the first previous tag whose
      candidate is best. */
  function BestFrom(m: Scores, prev: seq<real>, w: nat): (brow: seq<nat>)
    requires m.Valid() && |prev| == m.Tags() && w < m.Words()
    ensures |brow| == m.Tags() && forall j :: 0 <= j < |brow| ==> brow[j] < m.Tags()
  {
    seq(m.Tags(), j requires 0 <= j < m.Tags() => ArgMax(Cands(m, prev, j, w)))
  }

  /** A table of backpointers: P entries per row, each a tag index below P. */
  predicate BackIndices(bp: seq<seq<nat>>, P: nat)
  {
    forall t :: 0 <= t < |bp| ==> |bp[t]| == P && forall j :: 0 <= j < P ==> bp[t][j] < P
  }

  /** The first |d| rows of T1 and T2 as the forward pass computes them:
      the start row in d[0], zeros in bp[0] (the backtrace never reads that
      row), and every later row computed from the one before. */
  predicate FilledUpTo(m: Scores, obs: seq<nat>, d: seq<seq<real>>, bp: seq<seq<nat>>)
    requires Decodable(m, obs)
  {
    && 0 < |d| == |bp| <= |obs|
    && (forall t :: 0 <= t < |d| ==> |d[t]| == m.Tags())
    && d[0] == Init(m, obs[0]) && bp[0] == seq(m.Tags(), _ => 0)
    && forall t {:trigger bp[t]} :: 1 <= t < |d| ==>
         d[t] == Best(m, d[t - 1], obs[t]) && bp[t] == BestFrom(m, d[t - 1], obs[t])
  }

  /** All rows filled. */
  predicate Filled(m: Scores, obs: seq<nat>, d: seq<seq<real>>, bp: seq<seq<nat>>)
    requires Decodable(m, obs)
  {
    FilledUpTo(m, obs, d, bp) && |d| == |obs|
  }

  /** Computing the next row from the last one keeps the tables filled. */
  lemma FilledExtend(m: Scores, obs: seq<nat>, d: seq<seq<real>>, bp: seq<seq<nat>>)
    requires Decodable(m, obs) && FilledUpTo(m, obs, d, bp) && |d| < |obs|
    ensures var t := |d|;
      FilledUpTo(m, obs, d + [Best(m, d[t - 1], obs[t])], bp + [BestFrom(m, d[t - 1], obs[t])])
  {
    var t := |d|;
    var d', bp' := d + [Best(m, d[t - 1], obs[t])], bp + [BestFrom(m, d[t - 1], obs[t])];
    forall s | 1 <= s <= t
      ensures d'[s] == Best(m, d'[s - 1], obs[s]) && bp'[s] == BestFrom(m, d'[s - 1], obs[s])
    {
      if s < t {
        assert d'[s] == d[s] && d'[s - 1] == d[s - 1] && bp'[s] == bp[s];
      }
    }
  }

  /** The trellis: the first n rows of T1 and T2. */
  function Trellis(m: Scores, obs: seq<nat>, n: nat): (r: (seq<seq<real>>, seq<seq<nat>>))
    requires Decodable(m, obs) && 1 <= n <= |obs|
    ensures |r.0| == n && FilledUpTo(m, obs, r.0, r.1)
  {
    if n == 1 then ([Init(m, obs[0])], [seq(m.Tags(), _ => 0)])
    else
      var (d, bp) := Trellis(m, obs, n - 1);
      FilledExtend(m, obs, d, bp);
      (d + [Best(m, d[n - 2], obs[n - 1])], bp + [BestFrom(m, d[n - 2], obs[n - 1])])
  }

  /** T1: Deltas(m, obs)[t][j] is the best score of a tag path for the first
      t + 1 words ending in tag j (FilledBoundsPaths, TraceAttains). */
  function Deltas(m: Scores, obs: seq<nat>): (d: seq<seq<real>>)
    requires Decodable(m, obs)
    ensures |d| == |obs| && forall t :: 0 <= t < |d| ==> |d[t]| == m.Tags()
  {
    Trellis(m, obs, |obs|).0
  }

  /** T2: Backs(m, obs)[t][j] is the first previous tag attaining
      Deltas(m, obs)[t][j]. */
  function Backs(m: Scores, obs: seq<nat>): (bp: seq<seq<nat>>)
    requires Decodable(m, obs)
    ensures |bp| == |obs| && BackIndices(bp, m.Tags())
  {
    var bp := Trellis(m, obs, |obs|).1;
    assert forall t :: 1 <= t < |bp| ==> bp[t] == BestFrom(m, Trellis(m, obs, |obs|).0[t - 1], obs[t]);
    bp
  }

  /** T1 and T2 are filled tables. */
  lemma DeltasFilled(m: Scores, obs: seq<nat>)
    requires Decodable(m, obs)
    ensures Filled(m, obs, Deltas(m, obs), Backs(m, obs))
  {
    var r := Trellis(m, obs, |obs|);
    assert Deltas(m, obs) == r.0 && Backs(m, obs) == r.1;
  }

  /** Filled tables agree row by row. */
  lemma {:induction false} FilledRowsAgree(m: Scores, obs: seq<nat>, d: seq<seq<real>>, bp: seq<seq<nat>>,
                                           d': seq<seq<real>>, bp': seq<seq<nat>>, t: nat)
    requires Decodable(m, obs) && FilledUpTo(m, obs, d, bp) && FilledUpTo(m, obs, d', bp')
    requires t < |d| && t < |d'|
    ensures d[t] == d'[t] && bp[t] == bp'[t]
  {
    if t > 0 {
      FilledRowsAgree(m, obs, d, bp, d', bp', t - 1);
      assert bp[t] == BestFrom(m, d[t - 1], obs[t]) && d[t] == Best(m, d[t - 1], obs[t]);
      assert bp'[t] == BestFrom(m, d'[t - 1], obs[t]) && d'[t] == Best(m, d'[t - 1], obs[t]);
    }
  }

  /** Whatever fills all rows computes exactly T1 and T2. */
  lemma FilledIsViterbi(m: Scores, obs: seq<nat>, d: seq<seq<real>>, bp: seq<seq<nat>>)
    requires Decodable(m, obs) && Filled(m, obs, d, bp)
    ensures d == Deltas(m, obs) && bp == Backs(m, obs)
  {
    var d', bp' := Deltas(m, obs), Backs(m, obs);
    DeltasFilled(m, obs);
    forall t | 0 <= t < |obs|
      ensures d[t] == d'[t] && bp[t] == bp'[t]
    {
      FilledRowsAgree(m, obs, d, bp, d', bp', t);
    }
  }

  /** The backtrace through the backpointer table bp from tag j at position t. */
  function Trace(bp: seq<seq<nat>>, P: nat, t: nat, j: nat): (z: seq<nat>)
    requires BackIndices(bp, P) && t < |bp| && j < P
    ensures |z| == t + 1 && z[t] == j
    ensures forall i :: 0 <= i < |z| ==> z[i] < P
  {
    if t == 0 then [j] else Trace(bp, P, t - 1, bp[t][j]) + [j]
  }

  /** The tag path Viterbi returns: the backtrace through T2 from the first
      argmax of the last row of T1. */
  function Decoded(m: Scores, obs: seq<nat>): (z: seq<nat>)
    requires Decodable(m, obs)
    ensures |z| == |obs| && IsPath(m, z)
  {
    Trace(Backs(m, obs), m.Tags(), |obs| - 1, ArgMax(Deltas(m, obs)[|obs| - 1]))
  }

  // ---------------------------------------------------------------------
  // What a path scores.

  /** The additive (log-space) score of tagging the first |z| words with z. */
  function PathScore(m: Scores, obs: seq<nat>, z: seq<nat>): real
    requires Decodable(m, obs) && 1 <= |z| <= |obs| && IsPath(m, z)
  {
    if |z| == 1 then m.trans[m.start][z[0]] + m.emit[z[0]][obs[0]]
    else
      var n := |z| - 1;
      PathScore(m, obs, z[..n]) + m.trans[z[n - 1]][z[n]] + m.emit[z[n]][obs[n]]
  }

  /** In filled tables, d[t][j] is the candidate of the stored backpointer
      bp[t][j], and no other previous tag gives a larger candidate. */
  lemma FilledStep(m: Scores, obs: seq<nat>, d: seq<seq<real>>, bp: seq<seq<nat>>, t: nat, j: nat)
    requires Decodable(m, obs) && Filled(m, obs, d, bp) && 1 <= t < |obs| && j < m.Tags()
    ensures bp[t][j] < m.Tags()
    ensures d[t][j] == d[t - 1][bp[t][j]] + m.trans[bp[t][j]][j] + m.emit[j][obs[t]]
    ensures forall k :: 0 <= k < m.Tags() ==> d[t - 1][k] + m.trans[k][j] + m.emit[j][obs[t]] <= d[t][j]
  {
    var c := Cands(m, d[t - 1], j, obs[t]);
    assert bp[t] == BestFrom(m, d[t - 1], obs[t]) && d[t] == Best(m, d[t - 1], obs[t]);
    assert d[t][j] == c[ArgMax(c)] && bp[t][j] == ArgMax(c);
    ArgMaxIsFirstMax(c);
    forall k | 0 <= k < m.Tags()
      ensures d[t - 1][k] + m.trans[k][j] + m.emit[j][obs[t]] <= d[t][j]
    {
      assert c[k] == d[t - 1][k] + m.trans[k][j] + m.emit[j][obs[t]];
    }
  }

  // ---------------------------------------------------------------------
  // The backtrace is optimal.

  /** In filled tables no path of length t + 1 ending in tag j scores more
      than d[t][j]. */
  lemma {:induction false} FilledBoundsPaths(m: Scores, obs: seq<nat>, d: seq<seq<real>>, bp: seq<seq<nat>>, z: seq<nat>)
    requires Decodable(m, obs) && Filled(m, obs, d, bp) && 1 <= |z| <= |obs| && IsPath(m, z)
    ensures PathScore(m, obs, z) <= d[|z| - 1][z[|z| - 1]]
  {
    var n := |z| - 1;
    if n > 0 {
      var y := z[..n];
      assert IsPath(m, y) && y[n - 1] == z[n - 1];
      FilledBoundsPaths(m, obs, d, bp, y);
      FilledStep(m, obs, d, bp, n, z[n]);
      assert PathScore(m, obs, z) == PathScore(m, obs, y) + m.trans[z[n - 1]][z[n]] + m.emit[z[n]][obs[n]];
    } else {
      assert d[0] == Init(m, obs[0]);
    }
  }

  /** One step of a backtrace: it extends the backtrace from the stored backpointer. */
  lemma TraceStep(bp: seq<seq<nat>>, P: nat, t: nat, j: nat)
    requires BackIndices(bp, P) && 1 <= t < |bp| && j < P
    ensures Trace(bp, P, t, j)[..t] == Trace(bp, P, t - 1, bp[t][j])
    ensures Trace(bp, P, t, j)[t - 1] == bp[t][j]
  {
  }

  /** Tables in which every entry after the first row is the candidate of
      its stored backpointer. */
  predicate Recurrence(m: Scores, obs: seq<nat>, d: seq<seq<real>>, bp: seq<seq<nat>>)
    requires Decodable(m, obs)
  {
    && |d| == |bp| == |obs| && BackIndices(bp, m.Tags())
    && (forall t :: 0 <= t < |d| ==> |d[t]| == m.Tags())
    && (forall i :: 0 <= i < m.Tags() ==> d[0][i] == m.trans[m.start][i] + m.emit[i][obs[0]])
    && forall t, i {:trigger bp[t][i]} :: 1 <= t < |d| && 0 <= i < m.Tags() ==>
         d[t][i] == d[t - 1][bp[t][i]] + m.trans[bp[t][i]][i] + m.emit[i][obs[t]]
  }

  /** Filled tables satisfy the recurrence. */
  lemma FilledRecurrence(m: Scores, obs: seq<nat>, d: seq<seq<real>>, bp: seq<seq<nat>>)
    requires Decodable(m, obs) && Filled(m, obs, d, bp)
    ensures Recurrence(m, obs, d, bp)
  {
    forall t, i | 1 <= t < |d| && 0 <= i < m.Tags()
      ensures bp[t][i] < m.Tags()
      ensures d[t][i] == d[t - 1][bp[t][i]] + m.trans[bp[t][i]][i] + m.emit[i][obs[t]]
    {
      FilledStep(m, obs, d, bp, t, i);
    }
    assert bp[0] == seq(m.Tags(), _ => 0) && d[0] == Init(m, obs[0]);
  }

  /** Under the recurrence, the backtrace from (t, j) scores exactly d[t][j]. */
  lemma {:induction false} TraceAttains(m: Scores, obs: seq<nat>, d: seq<seq<real>>, bp: seq<seq<nat>>, t: nat, j: nat)
    requires Decodable(m, obs) && Recurrence(m, obs, d, bp) && t < |obs| && j < m.Tags()
    ensures PathScore(m, obs, Trace(bp, m.Tags(), t, j)) == d[t][j]
  {
    var z := Trace(bp, m.Tags(), t, j);
    if t > 0 {
      var k := bp[t][j];
      var y := Trace(bp, m.Tags(), t - 1, k);
      TraceAttains(m, obs, d, bp, t - 1, k);
      TraceStep(bp, m.Tags(), t, j);
      assert z[..t] == y;
      assert PathScore(m, obs, z) == PathScore(m, obs, y) + m.trans[k][j] + m.emit[j][obs[t]];
      assert d[t][j] == d[t - 1][k] + m.trans[k][j] + m.emit[j][obs[t]];
      assert PathScore(m, obs, z) == d[t][j];
    } else {
      assert z == [j];
      assert PathScore(m, obs, z) == m.trans[m.start][j] + m.emit[j][obs[0]];
      assert d[0][j] == m.trans[m.start][j] + m.emit[j][obs[0]];
    }
  }

  /** Each tag of z is the backpointer T2 stores for the next one. */
  predicate FollowsBack(m: Scores, obs: seq<nat>, z: seq<nat>)
    requires Decodable(m, obs) && |z| <= |obs| && IsPath(m, z)
  {
    forall i :: 1 <= i < |z| ==> z[i - 1] == Backs(m, obs)[i][z[i]]
  }

  /** One link of a backtrace: the tag at i - 1 is the backpointer stored for the
      tag at i. */
  lemma {:induction false} TraceLink(bp: seq<seq<nat>>, P: nat, t: nat, j: nat, i: nat)
    requires BackIndices(bp, P) && t < |bp| && j < P && 1 <= i <= t
    ensures Trace(bp, P, t, j)[i - 1] == bp[i][Trace(bp, P, t, j)[i]]
  {
    var k := bp[t][j];
    var y := Trace(bp, P, t - 1, k);
    var z := Trace(bp, P, t, j);
    assert z == y + [j];
    if i < t {
      TraceLink(bp, P, t - 1, k, i);
      assert z[i - 1] == y[i - 1] && z[i] == y[i];
    }
  }

  /** The backtrace through T2 follows the backpointers. */
  lemma TraceFollowsBack(m: Scores, obs: seq<nat>, t: nat, j: nat)
    requires Decodable(m, obs) && t < |obs| && j < m.Tags()
    ensures FollowsBack(m, obs, Trace(Backs(m, obs), m.Tags(), t, j))
  {
    var bp, z := Backs(m, obs), Trace(Backs(m, obs), m.Tags(), t, j);
    forall i | 1 <= i <= t
      ensures z[i - 1] == bp[i][z[i]]
    {
      TraceLink(bp, m.Tags(), t, j, i);
    }
  }

  /** Under the recurrence, the backtrace from the first argmax of the last
      row scores that row's maximum. */
  lemma TraceAttainsMax(m: Scores, obs: seq<nat>, d: seq<seq<real>>, bp: seq<seq<nat>>)
    requires Decodable(m, obs) && Recurrence(m, obs, d, bp)
    ensures PathScore(m, obs, Trace(bp, m.Tags(), |obs| - 1, ArgMax(d[|obs| - 1]))) == Max(d[|obs| - 1])
  {
    var n := |obs| - 1;
    var j := ArgMax(d[n]);
    TraceAttains(m, obs, d, bp, n, j);
    assert Max(d[n]) == d[n][j];
  }

  /** The decoded path ends in the first argmax of the last row of T1 and
      scores exactly the maximum of that row. */
  lemma DecodedAttainsMax(m: Scores, obs: seq<nat>)
    requires Decodable(m, obs)
    ensures Decoded(m, obs)[|obs| - 1] == ArgMax(Deltas(m, obs)[|obs| - 1])
    ensures PathScore(m, obs, Decoded(m, obs)) == Max(Deltas(m, obs)[|obs| - 1])
  {
    DeltasFilled(m, obs);
    FilledRecurrence(m, obs, Deltas(m, obs), Backs(m, obs));
    TraceAttainsMax(m, obs, Deltas(m, obs), Backs(m, obs));
  }

  /** No tagging of the whole sentence scores more than the maximum of the
      last row of T1. */
  lemma PathsBoundedByMax(m: Scores, obs: seq<nat>, y: seq<nat>)
    requires Decodable(m, obs) && |y| == |obs| && IsPath(m, y)
    ensures PathScore(m, obs, y) <= Max(Deltas(m, obs)[|obs| - 1])
  {
    var d, n := Deltas(m, obs), |obs| - 1;
    DeltasFilled(m, obs);
    FilledBoundsPaths(m, obs, d, Backs(m, obs), y);
    ArgMaxIsFirstMax(d[n]);
    assert d[n][y[n]] <= d[n][ArgMax(d[n])];
  }

  /** The decoded path is a most probable tagging: no tag path for the
      sentence scores higher. */
  lemma DecodedIsBest(m: Scores, obs: seq<nat>)
    requires Decodable(m, obs)
    ensures forall y :: |y| == |obs| && IsPath(m, y) ==> PathScore(m, obs, y) <= PathScore(m, obs, Decoded(m, obs))
  {
    DecodedAttainsMax(m, obs);
    forall y | |y| == |obs| && IsPath(m, y)
      ensures PathScore(m, obs, y) <= PathScore(m, obs, Decoded(m, obs))
    {
      PathsBoundedByMax(m, obs, y);
    }
  }

  // ---------------------------------------------------------------------
  // The decoder.

  /** Fills row t of T1 and T2 from the previous row of T1 and the word w,
      leaving every other row as it was. */
  method FillRow(m: Scores, prev: seq<real>, w: nat, t1: array2<real>, t2: array2<nat>, t: nat)
    requires m.Valid() && |prev| == m.Tags() && w < m.Words()
    requires t < t1.Length0 == t2.Length0 && t1.Length1 == t2.Length1 == m.Tags()
    modifies t1, t2
    ensures forall i :: 0 <= i < m.Tags() ==> t1[t, i] == Best(m, prev, w)[i] && t2[t, i] == BestFrom(m, prev, w)[i]
    ensures forall s, i :: 0 <= s < t1.Length0 && s != t && 0 <= i < m.Tags() ==>
      t1[s, i] == old(t1[s, i]) && t2[s, i] == old(t2[s, i])
  {
    ghost var row, brow := Best(m, prev, w), BestFrom(m, prev, w);
    for j := 0 to m.Tags()
      invariant forall i :: 0 <= i < j ==> t1[t, i] == row[i] && t2[t, i] == brow[i]
      invariant forall s, i :: 0 <= s < t1.Length0 && s != t && 0 <= i < m.Tags() ==>
        t1[s, i] == old(t1[s, i]) && t2[s, i] == old(t2[s, i])
    {
      var vals := Cands(m, prev, j, w);
      var best := ArgMax(vals);
      t1[t, j] := vals[best];
      t2[t, j] := best;
    }
  }

  /** The forward pass: fills T1 and T2 row by row, starting from zero tables. */
  method Forward(m: Scores, obs: seq<nat>) returns (t1: array2<real>, t2: array2<nat>)
    requires Decodable(m, obs)
    ensures fresh(t1) && fresh(t2)
    ensures t1.Length0 == t2.Length0 == |obs| && t1.Length1 == t2.Length1 == m.Tags()
    ensures Rows(t1) == Deltas(m, obs) && Rows(t2) == Backs(m, obs)
  {
    var n, P := |obs|, m.Tags();
    t1 := new real[n, P]((_, _) => 0.0);
    t2 := new nat[n, P]((_, _) => 0);
    forall j | 0 <= j < P {
      t1[0, j] := m.trans[m.start][j] + m.emit[j][obs[0]];
    }
    ghost var d: seq<seq<real>> := [Init(m, obs[0])];
    ghost var bp: seq<seq<nat>> := [seq(P, _ => 0)];
    for t := 1 to n
      invariant |d| == t && FilledUpTo(m, obs, d, bp)
      invariant forall s, i :: 0 <= s < t && 0 <= i < P ==> t1[s, i] == d[s][i]
      invariant forall s, i :: 0 <= s < t && 0 <= i < P ==> t2[s, i] == bp[s][i]
    {
      var prev := seq(P, k requires 0 <= k < P reads t1 => t1[t - 1, k]);
      assert prev == d[t - 1];
      FillRow(m, prev, obs[t], t1, t2, t);
      FilledExtend(m, obs, d, bp);
      d, bp := d + [Best(m, prev, obs[t])], bp + [BestFrom(m, prev, obs[t])];
    }
    FilledIsViterbi(m, obs, d, bp);
    RowsAre(t1, d);
    RowsAre(t2, bp);
  }

  /** Follows the backpointers of T2 back from tag j in the last row. */
  method Backtrace(t2: array2<nat>, j: nat) returns (z: seq<nat>)
    requires t2.Length0 > 0 && BackIndices(Rows(t2), t2.Length1) && j < t2.Length1
    ensures z == Trace(Rows(t2), t2.Length1, t2.Length0 - 1, j)
  {
    var n, P := t2.Length0, t2.Length1;
    ghost var bp := Rows(t2);
    ghost var target := Trace(bp, P, n - 1, j);
    var path := new nat[n];
    path[n - 1] := j;
    var i := n - 1;
    while i > 0
      invariant 0 <= i < n
      invariant forall s :: i <= s < n ==> path[s] == target[s]
    {
      TraceLink(bp, P, n - 1, j, i);
      path[i - 1] := t2[i, path[i]];
      i := i - 1;
    }
    z := path[..];
  }

  /** Decodes one sentence of word indices: runs the forward pass, picks the
      first argmax of the last row of T1, then follows the backpointers. */
  method Decode(m: Scores, obs: seq<nat>) returns (z: seq<nat>)
    requires Decodable(m, obs)
    ensures z == Decoded(m, obs)
  {
    var t1, t2 := Forward(m, obs);
    var n, P := |obs|, m.Tags();
    var last := seq(P, k requires 0 <= k < P reads t1 => t1[n - 1, k]);
    assert last == Deltas(m, obs)[n - 1] by {
      assert last == Rows(t1)[n - 1];
    }
    var j := ArgMax(last);
    z := Backtrace(t2, j);
    assert z == Trace(Backs(m, obs), P, n - 1, j);
  }
}
