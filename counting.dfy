/** What the maximum-likelihood estimators count, defined independently of
    the counting loops: occurrences of a tag, of a tag emitting a word, and of
    one tag following another inside a sentence. Tags and words are first
    mapped to their indices through the models' label maps. */
module Counting {
  import opened Tables
  import opened Utils
  import opened Vocab

  /** Every tag of the training data has an index. */
  predicate TagsKnown(data: seq<Sentence>, pos2i: map<string, nat>)
  {
    forall i, k :: 0 <= i < |data| && 0 <= k < |data[i].tags| ==> data[i].tags[k] in pos2i
  }

  /** Every row is aligned (as many words as tags) and every tag and word has an index. */
  predicate Known(data: seq<Sentence>, pos2i: map<string, nat>, word2i: map<string, nat>)
  {
    && TagsKnown(data, pos2i)
    && forall i :: 0 <= i < |data| ==>
         && |data[i].words| == |data[i].tags|
         && forall k :: 0 <= k < |data[i].words| ==> data[i].words[k] in word2i
  }

  /** The label lookups `pos2i[x]` / `word2i[x]` along a list. */
  function Encode(m: map<string, nat>, xs: seq<string>): (r: seq<nat>)
    requires forall k :: 0 <= k < |xs| ==> xs[k] in m
    ensures |r| == |xs| && forall k :: 0 <= k < |xs| ==> r[k] == m[xs[k]]
  {
    seq(|xs|, k requires 0 <= k < |xs| => m[xs[k]])
  }

  // ---------------------------------------------------------------------
  // Counts inside one sentence, given as index sequences.

  /** Positions holding tag a. */
  function TagsIn(ts: seq<nat>, a: int): nat
  {
    if ts == [] then 0
    else TagsIn(ts[..|ts| - 1], a) + (if ts[|ts| - 1] == a then 1 else 0)
  }

  /** Positions holding tag a that are not the last position. */
  function SourcesIn(ts: seq<nat>, a: int): nat
  {
    if ts == [] then 0 else TagsIn(ts[..|ts| - 1], a)
  }

  /** Adjacent positions (i, i + 1) holding tags a and b. */
  function PairsIn(ts: seq<nat>, a: int, b: int): nat
  {
    if |ts| < 2 then 0
    else PairsIn(ts[..|ts| - 1], a, b) + (if ts[|ts| - 2] == a && ts[|ts| - 1] == b then 1 else 0)
  }

  /** Positions holding tag a and word b. */
  function EmitsIn(ts: seq<nat>, ws: seq<nat>, a: int, b: int): nat
    requires |ts| <= |ws|
  {
    if ts == [] then 0
    else EmitsIn(ts[..|ts| - 1], ws, a, b) + (if ts[|ts| - 1] == a && ws[|ts| - 1] == b then 1 else 0)
  }

  // ---------------------------------------------------------------------
  // Counts over a training set.

  /** Positions, over all sentences, whose tag has index a. */
  function TagCount(data: seq<Sentence>, pos2i: map<string, nat>, a: int): nat
    requires TagsKnown(data, pos2i)
  {
    if data == [] then 0
    else TagCount(data[..|data| - 1], pos2i, a) + TagsIn(Encode(pos2i, data[|data| - 1].tags), a)
  }

  /** Non-final positions, over all sentences, whose tag has index a. */
  function SourceCount(data: seq<Sentence>, pos2i: map<string, nat>, a: int): nat
    requires TagsKnown(data, pos2i)
  {
    if data == [] then 0
    else SourceCount(data[..|data| - 1], pos2i, a) + SourcesIn(Encode(pos2i, data[|data| - 1].tags), a)
  }

  /** Adjacent pairs inside one sentence whose tags have indices a and b. */
  function TransitionCount(data: seq<Sentence>, pos2i: map<string, nat>, a: int, b: int): nat
    requires TagsKnown(data, pos2i)
  {
    if data == [] then 0
    else TransitionCount(data[..|data| - 1], pos2i, a, b) + PairsIn(Encode(pos2i, data[|data| - 1].tags), a, b)
  }

  /** Positions whose tag has index a and whose word has index b. */
  function EmissionCount(data: seq<Sentence>, pos2i: map<string, nat>, word2i: map<string, nat>, a: int, b: int): nat
    requires Known(data, pos2i, word2i)
  {
    if data == [] then 0
    else
      var s := data[|data| - 1];
      EmissionCount(data[..|data| - 1], pos2i, word2i, a, b) + EmitsIn(Encode(pos2i, s.tags), Encode(word2i, s.words), a, b)
  }

  /** Number of positions of all sentences together. */
  function Positions(data: seq<Sentence>): nat
  {
    if data == [] then 0 else Positions(data[..|data| - 1]) + |data[|data| - 1].tags|
  }

  /** Data with a position has a tag, and a tag with an index comes from a
      non-empty tag list. */
  lemma {:induction false} SomeTagIndexed(data: seq<Sentence>, tags: seq<string>)
    requires TagsKnown(data, IndexOf(tags)) && Positions(data) > 0
    ensures |tags| > 0
  {
    var n := |data| - 1;
    if |data[n].tags| > 0 {
      assert data[n].tags[0] in IndexOf(tags);
    } else {
      assert TagsKnown(data[..n], IndexOf(tags)) by {
        forall i, k | 0 <= i < n && 0 <= k < |data[..n][i].tags|
          ensures data[..n][i].tags[k] in IndexOf(tags)
        {
          assert data[..n][i] == data[i];
        }
      }
      SomeTagIndexed(data[..n], tags);
    }
  }

  /** The P x P matrix of transition counts. */
  function TransitionCounts(data: seq<Sentence>, pos2i: map<string, nat>, P: nat): seq<seq<real>>
    requires TagsKnown(data, pos2i)
  {
    seq(P, a => seq(P, b => TransitionCount(data, pos2i, a, b) as real))
  }

  /** The P x W matrix of emission counts. */
  function EmissionCounts(data: seq<Sentence>, pos2i: map<string, nat>, word2i: map<string, nat>, P: nat, W: nat): seq<seq<real>>
    requires Known(data, pos2i, word2i)
  {
    seq(P, a => seq(W, b => EmissionCount(data, pos2i, word2i, a, b) as real))
  }

  /** The vector of tag counts. */
  function TagCounts(data: seq<Sentence>, pos2i: map<string, nat>, P: nat): seq<real>
    requires TagsKnown(data, pos2i)
  {
    seq(P, a => TagCount(data, pos2i, a) as real)
  }

  /** The estimate x / y, taken as 0 when nothing was counted (y = 0). */
  function Ratio(x: nat, y: nat): real
  {
    if y == 0 then 0.0 else x as real / y as real
  }

  // ---------------------------------------------------------------------
  // Counting one more position or one more sentence.

  /** Position k - 1 adds its tag to the tag counts of the first k positions. */
  lemma TagsPrefix(ts: seq<nat>, k: nat)
    requires 1 <= k <= |ts|
    ensures forall a :: TagsIn(ts[..k], a) == TagsIn(ts[..k - 1], a) + (if ts[k - 1] == a then 1 else 0)
  {
    assert ts[..k][..k - 1] == ts[..k - 1];
  }

  /** Position k - 1 adds its (tag, word) pair to the emission counts of the
      first k positions. */
  lemma EmitsPrefix(ts: seq<nat>, ws: seq<nat>, k: nat)
    requires 1 <= k <= |ts| <= |ws|
    ensures forall a, b ::
              EmitsIn(ts[..k], ws, a, b) ==
              EmitsIn(ts[..k - 1], ws, a, b) + (if ts[k - 1] == a && ws[k - 1] == b then 1 else 0)
  {
    assert ts[..k][..k - 1] == ts[..k - 1];
  }

  /** Positions k - 2 and k - 1 add their pair to the transition counts of
      the first k positions. */
  lemma PairsPrefix(ts: seq<nat>, k: nat)
    requires 2 <= k <= |ts|
    ensures forall a, b ::
              PairsIn(ts[..k], a, b) ==
              PairsIn(ts[..k - 1], a, b) + (if ts[k - 2] == a && ts[k - 1] == b then 1 else 0)
  {
    assert ts[..k][..k - 1] == ts[..k - 1];
  }

  /** What the first r + 1 sentences count is what the first r count plus the
      counts inside sentence r. */
  lemma CountsPrefix(data: seq<Sentence>, pos2i: map<string, nat>, word2i: map<string, nat>, r: nat)
    requires Known(data, pos2i, word2i) && r < |data|
    ensures Known(data[..r], pos2i, word2i) && Known(data[..r + 1], pos2i, word2i)
    ensures var ts, ws := Encode(pos2i, data[r].tags), Encode(word2i, data[r].words);
      && (forall a :: TagCount(data[..r + 1], pos2i, a) == TagCount(data[..r], pos2i, a) + TagsIn(ts, a))
      && (forall a, b :: TransitionCount(data[..r + 1], pos2i, a, b) ==
            TransitionCount(data[..r], pos2i, a, b) + PairsIn(ts, a, b))
      && (forall a, b :: EmissionCount(data[..r + 1], pos2i, word2i, a, b) ==
            EmissionCount(data[..r], pos2i, word2i, a, b) + EmitsIn(ts, ws, a, b))
  {
    assert data[..r + 1][..r] == data[..r];
  }

  // ---------------------------------------------------------------------
  // Double counting: every position adds one to exactly one entry of a row.

  /** Adding 1 at position d (when `on`) adds 1 to the sum. */
  lemma SumStep(u: seq<real>, v: seq<real>, d: nat, on: bool)
    requires |u| == |v| && d < |u|
    requires forall b :: 0 <= b < |v| ==> v[b] == u[b] + (if on && b == d then 1.0 else 0.0)
    ensures Sum(v) == Sum(u) + (if on then 1.0 else 0.0)
  {
    var e := seq(|u|, b => if on && b == d then 1.0 else 0.0);
    SumPointwise(u, e, v);
    if on {
      SumOfIndicator(e, d);
    } else {
      SumOfZeros(e);
    }
  }

  lemma {:induction false} TagsRowTotal(ts: seq<nat>, P: nat)
    requires forall k :: 0 <= k < |ts| ==> ts[k] < P
    ensures Sum(seq(P, a => TagsIn(ts, a) as real)) == |ts| as real
  {
    var v := seq(P, a => TagsIn(ts, a) as real);
    if ts == [] {
      SumOfZeros(v);
    } else {
      var n := |ts| - 1;
      TagsRowTotal(ts[..n], P);
      var u := seq(P, a => TagsIn(ts[..n], a) as real);
      SumStep(u, v, ts[n], true);
    }
  }

  lemma {:induction false} EmitsRowTotal(ts: seq<nat>, ws: seq<nat>, a: int, W: nat)
    requires |ts| <= |ws|
    requires forall k :: 0 <= k < |ts| ==> ws[k] < W
    ensures Sum(seq(W, b => EmitsIn(ts, ws, a, b) as real)) == TagsIn(ts, a) as real
  {
    var v := seq(W, b => EmitsIn(ts, ws, a, b) as real);
    if ts == [] {
      SumOfZeros(v);
    } else {
      var n := |ts| - 1;
      EmitsRowTotal(ts[..n], ws, a, W);
      var u := seq(W, b => EmitsIn(ts[..n], ws, a, b) as real);
      SumStep(u, v, ws[n], ts[n] == a);
    }
  }

  lemma {:induction false} PairsRowTotal(ts: seq<nat>, a: int, P: nat)
    requires forall k :: 0 <= k < |ts| ==> ts[k] < P
    ensures Sum(seq(P, b => PairsIn(ts, a, b) as real)) == SourcesIn(ts, a) as real
  {
    var v := seq(P, b => PairsIn(ts, a, b) as real);
    if |ts| < 2 {
      SumOfZeros(v);
    } else {
      var n := |ts| - 1;
      PairsRowTotal(ts[..n], a, P);
      var u := seq(P, b => PairsIn(ts[..n], a, b) as real);
      assert ts[..n][..n - 1] == ts[..n - 1];
      SumStep(u, v, ts[n], ts[n - 1] == a);
    }
  }

  // ---------------------------------------------------------------------
  // Row totals of the count tables.

  /** Emission row a of the counts sums to the number of positions tagged a. */
  lemma {:induction false} EmissionRowTotal(data: seq<Sentence>, pos2i: map<string, nat>, word2i: map<string, nat>, W: nat, a: int)
    requires Known(data, pos2i, word2i) && IndexInto(word2i, W)
    ensures Sum(seq(W, b => EmissionCount(data, pos2i, word2i, a, b) as real)) == TagCount(data, pos2i, a) as real
  {
    var v := seq(W, b => EmissionCount(data, pos2i, word2i, a, b) as real);
    if data == [] {
      SumOfZeros(v);
    } else {
      var n := |data| - 1;
      var s := data[n];
      var ts, ws := Encode(pos2i, s.tags), Encode(word2i, s.words);
      EmissionRowTotal(data[..n], pos2i, word2i, W, a);
      EmitsRowTotal(ts, ws, a, W);
      var u := seq(W, b => EmissionCount(data[..n], pos2i, word2i, a, b) as real);
      var e := seq(W, b => EmitsIn(ts, ws, a, b) as real);
      SumPointwise(u, e, v);
    }
  }

  /** Transition row a of the counts sums to the number of non-final positions tagged a. */
  lemma {:induction false} TransitionRowTotal(data: seq<Sentence>, pos2i: map<string, nat>, P: nat, a: int)
    requires TagsKnown(data, pos2i) && IndexInto(pos2i, P)
    ensures Sum(seq(P, b => TransitionCount(data, pos2i, a, b) as real)) == SourceCount(data, pos2i, a) as real
  {
    var v := seq(P, b => TransitionCount(data, pos2i, a, b) as real);
    if data == [] {
      SumOfZeros(v);
    } else {
      var n := |data| - 1;
      var ts := Encode(pos2i, data[n].tags);
      TransitionRowTotal(data[..n], pos2i, P, a);
      PairsRowTotal(ts, a, P);
      var u := seq(P, b => TransitionCount(data[..n], pos2i, a, b) as real);
      var e := seq(P, b => PairsIn(ts, a, b) as real);
      SumPointwise(u, e, v);
    }
  }

  /** The tag counts add up to the number of positions: every position,
      sentinels included, is counted once. */
  lemma {:induction false} TagCountTotal(data: seq<Sentence>, pos2i: map<string, nat>, P: nat)
    requires TagsKnown(data, pos2i) && IndexInto(pos2i, P)
    ensures Sum(TagCounts(data, pos2i, P)) == Positions(data) as real
  {
    var v := TagCounts(data, pos2i, P);
    if data == [] {
      SumOfZeros(v);
    } else {
      var n := |data| - 1;
      var ts := Encode(pos2i, data[n].tags);
      TagCountTotal(data[..n], pos2i, P);
      TagsRowTotal(ts, P);
      var e := seq(P, a => TagsIn(ts, a) as real);
      SumPointwise(TagCounts(data[..n], pos2i, P), e, v);
    }
  }

  /** The source counts add up to the number of transitions: a sentence of
      length L contributes L - 1, none crossing into the next sentence. */
  lemma {:induction false} SourceCountTotal(data: seq<Sentence>, pos2i: map<string, nat>, P: nat)
    requires TagsKnown(data, pos2i) && IndexInto(pos2i, P)
    requires forall i :: 0 <= i < |data| ==> |data[i].tags| > 0
    ensures Sum(seq(P, a => SourceCount(data, pos2i, a) as real)) == (Positions(data) - |data|) as real
  {
    var v := seq(P, a => SourceCount(data, pos2i, a) as real);
    if data == [] {
      SumOfZeros(v);
    } else {
      var n := |data| - 1;
      var ts := Encode(pos2i, data[n].tags);
      SourceCountTotal(data[..n], pos2i, P);
      TagsRowTotal(ts[..|ts| - 1], P);
      var u := seq(P, a => SourceCount(data[..n], pos2i, a) as real);
      var e := seq(P, a => SourcesIn(ts, a) as real);
      assert e == seq(P, a => TagsIn(ts[..|ts| - 1], a) as real);
      SumPointwise(u, e, v);
    }
  }

  // ---------------------------------------------------------------------
  // The normalised tables are the maximum-likelihood estimates.

  /** After normalize_prob, emission entry (a, b) is the fraction of positions
      tagged a that hold word b; a row sums to 1 exactly when its tag occurs,
      and is all zero otherwise; every entry lies in [0, 1]. */
  lemma EmissionTableIsMle(data: seq<Sentence>, pos2i: map<string, nat>, word2i: map<string, nat>, P: nat, W: nat)
    requires Known(data, pos2i, word2i) && IndexInto(word2i, W)
    ensures var t := NormalizeProb(EmissionCounts(data, pos2i, word2i, P, W));
      && |t| == P
      && (forall a :: 0 <= a < P ==> |t[a]| == W)
      && (forall a, b :: 0 <= a < P && 0 <= b < W ==>
            t[a][b] == Ratio(EmissionCount(data, pos2i, word2i, a, b), TagCount(data, pos2i, a)) &&
            0.0 <= t[a][b] <= 1.0)
      && (forall a :: 0 <= a < P && TagCount(data, pos2i, a) > 0 ==> Sum(t[a]) == 1.0)
  {
    var c := EmissionCounts(data, pos2i, word2i, P, W);
    NormalizeProbLaws(c);
    forall a | 0 <= a < P
      ensures Sum(c[a]) == TagCount(data, pos2i, a) as real && NonNegative(c[a])
    {
      EmissionRowTotal(data, pos2i, word2i, W, a);
    }
  }

  /** After normalize_prob, transition entry (a, b) is the fraction of
      non-final positions tagged a that are followed by b; a row sums to 1
      exactly when a occurs before the end of some sentence, and is all zero
      otherwise; every entry lies in [0, 1]. */
  lemma TransitionTableIsMle(data: seq<Sentence>, pos2i: map<string, nat>, P: nat)
    requires TagsKnown(data, pos2i) && IndexInto(pos2i, P)
    ensures var t := NormalizeProb(TransitionCounts(data, pos2i, P));
      && |t| == P
      && (forall a :: 0 <= a < P ==> |t[a]| == P)
      && (forall a, b :: 0 <= a < P && 0 <= b < P ==>
            t[a][b] == Ratio(TransitionCount(data, pos2i, a, b), SourceCount(data, pos2i, a)) &&
            0.0 <= t[a][b] <= 1.0)
      && (forall a :: 0 <= a < P && SourceCount(data, pos2i, a) > 0 ==> Sum(t[a]) == 1.0)
  {
    var c := TransitionCounts(data, pos2i, P);
    NormalizeProbLaws(c);
    forall a | 0 <= a < P
      ensures Sum(c[a]) == SourceCount(data, pos2i, a) as real && NonNegative(c[a])
    {
      TransitionRowTotal(data, pos2i, P, a);
    }
  }
}
