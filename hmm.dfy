/** The first-order HMM tagger: maximum-likelihood training by counting,
    the flooring of zero probabilities before taking logarithms, and
    Viterbi decoding of each sentence. */
module Hmm {
  import opened Tables
  import opened Utils
  import opened Vocab
  import opened Counting
  import opened Viterbi

  // ---------------------------------------------------------------------
  // hmm_mle: counting loops.

  /** Adds the counts of one sentence, given as tag and word indices: one
      transition per adjacent pair, one emission per position, the last
      position included. */
  method CountSentence(tc: array2<real>, ec: array2<real>, ts: seq<nat>, ws: seq<nat>)
    requires tc != ec && 0 < |ts| == |ws|
    requires forall k :: 0 <= k < |ts| ==> ts[k] < tc.Length0 && ts[k] < tc.Length1 && ts[k] < ec.Length0
    requires forall k :: 0 <= k < |ws| ==> ws[k] < ec.Length1
    modifies tc, ec
    ensures forall a, b :: 0 <= a < tc.Length0 && 0 <= b < tc.Length1 ==>
              tc[a, b] == old(tc[a, b]) + PairsIn(ts, a, b) as real
    ensures forall a, b :: 0 <= a < ec.Length0 && 0 <= b < ec.Length1 ==>
              ec[a, b] == old(ec[a, b]) + EmitsIn(ts, ws, a, b) as real
  {
    var n := |ts|;
    assert ts[..0] == [];
    assert forall a, b :: PairsIn(ts[..1], a, b) == 0;
    for i := 0 to n - 1
      invariant forall a, b :: 0 <= a < tc.Length0 && 0 <= b < tc.Length1 ==>
                  tc[a, b] == old(tc[a, b]) + PairsIn(ts[..i + 1], a, b) as real
      invariant forall a, b :: 0 <= a < ec.Length0 && 0 <= b < ec.Length1 ==>
                  ec[a, b] == old(ec[a, b]) + EmitsIn(ts[..i], ws, a, b) as real
    {
      PairsPrefix(ts, i + 2);
      EmitsPrefix(ts, ws, i + 1);
      tc[ts[i], ts[i + 1]] := tc[ts[i], ts[i + 1]] + 1.0;
      ec[ts[i], ws[i]] := ec[ts[i], ws[i]] + 1.0;
    }
    EmitsPrefix(ts, ws, n);
    ec[ts[n - 1], ws[n - 1]] := ec[ts[n - 1], ws[n - 1]] + 1.0;
    assert ts[..n] == ts;
  }

  /** One turn of the loop of hmm_mle over the training set: sentence r
      moves the counts of the first r sentences to those of the first r + 1. */
  method CountSentenceAt(data: seq<Sentence>, pos2i: map<string, nat>, word2i: map<string, nat>, P: nat, W: nat,
                         r: nat, tc: array2<real>, ec: array2<real>)
    requires Known(data, pos2i, word2i) && IndexInto(pos2i, P) && IndexInto(word2i, W) && r < |data|
    requires |data[r].tags| > 0
    requires tc != ec && tc.Length0 == tc.Length1 == P && ec.Length0 == P && ec.Length1 == W
    requires Known(data[..r], pos2i, word2i)
    requires forall a, b :: 0 <= a < P && 0 <= b < P ==> tc[a, b] == TransitionCount(data[..r], pos2i, a, b) as real
    requires forall a, b :: 0 <= a < P && 0 <= b < W ==> ec[a, b] == EmissionCount(data[..r], pos2i, word2i, a, b) as real
    modifies tc, ec
    ensures Known(data[..r + 1], pos2i, word2i)
    ensures forall a, b :: 0 <= a < P && 0 <= b < P ==> tc[a, b] == TransitionCount(data[..r + 1], pos2i, a, b) as real
    ensures forall a, b :: 0 <= a < P && 0 <= b < W ==> ec[a, b] == EmissionCount(data[..r + 1], pos2i, word2i, a, b) as real
  {
    CountsPrefix(data, pos2i, word2i, r);
    CountSentence(tc, ec, Encode(pos2i, data[r].tags), Encode(word2i, data[r].words));
  }

  /** The loop of hmm_mle over the training set: transition and emission
      counts. */
  method CountAll(data: seq<Sentence>, pos2i: map<string, nat>, word2i: map<string, nat>, P: nat, W: nat)
    returns (tc: array2<real>, ec: array2<real>)
    requires Known(data, pos2i, word2i) && IndexInto(pos2i, P) && IndexInto(word2i, W)
    requires forall i :: 0 <= i < |data| ==> |data[i].tags| > 0
    ensures fresh(tc) && fresh(ec) && tc.Length0 == tc.Length1 == P && ec.Length0 == P && ec.Length1 == W
    ensures Rows(tc) == TransitionCounts(data, pos2i, P)
    ensures Rows(ec) == EmissionCounts(data, pos2i, word2i, P, W)
  {
    tc := new real[P, P]((_, _) => 0.0);
    ec := new real[P, W]((_, _) => 0.0);
    for r := 0 to |data|
      invariant Known(data[..r], pos2i, word2i)
      invariant forall a, b :: 0 <= a < P && 0 <= b < P ==> tc[a, b] == TransitionCount(data[..r], pos2i, a, b) as real
      invariant forall a, b :: 0 <= a < P && 0 <= b < W ==> ec[a, b] == EmissionCount(data[..r], pos2i, word2i, a, b) as real
    {
      CountSentenceAt(data, pos2i, word2i, P, W, r, tc, ec);
    }
    assert Rows(tc) == TransitionCounts(data, pos2i, P) by {
      assert data[..|data|] == data;
      RowsAre(tc, TransitionCounts(data, pos2i, P));
    }
    assert Rows(ec) == EmissionCounts(data, pos2i, word2i, P, W) by {
      assert data[..|data|] == data;
      RowsAre(ec, EmissionCounts(data, pos2i, word2i, P, W));
    }
  }

  /** hmm_mle: counts transitions and emissions over the training set, then
      normalises every row. Each sentence needs a last position. */
  method HmmMle(data: seq<Sentence>, pos2i: map<string, nat>, word2i: map<string, nat>, P: nat, W: nat)
    returns (trans: array2<real>, emit: array2<real>)
    requires Known(data, pos2i, word2i) && IndexInto(pos2i, P) && IndexInto(word2i, W)
    requires forall i :: 0 <= i < |data| ==> |data[i].tags| > 0
    ensures fresh(trans) && fresh(emit) && trans != emit
    ensures trans.Length0 == trans.Length1 == P && emit.Length0 == P && emit.Length1 == W
    ensures Rows(trans) == NormalizeProb(TransitionCounts(data, pos2i, P))
    ensures Rows(emit) == NormalizeProb(EmissionCounts(data, pos2i, word2i, P, W))
  {
    var tc, ec := CountAll(data, pos2i, word2i, P, W);
    NormalizeProbLaws(Rows(tc));
    NormalizeProbLaws(Rows(ec));
    trans := FromRows(NormalizeProb(Rows(tc)), P);
    emit := FromRows(NormalizeProb(Rows(ec)), W);
  }

  // ---------------------------------------------------------------------
  // Flooring zero probabilities.

  /** The smaller of two candidates for the least positive value, where 0
      stands for "no positive value seen". */
  function Lesser(x: real, y: real): real
  {
    if x <= 0.0 then y else if y <= 0.0 || x <= y then x else y
  }

  /** The least positive entry of a vector, or 0 when it has none. */
  function LeastPositiveIn(v: seq<real>): (r: real)
    ensures 0.0 <= r
    ensures r > 0.0 <==> exists k :: 0 <= k < |v| && v[k] > 0.0
    ensures r > 0.0 ==> (exists k :: 0 <= k < |v| && v[k] == r) && forall k :: 0 <= k < |v| && v[k] > 0.0 ==> r <= v[k]
  {
    if v == [] then 0.0
    else
      var n := |v| - 1;
      var r := Lesser(LeastPositiveIn(v[..n]), if v[n] > 0.0 then v[n] else 0.0);
      assert forall k :: 0 <= k < n ==> v[..n][k] == v[k];
      r
  }

  /** Some entry of the table is positive. */
  predicate HasPositive(t: seq<seq<real>>)
  {
    exists i, j :: 0 <= i < |t| && 0 <= j < |t[i]| && t[i][j] > 0.0
  }

  /** `np.min(prob[prob > 0])`: the least positive entry of a table, or 0
      when it has none (where numpy raises). */
  function LeastPositive(t: seq<seq<real>>): (r: real)
    ensures 0.0 <= r
    ensures r > 0.0 <==> HasPositive(t)
    ensures r > 0.0 ==>
              && (exists i, j :: 0 <= i < |t| && 0 <= j < |t[i]| && t[i][j] == r)
              && forall i, j :: 0 <= i < |t| && 0 <= j < |t[i]| && t[i][j] > 0.0 ==> r <= t[i][j]
  {
    if t == [] then 0.0
    else
      var n := |t| - 1;
      var r := Lesser(LeastPositive(t[..n]), LeastPositiveIn(t[n]));
      assert forall i :: 0 <= i < n ==> t[..n][i] == t[i];
      r
  }

  /** `prob[prob == 0] = v`: every zero entry replaced by v. */
  function Floored(t: seq<seq<real>>, v: real): (f: seq<seq<real>>)
    ensures |f| == |t| && forall i :: 0 <= i < |t| ==> |f[i]| == |t[i]|
    ensures forall i, j :: 0 <= i < |t| && 0 <= j < |t[i]| && t[i][j] != 0.0 ==> f[i][j] == t[i][j]
    ensures v != 0.0 ==> forall i, j :: 0 <= i < |t| && 0 <= j < |t[i]| ==> f[i][j] != 0.0
  {
    seq(|t|, i requires 0 <= i < |t| => seq(|t[i]|, j requires 0 <= j < |t[i]| => if t[i][j] == 0.0 then v else t[i][j]))
  }

  /** The table viterbi uses: zeros floored to half the least positive entry. */
  function FlooredHalf(t: seq<seq<real>>): (f: seq<seq<real>>)
    ensures |f| == |t| && forall i :: 0 <= i < |t| ==> |f[i]| == |t[i]|
  {
    Floored(t, LeastPositive(t) / 2.0)
  }

  /** Flooring keeps the shape and every non-zero entry, and replaces each zero
      by a positive value below every positive entry, so no zero is left. */
  lemma FlooringLaws(t: seq<seq<real>>)
    requires HasPositive(t)
    ensures var f := FlooredHalf(t);
      && |f| == |t| && (forall i :: 0 <= i < |t| ==> |f[i]| == |t[i]|)
      && (forall i, j :: 0 <= i < |t| && 0 <= j < |t[i]| ==> f[i][j] != 0.0)
      && (forall i, j :: 0 <= i < |t| && 0 <= j < |t[i]| && t[i][j] != 0.0 ==> f[i][j] == t[i][j])
      && (forall i, j, i', j' ::
            0 <= i < |t| && 0 <= j < |t[i]| && t[i][j] == 0.0 && 0 <= i' < |t| && 0 <= j' < |t[i']| && t[i'][j'] > 0.0
            ==> 0.0 < f[i][j] < t[i'][j'])
  {
  }

  /** Flooring an already floored table changes nothing: viterbi called a
      second time leaves the model's tables as the first call left them. */
  lemma FlooringIdempotent(t: seq<seq<real>>)
    requires HasPositive(t)
    ensures HasPositive(FlooredHalf(t))
    ensures FlooredHalf(FlooredHalf(t)) == FlooredHalf(t)
  {
    var f := FlooredHalf(t);
    FlooringLaws(t);
    var i, j :| 0 <= i < |t| && 0 <= j < |t[i]| && t[i][j] > 0.0;
    assert f[i][j] > 0.0;
    FlooringWithoutZeros(f);
  }

  /** A table without zero entries is left as it is by flooring. */
  lemma FlooringWithoutZeros(t: seq<seq<real>>)
    requires forall i, j :: 0 <= i < |t| && 0 <= j < |t[i]| ==> t[i][j] != 0.0
    ensures FlooredHalf(t) == t
  {
    var f := FlooredHalf(t);
    assert forall i :: 0 <= i < |t| ==> f[i] == t[i];
  }

  /** Floors the zero entries of a table in place. */
  method FloorZeros(a: array2<real>)
    requires HasPositive(Rows(a))
    modifies a
    ensures Rows(a) == FlooredHalf(old(Rows(a)))
  {
    var t := Rows(a);
    var half := LeastPositive(t) / 2.0;
    ghost var f := FlooredHalf(t);
    forall i, j | 0 <= i < a.Length0 && 0 <= j < a.Length1 {
      a[i, j] := if a[i, j] == 0.0 then half else a[i, j];
    }
    assert forall i, j :: 0 <= i < a.Length0 && 0 <= j < a.Length1 ==> a[i, j] == f[i][j] by {
      assert forall i, j :: 0 <= i < a.Length0 && 0 <= j < a.Length1 ==> t[i][j] == old(a[i, j]);
    }
    RowsAre(a, f);
    assert t == old(Rows(a));
  }

  // ---------------------------------------------------------------------
  // The model.

  /** `np.log` applied to every entry; the logarithm itself is a parameter. */
  function LogTable(ln: real -> real, t: seq<seq<real>>): (r: seq<seq<real>>)
    ensures |r| == |t| && forall i :: 0 <= i < |t| ==> |r[i]| == |t[i]|
  {
    seq(|t|, i requires 0 <= i < |t| => seq(|t[i]|, j requires 0 <= j < |t[i]| => ln(t[i][j])))
  }

  /** The tags a path of tag indices names. */
  function Names(tags: seq<string>, z: seq<nat>): (x: seq<string>)
    requires forall i :: 0 <= i < |z| ==> z[i] < |tags|
    ensures |x| == |z| && forall i :: 0 <= i < |z| ==> x[i] == tags[z[i]]
  {
    seq(|z|, i requires 0 <= i < |z| => tags[z[i]])
  }

  /** The score tables viterbi decodes with: logarithms of the stored tables,
      starting from the start state's row. */
  function ScoresOf(ln: real -> real, trans: seq<seq<real>>, emit: seq<seq<real>>, pos2i: map<string, nat>): Scores
    requires StartState in pos2i
  {
    Scores(LogTable(ln, trans), LogTable(ln, emit), pos2i[StartState])
  }

  /** A non-empty sentence whose every word has an index below W. */
  predicate Readable(s: seq<string>, word2i: map<string, nat>, W: nat)
  {
    |s| > 0 && forall k :: 0 <= k < |s| ==> s[k] in word2i && word2i[s[k]] < W
  }

  /** The tag names viterbi returns for one sentence. */
  function Tagging(m: Scores, tags: seq<string>, word2i: map<string, nat>, s: seq<string>): (x: seq<string>)
    requires m.Valid() && m.Tags() == |tags| && Readable(s, word2i, m.Words())
    ensures |x| == |s|
  {
    Names(tags, Decoded(m, Encode(word2i, s)))
  }

  /** The loop over sentences: decodes each one and names its tags. */
  method TagSentences(m: Scores, tags: seq<string>, word2i: map<string, nat>, sentences: seq<seq<string>>)
    returns (result: seq<seq<string>>)
    requires m.Valid() && m.Tags() == |tags|
    requires forall i :: 0 <= i < |sentences| ==> Readable(sentences[i], word2i, m.Words())
    ensures |result| == |sentences|
    ensures forall i :: 0 <= i < |sentences| ==> result[i] == Tagging(m, tags, word2i, sentences[i])
  {
    result := [];
    for i := 0 to |sentences|
      invariant |result| == i
      invariant forall s :: 0 <= s < i ==> result[s] == Tagging(m, tags, word2i, sentences[s])
    {
      var obs := Encode(word2i, sentences[i]);
      assert Decodable(m, obs);
      var z := Decode(m, obs);
      assert Names(tags, z) == Tagging(m, tags, word2i, sentences[i]);
      result := result + [Names(tags, z)];
    }
  }

  /** The score tables of P tags and W words built from stored tables of
      those shapes. */
  lemma ScoresShape(ln: real -> real, trans: seq<seq<real>>, emit: seq<seq<real>>, pos2i: map<string, nat>, P: nat, W: nat)
    requires StartState in pos2i && pos2i[StartState] < P
    requires |trans| == P && forall i :: 0 <= i < P ==> |trans[i]| == P
    requires |emit| == P && forall i :: 0 <= i < P ==> |emit[i]| == W
    ensures var m := ScoresOf(ln, trans, emit, pos2i); m.Valid() && m.Tags() == P && m.Words() == W
  {
  }

  class HMM {
    const tags: seq<string>
    const words: seq<string>
    const pos2i: map<string, nat>
    const word2i: map<string, nat>
    var transition: array2<real>
    var emission: array2<real>

    /** Index maps built from the label lists, and tables shaped by them. */
    predicate Valid()
      reads this, transition, emission
    {
      && pos2i == IndexOf(tags) && word2i == IndexOf(words)
      && transition != emission
      && transition.Length0 == transition.Length1 == |tags|
      && emission.Length0 == |tags| && emission.Length1 == |words|
    }

    /** Builds the index maps and trains both tables by hmm_mle. */
    constructor (tags: seq<string>, words: seq<string>, data: seq<Sentence>)
      requires Known(data, IndexOf(tags), IndexOf(words))
      requires forall i :: 0 <= i < |data| ==> |data[i].tags| > 0
      ensures Valid() && fresh(transition) && fresh(emission)
      ensures this.tags == tags && this.words == words
      ensures Rows(transition) == NormalizeProb(TransitionCounts(data, pos2i, |tags|))
      ensures Rows(emission) == NormalizeProb(EmissionCounts(data, pos2i, word2i, |tags|, |words|))
    {
      this.tags := tags;
      this.words := words;
      pos2i := IndexOf(tags);
      word2i := IndexOf(words);
      new;
      transition, emission := HmmMle(data, pos2i, word2i, |tags|, |words|);
    }

    /** viterbi: floors both stored tables in place, takes their logarithms,
        and decodes every sentence into tag names. */
    method Viterbi(sentences: seq<seq<string>>, ln: real -> real) returns (result: seq<seq<string>>)
      requires Valid() && StartState in pos2i
      requires HasPositive(Rows(transition)) && HasPositive(Rows(emission))
      requires forall i :: 0 <= i < |sentences| ==> Readable(sentences[i], word2i, |words|)
      modifies transition, emission
      ensures Valid()
      ensures Rows(transition) == FlooredHalf(old(Rows(transition)))
      ensures Rows(emission) == FlooredHalf(old(Rows(emission)))
      ensures var m := ScoresOf(ln, Rows(transition), Rows(emission), pos2i);
        && m.Valid() && m.Tags() == |tags| && m.Words() == |words|
        && |result| == |sentences|
        && forall i :: 0 <= i < |sentences| ==> result[i] == Tagging(m, tags, word2i, sentences[i])
    {
      FloorZeros(transition);
      FloorZeros(emission);
      ScoresShape(ln, Rows(transition), Rows(emission), pos2i, |tags|, |words|);
      result := TagSentences(ScoresOf(ln, Rows(transition), Rows(emission), pos2i), tags, word2i, sentences);
    }
  }

  /** A duplicate-free tag list makes pos2i invert indexing, so the decoded
      names pick out exactly the decoded tag indices. */
  lemma NamesInvert(tags: seq<string>, z: seq<nat>)
    requires Distinct(tags) && forall i :: 0 <= i < |z| ==> z[i] < |tags|
    ensures Encode(IndexOf(tags), Names(tags, z)) == z
  {
    IndexOfInverts(tags);
  }
}
