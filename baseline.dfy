/** The baseline tagger: a multinomial over tags and an emission table, both
    estimated by counting, and a decoder that tags every word on its own. */
module Baseline {
  import opened Tables
  import opened Utils
  import opened Vocab
  import opened Counting

  // ---------------------------------------------------------------------
  // baseline_mle.

  /** Adds the counts of one sentence, given as tag and word indices: each
      position adds one to its tag and one to its (tag, word) pair. */
  method CountTags(mc: array<real>, ec: array2<real>, ts: seq<nat>, ws: seq<nat>)
    requires |ts| == |ws|
    requires forall k :: 0 <= k < |ts| ==> ts[k] < mc.Length && ts[k] < ec.Length0 && ws[k] < ec.Length1
    modifies mc, ec
    ensures forall a :: 0 <= a < mc.Length ==> mc[a] == old(mc[a]) + TagsIn(ts, a) as real
    ensures forall a, b :: 0 <= a < ec.Length0 && 0 <= b < ec.Length1 ==>
              ec[a, b] == old(ec[a, b]) + EmitsIn(ts, ws, a, b) as real
  {
    assert ts[..0] == [];
    for i := 0 to |ts|
      invariant forall a :: 0 <= a < mc.Length ==> mc[a] == old(mc[a]) + TagsIn(ts[..i], a) as real
      invariant forall a, b :: 0 <= a < ec.Length0 && 0 <= b < ec.Length1 ==>
                  ec[a, b] == old(ec[a, b]) + EmitsIn(ts[..i], ws, a, b) as real
    {
      TagsPrefix(ts, i + 1);
      EmitsPrefix(ts, ws, i + 1);
      ec[ts[i], ws[i]] := ec[ts[i], ws[i]] + 1.0;
      mc[ts[i]] := mc[ts[i]] + 1.0;
    }
    assert ts[..|ts|] == ts;
  }

  /** The loops of baseline_mle: tag counts and emission counts over the
      training set. */
  method CountAll(data: seq<Sentence>, pos2i: map<string, nat>, word2i: map<string, nat>, P: nat, W: nat)
    returns (mc: array<real>, ec: array2<real>)
    requires Known(data, pos2i, word2i) && IndexInto(pos2i, P) && IndexInto(word2i, W)
    ensures fresh(mc) && fresh(ec) && ec.Length0 == P && ec.Length1 == W
    ensures mc[..] == TagCounts(data, pos2i, P)
    ensures Rows(ec) == EmissionCounts(data, pos2i, word2i, P, W)
  {
    mc := new real[P](_ => 0.0);
    ec := new real[P, W]((_, _) => 0.0);
    for r := 0 to |data|
      invariant Known(data[..r], pos2i, word2i)
      invariant forall a :: 0 <= a < P ==> mc[a] == TagCount(data[..r], pos2i, a) as real
      invariant forall a, b :: 0 <= a < P && 0 <= b < W ==> ec[a, b] == EmissionCount(data[..r], pos2i, word2i, a, b) as real
    {
      CountSentenceAt(data, pos2i, word2i, P, W, r, mc, ec);
    }
    assert mc[..] == TagCounts(data, pos2i, P) by {
      assert data[..|data|] == data;
    }
    assert Rows(ec) == EmissionCounts(data, pos2i, word2i, P, W) by {
      assert data[..|data|] == data;
      RowsAre(ec, EmissionCounts(data, pos2i, word2i, P, W));
    }
  }

  /** One turn of that loop: sentence r moves the counts of the first r
      sentences to those of the first r + 1. */
  method CountSentenceAt(data: seq<Sentence>, pos2i: map<string, nat>, word2i: map<string, nat>, P: nat, W: nat,
                         r: nat, mc: array<real>, ec: array2<real>)
    requires Known(data, pos2i, word2i) && IndexInto(pos2i, P) && IndexInto(word2i, W) && r < |data|
    requires mc.Length == P && ec.Length0 == P && ec.Length1 == W
    requires Known(data[..r], pos2i, word2i)
    requires forall a :: 0 <= a < P ==> mc[a] == TagCount(data[..r], pos2i, a) as real
    requires forall a, b :: 0 <= a < P && 0 <= b < W ==> ec[a, b] == EmissionCount(data[..r], pos2i, word2i, a, b) as real
    modifies mc, ec
    ensures Known(data[..r + 1], pos2i, word2i)
    ensures forall a :: 0 <= a < P ==> mc[a] == TagCount(data[..r + 1], pos2i, a) as real
    ensures forall a, b :: 0 <= a < P && 0 <= b < W ==> ec[a, b] == EmissionCount(data[..r + 1], pos2i, word2i, a, b) as real
  {
    CountsPrefix(data, pos2i, word2i, r);
    CountTags(mc, ec, Encode(pos2i, data[r].tags), Encode(word2i, data[r].words));
  }

  /** baseline_mle: divides the tag counts by their total and row-normalises
      the emission counts. The total must be positive (numpy would produce
      NaN). */
  method BaselineMle(data: seq<Sentence>, pos2i: map<string, nat>, word2i: map<string, nat>, P: nat, W: nat)
    returns (multinomial: array<real>, emit: array2<real>)
    requires Known(data, pos2i, word2i) && IndexInto(pos2i, P) && IndexInto(word2i, W)
    requires Positions(data) > 0
    ensures fresh(multinomial) && fresh(emit)
    ensures multinomial.Length == P && emit.Length0 == P && emit.Length1 == W
    ensures multinomial[..] == Multinomial(data, pos2i, P)
    ensures Rows(emit) == NormalizeProb(EmissionCounts(data, pos2i, word2i, P, W))
  {
    var mc, ec := CountAll(data, pos2i, word2i, P, W);
    var counts := mc[..];
    TagCountTotal(data, pos2i, P);
    var total := Sum(counts);
    multinomial := new real[P](a requires 0 <= a < P => counts[a] / total);
    assert multinomial[..] == Multinomial(data, pos2i, P);
    NormalizeProbLaws(Rows(ec));
    emit := FromRows(NormalizeProb(Rows(ec)), W);
  }

  /** The estimated tag distribution: the share of all positions that carry
      each tag. */
  function Multinomial(data: seq<Sentence>, pos2i: map<string, nat>, P: nat): (v: seq<real>)
    requires TagsKnown(data, pos2i)
    ensures |v| == P
  {
    seq(P, a => Ratio(TagCount(data, pos2i, a), Positions(data)))
  }

  /** With at least one position, the multinomial is the tag-count vector
      normalised like an emission row, hence a distribution: its entries lie
      in [0, 1] and sum to 1. */
  lemma MultinomialIsDistribution(data: seq<Sentence>, pos2i: map<string, nat>, P: nat)
    requires TagsKnown(data, pos2i) && IndexInto(pos2i, P) && Positions(data) > 0
    ensures Multinomial(data, pos2i, P) == NormalizeRow(TagCounts(data, pos2i, P))
    ensures Sum(Multinomial(data, pos2i, P)) == 1.0
    ensures forall a :: 0 <= a < P ==> 0.0 <= Multinomial(data, pos2i, P)[a] <= 1.0
  {
    var c := TagCounts(data, pos2i, P);
    TagCountTotal(data, pos2i, P);
    assert Multinomial(data, pos2i, P) == NormalizeRow(c);
    NormalizeRowLaws(c);
  }

  // ---------------------------------------------------------------------
  // MAP.

  /** np.argmax(multinomial * emission.T[w]): the first tag maximising the
      product of its prior and its probability of emitting word w. */
  function BestTag(mult: seq<real>, emit: seq<seq<real>>, w: nat): (s: nat)
    requires |mult| > 0 && |emit| == |mult| && forall a :: 0 <= a < |emit| ==> w < |emit[a]|
    ensures s < |mult|
    ensures forall a :: 0 <= a < |mult| ==> mult[a] * emit[a][w] <= mult[s] * emit[s][w]
    ensures forall a :: 0 <= a < s ==> mult[a] * emit[a][w] < mult[s] * emit[s][w]
  {
    var v := seq(|mult|, a requires 0 <= a < |mult| => mult[a] * emit[a][w]);
    ArgMaxIsFirstMax(v);
    assert forall a :: 0 <= a < |mult| ==> v[a] == mult[a] * emit[a][w];
    ArgMax(v)
  }

  /** The tag MAP gives word w, whatever its position. */
  function Tagged(tags: seq<string>, mult: seq<real>, emit: seq<seq<real>>, word2i: map<string, nat>, w: string): (x: string)
    requires |tags| == |mult| == |emit| > 0 && w in word2i
    requires forall a :: 0 <= a < |emit| ==> word2i[w] < |emit[a]|
    ensures x in tags
  {
    tags[BestTag(mult, emit, word2i[w])]
  }

  /** The inner loop of MAP: the tag of each word of one sentence. */
  method TagWords(tags: seq<string>, mult: seq<real>, emit: seq<seq<real>>, word2i: map<string, nat>, sentence: seq<string>)
    returns (possible: seq<string>)
    requires |tags| == |mult| == |emit| > 0 && IndexInto(word2i, |emit[0]|)
    requires forall a :: 0 <= a < |emit| ==> |emit[a]| == |emit[0]|
    requires forall k :: 0 <= k < |sentence| ==> sentence[k] in word2i
    ensures |possible| == |sentence|
    ensures forall k :: 0 <= k < |sentence| ==> possible[k] == Tagged(tags, mult, emit, word2i, sentence[k])
  {
    possible := [];
    for k := 0 to |sentence|
      invariant |possible| == k
      invariant forall q :: 0 <= q < k ==> possible[q] == Tagged(tags, mult, emit, word2i, sentence[q])
    {
      var best := BestTag(mult, emit, word2i[sentence[k]]);
      possible := possible + [tags[best]];
    }
  }

  class Baseline {
    const tags: seq<string>
    const words: seq<string>
    const pos2i: map<string, nat>
    const word2i: map<string, nat>
    var multinomial: array<real>
    var emission: array2<real>

    /** Index maps built from the label lists, at least one tag (training
        saw a position), and tables shaped by them. */
    predicate Valid()
      reads this
    {
      && pos2i == IndexOf(tags) && word2i == IndexOf(words)
      && |tags| > 0
      && multinomial.Length == |tags|
      && emission.Length0 == |tags| && emission.Length1 == |words|
    }

    /** Builds the index maps and trains both tables by baseline_mle. */
    constructor (tags: seq<string>, words: seq<string>, data: seq<Sentence>)
      requires Known(data, IndexOf(tags), IndexOf(words)) && Positions(data) > 0
      ensures Valid() && fresh(multinomial) && fresh(emission)
      ensures this.tags == tags && this.words == words
      ensures multinomial[..] == Multinomial(data, pos2i, |tags|)
      ensures Rows(emission) == NormalizeProb(EmissionCounts(data, pos2i, word2i, |tags|, |words|))
    {
      this.tags := tags;
      this.words := words;
      pos2i := IndexOf(tags);
      word2i := IndexOf(words);
      new;
      SomeTagIndexed(data, tags);
      multinomial, emission := BaselineMle(data, pos2i, word2i, |tags|, |words|);
    }

    /** MAP: tags every word of every sentence with its best tag on its own,
        so equal words get equal tags wherever they stand. */
    method MAP(sentences: seq<seq<string>>) returns (result: seq<seq<string>>)
      requires Valid()
      requires forall i, k :: 0 <= i < |sentences| && 0 <= k < |sentences[i]| ==> sentences[i][k] in word2i
      ensures |result| == |sentences|
      ensures forall i :: 0 <= i < |sentences| ==> |result[i]| == |sentences[i]|
      ensures forall i, k :: 0 <= i < |sentences| && 0 <= k < |sentences[i]| ==>
                sentences[i][k] in word2i && word2i[sentences[i][k]] < |words| &&
                result[i][k] == tags[BestTag(multinomial[..], Rows(emission), word2i[sentences[i][k]])]
      ensures forall i, k, i', k' ::
                && 0 <= i < |sentences| && 0 <= k < |sentences[i]|
                && 0 <= i' < |sentences| && 0 <= k' < |sentences[i']|
                && sentences[i][k] == sentences[i'][k']
                ==> result[i][k] == result[i'][k']
    {
      var mult, emit := multinomial[..], Rows(emission);
      result := [];
      for i := 0 to |sentences|
        invariant |result| == i
        invariant forall s :: 0 <= s < i ==> |result[s]| == |sentences[s]|
        invariant forall s, k :: 0 <= s < i && 0 <= k < |sentences[s]| ==>
                    result[s][k] == Tagged(tags, mult, emit, word2i, sentences[s][k])
      {
        var possible := TagWords(tags, mult, emit, word2i, sentences[i]);
        result := result + [possible];
      }
    }
  }
}
