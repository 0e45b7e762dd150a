/** Data preparation shared by both models: row normalisation of count
    tables, sentinel bracketing of sentences and vocabularies, and the
    replacement of rare words by a placeholder. */
module Utils {
  import opened Tables

  const StartState := "*START*"
  const StartWord := "*START*"
  const EndState := "*END*"
  const EndWord := "*END*"
  const RareWord := "*RARE_WORD*"

  /** One row of a data set: the tags of a sentence and its words, position by position. */
  datatype Sentence = Sentence(tags: seq<string>, words: seq<string>)

  // ---------------------------------------------------------------------
  // normalize_prob. The source divides IEEE doubles; the model uses exact reals.

  /** One row divided by its sum; a row summing to zero becomes all zeros. */
  function NormalizeRow(row: seq<real>): (r: seq<real>)
    ensures |r| == |row|
  {
    var total := Sum(row);
    if total == 0.0 then Zeros(|row|)
    else seq(|row|, k requires 0 <= k < |row| => row[k] / total)
  }

  /** Every row of a table normalised on its own. */
  function NormalizeProb(t: seq<seq<real>>): (r: seq<seq<real>>)
    ensures |r| == |t| && forall i :: 0 <= i < |t| ==> |r[i]| == |t[i]|
  {
    seq(|t|, i requires 0 <= i < |t| => NormalizeRow(t[i]))
  }

  lemma NormalizeRowLaws(row: seq<real>)
    ensures |NormalizeRow(row)| == |row|
    ensures Sum(row) == 0.0 ==> forall k :: 0 <= k < |row| ==> NormalizeRow(row)[k] == 0.0
    ensures Sum(row) != 0.0 ==>
              Sum(NormalizeRow(row)) == 1.0 &&
              forall k :: 0 <= k < |row| ==> NormalizeRow(row)[k] == row[k] / Sum(row)
    ensures NonNegative(row) ==> forall k :: 0 <= k < |row| ==> 0.0 <= NormalizeRow(row)[k] <= 1.0
  {
    if Sum(row) != 0.0 {
      NormalizedSumsToOne(row);
    }
    if NonNegative(row) {
      NormalizedBounded(row);
    }
  }

  /** A row with a non-zero total normalises to a row summing to 1. */
  lemma NormalizedSumsToOne(row: seq<real>)
    requires Sum(row) != 0.0
    ensures Sum(NormalizeRow(row)) == 1.0
  {
    var total := Sum(row);
    SumScaled(row, total, NormalizeRow(row));
    assert total / total == 1.0;
  }

  /** A non-negative row normalises to entries in [0, 1]. */
  lemma NormalizedBounded(row: seq<real>)
    requires NonNegative(row)
    ensures forall k :: 0 <= k < |row| ==> 0.0 <= NormalizeRow(row)[k] <= 1.0
  {
    var total := Sum(row);
    SumBoundsEntries(row);
    if total != 0.0 {
      forall k | 0 <= k < |row|
        ensures 0.0 <= row[k] / total <= 1.0
      {
        FractionBounded(row[k], total);
      }
    }
  }

  lemma FractionBounded(a: real, total: real)
    requires 0.0 <= a <= total && total != 0.0
    ensures 0.0 <= a / total <= 1.0
  {
    assert (a / total) * total == a;
  }

  /** normalize_prob keeps the shape; a row with sum 0 stays all zero, any
      other row is divided by its sum and then sums to 1; for a non-negative
      table every entry lands in [0, 1]. */
  lemma NormalizeProbLaws(t: seq<seq<real>>)
    ensures |NormalizeProb(t)| == |t|
    ensures forall i :: 0 <= i < |t| ==> |NormalizeProb(t)[i]| == |t[i]|
    ensures forall i, k :: 0 <= i < |t| && 0 <= k < |t[i]| && Sum(t[i]) == 0.0 ==>
              NormalizeProb(t)[i][k] == 0.0
    ensures forall i, k :: 0 <= i < |t| && 0 <= k < |t[i]| && Sum(t[i]) != 0.0 ==>
              NormalizeProb(t)[i][k] == t[i][k] / Sum(t[i])
    ensures forall i :: 0 <= i < |t| && Sum(t[i]) != 0.0 ==> Sum(NormalizeProb(t)[i]) == 1.0
    ensures forall i, k :: 0 <= i < |t| && 0 <= k < |t[i]| && NonNegative(t[i]) ==>
              0.0 <= NormalizeProb(t)[i][k] <= 1.0
  {
    forall i | 0 <= i < |t|
      ensures |NormalizeProb(t)[i]| == |t[i]|
      ensures Sum(t[i]) == 0.0 ==> forall k :: 0 <= k < |t[i]| ==> NormalizeProb(t)[i][k] == 0.0
      ensures Sum(t[i]) != 0.0 ==>
                Sum(NormalizeProb(t)[i]) == 1.0 &&
                forall k :: 0 <= k < |t[i]| ==> NormalizeProb(t)[i][k] == t[i][k] / Sum(t[i])
      ensures NonNegative(t[i]) ==> forall k :: 0 <= k < |t[i]| ==> 0.0 <= NormalizeProb(t)[i][k] <= 1.0
    {
      NormalizeRowLaws(t[i]);
    }
  }

  // ---------------------------------------------------------------------
  // Sentinels.

  /** `_pos_add_states`: the tag list between the start and end states. */
  function PosAddStates(d: seq<string>): (r: seq<string>)
    ensures |r| == |d| + 2
    ensures r[0] == StartState && r[|r| - 1] == EndState
    ensures r[1..|r| - 1] == d
  {
    [StartState] + d + [EndState]
  }

  /** `_word_add_states`: the word list between the start and end words. */
  function WordAddStates(d: seq<string>): (r: seq<string>)
    ensures |r| == |d| + 2
    ensures r[0] == StartWord && r[|r| - 1] == EndWord
    ensures r[1..|r| - 1] == d
  {
    [StartWord] + d + [EndWord]
  }

  /** `process_data_set`: every row keeps its place, and both of its lists are
      bracketed by sentinels; an aligned row stays aligned. */
  function ProcessDataSet(data: seq<(seq<string>, seq<string>)>): (r: seq<Sentence>)
    ensures |r| == |data|
    ensures forall i :: 0 <= i < |data| ==>
              && r[i].tags == PosAddStates(data[i].0)
              && r[i].words == WordAddStates(data[i].1)
    ensures forall i :: 0 <= i < |data| && |data[i].0| == |data[i].1| ==>
              |r[i].tags| == |r[i].words| >= 2
  {
    seq(|data|, i requires 0 <= i < |data| =>
      Sentence(PosAddStates(data[i].0), WordAddStates(data[i].1)))
  }

  /** `process_words_pos`: the word vocabulary and the tag vocabulary, each
      bracketed by its sentinels (returned in that order). */
  function ProcessWordsPos(words: seq<string>, pos: seq<string>): (r: (seq<string>, seq<string>))
    ensures |r.0| == |words| + 2 && |r.1| == |pos| + 2
    ensures r.0[1..|r.0| - 1] == words && r.1[1..|r.1| - 1] == pos
    ensures r.0[0] == StartWord && r.0[|r.0| - 1] == EndWord
    ensures r.1[0] == StartState && r.1[|r.1| - 1] == EndState
  {
    (WordAddStates(words), PosAddStates(pos))
  }

  // ---------------------------------------------------------------------
  // Word counts.

  /** Number of occurrences of w in s. */
  function Occurrences(s: seq<string>, w: string): nat
  {
    if s == [] then 0
    else Occurrences(s[..|s| - 1], w) + (if s[|s| - 1] == w then 1 else 0)
  }

  /** Number of occurrences of w across all the lists. */
  function TotalOccurrences(lists: seq<seq<string>>, w: string): nat
  {
    if lists == [] then 0
    else TotalOccurrences(lists[..|lists| - 1], w) + Occurrences(lists[|lists| - 1], w)
  }

  lemma {:induction false} OccurrencesPositive(s: seq<string>, w: string)
    ensures Occurrences(s, w) > 0 <==> w in s
  {
    if s != [] {
      OccurrencesPositive(s[..|s| - 1], w);
      assert s == s[..|s| - 1] + [s[|s| - 1]];
    }
  }

  lemma {:induction false} TotalOccurrencesPositive(lists: seq<seq<string>>, w: string)
    ensures TotalOccurrences(lists, w) > 0 <==> exists i :: 0 <= i < |lists| && w in lists[i]
  {
    if lists != [] {
      var n := |lists| - 1;
      TotalOccurrencesPositive(lists[..n], w);
      OccurrencesPositive(lists[n], w);
      if exists i :: 0 <= i < |lists| && w in lists[i] {
        var i :| 0 <= i < |lists| && w in lists[i];
        if i < n {
          assert w in lists[..n][i];
        }
      }
    }
  }

  /** The words occurring in the lists. */
  function WordsOf(lists: seq<seq<string>>): set<string>
  {
    set i, w | 0 <= i < |lists| && w in lists[i] :: w
  }

  /** The dictionary the counting loop of `handle_rare_words` builds: exactly
      the occurring words, each with its number of occurrences. */
  function WordCounts(lists: seq<seq<string>>): (d: map<string, nat>)
    ensures forall w :: w in d <==> TotalOccurrences(lists, w) > 0
    ensures forall w :: w in d ==> d[w] == TotalOccurrences(lists, w)
    ensures forall i, k :: 0 <= i < |lists| && 0 <= k < |lists[i]| ==> lists[i][k] in d
  {
    var d := map w | w in WordsOf(lists) :: TotalOccurrences(lists, w);
    forall i, k | 0 <= i < |lists| && 0 <= k < |lists[i]|
      ensures lists[i][k] in WordsOf(lists)
    {
      assert lists[i][k] in lists[i];
    }
    assert forall w :: w in d <==> TotalOccurrences(lists, w) > 0 by {
      forall w
        ensures w in d <==> TotalOccurrences(lists, w) > 0
      {
        TotalOccurrencesPositive(lists, w);
      }
    }
    d
  }

  /** A row during rare-word handling: its word list is updated in place. */
  datatype Row = Row(tags: seq<string>, words: array<string>)

  /** The current word lists of the rows. */
  function WordLists(data: seq<Row>): (lists: seq<seq<string>>)
    reads set i | 0 <= i < |data| :: data[i].words
    ensures |lists| == |data|
    ensures forall i :: 0 <= i < |data| ==> lists[i] == data[i].words[..]
  {
    seq(|data|, i requires 0 <= i < |data| reads set j | 0 <= j < |data| :: data[j].words =>
      data[i].words[..])
  }

  /** The counting loop of `handle_rare_words`. */
  method CountWords(data: seq<Row>) returns (dict: map<string, nat>)
    ensures dict == WordCounts(WordLists(data))
  {
    ghost var lists := WordLists(data);
    dict := map[];
    for r := 0 to |data|
      invariant forall w :: w in dict <==> TotalOccurrences(lists[..r], w) > 0
      invariant forall w :: w in dict ==> dict[w] == TotalOccurrences(lists[..r], w)
    {
      assert data[r].words[..] == lists[r];
      assert lists[..r + 1][..r] == lists[..r];
      dict := CountRow(dict, data[r].words);
    }
    assert lists[..|data|] == lists;
    CountsAreWordCounts(dict, lists);
  }

  /** A dictionary holding exactly the occurring words, each with its total
      number of occurrences, is WordCounts. */
  lemma CountsAreWordCounts(dict: map<string, nat>, lists: seq<seq<string>>)
    requires forall w :: w in dict <==> TotalOccurrences(lists, w) > 0
    requires forall w :: w in dict ==> dict[w] == TotalOccurrences(lists, w)
    ensures dict == WordCounts(lists)
  {
    var expected := WordCounts(lists);
    assert dict.Keys == expected.Keys;
  }

  /** The inner loop of that count: adds the occurrences of one row to a
      dictionary of counts. */
  method CountRow(dict: map<string, nat>, row: array<string>) returns (out: map<string, nat>)
    ensures forall w :: w in out <==> w in dict || Occurrences(row[..], w) > 0
    ensures forall w :: w in out ==> out[w] == (if w in dict then dict[w] else 0) + Occurrences(row[..], w)
  {
    out := dict;
    for k := 0 to row.Length
      invariant forall w :: w in out <==> w in dict || Occurrences(row[..k], w) > 0
      invariant forall w :: w in out ==> out[w] == (if w in dict then dict[w] else 0) + Occurrences(row[..k], w)
    {
      var word := row[k];
      assert row[..k + 1][..k] == row[..k];
      if word !in out {
        out := out[word := 0];
      }
      out := out[word := out[word] + 1];
    }
    assert row[..row.Length] == row[..];
  }

  // ---------------------------------------------------------------------
  // Rare-word replacement.

  /** The words of the vocabulary whose count exceeds n, in their original order. */
  function KeptWords(words: seq<string>, dict: map<string, nat>, n: int): (r: seq<string>)
    requires forall k :: 0 <= k < |words| ==> words[k] in dict
    ensures forall x :: x in r <==> x in words && dict[x] > n
  {
    if words == [] then []
    else
      var last := words[|words| - 1];
      var kept := KeptWords(words[..|words| - 1], dict, n);
      assert words == words[..|words| - 1] + [last];
      if dict[last] > n then kept + [last] else kept
  }

  /** Filtering distributes over concatenation: KeptWords keeps the order
      and the repetitions of the words it keeps, like a list comprehension
      with a condition (KeptWordsSingle gives the one-word case). */
  lemma {:induction false} KeptWordsAppend(a: seq<string>, b: seq<string>, dict: map<string, nat>, n: int)
    requires forall k :: 0 <= k < |a| ==> a[k] in dict
    requires forall k :: 0 <= k < |b| ==> b[k] in dict
    ensures forall k :: 0 <= k < |a + b| ==> (a + b)[k] in dict
    ensures KeptWords(a + b, dict, n) == KeptWords(a, dict, n) + KeptWords(b, dict, n)
  {
    if b == [] {
      assert a + b == a;
    } else {
      var m := |b| - 1;
      var c := a + b;
      assert c[..|c| - 1] == a + b[..m];
      var e := if dict[b[m]] > n then [b[m]] else [];
      KeptWordsStep(c, dict, n);
      KeptWordsStep(b, dict, n);
      KeptWordsAppend(a, b[..m], dict, n);
      assert KeptWords(c, dict, n) == KeptWords(a, dict, n) + KeptWords(b[..m], dict, n) + e;
    }
  }

  /** The last word of a non-empty list is kept after the kept words before it. */
  lemma KeptWordsStep(w: seq<string>, dict: map<string, nat>, n: int)
    requires w != [] && forall k :: 0 <= k < |w| ==> w[k] in dict
    ensures KeptWords(w, dict, n) ==
            KeptWords(w[..|w| - 1], dict, n) + if dict[w[|w| - 1]] > n then [w[|w| - 1]] else []
  {
  }

  /** A single word is kept iff it is counted more than n times. */
  lemma KeptWordsSingle(x: string, dict: map<string, nat>, n: int)
    requires x in dict
    ensures KeptWords([x], dict, n) == if dict[x] > n then [x] else []
  {
    assert [x][..0] == [];
  }

  /** The vocabulary `handle_rare_words` returns: the kept words, then the placeholder. */
  function NewVocabulary(words: seq<string>, dict: map<string, nat>, n: int): (r: seq<string>)
    requires forall k :: 0 <= k < |words| ==> words[k] in dict
    ensures |r| > 0 && r[|r| - 1] == RareWord
    ensures forall x :: x in r <==> x == RareWord || (x in words && dict[x] > n)
  {
    KeptWords(words, dict, n) + [RareWord]
  }

  /** A word list with every word counted at most n times replaced by the placeholder. */
  function RareReplaced(ws: seq<string>, dict: map<string, nat>, n: int): (r: seq<string>)
    requires forall k :: 0 <= k < |ws| ==> ws[k] in dict
    ensures |r| == |ws|
    ensures forall k :: 0 <= k < |ws| ==> if dict[ws[k]] > n then r[k] == ws[k] else r[k] == RareWord
  {
    seq(|ws|, k requires 0 <= k < |ws| => if dict[ws[k]] <= n then RareWord else ws[k])
  }

  /** `_add_rare_word_to_row`: rewrites the row's word list in place. */
  method AddRareWordToRow(row: Row, dict: map<string, nat>, n: int)
    requires forall k :: 0 <= k < row.words.Length ==> row.words[k] in dict
    modifies row.words
    ensures row.words[..] == RareReplaced(old(row.words[..]), dict, n)
  {
    ghost var before := row.words[..];
    for i := 0 to row.words.Length
      invariant forall k :: 0 <= k < i ==> row.words[k] == RareReplaced(before, dict, n)[k]
      invariant forall k :: i <= k < row.words.Length ==> row.words[k] == before[k]
    {
      if dict[row.words[i]] <= n {
        row.words[i] := RareWord;
      }
    }
  }

  /** `handle_rare_words`: counts every word of the data, keeps the vocabulary
      words seen more than n times (plus the placeholder), and rewrites the
      rows' word lists in place. The rows' word lists must be distinct lists. */
  method HandleRareWords(words: seq<string>, data: seq<Row>, n: int) returns (vocab: seq<string>)
    requires forall i, j :: 0 <= i < j < |data| ==> data[i].words != data[j].words
    requires forall k :: 0 <= k < |words| ==> words[k] in WordCounts(WordLists(data))
    modifies set i | 0 <= i < |data| :: data[i].words
    ensures var counts := WordCounts(old(WordLists(data)));
            && vocab == NewVocabulary(words, counts, n)
            && forall i :: 0 <= i < |data| ==>
                 data[i].words[..] == RareReplaced(old(WordLists(data))[i], counts, n)
  {
    ghost var before := WordLists(data);
    var dict := CountWords(data);
    vocab := NewVocabulary(words, dict, n);
    for r := 0 to |data|
      invariant forall i :: 0 <= i < r ==> data[i].words[..] == RareReplaced(before[i], dict, n)
      invariant forall i :: r <= i < |data| ==> data[i].words[..] == before[i]
    {
      forall k | 0 <= k < data[r].words.Length
        ensures data[r].words[k] in dict
      {
        assert data[r].words[k] in before[r];
      }
      label Before:
      AddRareWordToRow(data[r], dict, n);
      forall i | 0 <= i < |data| && i != r
        ensures data[i].words[..] == old@Before(data[i].words[..])
      {
        assert data[i].words != data[r].words;
      }
    }
  }

  /** After rare-word handling every word of the data is in the new vocabulary,
      provided every word of the data was in the old one. */
  lemma RareWordsCovered(words: seq<string>, lists: seq<seq<string>>, n: int)
    requires forall k :: 0 <= k < |words| ==> words[k] in WordCounts(lists)
    requires forall i, k :: 0 <= i < |lists| && 0 <= k < |lists[i]| ==> lists[i][k] in words
    ensures forall i :: 0 <= i < |lists| ==> forall k :: 0 <= k < |lists[i]| ==>
              lists[i][k] in WordCounts(lists) &&
              RareReplaced(lists[i], WordCounts(lists), n)[k] in NewVocabulary(words, WordCounts(lists), n)
  {
    var counts := WordCounts(lists);
    forall i, k | 0 <= i < |lists| && 0 <= k < |lists[i]|
      ensures lists[i][k] in counts
    {
      TotalOccurrencesPositive(lists, lists[i][k]);
    }
    var vocab := NewVocabulary(words, counts, n);
    forall i, k | 0 <= i < |lists| && 0 <= k < |lists[i]|
      ensures RareReplaced(lists[i], counts, n)[k] in vocab
    {
      var w := lists[i][k];
      if counts[w] > n {
        assert w in KeptWords(words, counts, n);
      } else {
        assert vocab[|vocab| - 1] == RareWord;
      }
    }
  }
}
