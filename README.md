# HMM part-of-speech tagging, modelled in Dafny

The system tags the words of a sentence with parts of speech. It has two
models and a small data-preparation layer:

- **Baseline** (`baseline.py`). Training counts how often each tag occurs
  and how often each tag emits each word. It turns those counts into a
  multinomial over tags and a row-normalised emission table. `MAP` tags every
  word on its own with the first tag that maximises
  `multinomial[tag] * emission[tag][word]`.
- **HMM** (`hmm.py`). Training counts tag-to-tag transitions inside each
  sentence and tag-to-word emissions at every position. It row-normalises
  both tables. `viterbi` does the following:
  - finds the least positive entry of each table;
  - overwrites the zeros of the stored tables in place with half that value;
  - takes logarithms;
  - fills the tables T1 (best score of a path ending in each tag) and T2
    (its backpointer) position by position;
  - follows the backpointers from the argmax of the last row.
- **Data preparation** (`utils.py`). `normalize_prob` row-normalises a
  count table, and leaves rows that sum to zero at zero. The `*_add_states`
  helpers bracket tag and word lists with the `*START*` / `*END*` sentinels.
  `handle_rare_words` counts every word of the data. It keeps the vocabulary
  words seen more than `n` times and adds `*RARE_WORD*`. It rewrites the
  rows' word lists in place so that rare words become the placeholder.

The model takes the source's own form. Training loops are methods that add
into `array`/`array2` count tables. Each method is proved against a
specification function of the data, such as `TransitionCount(data, pos2i,
a, b)` or `EmissionCount`. Laws about those functions are lemmas: rows
sum to the number of source positions, and a normalised table equals
count / row total. The two models are classes whose fields are the trained
tables. `HMM.Viterbi` floors its own fields in place, as the source does.
The Viterbi dynamic program is specified by the recursive function
`Trellis`. The proofs show the following:

- the array-filling `Forward` computes it;
- `Backtrace`/`Decode` return its trace;
- the decoded path scores the maximum of the last row;
- no path of the same length scores more.

Modules:

- `Tables`: sums, numpy's first-index `argmax`, and the row view of a
  two-dimensional array.
- `Vocab`: `pos2i` / `word2i` as built by `{x: i for (i, x) in enumerate(xs)}`.
- `Utils`: the data-preparation layer.
- `Counting`: the count functions both trainers are specified by.
- `Viterbi`: the decoding dynamic program.
- `Hmm`: `hmm_mle`, flooring, and the `HMM` class.
- `Baseline`: `baseline_mle`, `MAP`, and the `Baseline` class.

Arithmetic is exact `real`. The source divides and compares IEEE doubles.

## Model

| member | source | states |
|---|---|---|
| Vocab.IndexOf | hmm.py:22-23 | the map holds exactly the listed labels; each maps to an index below the list length whose entry is that label; with duplicates the last occurrence wins |
| Vocab.IndexOfInverts | hmm.py:22-23 | for a duplicate-free list, `pos2i[tags[i]] == i` for every i, and every index lies below the list length |
| Tables.ArgMax | hmm.py:59-60 | numpy's argmax of a non-empty vector: an index into it (which index is stated by ArgMaxIsFirstMax) |
| Tables.Max | hmm.py:59 | numpy's max of a non-empty vector: an entry of the vector at least every entry |
| Tables.ArgMaxIsFirstMax | hmm.py:65 | numpy's argmax returns an index holding the maximum, and every earlier index holds a strictly smaller value |
| Utils.NormalizeRow | utils.py:10-13 | one row of `normalize_prob`, of the row's length (its laws are in NormalizeRowLaws) |
| Utils.NormalizeProb | utils.py:10-13 | `normalize_prob` row by row, keeping the table's shape (its laws are in NormalizeProbLaws) |
| Utils.NormalizeRowLaws | utils.py:10-13 | a row summing to 0 becomes all zeros; any other row is divided entry-wise by its sum and then sums to 1; a non-negative row yields entries in [0, 1] |
| Utils.NormalizeProbLaws | utils.py:10-13 | the same, row by row, for a whole table, whose shape is kept |
| Utils.PosAddStates | utils.py:38-39 | the tag list is bracketed by `*START*` and `*END*` with the original list in between |
| Utils.WordAddStates | utils.py:42-43 | the word list is bracketed by the start and end words with the original list in between |
| Utils.ProcessDataSet | utils.py:16-17 | each pair (tags, words) becomes a sentence with both lists bracketed; aligned inputs give aligned rows of length at least 2 |
| Utils.ProcessWordsPos | utils.py:20-21 | returns the words first and the tags second, each with its start sentinel first, its end sentinel last and the original list in between |
| Utils.WordCounts | utils.py:25-30 | the dictionary holds exactly the words occurring in the data, each with its total number of occurrences, and every word of the data is a key |
| Utils.CountRow | utils.py:26-30 | the inner loop adds each word of a row to the dictionary: keys are the old keys plus the row's words, values grow by the occurrences in the row |
| Utils.CountWords | utils.py:25-30 | the counting loop over all rows yields exactly WordCounts of the rows' word lists |
| Utils.KeptWords | utils.py:32 | a word is kept iff it is in the vocabulary and counted more than n times |
| Utils.KeptWordsAppend | utils.py:32 | the filter distributes over concatenation, so it keeps the vocabulary order and repeated entries |
| Utils.KeptWordsSingle | utils.py:32 | a one-word list is kept whole iff its word is counted more than n times, and dropped otherwise |
| Utils.NewVocabulary | utils.py:32 | the returned vocabulary ends with `*RARE_WORD*` and holds exactly the placeholder and the vocabulary words counted more than n times |
| Utils.RareReplaced | utils.py:46-50 | the word list keeps its length; a word counted more than n times stays, any other becomes `*RARE_WORD*` |
| Utils.AddRareWordToRow | utils.py:46-50 | the row's word array is rewritten in place: every word counted at most n times becomes `*RARE_WORD*`, the others stay |
| Utils.HandleRareWords | utils.py:24-35 | returns the kept vocabulary followed by the placeholder, and rewrites every row's word list in place from the counts taken before any rewriting |
| Utils.RareWordsCovered | utils.py:32-33 | if the data only uses vocabulary words, every word of every rewritten row is in the new vocabulary |
| Counting.CountsPrefix | hmm.py:90-97 | the counts over the first r + 1 sentences are those over the first r plus the tag, transition and emission counts inside sentence r |
| Counting.TagCountTotal | baseline.py:55-63 | the tag counts sum to the number of positions in the data |
| Counting.SourceCountTotal | hmm.py:90-95 | the transition counts sum to the number of positions minus the number of sentences: every position but the last of each sentence starts one transition |
| Counting.EmissionRowTotal | hmm.py:90-97 | the emission counts of tag a sum to the number of positions tagged a |
| Counting.TransitionRowTotal | hmm.py:90-95 | the transition counts out of tag a sum to the number of times a is followed by another tag |
| Counting.EmissionTableIsMle | hmm.py:99 | the normalised emission table has entries count(a, w) / count(a), or 0 for an unseen tag; they lie in [0, 1], and each row of a seen tag sums to 1 |
| Counting.TransitionTableIsMle | hmm.py:99 | the normalised transition table has entries count(a, b) / (transitions out of a), or 0; they lie in [0, 1], and each row with an outgoing transition sums to 1 |
| Hmm.CountSentence | hmm.py:94-97 | one sentence adds one to each adjacent (tag, next tag) pair and one to each (tag, word) pair, the last position included |
| Hmm.CountSentenceAt | hmm.py:90-97 | one turn of the loop over the training set moves the count tables from the first r sentences to the first r + 1 |
| Hmm.CountAll | hmm.py:87-97 | the zero-initialised count tables end equal to the transition and emission counts of the whole data set |
| Hmm.HmmMle | hmm.py:77-99 | returns two fresh, distinct tables equal to the row-normalised transition counts and the row-normalised emission counts |
| Hmm.LeastPositiveIn | hmm.py:33-34 | the least positive entry of a vector: it occurs in the vector and no positive entry is smaller; 0 when there is none |
| Hmm.LeastPositive | hmm.py:33-34 | the same for a whole table: positive iff the table has a positive entry, attained, and at most every positive entry |
| Hmm.Floored | hmm.py:39-40 | `prob[prob == 0] = v`: the shape is kept, every non-zero entry is kept, and for v != 0 no zero is left |
| Hmm.FlooredHalf | hmm.py:33-40 | the table with zeros replaced by half the least positive entry, of the same shape (its laws are in FlooringLaws) |
| Hmm.FlooringLaws | hmm.py:33-40 | flooring keeps the shape and every non-zero entry, and replaces each zero by a value strictly between 0 and every positive entry, so no zero is left |
| Hmm.FlooringIdempotent | hmm.py:36-40 | a floored table still has a positive entry, and flooring it again changes nothing, so a second viterbi call sees the tables the first left behind |
| Hmm.FlooringWithoutZeros | hmm.py:39-40 | a table without zero entries is unchanged by flooring |
| Hmm.FloorZeros | hmm.py:36-40 | the stored array is rewritten in place to the floored table of its old contents |
| Hmm.ScoresShape | hmm.py:42-43 | the log tables built from P x P transitions and P x W emissions form valid score tables of P tags and W words |
| Hmm.LogTable | hmm.py:42-43 | `np.log` entry by entry, keeping the table's shape |
| Hmm.Names | hmm.py:63-70 | one tag name per index of the path, the name at that index in the tag list |
| Hmm.TagSentences | hmm.py:45-74 | one result per sentence, each the tag names of the decoded path of that sentence's word indices |
| Hmm.NamesInvert | hmm.py:66-70 | for a duplicate-free tag list, mapping the returned names back through `pos2i` gives the decoded indices, so no information is lost |
| Hmm.HMM.constructor | hmm.py:11-25 | builds the index maps from the label lists, and the stored tables are the row-normalised transition and emission counts |
| Hmm.HMM.Viterbi | hmm.py:27-74 | both stored tables are floored in place; each result is the decoded tagging under the logarithms of the floored tables |
| Viterbi.Trellis | hmm.py:50-60 | the first n rows of T1/T2: row 0 is the start transition plus the first emission with zero backpointers, and each later row is the per-tag maximum and first argmax over the previous row |
| Viterbi.DeltasFilled | hmm.py:50-60 | the specified T1/T2 satisfy the base case and the recurrence at every position |
| Viterbi.FilledIsViterbi | hmm.py:50-60 | any pair of tables satisfying the base case and the recurrence at every position equals the specified T1/T2 |
| Viterbi.FilledStep | hmm.py:57-60 | each T1 entry is attained through its backpointer, which is a valid tag, and is at least every candidate score |
| Viterbi.FilledBoundsPaths | hmm.py:54-59 | T1[t][j] is at least the score of every path of length t + 1 ending in tag j |
| Viterbi.TraceAttains | hmm.py:62-70 | the path traced back from tag j at position t scores exactly T1[t][j] |
| Viterbi.TraceFollowsBack | hmm.py:68-69 | along a traced path, each previous tag is the backpointer of the next one |
| Viterbi.DecodedAttainsMax | hmm.py:62-70 | the decoded path ends in the first argmax of the last T1 row and scores that row's maximum |
| Viterbi.PathsBoundedByMax | hmm.py:56-65 | no path over the whole sentence scores more than the maximum of the last T1 row |
| Viterbi.DecodedIsBest | hmm.py:50-70 | the decoded path scores at least as much as every path of the sentence's length |
| Viterbi.FillRow | hmm.py:57-60 | row t of T1/T2 becomes the maximum and first argmax over the previous row; other rows are unchanged |
| Viterbi.Forward | hmm.py:50-60 | the arrays filled row by row equal the specified T1 and T2 |
| Viterbi.Backtrace | hmm.py:62-70 | the backward loop over T2 yields the traced path from the given last tag |
| Viterbi.Decode | hmm.py:47-70 | the decoded path of one sentence: Forward, the first argmax of the last row, then the backtrace |
| Baseline.CountTags | baseline.py:59-61 | one sentence adds one to the count of each position's tag and one to each (tag, word) pair |
| Baseline.CountSentenceAt | baseline.py:55-61 | one turn of the loop over the training set moves the tag and emission counts from the first r sentences to the first r + 1 |
| Baseline.CountAll | baseline.py:52-61 | the zero-initialised count arrays end equal to the tag counts and the emission counts of the whole data set |
| Baseline.BaselineMle | baseline.py:43-63 | returns the tag counts divided by their total and the row-normalised emission counts |
| Baseline.Multinomial | baseline.py:63 | one probability per tag (its laws are in MultinomialIsDistribution) |
| Baseline.MultinomialIsDistribution | baseline.py:63 | the multinomial is the normalised tag-count vector; its entries lie in [0, 1] and sum to 1 |
| Baseline.BestTag | baseline.py:37 | the chosen tag maximises prior times emission probability of the word, and every earlier tag scores strictly less |
| Baseline.Tagged | baseline.py:36-37 | the tag `MAP` gives a word is one of the model's tags |
| Baseline.TagWords | baseline.py:35-39 | one tag per word of the sentence, each the best tag of that word |
| Baseline.Baseline.constructor | baseline.py:11-25 | builds the index maps; there is at least one tag, since training saw a position; the stored tables are the multinomial and the row-normalised emission counts |
| Counting.SomeTagIndexed | baseline.py:59-61 | training data with a position whose tags all have indices implies a non-empty tag list |
| Baseline.Baseline.MAP | baseline.py:27-40 | one result per sentence and one tag per word, each the best tag of the word; equal words receive equal tags wherever they stand |

## Left out

- `models_evaluator.py` is not part of this model. It does pickle file I/O, a train/test split, accuracy reporting and printing.
- `np.log` is a parameter `ln: real -> real` of `HMM.Viterbi`. Dafny has no logarithm. The dynamic program is proved for any real-valued score tables, so underflow to `-inf` is not modelled.
- IEEE doubles: every division and comparison is exact real arithmetic. Rounding, NaN and infinities are not modelled.
- The emission table stays indexed `[tag][word]` after the logarithm. The source transposes it (`.T`) and indexes `[word][tag]`. The entries used are the same.
- Hmm.HMM.Viterbi: the source fills `x` inside the backward loop. The model names the tags of the finished index path with `Names`. The result is the same.
- Hmm.HMM.Viterbi: requires a positive entry in each stored table, because `np.min` of an empty selection raises.
- Hmm.HMM.Viterbi: requires non-empty sentences of known words, because the source fails with an index or key error otherwise.
- Hmm.HMM.Viterbi: requires the start state to have an index. The source raises a key error at hmm.py:54 without one, but only once there is a sentence to decode, so a call on no sentences is not modelled without it.
- Baseline.BaselineMle: requires at least one training position. The source divides 0 by 0 there and gets NaN.
- Counting.Known: requires every training row to have as many words as tags, for both trainers. Misaligned rows are not modelled, and the two trainers treat them differently:
  - baseline_mle ignores extra words and fails on missing ones.
  - hmm_mle pairs the last tag with the last word. With extra words it drops the words between; with one word missing it counts that last word twice.
- Counting.Known: also requires every training tag to be in `pos2i` and every training word in `word2i`. The source raises a key error at hmm.py:95-97 and baseline.py:60-61 on an unindexed label, so that failure is not modelled.
- Baseline.Baseline.MAP: requires every word of every sentence to have an index. The source raises a key error at baseline.py:37 on an unknown word, so that failure is not modelled.
- Hmm.HmmMle: requires every training sentence to be non-empty, because `pos_tags[-1]` raises on an empty one.
- Utils.HandleRareWords: requires every vocabulary word to occur in the data, because `word_dict[word]` raises otherwise.
- Utils.HandleRareWords: requires the rows' word lists to be distinct objects, so that rewriting one row cannot change another.
- Utils.HandleRareWords: models the returned `data` as the same rows rewritten in place, which is what the source's list comprehension returns.
