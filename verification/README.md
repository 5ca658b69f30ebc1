# Frequency-based extractive summarizer, modelled in Dafny

This project models the core of `app.py`, a small extractive summarizer.
`frequency_based_summarizer` splits a document into sentences. If there are no
more sentences than the requested number, it returns the document unchanged.
Otherwise it does the following:

- It normalizes every sentence with `preprocess_sentence`: lower-case, tokenize,
  keep the alphabetic non-stopword tokens, lemmatize them.
- It counts every normalized word over the whole document in a `Counter`.
- It scores each sentence text by summing the counts of its normalized words
  into an insertion-ordered dict keyed by the sentence text.
- It sorts the dict's keys by score, highest first, and keeps the first
  `num_sentences`.
- It joins them with single spaces.

The upload handler in front of it refuses a missing file and a file whose text
is empty or all whitespace.

The NLTK pieces are foreign code: the sentence and word tokenizers, the
WordNet lemmatizer and the stopword list. So are Python's `str.lower` and the
per-character tests behind `str.isalpha` and `str.strip`. They enter the model
as fields of `Nlp.Resources` (and an `isSpace` parameter), with no assumption
about what they compute. The string-level rules built on those character tests
are part of the model. `word.isalpha()` holds for a non-empty word whose every
character passes the letter test (`Nlp.IsAlpha`). `not text.strip()` holds for
a text whose every character passes the whitespace test (`SummarizeUpload`). Every property below holds for any choice of them,
except those of `Example`, which fixes one small choice and follows a concrete
document through every stage, by proof.

Modules, in pipeline order:

| file | module | models |
|---|---|---|
| `nlp.dfy` | `Nlp` | `preprocess_sentence` |
| `frequency.dfy` | `Frequency` | the `word_freq` Counter |
| `scoring.dfy` | `Scoring` | the `sentence_scores` dict, as a sequence of entries with distinct texts |
| `ranking.dfy` | `Ranking` | `sorted(..., key=..., reverse=True)` and the `[:num_sentences]` slice |
| `assembly.dfy` | `Assembly` | `" ".join(...)` |
| `summarizer.dfy` | `Summarizer` | `frequency_based_summarizer` and `summarize_uploaded_document` |
| `sequences.dfy` | `Sequences` | shared sequence facts (first occurrence, distinctness, counts) |
| `example.dfy` | `Example` | a three-sentence document followed through every stage of the summarizer by proof, with small stand-in resources |

The properties are stated against reference definitions that mention only the
sentences and the normalizer:

- `Frequency.Occurrences`: how often a word occurs over all normalized sentences.
- `Summarizer.Candidates`: the distinct sentence texts that have a normalized word.
- `Summarizer.DocumentScore`: the score a text ends up with.
- `Nlp.KeptPositions`: which tokens survive the filter.

Behaviour of the code that the model keeps, and that a reader might not expect:

- The summary lists the chosen sentences in ranking order, not document order.
  In `Example`, the document "Cats are great. Dogs are great too. Cats and dogs
  are pets." scores 4, 4 and 5. Its top-2 summary is the third sentence, then
  the first (`Example.CatsAndDogsSummary`).
- Ties keep dict insertion order, because Python's sort is stable also with
  `reverse=True`. Insertion order is the order in which texts first occur in
  the document, so of two tied sentences the earlier one wins.
- The dict is keyed by sentence text. Two sentences with identical text share
  one entry. That entry is scored once per occurrence, and the text can be
  chosen at most once.
- A sentence with no normalized word never gets an entry. It cannot be chosen
  even when fewer than `num_sentences` sentences have entries, so the summary
  can hold fewer sentences than asked for, or be empty.
- The passthrough returns the original `text` itself, not a re-join of its
  sentences.
- `num_sentences` is used as given. Zero or a negative value does not raise.
  Zero gives the empty summary for any document with at least one sentence. A negative value
  cuts from the end, following Python's slice rules.
- Python's sort is Timsort; the model uses an insertion sort. A stable sort by
  a key has exactly one possible result, so the two agree.

## Model

| member | source | states |
|---|---|---|
| Nlp.IsAlpha | app.py:39 | Python's `str.isalpha`: at least one character, and every character passes the opaque letter test |
| Nlp.IsAlphaConcat | app.py:39 | a string is alphabetic exactly when it is non-empty and each of its non-empty pieces is alphabetic; in particular the empty string is not |
| Nlp.Normalize | app.py:36-40 | the comprehension keeps at most as many words as there are tokens, and it is empty exactly when no token is alphabetic and outside the stopword list |
| Nlp.NormalizeLemmatizesKeptTokens | app.py:36-40 | the comprehension yields, in token order, the lemma of each kept token and nothing else (one word per kept position) |
| Nlp.KeptPositions | app.py:38-39 | reference for the filter: strictly increasing positions of exactly the tokens that are alphabetic and not stopwords |
| Nlp.NormalizeAppend | app.py:36-40 | the comprehension over two token lists in a row is the comprehension over the first followed by the comprehension over the second |
| Nlp.NormalizeCons | app.py:36-40 | the first token contributes its lemma, if it is alphabetic and not a stopword, ahead of everything the remaining tokens contribute |
| Nlp.NormalizeSnoc | app.py:36-40 | one more token adds its lemma at the end of the comprehension's result exactly when it is alphabetic and not a stopword, and adds nothing otherwise |
| Nlp.Preprocess | app.py:33-41 | a sentence normalizes to at most as many words as its lower-cased tokens, and to nothing exactly when none of those tokens passes the filter |
| Frequency.Increment | app.py:79 | `word_freq[word] += 1` raises that word's count by one, leaves every other count alone and keeps all counts at least 1 |
| Frequency.CountWords | app.py:78-79 | counting a sentence's words into a Counter whose counts are all at least 1 keeps every count at least 1 |
| Frequency.CountWordsAddsMultiplicity | app.py:78-79 | counting one sentence's words adds each word's multiplicity in that sentence, repeats included |
| Frequency.WordFreq | app.py:75-79 | every word stored in the finished table has a count of at least 1 |
| Frequency.WordFreqCountsOccurrences | app.py:75-79 | each word's count is its number of occurrences over all normalized sentences of the document, and a word is in the table exactly when it occurs at least once |
| Frequency.WordFreqCoversEveryWord | app.py:83-85 | the guard `word in word_freq` holds for every normalized word of every sentence |
| Scoring.Get | app.py:86 | `sentence_scores.get(sentence, 0)` is 0 for a key with no entry, and otherwise the score stored in an entry with that key |
| Scoring.GetEntry | app.py:86 | in a dict with distinct keys, `get` on an entry's key returns that entry's score |
| Scoring.Add | app.py:86 | the update keeps keys distinct, and it appends the key at the end exactly when the key is new |
| Scoring.AddChangesOnlyItsKey | app.py:86 | the update raises the updated key's `get` value by the added count and leaves every other key's `get` value unchanged |
| Scoring.AddWords | app.py:84-86 | scoring one sentence keeps the dict's keys distinct |
| Scoring.AddWordsAddsWeight | app.py:84-86 | scoring one sentence adds the summed counts of its words to its own entry and changes no other entry |
| Scoring.AddWordsAppendsKey | app.py:84-86 | scoring one sentence creates its entry, at the end, exactly when some word passes the guard and the text has no entry yet |
| Scoring.Scores | app.py:81-86 | the finished `sentence_scores` dict has distinct keys |
| Scoring.ScoresAddsLastWeight | app.py:83-86 | scoring one more sentence adds its word weight to its own text's score and changes no other text's score |
| Scoring.ScoresStep | app.py:83-86 | after one more sentence the keys are unchanged, or have that sentence's text appended when it has a normalized word and no entry yet |
| Scoring.ScoreAccumulatesPerOccurrence | app.py:81-86 | a text's final score is its word weight added once per occurrence of the text in the document; an absent text reads 0 |
| Scoring.ScoredTextsAreCandidates | app.py:81-86 | the dict's keys are exactly the sentence texts with at least one normalized word |
| Scoring.AppendKeepsFirstOccurrenceOrder | app.py:83 | appending a sentence keeps an ordering by first occurrence, and a text first seen in that sentence can join its end |
| Scoring.ScoredTextsInFirstOccurrenceOrder | app.py:81-86 | the dict's keys are sentences, listed in the order of their first occurrence in the document |
| Ranking.InsertKeepsOrder | app.py:88-91 | one insertion step keeps the ranking ordered by non-increasing score |
| Ranking.SortByScore | app.py:88-91 | the sorted list has non-increasing scores and is a permutation of the dict's entries |
| Ranking.SortKeepsTexts | app.py:88-91 | sorting neither adds nor drops a key |
| Ranking.SortKeepsTextsUnique | app.py:88-91 | sorting a dict's entries keeps the keys distinct |
| Ranking.InsertKeepsTiesInOrder | app.py:88-91 | one insertion step keeps entries with equal scores in input order |
| Ranking.SortByScoreIsStable | app.py:88-91 | of two entries with equal scores, the one earlier in the dict comes earlier in the sorted list |
| Ranking.RankingOfScores | app.py:88-91 | entries scoring 4, 4, 5 in dict order sort as the third, then the first, then the second |
| Ranking.TopTwoOfRanking | app.py:88-92 | cutting that ranking at 2 keeps the third entry and then the first |
| Ranking.SliceTo | app.py:92 | `[:n]` is a prefix of length min(n, len) for n >= 0 and of length max(len + n, 0) for negative n |
| Assembly.Join | app.py:94 | joining no parts gives the empty string; otherwise the result starts with the first part, verbatim |
| Assembly.JoinTwo | app.py:94 | two sentences join as the first, one space, the second |
| Assembly.JoinRecoversParts | app.py:94 | the joined string holds each part verbatim at its offset, exactly one separator between consecutive parts, nothing before the first or after the last |
| Summarizer.TopSentences | app.py:88-92 | the chosen texts are the first texts of the ranking, and no more of them than the ranking holds |
| Summarizer.Summarize | app.py:69-73 | a document with no more sentences than requested comes back as the original text; the count defaults to 5 |
| Summarizer.WeightIsOccurrenceSum | app.py:84-86 | summing table counts over a sentence's words equals summing each word's document-wide occurrences |
| Summarizer.ScoreIsDocumentScore | app.py:75-86 | every text's score read through `get` is its document score, computed from the sentences alone |
| Summarizer.RankedScores | app.py:81-91 | each ranked entry carries the document score of its text |
| Summarizer.RankedTexts | app.py:81-91 | the ranking holds each candidate exactly once and nothing else; its length is the number of candidates |
| Summarizer.RankedTies | app.py:81-91 | ranked entries with equal scores are in order of first occurrence in the document |
| Summarizer.SelectedAreDistinctCandidates | app.py:81-92 | every chosen text is a sentence with a normalized word, and no text is chosen twice |
| Summarizer.SelectionSize | app.py:88-92 | min(n, number of candidates) texts are chosen for n >= 0; Python's from-the-end cut applies for negative n |
| Summarizer.SelectionInScoreOrder | app.py:88-92 | the chosen texts come highest document score first |
| Summarizer.SelectionIsTopN | app.py:88-92 | every chosen text scores at least as high as every candidate left out |
| Summarizer.TiedChosenKeepDocumentOrder | app.py:88-92 | chosen texts with equal scores appear in order of first occurrence in the document |
| Summarizer.SelectedAt | app.py:88-92 | the text chosen at position i is the ranking's i-th text and a sentence of the document, and the texts chosen before it are the ranking's first i texts |
| Summarizer.TiedEarlierRanksBefore | app.py:88-91 | a candidate tied with the ranking's i-th entry and occurring earlier in the document is ranked before position i |
| Summarizer.EarlierTiedCandidateIsChosen | app.py:88-92 | a candidate that ties with a chosen text and first occurs earlier is chosen too, ahead of it |
| Summarizer.SelectionGrowsWithN | app.py:88-92 | for 0 <= n <= m, the texts chosen for n are a prefix of those chosen for m |
| Summarizer.SummaryQuotesChosenSentences | app.py:88-94 | outside the passthrough, the summary quotes each chosen sentence verbatim in ranking order, separated by single spaces |
| Summarizer.NoCandidatesGiveEmptySummary | app.py:72-95 | a long document whose sentences normalize to nothing yields the empty summary |
| Summarizer.TopTwoOfScores | app.py:88-94 | with entries scoring 4, 4, 5 the top-2 summary is the third sentence, a space, then the first |
| Summarizer.JoinTextsOfTwo | app.py:94 | two chosen entries join as the first text, one space, the second text |
| Summarizer.SummarizeUpload | app.py:101-111 | no file gives the upload refusal; empty or all-whitespace text gives the empty-file refusal; any other text is summarized |
| Example.PreprocessS0 | app.py:33-41 | with the stand-in resources, "Cats are great." normalizes to cat, great |
| Example.PreprocessS1 | app.py:33-41 | "Dogs are great too." normalizes to dog, great |
| Example.PreprocessS2 | app.py:33-41 | "Cats and dogs are pets." normalizes to cat, dog, pet |
| Example.WordCounts | app.py:75-79 | the document's word counts are cat 2, great 2, dog 2, pet 1 |
| Example.DocumentScores | app.py:81-86 | the three sentences score 4, 4 and 5 |
| Example.AppendNewText | app.py:83-86 | a sentence with a normalized word whose text has no entry yet gets a new entry at the end of the dict |
| Example.GuardOfPrefix | app.py:85 | the guard `word in word_freq` holding over a document holds over each prefix of it |
| Example.ThreeNewTexts | app.py:81-86 | three different sentences that each have a normalized word become the dict's keys in document order |
| Example.DictOfThree | app.py:86 | a dict with three distinct keys is determined by its keys and their `get` values |
| Example.ExampleTable | app.py:75-86 | the finished `sentence_scores` dict of the document is first sentence 4, second 4, third 5, in that order |
| Example.CatsAndDogsSummary | app.py:69-95 | asked for two sentences, the summarizer returns the third sentence, one space, then the first |
| Example.DefaultReturnsShortDocument | app.py:69-73 | with the default count of 5, the three-sentence document comes back unchanged |

## Left out

- `read_text_file` (app.py:47-63): decoding `.txt`, and extracting text from `.pdf` and `.docx`, is file I/O through foreign libraries. `SummarizeUpload` receives the text already read.
- The Gradio interface and `demo.launch()` (app.py:114-152): user interface, not logic.
- `nltk.download` and the module-level resource setup (app.py:21-30): network and process state. The loaded resources are the `Nlp.Resources` bundle.
- What the NLTK tokenizers, the WordNet lemmatizer, the stopword list and `str.lower` compute, and the per-character tests behind `str.isalpha` and `str.strip`, are kept opaque. They are foreign code.
- Exceptions the foreign code can raise, such as a missing NLTK data package: foreign behaviour.
- `SummarizeUpload` receives the count as an integer; the `int(...)` conversion at app.py:110 is not modelled.
- The refusal messages of the upload handler are the constructors `PleaseUpload` and `EmptyOrUnsupported`, not the exact strings.
- `evaluate.py`: a ROUGE evaluation script outside the summarizer.
