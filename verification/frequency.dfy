/**
 * The document-wide word frequency table of the summarizer (app.py, the
 * Counter `word_freq` filled over every sentence's normalized words).
 */
module Frequency {
  import Nlp

  /** A collections.Counter over normalized words. */
  type Counter = map<string, nat>

  /** Reading `c[w]` from a Counter: a missing word reads as 0. */
  function Lookup(c: Counter, w: string): nat {
    if w in c then c[w] else 0
  }

  /** Every stored count is at least one. */
  predicate Positive(c: Counter) {
    forall w :: w in c ==> c[w] >= 1
  }

  /** `c[w] += 1` */
  function Increment(c: Counter, w: string): (r: Counter)
    ensures Lookup(r, w) == Lookup(c, w) + 1
    ensures forall u :: u != w ==> Lookup(r, u) == Lookup(c, u)
    ensures r.Keys == c.Keys + {w}
    ensures Positive(c) ==> Positive(r)
  {
    c[w := Lookup(c, w) + 1]
  }

  /** The inner loop: one increment per word, repeats included. */
  function CountWords(c: Counter, words: seq<string>): (r: Counter)
    ensures Positive(c) ==> Positive(r)
  {
    if words == [] then c
    else Increment(CountWords(c, words[..|words| - 1]), words[|words| - 1])
  }

  /** Counting a word list adds each word's multiplicity in that list. */
  lemma {:induction false} CountWordsAddsMultiplicity(c: Counter, words: seq<string>)
    ensures forall w :: Lookup(CountWords(c, words), w) == Lookup(c, w) + multiset(words)[w]
  {
    if words != [] {
      var n := |words| - 1;
      CountWordsAddsMultiplicity(c, words[..n]);
      assert words == words[..n] + [words[n]];
      assert multiset(words) == multiset(words[..n]) + multiset{words[n]};
    }
  }

  /** The outer loop over sentences: the finished `word_freq` table. */
  function WordFreq(res: Nlp.Resources, sentences: seq<string>): (freq: Counter)
    ensures Positive(freq)
  {
    if sentences == [] then map[]
    else
      var n := |sentences| - 1;
      CountWords(WordFreq(res, sentences[..n]), Nlp.Preprocess(res, sentences[n]))
  }

  /** Reference definition: how often w occurs in the normalized word lists of
      all the sentences together, counting repeats within one sentence. */
  ghost function Occurrences(res: Nlp.Resources, sentences: seq<string>, w: string): nat {
    if sentences == [] then 0
    else
      var n := |sentences| - 1;
      Occurrences(res, sentences[..n], w) + multiset(Nlp.Preprocess(res, sentences[n]))[w]
  }

  /** The table counts every word's total occurrences over the whole document,
      and holds exactly the words that occur, each with count at least one. */
  lemma {:induction false} WordFreqCountsOccurrences(res: Nlp.Resources, sentences: seq<string>)
    ensures forall w :: Lookup(WordFreq(res, sentences), w) == Occurrences(res, sentences, w)
    ensures forall w :: w in WordFreq(res, sentences) <==> Occurrences(res, sentences, w) > 0
  {
    if sentences != [] {
      var n := |sentences| - 1;
      WordFreqCountsOccurrences(res, sentences[..n]);
      CountWordsAddsMultiplicity(WordFreq(res, sentences[..n]), Nlp.Preprocess(res, sentences[n]));
    }
  }

  /** A sentence of the document contributes its own words to the total. */
  lemma {:induction false} OccurrencesCoverSentence(res: Nlp.Resources, sentences: seq<string>, i: nat, w: string)
    requires i < |sentences|
    ensures Occurrences(res, sentences, w) >= multiset(Nlp.Preprocess(res, sentences[i]))[w]
  {
    var n := |sentences| - 1;
    if i < n {
      OccurrencesCoverSentence(res, sentences[..n], i, w);
    }
  }

  /** The guard `word in word_freq` of the scoring loop always holds: every
      normalized word of every sentence is a key of the table. */
  lemma WordFreqCoversEveryWord(res: Nlp.Resources, sentences: seq<string>)
    ensures forall i, w :: 0 <= i < |sentences| && w in Nlp.Preprocess(res, sentences[i]) ==>
              w in WordFreq(res, sentences)
  {
    WordFreqCountsOccurrences(res, sentences);
    forall i, w | 0 <= i < |sentences| && w in Nlp.Preprocess(res, sentences[i])
      ensures w in WordFreq(res, sentences)
    {
      OccurrencesCoverSentence(res, sentences, i, w);
    }
  }
}
