/**
 * A worked example of the whole summarizer on a three-sentence document,
 * with small stand-ins for the language resources: the tokenizers split the
 * three sentences at spaces and before the full stop, the lemmatizer turns
 * plural nouns into singulars, and the stopwords are "are", "and" and "too".
 *
 * Normalized words: S0 cat great, S1 dog great, S2 cat dog pet. Counts:
 * cat 2, great 2, dog 2, pet 1. Scores: S0 4, S1 4, S2 5. The top-2 summary
 * is S2 then S0: ranking order, with the tie between S0 and S1 going to S0.
 */
module Example {
  import Nlp
  import Frequency
  import Scoring
  import Ranking
  import Summarizer

  const S0: string := "Cats are great."
  const S1: string := "Dogs are great too."
  const S2: string := "Cats and dogs are pets."
  const Doc: string := "Cats are great. Dogs are great too. Cats and dogs are pets."
  const Sentences: seq<string> := [S0, S1, S2]

  /** Stand-ins for the language resources, just enough for this document. */
  const Res: Nlp.Resources := Nlp.Resources(
    sentTokenize := (t: string) => if t == Doc then Sentences else [],
    wordTokenize := (t: string) =>
      if t == "cats are great." then ["cats", "are", "great", "."]
      else if t == "dogs are great too." then ["dogs", "are", "great", "too", "."]
      else if t == "cats and dogs are pets." then ["cats", "and", "dogs", "are", "pets", "."]
      else [],
    lower := (t: string) =>
      if t == S0 then "cats are great."
      else if t == S1 then "dogs are great too."
      else if t == S2 then "cats and dogs are pets."
      else t,
    isAlphaChar := (c: char) => c != '.',
    lemmatize := (w: string) =>
      if w == "cats" then "cat" else if w == "dogs" then "dog" else if w == "pets" then "pet" else w,
    stopWords := {"are", "and", "too"})

  /** The filter on the tokens that occur. */
  lemma KeepFacts()
    ensures Nlp.Keep(Res, "cats") && Nlp.Keep(Res, "dogs") && Nlp.Keep(Res, "pets") && Nlp.Keep(Res, "great")
    ensures !Nlp.Keep(Res, "are") && !Nlp.Keep(Res, "and") && !Nlp.Keep(Res, "too") && !Nlp.Keep(Res, ".")
  {
    assert !Res.isAlphaChar("."[0]);
  }

  /** What one token contributes to the comprehension. */
  function Kept(res: Nlp.Resources, w: string): seq<string> {
    if Nlp.Keep(res, w) then [res.lemmatize(w)] else []
  }

  /** Two tokens in a row contribute what each contributes, in order. */
  lemma NormalizeTwo(res: Nlp.Resources, a: string, b: string)
    ensures Nlp.Normalize(res, [a, b]) == Kept(res, a) + Kept(res, b)
  {
    Nlp.NormalizeCons(res, [a, b]);
    assert [a, b][1..] == [b];
    Nlp.NormalizeCons(res, [b]);
    assert [b][1..] == [];
  }

  /** Three tokens in a row contribute what each contributes, in order. */
  lemma NormalizeThree(res: Nlp.Resources, a: string, b: string, c: string)
    ensures Nlp.Normalize(res, [a, b, c]) == Kept(res, a) + Kept(res, b) + Kept(res, c)
  {
    Nlp.NormalizeCons(res, [a, b, c]);
    assert [a, b, c][1..] == [b, c];
    NormalizeTwo(res, b, c);
  }

  /** What each token of the document contributes. */
  lemma KeptFacts()
    ensures Kept(Res, "cats") == ["cat"] && Kept(Res, "dogs") == ["dog"] && Kept(Res, "pets") == ["pet"]
    ensures Kept(Res, "great") == ["great"]
    ensures Kept(Res, "are") == [] && Kept(Res, "and") == [] && Kept(Res, "too") == [] && Kept(Res, ".") == []
  {
    KeepFacts();
  }

  /** "Cats are great." normalizes to cat, great. */
  lemma PreprocessS0()
    ensures Nlp.Preprocess(Res, S0) == ["cat", "great"]
  {
    KeptFacts();
    assert Nlp.Tokens(Res, S0) == ["cats", "are"] + ["great", "."];
    Nlp.NormalizeAppend(Res, ["cats", "are"], ["great", "."]);
    NormalizeTwo(Res, "cats", "are");
    NormalizeTwo(Res, "great", ".");
  }

  /** "Dogs are great too." normalizes to dog, great. */
  lemma PreprocessS1()
    ensures Nlp.Preprocess(Res, S1) == ["dog", "great"]
  {
    KeptFacts();
    assert Nlp.Tokens(Res, S1) == ["dogs", "are"] + ["great", "too", "."];
    Nlp.NormalizeAppend(Res, ["dogs", "are"], ["great", "too", "."]);
    NormalizeTwo(Res, "dogs", "are");
    NormalizeThree(Res, "great", "too", ".");
  }

  /** "Cats and dogs are pets." normalizes to cat, dog, pet. */
  lemma PreprocessS2()
    ensures Nlp.Preprocess(Res, S2) == ["cat", "dog", "pet"]
  {
    assert Nlp.Tokens(Res, S2) == ["cats", "and", "dogs"] + ["are", "pets", "."];
    Nlp.NormalizeAppend(Res, ["cats", "and", "dogs"], ["are", "pets", "."]);
    CatsAndDogsTokens();
    PetsTokens();
  }

  /** The first three tokens of the third sentence normalize to cat, dog. */
  lemma CatsAndDogsTokens()
    ensures Nlp.Normalize(Res, ["cats", "and", "dogs"]) == ["cat", "dog"]
  {
    KeptFacts();
    NormalizeThree(Res, "cats", "and", "dogs");
  }

  /** The last three tokens of the third sentence normalize to pet. */
  lemma PetsTokens()
    ensures Nlp.Normalize(Res, ["are", "pets", "."]) == ["pet"]
  {
    KeptFacts();
    NormalizeThree(Res, "are", "pets", ".");
  }

  /** Occurrences over a three-sentence document, sentence by sentence. */
  lemma OccurrencesOfThree(res: Nlp.Resources, a: string, b: string, c: string, w: string)
    ensures Frequency.Occurrences(res, [a, b, c], w) ==
              multiset(Nlp.Preprocess(res, a))[w] + multiset(Nlp.Preprocess(res, b))[w] +
              multiset(Nlp.Preprocess(res, c))[w]
  {
    assert [a, b, c][..2] == [a, b];
    assert [a, b][..1] == [a];
    assert [a][..0] == [];
    assert Frequency.Occurrences(res, [a], w) == multiset(Nlp.Preprocess(res, a))[w];
    assert Frequency.Occurrences(res, [a, b], w) ==
             Frequency.Occurrences(res, [a], w) + multiset(Nlp.Preprocess(res, b))[w];
  }

  /** "cat" occurs in the first and the third sentence. */
  lemma CatCount()
    ensures Frequency.Occurrences(Res, Sentences, "cat") == 2
  {
    PreprocessS0();
    PreprocessS1();
    PreprocessS2();
    OccurrencesOfThree(Res, S0, S1, S2, "cat");
  }

  /** "great" occurs in the first and the second sentence. */
  lemma GreatCount()
    ensures Frequency.Occurrences(Res, Sentences, "great") == 2
  {
    PreprocessS0();
    PreprocessS1();
    PreprocessS2();
    OccurrencesOfThree(Res, S0, S1, S2, "great");
  }

  /** "dog" occurs in the second and the third sentence. */
  lemma DogCount()
    ensures Frequency.Occurrences(Res, Sentences, "dog") == 2
  {
    PreprocessS0();
    PreprocessS1();
    PreprocessS2();
    OccurrencesOfThree(Res, S0, S1, S2, "dog");
  }

  /** "pet" occurs in the third sentence only. */
  lemma PetCount()
    ensures Frequency.Occurrences(Res, Sentences, "pet") == 1
  {
    PreprocessS0();
    PreprocessS1();
    PreprocessS2();
    OccurrencesOfThree(Res, S0, S1, S2, "pet");
  }

  /** The document-wide counts: cat 2, great 2, dog 2, pet 1. */
  lemma WordCounts()
    ensures Frequency.Occurrences(Res, Sentences, "cat") == 2
    ensures Frequency.Occurrences(Res, Sentences, "great") == 2
    ensures Frequency.Occurrences(Res, Sentences, "dog") == 2
    ensures Frequency.Occurrences(Res, Sentences, "pet") == 1
  {
    CatCount();
    GreatCount();
    DogCount();
    PetCount();
  }

  /** A text occurring once in the document scores the sum of its words' counts. */
  lemma ScoreOfUniqueText(res: Nlp.Resources, sentences: seq<string>, t: string)
    requires multiset(sentences)[t] == 1
    ensures Summarizer.DocumentScore(res, sentences, t) ==
              Summarizer.OccurrenceSum(res, sentences, Nlp.Preprocess(res, t))
  {
    assert Scoring.Times(1, Summarizer.OccurrenceSum(res, sentences, Nlp.Preprocess(res, t))) ==
             Scoring.Times(0, Summarizer.OccurrenceSum(res, sentences, Nlp.Preprocess(res, t))) +
             Summarizer.OccurrenceSum(res, sentences, Nlp.Preprocess(res, t));
  }

  lemma OccurrenceSumTwo(res: Nlp.Resources, sentences: seq<string>, a: string, b: string)
    ensures Summarizer.OccurrenceSum(res, sentences, [a, b]) ==
              Frequency.Occurrences(res, sentences, a) + Frequency.Occurrences(res, sentences, b)
  {
    assert [a, b][..1] == [a];
    assert [a][..0] == [];
    assert Summarizer.OccurrenceSum(res, sentences, [a]) == Frequency.Occurrences(res, sentences, a);
  }

  lemma OccurrenceSumThree(res: Nlp.Resources, sentences: seq<string>, a: string, b: string, c: string)
    ensures Summarizer.OccurrenceSum(res, sentences, [a, b, c]) ==
              Frequency.Occurrences(res, sentences, a) + Frequency.Occurrences(res, sentences, b) +
              Frequency.Occurrences(res, sentences, c)
  {
    OccurrenceSumTwo(res, sentences, a, b);
    assert [a, b, c][..2] == [a, b];
  }

  /** The scores: S0 4, S1 4, S2 5. */
  lemma DocumentScores()
    ensures Summarizer.DocumentScore(Res, Sentences, S0) == 4
    ensures Summarizer.DocumentScore(Res, Sentences, S1) == 4
    ensures Summarizer.DocumentScore(Res, Sentences, S2) == 5
  {
    PreprocessS0();
    PreprocessS1();
    PreprocessS2();
    WordCounts();
    assert multiset(Sentences)[S0] == 1 && multiset(Sentences)[S1] == 1 && multiset(Sentences)[S2] == 1;
    ScoreOfUniqueText(Res, Sentences, S0);
    ScoreOfUniqueText(Res, Sentences, S1);
    ScoreOfUniqueText(Res, Sentences, S2);
    OccurrenceSumTwo(Res, Sentences, "cat", "great");
    OccurrenceSumTwo(Res, Sentences, "dog", "great");
    OccurrenceSumThree(Res, Sentences, "cat", "dog", "pet");
  }

  /** A sentence with a normalized word and a text not yet in the dict gets a new
      entry at the end. */
  lemma AppendNewText(res: Nlp.Resources, prefix: seq<string>, x: string, freq: Frequency.Counter)
    requires Scoring.GuardAlwaysHolds(res, prefix + [x], freq)
    requires Nlp.Preprocess(res, x) != [] && x !in Scoring.Texts(Scoring.Scores(res, prefix, freq))
    ensures Scoring.Texts(Scoring.Scores(res, prefix + [x], freq)) ==
              Scoring.Texts(Scoring.Scores(res, prefix, freq)) + [x]
  {
    assert (prefix + [x])[..|prefix|] == prefix;
    Scoring.ScoresStep(res, prefix + [x], freq);
  }

  /** The table guard holding for a document holds for any shorter prefix of it. */
  lemma GuardOfPrefix(res: Nlp.Resources, sentences: seq<string>, k: nat, freq: Frequency.Counter)
    requires k <= |sentences| && Scoring.GuardAlwaysHolds(res, sentences, freq)
    ensures Scoring.GuardAlwaysHolds(res, sentences[..k], freq)
  {
    forall i, w | 0 <= i < k && w in Nlp.Preprocess(res, sentences[..k][i])
      ensures w in freq
    {
      assert sentences[..k][i] == sentences[i];
    }
  }

  /** Two different sentences, each with a normalized word, get their entries in document order. */
  lemma TwoNewTexts(res: Nlp.Resources, a: string, b: string, freq: Frequency.Counter)
    requires Scoring.GuardAlwaysHolds(res, [a, b], freq)
    requires Nlp.Preprocess(res, a) != [] && Nlp.Preprocess(res, b) != [] && a != b
    ensures Scoring.Texts(Scoring.Scores(res, [a, b], freq)) == [a, b]
  {
    GuardOfPrefix(res, [a, b], 1, freq);
    assert [a, b][..1] == [a] == [] + [a];
    assert [a, b] == [a] + [b];
    AppendNewText(res, [], a, freq);
    AppendNewText(res, [a], b, freq);
  }

  /** Three different sentences, each with a normalized word, get their entries in document order. */
  lemma ThreeNewTexts(res: Nlp.Resources, a: string, b: string, c: string, freq: Frequency.Counter)
    requires Scoring.GuardAlwaysHolds(res, [a, b, c], freq)
    requires Nlp.Preprocess(res, a) != [] && Nlp.Preprocess(res, b) != [] && Nlp.Preprocess(res, c) != []
    requires a != b && a != c && b != c
    ensures Scoring.Texts(Scoring.Scores(res, [a, b, c], freq)) == [a, b, c]
  {
    GuardOfPrefix(res, [a, b, c], 2, freq);
    assert [a, b, c][..2] == [a, b];
    TwoNewTexts(res, a, b, freq);
    assert [a, b, c] == [a, b] + [c];
    AppendNewText(res, [a, b], c, freq);
  }

  /** A dict with distinct keys is determined by its keys and their `get` values. */
  lemma DictOfThree(d: seq<Scoring.Entry>, a: string, b: string, c: string)
    requires Scoring.UniqueTexts(d) && Scoring.Texts(d) == [a, b, c]
    ensures d == [Scoring.Entry(a, Scoring.Get(d, a)), Scoring.Entry(b, Scoring.Get(d, b)),
                  Scoring.Entry(c, Scoring.Get(d, c))]
  {
    Scoring.GetEntry(d, 0);
    Scoring.GetEntry(d, 1);
    Scoring.GetEntry(d, 2);
  }

  /** The finished `sentence_scores` dict: S0 4, S1 4, S2 5, in that order. */
  lemma ExampleTable()
    ensures Summarizer.Table(Res, Sentences) ==
              [Scoring.Entry(S0, 4), Scoring.Entry(S1, 4), Scoring.Entry(S2, 5)]
  {
    var freq := Frequency.WordFreq(Res, Sentences);
    var d := Summarizer.Table(Res, Sentences);
    PreprocessS0();
    PreprocessS1();
    PreprocessS2();
    Frequency.WordFreqCoversEveryWord(Res, Sentences);
    ThreeNewTexts(Res, S0, S1, S2, freq);
    DictOfThree(d, S0, S1, S2);
    Summarizer.ScoreIsDocumentScore(Res, Sentences);
    DocumentScores();
  }

  /** The summary of the document with two sentences asked for: the highest
      scorer, then the earlier of the two tied sentences. */
  lemma CatsAndDogsSummary()
    ensures Summarizer.Summarize(Res, Doc, 2) == S2 + " " + S0
  {
    assert Res.sentTokenize(Doc) == Sentences;
    ExampleTable();
    Summarizer.TopTwoOfScores(Scoring.Entry(S0, 4), Scoring.Entry(S1, 4), Scoring.Entry(S2, 5));
  }

  /** With the default of five sentences the three-sentence document comes back unchanged. */
  lemma DefaultReturnsShortDocument()
    ensures Summarizer.Summarize(Res, Doc) == Doc
  {
    assert Res.sentTokenize(Doc) == Sentences;
  }
}
