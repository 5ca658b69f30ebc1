/**
 * The frequency-based extractive summarizer (app.py, frequency_based_summarizer)
 * and the empty-input check of the upload handler in front of it.
 *
 * The properties are stated against reference definitions that mention only
 * the sentences and the normalizer: which texts take part in the ranking
 * (Candidates), and what each one scores (DocumentScore).
 */
module Summarizer {
  import Nlp
  import Frequency
  import Scoring
  import Ranking
  import Assembly
  import Sequences

  /** The `sentence_scores` dict once both passes over the sentences are done. */
  function Table(res: Nlp.Resources, sentences: seq<string>): seq<Scoring.Entry> {
    Scoring.Scores(res, sentences, Frequency.WordFreq(res, sentences))
  }

  /** The dict's entries sorted by score, highest first. */
  function Ranked(res: Nlp.Resources, sentences: seq<string>): seq<Scoring.Entry> {
    Ranking.SortByScore(Table(res, sentences))
  }

  /** `top_sentences`: the sorted keys cut at num_sentences. */
  function TopSentences(res: Nlp.Resources, sentences: seq<string>, numSentences: int): (top: seq<string>)
    ensures |top| <= |Ranked(res, sentences)|
    ensures top == Scoring.Texts(Ranked(res, sentences))[..|top|]
  {
    Scoring.Texts(Ranking.SliceTo(Ranked(res, sentences), numSentences))
  }

  /** frequency_based_summarizer: a document with no more sentences than asked
      for comes back unchanged; otherwise the chosen sentences are joined with
      one space. num_sentences defaults to 5. */
  function Summarize(res: Nlp.Resources, text: string, numSentences: int := 5): (summary: string)
    ensures |res.sentTokenize(text)| <= numSentences ==> summary == text
  {
    var sentences := res.sentTokenize(text);
    if |sentences| <= numSentences then text
    else Assembly.Join(TopSentences(res, sentences, numSentences), " ")
  }

  /** Reference definition: the distinct sentence texts that have at least one normalized word. */
  ghost function Candidates(res: Nlp.Resources, sentences: seq<string>): set<string> {
    set t | t in sentences && Nlp.Preprocess(res, t) != []
  }

  /** Reference definition: the document-wide occurrence counts of a word list, summed with repetition. */
  ghost function OccurrenceSum(res: Nlp.Resources, sentences: seq<string>, words: seq<string>): nat {
    if words == [] then 0
    else
      OccurrenceSum(res, sentences, words[..|words| - 1])
      + Frequency.Occurrences(res, sentences, words[|words| - 1])
  }

  /** Reference definition: the score a sentence text ends up with, once per
      occurrence of the text in the document. */
  ghost function DocumentScore(res: Nlp.Resources, sentences: seq<string>, t: string): nat {
    Scoring.Times(multiset(sentences)[t], OccurrenceSum(res, sentences, Nlp.Preprocess(res, t)))
  }

  /** Summing table counts over a word list sums document-wide occurrences. */
  lemma {:induction false} WeightIsOccurrenceSum(res: Nlp.Resources, sentences: seq<string>, words: seq<string>)
    ensures Scoring.Weight(Frequency.WordFreq(res, sentences), words) == OccurrenceSum(res, sentences, words)
  {
    if words != [] {
      WeightIsOccurrenceSum(res, sentences, words[..|words| - 1]);
      Frequency.WordFreqCountsOccurrences(res, sentences);
    }
  }

  /** Every sentence text's score in the dict is its document score, and a text
      with no entry reads as 0 through `get`. */
  lemma ScoreIsDocumentScore(res: Nlp.Resources, sentences: seq<string>)
    ensures forall t :: Scoring.Get(Table(res, sentences), t) == DocumentScore(res, sentences, t)
  {
    forall t
      ensures Scoring.Get(Table(res, sentences), t) == DocumentScore(res, sentences, t)
    {
      Scoring.ScoreAccumulatesPerOccurrence(res, sentences, Frequency.WordFreq(res, sentences), t);
      WeightIsOccurrenceSum(res, sentences, Nlp.Preprocess(res, t));
    }
  }

  /** Each ranked entry carries the document score of its text. */
  lemma RankedScores(res: Nlp.Resources, sentences: seq<string>)
    ensures var r := Ranked(res, sentences);
            forall i :: 0 <= i < |r| ==> r[i].score == DocumentScore(res, sentences, r[i].text)
  {
    var table := Table(res, sentences);
    var r := Ranked(res, sentences);
    ScoreIsDocumentScore(res, sentences);
    forall i | 0 <= i < |r|
      ensures r[i].score == DocumentScore(res, sentences, r[i].text)
    {
      assert r[i] in table;
      Scoring.GetEntry(table, Sequences.FirstIndex(table, r[i]));
    }
  }

  /** The ranking holds each candidate exactly once. */
  lemma RankedTexts(res: Nlp.Resources, sentences: seq<string>)
    ensures Scoring.UniqueTexts(Ranked(res, sentences))
    ensures forall t :: t in Scoring.Texts(Ranked(res, sentences)) <==> t in Candidates(res, sentences)
    ensures |Ranked(res, sentences)| == |Candidates(res, sentences)|
  {
    var freq := Frequency.WordFreq(res, sentences);
    var table := Table(res, sentences);
    var r := Ranked(res, sentences);
    Frequency.WordFreqCoversEveryWord(res, sentences);
    Scoring.ScoredTextsAreCandidates(res, sentences, freq);
    Ranking.SortKeepsTexts(table);
    Ranking.SortKeepsTextsUnique(table);
    var ts := Scoring.Texts(table);
    assert Candidates(res, sentences) == set t | t in ts;
    assert |r| == |multiset(r)| == |multiset(table)| == |table|;
    Sequences.DistinctCardinality(ts);
  }

  /** Tied entries of the ranking appear in order of first occurrence in the document. */
  lemma RankedTies(res: Nlp.Resources, sentences: seq<string>)
    ensures var r := Ranked(res, sentences);
            forall i, j :: 0 <= i < j < |r| && r[i].score == r[j].score ==>
              (r[i].text in sentences && r[j].text in sentences &&
               Sequences.FirstIndex(sentences, r[i].text) < Sequences.FirstIndex(sentences, r[j].text))
  {
    var freq := Frequency.WordFreq(res, sentences);
    var table := Table(res, sentences);
    var r := Ranked(res, sentences);
    Frequency.WordFreqCoversEveryWord(res, sentences);
    Scoring.ScoredTextsInFirstOccurrenceOrder(res, sentences, freq);
    Ranking.SortByScoreIsStable(table);
    var ts := Scoring.Texts(table);
    forall i, j | 0 <= i < j < |r| && r[i].score == r[j].score
      ensures r[i].text in sentences && r[j].text in sentences
      ensures Sequences.FirstIndex(sentences, r[i].text) < Sequences.FirstIndex(sentences, r[j].text)
    {
      assert r[i] in table && r[j] in table;
      var p, q := Sequences.FirstIndex(table, r[i]), Sequences.FirstIndex(table, r[j]);
      assert p < q;
      assert ts[p] == r[i].text && ts[q] == r[j].text;
    }
  }

  /** Every chosen text is a sentence of the document with at least one
      normalized word, and no text is chosen twice. */
  lemma SelectedAreDistinctCandidates(res: Nlp.Resources, sentences: seq<string>, n: int)
    ensures forall i :: 0 <= i < |TopSentences(res, sentences, n)| ==>
              TopSentences(res, sentences, n)[i] in Candidates(res, sentences)
    ensures Sequences.Distinct(TopSentences(res, sentences, n))
  {
    RankedTexts(res, sentences);
    var r := Ranked(res, sentences);
    var top := TopSentences(res, sentences, n);
    forall i | 0 <= i < |top|
      ensures top[i] == r[i].text
    {
    }
    assert forall i :: 0 <= i < |r| ==> Scoring.Texts(r)[i] == r[i].text;
  }

  /** `[:num_sentences]` of the ranking: min(n, number of candidates) texts for
      n >= 0, and Python's from-the-end cut for negative n. */
  lemma SelectionSize(res: Nlp.Resources, sentences: seq<string>, n: int)
    ensures var count := |Candidates(res, sentences)|;
            |TopSentences(res, sentences, n)| ==
              if n >= 0 then (if n < count then n else count)
              else (if -n < count then count + n else 0)
  {
    RankedTexts(res, sentences);
  }

  /** The chosen texts come out highest document score first. */
  lemma SelectionInScoreOrder(res: Nlp.Resources, sentences: seq<string>, n: int)
    ensures var top := TopSentences(res, sentences, n);
            forall i, j :: 0 <= i < j < |top| ==>
              DocumentScore(res, sentences, top[i]) >= DocumentScore(res, sentences, top[j])
  {
    RankedScores(res, sentences);
    var r := Ranked(res, sentences);
    var top := TopSentences(res, sentences, n);
    assert forall i :: 0 <= i < |top| ==> top[i] == r[i].text;
  }

  /** Top-N: every chosen text scores at least as high as every candidate left out. */
  lemma SelectionIsTopN(res: Nlp.Resources, sentences: seq<string>, n: int)
    ensures var top := TopSentences(res, sentences, n);
            forall i, t :: 0 <= i < |top| && t in Candidates(res, sentences) && t !in top ==>
              DocumentScore(res, sentences, top[i]) >= DocumentScore(res, sentences, t)
  {
    RankedScores(res, sentences);
    RankedTexts(res, sentences);
    var r := Ranked(res, sentences);
    var top := TopSentences(res, sentences, n);
    assert forall i :: 0 <= i < |top| ==> top[i] == r[i].text;
    forall i, t | 0 <= i < |top| && t in Candidates(res, sentences) && t !in top
      ensures DocumentScore(res, sentences, top[i]) >= DocumentScore(res, sentences, t)
    {
      var rs := Scoring.Texts(r);
      assert t in rs;
      var p :| 0 <= p < |r| && rs[p] == t;
      assert r[i].score >= r[p].score;
    }
  }

  /** Tied chosen texts keep the order in which they first occur in the document. */
  lemma TiedChosenKeepDocumentOrder(res: Nlp.Resources, sentences: seq<string>, n: int)
    ensures var top := TopSentences(res, sentences, n);
            && (forall i :: 0 <= i < |top| ==> top[i] in sentences)
            && (forall i, j ::
                  (0 <= i < j < |top| &&
                   DocumentScore(res, sentences, top[i]) == DocumentScore(res, sentences, top[j])) ==>
                  Sequences.FirstIndex(sentences, top[i]) < Sequences.FirstIndex(sentences, top[j]))
  {
    RankedScores(res, sentences);
    RankedTies(res, sentences);
    SelectedAreDistinctCandidates(res, sentences, n);
    var r := Ranked(res, sentences);
    var top := TopSentences(res, sentences, n);
    assert forall i :: 0 <= i < |top| ==> top[i] == r[i].text;
  }

  /** Ties at the cut go to the sentence that occurs first: a candidate tied
      with a chosen text but occurring earlier in the document is chosen too,
      ahead of it. */
  lemma EarlierTiedCandidateIsChosen(res: Nlp.Resources, sentences: seq<string>, n: int)
    ensures var top := TopSentences(res, sentences, n);
            && (forall i :: 0 <= i < |top| ==> top[i] in sentences)
            && (forall i, t ::
                  (0 <= i < |top| && t in Candidates(res, sentences) &&
                   DocumentScore(res, sentences, t) == DocumentScore(res, sentences, top[i]) &&
                   Sequences.FirstIndex(sentences, t) < Sequences.FirstIndex(sentences, top[i])) ==>
                  t in top[..i])
  {
    var top := TopSentences(res, sentences, n);
    forall i | 0 <= i < |top|
      ensures top[i] in sentences
    {
      SelectedAt(res, sentences, n, i);
    }
    forall i, t | 0 <= i < |top| && t in Candidates(res, sentences) &&
        DocumentScore(res, sentences, t) == DocumentScore(res, sentences, top[i]) &&
        Sequences.FirstIndex(sentences, t) < Sequences.FirstIndex(sentences, top[i])
      ensures t in top[..i]
    {
      SelectedAt(res, sentences, n, i);
      TiedEarlierRanksBefore(res, sentences, i, t);
    }
  }

  /** The text chosen at position i is the ranking's i-th text, a sentence of
      the document, and everything chosen before it is the ranking's first i texts. */
  lemma SelectedAt(res: Nlp.Resources, sentences: seq<string>, n: int, i: nat)
    requires i < |TopSentences(res, sentences, n)|
    ensures i < |Ranked(res, sentences)|
    ensures TopSentences(res, sentences, n)[i] == Ranked(res, sentences)[i].text
    ensures TopSentences(res, sentences, n)[i] in sentences
    ensures TopSentences(res, sentences, n)[..i] == Scoring.Texts(Ranked(res, sentences))[..i]
  {
    SelectedAreDistinctCandidates(res, sentences, n);
    var top := TopSentences(res, sentences, n);
    assert top[i] in Candidates(res, sentences);
  }

  /** In the ranking, a candidate tied with the entry at position i but occurring
      earlier in the document sits before position i. */
  lemma TiedEarlierRanksBefore(res: Nlp.Resources, sentences: seq<string>, i: nat, t: string)
    requires i < |Ranked(res, sentences)| && t in Candidates(res, sentences)
    requires Ranked(res, sentences)[i].text in sentences
    requires DocumentScore(res, sentences, t) == DocumentScore(res, sentences, Ranked(res, sentences)[i].text)
    requires Sequences.FirstIndex(sentences, t) < Sequences.FirstIndex(sentences, Ranked(res, sentences)[i].text)
    ensures t in Scoring.Texts(Ranked(res, sentences))[..i]
  {
    RankedTexts(res, sentences);
    var r := Ranked(res, sentences);
    var rs := Scoring.Texts(r);
    assert t in rs;
    var p :| 0 <= p < |r| && rs[p] == t;
    assert r[p].text == t;
    if p < i {
      assert rs[..i][p] == t;
    } else {
      // p == i contradicts the strict first-occurrence order, and p > i the
      // stability of the ranking.
      RankedScores(res, sentences);
      RankedTies(res, sentences);
      assert false;
    }
  }

  /** Raising num_sentences never drops a chosen sentence: the smaller
      selection is a prefix of the larger one. */
  lemma SelectionGrowsWithN(res: Nlp.Resources, sentences: seq<string>, n: int, m: int)
    requires 0 <= n <= m
    ensures |TopSentences(res, sentences, n)| <= |TopSentences(res, sentences, m)|
    ensures TopSentences(res, sentences, n) ==
              TopSentences(res, sentences, m)[..|TopSentences(res, sentences, n)|]
  {
  }

  /** Outside the passthrough case the summary quotes each chosen sentence
      verbatim, in ranking order, separated by single spaces and with nothing
      before the first or after the last. */
  lemma SummaryQuotesChosenSentences(res: Nlp.Resources, text: string, n: int, i: nat)
    requires |res.sentTokenize(text)| > n
    requires i < |TopSentences(res, res.sentTokenize(text), n)|
    ensures var top := TopSentences(res, res.sentTokenize(text), n);
            var summary := Summarize(res, text, n);
            var at := Assembly.Offset(top, " ", i);
            && top[i] in res.sentTokenize(text)
            && at + |top[i]| <= |summary|
            && summary[at..at + |top[i]|] == top[i]
            && (i + 1 < |top| ==>
                  && at + |top[i]| < |summary|
                  && summary[at + |top[i]|] == ' '
                  && Assembly.Offset(top, " ", i + 1) == at + |top[i]| + 1)
            && (i + 1 == |top| ==> at + |top[i]| == |summary|)
  {
    var top := TopSentences(res, res.sentTokenize(text), n);
    SelectedAreDistinctCandidates(res, res.sentTokenize(text), n);
    Assembly.JoinRecoversParts(top, " ", i);
    if i + 1 < |top| {
      var summary := Summarize(res, text, n);
      var at := Assembly.Offset(top, " ", i) + |top[i]|;
      assert summary[at..at + 1] == " ";
      assert summary[at] == summary[at..at + 1][0];
    }
  }

  /** A long document whose every sentence is stopwords and non-words only
      yields the empty summary. */
  lemma NoCandidatesGiveEmptySummary(res: Nlp.Resources, text: string, n: int)
    requires |res.sentTokenize(text)| > n
    requires Candidates(res, res.sentTokenize(text)) == {}
    ensures Summarize(res, text, n) == ""
  {
    RankedTexts(res, res.sentTokenize(text));
  }

  /** Entries scoring 4, 4 and 5, in dict order: the top-2 summary is the
      highest-scoring sentence followed by the first of the tie, in ranking
      order rather than document order. */
  lemma TopTwoOfScores(s0: Scoring.Entry, s1: Scoring.Entry, s2: Scoring.Entry)
    requires s0.score == 4 && s1.score == 4 && s2.score == 5
    ensures Assembly.Join(Scoring.Texts(Ranking.SliceTo(Ranking.SortByScore([s0, s1, s2]), 2)), " ")
              == s2.text + " " + s0.text
  {
    Ranking.TopTwoOfRanking(s0, s1, s2);
    JoinTextsOfTwo(s2, s0);
  }

  /** Two chosen entries join as the first text, one space, the second. */
  lemma JoinTextsOfTwo(a: Scoring.Entry, b: Scoring.Entry)
    ensures Assembly.Join(Scoring.Texts([a, b]), " ") == a.text + " " + b.text
  {
    assert Scoring.Texts([a, b]) == [a.text, b.text];
    Assembly.JoinTwo(a.text, b.text, " ");
  }

  /** What the upload handler is given: nothing, or a file whose contents have been read as text. */
  datatype Upload = NoFile | File(contents: string)

  /** What the upload handler answers: one of its two refusals, or a summary. */
  datatype Reply = PleaseUpload | EmptyOrUnsupported | Summary(text: string)

  /** summarize_uploaded_document: no file is refused; a file whose text is
      empty or all whitespace (`not text.strip()`) is refused; anything else is
      summarized. isSpace is the character test behind str.strip. */
  function SummarizeUpload(res: Nlp.Resources, isSpace: char -> bool, upload: Upload, numSentences: int): (r: Reply)
    ensures r == PleaseUpload <==> upload.NoFile?
    ensures r == EmptyOrUnsupported <==>
              upload.File? && forall i :: 0 <= i < |upload.contents| ==> isSpace(upload.contents[i])
    ensures r.Summary? ==> upload.File? && r.text == Summarize(res, upload.contents, numSentences)
  {
    match upload
    case NoFile => PleaseUpload
    case File(text) =>
      if forall i :: 0 <= i < |text| ==> isSpace(text[i]) then EmptyOrUnsupported
      else Summary(Summarize(res, text, numSentences))
  }
}
