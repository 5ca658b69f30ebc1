/**
 * Sentence scoring of the summarizer (app.py, the dict `sentence_scores`).
 *
 * The dict is keyed by sentence TEXT and remembers insertion order, so it is
 * modelled as a sequence of entries with pairwise different texts. A sentence
 * gets its entry when its first normalized word is scored; a sentence whose
 * normalized word list is empty never gets one.
 */
module Scoring {
  import Nlp
  import Frequency
  import Sequences

  /** One `sentence_scores[sentence] = score` item. */
  datatype Entry = Entry(text: string, score: int)

  /** The keys of a table, in insertion order. */
  function Texts(d: seq<Entry>): (ts: seq<string>)
    ensures |ts| == |d|
    ensures forall i :: 0 <= i < |d| ==> ts[i] == d[i].text
  {
    seq(|d|, i requires 0 <= i < |d| => d[i].text)
  }

  /** A dict holds each key once. */
  predicate UniqueTexts(d: seq<Entry>) {
    Sequences.Distinct(Texts(d))
  }

  /** Position of the entry for `key`, or -1 when there is none. */
  function Find(d: seq<Entry>, key: string): (i: int)
    ensures -1 <= i < |d|
    ensures 0 <= i ==> d[i].text == key
    ensures i < 0 ==> forall j :: 0 <= j < |d| ==> d[j].text != key
  {
    if key in Texts(d) then Sequences.FirstIndex(Texts(d), key) else -1
  }

  /** `sentence_scores.get(key, 0)` */
  function Get(d: seq<Entry>, key: string): (v: int)
    ensures key !in Texts(d) ==> v == 0
    ensures key in Texts(d) ==> exists i :: 0 <= i < |d| && d[i].text == key && v == d[i].score
  {
    var i := Find(d, key);
    if i >= 0 then d[i].score else 0
  }

  /** In a dict, reading an entry's key yields that entry's score. */
  lemma GetEntry(d: seq<Entry>, i: int)
    requires UniqueTexts(d) && 0 <= i < |d|
    ensures Get(d, d[i].text) == d[i].score
  {
  }

  /** `d[key] = d.get(key, 0) + delta`: update in place, or append a new key. */
  function Add(d: seq<Entry>, key: string, delta: int): (r: seq<Entry>)
    requires UniqueTexts(d)
    ensures UniqueTexts(r)
    ensures Texts(r) == if key in Texts(d) then Texts(d) else Texts(d) + [key]
  {
    var i := Find(d, key);
    if i >= 0 then d[i := Entry(key, d[i].score + delta)] else d + [Entry(key, 0 + delta)]
  }

  /** Adding to one key raises that key's score by delta and leaves every other key's score alone. */
  lemma AddChangesOnlyItsKey(d: seq<Entry>, key: string, delta: int, k: string)
    requires UniqueTexts(d)
    ensures Get(Add(d, key, delta), k) == Get(d, k) + (if k == key then delta else 0)
  {
  }

  /** Reference definition: the sum of the table counts of a word list, with repetition. */
  ghost function Weight(freq: Frequency.Counter, words: seq<string>): nat {
    if words == [] then 0
    else Weight(freq, words[..|words| - 1]) + Frequency.Lookup(freq, words[|words| - 1])
  }

  /** w added k times over. */
  ghost function Times(k: nat, w: nat): nat {
    if k == 0 then 0 else Times(k - 1, w) + w
  }

  /** The inner scoring loop for one sentence: each word found in the table adds its count. */
  function AddWords(d: seq<Entry>, key: string, words: seq<string>, freq: Frequency.Counter): (r: seq<Entry>)
    requires UniqueTexts(d)
    ensures UniqueTexts(r)
  {
    if words == [] then d
    else
      var r0 := AddWords(d, key, words[..|words| - 1], freq);
      var w := words[|words| - 1];
      if w in freq then Add(r0, key, freq[w]) else r0
  }

  /** Scoring one sentence adds the weight of its words to its own entry and
      leaves every other entry's score alone. */
  lemma {:induction false} AddWordsAddsWeight(d: seq<Entry>, key: string, words: seq<string>, freq: Frequency.Counter, k: string)
    requires UniqueTexts(d)
    ensures Get(AddWords(d, key, words, freq), k) == Get(d, k) + (if k == key then Weight(freq, words) else 0)
  {
    if words != [] {
      var n := |words| - 1;
      var r0 := AddWords(d, key, words[..n], freq);
      AddWordsAddsWeight(d, key, words[..n], freq, k);
      if words[n] in freq {
        AddChangesOnlyItsKey(r0, key, freq[words[n]], k);
      }
    }
  }

  /** Scoring one sentence creates its entry, at the end, exactly when some
      word passes the table guard and the entry is not there yet. */
  lemma {:induction false} AddWordsAppendsKey(d: seq<Entry>, key: string, words: seq<string>, freq: Frequency.Counter)
    requires UniqueTexts(d)
    ensures Texts(AddWords(d, key, words, freq)) ==
              if key !in Texts(d) && exists j :: 0 <= j < |words| && words[j] in freq
              then Texts(d) + [key] else Texts(d)
  {
    if words != [] {
      var n := |words| - 1;
      AddWordsAppendsKey(d, key, words[..n], freq);
      assert forall j :: 0 <= j < n ==> words[..n][j] == words[j];
    }
  }

  /** The outer scoring loop over all sentences, in document order. */
  function Scores(res: Nlp.Resources, sentences: seq<string>, freq: Frequency.Counter): (d: seq<Entry>)
    ensures UniqueTexts(d)
  {
    if sentences == [] then []
    else
      var n := |sentences| - 1;
      AddWords(Scores(res, sentences[..n], freq), sentences[n], Nlp.Preprocess(res, sentences[n]), freq)
  }

  /** Scoring the last sentence adds its weight to its own text's score and to no other. */
  lemma ScoresAddsLastWeight(res: Nlp.Resources, sentences: seq<string>, freq: Frequency.Counter, t: string)
    requires sentences != []
    ensures var n := |sentences| - 1;
            Get(Scores(res, sentences, freq), t) ==
              Get(Scores(res, sentences[..n], freq), t) +
              (if t == sentences[n] then Weight(freq, Nlp.Preprocess(res, t)) else 0)
  {
    var n := |sentences| - 1;
    AddWordsAddsWeight(Scores(res, sentences[..n], freq), sentences[n], Nlp.Preprocess(res, sentences[n]), freq, t);
  }

  /** A sentence text's score is its sentence weight once per occurrence of the
      text in the document: duplicate sentences share one accumulated entry. */
  lemma {:induction false} ScoreAccumulatesPerOccurrence(res: Nlp.Resources, sentences: seq<string>, freq: Frequency.Counter, t: string)
    ensures Get(Scores(res, sentences, freq), t) ==
              Times(multiset(sentences)[t], Weight(freq, Nlp.Preprocess(res, t)))
  {
    if sentences != [] {
      var n := |sentences| - 1;
      var prefix := sentences[..n];
      var w := Weight(freq, Nlp.Preprocess(res, t));
      var k0 := multiset(prefix)[t];
      ScoreAccumulatesPerOccurrence(res, prefix, freq, t);
      ScoresAddsLastWeight(res, sentences, freq, t);
      Sequences.CountWithLast(sentences, t);
      assert Times(k0 + 1, w) == Times(k0, w) + w;
    }
  }

  /** Every text in ts is a sentence, and ts lists them in order of first occurrence. */
  ghost predicate InFirstOccurrenceOrder(ts: seq<string>, sentences: seq<string>) {
    && (forall i :: 0 <= i < |ts| ==> ts[i] in sentences)
    && forall i, j :: 0 <= i < j < |ts| ==>
         Sequences.FirstIndex(sentences, ts[i]) < Sequences.FirstIndex(sentences, ts[j])
  }

  /** The guard `word in word_freq` holds for every normalized word of every sentence. */
  ghost predicate GuardAlwaysHolds(res: Nlp.Resources, sentences: seq<string>, freq: Frequency.Counter) {
    forall i, w :: 0 <= i < |sentences| && w in Nlp.Preprocess(res, sentences[i]) ==> w in freq
  }

  /** Scoring one more sentence appends its text exactly when it has a normalized
      word and no entry yet. */
  lemma ScoresStep(res: Nlp.Resources, sentences: seq<string>, freq: Frequency.Counter)
    requires sentences != [] && GuardAlwaysHolds(res, sentences, freq)
    ensures var n := |sentences| - 1;
            var ts0 := Texts(Scores(res, sentences[..n], freq));
            Texts(Scores(res, sentences, freq)) ==
              if Nlp.Preprocess(res, sentences[n]) != [] && sentences[n] !in ts0
              then ts0 + [sentences[n]] else ts0
  {
    var n := |sentences| - 1;
    var words := Nlp.Preprocess(res, sentences[n]);
    AddWordsAppendsKey(Scores(res, sentences[..n], freq), sentences[n], words, freq);
    if words != [] {
      assert words[0] in freq;
    }
  }

  /** When the table guard never fails, the scored texts are exactly the sentences
      with a non-empty normalized word list. */
  lemma {:induction false} ScoredTextsAreCandidates(res: Nlp.Resources, sentences: seq<string>, freq: Frequency.Counter)
    requires GuardAlwaysHolds(res, sentences, freq)
    ensures forall t :: t in Texts(Scores(res, sentences, freq)) <==>
              t in sentences && Nlp.Preprocess(res, t) != []
  {
    if sentences != [] {
      var n := |sentences| - 1;
      var prefix, last := sentences[..n], sentences[n];
      assert sentences == prefix + [last];
      assert GuardAlwaysHolds(res, prefix, freq) by {
        assert forall i :: 0 <= i < n ==> prefix[i] == sentences[i];
      }
      ScoredTextsAreCandidates(res, prefix, freq);
      ScoresStep(res, sentences, freq);
    }
  }

  /** Appending a sentence keeps a first-occurrence ordering, and a text that
      first occurs in the appended sentence can join the end of it. */
  lemma AppendKeepsFirstOccurrenceOrder(ts: seq<string>, prefix: seq<string>, last: string)
    requires InFirstOccurrenceOrder(ts, prefix)
    ensures InFirstOccurrenceOrder(ts, prefix + [last])
    ensures last !in prefix ==> InFirstOccurrenceOrder(ts + [last], prefix + [last])
  {
    var sentences := prefix + [last];
    forall t | t in prefix
      ensures Sequences.FirstIndex(sentences, t) == Sequences.FirstIndex(prefix, t)
    {
      Sequences.FirstIndexAppend(prefix, last, t);
    }
    if last !in prefix {
      assert sentences[|prefix|] == last;
      assert Sequences.FirstIndex(sentences, last) == |prefix|;
      var ts' := ts + [last];
      forall i | 0 <= i < |ts|
        ensures ts'[i] == ts[i]
      {
      }
    }
  }

  /** When the table guard never fails, the scored texts are listed in order of
      first occurrence in the document. */
  lemma {:induction false} ScoredTextsInFirstOccurrenceOrder(res: Nlp.Resources, sentences: seq<string>, freq: Frequency.Counter)
    requires GuardAlwaysHolds(res, sentences, freq)
    ensures InFirstOccurrenceOrder(Texts(Scores(res, sentences, freq)), sentences)
  {
    if sentences != [] {
      var n := |sentences| - 1;
      var prefix, last := sentences[..n], sentences[n];
      assert sentences == prefix + [last];
      assert GuardAlwaysHolds(res, prefix, freq) by {
        assert forall i :: 0 <= i < n ==> prefix[i] == sentences[i];
      }
      ScoredTextsInFirstOccurrenceOrder(res, prefix, freq);
      ScoredTextsAreCandidates(res, prefix, freq);
      ScoresStep(res, sentences, freq);
      AppendKeepsFirstOccurrenceOrder(Texts(Scores(res, prefix, freq)), prefix, last);
    }
  }
}
