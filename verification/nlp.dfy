/**
 * Sentence normalisation of the frequency summarizer (app.py, preprocess_sentence).
 *
 * What the NLTK tokenizers, the WordNet lemmatizer, the stopword list and
 * `str.lower` compute, and the per-character test behind `str.isalpha`, are
 * kept opaque: they enter the model as a bundle of functions, and every
 * property below holds whatever those functions do. The string-level rule of
 * `str.isalpha` (at least one character, every character alphabetic) is
 * defined here.
 */
module Nlp {

  /** The language resources the summarizer runs with. Each field stands for a
      piece of foreign code whose behaviour is not modelled:
      - sentTokenize: NLTK's sent_tokenize (document text to sentences)
      - wordTokenize: NLTK's word_tokenize (sentence to tokens)
      - lower: Python's str.lower
      - isAlphaChar: the per-character test behind str.isalpha
      - lemmatize: WordNetLemmatizer.lemmatize with its default part of speech
      - stopWords: NLTK's English stopword list */
  datatype Resources = Resources(
    sentTokenize: string -> seq<string>,
    wordTokenize: string -> seq<string>,
    lower: string -> string,
    isAlphaChar: char -> bool,
    lemmatize: string -> string,
    stopWords: set<string>)

  /** Python's str.isalpha: at least one character, and every character alphabetic. */
  predicate IsAlpha(res: Resources, word: string) {
    |word| > 0 && forall i :: 0 <= i < |word| ==> res.isAlphaChar(word[i])
  }

  /** A string is alphabetic exactly when it is non-empty and each of its
      non-empty pieces is alphabetic. */
  lemma IsAlphaConcat(res: Resources, a: string, b: string)
    ensures IsAlpha(res, a + b) <==>
              a + b != [] && (a == [] || IsAlpha(res, a)) && (b == [] || IsAlpha(res, b))
  {
    var ab := a + b;
    assert forall i :: 0 <= i < |a| ==> ab[i] == a[i];
    assert forall i :: 0 <= i < |b| ==> ab[|a| + i] == b[i];
  }

  /** The filter of the comprehension: an alphabetic token that is not a stopword. */
  predicate Keep(res: Resources, word: string) {
    IsAlpha(res, word) && word !in res.stopWords
  }

  /** The list comprehension: the lemma of every kept token, in token order. */
  function Normalize(res: Resources, words: seq<string>): (r: seq<string>)
    ensures |r| <= |words|
    ensures r == [] <==> forall j :: 0 <= j < |words| ==> !Keep(res, words[j])
  {
    if words == [] then []
    else
      var init := Normalize(res, words[..|words| - 1]);
      var w := words[|words| - 1];
      assert forall j :: 0 <= j < |words| - 1 ==> words[..|words| - 1][j] == words[j];
      if Keep(res, w) then init + [res.lemmatize(w)] else init
  }

  /** One more token extends the comprehension by its lemma exactly when the token is kept. */
  lemma NormalizeSnoc(res: Resources, words: seq<string>, w: string)
    ensures Normalize(res, words + [w]) ==
              Normalize(res, words) + (if Keep(res, w) then [res.lemmatize(w)] else [])
  {
    assert (words + [w])[..|words|] == words;
  }

  /** The comprehension over two token lists in a row is the comprehension over
      the first followed by the comprehension over the second. */
  lemma {:induction false} NormalizeAppend(res: Resources, a: seq<string>, b: seq<string>)
    ensures Normalize(res, a + b) == Normalize(res, a) + Normalize(res, b)
  {
    if b == [] {
      assert a + b == a;
    } else {
      var n := |b| - 1;
      var ab := a + b;
      assert ab[..|ab| - 1] == a + b[..n];
      assert ab[|ab| - 1] == b[n];
      NormalizeAppend(res, a, b[..n]);
    }
  }

  /** The first token contributes its lemma, if kept, ahead of everything the rest contributes. */
  lemma NormalizeCons(res: Resources, words: seq<string>)
    requires words != []
    ensures Normalize(res, words) ==
              (if Keep(res, words[0]) then [res.lemmatize(words[0])] else []) + Normalize(res, words[1..])
  {
    assert words == [words[0]] + words[1..];
    NormalizeAppend(res, [words[0]], words[1..]);
    NormalizeSnoc(res, [], words[0]);
    assert [] + [words[0]] == [words[0]];
  }

  /** The positions of the kept tokens, in increasing order; an independent
      description of which tokens survive the filter. */
  ghost function KeptPositions(res: Resources, words: seq<string>): (idx: seq<nat>)
    ensures forall k :: 0 <= k < |idx| ==> idx[k] < |words| && Keep(res, words[idx[k]])
    ensures forall k, l :: 0 <= k < l < |idx| ==> idx[k] < idx[l]
    ensures forall j :: 0 <= j < |words| && Keep(res, words[j]) ==> j in idx
  {
    if words == [] then []
    else
      var n := |words| - 1;
      var init := KeptPositions(res, words[..n]);
      assert forall j :: 0 <= j < n ==> words[..n][j] == words[j];
      if Keep(res, words[n]) then init + [n] else init
  }

  /** The comprehension yields exactly the lemmas of the kept tokens: one per
      kept token, in the order the tokens appear. */
  lemma {:induction false} NormalizeLemmatizesKeptTokens(res: Resources, words: seq<string>)
    ensures |Normalize(res, words)| == |KeptPositions(res, words)|
    ensures forall k :: 0 <= k < |KeptPositions(res, words)| ==>
              Normalize(res, words)[k] == res.lemmatize(words[KeptPositions(res, words)[k]])
  {
    if words != [] {
      var n := |words| - 1;
      var prefix := words[..n];
      NormalizeLemmatizesKeptTokens(res, prefix);
      var r0, idx0 := Normalize(res, prefix), KeptPositions(res, prefix);
      var r, idx := Normalize(res, words), KeptPositions(res, words);
      if Keep(res, words[n]) {
        assert r == r0 + [res.lemmatize(words[n])];
        assert idx == idx0 + [n];
      } else {
        assert r == r0 && idx == idx0;
      }
      forall k | 0 <= k < |idx|
        ensures r[k] == res.lemmatize(words[idx[k]])
      {
        if k < |idx0| {
          assert idx[k] == idx0[k] && r[k] == r0[k];
          assert prefix[idx0[k]] == words[idx0[k]];
        }
      }
    }
  }

  /** Tokens of a sentence after lower-casing the whole sentence. */
  function Tokens(res: Resources, sentence: string): seq<string> {
    res.wordTokenize(res.lower(sentence))
  }

  /** preprocess_sentence: lower-case, tokenize, keep alphabetic non-stopwords, lemmatize. */
  function Preprocess(res: Resources, sentence: string): (words: seq<string>)
    ensures |words| <= |Tokens(res, sentence)|
    ensures words == [] <==>
              forall j :: 0 <= j < |Tokens(res, sentence)| ==> !Keep(res, Tokens(res, sentence)[j])
  {
    Normalize(res, Tokens(res, sentence))
  }
}
