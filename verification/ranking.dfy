/**
 * Ranking of the scored sentences (app.py, `sorted(sentence_scores,
 * key=sentence_scores.get, reverse=True)[:num_sentences]`).
 *
 * Python's sort is stable, also with reverse=True: entries with equal scores
 * keep the order they had in the dict. The sort is modelled as an insertion
 * sort that puts each entry before the first entry scoring no higher, which is
 * stable by construction; the slice follows Python's rules, negative bounds included.
 */
module Ranking {
  import Scoring
  import Sequences

  /** Scores never increase along s. */
  predicate NonIncreasing(s: seq<Scoring.Entry>) {
    forall i, j :: 0 <= i < j < |s| ==> s[i].score >= s[j].score
  }

  /** The number of leading entries that score strictly higher than e. */
  function InsertPoint(e: Scoring.Entry, s: seq<Scoring.Entry>): (k: nat)
    ensures k <= |s|
    ensures forall i :: 0 <= i < k ==> s[i].score > e.score
    ensures k < |s| ==> s[k].score <= e.score
  {
    if s == [] || s[0].score <= e.score then 0 else 1 + InsertPoint(e, s[1..])
  }

  /** Insert e into a ranking, ahead of every entry that does not score higher. */
  function Insert(e: Scoring.Entry, s: seq<Scoring.Entry>): (r: seq<Scoring.Entry>)
    ensures multiset(r) == multiset(s) + multiset{e}
  {
    var k := InsertPoint(e, s);
    assert s == s[..k] + s[k..];
    s[..k] + [e] + s[k..]
  }

  /** Where each position of an insertion's result comes from. */
  lemma InsertAt(e: Scoring.Entry, s: seq<Scoring.Entry>, i: int)
    requires 0 <= i <= |s|
    ensures |Insert(e, s)| == |s| + 1
    ensures i < InsertPoint(e, s) ==> Insert(e, s)[i] == s[i]
    ensures i == InsertPoint(e, s) ==> Insert(e, s)[i] == e
    ensures i > InsertPoint(e, s) ==> Insert(e, s)[i] == s[i - 1]
  {
  }

  /** Inserting into a ranking yields a ranking. */
  lemma InsertKeepsOrder(e: Scoring.Entry, s: seq<Scoring.Entry>)
    requires NonIncreasing(s)
    ensures NonIncreasing(Insert(e, s))
  {
  }

  /** Inserting an entry with a new text into a dict's entries keeps the texts distinct. */
  lemma InsertKeepsTextsUnique(e: Scoring.Entry, s: seq<Scoring.Entry>)
    requires Scoring.UniqueTexts(s)
    requires forall i :: 0 <= i < |s| ==> s[i].text != e.text
    ensures Scoring.UniqueTexts(Insert(e, s))
  {
  }

  /** `sorted(..., key=score, reverse=True)` on the dict's entries. */
  function SortByScore(s: seq<Scoring.Entry>): (r: seq<Scoring.Entry>)
    ensures NonIncreasing(r)
    ensures multiset(r) == multiset(s)
    ensures forall x :: x in r <==> x in s
  {
    if s == [] then []
    else
      var rest := SortByScore(s[1..]);
      assert s == [s[0]] + s[1..];
      InsertKeepsOrder(s[0], rest);
      Insert(s[0], rest)
  }

  /** Sorting a dict's entries keeps their texts distinct. */
  lemma {:induction false} SortKeepsTextsUnique(s: seq<Scoring.Entry>)
    requires Scoring.UniqueTexts(s)
    ensures Scoring.UniqueTexts(SortByScore(s))
  {
    if s != [] {
      var rest := SortByScore(s[1..]);
      SortKeepsTextsUnique(s[1..]);
      forall i | 0 <= i < |rest|
        ensures rest[i].text != s[0].text
      {
        assert rest[i] in multiset(s[1..]);
        var p := Sequences.FirstIndex(s[1..], rest[i]);
        assert s[p + 1] == rest[i];
      }
      InsertKeepsTextsUnique(s[0], rest);
    }
  }

  /** Sorting neither adds nor drops a key. */
  lemma SortKeepsTexts(s: seq<Scoring.Entry>)
    ensures forall t :: t in Scoring.Texts(SortByScore(s)) <==> t in Scoring.Texts(s)
  {
    var r := SortByScore(s);
    var ts, rs := Scoring.Texts(s), Scoring.Texts(r);
    forall t
      ensures t in rs <==> t in ts
    {
      if t in rs {
        var i :| 0 <= i < |r| && rs[i] == t;
        assert r[i] in s;
        assert ts[Sequences.FirstIndex(s, r[i])] == t;
      }
      if t in ts {
        var p :| 0 <= p < |s| && ts[p] == t;
        assert s[p] in r;
        assert rs[Sequences.FirstIndex(r, s[p])] == t;
      }
    }
  }

  /** The insertion step of the sort keeps tied entries in input order: h is
      inserted into rest, the stably sorted tail t of the input. */
  lemma InsertKeepsTiesInOrder(s: seq<Scoring.Entry>, h: Scoring.Entry, t: seq<Scoring.Entry>, rest: seq<Scoring.Entry>, i: int, j: int)
    requires s == [h] + t
    requires forall x :: x in rest ==> x in t && x != h
    requires forall i, j :: (0 <= i < j < |rest| && rest[i].score == rest[j].score) ==>
               Sequences.FirstIndex(t, rest[i]) < Sequences.FirstIndex(t, rest[j])
    requires 0 <= i < j <= |rest|
    requires Insert(h, rest)[i].score == Insert(h, rest)[j].score
    ensures Insert(h, rest)[i] in s && Insert(h, rest)[j] in s
    ensures Sequences.FirstIndex(s, Insert(h, rest)[i]) < Sequences.FirstIndex(s, Insert(h, rest)[j])
  {
    var k := InsertPoint(h, rest);
    var r := Insert(h, rest);
    InsertAt(h, rest, i);
    InsertAt(h, rest, j);
    // Where each output position came from in the sorted tail.
    var i', j' := if i < k then i else i - 1, if j < k then j else j - 1;
    if i == k {
      assert r[i] == h && r[j] == rest[j'];
      Sequences.FirstIndexCons(h, t, r[j]);
    } else if j == k {
      assert false;
    } else {
      assert r[i] == rest[i'] && r[j] == rest[j'] && i' < j';
      Sequences.FirstIndexCons(h, t, r[i]);
      Sequences.FirstIndexCons(h, t, r[j]);
    }
  }

  /** The sorted tail of a dict's entries holds only tail entries, none of them the head. */
  lemma SortedTailAvoidsHead(s: seq<Scoring.Entry>)
    requires s != [] && Scoring.UniqueTexts(s)
    ensures forall x :: x in SortByScore(s[1..]) ==> x in s[1..] && x != s[0]
  {
    forall x | x in SortByScore(s[1..])
      ensures x in s[1..] && x != s[0]
    {
      var p := Sequences.FirstIndex(s[1..], x);
      assert s[p + 1] == x;
    }
  }

  /** The sort is stable: of two entries with equal scores, the one that came
      first in the input comes first in the output. */
  lemma {:induction false} SortByScoreIsStable(s: seq<Scoring.Entry>)
    requires Scoring.UniqueTexts(s)
    ensures forall i, j :: 0 <= i < j < |SortByScore(s)| && SortByScore(s)[i].score == SortByScore(s)[j].score ==>
              Sequences.FirstIndex(s, SortByScore(s)[i]) < Sequences.FirstIndex(s, SortByScore(s)[j])
  {
    if s != [] {
      var h, t := s[0], s[1..];
      SortByScoreIsStable(t);
      SortedTailAvoidsHead(s);
      assert s == [h] + t;
      forall i, j | 0 <= i < j < |SortByScore(s)| && SortByScore(s)[i].score == SortByScore(s)[j].score
        ensures Sequences.FirstIndex(s, SortByScore(s)[i]) < Sequences.FirstIndex(s, SortByScore(s)[j])
      {
        InsertKeepsTiesInOrder(s, h, t, SortByScore(t), i, j);
      }
    }
  }

  /** Scores 4, 4, 5 in dict order rank as third, first, second. */
  lemma RankingOfScores(s0: Scoring.Entry, s1: Scoring.Entry, s2: Scoring.Entry)
    requires s0.score == 4 && s1.score == 4 && s2.score == 5
    ensures SortByScore([s0, s1, s2]) == [s2, s0, s1]
  {
    SortStep([s2]);
    assert [s2][1..] == [] && Insert(s2, []) == [s2];
    SortStep([s1, s2]);
    assert [s1, s2][1..] == [s2];
    InsertBelow(s1, s2);
    SortStep([s0, s1, s2]);
    assert [s0, s1, s2][1..] == [s1, s2];
    InsertBetween(s0, s2, s1);
  }

  /** The top-2 cut of that ranking. */
  lemma TopTwoOfRanking(s0: Scoring.Entry, s1: Scoring.Entry, s2: Scoring.Entry)
    requires s0.score == 4 && s1.score == 4 && s2.score == 5
    ensures SliceTo(SortByScore([s0, s1, s2]), 2) == [s2, s0]
  {
    RankingOfScores(s0, s1, s2);
    FirstTwo(SortByScore([s0, s1, s2]));
  }

  /** The first two of three. */
  lemma FirstTwo<T>(s: seq<T>)
    requires |s| == 3
    ensures SliceTo(s, 2) == [s[0], s[1]]
  {
  }

  /** One step of the sort: the head is inserted into the sorted tail. */
  lemma SortStep(s: seq<Scoring.Entry>)
    requires s != []
    ensures SortByScore(s) == Insert(s[0], SortByScore(s[1..]))
  {
  }

  /** Inserting an entry that scores lower than the one entry present puts it last. */
  lemma InsertBelow(e: Scoring.Entry, a: Scoring.Entry)
    requires e.score < a.score
    ensures Insert(e, [a]) == [a, e]
  {
    assert [a][1..] == [];
    assert InsertPoint(e, [a]) == 1;
  }

  /** Inserting between a higher and an equal entry puts it ahead of the equal one. */
  lemma InsertBetween(e: Scoring.Entry, a: Scoring.Entry, b: Scoring.Entry)
    requires a.score > e.score && b.score == e.score
    ensures Insert(e, [a, b]) == [a, e, b]
  {
    assert [a, b][1..] == [b];
    assert InsertPoint(e, [a, b]) == 1;
    assert [a, b][..1] == [a] && [a, b][1..] == [b];
  }

  /** Python's `s[:n]`: the first n elements, or all but the last -n when n is negative. */
  function SliceTo<T>(s: seq<T>, n: int): (r: seq<T>)
    ensures |r| <= |s| && r == s[..|r|]
    ensures n >= 0 ==> |r| == if n < |s| then n else |s|
    ensures n < 0 ==> |r| == if -n < |s| then |s| + n else 0
  {
    if n >= 0 then (if n < |s| then s[..n] else s)
    else (if -n < |s| then s[..|s| + n] else [])
  }
}
