/** Assembly of the summary (app.py, `" ".join(top_sentences)`). */
module Assembly {

  /** Python's `sep.join(parts)`. */
  function Join(parts: seq<string>, sep: string): (r: string)
    ensures parts == [] ==> r == ""
    ensures parts != [] ==> |parts[0]| <= |r| && r[..|parts[0]|] == parts[0]
  {
    if parts == [] then ""
    else if |parts| == 1 then parts[0]
    else parts[0] + sep + Join(parts[1..], sep)
  }

  /** Two parts join around one separator. */
  lemma JoinTwo(a: string, b: string, sep: string)
    ensures Join([a, b], sep) == a + sep + b
  {
    assert [a, b][1..] == [b];
  }

  /** Where part i starts in the joined string: every earlier part followed by one separator. */
  function Offset(parts: seq<string>, sep: string, i: nat): nat
    requires i <= |parts|
  {
    if i == 0 then 0 else |parts[0]| + |sep| + Offset(parts[1..], sep, i - 1)
  }

  /** A slice of the second half of a concatenation, read from the whole. */
  lemma SliceOfSuffix(a: string, b: string, lo: nat, hi: nat)
    requires lo <= hi <= |b|
    ensures (a + b)[|a| + lo..|a| + hi] == b[lo..hi]
  {
  }

  /** Part i sits at its offset in the joined string. */
  lemma {:induction false} JoinPartAt(parts: seq<string>, sep: string, i: nat)
    requires i < |parts|
    ensures Offset(parts, sep, i) + |parts[i]| <= |Join(parts, sep)|
    ensures Join(parts, sep)[Offset(parts, sep, i)..Offset(parts, sep, i) + |parts[i]|] == parts[i]
  {
    var j := Join(parts, sep);
    if i == 0 {
      if |parts| > 1 {
        assert j == parts[0] + (sep + Join(parts[1..], sep));
      }
      assert j[..|parts[0]|] == parts[0];
    } else {
      var rest := parts[1..];
      JoinPartAt(rest, sep, i - 1);
      assert rest[i - 1] == parts[i];
      var o := Offset(rest, sep, i - 1);
      assert j == (parts[0] + sep) + Join(rest, sep);
      SliceOfSuffix(parts[0] + sep, Join(rest, sep), o, o + |parts[i]|);
    }
  }

  /** Exactly one separator follows every part but the last, and the next part starts after it. */
  lemma {:induction false} JoinSeparatorAfter(parts: seq<string>, sep: string, i: nat)
    requires i + 1 < |parts|
    ensures Offset(parts, sep, i + 1) == Offset(parts, sep, i) + |parts[i]| + |sep|
    ensures Offset(parts, sep, i + 1) <= |Join(parts, sep)|
    ensures Join(parts, sep)[Offset(parts, sep, i) + |parts[i]|..Offset(parts, sep, i + 1)] == sep
  {
    var j := Join(parts, sep);
    var rest := parts[1..];
    assert j == (parts[0] + sep) + Join(rest, sep);
    if i == 0 {
      assert Offset(parts, sep, 1) == |parts[0]| + |sep|;
      assert j[|parts[0]|..|parts[0]| + |sep|] == sep;
    } else {
      JoinSeparatorAfter(rest, sep, i - 1);
      assert rest[i - 1] == parts[i];
      var o := Offset(rest, sep, i - 1) + |parts[i]|;
      assert Offset(parts, sep, i + 1) == |parts[0]| + |sep| + Offset(rest, sep, i);
      SliceOfSuffix(parts[0] + sep, Join(rest, sep), o, Offset(rest, sep, i));
    }
  }

  /** The last part ends the joined string. */
  lemma {:induction false} JoinLastPartEnds(parts: seq<string>, sep: string)
    requires parts != []
    ensures Offset(parts, sep, |parts| - 1) + |parts[|parts| - 1]| == |Join(parts, sep)|
  {
    if |parts| > 1 {
      var rest := parts[1..];
      JoinLastPartEnds(rest, sep);
      assert rest[|rest| - 1] == parts[|parts| - 1];
    }
  }

  /** The joined string splits back into the parts: part i sits at its offset,
      exactly one separator follows each part but the last, and the last part
      ends the string. */
  lemma JoinRecoversParts(parts: seq<string>, sep: string, i: nat)
    requires i < |parts|
    ensures Offset(parts, sep, i) + |parts[i]| <= |Join(parts, sep)|
    ensures Join(parts, sep)[Offset(parts, sep, i)..Offset(parts, sep, i) + |parts[i]|] == parts[i]
    ensures i + 1 < |parts| ==>
              Offset(parts, sep, i + 1) == Offset(parts, sep, i) + |parts[i]| + |sep| &&
              Offset(parts, sep, i + 1) <= |Join(parts, sep)| &&
              Join(parts, sep)[Offset(parts, sep, i) + |parts[i]|..Offset(parts, sep, i + 1)] == sep
    ensures i + 1 == |parts| ==> Offset(parts, sep, i) + |parts[i]| == |Join(parts, sep)|
  {
    JoinPartAt(parts, sep, i);
    if i + 1 < |parts| {
      JoinSeparatorAfter(parts, sep, i);
    } else {
      JoinLastPartEnds(parts, sep);
    }
  }
}
