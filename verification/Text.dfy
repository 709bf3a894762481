/** Byte strings: every char stands for one byte. */
module Text {

  /** bytes.IndexByte, with |s| for "not found". */
  function IndexOf(s: string, c: char): (i: nat)
    ensures i <= |s|
    ensures i < |s| ==> s[i] == c
    ensures c !in s[..i]
  {
    if s == [] then 0
    else if s[0] == c then 0
    else
      var i := 1 + IndexOf(s[1..], c);
      assert s[..i] == [s[0]] + s[1..][..i - 1];
      i
  }

  /** bytes.Cut around the first separator. */
  function Cut(s: string, sep: char): (r: (string, string, bool))
    ensures r.2 <==> sep in s
    ensures r.2 ==> s == r.0 + [sep] + r.1 && sep !in r.0
    ensures !r.2 ==> r.0 == s && r.1 == ""
  {
    var i := IndexOf(s, sep);
    if i < |s| then (s[..i], s[i + 1..], true)
    else
      assert s[..i] == s;
      (s, "", false)
  }

  /** A text has one first separator: any way of writing it around one is what Cut finds. */
  lemma CutAt(before: string, sep: char, after: string)
    requires sep !in before
    ensures Cut(before + [sep] + after, sep) == (before, after, true)
  {
    var s := before + [sep] + after;
    var (a, b, ok) := Cut(s, sep);
    assert s[|before|] == sep;
    assert |a| >= |before| by {
      assert s[|a|] == sep;
      assert forall i :: 0 <= i < |before| ==> s[i] == before[i];
    }
    assert |a| <= |before| by {
      assert forall i :: 0 <= i < |a| ==> s[i] == a[i];
    }
    assert s[..|a|] == a && s[..|a|] == before;
    assert s[|a| + 1..] == b && s[|a| + 1..] == after;
  }
}
