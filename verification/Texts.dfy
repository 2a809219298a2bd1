/** The few functions of Go's `strings` package that the FTP client uses, on single-byte text. */
module Texts {

  predicate Lacks(s: string, c: char) {
    forall i :: 0 <= i < |s| ==> s[i] != c
  }

  // strings.Split for a one-character separator.
  function Split(s: string, sep: char): (parts: seq<string>)
    ensures |parts| >= 1
  {
    if s == "" then [""]
    else
      var rest := Split(s[1..], sep);
      if s[0] == sep then [""] + rest else [[s[0]] + rest[0]] + rest[1..]
  }

  // strings.Index for one character.
  function IndexByte(s: string, c: char): (i: int)
    ensures -1 <= i < |s|
    ensures i >= 0 ==> s[i] == c && Lacks(s[..i], c)
    ensures i < 0 <==> Lacks(s, c)
  {
    if s == "" then -1
    else if s[0] == c then 0
    else
      var i := IndexByte(s[1..], c);
      if i < 0 then -1 else i + 1
  }

  predicate OccursAt(s: string, sub: string, i: int) {
    0 <= i <= |s| - |sub| && s[i..i + |sub|] == sub
  }

  // strings.Index: the first occurrence.
  function Index(s: string, sub: string): (i: int)
    ensures i >= 0 ==> OccursAt(s, sub, i) && forall j :: 0 <= j < i ==> !OccursAt(s, sub, j)
    ensures i < 0 ==> i == -1 && forall j :: !OccursAt(s, sub, j)
  {
    IndexFrom(s, sub, 0)
  }

  function IndexFrom(s: string, sub: string, from: nat): (i: int)
    requires forall j :: 0 <= j < from ==> !OccursAt(s, sub, j)
    ensures i >= 0 ==> OccursAt(s, sub, i) && forall j :: 0 <= j < i ==> !OccursAt(s, sub, j)
    ensures i < 0 ==> i == -1 && forall j :: !OccursAt(s, sub, j)
    decreases |s| - from
  {
    if OccursAt(s, sub, from) then from
    else if from >= |s| then -1
    else IndexFrom(s, sub, from + 1)
  }

  lemma {:induction false} SplitWhole(s: string, sep: char)
    requires Lacks(s, sep)
    ensures Split(s, sep) == [s]
  {
    if s != "" {
      SplitWhole(s[1..], sep);
      assert [s[0]] + s[1..] == s;
    }
  }

  lemma PiecesOf(s: string, sep: char)
    requires s != ""
    ensures var rest := Split(s[1..], sep);
            Split(s, sep) == if s[0] == sep then [""] + rest else [[s[0]] + rest[0]] + rest[1..]
  {
  }

  // A separator between two texts splits them apart.
  lemma {:induction false} SplitJoin(a: string, b: string, sep: char)
    ensures Split(a + [sep] + b, sep) == Split(a, sep) + Split(b, sep)
  {
    hide Split;
    var s := a + [sep] + b;
    PiecesOf(s, sep);
    if a == "" {
      SplitWhole("", sep);
      assert s[1..] == b;
    } else {
      PiecesOf(a, sep);
      SplitJoin(a[1..], b, sep);
      assert s[0] == a[0] && s[1..] == a[1..] + [sep] + b;
      PrefixedParts(Split(a[1..], sep), Split(b, sep), a[0]);
    }
  }

  lemma PrefixedParts(parts: seq<string>, more: seq<string>, c: char)
    requires parts != []
    ensures [""] + (parts + more) == [""] + parts + more
    ensures [[c] + (parts + more)[0]] + (parts + more)[1..] == [[c] + parts[0]] + parts[1..] + more
  {
    assert (parts + more)[1..] == parts[1..] + more;
  }
}
