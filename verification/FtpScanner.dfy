/** Fields separated by spaces (lib/ftp/scanner.go). */
module FtpScanner {
  import opened Texts

  predicate Spaces(s: string) {
    forall i :: 0 <= i < |s| ==> s[i] == ' '
  }

  predicate Field(s: string) {
    s != "" && Lacks(s, ' ')
  }

  // The first position from `pos` on that is not a space, or the end.
  function SkipSpaces(s: string, pos: nat): (r: nat)
    requires pos <= |s|
    ensures pos <= r <= |s|
    decreases |s| - pos
  {
    if pos < |s| && s[pos] == ' ' then SkipSpaces(s, pos + 1) else pos
  }

  function SkipField(s: string, pos: nat): (r: nat)
    requires pos <= |s|
    ensures pos <= r <= |s|
    decreases |s| - pos
  {
    if pos < |s| && s[pos] != ' ' then SkipField(s, pos + 1) else pos
  }

  // The next field and the position after it and after the one space that ends it.
  function NextField(s: string, pos: nat): (r: (string, nat))
    requires pos <= |s|
    ensures r.1 <= |s|
  {
    var start := SkipSpaces(s, pos);
    var end := SkipField(s, start);
    (s[start..end], if end < |s| then end + 1 else end)
  }

  function Fields(s: string, pos: nat, count: nat): (r: (seq<string>, nat))
    requires pos <= |s|
    ensures r.1 <= |s| && |r.0| <= count
    decreases count
  {
    if count == 0 then ([], pos)
    else
      var (field, next) := NextField(s, pos);
      if field == "" then ([], next)
      else
        var (rest, after) := Fields(s, next, count - 1);
        ([field] + rest, after)
  }

  class Scanner {
    const bytes: string
    var position: nat

    ghost predicate Valid()
      reads this
    {
      position <= |bytes|
    }

    constructor (str: string)
      ensures Valid() && bytes == str && position == 0
    {
      bytes, position := str, 0;
    }

    method Next() returns (field: string)
      requires Valid()
      modifies this`position
      ensures Valid() && (field, position) == NextField(bytes, old(position))
    {
      var sLen := |bytes|;
      while position < sLen
        invariant Valid() && SkipSpaces(bytes, position) == SkipSpaces(bytes, old(position))
      {
        if bytes[position] != ' ' {
          break;
        }
        position := position + 1;
      }
      var start := position;
      while position < sLen
        invariant start <= position <= sLen && SkipField(bytes, position) == SkipField(bytes, start)
      {
        if bytes[position] == ' ' {
          position := position + 1;
          return bytes[start..position - 1];
        }
        position := position + 1;
      }
      return bytes[start..position];
    }

    method NextFields(count: nat) returns (fields: seq<string>)
      requires Valid()
      modifies this`position
      ensures Valid() && (fields, position) == Fields(bytes, old(position), count)
    {
      fields := [];
      var i := 0;
      assert [] + Fields(bytes, position, count).0 == Fields(bytes, position, count).0;
      while i < count
        invariant i <= count && Valid() && |fields| == i
        invariant Fields(bytes, old(position), count)
                  == (fields + Fields(bytes, position, count - i).0, Fields(bytes, position, count - i).1)
      {
        ghost var from := position;
        var field := Next();
        if field == "" {
          assert fields + [] == fields;
          return;
        }
        ghost var rest := Fields(bytes, position, count - i - 1).0;
        assert fields + ([field] + rest) == fields + [field] + rest;
        fields := fields + [field];
        i := i + 1;
      }
      assert fields + [] == fields;
    }

    method Remaining() returns (rest: string)
      requires Valid()
      ensures rest == bytes[position..]
    {
      rest := bytes[position..];
    }
  }

  lemma {:induction false} SpacesSkipped(s: string, pos: nat, n: nat)
    requires pos + n <= |s| && Spaces(s[pos..pos + n])
    ensures SkipSpaces(s, pos) == SkipSpaces(s, pos + n)
    decreases n
  {
    if n > 0 {
      assert s[pos] == s[pos..pos + n][0];
      assert s[pos + 1..pos + n] == s[pos..pos + n][1..];
      SpacesSkipped(s, pos + 1, n - 1);
    }
  }

  lemma {:induction false} FieldSkipped(s: string, pos: nat, n: nat)
    requires pos + n <= |s| && Lacks(s[pos..pos + n], ' ')
    ensures SkipField(s, pos) == SkipField(s, pos + n)
    decreases n
  {
    if n > 0 {
      assert s[pos] == s[pos..pos + n][0];
      assert s[pos + 1..pos + n] == s[pos..pos + n][1..];
      FieldSkipped(s, pos + 1, n - 1);
    }
  }

  lemma HeadAndTail(s: string, pos: nat, head: string, tail: string)
    requires pos <= |s| && s[pos..] == head + tail
    ensures pos + |head| <= |s| && s[pos..pos + |head|] == head && s[pos + |head|..] == tail
    ensures forall i :: 0 <= i < |head| ==> s[pos + i] == head[i]
  {
    assert s[pos..pos + |head|] == s[pos..][..|head|];
    assert s[pos + |head|..] == s[pos..][|head|..];
    assert forall i :: 0 <= i < |head| ==> s[pos + i] == s[pos..][i];
  }

  // Any padding before a field is skipped, and exactly one space after it.
  lemma PaddedField(s: string, pos: nat, pad: string, field: string, after: string)
    requires Spaces(pad) && Field(field)
    requires pos <= |s| && s[pos..] == pad + field + " " + after
    ensures NextField(s, pos) == (field, pos + |pad| + |field| + 1)
    ensures pos + |pad| + |field| + 1 <= |s| && s[pos + |pad| + |field| + 1..] == after
  {
    hide SkipSpaces, SkipField, Spaces, Lacks;
    var start := pos + |pad|;
    var end := start + |field|;
    assert pad + field + " " + after == pad + (field + (" " + after));
    HeadAndTail(s, pos, pad, field + (" " + after));
    HeadAndTail(s, start, field, " " + after);
    HeadAndTail(s, end, " ", after);
    assert s[start] == field[0];
    LacksHead(field);
    SpacesSkipped(s, pos, |pad|);
    FieldSkipped(s, start, |field|);
    SpacesStop(s, start);
    FieldStop(s, end);
  }

  lemma SpacesStop(s: string, pos: nat)
    requires pos < |s| && s[pos] != ' '
    ensures SkipSpaces(s, pos) == pos
  {
  }

  lemma FieldStop(s: string, pos: nat)
    requires pos < |s| && s[pos] == ' '
    ensures SkipField(s, pos) == pos
  {
  }

  lemma LacksHead(field: string)
    requires Field(field)
    ensures field[0] != ' '
  {
  }

  // A line of padded fields, each followed by one space.
  function Padded(pads: seq<string>, fields: seq<string>): string
    requires |pads| == |fields|
  {
    if fields == [] then "" else pads[0] + fields[0] + " " + Padded(pads[1..], fields[1..])
  }

  // Scanning gives back the fields, and what remains is the tail, its own leading spaces included.
  lemma {:induction false} FieldsOfPadded(s: string, pos: nat, pads: seq<string>, fields: seq<string>, tail: string)
    requires |pads| == |fields|
    requires forall i :: 0 <= i < |fields| ==> Spaces(pads[i]) && Field(fields[i])
    requires pos <= |s| && s[pos..] == Padded(pads, fields) + tail
    ensures var (found, next) := Fields(s, pos, |fields|);
            found == fields && s[next..] == tail
    decreases |fields|
  {
    hide NextField, Fields, Spaces, Field;
    if fields == [] {
      NoFields(s, pos);
      assert "" + tail == tail;
    } else {
      var rest := Padded(pads[1..], fields[1..]);
      var next := pos + |pads[0]| + |fields[0]| + 1;
      assert s[pos..] == pads[0] + fields[0] + " " + (rest + tail);
      PaddedField(s, pos, pads[0], fields[0], rest + tail);
      FieldsOfPadded(s, next, pads[1..], fields[1..], tail);
      NotEmpty(fields[0]);
      FieldThenRest(s, pos, |fields|);
      assert fields == [fields[0]] + fields[1..];
    }
  }

  lemma NotEmpty(field: string)
    requires Field(field)
    ensures field != ""
  {
  }

  lemma NoFields(s: string, pos: nat)
    requires pos <= |s|
    ensures Fields(s, pos, 0) == ([], pos)
  {
  }

  lemma FieldThenRest(s: string, pos: nat, count: nat)
    requires pos <= |s| && count > 0 && NextField(s, pos).0 != ""
    ensures var (field, next) := NextField(s, pos); var (rest, after) := Fields(s, next, count - 1);
            Fields(s, pos, count) == ([field] + rest, after)
  {
  }

  // Reading in two goes is reading at once.
  lemma {:induction false} FieldsSplit(s: string, pos: nat, a: nat, b: nat)
    requires pos <= |s|
    ensures var (first, mid) := Fields(s, pos, a); var (rest, end) := Fields(s, mid, b);
            Fields(s, pos, a + b) == if |first| == a then (first + rest, end) else (first, mid)
    decreases a
  {
    hide NextField, Fields;
    var (rest, end) := Fields(s, Fields(s, pos, a).1, b);
    if a == 0 {
      NoFields(s, pos);
      assert [] + rest == rest;
    } else {
      var (field, next) := NextField(s, pos);
      if field != "" {
        FieldsSplit(s, next, a - 1, b);
        FieldThenRest(s, pos, a);
        FieldThenRest(s, pos, a + b);
        assert [field] + (Fields(s, next, a - 1).0 + rest) == [field] + Fields(s, next, a - 1).0 + rest;
      } else {
        FieldsEnd(s, pos, a);
        FieldsEnd(s, pos, a + b);
      }
    }
  }

  lemma FieldsEnd(s: string, pos: nat, count: nat)
    requires pos <= |s| && count > 0 && NextField(s, pos).0 == ""
    ensures Fields(s, pos, count) == ([], NextField(s, pos).1)
  {
  }

  lemma {:induction false} SameSpaces(s: string, pos: nat, t: string, q: nat)
    requires pos <= |s| && q <= |t| && s[pos..] == t[q..]
    ensures SkipSpaces(s, pos) - pos == SkipSpaces(t, q) - q
    decreases |s| - pos
  {
    if pos < |s| {
      assert s[pos] == s[pos..][0] && t[q] == t[q..][0];
      assert s[pos + 1..] == s[pos..][1..] && t[q + 1..] == t[q..][1..];
      SameSpaces(s, pos + 1, t, q + 1);
    }
  }

  lemma {:induction false} SameField(s: string, pos: nat, t: string, q: nat)
    requires pos <= |s| && q <= |t| && s[pos..] == t[q..]
    ensures SkipField(s, pos) - pos == SkipField(t, q) - q
    decreases |s| - pos
  {
    if pos < |s| {
      assert s[pos] == s[pos..][0] && t[q] == t[q..][0];
      assert s[pos + 1..] == s[pos..][1..] && t[q + 1..] == t[q..][1..];
      SameField(s, pos + 1, t, q + 1);
    }
  }

  lemma SameNext(s: string, pos: nat, t: string, q: nat)
    requires pos <= |s| && q <= |t| && s[pos..] == t[q..]
    ensures NextField(s, pos).0 == NextField(t, q).0
    ensures NextField(s, pos).1 - pos == NextField(t, q).1 - q
    ensures s[NextField(s, pos).1..] == t[NextField(t, q).1..]
  {
    hide SkipSpaces, SkipField;
    var n := SkipSpaces(s, pos) - pos;
    SameSpaces(s, pos, t, q);
    assert s[pos + n..] == s[pos..][n..] && t[q + n..] == t[q..][n..];
    SameField(s, pos + n, t, q + n);
    var m := SkipField(s, pos + n) - pos;
    assert s[pos + n..pos + m] == s[pos..][n..m] && t[q + n..q + m] == t[q..][n..m];
    assert |s| - pos == |s[pos..]| == |t[q..]| == |t| - q;
    var e := NextField(s, pos).1 - pos;
    assert s[pos + e..] == s[pos..][e..] && t[q + e..] == t[q..][e..];
  }

  // What the scanner finds depends only on the text ahead.
  lemma {:induction false} SameFields(s: string, pos: nat, t: string, q: nat, count: nat)
    requires pos <= |s| && q <= |t| && s[pos..] == t[q..]
    ensures Fields(s, pos, count).0 == Fields(t, q, count).0
    decreases count
  {
    hide NextField;
    if count > 0 {
      SameNext(s, pos, t, q);
      SameFields(s, NextField(s, pos).1, t, NextField(t, q).1, count - 1);
    }
  }

  // Leading spaces make no difference.
  lemma LeadingSpaces(pad: string, text: string, count: nat)
    requires Spaces(pad)
    ensures Fields(pad + text, 0, count).0 == Fields(text, 0, count).0
  {
    hide SkipSpaces, SkipField;
    var s := pad + text;
    assert s[0..|pad|] == pad && s[|pad|..] == text[0..];
    SpacesSkipped(s, 0, |pad|);
    FieldsAhead(s, 0, |pad|, count);
    SameFields(s, |pad|, text, 0, count);
  }

  lemma FieldsAhead(s: string, pos: nat, later: nat, count: nat)
    requires pos <= later <= |s| && SkipSpaces(s, pos) == SkipSpaces(s, later)
    ensures Fields(s, pos, count).0 == Fields(s, later, count).0
  {
  }
}
