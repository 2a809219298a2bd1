module Options {
  datatype Option<+T> = None | Some(value: T)

  // The elements of a sequence without repetitions, seen as a set.
  ghost function Elements<T>(s: seq<T>): set<T> {
    set x | x in s
  }

  ghost predicate Distinct<T>(s: seq<T>) {
    forall i, j :: 0 <= i < j < |s| ==> s[i] != s[j]
  }

  // An enumeration of a set, as iterating over a Go map yields one: any order, each key once.
  ghost predicate Enumerates<T>(s: seq<T>, elements: set<T>) {
    Distinct(s) && Elements(s) == elements
  }

  lemma {:induction false} EnumerationExists<T>(elements: set<T>) returns (s: seq<T>)
    ensures Enumerates(s, elements)
    decreases elements
  {
    if elements == {} {
      s := [];
    } else {
      var x :| x in elements;
      var rest := EnumerationExists(elements - {x});
      s := [x] + rest;
      assert Elements(s) == {x} + Elements(rest);
    }
  }

  lemma {:induction false} DistinctSize<T>(s: seq<T>)
    requires Distinct(s)
    ensures |Elements(s)| == |s|
  {
    if s != [] {
      var front, last := s[..|s| - 1], s[|s| - 1];
      DistinctSize(front);
      assert s == front + [last] && last !in front;
      assert Elements(s) == Elements(front) + {last};
    }
  }

  lemma Concatenated<T>(a: seq<T>, b: seq<T>)
    ensures Elements(a + b) == Elements(a) + Elements(b)
    ensures Distinct(a) && Distinct(b) && Elements(a) !! Elements(b) ==> Distinct(a + b)
  {
    forall x
      ensures x in Elements(a + b) <==> x in Elements(a) || x in Elements(b)
    {
      assert x in a + b <==> x in a || x in b;
    }
    if Distinct(a) && Distinct(b) && Elements(a) !! Elements(b) {
      forall i, j | 0 <= i < j < |a + b|
        ensures (a + b)[i] != (a + b)[j]
      {
        if i < |a| <= j {
          assert a[i] in Elements(a) && b[j - |a|] in Elements(b);
        }
      }
    }
  }

  lemma {:induction false} SubsetSize<T>(a: set<T>, b: set<T>)
    requires a <= b
    ensures |a| <= |b|
    decreases a
  {
    if a != {} {
      var y :| y in a;
      SubsetSize(a - {y}, b - {y});
    }
  }
}
