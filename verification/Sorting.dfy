/** Python's `sorted` with a key: a stable sort by a total preorder. */
module Sorting {

  ghost predicate TotalPreorder<T(!new)>(le: (T, T) -> bool) {
    && (forall x, y :: le(x, y) || le(y, x))
    && (forall x, y, z :: le(x, y) && le(y, z) ==> le(x, z))
  }

  ghost predicate Sorted<T>(s: seq<T>, le: (T, T) -> bool) {
    forall i, j | 0 <= i < j < |s| :: le(s[i], s[j])
  }

  function Insert<T>(x: T, s: seq<T>, le: (T, T) -> bool): seq<T> {
    if s == [] || le(x, s[0]) then [x] + s else [s[0]] + Insert(x, s[1..], le)
  }

  function Sort<T>(s: seq<T>, le: (T, T) -> bool): seq<T> {
    if s == [] then [] else Insert(s[0], Sort(s[1..], le), le)
  }

  /** The elements of `s` that tie with `x`, in order. */
  function Ties<T>(s: seq<T>, x: T, le: (T, T) -> bool): seq<T> {
    if s == [] then []
    else (if le(s[0], x) && le(x, s[0]) then [s[0]] else []) + Ties(s[1..], x, le)
  }

  lemma {:induction false} InsertPermutes<T>(x: T, s: seq<T>, le: (T, T) -> bool)
    ensures multiset(Insert(x, s, le)) == multiset{x} + multiset(s)
    ensures |Insert(x, s, le)| == |s| + 1
  {
    if s == [] || le(x, s[0]) {
    } else {
      InsertPermutes(x, s[1..], le);
      assert s == [s[0]] + s[1..];
    }
  }

  lemma {:induction false} SortPermutes<T>(s: seq<T>, le: (T, T) -> bool)
    ensures multiset(Sort(s, le)) == multiset(s)
    ensures |Sort(s, le)| == |s|
  {
    if s != [] {
      SortPermutes(s[1..], le);
      InsertPermutes(s[0], Sort(s[1..], le), le);
      assert s == [s[0]] + s[1..];
    }
  }

  lemma {:induction false} SameElements<T>(s: seq<T>, t: seq<T>)
    requires multiset(s) == multiset(t)
    ensures forall x :: x in s <==> x in t
  {
    forall x
      ensures x in s <==> x in t
    {
      assert x in s <==> x in multiset(s);
      assert x in t <==> x in multiset(t);
    }
  }

  lemma {:induction false} InsertSorted<T(!new)>(x: T, s: seq<T>, le: (T, T) -> bool)
    requires TotalPreorder(le) && Sorted(s, le)
    ensures Sorted(Insert(x, s, le), le)
  {
    if s == [] {
    } else if le(x, s[0]) {
      forall j | 0 <= j < |s|
        ensures le(x, s[j])
      {
        assert j > 0 ==> le(s[0], s[j]);
      }
    } else {
      var rest := Insert(x, s[1..], le);
      InsertSorted(x, s[1..], le);
      InsertPermutes(x, s[1..], le);
      forall j | 0 <= j < |rest|
        ensures le(s[0], rest[j])
      {
        assert rest[j] in multiset(rest);
        if rest[j] != x {
          assert rest[j] in s[1..];
        }
      }
    }
  }

  lemma {:induction false} SortSorted<T(!new)>(s: seq<T>, le: (T, T) -> bool)
    requires TotalPreorder(le)
    ensures Sorted(Sort(s, le), le)
  {
    if s != [] {
      SortSorted(s[1..], le);
      InsertSorted(s[0], Sort(s[1..], le), le);
    }
  }

  /** `apart` holds of every two elements. */
  ghost predicate Pairwise<T>(s: seq<T>, apart: (T, T) -> bool) {
    forall i, j | 0 <= i < j < |s| :: apart(s[i], s[j])
  }

  lemma {:induction false} InsertPairwise<T(!new)>(x: T, s: seq<T>, le: (T, T) -> bool, apart: (T, T) -> bool)
    requires Pairwise(s, apart) && forall y | y in s :: apart(x, y) && apart(y, x)
    ensures Pairwise(Insert(x, s, le), apart)
  {
    if s == [] || le(x, s[0]) {
    } else {
      var rest := Insert(x, s[1..], le);
      InsertPairwise(x, s[1..], le, apart);
      InsertPermutes(x, s[1..], le);
      forall j | 0 <= j < |rest|
        ensures apart(s[0], rest[j])
      {
        assert rest[j] in multiset(rest);
        if rest[j] != x {
          assert rest[j] in s[1..];
        }
      }
    }
  }

  /** A symmetric relation between any two elements survives sorting. */
  lemma {:induction false} SortPairwise<T(!new)>(s: seq<T>, le: (T, T) -> bool, apart: (T, T) -> bool)
    requires Pairwise(s, apart) && forall x, y :: apart(x, y) ==> apart(y, x)
    ensures Pairwise(Sort(s, le), apart)
  {
    if s != [] {
      SortPairwise(s[1..], le, apart);
      SortPermutes(s[1..], le);
      SameElements(Sort(s[1..], le), s[1..]);
      forall y | y in s[1..]
        ensures apart(s[0], y) && apart(y, s[0])
      {
      }
      InsertPairwise(s[0], Sort(s[1..], le), le, apart);
    }
  }

  /** What is already in order stays where it is. */
  lemma {:induction false} SortedIsFixed<T(!new)>(s: seq<T>, le: (T, T) -> bool)
    requires Sorted(s, le)
    ensures Sort(s, le) == s
  {
    if s != [] {
      SortedIsFixed(s[1..], le);
      if |s| > 1 {
        assert le(s[0], s[1]);
      }
    }
  }

  lemma {:induction false} InsertTies<T(!new)>(x: T, s: seq<T>, y: T, le: (T, T) -> bool)
    requires TotalPreorder(le)
    ensures Ties(Insert(x, s, le), y, le) == Ties([x] + s, y, le)
  {
    assert ([x] + s)[1..] == s;
    if s == [] || le(x, s[0]) {
    } else {
      InsertTies(x, s[1..], y, le);
      var rest := Insert(x, s[1..], le);
      assert ([s[0]] + rest)[1..] == rest && ([x] + s[1..])[1..] == s[1..];
    }
  }

  /** Stability: tied elements keep their order. */
  lemma {:induction false} SortStable<T(!new)>(s: seq<T>, y: T, le: (T, T) -> bool)
    requires TotalPreorder(le)
    ensures Ties(Sort(s, le), y, le) == Ties(s, y, le)
  {
    if s != [] {
      SortStable(s[1..], y, le);
      InsertTies(s[0], Sort(s[1..], le), y, le);
      assert ([s[0]] + Sort(s[1..], le))[1..] == Sort(s[1..], le);
    }
  }

  lemma {:induction false} TieHead<T>(s: seq<T>, y: T, le: (T, T) -> bool) returns (head: seq<T>)
    requires s != []
    ensures head == if le(s[0], y) && le(y, s[0]) then [s[0]] else []
    ensures Ties(s, y, le) == head + Ties(s[1..], y, le)
  {
    head := if le(s[0], y) && le(y, s[0]) then [s[0]] else [];
  }

  lemma {:induction false} SameHead<T(!new)>(s: seq<T>, t: seq<T>, le: (T, T) -> bool)
    requires TotalPreorder(le) && Sorted(s, le) && Sorted(t, le) && s != [] && t != []
    requires multiset(s) == multiset(t)
    requires Ties(s, s[0], le) == Ties(t, s[0], le)
    ensures s[0] == t[0]
  {
    SameElements(s, t);
    assert t[0] in s && s[0] in t;
    var a :| 0 <= a < |s| && s[a] == t[0];
    var b :| 0 <= b < |t| && t[b] == s[0];
    assert le(s[0], s[0]) && le(t[0], t[0]);
    assert le(s[0], t[0]) && le(t[0], s[0]);
    var h := TieHead(s, s[0], le);
    var h' := TieHead(t, s[0], le);
    assert Ties(s, s[0], le)[0] == s[0] && Ties(t, s[0], le)[0] == t[0];
  }

  lemma {:induction false} SameTailTies<T>(s: seq<T>, t: seq<T>, y: T, le: (T, T) -> bool)
    requires s != [] && t != [] && s[0] == t[0] && Ties(s, y, le) == Ties(t, y, le)
    ensures Ties(s[1..], y, le) == Ties(t[1..], y, le)
  {
    var h := TieHead(s, y, le);
    var h' := TieHead(t, y, le);
    assert Ties(s, y, le)[|h|..] == Ties(s[1..], y, le);
    assert Ties(t, y, le)[|h|..] == Ties(t[1..], y, le);
  }

  lemma {:induction false} SameTailElements<T>(s: seq<T>, t: seq<T>)
    requires s != [] && t != [] && s[0] == t[0] && multiset(s) == multiset(t)
    ensures multiset(s[1..]) == multiset(t[1..])
  {
    assert s == [s[0]] + s[1..] && t == [t[0]] + t[1..];
    assert multiset(s[1..]) == multiset(s) - multiset{s[0]};
    assert multiset(t[1..]) == multiset(t) - multiset{t[0]};
  }

  /** Order and stability together leave no choice: any stable sort returns this sequence. */
  lemma {:induction false} StableSortIsUnique<T(!new)>(s: seq<T>, t: seq<T>, le: (T, T) -> bool)
    requires TotalPreorder(le) && Sorted(s, le) && Sorted(t, le)
    requires multiset(s) == multiset(t)
    requires forall y :: Ties(s, y, le) == Ties(t, y, le)
    ensures s == t
  {
    hide Ties, TotalPreorder;
    assert |multiset(s)| == |s| && |multiset(t)| == |t|;
    if s != [] {
      SameHead(s, t, le);
      SameTailElements(s, t);
      forall y
        ensures Ties(s[1..], y, le) == Ties(t[1..], y, le)
      {
        SameTailTies(s, t, y, le);
      }
      StableSortIsUnique(s[1..], t[1..], le);
      assert s == [s[0]] + s[1..] && t == [t[0]] + t[1..];
    }
  }
}
