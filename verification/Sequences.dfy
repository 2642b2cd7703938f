/** Stretches of a sequence. */
module Sequences {
  lemma {:induction false} SliceOfSlice<T>(s: seq<T>, from: nat, to: nat, a: nat, b: nat)
    requires from <= to <= |s| && a <= b <= to - from
    ensures s[from..to][a..b] == s[from+a..from+b]
  {
    var part := s[from..to];
    assert forall k | a <= k < b :: part[k] == s[from+k];
    assert part[a..b] == s[from+a..from+b];
  }

  lemma {:induction false} ConcatAssociates<T>(a: seq<T>, b: seq<T>, c: seq<T>)
    ensures (a + b) + c == a + (b + c)
  {
  }
}
