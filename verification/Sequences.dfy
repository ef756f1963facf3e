/** Sequences without repetition. */
module Sequences {
  lemma {:induction false} Once<T>(s: seq<T>, x: T)
    requires forall j, k :: 0 <= j < k < |s| ==> s[j] != s[k]
    ensures multiset(s)[x] == if x in s then 1 else 0
  {
    if s != [] {
      assert s == [s[0]] + s[1..];
      Once(s[1..], x);
    }
  }
}
