/** Shared vocabulary. */
module Common {

  datatype Option<+T> = None | Some(value: T)

  ghost predicate Distinct<T>(s: seq<T>) {
    forall a, b :: 0 <= a < b < |s| ==> s[a] != s[b]
  }

  lemma {:induction false} DistinctCount<T>(s: seq<T>, x: T)
    requires Distinct(s)
    ensures multiset(s)[x] == if x in s then 1 else 0
  {
    if s == [] {
    } else {
      var n := |s| - 1;
      assert s == s[..n] + [s[n]];
      DistinctCount(s[..n], x);
    }
  }

  lemma CountsDistinct<T>(s: seq<T>)
    requires forall x :: multiset(s)[x] <= 1
    ensures Distinct(s)
  {
    forall a, b | 0 <= a < b < |s| ensures s[a] != s[b] {
      var before := s[..b];
      assert s == before + [s[b]] + s[b + 1..];
      assert multiset(s)[s[b]] == multiset(before)[s[b]] + 1 + multiset(s[b + 1..])[s[b]];
      assert s[b] !in before;
      assert before[a] == s[a];
    }
  }

  lemma ProductNext(a: int, b: int)
    ensures (a + 1) * b == a * b + b
  {
  }
}
