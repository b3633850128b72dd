/** What nested counting loops visit: `Flat(n, f)` lists what iterations 0 to n - 1 list, in order. */
module Loops {

  import opened Common

  function Flat<T>(n: nat, f: nat -> seq<T>): seq<T> {
    if n == 0 then [] else Flat(n - 1, f) + f(n - 1)
  }

  /** Exactly the elements some iteration lists. */
  lemma {:induction false} FlatMember<T>(n: nat, f: nat -> seq<T>, x: T)
    ensures x in Flat(n, f) <==> exists k: nat :: k < n && x in f(k)
  {
    if n == 0 {
    } else {
      FlatMember(n - 1, f, x);
    }
  }

  ghost predicate Apart<T>(s: seq<T>, t: seq<T>) {
    forall a, b :: 0 <= a < |s| && 0 <= b < |t| ==> s[a] != t[b]
  }

  /** Iterations that list no element twice and share none list no element twice together. */
  lemma {:induction false} FlatDistinct<T>(n: nat, f: nat -> seq<T>)
    requires forall k: nat :: k < n ==> Distinct(f(k))
    requires forall k: nat, l: nat :: k < l < n ==> Apart(f(k), f(l))
    ensures Distinct(Flat(n, f))
  {
    if n == 0 {
    } else {
      FlatDistinct(n - 1, f);
      var a, b := Flat(n - 1, f), f(n - 1);
      forall x | x in a ensures x !in b {
        FlatMember(n - 1, f, x);
        var k: nat :| k < n - 1 && x in f(k);
        assert Apart(f(k), f(n - 1));
      }
      AppendDistinct(a, b);
    }
  }

  lemma AppendDistinct<T>(a: seq<T>, b: seq<T>)
    requires Distinct(a) && Distinct(b) && forall x :: x in a ==> x !in b
    ensures Distinct(a + b)
  {
    var c := a + b;
    forall i, j | 0 <= i < j < |c| ensures c[i] != c[j] {
      if i < |a| <= j {
        assert c[i] in a && c[j] == b[j - |a|] && b[j - |a|] in b;
      }
    }
  }
}
