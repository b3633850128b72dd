/** Type-list metafunctions: duplicate-free component lists of aspects and archetypes. */
module TypeSets {
  import opened Common

  type TypeName = string

  predicate IsInTuple(t: TypeName, ts: seq<TypeName>) {
    if ts == [] then false else ts[0] == t || IsInTuple(t, ts[1..])
  }

  function AddIfAbsent(t: TypeName, ts: seq<TypeName>): seq<TypeName> {
    if IsInTuple(t, ts) then ts else ts + [t]
  }

  function TypeSet(ts: seq<TypeName>): seq<TypeName> {
    if ts == [] then [] else AddIfAbsent(ts[0], TypeSet(ts[1..]))
  }

  function TupConcat(tuples: seq<seq<TypeName>>): seq<TypeName>
    decreases |tuples|
  {
    if |tuples| == 0 then []
    else if |tuples| == 1 then tuples[0]
    else TupConcat([tuples[0] + tuples[1]] + tuples[2..])
  }

  /** Own components, and the aspects whose components are included. */
  datatype Aspect = Aspect(comps: seq<TypeName>, aspects: seq<Aspect>)

  function AllComponents(a: Aspect): seq<TypeName> {
    TypeSet(TupConcat([TupConcat(AllOf(a.aspects)), a.comps]))
  }

  function AllOf(aspects: seq<Aspect>): (r: seq<seq<TypeName>>)
    ensures |r| == |aspects|
  {
    if aspects == [] then [] else [AllComponents(aspects[0])] + AllOf(aspects[1..])
  }

  const BASE_COMPONENTS: seq<TypeName> := ["EntityStatus", "ChunkPos"]

  function ArchComponents(a: Aspect): seq<TypeName> {
    TypeSet(TupConcat([BASE_COMPONENTS, AllComponents(a)]))
  }

  lemma {:induction false} IsInTupleIff(t: TypeName, ts: seq<TypeName>)
    ensures IsInTuple(t, ts) <==> t in ts
  {
    if ts == [] {
    } else {
      IsInTupleIff(t, ts[1..]);
      assert ts == [ts[0]] + ts[1..];
    }
  }

  /** A type set has the members of its argument, each once. */
  lemma {:induction false} TypeSetIsSet(ts: seq<TypeName>)
    ensures Distinct(TypeSet(ts)) && forall t :: t in TypeSet(ts) <==> t in ts
  {
    if ts == [] {
    } else {
      TypeSetIsSet(ts[1..]);
      IsInTupleIff(ts[0], TypeSet(ts[1..]));
      assert ts == [ts[0]] + ts[1..];
    }
  }

  function Reverse(ts: seq<TypeName>): seq<TypeName> {
    if ts == [] then [] else Reverse(ts[1..]) + [ts[0]]
  }

  /** Keeps the last occurrence of each type. */
  function KeepLast(ts: seq<TypeName>): seq<TypeName> {
    if ts == [] then [] else if ts[0] in ts[1..] then KeepLast(ts[1..]) else [ts[0]] + KeepLast(ts[1..])
  }

  /** The order of a type set: last occurrences, reversed. */
  lemma {:induction false} TypeSetOrder(ts: seq<TypeName>)
    ensures TypeSet(ts) == Reverse(KeepLast(ts))
  {
    if ts == [] {
    } else {
      TypeSetOrder(ts[1..]);
      TypeSetIsSet(ts[1..]);
      IsInTupleIff(ts[0], TypeSet(ts[1..]));
    }
  }

  /** On a list without repeats a type set is the reversal, so forming it twice restores the list. */
  lemma {:induction false} TypeSetReverses(ts: seq<TypeName>)
    requires Distinct(ts)
    ensures KeepLast(ts) == ts && TypeSet(ts) == Reverse(ts)
  {
    TypeSetOrder(ts);
    if ts == [] {
    } else {
      TypeSetReverses(ts[1..]);
    }
  }

  lemma {:induction false} TupConcatMember(tuples: seq<seq<TypeName>>, t: TypeName)
    ensures t in TupConcat(tuples) <==> exists k :: 0 <= k < |tuples| && t in tuples[k]
    decreases |tuples|
  {
    if |tuples| >= 2 {
      var m := [tuples[0] + tuples[1]] + tuples[2..];
      TupConcatMember(m, t);
      if k :| 0 <= k < |m| && t in m[k] {
        assert k == 0 ==> t in tuples[0] || t in tuples[1];
        assert k > 0 ==> t in tuples[k + 1];
      }
      if k :| 0 <= k < |tuples| && t in tuples[k] {
        assert k < 2 ==> t in m[0];
        assert k >= 2 ==> t in m[k - 1];
      }
    }
  }

  /** The tuples one after the other, from the left. */
  function Joined(tuples: seq<seq<TypeName>>): seq<TypeName> {
    if tuples == [] then [] else tuples[0] + Joined(tuples[1..])
  }

  /** Folding pairs from the left keeps the order of the tuples and of their members, repeats included. */
  lemma {:induction false} TupConcatOrder(tuples: seq<seq<TypeName>>)
    ensures TupConcat(tuples) == Joined(tuples)
    decreases |tuples|
  {
    if |tuples| == 0 {
    } else if |tuples| == 1 {
      assert tuples[1..] == [];
      assert tuples[0] + [] == tuples[0];
    } else {
      var (a, b, rest) := (tuples[0], tuples[1], tuples[2..]);
      TupConcatOrder([a + b] + rest);
      assert ([a + b] + rest)[1..] == rest && tuples[1..][1..] == rest;
      assert a + b + Joined(rest) == a + (b + Joined(rest));
    }
  }

  /** The component is listed by the aspect or by one nested at any depth. */
  predicate Lists(a: Aspect, t: TypeName) {
    t in a.comps || AnyLists(a.aspects, t)
  }

  predicate AnyLists(aspects: seq<Aspect>, t: TypeName) {
    if aspects == [] then false else Lists(aspects[0], t) || AnyLists(aspects[1..], t)
  }

  /** An aspect's components are the union over all nested aspects. */
  lemma {:induction false} AllComponentsUnion(a: Aspect, t: TypeName)
    ensures t in AllComponents(a) <==> Lists(a, t)
    ensures Distinct(AllComponents(a))
    decreases a, 1
  {
    var flat := TupConcat(AllOf(a.aspects));
    var both := [flat, a.comps];
    TypeSetIsSet(TupConcat(both));
    TupConcatMember(both, t);
    TupConcatMember(AllOf(a.aspects), t);
    AllOfUnion(a.aspects, t);
    assert InSome(AllOf(a.aspects), t) <==> t in flat;
    assert t in both[0] || t in both[1] <==> exists k :: 0 <= k < |both| && t in both[k];
  }

  ghost predicate InSome(rs: seq<seq<TypeName>>, t: TypeName) {
    exists k :: 0 <= k < |rs| && t in rs[k]
  }

  lemma InSomeCons(r: seq<TypeName>, rs: seq<seq<TypeName>>, t: TypeName)
    ensures InSome([r] + rs, t) <==> t in r || InSome(rs, t)
  {
    var all := [r] + rs;
    if t in r { assert t in all[0]; }
    if k :| 0 <= k < |rs| && t in rs[k] { assert t in all[k + 1]; }
    if k :| 0 <= k < |all| && t in all[k] { assert k > 0 ==> t in rs[k - 1]; }
  }

  lemma {:induction false} AllOfUnion(aspects: seq<Aspect>, t: TypeName)
    ensures InSome(AllOf(aspects), t) <==> AnyLists(aspects, t)
    decreases aspects, 0
  {
    if aspects == [] {
    } else {
      AllComponentsUnion(aspects[0], t);
      AllOfUnion(aspects[1..], t);
      InSomeCons(AllComponents(aspects[0]), AllOf(aspects[1..]), t);
    }
  }

  /** An archetype's components are those of its aspect and the two base components, without repeats. */
  lemma ArchComponentsUnion(a: Aspect, t: TypeName)
    ensures t in ArchComponents(a) <==> t in BASE_COMPONENTS || Lists(a, t)
    ensures Distinct(ArchComponents(a))
  {
    var both := [BASE_COMPONENTS, AllComponents(a)];
    TypeSetIsSet(TupConcat(both));
    TupConcatMember(both, t);
    AllComponentsUnion(a, t);
    assert t in both[0] || t in both[1] <==> exists k :: 0 <= k < |both| && t in both[k];
  }
}
