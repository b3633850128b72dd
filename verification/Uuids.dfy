/** Fresh random identifiers: draws are repeated until one was never issued before. */
module Uuids {

  type Id = nat

  class UuidGenerator {
    var generated: set<Id>

    constructor ()
      ensures generated == {}
    {
      generated := {};
    }

    /**
     `draws` are the next values of the random source; the loop ends because one of them is
     new. The id returned is the first new one.
     */
    method NewUuid(draws: seq<Id>) returns (id: Id, used: nat)
      requires exists k :: 0 <= k < |draws| && draws[k] !in generated
      modifies this
      ensures id !in old(generated) && generated == old(generated) + {id}
      ensures used < |draws| && draws[used] == id && forall k :: 0 <= k < used ==> draws[k] in old(generated)
    {
      used := 0;
      while draws[used] in generated
        invariant used < |draws| && exists k :: used <= k < |draws| && draws[k] !in generated
        invariant forall k :: 0 <= k < used ==> draws[k] in generated
        decreases |draws| - used
      {
        used := used + 1;
      }
      id := draws[used];
      generated := generated + {id};
    }
  }
}
