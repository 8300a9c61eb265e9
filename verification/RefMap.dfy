/** The map of references from objects to the objects that consume them: which Secrets are used by which
    Ingresses.  What it represents is a relation between consumers and references. */
module RefMap {
  import opened Basics
  import opened Strings

  type Pair = (string, string)

  class ObjectRefMap {
    var v: map<string, set<string>>

    /** No reference is kept without a consumer. */
    ghost predicate Valid()
      reads this
    {
      forall r | r in v :: v[r] != {}
    }

    /** The pairs (consumer, reference) that the map represents. */
    ghost function Rel(): (rel: set<Pair>)
      reads this
      ensures forall c, r :: (c, r) in rel <==> r in v && c in v[r]
    {
      set r, c | r in v && c in v[r] :: (c, r)
    }

    constructor ()
      ensures Valid() && Rel() == {}
    {
      v := map[];
    }

    /** Relates the consumer to every one of the references. */
    method Insert(consumer: string, refs: seq<string>)
      requires Valid()
      modifies this
      ensures Valid()
      ensures Rel() == old(Rel()) + set r | r in refs :: (consumer, r)
    {
      for i := 0 to |refs|
        invariant Valid()
        invariant forall c, r :: (c, r) in Rel() <==> (c, r) in old(Rel()) || (c == consumer && r in refs[..i])
      {
        var r := refs[i];
        assert refs[..i + 1] == refs[..i] + [r];
        if r !in v {
          v := v[r := {consumer}];
        } else {
          v := v[r := v[r] + {consumer}];
        }
      }
      assert refs[..|refs|] == refs;
    }

    /** Forgets whatever the consumer was related to; the map is walked in an arbitrary order. */
    method Delete(consumer: string)
      requires Valid()
      modifies this
      ensures Valid()
      ensures Rel() == set p | p in old(Rel()) && p.0 != consumer
    {
      var left := v.Keys;
      while left != {}
        invariant left <= v.Keys
        invariant forall r | r in v :: r in old(v) && v[r] != {}
        invariant forall r | r in left :: v[r] == old(v)[r]
        invariant forall r | r in old(v) && r !in left ::
                    if r in v then v[r] == old(v)[r] - {consumer} else old(v)[r] <= {consumer}
        decreases left
      {
        var ref :| ref in left;
        left := left - {ref};
        v := v[ref := v[ref] - {consumer}];
        if v[ref] == {} {
          v := v - {ref};
        }
      }
      DeletedFrom(old(v), consumer);
    }

    /** The map after a deletion, entry by entry, represents the relation without the consumer. */
    lemma DeletedFrom(before: map<string, set<string>>, consumer: string)
      requires forall r | r in v :: r in before
      requires forall r | r in before :: if r in v then v[r] == before[r] - {consumer} else before[r] <= {consumer}
      ensures forall c, r :: (c, r) in Rel() <==> r in before && c in before[r] && c != consumer
    {
    }

    /** How many references have a consumer. */
    method Len() returns (n: nat)
      requires Valid()
      ensures n == |set p | p in Rel() :: p.1|
    {
      n := |v.Keys|;
      assert v.Keys == set p | p in Rel() :: p.1 by {
        forall r | r in v ensures r in set p | p in Rel() :: p.1 {
          var c :| c in v[r];
          assert (c, r) in Rel();
        }
      }
    }

    /** Whether the reference has a consumer. */
    method Has(ref: string) returns (b: bool)
      requires Valid()
      ensures b <==> exists c :: (c, ref) in Rel()
    {
      b := ref in v;
      if b {
        var c :| c in v[ref];
        assert (c, ref) in Rel();
      }
    }

    method HasConsumer(consumer: string) returns (b: bool)
      ensures b <==> exists r :: (consumer, r) in Rel()
    {
      var left := v.Keys;
      while left != {}
        invariant left <= v.Keys
        invariant forall r | r in v && r !in left :: consumer !in v[r]
        decreases left
      {
        var ref :| ref in left;
        left := left - {ref};
        if consumer in v[ref] {
          assert (consumer, ref) in Rel();
          return true;
        }
      }
      return false;
    }

    /** The consumers of a reference, as a sorted list. */
    method Reference(ref: string) returns (consumers: seq<string>)
      ensures AscendingStrings(consumers)
      ensures forall c :: c in consumers <==> (c, ref) in Rel()
    {
      if ref !in v {
        return [];
      }
      consumers := ListOf(v[ref]);
    }

    /** The references of a consumer, each once, in an arbitrary order. */
    method ReferencedBy(consumer: string) returns (refs: seq<string>)
      ensures NoDup(refs)
      ensures forall r :: r in refs <==> (consumer, r) in Rel()
    {
      refs := [];
      var left := v.Keys;
      while left != {}
        invariant left <= v.Keys
        invariant NoDup(refs) && forall r :: r in refs <==> r in v && r !in left && consumer in v[r]
        decreases left
      {
        var ref :| ref in left;
        left := left - {ref};
        if consumer in v[ref] {
          refs := refs + [ref];
        }
      }
    }

    /** Replaces the references of one consumer, as an update of its Ingress does. */
    method Replace(consumer: string, refs: seq<string>)
      requires Valid()
      modifies this
      ensures Valid()
      ensures Rel() == (set p | p in old(Rel()) && p.0 != consumer) + set r | r in refs :: (consumer, r)
    {
      Delete(consumer);
      Insert(consumer, refs);
    }
  }
}
