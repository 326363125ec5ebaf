/** The milestone prerequisites of `check_delivery.py`: the cycle check, and what a closure claim covers. */
module Delivery {
  import opened NameOrder
  import opened Digraph

  /**
   Milestones without a prerequisite that remains are taken off, round by round, until none is left or none
   can go.
   */
  method Peel(prerequisites: Graph) returns (cyclic: bool)
    ensures cyclic <==> HasCycle(prerequisites)
  {
    var remaining := prerequisites.Keys;
    while remaining != {}
      invariant remaining <= prerequisites.Keys
      invariant forall c, i :: IsCycle(prerequisites, c) && 0 <= i < |c| ==> c[i] in remaining
      decreases remaining
    {
      var ready := set m | m in remaining && prerequisites[m] * remaining == {};
      if ready == {} {
        forall m | m in remaining ensures prerequisites[m] * remaining != {} { assert m !in ready; }
        StuckIsCyclic(prerequisites, remaining);
        return true;
      }
      forall c, i | IsCycle(prerequisites, c) && 0 <= i < |c| ensures c[i] in remaining - ready {
        CycleStays(prerequisites, c, remaining, ready);
      }
      remaining := remaining - ready;
    }
    assert !HasCycle(prerequisites) by {
      forall c ensures !IsCycle(prerequisites, c) { assert c != [] ==> c[0] !in remaining; }
    }
    return false;
  }

  type Milestones = map<Name, seq<Name>>

  /** Nothing active that a milestone of `s` needs lies outside of `s`. */
  ghost predicate ClosedUnder(milestones: Milestones, s: set<Name>) {
    forall m, p :: m in s && m in milestones && p in milestones[m] && p in milestones ==> p in s
  }

  /** Every closed set around the claim has all of `claimed`. */
  ghost predicate Forced(milestones: Milestones, claim: set<Name>, claimed: set<Name>) {
    forall s: set<Name> :: claim <= s && ClosedUnder(milestones, s) ==> claimed <= s
  }

  /** What `m` needs is claimed. */
  ghost predicate Served(milestones: Milestones, claimed: set<Name>, m: Name) {
    m in milestones && forall p :: p in milestones[m] && p in milestones ==> p in claimed
  }

  lemma ForcedNext(milestones: Milestones, claim: set<Name>, claimed: set<Name>, m: Name, p: Name)
    requires Forced(milestones, claim, claimed) && m in claimed && m in milestones && p in milestones[m]
    requires p in milestones
    ensures Forced(milestones, claim, claimed + {p})
  {
    forall s: set<Name> | claim <= s && ClosedUnder(milestones, s) ensures claimed + {p} <= s {
      assert m in s;
    }
  }

  /** The inner loop: the prerequisites of one milestone. */
  method AddNeeded(milestones: Milestones, ghost claim: set<Name>, current: Name, claimed: set<Name>,
                   pending: seq<Name>)
    returns (claimed': set<Name>, pending': seq<Name>)
    requires current in claimed && claimed <= milestones.Keys && Forced(milestones, claim, claimed)
    ensures claimed <= claimed' <= milestones.Keys && Forced(milestones, claim, claimed')
    ensures pending <= pending' && (claimed' == claimed ==> pending' == pending)
    ensures forall m :: m in claimed' <==> m in claimed || m in pending'[|pending|..]
    ensures forall p :: p in milestones[current] && p in milestones ==> p in claimed'
  {
    claimed', pending' := claimed, pending;
    var needed := milestones[current];
    for i := 0 to |needed|
      invariant claimed <= claimed' <= milestones.Keys && Forced(milestones, claim, claimed')
      invariant pending <= pending' && (claimed' == claimed ==> pending' == pending)
      invariant forall m :: m in claimed' <==> m in claimed || m in pending'[|pending|..]
      invariant forall j :: 0 <= j < i && needed[j] in milestones ==> needed[j] in claimed'
    {
      var p := needed[i];
      if p in milestones && p !in claimed' {
        ForcedNext(milestones, claim, claimed', current, p);
        claimed', pending' := claimed' + {p}, pending' + [p];
        assert pending'[|pending|..] == pending'[|pending|..|pending'|-1] + [p];
      }
    }
  }

  /** The worklist of `close_claim`: exactly the least closed set around the claim. */
  method Claimed(milestones: Milestones, claim: set<Name>) returns (claimed: set<Name>)
    requires claim <= milestones.Keys
    ensures claim <= claimed <= milestones.Keys && ClosedUnder(milestones, claimed)
    ensures forall s: set<Name> :: claim <= s && ClosedUnder(milestones, s) ==> claimed <= s
  {
    claimed := claim;
    var pending := SortedSet(claim); // `list` of a set: any order would do
    while pending != []
      invariant claim <= claimed <= milestones.Keys && Forced(milestones, claim, claimed)
      invariant forall m :: m in pending ==> m in claimed
      invariant forall m :: m in claimed && m !in pending ==> Served(milestones, claimed, m)
      decreases milestones.Keys - claimed, |pending|
    {
      var current := pending[|pending|-1];
      var left := pending[..|pending|-1];
      ghost var before := claimed;
      claimed, pending := AddNeeded(milestones, claim, current, claimed, left);
      assert pending == left + pending[|left|..];
      forall m | m in claimed && m !in pending ensures Served(milestones, claimed, m) {
        if m != current { assert m in before && Served(milestones, before, m); }
      }
    }
    forall m, p | m in claimed && p in milestones[m] && p in milestones ensures p in claimed {
      assert Served(milestones, claimed, m);
    }
  }
}
