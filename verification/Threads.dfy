/** Finitely many threads, each at a program counter. A protocol's counters are
    compared with the number of threads at chosen program points, and its bounds with
    the work that all of them have left. */
module Threads {
  import opened Wrappers

  type Tid = nat

  ghost function At<PC>(pcs: map<Tid, PC>, p: PC -> bool): set<Tid> {
    set t | t in pcs && p(pcs[t])
  }

  /** Moving one thread changes a head count by what that thread contributes. */
  lemma CountUpdate<PC>(pcs: map<Tid, PC>, t: Tid, pc: PC, p: PC -> bool)
    ensures |At(pcs[t := pc], p)|
         == |At(pcs, p)| - (if t in pcs && p(pcs[t]) then 1 else 0) + (if p(pc) then 1 else 0)
  {
    OthersStay(pcs, t, pc, p);
    CountWithout(At(pcs, p), t);
    CountWithout(At(pcs[t := pc], p), t);
  }

  lemma OthersStay<PC>(pcs: map<Tid, PC>, t: Tid, pc: PC, p: PC -> bool)
    ensures At(pcs[t := pc], p) - {t} == At(pcs, p) - {t}
    ensures (t in At(pcs, p) <==> t in pcs && p(pcs[t])) && (t in At(pcs[t := pc], p) <==> p(pc))
  {
  }

  lemma CountWithout(ts: set<Tid>, t: Tid)
    ensures |ts| == |ts - {t}| + (if t in ts then 1 else 0)
  {
  }

  lemma CountZero<PC>(pcs: map<Tid, PC>, p: PC -> bool)
    ensures |At(pcs, p)| == 0 <==> forall t :: t in pcs ==> !p(pcs[t])
  {
    if exists t :: t in pcs && p(pcs[t]) {
      var t :| t in pcs && p(pcs[t]);
      assert t in At(pcs, p);
    } else {
      assert At(pcs, p) == {};
    }
  }

  lemma CountAtMostOne<PC>(pcs: map<Tid, PC>, p: PC -> bool)
    requires forall t, u :: t in pcs && u in pcs && p(pcs[t]) && p(pcs[u]) ==> t == u
    ensures |At(pcs, p)| <= 1
  {
    var c := At(pcs, p);
    if c != {} {
      var t :| t in c;
      assert c == {t};
    }
  }

  /** The mutex is held by the one thread at a holding program point, if there is one. */
  ghost predicate Owned<PC>(mutex: Option<Tid>, pcs: map<Tid, PC>, holds: PC -> bool) {
    && (mutex.Some? ==> mutex.value in pcs)
    && (forall t :: t in pcs ==> (holds(pcs[t]) <==> mutex == Some(t)))
  }

  /** A move that takes the mutex only when it is free, and gives it up only when held, keeps it owned. */
  lemma OwnedUpdate<PC>(mutex: Option<Tid>, mutex': Option<Tid>, pcs: map<Tid, PC>, t: Tid, pc: PC, holds: PC -> bool)
    requires Owned(mutex, pcs, holds)
    requires holds(pc) ==> mutex' == Some(t) && (mutex == None || mutex == Some(t))
    requires !holds(pc) ==> mutex' == if mutex == Some(t) then None else mutex
    ensures Owned(mutex', pcs[t := pc], holds)
  {
  }

  /** Sum over all threads of min(weight(pc), bound), as layered head counts. */
  ghost function Weight<PC>(pcs: map<Tid, PC>, weight: PC -> nat, bound: nat): nat {
    if bound == 0 then 0
    else |At(pcs, pc => weight(pc) >= bound)| + Weight(pcs, weight, bound - 1)
  }

  lemma {:induction false} WeightUpdate<PC>(pcs: map<Tid, PC>, t: Tid, pc: PC, weight: PC -> nat, bound: nat)
    requires t in pcs && weight(pc) <= bound && weight(pcs[t]) <= bound
    ensures Weight(pcs[t := pc], weight, bound) == Weight(pcs, weight, bound) - weight(pcs[t]) + weight(pc)
  {
    WeightUpdateCapped(pcs, t, pc, weight, bound);
  }

  lemma {:induction false} WeightUpdateCapped<PC>(pcs: map<Tid, PC>, t: Tid, pc: PC, weight: PC -> nat, bound: nat)
    requires t in pcs
    ensures Weight(pcs[t := pc], weight, bound)
         == Weight(pcs, weight, bound) - Min(weight(pcs[t]), bound) + Min(weight(pc), bound)
  {
    if bound > 0 {
      CountUpdate(pcs, t, pc, (c: PC) => weight(c) >= bound);
      WeightUpdateCapped(pcs, t, pc, weight, bound - 1);
    }
  }

  lemma {:induction false} WeightZero<PC>(pcs: map<Tid, PC>, weight: PC -> nat, bound: nat)
    requires bound > 0 && Weight(pcs, weight, bound) == 0
    ensures forall t :: t in pcs ==> weight(pcs[t]) == 0
  {
    if bound == 1 {
      CountZero(pcs, (pc: PC) => weight(pc) >= 1);
    } else {
      WeightZero(pcs, weight, bound - 1);
    }
  }

  lemma {:induction false} WeightBounded<PC>(pcs: map<Tid, PC>, weight: PC -> nat, bound: nat)
    ensures Weight(pcs, weight, bound) <= bound * |pcs|
  {
    if bound > 0 {
      CountBounded(pcs, (pc: PC) => weight(pc) >= bound);
      WeightBounded(pcs, weight, bound - 1);
    }
  }

  lemma CountBounded<PC>(pcs: map<Tid, PC>, p: PC -> bool)
    ensures |At(pcs, p)| <= |pcs|
  {
    SubsetSmaller(At(pcs, p), pcs.Keys);
  }

  lemma {:induction false} SubsetSmaller(a: set<Tid>, b: set<Tid>)
    requires a <= b
    ensures |a| <= |b|
    decreases |a|
  {
    if t :| t in a {
      SubsetSmaller(a - {t}, b - {t});
    }
  }

  function Min(a: nat, b: nat): nat { if a <= b then a else b }
}
