/**
  Predicates that are true of every k.  An invariant written as
  `forall k {:trigger Look(k)} :: Look(k) ==> P` says P, but is unfolded only in proofs
  that mention Look, which keeps its quantifiers out of all the others.  Invariants that
  meet in one proof are guarded by different ones.
*/
module Guard {
  ghost predicate Look(k: int) { true }
  ghost predicate Peek(k: int) { true }
  ghost predicate Glance(k: int) { true }
  ghost predicate Watch(k: int) { true }
  ghost predicate Heed(k: int) { true }
  ghost predicate Note(k: int) { true }
  ghost predicate Mark(k: int) { true }
  ghost predicate Mind(k: int) { true }
}
