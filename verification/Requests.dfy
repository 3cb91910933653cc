/** Requests are numbered in the order they are made, and `outage` says which of them fail. */
module Requests {

  ghost predicate Quiet(outage: nat -> bool, from: nat, to: nat) {
    forall r: nat :: from <= r < to ==> !outage(r)
  }

  /** A run that had `cost` requests to make, starting with `first`, and stopped at the first that
      failed; it finished exactly when none did. */
  ghost predicate Ran(outage: nat -> bool, first: nat, cost: nat, finished: bool, next: nat) {
    && (finished <==> Quiet(outage, first, first + cost))
    && (if finished then next == first + cost else first < next <= first + cost && outage(next - 1))
  }

  lemma NoRequest(outage: nat -> bool, first: nat)
    ensures Ran(outage, first, 0, true, first)
  {
  }

  lemma OneRequest(outage: nat -> bool, first: nat)
    ensures Ran(outage, first, 1, !outage(first), first + 1)
  {
    assert !outage(first) ==> Quiet(outage, first, first + 1);
  }

  /** A run that finished goes on with the next. */
  lemma RanOn(outage: nat -> bool, first: nat, cost: nat, mid: nat, more: nat, finished: bool, next: nat)
    requires Ran(outage, first, cost, true, mid) && Ran(outage, mid, more, finished, next)
    ensures Ran(outage, first, cost + more, finished, next)
  {
    assert Quiet(outage, mid, mid + more) <==> Quiet(outage, first, first + cost + more);
  }

  /** A run that failed would have failed with more to do. */
  lemma RanShort(outage: nat -> bool, first: nat, cost: nat, total: nat, next: nat)
    requires Ran(outage, first, cost, false, next) && cost <= total
    ensures Ran(outage, first, total, false, next)
  {
  }
}
