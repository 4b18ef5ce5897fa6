/** Runs of several participants under one mutex: a schedule is any sequence of participant
    numbers, the order in which the lock was taken lists each participant at most once. */
module Schedules {

  datatype Lock = Free | Held(holder: nat)

  predicate IsSchedule(schedule: seq<nat>, n: nat) {
    forall k :: 0 <= k < |schedule| ==> schedule[k] < n
  }

  predicate ValidOrder(order: seq<nat>, n: nat) {
    && (forall k :: 0 <= k < |order| ==> order[k] < n)
    && (forall j, k :: 0 <= j < k < |order| ==> order[j] != order[k])
  }

  // ----- How much is left to do -----

  function Sum(left: seq<nat>): nat {
    if left == [] then 0 else left[0] + Sum(left[1..])
  }

  /** A step of one participant that leaves less to do lowers the sum. */
  lemma {:induction false} SumDrops(left: seq<nat>, t: nat, less: nat)
    requires t < |left| && less < left[t]
    ensures Sum(left[t := less]) < Sum(left)
    decreases |left|
  {
    var left' := left[t := less];
    if t == 0 {
      assert left'[1..] == left[1..];
    } else {
      SumDrops(left[1..], t - 1, less);
      assert left'[1..] == left[1..][t - 1 := less];
    }
  }
}
