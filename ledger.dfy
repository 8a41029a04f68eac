/**
  The ledger of subtasks a rendering task has handed out: the unit range
  each covers and its status, kept in the order in which the task's
  dictionary of given subtasks is iterated.
*/
module Ledger {
  import opened Wrappers

  type SubtaskId = string

  /** The subtask states the rendering task tells apart; `Other` stands for the rest. */
  datatype Status = Starting | Finished | Failure | Resent | Other

  /** A given subtask: the 1-based, inclusive unit range it renders and its status. */
  datatype Subtask = Subtask(startTask: int, endTask: int, status: Status)

  /** A range of units handed out by the allocator. */
  datatype UnitRange = UnitRange(startTask: int, endTask: int)

  predicate Listed(order: seq<SubtaskId>, subs: map<SubtaskId, Subtask>) {
    forall i :: 0 <= i < |order| ==> order[i] in subs
  }

  predicate Distinct(order: seq<SubtaskId>) {
    forall i, j :: 0 <= i < j < |order| ==> order[i] != order[j]
  }

  /** The subtasks in iteration order. */
  function InOrder(order: seq<SubtaskId>, subs: map<SubtaskId, Subtask>): (l: seq<Subtask>)
    requires Listed(order, subs)
    ensures |l| == |order|
    ensures forall i :: 0 <= i < |order| ==> l[i] == subs[order[i]]
  {
    seq(|order|, i requires 0 <= i < |order| => subs[order[i]])
  }

  /** The position of the first subtask in `Failure` status, if there is one. */
  function FirstFailure(order: seq<SubtaskId>, subs: map<SubtaskId, Subtask>): (r: Option<nat>)
    requires Listed(order, subs)
    ensures r.None? <==> forall i :: 0 <= i < |order| ==> subs[order[i]].status != Failure
    ensures r.Some? ==> r.value < |order| && subs[order[r.value]].status == Failure &&
                        forall i :: 0 <= i < r.value ==> subs[order[i]].status != Failure
    decreases |order|
  {
    if order == [] then None
    else if subs[order[0]].status == Failure then Some(0)
    else match FirstFailure(order[1..], subs)
      case None => None
      case Some(k) => Some(k + 1)
  }

  /** The number of listed subtasks in `Failure` status. */
  function FailureCount(order: seq<SubtaskId>, subs: map<SubtaskId, Subtask>): nat
    requires Listed(order, subs)
    decreases |order|
  {
    if order == [] then 0
    else (if subs[order[0]].status == Failure then 1 else 0) + FailureCount(order[1..], subs)
  }

  /** Changing the status of a subtask that is not listed does not change the count. */
  lemma {:induction false} FailureCountIgnoresUnlisted(order: seq<SubtaskId>, subs: map<SubtaskId, Subtask>,
                                                      id: SubtaskId, s: Subtask)
    requires Listed(order, subs)
    requires forall i :: 0 <= i < |order| ==> order[i] != id
    ensures FailureCount(order, subs[id := s]) == FailureCount(order, subs)
    decreases |order|
  {
    if order != [] {
      FailureCountIgnoresUnlisted(order[1..], subs, id, s);
    }
  }

  /**
    Reclaiming a failed subtask (turning it `Resent`) lowers the number of
    failed subtasks in the ledger by exactly one.
  */
  lemma {:induction false} ReclaimLowersFailureCount(order: seq<SubtaskId>, subs: map<SubtaskId, Subtask>, k: nat)
    requires Listed(order, subs) && Distinct(order)
    requires k < |order| && subs[order[k]].status == Failure
    ensures var id := order[k];
      FailureCount(order, subs[id := subs[id].(status := Resent)]) == FailureCount(order, subs) - 1
    decreases |order|
  {
    var id := order[k];
    var subs' := subs[id := subs[id].(status := Resent)];
    if k == 0 {
      FailureCountIgnoresUnlisted(order[1..], subs, id, subs[id].(status := Resent));
    } else {
      assert order[1..][k - 1] == id;
      ReclaimLowersFailureCount(order[1..], subs, k - 1);
    }
  }
}
