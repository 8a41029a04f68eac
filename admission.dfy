/**
  The node-fairness policy of a rendering task: a counter per peer decides
  whether a peer may be granted another subtask.

  A positive counter marks a peer that has delivered work before, 0 a peer
  holding a grant it has not answered yet, and a negative counter a peer
  that is blocked.
*/
module Admission {

  type ClientId = string

  /** The answer to one admission request and the counters afterwards. */
  datatype Admission = Admission(accepted: bool, nodes: map<ClientId, int>)

  /** One admission request by peer `c` against the counters `nodes`. */
  function Admit(nodes: map<ClientId, int>, c: ClientId): (r: Admission)
    ensures r.accepted <==> !(c in nodes && nodes[c] < 0)
    ensures r.nodes.Keys == nodes.Keys + {c}
    ensures forall d :: d in nodes && d != c ==> r.nodes[d] == nodes[d]
    ensures c !in nodes ==> r.nodes[c] == 0
    ensures c in nodes && nodes[c] > 0 ==> r.nodes[c] == nodes[c]
    ensures c in nodes && nodes[c] <= 0 ==> r.nodes[c] == -1
  {
    if c in nodes then
      if nodes[c] > 0 then Admission(true, nodes)
      else if nodes[c] == 0 then Admission(true, nodes[c := -1])
      else Admission(false, nodes[c := -1])
    else Admission(true, nodes[c := 0])
  }

  /** The answers to the requests `cs`, made one after another. */
  function AdmitAll(nodes: map<ClientId, int>, cs: seq<ClientId>): (r: (seq<bool>, map<ClientId, int>))
    ensures |r.0| == |cs|
    ensures r.1.Keys == nodes.Keys + set i | 0 <= i < |cs| :: cs[i]
    decreases |cs|
  {
    if cs == [] then ([], nodes)
    else
      var first := Admit(nodes, cs[0]);
      var rest := AdmitAll(first.nodes, cs[1..]);
      assert (set i | 0 <= i < |cs| :: cs[i]) == {cs[0]} + set i | 0 <= i < |cs[1..]| :: cs[1..][i];
      ([first.accepted] + rest.0, rest.1)
  }

  /** How many of the requests of `c` among `cs` were granted. */
  function Grants(c: ClientId, cs: seq<ClientId>, answers: seq<bool>): nat
    requires |answers| == |cs|
    decreases |cs|
  {
    if cs == [] then 0
    else (if cs[0] == c && answers[0] then 1 else 0) + Grants(c, cs[1..], answers[1..])
  }

  /**
    How many more grants a peer can receive before it has delivered a
    result: a new peer two, a peer with an unanswered grant one, a
    blocked peer none.
  */
  function GrantBudget(nodes: map<ClientId, int>, c: ClientId): nat
    requires c !in nodes || nodes[c] <= 0
  {
    if c !in nodes then 2 else if nodes[c] == 0 then 1 else 0
  }

  /**
    However the requests interleave, a peer that has not delivered a
    result is granted at most its budget of subtasks.
  */
  lemma {:induction false} GrantsWithinBudget(nodes: map<ClientId, int>, cs: seq<ClientId>, c: ClientId)
    requires c !in nodes || nodes[c] <= 0
    ensures Grants(c, cs, AdmitAll(nodes, cs).0) <= GrantBudget(nodes, c)
    decreases |cs|
  {
    if cs != [] {
      var first := Admit(nodes, cs[0]);
      GrantsWithinBudget(first.nodes, cs[1..], c);
      assert AdmitAll(nodes, cs).0[1..] == AdmitAll(first.nodes, cs[1..]).0;
    }
  }

  /** A blocked peer stays blocked and every request it makes is refused. */
  lemma {:induction false} BlockedPeerStaysBlocked(nodes: map<ClientId, int>, cs: seq<ClientId>, c: ClientId)
    requires c in nodes && nodes[c] < 0
    ensures var r := AdmitAll(nodes, cs);
      c in r.1 && r.1[c] < 0 &&
      forall i :: 0 <= i < |cs| && cs[i] == c ==> !r.0[i]
    decreases |cs|
  {
    if cs != [] {
      var first := Admit(nodes, cs[0]);
      BlockedPeerStaysBlocked(first.nodes, cs[1..], c);
      var r, rest := AdmitAll(nodes, cs), AdmitAll(first.nodes, cs[1..]);
      forall i | 0 <= i < |cs| && cs[i] == c ensures !r.0[i] {
        if i > 0 { assert r.0[i] == rest.0[i - 1] && cs[1..][i - 1] == c; }
      }
    }
  }

  /**
    A peer that has delivered a result keeps its counter and is never
    refused, whoever else asks in between.
  */
  lemma {:induction false} ProvenPeerAlwaysAdmitted(nodes: map<ClientId, int>, cs: seq<ClientId>, c: ClientId)
    requires c in nodes && nodes[c] > 0
    ensures var r := AdmitAll(nodes, cs);
      c in r.1 && r.1[c] == nodes[c] &&
      forall i :: 0 <= i < |cs| && cs[i] == c ==> r.0[i]
    decreases |cs|
  {
    if cs != [] {
      var first := Admit(nodes, cs[0]);
      ProvenPeerAlwaysAdmitted(first.nodes, cs[1..], c);
      var r, rest := AdmitAll(nodes, cs), AdmitAll(first.nodes, cs[1..]);
      forall i | 0 <= i < |cs| && cs[i] == c ensures r.0[i] {
        if i > 0 { assert r.0[i] == rest.0[i - 1] && cs[1..][i - 1] == c; }
      }
    }
  }

  /**
    A new peer that asks three times without delivering anything is
    granted twice and refused the third time.
  */
  lemma NewPeerRefusedOnThirdRequest(nodes: map<ClientId, int>, c: ClientId)
    requires c !in nodes
    ensures AdmitAll(nodes, [c, c, c]).0 == [true, true, false]
  {
    var n1 := Admit(nodes, c).nodes;
    var n2 := Admit(n1, c).nodes;
    assert [c, c, c][1..] == [c, c] && [c, c][1..] == [c] && [c][1..] == [];
    assert AdmitAll(n2, [c]).0 == [false];
    assert AdmitAll(n1, [c, c]).0 == [true, false];
  }
}
