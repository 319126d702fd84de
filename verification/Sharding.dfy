/** Which node delivers a topic: rendezvous hashing over the applied voters, for any score. */
module Sharding {
  import opened Text

  type Node = nat
  type Score = (string, Node) -> nat

  /** `a` wins over `b`: the higher score, then the larger id. */
  predicate Beats(score: Score, topic: string, a: Node, b: Node) {
    score(topic, a) > score(topic, b) || (score(topic, a) == score(topic, b) && a > b)
  }

  /** The maximum, comparing the voters one after another; of equals the later is kept. */
  function Owner(score: Score, topic: string, voters: seq<Node>): Option<Node> {
    if voters == [] then None
    else
      var last := voters[|voters| - 1];
      match Owner(score, topic, voters[..|voters| - 1])
      case Some(best) => Some(if Beats(score, topic, best, last) then best else last)
      case None => Some(last)
  }

  predicate ShardOwns(score: Score, voters: seq<Node>, node: Node, topic: string) {
    match Owner(score, topic, voters)
    case Some(owner) => owner == node
    case None => true
  }

  function OwnedAmong(score: Score, voters: seq<Node>, node: Node, topics: seq<string>): seq<string> {
    if topics == [] then []
    else
      (if Owner(score, topics[0], voters) == Some(node) then [topics[0]] else [])
      + OwnedAmong(score, voters, node, topics[1..])
  }

  function ShardOwned(score: Score, voters: seq<Node>, node: Node, topics: seq<string>): seq<string> {
    if voters == [] then topics else OwnedAmong(score, voters, node, topics)
  }

  /** The higher score, and of equal scores the larger id. */
  predicate AtLeast(s: nat, w: Node, t: nat, v: Node) { s >= t && (s == t ==> w >= v) }

  /** The owner is the one voter that is at least every voter. */
  lemma {:induction false} OwnerIsTheBest(score: Score, topic: string, voters: seq<Node>, w: Node)
    ensures Owner(score, topic, voters) == Some(w) <==>
              w in voters && forall v :: v in voters ==> AtLeast(score(topic, w), w, score(topic, v), v)
    ensures Owner(score, topic, voters).None? <==> voters == []
  {
    if voters != [] {
      var front, last := voters[..|voters| - 1], voters[|voters| - 1];
      assert forall v :: v in voters <==> v in front || v == last by { assert voters == front + [last]; }
      OwnerIsTheBest(score, topic, front, w);
      if front != [] {
        var best := Owner(score, topic, front).value;
        OwnerIsTheBest(score, topic, front, best);
        assert best in voters && last in voters;
      }
    }
  }

  lemma OwnerExists(score: Score, topic: string, voters: seq<Node>) returns (w: Node)
    requires voters != []
    ensures Owner(score, topic, voters) == Some(w)
    ensures w in voters && forall v :: v in voters ==> !Beats(score, topic, v, w)
  {
    OwnerIsTheBest(score, topic, voters, 0);
    w := Owner(score, topic, voters).value;
    OwnerIsTheBest(score, topic, voters, w);
  }

  /** Minimal reassignment between any two memberships: a topic stays where it is unless its
      owner left or its new owner is a newcomer. */
  lemma OwnerStays(score: Score, topic: string, before: seq<Node>, after: seq<Node>)
    requires before != [] && after != []
    requires Owner(score, topic, before).value in after && Owner(score, topic, after).value in before
    ensures Owner(score, topic, before) == Owner(score, topic, after)
  {
    var b := OwnerExists(score, topic, before);
    var a := OwnerExists(score, topic, after);
  }

  /** Every node computes the same owner, however it lists the voters. */
  lemma OwnerIgnoresOrder(score: Score, topic: string, before: seq<Node>, after: seq<Node>)
    requires forall v :: v in before <==> v in after
    ensures Owner(score, topic, before) == Owner(score, topic, after)
  {
    if before != [] { var b := OwnerExists(score, topic, before); }
    if after != [] { var a := OwnerExists(score, topic, after); }
  }

  lemma LeavingMovesOnlyItsTopics(score: Score, topic: string, before: seq<Node>, gone: Node, after: seq<Node>)
    requires forall v :: v in after <==> v in before && v != gone
    requires Owner(score, topic, before) != Some(gone)
    ensures Owner(score, topic, after) == Owner(score, topic, before)
  {
    if before != [] { var b := OwnerExists(score, topic, before); }
    if after != [] { var a := OwnerExists(score, topic, after); }
  }

  lemma JoiningTakesOnlyForItself(score: Score, topic: string, before: seq<Node>, joined: Node, after: seq<Node>)
    requires before != [] && forall v :: v in after <==> v in before || v == joined
    ensures Owner(score, topic, after) == Owner(score, topic, before) || Owner(score, topic, after) == Some(joined)
  {
    var b := OwnerExists(score, topic, before);
    var a := OwnerExists(score, topic, after);
    if a != joined { OwnerStays(score, topic, before, after); }
  }

  /** A node's share holds a topic as often as the list does if it owns it, and not at all
      otherwise; without voters it holds everything. */
  lemma {:induction false} ShareAgreesWithOwns(score: Score, voters: seq<Node>, node: Node, topics: seq<string>, topic: string)
    ensures multiset(ShardOwned(score, voters, node, topics))[topic] ==
            if ShardOwns(score, voters, node, topic) then multiset(topics)[topic] else 0
  {
    OwnerIsTheBest(score, topic, voters, node);
    if topics != [] && voters != [] {
      ShareAgreesWithOwns(score, voters, node, topics[1..], topic);
      assert topics == [topics[0]] + topics[1..];
    }
  }

  lemma {:induction false} OwnedConcat(score: Score, voters: seq<Node>, node: Node, a: seq<string>, b: seq<string>)
    ensures OwnedAmong(score, voters, node, a + b) == OwnedAmong(score, voters, node, a) + OwnedAmong(score, voters, node, b)
  {
    if a == [] {
      assert a + b == b;
    } else {
      var whole := a + b;
      OwnedConcat(score, voters, node, a[1..], b);
      assert whole[1..] == a[1..] + b && whole[0] == a[0];
    }
  }

  /** A share keeps the list's order. */
  lemma ShareKeepsOrder(score: Score, voters: seq<Node>, node: Node, a: seq<string>, b: seq<string>)
    ensures ShardOwned(score, voters, node, a + b) == ShardOwned(score, voters, node, a) + ShardOwned(score, voters, node, b)
  {
    OwnedConcat(score, voters, node, a, b);
  }

  /** Under one voter set the nodes' shares partition the topics: one voter has all of a
      topic's occurrences and every other node, voter or not, has none. */
  lemma SharesPartition(score: Score, voters: seq<Node>, topics: seq<string>, topic: string) returns (owner: Node)
    requires voters != []
    ensures owner in voters
    ensures forall node ::
              multiset(ShardOwned(score, voters, node, topics))[topic] == if node == owner then multiset(topics)[topic] else 0
  {
    owner := OwnerExists(score, topic, voters);
    forall node: Node
      ensures multiset(ShardOwned(score, voters, node, topics))[topic] == if node == owner then multiset(topics)[topic] else 0
    {
      ShareAgreesWithOwns(score, voters, node, topics, topic);
    }
  }
}
