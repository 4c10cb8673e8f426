/**
 The vote ledger: the `updoot` table seen as a map from its composite primary
 key (userId, postId) to the signed value of the vote. Because the key is the
 primary key, the map form already says that a user has at most one vote per
 post.
 */
module VoteLedger {
  import opened Entities

  type Ledger = map<VoteKey, int>

  /** What the entry for `k` adds to the score of post `p`. */
  function Contribution(ledger: Ledger, k: VoteKey, p: int): int
    requires k in ledger
  {
    if k.postId == p then ledger[k] else 0
  }

  /** The signed sum of all ledger values recorded for post `p`. */
  ghost function Score(ledger: Ledger, p: int): int
    decreases |ledger|
  {
    if ledger == map[] then 0
    else
      var k :| k in ledger;
      Contribution(ledger, k, p) + Score(ledger - {k}, p)
  }

  /** Every recorded vote is an upvote or a downvote. */
  ghost predicate SignedVotes(ledger: Ledger)
  {
    forall k :: k in ledger ==> ledger[k] == 1 || ledger[k] == -1
  }

  /** The score does not depend on which entry the definition picks first. */
  lemma {:induction false} ScoreRemove(ledger: Ledger, k: VoteKey, p: int)
    requires k in ledger
    ensures Score(ledger, p) == Contribution(ledger, k, p) + Score(ledger - {k}, p)
    decreases |ledger|
  {
    var j :| j in ledger && Score(ledger, p) == Contribution(ledger, j, p) + Score(ledger - {j}, p);
    if j != k {
      var both := ledger - {j} - {k};
      assert ledger - {k} - {j} == both;
      assert |ledger - {j}| < |ledger|;
      ScoreRemove(ledger - {j}, k, p);
      ScoreRemove(ledger - {k}, j, p);
      assert Contribution(ledger - {j}, k, p) == Contribution(ledger, k, p);
      assert Contribution(ledger - {k}, j, p) == Contribution(ledger, j, p);
    }
  }

  /** Recording a new entry adds its value to its own post's score and nothing to any other. */
  lemma ScoreInsert(ledger: Ledger, k: VoteKey, v: int, p: int)
    requires k !in ledger
    ensures Score(ledger[k := v], p) == Score(ledger, p) + (if k.postId == p then v else 0)
  {
    var after := ledger[k := v];
    ScoreRemove(after, k, p);
    assert after - {k} == ledger;
  }
}
