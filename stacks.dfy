/**
 * The values a candidate holds: its ledger of received transfers (`Votes`) and
 * its per-weight buckets (`Stack`), with the sums the engine derives from them.
 */
module Stacks {
  import opened Wrappers
  import opened Sums
  import opened Decimal

  /** Transfer weights and vote counts are exact decimals. */
  type Weight = real

  /** Candidates are named by their four-digit code in the count report. */
  type CandidateId = string

  /**
   * One transfer received by a candidate: `voteCount` ballots at `weight` from
   * `parentID`, or first preferences when `parentID` is `None`.
   */
  datatype Votes = Votes(parentID: Option<CandidateId>, weight: Weight, voteCount: real)

  /**
   * The ballots a candidate holds at one weight: how many it received
   * (`voteCount`), how many it has forwarded (`transferredVotes`), and for each
   * candidate column the estimated number of these ballots that passed through
   * that candidate earlier (`prior`).
   */
  datatype Stack = Stack(prior: seq<real>, voteCount: real, transferredVotes: real)
  {
    /**
     * The ballots that stayed in this bucket: what was received less what was
     * forwarded. It is negative once the bucket has forwarded more than it held.
     */
    function OrphanVotes(): (r: real)
      ensures r + transferredVotes == voteCount
      ensures r < 0.0 <==> transferredVotes > voteCount
    {
      voteCount - transferredVotes
    }
  }

  /** A fresh bucket: `voteCount` ballots, none forwarded, no prior candidates. */
  function NewStack(maxCandidates: nat, voteCount: real): (s: Stack)
    ensures |s.prior| == maxCandidates
    ensures forall i | 0 <= i < maxCandidates :: s.prior[i] == 0.0
    ensures s.voteCount == voteCount && s.transferredVotes == 0.0 && s.OrphanVotes() == voteCount
  {
    Stack(seq(maxCandidates, _ => 0.0), voteCount, 0.0)
  }

  /** The value of `count` ballots at weight `w`. */
  function Worth(count: real, w: Weight): real
  {
    count * w
  }

  /** Worth distributes over a sum of counts. */
  lemma WorthAdd(a: real, b: real, w: Weight)
    ensures Worth(a + b, w) == Worth(a, w) + Worth(b, w)
  {
  }

  /** Worth distributes over a difference of counts. */
  lemma WorthSub(a: real, b: real, w: Weight)
    ensures Worth(a - b, w) == Worth(a, w) - Worth(b, w)
  {
  }

  // Sums over the ledger, as the candidate's properties add them up.

  function LedgerVotes(votes: seq<Votes>): real
  {
    if votes == [] then 0.0 else votes[0].voteCount + LedgerVotes(votes[1..])
  }

  function LedgerValue(votes: seq<Votes>): real
  {
    if votes == [] then 0.0 else Worth(votes[0].voteCount, votes[0].weight) + LedgerValue(votes[1..])
  }

  function LedgerFirstPlace(votes: seq<Votes>): real
  {
    if votes == [] then 0.0
    else (if votes[0].parentID == None then votes[0].voteCount else 0.0) + LedgerFirstPlace(votes[1..])
  }

  /** Appending an entry to the ledger adds it to each ledger sum. */
  lemma {:induction false} LedgerAppend(votes: seq<Votes>, e: Votes)
    ensures LedgerVotes(votes + [e]) == LedgerVotes(votes) + e.voteCount
    ensures LedgerValue(votes + [e]) == LedgerValue(votes) + Worth(e.voteCount, e.weight)
    ensures LedgerFirstPlace(votes + [e]) == LedgerFirstPlace(votes) + (if e.parentID == None then e.voteCount else 0.0)
  {
    if votes == [] {
      assert [] + [e] == [e];
    } else {
      assert (votes + [e])[1..] == votes[1..] + [e];
      LedgerAppend(votes[1..], e);
    }
  }

  /** With non-negative entries, first preferences are a part of the candidate's votes. */
  lemma {:induction false} FirstPlaceWithinVotes(votes: seq<Votes>)
    requires forall i | 0 <= i < |votes| :: votes[i].voteCount >= 0.0
    ensures 0.0 <= LedgerFirstPlace(votes) <= LedgerVotes(votes)
  {
    if votes != [] {
      FirstPlaceWithinVotes(votes[1..]);
    }
  }

  // Per-bucket quantities, as maps from the bucket's weight.

  function VoteCounts(stacks: map<Weight, Stack>): map<Weight, real>
  {
    map w | w in stacks :: stacks[w].voteCount
  }

  function VoteValues(stacks: map<Weight, Stack>): map<Weight, real>
  {
    map w | w in stacks :: Worth(stacks[w].voteCount, w)
  }

  function Transferred(stacks: map<Weight, Stack>): map<Weight, real>
  {
    map w | w in stacks :: stacks[w].transferredVotes
  }

  function TransferredValues(stacks: map<Weight, Stack>): map<Weight, real>
  {
    map w | w in stacks :: Worth(stacks[w].transferredVotes, w)
  }

  function Orphans(stacks: map<Weight, Stack>): map<Weight, real>
  {
    map w | w in stacks :: stacks[w].OrphanVotes()
  }

  function OrphanValues(stacks: map<Weight, Stack>): map<Weight, real>
  {
    map w | w in stacks :: Worth(stacks[w].OrphanVotes(), w)
  }

  /** Column `col` of every bucket's prior vector that has that column. */
  function PriorColumn(stacks: map<Weight, Stack>, col: nat): map<Weight, real>
  {
    map w | w in stacks && col < |stacks[w].prior| :: stacks[w].prior[col]
  }

  /** Every bucket's prior vector has one entry per candidate column. */
  ghost predicate StacksSized(stacks: map<Weight, Stack>, maxCandidates: nat)
  {
    forall w | w in stacks :: |stacks[w].prior| == maxCandidates
  }

  /**
   * The ledger and the buckets describe the same ballots: equal vote counts and
   * equal vote values (count times weight).
   */
  ghost predicate Balanced(votes: seq<Votes>, stacks: map<Weight, Stack>)
  {
    LedgerVotes(votes) == SumOver(stacks.Keys, VoteCounts(stacks)) &&
    LedgerValue(votes) == SumOver(stacks.Keys, VoteValues(stacks))
  }

  /** No bucket holds a negative count or a negative prior estimate. */
  ghost predicate StackNonnegative(s: Stack)
  {
    s.voteCount >= 0.0 && s.transferredVotes >= 0.0 &&
    forall i | 0 <= i < |s.prior| :: s.prior[i] >= 0.0
  }

  ghost predicate StacksNonnegative(stacks: map<Weight, Stack>)
  {
    forall w | w in stacks :: StackNonnegative(stacks[w])
  }

  /**
   * The keys of the buckets a transfer at `weight` draws from. While `ratio` is
   * 1 that is the bucket of that very weight; once the candidate is elected with
   * a surplus ratio, it is every bucket whose weight, rescaled by the ratio and
   * truncated at five decimal places, equals `weight`.
   */
  function Matching(stacks: map<Weight, Stack>, ratio: real, weight: Weight): (ks: set<Weight>)
    requires ratio == 1.0 ==> weight in stacks
    ensures ks <= stacks.Keys
  {
    if ratio == 1.0 then {weight} else set w | w in stacks && Rescaled(w, ratio) == weight
  }

  /** The weight of ballots held at weight `w` once rescaled by a surplus ratio, truncated at five places. */
  function Rescaled(w: Weight, ratio: real): Weight
  {
    Floor(w * ratio, 5)
  }

  /** Before election every transfer draws on the one bucket of its own weight. */
  lemma MatchingUnelected(stacks: map<Weight, Stack>, weight: Weight)
    requires weight in stacks
    ensures Matching(stacks, 1.0, weight) == {weight}
  {
  }

  /**
   * After election the buckets are partitioned by their rescaled weight: each
   * bucket is matched by its own truncated rescaled weight and by no other.
   */
  lemma MatchingPartition(stacks: map<Weight, Stack>, ratio: real, k: Weight, weight: Weight)
    requires ratio != 1.0 && k in stacks
    ensures k in Matching(stacks, ratio, Rescaled(k, ratio))
    ensures k in Matching(stacks, ratio, weight) <==> weight == Rescaled(k, ratio)
  {
  }

  /** After election a query that matches anything is a weight with at most five decimal digits. */
  lemma MatchedWeightHasFiveDigits(stacks: map<Weight, Stack>, ratio: real, weight: Weight)
    requires ratio != 1.0 && Matching(stacks, ratio, weight) != {}
    ensures HasDigits(weight, 5)
  {
    var k :| k in Matching(stacks, ratio, weight);
    assert weight == Rescaled(k, ratio);
  }

  /**
   * Two buckets of different weights can collide after rescaling: with ratio
   * 0.33333, weights 3.00000 and 3.00003 both truncate to 0.99999, so a transfer
   * at 0.99999 draws on both.
   */
  lemma MatchingCollision(s1: Stack, s2: Stack)
    ensures Matching(map[3.0 := s1, 3.00003 := s2], 0.33333, 0.99999) == {3.0, 3.00003}
  {
    assert Pow10(5) == 100000;
    assert Trunc(3.0 * 0.33333 * 100000.0) == 99999;
    assert Trunc(3.00003 * 0.33333 * 100000.0) == 99999;
    assert Floor(3.0 * 0.33333, 5) == 0.99999;
    assert Floor(3.00003 * 0.33333, 5) == 0.99999;
  }

  /**
   * A candidate's unforwarded votes, its ledger total less what its buckets
   * forwarded, are the sum of its buckets' orphan votes.
   */
  lemma OrphanSplit(votes: seq<Votes>, stacks: map<Weight, Stack>)
    requires Balanced(votes, stacks)
    ensures LedgerVotes(votes) - SumOver(stacks.Keys, Transferred(stacks)) == SumOver(stacks.Keys, Orphans(stacks))
  {
    SumOverDifference(stacks.Keys, VoteCounts(stacks), Transferred(stacks), Orphans(stacks));
  }

  /**
   * The value left in a candidate's buckets is its ledger value less the value
   * its buckets forwarded.
   */
  lemma OrphanValueSplit(votes: seq<Votes>, stacks: map<Weight, Stack>)
    requires Balanced(votes, stacks)
    ensures SumOver(stacks.Keys, OrphanValues(stacks)) == LedgerValue(votes) - SumOver(stacks.Keys, TransferredValues(stacks))
  {
    forall w | w in stacks
      ensures OrphanValues(stacks)[w] == VoteValues(stacks)[w] - TransferredValues(stacks)[w]
    {
      WorthSub(stacks[w].voteCount, stacks[w].transferredVotes, w);
    }
    SumOverDifference(stacks.Keys, VoteValues(stacks), TransferredValues(stacks), OrphanValues(stacks));
  }

  /**
   * Adding an empty bucket changes none of the candidate's totals, so the
   * ledger stays balanced.
   */
  lemma EmptyStackAddsNothing(votes: seq<Votes>, stacks: map<Weight, Stack>, w: Weight, maxCandidates: nat)
    requires w !in stacks
    ensures var after := stacks[w := NewStack(maxCandidates, 0.0)];
      SumOver(after.Keys, VoteCounts(after)) == SumOver(stacks.Keys, VoteCounts(stacks)) &&
      SumOver(after.Keys, VoteValues(after)) == SumOver(stacks.Keys, VoteValues(stacks)) &&
      SumOver(after.Keys, Transferred(after)) == SumOver(stacks.Keys, Transferred(stacks)) &&
      (Balanced(votes, stacks) ==> Balanced(votes, after))
  {
    var after := stacks[w := NewStack(maxCandidates, 0.0)];
    assert after.Keys == stacks.Keys + {w};
    SumOverAddZero(stacks.Keys, VoteCounts(stacks), VoteCounts(after), w);
    SumOverAddZero(stacks.Keys, VoteValues(stacks), VoteValues(after), w);
    SumOverAddZero(stacks.Keys, Transferred(stacks), Transferred(after), w);
  }

  /**
   * Receiving `e.voteCount` ballots into the existing bucket of weight
   * `e.weight`, and logging the transfer in the ledger, keeps the ledger
   * balanced.
   */
  lemma ReceiveKeepsBalance(votes: seq<Votes>, stacks: map<Weight, Stack>, e: Votes, s: Stack)
    requires Balanced(votes, stacks)
    requires e.weight in stacks
    requires s.voteCount == stacks[e.weight].voteCount + e.voteCount
    ensures Balanced(votes + [e], stacks[e.weight := s])
  {
    LedgerAppend(votes, e);
    ReceiveAddsCount(stacks, e.weight, s, e.voteCount);
    ReceiveAddsValue(stacks, e.weight, s, e.voteCount);
  }

  lemma ReceiveAddsCount(stacks: map<Weight, Stack>, w: Weight, s: Stack, c: real)
    requires w in stacks
    requires s.voteCount == stacks[w].voteCount + c
    ensures SumOver(stacks[w := s].Keys, VoteCounts(stacks[w := s])) == SumOver(stacks.Keys, VoteCounts(stacks)) + c
  {
    var after := stacks[w := s];
    assert after.Keys == stacks.Keys;
    SumOverChangeOne(stacks.Keys, VoteCounts(stacks), VoteCounts(after), w);
  }

  lemma ReceiveAddsValue(stacks: map<Weight, Stack>, w: Weight, s: Stack, c: real)
    requires w in stacks
    requires s.voteCount == stacks[w].voteCount + c
    ensures SumOver(stacks[w := s].Keys, VoteValues(stacks[w := s])) == SumOver(stacks.Keys, VoteValues(stacks)) + Worth(c, w)
  {
    var after := stacks[w := s];
    assert after.Keys == stacks.Keys;
    SumOverChangeOne(stacks.Keys, VoteValues(stacks), VoteValues(after), w);
    WorthAdd(stacks[w].voteCount, c, w);
  }

  /** Changing buckets without changing their counts keeps the ledger balanced. */
  lemma SameCountsKeepBalance(votes: seq<Votes>, stacks: map<Weight, Stack>, after: map<Weight, Stack>)
    requires Balanced(votes, stacks)
    requires after.Keys == stacks.Keys
    requires forall w | w in stacks :: after[w].voteCount == stacks[w].voteCount
    ensures Balanced(votes, after)
  {
    SumOverAgree(stacks.Keys, VoteCounts(stacks), VoteCounts(after));
    SumOverAgree(stacks.Keys, VoteValues(stacks), VoteValues(after));
  }

  /** With non-negative buckets, every column of the combined prior vector is non-negative. */
  lemma PriorColumnNonnegative(stacks: map<Weight, Stack>, col: nat)
    requires StacksNonnegative(stacks)
    requires forall w | w in stacks :: col < |stacks[w].prior|
    ensures stacks.Keys <= PriorColumn(stacks, col).Keys
    ensures SumOver(stacks.Keys, PriorColumn(stacks, col)) >= 0.0
  {
    forall w | w in stacks
      ensures w in PriorColumn(stacks, col)
    {
    }
    SumOverNonnegative(stacks.Keys, PriorColumn(stacks, col));
  }
}
