/**
 * A candidate of the count: its buckets by weight, its ledger of received
 * transfers, and the surplus ratio set when it is elected. The totals it reports
 * are computed on demand from the ledger and the buckets.
 */
module Candidates {
  import opened Wrappers
  import opened Sums
  import opened Stacks
  import opened Transfer

  class Candidate {
    const name: string
    /** The length of every prior vector: one column per candidate of the contest. */
    const maxCandidates: nat
    /** 1 until the candidate is elected, then the surplus rescaling ratio. */
    var ratio: real
    /** Every transfer received, in the order received. */
    var votes: seq<Votes>
    /** The buckets, keyed by the weight of their ballots. */
    var stacks: map<Weight, Stack>

    /** Every prior vector has a column per candidate, and ledger and buckets agree. */
    ghost predicate Valid()
      reads this
    {
      StacksSized(stacks, maxCandidates) && Balanced(votes, stacks)
    }

    /**
     * A new candidate. A non-zero first-preference count opens a bucket at
     * weight 1 holding those ballots, with no prior candidates, and a ledger
     * entry without a source.
     */
    constructor (name: string, maxCandidates: nat, voteCount: real)
      ensures Valid()
      ensures this.name == name && this.maxCandidates == maxCandidates && ratio == 1.0
      ensures voteCount != 0.0 ==>
        stacks == map[1.0 := NewStack(maxCandidates, voteCount)] && votes == [Votes(None, 1.0, voteCount)]
      ensures voteCount == 0.0 ==> stacks == map[] && votes == []
      ensures voteCount >= 0.0 ==> Nonnegative()
    {
      this.name := name;
      this.maxCandidates := maxCandidates;
      ratio := 1.0;
      if voteCount != 0.0 {
        var first := map[1.0 := NewStack(maxCandidates, voteCount)];
        assert first.Keys == {1.0} && {1.0} - {1.0} == {};
        SumOverPick({1.0}, VoteCounts(first), 1.0);
        SumOverPick({1.0}, VoteValues(first), 1.0);
        var entry := [Votes(None, 1.0, voteCount)];
        assert entry[1..] == [];
        assert LedgerVotes(entry) == SumOver(first.Keys, VoteCounts(first));
        assert LedgerValue(entry) == SumOver(first.Keys, VoteValues(first));
        stacks := first;
        votes := entry;
      } else {
        var none: map<Weight, Stack> := map[];
        assert none.Keys == {};
        stacks := none;
        votes := [];
      }
    }

    /**
     * The bucket for `weight`, opened empty if there is none. Calling it again
     * for the same weight changes nothing.
     */
    method CreateStack(weight: Weight) returns (s: Stack)
      requires Valid()
      modifies this
      ensures Valid()
      ensures weight in stacks && s == stacks[weight]
      ensures weight in old(stacks) ==> stacks == old(stacks)
      ensures weight !in old(stacks) ==> stacks == old(stacks)[weight := NewStack(maxCandidates, 0.0)]
      ensures votes == old(votes) && ratio == old(ratio)
      ensures TransferredVotes() == old(TransferredVotes())
      ensures old(Nonnegative()) ==> Nonnegative()
    {
      if weight !in stacks {
        EmptyStackAddsNothing(votes, stacks, weight, maxCandidates);
        stacks := stacks[weight := NewStack(maxCandidates, 0.0)];
      }
      s := stacks[weight];
    }

    /** The keys of the buckets a transfer at `weight` draws on. */
    function StacksByWeight(weight: Weight): (ks: set<Weight>)
      reads this
      requires ratio == 1.0 ==> weight in stacks
      ensures ks <= stacks.Keys
    {
      Matching(stacks, ratio, weight)
    }

    /**
     * The drawing side of a transfer of `voteCount` ballots: every bucket in
     * `matched` forwards its share of `voteCount`, the shares being in
     * proportion to the buckets' counts, and the returned bucket is `received`
     * with every matched bucket's prior vector added, scaled by the fraction of
     * that bucket forwarded.
     */
    method DrawMatched(matched: set<Weight>, voteCount: real, received: Stack) returns (acc: Stack)
      requires Valid() && SplitDefined(stacks, matched) && |received.prior| == maxCandidates
      modifies this
      ensures Valid()
      ensures stacks == Drawn(old(stacks), matched, voteCount, MatchedVotes(old(stacks), matched))
      ensures acc == received.(prior := Accumulated(received.prior, old(stacks), matched, voteCount, MatchedVotes(old(stacks), matched)))
      ensures votes == old(votes) && ratio == old(ratio)
      ensures matched != {} ==> TransferredVotes() == old(TransferredVotes()) + voteCount
      ensures old(Nonnegative()) && voteCount >= 0.0 ==> Nonnegative()
      ensures old(Nonnegative()) && voteCount >= 0.0 && StackNonnegative(received) ==> StackNonnegative(acc)
    {
      var total := SumMatchedVotes(stacks, matched);
      ghost var drawnFrom := stacks;
      assert Drawable(drawnFrom, matched, |received.prior|);
      acc := received;
      var done: set<Weight> := {};
      var rest := matched;
      while rest != {}
        invariant rest <= matched && done == matched - rest
        invariant stacks == Drawn(drawnFrom, done, voteCount, total)
        invariant acc == received.(prior := Accumulated(received.prior, drawnFrom, done, voteCount, total))
        invariant votes == old(votes) && ratio == old(ratio)
        decreases rest
      {
        var w :| w in rest;
        var parentStack := stacks[w];
        assert parentStack == drawnFrom[w];
        var part := parentStack.voteCount / total;
        PartIsShare(voteCount, parentStack.voteCount, total, part);
        stacks := stacks[w := parentStack.(transferredVotes := parentStack.transferredVotes + voteCount * part)];
        assert stacks[w] == Forward(drawnFrom[w], voteCount, total);
        acc := acc.(prior := AddScaled(acc.prior, parentStack.prior, (voteCount * part) / parentStack.voteCount));
        DrawnStep(drawnFrom, done, w, voteCount, total);
        AccumulatedStep(received.prior, drawnFrom, done, w, voteCount, total);
        done := done + {w};
        rest := rest - {w};
      }
      assert done == matched;
      DrawnKeepsCountsAndPriors(drawnFrom, matched, voteCount, total);
      SameCountsKeepBalance(votes, drawnFrom, stacks);
      if matched != {} {
        DrawnConserves(drawnFrom, matched, voteCount);
      }
      if old(Nonnegative()) && voteCount >= 0.0 && matched != {} {
        SumOverNonnegative(matched, VoteCounts(drawnFrom));
        DrawnKeepsNonnegative(drawnFrom, matched, voteCount, total);
      }
      if old(Nonnegative()) && voteCount >= 0.0 && StackNonnegative(received) {
        if matched != {} {
          SumOverNonnegative(matched, VoteCounts(drawnFrom));
        }
        AccumulatedKeepsNonnegative(received, drawnFrom, matched, voteCount, total);
      }
    }

    /**
     * The receiving side of a transfer: the bucket at `entry.weight` becomes `s`,
     * which holds that bucket's ballots plus the `entry.voteCount` received, and
     * the ledger logs `entry`.
     */
    method Credit(entry: Votes, s: Stack)
      requires Valid() && entry.weight in stacks && |s.prior| == maxCandidates
      requires s.voteCount == stacks[entry.weight].voteCount + entry.voteCount
      modifies this
      ensures Valid()
      ensures stacks == old(stacks)[entry.weight := s] && votes == old(votes) + [entry] && ratio == old(ratio)
      ensures VoteCount() == old(VoteCount()) + entry.voteCount
      ensures old(Nonnegative()) && StackNonnegative(s) ==> Nonnegative()
    {
      ReceiveKeepsBalance(votes, stacks, entry, s);
      LedgerAppend(votes, entry);
      stacks := stacks[entry.weight := s];
      votes := votes + [entry];
    }

    /** Ballots received, first preferences included. */
    function VoteCount(): real
      reads this
    {
      LedgerVotes(votes)
    }

    /** Ballots received, each counted at its weight. */
    function VoteValue(): real
      reads this
    {
      LedgerValue(votes)
    }

    /** Ballots forwarded to other candidates. */
    ghost function TransferredVotes(): real
      reads this
    {
      SumOver(stacks.Keys, Transferred(stacks))
    }

    /** Ballots that ended here. */
    ghost function OrphanVotes(): real
      reads this
    {
      VoteCount() - TransferredVotes()
    }

    /** The value of the ballots that ended here. */
    ghost function OrphanVotesValues(): real
      reads this
    {
      SumOver(stacks.Keys, OrphanValues(stacks))
    }

    /** Column `col` of the combined prior vector: the sum over the buckets. */
    ghost function PriorCandidates(col: nat): real
      reads this
      requires Valid() && col < maxCandidates
    {
      PriorColumnCovers(col);
      SumOver(stacks.Keys, PriorColumn(stacks, col))
    }

    lemma PriorColumnCovers(col: nat)
      requires Valid() && col < maxCandidates
      ensures stacks.Keys <= PriorColumn(stacks, col).Keys
    {
      forall w | w in stacks
        ensures w in PriorColumn(stacks, col)
      {
      }
    }

    /** With non-negative buckets, every column of the combined prior vector is non-negative. */
    lemma PriorCandidatesNonnegative(col: nat)
      requires Valid() && col < maxCandidates
      ensures Nonnegative() ==> PriorCandidates(col) >= 0.0
    {
      if Nonnegative() {
        PriorColumnNonnegative(stacks, col);
      }
    }

    /** First-preference ballots: ledger entries without a source candidate. */
    function FirstPlaceVotes(): real
      reads this
    {
      LedgerFirstPlace(votes)
    }

    /** No bucket holds a negative count or a negative prior estimate. */
    ghost predicate Nonnegative()
      reads this
    {
      StacksNonnegative(stacks)
    }
  }
}
