/**
 * The replay engine: the registry of candidates, the column each candidate's
 * estimates occupy in every prior vector, and the running total of transferred
 * ballots. Transfers are replayed in the order of the count.
 */
module Elections {
  import opened Wrappers
  import opened Sums
  import opened Stacks
  import opened Transfer
  import opened Candidates

  /**
   * Column indices are distinct and below the number of registered ids, so they
   * are exactly 0 .. n-1.
   */
  ghost predicate ColumnsBijective(columns: map<CandidateId, nat>)
  {
    (forall a, b | a in columns && b in columns && a != b :: columns[a] != columns[b]) &&
    (forall a | a in columns :: columns[a] < |columns|)
  }

  /** Registering a new id at the next free column keeps the columns a bijection. */
  lemma FreshColumnKeepsBijection(columns: map<CandidateId, nat>, id: CandidateId)
    requires ColumnsBijective(columns) && id !in columns
    ensures ColumnsBijective(columns[id := |columns|])
  {
    assert |columns[id := |columns|]| == |columns| + 1;
  }

  /** Writing a key twice keeps only the second write. */
  lemma OverwriteTwice(m: map<Weight, Stack>, w: Weight, first: Stack, second: Stack)
    ensures m[w := first][w := second] == m[w := second]
  {
  }

  /**
   * Registering an id a second time moves it to column n, which the next new id
   * is given as well: after "A", "B", "A" and "C", both "A" and "C" sit in
   * column 2 and column 0 is left empty.
   */
  lemma ReRegistrationCollides()
    ensures var m0: map<CandidateId, nat> := map[];
      var m1 := m0["A" := |m0|];
      var m2 := m1["B" := |m1|];
      var m3 := m2["A" := |m2|];
      var m4 := m3["C" := |m3|];
      m4["A"] == 2 && m4["C"] == 2 && !ColumnsBijective(m4)
  {
    var m0: map<CandidateId, nat> := map[];
    var m1 := m0["A" := |m0|];
    assert m1.Keys == {"A"};
    var m2 := m1["B" := |m1|];
    assert m2.Keys == {"A", "B"};
    var m3 := m2["A" := |m2|];
    assert m3.Keys == {"A", "B"};
    var m4 := m3["C" := |m3|];
    assert m4.Keys == {"A", "B", "C"};
    assert m4["A"] == m4["C"];
  }

  class Election {
    /** The length of every prior vector. */
    const maxCandidates: nat
    /** Every registered candidate, by id. */
    var candidates: map<CandidateId, Candidate>
    /** The prior-vector column of each registered candidate. */
    var columns: map<CandidateId, nat>
    /** The running total of ballots transferred. */
    var transfers: real
    /** The count of every transfer replayed so far, in order. */
    ghost var transferLog: seq<real>

    /**
     * Each id has a column and its own candidate object, every candidate is
     * consistent and sized for this contest, and the running total is the sum
     * of the transfers replayed.
     */
    ghost predicate Valid()
      reads this, candidates.Values
    {
      columns.Keys == candidates.Keys &&
      (forall a, b | a in candidates && b in candidates && a != b :: candidates[a] != candidates[b]) &&
      (forall id | id in candidates :: Sound(id)) &&
      transfers == Total(transferLog)
    }

    /** Candidate `id` is consistent and sized for this contest. */
    ghost predicate Sound(id: CandidateId)
      reads this, candidates.Values
      requires id in candidates
    {
      candidates[id].maxCandidates == maxCandidates && candidates[id].Valid()
    }

    /** No bucket of any candidate holds a negative count or a negative estimate. */
    ghost predicate Nonnegative()
      reads this, candidates.Values
    {
      forall id | id in candidates :: candidates[id].Nonnegative()
    }

    constructor (maxCandidates: nat)
      ensures Valid() && Nonnegative() && ColumnsBijective(columns)
      ensures this.maxCandidates == maxCandidates
      ensures candidates == map[] && columns == map[] && transfers == 0.0 && transferLog == []
    {
      this.maxCandidates := maxCandidates;
      candidates := map[];
      columns := map[];
      transfers := 0.0;
      transferLog := [];
    }

    /**
     * Registers candidate `id` with its first-preference count, replacing any
     * candidate registered under the same id, and gives it column n, the number
     * of ids registered before.
     */
    method AddCandidate(id: CandidateId, name: string, voteCount: real)
      requires Valid()
      modifies this
      ensures Valid()
      ensures id in candidates && fresh(candidates[id])
      ensures candidates == old(candidates)[id := candidates[id]]
      ensures columns == old(columns)[id := |old(columns)|]
      ensures candidates[id].name == name && candidates[id].ratio == 1.0
      ensures voteCount != 0.0 ==>
        candidates[id].stacks == map[1.0 := NewStack(maxCandidates, voteCount)] &&
        candidates[id].votes == [Votes(None, 1.0, voteCount)]
      ensures voteCount == 0.0 ==> candidates[id].stacks == map[] && candidates[id].votes == []
      ensures transfers == old(transfers) && transferLog == old(transferLog)
      ensures id !in old(columns) && old(ColumnsBijective(columns)) ==> ColumnsBijective(columns)
      ensures old(Nonnegative()) && voteCount >= 0.0 ==> Nonnegative()
    {
      var c := new Candidate(name, maxCandidates, voteCount);
      if id !in columns && ColumnsBijective(columns) {
        FreshColumnKeepsBijection(columns, id);
      }
      Register(id, c);
    }

    /**
     * The registry half of registering a candidate: `c` is filed under `id`,
     * replacing any candidate filed there, at column n.
     */
    method Register(id: CandidateId, c: Candidate)
      requires Valid() && c.Valid() && c.maxCandidates == maxCandidates
      requires forall other | other in candidates :: candidates[other] != c
      modifies this
      ensures Valid()
      ensures candidates == old(candidates)[id := c]
      ensures columns == old(columns)[id := |old(columns)|]
      ensures transfers == old(transfers) && transferLog == old(transferLog)
      ensures old(Nonnegative()) && c.Nonnegative() ==> Nonnegative()
    {
      ghost var before := candidates;
      candidates := candidates[id := c];
      columns := columns[id := |columns|];
      forall other | other in candidates
        ensures Sound(other)
      {
        if other != id {
          assert candidates[other] == before[other];
        }
      }
      forall a, b | a in candidates && b in candidates && a != b
        ensures candidates[a] != candidates[b]
      {
        if a != id && b != id {
          assert candidates[a] == before[a] && candidates[b] == before[b];
        }
      }
      if old(Nonnegative()) && c.Nonnegative() {
        forall other | other in candidates
          ensures candidates[other].Nonnegative()
        {
          if other != id {
            assert candidates[other] == before[other];
          }
        }
      }
    }

    /** Records the surplus ratio of an elected candidate; its buckets and ledger are untouched. */
    method SetRatio(id: CandidateId, ratio: real)
      requires Valid() && id in candidates
      modifies candidates[id]
      ensures Valid()
      ensures candidates[id].ratio == ratio
      ensures candidates[id].stacks == old(candidates[id].stacks) && candidates[id].votes == old(candidates[id].votes)
      ensures Nonnegative() == old(Nonnegative())
    {
      candidates[id].ratio := ratio;
    }

    /**
     * Replays the transfer of `voteCount` ballots at `weight` from `parentID` to
     * `childID`. The child's bucket at `weight` is opened if missing; the
     * parent's matching buckets forward their shares of `voteCount`, in
     * proportion to their counts, and pass their prior vectors on in the same
     * proportion; the child's bucket gains `voteCount` ballots and `voteCount`
     * at the parent's column; the child's ledger logs the transfer and the
     * running total grows by `voteCount`. No other candidate changes.
     */
    method TransferVotes(parentID: CandidateId, childID: CandidateId, weight: Weight, voteCount: real)
      requires Valid()
      requires parentID in candidates && childID in candidates && parentID != childID
      requires columns[parentID] < maxCandidates
      requires candidates[parentID].ratio == 1.0 ==> weight in candidates[parentID].stacks
      requires SplitDefined(candidates[parentID].stacks, candidates[parentID].StacksByWeight(weight))
      modifies this, candidates[parentID], candidates[childID]
      ensures Valid()
      ensures candidates == old(candidates) && columns == old(columns)
      ensures transfers == old(transfers) + voteCount
      ensures transferLog == old(transferLog) + [voteCount]
      ensures
        var matched := old(candidates[parentID].StacksByWeight(weight));
        var total := MatchedVotes(old(candidates[parentID].stacks), matched);
        candidates[parentID].stacks == Drawn(old(candidates[parentID].stacks), matched, voteCount, total)
      ensures
        var matched := old(candidates[parentID].StacksByWeight(weight));
        var total := MatchedVotes(old(candidates[parentID].stacks), matched);
        var received := if weight in old(candidates[childID].stacks) then old(candidates[childID].stacks[weight])
                        else NewStack(maxCandidates, 0.0);
        candidates[childID].stacks ==
          old(candidates[childID].stacks)[weight := Receive(received, old(candidates[parentID].stacks), matched, voteCount, total, columns[parentID])]
      ensures candidates[parentID].votes == old(candidates[parentID].votes)
      ensures candidates[childID].votes == old(candidates[childID].votes) + [Votes(Some(parentID), weight, voteCount)]
      ensures candidates[parentID].ratio == old(candidates[parentID].ratio)
      ensures candidates[childID].ratio == old(candidates[childID].ratio)
      ensures candidates[childID].VoteCount() == old(candidates[childID].VoteCount()) + voteCount
      ensures old(candidates[parentID].StacksByWeight(weight)) != {} ==>
        candidates[parentID].TransferredVotes() == old(candidates[parentID].TransferredVotes()) + voteCount
      ensures old(Nonnegative()) && voteCount >= 0.0 ==> Nonnegative()
    {
      ghost var parent, child := candidates[parentID], candidates[childID];
      Tally(voteCount);
      assert candidates[parentID] == parent && candidates[childID] == child;
      assert unchanged(parent, child);
      Move(parentID, childID, weight, voteCount);
    }

    /**
     * The candidates' half of a transfer: opens the child's bucket, draws on the
     * parent's matching buckets and credits the child. The running total is
     * left alone.
     */
    method Move(parentID: CandidateId, childID: CandidateId, weight: Weight, voteCount: real)
      requires Valid()
      requires parentID in candidates && childID in candidates && parentID != childID
      requires columns[parentID] < maxCandidates
      requires candidates[parentID].ratio == 1.0 ==> weight in candidates[parentID].stacks
      requires SplitDefined(candidates[parentID].stacks, candidates[parentID].StacksByWeight(weight))
      modifies candidates[parentID], candidates[childID]
      ensures Valid()
      ensures candidates == old(candidates) && columns == old(columns)
      ensures transfers == old(transfers) && transferLog == old(transferLog)
      ensures
        var matched := old(candidates[parentID].StacksByWeight(weight));
        var total := MatchedVotes(old(candidates[parentID].stacks), matched);
        candidates[parentID].stacks == Drawn(old(candidates[parentID].stacks), matched, voteCount, total)
      ensures
        var matched := old(candidates[parentID].StacksByWeight(weight));
        var total := MatchedVotes(old(candidates[parentID].stacks), matched);
        var received := if weight in old(candidates[childID].stacks) then old(candidates[childID].stacks[weight])
                        else NewStack(maxCandidates, 0.0);
        candidates[childID].stacks ==
          old(candidates[childID].stacks)[weight := Receive(received, old(candidates[parentID].stacks), matched, voteCount, total, columns[parentID])]
      ensures candidates[parentID].votes == old(candidates[parentID].votes)
      ensures candidates[childID].votes == old(candidates[childID].votes) + [Votes(Some(parentID), weight, voteCount)]
      ensures candidates[parentID].ratio == old(candidates[parentID].ratio)
      ensures candidates[childID].ratio == old(candidates[childID].ratio)
      ensures candidates[childID].VoteCount() == old(candidates[childID].VoteCount()) + voteCount
      ensures old(candidates[parentID].StacksByWeight(weight)) != {} ==>
        candidates[parentID].TransferredVotes() == old(candidates[parentID].TransferredVotes()) + voteCount
      ensures old(Nonnegative()) && voteCount >= 0.0 ==> Nonnegative()
    {
      ghost var parent, child := candidates[parentID], candidates[childID];
      assert parent != child;
      ghost var drawnFrom := parent.stacks;
      ghost var matched := parent.StacksByWeight(weight);
      ghost var total := MatchedVotes(drawnFrom, matched);
      ghost var childBefore := child.stacks;

      var received := OpenStack(childID, weight);
      assert unchanged(parent);
      ghost var childOpened := child.stacks;
      label drawing:
      var acc := DrawOn(parentID, weight, voteCount, received);
      assert unchanged@drawing(child);
      assert child.votes == old(child.votes) && child.ratio == old(child.ratio);
      var col := columns[parentID];
      var childStack := Deposit(acc, col, voteCount);
      if old(Nonnegative()) && voteCount >= 0.0 {
        DepositKeepsNonnegative(acc, col, voteCount);
      }
      label crediting:
      CreditTransfer(childID, Votes(Some(parentID), weight, voteCount), childStack);
      assert unchanged@crediting(parent);
      OverwriteTwice(childBefore, weight, received, childStack);
    }

    /** Adds `voteCount` to the running total of ballots transferred. No candidate changes. */
    method Tally(voteCount: real)
      requires Valid()
      modifies this
      ensures Valid()
      ensures candidates == old(candidates) && columns == old(columns)
      ensures transfers == old(transfers) + voteCount && transferLog == old(transferLog) + [voteCount]
      ensures old(Nonnegative()) ==> Nonnegative()
    {
      TotalAppend(transferLog, voteCount);
      transfers, transferLog := transfers + voteCount, transferLog + [voteCount];
    }

    /**
     * The bucket at `weight` of candidate `id`, opened empty if missing. Only
     * that candidate changes, and only by the bucket opened.
     */
    method OpenStack(id: CandidateId, weight: Weight) returns (s: Stack)
      requires Valid() && id in candidates
      modifies candidates[id]
      ensures Valid()
      ensures candidates == old(candidates) && columns == old(columns)
      ensures transfers == old(transfers) && transferLog == old(transferLog)
      ensures s == if weight in old(candidates[id].stacks) then old(candidates[id].stacks[weight]) else NewStack(maxCandidates, 0.0)
      ensures candidates[id].stacks == old(candidates[id].stacks)[weight := s]
      ensures candidates[id].votes == old(candidates[id].votes) && candidates[id].ratio == old(candidates[id].ratio)
      ensures old(Nonnegative()) ==> Nonnegative() && StackNonnegative(s)
    {
      assert Sound(id);
      s := candidates[id].CreateStack(weight);
      forall other | other in candidates
        ensures Sound(other)
        ensures old(Nonnegative()) ==> candidates[other].Nonnegative()
      {
        if other != id {
          assert unchanged(candidates[other]);
        }
      }
    }

    /**
     * The drawing side of a transfer: the buckets of `parentID` that match
     * `weight` forward their shares of `voteCount`, and `acc` is `received` with
     * their prior vectors passed on in proportion. Only that candidate changes.
     */
    method DrawOn(parentID: CandidateId, weight: Weight, voteCount: real, received: Stack) returns (acc: Stack)
      requires Valid() && parentID in candidates
      requires candidates[parentID].ratio == 1.0 ==> weight in candidates[parentID].stacks
      requires SplitDefined(candidates[parentID].stacks, candidates[parentID].StacksByWeight(weight))
      requires |received.prior| == maxCandidates
      modifies candidates[parentID]
      ensures Valid()
      ensures candidates == old(candidates) && columns == old(columns)
      ensures transfers == old(transfers) && transferLog == old(transferLog)
      ensures
        var matched := old(candidates[parentID].StacksByWeight(weight));
        var total := MatchedVotes(old(candidates[parentID].stacks), matched);
        candidates[parentID].stacks == Drawn(old(candidates[parentID].stacks), matched, voteCount, total) &&
        acc == received.(prior := Accumulated(received.prior, old(candidates[parentID].stacks), matched, voteCount, total))
      ensures candidates[parentID].votes == old(candidates[parentID].votes)
      ensures candidates[parentID].ratio == old(candidates[parentID].ratio)
      ensures old(candidates[parentID].StacksByWeight(weight)) != {} ==>
        candidates[parentID].TransferredVotes() == old(candidates[parentID].TransferredVotes()) + voteCount
      ensures old(Nonnegative()) && voteCount >= 0.0 ==> Nonnegative()
      ensures old(Nonnegative()) && voteCount >= 0.0 && StackNonnegative(received) ==> StackNonnegative(acc)
    {
      assert Sound(parentID);
      var matched := candidates[parentID].StacksByWeight(weight);
      acc := candidates[parentID].DrawMatched(matched, voteCount, received);
      forall other | other in candidates
        ensures Sound(other)
        ensures old(Nonnegative()) && voteCount >= 0.0 ==> candidates[other].Nonnegative()
      {
        if other != parentID {
          assert unchanged(candidates[other]);
        }
      }
    }

    /**
     * The receiving side of a transfer: the bucket of `childID` at `entry.weight`
     * becomes `s`, which holds that bucket's ballots plus those received, and the
     * ledger logs `entry`. Only that candidate changes.
     */
    method CreditTransfer(childID: CandidateId, entry: Votes, s: Stack)
      requires Valid() && childID in candidates
      requires entry.weight in candidates[childID].stacks && |s.prior| == maxCandidates
      requires s.voteCount == candidates[childID].stacks[entry.weight].voteCount + entry.voteCount
      modifies candidates[childID]
      ensures Valid()
      ensures candidates == old(candidates) && columns == old(columns)
      ensures transfers == old(transfers) && transferLog == old(transferLog)
      ensures candidates[childID].stacks == old(candidates[childID].stacks)[entry.weight := s]
      ensures candidates[childID].votes == old(candidates[childID].votes) + [entry]
      ensures candidates[childID].ratio == old(candidates[childID].ratio)
      ensures candidates[childID].VoteCount() == old(candidates[childID].VoteCount()) + entry.voteCount
      ensures old(Nonnegative()) && StackNonnegative(s) ==> Nonnegative()
    {
      assert Sound(childID);
      candidates[childID].Credit(entry, s);
      forall other | other in candidates
        ensures Sound(other)
        ensures old(Nonnegative()) && StackNonnegative(s) ==> candidates[other].Nonnegative()
      {
        if other != childID {
          assert unchanged(candidates[other]);
        }
      }
    }

    /**
     * The estimated number of ballots carrying both `a` and `b`: `a`'s combined
     * prior estimate at `b`'s column plus `b`'s at `a`'s column.
     */
    ghost function CommonVotes(a: CandidateId, b: CandidateId): (r: real)
      reads this, candidates.Values
      requires Valid() && a in candidates && b in candidates
      requires columns[a] < maxCandidates && columns[b] < maxCandidates
      requires candidates[a].stacks != map[] && candidates[b].stacks != map[]
      ensures Nonnegative() ==> r >= 0.0
    {
      assert Sound(a) && Sound(b);
      candidates[a].PriorCandidatesNonnegative(columns[b]);
      candidates[b].PriorCandidatesNonnegative(columns[a]);
      candidates[a].PriorCandidates(columns[b]) + candidates[b].PriorCandidates(columns[a])
    }
  }

  /** The overlap of two candidates does not depend on the order they are named in. */
  lemma CommonVotesSymmetric(e: Election, a: CandidateId, b: CandidateId)
    requires e.Valid() && a in e.candidates && b in e.candidates
    requires e.columns[a] < e.maxCandidates && e.columns[b] < e.maxCandidates
    requires e.candidates[a].stacks != map[] && e.candidates[b].stacks != map[]
    ensures e.CommonVotes(a, b) == e.CommonVotes(b, a)
  {
  }
}
