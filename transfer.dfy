/**
 * The proportional split behind `Election.transferVotes`, on values. A transfer
 * of `voteCount` ballots at some weight draws on the source candidate's matched
 * buckets in proportion to their counts: each matched bucket forwards its share,
 * and the receiving bucket inherits, from each matched bucket, the same fraction
 * of that bucket's prior-candidate estimates.
 */
module Transfer {
  import opened Sums
  import opened Stacks

  // The arithmetic of one matched bucket.

  /** The ballots a bucket of `count` ballots forwards, out of `total` matched ballots. */
  function Share(voteCount: real, count: real, total: real): real
    requires total != 0.0
  {
    voteCount * (count / total)
  }

  /** The fraction of a bucket's own ballots that its share represents. */
  function Carried(voteCount: real, count: real, total: real): real
    requires total != 0.0 && count != 0.0
  {
    Share(voteCount, count, total) / count
  }

  /**
   * The engine's own arithmetic, `part = count / total` and then `voteCount * part`,
   * computes the share and the carried fraction.
   */
  lemma PartIsShare(voteCount: real, count: real, total: real, part: real)
    requires total != 0.0 && count != 0.0 && part == count / total
    ensures voteCount * part == Share(voteCount, count, total)
    ensures voteCount * part / count == Carried(voteCount, count, total)
  {
  }

  lemma ShareAdd(voteCount: real, a: real, b: real, total: real)
    requires total != 0.0
    ensures Share(voteCount, a, total) + Share(voteCount, b, total) == Share(voteCount, a + b, total)
  {
    assert a / total + b / total == (a + b) / total;
  }

  lemma ShareWhole(voteCount: real, total: real)
    requires total != 0.0
    ensures Share(voteCount, total, total) == voteCount
  {
  }

  lemma ShareNonnegative(voteCount: real, count: real, total: real)
    requires voteCount >= 0.0 && count >= 0.0 && total > 0.0
    ensures Share(voteCount, count, total) >= 0.0
  {
    assert count / total >= 0.0;
  }

  /** Every matched bucket passes on the same fraction of its ballots: `voteCount / total`. */
  lemma CarriedUniform(voteCount: real, count: real, total: real)
    requires total != 0.0 && count != 0.0
    ensures Carried(voteCount, count, total) == voteCount / total
  {
    assert voteCount * (count / total) == (voteCount / total) * count;
  }

  // The matched buckets and their total.

  /** The total count of the matched buckets: the denominator of the split. */
  ghost function MatchedVotes(stacks: map<Weight, Stack>, matched: set<Weight>): real
    requires matched <= stacks.Keys
  {
    SumOver(matched, VoteCounts(stacks))
  }

  /**
   * The split divides by the total and by each matched bucket's count; both
   * must be non-zero. With no matched bucket nothing is divided.
   */
  ghost predicate SplitDefined(stacks: map<Weight, Stack>, matched: set<Weight>)
  {
    matched <= stacks.Keys &&
    (forall w | w in matched :: stacks[w].voteCount != 0.0) &&
    (matched != {} ==> MatchedVotes(stacks, matched) != 0.0)
  }

  /** The matched buckets' total, added up one bucket at a time. */
  method SumMatchedVotes(stacks: map<Weight, Stack>, matched: set<Weight>) returns (total: real)
    requires matched <= stacks.Keys
    ensures total == MatchedVotes(stacks, matched)
  {
    total := 0.0;
    var rest := matched;
    while rest != {}
      invariant rest <= matched
      invariant total + SumOver(rest, VoteCounts(stacks)) == MatchedVotes(stacks, matched)
      decreases rest
    {
      var w :| w in rest;
      SumOverPick(rest, VoteCounts(stacks), w);
      total := total + stacks[w].voteCount;
      rest := rest - {w};
    }
  }

  // The source candidate's buckets.

  /** A matched bucket after forwarding its share. */
  function Forward(s: Stack, voteCount: real, total: real): Stack
    requires total != 0.0
  {
    s.(transferredVotes := s.transferredVotes + Share(voteCount, s.voteCount, total))
  }

  /** The source candidate's buckets once the buckets in `done` have forwarded their shares. */
  function Drawn(stacks: map<Weight, Stack>, done: set<Weight>, voteCount: real, total: real): map<Weight, Stack>
    requires done <= stacks.Keys && (done != {} ==> total != 0.0)
  {
    map w | w in stacks :: if w in done then Forward(stacks[w], voteCount, total) else stacks[w]
  }

  /** Drawing on one more bucket changes only that bucket. */
  lemma DrawnStep(stacks: map<Weight, Stack>, done: set<Weight>, w: Weight, voteCount: real, total: real)
    requires done + {w} <= stacks.Keys && w !in done && total != 0.0
    ensures Drawn(stacks, done + {w}, voteCount, total) == Drawn(stacks, done, voteCount, total)[w := Forward(stacks[w], voteCount, total)]
  {
  }

  /** Drawing changes no bucket's count and no bucket's prior vector. */
  lemma DrawnKeepsCountsAndPriors(stacks: map<Weight, Stack>, done: set<Weight>, voteCount: real, total: real)
    requires done <= stacks.Keys && (done != {} ==> total != 0.0)
    ensures Drawn(stacks, done, voteCount, total).Keys == stacks.Keys
    ensures forall w | w in stacks ::
      Drawn(stacks, done, voteCount, total)[w].voteCount == stacks[w].voteCount &&
      Drawn(stacks, done, voteCount, total)[w].prior == stacks[w].prior
    ensures forall w | w in stacks && w !in done :: Drawn(stacks, done, voteCount, total)[w] == stacks[w]
  {
  }

  /**
   * Having drawn on the buckets in `done`, the source candidate has forwarded
   * `voteCount` times their part of the total.
   */
  lemma {:induction false} DrawnForwards(stacks: map<Weight, Stack>, done: set<Weight>, voteCount: real, total: real)
    requires done <= stacks.Keys && total != 0.0
    ensures SumOver(stacks.Keys, Transferred(Drawn(stacks, done, voteCount, total)))
         == SumOver(stacks.Keys, Transferred(stacks)) + Share(voteCount, SumOver(done, VoteCounts(stacks)), total)
    decreases done
  {
    if done == {} {
      SumOverAgree(stacks.Keys, Transferred(Drawn(stacks, done, voteCount, total)), Transferred(stacks));
    } else {
      var w := Pick(done);
      var rest := done - {w};
      assert done == rest + {w};
      DrawnForwards(stacks, rest, voteCount, total);
      DrawnStep(stacks, rest, w, voteCount, total);
      var before := Transferred(Drawn(stacks, rest, voteCount, total));
      var after := Transferred(Drawn(stacks, done, voteCount, total));
      SumOverChangeOne(stacks.Keys, before, after, w);
      SumOverPick(done, VoteCounts(stacks), w);
      ShareAdd(voteCount, stacks[w].voteCount, SumOver(rest, VoteCounts(stacks)), total);
    }
  }

  /**
   * Conservation: when at least one bucket matches, the source candidate's
   * forwarded votes grow by exactly `voteCount`.
   */
  lemma DrawnConserves(stacks: map<Weight, Stack>, matched: set<Weight>, voteCount: real)
    requires matched <= stacks.Keys && matched != {}
    requires MatchedVotes(stacks, matched) != 0.0
    ensures SumOver(stacks.Keys, Transferred(Drawn(stacks, matched, voteCount, MatchedVotes(stacks, matched))))
         == SumOver(stacks.Keys, Transferred(stacks)) + voteCount
  {
    var total := MatchedVotes(stacks, matched);
    DrawnForwards(stacks, matched, voteCount, total);
    ShareWhole(voteCount, total);
  }

  /** With nothing matched, the source candidate's buckets are left as they were. */
  lemma DrawnNothing(stacks: map<Weight, Stack>, voteCount: real, total: real)
    ensures Drawn(stacks, {}, voteCount, total) == stacks
  {
  }

  /** Drawing keeps non-negative buckets non-negative. */
  lemma DrawnKeepsNonnegative(stacks: map<Weight, Stack>, done: set<Weight>, voteCount: real, total: real)
    requires done <= stacks.Keys && total > 0.0 && voteCount >= 0.0
    requires StacksNonnegative(stacks)
    ensures StacksNonnegative(Drawn(stacks, done, voteCount, total))
  {
    forall w | w in done
      ensures StackNonnegative(Forward(stacks[w], voteCount, total))
    {
      ShareNonnegative(voteCount, stacks[w].voteCount, total);
    }
  }

  /**
   * Drawing takes a matched bucket's share out of its orphan votes: the bucket
   * keeps a non-negative orphan count exactly when its share is no more than
   * the ballots it still held. Nothing in the engine bounds the share.
   */
  lemma DrawnOrphans(stacks: map<Weight, Stack>, done: set<Weight>, voteCount: real, total: real, w: Weight)
    requires done <= stacks.Keys && total != 0.0 && w in done
    ensures Drawn(stacks, done, voteCount, total)[w].OrphanVotes()
         == stacks[w].OrphanVotes() - Share(voteCount, stacks[w].voteCount, total)
    ensures Drawn(stacks, done, voteCount, total)[w].OrphanVotes() >= 0.0
        <==> Share(voteCount, stacks[w].voteCount, total) <= stacks[w].OrphanVotes()
  {
  }

  /**
   * A transfer can overdraw its source: a candidate holding 1000 first
   * preferences at weight 1 that is asked to transfer 1500 ballots at weight 1
   * forwards all 1500 and is left with -500 orphan votes.
   */
  lemma OverdrawnOrphans(maxCandidates: nat)
    ensures var stacks := map[1.0 := NewStack(maxCandidates, 1000.0)];
      var matched := Matching(stacks, 1.0, 1.0);
      matched == {1.0} && MatchedVotes(stacks, matched) == 1000.0 &&
      Drawn(stacks, matched, 1500.0, MatchedVotes(stacks, matched))[1.0].OrphanVotes() == -500.0
  {
    var stacks := map[1.0 := NewStack(maxCandidates, 1000.0)];
    assert {1.0} - {1.0} == {};
    SumOverPick({1.0}, VoteCounts(stacks), 1.0);
    assert MatchedVotes(stacks, {1.0}) == 1000.0;
  }

  // The receiving bucket.

  /** The matched buckets may be drawn on into a prior vector of length `n`. */
  ghost predicate Drawable(stacks: map<Weight, Stack>, done: set<Weight>, n: nat)
  {
    done <= stacks.Keys &&
    forall w | w in done :: stacks[w].voteCount != 0.0 && |stacks[w].prior| == n
  }

  /** What each bucket passes on at column `i`: its prior estimate times the fraction of it forwarded. */
  function Scaled(stacks: map<Weight, Stack>, voteCount: real, total: real, i: nat): map<Weight, real>
    requires total != 0.0
  {
    map w | w in stacks && stacks[w].voteCount != 0.0 && i < |stacks[w].prior| ::
      stacks[w].prior[i] * Carried(voteCount, stacks[w].voteCount, total)
  }

  /** What the buckets in `done` pass on together at column `i`. */
  ghost function Contribution(stacks: map<Weight, Stack>, done: set<Weight>, voteCount: real, total: real, i: nat): real
    requires done <= stacks.Keys && (done != {} ==> total != 0.0)
    requires forall w | w in done :: stacks[w].voteCount != 0.0 && i < |stacks[w].prior|
  {
    if done == {} then 0.0
    else
      ScaledCovers(stacks, done, voteCount, total, i);
      SumOver(done, Scaled(stacks, voteCount, total, i))
  }

  lemma ScaledCovers(stacks: map<Weight, Stack>, done: set<Weight>, voteCount: real, total: real, i: nat)
    requires done <= stacks.Keys && total != 0.0
    requires forall w | w in done :: stacks[w].voteCount != 0.0 && i < |stacks[w].prior|
    ensures done <= Scaled(stacks, voteCount, total, i).Keys
  {
    forall w | w in done
      ensures w in Scaled(stacks, voteCount, total, i)
    {
    }
  }

  /** A receiving prior vector `base` once the buckets in `done` have passed on their parts. */
  ghost function Accumulated(base: seq<real>, stacks: map<Weight, Stack>, done: set<Weight>, voteCount: real, total: real): (r: seq<real>)
    requires Drawable(stacks, done, |base|) && (done != {} ==> total != 0.0)
    ensures |r| == |base|
  {
    seq(|base|, i requires 0 <= i < |base| => base[i] + Contribution(stacks, done, voteCount, total, i))
  }

  /**
   * The receiving bucket after the transfer: every column inherits the matched
   * buckets' parts, the source candidate's own column `col` gains `voteCount`
   * outright, and the bucket's count grows by `voteCount`.
   */
  ghost function Receive(cs: Stack, stacks: map<Weight, Stack>, matched: set<Weight>, voteCount: real, total: real, col: nat): (r: Stack)
    requires Drawable(stacks, matched, |cs.prior|) && (matched != {} ==> total != 0.0) && col < |cs.prior|
    ensures |r.prior| == |cs.prior|
  {
    Deposit(cs.(prior := Accumulated(cs.prior, stacks, matched, voteCount, total)), col, voteCount)
  }

  /** A bucket credited with `voteCount` ballots from the candidate at column `col`. */
  function Deposit(s: Stack, col: nat, voteCount: real): (r: Stack)
    requires col < |s.prior|
  {
    Stack(s.prior[col := s.prior[col] + voteCount], s.voteCount + voteCount, s.transferredVotes)
  }

  /** Adds `f` times `b` to `a`, entry by entry: the numpy update of the receiving vector. */
  function AddScaled(a: seq<real>, b: seq<real>, f: real): (r: seq<real>)
    requires |a| == |b|
    ensures |r| == |a|
  {
    seq(|a|, i requires 0 <= i < |a| => a[i] + b[i] * f)
  }

  /** Passing on one more bucket's part is one numpy update of the receiving vector. */
  lemma AccumulatedStep(base: seq<real>, stacks: map<Weight, Stack>, done: set<Weight>, w: Weight, voteCount: real, total: real)
    requires Drawable(stacks, done + {w}, |base|) && w !in done && total != 0.0
    ensures Accumulated(base, stacks, done + {w}, voteCount, total)
         == AddScaled(Accumulated(base, stacks, done, voteCount, total), stacks[w].prior, Carried(voteCount, stacks[w].voteCount, total))
  {
    var before := Accumulated(base, stacks, done, voteCount, total);
    var after := Accumulated(base, stacks, done + {w}, voteCount, total);
    forall i | 0 <= i < |base|
      ensures after[i] == before[i] + stacks[w].prior[i] * Carried(voteCount, stacks[w].voteCount, total)
    {
      var sc := Scaled(stacks, voteCount, total, i);
      ScaledCovers(stacks, done + {w}, voteCount, total, i);
      SumOverPick(done + {w}, sc, w);
      assert done + {w} - {w} == done;
    }
    var added := AddScaled(before, stacks[w].prior, Carried(voteCount, stacks[w].voteCount, total));
    assert |after| == |added|;
    assert forall i | 0 <= i < |after| :: after[i] == added[i];
  }

  /**
   * The reference formula: at every column the buckets in `done` pass on
   * `voteCount / total` of their combined prior estimates.
   */
  lemma ContributionProportional(stacks: map<Weight, Stack>, done: set<Weight>, voteCount: real, total: real, i: nat)
    requires done <= stacks.Keys && total != 0.0
    requires forall w | w in done :: stacks[w].voteCount != 0.0 && i < |stacks[w].prior|
    ensures done <= PriorColumn(stacks, i).Keys
    ensures Contribution(stacks, done, voteCount, total, i) == voteCount / total * SumOver(done, PriorColumn(stacks, i))
  {
    var sc := Scaled(stacks, voteCount, total, i);
    var pc := PriorColumn(stacks, i);
    forall w | w in done
      ensures w in sc && w in pc && sc[w] == voteCount / total * pc[w]
    {
      CarriedUniform(voteCount, stacks[w].voteCount, total);
    }
    SumOverScale(done, pc, voteCount / total, sc);
  }

  /**
   * The receiving bucket column by column: every column gains `voteCount / total`
   * of the matched buckets' combined estimates at that column, the source
   * candidate's column `col` gains `voteCount` on top, and the bucket's count
   * grows by `voteCount` while its forwarded votes stay as they were.
   */
  lemma ReceiveColumns(cs: Stack, stacks: map<Weight, Stack>, matched: set<Weight>, voteCount: real, total: real, col: nat, i: nat)
    requires Drawable(stacks, matched, |cs.prior|) && (matched != {} ==> total != 0.0)
    requires col < |cs.prior| && i < |cs.prior|
    ensures matched <= PriorColumn(stacks, i).Keys
    ensures Receive(cs, stacks, matched, voteCount, total, col).prior[i]
         == cs.prior[i]
            + (if matched == {} then 0.0 else voteCount / total * SumOver(matched, PriorColumn(stacks, i)))
            + (if i == col then voteCount else 0.0)
    ensures Receive(cs, stacks, matched, voteCount, total, col).voteCount == cs.voteCount + voteCount
    ensures Receive(cs, stacks, matched, voteCount, total, col).transferredVotes == cs.transferredVotes
  {
    if matched != {} {
      ContributionProportional(stacks, matched, voteCount, total, i);
    }
  }

  /** Passing on parts of non-negative buckets keeps a non-negative receiving bucket non-negative. */
  lemma AccumulatedKeepsNonnegative(cs: Stack, stacks: map<Weight, Stack>, matched: set<Weight>, voteCount: real, total: real)
    requires Drawable(stacks, matched, |cs.prior|)
    requires voteCount >= 0.0 && (matched != {} ==> total > 0.0)
    requires StackNonnegative(cs) && StacksNonnegative(stacks)
    ensures StackNonnegative(cs.(prior := Accumulated(cs.prior, stacks, matched, voteCount, total)))
  {
    var acc := Accumulated(cs.prior, stacks, matched, voteCount, total);
    forall i | 0 <= i < |cs.prior|
      ensures acc[i] >= 0.0
    {
      if matched != {} {
        var sc := Scaled(stacks, voteCount, total, i);
        ScaledCovers(stacks, matched, voteCount, total, i);
        forall w | w in matched
          ensures sc[w] >= 0.0
        {
          ShareNonnegative(voteCount, stacks[w].voteCount, total);
          assert Carried(voteCount, stacks[w].voteCount, total) >= 0.0;
        }
        SumOverNonnegative(matched, sc);
      }
    }
  }

  /** Crediting a non-negative number of ballots keeps a non-negative bucket non-negative. */
  lemma DepositKeepsNonnegative(s: Stack, col: nat, voteCount: real)
    requires col < |s.prior| && voteCount >= 0.0 && StackNonnegative(s)
    ensures StackNonnegative(Deposit(s, col, voteCount))
  {
  }

  /** Receiving keeps a non-negative bucket non-negative when drawing on non-negative buckets. */
  lemma ReceiveKeepsNonnegative(cs: Stack, stacks: map<Weight, Stack>, matched: set<Weight>, voteCount: real, total: real, col: nat)
    requires Drawable(stacks, matched, |cs.prior|) && col < |cs.prior|
    requires voteCount >= 0.0 && (matched != {} ==> total > 0.0)
    requires StackNonnegative(cs) && StacksNonnegative(stacks)
    ensures StackNonnegative(Receive(cs, stacks, matched, voteCount, total, col))
  {
    AccumulatedKeepsNonnegative(cs, stacks, matched, voteCount, total);
    DepositKeepsNonnegative(cs.(prior := Accumulated(cs.prior, stacks, matched, voteCount, total)), col, voteCount);
  }
}
