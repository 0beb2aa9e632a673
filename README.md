# Vote-transfer attribution for an STV count

This project models the engine in `stv_detail.py`. The engine replays an
aggregated Single Transferable Vote count, transfer by transfer. For every
candidate it estimates how many of the candidate's ballots had earlier passed
through each other candidate.

Each candidate holds three things:

- a ledger of the transfers it received (`Votes`: source, weight, count). First
  preferences are entries without a source.
- buckets (`Stack`) keyed by the weight of their ballots. A bucket records:
  - how many ballots it received;
  - how many it has forwarded;
  - a prior vector with one column per candidate, giving the estimated number
    of these ballots that came through that candidate.
- a surplus ratio. It is 1 until the candidate is elected.

A transfer of `voteCount` ballots at `weight` from a parent to a child does
five things:

1. It opens the child's bucket at `weight`, if there is none.
2. It finds the parent's matching buckets. Before election that is the bucket
   of that weight. After election it is every bucket whose weight, times the
   ratio and truncated at five decimals, equals `weight`.
3. Each matched bucket forwards its share of `voteCount`, in proportion to its
   count. The same fraction of its prior vector goes to the child's bucket.
4. The child's bucket gains `voteCount` ballots, plus `voteCount` at the
   parent's column. The child's ledger logs the transfer.
5. The election's running total `transfers` grows by `voteCount`.

The overlap `commonVotes(A, B)` adds two numbers: A's combined prior estimate
at B's column, and B's at A's column.

The model's modules:

- `Decimal`: `floor`, which truncates toward zero at `d` places.
- `Stacks`: the `Votes` and `Stack` values, the ledger sums, bucket matching
  after election, and the balance between ledger and buckets.
- `Transfer`: the proportional split as functions (`Share`, `Drawn`,
  `Accumulated`, `Receive`), with their conservation laws.
- `Sums`: the sums over the keys of a bucket map.
- `Candidates`: the class `Candidate`, which updates its buckets and ledger in
  place.
- `Elections`: the class `Election`, with the registry, the column map, the
  running total and `transferVotes`.

Weights, counts and prior estimates are exact reals.

Two invariants are kept by every operation:

- `Candidate.Valid`: the ledger and the buckets describe the same ballots. They
  agree on the count and on the value (count times weight). Every prior vector
  has `maxCandidates` columns.
- `Election.Valid`: every registered id has a column and its own candidate, and
  `transfers` is the sum of the transfers replayed.

Non-negative counts and prior estimates stay non-negative as long as every
transfer count is non-negative. This covers each bucket's received and
forwarded counts and its prior vector. It does not cover a bucket's orphan
votes (received less forwarded). A transfer larger than the ballots the matched
buckets still hold overdraws them, and the engine does not check for this.
`DrawnOrphans` gives the exact condition under which a bucket's orphan count
stays non-negative, and `OverdrawnOrphans` shows the overdraft.

A transfer whose parent matches no bucket still credits the child and still
adds to `transfers`. Nothing is drawn from the parent. The source does not
treat this as an error, and neither does the model.

The source gives a re-registered id the column `len(_map)`. The next new id gets
that same column, so two candidates share a prior-vector column.
`ReRegistrationCollides` exhibits this. The column map is proved to be a
bijection only for fresh registrations.

## Model

| member | source | states |
|---|---|---|
| Decimal.Trunc | stv_detail.py:8 | Python's `int` on a decimal: the integer part, truncated toward zero on both sides of zero (never moves away from zero) |
| Decimal.Floor | stv_detail.py:6-8 | truncation at `d` places never moves away from zero, lies within 10^-d of the input (for both signs), and has at most `d` decimal digits |
| Decimal.FloorFixedPoint | stv_detail.py:6-8 | truncation leaves a value unchanged exactly when it already has at most `d` decimal digits (both directions) |
| Decimal.FloorIdempotent | stv_detail.py:6-8 | truncating twice at the same place is truncating once |
| Stacks.Stack.OrphanVotes | stv_detail.py:30-33 | a bucket's received ballots split into forwarded and orphaned; the orphan count is negative exactly when more was forwarded than received |
| Stacks.NewStack | stv_detail.py:25-28 | a new bucket has a prior vector of `maxCandidates` zeros, the given count, nothing forwarded, and all its ballots orphaned |
| Stacks.MatchingUnelected | stv_detail.py:53-54 | while the ratio is 1, a transfer at `weight` draws on exactly the bucket of that weight |
| Stacks.MatchingPartition | stv_detail.py:55-56 | after election, a bucket is matched by the query weight exactly when that weight is its own rescaled, truncated weight, so each bucket answers one query weight |
| Stacks.MatchedWeightHasFiveDigits | stv_detail.py:55-56 | after election, only a weight with at most five decimal digits can match any bucket |
| Stacks.MatchingCollision | stv_detail.py:52-56 | at ratio 0.33333, buckets 3.00000 and 3.00003 both rescale to 0.99999, so one query draws on two buckets |
| Stacks.LedgerAppend | stv_detail.py:58-85 | appending a ledger entry adds its count to `voteCount`, its count times weight to `voteValue`, and, for a sourceless entry, its count to `firstPlaceVotes` |
| Stacks.FirstPlaceWithinVotes | stv_detail.py:83-85 | with non-negative entries, first preferences lie between 0 and the candidate's `voteCount` |
| Stacks.OrphanSplit | stv_detail.py:70-73 | for a balanced candidate, `voteCount - transferredVotes` equals the sum of the buckets' orphan votes |
| Stacks.OrphanValueSplit | stv_detail.py:75-77 | for a balanced candidate, `orphanVotesValues` equals the ledger value less the value of the forwarded ballots |
| Stacks.EmptyStackAddsNothing | stv_detail.py:47-49 | opening an empty bucket changes no count, value or forwarded total, and keeps the ledger balanced |
| Stacks.ReceiveKeepsBalance | stv_detail.py:117-119 | adding a transfer's count to a bucket while logging the transfer in the ledger keeps ledger and buckets balanced |
| Stacks.SameCountsKeepBalance | stv_detail.py:112-114 | changing buckets without changing their counts, as forwarding does, keeps ledger and buckets balanced |
| Stacks.PriorColumnNonnegative | stv_detail.py:79-81 | with non-negative buckets, every column of the combined prior vector is non-negative |
| Transfer.ShareAdd | stv_detail.py:113-114 | the shares of two buckets add up to the share of their combined count |
| Transfer.ShareWhole | stv_detail.py:110-114 | the share of the whole matched total is the whole transfer |
| Transfer.CarriedUniform | stv_detail.py:115 | every matched bucket passes on the same fraction of its prior vector, `voteCount` over the matched total |
| Transfer.SumMatchedVotes | stv_detail.py:110 | the loop returns the sum of the matched buckets' counts |
| Transfer.DrawnStep | stv_detail.py:112-114 | forwarding one more bucket changes that bucket alone, by its share |
| Transfer.DrawnKeepsCountsAndPriors | stv_detail.py:112-114 | forwarding keeps every bucket's count and prior vector, and leaves unmatched buckets unchanged |
| Transfer.DrawnForwards | stv_detail.py:112-114 | forwarding a set of buckets raises the forwarded total by the share of their combined count |
| Transfer.DrawnConserves | stv_detail.py:110-114 | when some bucket matches, the parent's forwarded total grows by exactly `voteCount` |
| Transfer.DrawnNothing | stv_detail.py:112-114 | a transfer that matches no bucket leaves the parent's buckets unchanged |
| Transfer.DrawnKeepsNonnegative | stv_detail.py:112-114 | with a non-negative count and positive total, forwarding keeps every bucket non-negative |
| Transfer.DrawnOrphans | stv_detail.py:112-114 | forwarding takes a matched bucket's share out of its orphan votes, so its orphan count stays non-negative exactly when the share is at most what it still held |
| Transfer.OverdrawnOrphans | stv_detail.py:106-114 | a candidate holding 1000 ballots at weight 1 and asked for 1500 forwards all 1500 and is left with -500 orphan votes |
| Transfer.AccumulatedStep | stv_detail.py:115 | visiting one more bucket adds its prior vector, scaled by the fraction it forwards, to the child's vector |
| Transfer.ContributionProportional | stv_detail.py:115 | at every column, the matched buckets contribute `voteCount / total` times their combined estimate at that column |
| Transfer.ReceiveColumns | stv_detail.py:112-118 | the child's column grows by the proportional contribution, plus `voteCount` at the parent's column only; its count grows by `voteCount`; its forwarded count is unchanged |
| Transfer.AccumulatedKeepsNonnegative | stv_detail.py:115 | adding the scaled prior vectors of non-negative buckets keeps the child's bucket non-negative |
| Transfer.DepositKeepsNonnegative | stv_detail.py:117-118 | adding a non-negative count at the parent's column and to the bucket's count keeps it non-negative |
| Transfer.ReceiveKeepsNonnegative | stv_detail.py:106-121 | with non-negative buckets and a non-negative count, the child's new bucket is non-negative |
| Candidates.Candidate.constructor | stv_detail.py:36-45 | a new candidate has ratio 1; a non-zero first-preference count opens the bucket at weight 1 with a sourceless ledger entry, and a zero count opens nothing; the candidate is balanced |
| Candidates.Candidate.CreateStack | stv_detail.py:47-49 | returns the bucket at the weight; an existing bucket leaves the map unchanged, otherwise exactly one empty bucket is added; balance and forwarded total are kept |
| Candidates.Candidate.StacksByWeight | stv_detail.py:51-56 | the buckets a query draws on are existing buckets; which ones is stated by MatchingUnelected and MatchingPartition |
| Candidates.Candidate.DrawMatched | stv_detail.py:108-115 | the loop leaves the buckets as `Drawn` and the child's vector as `Accumulated`; the candidate stays balanced; with a match, `transferredVotes` grows by exactly `voteCount`; non-negativity is kept |
| Candidates.Candidate.Credit | stv_detail.py:117-119 | the bucket becomes the credited one and the ledger logs the entry; `voteCount` grows by the entry's count; the candidate stays balanced |
| Candidates.Candidate.PriorColumnCovers | stv_detail.py:79-81 | every bucket contributes to each column of the combined prior vector |
| Candidates.Candidate.PriorCandidatesNonnegative | stv_detail.py:79-81 | with non-negative buckets, every column of the combined prior vector is non-negative |
| Elections.FreshColumnKeepsBijection | stv_detail.py:98-100 | giving a fresh id column n keeps the column map a bijection onto 0..n |
| Elections.ReRegistrationCollides | stv_detail.py:98-100 | re-registering an id gives it the column the next new id also gets, so the map stops being a bijection |
| Elections.Election.constructor | stv_detail.py:92-96 | an empty registry and column map, `transfers` 0 |
| Elections.Election.AddCandidate | stv_detail.py:98-100 | files a new candidate under the id, replacing any previous one, at column n (the number of ids registered before); a fresh id keeps the column map a bijection; nothing else changes |
| Elections.Election.Register | stv_detail.py:98-100 | the registry update of `addCandidate`: the candidate is filed at column n and the election stays valid |
| Elections.Election.SetRatio | stv_detail.py:102-104 | the candidate's ratio is set; its buckets and ledger are untouched |
| Elections.Election.TransferVotes | stv_detail.py:106-121 | the parent's buckets become `Drawn`; the child's bucket at the weight becomes `Receive` of the old or newly opened bucket; the child's ledger logs the transfer; `voteCount` and `transfers` grow by the count; with a match, the parent's forwarded total grows by the count; the candidate set, columns and invariants are kept |
| Elections.Election.Move | stv_detail.py:106-119 | the candidates' part of a transfer, with the same contract as TransferVotes but leaving `transfers` unchanged |
| Elections.Election.Tally | stv_detail.py:121 | `transfers` grows by the count and stays the sum of the replayed transfers; no candidate changes |
| Elections.Election.OpenStack | stv_detail.py:107 | the child's bucket at the weight, opened empty if missing; only that candidate changes |
| Elections.Election.DrawOn | stv_detail.py:108-115 | the parent's matching buckets forward their shares and the child's vector gains theirs; only the parent changes |
| Elections.Election.CreditTransfer | stv_detail.py:117-119 | the child's bucket is credited and the transfer logged; only the child changes |
| Elections.Election.CommonVotes | stv_detail.py:123-125 | A's combined prior estimate at B's column plus B's at A's; it is non-negative when every bucket is non-negative |
| Elections.CommonVotesSymmetric | stv_detail.py:123-125 | `commonVotes(A, B) == commonVotes(B, A)` |

## Left out

- `Election.load` (stv_detail.py:143-181) is left out. It reads and parses the report file and prints progress. Its effect is a sequence of `AddCandidate`, `TransferVotes` and `SetRatio` calls.
- `writeCommonCandidates`, the module-level driver and the `__repr__` methods are file output and text formatting.
- `checksum` reads the module-level `election` rather than `self` and works in floats; the source does not say what value it should have.
- Prior vectors are exact reals, not numpy floats, and the `float(...)` casts at lines 115 and 117 are not modelled.
- Counts and weights are exact reals, not Python decimals rounded to 28 significant digits. So the split conserves `voteCount` exactly in the model, and only up to that rounding in the source.
- Candidate aggregates (`voteCount`, `voteValue`, `transferredVotes`, `orphanVotes`, `orphanVotesValues`, `priorCandidates`, `firstPlaceVotes`) are functions without contracts of their own. The lemmas above state their properties.
- The sums over bucket maps are ghost, because they add up an unordered map.
- Candidates.Candidate.StacksByWeight: requires the weight to be a bucket key while the ratio is 1; the source raises `KeyError` there.
- Elections.Election.TransferVotes: requires both ids to be registered and the weight to be a parent bucket key while the ratio is 1. The source raises `KeyError` otherwise, after the child's bucket has already been opened; that partial update is not modelled.
- Elections.Election.TransferVotes: requires the matched buckets to have non-zero counts and a non-zero total (`SplitDefined`); the source divides by both.
- Elections.Election.TransferVotes: requires the parent's column to be below `maxCandidates`; numpy raises `IndexError` beyond it.
- Elections.Election.TransferVotes: requires the parent and the child to differ; a transfer from a candidate to itself, which would alias the child bucket with a parent bucket, is not modelled.
- Elections.Election.TransferVotes: adds to `transfers` before moving the ballots, while the source adds last; no caller can observe the order.
- Elections.Election.Valid: `transfers` is the sum of the replayed transfer counts, not the sum of the candidates' forwarded totals. A transfer that matches no parent bucket adds to the first and not to the second.
- Elections.Election.CommonVotes: requires both candidates to hold a bucket. With none, `priorCandidates` is the scalar 0 and indexing it raises `TypeError`.
- Elections.Election.CommonVotes: requires both ids to be registered and both columns to be below `maxCandidates`. Otherwise the source raises `KeyError` or numpy raises `IndexError` (line 125).
- Elections.Election.SetRatio: requires the id to be registered; the source raises `KeyError` otherwise (line 104).
- Stacks.Stack.OrphanVotes: the source does not keep orphan votes non-negative. A transfer larger than the ballots the matched buckets still hold leaves them negative (`OverdrawnOrphans`), and the model, like the source, does not reject such a transfer.
- Buckets are values in their candidate's map rather than shared objects. No bucket is reachable from two candidates, so replacing a bucket in the map is the same as updating it in place.
- The other candidates are kept unchanged by the `modifies` clause of TransferVotes, not by an `ensures` clause.
