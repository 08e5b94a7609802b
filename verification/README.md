# Weighted lottery simulation — a Dafny model

This project models the computing part of `app.py`, a single-script
weighted lottery. One run does the following:

- It generates a population of players. Each player has a stake and a daily
  streak drawn from exponential distributions, clamped below.
- It gives every player a weight: the base-3 logarithm of the stake plus
  the streak times a multiplier.
- It turns the weights into winning probabilities.
- It counts how many players win and how many of those are paid.
- It takes 15% of all stakes as the rewards pool, and deducts a 5% fee from it.
- It draws the paid winners with replacement and splits the pool after the
  fee among them, in proportion to their weights.

The player records are dicts that the script updates in place. In the model
each record is an object of class `Players.Player`:

- "User", "Stake" and "Daily Streak" are constants.
- "Total Weight", "Winning Probability" and "Winning Amount" are mutable
  `Option<real>` fields. Each is `None` until the script writes that key.

The two loops of `calculate_probabilities` and the loop of
`distribute_winnings` are methods with loop invariants. Each method is proved
against the functions `Weights`, `Ratios` and `Payouts`, and lemmas prove the
properties of those functions. A record that appears twice in a list is one
object written twice; the invariants are stated per object, so nothing
assumes the records are distinct.

The sources of randomness are parameters:

- `stakeDraws` and `streakDraws` are the values `random.expovariate` returned.
- `draws` (`choices` in the run) are the positions `random.choices` picked.

`math.log(stake, 3)` is the parameter `stakeLog`. The only fact assumed about
it is `Weighting.LogFloor`: it is at least 1 for every stake of at least 3.

Python floats are modelled as exact reals. Python's `int()` on a float is
`Numeric.Trunc`, which truncates toward zero. Two of the Python exceptions the
core can raise are values of `Players.Error`; the KeyError of a missing dict
key is not modelled (see "Left out"):

- `LogDomainError` stands for the ValueError of `math.log` on a stake ≤ 0.
- `DivisionByZeroError` stands for ZeroDivisionError.

The modules are:

- `Numeric`: truncation, sums, and the arithmetic lemmas.
- `Naming`: the `"Player {i+1}"` identifiers.
- `Players`: the records and `generate_players`.
- `Weighting`: `calculate_probabilities`.
- `Distribution`: `distribute_winnings`.
- `Accounting`: the winner counts and the pools.
- `Simulation`: the whole run at app.py:74-86.

The paid-winner count is not `round(N * (100 - L) / 100 * D / 100)`: the
script truncates twice, first `int(N * ((100 - L) / 100))`, then
`int(num_winners * (D / 100))`, each raised to at least 1. `Accounting.WinnerCountByFloorDivision` and
`Accounting.DistributedWinnerCountByFloorDivision` show that these are
integer floor divisions. For example, 100 players with 15% losers and 5%
distributed give 85 winners and 4 paid winners
(`Accounting.DefaultScenario`).

## Model

| member | source | states |
|---|---|---|
| Numeric.Trunc | app.py:48 | Python's `int()` on a number: the result is the integer part, at most the input and more than the input minus 1 when the input is non-negative, and symmetrically toward zero when it is negative |
| Naming.PlayerName | app.py:51 | the identifier is "Player " followed by the decimal digits of the number |
| Naming.DecimalRoundTrip | app.py:51 | reading back the decimal rendering of a number gives the number |
| Naming.PlayerNameInjective | app.py:51 | two players get the same identifier exactly when they have the same number |
| Players.Player.constructor | app.py:51 | a new record holds exactly the given user, stake and daily streak, and none of the keys added later |
| Players.ClampedStake | app.py:48 | a stake is never below the minimum stake; when the draw reaches the minimum it is the truncated draw (within 1 below the draw), otherwise it is the minimum |
| Players.ClampedStreak | app.py:50 | a daily streak is at least 1; when the draw is at least 1 it is the truncated draw, otherwise it is 1 |
| Players.GeneratePlayers | app.py:44-52 | returns exactly `numPlayers` new, distinct records in order; record i is named "Player i+1", has the clamped stake and streak of the i-th draws and no derived keys; the identifiers are pairwise distinct |
| Weighting.Weight | app.py:58-60 | the "Total Weight" of one record, `log(stake) + streak * multiplier`: with a non-negative multiplier and streak it is at least the stake's logarithm, and with a zero multiplier it is exactly that logarithm |
| Weighting.Weights | app.py:57-60 | the weights of a population, one per record and in order (entry i is `Weight` of record i) |
| Weighting.FirstNonPositiveStake | app.py:57-58 | the position where `math.log` first fails: every earlier stake is positive, and the stake there is not |
| Weighting.CalculateProbabilities | app.py:55-63 | fails with the logarithm's domain error exactly when some stake is ≤ 0, and with division by zero exactly when all stakes are positive, the population is non-empty and the weights sum to 0; every record up to the first bad stake gets its weight and the others keep theirs; on success record i has weight `Weights[i]` and probability `Weights[i] / Sum(Weights)`; on failure no probability changes; no winning amount changes |
| Weighting.AssignWeights | app.py:56-61 | the first loop: fails exactly at a stake ≤ 0, writes the weight into every record before that stake and nothing else, and on success returns the sum of all weights |
| Weighting.AssignWeight | app.py:58-60 | one iteration of the first loop: the record's "Total Weight" becomes log of its stake plus streak times multiplier, and the value is returned |
| Weighting.AssignProbabilities | app.py:62-63 | the second loop: fails exactly when the population is non-empty and the total is 0, and otherwise gives every record its weight divided by the total; no weight or amount changes |
| Weighting.WeightsAtLeastOne | app.py:57-60 | with stakes ≥ 3, streaks ≥ 1 and a non-negative multiplier, every weight is at least 1 |
| Weighting.GeneratedPopulationIsWeighable | app.py:56-61 | on generated records no stake reaches the logarithm's forbidden domain, and the total weight is at least the population size, so it is never 0 for a non-empty population |
| Weighting.ProbabilitiesSumToOne | app.py:62-63 | the probabilities of a population with a non-zero total weight sum to exactly 1 |
| Weighting.ProbabilitiesInUnitInterval | app.py:62-63 | with positive weights every probability lies in (0, 1] |
| Distribution.Share | app.py:70 | one draw's amount `(w / total) * pool`: a weight that is a positive part of the total gets a part of a non-negative pool between 0 and the pool, and a weight equal to the total gets the whole pool |
| Distribution.DrawnWeights | app.py:68 | the "Total Weight" of each drawn record, one entry per draw, repeats included: the terms of `total_winner_weight` |
| Distribution.Payouts | app.py:69-70 | the amount of each draw, one per draw: the draw's weight over the drawn total, times the pool |
| Distribution.DistributeWinnings | app.py:66-71 | fails with division by zero exactly when something is drawn and the drawn weights sum to 0, and then writes nothing; otherwise returns one record per draw (the record at that position, repeats included), gives the k-th returned record the k-th payout `Payouts(DrawnWeights)[k]`, and leaves the records not drawn as they were; no weight or probability changes |
| Distribution.AssignWinningAmounts | app.py:69-70 | the loop: every listed record, once or more, ends with the share of its own weight in the pool; no weight or probability changes |
| Distribution.PayoutAt | app.py:70 | the payout of draw k is that draw's weight over the drawn total, times the pool |
| Distribution.RepeatedDrawsGetEqualShares | app.py:69-70 | two draws of the same record compute the same amount, so a repeated write does not change it |
| Distribution.PayoutsSumToPool | app.py:68-70 | the payouts of all draws, counting repeats, sum to exactly the pool |
| Distribution.PayoutsWithinPool | app.py:68-70 | with positive weights and a non-negative pool, the drawn total is positive and every payout lies between 0 and the pool |
| Accounting.WinnerCount | app.py:74-75 | at least one player wins |
| Accounting.DistributedWinnerCount | app.py:76 | at least one winner is paid |
| Accounting.PercentageIsFloorDivision | app.py:75-76 | truncating a whole percentage of a count is integer floor division by 100 |
| Accounting.WinnerCountByFloorDivision | app.py:74-75 | the winner count is `max(1, N * (100 - L) / 100)` in integer arithmetic |
| Accounting.DistributedWinnerCountByFloorDivision | app.py:76 | the paid-winner count is `max(1, winners * D / 100)` in integer arithmetic |
| Accounting.WinnerCountsOrdered | app.py:74-76 | for N ≥ 1, 0 ≤ L ≤ 100 and 1 ≤ D ≤ 100: 1 ≤ paid winners ≤ winners ≤ N |
| Accounting.TotalPool | app.py:80 | the sum of all stakes; when no stake is negative it is non-negative and at least every single stake |
| Accounting.TotalPoolAtLeast | app.py:80 | when every stake is at least the minimum, the total pool is at least the population size times the minimum |
| Accounting.RewardsPool | app.py:81 | the rewards pool lies between 0 and the total pool, with the sign of the total pool |
| Accounting.PoolAfterFee | app.py:82 | the pool after the fee lies between 0 and the rewards pool, with the sign of the rewards pool |
| Accounting.PoolsOrdered | app.py:80-82 | 0 ≤ pool after fee ≤ rewards pool ≤ total pool, and the pool after fee is exactly 14.25% of the total pool |
| Accounting.DefaultScenario | app.py:74-82 | 100 players with 15% losers and 5% distributed give 85 winners and 4 paid winners; a total pool of 1000 gives rewards of 150 and 142.5 after the fee |
| Simulation.RunSimulation | app.py:74-86 | for slider-range inputs the run raises nothing. The counts satisfy 1 ≤ paid ≤ winners ≤ N. There are N generated records, record i named "Player i+1", with clamped stakes and streaks. The total pool is at least 3N, and 0 ≤ pool after fee ≤ rewards ≤ total. Every record's probability is its share of the total weight, lies in (0, 1], and the probabilities sum to 1. One winner is returned per choice, and the k-th is paid `Payouts(DrawnWeights)[k]`, its weight's share of the pool after the fee; each amount lies in [0, pool after fee], and the amounts sum to exactly the pool after the fee. Records never drawn have no winning amount |
| Simulation.WeighGeneratedPopulation | app.py:85 | `calculate_probabilities` on generated records succeeds: every record gets its weight and its share of the total weight, each share lies in (0, 1], and the shares sum to 1 |
| Simulation.DrawWinners | app.py:86 | `distribute_winnings` on weighed records succeeds: one record per draw, the k-th paid its weight's share `Payouts(DrawnWeights)[k]` of the pool, each amount within the pool, the amounts summing to the pool, and records not drawn unchanged |

## Left out

- The Streamlit interface (app.py:1-42, 88-103) and the pandas and matplotlib rendering (app.py:88-125) are not modelled. They only supply the configuration and display the results.
- `random.expovariate` and `random.choices` are not modelled. Their results are parameters, so the exponential means, the selection frequencies, and any seeding or reproducibility are outside the model. `max_stake`, `stake_decay` and `streak_decay` only parametrise those draws and do not appear.
- `math.log` is the parameter `stakeLog`. Only `LogFloor` is assumed of it, and only where a property needs it.
- Floating-point rounding is not modelled: all arithmetic is exact. The "sum to 1" and "sum to the pool" properties hold only in this idealised arithmetic. The model's counts can differ from the script's in float edge cases, where a product such as `100 * 0.29` falls just below an integer before `int()`.
- The errors `random.choices` itself raises are not modelled, for example on an empty population or on weights that sum to 0. The draws are given, and `DistributeWinnings` requires that they are valid positions.
- Simulation.RunSimulation: requires at least one player, the slider ranges of the percentages and a non-negative multiplier (the sliders guarantee 10 ≤ N, 0 ≤ L ≤ 100, 1 ≤ D ≤ 100 and 0 ≤ multiplier). It also requires exactly as many choices as paid winners, each a valid position, which is the contract of `random.choices`.
- Weighting.CalculateProbabilities: its two loops are the methods `AssignWeights` and `AssignProbabilities`, and each iteration of the first loop is the method `AssignWeight`. The zero check of the second loop happens in its first iteration, before any write, as the division does in the script.
- Distribution.DistributeWinnings: the KeyError the script raises for a record without "Winning Probability" (app.py:67) or a drawn record without "Total Weight" (app.py:68) is not modelled. The method accepts records without a probability, and it requires every drawn record to hold a weight. In the script `calculate_probabilities` always runs first and writes both keys into every record, so this path cannot be reached.
- Distribution.DistributeWinnings: the script raises the division by zero inside its loop, at the first iteration and before any write. The model reports it before the loop instead, which leaves the same records unchanged and returns the same error. The loop itself is the method `AssignWinningAmounts`.
