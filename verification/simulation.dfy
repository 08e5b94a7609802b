/**
 * One run of the lottery script, from the slider values to the paid winners:
 * the winner counts, the generated population, the three pools, the
 * probabilities and the distribution of the pool after the fee.
 *
 * Every random outcome is a parameter: the two `random.expovariate` draws of
 * each player (`stakeDraws`, `streakDraws`) and the positions `choices`
 * returned by `random.choices`. Under the slider ranges the run raises
 * nothing, and the amounts paid add up to exactly the pool after the fee.
 */
module Simulation {
  import opened Numeric
  import opened Naming
  import opened Players
  import opened Weighting
  import opened Distribution
  import opened Accounting

  /** The figures the script reports besides the winners table. */
  datatype Summary = Summary(
    numWinners: int,
    numDistributedWinners: int,
    totalPool: int,
    rewardsPool: real,
    poolAfterFee: real)

  method RunSimulation(
    numPlayers: nat,
    loserPercentage: int,
    distributionPercentage: int,
    streakMultiplier: real,
    stakeLog: int -> real,
    stakeDraws: seq<real>,
    streakDraws: seq<real>,
    choices: seq<nat>)
    returns (summary: Summary, players: seq<Player>, winners: seq<Player>)
    requires numPlayers >= 1
    requires 0 <= loserPercentage <= 100
    requires 1 <= distributionPercentage <= 100
    requires streakMultiplier >= 0.0
    requires LogFloor(stakeLog)
    requires |stakeDraws| == numPlayers && |streakDraws| == numPlayers
    requires |choices| == DistributedWinnerCount(WinnerCount(numPlayers, loserPercentage), distributionPercentage)
    requires forall k :: 0 <= k < |choices| ==> choices[k] < numPlayers
    // The counts.
    ensures summary.numWinners == WinnerCount(numPlayers, loserPercentage)
    ensures summary.numDistributedWinners == DistributedWinnerCount(summary.numWinners, distributionPercentage)
    ensures 1 <= summary.numDistributedWinners <= summary.numWinners <= numPlayers
    // The population.
    ensures |players| == numPlayers
    ensures forall i :: 0 <= i < numPlayers ==>
      && players[i].user == PlayerName(i + 1)
      && players[i].stake == ClampedStake(MinStake, stakeDraws[i])
      && players[i].dailyStreak == ClampedStreak(streakDraws[i])
    // The pools.
    ensures summary.totalPool == TotalPool(players) >= numPlayers * MinStake
    ensures summary.rewardsPool == RewardsPool(summary.totalPool)
    ensures summary.poolAfterFee == PoolAfterFee(summary.rewardsPool)
    ensures 0.0 <= summary.poolAfterFee <= summary.rewardsPool <= summary.totalPool as real
    // The probabilities: every player's share of the total weight, adding up to 1.
    ensures var ws := Weights(stakeLog, streakMultiplier, players);
      && Sum(ws) >= numPlayers as real
      && Sum(Ratios(ws, Sum(ws))) == 1.0
      && forall i :: 0 <= i < numPlayers ==>
        && players[i].totalWeight == Some(ws[i])
        && players[i].winningProbability == Some(Ratios(ws, Sum(ws))[i])
        && 0.0 < Ratios(ws, Sum(ws))[i] <= 1.0
    // The winners: one record per choice, each paid its weight's share of the pool after
    // the fee, the shares adding up to exactly that pool.
    ensures |winners| == summary.numDistributedWinners
    ensures forall k :: 0 <= k < |winners| ==>
      && winners[k] == players[choices[k]]
      && winners[k].winningAmount.Some?
      && 0.0 <= winners[k].winningAmount.value <= summary.poolAfterFee
    ensures Sum(DrawnWeights(players, choices)) >= |choices| as real
    ensures forall k :: 0 <= k < |winners| ==>
      winners[k].winningAmount == Some(Payouts(DrawnWeights(players, choices), summary.poolAfterFee)[k])
    ensures Sum(WinningAmounts(winners)) == summary.poolAfterFee
    ensures forall i :: 0 <= i < numPlayers && players[i] !in winners ==> players[i].winningAmount == None
  {
    var numWinners := WinnerCount(numPlayers, loserPercentage);
    var numDistributedWinners := DistributedWinnerCount(numWinners, distributionPercentage);
    WinnerCountsOrdered(numPlayers, loserPercentage, distributionPercentage);

    players := GeneratePlayers(numPlayers, MinStake, stakeDraws, streakDraws);
    var totalPool := TotalPool(players);
    TotalPoolAtLeast(players, MinStake);
    var rewardsPool := RewardsPool(totalPool);
    var poolAfterFee := PoolAfterFee(rewardsPool);
    summary := Summary(numWinners, numDistributedWinners, totalPool, rewardsPool, poolAfterFee);

    WeighGeneratedPopulation(players, stakeLog, streakMultiplier);
    winners := DrawWinners(players, stakeLog, streakMultiplier, choices, poolAfterFee);
  }

  /** `calculate_probabilities` on a generated population: it passes, every probability lies in (0, 1], and they add up to 1. */
  method WeighGeneratedPopulation(players: seq<Player>, stakeLog: int -> real, multiplier: real)
    requires LogFloor(stakeLog) && multiplier >= 0.0 && |players| >= 1
    requires forall i :: 0 <= i < |players| ==> players[i].stake >= MinStake && players[i].dailyStreak >= 1
    modifies players
    ensures var ws := Weights(stakeLog, multiplier, players);
      && Sum(ws) >= |players| as real
      && Sum(Ratios(ws, Sum(ws))) == 1.0
      && forall i :: 0 <= i < |players| ==>
        && players[i].totalWeight == Some(ws[i])
        && players[i].winningProbability == Some(Ratios(ws, Sum(ws))[i])
        && 0.0 < Ratios(ws, Sum(ws))[i] <= 1.0
    ensures forall i :: 0 <= i < |players| ==> players[i].winningAmount == old(players[i].winningAmount)
  {
    var ws := Weights(stakeLog, multiplier, players);
    GeneratedPopulationIsWeighable(stakeLog, multiplier, players);
    var outcome := CalculateProbabilities(players, stakeLog, multiplier);
    assert outcome == Pass;
    ProbabilitiesSumToOne(ws);
    WeightsAtLeastOne(stakeLog, multiplier, players);
    ProbabilitiesInUnitInterval(ws);
  }

  /**
   * `distribute_winnings(players, num_distributed_winners, pool_after_fee)` on a
   * weighed population: it passes, every winner is paid its weight's share of
   * the pool, every paid amount lies within the pool, and the amounts add up to the pool.
   */
  method DrawWinners(
    players: seq<Player>, stakeLog: int -> real, multiplier: real, choices: seq<nat>, poolAfterFee: real)
    returns (winners: seq<Player>)
    requires LogFloor(stakeLog) && multiplier >= 0.0 && poolAfterFee >= 0.0 && |choices| >= 1
    requires forall i :: 0 <= i < |players| ==>
      && players[i].stake >= MinStake && players[i].dailyStreak >= 1
      && players[i].totalWeight == Some(Weight(stakeLog, multiplier, players[i]))
    requires forall k :: 0 <= k < |choices| ==> choices[k] < |players|
    modifies players
    ensures forall i :: 0 <= i < |players| ==>
      && players[i].totalWeight == old(players[i].totalWeight)
      && players[i].winningProbability == old(players[i].winningProbability)
      && (players[i] !in winners ==> players[i].winningAmount == old(players[i].winningAmount))
    ensures |winners| == |choices|
    ensures forall k :: 0 <= k < |winners| ==>
      && winners[k] == players[choices[k]]
      && winners[k].winningAmount.Some?
      && 0.0 <= winners[k].winningAmount.value <= poolAfterFee
    ensures Sum(DrawnWeights(players, choices)) >= |choices| as real
    ensures forall k :: 0 <= k < |winners| ==>
      winners[k].winningAmount == Some(Payouts(DrawnWeights(players, choices), poolAfterFee)[k])
    ensures Sum(WinningAmounts(winners)) == poolAfterFee
  {
    WeightsAtLeastOne(stakeLog, multiplier, players);
    ghost var drawn := DrawnWeights(players, choices);
    assert forall k :: 0 <= k < |drawn| ==> drawn[k] >= 1.0 by {
      forall k | 0 <= k < |drawn|
        ensures drawn[k] >= 1.0
      {
        assert drawn[k] == Weights(stakeLog, multiplier, players)[choices[k]];
      }
    }
    SumAtLeastCount(drawn);
    var result := DistributeWinnings(players, choices, poolAfterFee);
    assert DrawnWeights(players, choices) == drawn;
    assert result.Success?;
    winners := result.value;
    PayoutsWithinPool(drawn, poolAfterFee);
    PayoutsSumToPool(drawn, poolAfterFee);
    assert WinningAmounts(winners) == Payouts(drawn, poolAfterFee);
    forall i | 0 <= i < |players|
      ensures players[i].totalWeight == old(players[i].totalWeight)
      ensures players[i].winningProbability == old(players[i].winningProbability)
      ensures players[i] !in winners ==> players[i].winningAmount == old(players[i].winningAmount)
    {
      assert players[i] in players;
    }
  }
}
