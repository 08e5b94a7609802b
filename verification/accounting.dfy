/**
 * The straight-line arithmetic of the simulation script: how many players
 * win, how many of those are paid, and how large the pools are.
 *
 * Python computes the counts in floating point and truncates them with
 * `int()`; here the same expressions are evaluated in exact reals and
 * truncated with `Trunc`, and the lemmas show that this is the integer
 * floor division the expressions stand for.
 */
module Accounting {
  import opened Numeric
  import opened Players

  /** `max(1, int(num_players * ((100 - loser_percentage) / 100)))`: at least one winner. */
  function WinnerCount(numPlayers: int, loserPercentage: int): (n: int)
    ensures n >= 1
  {
    var winnerPercentage := 100 - loserPercentage;
    Max(1, Trunc(numPlayers as real * (winnerPercentage as real / 100.0)))
  }

  /** `max(1, int(num_winners * (distribution_percentage / 100)))`: at least one paid winner. */
  function DistributedWinnerCount(numWinners: int, distributionPercentage: int): (n: int)
    ensures n >= 1
  {
    Max(1, Trunc(numWinners as real * (distributionPercentage as real / 100.0)))
  }

  /** Taking a whole percentage of a count and truncating is integer floor division by 100. */
  lemma PercentageIsFloorDivision(count: int, percentage: int)
    requires count >= 0 && percentage >= 0
    ensures Trunc(count as real * (percentage as real / 100.0)) == count * percentage / 100
  {
    assert count as real * (percentage as real / 100.0) == (count * percentage) as real / 100 as real;
    TruncOfQuotient(count * percentage, 100);
  }

  /** The winner count is the population minus the losers' share, rounded down, but at least 1. */
  lemma WinnerCountByFloorDivision(numPlayers: int, loserPercentage: int)
    requires numPlayers >= 0 && loserPercentage <= 100
    ensures WinnerCount(numPlayers, loserPercentage) == Max(1, numPlayers * (100 - loserPercentage) / 100)
  {
    PercentageIsFloorDivision(numPlayers, 100 - loserPercentage);
  }

  /** The paid-winner count is the distribution share of the winners, rounded down, but at least 1. */
  lemma DistributedWinnerCountByFloorDivision(numWinners: int, distributionPercentage: int)
    requires numWinners >= 0 && distributionPercentage >= 0
    ensures DistributedWinnerCount(numWinners, distributionPercentage)
         == Max(1, numWinners * distributionPercentage / 100)
  {
    PercentageIsFloorDivision(numWinners, distributionPercentage);
  }

  /** For the slider ranges, 1 <= paid winners <= winners <= players. */
  lemma WinnerCountsOrdered(numPlayers: int, loserPercentage: int, distributionPercentage: int)
    requires numPlayers >= 1
    requires 0 <= loserPercentage <= 100
    requires 1 <= distributionPercentage <= 100
    ensures var winners := WinnerCount(numPlayers, loserPercentage);
      1 <= DistributedWinnerCount(winners, distributionPercentage) <= winners <= numPlayers
  {
    var winners := WinnerCount(numPlayers, loserPercentage);
    WinnerCountByFloorDivision(numPlayers, loserPercentage);
    PercentageAtMostWhole(numPlayers, 100 - loserPercentage);
    DistributedWinnerCountByFloorDivision(winners, distributionPercentage);
    PercentageAtMostWhole(winners, distributionPercentage);
  }

  /** At most 100 percent of a count, rounded down, is at most the count. */
  lemma PercentageAtMostWhole(count: int, percentage: int)
    requires count >= 0 && 0 <= percentage <= 100
    ensures 0 <= count * percentage / 100 <= count
  {
    assert count * percentage <= count * 100;
  }

  /** `sum(player["Stake"] for player in players)`: no stake is negative, so neither is the pool, and it holds each stake. */
  function TotalPool(players: seq<Player>): (total: int)
    ensures (forall i :: 0 <= i < |players| ==> players[i].stake >= 0) ==>
      total >= 0 && forall i :: 0 <= i < |players| ==> total >= players[i].stake
  {
    if players == [] then 0 else TotalPool(players[..|players| - 1]) + players[|players| - 1].stake
  }

  /** Every stake is at least the floor, so the pool is at least the floor times the population. */
  lemma {:induction false} TotalPoolAtLeast(players: seq<Player>, minStake: int)
    requires forall i :: 0 <= i < |players| ==> players[i].stake >= minStake
    ensures TotalPool(players) >= |players| * minStake
  {
    if players != [] {
      var n := |players| - 1;
      TotalPoolAtLeast(players[..n], minStake);
      assert |players| * minStake == n * minStake + minStake;
    }
  }

  /** `total_pool * 0.15`: the rewards pool is a part of the total pool. */
  function RewardsPool(totalPool: int): (r: real)
    ensures totalPool >= 0 ==> 0.0 <= r <= totalPool as real
    ensures totalPool < 0 ==> totalPool as real <= r < 0.0
  {
    totalPool as real * 0.15
  }

  /** `rewards_pool * 0.95`: the pool after the fee is a part of the rewards pool. */
  function PoolAfterFee(rewardsPool: real): (r: real)
    ensures rewardsPool >= 0.0 ==> 0.0 <= r <= rewardsPool
    ensures rewardsPool < 0.0 ==> rewardsPool <= r < 0.0
  {
    rewardsPool * 0.95
  }

  /** What is paid out is 14.25 percent of everything staked, and never more than was staked. */
  lemma PoolsOrdered(totalPool: int)
    requires totalPool >= 0
    ensures 0.0 <= PoolAfterFee(RewardsPool(totalPool)) <= RewardsPool(totalPool) <= totalPool as real
    ensures PoolAfterFee(RewardsPool(totalPool)) == totalPool as real * 0.1425
  {
  }

  /** The default run: 100 players, 15% losers, 5% distributed; and a pool of 1000. */
  lemma DefaultScenario()
    ensures WinnerCount(100, 15) == 85
    ensures DistributedWinnerCount(85, 5) == 4
    ensures RewardsPool(1000) == 150.0
    ensures PoolAfterFee(150.0) == 142.5
  {
    WinnerCountByFloorDivision(100, 15);
    DistributedWinnerCountByFloorDivision(85, 5);
  }
}
